/** Sums over the entries of a balance mapping. */
module Ledgers {
  import opened Evm

  type Ledger = map<Address, nat>

  function At(m: Ledger, a: Address): nat {
    Read(m, a, 0)
  }

  /** The sum of the balances of a set of accounts. */
  ghost function Sum(m: Ledger, accounts: set<Address>): nat {
    if accounts == {} then 0
    else
      var a :| a in accounts;
      At(m, a) + Sum(m, accounts - {a})
  }

  ghost function Total(m: Ledger): nat {
    Sum(m, m.Keys)
  }

  lemma {:induction false} SumExcept(m: Ledger, accounts: set<Address>, a: Address)
    requires a in accounts
    ensures Sum(m, accounts) == At(m, a) + Sum(m, accounts - {a})
    decreases |accounts|
  {
    var b :| b in accounts && Sum(m, accounts) == At(m, b) + Sum(m, accounts - {b});
    if a != b {
      SumExcept(m, accounts - {b}, a);
      SumExcept(m, accounts - {a}, b);
      assert accounts - {b} - {a} == accounts - {a} - {b};
    }
  }

  lemma {:induction false} SumDependsOnEntries(m: Ledger, m': Ledger, accounts: set<Address>)
    requires forall a :: a in accounts ==> At(m, a) == At(m', a)
    ensures Sum(m, accounts) == Sum(m', accounts)
    decreases |accounts|
  {
    if accounts != {} {
      var a :| a in accounts;
      SumExcept(m, accounts, a);
      SumExcept(m', accounts, a);
      SumDependsOnEntries(m, m', accounts - {a});
    }
  }

  /** Writing one entry changes the total by the difference. */
  lemma TotalWrite(m: Ledger, a: Address, v: nat)
    ensures Total(m[a := v]) == Total(m) - At(m, a) + v
    ensures At(m, a) <= Total(m)
  {
    var m' := m[a := v];
    SumExcept(m', m'.Keys, a);
    assert m'.Keys - {a} == m.Keys - {a};
    SumDependsOnEntries(m, m', m.Keys - {a});
    if a in m {
      SumExcept(m, m.Keys, a);
    } else {
      assert m.Keys - {a} == m.Keys;
    }
  }
}
