/**
 contract/nft2.sol, ERC721Enumerable: when the index mappings agree with an owner mapping and its balances.
 The predicates take the owner mapping as an argument because the hook updates the indexes for owners and balances
 that are written only later.
 */
module Enumerations {
  import opened Evm
  import opened Sequences
  import opened Erc721
  import opened Ledgers

  type Owners = map<Uint256, Address>
  type Slots = map<(Address, nat), Uint256>
  type Positions = map<Uint256, nat>

  function OwnerAt(owners: Owners, t: Uint256): Address {
    Read(owners, t, ZERO)
  }

  function SlotAt(slots: Slots, a: Address, i: nat): Uint256 {
    Read(slots, (a, i), 0)
  }

  function PositionAt(positions: Positions, t: Uint256): nat {
    Read(positions, t, 0)
  }

  /** The existing tokens with their owners. */
  function Existing(owners: Owners): map<Uint256, Account> {
    map t | t in owners && owners[t] != ZERO :: owners[t]
  }

  /** Slot `i` of `a`: below the balance it holds a token of `a` whose position is `i`, above it is zero. */
  ghost predicate SlotOk(owners: Owners, balances: Ledger, slots: Slots, positions: Positions, a: Address, i: nat) {
    if i < At(balances, a) then
      OwnerAt(owners, SlotAt(slots, a, i)) == a && PositionAt(positions, SlotAt(slots, a, i)) == i
    else SlotAt(slots, a, i) == 0
  }

  /** Token `t`: if it exists its owner's slot at its position holds it, otherwise its position is zero. */
  ghost predicate TokenOk(owners: Owners, balances: Ledger, slots: Slots, positions: Positions, t: Uint256) {
    var owner := OwnerAt(owners, t);
    if owner != ZERO then
      PositionAt(positions, t) < At(balances, owner) && SlotAt(slots, owner, PositionAt(positions, t)) == t
    else PositionAt(positions, t) == 0
  }

  /**
   For every owner, slots 0..balance-1 list exactly its tokens, `positions` is the inverse, and every other slot and
   the position of every nonexistent token is zero.
   */
  ghost predicate OwnerIndexed(owners: Owners, balances: Ledger, slots: Slots, positions: Positions) {
    && At(balances, ZERO) == 0
    && (forall a: Address, i: nat :: SlotOk(owners, balances, slots, positions, a, i))
    && (forall t: Uint256 :: TokenOk(owners, balances, slots, positions, t))
  }

  /** `all` lists exactly the existing tokens and `positions` is the inverse. */
  ghost predicate AllIndexed(owners: Owners, all: seq<Uint256>, positions: Positions) {
    && (forall i :: 0 <= i < |all| ==> OwnerAt(owners, all[i]) != ZERO && PositionAt(positions, all[i]) == i)
    && (forall t: Uint256 :: OwnerAt(owners, t) != ZERO ==>
          PositionAt(positions, t) < |all| && all[PositionAt(positions, t)] == t)
    && (forall t: Uint256 :: OwnerAt(owners, t) == ZERO ==> PositionAt(positions, t) == 0)
  }

  /** The enumeration of `a` in slot order. */
  ghost function ListOf(slots: Slots, a: Address, n: nat): seq<Uint256> {
    seq(n, i requires i >= 0 => SlotAt(slots, a, i))
  }

  // ----- agreement is preserved by the four index updates -----

  lemma SlotAdded(owners: Owners, balances: Ledger, slots: Slots, positions: Positions, to: Address, id: Uint256)
    requires OwnerIndexed(owners, balances, slots, positions)
    requires to != ZERO && OwnerAt(owners, id) == ZERO
    ensures var n := At(balances, to);
            OwnerIndexed(owners[id := to], balances[to := n + 1], slots[(to, n) := id], positions[id := n])
  {
    var n := At(balances, to);
    var owners', balances' := owners[id := to], balances[to := n + 1];
    var slots', positions' := slots[(to, n) := id], positions[id := n];
    forall a: Address, i: nat
      ensures SlotOk(owners', balances', slots', positions', a, i)
    {
      assert SlotOk(owners, balances, slots, positions, a, i);
    }
    forall t: Uint256
      ensures TokenOk(owners', balances', slots', positions', t)
    {
      assert TokenOk(owners, balances, slots, positions, t);
    }
  }

  lemma SlotRemoved(owners: Owners, balances: Ledger, slots: Slots, positions: Positions, from: Address, id: Uint256)
    requires OwnerIndexed(owners, balances, slots, positions)
    requires from != ZERO && OwnerAt(owners, id) == from
    ensures PositionAt(positions, id) < At(balances, from)
    ensures SlotAt(slots, from, PositionAt(positions, id)) == id
    ensures var n := At(balances, from) - 1;
            var p := PositionAt(positions, id);
            var last := SlotAt(slots, from, n);
            OwnerIndexed(owners - {id}, balances[from := n],
                         slots[(from, p) := last] - {(from, n)}, positions[last := p] - {id})
  {
    assert TokenOk(owners, balances, slots, positions, id);
    var n := At(balances, from) - 1;
    var p := PositionAt(positions, id);
    var last := SlotAt(slots, from, n);
    var owners', balances' := owners - {id}, balances[from := n];
    var slots', positions' := slots[(from, p) := last] - {(from, n)}, positions[last := p] - {id};
    assert SlotOk(owners, balances, slots, positions, from, n);
    forall a: Address, i: nat
      ensures SlotOk(owners', balances', slots', positions', a, i)
    {
      assert SlotOk(owners, balances, slots, positions, a, i);
    }
    forall t: Uint256
      ensures TokenOk(owners', balances', slots', positions', t)
    {
      assert TokenOk(owners, balances, slots, positions, t);
    }
  }

  /** The lists after a removal: swap-and-pop for `from`, everybody else untouched. */
  lemma ListsAfterRemoval(slots: Slots, from: Address, n: nat, p: nat)
    requires p <= n
    ensures var slots' := slots[(from, p) := SlotAt(slots, from, n)] - {(from, n)};
            && ListOf(slots', from, n) == SwapRemove(ListOf(slots, from, n + 1), p)
            && forall a: Address, k: nat :: a != from ==> ListOf(slots', a, k) == ListOf(slots, a, k)
  {
  }

  /** The lists after an addition: `to` gains an entry at the end. */
  lemma ListsAfterAddition(slots: Slots, to: Address, n: nat, id: Uint256)
    ensures var slots' := slots[(to, n) := id];
            && ListOf(slots', to, n + 1) == ListOf(slots, to, n) + [id]
            && forall a: Address, k: nat :: a != to ==> ListOf(slots', a, k) == ListOf(slots, a, k)
  {
  }

  lemma AllAdded(owners: Owners, all: seq<Uint256>, positions: Positions, to: Address, id: Uint256)
    requires AllIndexed(owners, all, positions)
    requires to != ZERO && OwnerAt(owners, id) == ZERO
    ensures AllIndexed(owners[id := to], all + [id], positions[id := |all|])
  {
    var owners', all', positions' := owners[id := to], all + [id], positions[id := |all|];
    forall i | 0 <= i < |all'|
      ensures OwnerAt(owners', all'[i]) != ZERO && PositionAt(positions', all'[i]) == i
    {
      if i < |all| {
        assert OwnerAt(owners, all[i]) != ZERO && PositionAt(positions, all[i]) == i;
      }
    }
    forall t: Uint256
      ensures OwnerAt(owners', t) != ZERO ==> PositionAt(positions', t) < |all'| && all'[PositionAt(positions', t)] == t
      ensures OwnerAt(owners', t) == ZERO ==> PositionAt(positions', t) == 0
    {
      if t != id {
        assert OwnerAt(owners', t) == OwnerAt(owners, t) && PositionAt(positions', t) == PositionAt(positions, t);
      }
    }
  }

  lemma AllRemoved(owners: Owners, all: seq<Uint256>, positions: Positions, id: Uint256)
    requires AllIndexed(owners, all, positions)
    requires OwnerAt(owners, id) != ZERO
    ensures PositionAt(positions, id) < |all|
    ensures var p := PositionAt(positions, id);
            AllIndexed(owners - {id}, SwapRemove(all, p), positions[all[|all| - 1] := p] - {id})
  {
    var n := |all| - 1;
    var p := PositionAt(positions, id);
    var owners', all', positions' := owners - {id}, SwapRemove(all, p), positions[all[n] := p] - {id};
    assert PositionAt(positions, all[n]) == n;
    forall i | 0 <= i < |all'|
      ensures OwnerAt(owners', all'[i]) != ZERO && PositionAt(positions', all'[i]) == i
    {
      var j := if i == p then n else i;
      assert all'[i] == all[j];
      assert OwnerAt(owners, all[j]) != ZERO && PositionAt(positions, all[j]) == j;
    }
    forall t: Uint256
      ensures OwnerAt(owners', t) != ZERO ==> PositionAt(positions', t) < |all'| && all'[PositionAt(positions', t)] == t
      ensures OwnerAt(owners', t) == ZERO ==> PositionAt(positions', t) == 0
    {
      if t != id {
        assert OwnerAt(owners', t) == OwnerAt(owners, t);
        assert OwnerAt(owners, t) != ZERO ==> all[PositionAt(positions, t)] == t;
      }
    }
  }

  /** A self-transfer touches no index: the rewritten owner and balance read as before. */
  lemma SelfTransferAgrees(owners: Owners, balances: Ledger, slots: Slots, positions: Positions,
                           a: Address, id: Uint256)
    requires OwnerIndexed(owners, balances, slots, positions)
    requires a != ZERO && OwnerAt(owners, id) == a
    ensures At(balances, a) > 0
    ensures var n := At(balances, a);
            OwnerIndexed(owners[id := a], balances[a := n - 1][a := n], slots, positions)
  {
    assert TokenOk(owners, balances, slots, positions, id);
    var n := At(balances, a);
    var owners', balances' := owners[id := a], balances[a := n - 1][a := n];
    forall b: Address, i: nat
      ensures SlotOk(owners', balances', slots, positions, b, i)
    {
      assert SlotOk(owners, balances, slots, positions, b, i);
    }
    forall t: Uint256
      ensures TokenOk(owners', balances', slots, positions, t)
    {
      assert TokenOk(owners, balances, slots, positions, t);
    }
  }

  /** The global enumeration does not depend on who owns an existing token. */
  lemma AllUnaffectedByTransfer(owners: Owners, all: seq<Uint256>, positions: Positions, to: Address, id: Uint256)
    requires AllIndexed(owners, all, positions)
    requires to != ZERO && OwnerAt(owners, id) != ZERO
    ensures AllIndexed(owners[id := to], all, positions)
  {
    assert forall t: Uint256 :: OwnerAt(owners[id := to], t) == ZERO <==> OwnerAt(owners, t) == ZERO;
  }

  /** An owner's balance is positive, so the hook and the transfer can subtract from it. */
  lemma OwnerHasBalance(owners: Owners, balances: Ledger, slots: Slots, positions: Positions, id: Uint256)
    requires OwnerIndexed(owners, balances, slots, positions)
    requires OwnerAt(owners, id) != ZERO
    ensures At(balances, OwnerAt(owners, id)) > 0
  {
    assert TokenOk(owners, balances, slots, positions, id);
  }

  /** Writing and deleting an entry of an owner (or approval) mapping, seen as a map of existing entries. */
  lemma ExistingUpdated(owners: Owners, id: Uint256, to: Address)
    ensures Existing(owners[id := to]) == if to == ZERO then Existing(owners) - {id} else Existing(owners)[id := to]
    ensures Existing(owners - {id}) == Existing(owners) - {id}
    ensures id in Existing(owners) <==> OwnerAt(owners, id) != ZERO
    ensures id in Existing(owners) ==> Existing(owners)[id] == OwnerAt(owners, id)
  {
  }

  // ----- what agreement says about the plain owner map -----

  /** A balance counts the tokens of its account, and the slots below it enumerate them without repetition. */
  lemma BalanceCounts(owners: Owners, balances: Ledger, slots: Slots, positions: Positions, a: Address)
    requires OwnerIndexed(owners, balances, slots, positions)
    ensures At(balances, a) == |TokensOf(Existing(owners), a)|
    ensures var l := ListOf(slots, a, At(balances, a));
            Distinct(l) && forall t :: t in l <==> t in TokensOf(Existing(owners), a)
  {
    var l := ListOf(slots, a, At(balances, a));
    forall i, j | 0 <= i < j < |l|
      ensures l[i] != l[j]
    {
      assert SlotOk(owners, balances, slots, positions, a, i) && SlotOk(owners, balances, slots, positions, a, j);
    }
    forall t
      ensures t in l <==> t in TokensOf(Existing(owners), a)
    {
      if t in TokensOf(Existing(owners), a) {
        assert TokenOk(owners, balances, slots, positions, t);
        assert l[PositionAt(positions, t)] == t;
      }
      if t in l {
        var i :| 0 <= i < |l| && l[i] == t;
        assert SlotOk(owners, balances, slots, positions, a, i);
      }
    }
    DistinctCardinality(l);
    assert ToSet(l) == TokensOf(Existing(owners), a);
  }

  /** The balance of `a` once the token being moved is taken out. */
  lemma BalanceCountsOthers(owners: Owners, balances: Ledger, slots: Slots, positions: Positions,
                            a: Address, id: Uint256)
    requires OwnerIndexed(owners, balances, slots, positions)
    requires OwnerAt(owners, id) != ZERO
    ensures |TokensOf(Existing(owners) - {id}, a)|
            == At(balances, a) - if OwnerAt(owners, id) == a then 1 else 0
  {
    BalanceCounts(owners, balances, slots, positions, a);
    assert TokensOf(Existing(owners) - {id}, a) == TokensOf(Existing(owners), a) - {id};
  }

  /** `all` enumerates the existing tokens without repetition. */
  lemma AllCounts(owners: Owners, all: seq<Uint256>, positions: Positions)
    requires AllIndexed(owners, all, positions)
    ensures Distinct(all) && |all| == |Existing(owners)|
    ensures forall t :: t in all <==> t in Existing(owners)
  {
    forall t
      ensures t in all <==> t in Existing(owners)
    {
      if t in Existing(owners) {
        assert OwnerAt(owners, t) != ZERO;
        assert all[PositionAt(positions, t)] == t;
      }
      if t in all {
        var i :| 0 <= i < |all| && all[i] == t;
        assert OwnerAt(owners, all[i]) != ZERO;
      }
    }
    DistinctCardinality(all);
    assert ToSet(all) == Existing(owners).Keys;
  }

  ghost function HeldBy(owner: map<Uint256, Account>, accounts: set<Address>): set<Uint256> {
    set t | t in owner && owner[t] in accounts
  }

  lemma {:induction false} SumCountsHeldTokens(owners: Owners, balances: Ledger, slots: Slots, positions: Positions,
                                               accounts: set<Address>)
    requires OwnerIndexed(owners, balances, slots, positions)
    ensures Sum(balances, accounts) == |HeldBy(Existing(owners), accounts)|
  {
    var held := HeldBy(Existing(owners), accounts);
    if accounts == {} {
      assert held == {};
    } else {
      var a :| a in accounts;
      SumExcept(balances, accounts, a);
      var rest := HeldBy(Existing(owners), accounts - {a});
      SumCountsHeldTokens(owners, balances, slots, positions, accounts - {a});
      BalanceCounts(owners, balances, slots, positions, a);
      assert held == TokensOf(Existing(owners), a) + rest;
      assert TokensOf(Existing(owners), a) !! rest;
    }
  }

  /** The sum of all balances is the total supply, whatever set of accounts covering the owners is summed. */
  lemma SumOfBalancesIsTotalSupply(owners: Owners, balances: Ledger, slots: Slots, positions: Positions,
                                   all: seq<Uint256>, allPositions: Positions, accounts: set<Address>)
    requires OwnerIndexed(owners, balances, slots, positions)
    requires AllIndexed(owners, all, allPositions)
    requires forall t :: t in Existing(owners) ==> Existing(owners)[t] in accounts
    ensures Sum(balances, accounts) == |all|
  {
    SumCountsHeldTokens(owners, balances, slots, positions, accounts);
    AllCounts(owners, all, allPositions);
    assert HeldBy(Existing(owners), accounts) == Existing(owners).Keys;
  }
}
