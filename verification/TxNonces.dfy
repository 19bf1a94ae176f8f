/** src/app/core.services/transaction.service.ts, getLatestNonce: one stored nonce per chain and wallet. */
module TxNonces {
  import opened Evm

  datatype Key = Key(chainId: int, wallet: string)

  /** One call: for which wallet, and what the chain reports as its transaction count. */
  datatype Request = Request(key: Key, txCount: nat)

  type Table = map<Key, nat>

  /** The nonce handed out when `stored` is in the row. */
  function Next(stored: nat, txCount: nat): nat {
    if stored == 0 || stored < txCount then txCount else stored + 1
  }

  class TransactionService {
    var table: Table

    constructor ()
      ensures table == map[]
    {
      table := map[];
    }

    /** Finds or creates the row, then writes the nonce back. */
    method GetLatestNonce(key: Key, txCount: nat) returns (nonce: nat)
      modifies this
      ensures nonce == Next(Read(old(table), key, 0), txCount)
      ensures table == old(table)[key := nonce]
    {
      if key !in table {
        table := table[key := 0];
      }
      nonce := table[key];
      if nonce == 0 || nonce < txCount {
        nonce := txCount;
      } else {
        nonce := nonce + 1;
      }
      table := table[key := nonce];
    }

    method Serve(requests: seq<Request>) returns (nonces: seq<nat>)
      modifies this
      ensures nonces == Results(old(table), requests) && table == After(old(table), requests)
    {
      nonces := [];
      var i := 0;
      while i < |requests|
        invariant i <= |requests|
        invariant nonces + Results(table, requests[i..]) == Results(old(table), requests)
        invariant After(table, requests[i..]) == After(old(table), requests)
      {
        assert requests[i..][1..] == requests[i + 1..];
        var nonce := GetLatestNonce(requests[i].key, requests[i].txCount);
        nonces := nonces + [nonce];
        i := i + 1;
      }
    }
  }

  // ----- serialised runs -----

  function Step(t: Table, r: Request): Table {
    t[r.key := Next(Read(t, r.key, 0), r.txCount)]
  }

  function After(t: Table, rs: seq<Request>): Table
    decreases |rs|
  {
    if rs == [] then t else After(Step(t, rs[0]), rs[1..])
  }

  function Results(t: Table, rs: seq<Request>): (nonces: seq<nat>)
    ensures |nonces| == |rs|
    decreases |rs|
  {
    if rs == [] then [] else [Next(Read(t, rs[0].key, 0), rs[0].txCount)] + Results(Step(t, rs[0]), rs[1..])
  }

  lemma ResultsOfCons(t: Table, r: Request, rest: seq<Request>)
    ensures Results(t, [r] + rest) == [Next(Read(t, r.key, 0), r.txCount)] + Results(Step(t, r), rest)
  {
    assert ([r] + rest)[1..] == rest;
  }

  /** Each result is at least the chain's count. */
  lemma {:induction false} ResultsReachTheCount(t: Table, rs: seq<Request>, i: nat)
    requires i < |rs|
    ensures rs[i].txCount <= Results(t, rs)[i]
    decreases |rs|
  {
    if i > 0 {
      ResultsReachTheCount(Step(t, rs[0]), rs[1..], i - 1);
    }
  }

  /** Every later result for a key exceeds what is stored, once that is positive. */
  lemma {:induction false} ResultsExceedStored(t: Table, rs: seq<Request>, i: nat)
    requires i < |rs| && Read(t, rs[i].key, 0) > 0
    ensures Results(t, rs)[i] > Read(t, rs[i].key, 0)
    decreases |rs|
  {
    if i > 0 {
      ResultsExceedStored(Step(t, rs[0]), rs[1..], i - 1);
    }
  }

  /** For one key the results are strictly increasing from the first positive one on. */
  lemma {:induction false} ResultsIncrease(t: Table, rs: seq<Request>, i: nat, j: nat)
    requires i < j < |rs| && rs[i].key == rs[j].key && Results(t, rs)[i] > 0
    ensures Results(t, rs)[i] < Results(t, rs)[j]
    decreases |rs|
  {
    if i == 0 {
      ResultsExceedStored(Step(t, rs[0]), rs[1..], j - 1);
    } else {
      ResultsIncrease(Step(t, rs[0]), rs[1..], i - 1, j - 1);
    }
  }

  /** The result is 0 only as long as nothing but 0 has been stored and reported. */
  lemma {:induction false} ZeroExactly(t: Table, rs: seq<Request>, j: nat)
    requires j < |rs|
    ensures Results(t, rs)[j] == 0
            <==> Read(t, rs[j].key, 0) == 0 && forall k :: 0 <= k <= j && rs[k].key == rs[j].key ==> rs[k].txCount == 0
    decreases |rs|
  {
    if j > 0 {
      var rest := rs[1..];
      ZeroExactly(Step(t, rs[0]), rest, j - 1);
      assert forall k :: 0 <= k < j ==> rest[k] == rs[k + 1];
      assert forall k :: 0 < k <= j ==> rs[k] == rest[k - 1];
    }
  }

  /**
   Two results for one key are equal if and only if nothing but 0 is stored and reported up to the later one: the nonce
   0 is handed out again for as long as the chain reports no transaction.
   */
  lemma RepeatedExactly(t: Table, rs: seq<Request>, i: nat, j: nat)
    requires i < j < |rs| && rs[i].key == rs[j].key
    ensures Results(t, rs)[i] == Results(t, rs)[j]
            <==> Read(t, rs[j].key, 0) == 0 && forall k :: 0 <= k <= j && rs[k].key == rs[j].key ==> rs[k].txCount == 0
  {
    ZeroExactly(t, rs, i);
    ZeroExactly(t, rs, j);
    if Results(t, rs)[i] > 0 {
      ResultsIncrease(t, rs, i, j);
    }
  }

  /** The requests for one key. */
  function For(rs: seq<Request>, key: Key): seq<Request> {
    if rs == [] then [] else (if rs[0].key == key then [rs[0]] else []) + For(rs[1..], key)
  }

  /** The results of the requests for one key. */
  function ResultsFor(t: Table, rs: seq<Request>, key: Key): seq<nat>
    decreases |rs|
  {
    if rs == [] then []
    else (if rs[0].key == key then [Results(t, rs)[0]] else []) + ResultsFor(Step(t, rs[0]), rs[1..], key)
  }

  /** Calls for other chains and wallets in between change nothing for this one. */
  lemma {:induction false} OtherKeysDoNotMatter(t: Table, t': Table, rs: seq<Request>, key: Key)
    requires Read(t, key, 0) == Read(t', key, 0)
    ensures ResultsFor(t, rs, key) == Results(t', For(rs, key))
    ensures Read(After(t, rs), key, 0) == Read(After(t', For(rs, key)), key, 0)
    decreases |rs|
  {
    if rs != [] {
      if rs[0].key == key {
        assert For(rs, key)[0] == rs[0] && For(rs, key)[1..] == For(rs[1..], key);
        OtherKeysDoNotMatter(Step(t, rs[0]), Step(t', rs[0]), rs[1..], key);
      } else {
        assert [] + For(rs[1..], key) == For(rs[1..], key);
        OtherKeysDoNotMatter(Step(t, rs[0]), t', rs[1..], key);
      }
    }
  }

  predicate CountUpFrom(nonces: seq<nat>, first: nat) {
    forall i :: 0 <= i < |nonces| ==> nonces[i] == first + i
  }

  /** The chain's count never exceeds the next consecutive nonce. */
  predicate NeverAhead(rs: seq<Request>, first: nat) {
    forall i :: 0 <= i < |rs| ==> rs[i].txCount <= first + i
  }

  lemma CountUpTail(n: nat, rest: seq<nat>, first: nat)
    ensures CountUpFrom([n] + rest, first) <==> n == first && CountUpFrom(rest, first + 1)
  {
    var all := [n] + rest;
    assert all[0] == n;
    if CountUpFrom(all, first) {
      forall i | 0 <= i < |rest|
        ensures rest[i] == first + 1 + i
      {
        assert all[i + 1] == rest[i];
      }
    }
    if n == first && CountUpFrom(rest, first + 1) {
      forall i | 0 <= i < |all|
        ensures all[i] == first + i
      {
        assert i > 0 ==> all[i] == rest[i - 1];
      }
    }
  }

  lemma NeverAheadTail(rs: seq<Request>, first: nat)
    requires rs != []
    ensures NeverAhead(rs, first) <==> rs[0].txCount <= first && NeverAhead(rs[1..], first + 1)
  {
    assert forall i :: 0 <= i < |rs| - 1 ==> rs[1..][i] == rs[i + 1];
    assert forall i :: 0 < i < |rs| ==> rs[i] == rs[1..][i - 1];
  }

  /** The nonces for one key are consecutive exactly as long as the chain's count is never ahead of the next one. */
  lemma {:induction false} ConsecutiveExactly(t: Table, rs: seq<Request>, key: Key)
    requires Read(t, key, 0) > 0
    requires forall j :: 0 <= j < |rs| ==> rs[j].key == key
    ensures CountUpFrom(Results(t, rs), Read(t, key, 0) + 1) <==> NeverAhead(rs, Read(t, key, 0) + 1)
    decreases |rs|
  {
    if rs != [] {
      var next := Step(t, rs[0]);
      CountUpTail(Next(Read(t, key, 0), rs[0].txCount), Results(next, rs[1..]), Read(t, key, 0) + 1);
      NeverAheadTail(rs, Read(t, key, 0) + 1);
      ConsecutiveExactly(next, rs[1..], key);
    }
  }
}
