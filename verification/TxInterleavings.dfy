/**
 getLatestNonce (src/app/core.services/transaction.service.ts) step by step: a call finds or creates its row, and later
 writes the new nonce back; other calls run in between. Nothing in the table forbids two rows for one key.
 */
module TxInterleavings {
  import opened Wrappers
  import opened Evm
  import opened Sequences
  import opened TxNonces

  datatype Row = Row(key: Key, nonce: nat)

  /** How far one call has come: `stored` is the nonce that it read from its row. */
  datatype Call =
    | Missing(key: Key, txCount: nat)
    | Located(key: Key, txCount: nat, rowId: nat, stored: nat)
    | Done

  datatype State = State(rows: map<nat, Row>, nextRow: nat, calls: map<nat, Call>)

  datatype Step =
    // `choice` is the row that findFirst happens to return, if there is one for the key.
    | Find(call: nat, key: Key, txCount: nat, choice: Option<nat>)
    | Create(call: nat)
    | Update(call: nat)

  predicate IsRowOf(st: State, id: nat, key: Key) {
    id in st.rows && st.rows[id].key == key
  }

  /** findFirst returns some row of the key, and nothing only if there is none. */
  predicate MayReturn(st: State, key: Key, choice: Option<nat>) {
    match choice
    case Some(id) => IsRowOf(st, id, key)
    case None => forall id :: id in st.rows ==> st.rows[id].key != key
  }

  /** The nonce that a call under way will write and return; a row still to be created will hold 0. */
  function Nonce(c: Call): nat
    requires !c.Done?
  {
    Next(if c.Located? then c.stored else 0, c.txCount)
  }

  function Apply(st: State, step: Step): State {
    match step
    case Find(call, key, txCount, choice) =>
      if call in st.calls || !MayReturn(st, key, choice) then st
      else
        var found := match choice
          case None => Missing(key, txCount)
          case Some(id) => Located(key, txCount, id, st.rows[id].nonce);
        st.(calls := st.calls[call := found])
    case Create(call) =>
      if call !in st.calls || !st.calls[call].Missing? then st
      else
        var c := st.calls[call];
        State(st.rows[st.nextRow := Row(c.key, 0)], st.nextRow + 1,
              st.calls[call := Located(c.key, c.txCount, st.nextRow, 0)])
    case Update(call) =>
      if call !in st.calls || !st.calls[call].Located? || st.calls[call].rowId !in st.rows then st
      else
        var c := st.calls[call];
        st.(rows := st.rows[c.rowId := Row(c.key, Nonce(c))], calls := st.calls[call := Done])
  }

  function Run(st: State, steps: seq<Step>): State
    decreases |steps|
  {
    if steps == [] then st else Run(Apply(st, steps[0]), steps[1..])
  }

  /** The call is under way for the key. */
  predicate Pending(st: State, call: nat, key: Key) {
    call in st.calls && !st.calls[call].Done? && st.calls[call].key == key
  }

  /** The step writes and returns a nonce for the key. */
  predicate Hands(st: State, step: Step, key: Key) {
    && step.Update? && Pending(st, step.call, key)
    && st.calls[step.call].Located? && st.calls[step.call].rowId in st.rows
  }

  /** The nonces returned for one key, in the order of the writes, and the requests they answer. */
  ghost function Handed(st: State, steps: seq<Step>, key: Key): seq<nat>
    decreases |steps|
  {
    if steps == [] then []
    else (if Hands(st, steps[0], key) then [Nonce(st.calls[steps[0].call])] else [])
         + Handed(Apply(st, steps[0]), steps[1..], key)
  }

  ghost function Answered(st: State, steps: seq<Step>, key: Key): seq<Request>
    decreases |steps|
  {
    if steps == [] then []
    else (if Hands(st, steps[0], key) then [Request(key, st.calls[steps[0].call].txCount)] else [])
         + Answered(Apply(st, steps[0]), steps[1..], key)
  }

  /** No call looks for the key's row while another one is under way for the same key. */
  ghost predicate Exclusive(st: State, steps: seq<Step>, key: Key)
    decreases |steps|
  {
    steps == [] || ((Starts(st, steps[0], key) ==> forall call :: !Pending(st, call, key))
                    && Exclusive(Apply(st, steps[0]), steps[1..], key))
  }

  predicate Starts(st: State, step: Step, key: Key) {
    step.Find? && step.key == key && step.call !in st.calls && MayReturn(st, key, step.choice)
  }

  /** Row ids are fresh, and located calls point to rows of their key. */
  ghost predicate Consistent(st: State) {
    && (forall id :: id in st.rows ==> id < st.nextRow)
    && (forall call :: call in st.calls && st.calls[call].Located? ==>
          IsRowOf(st, st.calls[call].rowId, st.calls[call].key))
  }

  lemma StepIsConsistent(st: State, step: Step)
    requires Consistent(st)
    ensures Consistent(Apply(st, step))
  {
  }

  // ----- calls that do not overlap -----

  /** The key has at most one row; its nonce is `stored`, which is 0 if there is no row. */
  ghost predicate Stored(st: State, key: Key, stored: nat) {
    && (forall a, b :: IsRowOf(st, a, key) && IsRowOf(st, b, key) ==> a == b)
    && (forall id :: IsRowOf(st, id, key) ==> st.rows[id].nonce == stored)
    && ((forall id :: !IsRowOf(st, id, key)) ==> stored == 0)
  }

  /** At most one call is under way, and it has read what is stored. */
  ghost predicate Single(st: State, key: Key, stored: nat) {
    && (forall a, b :: Pending(st, a, key) && Pending(st, b, key) ==> a == b)
    && (forall a :: Pending(st, a, key) && st.calls[a].Located? ==> st.calls[a].stored == stored)
    && (forall a :: Pending(st, a, key) && st.calls[a].Missing? ==> forall id :: !IsRowOf(st, id, key))
  }

  lemma ExclusiveFind(st: State, step: Step, key: Key, stored: nat)
    requires step.Find? && Stored(st, key, stored) && Single(st, key, stored)
    requires Starts(st, step, key) ==> forall call :: !Pending(st, call, key)
    ensures Stored(Apply(st, step), key, stored) && Single(Apply(st, step), key, stored)
  {
    var st' := Apply(st, step);
    assert forall a :: Pending(st', a, key) && a != step.call ==> Pending(st, a, key);
    assert forall id :: IsRowOf(st', id, key) <==> IsRowOf(st, id, key);
  }

  lemma ExclusiveCreate(st: State, step: Step, key: Key, stored: nat)
    requires step.Create? && Consistent(st) && Stored(st, key, stored) && Single(st, key, stored)
    ensures Stored(Apply(st, step), key, stored) && Single(Apply(st, step), key, stored)
  {
    var st' := Apply(st, step);
    assert forall a :: Pending(st', a, key) ==> Pending(st, a, key);
    assert forall id :: IsRowOf(st, id, key) ==> IsRowOf(st', id, key);
    assert forall id :: IsRowOf(st', id, key) && id != st.nextRow ==> IsRowOf(st, id, key);
    assert IsRowOf(st', st.nextRow, key) ==> Pending(st, step.call, key);
  }

  lemma ExclusiveUpdate(st: State, step: Step, key: Key, stored: nat)
    requires step.Update? && Consistent(st) && Stored(st, key, stored) && Single(st, key, stored)
    ensures var now := if Hands(st, step, key) then Nonce(st.calls[step.call]) else stored;
            Stored(Apply(st, step), key, now) && Single(Apply(st, step), key, now)
    ensures Hands(st, step, key) ==> Nonce(st.calls[step.call]) == Next(stored, st.calls[step.call].txCount)
  {
    var st' := Apply(st, step);
    assert forall a :: Pending(st', a, key) ==> a != step.call || !Hands(st, step, key);
    assert forall a :: Pending(st', a, key) ==> Pending(st, a, key);
    assert forall id :: IsRowOf(st', id, key) <==> IsRowOf(st, id, key);
  }

  lemma ExclusiveStep(st: State, step: Step, key: Key, stored: nat) returns (now: nat)
    requires Consistent(st) && Stored(st, key, stored) && Single(st, key, stored)
    requires Starts(st, step, key) ==> forall call :: !Pending(st, call, key)
    ensures now == if Hands(st, step, key) then Next(stored, st.calls[step.call].txCount) else stored
    ensures Hands(st, step, key) ==> Nonce(st.calls[step.call]) == now
    ensures Consistent(Apply(st, step)) && Stored(Apply(st, step), key, now) && Single(Apply(st, step), key, now)
  {
    hide Apply, Stored, Single, Consistent, Next;
    StepIsConsistent(st, step);
    now := stored;
    match step {
      case Find(_, _, _, _) => ExclusiveFind(st, step, key, stored);
      case Create(_) => ExclusiveCreate(st, step, key, stored);
      case Update(call) =>
        ExclusiveUpdate(st, step, key, stored);
        if Hands(st, step, key) {
          now := Nonce(st.calls[call]);
        }
    }
  }

  /** As long as calls for a key do not overlap, they get the nonces of the serial allocator, whatever else runs. */
  lemma {:induction false} ExclusiveIsSerial(st: State, steps: seq<Step>, key: Key, stored: nat)
    requires Consistent(st) && Stored(st, key, stored) && Single(st, key, stored) && Exclusive(st, steps, key)
    ensures Handed(st, steps, key) == Results(map[key := stored], Answered(st, steps, key))
    decreases |steps|
  {
    hide Apply, Stored, Single, Consistent;
    if steps != [] {
      var now := ExclusiveStep(st, steps[0], key, stored);
      ExclusiveIsSerial(Apply(st, steps[0]), steps[1..], key, now);
      var rest := Answered(Apply(st, steps[0]), steps[1..], key);
      if Hands(st, steps[0], key) {
        var r := Request(key, st.calls[steps[0].call].txCount);
        ResultsOfCons(map[key := stored], r, rest);
        assert map[key := stored][key := now] == map[key := now];
      } else {
        assert Answered(st, steps, key) == rest;
        assert Handed(st, steps, key) == Handed(Apply(st, steps[0]), steps[1..], key);
      }
    }
  }

  lemma {:induction false} AnsweredKey(st: State, steps: seq<Step>, key: Key)
    ensures forall r :: r in Answered(st, steps, key) ==> r.key == key
    decreases |steps|
  {
    hide Apply;
    if steps != [] {
      AnsweredKey(Apply(st, steps[0]), steps[1..], key);
    }
  }

  // ----- calls that overlap -----

  /** Some positive nonce occurs twice. */
  predicate Repeats(s: seq<nat>) {
    exists i, j :: 0 <= i < j < |s| && s[i] == s[j] > 0
  }

  lemma RepeatsLater(a: seq<nat>, b: seq<nat>)
    requires Repeats(b)
    ensures Repeats(a + b)
  {
    var i, j :| 0 <= i < j < |b| && b[i] == b[j] > 0;
    assert (a + b)[|a| + i] == (a + b)[|a| + j];
  }

  /** The call will return `n`, as soon as it writes. */
  ghost predicate WillHand(st: State, call: nat, key: Key, n: nat) {
    Pending(st, call, key) && Nonce(st.calls[call]) == n
  }

  ghost predicate Idle(st: State, key: Key) {
    forall call :: !Pending(st, call, key)
  }

  lemma {:induction false} OneIsHanded(st: State, steps: seq<Step>, key: Key, call: nat, n: nat) returns (k: nat)
    requires Consistent(st) && WillHand(st, call, key, n) && Idle(Run(st, steps), key)
    ensures k < |Handed(st, steps, key)| && Handed(st, steps, key)[k] == n
    decreases |steps|
  {
    if Hands(st, steps[0], key) && steps[0].call == call {
      k := 0;
    } else {
      StepIsConsistent(st, steps[0]);
      k := OneIsHanded(Apply(st, steps[0]), steps[1..], key, call, n);
      k := k + if Hands(st, steps[0], key) then 1 else 0;
    }
  }

  lemma {:induction false} BothAreHanded(st: State, steps: seq<Step>, key: Key, a: nat, b: nat, n: nat)
    requires Consistent(st) && a != b && n > 0 && Idle(Run(st, steps), key)
    requires WillHand(st, a, key, n) && WillHand(st, b, key, n)
    ensures Repeats(Handed(st, steps, key))
    decreases |steps|
  {
    var rest := Handed(Apply(st, steps[0]), steps[1..], key);
    StepIsConsistent(st, steps[0]);
    if Hands(st, steps[0], key) && (steps[0].call == a || steps[0].call == b) {
      var k := OneIsHanded(Apply(st, steps[0]), steps[1..], key, if steps[0].call == a then b else a, n);
      assert Handed(st, steps, key)[0] == n && Handed(st, steps, key)[k + 1] == n;
    } else {
      BothAreHanded(Apply(st, steps[0]), steps[1..], key, a, b, n);
      RepeatsLater(Handed(st, steps, key)[..|Handed(st, steps, key)| - |rest|], rest);
    }
  }

  /**
   What the chain reports to a call that finds the nonce `seen` stored: at most that the transaction with this nonce has
   been mined. As long as nothing is stored all calls are told the same positive count.
   */
  predicate OnTime(seen: nat, txCount: nat, first: nat) {
    if seen == 0 then txCount == first else txCount <= seen + 1
  }

  /** The nonce that a starting call finds. */
  function Seen(st: State, step: Step, key: Key): nat
    requires Starts(st, step, key)
  {
    if step.choice.Some? then st.rows[step.choice.value].nonce else 0
  }

  /** Every call for the key is on time at the moment it starts. */
  ghost predicate AllOnTime(st: State, steps: seq<Step>, key: Key, first: nat)
    decreases |steps|
  {
    steps == [] || ((Starts(st, steps[0], key) ==> OnTime(Seen(st, steps[0], key), steps[0].txCount, first))
                    && AllOnTime(Apply(st, steps[0]), steps[1..], key, first))
  }

  /** The calls under way were on time for what is stored. */
  ghost predicate PendingOnTime(st: State, key: Key, stored: nat, first: nat) {
    forall a :: Pending(st, a, key) ==> OnTime(stored, st.calls[a].txCount, first)
  }

  /** The nonce that every call on time gets. */
  function Due(stored: nat, first: nat): nat {
    if stored == 0 then first else stored + 1
  }

  lemma OnTimeStep(st: State, step: Step, key: Key, stored: nat, now: nat, first: nat)
    requires Stored(st, key, stored) && Single(st, key, stored) && PendingOnTime(st, key, stored, first)
    requires Starts(st, step, key) ==> OnTime(Seen(st, step, key), step.txCount, first)
    requires now == if Hands(st, step, key) then Next(stored, st.calls[step.call].txCount) else stored
    ensures PendingOnTime(Apply(st, step), key, now, first)
    ensures Hands(st, step, key) ==> now == Due(stored, first)
  {
    var st' := Apply(st, step);
    assert forall a :: Pending(st', a, key) && a != step.call ==> Pending(st, a, key);
    assert Pending(st', step.call, key) && !step.Find? ==> Pending(st, step.call, key);
    assert Starts(st, step, key) && step.choice.Some? ==> IsRowOf(st, step.choice.value, key);
  }

  /** A call that starts while another is under way will be given the same nonce. */
  lemma OverlapReadsTheSame(st: State, step: Step, key: Key, stored: nat, first: nat, a: nat)
    requires Stored(st, key, stored) && Single(st, key, stored) && PendingOnTime(st, key, stored, first)
    requires Starts(st, step, key) && OnTime(Seen(st, step, key), step.txCount, first) && Pending(st, a, key)
    ensures a != step.call
    ensures WillHand(Apply(st, step), a, key, Due(stored, first))
    ensures WillHand(Apply(st, step), step.call, key, Due(stored, first))
  {
    assert step.choice.Some? ==> IsRowOf(st, step.choice.value, key);
    assert step.choice.None? ==> forall id :: !IsRowOf(st, id, key);
  }

  lemma {:induction false} OverlapRepeats(st: State, steps: seq<Step>, key: Key, stored: nat, first: nat)
    requires Consistent(st) && Stored(st, key, stored) && Single(st, key, stored) && first > 0
    requires PendingOnTime(st, key, stored, first) && AllOnTime(st, steps, key, first)
    requires Idle(Run(st, steps), key) && !Exclusive(st, steps, key)
    ensures Repeats(Handed(st, steps, key))
    decreases |steps|
  {
    hide Apply, Stored, Single, Consistent, Pending, Starts, OnTime, PendingOnTime, Repeats;
    var next, rest := Apply(st, steps[0]), Handed(Apply(st, steps[0]), steps[1..], key);
    StepIsConsistent(st, steps[0]);
    if a :| Starts(st, steps[0], key) && Pending(st, a, key) {
      OverlapReadsTheSame(st, steps[0], key, stored, first, a);
      BothAreHanded(next, steps[1..], key, a, steps[0].call, Due(stored, first));
    } else {
      var now := ExclusiveStep(st, steps[0], key, stored);
      OnTimeStep(st, steps[0], key, stored, now, first);
      OverlapRepeats(next, steps[1..], key, now, first);
    }
    RepeatsLater(Handed(st, steps, key)[..|Handed(st, steps, key)| - |rest|], rest);
  }

  lemma {:induction false} ExclusiveIsPositive(st: State, steps: seq<Step>, key: Key, stored: nat, first: nat)
    requires Consistent(st) && Stored(st, key, stored) && Single(st, key, stored) && first > 0
    requires PendingOnTime(st, key, stored, first) && AllOnTime(st, steps, key, first)
    requires Exclusive(st, steps, key)
    ensures forall i :: 0 <= i < |Handed(st, steps, key)| ==> Handed(st, steps, key)[i] > 0
    decreases |steps|
  {
    hide Apply, Stored, Single, Consistent, Pending, Starts, OnTime, PendingOnTime;
    if steps != [] {
      var now := ExclusiveStep(st, steps[0], key, stored);
      OnTimeStep(st, steps[0], key, stored, now, first);
      ExclusiveIsPositive(Apply(st, steps[0]), steps[1..], key, now, first);
    }
  }

  /**
   As long as the chain reports no more than the stored nonce as mined, the completed calls of a run get pairwise
   different nonces if and only if no two calls for the key overlap. Calls for other keys may overlap with everything.
   */
  lemma DistinctExactly(st: State, steps: seq<Step>, key: Key, stored: nat, first: nat)
    requires Consistent(st) && Idle(st, key) && Stored(st, key, stored) && first > 0
    requires AllOnTime(st, steps, key, first) && Idle(Run(st, steps), key)
    ensures Distinct(Handed(st, steps, key)) <==> Exclusive(st, steps, key)
  {
    hide Stored, Consistent, AllOnTime, Run;
    if Exclusive(st, steps, key) {
      ExclusiveIncreases(st, steps, key, stored);
      ExclusiveIsPositive(st, steps, key, stored, first);
    } else {
      OverlapRepeats(st, steps, key, stored, first);
    }
  }

  /** Without overlaps nonces increase strictly, whatever the chain reports. */
  lemma ExclusiveIncreases(st: State, steps: seq<Step>, key: Key, stored: nat)
    requires Consistent(st) && Idle(st, key) && Stored(st, key, stored) && Exclusive(st, steps, key)
    ensures var h := Handed(st, steps, key);
            forall i, j :: 0 <= i < j < |h| && h[i] > 0 ==> h[i] < h[j]
    ensures stored > 0 ==> forall i :: 0 <= i < |Handed(st, steps, key)| ==> Handed(st, steps, key)[i] > 0
  {
    hide Stored, Consistent, Handed, Answered, Results, Exclusive;
    var t, rs, h := map[key := stored], Answered(st, steps, key), Handed(st, steps, key);
    ExclusiveIsSerial(st, steps, key, stored);
    AnsweredKey(st, steps, key);
    forall i, j | 0 <= i < j < |h| && h[i] > 0
      ensures h[i] < h[j]
    {
      assert rs[i] in rs && rs[j] in rs;
      ResultsIncrease(t, rs, i, j);
    }
    if stored > 0 {
      forall i | 0 <= i < |h|
        ensures h[i] > 0
      {
        assert rs[i] in rs;
        ResultsExceedStored(t, rs, i);
      }
    }
  }

  /** Nothing but 0 is stored for the key or has been read and reported. */
  ghost predicate AllZero(st: State, key: Key) {
    && (forall id :: IsRowOf(st, id, key) ==> st.rows[id].nonce == 0)
    && (forall a :: Pending(st, a, key) ==> Nonce(st.calls[a]) == 0)
  }

  lemma ZeroStep(st: State, step: Step, key: Key)
    requires Consistent(st) && AllZero(st, key)
    requires step.Find? && step.key == key ==> step.txCount == 0
    ensures AllZero(Apply(st, step), key)
  {
    var st' := Apply(st, step);
    assert forall a :: Pending(st', a, key) && a != step.call ==> Pending(st, a, key);
    assert Pending(st', step.call, key) && !step.Find? ==> Pending(st, step.call, key);
    assert forall id :: IsRowOf(st', id, key) && (!step.Create? || id != st.nextRow) ==> IsRowOf(st, id, key);
    assert step.Find? && step.choice.Some? && step.key == key && MayReturn(st, key, step.choice) ==>
        IsRowOf(st, step.choice.value, key);
  }

  /** As long as the chain reports no transaction and none is stored, every call gets 0, overlapping or not. */
  lemma {:induction false} ZeroIsHanded(st: State, steps: seq<Step>, key: Key)
    requires Consistent(st) && AllZero(st, key)
    requires forall s :: s in steps && s.Find? && s.key == key ==> s.txCount == 0
    ensures forall n :: n in Handed(st, steps, key) ==> n == 0
    decreases |steps|
  {
    hide Apply, Consistent;
    if steps != [] {
      assert steps[0] in steps;
      StepIsConsistent(st, steps[0]);
      ZeroStep(st, steps[0], key);
      ZeroIsHanded(Apply(st, steps[0]), steps[1..], key);
    }
  }

  /** The smallest failing run: 5 is stored and mined, two calls overlap, both get 6. */
  lemma OverlapOnOneRow(key: Key)
    ensures var st := State(map[0 := Row(key, 5)], 1, map[]);
            var steps := [Find(0, key, 6, Some(0)), Find(1, key, 6, Some(0)), Update(0), Update(1)];
            && Consistent(st) && Idle(st, key) && Stored(st, key, 5)
            && AllOnTime(st, steps, key, 1) && Idle(Run(st, steps), key)
            && Handed(st, steps, key) == [6, 6]
  {
    var st := State(map[0 := Row(key, 5)], 1, map[]);
    var steps := [Find(0, key, 6, Some(0)), Find(1, key, 6, Some(0)), Update(0), Update(1)];
    var st1 := Apply(st, steps[0]);
    var st2 := Apply(st1, steps[1]);
    var st3 := Apply(st2, steps[2]);
    assert steps[1..][1..] == steps[2..] && steps[2..][1..] == steps[3..] && steps[3..][1..] == [];
    assert IsRowOf(st, 0, key);
    assert Handed(st3, steps[3..], key) == [6] && AllOnTime(st3, steps[3..], key, 1);
    assert Handed(st2, steps[2..], key) == [6, 6] && AllOnTime(st2, steps[2..], key, 1);
    assert Handed(st1, steps[1..], key) == [6, 6] && AllOnTime(st1, steps[1..], key, 1);
    assert Run(st2, steps[2..]) == Run(st3, steps[3..]) == Apply(st3, steps[3]);
    assert Run(st1, steps[1..]) == Run(st2, steps[2..]);
  }

  // ----- which schedules are safe, whatever the chain reports -----

  /** The step with another count. */
  function Told(step: Step, txCount: nat): Step {
    if step.Find? then step.(txCount := txCount) else step
  }

  predicate SameSchedule(a: seq<Step>, b: seq<Step>) {
    |a| == |b| && forall i :: 0 <= i < |a| ==> Told(a[i], 0) == Told(b[i], 0)
  }

  function Shape(c: Call): Call {
    match c
    case Missing(key, _) => Missing(key, 0)
    case Located(key, _, rowId, _) => Located(key, 0, rowId, 0)
    case Done => Done
  }

  /** Equal but for the numbers. */
  ghost predicate Alike(st: State, st': State) {
    && st'.nextRow == st.nextRow
    && st'.rows.Keys == st.rows.Keys && (forall id :: id in st.rows ==> st'.rows[id].key == st.rows[id].key)
    && st'.calls.Keys == st.calls.Keys
    && (forall call :: call in st.calls ==> Shape(st'.calls[call]) == Shape(st.calls[call]))
  }

  lemma AlikeStep(st: State, st': State, step: Step, step': Step, key: Key)
    requires Alike(st, st') && Told(step, 0) == Told(step', 0)
    ensures Alike(Apply(st, step), Apply(st', step'))
    ensures Starts(st, step, key) <==> Starts(st', step', key)
    ensures forall call :: Pending(st, call, key) <==> Pending(st', call, key)
  {
    hide Nonce, MayReturn;
    if step.Find? {
      AlikeRows(st, st', step.key, step.choice);
      AlikeRows(st, st', key, step.choice);
    }
  }

  lemma AlikeRows(st: State, st': State, key: Key, choice: Option<nat>)
    requires Alike(st, st')
    ensures MayReturn(st, key, choice) <==> MayReturn(st', key, choice)
    ensures MayReturn(st, key, choice) && choice.Some? ==> choice.value in st.rows && choice.value in st'.rows
  {
  }

  lemma {:induction false} AlikeRun(st: State, st': State, steps: seq<Step>, steps': seq<Step>, key: Key)
    requires Alike(st, st') && SameSchedule(steps, steps')
    ensures Exclusive(st, steps, key) <==> Exclusive(st', steps', key)
    ensures Idle(Run(st, steps), key) <==> Idle(Run(st', steps'), key)
    decreases |steps|
  {
    hide Apply, Alike, Starts, Pending, Told;
    if steps != [] {
      AlikeStep(st, st', steps[0], steps'[0], key);
      assert SameSchedule(steps[1..], steps'[1..]);
      AlikeRun(Apply(st, steps[0]), Apply(st', steps'[0]), steps[1..], steps'[1..], key);
    } else {
      AlikeStep(st, st', Update(0), Update(0), key);
    }
  }

  function AllTold(steps: seq<Step>, txCount: nat): (told: seq<Step>)
    ensures SameSchedule(steps, told) && forall s :: s in told ==> s == Told(s, txCount)
  {
    seq(|steps|, i requires 0 <= i < |steps| => Told(steps[i], txCount))
  }

  /** A chain that always reports 1 is never ahead. */
  lemma {:induction false} OneIsOnTime(st: State, steps: seq<Step>, key: Key)
    requires forall s :: s in steps ==> s == Told(s, 1)
    ensures AllOnTime(st, steps, key, 1)
    decreases |steps|
  {
    hide Apply;
    if steps != [] {
      assert steps[0] in steps;
      OneIsOnTime(Apply(st, steps[0]), steps[1..], key);
    }
  }

  /**
   A schedule of completed calls never hands out a positive nonce for the key twice, whatever the chain reports to the
   calls, if and only if no two calls for the key overlap in it.
   */
  lemma SafeScheduleExactly(st: State, steps: seq<Step>, key: Key, stored: nat)
    requires Consistent(st) && Idle(st, key) && Stored(st, key, stored) && Idle(Run(st, steps), key)
    ensures Exclusive(st, steps, key)
            <==> forall told | SameSchedule(steps, told) :: !Repeats(Handed(st, told, key))
  {
    hide Stored, Consistent, Exclusive, Run, Handed, AllOnTime, SameSchedule, AllTold;
    assert Alike(st, st);
    forall told | SameSchedule(steps, told)
      ensures Exclusive(st, steps, key) <==> Exclusive(st, told, key)
      ensures Idle(Run(st, told), key)
      ensures Exclusive(st, told, key) ==> !Repeats(Handed(st, told, key))
    {
      AlikeRun(st, st, steps, told, key);
      if Exclusive(st, told, key) {
        ExclusiveIncreases(st, told, key, stored);
      }
    }
    if !Exclusive(st, steps, key) {
      var told := AllTold(steps, 1);
      OneIsOnTime(st, told, key);
      OverlapRepeats(st, told, key, stored, 1);
    }
  }

  // ----- a key without a row -----

  ghost predicate AtMostOneRow(st: State, key: Key) {
    forall a, b :: IsRowOf(st, a, key) && IsRowOf(st, b, key) ==> a == b
  }

  /** The call has found no row for the key and has yet to create one. */
  predicate Creating(st: State, call: nat, key: Key) {
    Pending(st, call, key) && st.calls[call].Missing?
  }

  /** No call finds the row missing while another one that found it missing has yet to create it. */
  ghost predicate OneCreator(st: State, steps: seq<Step>, key: Key)
    decreases |steps|
  {
    steps == [] || ((Starts(st, steps[0], key) && steps[0].choice.None? ==> forall call :: !Creating(st, call, key))
                    && OneCreator(Apply(st, steps[0]), steps[1..], key))
  }

  /** One row or one call that will create it, not both. */
  ghost predicate Sole(st: State, key: Key) {
    && AtMostOneRow(st, key)
    && (forall a, b :: Creating(st, a, key) && Creating(st, b, key) ==> a == b)
    && (forall a, id :: Creating(st, a, key) ==> !IsRowOf(st, id, key))
  }

  lemma SoleStep(st: State, step: Step, key: Key)
    requires Consistent(st) && Sole(st, key)
    requires Starts(st, step, key) && step.choice.None? ==> forall call :: !Creating(st, call, key)
    ensures Sole(Apply(st, step), key)
  {
    var st' := Apply(st, step);
    assert forall a :: Creating(st', a, key) && a != step.call ==> Creating(st, a, key);
    assert Creating(st', step.call, key) && !step.Find? ==> Creating(st, step.call, key);
    assert forall id :: IsRowOf(st', id, key) && (!step.Create? || id != st.nextRow) ==> IsRowOf(st, id, key);
    assert step.Create? && IsRowOf(st', st.nextRow, key) ==> Creating(st, step.call, key);
  }

  lemma {:induction false} RowStays(st: State, steps: seq<Step>, id: nat, key: Key)
    requires Consistent(st) && IsRowOf(st, id, key)
    ensures IsRowOf(Run(st, steps), id, key)
    decreases |steps|
  {
    if steps != [] {
      StepIsConsistent(st, steps[0]);
      RowStays(Apply(st, steps[0]), steps[1..], id, key);
    }
  }

  /** A call that found no row creates a new one before it completes. */
  lemma {:induction false} CreatorCreates(st: State, steps: seq<Step>, call: nat, key: Key) returns (id: nat)
    requires Consistent(st) && Creating(st, call, key) && Idle(Run(st, steps), key)
    ensures st.nextRow <= id && IsRowOf(Run(st, steps), id, key)
    decreases |steps|
  {
    var next := Apply(st, steps[0]);
    StepIsConsistent(st, steps[0]);
    if steps[0] == Create(call) {
      id := st.nextRow;
      RowStays(next, steps[1..], id, key);
    } else {
      id := CreatorCreates(next, steps[1..], call, key);
    }
  }

  lemma {:induction false} TwoCreatorsTwoRows(st: State, steps: seq<Step>, a: nat, b: nat, key: Key)
    requires Consistent(st) && a != b && Creating(st, a, key) && Creating(st, b, key) && Idle(Run(st, steps), key)
    ensures !AtMostOneRow(Run(st, steps), key)
    decreases |steps|
  {
    var next := Apply(st, steps[0]);
    StepIsConsistent(st, steps[0]);
    if steps[0] == Create(a) || steps[0] == Create(b) {
      RowStays(next, steps[1..], st.nextRow, key);
      var id := CreatorCreates(next, steps[1..], if steps[0] == Create(a) then b else a, key);
      assert id != st.nextRow;
    } else {
      TwoCreatorsTwoRows(next, steps[1..], a, b, key);
    }
  }

  lemma {:induction false} OneRowOverRuns(st: State, steps: seq<Step>, key: Key)
    requires Consistent(st) && Sole(st, key) && Idle(Run(st, steps), key)
    ensures AtMostOneRow(Run(st, steps), key) <==> OneCreator(st, steps, key)
    decreases |steps|
  {
    hide Apply, Consistent, Sole, AtMostOneRow, Creating, Pending;
    if steps == [] {
      SoleHasOneRow(st, key);
    } else {
      var next := Apply(st, steps[0]);
      StepIsConsistent(st, steps[0]);
      if a :| Starts(st, steps[0], key) && steps[0].choice.None? && Creating(st, a, key) {
        BothCreate(st, steps[0], a, key);
        TwoCreatorsTwoRows(next, steps[1..], a, steps[0].call, key);
      } else {
        SoleStep(st, steps[0], key);
        OneRowOverRuns(next, steps[1..], key);
      }
    }
  }

  lemma SoleHasOneRow(st: State, key: Key)
    requires Sole(st, key)
    ensures AtMostOneRow(st, key)
  {
  }

  lemma BothCreate(st: State, step: Step, a: nat, key: Key)
    requires Starts(st, step, key) && step.choice.None? && Creating(st, a, key)
    ensures a != step.call && Creating(Apply(st, step), a, key) && Creating(Apply(st, step), step.call, key)
  {
  }

  /**
   From a state with at most one row for the key, completed calls leave at most one row if and only if no call finds the
   row missing while another one that found it missing has yet to create it.
   */
  lemma OneRowExactly(st: State, steps: seq<Step>, key: Key)
    requires Consistent(st) && Idle(st, key) && AtMostOneRow(st, key) && Idle(Run(st, steps), key)
    ensures AtMostOneRow(Run(st, steps), key) <==> OneCreator(st, steps, key)
  {
    OneRowOverRuns(st, steps, key);
  }

  /** With two rows even calls that do not overlap may get the same nonce. */
  lemma TwoRowsRepeat(st: State, key: Key, a: nat, b: nat, j: nat, k: nat, txCount: nat)
    requires IsRowOf(st, a, key) && IsRowOf(st, b, key) && a != b
    requires 0 < st.rows[a].nonce == st.rows[b].nonce && txCount <= st.rows[a].nonce
    requires Idle(st, key) && j !in st.calls && k !in st.calls && j != k
    ensures var steps := [Find(j, key, txCount, Some(a)), Update(j), Find(k, key, txCount, Some(b)), Update(k)];
            var n := st.rows[a].nonce + 1;
            Exclusive(st, steps, key) && Handed(st, steps, key) == [n, n]
  {
    var steps := [Find(j, key, txCount, Some(a)), Update(j), Find(k, key, txCount, Some(b)), Update(k)];
    var n := st.rows[a].nonce + 1;
    var st1 := Apply(st, steps[0]);
    var st2 := Apply(st1, steps[1]);
    var st3 := Apply(st2, steps[2]);
    assert steps[1..][1..] == steps[2..] && steps[2..][1..] == steps[3..] && steps[3..][1..] == [];
    assert forall call :: Pending(st2, call, key) ==> Pending(st, call, key);
    assert Handed(st3, steps[3..], key) == [n];
    assert Handed(st2, steps[2..], key) == [n];
    assert Handed(st1, steps[1..], key) == [n, n];
    assert Exclusive(st3, steps[3..], key);
    assert Exclusive(st2, steps[2..], key);
    assert Exclusive(st1, steps[1..], key);
  }

  lemma {:induction false} HandedConcat(st: State, a: seq<Step>, b: seq<Step>, key: Key)
    ensures Handed(st, a + b, key) == Handed(st, a, key) + Handed(Run(st, a), b, key)
    decreases |a|
  {
    hide Apply;
    if a == [] {
      assert a + b == b;
    } else {
      assert (a + b)[0] == a[0] && (a + b)[1..] == a[1..] + b;
      HandedConcat(Apply(st, a[0]), a[1..], b, key);
    }
  }

  /** Two first calls for a key that overlap, completed. */
  function FirstCalls(key: Key, txCount: nat): seq<Step> {
    [Find(0, key, txCount, None), Find(1, key, txCount, None), Create(0), Create(1), Update(0), Update(1)]
  }

  /** Two later calls that do not overlap. */
  function LaterCalls(key: Key, txCount: nat): seq<Step> {
    [Find(2, key, txCount, Some(0)), Update(2), Find(3, key, txCount, Some(1)), Update(3)]
  }

  lemma FirstCallsMakeTwoRows(key: Key, txCount: nat)
    ensures Run(State(map[], 0, map[]), FirstCalls(key, txCount))
            == State(map[0 := Row(key, txCount), 1 := Row(key, txCount)], 2, map[0 := Done, 1 := Done])
    ensures Handed(State(map[], 0, map[]), FirstCalls(key, txCount), key) == [txCount, txCount]
  {
    var steps, st0 := FirstCalls(key, txCount), State(map[], 0, map[]);
    var located := map[0 := Located(key, txCount, 0, 0), 1 := Located(key, txCount, 1, 0)];
    var st4 := State(map[0 := Row(key, 0), 1 := Row(key, 0)], 2, located);
    var st5 := Apply(st4, steps[4]);
    assert steps[1..][1..] == steps[2..] && steps[2..][1..] == steps[3..] && steps[3..][1..] == steps[4..];
    assert steps[4..][1..] == steps[5..] && steps[5..][1..] == [];
    assert Handed(st5, steps[5..], key) == [txCount] && Run(st5, steps[5..]) == Apply(st5, steps[5]);
    assert Handed(st4, steps[4..], key) == [txCount, txCount] && Run(st4, steps[4..]) == Run(st5, steps[5..]);
    var st1 := Apply(st0, steps[0]);
    var st2 := Apply(st1, steps[1]);
    var st3 := Apply(st2, steps[2]);
    assert Apply(st3, steps[3]) == st4;
    assert Handed(st3, steps[3..], key) == [txCount, txCount] && Run(st3, steps[3..]) == Run(st4, steps[4..]);
    assert Handed(st2, steps[2..], key) == [txCount, txCount] && Run(st2, steps[2..]) == Run(st3, steps[3..]);
    assert Handed(st1, steps[1..], key) == [txCount, txCount] && Run(st1, steps[1..]) == Run(st2, steps[2..]);
  }

  /**
   One run from the empty table: two first calls overlap and leave two rows for the key; two later calls, which overlap
   with nothing, are given the same nonce.
   */
  lemma FirstCallsThenRepeat(key: Key, txCount: nat)
    requires txCount > 0
    ensures var start, first, later := State(map[], 0, map[]), FirstCalls(key, txCount), LaterCalls(key, txCount);
            && Idle(Run(start, first), key) && !AtMostOneRow(Run(start, first), key)
            && Exclusive(Run(start, first), later, key)
            && Handed(start, first + later, key) == [txCount, txCount] + [txCount + 1, txCount + 1]
  {
    hide Apply, Handed, Run, Exclusive;
    var start, first, later := State(map[], 0, map[]), FirstCalls(key, txCount), LaterCalls(key, txCount);
    FirstCallsMakeTwoRows(key, txCount);
    var st := Run(start, first);
    assert IsRowOf(st, 0, key) && IsRowOf(st, 1, key);
    TwoRowsRepeat(st, key, 0, 1, 2, 3, txCount);
    HandedConcat(start, first, later, key);
  }
}
