/**
 Whole-run theorems about the collection. Re-entrant runs are first shown to be plain sequences of calls; everything
 else is then an induction over such sequences.
 */
module Erc721Runs {
  import opened Wrappers
  import opened Evm
  import opened Erc721

  // ----- re-entrant execution is serial execution -----

  /** A call whose receiver makes no calls of its own. */
  ghost predicate IsFlat(m: Msg) {
    !m.call.SafeTransferFrom?
  }

  /** The plain calls that a message commits, in the order in which they take effect. */
  ghost function Serial(s: State, m: Msg): seq<Msg>
    decreases m, 0
  {
    match m.call
    case SafeTransferFrom(from, to, id, receiver) =>
      var transfer := Msg(m.sender, Call.TransferFrom(from, to, id));
      if Apply(s, m).Failure? then []
      else [transfer] + (if receiver.Contract? then SerialRun(Deliver(s, transfer), receiver.script) else [])
    case _ => [m]
  }

  ghost function SerialRun(s: State, ms: seq<Msg>): seq<Msg>
    decreases ms
  {
    if ms == [] then [] else Serial(s, ms[0]) + SerialRun(Deliver(s, ms[0]), ms[1..])
  }

  lemma {:induction false} RunConcat(s: State, a: seq<Msg>, b: seq<Msg>)
    ensures Run(s, a + b) == Run(Run(s, a), b)
    decreases |a|
  {
    hide Deliver;
    if a == [] {
      assert a + b == b;
    } else {
      assert (a + b)[1..] == a[1..] + b;
      RunConcat(Deliver(s, a[0]), a[1..], b);
    }
  }

  /** A safe transfer is the plain transfer followed by whatever the receiver does from the resulting state. */
  lemma SafeTransferIsTransferThenNotify(s: State, sender: Account, from: Address, to: Address, id: Uint256,
                                         receiver: Receiver)
    ensures var transfer := Apply(s, Msg(sender, Call.TransferFrom(from, to, id)));
            Apply(s, Msg(sender, Call.SafeTransferFrom(from, to, id, receiver)))
            == if transfer.Success? then Notify(transfer.value, receiver) else transfer
  {
  }

  lemma {:induction false} SerialIsEquivalent(s: State, m: Msg)
    ensures Run(s, Serial(s, m)) == Deliver(s, m)
    ensures forall f :: f in Serial(s, m) ==> IsFlat(f)
    decreases m, 0
  {
    match m.call
    case SafeTransferFrom(from, to, id, receiver) =>
      SafeTransferIsTransferThenNotify(s, m.sender, from, to, id, receiver);
      if Apply(s, m).Success? {
        var transfer := Msg(m.sender, Call.TransferFrom(from, to, id));
        var moved := Deliver(s, transfer);
        assert Run(s, [transfer]) == moved;
        if receiver.Contract? {
          SerialRunIsEquivalent(moved, receiver.script);
          RunConcat(s, [transfer], SerialRun(moved, receiver.script));
        } else {
          assert [transfer] + [] == [transfer];
        }
      }
    case _ =>
      assert Run(s, [m]) == Deliver(s, m);
  }

  /**
   However receivers re-enter the collection, the run ends in the state of a plain sequence of non-re-entrant calls,
   so nothing holds for sequential callers that a re-entrant receiver could break.
   */
  lemma {:induction false} SerialRunIsEquivalent(s: State, ms: seq<Msg>)
    ensures Run(s, SerialRun(s, ms)) == Run(s, ms)
    ensures forall f :: f in SerialRun(s, ms) ==> IsFlat(f)
    decreases ms
  {
    hide Deliver, Serial;
    if ms != [] {
      var next := Deliver(s, ms[0]);
      SerialIsEquivalent(s, ms[0]);
      SerialRunIsEquivalent(next, ms[1..]);
      RunConcat(s, Serial(s, ms[0]), SerialRun(next, ms[1..]));
    }
  }

  /** A rejecting receiver undoes everything, its own successful calls included. */
  lemma RejectionRestores(s: State, sender: Account, from: Address, to: Address, id: Uint256, script: seq<Msg>)
    ensures Deliver(s, Msg(sender, Call.SafeTransferFrom(from, to, id, Contract(script, false)))) == s
  {
    SafeTransferIsTransferThenNotify(s, sender, from, to, id, Contract(script, false));
  }

  // ----- who makes calls, receivers' calls included -----

  ghost predicate SenderObeys(m: Msg, q: Account -> bool)
    decreases m, 0
  {
    && q(m.sender)
    && (m.call.SafeTransferFrom? && m.call.receiver.Contract? ==> SendersObey(m.call.receiver.script, q))
  }

  ghost predicate SendersObey(ms: seq<Msg>, q: Account -> bool)
    decreases ms
  {
    ms == [] || (SenderObeys(ms[0], q) && SendersObey(ms[1..], q))
  }

  lemma {:induction false} SerialSender(s: State, m: Msg, q: Account -> bool)
    requires SenderObeys(m, q)
    ensures forall f :: f in Serial(s, m) ==> q(f.sender)
    decreases m, 0
  {
    hide Apply;
    match m.call
    case SafeTransferFrom(from, to, id, receiver) =>
      if receiver.Contract? {
        SerialRunSenders(Deliver(s, Msg(m.sender, Call.TransferFrom(from, to, id))), receiver.script, q);
      }
    case _ =>
  }

  lemma {:induction false} SerialRunSenders(s: State, ms: seq<Msg>, q: Account -> bool)
    requires SendersObey(ms, q)
    ensures forall f :: f in SerialRun(s, ms) ==> q(f.sender)
    decreases ms
  {
    hide Deliver, Serial;
    if ms != [] {
      SerialSender(s, ms[0], q);
      SerialRunSenders(Deliver(s, ms[0]), ms[1..], q);
    }
  }

  // ----- the induction principle -----

  /** `p` survives every successful plain call by a sender in `q`. */
  ghost predicate Kept(p: State -> bool, q: Account -> bool) {
    forall s: State, m: Msg :: p(s) && q(m.sender) && IsFlat(m) && Apply(s, m).Success? ==> p(Apply(s, m).value)
  }

  lemma {:induction false} FlatRunKeeps(p: State -> bool, q: Account -> bool, s: State, ms: seq<Msg>)
    requires p(s) && Kept(p, q)
    requires forall m :: m in ms ==> IsFlat(m) && q(m.sender)
    ensures p(Run(s, ms))
    decreases |ms|
  {
    hide Apply;
    if ms != [] {
      assert ms[0] in ms && IsFlat(ms[0]) && q(ms[0].sender);
      assert Apply(s, ms[0]).Success? ==> p(Apply(s, ms[0]).value);
      FlatRunKeeps(p, q, Deliver(s, ms[0]), ms[1..]);
    }
  }

  /** What every plain call keeps, every run keeps, whatever receivers do. */
  lemma RunKeeps(p: State -> bool, q: Account -> bool, s: State, ms: seq<Msg>)
    requires p(s) && Kept(p, q) && SendersObey(ms, q)
    ensures p(Run(s, ms))
  {
    SerialRunIsEquivalent(s, ms);
    SerialRunSenders(s, ms, q);
    FlatRunKeeps(p, q, s, SerialRun(s, ms));
  }

  ghost predicate Anyone(a: Account) {
    true
  }

  lemma {:induction false} AnySenderObeys(m: Msg)
    ensures SenderObeys(m, Anyone)
    decreases m, 0
  {
    if m.call.SafeTransferFrom? && m.call.receiver.Contract? {
      EveryoneObeys(m.call.receiver.script);
    }
  }

  lemma {:induction false} EveryoneObeys(ms: seq<Msg>)
    ensures SendersObey(ms, Anyone)
    decreases ms
  {
    if ms != [] {
      AnySenderObeys(ms[0]);
      EveryoneObeys(ms[1..]);
    }
  }
}
