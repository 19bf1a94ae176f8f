/**
 Safe transfers whose receiver may call anything in the world: the exchange, the tokens, and every collection. As within
 one collection, such runs are shown to be plain runs, so the theorems about all plain runs hold of them.
 */
module ReentrantRuns {
  import opened Wrappers
  import opened Evm
  import opened Ledgers
  import Erc20
  import Erc721
  import opened Erc721Theorems
  import opened ExchangeSpec
  import opened ExchangeRuns

  /** A transaction or a call within one. `script` is what the receiver of a safe transfer does before it answers. */
  datatype Frame =
    | Plain(step: Step)
    | SafeTransfer(env: Env, sender: Account, nft: Address, from: Address, to: Address, id: Uint256,
                   script: seq<Frame>, accepts: bool)

  /** The transfer without the receiver. */
  function Transfer(f: Frame): Step
    requires f.SafeTransfer?
  {
    Step(f.env, f.sender, CallNft(f.nft, Erc721.Call.TransferFrom(f.from, f.to, f.id)))
  }

  /** The receiver runs after the token has moved; if it rejects, everything it did is undone with the transfer. */
  function Perform(ctx: Context, st: State, f: Frame): Result<State, ExchangeSpec.Error>
    decreases f, 0
  {
    match f
    case Plain(step) => Apply(ctx, st, step)
    case SafeTransfer(_, _, _, _, _, _, script, accepts) =>
      var moved :- Apply(ctx, st, Transfer(f));
      var after := Play(ctx, moved, script);
      :- Require(accepts, NftReverted(Erc721.ReceiverRejected));
      Success(after)
  }

  function Commit(ctx: Context, st: State, f: Frame): State
    decreases f, 1
  {
    var r := Perform(ctx, st, f);
    if r.Success? then r.value else st
  }

  function Play(ctx: Context, st: State, fs: seq<Frame>): State
    decreases fs
  {
    if fs == [] then st else Play(ctx, Commit(ctx, st, fs[0]), fs[1..])
  }

  // ----- re-entrant runs are plain runs -----

  /** The plain steps that a frame commits, in the order in which they take effect. */
  ghost function Serial(ctx: Context, st: State, f: Frame): seq<Step>
    decreases f, 0
  {
    match f
    case Plain(step) => [step]
    case SafeTransfer(_, _, _, _, _, _, script, _) =>
      if Perform(ctx, st, f).Failure? then []
      else [Transfer(f)] + SerialPlay(ctx, Deliver(ctx, st, Transfer(f)), script)
  }

  ghost function SerialPlay(ctx: Context, st: State, fs: seq<Frame>): seq<Step>
    decreases fs
  {
    if fs == [] then [] else Serial(ctx, st, fs[0]) + SerialPlay(ctx, Commit(ctx, st, fs[0]), fs[1..])
  }

  lemma {:induction false} RunConcat(ctx: Context, st: State, a: seq<Step>, b: seq<Step>)
    ensures Run(ctx, st, a + b) == Run(ctx, Run(ctx, st, a), b)
    decreases |a|
  {
    hide Deliver;
    if a == [] {
      assert a + b == b;
    } else {
      assert (a + b)[1..] == a[1..] + b;
      RunConcat(ctx, Deliver(ctx, st, a[0]), a[1..], b);
    }
  }

  lemma RunOfOne(ctx: Context, st: State, step: Step)
    ensures Run(ctx, st, [step]) == Deliver(ctx, st, step)
  {
    hide Deliver;
    assert [step][1..] == [];
  }

  lemma {:induction false} SerialIsEquivalent(ctx: Context, st: State, f: Frame)
    ensures Run(ctx, st, Serial(ctx, st, f)) == Commit(ctx, st, f)
    decreases f, 0
  {
    hide Apply, Run;
    match f
    case Plain(step) =>
      RunOfOne(ctx, st, step);
    case SafeTransfer(_, _, _, _, _, _, script, _) =>
      if Perform(ctx, st, f).Success? {
        var moved := Deliver(ctx, st, Transfer(f));
        RunOfOne(ctx, st, Transfer(f));
        SerialPlayIsEquivalent(ctx, moved, script);
        RunConcat(ctx, st, [Transfer(f)], SerialPlay(ctx, moved, script));
      } else {
        NoSteps(ctx, st);
      }
  }

  lemma NoSteps(ctx: Context, st: State)
    ensures Run(ctx, st, []) == st
  {
  }

  /**
   However receivers re-enter the exchange, the tokens or the collections, the run ends in the state of a plain sequence
   of steps; a receiver that rejects leaves no trace.
   */
  lemma {:induction false} SerialPlayIsEquivalent(ctx: Context, st: State, fs: seq<Frame>)
    ensures Run(ctx, st, SerialPlay(ctx, st, fs)) == Play(ctx, st, fs)
    decreases fs
  {
    hide Apply, Commit, Serial, Run;
    if fs == [] {
      NoSteps(ctx, st);
    } else {
      var next := Commit(ctx, st, fs[0]);
      SerialIsEquivalent(ctx, st, fs[0]);
      SerialPlayIsEquivalent(ctx, next, fs[1..]);
      RunConcat(ctx, st, Serial(ctx, st, fs[0]), SerialPlay(ctx, next, fs[1..]));
    }
  }

  // ----- what all steps satisfy, those of receivers included -----

  ghost predicate Obeys(f: Frame, q: Step -> bool)
    decreases f, 0
  {
    match f
    case Plain(step) => q(step)
    case SafeTransfer(_, _, _, _, _, _, script, _) => q(Transfer(f)) && AllObey(script, q)
  }

  ghost predicate AllObey(fs: seq<Frame>, q: Step -> bool)
    decreases fs
  {
    fs == [] || (Obeys(fs[0], q) && AllObey(fs[1..], q))
  }

  lemma {:induction false} SerialObeys(ctx: Context, st: State, f: Frame, q: Step -> bool)
    requires Obeys(f, q)
    ensures forall s :: s in Serial(ctx, st, f) ==> q(s)
    decreases f, 0
  {
    hide Apply;
    if f.SafeTransfer? && Perform(ctx, st, f).Success? {
      SerialPlayObeys(ctx, Deliver(ctx, st, Transfer(f)), f.script, q);
    }
  }

  lemma {:induction false} SerialPlayObeys(ctx: Context, st: State, fs: seq<Frame>, q: Step -> bool)
    requires AllObey(fs, q)
    ensures forall s :: s in SerialPlay(ctx, st, fs) ==> q(s)
    decreases fs
  {
    hide Apply, Commit, Serial;
    if fs != [] {
      SerialObeys(ctx, st, fs[0], q);
      SerialPlayObeys(ctx, Commit(ctx, st, fs[0]), fs[1..], q);
    }
  }

  // ----- the theorems about all runs, with re-entrant receivers -----

  /** Totals are conserved and the registry stays consistent. */
  lemma ReentrantRunsConserve(ctx: Context, st: State, fs: seq<Frame>)
    ensures SameTotals(st.chain, Play(ctx, st, fs).chain)
    ensures RegistryOk(st) ==> RegistryOk(Play(ctx, st, fs))
  {
    hide Run, Play, SerialPlay, RegistryOk, SameTotals;
    SerialPlayIsEquivalent(ctx, st, fs);
    RunConserves(ctx, st, SerialPlay(ctx, st, fs));
    if RegistryOk(st) {
      RunRegistry(ctx, st, SerialPlay(ctx, st, fs));
    }
  }

  /** The exchange's coins are what its settled purchases and withdrawals make of them, whoever re-enters it. */
  lemma ReentrantCoinLedger(ctx: Context, st: State, fs: seq<Frame>)
    requires AllObey(fs, (s: Step) => s.sender != ctx.self)
    ensures At(Play(ctx, st, fs).chain.coins, ctx.self)
            == At(st.chain.coins, ctx.self) + NetMargin(ctx, st, SerialPlay(ctx, st, fs))
  {
    hide Run, Play, SerialPlay, NetMargin;
    SerialPlayIsEquivalent(ctx, st, fs);
    SerialPlayObeys(ctx, st, fs, (s: Step) => s.sender != ctx.self);
    CoinLedger(ctx, st, SerialPlay(ctx, st, fs));
  }

  /** A token stays with its owner unless the owner's consent was used, even inside a receiver's calls. */
  lemma ReentrantTradesRespectOwners(ctx: Context, st: State, fs: seq<Frame>, c: Address, t: Uint256)
    requires c in st.chain.nfts && t in st.chain.nfts[c].owner
    requires var was := st.chain.nfts[c];
             && AllObey(fs, (s: Step) => Powerless(s, c, was, t))
             && ((was.owner[t] as Address, ctx.self as Address) in was.operators ==>
                   NoConsent(ctx, st, SerialPlay(ctx, st, fs), c, t, was.owner[t]))
    ensures var chain := Play(ctx, st, fs).chain;
            c in chain.nfts && SameControl(st.chain.nfts[c], t, chain.nfts[c])
  {
    hide Run, Play, SerialPlay, NoConsent, Powerless;
    var was := st.chain.nfts[c];
    SerialPlayIsEquivalent(ctx, st, fs);
    SerialPlayObeys(ctx, st, fs, (s: Step) => Powerless(s, c, was, t));
    TradesRespectOwners(ctx, st, SerialPlay(ctx, st, fs), c, was, t);
  }

  /** An account is charged only under its signed orders and within its allowance, even inside a receiver's calls. */
  lemma ReentrantTradesRespectBuyers(ctx: Context, st: State, fs: seq<Frame>, c: Address, account: Address)
    requires c in st.chain.tokens && account != ctx.self
    requires AllObey(fs, (s: Step) => NotSpending(s, c, st.chain.tokens[c], account))
    ensures var tokens' := Play(ctx, st, fs).chain.tokens;
            && c in tokens'
            && OnlyCharged(ctx, st.chain.tokens[c], tokens'[c], account,
                           Charges(ctx, st, SerialPlay(ctx, st, fs), c, account))
  {
    hide Run, Play, SerialPlay, Charges, NotSpending, OnlyCharged;
    var was := st.chain.tokens[c];
    SerialPlayIsEquivalent(ctx, st, fs);
    SerialPlayObeys(ctx, st, fs, (s: Step) => NotSpending(s, c, was, account));
    TradesRespectBuyers(ctx, st, SerialPlay(ctx, st, fs), c, was, account);
  }
}
