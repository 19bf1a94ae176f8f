/** Safety of the collection over all runs: ownership, roles, token ids and token URIs. */
module Erc721Theorems {
  import opened Wrappers
  import opened Evm
  import opened DecimalStrings
  import opened Sequences
  import opened Erc721
  import opened Erc721Runs

  // ----- reachable states -----

  /** Only existing tokens are approved, no account is its own operator, DEFAULT_ADMIN_ROLE administers every role. */
  ghost predicate Reachable(s: State) {
    && (forall t :: t in s.approved ==> t in s.owner)
    && (forall a: Address :: (a, a) !in s.operators)
    && (forall role: Bytes32 :: RoleAdmin(s, role) == DEFAULT_ADMIN_ROLE)
  }

  lemma ReachableStep(s: State, m: Msg)
    requires Reachable(s) && IsFlat(m) && Apply(s, m).Success?
    ensures Reachable(Apply(s, m).value)
  {
    hide RoleAdmin;
    var s' := Apply(s, m).value;
    ApprovalsFollowTokens(s, m);
    StepOperators(s, m);
    assert forall role: Bytes32 :: RoleAdmin(s', role) == RoleAdmin(s, role) by {
      SameRoleAdmins(s, s');
    }
  }

  lemma SameRoleAdmins(s: State, s': State)
    requires s'.adminRole == s.adminRole
    ensures forall role: Bytes32 :: RoleAdmin(s', role) == RoleAdmin(s, role)
  {
  }

  lemma ApprovalsFollowTokens(s: State, m: Msg)
    requires IsFlat(m) && Apply(s, m).Success? && forall t :: t in s.approved ==> t in s.owner
    ensures forall t :: t in Apply(s, m).value.approved ==> t in Apply(s, m).value.owner
  {
    hide TokensOf, Controls, RoleAdmin;
    match m.call {
      case Approve(_, _) =>
      case TransferFrom(_, _, _) =>
      case Burn(_) =>
      case Mint(_, _) =>
      case _ =>
    }
  }

  lemma StepOperators(s: State, m: Msg)
    requires IsFlat(m) && Apply(s, m).Success? && forall a: Address :: (a, a) !in s.operators
    ensures forall a: Address :: (a, a) !in Apply(s, m).value.operators
    ensures Apply(s, m).value.adminRole == s.adminRole
  {
    hide TokensOf, Controls, RoleAdmin;
    match m.call {
      case SetApprovalForAll(_, _) =>
      case _ =>
    }
  }

  lemma ReachableKept()
    ensures Kept(Reachable, Anyone)
  {
    hide Reachable, Apply;
    forall s: State, m: Msg | Reachable(s) && IsFlat(m) && Apply(s, m).Success?
      ensures Reachable(Apply(s, m).value)
    {
      ReachableStep(s, m);
    }
  }

  lemma EveryRunIsReachable(deployer: Account, baseUri: string, ms: seq<Msg>)
    ensures Reachable(Run(Initial(deployer, baseUri), ms))
  {
    ReachableKept();
    EveryoneObeys(ms);
    RunKeeps(Reachable, Anyone, Initial(deployer, baseUri), ms);
  }

  // ----- ownership -----

  /** Token `t` has the owner, the approved address and the operators of its owner that it has in `was`. */
  ghost predicate SameControl(was: State, t: Uint256, s: State)
    requires t in was.owner
  {
    && t in s.owner && s.owner[t] == was.owner[t]
    && Read(s.approved, t, ZERO) == Read(was.approved, t, ZERO)
    && forall a: Address :: (was.owner[t], a) in s.operators <==> (was.owner[t], a) in was.operators
  }

  lemma ControlStep(was: State, t: Uint256, s: State, m: Msg)
    requires t in was.owner && SameControl(was, t, s) && !Controls(was, m.sender, t)
    requires IsFlat(m) && Apply(s, m).Success?
    ensures SameControl(was, t, Apply(s, m).value)
  {
    hide TokensOf, RoleAdmin, Apply, SameControl;
    match m.call {
      case Approve(_, _) => ControlUnderApproval(was, t, s, m);
      case SetApprovalForAll(_, _) => ControlUnderApproval(was, t, s, m);
      case _ => ControlUnderTransfer(was, t, s, m);
    }
  }

  lemma ControlUnderApproval(was: State, t: Uint256, s: State, m: Msg)
    requires t in was.owner && SameControl(was, t, s) && !Controls(was, m.sender, t)
    requires (m.call.Approve? || m.call.SetApprovalForAll?) && Apply(s, m).Success?
    ensures SameControl(was, t, Apply(s, m).value)
  {
  }

  lemma ControlUnderTransfer(was: State, t: Uint256, s: State, m: Msg)
    requires t in was.owner && SameControl(was, t, s) && !Controls(was, m.sender, t)
    requires IsFlat(m) && !m.call.Approve? && !m.call.SetApprovalForAll? && Apply(s, m).Success?
    ensures SameControl(was, t, Apply(s, m).value)
  {
    hide TokensOf, RoleAdmin;
    match m.call {
      case TransferFrom(_, _, _) =>
      case Burn(_) =>
      case Mint(_, _) =>
      case _ =>
    }
  }

  lemma ControlKept(was: State, t: Uint256)
    requires t in was.owner
    ensures Kept(s => SameControl(was, t, s), (a: Account) => !Controls(was, a, t))
  {
    hide Apply, SameControl, Controls;
    forall s: State, m: Msg
      | SameControl(was, t, s) && !Controls(was, m.sender, t) && IsFlat(m) && Apply(s, m).Success?
      ensures SameControl(was, t, Apply(s, m).value)
    {
      ControlStep(was, t, s, m);
    }
  }

  /**
   A token stays with its owner, approval and operators unchanged, through any run in which neither the owner, nor the
   approved address, nor an operator of the owner makes a call.
   */
  lemma OwnershipFrame(s: State, t: Uint256, ms: seq<Msg>)
    requires t in s.owner
    requires SendersObey(ms, (a: Account) => !Controls(s, a, t))
    ensures SameControl(s, t, Run(s, ms))
  {
    ControlKept(s, t);
    RunKeeps(s' => SameControl(s, t, s'), (a: Account) => !Controls(s, a, t), s, ms);
  }

  /** The call takes token `t` away from its owner. */
  ghost predicate Takes(s: State, m: Msg, t: Uint256)
    requires t in s.owner
  {
    var s' := Deliver(s, m);
    t !in s'.owner || s'.owner[t] != s.owner[t]
  }

  /** Until the counter wraps, an account can take a token of an unpaused collection if and only if it controls it. */
  lemma ControlIsPowerToTake(s: State, a: Account, t: Uint256)
    requires t in s.owner && !s.paused && Fresh(s)
    ensures Controls(s, a, t) <==> exists m: Msg :: m.sender == a && IsFlat(m) && Takes(s, m, t)
  {
    if Controls(s, a, t) {
      var to: Address := if s.owner[t] == 1 then 2 else 1;
      var m := Msg(a, Call.TransferFrom(s.owner[t], to, t));
      FreshGuards(s, m);
      assert Apply(s, m) == Move(s, s.owner[t], to, t);
      assert Takes(s, m, t);
    } else {
      forall m: Msg | m.sender == a && IsFlat(m)
        ensures !Takes(s, m, t)
      {
        hide Apply, Controls;
        if Apply(s, m).Success? {
          ControlStep(s, t, s, m);
        }
      }
    }
  }

  lemma {:induction false} SenderObeysWeaker(m: Msg, q: Account -> bool, q': Account -> bool)
    requires SenderObeys(m, q) && forall a: Account :: q(a) ==> q'(a)
    ensures SenderObeys(m, q')
    decreases m, 0
  {
    if m.call.SafeTransferFrom? && m.call.receiver.Contract? {
      SendersObeyWeaker(m.call.receiver.script, q, q');
    }
  }

  lemma {:induction false} SendersObeyWeaker(ms: seq<Msg>, q: Account -> bool, q': Account -> bool)
    requires SendersObey(ms, q) && forall a: Account :: q(a) ==> q'(a)
    ensures SendersObey(ms, q')
    decreases ms
  {
    if ms != [] {
      SenderObeysWeaker(ms[0], q, q');
      SendersObeyWeaker(ms[1..], q, q');
    }
  }

  ghost predicate NoOperators(s: State, owner: Address) {
    forall a: Address :: (owner, a) !in s.operators
  }

  /** Without an approved address and without operators, only a call by the owner can move, burn or approve a token. */
  lemma OnlyTheOwnerDecides(s: State, t: Uint256, ms: seq<Msg>)
    requires t in s.owner && t !in s.approved && NoOperators(s, s.owner[t])
    requires SendersObey(ms, (a: Account) => a != s.owner[t])
    ensures var s' := Run(s, ms);
            t in s'.owner && s'.owner[t] == s.owner[t] && t !in s'.approved && NoOperators(s', s.owner[t])
  {
    SendersObeyWeaker(ms, (a: Account) => a != s.owner[t], (a: Account) => !Controls(s, a, t));
    OwnershipFrame(s, t, ms);
  }

  /**
   A token minted in a reachable state carries no approval from an earlier life of its id, so it stays with the account
   it was minted to until that account acts, if that account has no operators.
   */
  lemma MintedTokenIsItsOwners(s: State, minter: Account, to: Account, uri: string, ms: seq<Msg>)
    requires Reachable(s) && NoOperators(s, to)
    requires Apply(s, Msg(minter, Call.Mint(to, uri))).Success?
    requires SendersObey(ms, (a: Account) => a != to)
    ensures var s' := Run(Deliver(s, Msg(minter, Call.Mint(to, uri))), ms);
            s.nextId in s'.owner && s'.owner[s.nextId] == to && s.nextId !in s'.approved
  {
    hide TokensOf;
    var minted := Deliver(s, Msg(minter, Call.Mint(to, uri)));
    assert s.nextId !in minted.approved && minted.owner[s.nextId] == to && NoOperators(minted, to);
    OnlyTheOwnerDecides(minted, s.nextId, ms);
  }

  // ----- roles and the pause switch -----

  ghost predicate NoMember(s: State, role: Bytes32) {
    forall a: Address :: (role, a) !in s.members
  }

  ghost predicate Leaderless(s: State) {
    NoMember(s, DEFAULT_ADMIN_ROLE) && forall role: Bytes32 :: RoleAdmin(s, role) == DEFAULT_ADMIN_ROLE
  }

  /** No admin, and no role has gained a member since `was`. */
  ghost predicate RolesShrunk(was: State, s: State) {
    Leaderless(s) && s.members <= was.members
  }

  lemma RolesShrunkKept(was: State)
    ensures Kept(s => RolesShrunk(was, s), Anyone)
  {
    forall s: State, m: Msg | RolesShrunk(was, s) && IsFlat(m) && Apply(s, m).Success?
      ensures RolesShrunk(was, Apply(s, m).value)
    {
      StepWithoutAdmin(s, m);
    }
  }

  /** Only a minter's call brings a token into existence. */
  lemma StepSupply(s: State, m: Msg)
    requires IsFlat(m) && Apply(s, m).Success?
    ensures Apply(s, m).value.owner.Keys <= s.owner.Keys || (MINTER_ROLE, m.sender) in s.members
  {
    hide TokensOf, RoleAdmin, Controls;
    match m.call {
      case Approve(_, _) =>
      case TransferFrom(_, _, _) =>
      case Burn(_) =>
      case Mint(_, _) =>
      case _ =>
    }
  }

  /** While the collection is paused only a pauser's call can lift the pause, and nothing else moves. */
  lemma StepWhilePaused(s: State, m: Msg)
    requires IsFlat(m) && Apply(s, m).Success? && s.paused
    ensures var s' := Apply(s, m).value;
            && s'.owner == s.owner && s'.nextId == s.nextId && s'.uris == s.uris && s'.baseUri == s.baseUri
            && (s'.paused || (PAUSER_ROLE, m.sender) in s.members)
  {
    hide TokensOf, RoleAdmin, Controls;
    match m.call {
      case Approve(_, _) =>
      case TransferFrom(_, _, _) =>
      case Burn(_) =>
      case Mint(_, _) =>
      case _ =>
    }
  }

  /** Without an admin a successful call can only take memberships away. */
  lemma StepWithoutAdmin(s: State, m: Msg)
    requires Leaderless(s) && IsFlat(m) && Apply(s, m).Success?
    ensures Leaderless(Apply(s, m).value) && Apply(s, m).value.members <= s.members
  {
    hide TokensOf;
    var s' := Apply(s, m).value;
    match m.call {
      case GrantRole(_, _) =>
      case TransferFrom(_, _, _) =>
      case Burn(_) =>
      case Mint(_, _) =>
      case _ =>
    }
    assert forall role: Bytes32 :: RoleAdmin(s', role) == RoleAdmin(s, role);
  }

  /** Once DEFAULT_ADMIN_ROLE has no member it never has one again, and every other role can only lose members. */
  lemma RolesOnlyShrink(s: State, ms: seq<Msg>)
    requires Leaderless(s)
    ensures RolesShrunk(s, Run(s, ms))
  {
    RolesShrunkKept(s);
    EveryoneObeys(ms);
    RunKeeps(s' => RolesShrunk(s, s'), Anyone, s, ms);
  }

  ghost predicate NotGrown(was: State, s: State) {
    RolesShrunk(was, s) && s.owner.Keys <= was.owner.Keys
  }

  /** With neither admins nor minters no token is ever created again. */
  lemma SupplyNeverGrows(s: State, ms: seq<Msg>)
    requires Leaderless(s) && NoMember(s, MINTER_ROLE)
    ensures NotGrown(s, Run(s, ms)) && |Run(s, ms).owner| <= |s.owner|
  {
    forall s': State, m: Msg | NotGrown(s, s') && IsFlat(m) && Apply(s', m).Success?
      ensures NotGrown(s, Apply(s', m).value)
    {
      hide Apply;
      StepWithoutAdmin(s', m);
      StepSupply(s', m);
    }
    assert Kept(s' => NotGrown(s, s'), Anyone);
    EveryoneObeys(ms);
    RunKeeps(s' => NotGrown(s, s'), Anyone, s, ms);
    SubsetCardinality(Run(s, ms).owner.Keys, s.owner.Keys);
  }

  ghost predicate Frozen(was: State, s: State) {
    && RolesShrunk(was, s) && s.paused && s.owner == was.owner && s.nextId == was.nextId
    && s.uris == was.uris && s.baseUri == was.baseUri
  }

  /** A paused collection with neither admins nor pausers keeps its owners, its supply and its URIs for ever. */
  lemma FrozenForever(s: State, ms: seq<Msg>)
    requires Leaderless(s) && NoMember(s, PAUSER_ROLE) && s.paused
    ensures Frozen(s, Run(s, ms))
    ensures forall t: Uint256 :: TokenUri(Run(s, ms), t) == TokenUri(s, t)
  {
    forall s': State, m: Msg | Frozen(s, s') && IsFlat(m) && Apply(s', m).Success?
      ensures Frozen(s, Apply(s', m).value)
    {
      hide Apply;
      StepWithoutAdmin(s', m);
      StepWhilePaused(s', m);
    }
    assert Kept(s' => Frozen(s, s'), Anyone);
    EveryoneObeys(ms);
    RunKeeps(s' => Frozen(s, s'), Anyone, s, ms);
  }

  // ----- token ids -----

  /** No existing token has an id that the counter has yet to hand out. */
  ghost predicate Fresh(s: State) {
    forall t :: t in s.owner ==> t < s.nextId
  }

  /** The number of tokens that a plain sequence of calls mints. */
  ghost function Mints(s: State, ms: seq<Msg>): nat
    decreases |ms|
  {
    if ms == [] then 0
    else (if ms[0].call.Mint? && Apply(s, ms[0]).Success? then 1 else 0) + Mints(Deliver(s, ms[0]), ms[1..])
  }

  /**
   From `s` to `s'` the counter advanced by `n` without wrapping; no id below it came back to life, and every token
   that is still alive shows the URI it had.
   */
  ghost predicate Continues(s: State, s': State, n: nat) {
    && s'.nextId == s.nextId + n
    && Fresh(s')
    && (forall t :: t in s'.owner && t < s.nextId ==> t in s.owner && TokenUri(s', t) == TokenUri(s, t))
  }

  lemma SameUri(s: State, s': State, t: Uint256)
    requires t in s.owner && t in s'.owner && s'.baseUri == s.baseUri && Read(s'.uris, t, "") == Read(s.uris, t, "")
    ensures TokenUri(s', t) == TokenUri(s, t)
  {
  }

  /** Minting takes the counter's id and writes its text; a plain call of any other kind creates nothing. */
  lemma MintStep(s: State, m: Msg)
    requires m.call.Mint? && Apply(s, m).Success?
    ensures var s' := Apply(s, m).value;
            && s'.owner.Keys == s.owner.Keys + {s.nextId} && s'.nextId == (s.nextId + 1) % TWO_256
            && s'.baseUri == s.baseUri && s'.uris == s.uris[s.nextId := m.call.uri]
  {
    hide TokensOf;
  }

  lemma NonMintStep(s: State, m: Msg)
    requires IsFlat(m) && !m.call.Mint? && Apply(s, m).Success?
    ensures var s' := Apply(s, m).value;
            && s'.owner.Keys <= s.owner.Keys && s'.nextId == s.nextId
            && s'.baseUri == s.baseUri && s'.uris == s.uris
  {
    hide TokensOf, Controls, RoleAdmin;
    match m.call {
      case Approve(_, _) =>
      case TransferFrom(_, _, _) =>
      case Burn(_) =>
      case _ =>
    }
  }

  lemma StepContinues(s: State, m: Msg)
    requires Fresh(s) && IsFlat(m) && Apply(s, m).Success?
    requires m.call.Mint? ==> s.nextId < MAX_UINT256
    ensures Continues(s, Apply(s, m).value, if m.call.Mint? then 1 else 0)
  {
    hide Apply, TokenUri;
    var s' := Apply(s, m).value;
    if m.call.Mint? {
      MintStep(s, m);
    } else {
      NonMintStep(s, m);
    }
    forall t | t in s'.owner && t < s.nextId
      ensures t in s.owner && TokenUri(s', t) == TokenUri(s, t)
    {
      assert t in s'.owner.Keys;
      SameUri(s, s', t);
    }
    assert forall t :: t in s'.owner ==> t in s'.owner.Keys;
  }

  lemma {:induction false} FlatRunContinues(s: State, ms: seq<Msg>)
    requires Fresh(s) && s.nextId + Mints(s, ms) <= MAX_UINT256
    requires forall m :: m in ms ==> IsFlat(m)
    ensures Continues(s, Run(s, ms), Mints(s, ms))
    decreases |ms|
  {
    hide Apply, TokenUri;
    if ms != [] {
      assert IsFlat(ms[0]);
      if Apply(s, ms[0]).Success? {
        StepContinues(s, ms[0]);
      }
      FlatRunContinues(Deliver(s, ms[0]), ms[1..]);
    }
  }

  /**
   Until the counter wraps: after a run that mints n tokens the counter has advanced by exactly n, every token has an
   id below it, an id that was burned (or skipped) never exists again, and a token's URI is constant for its lifetime.
   */
  lemma IdsAreNeverReissued(s: State, ms: seq<Msg>)
    requires Fresh(s) && s.nextId + Mints(s, SerialRun(s, ms)) <= MAX_UINT256
    ensures Continues(s, Run(s, ms), Mints(s, SerialRun(s, ms)))
  {
    SerialRunIsEquivalent(s, ms);
    FlatRunContinues(s, SerialRun(s, ms));
  }

  /** From deployment, the counter is the number of tokens ever minted. */
  lemma CounterCountsMints(deployer: Account, baseUri: string, ms: seq<Msg>)
    requires Mints(Initial(deployer, baseUri), SerialRun(Initial(deployer, baseUri), ms)) <= MAX_UINT256
    ensures var s := Run(Initial(deployer, baseUri), ms);
            Fresh(s) && s.nextId == Mints(Initial(deployer, baseUri), SerialRun(Initial(deployer, baseUri), ms))
  {
    IdsAreNeverReissued(Initial(deployer, baseUri), ms);
  }

  /**
   Before the counter wraps, `mint` never meets an existing id, and no checked addition overflows (the last id of all
   apart, if one account holds every other token).
   */
  lemma FreshGuards(s: State, m: Msg)
    requires Fresh(s)
    ensures m.call.Mint? ==> Apply(s, m) != Failure(AlreadyMinted)
    ensures m.call.TransferFrom? || (m.call.Mint? && s.nextId < MAX_UINT256) ==> Apply(s, m) != Failure(Overflow)
  {
    match m.call {
      case TransferFrom(_, to, id) =>
        if id in s.owner {
          BelowCounter(s, TokensOf(s.owner - {id}, to) + {id});
          assert |TokensOf(s.owner - {id}, to) + {id}| == |TokensOf(s.owner - {id}, to)| + 1;
        }
      case Mint(to, _) =>
        BelowCounter(s, TokensOf(s.owner, to));
      case _ =>
    }
  }

  lemma BelowCounter(s: State, ts: set<Uint256>)
    requires Fresh(s) && forall t :: t in ts ==> t in s.owner
    ensures |ts| <= s.nextId
  {
    var ns: set<nat> := ts;
    BoundedSetCardinality(ns, s.nextId);
  }
}
