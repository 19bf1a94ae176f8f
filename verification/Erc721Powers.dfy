/**
 What each kind of call on the collection gives and takes, stated by what accounts can do: who can take, destroy,
 approve or create a token, change the pause switch or a role in one call, and what stays while they make none.
 */
module Erc721Powers {
  import opened Wrappers
  import opened Evm
  import opened DecimalStrings
  import opened Sequences
  import opened Erc721
  import opened Erc721Runs
  import opened Erc721Theorems

  /** `a` can take token `t` away from its owner in one call. */
  ghost predicate CanTake(s: State, a: Account, t: Uint256)
    requires t in s.owner
  {
    exists m: Msg :: m.sender == a && IsFlat(m) && Takes(s, m, t)
  }

  // ----- approvals -----

  ghost predicate SameTokens(s: State, s': State) {
    s'.owner == s.owner && s'.paused == s.paused && s'.nextId == s.nextId
  }

  /** Everyone can take the same tokens before and after, but for the pairs excluded by `q`. */
  ghost predicate SamePowers(s: State, s': State, q: (Account, Uint256) -> bool)
    requires s'.owner == s.owner
  {
    forall a: Account, t: Uint256 :: t in s.owner && q(a, t) ==> (CanTake(s', a, t) <==> CanTake(s, a, t))
  }

  lemma PowersFromControl(s: State, s': State, q: (Account, Uint256) -> bool)
    requires !s.paused && Fresh(s) && SameTokens(s, s')
    requires forall a: Account, t: Uint256 :: t in s.owner && q(a, t) ==> (Controls(s', a, t) <==> Controls(s, a, t))
    ensures SamePowers(s, s', q)
  {
    hide Controls;
    forall a: Account, t: Uint256 | t in s.owner && q(a, t)
      ensures CanTake(s', a, t) <==> CanTake(s, a, t)
    {
      ControlIsPowerToTake(s, a, t);
      ControlIsPowerToTake(s', a, t);
    }
  }

  lemma OperatorStep(s: State, owner: Account, b: Account, approval: bool)
    requires owner != b
    ensures var s' := Deliver(s, Msg(owner, Call.SetApprovalForAll(b, approval)));
            && Apply(s, Msg(owner, Call.SetApprovalForAll(b, approval))).Success?
            && SameTokens(s, s') && s'.approved == s.approved
            && ((owner as Address, b as Address) in s'.operators <==> approval)
            && forall o: Address, c: Address :: (o, c) != (owner, b) ==>
                 ((o, c) in s'.operators <==> (o, c) in s.operators)
  {
    assert Apply(s, Msg(owner, Call.SetApprovalForAll(b, approval))).Success?;
  }

  /** An owner can make any other account its operator, which can then take all of the owner's tokens, and no others. */
  lemma OperatorPower(s: State, owner: Account, b: Account)
    requires !s.paused && Fresh(s) && owner != b
    ensures var s' := Deliver(s, Msg(owner, Call.SetApprovalForAll(b, true)));
            && Apply(s, Msg(owner, Call.SetApprovalForAll(b, true))).Success? && SameTokens(s, s')
            && (forall t: Uint256 :: t in s.owner && s.owner[t] == owner ==> CanTake(s', b, t))
            && SamePowers(s, s', (a: Account, t: Uint256) => a != b || (t in s.owner && s.owner[t] != owner))
  {
    hide Apply;
    var s' := Deliver(s, Msg(owner, Call.SetApprovalForAll(b, true)));
    OperatorStep(s, owner, b, true);
    forall t: Uint256 | t in s.owner && s.owner[t] == owner
      ensures CanTake(s', b, t)
    {
      ControlIsPowerToTake(s', b, t);
    }
    PowersFromControl(s, s', (a: Account, t: Uint256) => a != b || (t in s.owner && s.owner[t] != owner));
  }

  /** Once it is withdrawn, the former operator can take exactly the tokens for which it is the approved address. */
  lemma OperatorPowerWithdrawn(s: State, owner: Account, b: Account)
    requires !s.paused && Fresh(s) && owner != b
    ensures var s' := Deliver(s, Msg(owner, Call.SetApprovalForAll(b, false)));
            && Apply(s, Msg(owner, Call.SetApprovalForAll(b, false))).Success? && SameTokens(s, s')
            && (forall t: Uint256 :: t in s.owner && s.owner[t] == owner ==>
                  (CanTake(s', b, t) <==> Read(s.approved, t, ZERO) == b))
            && SamePowers(s, s', (a: Account, t: Uint256) => a != b || (t in s.owner && s.owner[t] != owner))
  {
    hide Apply;
    var s' := Deliver(s, Msg(owner, Call.SetApprovalForAll(b, false)));
    OperatorStep(s, owner, b, false);
    forall t: Uint256 | t in s.owner && s.owner[t] == owner
      ensures CanTake(s', b, t) <==> Read(s.approved, t, ZERO) == b
    {
      ControlIsPowerToTake(s', b, t);
    }
    PowersFromControl(s, s', (a: Account, t: Uint256) => a != b || (t in s.owner && s.owner[t] != owner));
  }

  /** After `approve(to, t)` the owner, its operators and `to` can take the token; nobody else, whoever could before. */
  lemma ApprovalPower(s: State, sender: Account, to: Address, t: Uint256)
    requires !s.paused && Fresh(s) && Apply(s, Msg(sender, Call.Approve(to, t))).Success?
    ensures var s' := Deliver(s, Msg(sender, Call.Approve(to, t)));
            && t in s.owner && SameTokens(s, s')
            && (forall a: Account :: CanTake(s', a, t) <==>
                  a == to || a == s.owner[t] || (s.owner[t] as Address, a as Address) in s.operators)
            && SamePowers(s, s', (_: Account, other: Uint256) => other != t)
  {
    var s' := Deliver(s, Msg(sender, Call.Approve(to, t)));
    forall a: Account
      ensures CanTake(s', a, t) <==>
                a == to || a == s.owner[t] || (s.owner[t] as Address, a as Address) in s.operators
    {
      ControlIsPowerToTake(s', a, t);
    }
    PowersFromControl(s, s', (_: Account, other: Uint256) => other != t);
  }

  /** The call gives token `t`, which stays where it is, to another approved address. */
  ghost predicate Approves(s: State, m: Msg, t: Uint256)
    requires t in s.owner
  {
    var s' := Deliver(s, m);
    && t in s'.owner && s'.owner[t] == s.owner[t]
    && t in s'.approved && s'.approved[t] != Read(s.approved, t, ZERO)
  }

  /** Only the owner and its operators can approve: the approved address cannot pass its approval on. */
  lemma PowerToApprove(s: State, a: Account, t: Uint256)
    requires t in s.owner
    ensures (a == s.owner[t] || (s.owner[t] as Address, a as Address) in s.operators)
            <==> exists m: Msg :: m.sender == a && IsFlat(m) && Approves(s, m, t)
  {
    hide TokensOf;
    if a == s.owner[t] || (s.owner[t] as Address, a as Address) in s.operators {
      var to: Address :| to in {1, 2, 3} && to != s.owner[t] && to != Read(s.approved, t, ZERO);
      assert Apply(s, Msg(a, Call.Approve(to, t))).Success?;
      assert Approves(s, Msg(a, Call.Approve(to, t)), t);
    } else {
      forall m: Msg | m.sender == a && IsFlat(m)
        ensures !Approves(s, m, t)
      {
        ApprovalStep(s, m, t);
      }
    }
  }

  lemma ApprovalStep(s: State, m: Msg, t: Uint256)
    requires t in s.owner && IsFlat(m)
    requires m.sender != s.owner[t] && (s.owner[t] as Address, m.sender as Address) !in s.operators
    ensures !Approves(s, m, t)
  {
    hide TokensOf, RoleAdmin, Controls;
    assert Apply(s, m).Failure? ==> Deliver(s, m) == s;
    match m.call {
      case Approve(_, _) =>
      case TransferFrom(_, _, _) =>
      case Burn(_) =>
      case Mint(_, _) =>
      case _ =>
    }
  }

  // ----- transfer, burn and mint -----

  /**
   A transfer is made by its owner's name, brings the token to `to`, and leaves it with `to` and the operators of `to`
   alone; nothing else about any token changes.
   */
  lemma TransferDelivers(s: State, sender: Account, from: Address, to: Address, t: Uint256)
    requires Fresh(s) && Apply(s, Msg(sender, Call.TransferFrom(from, to, t))).Success?
    ensures var s' := Deliver(s, Msg(sender, Call.TransferFrom(from, to, t)));
            && !s.paused && t in s.owner && s.owner[t] == from && Controls(s, sender, t) && to != ZERO
            && t in s'.owner && s'.owner[t] == to && s'.owner.Keys == s.owner.Keys
            && (forall a: Account :: CanTake(s', a, t) <==> a == to || (to, a as Address) in s.operators)
            && (forall other: Uint256 :: other != t && other in s.owner ==> s'.owner[other] == s.owner[other])
            && (forall a: Account, other: Uint256 :: other != t && other in s.owner ==>
                  (CanTake(s', a, other) <==> CanTake(s, a, other)))
  {
    hide TokensOf;
    var s' := Deliver(s, Msg(sender, Call.TransferFrom(from, to, t)));
    assert s'.owner == s.owner[t := to];
    forall a: Account
      ensures CanTake(s', a, t) <==> a == to || (to, a as Address) in s.operators
    {
      ControlIsPowerToTake(s', a, t);
    }
    forall a: Account, other: Uint256 | other != t && other in s.owner
      ensures CanTake(s', a, other) <==> CanTake(s, a, other)
    {
      ControlIsPowerToTake(s, a, other);
      ControlIsPowerToTake(s', a, other);
    }
  }

  /** Destroying a token takes the same power as taking it. */
  lemma PowerToBurn(s: State, a: Account, t: Uint256)
    requires t in s.owner && !s.paused
    ensures Controls(s, a, t) <==> exists m: Msg :: m.sender == a && IsFlat(m) && t !in Deliver(s, m).owner
  {
    hide TokensOf;
    if Controls(s, a, t) {
      assert t !in Deliver(s, Msg(a, Call.Burn(t))).owner;
    } else {
      forall m: Msg | m.sender == a && IsFlat(m)
        ensures t in Deliver(s, m).owner
      {
        hide Apply, Controls;
        if Apply(s, m).Success? {
          ControlStep(s, t, s, m);
        }
      }
    }
  }

  /** A burn removes its token with its approval and touches no other. */
  lemma BurnRemoves(s: State, sender: Account, t: Uint256)
    requires Apply(s, Msg(sender, Call.Burn(t))).Success?
    ensures var s' := Deliver(s, Msg(sender, Call.Burn(t)));
            && t in s.owner && t !in s'.owner && t !in s'.approved
            && (forall other: Uint256 :: other != t ==>
                  (other in s'.owner <==> other in s.owner)
                  && (other in s.owner ==> s'.owner[other] == s.owner[other])
                  && Read(s'.approved, other, ZERO) == Read(s.approved, other, ZERO))
            && s'.operators == s.operators
  {
  }

  /** While the counter has ids left, exactly the minters can create a token, for anyone, and it is the counter's. */
  lemma PowerToMint(s: State, a: Account)
    requires !s.paused && Fresh(s) && s.nextId < MAX_UINT256
    ensures (MINTER_ROLE, a as Address) in s.members
            <==> exists m: Msg :: m.sender == a && IsFlat(m) && !(Deliver(s, m).owner.Keys <= s.owner.Keys)
    ensures (MINTER_ROLE, a as Address) in s.members ==>
              forall to: Account, uri: string ::
                var s' := Deliver(s, Msg(a, Call.Mint(to, uri)));
                && s'.owner.Keys == s.owner.Keys + {s.nextId} && s'.owner[s.nextId] == to
                && forall t: Uint256 :: t in s.owner ==> t in s'.owner && s'.owner[t] == s.owner[t]
  {
    hide TokensOf;
    if (MINTER_ROLE, a as Address) in s.members {
      forall to: Account, uri: string
        ensures var s' := Deliver(s, Msg(a, Call.Mint(to, uri)));
                && s'.owner.Keys == s.owner.Keys + {s.nextId} && s'.owner[s.nextId] == to
                && forall t: Uint256 :: t in s.owner ==> t in s'.owner && s'.owner[t] == s.owner[t]
      {
        MintSucceeds(s, a, to, uri);
      }
      var m := Msg(a, Call.Mint(1, ""));
      MintSucceeds(s, a, 1, "");
      assert s.nextId in Deliver(s, m).owner.Keys && s.nextId !in s.owner.Keys;
    } else {
      forall m: Msg | m.sender == a && IsFlat(m)
        ensures Deliver(s, m).owner.Keys <= s.owner.Keys
      {
        hide Apply;
        if Apply(s, m).Success? {
          StepSupply(s, m);
        }
      }
    }
  }

  lemma MintSucceeds(s: State, a: Account, to: Account, uri: string)
    requires !s.paused && Fresh(s) && s.nextId < MAX_UINT256 && (MINTER_ROLE, a as Address) in s.members
    ensures Apply(s, Msg(a, Call.Mint(to, uri))).Success?
    ensures Deliver(s, Msg(a, Call.Mint(to, uri))).owner == s.owner[s.nextId := to]
  {
    hide TokensOf;
    FreshGuards(s, Msg(a, Call.Mint(to, uri)));
  }

  /** The tokens that a plain sequence of calls destroys. */
  ghost function Burns(s: State, ms: seq<Msg>): nat
    decreases |ms|
  {
    if ms == [] then 0
    else (if ms[0].call.Burn? && Apply(s, ms[0]).Success? then 1 else 0) + Burns(Deliver(s, ms[0]), ms[1..])
  }

  /** A uint256 counter after `n` unchecked increments. */
  function Advanced(counter: Uint256, n: nat): Uint256 {
    (counter + n) % TWO_256
  }

  lemma AdvancedTwice(counter: Uint256, m: nat, n: nat)
    ensures Advanced(counter, 0) == counter
    ensures Advanced(Advanced(counter, m), n) == Advanced(counter, m + n)
  {
  }

  /** Which tokens exist after a call. */
  lemma KeysStep(s: State, m: Msg)
    requires IsFlat(m) && Apply(s, m).Success?
    ensures var s' := Apply(s, m).value;
            if m.call.Mint? then s.nextId !in s.owner && s'.owner.Keys == s.owner.Keys + {s.nextId}
            else if m.call.Burn? then m.call.id in s.owner && s'.owner.Keys == s.owner.Keys - {m.call.id}
            else s'.owner.Keys == s.owner.Keys
  {
    hide TokensOf, RoleAdmin, Controls;
    match m.call {
      case Approve(_, _) =>
      case TransferFrom(_, _, id) =>
      case Burn(_) =>
      case Mint(_, _) =>
      case _ =>
    }
  }

  lemma SupplyStep(s: State, m: Msg)
    requires IsFlat(m) && Apply(s, m).Success?
    ensures var s' := Apply(s, m).value;
            |s'.owner| + (if m.call.Burn? then 1 else 0) == |s.owner| + (if m.call.Mint? then 1 else 0)
  {
    hide Apply;
    var s' := Apply(s, m).value;
    KeysStep(s, m);
    if m.call.Burn? {
      OneFewer(s'.owner, s.owner, m.call.id);
    } else if m.call.Mint? {
      OneFewer(s.owner, s'.owner, s.nextId);
    } else {
      SameCount(s.owner, s'.owner);
    }
  }

  lemma CounterStep(s: State, m: Msg)
    requires IsFlat(m) && Apply(s, m).Success?
    ensures Apply(s, m).value.nextId == Advanced(s.nextId, if m.call.Mint? then 1 else 0)
    ensures Apply(s, m).value.baseUri == s.baseUri
  {
    hide Apply;
    if m.call.Mint? {
      MintStep(s, m);
    } else {
      NonMintStep(s, m);
    }
  }

  lemma SameCount(m: map<Uint256, Account>, m': map<Uint256, Account>)
    requires m'.Keys == m.Keys
    ensures |m'| == |m|
  {
    assert |m| == |m.Keys| && |m'| == |m'.Keys|;
  }

  lemma OneFewer(m: map<Uint256, Account>, m': map<Uint256, Account>, id: Uint256)
    requires m'.Keys == m.Keys + {id} && id !in m
    ensures |m'| == |m| + 1
  {
    assert |m| == |m.Keys| && |m'| == |m'.Keys|;
  }

  lemma {:induction false} FlatRunCounts(s: State, ms: seq<Msg>)
    requires forall m :: m in ms ==> IsFlat(m)
    ensures |Run(s, ms).owner| + Burns(s, ms) == |s.owner| + Mints(s, ms)
    ensures Run(s, ms).nextId == Advanced(s.nextId, Mints(s, ms))
    ensures Run(s, ms).baseUri == s.baseUri
    decreases |ms|
  {
    hide Apply, Advanced;
    AdvancedTwice(s.nextId, 0, 0);
    if ms != [] {
      assert IsFlat(ms[0]);
      if Apply(s, ms[0]).Success? {
        SupplyStep(s, ms[0]);
        CounterStep(s, ms[0]);
      }
      FlatRunCounts(Deliver(s, ms[0]), ms[1..]);
      AdvancedTwice(s.nextId, if ms[0].call.Mint? && Apply(s, ms[0]).Success? then 1 else 0,
                    Mints(Deliver(s, ms[0]), ms[1..]));
    }
  }

  /**
   Over every run the supply is what it was, plus the mints, less the burns, and the counter advances by the mints
   modulo 2^256, wrapping included; the base text never changes.
   */
  lemma SupplyIsMintsLessBurns(s: State, ms: seq<Msg>)
    ensures |Run(s, ms).owner| + Burns(s, SerialRun(s, ms)) == |s.owner| + Mints(s, SerialRun(s, ms))
    ensures Run(s, ms).nextId == Advanced(s.nextId, Mints(s, SerialRun(s, ms)))
    ensures Run(s, ms).baseUri == s.baseUri
  {
    hide Run, SerialRun, Mints, Burns;
    SerialRunIsEquivalent(s, ms);
    FlatRunCounts(s, SerialRun(s, ms));
  }

  // ----- texts -----

  /** The base, then the token's own text, or the id in canonical digits if it has none; without a base the own text. */
  ghost predicate IsTextOf(text: string, baseUri: string, uri: string, id: nat) {
    if baseUri == "" then text == uri
    else
      && |baseUri| <= |text| && text[..|baseUri|] == baseUri
      && var rest := text[|baseUri|..];
      if uri != "" then rest == uri else IsCanonical(rest) && Value(rest) == id
  }

  lemma TextOfToken(s: State, id: Uint256)
    requires id in s.owner
    ensures TokenUri(s, id).Success? && IsTextOf(TokenUri(s, id).value, s.baseUri, Read(s.uris, id, ""), id)
  {
    DecimalRoundTrip(id);
  }

  /**
   From deployment, through a mint, to any later state in which the token lives (before the counter wraps): its text is
   the collection's base and what it was minted with.
   */
  lemma TextOverRuns(deployer: Account, baseUri: string, before: seq<Msg>, m: Msg, after: seq<Msg>)
    requires m.call.Mint? && Apply(Run(Initial(deployer, baseUri), before), m).Success?
    requires var start := Initial(deployer, baseUri);
             var minted := Deliver(Run(start, before), m);
             Mints(start, SerialRun(start, before)) + 1 + Mints(minted, SerialRun(minted, after)) <= MAX_UINT256
    ensures var s := Run(Initial(deployer, baseUri), before);
            var last := Run(Deliver(s, m), after);
            s.nextId in last.owner ==>
              && TokenUri(last, s.nextId).Success?
              && IsTextOf(TokenUri(last, s.nextId).value, baseUri, m.call.uri, s.nextId)
  {
    hide Apply, TokenUri, IsTextOf;
    var start := Initial(deployer, baseUri);
    var s := Run(start, before);
    var minted := Deliver(s, m);
    CounterCountsMints(deployer, baseUri, before);
    SupplyIsMintsLessBurns(start, before);
    MintStep(s, m);
    StepContinues(s, m);
    assert s.nextId in minted.owner.Keys;
    TextOfToken(minted, s.nextId);
    IdsAreNeverReissued(minted, after);
  }

  // ----- roles -----

  /** `a` can give `b` the role in one call. */
  ghost predicate CanGive(s: State, a: Account, role: Bytes32, b: Address) {
    exists m: Msg :: m.sender == a && IsFlat(m) && (role, b) in Deliver(s, m).members
  }

  ghost predicate CanRemove(s: State, a: Account, role: Bytes32, b: Address) {
    exists m: Msg :: m.sender == a && IsFlat(m) && (role, b) !in Deliver(s, m).members
  }

  /** The two ways in which one call changes a membership. */
  lemma MembershipStep(s: State, m: Msg, role: Bytes32, b: Address)
    requires IsFlat(m) && Apply(s, m).Success?
    ensures var s' := Apply(s, m).value;
            && ((role, b) !in s.members && (role, b) in s'.members ==>
                  (RoleAdmin(s, role), m.sender as Address) in s.members)
            && ((role, b) in s.members && (role, b) !in s'.members ==>
                  m.sender == b || (RoleAdmin(s, role), m.sender as Address) in s.members)
  {
    hide TokensOf, Controls;
    match m.call {
      case Approve(_, _) =>
      case TransferFrom(_, _, _) =>
      case Burn(_) =>
      case Mint(_, _) =>
      case _ =>
    }
  }

  /** Exactly the admins of a role can give it, and exactly they and the member itself can end a membership. */
  lemma PowerOverRoles(s: State, a: Account, role: Bytes32, b: Address)
    ensures (role, b) !in s.members ==>
              (CanGive(s, a, role, b) <==> (RoleAdmin(s, role), a as Address) in s.members)
    ensures (role, b) in s.members ==>
              (CanRemove(s, a, role, b) <==> a == b || (RoleAdmin(s, role), a as Address) in s.members)
  {
    if (RoleAdmin(s, role), a as Address) in s.members {
      assert (role, b) in Deliver(s, Msg(a, Call.GrantRole(role, b))).members;
      assert (role, b) !in Deliver(s, Msg(a, Call.RevokeRole(role, b))).members;
    } else if a == b {
      assert (role, b) !in Deliver(s, Msg(a, Call.RenounceRole(role, b))).members;
    }
    hide Apply;
    forall m: Msg | m.sender == a && IsFlat(m) && Apply(s, m).Success?
      ensures var s' := Apply(s, m).value;
              && ((role, b) !in s.members && (role, b) in s'.members ==>
                    (RoleAdmin(s, role), a as Address) in s.members)
              && ((role, b) in s.members && (role, b) !in s'.members ==>
                    a == b || (RoleAdmin(s, role), a as Address) in s.members)
    {
      MembershipStep(s, m, role, b);
    }
  }

  /** A call about one membership changes at most that one, and leaves tokens and approvals alone. */
  lemma RoleCallsAreExact(s: State, m: Msg)
    requires (m.call.GrantRole? || m.call.RevokeRole? || m.call.RenounceRole?) && Apply(s, m).Success?
    ensures var s' := Apply(s, m).value;
            && ((m.call.role, m.call.account) in s'.members <==> m.call.GrantRole?)
            && (forall role: Bytes32, b: Address :: (role, b) != (m.call.role, m.call.account) ==>
                  ((role, b) in s'.members <==> (role, b) in s.members))
            && SameTokens(s, s') && s'.approved == s.approved && s'.operators == s.operators
  {
  }

  /** `a` holds the roles it held in `was`, and nobody has become an admin since. */
  ghost predicate SameRoles(was: State, a: Address, s: State) {
    && (forall role: Bytes32 :: (role, a) in s.members <==> (role, a) in was.members)
    && (forall b: Address :: (DEFAULT_ADMIN_ROLE, b) in s.members ==> (DEFAULT_ADMIN_ROLE, b) in was.members)
    && (forall role: Bytes32 :: RoleAdmin(s, role) == DEFAULT_ADMIN_ROLE)
  }

  ghost predicate NeitherAdminNor(was: State, a: Address, sender: Account) {
    sender != a && (DEFAULT_ADMIN_ROLE, sender as Address) !in was.members
  }

  lemma SameRolesStep(was: State, a: Address, s: State, m: Msg)
    requires SameRoles(was, a, s) && NeitherAdminNor(was, a, m.sender) && IsFlat(m) && Apply(s, m).Success?
    ensures SameRoles(was, a, Apply(s, m).value)
  {
    hide Apply, RoleAdmin;
    var s' := Apply(s, m).value;
    forall role: Bytes32
      ensures (role, a) in s'.members <==> (role, a) in was.members
      ensures RoleAdmin(s', role) == DEFAULT_ADMIN_ROLE
    {
      MembershipStep(s, m, role, a);
      AdminRoleStep(s, m, role);
    }
    forall b: Address
      ensures (DEFAULT_ADMIN_ROLE, b) in s'.members ==> (DEFAULT_ADMIN_ROLE, b) in was.members
    {
      MembershipStep(s, m, DEFAULT_ADMIN_ROLE, b);
    }
  }

  lemma AdminRoleStep(s: State, m: Msg, role: Bytes32)
    requires IsFlat(m) && Apply(s, m).Success?
    ensures RoleAdmin(Apply(s, m).value, role) == RoleAdmin(s, role)
  {
    hide TokensOf, Controls;
    match m.call {
      case Approve(_, _) =>
      case TransferFrom(_, _, _) =>
      case Burn(_) =>
      case Mint(_, _) =>
      case _ =>
    }
  }

  /** In every run without a call of its own or of an admin, an account keeps exactly the roles it has. */
  lemma RoleFrame(s: State, a: Address, ms: seq<Msg>)
    requires Reachable(s)
    requires SendersObey(ms, (sender: Account) => NeitherAdminNor(s, a, sender))
    ensures forall role: Bytes32 :: (role, a) in Run(s, ms).members <==> (role, a) in s.members
  {
    hide Apply, Run, RoleAdmin;
    var p, q := (s': State) => SameRoles(s, a, s'), (sender: Account) => NeitherAdminNor(s, a, sender);
    forall s': State, m: Msg | p(s') && q(m.sender) && IsFlat(m) && Apply(s', m).Success?
      ensures p(Apply(s', m).value)
    {
      SameRolesStep(s, a, s', m);
    }
    assert Kept(p, q);
    RunKeeps(p, q, s, ms);
    assert SameRoles(s, a, Run(s, ms));
  }

  // ----- the pause switch -----

  lemma PauseStep(s: State, m: Msg)
    requires IsFlat(m) && Apply(s, m).Success?
    ensures var s' := Apply(s, m).value;
            && (m.call.Pause? ==> !s.paused && s'.paused) && (m.call.Unpause? ==> s.paused && !s'.paused)
            && (s'.paused != s.paused ==> (PAUSER_ROLE, m.sender as Address) in s.members)
  {
    hide TokensOf, Controls, RoleAdmin;
    match m.call {
      case Approve(_, _) =>
      case TransferFrom(_, _, _) =>
      case Burn(_) =>
      case Mint(_, _) =>
      case _ =>
    }
  }

  /** Exactly the pausers can throw the switch, in both directions. */
  lemma PowerToPause(s: State, a: Account)
    ensures (PAUSER_ROLE, a as Address) in s.members
            <==> exists m: Msg :: m.sender == a && IsFlat(m) && Deliver(s, m).paused != s.paused
  {
    if (PAUSER_ROLE, a as Address) in s.members {
      assert Deliver(s, Msg(a, if s.paused then Call.Unpause else Call.Pause)).paused != s.paused;
    }
    hide Apply;
    forall m: Msg | m.sender == a && IsFlat(m) && Apply(s, m).Success?
      ensures Apply(s, m).value.paused != s.paused ==> (PAUSER_ROLE, a as Address) in s.members
    {
      PauseStep(s, m);
    }
  }

  /** Paused as in `was`, with nobody new among admins and pausers; if paused, with the tokens and texts of `was`. */
  ghost predicate SamePause(was: State, s: State) {
    && s.paused == was.paused
    && (forall b: Address, role: Bytes32 :: role in {DEFAULT_ADMIN_ROLE, PAUSER_ROLE} && (role, b) in s.members ==>
          (role, b) in was.members)
    && (forall role: Bytes32 :: RoleAdmin(s, role) == DEFAULT_ADMIN_ROLE)
    && (was.paused ==> s.owner == was.owner && s.nextId == was.nextId && s.uris == was.uris && s.baseUri == was.baseUri)
  }

  ghost predicate NeitherAdminNorPauser(was: State, sender: Account) {
    (DEFAULT_ADMIN_ROLE, sender as Address) !in was.members && (PAUSER_ROLE, sender as Address) !in was.members
  }

  lemma SamePauseStep(was: State, s: State, m: Msg)
    requires SamePause(was, s) && NeitherAdminNorPauser(was, m.sender) && IsFlat(m) && Apply(s, m).Success?
    ensures SamePause(was, Apply(s, m).value)
  {
    hide Apply, RoleAdmin;
    var s' := Apply(s, m).value;
    PauseStep(s, m);
    forall role: Bytes32
      ensures RoleAdmin(s', role) == DEFAULT_ADMIN_ROLE
    {
      AdminRoleStep(s, m, role);
    }
    forall b: Address, role: Bytes32 | role in {DEFAULT_ADMIN_ROLE, PAUSER_ROLE} && (role, b) in s'.members
      ensures (role, b) in was.members
    {
      MembershipStep(s, m, role, b);
    }
    if s.paused {
      StepWhilePaused(s, m);
    }
  }

  /** Without a call of an admin or a pauser the switch stays; if it is on, no token moves and no text changes. */
  lemma PauseFrame(s: State, ms: seq<Msg>)
    requires Reachable(s)
    requires SendersObey(ms, (sender: Account) => NeitherAdminNorPauser(s, sender))
    ensures SamePause(s, Run(s, ms))
  {
    hide Apply, RoleAdmin;
    var p, q := (s': State) => SamePause(s, s'), (sender: Account) => NeitherAdminNorPauser(s, sender);
    forall s': State, m: Msg | p(s') && q(m.sender) && IsFlat(m) && Apply(s', m).Success?
      ensures p(Apply(s', m).value)
    {
      SamePauseStep(s, s', m);
    }
    assert Kept(p, q);
    RunKeeps(p, q, s, ms);
  }

  /** The deployer starts with every power, and nobody else with any. */
  lemma DeployerStartsAlone(deployer: Account, baseUri: string, a: Account, role: Bytes32, b: Address)
    ensures var s := Initial(deployer, baseUri);
            && ((exists m: Msg :: m.sender == a && IsFlat(m) && !(Deliver(s, m).owner.Keys <= s.owner.Keys))
                <==> a == deployer)
            && ((exists m: Msg :: m.sender == a && IsFlat(m) && Deliver(s, m).paused != s.paused) <==> a == deployer)
            && ((role, b) !in s.members ==> (CanGive(s, a, role, b) <==> a == deployer))
  {
    hide Apply;
    var s := Initial(deployer, baseUri);
    PowerToMint(s, a);
    PowerToPause(s, a);
    PowerOverRoles(s, a, role, b);
  }

  // ----- more of what holds in every reachable state -----

  /** No token is approved to its own owner, and every balance fits a uint256. */
  ghost predicate Tidy(s: State) {
    && (forall t :: t in s.approved && t in s.owner ==> s.approved[t] != s.owner[t])
    && (forall a: Address :: |TokensOf(s.owner, a)| <= MAX_UINT256)
  }

  lemma BalanceAfterTransfer(owner: map<Uint256, Account>, t: Uint256, to: Account, a: Address)
    ensures |TokensOf(owner[t := to], a)|
            <= if a == to then |TokensOf(owner - {t}, to)| + 1 else |TokensOf(owner, a)|
  {
    if a == to {
      assert TokensOf(owner[t := to], a) == TokensOf(owner - {t}, to) + {t};
    } else {
      SubsetCardinality(TokensOf(owner[t := to], a), TokensOf(owner, a));
    }
  }

  lemma BalancesStep(s: State, m: Msg)
    requires IsFlat(m) && Apply(s, m).Success? && forall a: Address :: |TokensOf(s.owner, a)| <= MAX_UINT256
    ensures forall a: Address :: |TokensOf(Apply(s, m).value.owner, a)| <= MAX_UINT256
  {
    hide RoleAdmin, Controls, TokensOf;
    var s' := Apply(s, m).value;
    forall a: Address
      ensures |TokensOf(s'.owner, a)| <= MAX_UINT256
    {
      match m.call {
        case TransferFrom(_, to, t) => BalanceAfterTransfer(s.owner, t, to, a);
        case Burn(t) => BalanceAfterBurn(s.owner, t, a);
        case Mint(to, _) =>
          assert s.owner - {s.nextId} == s.owner;
          BalanceAfterTransfer(s.owner, s.nextId, to, a);
        case _ =>
      }
    }
  }

  lemma BalanceAfterBurn(owner: map<Uint256, Account>, t: Uint256, a: Address)
    ensures |TokensOf(owner - {t}, a)| <= |TokensOf(owner, a)|
  {
    SubsetCardinality(TokensOf(owner - {t}, a), TokensOf(owner, a));
  }

  lemma ApprovedStep(s: State, m: Msg)
    requires IsFlat(m) && Apply(s, m).Success? && Reachable(s)
    requires forall t :: t in s.approved && t in s.owner ==> s.approved[t] != s.owner[t]
    ensures var s' := Apply(s, m).value;
            forall t :: t in s'.approved && t in s'.owner ==> s'.approved[t] != s'.owner[t]
  {
    hide RoleAdmin, Controls, TokensOf;
    match m.call {
      case Approve(_, _) =>
      case TransferFrom(_, _, _) =>
      case Burn(_) =>
      case Mint(_, _) =>
      case _ =>
    }
  }

  lemma EveryRunIsTidy(deployer: Account, baseUri: string, ms: seq<Msg>)
    ensures Tidy(Run(Initial(deployer, baseUri), ms))
  {
    hide Apply, Reachable, TokensOf;
    var p := (s: State) => Reachable(s) && Tidy(s);
    forall s: State, m: Msg | p(s) && Anyone(m.sender) && IsFlat(m) && Apply(s, m).Success?
      ensures p(Apply(s, m).value)
    {
      ReachableStep(s, m);
      BalancesStep(s, m);
      ApprovedStep(s, m);
    }
    assert Kept(p, Anyone);
    EveryoneObeys(ms);
    EveryRunIsReachable(deployer, baseUri, []);
    NothingHeld(deployer, baseUri);
    RunKeeps(p, Anyone, Initial(deployer, baseUri), ms);
  }

  lemma NothingHeld(deployer: Account, baseUri: string)
    ensures forall a: Address :: TokensOf(Initial(deployer, baseUri).owner, a) == {}
  {
  }
}
