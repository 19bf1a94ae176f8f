/**
 The collection of contract/nft2.sol as a plain state machine: who owns each existing token, who may move it, who
 holds which role. No index, no balance and no intermediate state; `Collections.Collection` refines it.
 */
module Erc721 {
  import opened Wrappers
  import opened Evm
  import opened DecimalStrings

  const DEFAULT_ADMIN_ROLE: Bytes32 := 0
  // keccak256("MINTER_ROLE") and keccak256("PAUSER_ROLE")
  const MINTER_ROLE: Bytes32 := 0x9f2df0fed2c77648de5860a4cc508cd0818c85b8b8a1ab4ceeef8d981c8956a6
  const PAUSER_ROLE: Bytes32 := 0x65d7a28e3265b37a6474929f336521b332c1681b933f6cb9f3376673440d862a

  datatype Error =
    | NonexistentToken | NotOwnToken | ZeroAddress | AlreadyMinted | TransferWhilePaused | ReceiverRejected
    | NotOwnerNorApproved | ApprovalToOwner | ApproveToCaller | MissingRole | RenounceForOther | AlreadyPaused
    | NotPaused | IndexOutOfBounds | Overflow

  datatype State = State(
    owner: map<Uint256, Account>,
    approved: map<Uint256, Account>,
    operators: set<(Address, Address)>,
    members: set<(Bytes32, Address)>,
    adminRole: map<Bytes32, Bytes32>,
    paused: bool,
    nextId: Uint256,
    uris: map<Uint256, string>,
    baseUri: string)

  /** One external call. `script` is whatever the receiving contract does before it answers. */
  datatype Msg = Msg(sender: Account, call: Call)

  datatype Call =
    | Approve(to: Address, id: Uint256)
    | SetApprovalForAll(operator: Address, approval: bool)
    | TransferFrom(from: Address, to: Address, id: Uint256)
    | SafeTransferFrom(from: Address, to: Address, id: Uint256, receiver: Receiver)
    | Burn(id: Uint256)
    | Mint(to: Address, uri: string)
    | Pause
    | Unpause
    | GrantRole(role: Bytes32, account: Address)
    | RevokeRole(role: Bytes32, account: Address)
    | RenounceRole(role: Bytes32, account: Address)

  /** A contract receiver makes any finite sequence of calls, each in its own frame, and then accepts or rejects. */
  datatype Receiver = NotAContract | Contract(script: seq<Msg>, accepts: bool)

  // ----- views -----

  function TokensOf(owner: map<Uint256, Account>, a: Address): set<Uint256> {
    set t | t in owner && owner[t] == a
  }

  predicate Controls(s: State, spender: Address, id: Uint256)
    requires id in s.owner
  {
    || spender == s.owner[id]
    || spender == Read(s.approved, id, ZERO)
    || (s.owner[id], spender) in s.operators
  }

  function RoleAdmin(s: State, role: Bytes32): Bytes32 {
    Read(s.adminRole, role, DEFAULT_ADMIN_ROLE)
  }

  function TokenUri(s: State, id: Uint256): Result<string, Error> {
    if id !in s.owner then Failure(NonexistentToken)
    else
      var uri := Read(s.uris, id, "");
      Success(if |s.baseUri| == 0 then uri else if |uri| > 0 then s.baseUri + uri else s.baseUri + Decimal(id))
  }

  // ----- steps -----

  function Move(s: State, from: Address, to: Address, id: Uint256): Result<State, Error> {
    var staying := s.owner - {id};
    :- Require(id in s.owner, NonexistentToken);
    :- Require(s.owner[id] == from, NotOwnToken);
    :- Require(to != ZERO, ZeroAddress);
    :- Require(!s.paused, TransferWhilePaused);
    :- Require(|TokensOf(staying, to)| < MAX_UINT256, Overflow);
    Success(s.(owner := s.owner[id := to], approved := s.approved - {id}))
  }

  function Destroy(s: State, id: Uint256): Result<State, Error> {
    if s.paused then Failure(TransferWhilePaused)
    else Success(s.(owner := s.owner - {id}, approved := s.approved - {id}))
  }

  function Create(s: State, to: Address, id: Uint256): Result<State, Error> {
    var held := TokensOf(s.owner, to);
    :- Require(to != ZERO, ZeroAddress);
    :- Require(id !in s.owner, AlreadyMinted);
    :- Require(!s.paused, TransferWhilePaused);
    :- Require(|held| < MAX_UINT256, Overflow);
    Success(s.(owner := s.owner[id := to]))
  }

  /** The effect of one call, or the error with which it reverts. */
  function Apply(s: State, m: Msg): Result<State, Error>
    decreases m, 0
  {
    match m.call
    case Approve(to, id) =>
      :- Require(id in s.owner, NonexistentToken);
      var owner := s.owner[id];
      :- Require(to != owner, ApprovalToOwner);
      :- Require(m.sender == owner || (owner, m.sender) in s.operators, NotOwnerNorApproved);
      Success(s.(approved := if to == ZERO then s.approved - {id} else s.approved[id := to]))
    case SetApprovalForAll(operator, approval) =>
      :- Require(operator != m.sender, ApproveToCaller);
      Success(s.(operators :=
        if approval then s.operators + {(m.sender, operator)} else s.operators - {(m.sender, operator)}))
    case TransferFrom(from, to, id) =>
      :- Require(id in s.owner, NonexistentToken);
      :- Require(Controls(s, m.sender, id), NotOwnerNorApproved);
      Move(s, from, to, id)
    case SafeTransferFrom(from, to, id, receiver) =>
      :- Require(id in s.owner, NonexistentToken);
      :- Require(Controls(s, m.sender, id), NotOwnerNorApproved);
      var moved :- Move(s, from, to, id);
      Notify(moved, receiver)
    case Burn(id) =>
      :- Require(id in s.owner, NonexistentToken);
      :- Require(Controls(s, m.sender, id), NotOwnerNorApproved);
      Destroy(s, id)
    case Mint(to, uri) =>
      :- Require((MINTER_ROLE, m.sender) in s.members, MissingRole);
      var created :- Create(s, to, s.nextId);
      Success(created.(uris := s.uris[s.nextId := uri], nextId := (s.nextId + 1) % TWO_256))
    case Pause =>
      :- Require((PAUSER_ROLE, m.sender) in s.members, MissingRole);
      :- Require(!s.paused, AlreadyPaused);
      Success(s.(paused := true))
    case Unpause =>
      :- Require((PAUSER_ROLE, m.sender) in s.members, MissingRole);
      :- Require(s.paused, NotPaused);
      Success(s.(paused := false))
    case GrantRole(role, account) =>
      :- Require((RoleAdmin(s, role), m.sender) in s.members, MissingRole);
      Success(s.(members := s.members + {(role, account)}))
    case RevokeRole(role, account) =>
      :- Require((RoleAdmin(s, role), m.sender) in s.members, MissingRole);
      Success(s.(members := s.members - {(role, account)}))
    case RenounceRole(role, account) =>
      :- Require(account == m.sender, RenounceForOther);
      Success(s.(members := s.members - {(role, account)}))
  }

  /** The receiver runs after the token has moved; if it rejects, the whole transfer reverts. */
  function Notify(s: State, receiver: Receiver): Result<State, Error>
    decreases receiver
  {
    match receiver
    case NotAContract => Success(s)
    case Contract(script, accepts) =>
      var after := Run(s, script);
      :- Require(accepts, ReceiverRejected);
      Success(after)
  }

  /** A transaction frame: a call that reverts leaves the state as it was. */
  function Deliver(s: State, m: Msg): State
    decreases m, 1
  {
    var r := Apply(s, m);
    if r.Success? then r.value else s
  }

  function Run(s: State, ms: seq<Msg>): State
    decreases ms
  {
    if ms == [] then s else Run(Deliver(s, ms[0]), ms[1..])
  }

  /** The state after the constructor, called by `deployer`. */
  function Initial(deployer: Account, baseUri: string): State {
    State(map[], map[], {},
          {(DEFAULT_ADMIN_ROLE, deployer), (MINTER_ROLE, deployer), (PAUSER_ROLE, deployer)},
          map[], false, 0, map[], baseUri)
  }
}
