/**
 contract/nft2.sol, ERC721PresetMinterPauserAutoIdExtended: the contract's storage, updated in place by the same
 sequence of writes as the source. `View` is the plain state of module Erc721; every call refines its `Apply`.
 */
module Collections {
  import opened Wrappers
  import opened Evm
  import opened Sequences
  import opened EnumerableSets
  import opened Erc721
  import opened Enumerations
  import opened SolidityStrings
  import opened Ledgers

  type Outcome = Result<(), Error>

  /** The storage of ERC721. */
  datatype TokenStorage = TokenStorage(
    owners: Owners,
    balances: map<Address, Uint256>,
    tokenApprovals: Owners,
    operatorApprovals: map<(Address, Address), bool>)

  /** The storage of ERC721Enumerable. */
  datatype ListingStorage = ListingStorage(
    ownedTokens: Slots,
    ownedTokensIndex: Positions,
    allTokens: seq<Uint256>,
    allTokensIndex: Positions)

  /** The storage of AccessControl and AccessControlEnumerable. */
  datatype AccessStorage = AccessStorage(
    roles: map<(Bytes32, Address), bool>,
    adminRoles: map<Bytes32, Bytes32>,
    roleMembers: map<Bytes32, SetStruct<Address>>)

  /** The storage of Pausable and of the preset itself. */
  datatype PresetStorage = PresetStorage(
    paused: bool,
    tokenUris: map<Uint256, string>,
    tokenIdTracker: Uint256)

  /** Everything a transaction can change; a revert writes it back. */
  datatype Storage = Storage(
    tokens: TokenStorage, listing: ListingStorage, access: AccessStorage, preset: PresetStorage)

  function MembersOf(roleMembers: map<Bytes32, SetStruct<Address>>, role: Bytes32): SetStruct<Address> {
    Read(roleMembers, role, Empty())
  }

  /** Every role's enumerable set lists exactly the accounts whose membership flag is set. */
  ghost predicate RolesAgree(roles: map<(Bytes32, Address), bool>, roleMembers: map<Bytes32, SetStruct<Address>>) {
    forall role: Bytes32 ::
      && WellFormed(MembersOf(roleMembers, role))
      && forall a: Address :: a in Elements(MembersOf(roleMembers, role)) <==> (role, a) in TrueKeys(roles)
  }

  /** Writing one role's flag and its enumerable set keeps the two in agreement for every role. */
  lemma RoleWritten(roles: map<(Bytes32, Address), bool>, roles': map<(Bytes32, Address), bool>,
                    roleMembers: map<Bytes32, SetStruct<Address>>, role: Bytes32, members: SetStruct<Address>)
    requires RolesAgree(roles, roleMembers) && WellFormed(members)
    requires forall a: Address :: a in Elements(members) <==> (role, a) in TrueKeys(roles')
    requires forall other: Bytes32, a: Address :: other != role ==>
               ((other, a) in TrueKeys(roles') <==> (other, a) in TrueKeys(roles))
    ensures RolesAgree(roles', roleMembers[role := members])
  {
    hide WellFormed, Elements;
    var roleMembers' := roleMembers[role := members];
    forall other: Bytes32
      ensures WellFormed(MembersOf(roleMembers', other))
      ensures forall a: Address :: a in Elements(MembersOf(roleMembers', other)) <==> (other, a) in TrueKeys(roles')
    {
      assert WellFormed(MembersOf(roleMembers, other));
    }
  }

  lemma RoleRead(roles: map<(Bytes32, Address), bool>, roleMembers: map<Bytes32, SetStruct<Address>>, role: Bytes32)
    requires RolesAgree(roles, roleMembers)
    ensures WellFormed(MembersOf(roleMembers, role))
    ensures forall a: Address :: a in Elements(MembersOf(roleMembers, role)) <==> (role, a) in TrueKeys(roles)
  {
  }

  // ----- the owners and balances a transfer is about to write -----

  ghost function OwnersAfter(owners: Owners, to: Address, id: Uint256): Owners {
    if to == ZERO then owners - {id} else owners[id := to]
  }

  ghost function BalancesAfter(balances: Ledger, from: Address, to: Address): Ledger
    requires from != ZERO ==> At(balances, from) > 0
  {
    var debited := if from == ZERO then balances else balances[from := At(balances, from) - 1];
    if to == ZERO then debited else debited[to := At(debited, to) + 1]
  }

  /**
   The slot order after a token leaves position `p` of `from` for `to`: swap-and-pop on one side, push on the other,
   and every other account's enumeration (and, in a self-transfer, every enumeration) as it was.
   */
  ghost predicate ListsMoved(slots: Slots, slots': Slots, balances: Ledger, p: nat, from: Address, to: Address,
                             id: Uint256)
  {
    && (from != ZERO && from != to ==>
          var n := At(balances, from);
          p < n && ListOf(slots', from, n - 1) == SwapRemove(ListOf(slots, from, n), p))
    && (to != ZERO && to != from ==>
          var n := At(balances, to);
          ListOf(slots', to, n + 1) == ListOf(slots, to, n) + [id])
    && (forall a: Address, n: nat :: from == to || (a != from && a != to) ==>
          ListOf(slots', a, n) == ListOf(slots, a, n))
  }

  /** The global order: push for a mint, swap-and-pop for a burn, untouched by a transfer. */
  ghost predicate AllMoved(was: ListingStorage, all: seq<Uint256>, from: Address, to: Address, id: Uint256) {
    var p := PositionAt(was.allTokensIndex, id);
    if from == ZERO then all == was.allTokens + [id]
    else if to == ZERO then p < |was.allTokens| && all == SwapRemove(was.allTokens, p)
    else all == was.allTokens
  }

  class Collection {
    var tokens: TokenStorage
    var listing: ListingStorage
    var access: AccessStorage
    var preset: PresetStorage
    const baseTokenUri: string

    ghost predicate IndexesAgree()
      reads this
    {
      && OwnerIndexed(tokens.owners, tokens.balances, listing.ownedTokens, listing.ownedTokensIndex)
      && AllIndexed(tokens.owners, listing.allTokens, listing.allTokensIndex)
    }

    ghost predicate Valid()
      reads this
    {
      IndexesAgree() && RolesAgree(access.roles, access.roleMembers)
    }

    ghost function View(): State
      reads this
    {
      State(Existing(tokens.owners), Existing(tokens.tokenApprovals), TrueKeys(tokens.operatorApprovals),
            TrueKeys(access.roles), access.adminRoles,
            preset.paused, preset.tokenIdTracker, preset.tokenUris, baseTokenUri)
    }

    function Snapshot(): Storage
      reads this
    {
      Storage(tokens, listing, access, preset)
    }

    /** The outcome `r` and the new state are what the plain state machine expects; a revert may leave any state. */
    ghost predicate Agrees(expected: Result<State, Error>, r: Outcome)
      reads this
    {
      match expected
      case Success(s) => r.Success? && Valid() && View() == s
      case Failure(e) => r == Failure(e)
    }

    constructor (deployer: Account, baseUri: string)
      ensures Valid() && View() == Initial(deployer, baseUri)
    {
      tokens := TokenStorage(map[], map[], map[], map[]);
      listing := ListingStorage(map[], map[], [], map[]);
      access := AccessStorage(map[], map[], map[]);
      preset := PresetStorage(false, map[], 0);
      baseTokenUri := baseUri;
      new;
      SetupRole(DEFAULT_ADMIN_ROLE, deployer);
      SetupRole(MINTER_ROLE, deployer);
      SetupRole(PAUSER_ROLE, deployer);
    }

    method Restore(s: Storage)
      modifies this
      ensures Snapshot() == s
    {
      tokens, listing, access, preset := s.tokens, s.listing, s.access, s.preset;
    }

    // ----- ERC721Enumerable: index updates -----

    method AddTokenToOwnerEnumeration(to: Address, id: Uint256, ghost owners': Owners, ghost balances': Ledger)
      requires OwnerIndexed(owners', balances', listing.ownedTokens, listing.ownedTokensIndex)
      requires to != ZERO && OwnerAt(owners', id) == ZERO
      requires At(balances', to) == At(tokens.balances, to)
      modifies `listing
      ensures listing == old(listing).(ownedTokens := listing.ownedTokens, ownedTokensIndex := listing.ownedTokensIndex)
      ensures OwnerIndexed(owners'[id := to], balances'[to := At(tokens.balances, to) + 1],
                           listing.ownedTokens, listing.ownedTokensIndex)
      ensures var n := At(tokens.balances, to);
              ListOf(listing.ownedTokens, to, n + 1) == old(ListOf(listing.ownedTokens, to, n)) + [id]
      ensures forall a: Address, n: nat :: a != to ==>
                ListOf(listing.ownedTokens, a, n) == old(ListOf(listing.ownedTokens, a, n))
    {
      hide OwnerIndexed, AllIndexed, RolesAgree, Existing, TokensOf, TrueKeys, ListOf, SwapRemove;
      ListsAfterAddition(listing.ownedTokens, to, At(tokens.balances, to), id);
      SlotAdded(owners', balances', listing.ownedTokens, listing.ownedTokensIndex, to, id);
      var length := At(tokens.balances, to);
      listing := listing.(ownedTokens := listing.ownedTokens[(to, length) := id]);
      listing := listing.(ownedTokensIndex := listing.ownedTokensIndex[id := length]);
    }

    method AddTokenToAllTokensEnumeration(id: Uint256, ghost to: Address)
      requires AllIndexed(tokens.owners, listing.allTokens, listing.allTokensIndex)
      requires to != ZERO && OwnerAt(tokens.owners, id) == ZERO
      modifies `listing
      ensures listing == old(listing).(allTokens := listing.allTokens, allTokensIndex := listing.allTokensIndex)
      ensures AllIndexed(tokens.owners[id := to], listing.allTokens, listing.allTokensIndex)
      ensures listing.allTokens == old(listing.allTokens) + [id]
    {
      hide OwnerIndexed, AllIndexed, RolesAgree, Existing, TokensOf, TrueKeys;
      AllAdded(tokens.owners, listing.allTokens, listing.allTokensIndex, to, id);
      listing := listing.(allTokensIndex := listing.allTokensIndex[id := |listing.allTokens|]);
      listing := listing.(allTokens := listing.allTokens + [id]);
    }

    method RemoveTokenFromOwnerEnumeration(from: Address, id: Uint256)
      requires OwnerIndexed(tokens.owners, tokens.balances, listing.ownedTokens, listing.ownedTokensIndex)
      requires from != ZERO && OwnerAt(tokens.owners, id) == from
      modifies `listing
      ensures listing == old(listing).(ownedTokens := listing.ownedTokens, ownedTokensIndex := listing.ownedTokensIndex)
      ensures At(tokens.balances, from) > 0
      ensures OwnerIndexed(tokens.owners - {id}, tokens.balances[from := At(tokens.balances, from) - 1],
                           listing.ownedTokens, listing.ownedTokensIndex)
      ensures var n := At(tokens.balances, from);
              var p := old(PositionAt(listing.ownedTokensIndex, id));
              && p < n
              && ListOf(listing.ownedTokens, from, n - 1) == SwapRemove(old(ListOf(listing.ownedTokens, from, n)), p)
      ensures forall a: Address, n: nat :: a != from ==>
                ListOf(listing.ownedTokens, a, n) == old(ListOf(listing.ownedTokens, a, n))
    {
      hide OwnerIndexed, AllIndexed, RolesAgree, Existing, TokensOf, TrueKeys, ListOf, SwapRemove;
      SlotRemoved(tokens.owners, tokens.balances, listing.ownedTokens, listing.ownedTokensIndex, from, id);
      ListsAfterRemoval(listing.ownedTokens, from, At(tokens.balances, from) - 1,
                        PositionAt(listing.ownedTokensIndex, id));
      var lastTokenIndex := At(tokens.balances, from) - 1;
      var tokenIndex := PositionAt(listing.ownedTokensIndex, id);
      ghost var slots, positions := listing.ownedTokens, listing.ownedTokensIndex;
      ghost var last := SlotAt(slots, from, lastTokenIndex);
      if tokenIndex != lastTokenIndex {
        var lastTokenId := SlotAt(listing.ownedTokens, from, lastTokenIndex);
        listing := listing.(ownedTokens := listing.ownedTokens[(from, tokenIndex) := lastTokenId]);
        listing := listing.(ownedTokensIndex := listing.ownedTokensIndex[lastTokenId := tokenIndex]);
      }
      listing := listing.(ownedTokensIndex := listing.ownedTokensIndex - {id});
      listing := listing.(ownedTokens := listing.ownedTokens - {(from, lastTokenIndex)});
      assert listing.ownedTokens == slots[(from, tokenIndex) := last] - {(from, lastTokenIndex)};
      assert listing.ownedTokensIndex == positions[last := tokenIndex] - {id};
    }

    method RemoveTokenFromAllTokensEnumeration(id: Uint256)
      requires AllIndexed(tokens.owners, listing.allTokens, listing.allTokensIndex)
      requires OwnerAt(tokens.owners, id) != ZERO
      modifies `listing
      ensures listing == old(listing).(allTokens := listing.allTokens, allTokensIndex := listing.allTokensIndex)
      ensures AllIndexed(tokens.owners - {id}, listing.allTokens, listing.allTokensIndex)
      ensures var p := old(PositionAt(listing.allTokensIndex, id));
              p < |old(listing.allTokens)| && listing.allTokens == SwapRemove(old(listing.allTokens), p)
    {
      hide OwnerIndexed, AllIndexed, RolesAgree, Existing, TokensOf, TrueKeys;
      AllRemoved(tokens.owners, listing.allTokens, listing.allTokensIndex, id);
      var lastTokenIndex := |listing.allTokens| - 1;
      var tokenIndex := PositionAt(listing.allTokensIndex, id);
      var lastTokenId := listing.allTokens[lastTokenIndex];
      listing := listing.(allTokens := listing.allTokens[tokenIndex := lastTokenId]);
      listing := listing.(allTokensIndex := listing.allTokensIndex[lastTokenId := tokenIndex]);
      listing := listing.(allTokensIndex := listing.allTokensIndex - {id});
      listing := listing.(allTokens := listing.allTokens[..lastTokenIndex]);
    }

    /** ERC721Enumerable's hook, then ERC721Pausable's check: a paused collection reverts with the indexes written. */
    method BeforeTokenTransfer(from: Address, to: Address, id: Uint256) returns (r: Outcome)
      requires IndexesAgree()
      requires OwnerAt(tokens.owners, id) == from && (from != ZERO || to != ZERO)
      modifies `listing
      ensures from != ZERO ==> At(tokens.balances, from) > 0
      ensures OwnerIndexed(OwnersAfter(tokens.owners, to, id), BalancesAfter(tokens.balances, from, to),
                           listing.ownedTokens, listing.ownedTokensIndex)
      ensures AllIndexed(OwnersAfter(tokens.owners, to, id), listing.allTokens, listing.allTokensIndex)
      ensures r == if preset.paused then Failure(TransferWhilePaused) else Success(())
      ensures ListsMoved(old(listing.ownedTokens), listing.ownedTokens, tokens.balances,
                         old(PositionAt(listing.ownedTokensIndex, id)), from, to, id)
      ensures AllMoved(old(listing), listing.allTokens, from, to, id)
    {
      hide OwnerIndexed, AllIndexed, RolesAgree, Existing, TokensOf, TrueKeys, SwapRemove, ListOf;
      if from == ZERO {
        AddTokenToAllTokensEnumeration(id, to);
      } else if from != to {
        RemoveTokenFromOwnerEnumeration(from, id);
      }
      ghost var owners' := if from == ZERO || from == to then tokens.owners else tokens.owners - {id};
      ghost var balances' := if from == ZERO || from == to then tokens.balances
                             else tokens.balances[from := At(tokens.balances, from) - 1];
      if to == ZERO {
        RemoveTokenFromAllTokensEnumeration(id);
      } else if to != from {
        AddTokenToOwnerEnumeration(to, id, owners', balances');
      }
      if from == to {
        SelfTransferAgrees(tokens.owners, tokens.balances, listing.ownedTokens, listing.ownedTokensIndex, from, id);
      } else if from != ZERO {
        assert to != ZERO ==> owners'[id := to] == tokens.owners[id := to];
      }
      if from != ZERO && to != ZERO {
        AllUnaffectedByTransfer(tokens.owners, listing.allTokens, listing.allTokensIndex, to, id);
      }
      if preset.paused {
        return Failure(TransferWhilePaused);
      }
      return Success(());
    }

    // ----- ERC721: mint, burn, transfer -----

    method MintTo(to: Address, id: Uint256) returns (r: Outcome)
      requires Valid()
      modifies `tokens, `listing
      ensures Agrees(Create(old(View()), to, id), r)
      ensures r.Success? ==>
                && AllMoved(old(listing), listing.allTokens, ZERO, to, id)
                && ListsMoved(old(listing.ownedTokens), listing.ownedTokens, old(tokens.balances),
                              old(PositionAt(listing.ownedTokensIndex, id)), ZERO, to, id)
    {
      hide OwnerIndexed, AllIndexed, RolesAgree, Existing, TokensOf, TrueKeys, ListsMoved, AllMoved;
      if to == ZERO {
        return Failure(ZeroAddress);
      }
      ExistingUpdated(tokens.owners, id, to);
      if OwnerAt(tokens.owners, id) != ZERO {
        return Failure(AlreadyMinted);
      }
      BalanceCounts(tokens.owners, tokens.balances, listing.ownedTokens, listing.ownedTokensIndex, to);
      var _ :- BeforeTokenTransfer(ZERO, to, id);
      var balance := At(tokens.balances, to);
      if balance == MAX_UINT256 {
        return Failure(Overflow);
      }
      tokens := tokens.(balances := tokens.balances[to := balance + 1]);
      tokens := tokens.(owners := tokens.owners[id := to]);
      return Success(());
    }

    method BurnToken(id: Uint256) returns (r: Outcome)
      requires Valid() && OwnerAt(tokens.owners, id) != ZERO
      modifies `tokens, `listing
      ensures Agrees(Destroy(old(View()), id), r)
      ensures r.Success? ==>
                && AllMoved(old(listing), listing.allTokens, old(OwnerAt(tokens.owners, id)), ZERO, id)
                && ListsMoved(old(listing.ownedTokens), listing.ownedTokens, old(tokens.balances),
                              old(PositionAt(listing.ownedTokensIndex, id)), old(OwnerAt(tokens.owners, id)), ZERO, id)
    {
      hide OwnerIndexed, AllIndexed, RolesAgree, Existing, TokensOf, TrueKeys, ListsMoved, AllMoved;
      var owner := OwnerAt(tokens.owners, id);
      ExistingUpdated(tokens.owners, id, ZERO);
      var _ :- BeforeTokenTransfer(owner, ZERO, id);
      ApproveTo(ZERO, id);
      tokens := tokens.(balances := tokens.balances[owner := At(tokens.balances, owner) - 1]);
      tokens := tokens.(owners := tokens.owners - {id});
      return Success(());
    }

    method TransferToken(from: Address, to: Address, id: Uint256) returns (r: Outcome)
      requires Valid() && OwnerAt(tokens.owners, id) != ZERO
      modifies `tokens, `listing
      ensures Agrees(Move(old(View()), from, to, id), r)
      ensures r.Success? ==>
                && listing.allTokens == old(listing.allTokens)
                && ListsMoved(old(listing.ownedTokens), listing.ownedTokens, old(tokens.balances),
                              old(PositionAt(listing.ownedTokensIndex, id)), from, to, id)
    {
      hide OwnerIndexed, AllIndexed, RolesAgree, Existing, TokensOf, TrueKeys, BalancesAfter, OwnersAfter, ListsMoved;
      ExistingUpdated(tokens.owners, id, to);
      if OwnerAt(tokens.owners, id) != from {
        return Failure(NotOwnToken);
      }
      if to == ZERO {
        return Failure(ZeroAddress);
      }
      BalanceCountsOthers(tokens.owners, tokens.balances, listing.ownedTokens, listing.ownedTokensIndex, to, id);
      OwnerHasBalance(tokens.owners, tokens.balances, listing.ownedTokens, listing.ownedTokensIndex, id);
      var _ :- BeforeTokenTransfer(from, to, id);
      ApproveTo(ZERO, id);
      r := WriteTransfer(from, to, id);
    }

    /** The three writes of a transfer: debit, checked credit, new owner. */
    method WriteTransfer(from: Address, to: Address, id: Uint256) returns (r: Outcome)
      requires At(tokens.balances, from) > 0 && from != ZERO && to != ZERO
      modifies `tokens
      ensures tokens == old(tokens).(owners := tokens.owners, balances := tokens.balances)
      ensures var others := old(At(tokens.balances, to)) - if from == to then 1 else 0;
              r == if others == MAX_UINT256 then Failure(Overflow) else Success(())
      ensures r.Success? ==>
                && tokens.owners == OwnersAfter(old(tokens.owners), to, id) == old(tokens.owners)[id := to]
                && tokens.balances == BalancesAfter(old(tokens.balances), from, to)
    {
      tokens := tokens.(balances := tokens.balances[from := At(tokens.balances, from) - 1]);
      if At(tokens.balances, to) == MAX_UINT256 {
        return Failure(Overflow);
      }
      tokens := tokens.(balances := tokens.balances[to := At(tokens.balances, to) + 1]);
      tokens := tokens.(owners := tokens.owners[id := to]);
      return Success(());
    }

    method ApproveTo(to: Address, id: Uint256)
      modifies `tokens
      ensures tokens == old(tokens).(tokenApprovals := tokens.tokenApprovals)
      ensures Existing(tokens.tokenApprovals)
              == if to == ZERO then old(Existing(tokens.tokenApprovals)) - {id}
                 else old(Existing(tokens.tokenApprovals))[id := to]
    {
      ExistingUpdated(tokens.tokenApprovals, id, to);
      tokens := tokens.(tokenApprovals := tokens.tokenApprovals[id := to]);
    }

    // ----- AccessControlEnumerable: the flag first, then the enumerable set -----

    method SetupRole(role: Bytes32, account: Address)
      requires RolesAgree(access.roles, access.roleMembers)
      modifies `access
      ensures access.adminRoles == old(access.adminRoles)
      ensures RolesAgree(access.roles, access.roleMembers)
      ensures TrueKeys(access.roles) == old(TrueKeys(access.roles)) + {(role, account)}
    {
      hide RolesAgree, WellFormed, Elements;
      RoleRead(access.roles, access.roleMembers, role);
      ghost var before := access.roles;
      if !Read(access.roles, (role, account), false) {
        access := access.(roles := access.roles[(role, account) := true]);
      }
      var members := new EnumerableSet.Load(MembersOf(access.roleMembers, role));
      var _ := members.Add(account);
      RoleWritten(before, access.roles, access.roleMembers, role, members.Struct());
      access := access.(roleMembers := access.roleMembers[role := members.Struct()]);
    }

    method DropRole(role: Bytes32, account: Address)
      requires RolesAgree(access.roles, access.roleMembers)
      modifies `access
      ensures access.adminRoles == old(access.adminRoles)
      ensures RolesAgree(access.roles, access.roleMembers)
      ensures TrueKeys(access.roles) == old(TrueKeys(access.roles)) - {(role, account)}
    {
      hide RolesAgree, WellFormed, Elements;
      RoleRead(access.roles, access.roleMembers, role);
      ghost var before := access.roles;
      if Read(access.roles, (role, account), false) {
        access := access.(roles := access.roles[(role, account) := false]);
      }
      var members := new EnumerableSet.Load(MembersOf(access.roleMembers, role));
      var _ := members.Remove(account);
      RoleWritten(before, access.roles, access.roleMembers, role, members.Struct());
      access := access.(roleMembers := access.roleMembers[role := members.Struct()]);
    }

    predicate HasRole(role: Bytes32, account: Address)
      reads this
      ensures HasRole(role, account) <==> (role, account) in View().members
    {
      Read(access.roles, (role, account), false)
    }

    method GrantRole(sender: Account, role: Bytes32, account: Address) returns (r: Outcome)
      requires Valid()
      modifies `access
      ensures Agrees(Apply(old(View()), Msg(sender, Call.GrantRole(role, account))), r)
    {
      hide OwnerIndexed, AllIndexed, RolesAgree, Existing, TokensOf, TrueKeys;
      if !HasRole(Read(access.adminRoles, role, DEFAULT_ADMIN_ROLE), sender) {
        return Failure(MissingRole);
      }
      SetupRole(role, account);
      return Success(());
    }

    method RevokeRole(sender: Account, role: Bytes32, account: Address) returns (r: Outcome)
      requires Valid()
      modifies `access
      ensures Agrees(Apply(old(View()), Msg(sender, Call.RevokeRole(role, account))), r)
    {
      hide OwnerIndexed, AllIndexed, RolesAgree, Existing, TokensOf, TrueKeys;
      if !HasRole(Read(access.adminRoles, role, DEFAULT_ADMIN_ROLE), sender) {
        return Failure(MissingRole);
      }
      DropRole(role, account);
      return Success(());
    }

    method RenounceRole(sender: Account, role: Bytes32, account: Address) returns (r: Outcome)
      requires Valid()
      modifies `access
      ensures Agrees(Apply(old(View()), Msg(sender, Call.RenounceRole(role, account))), r)
    {
      hide OwnerIndexed, AllIndexed, RolesAgree, Existing, TokensOf, TrueKeys;
      if account != sender {
        return Failure(RenounceForOther);
      }
      DropRole(role, account);
      return Success(());
    }

    // ----- the public calls; each may leave a half-written state behind when it fails -----

    function IsApprovedOrOwner(spender: Account, id: Uint256): (r: Result<bool, Error>)
      reads this
      ensures r.Success? <==> id in View().owner
      ensures r.Failure? ==> r.error == NonexistentToken
      ensures r.Success? ==> (r.value <==> Controls(View(), spender, id))
    {
      if OwnerAt(tokens.owners, id) == ZERO then Failure(NonexistentToken)
      else
        var owner := OwnerAt(tokens.owners, id);
        Success(spender == owner || OwnerAt(tokens.tokenApprovals, id) == spender
                || Read(tokens.operatorApprovals, (owner, spender), false))
    }

    method Approve(sender: Account, to: Address, id: Uint256) returns (r: Outcome)
      requires Valid()
      modifies `tokens
      ensures Agrees(Apply(old(View()), Msg(sender, Call.Approve(to, id))), r)
    {
      hide OwnerIndexed, AllIndexed, RolesAgree, Existing, TokensOf;
      ExistingUpdated(tokens.owners, id, to);
      var owner := OwnerAt(tokens.owners, id);
      if owner == ZERO {
        return Failure(NonexistentToken);
      }
      if to == owner {
        return Failure(ApprovalToOwner);
      }
      if sender != owner && !Read(tokens.operatorApprovals, (owner, sender), false) {
        return Failure(NotOwnerNorApproved);
      }
      ApproveTo(to, id);
      return Success(());
    }

    method SetApprovalForAll(sender: Account, operator: Address, approval: bool) returns (r: Outcome)
      requires Valid()
      modifies `tokens
      ensures Agrees(Apply(old(View()), Msg(sender, Call.SetApprovalForAll(operator, approval))), r)
    {
      hide OwnerIndexed, AllIndexed, RolesAgree, Existing, TokensOf;
      if operator == sender {
        return Failure(ApproveToCaller);
      }
      tokens := tokens.(operatorApprovals := tokens.operatorApprovals[(sender, operator) := approval]);
      return Success(());
    }

    method TransferFrom(sender: Account, from: Address, to: Address, id: Uint256) returns (r: Outcome)
      requires Valid()
      modifies this
      ensures Agrees(Apply(old(View()), Msg(sender, Call.TransferFrom(from, to, id))), r)
    {
      hide OwnerIndexed, AllIndexed, RolesAgree, Existing, TokensOf, TrueKeys;
      ExistingUpdated(tokens.owners, id, to);
      var approved :- IsApprovedOrOwner(sender, id);
      if !approved {
        return Failure(NotOwnerNorApproved);
      }
      r := TransferToken(from, to, id);
    }

    /** The indexes already agree when the receiver is called, so its own calls start from a valid state. */
    method SafeTransferFrom(sender: Account, from: Address, to: Address, id: Uint256, receiver: Receiver)
      returns (r: Outcome)
      requires Valid()
      modifies this
      ensures Agrees(Apply(old(View()), Msg(sender, Call.SafeTransferFrom(from, to, id, receiver))), r)
      decreases receiver, 3
    {
      hide OwnerIndexed, AllIndexed, RolesAgree, Existing, TokensOf, TrueKeys;
      ExistingUpdated(tokens.owners, id, to);
      var approved :- IsApprovedOrOwner(sender, id);
      if !approved {
        return Failure(NotOwnerNorApproved);
      }
      var _ :- TransferToken(from, to, id);
      r := CheckOnErc721Received(receiver);
    }

    method CheckOnErc721Received(receiver: Receiver) returns (r: Outcome)
      requires Valid()
      modifies this
      ensures Agrees(Notify(old(View()), receiver), r)
      decreases receiver, 2
    {
      match receiver
      case NotAContract =>
        return Success(());
      case Contract(script, accepts) =>
        ExecuteAll(script);
        if !accepts {
          return Failure(ReceiverRejected);
        }
        return Success(());
    }

    method Burn(sender: Account, id: Uint256) returns (r: Outcome)
      requires Valid()
      modifies this
      ensures Agrees(Apply(old(View()), Msg(sender, Call.Burn(id))), r)
    {
      hide OwnerIndexed, AllIndexed, RolesAgree, Existing, TokensOf, TrueKeys;
      ExistingUpdated(tokens.owners, id, ZERO);
      var approved :- IsApprovedOrOwner(sender, id);
      if !approved {
        return Failure(NotOwnerNorApproved);
      }
      r := BurnToken(id);
    }

    method Mint(sender: Account, to: Address, uri: string) returns (r: Outcome)
      requires Valid()
      modifies this
      ensures Agrees(Apply(old(View()), Msg(sender, Call.Mint(to, uri))), r)
    {
      hide OwnerIndexed, AllIndexed, RolesAgree, Existing, TokensOf, TrueKeys;
      if !HasRole(MINTER_ROLE, sender) {
        return Failure(MissingRole);
      }
      var id := preset.tokenIdTracker;
      var _ :- MintTo(to, id);
      preset := preset.(tokenUris := preset.tokenUris[id := uri]);
      preset := preset.(tokenIdTracker := (preset.tokenIdTracker + 1) % TWO_256);
      return Success(());
    }

    method Pause(sender: Account) returns (r: Outcome)
      requires Valid()
      modifies `preset
      ensures Agrees(Apply(old(View()), Msg(sender, Call.Pause)), r)
    {
      hide OwnerIndexed, AllIndexed, RolesAgree, Existing, TokensOf, TrueKeys;
      if !HasRole(PAUSER_ROLE, sender) {
        return Failure(MissingRole);
      }
      if preset.paused {
        return Failure(AlreadyPaused);
      }
      preset := preset.(paused := true);
      return Success(());
    }

    method Unpause(sender: Account) returns (r: Outcome)
      requires Valid()
      modifies `preset
      ensures Agrees(Apply(old(View()), Msg(sender, Call.Unpause)), r)
    {
      hide OwnerIndexed, AllIndexed, RolesAgree, Existing, TokensOf, TrueKeys;
      if !HasRole(PAUSER_ROLE, sender) {
        return Failure(MissingRole);
      }
      if !preset.paused {
        return Failure(NotPaused);
      }
      preset := preset.(paused := false);
      return Success(());
    }

    // ----- transactions: a call that fails restores every storage slot -----

    method Execute(m: Msg) returns (r: Outcome)
      requires Valid()
      modifies this
      ensures Valid() && View() == Deliver(old(View()), m)
      ensures r.Success? == Apply(old(View()), m).Success?
      ensures r.Failure? ==> Apply(old(View()), m) == Failure(r.error) && Snapshot() == old(Snapshot())
      decreases m, 4
    {
      hide OwnerIndexed, AllIndexed, RolesAgree, Existing, TokensOf, TrueKeys;
      var before := Snapshot();
      r := Dispatch(m);
      if r.Failure? {
        Restore(before);
      }
    }

    method Dispatch(m: Msg) returns (r: Outcome)
      requires Valid()
      modifies this
      ensures Agrees(Apply(old(View()), m), r)
      decreases m, 3
    {
      hide OwnerIndexed, AllIndexed, RolesAgree, Existing, Apply;
      match m.call
      case Approve(to, id) => r := Approve(m.sender, to, id);
      case SetApprovalForAll(operator, approval) => r := SetApprovalForAll(m.sender, operator, approval);
      case TransferFrom(from, to, id) => r := TransferFrom(m.sender, from, to, id);
      case SafeTransferFrom(from, to, id, receiver) => r := SafeTransferFrom(m.sender, from, to, id, receiver);
      case Burn(id) => r := Burn(m.sender, id);
      case Mint(to, uri) => r := Mint(m.sender, to, uri);
      case Pause => r := Pause(m.sender);
      case Unpause => r := Unpause(m.sender);
      case GrantRole(role, account) => r := GrantRole(m.sender, role, account);
      case RevokeRole(role, account) => r := RevokeRole(m.sender, role, account);
      case RenounceRole(role, account) => r := RenounceRole(m.sender, role, account);
    }

    /** Any finite run of transactions refines the run of the plain state machine and keeps every index exact. */
    method ExecuteAll(ms: seq<Msg>)
      requires Valid()
      modifies this
      ensures Valid() && View() == Run(old(View()), ms)
      decreases ms
    {
      hide OwnerIndexed, AllIndexed, RolesAgree, Existing, Apply;
      if ms != [] {
        var _ := Execute(ms[0]);
        ExecuteAll(ms[1..]);
      }
    }

    // ----- views -----

    function BalanceOf(owner: Address): (r: Result<Uint256, Error>)
      requires Valid()
      reads this
      ensures if owner == ZERO then r == Failure(ZeroAddress)
              else r == Success(|TokensOf(View().owner, owner)|)
    {
      hide AllIndexed, RolesAgree;
      BalanceCounts(tokens.owners, tokens.balances, listing.ownedTokens, listing.ownedTokensIndex, owner);
      if owner == ZERO then Failure(ZeroAddress) else Success(Read(tokens.balances, owner, 0))
    }

    function OwnerOf(id: Uint256): (r: Result<Account, Error>)
      reads this
      ensures if id in View().owner then r == Success(View().owner[id]) else r == Failure(NonexistentToken)
    {
      var owner := OwnerAt(tokens.owners, id);
      if owner == ZERO then Failure(NonexistentToken) else Success(owner)
    }

    /** Indexes below the balance yield tokens of `owner`, each at its own index; all others revert. */
    function TokenOfOwnerByIndex(owner: Address, index: nat): (r: Result<Uint256, Error>)
      requires Valid()
      reads this
      ensures r.Success? <==> owner != ZERO && index < |TokensOf(View().owner, owner)|
      ensures r.Success? ==>
                r.value in TokensOf(View().owner, owner) && PositionAt(listing.ownedTokensIndex, r.value) == index
    {
      hide AllIndexed, RolesAgree;
      var balance :- BalanceOf(owner);
      BalanceCounts(tokens.owners, tokens.balances, listing.ownedTokens, listing.ownedTokensIndex, owner);
      assert SlotOk(tokens.owners, tokens.balances, listing.ownedTokens, listing.ownedTokensIndex, owner, index);
      if index < balance then Success(SlotAt(listing.ownedTokens, owner, index)) else Failure(IndexOutOfBounds)
    }

    function TotalSupply(): (n: nat)
      requires Valid()
      reads this
      ensures n == |View().owner|
    {
      hide OwnerIndexed, RolesAgree;
      AllCounts(tokens.owners, listing.allTokens, listing.allTokensIndex);
      |listing.allTokens|
    }

    function TokenByIndex(index: nat): (r: Result<Uint256, Error>)
      requires Valid()
      reads this
      ensures r.Success? <==> index < |View().owner|
      ensures r.Success? ==> r.value in View().owner && PositionAt(listing.allTokensIndex, r.value) == index
    {
      hide OwnerIndexed, RolesAgree;
      if index < TotalSupply() then
        AllCounts(tokens.owners, listing.allTokens, listing.allTokensIndex);
        Success(listing.allTokens[index])
      else Failure(IndexOutOfBounds)
    }

    function GetRoleMemberCount(role: Bytes32): (n: nat)
      requires Valid()
      reads this
      ensures n == |set a: Address | (role, a) in View().members|
    {
      hide OwnerIndexed, AllIndexed;
      WellFormedEnumerates(MembersOf(access.roleMembers, role));
      assert (set a: Address | (role, a) in View().members) == Elements(MembersOf(access.roleMembers, role));
      |MembersOf(access.roleMembers, role).values|
    }

    function GetRoleMember(role: Bytes32, index: nat): (r: Result<Address, Error>)
      requires Valid()
      reads this
      ensures r.Success? <==> index < GetRoleMemberCount(role)
      ensures r.Success? ==>
                && (role, r.value) in View().members
                && Read(MembersOf(access.roleMembers, role).indexes, r.value, 0) == index + 1
    {
      hide OwnerIndexed, AllIndexed;
      var members := MembersOf(access.roleMembers, role).values;
      if |members| > index then
        assert members[index] in Elements(MembersOf(access.roleMembers, role));
        Success(members[index])
      else Failure(IndexOutOfBounds)
    }

    function GetApproved(id: Uint256): (r: Result<Address, Error>)
      reads this
      ensures r.Success? <==> id in View().owner
      ensures r.Success? ==> (r.value == ZERO <==> id !in View().approved)
      ensures r.Success? && r.value != ZERO ==> r.value == View().approved[id]
    {
      if OwnerAt(tokens.owners, id) == ZERO then Failure(NonexistentToken)
      else Success(OwnerAt(tokens.tokenApprovals, id))
    }

    method TokenUri(id: Uint256) returns (r: Result<string, Error>)
      ensures r == Erc721.TokenUri(View(), id)
    {
      if OwnerAt(tokens.owners, id) == ZERO {
        return Failure(NonexistentToken);
      }
      var uri := Read(preset.tokenUris, id, "");
      if |baseTokenUri| == 0 {
        return Success(uri);
      }
      if |uri| > 0 {
        return Success(baseTokenUri + uri);
      }
      var text := ToString(id);
      return Success(baseTokenUri + text);
    }

    /** Every member of a role is found at exactly one index. */
    lemma RoleEnumerationIsExact(role: Bytes32, account: Address)
      requires Valid() && (role, account) in View().members
      ensures exists i: nat ::
                && GetRoleMember(role, i) == Success(account)
                && forall j: nat :: GetRoleMember(role, j) == Success(account) ==> j == i
    {
      hide OwnerIndexed, AllIndexed;
      var members := MembersOf(access.roleMembers, role);
      RoleRead(access.roles, access.roleMembers, role);
      WellFormedEnumerates(members);
      var i := Read(members.indexes, account, 0) - 1;
      SlotOf(members, account);
      assert GetRoleMember(role, i) == Success(account);
    }

    /** Every token of `owner` is found at exactly one index, and every existing token at exactly one global index. */
    lemma EnumerationIsExact(id: Uint256)
      requires Valid() && id in View().owner
      ensures var owner := View().owner[id];
              exists i: nat ::
                && TokenOfOwnerByIndex(owner, i) == Success(id)
                && forall j: nat :: TokenOfOwnerByIndex(owner, j) == Success(id) ==> j == i
      ensures exists i: nat ::
                TokenByIndex(i) == Success(id) && forall j: nat :: TokenByIndex(j) == Success(id) ==> j == i
    {
      assert TokenOk(tokens.owners, tokens.balances, listing.ownedTokens, listing.ownedTokensIndex, id);
      BalanceCounts(tokens.owners, tokens.balances, listing.ownedTokens, listing.ownedTokensIndex, View().owner[id]);
      assert TokenOfOwnerByIndex(View().owner[id], PositionAt(listing.ownedTokensIndex, id)) == Success(id);
      assert TokenByIndex(PositionAt(listing.allTokensIndex, id)) == Success(id);
    }

    /** The balances of any set of accounts that includes every owner add up to the total supply. */
    lemma BalancesAddUpToTotalSupply(accounts: set<Address>)
      requires Valid()
      requires forall id :: id in View().owner ==> View().owner[id] in accounts
      ensures Sum(tokens.balances, accounts) == TotalSupply()
    {
      var owner := View().owner;
      assert owner == Existing(tokens.owners);
      assert forall id :: id in owner ==> owner[id] in accounts;
      SumOfBalancesIsTotalSupply(tokens.owners, tokens.balances, listing.ownedTokens, listing.ownedTokensIndex,
                                 listing.allTokens, listing.allTokensIndex, accounts);
    }
  }
}
