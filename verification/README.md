# Collection, exchange and helper algorithms

A Dafny model of the contracts and of the small algorithms around them, with proofs about all inputs, all runs and all
interleavings.

- **The ERC-721 collection** (`Collection.dfy`, `Enumerations.dfy`, `EnumerableSet.dfy`): the storage of the Solidity
  contract, updated by the same writes in the same order. The hook changes the enumeration indexes before balances and
  owners; the pause check comes after that; a call that fails restores its snapshot. `Erc721.dfy` is the same contract
  as a plain map from tokens to owners, and every call of the class refines it. `Erc721Runs.dfy` shows that re-entrant
  runs are equivalent to sequential ones and gives the induction principle from which `Erc721Theorems.dfy` derives
  ownership, role, supply and token-id theorems over all runs. `Erc721Powers.dfy` says who can take, approve, destroy or
  create a token, give a role or throw the switch, and what stays as it is without such calls.
- **The exchange** (`Exchange.dfy`, `ExchangeSpec.dfy`): settlement, withdrawals, the pause switch and the admin
  registry over one world of ERC-721 collections, EIP-20 tokens (`Erc20.dfy`) and native coins. `Settlement.dfy` gives
  the effect of each kind of trade for every aliasing of the parties and the exact conditions under which a trade that
  passes the guards settles; `ExchangeRuns.dfy` proves conservation, the coin ledger and the registry over all runs, that
  trades are ordinary calls in the history of each collection, and that no token leaves its owner without consent.
  `ExchangePowers.dfy` says what exactly the admins can do, and that nothing of it happens without them.
  `ReentrantRuns.dfy` carries these theorems over to runs in which receivers of safe transfers re-enter anything in the
  world. `Counterexamples.dfy` holds concrete trades.
- **Signed orders** (`OrderEncoding.dfy`, `OrderLayout.dfy`, `Bytes.dfy`): the EIP-712 digests ("Definition of encodeData"
  and "Definition of domainSeparator"), with every word at the place that the type string gives its field, the packed
  digest of version 1, and signature splitting. keccak256 is an arbitrary function that is
  only required not to collide on the finitely many strings hashed for the digests compared.
- **Helpers**: decimal and hexadecimal strings (`SolidityStrings.dfy`, `DecimalStrings.dfy`), expansion of exponents for
  the output of Number::toString (section 6.1.6.1.20 of ECMA-262) and token amounts (`NumberStrings.dfy`), slugs
  (`Slug.dfy`), unpadded hexadecimal text (`AsciiHex.dfy`), login nonces under interleaved requests (`LoginNonces.dfy`) and
  transaction nonces, serial (`TxNonces.dfy`) and interleaved (`TxInterleavings.dfy`).

Numbers are unbounded; where the width of uint256 or uint16 matters it is written out: checked additions fail at the
maximum, subtractions are shown not to underflow, and the unchecked token counter wraps.

Some properties one might expect do not hold, and the model says exactly when they do:

- The guards of `sellNFT` and `exchangeNFTauction` compare only the order's total with allowance and balance, so they do
  not guarantee the payments: `SaleSettlesExactly`, `AuctionSettlesExactly`, with the concrete `SaleGuardsDoNotSuffice`
  and `AuctionGuardsDoNotSuffice`. Amounts within the total are enough: `SellGuardsSuffice`, `AuctionGuardsSuffice`.
- A purchase can pay out more than it takes in: `PurchaseDrawsOnFees`, with the concrete `OverpayingOrder`.
- The exchange keeps no record of settled orders, so a signed order can settle again: `PurchaseReplaysExactly`,
  `SaleReplaysExactly`, `AuctionReplaysExactly`, with the concrete `OrderSettlesTwice`, `BidSettlesTwice` and
  `AuctionSettlesTwice`. What signatures do protect is in `TradesRespectOwners` and `TradesRespectBuyers`.
- `noExponents` drops a zero for negative numbers printed with a positive exponent: `ExpandedDenotes`, with the concrete
  `NegativePowerLosesAZero`.
- `generateLoginMessage` inserts its row before it checks the account's status, so the bound on logins is the number of
  rows (`LoginsNeverExceedRows`). It is the number of returned messages exactly for those users and nonces for which no
  request was refused: `LoginsNeverExceedMessages`, with the concrete `RowWithoutMessage`.
- The total a buyer signs does not bound what an auction charges, since the royalty is the seller's: `AuctionCharges`,
  with the concrete `AuctionOvercharges`. Over a run the charges are bounded by the allowance: `TradesRespectBuyers`.
- `getLatestNonce` reads and writes in separate steps, so overlapping calls for one key can get the same nonce:
  `DistinctExactly`, `SafeScheduleExactly`, with the concrete `OverlapOnOneRow`. A key can also end up with two rows:
  `OneRowExactly`; after that repetition needs no overlap, as in the concrete `FirstCallsThenRepeat`.

`dafny verify dfyconfig.toml` checks the whole project. `hide` statements keep definitions that a proof does not need out
of its way; they weaken no contract.

## Model

| member | source | states |
|---|---|---|
| EnumerableSets.EnumerableSet.Add | contract/nft2.sol:30-40 | adds a member, says whether it was new, appends it to the order, keeps value array and 1-based indexes consistent |
| EnumerableSets.EnumerableSet.Remove | contract/nft2.sol:48-80 | removes a member (also the last one), says whether it was there, swap-and-pop order, consistency kept |
| EnumerableSets.EnumerableSet.Contains | contract/nft2.sol:85-87 | the index mapping decides membership in the listed set |
| EnumerableSets.EnumerableSet.At | contract/nft2.sol:106-109 | succeeds exactly below the set's size and yields the member whose index it is |
| EnumerableSets.WellFormedEnumerates | contract/nft2.sol:16-24 | positions 0..length-1 visit each member exactly once |
| EnumerableSets.RemovedIsWellFormed | contract/nft2.sol:64-77 | swap-and-pop with its two index writes leaves a consistent set without exactly that value |
| Sequences.SwapRemoveMultiset | contract/nft2.sol:62-71 | swap-and-pop removes one occurrence of one value and nothing else |
| Sequences.SwapRemoveDistinct | contract/nft2.sol:62-71 | swap-and-pop keeps a repetition-free list repetition-free and drops exactly one element |
| Enumerations.SlotAdded | contract/nft2.sol:1562-1566 | adding a slot keeps owner lists, positions and zeroed unused storage exact |
| Enumerations.SlotRemoved | contract/nft2.sol:1585-1604 | swap-and-pop of an owner's slot keeps owner lists, positions and zeroed unused storage exact, last slot included |
| Enumerations.AllAdded | contract/nft2.sol:1572-1575 | pushing keeps the global list and its inverse exact |
| Enumerations.AllRemoved | contract/nft2.sol:1610-1628 | swap-and-pop keeps the global list and its inverse exact |
| Enumerations.SelfTransferAgrees | contract/nft2.sol:1547-1554 | a self-transfer leaves every index in agreement although the hook skips it |
| Enumerations.AllUnaffectedByTransfer | contract/nft2.sol:1545-1554 | the global list does not depend on who owns a token |
| Enumerations.OwnerHasBalance | contract/nft2.sol:1589-1589 | an owner's balance is positive, so the subtraction cannot underflow |
| Enumerations.BalanceCounts | contract/nft2.sol:1485-1488 | a balance is the number of tokens owned, and the slots below it list them without repetition |
| Enumerations.BalanceCountsOthers | contract/nft2.sol:1324-1325 | the balance at the checked addition of a transfer counts the recipient's other tokens |
| Enumerations.AllCounts | contract/nft2.sol:1515-1517 | the global list has one entry per existing token |
| Enumerations.SumOfBalancesIsTotalSupply | contract/nft2.sol:1507-1517 | the sum of balances over any accounts covering the owners is the total supply |
| Collections.Collection.constructor | contract/nft2.sol:1665-1672 | a valid collection in which the deployer holds the three roles and nothing exists |
| Collections.Collection.AddTokenToOwnerEnumeration | contract/nft2.sol:1562-1566 | the indexes agree with the owners and balances about to be written; the recipient's list grows at its end |
| Collections.Collection.AddTokenToAllTokensEnumeration | contract/nft2.sol:1572-1575 | the global list gains the token and agrees with the owner about to be written |
| Collections.Collection.RemoveTokenFromOwnerEnumeration | contract/nft2.sol:1585-1604 | the indexes agree with the owner map without the token; swap-and-pop order; no underflow |
| Collections.Collection.RemoveTokenFromAllTokensEnumeration | contract/nft2.sol:1610-1628 | the global list agrees with the owner map without the token; swap-and-pop order |
| Collections.Collection.BeforeTokenTransfer | contract/nft2.sol:1398-1402 | after the hook chain all indexes agree with the owners and balances written only later; it fails exactly when paused, with the indexes already changed |
| Collections.Collection.MintTo | contract/nft2.sol:1268-1278 | mints or reverts as the plain machine does, with every index exact and the new token last in both lists |
| Collections.Collection.BurnToken | contract/nft2.sol:1290-1302 | burns or reverts as the plain machine does, with every index exact, checked subtractions safe |
| Collections.Collection.TransferToken | contract/nft2.sol:1315-1329 | transfers (self-transfers included) or reverts as the plain machine does, with every index exact |
| Collections.Collection.WriteTransfer | contract/nft2.sol:1324-1326 | debit, checked credit and new owner; overflow exactly at the maximum |
| Collections.Collection.IsApprovedOrOwner | contract/nft2.sol:1227-1231 | reverts for a nonexistent token, otherwise decides control of the token |
| Collections.Collection.SafeTransferFrom | contract/nft2.sol:1180-1183 | when the receiver is called all indexes agree, so its re-entrant calls run on a valid collection; the outcome refines the plain machine |
| Collections.Collection.CheckOnErc721Received | contract/nft2.sol:1351-1370 | any finite sequence of re-entrant calls keeps every index exact; a rejection reverts |
| Collections.Collection.SetupRole | contract/nft2.sol:1477-1480 | flag and enumerable set gain the member together |
| Collections.Collection.DropRole | contract/nft2.sol:1461-1472 | flag and enumerable set lose the member together |
| Collections.Collection.HasRole | contract/nft2.sol:920-922 | reads membership in the role |
| Collections.Collection.Execute | contract/nft2.sol:1646-1753 | any call refines the plain machine; a call that fails restores every storage slot |
| Collections.Collection.ExecuteAll | contract/nft2.sol:1646-1753 | any run of calls keeps every index exact and refines the run of the plain machine |
| Collections.Collection.BalanceOf | contract/nft2.sol:1072-1075 | the number of tokens owned, except for the zero address |
| Collections.Collection.OwnerOf | contract/nft2.sol:1080-1084 | the owner exactly when the token exists |
| Collections.Collection.TokenOfOwnerByIndex | contract/nft2.sol:1507-1510 | succeeds exactly below the number of tokens owned and yields an owned token at its own position |
| Collections.Collection.TotalSupply | contract/nft2.sol:1515-1517 | the number of existing tokens |
| Collections.Collection.TokenByIndex | contract/nft2.sol:1522-1525 | succeeds exactly below the supply and yields an existing token at its own position |
| Collections.Collection.GetRoleMemberCount | contract/nft2.sol:1446-1448 | the number of accounts that hold the role |
| Collections.Collection.GetRoleMember | contract/nft2.sol:1438-1440 | succeeds exactly below that number and yields a holder |
| Collections.Collection.GetApproved | contract/nft2.sol:1137-1141 | the approved address of an existing token, zero if there is none |
| Collections.Collection.TokenUri | contract/nft2.sol:1683-1699 | the text shown for a token, with base and decimal id as the source combines them |
| Collections.Collection.EnumerationIsExact | contract/nft2.sol:1507-1525 | every token is found at exactly one owner index and one global index |
| Collections.Collection.RoleEnumerationIsExact | contract/nft2.sol:1438-1448 | every holder of a role is found at exactly one index |
| Collections.Collection.BalancesAddUpToTotalSupply | contract/nft2.sol:1507-1525 | in a valid collection all balances add up to totalSupply |
| Erc721Runs.SerialRunIsEquivalent | contract/nft2.sol:1203-1206 | every run with re-entrant receivers ends in the state of a plain sequence of calls |
| Erc721Runs.SerialIsEquivalent | contract/nft2.sol:1180-1183 | the same for one call and everything its receivers do |
| Erc721Runs.RejectionRestores | contract/nft2.sol:1203-1206 | a rejecting receiver undoes the transfer and its own calls |
| Erc721Runs.RunKeeps | contract/nft2.sol:1351-1370 | what every plain call of the allowed senders keeps, every run keeps, whatever receivers do |
| Erc721Theorems.EveryRunIsReachable | contract/nft2.sol:1123-1151 | in every reachable state only existing tokens are approved, nobody is its own operator, DEFAULT_ADMIN_ROLE administers every role |
| Erc721Theorems.OwnershipFrame | contract/nft2.sol:1227-1231 | a token keeps owner, approval and operators through every run without calls by its controllers |
| Erc721Theorems.OnlyTheOwnerDecides | contract/nft2.sol:1163-1183 | without approvals and operators only the owner's calls can move, burn or approve a token |
| Erc721Theorems.MintedTokenIsItsOwners | contract/nft2.sol:1712-1721 | a newly minted token carries no stale approval and stays put until its owner acts |
| Erc721Theorems.ControlIsPowerToTake | contract/nft2.sol:1227-1231 | an account can take a token in one call if and only if it is owner, approved or operator |
| Erc721Theorems.RolesOnlyShrink | contract/nft2.sol:944-983 | once no account is admin none ever is again, and all roles can only lose members |
| Erc721Theorems.SupplyNeverGrows | contract/nft2.sol:1712-1721 | with neither admins nor minters no token is ever created again |
| Erc721Theorems.FrozenForever | contract/nft2.sol:1746-1749 | paused with neither admins nor pausers: owners, supply and every tokenURI never change again |
| Erc721Theorems.IdsAreNeverReissued | contract/nft2.sol:298-302 | until the counter wraps it advances by the number of mints, dead ids stay dead, and a token's URI is constant for its lifetime |
| Erc721Theorems.CounterCountsMints | contract/nft2.sol:1712-1721 | from deployment the counter is the number of tokens ever minted and bounds every existing id |
| Erc721Theorems.FreshGuards | contract/nft2.sol:1268-1278 | before the counter wraps the already-minted guard cannot fire and transfers cannot overflow |
| Erc721Powers.OperatorPower | contract/nft2.sol:1146-1151 | an approved operator can take every token of the owner in one call and nobody's powers change otherwise |
| Erc721Powers.OperatorPowerWithdrawn | contract/nft2.sol:1146-1151 | a withdrawn operator can take exactly the tokens it is the approved address of |
| Erc721Powers.ApprovalPower | contract/nft2.sol:1123-1132 | after approve the approved address, the owner and its operators can take the token, a formerly approved address cannot |
| Erc721Powers.PowerToApprove | contract/nft2.sol:1123-1132 | exactly the owner and its operators can approve; an approval cannot be passed on |
| Erc721Powers.TransferDelivers | contract/nft2.sol:1163-1168 | a transfer needs the true owner's name and control, brings the token to the recipient, ends old approvals and touches no other token |
| Erc721Powers.PowerToBurn | contract/nft2.sol:1639-1643 | exactly the accounts in control of a token can destroy it |
| Erc721Powers.BurnRemoves | contract/nft2.sol:1290-1302 | a burn removes its token and approval and nothing else |
| Erc721Powers.PowerToMint | contract/nft2.sol:1712-1721 | exactly the minters can create a token, for any recipient, under the counter's id |
| Erc721Powers.SupplyIsMintsLessBurns | contract/nft2.sol:298-302 | over every run the supply changes by mints less burns, and the counter advances by the mints modulo 2^256 |
| Erc721Powers.TextOverRuns | contract/nft2.sol:1683-1699 | from deployment through a mint to any later state a token's text is the base followed by its own text, or by its id in canonical digits, or its own text alone |
| Erc721Powers.PowerOverRoles | contract/nft2.sol:944-983 | exactly the admins of a role can give it; exactly they and the member can end a membership |
| Erc721Powers.RoleCallsAreExact | contract/nft2.sol:944-983 | a role call sets or ends exactly the membership it names |
| Erc721Powers.RoleFrame | contract/nft2.sol:944-983 | an account keeps exactly its roles through every run without calls of its own or of admins |
| Erc721Powers.PowerToPause | contract/nft2.sol:1732-1749 | exactly the pausers can throw the switch, in both directions |
| Erc721Powers.PauseFrame | contract/nft2.sol:1732-1749 | without calls of admins or pausers the switch stays, and if it is on no token moves and no text changes |
| Erc721Powers.DeployerStartsAlone | contract/nft2.sol:1665-1672 | at deployment the deployer and nobody else can mint, pause and give roles |
| Erc721Powers.EveryRunIsTidy | contract/nft2.sol:1123-1132 | in every reachable state no token is approved to its owner and every balance fits a uint256 |
| DecimalStrings.DecimalRoundTrip | contract/nft2.sol:319-338 | the decimal form is canonical and reads back to the number |
| DecimalStrings.CanonicalIsDecimal | contract/nft2.sol:319-338 | every canonical digit string is the decimal form of its value |
| DecimalStrings.DecimalIsInjective | contract/nft2.sol:319-338 | different numbers have different decimal forms |
| SolidityStrings.ToString | contract/nft2.sol:319-338 | the two loops fill the buffer with the decimal form |
| SolidityStrings.ToHexStringFixed | contract/nft2.sol:360-369 | reverts exactly when the value needs more than length bytes, otherwise 0x and digits that read back to it |
| SolidityStrings.WriteHexDigits | contract/nft2.sol:364-367 | the loop writes the low digits and leaves what does not fit |
| SolidityStrings.ToHexString | contract/nft2.sol:344-355 | never reverts, uses the least number of bytes, reads back to the value |
| SolidityStrings.ByteLengthIsLeast | contract/nft2.sol:348-353 | the counted length is the least number of bytes that holds the value |
| OrderEncoding.DigestDeterminesOrder | contract/NFTexchange_v3.sol:77-124 | equal digests mean the same kind of order, every field equal and the same domain, if keccak256 does not collide on the strings hashed |
| OrderLayout.StructLayout | contract/NFTexchange_v3.sol:77-124 | for the k-th member named in the type string, word k+1 of the encoded struct is the field of that name, and word 0 the hash of the type string |
| OrderLayout.TypeMembers | contract/NFTexchange_v3.sol:16-18 | the member names read out of the two type strings |
| OrderLayout.DomainLayout | contract/NFTexchange_v3.sol:165-171 | the same for the domain type string and the encoded domain |
| OrderLayout.DigestLayout | contract/NFTexchange_v3.sol:77-97 | the digest is over 0x19, 0x01, the domain hash and the struct hash, in this order |
| OrderLayout.PackedLayout | contract/NFTExchange_v1.sol:119-122 | each field of a version 1 order is found at its place in the packed bytes |
| OrderEncoding.FieldsOfStruct | contract/NFTexchange_v3.sol:81-95 | the encoded struct determines every field and the hashes of type and nonce |
| OrderEncoding.FieldsOfDomain | contract/NFTexchange_v3.sol:165-171 | the encoded domain determines chain, contract and the hashes of name and version |
| OrderEncoding.PackedIsInjective | contract/NFTExchange_v1.sol:119-122 | the packed encoding with one leading variable-length field loses nothing |
| OrderEncoding.V1DigestDeterminesOrder | contract/NFTExchange_v1.sol:119-122 | equal version 1 digests mean equal orders, if keccak256 does not collide on the strings hashed |
| OrderEncoding.SplitSig | contract/NFTexchange_v3.sol:131-139 | reverts exactly unless the length is 65; r, s and v are the three parts, read through memory words |
| OrderEncoding.SplitSigIsBijective | contract/NFTexchange_v3.sol:131-139 | splitting is a bijection between 65-byte strings and (r, s, v) |
| Ledgers.TotalWrite | contract/NFTexchange_v3.sol:217-229 | writing one balance changes the total by the difference |
| Erc20.TransferConserves | contract/NFTexchange_v3.sol:223-229 | a transfer conserves the supply and, in a solvent token, fails only for lack of balance |
| Erc20.ApprovalGrants | contract/NFTexchange_v3.sol:288-292 | an allowance is the power to take exactly so much, as far as the balance goes |
| Erc20.PayAllSucceeds | contract/NFTexchange_v3.sol:288-292 | a sequence of transferFrom calls succeeds exactly when the allowance covers the sum and the balance lasts, for every aliasing |
| Erc20.PayAllMoves | contract/NFTexchange_v3.sol:288-292 | what the payments do to every balance, every allowance and the supply |
| Settlement.VerifyExactly | contract/NFTexchange_v3.sol:99-102 | verification passes exactly for a 65-byte signature that recovers to the named party |
| Settlement.OtherDeploymentsDiffer | contract/NFTexchange_v3.sol:157-171 | no digest is shared by deployments at different addresses or on different chains, if keccak256 does not collide on the strings hashed |
| Settlement.NftLeg | contract/NFTexchange_v3.sol:286-286 | with the exchange as operator the NFT transfer fails exactly when the collection is paused |
| Settlement.SaleSettles | contract/NFTexchange_v3.sol:262-294 | a settled sale moves the NFT and the three amounts and nothing else, for every aliasing; supply conserved |
| Settlement.SaleSettlesExactly | contract/NFTexchange_v3.sol:262-294 | a sale settles if and only if its guards hold, the collection runs, the allowance covers the amounts and the balance lasts |
| Settlement.SellGuardsSuffice | contract/NFTexchange_v3.sol:272-292 | with amounts within the total, the guards leave a paused collection as the only failure |
| Settlement.AuctionSettles | contract/NFTexchange_v3.sol:296-340 | the same effect for an auction, royalty from the sell order, the rest from the buy order |
| Settlement.AuctionCharges | contract/NFTexchange_v3.sol:333-338 | a buyer who is no payee is charged more than the total of an order that adds up if and only if the seller asks for more royalty than the buyer offered |
| Settlement.AuctionSettlesExactly | contract/NFTexchange_v3.sol:296-340 | the exact condition for an auction, royalty from the sell order |
| Settlement.AuctionGuardsSuffice | contract/NFTexchange_v3.sol:327-338 | with amounts within the total, the guards of an auction leave a paused collection as the only failure |
| Settlement.PurchaseSettles | contract/NFTexchange_v3.sol:231-260 | a settled purchase moves the NFT and the coins exactly as ordered; coins conserved |
| Settlement.PurchaseSettlesExactly | contract/NFTexchange_v3.sol:231-260 | a purchase settles if and only if the caller has the coins, the guards hold, the collection runs and each payee accepts and is covered in order |
| Settlement.PurchaseReplaysExactly | contract/NFTexchange_v3.sol:231-249 | a sell order that settled once settles again exactly when the token is back on offer with its seller within the period, unpaused and paid for; no record of it is kept |
| Settlement.SaleReplaysExactly | contract/NFTexchange_v3.sol:262-282 | a buy order that settled once settles again exactly when some owner offers the token and the buyer's tokens still cover it |
| Settlement.AuctionReplaysExactly | contract/NFTexchange_v3.sol:296-328 | the orders of an auction settle again exactly when an admin finds the token back on offer and the buyer's tokens still cover it |
| Settlement.PurchaseDrawsOnFees | contract/NFTexchange_v3.sol:247-258 | a purchase takes from earlier coins if and only if the order pays out more than its total |
| Settlement.PurchasePayees | contract/NFTexchange_v3.sol:255-258 | the exchange is never a payee of a settled purchase |
| ExchangeRuns.RunConserves | contract/NFTexchange_v3.sol:217-340 | no run changes the total of coins or the supply of any token |
| ExchangeRuns.CoinLedger | contract/NFTexchange_v3.sol:217-260 | the exchange's balance is its start plus the margins of settled purchases less the withdrawals |
| ExchangeRuns.FeesLessWithdrawals | contract/NFTexchange_v3.sol:217-260 | if every settled sell order adds up, it is the fees of settled purchases less the withdrawals, whatever reverting calls carry |
| Counterexamples.OverpayingOrder | contract/NFTexchange_v3.sol:255-255 | a concrete order that does not add up and draws on earlier coins, for every hash and every recovery that accepts its signature |
| Counterexamples.SaleGuardsDoNotSuffice | contract/NFTexchange_v3.sol:272-292 | a concrete sale in a running collection that passes every guard and then fails |
| Counterexamples.AuctionGuardsDoNotSuffice | contract/NFTexchange_v3.sol:327-338 | the same for an auction |
| Counterexamples.OrderSettlesTwice | contract/NFTexchange_v3.sol:231-260 | a concrete signed order that settles twice |
| Counterexamples.BidSettlesTwice | contract/NFTexchange_v3.sol:262-294 | a concrete signed buy order that settles twice |
| Counterexamples.AuctionSettlesTwice | contract/NFTexchange_v3.sol:296-340 | two concrete signed orders of an auction that settle twice |
| Counterexamples.AuctionOvercharges | contract/NFTexchange_v3.sol:333-338 | two concrete orders for 10 that add up, and a charge of 20 |
| ExchangeRuns.RegistryOverRuns | contract/NFTexchange_v3.sol:172-199 | there is always an admin, all admins are listed and counted, and the list is exact and repetition-free if and only if no admin was added twice |
| ExchangePowers.OnlyAdminsGovern | contract/NFTexchange_v3.sol:172-229 | a committed step is about registry, switch or a withdrawal only if its sender is an admin at that moment, and registry and switch change in no other step |
| ExchangePowers.GovernmentCallsAreExact | contract/NFTexchange_v3.sol:185-211 | each administrative call changes exactly what it names |
| ExchangePowers.PowerToPause | contract/NFTexchange_v3.sol:201-211 | exactly the admins can throw the switch, in both directions |
| ExchangePowers.PowerToAddAdmin | contract/NFTexchange_v3.sol:185-190 | exactly the admins can register an account |
| ExchangePowers.PowerToDeleteAdmin | contract/NFTexchange_v3.sol:192-199 | exactly the other admins can remove one |
| ExchangePowers.CoinWithdrawal | contract/NFTexchange_v3.sol:217-221 | withdrawETH commits exactly for an admin, a covered amount and an accepting recipient, credits the recipient, and touches nobody else |
| ExchangePowers.TokenWithdrawal | contract/NFTexchange_v3.sol:223-229 | the same for withdrawERC20Token |
| ExchangePowers.NothingWithoutAdmins | contract/NFTexchange_v3.sol:172-229 | in every run without calls by admins, registry and switch stay and nothing is withdrawn |
| ExchangePowers.TokensLeaveByWithdrawal | contract/NFTexchange_v3.sol:223-229 | over every run the exchange's tokens leave it by withdrawals only |
| ExchangePowers.PauseStopsTrades | contract/NFTexchange_v3.sol:201-211 | while paused no trade settles in any run, until unPauseContract commits |
| ExchangePowers.StartsWithOneAdmin | contract/NFTexchange_v3.sol:157-175 | deployment leaves a running exchange that only its admin can pause |
| ExchangeRuns.RemoveElementMultiset | contract/NFTexchange_v3.sol:141-155 | removing a listed account removes one occurrence and nothing else |
| ExchangeRuns.CollectionsKeepTheirHistory | contract/NFTexchange_v3.sol:253-286 | in every run each collection goes through a run of its own calls, trades included |
| ExchangeRuns.TradesRespectOwners | contract/NFTexchange_v3.sol:231-340 | no run takes a token from its owner without consent: while accounts with power over it stay away from the collection it moves only if the owner made the exchange an operator and the owner's own sale or a sell order with the owner's signature settled |
| ExchangeRuns.TradeNeedsConsent | contract/NFTexchange_v3.sol:240-249 | the same for one step of the exchange |
| ExchangeRuns.TradesRespectBuyers | contract/NFTexchange_v3.sol:262-340 | over every run an account that stays away from a token loses units of it only through settled steps with its signed buy order, at most the amounts charged there, which use up its allowance to the exchange exactly |
| ReentrantRuns.SerialPlayIsEquivalent | contract/nft2.sol:1180-1206 | runs in which receivers of safe transfers re-enter the exchange, the tokens or any collection end in the state of a plain run |
| ReentrantRuns.ReentrantRunsConserve | contract/nft2.sol:1351-1370 | conservation and the registry under such re-entrance |
| ReentrantRuns.ReentrantCoinLedger | contract/nft2.sol:1351-1370 | the coin ledger under such re-entrance |
| ReentrantRuns.ReentrantTradesRespectOwners | contract/nft2.sol:1351-1370 | no token leaves its owner without consent under such re-entrance |
| ReentrantRuns.ReentrantTradesRespectBuyers | contract/nft2.sol:1351-1370 | no account is charged beyond its signed orders and its allowance under such re-entrance |
| Exchanges.Exchange.constructor | contract/NFTexchange_v3.sol:157-175 | one registered admin, not paused, and the hash of the signing domain of exactly this address and chain |
| Exchanges.Exchange.HashOrder | contract/NFTexchange_v3.sol:77-124 | hashing with the stored separator gives the digest for this deployment's domain |
| Exchanges.Exchange.RemoveAddressArrayElement | contract/NFTexchange_v3.sol:141-155 | the search loop with swap-and-pop removes the first occurrence |
| Exchanges.Exchange.AddAdmin | contract/NFTexchange_v3.sol:185-190 | refines the registry step; the uint16 counter reverts at its maximum |
| Exchanges.Exchange.DeleteAdmin | contract/NFTexchange_v3.sol:192-199 | refines the registry step; the account is found and the counter does not underflow |
| Exchanges.Exchange.PauseContract | contract/NFTexchange_v3.sol:201-205 | only an admin pauses |
| Exchanges.Exchange.UnpauseContract | contract/NFTexchange_v3.sol:207-211 | only an admin unpauses |
| Exchanges.Exchange.WithdrawEth | contract/NFTexchange_v3.sol:217-221 | refines the withdrawal of coins, failures included |
| Exchanges.Exchange.WithdrawErc20 | contract/NFTexchange_v3.sol:223-229 | refines the withdrawal of tokens, failures included |
| Exchanges.Exchange.BuyNft | contract/NFTexchange_v3.sol:231-260 | refines the purchase, failures included; a success was allowed and moved the NFT and the coins exactly as ordered |
| Exchanges.Exchange.SettleInTokens | contract/NFTexchange_v3.sol:286-292 | the NFT call and the two or three payments refine the settlement |
| Exchanges.Exchange.SellNft | contract/NFTexchange_v3.sol:262-294 | refines the sale, failures included; it succeeds if and only if allowed and covered, and then has exactly the agreed effect |
| Exchanges.Exchange.ExchangeNftAuction | contract/NFTexchange_v3.sol:296-340 | refines the auction, failures included; it succeeds if and only if allowed and covered, and then has exactly the agreed effect |
| Exchanges.Exchange.Execute | contract/NFTexchange_v3.sol:231-340 | a call commits or restores the whole world, and keeps the registry consistent |
| Exchanges.Exchange.ExecuteAll | contract/NFTexchange_v3.sol:172-340 | any run refines the run of the state machine |
| NumberStrings.NoExponents | src/app/helpers/functions.ts:45-62 | terminates on every printable number and yields the expansion |
| NumberStrings.ExpandedDenotes | src/app/helpers/functions.ts:45-62 | the expansion has exactly the value and sign of the number if and only if it is not negative with a positive exponent |
| NumberStrings.NegativePowerLosesAZero | src/app/helpers/functions.ts:59-61 | -1e21 is a concrete number that is expanded wrongly |
| NumberStrings.PrintSplits | src/app/helpers/functions.ts:46-52 | splitting the printed form gives the digits and the exponent |
| NumberStrings.Multiplier | src/app/helpers/functions.ts:480-483 | the loop writes ten to the power of the decimals |
| NumberStrings.ConvertTokenAmountToInt | src/app/helpers/functions.ts:479-485 | the decimal digits of the integer part, after a minus sign if the product is negative; a negative product with a positive exponent is shown a power of ten too small |
| Slugs.SlugIsOnePass | src/app/helpers/functions.ts:154-162 | the chain of replacements equals one left-to-right pass over the trimmed folded text |
| Slugs.SlugIsSlug | src/app/helpers/functions.ts:154-162 | for every text only lower-case letters, digits, underscore and hyphen, no two hyphens in a row |
| Slugs.FixedPointsAreSlugs | src/app/helpers/functions.ts:154-162 | the texts left alone are exactly those of that form |
| Slugs.SlugIsIdempotent | src/app/helpers/functions.ts:154-162 | applying it twice changes nothing more |
| Slugs.SlugKeepsWords | src/app/helpers/functions.ts:154-162 | the word characters of the folded text survive in order, for ASCII text those of the text in lower case |
| Slugs.OuterSpaceDoesNotMatter | src/app/helpers/functions.ts:158-158 | white space around the folded text makes no difference |
| Slugs.SlugOfParts | src/app/helpers/functions.ts:159-161 | two parts that meet in word characters keep their slugs, with exactly one hyphen between them if there is any white space or hyphen in between, else nothing |
| AsciiHex.AsciiToHex | src/app/helpers/functions.ts:96-103 | the loop concatenates the unpadded codes |
| AsciiHex.HexToAscii | src/app/helpers/functions.ts:87-94 | the loop parses two code units at a time, an odd last one alone, for any text; NaN becomes code 0 |
| AsciiHex.DecodeOfDigits | src/app/helpers/functions.ts:87-94 | on hexadecimal digits that is the value of each pair |
| AsciiHex.OtherPairs | src/app/helpers/functions.ts:87-94 | what parseInt makes of blanks, signs and non-digits |
| AsciiHex.PrefixIsNotSkipped | src/app/helpers/functions.ts:87-94 | a 0x prefix decodes to a code 0 |
| AsciiHex.HexRoundTripExactly | src/app/helpers/functions.ts:87-103 | decoding undoes encoding if and only if all codes fit a byte and all but the last have two digits |
| LoginNonces.UserAuthService.GenerateLoginMessage | src/app/modules/auth/user.auth.service.ts:155-187 | inserts the row in any case, returns the message unless the status is refused |
| LoginNonces.UserAuthService.BeginLogin | src/app/modules/auth/user.auth.service.ts:191-206 | a login is under way exactly if it found a row with its nonce for its address, and remembers row and status as read |
| LoginNonces.UserAuthService.CheckLogin | src/app/modules/auth/user.auth.service.ts:208-212 | a login is verified exactly if the status it read passes and the signer is the address it named |
| LoginNonces.UserAuthService.FinishLogin | src/app/modules/auth/user.auth.service.ts:212-220 | the delete step: a token for the row's user exactly when the row was still there |
| LoginNonces.LoginsNeverExceedRows | src/app/modules/auth/user.auth.service.ts:155-227 | under every interleaving from every consistent state, earlier and inserted rows are exactly the live ones plus the granted ones |
| LoginNonces.OneTokenPerRow | src/app/modules/auth/user.auth.service.ts:212-220 | a row yields at most one token under every interleaving |
| LoginNonces.GrantsAreChecked | src/app/modules/auth/user.auth.service.ts:191-220 | a token is granted only to a login that named an address and a nonce, read a row with that nonce of that account while its status was neither 0 nor 10, and then presented a signature by that address |
| LoginNonces.LoginsNeverExceedMessages | src/app/modules/auth/user.auth.service.ts:155-227 | for each user and nonce, logins stay within the returned messages in every continuation without new messages if and only if no such request was refused |
| LoginNonces.LiveRowsCanLogIn | src/app/modules/auth/user.auth.service.ts:191-220 | every live row can still be turned into a login |
| LoginNonces.AnyCasingFinds | src/app/modules/auth/user.auth.service.ts:191-200 | a row is found by its nonce and any casing of its wallet, and by nothing else |
| LoginNonces.RowWithoutMessage | src/app/modules/auth/user.auth.service.ts:167-181 | a concrete run from empty tables in which a login succeeds although no message was returned for it |
| TxNonces.TransactionService.GetLatestNonce | src/app/core.services/transaction.service.ts:6-41 | the returned nonce is the successor of the stored one or the chain's count, and is stored for that key only |
| TxNonces.TransactionService.Serve | src/app/core.services/transaction.service.ts:6-41 | a serialised sequence of calls yields the results of the specification |
| TxNonces.ResultsReachTheCount | src/app/core.services/transaction.service.ts:26-31 | each result is at least the chain's count |
| TxNonces.ResultsIncrease | src/app/core.services/transaction.service.ts:26-31 | for one key results strictly increase from the first positive one |
| TxNonces.RepeatedExactly | src/app/core.services/transaction.service.ts:27-31 | two results for a key are equal if and only if nothing but 0 is stored and reported up to the later one |
| TxNonces.OtherKeysDoNotMatter | src/app/core.services/transaction.service.ts:12-17 | calls for other keys change nothing for this one |
| TxNonces.ConsecutiveExactly | src/app/core.services/transaction.service.ts:26-31 | nonces are consecutive if and only if the count is never ahead of the next one |
| TxInterleavings.ExclusiveIsSerial | src/app/core.services/transaction.service.ts:12-39 | calls for a key that do not overlap get the nonces of the serial allocator, whatever calls for other keys run in between |
| TxInterleavings.ExclusiveIncreases | src/app/core.services/transaction.service.ts:26-39 | without overlaps nonces for a key increase strictly from the first positive one |
| TxInterleavings.DistinctExactly | src/app/core.services/transaction.service.ts:12-39 | while the chain has mined at most the nonce a starting call finds stored, completed calls for a key get different nonces if and only if no two of them overlap |
| TxInterleavings.SafeScheduleExactly | src/app/core.services/transaction.service.ts:12-39 | a schedule of completed calls hands out no positive nonce twice, whatever the chain reports, if and only if no two calls for the key overlap in it |
| TxInterleavings.ZeroIsHanded | src/app/core.services/transaction.service.ts:26-31 | while nothing is stored and the chain reports no transaction every call gets 0, overlapping or not |
| TxInterleavings.OverlapOnOneRow | src/app/core.services/transaction.service.ts:12-39 | a concrete run on one row: 5 stored and mined, two overlapping calls both get 6 |
| TxInterleavings.OneRowExactly | src/app/core.services/transaction.service.ts:12-25 | a key keeps at most one row if and only if no call finds it missing while another that found it missing has yet to create it |
| TxInterleavings.TwoRowsRepeat | src/app/core.services/transaction.service.ts:12-39 | with two rows at the same nonce, calls that do not overlap get the same next nonce |
| TxInterleavings.FirstCallsThenRepeat | src/app/core.services/transaction.service.ts:12-39 | one concrete run from the empty table: overlapping first calls leave two rows, and two later calls that overlap with nothing get the same nonce |

## Left out

- Events, gas, the 2300-gas stipend of coin transfers, supportsInterface, the Address helpers, name and symbol.
- The length limit of 2^64 that the compiler puts on storage arrays, and the size limit of memory allocation.
- `_setRoleAdmin` and the `_safeMint` overloads, which no entry point calls.
- keccak256 and ecrecover: the first is a parameter constrained only by absence of collisions on given strings, the second is an arbitrary function.
- Receivers' revert reasons: a receiver that reverts, returns a wrong value or has no code for the call is one that rejects. Within `Collections.Collection` receivers call the collection only; `ReentrantRuns` has receivers that call anything in the world.
- EnumerableSets.EnumerableSet.Add: a storage reference is modelled as load, update in place, store back, so two references to one set are not modelled.
- ERC-20 and ERC-721 contracts that deviate from the standard (fees on transfer, false instead of revert, callbacks); IERC20.sol, IERC721.sol and SafeMath.sol are not part of this model.
- ExchangeRuns.CoinLedger: coins forced into the exchange by self-destruction are not a step of the model, and senders of steps are accounts other than the exchange.
- Exchanges.Exchange.BuyNft: which accounts accept a coin transfer is a parameter of each call; a call whose value exceeds the caller's coins fails instead of never being sent.
- contract/NFTexchange_v2.sol and the settlement and registry of contract/NFTExchange_v1.sol, which repeat version 3 with fewer guards; contract/nft.sol, a wrapper over sources that are not shown.
- NumberStrings.ConvertTokenAmountToInt: starts from the printed product, so the rounding of the floating-point multiplication is outside, as are NaN and the infinities.
- Slugs.SlugIsSlug: lower-casing and NFD normalisation are a parameter, of which only two facts are used: they leave no ASCII capital letter, and they merely lower-case ASCII text. A text is a sequence of characters, so lone surrogates are outside.
- LoginNonces.UserAuthService.FinishLogin: signing the token cannot fail; address validation, the random nonce and recovery of the signer are parameters.
- TxNonces.TransactionService.GetLatestNonce: one uninterrupted call on a table with one row per key; `TxInterleavings` takes the call apart. Nonces stay below 2^53, where Number is exact.
- The BigInt variant of noExponents: a BigInt prints without an exponent, so it returns its text unchanged.
- Resolvers, guards, mail, files, settings and the network clients.
