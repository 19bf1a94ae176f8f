/**
 contract/NFTexchange_v3.sol, contract NFTexchange: its storage and the ledgers around it, updated in place. A call
 that fails restores everything it changed.
 */
module Exchanges {
  import opened Wrappers
  import opened Evm
  import opened Sequences
  import opened Ledgers
  import opened Payments
  import opened Bytes
  import opened OrderEncoding
  import Erc20
  import Erc721
  import opened ExchangeSpec
  import opened Settlement
  import opened ExchangeRuns

  type Outcome = Result<(), ExchangeSpec.Error>

  class Exchange {
    var admins: map<Address, bool>
    var allAdmins: seq<Address>
    var adminCount: nat
    var paused: bool
    var chain: Chain
    const ctx: Context
    const domainSeparator: Bytes32

    function View(): State
      reads this
    {
      State(TrueKeys(admins), allAdmins, adminCount, paused, chain)
    }

    ghost predicate Valid()
      reads this
    {
      RegistryOk(View()) && SeparatorOk()
    }

    /** Set once: the hash of this deployment's signing domain. */
    ghost predicate SeparatorOk() {
      domainSeparator == ctx.keccak(DomainBytes(ctx.keccak, ctx.SigningDomain()))
    }

    ghost predicate Agrees(expected: Result<State, Error>, r: Outcome)
      reads this
    {
      match expected
      case Success(s) => r.Success? && View() == s
      case Failure(e) => r == Failure(e)
    }

    /** Deployed at `self` on chain `chainId`: orders are signed for exactly this address and chain. */
    constructor (self: Account, chainId: Uint256, name: seq<Byte>, version: seq<Byte>, admin: Address, world: Chain,
                 keccak: Hash, ecrecover: (Bytes32, Signature) -> Address)
      ensures Valid() && View() == Initial(admin, world)
      ensures IsAdmin(admin) && !paused
      ensures ctx == Context(self, name, version, chainId, keccak, ecrecover)
      ensures domainSeparator == keccak(DomainBytes(keccak, Domain(name, version, chainId, self)))
    {
      ctx := Context(self, name, version, chainId, keccak, ecrecover);
      domainSeparator := keccak(Words([keccak(Ascii(DOMAIN_TYPE)), keccak(name), keccak(version), chainId, self]));
      admins := map[admin := true];
      allAdmins := [admin];
      adminCount := 1;
      paused := false;
      chain := world;
      new;
      assert TrueKeys(admins) == {admin};
    }

    // ----- signed orders -----

    /** hashSellOrder and hashBuyOrder, with the stored separator. */
    function HashOrder(kind: Kind, o: Order): (digest: Bytes32)
      ensures SeparatorOk() ==> digest == Digest(ctx.keccak, ctx.SigningDomain(), kind, o)
    {
      ctx.keccak([0x19, 0x01] + Words([domainSeparator, ctx.keccak(StructBytes(ctx.keccak, kind, o))]))
    }

    /** verifySeller and verifyBuyer. */
    function VerifyOrder(kind: Kind, o: Order, sig: seq<Byte>): (r: Result<bool, ExchangeSpec.Error>)
      ensures SeparatorOk() ==> r == Verify(ctx, kind, o, sig)
    {
      match SplitSig(sig, seq(31, _ => 0))
      case Failure(_) => Failure(InvalidSignatureLength)
      case Success(g) => Success(o.party == ctx.ecrecover(HashOrder(kind, o), g))
    }

    // ----- administrators -----

    /** Searches for the first occurrence, then swaps and pops. */
    method RemoveAddressArrayElement(elem: Address)
      modifies `allAdmins
      ensures allAdmins == RemoveElement(old(allAdmins), elem)
    {
      var found := false;
      var index := 0;
      var i := 0;
      while i < |allAdmins|
        invariant i <= |allAdmins| && allAdmins == old(allAdmins) && !found
        invariant FirstIndex(allAdmins, elem) == i + FirstIndex(allAdmins[i..], elem)
      {
        if allAdmins[i] == elem {
          found := true;
          index := i;
          break;
        }
        i := i + 1;
      }
      if found {
        allAdmins := allAdmins[index := allAdmins[|allAdmins| - 1]];
        allAdmins := allAdmins[..|allAdmins| - 1];
      }
    }

    predicate IsAdmin(a: Address)
      reads this
      ensures IsAdmin(a) <==> a in View().admins
    {
      Read(admins, a, false)
    }

    method AddAdmin(env: Env, sender: Account, account: Address) returns (r: Outcome)
      requires Valid()
      modifies `admins, `allAdmins, `adminCount
      ensures Agrees(Apply(ctx, old(View()), Step(env, sender, Action.AddAdmin(account))), r)
      ensures r.Success? ==> old(IsAdmin(sender)) && IsAdmin(account)
    {
      if !IsAdmin(sender) {
        return Failure(Unauthorized);
      }
      admins := admins[account := true];
      allAdmins := allAdmins + [account];
      if adminCount == MAX_UINT16 {
        return Failure(AdminCountOverflow);
      }
      adminCount := adminCount + 1;
      return Success(());
    }

    /** The search always finds the account and the counter never underflows. */
    method DeleteAdmin(env: Env, sender: Account, account: Address) returns (r: Outcome)
      requires Valid()
      modifies `admins, `allAdmins, `adminCount
      ensures Agrees(Apply(ctx, old(View()), Step(env, sender, Action.DeleteAdmin(account))), r)
      ensures r.Success? ==> old(IsAdmin(sender)) && !IsAdmin(account)
      ensures r.Success? ==> adminCount == old(adminCount) - 1 && |allAdmins| == |old(allAdmins)| - 1
    {
      if !IsAdmin(sender) {
        return Failure(Unauthorized);
      }
      if account == sender {
        return Failure(DeletesItself);
      }
      if !IsAdmin(account) {
        return Failure(NotAnAdmin);
      }
      RemoveElementMultiset(allAdmins, account);
      admins := admins - {account};
      RemoveAddressArrayElement(account);
      adminCount := adminCount - 1;
      return Success(());
    }

    method PauseContract(env: Env, sender: Account) returns (r: Outcome)
      modifies `paused
      ensures Agrees(Apply(ctx, old(View()), Step(env, sender, Action.PauseContract)), r)
      ensures r.Success? <==> IsAdmin(sender)
      ensures paused == (r.Success? || old(paused))
    {
      if !IsAdmin(sender) {
        return Failure(Unauthorized);
      }
      paused := true;
      return Success(());
    }

    method UnpauseContract(env: Env, sender: Account) returns (r: Outcome)
      modifies `paused
      ensures Agrees(Apply(ctx, old(View()), Step(env, sender, Action.UnpauseContract)), r)
      ensures r.Success? <==> IsAdmin(sender)
      ensures paused == (r.Failure? && old(paused))
    {
      if !IsAdmin(sender) {
        return Failure(Unauthorized);
      }
      paused := false;
      return Success(());
    }

    // ----- withdrawals -----

    method WithdrawEth(env: Env, sender: Account, to: Address, amount: Uint256) returns (r: Outcome)
      modifies `chain
      ensures Agrees(Apply(ctx, old(View()), Step(env, sender, Action.WithdrawEth(to, amount))), r)
      ensures r.Success? <==> && IsAdmin(sender) && amount <= At(old(chain).coins, ctx.self)
                              && to in env.accepting && to != ctx.self
      ensures r.Success? ==> && At(chain.coins, ctx.self) == At(old(chain).coins, ctx.self) - amount
                             && At(chain.coins, to) == At(old(chain).coins, to) + amount
    {
      if !IsAdmin(sender) {
        return Failure(Unauthorized);
      }
      r := SendFromExchange(env, to, amount);
    }

    /** `payable(to).transfer(amount)` out of the exchange's own balance. */
    method SendFromExchange(env: Env, to: Address, amount: nat) returns (r: Outcome)
      modifies `chain
      ensures match SendCoinsTo(ctx, env, old(chain).coins, ctx.self, Payment(to, amount))
              case Failure(e) => r == Failure(e)
              case Success(coins) => r.Success? && chain == old(chain).(coins := coins)
    {
      var balance := At(chain.coins, ctx.self);
      :- Require(amount <= balance, NotEnoughFunds);
      :- Require(to in env.accepting && to != ctx.self, PayeeRejects);
      chain := chain.(coins := chain.coins[ctx.self := balance - amount]);
      chain := chain.(coins := chain.coins[to := At(chain.coins, to) + amount]);
      return Success(());
    }

    method WithdrawErc20(env: Env, sender: Account, contract: Address, to: Address, amount: Uint256)
      returns (r: Outcome)
      modifies `chain
      ensures Agrees(Apply(ctx, old(View()), Step(env, sender, Action.WithdrawErc20(contract, to, amount))), r)
      ensures r.Success? ==>
                && IsAdmin(sender) && contract in old(chain).tokens && contract in chain.tokens
                && amount <= At(old(chain).tokens[contract].balances, ctx.self)
                && (to != ctx.self ==> At(chain.tokens[contract].balances, to)
                                       == At(old(chain).tokens[contract].balances, to) + amount)
    {
      if !IsAdmin(sender) {
        return Failure(Unauthorized);
      }
      :- Require(contract in chain.tokens, NotAContract);
      var token := chain.tokens[contract];
      :- Require(amount <= At(token.balances, ctx.self), NotEnoughFunds);
      var transferred := Erc20.Transfer(token, ctx.self, to, amount);
      if transferred.Failure? {
        return Failure(TokenReverted(transferred.error));
      }
      chain := chain.(tokens := chain.tokens[contract := transferred.value]);
      return Success(());
    }

    // ----- trades: every external call changes the world before the next one is made -----

    method TransferNft(contract: Address, from: Address, to: Address, id: Uint256) returns (r: Outcome)
      modifies `chain
      ensures match MoveNft(ctx, old(chain), contract, from, to, id)
              case Failure(e) => r == Failure(e)
              case Success(moved) => r.Success? && chain == moved
    {
      if contract !in chain.nfts {
        return Failure(NotAContract);
      }
      var moved := Erc721.Apply(chain.nfts[contract], Erc721.Msg(ctx.self, Erc721.Call.TransferFrom(from, to, id)));
      if moved.Failure? {
        return Failure(NftReverted(moved.error));
      }
      chain := chain.(nfts := chain.nfts[contract := moved.value]);
      return Success(());
    }

    /** token.transferFrom(from, to, amount), called by the exchange. */
    method TransferToken(contract: Address, from: Address, to: Address, amount: nat) returns (r: Outcome)
      requires contract in chain.tokens
      modifies `chain
      ensures match Erc20.TransferFrom(old(chain).tokens[contract], ctx.self, from, to, amount)
              case Failure(e) => r == Failure(TokenReverted(e))
              case Success(token) => r.Success? && chain == old(chain).(tokens := old(chain).tokens[contract := token])
    {
      var paid := Erc20.TransferFrom(chain.tokens[contract], ctx.self, from, to, amount);
      if paid.Failure? {
        return Failure(TokenReverted(paid.error));
      }
      chain := chain.(tokens := chain.tokens[contract := paid.value]);
      return Success(());
    }

    /** nft.isApprovedForAll(owner, address(this)), for a contract that exists. */
    predicate ApprovedForAll(contract: Address, owner: Address)
      requires contract in chain.nfts
      reads this
    {
      (owner, ctx.self) in chain.nfts[contract].operators
    }

    /** The requires of buyNFT, in their order. */
    method CheckPurchase(env: Env, value: Uint256, sell: Order, sig: seq<Byte>) returns (r: Outcome)
      requires SeparatorOk()
      ensures r == BuyChecks(ctx, View(), env, value, sell, sig)
      ensures r.Success? <==> PurchaseAllowed(ctx, View(), env, value, sell, sig)
    {
      hide Verify, PurchaseAllowed, SeparatorOk;
      PurchaseGuards(ctx, View(), env, value, sell, sig);
      :- Require(!paused, ContractPaused);
      :- Require(sell.nftContract != ZERO, ZeroNftContract);
      :- Require(sell.party != ZERO, ZeroParty);
      if sell.royaltyAmount > 0 {
        :- Require(sell.royaltyPayTo != ZERO, ZeroRoyaltyPayee);
      }
      :- Require(sell.nftContract in chain.nfts, NotAContract);
      :- Require(ApprovedForAll(sell.nftContract, sell.party), NotApprovedForAll);
      var owner :- NftOwner(chain.nfts[sell.nftContract], sell.nftTokenId);
      :- Require(owner == sell.party, NotNftOwner);
      :- Require(env.now >= sell.startsAt, NotStarted);
      :- Require(env.now < sell.expiresAt, Expired);
      :- Require(value > 0, ZeroAmount);
      :- Require(sell.totalAmount == value, AmountMismatch);
      var signed :- VerifyOrder(Sell, sell, sig);
      :- Require(signed, InvalidSellerSignature);
      return Success(());
    }

    /** The seller's amount, then the royalty unless it is zero. */
    method PayInCoins(env: Env, sell: Order) returns (r: Outcome)
      modifies `chain
      ensures match PayCoins(ctx, env, old(chain).coins, BuyPayments(sell))
              case Failure(e) => r == Failure(e)
              case Success(coins) => r.Success? && chain == old(chain).(coins := coins)
    {
      hide SendCoinsTo;
      ghost var ps := BuyPayments(sell);
      assert ps[0] == Payment(sell.party, sell.sellerAmount);
      assert ps[1..] == RoyaltyPayment(sell.royaltyPayTo, sell.royaltyAmount);
      ghost var all := PayCoins(ctx, env, chain.coins, ps);
      var _ :- SendFromExchange(env, sell.party, sell.sellerAmount);
      assert all == PayCoins(ctx, env, chain.coins, ps[1..]);
      if sell.royaltyAmount > 0 {
        assert ps[1..][1..] == [];
        var _ :- SendFromExchange(env, sell.royaltyPayTo, sell.royaltyAmount);
        assert all == PayCoins(ctx, env, chain.coins, []);
      }
      return Success(());
    }

    /** The value of the call has arrived when the guards run. */
    method BuyNft(env: Env, sender: Account, value: Uint256, sell: Order, sig: seq<Byte>) returns (r: Outcome)
      requires Valid()
      modifies `chain
      ensures Agrees(Purchase(ctx, old(View()), env, sender, value, sell, sig), r)
      ensures r.Success? ==> PurchaseAllowed(ctx, old(View()), env, value, sell, sig)
                             && Bought(ctx, old(View()), View(), sender, sell)
    {
      hide RegistryOk, SeparatorOk, BuyChecks, MoveNft, PayCoins, BuyPayments, PurchaseAllowed, Bought;
      :- Require(value <= At(chain.coins, sender), NotEnoughFunds);
      chain := chain.(coins := chain.coins[sender := At(chain.coins, sender) - value]);
      chain := chain.(coins := chain.coins[ctx.self := At(chain.coins, ctx.self) + value]);
      var _ :- CheckPurchase(env, value, sell, sig);
      var _ :- TransferNft(sell.nftContract, sell.party, sender, sell.nftTokenId);
      var _ :- PayInCoins(env, sell);
      PurchaseIsLawful(ctx, old(View()), env, sender, value, sell, sig);
      return Success(());
    }

    /** The NFT and the payments of a trade in tokens, in the order of the source. */
    method SettleInTokens(seller: Address, buy: Order, royalty: nat) returns (r: Outcome)
      requires buy.paymentToken in chain.tokens
      modifies `chain
      ensures Agrees(Settle(ctx, old(View()), seller, buy, TokenPayments(ctx, seller, buy, royalty)), r)
    {
      hide Erc20.TransferFrom;
      var _ :- TransferNft(buy.nftContract, seller, buy.party, buy.nftTokenId);
      ghost var ps := TokenPayments(ctx, seller, buy, royalty);
      assert ps[0] == Payment(seller, buy.sellerAmount);
      assert ps[1..][0] == Payment(ctx.self, buy.feeAmount);
      assert ps[1..][1..] == RoyaltyPayment(buy.royaltyPayTo, royalty);
      ghost var all := Erc20.PayAll(chain.tokens[buy.paymentToken], ctx.self, buy.party, ps);
      var _ :- TransferToken(buy.paymentToken, buy.party, seller, buy.sellerAmount);
      assert all == Erc20.PayAll(chain.tokens[buy.paymentToken], ctx.self, buy.party, ps[1..]);
      var _ :- TransferToken(buy.paymentToken, buy.party, ctx.self, buy.feeAmount);
      assert all == Erc20.PayAll(chain.tokens[buy.paymentToken], ctx.self, buy.party, ps[1..][1..]);
      if royalty > 0 {
        assert ps[1..][1..][1..] == [];
        var _ :- TransferToken(buy.paymentToken, buy.party, buy.royaltyPayTo, royalty);
        assert all == Erc20.PayAll(chain.tokens[buy.paymentToken], ctx.self, buy.party, []);
      }
      return Success(());
    }

    /** The requires of sellNFT, in their order. */
    method CheckSale(env: Env, sender: Account, buy: Order, sig: seq<Byte>) returns (r: Outcome)
      requires SeparatorOk()
      ensures r == SellChecks(ctx, View(), env, sender, buy, sig)
      ensures r.Success? <==> SaleAllowed(ctx, View(), env, sender, buy, sig)
      ensures r.Success? ==> buy.paymentToken in chain.tokens
    {
      hide Verify, SaleAllowed, SeparatorOk;
      SaleGuards(ctx, View(), env, sender, buy, sig);
      :- Require(!paused, ContractPaused);
      :- Require(buy.nftContract != ZERO, ZeroNftContract);
      :- Require(buy.party != ZERO, ZeroParty);
      :- Require(buy.paymentToken != ZERO, ZeroPaymentToken);
      if buy.royaltyAmount > 0 {
        :- Require(buy.royaltyPayTo != ZERO, ZeroRoyaltyPayee);
      }
      :- Require(buy.paymentToken in chain.tokens, NotAContract);
      var token := chain.tokens[buy.paymentToken];
      :- Require(Erc20.Allowance(token, buy.party, ctx.self) > buy.totalAmount, AllowanceTooSmall);
      :- Require(At(token.balances, buy.party) > buy.totalAmount, BalanceTooSmall);
      :- Require(buy.nftContract in chain.nfts, NotAContract);
      :- Require(ApprovedForAll(buy.nftContract, sender), NotApprovedForAll);
      var owner :- NftOwner(chain.nfts[buy.nftContract], buy.nftTokenId);
      :- Require(owner == sender, NotNftOwner);
      :- Require(env.now >= buy.startsAt, NotStarted);
      :- Require(env.now < buy.expiresAt, Expired);
      var signed :- VerifyOrder(OrderEncoding.Buy, buy, sig);
      :- Require(signed, InvalidBuyerSignature);
      return Success(());
    }

    method SellNft(env: Env, sender: Account, buy: Order, sig: seq<Byte>) returns (r: Outcome)
      requires Valid()
      modifies `chain
      ensures Agrees(Sale(ctx, old(View()), env, sender, buy, sig), r)
      ensures r.Success? ==> SaleAllowed(ctx, old(View()), env, sender, buy, sig)
                             && Settled(ctx, old(View()), View(), sender, buy, buy.royaltyAmount)
      ensures Sound(old(View()), buy) ==>
                (r.Success? <==> SaleAllowed(ctx, old(View()), env, sender, buy, sig)
                                 && Covered(ctx, old(View()), sender, buy, buy.royaltyAmount))
    {
      hide RegistryOk, SellChecks, Settle, SaleAllowed, Settled, Covered, Sound;
      if Sound(View(), buy) {
        SaleSettlesExactly(ctx, View(), env, sender, buy, sig);
      }
      var _ :- CheckSale(env, sender, buy, sig);
      r := SettleInTokens(sender, buy, buy.royaltyAmount);
      if r.Success? {
        SaleSettles(ctx, old(View()), env, sender, buy, sig);
        SettledSaleWasAllowed(ctx, old(View()), env, sender, buy, sig);
      }
    }

    /** The requires of exchangeNFTauction before the signatures, in their order. */
    method CheckTerms(sender: Account, sell: Order, buy: Order, minBid: Uint256) returns (r: Outcome)
      ensures r == AuctionTerms(View(), sender, sell, buy, minBid)
    {
      if !IsAdmin(sender) {
        return Failure(Unauthorized);
      }
      :- Require(!paused, ContractPaused);
      :- Require(sell.party != ZERO, ZeroParty);
      :- Require(buy.party != ZERO, ZeroParty);
      if sell.royaltyAmount > 0 {
        :- Require(buy.royaltyPayTo != ZERO, ZeroRoyaltyPayee);
      }
      :- Require(sell.nftContract != ZERO, ZeroNftContract);
      :- Require(sell.nftContract == buy.nftContract, NftMismatch);
      :- Require(sell.nftTokenId == buy.nftTokenId, NftMismatch);
      :- Require(buy.paymentToken != ZERO, ZeroPaymentToken);
      :- Require(sell.paymentToken == buy.paymentToken, TokenMismatch);
      :- Require(buy.totalAmount >= minBid, BelowMinimumBid);
      :- Require(buy.totalAmount >= sell.totalAmount, BelowAskingPrice);
      return Success(());
    }

    /** All its requires. */
    method CheckAuction(sender: Account, sell: Order, buy: Order, minBid: Uint256,
                        sellerSig: seq<Byte>, buyerSig: seq<Byte>) returns (r: Outcome)
      requires SeparatorOk()
      ensures r == AuctionChecks(ctx, View(), sender, sell, buy, minBid, sellerSig, buyerSig)
      ensures r.Success? <==> AuctionAllowed(ctx, View(), sender, sell, buy, minBid, sellerSig, buyerSig)
      ensures r.Success? ==> buy.paymentToken in chain.tokens
    {
      hide Verify, AuctionAllowed, SeparatorOk, AuctionTerms;
      AuctionGuards(ctx, View(), sender, sell, buy, minBid, sellerSig, buyerSig);
      var _ :- CheckTerms(sender, sell, buy, minBid);
      var sold :- VerifyOrder(Sell, sell, sellerSig);
      :- Require(sold, InvalidSellerSignature);
      var bought :- VerifyOrder(OrderEncoding.Buy, buy, buyerSig);
      :- Require(bought, InvalidBuyerSignature);
      :- Require(sell.nftContract in chain.nfts, NotAContract);
      :- Require(ApprovedForAll(sell.nftContract, sell.party), NotApprovedForAll);
      var owner :- NftOwner(chain.nfts[sell.nftContract], sell.nftTokenId);
      :- Require(owner == sell.party, NotNftOwner);
      :- Require(buy.paymentToken in chain.tokens, NotAContract);
      var token := chain.tokens[buy.paymentToken];
      :- Require(Erc20.Allowance(token, buy.party, ctx.self) > buy.totalAmount, AllowanceTooSmall);
      :- Require(At(token.balances, buy.party) > buy.totalAmount, BalanceTooSmall);
      return Success(());
    }

    method ExchangeNftAuction(env: Env, sender: Account, sell: Order, buy: Order, minBid: Uint256,
                              sellerSig: seq<Byte>, buyerSig: seq<Byte>) returns (r: Outcome)
      requires Valid()
      modifies `chain
      ensures Agrees(Auction(ctx, old(View()), sender, sell, buy, minBid, sellerSig, buyerSig), r)
      ensures r.Success? ==> AuctionAllowed(ctx, old(View()), sender, sell, buy, minBid, sellerSig, buyerSig)
                             && Settled(ctx, old(View()), View(), sell.party, buy, sell.royaltyAmount)
      ensures Sound(old(View()), buy) ==>
                (r.Success? <==> AuctionAllowed(ctx, old(View()), sender, sell, buy, minBid, sellerSig, buyerSig)
                                 && Covered(ctx, old(View()), sell.party, buy, sell.royaltyAmount))
    {
      hide RegistryOk, AuctionChecks, Settle, AuctionAllowed, Settled, Covered, Sound;
      if Sound(View(), buy) {
        AuctionSettlesExactly(ctx, View(), env, sender, sell, buy, minBid, sellerSig, buyerSig);
      }
      var _ :- CheckAuction(sender, sell, buy, minBid, sellerSig, buyerSig);
      r := SettleInTokens(sell.party, buy, sell.royaltyAmount);
      if r.Success? {
        AuctionSettles(ctx, old(View()), env, sender, sell, buy, minBid, sellerSig, buyerSig);
        SettledAuctionWasAllowed(ctx, old(View()), env, sender, sell, buy, minBid, sellerSig, buyerSig);
      }
    }

    /** The call that `step` makes, with no way back yet. */
    method Dispatch(step: Step) returns (r: Outcome)
      requires Valid()
      modifies this
      ensures Agrees(Apply(ctx, old(View()), step), r)
    {
      hide RegistryOk, Purchase, Sale, Auction;
      var env, sender := step.env, step.sender;
      match step.action
      case AddAdmin(account) => r := AddAdmin(env, sender, account);
      case DeleteAdmin(account) => r := DeleteAdmin(env, sender, account);
      case PauseContract => r := PauseContract(env, sender);
      case UnpauseContract => r := UnpauseContract(env, sender);
      case WithdrawEth(to, amount) => r := WithdrawEth(env, sender, to, amount);
      case WithdrawErc20(contract, to, amount) => r := WithdrawErc20(env, sender, contract, to, amount);
      case BuyNft(value, sell, sig) => r := BuyNft(env, sender, value, sell, sig);
      case SellNft(buy, sig) => r := SellNft(env, sender, buy, sig);
      case ExchangeAuction(sell, buy, minBid, sellerSig, buyerSig) =>
        r := ExchangeNftAuction(env, sender, sell, buy, minBid, sellerSig, buyerSig);
      case CallNft(contract, call) => r := CallNft(sender, contract, call);
      case CallToken(contract, spend) => r := CallToken(sender, contract, spend);
      case SendCoins(to, amount) => r := SendCoins(env, sender, to, amount);
    }

    // ----- calls that other accounts make past the exchange; they only touch the world -----

    method CallNft(sender: Account, contract: Address, call: Erc721.Call) returns (r: Outcome)
      modifies `chain
      ensures forall env :: Agrees(Apply(ctx, old(View()), Step(env, sender, Action.CallNft(contract, call))), r)
    {
      if contract !in chain.nfts {
        return Failure(NotAContract);
      }
      var next := Erc721.Apply(chain.nfts[contract], Erc721.Msg(sender, call));
      if next.Failure? {
        return Failure(NftReverted(next.error));
      }
      chain := chain.(nfts := chain.nfts[contract := next.value]);
      return Success(());
    }

    method CallToken(sender: Account, contract: Address, spend: TokenCall) returns (r: Outcome)
      modifies `chain
      ensures forall env :: Agrees(Apply(ctx, old(View()), Step(env, sender, Action.CallToken(contract, spend))), r)
    {
      if contract !in chain.tokens {
        return Failure(NotAContract);
      }
      var token := chain.tokens[contract];
      var next;
      match spend {
        case Transfer(to, amount) => next := Erc20.Transfer(token, sender, to, amount);
        case Approve(spender, amount) => next := Success(Erc20.Approve(token, sender, spender, amount));
        case TransferFrom(from, to, amount) => next := Erc20.TransferFrom(token, sender, from, to, amount);
      }
      if next.Failure? {
        return Failure(TokenReverted(next.error));
      }
      chain := chain.(tokens := chain.tokens[contract := next.value]);
      return Success(());
    }

    method SendCoins(env: Env, sender: Account, to: Address, amount: Uint256) returns (r: Outcome)
      modifies `chain
      ensures Agrees(Apply(ctx, old(View()), Step(env, sender, Action.SendCoins(to, amount))), r)
    {
      var balance := At(chain.coins, sender);
      :- Require(amount <= balance, NotEnoughFunds);
      :- Require(to in env.accepting && to != ctx.self, PayeeRejects);
      chain := chain.(coins := chain.coins[sender := balance - amount]);
      chain := chain.(coins := chain.coins[to := At(chain.coins, to) + amount]);
      return Success(());
    }

    // ----- transactions -----

    /** A call commits or restores the world exactly; the registry stays consistent either way. */
    method Execute(step: Step) returns (r: Outcome)
      requires Valid()
      modifies this
      ensures Valid() && View() == Deliver(ctx, old(View()), step)
      ensures r.Success? == Apply(ctx, old(View()), step).Success?
      ensures r.Failure? ==> Apply(ctx, old(View()), step) == Failure(r.error)
    {
      hide RegistryOk, Apply;
      var before := (admins, allAdmins, adminCount, paused, chain);
      r := Dispatch(step);
      if r.Failure? {
        admins, allAdmins, adminCount, paused, chain := before.0, before.1, before.2, before.3, before.4;
      } else {
        StepRegistry(ctx, old(View()), step);
      }
    }

    method ExecuteAll(steps: seq<Step>)
      requires Valid()
      modifies this
      ensures Valid() && View() == Run(ctx, old(View()), steps)
    {
      hide RegistryOk, Deliver;
      var i := 0;
      while i < |steps|
        invariant i <= |steps| && Valid()
        invariant Run(ctx, View(), steps[i..]) == Run(ctx, old(View()), steps)
      {
        assert steps[i..][1..] == steps[i + 1..];
        var _ := Execute(steps[i]);
        i := i + 1;
      }
    }
  }
}
