/** Whole-run theorems about the world of the exchange: conservation, the native-coin ledger, the admin registry. */
module ExchangeRuns {
  import opened Wrappers
  import opened Evm
  import opened Sequences
  import opened Ledgers
  import opened Payments
  import opened Bytes
  import opened OrderEncoding
  import Erc20
  import Erc721
  import opened Erc721Runs
  import opened Erc721Theorems
  import opened ExchangeSpec
  import opened Settlement

  // ----- conservation -----

  /** The same coins and, token by token, the same supply. */
  ghost predicate SameTotals(was: Chain, now: Chain) {
    && Total(now.coins) == Total(was.coins)
    && now.tokens.Keys == was.tokens.Keys
    && forall c :: c in was.tokens ==> Total(now.tokens[c].balances) == Total(was.tokens[c].balances)
  }

  lemma TokenCallConserves(token: Erc20.Token, sender: Account, spend: TokenCall)
    ensures var r := match spend
              case Transfer(to, amount) => Erc20.Transfer(token, sender, to, amount)
              case Approve(spender, amount) => Success(Erc20.Approve(token, sender, spender, amount))
              case TransferFrom(from, to, amount) => Erc20.TransferFrom(token, sender, from, to, amount);
            r.Success? ==> Total(r.value.balances) == Total(token.balances)
  {
    match spend
    case Transfer(to, amount) => Erc20.TransferConserves(token, sender, to, amount);
    case Approve(_, _) =>
    case TransferFrom(from, to, amount) =>
      var allowance := Erc20.Allowance(token, from, sender);
      if amount <= allowance {
        Erc20.TransferConserves(Erc20.Approve(token, from, sender, allowance - amount), from, to, amount);
      }
  }

  lemma StepConserves(ctx: Context, st: State, step: Step)
    requires Apply(ctx, st, step).Success?
    ensures SameTotals(st.chain, Apply(ctx, st, step).value.chain)
  {
    hide Purchase, Sale, Auction, Total, Settled, Bought;
    match step.action {
      case WithdrawEth(to, amount) =>
        MoveCoinsConserves(st.chain.coins, ctx.self, to, amount);
      case WithdrawErc20(contract, to, amount) =>
        Erc20.TransferConserves(st.chain.tokens[contract], ctx.self, to, amount);
      case BuyNft(value, sell, sig) =>
        PurchaseSettles(ctx, st, step.env, step.sender, value, sell, sig);
        BoughtTotals(ctx, st, Apply(ctx, st, step).value, step.sender, sell);
      case SellNft(buy, sig) =>
        SaleSettles(ctx, st, step.env, step.sender, buy, sig);
        SettledTotals(ctx, st, Apply(ctx, st, step).value, step.sender, buy, buy.royaltyAmount);
      case ExchangeAuction(sell, buy, minBid, sellerSig, buyerSig) =>
        AuctionSettles(ctx, st, step.env, step.sender, sell, buy, minBid, sellerSig, buyerSig);
        SettledTotals(ctx, st, Apply(ctx, st, step).value, sell.party, buy, sell.royaltyAmount);
      case CallToken(contract, spend) =>
        TokenCallConserves(st.chain.tokens[contract], step.sender, spend);
      case SendCoins(to, amount) =>
        MoveCoinsConserves(st.chain.coins, step.sender, to, amount);
      case _ =>
    }
  }

  lemma BoughtTotals(ctx: Context, st: State, st': State, buyer: Account, sell: Order)
    requires sell.nftContract in st.chain.nfts && Bought(ctx, st, st', buyer, sell)
    ensures SameTotals(st.chain, st'.chain)
  {
  }

  lemma SettledTotals(ctx: Context, st: State, st': State, seller: Address, buy: Order, royalty: nat)
    requires buy.nftContract in st.chain.nfts && buy.paymentToken in st.chain.tokens
    requires Settled(ctx, st, st', seller, buy, royalty)
    ensures SameTotals(st.chain, st'.chain)
  {
  }

  /** No run creates or destroys a coin or a unit of any token. */
  lemma {:induction false} RunConserves(ctx: Context, st: State, steps: seq<Step>)
    ensures SameTotals(st.chain, Run(ctx, st, steps).chain)
    decreases |steps|
  {
    hide Apply;
    if steps != [] {
      if Apply(ctx, st, steps[0]).Success? {
        StepConserves(ctx, st, steps[0]);
      }
      RunConserves(ctx, Deliver(ctx, st, steps[0]), steps[1..]);
    }
  }

  // ----- the exchange's coins -----

  /** What one committed step adds to the exchange's coin balance. */
  ghost function Margin(ctx: Context, st: State, step: Step): int {
    if Apply(ctx, st, step).Failure? then 0
    else match step.action
      case BuyNft(_, sell, _) => sell.totalAmount - sell.sellerAmount - sell.royaltyAmount
      case WithdrawEth(_, amount) => -(amount as int)
      case _ => 0
  }

  ghost function NetMargin(ctx: Context, st: State, steps: seq<Step>): int
    decreases |steps|
  {
    if steps == [] then 0 else Margin(ctx, st, steps[0]) + NetMargin(ctx, Deliver(ctx, st, steps[0]), steps[1..])
  }

  lemma StepMargin(ctx: Context, st: State, step: Step)
    requires step.sender != ctx.self && Apply(ctx, st, step).Success?
    ensures At(Apply(ctx, st, step).value.chain.coins, ctx.self) == At(st.chain.coins, ctx.self) + Margin(ctx, st, step)
  {
    hide Purchase, Sale, Auction;
    match step.action {
      case BuyNft(value, sell, sig) =>
        PurchasePayees(ctx, st, step.env, step.sender, value, sell, sig);
        PurchaseSettles(ctx, st, step.env, step.sender, value, sell, sig);
      case SellNft(buy, sig) =>
        SaleSettles(ctx, st, step.env, step.sender, buy, sig);
      case ExchangeAuction(sell, buy, minBid, sellerSig, buyerSig) =>
        AuctionSettles(ctx, st, step.env, step.sender, sell, buy, minBid, sellerSig, buyerSig);
      case _ =>
    }
  }

  /** The exchange's balance is what it started with plus the margins of settled purchases less the withdrawals. */
  lemma {:induction false} CoinLedger(ctx: Context, st: State, steps: seq<Step>)
    requires forall s :: s in steps ==> s.sender != ctx.self
    ensures At(Run(ctx, st, steps).chain.coins, ctx.self) == At(st.chain.coins, ctx.self) + NetMargin(ctx, st, steps)
    decreases |steps|
  {
    hide Apply, Margin;
    if steps != [] {
      assert steps[0] in steps;
      if Apply(ctx, st, steps[0]).Success? {
        StepMargin(ctx, st, steps[0]);
      } else {
        FailedMargin(ctx, st, steps[0]);
      }
      CoinLedger(ctx, Deliver(ctx, st, steps[0]), steps[1..]);
    }
  }

  lemma FailedMargin(ctx: Context, st: State, step: Step)
    requires Apply(ctx, st, step).Failure?
    ensures Margin(ctx, st, step) == 0
  {
    hide Apply;
  }

  /** The fees of the purchases that a run settles. */
  ghost function Fees(ctx: Context, st: State, steps: seq<Step>): nat
    decreases |steps|
  {
    if steps == [] then 0
    else (if steps[0].action.BuyNft? && Apply(ctx, st, steps[0]).Success? then steps[0].action.sell.feeAmount else 0)
         + Fees(ctx, Deliver(ctx, st, steps[0]), steps[1..])
  }

  /** The coins that a run withdraws. */
  ghost function Withdrawn(ctx: Context, st: State, steps: seq<Step>): nat
    decreases |steps|
  {
    if steps == [] then 0
    else (if steps[0].action.WithdrawEth? && Apply(ctx, st, steps[0]).Success? then steps[0].action.amount else 0)
         + Withdrawn(ctx, Deliver(ctx, st, steps[0]), steps[1..])
  }

  predicate Balanced(step: Step) {
    step.action.BuyNft? ==>
      var sell := step.action.sell;
      sell.sellerAmount + sell.feeAmount + sell.royaltyAmount == sell.totalAmount
  }

  /** Every sell order that settles adds up; what reverting calls carry does not matter. */
  ghost predicate SettledAreBalanced(ctx: Context, st: State, steps: seq<Step>)
    decreases |steps|
  {
    steps == [] || ((Apply(ctx, st, steps[0]).Success? ==> Balanced(steps[0]))
                    && SettledAreBalanced(ctx, Deliver(ctx, st, steps[0]), steps[1..]))
  }

  /** If every settled sell order adds up, the exchange holds exactly the fees it earned and has not withdrawn. */
  lemma FeesLessWithdrawals(ctx: Context, st: State, steps: seq<Step>)
    requires SettledAreBalanced(ctx, st, steps)
    requires forall s :: s in steps ==> s.sender != ctx.self
    ensures At(Run(ctx, st, steps).chain.coins, ctx.self)
            == At(st.chain.coins, ctx.self) + Fees(ctx, st, steps) - Withdrawn(ctx, st, steps)
  {
    CoinLedger(ctx, st, steps);
    BalancedMargins(ctx, st, steps);
  }

  lemma {:induction false} BalancedMargins(ctx: Context, st: State, steps: seq<Step>)
    requires SettledAreBalanced(ctx, st, steps)
    ensures NetMargin(ctx, st, steps) == Fees(ctx, st, steps) - Withdrawn(ctx, st, steps)
    decreases |steps|
  {
    hide Apply;
    if steps != [] {
      BalancedMargins(ctx, Deliver(ctx, st, steps[0]), steps[1..]);
    }
  }

  // ----- the administrators -----

  /** Somebody is an admin, every admin is listed, and the counter is the length of the list. */
  ghost predicate RegistryOk(st: State) {
    && st.admins != {}
    && (forall a :: a in st.admins ==> a in st.allAdmins)
    && st.adminCount == |st.allAdmins| <= MAX_UINT16
  }

  lemma RemoveElementMultiset<T>(s: seq<T>, x: T)
    requires x in s
    ensures multiset(RemoveElement(s, x)) == multiset(s) - multiset{x}
    ensures |RemoveElement(s, x)| == |s| - 1
    ensures forall y :: y in s && y != x ==> y in RemoveElement(s, x)
  {
    SwapRemoveMultiset(s, FirstIndex(s, x));
    forall y | y in s && y != x
      ensures y in RemoveElement(s, x)
    {
      assert y in multiset(s) - multiset{x};
    }
  }

  /** The number of times a run registers an account that already is an admin. */
  ghost function DuplicateAdds(ctx: Context, st: State, steps: seq<Step>): nat
    decreases |steps|
  {
    if steps == [] then 0
    else (if IsDuplicateAdd(ctx, st, steps[0]) then 1 else 0)
         + DuplicateAdds(ctx, Deliver(ctx, st, steps[0]), steps[1..])
  }

  ghost predicate IsDuplicateAdd(ctx: Context, st: State, step: Step) {
    step.action.AddAdmin? && Apply(ctx, st, step).Success? && step.action.account in st.admins
  }

  lemma AddKeepsRegistry(st: State, st': State, account: Address)
    requires RegistryOk(st) && st.adminCount < MAX_UINT16
    requires st'.admins == st.admins + {account} && st'.allAdmins == st.allAdmins + [account]
    requires st'.adminCount == st.adminCount + 1
    ensures RegistryOk(st') && |st'.allAdmins| == |st.allAdmins| + 1
    ensures |st'.admins| == |st.admins| + if account in st.admins then 0 else 1
  {
    if account in st.admins {
      assert st'.admins == st.admins;
    }
  }

  lemma DeleteKeepsRegistry(st: State, st': State, sender: Address, account: Address)
    requires RegistryOk(st) && sender in st.admins && account in st.admins && sender != account
    requires st'.admins == st.admins - {account} && st'.allAdmins == RemoveElement(st.allAdmins, account)
    requires st'.adminCount == st.adminCount - 1
    ensures RegistryOk(st') && |st'.allAdmins| == |st.allAdmins| - 1 && |st'.admins| == |st.admins| - 1
  {
    hide RemoveElement;
    assert sender in st'.admins;
    RemoveElementMultiset(st.allAdmins, account);
  }

  lemma StepRegistry(ctx: Context, st: State, step: Step)
    requires RegistryOk(st) && Apply(ctx, st, step).Success?
    ensures var st' := Apply(ctx, st, step).value;
            && RegistryOk(st')
            && |st'.allAdmins| - |st'.admins|
               == |st.allAdmins| - |st.admins| + (if IsDuplicateAdd(ctx, st, step) then 1 else 0)
  {
    hide Purchase, Sale, Auction, RemoveElement, RegistryOk;
    match step.action {
      case AddAdmin(account) =>
        AddKeepsRegistry(st, Apply(ctx, st, step).value, account);
      case DeleteAdmin(account) =>
        RegistryIsNotEmpty(st);
        DeleteKeepsRegistry(st, Apply(ctx, st, step).value, step.sender, account);
      case BuyNft(value, sell, sig) =>
        PurchaseSettles(ctx, st, step.env, step.sender, value, sell, sig);
      case SellNft(buy, sig) =>
        SaleSettles(ctx, st, step.env, step.sender, buy, sig);
      case ExchangeAuction(sell, buy, minBid, sellerSig, buyerSig) =>
        AuctionSettles(ctx, st, step.env, step.sender, sell, buy, minBid, sellerSig, buyerSig);
      case _ =>
        assert Apply(ctx, st, step).value == st.(paused := Apply(ctx, st, step).value.paused,
                                                 chain := Apply(ctx, st, step).value.chain);
    }
    if !step.action.AddAdmin? && !step.action.DeleteAdmin? {
      RegistryIgnoresTheWorld(st, Apply(ctx, st, step).value);
    }
  }

  lemma RegistryIsNotEmpty(st: State)
    requires RegistryOk(st)
    ensures st.adminCount > 0
  {
    var a :| a in st.admins;
    assert a in st.allAdmins;
  }

  /** The registry depends on its own fields only. */
  lemma RegistryIgnoresTheWorld(st: State, st': State)
    requires RegistryOk(st)
    requires st'.admins == st.admins && st'.allAdmins == st.allAdmins && st'.adminCount == st.adminCount
    ensures RegistryOk(st')
  {
  }

  lemma {:induction false} RunRegistry(ctx: Context, st: State, steps: seq<Step>)
    requires RegistryOk(st)
    ensures var st' := Run(ctx, st, steps);
            && RegistryOk(st')
            && |st'.allAdmins| - |st'.admins| == |st.allAdmins| - |st.admins| + DuplicateAdds(ctx, st, steps)
    decreases |steps|
  {
    hide Apply, RegistryOk;
    if steps != [] {
      if Apply(ctx, st, steps[0]).Success? {
        StepRegistry(ctx, st, steps[0]);
      }
      RunRegistry(ctx, Deliver(ctx, st, steps[0]), steps[1..]);
    }
  }

  /**
   From deployment on there is always an admin, all admins are listed and counted, and the list is an exact,
   repetition-free list of the admins if and only if no addAdmin ever named an account that already was one.
   */
  lemma RegistryOverRuns(ctx: Context, admin: Address, chain: Chain, steps: seq<Step>)
    ensures var st := Run(ctx, Initial(admin, chain), steps);
            && RegistryOk(st)
            && ((Distinct(st.allAdmins) && ToSet(st.allAdmins) == st.admins)
                <==> DuplicateAdds(ctx, Initial(admin, chain), steps) == 0)
  {
    RunRegistry(ctx, Initial(admin, chain), steps);
    var st := Run(ctx, Initial(admin, chain), steps);
    if Distinct(st.allAdmins) && ToSet(st.allAdmins) == st.admins {
      DistinctCardinality(st.allAdmins);
    } else if |st.allAdmins| == |st.admins| {
      ExactCover(st.allAdmins, st.admins);
    }
  }

  // ----- the collections -----

  /** The transfer that the exchange makes in a trade. */
  ghost function TradeTransfer(ctx: Context, from: Address, to: Address, id: Uint256): Erc721.Msg {
    Erc721.Msg(ctx.self, Erc721.Call.TransferFrom(from, to, id))
  }

  /** The calls that one committed step makes on collection `c`. */
  ghost function NftCalls(ctx: Context, st: State, step: Step, c: Address): seq<Erc721.Msg> {
    if Apply(ctx, st, step).Failure? then []
    else match step.action
      case CallNft(contract, call) => if contract == c then [Erc721.Msg(step.sender, call)] else []
      case BuyNft(_, sell, _) =>
        if sell.nftContract == c then [TradeTransfer(ctx, sell.party, step.sender, sell.nftTokenId)] else []
      case SellNft(buy, _) =>
        if buy.nftContract == c then [TradeTransfer(ctx, step.sender, buy.party, buy.nftTokenId)] else []
      case ExchangeAuction(sell, buy, _, _, _) =>
        if buy.nftContract == c then [TradeTransfer(ctx, sell.party, buy.party, buy.nftTokenId)] else []
      case _ => []
  }

  ghost function NftHistory(ctx: Context, st: State, steps: seq<Step>, c: Address): seq<Erc721.Msg>
    decreases |steps|
  {
    if steps == [] then []
    else NftCalls(ctx, st, steps[0], c) + NftHistory(ctx, Deliver(ctx, st, steps[0]), steps[1..], c)
  }

  lemma MoveNftIsACall(ctx: Context, chain: Chain, contract: Address, from: Address, to: Address, id: Uint256)
    requires MoveNft(ctx, chain, contract, from, to, id).Success?
    ensures contract in chain.nfts
    ensures MoveNft(ctx, chain, contract, from, to, id).value
            == chain.(nfts := chain.nfts[contract :=
                 Erc721.Deliver(chain.nfts[contract], TradeTransfer(ctx, from, to, id))])
  {
    hide Erc721.Apply;
  }

  lemma StepNft(ctx: Context, st: State, step: Step, c: Address)
    requires c in st.chain.nfts && Apply(ctx, st, step).Success?
    ensures var chain := Apply(ctx, st, step).value.chain;
            c in chain.nfts && chain.nfts[c] == Erc721.Run(st.chain.nfts[c], NftCalls(ctx, st, step, c))
  {
    hide Erc721.Apply, MoveNft, PayCoins, BuyChecks, SellChecks, AuctionChecks, PayTokens;
    var nft := st.chain.nfts[c];
    match step.action {
      case BuyNft(value, sell, sig) =>
        var funded := st.chain.(coins := MoveCoins(st.chain.coins, step.sender, ctx.self, value));
        MoveNftIsACall(ctx, funded, sell.nftContract, sell.party, step.sender, sell.nftTokenId);
        SingleCall(nft, TradeTransfer(ctx, sell.party, step.sender, sell.nftTokenId));
      case SellNft(buy, sig) =>
        SettleNft(ctx, st, step.sender, buy, TokenPayments(ctx, step.sender, buy, buy.royaltyAmount));
        SingleCall(nft, TradeTransfer(ctx, step.sender, buy.party, buy.nftTokenId));
      case ExchangeAuction(sell, buy, minBid, sellerSig, buyerSig) =>
        SettleNft(ctx, st, sell.party, buy, TokenPayments(ctx, sell.party, buy, sell.royaltyAmount));
        SingleCall(nft, TradeTransfer(ctx, sell.party, buy.party, buy.nftTokenId));
      case CallNft(contract, call) =>
        SingleCall(nft, Erc721.Msg(step.sender, call));
      case _ =>
    }
  }

  lemma SettleNft(ctx: Context, st: State, seller: Address, buy: Order, ps: seq<Payment>)
    requires Settle(ctx, st, seller, buy, ps).Success?
    ensures buy.nftContract in st.chain.nfts
    ensures Settle(ctx, st, seller, buy, ps).value.chain.nfts
            == st.chain.nfts[buy.nftContract :=
                 Erc721.Deliver(st.chain.nfts[buy.nftContract], TradeTransfer(ctx, seller, buy.party, buy.nftTokenId))]
  {
    hide Erc721.Apply, MoveNft;
    MoveNftIsACall(ctx, st.chain, buy.nftContract, seller, buy.party, buy.nftTokenId);
  }

  lemma SingleCall(nft: Erc721.State, m: Erc721.Msg)
    ensures Erc721.Run(nft, [m]) == Erc721.Deliver(nft, m)
  {
    hide Erc721.Deliver;
    assert [m][1..] == [];
  }

  /**
   In every run of the world each collection goes through a run of its own calls, trades included, so every theorem
   about collections holds of the traded ones.
   */
  lemma {:induction false} CollectionsKeepTheirHistory(ctx: Context, st: State, steps: seq<Step>, c: Address)
    requires c in st.chain.nfts
    ensures var chain := Run(ctx, st, steps).chain;
            c in chain.nfts && chain.nfts[c] == Erc721.Run(st.chain.nfts[c], NftHistory(ctx, st, steps, c))
    decreases |steps|
  {
    hide Apply, NftCalls, Erc721.Run;
    if steps != [] {
      var next := Deliver(ctx, st, steps[0]);
      if Apply(ctx, st, steps[0]).Success? {
        StepNft(ctx, st, steps[0], c);
      } else {
        NoCallsByFailure(ctx, st, steps[0], c);
      }
      CollectionsKeepTheirHistory(ctx, next, steps[1..], c);
      RunConcat(st.chain.nfts[c], NftCalls(ctx, st, steps[0], c), NftHistory(ctx, next, steps[1..], c));
    } else {
      EmptyRun(st.chain.nfts[c]);
    }
  }

  lemma EmptyRun(nft: Erc721.State)
    ensures Erc721.Run(nft, []) == nft
  {
  }

  lemma NoCallsByFailure(ctx: Context, st: State, step: Step, c: Address)
    requires Apply(ctx, st, step).Failure?
    ensures NftCalls(ctx, st, step, c) == []
    ensures Erc721.Run(st.chain.nfts[c], NftCalls(ctx, st, step, c)) == st.chain.nfts[c]
    requires c in st.chain.nfts
  {
    hide Apply;
  }

  // ----- no token leaves a seller without its consent -----

  /** The step is the owner's own sale of token `t`, or carries a sell order for it that the owner has signed. */
  ghost predicate Consents(ctx: Context, step: Step, c: Address, t: Uint256, owner: Address) {
    match step.action
    case SellNft(buy, _) => step.sender == owner && buy.nftContract == c && buy.nftTokenId == t
    case BuyNft(_, sell, sig) => SignedOffer(ctx, sell, sig, c, t, owner)
    case ExchangeAuction(sell, _, _, sellerSig, _) => SignedOffer(ctx, sell, sellerSig, c, t, owner)
    case _ => false
  }

  ghost predicate SignedOffer(ctx: Context, sell: Order, sig: seq<Byte>, c: Address, t: Uint256, owner: Address) {
    sell.nftContract == c && sell.nftTokenId == t && sell.party == owner && Signed(ctx, Sell, sell, sig)
  }

  /** No step with the owner's consent commits. */
  ghost predicate NoConsent(ctx: Context, st: State, steps: seq<Step>, c: Address, t: Uint256, owner: Address)
    decreases |steps|
  {
    steps == [] || (!(Apply(ctx, st, steps[0]).Success? && Consents(ctx, steps[0], c, t, owner))
                    && NoConsent(ctx, Deliver(ctx, st, steps[0]), steps[1..], c, t, owner))
  }

  /** Callers that have no power over token `t` make this call, and so do all that its receivers call. */
  ghost predicate Powerless(step: Step, c: Address, was: Erc721.State, t: Uint256)
    requires t in was.owner
  {
    step.action.CallNft? && step.action.nft == c ==>
      SenderObeys(Erc721.Msg(step.sender, step.action.call), (a: Account) => !Erc721.Controls(was, a, t))
  }

  lemma OthersAreKept(nft: Erc721.State, to: Account, id: Uint256, t: Uint256)
    requires t in nft.owner
    ensures SameControl(nft, t, nft)
    ensures id != t ==> SameControl(nft, t, NftMoved(nft, to, id))
  {
  }

  /** A step that makes no direct call on the collection leaves a token to its owner, or has the owner's consent. */
  lemma TradeNeedsConsent(ctx: Context, st: State, step: Step, c: Address, t: Uint256)
    requires c in st.chain.nfts && t in st.chain.nfts[c].owner
    requires Apply(ctx, st, step).Success? && !(step.action.CallNft? && step.action.nft == c)
    ensures var nft, nfts' := st.chain.nfts[c], Apply(ctx, st, step).value.chain.nfts;
            c in nfts' && (SameControl(nft, t, nfts'[c])
                           || ((nft.owner[t] as Address, ctx.self as Address) in nft.operators
                               && Consents(ctx, step, c, t, nft.owner[t])))
  {
    hide Purchase, Sale, Auction, Signed, SameControl, NftMoved;
    var nft := st.chain.nfts[c];
    OthersAreKept(nft, step.sender, t, t);
    match step.action {
      case BuyNft(value, sell, sig) =>
        OthersAreKept(nft, step.sender, sell.nftTokenId, t);
        PurchaseSettles(ctx, st, step.env, step.sender, value, sell, sig);
        SettledPurchaseWasAllowed(ctx, st, step.env, step.sender, value, sell, sig);
      case SellNft(buy, sig) =>
        SaleSettles(ctx, st, step.env, step.sender, buy, sig);
        OthersAreKept(nft, buy.party, buy.nftTokenId, t);
        SettledSaleWasAllowed(ctx, st, step.env, step.sender, buy, sig);
      case ExchangeAuction(sell, buy, minBid, sellerSig, buyerSig) =>
        AuctionSettles(ctx, st, step.env, step.sender, sell, buy, minBid, sellerSig, buyerSig);
        OthersAreKept(nft, buy.party, buy.nftTokenId, t);
        SettledAuctionWasAllowed(ctx, st, step.env, step.sender, sell, buy, minBid, sellerSig, buyerSig);
      case _ =>
    }
  }

  /** A call on the collection by accounts without power over the token. */
  lemma PowerlessCall(ctx: Context, st: State, step: Step, c: Address, was: Erc721.State, t: Uint256)
    requires t in was.owner && c in st.chain.nfts && SameControl(was, t, st.chain.nfts[c])
    requires step.action.CallNft? && step.action.nft == c && Apply(ctx, st, step).Success?
    requires Powerless(step, c, was, t)
    ensures c in Apply(ctx, st, step).value.chain.nfts
    ensures SameControl(was, t, Apply(ctx, st, step).value.chain.nfts[c])
  {
    hide Erc721.Apply, Erc721.Controls, SameControl;
    var m := Erc721.Msg(step.sender, step.action.call);
    ControlKept(was, t);
    RunKeeps(s => SameControl(was, t, s), (a: Account) => !Erc721.Controls(was, a, t), st.chain.nfts[c], [m]);
    SingleCall(st.chain.nfts[c], m);
  }

  /**
   No run of the world, with purchases, sales and auctions by anyone, takes a token from its owner without the owner's
   consent: if the accounts with power over it stay away from the collection, then either the owner never made the
   exchange an operator, or a sale of the owner's own or a sell order with the owner's signature must have settled.
   */
  lemma {:induction false} TradesRespectOwners(ctx: Context, st: State, steps: seq<Step>, c: Address,
                                               was: Erc721.State, t: Uint256)
    requires t in was.owner && c in st.chain.nfts && SameControl(was, t, st.chain.nfts[c])
    requires forall s :: s in steps ==> Powerless(s, c, was, t)
    requires (was.owner[t] as Address, ctx.self as Address) in was.operators ==>
               NoConsent(ctx, st, steps, c, t, was.owner[t])
    ensures var chain := Run(ctx, st, steps).chain;
            c in chain.nfts && SameControl(was, t, chain.nfts[c])
    decreases |steps|
  {
    hide Apply, Consents, Powerless;
    if steps != [] {
      var step, next := steps[0], Deliver(ctx, st, steps[0]);
      assert step in steps;
      if Apply(ctx, st, step).Success? {
        StepRespectsOwner(ctx, st, step, c, was, t);
      }
      TradesRespectOwners(ctx, next, steps[1..], c, was, t);
    }
  }

  lemma StepRespectsOwner(ctx: Context, st: State, step: Step, c: Address, was: Erc721.State, t: Uint256)
    requires t in was.owner && c in st.chain.nfts && SameControl(was, t, st.chain.nfts[c])
    requires Apply(ctx, st, step).Success? && Powerless(step, c, was, t)
    requires (was.owner[t] as Address, ctx.self as Address) in was.operators ==>
               !Consents(ctx, step, c, t, was.owner[t])
    ensures c in Apply(ctx, st, step).value.chain.nfts
    ensures SameControl(was, t, Apply(ctx, st, step).value.chain.nfts[c])
  {
    hide Apply, Consents, Powerless;
    if step.action.CallNft? && step.action.nft == c {
      PowerlessCall(ctx, st, step, c, was, t);
    } else {
      TradeNeedsConsent(ctx, st, step, c, t);
    }
  }

  // ----- no token is taken from a buyer beyond its signed orders -----

  /** The order names `buyer` and pays with token `c`, and the buyer has signed it. */
  ghost predicate SignedBid(ctx: Context, buy: Order, sig: seq<Byte>, c: Address, buyer: Address) {
    buy.paymentToken == c && buy.party == buyer && Signed(ctx, OrderEncoding.Buy, buy, sig)
  }

  /** What a committed step takes from `buyer` on the strength of its signed order. */
  ghost function Charge(ctx: Context, st: State, step: Step, c: Address, buyer: Address): nat {
    if Apply(ctx, st, step).Failure? then 0
    else match step.action
      case SellNft(buy, sig) =>
        if SignedBid(ctx, buy, sig, c, buyer) then buy.sellerAmount + buy.feeAmount + buy.royaltyAmount else 0
      case ExchangeAuction(sell, buy, _, _, buyerSig) =>
        if SignedBid(ctx, buy, buyerSig, c, buyer) then buy.sellerAmount + buy.feeAmount + sell.royaltyAmount else 0
      case _ => 0
  }

  ghost function Charges(ctx: Context, st: State, steps: seq<Step>, c: Address, buyer: Address): nat
    decreases |steps|
  {
    if steps == [] then 0
    else Charge(ctx, st, steps[0], c, buyer) + Charges(ctx, Deliver(ctx, st, steps[0]), steps[1..], c, buyer)
  }

  /** A direct call on the token comes neither from the account nor from one of its spenders. */
  predicate NotSpending(step: Step, c: Address, was: Erc20.Token, account: Address) {
    step.action.CallToken? && step.action.token == c ==>
      step.sender != account && Erc20.Allowance(was, account, step.sender) == 0
  }

  ghost predicate NoNewSpenders(was: Erc20.Token, now: Erc20.Token, account: Address) {
    forall s: Address :: Erc20.Allowance(now, account, s) <= Erc20.Allowance(was, account, s)
  }

  /** From `t` to `t'` the account lost at most `charge`, and its allowance to the exchange shrank by exactly that. */
  ghost predicate OnlyCharged(ctx: Context, t: Erc20.Token, t': Erc20.Token, account: Address, charge: nat) {
    && At(t.balances, account) <= At(t'.balances, account) + charge
    && Erc20.Allowance(t', account, ctx.self) + charge == Erc20.Allowance(t, account, ctx.self)
  }

  lemma ForeignTokenCall(ctx: Context, was: Erc20.Token, token: Erc20.Token, sender: Account, spend: TokenCall,
                         account: Address)
    requires NoNewSpenders(was, token, account)
    requires sender != account && Erc20.Allowance(was, account, sender) == 0
    ensures var r := match spend
              case Transfer(to, amount) => Erc20.Transfer(token, sender, to, amount)
              case Approve(spender, amount) => Success(Erc20.Approve(token, sender, spender, amount))
              case TransferFrom(from, to, amount) => Erc20.TransferFrom(token, sender, from, to, amount);
            r.Success? ==> OnlyCharged(ctx, token, r.value, account, 0) && NoNewSpenders(token, r.value, account)
  {
  }

  lemma SettledCharges(ctx: Context, st: State, st': State, seller: Address, buy: Order, royalty: nat,
                       c: Address, account: Address)
    requires buy.nftContract in st.chain.nfts && buy.paymentToken in st.chain.tokens && c in st.chain.tokens
    requires Settled(ctx, st, st', seller, buy, royalty) && account != ctx.self
    ensures c in st'.chain.tokens
    ensures var charge := if buy.party == account && buy.paymentToken == c
                          then buy.sellerAmount + buy.feeAmount + royalty else 0;
            && OnlyCharged(ctx, st.chain.tokens[c], st'.chain.tokens[c], account, charge)
            && NoNewSpenders(st.chain.tokens[c], st'.chain.tokens[c], account)
  {
  }

  lemma NothingCharged(ctx: Context, t: Erc20.Token, account: Address)
    ensures OnlyCharged(ctx, t, t, account, 0) && NoNewSpenders(t, t, account)
  {
  }

  /** A withdrawal only takes from the exchange. */
  lemma WithdrawalCharges(ctx: Context, t: Erc20.Token, to: Address, amount: nat, account: Address)
    requires account != ctx.self && Erc20.Transfer(t, ctx.self, to, amount).Success?
    ensures var t' := Erc20.Transfer(t, ctx.self, to, amount).value;
            OnlyCharged(ctx, t, t', account, 0) && NoNewSpenders(t, t', account)
  {
  }

  lemma StepCharges(ctx: Context, st: State, step: Step, c: Address, was: Erc20.Token, account: Address)
    requires c in st.chain.tokens && account != ctx.self && NoNewSpenders(was, st.chain.tokens[c], account)
    requires NotSpending(step, c, was, account) && Apply(ctx, st, step).Success?
    ensures var tokens' := Apply(ctx, st, step).value.chain.tokens;
            && c in tokens'
            && OnlyCharged(ctx, st.chain.tokens[c], tokens'[c], account, Charge(ctx, st, step, c, account))
            && NoNewSpenders(st.chain.tokens[c], tokens'[c], account)
  {
    hide Purchase, Sale, Auction, Signed, Settled, OnlyCharged, NoNewSpenders, Erc20.Transfer, SendCoinsTo;
    var st' := Apply(ctx, st, step).value;
    NothingCharged(ctx, st.chain.tokens[c], account);
    match step.action {
      case WithdrawErc20(contract, to, amount) =>
        WithdrawalCharges(ctx, st.chain.tokens[contract], to, amount, account);
      case BuyNft(value, sell, sig) =>
        PurchaseSettles(ctx, st, step.env, step.sender, value, sell, sig);
      case SellNft(buy, sig) =>
        SaleSettles(ctx, st, step.env, step.sender, buy, sig);
        SettledSaleWasAllowed(ctx, st, step.env, step.sender, buy, sig);
        SettledCharges(ctx, st, st', step.sender, buy, buy.royaltyAmount, c, account);
      case ExchangeAuction(sell, buy, minBid, sellerSig, buyerSig) =>
        AuctionSettles(ctx, st, step.env, step.sender, sell, buy, minBid, sellerSig, buyerSig);
        SettledAuctionWasAllowed(ctx, st, step.env, step.sender, sell, buy, minBid, sellerSig, buyerSig);
        SettledCharges(ctx, st, st', sell.party, buy, sell.royaltyAmount, c, account);
      case CallToken(contract, spend) =>
        if contract == c {
          ForeignTokenCall(ctx, was, st.chain.tokens[c], step.sender, spend, account);
        }
      case _ =>
    }
  }

  /**
   Over every run an account that makes no call on a token, and whose spenders other than through the exchange make none
   either, loses units of it only through settled steps that carry its signed buy order, and at most the amounts charged
   there; they use up its allowance to the exchange exactly, so together they never exceed it.
   */
  lemma {:induction false} TradesRespectBuyers(ctx: Context, st: State, steps: seq<Step>, c: Address,
                                               was: Erc20.Token, account: Address)
    requires c in st.chain.tokens && account != ctx.self && NoNewSpenders(was, st.chain.tokens[c], account)
    requires forall s :: s in steps ==> NotSpending(s, c, was, account)
    ensures var tokens' := Run(ctx, st, steps).chain.tokens;
            && c in tokens'
            && OnlyCharged(ctx, st.chain.tokens[c], tokens'[c], account, Charges(ctx, st, steps, c, account))
    decreases |steps|
  {
    hide Apply, NotSpending, Charge;
    if steps != [] {
      var step := steps[0];
      assert step in steps;
      if Apply(ctx, st, step).Success? {
        StepCharges(ctx, st, step, c, was, account);
      } else {
        NoChargeByFailure(ctx, st, step, c, account);
      }
      TradesRespectBuyers(ctx, Deliver(ctx, st, step), steps[1..], c, was, account);
    }
  }

  lemma NoChargeByFailure(ctx: Context, st: State, step: Step, c: Address, account: Address)
    requires Apply(ctx, st, step).Failure?
    ensures Charge(ctx, st, step, c, account) == 0
  {
    hide Apply;
  }
}
