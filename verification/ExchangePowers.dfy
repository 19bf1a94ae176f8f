/**
 What the administrators of the exchange can do and nobody else: the registry, the pause switch, and taking coins or
 tokens out. Each is stated for one call, as a power that exactly the admins have, and over runs without their calls.
 */
module ExchangePowers {
  import opened Wrappers
  import opened Evm
  import opened Ledgers
  import opened Payments
  import opened Bytes
  import opened OrderEncoding
  import Erc20
  import Erc721
  import opened ExchangeSpec
  import opened Settlement
  import opened ExchangeRuns

  // ----- one call -----

  /** The registry and the switch are as before. */
  ghost predicate SameGovernment(was: State, now: State) {
    now.admins == was.admins && now.allAdmins == was.allAdmins && now.adminCount == was.adminCount
    && now.paused == was.paused
  }

  predicate Governs(action: Action) {
    action.AddAdmin? || action.DeleteAdmin? || action.PauseContract? || action.UnpauseContract?
  }

  predicate Withdraws(action: Action) {
    action.WithdrawEth? || action.WithdrawErc20?
  }

  /** A step about the registry, the switch or a withdrawal commits only if its sender is an admin at that moment. */
  lemma OnlyAdminsGovern(ctx: Context, st: State, step: Step)
    requires Apply(ctx, st, step).Success?
    ensures Governs(step.action) || Withdraws(step.action) ==> step.sender in st.admins
    ensures !Governs(step.action) ==> SameGovernment(st, Apply(ctx, st, step).value)
  {
    hide Purchase, Sale, Auction;
    match step.action {
      case BuyNft(value, sell, sig) =>
        PurchaseSettles(ctx, st, step.env, step.sender, value, sell, sig);
      case SellNft(buy, sig) =>
        SaleSettles(ctx, st, step.env, step.sender, buy, sig);
      case ExchangeAuction(sell, buy, minBid, sellerSig, buyerSig) =>
        AuctionSettles(ctx, st, step.env, step.sender, sell, buy, minBid, sellerSig, buyerSig);
      case _ =>
    }
  }

  /** What each administrative call does, to the registry and the switch and to nothing else. */
  lemma GovernmentCallsAreExact(ctx: Context, st: State, step: Step)
    requires Governs(step.action) && Apply(ctx, st, step).Success?
    ensures var st' := Apply(ctx, st, step).value;
            && st'.chain == st.chain
            && st'.paused == (step.action.PauseContract? || (st.paused && !step.action.UnpauseContract?))
            && (forall b: Address :: b in st'.admins <==>
                  if step.action.AddAdmin? && step.action.account == b then true
                  else if step.action.DeleteAdmin? && step.action.account == b then false
                  else b in st.admins)
  {
  }

  /** Exactly the admins can throw the switch, in both directions. */
  lemma PowerToPause(ctx: Context, st: State, a: Account)
    ensures a in st.admins
            <==> exists step: Step :: step.sender == a && Deliver(ctx, st, step).paused != st.paused
  {
    if a in st.admins {
      var step := Step(Env(0, {}), a, if st.paused then UnpauseContract else PauseContract);
      assert Deliver(ctx, st, step).paused != st.paused;
    }
    hide Apply;
    forall step: Step | step.sender == a && Apply(ctx, st, step).Success?
      ensures Apply(ctx, st, step).value.paused != st.paused ==> a in st.admins
    {
      OnlyAdminsGovern(ctx, st, step);
    }
  }

  /** Exactly the admins can register an account, until the counter is full. */
  lemma PowerToAddAdmin(ctx: Context, st: State, a: Account, b: Address)
    requires b !in st.admins && st.adminCount < MAX_UINT16
    ensures a in st.admins <==> exists step: Step :: step.sender == a && b in Deliver(ctx, st, step).admins
  {
    if a in st.admins {
      assert b in Deliver(ctx, st, Step(Env(0, {}), a, AddAdmin(b))).admins;
    }
    hide Apply;
    forall step: Step | step.sender == a && Apply(ctx, st, step).Success?
      ensures b in Apply(ctx, st, step).value.admins ==> a in st.admins
    {
      OnlyAdminsGovern(ctx, st, step);
    }
  }

  /** Exactly the other admins can remove one; nobody can remove itself. */
  lemma PowerToDeleteAdmin(ctx: Context, st: State, a: Account, b: Address)
    requires b in st.admins
    ensures a in st.admins && a != b
            <==> exists step: Step :: step.sender == a && b !in Deliver(ctx, st, step).admins
  {
    if a in st.admins && a != b {
      assert b !in Deliver(ctx, st, Step(Env(0, {}), a, DeleteAdmin(b))).admins;
    }
    hide Apply;
    forall step: Step | step.sender == a && Apply(ctx, st, step).Success? && b !in Apply(ctx, st, step).value.admins
      ensures a in st.admins && a != b
    {
      DeletionStep(ctx, st, step, b);
    }
  }

  lemma DeletionStep(ctx: Context, st: State, step: Step, b: Address)
    requires b in st.admins && Apply(ctx, st, step).Success? && b !in Apply(ctx, st, step).value.admins
    ensures step.sender in st.admins && step.sender != b
  {
    hide Purchase, Sale, Auction;
    OnlyAdminsGovern(ctx, st, step);
  }

  /**
   A withdrawal of coins is an admin's, is covered by the exchange's balance, and goes to an account that accepts it;
   then it commits. It takes the amount from the exchange, credits it to `to`, and touches nothing else.
   */
  lemma CoinWithdrawal(ctx: Context, st: State, env: Env, sender: Account, to: Address, amount: Uint256)
    ensures var r := Apply(ctx, st, Step(env, sender, WithdrawEth(to, amount)));
            && (r.Success? <==> && sender in st.admins && amount <= At(st.chain.coins, ctx.self)
                                && to in env.accepting && to != ctx.self)
            && (r.Success? ==>
                  && r.value == st.(chain := st.chain.(coins := r.value.chain.coins))
                  && forall a: Address :: At(r.value.chain.coins, a) ==
                       At(st.chain.coins, a) + (if a == to then amount else 0) - (if a == ctx.self then amount else 0))
  {
  }

  /** The same for tokens, which the exchange may also send to itself; a solvent token accepts what is covered. */
  lemma TokenWithdrawal(ctx: Context, st: State, env: Env, sender: Account, c: Address, to: Address, amount: Uint256)
    requires c in st.chain.tokens
    ensures var r := Apply(ctx, st, Step(env, sender, WithdrawErc20(c, to, amount)));
            var token := st.chain.tokens[c];
            && (Erc20.Solvent(token) ==>
                  (r.Success? <==> sender in st.admins && amount <= At(token.balances, ctx.self)))
            && (r.Success? ==>
                  && sender in st.admins && c in r.value.chain.tokens
                  && var token' := r.value.chain.tokens[c];
                  && r.value == st.(chain := st.chain.(tokens := st.chain.tokens[c := token']))
                  && token'.allowances == token.allowances
                  && forall a: Address :: At(token'.balances, a) ==
                       At(token.balances, a) + (if a == to then amount else 0) - (if a == ctx.self then amount else 0))
  {
    Erc20.TransferConserves(st.chain.tokens[c], ctx.self, to, amount);
  }

  /** Deployment leaves one admin and a running exchange. */
  lemma StartsWithOneAdmin(ctx: Context, admin: Address, chain: Chain, a: Account)
    ensures !Initial(admin, chain).paused
    ensures a == admin
            <==> exists step: Step :: step.sender == a && Deliver(ctx, Initial(admin, chain), step).paused
  {
    PowerToPause(ctx, Initial(admin, chain), a);
  }

  /** Orders by the zero address, and withdrawals beyond the balance, are refused for that reason. */
  lemma RefusalsNameTheReason(ctx: Context, st: State, env: Env, sender: Account, sell: Order, buy: Order,
                              value: Uint256, minBid: Uint256, sellerSig: seq<Byte>, buyerSig: seq<Byte>)
    requires !st.paused && sell.party == ZERO
    ensures sell.nftContract != ZERO && value <= At(st.chain.coins, sender) ==>
              Apply(ctx, st, Step(env, sender, BuyNft(value, sell, sellerSig))) == Failure(ZeroParty)
    ensures sender in st.admins ==>
              Apply(ctx, st, Step(env, sender, ExchangeAuction(sell, buy, minBid, sellerSig, buyerSig)))
              == Failure(ZeroParty)
  {
  }

  lemma UncoveredWithdrawal(ctx: Context, st: State, env: Env, sender: Account, c: Address, to: Address,
                            amount: Uint256)
    requires c in st.chain.tokens && sender in st.admins && At(st.chain.tokens[c].balances, ctx.self) < amount
    ensures Apply(ctx, st, Step(env, sender, WithdrawErc20(c, to, amount))) == Failure(NotEnoughFunds)
  {
  }

  // ----- runs without the admins -----

  /** The units of token `c` that a run withdraws. */
  ghost function TokensWithdrawn(ctx: Context, st: State, steps: seq<Step>, c: Address): nat
    decreases |steps|
  {
    if steps == [] then 0
    else TokensWithdrawnBy(ctx, st, steps[0], c) + TokensWithdrawn(ctx, Deliver(ctx, st, steps[0]), steps[1..], c)
  }

  ghost function TokensWithdrawnBy(ctx: Context, st: State, step: Step, c: Address): nat {
    if step.action.WithdrawErc20? && step.action.token == c && Apply(ctx, st, step).Success? then step.action.amount
    else 0
  }

  /** Nobody may spend the exchange's own tokens. */
  ghost predicate NoneAllowed(ctx: Context, token: Erc20.Token) {
    forall s: Address :: Erc20.Allowance(token, ctx.self, s) == 0
  }

  lemma TokenCallSpares(ctx: Context, token: Erc20.Token, sender: Account, spend: TokenCall)
    requires sender != ctx.self && NoneAllowed(ctx, token)
    ensures var r := match spend
              case Transfer(to, amount) => Erc20.Transfer(token, sender, to, amount)
              case Approve(spender, amount) => Success(Erc20.Approve(token, sender, spender, amount))
              case TransferFrom(from, to, amount) => Erc20.TransferFrom(token, sender, from, to, amount);
            r.Success? ==> Spared(ctx, token, r.value, 0)
  {
    match spend
    case Transfer(to, amount) =>
      AllowancesKept(ctx, token, sender, to, amount);
    case Approve(spender, amount) =>
      var approved := Erc20.Approve(token, sender, spender, amount);
      assert forall s: Address :: Erc20.Allowance(approved, ctx.self, s) == Erc20.Allowance(token, ctx.self, s);
    case TransferFrom(from, to, amount) =>
      assert Erc20.Allowance(token, ctx.self, sender) == 0;
      if amount <= Erc20.Allowance(token, from, sender) {
        var debited := Erc20.Approve(token, from, sender, Erc20.Allowance(token, from, sender) - amount);
        assert forall s: Address :: Erc20.Allowance(debited, ctx.self, s) <= Erc20.Allowance(token, ctx.self, s);
        AllowancesKept(ctx, debited, from, to, amount);
      }
  }

  /** A transfer changes no allowance. */
  lemma AllowancesKept(ctx: Context, token: Erc20.Token, from: Address, to: Address, amount: nat)
    requires NoneAllowed(ctx, token)
    ensures var r := Erc20.Transfer(token, from, to, amount);
            r.Success? ==> NoneAllowed(ctx, r.value)
  {
    var r := Erc20.Transfer(token, from, to, amount);
    assert r.Success? ==> forall s: Address ::
        Erc20.Allowance(r.value, ctx.self, s) == Erc20.Allowance(token, ctx.self, s);
  }

  /** From `token` to `token'` the exchange lost at most `amount`, and still nobody may spend its tokens. */
  ghost predicate Spared(ctx: Context, token: Erc20.Token, token': Erc20.Token, amount: nat) {
    NoneAllowed(ctx, token') && At(token.balances, ctx.self) <= At(token'.balances, ctx.self) + amount
  }

  lemma SettledSpares(ctx: Context, st: State, st': State, seller: Address, buy: Order, royalty: nat, c: Address)
    requires buy.nftContract in st.chain.nfts && buy.paymentToken in st.chain.tokens && c in st.chain.tokens
    requires Settled(ctx, st, st', seller, buy, royalty) && NoneAllowed(ctx, st.chain.tokens[c])
    requires buy.paymentToken == c ==> buy.party != ctx.self
    ensures c in st'.chain.tokens && Spared(ctx, st.chain.tokens[c], st'.chain.tokens[c], 0)
  {
  }

  lemma WithdrawalSpares(ctx: Context, token: Erc20.Token, to: Address, amount: nat)
    requires NoneAllowed(ctx, token) && Erc20.Transfer(token, ctx.self, to, amount).Success?
    ensures Spared(ctx, token, Erc20.Transfer(token, ctx.self, to, amount).value, amount)
  {
    AllowancesKept(ctx, token, ctx.self, to, amount);
  }

  lemma StepSpares(ctx: Context, st: State, step: Step, c: Address)
    requires c in st.chain.tokens && NoneAllowed(ctx, st.chain.tokens[c])
    requires step.sender != ctx.self && Apply(ctx, st, step).Success?
    ensures var tokens' := Apply(ctx, st, step).value.chain.tokens;
            c in tokens' && Spared(ctx, st.chain.tokens[c], tokens'[c], TokensWithdrawnBy(ctx, st, step, c))
  {
    hide Purchase, Sale, Auction, Settled, Signed, Erc20.Transfer, SendCoinsTo;
    var st' := Apply(ctx, st, step).value;
    match step.action {
      case WithdrawErc20(contract, to, amount) =>
        if contract == c {
          WithdrawalSpares(ctx, st.chain.tokens[c], to, amount);
        }
      case BuyNft(value, sell, sig) =>
        PurchaseSettles(ctx, st, step.env, step.sender, value, sell, sig);
      case SellNft(buy, sig) =>
        SaleSettles(ctx, st, step.env, step.sender, buy, sig);
        SettledSaleWasAllowed(ctx, st, step.env, step.sender, buy, sig);
        SettledSpares(ctx, st, st', step.sender, buy, buy.royaltyAmount, c);
      case ExchangeAuction(sell, buy, minBid, sellerSig, buyerSig) =>
        AuctionSettles(ctx, st, step.env, step.sender, sell, buy, minBid, sellerSig, buyerSig);
        SettledAuctionWasAllowed(ctx, st, step.env, step.sender, sell, buy, minBid, sellerSig, buyerSig);
        SettledSpares(ctx, st, st', sell.party, buy, sell.royaltyAmount, c);
      case CallToken(contract, spend) =>
        if contract == c {
          TokenCallSpares(ctx, st.chain.tokens[c], step.sender, spend);
        }
      case _ =>
    }
  }

  /** Over every run the exchange's tokens leave it by withdrawals only. */
  lemma {:induction false} TokensLeaveByWithdrawal(ctx: Context, st: State, steps: seq<Step>, c: Address)
    requires c in st.chain.tokens && NoneAllowed(ctx, st.chain.tokens[c])
    requires forall s :: s in steps ==> s.sender != ctx.self
    ensures var tokens' := Run(ctx, st, steps).chain.tokens;
            c in tokens' && Spared(ctx, st.chain.tokens[c], tokens'[c], TokensWithdrawn(ctx, st, steps, c))
    decreases |steps|
  {
    hide Apply;
    if steps != [] {
      assert steps[0] in steps;
      if Apply(ctx, st, steps[0]).Success? {
        StepSpares(ctx, st, steps[0], c);
      }
      TokensLeaveByWithdrawal(ctx, Deliver(ctx, st, steps[0]), steps[1..], c);
    }
  }

  /**
   In every run in which no admin makes a call, the admins, their list, the counter and the switch stay as they are, and
   neither coins nor tokens are withdrawn.
   */
  lemma {:induction false} NothingWithoutAdmins(ctx: Context, st: State, steps: seq<Step>, c: Address)
    requires forall s :: s in steps ==> s.sender !in st.admins
    ensures SameGovernment(st, Run(ctx, st, steps))
    ensures Withdrawn(ctx, st, steps) == 0 && TokensWithdrawn(ctx, st, steps, c) == 0
    decreases |steps|
  {
    hide Apply;
    if steps != [] {
      assert steps[0] in steps;
      if Apply(ctx, st, steps[0]).Success? {
        OnlyAdminsGovern(ctx, st, steps[0]);
      }
      NothingWithoutAdmins(ctx, Deliver(ctx, st, steps[0]), steps[1..], c);
    }
  }

  // ----- the switch -----

  predicate IsTrade(action: Action) {
    action.BuyNft? || action.SellNft? || action.ExchangeAuction?
  }

  /** The trades that a run settles. */
  ghost function Trades(ctx: Context, st: State, steps: seq<Step>): nat
    decreases |steps|
  {
    if steps == [] then 0
    else (if IsTrade(steps[0].action) && Apply(ctx, st, steps[0]).Success? then 1 else 0)
         + Trades(ctx, Deliver(ctx, st, steps[0]), steps[1..])
  }

  /** No call of unPauseContract commits. */
  ghost predicate NoUnpause(ctx: Context, st: State, steps: seq<Step>)
    decreases |steps|
  {
    steps == [] || (!(steps[0].action.UnpauseContract? && Apply(ctx, st, steps[0]).Success?)
                    && NoUnpause(ctx, Deliver(ctx, st, steps[0]), steps[1..]))
  }

  lemma PausedStep(ctx: Context, st: State, step: Step)
    requires st.paused && Apply(ctx, st, step).Success?
    ensures !IsTrade(step.action)
    ensures !step.action.UnpauseContract? ==> Apply(ctx, st, step).value.paused
  {
    hide Purchase, Sale, Auction, PurchaseAllowed, SaleAllowed, AuctionAllowed;
    match step.action {
      case BuyNft(value, sell, sig) =>
        SettledPurchaseWasAllowed(ctx, st, step.env, step.sender, value, sell, sig);
        PausedAllowsNothing(ctx, st, step);
      case SellNft(buy, sig) =>
        SettledSaleWasAllowed(ctx, st, step.env, step.sender, buy, sig);
        PausedAllowsNothing(ctx, st, step);
      case ExchangeAuction(sell, buy, minBid, sellerSig, buyerSig) =>
        SettledAuctionWasAllowed(ctx, st, step.env, step.sender, sell, buy, minBid, sellerSig, buyerSig);
        PausedAllowsNothing(ctx, st, step);
      case _ =>
    }
  }

  lemma PausedAllowsNothing(ctx: Context, st: State, step: Step)
    requires st.paused
    ensures step.action.BuyNft? ==>
              !PurchaseAllowed(ctx, st, step.env, step.action.value, step.action.sell, step.action.sig)
    ensures step.action.SellNft? ==>
              !SaleAllowed(ctx, st, step.env, step.sender, step.action.buy, step.action.sig)
    ensures step.action.ExchangeAuction? ==>
              !AuctionAllowed(ctx, st, step.sender, step.action.sell, step.action.buy, step.action.minBid,
                              step.action.sellerSig, step.action.buyerSig)
  {
  }

  /** While the exchange is paused no trade settles, in any run, until a call of unPauseContract commits. */
  lemma {:induction false} PauseStopsTrades(ctx: Context, st: State, steps: seq<Step>)
    requires st.paused && NoUnpause(ctx, st, steps)
    ensures Trades(ctx, st, steps) == 0 && Run(ctx, st, steps).paused
    decreases |steps|
  {
    hide Apply;
    if steps != [] {
      if Apply(ctx, st, steps[0]).Success? {
        PausedStep(ctx, st, steps[0]);
      }
      PauseStopsTrades(ctx, Deliver(ctx, st, steps[0]), steps[1..]);
    }
  }
}
