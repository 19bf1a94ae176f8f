/** What a settled trade does to every ledger, and exactly when a trade that passes the guards settles. */
module Settlement {
  import opened Wrappers
  import opened Evm
  import opened Ledgers
  import opened Payments
  import opened Bytes
  import opened OrderEncoding
  import Erc20
  import Erc721
  import opened Erc721Theorems
  import opened ExchangeSpec

  // ----- the NFT leg -----

  /** The collection after token `id` went to `to`. */
  ghost function NftMoved(nft: Erc721.State, to: Account, id: Uint256): Erc721.State {
    nft.(owner := nft.owner[id := to], approved := nft.approved - {id})
  }

  /** With the exchange as an operator of the owner only the pause switch can stop the transfer. */
  lemma NftLeg(ctx: Context, chain: Chain, contract: Address, from: Address, to: Account, id: Uint256)
    requires contract in chain.nfts
    requires var nft := chain.nfts[contract];
             id in nft.owner && nft.owner[id] == from && (from, ctx.self as Address) in nft.operators
    ensures var nft := chain.nfts[contract];
            var r := MoveNft(ctx, chain, contract, from, to, id);
            && (nft.paused ==> r == Failure(NftReverted(Erc721.TransferWhilePaused)))
            && (r.Success? ==> !nft.paused && r.value == chain.(nfts := chain.nfts[contract := NftMoved(nft, to, id)]))
            && (Fresh(nft) ==> (r.Success? <==> !nft.paused))
  {
    hide Erc721.TokensOf;
    var nft := chain.nfts[contract];
    var m := Erc721.Msg(ctx.self, Erc721.Call.TransferFrom(from, to, id));
    assert Erc721.Controls(nft, ctx.self, id);
    assert Erc721.Apply(nft, m) == Erc721.Move(nft, from, to, id);
    if Fresh(nft) {
      FreshGuards(nft, m);
    }
  }

  // ----- trades paid in tokens -----

  /**
   The token went from `seller` to `buyer`, the three amounts left the buyer, and nothing else in the world moved.
   The accounts may coincide in any way.
   */
  ghost predicate Settled(ctx: Context, st: State, st': State, seller: Address, buy: Order, royalty: nat)
    requires buy.nftContract in st.chain.nfts && buy.paymentToken in st.chain.tokens
  {
    var buyer := buy.party;
    var nft := st.chain.nfts[buy.nftContract];
    && buyer != ZERO && buy.nftTokenId in nft.owner && nft.owner[buy.nftTokenId] == seller
    && buy.paymentToken in st'.chain.tokens
    && var token, token' := st.chain.tokens[buy.paymentToken], st'.chain.tokens[buy.paymentToken];
    && st' == st.(chain := Chain(
         st.chain.nfts[buy.nftContract := NftMoved(nft, buyer, buy.nftTokenId)],
         st.chain.tokens[buy.paymentToken := token'],
         st.chain.coins))
    && (forall a: Address :: At(token'.balances, a) ==
          At(token.balances, a)
          + (if a == seller then buy.sellerAmount else 0)
          + (if a == ctx.self then buy.feeAmount else 0)
          + (if a == buy.royaltyPayTo then royalty else 0)
          - (if a == buyer then buy.sellerAmount + buy.feeAmount + royalty else 0))
    && Total(token'.balances) == Total(token.balances)
    && (forall o: Address, s: Address :: Erc20.Allowance(token', o, s) ==
          Erc20.Allowance(token, o, s)
          - (if o == buyer && s == ctx.self then buy.sellerAmount + buy.feeAmount + royalty else 0))
  }

  lemma RoyaltyAddsUp(payee: Address, royalty: nat, a: Address)
    ensures AmountOf(RoyaltyPayment(payee, royalty)) == royalty
    ensures ReceivedBy(a, RoyaltyPayment(payee, royalty)) == if a == payee then royalty else 0
  {
    if royalty > 0 {
      assert RoyaltyPayment(payee, royalty)[1..] == [];
    }
  }

  lemma TokenPaymentsAddUp(ctx: Context, seller: Address, buy: Order, royalty: nat, a: Address)
    ensures var ps := TokenPayments(ctx, seller, buy, royalty);
            && AmountOf(ps) == buy.sellerAmount + buy.feeAmount + royalty
            && ReceivedBy(a, ps) == (if a == seller then buy.sellerAmount else 0)
                                    + (if a == ctx.self then buy.feeAmount else 0)
                                    + (if a == buy.royaltyPayTo then royalty else 0)
  {
    var ps := TokenPayments(ctx, seller, buy, royalty);
    var last := RoyaltyPayment(buy.royaltyPayTo, royalty);
    assert ps[1..] == [Payment(ctx.self, buy.feeAmount)] + last && ps[1..][1..] == last;
    RoyaltyAddsUp(buy.royaltyPayTo, royalty, a);
    assert AmountOf(ps[1..]) == buy.feeAmount + AmountOf(last);
    assert ReceivedBy(a, ps[1..]) == (if a == ctx.self then buy.feeAmount else 0) + ReceivedBy(a, last);
  }

  /** A trade that the guards let through: the world knows both contracts and the exchange may move the NFT. */
  ghost predicate CanTrade(ctx: Context, st: State, seller: Address, buy: Order) {
    && buy.nftContract in st.chain.nfts && buy.paymentToken in st.chain.tokens && buy.party != ZERO
    && var nft := st.chain.nfts[buy.nftContract];
    && buy.nftTokenId in nft.owner && nft.owner[buy.nftTokenId] == seller
    && (seller, ctx.self as Address) in nft.operators
  }

  /** The two legs of a trade together: when they go through. */
  lemma SettleSucceeds(ctx: Context, st: State, seller: Address, buy: Order, royalty: nat)
    requires CanTrade(ctx, st, seller, buy)
    ensures var r := Settle(ctx, st, seller, buy, TokenPayments(ctx, seller, buy, royalty));
            var nft, token := st.chain.nfts[buy.nftContract], st.chain.tokens[buy.paymentToken];
            && (nft.paused ==> r == Failure(NftReverted(Erc721.TransferWhilePaused)))
            && (Fresh(nft) && Erc20.Solvent(token) ==>
                  (r.Success? <==>
                     && !nft.paused
                     && buy.sellerAmount + buy.feeAmount + royalty <= Erc20.Allowance(token, buy.party, ctx.self)
                     && Affordable(At(token.balances, buy.party), buy.party,
                                   TokenPayments(ctx, seller, buy, royalty))))
  {
    hide Fresh, MoveNft, Affordable, Erc20.PayAll, TokenPayments, NftMoved, Erc20.Solvent;
    var token := st.chain.tokens[buy.paymentToken];
    NftLeg(ctx, st.chain, buy.nftContract, seller, buy.party, buy.nftTokenId);
    TokenPaymentsAddUp(ctx, seller, buy, royalty, ZERO);
    if Erc20.Solvent(token) {
      Erc20.PayAllSucceeds(token, ctx.self, buy.party, TokenPayments(ctx, seller, buy, royalty));
    }
  }

  /** ... and what they do. */
  lemma SettleMoves(ctx: Context, st: State, seller: Address, buy: Order, royalty: nat)
    requires CanTrade(ctx, st, seller, buy)
    requires Settle(ctx, st, seller, buy, TokenPayments(ctx, seller, buy, royalty)).Success?
    ensures Settled(ctx, st, Settle(ctx, st, seller, buy, TokenPayments(ctx, seller, buy, royalty)).value,
                    seller, buy, royalty)
  {
    hide Fresh, MoveNft, Erc20.PayAll, TokenPayments, NftMoved;
    var ps := TokenPayments(ctx, seller, buy, royalty);
    var token := st.chain.tokens[buy.paymentToken];
    NftLeg(ctx, st.chain, buy.nftContract, seller, buy.party, buy.nftTokenId);
    TokenPaymentsAddUp(ctx, seller, buy, royalty, ZERO);
    forall a: Address
      ensures At(Erc20.PayAll(token, ctx.self, buy.party, ps).value.balances, a) ==
              At(token.balances, a)
              + (if a == seller then buy.sellerAmount else 0)
              + (if a == ctx.self then buy.feeAmount else 0)
              + (if a == buy.royaltyPayTo then royalty else 0)
              - (if a == buy.party then buy.sellerAmount + buy.feeAmount + royalty else 0)
    {
      Erc20.PayAllMoves(token, ctx.self, buy.party, ps, a);
      TokenPaymentsAddUp(ctx, seller, buy, royalty, a);
    }
    Erc20.PayAllMoves(token, ctx.self, buy.party, ps, ZERO);
  }

  // ----- what the guards decide -----

  /** `sig` is the 65-byte form of a signature that recovers to the party named in the order. */
  ghost predicate Signed(ctx: Context, kind: Kind, o: Order, sig: seq<Byte>) {
    exists g: Signature ::
      sig == JoinSig(g) && ctx.ecrecover(Digest(ctx.keccak, ctx.SigningDomain(), kind, o), g) == o.party
  }

  lemma VerifyExactly(ctx: Context, kind: Kind, o: Order, sig: seq<Byte>)
    ensures Verify(ctx, kind, o, sig) == Success(true) <==> Signed(ctx, kind, o, sig)
  {
    hide Digest, SplitSig, JoinSig;
    var behind: seq<Byte> := seq(31, _ => 0);
    if |sig| == 65 {
      var g := SplitSig(sig, behind).value;
      SplitSigIsBijective(sig, behind, g);
      assert sig == JoinSig(g);
    }
    forall g: Signature | sig == JoinSig(g)
      ensures SplitSig(sig, behind) == Success(g)
    {
      SplitSigIsBijective(sig, behind, g);
    }
  }

  /** An order signed for one deployment is not an order for another one: its digest names address and chain. */
  lemma OtherDeploymentsDiffer(ctx: Context, kind: Kind, o: Order, ctx': Context, kind': Kind, o': Order)
    requires ctx'.keccak == ctx.keccak
    requires CollisionFree(ctx.keccak, Preimages(ctx.keccak, ctx.SigningDomain(), kind, o)
                                       + Preimages(ctx.keccak, ctx'.SigningDomain(), kind', o'))
    requires ctx'.self != ctx.self || ctx'.chainId != ctx.chainId
    ensures Digest(ctx.keccak, ctx.SigningDomain(), kind, o) != Digest(ctx.keccak, ctx'.SigningDomain(), kind', o')
  {
    hide Digest, Preimages, CollisionFree;
    if Digest(ctx.keccak, ctx.SigningDomain(), kind, o) == Digest(ctx.keccak, ctx'.SigningDomain(), kind', o') {
      DigestDeterminesOrder(ctx.keccak, ctx.SigningDomain(), kind, o, ctx'.SigningDomain(), kind', o');
    }
  }

  /** The seller owns the token and has made the exchange an operator. */
  ghost predicate Offered(ctx: Context, st: State, contract: Address, id: Uint256, seller: Address) {
    && contract in st.chain.nfts
    && var nft := st.chain.nfts[contract];
    && id in nft.owner && nft.owner[id] == seller && (seller, ctx.self as Address) in nft.operators
  }

  /** Balance and allowance of the buyer both exceed the order's total. */
  ghost predicate Backed(ctx: Context, st: State, buy: Order) {
    && buy.paymentToken in st.chain.tokens
    && var token := st.chain.tokens[buy.paymentToken];
    && buy.totalAmount < At(token.balances, buy.party) && buy.totalAmount < Erc20.Allowance(token, buy.party, ctx.self)
  }

  ghost predicate PurchaseAllowed(ctx: Context, st: State, env: Env, value: Uint256, sell: Order, sig: seq<Byte>) {
    && !st.paused && sell.nftContract != ZERO && sell.party != ZERO
    && (sell.royaltyAmount == 0 || sell.royaltyPayTo != ZERO)
    && Offered(ctx, st, sell.nftContract, sell.nftTokenId, sell.party)
    && sell.startsAt <= env.now < sell.expiresAt
    && 0 < value == sell.totalAmount
    && Signed(ctx, Sell, sell, sig)
  }

  lemma PurchaseGuards(ctx: Context, st: State, env: Env, value: Uint256, sell: Order, sig: seq<Byte>)
    ensures BuyChecks(ctx, st, env, value, sell, sig).Success? <==> PurchaseAllowed(ctx, st, env, value, sell, sig)
  {
    hide Verify, Signed;
    VerifyExactly(ctx, Sell, sell, sig);
  }

  ghost predicate SaleAllowed(ctx: Context, st: State, env: Env, seller: Account, buy: Order, sig: seq<Byte>) {
    && !st.paused && buy.nftContract != ZERO && buy.party != ZERO && buy.paymentToken != ZERO
    && (buy.royaltyAmount == 0 || buy.royaltyPayTo != ZERO)
    && Backed(ctx, st, buy) && Offered(ctx, st, buy.nftContract, buy.nftTokenId, seller)
    && buy.startsAt <= env.now < buy.expiresAt
    && Signed(ctx, OrderEncoding.Buy, buy, sig)
  }

  lemma SaleGuards(ctx: Context, st: State, env: Env, sender: Account, buy: Order, sig: seq<Byte>)
    ensures SellChecks(ctx, st, env, sender, buy, sig).Success? <==> SaleAllowed(ctx, st, env, sender, buy, sig)
  {
    hide Verify, Signed;
    VerifyExactly(ctx, OrderEncoding.Buy, buy, sig);
  }

  /** An auction ignores the validity periods of both orders; only an admin can execute it. */
  ghost predicate AuctionAllowed(ctx: Context, st: State, sender: Account, sell: Order, buy: Order, minBid: Uint256,
                                 sellerSig: seq<Byte>, buyerSig: seq<Byte>)
  {
    && sender in st.admins && !st.paused
    && sell.party != ZERO && buy.party != ZERO && sell.nftContract != ZERO && buy.paymentToken != ZERO
    && (sell.royaltyAmount == 0 || buy.royaltyPayTo != ZERO)
    && sell.nftContract == buy.nftContract && sell.nftTokenId == buy.nftTokenId && sell.paymentToken == buy.paymentToken
    && minBid <= buy.totalAmount && sell.totalAmount <= buy.totalAmount
    && Backed(ctx, st, buy) && Offered(ctx, st, sell.nftContract, sell.nftTokenId, sell.party)
    && Signed(ctx, Sell, sell, sellerSig) && Signed(ctx, OrderEncoding.Buy, buy, buyerSig)
  }

  lemma AuctionGuards(ctx: Context, st: State, sender: Account, sell: Order, buy: Order, minBid: Uint256,
                      sellerSig: seq<Byte>, buyerSig: seq<Byte>)
    ensures AuctionChecks(ctx, st, sender, sell, buy, minBid, sellerSig, buyerSig).Success?
            <==> AuctionAllowed(ctx, st, sender, sell, buy, minBid, sellerSig, buyerSig)
  {
    hide Verify, Signed;
    VerifyExactly(ctx, Sell, sell, sellerSig);
    VerifyExactly(ctx, OrderEncoding.Buy, buy, buyerSig);
  }

  // ----- sellNFT -----

  /** A sale that goes through has exactly the agreed effect, whoever the parties are. */
  lemma SaleSettles(ctx: Context, st: State, env: Env, sender: Account, buy: Order, sig: seq<Byte>)
    requires Apply(ctx, st, Step(env, sender, SellNft(buy, sig))).Success?
    ensures buy.nftContract in st.chain.nfts && buy.paymentToken in st.chain.tokens
    ensures Settled(ctx, st, Apply(ctx, st, Step(env, sender, SellNft(buy, sig))).value, sender, buy, buy.royaltyAmount)
  {
    hide SellChecks, Settle, Settled, TokenPayments, Signed;
    SaleGuards(ctx, st, env, sender, buy, sig);
    SettleMoves(ctx, st, sender, buy, buy.royaltyAmount);
  }

  /** The collection's counter has not wrapped and the token's balances fit its supply. */
  ghost predicate Sound(st: State, buy: Order) {
    && (buy.nftContract in st.chain.nfts ==> Fresh(st.chain.nfts[buy.nftContract]))
    && (buy.paymentToken in st.chain.tokens ==> Erc20.Solvent(st.chain.tokens[buy.paymentToken]))
  }

  /** The collection runs, the allowance covers the three amounts, and the buyer's balance lasts for them in order. */
  ghost predicate Covered(ctx: Context, st: State, seller: Address, buy: Order, royalty: nat) {
    && buy.nftContract in st.chain.nfts && !st.chain.nfts[buy.nftContract].paused
    && buy.paymentToken in st.chain.tokens
    && var token := st.chain.tokens[buy.paymentToken];
    && buy.sellerAmount + buy.feeAmount + royalty <= Erc20.Allowance(token, buy.party, ctx.self)
    && Affordable(At(token.balances, buy.party), buy.party, TokenPayments(ctx, seller, buy, royalty))
  }

  /**
   sellNFT settles if and only if its guards hold and the trade is covered. The guards alone do not promise that: they
   only compare the order's total with the allowance and the balance.
   */
  lemma SaleSettlesExactly(ctx: Context, st: State, env: Env, sender: Account, buy: Order, sig: seq<Byte>)
    requires Sound(st, buy)
    ensures Apply(ctx, st, Step(env, sender, SellNft(buy, sig))).Success?
            <==> SaleAllowed(ctx, st, env, sender, buy, sig) && Covered(ctx, st, sender, buy, buy.royaltyAmount)
  {
    hide SellChecks, Settle, Settled, TokenPayments, Signed, Affordable, Fresh;
    SaleGuards(ctx, st, env, sender, buy, sig);
    if SaleAllowed(ctx, st, env, sender, buy, sig) {
      SettleSucceeds(ctx, st, sender, buy, buy.royaltyAmount);
    }
  }

  /** With amounts within the order's total, passing the guards is enough: only a paused collection can refuse. */
  lemma SellGuardsSuffice(ctx: Context, st: State, env: Env, sender: Account, buy: Order, sig: seq<Byte>)
    requires SellChecks(ctx, st, env, sender, buy, sig).Success?
    requires buy.nftContract in st.chain.nfts && Fresh(st.chain.nfts[buy.nftContract])
    requires buy.paymentToken in st.chain.tokens && Erc20.Solvent(st.chain.tokens[buy.paymentToken])
    requires buy.sellerAmount + buy.feeAmount + buy.royaltyAmount <= buy.totalAmount
    ensures var r := Apply(ctx, st, Step(env, sender, SellNft(buy, sig)));
            if st.chain.nfts[buy.nftContract].paused then r == Failure(NftReverted(Erc721.TransferWhilePaused))
            else r.Success?
  {
    hide SellChecks, Settle, Settled, TokenPayments, Signed, Affordable, Fresh;
    var ps := TokenPayments(ctx, sender, buy, buy.royaltyAmount);
    SaleGuards(ctx, st, env, sender, buy, sig);
    TokenPaymentsAddUp(ctx, sender, buy, buy.royaltyAmount, ZERO);
    AmountCoversPayments(At(st.chain.tokens[buy.paymentToken].balances, buy.party), buy.party, ps);
    SettleSucceeds(ctx, st, sender, buy, buy.royaltyAmount);
  }

  // ----- exchangeNFTauction -----

  lemma AuctionSettles(ctx: Context, st: State, env: Env, sender: Account, sell: Order, buy: Order, minBid: Uint256,
                       sellerSig: seq<Byte>, buyerSig: seq<Byte>)
    requires Apply(ctx, st, Step(env, sender, ExchangeAuction(sell, buy, minBid, sellerSig, buyerSig))).Success?
    ensures buy.nftContract in st.chain.nfts && buy.paymentToken in st.chain.tokens
    ensures var step := Step(env, sender, ExchangeAuction(sell, buy, minBid, sellerSig, buyerSig));
            Settled(ctx, st, Apply(ctx, st, step).value, sell.party, buy, sell.royaltyAmount)
  {
    hide AuctionChecks, Settle, Settled, TokenPayments, Signed;
    AuctionGuards(ctx, st, sender, sell, buy, minBid, sellerSig, buyerSig);
    SettleMoves(ctx, st, sell.party, buy, sell.royaltyAmount);
  }

  /**
   A buyer who is not a payee is charged with its own amounts and the seller's royalty. So even an order that adds up
   costs more than the total it was signed for if and only if the seller asks for more royalty than the buyer offered.
   */
  lemma AuctionCharges(ctx: Context, st: State, env: Env, sender: Account, sell: Order, buy: Order, minBid: Uint256,
                       sellerSig: seq<Byte>, buyerSig: seq<Byte>) returns (charge: nat)
    requires Apply(ctx, st, Step(env, sender, ExchangeAuction(sell, buy, minBid, sellerSig, buyerSig))).Success?
    requires buy.party != sell.party && buy.party != ctx.self && buy.party != buy.royaltyPayTo
    ensures var st' := Apply(ctx, st, Step(env, sender, ExchangeAuction(sell, buy, minBid, sellerSig, buyerSig))).value;
            && buy.paymentToken in st.chain.tokens && buy.paymentToken in st'.chain.tokens
            && charge == At(st.chain.tokens[buy.paymentToken].balances, buy.party)
                         - At(st'.chain.tokens[buy.paymentToken].balances, buy.party)
    ensures buy.sellerAmount + buy.feeAmount + buy.royaltyAmount == buy.totalAmount ==>
              (buy.totalAmount < charge <==> buy.royaltyAmount < sell.royaltyAmount)
  {
    hide Auction, NftMoved;
    AuctionSettles(ctx, st, env, sender, sell, buy, minBid, sellerSig, buyerSig);
    charge := buy.sellerAmount + buy.feeAmount + sell.royaltyAmount;
  }

  /** The same exact condition for an auction; the royalty in it is the sell order's. */
  lemma AuctionSettlesExactly(ctx: Context, st: State, env: Env, sender: Account, sell: Order, buy: Order,
                              minBid: Uint256, sellerSig: seq<Byte>, buyerSig: seq<Byte>)
    requires Sound(st, buy)
    ensures Apply(ctx, st, Step(env, sender, ExchangeAuction(sell, buy, minBid, sellerSig, buyerSig))).Success?
            <==> AuctionAllowed(ctx, st, sender, sell, buy, minBid, sellerSig, buyerSig)
                 && Covered(ctx, st, sell.party, buy, sell.royaltyAmount)
  {
    hide AuctionChecks, Settle, Settled, TokenPayments, Signed, Affordable, Fresh;
    AuctionGuards(ctx, st, sender, sell, buy, minBid, sellerSig, buyerSig);
    if AuctionAllowed(ctx, st, sender, sell, buy, minBid, sellerSig, buyerSig) {
      SettleSucceeds(ctx, st, sell.party, buy, sell.royaltyAmount);
    }
  }

  lemma AuctionGuardsSuffice(ctx: Context, st: State, env: Env, sender: Account, sell: Order, buy: Order,
                             minBid: Uint256, sellerSig: seq<Byte>, buyerSig: seq<Byte>)
    requires AuctionChecks(ctx, st, sender, sell, buy, minBid, sellerSig, buyerSig).Success?
    requires buy.nftContract in st.chain.nfts && Fresh(st.chain.nfts[buy.nftContract])
    requires buy.paymentToken in st.chain.tokens && Erc20.Solvent(st.chain.tokens[buy.paymentToken])
    requires buy.sellerAmount + buy.feeAmount + sell.royaltyAmount <= buy.totalAmount
    ensures var r := Apply(ctx, st, Step(env, sender, ExchangeAuction(sell, buy, minBid, sellerSig, buyerSig)));
            if st.chain.nfts[buy.nftContract].paused then r == Failure(NftReverted(Erc721.TransferWhilePaused))
            else r.Success?
  {
    hide AuctionChecks, Settle, Settled, TokenPayments, Signed, Affordable, Fresh;
    var ps := TokenPayments(ctx, sell.party, buy, sell.royaltyAmount);
    AuctionGuards(ctx, st, sender, sell, buy, minBid, sellerSig, buyerSig);
    TokenPaymentsAddUp(ctx, sell.party, buy, sell.royaltyAmount, ZERO);
    AmountCoversPayments(At(st.chain.tokens[buy.paymentToken].balances, buy.party), buy.party, ps);
    SettleSucceeds(ctx, st, sell.party, buy, sell.royaltyAmount);
  }

  // ----- buyNFT -----

  lemma {:induction false} PayCoinsMoves(ctx: Context, env: Env, coins: Ledger, ps: seq<Payment>, a: Address)
    requires PayCoins(ctx, env, coins, ps).Success?
    ensures var coins' := PayCoins(ctx, env, coins, ps).value;
            && At(coins', a) == At(coins, a) + ReceivedBy(a, ps) - (if a == ctx.self then AmountOf(ps) else 0)
            && ReceivedBy(ctx.self, ps) == 0
            && Total(coins') == Total(coins)
    decreases |ps|
  {
    if ps != [] {
      MoveCoinsConserves(coins, ctx.self, ps[0].payee, ps[0].amount);
      PayCoinsMoves(ctx, env, MoveCoins(coins, ctx.self, ps[0].payee, ps[0].amount), ps[1..], a);
    }
  }

  lemma MoveCoinsConserves(coins: Ledger, from: Address, to: Address, amount: nat)
    requires amount <= At(coins, from)
    ensures Total(MoveCoins(coins, from, to, amount)) == Total(coins)
  {
    var debited := coins[from := At(coins, from) - amount];
    TotalWrite(coins, from, At(coins, from) - amount);
    TotalWrite(debited, to, At(debited, to) + amount);
  }

  /**
   The NFT went to the caller, the caller paid the order's total, the seller and the royalty payee got their amounts,
   and the exchange keeps (or adds) the difference.
   */
  ghost predicate Bought(ctx: Context, st: State, st': State, buyer: Account, sell: Order)
    requires sell.nftContract in st.chain.nfts
  {
    var nft := st.chain.nfts[sell.nftContract];
    && sell.nftTokenId in nft.owner && nft.owner[sell.nftTokenId] == sell.party
    && st' == st.(chain := Chain(
         st.chain.nfts[sell.nftContract := NftMoved(nft, buyer, sell.nftTokenId)], st.chain.tokens, st'.chain.coins))
    && (forall a: Address :: At(st'.chain.coins, a) ==
          At(st.chain.coins, a)
          - (if a == buyer then sell.totalAmount else 0)
          + (if a == sell.party then sell.sellerAmount else 0)
          + (if a == sell.royaltyPayTo then sell.royaltyAmount else 0)
          + (if a == ctx.self then sell.totalAmount - sell.sellerAmount - sell.royaltyAmount else 0))
    && Total(st'.chain.coins) == Total(st.chain.coins)
  }

  /** The coins of a purchase: the caller's payment in, the order's payments out. */
  lemma PurchaseCoins(ctx: Context, env: Env, was: Ledger, sender: Account, value: Uint256, sell: Order, a: Address)
    requires value <= At(was, sender)
    requires PayCoins(ctx, env, MoveCoins(was, sender, ctx.self, value), BuyPayments(sell)).Success?
    ensures var now := PayCoins(ctx, env, MoveCoins(was, sender, ctx.self, value), BuyPayments(sell)).value;
            && Total(now) == Total(was)
            && At(now, a) == At(was, a)
                 - (if a == sender then value else 0)
                 + (if a == sell.party then sell.sellerAmount else 0)
                 + (if a == sell.royaltyPayTo then sell.royaltyAmount else 0)
                 + (if a == ctx.self then value - sell.sellerAmount - sell.royaltyAmount else 0)
  {
    hide PayCoins;
    MoveCoinsConserves(was, sender, ctx.self, value);
    PayCoinsMoves(ctx, env, MoveCoins(was, sender, ctx.self, value), BuyPayments(sell), a);
    BuyPaymentsAddUp(sell, a);
  }

  lemma PurchaseSettles(ctx: Context, st: State, env: Env, sender: Account, value: Uint256, sell: Order, sig: seq<Byte>)
    requires Apply(ctx, st, Step(env, sender, BuyNft(value, sell, sig))).Success?
    ensures sell.nftContract in st.chain.nfts && value == sell.totalAmount
    ensures Bought(ctx, st, Apply(ctx, st, Step(env, sender, BuyNft(value, sell, sig))).value, sender, sell)
  {
    hide BuyChecks, MoveNft, PayCoins, Signed, NftMoved, BuyPayments;
    var coins := MoveCoins(st.chain.coins, sender, ctx.self, value);
    var funded := st.(chain := st.chain.(coins := coins));
    PurchaseGuards(ctx, funded, env, value, sell, sig);
    NftLeg(ctx, funded.chain, sell.nftContract, sell.party, sender, sell.nftTokenId);
    forall a: Address {
      PurchaseCoins(ctx, env, st.chain.coins, sender, value, sell, a);
    }
    PurchaseCoins(ctx, env, st.chain.coins, sender, value, sell, ZERO);
  }

  lemma BuyPaymentsAddUp(sell: Order, a: Address)
    ensures AmountOf(BuyPayments(sell)) == sell.sellerAmount + sell.royaltyAmount
    ensures ReceivedBy(a, BuyPayments(sell)) == (if a == sell.party then sell.sellerAmount else 0)
                                                + (if a == sell.royaltyPayTo then sell.royaltyAmount else 0)
  {
    var last := RoyaltyPayment(sell.royaltyPayTo, sell.royaltyAmount);
    assert BuyPayments(sell)[1..] == last;
    RoyaltyAddsUp(sell.royaltyPayTo, sell.royaltyAmount, a);
  }

  /** A settled purchase takes coins out of the exchange's earlier balance exactly when the order pays out too much. */
  lemma PurchaseDrawsOnFees(ctx: Context, st: State, env: Env, sender: Account, value: Uint256, sell: Order,
                            sig: seq<Byte>)
    requires sender != ctx.self
    requires Apply(ctx, st, Step(env, sender, BuyNft(value, sell, sig))).Success?
    ensures var st' := Apply(ctx, st, Step(env, sender, BuyNft(value, sell, sig))).value;
            At(st'.chain.coins, ctx.self) < At(st.chain.coins, ctx.self)
            <==> sell.totalAmount < sell.sellerAmount + sell.royaltyAmount
  {
    PurchasePayees(ctx, st, env, sender, value, sell, sig);
    PurchaseSettles(ctx, st, env, sender, value, sell, sig);
  }

  /** The exchange is never a payee: it cannot receive its own transfer. */
  lemma PurchasePayees(ctx: Context, st: State, env: Env, sender: Account, value: Uint256, sell: Order, sig: seq<Byte>)
    requires Apply(ctx, st, Step(env, sender, BuyNft(value, sell, sig))).Success?
    ensures sell.party != ctx.self && (sell.royaltyAmount > 0 ==> sell.royaltyPayTo != ctx.self)
  {
    hide BuyChecks, MoveNft;
    var ps := BuyPayments(sell);
    var coins := MoveCoins(st.chain.coins, sender, ctx.self, value);
    var funded := st.(chain := st.chain.(coins := coins));
    assert ps[0] == Payment(sell.party, sell.sellerAmount);
    var moved := MoveNft(ctx, funded.chain, sell.nftContract, sell.party, sender, sell.nftTokenId).value;
    PayCoinsMoves(ctx, env, moved.coins, ps, ctx.self);
    BuyPaymentsAddUp(sell, ctx.self);
  }

  /** Each payee accepts coins and is covered, in order; the exchange cannot pay itself. */
  predicate Payable(ctx: Context, env: Env, balance: nat, ps: seq<Payment>)
    decreases |ps|
  {
    ps == [] ||
    (ps[0].amount <= balance && ps[0].payee in env.accepting && ps[0].payee != ctx.self
     && Payable(ctx, env, balance - ps[0].amount, ps[1..]))
  }

  lemma {:induction false} PayCoinsExactly(ctx: Context, env: Env, coins: Ledger, ps: seq<Payment>)
    ensures PayCoins(ctx, env, coins, ps).Success? <==> Payable(ctx, env, At(coins, ctx.self), ps)
    decreases |ps|
  {
    if ps != [] {
      var sent := SendCoinsTo(ctx, env, coins, ctx.self, ps[0]);
      if sent.Success? {
        PayCoinsExactly(ctx, env, sent.value, ps[1..]);
      }
    }
  }

  /** What the exchange holds when it starts to pay. */
  function Till(ctx: Context, st: State, sender: Account, value: nat): nat {
    At(st.chain.coins, ctx.self) + (if sender == ctx.self then 0 else value)
  }

  /**
   buyNFT settles if and only if the caller has the coins, the guards hold, the collection runs, and each payee accepts
   its amount and is covered by the exchange's balance with the value of the call.
   */
  lemma PurchaseSettlesExactly(ctx: Context, st: State, env: Env, sender: Account, value: Uint256, sell: Order,
                               sig: seq<Byte>)
    requires sell.nftContract in st.chain.nfts ==> Fresh(st.chain.nfts[sell.nftContract])
    ensures Apply(ctx, st, Step(env, sender, BuyNft(value, sell, sig))).Success?
            <==> && value <= At(st.chain.coins, sender)
                 && PurchaseAllowed(ctx, st, env, value, sell, sig)
                 && !st.chain.nfts[sell.nftContract].paused
                 && Payable(ctx, env, Till(ctx, st, sender, value), BuyPayments(sell))
  {
    hide BuyChecks, MoveNft, PayCoins, Payable, BuyPayments, Signed, NftMoved, Fresh;
    if value <= At(st.chain.coins, sender) {
      var coins := MoveCoins(st.chain.coins, sender, ctx.self, value);
      var funded := st.(chain := st.chain.(coins := coins));
      PurchaseGuards(ctx, funded, env, value, sell, sig);
      if PurchaseAllowed(ctx, st, env, value, sell, sig) {
        NftLeg(ctx, funded.chain, sell.nftContract, sell.party, sender, sell.nftTokenId);
        PayCoinsExactly(ctx, env, coins, BuyPayments(sell));
      }
    }
  }

  // ----- the exchange keeps no record of settled orders -----

  /**
   A sell order that has settled once settles again, under the same signature, if and only if the token is back with
   its seller and still on offer, the period has not ended, and the new caller pays. Nothing else stands in the way.
   */
  lemma PurchaseReplaysExactly(ctx: Context, st: State, first: Step, later: State, env: Env, sender: Account)
    requires first.action.BuyNft? && Apply(ctx, st, first).Success?
    requires var c := first.action.sell.nftContract;
             c in later.chain.nfts ==> Fresh(later.chain.nfts[c])
    ensures var BuyNft(value, sell, sig) := first.action;
            Apply(ctx, later, Step(env, sender, first.action)).Success?
            <==> && !later.paused && sell.startsAt <= env.now < sell.expiresAt
                 && Offered(ctx, later, sell.nftContract, sell.nftTokenId, sell.party)
                 && !later.chain.nfts[sell.nftContract].paused
                 && value <= At(later.chain.coins, sender)
                 && Payable(ctx, env, Till(ctx, later, sender, value), BuyPayments(sell))
  {
    hide Apply, Payable, Offered, Signed, BuyPayments;
    var BuyNft(value, sell, sig) := first.action;
    SettledPurchaseWasAllowed(ctx, st, first.env, first.sender, value, sell, sig);
    PurchaseSettlesExactly(ctx, later, env, sender, value, sell, sig);
  }

  lemma SettledPurchaseWasAllowed(ctx: Context, st: State, env: Env, sender: Account, value: Uint256, sell: Order,
                                  sig: seq<Byte>)
    requires Apply(ctx, st, Step(env, sender, BuyNft(value, sell, sig))).Success?
    ensures PurchaseAllowed(ctx, st, env, value, sell, sig)
  {
    hide BuyChecks, MoveNft, PayCoins, Signed;
    var funded := st.(chain := st.chain.(coins := MoveCoins(st.chain.coins, sender, ctx.self, value)));
    PurchaseGuards(ctx, funded, env, value, sell, sig);
  }

  /** The same of the purchase alone: what was allowed, and what happened. */
  lemma PurchaseIsLawful(ctx: Context, st: State, env: Env, sender: Account, value: Uint256, sell: Order,
                         sig: seq<Byte>)
    requires Purchase(ctx, st, env, sender, value, sell, sig).Success?
    ensures PurchaseAllowed(ctx, st, env, value, sell, sig)
    ensures sell.nftContract in st.chain.nfts
    ensures Bought(ctx, st, Purchase(ctx, st, env, sender, value, sell, sig).value, sender, sell)
  {
    hide Purchase, PurchaseAllowed, Bought;
    PurchaseSettles(ctx, st, env, sender, value, sell, sig);
    SettledPurchaseWasAllowed(ctx, st, env, sender, value, sell, sig);
  }

  /** A buy order that has settled once settles again with whoever now owns the token and offers it. */
  lemma SaleReplaysExactly(ctx: Context, st: State, first: Step, later: State, env: Env, sender: Account)
    requires first.action.SellNft? && Apply(ctx, st, first).Success?
    requires Sound(later, first.action.buy)
    ensures var SellNft(buy, sig) := first.action;
            Apply(ctx, later, Step(env, sender, first.action)).Success?
            <==> && !later.paused && buy.startsAt <= env.now < buy.expiresAt
                 && Offered(ctx, later, buy.nftContract, buy.nftTokenId, sender)
                 && Backed(ctx, later, buy)
                 && Covered(ctx, later, sender, buy, buy.royaltyAmount)
  {
    hide Apply, Offered, Backed, Covered, Signed, Sound;
    var SellNft(buy, sig) := first.action;
    SettledSaleWasAllowed(ctx, st, first.env, first.sender, buy, sig);
    SaleSettlesExactly(ctx, later, env, sender, buy, sig);
  }

  lemma SettledSaleWasAllowed(ctx: Context, st: State, env: Env, sender: Account, buy: Order, sig: seq<Byte>)
    requires Apply(ctx, st, Step(env, sender, SellNft(buy, sig))).Success?
    ensures SaleAllowed(ctx, st, env, sender, buy, sig)
  {
    hide SellChecks, Settle, Signed;
    SaleGuards(ctx, st, env, sender, buy, sig);
  }

  /** The two orders of an auction settle again whenever an admin finds the token back with its seller. */
  lemma AuctionReplaysExactly(ctx: Context, st: State, first: Step, later: State, env: Env, sender: Account)
    requires first.action.ExchangeAuction? && Apply(ctx, st, first).Success?
    requires Sound(later, first.action.buy)
    ensures var ExchangeAuction(sell, buy, minBid, sellerSig, buyerSig) := first.action;
            Apply(ctx, later, Step(env, sender, first.action)).Success?
            <==> && sender in later.admins && !later.paused
                 && Offered(ctx, later, sell.nftContract, sell.nftTokenId, sell.party)
                 && Backed(ctx, later, buy)
                 && Covered(ctx, later, sell.party, buy, sell.royaltyAmount)
  {
    hide Apply, Offered, Backed, Covered, Signed, Sound;
    var ExchangeAuction(sell, buy, minBid, sellerSig, buyerSig) := first.action;
    SettledAuctionWasAllowed(ctx, st, first.env, first.sender, sell, buy, minBid, sellerSig, buyerSig);
    AuctionSettlesExactly(ctx, later, env, sender, sell, buy, minBid, sellerSig, buyerSig);
  }

  lemma SettledAuctionWasAllowed(ctx: Context, st: State, env: Env, sender: Account, sell: Order, buy: Order,
                                 minBid: Uint256, sellerSig: seq<Byte>, buyerSig: seq<Byte>)
    requires Apply(ctx, st, Step(env, sender, ExchangeAuction(sell, buy, minBid, sellerSig, buyerSig))).Success?
    ensures AuctionAllowed(ctx, st, sender, sell, buy, minBid, sellerSig, buyerSig)
  {
    hide AuctionChecks, Settle, Signed;
    AuctionGuards(ctx, st, sender, sell, buy, minBid, sellerSig, buyerSig);
  }
}
