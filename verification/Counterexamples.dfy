/**
 Concrete trades that a reader might not expect, in the smallest world there is: token 0 of seller 2 in collection 4,
 exchange at account 1, buyer 3, payment token 5, admin 9. They hold for every keccak256 and every ecrecover that
 accepts the signatures used.
 */
module Counterexamples {
  import opened Wrappers
  import opened Evm
  import opened Ledgers
  import opened Payments
  import opened Bytes
  import opened OrderEncoding
  import Erc20
  import Erc721
  import opened Erc721Theorems
  import opened ExchangeSpec
  import opened Settlement

  function SmallContext(keccak: Hash, ecrecover: (Bytes32, Signature) -> Address): Context {
    Context(1, [], [], 1, keccak, ecrecover)
  }

  ghost function SmallNft(): Erc721.State {
    Erc721.State(map[0 := 2], map[], {(2, 1)}, {}, map[], false, 1, map[], "")
  }

  /** The buyer has 5 units of token 5 and allows the exchange to take 10. */
  function SmallToken(): Erc20.Token {
    Erc20.Token(map[3 := 5], map[(3, 1) := 10])
  }

  ghost function World(nft: Erc721.State, token: Erc20.Token, coins: Ledger): State {
    State({9}, [9], 1, false, Chain(map[4 := nft], map[5 := token], coins))
  }

  ghost function SmallWorld(coins: Ledger): State {
    World(SmallNft(), SmallToken(), coins)
  }

  /** The seller owns the token, trades through the exchange, and the collection runs. */
  ghost predicate OnSale(nft: Erc721.State) {
    nft.owner == map[0 := 2] && (2, 1) in nft.operators && !nft.paused && nft.nextId == 1
  }

  /** An order for 1 that pays its seller `amount`. */
  function SmallOrder(party: Address, amount: Uint256): Order {
    Order([], 0, 10, 4, 0, 5, party, 0, amount, 0, 0, 1)
  }

  /** `g` is accepted as the party's signature of the order. */
  ghost predicate Accepts(ctx: Context, kind: Kind, o: Order, g: Signature) {
    ctx.ecrecover(Digest(ctx.keccak, ctx.SigningDomain(), kind, o), g) == o.party
  }

  lemma AcceptedIsSigned(ctx: Context, kind: Kind, o: Order, g: Signature)
    requires Accepts(ctx, kind, o, g)
    ensures Signed(ctx, kind, o, JoinSig(g))
  {
    hide Digest;
  }

  /** The token can be bought in the small world, for one coin, as long as the exchange can pay the seller. */
  lemma SmallPurchaseSettles(ctx: Context, nft: Erc721.State, coins: Ledger, amount: Uint256, g: Signature)
    requires ctx.self == 1 && Accepts(ctx, Sell, SmallOrder(2, amount), g)
    requires OnSale(nft) && 1 <= At(coins, 3) && amount <= At(coins, 1) + 1
    ensures var st := World(nft, SmallToken(), coins);
            Apply(ctx, st, Step(Env(0, {2}), 3, BuyNft(1, SmallOrder(2, amount), JoinSig(g)))).Success?
  {
    hide Apply, JoinSig, Signed, SmallToken;
    var st := World(nft, SmallToken(), coins);
    var sell := SmallOrder(2, amount);
    AcceptedIsSigned(ctx, Sell, sell, g);
    assert BuyPayments(sell) == [Payment(2, amount)];
    assert [Payment(2, amount)][1..] == [];
    PurchaseSettlesExactly(ctx, st, Env(0, {2}), 3, 1, sell, JoinSig(g));
  }

  /** A purchase that shrinks the exchange's balance: an order for 1 that pays its seller 6. */
  lemma OverpayingOrder(keccak: Hash, ecrecover: (Bytes32, Signature) -> Address, g: Signature)
    returns (ctx: Context, st: State, step: Step)
    requires Accepts(SmallContext(keccak, ecrecover), Sell, SmallOrder(2, 6), g)
    ensures ctx == SmallContext(keccak, ecrecover) && step.sender != ctx.self
    ensures step.action == BuyNft(1, SmallOrder(2, 6), JoinSig(g)) && Apply(ctx, st, step).Success?
    ensures At(Apply(ctx, st, step).value.chain.coins, ctx.self) < At(st.chain.coins, ctx.self)
  {
    hide Apply, JoinSig, Accepts;
    var coins := map[1 := 5, 3 := 1];
    ctx, st := SmallContext(keccak, ecrecover), SmallWorld(coins);
    step := Step(Env(0, {2}), 3, BuyNft(1, SmallOrder(2, 6), JoinSig(g)));
    SmallPurchaseSettles(ctx, SmallNft(), coins, 6, g);
    PurchaseDrawsOnFees(ctx, st, Env(0, {2}), 3, 1, SmallOrder(2, 6), JoinSig(g));
  }

  lemma SmallWorldIsSound(buy: Order)
    requires buy.nftContract == 4 && buy.paymentToken == 5
    ensures Sound(SmallWorld(map[]), buy)
  {
    var t := SmallToken();
    TotalWrite(map[], 3, 5);
    assert map[][3 := 5] == t.balances;
  }

  /** A sale that passes every guard and fails in a running collection: for 1, paying the seller 6 out of 5. */
  lemma SaleGuardsDoNotSuffice(keccak: Hash, ecrecover: (Bytes32, Signature) -> Address, g: Signature)
    requires Accepts(SmallContext(keccak, ecrecover), OrderEncoding.Buy, SmallOrder(3, 6), g)
    ensures var ctx, st, env := SmallContext(keccak, ecrecover), SmallWorld(map[]), Env(0, {});
            && Sound(st, SmallOrder(3, 6)) && !st.chain.nfts[4].paused
            && SellChecks(ctx, st, env, 2, SmallOrder(3, 6), JoinSig(g)).Success?
            && Apply(ctx, st, Step(env, 2, SellNft(SmallOrder(3, 6), JoinSig(g)))).Failure?
  {
    hide Apply, SellChecks, JoinSig, Signed;
    var ctx, st, buy := SmallContext(keccak, ecrecover), SmallWorld(map[]), SmallOrder(3, 6);
    SmallWorldIsSound(buy);
    AcceptedIsSigned(ctx, OrderEncoding.Buy, buy, g);
    SaleGuards(ctx, st, Env(0, {}), 2, buy, JoinSig(g));
    assert TokenPayments(ctx, 2, buy, 0)[0] == Payment(2, 6);
    SaleSettlesExactly(ctx, st, Env(0, {}), 2, buy, JoinSig(g));
  }

  /** The same for an auction. */
  lemma AuctionGuardsDoNotSuffice(keccak: Hash, ecrecover: (Bytes32, Signature) -> Address, g: Signature, h: Signature)
    requires Accepts(SmallContext(keccak, ecrecover), Sell, SmallOrder(2, 1), g)
    requires Accepts(SmallContext(keccak, ecrecover), OrderEncoding.Buy, SmallOrder(3, 6), h)
    ensures var ctx, st := SmallContext(keccak, ecrecover), SmallWorld(map[]);
            var sell, buy := SmallOrder(2, 1), SmallOrder(3, 6);
            && Sound(st, buy) && !st.chain.nfts[4].paused
            && AuctionChecks(ctx, st, 9, sell, buy, 1, JoinSig(g), JoinSig(h)).Success?
            && Apply(ctx, st, Step(Env(0, {}), 9, ExchangeAuction(sell, buy, 1, JoinSig(g), JoinSig(h)))).Failure?
  {
    hide Apply, AuctionChecks, JoinSig, Signed;
    var ctx, st, sell, buy := SmallContext(keccak, ecrecover), SmallWorld(map[]), SmallOrder(2, 1), SmallOrder(3, 6);
    SmallWorldIsSound(buy);
    AcceptedIsSigned(ctx, Sell, sell, g);
    AcceptedIsSigned(ctx, OrderEncoding.Buy, buy, h);
    AuctionGuards(ctx, st, 9, sell, buy, 1, JoinSig(g), JoinSig(h));
    assert TokenPayments(ctx, 2, buy, 0)[0] == Payment(2, 6);
    AuctionSettlesExactly(ctx, st, Env(0, {}), 9, sell, buy, 1, JoinSig(g), JoinSig(h));
  }

  // ----- orders that settle twice -----

  /** The collection after its token went to the buyer and was handed back. */
  ghost function HandedBack(nft: Erc721.State): Erc721.State {
    nft.(owner := map[0 := 2], approved := nft.approved - {0} - {0})
  }

  lemma OneEntry<V>(k: Address, v: V, v': V)
    ensures map[k := v][k := v'] == map[k := v']
  {
  }

  function GiveBack(): Step {
    Step(Env(0, {2}), 3, CallNft(4, Erc721.Call.TransferFrom(3, 2, 0)))
  }

  /** `trade` settles, and settles again after the buyer has handed the token back. */
  ghost predicate SettlesTwice(ctx: Context, st: State, trade: Step) {
    && Apply(ctx, st, trade).Success?
    && Apply(ctx, Run(ctx, st, [trade]), GiveBack()).Success?
    && Apply(ctx, Run(ctx, st, [trade, GiveBack()]), trade).Success?
  }

  /** One sell order, bought twice. */
  lemma OrderSettlesTwice(keccak: Hash, ecrecover: (Bytes32, Signature) -> Address, g: Signature)
    requires Accepts(SmallContext(keccak, ecrecover), Sell, SmallOrder(2, 1), g)
    ensures SettlesTwice(SmallContext(keccak, ecrecover), SmallWorld(map[3 := 2]),
                         Step(Env(0, {2}), 3, BuyNft(1, SmallOrder(2, 1), JoinSig(g))))
  {
    hide JoinSig, Accepts, SmallToken, Apply;
    var ctx, st := SmallContext(keccak, ecrecover), SmallWorld(map[3 := 2]);
    var trade := Step(Env(0, {2}), 3, BuyNft(1, SmallOrder(2, 1), JoinSig(g)));
    SmallPurchaseSettles(ctx, SmallNft(), map[3 := 2], 1, g);
    PurchaseSettles(ctx, st, Env(0, {2}), 3, 1, SmallOrder(2, 1), JoinSig(g));
    var coins := Apply(ctx, st, trade).value.chain.coins;
    OneEntry(4, SmallNft(), NftMoved(SmallNft(), 3, 0));
    GivenBack(ctx, st, trade, SmallToken(), coins);
    SmallPurchaseSettles(ctx, HandedBack(SmallNft()), coins, 1, g);
  }

  /** The token can be sold in such a world, for one unit, to a buyer who can pay more than one. */
  lemma SmallSaleSettles(ctx: Context, nft: Erc721.State, token: Erc20.Token, g: Signature)
    requires ctx.self == 1 && Accepts(ctx, OrderEncoding.Buy, SmallOrder(3, 1), g)
    requires OnSale(nft) && Erc20.Solvent(token) && 1 < At(token.balances, 3) && 1 < Erc20.Allowance(token, 3, 1)
    ensures Apply(ctx, World(nft, token, map[]), Step(Env(0, {2}), 2, SellNft(SmallOrder(3, 1), JoinSig(g)))).Success?
  {
    hide Apply, JoinSig, Signed;
    AcceptedIsSigned(ctx, OrderEncoding.Buy, SmallOrder(3, 1), g);
    SmallPayments(ctx, At(token.balances, 3));
    SaleSettlesExactly(ctx, World(nft, token, map[]), Env(0, {2}), 2, SmallOrder(3, 1), JoinSig(g));
  }

  lemma SmallPayments(ctx: Context, balance: nat)
    requires 1 <= balance
    ensures Affordable(balance, 3, TokenPayments(ctx, 2, SmallOrder(3, 1), 0))
  {
    var ps := TokenPayments(ctx, 2, SmallOrder(3, 1), 0);
    assert ps == [Payment(2, 1), Payment(ctx.self, 0)];
    assert ps[1..] == [Payment(ctx.self, 0)] && ps[1..][1..] == [];
  }

  /** One buy order, sold to twice; the buyer pays twice. */
  lemma BidSettlesTwice(keccak: Hash, ecrecover: (Bytes32, Signature) -> Address, g: Signature)
    requires Accepts(SmallContext(keccak, ecrecover), OrderEncoding.Buy, SmallOrder(3, 1), g)
    ensures SettlesTwice(SmallContext(keccak, ecrecover), SmallWorld(map[]),
                         Step(Env(0, {2}), 2, SellNft(SmallOrder(3, 1), JoinSig(g))))
  {
    hide JoinSig, Accepts, Apply;
    var ctx, st := SmallContext(keccak, ecrecover), SmallWorld(map[]);
    var trade := Step(Env(0, {2}), 2, SellNft(SmallOrder(3, 1), JoinSig(g)));
    SmallWorldIsSound(SmallOrder(3, 1));
    SmallSaleSettles(ctx, SmallNft(), SmallToken(), g);
    SaleSettles(ctx, st, Env(0, {2}), 2, SmallOrder(3, 1), JoinSig(g));
    var token := Apply(ctx, st, trade).value.chain.tokens[5];
    OneEntry(4, SmallNft(), NftMoved(SmallNft(), 3, 0));
    OneEntry(5, SmallToken(), token);
    GivenBack(ctx, st, trade, token, map[]);
    SmallSaleSettles(ctx, HandedBack(SmallNft()), token, g);
  }

  /** The same world, with an admin who executes the two orders of an auction. */
  lemma SmallAuctionSettles(ctx: Context, nft: Erc721.State, token: Erc20.Token, g: Signature, h: Signature)
    requires ctx.self == 1
    requires Accepts(ctx, Sell, SmallOrder(2, 1), g) && Accepts(ctx, OrderEncoding.Buy, SmallOrder(3, 1), h)
    requires OnSale(nft) && Erc20.Solvent(token) && 1 < At(token.balances, 3) && 1 < Erc20.Allowance(token, 3, 1)
    ensures var trade := ExchangeAuction(SmallOrder(2, 1), SmallOrder(3, 1), 1, JoinSig(g), JoinSig(h));
            Apply(ctx, World(nft, token, map[]), Step(Env(0, {2}), 9, trade)).Success?
  {
    hide Apply, JoinSig, Signed;
    AcceptedIsSigned(ctx, Sell, SmallOrder(2, 1), g);
    AcceptedIsSigned(ctx, OrderEncoding.Buy, SmallOrder(3, 1), h);
    SmallPayments(ctx, At(token.balances, 3));
    AuctionSettlesExactly(ctx, World(nft, token, map[]), Env(0, {2}), 9, SmallOrder(2, 1), SmallOrder(3, 1), 1,
                          JoinSig(g), JoinSig(h));
  }

  lemma AuctionSettlesTwice(keccak: Hash, ecrecover: (Bytes32, Signature) -> Address, g: Signature, h: Signature)
    requires Accepts(SmallContext(keccak, ecrecover), Sell, SmallOrder(2, 1), g)
    requires Accepts(SmallContext(keccak, ecrecover), OrderEncoding.Buy, SmallOrder(3, 1), h)
    ensures var trade := ExchangeAuction(SmallOrder(2, 1), SmallOrder(3, 1), 1, JoinSig(g), JoinSig(h));
            SettlesTwice(SmallContext(keccak, ecrecover), SmallWorld(map[]), Step(Env(0, {2}), 9, trade))
  {
    hide JoinSig, Accepts, Apply;
    var ctx, st := SmallContext(keccak, ecrecover), SmallWorld(map[]);
    var trade := Step(Env(0, {2}), 9, ExchangeAuction(SmallOrder(2, 1), SmallOrder(3, 1), 1, JoinSig(g), JoinSig(h)));
    SmallWorldIsSound(SmallOrder(3, 1));
    SmallAuctionSettles(ctx, SmallNft(), SmallToken(), g, h);
    AuctionSettles(ctx, st, Env(0, {2}), 9, SmallOrder(2, 1), SmallOrder(3, 1), 1, JoinSig(g), JoinSig(h));
    var token := Apply(ctx, st, trade).value.chain.tokens[5];
    OneEntry(4, SmallNft(), NftMoved(SmallNft(), 3, 0));
    OneEntry(5, SmallToken(), token);
    GivenBack(ctx, st, trade, token, map[]);
    SmallAuctionSettles(ctx, HandedBack(SmallNft()), token, g, h);
  }

  lemma RunOfOne(ctx: Context, st: State, step: Step)
    ensures Run(ctx, st, [step]) == Deliver(ctx, st, step)
  {
    hide Deliver;
    assert [step][1..] == [];
  }

  lemma RunOfTwo(ctx: Context, st: State, first: Step, second: Step)
    ensures Run(ctx, st, [first]) == Deliver(ctx, st, first)
    ensures Run(ctx, st, [first, second]) == Deliver(ctx, Deliver(ctx, st, first), second)
  {
    hide Deliver;
    assert [first, second][1..] == [second];
    RunOfOne(ctx, st, first);
    RunOfOne(ctx, Deliver(ctx, st, first), second);
  }

  /** After a trade that left the token with the buyer, handing it back restores the offer. */
  lemma GivenBack(ctx: Context, st: State, trade: Step, token: Erc20.Token, coins: Ledger)
    requires Apply(ctx, st, trade) == Success(World(NftMoved(SmallNft(), 3, 0), token, coins))
    ensures OnSale(HandedBack(SmallNft()))
    ensures Apply(ctx, Run(ctx, st, [trade]), GiveBack()).Success?
    ensures Run(ctx, st, [trade, GiveBack()]) == World(HandedBack(SmallNft()), token, coins)
  {
    hide Apply;
    RunOfTwo(ctx, st, trade, GiveBack());
    ReturnOfTheToken(ctx, token, coins);
  }

  lemma ReturnOfTheToken(ctx: Context, token: Erc20.Token, coins: Ledger)
    ensures Apply(ctx, World(NftMoved(SmallNft(), 3, 0), token, coins), GiveBack())
            == Success(World(HandedBack(SmallNft()), token, coins))
  {
    hide Erc721.TokensOf;
    var nft := NftMoved(SmallNft(), 3, 0);
    var m := Erc721.Msg(3, Erc721.Call.TransferFrom(3, 2, 0));
    assert Fresh(nft);
    FreshGuards(nft, m);
    assert Erc721.Apply(nft, m) == Erc721.Move(nft, 3, 2, 0);
    assert nft.owner[0 := 2] == map[0 := 2];
    OneEntry(4, nft, HandedBack(SmallNft()));
  }

  // ----- an auction that costs more than the signed total -----

  /** An order for 10, of which `amount` is for the seller and the rest is royalty, to account 7. */
  function SplitOrder(party: Address, amount: Uint256): Order
    requires amount <= 10
  {
    Order([], 0, 10, 4, 0, 5, party, 7, amount, 0, 10 - amount, 10)
  }

  /** Two orders for 10 that add up, and a charge of 20: all royalty in one, all price in the other. */
  lemma AuctionOvercharges(keccak: Hash, ecrecover: (Bytes32, Signature) -> Address, g: Signature, h: Signature)
    returns (st: State, step: Step, charge: nat)
    requires Accepts(SmallContext(keccak, ecrecover), Sell, SplitOrder(2, 0), g)
    requires Accepts(SmallContext(keccak, ecrecover), OrderEncoding.Buy, SplitOrder(3, 10), h)
    ensures var ctx := SmallContext(keccak, ecrecover);
            && step.action == ExchangeAuction(SplitOrder(2, 0), SplitOrder(3, 10), 10, JoinSig(g), JoinSig(h))
            && Apply(ctx, st, step).Success? && 5 in st.chain.tokens && 5 in Apply(ctx, st, step).value.chain.tokens
            && charge == At(st.chain.tokens[5].balances, 3) - At(Apply(ctx, st, step).value.chain.tokens[5].balances, 3)
            && SplitOrder(3, 10).totalAmount < charge
  {
    hide Apply, JoinSig, Signed;
    var ctx := SmallContext(keccak, ecrecover);
    var token := Erc20.Token(map[3 := 30], map[(3, 1) := 30]);
    var sell, buy := SplitOrder(2, 0), SplitOrder(3, 10);
    st := World(SmallNft(), token, map[]);
    step := Step(Env(0, {}), 9, ExchangeAuction(sell, buy, 10, JoinSig(g), JoinSig(h)));
    AcceptedIsSigned(ctx, Sell, sell, g);
    AcceptedIsSigned(ctx, OrderEncoding.Buy, buy, h);
    TotalWrite(map[], 3, 30);
    assert map[][3 := 30] == token.balances;
    TokenPaymentsAddUp(ctx, 2, buy, 10, ZERO);
    AmountCoversPayments(30, 3, TokenPayments(ctx, 2, buy, 10));
    AuctionSettlesExactly(ctx, st, Env(0, {}), 9, sell, buy, 10, JoinSig(g), JoinSig(h));
    charge := AuctionCharges(ctx, st, Env(0, {}), 9, sell, buy, 10, JoinSig(g), JoinSig(h));
  }
}
