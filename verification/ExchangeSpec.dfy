/**
 contract/NFTexchange_v3.sol as a state machine over one world: the exchange's own storage, the ERC-721 collections,
 the ERC-20 tokens and the native coin. A step commits a new world or reverts with an error.
 */
module ExchangeSpec {
  import opened Wrappers
  import opened Evm
  import opened Sequences
  import opened Ledgers
  import opened Bytes
  import opened OrderEncoding
  import Erc20
  import Erc721
  import opened Payments

  datatype Error =
    | Unauthorized | ContractPaused | DeletesItself | NotAnAdmin | AdminCountOverflow
    | ZeroNftContract | ZeroParty | ZeroPaymentToken | ZeroRoyaltyPayee
    | NotAContract | NotApprovedForAll | NonexistentNft | NotNftOwner | NotStarted | Expired
    | ZeroAmount | AmountMismatch | InvalidSignatureLength | InvalidSellerSignature | InvalidBuyerSignature
    | AllowanceTooSmall | BalanceTooSmall | NftMismatch | TokenMismatch | BelowMinimumBid | BelowAskingPrice
    | NotEnoughFunds | PayeeRejects
    | NftReverted(nft: Erc721.Error) | TokenReverted(token: Erc20.Error)

  /** Everything outside the exchange's own storage. */
  datatype Chain = Chain(
    nfts: map<Address, Erc721.State>,
    tokens: map<Address, Erc20.Token>,
    coins: Ledger)

  datatype State = State(
    admins: set<Address>,
    allAdmins: seq<Address>,
    adminCount: nat,
    paused: bool,
    chain: Chain)

  /** What is fixed at deployment, with keccak256 and ecrecover left open. */
  datatype Context = Context(
    self: Account,
    name: seq<Byte>,
    version: seq<Byte>,
    chainId: Uint256,
    keccak: Hash,
    ecrecover: (Bytes32, Signature) -> Address)
  {
    /** Orders are signed for this deployment: its own address on its own chain. */
    function SigningDomain(): Domain {
      Domain(name, version, chainId, self)
    }
  }

  /** The block's timestamp, and the accounts that accept a plain coin transfer while the call runs. */
  datatype Env = Env(now: Uint256, accepting: set<Address>)

  datatype Action =
    | AddAdmin(account: Address)
    | DeleteAdmin(account: Address)
    | PauseContract
    | UnpauseContract
    | WithdrawEth(to: Address, amount: Uint256)
    | WithdrawErc20(token: Address, to: Address, amount: Uint256)
    | BuyNft(value: Uint256, sell: Order, sig: seq<Byte>)
    | SellNft(buy: Order, sig: seq<Byte>)
    | ExchangeAuction(sell: Order, buy: Order, minBid: Uint256, sellerSig: seq<Byte>, buyerSig: seq<Byte>)
    // Calls that other accounts make past the exchange.
    | CallNft(nft: Address, call: Erc721.Call)
    | CallToken(token: Address, spend: TokenCall)
    | SendCoins(to: Address, amount: Uint256)

  datatype TokenCall =
    | Transfer(to: Address, amount: Uint256)
    | Approve(spender: Address, amount: Uint256)
    | TransferFrom(from: Address, to: Address, amount: Uint256)

  datatype Step = Step(env: Env, sender: Account, action: Action)

  // ----- the administrators' list -----

  /** The first position of `x`; the length if there is none. */
  function FirstIndex<T(==)>(s: seq<T>, x: T): (i: nat)
    ensures i <= |s| && (i < |s| ==> s[i] == x) && (i < |s| <==> x in s)
  {
    if s == [] || s[0] == x then 0 else 1 + FirstIndex(s[1..], x)
  }

  function RemoveElement<T(==)>(s: seq<T>, x: T): seq<T> {
    var i := FirstIndex(s, x);
    if i < |s| then SwapRemove(s, i) else s
  }

  // ----- calls into the other contracts -----

  function NftAt(chain: Chain, contract: Address): Result<Erc721.State, Error> {
    if contract in chain.nfts then Success(chain.nfts[contract]) else Failure(NotAContract)
  }

  function TokenAt(chain: Chain, contract: Address): Result<Erc20.Token, Error> {
    if contract in chain.tokens then Success(chain.tokens[contract]) else Failure(NotAContract)
  }

  function NftOwner(nft: Erc721.State, id: Uint256): Result<Address, Error> {
    if id in nft.owner then Success(nft.owner[id]) else Failure(NonexistentNft)
  }

  /** The exchange's call nft.transferFrom(from, to, id). */
  function MoveNft(ctx: Context, chain: Chain, contract: Address, from: Address, to: Address, id: Uint256)
    : Result<Chain, Error>
  {
    var nft :- NftAt(chain, contract);
    match Erc721.Apply(nft, Erc721.Msg(ctx.self, Erc721.Call.TransferFrom(from, to, id)))
    case Failure(e) => Failure(NftReverted(e))
    case Success(moved) => Success(chain.(nfts := chain.nfts[contract := moved]))
  }

  /** The exchange's calls token.transferFrom(from, payee, amount), one for each payment. */
  function PayTokens(ctx: Context, chain: Chain, contract: Address, from: Address, ps: seq<Payment>)
    : Result<Chain, Error>
  {
    var token :- TokenAt(chain, contract);
    match Erc20.PayAll(token, ctx.self, from, ps)
    case Failure(e) => Failure(TokenReverted(e))
    case Success(paid) => Success(chain.(tokens := chain.tokens[contract := paid]))
  }

  /** A plain coin transfer; the exchange itself has no function that receives one. */
  function SendCoinsTo(ctx: Context, env: Env, coins: Ledger, from: Address, p: Payment): Result<Ledger, Error> {
    var balance := At(coins, from);
    :- Require(p.amount <= balance, NotEnoughFunds);
    :- Require(p.payee in env.accepting && p.payee != ctx.self, PayeeRejects);
    Success(MoveCoins(coins, from, p.payee, p.amount))
  }

  function MoveCoins(coins: Ledger, from: Address, to: Address, amount: nat): Ledger
    requires amount <= At(coins, from)
  {
    var debited := coins[from := At(coins, from) - amount];
    debited[to := At(debited, to) + amount]
  }

  function PayCoins(ctx: Context, env: Env, coins: Ledger, ps: seq<Payment>): Result<Ledger, Error>
    decreases |ps|
  {
    if ps == [] then Success(coins)
    else
      var paid :- SendCoinsTo(ctx, env, coins, ctx.self, ps[0]);
      PayCoins(ctx, env, paid, ps[1..])
  }

  /** verifySeller and verifyBuyer: the signature recovers to the party named in the order. */
  function Verify(ctx: Context, kind: Kind, o: Order, sig: seq<Byte>): Result<bool, Error> {
    match SplitSig(sig, seq(31, _ => 0))
    case Failure(_) => Failure(InvalidSignatureLength)
    case Success(g) => Success(o.party == ctx.ecrecover(Digest(ctx.keccak, ctx.SigningDomain(), kind, o), g))
  }

  // ----- buyNFT -----

  function RoyaltyPayment(payee: Address, amount: nat): seq<Payment> {
    if amount > 0 then [Payment(payee, amount)] else []
  }

  function BuyPayments(sell: Order): seq<Payment> {
    [Payment(sell.party, sell.sellerAmount)] + RoyaltyPayment(sell.royaltyPayTo, sell.royaltyAmount)
  }

  function BuyChecks(ctx: Context, st: State, env: Env, value: Uint256, sell: Order, sig: seq<Byte>)
    : Result<(), Error>
  {
    var chain := st.chain;
    :- Require(!st.paused, ContractPaused);
    :- Require(sell.nftContract != ZERO, ZeroNftContract);
    :- Require(sell.party != ZERO, ZeroParty);
    :- Require(sell.royaltyAmount > 0 ==> sell.royaltyPayTo != ZERO, ZeroRoyaltyPayee);
    var nft :- NftAt(chain, sell.nftContract);
    :- Require((sell.party, ctx.self) in nft.operators, NotApprovedForAll);
    var owner :- NftOwner(nft, sell.nftTokenId);
    :- Require(owner == sell.party, NotNftOwner);
    :- Require(env.now >= sell.startsAt, NotStarted);
    :- Require(env.now < sell.expiresAt, Expired);
    :- Require(value > 0, ZeroAmount);
    :- Require(sell.totalAmount == value, AmountMismatch);
    var signed :- Verify(ctx, Sell, sell, sig);
    :- Require(signed, InvalidSellerSignature);
    Success(())
  }

  /** msg.value reaches the exchange before its code runs. */
  function Purchase(ctx: Context, st: State, env: Env, sender: Account, value: Uint256, sell: Order, sig: seq<Byte>)
    : Result<State, Error>
  {
    var coins := st.chain.coins;
    :- Require(value <= At(coins, sender), NotEnoughFunds);
    var funded := st.(chain := st.chain.(coins := MoveCoins(coins, sender, ctx.self, value)));
    var _ :- BuyChecks(ctx, funded, env, value, sell, sig);
    var moved :- MoveNft(ctx, funded.chain, sell.nftContract, sell.party, sender, sell.nftTokenId);
    var paid :- PayCoins(ctx, env, moved.coins, BuyPayments(sell));
    Success(st.(chain := moved.(coins := paid)))
  }

  // ----- sellNFT -----

  /** The payments of a trade in tokens: the seller's share, the fee, and a royalty unless it is zero. */
  function TokenPayments(ctx: Context, seller: Address, buy: Order, royalty: nat): seq<Payment> {
    [Payment(seller, buy.sellerAmount), Payment(ctx.self, buy.feeAmount)] + RoyaltyPayment(buy.royaltyPayTo, royalty)
  }

  function SellChecks(ctx: Context, st: State, env: Env, sender: Account, buy: Order, sig: seq<Byte>)
    : Result<(), Error>
  {
    var chain := st.chain;
    :- Require(!st.paused, ContractPaused);
    :- Require(buy.nftContract != ZERO, ZeroNftContract);
    :- Require(buy.party != ZERO, ZeroParty);
    :- Require(buy.paymentToken != ZERO, ZeroPaymentToken);
    :- Require(buy.royaltyAmount > 0 ==> buy.royaltyPayTo != ZERO, ZeroRoyaltyPayee);
    var token :- TokenAt(chain, buy.paymentToken);
    :- Require(Erc20.Allowance(token, buy.party, ctx.self) > buy.totalAmount, AllowanceTooSmall);
    :- Require(At(token.balances, buy.party) > buy.totalAmount, BalanceTooSmall);
    var nft :- NftAt(chain, buy.nftContract);
    :- Require((sender as Address, ctx.self as Address) in nft.operators, NotApprovedForAll);
    var owner :- NftOwner(nft, buy.nftTokenId);
    :- Require(owner == sender, NotNftOwner);
    :- Require(env.now >= buy.startsAt, NotStarted);
    :- Require(env.now < buy.expiresAt, Expired);
    var signed :- Verify(ctx, OrderEncoding.Buy, buy, sig);
    :- Require(signed, InvalidBuyerSignature);
    Success(())
  }

  /** The NFT goes from `seller` to the buyer, the payments come from the buyer. */
  function Settle(ctx: Context, st: State, seller: Address, buy: Order, ps: seq<Payment>): Result<State, Error> {
    var moved :- MoveNft(ctx, st.chain, buy.nftContract, seller, buy.party, buy.nftTokenId);
    var paid :- PayTokens(ctx, moved, buy.paymentToken, buy.party, ps);
    Success(st.(chain := paid))
  }

  function Sale(ctx: Context, st: State, env: Env, sender: Account, buy: Order, sig: seq<Byte>): Result<State, Error> {
    var _ :- SellChecks(ctx, st, env, sender, buy, sig);
    Settle(ctx, st, sender, buy, TokenPayments(ctx, sender, buy, buy.royaltyAmount))
  }

  // ----- exchangeNFTauction -----

  /** What the two orders and the caller must satisfy on paper. */
  function AuctionTerms(st: State, sender: Account, sell: Order, buy: Order, minBid: Uint256): Result<(), Error> {
    var allowed := sender in st.admins;
    :- Require(allowed, Unauthorized);
    :- Require(!st.paused, ContractPaused);
    :- Require(sell.party != ZERO, ZeroParty);
    :- Require(buy.party != ZERO, ZeroParty);
    :- Require(sell.royaltyAmount > 0 ==> buy.royaltyPayTo != ZERO, ZeroRoyaltyPayee);
    :- Require(sell.nftContract != ZERO, ZeroNftContract);
    :- Require(sell.nftContract == buy.nftContract, NftMismatch);
    :- Require(sell.nftTokenId == buy.nftTokenId, NftMismatch);
    :- Require(buy.paymentToken != ZERO, ZeroPaymentToken);
    :- Require(sell.paymentToken == buy.paymentToken, TokenMismatch);
    :- Require(buy.totalAmount >= minBid, BelowMinimumBid);
    :- Require(buy.totalAmount >= sell.totalAmount, BelowAskingPrice);
    Success(())
  }

  function AuctionChecks(ctx: Context, st: State, sender: Account, sell: Order, buy: Order, minBid: Uint256,
                         sellerSig: seq<Byte>, buyerSig: seq<Byte>): Result<(), Error>
  {
    var chain := st.chain;
    var _ :- AuctionTerms(st, sender, sell, buy, minBid);
    var sold :- Verify(ctx, Sell, sell, sellerSig);
    :- Require(sold, InvalidSellerSignature);
    var bought :- Verify(ctx, OrderEncoding.Buy, buy, buyerSig);
    :- Require(bought, InvalidBuyerSignature);
    var nft :- NftAt(chain, sell.nftContract);
    :- Require((sell.party, ctx.self) in nft.operators, NotApprovedForAll);
    var owner :- NftOwner(nft, sell.nftTokenId);
    :- Require(owner == sell.party, NotNftOwner);
    var token :- TokenAt(chain, buy.paymentToken);
    :- Require(Erc20.Allowance(token, buy.party, ctx.self) > buy.totalAmount, AllowanceTooSmall);
    :- Require(At(token.balances, buy.party) > buy.totalAmount, BalanceTooSmall);
    Success(())
  }

  function Auction(ctx: Context, st: State, sender: Account, sell: Order, buy: Order, minBid: Uint256,
                   sellerSig: seq<Byte>, buyerSig: seq<Byte>): Result<State, Error>
  {
    var _ :- AuctionChecks(ctx, st, sender, sell, buy, minBid, sellerSig, buyerSig);
    // The seller's share and the fee come from the buy order, the royalty from the sell order.
    Settle(ctx, st, sell.party, buy, TokenPayments(ctx, sell.party, buy, sell.royaltyAmount))
  }

  // ----- one step -----

  function Apply(ctx: Context, st: State, step: Step): Result<State, Error> {
    var sender := step.sender;
    match step.action
    case AddAdmin(account) =>
      :- Require(sender in st.admins, Unauthorized);
      :- Require(st.adminCount < MAX_UINT16, AdminCountOverflow);
      Success(st.(admins := st.admins + {account}, allAdmins := st.allAdmins + [account],
                  adminCount := st.adminCount + 1))
    case DeleteAdmin(account) =>
      :- Require(sender in st.admins, Unauthorized);
      :- Require(account != sender, DeletesItself);
      :- Require(account in st.admins, NotAnAdmin);
      Success(st.(admins := st.admins - {account}, allAdmins := RemoveElement(st.allAdmins, account),
                  adminCount := if st.adminCount == 0 then 0 else st.adminCount - 1))
    case PauseContract =>
      :- Require(sender in st.admins, Unauthorized);
      Success(st.(paused := true))
    case UnpauseContract =>
      :- Require(sender in st.admins, Unauthorized);
      Success(st.(paused := false))
    case WithdrawEth(to, amount) =>
      :- Require(sender in st.admins, Unauthorized);
      var coins :- SendCoinsTo(ctx, step.env, st.chain.coins, ctx.self, Payment(to, amount));
      Success(st.(chain := st.chain.(coins := coins)))
    case WithdrawErc20(contract, to, amount) =>
      :- Require(sender in st.admins, Unauthorized);
      var token :- TokenAt(st.chain, contract);
      :- Require(amount <= At(token.balances, ctx.self), NotEnoughFunds);
      FinishTokenCall(st, contract, Erc20.Transfer(token, ctx.self, to, amount))
    case BuyNft(value, sell, sig) => Purchase(ctx, st, step.env, sender, value, sell, sig)
    case SellNft(buy, sig) => Sale(ctx, st, step.env, sender, buy, sig)
    case ExchangeAuction(sell, buy, minBid, sellerSig, buyerSig) =>
      Auction(ctx, st, sender, sell, buy, minBid, sellerSig, buyerSig)
    case CallNft(contract, call) =>
      var nft :- NftAt(st.chain, contract);
      (match Erc721.Apply(nft, Erc721.Msg(sender, call))
       case Failure(e) => Failure(NftReverted(e))
       case Success(next) => Success(st.(chain := st.chain.(nfts := st.chain.nfts[contract := next]))))
    case CallToken(contract, spend) =>
      var token :- TokenAt(st.chain, contract);
      FinishTokenCall(st, contract, match spend
        case Transfer(to, amount) => Erc20.Transfer(token, sender, to, amount)
        case Approve(spender, amount) => Success(Erc20.Approve(token, sender, spender, amount))
        case TransferFrom(from, to, amount) => Erc20.TransferFrom(token, sender, from, to, amount))
    case SendCoins(to, amount) =>
      var coins :- SendCoinsTo(ctx, step.env, st.chain.coins, sender, Payment(to, amount));
      Success(st.(chain := st.chain.(coins := coins)))
  }

  function FinishTokenCall(st: State, contract: Address, r: Result<Erc20.Token, Erc20.Error>): Result<State, Error> {
    match r
    case Failure(e) => Failure(TokenReverted(e))
    case Success(token) => Success(st.(chain := st.chain.(tokens := st.chain.tokens[contract := token])))
  }

  /** A step that reverts leaves the world as it was. */
  function Deliver(ctx: Context, st: State, step: Step): State {
    var r := Apply(ctx, st, step);
    if r.Success? then r.value else st
  }

  function Run(ctx: Context, st: State, steps: seq<Step>): State
    decreases |steps|
  {
    if steps == [] then st else Run(ctx, Deliver(ctx, st, steps[0]), steps[1..])
  }

  /** The state after the constructor, with `admin` registered. */
  function Initial(admin: Address, chain: Chain): State {
    State({admin}, [admin], 1, false, chain)
  }
}
