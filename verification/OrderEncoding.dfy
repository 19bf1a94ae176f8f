/**
 The signed orders of the exchange: EIP-712 digests (contract/NFTexchange_v3.sol), the packed digest of
 contract/NFTExchange_v1.sol, and the splitting of a 65-byte signature. keccak256 is a parameter `h`; equality of
 digests is traced back to the finitely many byte strings that were hashed.
 */
module OrderEncoding {
  import opened Wrappers
  import opened Evm
  import opened Powers
  import opened Bytes

  type Hash = seq<Byte> -> Bytes32

  const DOMAIN_TYPE :=
    "EIP712Domain" + "(string name" + ",string version" + ",uint256 chainId" + ",address verifyingContract" + ")"
  const SELL_TYPE :=
    "SellOrder" + "(string _nonce" + ",uint _startsAt" + ",uint _expiresAt" + ",address _nftContract"
    + ",uint256 _nftTokenId" + ",address _paymentTokenContract" + ",address _seller"
    + ",address _royaltyPayTo" + ",uint256 _sellerAmount"
    + ",uint256 _feeAmount" + ",uint256 _royaltyAmount" + ",uint256 _totalAmount" + ")"
  const BUY_TYPE :=
    "BuyOrder" + "(string _nonce" + ",uint _startsAt" + ",uint _expiresAt" + ",address _nftContract"
    + ",uint256 _nftTokenId" + ",address _paymentTokenContract" + ",address _buyer"
    + ",address _royaltyPayTo" + ",uint256 _sellerAmount"
    + ",uint256 _feeAmount" + ",uint256 _royaltyAmount" + ",uint256 _totalAmount" + ")"

  datatype Domain = Domain(name: seq<Byte>, version: seq<Byte>, chainId: Uint256, verifyingContract: Address)

  datatype Kind = Sell | Buy

  /** SellOrder and BuyOrder have the same fields; `party` is the seller of one and the buyer of the other. */
  datatype Order = Order(
    nonce: seq<Byte>,
    startsAt: Uint256,
    expiresAt: Uint256,
    nftContract: Address,
    nftTokenId: Uint256,
    paymentToken: Address,
    party: Address,
    royaltyPayTo: Address,
    sellerAmount: Uint256,
    feeAmount: Uint256,
    royaltyAmount: Uint256,
    totalAmount: Uint256)

  function OrderType(kind: Kind): seq<Byte> {
    Ascii(if kind.Sell? then SELL_TYPE else BUY_TYPE)
  }

  function DomainBytes(h: Hash, d: Domain): seq<Byte> {
    Words([h(Ascii(DOMAIN_TYPE)), h(d.name), h(d.version), d.chainId, d.verifyingContract])
  }

  function StructBytes(h: Hash, kind: Kind, o: Order): seq<Byte> {
    Words([h(OrderType(kind)), h(o.nonce), o.startsAt, o.expiresAt, o.nftContract, o.nftTokenId, o.paymentToken,
           o.party, o.royaltyPayTo, o.sellerAmount, o.feeAmount, o.royaltyAmount, o.totalAmount])
  }

  function DigestBytes(h: Hash, d: Domain, kind: Kind, o: Order): seq<Byte> {
    [0x19, 0x01] + Words([h(DomainBytes(h, d)), h(StructBytes(h, kind, o))])
  }

  function Digest(h: Hash, d: Domain, kind: Kind, o: Order): Bytes32 {
    h(DigestBytes(h, d, kind, o))
  }

  /** Every byte string hashed on the way to one digest. */
  ghost function Preimages(h: Hash, d: Domain, kind: Kind, o: Order): set<seq<Byte>> {
    {Ascii(DOMAIN_TYPE), d.name, d.version, DomainBytes(h, d), OrderType(kind), o.nonce, StructBytes(h, kind, o),
     DigestBytes(h, d, kind, o)}
  }

  ghost predicate CollisionFree(h: Hash, inputs: set<seq<Byte>>) {
    forall a, b :: a in inputs && b in inputs && h(a) == h(b) ==> a == b
  }

  lemma TypesDiffer()
    ensures OrderType(Sell) != OrderType(Buy)
  {
    assert SELL_TYPE[0] == 'S' && BUY_TYPE[0] == 'B';
    assert OrderType(Sell)[0] == ('S' as int) % 256 && OrderType(Buy)[0] == ('B' as int) % 256;
  }

  lemma FieldsOfStruct(h: Hash, kind: Kind, o: Order, kind': Kind, o': Order)
    requires StructBytes(h, kind, o) == StructBytes(h, kind', o')
    ensures h(OrderType(kind)) == h(OrderType(kind')) && h(o.nonce) == h(o'.nonce)
    ensures o.(nonce := []) == o'.(nonce := [])
  {
    hide Words;
    var w := [h(OrderType(kind)), h(o.nonce), o.startsAt, o.expiresAt, o.nftContract, o.nftTokenId, o.paymentToken,
              o.party, o.royaltyPayTo, o.sellerAmount, o.feeAmount, o.royaltyAmount, o.totalAmount];
    var w' := [h(OrderType(kind')), h(o'.nonce), o'.startsAt, o'.expiresAt, o'.nftContract, o'.nftTokenId,
               o'.paymentToken, o'.party, o'.royaltyPayTo, o'.sellerAmount, o'.feeAmount, o'.royaltyAmount,
               o'.totalAmount];
    WordsIsInjective(w, w');
    assert w[0] == w'[0] && w[1] == w'[1] && w[2] == w'[2] && w[3] == w'[3] && w[4] == w'[4] && w[5] == w'[5];
    assert w[6] == w'[6] && w[7] == w'[7] && w[8] == w'[8] && w[9] == w'[9] && w[10] == w'[10];
    assert w[11] == w'[11] && w[12] == w'[12];
  }

  lemma FieldsOfDomain(h: Hash, d: Domain, d': Domain)
    requires DomainBytes(h, d) == DomainBytes(h, d')
    ensures h(d.name) == h(d'.name) && h(d.version) == h(d'.version)
    ensures d.chainId == d'.chainId && d.verifyingContract == d'.verifyingContract
  {
    hide Words;
    var w := [h(Ascii(DOMAIN_TYPE)), h(d.name), h(d.version), d.chainId, d.verifyingContract];
    var w' := [h(Ascii(DOMAIN_TYPE)), h(d'.name), h(d'.version), d'.chainId, d'.verifyingContract];
    WordsIsInjective(w, w');
    assert w[1] == w'[1] && w[2] == w'[2] && w[3] == w'[3] && w[4] == w'[4];
  }

  /**
   Two equal digests sign the same kind of order with every field equal, for the same contract on the same chain,
   unless two of the byte strings hashed on the way collide.
   */
  lemma DigestDeterminesOrder(h: Hash, d: Domain, kind: Kind, o: Order, d': Domain, kind': Kind, o': Order)
    requires CollisionFree(h, Preimages(h, d, kind, o) + Preimages(h, d', kind', o'))
    requires Digest(h, d, kind, o) == Digest(h, d', kind', o')
    ensures d == d' && kind == kind' && o == o'
  {
    hide Words, DomainBytes, StructBytes, Ascii, OrderType;
    var w := [h(DomainBytes(h, d)), h(StructBytes(h, kind, o))];
    var w' := [h(DomainBytes(h, d')), h(StructBytes(h, kind', o'))];
    assert DigestBytes(h, d, kind, o) == DigestBytes(h, d', kind', o');
    assert Words(w) == DigestBytes(h, d, kind, o)[2..] == DigestBytes(h, d', kind', o')[2..] == Words(w');
    WordsIsInjective(w, w');
    assert w[0] == w'[0] && w[1] == w'[1];
    FieldsOfDomain(h, d, d');
    FieldsOfStruct(h, kind, o, kind', o');
    TypesDiffer();
  }

  // ----- version 1 -----

  datatype V1Order = V1Order(
    sellId: seq<Byte>, expiresAt: Uint256, nftContract: Address, nftTokenId: Uint256, seller: Address,
    sellerAmount: Uint256, feeWithRoyalty: Uint256, totalAmount: Uint256)

  /** abi.encodePacked: the variable-length id first, then fixed-width fields without padding. */
  function PackedBytes(o: V1Order): seq<Byte> {
    o.sellId + Tail(o)
  }

  function Tail(o: V1Order): (b: seq<Byte>)
    ensures |b| == 200
  {
    Word(o.expiresAt) + BigEndian(o.nftContract, 20) + Word(o.nftTokenId) + BigEndian(o.seller, 20)
    + Words([o.sellerAmount, o.feeWithRoyalty, o.totalAmount])
  }

  lemma TailDeterminesFields(o: V1Order, o': V1Order)
    requires Tail(o) == Tail(o')
    ensures o.(sellId := []) == o'.(sellId := [])
  {
    hide Words;
    var t, t' := Tail(o), Tail(o');
    assert Word(o.expiresAt) == t[..32] == t'[..32] == Word(o'.expiresAt);
    assert BigEndian(o.nftContract, 20) == t[32..52] == t'[32..52] == BigEndian(o'.nftContract, 20);
    assert Word(o.nftTokenId) == t[52..84] == t'[52..84] == Word(o'.nftTokenId);
    assert BigEndian(o.seller, 20) == t[84..104] == t'[84..104] == BigEndian(o'.seller, 20);
    var w := [o.sellerAmount, o.feeWithRoyalty, o.totalAmount];
    var w' := [o'.sellerAmount, o'.feeWithRoyalty, o'.totalAmount];
    assert Words(w) == t[104..] == t'[104..] == Words(w');
    WordIsInjective(o.expiresAt, o'.expiresAt);
    WordIsInjective(o.nftTokenId, o'.nftTokenId);
    WordBounds();
    DecodeEncode(o.nftContract, 20);
    DecodeEncode(o'.nftContract, 20);
    DecodeEncode(o.seller, 20);
    DecodeEncode(o'.seller, 20);
    WordsIsInjective(w, w');
    assert w[0] == w'[0] && w[1] == w'[1] && w[2] == w'[2];
  }

  /** With a single variable-length field in front, packing loses nothing. */
  lemma PackedIsInjective(o: V1Order, o': V1Order)
    requires PackedBytes(o) == PackedBytes(o')
    ensures o == o'
  {
    hide Tail;
    var n := |o.sellId|;
    assert n == |PackedBytes(o)| - 200 == |PackedBytes(o')| - 200 == |o'.sellId|;
    assert o.sellId == PackedBytes(o)[..n] == PackedBytes(o')[..n] == o'.sellId;
    assert Tail(o) == PackedBytes(o)[n..] == PackedBytes(o')[n..] == Tail(o');
    TailDeterminesFields(o, o');
  }

  const V1_PREFIX := "Ethereum Signed Message:\n32"

  /** The digest that version 1 recovers the seller from. */
  function V1Digest(h: Hash, o: V1Order): Bytes32 {
    h([0x19] + Ascii(V1_PREFIX) + Word(h(PackedBytes(o))))
  }

  /** Equal digests of version 1 sign the same order, unless the byte strings hashed for them collide. */
  lemma V1DigestDeterminesOrder(h: Hash, o: V1Order, o': V1Order)
    requires CollisionFree(h, {PackedBytes(o), PackedBytes(o'),
                               [0x19] + Ascii(V1_PREFIX) + Word(h(PackedBytes(o))),
                               [0x19] + Ascii(V1_PREFIX) + Word(h(PackedBytes(o')))})
    requires V1Digest(h, o) == V1Digest(h, o')
    ensures o == o'
  {
    hide Ascii, PackedBytes;
    var head := [0x19] + Ascii(V1_PREFIX);
    var a, b := Word(h(PackedBytes(o))), Word(h(PackedBytes(o')));
    assert head + a == head + b;
    assert a == (head + a)[|head|..] == (head + b)[|head|..] == b;
    WordIsInjective(h(PackedBytes(o)), h(PackedBytes(o')));
    PackedIsInjective(o, o');
  }

  // ----- signatures -----

  datatype Signature = Signature(r: Bytes32, s: Bytes32, v: Byte)

  datatype SigError = BadLength

  /** The word that mload reads at `offset`. */
  function Mload(memory: seq<Byte>, offset: nat): nat
    requires offset + 32 <= |memory|
  {
    FromBytes(memory[offset..offset + 32])
  }

  /** `memory` starts with the length word of `sig`, then holds its bytes, then whatever lies behind it. */
  function SplitSig(sig: seq<Byte>, behind: seq<Byte>): (r: Result<Signature, SigError>)
    requires |behind| >= 31
    ensures |sig| != 65 <==> r == Failure(BadLength)
    ensures |sig| == 65 ==>
              && r.Success? && r.value.v == sig[64]
              && r.value.r == FromBytes(sig[..32]) && r.value.s == FromBytes(sig[32..64])
  {
    if |sig| != 65 then Failure(BadLength)
    else
      var memory := Word(65) + sig + behind;
      MemoryWords(Word(65), sig, behind);
      Success(Signature(Mload(memory, 32), Mload(memory, 64), ShiftRight(Mload(memory, 96), 31)))
  }

  lemma MemoryWords(length: seq<Byte>, sig: seq<Byte>, behind: seq<Byte>)
    requires |length| == 32 && |sig| == 65 && |behind| >= 31
    ensures var memory := length + sig + behind;
            && Mload(memory, 32) == FromBytes(sig[..32]) < TWO_256
            && Mload(memory, 64) == FromBytes(sig[32..64]) < TWO_256
            && ShiftRight(Mload(memory, 96), 31) == sig[64]
  {
    hide ShiftRight, FromBytes;
    var memory := length + sig + behind;
    assert memory[32..64] == sig[..32];
    assert memory[64..96] == sig[32..64];
    assert memory[96] == sig[64];
    WordBounds();
    EncodeDecode(sig[..32]);
    EncodeDecode(sig[32..64]);
    LeadingByte(memory[96..128]);
  }

  function JoinSig(g: Signature): (sig: seq<Byte>)
    ensures |sig| == 65
  {
    Word(g.r) + Word(g.s) + [g.v]
  }

  /** Splitting is a bijection from 65-byte strings to (r, s, v), whatever lies behind the string in memory. */
  lemma SplitSigIsBijective(sig: seq<Byte>, behind: seq<Byte>, g: Signature)
    requires |behind| >= 31
    ensures SplitSig(JoinSig(g), behind) == Success(g)
    ensures |sig| == 65 ==> JoinSig(SplitSig(sig, behind).value) == sig
  {
    WordBounds();
    DecodeEncode(g.r, 32);
    DecodeEncode(g.s, 32);
    assert JoinSig(g)[..32] == Word(g.r) && JoinSig(g)[32..64] == Word(g.s);
    if |sig| == 65 {
      EncodeDecode(sig[..32]);
      EncodeDecode(sig[32..64]);
      assert sig == sig[..32] + sig[32..64] + [sig[64]];
    }
  }
}
