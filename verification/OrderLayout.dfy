/**
 What the bytes hashed for an order say: EIP-712, "Definition of encodeType" and "Definition of encodeData". The member
 names are read out of the type strings; the word at a member's place decodes to the field of that name.
 */
module OrderLayout {
  import opened Wrappers
  import opened Evm
  import opened Powers
  import opened Bytes
  import opened NumberStrings
  import opened OrderEncoding

  /** A member as a type string writes it: its type, a blank, its name. */
  datatype Member = Member(kind: string, name: string)

  predicate IsOpen(c: char) {
    c == '('
  }

  predicate EndsMember(c: char) {
    c == ',' || c == ')'
  }

  predicate IsBlank(c: char) {
    c == ' '
  }

  function ReadMember(text: string): Member {
    var i := FirstOf(text, IsBlank);
    if i == |text| then Member(text, "") else Member(text[..i], text[i + 1..])
  }

  /** The members up to the closing parenthesis, or to the end of an unfinished text. */
  function ReadMembers(text: string): seq<Member>
    decreases |text|
  {
    var i := FirstOf(text, EndsMember);
    if i < |text| && text[i] == ',' then [ReadMember(text[..i])] + ReadMembers(text[i + 1..])
    else [ReadMember(text[..i])]
  }

  /** The members of a struct type, from its type string. */
  function ReadType(text: string): seq<Member> {
    var i := FirstOf(text, IsOpen);
    if i == |text| then [] else ReadMembers(text[i + 1..])
  }

  // ----- reading the type strings -----

  function WriteMember(m: Member): string {
    m.kind + " " + m.name
  }

  predicate IsPlain(s: string) {
    forall i :: 0 <= i < |s| ==> !EndsMember(s[i]) && !IsBlank(s[i]) && !IsOpen(s[i])
  }

  lemma ReadMemberBack(m: Member)
    requires IsPlain(m.kind) && IsPlain(m.name)
    ensures ReadMember(WriteMember(m)) == m && NoEnd(WriteMember(m))
  {
    assert WriteMember(m) == m.kind + (" " + m.name);
    FirstOfSkips(m.kind, " " + m.name, IsBlank);
    assert (m.kind + (" " + m.name))[..|m.kind|] == m.kind;
    assert (m.kind + (" " + m.name))[|m.kind| + 1..] == m.name;
  }

  predicate NoEnd(s: string) {
    forall i :: 0 <= i < |s| ==> !EndsMember(s[i])
  }

  /** How a text is read from the left. */
  lemma ReadFirst(head: string, rest: string)
    requires NoEnd(head)
    ensures ReadMembers(head) == [ReadMember(head)] && ReadMembers(head + ")") == [ReadMember(head)]
    ensures ReadMembers(head + ("," + rest)) == [ReadMember(head)] + ReadMembers(rest)
  {
    hide ReadMember, FirstOf;
    var closed, open := head + ")", head + ("," + rest);
    FirstOfSkips(head, "", EndsMember);
    FirstOfSkips(head, ")", EndsMember);
    FirstOfSkips(head, "," + rest, EndsMember);
    FirstIsHit(")", EndsMember);
    FirstIsHit("," + rest, EndsMember);
    assert head + "" == head && head[..|head|] == head;
    assert closed[..|head|] == head && open[..|head|] == head && open[|head| + 1..] == rest;
  }

  lemma FirstIsHit(s: string, p: char -> bool)
    requires s != "" && p(s[0])
    ensures FirstOf(s, p) == 0
  {
  }

  /** Not yet closed. */
  predicate IsUnfinished(text: string) {
    forall i :: 0 <= i < |text| ==> text[i] != ')'
  }

  /** A member appended, with or without the closing parenthesis. */
  lemma {:induction false} AppendMember(text: string, m: Member)
    requires IsUnfinished(text) && IsPlain(m.kind) && IsPlain(m.name)
    ensures ReadMembers(text + ("," + WriteMember(m))) == ReadMembers(text) + [m]
    decreases |text|
  {
    hide ReadMembers, ReadMember, WriteMember, FirstOf, IsPlain;
    var i, w := FirstOf(text, EndsMember), WriteMember(m);
    ReadMemberBack(m);
    ReadFirst(w, "");
    if i == |text| {
      ReadFirst(text, w);
    } else {
      var head, rest := text[..i], text[i + 1..];
      assert text == head + ("," + rest);
      assert text + ("," + w) == head + ("," + (rest + ("," + w)));
      ReadFirst(head, rest);
      ReadFirst(head, rest + ("," + w));
      AppendMember(rest, m);
    }
  }

  lemma {:induction false} CloseMembers(text: string)
    requires IsUnfinished(text)
    ensures ReadMembers(text + ")") == ReadMembers(text)
    decreases |text|
  {
    hide ReadMembers, ReadMember, FirstOf;
    var i := FirstOf(text, EndsMember);
    if i == |text| {
      ReadFirst(text, "");
    } else {
      var head, rest := text[..i], text[i + 1..];
      assert text == head + ("," + rest);
      assert text + ")" == head + ("," + (rest + ")"));
      ReadFirst(head, rest);
      ReadFirst(head, rest + ")");
      CloseMembers(rest);
    }
  }

  /** An unfinished type string with its opening parenthesis, which reads as `ms`. */
  ghost predicate Reads(text: string, ms: seq<Member>) {
    exists name: string, rest: string ::
      text == name + ("(" + rest) && IsPlain(name) && IsUnfinished(rest) && ReadMembers(rest) == ms
  }

  lemma ReadTypeOf(name: string, rest: string)
    requires IsPlain(name)
    ensures ReadType(name + ("(" + rest)) == ReadMembers(rest)
  {
    hide ReadMembers, FirstOf;
    FirstOfSkips(name, "(" + rest, IsOpen);
    FirstIsHit("(" + rest, IsOpen);
    assert (name + ("(" + rest))[|name| + 1..] == rest;
  }

  lemma FirstMember(name: string, piece: string, m: Member)
    requires IsPlain(name) && IsPlain(m.kind) && IsPlain(m.name) && piece == "(" + WriteMember(m)
    ensures Reads(name + piece, [m])
  {
    hide ReadMembers, ReadMember;
    ReadMemberBack(m);
    ReadFirst(WriteMember(m), "");
  }

  /** The next of the members `ms`. */
  lemma NextMember(text: string, ms: seq<Member>, k: nat, piece: string)
    requires k < |ms| && Reads(text, ms[..k])
    requires IsPlain(ms[k].kind) && IsPlain(ms[k].name) && piece == "," + WriteMember(ms[k])
    ensures Reads(text + piece, ms[..k + 1])
  {
    hide ReadMembers, ReadMember;
    var name, rest :|
      text == name + ("(" + rest) && IsPlain(name) && IsUnfinished(rest) && ReadMembers(rest) == ms[..k];
    ReadMemberBack(ms[k]);
    AppendMember(rest, ms[k]);
    assert text + piece == name + ("(" + (rest + piece));
    assert ms[..k + 1] == ms[..k] + [ms[k]];
  }

  lemma ClosedType(text: string, ms: seq<Member>)
    requires Reads(text, ms)
    ensures ReadType(text + ")") == ms
  {
    hide ReadMembers, ReadType;
    var name, rest :| text == name + ("(" + rest) && IsPlain(name) && IsUnfinished(rest) && ReadMembers(rest) == ms;
    CloseMembers(rest);
    assert text + ")" == name + ("(" + (rest + ")"));
    ReadTypeOf(name, rest + ")");
  }

  function OrderMembers(party: string): seq<Member> {
    [Member("string", "_nonce"), Member("uint", "_startsAt"), Member("uint", "_expiresAt"),
     Member("address", "_nftContract"), Member("uint256", "_nftTokenId"), Member("address", "_paymentTokenContract"),
     Member("address", party), Member("address", "_royaltyPayTo"), Member("uint256", "_sellerAmount"),
     Member("uint256", "_feeAmount"), Member("uint256", "_royaltyAmount"), Member("uint256", "_totalAmount")]
  }

  // The pieces of the type strings.

  ghost predicate IsPiece(piece: string, kind: string, name: string) {
    piece == "," + WriteMember(Member(kind, name))
  }

  lemma PlainKinds()
    ensures IsPlain("string") && IsPlain("uint") && IsPlain("uint256") && IsPlain("address")
    ensures IsPlain("SellOrder") && IsPlain("BuyOrder") && IsPlain("EIP712Domain")
  {
  }

  lemma PlainNames()
    ensures IsPlain("_nonce") && IsPlain("_startsAt") && IsPlain("_expiresAt") && IsPlain("_nftContract")
    ensures IsPlain("_nftTokenId") && IsPlain("_paymentTokenContract") && IsPlain("_seller") && IsPlain("_buyer")
  {
  }

  lemma MorePlainNames()
    ensures IsPlain("_royaltyPayTo") && IsPlain("_sellerAmount") && IsPlain("_feeAmount")
    ensures IsPlain("_royaltyAmount") && IsPlain("_totalAmount")
    ensures IsPlain("name") && IsPlain("version") && IsPlain("chainId") && IsPlain("verifyingContract")
  {
  }

  lemma NoncePiece()
    ensures "(string _nonce" == "(" + WriteMember(Member("string", "_nonce"))
  {
  }

  lemma StartsAtPiece()
    ensures IsPiece(",uint _startsAt", "uint", "_startsAt")
  {
  }

  lemma ExpiresAtPiece()
    ensures IsPiece(",uint _expiresAt", "uint", "_expiresAt")
  {
  }

  lemma NftContractPiece()
    ensures IsPiece(",address _nftContract", "address", "_nftContract")
  {
  }

  lemma NftTokenIdPiece()
    ensures IsPiece(",uint256 _nftTokenId", "uint256", "_nftTokenId")
  {
  }

  lemma PaymentTokenContractPiece()
    ensures IsPiece(",address _paymentTokenContract", "address", "_paymentTokenContract")
  {
  }

  lemma RoyaltyPayToPiece()
    ensures IsPiece(",address _royaltyPayTo", "address", "_royaltyPayTo")
  {
  }

  lemma SellerAmountPiece()
    ensures IsPiece(",uint256 _sellerAmount", "uint256", "_sellerAmount")
  {
  }

  lemma FeeAmountPiece()
    ensures IsPiece(",uint256 _feeAmount", "uint256", "_feeAmount")
  {
  }

  lemma RoyaltyAmountPiece()
    ensures IsPiece(",uint256 _royaltyAmount", "uint256", "_royaltyAmount")
  {
  }

  lemma TotalAmountPiece()
    ensures IsPiece(",uint256 _totalAmount", "uint256", "_totalAmount")
  {
  }

  /** The first four members, whatever the struct is called. */
  lemma TimeMembers(name: string, ms: seq<Member>)
    requires IsPlain(name) && |ms| > 3 && ms[0] == Member("string", "_nonce") && ms[1] == Member("uint", "_startsAt")
    requires ms[2] == Member("uint", "_expiresAt") && ms[3] == Member("address", "_nftContract")
    ensures Reads(name + "(string _nonce" + ",uint _startsAt" + ",uint _expiresAt" + ",address _nftContract", ms[..4])
  {
    hide Reads, IsPlain, WriteMember;
    PlainKinds();
    PlainNames();
    NoncePiece();
    StartsAtPiece();
    ExpiresAtPiece();
    NftContractPiece();
    var text := name + "(string _nonce";
    FirstMember(name, "(string _nonce", ms[0]);
    assert ms[..1] == [ms[0]];
    NextMember(text, ms, 1, ",uint _startsAt");
    NextMember(text + ",uint _startsAt", ms, 2, ",uint _expiresAt");
    NextMember(text + ",uint _startsAt" + ",uint _expiresAt", ms, 3, ",address _nftContract");
  }

  lemma PartyMembers(text: string, ms: seq<Member>, party: string, partyPiece: string)
    requires |ms| > 7 && Reads(text, ms[..4]) && IsPiece(partyPiece, "address", party) && IsPlain(party)
    requires ms[4] == Member("uint256", "_nftTokenId") && ms[5] == Member("address", "_paymentTokenContract")
    requires ms[6] == Member("address", party) && ms[7] == Member("address", "_royaltyPayTo")
    ensures Reads(text + ",uint256 _nftTokenId" + ",address _paymentTokenContract" + partyPiece
                  + ",address _royaltyPayTo", ms[..8])
  {
    hide Reads, IsPlain, WriteMember;
    PlainKinds();
    PlainNames();
    MorePlainNames();
    NftTokenIdPiece();
    PaymentTokenContractPiece();
    RoyaltyPayToPiece();
    NextMember(text, ms, 4, ",uint256 _nftTokenId");
    var text' := text + ",uint256 _nftTokenId";
    NextMember(text', ms, 5, ",address _paymentTokenContract");
    NextMember(text' + ",address _paymentTokenContract", ms, 6, partyPiece);
    NextMember(text' + ",address _paymentTokenContract" + partyPiece, ms, 7, ",address _royaltyPayTo");
  }

  lemma AmountMembers(text: string, ms: seq<Member>)
    requires |ms| == 12 && Reads(text, ms[..8])
    requires ms[8] == Member("uint256", "_sellerAmount") && ms[9] == Member("uint256", "_feeAmount")
    requires ms[10] == Member("uint256", "_royaltyAmount") && ms[11] == Member("uint256", "_totalAmount")
    ensures ReadType(text + ",uint256 _sellerAmount" + ",uint256 _feeAmount" + ",uint256 _royaltyAmount"
                     + ",uint256 _totalAmount" + ")") == ms
  {
    hide Reads, IsPlain, WriteMember, ReadType;
    PlainKinds();
    MorePlainNames();
    SellerAmountPiece();
    FeeAmountPiece();
    RoyaltyAmountPiece();
    TotalAmountPiece();
    NextMember(text, ms, 8, ",uint256 _sellerAmount");
    var text' := text + ",uint256 _sellerAmount";
    NextMember(text', ms, 9, ",uint256 _feeAmount");
    NextMember(text' + ",uint256 _feeAmount", ms, 10, ",uint256 _royaltyAmount");
    var last := text' + ",uint256 _feeAmount" + ",uint256 _royaltyAmount";
    NextMember(last, ms, 11, ",uint256 _totalAmount");
    assert ms[..12] == ms;
    ClosedType(last + ",uint256 _totalAmount", ms);
  }

  /** The member names of both type strings, in their order. */
  lemma TypeMembers(kind: Kind)
    ensures ReadType(TypeText(kind)) == OrderMembers(Party(kind))
  {
    hide Reads, WriteMember, ReadType;
    var ms := OrderMembers(Party(kind));
    PlainKinds();
    PlainNames();
    PartyPieces();
    var name := if kind.Sell? then "SellOrder" else "BuyOrder";
    var partyPiece := if kind.Sell? then ",address _seller" else ",address _buyer";
    TimeMembers(name, ms);
    var text := name + "(string _nonce" + ",uint _startsAt" + ",uint _expiresAt" + ",address _nftContract";
    PartyMembers(text, ms, Party(kind), partyPiece);
    AmountMembers(text + ",uint256 _nftTokenId" + ",address _paymentTokenContract" + partyPiece
                  + ",address _royaltyPayTo", ms);
  }

  lemma PartyPieces()
    ensures IsPiece(",address _seller", "address", "_seller") && IsPiece(",address _buyer", "address", "_buyer")
  {
  }

  function Party(kind: Kind): string {
    if kind.Sell? then "_seller" else "_buyer"
  }

  function TypeText(kind: Kind): string {
    if kind.Sell? then SELL_TYPE else BUY_TYPE
  }

  // ----- the words -----

  /** The value that an order has for a member; a string member stands for its hash. */
  function FieldNamed(h: Hash, kind: Kind, o: Order, name: string): Option<Uint256> {
    if name == "_nonce" then Some(h(o.nonce))
    else if name == "_startsAt" then Some(o.startsAt)
    else if name == "_expiresAt" then Some(o.expiresAt)
    else if name == "_nftContract" then Some(o.nftContract)
    else if name == "_nftTokenId" then Some(o.nftTokenId)
    else if name == "_paymentTokenContract" then Some(o.paymentToken)
    else if name == Party(kind) then Some(o.party)
    else if name == "_royaltyPayTo" then Some(o.royaltyPayTo)
    else if name == "_sellerAmount" then Some(o.sellerAmount)
    else if name == "_feeAmount" then Some(o.feeAmount)
    else if name == "_royaltyAmount" then Some(o.royaltyAmount)
    else if name == "_totalAmount" then Some(o.totalAmount)
    else None
  }

  /** The number in the k-th 32-byte word. */
  function WordAt(b: seq<Byte>, k: nat): nat
    requires 32 * (k + 1) <= |b|
  {
    FromBytes(b[32 * k..32 * (k + 1)])
  }

  lemma {:induction false} WordsAt(ws: seq<Uint256>, k: nat)
    requires k < |ws|
    ensures WordAt(Words(ws), k) == ws[k]
  {
    var b := Words(ws);
    assert b == Word(ws[0]) + Words(ws[1..]);
    if k == 0 {
      WordBounds();
      DecodeEncode(ws[0], 32);
      assert b[0..32] == Word(ws[0]);
    } else {
      WordsAt(ws[1..], k - 1);
      assert b[32 * k..32 * (k + 1)] == Words(ws[1..])[32 * (k - 1)..32 * k];
    }
  }

  /**
   The first word is the hash of the type string, and each word after it, in the order of the members in the type
   string, is the field that the member names.
   */
  lemma StructLayout(h: Hash, kind: Kind, o: Order, k: nat)
    requires k < 12
    ensures |StructBytes(h, kind, o)| == 32 * 13 && |ReadType(TypeText(kind))| == 12
    ensures WordAt(StructBytes(h, kind, o), 0) == h(Ascii(TypeText(kind)))
    ensures Some(WordAt(StructBytes(h, kind, o), k + 1)) == FieldNamed(h, kind, o, ReadType(TypeText(kind))[k].name)
  {
    hide Words, WordAt, ReadType, Ascii;
    var ws := [h(OrderType(kind)), h(o.nonce), o.startsAt, o.expiresAt, o.nftContract, o.nftTokenId, o.paymentToken,
               o.party, o.royaltyPayTo, o.sellerAmount, o.feeAmount, o.royaltyAmount, o.totalAmount];
    TypeMembers(kind);
    WordsAt(ws, 0);
    WordsAt(ws, k + 1);
  }

  // ----- the signing domain and the digest -----

  function DomainMembers(): seq<Member> {
    [Member("string", "name"), Member("string", "version"), Member("uint256", "chainId"),
     Member("address", "verifyingContract")]
  }

  lemma DomainPieces()
    ensures "(string name" == "(" + WriteMember(Member("string", "name"))
    ensures IsPiece(",string version", "string", "version") && IsPiece(",uint256 chainId", "uint256", "chainId")
  {
  }

  lemma VerifyingContractPiece()
    ensures IsPiece(",address verifyingContract", "address", "verifyingContract")
  {
  }

  lemma DomainTypeMembers()
    ensures ReadType(DOMAIN_TYPE) == DomainMembers()
  {
    hide Reads, IsPlain, WriteMember, ReadType;
    var ms := DomainMembers();
    PlainKinds();
    MorePlainNames();
    DomainPieces();
    VerifyingContractPiece();
    var text := "EIP712Domain" + "(string name";
    FirstMember("EIP712Domain", "(string name", ms[0]);
    assert ms[..1] == [ms[0]] && ms[..4] == ms;
    NextMember(text, ms, 1, ",string version");
    NextMember(text + ",string version", ms, 2, ",uint256 chainId");
    NextMember(text + ",string version" + ",uint256 chainId", ms, 3, ",address verifyingContract");
    ClosedType(text + ",string version" + ",uint256 chainId" + ",address verifyingContract", ms);
  }

  function DomainFieldNamed(h: Hash, d: Domain, name: string): Option<Uint256> {
    if name == "name" then Some(h(d.name))
    else if name == "version" then Some(h(d.version))
    else if name == "chainId" then Some(d.chainId)
    else if name == "verifyingContract" then Some(d.verifyingContract)
    else None
  }

  lemma DomainLayout(h: Hash, d: Domain, k: nat)
    requires k < 4
    ensures |DomainBytes(h, d)| == 32 * 5 && |ReadType(DOMAIN_TYPE)| == 4
    ensures WordAt(DomainBytes(h, d), 0) == h(Ascii(DOMAIN_TYPE))
    ensures Some(WordAt(DomainBytes(h, d), k + 1)) == DomainFieldNamed(h, d, ReadType(DOMAIN_TYPE)[k].name)
  {
    hide Words, WordAt, ReadType, Ascii;
    var ws := [h(Ascii(DOMAIN_TYPE)), h(d.name), h(d.version), d.chainId, d.verifyingContract];
    DomainTypeMembers();
    WordsAt(ws, 0);
    WordsAt(ws, k + 1);
  }

  /** The bytes 0x19 and 0x01, then the hash of the domain, then the hash of the struct. */
  lemma DigestLayout(h: Hash, d: Domain, kind: Kind, o: Order)
    ensures var b := DigestBytes(h, d, kind, o);
            && |b| == 66 && b[0] == 0x19 && b[1] == 0x01
            && WordAt(b[2..], 0) == h(DomainBytes(h, d)) && WordAt(b[2..], 1) == h(StructBytes(h, kind, o))
  {
    hide Words, WordAt, DomainBytes, StructBytes;
    var ws := [h(DomainBytes(h, d)), h(StructBytes(h, kind, o))];
    assert DigestBytes(h, d, kind, o)[2..] == Words(ws);
    WordsAt(ws, 0);
    WordsAt(ws, 1);
  }

  // ----- version 1 -----

  /** abi.encodePacked: after the id, 32 bytes for a number and 20 for an address, in the order of the source. */
  lemma PackedLayout(o: V1Order)
    ensures var b, n := PackedBytes(o), |o.sellId|;
            && |b| == n + 200 && b[..n] == o.sellId
            && FromBytes(b[n..n + 32]) == o.expiresAt
            && FromBytes(b[n + 32..n + 52]) == o.nftContract
            && FromBytes(b[n + 52..n + 84]) == o.nftTokenId
            && FromBytes(b[n + 84..n + 104]) == o.seller
            && FromBytes(b[n + 104..n + 136]) == o.sellerAmount
            && FromBytes(b[n + 136..n + 168]) == o.feeWithRoyalty
            && FromBytes(b[n + 168..n + 200]) == o.totalAmount
  {
    hide Words, FromBytes, BigEndian;
    var b, n, t := PackedBytes(o), |o.sellId|, OrderEncoding.Tail(o);
    var ws := [o.sellerAmount, o.feeWithRoyalty, o.totalAmount];
    WordBounds();
    DecodeEncode(o.expiresAt, 32);
    DecodeEncode(o.nftContract, 20);
    DecodeEncode(o.nftTokenId, 32);
    DecodeEncode(o.seller, 20);
    WordsAt(ws, 0);
    WordsAt(ws, 1);
    WordsAt(ws, 2);
    assert b[n..n + 32] == Word(o.expiresAt) && b[n + 32..n + 52] == BigEndian(o.nftContract, 20);
    assert b[n + 52..n + 84] == Word(o.nftTokenId) && b[n + 84..n + 104] == BigEndian(o.seller, 20);
    assert b[n + 104..n + 136] == Words(ws)[32 * 0..32 * 1];
    assert b[n + 136..n + 168] == Words(ws)[32 * 1..32 * 2];
    assert b[n + 168..n + 200] == Words(ws)[32 * 2..32 * 3];
  }
}
