/** src/app/helpers/functions.ts, ascii_to_hex and hex_to_ascii: text as unpadded hexadecimal and back. */
module AsciiHex {
  import opened Wrappers
  import opened Slugs

  // A UTF-16 code unit, and a hexadecimal digit as its value.
  type CodeUnit = n: nat | n < 0x1_0000
  type Hex = n: nat | n < 16

  /** Number(c).toString(16): no leading zeros, so one digit for the first 16 codes and up to four for others. */
  function HexOf(c: nat): (h: seq<Hex>)
    ensures h != []
  {
    if c < 16 then [c] else HexOf(c / 16) + [c % 16]
  }

  function Encode(s: seq<CodeUnit>): seq<Hex> {
    if s == [] then [] else HexOf(s[0]) + Encode(s[1..])
  }

  /** The value of one or two digits. */
  function Pair(h: seq<Hex>): CodeUnit
    requires 0 < |h| <= 2
  {
    var first: nat := h[0];
    if |h| == 1 then first else 16 * first + h[1]
  }

  /** Two digits at a time; an odd last digit stands alone. */
  function Decode(h: seq<Hex>): seq<CodeUnit> {
    if h == [] then [] else if |h| == 1 then [Pair(h)] else [Pair(h[..2])] + Decode(h[2..])
  }

  // ----- digits as text -----

  /** '0' to '9' and 'a' to 'f'. */
  function DigitCode(d: Hex): CodeUnit {
    if d < 10 then 0x30 + d else 0x57 + d
  }

  /** The digit that a code unit stands for, capital letters included. */
  function DigitOf(c: CodeUnit): Option<Hex> {
    if 0x30 <= c <= 0x39 then Some(c - 0x30)
    else if 0x61 <= c <= 0x66 then Some(c - 0x57)
    else if 0x41 <= c <= 0x46 then Some(c - 0x37)
    else None
  }

  function TextOf(h: seq<Hex>): (t: seq<CodeUnit>)
    ensures |t| == |h| && forall i :: 0 <= i < |h| ==> t[i] == DigitCode(h[i])
  {
    seq(|h|, i requires 0 <= i < |h| => DigitCode(h[i]))
  }

  // ----- parseInt(t, 16) and String.fromCharCode, on any text -----

  function SkipSpaces(t: seq<CodeUnit>): seq<CodeUnit> {
    if t != [] && IsSpaceCode(t[0]) then SkipSpaces(t[1..]) else t
  }

  predicate IsSign(c: CodeUnit) {
    c == 0x2b || c == 0x2d
  }

  function WithoutSign(t: seq<CodeUnit>): seq<CodeUnit> {
    if t != [] && IsSign(t[0]) then t[1..] else t
  }

  /** A leading 0x or 0X is not part of the number. */
  function WithoutMark(t: seq<CodeUnit>): seq<CodeUnit> {
    if |t| >= 2 && t[0] == 0x30 && (t[1] == 0x78 || t[1] == 0x58) then t[2..] else t
  }

  /** The digits up to the first code unit that is none. */
  function LeadingDigits(t: seq<CodeUnit>): seq<Hex> {
    if t == [] || DigitOf(t[0]).None? then [] else [DigitOf(t[0]).value] + LeadingDigits(t[1..])
  }

  function HexValue(h: seq<Hex>): nat {
    if h == [] then 0 else 16 * HexValue(h[..|h| - 1]) + h[|h| - 1]
  }

  /** None stands for NaN. */
  function ParseHex(t: seq<CodeUnit>): Option<int> {
    var u := SkipSpaces(t);
    var digits := LeadingDigits(WithoutMark(WithoutSign(u)));
    if digits == [] then None
    else Some(if u[..1] == [0x2d] then -(HexValue(digits) as int) else HexValue(digits))
  }

  /** NaN gives code 0, everything else is taken modulo 2^16. */
  function FromCharCode(n: Option<int>): CodeUnit {
    if n.None? then 0 else n.value % 0x1_0000
  }

  function EncodeText(s: seq<CodeUnit>): seq<CodeUnit> {
    TextOf(Encode(s))
  }

  /** substr(n, 2): two code units, or the last one. */
  function Chunk(t: seq<CodeUnit>): nat {
    if |t| < 2 then |t| else 2
  }

  function DecodeText(t: seq<CodeUnit>): (s: seq<CodeUnit>)
    ensures |s| == (|t| + 1) / 2
  {
    if t == [] then [] else [FromCharCode(ParseHex(t[..Chunk(t)]))] + DecodeText(t[Chunk(t)..])
  }

  /**
   What becomes of two code units that are not both digits: one digit is read behind white space or a sign, or before
   anything that is none; 0x, two units without a digit, and a sign or blank before none give code 0.
   */
  lemma OtherPairs(a: CodeUnit, b: CodeUnit)
    ensures var code := FromCharCode(ParseHex([a, b]));
            && (DigitOf(a).Some? && DigitOf(b).None? ==> code == DigitOf(a).value)
            && (DigitOf(b).Some? && (IsSpaceCode(a) || a == 0x2b) ==> code == DigitOf(b).value)
            && (DigitOf(b).Some? && a == 0x2d ==> code == (0x1_0000 - DigitOf(b).value) % 0x1_0000)
            && (DigitOf(b).Some? && DigitOf(a).None? && !IsSpaceCode(a) && !IsSign(a) ==> code == 0)
            && (DigitOf(a).None? && DigitOf(b).None? ==> code == 0)
  {
    hide IsSpaceCode;
    var t := [a, b];
    assert t[1..] == [b] && t[2..] == [] && [b][1..] == [] && t[..1] == [a] && [b][..1] == [b];
    DigitsAreNoSpaces(a);
    DigitsAreNoSpaces(b);
    SignsAreNoSpaces();
    ReadOne(b);
    if IsSpaceCode(a) {
      assert SkipSpaces([b]) == if IsSpaceCode(b) then [] else [b];
      assert SkipSpaces(t) == SkipSpaces([b]);
    } else {
      assert SkipSpaces(t) == t;
      if DigitOf(a).Some? {
        assert HexValue([DigitOf(a).value][..0]) == 0;
        assert WithoutSign(t) == t;
      } else if IsSign(a) {
        assert WithoutMark(WithoutSign(t)) == [b];
      }
    }
  }

  /** One unit on its own, with or without a sign of its own. */
  lemma ReadOne(c: CodeUnit)
    ensures LeadingDigits([c]) == if DigitOf(c).Some? then [DigitOf(c).value] else []
    ensures DigitOf(c).Some? ==> HexValue([DigitOf(c).value]) == DigitOf(c).value && WithoutSign([c]) == [c]
    ensures DigitOf(c).None? ==> LeadingDigits(WithoutMark(WithoutSign([c]))) == []
    ensures WithoutMark([c]) == [c] && WithoutMark([]) == []
  {
    hide IsSpaceCode;
    DigitsAreNoSpaces(c);
    assert [c][1..] == [];
    if DigitOf(c).Some? {
      assert [DigitOf(c).value][..0] == [];
    }
  }

  lemma DigitsAreNoSpaces(c: CodeUnit)
    ensures DigitOf(c).Some? ==> !IsSpaceCode(c) && !IsSign(c)
  {
  }

  lemma SignsAreNoSpaces()
    ensures !IsSpaceCode(0x2b) && !IsSpaceCode(0x2d)
  {
  }

  /** A leading 0x is no number, so text with that prefix decodes to a code 0 first. */
  lemma PrefixIsNotSkipped(t: seq<CodeUnit>)
    requires |t| >= 2 && t[0] == 0x30 && (t[1] == 0x78 || t[1] == 0x58)
    ensures ParseHex(t[..2]) == None && DecodeText(t)[0] == 0
  {
    var u := t[..2];
    assert SkipSpaces(u) == u && WithoutSign(u) == u && WithoutMark(u) == [];
  }

  /** The digits are written in lower case and read in either. */
  lemma DigitsAreLowerCase(d: Hex)
    ensures 0x30 <= DigitCode(d) <= 0x39 || 0x61 <= DigitCode(d) <= 0x66
    ensures DigitOf(DigitCode(d)) == Some(d)
    ensures d >= 10 ==> DigitOf(DigitCode(d) - 0x20) == Some(d)
  {
  }

  /** One or two digits parse as their value. */
  lemma ParseOfDigits(h: seq<Hex>)
    requires 0 < |h| <= 2
    ensures FromCharCode(ParseHex(TextOf(h))) == Pair(h)
  {
    var t := TextOf(h);
    assert SkipSpaces(t) == t && WithoutSign(t) == t && WithoutMark(t) == t;
    assert LeadingDigits(t[|h|..]) == [];
    assert LeadingDigits(t[|h| - 1..]) == [h[|h| - 1]];
    assert LeadingDigits(t) == h;
    assert HexValue(h[..|h| - 1]) == if |h| == 1 then 0 else h[0];
  }

  /** On hexadecimal digits decoding is what `Decode` says. */
  lemma {:induction false} DecodeOfDigits(h: seq<Hex>)
    ensures DecodeText(TextOf(h)) == Decode(h)
  {
    if 0 < |h| <= 2 {
      ParseOfDigits(h);
      assert TextOf(h)[..|h|] == TextOf(h) && TextOf(h)[|h|..] == [];
      assert |h| == 2 ==> h[..2] == h && Decode(h[2..]) == [];
    } else if |h| > 2 {
      ParseOfDigits(h[..2]);
      DecodeOfDigits(h[2..]);
      assert TextOf(h)[..2] == TextOf(h[..2]) && TextOf(h)[2..] == TextOf(h[2..]);
    }
  }

  method AsciiToHex(s: seq<CodeUnit>) returns (t: seq<CodeUnit>)
    ensures t == EncodeText(s)
  {
    t := [];
    var n := 0;
    while n < |s|
      invariant n <= |s| && t + TextOf(Encode(s[n..])) == EncodeText(s)
    {
      t := t + TextOf(HexOf(s[n]));
      assert TextOf(Encode(s[n..])) == TextOf(HexOf(s[n])) + TextOf(Encode(s[n + 1..])) by {
        assert s[n..][1..] == s[n + 1..];
      }
      n := n + 1;
    }
  }

  lemma SliceOfTail(t: seq<CodeUnit>, n: nat, end: nat)
    requires n <= end <= |t|
    ensures t[n..][..end - n] == t[n..end] && t[n..][end - n..] == t[end..]
  {
  }

  /** For any text, hexadecimal or not. */
  method HexToAscii(t: seq<CodeUnit>) returns (s: seq<CodeUnit>)
    ensures s == DecodeText(t)
  {
    hide ParseHex, FromCharCode;
    s := [];
    var n := 0;
    while n < |t|
      invariant 0 <= n <= |t| + 1
      invariant if n <= |t| then s + DecodeText(t[n..]) == DecodeText(t) else s == DecodeText(t)
      decreases |t| - n
    {
      var end := if n + 2 <= |t| then n + 2 else |t|;
      s := s + [FromCharCode(ParseHex(t[n..end]))];
      SliceOfTail(t, n, end);
      n := n + 2;
    }
  }

  /** Two digits for every code but the last, which may also have one. */
  predicate RoundTrips(s: seq<CodeUnit>) {
    forall i :: 0 <= i < |s| ==> s[i] < 256 && (i < |s| - 1 ==> 16 <= s[i])
  }

  lemma HexOfByte(c: nat)
    requires 16 <= c < 256
    ensures HexOf(c) == [c / 16, c % 16]
  {
  }

  /** Three or more digits: the first two alone make at least 16, and less than the code. */
  lemma {:induction false} HexOfWide(c: nat)
    requires 256 <= c
    ensures |HexOf(c)| >= 3 && 16 <= Pair(HexOf(c)[..2]) < 256
  {
    if c / 16 < 256 {
      HexOfByte(c / 16);
      assert HexOf(c)[..2] == HexOf(c / 16);
    } else {
      HexOfWide(c / 16);
      assert HexOf(c)[..2] == HexOf(c / 16)[..2];
    }
  }

  lemma DecodeOfByteFirst(s: seq<CodeUnit>)
    requires s != [] && 16 <= s[0] < 256
    ensures Decode(Encode(s)) == [s[0]] + Decode(Encode(s[1..]))
  {
    HexOfByte(s[0]);
    assert Encode(s)[..2] == [s[0] / 16, s[0] % 16] && Encode(s)[2..] == Encode(s[1..]);
  }

  lemma DecodeOfWideFirst(s: seq<CodeUnit>)
    requires s != [] && 256 <= s[0]
    ensures Decode(Encode(s)) != [] && 16 <= Decode(Encode(s))[0] < 256
  {
    HexOfWide(s[0]);
    assert Encode(s)[..2] == HexOf(s[0])[..2];
  }

  lemma {:induction false} LeadingDigit(c: nat)
    ensures HexOf(c)[0] == 0 <==> c == 0
  {
    if c >= 16 {
      LeadingDigit(c / 16);
    }
  }

  lemma EncodeOfTwo(s: seq<CodeUnit>)
    requires |s| > 1 && s[0] < 16
    ensures |Encode(s)| >= 2 && Encode(s)[..2] == [s[0], HexOf(s[1])[0]]
    ensures s[1] == 0 ==> Encode(s)[2..] == Encode(s[2..])
  {
    assert s[1..][1..] == s[2..];
    assert Encode(s[1..]) == HexOf(s[1]) + Encode(s[2..]);
    assert HexOf(s[0]) == [s[0]];
    TwoThenRest(s[0], HexOf(s[1]), Encode(s[2..]));
  }

  lemma TwoThenRest(d: Hex, h: seq<Hex>, rest: seq<Hex>)
    requires h != []
    ensures ([d] + (h + rest))[..2] == [d, h[0]]
    ensures |h| == 1 ==> ([d] + (h + rest))[2..] == rest
  {
  }

  /** A one-digit code followed by another swallows the first digit of the next. */
  lemma DecodeOfNarrowFirst(s: seq<CodeUnit>)
    requires |s| > 1 && s[0] < 16
    ensures Decode(Encode(s)) != [] && (Decode(Encode(s))[0] == s[0] <==> s[0] == 0 && s[1] == 0)
    ensures Decode(Encode(s))[0] == 0 <==> s[0] == 0 && s[1] == 0
    ensures s[0] == 0 && s[1] == 0 ==> Decode(Encode(s)) == [0] + Decode(Encode(s[2..]))
  {
    hide Encode, HexOf;
    LeadingDigit(s[1]);
    EncodeOfTwo(s);
    assert Decode(Encode(s)) == [Pair(Encode(s)[..2])] + Decode(Encode(s)[2..]);
  }

  function Zeros(k: nat): seq<CodeUnit> {
    seq(k, _ => 0)
  }

  /** Once digits have been swallowed, decoding never catches up again. */
  lemma {:induction false} NeverCatchesUp(s: seq<CodeUnit>, k: nat)
    requires k > 0
    ensures Decode(Encode(s)) != Zeros(k) + s
    decreases |s|
  {
    if s == [] {
      assert |Zeros(k) + s| == k;
    } else if s[0] >= 256 {
      DecodeOfWideFirst(s);
      assert (Zeros(k) + s)[0] == 0;
    } else if s[0] >= 16 {
      DecodeOfByteFirst(s);
      assert (Zeros(k) + s)[0] == 0;
    } else if |s| == 1 {
      assert Encode(s) == [s[0]];
      assert |Decode(Encode(s))| == 1 < |Zeros(k) + s|;
    } else {
      DecodeOfNarrowFirst(s);
      if s[0] == 0 && s[1] == 0 {
        NeverCatchesUp(s[2..], k + 1);
        assert Zeros(k) + s == [0] + (Zeros(k + 1) + s[2..]);
        assert Decode(Encode(s))[1..] == Decode(Encode(s[2..]));
        assert ([0] + (Zeros(k + 1) + s[2..]))[1..] == Zeros(k + 1) + s[2..];
      } else {
        assert (Zeros(k) + s)[0] == 0;
      }
    }
  }

  /** hex_to_ascii undoes ascii_to_hex exactly on the texts described by `RoundTrips`. */
  lemma HexRoundTripExactly(s: seq<CodeUnit>)
    ensures DecodeText(EncodeText(s)) == s <==> RoundTrips(s)
  {
    DecodeOfDigits(Encode(s));
    DigitsRoundTripExactly(s);
  }

  lemma {:induction false} DigitsRoundTripExactly(s: seq<CodeUnit>)
    ensures Decode(Encode(s)) == s <==> RoundTrips(s)
  {
    if s == [] {
    } else if s[0] >= 256 {
      DecodeOfWideFirst(s);
    } else if s[0] >= 16 {
      DecodeOfByteFirst(s);
      DigitsRoundTripExactly(s[1..]);
      assert s == [s[0]] + s[1..];
      assert Decode(Encode(s))[1..] == Decode(Encode(s[1..]));
      assert RoundTrips(s) <==> RoundTrips(s[1..]) by {
        assert forall i :: 0 <= i < |s[1..]| ==> s[1..][i] == s[i + 1];
      }
    } else if |s| == 1 {
      assert Encode(s) == [s[0]];
    } else {
      DecodeOfNarrowFirst(s);
      if s[0] == 0 && s[1] == 0 {
        NeverCatchesUp(s[2..], 1);
        assert s == [0] + ([0] + s[2..]) && Zeros(1) == [0];
        assert Decode(Encode(s))[1..] == Decode(Encode(s[2..]));
        assert s[1..] == Zeros(1) + s[2..];
      }
    }
  }
}
