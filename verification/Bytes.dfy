/** Byte strings and the big-endian words in which the ABI encodes numbers and addresses. */
module Bytes {
  import opened Evm
  import opened Powers

  type Byte = n: nat | n < 256

  /** The `k` low bytes of `n`, most significant first. */
  function BigEndian(n: nat, k: nat): (b: seq<Byte>)
    ensures |b| == k
  {
    if k == 0 then [] else BigEndian(n / 256, k - 1) + [n % 256]
  }

  function FromBytes(b: seq<Byte>): nat {
    if b == [] then 0 else 256 * FromBytes(b[..|b| - 1]) + b[|b| - 1]
  }

  lemma {:induction false} DecodeEncode(n: nat, k: nat)
    requires n < Pow(256, k)
    ensures FromBytes(BigEndian(n, k)) == n
  {
    if k > 0 {
      DecodeEncode(n / 256, k - 1);
      assert BigEndian(n, k)[..k - 1] == BigEndian(n / 256, k - 1);
    }
  }

  lemma {:induction false} EncodeDecode(b: seq<Byte>)
    ensures FromBytes(b) < Pow(256, |b|) && BigEndian(FromBytes(b), |b|) == b
  {
    if b != [] {
      EncodeDecode(b[..|b| - 1]);
      assert FromBytes(b) / 256 == FromBytes(b[..|b| - 1]);
      assert b == b[..|b| - 1] + [b[|b| - 1]];
    }
  }

  /** `n` shifted right by `k` bytes. */
  function ShiftRight(n: nat, k: nat): nat {
    if k == 0 then n else ShiftRight(n / 256, k - 1)
  }

  /** The most significant byte of a non-empty string. */
  lemma {:induction false} LeadingByte(b: seq<Byte>)
    requires b != []
    ensures ShiftRight(FromBytes(b), |b| - 1) == b[0]
  {
    var rest := b[..|b| - 1];
    assert FromBytes(b) == 256 * FromBytes(rest) + b[|b| - 1];
    if rest != [] {
      LeadingByte(rest);
      assert FromBytes(b) / 256 == FromBytes(rest);
    }
  }

  // ----- 32-byte words -----

  function Word(n: Uint256): seq<Byte> {
    BigEndian(n, 32)
  }

  lemma WordIsInjective(m: Uint256, n: Uint256)
    requires Word(m) == Word(n)
    ensures m == n
  {
    WordBounds();
    DecodeEncode(m, 32);
    DecodeEncode(n, 32);
  }

  /** The ABI encoding of a tuple of static values. */
  function Words(ws: seq<Uint256>): (b: seq<Byte>)
    ensures |b| == 32 * |ws|
  {
    if ws == [] then [] else Word(ws[0]) + Words(ws[1..])
  }

  lemma {:induction false} WordsIsInjective(a: seq<Uint256>, b: seq<Uint256>)
    requires Words(a) == Words(b)
    ensures a == b
  {
    assert 32 * |a| == |Words(a)| == 32 * |b|;
    if a != [] {
      assert Word(a[0]) == Words(a)[..32] == Words(b)[..32] == Word(b[0]);
      WordIsInjective(a[0], b[0]);
      assert Words(a[1..]) == Words(a)[32..] == Words(b)[32..] == Words(b[1..]);
      WordsIsInjective(a[1..], b[1..]);
      assert a == [a[0]] + a[1..] && b == [b[0]] + b[1..];
    }
  }

  /** An ASCII literal as bytes. */
  function Ascii(s: string): seq<Byte> {
    seq(|s|, i requires 0 <= i < |s| => (s[i] as int) % 256)
  }
}
