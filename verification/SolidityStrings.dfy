/** contract/nft2.sol, library Strings: the loops that fill a byte buffer from the right. */
module SolidityStrings {
  import opened Wrappers
  import opened Evm
  import opened Powers
  import opened DecimalStrings

  datatype HexError = HexLengthInsufficient | LengthTooLarge

  // ----- decimal -----

  method ToString(value: Uint256) returns (s: string)
    ensures s == Decimal(value)
  {
    if value == 0 {
      return "0";
    }
    var temp: nat := value;
    var digits: nat := 0;
    while temp != 0
      invariant digits + |Digits(temp)| == |Digits(value)|
      decreases temp
    {
      digits := digits + 1;
      temp := temp / 10;
    }
    var buffer := new char[digits];
    WriteDigits(buffer, value);
    return buffer[..];
  }

  /** The second loop, from the right end of a buffer of the right length. */
  method WriteDigits(buffer: array<char>, value: nat)
    requires buffer.Length == |Digits(value)|
    modifies buffer
    ensures buffer[..] == Digits(value)
  {
    hide DigitChar;
    var digits := buffer.Length;
    var rest := value;
    while rest != 0
      invariant digits == |Digits(rest)| <= buffer.Length
      invariant Digits(rest) + buffer[digits..] == Digits(value)
      decreases rest
    {
      var c := DigitChar(rest % 10);
      ghost var tail := buffer[digits..];
      assert Digits(rest) == Digits(rest / 10) + [c];
      digits := digits - 1;
      buffer[digits] := c;
      assert buffer[digits..] == [c] + tail;
      AppendedDigit(Digits(rest / 10), c, tail);
      rest := rest / 10;
    }
    assert digits == 0 && buffer[0..] == buffer[..];
  }

  lemma AppendedDigit(front: string, c: char, tail: string)
    ensures (front + [c]) + tail == front + ([c] + tail)
  {
  }

  // ----- hexadecimal -----

  const ALPHABET := "0123456789abcdef"

  /** The `k` lowest hexadecimal digits of `n`. */
  function HexDigits(n: nat, k: nat): string {
    if k == 0 then "" else HexDigits(n / 16, k - 1) + [ALPHABET[n % 16]]
  }

  ghost predicate IsHexDigit(c: char) {
    exists d :: 0 <= d < 16 && ALPHABET[d] == c
  }

  function HexDigitValue(c: char): (d: nat)
    ensures IsHexDigit(c) ==> d < 16 && ALPHABET[d] == c
  {
    if '0' <= c <= '9' then (c - '0') as nat else if 'a' <= c <= 'f' then (c - 'a') as nat + 10 else 0
  }

  function HexValue(s: string): nat {
    if s == "" then 0 else 16 * HexValue(s[..|s| - 1]) + HexDigitValue(s[|s| - 1])
  }

  lemma {:induction false} HexDigitsHaveValue(n: nat, k: nat)
    ensures |HexDigits(n, k)| == k && forall i :: 0 <= i < k ==> IsHexDigit(HexDigits(n, k)[i])
    ensures n < Pow(16, k) ==> HexValue(HexDigits(n, k)) == n
  {
    if k > 0 {
      hide IsHexDigit;
      var front, last := HexDigits(n / 16, k - 1), ALPHABET[n % 16];
      HexDigitsHaveValue(n / 16, k - 1);
      HexDigitOf(n % 16);
      assert HexDigits(n, k) == front + [last] && (front + [last])[..k - 1] == front;
    }
  }

  lemma HexDigitOf(d: nat)
    requires d < 16
    ensures HexDigitValue(ALPHABET[d]) == d && IsHexDigit(ALPHABET[d])
  {
  }

  /** The number of bytes of `n`, as counted by shifting. */
  function ByteLength(n: nat): nat {
    if n == 0 then 0 else 1 + ByteLength(n / 256)
  }

  /** It is the least number of bytes that can hold `n`. */
  lemma {:induction false} ByteLengthIsLeast(n: nat, k: nat)
    ensures n < Pow(256, k) <==> ByteLength(n) <= k
    decreases k
  {
    PowBytes(k);
    if n > 0 && k > 0 {
      ByteLengthIsLeast(n / 256, k - 1);
    }
  }

  lemma ByteLengthOfWord(n: Uint256)
    ensures ByteLength(n) <= 32
  {
    WordBounds();
    ByteLengthIsLeast(n, 32);
  }

  lemma {:induction false} QuotientVanishes(n: nat, k: nat)
    ensures Shifted(n, k) == 0 <==> n < Pow(16, k)
    decreases k
  {
    if k > 0 {
      QuotientVanishes(n / 16, k - 1);
    }
  }

  /** `n` shifted right by `k` hexadecimal digits. */
  function Shifted(n: nat, k: nat): nat {
    if k == 0 then n else Shifted(n / 16, k - 1)
  }

  /** Reverts exactly when `value` does not fit into `length` bytes; otherwise its digits read back to it. */
  method ToHexStringFixed(value: Uint256, length: Uint256) returns (r: Result<string, HexError>)
    ensures 2 * length + 2 > MAX_UINT256 ==> r == Failure(LengthTooLarge)
    ensures 2 * length + 2 <= MAX_UINT256 ==>
              && (r == Failure(HexLengthInsufficient) <==> value >= Pow(256, length))
              && (r.Success? <==> value < Pow(256, length))
    ensures r.Success? ==> |r.value| == 2 * length + 2 && r.value[..2] == "0x" && HexValue(r.value[2..]) == value
    ensures r.Success? ==> forall i :: 2 <= i < |r.value| ==> IsHexDigit(r.value[i])
  {
    if 2 * length + 2 > MAX_UINT256 {
      return Failure(LengthTooLarge);
    }
    var buffer := new char[2 * length + 2];
    buffer[0] := '0';
    buffer[1] := 'x';
    var rest := WriteHexDigits(buffer, value);
    PowBytes(length);
    QuotientVanishes(value, 2 * length);
    if rest != 0 {
      return Failure(HexLengthInsufficient);
    }
    HexDigitsHaveValue(value, 2 * length);
    assert buffer[..][2..] == buffer[2..];
    assert forall i :: 2 <= i < buffer.Length ==> buffer[i] == buffer[2..][i - 2];
    return Success(buffer[..]);
  }

  /** The loop from the right end down to slot 2; `rest` is what did not fit. */
  method WriteHexDigits(buffer: array<char>, value: Uint256) returns (rest: nat)
    requires buffer.Length >= 2
    modifies buffer
    ensures buffer[..2] == old(buffer[..2]) && buffer[2..] == HexDigits(value, buffer.Length - 2)
    ensures rest == Shifted(value, buffer.Length - 2)
  {
    rest := value;
    var i := buffer.Length - 1;
    while i > 1
      invariant 1 <= i < buffer.Length
      invariant buffer[..2] == old(buffer[..2])
      invariant HexDigits(rest, i - 1) + buffer[i + 1..] == HexDigits(value, buffer.Length - 2)
      invariant Shifted(rest, i - 1) == Shifted(value, buffer.Length - 2)
    {
      ghost var tail := buffer[i + 1..];
      buffer[i] := ALPHABET[rest % 16];
      assert buffer[i..] == [ALPHABET[rest % 16]] + tail;
      rest := rest / 16;
      i := i - 1;
    }
  }

  /** Never reverts, and uses no more bytes than `value` needs (one for zero). */
  method ToHexString(value: Uint256) returns (r: Result<string, HexError>)
    ensures r.Success? && |r.value| >= 2 && r.value[..2] == "0x" && HexValue(r.value[2..]) == value
    ensures forall i :: 2 <= i < |r.value| ==> IsHexDigit(r.value[i])
    ensures |r.value| == 2 + 2 * if value == 0 then 1 else ByteLength(value)
  {
    if value == 0 {
      assert "0x00"[2..] == "00" && HexValue("00") == 16 * HexValue("00"[..1]) + HexDigitValue('0');
      assert "00"[..1] == "0" && HexValue("0") == 16 * HexValue("0"[..0]) + HexDigitValue('0');
      assert ALPHABET[0] == '0';
      return Success("0x00");
    }
    var temp: nat := value;
    var length := 0;
    while temp != 0
      invariant length + ByteLength(temp) == ByteLength(value)
      decreases temp
    {
      length := length + 1;
      temp := temp / 256;
    }
    ByteLengthOfWord(value);
    ByteLengthIsLeast(value, length);
    r := ToHexStringFixed(value, length);
  }
}
