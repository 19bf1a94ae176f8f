/**
 src/app/helpers/functions.ts, noExponents and convertTokenAmountToInt, on the strings that Number::toString prints
 (section 6.1.6.1.20 of ECMA-262).
 */
module NumberStrings {
  import opened Powers
  import opened DecimalStrings

  /**
   A finite number as Number::toString sees it: zero, or plus/minus Value(digits) * 10^(n - |digits|) with as few
   digits as possible.
   */
  datatype Number = Zero | Finite(negative: bool, digits: string, n: int)

  /** A double needs at most 17 digits; the point can follow the 21st without an exponent. */
  ghost predicate IsPrintable(x: Number) {
    x.Finite? ==> AllDigits(x.digits) && 0 < |x.digits| <= 21 && x.digits[0] != '0'
  }

  function Sign(negative: bool): string {
    if negative then "-" else ""
  }

  predicate HasExponent(x: Number) {
    x.Finite? && !(-5 <= x.n <= 21)
  }

  /** The decimal or exponent form without the sign. */
  function Magnitude(digits: string, n: int): string
    requires digits != ""
  {
    var k := |digits|;
    if -5 <= n <= 21 then
      if k <= n then digits + Zeros(n - k)
      else if 0 < n then digits[..n] + "." + digits[n..]
      else "0." + Zeros(-n) + digits
    else
      (if k == 1 then digits else digits[..1] + "." + digits[1..])
      + "e" + (if n > 0 then "+" + Decimal(n - 1) else "-" + Decimal(1 - n))
  }

  /** Number::toString. */
  function Print(x: Number): string
    requires IsPrintable(x)
  {
    if x.Zero? then "0" else Sign(x.negative) + Magnitude(x.digits, x.n)
  }

  // ----- the string operations of the source -----

  function FirstOf(s: string, p: char -> bool): (i: nat)
    ensures i <= |s| && (i < |s| ==> p(s[i])) && forall j :: 0 <= j < i ==> !p(s[j])
  {
    if s == "" || p(s[0]) then 0 else 1 + FirstOf(s[1..], p)
  }

  predicate IsE(c: char) {
    c == 'e' || c == 'E'
  }

  predicate IsDot(c: char) {
    c == '.'
  }

  /** String.split at every character that satisfies `p`. */
  function Split(s: string, p: char -> bool): (parts: seq<string>)
    ensures parts != []
    decreases |s|
  {
    var i := FirstOf(s, p);
    if i == |s| then [s] else [s[..i]] + Split(s[i + 1..], p)
  }

  /** String.replace of the first dot by nothing. */
  function WithoutDot(s: string): string {
    var i := FirstOf(s, IsDot);
    if i == |s| then s else s[..i] + s[i + 1..]
  }

  /** String.replace of a leading minus by nothing. */
  function WithoutMinus(s: string): string {
    if s != "" && s[0] == '-' then s[1..] else s
  }

  predicate IsExponent(s: string) {
    |s| > 1 && (s[0] == '+' || s[0] == '-') && AllDigits(s[1..])
  }

  /** Number(s) of an explicitly signed integer. */
  function ReadExponent(s: string): int
    requires IsExponent(s)
  {
    if s[0] == '-' then -(Value(s[1..]) as int) else Value(s[1..])
  }

  // ----- what a decimal string denotes -----

  function WholePart(s: string): string {
    var u := WithoutMinus(s);
    u[..FirstOf(u, IsDot)]
  }

  function FractionPart(s: string): string {
    var u := WithoutMinus(s);
    var i := FirstOf(u, IsDot);
    if i == |u| then "" else u[i + 1..]
  }

  /** Digits with an optional sign and an optional fraction; no exponent. */
  predicate IsPlainDecimal(s: string) {
    WholePart(s) != "" && AllDigits(WholePart(s) + FractionPart(s))
  }

  /** The plain decimal `s` has exactly the value and the sign of `x`; the powers of ten are cross-multiplied. */
  ghost predicate Denotes(s: string, x: Number)
    requires IsPrintable(x)
  {
    && IsPlainDecimal(s)
    && var mantissa := Value(WholePart(s) + FractionPart(s));
    if x.Zero? then mantissa == 0 && s[..1] != "-"
    else
      var shift := x.n - |x.digits| + |FractionPart(s)|;
      && (s[..1] == "-" <==> x.negative)
      && (if shift >= 0 then mantissa == Value(x.digits) * Pow(10, shift)
          else mantissa * Pow(10, -shift) == Value(x.digits))
  }

  // ----- noExponents -----

  /** The loop adds the zeros one by one; the branch is on the exponent plus one. */
  method NoExponents(x: Number) returns (r: string)
    requires IsPrintable(x)
    ensures r == Expanded(x)
  {
    hide Split, WithoutDot, IsExponent, ReadExponent, Print, Value;
    PrintSplits(x);
    var data := Split(Print(x), IsE);
    if |data| == 1 {
      return data[0];
    }
    var z := "";
    var sign := Sign(x.Finite? && x.negative);
    var str := WithoutDot(data[0]);
    var mag := ReadExponent(data[1]) + 1;
    if mag < 0 {
      z := sign + "0.";
      while mag != 0
        invariant x.n <= mag <= 0 && z == sign + "0." + Zeros(mag - x.n)
        decreases -mag
      {
        mag := mag + 1;
        z := z + "0";
      }
      return z + WithoutMinus(str);
    }
    mag := mag - |str|;
    ghost var total := mag;
    while mag != 0
      invariant 0 <= mag <= total && z == Zeros(total - mag)
      decreases mag
    {
      mag := mag - 1;
      z := z + "0";
    }
    return str + z;
  }

  /** The outcome of noExponents: numbers printed without an exponent pass through. */
  function Expanded(x: Number): string
    requires IsPrintable(x)
  {
    if !HasExponent(x) then Print(x)
    else if x.n < 0 then Sign(x.negative) + "0." + Zeros(-x.n) + x.digits
    else
      var str := Sign(x.negative) + x.digits;
      str + Zeros(if x.n >= |str| then x.n - |str| else 0)
  }

  lemma {:induction false} FirstOfSkips(a: string, b: string, p: char -> bool)
    requires forall i :: 0 <= i < |a| ==> !p(a[i])
    ensures FirstOf(a + b, p) == |a| + FirstOf(b, p)
  {
    if a == "" {
      assert a + b == b;
    } else {
      assert (a + b)[0] == a[0] && (a + b)[1..] == a[1..] + b;
      FirstOfSkips(a[1..], b, p);
    }
  }

  /** Only digits, a sign and a point: nothing that `split` would cut at. */
  predicate NoMark(s: string) {
    forall i :: 0 <= i < |s| ==> !IsE(s[i])
  }

  lemma SplitAtMark(head: string, tail: string)
    requires NoMark(head) && NoMark(tail)
    ensures Split(head + "e" + tail, IsE) == [head, tail]
  {
    var s := head + "e" + tail;
    assert s == head + ("e" + tail);
    FirstOfSkips(head, "e" + tail, IsE);
    assert s[..|head|] == head && s[|head| + 1..] == tail;
    SplitWhole(tail);
  }

  lemma SplitWhole(s: string)
    requires NoMark(s)
    ensures Split(s, IsE) == [s]
  {
  }

  /** The significand before the exponent mark. */
  function Head(negative: bool, digits: string): string
    requires digits != ""
  {
    Sign(negative) + (if |digits| == 1 then digits else digits[..1] + "." + digits[1..])
  }

  function Tail(n: int): string {
    if n > 0 then "+" + Decimal(n - 1) else "-" + Decimal(1 - n)
  }

  lemma HeadLosesItsDot(negative: bool, digits: string)
    requires digits != "" && AllDigits(digits)
    ensures NoMark(Head(negative, digits)) && WithoutDot(Head(negative, digits)) == Sign(negative) + digits
  {
    hide FirstOf;
    var head := Head(negative, digits);
    if |digits| == 1 {
      FirstOfSkips(head, "", IsDot);
      assert head + "" == head;
    } else {
      var lead, rest := Sign(negative) + digits[..1], digits[1..];
      assert head == lead + ("." + rest);
      DotAfter(lead, rest);
      assert lead + rest == Sign(negative) + digits;
    }
  }

  lemma DotAfter(lead: string, rest: string)
    requires forall i :: 0 <= i < |lead| ==> !IsDot(lead[i])
    ensures WithoutDot(lead + ("." + rest)) == lead + rest
  {
    var s := lead + ("." + rest);
    FirstOfSkips(lead, "." + rest, IsDot);
    assert s[..|lead|] == lead && s[|lead| + 1..] == rest;
  }

  lemma TailReadsBack(n: int)
    ensures NoMark(Tail(n)) && IsExponent(Tail(n)) && ReadExponent(Tail(n)) == n - 1
  {
    var d: nat := if n > 0 then n - 1 else 1 - n;
    DecimalRoundTrip(d);
    assert Tail(n)[1..] == Decimal(d);
  }

  lemma PlainPrintHasNoMark(x: Number)
    requires IsPrintable(x) && !HasExponent(x)
    ensures NoMark(Print(x))
  {
    if x.Finite? {
      var k := |x.digits|;
      if k <= x.n {
        assert NoMark(x.digits + Zeros(x.n - k));
      } else if 0 < x.n {
        assert NoMark(x.digits[..x.n] + "." + x.digits[x.n..]);
      } else {
        assert NoMark("0." + Zeros(-x.n) + x.digits);
      }
    }
  }

  /** What the split at the exponent mark yields. */
  lemma PrintSplits(x: Number)
    requires IsPrintable(x)
    ensures var data := Split(Print(x), IsE);
            if !HasExponent(x) then data == [Print(x)]
            else
              && |data| == 2 && WithoutDot(data[0]) == Sign(x.negative) + x.digits
              && IsExponent(data[1]) && ReadExponent(data[1]) == x.n - 1
  {
    hide Split, WithoutDot, NoMark, IsExponent, ReadExponent, Decimal;
    if !HasExponent(x) {
      PlainPrintHasNoMark(x);
      SplitWhole(Print(x));
    } else {
      var head, tail := Head(x.negative, x.digits), Tail(x.n);
      HeadLosesItsDot(x.negative, x.digits);
      TailReadsBack(x.n);
      assert Print(x) == head + "e" + tail;
      SplitAtMark(head, tail);
    }
  }

  // ----- noExponents preserves the value -----

  lemma PartsOfInteger(negative: bool, whole: string)
    requires whole != "" && AllDigits(whole)
    ensures var s := Sign(negative) + whole;
            && IsPlainDecimal(s) && WholePart(s) == whole && FractionPart(s) == ""
            && (s[..1] == "-" <==> negative)
  {
    var s := Sign(negative) + whole;
    assert WithoutMinus(s) == whole;
    assert whole + "" == whole;
  }

  lemma PartsOfFraction(negative: bool, whole: string, fraction: string)
    requires whole != "" && AllDigits(whole) && AllDigits(fraction)
    ensures var s := Sign(negative) + whole + "." + fraction;
            && IsPlainDecimal(s) && WholePart(s) == whole && FractionPart(s) == fraction
            && (s[..1] == "-" <==> negative)
  {
    hide FirstOf;
    var s := Sign(negative) + whole + "." + fraction;
    var u := whole + ("." + fraction);
    assert WithoutMinus(s) == u;
    assert FirstOf(u, IsDot) == |whole| by {
      FirstOfSkips(whole, "." + fraction, IsDot);
      DotFirst(fraction);
    }
    assert u[..|whole|] == whole && u[|whole| + 1..] == fraction;
  }

  lemma DotFirst(rest: string)
    ensures FirstOf("." + rest, IsDot) == 0
  {
  }

  /** Zeros behind the digits multiply their value. */
  lemma PaddedValue(digits: string, zeros: nat)
    requires AllDigits(digits)
    ensures AllDigits(digits + Zeros(zeros)) && Value(digits + Zeros(zeros)) == Value(digits) * Pow(10, zeros)
  {
    hide Value;
    ValueOfConcat(digits, Zeros(zeros));
    ValueOfZeros(zeros);
  }

  /** An integer followed by zeros, as a value. */
  lemma IntegerDenotes(x: Number, zeros: nat)
    requires IsPrintable(x) && x.Finite?
    ensures var s := Sign(x.negative) + (x.digits + Zeros(zeros));
            && IsPlainDecimal(s)
            && (x.n - |x.digits| == zeros ==> Denotes(s, x))
            && (x.n - |x.digits| == zeros + 1 ==> !Denotes(s, x))
  {
    hide Value, WholePart, FractionPart, IsPlainDecimal;
    var whole := x.digits + Zeros(zeros);
    PaddedValue(x.digits, zeros);
    PartsOfInteger(x.negative, whole);
    assert whole + "" == whole;
    ValueOfNonzeroLead(x.digits);
    TenTimesMore(Value(x.digits), zeros);
  }

  lemma TenTimesMore(v: nat, zeros: nat)
    requires v > 0
    ensures v * Pow(10, zeros) != v * Pow(10, zeros + 1)
  {
    PowPositive(10, zeros);
    Regroup(v, Pow(10, zeros));
    ProductPositive(v, Pow(10, zeros));
  }

  lemma ProductPositive(a: nat, b: nat)
    requires a > 0 && b > 0
    ensures a * b > 0
  {
  }

  lemma SmallMantissa(digits: string, zeros: nat)
    requires AllDigits(digits)
    ensures Value("0" + (Zeros(zeros) + digits)) == Value(digits)
  {
    hide Value;
    ValueOfConcat("0", Zeros(zeros) + digits);
    ValueOfConcat(Zeros(zeros), digits);
    ValueOfZeros(zeros);
    ValueOfZeros(1);
    assert Zeros(1) == "0";
  }

  /** A mantissa equal to the digits, with the point in the right place. */
  lemma DenotesByParts(s: string, x: Number)
    requires IsPrintable(x) && x.Finite? && IsPlainDecimal(s) && (s[..1] == "-" <==> x.negative)
    requires Value(WholePart(s) + FractionPart(s)) == Value(x.digits)
    requires x.n - |x.digits| + |FractionPart(s)| == 0
    ensures Denotes(s, x)
  {
    hide Value, WholePart, FractionPart, IsPlainDecimal, AllDigits;
    assert Pow(10, 0) == 1;
  }

  /** A zero, a point, some zeros and the digits. */
  lemma SmallDenotes(x: Number)
    requires IsPrintable(x) && x.Finite? && x.n <= 0
    ensures Denotes(Sign(x.negative) + "0." + Zeros(-x.n) + x.digits, x)
  {
    hide Value, WholePart, FractionPart, IsPlainDecimal, Denotes;
    var fraction := Zeros(-x.n) + x.digits;
    var s := Sign(x.negative) + "0" + "." + fraction;
    assert Sign(x.negative) + "0." + Zeros(-x.n) + x.digits == s;
    PartsOfFraction(x.negative, "0", fraction);
    SmallMantissa(x.digits, -x.n);
    DenotesByParts(s, x);
  }

  /** A point between the digits. */
  lemma MixedDenotes(x: Number)
    requires IsPrintable(x) && x.Finite? && 0 < x.n < |x.digits|
    ensures Denotes(Sign(x.negative) + (x.digits[..x.n] + "." + x.digits[x.n..]), x)
  {
    hide Value, WholePart, FractionPart, IsPlainDecimal, Denotes;
    var s := Sign(x.negative) + x.digits[..x.n] + "." + x.digits[x.n..];
    assert Sign(x.negative) + (x.digits[..x.n] + "." + x.digits[x.n..]) == s;
    PartsOfFraction(x.negative, x.digits[..x.n], x.digits[x.n..]);
    assert x.digits[..x.n] + x.digits[x.n..] == x.digits;
    DenotesByParts(s, x);
  }

  /**
   noExponents yields a plain decimal of exactly the same value and sign if and only if the number is not a negative
   one printed with a positive exponent; there the minus sign is counted as a digit and one zero is missing.
   */
  lemma ExpandedDenotes(x: Number)
    requires IsPrintable(x)
    ensures IsPlainDecimal(Expanded(x))
    ensures Denotes(Expanded(x), x) <==> !(x.Finite? && x.negative && x.n > 21)
  {
    hide Denotes, IsPlainDecimal;
    if x.Zero? {
      ZeroDenotes();
    } else if x.n > 21 {
      var str := Sign(x.negative) + x.digits;
      assert str + Zeros(x.n - |str|) == Sign(x.negative) + (x.digits + Zeros(x.n - |str|));
      IntegerDenotes(x, x.n - |str|);
    } else if x.n >= |x.digits| {
      IntegerDenotes(x, x.n - |x.digits|);
    } else if x.n > 0 {
      MixedDenotes(x);
      PlainIfDenotes(Expanded(x), x);
    } else {
      SmallDenotes(x);
      assert Sign(x.negative) + ("0." + Zeros(-x.n) + x.digits) == Sign(x.negative) + "0." + Zeros(-x.n) + x.digits;
      PlainIfDenotes(Expanded(x), x);
    }
  }

  lemma ZeroDenotes()
    ensures Denotes("0", Zero) && IsPlainDecimal("0")
  {
    assert WithoutMinus("0") == "0" && FirstOf("0", IsDot) == 1;
    assert "0"[..1] + "" == "0" && Value("0") == 0;
  }

  lemma PlainIfDenotes(s: string, x: Number)
    requires IsPrintable(x) && Denotes(s, x)
    ensures IsPlainDecimal(s)
  {
  }

  /** -1e21 loses a zero: the printed result is minus ten to the power of twenty. */
  lemma NegativePowerLosesAZero()
    ensures var x := Finite(true, "1", 22);
            IsPrintable(x) && Expanded(x) == "-1" + Zeros(20) && !Denotes(Expanded(x), x)
  {
    ExpandedDenotes(Finite(true, "1", 22));
  }

  // ----- convertTokenAmountToInt -----

  /** `f` is the integer part of the non-negative number `x`: f <= x < f + 1. */
  ghost predicate IsFloor(f: nat, x: Number)
    requires IsPrintable(x)
  {
    if x.Zero? then f == 0
    else
      var e := x.n - |x.digits|;
      if e >= 0 then f == Value(x.digits) * Pow(10, e)
      else f * Pow(10, -e) <= Value(x.digits) < (f + 1) * Pow(10, -e)
  }

  /** The multiplier is the text 1 followed by `decimals` zeros. */
  method Multiplier(decimals: nat) returns (text: string)
    ensures IsCanonical(text) && Value(text) == Pow(10, decimals)
  {
    text := "1";
    for i := 0 to decimals
      invariant text == "1" + Zeros(i)
    {
      text := text + "0";
    }
    ValueOfConcat("1", Zeros(decimals));
    ValueOfZeros(decimals);
    assert Value("1") == 10 * Value("1"[..0]) + 1 == 1;
  }

  /**
   The magnitude of which the integer part is returned: that of the product, except that a negative product with a
   positive exponent has lost a power of ten.
   */
  function Shown(x: Number): Number {
    if x.Zero? then Zero else Finite(false, x.digits, if x.negative && x.n > 21 then x.n - 1 else x.n)
  }

  predicate IsNegative(x: Number) {
    x.Finite? && x.negative
  }

  /**
   From the printed product: expand, then keep what stands before the first point. For a non-negative product these are
   the decimal digits of its floor; for a negative one, a minus sign and the digits of the integer part of `Shown`.
   */
  method ConvertTokenAmountToInt(product: Number) returns (r: string)
    requires IsPrintable(product)
    ensures exists f: nat :: IsFloor(f, Shown(product)) && r == Sign(IsNegative(product)) + Decimal(f)
    ensures !IsNegative(product) ==> Shown(product) == product
  {
    hide Expanded, Decimal, Value, IsFloor, Print, Split, FirstOf;
    var expanded := NoExponents(product);
    r := Split(expanded, IsDot)[0];
    BeforeThePoint(expanded);
    SignedExpansion(product);
    ghost var shown := Shown(product);
    ghost var whole := Expanded(shown)[..FirstOf(Expanded(shown), IsDot)];
    FirstOfSkips(Sign(IsNegative(product)), Expanded(shown), IsDot);
    assert r == Sign(IsNegative(product)) + whole;
    WholePartIsFloor(shown);
    CanonicalIsDecimal(whole);
    assert IsFloor(Value(whole), shown) && r == Sign(IsNegative(product)) + Decimal(Value(whole));
  }

  /** The expansion is the sign before the expansion of the magnitude shown. */
  lemma SignedExpansion(x: Number)
    requires IsPrintable(x)
    ensures IsPrintable(Shown(x)) && Expanded(x) == Sign(IsNegative(x)) + Expanded(Shown(x))
  {
    if x.Zero? {
      assert "" + "0" == "0";
    } else if x.n > 21 {
      var m := Shown(x);
      assert x.negative ==> m.n >= 21 >= |x.digits|;
      assert Expanded(m) == "" + (x.digits + Zeros(m.n - |x.digits|));
      assert Expanded(x) == Sign(x.negative) + (x.digits + Zeros(m.n - |x.digits|));
    } else if x.n < -5 {
      assert Sign(x.negative) + ("" + "0." + Zeros(-x.n) + x.digits)
          == Sign(x.negative) + "0." + Zeros(-x.n) + x.digits;
    } else {
      assert Print(Shown(x)) == Magnitude(x.digits, x.n);
    }
  }

  lemma BeforeThePoint(s: string)
    ensures Split(s, IsDot)[0] == s[..FirstOf(s, IsDot)]
  {
    var i := FirstOf(s, IsDot);
    if i == |s| {
      assert s[..i] == s;
    }
  }

  lemma WholePartIsFloor(x: Number)
    requires IsPrintable(x) && (x.Zero? || !x.negative)
    ensures var whole := Expanded(x)[..FirstOf(Expanded(x), IsDot)];
            IsCanonical(whole) && IsFloor(Value(whole), x)
  {
    hide Value, IsFloor, FirstOf;
    var s := Expanded(x);
    if x.Zero? {
      BeforeTheDot("0", "");
      ZeroIsItsFloor();
    } else if x.n <= 0 {
      var fraction := Zeros(-x.n) + x.digits;
      assert s == "0" + ("." + fraction);
      BeforeTheDot("0", "." + fraction);
      ZeroIsItsFloor();
      SmallValue(x);
    } else if x.n < |x.digits| {
      assert s == x.digits[..x.n] + ("." + x.digits[x.n..]);
      BeforeTheDot(x.digits[..x.n], "." + x.digits[x.n..]);
      LeadingDigits(x);
    } else {
      assert s == x.digits + Zeros(x.n - |x.digits|);
      BeforeTheDot(s, "");
      assert s + "" == s;
      IntegerIsItsFloor(x);
    }
  }

  lemma BeforeTheDot(whole: string, rest: string)
    requires AllDigits(whole) && (rest == "" || rest[0] == '.')
    ensures (whole + rest)[..FirstOf(whole + rest, IsDot)] == whole
  {
    FirstOfSkips(whole, rest, IsDot);
  }

  lemma ZeroIsItsFloor()
    ensures Value("0") == 0 && IsFloor(0, Zero)
  {
  }

  lemma IntegerIsItsFloor(x: Number)
    requires IsPrintable(x) && x.Finite? && x.n >= |x.digits|
    ensures IsFloor(Value(x.digits + Zeros(x.n - |x.digits|)), x)
  {
    hide Value;
    ValueOfConcat(x.digits, Zeros(x.n - |x.digits|));
    ValueOfZeros(x.n - |x.digits|);
  }

  /** A string of k digits is below ten to the power of k. */
  lemma {:induction false} ValueBound(s: string)
    requires AllDigits(s)
    ensures Value(s) < Pow(10, |s|)
  {
    if s != "" {
      ValueBound(s[..|s| - 1]);
    }
  }

  lemma {:induction false} PowMonotone(j: nat, k: nat)
    requires j <= k
    ensures Pow(10, j) <= Pow(10, k)
    decreases k
  {
    if j < k {
      PowMonotone(j, k - 1);
    }
  }

  lemma SmallValue(x: Number)
    requires IsPrintable(x) && x.Finite? && x.n <= 0
    ensures IsFloor(0, x)
  {
    var k := |x.digits|;
    ValueBound(x.digits);
    PowMonotone(k, k - x.n);
    assert 0 * Pow(10, k - x.n) == 0 && (0 + 1) * Pow(10, k - x.n) == Pow(10, k - x.n);
  }

  lemma LeadingDigits(x: Number)
    requires IsPrintable(x) && x.Finite? && 0 < x.n < |x.digits|
    ensures IsFloor(Value(x.digits[..x.n]), x)
  {
    hide Value;
    var a, b := x.digits[..x.n], x.digits[x.n..];
    assert a + b == x.digits;
    ValueOfConcat(a, b);
    ValueBound(b);
    NextMultiple(Value(a), Pow(10, |b|));
  }

  lemma NextMultiple(a: nat, p: nat)
    ensures (a + 1) * p == a * p + p
  {
  }
}
