/** Decimal strings: the canonical form of a natural number and the value of a string of digits. */
module DecimalStrings {
  import opened Powers

  function DigitChar(d: nat): char
    requires d < 10
  {
    '0' + d as char
  }

  predicate IsDigit(c: char) {
    '0' <= c <= '9'
  }

  predicate AllDigits(s: string) {
    forall i :: 0 <= i < |s| ==> IsDigit(s[i])
  }

  /** The digits of `n` with no leading zero; the empty string for 0. */
  function Digits(n: nat): string {
    if n == 0 then "" else Digits(n / 10) + [DigitChar(n % 10)]
  }

  function Decimal(n: nat): string {
    if n == 0 then "0" else Digits(n)
  }

  /** The number written by a string of digits; leading zeros are allowed. */
  function Value(s: string): nat
    requires AllDigits(s)
  {
    if s == "" then 0 else 10 * Value(s[..|s| - 1]) + (s[|s| - 1] - '0') as nat
  }

  /** No leading zero, except in "0" itself. */
  predicate IsCanonical(s: string) {
    AllDigits(s) && s != "" && (s[0] == '0' ==> s == "0")
  }

  lemma {:induction false} DigitsHaveValue(n: nat)
    ensures AllDigits(Digits(n)) && Value(Digits(n)) == n
    ensures n > 0 ==> Digits(n) != "" && Digits(n)[0] != '0'
  {
    if n > 0 {
      DigitsHaveValue(n / 10);
      var s := Digits(n);
      assert s[..|s| - 1] == Digits(n / 10);
    }
  }

  /** Printing and reading back is the identity, and what is printed is canonical. */
  lemma DecimalRoundTrip(n: nat)
    ensures IsCanonical(Decimal(n)) && Value(Decimal(n)) == n
  {
    DigitsHaveValue(n);
    assert Value("0") == 0;
  }

  lemma {:induction false} ValueOfNonzeroLead(s: string)
    requires AllDigits(s) && s != "" && s[0] != '0'
    ensures Value(s) > 0 && Digits(Value(s)) == s
  {
    var rest := s[..|s| - 1];
    var d := (s[|s| - 1] - '0') as nat;
    assert s == rest + [DigitChar(d)];
    assert Value(s) == 10 * Value(rest) + d;
    if rest != "" {
      ValueOfNonzeroLead(rest);
    } else {
      assert d > 0 && Digits(0) == "";
    }
    assert Value(s) / 10 == Value(rest) && Value(s) % 10 == d;
  }

  /** Every canonical string is the decimal form of its value, so printing is a bijection onto canonical strings. */
  lemma CanonicalIsDecimal(s: string)
    requires IsCanonical(s)
    ensures Decimal(Value(s)) == s
  {
    if s[0] == '0' {
      assert Value(s) == 0;
    } else {
      ValueOfNonzeroLead(s);
    }
  }

  lemma DecimalIsInjective(m: nat, n: nat)
    requires Decimal(m) == Decimal(n)
    ensures m == n
  {
    DecimalRoundTrip(m);
    DecimalRoundTrip(n);
  }

  lemma Regroup(x: nat, p: nat)
    ensures x * (10 * p) == 10 * (x * p)
  {
  }

  lemma {:induction false} ValueOfConcat(a: string, b: string)
    requires AllDigits(a) && AllDigits(b)
    ensures AllDigits(a + b) && Value(a + b) == Value(a) * Pow(10, |b|) + Value(b)
  {
    if b == "" {
      assert a + b == a;
    } else {
      var n := |b| - 1;
      ValueOfConcat(a, b[..n]);
      assert (a + b)[..|a + b| - 1] == a + b[..n];
      assert (a + b)[|a + b| - 1] == b[n];
      Regroup(Value(a), Pow(10, n));
    }
  }

  function Zeros(k: nat): (s: string)
    ensures |s| == k && AllDigits(s)
  {
    seq(k, _ => '0')
  }

  lemma {:induction false} ValueOfZeros(k: nat)
    ensures Value(Zeros(k)) == 0
  {
    if k > 0 {
      ValueOfZeros(k - 1);
      assert Zeros(k)[..k - 1] == Zeros(k - 1);
    }
  }
}
