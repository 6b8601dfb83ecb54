/** One-time passwords as issued by `generateOTP` in server.js: the decimal
    rendering of an integer in 100000..999999. */
module Otp {

  /** The integer that `Math.random() * 900000` contributes once floored:
      `Math.floor(100000 + Math.random() * 900000)` is `100000 + n` for some
      `n` in 0..899999. The random source itself is not modelled; callers
      pass the seed in. */
  type OtpSeed = n: nat | n < 900000

  predicate IsDigit(c: char) {
    '0' <= c <= '9'
  }

  predicate AllDigits(s: string) {
    forall i :: 0 <= i < |s| ==> IsDigit(s[i])
  }

  /** The shape every stored OTP has: exactly six decimal digit characters. */
  predicate IsOtpCode(s: string) {
    |s| == 6 && AllDigits(s)
  }

  function DigitValue(c: char): (d: nat)
    requires IsDigit(c)
    ensures d < 10
  {
    c as int - '0' as int
  }

  function DigitChar(d: nat): (c: char)
    requires d < 10
    ensures IsDigit(c) && DigitValue(c) == d
  {
    ('0' as int + d) as char
  }

  function Pow10(k: nat): (p: nat)
    ensures p >= 1
  {
    if k == 0 then 1 else 10 * Pow10(k - 1)
  }

  /** The decimal rendering of a non-negative integer, most significant digit
      first and without leading zeros, as JavaScript's `toString` gives it for
      a safe integer. */
  function DecimalString(x: nat): (s: string)
    ensures 1 <= |s| && AllDigits(s)
    ensures x > 0 ==> s[0] != '0'
  {
    if x < 10 then [DigitChar(x)] else DecimalString(x / 10) + [DigitChar(x % 10)]
  }

  /** The integer a string of decimal digits denotes. */
  function DecimalValue(s: string): (x: nat)
    requires AllDigits(s)
    ensures x < Pow10(|s|)
  {
    if s == [] then 0
    else DecimalValue(s[..|s| - 1]) * 10 + DigitValue(s[|s| - 1])
  }

  /** Reading back a rendering gives the number rendered. */
  lemma {:induction false} DecimalRoundTrip(x: nat)
    ensures DecimalValue(DecimalString(x)) == x
  {
    if x >= 10 {
      var s := DecimalString(x);
      assert s[..|s| - 1] == DecimalString(x / 10);
      DecimalRoundTrip(x / 10);
    }
  }

  /** A number with k + 1 digits is rendered with k + 1 characters. */
  lemma {:induction false} DecimalLength(x: nat, k: nat)
    requires Pow10(k) <= x < Pow10(k + 1)
    ensures |DecimalString(x)| == k + 1
  {
    if k > 0 {
      DecimalLength(x / 10, k - 1);
    }
  }

  /** `generateOTP()`: six decimal digits denoting 100000 + seed. */
  function GenerateOtp(seed: OtpSeed): (code: string)
    ensures IsOtpCode(code)
    ensures DecimalValue(code) == 100000 + seed
    ensures code[0] != '0'
  {
    assert Pow10(5) == 100000 && Pow10(6) == 1000000;
    DecimalLength(100000 + seed, 5);
    DecimalRoundTrip(100000 + seed);
    DecimalString(100000 + seed)
  }

  /** Distinct seeds give distinct codes, so a code identifies the draw that
      produced it. */
  lemma GenerateOtpInjective(s1: OtpSeed, s2: OtpSeed)
    ensures GenerateOtp(s1) == GenerateOtp(s2) <==> s1 == s2
  {
  }
}
