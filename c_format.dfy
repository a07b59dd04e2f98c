/**
  The parts of C the step readout relies on: 32-bit `int`, the truncating
  `/` and `%` operators, and `snprintf` with the `%d` and `%0<w>d`
  conversions into a bounded buffer. A reference reader for decimal text
  (ParseDigits) is the partner of the `%d` formatter.
 */
module CFormat {

  /** C `int` on the watch: 32-bit two's complement. */
  type Int32 = x: int | -0x8000_0000 <= x <= 0x7FFF_FFFF

  const Int32Max: Int32 := 0x7FFF_FFFF

  /** C's `a / b` for a positive divisor: the quotient truncated toward zero. */
  function CDiv(a: int, b: int): (q: int)
    requires b > 0
    ensures a >= 0 ==> 0 <= q * b <= a < q * b + b
    ensures a < 0 ==> q * b - b < a <= q * b <= 0
  {
    var m := if a >= 0 then a else -a;
    DivBounds(m, b);
    if a >= 0 then m / b else -(m / b)
  }

  /** Euclidean division of a non-negative number, bounded by the divisor's multiples. */
  lemma DivBounds(m: int, b: int)
    requires m >= 0 && b > 0
    ensures 0 <= (m / b) * b <= m < (m / b) * b + b
    ensures -(m / b) * b == -((m / b) * b)
  {
  }

  /** C's `a % b` for a positive divisor: the remainder takes the sign of `a`. */
  function CRem(a: int, b: int): (r: int)
    requires b > 0
    ensures a == CDiv(a, b) * b + r
    ensures a >= 0 ==> 0 <= r < b
    ensures a < 0 ==> -b < r <= 0
  {
    a - CDiv(a, b) * b
  }

  /** On non-negative operands C's operators agree with Dafny's. */
  lemma CDivRemNonNegative(a: int, b: int)
    requires a >= 0 && b > 0
    ensures CDiv(a, b) == a / b && CRem(a, b) == a % b
  {
  }

  predicate IsDigit(c: char) {
    '0' <= c <= '9'
  }

  predicate AllDigits(s: string) {
    forall i :: 0 <= i < |s| ==> IsDigit(s[i])
  }

  function DigitChar(d: nat): (c: char)
    requires d < 10
    ensures IsDigit(c)
    ensures (c as int) - ('0' as int) == d
  {
    ('0' as int + d) as char
  }

  function DigitValue(c: char): (d: nat)
    requires IsDigit(c)
    ensures d < 10 && DigitChar(d) == c
  {
    (c as int) - ('0' as int)
  }

  /** Decimal digits of `n` without sign or leading zeros, as `%d` prints it. */
  function Decimal(n: nat): (s: string)
    decreases n
    ensures |s| >= 1 && AllDigits(s)
    ensures s[0] == '0' ==> n == 0
    ensures n < 10 <==> |s| == 1
  {
    if n < 10 then [DigitChar(n)] else Decimal(n / 10) + [DigitChar(n % 10)]
  }

  /** The value of a string of decimal digits (the reference reader). */
  function ParseDigits(s: string): (n: nat)
    requires AllDigits(s)
    decreases |s|
  {
    if s == [] then 0 else 10 * ParseDigits(s[..|s| - 1]) + DigitValue(s[|s| - 1])
  }

  /** Reading back what `%d` printed gives the number printed. */
  lemma {:induction false} ParseDecimal(n: nat)
    ensures ParseDigits(Decimal(n)) == n
    decreases n
  {
    var s := Decimal(n);
    if n >= 10 {
      ParseDecimal(n / 10);
      assert s[..|s| - 1] == Decimal(n / 10);
    }
  }

  /** `%d` is injective: two numbers never print the same. */
  lemma DecimalInjective(m: nat, n: nat)
    requires Decimal(m) == Decimal(n)
    ensures m == n
  {
    ParseDecimal(m);
    ParseDecimal(n);
  }

  function Pow10(k: nat): (p: nat)
    ensures p >= 1
  {
    if k == 0 then 1 else 10 * Pow10(k - 1)
  }

  /** A number below 10^k prints in at most k digits. */
  lemma {:induction false} DecimalLength(n: nat, k: nat)
    requires 1 <= k && n < Pow10(k)
    ensures |Decimal(n)| <= k
    decreases k
  {
    if n >= 10 {
      assert k >= 2;
      DecimalLength(n / 10, k - 1);
    }
  }

  /** The digits after the sign, if any. */
  function Magnitude(s: string): string {
    if |s| >= 1 && s[0] == '-' then s[1..] else s
  }

  /** Text a signed decimal reader accepts: an optional minus sign, then at least one digit. */
  predicate IsIntText(s: string) {
    |Magnitude(s)| >= 1 && AllDigits(Magnitude(s))
  }

  /** The value of a signed decimal text (the reference reader for `%d`). */
  function ParseInt(s: string): int
    requires IsIntText(s)
  {
    if s[0] == '-' then -(ParseDigits(s[1..]) as int) else ParseDigits(s)
  }

  /** `%d`: an optional minus sign, then the digits of the magnitude. */
  function FormatInt(i: int): (s: string)
    ensures |s| >= 1 && (s[0] == '-' <==> i < 0)
  {
    if i < 0 then "-" + Decimal(-i) else Decimal(i)
  }

  /** Reading back what `%d` printed gives the number, and the digits have no leading zero. */
  lemma FormatIntRoundTrip(i: int)
    ensures IsIntText(FormatInt(i)) && ParseInt(FormatInt(i)) == i
    ensures Magnitude(FormatInt(i))[0] == '0' ==> i == 0
  {
    var n := if i < 0 then -i else i;
    ParseDecimal(n);
    assert Magnitude(FormatInt(i)) == Decimal(n);
  }

  /** Zeros in front of a digit string do not change its value. */
  lemma {:induction false} ParseLeadingZeros(zeros: nat, digits: string)
    requires AllDigits(digits)
    ensures ParseDigits(seq(zeros, _ => '0') + digits) == ParseDigits(digits)
    decreases |digits|, zeros
  {
    var z := seq(zeros, _ => '0');
    var t := z + digits;
    if digits == [] {
      assert t == z;
      if zeros > 0 {
        assert t[..|t| - 1] == seq(zeros - 1, _ => '0') + [];
        ParseLeadingZeros(zeros - 1, []);
      }
    } else {
      assert t[..|t| - 1] == z + digits[..|digits| - 1];
      ParseLeadingZeros(zeros, digits[..|digits| - 1]);
    }
  }

  /**
    `%0<width>d`: the sign of `%d`, then zeros and the digits of the
    magnitude, together exactly `width` characters when `%d` is shorter.
   */
  function FormatIntZeroPad(i: int, width: nat): (s: string)
    ensures |s| == if |FormatInt(i)| < width then width else |FormatInt(i)|
    ensures |s| >= 1 && (s[0] == '-' <==> i < 0)
    ensures |FormatInt(i)| >= width ==> s == FormatInt(i)
  {
    var sign := if i < 0 then "-" else "";
    var digits := if i < 0 then Decimal(-i) else Decimal(i);
    var fill := if |sign| + |digits| < width then width - |sign| - |digits| else 0;
    sign + seq(fill, _ => '0') + digits
  }

  /** The zero padding changes the length only: the padded text still reads as the number. */
  lemma FormatIntZeroPadValue(i: int, width: nat)
    ensures IsIntText(FormatIntZeroPad(i, width)) && ParseInt(FormatIntZeroPad(i, width)) == i
  {
    var sign := if i < 0 then "-" else "";
    var n := if i < 0 then -i else i;
    var digits := Decimal(n);
    var fill := if |sign| + |digits| < width then width - |sign| - |digits| else 0;
    var padded := seq(fill, _ => '0') + digits;
    assert FormatIntZeroPad(i, width) == sign + padded;
    assert Magnitude(sign + padded) == padded;
    assert IsIntText(sign + padded);
    assert ParseDigits(padded) == n by {
      ParseLeadingZeros(fill, digits);
      ParseDecimal(n);
    }
  }

  /** `snprintf(buf, cap, ...)`: at most `cap - 1` characters are kept, the last byte holds the terminator. */
  function Snprintf(cap: nat, formatted: string): (s: string)
    requires cap >= 1
    ensures |s| == if |formatted| < cap then |formatted| else cap - 1
    ensures s == formatted[..|s|]
    ensures |formatted| < cap <==> s == formatted
  {
    if |formatted| < cap then formatted else formatted[..cap - 1]
  }
}
