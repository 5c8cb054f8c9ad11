/**
 * The parts of Java's `int` and `long` semantics the services rely on:
 * 32-bit two's-complement subtraction, and the decimal form a `Long` takes
 * when it is concatenated to a `String`.
 */
module JavaLang {
  import opened Wrappers

  const MinInt: int := -0x8000_0000
  const MaxInt: int := 0x7fff_ffff

  /** Java's `int` (and the value of a non-null `Integer`). */
  type Int32 = x: int | -0x8000_0000 <= x <= 0x7fff_ffff

  /**
   * `a - b` on Java `int`s: the exact difference reduced to 32 bits, that is
   * the one value of the type that is congruent to it modulo 2^32.
   */
  function IntSub(a: Int32, b: Int32): (r: Int32)
    ensures (r - (a - b)) % 0x1_0000_0000 == 0
    ensures MinInt <= a - b <= MaxInt ==> r == a - b
  {
    var d := a - b;
    if d > MaxInt then d - 0x1_0000_0000
    else if d < MinInt then d + 0x1_0000_0000
    else d
  }

  /**
   * Taking away no more than there is is exact and leaves a non-negative
   * value, unless a negative amount pushes the difference past `MaxInt`.
   */
  lemma IntSubWithinStock(a: Int32, b: Int32)
    requires b <= a && a - b <= MaxInt
    ensures IntSub(a, b) == a - b && IntSub(a, b) >= 0
  {
  }

  /** Subtracting a negative amount can wrap around to a negative value. */
  lemma IntSubWraps()
    ensures IntSub(MaxInt, -1) == MinInt
  {
  }

  predicate IsDigit(c: char) {
    '0' <= c <= '9'
  }

  /** A non-empty string of decimal digits. */
  predicate IsDecimal(s: string) {
    |s| > 0 && forall i :: 0 <= i < |s| ==> IsDigit(s[i])
  }

  function DigitChar(d: int): (c: char)
    requires 0 <= d <= 9
    ensures IsDigit(c) && c as int - '0' as int == d
  {
    ('0' as int + d) as char
  }

  function DigitValue(c: char): (d: nat)
    requires IsDigit(c)
    ensures d <= 9 && DigitChar(d) == c
  {
    c as int - '0' as int
  }

  /** Decimal digits of `n`, most significant first, no leading zeros. */
  function NatToDecimal(n: nat): (s: string)
    ensures IsDecimal(s)
    ensures s[0] == '0' ==> n == 0
    decreases n
  {
    if n < 10 then [DigitChar(n)] else NatToDecimal(n / 10) + [DigitChar(n % 10)]
  }

  /** The number a string of digits denotes. */
  function DecimalValue(s: string): nat
    requires forall i :: 0 <= i < |s| ==> IsDigit(s[i])
  {
    if s == [] then 0
    else DecimalValue(s[..|s| - 1]) * 10 + DigitValue(s[|s| - 1])
  }

  /** `Long.toString(n)`, which is also what `"..." + n` appends. */
  function LongToString(n: int): (s: string)
    ensures |s| > 0
    ensures s[0] == '-' <==> n < 0
  {
    if n < 0 then "-" + NatToDecimal(-n) else NatToDecimal(n)
  }

  /**
   * Reading back a decimal number with an optional leading minus sign, as
   * `Long.parseLong` does (without its 64-bit range check and without the
   * leading `+` it also accepts).
   */
  function ParseLong(s: string): Option<int> {
    if |s| > 0 && s[0] == '-' then
      if IsDecimal(s[1..]) then Some(-(DecimalValue(s[1..]) as int)) else None
    else if IsDecimal(s) then Some(DecimalValue(s))
    else None
  }

  lemma {:induction false} DecimalRoundTrip(n: nat)
    ensures DecimalValue(NatToDecimal(n)) == n
    decreases n
  {
    if n >= 10 {
      var s := NatToDecimal(n);
      DecimalRoundTrip(n / 10);
      assert s[..|s| - 1] == NatToDecimal(n / 10);
    }
  }

  /** The decimal form of a `Long` identifies it: parsing it back gives the number. */
  lemma LongRoundTrip(n: int)
    ensures ParseLong(LongToString(n)) == Some(n)
  {
    if n < 0 {
      DecimalRoundTrip(-n);
      assert LongToString(n)[1..] == NatToDecimal(-n);
    } else {
      DecimalRoundTrip(n);
    }
  }

  /** Two different numbers never print the same. */
  lemma LongToStringInjective(a: int, b: int)
    requires LongToString(a) == LongToString(b)
    ensures a == b
  {
    LongRoundTrip(a);
    LongRoundTrip(b);
  }
}
