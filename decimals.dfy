/** Exact decimal numbers and their decimal-digit text.

    A price is kept as `mantissa × 10^-scale`. The canonical form has no
    trailing zero after the decimal point, so that two canonical decimals
    are equal exactly when they denote the same number (CanonicalUnique).
    `Render` is plain decimal notation. It agrees with the string a
    JavaScript number prints as for magnitudes from 1e-6 up to below 1e21
    with at most 15 significant digits; outside that range JavaScript uses
    exponent notation, and beyond 15 to 17 digits it rounds. */
module Decimals {

  function Pow10(n: nat): (p: nat)
    ensures p >= 1
  {
    if n == 0 then 1 else 10 * Pow10(n - 1)
  }

  lemma {:induction false} Pow10Add(a: nat, b: nat)
    ensures Pow10(a + b) == Pow10(a) * Pow10(b)
  {
    if b > 0 {
      Pow10Add(a, b - 1);
      calc {
        Pow10(a + b);
        10 * Pow10(a + b - 1);
        10 * (Pow10(a) * Pow10(b - 1));
        Pow10(a) * (10 * Pow10(b - 1));
      }
    }
  }

  datatype Decimal = Decimal(mantissa: int, scale: nat)

  /** The number a decimal denotes. */
  function Value(d: Decimal): real {
    d.mantissa as real / Pow10(d.scale) as real
  }

  /** No trailing zero digit after the decimal point; zero is Decimal(0, 0). */
  predicate Canonical(d: Decimal) {
    d.scale == 0 || d.mantissa % 10 != 0
  }

  lemma DivideOutTen(m: int, scale: nat)
    requires scale > 0 && m % 10 == 0
    ensures (m / 10) as real / Pow10(scale - 1) as real == m as real / Pow10(scale) as real
  {
    var q := m / 10;
    var p := Pow10(scale - 1) as real;
    assert m == q * 10;
    assert Pow10(scale) as real == 10.0 * p;
    calc {
      m as real / Pow10(scale) as real;
      (q as real * 10.0) / (10.0 * p);
      q as real / p;
    }
  }

  /** Strips trailing zeros after the decimal point without changing the value. */
  function Normalize(m: int, scale: nat): (d: Decimal)
    ensures Canonical(d)
    ensures Value(d) == m as real / Pow10(scale) as real
    decreases scale
  {
    if scale > 0 && m % 10 == 0 then
      DivideOutTen(m, scale);
      Normalize(m / 10, scale - 1)
    else
      Decimal(m, scale)
  }

  /** The decimal with the given sign, digit magnitude and number of fraction digits. */
  function MakeDecimal(negative: bool, magnitude: nat, scale: nat): (d: Decimal)
    ensures Canonical(d)
    ensures Value(d) == (if negative then -1.0 else 1.0) * magnitude as real / Pow10(scale) as real
  {
    Normalize(if negative then -(magnitude as int) else magnitude, scale)
  }

  lemma CrossMultiply(a: int, p: nat, c: int, q: nat)
    requires p >= 1 && q >= 1
    requires a as real / p as real == c as real / q as real
    ensures a * q == c * p
  {
    var x := a as real / p as real;
    assert a as real == x * p as real;
    assert c as real == x * q as real;
    assert (a * q) as real == x * p as real * q as real;
    assert (c * p) as real == x * q as real * p as real;
  }

  lemma CancelFactor(a: int, b: int, p: nat)
    requires p >= 1 && a * p == b * p
    ensures a == b
  {
    assert (a - b) * p == 0;
  }

  lemma ShiftIsMultipleOfTen(m: int, k: nat)
    ensures k > 0 ==> (m * Pow10(k)) % 10 == 0
  {
    if k > 0 {
      assert m * Pow10(k) == (m * Pow10(k - 1)) * 10;
    }
  }

  lemma CanonicalUniqueOrdered(d1: Decimal, d2: Decimal)
    requires Canonical(d1) && Canonical(d2) && d1.scale <= d2.scale
    requires Value(d1) == Value(d2)
    ensures d1 == d2
  {
    var k := d2.scale - d1.scale;
    var p1, pk := Pow10(d1.scale), Pow10(k);
    Pow10Add(d1.scale, k);
    CrossMultiply(d1.mantissa, p1, d2.mantissa, Pow10(d2.scale));
    assert d1.mantissa * (p1 * pk) == d2.mantissa * p1;
    assert d1.mantissa * (p1 * pk) == (d1.mantissa * pk) * p1;
    CancelFactor(d1.mantissa * pk, d2.mantissa, p1);
    ShiftIsMultipleOfTen(d1.mantissa, k);
  }

  /** Two canonical decimals that denote the same number are the same decimal. */
  lemma CanonicalUnique(d1: Decimal, d2: Decimal)
    requires Canonical(d1) && Canonical(d2)
    requires Value(d1) == Value(d2)
    ensures d1 == d2
  {
    if d1.scale <= d2.scale {
      CanonicalUniqueOrdered(d1, d2);
    } else {
      CanonicalUniqueOrdered(d2, d1);
    }
  }

  // ----- decimal digits -----

  predicate IsDigit(c: char) {
    '0' <= c <= '9'
  }

  predicate AllDigits(s: string) {
    forall i :: 0 <= i < |s| ==> IsDigit(s[i])
  }

  function DigitValue(c: char): nat
    requires IsDigit(c)
  {
    c as int - '0' as int
  }

  function DigitChar(n: nat): (c: char)
    requires n < 10
    ensures IsDigit(c) && DigitValue(c) == n
  {
    ('0' as int + n) as char
  }

  /** The number a string of decimal digits spells, most significant first. */
  function DigitsValue(s: string): nat
    requires AllDigits(s)
  {
    if s == [] then 0 else DigitsValue(s[..|s| - 1]) * 10 + DigitValue(s[|s| - 1])
  }

  lemma ShiftDigit(x: int, p: int, y: int, v: int)
    ensures (x * p + y) * 10 + v == x * (p * 10) + (y * 10 + v)
  {
  }

  /** Appending digits shifts the value of the prefix left by their count. */
  lemma {:induction false} DigitsValueConcat(a: string, b: string)
    requires AllDigits(a) && AllDigits(b)
    ensures AllDigits(a + b)
    ensures DigitsValue(a + b) == DigitsValue(a) * Pow10(|b|) + DigitsValue(b)
  {
    if b == [] {
      assert a + b == a;
    } else {
      var b' := b[..|b| - 1];
      assert (a + b)[..|a + b| - 1] == a + b';
      DigitsValueConcat(a, b');
      var x, y, p, v := DigitsValue(a), DigitsValue(b'), Pow10(|b'|), DigitValue(b[|b| - 1]);
      assert (a + b)[|a + b| - 1] == b[|b| - 1];
      assert DigitsValue(a + b) == (x * p + y) * 10 + v;
      assert DigitsValue(b) == y * 10 + v;
      assert Pow10(|b|) == p * 10;
      ShiftDigit(x, p, y, v);
    }
  }

  /** The shortest decimal digits of n ("0" for zero). */
  function NatDigits(n: nat): (s: string)
    ensures |s| >= 1 && AllDigits(s)
    ensures DigitsValue(s) == n
  {
    if n < 10 then
      [DigitChar(n)]
    else
      var s := NatDigits(n / 10) + [DigitChar(n % 10)];
      assert s[..|s| - 1] == NatDigits(n / 10);
      s
  }

  /** The digits of n, padded with leading zeros to exactly `width` characters. */
  function PadDigits(n: nat, width: nat): (s: string)
    requires n < Pow10(width)
    ensures |s| == width && AllDigits(s)
    ensures DigitsValue(s) == n
  {
    if width == 0 then
      ""
    else
      assert n / 10 < Pow10(width - 1);
      var s := PadDigits(n / 10, width - 1) + [DigitChar(n % 10)];
      assert s[..|s| - 1] == PadDigits(n / 10, width - 1);
      s
  }

  function Abs(m: int): nat {
    if m < 0 then -m else m
  }

  lemma DivMod(n: nat, p: nat)
    requires p >= 1
    ensures 0 <= n / p && 0 <= n % p < p && n == (n / p) * p + n % p
  {
  }

  /** The digits before the point in the plain notation of d. */
  function IntegerDigits(d: Decimal): (s: string)
    ensures |s| >= 1 && AllDigits(s)
  {
    DivMod(Abs(d.mantissa), Pow10(d.scale));
    NatDigits(Abs(d.mantissa) / Pow10(d.scale))
  }

  /** The digits after the point in the plain notation of d; exactly `scale` of them. */
  function FractionDigitsOf(d: Decimal): (s: string)
    ensures |s| == d.scale && AllDigits(s)
  {
    DivMod(Abs(d.mantissa), Pow10(d.scale));
    PadDigits(Abs(d.mantissa) % Pow10(d.scale), d.scale)
  }

  /** Printing puts the magnitude back together from its two digit groups. */
  lemma DigitsOfMagnitude(d: Decimal)
    ensures AllDigits(IntegerDigits(d) + FractionDigitsOf(d))
    ensures DigitsValue(IntegerDigits(d) + FractionDigitsOf(d)) == Abs(d.mantissa)
  {
    var p := Pow10(d.scale);
    DivMod(Abs(d.mantissa), p);
    DigitsValueConcat(IntegerDigits(d), FractionDigitsOf(d));
  }

  /** Plain decimal notation: an optional '-', the integer digits, and, when
      the scale is positive, a '.' followed by exactly `scale` fraction digits. */
  function Render(d: Decimal): string {
    (if d.mantissa < 0 then "-" else "")
      + IntegerDigits(d)
      + (if d.scale > 0 then "." + FractionDigitsOf(d) else "")
  }
}
