/**
 * Exact decimal arithmetic as the quotation service uses it through decimal.js:
 * construction from a string, multiplication, addition, and `toFixed(2)` with
 * decimal.js's default rounding mode ROUND_HALF_UP (round to nearest, ties away
 * from zero). A value is a scaled integer; nothing here is floating point.
 */
module Money {
  import opened Wrappers

  /** The number coefficient · 10^(-scale). */
  datatype Decimal = Decimal(coefficient: int, scale: nat)

  function Pow10(n: nat): (p: nat)
    ensures p >= 1
  {
    if n == 0 then 1 else 10 * Pow10(n - 1)
  }

  lemma {:induction false} Pow10Add(a: nat, b: nat)
    ensures Pow10(a + b) == Pow10(a) * Pow10(b)
  {
    if b > 0 {
      Pow10Add(a, b - 1);
      calc {
        Pow10(a + b);
        10 * Pow10(a + b - 1);
        10 * (Pow10(a) * Pow10(b - 1));
        Pow10(a) * (10 * Pow10(b - 1));
      }
    }
  }

  /** The mathematical value of a decimal, as an exact rational. */
  ghost function Value(d: Decimal): real {
    d.coefficient as real / Pow10(d.scale) as real
  }

  /** The coefficient of `d` rewritten at the larger scale `s`. */
  function Rescale(d: Decimal, s: nat): (c: int)
    requires d.scale <= s
    ensures Value(Decimal(c, s)) == Value(d)
  {
    var k := Pow10(s - d.scale);
    Pow10Add(s - d.scale, d.scale);
    assert Pow10(s) == k * Pow10(d.scale);
    ScaleCancels(d.coefficient, k, Pow10(d.scale));
    d.coefficient * k
  }

  lemma ScaleCancels(c: int, k: nat, p: nat)
    requires k >= 1 && p >= 1
    ensures (c * k) as real / (k * p) as real == c as real / p as real
  {
    assert (c * k) as real == c as real * k as real;
    assert (k * p) as real == k as real * p as real;
  }

  /** `a.plus(b)`: exact sum, at the larger of the two scales. */
  function Plus(a: Decimal, b: Decimal): (r: Decimal)
    ensures r.scale == if a.scale >= b.scale then a.scale else b.scale
    ensures Value(r) == Value(a) + Value(b)
  {
    var s := if a.scale >= b.scale then a.scale else b.scale;
    var x, y := Rescale(a, s), Rescale(b, s);
    SameScaleSum(x, y, Pow10(s));
    Decimal(x + y, s)
  }

  lemma SameScaleSum(x: int, y: int, p: nat)
    requires p >= 1
    ensures (x + y) as real / p as real == x as real / p as real + y as real / p as real
  {
  }

  /** Two decimals at one scale add coefficient-wise, and zero is a left unit of plus. */
  lemma PlusSameScale(x: int, y: int, s: nat)
    ensures Plus(Decimal(x, s), Decimal(y, s)) == Decimal(x + y, s)
    ensures Plus(Decimal(0, 0), Decimal(y, s)) == Decimal(y, s)
  {
    assert Pow10(0) == 1;
  }

  /** `a.mul(b)`: exact product. */
  function Times(a: Decimal, b: Decimal): (r: Decimal)
    ensures Value(r) == Value(a) * Value(b)
  {
    Pow10Add(a.scale, b.scale);
    ProductValue(a.coefficient, b.coefficient, Pow10(a.scale), Pow10(b.scale));
    Decimal(a.coefficient * b.coefficient, a.scale + b.scale)
  }

  lemma ProductValue(x: int, y: int, p: nat, q: nat)
    requires p >= 1 && q >= 1
    ensures (x * y) as real / (p * q) as real == (x as real / p as real) * (y as real / q as real)
  {
    assert (x * y) as real == x as real * y as real;
    assert (p * q) as real == p as real * q as real;
  }

  /**
   * n / d rounded to the nearest integer, ties away from zero (decimal.js
   * ROUND_HALF_UP). The two cases pin the result down uniquely.
   */
  function RoundHalfUp(n: int, d: nat): (r: int)
    requires d > 0
    ensures n >= 0 ==> r >= 0 && 2 * d * r - d <= 2 * n < 2 * d * r + d
    ensures n < 0 ==> r <= 0 && 2 * d * r - d < 2 * n <= 2 * d * r + d
  {
    var m := if n >= 0 then n else -n;
    var q := (2 * m + d) / (2 * d);
    assert 2 * m + d == 2 * d * q + (2 * m + d) % (2 * d);
    if n >= 0 then q else -q
  }

  /** The whole number of cents `x.toFixed(2)` prints, before the sign rule. */
  function Round2(x: Decimal): (cents: int)
    ensures x.coefficient >= 0 ==> cents >= 0
    ensures x.coefficient < 0 ==> cents <= 0
  {
    RoundHalfUp(x.coefficient * 100, Pow10(x.scale))
  }

  /**
   * Round2(x) is the nearest whole number of cents to x; a value exactly half
   * way between two cents goes to the one further from zero.
   */
  lemma Round2IsNearest(x: Decimal)
    ensures x.coefficient >= 0 ==> (Round2(x) as real) - 0.5 <= 100.0 * Value(x) < (Round2(x) as real) + 0.5
    ensures x.coefficient < 0 ==> (Round2(x) as real) - 0.5 < 100.0 * Value(x) <= (Round2(x) as real) + 0.5
  {
    var p, n := Pow10(x.scale), x.coefficient * 100;
    var c := RoundHalfUp(n, p);
    assert Round2(x) == c;
    RoundingInReals(n, p, c);
    HundredTimes(x.coefficient, p);
  }

  lemma HundredTimes(k: int, p: nat)
    requires p > 0
    ensures 100.0 * (k as real / p as real) == (k * 100) as real / p as real
  {
  }

  lemma RoundingInReals(n: int, p: nat, c: int)
    requires p > 0
    requires n >= 0 ==> 2 * p * c - p <= 2 * n < 2 * p * c + p
    requires n < 0 ==> 2 * p * c - p < 2 * n <= 2 * p * c + p
    ensures n >= 0 ==> (c as real) - 0.5 <= n as real / p as real < (c as real) + 0.5
    ensures n < 0 ==> (c as real) - 0.5 < n as real / p as real <= (c as real) + 0.5
  {
    var P, N, C := p as real, n as real, c as real;
    HalfwayPoints(p, c);
    var lo, hi := (C - 0.5) * P, (C + 0.5) * P;
    assert (2 * p * c - p) as real == 2.0 * lo;
    assert (2 * p * c + p) as real == 2.0 * hi;
    DivideBounds(N, P, lo, hi, C - 0.5, C + 0.5);
  }

  /** The two half-way points around c/1 scaled by p, computed in integers and in reals. */
  lemma HalfwayPoints(p: nat, c: int)
    ensures (2 * p * c - p) as real == 2.0 * ((c as real - 0.5) * p as real)
    ensures (2 * p * c + p) as real == 2.0 * ((c as real + 0.5) * p as real)
  {
    assert (p * c) as real == p as real * c as real;
  }

  /** Dividing by a positive number keeps the order of the bounds. */
  lemma DivideBounds(n: real, p: real, lo: real, hi: real, a: real, b: real)
    requires p > 0.0 && lo == a * p && hi == b * p
    ensures lo <= n ==> a <= n / p
    ensures lo < n ==> a < n / p
    ensures n <= hi ==> n / p <= b
    ensures n < hi ==> n / p < b
  {
    var v := n / p;
    assert v * p == n;
    assert n - lo == (v - a) * p;
    assert hi - n == (b - v) * p;
    FactorSign(p, v - a);
    FactorSign(p, b - v);
  }

  lemma FactorSign(p: real, x: real)
    requires p > 0.0
    ensures x * p >= 0.0 ==> x >= 0.0
    ensures x * p > 0.0 ==> x > 0.0
  {
    if x < 0.0 {
      assert x * p < 0.0;
    }
  }

  /** A value already held in cents is left as it is by rounding to cents. */
  lemma Round2OfCents(c: int)
    ensures Round2(Decimal(c, 2)) == c
  {
    assert Pow10(2) == 100;
  }

  // ---------------------------------------------------------------------------
  // Decimal digits
  // ---------------------------------------------------------------------------

  predicate IsDigit(ch: char) {
    '0' <= ch <= '9'
  }

  predicate AllDigits(s: string) {
    forall i :: 0 <= i < |s| ==> IsDigit(s[i])
  }

  function DigitValue(ch: char): nat
    requires IsDigit(ch)
  {
    ch as int - '0' as int
  }

  function DigitChar(d: nat): (ch: char)
    requires d < 10
    ensures IsDigit(ch) && DigitValue(ch) == d
  {
    ('0' as int + d) as char
  }

  /** The number a string of decimal digits denotes. */
  function DigitsValue(s: string): nat
    requires AllDigits(s)
  {
    if s == [] then 0 else 10 * DigitsValue(s[..|s| - 1]) + DigitValue(s[|s| - 1])
  }

  lemma {:induction false} DigitsValueAppend(a: string, b: string)
    requires AllDigits(a) && AllDigits(b)
    ensures AllDigits(a + b)
    ensures DigitsValue(a + b) == DigitsValue(a) * Pow10(|b|) + DigitsValue(b)
  {
    assert AllDigits(a + b) by {
      forall i | 0 <= i < |a + b| ensures IsDigit((a + b)[i]) {
        if i < |a| { assert (a + b)[i] == a[i]; } else { assert (a + b)[i] == b[i - |a|]; }
      }
    }
    if b == [] {
      assert a + b == a;
    } else {
      var b' := b[..|b| - 1];
      var last := b[|b| - 1];
      assert (a + b)[..|a + b| - 1] == a + b';
      assert (a + b)[|a + b| - 1] == last;
      DigitsValueAppend(a, b');
      ShiftDigit(DigitsValue(a), DigitsValue(b'), Pow10(|b'|), DigitValue(last));
    }
  }

  lemma ShiftDigit(x: int, y: int, p: int, d: int)
    ensures 10 * (x * p + y) + d == x * (10 * p) + (10 * y + d)
  {
  }

  /** The decimal numeral of `n`, without leading zeros (JavaScript's `String(n)`). */
  function NatToString(n: nat): (s: string)
    ensures |s| > 0 && AllDigits(s)
    ensures DigitsValue(s) == n
    ensures |s| == 1 || s[0] != '0'
  {
    if n < 10 then [DigitChar(n)]
    else
      var prefix := NatToString(n / 10);
      var s := prefix + [DigitChar(n % 10)];
      assert s[..|s| - 1] == prefix;
      s
  }

  /** Two numerals name the same number only if they are the same string. */
  lemma NatToStringInjective(m: nat, n: nat)
    requires NatToString(m) == NatToString(n)
    ensures m == n
  {
  }

  // ---------------------------------------------------------------------------
  // toFixed(2)
  // ---------------------------------------------------------------------------

  /**
   * `x.toFixed(2)`: the digits of Round2(x) with exactly two after the point.
   * The minus sign is decided by the value BEFORE rounding, so a small negative
   * amount prints as "-0.00".
   */
  function ToFixed2(x: Decimal): (s: string)
  {
    var c := Round2(x);
    SignedCents(x.coefficient < 0, if c < 0 then -c else c)
  }

  /** `a` cents, preceded by "-" exactly when `negative`. */
  function SignedCents(negative: bool, a: nat): string {
    if negative then "-" + CentsNumeral(a) else CentsNumeral(a)
  }

  /** A whole number of cents written with exactly two digits after the point. */
  function CentsNumeral(a: nat): string
  {
    NatToString(a / 100) + "." + [DigitChar(a % 100 / 10), DigitChar(a % 10)]
  }

  // ---------------------------------------------------------------------------
  // new Decimal(string)
  // ---------------------------------------------------------------------------

  predicate IsExponentMarker(ch: char) {
    ch == 'e' || ch == 'E'
  }

  /** The index of the first `e` or `E` in `s`, or |s|. */
  function FindExponentMarker(s: string): (k: nat)
    ensures k <= |s|
    ensures k < |s| ==> IsExponentMarker(s[k])
    ensures forall i :: 0 <= i < k ==> !IsExponentMarker(s[i])
  {
    if s == [] then 0 else if IsExponentMarker(s[0]) then 0 else 1 + FindExponentMarker(s[1..])
  }

  /** The index of the first `.` in `s`, or |s|. */
  function FindPoint(s: string): (k: nat)
    ensures k <= |s|
    ensures k < |s| ==> s[k] == '.'
    ensures forall i :: 0 <= i < k ==> s[i] != '.'
  {
    if s == [] then 0 else if s[0] == '.' then 0 else 1 + FindPoint(s[1..])
  }

  /** The exponent after `e`: an optional sign and at least one digit. */
  function ParseExponent(s: string): Option<int>
  {
    if |s| > 0 && (s[0] == '+' || s[0] == '-') then
      if |s| > 1 && AllDigits(s[1..]) then
        var magnitude: int := DigitsValue(s[1..]);
        Some(if s[0] == '-' then -magnitude else magnitude)
      else None
    else if |s| > 0 && AllDigits(s) then Some(DigitsValue(s))
    else None
  }

  /** coefficient · 10^exponent as a Decimal. */
  function FromDigits(coefficient: int, exponent: int): Decimal
  {
    if exponent >= 0 then Decimal(coefficient * Pow10(exponent), 0) else Decimal(coefficient, -exponent)
  }

  /** `\d+(\.\d*)?|\.\d+` scaled by 10^exponent. */
  function ParseMantissa(m: string, exponent: int): Option<Decimal>
  {
    var p := FindPoint(m);
    var intPart := m[..p];
    var fracPart := if p < |m| then m[p + 1..] else "";
    if AllDigits(intPart) && AllDigits(fracPart) && |intPart| + |fracPart| > 0 then
      DigitsValueAppend(intPart, fracPart);
      Some(FromDigits(DigitsValue(intPart + fracPart), exponent - |fracPart|))
    else None
  }

  /**
   * A numeral without its sign, in decimal.js's decimal form
   * `(\d+(\.\d*)?|\.\d+)(e[+-]?\d+)?` (the `e` in either case).
   */
  function ParseUnsigned(s: string): Option<Decimal>
  {
    var e := FindExponentMarker(s);
    if e == |s| then ParseMantissa(s, 0)
    else
      match ParseExponent(s[e + 1..])
      case Some(x) => ParseMantissa(s[..e], x)
      case None => None
  }

  /** `new Decimal(s)`: None where decimal.js throws "[DecimalError] Invalid argument". */
  function ParseDecimal(s: string): Option<Decimal>
  {
    if |s| > 0 && s[0] == '-' then
      match ParseUnsigned(s[1..])
      case Some(d) => Some(Decimal(-d.coefficient, d.scale))
      case None => None
    else if |s| > 0 && s[0] == '+' then ParseUnsigned(s[1..])
    else ParseUnsigned(s)
  }

  /** The characters a decimal.js numeral is written with: digits, point, signs and `e`/`E`. */
  predicate NumeralChar(ch: char) {
    IsDigit(ch) || ch == '.' || ch == '-' || ch == '+' || IsExponentMarker(ch)
  }

  /** A mantissa with a character that is neither a digit nor a point is not one. */
  lemma MantissaRejects(m: string, exponent: int, i: nat)
    requires i < |m| && !IsDigit(m[i]) && m[i] != '.'
    ensures ParseMantissa(m, exponent) == None
  {
    var p := FindPoint(m);
    if i < p {
      assert m[..p][i] == m[i];
    } else {
      assert i > p && m[p + 1..][i - p - 1] == m[i];
    }
  }

  /** An exponent with a character that is neither a digit nor a sign is not one. */
  lemma ExponentRejects(s: string, i: nat)
    requires i < |s| && !IsDigit(s[i]) && s[i] != '-' && s[i] != '+'
    ensures ParseExponent(s) == None
  {
    if |s| > 1 && (s[0] == '+' || s[0] == '-') {
      assert s[1..][i - 1] == s[i];
    }
  }

  /** An unsigned numeral with a character outside the numeral alphabet is not one. */
  lemma UnsignedRejects(t: string, i: nat)
    requires i < |t| && !NumeralChar(t[i])
    ensures ParseUnsigned(t) == None
  {
    var e := FindExponentMarker(t);
    if e == |t| {
      MantissaRejects(t, 0, i);
    } else if i < e {
      assert t[..e][i] == t[i];
      match ParseExponent(t[e + 1..])
      case Some(x) => MantissaRejects(t[..e], x, i);
      case None =>
    } else {
      assert i > e && t[e + 1..][i - e - 1] == t[i];
      ExponentRejects(t[e + 1..], i - e - 1);
    }
  }

  /**
   * A string holding any character that is no digit, sign, point or exponent
   * marker is not a numeral, so `new Decimal` throws for it.
   */
  lemma ParseRejectsSymbol(s: string, i: nat)
    requires i < |s| && !NumeralChar(s[i])
    ensures ParseDecimal(s) == None
  {
    if |s| > 0 && (s[0] == '-' || s[0] == '+') {
      assert i > 0 && s[1..][i - 1] == s[i];
      UnsignedRejects(s[1..], i - 1);
    } else {
      UnsignedRejects(s, i);
    }
  }

  lemma {:induction false} FindPointAfter(a: string, b: string)
    requires forall i :: 0 <= i < |a| ==> a[i] != '.'
    requires |b| > 0 && b[0] == '.'
    ensures FindPoint(a + b) == |a|
  {
    if a != [] {
      assert (a + b)[1..] == a[1..] + b;
      FindPointAfter(a[1..], b);
    }
  }

  lemma {:induction false} FindExponentMarkerNone(s: string)
    requires forall i :: 0 <= i < |s| ==> !IsExponentMarker(s[i])
    ensures FindExponentMarker(s) == |s|
  {
    if s != [] {
      FindExponentMarkerNone(s[1..]);
    }
  }

  lemma {:induction false} FindPointNone(s: string)
    requires forall i :: 0 <= i < |s| ==> s[i] != '.'
    ensures FindPoint(s) == |s|
  {
    if s != [] {
      FindPointNone(s[1..]);
    }
  }

  lemma TwoDigits(a: nat)
    ensures DigitsValue([DigitChar(a % 100 / 10), DigitChar(a % 10)]) == a % 100
  {
    var t := [DigitChar(a % 100 / 10), DigitChar(a % 10)];
    assert t[..1] == [t[0]];
    assert [t[0]][..0] == [];
    assert DigitsValue(t[..1]) == a % 100 / 10;
    assert 10 * (a % 100 / 10) + a % 10 == a % 100;
  }

  /** `digits "." d d` reads back as a scale-2 decimal. */
  lemma ParseCentsMantissa(head: string, tail: string)
    requires AllDigits(head) && |head| > 0 && AllDigits(tail) && |tail| == 2
    ensures ParseMantissa(head + "." + tail, 0) == Some(Decimal(DigitsValue(head) * 100 + DigitsValue(tail), 2))
  {
    var u := head + "." + tail;
    assert u == head + ("." + tail);
    FindPointAfter(head, "." + tail);
    var p := FindPoint(u);
    assert p == |head| && p < |u|;
    assert u[..p] == head;
    assert u[p + 1..] == tail;
    DigitsValueAppend(head, tail);
    assert Pow10(2) == 100;
    var x := DigitsValue(head + tail);
    assert x == DigitsValue(head) * 100 + DigitsValue(tail);
    assert FromDigits(x, 0 - |tail|) == Decimal(x, 2);
  }

  /** The digits of a whole number of cents with two digits after the point. */
  lemma ParseCents(a: nat)
    ensures ParseUnsigned(CentsNumeral(a)) == Some(Decimal(a, 2))
  {
    var head := NatToString(a / 100);
    var tail := [DigitChar(a % 100 / 10), DigitChar(a % 10)];
    var u := head + "." + tail;
    assert u == CentsNumeral(a);
    forall i | 0 <= i < |u| ensures !IsExponentMarker(u[i]) {
      if i < |head| { assert u[i] == head[i]; }
      else if i == |head| { assert u[i] == '.'; }
      else { assert u[i] == tail[i - |head| - 1]; }
    }
    FindExponentMarkerNone(u);
    assert ParseUnsigned(u) == ParseMantissa(u, 0);
    ParseCentsMantissa(head, tail);
    TwoDigits(a);
    assert DigitsValue(head) * 100 + DigitsValue(tail) == a;
  }

  lemma ParseNegated(u: string, d: Decimal)
    requires ParseUnsigned(u) == Some(d)
    ensures ParseDecimal("-" + u) == Some(Decimal(-d.coefficient, d.scale))
  {
    assert ("-" + u)[1..] == u;
  }

  lemma ParseUnsignedDigitFirst(u: string)
    requires |u| > 0 && IsDigit(u[0])
    ensures ParseDecimal(u) == ParseUnsigned(u)
  {
  }

  lemma ParseNegativeCents(a: nat)
    ensures ParseDecimal("-" + CentsNumeral(a)) == Some(Decimal(-(a as int), 2))
  {
    ParseCents(a);
    ParseNegated(CentsNumeral(a), Decimal(a, 2));
  }

  lemma ParseNonNegativeCents(a: nat)
    ensures ParseDecimal(CentsNumeral(a)) == Some(Decimal(a, 2))
  {
    ParseCents(a);
    assert CentsNumeral(a)[0] == NatToString(a / 100)[0];
    ParseUnsignedDigitFirst(CentsNumeral(a));
  }

  lemma ParseSignedCents(negative: bool, a: nat)
    ensures ParseDecimal(SignedCents(negative, a)) == Some(Decimal(if negative then -(a as int) else a, 2))
  {
    if negative {
      ParseNegativeCents(a);
    } else {
      ParseNonNegativeCents(a);
    }
  }

  /**
   * Reading back what toFixed(2) printed gives exactly the rounded amount:
   * `new Decimal(x.toFixed(2))` is Round2(x) cents, including the "-0.00" case.
   */
  lemma ParseToFixed2(x: Decimal)
    ensures ParseDecimal(ToFixed2(x)) == Some(Decimal(Round2(x), 2))
  {
    var c := Round2(x);
    var a: nat := if c < 0 then -c else c;
    assert ToFixed2(x) == SignedCents(x.coefficient < 0, a);
    assert (if x.coefficient < 0 then -(a as int) else a) == c;
    ParseSignedCents(x.coefficient < 0, a);
  }

  /** A plain numeral reads back as the whole number it spells. */
  lemma ParseNatToString(n: nat)
    ensures ParseDecimal(NatToString(n)) == Some(Decimal(n, 0))
  {
    var s := NatToString(n);
    forall i | 0 <= i < |s| ensures !IsExponentMarker(s[i]) && s[i] != '.' {
      assert IsDigit(s[i]);
    }
    FindExponentMarkerNone(s);
    FindPointNone(s);
    assert s[..|s|] == s;
    assert s + "" == s;
    assert IsDigit(s[0]);
  }
}
