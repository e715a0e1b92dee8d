/** Decimal numbers at 28 significant digits: parsing, rounding, normal form and plain text. */
module Decimals {

  /** A decimal: sign, coefficient and power of ten. Zero keeps its sign. */
  datatype Dec = Dec(neg: bool, coef: nat, exp: int)

  const PRECISION := 28

  // ---- Powers of ten ---------------------------------------------------------------------

  function Pow(k: nat): (r: nat)
    ensures r > 0
  {
    if k == 0 then 1 else 10 * Pow(k - 1)
  }

  function Ten(e: int): (r: real)
    ensures r > 0.0
    decreases if e < 0 then -e else e
  {
    if e == 0 then 1.0 else if e > 0 then 10.0 * Ten(e - 1) else Ten(e + 1) / 10.0
  }

  lemma TenUp(e: int)
    ensures Ten(e + 1) == 10.0 * Ten(e)
  {
  }

  lemma TimesTen(p: real, t: real)
    ensures 10.0 * (p * t) == (10.0 * p) * t
  {
  }

  lemma {:induction false} TenShift(e: int, k: nat)
    ensures Ten(e + k) == Pow(k) as real * Ten(e)
    decreases k
  {
    if k > 0 {
      TenShift(e, k - 1);
      TenUp(e + k - 1);
      TimesTen(Pow(k - 1) as real, Ten(e));
    }
  }

  function Magnitude(d: Dec): real {
    d.coef as real * Ten(d.exp)
  }

  /** The number a decimal denotes. */
  function Value(d: Dec): real {
    if d.neg then -Magnitude(d) else Magnitude(d)
  }

  // ---- Digits -------------------------------------------------------------------------------

  function DigitOf(n: nat): (c: char)
    requires n < 10
    ensures '0' <= c <= '9' && c as int - '0' as int == n
  {
    ('0' as int + n) as char
  }

  function Digits(n: nat): (s: string)
    ensures |s| > 0 && forall i :: 0 <= i < |s| ==> '0' <= s[i] <= '9'
  {
    if n < 10 then [DigitOf(n)] else Digits(n / 10) + [DigitOf(n % 10)]
  }

  predicate AllDigits(s: string) {
    forall i :: 0 <= i < |s| ==> '0' <= s[i] <= '9'
  }

  function NatOf(s: string): nat
    requires AllDigits(s)
  {
    if s == [] then 0 else 10 * NatOf(s[..|s| - 1]) + (s[|s| - 1] as int - '0' as int)
  }

  function Zeros(k: nat): (s: string)
    ensures |s| == k && AllDigits(s)
  {
    seq(k, _ => '0')
  }

  lemma {:induction false} NatOfDigits(n: nat)
    ensures NatOf(Digits(n)) == n
  {
    if n >= 10 {
      NatOfDigits(n / 10);
      assert Digits(n)[..|Digits(n)| - 1] == Digits(n / 10);
    } else {
      assert Digits(n)[..0] == [];
    }
  }

  lemma {:induction false} DigitBounds(n: nat)
    ensures n < Pow(|Digits(n)|)
    ensures n > 0 ==> Pow(|Digits(n)| - 1) <= n
  {
    if n >= 10 {
      DigitBounds(n / 10);
    } else {
      assert Pow(1) == 10;
    }
  }

  lemma {:induction false} LeadingZeros(k: nat, s: string)
    requires AllDigits(s)
    ensures AllDigits(Zeros(k) + s) && NatOf(Zeros(k) + s) == NatOf(s)
    decreases k + |s|
  {
    var whole := Zeros(k) + s;
    if s != [] {
      assert whole[..|whole| - 1] == Zeros(k) + s[..|s| - 1];
      LeadingZeros(k, s[..|s| - 1]);
    } else if k > 0 {
      assert whole[..|whole| - 1] == Zeros(k - 1) + [];
      LeadingZeros(k - 1, []);
    }
  }

  lemma TenthTimes(a: nat, p: nat)
    ensures 10 * (a * p) == a * (10 * p)
    ensures a * (10 * p) % 10 == 0
  {
    assert a * (10 * p) == 10 * (a * p);
  }

  lemma {:induction false} TrailingZeros(s: string, k: nat)
    requires AllDigits(s)
    ensures AllDigits(s + Zeros(k)) && NatOf(s + Zeros(k)) == NatOf(s) * Pow(k)
    decreases k
  {
    if k == 0 {
      assert s + Zeros(0) == s;
    } else {
      var whole := s + Zeros(k);
      assert whole[..|whole| - 1] == s + Zeros(k - 1) && whole[|whole| - 1] == '0';
      TrailingZeros(s, k - 1);
      TenthTimes(NatOf(s), Pow(k - 1));
    }
  }

  lemma OneZero()
    ensures Zeros(1) == "0"
  {
  }

  // ---- Text ------------------------------------------------------------------------------------

  /** `format(d, "f")` of the magnitude. */
  function Plain(coef: nat, exp: int): (s: string)
    ensures |s| > 0
  {
    var digits := Digits(coef);
    if exp >= 0 then digits + Zeros(exp)
    else if |digits| > -exp then digits[..|digits| + exp] + "." + digits[|digits| + exp..]
    else "0." + Zeros(-exp - |digits|) + digits
  }

  function Format(d: Dec): string {
    (if d.neg then "-" else "") + Plain(d.coef, d.exp)
  }

  /** The place of the decimal point, or the length if there is none. */
  function Point(s: string): (i: nat)
    ensures i <= |s| && forall k :: 0 <= k < i ==> s[k] != '.'
    ensures i < |s| ==> s[i] == '.'
  {
    if s == [] || s[0] == '.' then 0 else 1 + Point(s[1..])
  }

  /** Digits, optionally followed by a point and more digits. */
  predicate IsUnsigned(s: string) {
    var i := Point(s);
    i > 0 && AllDigits(s[..i]) && (i < |s| ==> i + 1 < |s| && AllDigits(s[i + 1..]))
  }

  predicate IsNumber(s: string) {
    if s != "" && s[0] == '-' then IsUnsigned(s[1..]) else IsUnsigned(s)
  }

  function ReadUnsigned(s: string): Dec
    requires IsUnsigned(s)
  {
    var i := Point(s);
    if i == |s| then Dec(false, NatOf(s[..i]), 0)
    else Dec(false, NatOf(s[..i] + s[i + 1..]), -(|s| - i - 1))
  }

  /** `Decimal(text)`, which is exact. */
  function Read(s: string): Dec
    requires IsNumber(s)
  {
    if s != "" && s[0] == '-' then ReadUnsigned(s[1..]).(neg := true) else ReadUnsigned(s)
  }

  lemma PointAt(s: string, i: nat)
    requires i <= |s| && (forall k :: 0 <= k < i ==> s[k] != '.') && (i < |s| ==> s[i] == '.')
    ensures Point(s) == i
  {
  }

  lemma ReadSplit(whole: string, fraction: string)
    requires AllDigits(whole) && AllDigits(fraction) && whole != "" && fraction != ""
    ensures IsUnsigned(whole + "." + fraction)
    ensures AllDigits(whole + fraction)
    ensures ReadUnsigned(whole + "." + fraction) == Dec(false, NatOf(whole + fraction), -|fraction|)
  {
    var s := whole + "." + fraction;
    PointAt(s, |whole|);
    assert s[..|whole|] == whole && s[|whole| + 1..] == fraction;
  }

  lemma ReadWhole(whole: string)
    requires AllDigits(whole) && whole != ""
    ensures IsUnsigned(whole) && ReadUnsigned(whole) == Dec(false, NatOf(whole), 0)
  {
    PointAt(whole, |whole|);
    assert whole[..|whole|] == whole;
  }

  lemma ScaleUp(coef: nat, exp: nat)
    ensures (coef * Pow(exp)) as real * Ten(0) == coef as real * Ten(exp)
  {
    TenShift(0, exp);
  }

  lemma ReadLarge(coef: nat, exp: nat)
    ensures IsUnsigned(Plain(coef, exp)) && Plain(coef, exp)[0] != '-' && !ReadUnsigned(Plain(coef, exp)).neg
    ensures Magnitude(ReadUnsigned(Plain(coef, exp))) == Magnitude(Dec(false, coef, exp))
  {
    hide Digits, IsUnsigned, ReadUnsigned, Zeros, NatOf, Ten, Pow;
    NatOfDigits(coef);
    TrailingZeros(Digits(coef), exp);
    ReadWhole(Digits(coef) + Zeros(exp));
    ScaleUp(coef, exp);
  }

  lemma ReadMixed(coef: nat, exp: int)
    requires exp < 0 && |Digits(coef)| > -exp
    ensures IsUnsigned(Plain(coef, exp)) && Plain(coef, exp)[0] != '-'
    ensures ReadUnsigned(Plain(coef, exp)) == Dec(false, coef, exp)
  {
    hide Digits, IsUnsigned, ReadUnsigned, NatOf;
    var digits := Digits(coef);
    var n := |digits| + exp;
    NatOfDigits(coef);
    ReadSplit(digits[..n], digits[n..]);
    assert digits[..n] + digits[n..] == digits;
  }

  lemma ReadSmall(coef: nat, exp: int)
    requires exp < 0 && |Digits(coef)| <= -exp
    ensures IsUnsigned(Plain(coef, exp)) && Plain(coef, exp)[0] != '-'
    ensures ReadUnsigned(Plain(coef, exp)) == Dec(false, coef, exp)
  {
    hide Digits, IsUnsigned, ReadUnsigned, NatOf, Zeros;
    var digits := Digits(coef);
    var zeros := Zeros(-exp - |digits|);
    NatOfDigits(coef);
    LeadingZeros(|zeros|, digits);
    LeadingZeros(1, zeros + digits);
    OneZero();
    ReadSplit("0", zeros + digits);
    assert "0." + zeros + digits == "0" + "." + (zeros + digits);
  }

  /** The plain text of a magnitude reads back as the same number. */
  lemma ReadPlain(coef: nat, exp: int)
    ensures IsUnsigned(Plain(coef, exp)) && Plain(coef, exp)[0] != '-' && !ReadUnsigned(Plain(coef, exp)).neg
    ensures Magnitude(ReadUnsigned(Plain(coef, exp))) == Magnitude(Dec(false, coef, exp))
  {
    hide Digits, IsUnsigned, ReadUnsigned, Zeros, NatOf, Ten, Pow, Plain;
    if exp >= 0 {
      ReadLarge(coef, exp);
    } else if |Digits(coef)| > -exp {
      ReadMixed(coef, exp);
    } else {
      ReadSmall(coef, exp);
    }
  }

  lemma ReadFormat(d: Dec)
    ensures IsNumber(Format(d)) && Value(Read(Format(d))) == Value(d)
  {
    hide Plain, IsUnsigned, ReadUnsigned;
    ReadPlain(d.coef, d.exp);
    if d.neg {
      assert Format(d)[1..] == Plain(d.coef, d.exp);
    } else {
      assert Format(d) == Plain(d.coef, d.exp);
    }
  }

  // ---- Rounding to the context precision -----------------------------------------------------------

  function HalfEvenQuotient(n: nat, p: nat): nat
    requires p > 0
  {
    var q, r := n / p, n % p;
    if 2 * r < p || (2 * r == p && q % 2 == 0) then q else q + 1
  }

  /** Every arithmetic result is rounded to 28 digits. */
  function Fix(d: Dec): Dec {
    var n := |Digits(d.coef)|;
    if n <= PRECISION then d
    else
      var q := HalfEvenQuotient(d.coef, Pow(n - PRECISION));
      if |Digits(q)| <= PRECISION then Dec(d.neg, q, d.exp + n - PRECISION)
      else Dec(d.neg, q / 10, d.exp + n - PRECISION + 1)
  }

  /** At most 28 significant digits. */
  predicate Fits(d: Dec) {
    var n := |Digits(d.coef)|;
    n <= PRECISION || d.coef % Pow(n - PRECISION) == 0
  }

  lemma {:induction false} PowSplit(a: nat, b: nat)
    ensures Pow(a + b) == Pow(a) * Pow(b)
    decreases a
  {
    if a > 0 {
      PowSplit(a - 1, b);
      assert 10 * (Pow(a - 1) * Pow(b)) == (10 * Pow(a - 1)) * Pow(b);
    }
  }

  lemma {:induction false} PowMonotone(a: nat, b: nat)
    requires a <= b
    ensures Pow(a) <= Pow(b)
    decreases b
  {
    if a < b {
      PowMonotone(a, b - 1);
    }
  }

  lemma TimesMonotone(a: nat, b: nat, p: nat)
    requires a <= b
    ensures a * p <= b * p
  {
  }

  lemma QuotientBound(n: nat, p: nat, m: nat)
    requires p > 0 && n < m * p
    ensures HalfEvenQuotient(n, p) <= m
    ensures n % p == 0 <==> HalfEvenQuotient(n, p) * p == n
  {
    var q, r := n / p, n % p;
    assert n == q * p + r;
    if q >= m {
      TimesMonotone(m, q, p);
    }
    assert (q + 1) * p == q * p + p;
  }

  lemma SmallDigits()
    ensures |Digits(0)| == 1
  {
  }

  lemma TenfoldPow(k: nat)
    ensures Pow(k + 1) == 10 * Pow(k)
  {
  }

  /** Ten to the `k` has no more than `k + 1` digits. */
  lemma DigitsFit(n: nat, k: nat)
    requires n <= Pow(k)
    ensures |Digits(n)| <= k + 1
  {
    hide Digits, Pow;
    SmallDigits();
    if |Digits(n)| > k + 1 {
      DigitBounds(n);
      PowMonotone(k + 1, |Digits(n)| - 1);
      TenfoldPow(k);
    }
  }

  /** A quotient with more than 28 digits is the next power of ten. */
  lemma Carry(q: nat)
    requires q <= Pow(PRECISION) && |Digits(q)| > PRECISION
    ensures q == Pow(PRECISION) && q % 10 == 0
  {
    hide Digits, Pow;
    DigitBounds(q);
    SmallDigits();
    PowMonotone(PRECISION, |Digits(q)| - 1);
    TenfoldPow(PRECISION - 1);
  }

  lemma Scaled(coef: nat, q: nat, p: nat, t: real)
    requires t > 0.0
    ensures q as real * (p as real * t) == coef as real * t <==> q * p == coef
  {
    assert q as real * (p as real * t) == (q * p) as real * t;
    if q * p != coef {
      assert ((q * p) as real - coef as real) * t != 0.0;
    }
  }

  lemma Shifted(q: nat, t: real)
    requires q % 10 == 0
    ensures (q / 10) as real * (10.0 * t) == q as real * t
  {
    assert (q / 10) as real * 10.0 == q as real;
  }

  /** The rounded coefficient, before a carry is taken out of it. */
  lemma FixQuotient(d: Dec)
    requires |Digits(d.coef)| > PRECISION
    ensures var k := |Digits(d.coef)| - PRECISION;
            var q := HalfEvenQuotient(d.coef, Pow(k));
            && q <= Pow(PRECISION) && |Digits(Fix(d).coef)| <= PRECISION
            && Magnitude(Fix(d)) == q as real * Ten(d.exp + k)
  {
    hide Digits, HalfEvenQuotient, Pow, Ten;
    var k := |Digits(d.coef)| - PRECISION;
    var q := HalfEvenQuotient(d.coef, Pow(k));
    DigitBounds(d.coef);
    PowSplit(PRECISION, k);
    QuotientBound(d.coef, Pow(k), Pow(PRECISION));
    if |Digits(q)| > PRECISION {
      Carry(q);
      TenUp(d.exp + k);
      Shifted(q, Ten(d.exp + k));
      TenfoldPow(PRECISION - 1);
      DigitsFit(q / 10, PRECISION - 1);
    }
  }

  lemma FixKeepsMagnitude(d: Dec)
    requires |Digits(d.coef)| > PRECISION
    ensures Magnitude(Fix(d)) == Magnitude(d) <==> d.coef % Pow(|Digits(d.coef)| - PRECISION) == 0
  {
    hide Digits, HalfEvenQuotient, Pow, Ten, Fix;
    var k := |Digits(d.coef)| - PRECISION;
    var q := HalfEvenQuotient(d.coef, Pow(k));
    FixQuotient(d);
    DigitBounds(d.coef);
    PowSplit(PRECISION, k);
    QuotientBound(d.coef, Pow(k), Pow(PRECISION));
    TenShift(d.exp, k);
    Scaled(d.coef, q, Pow(k), Ten(d.exp));
  }

  /** Rounding keeps the number exactly when it has at most 28 significant digits. */
  lemma FixKeepsExactly(d: Dec)
    ensures Value(Fix(d)) == Value(d) <==> Fits(d)
    ensures Fix(d).neg == d.neg
  {
    hide Digits, HalfEvenQuotient, Pow, Ten;
    if |Digits(d.coef)| > PRECISION {
      FixKeepsMagnitude(d);
    }
  }

  lemma NearestQuotient(n: nat, p: nat)
    requires p > 0
    ensures var q := HalfEvenQuotient(n, p);
            && 2 * (q * p) <= 2 * n + p && 2 * n <= 2 * (q * p) + p
            && (2 * (q * p) == 2 * n + p || 2 * n == 2 * (q * p) + p ==> q % 2 == 0)
  {
    var q, r := n / p, n % p;
    assert n == q * p + r;
    assert (q + 1) * p == q * p + p;
  }

  /** `f` is `d` at 28 digits: the sign is kept and `d` lies within half a unit of the 28th
      digit, at even digits on a tie. */
  ghost predicate RoundedTo(f: Dec, d: Dec, q: nat) {
    var unit := |Digits(d.coef)| - PRECISION;
    && unit > 0 && f.neg == d.neg && q <= Pow(PRECISION)
    && Magnitude(f) == Magnitude(Dec(false, q, d.exp + unit))
    && var n, nearest := 2 * d.coef, 2 * (q * Pow(unit));
       && nearest <= n + Pow(unit) && n <= nearest + Pow(unit)
       && (nearest == n + Pow(unit) || n == nearest + Pow(unit) ==> q % 2 == 0)
  }

  /** A number of more than 28 digits is rounded to the nearest with 28, half to even. */
  lemma FixIsNearest(d: Dec)
    requires |Digits(d.coef)| > 28
    ensures exists q :: RoundedTo(Fix(d), d, q)
    ensures |Digits(Fix(d).coef)| <= 28
  {
    hide Digits, HalfEvenQuotient, Pow, Ten;
    FixQuotient(d);
    var k := |Digits(d.coef)| - PRECISION;
    var q := HalfEvenQuotient(d.coef, Pow(k));
    NearestQuotient(d.coef, Pow(k));
    assert RoundedTo(Fix(d), d, q);
  }

  // ---- Normal form -----------------------------------------------------------------------------------

  /** Strips trailing zeros off a positive coefficient. */
  function Strip(coef: nat, exp: int): (nat, int)
    requires coef > 0
  {
    if coef % 10 == 0 then Strip(coef / 10, exp + 1) else (coef, exp)
  }

  /** `Decimal.normalize` */
  function Normalize(d: Dec): Dec {
    var f := Fix(d);
    if f.coef == 0 then Dec(f.neg, 0, 0)
    else var (c, e) := Strip(f.coef, f.exp); Dec(f.neg, c, e)
  }

  lemma {:induction false} StripFacts(coef: nat, exp: int)
    requires coef > 0
    ensures var (c, e) := Strip(coef, exp);
            c % 10 != 0 && c > 0 && c as real * Ten(e) == coef as real * Ten(exp)
    decreases coef
  {
    hide Ten;
    if coef % 10 == 0 {
      StripFacts(coef / 10, exp + 1);
      TenUp(exp);
      Shifted(coef, Ten(exp));
    }
  }

  lemma PowZero()
    ensures Pow(0) == 1
  {
  }

  /** Coefficients without trailing zeros determine their power of ten. */
  lemma StripUnique(a: nat, e: int, b: nat, f: int)
    requires a % 10 != 0 && b % 10 != 0 && a as real * Ten(e) == b as real * Ten(f) && e <= f
    ensures a == b && e == f
  {
    hide Ten, Pow;
    var k := f - e;
    TenShift(e, k);
    Scaled(a, b, Pow(k), Ten(e));
    if k > 0 {
      TenfoldPow(k - 1);
      TenthTimes(b, Pow(k - 1));
    } else {
      PowZero();
    }
  }

  /** `_decimal_text`: normal form as plain text, negative zero folded into zero. */
  function DecimalText(d: Dec): string {
    var text := Format(Normalize(d));
    if text == "-0" || text == "" then "0" else text
  }

  /** The canonical decimal behind the text. */
  function Canonical(d: Dec): Dec {
    var n := Normalize(d);
    if n.coef == 0 then Dec(false, 0, 0) else n
  }

  lemma NormalZero(d: Dec)
    ensures Normalize(d).coef == 0 ==> Normalize(d).exp == 0
  {
    hide Fix;
    if Fix(d).coef > 0 {
      StripFacts(Fix(d).coef, Fix(d).exp);
    }
  }

  lemma PlainZero()
    ensures Plain(0, 0) == "0"
  {
    assert "0" + Zeros(0) == "0";
  }

  lemma ReadMinusZero()
    ensures IsNumber("-0") && Value(Read("-0")) == 0.0
  {
    assert "-0"[1..] == "0";
    ReadWhole("0");
    assert "0"[..0] == "";
  }

  lemma Signs(d: Dec)
    ensures d.coef == 0 ==> Value(d) == 0.0
    ensures d.coef > 0 ==> (if d.neg then Value(d) < 0.0 else Value(d) > 0.0)
  {
    hide Ten;
    assert d.coef > 0 ==> d.coef as real * Ten(d.exp) > 0.0;
  }

  lemma NonZeroText(n: Dec)
    requires n.coef > 0
    ensures Format(n) != "-0" && Format(n) != ""
  {
    hide Plain, Ten;
    ReadFormat(n);
    ReadMinusZero();
    Signs(n);
  }

  lemma TextIsCanonical(d: Dec)
    ensures DecimalText(d) == Format(Canonical(d))
  {
    hide Normalize, Plain;
    var n := Normalize(d);
    PlainZero();
    NormalZero(d);
    if n.coef != 0 {
      NonZeroText(n);
    } else {
      assert Format(n) == (if n.neg then "-" + "0" else "" + "0");
    }
  }

  lemma CanonicalValue(d: Dec)
    ensures Value(Canonical(d)) == Value(Fix(d))
    ensures Canonical(d).coef == 0 ==> Canonical(d) == Dec(false, 0, 0)
    ensures Canonical(d).coef != 0 ==> Canonical(d).coef % 10 != 0
  {
    hide Fix, Ten;
    var f := Fix(d);
    if f.coef > 0 {
      StripFacts(f.coef, f.exp);
    }
  }

  /** Equal numbers have one canonical form. */
  lemma CanonicalUnique(a: Dec, b: Dec)
    requires Value(Canonical(a)) == Value(Canonical(b))
    ensures Canonical(a) == Canonical(b)
  {
    hide Canonical, Ten, Fix;
    CanonicalValue(a);
    CanonicalValue(b);
    var x, y := Canonical(a), Canonical(b);
    Signs(x);
    Signs(y);
    if x.coef != 0 && y.coef != 0 {
      if x.exp <= y.exp {
        StripUnique(x.coef, x.exp, y.coef, y.exp);
      } else {
        StripUnique(y.coef, y.exp, x.coef, x.exp);
      }
    }
  }

  /** The text reads back as the number rounded to 28 digits; as the number itself exactly
      when it has no more. */
  lemma TextReadsBack(d: Dec)
    ensures IsNumber(DecimalText(d)) && Value(Read(DecimalText(d))) == Value(Fix(d))
    ensures Value(Read(DecimalText(d))) == Value(d) <==> Fits(d)
  {
    hide Canonical, Fix, Read, IsNumber, DecimalText, Format, Fits, Value;
    TextIsCanonical(d);
    ReadFormat(Canonical(d));
    CanonicalValue(d);
    FixKeepsExactly(d);
  }

  /** No sign on zero, no zero before another digit of the whole part, none at the end of the
      fraction, and no point without a fraction. */
  ghost predicate Shortest(s: string) {
    s != "" &&
    var u := if s[0] == '-' then s[1..] else s;
    && s != "-0" && IsUnsigned(u)
    && (Point(u) > 1 ==> u[0] != '0')
    && (Point(u) < |u| ==> u[|u| - 1] != '0')
  }

  lemma {:induction false} DigitsEnds(n: nat)
    requires n > 0
    ensures Digits(n)[0] != '0' && (Digits(n)[|Digits(n)| - 1] == '0' <==> n % 10 == 0)
  {
    if n >= 10 {
      DigitsEnds(n / 10);
      assert Digits(n)[0] == Digits(n / 10)[0];
    }
  }

  lemma PlainEnds(coef: nat, exp: int)
    requires coef % 10 != 0
    ensures var u := Plain(coef, exp);
            (Point(u) > 1 ==> u[0] != '0') && (Point(u) < |u| ==> u[|u| - 1] != '0')
  {
    hide Digits, Zeros, Point;
    var digits, u := Digits(coef), Plain(coef, exp);
    DigitsEnds(coef);
    if exp >= 0 {
      PointAt(u, |u|);
    } else if |digits| > -exp {
      PointAt(u, |digits| + exp);
    } else {
      PointAt(u, 1);
    }
  }

  /** The text is the shortest of its number, with a sign exactly below zero. */
  lemma TextIsShortest(d: Dec)
    ensures Shortest(DecimalText(d)) && (DecimalText(d)[0] == '-' <==> Value(Fix(d)) < 0.0)
  {
    hide Plain, Fix, Digits, DecimalText, Canonical, IsUnsigned, Point, ReadUnsigned, Ten;
    var c := Canonical(d);
    TextIsCanonical(d);
    CanonicalValue(d);
    Signs(c);
    ReadPlain(c.coef, c.exp);
    if c.coef == 0 {
      PlainZero();
      PointAt("0", 1);
    } else {
      PlainEnds(c.coef, c.exp);
      NonZeroText(c);
    }
    assert c.neg ==> Format(c)[1..] == Plain(c.coef, c.exp);
    assert !c.neg ==> Format(c) == Plain(c.coef, c.exp);
  }

  /** Two numbers get the same text exactly when they are the same number after rounding. */
  lemma TextExactly(a: Dec, b: Dec)
    ensures DecimalText(a) == DecimalText(b) <==> Value(Fix(a)) == Value(Fix(b))
  {
    hide Canonical, Fix, Read, IsNumber, DecimalText, Format, Value;
    TextReadsBack(a);
    TextReadsBack(b);
    if Value(Fix(a)) == Value(Fix(b)) {
      CanonicalValue(a);
      CanonicalValue(b);
      CanonicalUnique(a, b);
      TextIsCanonical(a);
      TextIsCanonical(b);
    }
  }

  /** Zero of either sign and any exponent reads `0`. */
  lemma ZeroText(d: Dec)
    requires d.coef == 0
    ensures DecimalText(d) == "0"
  {
    hide Plain, DecimalText;
    SmallDigits();
    TextIsCanonical(d);
    PlainZero();
    assert Format(Dec(false, 0, 0)) == "" + "0";
  }

  lemma DigitsAtPower(k: nat, r: nat)
    requires k > 0 && r <= 1
    ensures |Digits(Pow(k) + r)| == k + 1
  {
    hide Digits;
    var n := Pow(k) + r;
    DigitBounds(n);
    if |Digits(n)| <= k {
      PowMonotone(|Digits(n)|, k);
    }
    if |Digits(n)| >= k + 2 {
      PowMonotone(k + 1, |Digits(n)| - 1);
      assert Pow(k + 1) == 10 * Pow(k);
    }
  }

  /** Beyond 28 digits different numbers share a text: one more than ten to the 28th. */
  lemma LongNumbersCollide()
    ensures var a, b := Dec(false, Pow(28), 0), Dec(false, Pow(28) + 1, 0);
            Value(a) != Value(b) && DecimalText(a) == DecimalText(b)
  {
    hide Digits, DecimalText, Pow;
    var p := Pow(27);
    assert Pow(28) == 10 * p by { TenfoldPow(27); }
    DigitsAtPower(28, 0);
    DigitsAtPower(28, 1);
    assert Pow(1) == 10 by { TenfoldPow(0); PowZero(); }
    assert HalfEvenQuotient(10 * p, 10) == p;
    assert HalfEvenQuotient(10 * p + 1, 10) == p;
    TextExactly(Dec(false, Pow(28), 0), Dec(false, Pow(28) + 1, 0));
  }
}
