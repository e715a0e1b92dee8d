/** Quantities with a unit in canonical form: one text for one physical quantity. */
module Quantities {
  import opened Wrappers
  import opened Decimals
  import opened SpecificationTokens

  /** The kind a unit measures, its base unit and the power of ten between them. */
  datatype Unit = Unit(kind: Kind, base: string, exponent: int)

  const OHM_SIGN := '\U{2126}'

  const KELVIN_SIGN := '\U{212A}'

  /** `str.lower` for the letters a unit can match, ignoring case. */
  function LowerChar(c: char): char {
    if 'A' <= c <= 'Z' then (c as int + 32) as char
    else if c == 'Ω' || c == OHM_SIGN then 'ω'
    else if c == KELVIN_SIGN then 'k'
    else c
  }

  function Lower(s: string): string {
    seq(|s|, i requires 0 <= i < |s| => LowerChar(s[i]))
  }

  /** `unit.replace("μ", "u")` */
  function PlainMicro(s: string): string {
    seq(|s|, i requires 0 <= i < |s| => if s[i] == 'μ' then 'u' else s[i])
  }

  function UnitInfo(unit: string): Option<Unit> {
    var normalized := PlainMicro(unit);
    var lower := Lower(normalized);
    if lower == "pf" then Some(Unit(Capacitance, "F", -12))
    else if lower == "nf" then Some(Unit(Capacitance, "F", -9))
    else if lower == "uf" then Some(Unit(Capacitance, "F", -6))
    else if lower == "mf" then Some(Unit(Capacitance, "F", -3))
    else if lower == "ph" then Some(Unit(Inductance, "H", -12))
    else if lower == "nh" then Some(Unit(Inductance, "H", -9))
    else if lower == "uh" then Some(Unit(Inductance, "H", -6))
    else if lower == "mh" then Some(Unit(Inductance, "H", -3))
    else if normalized == "H" then Some(Unit(Inductance, "H", 0))
    else if normalized == "mΩ" then Some(Unit(Resistance, "OHM", -3))
    else if normalized == "uΩ" then Some(Unit(Resistance, "OHM", -6))
    else if normalized == "kΩ" then Some(Unit(Resistance, "OHM", 3))
    else if normalized == "MΩ" then Some(Unit(Resistance, "OHM", 6))
    else if lower == "ω" || lower == "ohm" then Some(Unit(Resistance, "OHM", 0))
    else if lower == "ua" then Some(Unit(Current, "A", -6))
    else if lower == "ma" then Some(Unit(Current, "A", -3))
    else if normalized == "A" then Some(Unit(Current, "A", 0))
    else if lower == "mv" then Some(Unit(Voltage, "V", -3))
    else if lower == "kv" then Some(Unit(Voltage, "V", 3))
    else if normalized == "V" then Some(Unit(Voltage, "V", 0))
    else if lower == "mw" then Some(Unit(Power, "W", -3))
    else if lower == "kw" then Some(Unit(Power, "W", 3))
    else if normalized == "W" then Some(Unit(Power, "W", 0))
    else if lower == "hz" then Some(Unit(Frequency, "HZ", 0))
    else if lower == "khz" then Some(Unit(Frequency, "HZ", 3))
    else if lower == "mhz" then Some(Unit(Frequency, "HZ", 6))
    else if lower == "ghz" then Some(Unit(Frequency, "HZ", 9))
    else None
  }

  /** `Decimal(value) * Decimal(factor)` for a factor that is a power of ten. */
  function Product(d: Dec, exponent: int): Dec {
    Fix(Dec(d.neg, d.coef * 1, d.exp + exponent))
  }

  datatype Quantity = Quantity(kind: Kind, base: string, text: string)

  function NormalizedQuantity(value: string, unit: string): Option<Quantity>
    requires IsNumber(value)
  {
    match UnitInfo(unit)
    case None => None
    case Some(u) => Some(Quantity(u.kind, u.base, DecimalText(Product(Read(value), u.exponent)) + " " + u.base))
  }

  /** What a number with a unit amounts to in the base unit. */
  function Amount(value: string, u: Unit): real
    requires IsNumber(value)
  {
    Value(Read(value)) * Ten(u.exponent)
  }

  // ---- What a unit means in the metric system --------------------------------------------------

  /** The power of ten a metric prefix stands for. Case tells p from P and m from M; the other
      letters are one prefix in either case. */
  ghost function MetricPrefix(c: char): int {
    if c == 'p' then -12
    else if c == 'n' || c == 'N' then -9
    else if c == 'u' || c == 'U' || c == 'μ' then -6
    else if c == 'm' then -3
    else if c == 'k' || c == 'K' || c == KELVIN_SIGN then 3
    else if c == 'M' then 6
    else if c == 'P' then 15
    else 9
  }

  /** A unit without a prefix. */
  predicate Bare(unit: string) {
    |unit| <= 1 || Lower(unit) == "hz" || Lower(unit) == "ohm"
  }

  ghost function MetricExponent(unit: string): int {
    if Bare(unit) then 0 else MetricPrefix(unit[0])
  }

  /** What a number with a unit amounts to when the unit is read as the metric system has it. */
  ghost function MetricAmount(value: string, unit: string): real
    requires IsNumber(value)
  {
    Value(Read(value)) * Ten(MetricExponent(unit))
  }

  /** Capital P anywhere, capital M outside ohm and hertz, and small m before hertz. */
  ghost predicate CaseLost(unit: string) {
    && |unit| >= 2
    && var last := unit[|unit| - 1];
    && (|| unit[0] == 'P'
        || (unit[0] == 'M' && last !in {'Ω', 'z', 'Z'})
        || (unit[0] == 'm' && last in {'z', 'Z'}))
  }

  lemma SpelledPair(a: char, b: char)
    ensures var n := if a == 'μ' then 'u' else a;
            var n' := if b == 'μ' then 'u' else b;
            && PlainMicro([a, b]) == [n, n']
            && Lower([n, n']) == [LowerChar(n), LowerChar(n')]
            && Lower([a, b]) == [LowerChar(a), LowerChar(b)]
  {
  }

  lemma SpelledTriple(a: char, b: char, c: char)
    ensures var n := if a == 'μ' then 'u' else a;
            var n' := if b == 'μ' then 'u' else b;
            var n'' := if c == 'μ' then 'u' else c;
            && PlainMicro([a, b, c]) == [n, n', n'']
            && Lower([n, n', n'']) == [LowerChar(n), LowerChar(n'), LowerChar(n'')]
            && Lower([a, b, c]) == [LowerChar(a), LowerChar(b), LowerChar(c)]
  {
  }

  lemma PassivePairKeeps(a: char, b: char)
    requires UnitInfo([a, b]).Some? && LowerChar(b) in {'f', 'h'}
    ensures UnitInfo([a, b]).value.exponent == MetricExponent([a, b]) <==> !CaseLost([a, b])
  {
    hide PlainMicro, Lower;
    SpelledPair(a, b);
  }

  lemma OtherPairKeeps(a: char, b: char)
    requires UnitInfo([a, b]).Some? && LowerChar(b) !in {'f', 'h'}
    ensures UnitInfo([a, b]).value.exponent == MetricExponent([a, b]) <==> !CaseLost([a, b])
  {
    hide PlainMicro, Lower;
    SpelledPair(a, b);
  }

  lemma PairKeeps(a: char, b: char)
    requires UnitInfo([a, b]).Some?
    ensures UnitInfo([a, b]).value.exponent == MetricExponent([a, b]) <==> !CaseLost([a, b])
  {
    hide UnitInfo, MetricExponent, CaseLost, LowerChar;
    if LowerChar(b) in {'f', 'h'} {
      PassivePairKeeps(a, b);
    } else {
      OtherPairKeeps(a, b);
    }
  }

  lemma TripleKeeps(a: char, b: char, c: char)
    requires UnitInfo([a, b, c]).Some?
    ensures UnitInfo([a, b, c]).value.exponent == MetricExponent([a, b, c]) <==> !CaseLost([a, b, c])
  {
    hide PlainMicro, Lower;
    SpelledTriple(a, b, c);
  }

  lemma SameLength(unit: string)
    ensures |Lower(PlainMicro(unit))| == |PlainMicro(unit)| == |unit|
  {
  }

  lemma SpelledSingle(c: char)
    ensures var n := if c == 'μ' then 'u' else c;
            PlainMicro([c]) == [n] && Lower([n]) == [LowerChar(n)]
  {
  }

  /** The units of one letter: H, A, V and W as capitals, and the ohm letters. */
  lemma BareLetters(c: char)
    ensures UnitInfo([c]) ==
            if c == 'H' then Some(Unit(Inductance, "H", 0))
            else if c == 'A' then Some(Unit(Current, "A", 0))
            else if c == 'V' then Some(Unit(Voltage, "V", 0))
            else if c == 'W' then Some(Unit(Power, "W", 0))
            else if c in {'Ω', 'ω', '\U{2126}'} then Some(Unit(Resistance, "OHM", 0))
            else None
  {
    hide PlainMicro, Lower;
    SpelledSingle(c);
  }

  /** Ohm and hertz written out, in any case. */
  lemma BareWords(o: char, h: char, m: char, z: char)
    requires o in {'o', 'O'} && h in {'h', 'H'} && m in {'m', 'M'} && z in {'z', 'Z'}
    ensures UnitInfo([o, h, m]) == Some(Unit(Resistance, "OHM", 0))
    ensures UnitInfo([h, z]) == Some(Unit(Frequency, "HZ", 0))
  {
    hide PlainMicro, Lower;
    SpelledTriple(o, h, m);
    SpelledPair(h, z);
  }

  ghost function KindOfSymbol(last: char): Kind {
    match last
    case 'f' => Capacitance
    case 'h' => Inductance
    case 'a' => Current
    case 'v' => Voltage
    case 'w' => Power
    case 'z' => Frequency
    case _ => Resistance
  }

  lemma KindOfPassivePair(a: char, b: char)
    requires UnitInfo([a, b]).Some? && LowerChar(b) in {'f', 'h'}
    ensures UnitInfo([a, b]).value.kind == if LowerChar(b) == 'f' then Capacitance else Inductance
  {
    hide PlainMicro, Lower, MetricPrefix;
    SpelledPair(a, b);
  }

  lemma KindOfActivePair(a: char, b: char)
    requires UnitInfo([a, b]).Some? && LowerChar(b) in {'a', 'v', 'w'}
    ensures UnitInfo([a, b]).value.kind ==
            if LowerChar(b) == 'a' then Current else if LowerChar(b) == 'v' then Voltage else Power
  {
    hide PlainMicro, Lower, MetricPrefix;
    SpelledPair(a, b);
  }

  lemma KindOfOtherPair(a: char, b: char)
    requires UnitInfo([a, b]).Some? && LowerChar(b) !in {'f', 'h', 'a', 'v', 'w'}
    ensures UnitInfo([a, b]).value.kind == if LowerChar(b) == 'z' then Frequency else Resistance
  {
    hide PlainMicro, Lower, MetricPrefix;
    SpelledPair(a, b);
  }

  lemma KindOfPair(a: char, b: char)
    requires UnitInfo([a, b]).Some?
    ensures UnitInfo([a, b]).value.kind == KindOfSymbol(LowerChar(b))
  {
    hide UnitInfo, LowerChar;
    if LowerChar(b) in {'f', 'h'} {
      KindOfPassivePair(a, b);
    } else if LowerChar(b) in {'a', 'v', 'w'} {
      KindOfActivePair(a, b);
    } else {
      KindOfOtherPair(a, b);
    }
  }

  lemma KindOfTriple(a: char, b: char, c: char)
    requires UnitInfo([a, b, c]).Some?
    ensures UnitInfo([a, b, c]).value.kind == KindOfSymbol(LowerChar(c))
  {
    hide PlainMicro, Lower;
    SpelledTriple(a, b, c);
  }

  lemma KindOfLetter(c: char)
    requires UnitInfo([c]).Some?
    ensures UnitInfo([c]).value.kind == KindOfSymbol(LowerChar(c))
  {
    hide UnitInfo;
    BareLetters(c);
  }

  lemma UnitLength(unit: string)
    requires UnitInfo(unit).Some?
    ensures 1 <= |unit| <= 3 && (|unit| == 1 ==> UnitInfo(unit).value.exponent == 0)
  {
    hide PlainMicro, Lower;
    SameLength(unit);
  }

  /** The kind of a unit that is understood, by its last letter in either case. */
  lemma KindBySymbol(unit: string)
    requires UnitInfo(unit).Some?
    ensures unit != "" && UnitInfo(unit).value.kind == KindOfSymbol(LowerChar(unit[|unit| - 1]))
  {
    hide UnitInfo, KindOfSymbol;
    UnitLength(unit);
    if |unit| == 1 {
      assert unit == [unit[0]];
      KindOfLetter(unit[0]);
    } else if |unit| == 2 {
      assert unit == [unit[0], unit[1]];
      KindOfPair(unit[0], unit[1]);
    } else {
      assert unit == [unit[0], unit[1], unit[2]];
      KindOfTriple(unit[0], unit[1], unit[2]);
    }
  }

  /** A unit that is understood keeps its metric meaning exactly when its case is not lost. */
  lemma MetricExactly(unit: string)
    requires UnitInfo(unit).Some?
    ensures UnitInfo(unit).value.exponent == MetricExponent(unit) <==> !CaseLost(unit)
  {
    hide UnitInfo, Lower, MetricPrefix;
    UnitLength(unit);
    if |unit| == 2 {
      assert unit == [unit[0], unit[1]];
      PairKeeps(unit[0], unit[1]);
    } else if |unit| == 3 {
      assert unit == [unit[0], unit[1], unit[2]];
      TripleKeeps(unit[0], unit[1], unit[2]);
    }
  }

  lemma TenZero()
    ensures Ten(0) == 1.0
  {
  }

  lemma Associate(a: real, b: real)
    ensures a * (10.0 * b) == 10.0 * (a * b)
  {
  }

  lemma {:induction false} TenSum(a: int, b: int)
    ensures Ten(a + b) == Ten(a) * Ten(b)
    decreases if b < 0 then -b else b
  {
    hide Ten;
    TenZero();
    if b > 0 {
      TenSum(a, b - 1);
      TenUp(a + b - 1);
      TenUp(b - 1);
      Associate(Ten(a), Ten(b - 1));
    } else if b < 0 {
      TenSum(a, b + 1);
      TenUp(a + b);
      TenUp(b);
      Associate(Ten(a), Ten(b));
    }
  }

  lemma Distribute(c: real, s: real, t: real)
    ensures c * (s * t) == (c * s) * t && -(c * (s * t)) == -(c * s) * t
  {
  }

  lemma Rescaled(d: Dec, exponent: int)
    ensures var e := Dec(d.neg, d.coef * 1, d.exp + exponent);
            Value(e) == Value(d) * Ten(exponent) && (Fits(e) <==> Fits(d))
  {
    hide Ten, Digits, Pow;
    TenSum(d.exp, exponent);
    assert d.coef * 1 == d.coef;
    Distribute(d.coef as real, Ten(d.exp), Ten(exponent));
  }

  /** Rounding a second time changes nothing. */
  lemma FixTwice(d: Dec)
    ensures Fits(Fix(d)) && Value(Fix(Fix(d))) == Value(Fix(d))
  {
    hide Digits, HalfEvenQuotient, Pow, Ten, Value;
    var n := |Digits(d.coef)|;
    if n > PRECISION {
      var k := n - PRECISION;
      var q := HalfEvenQuotient(d.coef, Pow(k));
      DigitBounds(d.coef);
      PowSplit(PRECISION, k);
      QuotientBound(d.coef, Pow(k), Pow(PRECISION));
      if |Digits(q)| > PRECISION {
        Carry(q);
        TenfoldPow(PRECISION - 1);
        DigitsAtPower(PRECISION - 1, 0);
      }
    }
    FixKeepsExactly(Fix(d));
  }

  lemma QuantityRounded(value: string, unit: string)
    requires IsNumber(value) && UnitInfo(unit).Some?
    ensures var u := UnitInfo(unit).value;
            var p := Product(Read(value), u.exponent);
            && (Fits(Read(value)) ==> Value(p) == Amount(value, u))
            && Value(Fix(p)) == Value(p)
            && IsNumber(DecimalText(p)) && Value(Read(DecimalText(p))) == Value(p)
  {
    hide UnitInfo, Fix, Value, Read, IsNumber, Fits, DecimalText;
    var u := UnitInfo(unit).value;
    var scaled := Dec(Read(value).neg, Read(value).coef * 1, Read(value).exp + u.exponent);
    Rescaled(Read(value), u.exponent);
    FixKeepsExactly(scaled);
    FixTwice(scaled);
    TextReadsBack(Fix(scaled));
  }

  lemma SameSuffix(a: string, b: string, s: string)
    ensures a + s == b + s <==> a == b
  {
    if a + s == b + s {
      assert |a| == |b|;
      assert a == (a + s)[..|a|] && b == (b + s)[..|b|];
    }
  }

  /** The canonical form of any number with a unit that is understood: its kind, its base unit,
      and as text the shortest decimal of the amount at 28 digits, a blank and the base unit. */
  lemma NormalForm(value: string, unit: string)
    requires IsNumber(value)
    ensures NormalizedQuantity(value, unit).Some? <==> UnitInfo(unit).Some?
    ensures UnitInfo(unit).Some? ==>
              var u, q, d := UnitInfo(unit).value, NormalizedQuantity(value, unit).value, Read(value);
              var n := |q.text| - |u.base| - 1;
              && q.kind == u.kind && q.base == u.base
              && n >= 0 && q.text[n..] == " " + u.base && Shortest(q.text[..n]) && IsNumber(q.text[..n])
              && Value(Read(q.text[..n])) == Value(Fix(d.(exp := d.exp + u.exponent)))
  {
    hide UnitInfo, DecimalText, Shortest, Value, Fix, Read, IsNumber;
    if UnitInfo(unit).Some? {
      var u, q, d := UnitInfo(unit).value, NormalizedQuantity(value, unit).value, Read(value);
      var text := DecimalText(Product(d, u.exponent));
      TextReadsBack(Product(d, u.exponent));
      TextIsShortest(Product(d, u.exponent));
      FixTwice(d.(exp := d.exp + u.exponent));
      assert q.text == text + (" " + u.base);
      assert q.text[..|text|] == text && q.text[|text|..] == " " + u.base;
    }
  }

  /** Two pairs of number and unit with one base unit get the same text exactly when the code
      reads them as the same amount, and the text reads back as that amount: for all numbers of
      up to 28 significant digits, zero of either sign included. Where no case is lost, that is
      the amount in the metric system. */
  lemma QuantityExactly(v: string, unit: string, v': string, unit': string)
    requires IsNumber(v) && IsNumber(v') && Fits(Read(v)) && Fits(Read(v'))
    requires UnitInfo(unit).Some? && UnitInfo(unit').Some?
    requires UnitInfo(unit).value.kind == UnitInfo(unit').value.kind
        && UnitInfo(unit).value.base == UnitInfo(unit').value.base
    ensures NormalizedQuantity(v, unit) == NormalizedQuantity(v', unit') <==>
            Amount(v, UnitInfo(unit).value) == Amount(v', UnitInfo(unit').value)
    ensures var text := DecimalText(Product(Read(v), UnitInfo(unit).value.exponent));
            IsNumber(text) && Value(Read(text)) == Amount(v, UnitInfo(unit).value)
    ensures !CaseLost(unit) && !CaseLost(unit') ==>
              (NormalizedQuantity(v, unit) == NormalizedQuantity(v', unit') <==>
                MetricAmount(v, unit) == MetricAmount(v', unit'))
  {
    hide UnitInfo, Product, Value, Read, IsNumber, Fits, DecimalText, CaseLost, MetricExponent, Ten;
    QuantityRounded(v, unit);
    QuantityRounded(v', unit');
    MetricExactly(unit);
    MetricExactly(unit');
    var u, u' := UnitInfo(unit).value, UnitInfo(unit').value;
    var p, p' := Product(Read(v), u.exponent), Product(Read(v'), u'.exponent);
    TextExactly(p, p');
    SameSuffix(DecimalText(p), DecimalText(p'), " " + u.base);
    assert DecimalText(p) + " " + u.base == DecimalText(p) + (" " + u.base);
    assert DecimalText(p') + " " + u.base == DecimalText(p') + (" " + u.base);
  }

  lemma Apart(x: real, s: real, t: real)
    requires s != t
    ensures x * s == x * t <==> x == 0.0
  {
    assert x * s - x * t == x * (s - t);
  }

  lemma {:induction false} TenGrows(a: int, b: int)
    requires a < b
    ensures Ten(a) < Ten(b)
    decreases b - a
  {
    TenUp(b - 1);
    if a < b - 1 {
      TenGrows(a, b - 1);
    }
  }

  lemma ScalesApart(x: real, a: int, b: int)
    ensures x * Ten(a) == x * Ten(b) <==> a == b || x == 0.0
  {
    hide Ten;
    if a < b {
      TenGrows(a, b);
      Apart(x, Ten(a), Ten(b));
    } else if b < a {
      TenGrows(b, a);
      Apart(x, Ten(a), Ten(b));
    }
  }

  /** The text of one quantity reads back as its metric amount exactly when the case of the
      prefix is not lost, or the number is zero. */
  lemma MeaningExactly(v: string, unit: string)
    requires IsNumber(v) && Fits(Read(v)) && UnitInfo(unit).Some?
    ensures var text := DecimalText(Product(Read(v), UnitInfo(unit).value.exponent));
            && IsNumber(text)
            && (Value(Read(text)) == MetricAmount(v, unit) <==> !CaseLost(unit) || Value(Read(v)) == 0.0)
  {
    hide UnitInfo, Product, Value, Read, IsNumber, Fits, DecimalText, CaseLost, MetricExponent, Ten;
    QuantityRounded(v, unit);
    MetricExactly(unit);
    ScalesApart(Value(Read(v)), UnitInfo(unit).value.exponent, MetricExponent(unit));
  }

  /** One megawatt and one milliwatt get the same text. */
  lemma MegaReadsAsMilli()
    ensures NormalizedQuantity("1", "MW").Some? && NormalizedQuantity("1", "MW") == NormalizedQuantity("1", "mW")
    ensures CaseLost("MW") && MetricExponent("MW") == 6 && MetricExponent("mW") == -3
  {
    hide PlainMicro, Lower, DecimalText, Product, Read;
    SpelledPair('M', 'W');
    SpelledPair('m', 'W');
    assert "MW" == ['M', 'W'] && "mW" == ['m', 'W'];
  }

  ghost function BaseUnit(kind: Kind): string {
    match kind
    case Capacitance => "F"
    case Inductance => "H"
    case Resistance => "OHM"
    case Current => "A"
    case Voltage => "V"
    case Power => "W"
    case _ => "HZ"
  }

  lemma BaseOf(unit: string)
    requires UnitInfo(unit).Some?
    ensures UnitInfo(unit).value.kind in {Capacitance, Inductance, Resistance, Current, Voltage, Power, Frequency}
    ensures UnitInfo(unit).value.base == BaseUnit(UnitInfo(unit).value.kind)
  {
    hide PlainMicro, Lower;
  }

  /** The base unit fixes the kind, so quantities of different kinds never share a text. */
  lemma KindByBase(unit: string, unit': string)
    requires UnitInfo(unit).Some? && UnitInfo(unit').Some?
    ensures UnitInfo(unit).value.kind == UnitInfo(unit').value.kind <==>
        UnitInfo(unit).value.base == UnitInfo(unit').value.base
  {
    hide PlainMicro, Lower;
    BaseOf(unit);
    BaseOf(unit');
  }

  // ---- The prefixes of the unit pattern -------------------------------------------------------

  /** The unit's exponent is what its metric prefix says. */
  ghost predicate PrefixHolds(prefix: char, symbol: string, kind: Kind) {
    var u := UnitInfo([prefix] + symbol);
    u.Some? && u.value.kind == kind && u.value.exponent == MetricPrefix(prefix)
  }

  lemma SpelledWith(prefix: char, symbol: char)
    requires prefix in {'p', 'n', 'u', 'μ', 'm', 'k', 'M'} && symbol in {'F', 'H', 'A', 'V', 'W', 'Ω'}
    ensures var plain := if prefix == 'μ' then 'u' else prefix;
            && PlainMicro([prefix] + [symbol]) == [plain, symbol]
            && Lower(PlainMicro([prefix] + [symbol])) == [LowerChar(plain), LowerChar(symbol)]
  {
  }

  /** Farad and henry take p, n, u and m. */
  lemma PassiveUnits(prefix: char)
    requires prefix in {'p', 'n', 'u', 'μ', 'm'}
    ensures PrefixHolds(prefix, "F", Capacitance) && PrefixHolds(prefix, "H", Inductance)
  {
    hide PlainMicro, Lower;
    SpelledWith(prefix, 'F');
    SpelledWith(prefix, 'H');
  }

  /** Ampere takes u and m. */
  lemma CurrentUnits(prefix: char)
    requires prefix in {'u', 'μ', 'm'}
    ensures PrefixHolds(prefix, "A", Current)
  {
    hide PlainMicro, Lower;
    SpelledWith(prefix, 'A');
  }

  /** Volt takes m and k. */
  lemma VoltageUnits(prefix: char)
    requires prefix in {'m', 'k'}
    ensures PrefixHolds(prefix, "V", Voltage)
  {
    hide PlainMicro, Lower;
    SpelledWith(prefix, 'V');
  }

  /** Watt takes m and k. */
  lemma PowerUnits(prefix: char)
    requires prefix in {'m', 'k'}
    ensures PrefixHolds(prefix, "W", Power)
  {
    hide PlainMicro, Lower;
    SpelledWith(prefix, 'W');
  }

  /** Ohm takes m, u, k and M, told apart by case. */
  lemma ResistanceUnits(prefix: char)
    requires prefix in {'m', 'u', 'μ', 'k', 'M'}
    ensures PrefixHolds(prefix, "Ω", Resistance)
  {
    hide PlainMicro, Lower;
    SpelledWith(prefix, 'Ω');
  }

  lemma SpelledHertz(prefix: char)
    requires prefix in {'k', 'M', 'G'}
    ensures PlainMicro([prefix] + "Hz") == [prefix, 'H', 'z']
    ensures Lower(PlainMicro([prefix] + "Hz")) == [LowerChar(prefix), 'h', 'z']
  {
  }

  /** Hertz takes k, M and G. */
  lemma FrequencyUnits(prefix: char)
    requires prefix in {'k', 'M', 'G'}
    ensures PrefixHolds(prefix, "Hz", Frequency)
  {
    hide PlainMicro, Lower;
    SpelledHertz(prefix);
  }
}
