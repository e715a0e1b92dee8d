/** Matching a supplier row's tokens against the internal items: token-by-token comparison,
    ranking and the decision what may be matched automatically. */
module SpecificationMatching {
  import opened Rounding
  import opened SpecificationTokens
  import opened TextOrder

  const MAIN_KINDS: seq<Kind> :=
    [Category, Package, Capacitance, Resistance, Inductance, Current, Voltage, Power, Frequency]

  const RANGE_KINDS: seq<Kind> :=
    [VoltageRange, CurrentRange, PowerRange, FrequencyRange, ImpedanceAtFrequency, Bandwidth, GainDb]

  const TOLERANCE_KINDS: seq<Kind> :=
    [TolerancePercent, CapacitanceTolerance, ResistanceTolerance, InductanceTolerance, CurrentTolerance,
     VoltageTolerance, PowerTolerance]

  const OTHER_KINDS: seq<Kind> :=
    [Material, Dimension, Length, PinCount, Pitch, CopperWeight, Interface]

  const SPEC_KINDS: seq<Kind> := MAIN_KINDS + RANGE_KINDS + TOLERANCE_KINDS + OTHER_KINDS

  predicate Anchor(k: Kind) {
    k in {Capacitance, Resistance, Inductance, ImpedanceAtFrequency, Bandwidth, Dimension, PinCount, Pitch,
      CopperWeight}
  }

  function Weight(k: Kind): (w: real)
    ensures w > 0.0
  {
    match k
    case Capacitance => 0.24
    case Resistance => 0.24
    case Inductance => 0.24
    case ImpedanceAtFrequency => 0.22
    case PinCount => 0.20
    case Pitch => 0.20
    case VoltageRange => 0.18
    case CurrentRange => 0.18
    case Interface => 0.18
    case PowerRange => 0.16
    case FrequencyRange => 0.16
    case Bandwidth => 0.16
    case CopperWeight => 0.16
    case Package => 0.14
    case Current => 0.14
    case Voltage => 0.14
    case TolerancePercent => 0.14
    case CapacitanceTolerance => 0.14
    case ResistanceTolerance => 0.14
    case InductanceTolerance => 0.14
    case Power => 0.12
    case Frequency => 0.12
    case CurrentTolerance => 0.12
    case VoltageTolerance => 0.12
    case PowerTolerance => 0.12
    case Dimension => 0.12
    case Category => 0.10
    case GainDb => 0.10
    case Material => 0.10
    case Length => 0.10
    case Mpn => 0.08
    case Brand => 0.03
  }

  // ---- Token maps and evidence ------------------------------------------------------------

  /** What `token_map` holds for a kind. */
  function Values(tokens: seq<Token>, k: Kind): set<string> {
    set t | t in tokens && t.kind == k :: t.normalized
  }

  method TokenMap(tokens: seq<Token>) returns (m: map<Kind, set<string>>)
    ensures forall k: Kind :: k in m <==> Values(tokens, k) != {}
    ensures forall k: Kind :: k in m ==> m[k] == Values(tokens, k)
  {
    m := map[];
    for i := 0 to |tokens|
      invariant forall k: Kind :: k in m <==> Values(tokens[..i], k) != {}
      invariant forall k: Kind :: k in m ==> m[k] == Values(tokens[..i], k)
    {
      var t := tokens[i];
      forall k: Kind
        ensures Values(tokens[..i + 1], k) == Values(tokens[..i], k) + (if t.kind == k then {t.normalized} else {})
      {
        assert tokens[..i + 1] == tokens[..i] + [t];
      }
      m := m[t.kind := (if t.kind in m then m[t.kind] else {}) + {t.normalized}];
    }
    assert tokens[..|tokens|] == tokens;
  }

  /** The kinds that tell one part from another. */
  function Telling(tokens: seq<Token>): set<Kind> {
    set k | k in SPEC_KINDS && k != Category && Values(tokens, k) != {}
  }

  predicate Sufficient(tokens: seq<Token>) {
    |Telling(tokens)| >= 2
  }

  predicate AutoEligible(tokens: seq<Token>) {
    |Telling(tokens)| >= 3 && exists k :: k in Telling(tokens) && Anchor(k)
  }

  function Strength(tokens: seq<Token>): real {
    Round4(if |Telling(tokens)| >= 3 then 1.0 else |Telling(tokens)| as real / 3.0)
  }

  // ---- Comparison ---------------------------------------------------------------------------

  datatype Verdict = Unmentioned | Matching | MissingInTarget | MissingInSource | Conflict

  function VerdictOn(source: seq<Token>, target: seq<Token>, k: Kind): Verdict {
    var a, b := Values(source, k), Values(target, k);
    if a == {} && b == {} then Unmentioned
    else if a == {} then MissingInSource
    else if b == {} then MissingInTarget
    else if a == b then Matching
    else Conflict
  }

  function UnionWeight(source: seq<Token>, target: seq<Token>, kinds: seq<Kind>): real {
    if kinds == [] then 0.0
    else
      var n := |kinds| - 1;
      UnionWeight(source, target, kinds[..n]) +
        (if VerdictOn(source, target, kinds[n]).Unmentioned? then 0.0 else Weight(kinds[n]))
  }

  function CommonWeight(source: seq<Token>, target: seq<Token>, kinds: seq<Kind>): real {
    if kinds == [] then 0.0
    else
      var n := |kinds| - 1;
      CommonWeight(source, target, kinds[..n]) +
        (if VerdictOn(source, target, kinds[n]).Matching? then Weight(kinds[n]) else 0.0)
  }

  function KindsWith(source: seq<Token>, target: seq<Token>, kinds: seq<Kind>, v: Verdict): seq<Kind> {
    if kinds == [] then []
    else
      var n := |kinds| - 1;
      KindsWith(source, target, kinds[..n], v) + (if VerdictOn(source, target, kinds[n]) == v then [kinds[n]] else [])
  }

  /** What both sides say about the manufacturer's part number or brand. */
  datatype Identifier = Identifier(kind: Kind, source: set<string>, target: set<string>, matched: bool)

  datatype Comparison = Comparison(
    score: real,
    similarity: real,
    full: bool,
    matched: seq<Kind>,
    missingInTarget: seq<Kind>,
    missingInSource: seq<Kind>,
    conflicts: seq<Kind>,
    identifiers: seq<Identifier>)

  function Similarity(source: seq<Token>, target: seq<Token>): real {
    if KindsWith(source, target, SPEC_KINDS, Conflict) != [] || UnionWeight(source, target, SPEC_KINDS) <= 0.0 then 0.0
    else CommonWeight(source, target, SPEC_KINDS) / UnionWeight(source, target, SPEC_KINDS)
  }

  function AtMostOne(x: real): real {
    if x > 1.0 then 1.0 else x
  }

  /** Equal values, empty ones included, in every kind of the specification. */
  predicate SameSpecification(source: seq<Token>, target: seq<Token>) {
    forall k :: k in SPEC_KINDS ==> Values(source, k) == Values(target, k)
  }

  /** A raw similarity weighed by the strength of the source's evidence. */
  function Rated(raw: real, source: seq<Token>): real {
    Round4(AtMostOne(raw * Strength(source)))
  }

  function Score(source: seq<Token>, target: seq<Token>): real {
    Rated(Similarity(source, target), source)
  }

  lemma {:induction false} KindsWithExactly(source: seq<Token>, target: seq<Token>, kinds: seq<Kind>, v: Verdict,
                                            k: Kind)
    ensures k in KindsWith(source, target, kinds, v) <==> k in kinds && VerdictOn(source, target, k) == v
    decreases |kinds|
  {
    hide VerdictOn;
    if kinds != [] {
      var n := |kinds| - 1;
      assert kinds == kinds[..n] + [kinds[n]];
      KindsWithExactly(source, target, kinds[..n], v, k);
    }
  }

  /** Evidence depends on the specification alone. */
  lemma SameEvidence(source: seq<Token>, target: seq<Token>)
    requires SameSpecification(source, target)
    ensures Telling(source) == Telling(target) && (AutoEligible(source) <==> AutoEligible(target))
  {
    hide SPEC_KINDS;
  }

  lemma SomethingListed(kinds: seq<Kind>)
    ensures kinds == [] || exists k :: k in kinds
  {
    if kinds != [] {
      assert kinds[0] in kinds;
    }
  }

  /** No conflict and nothing missing on either side means equal specifications. */
  lemma FullSignature(source: seq<Token>, target: seq<Token>)
    ensures && KindsWith(source, target, SPEC_KINDS, Conflict) == []
            && KindsWith(source, target, SPEC_KINDS, MissingInTarget) == []
            && KindsWith(source, target, SPEC_KINDS, MissingInSource) == []
            && AutoEligible(source) && AutoEligible(target)
            <==> AutoEligible(source) && SameSpecification(source, target)
  {
    hide SPEC_KINDS, AutoEligible, Telling;
    var bad := {Conflict, MissingInTarget, MissingInSource};
    forall k, v | v in bad
      ensures k in KindsWith(source, target, SPEC_KINDS, v) <==> k in SPEC_KINDS && VerdictOn(source, target, k) == v
    {
      KindsWithExactly(source, target, SPEC_KINDS, v, k);
    }
    if SameSpecification(source, target) {
      SameEvidence(source, target);
      forall v | v in bad
        ensures KindsWith(source, target, SPEC_KINDS, v) == []
      {
        var listed := KindsWith(source, target, SPEC_KINDS, v);
        forall k
          ensures k !in listed
        {
          assert k in SPEC_KINDS ==> Values(source, k) == Values(target, k);
        }
        SomethingListed(listed);
      }
    } else {
      var k :| k in SPEC_KINDS && Values(source, k) != Values(target, k);
      assert VerdictOn(source, target, k) in bad;
      assert k in KindsWith(source, target, SPEC_KINDS, VerdictOn(source, target, k));
    }
  }

  // ---- What the evidence and the lists say of the tokens -----------------------------------------

  lemma MainKinds(k: Kind)
    ensures k in MAIN_KINDS <==>
            k in {Category, Package, Capacitance, Resistance, Inductance, Current, Voltage, Power, Frequency}
  {
  }

  lemma RangeKinds(k: Kind)
    ensures k in RANGE_KINDS <==>
            k in {VoltageRange, CurrentRange, PowerRange, FrequencyRange, ImpedanceAtFrequency, Bandwidth, GainDb}
  {
  }

  lemma ToleranceKinds(k: Kind)
    ensures k in TOLERANCE_KINDS <==>
            k in {TolerancePercent, CapacitanceTolerance, ResistanceTolerance, InductanceTolerance, CurrentTolerance,
                  VoltageTolerance, PowerTolerance}
  {
  }

  lemma OtherKinds(k: Kind)
    ensures k in OTHER_KINDS <==> k in {Material, Dimension, Length, PinCount, Pitch, CopperWeight, Interface}
  {
  }

  /** The specification is everything but the manufacturer's part number and the brand. */
  lemma SpecKindsExactly(k: Kind)
    ensures k in SPEC_KINDS <==> k !in {Mpn, Brand}
  {
    MainKinds(k);
    RangeKinds(k);
    ToleranceKinds(k);
    OtherKinds(k);
    hide MAIN_KINDS, RANGE_KINDS, TOLERANCE_KINDS, OTHER_KINDS;
  }

  lemma ValuesExactly(tokens: seq<Token>, k: Kind, text: string)
    ensures text in Values(tokens, k) <==> Token(k, text) in tokens
  {
  }

  /** A kind tells parts apart when some token has it, unless it is the category, the part
      number or the brand. */
  lemma TellingExactly(tokens: seq<Token>, k: Kind)
    ensures k in Telling(tokens) <==> k !in {Category, Mpn, Brand} && exists t :: t in tokens && t.kind == k
  {
    hide SPEC_KINDS;
    SpecKindsExactly(k);
    if t :| t in tokens && t.kind == k {
      assert t.normalized in Values(tokens, k);
    }
  }

  /** Eligible for automatic matching: three telling kinds, one of them an anchor. */
  lemma EligibleExactly(tokens: seq<Token>)
    ensures AutoEligible(tokens) <==>
            && |Telling(tokens)| >= 3
            && exists t :: t in tokens && t.kind in {Capacitance, Resistance, Inductance, ImpedanceAtFrequency,
                                                     Bandwidth, Dimension, PinCount, Pitch, CopperWeight}
  {
    hide Telling;
    if k :| k in Telling(tokens) && Anchor(k) {
      TellingExactly(tokens, k);
    }
    if t :| t in tokens && t.kind in {Capacitance, Resistance, Inductance, ImpedanceAtFrequency,
                                      Bandwidth, Dimension, PinCount, Pitch, CopperWeight} {
      TellingExactly(tokens, t.kind);
    }
  }

  /** Two token lists have one specification when, part number and brand aside, they hold the
      same tokens. */
  lemma SpecificationExactly(source: seq<Token>, target: seq<Token>)
    ensures SameSpecification(source, target) <==>
            forall t: Token :: t.kind !in {Mpn, Brand} ==> (t in source <==> t in target)
  {
    hide SPEC_KINDS;
    forall k: Kind
      ensures k in SPEC_KINDS <==> k !in {Mpn, Brand}
    {
      SpecKindsExactly(k);
    }
    hide Values;
    forall k: Kind, text: string
      ensures text in Values(source, k) <==> Token(k, text) in source
      ensures text in Values(target, k) <==> Token(k, text) in target
    {
      ValuesExactly(source, k, text);
      ValuesExactly(target, k, text);
    }
    if SameSpecification(source, target) {
      forall t: Token | t.kind !in {Mpn, Brand}
        ensures t in source <==> t in target
      {
        assert t == Token(t.kind, t.normalized);
        assert t.normalized in Values(source, t.kind) <==> t.normalized in Values(target, t.kind);
      }
    }
  }

  /** The strength of the evidence by the number of telling kinds. */
  lemma StrengthExactly(tokens: seq<Token>)
    ensures Strength(tokens) ==
            match |Telling(tokens)|
            case 0 => 0.0
            case 1 => 0.3333
            case 2 => 0.6667
            case _ => 1.0
  {
    hide Telling;
    var n := |Telling(tokens)|;
    HalfEvenNearest((if n >= 3 then 1.0 else n as real / 3.0) * 10000.0,
                    if n == 0 then 0 else if n == 1 then 3333 else if n == 2 then 6667 else 10000);
  }

  /** The kinds by weight. */
  lemma WeightsExactly(k: Kind)
    ensures Weight(k) == 0.24 <==> k in {Capacitance, Resistance, Inductance}
    ensures Weight(k) == 0.22 <==> k == ImpedanceAtFrequency
    ensures Weight(k) == 0.20 <==> k in {PinCount, Pitch}
    ensures Weight(k) == 0.18 <==> k in {VoltageRange, CurrentRange, Interface}
    ensures Weight(k) == 0.16 <==> k in {PowerRange, FrequencyRange, Bandwidth, CopperWeight}
    ensures Weight(k) == 0.14 <==> k in {Package, Current, Voltage, TolerancePercent, CapacitanceTolerance,
                                         ResistanceTolerance, InductanceTolerance}
    ensures Weight(k) == 0.12 <==> k in {Power, Frequency, CurrentTolerance, VoltageTolerance, PowerTolerance,
                                         Dimension}
    ensures Weight(k) == 0.10 <==> k in {Category, GainDb, Material, Length}
    ensures Weight(k) == 0.08 <==> k == Mpn
    ensures Weight(k) == 0.03 <==> k == Brand
  {
  }

  /** The kinds both sides give the same values, those either side mentions, and those they
      disagree on. */
  function Agreed(source: seq<Token>, target: seq<Token>): set<Kind> {
    set k: Kind | k !in {Mpn, Brand} && Values(source, k) == Values(target, k) != {}
  }

  function Mentioned(source: seq<Token>, target: seq<Token>): set<Kind> {
    set k: Kind | k !in {Mpn, Brand} && Values(source, k) + Values(target, k) != {}
  }

  function Disputed(source: seq<Token>, target: seq<Token>): set<Kind> {
    set k: Kind | k !in {Mpn, Brand} && Values(source, k) != Values(target, k)
                  && Values(source, k) != {} && Values(target, k) != {}
  }

  function WeightOn(kinds: seq<Kind>, chosen: set<Kind>): real {
    if kinds == [] then 0.0
    else WeightOn(kinds[..|kinds| - 1], chosen) +
         (if kinds[|kinds| - 1] in chosen then Weight(kinds[|kinds| - 1]) else 0.0)
  }

  lemma {:induction false} WeightsOn(source: seq<Token>, target: seq<Token>, kinds: seq<Kind>)
    requires forall k :: k in kinds ==> k !in {Mpn, Brand}
    ensures CommonWeight(source, target, kinds) == WeightOn(kinds, Agreed(source, target))
    ensures UnionWeight(source, target, kinds) == WeightOn(kinds, Mentioned(source, target))
    decreases |kinds|
  {
    hide Weight;
    if kinds != [] {
      var n := |kinds| - 1;
      assert kinds[n] in kinds && forall k :: k in kinds[..n] ==> k in kinds;
      WeightsOn(source, target, kinds[..n]);
      assert kinds[n] in Agreed(source, target) <==> VerdictOn(source, target, kinds[n]).Matching?;
      assert kinds[n] in Mentioned(source, target) <==> !VerdictOn(source, target, kinds[n]).Unmentioned?;
    }
  }

  /** The raw similarity: nothing where anything is disputed or nothing is mentioned, otherwise
      the weight of what agrees in the weight of what is mentioned. */
  lemma SimilarityExactly(source: seq<Token>, target: seq<Token>)
    ensures Similarity(source, target) ==
            if Disputed(source, target) != {} || WeightOn(SPEC_KINDS, Mentioned(source, target)) <= 0.0 then 0.0
            else WeightOn(SPEC_KINDS, Agreed(source, target)) / WeightOn(SPEC_KINDS, Mentioned(source, target))
  {
    hide SPEC_KINDS, Weight, WeightOn, CommonWeight, UnionWeight, KindsWith;
    forall k: Kind
      ensures k in SPEC_KINDS <==> k !in {Mpn, Brand}
      ensures k in KindsWith(source, target, SPEC_KINDS, Conflict) <==> k in Disputed(source, target)
    {
      SpecKindsExactly(k);
      KindsWithExactly(source, target, SPEC_KINDS, Conflict, k);
    }
    WeightsOn(source, target, SPEC_KINDS);
    SomethingListed(KindsWith(source, target, SPEC_KINDS, Conflict));
  }

  /** The score is that similarity weighed by the strength of the source's evidence, at most
      one, to four decimals. */
  lemma ScoreExactly(source: seq<Token>, target: seq<Token>)
    ensures var x := Similarity(source, target) * Strength(source);
            RoundedToFour(Score(source, target), if x <= 1.0 then x else 1.0)
  {
    hide Similarity, Strength, Round4, RoundedToFour;
    FourExactly(Score(source, target), AtMostOne(Similarity(source, target) * Strength(source)));
  }

  /** Which kinds are in which list. */
  ghost predicate ListedByValues(source: seq<Token>, target: seq<Token>, matched: seq<Kind>, missingInTarget: seq<Kind>,
                                 missingInSource: seq<Kind>, conflicts: seq<Kind>) {
    forall k: Kind ::
      var a, b, spec := Values(source, k), Values(target, k), k !in {Mpn, Brand};
      && (k in matched <==> spec && a == b != {})
      && (k in missingInTarget <==> spec && a != {} && b == {})
      && (k in missingInSource <==> spec && a == {} && b != {})
      && (k in conflicts <==> spec && a != {} && b != {} && a != b)
  }

  lemma ListsByValues(source: seq<Token>, target: seq<Token>)
    ensures ListedByValues(source, target, KindsWith(source, target, SPEC_KINDS, Matching),
                           KindsWith(source, target, SPEC_KINDS, MissingInTarget),
                           KindsWith(source, target, SPEC_KINDS, MissingInSource),
                           KindsWith(source, target, SPEC_KINDS, Conflict))
  {
    hide SPEC_KINDS, KindsWith, Values;
    var matched := KindsWith(source, target, SPEC_KINDS, Matching);
    var missingInTarget := KindsWith(source, target, SPEC_KINDS, MissingInTarget);
    var missingInSource := KindsWith(source, target, SPEC_KINDS, MissingInSource);
    var conflicts := KindsWith(source, target, SPEC_KINDS, Conflict);
    forall k: Kind
      ensures var a, b, spec := Values(source, k), Values(target, k), k !in {Mpn, Brand};
              && (k in matched <==> spec && a == b != {})
              && (k in missingInTarget <==> spec && a != {} && b == {})
              && (k in missingInSource <==> spec && a == {} && b != {})
              && (k in conflicts <==> spec && a != {} && b != {} && a != b)
    {
      SpecKindsExactly(k);
      KindsWithExactly(source, target, SPEC_KINDS, Matching, k);
      KindsWithExactly(source, target, SPEC_KINDS, MissingInTarget, k);
      KindsWithExactly(source, target, SPEC_KINDS, MissingInSource, k);
      KindsWithExactly(source, target, SPEC_KINDS, Conflict, k);
    }
  }

  method IdentifierEvidence(source: seq<Token>, target: seq<Token>) returns (identifiers: seq<Identifier>)
    ensures forall e :: e in identifiers <==>
              && e.kind in {Mpn, Brand} && e.source == Values(source, e.kind) && e.target == Values(target, e.kind)
              && e.source + e.target != {} && (e.matched <==> e.source == e.target)
  {
    identifiers := [];
    var kinds := [Mpn, Brand];
    for i := 0 to 2
      invariant forall e :: e in identifiers <==>
                  && e.kind in kinds[..i] && e.source == Values(source, e.kind) && e.target == Values(target, e.kind)
                  && e.source + e.target != {} && (e.matched <==> e.source == e.target)
    {
      var k := kinds[i];
      var a, b := Values(source, k), Values(target, k);
      if a != {} || b != {} {
        identifiers := identifiers + [Identifier(k, a, b, a != {} && a == b)];
      }
      assert kinds[..i + 1] == kinds[..i] + [k];
    }
    assert kinds[..2] == kinds;
    assert forall k: Kind :: k in kinds <==> k in {Mpn, Brand};
  }

  /** `compare_tokens`: walks over the kinds and sums up weights. */
  method CompareTokens(source: seq<Token>, target: seq<Token>) returns (c: Comparison)
    ensures c.score == Score(source, target) && c.similarity == Round4(AtMostOne(Similarity(source, target)))
    ensures c.full <==> AutoEligible(source) && SameSpecification(source, target)
    ensures c.matched == KindsWith(source, target, SPEC_KINDS, Matching)
    ensures c.missingInTarget == KindsWith(source, target, SPEC_KINDS, MissingInTarget)
    ensures c.missingInSource == KindsWith(source, target, SPEC_KINDS, MissingInSource)
    ensures c.conflicts == KindsWith(source, target, SPEC_KINDS, Conflict)
    ensures ListedByValues(source, target, c.matched, c.missingInTarget, c.missingInSource, c.conflicts)
    ensures forall e :: e in c.identifiers <==>
              && e.kind in {Mpn, Brand} && e.source == Values(source, e.kind) && e.target == Values(target, e.kind)
              && e.source + e.target != {} && (e.matched <==> e.source == e.target)
  {
    hide SPEC_KINDS, VerdictOn, Weight, AutoEligible, Rated, SameSpecification, ListedByValues;
    var matched: seq<Kind>, missingInTarget: seq<Kind>, missingInSource: seq<Kind>, conflicts: seq<Kind> :=
        [], [], [], [];
    var common, union := 0.0, 0.0;
    for i := 0 to |SPEC_KINDS|
      invariant matched == KindsWith(source, target, SPEC_KINDS[..i], Matching)
      invariant missingInTarget == KindsWith(source, target, SPEC_KINDS[..i], MissingInTarget)
      invariant missingInSource == KindsWith(source, target, SPEC_KINDS[..i], MissingInSource)
      invariant conflicts == KindsWith(source, target, SPEC_KINDS[..i], Conflict)
      invariant common == CommonWeight(source, target, SPEC_KINDS[..i])
      invariant union == UnionWeight(source, target, SPEC_KINDS[..i])
    {
      var k := SPEC_KINDS[i];
      assert SPEC_KINDS[..i + 1][..i] == SPEC_KINDS[..i];
      match VerdictOn(source, target, k) {
        case Unmentioned =>
        case Matching =>
          union, common, matched := union + Weight(k), common + Weight(k), matched + [k];
        case MissingInTarget =>
          union, missingInTarget := union + Weight(k), missingInTarget + [k];
        case MissingInSource =>
          union, missingInSource := union + Weight(k), missingInSource + [k];
        case Conflict =>
          union, conflicts := union + Weight(k), conflicts + [k];
      }
    }
    assert SPEC_KINDS[..|SPEC_KINDS|] == SPEC_KINDS;
    var raw := if conflicts != [] || union <= 0.0 then 0.0 else common / union;
    assert raw == Similarity(source, target);
    FullSignature(source, target);
    ListsByValues(source, target);
    var identifiers := IdentifierEvidence(source, target);
    c := Comparison(
      Rated(raw, source), Round4(AtMostOne(raw)),
      conflicts == [] && missingInTarget == [] && missingInSource == [] && AutoEligible(source) && AutoEligible(target),
      matched, missingInTarget, missingInSource, conflicts, identifiers);
  }

  lemma SelfQuotient(x: real)
    requires x > 0.0
    ensures x / x == 1.0
  {
  }

  lemma {:induction false} SameWeights(source: seq<Token>, target: seq<Token>, kinds: seq<Kind>)
    requires forall k :: k in kinds ==> Values(source, k) == Values(target, k)
    ensures CommonWeight(source, target, kinds) == UnionWeight(source, target, kinds)
    ensures (exists k :: k in kinds && Values(source, k) != {}) ==> UnionWeight(source, target, kinds) > 0.0
    ensures UnionWeight(source, target, kinds) >= 0.0
    decreases |kinds|
  {
    hide Weight;
    if kinds != [] {
      var n := |kinds| - 1;
      assert kinds == kinds[..n] + [kinds[n]];
      SameWeights(source, target, kinds[..n]);
    }
  }

  /** An item with the source's own specification scores one. */
  lemma FullScore(source: seq<Token>, target: seq<Token>)
    requires AutoEligible(source) && SameSpecification(source, target)
    ensures Score(source, target) == 1.0
  {
    hide SPEC_KINDS, Weight, UnionWeight, CommonWeight, KindsWith, Values;
    SameWeights(source, target, SPEC_KINDS);
    var k :| k in Telling(source) && Anchor(k);
    assert k in SPEC_KINDS && Values(source, k) != {};
    FullSignature(source, target);
    SameEvidence(source, target);
    var union := UnionWeight(source, target, SPEC_KINDS);
    SelfQuotient(union);
    assert Similarity(source, target) == 1.0 && Strength(source) == 1.0;
  }

  // ---- Ranking --------------------------------------------------------------------------------

  datatype Item = Item(code: string, tokens: seq<Token>)

  predicate Full(source: seq<Token>, item: Item) {
    AutoEligible(source) && SameSpecification(source, item.tokens)
  }

  /** `a` ranks ahead of `b`: full signature, then score, then code. */
  predicate Ahead(source: seq<Token>, a: Item, b: Item) {
    if Full(source, a) != Full(source, b) then Full(source, a)
    else if Score(source, a.tokens) != Score(source, b.tokens) then Score(source, a.tokens) > Score(source, b.tokens)
    else Before(a.code, b.code)
  }

  /** The first item of the sorted list. */
  function Best(source: seq<Token>, items: seq<Item>): Item
    requires items != []
  {
    var n := |items| - 1;
    if n == 0 then items[0]
    else
      var b := Best(source, items[..n]);
      if Ahead(source, items[n], b) then items[n] else b
  }

  predicate Tied(source: seq<Token>, a: Item, b: Item) {
    && Full(source, a) == Full(source, b)
    && Score(source, a.tokens) - Score(source, b.tokens) < TOLERANCE
    && Score(source, b.tokens) - Score(source, a.tokens) < TOLERANCE
  }

  function Ties(source: seq<Token>, items: seq<Item>, b: Item): seq<Item> {
    if items == [] then []
    else
      var n := |items| - 1;
      Ties(source, items[..n], b) + (if Tied(source, items[n], b) then [items[n]] else [])
  }

  /** 规格不足, 新物料, 疑似匹配 without and with a candidate, 自动匹配 */
  datatype Answer =
    | Insufficient
    | NewItem(confidence: real)
    | Ambiguous(confidence: real, candidates: nat)
    | Suspected(code: string, confidence: real)
    | Automatic(code: string)

  /** `best_match` after the confirmed supplier mappings. */
  function BestMatch(source: seq<Token>, items: seq<Item>): Answer {
    if !Sufficient(source) then Insufficient
    else if items == [] then NewItem(0.0)
    else
      var b := Best(source, items);
      var score, ties := Score(source, b.tokens), Ties(source, items, b);
      if |ties| > 1 && score >= 0.55 then Ambiguous(score, |ties|)
      else if Full(source, b) then Automatic(b.code)
      else if score >= 0.55 then Suspected(b.code, score)
      else NewItem(score)
  }

  ghost predicate DistinctCodes(items: seq<Item>) {
    forall i, j :: 0 <= i < j < |items| ==> items[i].code != items[j].code
  }

  lemma AheadTotal(source: seq<Token>, a: Item, b: Item)
    requires a.code != b.code
    ensures Ahead(source, a, b) <==> !Ahead(source, b, a)
  {
    hide Full, Score;
    BeforeTotal(a.code, b.code);
    if Before(a.code, b.code) {
      BeforeStrict(a.code, b.code);
    } else {
      BeforeStrict(b.code, a.code);
    }
  }

  lemma AheadTransitive(source: seq<Token>, a: Item, b: Item, c: Item)
    requires Ahead(source, a, b) && Ahead(source, b, c)
    ensures Ahead(source, a, c)
  {
    hide Full, Score, Before;
    if Before(a.code, b.code) && Before(b.code, c.code) {
      BeforeTransitive(a.code, b.code, c.code);
    }
  }

  lemma {:induction false} BestIsFirst(source: seq<Token>, items: seq<Item>)
    requires items != [] && DistinctCodes(items)
    ensures Best(source, items) in items
    ensures forall x :: x in items ==> x == Best(source, items) || Ahead(source, Best(source, items), x)
    decreases |items|
  {
    hide Ahead;
    var n := |items| - 1;
    assert items == items[..n] + [items[n]];
    if n > 0 {
      BestIsFirst(source, items[..n]);
      var b := Best(source, items[..n]);
      AheadTotal(source, items[n], b);
      if Ahead(source, items[n], b) {
        forall x | x in items[..n]
          ensures Ahead(source, items[n], x)
        {
          if x != b {
            AheadTransitive(source, items[n], b, x);
          }
        }
      }
    }
  }

  function TiedSet(source: seq<Token>, items: seq<Item>, b: Item): set<Item> {
    set x | x in items && Tied(source, x, b)
  }

  lemma TiedGrows(source: seq<Token>, items: seq<Item>, b: Item)
    requires DistinctCodes(items) && items != []
    ensures var n := |items| - 1;
            var before := TiedSet(source, items[..n], b);
            && items[n] !in before
            && TiedSet(source, items, b) == if Tied(source, items[n], b) then before + {items[n]} else before
  {
    hide Tied;
    var n := |items| - 1;
    assert items == items[..n] + [items[n]];
    assert items[n] !in items[..n];
  }

  lemma NothingTied(source: seq<Token>, b: Item)
    ensures TiedSet(source, [], b) == {}
  {
  }

  lemma {:induction false} TiesListed(source: seq<Token>, items: seq<Item>, b: Item, x: Item)
    ensures x in Ties(source, items, b) <==> x in items && Tied(source, x, b)
    decreases |items|
  {
    hide Tied;
    if items != [] {
      var n := |items| - 1;
      TiesListed(source, items[..n], b, x);
      assert items == items[..n] + [items[n]];
    }
  }

  lemma {:induction false} TiesCounted(source: seq<Token>, items: seq<Item>, b: Item)
    requires DistinctCodes(items)
    ensures |Ties(source, items, b)| == |TiedSet(source, items, b)|
    decreases |items|
  {
    hide Tied, TiedSet;
    if items == [] {
      NothingTied(source, b);
    } else {
      TiesCounted(source, items[..|items| - 1], b);
      TiedGrows(source, items, b);
    }
  }

  lemma TiesExactly(source: seq<Token>, items: seq<Item>, b: Item)
    requires DistinctCodes(items)
    ensures forall x :: x in Ties(source, items, b) <==> x in items && Tied(source, x, b)
    ensures |Ties(source, items, b)| == |TiedSet(source, items, b)|
  {
    hide Tied, TiedSet, Ties, DistinctCodes;
    TiesCounted(source, items, b);
    forall x
      ensures x in Ties(source, items, b) <==> x in items && Tied(source, x, b)
    {
      TiesListed(source, items, b, x);
    }
  }

  lemma SameTied(source: seq<Token>, items: seq<Item>, reordered: seq<Item>, b: Item)
    requires forall x :: x in items <==> x in reordered
    ensures TiedSet(source, items, b) == TiedSet(source, reordered, b)
  {
    hide Tied;
  }

  lemma DistinctItems(items: seq<Item>, a: Item, b: Item)
    requires DistinctCodes(items) && a in items && b in items && a != b
    ensures a.code != b.code
  {
  }

  /** The answer does not depend on the order in which the items are read. */
  lemma OrderIndependent(source: seq<Token>, items: seq<Item>, reordered: seq<Item>)
    requires DistinctCodes(items) && DistinctCodes(reordered)
    requires forall x :: x in items <==> x in reordered
    ensures BestMatch(source, items) == BestMatch(source, reordered)
  {
    hide Ahead, Tied, Score, Sufficient, Full, TiedSet, Ties, Best, DistinctCodes;
    assert items == [] <==> reordered == [] by {
      assert items != [] ==> items[0] in reordered;
      assert reordered != [] ==> reordered[0] in items;
    }
    if items != [] {
      BestIsFirst(source, items);
      BestIsFirst(source, reordered);
      var a, b := Best(source, items), Best(source, reordered);
      if a != b {
        DistinctItems(items, a, b);
        AheadTotal(source, a, b);
      }
      TiesExactly(source, items, a);
      TiesExactly(source, reordered, a);
      SameTied(source, items, reordered, a);
    }
  }

  /** The one item that has the source's specification. */
  ghost predicate OnlyOne(source: seq<Token>, items: seq<Item>, item: Item) {
    item in items && forall x :: x in items ==> (SameSpecification(source, x.tokens) <==> x == item)
  }

  lemma EligibleIsSufficient(source: seq<Token>)
    ensures AutoEligible(source) ==> Sufficient(source)
  {
  }

  lemma TwoOrMore(s: set<Item>, a: Item, b: Item)
    requires a in s && b in s && a != b
    ensures |s| > 1
  {
    assert a in s - {b};
    assert |s - {b}| == |s| - 1;
  }

  /** Items tied with a full signature are exactly the full signatures. */
  lemma FullTies(source: seq<Token>, items: seq<Item>, b: Item)
    requires DistinctCodes(items) && b in items && Full(source, b)
    ensures Score(source, b.tokens) == 1.0
    ensures |Ties(source, items, b)| <= 1 <==> OnlyOne(source, items, b)
  {
    hide AutoEligible, SameSpecification, Score;
    FullScore(source, b.tokens);
    TiesExactly(source, items, b);
    var tied := TiedSet(source, items, b);
    forall x | x in items
      ensures Tied(source, x, b) <==> SameSpecification(source, x.tokens)
    {
      if SameSpecification(source, x.tokens) {
        FullScore(source, x.tokens);
      }
    }
    assert b in tied;
    if OnlyOne(source, items, b) {
      assert tied == {b};
    } else {
      var x :| x in items && SameSpecification(source, x.tokens) && x != b;
      assert {b, x} <= tied;
      TwoOrMore(tied, b, x);
    }
  }

  /** If the first item has no full signature, no item has. */
  lemma NoneFull(source: seq<Token>, items: seq<Item>, b: Item)
    requires b in items && !Full(source, b)
    requires forall x :: x in items ==> x == b || Ahead(source, b, x)
    ensures forall x :: x in items ==> !Full(source, x)
  {
    hide Full, Score;
  }

  /** An item is matched automatically exactly when the source is eligible and that item is
      the only one with the source's specification. */
  lemma AutomaticExactly(source: seq<Token>, items: seq<Item>, item: Item)
    requires DistinctCodes(items) && item in items
    ensures BestMatch(source, items) == Automatic(item.code) <==> AutoEligible(source) && OnlyOne(source, items, item)
  {
    hide Score, AutoEligible, SameSpecification, Sufficient;
    EligibleIsSufficient(source);
    BestIsFirst(source, items);
    var b := Best(source, items);
    TiesExactly(source, items, b);
    if Full(source, b) {
      FullTies(source, items, b);
      if b != item {
        DistinctItems(items, b, item);
      }
    } else {
      NoneFull(source, items, b);
    }
  }

  // ---- Every answer by its own condition ------------------------------------------------------------

  /** A full signature: the source tells enough apart and the item says the same. */
  ghost predicate Complete(source: seq<Token>, x: Item) {
    AutoEligible(source) && SameSpecification(source, x.tokens)
  }

  /** No item is more complete, and none as complete scores higher. */
  ghost predicate Leads(source: seq<Token>, items: seq<Item>, x: Item) {
    && x in items
    && forall y :: y in items ==>
         && (Complete(source, y) ==> Complete(source, x))
         && ((Complete(source, y) <==> Complete(source, x)) ==> Score(source, y.tokens) <= Score(source, x.tokens))
  }

  /** The items as complete as `x` whose score is within 1e-9 of its score. */
  ghost function Near(source: seq<Token>, items: seq<Item>, x: Item): set<Item> {
    set y | y in items && (Complete(source, y) <==> Complete(source, x))
            && -0.000000001 < Score(source, y.tokens) - Score(source, x.tokens) < 0.000000001
  }

  /** The condition of each answer. */
  ghost predicate Justified(source: seq<Token>, items: seq<Item>, a: Answer) {
    match a
    case Insufficient => |Telling(source)| < 2
    case NewItem(c) =>
      && |Telling(source)| >= 2
      && ((items == [] && c == 0.0)
          || exists x :: Leads(source, items, x) && !Complete(source, x) && Score(source, x.tokens) == c < 0.55)
    case Ambiguous(c, n) =>
      && |Telling(source)| >= 2 && n > 1 && c >= 0.55
      && exists x :: Leads(source, items, x) && Score(source, x.tokens) == c && |Near(source, items, x)| == n
    case Suspected(code, c) =>
      && |Telling(source)| >= 2 && c >= 0.55
      && exists x :: Leads(source, items, x) && !Complete(source, x) && x.code == code
                     && Score(source, x.tokens) == c && Near(source, items, x) == {x}
    case Automatic(code) =>
      exists x :: x in items && x.code == code && AutoEligible(source) && OnlyOne(source, items, x)
  }

  lemma BestLeads(source: seq<Token>, items: seq<Item>)
    requires items != [] && DistinctCodes(items)
    ensures Leads(source, items, Best(source, items))
  {
    hide AutoEligible, SameSpecification, Score, DistinctCodes, Best;
    BestIsFirst(source, items);
  }

  /** All leaders are as complete, score the same and have the same items near them. */
  lemma LeadersAgree(source: seq<Token>, items: seq<Item>, x: Item, y: Item)
    requires Leads(source, items, x) && Leads(source, items, y)
    ensures Complete(source, x) <==> Complete(source, y)
    ensures Score(source, x.tokens) == Score(source, y.tokens)
    ensures Near(source, items, x) == Near(source, items, y)
  {
    hide Complete, Score;
  }

  lemma NearIsTied(source: seq<Token>, items: seq<Item>, b: Item)
    requires DistinctCodes(items) && b in items
    ensures Near(source, items, b) == TiedSet(source, items, b) && b in Near(source, items, b)
    ensures |Near(source, items, b)| == |Ties(source, items, b)|
    ensures |Near(source, items, b)| > 1 <==> Near(source, items, b) != {b}
  {
    hide AutoEligible, SameSpecification, Score, Ties, DistinctCodes;
    TiesCounted(source, items, b);
    var near := Near(source, items, b);
    assert b in near;
    if near != {b} {
      var y :| y in near && y != b;
      TwoOrMore(near, b, y);
    }
  }

  lemma LeaderListed(source: seq<Token>, items: seq<Item>, x: Item)
    requires Leads(source, items, x)
    ensures x in items
  {
  }

  /** What the answer is, through any leader. */
  lemma AnswerOf(source: seq<Token>, items: seq<Item>, x: Item)
    requires DistinctCodes(items) && Leads(source, items, x) && Sufficient(source)
    ensures var c, near := Score(source, x.tokens), Near(source, items, x);
            BestMatch(source, items) ==
            if |near| > 1 && c >= 0.55 then Ambiguous(c, |near|)
            else if Complete(source, x) then Automatic(Best(source, items).code)
            else if c >= 0.55 then Suspected(Best(source, items).code, c)
            else NewItem(c)
  {
    hide AutoEligible, SameSpecification, Score, Ties, DistinctCodes, Best, Leads, Near, Sufficient;
    assert items != [] by {
      LeaderListed(source, items, x);
    }
    var b := Best(source, items);
    BestLeads(source, items);
    BestIsFirst(source, items);
    LeadersAgree(source, items, x, b);
    NearIsTied(source, items, b);
  }

  lemma AutomaticCase(source: seq<Token>, items: seq<Item>, code: string)
    requires DistinctCodes(items)
    ensures BestMatch(source, items) == Automatic(code) <==> Justified(source, items, Automatic(code))
  {
    hide AutoEligible, Score, Ties, DistinctCodes, Best, OnlyOne, Sufficient, Full;
    if BestMatch(source, items) == Automatic(code) {
      BestIsFirst(source, items);
      AutomaticExactly(source, items, Best(source, items));
    }
    if x :| x in items && x.code == code && AutoEligible(source) && OnlyOne(source, items, x) {
      AutomaticExactly(source, items, x);
    }
  }

  lemma AnswerJustified(source: seq<Token>, items: seq<Item>)
    requires DistinctCodes(items) && !BestMatch(source, items).Automatic?
    ensures Justified(source, items, BestMatch(source, items))
  {
    hide AutoEligible, SameSpecification, Score, Ties, DistinctCodes, Best, Leads, Near, Complete, OnlyOne, Telling;
    if Sufficient(source) && items != [] {
      var b := Best(source, items);
      BestLeads(source, items);
      BestIsFirst(source, items);
      AnswerOf(source, items, b);
      NearIsTied(source, items, b);
    }
  }

  /** A condition that holds gives its answer. */
  lemma JustifiedAnswers(source: seq<Token>, items: seq<Item>, a: Answer)
    requires DistinctCodes(items) && !a.Automatic? && Justified(source, items, a)
    ensures BestMatch(source, items) == a
  {
    hide AutoEligible, SameSpecification, Score, Ties, DistinctCodes, Best, Leads, Near, Complete, OnlyOne, Telling;
    match a
    case Insufficient =>
    case NewItem(c) =>
      if !(items == [] && c == 0.0) {
        var x :| Leads(source, items, x) && !Complete(source, x) && Score(source, x.tokens) == c < 0.55;
        AnswerOf(source, items, x);
      }
    case Ambiguous(c, n) =>
      var x :| Leads(source, items, x) && Score(source, x.tokens) == c && |Near(source, items, x)| == n;
      AnswerOf(source, items, x);
    case Suspected(code, c) =>
      var x :| Leads(source, items, x) && !Complete(source, x) && x.code == code
               && Score(source, x.tokens) == c && Near(source, items, x) == {x};
      AnswerOf(source, items, x);
      LeaderListed(source, items, x);
      BestLeads(source, items);
      BestIsFirst(source, items);
      LeadersAgree(source, items, x, Best(source, items));
      NearIsTied(source, items, Best(source, items));
      assert Best(source, items) in {x};
  }

  /** The answer is the one whose condition holds: over all items, each answer in both
      directions. */
  lemma AnswerExactly(source: seq<Token>, items: seq<Item>, a: Answer)
    requires DistinctCodes(items)
    ensures BestMatch(source, items) == a <==> Justified(source, items, a)
  {
    hide AutoEligible, SameSpecification, Score, Ties, DistinctCodes, Best, Leads, Near, Telling, BestMatch, Complete,
         OnlyOne, Justified;
    if a.Automatic? {
      AutomaticCase(source, items, a.code);
    } else {
      if BestMatch(source, items) == a {
        AnswerJustified(source, items);
      }
      if Justified(source, items, a) {
        JustifiedAnswers(source, items, a);
      }
    }
  }
}
