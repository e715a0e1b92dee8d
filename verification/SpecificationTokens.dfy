/** Tokens of a specification text: prioritised passes over the text, each claiming spans
    that later passes must leave alone, then inference of the category and removal of
    repeated tokens.

    A pass is what its pattern finds: matches in text order that are not empty and do not
    overlap each other. A match carries the token it stands for, or none when its unit,
    denominator or kind makes the source skip it. */
module SpecificationTokens {
  import opened Wrappers

  datatype Kind =
    | Category | Package | Capacitance | Resistance | Inductance | Current | Voltage | Power | Frequency
    | VoltageRange | CurrentRange | PowerRange | FrequencyRange | ImpedanceAtFrequency | Bandwidth | GainDb
    | TolerancePercent | CapacitanceTolerance | ResistanceTolerance | InductanceTolerance | CurrentTolerance
    | VoltageTolerance | PowerTolerance | Material | Dimension | Length | PinCount | Pitch | CopperWeight
    | Interface | Mpn | Brand

  datatype Token = Token(kind: Kind, normalized: string)

  datatype Match = Match(start: nat, end: nat, token: Option<Token>)

  /** What the patterns find in one text and its fields. The first pass is the absolute
      tolerance, the only one that does not look at claimed spans. */
  datatype Scan = Scan(
    category: Option<Token>,
    passes: seq<seq<Match>>,
    material: Option<Token>,
    interfaces: seq<Token>,
    mpn: Option<Token>,
    brand: Option<Token>)

  predicate Overlap(a: Match, b: Match) {
    a.start < b.end && b.start < a.end
  }

  predicate Covers(m: Match, p: nat) {
    m.start <= p < m.end
  }

  /** Two spans that are not empty overlap exactly when they share a character. */
  lemma OverlapExactly(a: Match, b: Match)
    requires a.start < a.end && b.start < b.end
    ensures Overlap(a, b) <==> exists p :: Covers(a, p) && Covers(b, p)
  {
    if Overlap(a, b) {
      var p := if a.start < b.start then b.start else a.start;
      assert Covers(a, p) && Covers(b, p);
    }
  }

  predicate Misses(m: Match, occupied: seq<Match>) {
    forall i :: 0 <= i < |occupied| ==> !Overlap(m, occupied[i])
  }

  ghost predicate PassOk(pass: seq<Match>) {
    && (forall i :: 0 <= i < |pass| ==> pass[i].start < pass[i].end)
    && (forall i, j :: 0 <= i < j < |pass| ==> pass[i].end <= pass[j].start)
    && (forall m :: m in pass && m.token.Some? ==> m.token.value.kind !in {Category, Material, Interface, Mpn, Brand})
  }

  ghost predicate ScanOk(scan: Scan) {
    && (forall p :: p in scan.passes ==> PassOk(p))
    && (scan.category.Some? ==> scan.category.value.kind == Category)
    && (scan.material.Some? ==> scan.material.value.kind == Material)
    && (forall t :: t in scan.interfaces ==> t.kind == Interface)
    && (scan.mpn.Some? ==> scan.mpn.value.kind == Mpn)
    && (scan.brand.Some? ==> scan.brand.value.kind == Brand)
  }

  // ---- Claims ----------------------------------------------------------------------------

  /** The matches of a pass that hold a token and miss every span in `occupied`. */
  function Kept(pass: seq<Match>, occupied: seq<Match>): seq<Match> {
    if pass == [] then []
    else
      var n := |pass| - 1;
      Kept(pass[..n], occupied) + (if pass[n].token.Some? && Misses(pass[n], occupied) then [pass[n]] else [])
  }

  /** What has been claimed after the first `k` passes. */
  function Claims(passes: seq<seq<Match>>, k: nat): seq<Match>
    requires k <= |passes|
  {
    if k == 0 then []
    else Claims(passes, k - 1) + Kept(passes[k - 1], if k == 1 then [] else Claims(passes, k - 1))
  }

  lemma {:induction false} KeptExactly(pass: seq<Match>, occupied: seq<Match>, m: Match)
    ensures m in Kept(pass, occupied) <==> m in pass && m.token.Some? && Misses(m, occupied)
    decreases |pass|
  {
    if pass != [] {
      var n := |pass| - 1;
      assert pass == pass[..n] + [pass[n]];
      KeptExactly(pass[..n], occupied, m);
    }
  }

  ghost predicate Disjoint(spans: seq<Match>) {
    forall i, j :: 0 <= i < j < |spans| ==> !Overlap(spans[i], spans[j])
  }

  /** Kept matches are in text order, so they end before the next match of their pass. */
  lemma {:induction false} KeptOrdered(pass: seq<Match>, occupied: seq<Match>)
    requires PassOk(pass)
    ensures forall i, j :: 0 <= i < j < |Kept(pass, occupied)| ==>
        Kept(pass, occupied)[i].end <= Kept(pass, occupied)[j].start
    decreases |pass|
  {
    if pass != [] {
      var n := |pass| - 1;
      KeptOrdered(pass[..n], occupied);
      forall m | m in Kept(pass[..n], occupied)
        ensures m.end <= pass[n].start
      {
        KeptExactly(pass[..n], occupied, m);
      }
    }
  }

  lemma KeptJoins(pass: seq<Match>, occupied: seq<Match>)
    requires PassOk(pass) && Disjoint(occupied)
    ensures Disjoint(occupied + Kept(pass, occupied))
  {
    KeptOrdered(pass, occupied);
    forall m | m in Kept(pass, occupied)
      ensures Misses(m, occupied)
    {
      KeptExactly(pass, occupied, m);
    }
    var kept, all := Kept(pass, occupied), occupied + Kept(pass, occupied);
    forall i, j | 0 <= i < j < |all|
      ensures !Overlap(all[i], all[j])
    {
      if j >= |occupied| {
        assert all[j] in kept;
      }
    }
  }

  lemma NothingOverlaps()
    ensures Disjoint([])
  {
  }

  /** Claimed spans never overlap. */
  lemma {:induction false} ClaimsDisjoint(passes: seq<seq<Match>>, k: nat)
    requires k <= |passes| && forall p :: p in passes ==> PassOk(p)
    ensures Disjoint(Claims(passes, k))
  {
    hide Kept, Overlap, Disjoint, PassOk;
    if k == 0 {
      NothingOverlaps();
    } else {
      ClaimsDisjoint(passes, k - 1);
      NothingOverlaps();
      KeptJoins(passes[k - 1], if k == 1 then [] else Claims(passes, k - 1));
      assert [] + Kept(passes[k - 1], []) == Kept(passes[k - 1], []);
    }
  }

  /** A match of a later pass is claimed exactly when it holds a token and misses every span
      the earlier passes claimed; those of the first pass whenever they hold a token. */
  lemma ClaimExactly(passes: seq<seq<Match>>, k: nat, m: Match)
    requires k < |passes|
    ensures m in Claims(passes, k + 1) <==>
            || m in Claims(passes, k)
            || (m in passes[k] && m.token.Some? && (k > 0 ==> Misses(m, Claims(passes, k))))
  {
    KeptExactly(passes[k], if k == 0 then [] else Claims(passes, k), m);
  }

  // ---- Dedupe and category -------------------------------------------------------------------

  function TokensOf(claims: seq<Match>): seq<Token> {
    if claims == [] then []
    else
      var n := |claims| - 1;
      TokensOf(claims[..n]) + (if claims[n].token.Some? then [claims[n].token.value] else [])
  }

  function ListOf(t: Option<Token>): seq<Token> {
    if t.Some? then [t.value] else []
  }

  /** The first occurrence of each token, in order. */
  function Dedupe(tokens: seq<Token>): seq<Token> {
    if tokens == [] then []
    else
      var n := |tokens| - 1;
      var rest := Dedupe(tokens[..n]);
      if tokens[n] in rest then rest else rest + [tokens[n]]
  }

  predicate HasKind(tokens: seq<Token>, kind: Kind) {
    exists i :: 0 <= i < |tokens| && tokens[i].kind == kind
  }

  /** The category a text without one is given. */
  function Inferred(tokens: seq<Token>): Option<Token> {
    var cap, res, ind := HasKind(tokens, Capacitance), HasKind(tokens, Resistance), HasKind(tokens, Inductance);
    if cap && !res && !ind then Some(Token(Category, "CAP"))
    else if res && !cap && !ind then Some(Token(Category, "RES"))
    else if ind && !cap && !res then Some(Token(Category, "IND"))
    else if HasKind(tokens, Interface) && (HasKind(tokens, PinCount) || HasKind(tokens, Pitch))
    then Some(Token(Category, "CON"))
    else None
  }

  /** Everything found, before inference and removal of repeats. */
  function Found(scan: Scan): seq<Token> {
    ListOf(scan.category) + TokensOf(Claims(scan.passes, |scan.passes|)) + ListOf(scan.material) + scan.interfaces
    + ListOf(scan.mpn) + ListOf(scan.brand)
  }

  lemma {:induction false} TokensOfExactly(claims: seq<Match>, t: Token)
    ensures t in TokensOf(claims) <==> exists m :: m in claims && m.token == Some(t)
    decreases |claims|
  {
    if claims != [] {
      var n := |claims| - 1;
      assert claims == claims[..n] + [claims[n]];
      TokensOfExactly(claims[..n], t);
      assert claims[n] in claims && forall m :: m in claims[..n] ==> m in claims;
    }
  }

  lemma {:induction false} DedupeFacts(tokens: seq<Token>)
    ensures var r := Dedupe(tokens);
            && (forall t :: t in r <==> t in tokens)
            && (forall i, j :: 0 <= i < j < |r| ==> r[i] != r[j])
            && (tokens != [] ==> r != [] && r[0] == tokens[0])
    decreases |tokens|
  {
    if tokens != [] {
      var n := |tokens| - 1;
      assert tokens == tokens[..n] + [tokens[n]];
      DedupeFacts(tokens[..n]);
    }
  }

  lemma PassKinds(pass: seq<Match>, m: Match)
    requires PassOk(pass) && m in pass && m.token.Some?
    ensures m.token.value.kind !in {Category, Material, Interface, Mpn, Brand}
  {
  }

  lemma {:induction false} ClaimedKinds(passes: seq<seq<Match>>, k: nat, m: Match)
    requires k <= |passes| && m in Claims(passes, k) && forall p :: p in passes ==> PassOk(p)
    ensures m.token.Some? && m.token.value.kind !in {Category, Material, Interface, Mpn, Brand}
    decreases k
  {
    hide PassOk, Misses, Kept;
    ClaimExactly(passes, k - 1, m);
    if m in Claims(passes, k - 1) {
      ClaimedKinds(passes, k - 1, m);
    } else {
      assert passes[k - 1] in passes;
      PassKinds(passes[k - 1], m);
    }
  }

  /** Of everything found, only the scan's own category is one. */
  lemma FoundCategory(scan: Scan, t: Token)
    requires ScanOk(scan) && t in Found(scan) && t.kind == Category
    ensures scan.category == Some(t)
  {
    var claims := Claims(scan.passes, |scan.passes|);
    if t in TokensOf(claims) {
      TokensOfExactly(claims, t);
      var m :| m in claims && m.token == Some(t);
      ClaimedKinds(scan.passes, |scan.passes|, m);
    }
  }

  // ---- The extraction ----------------------------------------------------------------------------

  lemma KeptNothing(occupied: seq<Match>)
    ensures Kept([], occupied) == [] && TokensOf([]) == []
  {
  }

  lemma MissesNothing(m: Match)
    ensures Misses(m, [])
  {
  }

  lemma KeptStep(pass: seq<Match>, i: nat, occupied: seq<Match>)
    requires i < |pass|
    ensures var kept, more := Kept(pass[..i], occupied), Kept(pass[..i + 1], occupied);
            && (occupied == [] ==> Misses(pass[i], occupied))
            && if pass[i].token.Some? && Misses(pass[i], occupied)
               then more == kept + [pass[i]] && TokensOf(more) == TokensOf(kept) + [pass[i].token.value]
               else more == kept
  {
    hide Misses;
    assert pass[..i + 1][..i] == pass[..i];
    var kept := Kept(pass[..i], occupied);
    assert (kept + [pass[i]])[..|kept|] == kept;
    MissesNothing(pass[i]);
  }

  /** The spans a pass itself has claimed never stop its next match. */
  lemma LaterMisses(pass: seq<Match>, i: nat, occupied: seq<Match>)
    requires PassOk(pass) && i < |pass|
    ensures Misses(pass[i], occupied + Kept(pass[..i], occupied)) <==> Misses(pass[i], occupied)
  {
    var kept := Kept(pass[..i], occupied);
    forall k | 0 <= k < |kept|
      ensures !Overlap(pass[i], kept[k])
    {
      KeptExactly(pass[..i], occupied, kept[k]);
    }
    var all := occupied + kept;
    if Misses(pass[i], all) {
      forall k | 0 <= k < |occupied|
        ensures !Overlap(pass[i], occupied[k])
      {
        assert all[k] == occupied[k];
      }
    }
  }

  /** One pass over the text, checking each match against all spans claimed so far. */
  method RunPass(pass: seq<Match>, checked: bool, tokens: seq<Token>, occupied: seq<Match>)
    returns (tokens': seq<Token>, occupied': seq<Match>)
    requires PassOk(pass) && (checked || occupied == [])
    ensures occupied' == occupied + Kept(pass, occupied)
    ensures tokens' == tokens + TokensOf(Kept(pass, occupied))
  {
    hide Kept, TokensOf, Misses, PassOk;
    KeptNothing(occupied);
    tokens', occupied' := tokens, occupied;
    for i := 0 to |pass|
      invariant occupied' == occupied + Kept(pass[..i], occupied)
      invariant tokens' == tokens + TokensOf(Kept(pass[..i], occupied))
    {
      LaterMisses(pass, i, occupied);
      KeptStep(pass, i, occupied);
      if (!checked || Misses(pass[i], occupied')) && pass[i].token.Some? {
        tokens' := tokens' + [pass[i].token.value];
        occupied' := occupied' + [pass[i]];
      }
    }
    assert pass[..|pass|] == pass;
  }

  lemma {:induction false} TokensJoin(a: seq<Match>, b: seq<Match>)
    ensures TokensOf(a + b) == TokensOf(a) + TokensOf(b)
    decreases |b|
  {
    if b == [] {
      assert a + b == a;
    } else {
      var n := |b| - 1;
      assert (a + b)[..|a + b| - 1] == a + b[..n];
      TokensJoin(a, b[..n]);
    }
  }

  method RunPasses(passes: seq<seq<Match>>, tokens: seq<Token>) returns (r: seq<Token>, occupied: seq<Match>)
    requires forall p :: p in passes ==> PassOk(p)
    ensures occupied == Claims(passes, |passes|)
    ensures r == tokens + TokensOf(occupied)
  {
    hide PassOk, Kept, Misses;
    r, occupied := tokens, [];
    for k := 0 to |passes|
      invariant occupied == Claims(passes, k) && r == tokens + TokensOf(occupied)
    {
      ghost var before := occupied;
      assert passes[k] in passes;
      r, occupied := RunPass(passes[k], k > 0, r, occupied);
      TokensJoin(before, Kept(passes[k], before));
    }
  }

  method RemoveRepeats(tokens: seq<Token>) returns (r: seq<Token>)
    ensures r == Dedupe(tokens)
  {
    r := [];
    for i := 0 to |tokens|
      invariant r == Dedupe(tokens[..i])
    {
      assert tokens[..i + 1][..i] == tokens[..i];
      if tokens[i] !in r {
        r := r + [tokens[i]];
      }
    }
    assert tokens[..|tokens|] == tokens;
  }

  lemma OnlyCategory(scan: Scan)
    requires ScanOk(scan)
    ensures HasKind(Found(scan), Category) <==> scan.category.Some?
    ensures forall t :: t in Found(scan) && t.kind == Category ==> scan.category == Some(t)
  {
    hide Claims, TokensOf;
    forall t | t in Found(scan) && t.kind == Category
      ensures scan.category == Some(t)
    {
      FoundCategory(scan, t);
    }
    if HasKind(Found(scan), Category) {
      var i :| 0 <= i < |Found(scan)| && Found(scan)[i].kind == Category;
      assert Found(scan)[i] in Found(scan);
    }
    if scan.category.Some? {
      assert Found(scan)[0] == scan.category.value;
    }
  }

  lemma OneCategory(scan: Scan, tokens: seq<Token>, r: seq<Token>)
    requires ScanOk(scan)
    requires tokens == if scan.category.Some? then Found(scan) else ListOf(Inferred(Found(scan))) + Found(scan)
    requires forall t :: t in r <==> t in tokens
    requires forall i, j :: 0 <= i < j < |r| ==> r[i] != r[j]
    ensures forall i, j :: 0 <= i < |r| && 0 <= j < |r| && r[i].kind == r[j].kind == Category ==> i == j
  {
    hide Found, Inferred;
    OnlyCategory(scan);
    forall i, j | 0 <= i < |r| && 0 <= j < |r| && r[i].kind == r[j].kind == Category
      ensures i == j
    {
      assert r[i] in tokens && r[j] in tokens;
    }
  }

  ghost predicate Mentions(tokens: seq<Token>, kind: Kind) {
    exists t :: t in tokens && t.kind == kind
  }

  /** The category of a text that names none, by the other tokens of the result: the one
      passive value there is, or a connector by its interface and its pins or pitch. */
  ghost predicate CategoryByTokens(r: seq<Token>) {
    var cap, res, ind := Mentions(r, Capacitance), Mentions(r, Resistance), Mentions(r, Inductance);
    var one := (cap && !res && !ind) || (res && !cap && !ind) || (ind && !cap && !res);
    && (Token(Category, "CAP") in r <==> cap && !res && !ind)
    && (Token(Category, "RES") in r <==> res && !cap && !ind)
    && (Token(Category, "IND") in r <==> ind && !cap && !res)
    && (Token(Category, "CON") in r <==>
          !one && Mentions(r, Interface) && (Mentions(r, PinCount) || Mentions(r, Pitch)))
    && (forall t :: t in r && t.kind == Category ==> t.normalized in {"CAP", "RES", "IND", "CON"} && r[0] == t)
  }

  lemma HasKindIsMention(tokens: seq<Token>, kind: Kind)
    ensures HasKind(tokens, kind) <==> Mentions(tokens, kind)
  {
  }

  lemma NoCategoryIn(found: seq<Token>, t: Token)
    requires !Mentions(found, Category) && t.kind == Category
    ensures t !in found
  {
  }

  lemma SameMentions(r: seq<Token>, found: seq<Token>, c: Option<Token>, kind: Kind)
    requires forall t :: t in r <==> t in ListOf(c) + found
    requires (c.Some? ==> c.value.kind == Category) && kind != Category
    ensures Mentions(r, kind) <==> Mentions(found, kind)
  {
    forall t: Token | t.kind == kind
      ensures t in r <==> t in found
    {
      assert t in r <==> t in ListOf(c) + found;
    }
  }

  lemma InferredByTokens(found: seq<Token>, r: seq<Token>)
    requires !HasKind(found, Category)
    requires r == Dedupe(ListOf(Inferred(found)) + found)
    ensures CategoryByTokens(r)
  {
    hide Dedupe, Mentions, HasKind;
    var c := Inferred(found);
    var all := ListOf(c) + found;
    DedupeFacts(all);
    forall kind: Kind
      ensures kind != Category ==> (Mentions(r, kind) <==> HasKind(found, kind))
      ensures HasKind(found, kind) <==> Mentions(found, kind)
    {
      HasKindIsMention(found, kind);
      if kind != Category {
        SameMentions(r, found, c, kind);
      }
    }
    forall t: Token | t.kind == Category
      ensures t in r <==> c == Some(t)
    {
      NoCategoryIn(found, t);
      assert t in r <==> t in all;
    }
    if c.Some? {
      assert all[0] == c.value;
    }
  }

  /** The tokens found, the inferred category in front if there was none, repeats removed:
      no token occurs twice and at most one is a category. */
  method ExtractTokens(scan: Scan) returns (r: seq<Token>)
    requires ScanOk(scan)
    ensures var all := if scan.category.Some? then Found(scan) else ListOf(Inferred(Found(scan))) + Found(scan);
            r == Dedupe(all)
    ensures forall i, j :: 0 <= i < j < |r| ==> r[i] != r[j]
    ensures forall i, j :: 0 <= i < |r| && 0 <= j < |r| && r[i].kind == r[j].kind == Category ==> i == j
    ensures forall t :: t in r <==> t in Found(scan) || (scan.category.None? && Inferred(Found(scan)) == Some(t))
    ensures scan.category.None? ==> CategoryByTokens(r)
    ensures scan.category.Some? ==> r != [] && r[0] == scan.category.value
  {
    hide Claims, Inferred, TokensOf, Dedupe, HasKind, PassOk;
    var tokens := ListOf(scan.category);
    var occupied;
    tokens, occupied := RunPasses(scan.passes, tokens);
    tokens := tokens + ListOf(scan.material) + scan.interfaces + ListOf(scan.mpn) + ListOf(scan.brand);
    assert tokens == Found(scan);
    OnlyCategory(scan);
    if !HasKind(tokens, Category) {
      tokens := ListOf(Inferred(tokens)) + tokens;
    }
    r := RemoveRepeats(tokens);
    DedupeFacts(tokens);
    OneCategory(scan, tokens, r);
    if scan.category.None? {
      InferredByTokens(Found(scan), r);
    }
  }

  lemma ClaimedIsFound(scan: Scan, m: Match)
    requires m in Claims(scan.passes, |scan.passes|) && m.token.Some?
    ensures m.token.value in Found(scan)
  {
    hide Claims, TokensOf;
    TokensOfExactly(Claims(scan.passes, |scan.passes|), m.token.value);
  }

  lemma {:induction false} ClaimStays(passes: seq<seq<Match>>, k: nat, n: nat, m: Match)
    requires k <= n <= |passes| && m in Claims(passes, k)
    ensures m in Claims(passes, n)
    decreases n
  {
    if k < n {
      ClaimStays(passes, k, n - 1, m);
    }
  }

  /** The kinds that only claiming passes yield. */
  predicate PassKind(kind: Kind) {
    kind !in {Category, Material, Interface, Mpn, Brand}
  }

  lemma InferredKind(tokens: seq<Token>)
    ensures Inferred(tokens).Some? ==> Inferred(tokens).value.kind == Category
  {
  }

  /** A token of such a kind is in the result exactly when one of its matches was claimed. */
  lemma ClaimedExactly(scan: Scan, t: Token, r: seq<Token>)
    requires ScanOk(scan) && PassKind(t.kind)
    requires forall t :: t in r <==> t in Found(scan) || (scan.category.None? && Inferred(Found(scan)) == Some(t))
    ensures t in r <==> exists m :: m in Claims(scan.passes, |scan.passes|) && m.token == Some(t)
  {
    hide Inferred, Claims, TokensOf, PassOk;
    InferredKind(Found(scan));
    TokensOfExactly(Claims(scan.passes, |scan.passes|), t);
  }

  /** The whole of it: claimed spans are disjoint, a match that misses the earlier claims
      reaches the result, one that does not meets such a claim, and a token of a claiming pass
      is in the result exactly when one of its matches was claimed. */
  lemma ExtractionIsPrioritised(scan: Scan, k: nat, m: Match, r: seq<Token>)
    requires ScanOk(scan) && k < |scan.passes| && m in scan.passes[k] && m.token.Some?
    requires forall t :: t in r <==> t in Found(scan) || (scan.category.None? && Inferred(Found(scan)) == Some(t))
    ensures Disjoint(Claims(scan.passes, |scan.passes|))
    ensures k == 0 || Misses(m, Claims(scan.passes, k)) ==>
        m in Claims(scan.passes, |scan.passes|) && m.token.value in r
    ensures k > 0 && !Misses(m, Claims(scan.passes, k)) ==>
              exists c :: c in Claims(scan.passes, k) && Overlap(m, c)
    ensures forall t: Token :: PassKind(t.kind) ==>
        (t in r <==> exists c :: c in Claims(scan.passes, |scan.passes|) && c.token == Some(t))
  {
    hide Inferred, Claims, Disjoint, Overlap, PassOk, Found, PassKind;
    forall t: Token | PassKind(t.kind)
      ensures t in r <==> exists c :: c in Claims(scan.passes, |scan.passes|) && c.token == Some(t)
    {
      ClaimedExactly(scan, t, r);
    }
    ClaimsDisjoint(scan.passes, |scan.passes|);
    ClaimExactly(scan.passes, k, m);
    if k == 0 || Misses(m, Claims(scan.passes, k)) {
      ClaimStays(scan.passes, k + 1, |scan.passes|, m);
      ClaimedIsFound(scan, m);
    }
  }
}
