/** Storage roots of an isolated test host: path normalisation, the overlap check and the
    root templates.

    A path keeps its leading slashes the way the path library does: exactly two of them
    are an anchor of their own, any other number is the ordinary root. */
module RootPaths {
  import opened Wrappers

  datatype Anchor = Single | Double

  datatype Path = Path(anchor: Anchor, parts: seq<string>)

  // ---- Text of a path --------------------------------------------------------------------

  function Split(s: string): (r: seq<string>)
    ensures |r| > 0
  {
    if s == [] then [[]]
    else
      var rest := Split(s[1..]);
      if s[0] == '/' then [[]] + rest else [[s[0]] + rest[0]] + rest[1..]
  }

  function Join(parts: seq<string>): string {
    if parts == [] then []
    else if |parts| == 1 then parts[0]
    else parts[0] + "/" + Join(parts[1..])
  }

  /** The parts the path library keeps: empty ones and single dots go. */
  function Kept(parts: seq<string>): seq<string> {
    if parts == [] then []
    else if parts[0] == "" || parts[0] == "." then Kept(parts[1..])
    else [parts[0]] + Kept(parts[1..])
  }

  function Parse(value: string): Path
    requires |value| > 0 && value[0] == '/'
  {
    if |value| > 1 && value[1] == '/' && !(|value| > 2 && value[2] == '/')
    then Path(Double, Kept(Split(value[2..])))
    else Path(Single, Kept(Split(value[1..])))
  }

  function Render(p: Path): string {
    (if p.anchor.Single? then "/" else "//") + Join(p.parts)
  }

  function Utf8Length(s: string): nat {
    if s == [] then 0
    else
      var c := s[0] as int;
      (if c < 0x80 then 1 else if c < 0x800 then 2 else if c < 0x1_0000 then 3 else 4) + Utf8Length(s[1..])
  }

  predicate Printable(s: string) {
    forall c :: c in s ==> c != '\0' && c != '\n' && c != '\r'
  }

  /** `normalized_absolute_path`: the path of a text already in normal form. */
  function NormalizedAbsolute(value: string): Result<Path> {
    if |value| == 0 || value[0] != '/' || Utf8Length(value) > 512 || !Printable(value) then Err("UAT_ROOT_INVALID")
    else
      var p := Parse(value);
      if Render(p) != value || value == "/" || (exists part :: part in p.parts && part in {"", ".", ".."})
      then Err("UAT_ROOT_INVALID")
      else Ok(p)
  }

  predicate PlainPart(part: string) {
    part != "" && part != "." && '/' !in part
  }

  predicate Canonical(p: Path) {
    && (p.anchor.Single? ==> p.parts != [])
    && forall part :: part in p.parts ==> PlainPart(part) && part != ".."
  }

  lemma {:induction false} SplitOne(s: string)
    requires '/' !in s
    ensures Split(s) == [s]
    decreases |s|
  {
    if s != [] {
      SplitOne(s[1..]);
      assert [s[0]] + s[1..] == s;
    }
  }

  lemma {:induction false} SplitHead(s: string, rest: string)
    requires '/' !in s
    ensures Split(s + "/" + rest) == [s] + Split(rest)
    decreases |s|
  {
    var whole := s + "/" + rest;
    if s == [] {
      assert whole[1..] == rest;
    } else {
      SplitHead(s[1..], rest);
      assert whole[1..] == s[1..] + "/" + rest;
      assert [s[0]] + s[1..] == s;
    }
  }

  lemma {:induction false} SplitJoin(parts: seq<string>)
    requires forall part :: part in parts ==> PlainPart(part)
    ensures Kept(Split(Join(parts))) == parts
    decreases |parts|
  {
    if parts == [] {
      assert Split("") == [""];
    } else if |parts| == 1 {
      assert PlainPart(parts[0]);
      SplitOne(parts[0]);
      assert parts == [parts[0]];
    } else {
      SplitJoin(parts[1..]);
      assert PlainPart(parts[0]);
      SplitHead(parts[0], Join(parts[1..]));
      assert ([parts[0]] + Split(Join(parts[1..])))[1..] == Split(Join(parts[1..]));
    }
  }

  lemma {:induction false} JoinStarts(parts: seq<string>)
    requires parts != [] && forall part :: part in parts ==> PlainPart(part)
    ensures Join(parts) != [] && Join(parts)[0] != '/'
  {
    assert PlainPart(parts[0]) && parts[0][0] in parts[0];
  }

  /** Reading back a written path gives the path. */
  lemma ParseRender(p: Path)
    requires forall part :: part in p.parts ==> PlainPart(part)
    requires p.anchor.Single? ==> p.parts != []
    ensures Parse(Render(p)) == p
  {
    SplitJoin(p.parts);
    var text := Render(p);
    if p.parts != [] {
      JoinStarts(p.parts);
    }
    if p.anchor.Single? {
      assert text[1..] == Join(p.parts) && text[1] != '/';
    } else {
      assert text[2..] == Join(p.parts);
    }
  }

  lemma {:induction false} SplitSlashFree(s: string, part: string)
    requires part in Split(s)
    ensures '/' !in part
    decreases |s|
  {
    if s != [] {
      var rest := Split(s[1..]);
      if part in rest {
        SplitSlashFree(s[1..], part);
      } else if s[0] != '/' {
        SplitSlashFree(s[1..], rest[0]);
        assert part in rest[1..] || part == [s[0]] + rest[0];
      }
    }
  }

  lemma {:induction false} KeptPlain(parts: seq<string>)
    ensures forall part :: part in Kept(parts) ==> part in parts && part != "" && part != "."
  {
    if parts != [] {
      KeptPlain(parts[1..]);
    }
  }

  lemma ParsePlain(value: string)
    requires |value| > 0 && value[0] == '/'
    ensures forall part :: part in Parse(value).parts ==> PlainPart(part)
  {
    var pieces := if Parse(value).anchor.Double? then Split(value[2..]) else Split(value[1..]);
    KeptPlain(pieces);
    forall part | part in pieces
      ensures '/' !in part
    {
      SplitSlashFree(if Parse(value).anchor.Double? then value[2..] else value[1..], part);
    }
  }

  /** Accepted texts and canonical paths correspond one to one. */
  lemma NormalizedExactly(value: string, p: Path)
    ensures NormalizedAbsolute(value) == Ok(p) <==>
            && Canonical(p) && value == Render(p) && Utf8Length(value) <= 512
            && forall c :: c in value ==> c !in {'\0', '\n', '\r'}
  {
    if Canonical(p) && value == Render(p) {
      ParseRender(p);
      if p.anchor.Single? {
        JoinStarts(p.parts);
      }
    }
    if NormalizedAbsolute(value) == Ok(p) {
      ParsePlain(value);
    }
  }

  // ---- Overlap ---------------------------------------------------------------------------------

  /** The proper ancestors, nearest first. */
  function Parents(p: Path): seq<Path>
    decreases |p.parts|
  {
    if p.parts == [] then []
    else
      var up := Path(p.anchor, p.parts[..|p.parts| - 1]);
      [up] + Parents(up)
  }

  predicate PathsOverlap(left: Path, right: Path) {
    left == right || left in Parents(right) || right in Parents(left)
  }

  /** `x` is `root` or lies below it. */
  predicate Under(x: Path, root: Path) {
    x.anchor == root.anchor && root.parts <= x.parts
  }

  lemma {:induction false} ParentsAreAbove(p: Path, q: Path)
    ensures q in Parents(p) <==> Under(p, q) && q != p
    decreases |p.parts|
  {
    if p.parts != [] {
      var up := Path(p.anchor, p.parts[..|p.parts| - 1]);
      ParentsAreAbove(up, q);
      if Under(p, q) && q != p {
        assert q.parts == p.parts[..|q.parts|] && p.parts[..|p.parts|] == p.parts;
        assert up.parts[..|q.parts|] == p.parts[..|q.parts|];
      }
      if Under(up, q) {
        assert p.parts[..|q.parts|] == up.parts[..|q.parts|];
      }
    }
  }

  /** Two roots overlap exactly when some path lies at or under both. */
  lemma OverlapMeansShared(left: Path, right: Path)
    ensures PathsOverlap(left, right) <==> exists x :: Under(x, left) && Under(x, right)
  {
    ParentsAreAbove(left, right);
    ParentsAreAbove(right, left);
    if PathsOverlap(left, right) {
      var x := if Under(left, right) then left else right;
      assert Under(x, left) && Under(x, right);
    }
    if x :| Under(x, left) && Under(x, right) {
      if |left.parts| <= |right.parts| {
        assert left.parts == x.parts[..|left.parts|] == right.parts[..|left.parts|];
        assert Under(right, left);
      } else {
        assert right.parts == x.parts[..|right.parts|] == left.parts[..|right.parts|];
        assert Under(left, right);
      }
    }
  }

  // ---- Root lists -----------------------------------------------------------------------------

  const PROTECTED_ROOTS: seq<Path> :=
    [Path(Single, ["etc", "chenyida-erp"]),
     Path(Single, ["var", "lib", "chenyida-erp"]),
     Path(Single, ["var", "backups", "chenyida-erp-v2"])]

  function AllNormalized(values: seq<string>): (r: Result<seq<Path>>)
    ensures r.Ok? <==> forall v :: v in values ==> NormalizedAbsolute(v).Ok?
    ensures r.Ok? ==> |r.value| == |values| && forall i :: 0 <= i < |values| ==>
        NormalizedAbsolute(values[i]) == Ok(r.value[i])
  {
    if values == [] then Ok([])
    else
      match NormalizedAbsolute(values[0])
      case Err(code) => Err(code)
      case Ok(p) =>
        match AllNormalized(values[1..])
        case Err(code) => assert exists v :: v in values[1..] && NormalizedAbsolute(v).Err?; Err(code)
        case Ok(rest) => assert values == [values[0]] + values[1..]; Ok([p] + rest)
  }

  /** The two loops over protected roots and over pairs. */
  function CheckRoots(roots: seq<Path>): Result<seq<Path>> {
    if exists i, k :: 0 <= i < |roots| && 0 <= k < |PROTECTED_ROOTS| && PathsOverlap(roots[i], PROTECTED_ROOTS[k]) then
      Err("UAT_ROOT_OVERLAPS_PROTECTED")
    else if exists i, j :: 0 <= i < j < |roots| && PathsOverlap(roots[i], roots[j]) then Err("UAT_ROOTS_OVERLAP")
    else Ok(roots)
  }

  function ValidateRoots(values: seq<string>): Result<seq<Path>> {
    match AllNormalized(values)
    case Err(code) => Err(code)
    case Ok(roots) => CheckRoots(roots)
  }

  ghost predicate Apart(a: Path, b: Path) {
    forall x :: !(Under(x, a) && Under(x, b))
  }

  lemma ApartExactly(a: Path, b: Path)
    ensures PathsOverlap(a, b) <==> !Apart(a, b)
  {
    OverlapMeansShared(a, b);
  }

  /** Accepted exactly when every text names a canonical path and no path lies at or under
      two of the roots, or under one of them and a protected root. */
  lemma RootsAcceptedExactly(values: seq<string>, roots: seq<Path>)
    ensures ValidateRoots(values) == Ok(roots) <==>
            && |roots| == |values|
            && (forall i :: 0 <= i < |values| ==> NormalizedAbsolute(values[i]) == Ok(roots[i]))
            && (forall i, k :: 0 <= i < |roots| && 0 <= k < |PROTECTED_ROOTS| ==> Apart(roots[i], PROTECTED_ROOTS[k]))
            && (forall i, j :: 0 <= i < j < |roots| ==> Apart(roots[i], roots[j]))
  {
    hide PROTECTED_ROOTS, PathsOverlap, NormalizedAbsolute, Apart;
    forall a, b
      ensures PathsOverlap(a, b) <==> !Apart(a, b)
    {
      ApartExactly(a, b);
    }
    if AllNormalized(values).Ok? && |roots| == |values| && forall i :: 0 <= i < |values| ==>
        NormalizedAbsolute(values[i]) == Ok(roots[i]) {
      assert AllNormalized(values).value == roots;
    }
  }

  /** A character takes as many bytes as its code point has bits for: 7, 11, 16 or 21. */
  lemma Utf8Character(c: char)
    ensures 1 <= Utf8Length([c]) <= 4
    ensures Utf8Length([c]) <= 1 <==> c <= '\U{7F}'
    ensures Utf8Length([c]) <= 2 <==> c <= '\U{7FF}'
    ensures Utf8Length([c]) <= 3 <==> c <= '\U{FFFF}'
  {
    assert Utf8Length([c][1..]) == 0;
  }

  lemma {:induction false} Utf8Joins(a: string, b: string)
    ensures Utf8Length(a + b) == Utf8Length(a) + Utf8Length(b)
    decreases |a|
  {
    if a == [] {
      assert a + b == b;
    } else {
      assert (a + b)[1..] == a[1..] + b;
      Utf8Joins(a[1..], b);
    }
  }

  lemma {:induction false} Utf8Ascii(s: string)
    requires forall i :: 0 <= i < |s| ==> s[i] as int < 0x80
    ensures Utf8Length(s) == |s|
    decreases |s|
  {
    if s != [] {
      Utf8Ascii(s[1..]);
    }
  }

  /** On a host where both anchors lead to the same root directory, a root written with two
      leading slashes escapes the comparison: the protected directory itself is accepted. */
  lemma DoubleSlashEscapes()
    ensures ValidateRoots(["//etc/chenyida-erp"]) == Ok([Path(Double, ["etc", "chenyida-erp"])])
  {
    hide Split, Kept, Utf8Length, NormalizedAbsolute, ValidateRoots;
    var p, text := Path(Double, ["etc", "chenyida-erp"]), "//etc/chenyida-erp";
    assert p.parts[1..] == ["chenyida-erp"];
    assert Render(p) == text;
    Utf8Ascii(text);
    NormalizedExactly(text, p);
    RootsAcceptedExactly([text], [p]);
  }

  /** The directory a path names where both anchors are the same root. */
  function Located(p: Path): seq<string> {
    p.parts
  }

  ghost predicate SameHostApart(a: Path, b: Path) {
    !(Located(a) <= Located(b)) && !(Located(b) <= Located(a))
  }

  /** The comparison is right on such a host when no root is written with two slashes, and
      wrong exactly for two different spellings of nested directories. */
  lemma AnchorsExactly(a: Path, b: Path)
    ensures PathsOverlap(a, b) <==> !SameHostApart(a, b) && a.anchor == b.anchor
  {
    ParentsAreAbove(a, b);
    ParentsAreAbove(b, a);
  }

  // ---- The control plane's templates --------------------------------------------------------

  /** `[a-z0-9]` */
  ghost predicate Alphanumeric(c: char) {
    'a' <= c <= 'z' || '0' <= c <= '9'
  }

  const PROJECT_PREFIX := "chenyida-erp-uat-"

  /** The project name pattern. */
  ghost predicate ProjectName(s: string) {
    && |PROJECT_PREFIX| < |s| <= |PROJECT_PREFIX| + 43
    && s[..|PROJECT_PREFIX|] == PROJECT_PREFIX
    && Alphanumeric(s[|PROJECT_PREFIX|])
    && forall i :: |PROJECT_PREFIX| < i < |s| ==> Alphanumeric(s[i]) || s[i] == '_' || s[i] == '-'
  }

  /** The parts of the seven root templates, in the order of their table. */
  function Template(project: string, i: nat): (parts: seq<string>)
    requires i < 7
    ensures 3 <= |parts| <= 4
  {
    match i
    case 0 => ["etc", project, "runtime-secrets"]
    case 1 => ["etc", project, "operator-credentials"]
    case 2 => ["var", "lib", project, "release-candidate"]
    case 3 => ["var", "lib", project, "release-identity"]
    case 4 => ["var", "lib", project, "postgresql-runtime-privilege-operator"]
    case 5 => ["var", "lib", project, "isolated-uat-one-shot"]
    case 6 => ["var", "backups", project]
  }

  function TemplateRoots(project: string): seq<Path> {
    seq(7, i requires 0 <= i < 7 => Path(Single, Template(project, i)))
  }

  /** The seven expected root texts. */
  function Expected(project: string): seq<string> {
    seq(7, i requires 0 <= i < 7 => Render(TemplateRoots(project)[i]))
  }

  lemma Joins(a: string, b: string, c: string, d: string)
    ensures Join([a, b]) == a + "/" + b
    ensures Join([a, b, c]) == a + "/" + b + "/" + c
    ensures Join([a, b, c, d]) == a + "/" + b + "/" + c + "/" + d
  {
    assert [a, b][1..] == [b] && [b, c][1..] == [c] && [c, d][1..] == [d];
    assert [a, b, c][1..] == [b, c] && [b, c, d][1..] == [c, d] && [a, b, c, d][1..] == [b, c, d];
    assert Join([b, c]) == b + "/" + c && Join([c, d]) == c + "/" + d;
    assert Join([b, c, d]) == b + "/" + (c + "/" + d);
    assert a + "/" + (b + "/" + c) == a + "/" + b + "/" + c;
    assert a + "/" + (b + "/" + (c + "/" + d)) == a + "/" + b + "/" + c + "/" + d;
  }

  lemma Prefixed(first: string, second: string, rest: string)
    ensures "/" + (first + "/" + rest) == "/" + first + "/" + rest
    ensures "/" + (first + "/" + second + "/" + rest) == "/" + first + "/" + second + "/" + rest
  {
  }

  lemma TextOfTwo(a: string, b: string)
    ensures Render(Path(Single, [a, b])) == "/" + a + "/" + b
  {
    hide Join;
    Joins(a, b, "", "");
    Prefixed(a, "", b);
  }

  lemma TextOfThree(a: string, b: string, c: string)
    ensures Render(Path(Single, [a, b, c])) == "/" + a + "/" + (b + "/" + c)
    ensures Render(Path(Single, [a, b, c])) == "/" + a + "/" + b + "/" + c
  {
    hide Join;
    Joins(a, b, c, "");
    Prefixed(a, b, c);
    assert a + "/" + b + "/" + c == a + "/" + (b + "/" + c);
    Prefixed(a, "", b + "/" + c);
  }

  lemma TextOfFour(a: string, b: string, c: string, d: string)
    ensures Render(Path(Single, [a, b, c, d])) == "/" + a + "/" + b + "/" + (c + "/" + d)
  {
    hide Join;
    Joins(a, b, c, d);
    assert a + "/" + b + "/" + c + "/" + d == a + "/" + b + "/" + (c + "/" + d);
    Prefixed(a, b, c + "/" + d);
  }

  lemma Directories()
    ensures "/" + "etc" + "/" == "/etc/" && "/" + "var" + "/" + "lib" + "/" == "/var/lib/"
    ensures "/" + "var" + "/" + "backups" + "/" == "/var/backups/"
  {
  }

  /** The texts of the protected roots. */
  lemma ProtectedTexts()
    ensures |PROTECTED_ROOTS| == 3
    ensures Render(PROTECTED_ROOTS[0]) == "/etc/" + "chenyida-erp"
    ensures Render(PROTECTED_ROOTS[1]) == "/var/lib/" + "chenyida-erp"
    ensures Render(PROTECTED_ROOTS[2]) == "/var/backups/" + "chenyida-erp-v2"
  {
    hide Render;
    Directories();
    TextOfTwo("etc", "chenyida-erp");
    TextOfThree("var", "lib", "chenyida-erp");
    TextOfThree("var", "backups", "chenyida-erp-v2");
  }

  /** The texts of a project's template roots. */
  lemma TemplateTexts(project: string, i: nat)
    requires i < 7
    ensures Expected(project)[i] ==
            match i
            case 0 => "/etc/" + (project + "/" + "runtime-secrets")
            case 1 => "/etc/" + (project + "/" + "operator-credentials")
            case 2 => "/var/lib/" + (project + "/" + "release-candidate")
            case 3 => "/var/lib/" + (project + "/" + "release-identity")
            case 4 => "/var/lib/" + (project + "/" + "postgresql-runtime-privilege-operator")
            case 5 => "/var/lib/" + (project + "/" + "isolated-uat-one-shot")
            case 6 => "/var/backups/" + project
  {
    hide Join;
    Directories();
    var parts := Template(project, i);
    if i < 2 {
      TextOfThree("etc", project, parts[2]);
    } else if i < 6 {
      TextOfFour("var", "lib", project, parts[3]);
    } else {
      TextOfThree("var", "backups", project);
    }
  }

  /** `normalized_path` of the control plane: it counts characters and lets `..` stand. */
  function NormalizedPath(value: string): Result<Path> {
    if |value| == 0 || value[0] != '/' || value == "/" || |value| > 512 then Err("ISOLATED_UAT_ROOT_INVALID")
    else if Render(Parse(value)) != value || !Printable(value) then Err("ISOLATED_UAT_ROOT_INVALID")
    else Ok(Parse(value))
  }

  function ControlRoots(project: string, roots: seq<string>): Result<seq<string>> {
    if roots != Expected(project) then Err("ISOLATED_UAT_ROOT_TEMPLATE_MISMATCH")
    else if exists i :: 0 <= i < |roots| && NormalizedPath(roots[i]).Err? then Err("ISOLATED_UAT_ROOT_INVALID")
    else
      var paths := seq(|roots|, i requires 0 <= i < |roots| =>
                    match NormalizedPath(roots[i]) case Ok(p) => p case Err(_) => Path(Single, []));
      if CheckRoots(paths).Ok? then Ok(roots) else Err("ISOLATED_" + CheckRoots(paths).code)
  }

  lemma PlainProject(project: string)
    requires ProjectName(project)
    ensures PlainPart(project) && project != ".." && Printable(project)
    ensures project != "chenyida-erp" && project != "chenyida-erp-v2"
  {
    forall c | c in project
      ensures c != '/' && c != '\0' && c != '\n' && c != '\r' && c as int < 0x80
    {
      var i :| 0 <= i < |project| && project[i] == c;
      if i < |PROJECT_PREFIX| {
        assert project[i] == project[..|PROJECT_PREFIX|][i];
      }
    }
    assert project[0] == project[..|PROJECT_PREFIX|][0];
    assert project[13] == project[..|PROJECT_PREFIX|][13];
  }

  function Total(parts: seq<string>): nat {
    if parts == [] then 0 else |parts[0]| + Total(parts[1..])
  }

  lemma {:induction false} JoinBounds(parts: seq<string>)
    requires parts != []
    ensures |Join(parts)| == |parts| - 1 + Total(parts)
    decreases |parts|
  {
    if |parts| > 1 {
      JoinBounds(parts[1..]);
    }
  }

  lemma {:induction false} JoinPrintable(parts: seq<string>)
    requires forall part :: part in parts ==> Printable(part)
    ensures Printable(Join(parts))
    decreases |parts|
  {
    if parts != [] {
      assert Printable(parts[0]);
      JoinPrintable(parts[1..]);
    }
  }

  /** A path of a few short plain parts passes the control plane's normalisation. */
  lemma ShortPathNormal(parts: seq<string>)
    requires 1 < |parts| <= 4 && Total(parts) <= 500
    requires forall part :: part in parts ==> PlainPart(part) && Printable(part)
    ensures NormalizedPath(Render(Path(Single, parts))) == Ok(Path(Single, parts))
  {
    hide Join, Parse, PlainPart, Total;
    ParseRender(Path(Single, parts));
    JoinBounds(parts);
    JoinPrintable(parts);
    var text := Render(Path(Single, parts));
    assert |text| > 1;
  }

  lemma {:induction false} TotalBound(parts: seq<string>, n: nat)
    requires forall part :: part in parts ==> |part| <= n
    ensures Total(parts) <= |parts| * n
    decreases |parts|
  {
    if parts != [] {
      TotalBound(parts[1..], n);
      assert |parts[0]| <= n;
      calc {
        |parts| * n;
        n + (|parts| - 1) * n;
      }
    }
  }

  predicate ShortPart(part: string) {
    PlainPart(part) && Printable(part) && |part| <= 60
  }

  lemma ShortWords()
    ensures ShortPart("etc") && ShortPart("var") && ShortPart("lib") && ShortPart("backups")
    ensures ShortPart("runtime-secrets") && ShortPart("operator-credentials")
  {
  }

  lemma LongWords()
    ensures ShortPart("release-candidate") && ShortPart("release-identity") && ShortPart("isolated-uat-one-shot")
  {
  }

  lemma LongestWord()
    ensures ShortPart("postgresql-runtime-privilege-operator")
  {
  }

  lemma PartShort(project: string, i: nat, part: string)
    requires ProjectName(project) && i < 7 && part in Template(project, i)
    ensures ShortPart(part)
  {
    PlainProject(project);
    assert ShortPart(project);
    ShortWords();
    LongWords();
    LongestWord();
    hide ShortPart;
  }

  lemma TemplateNormal(project: string, i: nat)
    requires ProjectName(project) && i < 7
    ensures NormalizedPath(Expected(project)[i]) == Ok(Path(Single, Template(project, i)))
  {
    hide NormalizedPath, Render, Join, PlainPart, Printable, Total, Template;
    var parts := Template(project, i);
    forall part | part in parts
      ensures PlainPart(part) && Printable(part) && |part| <= 60
    {
      PartShort(project, i, part);
    }
    TotalBound(parts, 60);
    ShortPathNormal(parts);
  }

  lemma PartsDiffer(a: Path, b: Path, k: nat)
    requires k < |a.parts| && k < |b.parts| && a.parts[k] != b.parts[k]
    ensures !PathsOverlap(a, b)
  {
    ParentsAreAbove(a, b);
    ParentsAreAbove(b, a);
  }

  /** The place where two template roots part ways. */
  lemma TemplatesApart(project: string, i: nat, j: nat)
    requires i < j < 7
    ensures !PathsOverlap(Path(Single, Template(project, i)), Path(Single, Template(project, j)))
  {
    hide PathsOverlap;
    var a, b := Path(Single, Template(project, i)), Path(Single, Template(project, j));
    assert "etc"[0] != "var"[0] && |"lib"| != |"backups"|;
    PartsDiffer(a, b, if i < 2 then if j < 2 then 2 else 0 else if j < 6 then 3 else 1);
  }

  lemma TemplateUnprotected(project: string, i: nat, k: nat)
    requires ProjectName(project) && i < 7 && k < |PROTECTED_ROOTS|
    ensures !PathsOverlap(Path(Single, Template(project, i)), PROTECTED_ROOTS[k])
  {
    hide PathsOverlap, ProjectName, PlainPart, Printable;
    PlainProject(project);
    var a := Path(Single, Template(project, i));
    assert "etc"[0] != "var"[0] && |"lib"| != |"backups"|;
    PartsDiffer(a, PROTECTED_ROOTS[k],
                if i < 2 then (if k == 0 then 1 else 0)
                else if k == 0 then 0 else if (i < 6) == (k == 1) then 2 else 1);
  }

  lemma TemplatesPass(project: string)
    requires ProjectName(project)
    ensures CheckRoots(TemplateRoots(project)).Ok?
  {
    hide PathsOverlap, ProjectName, PROTECTED_ROOTS, Template;
    forall i, k | 0 <= i < 7 && 0 <= k < |PROTECTED_ROOTS|
      ensures !PathsOverlap(TemplateRoots(project)[i], PROTECTED_ROOTS[k])
    {
      TemplateUnprotected(project, i, k);
    }
    forall i, j | 0 <= i < j < 7
      ensures !PathsOverlap(TemplateRoots(project)[i], TemplateRoots(project)[j])
    {
      TemplatesApart(project, i, j);
    }
  }

  /** For every project name of the pattern the control plane accepts exactly its own seven
      template roots: they are normal, apart from each other and from the protected roots. */
  lemma TemplatesAccepted(project: string, roots: seq<string>)
    requires ProjectName(project)
    ensures ControlRoots(project, roots).Ok? <==> roots == Expected(project)
  {
    hide Template, NormalizedPath, CheckRoots, ProjectName, Render;
    if roots == Expected(project) {
      forall i | 0 <= i < 7
        ensures NormalizedPath(roots[i]) == Ok(TemplateRoots(project)[i])
      {
        TemplateNormal(project, i);
      }
      var paths := seq(|roots|, i requires 0 <= i < |roots| =>
                    match NormalizedPath(roots[i]) case Ok(p) => p case Err(_) => Path(Single, []));
      assert paths == TemplateRoots(project);
      TemplatesPass(project);
    }
  }
}
