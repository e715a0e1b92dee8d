/** The authorization matrix's closure of source files over their resolvable imports: a
    worklist that marks a file when it is taken, so a file may wait several times.

    Paths are relative to the repository root. Scanning a file for import specifiers and
    joining path segments are parameters of the model. */
module DependencyClosure {
  import opened Wrappers
  import opened Walks
  import opened TextOrder

  const LIBRARY := "app/lib"

  datatype Repository = Repository(
    imports: map<string, seq<string>>,
    locate: (string, string) -> string,
    index: string -> string,
    normal: string -> string)

  predicate StartsWith(s: string, prefix: string) {
    |prefix| <= |s| && s[..|prefix|] == prefix
  }

  /** The text after the last slash. */
  function Basename(path: string): (r: string)
    ensures |r| <= |path|
    decreases |path|
  {
    if path == [] || path[|path| - 1] == '/' then []
    else Basename(path[..|path| - 1]) + [path[|path| - 1]]
  }

  predicate HasExtension(path: string) {
    exists i :: 0 < i < |Basename(path)| && Basename(path)[i] == '.'
  }

  function Candidates(repo: Repository, source: string, specifier: string): seq<string> {
    var candidate := repo.locate(source, specifier);
    if HasExtension(candidate) then [candidate] else [candidate + ".ts", repo.index(candidate)]
  }

  predicate Usable(repo: Repository, path: string) {
    StartsWith(path, LIBRARY) && path in repo.imports
  }

  function FirstUsable(repo: Repository, options: seq<string>): (r: Option<string>)
    ensures r.None? <==> forall i :: 0 <= i < |options| ==> !Usable(repo, options[i])
    ensures r.Some? ==> Usable(repo, r.value) && r.value in options
    ensures r.Some? && |options| > 0 && Usable(repo, options[0]) ==> r.value == options[0]
  {
    if options == [] then None
    else if Usable(repo, options[0]) then Some(options[0])
    else FirstUsable(repo, options[1..])
  }

  function ResolveImport(repo: Repository, source: string, specifier: string): (r: Option<string>) {
    if StartsWith(specifier, ".") then FirstUsable(repo, Candidates(repo, source, specifier)) else None
  }

  /** Where the last segment of a path starts. */
  lemma {:induction false} BasenameFrom(path: string) returns (n: nat)
    ensures n <= |path| && Basename(path) == path[n..] && '/' !in path[n..] && (n > 0 ==> path[n - 1] == '/')
    decreases |path|
  {
    var last := |path| - 1;
    if path == [] || path[last] == '/' {
      n := |path|;
    } else {
      n := BasenameFrom(path[..last]);
      assert path[n..] == path[..last][n..] + [path[last]];
    }
  }

  /** A dot inside the last segment, not at its start. */
  ghost predicate DotInside(path: string) {
    exists i :: 0 < i < |path| && path[i] == '.' && path[i - 1] != '/' && '/' !in path[i..]
  }

  lemma ExtensionExactly(path: string)
    ensures HasExtension(path) <==> DotInside(path)
  {
    var n := BasenameFrom(path);
    if i :| 0 < i < |Basename(path)| && Basename(path)[i] == '.' {
      assert path[n + i] == '.' && path[n..][i - 1] == path[n + i - 1] && path[n + i..] == path[n..][i..];
    }
    if i :| 0 < i < |path| && path[i] == '.' && path[i - 1] != '/' && '/' !in path[i..] {
      assert forall k :: i <= k < |path| ==> path[i..][k - i] == path[k];
      assert i > n;
      assert Basename(path)[i - n] == '.';
    }
  }

  /** A file of the library that can be read. */
  ghost predicate InLibrary(repo: Repository, path: string) {
    path in repo.imports && |path| >= 7 && path[..7] == "app/lib"
  }

  lemma UsableExactly(repo: Repository, path: string)
    ensures Usable(repo, path) <==> InLibrary(repo, path)
  {
  }

  lemma OneOption(repo: Repository, a: string)
    ensures FirstUsable(repo, [a]) == if Usable(repo, a) then Some(a) else None
  {
    hide Usable;
    assert [a][1..] == [];
  }

  lemma TwoOptions(repo: Repository, a: string, b: string)
    ensures FirstUsable(repo, [a, b]) == if Usable(repo, a) then Some(a) else if Usable(repo, b) then Some(b) else None
  {
    hide Usable;
    assert [a, b][1..] == [b];
    OneOption(repo, b);
  }

  /** What an import resolves to: nothing unless it is relative; the path itself where it has an
      extension; else the TypeScript file of that name, or failing that the index of the
      directory. */
  lemma ResolveExactly(repo: Repository, source: string, specifier: string)
    ensures var path := repo.locate(source, specifier);
            ResolveImport(repo, source, specifier) ==
            if specifier == "" || specifier[0] != '.' then None
            else if DotInside(path) then (if InLibrary(repo, path) then Some(path) else None)
            else if InLibrary(repo, path + ".ts") then Some(path + ".ts")
            else if InLibrary(repo, repo.index(path)) then Some(repo.index(path))
            else None
  {
    var path := repo.locate(source, specifier);
    ExtensionExactly(path);
    UsableExactly(repo, path);
    UsableExactly(repo, path + ".ts");
    UsableExactly(repo, repo.index(path));
    OneOption(repo, path);
    TwoOptions(repo, path + ".ts", repo.index(path));
    hide HasExtension, DotInside, Usable, InLibrary, FirstUsable;
    assert StartsWith(specifier, ".") <==> specifier != "" && specifier[0] == '.';
  }

  /** An edge for every import that resolves. */
  function ImportEdges(repo: Repository): set<Edge> {
    set source, specifier | source in repo.imports && specifier in repo.imports[source]
                            && ResolveImport(repo, source, specifier).Some?
      :: Edge(source, ResolveImport(repo, source, specifier).value)
  }

  function Normalised(repo: Repository, roots: seq<string>): seq<string> {
    seq(|roots|, i requires 0 <= i < |roots| => repo.normal(roots[i]))
  }

  // ---- The built-in sort --------------------------------------------------------------------

  ghost predicate StrictlySorted(s: seq<string>) {
    forall i, j :: 0 <= i < j < |s| ==> Before(s[i], s[j])
  }

  lemma HeadFirst(x: string, s: seq<string>)
    requires StrictlySorted(s) && (s == [] || Before(x, s[0]))
    ensures StrictlySorted([x] + s)
  {
    forall j | 0 <= j < |s|
      ensures Before(x, s[j])
    {
      if j > 0 {
        BeforeTransitive(x, s[0], s[j]);
      }
    }
  }

  function Insert(s: seq<string>, x: string): (r: seq<string>)
    requires StrictlySorted(s) && x !in s
    ensures StrictlySorted(r) && forall y :: y in r <==> y in s || y == x
  {
    if s == [] then [x]
    else if Before(x, s[0]) then
      HeadFirst(x, s);
      [x] + s
    else
      BeforeTotal(x, s[0]);
      assert s == [s[0]] + s[1..] && forall y :: y in s[1..] ==> Before(s[0], y);
      HeadFirst(s[0], Insert(s[1..], x));
      [s[0]] + Insert(s[1..], x)
  }

  // ---- The worklist ---------------------------------------------------------------------------

  /** Everything found is reachable, and what a visited file leads to is visited or waiting. */
  ghost predicate Marking(edges: set<Edge>, roots: seq<string>, visited: set<string>, waiting: set<string>) {
    && (forall x :: x in visited + waiting ==> Reachable(edges, roots, x))
    && (forall x :: x in roots ==> x in visited + waiting)
    && (forall e :: e in edges && e.source in visited ==> e.target in visited + waiting)
  }

  function Elements(s: seq<string>): set<string> {
    set x | x in s
  }

  lemma MarkingStarts(edges: set<Edge>, roots: seq<string>)
    ensures Marking(edges, roots, {}, Elements(roots))
  {
    forall x | x in roots
      ensures Reachable(edges, roots, x)
    {
      RootReachable(edges, roots, x);
    }
  }

  lemma MarkingDone(edges: set<Edge>, roots: seq<string>, visited: set<string>)
    requires Marking(edges, roots, visited, {})
    ensures forall x :: x in visited <==> Reachable(edges, roots, x)
  {
    assert Closed(edges, roots, visited);
    ExactlyReachable(edges, roots, visited);
  }

  lemma {:induction false} WalkReadable(repo: Repository, roots: seq<string>, path: seq<string>)
    requires Walk(ImportEdges(repo), path) && path[0] in roots
    ensures path[|path| - 1] in roots || path[|path| - 1] in repo.imports
  {
    if |path| > 1 {
      assert Edge(path[|path| - 2], path[|path| - 1]) in ImportEdges(repo);
    }
  }

  ghost function Imported(repo: Repository, source: string, visited: set<string>,
                          specifiers: seq<string>): set<string> {
    set s | s in specifiers && ResolveImport(repo, source, s).Some? && ResolveImport(repo, source, s).value !in visited
      :: ResolveImport(repo, source, s).value
  }

  lemma NothingImported(repo: Repository, source: string, visited: set<string>)
    ensures Imported(repo, source, visited, []) == {}
  {
  }

  lemma ElementsPush(s: seq<string>, x: string)
    ensures Elements(s + [x]) == Elements(s) + {x}
  {
  }

  lemma ImportedGrows(repo: Repository, source: string, visited: set<string>, specifiers: seq<string>, i: nat)
    requires i < |specifiers|
    ensures var imported := ResolveImport(repo, source, specifiers[i]);
            Imported(repo, source, visited, specifiers[..i + 1]) ==
            Imported(repo, source, visited, specifiers[..i]) +
            (if imported.Some? && imported.value !in visited then {imported.value} else {})
  {
    assert specifiers[..i + 1] == specifiers[..i] + [specifiers[i]];
  }

  lemma ImportedAll(repo: Repository, source: string, visited: set<string>)
    requires source in repo.imports
    ensures Imported(repo, source, visited, repo.imports[source]) ==
            set e | e in ImportEdges(repo) && e.source == source && e.target !in visited :: e.target
  {
    forall x | x in Imported(repo, source, visited, repo.imports[source])
      ensures Edge(source, x) in ImportEdges(repo)
    {
    }
  }

  /** The files one source imports, as the scan of its text meets them. */
  method PushImports(repo: Repository, source: string, visited: set<string>, pending: seq<string>)
    returns (r: seq<string>)
    requires source in repo.imports
    ensures Elements(r) == Elements(pending) +
        (set e | e in ImportEdges(repo) && e.source == source && e.target !in visited :: e.target)
  {
    hide ResolveImport, Imported, Elements, ImportEdges;
    NothingImported(repo, source, visited);
    r := pending;
    var specifiers := repo.imports[source];
    for i := 0 to |specifiers|
      invariant Elements(r) == Elements(pending) + Imported(repo, source, visited, specifiers[..i])
    {
      var imported := ResolveImport(repo, source, specifiers[i]);
      ImportedGrows(repo, source, visited, specifiers, i);
      if imported.Some? && imported.value !in visited {
        ElementsPush(r, imported.value);
        r := r + [imported.value];
      }
    }
    assert specifiers[..|specifiers|] == specifiers;
    ImportedAll(repo, source, visited);
  }

  lemma Revisited(edges: set<Edge>, roots: seq<string>, visited: set<string>, pending: seq<string>, source: string)
    requires Marking(edges, roots, visited, Elements(pending + [source])) && source in visited
    ensures Marking(edges, roots, visited, Elements(pending))
  {
    assert Elements(pending + [source]) == Elements(pending) + {source};
  }

  lemma Visited(edges: set<Edge>, roots: seq<string>, visited: set<string>, pending: seq<string>, longer: seq<string>,
                source: string)
    requires Marking(edges, roots, visited, Elements(pending + [source]))
    requires Elements(longer) == Elements(pending) +
               (set e | e in edges && e.source == source && e.target !in visited + {source} :: e.target)
    ensures Marking(edges, roots, visited + {source}, Elements(longer))
  {
    assert Elements(pending + [source]) == Elements(pending) + {source};
    assert source in Elements(pending + [source]);
    forall e | e in edges && e.source == source
      ensures Reachable(edges, roots, e.target)
    {
      StepReachable(edges, roots, e);
    }
  }

  lemma Unreadable(repo: Repository, roots: seq<string>, visited: set<string>, pending: seq<string>, source: string)
    requires Marking(ImportEdges(repo), roots, visited, Elements(pending + [source])) && source !in repo.imports
    ensures source in roots
  {
    assert source in Elements(pending + [source]);
    assert source in visited + Elements(pending + [source]);
    assert Reachable(ImportEdges(repo), roots, source);
    var path :| LeadsTo(ImportEdges(repo), roots, path, source);
    WalkReadable(repo, roots, path);
  }

  lemma RootsVisited(edges: set<Edge>, roots: seq<string>, visited: set<string>)
    requires Marking(edges, roots, visited, {})
    ensures forall x :: x in roots ==> x in visited
  {
  }

  /** The library sort. */
  method SortPaths(paths: set<string>) returns (r: seq<string>)
    ensures StrictlySorted(r) && forall x :: x in r <==> x in paths
  {
    r := [];
    var todo := paths;
    while todo != {}
      invariant todo <= paths && StrictlySorted(r) && forall x :: x in r <==> x in paths - todo
      decreases |todo|
    {
      var path :| path in todo;
      r := Insert(r, path);
      todo := todo - {path};
    }
  }

  /** The sorted, duplicate-free list of exactly the files reachable from the roots; an
      error exactly when a root cannot be read. */
  method Closure(repo: Repository, roots: seq<string>) returns (r: Result<seq<string>>)
    ensures r.Err? <==> exists x :: x in Normalised(repo, roots) && x !in repo.imports
    ensures r.Err? ==> r.code == "ENOENT"
    ensures r.Ok? ==> StrictlySorted(r.value)
    ensures r.Ok? ==> forall x :: x in r.value <==> Reachable(ImportEdges(repo), Normalised(repo, roots), x)
  {
    hide ImportEdges, Reachable, Marking, StrictlySorted;
    ghost var edges := ImportEdges(repo);
    var start := Normalised(repo, roots);
    var pending := start;
    var visited: set<string> := {};
    MarkingStarts(edges, start);
    while pending != []
      invariant Marking(edges, start, visited, Elements(pending))
      invariant visited <= repo.imports.Keys
      decreases |repo.imports.Keys - visited|, |pending|
    {
      var source := pending[|pending| - 1];
      assert pending == pending[..|pending| - 1] + [source];
      pending := pending[..|pending| - 1];
      if source in visited {
        Revisited(edges, start, visited, pending, source);
      } else {
        if source !in repo.imports {
          Unreadable(repo, start, visited, pending, source);
          return Err("ENOENT");
        }
        ghost var waiting := pending;
        pending := PushImports(repo, source, visited + {source}, pending);
        Visited(edges, start, visited, waiting, pending, source);
        assert repo.imports.Keys - (visited + {source}) == repo.imports.Keys - visited - {source};
        visited := visited + {source};
      }
    }
    assert Elements(pending) == {};
    MarkingDone(edges, start, visited);
    RootsVisited(edges, start, visited);
    var sorted := SortPaths(visited);
    r := Ok(sorted);
  }
}
