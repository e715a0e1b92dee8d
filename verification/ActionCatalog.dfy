/** The action catalog rebuilt from the binding files: the base actions, extended list by
    list with the additional sources of the later bindings. The files themselves are fixed by
    digests; what follows is what the code checks of their parsed contents. */
module ActionCatalog {
  import opened Wrappers

  const ACTION_NAMES: seq<string> := [
    "VERIFY_EXACT_INPUTS",
    "PREPARE_PRIVATE_NAMESPACE_ROOTS",
    "PROVISION_DISTINCT_CREDENTIAL_FILES",
    "START_POSTGRES_ONLY",
    "INITIALIZE_DATABASE_IDENTITY_AND_LOGIN_ROLES",
    "MIGRATE_EMPTY_DATABASE_TO_BOUND_HEAD",
    "RECONCILE_FINAL_RUNTIME_PRIVILEGES",
    "START_BOUND_RUNTIME_SERVICES",
    "VERIFY_AND_PUBLISH_ISOLATED_UAT_EVIDENCE"
  ]

  const REFERENCE_COUNT := 54

  datatype Action = Action(ordinal: int, name: string, sources: seq<string>)

  datatype Extension = Extension(ordinal: int, additions: seq<string>)

  ghost predicate Distinct(paths: seq<string>) {
    forall i, j :: 0 <= i < j < |paths| ==> paths[i] != paths[j]
  }

  predicate Meet(a: seq<string>, b: seq<string>) {
    exists i :: 0 <= i < |a| && a[i] in b
  }

  ghost predicate ActionAcceptable(actions: seq<Action>, i: nat, valid: string -> bool)
    requires i < |actions| && |actions| == |ACTION_NAMES|
  {
    && actions[i].ordinal == i + 1 && actions[i].name == ACTION_NAMES[i]
    && (forall p :: p in actions[i].sources ==> valid(p))
    && Distinct(actions[i].sources)
  }

  /** The base actions are the nine expected ones in order, with valid paths and no repeats. */
  ghost predicate BaseAcceptable(actions: seq<Action>, valid: string -> bool) {
    && |actions| == |ACTION_NAMES|
    && forall i :: 0 <= i < |actions| ==> ActionAcceptable(actions, i, valid)
  }

  function Lists(actions: seq<Action>): (lists: seq<seq<string>>)
    ensures |lists| == |actions| && forall i :: 0 <= i < |actions| ==> lists[i] == actions[i].sources
  {
    seq(|actions|, i requires 0 <= i < |actions| => actions[i].sources)
  }

  /** How many references the lists hold together. */
  function Total(lists: seq<seq<string>>): nat {
    if lists == [] then 0 else |lists[0]| + Total(lists[1..])
  }

  function Additions(extensions: seq<Extension>, n: nat): nat
    requires n <= |extensions|
  {
    if n == 0 then 0 else Additions(extensions, n - 1) + |extensions[n - 1].additions|
  }

  /** What the first `n` extensions add to an action. */
  function Added(extensions: seq<Extension>, n: nat, ordinal: int): seq<string>
    requires n <= |extensions|
  {
    if n == 0 then []
    else Added(extensions, n - 1, ordinal) +
         (if extensions[n - 1].ordinal == ordinal then extensions[n - 1].additions else [])
  }

  /** Extension `n` names an action, valid paths, and none the action already has. */
  ghost predicate Acceptable(base: seq<seq<string>>, extensions: seq<Extension>, n: nat, valid: string -> bool)
    requires n < |extensions|
  {
    var e := extensions[n];
    && 1 <= e.ordinal <= |base|
    && (forall p :: p in e.additions ==> valid(p))
    && (forall p :: p in e.additions ==> p !in base[e.ordinal - 1] && p !in Added(extensions, n, e.ordinal))
  }

  lemma {:induction false} DistinctByCount(paths: seq<string>)
    ensures |set p | p in paths| <= |paths|
    ensures Distinct(paths) <==> |set p | p in paths| == |paths|
  {
    if paths != [] {
      var n := |paths| - 1;
      var rest, last := paths[..n], paths[n];
      DistinctByCount(rest);
      var s := set p | p in rest;
      assert (set p | p in paths) == s + {last};
      if last in s {
        var i :| 0 <= i < n && rest[i] == last;
        assert paths[i] == paths[n];
      } else if Distinct(rest) {
        forall i, j | 0 <= i < j < |paths|
          ensures paths[i] != paths[j]
        {
          assert paths[i] == rest[i] && rest[i] in s;
          assert j < n ==> paths[j] == rest[j];
        }
      } else {
        assert forall i, j :: 0 <= i < j < n ==> rest[i] == paths[i] && rest[j] == paths[j];
      }
    }
  }

  lemma {:induction false} TotalUpdate(lists: seq<seq<string>>, k: nat, more: seq<string>)
    requires k < |lists|
    ensures Total(lists[k := lists[k] + more]) == Total(lists) + |more|
  {
    var updated := lists[k := lists[k] + more];
    if k == 0 {
      assert updated[1..] == lists[1..];
    } else {
      TotalUpdate(lists[1..], k - 1, more);
      assert updated[1..] == lists[1..][k - 1 := lists[1..][k - 1] + more];
    }
  }

  lemma Joined(a: seq<string>, b: seq<string>, c: seq<string>)
    ensures (a + b) + c == a + (b + c) && b + [] == b
  {
  }

  /** Every reference of a base list or an extension is one reference of the extended lists. */
  lemma {:induction false} TotalExtended(base: seq<seq<string>>, extensions: seq<Extension>, n: nat,
                                         lists: seq<seq<string>>)
    requires n <= |extensions| && |lists| == |base|
    requires forall k :: 0 <= k < n ==> 1 <= extensions[k].ordinal <= |base|
    requires forall i :: 0 <= i < |base| ==> lists[i] == base[i] + Added(extensions, n, i + 1)
    ensures Total(lists) == Total(base) + Additions(extensions, n)
    decreases n
  {
    hide Total;
    if n == 0 {
      assert forall i :: 0 <= i < |base| ==> base[i] + [] == base[i];
      assert lists == base;
    } else {
      var before := seq(|base|, i requires 0 <= i < |base| => base[i] + Added(extensions, n - 1, i + 1));
      var e := extensions[n - 1];
      var k := e.ordinal - 1;
      TotalExtended(base, extensions, n - 1, before);
      TotalUpdate(before, k, e.additions);
      forall i | 0 <= i < |base|
        ensures lists[i] == before[k := before[k] + e.additions][i]
      {
        Joined(base[i], Added(extensions, n - 1, i + 1), e.additions);
      }
      assert lists == before[k := before[k] + e.additions];
    }
  }

  method BaseCatalog(actions: seq<Action>, valid: string -> bool) returns (r: Result<seq<seq<string>>>)
    ensures r.Ok? <==> BaseAcceptable(actions, valid)
    ensures r.Ok? ==> r.value == Lists(actions)
  {
    if |actions| != |ACTION_NAMES| {
      return Err("ISOLATED_UAT_ACTION_SOURCE_CLOSURE_ACTION_CATALOG_INVALID");
    }
    var catalog: seq<seq<string>> := [];
    for i := 0 to |actions|
      invariant catalog == Lists(actions)[..i]
      invariant forall k :: 0 <= k < i ==> ActionAcceptable(actions, k, valid)
    {
      var a := actions[i];
      var anyInvalid := exists k :: 0 <= k < |a.sources| && !valid(a.sources[k]);
      DistinctByCount(a.sources);
      if a.ordinal != i + 1 || a.name != ACTION_NAMES[i] || anyInvalid || |a.sources| != |set p | p in a.sources| {
        assert !ActionAcceptable(actions, i, valid);
        return Err("ISOLATED_UAT_ACTION_SOURCE_CLOSURE_ACTION_CATALOG_INVALID");
      }
      catalog := catalog + [a.sources];
    }
    r := Ok(catalog);
  }

  lemma OrdinalInRange(base: seq<seq<string>>, extensions: seq<Extension>, n: nat, valid: string -> bool)
    requires n < |extensions|
    ensures Acceptable(base, extensions, n, valid) ==> 1 <= extensions[n].ordinal <= |base|
  {
  }

  lemma AcceptableExactly(base: seq<seq<string>>, extensions: seq<Extension>, n: nat, valid: string -> bool,
                          sources: seq<string>)
    requires n < |extensions| && 1 <= extensions[n].ordinal <= |base|
    requires sources == base[extensions[n].ordinal - 1] + Added(extensions, n, extensions[n].ordinal)
    ensures Acceptable(base, extensions, n, valid) <==>
            && !(exists i :: 0 <= i < |extensions[n].additions| && !valid(extensions[n].additions[i]))
            && !Meet(sources, extensions[n].additions)
  {
    var e := extensions[n];
    if Meet(sources, e.additions) {
      var i :| 0 <= i < |sources| && sources[i] in e.additions;
      assert sources[i] in base[e.ordinal - 1] || sources[i] in Added(extensions, n, e.ordinal);
    } else {
      forall p | p in e.additions
        ensures p !in sources
      {
      }
    }
  }

  /** Extends the lists in place; stops at the first extension that is not acceptable. */
  method ExtendCatalog(base: seq<seq<string>>, extensions: seq<Extension>, valid: string -> bool)
    returns (r: Result<seq<seq<string>>>)
    ensures r.Ok? <==> forall n :: 0 <= n < |extensions| ==> Acceptable(base, extensions, n, valid)
    ensures r.Ok? ==> |r.value| == |base| && forall i :: 0 <= i < |base| ==>
              r.value[i] == base[i] + Added(extensions, |extensions|, i + 1)
  {
    hide Acceptable;
    var catalog := base;
    for n := 0 to |extensions|
      invariant |catalog| == |base|
      invariant forall i :: 0 <= i < |base| ==> catalog[i] == base[i] + Added(extensions, n, i + 1)
      invariant forall k :: 0 <= k < n ==> Acceptable(base, extensions, k, valid)
    {
      var e := extensions[n];
      OrdinalInRange(base, extensions, n, valid);
      if e.ordinal < 1 || e.ordinal > |catalog| {
        return Err("ISOLATED_UAT_ACTION_SOURCE_CLOSURE_ACTION_CATALOG_INVALID");
      }
      var sources := catalog[e.ordinal - 1];
      var anyInvalid := exists i :: 0 <= i < |e.additions| && !valid(e.additions[i]);
      AcceptableExactly(base, extensions, n, valid, sources);
      if anyInvalid || Meet(sources, e.additions) {
        return Err("ISOLATED_UAT_ACTION_SOURCE_CLOSURE_ACTION_CATALOG_INVALID");
      }
      catalog := catalog[e.ordinal - 1 := sources + e.additions];
    }
    r := Ok(catalog);
  }

  /** Accepts exactly the nine expected actions with extensions that are each acceptable when
      their turn comes, 54 references in all; then each action holds its base followed by all
      its additions. */
  method ReconstructCatalog(actions: seq<Action>, extensions: seq<Extension>, valid: string -> bool)
    returns (r: Result<seq<seq<string>>>)
    ensures r.Ok? <==>
            && BaseAcceptable(actions, valid)
            && (forall n :: 0 <= n < |extensions| ==> Acceptable(Lists(actions), extensions, n, valid))
            && Total(Lists(actions)) + Additions(extensions, |extensions|) == 54
    ensures r.Ok? ==> |r.value| == |actions| && Total(r.value) == 54 && forall i :: 0 <= i < |actions| ==>
              r.value[i] == actions[i].sources + Added(extensions, |extensions|, i + 1)
  {
    hide BaseAcceptable, Total;
    var base := BaseCatalog(actions, valid);
    if base.Err? {
      return base;
    }
    r := ExtendCatalog(base.value, extensions, valid);
    if r.Ok? {
      forall n | 0 <= n < |extensions|
        ensures 1 <= extensions[n].ordinal <= |base.value|
      {
        OrdinalInRange(base.value, extensions, n, valid);
      }
      TotalExtended(base.value, extensions, |extensions|, r.value);
    }
    if r.Ok? && Total(r.value) != REFERENCE_COUNT {
      return Err("ISOLATED_UAT_ACTION_SOURCE_CLOSURE_ACTION_CATALOG_INVALID");
    }
  }

  lemma DistinctJoin(a: seq<string>, b: seq<string>)
    requires forall p :: p in b ==> p !in a
    ensures Distinct(a + b) <==> Distinct(a) && Distinct(b)
  {
    var c := a + b;
    if Distinct(a) && Distinct(b) {
      forall i, j | 0 <= i < j < |c|
        ensures c[i] != c[j]
      {
        if i < |a| <= j {
          assert c[j] in b && c[i] in a;
        }
      }
    }
    if Distinct(c) {
      forall i, j | 0 <= i < j < |a|
        ensures a[i] != a[j]
      {
        assert c[i] == a[i] && c[j] == a[j];
      }
      forall i, j | 0 <= i < j < |b|
        ensures b[i] != b[j]
      {
        assert c[|a| + i] == b[i] && c[|a| + j] == b[j];
      }
    }
  }

  /** The loop compares additions with the list so far, not with each other: a list without
      repeats stays so exactly when every extension of it repeats nothing itself. Which
      extensions there are is fixed by the digests of the files. */
  lemma {:induction false} DistinctExactly(base: seq<seq<string>>, extensions: seq<Extension>, valid: string -> bool,
                                           n: nat, ordinal: int)
    requires n <= |extensions| && 1 <= ordinal <= |base| && Distinct(base[ordinal - 1])
    requires forall k :: 0 <= k < n ==> Acceptable(base, extensions, k, valid)
    ensures Distinct(base[ordinal - 1] + Added(extensions, n, ordinal)) <==>
            forall k :: 0 <= k < n && extensions[k].ordinal == ordinal ==> Distinct(extensions[k].additions)
    decreases n
  {
    hide Distinct;
    if n == 0 {
      assert base[ordinal - 1] + [] == base[ordinal - 1];
    } else {
      DistinctExactly(base, extensions, valid, n - 1, ordinal);
      var e, before := extensions[n - 1], base[ordinal - 1] + Added(extensions, n - 1, ordinal);
      if e.ordinal == ordinal {
        assert Acceptable(base, extensions, n - 1, valid);
        DistinctJoin(before, e.additions);
        assert base[ordinal - 1] + Added(extensions, n, ordinal) == before + e.additions;
      } else {
        assert Added(extensions, n - 1, ordinal) + [] == Added(extensions, n - 1, ordinal);
      }
    }
  }
}
