/** Walks over a finite relation: reachability and cycles, the vocabulary in which the
    two dependency checks are specified. */
module Walks {

  type Node = string

  datatype Edge = Edge(source: Node, target: Node)

  ghost predicate Walk(edges: set<Edge>, path: seq<Node>) {
    && 0 < |path|
    && forall i, j :: 0 <= i < |path| - 1 && j == i + 1 ==> Edge(path[i], path[j]) in edges
  }

  ghost predicate Cyclic(edges: set<Edge>) {
    exists path :: Walk(edges, path) && 2 <= |path| && path[0] == path[|path| - 1]
  }

  /** `path` leads from one of the roots to `x`. */
  ghost predicate LeadsTo(edges: set<Edge>, roots: seq<Node>, path: seq<Node>, x: Node) {
    Walk(edges, path) && path[0] in roots && path[|path| - 1] == x
  }

  ghost predicate Reachable(edges: set<Edge>, roots: seq<Node>, x: Node) {
    exists path :: LeadsTo(edges, roots, path, x)
  }

  /** `s` holds the roots and whatever its own members lead to. */
  ghost predicate Closed(edges: set<Edge>, roots: seq<Node>, s: set<Node>) {
    && (forall x :: x in roots ==> x in s)
    && (forall e :: e in edges && e.source in s ==> e.target in s)
  }

  lemma RootReachable(edges: set<Edge>, roots: seq<Node>, x: Node)
    requires x in roots
    ensures Reachable(edges, roots, x)
  {
    assert LeadsTo(edges, roots, [x], x);
  }

  lemma StepReachable(edges: set<Edge>, roots: seq<Node>, e: Edge)
    requires e in edges && Reachable(edges, roots, e.source)
    ensures Reachable(edges, roots, e.target)
  {
    var path :| LeadsTo(edges, roots, path, e.source);
    assert LeadsTo(edges, roots, path + [e.target], e.target);
  }

  /** A closed set misses no reachable node. */
  lemma {:induction false} ClosedHoldsWalk(edges: set<Edge>, roots: seq<Node>, s: set<Node>, path: seq<Node>)
    requires Closed(edges, roots, s) && Walk(edges, path) && path[0] in roots
    ensures path[|path| - 1] in s
    decreases |path|
  {
    var n := |path| - 1;
    if n > 0 {
      ClosedHoldsWalk(edges, roots, s, path[..n]);
      assert Edge(path[n - 1], path[n]) in edges;
    }
  }

  /** The reachable nodes are the least set holding the roots and closed under the edges. */
  lemma ReachableLeast(edges: set<Edge>, roots: seq<Node>, s: set<Node>)
    requires forall x :: x in s <==> Reachable(edges, roots, x)
    ensures Closed(edges, roots, s)
    ensures forall t :: Closed(edges, roots, t) ==> s <= t
  {
    forall x | x in roots
      ensures x in s
    {
      RootReachable(edges, roots, x);
    }
    forall e | e in edges && e.source in s
      ensures e.target in s
    {
      StepReachable(edges, roots, e);
    }
    forall t, x | Closed(edges, roots, t) && x in s
      ensures x in t
    {
      var path :| LeadsTo(edges, roots, path, x);
      ClosedHoldsWalk(edges, roots, t, path);
    }
  }

  /** Reachable nodes found one by one are all of them once they are closed. */
  lemma ExactlyReachable(edges: set<Edge>, roots: seq<Node>, s: set<Node>)
    requires Closed(edges, roots, s) && forall x :: x in s ==> Reachable(edges, roots, x)
    ensures forall x :: x in s <==> Reachable(edges, roots, x)
  {
    forall x | Reachable(edges, roots, x)
      ensures x in s
    {
      var path :| LeadsTo(edges, roots, path, x);
      ClosedHoldsWalk(edges, roots, s, path);
    }
  }

  /** A numbering that drops along every edge of a walk drops by at least its length. */
  lemma {:induction false} RankDrops(edges: set<Edge>, rank: map<Node, nat>, path: seq<Node>)
    requires forall e :: e in edges ==> e.source in rank && e.target in rank && rank[e.target] < rank[e.source]
    requires Walk(edges, path) && 2 <= |path|
    ensures path[0] in rank && path[|path| - 1] in rank && rank[path[|path| - 1]] < rank[path[0]]
    decreases |path|
  {
    var n := |path| - 1;
    assert Edge(path[n - 1], path[n]) in edges;
    if n > 1 {
      RankDrops(edges, rank, path[..n]);
    }
  }

  lemma RankedIsAcyclic(edges: set<Edge>, rank: map<Node, nat>)
    requires forall e :: e in edges ==> e.source in rank && e.target in rank && rank[e.target] < rank[e.source]
    ensures !Cyclic(edges)
  {
    forall path | Walk(edges, path) && 2 <= |path|
      ensures path[0] != path[|path| - 1]
    {
      RankDrops(edges, rank, path);
    }
  }

  /** A walk that steps back onto itself closes a cycle. */
  lemma BackEdge(edges: set<Edge>, path: seq<Node>, i: nat)
    requires Walk(edges, path) && i < |path| && Edge(path[|path| - 1], path[i]) in edges
    ensures Cyclic(edges)
  {
    var loop := path[i..] + [path[i]];
    forall k, n | 0 <= k < |loop| - 1 && n == k + 1
      ensures Edge(loop[k], loop[n]) in edges
    {
      if n < |loop| - 1 {
        assert Edge(path[i + k], path[i + n]) in edges;
      }
    }
    assert Walk(edges, loop);
  }
}
