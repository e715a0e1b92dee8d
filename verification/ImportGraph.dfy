/** The import graph checks of the action source closure: depth-first cycle detection
    with grey and black nodes, and the worklist closure that must cover the members. */
module ImportGraph {
  import opened Walks

  type Adjacency = map<Node, set<Node>>

  function EdgeSet(edges: seq<Edge>): set<Edge> {
    set e | e in edges
  }

  /** The adjacency map holds these edges, no others, and has a row for every endpoint. */
  ghost predicate Represents(graph: Adjacency, edges: set<Edge>) {
    && (forall a, b :: a in graph && b in graph[a] ==> Edge(a, b) in edges)
    && (forall e :: e in edges ==> e.source in graph && e.target in graph && e.target in graph[e.source])
  }

  function Row(graph: Adjacency, x: Node): set<Node> {
    if x in graph then graph[x] else {}
  }

  method BuildGraph(edges: seq<Edge>) returns (graph: Adjacency)
    ensures Represents(graph, EdgeSet(edges))
  {
    graph := map[];
    for i := 0 to |edges|
      invariant Represents(graph, EdgeSet(edges[..i]))
    {
      var e := edges[i];
      graph := graph[e.source := Row(graph, e.source) + {e.target}];
      graph := graph[e.target := Row(graph, e.target)];
      assert EdgeSet(edges[..i + 1]) == EdgeSet(edges[..i]) + {e};
    }
    assert edges[..|edges|] == edges;
  }

  function Elements(stack: seq<Node>): set<Node> {
    set x | x in stack
  }

  /** Every edge out of a finished node leads to a node finished before it. */
  ghost predicate Ranked(edges: set<Edge>, visited: set<Node>, rank: map<Node, nat>) {
    && rank.Keys == visited
    && (forall x :: x in visited ==> rank[x] < |visited|)
    && (forall e :: e in edges && e.source in visited ==> e.target in visited && rank[e.target] < rank[e.source])
  }

  /** The walk `stack` of nodes being visited is grey, finished nodes are black and numbered
      in the order they were finished. */
  ghost predicate SearchOk(edges: set<Edge>, nodes: set<Node>, visiting: set<Node>, visited: set<Node>,
                           rank: map<Node, nat>, stack: seq<Node>) {
    && (stack == [] || Walk(edges, stack))
    && visiting == Elements(stack)
    && visiting <= nodes
    && visited !! visiting
    && Ranked(edges, visited, rank)
  }

  lemma Push(edges: set<Edge>, nodes: set<Node>, visiting: set<Node>, visited: set<Node>,
             rank: map<Node, nat>, stack: seq<Node>, node: Node)
    requires SearchOk(edges, nodes, visiting, visited, rank, stack)
    requires node in nodes && node !in visiting && node !in visited
    requires stack != [] ==> Edge(stack[|stack| - 1], node) in edges
    ensures SearchOk(edges, nodes, visiting + {node}, visited, rank, stack + [node])
  {
    hide Ranked;
  }

  lemma Pop(edges: set<Edge>, nodes: set<Node>, visiting: set<Node>, visited: set<Node>,
            rank: map<Node, nat>, stack: seq<Node>, node: Node)
    requires SearchOk(edges, nodes, visiting, visited, rank, stack + [node]) && node !in stack
    requires forall e :: e in edges && e.source == node ==> e.target in visited
    ensures SearchOk(edges, nodes, visiting - {node}, visited + {node}, rank[node := |visited|], stack)
  {
    var deeper := stack + [node];
    assert node in deeper;
    assert visiting - {node} == Elements(stack);
    assert stack != [] ==> Walk(edges, stack) by {
      hide Ranked;
      forall i, j | 0 <= i < |stack| - 1 && j == i + 1
        ensures Edge(stack[i], stack[j]) in edges
      {
        assert Edge(deeper[i], deeper[j]) in edges;
      }
    }
  }

  lemma Grey(edges: set<Edge>, nodes: set<Node>, visiting: set<Node>, visited: set<Node>,
             rank: map<Node, nat>, stack: seq<Node>, node: Node)
    requires SearchOk(edges, nodes, visiting, visited, rank, stack) && node in visiting
    requires stack != [] ==> Edge(stack[|stack| - 1], node) in edges
    ensures Cyclic(edges)
  {
    hide Ranked, Walk, Cyclic;
    var i: nat :| i < |stack| && stack[i] == node;
    BackEdge(edges, stack, i);
  }

  lemma Greys(edges: set<Edge>, nodes: set<Node>, visiting: set<Node>, visited: set<Node>,
              rank: map<Node, nat>, stack: seq<Node>)
    requires SearchOk(edges, nodes, visiting, visited, rank, stack)
    ensures visiting == Elements(stack) && visiting <= nodes
    ensures Ranked(edges, visited, rank)
  {
  }

  lemma ElementsPush(stack: seq<Node>, node: Node)
    ensures Elements(stack + [node]) == Elements(stack) + {node}
    ensures node !in Elements(stack) ==> node !in stack
  {
  }

  lemma Smaller(nodes: set<Node>, visiting: set<Node>, node: Node)
    requires node in nodes && node !in visiting
    ensures nodes - (visiting + {node}) < nodes - visiting
  {
    assert node in nodes - visiting;
  }

  lemma Follow(graph: Adjacency, edges: set<Edge>, node: Node, target: Node)
    requires Represents(graph, edges) && node in graph && target in graph[node]
    ensures Edge(node, target) in edges && target in graph
  {
    assert Edge(node, target) in edges;
  }

  lemma Follows(graph: Adjacency, edges: set<Edge>, node: Node)
    requires Represents(graph, edges) && node in graph
    ensures forall e :: e in edges && e.source == node ==> e.target in graph[node]
  {
  }

  class DepthFirst {
    const graph: Adjacency
    ghost const edges: set<Edge>
    var visiting: set<Node>
    var visited: set<Node>
    ghost var rank: map<Node, nat>

    ghost predicate Valid(stack: seq<Node>)
      reads this
    {
      Represents(graph, edges) && SearchOk(edges, graph.Keys, visiting, visited, rank, stack)
    }

    constructor (graph: Adjacency, ghost edges: set<Edge>)
      requires Represents(graph, edges)
      ensures Valid([]) && this.graph == graph && this.edges == edges && visited == {}
    {
      this.graph, this.edges := graph, edges;
      visiting, visited, rank := {}, {}, map[];
    }

    /** `stack` is the walk of the visits still running; a failed visit has met one of them. */
    method Visit(node: Node, ghost stack: seq<Node>) returns (ok: bool)
      requires Valid(stack) && node in graph
      requires stack != [] ==> Edge(stack[|stack| - 1], node) in edges
      modifies this
      ensures ok ==> Valid(stack) && node in visited && old(visited) <= visited
      ensures !ok ==> Cyclic(edges)
      decreases graph.Keys - visiting
    {
      hide SearchOk, Cyclic, Represents, Ranked, Elements;
      if node in visiting {
        Grey(edges, graph.Keys, visiting, visited, rank, stack, node);
        return false;
      }
      if node in visited {
        return true;
      }
      Greys(edges, graph.Keys, visiting, visited, rank, stack);
      Push(edges, graph.Keys, visiting, visited, rank, stack, node);
      visiting := visiting + {node};
      ghost var deeper := stack + [node];
      ElementsPush(stack, node);
      ok := true;
      var todo := graph[node];
      while todo != {} && ok
        invariant ok ==> Valid(deeper) && old(visited) <= visited && todo <= graph[node]
        invariant ok ==> forall x :: x in graph[node] && x !in todo ==> x in visited
        invariant !ok ==> Cyclic(edges)
        decreases |todo|
      {
        var target :| target in todo;
        todo := todo - {target};
        Follow(graph, edges, node, target);
        Greys(edges, graph.Keys, visiting, visited, rank, deeper);
        Smaller(graph.Keys, old(visiting), node);
        ok := Visit(target, deeper);
      }
      if ok {
        Greys(edges, graph.Keys, visiting, visited, rank, deeper);
        Follows(graph, edges, node);
        Pop(edges, graph.Keys, visiting, visited, rank, stack, node);
        visiting := visiting - {node};
        rank := rank[node := |visited|];
        visited := visited + {node};
      }
    }
  }

  /** True exactly when the edges have no cycle. */
  method Acyclic(edges: seq<Edge>) returns (ok: bool)
    ensures ok <==> !Cyclic(EdgeSet(edges))
  {
    var graph := BuildGraph(edges);
    var search := new DepthFirst(graph, EdgeSet(edges));
    ok := true;
    var todo := graph.Keys;
    while todo != {} && ok
      invariant ok ==> search.Valid([]) && forall x :: x in graph && x !in todo ==> x in search.visited
      invariant search.graph == graph && search.edges == EdgeSet(edges) && todo <= graph.Keys
      invariant !ok ==> Cyclic(EdgeSet(edges))
      invariant fresh(search)
      decreases |todo|, ok
    {
      var node :| node in todo;
      todo := todo - {node};
      ok := search.Visit(node, []);
    }
    if ok {
      Greys(EdgeSet(edges), graph.Keys, search.visiting, search.visited, search.rank, []);
      RankedIsAcyclic(EdgeSet(edges), search.rank);
    }
  }

  // ---- The worklist closure ----------------------------------------------------------------

  datatype Verdict = Accepted | Rejected | MissingKey

  function Targets(edges: seq<Edge>, x: Node): set<Node> {
    set e | e in edges && e.source == x :: e.target
  }

  /** Adds edges to a graph whose rows are fixed; an edge out of anything else has no row. */
  method AddEdges(graph: Adjacency, edges: seq<Edge>) returns (ok: bool, wider: Adjacency)
    ensures ok <==> forall e :: e in edges ==> e.source in graph
    ensures ok ==> wider.Keys == graph.Keys
    ensures ok ==> forall x :: x in graph ==> wider[x] == graph[x] + Targets(edges, x)
  {
    ok, wider := true, graph;
    var i := 0;
    while i < |edges| && ok
      invariant 0 <= i <= |edges|
      invariant ok ==> forall e :: e in edges[..i] ==> e.source in graph
      invariant !ok ==> exists e :: e in edges && e.source !in graph
      invariant wider.Keys == graph.Keys
      invariant ok ==> forall x :: x in graph ==> wider[x] == graph[x] + Targets(edges[..i], x)
      decreases |edges| - i, ok
    {
      var e := edges[i];
      assert edges[..i + 1] == edges[..i] + [e];
      ok := e.source in wider;
      if ok {
        wider := wider[e.source := wider[e.source] + {e.target}];
        i := i + 1;
      }
    }
    assert ok ==> edges[..i] == edges;
  }

  /** What the worklist has found: everything reachable so far, closed except for the
      nodes still waiting. */
  ghost predicate Working(graph: Adjacency, edges: set<Edge>, roots: seq<Node>, reachable: set<Node>,
                          pending: set<Node>) {
    && (forall x :: x in reachable ==> Reachable(edges, roots, x))
    && (forall x :: x in roots ==> x in reachable)
    && pending <= reachable
    && (forall x :: x in reachable - pending ==> x in graph && graph[x] <= reachable)
  }

  ghost predicate RowsAre(graph: Adjacency, edges: set<Edge>) {
    && (forall e :: e in edges ==> e.source in graph && e.target in graph[e.source])
    && (forall a, b :: a in graph && b in graph[a] ==> Edge(a, b) in edges)
  }

  lemma RowTargets(graph: Adjacency, edges: set<Edge>, source: Node)
    requires RowsAre(graph, edges) && source in graph
    ensures graph[source] <= set e | e in edges :: e.target
  {
    forall t | t in graph[source]
      ensures t in set e | e in edges :: e.target
    {
      assert Edge(source, t) in edges;
    }
  }

  lemma FirstReachable(edges: set<Edge>, roots: seq<Node>)
    ensures forall x :: x in roots ==> Reachable(edges, roots, x)
  {
    forall x | x in roots
      ensures Reachable(edges, roots, x)
    {
      RootReachable(edges, roots, x);
    }
  }

  lemma WorkStarts(graph: Adjacency, edges: set<Edge>, roots: seq<Node>)
    ensures Working(graph, edges, roots, Elements(roots), Elements(roots))
  {
    FirstReachable(edges, roots);
  }

  lemma Taken(graph: Adjacency, edges: set<Edge>, roots: seq<Node>, reachable: set<Node>, pending: seq<Node>,
              source: Node)
    requires Working(graph, edges, roots, reachable, Elements(pending + [source]))
    ensures Working(graph, edges, roots, reachable, Elements(pending) + {source})
    ensures Reachable(edges, roots, source)
  {
    assert Elements(pending + [source]) == Elements(pending) + {source};
    assert source in reachable;
  }

  lemma Found(graph: Adjacency, edges: set<Edge>, roots: seq<Node>, reachable: set<Node>, pending: seq<Node>,
              source: Node, target: Node)
    requires RowsAre(graph, edges) && Working(graph, edges, roots, reachable, Elements(pending) + {source})
    requires source in graph && target in graph[source] && target !in reachable
    ensures Working(graph, edges, roots, reachable + {target}, Elements(pending + [target]) + {source})
  {
    assert Elements(pending + [target]) == Elements(pending) + {target};
    assert source in Elements(pending) + {source};
    assert Edge(source, target) in edges;
    StepReachable(edges, roots, Edge(source, target));
  }

  lemma Finished(graph: Adjacency, edges: set<Edge>, roots: seq<Node>, reachable: set<Node>, pending: seq<Node>,
                 source: Node)
    requires Working(graph, edges, roots, reachable, Elements(pending) + {source})
    requires source in graph && graph[source] <= reachable
    ensures Working(graph, edges, roots, reachable, Elements(pending))
  {
  }

  lemma WorkDone(graph: Adjacency, edges: set<Edge>, roots: seq<Node>, reachable: set<Node>)
    requires RowsAre(graph, edges) && Working(graph, edges, roots, reachable, {})
    ensures forall x :: x in reachable <==> Reachable(edges, roots, x)
    ensures forall x :: x in reachable ==> x in graph
  {
    assert Closed(edges, roots, reachable);
    ExactlyReachable(edges, roots, reachable);
  }

  lemma {:induction false} Fewer(a: set<Node>, b: set<Node>)
    requires a <= b
    ensures |a| <= |b|
    decreases |a|
  {
    if a != {} {
      var x :| x in a;
      Fewer(a - {x}, b - {x});
    }
  }

  lemma Shrinks(universe: set<Node>, small: set<Node>, large: set<Node>)
    requires small < large <= universe
    ensures |universe - large| < |universe - small|
  {
    var x :| x in large && x !in small;
    assert universe - large <= universe - small - {x};
    Fewer(universe - large, universe - small - {x});
  }

  /** The worklist; false when it meets a node that has no row. */
  method Closure(graph: Adjacency, roots: seq<Node>, ghost edges: set<Edge>) returns (ok: bool, reachable: set<Node>)
    requires RowsAre(graph, edges)
    ensures ok ==> forall x :: x in reachable <==> Reachable(edges, roots, x)
    ensures ok <==> forall x :: Reachable(edges, roots, x) ==> x in graph
  {
    hide Working, Reachable, RowsAre;
    var pending := roots;
    reachable := Elements(roots);
    ghost var universe := reachable + set e | e in edges :: e.target;
    WorkStarts(graph, edges, roots);
    while pending != []
      invariant reachable <= universe && Working(graph, edges, roots, reachable, Elements(pending))
      decreases |universe - reachable|, |pending|
    {
      var source := pending[|pending| - 1];
      assert pending == pending[..|pending| - 1] + [source];
      pending := pending[..|pending| - 1];
      Taken(graph, edges, roots, reachable, pending, source);
      if source !in graph {
        return false, reachable;
      }
      RowTargets(graph, edges, source);
      ghost var known, waiting := reachable, pending;
      var todo := graph[source];
      while todo != {}
        invariant todo <= graph[source] && known <= reachable <= universe
        invariant Working(graph, edges, roots, reachable, Elements(pending) + {source})
        invariant graph[source] - todo <= reachable
        invariant reachable == known ==> pending == waiting
        decreases |todo|
      {
        var target :| target in todo;
        todo := todo - {target};
        if target !in reachable {
          Found(graph, edges, roots, reachable, pending, source, target);
          reachable := reachable + {target};
          pending := pending + [target];
        }
      }
      Finished(graph, edges, roots, reachable, pending, source);
      if reachable != known {
        Shrinks(universe, known, reachable);
      }
    }
    assert Elements(pending) == {};
    WorkDone(graph, edges, roots, reachable);
    ok := true;
  }

  lemma RowsOf(members: seq<Node>, fixed: seq<Edge>, imports: seq<Edge>, graph: Adjacency, bound: Adjacency,
               whole: Adjacency)
    requires graph.Keys == bound.Keys == whole.Keys == Elements(members)
    requires forall x :: x in graph ==>
               graph[x] == {} && bound[x] == graph[x] + Targets(fixed, x) && whole[x] == bound[x] + Targets(imports, x)
    requires forall e :: e in fixed + imports ==> e.source in members
    ensures RowsAre(whole, EdgeSet(fixed + imports))
  {
    forall e | e in EdgeSet(fixed + imports)
      ensures e.source in whole && e.target in whole[e.source]
    {
      assert e.source in Elements(members);
      assert e.target in Targets(fixed, e.source) + Targets(imports, e.source);
    }
    forall a, b | a in whole && b in whole[a]
      ensures Edge(a, b) in EdgeSet(fixed + imports)
    {
      assert b in Targets(fixed, a) || b in Targets(imports, a);
    }
  }

  /** Accepts exactly when the roots reach the members and nothing else, and the imports
      have no cycle; `fixed` are the reads and bindings known without parsing. */
  method ValidateReachability(members: seq<Node>, fixed: seq<Edge>, roots: seq<Node>, imports: seq<Edge>)
    returns (v: Verdict)
    ensures var edges := EdgeSet(fixed + imports);
            var rowless := exists e :: e in edges && e.source !in members;
            && (v.MissingKey? <==> rowless || exists x :: Reachable(edges, roots, x) && x !in members)
            && (v.Accepted? <==>
                  && !rowless
                  && (forall x :: x in members <==> Reachable(edges, roots, x))
                  && !Cyclic(EdgeSet(imports)))
  {
    hide Reachable, Cyclic, RowsAre;
    var graph: Adjacency := map path | path in members :: {};
    var ok, bound := AddEdges(graph, fixed);
    var whole;
    if ok {
      ok, whole := AddEdges(bound, imports);
    }
    ghost var edges := EdgeSet(fixed + imports);
    assert ok <==> forall e :: e in edges ==> e.source in members;
    if !ok {
      return MissingKey;
    }
    RowsOf(members, fixed, imports, graph, bound, whole);
    var found, reachable := Closure(whole, roots, edges);
    if !found {
      return MissingKey;
    }
    var acyclic := Acyclic(imports);
    assert reachable == Elements(members) <==> forall x :: x in members <==> Reachable(edges, roots, x);
    v := if reachable != Elements(members) || !acyclic then Rejected else Accepted;
  }
}
