/**
 * The gate before every save: parallel edges are merged into arcs, and the arcs must have no
 * cycle. A worklist decides this; declaratively a cycle is a closed chain of the graph's edges.
 */
module CycleCheck {
  import opened DecisionGraph

  type Arcs = set<(string, string)>

  /** The edge has both endpoints (an empty id counts as missing). */
  predicate Attached(e: Edge) {
    e.sourceId != "" && e.targetId != ""
  }

  function Merged(edges: seq<Edge>): Arcs {
    set e | e in edges && Attached(e) :: (e.sourceId, e.targetId)
  }

  function Vertices(arcs: Arcs): set<string> {
    (set a | a in arcs :: a.0) + (set a | a in arcs :: a.1)
  }

  ghost predicate IsWalk(arcs: Arcs, p: seq<string>) {
    forall i :: 0 <= i < |p| - 1 ==> (p[i], p[i + 1]) in arcs
  }

  ghost predicate IsCycle(arcs: Arcs, p: seq<string>) {
    |p| >= 2 && IsWalk(arcs, p) && p[0] == p[|p| - 1]
  }

  /** A closed chain of edges of the graph itself, each with two ids; nothing else of an edge counts. */
  ghost predicate IsEdgeCycle(edges: seq<Edge>, c: seq<Edge>) {
    && c != []
    && (forall i :: 0 <= i < |c| ==> c[i] in edges && c[i].sourceId != "" && c[i].targetId != "")
    && (forall i :: 0 <= i < |c| - 1 ==> c[i].targetId == c[i + 1].sourceId)
    && c[|c| - 1].targetId == c[0].sourceId
  }

  ghost predicate Cyclic(g: Graph) {
    exists c :: IsEdgeCycle(g.edges, c)
  }

  /** Every edge with two ids leads from an earlier to a later position. */
  ghost predicate IsEdgeOrder(edges: seq<Edge>, order: seq<string>) {
    && (forall i, j :: 0 <= i < j < |order| ==> order[i] != order[j])
    && (forall e :: e in edges && e.sourceId != "" && e.targetId != "" ==>
          exists i, j :: 0 <= i < j < |order| && order[i] == e.sourceId && order[j] == e.targetId)
  }

  /** Every arc leads from an earlier to a later position. */
  ghost predicate IsTopological(arcs: Arcs, order: seq<string>) {
    && (forall i, j :: 0 <= i < j < |order| ==> order[i] != order[j])
    && (forall a :: a in arcs ==> exists i, j :: 0 <= i < j < |order| && order[i] == a.0 && order[j] == a.1)
  }

  // ---- merging parallel edges loses no cycle and makes none ----

  lemma EdgeCycleGivesCycle(edges: seq<Edge>, c: seq<Edge>)
    requires IsEdgeCycle(edges, c)
    ensures exists p :: IsCycle(Merged(edges), p)
  {
    var p := seq(|c| + 1, i requires 0 <= i <= |c| => if i < |c| then c[i].sourceId else c[0].sourceId);
    forall i | 0 <= i < |p| - 1 ensures (p[i], p[i + 1]) in Merged(edges) {
      assert c[i] in edges && Attached(c[i]);
      assert (p[i], p[i + 1]) == (c[i].sourceId, c[i].targetId);
    }
    assert IsCycle(Merged(edges), p);
  }

  /** Some edge stands for an arc. */
  function EdgeFor(edges: seq<Edge>, a: (string, string)): (e: Edge)
    requires a in Merged(edges)
    ensures e in edges && Attached(e) && e.sourceId == a.0 && e.targetId == a.1
  {
    if Attached(edges[0]) && (edges[0].sourceId, edges[0].targetId) == a then edges[0]
    else
      assert edges == [edges[0]] + edges[1..];
      EdgeFor(edges[1..], a)
  }

  lemma CycleGivesEdgeCycle(edges: seq<Edge>, p: seq<string>)
    requires IsCycle(Merged(edges), p)
    ensures exists c :: IsEdgeCycle(edges, c)
  {
    var arcs := Merged(edges);
    var c := seq(|p| - 1, i requires 0 <= i < |p| - 1 && (p[i], p[i + 1]) in arcs => EdgeFor(edges, (p[i], p[i + 1])));
    assert IsEdgeCycle(edges, c);
  }

  // ---- a topological order rules cycles out ----

  function IndexIn(order: seq<string>, v: string): (i: nat)
    requires v in order
    ensures i < |order| && order[i] == v
  {
    if order[0] == v then 0 else 1 + IndexIn(order[1..], v)
  }

  lemma {:induction false} WalkClimbs(arcs: Arcs, order: seq<string>, p: seq<string>)
    requires IsTopological(arcs, order) && IsWalk(arcs, p) && |p| >= 2
    ensures p[0] in order && p[|p| - 1] in order
    ensures IndexIn(order, p[0]) < IndexIn(order, p[|p| - 1])
  {
    var n := |p|;
    assert (p[n - 2], p[n - 1]) in arcs;
    var i, j :| 0 <= i < j < |order| && order[i] == p[n - 2] && order[j] == p[n - 1];
    assert IndexIn(order, p[n - 2]) == i && IndexIn(order, p[n - 1]) == j;
    if n > 2 {
      WalkClimbs(arcs, order, p[..n - 1]);
    }
  }

  lemma OrderedHasNoCycle(arcs: Arcs, order: seq<string>, p: seq<string>)
    requires IsTopological(arcs, order)
    ensures !IsCycle(arcs, p)
  {
    if IsCycle(arcs, p) {
      WalkClimbs(arcs, order, p);
    }
  }

  lemma CycleExcludesOrder(arcs: Arcs)
    ensures !((exists p :: IsCycle(arcs, p)) && (exists order :: IsTopological(arcs, order)))
  {
    if order :| IsTopological(arcs, order) {
      forall p ensures !IsCycle(arcs, p) {
        OrderedHasNoCycle(arcs, order, p);
      }
    }
  }

  // ---- a stuck worklist holds a cycle ----

  predicate HasPredecessor(arcs: Arcs, rest: set<string>, v: string) {
    exists u :: u in rest && (u, v) in arcs
  }

  /** Every vertex of the set has a predecessor in the set. */
  ghost predicate Stuck(arcs: Arcs, rest: set<string>) {
    forall v {:trigger HasPredecessor(arcs, rest, v)} :: v in rest ==> HasPredecessor(arcs, rest, v)
  }

  /** From any vertex of a stuck set one can walk backwards forever. */
  lemma {:induction false} WalkBack(arcs: Arcs, rest: set<string>, v: string, n: nat) returns (p: seq<string>)
    requires Stuck(arcs, rest) && v in rest
    ensures |p| == n + 1 && p[n] == v && IsWalk(arcs, p)
    ensures forall i :: 0 <= i <= n ==> p[i] in rest
    decreases n
  {
    if n == 0 {
      p := [v];
    } else {
      assert HasPredecessor(arcs, rest, v);
      var u :| u in rest && (u, v) in arcs;
      var q := WalkBack(arcs, rest, u, n - 1);
      p := q + [v];
    }
  }

  lemma {:induction false} Pigeonhole(p: seq<string>, holes: set<string>) returns (i: nat, j: nat)
    requires forall k :: 0 <= k < |p| ==> p[k] in holes
    requires |p| > |holes|
    ensures i < j < |p| && p[i] == p[j]
    decreases |p|
  {
    var n := |p| - 1;
    if k :| 0 <= k < n && p[k] == p[n] {
      i, j := k, n;
    } else {
      i, j := Pigeonhole(p[..n], holes - {p[n]});
    }
  }

  lemma StuckHasCycle(arcs: Arcs, rest: set<string>)
    requires Stuck(arcs, rest) && rest != {}
    ensures exists p :: IsCycle(arcs, p)
  {
    var v :| v in rest;
    var p := WalkBack(arcs, rest, v, |rest|);
    var i, j := Pigeonhole(p, rest);
    var c := p[i..j + 1];
    assert forall k :: 0 <= k < |c| - 1 ==> (c[k], c[k + 1]) == (p[i + k], p[i + k + 1]);
    assert IsCycle(arcs, c);
  }

  // ---- the worklist ----

  /** The vertices taken so far, in order, and those that remain. */
  ghost predicate PartialOrder(arcs: Arcs, order: seq<string>, rest: set<string>) {
    && (forall i, j :: 0 <= i < j < |order| ==> order[i] != order[j])
    && (forall v :: v in Vertices(arcs) <==> v in rest || v in order)
    && (forall v :: v in order ==> v !in rest)
    && (forall a, j :: a in arcs && 0 <= j < |order| && order[j] == a.1 ==> a.0 in order[..j])
  }

  /** Taking a vertex without predecessors among the rest keeps the order sound. */
  lemma TakeFree(arcs: Arcs, order: seq<string>, rest: set<string>, v: string)
    requires PartialOrder(arcs, order, rest)
    requires v in rest && !HasPredecessor(arcs, rest, v)
    ensures PartialOrder(arcs, order + [v], rest - {v})
  {
    var longer := order + [v];
    forall a, j | a in arcs && 0 <= j < |longer| && longer[j] == a.1 ensures a.0 in longer[..j] {
      if j < |order| {
        assert longer[..j] == order[..j];
      } else {
        assert longer[..j] == order;
        assert a.0 in Vertices(arcs);
        assert a == (a.0, v);
      }
    }
  }

  lemma FinishedIsTopological(arcs: Arcs, order: seq<string>)
    requires PartialOrder(arcs, order, {})
    ensures IsTopological(arcs, order)
  {
    forall a | a in arcs ensures exists i, j :: 0 <= i < j < |order| && order[i] == a.0 && order[j] == a.1 {
      assert a.1 in Vertices(arcs);
      var j :| 0 <= j < |order| && order[j] == a.1;
      var i :| 0 <= i < j && order[..j][i] == a.0;
      assert order[i] == a.0;
    }
  }

  method MergeEdges(edges: seq<Edge>) returns (arcs: Arcs)
    ensures arcs == Merged(edges)
  {
    arcs := {};
    for i := 0 to |edges|
      invariant arcs == Merged(edges[..i])
    {
      var e := edges[i];
      assert edges[..i + 1] == edges[..i] + [e];
      if Attached(e) {
        arcs := arcs + {(e.sourceId, e.targetId)};
      }
    }
    assert edges[..|edges|] == edges;
  }

  /** Takes vertices without remaining predecessors until none is left, or none is free. */
  method HasCycle(arcs: Arcs) returns (cyclic: bool)
    ensures cyclic <==> exists p :: IsCycle(arcs, p)
    ensures !cyclic <==> exists order :: IsTopological(arcs, order)
  {
    var rest := Vertices(arcs);
    ghost var order := [];
    var stuck := false;
    while !stuck && rest != {}
      invariant PartialOrder(arcs, order, rest)
      invariant stuck ==> rest != {} && Stuck(arcs, rest)
      decreases rest, if stuck then 0 else 1
    {
      if v :| v in rest && !HasPredecessor(arcs, rest, v) {
        TakeFree(arcs, order, rest, v);
        rest := rest - {v};
        order := order + [v];
      } else {
        stuck := true;
      }
    }
    cyclic := stuck;
    if stuck {
      StuckHasCycle(arcs, rest);
      CycleExcludesOrder(arcs);
    } else {
      FinishedIsTopological(arcs, order);
      CycleExcludesOrder(arcs);
    }
  }

  /** Merging is exact: the graph's edges close a cycle if and only if the merged arcs do. */
  lemma CyclicIffMergedCycle(g: Graph)
    ensures Cyclic(g) <==> exists p :: IsCycle(Merged(g.edges), p)
  {
    if c :| IsEdgeCycle(g.edges, c) {
      EdgeCycleGivesCycle(g.edges, c);
    }
    if p :| IsCycle(Merged(g.edges), p) {
      CycleGivesEdgeCycle(g.edges, p);
    }
  }

  /** An order of the arcs is one of the edges. */
  lemma OrdersAgree(edges: seq<Edge>, order: seq<string>)
    ensures IsTopological(Merged(edges), order) <==> IsEdgeOrder(edges, order)
  {
    if IsTopological(Merged(edges), order) {
      forall e | e in edges && e.sourceId != "" && e.targetId != ""
        ensures exists i, j :: 0 <= i < j < |order| && order[i] == e.sourceId && order[j] == e.targetId
      {
        assert Attached(e) && (e.sourceId, e.targetId) in Merged(edges);
        var a := (e.sourceId, e.targetId);
        assert exists i, j :: 0 <= i < j < |order| && order[i] == a.0 && order[j] == a.1;
      }
    }
  }

  /** The i-th edge leads to where the next one starts, and the last one to where the first does. */
  predicate Joined(c: seq<Edge>, i: nat)
    requires i < |c|
  {
    c[i].sourceId != "" && c[i].targetId != "" && c[i].targetId == (if i + 1 < |c| then c[i + 1] else c[0]).sourceId
  }

  /** The chain read as a ring of edges. */
  ghost predicate IsRing(edges: seq<Edge>, c: seq<Edge>) {
    |c| > 0 && (forall e :: e in c ==> e in edges) && forall i :: 0 <= i < |c| ==> Joined(c, i)
  }

  lemma RingIsCycle(edges: seq<Edge>, c: seq<Edge>)
    ensures IsRing(edges, c) <==> IsEdgeCycle(edges, c)
  {
    if IsRing(edges, c) {
      forall i | 0 <= i < |c| - 1 ensures c[i].targetId == c[i + 1].sourceId {
        assert Joined(c, i);
      }
      assert Joined(c, |c| - 1);
      assert forall i :: 0 <= i < |c| ==> Joined(c, i) && c[i] in edges;
    }
  }

  /** What a cycle is, on the ids of the edges alone. */
  lemma CyclicMeans(g: Graph)
    ensures Cyclic(g) <==> exists c :: IsRing(g.edges, c)
  {
    forall c ensures IsRing(g.edges, c) <==> IsEdgeCycle(g.edges, c) {
      RingIsCycle(g.edges, c);
    }
  }

  /** Two edges there and back are a cycle, whatever else they say; so is one from a node to itself. */
  lemma ThereAndBack(g: Graph, e: Edge, back: Edge)
    requires e in g.edges && back in g.edges && e.sourceId != "" && e.targetId != ""
    requires (back.sourceId, back.targetId) == (e.targetId, e.sourceId)
    ensures Cyclic(g)
  {
    assert IsEdgeCycle(g.edges, [e, back]);
  }

  /** The gate refuses exactly the graphs whose edges close a cycle, and lets through those that have an order. */
  method IsCyclic(g: Graph) returns (cyclic: bool)
    ensures cyclic <==> Cyclic(g)
    ensures !cyclic <==> exists order :: IsEdgeOrder(g.edges, order)
  {
    var arcs := MergeEdges(g.edges);
    CyclicIffMergedCycle(g);
    cyclic := HasCycle(arcs);
    forall order ensures IsTopological(arcs, order) <==> IsEdgeOrder(g.edges, order) {
      OrdersAgree(g.edges, order);
    }
  }
}
