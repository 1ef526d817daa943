/**
 * The agent's graph tools. A card is rendered against the graph of that moment and captures what it
 * will do; when it is applied, possibly much later, the captured change meets the graph of then.
 */
module GraphActions {
  import opened Wrappers
  import opened DecisionGraph

  /** The validated arguments of a tool call; nodes are named by id or by name. */
  datatype Args =
    | AddNode(kind: NodeKind, name: string, content: Option<string>, position: Option<Position>)
    | UpdateNode(node: string, newName: Option<string>, newContent: Option<string>, newPosition: Option<Position>)
    | RemoveNode(node: string)
    | AddEdge(source: string, target: string, sourceHandle: Option<string>, targetHandle: Option<string>)
    | RemoveEdge(edge: string)

  /** What a rendered card does when applied; Refuse only reports a problem to the agent. */
  datatype Card =
    | Refuse
    | Insert(kind: NodeKind, name: string, content: Option<string>, position: Option<Position>)
    | Patch(id: string, newName: Option<string>, newContent: Option<string>, newPosition: Option<Position>)
    | Delete(id: string)
    | Connect(sourceId: string, targetId: string, sourceHandle: Option<string>, targetHandle: Option<string>)
    | Disconnect(edge: string)

  // ---- layout ----

  const HORIZONTAL_GAP := 280
  const Y_CENTER := 160
  const X_INPUT := 100

  predicate IsMiddle(kind: NodeKind) {
    !kind.InputNode? && !kind.OutputNode?
  }

  function MaxX(nodes: seq<Node>): int {
    if nodes == [] then X_INPUT
    else
      var before, last := MaxX(nodes[..|nodes| - 1]), nodes[|nodes| - 1];
      if !last.kind.OutputNode? && last.position.x > before then last.position.x else before
  }

  function MiddleCount(nodes: seq<Node>): nat {
    if nodes == [] then 0
    else MiddleCount(nodes[..|nodes| - 1]) + (if IsMiddle(nodes[|nodes| - 1].kind) then 1 else 0)
  }

  function AutoPosition(existing: seq<Node>, kind: NodeKind): Position {
    if kind.InputNode? then Position(X_INPUT, Y_CENTER)
    else if kind.OutputNode? then Position(MaxX(existing) + HORIZONTAL_GAP, Y_CENTER)
    else Position(X_INPUT + HORIZONTAL_GAP + HORIZONTAL_GAP * MiddleCount(existing), Y_CENTER)
  }

  // ---- rendering ----

  function FindById(nodes: seq<Node>, id: string): Option<Node> {
    if nodes == [] then None else if nodes[0].id == id then Some(nodes[0]) else FindById(nodes[1..], id)
  }

  function FindByName(nodes: seq<Node>, name: string): Option<Node> {
    if nodes == [] then None else if nodes[0].name == name then Some(nodes[0]) else FindByName(nodes[1..], name)
  }

  /** An id wins over a name; an empty id counts as not found. */
  function Resolve(g: Graph, idOrName: string): Option<string> {
    var byId := FindById(g.nodes, idOrName);
    var node := if byId.Some? then byId else FindByName(g.nodes, idOrName);
    if node.None? || node.value.id == "" then None else Some(node.value.id)
  }

  function Render(g: Graph, args: Args): Card {
    match args
    case AddNode(kind, name, content, position) =>
      if FindByName(g.nodes, name).Some? then Refuse else Insert(kind, name, content, position)
    case UpdateNode(node, newName, newContent, newPosition) =>
      var id := Resolve(g, node);
      if id.None? then Refuse else Patch(id.value, newName, newContent, newPosition)
    case RemoveNode(node) =>
      var id := Resolve(g, node);
      if id.None? then Refuse else Delete(id.value)
    case AddEdge(source, target, sourceHandle, targetHandle) =>
      var s, t := Resolve(g, source), Resolve(g, target);
      if s.None? || t.None? then Refuse else Connect(s.value, t.value, sourceHandle, targetHandle)
    case RemoveEdge(edge) => Disconnect(edge)
  }

  // ---- applying ----

  function PatchNode(n: Node, c: Card): Node
    requires c.Patch?
  {
    n.(name := if c.newName.Some? then c.newName.value else n.name,
       content := if c.newContent.Some? then c.newContent else n.content,
       position := if c.newPosition.Some? then c.newPosition.value else n.position)
  }

  function PatchNodes(nodes: seq<Node>, c: Card): seq<Node>
    requires c.Patch?
  {
    seq(|nodes|, i requires 0 <= i < |nodes| => if nodes[i].id == c.id then PatchNode(nodes[i], c) else nodes[i])
  }

  function WithoutNode(nodes: seq<Node>, id: string): seq<Node> {
    if nodes == [] then []
    else (if nodes[0].id == id then [] else [nodes[0]]) + WithoutNode(nodes[1..], id)
  }

  /** Keeps the edges that touch no node of this id and do not have that edge id. */
  function WithoutEdges(edges: seq<Edge>, node: Option<string>, edge: Option<string>): seq<Edge> {
    if edges == [] then []
    else
      var e := edges[0];
      (if (node.Some? && (e.sourceId == node.value || e.targetId == node.value))
          || (edge.Some? && e.id == edge.value) then [] else [e])
      + WithoutEdges(edges[1..], node, edge)
  }

  function NewEdge(c: Card, id: string): Edge
    requires c.Connect?
  {
    Edge(id, c.sourceId, c.targetId, c.sourceHandle, c.targetHandle)
  }

  function NewNode(existing: seq<Node>, c: Card, id: string): Node
    requires c.Insert?
  {
    var position := if c.position.Some? then c.position.value else AutoPosition(existing, c.kind);
    var content := if !IsMiddle(c.kind) then None else if c.content.Some? then c.content else Some("{}");
    Node(id, c.kind, c.name, position, content)
  }

  /** Applies a card to the live graph; `id` is the identifier drawn for whatever it creates. */
  function Apply(g: Graph, c: Card, id: string): Graph {
    match c
    case Refuse => g
    case Insert(_, _, _, _) => g.(nodes := g.nodes + [NewNode(g.nodes, c, id)])
    case Patch(_, _, _, _) => g.(nodes := PatchNodes(g.nodes, c))
    case Delete(node) => Graph(WithoutNode(g.nodes, node), WithoutEdges(g.edges, Some(node), None))
    case Connect(_, _, _, _) => g.(edges := g.edges + [NewEdge(c, id)])
    case Disconnect(edge) => g.(edges := WithoutEdges(g.edges, None, Some(edge)))
  }

  // ---- runs ----

  /**
   * An applied card, with its arguments, when it was last rendered, and the identifier it draws; or a
   * change on the canvas, which reports a whole graph.
   */
  datatype Step = Applied(args: Args, renderedAfter: nat, id: string) | Changed(graph: Graph)

  /** The graph after the first n steps; an applied card was rendered against an earlier graph of the run. */
  function After(g: Graph, steps: seq<Step>, n: nat): Graph
    requires n <= |steps|
    decreases n, 1
  {
    if n == 0 then g
    else if steps[n - 1].Changed? then steps[n - 1].graph
    else Apply(After(g, steps, n - 1), CardOf(g, steps, n - 1), steps[n - 1].id)
  }

  /** The card that step i applies; a canvas change applies none. */
  function CardOf(g: Graph, steps: seq<Step>, i: nat): Card
    requires i < |steps|
    decreases i + 1, 0
  {
    if steps[i].Changed? then Refuse
    else
      var r := if steps[i].renderedAfter <= i then steps[i].renderedAfter else i;
      Render(After(g, steps, r), steps[i].args)
  }

  function NodeIds(g: Graph): set<string> {
    set n | n in g.nodes :: n.id
  }

  function EdgeIds(g: Graph): set<string> {
    set e | e in g.edges :: e.id
  }

  ghost predicate IdsDistinct(g: Graph) {
    && (forall i, j :: 0 <= i < j < |g.nodes| ==> g.nodes[i].id != g.nodes[j].id)
    && (forall i, j :: 0 <= i < j < |g.edges| ==> g.edges[i].id != g.edges[j].id)
  }

  predicate HasEnds(g: Graph, e: Edge) {
    e.sourceId in NodeIds(g) && e.targetId in NodeIds(g)
  }

  ghost predicate WellFormed(g: Graph) {
    IdsDistinct(g) && forall e :: e in g.edges ==> HasEnds(g, e)
  }

  predicate HasId(g: Graph, x: string) {
    x in NodeIds(g) || x in EdgeIds(g)
  }

  /** The step brings this identifier into the graph, or brings it back. */
  predicate Brings(step: Step, x: string) {
    if step.Changed? then HasId(step.graph, x) else step.id == x
  }

  /** Every identifier a card draws is new. */
  ghost predicate FreshIds(g: Graph, steps: seq<Step>) {
    forall i :: 0 <= i < |steps| && steps[i].Applied? ==>
      !HasId(g, steps[i].id) && forall j :: 0 <= j < i ==> !Brings(steps[j], steps[i].id)
  }

  /** Cards are rendered before they are applied. */
  predicate Timely(steps: seq<Step>) {
    forall i :: 0 <= i < |steps| && steps[i].Applied? ==> steps[i].renderedAfter <= i
  }

  predicate EndsAt(e: Edge, x: string) {
    x == e.sourceId || x == e.targetId
  }

  /** What the canvas takes care of: identifiers are distinct, and no edge newly lacks an endpoint. */
  ghost predicate SoundChange(before: Graph, after: Graph) {
    && IdsDistinct(after)
    && forall e, x :: e in after.edges && EndsAt(e, x) && x !in NodeIds(after) ==>
         e in before.edges && x !in NodeIds(before)
  }

  ghost predicate SoundChanges(g: Graph, steps: seq<Step>) {
    forall i :: 0 <= i < |steps| && steps[i].Changed? ==> SoundChange(After(g, steps, i), steps[i].graph)
  }

  // ---- membership ----

  lemma {:induction false} WithoutNodeMember(nodes: seq<Node>, id: string, n: Node)
    ensures n in WithoutNode(nodes, id) <==> n in nodes && n.id != id
  {
    if nodes != [] {
      WithoutNodeMember(nodes[1..], id, n);
      assert n in nodes <==> n == nodes[0] || n in nodes[1..];
    }
  }

  lemma {:induction false} WithoutEdgesMember(edges: seq<Edge>, node: Option<string>, edge: Option<string>, e: Edge)
    ensures e in WithoutEdges(edges, node, edge) <==>
      && e in edges
      && !(node.Some? && (e.sourceId == node.value || e.targetId == node.value))
      && !(edge.Some? && e.id == edge.value)
  {
    if edges != [] {
      WithoutEdgesMember(edges[1..], node, edge, e);
      assert e in edges <==> e == edges[0] || e in edges[1..];
    }
  }

  lemma {:induction false} WithoutNodeDistinct(nodes: seq<Node>, id: string)
    requires forall i, j :: 0 <= i < j < |nodes| ==> nodes[i].id != nodes[j].id
    ensures forall i, j :: 0 <= i < j < |WithoutNode(nodes, id)| ==>
      WithoutNode(nodes, id)[i].id != WithoutNode(nodes, id)[j].id
  {
    if nodes != [] {
      var rest := WithoutNode(nodes[1..], id);
      WithoutNodeDistinct(nodes[1..], id);
      forall n | n in rest ensures n.id != nodes[0].id {
        WithoutNodeMember(nodes[1..], id, n);
      }
    }
  }

  lemma {:induction false} WithoutEdgesDistinct(edges: seq<Edge>, node: Option<string>, edge: Option<string>)
    requires forall i, j :: 0 <= i < j < |edges| ==> edges[i].id != edges[j].id
    ensures forall i, j :: 0 <= i < j < |WithoutEdges(edges, node, edge)| ==>
      WithoutEdges(edges, node, edge)[i].id != WithoutEdges(edges, node, edge)[j].id
  {
    if edges != [] {
      var rest := WithoutEdges(edges[1..], node, edge);
      WithoutEdgesDistinct(edges[1..], node, edge);
      forall e | e in rest ensures e.id != edges[0].id {
        WithoutEdgesMember(edges[1..], node, edge, e);
      }
    }
  }

  /** How one applied card changes which nodes exist. */
  lemma NodeIdsAfter(g: Graph, c: Card, id: string)
    ensures NodeIds(Apply(g, c, id)) ==
      if c.Insert? then NodeIds(g) + {id} else if c.Delete? then NodeIds(g) - {c.id} else NodeIds(g)
  {
    var h := Apply(g, c, id);
    match c
    case Insert(_, _, _, _) =>
      forall x ensures x in NodeIds(h) <==> x in NodeIds(g) || x == id {
        assert forall n :: n in h.nodes <==> n in g.nodes || n == NewNode(g.nodes, c, id);
      }
    case Delete(node) =>
      forall n: Node ensures n in h.nodes <==> n in g.nodes && n.id != node {
        WithoutNodeMember(g.nodes, node, n);
      }
    case Patch(_, _, _, _) =>
      forall x ensures x in NodeIds(h) <==> x in NodeIds(g) {
        if x in NodeIds(g) {
          var i :| 0 <= i < |g.nodes| && g.nodes[i].id == x;
          assert h.nodes[i].id == x;
        }
        if x in NodeIds(h) {
          var i :| 0 <= i < |h.nodes| && h.nodes[i].id == x;
          assert g.nodes[i].id == x;
        }
      }
    case _ =>
  }

  /** How one applied card changes which edges exist. */
  lemma EdgesAfter(g: Graph, c: Card, id: string, e: Edge)
    ensures e in Apply(g, c, id).edges <==>
      match c
      case Connect(_, _, _, _) => e in g.edges || e == NewEdge(c, id)
      case Delete(node) => e in g.edges && e.sourceId != node && e.targetId != node
      case Disconnect(edge) => e in g.edges && e.id != edge
      case _ => e in g.edges
  {
    match c
    case Delete(node) => WithoutEdgesMember(g.edges, Some(node), None, e);
    case Disconnect(edge) => WithoutEdgesMember(g.edges, None, Some(edge), e);
    case _ =>
  }

  // ---- identifiers stay distinct ----

  /** Identifiers in the graph are old ones or were brought by an earlier step. */
  lemma {:induction false} IdsKnown(g: Graph, steps: seq<Step>, n: nat, x: string)
    requires n <= |steps| && HasId(After(g, steps, n), x)
    ensures HasId(g, x) || exists i :: 0 <= i < n && Brings(steps[i], x)
  {
    if n > 0 && !Brings(steps[n - 1], x) {
      var before, c, id := After(g, steps, n - 1), CardOf(g, steps, n - 1), steps[n - 1].id;
      NodeIdsAfter(before, c, id);
      if x in EdgeIds(After(g, steps, n)) {
        var e :| e in After(g, steps, n).edges && e.id == x;
        EdgesAfter(before, c, id, e);
      }
      IdsKnown(g, steps, n - 1, x);
    }
  }

  lemma ApplyKeepsDistinct(g: Graph, c: Card, id: string)
    requires IdsDistinct(g) && id !in NodeIds(g) && id !in EdgeIds(g)
    ensures IdsDistinct(Apply(g, c, id))
  {
    match c
    case Delete(node) =>
      WithoutNodeDistinct(g.nodes, node);
      WithoutEdgesDistinct(g.edges, Some(node), None);
    case Disconnect(edge) =>
      WithoutEdgesDistinct(g.edges, None, Some(edge));
    case Insert(_, _, _, _) =>
      forall n | n in g.nodes ensures n.id != id {
        assert n.id in NodeIds(g);
      }
    case Connect(_, _, _, _) =>
      forall e | e in g.edges ensures e.id != id {
        assert e.id in EdgeIds(g);
      }
    case _ =>
  }

  lemma DrawnIsNew(g: Graph, steps: seq<Step>, i: nat)
    requires i < |steps| && FreshIds(g, steps) && steps[i].Applied?
    ensures !HasId(After(g, steps, i), steps[i].id)
  {
    if HasId(After(g, steps, i), steps[i].id) {
      IdsKnown(g, steps, i, steps[i].id);
    }
  }

  /** In every run with fresh identifiers, node ids and edge ids stay pairwise distinct. */
  lemma {:induction false} RunKeepsIdsDistinct(g: Graph, steps: seq<Step>, n: nat)
    requires n <= |steps| && IdsDistinct(g) && FreshIds(g, steps) && SoundChanges(g, steps)
    ensures IdsDistinct(After(g, steps, n))
  {
    if n > 0 && steps[n - 1].Changed? {
      assert SoundChange(After(g, steps, n - 1), steps[n - 1].graph);
    } else if n > 0 {
      RunKeepsIdsDistinct(g, steps, n - 1);
      DrawnIsNew(g, steps, n - 1);
      ApplyKeepsDistinct(After(g, steps, n - 1), CardOf(g, steps, n - 1), steps[n - 1].id);
    }
  }

  // ---- which edges dangle ----

  lemma {:induction false} FoundInNodes(nodes: seq<Node>, x: string)
    ensures FindById(nodes, x).Some? ==> FindById(nodes, x).value in nodes
    ensures FindByName(nodes, x).Some? ==> FindByName(nodes, x).value in nodes
  {
    if nodes != [] {
      FoundInNodes(nodes[1..], x);
    }
  }

  lemma ResolvedExists(g: Graph, x: string)
    ensures Resolve(g, x).Some? ==> Resolve(g, x).value in NodeIds(g)
  {
    FoundInNodes(g.nodes, x);
  }

  lemma {:induction false} FoundById(nodes: seq<Node>, x: string)
    ensures FindById(nodes, x).Some? <==> exists n :: n in nodes && n.id == x
    ensures FindById(nodes, x).Some? ==> FindById(nodes, x).value.id == x
  {
    if nodes != [] {
      FoundById(nodes[1..], x);
      assert forall n :: n in nodes <==> n == nodes[0] || n in nodes[1..];
    }
  }

  /** An id stands for itself; only what is no id is taken as a name, and then means a node of that name. */
  lemma ResolveMeans(g: Graph, x: string)
    ensures x in NodeIds(g) && x != "" ==> Resolve(g, x) == Some(x)
    ensures x !in NodeIds(g) && Resolve(g, x).Some? ==>
      exists n :: n in g.nodes && n.name == x && n.id == Resolve(g, x).value
    ensures x !in NodeIds(g) && Resolve(g, x).None? ==> forall n :: n in g.nodes && n.id != "" && n.name == x ==>
      exists m :: m in g.nodes && m.name == x && m.id == ""
  {
    FoundById(g.nodes, x);
    NamedFirst(g.nodes, x);
  }

  lemma {:induction false} NamedFirst(nodes: seq<Node>, x: string)
    ensures FindByName(nodes, x).Some? <==> exists n :: n in nodes && n.name == x
    ensures FindByName(nodes, x).Some? ==> FindByName(nodes, x).value in nodes && FindByName(nodes, x).value.name == x
  {
    if nodes != [] {
      NamedFirst(nodes[1..], x);
      assert forall n :: n in nodes <==> n == nodes[0] || n in nodes[1..];
    }
  }

  // ---- what an applied card does, from its arguments ----

  /** The first node of this name is the k-th, and has this id. */
  predicate FirstNamedAt(nodes: seq<Node>, name: string, id: string, k: nat) {
    k < |nodes| && nodes[k].name == name && nodes[k].id == id && forall j :: 0 <= j < k ==> nodes[j].name != name
  }

  predicate FirstNamed(nodes: seq<Node>, name: string, id: string) {
    exists k :: 0 <= k < |nodes| && FirstNamedAt(nodes, name, id, k)
  }

  /** An argument means the node of this id: it is that id, or, when it is no id at all, the name of that node. */
  predicate Means(g: Graph, x: string, id: string) {
    id != "" && if x in NodeIds(g) then id == x else FirstNamed(g.nodes, x, id)
  }

  lemma {:induction false} FindByNameIsFirst(nodes: seq<Node>, name: string, id: string)
    ensures FirstNamed(nodes, name, id) <==>
      FindByName(nodes, name).Some? && FindByName(nodes, name).value.id == id
  {
    if nodes != [] {
      var rest := nodes[1..];
      FindByNameIsFirst(rest, name, id);
      if nodes[0].name == name {
        assert FirstNamedAt(nodes, name, nodes[0].id, 0);
      } else {
        if k :| 0 <= k < |rest| && FirstNamedAt(rest, name, id, k) {
          assert forall j :: 0 < j < k + 1 ==> nodes[j] == rest[j - 1];
          assert FirstNamedAt(nodes, name, id, k + 1);
        }
        if k :| 0 <= k < |nodes| && FirstNamedAt(nodes, name, id, k) {
          assert forall j :: 0 <= j < k - 1 ==> rest[j] == nodes[j + 1];
          assert FirstNamedAt(rest, name, id, k - 1);
        }
      }
    }
  }

  /** Resolving finds what an argument means, and nothing exactly when it means nothing. */
  lemma ResolveExactly(g: Graph, x: string, id: string)
    ensures Resolve(g, x) == Some(id) <==> Means(g, x, id)
  {
    FoundById(g.nodes, x);
    FindByNameIsFirst(g.nodes, x, id);
  }

  ghost predicate MeansSome(g: Graph, x: string) {
    exists id :: Means(g, x, id)
  }

  lemma ResolveIffMeans(g: Graph, x: string)
    ensures Resolve(g, x).Some? <==> MeansSome(g, x)
    ensures Resolve(g, x).Some? ==> Means(g, x, Resolve(g, x).value)
  {
    if Resolve(g, x).Some? {
      ResolveExactly(g, x, Resolve(g, x).value);
    }
    if id :| Means(g, x, id) {
      ResolveExactly(g, x, id);
    }
  }

  /** The graph that the card of step i was last rendered against. */
  function Seen(g: Graph, steps: seq<Step>, i: nat): Graph
    requires i < |steps| && steps[i].Applied? && steps[i].renderedAfter <= i
  {
    After(g, steps, steps[i].renderedAfter)
  }

  /** What makes a card refuse: a taken name, or an argument that means no node, at its rendering. */
  ghost predicate Refuses(seen: Graph, args: Args) {
    match args
    case AddNode(_, name, _, _) => exists n :: n in seen.nodes && n.name == name
    case UpdateNode(x, _, _, _) => !MeansSome(seen, x)
    case RemoveNode(x) => !MeansSome(seen, x)
    case AddEdge(x, y, _, _) => !MeansSome(seen, x) || !MeansSome(seen, y)
    case RemoveEdge(_) => false
  }

  /** A card does nothing but report when it refuses, and only then. */
  lemma RefusedExactly(g: Graph, steps: seq<Step>, i: nat)
    requires i < |steps| && Timely(steps) && steps[i].Applied?
    ensures CardOf(g, steps, i) == Refuse <==> Refuses(Seen(g, steps, i), steps[i].args)
    ensures Refuses(Seen(g, steps, i), steps[i].args) ==> After(g, steps, i + 1) == After(g, steps, i)
  {
    var seen := Seen(g, steps, i);
    match steps[i].args
    case AddNode(_, name, _, _) => NamedFirst(seen.nodes, name);
    case UpdateNode(x, _, _, _) => ResolveIffMeans(seen, x);
    case RemoveNode(x) => ResolveIffMeans(seen, x);
    case AddEdge(x, y, _, _) =>
      ResolveIffMeans(seen, x);
      ResolveIffMeans(seen, y);
    case RemoveEdge(_) =>
  }

  /** One gap right of the rightmost node that is no output, or of the input's place when all are left of that. */
  predicate RightOf(existing: seq<Node>, x: int) {
    && X_INPUT + HORIZONTAL_GAP <= x
    && (forall k :: 0 <= k < |existing| && !existing[k].kind.OutputNode? ==>
          existing[k].position.x + HORIZONTAL_GAP <= x)
    && (x == X_INPUT + HORIZONTAL_GAP
        || exists k :: 0 <= k < |existing| && !existing[k].kind.OutputNode?
             && existing[k].position.x + HORIZONTAL_GAP == x)
  }

  function MiddlesOf(nodes: seq<Node>): set<nat> {
    set k: nat | k < |nodes| && !nodes[k].kind.InputNode? && !nodes[k].kind.OutputNode?
  }

  /** Where the editor puts a node whose position is left to it. */
  ghost predicate WellPlaced(existing: seq<Node>, n: Node) {
    n.position.y == 160 && match n.kind
      case InputNode => n.position.x == 100
      case OutputNode => RightOf(existing, n.position.x)
      case _ => n.position.x == 380 + 280 * |MiddlesOf(existing)|
  }

  lemma {:induction false} MaxXMeans(nodes: seq<Node>)
    ensures RightOf(nodes, MaxX(nodes) + HORIZONTAL_GAP)
  {
    if nodes != [] {
      MaxXMeans(nodes[..|nodes| - 1]);
    }
  }

  lemma {:induction false} MiddleCountMeans(nodes: seq<Node>)
    ensures MiddleCount(nodes) == |MiddlesOf(nodes)|
  {
    if nodes != [] {
      var n := |nodes| - 1;
      var init := nodes[..n];
      MiddleCountMeans(init);
      assert MiddlesOf(nodes) == MiddlesOf(init) + if IsMiddle(nodes[n].kind) then {n} else {};
    }
  }

  /**
   * An applied add_node card whose name was free at its rendering leaves, last, a node of the drawn id
   * with the kind, name and content that were asked for, at the place asked for or a well-chosen one.
   */
  lemma AddedNodeIsAsked(g: Graph, steps: seq<Step>, i: nat)
    requires i < |steps| && Timely(steps) && steps[i].Applied? && steps[i].args.AddNode?
    requires !Refuses(Seen(g, steps, i), steps[i].args)
    ensures var before, after, args := After(g, steps, i), After(g, steps, i + 1), steps[i].args;
            && |after.nodes| == |before.nodes| + 1 && after.nodes[..|before.nodes|] == before.nodes
            && after.edges == before.edges
            && var n := after.nodes[|before.nodes|];
            && n.id == steps[i].id && n.kind == args.kind && n.name == args.name
            && (args.position.Some? ==> n.position == args.position.value)
            && (args.position.None? ==> WellPlaced(before.nodes, n))
            && (if n.kind.InputNode? || n.kind.OutputNode? then n.content.None?
                else n.content == Some(match args.content case Some(content) => content case None => "{}"))
  {
    RefusedExactly(g, steps, i);
    MaxXMeans(After(g, steps, i).nodes);
    MiddleCountMeans(After(g, steps, i).nodes);
  }

  /**
   * An applied add_edge card whose arguments meant nodes at its rendering leaves, last, an edge of the
   * drawn id from the one node to the other, with the handles it was given.
   */
  lemma AddedEdgeConnects(g: Graph, steps: seq<Step>, i: nat)
    requires i < |steps| && Timely(steps) && steps[i].Applied? && steps[i].args.AddEdge?
    requires !Refuses(Seen(g, steps, i), steps[i].args)
    ensures var before, after, args := After(g, steps, i), After(g, steps, i + 1), steps[i].args;
            && |after.edges| == |before.edges| + 1 && after.edges[..|before.edges|] == before.edges
            && after.nodes == before.nodes
            && var e := after.edges[|before.edges|];
            && e.id == steps[i].id && e.sourceHandle == args.sourceHandle && e.targetHandle == args.targetHandle
            && Means(Seen(g, steps, i), args.source, e.sourceId) && Means(Seen(g, steps, i), args.target, e.targetId)
  {
    RefusedExactly(g, steps, i);
    ResolveIffMeans(Seen(g, steps, i), steps[i].args.source);
    ResolveIffMeans(Seen(g, steps, i), steps[i].args.target);
  }

  /**
   * An applied update_node card sets the fields it names of the node that its argument meant when it
   * was rendered, if that node is still there, and changes nothing else.
   */
  lemma UpdatedNodeIsAsked(g: Graph, steps: seq<Step>, i: nat, id: string, k: nat)
    requires i < |steps| && Timely(steps) && steps[i].Applied? && steps[i].args.UpdateNode?
    requires Means(Seen(g, steps, i), steps[i].args.node, id) && k < |After(g, steps, i).nodes|
    ensures var before, after := After(g, steps, i), After(g, steps, i + 1);
            && |after.nodes| == |before.nodes| && after.edges == before.edges
            && var args, n, m := steps[i].args, before.nodes[k], after.nodes[k];
            && (n.id != id ==> m == n)
            && (n.id == id ==>
                  && m.id == n.id && m.kind == n.kind
                  && args.newName in {None, Some(m.name)} && (args.newName.None? ==> m.name == n.name)
                  && args.newContent in {None, m.content} && (args.newContent.None? ==> m.content == n.content)
                  && args.newPosition in {None, Some(m.position)}
                  && (args.newPosition.None? ==> m.position == n.position))
  {
    ResolveExactly(Seen(g, steps, i), steps[i].args.node, id);
  }

  function OtherThan(id: string): Node -> bool {
    (n: Node) => n.id != id
  }

  function NotTouching(id: string): Edge -> bool {
    (e: Edge) => e.sourceId != id && e.targetId != id
  }

  function EdgeOtherThan(id: string): Edge -> bool {
    (e: Edge) => e.id != id
  }

  /**
   * An applied remove_node card leaves, in order, exactly the nodes other than the one its argument
   * meant when it was rendered, and exactly the edges that do not touch that one.
   */
  lemma RemovedNodeIsAsked(g: Graph, steps: seq<Step>, i: nat, id: string)
    requires i < |steps| && Timely(steps) && steps[i].Applied? && steps[i].args.RemoveNode?
    requires Means(Seen(g, steps, i), steps[i].args.node, id)
    ensures KeptInOrder(After(g, steps, i).nodes, After(g, steps, i + 1).nodes, OtherThan(id))
    ensures KeptInOrder(After(g, steps, i).edges, After(g, steps, i + 1).edges, NotTouching(id))
  {
    ResolveExactly(Seen(g, steps, i), steps[i].args.node, id);
    assert CardOf(g, steps, i) == Delete(id);
    NodesKept(After(g, steps, i).nodes, id);
    EdgesUntouchedKept(After(g, steps, i).edges, id);
  }

  /** An applied remove_edge card leaves, in order, exactly the edges of other ids, and all nodes. */
  lemma RemovedEdgeIsAsked(g: Graph, steps: seq<Step>, i: nat)
    requires i < |steps| && Timely(steps) && steps[i].Applied? && steps[i].args.RemoveEdge?
    ensures After(g, steps, i + 1).nodes == After(g, steps, i).nodes
    ensures KeptInOrder(After(g, steps, i).edges, After(g, steps, i + 1).edges, EdgeOtherThan(steps[i].args.edge))
  {
    assert CardOf(g, steps, i) == Disconnect(steps[i].args.edge);
    OtherEdgesKept(After(g, steps, i).edges, steps[i].args.edge);
  }

  lemma {:induction false} WithoutNodeLast(init: seq<Node>, last: Node, id: string)
    ensures WithoutNode(init + [last], id) == WithoutNode(init, id) + (if last.id == id then [] else [last])
  {
    if init == [] {
      assert [last][1..] == [];
      assert [] + [last] == [last];
    } else {
      assert (init + [last])[1..] == init[1..] + [last];
      WithoutNodeLast(init[1..], last, id);
    }
  }

  lemma {:induction false} NodesKept(nodes: seq<Node>, id: string)
    ensures KeptInOrder(nodes, WithoutNode(nodes, id), OtherThan(id))
  {
    if nodes == [] {
      KeptNone(OtherThan(id));
    } else {
      var init, last := nodes[..|nodes| - 1], nodes[|nodes| - 1];
      assert init + [last] == nodes;
      NodesKept(init, id);
      NodesKeptNext(init, last, id);
    }
  }

  lemma NodesKeptNext(init: seq<Node>, last: Node, id: string)
    requires KeptInOrder(init, WithoutNode(init, id), OtherThan(id))
    ensures KeptInOrder(init + [last], WithoutNode(init + [last], id), OtherThan(id))
  {
    var kept := WithoutNode(init, id);
    WithoutNodeLast(init, last, id);
    KeptOneMore(init, kept, OtherThan(id), last);
    assert kept + [] == kept;
  }

  lemma EdgesUntouchedKept(edges: seq<Edge>, id: string)
    ensures KeptInOrder(edges, WithoutEdges(edges, Some(id), None), NotTouching(id))
  {
    EdgesKept(edges, Some(id), None);
    KeptAlike(edges, WithoutEdges(edges, Some(id), None), NotDropped(Some(id), None), NotTouching(id));
  }

  lemma OtherEdgesKept(edges: seq<Edge>, id: string)
    ensures KeptInOrder(edges, WithoutEdges(edges, None, Some(id)), EdgeOtherThan(id))
  {
    EdgesKept(edges, None, Some(id));
    KeptAlike(edges, WithoutEdges(edges, None, Some(id)), NotDropped(None, Some(id)), EdgeOtherThan(id));
  }

  predicate Drops(e: Edge, node: Option<string>, edge: Option<string>) {
    (node.Some? && (e.sourceId == node.value || e.targetId == node.value)) || (edge.Some? && e.id == edge.value)
  }

  lemma {:induction false} WithoutEdgesLast(init: seq<Edge>, last: Edge, node: Option<string>, edge: Option<string>)
    ensures WithoutEdges(init + [last], node, edge) ==
      WithoutEdges(init, node, edge) + (if Drops(last, node, edge) then [] else [last])
  {
    if init == [] {
      assert [last][1..] == [];
      assert [] + [last] == [last];
    } else {
      assert (init + [last])[1..] == init[1..] + [last];
      WithoutEdgesLast(init[1..], last, node, edge);
    }
  }

  function NotDropped(node: Option<string>, edge: Option<string>): Edge -> bool {
    (e: Edge) => !Drops(e, node, edge)
  }

  lemma {:induction false} EdgesKept(edges: seq<Edge>, node: Option<string>, edge: Option<string>)
    ensures KeptInOrder(edges, WithoutEdges(edges, node, edge), NotDropped(node, edge))
  {
    if edges == [] {
      KeptNone(NotDropped(node, edge));
    } else {
      var init, last := edges[..|edges| - 1], edges[|edges| - 1];
      assert init + [last] == edges;
      EdgesKept(init, node, edge);
      EdgesKeptNext(init, last, node, edge);
    }
  }

  lemma EdgesKeptNext(init: seq<Edge>, last: Edge, node: Option<string>, edge: Option<string>)
    requires KeptInOrder(init, WithoutEdges(init, node, edge), NotDropped(node, edge))
    ensures KeptInOrder(init + [last], WithoutEdges(init + [last], node, edge), NotDropped(node, edge))
  {
    var kept := WithoutEdges(init, node, edge);
    WithoutEdgesLast(init, last, node, edge);
    KeptOneMore(init, kept, NotDropped(node, edge), last);
    assert kept + [] == kept;
  }

  /** Step j of the run removes this node: by its card, or on the canvas. */
  predicate Removes(g: Graph, steps: seq<Step>, j: nat, x: string)
    requires j < |steps|
  {
    if steps[j].Changed? then x in NodeIds(After(g, steps, j)) && x !in NodeIds(steps[j].graph)
    else CardOf(g, steps, j) == Delete(x)
  }

  /** Step k of the run is a canvas change that shows this node. */
  predicate Shows(steps: seq<Step>, k: nat, x: string)
    requires k < |steps|
  {
    steps[k].Changed? && x in NodeIds(steps[k].graph)
  }

  /** Between the rendering and the applying of step i this node was removed, and up to n not shown again. */
  ghost predicate Gap(g: Graph, steps: seq<Step>, i: nat, n: nat, x: string)
    requires i < n <= |steps| && steps[i].Applied?
  {
    exists j :: steps[i].renderedAfter <= j < i && Removes(g, steps, j, x) && NotShown(steps, j + 1, n, x)
  }

  ghost predicate NotShown(steps: seq<Step>, m: nat, n: nat, x: string)
    requires n <= |steps|
  {
    forall k :: m <= k < n ==> !Shows(steps, k, x)
  }

  /** Step i of the run created this edge. */
  predicate Creates(g: Graph, steps: seq<Step>, i: nat, e: Edge)
    requires i < |steps|
  {
    CardOf(g, steps, i).Connect? && e == NewEdge(CardOf(g, steps, i), steps[i].id)
  }

  /** Some step from m up to n removed this node, and up to n the canvas has not shown it since. */
  ghost predicate RemovedSince(g: Graph, steps: seq<Step>, m: nat, n: nat, x: string)
    requires n <= |steps|
  {
    exists j :: m <= j < n && Removes(g, steps, j, x) && NotShown(steps, j + 1, n, x)
  }

  lemma AbsentNext(g: Graph, steps: seq<Step>, m: nat, n: nat, x: string)
    requires m <= n < |steps| && x !in NodeIds(After(g, steps, n + 1))
    ensures x in NodeIds(After(g, steps, n)) || RemovedSince(g, steps, m, n, x) ==> RemovedSince(g, steps, m, n + 1, x)
  {
    if x in NodeIds(After(g, steps, n)) {
      if steps[n].Applied? {
        NodeIdsAfter(After(g, steps, n), CardOf(g, steps, n), steps[n].id);
      }
      assert Removes(g, steps, n, x) && NotShown(steps, n + 1, n + 1, x);
    } else if j :| m <= j < n && Removes(g, steps, j, x) && NotShown(steps, j + 1, n, x) {
      assert !Shows(steps, n, x);
      assert NotShown(steps, j + 1, n + 1, x);
    }
  }

  /** A node that was there and is there no more was removed by some step between, and not shown since. */
  lemma {:induction false} VanishedWasRemoved(g: Graph, steps: seq<Step>, m: nat, n: nat, x: string)
    requires m <= n <= |steps|
    requires x in NodeIds(After(g, steps, m)) && x !in NodeIds(After(g, steps, n))
    ensures RemovedSince(g, steps, m, n, x)
    decreases n
  {
    if x !in NodeIds(After(g, steps, n - 1)) {
      VanishedWasRemoved(g, steps, m, n - 1, x);
    }
    AbsentNext(g, steps, m, n - 1, x);
  }

  /** A removed node does not come back unless the canvas shows it or its identifier is drawn again. */
  lemma {:induction false} RemovedStaysAway(g: Graph, steps: seq<Step>, j: nat, n: nat, x: string)
    requires j < n <= |steps| && Removes(g, steps, j, x) && NotShown(steps, j + 1, n, x)
    requires forall k :: j < k < n && steps[k].Applied? ==> steps[k].id != x
    ensures x !in NodeIds(After(g, steps, n))
    decreases n
  {
    if n - 1 > j {
      RemovedStaysAway(g, steps, j, n - 1, x);
    }
    if steps[n - 1].Applied? {
      NodeIdsAfter(After(g, steps, n - 1), CardOf(g, steps, n - 1), steps[n - 1].id);
    } else {
      assert n - 1 > j ==> !Shows(steps, n - 1, x);
    }
  }

  /** The identifier of an existing node is not drawn for anything else. */
  lemma NeverDrawnAgain(g: Graph, steps: seq<Step>, m: nat, k: nat, x: string)
    requires m <= k < |steps| && FreshIds(g, steps) && x in NodeIds(After(g, steps, m)) && steps[k].Applied?
    ensures steps[k].id != x
  {
    IdsKnown(g, steps, m, x);
  }

  /** The endpoints a card captured existed when it was rendered. */
  lemma EndsExistedAtRender(g: Graph, steps: seq<Step>, i: nat, e: Edge)
    requires i < |steps| && Timely(steps) && Creates(g, steps, i, e)
    ensures HasEnds(After(g, steps, steps[i].renderedAfter), e)
  {
    var h := After(g, steps, steps[i].renderedAfter);
    ResolvedExists(h, steps[i].args.source);
    ResolvedExists(h, steps[i].args.target);
  }

  /** The card that created this edge had captured the endpoint before its removal, and was applied after it. */
  ghost predicate LateEdge(g: Graph, steps: seq<Step>, i: nat, n: nat, e: Edge, x: string)
    requires i < n <= |steps|
  {
    Creates(g, steps, i, e) && Gap(g, steps, i, n, x)
  }

  lemma LateEdgeDangles(g: Graph, steps: seq<Step>, i: nat, n: nat, e: Edge, x: string)
    requires i < n <= |steps| && FreshIds(g, steps) && Timely(steps)
    requires EndsAt(e, x) && LateEdge(g, steps, i, n, e, x)
    ensures x !in NodeIds(After(g, steps, n))
  {
    EndsExistedAtRender(g, steps, i, e);
    var j :| steps[i].renderedAfter <= j < i && Removes(g, steps, j, x) && NotShown(steps, j + 1, n, x);
    forall k | j < k < n && steps[k].Applied? ensures steps[k].id != x {
      NeverDrawnAgain(g, steps, steps[i].renderedAfter, k, x);
    }
    RemovedStaysAway(g, steps, j, n, x);
  }

  lemma LateEdgeLater(g: Graph, steps: seq<Step>, i: nat, n: nat, e: Edge, x: string)
    requires i < n < |steps| && LateEdge(g, steps, i, n, e, x) && !Shows(steps, n, x)
    ensures LateEdge(g, steps, i, n + 1, e, x)
  {
    var j :| steps[i].renderedAfter <= j < i && Removes(g, steps, j, x) && NotShown(steps, j + 1, n, x);
    assert NotShown(steps, j + 1, n + 1, x);
  }

  /** An edge that lacks an endpoint right after it was added is a late one. */
  lemma NewEdgeIsLate(g: Graph, steps: seq<Step>, i: nat, e: Edge, x: string)
    requires i < |steps| && Timely(steps) && Creates(g, steps, i, e)
    requires EndsAt(e, x) && x !in NodeIds(After(g, steps, i))
    ensures LateEdge(g, steps, i, i + 1, e, x)
  {
    EndsExistedAtRender(g, steps, i, e);
    VanishedWasRemoved(g, steps, steps[i].renderedAfter, i, x);
    var j :| steps[i].renderedAfter <= j < i && Removes(g, steps, j, x) && NotShown(steps, j + 1, i, x);
    assert NotShown(steps, j + 1, i + 1, x);
  }

  /** Where an edge without an endpoint comes from: it was one before, or has just been added. */
  lemma DanglingBefore(g: Graph, steps: seq<Step>, n: nat, e: Edge, x: string)
    requires n < |steps| && SoundChanges(g, steps)
    requires e in After(g, steps, n + 1).edges && EndsAt(e, x) && x !in NodeIds(After(g, steps, n + 1))
    ensures x !in NodeIds(After(g, steps, n)) && !Shows(steps, n, x)
    ensures e in After(g, steps, n).edges || Creates(g, steps, n, e)
  {
    var before := After(g, steps, n);
    if steps[n].Changed? {
      assert SoundChange(before, steps[n].graph);
    } else {
      EdgesAfter(before, CardOf(g, steps, n), steps[n].id, e);
      NodeIdsAfter(before, CardOf(g, steps, n), steps[n].id);
    }
  }

  /** After n steps this edge is there, and this endpoint of it is not. */
  predicate Dangles(g: Graph, steps: seq<Step>, n: nat, e: Edge, x: string)
    requires n <= |steps|
  {
    e in After(g, steps, n).edges && EndsAt(e, x) && x !in NodeIds(After(g, steps, n))
  }

  ghost predicate AddedLate(g: Graph, steps: seq<Step>, n: nat, e: Edge, x: string)
    requires n <= |steps|
  {
    exists i :: 0 <= i < n && LateEdge(g, steps, i, n, e, x)
  }

  lemma DanglingNext(g: Graph, steps: seq<Step>, n: nat, e: Edge, x: string)
    requires n < |steps| && Timely(steps) && SoundChanges(g, steps) && Dangles(g, steps, n + 1, e, x)
    ensures AddedLate(g, steps, n + 1, e, x) || Dangles(g, steps, n, e, x)
    ensures AddedLate(g, steps, n, e, x) ==> AddedLate(g, steps, n + 1, e, x)
  {
    DanglingBefore(g, steps, n, e, x);
    if i :| 0 <= i < n && LateEdge(g, steps, i, n, e, x) {
      LateEdgeLater(g, steps, i, n, e, x);
    }
    if e !in After(g, steps, n).edges {
      NewEdgeIsLate(g, steps, n, e, x);
    }
  }

  lemma NothingDanglesAtStart(g: Graph, steps: seq<Step>, e: Edge, x: string)
    requires WellFormed(g)
    ensures !Dangles(g, steps, 0, e, x)
  {
  }

  lemma DanglingHasGap(g: Graph, steps: seq<Step>, n: nat, e: Edge, x: string)
    requires n <= |steps| && WellFormed(g) && Timely(steps) && SoundChanges(g, steps) && Dangles(g, steps, n, e, x)
    ensures AddedLate(g, steps, n, e, x)
  {
    ghost var late := (m: nat) => m <= |steps| && (Dangles(g, steps, m, e, x) ==> AddedLate(g, steps, m, e, x));
    NothingDanglesAtStart(g, steps, e, x);
    forall m: nat | m < n && late(m) ensures late(m + 1) {
      if Dangles(g, steps, m + 1, e, x) {
        DanglingNext(g, steps, m, e, x);
      }
    }
    Climb(late, n);
  }

  /**
   * In every run of applied cards and canvas changes from a well-formed graph, an edge lacks an endpoint
   * if and only if the card that added it had captured this endpoint before, and was applied after,
   * its removal, and the canvas has not shown the endpoint since.
   */
  lemma DanglesExactlyByGap(g: Graph, steps: seq<Step>, n: nat, e: Edge, x: string)
    requires n <= |steps| && WellFormed(g) && FreshIds(g, steps) && Timely(steps) && SoundChanges(g, steps)
    requires e in After(g, steps, n).edges && EndsAt(e, x)
    ensures x !in NodeIds(After(g, steps, n)) <==> AddedLate(g, steps, n, e, x)
  {
    if i :| 0 <= i < n && LateEdge(g, steps, i, n, e, x) {
      LateEdgeDangles(g, steps, i, n, e, x);
    } else if x !in NodeIds(After(g, steps, n)) {
      DanglingHasGap(g, steps, n, e, x);
    }
  }

  /** Without such a gap the graph stays well-formed throughout. */
  lemma NoGapNoDangling(g: Graph, steps: seq<Step>, n: nat)
    requires n <= |steps| && WellFormed(g) && FreshIds(g, steps) && Timely(steps) && SoundChanges(g, steps)
    requires forall i, e, x :: 0 <= i < n && EndsAt(e, x) ==> !LateEdge(g, steps, i, n, e, x)
    ensures WellFormed(After(g, steps, n))
  {
    RunKeepsIdsDistinct(g, steps, n);
    forall e | e in After(g, steps, n).edges ensures HasEnds(After(g, steps, n), e) {
      DanglesExactlyByGap(g, steps, n, e, e.sourceId);
      DanglesExactlyByGap(g, steps, n, e, e.targetId);
    }
  }

  // ---- which names collide ----

  function Names(g: Graph): set<string> {
    set n | n in g.nodes :: n.name
  }

  ghost predicate NamesDistinct(g: Graph) {
    forall i, j :: 0 <= i < j < |g.nodes| ==> g.nodes[i].name != g.nodes[j].name
  }

  /** Step j of the run gives a node this name. */
  predicate Gives(g: Graph, steps: seq<Step>, j: nat, name: string)
    requires j < |steps|
  {
    if steps[j].Changed? then name in Names(steps[j].graph)
    else match CardOf(g, steps, j)
      case Insert(_, other, _, _) => other == name
      case Patch(_, newName, _, _) => newName == Some(name)
      case _ => false
  }

  /** Names after one card are names before it, unless the card gives one. */
  lemma NamesAfter(g: Graph, c: Card, id: string, name: string)
    requires name in Names(Apply(g, c, id))
    ensures name in Names(g) || (c.Insert? && c.name == name) || (c.Patch? && c.newName == Some(name))
  {
    var n :| n in Apply(g, c, id).nodes && n.name == name;
    match c
    case Delete(node) => WithoutNodeMember(g.nodes, node, n);
    case Patch(_, _, _, _) =>
      var i :| 0 <= i < |g.nodes| && PatchNodes(g.nodes, c)[i] == n;
      assert g.nodes[i] in g.nodes;
    case _ =>
  }

  /** A name that was not there and is there was given by some step between. */
  lemma {:induction false} AppearedWasGiven(g: Graph, steps: seq<Step>, m: nat, n: nat, name: string)
    requires m <= n <= |steps|
    requires name !in Names(After(g, steps, m)) && name in Names(After(g, steps, n))
    ensures exists j :: m <= j < n && Gives(g, steps, j, name)
    decreases n
  {
    if name in Names(After(g, steps, n - 1)) {
      AppearedWasGiven(g, steps, m, n - 1, name);
    } else {
      if steps[n - 1].Applied? {
        NamesAfter(After(g, steps, n - 1), CardOf(g, steps, n - 1), steps[n - 1].id, name);
      }
      assert Gives(g, steps, n - 1, name);
    }
  }

  /**
   * The duplicate-name check is made at rendering. Applying an add_node card makes two nodes share a
   * name exactly when the name is taken by then, and then a step applied after the rendering gave it.
   */
  lemma DuplicateOnlyByRace(g: Graph, steps: seq<Step>, i: nat)
    requires i < |steps| && Timely(steps) && CardOf(g, steps, i).Insert? && NamesDistinct(After(g, steps, i))
    ensures NamesDistinct(After(g, steps, i + 1)) <==> CardOf(g, steps, i).name !in Names(After(g, steps, i))
    ensures !NamesDistinct(After(g, steps, i + 1)) ==>
      exists j :: steps[i].renderedAfter <= j < i && Gives(g, steps, j, CardOf(g, steps, i).name)
  {
    var before, name := After(g, steps, i), CardOf(g, steps, i).name;
    var after := After(g, steps, i + 1);
    assert after.nodes == before.nodes + [NewNode(before.nodes, CardOf(g, steps, i), steps[i].id)];
    if name in Names(before) {
      var n :| n in before.nodes && n.name == name;
      var m :| 0 <= m < |before.nodes| && before.nodes[m] == n;
      assert after.nodes[m].name == after.nodes[|before.nodes|].name;
      NamedFirst(After(g, steps, steps[i].renderedAfter).nodes, name);
      AppearedWasGiven(g, steps, steps[i].renderedAfter, i, name);
    } else {
      forall n | n in before.nodes ensures n.name != name {
        assert n.name in Names(before);
      }
    }
  }

  /** Step i of the run makes two nodes share a name that did not before. */
  ghost predicate Collides(g: Graph, steps: seq<Step>, i: nat)
    requires i < |steps|
  {
    var before := After(g, steps, i);
    if steps[i].Changed? then !NamesDistinct(steps[i].graph)
    else match CardOf(g, steps, i)
      case Insert(_, name, _, _) => name in Names(before)
      case Patch(id, Some(name), _, _) =>
        id in NodeIds(before) && exists n :: n in before.nodes && n.id != id && n.name == name
      case _ => false
  }

  lemma {:induction false} WithoutNodeNames(nodes: seq<Node>, id: string)
    requires forall i, j :: 0 <= i < j < |nodes| ==> nodes[i].name != nodes[j].name
    ensures forall i, j :: 0 <= i < j < |WithoutNode(nodes, id)| ==>
      WithoutNode(nodes, id)[i].name != WithoutNode(nodes, id)[j].name
  {
    if nodes != [] {
      var rest := WithoutNode(nodes[1..], id);
      WithoutNodeNames(nodes[1..], id);
      forall n | n in rest ensures n.name != nodes[0].name {
        WithoutNodeMember(nodes[1..], id, n);
      }
    }
  }

  /** Two nodes share a name after a renaming exactly when another node had the new name. */
  lemma PatchedNames(g: Graph, c: Card)
    requires c.Patch? && IdsDistinct(g) && NamesDistinct(g)
    ensures NamesDistinct(g.(nodes := PatchNodes(g.nodes, c))) <==>
      !(c.newName.Some? && c.id in NodeIds(g)
        && exists n :: n in g.nodes && n.id != c.id && n.name == c.newName.value)
  {
    var h := g.(nodes := PatchNodes(g.nodes, c));
    if c.newName.Some? && c.id in NodeIds(g) {
      var k :| 0 <= k < |g.nodes| && g.nodes[k].id == c.id;
      assert h.nodes[k].name == c.newName.value;
      if n :| n in g.nodes && n.id != c.id && n.name == c.newName.value {
        var m :| 0 <= m < |g.nodes| && g.nodes[m] == n;
        assert h.nodes[m].name == h.nodes[k].name && m != k;
      }
    }
  }

  /** One step keeps names distinct exactly when it does not collide. */
  lemma NamesDistinctNext(g: Graph, steps: seq<Step>, i: nat)
    requires i < |steps| && IdsDistinct(After(g, steps, i)) && NamesDistinct(After(g, steps, i))
    ensures NamesDistinct(After(g, steps, i + 1)) <==> !Collides(g, steps, i)
  {
    var before := After(g, steps, i);
    if steps[i].Applied? {
      match CardOf(g, steps, i)
      case Insert(_, name, _, _) =>
        var added := NewNode(before.nodes, CardOf(g, steps, i), steps[i].id);
        AppendedName(before.nodes, added);
      case Patch(_, _, _, _) => PatchedNames(before, CardOf(g, steps, i));
      case Delete(id) => WithoutNodeNames(before.nodes, id);
      case _ =>
    }
  }

  lemma AppendedName(nodes: seq<Node>, added: Node)
    requires NamesDistinct(Graph(nodes, []))
    ensures NamesDistinct(Graph(nodes + [added], [])) <==> added.name !in Names(Graph(nodes, []))
  {
    var both := nodes + [added];
    if added.name in Names(Graph(nodes, [])) {
      var m :| 0 <= m < |nodes| && nodes[m].name == added.name;
      assert both[m].name == both[|nodes|].name;
    } else {
      forall m | 0 <= m < |nodes| ensures nodes[m].name != added.name {
        assert nodes[m] in Graph(nodes, []).nodes;
      }
    }
  }

  ghost predicate NamesDistinctUpTo(g: Graph, steps: seq<Step>, n: nat)
    requires n <= |steps|
  {
    forall m :: 0 <= m <= n ==> NamesDistinct(After(g, steps, m))
  }

  ghost predicate NoneCollides(g: Graph, steps: seq<Step>, n: nat)
    requires n <= |steps|
  {
    forall i :: 0 <= i < n ==> !Collides(g, steps, i)
  }

  ghost predicate IdsDistinctAt(g: Graph, steps: seq<Step>, m: nat)
    requires m <= |steps|
  {
    IdsDistinct(After(g, steps, m))
  }

  lemma NamesUpToNext(g: Graph, steps: seq<Step>, n: nat)
    requires n < |steps| && IdsDistinctAt(g, steps, n)
    requires NamesDistinctUpTo(g, steps, n) <==> NoneCollides(g, steps, n)
    ensures NamesDistinctUpTo(g, steps, n + 1) <==> NoneCollides(g, steps, n + 1)
  {
    if NamesDistinctUpTo(g, steps, n) {
      NamesDistinctNext(g, steps, n);
    }
  }

  lemma {:induction false} NamesUpTo(g: Graph, steps: seq<Step>, n: nat)
    requires n <= |steps| && NamesDistinct(g) && forall m :: 0 <= m < n ==> IdsDistinctAt(g, steps, m)
    ensures NamesDistinctUpTo(g, steps, n) <==> NoneCollides(g, steps, n)
  {
    if n > 0 {
      NamesUpTo(g, steps, n - 1);
      NamesUpToNext(g, steps, n - 1);
    }
  }

  /**
   * In every run from a graph whose nodes have different names, they keep different names throughout if
   * and only if no applied add_node gives a name that is taken by then, no applied update_node
   * gives a node that is still there the name of another, and no canvas change reports a duplicate.
   */
  lemma NamesStayDistinctIff(g: Graph, steps: seq<Step>, n: nat)
    requires n <= |steps| && IdsDistinct(g) && NamesDistinct(g) && FreshIds(g, steps) && SoundChanges(g, steps)
    ensures NamesDistinctUpTo(g, steps, n) <==> NoneCollides(g, steps, n)
  {
    forall m | 0 <= m < n ensures IdsDistinctAt(g, steps, m) {
      RunKeepsIdsDistinct(g, steps, m);
    }
    NamesUpTo(g, steps, n);
  }

  /** Two add_node cards of one name, rendered together and both applied: two nodes share the name. */
  lemma RaceDuplicates(name: string)
    ensures var add := AddNode(FunctionNode, name, None, None);
            var steps := [Applied(add, 0, "1"), Applied(add, 0, "2")];
            Timely(steps) && !NamesDistinct(After(EMPTY, steps, 2))
  {
    var add := AddNode(FunctionNode, name, None, None);
    var steps := [Applied(add, 0, "1"), Applied(add, 0, "2")];
    assert After(EMPTY, steps, 0) == EMPTY;
    assert CardOf(EMPTY, steps, 0) == CardOf(EMPTY, steps, 1) == Insert(FunctionNode, name, None, None);
    var one, two := After(EMPTY, steps, 1), After(EMPTY, steps, 2);
    assert |one.nodes| == 1 && one.nodes[0].name == name;
    assert |two.nodes| == 2 && two.nodes[0].name == two.nodes[1].name;
  }

  /** With no race at all: an update_node card that renames a node to the name of another is never refused. */
  lemma UpdateDuplicates(a: Node, b: Node)
    requires a.id != b.id && a.id != "" && a.name != b.name
    ensures var g, steps := Graph([a, b], []), [Applied(UpdateNode(a.id, Some(b.name), None, None), 0, "1")];
            NamesDistinct(g) && Timely(steps) && !NamesDistinct(After(g, steps, 1))
  {
    var g, steps := Graph([a, b], []), [Applied(UpdateNode(a.id, Some(b.name), None, None), 0, "1")];
    assert After(g, steps, 0) == g;
    assert CardOf(g, steps, 0) == Patch(a.id, Some(b.name), None, None);
    var h := After(g, steps, 1);
    assert h.nodes[0].name == h.nodes[1].name;
  }

  // ---- where added nodes land ----

  /** The first n nodes of a history of additions that leave the position to the editor. */
  function Laid(kinds: seq<NodeKind>, n: nat): (nodes: seq<Node>)
    requires n <= |kinds|
    ensures |nodes| == n
  {
    if n == 0 then []
    else
      var before := Laid(kinds, n - 1);
      before + [NewNode(before, Insert(kinds[n - 1], "", None, None), "")]
  }

  /** Where the i-th node of the history lands. */
  function PlaceOf(kinds: seq<NodeKind>, i: nat): Position
    requires i < |kinds|
  {
    Laid(kinds, |kinds|)[i].position
  }

  function Middles(kinds: seq<NodeKind>, n: nat): nat
    requires n <= |kinds|
  {
    if n == 0 then 0 else Middles(kinds, n - 1) + (if IsMiddle(kinds[n - 1]) then 1 else 0)
  }

  /** At most one input, at most one output, and no middle node after the output. */
  predicate Tidy(kinds: seq<NodeKind>) {
    && (forall i, j :: 0 <= i < j < |kinds| && kinds[i].InputNode? ==> !kinds[j].InputNode?)
    && (forall i, j :: 0 <= i < j < |kinds| && kinds[i].OutputNode? ==> kinds[j].InputNode?)
  }

  /** The counts and the maximum the placement looks at. */
  lemma {:induction false} LaidMeasures(kinds: seq<NodeKind>, n: nat)
    requires n <= |kinds|
    ensures MiddleCount(Laid(kinds, n)) == Middles(kinds, n)
    ensures MaxX(Laid(kinds, n)) == X_INPUT + HORIZONTAL_GAP * Middles(kinds, n)
  {
    if n > 0 {
      LaidMeasures(kinds, n - 1);
      assert Laid(kinds, n)[..n - 1] == Laid(kinds, n - 1);
    }
  }

  /** A node stays where it was put. */
  lemma {:induction false} LaidStays(kinds: seq<NodeKind>, i: nat, n: nat)
    requires i < n <= |kinds|
    ensures Laid(kinds, n)[i] == Laid(kinds, i + 1)[i]
    decreases n
  {
    if i + 1 < n {
      LaidStays(kinds, i, n - 1);
    }
  }

  /** Where the i-th node lands depends only on its kind and the number of middle nodes before it. */
  lemma PlaceAt(kinds: seq<NodeKind>, i: nat)
    requires i < |kinds|
    ensures PlaceOf(kinds, i).y == Y_CENTER
    ensures PlaceOf(kinds, i).x ==
      if kinds[i].InputNode? then X_INPUT else X_INPUT + HORIZONTAL_GAP * (1 + Middles(kinds, i))
  {
    LaidStays(kinds, i, |kinds|);
    LaidMeasures(kinds, i);
  }

  lemma {:induction false} MiddlesGrow(kinds: seq<NodeKind>, i: nat, j: nat)
    requires i <= j <= |kinds|
    ensures Middles(kinds, i) <= Middles(kinds, j)
    ensures (exists k :: i <= k < j && IsMiddle(kinds[k])) <==> Middles(kinds, i) < Middles(kinds, j)
    decreases j
  {
    if i < j {
      MiddlesGrow(kinds, i, j - 1);
    }
  }

  /** No two nodes share a place. */
  ghost predicate Spread(kinds: seq<NodeKind>) {
    forall i, j :: 0 <= i < j < |kinds| ==> PlaceOf(kinds, i) != PlaceOf(kinds, j)
  }

  /** All nodes share one row, a multiple of the gap apart. */
  lemma OnTheGrid(kinds: seq<NodeKind>, i: nat)
    requires i < |kinds|
    ensures PlaceOf(kinds, i).y == Y_CENTER
    ensures exists m: nat :: PlaceOf(kinds, i).x == X_INPUT + HORIZONTAL_GAP * m
  {
    PlaceAt(kinds, i);
    var m := if kinds[i].InputNode? then 0 else 1 + Middles(kinds, i);
    assert PlaceOf(kinds, i).x == X_INPUT + HORIZONTAL_GAP * m;
  }

  lemma TidyNodesApart(kinds: seq<NodeKind>, i: nat, j: nat)
    requires Tidy(kinds) && i < j < |kinds|
    ensures PlaceOf(kinds, i) != PlaceOf(kinds, j)
  {
    PlaceAt(kinds, i);
    PlaceAt(kinds, j);
    MiddlesGrow(kinds, i, j);
    if !kinds[i].InputNode? && !kinds[j].InputNode? {
      assert IsMiddle(kinds[i]);
    }
  }

  lemma InputsOverlap(kinds: seq<NodeKind>, i: nat, j: nat)
    requires i < j < |kinds| && kinds[i].InputNode? && kinds[j].InputNode?
    ensures !Spread(kinds)
  {
    PlaceAt(kinds, i);
    PlaceAt(kinds, j);
  }

  lemma OutputOverlaps(kinds: seq<NodeKind>, i: nat, j: nat)
    requires i < j < |kinds| && kinds[i].OutputNode? && !kinds[j].InputNode?
    ensures !Spread(kinds)
  {
    var k := FirstFrom(kinds, i + 1, j);
    MiddlesGrow(kinds, i, k);
    PlaceAt(kinds, i);
    PlaceAt(kinds, k);
  }

  /**
   * No two nodes share a place exactly when there is at most one input and one output and no middle
   * node was added after the output.
   */
  lemma PlacesDistinctIffTidy(kinds: seq<NodeKind>)
    ensures Spread(kinds) <==> Tidy(kinds)
  {
    if Tidy(kinds) {
      forall i, j | 0 <= i < j < |kinds| ensures PlaceOf(kinds, i) != PlaceOf(kinds, j) {
        TidyNodesApart(kinds, i, j);
      }
    } else if i, j :| 0 <= i < j < |kinds| && kinds[i].InputNode? && kinds[j].InputNode? {
      InputsOverlap(kinds, i, j);
    } else {
      var i, j :| 0 <= i < j < |kinds| && kinds[i].OutputNode? && !kinds[j].InputNode?;
      OutputOverlaps(kinds, i, j);
    }
  }

  /** The first node from position m on that is not an input. */
  lemma {:induction false} FirstFrom(kinds: seq<NodeKind>, m: nat, j: nat) returns (k: nat)
    requires m <= j < |kinds| && !kinds[j].InputNode?
    ensures m <= k <= j && !kinds[k].InputNode? && forall i :: m <= i < k ==> kinds[i].InputNode?
    decreases j - m
  {
    if kinds[m].InputNode? {
      k := FirstFrom(kinds, m + 1, j);
    } else {
      k := m;
    }
  }

  /** An output added last, as the only one, stands exactly one gap to the right of the rightmost other node. */
  lemma OutputEndsTheRow(kinds: seq<NodeKind>, n: nat)
    requires |kinds| == n + 1 && kinds[n].OutputNode? && forall i :: 0 <= i < n ==> !kinds[i].OutputNode?
    ensures forall i :: 0 <= i < n ==> PlaceOf(kinds, i).x + HORIZONTAL_GAP <= PlaceOf(kinds, n).x
    ensures n > 0 ==> exists i :: 0 <= i < n && PlaceOf(kinds, i).x + HORIZONTAL_GAP == PlaceOf(kinds, n).x
  {
    PlaceAt(kinds, n);
    forall i | 0 <= i < n ensures PlaceOf(kinds, i).x + HORIZONTAL_GAP <= PlaceOf(kinds, n).x {
      PlaceAt(kinds, i);
      MiddlesGrow(kinds, i, n);
      assert IsMiddle(kinds[i]) || kinds[i].InputNode?;
    }
    if n > 0 {
      var k := Rightmost(kinds, n);
      PlaceAt(kinds, k);
    }
  }

  /** Among the first n nodes, none of them an output, one that no other exceeds. */
  lemma {:induction false} Rightmost(kinds: seq<NodeKind>, n: nat) returns (k: nat)
    requires 0 < n <= |kinds| && forall i :: 0 <= i < n ==> !kinds[i].OutputNode?
    ensures k < n
    ensures if Middles(kinds, n) == 0 then kinds[k].InputNode?
            else IsMiddle(kinds[k]) && Middles(kinds, k) + 1 == Middles(kinds, n)
  {
    if IsMiddle(kinds[n - 1]) || n == 1 {
      k := n - 1;
      assert Middles(kinds, 0) == 0;
    } else {
      k := Rightmost(kinds, n - 1);
    }
  }
}
