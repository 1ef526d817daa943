/** The decision graph as the editor holds it. */
module DecisionGraph {
  import opened Wrappers

  datatype NodeKind = InputNode | OutputNode | DecisionTableNode | ExpressionNode | FunctionNode | SwitchNode
                    | CustomNode | DecisionNode

  datatype Position = Position(x: int, y: int)

  datatype Node = Node(id: string, kind: NodeKind, name: string, position: Position, content: Option<string>)

  datatype Edge = Edge(id: string, sourceId: string, targetId: string,
                       sourceHandle: Option<string>, targetHandle: Option<string>)

  datatype Graph = Graph(nodes: seq<Node>, edges: seq<Edge>)

  const EMPTY := Graph([], [])
}
