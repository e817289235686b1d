// The workflow graph shared by the agent and the editor: nodes, edges, Group
// membership, and the arcs the walks follow.
module WorkflowGraph {
  import opened Reachability
  import opened Sequences

  datatype Option<+T> = None | Some(value: T)

  datatype Kind = Lifecycle | Action | Add | Group

  datatype Position = Position(x: real, y: real)

  function Plus(a: Position, b: Position): Position { Position(a.x + b.x, a.y + b.y) }

  // A config bag. Every value the agent writes is a string.
  type Config = map<string, string>

  datatype NodeData = NodeData(labelText: string, description: Option<string>, enabled: Option<bool>, config: Config)

  datatype Node = Node(id: Id, kind: Kind, parentId: Option<Id>, position: Position, data: NodeData)

  // An absent handle and a null handle are one value here.
  datatype Edge = Edge(id: Id, source: Id, target: Id, sourceHandle: Option<string>, targetHandle: Option<string>)

  datatype Graph = Graph(nodes: seq<Node>, edges: seq<Edge>)

  const CONDITION := "Condition"
  const WAIT := "Wait"
  const EVENT_SPLIT := "Event Split"
  const STARTED := "started"
  const CANCELED := "canceled"

  function ActionTypeOf(node: Node): Option<string> {
    if node.kind == Action && "actionType" in node.data.config then Some(node.data.config["actionType"]) else None
  }

  predicate IsGroup(node: Node) { node.kind == Group }

  predicate IsEventSplit(node: Node) { ActionTypeOf(node) == Some(EVENT_SPLIT) }

  // A step a Group may contain: any action but an Event Split.
  predicate IsGroupableStep(node: Node) { node.kind == Action && !IsEventSplit(node) }

  // A parent id that is the empty string reads as no parent.
  predicate HasParent(node: Node) { node.parentId.Some? && node.parentId.value != "" }

  function Lookup(nodes: seq<Node>, id: Id): (found: Option<Node>)
    ensures found.Some? <==> exists n :: n in nodes && n.id == id
    ensures found.Some? ==> found.value in nodes && found.value.id == id
  {
    if nodes == [] then None
    else if nodes[0].id == id then Some(nodes[0])
    else Lookup(nodes[1..], id)
  }

  function LookupEdge(edges: seq<Edge>, id: Id): (found: Option<Edge>)
    ensures found.Some? <==> exists e :: e in edges && e.id == id
    ensures found.Some? ==> found.value in edges && found.value.id == id
  {
    if edges == [] then None
    else if edges[0].id == id then Some(edges[0])
    else LookupEdge(edges[1..], id)
  }

  // --- names joined into one key ---

  function HandleText(handle: Option<string>): string { if handle.Some? then handle.value else "" }

  function JoinNul(part: string, rest: string): string { part + "\0" + rest }

  // A name without the separator, as every generated id is.
  predicate NoNul(name: string) { '\0' !in name }

  // Before the first separator stands the first part, when none is inside it.
  lemma FirstPart(a: string, x: string, b: string, y: string)
    requires NoNul(a) && NoNul(b) && JoinNul(a, x) == JoinNul(b, y)
    ensures a == b && x == y
  {
    var key, m, n := JoinNul(a, x), |a|, |b|;
    assert key[m] == '\0' && key[n] == '\0';
    assert forall i | 0 <= i < m :: key[i] == a[i];
    assert forall i | 0 <= i < n :: key[i] == b[i];
    assert m == n;
    assert key[..m] == a && key[..m] == b && key[m + 1..] == x && key[m + 1..] == y;
  }

  // --- lookups ---

  function NodeId(n: Node): Id { n.id }

  function EdgeId(e: Edge): Id { e.id }

  function NodeIds(nodes: seq<Node>): set<Id> {
    set n | n in nodes :: n.id
  }

  function EdgeIds(edges: seq<Edge>): set<Id> {
    set e | e in edges :: e.id
  }

  function ArcOf(e: Edge): (Id, Id) { (e.source, e.target) }

  function ArcsOf(edges: seq<Edge>): Arcs {
    set e | e in edges :: ArcOf(e)
  }

  // The arcs the walks follow: both skip a node whose id is the empty string.
  function SolidArcs(edges: seq<Edge>): Arcs {
    set e | e in edges && e.target != "" :: ArcOf(e)
  }

  ghost predicate UniqueNodeIds(nodes: seq<Node>) {
    DistinctBy(nodes, NodeId)
  }

  ghost predicate UniqueEdgeIds(edges: seq<Edge>) {
    DistinctBy(edges, EdgeId)
  }

  ghost predicate NoDanglingEdge(g: Graph) {
    forall e | e in g.edges :: e.source in NodeIds(g.nodes) && e.target in NodeIds(g.nodes)
  }

  lemma UniqueNode(nodes: seq<Node>, m: Node, n: Node)
    requires UniqueNodeIds(nodes) && m in nodes && n in nodes && m.id == n.id
    ensures m == n
  {
  }

  lemma UniqueEdge(edges: seq<Edge>, d: Edge, e: Edge)
    requires UniqueEdgeIds(edges) && d in edges && e in edges && d.id == e.id
    ensures d == e
  {
  }

  // With no empty id among the targets, the walks follow every arc.
  lemma SolidArcsAll(edges: seq<Edge>)
    requires forall e | e in edges :: e.target != ""
    ensures SolidArcs(edges) == ArcsOf(edges)
  {
  }
}
