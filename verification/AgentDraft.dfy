// The build agent's draft for one chat turn: the edits its tools propose, the
// one path that stores a revision, and the calls themselves as state changes.
module AgentDraft {
  import opened Reachability
  import opened Sequences
  import opened WorkflowGraph
  import opened GroupRules
  import opened Topology

  datatype Entry = Entry(key: string, value: string)

  datatype ConfigQuery = ConfigQuery(actionId: string, patch: seq<Entry>, clear: seq<string>, current: Config,
                                     at: Option<(Graph, Id)>)

  // What the host decides: the catalog, the config rules, which Events reach an
  // Event Split, the join rules, the host's own veto, and where a released
  // member lands.
  datatype Host = Host(
    listsAction: string -> bool,
    refusesConfig: ConfigQuery -> bool,
    eventReaches: (Graph, Id, string) -> bool,
    refusesJoin: Graph -> bool,
    refusesUpdate: Graph -> bool,
    place: (Graph, Node) -> Position)

  datatype Refusal =
    | UnknownNode | UnknownEdge | UnknownAction | ActionTypeNamed | ConfigRefused
    | GroupTakesLabelOnly | LifecycleConfigOwned | GroupNotDeletable
    | SelfFlow | FrameTakesNoEdges | OutletRefused | AlreadyConnected | WouldLoop
    | TopologyRefused(reason: Reason) | HostRefused

  datatype Result<+T> = Ok(value: T) | Refused(why: Refusal)

  // One tool call with the ids `generateId` answers while it runs.
  datatype ToolCall =
    | RevertDraft
    | AddNode(actionId: string, labelText: string, description: Option<string>, config: seq<Entry>, newNodeId: Id)
    | UpdateNode(nodeId: Id, newLabel: Option<string>, newDescription: Option<string>, enabled: Option<bool>,
      patch: seq<Entry>, clear: seq<string>)
    | DeleteNode(nodeId: Id)
    | ConnectNodes(source: Id, target: Id, sourceHandle: Option<string>, newEdgeId: Id)
    | DisconnectNodes(edgeId: Id)
    | InsertNodeOnEdge(edgeId: Id, actionId: string, labelText: string, description: Option<string>,
      config: seq<Entry>, outgoingHandle: Option<string>, newNodeId: Id, newEdgeId: Id)

  const UNPLACED := Position(0.0, 0.0)

  // --- reading and writing config bags ---

  // Later entries win, as `Object.fromEntries` has it.
  function ToConfigRecord(entries: seq<Entry>): Config {
    if entries == [] then map[]
    else
      var last := entries[|entries| - 1];
      ToConfigRecord(entries[..|entries| - 1])[last.key := last.value]
  }

  predicate NamesKey(entries: seq<Entry>, key: string) {
    exists i :: 0 <= i < |entries| && entries[i].key == key
  }

  predicate LastNamed(entries: seq<Entry>, key: string, i: int) {
    && 0 <= i < |entries| && entries[i].key == key
    && forall j | i < j < |entries| :: entries[j].key != key
  }

  lemma {:induction false} RecordHolds(entries: seq<Entry>, key: string)
    ensures key in ToConfigRecord(entries) <==> NamesKey(entries, key)
    ensures key in ToConfigRecord(entries)
            ==> exists i :: LastNamed(entries, key, i) && ToConfigRecord(entries)[key] == entries[i].value
  {
    if entries != [] {
      var n := |entries| - 1;
      var front := entries[..n];
      RecordHolds(front, key);
      if entries[n].key == key {
        assert LastNamed(entries, key, n);
      } else if key in ToConfigRecord(front) {
        var i :| LastNamed(front, key, i) && ToConfigRecord(front)[key] == front[i].value;
        assert LastNamed(entries, key, i);
        assert NamesKey(entries, key) by { assert entries[i].key == key; }
      } else {
        forall i | 0 <= i < |entries| ensures entries[i].key != key {
          if i < n { assert front[i].key != key; }
        }
      }
    }
  }

  function MergedConfig(current: Config, patch: seq<Entry>, clear: seq<string>): Config {
    (current + ToConfigRecord(patch)) - (set k | k in clear)
  }

  function ActionNode(nodeId: Id, actionId: string, labelText: string, description: Option<string>,
                      config: seq<Entry>): Node {
    Node(nodeId, Action, None, UNPLACED,
         NodeData(labelText, description, None, map["actionType" := actionId] + ToConfigRecord(config)))
  }

  predicate KnownAction(host: Host, actionId: string) {
    actionId in {CONDITION, WAIT, EVENT_SPLIT} || host.listsAction(actionId)
  }

  // --- outlets ---

  const WHITESPACE := {' ', '\t', '\n', '\r', '\U{0B}', '\U{0C}', '\U{A0}', '\U{FEFF}', '\U{1680}',
                       '\U{2000}', '\U{2001}', '\U{2002}', '\U{2003}', '\U{2004}', '\U{2005}', '\U{2006}',
                       '\U{2007}', '\U{2008}', '\U{2009}', '\U{200A}', '\U{2028}', '\U{2029}', '\U{202F}',
                       '\U{205F}', '\U{3000}'}

  function Trim(s: string): string {
    if s == "" then s
    else if s[0] in WHITESPACE then Trim(s[1..])
    else if s[|s| - 1] in WHITESPACE then Trim(s[..|s| - 1])
    else s
  }

  // The Event an Event Split outlet names.
  function OutletEvent(handle: Option<string>): Option<string> {
    if handle.Some? && "event:" <= handle.value && Trim(handle.value[|"event:"|..]) != ""
    then Some(Trim(handle.value[|"event:"|..]))
    else None
  }

  predicate OutletRefusal(host: Host, g: Graph, source: Node, handle: Option<string>) {
    if source.kind == Lifecycle then handle !in {Some(STARTED), Some(CANCELED)}
    else if ActionTypeOf(source) == Some(CONDITION) then handle !in {Some("true"), Some("false")}
    else if IsEventSplit(source) then
      OutletEvent(handle).None? || !host.eventReaches(g, source.id, OutletEvent(handle).value)
    else handle.Some?
  }

  // --- what each tool proposes ---

  ghost predicate WouldCycle(edges: seq<Edge>, source: Id, target: Id) {
    Reaches(SolidArcs(edges), target, source)
  }

  // The Group an inserted step joins: the shared Group of both ends.
  function InsertedGroup(g: Graph, edge: Edge, step: Node): Option<Id> {
    var parent := ParentOf(g.nodes, edge.source);
    if IsGroupableStep(step) && parent == ParentOf(g.nodes, edge.target) then parent else None
  }

  function ProposeAdd(host: Host, g: Graph, call: ToolCall): Result<Graph>
    requires call.AddNode?
  {
    if !KnownAction(host, call.actionId) then Refused(UnknownAction)
    else if NamesKey(call.config, "actionType") then Refused(ActionTypeNamed)
    else if host.refusesConfig(ConfigQuery(call.actionId, call.config, [], map[], None)) then Refused(ConfigRefused)
    else
      Ok(g.(nodes := g.nodes + [ActionNode(call.newNodeId, call.actionId, call.labelText, call.description,
        call.config)]))
  }

  function Updated(node: Node, call: ToolCall): Node
    requires call.UpdateNode?
  {
    var enabled := if call.enabled.Some? then call.enabled else node.data.enabled;
    node.(data := NodeData(
      if call.newLabel.Some? then call.newLabel.value else node.data.labelText,
      if call.newDescription.Some? then call.newDescription else node.data.description,
      if enabled == Some(false) then enabled else None,
      MergedConfig(node.data.config, call.patch, call.clear)))
  }

  function Replacing(id: Id, with: Node): Node -> Node {
    (n: Node) => if n.id == id then with else n
  }

  function ProposeUpdate(host: Host, g: Graph, call: ToolCall): Result<Graph>
    requires call.UpdateNode?
  {
    var found := Lookup(g.nodes, call.nodeId);
    if found.None? then Refused(UnknownNode)
    else
      var node := found.value;
      if NamesKey(call.patch, "actionType") || "actionType" in call.clear then Refused(ActionTypeNamed)
      else if ActionTypeOf(node).Some? && ActionTypeOf(node).value != "" &&
        host.refusesConfig(ConfigQuery(ActionTypeOf(node).value, call.patch, call.clear, node.data.config,
          Some((g, node.id))))
      then Refused(ConfigRefused)
      else if IsGroup(node) && (call.enabled.Some? || call.patch != [] || call.clear != [])
        then Refused(GroupTakesLabelOnly)
      else if node.kind == Lifecycle && (call.patch != [] || call.clear != []) then Refused(LifecycleConfigOwned)
      else Ok(g.(nodes := Map(g.nodes, Replacing(call.nodeId, Updated(node, call)))))
  }

  function NotNode(id: Id): Node -> bool { (n: Node) => n.id != id }

  function NotTouching(id: Id): Edge -> bool { (e: Edge) => e.source != id && e.target != id }

  function NotEdge(id: Id): Edge -> bool { (e: Edge) => e.id != id }

  function ProposeDelete(g: Graph, call: ToolCall): Result<Graph>
    requires call.DeleteNode?
  {
    var found := Lookup(g.nodes, call.nodeId);
    if found.None? then Refused(UnknownNode)
    else if IsGroup(found.value) then Refused(GroupNotDeletable)
    else Ok(Graph(Filter(g.nodes, NotNode(call.nodeId)), Filter(g.edges, NotTouching(call.nodeId))))
  }

  ghost function ProposeConnect(host: Host, g: Graph, call: ToolCall): Result<Graph>
    requires call.ConnectNodes?
  {
    var source, target := Lookup(g.nodes, call.source), Lookup(g.nodes, call.target);
    if source.None? || target.None? then Refused(UnknownNode)
    else if call.source == call.target then Refused(SelfFlow)
    else if IsGroup(source.value) || IsGroup(target.value) then Refused(FrameTakesNoEdges)
    else if OutletRefusal(host, g, source.value, call.sourceHandle) then Refused(OutletRefused)
    else if exists e :: e in g.edges && e.source == call.source && e.target == call.target
             && e.sourceHandle == call.sourceHandle
    then Refused(AlreadyConnected)
    else if WouldCycle(g.edges, call.source, call.target) then Refused(WouldLoop)
    else Ok(g.(edges := g.edges + [Edge(call.newEdgeId, call.source, call.target, call.sourceHandle, None)]))
  }

  function ProposeDisconnect(g: Graph, call: ToolCall): Result<Graph>
    requires call.DisconnectNodes?
  {
    if LookupEdge(g.edges, call.edgeId).None? then Refused(UnknownEdge)
    else Ok(g.(edges := Filter(g.edges, NotEdge(call.edgeId))))
  }

  // `flatMap` putting `pair` where the edge `id` stood.
  function Splice(edges: seq<Edge>, id: Id, pair: seq<Edge>): seq<Edge> {
    if edges == [] then []
    else (if edges[0].id == id then pair else [edges[0]]) + Splice(edges[1..], id, pair)
  }

  function InsertedStep(g: Graph, edge: Edge, call: ToolCall): Node
    requires call.InsertNodeOnEdge?
  {
    var step := ActionNode(call.newNodeId, call.actionId, call.labelText, call.description, call.config);
    step.(parentId := InsertedGroup(g, edge, step))
  }

  function Inserted(g: Graph, edge: Edge, call: ToolCall): Graph
    requires call.InsertNodeOnEdge?
  {
    var incoming := edge.(target := call.newNodeId);
    var outgoing := Edge(call.newEdgeId, call.newNodeId, edge.target, call.outgoingHandle, None);
    Graph(g.nodes + [InsertedStep(g, edge, call)], Splice(g.edges, edge.id, [incoming, outgoing]))
  }

  function ProposeInsert(host: Host, g: Graph, call: ToolCall): Result<Graph>
    requires call.InsertNodeOnEdge?
  {
    var found := LookupEdge(g.edges, call.edgeId);
    if found.None? then Refused(UnknownEdge)
    else if !KnownAction(host, call.actionId) then Refused(UnknownAction)
    else if NamesKey(call.config, "actionType") then Refused(ActionTypeNamed)
    else
      var candidate := Inserted(g, found.value, call);
      if OutletRefusal(host, candidate, InsertedStep(g, found.value, call), call.outgoingHandle)
        then Refused(OutletRefused)
      else if host.refusesConfig(ConfigQuery(call.actionId, call.config, [], map[], None)) then Refused(ConfigRefused)
      else Ok(candidate)
  }

  // --- the draft ---

  datatype DraftState = DraftState(document: Graph, revisions: seq<Graph>)

  ghost function Proposal(host: Host, s: DraftState, call: ToolCall): Result<Graph>
    requires |s.revisions| > 0
  {
    match call
    case RevertDraft => Ok(s.revisions[0])
    case AddNode(_, _, _, _, _) => ProposeAdd(host, s.document, call)
    case UpdateNode(_, _, _, _, _, _) => ProposeUpdate(host, s.document, call)
    case DeleteNode(_) => ProposeDelete(s.document, call)
    case ConnectNodes(_, _, _, _) => ProposeConnect(host, s.document, call)
    case DisconnectNodes(_) => ProposeDisconnect(s.document, call)
    case InsertNodeOnEdge(_, _, _, _, _, _, _, _) => ProposeInsert(host, s.document, call)
  }

  function PlaceIn(host: Host, g: Graph): Node -> Position {
    (n: Node) => host.place(g, n)
  }

  // An edit with every undersized Group dissolved.
  function Settled(host: Host, edited: Graph): Graph {
    edited.(nodes := Dissolve(edited.nodes, UndersizedGroupIds(edited.nodes), PlaceIn(host, edited)))
  }

  ghost function Verdict(host: Host, candidate: Graph): Option<Refusal> {
    var reason := TopologyReason(candidate, host.refusesJoin(candidate));
    if reason.Some? then Some(TopologyRefused(reason.value))
    else if host.refusesUpdate(candidate) then Some(HostRefused)
    else None
  }

  ghost function Commit(host: Host, s: DraftState, edited: Graph): (DraftState, Result<Graph>) {
    var candidate := Settled(host, edited);
    var verdict := Verdict(host, candidate);
    if verdict.Some? then (s, Refused(verdict.value))
    else (DraftState(candidate, s.revisions + [candidate]), Ok(candidate))
  }

  ghost function Answer(host: Host, s: DraftState, call: ToolCall): (DraftState, Result<Graph>)
    requires |s.revisions| > 0
  {
    var proposal := Proposal(host, s, call);
    if proposal.Refused? then (s, Refused(proposal.why)) else Commit(host, s, proposal.value)
  }
}
