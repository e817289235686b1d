// The draft service and its tool handlers as they run: a cell holding the
// document and its revisions, and one method per tool.
module AgentTools {
  import opened Sequences
  import opened WorkflowGraph
  import opened GraphWalks
  import opened Topology
  import opened AgentDraft
  import opened AgentEdits
  import opened AgentRuns

  class WorkflowDraft {
    const host: Host
    var document: Graph
    var revisions: seq<Graph>

    ghost predicate Valid()
      reads this
    {
      |revisions| > 0
    }

    ghost function State(): DraftState
      reads this
    {
      DraftState(document, revisions)
    }

    constructor (host: Host, opening: Graph)
      ensures Valid() && this.host == host && State() == Opened(opening)
    {
      this.host := host;
      document, revisions := opening, [opening];
    }

    // The one path that stores a revision: settle, check, then replace the cell.
    method Update(edit: Graph -> Graph) returns (result: Result<Graph>)
      requires Valid()
      modifies this
      ensures Valid()
      ensures (State(), result) == Commit(host, old(State()), edit(old(document)))
    {
      var candidate := Settled(host, edit(document));
      var reason := TopologyRefusalReason(candidate, host.refusesJoin(candidate));
      if reason.Some? {
        return Refused(TopologyRefused(reason.value));
      }
      if host.refusesUpdate(candidate) {
        return Refused(HostRefused);
      }
      document, revisions := candidate, revisions + [candidate];
      result := Ok(candidate);
    }

    method RevertDraft() returns (result: Result<Graph>)
      requires Valid()
      modifies this
      ensures Valid()
      ensures (State(), result) == Answer(host, old(State()), ToolCall.RevertDraft)
    {
      var opening := revisions[0];
      result := Update(_ => opening);
    }

    method AddNode(call: ToolCall) returns (result: Result<Graph>)
      requires Valid() && call.AddNode?
      modifies this
      ensures Valid()
      ensures (State(), result) == Answer(host, old(State()), call)
    {
      if !KnownAction(host, call.actionId) {
        return Refused(UnknownAction);
      }
      if NamesKey(call.config, "actionType") {
        return Refused(ActionTypeNamed);
      }
      if host.refusesConfig(ConfigQuery(call.actionId, call.config, [], map[], None)) {
        return Refused(ConfigRefused);
      }
      var node := ActionNode(call.newNodeId, call.actionId, call.labelText, call.description, call.config);
      result := Update((g: Graph) => g.(nodes := g.nodes + [node]));
    }

    method UpdateNode(call: ToolCall) returns (result: Result<Graph>)
      requires Valid() && call.UpdateNode?
      modifies this
      ensures Valid()
      ensures (State(), result) == Answer(host, old(State()), call)
    {
      hide MergedConfig, ToConfigRecord, Verdict, Settled, Map;
      var found := Lookup(document.nodes, call.nodeId);
      if found.None? {
        return Refused(UnknownNode);
      }
      var node := found.value;
      if NamesKey(call.patch, "actionType") || "actionType" in call.clear {
        return Refused(ActionTypeNamed);
      }
      var actionId := ActionTypeOf(node);
      if actionId.Some? && actionId.value != "" {
        if host.refusesConfig(ConfigQuery(actionId.value, call.patch, call.clear, node.data.config,
          Some((document, node.id)))) {
          return Refused(ConfigRefused);
        }
      }
      if IsGroup(node) && (call.enabled.Some? || call.patch != [] || call.clear != []) {
        return Refused(GroupTakesLabelOnly);
      }
      if node.kind == Lifecycle && (call.patch != [] || call.clear != []) {
        return Refused(LifecycleConfigOwned);
      }
      var config := MergeConfig(node.data.config, call.patch, call.clear);
      var enabled := if call.enabled.Some? then call.enabled else node.data.enabled;
      var updated := node.(data := NodeData(
        if call.newLabel.Some? then call.newLabel.value else node.data.labelText,
        if call.newDescription.Some? then call.newDescription else node.data.description,
        if enabled == Some(false) then enabled else None,
        config));
      assert updated == Updated(node, call);
      result := Update((g: Graph) => g.(nodes := Map(g.nodes, Replacing(call.nodeId, updated))));
    }

    method DeleteNode(call: ToolCall) returns (result: Result<Graph>)
      requires Valid() && call.DeleteNode?
      modifies this
      ensures Valid()
      ensures (State(), result) == Answer(host, old(State()), call)
    {
      var node := Lookup(document.nodes, call.nodeId);
      if node.None? {
        return Refused(UnknownNode);
      }
      if IsGroup(node.value) {
        return Refused(GroupNotDeletable);
      }
      result := Update((g: Graph) => Graph(Filter(g.nodes, NotNode(call.nodeId)),
        Filter(g.edges, NotTouching(call.nodeId))));
    }

    method ConnectNodes(call: ToolCall) returns (result: Result<Graph>)
      requires Valid() && call.ConnectNodes?
      modifies this
      ensures Valid()
      ensures (State(), result) == Answer(host, old(State()), call)
    {
      var source, target := Lookup(document.nodes, call.source), Lookup(document.nodes, call.target);
      if source.None? {
        return Refused(UnknownNode);
      }
      if target.None? {
        return Refused(UnknownNode);
      }
      if call.source == call.target {
        return Refused(SelfFlow);
      }
      if IsGroup(source.value) || IsGroup(target.value) {
        return Refused(FrameTakesNoEdges);
      }
      if OutletRefusal(host, document, source.value, call.sourceHandle) {
        return Refused(OutletRefused);
      }
      if exists e :: e in document.edges && e.source == call.source && e.target == call.target
          && e.sourceHandle == call.sourceHandle {
        return Refused(AlreadyConnected);
      }
      var upstream := UpstreamNodeIds(call.source, document.edges);
      if call.target in upstream {
        return Refused(WouldLoop);
      }
      var edge := Edge(call.newEdgeId, call.source, call.target, call.sourceHandle, None);
      result := Update((g: Graph) => g.(edges := g.edges + [edge]));
    }

    method DisconnectNodes(call: ToolCall) returns (result: Result<Graph>)
      requires Valid() && call.DisconnectNodes?
      modifies this
      ensures Valid()
      ensures (State(), result) == Answer(host, old(State()), call)
    {
      if LookupEdge(document.edges, call.edgeId).None? {
        return Refused(UnknownEdge);
      }
      result := Update((g: Graph) => g.(edges := Filter(g.edges, NotEdge(call.edgeId))));
    }

    method InsertNodeOnEdge(call: ToolCall) returns (result: Result<Graph>)
      requires Valid() && call.InsertNodeOnEdge?
      modifies this
      ensures Valid()
      ensures (State(), result) == Answer(host, old(State()), call)
    {
      var edge := LookupEdge(document.edges, call.edgeId);
      if edge.None? {
        return Refused(UnknownEdge);
      }
      if !KnownAction(host, call.actionId) {
        return Refused(UnknownAction);
      }
      if NamesKey(call.config, "actionType") {
        return Refused(ActionTypeNamed);
      }
      var candidate := Inserted(document, edge.value, call);
      if OutletRefusal(host, candidate, InsertedStep(document, edge.value, call), call.outgoingHandle) {
        return Refused(OutletRefused);
      }
      if host.refusesConfig(ConfigQuery(call.actionId, call.config, [], map[], None)) {
        return Refused(ConfigRefused);
      }
      result := Update(_ => candidate);
    }
  }
}
