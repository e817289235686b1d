// Why a tool refuses a call, and what each accepted call stores, read off the
// document and the call.
module AgentAnswers {
  import opened Reachability
  import opened WorkflowGraph
  import opened GroupRules
  import opened Topology
  import opened AgentDraft
  import opened AgentEdits

  // --- outlets ---

  predicate Blank(s: string) { forall c | c in s :: c in WHITESPACE }

  predicate Tight(s: string) { s != "" && s[0] !in WHITESPACE && s[|s| - 1] !in WHITESPACE }

  // `handle` names the Event `name`, blanks around it aside.
  ghost predicate NamesEvent(handle: Option<string>, name: string) {
    && handle.Some? && Tight(name)
    && exists before, after :: Blank(before) && Blank(after) && handle.value == "event:" + before + name + after
  }

  lemma BlankConcat(s: string, t: string)
    requires Blank(s) && Blank(t)
    ensures Blank(s + t)
  {
  }

  lemma {:induction false} TrimExact(s: string) returns (before: string, after: string)
    ensures Blank(before) && Blank(after) && s == before + Trim(s) + after
    ensures Trim(s) == "" || Tight(Trim(s))
  {
    before, after := "", "";
    if s != "" {
      if s[0] in WHITESPACE {
        before, after := TrimExact(s[1..]);
        BlankConcat([s[0]], before);
        assert s == [s[0]] + s[1..];
        before := [s[0]] + before;
      } else if s[|s| - 1] in WHITESPACE {
        before, after := TrimExact(s[..|s| - 1]);
        BlankConcat(after, [s[|s| - 1]]);
        assert s == s[..|s| - 1] + [s[|s| - 1]];
        after := after + [s[|s| - 1]];
      }
    }
  }

  lemma {:induction false} TrimTight(before: string, name: string, after: string)
    requires Blank(before) && Blank(after) && Tight(name)
    ensures Trim(before + name + after) == name
    decreases |before| + |after|
  {
    var s := before + name + after;
    if before != "" {
      assert s[0] == before[0] && s[1..] == before[1..] + name + after;
      TrimTight(before[1..], name, after);
    } else if after != "" {
      assert s[0] == name[0] && s[|s| - 1] == after[|after| - 1];
      assert s[..|s| - 1] == before + name + after[..|after| - 1];
      TrimTight(before, name, after[..|after| - 1]);
    } else {
      assert s == name;
    }
  }

  lemma EventNamed(handle: Option<string>, name: string)
    ensures OutletEvent(handle) == Some(name) <==> NamesEvent(handle, name)
  {
    var n := |"event:"|;
    if OutletEvent(handle) == Some(name) {
      var before, after := TrimExact(handle.value[n..]);
      assert handle.value == "event:" + before + name + after;
    }
    if NamesEvent(handle, name) {
      var before, after :| Blank(before) && Blank(after) && handle.value == "event:" + before + name + after;
      assert handle.value[n..] == before + name + after;
      TrimTight(before, name, after);
    }
  }

  // The outlets a node has.
  ghost predicate HasOutlet(host: Host, g: Graph, n: Node, handle: Option<string>) {
    if n.kind == Lifecycle then handle == Some("started") || handle == Some("canceled")
    else if ActionTypeOf(n) == Some("Condition") then handle == Some("true") || handle == Some("false")
    else if ActionTypeOf(n) == Some("Event Split") then
      exists name :: NamesEvent(handle, name) && host.eventReaches(g, n.id, name)
    else handle == None
  }

  lemma OutletExact(host: Host, g: Graph, n: Node, handle: Option<string>)
    ensures OutletRefusal(host, g, n, handle) <==> !HasOutlet(host, g, n, handle)
  {
    if OutletEvent(handle).Some? { EventNamed(handle, OutletEvent(handle).value); }
    forall name | NamesEvent(handle, name) ensures OutletEvent(handle) == Some(name) { EventNamed(handle, name); }
    hide NamesEvent, OutletEvent;
  }

  // --- refusals ---

  // The document has a node `n` under this id.
  predicate Stands(g: Graph, n: Node, id: Id) { n in g.nodes && n.id == id }

  // The host refuses the patch for the action the node has, if it has one.
  ghost predicate PatchRefused(host: Host, g: Graph, n: Node, call: ToolCall)
    requires call.UpdateNode?
  {
    var action := ActionTypeOf(n);
    action.Some? && action.value != ""
    && host.refusesConfig(ConfigQuery(action.value, call.patch, call.clear, n.data.config, Some((g, n.id))))
  }

  ghost predicate InsertedLacksOutlet(host: Host, g: Graph, e: Edge, call: ToolCall)
    requires call.InsertNodeOnEdge?
  {
    !HasOutlet(host, Inserted(g, e, call), InsertedStep(g, e, call), call.outgoingHandle)
  }

  // What each refusal says of a call that can meet it.
  ghost predicate AddFault(host: Host, call: ToolCall, why: Refusal)
    requires call.AddNode? || call.InsertNodeOnEdge?
  {
    match why
    case UnknownAction =>
      call.actionId !in {"Condition", "Wait", "Event Split"} && !host.listsAction(call.actionId)
    case ActionTypeNamed => exists c :: c in call.config && c.key == "actionType"
    case ConfigRefused => host.refusesConfig(ConfigQuery(call.actionId, call.config, [], map[], None))
    case _ => false
  }

  ghost predicate UpdateFault(host: Host, g: Graph, call: ToolCall, why: Refusal)
    requires call.UpdateNode?
  {
    match why
    case UnknownNode => call.nodeId !in NodeIds(g.nodes)
    case ActionTypeNamed => "actionType" in call.clear || exists c :: c in call.patch && c.key == "actionType"
    case ConfigRefused => exists n :: Stands(g, n, call.nodeId) && PatchRefused(host, g, n, call)
    case GroupTakesLabelOnly =>
      (call.enabled != None || call.patch != [] || call.clear != [])
      && exists n :: Stands(g, n, call.nodeId) && n.kind == Group
    case LifecycleConfigOwned =>
      (call.patch != [] || call.clear != []) && exists n :: Stands(g, n, call.nodeId) && n.kind == Lifecycle
    case _ => false
  }

  ghost predicate DeleteFault(g: Graph, call: ToolCall, why: Refusal)
    requires call.DeleteNode?
  {
    match why
    case UnknownNode => call.nodeId !in NodeIds(g.nodes)
    case GroupNotDeletable => exists n :: Stands(g, n, call.nodeId) && n.kind == Group
    case _ => false
  }

  ghost predicate ConnectFault(host: Host, g: Graph, call: ToolCall, why: Refusal)
    requires call.ConnectNodes?
  {
    match why
    case UnknownNode => call.source !in NodeIds(g.nodes) || call.target !in NodeIds(g.nodes)
    case SelfFlow => call.source == call.target
    case FrameTakesNoEdges =>
      exists n :: (Stands(g, n, call.source) || Stands(g, n, call.target)) && n.kind == Group
    case OutletRefused => exists n :: Stands(g, n, call.source) && !HasOutlet(host, g, n, call.sourceHandle)
    case AlreadyConnected =>
      exists e :: e in g.edges && e.source == call.source && e.target == call.target
        && e.sourceHandle == call.sourceHandle
    case WouldLoop => Reaches(SolidArcs(g.edges), call.target, call.source)
    case _ => false
  }

  ghost predicate DisconnectFault(g: Graph, call: ToolCall, why: Refusal)
    requires call.DisconnectNodes?
  {
    why == UnknownEdge && call.edgeId !in EdgeIds(g.edges)
  }

  ghost predicate InsertFault(host: Host, g: Graph, call: ToolCall, why: Refusal)
    requires call.InsertNodeOnEdge?
  {
    match why
    case UnknownEdge => call.edgeId !in EdgeIds(g.edges)
    case OutletRefused => exists e :: e in g.edges && e.id == call.edgeId && InsertedLacksOutlet(host, g, e, call)
    case _ => AddFault(host, call, why)
  }

  ghost predicate Fault(host: Host, g: Graph, call: ToolCall, why: Refusal) {
    match call
    case RevertDraft => false
    case AddNode(_, _, _, _, _) => AddFault(host, call, why)
    case UpdateNode(_, _, _, _, _, _) => UpdateFault(host, g, call, why)
    case DeleteNode(_) => DeleteFault(g, call, why)
    case ConnectNodes(_, _, _, _) => ConnectFault(host, g, call, why)
    case DisconnectNodes(_) => DisconnectFault(g, call, why)
    case InsertNodeOnEdge(_, _, _, _, _, _, _, _) => InsertFault(host, g, call, why)
  }

  // The order the tools check in.
  function CheckedAt(why: Refusal): nat {
    match why
    case UnknownNode => 0
    case UnknownEdge => 1
    case UnknownAction => 2
    case ActionTypeNamed => 3
    case SelfFlow => 4
    case FrameTakesNoEdges => 5
    case OutletRefused => 6
    case ConfigRefused => 7
    case GroupTakesLabelOnly => 8
    case LifecycleConfigOwned => 9
    case GroupNotDeletable => 10
    case AlreadyConnected => 11
    case WouldLoop => 12
    case TopologyRefused(_) => 13
    case HostRefused => 14
  }

  // Of a fault `why`: a proposal means the call does not have it, and a refusal
  // names one the call has that is checked no later.
  ghost predicate Answers(result: Result<Graph>, fault: Refusal -> bool, why: Refusal) {
    if result.Ok? then !fault(why)
    else fault(result.why) && (fault(why) ==> CheckedAt(result.why) <= CheckedAt(why))
  }

  lemma NamesKeyIn(entries: seq<Entry>, key: string)
    ensures NamesKey(entries, key) <==> exists c :: c in entries && c.key == key
  {
    if NamesKey(entries, key) { var i :| 0 <= i < |entries| && entries[i].key == key; assert entries[i] in entries; }
  }

  lemma OneNode(g: Graph, id: Id)
    requires UniqueNodeIds(g.nodes)
    ensures Lookup(g.nodes, id).Some? <==> id in NodeIds(g.nodes)
    ensures forall n :: Stands(g, n, id) <==> Lookup(g.nodes, id) == Some(n)
  {
    forall n | n in g.nodes && n.id == id ensures Lookup(g.nodes, id) == Some(n) {
      UniqueNode(g.nodes, Lookup(g.nodes, id).value, n);
    }
  }

  lemma OneEdge(g: Graph, id: Id)
    requires UniqueEdgeIds(g.edges)
    ensures LookupEdge(g.edges, id).Some? <==> id in EdgeIds(g.edges)
    ensures forall e | e in g.edges && e.id == id :: LookupEdge(g.edges, id) == Some(e)
  {
    forall e | e in g.edges && e.id == id ensures LookupEdge(g.edges, id) == Some(e) {
      UniqueEdge(g.edges, LookupEdge(g.edges, id).value, e);
    }
  }

  lemma AddAnswers(host: Host, g: Graph, call: ToolCall, why: Refusal)
    requires call.AddNode?
    ensures Answers(ProposeAdd(host, g, call), (w: Refusal) => AddFault(host, call, w), why)
  {
    NamesKeyIn(call.config, "actionType");
  }

  lemma PatchRead(host: Host, g: Graph, n: Node, call: ToolCall)
    requires call.UpdateNode?
    ensures PatchRefused(host, g, n, call)
       <==> ActionTypeOf(n).Some? && ActionTypeOf(n).value != ""
            && host.refusesConfig(ConfigQuery(ActionTypeOf(n).value, call.patch, call.clear, n.data.config,
                                              Some((g, n.id))))
  {
  }

  lemma UpdateAnswers(host: Host, g: Graph, call: ToolCall, why: Refusal)
    requires call.UpdateNode? && UniqueNodeIds(g.nodes)
    ensures Answers(ProposeUpdate(host, g, call), (w: Refusal) => UpdateFault(host, g, call, w), why)
  {
    hide Lookup, UniqueNodeIds, Updated, Stands, NodeIds, NamesKey, PatchRefused;
    NamesKeyIn(call.patch, "actionType");
    OneNode(g, call.nodeId);
    var found := Lookup(g.nodes, call.nodeId);
    if found.Some? { PatchRead(host, g, found.value, call); }
  }

  lemma DeleteAnswers(host: Host, g: Graph, call: ToolCall, why: Refusal)
    requires call.DeleteNode? && UniqueNodeIds(g.nodes)
    ensures Answers(ProposeDelete(g, call), (w: Refusal) => DeleteFault(g, call, w), why)
  {
    OneNode(g, call.nodeId);
    hide Lookup, UniqueNodeIds, Stands, NodeIds;
  }

  // Each fault of a connection as the checks read it.
  lemma ConnectFaults(host: Host, g: Graph, call: ToolCall)
    requires call.ConnectNodes? && UniqueNodeIds(g.nodes)
    ensures var source, target := Lookup(g.nodes, call.source), Lookup(g.nodes, call.target);
            && (ConnectFault(host, g, call, UnknownNode) <==> source.None? || target.None?)
            && (source.Some? && target.Some?
                ==> (ConnectFault(host, g, call, FrameTakesNoEdges)
                     <==> IsGroup(source.value) || IsGroup(target.value)))
            && (ConnectFault(host, g, call, OutletRefused)
                <==> source.Some? && OutletRefusal(host, g, source.value, call.sourceHandle))
  {
    hide Lookup, UniqueNodeIds, OutletRefusal, HasOutlet, Stands, NodeIds, WouldCycle;
    OneNode(g, call.source);
    OneNode(g, call.target);
    var source := Lookup(g.nodes, call.source);
    if source.Some? { OutletExact(host, g, source.value, call.sourceHandle); }
  }

  lemma ConnectFaultsLeft(host: Host, g: Graph, call: ToolCall, why: Refusal)
    requires call.ConnectNodes?
    ensures ConnectFault(host, g, call, SelfFlow) <==> call.source == call.target
    ensures ConnectFault(host, g, call, AlreadyConnected)
       <==> exists e :: e in g.edges && e.source == call.source && e.target == call.target
              && e.sourceHandle == call.sourceHandle
    ensures ConnectFault(host, g, call, WouldLoop) <==> WouldCycle(g.edges, call.source, call.target)
    ensures ConnectFault(host, g, call, why)
            ==> why.UnknownNode? || why.SelfFlow? || why.FrameTakesNoEdges? || why.OutletRefused?
                || why.AlreadyConnected? || why.WouldLoop?
  {
  }

  lemma ConnectAnswers(host: Host, g: Graph, call: ToolCall, why: Refusal)
    requires call.ConnectNodes? && UniqueNodeIds(g.nodes)
    ensures Answers(ProposeConnect(host, g, call), (w: Refusal) => ConnectFault(host, g, call, w), why)
  {
    hide Lookup, UniqueNodeIds, OutletRefusal, ConnectFault, WouldCycle;
    ConnectFaults(host, g, call);
    ConnectFaultsLeft(host, g, call, why);
  }

  lemma DisconnectAnswers(host: Host, g: Graph, call: ToolCall, why: Refusal)
    requires call.DisconnectNodes? && UniqueEdgeIds(g.edges)
    ensures Answers(ProposeDisconnect(g, call), (w: Refusal) => DisconnectFault(g, call, w), why)
  {
    OneEdge(g, call.edgeId);
    hide LookupEdge, UniqueEdgeIds;
  }

  lemma InsertFaults(host: Host, g: Graph, call: ToolCall)
    requires call.InsertNodeOnEdge? && UniqueEdgeIds(g.edges)
    ensures var found := LookupEdge(g.edges, call.edgeId);
            && (InsertFault(host, g, call, UnknownEdge) <==> found.None?)
            && (InsertFault(host, g, call, UnknownAction) <==> !KnownAction(host, call.actionId))
            && (InsertFault(host, g, call, ActionTypeNamed) <==> NamesKey(call.config, "actionType"))
            && (found.Some?
                ==> (InsertFault(host, g, call, OutletRefused)
                     <==> OutletRefusal(host, Inserted(g, found.value, call), InsertedStep(g, found.value, call),
                                        call.outgoingHandle)))
            && (InsertFault(host, g, call, ConfigRefused)
                <==> host.refusesConfig(ConfigQuery(call.actionId, call.config, [], map[], None)))
  {
    hide LookupEdge, UniqueEdgeIds, OutletRefusal, HasOutlet, Inserted, InsertedStep, EdgeIds, NamesKey;
    NamesKeyIn(call.config, "actionType");
    OneEdge(g, call.edgeId);
    var found := LookupEdge(g.edges, call.edgeId);
    if found.Some? {
      OutletExact(host, Inserted(g, found.value, call), InsertedStep(g, found.value, call), call.outgoingHandle);
    }
  }

  lemma InsertFaultOnly(host: Host, g: Graph, call: ToolCall, why: Refusal)
    requires call.InsertNodeOnEdge? && InsertFault(host, g, call, why)
    ensures why.UnknownEdge? || why.UnknownAction? || why.ActionTypeNamed? || why.OutletRefused? || why.ConfigRefused?
  {
  }

  lemma InsertAnswers(host: Host, g: Graph, call: ToolCall, why: Refusal)
    requires call.InsertNodeOnEdge? && UniqueEdgeIds(g.edges)
    ensures Answers(ProposeInsert(host, g, call), (w: Refusal) => InsertFault(host, g, call, w), why)
  {
    hide LookupEdge, UniqueEdgeIds, OutletRefusal, Inserted, InsertedStep, NamesKey, KnownAction, InsertFault;
    InsertFaults(host, g, call);
    if InsertFault(host, g, call, why) { InsertFaultOnly(host, g, call, why); }
  }

  // Every tool: a call is proposed if and only if it has none of the faults, and
  // the refusal it meets is the first in the order of the checks.
  lemma ToolAnswers(host: Host, s: DraftState, call: ToolCall, why: Refusal)
    requires |s.revisions| > 0 && UniqueNodeIds(s.document.nodes) && UniqueEdgeIds(s.document.edges)
    ensures Answers(Proposal(host, s, call), (w: Refusal) => Fault(host, s.document, call, w), why)
  {
    hide ProposeAdd, ProposeUpdate, ProposeDelete, ProposeConnect, ProposeDisconnect, ProposeInsert;
    if call.AddNode? { AddAnswers(host, s.document, call, why); }
    if call.UpdateNode? { UpdateAnswers(host, s.document, call, why); }
    if call.DeleteNode? { DeleteAnswers(host, s.document, call, why); }
    if call.ConnectNodes? { ConnectAnswers(host, s.document, call, why); }
    if call.DisconnectNodes? { DisconnectAnswers(host, s.document, call, why); }
    if call.InsertNodeOnEdge? { InsertAnswers(host, s.document, call, why); }
  }

  // --- what the draft answers ---

  // A node whose frame goes stands free where the host places it.
  ghost predicate SettledAs(host: Host, edited: Graph, n: Node, m: Node) {
    if exists f :: TooSmall(edited.nodes, f) && n.parentId == Some(f.id)
    then m == n.(parentId := None, position := host.place(edited, n))
    else m == n
  }

  // `out` is `edited` without the frames that are too small.
  ghost predicate SettlesTo(host: Host, edited: Graph, out: Graph) {
    && out.edges == edited.edges
    && forall m :: m in out.nodes
         <==> exists n :: n in edited.nodes && !TooSmall(edited.nodes, n) && SettledAs(host, edited, n, m)
  }

  // A call answers its refusal, or the gate's, or the host's, and then changes
  // nothing. Otherwise it answers the settled document, which becomes the draft's
  // and its newest revision.
  lemma AnswerExact(host: Host, s: DraftState, call: ToolCall) returns (candidate: Graph)
    requires |s.revisions| > 0
    requires var proposal := Proposal(host, s, call); proposal.Ok? ==> UniqueNodeIds(proposal.value.nodes)
    ensures var (next, reply) := Answer(host, s, call); var proposal := Proposal(host, s, call);
            if proposal.Refused? then next == s && reply == proposal
            else
              && SettlesTo(host, proposal.value, candidate)
              && var reason := TopologyReason(candidate, host.refusesJoin(candidate));
              if reason.Some? then next == s && reply == Refused(TopologyRefused(reason.value))
              else if host.refusesUpdate(candidate) then next == s && reply == Refused(HostRefused)
              else next.document == candidate && next.revisions == s.revisions + [candidate] && reply == Ok(candidate)
  {
    hide Proposal, SettlesTo, TopologyReason;
    var proposal := Proposal(host, s, call);
    if proposal.Refused? {
      candidate := s.document;
    } else {
      candidate := Settled(host, proposal.value);
      SettledExact(host, proposal.value);
    }
  }

  lemma SettledExact(host: Host, edited: Graph)
    requires UniqueNodeIds(edited.nodes)
    ensures SettlesTo(host, edited, Settled(host, edited))
  {
    var nodes, small, place := edited.nodes, UndersizedGroupIds(edited.nodes), PlaceIn(host, edited);
    forall f | f in nodes ensures f.id in small <==> TooSmall(nodes, f) { UndersizedExact(nodes, f); }
    hide TooSmall, UndersizedGroupIds, UniqueNodeIds;
    forall m ensures m in Dissolve(nodes, small, place)
        <==> exists n :: n in nodes && !TooSmall(nodes, n) && SettledAs(host, edited, n, m) {
      if m in Dissolve(nodes, small, place) { DissolvedAs(host, edited, m); }
      if n :| n in nodes && !TooSmall(nodes, n) && SettledAs(host, edited, n, m) { StaysAs(host, edited, n, m); }
    }
  }

  lemma DissolvedAs(host: Host, edited: Graph, m: Node)
    requires UniqueNodeIds(edited.nodes) && m in Settled(host, edited).nodes
    ensures exists n :: n in edited.nodes && !TooSmall(edited.nodes, n) && SettledAs(host, edited, n, m)
  {
    var nodes, small := edited.nodes, UndersizedGroupIds(edited.nodes);
    var n := DissolvedFrom(nodes, small, PlaceIn(host, edited), m);
    forall f | f in nodes ensures f.id in small <==> TooSmall(nodes, f) { UndersizedExact(nodes, f); }
    hide TooSmall, UndersizedGroupIds, UniqueNodeIds;
  }

  lemma StaysAs(host: Host, edited: Graph, n: Node, m: Node)
    requires UniqueNodeIds(edited.nodes) && n in edited.nodes && !TooSmall(edited.nodes, n)
    requires SettledAs(host, edited, n, m)
    ensures m in Settled(host, edited).nodes
  {
    var nodes, small, place := edited.nodes, UndersizedGroupIds(edited.nodes), PlaceIn(host, edited);
    forall f | f in nodes ensures f.id in small <==> TooSmall(nodes, f) { UndersizedExact(nodes, f); }
    hide TooSmall, UndersizedGroupIds, UniqueNodeIds;
    DissolveKeeps(nodes, small, place, n);
  }

  // --- what an accepted call stores ---

  // A deletion takes the one node and the edges at it, and nothing else.
  lemma DeleteExact(g: Graph, call: ToolCall)
    requires call.DeleteNode? && ProposeDelete(g, call).Ok?
    ensures var out := ProposeDelete(g, call).value;
            && (forall n :: n in out.nodes <==> n in g.nodes && n.id != call.nodeId)
            && (forall e :: e in out.edges <==> e in g.edges && e.source != call.nodeId && e.target != call.nodeId)
  {
  }

  lemma ConnectExact(host: Host, g: Graph, call: ToolCall)
    requires call.ConnectNodes? && ProposeConnect(host, g, call).Ok?
    ensures var out := ProposeConnect(host, g, call).value;
            && out.nodes == g.nodes && |out.edges| == |g.edges| + 1 && out.edges[..|g.edges|] == g.edges
            && var e := out.edges[|g.edges|];
            && e.id == call.newEdgeId && e.source == call.source && e.target == call.target
            && e.sourceHandle == call.sourceHandle && e.targetHandle == None
  {
    hide WouldCycle, OutletRefusal;
  }

  lemma DisconnectExact(g: Graph, call: ToolCall)
    requires call.DisconnectNodes? && ProposeDisconnect(g, call).Ok?
    ensures var out := ProposeDisconnect(g, call).value;
            out.nodes == g.nodes && forall e :: e in out.edges <==> e in g.edges && e.id != call.edgeId
  {
  }

  // An inserted step is what an added one is, and joins the Group both ends of
  // its edge are members of, unless it is an Event Split.
  lemma InsertedExact(host: Host, g: Graph, call: ToolCall, e: Edge)
    requires call.InsertNodeOnEdge? && e in g.edges && e.id == call.edgeId
    requires UniqueNodeIds(g.nodes) && UniqueEdgeIds(g.edges) && ProposeInsert(host, g, call).Ok?
    ensures var out := ProposeInsert(host, g, call).value;
            && |out.nodes| == |g.nodes| + 1 && out.nodes[..|g.nodes|] == g.nodes
            && var step := out.nodes[|g.nodes|];
            && step.id == call.newNodeId && step.position == UNPLACED && ActionTypeOf(step) == Some(call.actionId)
            && step.data.labelText == call.labelText && step.data.description == call.description
            && step.data.enabled == None
            && (forall key :: ConfigAsked(step.data.config, call.config, key))
            && (forall f :: step.parentId == Some(f)
                  <==> (call.actionId != "Event Split" && MemberHere(g, e.source, f) && MemberHere(g, e.target, f)))
  {
    hide LookupEdge, UniqueNodeIds, UniqueEdgeIds, OutletRefusal, Splice, ToConfigRecord, InsertedGroup, MemberHere,
      ConfigAsked, KnownAction, NamesKey;
    OneEdge(g, call.edgeId);
    var made := ActionNode(call.newNodeId, call.actionId, call.labelText, call.description, call.config);
    JoinedGroup(g, e, made);
    RecordHolds(call.config, "actionType");
    AskedConfig(call);
  }

  lemma AskedConfig(call: ToolCall)
    requires call.InsertNodeOnEdge?
    ensures forall key ::
              ConfigAsked(map["actionType" := call.actionId] + ToConfigRecord(call.config), call.config, key)
  {
    forall key ensures ConfigAsked(map["actionType" := call.actionId] + ToConfigRecord(call.config), call.config, key) {
      RecordHolds(call.config, key);
    }
  }

  lemma JoinedGroup(g: Graph, e: Edge, step: Node)
    requires UniqueNodeIds(g.nodes) && step.kind == Action
    ensures forall f :: InsertedGroup(g, e, step) == Some(f)
              <==> (ActionTypeOf(step) != Some("Event Split") && MemberHere(g, e.source, f)
                && MemberHere(g, e.target, f))
  {
    hide Lookup, UniqueNodeIds;
    OneNode(g, e.source);
    OneNode(g, e.target);
  }

  ghost predicate MemberHere(g: Graph, id: Id, frame: Id) {
    exists n :: Stands(g, n, id) && n.parentId == Some(frame)
  }
}
