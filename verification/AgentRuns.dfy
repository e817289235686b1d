// Whole turns of tool calls: what holds of the current document and of every
// stored revision, and which refusals of the gate a tool's own checks leave open.
module AgentRuns {
  import opened Reachability
  import opened Sequences
  import opened WorkflowGraph
  import opened GroupRules
  import opened Topology
  import opened Skeletons
  import opened AgentDraft
  import opened AgentInvariants

  // --- dissolution keeps a document well formed ---

  lemma SettledKeeps(host: Host, edited: Graph)
    requires WellFormed(edited)
    ensures WellFormed(Settled(host, edited)) && NoUndersizedGroup(Settled(host, edited).nodes)
  {
    hide NoUndersizedGroup, Dissolve, UndersizedGroupIds, OutletEvent;
    var small, place := UndersizedGroupIds(edited.nodes), PlaceIn(host, edited);
    var out := Settled(host, edited);
    DissolveUnique(edited.nodes, small, place);
    DissolvedShape(edited, small, place);
    DissolveLeavesNoneUndersized(edited.nodes, place);
    forall id | id in NodeIds(out.nodes) ensures id in NodeIds(edited.nodes) {
      var m :| m in out.nodes && m.id == id;
      var n := DissolvedFrom(edited.nodes, small, place, m);
    }
    forall e, m | e in out.edges && m in out.nodes && m.id == e.source ensures HandleFits(m, e.sourceHandle) {
      var n := DissolvedFrom(edited.nodes, small, place, m);
      assert HandleFits(n, e.sourceHandle);
    }
  }

  // --- every proposal, whatever becomes of it ---

  lemma ProposalKeeps(host: Host, s: DraftState, call: ToolCall)
    requires |s.revisions| > 0 && WellFormed(s.revisions[0])
    requires WellFormed(s.document) && FreshFor(s.document, call)
    requires Proposal(host, s, call).Ok?
    ensures WellFormed(Proposal(host, s, call).value)
  {
    var g := s.document;
    match call
    case RevertDraft =>
    case AddNode(_, _, _, _, _) =>
      AppendNodeKeeps(g, ActionNode(call.newNodeId, call.actionId, call.labelText, call.description, call.config));
    case UpdateNode(_, _, _, _, _, _) =>
      UpdateSkeletons(host, g, call);
      SkeletonKeeps(g, ProposeUpdate(host, g, call).value.nodes);
    case DeleteNode(_) => DeleteKeeps(g, call);
    case ConnectNodes(_, _, _, _) => ConnectKeeps(host, g, call);
    case DisconnectNodes(_) => DisconnectKeeps(g, call);
    case InsertNodeOnEdge(_, _, _, _, _, _, _, _) => InsertKeeps(host, g, call);
  }

  // --- runs ---

  ghost predicate Invariant(s: DraftState, opening: Graph) {
    && |s.revisions| > 0
    && s.revisions[0] == opening
    && s.revisions[|s.revisions| - 1] == s.document
    && (forall i | 0 <= i < |s.revisions| :: WellFormed(s.revisions[i]))
    && (forall i | 1 <= i < |s.revisions| :: NoUndersizedGroup(s.revisions[i].nodes))
  }

  function Opened(document: Graph): DraftState {
    DraftState(document, [document])
  }

  // The draft after the calls, each answered before the next is made.
  ghost function Run(host: Host, s: DraftState, calls: seq<ToolCall>): DraftState
    requires |s.revisions| > 0
    ensures |Run(host, s, calls).revisions| > 0
    decreases |calls|
  {
    if calls == [] then s else Run(host, Answer(host, s, calls[0]).0, calls[1..])
  }

  ghost predicate MintsFresh(host: Host, s: DraftState, calls: seq<ToolCall>)
    requires |s.revisions| > 0
    decreases |calls|
  {
    calls == [] || (FreshFor(s.document, calls[0]) && MintsFresh(host, Answer(host, s, calls[0]).0, calls[1..]))
  }

  // A call stores exactly one revision or changes nothing, and no call rewrites
  // a revision already stored.
  lemma AnswerAppends(host: Host, s: DraftState, call: ToolCall)
    requires |s.revisions| > 0
    ensures var (after, result) := Answer(host, s, call);
            if result.Ok? then after == DraftState(result.value, s.revisions + [result.value]) else after == s
  {
  }

  lemma AnswerKeeps(host: Host, s: DraftState, opening: Graph, call: ToolCall)
    requires Invariant(s, opening) && FreshFor(s.document, call)
    ensures Invariant(Answer(host, s, call).0, opening)
  {
    hide Settled, Verdict, Proposal, WellFormed, NoUndersizedGroup;
    var proposal := Proposal(host, s, call);
    if proposal.Ok? {
      ProposalKeeps(host, s, call);
      SettledKeeps(host, proposal.value);
    }
  }

  lemma {:induction false} RunKeepsFrom(host: Host, s: DraftState, opening: Graph, calls: seq<ToolCall>)
    requires Invariant(s, opening) && MintsFresh(host, s, calls)
    ensures Invariant(Run(host, s, calls), opening)
    ensures s.revisions <= Run(host, s, calls).revisions
    decreases |calls|
  {
    if calls != [] {
      AnswerKeeps(host, s, opening, calls[0]);
      AnswerAppends(host, s, calls[0]);
      var next := Answer(host, s, calls[0]).0;
      RunKeepsFrom(host, next, opening, calls[1..]);
    }
  }

  // From a well-formed opening graph, every run of tool calls keeps the current
  // document and every stored revision well formed, acyclic included, keeps the
  // opening as revision 0 and the current document as the last revision, and
  // leaves no undersized Group in any revision after the opening.
  lemma RunKeeps(host: Host, opening: Graph, calls: seq<ToolCall>)
    requires WellFormed(opening) && MintsFresh(host, Opened(opening), calls)
    ensures Invariant(Run(host, Opened(opening), calls), opening)
  {
    RunKeepsFrom(host, Opened(opening), opening, calls);
  }

  // A revert after any run yields the opening with its undersized Groups
  // dissolved, and the opening itself when it had none.
  lemma RevertRestores(host: Host, opening: Graph, calls: seq<ToolCall>)
    requires WellFormed(opening) && MintsFresh(host, Opened(opening), calls)
    ensures var result := Answer(host, Run(host, Opened(opening), calls), RevertDraft).1;
            && (result.Ok? ==> result.value == Settled(host, opening))
            && (result.Ok? && NoUndersizedGroup(opening.nodes) ==> result.value == opening)
            && (result.Ok? <==> Verdict(host, Settled(host, opening)).None?)
  {
    RunKeeps(host, opening, calls);
    if NoUndersizedGroup(opening.nodes) { DissolveNothing(opening.nodes, PlaceIn(host, opening)); }
  }

  // --- what is left to the gate ---

  lemma {:induction false} OnlyParallel(ids: set<Id>, edges: seq<Edge>, i: nat)
    requires i <= |edges|
    requires forall e | e in edges :: e.source in ids && e.target in ids && e.source != e.target
    ensures EdgesReason(ids, edges, i) in {None, Some(ParallelEdges)}
    decreases |edges| - i
  {
    if i < |edges| { OnlyParallel(ids, edges, i + 1); }
  }

  lemma WellFormedSimple(g: Graph)
    requires WellFormed(g)
    ensures EdgesReason(NodeIds(g.nodes), g.edges, 0)
         == if DistinctBy(g.edges, ArcOf) then None else Some(ParallelEdges)
  {
    forall e | e in g.edges ensures e.source != e.target {
      assert ArcOf(e) in ArcsOf(g.edges);
      ReachesArc(ArcsOf(g.edges), e.source, e.target);
    }
    OnlyParallel(NodeIds(g.nodes), g.edges, 0);
    EdgesReasonExact(NodeIds(g.nodes), g.edges);
  }

  lemma WellFormedOutlets(g: Graph)
    requires WellFormed(g)
    ensures ConditionBranchesOk(g) && LifecycleOutletsOk(g)
  {
    forall e, n | e in g.edges && n in g.nodes && n.id == e.source
      ensures if ActionTypeOf(n) == Some(CONDITION) then e.sourceHandle in {Some("true"), Some("false")}
              else e.sourceHandle !in {Some("true"), Some("false")}
    {
      assert HandleFits(n, e.sourceHandle);
    }
  }

  // Of the thirteen reasons, a document the tools keep well formed can meet five.
  lemma GateResidue(g: Graph, joinRefused: bool)
    requires WellFormed(g)
    ensures var ids := LifecycleIds(g.nodes);
            TopologyReason(g, joinRefused)
            == if !DistinctBy(g.edges, ArcOf) then Some(ParallelEdges)
               else if ids == [] then Some(NoLifecycle)
               else if |ids| > 1 then Some(ManyLifecycles)
               else if exists e :: e in g.edges && e.target == ids[0] then Some(LifecycleNotRoot)
               else if joinRefused then Some(JoinRule)
               else None
  {
    KeySetSize(g.nodes, NodeId);
    KeySetSize(g.edges, EdgeId);
    WellFormedSimple(g);
    WellFormedOutlets(g);
    NoEmptyTarget(g);
    assert ("", "") !in ArcsOf(g.edges);
    HasCycleExact(g.edges);
  }

  // --- how each call moves the counts the residue reads ---

  lemma {:induction false} LifecyclesConcat(a: seq<Node>, b: seq<Node>)
    ensures LifecycleIds(a + b) == LifecycleIds(a) + LifecycleIds(b)
  {
    if a == [] {
      assert a + b == b;
    } else {
      assert (a + b)[1..] == a[1..] + b;
      LifecyclesConcat(a[1..], b);
    }
  }

  lemma {:induction false} LifecyclesSame(a: seq<Node>, b: seq<Node>)
    requires SameSkeletons(a, b)
    ensures LifecycleIds(a) == LifecycleIds(b)
  {
    if a != [] {
      assert Skeleton(a[0]) == Skeleton(b[0]);
      assert SameSkeletons(a[1..], b[1..]) by {
        forall i | 0 <= i < |a[1..]| ensures Skeleton(a[1..][i]) == Skeleton(b[1..][i]) {
          assert Skeleton(a[i + 1]) == Skeleton(b[i + 1]);
        }
      }
      LifecyclesSame(a[1..], b[1..]);
    }
  }

  function NotId(id: Id): Id -> bool { (k: Id) => k != id }

  lemma {:induction false} LifecyclesWithout(nodes: seq<Node>, id: Id)
    ensures LifecycleIds(Filter(nodes, NotNode(id))) == Filter(LifecycleIds(nodes), NotId(id))
  {
    if nodes != [] {
      LifecyclesWithout(nodes[1..], id);
      var n, rest := nodes[0], Filter(nodes[1..], NotNode(id));
      if n.id != id {
        assert Filter(nodes, NotNode(id)) == [n] + rest;
        assert ([n] + rest)[1..] == rest;
      }
      if n.kind == Lifecycle {
        assert LifecycleIds(nodes) == [n.id] + LifecycleIds(nodes[1..]);
        assert LifecycleIds(nodes)[1..] == LifecycleIds(nodes[1..]);
      } else {
        assert LifecycleIds(nodes) == LifecycleIds(nodes[1..]);
      }
    }
  }

  lemma RootWithout(nodes: seq<Node>, id: Id, root: Id)
    requires LifecycleIds(nodes) == [root]
    ensures LifecycleIds(Filter(nodes, NotNode(id))) == if id == root then [] else [root]
  {
    LifecyclesWithout(nodes, id);
  }

  lemma EdgesWithout(edges: seq<Edge>, id: Id, root: Id)
    requires DistinctBy(edges, ArcOf) && forall e | e in edges :: e.target != root
    ensures DistinctBy(Filter(edges, NotTouching(id)), ArcOf)
    ensures !exists e :: e in Filter(edges, NotTouching(id)) && e.target == root
  {
    FilterDistinctBy(edges, NotTouching(id), ArcOf);
  }

  lemma LifecycleReleased(n: Node, frames: set<Id>, place: Node -> Position)
    ensures LifecycleIds([Releaser(frames, place)(n)]) == LifecycleIds([n])
  {
  }

  lemma {:induction false} LifecyclesReleased(nodes: seq<Node>, frames: set<Id>, place: Node -> Position)
    requires forall n | n in nodes && n.id in frames :: IsGroup(n)
    ensures LifecycleIds(Map(Filter(nodes, Outside(frames)), Releaser(frames, place))) == LifecycleIds(nodes)
  {
    hide Release;
    if nodes != [] {
      var n, rest := nodes[0], nodes[1..];
      LifecyclesReleased(rest, frames, place);
      assert n in nodes;
      var out := Map(Filter(rest, Outside(frames)), Releaser(frames, place));
      if n.id !in frames {
        assert Map(Filter(nodes, Outside(frames)), Releaser(frames, place)) == [Releaser(frames, place)(n)] + out;
        LifecycleReleased(n, frames, place);
        LifecyclesConcat([Releaser(frames, place)(n)], out);
        LifecyclesConcat([n], rest);
        assert nodes == [n] + rest;
      }
    }
  }

  lemma SettledLifecycles(host: Host, edited: Graph)
    requires UniqueNodeIds(edited.nodes)
    ensures LifecycleIds(Settled(host, edited).nodes) == LifecycleIds(edited.nodes)
  {
    FramesAreGroups(edited.nodes, UndersizedGroupIds(edited.nodes));
    LifecyclesReleased(edited.nodes, FrameIds(edited.nodes, UndersizedGroupIds(edited.nodes)), PlaceIn(host, edited));
  }

  // The refusal the gate gives a call on a document it already accepts, joins
  // aside. Two outlets into one step pass `connect_nodes` and are refused here.
  ghost function Leftover(g: Graph, call: ToolCall): Option<Reason>
    requires |LifecycleIds(g.nodes)| == 1
  {
    var root := LifecycleIds(g.nodes)[0];
    match call
    case ConnectNodes(s, t, _, _) =>
      if (s, t) in ArcsOf(g.edges) then Some(ParallelEdges)
      else if t == root then Some(LifecycleNotRoot)
      else None
    case DeleteNode(id) => if id == root then Some(NoLifecycle) else None
    case _ => None
  }

  ghost predicate Accepted(g: Graph) {
    WellFormed(g) && Sound(g)
  }

  // What the residue reads of the edited graph `out`.
  ghost predicate Leaves(g: Graph, call: ToolCall, out: Graph)
    requires |LifecycleIds(g.nodes)| == 1
  {
    var root := LifecycleIds(g.nodes)[0];
    && (DistinctBy(out.edges, ArcOf) <==> Leftover(g, call) != Some(ParallelEdges))
    && LifecycleIds(out.nodes) == (if Leftover(g, call) == Some(NoLifecycle) then [] else [root])
    && ((exists e :: e in out.edges && e.target == root) <==> call.ConnectNodes? && call.target == root)
  }

  lemma AddResidue(host: Host, g: Graph, call: ToolCall)
    requires Accepted(g) && call.AddNode? && ProposeAdd(host, g, call).Ok?
    ensures Leaves(g, call, ProposeAdd(host, g, call).value)
  {
    LifecyclesConcat(g.nodes,
      [ActionNode(call.newNodeId, call.actionId, call.labelText, call.description, call.config)]);
  }

  lemma UpdateResidue(host: Host, g: Graph, call: ToolCall)
    requires Accepted(g) && call.UpdateNode? && ProposeUpdate(host, g, call).Ok?
    ensures Leaves(g, call, ProposeUpdate(host, g, call).value)
  {
    UpdateSkeletons(host, g, call);
    LifecyclesSame(g.nodes, ProposeUpdate(host, g, call).value.nodes);
  }

  lemma DeletedLeaves(g: Graph, call: ToolCall, root: Id)
    requires call.DeleteNode? && LifecycleIds(g.nodes) == [root]
    requires DistinctBy(g.edges, ArcOf) && forall e | e in g.edges :: e.target != root
    ensures Leaves(g, call, Graph(Filter(g.nodes, NotNode(call.nodeId)), Filter(g.edges, NotTouching(call.nodeId))))
  {
    hide DistinctBy, Filter, NotTouching, LifecycleIds;
    RootWithout(g.nodes, call.nodeId, root);
    EdgesWithout(g.edges, call.nodeId, root);
  }

  lemma DeleteResidue(g: Graph, call: ToolCall)
    requires Accepted(g) && call.DeleteNode? && ProposeDelete(g, call).Ok?
    ensures Leaves(g, call, ProposeDelete(g, call).value)
  {
    hide Leaves, WellFormed, DistinctBy, Filter, NotTouching, LifecycleIds;
    DeletedLeaves(g, call, LifecycleIds(g.nodes)[0]);
  }

  lemma DisconnectResidue(g: Graph, call: ToolCall)
    requires Accepted(g) && call.DisconnectNodes? && ProposeDisconnect(g, call).Ok?
    ensures Leaves(g, call, ProposeDisconnect(g, call).value)
  {
    FilterDistinctBy(g.edges, NotEdge(call.edgeId), ArcOf);
  }

  lemma AppendedLeaves(g: Graph, call: ToolCall, e: Edge)
    requires Accepted(g) && call.ConnectNodes? && e.source == call.source && e.target == call.target
    ensures Leaves(g, call, g.(edges := g.edges + [e]))
  {
    hide WellFormed, LifecycleIds, Acyclic;
    DistinctByConcat(g.edges, [e], ArcOf);
    assert e in g.edges + [e];
    assert DistinctBy([e], ArcOf);
    assert (call.source, call.target) in ArcsOf(g.edges) <==> exists d :: d in g.edges && ArcOf(d) == ArcOf(e);
  }

  lemma ConnectResidue(host: Host, g: Graph, call: ToolCall)
    requires Accepted(g) && call.ConnectNodes? && ProposeConnect(host, g, call).Ok?
    ensures Leaves(g, call, ProposeConnect(host, g, call).value)
  {
    hide WellFormed, Sound, Leaves;
    AppendedLeaves(g, call, Edge(call.newEdgeId, call.source, call.target, call.sourceHandle, None));
  }

  lemma InsertDistinctArcs(g: Graph, edge: Edge, call: ToolCall)
    requires NoDanglingEdge(g) && UniqueEdgeIds(g.edges) && DistinctBy(g.edges, ArcOf)
    requires call.InsertNodeOnEdge? && FreshFor(g, call) && edge in g.edges
    ensures DistinctBy(Inserted(g, edge, call).edges, ArcOf)
  {
    var hub := call.newNodeId;
    var a, b := edge.(target := hub), Edge(call.newEdgeId, hub, edge.target, call.outgoingHandle, None);
    var i := SpliceAt(g.edges, edge, [a, b]);
    var front, back := g.edges[..i], g.edges[i + 1..];
    assert g.edges == front + [edge] + back;
    forall e | e in front || e in back ensures e in g.edges {}
    ReplaceDistinct(front, edge, back, a, b, ArcOf);
  }

  lemma InsertResidue(g: Graph, edge: Edge, call: ToolCall)
    requires Accepted(g) && call.InsertNodeOnEdge? && FreshFor(g, call) && edge in g.edges
    ensures Leaves(g, call, Inserted(g, edge, call))
  {
    InsertDistinctArcs(g, edge, call);
    InsertedEdgesKeep(g, edge, call);
    LifecyclesConcat(g.nodes, [InsertedStep(g, edge, call)]);
    LifecycleAmongNodes(g.nodes);
  }

  lemma {:induction false} LifecycleAmongNodes(nodes: seq<Node>)
    ensures forall id | id in LifecycleIds(nodes) :: id in NodeIds(nodes)
  {
    if nodes != [] {
      LifecycleAmongNodes(nodes[1..]);
      forall n | n in nodes[1..] ensures n.id in NodeIds(nodes) { assert n in nodes; }
      assert nodes[0] in nodes;
    }
  }

  lemma InsertProposalResidue(host: Host, g: Graph, call: ToolCall)
    requires Accepted(g) && call.InsertNodeOnEdge? && FreshFor(g, call) && ProposeInsert(host, g, call).Ok?
    ensures Leaves(g, call, ProposeInsert(host, g, call).value)
  {
    var edge := LookupEdge(g.edges, call.edgeId).value;
    assert ProposeInsert(host, g, call).value == Inserted(g, edge, call);
    hide ProposeInsert, Inserted, Leaves, Accepted;
    InsertResidue(g, edge, call);
  }

  lemma ProposalResidue(host: Host, s: DraftState, call: ToolCall)
    requires |s.revisions| > 0 && Accepted(s.document) && FreshFor(s.document, call)
    requires !call.RevertDraft? && Proposal(host, s, call).Ok?
    ensures Leaves(s.document, call, Proposal(host, s, call).value)
  {
    hide Leaves, Accepted, FreshFor, ProposeAdd, ProposeUpdate, ProposeDelete, ProposeConnect, ProposeDisconnect,
      ProposeInsert;
    var g := s.document;
    match call
    case AddNode(_, _, _, _, _) => AddResidue(host, g, call);
    case UpdateNode(_, _, _, _, _, _) => UpdateResidue(host, g, call);
    case DeleteNode(_) => DeleteResidue(g, call);
    case ConnectNodes(_, _, _, _) => ConnectResidue(host, g, call);
    case DisconnectNodes(_) => DisconnectResidue(g, call);
    case InsertNodeOnEdge(_, _, _, _, _, _, _, _) => InsertProposalResidue(host, g, call);
  }

  // Exactly which calls that pass a tool's own checks the gate refuses.
  lemma GateAfterTools(host: Host, s: DraftState, call: ToolCall)
    requires |s.revisions| > 0 && WellFormed(s.revisions[0]) && Accepted(s.document) && FreshFor(s.document, call)
    requires !call.RevertDraft? && Proposal(host, s, call).Ok?
    ensures var candidate := Settled(host, Proposal(host, s, call).value);
            TopologyReason(candidate, host.refusesJoin(candidate))
            == if Leftover(s.document, call).Some? then Leftover(s.document, call)
               else if host.refusesJoin(candidate) then Some(JoinRule)
               else None
  {
    hide WellFormed, Proposal, Dissolve, TopologyReason, SimpleEdges, Acyclic, GroupStructureOk;
    var edited := Proposal(host, s, call).value;
    ProposalKeeps(host, s, call);
    SettledKeeps(host, edited);
    SettledLifecycles(host, edited);
    ProposalResidue(host, s, call);
    GateResidue(Settled(host, edited), host.refusesJoin(Settled(host, edited)));
  }

  // A second branch of a Condition into a step its other branch already enters
  // passes every check of `connect_nodes`, and the gate refuses the graph.
  lemma SecondBranchRefused(host: Host, s: DraftState, call: ToolCall, split: Node, wired: Edge)
    requires |s.revisions| > 0 && WellFormed(s.revisions[0]) && Accepted(s.document) && FreshFor(s.document, call)
    requires call.ConnectNodes? && split in s.document.nodes && split.id == call.source
             && ActionTypeOf(split) == Some(CONDITION)
    requires wired in s.document.edges && wired.source == call.source && wired.target == call.target
    requires call.sourceHandle in {Some("true"), Some("false")} && wired.sourceHandle != call.sourceHandle
    ensures Proposal(host, s, call).Ok?
    ensures var candidate := Settled(host, Proposal(host, s, call).value);
            TopologyReason(candidate, host.refusesJoin(candidate)) == Some(ParallelEdges)
  {
    var g := s.document;
    BranchProposed(host, g, call, split, wired);
    GateAfterTools(host, s, call);
    assert ArcOf(wired) in ArcsOf(g.edges);
  }

  lemma BranchProposed(host: Host, g: Graph, call: ToolCall, split: Node, wired: Edge)
    requires Accepted(g) && call.ConnectNodes? && split in g.nodes && split.id == call.source
    requires ActionTypeOf(split) == Some(CONDITION) && call.sourceHandle in {Some("true"), Some("false")}
    requires wired in g.edges && wired.source == call.source && wired.target == call.target
    requires wired.sourceHandle != call.sourceHandle
    ensures ProposeConnect(host, g, call).Ok?
  {
    hide Acyclic, Reaches;
    var source, target := Lookup(g.nodes, call.source).value, Lookup(g.nodes, call.target);
    UniqueNode(g.nodes, source, split);
    assert target.Some? by { var n :| n in g.nodes && n.id == call.target; }
    assert !IsGroup(target.value);
    forall e | e in g.edges && e.source == call.source && e.target == call.target
      ensures e.sourceHandle != call.sourceHandle {
      assert ArcOf(e) == ArcOf(wired);
      DistinctByKey(g.edges, ArcOf, e, wired);
    }
    NoLoopBack(g, wired);
  }

  // On an acyclic graph no edge's head leads back to its tail.
  lemma NoLoopBack(g: Graph, e: Edge)
    requires WellFormed(g) && e in g.edges
    ensures !WouldCycle(g.edges, e.source, e.target)
  {
    hide GroupStructureOk, HandlesFit;
    NoEmptyTarget(g);
    assert ArcOf(e) in ArcsOf(g.edges);
    ReachesArc(ArcsOf(g.edges), e.source, e.target);
    if Reaches(ArcsOf(g.edges), e.target, e.source) { ReachesTrans(ArcsOf(g.edges), e.source, e.target, e.source); }
  }

  // Such a document: a Lifecycle Node into a Condition, its True branch into a
  // step.
  const STARTS_SPLIT := Edge("1", "l", "c", Some(STARTED), None)
  const ENTERS_STEP := Edge("2", "c", "x", Some("true"), None)

  ghost predicate OneBranchWired(g: Graph, entry: Node, split: Node, step: Node) {
    && g == Graph([entry, split, step], [STARTS_SPLIT, ENTERS_STEP])
    && entry.id == "l" && entry.kind == Lifecycle && entry.parentId.None?
    && split.id == "c" && ActionTypeOf(split) == Some(CONDITION) && split.parentId.None?
    && step.id == "x" && step.kind == Action && step.parentId.None?
  }

  lemma OneBranchArcs(g: Graph, entry: Node, split: Node, step: Node)
    requires OneBranchWired(g, entry, split, step)
    ensures NodeIds(g.nodes) == {"l", "c", "x"} && Acyclic(ArcsOf(g.edges)) && LifecycleIds(g.nodes) == ["l"]
  {
    assert g.nodes[0].id in NodeIds(g.nodes) && g.nodes[1].id in NodeIds(g.nodes) && g.nodes[2].id in NodeIds(g.nodes);
    assert ArcOf(g.edges[0]) in ArcsOf(g.edges) && ArcOf(g.edges[1]) in ArcsOf(g.edges);
    assert ArcsOf(g.edges) == {("l", "c")} + {("c", "x")};
    OneArcAcyclic("l", "c");
    OneArcReach("l", "c", "x", "c");
    AcyclicAddArc({("l", "c")}, "c", "x");
    assert [entry][1..] == [] && [split][1..] == [] && [step][1..] == [];
    LifecyclesConcat([split], [step]);
    LifecyclesConcat([entry], [split] + [step]);
    assert g.nodes == [entry] + ([split] + [step]);
  }

  lemma SecondBranchExample(g: Graph, entry: Node, split: Node, step: Node)
    requires OneBranchWired(g, entry, split, step)
    ensures Accepted(g) && split in g.nodes && ENTERS_STEP in g.edges
  {
    hide Reaches, Acyclic, LifecycleIds, ArcsOf;
    OneBranchArcs(g, entry, split, step);
    assert g.nodes[1] == split && g.edges[1] == ENTERS_STEP;
    forall n | n in g.nodes ensures n == entry || n == split || n == step {}
    forall e | e in g.edges ensures e == STARTS_SPLIT || e == ENTERS_STEP {}
  }

  // From an acyclic opening, whatever else it breaks, every run keeps the
  // current document and every stored revision acyclic.
  lemma RunAcyclic(host: Host, opening: Graph, calls: seq<ToolCall>)
    requires Acyclic(ArcsOf(opening.edges))
    ensures var s := Run(host, Opened(opening), calls);
            && Acyclic(ArcsOf(s.document.edges))
            && forall i | 0 <= i < |s.revisions| :: Acyclic(ArcsOf(s.revisions[i].edges))
  {
    hide Run, Sound, Acyclic, ArcsOf;
    RunStoresSound(host, Opened(opening), calls);
    RunHoldsNewest(host, Opened(opening), calls);
    var s := Run(host, Opened(opening), calls);
    forall i | 1 <= i < |s.revisions| ensures Acyclic(ArcsOf(s.revisions[i].edges)) { SoundAcyclic(s.revisions[i]); }
  }

  lemma SoundAcyclic(g: Graph)
    requires Sound(g)
    ensures Acyclic(ArcsOf(g.edges))
  {
  }

  lemma {:induction false} RunHoldsNewest(host: Host, s: DraftState, calls: seq<ToolCall>)
    requires |s.revisions| > 0 && s.document == s.revisions[|s.revisions| - 1]
    ensures |Run(host, s, calls).revisions| > 0
    ensures Run(host, s, calls).document == Run(host, s, calls).revisions[|Run(host, s, calls).revisions| - 1]
    decreases |calls|
  {
    hide Answer;
    if calls != [] {
      AnswerAppends(host, s, calls[0]);
      RunHoldsNewest(host, Answer(host, s, calls[0]).0, calls[1..]);
    }
  }

  // Whatever the opening graph is, the gate alone makes every later revision
  // sound, so an acyclic opening is all an acyclic turn needs.
  lemma {:induction false} RunStoresSound(host: Host, s: DraftState, calls: seq<ToolCall>)
    requires |s.revisions| > 0
    requires forall i | 1 <= i < |s.revisions| :: Sound(s.revisions[i])
    ensures forall i | 1 <= i < |Run(host, s, calls).revisions| :: Sound(Run(host, s, calls).revisions[i])
    ensures Run(host, s, calls).revisions[0] == s.revisions[0]
    decreases |calls|
  {
    if calls != [] {
      var (next, result) := Answer(host, s, calls[0]);
      if result.Ok? { GateExact(result.value, host.refusesJoin(result.value)); }
      RunStoresSound(host, next, calls[1..]);
    }
  }

  // A stored document is one the residue theorem speaks of.
  lemma StoredIsAccepted(host: Host, s: DraftState, opening: Graph, call: ToolCall)
    requires Invariant(s, opening) && FreshFor(s.document, call)
    requires Answer(host, s, call).1.Ok?
    ensures Accepted(Answer(host, s, call).0.document)
  {
    AnswerKeeps(host, s, opening, call);
    var result := Answer(host, s, call).1;
    GateExact(result.value, host.refusesJoin(result.value));
  }
}
