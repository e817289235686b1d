// What each canvas edit commits, and when it commits nothing, read off the graph
// and the request.
module CanvasResults {
  import opened Reachability
  import opened Sequences
  import opened WorkflowGraph
  import opened GroupRules
  import opened NodeGroup
  import opened Grouping
  import opened CanvasInsertion
  import opened ConnectionRules
  import opened ConnectionExpansion
  import opened CanvasSoundness
  import opened GroupBoundary
  import opened PaintedEdges
  import opened CanvasOps
  import Pasting

  // --- the connection rules ---

  // An end that takes no connection: the Add step control, or the entry as a
  // target.
  ghost predicate EndTaken(nodes: seq<Node>, a: Addition) {
    exists n :: n in nodes
      && ((n.id == a.source && n.kind == Add) || (n.id == a.target && (n.kind == Add || n.kind == Lifecycle)))
  }

  lemma EndpointsExact(nodes: seq<Node>, a: Addition)
    requires UniqueNodeIds(nodes)
    ensures EndpointRefused(nodes, a) <==> EndTaken(nodes, a)
  {
    forall n | n in nodes ensures Lookup(nodes, n.id) == Some(n) { UniqueNode(nodes, Lookup(nodes, n.id).value, n); }
    hide Lookup, UniqueNodeIds;
  }

  // The arcs of the additions the cycle walk follows.
  function NewArcs(additions: seq<Addition>): Arcs {
    set a | a in additions && a.target != "" :: (a.source, a.target)
  }

  ghost predicate Allowed(g: Graph, additions: seq<Addition>, otherRules: Rules) {
    && (forall a | a in additions :: !EndTaken(g.nodes, a))
    && (forall a | a in additions :: !Reaches(SolidArcs(g.edges) + NewArcs(additions), a.target, a.source))
    && !otherRules(g, additions)
  }

  lemma ProposedSolid(edges: seq<Edge>, additions: seq<Addition>)
    ensures SolidArcs(Proposed(edges, additions)) == SolidArcs(edges) + NewArcs(additions)
  {
    var added := Map(additions, Unnamed);
    forall a | a in additions && a.target != "" ensures (a.source, a.target) in SolidArcs(edges + added) {
      MapHas(additions, Unnamed, Unnamed(a));
      assert Unnamed(a) in edges + added && ArcOf(Unnamed(a)) == (a.source, a.target);
    }
    forall e | e in added && e.target != "" ensures ArcOf(e) in NewArcs(additions) { MapHas(additions, Unnamed, e); }
    forall e | e in edges && e.target != "" ensures ArcOf(e) in SolidArcs(edges + added) { assert e in edges + added; }
  }

  lemma AllowedExact(g: Graph, additions: seq<Addition>, otherRules: Rules)
    requires UniqueNodeIds(g.nodes)
    ensures AdditionsRefused(g, additions, otherRules) <==> !Allowed(g, additions, otherRules)
  {
    ProposedSolid(g.edges, additions);
    forall a | a in additions ensures EndpointRefused(g.nodes, a) <==> EndTaken(g.nodes, a) {
      EndpointsExact(g.nodes, a);
    }
    hide EndpointRefused, EndTaken, SolidArcs, UniqueNodeIds, Reaches;
  }

  // --- inserting a step ---

  // The step as it is stored: in the open Group, if one is open.
  ghost predicate Joins(nodes: seq<Node>, scope: Option<Id>, step: Node, joined: Node) {
    if scope.Some? && step.parentId != Some(step.id)
      && (exists f :: f in nodes && f.id == scope.value && f.kind == Group)
    then joined == step.(parentId := scope)
    else joined == step
  }

  lemma JoiningExact(nodes: seq<Node>, scope: Option<Id>, step: Node)
    requires UniqueNodeIds(nodes)
    ensures Joins(nodes, scope, step, Joining(nodes, scope, step))
  {
    if scope.Some? {
      forall f | f in nodes && f.id == scope.value ensures Lookup(nodes, scope.value) == Some(f) {
        UniqueNode(nodes, Lookup(nodes, scope.value).value, f);
      }
    }
  }

  predicate MovedTo(positions: map<Id, Position>, was: Node, now: Node) {
    now == was.(position := if was.id in positions then positions[was.id] else was.position)
  }

  // The proposed graph: every node where it is put, the step, the edges that
  // stay, and one new edge for each addition.
  lemma InsertionGraphExact(g: Graph, step: Node, edgeIds: set<Id>, additions: seq<Addition>, ids: seq<Id>,
                            positions: map<Id, Position>)
    requires |ids| == |additions|
    ensures var next := InsertionGraph(g, step, edgeIds, additions, ids, positions);
            var kept := Filter(g.edges, NotNamed(edgeIds));
            && (forall m :: m in next.nodes <==> m == step || exists n :: n in g.nodes && MovedTo(positions, n, m))
            && |next.edges| == |kept| + |additions| && next.edges[..|kept|] == kept
            && (forall e :: e in kept <==> e in g.edges && e.id !in edgeIds)
            && forall i | 0 <= i < |additions| ::
                 next.edges[|kept| + i] == Edge(ids[i], additions[i].source, additions[i].target,
                                                additions[i].sourceHandle, additions[i].targetHandle)
  {
    var moved := Map(g.nodes, Moved(positions));
    OrderPermutes(moved + [step]);
    hide OrderGroupParentsFirst;
    forall m ensures m in moved <==> exists n :: n in g.nodes && MovedTo(positions, n, m) {
      MapHas(g.nodes, Moved(positions), m);
      if n :| n in g.nodes && MovedTo(positions, n, m) { assert Moved(positions)(n) == m; }
    }
  }

  // What an insertion commits: the proposed graph, when the rules allow its
  // additions and the structure stands.
  ghost predicate Commits(g: Graph, joined: Node, edgeIds: set<Id>, additions: seq<Addition>, mint: Minting,
                          positions: map<Id, Position>, otherRules: Rules, result: Option<Graph>) {
    exists ids: seq<Id> ::
      && |ids| == |additions| && (forall i: nat | i < |ids| :: ids[i] == mint(i))
      && var next := InsertionGraph(g, joined, edgeIds, additions, ids, positions);
      result == if Allowed(Graph(next.nodes, Filter(g.edges, NotNamed(edgeIds))), additions, otherRules)
                   && GroupStructureOk(next)
                then Some(next) else None
  }

  lemma PlanCommits(g: Graph, insertion: Insertion, mint: Minting, otherRules: Rules)
    requires UniqueNodeIds(g.nodes) && insertion.step.id !in NodeIds(g.nodes)
    ensures Commits(g, insertion.step, insertion.edgeIds, insertion.additions, mint, insertion.positions, otherRules,
                    IfAccepted(g, Some(insertion), mint, otherRules))
  {
    var ids := Minted(|insertion.additions|, mint);
    var next := InsertionGraph(g, insertion.step, insertion.edgeIds, insertion.additions, ids, insertion.positions);
    MovedUnique(g.nodes, insertion.positions, insertion.step);
    OrderUnique(Map(g.nodes, Moved(insertion.positions)) + [insertion.step]);
    AllowedExact(Graph(next.nodes, Filter(g.edges, NotNamed(insertion.edgeIds))), insertion.additions, otherRules);
    hide Allowed, AdditionsRefused, GroupStructureOk, UniqueNodeIds, OrderGroupParentsFirst;
  }

  // Insert step: refused when nothing is painted under the id or it stands for no
  // stored edge, and otherwise the replacement of those edges.
  lemma InsertStepExact(g: Graph, edit: Edit) returns (joined: Node)
    requires edit.InsertStep? && UniqueNodeIds(g.nodes) && edit.step.id !in NodeIds(g.nodes)
    ensures Joins(g.nodes, edit.scope, edit.step, joined)
    ensures var edgeIds := StoredEdgeIds(g.nodes, g.edges, edit.on.edgeId, edit.scope.Some?);
            if !edit.on.isPainted || edgeIds == {} then Asked(g, edit) == None
            else Commits(g, joined, edgeIds, ReplacementPlan(g.edges, edgeIds, edit.step.id, edit.on.outlet), edit.mint,
                         edit.on.positions, edit.otherRules, Asked(g, edit))
  {
    hide Joining, Joins, Commits, IfAccepted, UniqueNodeIds, StoredEdgeIds, ReplacementPlan;
    joined := Joining(g.nodes, edit.scope, edit.step);
    JoiningExact(g.nodes, edit.scope, edit.step);
    var plan := OnEdgePlan(g, edit.scope, edit.step, edit.on);
    if plan.Some? {
      JoinedId(g.nodes, edit.scope, edit.step, joined);
      PlanCommits(g, plan.value, edit.mint, edit.otherRules);
    } else {
      NothingPlanned(g, edit.mint, edit.otherRules);
    }
  }

  lemma NothingPlanned(g: Graph, mint: Minting, otherRules: Rules)
    ensures IfAccepted(g, None, mint, otherRules) == None
  {
  }

  lemma JoinedId(nodes: seq<Node>, scope: Option<Id>, step: Node, joined: Node)
    requires Joins(nodes, scope, step, joined)
    ensures joined.id == step.id
  {
  }

  // Add step after: refused when the outlet stores nothing; the replacement of
  // the edges its insertable connections stand for, if there are any; and else
  // what a drag from the stored port to the new step comes to, if anything.
  lemma AddStepAfterExact(g: Graph, edit: Edit) returns (joined: Node)
    requires edit.AddStepAfter? && UniqueNodeIds(g.nodes) && edit.step.id !in NodeIds(g.nodes)
    ensures Joins(g.nodes, edit.scope, edit.step, joined)
    ensures var edgeIds := set e, p | e in g.edges && p in edit.after.painted
              && e.id in StoredEdgeIds(g.nodes, g.edges, p, edit.scope.Some?) :: e.id;
            var plan := ReplacementPlan(g.edges, edgeIds, edit.step.id, edit.after.outlet);
            if edit.after.port.None? then Asked(g, edit) == None
            else if edgeIds != {} then
              Commits(g, joined, edgeIds, plan, edit.mint, map[], edit.otherRules, Asked(g, edit))
            else
              var port := edit.after.port.value;
              var drag := Request(Some(port.nodeId), Some(edit.step.id), port.handle, None);
              var wide := InsertionGraph(g, joined, {}, [], [], map[]);
              var additions := Expand(wide, drag, edit.after.throughStub, edit.after.choose);
              if additions.None? then Asked(g, edit) == None
              else Commits(g, joined, {}, additions.value, edit.mint, map[], edit.otherRules, Asked(g, edit))
  {
    hide Joining, Joins, Commits, IfAccepted, UniqueNodeIds, StoredEdgeIds, ReplacementPlan, Expand, InsertionGraph;
    joined := Joining(g.nodes, edit.scope, edit.step);
    JoiningExact(g.nodes, edit.scope, edit.step);
    JoinedId(g.nodes, edit.scope, edit.step, joined);
    var plan := AfterPlan(g, edit.scope, edit.step, edit.after);
    if plan.Some? { PlanCommits(g, plan.value, edit.mint, edit.otherRules); }
    NothingPlanned(g, edit.mint, edit.otherRules);
  }

  // Adding a step alone asks the structure rules and nothing else.
  lemma AddStepExact(g: Graph, edit: Edit) returns (joined: Node)
    requires edit.AddStep? && UniqueNodeIds(g.nodes)
    ensures Joins(g.nodes, edit.scope, edit.step, joined)
    ensures var next := InsertionGraph(g, joined, {}, [], [], map[]);
            Asked(g, edit) == if GroupStructureOk(next) then Some(next) else None
  {
    hide Joining, Joins, UniqueNodeIds, GroupStructureOk, InsertionGraph;
    joined := Joining(g.nodes, edit.scope, edit.step);
    JoiningExact(g.nodes, edit.scope, edit.step);
  }

  // The additions follow the stored edges, each under its own new id.
  ghost predicate Appends(g: Graph, additions: seq<Addition>, mint: Minting, next: Graph) {
    && next.nodes == g.nodes
    && |next.edges| == |g.edges| + |additions| && next.edges[..|g.edges|] == g.edges
    && forall i: nat | i < |additions| ::
         next.edges[|g.edges| + i] == Edge(mint(i), additions[i].source, additions[i].target,
                                           additions[i].sourceHandle, additions[i].targetHandle)
  }

  lemma ConnectedAppends(g: Graph, additions: seq<Addition>, mint: Minting)
    ensures Appends(g, additions, mint, Connected(g, additions, mint))
  {
  }

  // A drag stores what it comes to, when the rules allow it.
  lemma ConnectExact(g: Graph, edit: Edit)
    requires edit.Connect? && UniqueNodeIds(g.nodes)
    ensures var additions := Expand(g, edit.request, edit.throughStub, edit.choose);
            if additions.None? || !Allowed(g, additions.value, edit.otherRules) then Asked(g, edit) == None
            else Asked(g, edit).Some? && Appends(g, additions.value, edit.mint, Asked(g, edit).value)
  {
    hide Expand, Allowed, Appends, Connected, AdditionsRefused, UniqueNodeIds;
    var additions := Expand(g, edit.request, edit.throughStub, edit.choose);
    if additions.Some? {
      AllowedExact(g, additions.value, edit.otherRules);
      ConnectedAppends(g, additions.value, edit.mint);
    }
  }

  // --- what a request expands to ---

  // A step is left by the outlet chosen for it and arrived at itself; a Group is
  // left by its outlets and arrived at by its entries.
  lemma SourcesExact(g: Graph, source: Id, handle: Option<string>)
    requires UniqueNodeIds(g.nodes)
    ensures if exists f :: f in g.nodes && f.id == source && f.kind == Group
            then StoredSources(g, source, handle) == OutletPorts(g.nodes, g.edges, source)
            else StoredSources(g, source, handle) == [Port(source, handle)]
    ensures if exists f :: f in g.nodes && f.id == source && f.kind == Group
            then StoredTargets(g, source) == (if EntryIds(g.nodes, g.edges, source) == [] then [source]
                                              else EntryIds(g.nodes, g.edges, source))
            else StoredTargets(g, source) == [source]
  {
    forall f | f in g.nodes && f.id == source ensures Lookup(g.nodes, source) == Some(f) {
      UniqueNode(g.nodes, Lookup(g.nodes, source).value, f);
    }
  }

  ghost predicate In(nodes: seq<Node>, id: Id, frame: Id) {
    exists n :: n in nodes && n.id == id && n.parentId == Some(frame)
  }

  // A member of a Group against a step outside it.
  ghost predicate Across(nodes: seq<Node>, source: Id, target: Id) {
    exists f :: f != "" && (In(nodes, source, f) != In(nodes, target, f))
  }

  lemma CrossesExact(nodes: seq<Node>, source: Id, target: Id)
    requires UniqueNodeIds(nodes)
    ensures CrossesBoundary(nodes, source, target) <==> Across(nodes, source, target)
  {
    var from, onto := ParentOf(nodes, source), ParentOf(nodes, target);
    forall id: Id, f ensures In(nodes, id, f) <==> ParentOf(nodes, id) == Some(f) { ParentExact(nodes, id, f); }
    hide ParentOf, In;
    if CrossesBoundary(nodes, source, target) {
      var f := if from.Some? && from.value != "" then from.value else onto.value;
      assert In(nodes, source, f) != In(nodes, target, f);
    }
  }

  lemma ParentExact(nodes: seq<Node>, id: Id, frame: Id)
    requires UniqueNodeIds(nodes)
    ensures In(nodes, id, frame) <==> ParentOf(nodes, id) == Some(frame)
  {
    forall n | n in nodes && n.id == id ensures Lookup(nodes, id) == Some(n) {
      UniqueNode(nodes, Lookup(nodes, id).value, n);
    }
  }

  // A request is refused exactly when it lacks an end, joins a node to itself or
  // to an end that takes no connection, crosses a Group's boundary other than by
  // its stub, or comes to nothing new.
  lemma ExpandRefusedIff(g: Graph, request: Request, throughStub: bool, choose: OutletChoice)
    requires UniqueNodeIds(g.nodes)
    ensures Expand(g, request, throughStub, choose).None?
       <==> (request.source.None? || request.target.None? || request.source.value == "" || request.target.value == ""
             || request.source == request.target
             || EndTaken(g.nodes, Addition(request.source.value, None, request.target.value, None))
             || (!throughStub && Across(g.nodes, request.source.value, request.target.value))
             || FanOut(g, request.source.value, choose(g, request.source.value, request.sourceHandle),
                       request.target.value, request.targetHandle) == [])
    ensures Expand(g, request, throughStub, choose).Some?
            ==> Expand(g, request, throughStub, choose).value
                == FanOut(g, request.source.value, choose(g, request.source.value, request.sourceHandle),
                          request.target.value, request.targetHandle)
  {
    if request.source.Some? && request.target.Some? {
      EndpointsExact(g.nodes, Addition(request.source.value, None, request.target.value, None));
      CrossesExact(g.nodes, request.source.value, request.target.value);
    }
    hide EndpointRefused, EndTaken, CrossesBoundary, Across, FanOut, UniqueNodeIds;
  }

  // --- deleting, clearing, grouping, pasting ---

  // A deletion takes the batch, then the edges it names.
  lemma DeletedExact(g: Graph, nodeIds: set<Id>, edgeIds: set<Id>, placer: Placer)
    ensures var out := Deleted(g, nodeIds, edgeIds, placer);
            var batch := if nodeIds == {} then g else RemoveNodes(g, nodeIds, placer);
            out.nodes == batch.nodes && forall e :: e in out.edges <==> e in batch.edges && e.id !in edgeIds
  {
    hide RemoveNodes;
  }

  // The edges a batch takes are those at a step of it; its frames and the
  // Lifecycle Node take none.
  lemma RemovedEdgesExact(g: Graph, batch: set<Id>, placer: Placer, e: Edge)
    ensures e in RemoveNodes(g, batch, placer).edges
       <==> (e in g.edges && forall n | n in g.nodes && (n.id == e.source || n.id == e.target) ::
                 n.id !in batch || n.kind == Group || n.kind == Lifecycle)
  {
    hide UngroupFrames;
  }

  lemma ClearedExact(g: Graph)
    ensures Cleared(g).edges == [] && forall n :: n in Cleared(g).nodes <==> n in g.nodes && n.kind == Lifecycle
  {
  }

  // A deletion, an ungrouping or a clear commits what it comes to, unless that is
  // the graph as it was.
  lemma CommitsChange(g: Graph, edit: Edit)
    ensures edit.Delete?
            ==> CommitsUnless(g, Deleted(g, edit.nodeIds, edit.edgeIds, edit.placer), Asked(g, edit))
    ensures edit.DeleteGroup? ==> CommitsUnless(g, RemoveGroupWithMembers(g, edit.groupId), Asked(g, edit))
    ensures edit.Clear? ==> CommitsUnless(g, Cleared(g), Asked(g, edit))
  {
    if edit.Delete? { DeletedChanges(g, edit.nodeIds, edit.edgeIds, edit.placer); }
    if edit.DeleteGroup? { GroupDeletedChanges(g, edit.groupId); }
    hide Deleted, RemoveGroupWithMembers;
  }

  predicate CommitsUnless(g: Graph, next: Graph, asked: Option<Graph>) {
    asked == if next == g then None else Some(next)
  }

  lemma DeletedChanges(g: Graph, nodeIds: set<Id>, edgeIds: set<Id>, placer: Placer)
    ensures |Deleted(g, nodeIds, edgeIds, placer).edges| == |g.edges|
            ==> Deleted(g, nodeIds, edgeIds, placer).edges == g.edges
  {
    var batch := if nodeIds == {} then g else RemoveNodes(g, nodeIds, placer);
    hide UngroupFrames;
    FilterLength(g.edges, NotTouchingAny(RemovedIds(g.nodes, nodeIds)));
    FilterLength(batch.edges, NotNamed(edgeIds));
  }

  lemma GroupDeletedChanges(g: Graph, groupId: Id)
    ensures |RemoveGroupWithMembers(g, groupId).edges| == |g.edges|
            ==> RemoveGroupWithMembers(g, groupId).edges == g.edges
  {
    var removedIds := {groupId} + set n | n in g.nodes && n.parentId == Some(groupId) :: n.id;
    FilterLength(g.edges, NotTouchingAny(removedIds));
  }

  // Ungrouping names the frame given, or the frame of the member given.
  lemma GroupOfExact(nodes: seq<Node>, nodeId: Id, f: Id)
    requires UniqueNodeIds(nodes)
    ensures GroupOf(nodes, nodeId) == Some(f)
       <==> (f != "" && exists n :: n in nodes && n.id == nodeId
                          && if n.kind == Group then f == nodeId else n.parentId == Some(f))
  {
    forall n | n in nodes && n.id == nodeId ensures Lookup(nodes, nodeId) == Some(n) {
      UniqueNode(nodes, Lookup(nodes, nodeId).value, n);
    }
  }

  // Ungrouping drops the frame and frees its members where they are placed.
  ghost predicate FreedAs(nodes: seq<Node>, frameId: Id, place: Node -> Position, n: Node, m: Node) {
    && n in nodes && !(n.kind == Group && n.id == frameId)
    && if n.parentId == Some(frameId) && exists f :: f in nodes && f.id == frameId && f.kind == Group
       then m == n.(parentId := None, position := place(n))
       else m == n
  }

  lemma UngroupedAs(g: Graph, edit: Edit) returns (nodes: seq<Node>)
    requires edit.Ungroup? && UniqueNodeIds(g.nodes)
    ensures var groupId := GroupOf(g.nodes, edit.nodeId);
            if groupId.None? then Asked(g, edit) == None
            else
              && CommitsUnless(g, Graph(nodes, g.edges), Asked(g, edit))
              && forall m :: m in nodes <==> exists n :: FreedAs(g.nodes, groupId.value, edit.placer(g.nodes), n, m)
  {
    var groupId := GroupOf(g.nodes, edit.nodeId);
    nodes := if groupId.None? then g.nodes else UngroupFrames(g.nodes, {groupId.value}, edit.placer);
    hide UngroupFrames, GroupOf, FreedAs, UniqueNodeIds;
    if groupId.Some? { UngroupedNodes(g.nodes, groupId.value, edit.placer); }
  }

  lemma FreedIsReleased(nodes: seq<Node>, frameId: Id, place: Node -> Position, n: Node, m: Node)
    requires UniqueNodeIds(nodes) && n in nodes
    ensures FreedAs(nodes, frameId, place, n, m)
       <==> (n.id !in FrameIds(nodes, {frameId}) && m == Release(n, FrameIds(nodes, {frameId}), place))
  {
    forall f | f in nodes && f.id == n.id ensures f == n { UniqueNode(nodes, f, n); }
    hide UniqueNodeIds;
  }

  lemma UngroupedNodes(nodes: seq<Node>, frameId: Id, placer: Placer)
    requires UniqueNodeIds(nodes)
    ensures forall m :: m in UngroupFrames(nodes, {frameId}, placer)
              <==> exists n :: FreedAs(nodes, frameId, placer(nodes), n, m)
  {
    var place, frames := placer(nodes), FrameIds(nodes, {frameId});
    var kept := Dissolve(nodes, {frameId}, place);
    OrderPermutes(kept);
    hide Dissolve, OrderGroupParentsFirst, UniqueNodeIds, FrameIds, Release, LosesFrame;
    forall m ensures m in kept <==> exists n :: FreedAs(nodes, frameId, place, n, m) {
      if m in kept {
        var n := DissolvedFrom(nodes, {frameId}, place, m);
        FreedIsReleased(nodes, frameId, place, n, m);
      }
      if n :| FreedAs(nodes, frameId, place, n, m) {
        FreedIsReleased(nodes, frameId, place, n, m);
        DissolveKeeps(nodes, {frameId}, place, n);
      }
    }
  }

  // Grouping, ungrouping, insertion and pasting store frames before their members.
  lemma GroupedStaged(g: Graph, ids: set<Id>, groupId: Id, origin: Position)
    ensures Staged(WrapAt(g, ids, groupId, origin).nodes)
  {
    hide Staged, OrderGroupParentsFirst;
    OrderStages(Filter(g.nodes, Outside(ids)) + [Frame(groupId, origin)]
                + Map(Filter(g.nodes, Within(ids)), Joiner(groupId, origin)));
  }

  lemma UngroupedStaged(nodes: seq<Node>, groupIds: set<Id>, placer: Placer)
    ensures Staged(UngroupFrames(nodes, groupIds, placer))
  {
    hide Staged, OrderGroupParentsFirst;
    OrderStages(Dissolve(nodes, groupIds, placer(nodes)));
  }

  lemma InsertedStaged(g: Graph, step: Node, edgeIds: set<Id>, additions: seq<Addition>, ids: seq<Id>,
                       positions: map<Id, Position>)
    requires |ids| == |additions|
    ensures Staged(InsertionGraph(g, step, edgeIds, additions, ids, positions).nodes)
  {
    hide Staged, OrderGroupParentsFirst;
    OrderStages(Map(g.nodes, Moved(positions)) + [step]);
  }

  lemma PastedStaged(g: Graph, scope: Option<Id>, sub: Graph)
    ensures Staged(Pasting.Pasted(g, scope, sub).nodes)
  {
    hide Staged, OrderGroupParentsFirst;
    OrderStages(g.nodes + Pasting.JoinedNodes(g.nodes, scope, sub.nodes));
  }

  // A paste adds every node of the selection, in the open Group when its frame
  // did not come along, and every edge.
  lemma PastedExact(g: Graph, scope: Option<Id>, sub: Graph, m: Node)
    requires UniqueNodeIds(g.nodes)
    ensures var open := scope.Some? && exists f :: f in g.nodes && f.id == scope.value && f.kind == Group;
            m in Pasting.Pasted(g, scope, sub).nodes
            <==> (m in g.nodes
                  || exists n :: n in sub.nodes
                       && if open && !(n.parentId.Some? && n.parentId.value in NodeIds(sub.nodes))
                          then m == n.(parentId := scope) else m == n)
    ensures Pasting.Pasted(g, scope, sub).edges == g.edges + sub.edges
  {
    var join := Pasting.ScopeJoiner(g.nodes, scope, NodeIds(sub.nodes));
    if scope.Some? {
      forall f | f in g.nodes && f.id == scope.value ensures Lookup(g.nodes, scope.value) == Some(f) {
        UniqueNode(g.nodes, Lookup(g.nodes, scope.value).value, f);
      }
    }
    OrderPermutes(g.nodes + Map(sub.nodes, join));
    MapHas(sub.nodes, join, m);
    hide OrderGroupParentsFirst, UniqueNodeIds;
  }

  predicate TopLevelStep(n: Node) {
    n.kind == Action && n.parentId == None && ActionTypeOf(n) != Some("Event Split")
  }

  // A selection may be grouped exactly when it names at least two nodes, each of
  // them a top-level step other than an Event Split, and no other rule breaks.
  lemma GroupableExact(g: Graph, selectedIds: set<Id>, breaksRule: (Graph, set<Id>) -> bool)
    requires UniqueNodeIds(g.nodes)
    ensures Groupable(g, selectedIds, breaksRule)
       <==> (|selectedIds| >= 2 && !breaksRule(g, selectedIds)
             && forall id | id in selectedIds :: exists n :: n in g.nodes && n.id == id && TopLevelStep(n))
  {
    var selected := Filter(g.nodes, Within(selectedIds));
    FilterDistinctBy(g.nodes, Within(selectedIds), NodeId);
    KeySetSize(selected, NodeId);
    SelectedCount(g, selectedIds);
    forall n | n in selected ensures n in g.nodes && n.id in selectedIds {}
    forall id, n | id in selectedIds && n in g.nodes && n.id == id ensures n in selected {}
    forall m, n | m in g.nodes && n in g.nodes && m.id == n.id ensures m == n { UniqueNode(g.nodes, m, n); }
    hide Within, UniqueNodeIds;
  }

  lemma SelectedCount(g: Graph, selectedIds: set<Id>)
    requires UniqueNodeIds(g.nodes)
    ensures |Filter(g.nodes, Within(selectedIds))| == |selectedIds| <==> selectedIds <= NodeIds(g.nodes)
  {
    var selected := Filter(g.nodes, Within(selectedIds));
    FilterDistinctBy(g.nodes, Within(selectedIds), NodeId);
    DistinctCount(selected);
    assert NodeIds(selected) <= selectedIds;
    if |selected| == |selectedIds| { SameSize(NodeIds(selected), selectedIds); }
    if selectedIds <= NodeIds(g.nodes) {
      forall id | id in selectedIds ensures id in NodeIds(selected) {
        var n :| n in g.nodes && n.id == id;
        assert n in selected;
      }
      assert NodeIds(selected) == selectedIds;
    }
  }

  lemma {:induction false} DistinctCount(nodes: seq<Node>)
    requires UniqueNodeIds(nodes)
    ensures |NodeIds(nodes)| == |nodes|
  {
    if nodes != [] {
      var rest := nodes[1..];
      DistinctByConcat([nodes[0]], rest, NodeId);
      assert nodes == [nodes[0]] + rest;
      DistinctCount(rest);
      forall n | n in rest ensures n.id != nodes[0].id { assert NodeId(n) != NodeId(nodes[0]); }
      assert NodeIds(nodes) == NodeIds(rest) + {nodes[0].id};
    }
  }

  lemma SameSize<T>(a: set<T>, b: set<T>)
    requires a <= b && |a| == |b|
    ensures a == b
  {
    assert |b - a| == |b| - |a|;
  }

  // The frame stands at the upper left corner of the selection.
  lemma {:induction false} MinExact(first: real, rest: seq<real>)
    ensures MinOf(first, rest) <= first && forall x | x in rest :: MinOf(first, rest) <= x
    ensures MinOf(first, rest) == first || MinOf(first, rest) in rest
    decreases |rest|
  {
    if rest != [] {
      MinExact(if rest[0] < first then rest[0] else first, rest[1..]);
      assert forall x :: x in rest <==> x == rest[0] || x in rest[1..];
    }
  }

  lemma OriginExact(members: seq<Node>)
    requires members != []
    ensures forall n | n in members :: OriginOf(members).x <= n.position.x && OriginOf(members).y <= n.position.y
    ensures exists n :: n in members && n.position.x == OriginOf(members).x
    ensures exists n :: n in members && n.position.y == OriginOf(members).y
  {
    var rest := members[1..];
    var xs, ys := Map(rest, XOf), Map(rest, YOf);
    MinExact(members[0].position.x, xs);
    MinExact(members[0].position.y, ys);
    forall n | n in members ensures n == members[0] || n in rest {}
    forall n | n in rest ensures n.position.x in xs && n.position.y in ys && n in members {
      var i :| 0 <= i < |rest| && rest[i] == n;
      assert xs[i] == n.position.x && ys[i] == n.position.y;
    }
    assert members[0] in members;
    if OriginOf(members).x != members[0].position.x {
      var i :| 0 <= i < |xs| && xs[i] == OriginOf(members).x;
      assert rest[i] in members;
    }
    if OriginOf(members).y != members[0].position.y {
      var i :| 0 <= i < |ys| && ys[i] == OriginOf(members).y;
      assert rest[i] in members;
    }
  }

  // The wrapped graph: the rest as it was, a new frame, and the selection as its
  // members, each where it was on the canvas.
  lemma GroupedExact(g: Graph, selectedIds: set<Id>, groupId: Id, breaksRule: (Graph, set<Id>) -> bool, m: Node)
    requires Groupable(g, selectedIds, breaksRule)
    ensures var out := GroupSelection(g, selectedIds, groupId, breaksRule);
            && out.Some? && out.value.edges == g.edges
            && (m in out.value.nodes
                <==> InGrouped(g, selectedIds, groupId, OriginOf(Filter(g.nodes, Within(selectedIds))), m))
  {
    var origin := OriginOf(Filter(g.nodes, Within(selectedIds)));
    WrappedAs(g, selectedIds, groupId, origin, m);
    hide InGrouped, OriginOf;
  }

  ghost predicate InGrouped(g: Graph, selectedIds: set<Id>, groupId: Id, origin: Position, m: Node) {
    || (m in g.nodes && m.id !in selectedIds)
    || m == Node(groupId, Group, None, origin, NodeData("Group", None, None, map[]))
    || exists n :: n in g.nodes && n.id in selectedIds && BecomesMember(n, groupId, origin, m)
  }

  predicate BecomesMember(n: Node, groupId: Id, origin: Position, m: Node) {
    m == Node(n.id, n.kind, Some(groupId), Position(n.position.x - origin.x, n.position.y - origin.y), n.data)
  }

  lemma WrappedAs(g: Graph, selectedIds: set<Id>, groupId: Id, origin: Position, m: Node)
    ensures m in WrapAt(g, selectedIds, groupId, origin).nodes <==> InGrouped(g, selectedIds, groupId, origin, m)
  {
    WrappedNodes(g, selectedIds, groupId, origin, m);
    hide WrapAt;
  }
}
