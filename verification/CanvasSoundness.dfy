// What every canvas operation keeps: distinct nonempty ids, no dangling edge, the
// stored Group rules, no cycle, and no undersized Group.
module CanvasSoundness {
  import opened Reachability
  import opened Sequences
  import opened WorkflowGraph
  import opened GroupRules
  import opened NodeGroup
  import opened Grouping
  import opened CanvasInsertion
  import opened ConnectionRules

  ghost predicate CanvasShaped(g: Graph) {
    UniqueNodeIds(g.nodes) && UniqueEdgeIds(g.edges) && NoDanglingEdge(g) && GroupStructureOk(g)
  }

  ghost predicate CanvasSound(g: Graph) {
    CanvasShaped(g) && "" !in NodeIds(g.nodes) && Acyclic(ArcsOf(g.edges)) && NoUndersizedGroup(g.nodes)
  }

  lemma SameMembership(g: Graph, nodes: seq<Node>)
    requires CanvasShaped(g) && UniqueNodeIds(nodes) && forall n :: n in nodes <==> n in g.nodes
    ensures CanvasShaped(g.(nodes := nodes))
  {
  }

  lemma OrderKeepsShape(g: Graph)
    requires CanvasShaped(g)
    ensures CanvasShaped(g.(nodes := OrderGroupParentsFirst(g.nodes)))
  {
    OrderPermutes(g.nodes);
    OrderUnique(g.nodes);
    SameMembership(g, OrderGroupParentsFirst(g.nodes));
  }

  // Freeing the members of any frames.
  lemma DissolveKeepsShape(g: Graph, groupIds: set<Id>, place: Node -> Position)
    requires CanvasShaped(g)
    ensures CanvasShaped(g.(nodes := Dissolve(g.nodes, groupIds, place)))
  {
    DissolveUnique(g.nodes, groupIds, place);
    DissolvedShape(g, groupIds, place);
  }

  lemma UngroupKeepsShape(g: Graph, groupIds: set<Id>, placer: Placer)
    requires CanvasShaped(g)
    ensures CanvasShaped(g.(nodes := UngroupFrames(g.nodes, groupIds, placer)))
  {
    DissolveKeepsShape(g, groupIds, placer(g.nodes));
    OrderKeepsShape(g.(nodes := Dissolve(g.nodes, groupIds, placer(g.nodes))));
  }

  // Dropping steps and the edges that touch them, frames kept.
  lemma DropKeepsShape(g: Graph, ids: set<Id>)
    requires CanvasShaped(g) && forall n | n in g.nodes && IsGroup(n) :: n.id !in ids
    ensures CanvasShaped(Graph(Filter(g.nodes, Outside(ids)), RemoveEdgesTouching(g.edges, ids)))
  {
    var h := Graph(Filter(g.nodes, Outside(ids)), RemoveEdgesTouching(g.edges, ids));
    FilterDistinctBy(g.nodes, Outside(ids), NodeId);
    FilterDistinctBy(g.edges, NotTouchingAny(ids), EdgeId);
    forall e, id | e in h.edges && (id == e.source || id == e.target) ensures id in NodeIds(h.nodes) {
      var n :| n in g.nodes && n.id == id;
      assert n in h.nodes;
    }
    forall n | n in h.nodes ensures MemberOk(h.nodes, n) {
      assert MemberOk(g.nodes, n);
      if n.parentId.Some? {
        var f :| f in g.nodes && f.id == n.parentId.value && IsGroup(f);
        assert f in h.nodes;
      }
    }
  }

  lemma RemoveKeepsShape(g: Graph, batch: set<Id>, placer: Placer)
    requires CanvasShaped(g)
    ensures CanvasShaped(RemoveNodes(g, batch, placer))
  {
    var removed := RemovedIds(g.nodes, batch);
    var remaining := Filter(g.nodes, Outside(removed));
    forall n | n in g.nodes && IsGroup(n) ensures n.id !in removed {
      FrameRemains(g.nodes, batch, n);
    }
    DropKeepsShape(g, removed);
    UngroupKeepsShape(Graph(remaining, RemoveEdgesTouching(g.edges, removed)),
                      FrameIds(g.nodes, batch) + UndersizedGroupIds(remaining), placer);
  }

  lemma FewerEdgesShape(g: Graph, keep: Edge -> bool)
    requires CanvasShaped(g)
    ensures CanvasShaped(g.(edges := Filter(g.edges, keep)))
  {
    FilterDistinctBy(g.edges, keep, EdgeId);
  }

  lemma DeleteGroupKeepsShape(g: Graph, groupId: Id)
    requires CanvasShaped(g)
    ensures CanvasShaped(RemoveGroupWithMembers(g, groupId))
  {
    GroupDeletionKeeps(g, groupId);
    var removed := {groupId} + set n | n in g.nodes && n.parentId == Some(groupId) :: n.id;
    FilterDistinctBy(g.nodes, Outside(removed), NodeId);
    FilterDistinctBy(g.edges, NotTouchingAny(removed), EdgeId);
  }

  lemma MembersUnique(g: Graph, selectedIds: set<Id>, groupId: Id, origin: Position)
    requires UniqueNodeIds(g.nodes) && groupId !in NodeIds(g.nodes)
    ensures var members := Filter(g.nodes, Within(selectedIds));
            UniqueNodeIds(Filter(g.nodes, Outside(selectedIds)) + [Frame(groupId, origin)] + Map(members,
              Joiner(groupId, origin)))
  {
    var members, rest := Filter(g.nodes, Within(selectedIds)), Filter(g.nodes, Outside(selectedIds));
    var joined := Map(members, Joiner(groupId, origin));
    FilterDistinctBy(g.nodes, Within(selectedIds), NodeId);
    FilterDistinctBy(g.nodes, Outside(selectedIds), NodeId);
    assert DistinctBy(joined, NodeId) by {
      forall i, j | 0 <= i < j < |joined| ensures NodeId(joined[i]) != NodeId(joined[j]) {
        assert NodeId(members[i]) != NodeId(members[j]);
      }
    }
    forall m | m in joined ensures m.id in selectedIds && m.id != groupId {
      JoinedNodes(members, groupId, origin, m);
      var n :| n in members && m == Member(n, groupId, origin);
      assert n.id in NodeIds(g.nodes);
    }
    forall n | n in rest ensures n.id != groupId { assert n.id in NodeIds(g.nodes); }
    DistinctByConcat(rest, [Frame(groupId, origin)], NodeId);
    DistinctByConcat(rest + [Frame(groupId, origin)], joined, NodeId);
  }

  lemma GroupKeepsShape(g: Graph, selectedIds: set<Id>, groupId: Id, breaksRule: (Graph, set<Id>) -> bool)
    requires CanvasShaped(g) && groupId !in NodeIds(g.nodes) && Groupable(g, selectedIds, breaksRule)
    ensures CanvasShaped(GroupSelection(g, selectedIds, groupId, breaksRule).value)
  {
    var origin := OriginOf(Filter(g.nodes, Within(selectedIds)));
    var out := WrapAt(g, selectedIds, groupId, origin);
    GroupableSteps(g, selectedIds, breaksRule);
    WrapKeepsStructure(g, selectedIds, groupId, origin);
    MembersUnique(g, selectedIds, groupId, origin);
    var members := Filter(g.nodes, Within(selectedIds));
    OrderUnique(Filter(g.nodes, Outside(selectedIds)) + [Frame(groupId, origin)] + Map(members,
      Joiner(groupId, origin)));
    WrapKeepsEnds(g, selectedIds, groupId, origin);
  }

  lemma WrapKeepsEnds(g: Graph, selectedIds: set<Id>, groupId: Id, origin: Position)
    requires NoDanglingEdge(g)
    ensures NoDanglingEdge(WrapAt(g, selectedIds, groupId, origin))
  {
    var out := WrapAt(g, selectedIds, groupId, origin);
    assert out.edges == g.edges;
    hide WrapAt;
    forall e, id | e in g.edges && (id == e.source || id == e.target) ensures id in NodeIds(out.nodes) {
      var n :| n in g.nodes && n.id == id;
      var m := if n.id in selectedIds then Member(n, groupId, origin) else n;
      WrappedNodes(g, selectedIds, groupId, origin, m);
    }
  }

  // --- inserting a step in place of stored edges ---

  function Moved(positions: map<Id, Position>): Node -> Node {
    (n: Node) => if n.id in positions then n.(position := positions[n.id]) else n
  }

  // The graph an insertion proposes, before the checks that may refuse it.
  function InsertionGraph(g: Graph, step: Node, edgeIds: set<Id>, additions: seq<Addition>, ids: seq<Id>,
                          positions: map<Id, Position>): Graph
    requires |ids| == |additions|
  {
    Graph(OrderGroupParentsFirst(Map(g.nodes, Moved(positions)) + [step]),
          Filter(g.edges, NotNamed(edgeIds)) + WithIds(additions, ids))
  }

  lemma MovedUnique(nodes: seq<Node>, positions: map<Id, Position>, step: Node)
    requires UniqueNodeIds(nodes) && step.id !in NodeIds(nodes)
    ensures UniqueNodeIds(Map(nodes, Moved(positions)) + [step])
  {
  }

  // Every addition runs between stored nodes or the new step.
  ghost predicate EndsKnown(g: Graph, step: Node, additions: seq<Addition>) {
    forall a | a in additions :: a.source in NodeIds(g.nodes) + {step.id} && a.target in NodeIds(g.nodes) + {step.id}
  }

  lemma PlanEndsKnown(g: Graph, step: Node, edgeIds: set<Id>, outlet: Option<string>)
    requires NoDanglingEdge(g)
    ensures EndsKnown(g, step, ReplacementPlan(g.edges, edgeIds, step.id, outlet))
  {
    var replaced := Filter(g.edges, Named(edgeIds));
    var sources, targets := FirstPerKey(replaced, SourceKey), FirstPerKey(replaced, TargetKey);
    FirstPerKeyDistinct(replaced, SourceKey);
    FirstPerKeyDistinct(replaced, TargetKey);
    forall a | a in ReplacementPlan(g.edges, edgeIds, step.id, outlet)
      ensures a.source in NodeIds(g.nodes) + {step.id} && a.target in NodeIds(g.nodes) + {step.id}
    {
      MapHas(sources, IncomingTo(step.id), a);
      MapHas(targets, OutgoingFrom(step.id, outlet), a);
    }
  }

  ghost predicate MintedFor(edges: seq<Edge>, ids: seq<Id>) {
    Distinct(ids) && forall id | id in ids :: id !in EdgeIds(edges)
  }

  lemma InsertedUnique(edges: seq<Edge>, edgeIds: set<Id>, additions: seq<Addition>, ids: seq<Id>)
    requires |ids| == |additions| && UniqueEdgeIds(edges) && MintedFor(edges, ids)
    ensures UniqueEdgeIds(Filter(edges, NotNamed(edgeIds)) + WithIds(additions, ids))
  {
    var kept, added := Filter(edges, NotNamed(edgeIds)), WithIds(additions, ids);
    FilterDistinctBy(edges, NotNamed(edgeIds), EdgeId);
    assert DistinctBy(added, EdgeId);
    forall d, e | d in kept && e in added ensures EdgeId(d) != EdgeId(e) {
      assert d.id in EdgeIds(edges);
      var i :| 0 <= i < |added| && added[i] == e;
      assert ids[i] in ids;
    }
    DistinctByConcat(kept, added, EdgeId);
  }

  // A proposal that passes the structure check is well shaped.
  lemma InsertionKeepsShape(g: Graph, step: Node, edgeIds: set<Id>, additions: seq<Addition>, ids: seq<Id>,
                            positions: map<Id, Position>)
    requires |ids| == |additions| && EndsKnown(g, step, additions)
    requires CanvasShaped(g) && step.id !in NodeIds(g.nodes) && MintedFor(g.edges, ids)
    requires GroupStructureOk(InsertionGraph(g, step, edgeIds, additions, ids, positions))
    ensures CanvasShaped(InsertionGraph(g, step, edgeIds, additions, ids, positions))
    ensures NodeIds(InsertionGraph(g, step, edgeIds, additions, ids, positions).nodes) == NodeIds(g.nodes) + {step.id}
  {
    var out := InsertionGraph(g, step, edgeIds, additions, ids, positions);
    MovedUnique(g.nodes, positions, step);
    OrderUnique(Map(g.nodes, Moved(positions)) + [step]);
    InsertedNodes(g.nodes, step, positions);
    InsertedUnique(g.edges, edgeIds, additions, ids);
    hide OrderGroupParentsFirst, GroupStructureOk;
    forall e | e in out.edges ensures e.source in NodeIds(out.nodes) && e.target in NodeIds(out.nodes) {
      if e !in g.edges {
        var i :| 0 <= i < |ids| && WithIds(additions, ids)[i] == e;
        assert additions[i] in additions;
      }
    }
  }

  lemma InsertedNodes(nodes: seq<Node>, step: Node, positions: map<Id, Position>)
    ensures NodeIds(OrderGroupParentsFirst(Map(nodes, Moved(positions)) + [step])) == NodeIds(nodes) + {step.id}
  {
    var moved := Map(nodes, Moved(positions));
    OrderPermutes(moved + [step]);
    hide OrderGroupParentsFirst;
    var out := OrderGroupParentsFirst(moved + [step]);
    assert step in moved + [step] && step in out;
    forall n | n in nodes ensures n.id in NodeIds(out) {
      MapHas(nodes, Moved(positions), Moved(positions)(n));
      assert Moved(positions)(n) in moved + [step];
    }
    forall m | m in out ensures m.id in NodeIds(nodes) + {step.id} {
      if m in moved { MapHas(nodes, Moved(positions), m); }
    }
  }

  // --- Groups stay whole ---

  // Counting steps does not depend on the order of the nodes.
  lemma OrderedSteps(nodes: seq<Node>, groupId: Id)
    requires UniqueNodeIds(nodes)
    ensures StepCount(OrderGroupParentsFirst(nodes), groupId) == StepCount(nodes, groupId)
  {
    var out := OrderGroupParentsFirst(nodes);
    OrderUnique(nodes);
    OrderPermutes(nodes);
    CountIsSet(nodes, groupId);
    CountIsSet(out, groupId);
    assert View(out) == View(nodes);
  }

  lemma OrderedWhole(nodes: seq<Node>)
    requires UniqueNodeIds(nodes)
    ensures NoUndersizedGroup(OrderGroupParentsFirst(nodes)) <==> NoUndersizedGroup(nodes)
  {
    OrderPermutes(nodes);
    hide OrderGroupParentsFirst, StepCount;
    var out := OrderGroupParentsFirst(nodes);
    forall groupId ensures StepCount(out, groupId) == StepCount(nodes, groupId) { OrderedSteps(nodes, groupId); }
  }

  // Freeing some frames leaves every other frame its steps.
  lemma UngroupedWhole(nodes: seq<Node>, groupIds: set<Id>, placer: Placer)
    requires UniqueNodeIds(nodes) && NoUndersizedGroup(nodes)
    ensures NoUndersizedGroup(UngroupFrames(nodes, groupIds, placer))
  {
    var freed := Dissolve(nodes, groupIds, placer(nodes));
    DissolveUnique(nodes, groupIds, placer(nodes));
    FramesAreGroups(nodes, groupIds);
    forall m | m in freed && IsGroup(m) ensures StepCount(freed, m.id) >= 2 {
      var n := DissolvedFrom(nodes, groupIds, placer(nodes), m);
      StepCountKept(nodes, FrameIds(nodes, groupIds), placer(nodes), m.id);
    }
    OrderedWhole(freed);
  }

  // Dropping nodes that are no step of a frame left behind changes no count.
  lemma DroppedSteps(nodes: seq<Node>, ids: set<Id>, groupId: Id)
    requires forall n | n in nodes && CountsFor(groupId)(n) :: n.id !in ids
    ensures StepCount(Filter(nodes, Outside(ids)), groupId) == StepCount(nodes, groupId)
  {
    FilterTwice(nodes, Outside(ids), CountsFor(groupId), CountsFor(groupId));
  }

  lemma GroupDeletedWhole(g: Graph, groupId: Id)
    requires UniqueNodeIds(g.nodes) && NoUndersizedGroup(g.nodes)
    ensures NoUndersizedGroup(RemoveGroupWithMembers(g, groupId).nodes)
  {
    var frame := Lookup(g.nodes, groupId);
    if frame.Some? && IsGroup(frame.value) {
      var gone := {groupId} + set n | n in g.nodes && n.parentId == Some(groupId) :: n.id;
      var out := RemoveGroupWithMembers(g, groupId);
      forall f | f in out.nodes && IsGroup(f) ensures StepCount(out.nodes, f.id) >= 2 {
        forall n | n in g.nodes && CountsFor(f.id)(n) ensures n.id !in gone {
          if n.id == groupId { UniqueNode(g.nodes, n, frame.value); }
          if m :| m in g.nodes && m.parentId == Some(groupId) && m.id == n.id { UniqueNode(g.nodes, m, n); }
        }
        DroppedSteps(g.nodes, gone, f.id);
      }
    }
  }

  lemma StepsConcat(a: seq<Node>, b: seq<Node>, groupId: Id)
    ensures StepCount(a + b, groupId) == StepCount(a, groupId) + StepCount(b, groupId)
  {
    FilterConcat(a, b, CountsFor(groupId));
  }

  // The wrapped selection is a Group of all its steps, and no other Group loses
  // one: the selection had no member among it.
  lemma WrappedWhole(g: Graph, selectedIds: set<Id>, groupId: Id, breaksRule: (Graph, set<Id>) -> bool)
    requires UniqueNodeIds(g.nodes) && NoUndersizedGroup(g.nodes) && groupId !in NodeIds(g.nodes)
    requires Groupable(g, selectedIds, breaksRule)
    ensures NoUndersizedGroup(GroupSelection(g, selectedIds, groupId, breaksRule).value.nodes)
  {
    var members, rest := Filter(g.nodes, Within(selectedIds)), Filter(g.nodes, Outside(selectedIds));
    var origin := OriginOf(members);
    var joined := Map(members, Joiner(groupId, origin));
    var nodes := rest + [Frame(groupId, origin)] + joined;
    MembersUnique(g, selectedIds, groupId, origin);
    forall f | f in nodes && IsGroup(f) ensures StepCount(nodes, f.id) >= 2 {
      StepsConcat(rest + [Frame(groupId, origin)], joined, f.id);
      StepsConcat(rest, [Frame(groupId, origin)], f.id);
      if f.id == groupId {
        JoinedCount(members, groupId, origin);
      } else {
        WrappedFrame(g, selectedIds, groupId, origin, f);
        DroppedSteps(g.nodes, selectedIds, f.id);
      }
    }
    OrderedWhole(nodes);
  }

  lemma WrappedFrame(g: Graph, selectedIds: set<Id>, groupId: Id, origin: Position, f: Node)
    requires f.id != groupId && IsGroup(f)
    requires forall n | n in Filter(g.nodes, Within(selectedIds)) :: n.parentId.None? && n.kind == Action
    requires f in Filter(g.nodes, Outside(selectedIds)) + [Frame(groupId, origin)]
               + Map(Filter(g.nodes, Within(selectedIds)), Joiner(groupId, origin))
    ensures f in g.nodes
    ensures forall n | n in g.nodes && CountsFor(f.id)(n) :: n.id !in selectedIds
  {
    var members := Filter(g.nodes, Within(selectedIds));
    if f in Map(members, Joiner(groupId, origin)) {
      MapHas(members, Joiner(groupId, origin), f);
      assert false;
    }
    forall n | n in g.nodes && CountsFor(f.id)(n) ensures n.id !in selectedIds {
      assert n.id in selectedIds ==> n in members;
    }
  }

  lemma JoinedCount(members: seq<Node>, groupId: Id, origin: Position)
    requires forall n | n in members :: IsGroupableStep(n)
    ensures StepCount(Map(members, Joiner(groupId, origin)), groupId) == |members|
  {
    var joined := Map(members, Joiner(groupId, origin));
    forall m | m in joined ensures CountsFor(groupId)(m) {
      MapHas(members, Joiner(groupId, origin), m);
    }
    FilterAll(joined, CountsFor(groupId));
  }

  lemma MovedSteps(nodes: seq<Node>, positions: map<Id, Position>, groupId: Id)
    ensures StepCount(Map(nodes, Moved(positions)), groupId) == StepCount(nodes, groupId)
  {
    FilterCount(nodes, Moved(positions), CountsFor(groupId));
  }

  lemma InsertedWhole(nodes: seq<Node>, step: Node, positions: map<Id, Position>)
    requires UniqueNodeIds(nodes) && NoUndersizedGroup(nodes) && step.id !in NodeIds(nodes) && !IsGroup(step)
    ensures NoUndersizedGroup(OrderGroupParentsFirst(Map(nodes, Moved(positions)) + [step]))
  {
    var moved := Map(nodes, Moved(positions));
    MovedUnique(nodes, positions, step);
    forall f | f in moved + [step] && IsGroup(f) ensures StepCount(moved + [step], f.id) >= 2 {
      MapHas(nodes, Moved(positions), f);
      StepsConcat(moved, [step], f.id);
      MovedSteps(nodes, positions, f.id);
    }
    OrderedWhole(moved + [step]);
  }

  // --- no cycle ---

  lemma FewerArcs(edges: seq<Edge>, keep: Edge -> bool)
    requires Acyclic(ArcsOf(edges))
    ensures Acyclic(ArcsOf(Filter(edges, keep)))
  {
    AcyclicMono(ArcsOf(Filter(edges, keep)), ArcsOf(edges));
  }

  lemma AddedArcs(additions: seq<Addition>, ids: seq<Id>, kept: seq<Edge>)
    requires |ids| == |additions|
    ensures ArcsOf(kept + WithIds(additions, ids)) == ArcsOf(kept) + AdditionArcs(additions)
  {
    WithIdsArcs(additions, ids);
    forall e | e in kept + WithIds(additions, ids) ensures e in kept || e in WithIds(additions, ids) {}
  }

  // What the loop rule lets through leaves no cycle.
  lemma InsertedAcyclic(g: Graph, step: Node, edgeIds: set<Id>, additions: seq<Addition>, ids: seq<Id>)
    requires |ids| == |additions| && EndsKnown(g, step, additions) && NoDanglingEdge(g)
    requires "" !in NodeIds(g.nodes) && step.id != "" && Acyclic(ArcsOf(g.edges))
    ensures ClosesLoop(Filter(g.edges, NotNamed(edgeIds)), additions)
       <==> !Acyclic(ArcsOf(Filter(g.edges, NotNamed(edgeIds)) + WithIds(additions, ids)))
  {
    hide Acyclic, ClosesLoop;
    FewerArcs(g.edges, NotNamed(edgeIds));
    AddedArcs(additions, ids, Filter(g.edges, NotNamed(edgeIds)));
    ClosesLoopExact(Filter(g.edges, NotNamed(edgeIds)), additions);
  }

  // --- every operation ---

  lemma FewerEdgesSound(g: Graph, keep: Edge -> bool)
    requires CanvasSound(g)
    ensures CanvasSound(g.(edges := Filter(g.edges, keep)))
  {
    FewerEdgesShape(g, keep);
    FewerArcs(g.edges, keep);
  }

  lemma UngroupKeepsSound(g: Graph, groupIds: set<Id>, placer: Placer)
    requires CanvasSound(g)
    ensures CanvasSound(g.(nodes := UngroupFrames(g.nodes, groupIds, placer)))
  {
    hide CanvasShaped, NoUndersizedGroup, Acyclic;
    UngroupKeepsShape(g, groupIds, placer);
    UngroupedWhole(g.nodes, groupIds, placer) by { ShapedUnique(g); }
    UngroupedIds(g.nodes, groupIds, placer);
  }

  lemma ShapedUnique(g: Graph)
    requires CanvasShaped(g)
    ensures UniqueNodeIds(g.nodes) && NoDanglingEdge(g)
  {
  }

  lemma UngroupedIds(nodes: seq<Node>, groupIds: set<Id>, placer: Placer)
    ensures NodeIds(UngroupFrames(nodes, groupIds, placer)) <= NodeIds(nodes)
  {
    OrderPermutes(Dissolve(nodes, groupIds, placer(nodes)));
    hide OrderGroupParentsFirst, Dissolve;
    forall m | m in Dissolve(nodes, groupIds, placer(nodes)) ensures m.id in NodeIds(nodes) {
      var n := DissolvedFrom(nodes, groupIds, placer(nodes), m);
    }
  }

  lemma RemoveKeepsSound(g: Graph, batch: set<Id>, placer: Placer)
    requires CanvasSound(g)
    ensures CanvasSound(RemoveNodes(g, batch, placer))
  {
    hide CanvasShaped, NoUndersizedGroup, Acyclic, UngroupFrames;
    RemoveKeepsShape(g, batch, placer);
    ShapedUnique(g);
    RemovalLeavesNoneUndersized(g, batch, placer);
    var removed := RemovedIds(g.nodes, batch);
    var remaining := Filter(g.nodes, Outside(removed));
    FewerArcs(g.edges, NotTouchingAny(removed));
    UngroupedIds(remaining, FrameIds(g.nodes, batch) + UndersizedGroupIds(remaining), placer);
  }

  lemma DeleteGroupKeepsSound(g: Graph, groupId: Id)
    requires CanvasSound(g)
    ensures CanvasSound(RemoveGroupWithMembers(g, groupId))
  {
    hide CanvasShaped, NoUndersizedGroup, Acyclic;
    DeleteGroupKeepsShape(g, groupId);
    ShapedUnique(g);
    GroupDeletedWhole(g, groupId);
    var removed := {groupId} + set n | n in g.nodes && n.parentId == Some(groupId) :: n.id;
    FewerArcs(g.edges, NotTouchingAny(removed));
  }

  lemma GroupKeepsSound(g: Graph, selectedIds: set<Id>, groupId: Id, breaksRule: (Graph, set<Id>) -> bool)
    requires CanvasSound(g) && groupId != "" && groupId !in NodeIds(g.nodes) && Groupable(g, selectedIds, breaksRule)
    ensures CanvasSound(GroupSelection(g, selectedIds, groupId, breaksRule).value)
  {
    hide CanvasShaped, NoUndersizedGroup, Acyclic, OrderGroupParentsFirst;
    GroupKeepsShape(g, selectedIds, groupId, breaksRule);
    ShapedUnique(g);
    WrappedWhole(g, selectedIds, groupId, breaksRule);
    WrappedIds(g, selectedIds, groupId, OriginOf(Filter(g.nodes, Within(selectedIds))));
  }

  lemma WrappedIds(g: Graph, selectedIds: set<Id>, groupId: Id, origin: Position)
    ensures NodeIds(WrapAt(g, selectedIds, groupId, origin).nodes) <= NodeIds(g.nodes) + {groupId}
  {
    hide WrapAt;
    forall m | m in WrapAt(g, selectedIds, groupId, origin).nodes ensures m.id in NodeIds(g.nodes) + {groupId} {
      WrappedNodes(g, selectedIds, groupId, origin, m);
    }
  }

  lemma InsertionKeepsSound(g: Graph, step: Node, edgeIds: set<Id>, additions: seq<Addition>, ids: seq<Id>,
                            positions: map<Id, Position>)
    requires |ids| == |additions| && EndsKnown(g, step, additions) && !IsGroup(step) && step.id != ""
    requires CanvasSound(g) && step.id !in NodeIds(g.nodes) && MintedFor(g.edges, ids)
    requires GroupStructureOk(InsertionGraph(g, step, edgeIds, additions, ids, positions))
    requires !ClosesLoop(Filter(g.edges, NotNamed(edgeIds)), additions)
    ensures CanvasSound(InsertionGraph(g, step, edgeIds, additions, ids, positions))
  {
    hide CanvasShaped, NoUndersizedGroup, Acyclic, ClosesLoop, OrderGroupParentsFirst, GroupStructureOk;
    InsertionKeepsShape(g, step, edgeIds, additions, ids, positions);
    ShapedUnique(g);
    InsertedAcyclic(g, step, edgeIds, additions, ids);
    InsertedWhole(g.nodes, step, positions);
  }

  // --- connecting steps ---

  // Every addition runs between steps the graph holds.
  ghost predicate JoinsSteps(g: Graph, additions: seq<Addition>) {
    forall a | a in additions ::
      && a.source in NodeIds(g.nodes) && a.target in NodeIds(g.nodes)
      && forall n | n in g.nodes && (n.id == a.source || n.id == a.target) :: !IsGroup(n)
  }

  lemma ConnectionKeepsShape(g: Graph, additions: seq<Addition>, ids: seq<Id>)
    requires |ids| == |additions| && CanvasShaped(g) && JoinsSteps(g, additions) && MintedFor(g.edges, ids)
    ensures CanvasShaped(g.(edges := g.edges + WithIds(additions, ids)))
  {
    FilterAll(g.edges, NotNamed({}));
    InsertedUnique(g.edges, {}, additions, ids);
    forall e | e in WithIds(additions, ids) ensures exists a :: a in additions && ArcOf(e) == (a.source, a.target) {
      var i :| 0 <= i < |ids| && WithIds(additions, ids)[i] == e;
      assert additions[i] in additions;
    }
    hide WithIds, UniqueEdgeIds, UniqueNodeIds, MembersOk;
  }

  // A connection the loop rule lets through, whatever the other rules say.
  lemma ConnectionKeepsSound(g: Graph, additions: seq<Addition>, ids: seq<Id>)
    requires |ids| == |additions| && CanvasSound(g) && JoinsSteps(g, additions) && MintedFor(g.edges, ids)
    requires !ClosesLoop(g.edges, additions)
    ensures CanvasSound(g.(edges := g.edges + WithIds(additions, ids)))
  {
    hide CanvasShaped, NoUndersizedGroup, Acyclic, ClosesLoop, WithIds;
    ConnectionKeepsShape(g, additions, ids);
    ShapedUnique(g);
    AddedArcs(additions, ids, g.edges);
    ClosesLoopExact(g.edges, additions);
  }
}
