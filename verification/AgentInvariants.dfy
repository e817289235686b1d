// What every proposal of every tool keeps, whatever the gate and the host
// decide, and what `wouldCycle` and `insert_node_on_edge` do to paths.
module AgentInvariants {
  import opened Reachability
  import opened Sequences
  import opened WorkflowGraph
  import opened GroupRules
  import opened Skeletons
  import opened AgentDraft

  ghost predicate HandleFits(n: Node, handle: Option<string>) {
    if n.kind == Lifecycle then handle in {Some(STARTED), Some(CANCELED)}
    else if ActionTypeOf(n) == Some(CONDITION) then handle in {Some("true"), Some("false")}
    else if IsEventSplit(n) then OutletEvent(handle).Some?
    else handle.None?
  }

  ghost predicate HandlesFit(g: Graph) {
    forall e, n | e in g.edges && n in g.nodes && n.id == e.source :: HandleFits(n, e.sourceHandle)
  }

  function PortsOf(e: Edge): (Id, Id, Option<string>) { (e.source, e.target, e.sourceHandle) }

  ghost predicate WellFormed(g: Graph) {
    && UniqueNodeIds(g.nodes) && UniqueEdgeIds(g.edges)
    && "" !in NodeIds(g.nodes)
    && NoDanglingEdge(g)
    && DistinctBy(g.edges, PortsOf)
    && Acyclic(ArcsOf(g.edges))
    && HandlesFit(g)
    && GroupStructureOk(g)
  }

  // The ids a call mints are not in use and not empty.
  ghost predicate FreshFor(g: Graph, call: ToolCall) {
    && (call.AddNode? || call.InsertNodeOnEdge? ==> call.newNodeId != "" && call.newNodeId !in NodeIds(g.nodes))
    && (call.ConnectNodes? || call.InsertNodeOnEdge? ==> call.newEdgeId !in EdgeIds(g.edges))
  }

  // --- cycle detection at connect time ---

  lemma NoEmptyTarget(g: Graph)
    requires "" !in NodeIds(g.nodes) && NoDanglingEdge(g)
    ensures SolidArcs(g.edges) == ArcsOf(g.edges)
  {
  }

  // On an acyclic graph the upstream test answers exactly whether the new edge
  // would close a loop.
  lemma WouldCycleExact(edges: seq<Edge>, source: Id, target: Id)
    requires forall e | e in edges :: e.target != ""
    requires Acyclic(ArcsOf(edges)) && source != target
    ensures WouldCycle(edges, source, target) <==> !Acyclic(ArcsOf(edges) + {(source, target)})
  {
    SolidArcsAll(edges);
    AcyclicAddArc(ArcsOf(edges), source, target);
  }

  // The test is exact for every two ends if and only if no edge enters a node
  // whose id is empty.
  lemma WouldCycleExactIff(edges: seq<Edge>)
    requires Acyclic(ArcsOf(edges))
    ensures (forall s: Id, t: Id | s != t :: WouldCycle(edges, s, t) <==> !Acyclic(ArcsOf(edges) + {(s, t)}))
       <==> forall e | e in edges :: e.target != ""
  {
    hide Reaches, Acyclic, ReachesOrIs;
    if forall e | e in edges :: e.target != "" {
      forall s: Id, t: Id | s != t ensures WouldCycle(edges, s, t) <==> !Acyclic(ArcsOf(edges) + {(s, t)}) {
        WouldCycleExact(edges, s, t);
      }
    } else {
      var e :| e in edges && e.target == "";
      EmptyTargetMissed(edges, e);
    }
  }

  lemma EmptyTargetMissed(edges: seq<Edge>, e: Edge)
    requires Acyclic(ArcsOf(edges)) && e in edges && e.target == ""
    ensures e.source != "" && !WouldCycle(edges, "", e.source) && !Acyclic(ArcsOf(edges) + {("", e.source)})
  {
    assert ArcOf(e) in ArcsOf(edges);
    ReachesArc(ArcsOf(edges), e.source, "");
    AcyclicAddArc(ArcsOf(edges), "", e.source);
    if Reaches(SolidArcs(edges), e.source, "") { ReachesEnds(SolidArcs(edges), e.source, ""); }
  }

  // Even two nonempty ends can meet it: a path through the empty id is missed.
  lemma WouldCycleMissesEmptyId()
    ensures var edges := [Edge("e", "a", "", None, None), Edge("f", "", "b", None, None)];
            Acyclic(ArcsOf(edges)) && !WouldCycle(edges, "b", "a") && !Acyclic(ArcsOf(edges) + {("b", "a")})
  {
    var e, f := Edge("e", "a", "", None, None), Edge("f", "", "b", None, None);
    var edges := [e, f];
    var all := ArcsOf(edges);
    assert all == {("a", ""), ("", "b")} by {
      assert ArcOf(e) in all && ArcOf(f) in all;
    }
    OneArcAcyclic("", "b");
    OneArcReach("", "b", "", "a");
    AcyclicAddArc({("", "b")}, "a", "");
    assert {("", "b")} + {("a", "")} == all;
    var solid := SolidArcs(edges);
    assert solid == {("", "b")} by { assert ArcOf(f) in solid; }
    OneArcReach("", "b", "a", "b");
    var closed := all + {("b", "a")};
    ReachesArc(closed, "a", "");
    ReachesArc(closed, "", "b");
    ReachesArc(closed, "b", "a");
    ReachesTrans(closed, "a", "", "b");
    ReachesTrans(closed, "a", "b", "a");
  }

  lemma OneArcReach(x: Id, y: Id, a: Id, b: Id)
    requires x != y
    ensures Reaches({(x, y)}, a, b) <==> a == x && b == y
  {
    var r := {(x, y)};
    if Reaches(r, a, b) { ReachesEnds(r, a, b); }
    ReachesArc(r, x, y);
  }

  lemma OneArcAcyclic(x: Id, y: Id)
    requires x != y
    ensures Acyclic({(x, y)})
  {
    forall a: Id ensures !Reaches({(x, y)}, a, a) { OneArcReach(x, y, a, a); }
  }

  // --- one edge more, one edge less ---

  lemma AppendArc(edges: seq<Edge>, e: Edge)
    ensures ArcsOf(edges + [e]) == ArcsOf(edges) + {ArcOf(e)}
  {
    assert e in edges + [e];
    forall d | d in edges ensures d in edges + [e] {}
  }

  // A new edge between two steps, on a free port and closing no loop.
  lemma AppendEdgeKeeps(g: Graph, e: Edge, source: Node, target: Node)
    requires WellFormed(g) && source in g.nodes && target in g.nodes && source.id == e.source && target.id == e.target
    requires e.source != e.target && !IsGroup(source) && !IsGroup(target) && HandleFits(source, e.sourceHandle)
    requires e.id !in EdgeIds(g.edges) && (forall d | d in g.edges :: PortsOf(d) != PortsOf(e))
    requires !WouldCycle(g.edges, e.source, e.target)
    ensures WellFormed(g.(edges := g.edges + [e]))
  {
    hide HandleFits, WouldCycle;
    var out := g.edges + [e];
    forall d | d in g.edges ensures EdgeId(d) != EdgeId(e) { assert d.id in EdgeIds(g.edges); }
    DistinctByConcat(g.edges, [e], EdgeId);
    DistinctByConcat(g.edges, [e], PortsOf);
    assert forall d | d in out :: d in g.edges || d == e;
    NoEmptyTarget(g);
    WouldCycleExact(g.edges, e.source, e.target);
    AppendArc(g.edges, e);
    forall d, n | d in out && n in g.nodes && n.id == d.source ensures HandleFits(n, d.sourceHandle) {
      if d == e { UniqueNode(g.nodes, n, source); }
    }
    forall d, n | d in out && n in g.nodes && (n.id == d.source || n.id == d.target) ensures !IsGroup(n) {
      if d == e { UniqueNode(g.nodes, n, if n.id == d.source then source else target); }
    }
  }

  lemma ConnectKeeps(host: Host, g: Graph, call: ToolCall)
    requires WellFormed(g) && call.ConnectNodes? && FreshFor(g, call)
    requires ProposeConnect(host, g, call).Ok?
    ensures WellFormed(ProposeConnect(host, g, call).value)
    ensures ProposeConnect(host, g, call).value.nodes == g.nodes
  {
    hide WellFormed;
    var e := Edge(call.newEdgeId, call.source, call.target, call.sourceHandle, None);
    AppendEdgeKeeps(g, e, Lookup(g.nodes, call.source).value, Lookup(g.nodes, call.target).value);
  }

  // Dropping edges, and nodes that are no frame and no remaining edge's end.
  lemma FewerKeeps(g: Graph, keepNode: Node -> bool, keepEdge: Edge -> bool)
    requires WellFormed(g)
    requires forall n | n in g.nodes && IsGroup(n) :: keepNode(n)
    requires forall e, n | e in g.edges && keepEdge(e) && n in g.nodes
             && (n.id == e.source || n.id == e.target) :: keepNode(n)
    ensures WellFormed(Graph(Filter(g.nodes, keepNode), Filter(g.edges, keepEdge)))
  {
    var h := Graph(Filter(g.nodes, keepNode), Filter(g.edges, keepEdge));
    FilterDistinctBy(g.nodes, keepNode, NodeId);
    FilterDistinctBy(g.edges, keepEdge, EdgeId);
    FilterDistinctBy(g.edges, keepEdge, PortsOf);
    forall id | id in NodeIds(h.nodes) ensures id in NodeIds(g.nodes) {
      var n :| n in h.nodes && n.id == id;
      assert n in g.nodes;
    }
    forall e | e in h.edges ensures e.source in NodeIds(h.nodes) && e.target in NodeIds(h.nodes) {
      var s :| s in g.nodes && s.id == e.source;
      var t :| t in g.nodes && t.id == e.target;
      assert s in h.nodes && t in h.nodes;
    }
    AcyclicMono(ArcsOf(h.edges), ArcsOf(g.edges));
    forall n | n in h.nodes ensures MemberOk(h.nodes, n) {
      assert MemberOk(g.nodes, n);
      if n.parentId.Some? {
        var f :| f in g.nodes && f.id == n.parentId.value && IsGroup(f);
        assert f in h.nodes;
      }
    }
  }

  lemma DisconnectKeeps(g: Graph, call: ToolCall)
    requires WellFormed(g) && call.DisconnectNodes? && ProposeDisconnect(g, call).Ok?
    ensures WellFormed(ProposeDisconnect(g, call).value)
  {
    FewerKeeps(g, (n: Node) => true, NotEdge(call.edgeId));
    FilterAll(g.nodes, (n: Node) => true);
  }

  lemma DeleteKeeps(g: Graph, call: ToolCall)
    requires WellFormed(g) && call.DeleteNode? && ProposeDelete(g, call).Ok?
    ensures WellFormed(ProposeDelete(g, call).value)
  {
    var gone := Lookup(g.nodes, call.nodeId).value;
    forall n | n in g.nodes && IsGroup(n) ensures n.id != call.nodeId {
      if n.id == call.nodeId { UniqueNode(g.nodes, n, gone); }
    }
    FewerKeeps(g, NotNode(call.nodeId), NotTouching(call.nodeId));
  }

  // --- node edits ---

  lemma SkeletonFits(m: Node, n: Node, handle: Option<string>)
    requires Skeleton(m) == Skeleton(n)
    ensures m.id == n.id && IsGroup(m) == IsGroup(n) && HandleFits(m, handle) == HandleFits(n, handle)
  {
  }

  // Labels, flags, positions and other config keys play no part.
  lemma SkeletonKeeps(g: Graph, nodes: seq<Node>)
    requires WellFormed(g) && SameSkeletons(g.nodes, nodes)
    ensures WellFormed(g.(nodes := nodes))
  {
    hide HandleFits, Skeleton, SameSkeletons, MemberOk, IsGroup;
    SkeletonIds(g.nodes, nodes);
    SkeletonMembers(g.nodes, nodes);
    forall e, n | e in g.edges && n in nodes && n.id == e.source ensures HandleFits(n, e.sourceHandle) {
      var m := Twin(g.nodes, nodes, n);
      SkeletonFits(m, n, e.sourceHandle);
    }
    forall e, n | e in g.edges && n in nodes && (n.id == e.source || n.id == e.target) ensures !IsGroup(n) {
      var m := Twin(g.nodes, nodes, n);
      SkeletonFits(m, n, e.sourceHandle);
    }
  }

  lemma UpdateSkeletons(host: Host, g: Graph, call: ToolCall)
    requires UniqueNodeIds(g.nodes) && call.UpdateNode? && ProposeUpdate(host, g, call).Ok?
    ensures SameSkeletons(g.nodes, ProposeUpdate(host, g, call).value.nodes)
  {
    var node := Lookup(g.nodes, call.nodeId).value;
    RecordHolds(call.patch, "actionType");
    var out := ProposeUpdate(host, g, call).value.nodes;
    forall i | 0 <= i < |out| ensures Skeleton(g.nodes[i]) == Skeleton(out[i]) {
      if g.nodes[i].id == call.nodeId { UniqueNode(g.nodes, g.nodes[i], node); }
    }
  }

  lemma AppendNodeKeeps(g: Graph, n: Node)
    requires WellFormed(g) && n.id != "" && n.id !in NodeIds(g.nodes) && n.kind == Action
    requires n.parentId.Some? ==> exists f :: f in g.nodes && f.id == n.parentId.value && IsGroup(f)
    ensures WellFormed(g.(nodes := g.nodes + [n]))
  {
  }

  // --- inserting on an edge ---

  lemma {:induction false} SpliceAt(edges: seq<Edge>, edge: Edge, pair: seq<Edge>) returns (i: nat)
    requires UniqueEdgeIds(edges) && edge in edges
    ensures i < |edges| && edges[i] == edge
    ensures Splice(edges, edge.id, pair) == edges[..i] + pair + edges[i + 1..]
  {
    DistinctByConcat([edges[0]], edges[1..], EdgeId);
    assert edges == [edges[0]] + edges[1..];
    if edges[0].id == edge.id {
      UniqueEdge(edges, edges[0], edge);
      i := 0;
      SpliceAbsent(edges[1..], edge.id, pair);
    } else {
      var j := SpliceAt(edges[1..], edge, pair);
      i := j + 1;
      assert edges[..i] == [edges[0]] + edges[1..][..j];
      assert edges[i + 1..] == edges[1..][j + 1..];
    }
  }

  lemma {:induction false} SpliceAbsent(edges: seq<Edge>, id: Id, pair: seq<Edge>)
    requires forall e | e in edges :: e.id != id
    ensures Splice(edges, id, pair) == edges
  {
    if edges != [] {
      assert edges[0] in edges;
      SpliceAbsent(edges[1..], id, pair);
    }
  }

  lemma ReplaceDistinct<K>(front: seq<Edge>, edge: Edge, back: seq<Edge>, a: Edge, b: Edge, key: Edge -> K)
    requires DistinctBy(front + [edge] + back, key)
    requires key(a) != key(b)
    requires forall e | e in front || e in back :: key(e) != key(a) && key(e) != key(b)
    ensures DistinctBy(front + [a, b] + back, key)
  {
    DistinctByConcat(front + [edge], back, key);
    DistinctByConcat(front, [edge], key);
    DistinctByConcat(front, [a, b], key);
    DistinctByConcat(front + [a, b], back, key);
    forall x, y | x in front + [a, b] && y in back ensures key(x) != key(y) {
      if x in front { assert x in front + [edge]; }
    }
  }

  // The edges after the insertion: every other edge untouched and in place, and
  // the one named edge split at the new step, its outlet and its id on the
  // first half.
  ghost predicate SplitsEdge(before: seq<Edge>, after: seq<Edge>, edge: Edge, hub: Id, outgoing: Edge) {
    exists i :: 0 <= i < |before| && before[i] == edge
             && after == before[..i] + [edge.(target := hub), outgoing] + before[i + 1..]
  }

  lemma InsertSplits(g: Graph, edge: Edge, call: ToolCall)
    requires call.InsertNodeOnEdge? && UniqueEdgeIds(g.edges) && edge in g.edges
    ensures SplitsEdge(g.edges, Inserted(g, edge, call).edges, edge, call.newNodeId,
                       Edge(call.newEdgeId, call.newNodeId, edge.target, call.outgoingHandle, None))
  {
    var pair := [edge.(target := call.newNodeId),
      Edge(call.newEdgeId, call.newNodeId, edge.target, call.outgoingHandle, None)];
    var i := SpliceAt(g.edges, edge, pair);
  }

  // The arcs outside the split edge, and the two halves as a star.
  lemma InsertArcs(g: Graph, edge: Edge, call: ToolCall) returns (kept: Arcs)
    requires NoDanglingEdge(g) && UniqueEdgeIds(g.edges)
    requires call.InsertNodeOnEdge? && FreshFor(g, call) && edge in g.edges
    ensures Avoids(kept, call.newNodeId) && edge.source != call.newNodeId && edge.target != call.newNodeId
    ensures ArcsOf(Inserted(g, edge, call).edges) == kept + Star({edge.source}, call.newNodeId, {edge.target})
    ensures ArcsOf(g.edges) == kept + Product({edge.source}, {edge.target})
  {
    var hub := call.newNodeId;
    var a, b := edge.(target := hub), Edge(call.newEdgeId, hub, edge.target, call.outgoingHandle, None);
    var i := SpliceAt(g.edges, edge, [a, b]);
    kept := ArcsOf(g.edges[..i] + g.edges[i + 1..]);
    assert Avoids(kept, hub) by {
      forall x: Id, y: Id | (x, y) in kept ensures x != hub && y != hub {
        var e :| e in g.edges[..i] + g.edges[i + 1..] && ArcOf(e) == (x, y);
        assert e in g.edges;
      }
    }
    assert g.edges == g.edges[..i] + [edge] + g.edges[i + 1..];
    SplitArcs(g.edges[..i], [edge], g.edges[i + 1..]);
    SplitArcs(g.edges[..i], [a, b], g.edges[i + 1..]);
    PairArcs(edge, a, b, hub);
  }

  lemma PairArcs(edge: Edge, a: Edge, b: Edge, hub: Id)
    requires ArcOf(a) == (edge.source, hub) && ArcOf(b) == (hub, edge.target)
    ensures ArcsOf([edge]) == Product({edge.source}, {edge.target})
    ensures ArcsOf([a, b]) == Star({edge.source}, hub, {edge.target})
  {
    assert ArcsOf([edge]) == {ArcOf(edge)} by { assert edge in [edge]; }
    assert ArcsOf([a, b]) == {ArcOf(a), ArcOf(b)} by { assert a in [a, b] && b in [a, b]; }
    assert Product({edge.source}, {edge.target}) == {(edge.source, edge.target)};
    assert Star({edge.source}, hub, {edge.target}) == {(edge.source, hub), (hub, edge.target)};
  }

  lemma SplitArcs(front: seq<Edge>, middle: seq<Edge>, back: seq<Edge>)
    ensures ArcsOf(front + middle + back) == ArcsOf(front + back) + ArcsOf(middle)
  {
  }

  // Exact subdivision: paths between existing steps are what they were, and the
  // new step sits on the path the split edge was.
  lemma InsertSubdivides(g: Graph, edge: Edge, call: ToolCall, a: Id, b: Id)
    requires WellFormed(g) && call.InsertNodeOnEdge? && FreshFor(g, call) && edge in g.edges
    requires a != call.newNodeId && b != call.newNodeId
    ensures var after := ArcsOf(Inserted(g, edge, call).edges);
            && (Reaches(after, a, b) <==> Reaches(ArcsOf(g.edges), a, b))
            && (Reaches(after, a, call.newNodeId) <==> ReachesOrIs(ArcsOf(g.edges), a, edge.source))
            && (Reaches(after, call.newNodeId, b) <==> ReachesOrIs(ArcsOf(g.edges), edge.target, b))
  {
    var hub, all := call.newNodeId, ArcsOf(g.edges);
    var kept := InsertArcs(g, edge, call);
    var after := ArcsOf(Inserted(g, edge, call).edges);
    StarIsProduct(kept, {edge.source}, hub, {edge.target}, a, b);
    StarIsProduct(kept, {edge.source}, hub, {edge.target}, a, edge.source);
    StarIsProduct(kept, {edge.source}, hub, {edge.target}, edge.target, b);
    ReachesArc(after, edge.source, hub);
    ReachesArc(after, hub, edge.target);
    if ReachesOrIs(all, a, edge.source) && a != edge.source { ReachesTrans(after, a, edge.source, hub); }
    if ReachesOrIs(all, edge.target, b) && b != edge.target { ReachesTrans(after, hub, edge.target, b); }
    if Reaches(after, a, hub) {
      var n: nat :| ReachesIn(after, a, hub, n);
      EntersBySource(after, edge.source, hub, a, n);
    }
    if Reaches(after, hub, b) {
      var n: nat :| ReachesIn(after, hub, b, n);
      var m: Id :| (hub, m) in after && (m == b || ReachesIn(after, m, b, n - 1));
    }
  }

  lemma {:induction false} EntersBySource(r: Arcs, source: Id, hub: Id, a: Id, n: nat)
    requires forall x: Id :: (x, hub) in r ==> x == source
    requires ReachesIn(r, a, hub, n)
    ensures ReachesOrIs(r, a, source)
    decreases n
  {
    if n > 1 {
      var m: Id :| (a, m) in r && ReachesIn(r, m, hub, n - 1);
      EntersBySource(r, source, hub, m, n - 1);
      ReachesArc(r, a, m);
      if m != source { ReachesTrans(r, a, m, source); }
    }
  }

  lemma OtherEdges(g: Graph, call: ToolCall, i: nat)
    requires WellFormed(g) && call.InsertNodeOnEdge? && FreshFor(g, call) && i < |g.edges|
    ensures forall e | e in g.edges[..i] || e in g.edges[i + 1..] ::
              e in g.edges && e.id != g.edges[i].id && e.id != call.newEdgeId
              && e.source != call.newNodeId && e.target != call.newNodeId
    ensures g.edges[i].source != call.newNodeId && g.edges[i].id != call.newEdgeId
  {
    hide GroupStructureOk, HandlesFit, Acyclic;
    assert g.edges[i] in g.edges;
    forall e | e in g.edges[..i] || e in g.edges[i + 1..] ensures e in g.edges && EdgeId(e) != EdgeId(g.edges[i]) {}
  }

  lemma InsertedEdgesKeep(g: Graph, edge: Edge, call: ToolCall)
    requires WellFormed(g) && call.InsertNodeOnEdge? && FreshFor(g, call) && edge in g.edges
    ensures UniqueEdgeIds(Inserted(g, edge, call).edges)
    ensures DistinctBy(Inserted(g, edge, call).edges, PortsOf)
    ensures Acyclic(ArcsOf(Inserted(g, edge, call).edges))
    ensures forall d | d in Inserted(g, edge, call).edges ::
      d in g.edges || d == edge.(target := call.newNodeId)
      || d == Edge(call.newEdgeId, call.newNodeId, edge.target, call.outgoingHandle, None)
  {
    hide GroupStructureOk, HandlesFit, Acyclic, DistinctBy;
    var hub := call.newNodeId;
    var a, b := edge.(target := hub), Edge(call.newEdgeId, hub, edge.target, call.outgoingHandle, None);
    var i := SpliceAt(g.edges, edge, [a, b]);
    var front, back := g.edges[..i], g.edges[i + 1..];
    assert g.edges == front + [edge] + back;
    OtherEdges(g, call, i);
    ReplaceDistinct(front, edge, back, a, b, EdgeId);
    ReplaceDistinct(front, edge, back, a, b, PortsOf);
    var kept := InsertArcs(g, edge, call);
    StarAcyclic(kept, {edge.source}, hub, {edge.target});
  }

  // Swapping one edge for two that fit leaves the ends, handles and frames sound.
  lemma EdgesChangeKeeps(g: Graph, edges: seq<Edge>, step: Node, split: Edge)
    requires WellFormed(g) && step in g.nodes && !IsGroup(step) && split in g.edges
    requires UniqueEdgeIds(edges) && DistinctBy(edges, PortsOf) && Acyclic(ArcsOf(edges))
    requires forall d | d in edges ::
      || d in g.edges
      || (d.source == split.source && d.sourceHandle == split.sourceHandle && d.target == step.id)
      || (d.source == step.id && HandleFits(step, d.sourceHandle) && d.target == split.target)
    ensures WellFormed(g.(edges := edges))
  {
  }

  lemma InsertedStepSound(host: Host, g: Graph, call: ToolCall)
    requires WellFormed(g) && call.InsertNodeOnEdge? && FreshFor(g, call)
    requires ProposeInsert(host, g, call).Ok?
    ensures var step := InsertedStep(g, LookupEdge(g.edges, call.edgeId).value, call);
            HandleFits(step, call.outgoingHandle) && WellFormed(g.(nodes := g.nodes + [step]))
  {
    var edge := LookupEdge(g.edges, call.edgeId).value;
    var step := InsertedStep(g, edge, call);
    RecordHolds(call.config, "actionType");
    if step.parentId.Some? {
      var s := Lookup(g.nodes, edge.source).value;
      assert MemberOk(g.nodes, s);
    }
    AppendNodeKeeps(g, step);
  }

  lemma InsertedKeeps(g: Graph, edge: Edge, call: ToolCall)
    requires WellFormed(g) && call.InsertNodeOnEdge? && FreshFor(g, call) && edge in g.edges
    requires WellFormed(g.(nodes := g.nodes + [InsertedStep(g, edge, call)]))
    requires HandleFits(InsertedStep(g, edge, call), call.outgoingHandle)
    ensures WellFormed(Inserted(g, edge, call))
  {
    var step, out := InsertedStep(g, edge, call), Inserted(g, edge, call);
    var wide := g.(nodes := g.nodes + [step]);
    InsertedEdgesKeep(g, edge, call);
    assert step in wide.nodes;
    EdgesChangeKeeps(wide, out.edges, step, edge);
    assert wide.(edges := out.edges) == out;
  }

  lemma InsertKeeps(host: Host, g: Graph, call: ToolCall)
    requires WellFormed(g) && call.InsertNodeOnEdge? && FreshFor(g, call)
    requires ProposeInsert(host, g, call).Ok?
    ensures WellFormed(ProposeInsert(host, g, call).value)
  {
    var edge := LookupEdge(g.edges, call.edgeId).value;
    assert ProposeInsert(host, g, call).value == Inserted(g, edge, call);
    assert WellFormed(Inserted(g, edge, call)) by {
      InsertedStepSound(host, g, call);
      InsertedKeeps(g, edge, call);
    }
  }
}
