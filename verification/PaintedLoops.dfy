// Painted connections that stand for edges without a common end: between two
// Groups, and between steps whose ends share a key. Inserting a step on either
// can lead the step back to itself, and the loop rule refuses it.
module PaintedLoops {
  import opened Reachability
  import opened Sequences
  import opened WorkflowGraph
  import opened GroupRules
  import opened CanvasInsertion
  import opened ConnectionRules
  import opened CanvasSoundness
  import opened PaintedEdges

  // Two edges replaced together, with a third leading from the target of the one
  // to the source of the other, leave a cycle through the new step.
  lemma LoopsThrough(edges: seq<Edge>, edgeIds: set<Id>, first: Edge, back: Edge, last: Edge, hub: Id,
                     outlet: Option<string>, ids: seq<Id>)
    requires |ids| == |ReplacementPlan(edges, edgeIds, hub, outlet)| && NewTo(edges, hub)
    requires first in edges && last in edges && back in edges && first.id in edgeIds && last.id in edgeIds
    requires back.source == first.target && back.target == last.source
    ensures !Acyclic(ArcsOf(EdgesAfter(edges, edgeIds, hub, outlet, ids)))
  {
    hide ReplacementPlan;
    InsertionAcyclic(edges, edgeIds, hub, outlet, ids);
    var replaced := Filter(edges, Named(edgeIds));
    var full := ArcsOf(edges) + Product(Tails(replaced), Heads(replaced));
    assert last.source in Tails(replaced) && first.target in Heads(replaced);
    assert ArcOf(back) in full && (last.source, first.target) in full;
    ReachesArc(full, back.source, back.target);
    ReachesArc(full, last.source, first.target);
    ReachesTrans(full, back.source, back.target, back.source);
  }

  // --- a connection between two Groups ---

  // Two Groups that lead into each other: `f` holds a and c, `h` holds b and d,
  // and the stored edges run from a to b to c to d.
  datatype Cast = Cast(f: Node, h: Node, a: Node, b: Node, c: Node, d: Node, first: Edge, back: Edge, last: Edge)

  predicate Joins(e: Edge, x: Node, y: Node) {
    e.source == x.id && e.target == y.id && e.sourceHandle == None && e.targetHandle == None
  }

  ghost predicate Interleaved(g: Graph, k: Cast) {
    && g == Graph([k.f, k.h, k.a, k.c, k.b, k.d], [k.first, k.back, k.last])
    && UniqueNodeIds(g.nodes) && UniqueEdgeIds(g.edges) && "" !in NodeIds(g.nodes)
    && IsGroup(k.f) && IsGroup(k.h) && k.f.parentId == None && k.h.parentId == None
    && CountsFor(k.f.id)(k.a) && CountsFor(k.f.id)(k.c) && CountsFor(k.h.id)(k.b) && CountsFor(k.h.id)(k.d)
    && NoNul(k.f.id) && NoNul(k.h.id)
    && Joins(k.first, k.a, k.b) && Joins(k.back, k.b, k.c) && Joins(k.last, k.c, k.d)
  }

  lemma CastNodes(g: Graph, k: Cast)
    requires Interleaved(g, k)
    ensures forall n :: n in g.nodes <==> n == k.f || n == k.h || n == k.a || n == k.b || n == k.c || n == k.d
    ensures forall e :: e in g.edges <==> e == k.first || e == k.back || e == k.last
    ensures UniqueNodeIds(g.nodes) && UniqueEdgeIds(g.edges)
  {
    hide CountsFor, UniqueNodeIds, UniqueEdgeIds;
    var nodes, edges := g.nodes, g.edges;
    assert nodes[0] == k.f && nodes[1] == k.h && nodes[2] == k.a && nodes[3] == k.c && nodes[4] == k.b
           && nodes[5] == k.d;
    assert edges[0] == k.first && edges[1] == k.back && edges[2] == k.last;
  }

  lemma CastIds(g: Graph, k: Cast)
    requires Interleaved(g, k)
    ensures k.a.id != k.b.id && k.b.id != k.c.id && k.c.id != k.d.id && k.a.id != k.c.id && k.b.id != k.d.id
            && k.a.id != k.d.id
    ensures k.f.id != k.h.id && k.first.id != k.back.id && k.first.id != k.last.id && k.back.id != k.last.id
    ensures NoNul(k.f.id) && NoNul(k.h.id)
  {
    hide CountsFor, NodeIds;
    var nodes, edges := g.nodes, g.edges;
    assert NodeId(nodes[2]) != NodeId(nodes[3]) && NodeId(nodes[2]) != NodeId(nodes[4])
           && NodeId(nodes[2]) != NodeId(nodes[5]);
    assert NodeId(nodes[3]) != NodeId(nodes[4]) && NodeId(nodes[3]) != NodeId(nodes[5])
           && NodeId(nodes[4]) != NodeId(nodes[5]);
    assert NodeId(nodes[0]) != NodeId(nodes[1]);
    assert EdgeId(edges[0]) != EdgeId(edges[1]) && EdgeId(edges[0]) != EdgeId(edges[2])
           && EdgeId(edges[1]) != EdgeId(edges[2]);
  }

  lemma PairSteps(x: Node, y: Node, groupId: Id)
    requires CountsFor(groupId)(x) && CountsFor(groupId)(y)
    ensures StepCount([x, y], groupId) == 2
  {
    FilterAll([x, y], CountsFor(groupId));
  }

  // Nodes around a pair of steps do not take them from their Group.
  lemma PairAmong(before: seq<Node>, pair: seq<Node>, after: seq<Node>, groupId: Id)
    ensures StepCount(before + pair + after, groupId) >= StepCount(pair, groupId)
  {
    StepsConcat(before, pair, groupId);
    StepsConcat(before + pair, after, groupId);
  }

  lemma CountedStep(n: Node, groupId: Id)
    requires CountsFor(groupId)(n)
    ensures !IsGroup(n)
  {
  }

  // Two frames, each with a pair of its steps among the nodes, and no other frame.
  lemma TwoWhole(nodes: seq<Node>, f: Node, h: Node, one: seq<Node>, two: seq<Node>)
    requires nodes == [f, h] + one + two && StepCount(one, f.id) >= 2 && StepCount(two, h.id) >= 2
    requires forall n | n in one || n in two :: !IsGroup(n)
    ensures NoUndersizedGroup(nodes)
  {
    hide StepCount, IsGroup;
    PairAmong([f, h], one, two, f.id);
    PairAmong([f, h] + one, two, [], h.id);
    assert nodes == [f, h] + one + two + [];
    forall n | n in nodes && IsGroup(n) ensures n == f || n == h {
      assert n in [f, h] || n in one || n in two;
    }
  }

  lemma CastWhole(g: Graph, k: Cast)
    requires Interleaved(g, k)
    ensures NoUndersizedGroup(g.nodes)
  {
    hide StepCount, UniqueNodeIds, UniqueEdgeIds, CountsFor, IsGroup, NodeIds;
    PairSteps(k.a, k.c, k.f.id);
    PairSteps(k.b, k.d, k.h.id);
    CountedStep(k.a, k.f.id);
    CountedStep(k.c, k.f.id);
    CountedStep(k.b, k.h.id);
    CountedStep(k.d, k.h.id);
    TwoWhole(g.nodes, k.f, k.h, [k.a, k.c], [k.b, k.d]);
  }

  // Three arcs in a row make no cycle.
  lemma ChainAcyclic(a: Id, b: Id, c: Id, d: Id)
    requires a != b && b != c && c != d && a != c && b != d && a != d
    ensures Acyclic({(a, b), (b, c), (c, d)})
  {
    var none: Arcs := {};
    assert Acyclic(none) by {
      forall x: Id ensures !Reaches(none, x, x) { if Reaches(none, x, x) { ReachesEnds(none, x, x); } }
    }
    if Reaches(none, b, a) { ReachesEnds(none, b, a); }
    AcyclicAddArc(none, a, b);
    var first := none + {(a, b)};
    if Reaches(first, c, b) { ReachesEnds(first, c, b); }
    AcyclicAddArc(first, b, c);
    var second := first + {(b, c)};
    if Reaches(second, d, c) { ReachesEnds(second, d, c); }
    AcyclicAddArc(second, c, d);
    assert second + {(c, d)} == {(a, b), (b, c), (c, d)};
  }

  lemma CastArcs(g: Graph, k: Cast)
    requires Interleaved(g, k)
    ensures ArcsOf(g.edges) == {(k.a.id, k.b.id), (k.b.id, k.c.id), (k.c.id, k.d.id)} && Acyclic(ArcsOf(g.edges))
  {
    CastNodes(g, k);
    CastIds(g, k);
    hide UniqueNodeIds, UniqueEdgeIds, CountsFor, Acyclic;
    assert ArcOf(k.first) in ArcsOf(g.edges) && ArcOf(k.back) in ArcsOf(g.edges) && ArcOf(k.last) in ArcsOf(g.edges);
    ChainAcyclic(k.a.id, k.b.id, k.c.id, k.d.id);
  }

  lemma CastShaped(g: Graph, k: Cast)
    requires Interleaved(g, k)
    ensures CanvasShaped(g)
  {
    CastNodes(g, k);
    forall n | n in g.nodes ensures MemberOk(g.nodes, n) {}
    forall e, n | e in g.edges && n in g.nodes && (n.id == e.source || n.id == e.target) ensures !IsGroup(n) {
      forall m | m == k.a || m == k.b || m == k.c || m == k.d ensures m.id == n.id ==> m == n {
        if m.id == n.id { UniqueNode(g.nodes, m, n); }
      }
    }
  }

  lemma CastSound(g: Graph, k: Cast)
    requires Interleaved(g, k)
    ensures CanvasSound(g)
  {
    CastShaped(g, k);
    CastWhole(g, k);
    CastArcs(g, k);
    hide CanvasShaped, NoUndersizedGroup, Acyclic, UniqueNodeIds, UniqueEdgeIds;
  }

  // An edge from a member of one frame to a member of another is painted between
  // the frames.
  lemma DisplayAcross(nodes: seq<Node>, e: Edge, x: Node, y: Node, from: Node, onto: Node)
    requires UniqueNodeIds(nodes) && x in nodes && y in nodes && from in nodes && onto in nodes && from.id != onto.id
    requires e.source == x.id && x.parentId == Some(from.id) && IsGroup(from)
    requires e.target == y.id && y.parentId == Some(onto.id) && IsGroup(onto)
    ensures DisplayEdge(nodes, e) == e.(source := from.id, sourceHandle := None, target := onto.id)
  {
    forall n | n in nodes ensures Lookup(nodes, n.id) == Some(n) {
      UniqueNode(nodes, Lookup(nodes, n.id).value, n);
    }
    hide Lookup, UniqueNodeIds;
  }

  // The overview paints the first and the last edge as one, from `f` to `h`, and
  // the middle one as another, back.
  lemma CastPaint(g: Graph, k: Cast)
    requires Interleaved(g, k)
    ensures DisplayEdge(g.nodes, k.first) == k.first.(source := k.f.id, target := k.h.id)
    ensures DisplayEdge(g.nodes, k.back) == k.back.(source := k.h.id, target := k.f.id)
    ensures DisplayEdge(g.nodes, k.last) == k.last.(source := k.f.id, target := k.h.id)
    ensures k.first.sourceHandle == k.last.sourceHandle && k.first.targetHandle == k.last.targetHandle
  {
    CastNodes(g, k);
    CastIds(g, k);
    hide DisplayEdge, UniqueNodeIds, UniqueEdgeIds;
    DisplayAcross(g.nodes, k.first, k.a, k.b, k.f, k.h);
    DisplayAcross(g.nodes, k.back, k.b, k.c, k.h, k.f);
    DisplayAcross(g.nodes, k.last, k.c, k.d, k.f, k.h);
  }

  lemma CastFanOut(g: Graph, k: Cast)
    requires Interleaved(g, k)
    ensures StoredEdgeIds(g.nodes, g.edges, k.first.id, false) == {k.first.id, k.last.id}
  {
    hide Interleaved, DisplayEdge, UniqueNodeIds, UniqueEdgeIds, FanOutStoreEdgeIds, NoNul, JoinNul;
    CastNodes(g, k);
    CastIds(g, k);
    CastPaint(g, k);
    FannedOut(g.nodes, g.edges, k.first);
    var painted, back := DisplayEdge(g.nodes, k.first), DisplayEdge(g.nodes, k.back);
    if EndpointKey(painted) == EndpointKey(back) { EqualSources(painted, back); }
    assert k.back.id !in FanOutStoreEdgeIds(g.nodes, g.edges, k.first.id);
    assert k.last.id in FanOutStoreEdgeIds(g.nodes, g.edges, k.first.id);
    assert EdgeIds(g.edges) <= {k.first.id, k.back.id, k.last.id};
  }

  // Inserting a step on that one connection would lead the step back to itself,
  // and the loop rule refuses it.
  lemma InsertionCanLoop(g: Graph, k: Cast, step: Node, outlet: Option<string>, ids: seq<Id>)
    requires Interleaved(g, k) && step.id != "" && step.id !in NodeIds(g.nodes)
    requires |ids| == |ReplacementPlan(g.edges, {k.first.id, k.last.id}, step.id, outlet)|
    ensures CanvasSound(g) && StoredEdgeIds(g.nodes, g.edges, k.first.id, false) == {k.first.id, k.last.id}
    ensures !Acyclic(ArcsOf(EdgesAfter(g.edges, {k.first.id, k.last.id}, step.id, outlet, ids)))
    ensures var edgeIds := {k.first.id, k.last.id};
            ClosesLoop(Filter(g.edges, NotNamed(edgeIds)), ReplacementPlan(g.edges, edgeIds, step.id, outlet))
  {
    CastSound(g, k);
    CastFanOut(g, k);
    ReplacedLoops(g, k, step.id, outlet, ids);
    hide ReplacementPlan, ClosesLoop, Acyclic, Interleaved, NoUndersizedGroup, GroupStructureOk, StoredEdgeIds;
    var edgeIds := {k.first.id, k.last.id};
    PlanEndsKnown(g, step, edgeIds, outlet);
    InsertedAcyclic(g, step, edgeIds, ReplacementPlan(g.edges, edgeIds, step.id, outlet), ids);
  }

  lemma ReplacedLoops(g: Graph, k: Cast, hub: Id, outlet: Option<string>, ids: seq<Id>)
    requires Interleaved(g, k) && hub !in NodeIds(g.nodes)
    requires |ids| == |ReplacementPlan(g.edges, {k.first.id, k.last.id}, hub, outlet)|
    ensures !Acyclic(ArcsOf(EdgesAfter(g.edges, {k.first.id, k.last.id}, hub, outlet, ids)))
  {
    hide ReplacementPlan, UniqueNodeIds, UniqueEdgeIds, CountsFor, Interleaved, Acyclic, ArcsOf;
    CastNodes(g, k);
    CastEnds(g, k);
    assert NewTo(g.edges, hub);
    LoopsThrough(g.edges, {k.first.id, k.last.id}, k.first, k.back, k.last, hub, outlet, ids);
  }

  lemma CastEnds(g: Graph, k: Cast)
    requires Interleaved(g, k)
    ensures forall e | e in g.edges :: e.source in NodeIds(g.nodes) && e.target in NodeIds(g.nodes)
    ensures k.back.source == k.first.target && k.back.target == k.last.source
  {
    CastNodes(g, k);
    hide UniqueNodeIds, UniqueEdgeIds, CountsFor;
  }

  // --- a connection between two steps ---

  // The schema admits a separator inside an id, and then two connections between
  // four steps can share a key: "a\0event:y" by the outlet "event:x" to "d", and
  // "a" by the outlet "event:y" to "event:x\0d". Here the first leads to the other.
  ghost predicate MergedEnds(g: Graph, k: Cast) {
    && g == Graph([k.a, k.b, k.c, k.d], [k.first, k.back, k.last])
    && UniqueEdgeIds(g.edges)
    && (forall n | n in g.nodes :: !IsGroup(n) && n.parentId == None)
    && k.a.id == "a\0event:y" && k.b.id == "d" && k.c.id == "a" && k.d.id == "event:x\0d"
    && k.first == Edge(k.first.id, k.a.id, k.b.id, Some("event:x"), None)
    && k.back == Edge(k.back.id, k.b.id, k.c.id, None, None)
    && k.last == Edge(k.last.id, k.c.id, k.d.id, Some("event:y"), None)
  }

  lemma MergedNodes(g: Graph, k: Cast)
    requires MergedEnds(g, k)
    ensures forall n :: n in g.nodes <==> n == k.a || n == k.b || n == k.c || n == k.d
    ensures forall e :: e in g.edges <==> e == k.first || e == k.back || e == k.last
    ensures UniqueNodeIds(g.nodes) && UniqueEdgeIds(g.edges)
    ensures k.first.id != k.back.id && k.first.id != k.last.id && k.back.id != k.last.id
  {
    var nodes, edges := g.nodes, g.edges;
    assert nodes[0] == k.a && nodes[1] == k.b && nodes[2] == k.c && nodes[3] == k.d;
    assert edges[0] == k.first && edges[1] == k.back && edges[2] == k.last;
    assert EdgeId(edges[0]) != EdgeId(edges[1]) && EdgeId(edges[0]) != EdgeId(edges[2])
           && EdgeId(edges[1]) != EdgeId(edges[2]);
    assert |k.a.id| == 9 && |k.b.id| == 1 && |k.c.id| == 1 && |k.d.id| == 9;
    assert k.a.id[0] == 'a' && k.b.id[0] == 'd' && k.c.id[0] == 'a' && k.d.id[0] == 'e';
  }

  lemma MergedSound(g: Graph, k: Cast)
    requires MergedEnds(g, k)
    ensures CanvasSound(g)
  {
    MergedNodes(g, k);
    MergedArcs(g, k);
    hide UniqueNodeIds, UniqueEdgeIds, Acyclic;
    assert k.a.id != "" && k.b.id != "" && k.c.id != "" && k.d.id != "";
  }

  lemma MergedArcs(g: Graph, k: Cast)
    requires MergedEnds(g, k)
    ensures Acyclic(ArcsOf(g.edges))
  {
    MergedNodes(g, k);
    assert k.a.id[0] == 'a' && k.b.id[0] == 'd' && k.c.id[0] == 'a' && k.d.id[0] == 'e' && |k.a.id| > 1
           && |k.c.id| == 1;
    hide UniqueNodeIds, UniqueEdgeIds, Acyclic;
    assert ArcOf(k.first) in ArcsOf(g.edges) && ArcOf(k.back) in ArcsOf(g.edges) && ArcOf(k.last) in ArcsOf(g.edges);
    assert ArcsOf(g.edges) == {(k.a.id, k.b.id), (k.b.id, k.c.id), (k.c.id, k.d.id)};
    ChainAcyclic(k.a.id, k.b.id, k.c.id, k.d.id);
  }

  // With no frame around, an edge is painted as it is.
  lemma DisplayPlain(nodes: seq<Node>, e: Edge)
    requires forall n | n in nodes :: n.parentId == None && !IsGroup(n)
    ensures DisplayEdge(nodes, e) == e && !IsFrame(nodes, e.source)
  {
  }

  lemma MergedKey(k: Cast, g: Graph)
    requires MergedEnds(g, k)
    ensures EndpointKey(k.first) == EndpointKey(k.last) && EndpointKey(k.back) != EndpointKey(k.first)
  {
    assert EndpointKey(k.first) == "a\0event:y\0event:x\0d\0";
    assert EndpointKey(k.last) == "a\0event:y\0event:x\0d\0";
    assert EndpointKey(k.back)[0] == 'd';
  }

  lemma MergedPaint(g: Graph, k: Cast)
    requires MergedEnds(g, k)
    ensures DisplayEdge(g.nodes, k.first) == k.first && !IsFrame(g.nodes, k.first.source)
    ensures DisplayEdge(g.nodes, k.back) == k.back && DisplayEdge(g.nodes, k.last) == k.last
  {
    hide DisplayEdge, IsFrame;
    DisplayPlain(g.nodes, k.first);
    DisplayPlain(g.nodes, k.back);
    DisplayPlain(g.nodes, k.last);
  }

  lemma MergedFanOut(g: Graph, k: Cast)
    requires MergedEnds(g, k)
    ensures StoredEdgeIds(g.nodes, g.edges, k.first.id, false) == {k.first.id, k.last.id}
  {
    hide MergedEnds, DisplayEdge, UniqueNodeIds, UniqueEdgeIds, FanOutStoreEdgeIds, EndpointKey;
    MergedNodes(g, k);
    MergedKey(k, g);
    MergedPaint(g, k);
    FannedOut(g.nodes, g.edges, k.first);
    assert EdgeIds(g.edges) <= {k.first.id, k.back.id, k.last.id};
  }

  lemma MergedWired(g: Graph, k: Cast)
    requires MergedEnds(g, k)
    ensures k.back.source == k.first.target && k.back.target == k.last.source
  {
  }

  // Inserting a step on the one replaces both, and the loop rule refuses it,
  // although both its ends are steps.
  lemma MergedEndsLoop(g: Graph, k: Cast, step: Node, outlet: Option<string>)
    requires MergedEnds(g, k) && step.id != "" && step.id !in NodeIds(g.nodes)
    ensures CanvasSound(g) && DisplayEdge(g.nodes, k.first) == k.first && !IsFrame(g.nodes, k.first.source)
    ensures StoredEdgeIds(g.nodes, g.edges, k.first.id, false) == {k.first.id, k.last.id}
    ensures var edgeIds := {k.first.id, k.last.id};
            !JoinedAlready(g.edges, edgeIds)
            && ClosesLoop(Filter(g.edges, NotNamed(edgeIds)), ReplacementPlan(g.edges, edgeIds, step.id, outlet))
  {
    hide MergedEnds, ReplacementPlan, ClosesLoop, Acyclic, NoUndersizedGroup, GroupStructureOk, StoredEdgeIds,
      UniqueNodeIds, UniqueEdgeIds, JoinedAlready, DisplayEdge, IsFrame;
    MergedSound(g, k);
    MergedFanOut(g, k);
    MergedPaint(g, k);
    MergedNodes(g, k);
    MergedWired(g, k);
    var edgeIds := {k.first.id, k.last.id};
    var plan := ReplacementPlan(g.edges, edgeIds, step.id, outlet);
    var ids := seq(|plan|, i => "");
    assert NewTo(g.edges, step.id);
    LoopsThrough(g.edges, edgeIds, k.first, k.back, k.last, step.id, outlet, ids);
    PlanEndsKnown(g, step, edgeIds, outlet);
    InsertedAcyclic(g, step, edgeIds, plan, ids);
    if JoinedAlready(g.edges, edgeIds) { InsertionKeepsAcyclic(g.edges, edgeIds, step.id, outlet, ids); }
  }
}
