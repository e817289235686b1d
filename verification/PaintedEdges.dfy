// Which stored edges one painted connection stands for, when the key they are
// collapsed by tells them apart, and what replacing them by a step does to paths.
module PaintedEdges {
  import opened Reachability
  import opened Sequences
  import opened WorkflowGraph
  import opened GroupRules
  import opened CanvasInsertion
  import opened ConnectionRules
  import opened CanvasSoundness

  predicate IsInterior(nodes: seq<Node>, e: Edge) {
    ParentOf(nodes, e.source).Some? && ParentOf(nodes, e.source) == ParentOf(nodes, e.target)
  }

  // A member's end is painted on its frame, which has one outlet with no handle.
  // An edge inside one frame stays as it is.
  function DisplayEdge(nodes: seq<Node>, e: Edge): Edge {
    if IsInterior(nodes, e) then e
    else
      var source, target := FrameOf(nodes, e.source), FrameOf(nodes, e.target);
      var left := if source.Some? then e.(source := source.value, sourceHandle := None) else e;
      if target.Some? then left.(target := target.value) else left
  }

  // The text painted edges are told apart by: the four ends, joined.
  function EndpointKey(e: Edge): string {
    JoinNul(e.source, JoinNul(HandleText(e.sourceHandle), JoinNul(e.target, HandleText(e.targetHandle))))
  }

  function PaintedLike(nodes: seq<Node>, e: Edge): Edge -> bool {
    (d: Edge) => EndpointKey(DisplayEdge(nodes, d)) == EndpointKey(DisplayEdge(nodes, e))
  }

  function FanOutStoreEdgeIds(nodes: seq<Node>, edges: seq<Edge>, edgeId: Id): set<Id> {
    var found := LookupEdge(edges, edgeId);
    if found.None? then {} else EdgeIds(Filter(edges, PaintedLike(nodes, found.value)))
  }

  // A focused Group paints each stored edge on its own; the overview collapses.
  function StoredEdgeIds(nodes: seq<Node>, edges: seq<Edge>, edgeId: Id, focused: bool): set<Id> {
    if !focused then FanOutStoreEdgeIds(nodes, edges, edgeId)
    else if LookupEdge(edges, edgeId).Some? then {edgeId}
    else {}
  }

  // Of several painted connections.
  function StoredBehind(nodes: seq<Node>, edges: seq<Edge>, painted: set<Id>, focused: bool): set<Id> {
    set e, p | e in edges && p in painted && e.id in StoredEdgeIds(nodes, edges, p, focused) :: e.id
  }

  // --- replacing them ---

  lemma PaintedEnds(nodes: seq<Node>, d: Edge)
    ensures var p := DisplayEdge(nodes, d);
            && (p.source == d.source || IsFrame(nodes, p.source))
            && (p.target == d.target || IsFrame(nodes, p.target))
  {
  }

  // The stored edges whose painted ends share the key.
  lemma FannedOut(nodes: seq<Node>, edges: seq<Edge>, e: Edge)
    requires UniqueEdgeIds(edges) && e in edges
    ensures FanOutStoreEdgeIds(nodes, edges, e.id) <= EdgeIds(edges)
    ensures forall d | d in edges :: d.id in FanOutStoreEdgeIds(nodes, edges, e.id)
              <==> EndpointKey(DisplayEdge(nodes, d)) == EndpointKey(DisplayEdge(nodes, e))
  {
    hide DisplayEdge, EndpointKey;
    UniqueEdge(edges, LookupEdge(edges, e.id).value, e);
    forall d | d in edges
      ensures d.id in FanOutStoreEdgeIds(nodes, edges, e.id)
              <==> EndpointKey(DisplayEdge(nodes, d)) == EndpointKey(DisplayEdge(nodes, e))
    {
      if c :| c in Filter(edges, PaintedLike(nodes, e)) && c.id == d.id { UniqueEdge(edges, c, d); }
    }
  }

  predicate SameEnds(d: Edge, e: Edge) {
    d.source == e.source && d.sourceHandle == e.sourceHandle && d.target == e.target && d.targetHandle == e.targetHandle
  }

  // The key tells the painted ends apart.
  ghost predicate EndsApart(nodes: seq<Node>, edges: seq<Edge>) {
    forall d, e | d in edges && e in edges
      && EndpointKey(DisplayEdge(nodes, d)) == EndpointKey(DisplayEdge(nodes, e)) ::
      SameEnds(DisplayEdge(nodes, d), DisplayEdge(nodes, e))
  }

  // Every painted edge stands for exactly the stored edges painted with its ends
  // if and only if no two different ends share a key.
  lemma FannedOutIff(nodes: seq<Node>, edges: seq<Edge>)
    requires UniqueEdgeIds(edges)
    ensures EndsApart(nodes, edges)
       <==> forall d, e | d in edges && e in edges ::
              d.id in FanOutStoreEdgeIds(nodes, edges, e.id) <==> SameEnds(DisplayEdge(nodes, d), DisplayEdge(nodes, e))
  {
    hide DisplayEdge, EndpointKey, FanOutStoreEdgeIds;
    forall e | e in edges
      ensures forall d | d in edges :: d.id in FanOutStoreEdgeIds(nodes, edges, e.id)
                <==> EndpointKey(DisplayEdge(nodes, d)) == EndpointKey(DisplayEdge(nodes, e))
    {
      FannedOut(nodes, edges, e);
    }
    forall d, e | SameEnds(d, e) ensures EndpointKey(d) == EndpointKey(e) { EqualKeys(d, e); }
  }

  lemma EqualKeys(d: Edge, e: Edge)
    requires SameEnds(d, e)
    ensures EndpointKey(d) == EndpointKey(e)
  {
  }

  // --- how an edge is painted ---

  ghost predicate MemberOf(nodes: seq<Node>, id: Id, frame: Id) {
    exists n :: n in nodes && n.id == id && n.parentId == Some(frame)
  }

  // A member of the stored frame `frame`.
  ghost predicate Framed(nodes: seq<Node>, id: Id, frame: Id) {
    MemberOf(nodes, id, frame) && exists f :: f in nodes && f.id == frame && f.kind == Group
  }

  lemma FramedExact(nodes: seq<Node>, id: Id, frame: Id)
    requires UniqueNodeIds(nodes)
    ensures MemberOf(nodes, id, frame) <==> ParentOf(nodes, id) == Some(frame)
    ensures Framed(nodes, id, frame) <==> FrameOf(nodes, id) == Some(frame)
  {
    forall n | n in nodes ensures Lookup(nodes, n.id) == Some(n) { UniqueNode(nodes, Lookup(nodes, n.id).value, n); }
    hide UniqueNodeIds, Lookup;
  }

  // An edge inside one frame is painted as it is. Any other end at a member is
  // painted on its frame, whose outlet has no handle.
  lemma DisplayExact(nodes: seq<Node>, e: Edge)
    requires UniqueNodeIds(nodes)
    ensures var p := DisplayEdge(nodes, e);
            && p.id == e.id && p.targetHandle == e.targetHandle
            && if exists f :: MemberOf(nodes, e.source, f) && MemberOf(nodes, e.target, f) then p == e
               else
                 && (forall f | Framed(nodes, e.source, f) :: p.source == f && p.sourceHandle == None)
                 && (forall f | Framed(nodes, e.target, f) :: p.target == f)
                 && ((forall f :: !Framed(nodes, e.source, f))
                    ==> p.source == e.source && p.sourceHandle == e.sourceHandle)
                 && ((forall f :: !Framed(nodes, e.target, f)) ==> p.target == e.target)
  {
    forall id, f ensures (MemberOf(nodes, id, f) <==> ParentOf(nodes, id) == Some(f))
                      && (Framed(nodes, id, f) <==> FrameOf(nodes, id) == Some(f)) {
      FramedExact(nodes, id, f);
    }
    hide MemberOf, Framed, ParentOf, FrameOf;
    if IsInterior(nodes, e) { assert MemberOf(nodes, e.source, ParentOf(nodes, e.source).value); }
    var from, onto := FrameOf(nodes, e.source), FrameOf(nodes, e.target);
    if from.Some? { assert Framed(nodes, e.source, from.value); }
    if onto.Some? { assert Framed(nodes, e.target, onto.value); }
  }

  // Under a focused Group a painted edge is the stored one; on the overview it
  // stands for those painted under its key.
  lemma StoredEdgeIdsExact(nodes: seq<Node>, edges: seq<Edge>, e: Edge, focused: bool)
    requires UniqueEdgeIds(edges) && e in edges
    ensures forall d | d in edges :: d.id in StoredEdgeIds(nodes, edges, e.id, focused)
              <==> if focused then d == e else EndpointKey(DisplayEdge(nodes, d)) == EndpointKey(DisplayEdge(nodes, e))
  {
    FannedOut(nodes, edges, e);
    forall d | d in edges && d.id == e.id ensures d == e { UniqueEdge(edges, d, e); }
    hide FanOutStoreEdgeIds, DisplayEdge, EndpointKey;
  }

  // --- when the key tells ends apart ---

  ghost predicate NulFree(nodes: seq<Node>) {
    forall n | n in nodes :: NoNul(n.id)
  }

  // As the schema has handles, with no separator in the one the key joins on.
  predicate PlainHandles(e: Edge) {
    NoNul(HandleText(e.sourceHandle)) && e.sourceHandle != Some("") && e.targetHandle != Some("")
  }

  lemma EndpointKeyInjective(d: Edge, e: Edge)
    requires NoNul(d.source) && NoNul(d.target) && PlainHandles(d)
    requires NoNul(e.source) && NoNul(e.target) && PlainHandles(e)
    ensures EndpointKey(d) == EndpointKey(e) <==> SameEnds(d, e)
  {
    hide JoinNul, NoNul;
    if EndpointKey(d) == EndpointKey(e) {
      EqualSources(d, e);
      EqualTargets(d, e);
    }
  }

  lemma EqualSources(d: Edge, e: Edge)
    requires NoNul(d.source) && NoNul(e.source) && EndpointKey(d) == EndpointKey(e)
    ensures d.source == e.source
    ensures JoinNul(HandleText(d.sourceHandle), JoinNul(d.target, HandleText(d.targetHandle)))
         == JoinNul(HandleText(e.sourceHandle), JoinNul(e.target, HandleText(e.targetHandle)))
  {
    hide JoinNul, NoNul;
    FirstPart(d.source, JoinNul(HandleText(d.sourceHandle), JoinNul(d.target, HandleText(d.targetHandle))),
              e.source, JoinNul(HandleText(e.sourceHandle), JoinNul(e.target, HandleText(e.targetHandle))));
  }

  lemma EqualTargets(d: Edge, e: Edge)
    requires JoinNul(HandleText(d.sourceHandle), JoinNul(d.target, HandleText(d.targetHandle)))
          == JoinNul(HandleText(e.sourceHandle), JoinNul(e.target, HandleText(e.targetHandle)))
    requires NoNul(HandleText(d.sourceHandle)) && NoNul(HandleText(e.sourceHandle)) && NoNul(d.target)
             && NoNul(e.target)
    ensures HandleText(d.sourceHandle) == HandleText(e.sourceHandle) && d.target == e.target
    ensures HandleText(d.targetHandle) == HandleText(e.targetHandle)
  {
    hide JoinNul, NoNul;
    FirstPart(HandleText(d.sourceHandle), JoinNul(d.target, HandleText(d.targetHandle)),
              HandleText(e.sourceHandle), JoinNul(e.target, HandleText(e.targetHandle)));
    FirstPart(d.target, HandleText(d.targetHandle), e.target, HandleText(e.targetHandle));
  }

  // A painted end is a node of the graph.
  lemma PaintedKnown(g: Graph, d: Edge)
    requires NoDanglingEdge(g) && d in g.edges && NulFree(g.nodes)
    ensures NoNul(DisplayEdge(g.nodes, d).source) && NoNul(DisplayEdge(g.nodes, d).target)
  {
    hide DisplayEdge, NoNul;
    PaintedEnds(g.nodes, d);
    forall id | id in NodeIds(g.nodes) || IsFrame(g.nodes, id) ensures NoNul(id) {}
  }

  // Stored graphs without separators in ids and outlets.
  lemma PlainEndsApart(g: Graph)
    requires NoDanglingEdge(g) && NulFree(g.nodes) && forall e | e in g.edges :: PlainHandles(e)
    ensures EndsApart(g.nodes, g.edges)
  {
    hide EndpointKey, NoNul, NulFree, NoDanglingEdge, SameEnds;
    forall d, e | d in g.edges && e in g.edges
      && EndpointKey(DisplayEdge(g.nodes, d)) == EndpointKey(DisplayEdge(g.nodes, e))
      ensures SameEnds(DisplayEdge(g.nodes, d), DisplayEdge(g.nodes, e))
    {
      PaintedPlain(g, d);
      PaintedPlain(g, e);
      EndpointKeyInjective(DisplayEdge(g.nodes, d), DisplayEdge(g.nodes, e));
    }
  }

  lemma PaintedPlain(g: Graph, d: Edge)
    requires NoDanglingEdge(g) && d in g.edges && NulFree(g.nodes) && PlainHandles(d)
    ensures NoNul(DisplayEdge(g.nodes, d).source) && NoNul(DisplayEdge(g.nodes, d).target)
    ensures PlainHandles(DisplayEdge(g.nodes, d))
  {
    PaintedKnown(g, d);
    hide FrameOf, IsInterior, NulFree, NoDanglingEdge;
  }

  // --- what one painted connection joins ---

  // An edge painted from a frame names no outlet.
  lemma FramedHandle(g: Graph, d: Edge)
    requires CanvasShaped(g) && d in g.edges && IsFrame(g.nodes, DisplayEdge(g.nodes, d).source)
    ensures DisplayEdge(g.nodes, d).sourceHandle == None
  {
    assert !IsFrame(g.nodes, d.source);
  }

  // Two edges under one key leave the same step, or, painted from one frame,
  // have one painted target.
  lemma SharedKey(g: Graph, d: Edge, e: Edge)
    requires CanvasShaped(g) && NulFree(g.nodes) && d in g.edges && e in g.edges
    requires EndpointKey(DisplayEdge(g.nodes, d)) == EndpointKey(DisplayEdge(g.nodes, e))
    ensures DisplayEdge(g.nodes, d).source == DisplayEdge(g.nodes, e).source
    ensures IsFrame(g.nodes, DisplayEdge(g.nodes, e).source)
            ==> DisplayEdge(g.nodes, d).target == DisplayEdge(g.nodes, e).target
  {
    assert NoNul("");
    hide DisplayEdge, CanvasShaped, NulFree, NoNul, EndpointKey;
    var p, q := DisplayEdge(g.nodes, d), DisplayEdge(g.nodes, e);
    ShapedUnique(g);
    PaintedKnown(g, d);
    PaintedKnown(g, e);
    EqualSources(p, q);
    if IsFrame(g.nodes, q.source) {
      FramedHandle(g, d);
      FramedHandle(g, e);
      EqualTargets(p, q);
    }
  }

  // With no separator inside ids, a connection painted onto a step at either
  // end, or inside a focused Group, stands for edges that share that end, so
  // inserting a step on it leaves every path between old steps as it was.
  lemma PaintedJoined(g: Graph, e: Edge, focused: bool)
    requires CanvasShaped(g) && NulFree(g.nodes) && e in g.edges
    requires var p := DisplayEdge(g.nodes, e); focused || !IsFrame(g.nodes, p.source) || !IsFrame(g.nodes, p.target)
    ensures JoinedAlready(g.edges, StoredEdgeIds(g.nodes, g.edges, e.id, focused))
  {
    hide DisplayEdge, JoinedAlready, FanOutStoreEdgeIds, EndpointKey, IsFrame, NulFree, GroupStructureOk;
    var edgeIds := StoredEdgeIds(g.nodes, g.edges, e.id, focused);
    var p := DisplayEdge(g.nodes, e);
    FannedOut(g.nodes, g.edges, e);
    forall d | d in Filter(g.edges, Named(edgeIds))
      ensures if focused then d == e
              else if !IsFrame(g.nodes, p.source) then d.source == p.source
              else d.target == p.target
    {
      if focused {
        UniqueEdge(g.edges, d, e);
      } else {
        SharedKey(g, d, e);
        PaintedEnds(g.nodes, d);
      }
    }
    SharedEndJoined(g.edges, edgeIds);
  }

  lemma StoredNamed(nodes: seq<Node>, edges: seq<Edge>, edgeId: Id, focused: bool)
    requires StoredEdgeIds(nodes, edges, edgeId, focused) != {}
    ensures LookupEdge(edges, edgeId).Some?
  {
  }

  // Nor do the connections painted at one outlet of a step, which Add step after
  // replaces together, lose or make a path.
  lemma OutletJoined(g: Graph, painted: set<Id>, source: Id, focused: bool)
    requires CanvasShaped(g) && NulFree(g.nodes) && !IsFrame(g.nodes, source)
    requires forall e | e in g.edges && e.id in painted ::
               (if focused then e else DisplayEdge(g.nodes, e)).source == source
    ensures JoinedAlready(g.edges, StoredBehind(g.nodes, g.edges, painted, focused))
  {
    hide DisplayEdge, JoinedAlready, FanOutStoreEdgeIds, EndpointKey, IsFrame, NulFree, GroupStructureOk;
    var edgeIds := StoredBehind(g.nodes, g.edges, painted, focused);
    forall d | d in Filter(g.edges, Named(edgeIds)) ensures d.source == source {
      var c, p :|
        c in g.edges && p in painted && c.id in StoredEdgeIds(g.nodes, g.edges, p, focused) && c.id == d.id;
      StoredNamed(g.nodes, g.edges, p, focused);
      var e := LookupEdge(g.edges, p).value;
      FannedOut(g.nodes, g.edges, e);
      if focused {
        UniqueEdge(g.edges, d, e);
      } else {
        SharedKey(g, d, e);
        PaintedEnds(g.nodes, d);
      }
    }
    SharedEndJoined(g.edges, edgeIds);
  }

  // There the loop rule never refuses the plan.
  lemma PaintedNeverLoops(g: Graph, e: Edge, focused: bool, step: Node, outlet: Option<string>)
    requires CanvasSound(g) && NulFree(g.nodes) && e in g.edges && step.id != "" && step.id !in NodeIds(g.nodes)
    requires var p := DisplayEdge(g.nodes, e); focused || !IsFrame(g.nodes, p.source) || !IsFrame(g.nodes, p.target)
    ensures var edgeIds := StoredEdgeIds(g.nodes, g.edges, e.id, focused);
            !ClosesLoop(Filter(g.edges, NotNamed(edgeIds)), ReplacementPlan(g.edges, edgeIds, step.id, outlet))
  {
    hide DisplayEdge, JoinedAlready, FanOutStoreEdgeIds, ReplacementPlan, ClosesLoop, Acyclic, NoUndersizedGroup,
      GroupStructureOk, NulFree;
    var edgeIds := StoredEdgeIds(g.nodes, g.edges, e.id, focused);
    var plan := ReplacementPlan(g.edges, edgeIds, step.id, outlet);
    var ids := seq(|plan|, i => "");
    PaintedJoined(g, e, focused);
    assert NewTo(g.edges, step.id);
    InsertionKeepsAcyclic(g.edges, edgeIds, step.id, outlet, ids);
    PlanEndsKnown(g, step, edgeIds, outlet);
    InsertedAcyclic(g, step, edgeIds, plan, ids);
  }
}
