// The stored edges a requested connection comes to: a Group's card stands for
// the members it is entered at, and for the ports it is left by.
module ConnectionExpansion {
  import opened Reachability
  import opened Sequences
  import opened WorkflowGraph
  import opened GroupRules
  import opened CanvasInsertion
  import opened ConnectionRules
  import opened CanvasSoundness
  import opened GroupBoundary

  datatype Request = Request(source: Option<Id>, target: Option<Id>, sourceHandle: Option<string>,
                             targetHandle: Option<string>)

  // The handle a source is stored with, which the catalog has a say in.
  type OutletChoice = (Graph, Id, Option<string>) -> Option<string>

  function StoredSources(g: Graph, source: Id, handle: Option<string>): seq<Port> {
    if IsFrame(g.nodes, source) then OutletPorts(g.nodes, g.edges, source) else [Port(source, handle)]
  }

  // A Group nothing can enter answers its own frame.
  function StoredTargets(g: Graph, target: Id): seq<Id> {
    if IsFrame(g.nodes, target) && EntryIds(g.nodes, g.edges, target) != [] then EntryIds(g.nodes, g.edges, target)
    else [target]
  }

  function StoredKey(p: Port, target: Id): string { JoinNul(UniqueKey(p), target) }

  function StoredKeys(edges: seq<Edge>): set<string> {
    set e | e in edges :: StoredKey(SourcePort(e), e.target)
  }

  function NotStored(edges: seq<Edge>, p: Port): Id -> bool {
    (target: Id) => StoredKey(p, target) !in StoredKeys(edges)
  }

  function Onto(p: Port, targetHandle: Option<string>): Id -> Addition {
    (target: Id) => Addition(p.nodeId, p.handle, target, targetHandle)
  }

  function FromSource(edges: seq<Edge>, targets: seq<Id>, targetHandle: Option<string>): Port -> seq<Addition> {
    (p: Port) => Map(Filter(targets, NotStored(edges, p)), Onto(p, targetHandle))
  }

  function FanOut(g: Graph, source: Id, handle: Option<string>, target: Id,
                  targetHandle: Option<string>): seq<Addition> {
    FlatMap(StoredSources(g, source, handle), FromSource(g.edges, StoredTargets(g, target), targetHandle))
  }

  // Between a member and a step outside its Group only the card connects.
  predicate CrossesBoundary(nodes: seq<Node>, source: Id, target: Id) {
    var from, onto := ParentOf(nodes, source), ParentOf(nodes, target);
    ((from.Some? && from.value != "") || (onto.Some? && onto.value != "")) && from != onto
  }

  // None is a refusal. `throughStub` says the connection was painted onto a
  // boundary stub, whose port it names.
  function Expand(g: Graph, request: Request, throughStub: bool, choose: OutletChoice): Option<seq<Addition>> {
    if request.source.None? || request.target.None? || request.source == Some("") || request.target == Some("")
      then None
    else
      var source, target := request.source.value, request.target.value;
      if source == target || EndpointRefused(g.nodes, Addition(source, None, target, None)) then None
      else if !throughStub && CrossesBoundary(g.nodes, source, target) then None
      else
        var additions := FanOut(g, source, choose(g, source, request.sourceHandle), target, request.targetHandle);
        if additions == [] then None else Some(additions)
  }

  // --- what is added ---

  // One edge from each source port to each target, unless its key is stored.
  lemma FanOutExact(g: Graph, source: Id, handle: Option<string>, target: Id, targetHandle: Option<string>, a: Addition)
    ensures a in FanOut(g, source, handle, target, targetHandle)
       <==> (Port(a.source, a.sourceHandle) in StoredSources(g, source, handle) && a.target in StoredTargets(g, target)
             && a.targetHandle == targetHandle
             && StoredKey(Port(a.source, a.sourceHandle), a.target) !in StoredKeys(g.edges))
  {
    hide StoredSources, StoredTargets, StoredKey, StoredKeys;
    var sources, targets := StoredSources(g, source, handle), StoredTargets(g, target);
    var from := FromSource(g.edges, targets, targetHandle);
    var p := Port(a.source, a.sourceHandle);
    if a in FanOut(g, source, handle, target, targetHandle) {
      var q := FlatMapIn(sources, from, a);
      MapHas(Filter(targets, NotStored(g.edges, q)), Onto(q, targetHandle), a);
      assert q == p;
    }
    if p in sources && a.target in targets && a.targetHandle == targetHandle
      && StoredKey(p, a.target) !in StoredKeys(g.edges) {
      assert Onto(p, targetHandle)(a.target) == a;
      MapHas(Filter(targets, NotStored(g.edges, p)), Onto(p, targetHandle), a);
      FlatMapHas(sources, from, p, a);
    }
  }

  predicate PlainPort(p: Port) { NoNul(p.nodeId) && NoNul(HandleText(p.handle)) }

  // With no NUL inside, the key tells outlets and steps apart; no outlet and an
  // empty one are the same.
  lemma StoredKeySame(p: Port, t: Id, q: Port, u: Id)
    requires PlainPort(p) && PlainPort(q)
    ensures StoredKey(p, t) == StoredKey(q, u)
       <==> (p.nodeId == q.nodeId && HandleText(p.handle) == HandleText(q.handle) && t == u)
  {
    var h, k := HandleText(p.handle), HandleText(q.handle);
    assert StoredKey(p, t) == JoinNul(p.nodeId, JoinNul(h, t));
    assert StoredKey(q, u) == JoinNul(q.nodeId, JoinNul(k, u));
    if StoredKey(p, t) == StoredKey(q, u) {
      FirstPart(p.nodeId, JoinNul(h, t), q.nodeId, JoinNul(k, u));
      FirstPart(h, t, k, u);
    }
  }

  // So on a graph without NUL an outlet is joined to a step exactly when no stored
  // edge joins them yet.
  lemma FanOutPlain(g: Graph, source: Id, handle: Option<string>, target: Id, targetHandle: Option<string>, a: Addition)
    requires PlainPort(Port(a.source, a.sourceHandle)) && forall e | e in g.edges :: PlainPort(SourcePort(e))
    ensures a in FanOut(g, source, handle, target, targetHandle)
       <==> (Port(a.source, a.sourceHandle) in StoredSources(g, source, handle) && a.target in StoredTargets(g, target)
             && a.targetHandle == targetHandle
             && forall e | e in g.edges ::
                  e.source != a.source || HandleText(e.sourceHandle) != HandleText(a.sourceHandle)
                  || e.target != a.target)
  {
    FanOutExact(g, source, handle, target, targetHandle, a);
    hide StoredSources, StoredTargets, StoredKey, PlainPort;
    var p := Port(a.source, a.sourceHandle);
    forall e | e in g.edges
      ensures StoredKey(SourcePort(e), e.target) == StoredKey(p, a.target)
         <==> (e.source == a.source && HandleText(e.sourceHandle) == HandleText(a.sourceHandle)
               && e.target == a.target)
    {
      StoredKeySame(SourcePort(e), e.target, p, a.target);
    }
  }

  // No stored edge joins the same outlet to the same step already.
  lemma ExpansionIsNew(g: Graph, request: Request, throughStub: bool, choose: OutletChoice, a: Addition, e: Edge)
    requires Expand(g, request, throughStub, choose).Some? && a in Expand(g, request, throughStub, choose).value
    requires e in g.edges
    ensures e.source != a.source || e.sourceHandle != a.sourceHandle || e.target != a.target
  {
    hide StoredSources, StoredTargets;
    FanOutExact(g, request.source.value, choose(g, request.source.value, request.sourceHandle), request.target.value,
                request.targetHandle, a);
    assert StoredKey(SourcePort(e), e.target) in StoredKeys(g.edges);
  }

  lemma FromSourceDistinct(edges: seq<Edge>, targets: seq<Id>, targetHandle: Option<string>, p: Port)
    requires Distinct(targets)
    ensures DistinctBy(FromSource(edges, targets, targetHandle)(p), Itself)
    ensures forall a | a in FromSource(edges, targets, targetHandle)(p) :: Port(a.source, a.sourceHandle) == p
  {
    var kept := Filter(targets, NotStored(edges, p));
    assert DistinctBy(targets, Itself);
    FilterDistinctBy(targets, NotStored(edges, p), Itself);
    var added := FromSource(edges, targets, targetHandle)(p);
    forall i, j | 0 <= i < j < |added| ensures Itself(added[i]) != Itself(added[j]) {
      assert Itself(kept[i]) != Itself(kept[j]);
    }
  }

  // Nor is one added twice.
  lemma ExpansionRepeatsNothing(g: Graph, request: Request, throughStub: bool, choose: OutletChoice)
    requires UniqueNodeIds(g.nodes) && Expand(g, request, throughStub, choose).Some?
    ensures Distinct(Expand(g, request, throughStub, choose).value)
  {
    var source, target := request.source.value, request.target.value;
    var handle := choose(g, source, request.sourceHandle);
    var sources, targets := StoredSources(g, source, handle), StoredTargets(g, target);
    assert Distinct(sources) by { OutletsDistinct(g.nodes, g.edges, source); }
    assert Distinct(targets) by { EntriesDistinct(g.nodes, g.edges, target); }
    hide StoredSources, StoredTargets, NotStored;
    var from := FromSource(g.edges, targets, request.targetHandle);
    forall p | p in sources ensures DistinctBy(from(p), Itself) {
      FromSourceDistinct(g.edges, targets, request.targetHandle, p);
    }
    forall i, j | 0 <= i < j < |sources|
      ensures forall u, v | u in from(sources[i]) && v in from(sources[j]) :: Itself(u) != Itself(v) {
      FromSourceDistinct(g.edges, targets, request.targetHandle, sources[i]);
      FromSourceDistinct(g.edges, targets, request.targetHandle, sources[j]);
    }
    FlatMapDistinct(sources, from, Itself);
    var additions := FanOut(g, source, handle, target, request.targetHandle);
    forall i, j | 0 <= i < j < |additions| ensures additions[i] != additions[j] {
      assert Itself(additions[i]) != Itself(additions[j]);
    }
  }

  // --- every end is a step ---

  ghost predicate AdditionsKnown(g: Graph, additions: seq<Addition>) {
    forall a | a in additions :: a.source in NodeIds(g.nodes) && a.target in NodeIds(g.nodes)
  }

  lemma MembersKnown(nodes: seq<Node>, frame: Id)
    ensures forall id | id in MemberIdsOf(nodes, frame) :: id in NodeIds(nodes)
  {
    MembersAre(nodes, frame);
  }

  // A request between nodes of the graph, sound or not, names no other node.
  lemma ExpansionKnown(g: Graph, request: Request, throughStub: bool, choose: OutletChoice)
    requires Expand(g, request, throughStub, choose).Some?
    requires request.source.value in NodeIds(g.nodes) && request.target.value in NodeIds(g.nodes)
    ensures AdditionsKnown(g, Expand(g, request, throughStub, choose).value)
  {
    hide OutletPorts, EntryIds, StoredKeys, NodeIds;
    var source, target := request.source.value, request.target.value;
    var handle := choose(g, source, request.sourceHandle);
    MembersKnown(g.nodes, source);
    MembersKnown(g.nodes, target);
    forall a | a in Expand(g, request, throughStub, choose).value
      ensures a.source in NodeIds(g.nodes) && a.target in NodeIds(g.nodes) {
      FanOutExact(g, source, handle, target, request.targetHandle, a);
      if IsFrame(g.nodes, source) { OutletsAreMembers(g.nodes, g.edges, source, Port(a.source, a.sourceHandle)); }
      EntriesAreMembers(g.nodes, g.edges, target);
    }
  }

  lemma FrameHasMember(g: Graph, frame: Id)
    requires NoUndersizedGroup(g.nodes) && IsFrame(g.nodes, frame)
    ensures MemberIdsOf(g.nodes, frame) != []
  {
    var steps := StepsOf(g.nodes, frame);
    assert |steps| >= 2 && steps[0] in steps;
    assert steps[0] in Filter(g.nodes, IsMemberOf(frame));
  }

  // A member is a step, and so is a node that is no frame.
  lemma MemberIsStep(g: Graph, frame: Id, id: Id)
    requires CanvasShaped(g) && id in MemberIdsOf(g.nodes, frame)
    ensures id in NodeIds(g.nodes) && !IsFrame(g.nodes, id)
  {
    MembersAre(g.nodes, frame);
    var n :| n in g.nodes && n.id == id && n.parentId == Some(frame);
    assert MemberOk(g.nodes, n);
    UniqueNode(g.nodes, Lookup(g.nodes, id).value, n);
  }

  lemma SourcesAreSteps(g: Graph, source: Id, handle: Option<string>, p: Port)
    requires CanvasShaped(g) && source in NodeIds(g.nodes) && p in StoredSources(g, source, handle)
    ensures p.nodeId in NodeIds(g.nodes) && !IsFrame(g.nodes, p.nodeId)
  {
    hide CanvasShaped, IsFrame, OutletPorts;
    if IsFrame(g.nodes, source) {
      OutletsAreMembers(g.nodes, g.edges, source, p);
      MemberIsStep(g, source, p.nodeId);
    }
  }

  // On a sound canvas the frame itself is never stored: a whole Group with no
  // cycle has an entry.
  lemma TargetsAreSteps(g: Graph, target: Id, t: Id)
    requires CanvasSound(g) && target in NodeIds(g.nodes) && t in StoredTargets(g, target)
    ensures t in NodeIds(g.nodes) && !IsFrame(g.nodes, t)
  {
    hide CanvasShaped, IsFrame, EntryIds, NoUndersizedGroup, Acyclic;
    if IsFrame(g.nodes, target) {
      FrameHasMember(g, target);
      GroupHasEntry(g.nodes, g.edges, target);
      EntriesAreMembers(g.nodes, g.edges, target);
      MemberIsStep(g, target, t);
    }
  }

  lemma NotFrame(nodes: seq<Node>, id: Id)
    requires UniqueNodeIds(nodes) && !IsFrame(nodes, id)
    ensures forall n | n in nodes && n.id == id :: !IsGroup(n)
  {
    forall n | n in nodes && n.id == id ensures !IsGroup(n) { UniqueNode(nodes, Lookup(nodes, id).value, n); }
  }

  // On a sound canvas a request between its nodes comes to edges between steps.
  lemma ExpansionJoinsSteps(g: Graph, request: Request, throughStub: bool, choose: OutletChoice)
    requires CanvasSound(g) && Expand(g, request, throughStub, choose).Some?
    requires request.source.value in NodeIds(g.nodes) && request.target.value in NodeIds(g.nodes)
    ensures JoinsSteps(g, Expand(g, request, throughStub, choose).value)
  {
    hide StoredSources, StoredTargets, CanvasSound, IsFrame, StoredKeys;
    var source, target := request.source.value, request.target.value;
    var handle := choose(g, source, request.sourceHandle);
    forall a | a in Expand(g, request, throughStub, choose).value
      ensures a.source in NodeIds(g.nodes) && a.target in NodeIds(g.nodes)
      ensures forall n | n in g.nodes && (n.id == a.source || n.id == a.target) :: !IsGroup(n)
    {
      FanOutExact(g, source, handle, target, request.targetHandle, a);
      SoundShaped(g);
      SourcesAreSteps(g, source, handle, Port(a.source, a.sourceHandle));
      TargetsAreSteps(g, target, a.target);
      ShapedUnique(g);
      NotFrame(g.nodes, a.source);
      NotFrame(g.nodes, a.target);
    }
  }

  lemma SoundShaped(g: Graph)
    requires CanvasSound(g)
    ensures CanvasShaped(g)
  {
  }
}
