// Replacing a set of stored edges by a star through a new step, as Insert step
// and Add step after do, and the port keys the replacement groups edges by.
module CanvasInsertion {
  import opened Reachability
  import opened Sequences
  import opened WorkflowGraph

  // --- port keys ---

  datatype Port = Port(nodeId: Id, handle: Option<string>)

  function EscapeChar(c: char): string {
    if c == '%' then "%25" else if c == '/' then "%2F" else [c]
  }

  function EscapePortPart(text: string): string {
    if text == "" then "" else EscapeChar(text[0]) + EscapePortPart(text[1..])
  }

  function GroupPortKey(port: Port): string {
    if port.handle.None? then EscapePortPart(port.nodeId)
    else EscapePortPart(port.nodeId) + "/" + EscapePortPart(port.handle.value)
  }

  lemma {:induction false} EscapeHasNoSlash(text: string)
    ensures '/' !in EscapePortPart(text)
  {
    if text != "" { EscapeHasNoSlash(text[1..]); }
  }

  lemma {:induction false} EscapeInjective(a: string, b: string)
    requires EscapePortPart(a) == EscapePortPart(b)
    ensures a == b
  {
    if a != "" && b != "" {
      var x, y := EscapePortPart(a), EscapePortPart(b);
      assert x[0] == y[0];
      assert |EscapeChar(a[0])| == 3 <==> x[0] == '%';
      assert |EscapeChar(b[0])| == 3 <==> y[0] == '%';
      if x[0] == '%' { assert x[2] == y[2]; }
      assert a[0] == b[0];
      assert EscapePortPart(a[1..]) == x[|EscapeChar(a[0])|..];
      assert EscapePortPart(b[1..]) == y[|EscapeChar(b[0])|..];
      EscapeInjective(a[1..], b[1..]);
      assert a == [a[0]] + a[1..] && b == [b[0]] + b[1..];
    }
  }

  // Two different ports never share a key.
  lemma PortKeyInjective(p: Port, q: Port)
    ensures GroupPortKey(p) == GroupPortKey(q) <==> p == q
  {
    if GroupPortKey(p) == GroupPortKey(q) {
      var a, b := EscapePortPart(p.nodeId), EscapePortPart(q.nodeId);
      EscapeHasNoSlash(p.nodeId);
      EscapeHasNoSlash(q.nodeId);
      var key := GroupPortKey(p);
      if p.handle.Some? { assert key[|a|] == '/'; }
      if q.handle.Some? { assert GroupPortKey(q)[|b|] == '/'; }
      if p.handle.None? {
        assert '/' !in key;
        EscapeInjective(p.nodeId, q.nodeId);
      } else {
        assert q.handle.Some?;
        assert forall i | 0 <= i < |a| :: key[i] == a[i] && key[i] != '/';
        assert forall i | 0 <= i < |b| :: key[i] == b[i] && key[i] != '/';
        assert |a| == |b|;
        assert a == key[..|a|] && b == key[..|b|];
        assert EscapePortPart(p.handle.value) == key[|a| + 1..];
        assert EscapePortPart(q.handle.value) == key[|b| + 1..];
        EscapeInjective(p.nodeId, q.nodeId);
        EscapeInjective(p.handle.value, q.handle.value);
      }
    }
  }

  // --- the first edge of each port ---

  function SourcePort(e: Edge): Port { Port(e.source, e.sourceHandle) }

  function TargetPort(e: Edge): Port { Port(e.target, e.targetHandle) }

  function SourceKey(e: Edge): string { GroupPortKey(SourcePort(e)) }

  function TargetKey(e: Edge): string { GroupPortKey(TargetPort(e)) }

  function KeyDiffers(key: Edge -> string, k: string): Edge -> bool {
    (e: Edge) => key(e) != k
  }

  // The head of each `Map.groupBy` bucket, buckets in order of first sight.
  function FirstPerKey(edges: seq<Edge>, key: Edge -> string): seq<Edge>
    decreases |edges|
  {
    if edges == [] then []
    else [edges[0]] + FirstPerKey(Filter(edges[1..], KeyDiffers(key, key(edges[0]))), key)
  }

  lemma {:induction false} FirstPerKeyDistinct(edges: seq<Edge>, key: Edge -> string)
    ensures forall e | e in FirstPerKey(edges, key) :: e in edges
    ensures DistinctBy(FirstPerKey(edges, key), key)
    decreases |edges|
  {
    if edges != [] {
      var rest := Filter(edges[1..], KeyDiffers(key, key(edges[0])));
      FirstPerKeyDistinct(rest, key);
      DistinctByConcat([edges[0]], FirstPerKey(rest, key), key);
    }
  }

  lemma {:induction false} FirstWithKey(edges: seq<Edge>, key: Edge -> string, e: Edge) returns (d: Edge)
    requires e in edges
    ensures d in FirstPerKey(edges, key) && key(d) == key(e)
    decreases |edges|
  {
    if key(e) == key(edges[0]) {
      d := edges[0];
    } else {
      d := FirstWithKey(Filter(edges[1..], KeyDiffers(key, key(edges[0]))), key, e);
    }
  }

  // --- the replacement ---

  ghost predicate NewTo(edges: seq<Edge>, hub: Id) {
    forall e | e in edges :: e.source != hub && e.target != hub
  }

  datatype Addition = Addition(source: Id, sourceHandle: Option<string>, target: Id, targetHandle: Option<string>)

  function Named(ids: set<Id>): Edge -> bool { (e: Edge) => e.id in ids }

  function NotNamed(ids: set<Id>): Edge -> bool { (e: Edge) => e.id !in ids }

  function IncomingTo(hub: Id): Edge -> Addition {
    (e: Edge) => Addition(e.source, e.sourceHandle, hub, None)
  }

  function OutgoingFrom(hub: Id, outlet: Option<string>): Edge -> Addition {
    (e: Edge) => Addition(hub, outlet, e.target, e.targetHandle)
  }

  // One connection into the new step per source port, and one out of it per
  // target port. `outlet` is the handle chosen for the new step.
  function ReplacementPlan(edges: seq<Edge>, edgeIds: set<Id>, hub: Id, outlet: Option<string>): seq<Addition> {
    var replaced := Filter(edges, Named(edgeIds));
    Map(FirstPerKey(replaced, SourceKey), IncomingTo(hub)) + Map(FirstPerKey(replaced, TargetKey),
      OutgoingFrom(hub, outlet))
  }

  function WithIds(additions: seq<Addition>, ids: seq<Id>): seq<Edge>
    requires |ids| == |additions|
  {
    seq(|additions|, i requires 0 <= i < |additions| =>
      Edge(ids[i], additions[i].source, additions[i].target, additions[i].sourceHandle, additions[i].targetHandle))
  }

  function EdgesAfter(edges: seq<Edge>, edgeIds: set<Id>, hub: Id, outlet: Option<string>, ids: seq<Id>): seq<Edge>
    requires |ids| == |ReplacementPlan(edges, edgeIds, hub, outlet)|
  {
    Filter(edges, NotNamed(edgeIds)) + WithIds(ReplacementPlan(edges, edgeIds, hub, outlet), ids)
  }

  function Tails(edges: seq<Edge>): set<Id> { set e | e in edges :: e.source }

  function Heads(edges: seq<Edge>): set<Id> { set e | e in edges :: e.target }

  lemma SourcePortsKept(replaced: seq<Edge>, p: Port)
    ensures (exists d :: d in FirstPerKey(replaced, SourceKey) && SourcePort(d) == p)
       <==> exists e :: e in replaced && SourcePort(e) == p
  {
    FirstPerKeyDistinct(replaced, SourceKey);
    if e :| e in replaced && SourcePort(e) == p {
      var d := FirstWithKey(replaced, SourceKey, e);
      PortKeyInjective(SourcePort(d), p);
    }
  }

  lemma TargetPortsKept(replaced: seq<Edge>, p: Port)
    ensures (exists d :: d in FirstPerKey(replaced, TargetKey) && TargetPort(d) == p)
       <==> exists e :: e in replaced && TargetPort(e) == p
  {
    FirstPerKeyDistinct(replaced, TargetKey);
    if e :| e in replaced && TargetPort(e) == p {
      var d := FirstWithKey(replaced, TargetKey, e);
      PortKeyInjective(TargetPort(d), p);
    }
  }

  function Incoming(p: Port, hub: Id): Addition { Addition(p.nodeId, p.handle, hub, None) }

  function Outgoing(p: Port, hub: Id, outlet: Option<string>): Addition { Addition(hub, outlet, p.nodeId, p.handle) }

  // The plan connects the new step to exactly the replaced ports, each on its
  // own side and once.
  lemma PlanPorts(edges: seq<Edge>, edgeIds: set<Id>, hub: Id, outlet: Option<string>, p: Port)
    requires NewTo(edges, hub) && p.nodeId != hub
    ensures var replaced := Filter(edges, Named(edgeIds));
            var plan := ReplacementPlan(edges, edgeIds, hub, outlet);
            && (Incoming(p, hub) in plan <==> exists e :: e in replaced && SourcePort(e) == p)
            && (Outgoing(p, hub, outlet) in plan <==> exists e :: e in replaced && TargetPort(e) == p)
  {
    var replaced := Filter(edges, Named(edgeIds));
    var sources, targets := FirstPerKey(replaced, SourceKey), FirstPerKey(replaced, TargetKey);
    SourcePortsKept(replaced, p);
    TargetPortsKept(replaced, p);
    FirstPerKeyDistinct(replaced, SourceKey);
    FirstPerKeyDistinct(replaced, TargetKey);
    MapHas(sources, IncomingTo(hub), Incoming(p, hub));
    MapHas(sources, IncomingTo(hub), Outgoing(p, hub, outlet));
    MapHas(targets, OutgoingFrom(hub, outlet), Outgoing(p, hub, outlet));
    MapHas(targets, OutgoingFrom(hub, outlet), Incoming(p, hub));
    assert forall e :: IncomingTo(hub)(e) == Incoming(p, hub) <==> SourcePort(e) == p;
    assert forall e :: OutgoingFrom(hub, outlet)(e) == Outgoing(p, hub, outlet) <==> TargetPort(e) == p;
    assert forall e | e in sources :: IncomingTo(hub)(e) != Outgoing(p, hub, outlet);
    assert forall e | e in targets :: OutgoingFrom(hub, outlet)(e) != Incoming(p, hub);
  }

  lemma PlanRepeatsNothing(edges: seq<Edge>, edgeIds: set<Id>, hub: Id, outlet: Option<string>)
    requires NewTo(edges, hub)
    ensures Distinct(ReplacementPlan(edges, edgeIds, hub, outlet))
  {
    var replaced := Filter(edges, Named(edgeIds));
    var sources, targets := FirstPerKey(replaced, SourceKey), FirstPerKey(replaced, TargetKey);
    FirstPerKeyDistinct(replaced, SourceKey);
    FirstPerKeyDistinct(replaced, TargetKey);
    var plan := ReplacementPlan(edges, edgeIds, hub, outlet);
    forall i, j | 0 <= i < j < |plan| ensures plan[i] != plan[j] {
      if j < |sources| {
        assert SourceKey(sources[i]) != SourceKey(sources[j]);
      } else if i >= |sources| {
        assert TargetKey(targets[i - |sources|]) != TargetKey(targets[j - |sources|]);
      } else {
        assert sources[i] in sources;
      }
    }
  }

  function AdditionArcs(additions: seq<Addition>): Arcs {
    set a | a in additions :: (a.source, a.target)
  }

  lemma WithIdsArcs(additions: seq<Addition>, ids: seq<Id>)
    requires |ids| == |additions|
    ensures ArcsOf(WithIds(additions, ids)) == AdditionArcs(additions)
  {
    var edges := WithIds(additions, ids);
    forall a | a in additions ensures (a.source, a.target) in ArcsOf(edges) {
      var i :| 0 <= i < |additions| && additions[i] == a;
      assert ArcOf(edges[i]) == (a.source, a.target);
    }
    forall e | e in edges ensures ArcOf(e) in AdditionArcs(additions) {
      var i :| 0 <= i < |edges| && edges[i] == e;
      assert additions[i] in additions;
    }
  }

  lemma SideArcs(edges: seq<Edge>, make: Edge -> Addition)
    ensures forall arc :: arc in AdditionArcs(Map(edges, make))
             <==> exists e :: e in edges && arc == (make(e).source, make(e).target)
  {
  }

  lemma FirstSources(replaced: seq<Edge>)
    ensures Tails(FirstPerKey(replaced, SourceKey)) == Tails(replaced)
  {
    FirstPerKeyDistinct(replaced, SourceKey);
    forall e | e in replaced ensures e.source in Tails(FirstPerKey(replaced, SourceKey)) {
      SourcePortsKept(replaced, SourcePort(e));
    }
  }

  lemma FirstTargets(replaced: seq<Edge>)
    ensures Heads(FirstPerKey(replaced, TargetKey)) == Heads(replaced)
  {
    FirstPerKeyDistinct(replaced, TargetKey);
    forall e | e in replaced ensures e.target in Heads(FirstPerKey(replaced, TargetKey)) {
      TargetPortsKept(replaced, TargetPort(e));
    }
  }

  // The plan is a star: every replaced source into the new step, and the new
  // step into every replaced target.
  lemma PlanIsStar(edges: seq<Edge>, edgeIds: set<Id>, hub: Id, outlet: Option<string>)
    ensures var replaced := Filter(edges, Named(edgeIds));
            AdditionArcs(ReplacementPlan(edges, edgeIds, hub, outlet)) == Star(Tails(replaced), hub, Heads(replaced))
  {
    var replaced := Filter(edges, Named(edgeIds));
    var sources, targets := FirstPerKey(replaced, SourceKey), FirstPerKey(replaced, TargetKey);
    FirstSources(replaced);
    FirstTargets(replaced);
    SideArcs(sources, IncomingTo(hub));
    SideArcs(targets, OutgoingFrom(hub, outlet));
    var incoming, outgoing := Map(sources, IncomingTo(hub)), Map(targets, OutgoingFrom(hub, outlet));
    assert AdditionArcs(incoming + outgoing) == AdditionArcs(incoming) + AdditionArcs(outgoing);
    assert AdditionArcs(incoming) == set s | s in Tails(replaced) :: (s, hub) by {
      forall s | s in Tails(replaced) ensures (s, hub) in AdditionArcs(incoming) {
        var e :| e in sources && e.source == s;
        assert (s, hub) == (IncomingTo(hub)(e).source, IncomingTo(hub)(e).target);
      }
    }
    assert AdditionArcs(outgoing) == set t | t in Heads(replaced) :: (hub, t) by {
      forall t | t in Heads(replaced) ensures (hub, t) in AdditionArcs(outgoing) {
        var e :| e in targets && e.target == t;
        assert (hub, t) == (OutgoingFrom(hub, outlet)(e).source, OutgoingFrom(hub, outlet)(e).target);
      }
    }
  }

  lemma AfterArcs(edges: seq<Edge>, edgeIds: set<Id>, hub: Id, outlet: Option<string>, ids: seq<Id>)
    requires |ids| == |ReplacementPlan(edges, edgeIds, hub, outlet)|
    ensures var replaced := Filter(edges, Named(edgeIds));
            ArcsOf(EdgesAfter(edges, edgeIds, hub, outlet, ids))
            == ArcsOf(Filter(edges, NotNamed(edgeIds))) + Star(Tails(replaced), hub, Heads(replaced))
  {
    var kept, added := Filter(edges, NotNamed(edgeIds)), WithIds(ReplacementPlan(edges, edgeIds, hub, outlet), ids);
    WithIdsArcs(ReplacementPlan(edges, edgeIds, hub, outlet), ids);
    PlanIsStar(edges, edgeIds, hub, outlet);
    assert ArcsOf(kept + added) == ArcsOf(kept) + ArcsOf(added);
  }

  // --- paths across the replacement ---

  lemma OldWithinProduct(edges: seq<Edge>, edgeIds: set<Id>)
    ensures var replaced := Filter(edges, Named(edgeIds));
            ArcsOf(edges) <= ArcsOf(Filter(edges, NotNamed(edgeIds))) + Product(Tails(replaced), Heads(replaced))
  {
  }

  // Between old steps the new graph has the paths of the old one with every
  // replaced source joined to every replaced target. No old path is lost.
  lemma InsertionPaths(edges: seq<Edge>, edgeIds: set<Id>, hub: Id, outlet: Option<string>, ids: seq<Id>, a: Id, b: Id)
    requires |ids| == |ReplacementPlan(edges, edgeIds, hub, outlet)|
    requires NewTo(edges, hub) && a != hub && b != hub
    ensures var replaced := Filter(edges, Named(edgeIds));
            var after := ArcsOf(EdgesAfter(edges, edgeIds, hub, outlet, ids));
            && (Reaches(after, a, b) <==> Reaches(ArcsOf(edges) + Product(Tails(replaced), Heads(replaced)), a, b))
            && (Reaches(ArcsOf(edges), a, b) ==> Reaches(after, a, b))
  {
    var replaced, kept := Filter(edges, Named(edgeIds)), Filter(edges, NotNamed(edgeIds));
    AfterArcs(edges, edgeIds, hub, outlet, ids);
    OldWithinProduct(edges, edgeIds);
    StarIsProduct(ArcsOf(kept), Tails(replaced), hub, Heads(replaced), a, b);
    assert ArcsOf(kept) <= ArcsOf(edges);
    var full := ArcsOf(kept) + Product(Tails(replaced), Heads(replaced));
    assert full == ArcsOf(edges) + Product(Tails(replaced), Heads(replaced));
    if Reaches(ArcsOf(edges), a, b) { ReachesMono(ArcsOf(edges), full, a, b); }
  }

  ghost predicate JoinedAlready(edges: seq<Edge>, edgeIds: set<Id>) {
    var replaced := Filter(edges, Named(edgeIds));
    forall s, t | s in Tails(replaced) && t in Heads(replaced) :: Reaches(ArcsOf(edges), s, t)
  }

  ghost predicate SamePaths(edges: seq<Edge>, after: seq<Edge>, hub: Id) {
    forall a: Id, b: Id :: a != hub && b != hub ==> (Reaches(ArcsOf(after), a, b) <==> Reaches(ArcsOf(edges), a, b))
  }

  // Reachability between old steps is unchanged exactly when every replaced
  // source already led to every replaced target.
  lemma InsertionExact(edges: seq<Edge>, edgeIds: set<Id>, hub: Id, outlet: Option<string>, ids: seq<Id>)
    requires |ids| == |ReplacementPlan(edges, edgeIds, hub, outlet)| && NewTo(edges, hub)
    ensures SamePaths(edges, EdgesAfter(edges, edgeIds, hub, outlet, ids), hub) <==> JoinedAlready(edges, edgeIds)
  {
    var replaced, stored := Filter(edges, Named(edgeIds)), ArcsOf(edges);
    var after := EdgesAfter(edges, edgeIds, hub, outlet, ids);
    var full := stored + Product(Tails(replaced), Heads(replaced));
    if SamePaths(edges, after, hub) {
      forall s, t | s in Tails(replaced) && t in Heads(replaced) ensures Reaches(stored, s, t) {
        assert s != hub && t != hub;
        InsertionPaths(edges, edgeIds, hub, outlet, ids, s, t);
        ReachesArc(full, s, t);
      }
    }
    if JoinedAlready(edges, edgeIds) {
      forall a: Id, b: Id | a != hub && b != hub ensures Reaches(ArcsOf(after), a, b) <==> Reaches(stored, a, b) {
        InsertionPaths(edges, edgeIds, hub, outlet, ids, a, b);
        if Reaches(full, a, b) {
          forall x: Id, y: Id | (x, y) in full ensures Reaches(stored, x, y) {
            if (x, y) in stored { ReachesArc(stored, x, y); }
          }
          Simulation(full, stored, a, b);
        }
      }
    }
  }

  // Edges sharing their source step or their target step, as one outlet's
  // connections or one collapsed card's do, meet that condition.
  lemma SharedEndJoined(edges: seq<Edge>, edgeIds: set<Id>)
    requires var replaced := Filter(edges, Named(edgeIds));
             (forall d, e | d in replaced && e in replaced :: d.source == e.source)
             || (forall d, e | d in replaced && e in replaced :: d.target == e.target)
    ensures JoinedAlready(edges, edgeIds)
  {
    var replaced := Filter(edges, Named(edgeIds));
    forall s, t | s in Tails(replaced) && t in Heads(replaced) ensures Reaches(ArcsOf(edges), s, t) {
      var d :| d in replaced && d.source == s;
      var e :| e in replaced && e.target == t;
      if d.source == e.source { assert ArcOf(e) in ArcsOf(edges); ReachesArc(ArcsOf(edges), s, t); }
      else { assert ArcOf(d) in ArcsOf(edges); ReachesArc(ArcsOf(edges), s, t); }
    }
  }

  lemma InsertionAcyclic(edges: seq<Edge>, edgeIds: set<Id>, hub: Id, outlet: Option<string>, ids: seq<Id>)
    requires |ids| == |ReplacementPlan(edges, edgeIds, hub, outlet)| && NewTo(edges, hub)
    ensures var replaced := Filter(edges, Named(edgeIds));
            Acyclic(ArcsOf(EdgesAfter(edges, edgeIds, hub, outlet, ids)))
            <==> Acyclic(ArcsOf(edges) + Product(Tails(replaced), Heads(replaced)))
  {
    var replaced, kept := Filter(edges, Named(edgeIds)), Filter(edges, NotNamed(edgeIds));
    AfterArcs(edges, edgeIds, hub, outlet, ids);
    OldWithinProduct(edges, edgeIds);
    StarAcyclic(ArcsOf(kept), Tails(replaced), hub, Heads(replaced));
    assert ArcsOf(kept) <= ArcsOf(edges);
    assert ArcsOf(kept) + Product(Tails(replaced), Heads(replaced)) ==
           ArcsOf(edges) + Product(Tails(replaced), Heads(replaced));
  }

  // Under the same condition an acyclic canvas stays acyclic.
  lemma InsertionKeepsAcyclic(edges: seq<Edge>, edgeIds: set<Id>, hub: Id, outlet: Option<string>, ids: seq<Id>)
    requires |ids| == |ReplacementPlan(edges, edgeIds, hub, outlet)| && NewTo(edges, hub)
    requires Acyclic(ArcsOf(edges)) && JoinedAlready(edges, edgeIds)
    ensures Acyclic(ArcsOf(EdgesAfter(edges, edgeIds, hub, outlet, ids)))
  {
    var replaced := Filter(edges, Named(edgeIds));
    var full := ArcsOf(edges) + Product(Tails(replaced), Heads(replaced));
    InsertionAcyclic(edges, edgeIds, hub, outlet, ids);
    forall a: Id ensures !Reaches(full, a, a) {
      if Reaches(full, a, a) {
        forall x: Id, y: Id | (x, y) in full ensures Reaches(ArcsOf(edges), x, y) {
          if (x, y) in ArcsOf(edges) { ReachesArc(ArcsOf(edges), x, y); }
        }
        Simulation(full, ArcsOf(edges), a, a);
      }
    }
  }
}
