// The two worklist walks every graph question goes through, each proved to
// compute reachability on any graph, cyclic ones included.
module GraphWalks {
  import opened Reachability
  import opened WorkflowGraph

  // `index` files the `side` end of each edge of `edges` under its other end.
  ghost predicate Indexes(index: map<Id, seq<Id>>, edges: seq<Edge>, key: Edge -> Id, value: Edge -> Id) {
    && (forall k, v :: k in index && v in index[k] ==> exists e :: e in edges && key(e) == k && value(e) == v)
    && (forall e | e in edges :: key(e) in index && value(e) in index[key(e)])
  }

  method IndexEdges(edges: seq<Edge>, key: Edge -> Id, value: Edge -> Id) returns (index: map<Id, seq<Id>>)
    ensures Indexes(index, edges, key, value)
  {
    index := map[];
    for i := 0 to |edges|
      invariant Indexes(index, edges[..i], key, value)
    {
      var e := edges[i];
      var filed := if key(e) in index then index[key(e)] else [];
      var grown := index[key(e) := filed + [value(e)]];
      assert edges[..i + 1] == edges[..i] + [e];
      forall k, v | k in grown && v in grown[k]
        ensures exists d :: d in edges[..i + 1] && key(d) == k && value(d) == v
      {
        if k in index && v in index[k] {
          var d :| d in edges[..i] && key(d) == k && value(d) == v;
          assert d in edges[..i + 1];
        } else {
          assert e in edges[..i + 1] && key(e) == k && value(e) == v;
        }
      }
      index := grown;
    }
    assert edges[..|edges|] == edges;
  }

  function Filed(index: map<Id, seq<Id>>, id: Id): seq<Id> {
    if id in index then index[id] else []
  }

  function Elements(s: seq<Id>): set<Id> {
    set x | x in s
  }

  lemma ElementsConcat(s: seq<Id>, t: seq<Id>)
    ensures Elements(s + t) == Elements(s) + Elements(t)
  {
  }

  ghost predicate NoArcInto(arcs: Arcs, v: Id) {
    forall u: Id :: (u, v) !in arcs
  }

  ghost function EndIds(edges: seq<Edge>): set<Id> {
    (set e | e in edges :: e.source) + (set e | e in edges :: e.target)
  }

  // `upstream` holds the tails of every arc into a visited node that is not pending.
  ghost predicate WalkedBack(arcs: Arcs, visited: set<Id>, pending: seq<Id>, upstream: set<Id>) {
    forall u: Id, v: Id :: (u, v) in arcs && v in visited && v !in pending ==> u in upstream
  }

  lemma {:induction false} BackClosedReachesIn(arcs: Arcs, visited: set<Id>, upstream: set<Id>, u: Id, t: Id, n: nat)
    requires WalkedBack(arcs, visited, [], upstream) && upstream <= visited && t in visited
    requires ReachesIn(arcs, u, t, n)
    ensures u in upstream
    decreases n
  {
    if n > 1 {
      var m: Id :| (u, m) in arcs && ReachesIn(arcs, m, t, n - 1);
      BackClosedReachesIn(arcs, visited, upstream, m, t, n - 1);
    }
  }

  // Everything in `found` leads to `target` or, for a visited node, is it.
  lemma BackClosed(arcs: Arcs, visited: set<Id>, upstream: set<Id>, target: Id)
    requires target in visited && upstream <= visited && WalkedBack(arcs, visited, [], upstream)
    ensures forall u: Id | Reaches(arcs, u, target) :: u in upstream
  {
    forall u: Id | Reaches(arcs, u, target) ensures u in upstream {
      var n: nat :| ReachesIn(arcs, u, target, n);
      BackClosedReachesIn(arcs, visited, upstream, u, target, n);
    }
  }

  ghost predicate LeadsTo(arcs: Arcs, found: set<Id>, target: Id) {
    forall v | v in found :: Reaches(arcs, v, target)
  }

  // The inner loop: file every source as upstream and queue the unseen ones.
  method VisitSources(sources: seq<Id>, visited: set<Id>, pending: seq<Id>, upstream: set<Id>)
    returns (visited': set<Id>, pending': seq<Id>, upstream': set<Id>)
    ensures upstream' == upstream + Elements(sources)
    ensures visited' == visited + Elements(sources)
    ensures Elements(pending') == Elements(pending) + (Elements(sources) - visited)
    ensures visited' == visited ==> pending' == pending
  {
    visited', pending', upstream' := visited, pending, upstream;
    for i := 0 to |sources|
      invariant upstream' == upstream + Elements(sources[..i])
      invariant visited' == visited + Elements(sources[..i])
      invariant Elements(pending') == Elements(pending) + (Elements(sources[..i]) - visited)
      invariant visited' == visited ==> pending' == pending
    {
      var source := sources[i];
      assert sources[..i + 1] == sources[..i] + [source];
      ElementsConcat(sources[..i], [source]);
      upstream' := upstream' + {source};
      if source !in visited' {
        visited' := visited' + {source};
        ElementsConcat(pending', [source]);
        pending' := pending' + [source];
      }
    }
    assert sources[..|sources|] == sources;
  }

  lemma FiledSources(edges: seq<Edge>, index: map<Id, seq<Id>>, nodeId: Id)
    requires Indexes(index, edges, (e: Edge) => e.target, (e: Edge) => e.source) && nodeId != ""
    ensures forall u: Id :: u in Filed(index, nodeId) <==> (u, nodeId) in SolidArcs(edges)
    ensures Elements(Filed(index, nodeId)) <= EndIds(edges)
  {
  }

  // One turn of the outer loop keeps what is upstream honest and complete.
  lemma BackTurn(arcs: Arcs, target: Id, nodeId: Id, sources: set<Id>,
                 visited: set<Id>, before: seq<Id>, after: seq<Id>, upstream: set<Id>)
    requires forall u: Id :: u in sources <==> (u, nodeId) in arcs
    requires nodeId in visited && LeadsTo(arcs, visited - {target}, target) && LeadsTo(arcs, upstream, target)
    requires WalkedBack(arcs, visited, before + [nodeId], upstream)
    requires Elements(after) == Elements(before) + (sources - visited)
    ensures LeadsTo(arcs, (visited + sources) - {target}, target) && LeadsTo(arcs, upstream + sources, target)
    ensures WalkedBack(arcs, visited + sources, after, upstream + sources)
  {
    forall u | u in sources ensures Reaches(arcs, u, target) {
      ReachesArc(arcs, u, nodeId);
      if nodeId != target { ReachesTrans(arcs, u, nodeId, target); }
    }
    forall u: Id, v: Id | (u, v) in arcs && v in visited + sources && v !in after
      ensures u in upstream + sources
    {
      assert v !in Elements(after);
      if v != nodeId {
        assert v in visited && v !in Elements(before);
        assert v !in before + [nodeId];
      }
    }
  }

  ghost predicate IsUpstream(upstream: set<Id>, edges: seq<Edge>, target: Id) {
    forall u: Id :: u in upstream <==> Reaches(SolidArcs(edges), u, target)
  }

  // The answer never names its own target exactly on the graphs whose walked
  // arcs have no cycle.
  lemma TargetExcludedIff(edges: seq<Edge>)
    ensures (forall target: Id, upstream: set<Id> :: IsUpstream(upstream, edges, target) ==> target !in upstream)
       <==> Acyclic(SolidArcs(edges))
  {
    if !Acyclic(SolidArcs(edges)) {
      var target: Id :| Reaches(SolidArcs(edges), target, target);
      AncestorsAreUpstream(edges, target);
      assert target in Ancestors(SolidArcs(edges), target);
    }
  }

  lemma AncestorsAreUpstream(edges: seq<Edge>, target: Id)
    ensures IsUpstream(Ancestors(SolidArcs(edges), target), edges, target)
  {
    forall u: Id | Reaches(SolidArcs(edges), u, target) ensures u in TailsOf(SolidArcs(edges)) {
      ReachesEnds(SolidArcs(edges), u, target);
      var m: Id :| (u, m) in SolidArcs(edges);
      assert (u, m).0 == u;
    }
  }

  // Two steps leading to each other: the answer for one of them holds it.
  lemma TargetOnCycle(a: Id, b: Id, upstream: set<Id>)
    requires a != "" && b != ""
    requires IsUpstream(upstream, [Edge("1", a, b, None, None), Edge("2", b, a, None, None)], a)
    ensures a in upstream
  {
    var edges := [Edge("1", a, b, None, None), Edge("2", b, a, None, None)];
    var arcs := SolidArcs(edges);
    assert ArcOf(edges[0]) in arcs && ArcOf(edges[1]) in arcs;
    ReachesArc(arcs, a, b);
    ReachesArc(arcs, b, a);
    ReachesTrans(arcs, a, b, a);
  }

  // What holds between two turns of the outer loop.
  ghost predicate WalkingBack(edges: seq<Edge>, target: Id, visited: set<Id>, pending: seq<Id>, upstream: set<Id>) {
    var arcs := SolidArcs(edges);
    && target in visited && upstream <= visited <= EndIds(edges) + {target} && Elements(pending) <= visited
    && LeadsTo(arcs, visited - {target}, target) && LeadsTo(arcs, upstream, target)
    && WalkedBack(arcs, visited, pending, upstream)
  }

  // An empty id is passed over: no arc the walk follows leads into it.
  lemma SkipTurn(edges: seq<Edge>, target: Id, visited: set<Id>, rest: seq<Id>, upstream: set<Id>)
    requires WalkingBack(edges, target, visited, rest + [""], upstream)
    ensures WalkingBack(edges, target, visited, rest, upstream)
  {
    ElementsConcat(rest, [""]);
    forall u: Id, v: Id | (u, v) in SolidArcs(edges) && v in visited && v !in rest ensures u in upstream {
      assert v !in rest + [""];
    }
  }

  lemma SourcesTurn(edges: seq<Edge>, target: Id, nodeId: Id, sources: set<Id>, visited: set<Id>, rest: seq<Id>,
                    after: seq<Id>, upstream: set<Id>)
    requires forall u: Id :: u in sources <==> (u, nodeId) in SolidArcs(edges)
    requires sources <= EndIds(edges) && Elements(after) == Elements(rest) + (sources - visited)
    requires WalkingBack(edges, target, visited, rest + [nodeId], upstream)
    ensures WalkingBack(edges, target, visited + sources, after, upstream + sources)
  {
    hide SolidArcs, EndIds, LeadsTo, WalkedBack;
    ElementsConcat(rest, [nodeId]);
    assert nodeId in Elements([nodeId]);
    BackTurn(SolidArcs(edges), target, nodeId, sources, visited, rest, after, upstream);
  }

  // Either a node is seen for the first time or the queue gets shorter.
  lemma TurnShrinks(universe: set<Id>, visited: set<Id>, sources: set<Id>)
    requires visited + sources <= universe
    ensures universe - (visited + sources) <= universe - visited
    ensures universe - (visited + sources) == universe - visited ==> visited + sources == visited
  {
    assert visited == universe - (universe - visited);
    assert visited + sources == universe - (universe - (visited + sources));
  }

  lemma WalkedToEnd(edges: seq<Edge>, target: Id, visited: set<Id>, upstream: set<Id>)
    requires WalkingBack(edges, target, visited, [], upstream)
    ensures IsUpstream(upstream, edges, target)
  {
    hide SolidArcs, WalkedBack;
    BackClosed(SolidArcs(edges), visited, upstream, target);
  }

  // Every node with a path forward to `target`. On a cycle that includes the
  // target itself.
  method UpstreamNodeIds(target: Id, edges: seq<Edge>) returns (upstream: set<Id>)
    ensures IsUpstream(upstream, edges, target)
  {
    var sourcesByTarget := IndexEdges(edges, (e: Edge) => e.target, (e: Edge) => e.source);
    ghost var universe := EndIds(edges) + {target};
    upstream := {};
    var visited := {target};
    var pending := [target];
    assert WalkingBack(edges, target, visited, pending, upstream);
    hide SolidArcs, EndIds, LeadsTo, WalkedBack, Indexes, IsUpstream;
    while |pending| > 0
      invariant WalkingBack(edges, target, visited, pending, upstream)
      decreases universe - visited, |pending|
    {
      var nodeId, rest := pending[|pending| - 1], pending[..|pending| - 1];
      assert pending == rest + [nodeId];
      if nodeId == "" {
        SkipTurn(edges, target, visited, rest, upstream);
        pending := rest;
        continue;
      }
      var sources := Filed(sourcesByTarget, nodeId);
      FiledSources(edges, sourcesByTarget, nodeId);
      var visited', pending', upstream' := VisitSources(sources, visited, rest, upstream);
      SourcesTurn(edges, target, nodeId, Elements(sources), visited, rest, pending', upstream);
      TurnShrinks(universe, visited, Elements(sources));
      visited, pending, upstream := visited', pending', upstream';
    }
    assert pending == [];
    WalkedToEnd(edges, target, visited, upstream);
  }

  // `below` and `pending` hold every head of an arc out of a start or of `below`.
  ghost predicate WalkedOn(arcs: Arcs, starts: set<Id>, below: set<Id>, pending: seq<Id>) {
    forall u: Id, v: Id :: (u, v) in arcs && (u in starts || u in below) ==> v in below || v in pending
  }

  lemma {:induction false} OnClosedReachesIn(arcs: Arcs, starts: set<Id>, below: set<Id>, u: Id, t: Id, n: nat)
    requires WalkedOn(arcs, starts, below, []) && (u in starts || u in below)
    requires ReachesIn(arcs, u, t, n)
    ensures t in below
    decreases n
  {
    if n > 1 {
      var m: Id :| (u, m) in arcs && ReachesIn(arcs, m, t, n - 1);
      OnClosedReachesIn(arcs, starts, below, m, t, n - 1);
    }
  }

  ghost predicate ReachedFrom(arcs: Arcs, starts: set<Id>, v: Id) {
    exists s: Id :: s in starts && Reaches(arcs, s, v)
  }

  lemma FiledTargets(edges: seq<Edge>, index: map<Id, seq<Id>>, nodeId: Id)
    requires Indexes(index, edges, (e: Edge) => e.source, (e: Edge) => e.target)
    ensures forall v: Id :: (v in Filed(index, nodeId) && v != "") <==> (nodeId, v) in SolidArcs(edges)
    ensures Elements(Filed(index, nodeId)) <= EndIds(edges)
  {
  }

  ghost predicate AllReached(arcs: Arcs, starts: set<Id>, found: set<Id>) {
    forall v | v in found && v != "" :: ReachedFrom(arcs, starts, v)
  }

  lemma OnTurn(arcs: Arcs, starts: set<Id>, nodeId: Id, targets: seq<Id>, below: set<Id>, before: seq<Id>)
    requires forall v: Id :: (v in targets && v != "") <==> (nodeId, v) in arcs
    requires ReachedFrom(arcs, starts, nodeId)
    requires AllReached(arcs, starts, Elements(before))
    requires WalkedOn(arcs, starts, below, before + [nodeId])
    ensures AllReached(arcs, starts, Elements(before + targets))
    ensures WalkedOn(arcs, starts, below + {nodeId}, before + targets)
  {
    var s: Id :| s in starts && Reaches(arcs, s, nodeId);
    forall v | v in Elements(before + targets) && v != "" ensures ReachedFrom(arcs, starts, v) {
      if v in targets {
        ReachesArc(arcs, nodeId, v);
        ReachesTrans(arcs, s, nodeId, v);
      } else {
        assert v in Elements(before);
      }
    }
  }

  // The heads of the arcs out of the starts, as the walk first queues them.
  method QueueStarts(startIds: seq<Id>, edges: seq<Edge>, index: map<Id, seq<Id>>) returns (pending: seq<Id>)
    requires Indexes(index, edges, (e: Edge) => e.source, (e: Edge) => e.target)
    ensures Elements(pending) <= EndIds(edges)
    ensures AllReached(SolidArcs(edges), Elements(startIds), Elements(pending))
    ensures WalkedOn(SolidArcs(edges), Elements(startIds), {}, pending)
  {
    pending := [];
    ghost var arcs := SolidArcs(edges);
    for i := 0 to |startIds|
      invariant Elements(pending) <= EndIds(edges)
      invariant AllReached(arcs, Elements(startIds), Elements(pending))
      invariant WalkedOn(arcs, Elements(startIds[..i]), {}, pending)
    {
      var targets := Filed(index, startIds[i]);
      FiledTargets(edges, index, startIds[i]);
      assert startIds[..i + 1] == startIds[..i] + [startIds[i]];
      ElementsConcat(startIds[..i], [startIds[i]]);
      ElementsConcat(pending, targets);
      forall v | v in Elements(targets) && v != "" ensures ReachedFrom(arcs, Elements(startIds), v) {
        ReachesArc(arcs, startIds[i], v);
        assert startIds[i] in Elements(startIds);
      }
      pending := pending + targets;
    }
    assert startIds[..|startIds|] == startIds;
  }

  // Every node some path of at least one edge leads to from a start.
  method DescendantsOf(startIds: seq<Id>, edges: seq<Edge>) returns (below: set<Id>)
    ensures forall v: Id :: v in below <==> ReachedFrom(SolidArcs(edges), Elements(startIds), v)
  {
    var targetsBySource := IndexEdges(edges, (e: Edge) => e.source, (e: Edge) => e.target);
    ghost var arcs := SolidArcs(edges);
    ghost var starts := Elements(startIds);
    var pending := QueueStarts(startIds, edges, targetsBySource);
    hide SolidArcs, EndIds;
    below := {};
    while |pending| > 0
      invariant "" !in below && below <= EndIds(edges) && Elements(pending) <= EndIds(edges)
      invariant AllReached(arcs, starts, below) && AllReached(arcs, starts, Elements(pending))
      invariant WalkedOn(arcs, starts, below, pending)
      decreases EndIds(edges) - below, |pending|
    {
      var nodeId, rest := pending[|pending| - 1], pending[..|pending| - 1];
      assert pending == rest + [nodeId];
      ElementsConcat(rest, [nodeId]);
      assert nodeId in Elements(pending);
      if nodeId == "" || nodeId in below {
        assert NoArcInto(arcs, "");
        pending := rest;
        continue;
      }
      var targets := Filed(targetsBySource, nodeId);
      FiledTargets(edges, targetsBySource, nodeId);
      OnTurn(arcs, starts, nodeId, targets, below, rest);
      ElementsConcat(rest, targets);
      below := below + {nodeId};
      pending := rest + targets;
    }
    assert pending == [];
    forall v: Id | ReachedFrom(arcs, starts, v) ensures v in below {
      var s: Id :| s in starts && Reaches(arcs, s, v);
      var n: nat :| ReachesIn(arcs, s, v, n);
      OnClosedReachesIn(arcs, starts, below, s, v, n);
    }
  }
}
