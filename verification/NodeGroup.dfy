// Group mutations on the canvas: removing a batch of nodes, deleting a Group
// with its members, grouping a selection and ungrouping it again.
module NodeGroup {
  import opened Reachability
  import opened Sequences
  import opened WorkflowGraph
  import opened GroupRules

  // Where the members of a dissolved frame land, given the nodes at hand.
  type Placer = seq<Node> -> (Node -> Position)

  function NotTouchingAny(ids: set<Id>): Edge -> bool {
    (e: Edge) => e.source !in ids && e.target !in ids
  }

  function RemoveEdgesTouching(edges: seq<Edge>, ids: set<Id>): seq<Edge> {
    Filter(edges, NotTouchingAny(ids))
  }

  function UngroupFrames(nodes: seq<Node>, groupIds: set<Id>, placer: Placer): seq<Node> {
    OrderGroupParentsFirst(Dissolve(nodes, groupIds, placer(nodes)))
  }

  // The steps a batch removes: its frames are ungrouped instead, and the
  // Lifecycle Node stays.
  function RemovedIds(nodes: seq<Node>, batch: set<Id>): set<Id> {
    set n | n in nodes && n.id in batch && n.kind != Group && n.kind != Lifecycle :: n.id
  }

  function RemoveNodes(g: Graph, batch: set<Id>, placer: Placer): Graph {
    var frameIds := FrameIds(g.nodes, batch);
    var removedIds := RemovedIds(g.nodes, batch);
    var remaining := Filter(g.nodes, Outside(removedIds));
    Graph(UngroupFrames(remaining, frameIds + UndersizedGroupIds(remaining), placer),
          RemoveEdgesTouching(g.edges, removedIds))
  }

  function RemoveGroupWithMembers(g: Graph, groupId: Id): Graph {
    var frame := Lookup(g.nodes, groupId);
    if frame.None? || !IsGroup(frame.value) then g
    else
      var removedIds := {groupId} + set n | n in g.nodes && n.parentId == Some(groupId) :: n.id;
      Graph(Filter(g.nodes, Outside(removedIds)), RemoveEdgesTouching(g.edges, removedIds))
  }

  // --- a graph's nodes up to order and position ---

  function Core(n: Node): Node {
    n.(position := Position(0.0, 0.0))
  }

  function View(nodes: seq<Node>): set<Node> {
    set n | n in nodes :: Core(n)
  }

  ghost predicate UniqueIn(v: set<Node>) {
    forall m, n | m in v && n in v && m.id == n.id :: m == n
  }

  function StepIds(v: set<Node>, groupId: Id): set<Id> {
    set n | n in v && n.parentId == Some(groupId) && IsGroupableStep(n) :: n.id
  }

  // The frames a batch dissolves: those it names and those it leaves too small.
  function Dissolved(v: set<Node>, batch: set<Id>): set<Id> {
    set n | n in v && IsGroup(n) && (n.id in batch || |StepIds(v, n.id) - batch| < 2) :: n.id
  }

  function Dropped(v: set<Node>, batch: set<Id>): set<Id> {
    set n | n in v && n.id in batch && n.kind != Group && n.kind != Lifecycle :: n.id
  }

  function Freed(n: Node, frames: set<Id>): Node {
    if n.parentId.Some? && n.parentId.value in frames then n.(parentId := None) else n
  }

  // What removing a batch means, with no order and no intermediate list: every
  // step and frame it does not take, freed of the frames that went.
  function Reduced(v: set<Node>, batch: set<Id>): set<Node> {
    set n | n in v && n.id !in Dropped(v, batch) && n.id !in Dissolved(v, batch) :: Freed(n, Dissolved(v, batch))
  }

  // --- reductions compose ---

  lemma DissolvedExactly(v: set<Node>, batch: set<Id>, f: Node)
    requires UniqueIn(v) && f in v
    ensures f.id in Dissolved(v, batch) <==> IsGroup(f) && (f.id in batch || |StepIds(v, f.id) - batch| < 2)
  {
  }

  lemma DroppedExactly(v: set<Node>, batch: set<Id>, n: Node)
    requires UniqueIn(v) && n in v
    ensures n.id in Dropped(v, batch) <==> n.id in batch && n.kind != Group && n.kind != Lifecycle
  {
  }

  lemma DissolvedFrame(v: set<Node>, batch: set<Id>, id: Id) returns (f: Node)
    requires id in Dissolved(v, batch)
    ensures f in v && IsGroup(f) && f.id == id
  {
    f :| f in v && IsGroup(f) && f.id == id;
  }

  ghost predicate Survives(v: set<Node>, batch: set<Id>, n: Node) {
    n in v && n.id !in Dropped(v, batch) && n.id !in Dissolved(v, batch)
  }

  lemma SurvivorStays(v: set<Node>, batch: set<Id>, n: Node)
    requires Survives(v, batch, n)
    ensures Freed(n, Dissolved(v, batch)) in Reduced(v, batch)
  {
  }

  lemma SurvivorOf(v: set<Node>, batch: set<Id>, m: Node) returns (n: Node)
    requires m in Reduced(v, batch)
    ensures Survives(v, batch, n) && m == Freed(n, Dissolved(v, batch))
  {
    n :| n in v && n.id !in Dropped(v, batch) && n.id !in Dissolved(v, batch) && m == Freed(n, Dissolved(v, batch));
  }

  lemma ReducedUnique(v: set<Node>, batch: set<Id>)
    requires UniqueIn(v)
    ensures UniqueIn(Reduced(v, batch))
  {
  }

  lemma StepsLeft(v: set<Node>, a: set<Id>, f: Node)
    requires UniqueIn(v) && f in v && IsGroup(f) && f.id !in Dissolved(v, a)
    ensures StepIds(Reduced(v, a), f.id) == StepIds(v, f.id) - a
  {
    var w := Reduced(v, a);
    forall id ensures id in StepIds(w, f.id) <==> id in StepIds(v, f.id) - a {
      if id in StepIds(w, f.id) {
        var m :| m in w && m.parentId == Some(f.id) && IsGroupableStep(m) && m.id == id;
        var n := SurvivorOf(v, a, m);
        assert n == m;
      }
      if id in StepIds(v, f.id) - a {
        var n :| n in v && n.parentId == Some(f.id) && IsGroupableStep(n) && n.id == id;
        DissolvedExactly(v, a, n);
        SurvivorStays(v, a, n);
        assert Freed(n, Dissolved(v, a)) == n;
      }
    }
  }

  lemma FewerThanTwo(s: set<Id>, a: set<Id>, b: set<Id>)
    ensures |s - (a + b)| <= |s - a|
    ensures (s - a) - b == s - (a + b)
  {
    assert s - a == (s - (a + b)) + ((s - a) - (s - (a + b)));
  }

  lemma FrameFate(v: set<Node>, a: set<Id>, b: set<Id>, f: Node)
    requires UniqueIn(v) && f in v && IsGroup(f)
    ensures f.id in Dissolved(v, a + b) <==> f.id in Dissolved(v, a) || f.id in Dissolved(Reduced(v, a), b)
  {
    hide Dissolved, Reduced, Dropped, StepIds;
    DissolvedExactly(v, a + b, f);
    DissolvedExactly(v, a, f);
    FewerThanTwo(StepIds(v, f.id), a, b);
    ReducedUnique(v, a);
    if f.id in Dissolved(v, a) {
    } else {
      StepsLeft(v, a, f);
      DroppedExactly(v, a, f);
      SurvivorStays(v, a, f);
      DissolvedExactly(Reduced(v, a), b, Freed(f, Dissolved(v, a)));
    }
  }

  lemma DissolvedCompose(v: set<Node>, a: set<Id>, b: set<Id>)
    requires UniqueIn(v)
    ensures Dissolved(v, a + b) == Dissolved(v, a) + Dissolved(Reduced(v, a), b)
  {
    hide Dissolved, Reduced, Dropped;
    forall id ensures id in Dissolved(v, a + b) <==> id in Dissolved(v, a) + Dissolved(Reduced(v, a), b) {
      if id in Dissolved(v, a + b) {
        var f := DissolvedFrame(v, a + b, id);
        FrameFate(v, a, b, f);
      } else if id in Dissolved(v, a) {
        var f := DissolvedFrame(v, a, id);
        FrameFate(v, a, b, f);
      } else if id in Dissolved(Reduced(v, a), b) {
        var m := DissolvedFrame(Reduced(v, a), b, id);
        var f := SurvivorOf(v, a, m);
        FrameFate(v, a, b, f);
      }
    }
  }

  lemma DroppedCompose(v: set<Node>, a: set<Id>, b: set<Id>)
    requires UniqueIn(v)
    ensures Dropped(v, a + b) == Dropped(v, a) + Dropped(Reduced(v, a), b)
  {
  }

  // Removing `a` and then `b` is removing both at once.
  lemma ReducedCompose(v: set<Node>, a: set<Id>, b: set<Id>)
    requires UniqueIn(v)
    ensures Reduced(Reduced(v, a), b) == Reduced(v, a + b)
  {
    hide Dissolved, Reduced, Dropped;
    var w := Reduced(v, a);
    DissolvedCompose(v, a, b);
    DroppedCompose(v, a, b);
    forall m ensures m in Reduced(w, b) <==> m in Reduced(v, a + b) {
      if m in Reduced(w, b) {
        var k := SurvivorOf(w, b, m);
        var n := SurvivorOf(v, a, k);
        FreedTwice(n, Dissolved(v, a), Dissolved(w, b));
        SurvivorStays(v, a + b, n);
      }
      if m in Reduced(v, a + b) {
        var n := SurvivorOf(v, a + b, m);
        SurvivorStays(v, a, n);
        FreedTwice(n, Dissolved(v, a), Dissolved(w, b));
        SurvivorStays(w, b, Freed(n, Dissolved(v, a)));
      }
    }
  }

  lemma FreedTwice(n: Node, a: set<Id>, b: set<Id>)
    ensures Freed(Freed(n, a), b) == Freed(n, a + b)
  {
  }

  // --- the code computes the reduction ---

  lemma ViewUnique(nodes: seq<Node>)
    requires UniqueNodeIds(nodes)
    ensures UniqueIn(View(nodes))
  {
  }

  lemma {:induction false} CountIsSet(nodes: seq<Node>, groupId: Id)
    requires UniqueNodeIds(nodes)
    ensures StepCount(nodes, groupId) == |StepIds(View(nodes), groupId)|
  {
    if nodes == [] {
      assert StepIds(View(nodes), groupId) == {};
    } else {
      var n, rest := nodes[0], nodes[1..];
      assert nodes == [n] + rest;
      DistinctByConcat([n], rest, NodeId);
      CountIsSet(rest, groupId);
      StepIdsCons(n, rest, groupId);
      forall m | m in rest ensures m.id != n.id { assert NodeId(m) != NodeId(n); }
      NotStep(n, rest, groupId);
      hide StepIds, View, IsGroupableStep, UniqueNodeIds;
    }
  }

  lemma NotStep(n: Node, rest: seq<Node>, groupId: Id)
    requires forall m | m in rest :: m.id != n.id
    ensures n.id !in StepIds(View(rest), groupId)
  {
  }

  lemma StepIdsCons(n: Node, rest: seq<Node>, groupId: Id)
    ensures StepIds(View([n] + rest), groupId)
         == StepIds(View(rest), groupId) + if CountsFor(groupId)(n) then {n.id} else {}
  {
    assert View([n] + rest) == {Core(n)} + View(rest) by {
      forall m | m in rest ensures Core(m) in View([n] + rest) { assert m in [n] + rest; }
      assert n in [n] + rest;
    }
    assert CountsFor(groupId)(n) == CountsFor(groupId)(Core(n));
  }

  lemma RemovedIsDropped(nodes: seq<Node>, batch: set<Id>)
    ensures RemovedIds(nodes, batch) == Dropped(View(nodes), batch)
  {
  }

  // The steps still counted once the batch's steps are gone.
  lemma RemainingSteps(nodes: seq<Node>, batch: set<Id>, groupId: Id)
    requires UniqueNodeIds(nodes)
    ensures StepIds(View(Filter(nodes, Outside(RemovedIds(nodes, batch)))), groupId)
         == StepIds(View(nodes), groupId) - batch
  {
  }

  lemma FrameRemains(nodes: seq<Node>, batch: set<Id>, f: Node)
    requires UniqueNodeIds(nodes) && f in nodes && IsGroup(f)
    ensures f in Filter(nodes, Outside(RemovedIds(nodes, batch)))
  {
  }

  lemma SmallAfterBatch(nodes: seq<Node>, batch: set<Id>, f: Node)
    requires UniqueNodeIds(nodes) && f in nodes && IsGroup(f)
    ensures var remaining := Filter(nodes, Outside(RemovedIds(nodes, batch)));
            f.id in UndersizedGroupIds(remaining) <==> |StepIds(View(nodes), f.id) - batch| < 2
  {
    hide StepIds, RemovedIds, StepCount;
    var remaining := Filter(nodes, Outside(RemovedIds(nodes, batch)));
    FilterDistinctBy(nodes, Outside(RemovedIds(nodes, batch)), NodeId);
    FrameRemains(nodes, batch, f);
    RemainingSteps(nodes, batch, f.id);
    CountIsSet(remaining, f.id);
    if f.id in UndersizedGroupIds(remaining) {
      var n :| n in remaining && IsGroup(n) && StepCount(remaining, n.id) < 2 && n.id == f.id;
    }
  }

  // The frames the code dissolves are the reduction's.
  lemma FramesAreDissolved(nodes: seq<Node>, batch: set<Id>)
    requires UniqueNodeIds(nodes)
    ensures var remaining := Filter(nodes, Outside(RemovedIds(nodes, batch)));
            FrameIds(remaining, FrameIds(nodes, batch) + UndersizedGroupIds(remaining)) == Dissolved(View(nodes), batch)
  {
    hide StepIds, RemovedIds, UndersizedGroupIds;
    var v, remaining := View(nodes), Filter(nodes, Outside(RemovedIds(nodes, batch)));
    var named, small := FrameIds(nodes, batch), UndersizedGroupIds(remaining);
    forall f | f in nodes && IsGroup(f)
      ensures f in remaining && (f.id in named + small <==> f.id in batch || |StepIds(v, f.id) - batch| < 2)
    {
      FrameRemains(nodes, batch, f);
      SmallAfterBatch(nodes, batch, f);
    }
    forall id ensures id in FrameIds(remaining, named + small) <==> id in Dissolved(v, batch) {
      if id in FrameIds(remaining, named + small) {
        var f :| f in remaining && f.id in named + small && IsGroup(f) && f.id == id;
        assert f in nodes && Core(f) in v;
      }
      if id in Dissolved(v, batch) {
        var m := DissolvedFrame(v, batch, id);
        var f :| f in nodes && m == Core(f);
        ViewUnique(nodes);
        DissolvedExactly(v, batch, m);
      }
    }
  }

  lemma ViewOfUngrouped(nodes: seq<Node>, groupIds: set<Id>, placer: Placer)
    ensures View(UngroupFrames(nodes, groupIds, placer))
         == set n | n in View(nodes) && n.id !in FrameIds(nodes, groupIds) :: Freed(n, FrameIds(nodes, groupIds))
  {
    var frames, place := FrameIds(nodes, groupIds), placer(nodes);
    var kept := Dissolve(nodes, groupIds, place);
    OrderPermutes(kept);
    hide LosesFrame, Dissolve, OrderGroupParentsFirst;
    var want := set n | n in View(nodes) && n.id !in frames :: Freed(n, frames);
    forall m ensures m in View(UngroupFrames(nodes, groupIds, placer)) <==> m in want {
      if m in View(UngroupFrames(nodes, groupIds, placer)) {
        var k :| k in UngroupFrames(nodes, groupIds, placer) && m == Core(k);
        var n := DissolvedFrom(nodes, groupIds, place, k);
        assert Core(n) in View(nodes) && m == Freed(Core(n), frames);
      }
      if m in want {
        var c :| c in View(nodes) && c.id !in frames && m == Freed(c, frames);
        var n :| n in nodes && c == Core(n);
        DissolveKeeps(nodes, groupIds, place, n);
        assert m == Core(Release(n, frames, place));
      }
    }
  }

  // The list computation and the reduction agree, on any graph with unique ids.
  lemma RemoveNodesIsReduction(g: Graph, batch: set<Id>, placer: Placer)
    requires UniqueNodeIds(g.nodes)
    ensures View(RemoveNodes(g, batch, placer).nodes) == Reduced(View(g.nodes), batch)
    ensures RemoveNodes(g, batch, placer).edges == RemoveEdgesTouching(g.edges, Dropped(View(g.nodes), batch))
  {
    var v := View(g.nodes);
    var removed := RemovedIds(g.nodes, batch);
    var remaining := Filter(g.nodes, Outside(removed));
    var frames := Dissolved(v, batch);
    RemovedIsDropped(g.nodes, batch);
    FramesAreDissolved(g.nodes, batch);
    ViewOfUngrouped(remaining, FrameIds(g.nodes, batch) + UndersizedGroupIds(remaining), placer);
    assert forall n :: n in View(remaining) <==> n in v && n.id !in removed by {
      forall n | n in v && n.id !in removed ensures n in View(remaining) {
        var x :| x in g.nodes && n == Core(x);
        assert x in remaining;
      }
    }
  }

  lemma RemoveNodesUnique(g: Graph, batch: set<Id>, placer: Placer)
    requires UniqueNodeIds(g.nodes)
    ensures UniqueNodeIds(RemoveNodes(g, batch, placer).nodes)
  {
    var removed := RemovedIds(g.nodes, batch);
    var remaining := Filter(g.nodes, Outside(removed));
    FilterDistinctBy(g.nodes, Outside(removed), NodeId);
    DissolveUnique(remaining, FrameIds(g.nodes, batch) + UndersizedGroupIds(remaining), placer(remaining));
    OrderUnique(Dissolve(remaining, FrameIds(g.nodes, batch) + UndersizedGroupIds(remaining), placer(remaining)));
  }

  // --- confluence ---

  function RemoveEach(g: Graph, ids: seq<Id>, placer: Placer): Graph
    decreases |ids|
  {
    if ids == [] then g else RemoveEach(RemoveNodes(g, {ids[0]}, placer), ids[1..], placer)
  }

  function Ids(ids: seq<Id>): set<Id> {
    set id | id in ids
  }

  lemma EdgesCompose(edges: seq<Edge>, v: set<Node>, a: set<Id>, b: set<Id>)
    requires UniqueIn(v)
    ensures RemoveEdgesTouching(RemoveEdgesTouching(edges, Dropped(v, a)), Dropped(Reduced(v, a), b))
         == RemoveEdgesTouching(edges, Dropped(v, a + b))
  {
    DroppedCompose(v, a, b);
    FilterTwice(edges, NotTouchingAny(Dropped(v, a)), NotTouchingAny(Dropped(Reduced(v, a), b)),
      NotTouchingAny(Dropped(v, a + b)));
  }

  // Two batches in turn are one batch.
  lemma RemoveTwice(g: Graph, a: set<Id>, b: set<Id>, placer: Placer)
    requires UniqueNodeIds(g.nodes)
    ensures var first, both := RemoveNodes(g, a, placer), RemoveNodes(g, a + b, placer);
            && View(RemoveNodes(first, b, placer).nodes) == View(both.nodes)
            && RemoveNodes(first, b, placer).edges == both.edges
  {
    var v, first := View(g.nodes), RemoveNodes(g, a, placer);
    ViewUnique(g.nodes);
    RemoveNodesUnique(g, a, placer);
    RemoveNodesIsReduction(g, a, placer);
    RemoveNodesIsReduction(g, a + b, placer);
    RemoveNodesIsReduction(first, b, placer);
    ReducedCompose(v, a, b);
    EdgesCompose(g.edges, v, a, b);
  }

  // Deletion is confluent: one at a time in any order, or all at once, the same
  // nodes, parents and edges remain.
  lemma {:induction false} RemovalConfluent(g: Graph, ids: seq<Id>, placer: Placer)
    requires UniqueNodeIds(g.nodes) && ids != []
    ensures View(RemoveEach(g, ids, placer).nodes) == View(RemoveNodes(g, Ids(ids), placer).nodes)
    ensures RemoveEach(g, ids, placer).edges == RemoveNodes(g, Ids(ids), placer).edges
    decreases |ids|
  {
    var rest := ids[1..];
    assert Ids(ids) == {ids[0]} + Ids(rest) by { assert ids == [ids[0]] + rest; }
    if rest == [] {
      assert Ids(ids) == {ids[0]};
    } else {
      RemoveNodesUnique(g, {ids[0]}, placer);
      RemovalConfluent(RemoveNodes(g, {ids[0]}, placer), rest, placer);
      RemoveTwice(g, {ids[0]}, Ids(rest), placer);
    }
  }

  // An empty batch changes nothing exactly when no Group was already too small.
  lemma RemoveNothing(g: Graph, placer: Placer)
    requires UniqueNodeIds(g.nodes)
    ensures View(RemoveNodes(g, {}, placer).nodes) == View(g.nodes) <==> NoUndersizedGroup(g.nodes)
    ensures RemoveNodes(g, {}, placer).edges == g.edges
  {
    hide RemoveNodes, Reduced, Dissolved, StepCount;
    var v := View(g.nodes);
    RemoveNodesIsReduction(g, {}, placer);
    FilterAll(g.edges, NotTouchingAny(Dropped(v, {})));
    if f :| f in g.nodes && IsGroup(f) && StepCount(g.nodes, f.id) < 2 {
      SmallIsDissolved(g.nodes, f);
      DissolvedIsGone(v, {}, Core(f));
    } else {
      forall id ensures id !in Dissolved(v, {}) {
        if id in Dissolved(v, {}) {
          var m := DissolvedFrame(v, {}, id);
          var f :| f in g.nodes && m == Core(f);
          SmallIsDissolved(g.nodes, f);
        }
      }
      assert Dissolved(v, {}) == {};
      ReduceNothing(v);
    }
  }

  lemma DissolvedIsGone(v: set<Node>, batch: set<Id>, f: Node)
    requires f.id in Dissolved(v, batch)
    ensures f !in Reduced(v, batch)
  {
  }

  lemma SmallIsDissolved(nodes: seq<Node>, f: Node)
    requires UniqueNodeIds(nodes) && f in nodes && IsGroup(f)
    ensures Core(f) in View(nodes)
    ensures StepCount(nodes, f.id) < 2 <==> f.id in Dissolved(View(nodes), {})
  {
    var v := View(nodes);
    ViewUnique(nodes);
    assert Core(f) in v;
    CountIsSet(nodes, f.id);
    DissolvedExactly(v, {}, Core(f));
    assert StepIds(v, f.id) - {} == StepIds(v, f.id);
  }

  lemma ReduceNothing(v: set<Node>)
    requires Dissolved(v, {}) == {}
    ensures Reduced(v, {}) == v
  {
  }

  // --- what removal keeps ---

  lemma RemovalLeavesNoneUndersized(g: Graph, batch: set<Id>, placer: Placer)
    requires UniqueNodeIds(g.nodes)
    ensures NoUndersizedGroup(RemoveNodes(g, batch, placer).nodes)
  {
    hide RemoveNodes, Reduced, Dissolved, Dropped, StepCount;
    var v, out := View(g.nodes), RemoveNodes(g, batch, placer).nodes;
    ViewUnique(g.nodes);
    RemoveNodesIsReduction(g, batch, placer);
    RemoveNodesUnique(g, batch, placer);
    forall m | m in out && IsGroup(m) ensures StepCount(out, m.id) >= 2 {
      CountIsSet(out, m.id);
      assert Core(m) in View(out);
      var f := SurvivorOf(v, batch, Core(m));
      StepsLeft(v, batch, f);
      DissolvedExactly(v, batch, f);
    }
  }

  lemma StepSurvives(g: Graph, batch: set<Id>, placer: Placer, n: Node)
    requires UniqueNodeIds(g.nodes) && n in g.nodes && !IsGroup(n) && (n.id !in batch || n.kind == Lifecycle)
    ensures n.id in NodeIds(RemoveNodes(g, batch, placer).nodes)
  {
    hide RemoveNodes, Reduced, Dissolved, StepIds;
    var v, out := View(g.nodes), RemoveNodes(g, batch, placer);
    ViewUnique(g.nodes);
    RemoveNodesIsReduction(g, batch, placer);
    assert Core(n) in v;
    DissolvedExactly(v, batch, Core(n));
    assert n.id !in Dropped(v, batch);
    SurvivorStays(v, batch, Core(n));
    var m := Freed(Core(n), Dissolved(v, batch));
    var k :| k in out.nodes && Core(k) == m;
  }

  // The Lifecycle Node survives any batch, and with edges only between steps no
  // edge is left without an end.
  lemma RemovalKeepsEnds(g: Graph, batch: set<Id>, placer: Placer)
    requires UniqueNodeIds(g.nodes) && NoDanglingEdge(g) && NoEdgeTouchesFrame(g)
    ensures NoDanglingEdge(RemoveNodes(g, batch, placer))
    ensures forall n | n in g.nodes && n.kind == Lifecycle :: n.id in NodeIds(RemoveNodes(g, batch, placer).nodes)
  {
    var out := RemoveNodes(g, batch, placer);
    forall n | n in g.nodes && n.kind == Lifecycle ensures n.id in NodeIds(out.nodes) {
      StepSurvives(g, batch, placer, n);
    }
    forall e, id | e in out.edges && (id == e.source || id == e.target) ensures id in NodeIds(out.nodes) {
      var n :| n in g.nodes && n.id == id;
      assert n.id !in RemovedIds(g.nodes, batch);
      StepSurvives(g, batch, placer, n);
    }
  }
}
