// Group membership rules the agent and the editor share: which Groups are too
// small, what dissolving one does, the stored order of frames and members, and
// the structure every stored Group keeps.
module GroupRules {
  import opened Reachability
  import opened Sequences
  import opened WorkflowGraph

  function ParentOf(nodes: seq<Node>, id: Id): Option<Id> {
    var n := Lookup(nodes, id);
    if n.Some? then n.value.parentId else None
  }

  predicate IsFrame(nodes: seq<Node>, id: Id) {
    var n := Lookup(nodes, id);
    n.Some? && IsGroup(n.value)
  }

  function FrameOf(nodes: seq<Node>, id: Id): Option<Id> {
    var parent := ParentOf(nodes, id);
    if parent.Some? && IsFrame(nodes, parent.value) then parent else None
  }

  // A step counted for the Group `groupId`.
  function CountsFor(groupId: Id): Node -> bool {
    (n: Node) => n.parentId == Some(groupId) && IsGroupableStep(n)
  }

  function StepsOf(nodes: seq<Node>, groupId: Id): seq<Node> {
    Filter(nodes, CountsFor(groupId))
  }

  function StepCount(nodes: seq<Node>, groupId: Id): nat {
    |StepsOf(nodes, groupId)|
  }

  function UndersizedGroupIds(nodes: seq<Node>): set<Id> {
    set n | n in nodes && IsGroup(n) && StepCount(nodes, n.id) < 2 :: n.id
  }

  ghost predicate NoUndersizedGroup(nodes: seq<Node>) {
    forall n | n in nodes && IsGroup(n) :: StepCount(nodes, n.id) >= 2
  }

  // --- dissolution ---

  function FrameIds(nodes: seq<Node>, groupIds: set<Id>): set<Id> {
    set n | n in nodes && n.id in groupIds && IsGroup(n) :: n.id
  }

  function Outside(ids: set<Id>): Node -> bool {
    (n: Node) => n.id !in ids
  }

  // A released member keeps everything but its parent and its position, and
  // `place` decides the position.
  function Release(n: Node, frames: set<Id>, place: Node -> Position): Node {
    if n.parentId.Some? && n.parentId.value in frames
    then n.(parentId := None, position := place(n))
    else n
  }

  function Releaser(frames: set<Id>, place: Node -> Position): Node -> Node {
    (n: Node) => Release(n, frames, place)
  }

  function Dissolve(nodes: seq<Node>, groupIds: set<Id>, place: Node -> Position): seq<Node> {
    var frames := FrameIds(nodes, groupIds);
    if frames == {} then nodes
    else Map(Filter(nodes, Outside(frames)), Releaser(frames, place))
  }

  // A node that is no dissolved frame stays, released when its frame goes.
  lemma DissolveKeeps(nodes: seq<Node>, groupIds: set<Id>, place: Node -> Position, n: Node)
    requires n in nodes && n.id !in FrameIds(nodes, groupIds)
    ensures Release(n, FrameIds(nodes, groupIds), place) in Dissolve(nodes, groupIds, place)
  {
  }

  // The frame of `n` is one of those dissolved.
  predicate LosesFrame(nodes: seq<Node>, groupIds: set<Id>, n: Node) {
    exists f :: f in nodes && f.kind == Group && f.id in groupIds && n.parentId == Some(f.id)
  }

  // Everything in the result is a node that is no dissolved frame, released exactly when its frame goes.
  lemma DissolvedFrom(nodes: seq<Node>, groupIds: set<Id>, place: Node -> Position, m: Node) returns (n: Node)
    requires m in Dissolve(nodes, groupIds, place)
    ensures n in nodes && n.id !in FrameIds(nodes, groupIds) && m == Release(n, FrameIds(nodes, groupIds), place)
    ensures if LosesFrame(nodes, groupIds, n) then m == n.(parentId := None, position := place(n)) else m == n
  {
    var frames := FrameIds(nodes, groupIds);
    if frames == {} {
      n := m;
    } else {
      var kept := Filter(nodes, Outside(frames));
      var out := Map(kept, Releaser(frames, place));
      var i :| 0 <= i < |out| && out[i] == m;
      n := kept[i];
    }
  }

  lemma DissolveUnique(nodes: seq<Node>, groupIds: set<Id>, place: Node -> Position)
    requires UniqueNodeIds(nodes)
    ensures UniqueNodeIds(Dissolve(nodes, groupIds, place))
  {
    var frames := FrameIds(nodes, groupIds);
    var kept := Filter(nodes, Outside(frames));
    FilterDistinctBy(nodes, Outside(frames), NodeId);
    var out := Dissolve(nodes, groupIds, place);
    if frames != {} {
      forall i, j | 0 <= i < j < |out| ensures out[i].id != out[j].id {
        assert out[i].id == kept[i].id && out[j].id == kept[j].id;
        assert NodeId(kept[i]) != NodeId(kept[j]);
      }
    }
  }

  // Members of a surviving frame are counted the same after dissolution.
  lemma {:induction false} StepCountKept(nodes: seq<Node>, frames: set<Id>, place: Node -> Position, g: Id)
    requires g !in frames
    requires forall n | n in nodes && n.id in frames :: IsGroup(n)
    ensures StepCount(Map(Filter(nodes, Outside(frames)), Releaser(frames, place)), g) == StepCount(nodes, g)
  {
    var keep := Outside(frames);
    var free := Releaser(frames, place);
    var step := CountsFor(g);
    if nodes != [] {
      var n, rest := nodes[0], nodes[1..];
      StepCountKept(rest, frames, place, g);
      assert n in nodes;
      if keep(n) {
        assert Map(Filter(nodes, keep), free) == [free(n)] + Map(Filter(rest, keep), free);
        assert step(free(n)) == step(n);
        var mapped := Map(Filter(rest, keep), free);
        assert ([free(n)] + mapped)[1..] == mapped;
      }
    }
  }

  // One round is enough: dissolving every undersized Group leaves none.
  lemma DissolveLeavesNoneUndersized(nodes: seq<Node>, place: Node -> Position)
    requires UniqueNodeIds(nodes)
    ensures NoUndersizedGroup(Dissolve(nodes, UndersizedGroupIds(nodes), place))
  {
    var small := UndersizedGroupIds(nodes);
    var out := Dissolve(nodes, small, place);
    forall m | m in out && IsGroup(m) ensures StepCount(out, m.id) >= 2 {
      SurvivorIsWhole(nodes, place, m);
    }
  }

  lemma SurvivorIsWhole(nodes: seq<Node>, place: Node -> Position, m: Node)
    requires UniqueNodeIds(nodes)
    requires m in Dissolve(nodes, UndersizedGroupIds(nodes), place) && IsGroup(m)
    ensures StepCount(Dissolve(nodes, UndersizedGroupIds(nodes), place), m.id) >= 2
  {
    var small := UndersizedGroupIds(nodes);
    var frames := FrameIds(nodes, small);
    var n := DissolvedFrom(nodes, small, place, m);
    assert n.id !in small;
    if frames != {} {
      FramesAreGroups(nodes, small);
      StepCountKept(nodes, frames, place, m.id);
    }
  }

  lemma FramesAreGroups(nodes: seq<Node>, groupIds: set<Id>)
    requires UniqueNodeIds(nodes)
    ensures forall n | n in nodes && n.id in FrameIds(nodes, groupIds) :: IsGroup(n)
  {
  }

  // With nothing undersized, dissolution gives back the same list.
  lemma DissolveNothing(nodes: seq<Node>, place: Node -> Position)
    requires NoUndersizedGroup(nodes)
    ensures Dissolve(nodes, UndersizedGroupIds(nodes), place) == nodes
  {
  }

  // --- stored order ---

  datatype OrderKind = RestKind | FrameKind | MemberKind

  function OrderKindOf(n: Node): OrderKind {
    if IsGroup(n) then FrameKind else if HasParent(n) then MemberKind else RestKind
  }

  function HasKind(k: OrderKind): Node -> bool {
    (n: Node) => OrderKindOf(n) == k
  }

  function OfKind(nodes: seq<Node>, k: OrderKind): seq<Node> {
    Filter(nodes, HasKind(k))
  }

  predicate InOrderFrom(nodes: seq<Node>, phase: OrderKind) {
    if nodes == [] then true
    else
      var kind := OrderKindOf(nodes[0]);
      if kind == phase then InOrderFrom(nodes[1..], phase)
      else if phase == RestKind && kind == FrameKind then InOrderFrom(nodes[1..], FrameKind)
      else if phase == FrameKind && kind == MemberKind then InOrderFrom(nodes[1..], MemberKind)
      else false
  }

  function OrderGroupParentsFirst(nodes: seq<Node>): seq<Node> {
    if !(exists n :: n in nodes && IsGroup(n)) then nodes
    else if InOrderFrom(nodes, RestKind) then nodes
    else ByKind(nodes)
  }

  lemma KindCons(n: Node, rest: seq<Node>, k: OrderKind)
    ensures OfKind([n] + rest, k) == (if OrderKindOf(n) == k then [n] else []) + OfKind(rest, k)
  {
  }

  function ByKind(nodes: seq<Node>): seq<Node> {
    OfKind(nodes, RestKind) + OfKind(nodes, FrameKind) + OfKind(nodes, MemberKind)
  }

  lemma {:induction false} InOrderIsPartition(nodes: seq<Node>, phase: OrderKind)
    requires InOrderFrom(nodes, phase)
    ensures phase != RestKind ==> OfKind(nodes, RestKind) == []
    ensures phase == MemberKind ==> OfKind(nodes, FrameKind) == []
    ensures ByKind(nodes) == nodes
  {
    hide OfKind;
    if nodes == [] {
      assert OfKind([], RestKind) == [] && OfKind([], FrameKind) == []
             && OfKind([], MemberKind) == [] by { EmptyKinds(); }
    } else {
      var n, rest := nodes[0], nodes[1..];
      InOrderIsPartition(rest, if OrderKindOf(n) == phase then phase else OrderKindOf(n));
      assert nodes == [n] + rest;
      KindCons(n, rest, RestKind);
      KindCons(n, rest, FrameKind);
      KindCons(n, rest, MemberKind);
    }
  }

  lemma EmptyKinds()
    ensures forall k :: OfKind([], k) == []
  {
  }

  // Whichever branch answers, a graph with a frame comes out as its steps, then
  // its frames, then its members, each in their given order.
  lemma OrderIsPartition(nodes: seq<Node>)
    requires exists n :: n in nodes && IsGroup(n)
    ensures OrderGroupParentsFirst(nodes) == ByKind(nodes)
  {
    if InOrderFrom(nodes, RestKind) { InOrderIsPartition(nodes, RestKind); }
  }

  // Where a node is stored: nodes without a frame, then frames, then members.
  function StoredStage(n: Node): nat {
    if n.kind == Group then 1 else if n.parentId == None || n.parentId == Some("") then 0 else 2
  }

  function AtStage(stage: nat): Node -> bool { (n: Node) => StoredStage(n) == stage }

  // A graph without a frame keeps its order. One with a frame comes out stage by
  // stage, and nodes of one stage keep their order.
  lemma OrderExact(nodes: seq<Node>)
    ensures OrderGroupParentsFirst(nodes)
         == if exists n :: n in nodes && n.kind == Group
            then Filter(nodes, AtStage(0)) + Filter(nodes, AtStage(1)) + Filter(nodes, AtStage(2))
            else nodes
  {
    if exists n :: n in nodes && IsGroup(n) {
      OrderIsPartition(nodes);
      KindsAreStages(nodes);
      hide InOrderFrom, OrderGroupParentsFirst, HasKind, AtStage, Filter;
    }
  }

  lemma KindsAreStages(nodes: seq<Node>)
    ensures OfKind(nodes, RestKind) == Filter(nodes, AtStage(0))
            && OfKind(nodes, FrameKind) == Filter(nodes, AtStage(1))
    ensures OfKind(nodes, MemberKind) == Filter(nodes, AtStage(2))
  {
    hide Filter;
    FilterSame(nodes, HasKind(RestKind), AtStage(0));
    FilterSame(nodes, HasKind(FrameKind), AtStage(1));
    FilterSame(nodes, HasKind(MemberKind), AtStage(2));
  }

  // In a list with a frame no stage comes before an earlier one.
  predicate Staged(nodes: seq<Node>) {
    (exists f :: f in nodes && f.kind == Group)
    ==> forall i, j | 0 <= i < j < |nodes| :: StoredStage(nodes[i]) <= StoredStage(nodes[j])
  }

  lemma OrderStages(nodes: seq<Node>)
    ensures Staged(OrderGroupParentsFirst(nodes))
  {
    OrderExact(nodes);
    if exists n :: n in nodes && n.kind == Group {
      StagesJoined(Filter(nodes, AtStage(0)), Filter(nodes, AtStage(1)), Filter(nodes, AtStage(2)));
    }
    hide OrderGroupParentsFirst, Filter, StoredStage;
  }

  lemma StagesJoined(a: seq<Node>, b: seq<Node>, c: seq<Node>)
    requires forall n | n in a :: StoredStage(n) == 0
    requires forall n | n in b :: StoredStage(n) == 1
    requires forall n | n in c :: StoredStage(n) == 2
    ensures Staged(a + b + c)
  {
    hide StoredStage;
  }

  lemma {:induction false} PartitionPermutes(nodes: seq<Node>)
    ensures multiset(ByKind(nodes)) == multiset(nodes)
  {
    hide OfKind;
    if nodes == [] {
      EmptyKinds();
    } else {
      var n, rest := nodes[0], nodes[1..];
      PartitionPermutes(rest);
      assert nodes == [n] + rest;
      KindCons(n, rest, RestKind);
      KindCons(n, rest, FrameKind);
      KindCons(n, rest, MemberKind);
      assert multiset(ByKind(nodes)) == multiset{n} + multiset(ByKind(rest));
    }
  }

  lemma OrderPermutes(nodes: seq<Node>)
    ensures multiset(OrderGroupParentsFirst(nodes)) == multiset(nodes)
    ensures forall n :: n in OrderGroupParentsFirst(nodes) <==> n in nodes
  {
    PartitionPermutes(nodes);
    forall n ensures n in OrderGroupParentsFirst(nodes) <==> n in nodes {
      assert n in OrderGroupParentsFirst(nodes) <==> n in multiset(OrderGroupParentsFirst(nodes));
      assert n in nodes <==> n in multiset(nodes);
    }
  }

  // Reordering a list with unique ids keeps them unique.
  lemma PermutationUnique(a: seq<Node>, b: seq<Node>)
    requires multiset(a) == multiset(b) && UniqueNodeIds(b)
    ensures UniqueNodeIds(a)
  {
    forall i, j | 0 <= i < j < |a| ensures NodeId(a[i]) != NodeId(a[j]) {
      if NodeId(a[i]) == NodeId(a[j]) {
        assert a[i] in multiset(a) && a[j] in multiset(a);
        assert a[i] in b && a[j] in b;
        UniqueNode(b, a[i], a[j]);
        OccursTwice(a, i, j);
        OccursOnce(b, a[i]);
      }
    }
  }

  lemma OccursTwice(s: seq<Node>, i: nat, j: nat)
    requires i < j < |s| && s[i] == s[j]
    ensures multiset(s)[s[i]] >= 2
  {
    assert s == s[..i] + [s[i]] + s[i + 1..j] + [s[j]] + s[j + 1..];
  }

  lemma {:induction false} OccursOnce(s: seq<Node>, x: Node)
    requires UniqueNodeIds(s)
    ensures multiset(s)[x] <= 1
  {
    if s != [] {
      assert s == [s[0]] + s[1..];
      
      forall i, j | 0 <= i < j < |s[1..]| ensures NodeId(s[1..][i]) != NodeId(s[1..][j]) {
        assert NodeId(s[i + 1]) != NodeId(s[j + 1]);
      }
      OccursOnce(s[1..], x);
      forall j | 0 <= j < |s[1..]| ensures s[1..][j] != s[0] {
        assert NodeId(s[0]) != NodeId(s[j + 1]);
      }
    }
  }

  lemma OrderUnique(nodes: seq<Node>)
    requires UniqueNodeIds(nodes)
    ensures UniqueNodeIds(OrderGroupParentsFirst(nodes))
  {
    OrderPermutes(nodes);
    PermutationUnique(OrderGroupParentsFirst(nodes), nodes);
  }

  // --- structure ---

  // A member is an action step and names a frame the graph holds.
  predicate MemberOk(nodes: seq<Node>, n: Node) {
    n.parentId.Some? ==> n.kind == Action && exists f :: f in nodes && f.id == n.parentId.value && IsGroup(f)
  }

  predicate MembersOk(nodes: seq<Node>) {
    forall n | n in nodes :: MemberOk(nodes, n)
  }

  predicate NoEdgeTouchesFrame(g: Graph) {
    forall e, n | e in g.edges && n in g.nodes && (n.id == e.source || n.id == e.target) :: !IsGroup(n)
  }

  predicate GroupStructureOk(g: Graph) {
    MembersOk(g.nodes) && NoEdgeTouchesFrame(g)
  }

  // No edge ends on a dissolved frame, so the ends stand, and the members left
  // still name a frame.
  lemma DissolvedShape(g: Graph, groupIds: set<Id>, place: Node -> Position)
    requires NoDanglingEdge(g) && GroupStructureOk(g) && UniqueNodeIds(g.nodes)
    ensures NoDanglingEdge(g.(nodes := Dissolve(g.nodes, groupIds, place)))
    ensures GroupStructureOk(g.(nodes := Dissolve(g.nodes, groupIds, place)))
  {
    hide Dissolve;
    var nodes := Dissolve(g.nodes, groupIds, place);
    FramesAreGroups(g.nodes, groupIds);
    forall e, id | e in g.edges && (id == e.source || id == e.target) ensures id in NodeIds(nodes) {
      var n :| n in g.nodes && n.id == id;
      DissolveKeeps(g.nodes, groupIds, place, n);
    }
    forall m | m in nodes ensures MemberOk(nodes, m) {
      var n := DissolvedFrom(g.nodes, groupIds, place, m);
      assert MemberOk(g.nodes, n);
      if m.parentId.Some? {
        var f :| f in g.nodes && f.id == n.parentId.value && IsGroup(f);
        assert MemberOk(g.nodes, f);
        DissolveKeeps(g.nodes, groupIds, place, f);
      }
    }
    forall e, m | e in g.edges && m in nodes && (m.id == e.source || m.id == e.target) ensures !IsGroup(m) {
      var n := DissolvedFrom(g.nodes, groupIds, place, m);
    }
  }

  // --- whole Groups ---

  // A step a Group may hold, of the Group `groupId`.
  predicate IsStepOf(nodes: seq<Node>, groupId: Id, n: Node) {
    n in nodes && n.parentId == Some(groupId) && n.kind == Action && ActionTypeOf(n) != Some("Event Split")
  }

  lemma StepsExact(nodes: seq<Node>, groupId: Id)
    ensures forall n :: n in StepsOf(nodes, groupId) <==> IsStepOf(nodes, groupId, n)
  {
  }

  // A Group is whole exactly when it holds two different steps.
  lemma WholeExact(nodes: seq<Node>, groupId: Id)
    requires UniqueNodeIds(nodes)
    ensures StepCount(nodes, groupId) >= 2
       <==> exists a, b :: IsStepOf(nodes, groupId, a) && IsStepOf(nodes, groupId, b) && a.id != b.id
  {
    var steps := StepsOf(nodes, groupId);
    StepsExact(nodes, groupId);
    FilterDistinctBy(nodes, CountsFor(groupId), NodeId);
    hide StepsOf, IsStepOf;
    if |steps| >= 2 {
      assert steps[0] in steps && steps[1] in steps && NodeId(steps[0]) != NodeId(steps[1]);
    }
    if a, b :| IsStepOf(nodes, groupId, a) && IsStepOf(nodes, groupId, b) && a.id != b.id {
      assert a in steps && b in steps;
      var i :| 0 <= i < |steps| && steps[i] == a;
      var j :| 0 <= j < |steps| && steps[j] == b;
    }
  }

  // A frame without two steps.
  ghost predicate TooSmall(nodes: seq<Node>, f: Node) {
    f in nodes && f.kind == Group
    && !exists a, b :: IsStepOf(nodes, f.id, a) && IsStepOf(nodes, f.id, b) && a.id != b.id
  }

  lemma UndersizedExact(nodes: seq<Node>, f: Node)
    requires UniqueNodeIds(nodes) && f in nodes
    ensures f.id in UndersizedGroupIds(nodes) <==> TooSmall(nodes, f)
  {
    WholeExact(nodes, f.id);
    hide StepCount, IsStepOf;
    forall n | n in nodes && n.id == f.id ensures n == f { UniqueNode(nodes, n, f); }
  }
}
