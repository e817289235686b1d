// Wrapping a selection in a Group frame, freeing it again, and deleting a Group
// with every step inside it.
module Grouping {
  import opened Reachability
  import opened Sequences
  import opened WorkflowGraph
  import opened GroupRules
  import opened NodeGroup

  function MinOf(first: real, rest: seq<real>): real
    decreases |rest|
  {
    if rest == [] then first
    else MinOf(if rest[0] < first then rest[0] else first, rest[1..])
  }

  function XOf(n: Node): real { n.position.x }

  function YOf(n: Node): real { n.position.y }

  function OriginOf(members: seq<Node>): Position
    requires members != []
  {
    Position(MinOf(members[0].position.x, Map(members[1..], XOf)),
             MinOf(members[0].position.y, Map(members[1..], YOf)))
  }

  function Minus(a: Position, b: Position): Position { Position(a.x - b.x, a.y - b.y) }

  function Within(ids: set<Id>): Node -> bool { (n: Node) => n.id in ids }

  function Frame(groupId: Id, origin: Position): Node {
    Node(groupId, Group, None, origin, NodeData("Group", None, None, map[]))
  }

  function Member(n: Node, groupId: Id, origin: Position): Node {
    n.(parentId := Some(groupId), position := Minus(n.position, origin))
  }

  function Joiner(groupId: Id, origin: Position): Node -> Node {
    (n: Node) => Member(n, groupId, origin)
  }

  // Whether the selection may become one Group. `breaksRule` is the rest of the
  // Publish rules, over the boundary and the joins.
  predicate Groupable(g: Graph, selectedIds: set<Id>, breaksRule: (Graph, set<Id>) -> bool) {
    var selected := Filter(g.nodes, Within(selectedIds));
    && |selected| >= 2 && |selected| == |selectedIds|
    && (forall n | n in selected :: n.parentId.None?)
    && (forall n | n in selected :: n.kind == Action)
    && (forall n | n in selected :: !IsEventSplit(n))
    && !breaksRule(g, selectedIds)
  }

  // The selection wrapped in a frame at `origin`: membership and positions
  // change, the stored edges do not.
  function WrapAt(g: Graph, selectedIds: set<Id>, groupId: Id, origin: Position): Graph {
    var members := Filter(g.nodes, Within(selectedIds));
    var rest := Filter(g.nodes, Outside(selectedIds));
    Graph(OrderGroupParentsFirst(rest + [Frame(groupId, origin)] + Map(members, Joiner(groupId, origin))), g.edges)
  }

  function GroupSelection(g: Graph, selectedIds: set<Id>, groupId: Id,
                          breaksRule: (Graph, set<Id>) -> bool): Option<Graph> {
    if !Groupable(g, selectedIds, breaksRule) then None
    else Some(WrapAt(g, selectedIds, groupId, OriginOf(Filter(g.nodes, Within(selectedIds)))))
  }

  ghost predicate TopLevelSteps(g: Graph, selectedIds: set<Id>) {
    forall n | n in g.nodes && n.id in selectedIds :: n.parentId.None? && IsGroupableStep(n)
  }

  lemma GroupableSteps(g: Graph, selectedIds: set<Id>, breaksRule: (Graph, set<Id>) -> bool)
    requires Groupable(g, selectedIds, breaksRule)
    ensures TopLevelSteps(g, selectedIds)
  {
  }

  lemma JoinedNodes(members: seq<Node>, groupId: Id, origin: Position, m: Node)
    ensures m in Map(members, Joiner(groupId, origin)) <==> exists n :: n in members && m == Member(n, groupId, origin)
  {
  }

  // The nodes after wrapping, without their order.
  lemma WrappedNodes(g: Graph, selectedIds: set<Id>, groupId: Id, origin: Position, m: Node)
    ensures m in WrapAt(g, selectedIds, groupId, origin).nodes
            <==> || (m in g.nodes && m.id !in selectedIds)
                 || m == Frame(groupId, origin)
                 || exists n :: n in g.nodes && n.id in selectedIds && m == Member(n, groupId, origin)
  {
    var members := Filter(g.nodes, Within(selectedIds));
    var rest := Filter(g.nodes, Outside(selectedIds));
    JoinedNodes(members, groupId, origin, m);
    OrderPermutes(rest + [Frame(groupId, origin)] + Map(members, Joiner(groupId, origin)));
  }

  // The new frame's id names no node and no parent yet.
  ghost predicate UnusedId(g: Graph, id: Id) {
    id !in NodeIds(g.nodes) && forall n | n in g.nodes :: n.parentId != Some(id)
  }

  lemma UnusedWhenFresh(g: Graph, id: Id)
    requires MembersOk(g.nodes) && id !in NodeIds(g.nodes)
    ensures UnusedId(g, id)
  {
  }

  // The canvas places a freed member where its frame drew it, moved by one
  // offset per frame.
  function Shifted(frame: Node, offset: Position): Node -> Position {
    (n: Node) => Plus(Plus(frame.position, n.position), offset)
  }

  function Restored(n: Node, selectedIds: set<Id>, offset: Position): Node {
    if n.id in selectedIds then n.(position := Plus(n.position, offset)) else n
  }

  lemma OneFrame(g: Graph, selectedIds: set<Id>, groupId: Id, origin: Position)
    ensures FrameIds(WrapAt(g, selectedIds, groupId, origin).nodes, {groupId}) == {groupId}
  {
  }

  lemma FreedFrom(g: Graph, selectedIds: set<Id>, groupId: Id, origin: Position, offset: Position, m: Node)
    returns (n: Node)
    requires TopLevelSteps(g, selectedIds) && UnusedId(g, groupId)
    requires m in Dissolve(WrapAt(g, selectedIds, groupId, origin).nodes, {groupId},
             Shifted(Frame(groupId, origin), offset))
    ensures n in g.nodes && m == Restored(n, selectedIds, offset)
  {
    hide WrapAt, Dissolve;
    var wrapped := WrapAt(g, selectedIds, groupId, origin).nodes;
    OneFrame(g, selectedIds, groupId, origin);
    var k := DissolvedFrom(wrapped, {groupId}, Shifted(Frame(groupId, origin), offset), m);
    WrappedNodes(g, selectedIds, groupId, origin, k);
    if k in g.nodes && k.id !in selectedIds {
      n := k;
    } else {
      n :| n in g.nodes && n.id in selectedIds && k == Member(n, groupId, origin);
    }
  }

  lemma FreedBack(g: Graph, selectedIds: set<Id>, groupId: Id, origin: Position, offset: Position, n: Node)
    requires TopLevelSteps(g, selectedIds) && UnusedId(g, groupId) && n in g.nodes
    ensures Restored(n, selectedIds, offset)
         in Dissolve(WrapAt(g, selectedIds, groupId, origin).nodes, {groupId}, Shifted(Frame(groupId, origin), offset))
  {
    hide WrapAt, Dissolve;
    var wrapped := WrapAt(g, selectedIds, groupId, origin).nodes;
    var k := if n.id in selectedIds then Member(n, groupId, origin) else n;
    OneFrame(g, selectedIds, groupId, origin);
    WrappedNodes(g, selectedIds, groupId, origin, k);
    DissolveKeeps(wrapped, {groupId}, Shifted(Frame(groupId, origin), offset), k);
  }

  // Grouping and ungrouping again gives back every node and parent, the
  // selection translated as one block by the frame's offset.
  lemma UngroupUndoesWrap(g: Graph, selectedIds: set<Id>, groupId: Id, origin: Position, placer: Placer,
                          offset: Position)
    requires TopLevelSteps(g, selectedIds) && UnusedId(g, groupId)
    requires placer(WrapAt(g, selectedIds, groupId, origin).nodes) == Shifted(Frame(groupId, origin), offset)
    ensures var out := UngroupFrames(WrapAt(g, selectedIds, groupId, origin).nodes, {groupId}, placer);
            forall m :: m in out <==> exists n :: n in g.nodes && m == Restored(n, selectedIds, offset)
  {
    hide WrapAt, Dissolve, OrderGroupParentsFirst;
    var wrapped := WrapAt(g, selectedIds, groupId, origin).nodes;
    var freed := Dissolve(wrapped, {groupId}, Shifted(Frame(groupId, origin), offset));
    OrderPermutes(freed);
    forall m ensures m in freed <==> exists n :: n in g.nodes && m == Restored(n, selectedIds, offset) {
      if m in freed { var n := FreedFrom(g, selectedIds, groupId, origin, offset, m); }
      if n :| n in g.nodes && m == Restored(n, selectedIds, offset) {
        FreedBack(g, selectedIds, groupId, origin, offset, n);
      }
    }
  }

  // The same of the operation itself, on a graph whose members name live frames.
  lemma UngroupUndoesGroup(g: Graph, selectedIds: set<Id>, groupId: Id, breaksRule: (Graph, set<Id>) -> bool,
                           placer: Placer, offset: Position)
    requires MembersOk(g.nodes) && groupId !in NodeIds(g.nodes) && Groupable(g, selectedIds, breaksRule)
    requires var grouped := GroupSelection(g, selectedIds, groupId, breaksRule).value;
             placer(grouped.nodes) == Shifted(Frame(groupId, OriginOf(Filter(g.nodes, Within(selectedIds)))), offset)
    ensures var grouped := GroupSelection(g, selectedIds, groupId, breaksRule).value;
            var out := UngroupFrames(grouped.nodes, {groupId}, placer);
            && grouped.edges == g.edges
            && forall m :: m in out <==> exists n :: n in g.nodes && m == Restored(n, selectedIds, offset)
  {
    GroupableSteps(g, selectedIds, breaksRule);
    UnusedWhenFresh(g, groupId);
    UngroupUndoesWrap(g, selectedIds, groupId, OriginOf(Filter(g.nodes, Within(selectedIds))), placer, offset);
  }

  lemma WrapKeepsMembers(g: Graph, selectedIds: set<Id>, groupId: Id, origin: Position)
    requires TopLevelSteps(g, selectedIds) && MembersOk(g.nodes)
    ensures MembersOk(WrapAt(g, selectedIds, groupId, origin).nodes)
  {
    hide WrapAt;
    var out := WrapAt(g, selectedIds, groupId, origin).nodes;
    WrappedNodes(g, selectedIds, groupId, origin, Frame(groupId, origin));
    forall m | m in out ensures MemberOk(out, m) {
      WrappedNodes(g, selectedIds, groupId, origin, m);
      if m in g.nodes && m.id !in selectedIds {
        assert MemberOk(g.nodes, m);
        if m.parentId.Some? {
          var f :| f in g.nodes && f.id == m.parentId.value && IsGroup(f);
          WrappedNodes(g, selectedIds, groupId, origin, f);
        }
      }
    }
  }

  // The structure rules hold afterwards.
  lemma WrapKeepsStructure(g: Graph, selectedIds: set<Id>, groupId: Id, origin: Position)
    requires TopLevelSteps(g, selectedIds) && GroupStructureOk(g) && NoDanglingEdge(g) && groupId !in NodeIds(g.nodes)
    ensures GroupStructureOk(WrapAt(g, selectedIds, groupId, origin))
  {
    var out := WrapAt(g, selectedIds, groupId, origin);
    WrapKeepsMembers(g, selectedIds, groupId, origin);
    assert out.edges == g.edges;
    hide WrapAt;
    forall e, m | e in out.edges && m in out.nodes && (m.id == e.source || m.id == e.target) ensures !IsGroup(m) {
      WrappedNodes(g, selectedIds, groupId, origin, m);
      assert e.source in NodeIds(g.nodes) && e.target in NodeIds(g.nodes);
    }
  }

  // Deleting a Group takes its frame, its members and their edges, and no more.
  lemma GroupDeletionKeeps(g: Graph, groupId: Id)
    requires UniqueNodeIds(g.nodes) && NoDanglingEdge(g) && GroupStructureOk(g)
    ensures var out := RemoveGroupWithMembers(g, groupId);
            && NoDanglingEdge(out) && GroupStructureOk(out)
            && (forall n | n in g.nodes && n.kind == Lifecycle :: n in out.nodes)
            && (forall n | n in g.nodes :: n in out.nodes
                 || (exists f :: f in g.nodes && f.id == groupId && IsGroup(f)
                      && (n == f || n.parentId == Some(groupId))))
  {
    var out := RemoveGroupWithMembers(g, groupId);
    var frame := Lookup(g.nodes, groupId);
    if frame.Some? && IsGroup(frame.value) {
      var gone := {groupId} + set n | n in g.nodes && n.parentId == Some(groupId) :: n.id;
      forall n | n in g.nodes && n.id in gone ensures n == frame.value || n.parentId == Some(groupId) {
        if n.id == groupId { UniqueNode(g.nodes, n, frame.value); }
        else {
          var m :| m in g.nodes && m.parentId == Some(groupId) && m.id == n.id;
          UniqueNode(g.nodes, m, n);
        }
      }
      forall n | n in g.nodes && n.id !in gone ensures n in out.nodes {}
      forall n | n in g.nodes && n.kind == Lifecycle ensures n in out.nodes { assert MemberOk(g.nodes, n); }
      forall m | m in out.nodes ensures MemberOk(out.nodes, m) {
        assert MemberOk(g.nodes, m);
        if m.parentId.Some? {
          var f :| f in g.nodes && f.id == m.parentId.value && IsGroup(f);
          assert MemberOk(g.nodes, f);
          assert f.id != groupId;
        }
      }
      forall e, id | e in out.edges && (id == e.source || id == e.target) ensures id in NodeIds(out.nodes) {
        var n :| n in g.nodes && n.id == id;
      }
    }
  }

  // The frame the id names, and its members.
  ghost predicate InGroup(g: Graph, groupId: Id, n: Node) {
    exists f :: f in g.nodes && f.id == groupId && IsGroup(f) && (n == f || n.parentId == Some(groupId))
  }

  // Exactly the frame and its members go, and exactly the edges touching one.
  lemma GroupDeletionExact(g: Graph, groupId: Id)
    requires UniqueNodeIds(g.nodes)
    ensures var out := RemoveGroupWithMembers(g, groupId);
            && (forall n :: n in out.nodes <==> n in g.nodes && !InGroup(g, groupId, n))
            && (forall e :: e in out.edges
                 <==> e in g.edges && forall n | n in g.nodes && InGroup(g, groupId, n) ::
                        n.id != e.source && n.id != e.target)
  {
    var frame := Lookup(g.nodes, groupId);
    if frame.Some? && IsGroup(frame.value) {
      var gone := {groupId} + set n | n in g.nodes && n.parentId == Some(groupId) :: n.id;
      forall n | n in g.nodes ensures n.id in gone <==> InGroup(g, groupId, n) {
        if n.id == groupId { UniqueNode(g.nodes, n, frame.value); }
        if m :| m in g.nodes && m.parentId == Some(groupId) && m.id == n.id { UniqueNode(g.nodes, m, n); }
      }
      forall id | id in gone ensures exists n :: n in g.nodes && InGroup(g, groupId, n) && n.id == id {
        var n :| n in g.nodes && n.id == id;
        assert InGroup(g, groupId, n);
      }
    } else {
      forall f | f in g.nodes && f.id == groupId ensures !IsGroup(f) { UniqueNode(g.nodes, f, frame.value); }
    }
  }
}
