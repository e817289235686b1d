// Where a comparison draws the nodes that were removed, and the cache that
// follows a user's moves without rebuilding the graph.
module ComparisonGraph {
  import opened Reachability
  import opened Sequences
  import opened WorkflowGraph
  import opened GroupRules

  // --- absolute positions ---

  // Follows parents, and stops at a node it has already passed.
  function AbsoluteBase(node: Node, nodes: seq<Node>, seen: set<Id>): Position
    requires node in nodes
    decreases NodeIds(nodes) - seen
  {
    if !HasParent(node) || node.id in seen then node.position
    else
      var parent := Lookup(nodes, node.parentId.value);
      if parent.None? then node.position
      else
        assert node.id in NodeIds(nodes) - seen;
        Plus(AbsoluteBase(parent.value, nodes, seen + {node.id}), node.position)
  }

  predicate IsTop(nodes: seq<Node>, n: Node) {
    !HasParent(n) || Lookup(nodes, n.parentId.value).None?
  }

  // The node, its parent, and so on up to one with no parent in the graph.
  predicate ParentChain(nodes: seq<Node>, chain: seq<Node>) {
    && chain != [] && chain[0] in nodes
    && if IsTop(nodes, chain[0]) then |chain| == 1
       else |chain| > 1 && Lookup(nodes, chain[0].parentId.value) == Some(chain[1]) && ParentChain(nodes, chain[1..])
  }

  function ChainSum(chain: seq<Node>): Position {
    if chain == [] then Position(0.0, 0.0) else Plus(ChainSum(chain[1..]), chain[0].position)
  }

  lemma {:induction false} ChainUnique(nodes: seq<Node>, a: seq<Node>, b: seq<Node>)
    requires ParentChain(nodes, a) && ParentChain(nodes, b) && a[0] == b[0]
    ensures |a| == |b|
  {
    if !IsTop(nodes, a[0]) { ChainUnique(nodes, a[1..], b[1..]); }
  }

  lemma {:induction false} ChainTail(nodes: seq<Node>, chain: seq<Node>, k: nat)
    requires ParentChain(nodes, chain) && k < |chain|
    ensures ParentChain(nodes, chain[k..])
  {
    if k > 0 {
      ChainTail(nodes, chain[1..], k - 1);
      assert chain[1..][k - 1..] == chain[k..];
    }
  }

  // A chain never comes back to the node it started from.
  lemma ChainNeverReturns(nodes: seq<Node>, chain: seq<Node>, k: nat)
    requires UniqueNodeIds(nodes) && ParentChain(nodes, chain) && 0 < k < |chain|
    ensures chain[k].id != chain[0].id
  {
    ChainTail(nodes, chain, k);
    if chain[k].id == chain[0].id {
      UniqueNode(nodes, chain[k], chain[0]);
      ChainUnique(nodes, chain[k..], chain);
    }
  }

  lemma {:induction false} AbsoluteIsSum(nodes: seq<Node>, chain: seq<Node>, seen: set<Id>)
    requires UniqueNodeIds(nodes) && ParentChain(nodes, chain)
    requires forall n | n in chain :: n.id !in seen
    ensures AbsoluteBase(chain[0], nodes, seen) == ChainSum(chain)
    decreases |chain|
  {
    if !IsTop(nodes, chain[0]) {
      forall n | n in chain[1..] ensures n.id !in seen + {chain[0].id} {
        var k :| 0 <= k < |chain[1..]| && chain[1..][k] == n;
        assert chain[k + 1] == n && n in chain;
        ChainNeverReturns(nodes, chain, k + 1);
      }
      AbsoluteIsSum(nodes, chain[1..], seen + {chain[0].id});
    } else {
      assert chain[1..] == [];
      assert chain[0] in chain;
    }
  }

  function ParentArcs(nodes: seq<Node>): Arcs {
    set n | n in nodes && !IsTop(nodes, n) :: (n.parentId.value, n.id)
  }

  // With no cycle among the parents every node has its chain.
  lemma {:induction false} ChainExists(nodes: seq<Node>, n: Node) returns (chain: seq<Node>)
    requires UniqueNodeIds(nodes) && Acyclic(ParentArcs(nodes)) && n in nodes
    ensures ParentChain(nodes, chain) && chain[0] == n
    decreases Ancestors(ParentArcs(nodes), n.id)
  {
    if IsTop(nodes, n) {
      chain := [n];
    } else {
      var parent := Lookup(nodes, n.parentId.value).value;
      assert (parent.id, n.id) in ParentArcs(nodes);
      AncestorsShrink(ParentArcs(nodes), parent.id, n.id);
      var rest := ChainExists(nodes, parent);
      chain := [n] + rest;
      assert chain[1..] == rest;
    }
  }

  // On acyclic parents the recursion is the sum along the chain.
  lemma AbsoluteOnAcyclic(nodes: seq<Node>, n: Node)
    requires UniqueNodeIds(nodes) && Acyclic(ParentArcs(nodes)) && n in nodes
    ensures exists chain :: ParentChain(nodes, chain) && chain[0] == n && AbsoluteBase(n, nodes, {}) == ChainSum(chain)
  {
    var chain := ChainExists(nodes, n);
    AbsoluteIsSum(nodes, chain, {});
  }

  // Consecutive parents, each with a parent in the graph until the last, which
  // is the first to repeat an id.
  ghost predicate Loops(nodes: seq<Node>, trail: seq<Node>) {
    && |trail| > 1 && trail[0] in nodes
    && Linked(nodes, trail)
    && DistinctBy(trail[..|trail| - 1], NodeId)
    && trail[|trail| - 1].id in NodeIds(trail[..|trail| - 1])
  }

  predicate Linked(nodes: seq<Node>, trail: seq<Node>) {
    forall i | 0 <= i < |trail| - 1 ::
      !IsTop(nodes, trail[i]) && Lookup(nodes, trail[i].parentId.value) == Some(trail[i + 1])
  }

  lemma {:induction false} TrailIsSum(nodes: seq<Node>, trail: seq<Node>, seen: set<Id>)
    requires trail != [] && trail[0] in nodes && Linked(nodes, trail)
    requires DistinctBy(trail[..|trail| - 1], NodeId) && NodeIds(trail[..|trail| - 1]) !! seen
    requires trail[|trail| - 1].id in NodeIds(trail[..|trail| - 1]) + seen
    ensures AbsoluteBase(trail[0], nodes, seen) == ChainSum(trail)
    decreases |trail|
  {
    var front := trail[..|trail| - 1];
    if |trail| > 1 {
      var rest := trail[1..];
      assert front[0] == trail[0] && front[0] in front && rest[..|rest| - 1] == front[1..];
      assert trail[0].id in NodeIds(front);
      DistinctByConcat([front[0]], front[1..], NodeId);
      assert front == [front[0]] + front[1..];
      forall n | n in front[1..] ensures n.id !in seen + {trail[0].id} {
        assert n in front && NodeId(n) != NodeId(front[0]);
      }
      assert NodeIds(front) == {trail[0].id} + NodeIds(front[1..]) by {
        forall n | n in front[1..] ensures n in front {}
      }
      forall i | 0 <= i < |rest| - 1
        ensures !IsTop(nodes, rest[i]) && Lookup(nodes, rest[i].parentId.value) == Some(rest[i + 1])
      {
        assert rest[i] == trail[i + 1] && rest[i + 1] == trail[i + 2];
      }
      TrailIsSum(nodes, rest, seen + {trail[0].id});
    } else {
      assert front == [] && NodeIds(front) == {};
      assert trail[1..] == [];
    }
  }

  // On a cycle it still ends: the sum runs along the parents up to and with the
  // first node met again.
  lemma AbsoluteOnCycle(nodes: seq<Node>, trail: seq<Node>)
    requires Loops(nodes, trail)
    ensures AbsoluteBase(trail[0], nodes, {}) == ChainSum(trail)
  {
    TrailIsSum(nodes, trail, {});
  }

  // Going up from a node ends at a top or at a node met before.
  lemma {:induction false} Climb(nodes: seq<Node>, below: seq<Node>, n: Node) returns (trail: seq<Node>)
    requires n in nodes && (forall m | m in below :: m in nodes) && DistinctBy(below, NodeId)
             && Linked(nodes, below + [n])
    ensures below + [n] <= trail && Linked(nodes, trail) && DistinctBy(trail[..|trail| - 1], NodeId)
    ensures IsTop(nodes, trail[|trail| - 1]) || trail[|trail| - 1].id in NodeIds(trail[..|trail| - 1])
    decreases NodeIds(nodes) - NodeIds(below)
  {
    var here := below + [n];
    assert here[..|below|] == below;
    if IsTop(nodes, n) || n.id in NodeIds(below) {
      trail := here;
    } else {
      var parent := Lookup(nodes, n.parentId.value).value;
      forall m | m in below ensures NodeId(m) != NodeId(n) { assert m.id in NodeIds(below); }
      DistinctByConcat(below, [n], NodeId);
      assert n in here && n.id in NodeIds(here) && n.id in NodeIds(nodes);
      forall m | m in below ensures m in here {}
      assert NodeIds(below) <= NodeIds(here);
      LinkedOn(nodes, here, parent);
      hide Linked;
      trail := Climb(nodes, here, parent);
    }
  }

  lemma LinkedOn(nodes: seq<Node>, here: seq<Node>, parent: Node)
    requires here != [] && Linked(nodes, here)
    requires var n := here[|here| - 1]; !IsTop(nodes, n) && Lookup(nodes, n.parentId.value) == Some(parent)
    ensures Linked(nodes, here + [parent])
  {
    hide IsTop, Lookup;
  }

  lemma {:induction false} LinkedToTop(nodes: seq<Node>, trail: seq<Node>)
    requires trail != [] && trail[0] in nodes && Linked(nodes, trail) && IsTop(nodes, trail[|trail| - 1])
    ensures ParentChain(nodes, trail)
    decreases |trail|
  {
    if |trail| > 1 {
      var rest := trail[1..];
      forall i | 0 <= i < |rest| - 1
        ensures !IsTop(nodes, rest[i]) && Lookup(nodes, rest[i].parentId.value) == Some(rest[i + 1])
      {
        assert rest[i] == trail[i + 1] && rest[i + 1] == trail[i + 2];
      }
      LinkedToTop(nodes, rest);
    }
  }

  // So the recursion is the sum along one of the two for every node of every
  // graph.
  lemma AbsoluteOnAny(nodes: seq<Node>, n: Node) returns (trail: seq<Node>)
    requires UniqueNodeIds(nodes) && n in nodes
    ensures trail != [] && trail[0] == n && (ParentChain(nodes, trail) || Loops(nodes, trail))
    ensures AbsoluteBase(n, nodes, {}) == ChainSum(trail)
  {
    trail := Climb(nodes, [], n);
    assert trail[0] == n by { assert ([] + [n])[0] == n; }
    if IsTop(nodes, trail[|trail| - 1]) {
      LinkedToTop(nodes, trail);
      AbsoluteIsSum(nodes, trail, {});
    } else {
      AbsoluteOnCycle(nodes, trail);
    }
  }

  // --- removed nodes ---

  predicate ParentDeleted(node: Node, base: seq<Node>, draftIds: set<Id>) {
    HasParent(node) && Lookup(base, node.parentId.value).Some? && node.parentId.value !in draftIds
  }

  // A deleted frame stays the coordinate system of its deleted members. Under a
  // current or missing frame the node is drawn on its own.
  function Historical(node: Node, base: seq<Node>, draftIds: set<Id>): Node
    requires node in base
  {
    if ParentDeleted(node, base, draftIds) then node
    else node.(position := AbsoluteBase(node, base, {}), parentId := None)
  }

  // Where the canvas draws a removed node: its own position on top of its
  // drawn parent's.
  function DrawnAt(chain: seq<Node>, base: seq<Node>, draftIds: set<Id>): Position
    requires ParentChain(base, chain)
  {
    var shown := Historical(chain[0], base, draftIds);
    if shown.parentId.Some? && |chain| > 1 then Plus(DrawnAt(chain[1..], base, draftIds), shown.position)
    else shown.position
  }

  // Whatever was deleted above it, a removed node is drawn where the base
  // version had it.
  lemma {:induction false} RemovedDrawnInPlace(chain: seq<Node>, base: seq<Node>, draftIds: set<Id>)
    requires UniqueNodeIds(base) && ParentChain(base, chain)
    ensures DrawnAt(chain, base, draftIds) == AbsoluteBase(chain[0], base, {})
    decreases |chain|
  {
    AbsoluteIsSum(base, chain, {});
    if ParentDeleted(chain[0], base, draftIds) {
      RemovedDrawnInPlace(chain[1..], base, draftIds);
      AbsoluteIsSum(base, chain[1..], {});
    }
  }

  function NotIn(ids: set<Id>): Node -> bool { (n: Node) => n.id !in ids }

  function Historian(base: seq<Node>, draftIds: set<Id>): Node -> Node {
    (n: Node) => if n in base then Historical(n, base, draftIds) else n
  }

  // The graph with no moves: the draft's nodes, then what the draft removed.
  function StaticNodes(base: seq<Node>, draft: seq<Node>): seq<Node> {
    OrderGroupParentsFirst(draft + Map(Filter(base, NotIn(NodeIds(draft))), Historian(base, NodeIds(draft))))
  }

  lemma {:induction false} MappedKeepsIds(nodes: seq<Node>, f: Node -> Node)
    requires UniqueNodeIds(nodes) && forall n: Node :: f(n).id == n.id
    ensures UniqueNodeIds(Map(nodes, f))
  {
  }

  lemma StaticUnique(base: seq<Node>, draft: seq<Node>)
    requires UniqueNodeIds(base) && UniqueNodeIds(draft)
    ensures UniqueNodeIds(StaticNodes(base, draft))
  {
    hide Historical, OrderGroupParentsFirst;
    var gone := Filter(base, NotIn(NodeIds(draft)));
    var shown := Map(gone, Historian(base, NodeIds(draft)));
    FilterDistinctBy(base, NotIn(NodeIds(draft)), NodeId);
    HistorianKeepsIds(base, NodeIds(draft));
    MappedKeepsIds(gone, Historian(base, NodeIds(draft)));
    forall d, m | d in draft && m in shown ensures NodeId(d) != NodeId(m) {
      MapHas(gone, Historian(base, NodeIds(draft)), m);
      assert d.id in NodeIds(draft);
    }
    DistinctByConcat(draft, shown, NodeId);
    OrderUnique(draft + shown);
  }

  lemma HistorianKeepsIds(base: seq<Node>, draftIds: set<Id>)
    ensures forall n: Node :: Historian(base, draftIds)(n).id == n.id
  {
  }

  // --- moves ---

  type Overrides = map<Id, Position>

  // A removed node's place in the list and where it is drawn unmoved.
  datatype Slot = Slot(id: Id, index: nat, defaultPosition: Position)

  function Wanted(slot: Slot, overrides: Overrides): Position {
    if slot.id in overrides then overrides[slot.id] else slot.defaultPosition
  }

  function SlotsFrom(nodes: seq<Node>, draftIds: set<Id>, i: nat): seq<Slot>
    requires i <= |nodes|
    decreases |nodes| - i
  {
    if i == |nodes| then []
    else
      (if nodes[i].id in draftIds then [] else [Slot(nodes[i].id, i, nodes[i].position)])
      + SlotsFrom(nodes, draftIds, i + 1)
  }

  ghost predicate SlotsFit(slots: seq<Slot>, nodes: seq<Node>) {
    && (forall s | s in slots :: s.index < |nodes| && nodes[s.index].id == s.id
         && nodes[s.index].position == s.defaultPosition)
    && (forall i, j | 0 <= i < j < |slots| :: slots[i].index != slots[j].index)
  }

  lemma {:induction false} SlotsFromFit(nodes: seq<Node>, draftIds: set<Id>, i: nat)
    requires i <= |nodes|
    ensures SlotsFit(SlotsFrom(nodes, draftIds, i), nodes)
    ensures forall s | s in SlotsFrom(nodes, draftIds, i) :: s.index >= i && s.id !in draftIds
    ensures forall k | i <= k < |nodes| && nodes[k].id !in draftIds ::
              exists s :: s in SlotsFrom(nodes, draftIds, i) && s.index == k
    decreases |nodes| - i
  {
    if i < |nodes| {
      var rest := SlotsFrom(nodes, draftIds, i + 1);
      SlotsFromFit(nodes, draftIds, i + 1);
      var all := SlotsFrom(nodes, draftIds, i);
      forall k | i <= k < |nodes| && nodes[k].id !in draftIds ensures exists s :: s in all && s.index == k {
        if k > i {
          var s :| s in rest && s.index == k;
          assert s in all;
        } else {
          assert all[0].index == i;
        }
      }
      forall a, b | 0 <= a < b < |all| ensures all[a].index != all[b].index {
        if nodes[i].id !in draftIds {
          assert all[b] == rest[b - 1];
          assert rest[b - 1] in rest;
          if a > 0 { assert all[a] == rest[a - 1]; }
        }
      }
    }
  }

  // The moved graph from scratch: every slot at its wanted position, every
  // other node as it stands.
  ghost predicate IsMoved(out: seq<Node>, nodes: seq<Node>, slots: seq<Slot>, overrides: Overrides) {
    && |out| == |nodes|
    && (forall s | s in slots :: s.index < |nodes| && out[s.index] == nodes[s.index].(position := Wanted(s, overrides)))
    && (forall i | 0 <= i < |nodes| && (forall s | s in slots :: s.index != i) :: out[i] == nodes[i])
  }

  lemma MovedUnique(out: seq<Node>, out': seq<Node>, nodes: seq<Node>, slots: seq<Slot>, overrides: Overrides)
    requires IsMoved(out, nodes, slots, overrides) && IsMoved(out', nodes, slots, overrides)
    ensures out == out'
  {
  }

  // --- what is drawn ---

  // A removed node keeps everything but its place: its frame stays exactly when
  // the frame was removed too.
  lemma HistoricalExact(node: Node, base: seq<Node>, draftIds: set<Id>)
    requires UniqueNodeIds(base) && node in base
    ensures var shown := Historical(node, base, draftIds);
            var kept := node.parentId.Some? && node.parentId.value != ""
                        && node.parentId.value in NodeIds(base) && node.parentId.value !in draftIds;
            && shown.id == node.id && shown.kind == node.kind && shown.data == node.data
            && (kept ==> shown.parentId == node.parentId && shown.position == node.position)
            && (!kept ==> shown.parentId == None && shown.position == AbsoluteBase(node, base, {}))
  {
  }

  // The unmoved graph holds the draft's nodes as they are and every base node the
  // draft lacks, and nothing else.
  lemma StaticExact(base: seq<Node>, draft: seq<Node>, m: Node)
    ensures m in StaticNodes(base, draft)
       <==> (m in draft || exists n :: n in base && n.id !in NodeIds(draft) && m == Historical(n, base, NodeIds(draft)))
  {
    var ids := NodeIds(draft);
    var gone := Filter(base, NotIn(ids));
    OrderPermutes(draft + Map(gone, Historian(base, ids)));
    MapHas(gone, Historian(base, ids), m);
    hide OrderGroupParentsFirst, Historical;
    if n :| n in base && n.id !in ids && m == Historical(n, base, ids) {
      assert n in gone && Historian(base, ids)(n) == m;
    }
  }

  // A moved graph has each slot where the user put it, or else where it was.
  lemma MovedWhere(out: seq<Node>, nodes: seq<Node>, slots: seq<Slot>, overrides: Overrides, slot: Slot)
    requires IsMoved(out, nodes, slots, overrides) && SlotsFit(slots, nodes) && slot in slots
    ensures slot.index < |out| && out[slot.index].id == slot.id
    ensures slot.id in overrides ==> out[slot.index].position == overrides[slot.id]
    ensures slot.id !in overrides ==> out[slot.index] == nodes[slot.index]
  {
  }
}
