// The comparison graph's cache: one entry per payload, updated in place as a
// user moves removed nodes, and never rebuilt.
module ComparisonCache {
  import opened Reachability
  import opened WorkflowGraph
  import opened ComparisonEdges
  import opened ComparisonGraph

  // --- by value ---

  ghost predicate SlotsIn(slots: seq<Slot>, n: nat) {
    forall s | s in slots :: s.index < n
  }

  // `current` once the first `k` slots have been brought to `overrides`: a slot
  // already where it belongs is passed over, any other restarts from the static
  // node.
  ghost function Applied(current: seq<Node>, nodes: seq<Node>, slots: seq<Slot>, overrides: Overrides,
                         k: nat): (r: seq<Node>)
    requires |current| == |nodes| && SlotsIn(slots, |nodes|) && k <= |slots|
    ensures |r| == |nodes|
  {
    if k == 0 then current
    else
      var before := Applied(current, nodes, slots, overrides, k - 1);
      var s := slots[k - 1];
      if current[s.index].position == Wanted(s, overrides) then before
      else before[s.index := nodes[s.index].(position := Wanted(s, overrides))]
  }

  lemma {:induction false} AppliedAt(current: seq<Node>, nodes: seq<Node>, slots: seq<Slot>, previous: Overrides,
                                     overrides: Overrides, k: nat)
    requires SlotsFit(slots, nodes) && IsMoved(current, nodes, slots, previous) && k <= |slots|
    ensures var r := Applied(current, nodes, slots, overrides, k);
            && (forall j | 0 <= j < k ::
               r[slots[j].index] == nodes[slots[j].index].(position := Wanted(slots[j], overrides)))
            && (forall i | 0 <= i < |nodes| && (forall j | 0 <= j < k :: slots[j].index != i) :: r[i] == current[i])
  {
    if k > 0 {
      AppliedAt(current, nodes, slots, previous, overrides, k - 1);
      assert slots[k - 1] in slots;
      assert current[slots[k - 1].index] == nodes[slots[k - 1].index].(position := Wanted(slots[k - 1], previous));
    }
  }

  // Whatever moves came before, one update gives the graph built from scratch.
  lemma AppliedIsMoved(current: seq<Node>, nodes: seq<Node>, slots: seq<Slot>, previous: Overrides,
                       overrides: Overrides)
    requires SlotsFit(slots, nodes) && IsMoved(current, nodes, slots, previous)
    ensures IsMoved(Applied(current, nodes, slots, overrides, |slots|), nodes, slots, overrides)
  {
    AppliedAt(current, nodes, slots, previous, overrides, |slots|);
    forall s | s in slots
      ensures Applied(current, nodes, slots, overrides, |slots|)[s.index] ==
              nodes[s.index].(position := Wanted(s, overrides))
    {
      var j :| 0 <= j < |slots| && slots[j] == s;
    }
    forall i | 0 <= i < |nodes| && (forall s | s in slots :: s.index != i)
      ensures Applied(current, nodes, slots, overrides, |slots|)[i] == nodes[i]
    {
      forall j | 0 <= j < |slots| ensures slots[j].index != i { assert slots[j] in slots; }
    }
  }

  // The cached graph after a whole run of override maps.
  ghost function AfterMoves(nodes: seq<Node>, slots: seq<Slot>, moves: seq<Overrides>): (r: seq<Node>)
    requires SlotsIn(slots, |nodes|)
    ensures |r| == |nodes|
  {
    if moves == [] then nodes
    else Applied(AfterMoves(nodes, slots, moves[..|moves| - 1]), nodes, slots, moves[|moves| - 1], |slots|)
  }

  lemma {:induction false} AfterMovesIsMoved(nodes: seq<Node>, slots: seq<Slot>, moves: seq<Overrides>)
    requires SlotsFit(slots, nodes)
    ensures IsMoved(AfterMoves(nodes, slots, moves), nodes, slots, if moves == [] then map[] else moves[|moves| - 1])
  {
    if moves != [] {
      var before := moves[..|moves| - 1];
      AfterMovesIsMoved(nodes, slots, before);
      AppliedIsMoved(AfterMoves(nodes, slots, before), nodes, slots,
                     if before == [] then map[] else before[|before| - 1], moves[|moves| - 1]);
    }
  }

  // Only the newest override map matters: any history before it gives the graph
  // a rebuild gives.
  lemma HistoryIndependent(nodes: seq<Node>, slots: seq<Slot>, moves: seq<Overrides>, newest: Overrides)
    requires SlotsFit(slots, nodes)
    ensures AfterMoves(nodes, slots, moves + [newest]) == Applied(nodes, nodes, slots, newest, |slots|)
    ensures IsMoved(AfterMoves(nodes, slots, moves + [newest]), nodes, slots, newest)
  {
    AfterMovesIsMoved(nodes, slots, moves + [newest]);
    AppliedIsMoved(nodes, nodes, slots, map[], newest);
    MovedUnique(AfterMoves(nodes, slots, moves + [newest]), Applied(nodes, nodes, slots, newest, |slots|), nodes,
      slots, newest);
  }

  // A node the draft still has never moves.
  lemma DraftNeverMoves(nodes: seq<Node>, draftIds: set<Id>, moves: seq<Overrides>, i: nat)
    requires i < |nodes| && nodes[i].id in draftIds
    ensures SlotsFit(SlotsFrom(nodes, draftIds, 0), nodes)
    ensures AfterMoves(nodes, SlotsFrom(nodes, draftIds, 0), moves)[i] == nodes[i]
  {
    var slots := SlotsFrom(nodes, draftIds, 0);
    SlotsFromFit(nodes, draftIds, 0);
    AfterMovesIsMoved(nodes, slots, moves);
    forall s | s in slots ensures s.index != i {}
  }

  // --- the objects ---

  // Node objects are never written, so a canvas may compare them by identity.
  class NodeCell {
    const node: Node

    constructor (n: Node)
      ensures node == n
    {
      node := n;
    }
  }

  function Values(cells: seq<NodeCell>): (r: seq<Node>)
    ensures |r| == |cells|
    ensures forall i | 0 <= i < |cells| :: r[i] == cells[i].node
  {
    seq(|cells|, i requires 0 <= i < |cells| => cells[i].node)
  }

  class OverrideRecord {
    const moves: Overrides

    constructor (m: Overrides)
      ensures moves == m
    {
      moves := m;
    }
  }

  class DisplayGraph {
    const nodes: seq<NodeCell>
    const edges: seq<ShownEdge>

    constructor (ns: seq<NodeCell>, es: seq<ShownEdge>)
      ensures nodes == ns && edges == es
    {
      nodes, edges := ns, es;
    }
  }

  // The cells of a graph with `overrides` applied. A slot at its default place
  // is the static node object itself, and so is every node that is no slot.
  ghost predicate Faithful(cells: seq<NodeCell>, statics: seq<NodeCell>, slots: seq<Slot>, overrides: Overrides) {
    && IsMoved(Values(cells), Values(statics), slots, overrides)
    && (forall s | s in slots :: cells[s.index] == statics[s.index] <==> Wanted(s, overrides) == s.defaultPosition)
    && (forall i | 0 <= i < |cells| && (forall s | s in slots :: s.index != i) :: cells[i] == statics[i])
  }

  // What the update leaves at a slot: the object it found, the static object,
  // or a copy of the static one at the wanted place.
  ghost predicate SlotDone(cell: NodeCell, before: NodeCell, still: NodeCell, s: Slot, overrides: Overrides) {
    if before.node.position == Wanted(s, overrides) then cell == before
    else if Wanted(s, overrides) == s.defaultPosition then cell == still
    else cell.node == still.node.(position := Wanted(s, overrides))
  }

  // The update after its first `k` slots.
  ghost predicate Swept(cells: seq<NodeCell>, current: seq<NodeCell>, statics: seq<NodeCell>, slots: seq<Slot>,
                        overrides: Overrides, k: nat, copied: bool)
    requires k <= |slots|
  {
    && |cells| == |current| == |statics| && SlotsIn(slots, |current|)
    && (!copied ==> cells == current)
    && (copied ==> exists j :: 0 <= j < k && current[slots[j].index].node.position != Wanted(slots[j], overrides))
    && (forall i | 0 <= i < |cells| && (forall j | 0 <= j < k :: slots[j].index != i) :: cells[i] == current[i])
    && (forall j | 0 <= j < k ::
       SlotDone(cells[slots[j].index], current[slots[j].index], statics[slots[j].index], slots[j], overrides))
  }

  lemma SweepKeeps(cells: seq<NodeCell>, current: seq<NodeCell>, statics: seq<NodeCell>, slots: seq<Slot>,
                   overrides: Overrides, k: nat, copied: bool)
    requires k < |slots| && SlotsFit(slots, Values(statics))
             && Swept(cells, current, statics, slots, overrides, k, copied)
    requires current[slots[k].index].node.position == Wanted(slots[k], overrides)
    ensures Swept(cells, current, statics, slots, overrides, k + 1, copied)
  {
    hide Wanted;
    forall j | 0 <= j < k ensures slots[j].index != slots[k].index {}
    assert cells[slots[k].index] == current[slots[k].index];
  }

  lemma SweepMoves(cells: seq<NodeCell>, current: seq<NodeCell>, statics: seq<NodeCell>, slots: seq<Slot>,
                   overrides: Overrides, k: nat, copied: bool, cell: NodeCell)
    requires k < |slots| && SlotsFit(slots, Values(statics))
             && Swept(cells, current, statics, slots, overrides, k, copied)
    requires slots[k].index < |current| && current[slots[k].index].node.position != Wanted(slots[k], overrides)
    requires SlotDone(cell, current[slots[k].index], statics[slots[k].index], slots[k], overrides)
    ensures Swept(cells[slots[k].index := cell], current, statics, slots, overrides, k + 1, true)
  {
    hide Wanted, SlotDone;
    var out := cells[slots[k].index := cell];
    forall j | 0 <= j < k
      ensures SlotDone(out[slots[j].index], current[slots[j].index], statics[slots[j].index], slots[j], overrides)
    {
      assert out[slots[j].index] == cells[slots[j].index];
    }
    forall i | 0 <= i < |cells| && (forall j | 0 <= j < k + 1 :: slots[j].index != i) ensures out[i] == current[i] {
      assert slots[k].index != i;
    }
  }

  // A slot left in any of the three ways is where it is wanted.
  lemma SlotServed(cell: NodeCell, current: seq<NodeCell>, statics: seq<NodeCell>, slots: seq<Slot>,
                   previous: Overrides, overrides: Overrides, s: Slot)
    requires SlotsFit(slots, Values(statics)) && Faithful(current, statics, slots, previous) && s in slots
    requires SlotDone(cell, current[s.index], statics[s.index], s, overrides)
    ensures cell.node == statics[s.index].node.(position := Wanted(s, overrides))
    ensures cell.node == current[s.index].node ==> cell == current[s.index]
    ensures cell == statics[s.index] <==> Wanted(s, overrides) == s.defaultPosition
  {
  }

  lemma SlotsServed(cells: seq<NodeCell>, current: seq<NodeCell>, statics: seq<NodeCell>, slots: seq<Slot>,
                    previous: Overrides, overrides: Overrides, copied: bool)
    requires SlotsFit(slots, Values(statics)) && Faithful(current, statics, slots, previous)
    requires Swept(cells, current, statics, slots, overrides, |slots|, copied)
    ensures |cells| == |current| == |statics| && SlotsIn(slots, |cells|)
    ensures forall s | s in slots ::
      && cells[s.index].node == statics[s.index].node.(position := Wanted(s, overrides))
      && (cells[s.index].node == current[s.index].node ==> cells[s.index] == current[s.index])
      && (cells[s.index] == statics[s.index] <==> Wanted(s, overrides) == s.defaultPosition)
    ensures forall i | 0 <= i < |cells|
            && (forall s | s in slots :: s.index != i) :: cells[i] == current[i] == statics[i]
  {
    hide Wanted;
    forall s | s in slots
      ensures cells[s.index].node == statics[s.index].node.(position := Wanted(s, overrides))
      ensures cells[s.index].node == current[s.index].node ==> cells[s.index] == current[s.index]
      ensures cells[s.index] == statics[s.index] <==> Wanted(s, overrides) == s.defaultPosition
    {
      var j :| 0 <= j < |slots| && slots[j] == s;
      SlotServed(cells[s.index], current, statics, slots, previous, overrides, s);
    }
    hide SlotDone, IsMoved, SlotsFit;
    forall i | 0 <= i < |cells| && (forall s | s in slots :: s.index != i)
      ensures cells[i] == current[i] == statics[i]
    {
      forall j | 0 <= j < |slots| ensures slots[j].index != i { assert slots[j] in slots; }
    }
  }

  // The finished update serves the new overrides.
  lemma SweptIsFaithful(cells: seq<NodeCell>, current: seq<NodeCell>, statics: seq<NodeCell>, slots: seq<Slot>,
                        previous: Overrides, overrides: Overrides, copied: bool)
    requires SlotsFit(slots, Values(statics)) && Faithful(current, statics, slots, previous)
    requires Swept(cells, current, statics, slots, overrides, |slots|, copied)
    ensures Faithful(cells, statics, slots, overrides) && |cells| == |current|
  {
    SlotsServed(cells, current, statics, slots, previous, overrides, copied);
    hide Wanted, Swept, SlotsFit;
  }

  // Every node left as it was is the same object, and the list was copied
  // exactly when some node changed.
  lemma SweptKeepsObjects(cells: seq<NodeCell>, current: seq<NodeCell>, statics: seq<NodeCell>, slots: seq<Slot>,
                          previous: Overrides, overrides: Overrides, copied: bool)
    requires SlotsFit(slots, Values(statics)) && Faithful(current, statics, slots, previous)
    requires Swept(cells, current, statics, slots, overrides, |slots|, copied)
    ensures |cells| == |current|
    ensures forall i | 0 <= i < |cells| && cells[i].node == current[i].node :: cells[i] == current[i]
    ensures copied <==> Values(cells) != Values(current)
  {
    SlotsServed(cells, current, statics, slots, previous, overrides, copied);
    hide Wanted, SlotDone, Faithful, SlotsFit;
    if copied {
      var j :| 0 <= j < |slots| && current[slots[j].index].node.position != Wanted(slots[j], overrides);
      assert slots[j] in slots;
      assert Values(cells)[slots[j].index] != Values(current)[slots[j].index];
    }
    forall i | 0 <= i < |cells| && cells[i].node == current[i].node ensures cells[i] == current[i] {
      if s :| s in slots && s.index == i {}
    }
  }

  class CacheEntry {
    const slots: seq<Slot>
    const staticGraph: DisplayGraph
    var overrides: OverrideRecord
    var graph: DisplayGraph

    ghost predicate Valid()
      reads this
    {
      && SlotsFit(slots, Values(staticGraph.nodes))
      && graph.edges == staticGraph.edges
      && Faithful(graph.nodes, staticGraph.nodes, slots, overrides.moves)
    }

    constructor (statics: DisplayGraph, removed: seq<Slot>)
      requires SlotsFit(removed, Values(statics.nodes))
      ensures Valid() && slots == removed && staticGraph == statics && graph == statics
      ensures overrides.moves == map[] && fresh(overrides)
    {
      slots, staticGraph, graph := removed, statics, statics;
      overrides := new OverrideRecord(map[]);
    }

    // Copies the node list on the first slot that moves, and keeps every object
    // that has nothing to change.
    method ApplyPositionOverrides(next: OverrideRecord)
      requires Valid()
      modifies this
      ensures Valid() && overrides == next
      ensures |graph.nodes| == |old(graph).nodes|
      ensures forall i | 0 <= i < |graph.nodes|
              && graph.nodes[i].node == old(graph).nodes[i].node :: graph.nodes[i] == old(graph).nodes[i]
      ensures graph == old(graph) <==> Values(graph.nodes) == Values(old(graph).nodes)
    {
      hide Wanted, Faithful, Swept;
      var current := graph.nodes;
      var cells := current;
      var copied := false;
      SweepStart(current, staticGraph.nodes, slots, overrides.moves, next.moves);
      for k := 0 to |slots|
        invariant Swept(cells, current, staticGraph.nodes, slots, next.moves, k, copied)
        invariant graph == old(graph) && overrides == old(overrides)
      {
        var s := slots[k];
        SlotInRange(cells, current, staticGraph.nodes, slots, next.moves, k, copied);
        var position := Wanted(s, next.moves);
        if current[s.index].node.position != position {
          var cell := staticGraph.nodes[s.index];
          if position != s.defaultPosition {
            cell := new NodeCell(cell.node.(position := position));
          }
          SweepMoves(cells, current, staticGraph.nodes, slots, next.moves, k, copied, cell);
          cells := cells[s.index := cell];
          copied := true;
        } else {
          SweepKeeps(cells, current, staticGraph.nodes, slots, next.moves, k, copied);
        }
      }
      SweptIsFaithful(cells, current, staticGraph.nodes, slots, overrides.moves, next.moves, copied);
      SweptKeepsObjects(cells, current, staticGraph.nodes, slots, overrides.moves, next.moves, copied);
      overrides := next;
      if copied {
        graph := new DisplayGraph(cells, staticGraph.edges);
      } else {
        SweptUncopied(cells, current, staticGraph.nodes, slots, next.moves);
      }
    }
  }

  lemma SweepStart(current: seq<NodeCell>, statics: seq<NodeCell>, slots: seq<Slot>, previous: Overrides,
                   overrides: Overrides)
    requires SlotsFit(slots, Values(statics)) && Faithful(current, statics, slots, previous)
    ensures Swept(current, current, statics, slots, overrides, 0, false)
  {
  }

  lemma SlotInRange(cells: seq<NodeCell>, current: seq<NodeCell>, statics: seq<NodeCell>, slots: seq<Slot>,
                    overrides: Overrides, k: nat, copied: bool)
    requires k < |slots| && Swept(cells, current, statics, slots, overrides, k, copied)
    ensures slots[k].index < |cells| == |current| == |statics|
  {
  }

  lemma SweptUncopied(cells: seq<NodeCell>, current: seq<NodeCell>, statics: seq<NodeCell>, slots: seq<Slot>,
                      overrides: Overrides)
    requires Swept(cells, current, statics, slots, overrides, |slots|, false)
    ensures cells == current
  {
  }

  // --- one entry per payload ---

  class Payload {
    const base: Graph
    const draft: Graph
    const edgeChanges: seq<EdgeChange>

    constructor (b: Graph, d: Graph, changes: seq<EdgeChange>)
      ensures base == b && draft == d && edgeChanges == changes
    {
      base, draft, edgeChanges := b, d, changes;
    }
  }

  // Both snapshots name each node and each edge once.
  ghost predicate Snapshots(p: Payload) {
    && UniqueNodeIds(p.base.nodes) && UniqueNodeIds(p.draft.nodes)
    && UniqueEdgeIds(p.base.edges) && UniqueEdgeIds(p.draft.edges)
  }

  function StaticOf(p: Payload): seq<Node> { StaticNodes(p.base.nodes, p.draft.nodes) }

  function SlotsOf(p: Payload): seq<Slot> { SlotsFrom(StaticOf(p), NodeIds(p.draft.nodes), 0) }

  // The graph a payload shows under `overrides`, built from scratch.
  ghost predicate Shows(graph: DisplayGraph, p: Payload, overrides: Overrides) {
    && IsMoved(Values(graph.nodes), StaticOf(p), SlotsOf(p), overrides)
    && UniqueNodeIds(Values(graph.nodes))
    && ShowsEdges(graph.edges, p.base.edges, p.draft.edges, p.edgeChanges)
  }

  ghost predicate Serves(entry: CacheEntry, p: Payload)
    reads entry
  {
    && entry.Valid() && entry.slots == SlotsOf(p) && Values(entry.staticGraph.nodes) == StaticOf(p)
    && Shows(entry.staticGraph, p, map[])
  }

  lemma MovedKeepsIds(out: seq<Node>, nodes: seq<Node>, slots: seq<Slot>, overrides: Overrides)
    requires IsMoved(out, nodes, slots, overrides) && UniqueNodeIds(nodes)
    ensures UniqueNodeIds(out)
  {
    hide Wanted;
    forall i | 0 <= i < |out| ensures out[i].id == nodes[i].id {
      if s :| s in slots && s.index == i { assert out[s.index] == nodes[s.index].(position := Wanted(s, overrides)); }
    }
    forall i, j | 0 <= i < j < |out|
      ensures NodeId(out[i]) != NodeId(out[j]) { assert NodeId(nodes[i]) != NodeId(nodes[j]); }
  }

  lemma ServesShows(entry: CacheEntry, p: Payload)
    requires Serves(entry, p)
    ensures Shows(entry.graph, p, entry.overrides.moves)
  {
    hide IsMoved, SlotsFit, ShowsEdges;
    MovedKeepsIds(Values(entry.graph.nodes), StaticOf(p), SlotsOf(p), entry.overrides.moves);
  }

  method CellsOf(nodes: seq<Node>) returns (cells: seq<NodeCell>)
    ensures Values(cells) == nodes
  {
    cells := [];
    for i := 0 to |nodes|
      invariant Values(cells) == nodes[..i]
    {
      var cell := new NodeCell(nodes[i]);
      cells := cells + [cell];
    }
  }

  lemma StaticServes(nodes: seq<Node>, draftIds: set<Id>)
    ensures SlotsFit(SlotsFrom(nodes, draftIds, 0), nodes)
    ensures IsMoved(nodes, nodes, SlotsFrom(nodes, draftIds, 0), map[])
  {
    SlotsFromFit(nodes, draftIds, 0);
    AfterMovesIsMoved(nodes, SlotsFrom(nodes, draftIds, 0), []);
  }

  method NewEntry(p: Payload) returns (entry: CacheEntry)
    requires Snapshots(p)
    ensures fresh(entry) && fresh(entry.overrides) && Serves(entry, p) && entry.overrides.moves == map[]
            && entry.graph == entry.staticGraph
  {
    hide StaticNodes, SlotsFrom, ShowsEdges, IsMoved, SlotsFit;
    StaticUnique(p.base.nodes, p.draft.nodes);
    var edges := DisplayEdges(p.base.edges, p.draft.edges, p.edgeChanges);
    var cells := CellsOf(StaticOf(p));
    StaticServes(StaticOf(p), NodeIds(p.draft.nodes));
    var statics := new DisplayGraph(cells, edges);
    entry := new CacheEntry(statics, SlotsOf(p));
  }

  class DisplayGraphs {
    var cached: map<Payload, CacheEntry>

    ghost predicate Valid()
      reads this, cached.Values
    {
      && (forall p | p in cached :: Serves(cached[p], p))
      && (forall p, q | p in cached && q in cached && p != q :: cached[p] != cached[q])
    }

    constructor ()
      ensures Valid() && cached == map[]
    {
      cached := map[];
    }

    // Whatever was asked before, the answer is the payload's graph under these
    // overrides. The same override object gets the same graph object.
    method BuildComparisonDisplayGraph(payload: Payload, overrides: OverrideRecord) returns (graph: DisplayGraph)
      requires Valid() && Snapshots(payload)
      modifies this, if payload in cached then {cached[payload]} else {}
      ensures Valid()
      ensures Shows(graph, payload, overrides.moves)
      ensures payload in cached && cached[payload].overrides == overrides && cached[payload].graph == graph
      ensures payload in old(cached) ==> cached == old(cached)
      ensures old(payload in cached && cached[payload].overrides == overrides) ==> graph == old(cached[payload].graph)
      ensures forall p | p in old(cached) && p != payload :: p in cached && cached[p] == old(cached)[p]
    {
      hide Serves, Shows, Snapshots;
      if payload in cached {
        var hit := cached[payload];
        if hit.overrides == overrides {
          ServesShows(hit, payload);
          return hit.graph;
        }
      } else {
        var entry := NewEntry(payload);
        cached := cached[payload := entry];
      }
      var entry := cached[payload];
      Update(entry, payload, overrides);
      graph := entry.graph;
    }
  }

  method Update(entry: CacheEntry, p: Payload, overrides: OverrideRecord)
    requires Serves(entry, p)
    modifies entry
    ensures Serves(entry, p) && entry.overrides == overrides && Shows(entry.graph, p, overrides.moves)
  {
    hide Shows;
    entry.ApplyPositionOverrides(overrides);
    ServesShows(entry, p);
  }
}
