// Copying a selection and cloning it with fresh ids: what is taken, and what the
// clone looks like.
module CopySelection {
  import opened Reachability
  import opened Sequences
  import opened WorkflowGraph

  // A config value as the template parser splits it.
  datatype Segment = Literal(text: string) | Token(nodeId: Id, nodeLabel: string, fieldPath: string)

  type TokenConfig = map<string, seq<Segment>>

  // What a copy carries along unread. A size is the one a resize left, if any.
  datatype Attributes = Attributes(labelText: string, description: Option<string>, enabled: Option<bool>,
                                   width: Option<real>, height: Option<real>)

  datatype CanvasNode = CanvasNode(id: Id, kind: Kind, parentId: Option<Id>, position: Position,
                                   config: Option<TokenConfig>,
                                   attributes: Attributes)

  datatype Selection = Selection(nodes: seq<CanvasNode>, edges: seq<Edge>)

  function CanvasId(n: CanvasNode): Id { n.id }

  function IdsOf(nodes: seq<CanvasNode>): set<Id> { set n | n in nodes :: n.id }

  predicate Copyable(n: CanvasNode) { n.kind != Lifecycle && n.kind != Add }

  predicate Parented(n: CanvasNode) { n.parentId.Some? && n.parentId.value != "" }

  // --- taking a selection ---

  // The Groups a requested frame or member brings along.
  function WholeGroups(nodes: seq<CanvasNode>, ids: set<Id>): set<Id> {
    (set n | n in nodes && n.id in ids && n.kind == Group :: n.id)
    + (set n | n in nodes && n.id in ids && n.kind != Group && Parented(n) :: n.parentId.value)
  }

  function ExpandGroupCopyIds(nodes: seq<CanvasNode>, ids: set<Id>): set<Id> {
    var frames := WholeGroups(nodes, ids);
    ids + frames + set n | n in nodes && n.parentId.Some? && n.parentId.value in frames :: n.id
  }

  function CopyIds(nodes: seq<CanvasNode>, nodeIds: set<Id>, wholeGroups: bool): set<Id> {
    var requested := set n | n in nodes && Copyable(n) && n.id in nodeIds :: n.id;
    if wholeGroups then ExpandGroupCopyIds(nodes, requested) else requested
  }

  function NodeIn(ids: set<Id>): CanvasNode -> bool { (n: CanvasNode) => n.id in ids }

  function EdgeWithin(ids: set<Id>): Edge -> bool { (e: Edge) => e.source in ids && e.target in ids }

  function ExtractCopyable(canvas: Selection, nodeIds: set<Id>, wholeGroups: bool): Option<Selection> {
    if !(exists n :: n in canvas.nodes && Copyable(n) && n.id in nodeIds) then None
    else
      var ids := CopyIds(canvas.nodes, nodeIds, wholeGroups);
      Some(Selection(Filter(canvas.nodes, NodeIn(ids)), Filter(canvas.edges, EdgeWithin(ids))))
  }

  // Ids are distinct and every edge runs between the selection's own nodes.
  ghost predicate SelfContained(s: Selection) {
    && DistinctBy(s.nodes, CanvasId)
    && DistinctBy(s.edges, EdgeId)
    && forall e | e in s.edges :: e.source in IdsOf(s.nodes) && e.target in IdsOf(s.nodes)
  }

  lemma ExtractSelfContained(canvas: Selection, nodeIds: set<Id>, wholeGroups: bool)
    requires SelfContained(canvas) && ExtractCopyable(canvas, nodeIds, wholeGroups).Some?
    ensures var taken := ExtractCopyable(canvas, nodeIds, wholeGroups).value;
            && SelfContained(taken)
            && ArcsOf(taken.edges) <= ArcsOf(canvas.edges)
            && forall e | e in canvas.edges :: e in taken.edges
                <==> e.source in IdsOf(taken.nodes) && e.target in IdsOf(taken.nodes)
  {
    var ids := CopyIds(canvas.nodes, nodeIds, wholeGroups);
    var taken := ExtractCopyable(canvas, nodeIds, wholeGroups).value;
    FilterDistinctBy(canvas.nodes, NodeIn(ids), CanvasId);
    FilterDistinctBy(canvas.edges, EdgeWithin(ids), EdgeId);
    forall e, id | e in canvas.edges && (id == e.source || id == e.target)
      ensures id in ids <==> id in IdsOf(taken.nodes) {
      var n :| n in canvas.nodes && n.id == id;
      if id in IdsOf(taken.nodes) { var m :| m in taken.nodes && m.id == id; }
      if id in ids { assert n in taken.nodes; }
    }
  }

  ghost predicate Requested(canvas: Selection, nodeIds: set<Id>, n: CanvasNode) {
    n in canvas.nodes && n.id in nodeIds && n.kind != Lifecycle && n.kind != Add
  }

  // `n` belongs to the Group that `m` is or is in.
  predicate BroughtBy(m: CanvasNode, n: CanvasNode) {
    if m.kind == Group then n.parentId == Some(m.id)
    else Parented(m) && (n.id == m.parentId.value || n.parentId == m.parentId)
  }

  ghost predicate Taken(canvas: Selection, nodeIds: set<Id>, wholeGroups: bool, n: CanvasNode) {
    Requested(canvas, nodeIds, n) || (wholeGroups && exists m :: Requested(canvas, nodeIds, m) && BroughtBy(m, n))
  }

  // Exactly which nodes are taken: the requested ones, and with whole Groups
  // everything in the Group of a requested frame or member.
  lemma ExtractExact(canvas: Selection, nodeIds: set<Id>, wholeGroups: bool)
    requires DistinctBy(canvas.nodes, CanvasId)
    ensures var taken := ExtractCopyable(canvas, nodeIds, wholeGroups);
            && (taken.Some? <==> exists n :: Requested(canvas, nodeIds, n))
            && (taken.Some? ==> forall n ::
                  n in taken.value.nodes <==> n in canvas.nodes && Taken(canvas, nodeIds, wholeGroups, n))
  {
    var requested := set n | n in canvas.nodes && Copyable(n) && n.id in nodeIds :: n.id;
    var taken := ExtractCopyable(canvas, nodeIds, wholeGroups);
    assert taken.Some? <==> exists n :: Requested(canvas, nodeIds, n) by {
      if n :| Requested(canvas, nodeIds, n) {}
      if taken.Some? {
        var n :| n in canvas.nodes && Copyable(n) && n.id in nodeIds;
        assert Requested(canvas, nodeIds, n);
      }
    }
    forall n | n in canvas.nodes ensures n.id in requested <==> Requested(canvas, nodeIds, n) {
      if m :| m in canvas.nodes && Copyable(m) && m.id in nodeIds
            && m.id == n.id { DistinctByKey(canvas.nodes, CanvasId, m, n); }
    }
    forall n | n in canvas.nodes
      ensures n.id in ExpandGroupCopyIds(canvas.nodes, requested)
        <==> Requested(canvas, nodeIds, n) || exists m :: Requested(canvas, nodeIds, m) && BroughtBy(m, n)
    {
      ExpandedExactly(canvas, nodeIds, requested, n);
    }
  }

  lemma ExpandedExactly(canvas: Selection, nodeIds: set<Id>, requested: set<Id>, n: CanvasNode)
    requires DistinctBy(canvas.nodes, CanvasId) && n in canvas.nodes
    requires forall m | m in canvas.nodes :: m.id in requested <==> Requested(canvas, nodeIds, m)
    ensures n.id in ExpandGroupCopyIds(canvas.nodes, requested)
       <==> Requested(canvas, nodeIds, n) || exists m :: Requested(canvas, nodeIds, m) && BroughtBy(m, n)
  {
    var frames := WholeGroups(canvas.nodes, requested);
    if n.id in frames && n.id !in requested {
      var m :| m in canvas.nodes && m.id in requested && m.kind != Group && Parented(m) && m.parentId.value == n.id;
      assert BroughtBy(m, n);
    }
    if c :| c in canvas.nodes && c.parentId.Some? && c.parentId.value in frames && c.id == n.id {
      DistinctByKey(canvas.nodes, CanvasId, c, n);
      var id := c.parentId.value;
      if m :| m in canvas.nodes && m.id in requested && m.kind == Group && m.id == id {
        assert BroughtBy(m, n);
      } else {
        var m :| m in canvas.nodes && m.id in requested && m.kind != Group && Parented(m) && m.parentId.value == id;
        assert BroughtBy(m, n);
      }
    }
    if m :| Requested(canvas, nodeIds, m) && BroughtBy(m, n) {
      assert m.id in requested;
      if m.kind == Group { assert m.id in frames; } else { assert m.parentId.value in frames; }
    }
  }

  // The Lifecycle Node is left behind exactly when no requested Group holds it.
  lemma LifecycleLeftBehind(canvas: Selection, nodeIds: set<Id>, wholeGroups: bool, entry: CanvasNode)
    requires DistinctBy(canvas.nodes, CanvasId) && entry in canvas.nodes && entry.kind == Lifecycle
    requires ExtractCopyable(canvas, nodeIds, wholeGroups).Some?
    ensures var frames :=
            WholeGroups(canvas.nodes, set n | n in canvas.nodes && Copyable(n) && n.id in nodeIds :: n.id);
            entry in ExtractCopyable(canvas, nodeIds, wholeGroups).value.nodes
            <==> wholeGroups && (entry.id in frames || (entry.parentId.Some? && entry.parentId.value in frames))
  {
    var requested := set n | n in canvas.nodes && Copyable(n) && n.id in nodeIds :: n.id;
    assert entry.id !in requested by {
      if entry.id in requested {
        var n :| n in canvas.nodes && Copyable(n) && n.id == entry.id;
        DistinctByKey(canvas.nodes, CanvasId, n, entry);
      }
    }
    var frames := WholeGroups(canvas.nodes, requested);
    var ids := ExpandGroupCopyIds(canvas.nodes, requested);
    if entry.id in ids && entry.id !in frames {
      var n :| n in canvas.nodes && n.parentId.Some? && n.parentId.value in frames && n.id == entry.id;
      DistinctByKey(canvas.nodes, CanvasId, n, entry);
    }
  }

  // Under the stored Group rules, where members are action steps and parents are
  // frames, that never happens.
  lemma LifecycleNeverCopied(canvas: Selection, nodeIds: set<Id>, wholeGroups: bool, entry: CanvasNode)
    requires DistinctBy(canvas.nodes, CanvasId) && entry in canvas.nodes && entry.kind == Lifecycle
    requires forall n | n in canvas.nodes && n.parentId.Some? ::
      n.kind == Action && exists f :: f in canvas.nodes && f.id == n.parentId.value && f.kind == Group
    requires ExtractCopyable(canvas, nodeIds, wholeGroups).Some?
    ensures entry !in ExtractCopyable(canvas, nodeIds, wholeGroups).value.nodes
  {
    LifecycleLeftBehind(canvas, nodeIds, wholeGroups, entry);
    var requested := set n | n in canvas.nodes && Copyable(n) && n.id in nodeIds :: n.id;
    var frames := WholeGroups(canvas.nodes, requested);
    forall n | n in canvas.nodes && n.kind == Group ensures n.id != entry.id {
      if n.id == entry.id { DistinctByKey(canvas.nodes, CanvasId, n, entry); }
    }
    forall id | id in frames ensures id != entry.id {
      if m :| m in canvas.nodes && m.id in requested && m.kind != Group && Parented(m) && m.parentId.value == id {
        var f :| f in canvas.nodes && f.id == id && f.kind == Group;
      }
    }
  }

  // --- cloning ---

  // `createId` as the ids it answers in turn.
  type Minted = nat -> Id

  // One fresh id per node, in order.
  function IdMap(nodes: seq<CanvasNode>, mint: Minted): map<Id, Id> {
    if nodes == [] then map[]
    else IdMap(nodes[..|nodes| - 1], mint)[nodes[|nodes| - 1].id := mint(|nodes| - 1)]
  }

  function RemapSegment(s: Segment, idMap: map<Id, Id>): Segment {
    if s.Token? && s.nodeId in idMap && idMap[s.nodeId] != "" then s.(nodeId := idMap[s.nodeId]) else s
  }

  function SegmentMapper(idMap: map<Id, Id>): Segment -> Segment {
    (s: Segment) => RemapSegment(s, idMap)
  }

  function RemapConfig(config: Option<TokenConfig>, idMap: map<Id, Id>): Option<TokenConfig> {
    if config.None? then None
    else Some(map k | k in config.value :: Map(config.value[k], SegmentMapper(idMap)))
  }

  function CloneNode(n: CanvasNode, idMap: map<Id, Id>, offset: Position): CanvasNode
    requires n.id in idMap
  {
    var parentCopied := n.parentId.Some? && n.parentId.value in idMap;
    CanvasNode(
      idMap[n.id],
      n.kind,
      if parentCopied then Some(idMap[n.parentId.value]) else None,
      if parentCopied then n.position else Position(n.position.x + offset.x, n.position.y + offset.y),
      RemapConfig(n.config, idMap),
      n.attributes)
  }

  function CloneEdge(e: Edge, idMap: map<Id, Id>, id: Id): Edge
    requires e.source in idMap && e.target in idMap
  {
    e.(id := id, source := idMap[e.source], target := idMap[e.target])
  }

  lemma {:induction false} IdMapKeys(nodes: seq<CanvasNode>, mint: Minted)
    ensures IdMap(nodes, mint).Keys == IdsOf(nodes)
  {
    if nodes != [] {
      var front, last := nodes[..|nodes| - 1], nodes[|nodes| - 1];
      IdMapKeys(front, mint);
      assert nodes == front + [last];
      assert IdsOf(nodes) == IdsOf(front) + {last.id} by {
        assert last in nodes;
        forall n | n in front ensures n in nodes {}
      }
    }
  }

  lemma {:induction false} IdMapAt(nodes: seq<CanvasNode>, mint: Minted, i: nat)
    requires DistinctBy(nodes, CanvasId) && i < |nodes|
    ensures nodes[i].id in IdMap(nodes, mint) && IdMap(nodes, mint)[nodes[i].id] == mint(i)
  {
    var front, last := nodes[..|nodes| - 1], nodes[|nodes| - 1];
    if i < |nodes| - 1 {
      assert CanvasId(nodes[i]) != CanvasId(last);
      forall a, b | 0 <= a < b < |front| ensures CanvasId(front[a]) != CanvasId(front[b]) {
        assert CanvasId(nodes[a]) != CanvasId(nodes[b]);
      }
      IdMapAt(front, mint, i);
      assert front[i] == nodes[i];
    }
  }

  // The ids minted for one clone differ from each other and from `used`, and
  // none is empty.
  ghost predicate MintsFreshIds(mint: Minted, count: nat, used: set<Id>) {
    && (forall i, j | 0 <= i < j < count :: mint(i) != mint(j))
    && (forall i | 0 <= i < count :: mint(i) !in used && mint(i) != "")
  }

  lemma IdMapSource(nodes: seq<CanvasNode>, mint: Minted, a: Id) returns (i: nat)
    requires DistinctBy(nodes, CanvasId) && a in IdMap(nodes, mint)
    ensures i < |nodes| && nodes[i].id == a && IdMap(nodes, mint)[a] == mint(i)
  {
    IdMapKeys(nodes, mint);
    hide IdMap;
    var n :| n in nodes && n.id == a;
    i :| 0 <= i < |nodes| && nodes[i] == n;
    IdMapAt(nodes, mint, i);
  }

  lemma IdMapInjective(nodes: seq<CanvasNode>, mint: Minted, used: set<Id>, count: nat)
    requires DistinctBy(nodes, CanvasId) && |nodes| <= count && MintsFreshIds(mint, count, used)
    ensures InjectiveOn(IdMap(nodes, mint))
    ensures forall a | a in IdMap(nodes, mint) :: IdMap(nodes, mint)[a] !in used && IdMap(nodes, mint)[a] != ""
  {
    hide IdMap;
    var f := IdMap(nodes, mint);
    forall a, b | a in f && b in f && f[a] == f[b] ensures a == b {
      var i := IdMapSource(nodes, mint, a);
      var j := IdMapSource(nodes, mint, b);
    }
    forall a | a in f ensures f[a] !in used && f[a] != "" {
      var i := IdMapSource(nodes, mint, a);
    }
  }

  ghost predicate ClonesNodes(nodes: seq<CanvasNode>, originals: seq<CanvasNode>, f: map<Id, Id>, offset: Position) {
    && |nodes| == |originals|
    && forall i | 0 <= i < |originals| :: originals[i].id in f && nodes[i] == CloneNode(originals[i], f, offset)
  }

  ghost predicate ClonesEdges(edges: seq<Edge>, originals: seq<Edge>, f: map<Id, Id>, mint: Minted, base: nat) {
    && |edges| == |originals|
    && (forall e | e in originals :: e.source in f && e.target in f)
    && forall i | 0 <= i < |originals| :: originals[i] in originals
        && edges[i] == CloneEdge(originals[i], f, mint(base + i))
  }

  // What cloning promises of the result, one to one with the selection.
  ghost predicate IsCloneOf(clone: Selection, s: Selection, offset: Position, mint: Minted) {
    var f := IdMap(s.nodes, mint);
    && f.Keys == IdsOf(s.nodes)
    && ClonesNodes(clone.nodes, s.nodes, f, offset)
    && ClonesEdges(clone.edges, s.edges, f, mint, |s.nodes|)
  }

  method CloneNodes(originals: seq<CanvasNode>, f: map<Id, Id>, offset: Position) returns (nodes: seq<CanvasNode>)
    requires IdsOf(originals) <= f.Keys
    ensures ClonesNodes(nodes, originals, f, offset)
  {
    hide CloneNode;
    forall i | 0 <= i < |originals| ensures originals[i].id in f { assert originals[i].id in IdsOf(originals); }
    nodes := [];
    for i := 0 to |originals|
      invariant |nodes| == i
      invariant forall j | 0 <= j < i :: nodes[j] == CloneNode(originals[j], f, offset)
    {
      nodes := nodes + [CloneNode(originals[i], f, offset)];
    }
  }

  method CloneEdges(originals: seq<Edge>, f: map<Id, Id>, mint: Minted, base: nat) returns (edges: seq<Edge>)
    requires forall e | e in originals :: e.source in f && e.target in f
    ensures ClonesEdges(edges, originals, f, mint, base)
  {
    hide CloneEdge;
    forall i | 0 <= i < |originals| ensures originals[i] in originals {}
    edges := [];
    for i := 0 to |originals|
      invariant |edges| == i
      invariant forall j | 0 <= j < i :: edges[j] == CloneEdge(originals[j], f, mint(base + j))
    {
      edges := edges + [CloneEdge(originals[i], f, mint(base + i))];
    }
  }

  method CloneSelection(s: Selection, offset: Position, mint: Minted) returns (clone: Selection)
    requires SelfContained(s)
    ensures IsCloneOf(clone, s, offset, mint)
  {
    hide CloneNode, CloneEdge;
    var idMap: map<Id, Id> := map[];
    for i := 0 to |s.nodes|
      invariant idMap == IdMap(s.nodes[..i], mint)
    {
      idMap := idMap[s.nodes[i].id := mint(i)];
      assert s.nodes[..i + 1][..i] == s.nodes[..i];
    }
    assert s.nodes[..|s.nodes|] == s.nodes;
    IdMapKeys(s.nodes, mint);
    var nodes := CloneNodes(s.nodes, idMap, offset);
    var edges := CloneEdges(s.edges, idMap, mint, |s.nodes|);
    clone := Selection(nodes, edges);
  }

  // The clone's arcs are the originals' under the renaming.
  lemma CloneArcs(edges: seq<Edge>, originals: seq<Edge>, f: map<Id, Id>, mint: Minted, base: nat)
    requires ClonesEdges(edges, originals, f, mint, base)
    ensures Over(ArcsOf(originals), f.Keys) && ArcsOf(edges) == Renamed(ArcsOf(originals), f)
  {
    var renamed := Renamed(ArcsOf(originals), f);
    forall e | e in edges ensures ArcOf(e) in renamed {
      var i :| 0 <= i < |edges| && edges[i] == e;
      assert ArcOf(originals[i]) in ArcsOf(originals);
    }
    forall p | p in ArcsOf(originals) ensures (f[p.0], f[p.1]) in ArcsOf(edges) {
      var e :| e in originals && ArcOf(e) == p;
      var i :| 0 <= i < |originals| && originals[i] == e;
      assert ArcOf(edges[i]) == (f[p.0], f[p.1]);
    }
  }

  // An isomorphism onto fresh ids: paths between copied nodes are exactly the
  // paths between their originals.
  lemma CloneIsomorphic(clone: Selection, s: Selection, offset: Position, mint: Minted, used: set<Id>, a: Id, b: Id)
    requires SelfContained(s) && IsCloneOf(clone, s, offset, mint)
    requires MintsFreshIds(mint, |s.nodes| + |s.edges|, used)
    requires a in IdsOf(s.nodes) && b in IdsOf(s.nodes)
    ensures var f := IdMap(s.nodes, mint);
            InjectiveOn(f) && (Reaches(ArcsOf(clone.edges), f[a], f[b]) <==> Reaches(ArcsOf(s.edges), a, b))
  {
    hide IdMap;
    var f := IdMap(s.nodes, mint);
    IdMapInjective(s.nodes, mint, used, |s.nodes| + |s.edges|);
    CloneArcs(clone.edges, s.edges, f, mint, |s.nodes|);
    RenamedReaches(ArcsOf(s.edges), f, a, b);
  }

  lemma CloneNodeIds(clone: Selection, s: Selection, offset: Position, mint: Minted)
    requires SelfContained(s) && IsCloneOf(clone, s, offset, mint)
    ensures |clone.nodes| == |s.nodes| && |clone.edges| == |s.edges|
    ensures forall i | 0 <= i < |s.nodes| :: clone.nodes[i].id == mint(i)
    ensures forall i | 0 <= i < |s.edges| :: clone.edges[i].id == mint(|s.nodes| + i)
  {
    forall i | 0 <= i < |s.nodes| ensures clone.nodes[i].id == mint(i) {
      IdMapAt(s.nodes, mint, i);
    }
  }

  lemma CloneEnds(clone: Selection, s: Selection, offset: Position, mint: Minted, e: Edge)
    requires SelfContained(s) && IsCloneOf(clone, s, offset, mint) && e in clone.edges
    ensures e.source in IdsOf(clone.nodes) && e.target in IdsOf(clone.nodes)
  {
  }

  lemma MintedDistinct(clone: Selection, mint: Minted, used: set<Id>)
    requires MintsFreshIds(mint, |clone.nodes| + |clone.edges|, used)
    requires forall i | 0 <= i < |clone.nodes| :: clone.nodes[i].id == mint(i)
    requires forall i | 0 <= i < |clone.edges| :: clone.edges[i].id == mint(|clone.nodes| + i)
    ensures DistinctBy(clone.nodes, CanvasId) && DistinctBy(clone.edges, EdgeId)
    ensures IdsOf(clone.nodes) !! used && EdgeIds(clone.edges) !! used
  {
  }

  // The clone stands on its own with distinct fresh ids.
  lemma CloneSelfContained(clone: Selection, s: Selection, offset: Position, mint: Minted, used: set<Id>)
    requires SelfContained(s) && IsCloneOf(clone, s, offset, mint)
    requires MintsFreshIds(mint, |s.nodes| + |s.edges|, used)
    ensures SelfContained(clone) && IdsOf(clone.nodes) !! used && EdgeIds(clone.edges) !! used
  {
    hide IsCloneOf, MintsFreshIds, IdsOf, EdgeIds;
    CloneNodeIds(clone, s, offset, mint);
    MintedDistinct(clone, mint, used);
    forall e | e in clone.edges ensures e.source in IdsOf(clone.nodes) && e.target in IdsOf(clone.nodes) {
      CloneEnds(clone, s, offset, mint, e);
    }
  }

  // Top-level nodes move by one offset, members keep their place in their frame.
  lemma ClonePositions(clone: Selection, s: Selection, offset: Position, mint: Minted, i: nat)
    requires SelfContained(s) && IsCloneOf(clone, s, offset, mint) && i < |s.nodes|
    ensures var n, m := s.nodes[i], clone.nodes[i];
            var inFrame := n.parentId.Some? && n.parentId.value in IdsOf(s.nodes);
            && m.kind == n.kind && m.attributes == n.attributes
            && (m.parentId.Some? <==> inFrame)
            && m.position == (if inFrame then n.position
               else Position(n.position.x + offset.x, n.position.y + offset.y))
            && (inFrame ==> exists j :: 0 <= j < |s.nodes| && s.nodes[j].id == n.parentId.value
                             && clone.nodes[j].id == m.parentId.value)
  {
    var n := s.nodes[i];
    if n.parentId.Some? && n.parentId.value in IdsOf(s.nodes) {
      var p :| p in s.nodes && p.id == n.parentId.value;
      var j :| 0 <= j < |s.nodes| && s.nodes[j] == p;
      assert clone.nodes[j].id == IdMap(s.nodes, mint)[p.id];
    }
  }

  // Where a copied node stands in the selection, its clone stands in the clone.
  lemma CloneAt(clone: Selection, s: Selection, offset: Position, mint: Minted, a: Id) returns (j: nat)
    requires SelfContained(s) && IsCloneOf(clone, s, offset, mint) && a in IdMap(s.nodes, mint)
    ensures j < |s.nodes| && j < |clone.nodes| && s.nodes[j].id == a
    ensures clone.nodes[j].id == IdMap(s.nodes, mint)[a] == mint(j)
  {
    hide IdMap;
    j := IdMapSource(s.nodes, mint, a);
    CloneNodeIds(clone, s, offset, mint);
  }

  // A token naming a copied node names that node's clone afterwards, its label
  // and path kept. Every other segment is as it was.
  ghost predicate SegmentCloned(clone: Selection, s: Selection, was: Segment, now: Segment)
    requires |clone.nodes| == |s.nodes|
  {
    if was.Token? && was.nodeId in IdsOf(s.nodes) then
      exists j :: 0 <= j < |s.nodes| && s.nodes[j].id == was.nodeId
        && now == Token(clone.nodes[j].id, was.nodeLabel, was.fieldPath)
    else now == was
  }

  // The configs of the clone: the same keys, segment by segment.
  lemma CloneConfig(clone: Selection, s: Selection, offset: Position, mint: Minted, used: set<Id>, i: nat)
    requires SelfContained(s) && IsCloneOf(clone, s, offset, mint) && i < |s.nodes|
    requires MintsFreshIds(mint, |s.nodes| + |s.edges|, used)
    ensures |clone.nodes| == |s.nodes|
    ensures var was, now := s.nodes[i].config, clone.nodes[i].config;
            && (now.Some? <==> was.Some?)
            && (was.Some? ==>
                  && now.value.Keys == was.value.Keys
                  && forall k | k in was.value ::
                       && |now.value[k]| == |was.value[k]|
                       && forall p | 0 <= p < |was.value[k]| ::
                          SegmentCloned(clone, s, was.value[k][p], now.value[k][p]))
  {
    hide IdMap, SegmentCloned;
    var was := s.nodes[i].config;
    if was.Some? {
      forall k, p | k in was.value && 0 <= p < |was.value[k]|
        ensures SegmentCloned(clone, s, was.value[k][p], RemapSegment(was.value[k][p], IdMap(s.nodes, mint))) {
        SegmentAt(clone, s, offset, mint, used, was.value[k][p]);
      }
    }
  }

  lemma SegmentAt(clone: Selection, s: Selection, offset: Position, mint: Minted, used: set<Id>, was: Segment)
    requires SelfContained(s) && IsCloneOf(clone, s, offset, mint)
    requires MintsFreshIds(mint, |s.nodes| + |s.edges|, used)
    ensures |clone.nodes| == |s.nodes| && SegmentCloned(clone, s, was, RemapSegment(was, IdMap(s.nodes, mint)))
  {
    hide IdMap;
    if was.Token? && was.nodeId in IdMap(s.nodes, mint) { var j := CloneAt(clone, s, offset, mint, was.nodeId); }
  }

  // Each edge of the clone joins the clones of its original's ends by the same
  // handles.
  lemma CloneWiring(clone: Selection, s: Selection, offset: Position, mint: Minted, i: nat)
    requires SelfContained(s) && IsCloneOf(clone, s, offset, mint) && i < |s.edges|
    ensures |clone.nodes| == |s.nodes| && |clone.edges| == |s.edges|
    ensures var was, now := s.edges[i], clone.edges[i];
            && now.sourceHandle == was.sourceHandle && now.targetHandle == was.targetHandle
            && (exists j :: 0 <= j < |s.nodes| && s.nodes[j].id == was.source && clone.nodes[j].id == now.source)
            && (exists j :: 0 <= j < |s.nodes| && s.nodes[j].id == was.target && clone.nodes[j].id == now.target)
  {
    hide IdMap;
    var j := CloneAt(clone, s, offset, mint, s.edges[i].source);
    var k := CloneAt(clone, s, offset, mint, s.edges[i].target);
  }

  // --- template tokens ---

  ghost function Inverse(f: map<Id, Id>): map<Id, Id>
    requires InjectiveOn(f)
  {
    map b | b in f.Values :: SourceOf(f, b)
  }

  ghost function SourceOf(f: map<Id, Id>, b: Id): (a: Id)
    requires InjectiveOn(f) && b in f.Values
    ensures a in f && f[a] == b
  {
    assert exists a :: a in f && f[a] == b;
    var a :| a in f && f[a] == b;
    a
  }

  ghost predicate TokensAvoid(config: TokenConfig, ids: set<Id>) {
    forall k, s | k in config && s in config[k] :: s.Token? ==> s.nodeId !in ids
  }

  // Rewriting forgets nothing: with fresh nonempty ids, mapping the clone's
  // tokens back gives the original config, so exactly the tokens naming copied
  // nodes moved and every other segment stayed.
  lemma RemapRoundTrip(config: TokenConfig, f: map<Id, Id>)
    requires InjectiveOn(f) && "" !in f.Values && "" !in f.Keys
    requires TokensAvoid(config, f.Values)
    ensures RemapConfig(RemapConfig(Some(config), f), Inverse(f)) == Some(config)
    ensures f.Keys !! f.Values ==> TokensAvoid(RemapConfig(Some(config), f).value, f.Keys)
  {
    var there := RemapConfig(Some(config), f).value;
    var back := RemapConfig(Some(there), Inverse(f)).value;
    forall k | k in config ensures back[k] == config[k] {
      forall i | 0 <= i < |config[k]| ensures back[k][i] == config[k][i] {
        var s := config[k][i];
        assert s in config[k];
        SegmentRoundTrip(s, f);
      }
      assert back[k] == config[k];
    }
    assert back == config;
    if f.Keys !! f.Values {
      forall k: string, s: Segment | k in there && s in there[k] && s.Token? ensures s.nodeId !in f.Keys {
        var i :| 0 <= i < |there[k]| && there[k][i] == s;
        assert s == RemapSegment(config[k][i], f);
      }
    }
  }

  lemma SegmentRoundTrip(s: Segment, f: map<Id, Id>)
    requires InjectiveOn(f) && "" !in f.Values && "" !in f.Keys
    requires s.Token? ==> s.nodeId !in f.Values
    ensures RemapSegment(RemapSegment(s, f), Inverse(f)) == s
  {
  }

  lemma CloneAcyclic(clone: Selection, s: Selection, offset: Position, mint: Minted, used: set<Id>)
    requires SelfContained(s) && IsCloneOf(clone, s, offset, mint)
    requires MintsFreshIds(mint, |s.nodes| + |s.edges|, used)
    ensures Acyclic(ArcsOf(clone.edges)) <==> Acyclic(ArcsOf(s.edges))
  {
    hide IdMap, Acyclic;
    IdMapInjective(s.nodes, mint, used, |s.nodes| + |s.edges|);
    CloneArcs(clone.edges, s.edges, IdMap(s.nodes, mint), mint, |s.nodes|);
    RenamedAcyclic(ArcsOf(s.edges), IdMap(s.nodes, mint));
  }
}
