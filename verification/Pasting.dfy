// A pasted selection on the stored graph: the open Group it joins, when the
// structure rules refuse it, and why the canvas stays sound.
module Pasting {
  import opened Reachability
  import opened Sequences
  import opened WorkflowGraph
  import opened GroupRules
  import opened CanvasSoundness
  import opened CopySelection

  // --- inserting a subgraph ---

  function Focused(nodes: seq<Node>, scope: Option<Id>): bool { scope.Some? && IsFrame(nodes, scope.value) }

  // Each node whose frame was not inserted with it joins the open Group.
  function ScopeJoiner(nodes: seq<Node>, scope: Option<Id>, inserted: set<Id>): Node -> Node {
    (n: Node) =>
      if !Focused(nodes, scope) || (n.parentId.Some? && n.parentId.value in inserted) then n
      else n.(parentId := scope)
  }

  function JoinedNodes(nodes: seq<Node>, scope: Option<Id>, added: seq<Node>): seq<Node> {
    Map(added, ScopeJoiner(nodes, scope, NodeIds(added)))
  }

  function Pasted(g: Graph, scope: Option<Id>, sub: Graph): Graph {
    Graph(OrderGroupParentsFirst(g.nodes + JoinedNodes(g.nodes, scope, sub.nodes)), g.edges + sub.edges)
  }

  // A subgraph that stands on its own, its Groups whole, under ids new to `g`.
  ghost predicate SubgraphFor(g: Graph, sub: Graph) {
    && UniqueNodeIds(sub.nodes) && "" !in NodeIds(sub.nodes) && NodeIds(sub.nodes) !! NodeIds(g.nodes)
    && UniqueEdgeIds(sub.edges) && EdgeIds(sub.edges) !! EdgeIds(g.edges)
    && NoDanglingEdge(sub) && Acyclic(ArcsOf(sub.edges)) && GroupStructureOk(sub) && NoUndersizedGroup(sub.nodes)
  }

  lemma JoinedUnique(g: Graph, scope: Option<Id>, sub: Graph)
    requires UniqueNodeIds(g.nodes) && UniqueNodeIds(sub.nodes) && NodeIds(sub.nodes) !! NodeIds(g.nodes)
    ensures UniqueNodeIds(g.nodes + JoinedNodes(g.nodes, scope, sub.nodes))
    ensures NodeIds(JoinedNodes(g.nodes, scope, sub.nodes)) == NodeIds(sub.nodes)
  {
    var joined := JoinedNodes(g.nodes, scope, sub.nodes);
    forall i | 0 <= i < |joined| ensures joined[i].id == sub.nodes[i].id {}
    assert DistinctBy(joined, NodeId) by {
      forall i, j | 0 <= i < j < |joined| ensures NodeId(joined[i]) != NodeId(joined[j]) {
        assert NodeId(sub.nodes[i]) != NodeId(sub.nodes[j]);
      }
    }
    forall id ensures id in NodeIds(joined) <==> id in NodeIds(sub.nodes) {
      if id in NodeIds(joined) { var i :| 0 <= i < |joined| && joined[i].id == id; assert sub.nodes[i] in sub.nodes; }
      if id in NodeIds(sub.nodes) {
        var i :| 0 <= i < |sub.nodes| && sub.nodes[i].id == id;
        assert joined[i] in joined;
      }
    }
    forall m, n | m in g.nodes && n in joined ensures NodeId(m) != NodeId(n) {
      assert m.id in NodeIds(g.nodes) && n.id in NodeIds(joined);
    }
    DistinctByConcat(g.nodes, joined, NodeId);
  }

  // A pasted frame keeps its steps: they came with it.
  lemma JoinedSteps(nodes: seq<Node>, scope: Option<Id>, inserted: set<Id>, added: seq<Node>, frame: Id)
    requires frame in inserted && inserted !! NodeIds(nodes)
    ensures StepCount(Map(added, ScopeJoiner(nodes, scope, inserted)), frame) == StepCount(added, frame)
  {
    var join := ScopeJoiner(nodes, scope, inserted);
    forall n | n in added ensures CountsFor(frame)(join(n)) == CountsFor(frame)(n) {
      JoinedStep(nodes, scope, inserted, n, frame);
    }
    FilterCount(added, join, CountsFor(frame));
  }

  lemma JoinedStep(nodes: seq<Node>, scope: Option<Id>, inserted: set<Id>, n: Node, frame: Id)
    requires frame in inserted && inserted !! NodeIds(nodes)
    ensures CountsFor(frame)(ScopeJoiner(nodes, scope, inserted)(n)) == CountsFor(frame)(n)
  {
    var m := ScopeJoiner(nodes, scope, inserted)(n);
    assert m.kind == n.kind && m.data == n.data;
    assert m.parentId == Some(frame) <==> n.parentId == Some(frame);
    hide IsGroupableStep, ScopeJoiner;
    SameGroupable(m, n);
  }

  lemma SameGroupable(m: Node, n: Node)
    requires m.kind == n.kind && m.data == n.data
    ensures IsGroupableStep(m) <==> IsGroupableStep(n)
  {
  }

  lemma PastedWhole(g: Graph, scope: Option<Id>, sub: Graph)
    requires UniqueNodeIds(g.nodes) && NoUndersizedGroup(g.nodes) && SubgraphFor(g, sub)
    ensures NoUndersizedGroup(Pasted(g, scope, sub).nodes)
  {
    hide StepCount, GroupStructureOk, Acyclic;
    var joined := JoinedNodes(g.nodes, scope, sub.nodes);
    forall f | f in g.nodes + joined && IsGroup(f) ensures StepCount(g.nodes + joined, f.id) >= 2 {
      StepsConcat(g.nodes, joined, f.id);
      if f !in g.nodes {
        var i :| 0 <= i < |joined| && joined[i] == f;
        assert sub.nodes[i] in sub.nodes && sub.nodes[i].id == f.id && IsGroup(sub.nodes[i]);
        JoinedSteps(g.nodes, scope, NodeIds(sub.nodes), sub.nodes, f.id);
      }
    }
    JoinedUnique(g, scope, sub);
    OrderedWhole(g.nodes + joined);
  }

  lemma ArcsOver(g: Graph)
    requires NoDanglingEdge(g)
    ensures Over(ArcsOf(g.edges), NodeIds(g.nodes))
  {
  }

  lemma PastedAcyclic(g: Graph, sub: Graph)
    requires NoDanglingEdge(g) && NoDanglingEdge(sub) && NodeIds(sub.nodes) !! NodeIds(g.nodes)
    ensures Acyclic(ArcsOf(g.edges + sub.edges)) <==> Acyclic(ArcsOf(g.edges)) && Acyclic(ArcsOf(sub.edges))
  {
    ArcsOver(g);
    ArcsOver(sub);
    hide Acyclic;
    assert ArcsOf(g.edges + sub.edges) == ArcsOf(g.edges) + ArcsOf(sub.edges);
    UnionAcyclic(ArcsOf(g.edges), ArcsOf(sub.edges), NodeIds(g.nodes), NodeIds(sub.nodes));
  }

  lemma PastedIds(g: Graph, scope: Option<Id>, sub: Graph)
    requires UniqueNodeIds(g.nodes) && UniqueNodeIds(sub.nodes) && NodeIds(sub.nodes) !! NodeIds(g.nodes)
    ensures UniqueNodeIds(Pasted(g, scope, sub).nodes)
    ensures NodeIds(Pasted(g, scope, sub).nodes) == NodeIds(g.nodes) + NodeIds(sub.nodes)
  {
    var joined := JoinedNodes(g.nodes, scope, sub.nodes);
    JoinedUnique(g, scope, sub);
    OrderUnique(g.nodes + joined);
    OrderPermutes(g.nodes + joined);
    hide OrderGroupParentsFirst, JoinedNodes;
    assert NodeIds(g.nodes + joined) == NodeIds(g.nodes) + NodeIds(joined) by {
      forall n | n in g.nodes || n in joined ensures n in g.nodes + joined {}
    }
    assert NodeIds(Pasted(g, scope, sub).nodes) == NodeIds(g.nodes + joined);
  }

  // A paste the structure check lets through leaves the canvas sound.
  lemma PasteKeepsSound(g: Graph, scope: Option<Id>, sub: Graph)
    requires CanvasSound(g) && SubgraphFor(g, sub) && GroupStructureOk(Pasted(g, scope, sub))
    ensures CanvasSound(Pasted(g, scope, sub))
  {
    hide Pasted, NoUndersizedGroup, Acyclic, GroupStructureOk, UniqueNodeIds;
    PastedIds(g, scope, sub);
    PastedWhole(g, scope, sub);
    PastedAcyclic(g, sub);
    PastedEdges(g, scope, sub);
    DistinctEdges(g, sub);
    hide UniqueEdgeIds;
  }

  lemma PastedEdges(g: Graph, scope: Option<Id>, sub: Graph)
    ensures Pasted(g, scope, sub).edges == g.edges + sub.edges
  {
  }

  lemma DistinctEdges(g: Graph, sub: Graph)
    requires UniqueEdgeIds(g.edges) && UniqueEdgeIds(sub.edges) && EdgeIds(sub.edges) !! EdgeIds(g.edges)
    ensures UniqueEdgeIds(g.edges + sub.edges)
  {
    forall d, e | d in g.edges && e in sub.edges ensures EdgeId(d) != EdgeId(e) {
      assert d.id in EdgeIds(g.edges) && e.id in EdgeIds(sub.edges);
    }
    DistinctByConcat(g.edges, sub.edges, EdgeId);
  }

  // --- when the structure check refuses ---

  // The nodes that come without their frame.
  predicate TopLevelIn(sub: Graph, n: Node) {
    n in sub.nodes && !(n.parentId.Some? && n.parentId.value in NodeIds(sub.nodes))
  }

  lemma JoinedMember(g: Graph, scope: Option<Id>, sub: Graph, n: Node)
    requires SubgraphFor(g, sub) && n in sub.nodes
    ensures var joined := JoinedNodes(g.nodes, scope, sub.nodes);
            var m := ScopeJoiner(g.nodes, scope, NodeIds(sub.nodes))(n);
            && m in joined && (MemberOk(g.nodes + joined, m)
               <==> !(Focused(g.nodes, scope) && TopLevelIn(sub, n)) || n.kind == Action)
  {
    hide Acyclic, NoUndersizedGroup, UniqueNodeIds, UniqueEdgeIds;
    var joined := JoinedNodes(g.nodes, scope, sub.nodes);
    var join := ScopeJoiner(g.nodes, scope, NodeIds(sub.nodes));
    MapHas(sub.nodes, join, join(n));
    assert MemberOk(sub.nodes, n);
    if !(Focused(g.nodes, scope) && TopLevelIn(sub, n)) {
      if n.parentId.Some? {
        var f :| f in sub.nodes && f.id == n.parentId.value && IsGroup(f);
        MapHas(sub.nodes, join, join(f));
        assert join(f) in g.nodes + joined && join(f).id == n.parentId.value && IsGroup(join(f));
      }
    } else {
      assert Lookup(g.nodes, scope.value).value in g.nodes + joined;
    }
  }

  // On the overview no paste is refused. Into an open Group exactly the pastes of
  // steps, with no frame or other node among them, go through.
  lemma PasteAcceptedIff(g: Graph, scope: Option<Id>, sub: Graph)
    requires CanvasShaped(g) && SubgraphFor(g, sub)
    ensures GroupStructureOk(Pasted(g, scope, sub))
       <==> !Focused(g.nodes, scope) || forall n | TopLevelIn(sub, n) :: n.kind == Action
  {
    var joined := JoinedNodes(g.nodes, scope, sub.nodes);
    OrderPermutes(g.nodes + joined);
    PastedEnds(g, scope, sub);
    hide OrderGroupParentsFirst, NoEdgeTouchesFrame, Acyclic, NoUndersizedGroup, UniqueNodeIds, UniqueEdgeIds, Focused;
    var out := Pasted(g, scope, sub).nodes;
    forall m | m in g.nodes ensures MemberOk(out, m) {
      assert MemberOk(g.nodes, m);
      if m.parentId.Some? {
        var f :| f in g.nodes && f.id == m.parentId.value && IsGroup(f);
        assert f in g.nodes + joined;
      }
    }
    forall m ensures MemberOk(out, m) <==> MemberOk(g.nodes + joined, m) {}
    var join := ScopeJoiner(g.nodes, scope, NodeIds(sub.nodes));
    forall n | n in sub.nodes
      ensures join(n) in out
              && (MemberOk(out, join(n)) <==> !(Focused(g.nodes, scope) && TopLevelIn(sub, n)) || n.kind == Action) {
      JoinedMember(g, scope, sub, n);
    }
    forall m | m in out ensures m in g.nodes || exists n :: n in sub.nodes && join(n) == m {
      assert m in g.nodes + joined;
      MapHas(sub.nodes, join, m);
    }
  }

  lemma PastedNode(g: Graph, scope: Option<Id>, sub: Graph, m: Node) returns (n: Node)
    requires m in Pasted(g, scope, sub).nodes
    ensures n.id == m.id && n.kind == m.kind && (n in g.nodes || n in sub.nodes)
  {
    var join := ScopeJoiner(g.nodes, scope, NodeIds(sub.nodes));
    OrderPermutes(g.nodes + JoinedNodes(g.nodes, scope, sub.nodes));
    hide OrderGroupParentsFirst;
    if m in g.nodes {
      n := m;
    } else {
      MapHas(sub.nodes, join, m);
      n :| n in sub.nodes && join(n) == m;
    }
  }

  lemma PastedEnds(g: Graph, scope: Option<Id>, sub: Graph)
    requires CanvasShaped(g) && SubgraphFor(g, sub)
    ensures NoEdgeTouchesFrame(Pasted(g, scope, sub))
  {
    hide OrderGroupParentsFirst, JoinedNodes, Acyclic, NoUndersizedGroup, UniqueNodeIds, UniqueEdgeIds, MembersOk;
    var out := Pasted(g, scope, sub);
    forall e, m | e in out.edges && m in out.nodes && (m.id == e.source || m.id == e.target) ensures !IsGroup(m) {
      var n := PastedNode(g, scope, sub, m);
      assert n.id in NodeIds(g.nodes) || n.id in NodeIds(sub.nodes);
    }
  }

  // --- what a copied selection is on the stored graph ---

  // A token as the template formats it, and a value as its segments read.
  function TokenText(s: Segment): string {
    match s
    case Literal(text) => text
    case Token(nodeId, nodeLabel, fieldPath) =>
      "{{@" + nodeId + ":" + nodeLabel + (if fieldPath == "" then "" else "." + fieldPath) + "}}"
  }

  function ValueText(value: seq<Segment>): string {
    if value == [] then "" else TokenText(value[0]) + ValueText(value[1..])
  }

  function ConfigOf(config: Option<TokenConfig>): Config {
    if config.None? then map[] else map k | k in config.value :: ValueText(config.value[k])
  }

  function StoredNode(): CanvasNode -> Node {
    (n: CanvasNode) =>
      var a := n.attributes;
      Node(n.id, n.kind, n.parentId, n.position, NodeData(a.labelText, a.description, a.enabled, ConfigOf(n.config)))
  }

  function StoredGraph(s: Selection): Graph { Graph(Map(s.nodes, StoredNode()), s.edges) }

  // A stored copy keeps everything but its segments, which become text.
  lemma StoredNodeExact(n: CanvasNode)
    ensures var m := StoredNode()(n);
            && m.id == n.id && m.kind == n.kind && m.parentId == n.parentId && m.position == n.position
            && m.data.labelText == n.attributes.labelText && m.data.description == n.attributes.description
            && m.data.enabled == n.attributes.enabled
            && m.data.config.Keys == if n.config.Some? then n.config.value.Keys else {}
    ensures forall id, name :: ValueText([Token(id, name, "")]) == "{{@" + id + ":" + name + "}}"
    ensures forall id, name, path: string ::
              path != "" ==> ValueText([Token(id, name, path)]) == "{{@" + id + ":" + name + "." + path + "}}"
  {
  }

  lemma StoredIds(s: Selection)
    ensures NodeIds(StoredGraph(s).nodes) == IdsOf(s.nodes)
    ensures UniqueNodeIds(StoredGraph(s).nodes) <==> DistinctBy(s.nodes, CanvasId)
  {
    var nodes := StoredGraph(s).nodes;
    forall i | 0 <= i < |nodes| ensures NodeId(nodes[i]) == CanvasId(s.nodes[i]) {}
    forall id ensures id in NodeIds(nodes) <==> id in IdsOf(s.nodes) {
      if id in NodeIds(nodes) { var i :| 0 <= i < |nodes| && nodes[i].id == id; assert s.nodes[i] in s.nodes; }
      if id in IdsOf(s.nodes) { var i :| 0 <= i < |nodes| && s.nodes[i].id == id; assert nodes[i] in nodes; }
    }
    if DistinctBy(s.nodes, CanvasId) {
      forall i, j | 0 <= i < j < |nodes| ensures NodeId(nodes[i]) != NodeId(nodes[j]) {
        assert CanvasId(s.nodes[i]) != CanvasId(s.nodes[j]);
      }
    }
    if UniqueNodeIds(nodes) {
      forall i, j | 0 <= i < j < |nodes| ensures CanvasId(s.nodes[i]) != CanvasId(s.nodes[j]) {
        assert NodeId(nodes[i]) != NodeId(nodes[j]);
      }
    }
  }

  // Rewriting tokens makes no value, and unmakes none, the name of an action.
  lemma {:induction false} TokenShows(value: seq<Segment>, s: Segment)
    requires s in value && s.Token?
    ensures '{' in ValueText(value)
  {
    if value[0] == s {
      assert TokenText(s)[0] == '{' && ValueText(value)[0] == '{';
    } else {
      TokenShows(value[1..], s);
      var i :| 0 <= i < |ValueText(value[1..])| && ValueText(value[1..])[i] == '{';
      assert ValueText(value)[|TokenText(value[0])| + i] == '{';
    }
  }

  lemma RemappedText(value: seq<Segment>, f: map<Id, Id>)
    ensures ValueText(Map(value, SegmentMapper(f))) == EVENT_SPLIT <==> ValueText(value) == EVENT_SPLIT
  {
    var there := Map(value, SegmentMapper(f));
    assert '{' !in EVENT_SPLIT;
    if i :| 0 <= i < |value| && value[i].Token? {
      TokenShows(value, value[i]);
      assert there[i].Token? && there[i] in there;
      TokenShows(there, there[i]);
    } else {
      assert there == value;
    }
  }

  lemma ClonedStep(n: CanvasNode, f: map<Id, Id>, offset: Position)
    requires n.id in f
    ensures IsGroupableStep(StoredNode()(CloneNode(n, f, offset))) <==> IsGroupableStep(StoredNode()(n))
  {
    if n.config.Some? && "actionType" in n.config.value { RemappedText(n.config.value["actionType"], f); }
  }

  // --- its Groups are whole ---

  function Counted(frame: Id): CanvasNode -> bool { (n: CanvasNode) => CountsFor(frame)(StoredNode()(n)) }

  lemma {:induction false} StoredSteps(nodes: seq<CanvasNode>, frame: Id)
    ensures StepCount(Map(nodes, StoredNode()), frame) == |Filter(nodes, Counted(frame))|
  {
    if nodes != [] {
      StoredSteps(nodes[1..], frame);
      assert Map(nodes, StoredNode()) == [StoredNode()(nodes[0])] + Map(nodes[1..], StoredNode());
      StepsConcat([StoredNode()(nodes[0])], Map(nodes[1..], StoredNode()), frame);
    }
  }

  // A clone counts for the clone of a frame exactly when its original counts for
  // the frame.
  lemma {:induction false} ClonedSteps(clones: seq<CanvasNode>, originals: seq<CanvasNode>, f: map<Id, Id>,
                                       offset: Position, frame: Id)
    requires ClonesNodes(clones, originals, f, offset) && InjectiveOn(f) && frame in f
    ensures |Filter(clones, Counted(f[frame]))| == |Filter(originals, Counted(frame))|
  {
    if originals != [] {
      hide CloneNode;
      assert clones[0] == CloneNode(originals[0], f, offset);
      forall i | 0 <= i < |originals| - 1
        ensures originals[1..][i].id in f && clones[1..][i] == CloneNode(originals[1..][i], f, offset) {
        assert originals[i + 1].id in f && clones[i + 1] == CloneNode(originals[i + 1], f, offset);
      }
      ClonedSteps(clones[1..], originals[1..], f, offset, frame);
      ClonedCounts(originals[0], f, offset, frame);
    }
  }

  lemma ClonedCounts(n: CanvasNode, f: map<Id, Id>, offset: Position, frame: Id)
    requires n.id in f && frame in f && InjectiveOn(f)
    ensures Counted(f[frame])(CloneNode(n, f, offset)) <==> Counted(frame)(n)
  {
    ClonedStep(n, f, offset);
    hide IsGroupableStep;
  }

  ghost predicate Whole(nodes: seq<CanvasNode>) {
    forall n | n in nodes && n.kind == Group :: |Filter(nodes, Counted(n.id))| >= 2
  }

  lemma StoredWhole(s: Selection)
    ensures NoUndersizedGroup(StoredGraph(s).nodes) <==> Whole(s.nodes)
  {
    hide StepCount;
    var nodes := StoredGraph(s).nodes;
    forall frame ensures StepCount(nodes, frame) == |Filter(s.nodes, Counted(frame))| { StoredSteps(s.nodes, frame); }
    forall n | n in s.nodes
      ensures StoredNode()(n) in nodes && StoredNode()(n).id == n.id { MapHas(s.nodes, StoredNode(), StoredNode()(n)); }
    forall m | m in nodes ensures exists n :: n in s.nodes && n.id == m.id && n.kind == m.kind {
      MapHas(s.nodes, StoredNode(), m);
    }
  }

  lemma TakenFrom(canvas: Selection, nodeIds: set<Id>, wholeGroups: bool)
    requires ExtractCopyable(canvas, nodeIds, wholeGroups).Some?
    ensures var taken := ExtractCopyable(canvas, nodeIds, wholeGroups).value;
            && (forall n | n in taken.nodes :: n in canvas.nodes) && (forall e | e in taken.edges :: e in canvas.edges)
  {
  }

  ghost predicate MembersAreSteps(nodes: seq<CanvasNode>) {
    forall n | n in nodes && n.parentId.Some? :: n.kind == Action
  }

  // Every counted step of a taken frame is taken with it.
  lemma StepTaken(canvas: Selection, nodeIds: set<Id>, frame: CanvasNode, x: CanvasNode)
    requires MembersAreSteps(canvas.nodes) && frame in canvas.nodes && x in canvas.nodes
    requires frame.kind == Group && Taken(canvas, nodeIds, true, frame) && x.parentId == Some(frame.id)
    ensures Taken(canvas, nodeIds, true, x)
  {
    if Requested(canvas, nodeIds, frame) {
      assert BroughtBy(frame, x);
    } else {
      var m :| Requested(canvas, nodeIds, m) && BroughtBy(m, frame);
      assert frame.parentId == None && BroughtBy(m, x);
    }
  }

  lemma TakenNodes(canvas: Selection, nodeIds: set<Id>, wholeGroups: bool)
    requires DistinctBy(canvas.nodes, CanvasId) && ExtractCopyable(canvas, nodeIds, wholeGroups).Some?
    ensures var taken := ExtractCopyable(canvas, nodeIds, wholeGroups).value;
            && taken.nodes == Filter(canvas.nodes, NodeIn(CopyIds(canvas.nodes, nodeIds, wholeGroups)))
            && forall n :: n in taken.nodes <==> n in canvas.nodes && Taken(canvas, nodeIds, wholeGroups, n)
  {
    ExtractExact(canvas, nodeIds, wholeGroups);
  }

  lemma TakenSteps(canvas: Selection, nodeIds: set<Id>, frame: CanvasNode)
    requires DistinctBy(canvas.nodes, CanvasId) && MembersAreSteps(canvas.nodes)
    requires ExtractCopyable(canvas, nodeIds, true).Some?
    requires frame in ExtractCopyable(canvas, nodeIds, true).value.nodes && frame.kind == Group
    ensures var taken := ExtractCopyable(canvas, nodeIds, true).value;
            |Filter(taken.nodes, Counted(frame.id))| == |Filter(canvas.nodes, Counted(frame.id))|
  {
    TakenNodes(canvas, nodeIds, true);
    hide ExtractCopyable, CopyIds, Taken, MembersAreSteps, Counted;
    var ids := CopyIds(canvas.nodes, nodeIds, true);
    var taken := ExtractCopyable(canvas, nodeIds, true).value;
    forall x | x in canvas.nodes && Counted(frame.id)(x) ensures NodeIn(ids)(x) {
      CountedMember(frame.id, x);
      StepTaken(canvas, nodeIds, frame, x);
      assert x in taken.nodes;
    }
    FilterKept(canvas.nodes, NodeIn(ids), Counted(frame.id));
  }

  lemma CountedMember(frame: Id, x: CanvasNode)
    requires Counted(frame)(x)
    ensures x.parentId == Some(frame)
  {
    assert CountsFor(frame)(StoredNode()(x));
    hide IsGroupableStep;
  }

  lemma FilterKept<T>(s: seq<T>, keep: T -> bool, counted: T -> bool)
    requires forall x | x in s && counted(x) :: keep(x)
    ensures Filter(Filter(s, keep), counted) == Filter(s, counted)
  {
    FilterTwice(s, keep, counted, counted);
  }

  // By whole Groups, or of steps alone, a selection takes no frame without its steps.
  lemma TakenWhole(canvas: Selection, nodeIds: set<Id>, wholeGroups: bool)
    requires DistinctBy(canvas.nodes, CanvasId) && MembersAreSteps(canvas.nodes) && Whole(canvas.nodes)
    requires ExtractCopyable(canvas, nodeIds, wholeGroups).Some?
    requires wholeGroups || forall n | Requested(canvas, nodeIds, n) :: n.kind != Group
    ensures Whole(ExtractCopyable(canvas, nodeIds, wholeGroups).value.nodes)
  {
    TakenNodes(canvas, nodeIds, wholeGroups);
    hide ExtractCopyable, CopyIds, Taken, Requested, MembersAreSteps, Counted;
    var taken := ExtractCopyable(canvas, nodeIds, wholeGroups).value;
    forall n | n in taken.nodes && n.kind == Group ensures |Filter(taken.nodes, Counted(n.id))| >= 2 {
      OnlyRequested(canvas, nodeIds, wholeGroups, n);
      TakenSteps(canvas, nodeIds, n);
    }
  }

  lemma OnlyRequested(canvas: Selection, nodeIds: set<Id>, wholeGroups: bool, n: CanvasNode)
    requires Taken(canvas, nodeIds, wholeGroups, n)
    ensures wholeGroups || Requested(canvas, nodeIds, n)
  {
  }

  // --- its structure ---

  // Members name a frame or nothing of the selection, and no edge ends on a frame.
  ghost predicate FramesFit(s: Selection) {
    && (forall n, p | n in s.nodes && p in s.nodes && n.parentId == Some(p.id) :: n.kind == Action && p.kind == Group)
    && (forall e, n | e in s.edges && n in s.nodes && (n.id == e.source || n.id == e.target) :: n.kind != Group)
  }

  lemma StoredMember(canvas: Selection, n: CanvasNode)
    requires MembersOk(StoredGraph(canvas).nodes) && n in canvas.nodes
    ensures StoredNode()(n) in StoredGraph(canvas).nodes && MemberOk(StoredGraph(canvas).nodes, StoredNode()(n))
  {
    MapHas(canvas.nodes, StoredNode(), StoredNode()(n));
  }

  lemma StoredFits(canvas: Selection)
    requires CanvasShaped(StoredGraph(canvas))
    ensures FramesFit(canvas) && MembersAreSteps(canvas.nodes) && SelfContained(canvas)
  {
    StoredIds(canvas);
    var g := StoredGraph(canvas);
    assert g.edges == canvas.edges;
    hide StoredGraph, UniqueNodeIds, UniqueEdgeIds;
    forall n | n in canvas.nodes ensures n.parentId.Some? ==> n.kind == Action { StoredMember(canvas, n); }
    forall n, p | n in canvas.nodes && p in canvas.nodes && n.parentId == Some(p.id)
      ensures n.kind == Action && p.kind == Group {
      StoredMember(canvas, n);
      StoredMember(canvas, p);
      var f :| f in g.nodes && f.id == p.id && IsGroup(f);
      UniqueNode(g.nodes, f, StoredNode()(p));
    }
    forall e, n | e in canvas.edges && n in canvas.nodes && (n.id == e.source || n.id == e.target)
      ensures n.kind != Group {
      StoredMember(canvas, n);
    }
    SelfContainedParts(canvas);
  }

  lemma SelfContainedParts(s: Selection)
    requires DistinctBy(s.nodes, CanvasId) && UniqueEdgeIds(s.edges)
    requires forall e | e in s.edges :: e.source in IdsOf(s.nodes) && e.target in IdsOf(s.nodes)
    ensures SelfContained(s)
  {
  }

  lemma FewerFit(s: Selection, taken: Selection)
    requires FramesFit(s) && (forall n | n in taken.nodes :: n in s.nodes)
             && (forall e | e in taken.edges :: e in s.edges)
    ensures FramesFit(taken)
  {
  }

  // The original of a clone.
  lemma Original(clone: Selection, s: Selection, offset: Position, mint: Minted, m: CanvasNode) returns (n: CanvasNode)
    requires IsCloneOf(clone, s, offset, mint) && m in clone.nodes
    ensures n in s.nodes && n.id in IdMap(s.nodes, mint) && m == CloneNode(n, IdMap(s.nodes, mint), offset)
  {
    hide IdMap, CloneNode;
    var i :| 0 <= i < |clone.nodes| && clone.nodes[i] == m;
    n := s.nodes[i];
  }

  lemma ClonedNode(clone: Selection, s: Selection, offset: Position, mint: Minted, n: CanvasNode)
    requires IsCloneOf(clone, s, offset, mint) && n in s.nodes
    ensures n.id in IdMap(s.nodes, mint) && CloneNode(n, IdMap(s.nodes, mint), offset) in clone.nodes
  {
    hide IdMap, CloneNode;
    var i :| 0 <= i < |s.nodes| && s.nodes[i] == n;
    assert clone.nodes[i] in clone.nodes;
  }

  lemma CloneMembers(clone: Selection, s: Selection, offset: Position, mint: Minted)
    requires FramesFit(s) && IsCloneOf(clone, s, offset, mint)
    ensures MembersOk(StoredGraph(clone).nodes)
  {
    hide IdMap, ClonesEdges, ClonesNodes;
    var nodes := StoredGraph(clone).nodes;
    forall x | x in nodes ensures MemberOk(nodes, x) {
      MapHas(clone.nodes, StoredNode(), x);
      var m :| m in clone.nodes && StoredNode()(m) == x;
      var n := Original(clone, s, offset, mint, m);
      if m.parentId.Some? {
        assert n.parentId.value in IdsOf(s.nodes);
        var p :| p in s.nodes && p.id == n.parentId.value;
        ClonedNode(clone, s, offset, mint, p);
        var q := CloneNode(p, IdMap(s.nodes, mint), offset);
        MapHas(clone.nodes, StoredNode(), StoredNode()(q));
      }
    }
  }

  lemma OriginalEdge(clone: Selection, s: Selection, offset: Position, mint: Minted, e: Edge) returns (d: Edge)
    requires IsCloneOf(clone, s, offset, mint) && e in clone.edges
    ensures var f := IdMap(s.nodes, mint);
            d in s.edges && d.source in f && d.target in f && e.source == f[d.source] && e.target == f[d.target]
  {
    hide IdMap;
    var i :| 0 <= i < |clone.edges| && clone.edges[i] == e;
    d := s.edges[i];
  }

  lemma CloneClear(clone: Selection, s: Selection, offset: Position, mint: Minted)
    requires FramesFit(s) && IsCloneOf(clone, s, offset, mint) && InjectiveOn(IdMap(s.nodes, mint))
    ensures NoEdgeTouchesFrame(StoredGraph(clone))
  {
    hide IdMap, ClonesEdges, ClonesNodes;
    var g := StoredGraph(clone);
    forall e, x | e in g.edges && x in g.nodes && (x.id == e.source || x.id == e.target) ensures !IsGroup(x) {
      MapHas(clone.nodes, StoredNode(), x);
      var m :| m in clone.nodes && StoredNode()(m) == x;
      var n := Original(clone, s, offset, mint, m);
      var d := OriginalEdge(clone, s, offset, mint, e);
      assert n.id == d.source || n.id == d.target;
    }
  }

  lemma CloneWhole(clone: Selection, s: Selection, offset: Position, mint: Minted)
    requires IsCloneOf(clone, s, offset, mint) && InjectiveOn(IdMap(s.nodes, mint)) && Whole(s.nodes)
    ensures Whole(clone.nodes)
  {
    hide IdMap, ClonesEdges, Counted;
    var f := IdMap(s.nodes, mint);
    forall m | m in clone.nodes && m.kind == Group ensures |Filter(clone.nodes, Counted(m.id))| >= 2 {
      var n := Original(clone, s, offset, mint, m);
      ClonedSteps(clone.nodes, s.nodes, f, offset, n.id);
    }
  }

  // --- copy and paste ---

  // A selection of a canvas, and how it is cloned.
  datatype Copy = Copy(origin: Selection, nodeIds: set<Id>, wholeGroups: bool, offset: Position, mint: Minted)

  // `clone` was copied from a sound canvas, by whole Groups or of steps alone,
  // under ids new to `g`.
  ghost predicate CopyOf(g: Graph, copy: Copy, clone: Selection) {
    var taken := ExtractCopyable(copy.origin, copy.nodeIds, copy.wholeGroups);
    && CanvasSound(StoredGraph(copy.origin)) && taken.Some?
    && (copy.wholeGroups || forall n | Requested(copy.origin, copy.nodeIds, n) :: n.kind != Group)
    && IsCloneOf(clone, taken.value, copy.offset, copy.mint)
    && MintsFreshIds(copy.mint, |taken.value.nodes| + |taken.value.edges|, NodeIds(g.nodes) + EdgeIds(g.edges))
  }

  // Such a clone pastes into any canvas: it stands on its own, its structure
  // sound and its Groups whole.
  lemma CopyFits(g: Graph, copy: Copy, clone: Selection)
    requires CopyOf(g, copy, clone)
    ensures SubgraphFor(g, StoredGraph(clone))
  {
    var Copy(origin, nodeIds, wholeGroups, offset, mint) := copy;
    hide IsCloneOf, MintsFreshIds, CanvasShaped, Acyclic, NoUndersizedGroup, GroupStructureOk, SelfContained, FramesFit,
      Whole, ExtractCopyable, InjectiveOn, IdMap, Requested;
    var taken := ExtractCopyable(origin, nodeIds, wholeGroups).value;
    var used := NodeIds(g.nodes) + EdgeIds(g.edges);
    StoredFits(origin);
    ExtractSelfContained(origin, nodeIds, wholeGroups);
    TakenFrom(origin, nodeIds, wholeGroups);
    FewerFit(origin, taken);
    StoredWhole(origin);
    DistinctIds(origin);
    TakenWhole(origin, nodeIds, wholeGroups);
    CloneSubgraph(taken, clone, offset, mint, used);
    AcyclicMono(ArcsOf(taken.edges), ArcsOf(origin.edges));
    CloneAcyclic(clone, taken, offset, mint, used);
  }

  lemma DistinctIds(s: Selection)
    requires SelfContained(s)
    ensures DistinctBy(s.nodes, CanvasId)
  {
  }

  lemma CloneSubgraph(s: Selection, clone: Selection, offset: Position, mint: Minted, used: set<Id>)
    requires SelfContained(s) && FramesFit(s) && Whole(s.nodes)
    requires IsCloneOf(clone, s, offset, mint) && MintsFreshIds(mint, |s.nodes| + |s.edges|, used)
    ensures var sub := StoredGraph(clone);
            && UniqueNodeIds(sub.nodes) && "" !in NodeIds(sub.nodes) && NodeIds(sub.nodes) !! used
            && UniqueEdgeIds(sub.edges) && EdgeIds(sub.edges) !! used
            && NoDanglingEdge(sub) && GroupStructureOk(sub) && NoUndersizedGroup(sub.nodes)
  {
    hide IsCloneOf, FramesFit, Whole, InjectiveOn, IdMap, MembersOk, NoEdgeTouchesFrame, NoUndersizedGroup;
    IdMapInjective(s.nodes, mint, used, |s.nodes| + |s.edges|) by { DistinctIds(s); }
    CloneStored(s, clone, offset, mint, used);
    CloneNodeIds(clone, s, offset, mint);
    StoredIds(clone);
    CloneMembers(clone, s, offset, mint);
    CloneClear(clone, s, offset, mint);
    CloneWhole(clone, s, offset, mint);
    StoredWhole(clone);
  }

  // --- paths ---

  // Two graphs with no id in common share no path.
  lemma PastePaths(g: Graph, sub: Graph, a: Id, b: Id)
    requires NoDanglingEdge(g) && NoDanglingEdge(sub) && NodeIds(sub.nodes) !! NodeIds(g.nodes)
    ensures Reaches(ArcsOf(g.edges + sub.edges), a, b)
       <==> Reaches(ArcsOf(g.edges), a, b) || Reaches(ArcsOf(sub.edges), a, b)
  {
    ArcsOver(g);
    ArcsOver(sub);
    assert ArcsOf(g.edges + sub.edges) == ArcsOf(g.edges) + ArcsOf(sub.edges);
    UnionSplits(ArcsOf(g.edges), ArcsOf(sub.edges), a, b, NodeIds(g.nodes), NodeIds(sub.nodes));
  }

  lemma CloneStored(s: Selection, clone: Selection, offset: Position, mint: Minted, used: set<Id>)
    requires SelfContained(s) && IsCloneOf(clone, s, offset, mint) && MintsFreshIds(mint, |s.nodes| + |s.edges|, used)
    ensures var sub := StoredGraph(clone);
            && UniqueNodeIds(sub.nodes) && NodeIds(sub.nodes) !! used && UniqueEdgeIds(sub.edges)
            && EdgeIds(sub.edges) !! used && NoDanglingEdge(sub) && sub.edges == clone.edges
  {
    hide IsCloneOf, MintsFreshIds;
    CloneSelfContained(clone, s, offset, mint, used);
    StoredIds(clone);
  }

  // Pasting leaves the disjoint union of the canvas and the clone: no path
  // crosses, so the canvas is acyclic afterwards exactly when it was before and
  // the copied selection is, whatever Group is open.
  lemma PasteDisjoint(g: Graph, scope: Option<Id>, s: Selection, clone: Selection, offset: Position, mint: Minted)
    requires UniqueNodeIds(g.nodes) && UniqueEdgeIds(g.edges) && NoDanglingEdge(g)
    requires SelfContained(s) && IsCloneOf(clone, s, offset, mint)
    requires MintsFreshIds(mint, |s.nodes| + |s.edges|, NodeIds(g.nodes) + EdgeIds(g.edges))
    ensures var out := Pasted(g, scope, StoredGraph(clone));
            && UniqueNodeIds(out.nodes) && UniqueEdgeIds(out.edges) && NoDanglingEdge(out)
            && (forall a: Id, b: Id :: Reaches(ArcsOf(out.edges), a, b)
                  <==> Reaches(ArcsOf(g.edges), a, b) || Reaches(ArcsOf(clone.edges), a, b))
            && (Acyclic(ArcsOf(out.edges)) <==> Acyclic(ArcsOf(g.edges)) && Acyclic(ArcsOf(s.edges)))
  {
    hide SelfContained, Pasted, StoredGraph, Acyclic, IsCloneOf, MintsFreshIds, ArcsOf, UniqueNodeIds, UniqueEdgeIds;
    var sub, used := StoredGraph(clone), NodeIds(g.nodes) + EdgeIds(g.edges);
    CloneStored(s, clone, offset, mint, used);
    PastedIds(g, scope, sub);
    DistinctEdges(g, sub);
    PastedEdges(g, scope, sub);
    forall a: Id, b: Id
      ensures Reaches(ArcsOf(g.edges + sub.edges), a, b)
         <==> Reaches(ArcsOf(g.edges), a, b) || Reaches(ArcsOf(clone.edges), a, b) {
      PastePaths(g, sub, a, b);
    }
    PastedAcyclic(g, sub);
    CloneAcyclic(clone, s, offset, mint, used);
  }

  // Copy from an acyclic canvas, paste into an acyclic canvas: still acyclic.
  lemma CopyPasteAcyclic(source: Selection, nodeIds: set<Id>, wholeGroups: bool, g: Graph, scope: Option<Id>,
                         clone: Selection, offset: Position, mint: Minted)
    requires SelfContained(source) && Acyclic(ArcsOf(source.edges))
    requires UniqueNodeIds(g.nodes) && UniqueEdgeIds(g.edges) && NoDanglingEdge(g) && Acyclic(ArcsOf(g.edges))
    requires ExtractCopyable(source, nodeIds, wholeGroups).Some?
    requires var taken := ExtractCopyable(source, nodeIds, wholeGroups).value;
             && IsCloneOf(clone, taken, offset, mint)
             && MintsFreshIds(mint, |taken.nodes| + |taken.edges|, NodeIds(g.nodes) + EdgeIds(g.edges))
    ensures Acyclic(ArcsOf(Pasted(g, scope, StoredGraph(clone)).edges))
  {
    hide SelfContained, Pasted, Acyclic, IsCloneOf, MintsFreshIds, UniqueNodeIds, UniqueEdgeIds, ExtractCopyable;
    var taken := ExtractCopyable(source, nodeIds, wholeGroups).value;
    ExtractSelfContained(source, nodeIds, wholeGroups);
    AcyclicMono(ArcsOf(taken.edges), ArcsOf(source.edges));
    PasteDisjoint(g, scope, taken, clone, offset, mint);
  }
}
