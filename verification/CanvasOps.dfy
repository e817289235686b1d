// The editor's edits on the canvas as one vocabulary: what each asks for, what it
// needs of its input, and why no run of them leaves anything broken.
module CanvasOps {
  import opened Reachability
  import opened Sequences
  import opened WorkflowGraph
  import opened GroupRules
  import opened Skeletons
  import opened NodeGroup
  import opened Grouping
  import opened CanvasInsertion
  import opened ConnectionRules
  import opened ConnectionExpansion
  import opened CanvasSoundness
  import opened PaintedEdges
  import opened EditHistory
  import CopySelection
  import Pasting

  // What deletion asks for: nodes as a batch, stored edges by id.
  function Deleted(g: Graph, nodeIds: set<Id>, edgeIds: set<Id>, placer: Placer): Graph {
    var next := if nodeIds == {} then g else RemoveNodes(g, nodeIds, placer);
    if edgeIds == {} then next else next.(edges := Filter(next.edges, NotNamed(edgeIds)))
  }

  lemma DeletedSound(g: Graph, nodeIds: set<Id>, edgeIds: set<Id>, placer: Placer)
    requires CanvasSound(g)
    ensures CanvasSound(Deleted(g, nodeIds, edgeIds, placer))
  {
    hide CanvasSound, RemoveNodes;
    RemoveKeepsSound(g, nodeIds, placer);
    FewerEdgesSound(g, NotNamed(edgeIds));
    FewerEdgesSound(RemoveNodes(g, nodeIds, placer), NotNamed(edgeIds));
  }

  function IsLifecycle(): Node -> bool { (n: Node) => n.kind == Lifecycle }

  function Cleared(g: Graph): Graph {
    Graph(Filter(g.nodes, IsLifecycle()), [])
  }

  lemma ClearedSound(g: Graph)
    requires CanvasSound(g)
    ensures CanvasSound(Cleared(g))
  {
    FilterDistinctBy(g.nodes, IsLifecycle(), NodeId);
    forall n | n in Cleared(g).nodes ensures MemberOk(Cleared(g).nodes, n) { assert MemberOk(g.nodes, n); }
    AcyclicMono(ArcsOf([]), ArcsOf(g.edges));
  }

  // The frame a node names for ungrouping: itself, or its own frame.
  function GroupOf(nodes: seq<Node>, nodeId: Id): Option<Id> {
    var target := Lookup(nodes, nodeId);
    var groupId := if target.None? then None else if IsGroup(target.value) then Some(nodeId) else target.value.parentId;
    if groupId == Some("") then None else groupId
  }

  // A batch of canvas changes that only moves nodes.
  ghost predicate MovesOnly(before: seq<Node>, after: seq<Node>) {
    |before| == |after| && forall i | 0 <= i < |before| :: after[i] == before[i].(position := after[i].position)
  }

  lemma MovesSound(g: Graph, after: seq<Node>)
    requires CanvasSound(g) && MovesOnly(g.nodes, after)
    ensures CanvasSound(g.(nodes := after))
  {
    assert SameSkeletons(g.nodes, after);
    hide MovesOnly, SameSkeletons, NoUndersizedGroup, MembersOk, Acyclic, NoEdgeTouchesFrame, UniqueNodeIds;
    SkeletonIds(g.nodes, after);
    SkeletonMembers(g.nodes, after);
    SkeletonEnds(g, after);
    SkeletonWhole(g.nodes, after);
  }

  // --- inserting a step ---

  // A step added while a Group is open joins it.
  function Joining(nodes: seq<Node>, scope: Option<Id>, step: Node): Node {
    Pasting.ScopeJoiner(nodes, scope, {step.id})(step)
  }

  datatype Insertion = Insertion(step: Node, edgeIds: set<Id>, additions: seq<Addition>, positions: map<Id, Position>)

  type Rules = (Graph, seq<Addition>) -> bool

  // The ids of stored connections, in turn.
  type Minting = nat -> Id

  function Minted(n: nat, mint: Minting): (ids: seq<Id>)
    ensures |ids| == n && forall i: nat | i < n :: ids[i] == mint(i)
  {
    seq(n, i requires i >= 0 => mint(i))
  }

  function Inserted(g: Graph, insertion: Insertion, mint: Minting): Graph {
    var n := |insertion.additions|;
    InsertionGraph(g, insertion.step, insertion.edgeIds, insertion.additions, Minted(n, mint), insertion.positions)
  }

  ghost predicate Accepted(g: Graph, insertion: Insertion, mint: Minting, otherRules: Rules) {
    var next := Inserted(g, insertion, mint);
    && !AdditionsRefused(Graph(next.nodes, Filter(g.edges, NotNamed(insertion.edgeIds))), insertion.additions,
                         otherRules)
    && GroupStructureOk(next)
  }

  function Replacement(g: Graph, step: Node, edgeIds: set<Id>, outlet: Option<string>, positions: map<Id, Position>)
    : Insertion {
    Insertion(step, edgeIds, ReplacementPlan(g.edges, edgeIds, step.id, outlet), positions)
  }

  // Add step after: the insertable connections painted at the outlet are
  // replaced; an outlet with none gains what a drag from its stored port comes
  // to on the graph that holds the step. A painted outlet may store nothing.
  datatype After = After(port: Option<Port>, throughStub: bool, painted: set<Id>, outlet: Option<string>,
                         choose: OutletChoice)

  function AfterPlan(g: Graph, scope: Option<Id>, step: Node, after: After): Option<Insertion> {
    var joined := Joining(g.nodes, scope, step);
    var edgeIds := StoredBehind(g.nodes, g.edges, after.painted, scope.Some?);
    if after.port.None? then None
    else if edgeIds != {} then Some(Replacement(g, joined, edgeIds, after.outlet, map[]))
    else
      var request := Request(Some(after.port.value.nodeId), Some(step.id), after.port.value.handle, None);
      var additions := Expand(InsertionGraph(g, joined, {}, [], [], map[]), request, after.throughStub, after.choose);
      if additions.None? then None else Some(Insertion(joined, {}, additions.value, map[]))
  }

  // Insert step: the stored connections one painted connection stands for.
  // `positions` and the place of the step are the row plan's.
  datatype OnEdge = OnEdge(isPainted: bool, edgeId: Id, outlet: Option<string>, positions: map<Id, Position>)

  function OnEdgePlan(g: Graph, scope: Option<Id>, step: Node, on: OnEdge): Option<Insertion> {
    var edgeIds := StoredEdgeIds(g.nodes, g.edges, on.edgeId, scope.Some?);
    if !on.isPainted || edgeIds == {} then None
    else Some(Replacement(g, Joining(g.nodes, scope, step), edgeIds, on.outlet, on.positions))
  }

  // What a drag between two ports stores.
  function Connected(g: Graph, additions: seq<Addition>, mint: Minting): Graph {
    g.(edges := g.edges + WithIds(additions, Minted(|additions|, mint)))
  }

  // --- the edits ---

  datatype Edit =
    | Delete(nodeIds: set<Id>, edgeIds: set<Id>, placer: Placer)
    | DeleteGroup(groupId: Id)
    | GroupSteps(selectedIds: set<Id>, newGroupId: Id, breaksRule: (Graph, set<Id>) -> bool)
    | Ungroup(nodeId: Id, placer: Placer)
    | AddStep(scope: Option<Id>, step: Node)
    | AddStepAfter(scope: Option<Id>, step: Node, after: After, mint: Minting, otherRules: Rules)
    | InsertStep(scope: Option<Id>, step: Node, on: OnEdge, mint: Minting, otherRules: Rules)
    | Connect(request: Request, throughStub: bool, choose: OutletChoice, mint: Minting, otherRules: Rules)
    | Paste(scope: Option<Id>, clone: CopySelection.Selection)
    | Clear

  // A deletion is an edit when it changed the nodes or dropped an edge.
  function IfChanged(g: Graph, next: Graph): Option<Graph> {
    if next.nodes == g.nodes && |next.edges| == |g.edges| then None else Some(next)
  }

  ghost function IfAccepted(g: Graph, plan: Option<Insertion>, mint: Minting, otherRules: Rules): Option<Graph> {
    if plan.Some? && Accepted(g, plan.value, mint, otherRules) then Some(Inserted(g, plan.value, mint)) else None
  }

  function IfStructured(next: Graph): Option<Graph> { if GroupStructureOk(next) then Some(next) else None }

  // The graph an edit commits, or nothing when it is refused or changes nothing.
  ghost function Asked(g: Graph, edit: Edit): Option<Graph> {
    match edit
    case Delete(nodeIds, edgeIds, placer) => IfChanged(g, Deleted(g, nodeIds, edgeIds, placer))
    case DeleteGroup(groupId) => IfChanged(g, RemoveGroupWithMembers(g, groupId))
    case GroupSteps(selectedIds, newGroupId, breaksRule) => GroupSelection(g, selectedIds, newGroupId, breaksRule)
    case Ungroup(nodeId, placer) =>
      var groupId := GroupOf(g.nodes, nodeId);
      if groupId.None? then None else IfChanged(g, g.(nodes := UngroupFrames(g.nodes, {groupId.value}, placer)))
    case AddStep(scope, step) => IfStructured(InsertionGraph(g, Joining(g.nodes, scope, step), {}, [], [], map[]))
    case AddStepAfter(scope, step, after, mint, otherRules) =>
      IfAccepted(g, AfterPlan(g, scope, step, after), mint, otherRules)
    case InsertStep(scope, step, on, mint, otherRules) =>
      IfAccepted(g, OnEdgePlan(g, scope, step, on), mint, otherRules)
    case Connect(request, throughStub, choose, mint, otherRules) =>
      var additions := Expand(g, request, throughStub, choose);
      if additions.None? || AdditionsRefused(g, additions.value, otherRules) then None
      else Some(Connected(g, additions.value, mint))
    case Paste(scope, clone) => IfStructured(Pasting.Pasted(g, scope, Pasting.StoredGraph(clone)))
    case Clear => IfChanged(g, Cleared(g))
  }

  // --- what an edit needs of its input ---

  ghost predicate NewStep(g: Graph, step: Node) {
    step.id != "" && step.id !in NodeIds(g.nodes) && !IsGroup(step)
  }

  ghost predicate MintsNew(g: Graph, mint: Minting) {
    && (forall i: nat :: mint(i) !in EdgeIds(g.edges))
    && (forall i: nat, j: nat :: i < j ==> mint(i) != mint(j))
  }

  // New ids are new, requests name nodes of the graph, and what is pasted was
  // copied from a sound canvas. Nothing is asked of what comes out.
  ghost predicate Fits(g: Graph, edit: Edit) {
    match edit
    case Delete(_, _, _) => true
    case DeleteGroup(_) => true
    case GroupSteps(_, newGroupId, _) => newGroupId != "" && newGroupId !in NodeIds(g.nodes)
    case Ungroup(_, _) => true
    case AddStep(_, step) => NewStep(g, step)
    case AddStepAfter(_, step, after, mint, _) =>
      NewStep(g, step) && MintsNew(g, mint) && (after.port.Some? ==> after.port.value.nodeId in NodeIds(g.nodes))
    case InsertStep(_, step, _, mint, _) => NewStep(g, step) && MintsNew(g, mint)
    case Connect(request, _, _, mint, _) => MintsNew(g, mint) && EndsStored(g, request)
    case Paste(_, clone) => Copied(g, clone)
    case Clear => true
  }

  ghost predicate EndsStored(g: Graph, request: Request) {
    && (request.source.Some? ==> request.source.value in NodeIds(g.nodes))
    && (request.target.Some? ==> request.target.value in NodeIds(g.nodes))
  }

  ghost predicate Copied(g: Graph, clone: CopySelection.Selection) {
    exists copy: Pasting.Copy :: Pasting.CopyOf(g, copy, clone)
  }

  // --- every edit keeps the canvas sound ---

  lemma MintedNew(g: Graph, mint: Minting, n: nat)
    requires MintsNew(g, mint)
    ensures MintedFor(g.edges, Minted(n, mint))
  {
    var ids := Minted(n, mint);
    forall i: nat, j: nat | i < j < n ensures ids[i] != ids[j] { assert ids[i] == mint(i) && ids[j] == mint(j); }
    forall id | id in ids ensures id !in EdgeIds(g.edges) {
      var i: nat :| i < n && ids[i] == id;
      assert ids[i] == mint(i);
    }
  }

  lemma JoiningKeeps(g: Graph, scope: Option<Id>, step: Node)
    requires NewStep(g, step)
    ensures var joined := Joining(g.nodes, scope, step); NewStep(g, joined) && joined.id == step.id
  {
  }

  lemma InsertedSound(g: Graph, insertion: Insertion, mint: Minting, otherRules: Rules)
    requires CanvasSound(g) && NewStep(g, insertion.step) && MintsNew(g, mint)
    requires EndsKnown(g, insertion.step, insertion.additions) && Accepted(g, insertion, mint, otherRules)
    ensures CanvasSound(Inserted(g, insertion, mint))
  {
    hide CanvasSound, GroupStructureOk, ClosesLoop, EndsKnown, MintedFor, MintsNew, InsertionGraph, EndpointRefused;
    var n := |insertion.additions|;
    MintedNew(g, mint, n);
    InsertionKeepsSound(g, insertion.step, insertion.edgeIds, insertion.additions, Minted(n, mint),
      insertion.positions);
  }

  lemma SoundEnds(g: Graph)
    requires CanvasSound(g)
    ensures NoDanglingEdge(g)
  {
  }

  // A replacement names only nodes the graph will hold.
  lemma ReplacementKnown(g: Graph, scope: Option<Id>, step: Node, edgeIds: set<Id>, outlet: Option<string>,
                         positions: map<Id, Position>)
    requires CanvasSound(g) && NewStep(g, step)
    ensures var insertion := Replacement(g, Joining(g.nodes, scope, step), edgeIds, outlet, positions);
            NewStep(g, insertion.step) && EndsKnown(g, insertion.step, insertion.additions)
  {
    SoundEnds(g);
    hide CanvasSound, ReplacementPlan, EndsKnown;
    JoiningKeeps(g, scope, step);
    PlanEndsKnown(g, Joining(g.nodes, scope, step), edgeIds, outlet);
  }

  lemma InsertStepSound(g: Graph, edit: Edit)
    requires edit.InsertStep? && CanvasSound(g) && Fits(g, edit) && Asked(g, edit).Some?
    ensures CanvasSound(Asked(g, edit).value)
  {
    hide CanvasSound, Accepted, Inserted, EndsKnown, MintsNew, NewStep, Joining, StoredEdgeIds, ReplacementPlan;
    var edgeIds := StoredEdgeIds(g.nodes, g.edges, edit.on.edgeId, edit.scope.Some?);
    ReplacementKnown(g, edit.scope, edit.step, edgeIds, edit.on.outlet, edit.on.positions);
    InsertedSound(g, OnEdgePlan(g, edit.scope, edit.step, edit.on).value, edit.mint, edit.otherRules);
  }

  // What the drag from an outlet comes to runs between old nodes and the step.
  lemma AfterKnown(g: Graph, scope: Option<Id>, step: Node, after: After)
    requires CanvasSound(g) && NewStep(g, step) && AfterPlan(g, scope, step, after).Some?
    requires after.port.value.nodeId in NodeIds(g.nodes)
    ensures var insertion := AfterPlan(g, scope, step, after).value;
            NewStep(g, insertion.step) && EndsKnown(g, insertion.step, insertion.additions)
  {
    hide CanvasSound, EndsKnown, StoredBehind, ReplacementPlan, InsertionGraph, Expand, Joining, NewStep;
    var joined := Joining(g.nodes, scope, step);
    var edgeIds := StoredBehind(g.nodes, g.edges, after.painted, scope.Some?);
    JoiningKeeps(g, scope, step);
    if edgeIds != {} {
      ReplacementKnown(g, scope, step, edgeIds, after.outlet, map[]);
    } else {
      var wide := InsertionGraph(g, joined, {}, [], [], map[]);
      var request := Request(Some(after.port.value.nodeId), Some(step.id), after.port.value.handle, None);
      WideIds(g, joined);
      ExpansionKnown(wide, request, after.throughStub, after.choose);
      KnownEnds(g, joined, wide, Expand(wide, request, after.throughStub, after.choose).value);
    }
  }

  lemma WideIds(g: Graph, step: Node)
    ensures NodeIds(InsertionGraph(g, step, {}, [], [], map[]).nodes) == NodeIds(g.nodes) + {step.id}
  {
    hide OrderGroupParentsFirst;
    InsertedNodes(g.nodes, step, map[]);
  }

  lemma KnownEnds(g: Graph, step: Node, wide: Graph, additions: seq<Addition>)
    requires NodeIds(wide.nodes) == NodeIds(g.nodes) + {step.id} && AdditionsKnown(wide, additions)
    ensures EndsKnown(g, step, additions)
  {
  }

  lemma AddAfterSound(g: Graph, edit: Edit)
    requires edit.AddStepAfter? && CanvasSound(g) && Fits(g, edit) && Asked(g, edit).Some?
    ensures CanvasSound(Asked(g, edit).value)
  {
    assert edit.after.port.Some?;
    hide CanvasSound, Accepted, Inserted, EndsKnown, MintsNew, NewStep, AfterPlan;
    AfterKnown(g, edit.scope, edit.step, edit.after);
    InsertedSound(g, AfterPlan(g, edit.scope, edit.step, edit.after).value, edit.mint, edit.otherRules);
  }

  // A step with no connection meets only the structure check.
  lemma StepAlone(g: Graph, scope: Option<Id>, step: Node, mint: Minting, noRules: Rules)
    requires forall h, additions :: !noRules(h, additions)
    ensures var insertion := Insertion(Joining(g.nodes, scope, step), {}, [], map[]);
            var next := InsertionGraph(g, insertion.step, {}, [], [], map[]);
            && Inserted(g, insertion, mint) == next
            && (Accepted(g, insertion, mint, noRules) <==> GroupStructureOk(next))
  {
    hide GroupStructureOk, InsertionGraph, Joining;
    assert Minted(0, mint) == [];
  }

  lemma AddStepSound(g: Graph, edit: Edit)
    requires edit.AddStep? && CanvasSound(g) && Fits(g, edit) && Asked(g, edit).Some?
    ensures CanvasSound(Asked(g, edit).value)
  {
    hide CanvasSound, GroupStructureOk, Joining, InsertionGraph;
    JoiningKeeps(g, edit.scope, edit.step);
    var none: seq<Addition> := [];
    assert !ClosesLoop(Filter(g.edges, NotNamed({})), none);
    InsertionKeepsSound(g, Joining(g.nodes, edit.scope, edit.step), {}, none, [], map[]);
  }

  lemma ConnectSound(g: Graph, edit: Edit)
    requires edit.Connect? && CanvasSound(g) && Fits(g, edit) && Asked(g, edit).Some?
    ensures CanvasSound(Asked(g, edit).value)
  {
    var additions := Expand(g, edit.request, edit.throughStub, edit.choose);
    assert edit.request.source.Some? && edit.request.target.Some?;
    assert !ClosesLoop(g.edges, additions.value);
    hide CanvasSound, Expand, MintsNew, ClosesLoop, JoinsSteps, EndpointRefused, MintedFor;
    ExpansionJoinsSteps(g, edit.request, edit.throughStub, edit.choose);
    MintedNew(g, edit.mint, |additions.value|);
    ConnectionKeepsSound(g, additions.value, Minted(|additions.value|, edit.mint));
  }

  lemma PasteSound(g: Graph, edit: Edit)
    requires edit.Paste? && CanvasSound(g) && Fits(g, edit) && Asked(g, edit).Some?
    ensures CanvasSound(Asked(g, edit).value)
  {
    hide CanvasSound, Pasting.CopyOf, Pasting.StoredGraph, Pasting.Pasted, GroupStructureOk, Pasting.SubgraphFor;
    var copy: Pasting.Copy :| Pasting.CopyOf(g, copy, edit.clone);
    Pasting.CopyFits(g, copy, edit.clone);
    Pasting.PasteKeepsSound(g, edit.scope, Pasting.StoredGraph(edit.clone));
  }

  lemma AskedSound(g: Graph, edit: Edit)
    requires CanvasSound(g) && Fits(g, edit) && Asked(g, edit).Some?
    ensures CanvasSound(Asked(g, edit).value)
  {
    hide CanvasSound, NewStep, MintsNew, Copied, EndsStored;
    match edit
    case Delete(nodeIds, edgeIds, placer) => DeletedSound(g, nodeIds, edgeIds, placer);
    case DeleteGroup(groupId) => DeleteGroupKeepsSound(g, groupId);
    case GroupSteps(selectedIds, newGroupId, breaksRule) => GroupKeepsSound(g, selectedIds, newGroupId, breaksRule);
    case Ungroup(nodeId, placer) => UngroupKeepsSound(g, {GroupOf(g.nodes, nodeId).value}, placer);
    case AddStep(_, _) => AddStepSound(g, edit);
    case AddStepAfter(_, _, _, _, _) => AddAfterSound(g, edit);
    case InsertStep(_, _, _, _, _) => InsertStepSound(g, edit);
    case Connect(_, _, _, _, _) => ConnectSound(g, edit);
    case Paste(_, _) => PasteSound(g, edit);
    case Clear => ClearedSound(g);
  }

  // --- runs ---

  datatype Op =
    | Make(edit: Edit)
    | UndoOne
    | RedoOne
    | Changes(dragFrame: bool, dragSettled: bool, nodes: seq<Node>)

  ghost function Perform(e: Editor, op: Op): Editor {
    match op
    case Make(edit) => if Asked(e.present, edit).Some? then Take(e, Commit(Asked(e.present, edit).value)) else e
    case UndoOne => Take(e, Undo)
    case RedoOne => Take(e, Redo)
    case Changes(dragFrame, dragSettled, nodes) => Take(e, NodeChanges(dragFrame, dragSettled, nodes))
  }

  ghost predicate OpFits(e: Editor, op: Op) {
    match op
    case Make(edit) => Fits(e.present, edit)
    case UndoOne => true
    case RedoOne => true
    case Changes(_, _, nodes) => MovesOnly(e.present.nodes, nodes)
  }

  // Nothing an undo or a redo can bring back is broken.
  // An edit that is refused or changes nothing leaves the editor as it was. Any
  // other is one step of the timeline: undo and redo go back and forth over it.
  lemma EditIsOneStep(e: Editor, edit: Edit)
    requires Bounded(e)
    ensures var asked := Asked(e.present, edit);
            var done := Perform(e, Make(edit));
            if asked.None? then done == e
            else
              && done.present == asked.value && done.future == []
              && Perform(done, UndoOne).present == e.present
              && Perform(Perform(done, UndoOne), RedoOne) == done
  {
    hide Asked;
    var asked := Asked(e.present, edit);
    if asked.Some? { CommitUndoRedo(e, asked.value); }
  }

  ghost predicate AllSound(e: Editor) {
    CanvasSound(e.present) && (forall g | g in e.history :: CanvasSound(g))
      && (forall g | g in e.future :: CanvasSound(g))
  }

  lemma PerformKeepsSound(e: Editor, op: Op)
    ensures AllSound(e) && OpFits(e, op) ==> AllSound(Perform(e, op))
  {
    hide CanvasSound, MovesOnly, Asked, Fits;
    if AllSound(e) && OpFits(e, op) {
      if op.Changes? { MovesSound(e.present, op.nodes); }
      if op.Make? && Asked(e.present, op.edit).Some? { AskedSound(e.present, op.edit); }
    }
  }

  ghost function PerformAll(e: Editor, ops: seq<Op>): Editor
    decreases |ops|
  {
    if ops == [] then e else PerformAll(Perform(e, ops[0]), ops[1..])
  }

  ghost predicate AllFit(e: Editor, ops: seq<Op>)
    decreases |ops|
  {
    ops == [] || (OpFits(e, ops[0]) && AllFit(Perform(e, ops[0]), ops[1..]))
  }

  // Over any run of edits, undos, redos and drags, every graph on the timeline
  // is well formed and acyclic with its Groups whole, and the timeline bounded.
  lemma {:induction false} RunKeepsSound(e: Editor, ops: seq<Op>)
    requires AllSound(e) && Bounded(e) && AllFit(e, ops)
    ensures AllSound(PerformAll(e, ops)) && Bounded(PerformAll(e, ops))
    decreases |ops|
  {
    hide AllSound, OpFits, Asked;
    if ops != [] {
      PerformKeepsSound(e, ops[0]);
      RunKeepsSound(Perform(e, ops[0]), ops[1..]);
    }
  }
}
