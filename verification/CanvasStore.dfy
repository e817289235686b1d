// The editor's graph cells and the atoms that write them. Every atom either
// changes nothing or is one step of the edit history, and leaves nothing broken
// to come back to.
module CanvasStore {
  import opened Reachability
  import opened Sequences
  import opened WorkflowGraph
  import opened GroupRules
  import opened NodeGroup
  import opened Grouping
  import opened CanvasInsertion
  import opened ConnectionRules
  import opened ConnectionExpansion
  import opened CanvasSoundness
  import opened EditHistory
  import opened CanvasOps
  import CopySelection
  import Pasting

  class GraphStore {
    var nodes: seq<Node>
    var edges: seq<Edge>
    var history: seq<Graph>
    var future: seq<Graph>
    var dragActive: bool

    ghost function State(): Editor
      reads this
    {
      Editor(Graph(nodes, edges), history, future, dragActive)
    }

    ghost predicate Valid()
      reads this
    {
      Bounded(State())
    }

    ghost predicate Sound()
      reads this
    {
      AllSound(State())
    }

    constructor (g: Graph)
      ensures Valid() && State() == Editor(g, [], [], false)
      ensures CanvasSound(g) ==> Sound()
    {
      nodes, edges, history, future, dragActive := g.nodes, g.edges, [], [], false;
    }

    method PushHistory()
      requires Valid()
      modifies `history, `future
      ensures Valid() && State() == Push(old(State()))
    {
      history := LastOf(history + [Graph(nodes, edges)], HISTORY_LIMIT);
      future := [];
    }

    // One undo step ending at `next`.
    method Replace(next: Graph)
      requires Valid()
      modifies this
      ensures Valid() && State() == Take(old(State()), Step.Commit(next))
    {
      PushHistory();
      nodes, edges := next.nodes, next.edges;
    }

    method UndoLast(editable: bool)
      requires Valid()
      modifies this
      ensures Valid()
      ensures State() == if editable then Perform(old(State()), UndoOne) else old(State())
      ensures old(Sound()) && OpFits(old(State()), UndoOne) ==> Sound()
    {
      PerformKeepsSound(State(), UndoOne);
      hide AllSound, OpFits;
      if !editable || history == [] {
        return;
      }
      var previous := history[|history| - 1];
      future := future + [Graph(nodes, edges)];
      history := history[..|history| - 1];
      nodes, edges := previous.nodes, previous.edges;
    }

    method RedoNext(editable: bool)
      requires Valid()
      modifies this
      ensures Valid()
      ensures State() == if editable then Perform(old(State()), RedoOne) else old(State())
      ensures old(Sound()) && OpFits(old(State()), RedoOne) ==> Sound()
    {
      PerformKeepsSound(State(), RedoOne);
      hide AllSound, OpFits;
      if !editable || future == [] {
        return;
      }
      var next := future[|future| - 1];
      history := history + [Graph(nodes, edges)];
      future := future[..|future| - 1];
      nodes, edges := next.nodes, next.edges;
    }

    // `isDragFrame` and `isDragSettled` are what the batch says of a drag, and
    // `changed` is the node list after it, whatever the batch holds.
    method OnNodesChange(editable: bool, isDragFrame: bool, isDragSettled: bool, changed: seq<Node>)
      requires Valid()
      modifies this
      ensures Valid()
      ensures State() == if editable
        then Perform(old(State()), Changes(isDragFrame, isDragSettled, changed))
        else old(State())
      ensures old(Sound()) && OpFits(old(State()), Changes(isDragFrame, isDragSettled, changed)) ==> Sound()
    {
      PerformKeepsSound(State(), Changes(isDragFrame, isDragSettled, changed));
      hide AllSound, OpFits;
      if !editable {
        return;
      }
      if isDragFrame && !dragActive {
        PushHistory();
        dragActive := true;
      }
      if isDragSettled {
        dragActive := false;
      }
      nodes := changed;
    }

    // A deletion is committed when it changed the nodes or dropped an edge.
    method CommitDeletion(next: Graph) returns (committed: bool)
      requires Valid()
      modifies this
      ensures Valid()
      ensures committed <==> next.nodes != old(nodes) || |next.edges| != |old(edges)|
      ensures State() == if committed then Take(old(State()), Step.Commit(next)) else old(State())
    {
      if next.nodes == nodes && |next.edges| == |edges| {
        return false;
      }
      Replace(next);
      committed := true;
    }

    method DeleteItems(editable: bool, nodeIds: set<Id>, edgeIds: set<Id>, placer: Placer) returns (committed: bool)
      requires Valid()
      modifies this
      ensures Valid()
      ensures committed <==> editable && Asked(old(State().present), Delete(nodeIds, edgeIds, placer)).Some?
      ensures State() == if editable
        then Perform(old(State()), Make(Delete(nodeIds, edgeIds, placer)))
        else old(State())
      ensures old(Sound()) && OpFits(old(State()), Make(Delete(nodeIds, edgeIds, placer))) ==> Sound()
    {
      PerformKeepsSound(State(), Make(Delete(nodeIds, edgeIds, placer)));
      hide AllSound, OpFits, Deleted;
      if !editable {
        return false;
      }
      committed := CommitDeletion(Deleted(Graph(nodes, edges), nodeIds, edgeIds, placer));
    }

    method DeleteGroupWithMembers(editable: bool, groupId: Id) returns (committed: bool)
      requires Valid()
      modifies this
      ensures Valid()
      ensures committed <==> editable && Asked(old(State().present), DeleteGroup(groupId)).Some?
      ensures State() == if editable then Perform(old(State()), Make(DeleteGroup(groupId))) else old(State())
      ensures old(Sound()) && OpFits(old(State()), Make(DeleteGroup(groupId))) ==> Sound()
    {
      PerformKeepsSound(State(), Make(DeleteGroup(groupId)));
      hide AllSound, OpFits, RemoveGroupWithMembers;
      if !editable {
        return false;
      }
      committed := CommitDeletion(RemoveGroupWithMembers(Graph(nodes, edges), groupId));
    }

    method GroupSelected(editable: bool, selectedIds: set<Id>, groupId: Id, breaksRule: (Graph, set<Id>) -> bool)
      returns (grouped: bool)
      requires Valid()
      modifies this
      ensures Valid()
      ensures grouped <==> editable && Groupable(old(State().present), selectedIds, breaksRule)
      ensures State() == if editable
        then Perform(old(State()), Make(GroupSteps(selectedIds, groupId, breaksRule)))
        else old(State())
      ensures old(Sound()) && OpFits(old(State()), Make(GroupSteps(selectedIds, groupId, breaksRule))) ==> Sound()
    {
      PerformKeepsSound(State(), Make(GroupSteps(selectedIds, groupId, breaksRule)));
      hide AllSound, OpFits, WrapAt;
      if !editable {
        return false;
      }
      var wrapped := GroupSelection(Graph(nodes, edges), selectedIds, groupId, breaksRule);
      if wrapped.None? {
        return false;
      }
      Replace(wrapped.value);
      grouped := true;
    }

    // Ungroups the named frame, or the frame of the named member.
    method Ungroup(editable: bool, nodeId: Id, placer: Placer) returns (freed: bool)
      requires Valid()
      modifies this
      ensures Valid()
      ensures freed <==> editable && Asked(old(State().present), Edit.Ungroup(nodeId, placer)).Some?
      ensures State() == if editable then Perform(old(State()), Make(Edit.Ungroup(nodeId, placer))) else old(State())
      ensures old(Sound()) && OpFits(old(State()), Make(Edit.Ungroup(nodeId, placer))) ==> Sound()
    {
      PerformKeepsSound(State(), Make(Edit.Ungroup(nodeId, placer)));
      hide AllSound, OpFits, UngroupFrames;
      if !editable {
        return false;
      }
      var groupId := GroupOf(nodes, nodeId);
      if groupId.None? {
        return false;
      }
      var next := UngroupFrames(nodes, {groupId.value}, placer);
      if next == nodes {
        return false;
      }
      Replace(Graph(next, edges));
      freed := true;
    }

    // The one path that stores a new step. A refusal stores nothing.
    method Insert(insertion: Insertion, mint: Minting, otherRules: Rules) returns (inserted: bool)
      requires Valid()
      modifies this
      ensures Valid()
      ensures inserted <==> Accepted(old(State().present), insertion, mint, otherRules)
      ensures State() == if inserted
        then Take(old(State()), Step.Commit(Inserted(old(State().present), insertion, mint)))
        else old(State())
    {
      var next := Inserted(Graph(nodes, edges), insertion, mint);
      hide GroupStructureOk, ClosesLoop;
      var kept := Filter(edges, NotNamed(insertion.edgeIds));
      var refused := ConnectionAdditionsRefused(Graph(next.nodes, kept), insertion.additions, otherRules);
      if refused {
        return false;
      }
      if !GroupStructureOk(next) {
        return false;
      }
      Replace(next);
      inserted := true;
    }

    // Adds one step with no connection. No connection rule is asked.
    method AddStep(editable: bool, scope: Option<Id>, step: Node) returns (inserted: bool)
      requires Valid()
      modifies this
      ensures Valid()
      ensures inserted <==> editable && Asked(old(State().present), Edit.AddStep(scope, step)).Some?
      ensures State() == if editable then Perform(old(State()), Make(Edit.AddStep(scope, step))) else old(State())
      ensures old(Sound()) && OpFits(old(State()), Make(Edit.AddStep(scope, step))) ==> Sound()
    {
      PerformKeepsSound(State(), Make(Edit.AddStep(scope, step)));
      hide AllSound, OpFits;
      if !editable {
        return false;
      }
      hide Accepted, Inserted, InsertionGraph, Joining, GroupStructureOk;
      var mint: Minting, noRules: Rules := _ => "", (_, _) => false;
      StepAlone(Graph(nodes, edges), scope, step, mint, noRules);
      inserted := Insert(Insertion(Joining(nodes, scope, step), {}, [], map[]), mint, noRules);
    }

    method AddStepAfter(editable: bool, scope: Option<Id>, step: Node, after: After, mint: Minting, otherRules: Rules)
      returns (inserted: bool)
      requires Valid()
      modifies this
      ensures Valid()
      ensures inserted
        <==> editable && Asked(old(State().present), Edit.AddStepAfter(scope, step, after, mint, otherRules)).Some?
      ensures State() == if editable
        then Perform(old(State()), Make(Edit.AddStepAfter(scope, step, after, mint, otherRules)))
        else old(State())
      ensures old(Sound()) && OpFits(old(State()), Make(Edit.AddStepAfter(scope, step, after, mint, otherRules)))
              ==> Sound()
    {
      PerformKeepsSound(State(), Make(Edit.AddStepAfter(scope, step, after, mint, otherRules)));
      hide AllSound, OpFits;
      if !editable {
        return false;
      }
      var plan := AfterPlan(Graph(nodes, edges), scope, step, after);
      if plan.None? {
        return false;
      }
      hide AfterPlan, Accepted, Inserted;
      inserted := Insert(plan.value, mint, otherRules);
    }

    method InsertStepOnEdge(editable: bool, scope: Option<Id>, step: Node, on: OnEdge, mint: Minting,
                            otherRules: Rules) returns (inserted: bool)
      requires Valid()
      modifies this
      ensures Valid()
      ensures inserted <==> editable && Asked(old(State().present), InsertStep(scope, step, on, mint, otherRules)).Some?
      ensures State() == if editable
        then Perform(old(State()), Make(InsertStep(scope, step, on, mint, otherRules)))
        else old(State())
      ensures old(Sound()) && OpFits(old(State()), Make(InsertStep(scope, step, on, mint, otherRules))) ==> Sound()
    {
      PerformKeepsSound(State(), Make(InsertStep(scope, step, on, mint, otherRules)));
      hide AllSound, OpFits;
      if !editable {
        return false;
      }
      var plan := OnEdgePlan(Graph(nodes, edges), scope, step, on);
      if plan.None? {
        return false;
      }
      hide OnEdgePlan, Accepted, Inserted;
      inserted := Insert(plan.value, mint, otherRules);
    }

    // Stores what a drag between two ports comes to. Only the connection rules
    // are asked.
    method ConnectNodes(editable: bool, request: Request, throughStub: bool, choose: OutletChoice, mint: Minting,
                        otherRules: Rules) returns (connected: bool)
      requires Valid()
      modifies this
      ensures Valid()
      ensures connected
        <==> editable && Asked(old(State().present), Connect(request, throughStub, choose, mint, otherRules)).Some?
      ensures State() == if editable
        then Perform(old(State()), Make(Connect(request, throughStub, choose, mint, otherRules)))
        else old(State())
      ensures old(Sound()) && OpFits(old(State()), Make(Connect(request, throughStub, choose, mint, otherRules)))
              ==> Sound()
    {
      PerformKeepsSound(State(), Make(Connect(request, throughStub, choose, mint, otherRules)));
      hide AllSound, OpFits;
      if !editable {
        return false;
      }
      var additions := Expand(Graph(nodes, edges), request, throughStub, choose);
      if additions.None? {
        return false;
      }
      hide Expand, AdditionsRefused, Connected;
      var refused := ConnectionAdditionsRefused(Graph(nodes, edges), additions.value, otherRules);
      if refused {
        return false;
      }
      Replace(Connected(Graph(nodes, edges), additions.value, mint));
      connected := true;
    }

    // Adds a cloned selection, as paste and duplicate do.
    method PasteClone(editable: bool, scope: Option<Id>, clone: CopySelection.Selection) returns (pasted: bool)
      requires Valid()
      modifies this
      ensures Valid()
      ensures pasted <==> editable && Asked(old(State().present), Paste(scope, clone)).Some?
      ensures State() == if editable then Perform(old(State()), Make(Paste(scope, clone))) else old(State())
      ensures old(Sound()) && OpFits(old(State()), Make(Paste(scope, clone))) ==> Sound()
    {
      PerformKeepsSound(State(), Make(Paste(scope, clone)));
      hide AllSound, OpFits;
      if !editable {
        return false;
      }
      hide GroupStructureOk;
      var next := Pasting.Pasted(Graph(nodes, edges), scope, Pasting.StoredGraph(clone));
      if !GroupStructureOk(next) {
        return false;
      }
      Replace(next);
      pasted := true;
    }

    // Strips the workflow back to its Lifecycle Node.
    method ClearWorkflow(editable: bool) returns (cleared: bool)
      requires Valid()
      modifies this
      ensures Valid()
      ensures cleared <==> editable && Asked(old(State().present), Clear).Some?
      ensures State() == if editable then Perform(old(State()), Make(Clear)) else old(State())
      ensures old(Sound()) && OpFits(old(State()), Make(Clear)) ==> Sound()
    {
      PerformKeepsSound(State(), Make(Clear));
      hide AllSound, OpFits;
      if !editable {
        return false;
      }
      var next := Cleared(Graph(nodes, edges));
      if |next.nodes| == |nodes| && edges == [] {
        FilterWhole(nodes, IsLifecycle());
        return false;
      }
      Replace(next);
      cleared := true;
    }
  }

  lemma {:induction false} FilterWhole<T>(s: seq<T>, keep: T -> bool)
    requires |Filter(s, keep)| == |s|
    ensures Filter(s, keep) == s
  {
    if s != [] {
      assert s == [s[0]] + s[1..] && |Filter(s[1..], keep)| <= |s| - 1;
      FilterWhole(s[1..], keep);
    }
  }
}
