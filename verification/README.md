# A verified model of the workflow graph editor and the build agent's draft

A workflow is a directed graph of steps. People edit it on a canvas; a build agent edits a draft of
it through tool calls; both keep it acyclic and keep its Groups whole
(`AgentRuns.RunKeeps`, `CanvasOps.RunKeepsSound`). This project models that editing in Dafny and
proves what the editing code promises, for every graph and every run.

The parts, by file:

- `Reachability`, `Sequences`, `StableSort`, `WorkflowGraph`, `Skeletons`: paths through arcs,
  order-preserving list operations, the stable sort behind `sortBy`, the graph itself, and what
  moving or relabelling nodes leaves alone.
- `GraphWalks`, `GroupRules`, `Topology`, `GateReasons`: the upstream and downstream walks, Group
  dissolution and stored order, the topology gate and the reason it gives.
- `AgentDraft`, `AgentInvariants`, `AgentEdits`, `AgentAnswers`, `AgentRuns`, `AgentTools`: the agent's
  draft. What each tool proposes, what each keeps, when each refuses and what it stores, what a run of
  calls keeps, and the handlers as methods on the draft cell.
- `NodeGroup`, `Grouping`, `CanvasInsertion`, `ConnectionRules`, `GroupBoundary`, `ConnectionExpansion`,
  `PaintedEdges`, `PaintedLoops`: the canvas edits, the rules a new connection must pass, the stored
  edges a request comes to, and the ones a painted connection stands for.
- `CopySelection`, `Pasting`: extracting and cloning a selection, and pasting it.
- `CanvasSoundness`, `EditHistory`, `CanvasOps`, `CanvasResults`, `CanvasStore`: what every edit keeps,
  the undo timeline, runs of edits, what each edit commits and when, and the write atoms as methods on
  the graph cells.
- `StubPlacement`, `StubSeparation`, `StubCentring`: the sweep that separates a focused Group's boundary
  stubs, and where it leaves them.
- `FocusedGroup`, `FocusedStubs`, `FocusedLines`, `FocusedEdges`, `FocusedCanvas`: the painted graph of a
  focused Group computed from scratch, where its stubs stand and which edges it paints, whether its edges
  join its nodes, and the caches that may never show in it.
- `InactiveBranch`: which steps a disabled node or a dead Canceled outlet switches off.
- `ComparisonEdges`, `ComparisonGraph`, `ComparisonCache`: the graph shown for a publication
  comparison and the cache that follows a user's moves.
- `IssuePreflight`, `ComparisonStore`, `ComparisonEvents`: two protocols in which late answers meet newer requests.

Code that updates cells in place is a class here (`WorkflowDraft`, `GraphStore`, `DisplayGraphs`,
`Caches`, `PreflightHook`, `ComparisonSessions`) whose methods are proved against functions on values;
the lemmas are about those functions. Loops in the source are loops here. Each atom, handler or
`Ref.modify` is one atomic step. Coordinates are reals.

Where the code differs from its comments, or from what one might expect of it, the model follows the
code:

- `upstreamNodeIds` is documented to exclude its target. It does for every target if and only if the
  walked edges have no cycle (`GraphWalks.TargetExcludedIff`); two steps leading to each other are an
  input where it does not (`TargetOnCycle`).
- `wouldCycle` is documented to be exact. The walk skips an empty id, so it is exact for every two ends
  if and only if no edge enters a node whose id is empty (`AgentInvariants.WouldCycleExactIff`). Stored
  ids are never empty, and well-formedness carries that through every run.
- `connect_nodes` checks for a duplicate by source, target and outlet, so its own checks pass a second
  branch of a Condition into the step its other branch enters. The gate then refuses the graph as
  parallel edges (`AgentRuns.SecondBranchRefused`, on the documents of `SecondBranchExample` among
  others); `GateAfterTools` is the general statement.
- Stubs that already stand the gap apart can still be moved, whatever the members and edges:
  `StubSeparation.ApartCanMove`. A pass moves nothing exactly when every band is in place
  (`UnmovedExactly`), which a pass always achieves.
- Each external source port of a Group is documented to get its stub, and in a stored graph every
  painted edge has both its ends (`FocusedEdges.PaintedEdgesJoined`). The ports are told apart by a key
  joined with the NUL character. The schema (packages/shared/src/graph/schemas.ts:219-259) keeps ids and
  handles nonempty, which makes the key injective as long as no id holds a NUL. It does not keep NUL
  out, and `MergedOutletsUnjoined` is a stored graph where two outlets merge. On stored graphs the edges
  are joined if and only if no two ingress ports share a key (`PaintedEdgesJoinedIff`).
- The replacement plan keeps reachability between old steps exactly when every replaced source already
  led to every replaced target. With no NUL inside ids a painted connection with a step at one end always
  does (`PaintedEdges.PaintedJoined`). One between two collapsed Groups may not, and then the plan can lead
  the new step back to itself (`PaintedLoops.InsertionCanLoop`); the loop rule refuses exactly those plans
  (`CanvasSoundness.InsertedAcyclic`).
- A painted edge is documented to stand for the stored edges painted with its ends. They are found by a
  key joined with NUL, so it does if and only if no two different painted ends share a key
  (`PaintedEdges.FannedOutIff`), as with no NUL in ids and outlets (`PlainEndsApart`). The schema admits
  one, and `PaintedLoops.MergedEndsLoop` is a sound canvas where inserting a step between two steps replaces
  a second, unrelated edge and is refused as a loop.
- The canvas rule against cycles skips empty ids as the agent's does. Without any it is exact
  (`ConnectionRules.ClosesLoopExact`).
- k undos and then k redos are the identity if and only if there were k steps to undo or nothing to
  redo (`EditHistory.UndosThenRedos`).
- Extracting a selection by whole Groups copies the Lifecycle Node exactly when a Group holds it or is
  it (`CopySelection.LifecycleLeftBehind`); under the stored Group rules that never happens.
- Pasting onto the overview is never refused. Into an open Group a paste goes through if and only if every
  node that comes without its frame is a step (`Pasting.PasteAcceptedIff`).
- Kept positions name only nodes the comparison on show lists as removed, unless a comparison installed
  over another no longer lists a moved node. Every state of a run fits exactly when no install does that
  where it lands (`ComparisonStore.FitsThroughoutIff`), and `InheritedMove` is such a run. The kept
  position is never shown, because the listed nodes are exactly the ones the draft lacks
  (`UnlistedNeverShown`; packages/core/src/backend/services/workflows/graph-diff.ts:244-275).
- An absolute position sums along the parents. On a cycle it still ends, with the first node met again
  counted once more (`ComparisonGraph.AbsoluteOnCycle`); every node of every graph is in one of the two
  cases (`AbsoluteOnAny`).

## Model

| member | source | states |
|---|---|---|
| GraphWalks.UpstreamNodeIds | packages/shared/src/graph/upstream-nodes.ts:19-67 | the backward worklist ends with exactly the nodes that have a path to the target |
| GraphWalks.TargetExcludedIff | packages/shared/src/graph/upstream-nodes.ts:19-67 | no target is ever in its own answer if and only if the walked edges have no cycle |
| GraphWalks.TargetOnCycle | packages/shared/src/graph/upstream-nodes.ts:19-67 | a concrete graph whose target is in its own answer |
| GraphWalks.DescendantsOf | packages/shared/src/graph/descendants.ts:11-41 | the forward worklist ends with exactly the nodes some path of at least one edge leads to from a start |
| GroupRules.DissolveLeavesNoneUndersized | packages/shared/src/graph/group-dissolution.ts:113-136 | one dissolution of the undersized Groups leaves no undersized Group, because freeing members changes no other count |
| GroupRules.DissolvedFrom | packages/shared/src/graph/group-dissolution.ts:113-136 | every node left is an old node that was no dissolved frame, released if its frame went and otherwise untouched |
| GroupRules.OrderIsPartition | packages/shared/src/graph/node-group.ts:426-475 | with or without the early return, the result is steps, then frames, then members, each in the given order |
| GroupRules.OrderPermutes | packages/shared/src/graph/node-group.ts:426-475 | ordering frames first loses and repeats nothing |
| GroupRules.OrderExact | packages/shared/src/graph/node-group.ts:426-475 | a graph without a frame keeps its order; one with a frame is the nodes without a frame, then the frames, then the members, each as listed |
| GroupRules.WholeExact | packages/shared/src/graph/group-dissolution.ts:113-136 | the step count of a Group is at least two exactly when two different Actions other than Event Splits are in it |
| GroupRules.UndersizedExact | packages/shared/src/graph/node-group.ts:477-484 | a Group is undersized exactly when it lacks them |
| Topology.HasCycle | packages/shared/src/graph/workflow-topology.ts:18-22 | the per-edge loop finds whether some edge's target leads back to its source |
| Topology.HasCycleExact | packages/shared/src/graph/workflow-topology.ts:18-22 | that test is true exactly when the graph has a cycle, on every graph without a self-loop on the empty id |
| Topology.TopologyRefusalReason | packages/shared/src/graph/workflow-topology.ts:77-132 | the gate's first reason, in the order the source checks |
| Topology.GateExact | packages/shared/src/graph/workflow-topology.ts:77-132 | the gate passes a graph if and only if ids are unique, edges simple and joined to nodes, the graph acyclic, the one Lifecycle Node a root, the Groups and outlets well formed, and the join rules content |
| GateReasons.ReasonExact | packages/shared/src/graph/workflow-topology.ts:77-132 | the reason given is a flaw the graph has and no flaw is checked before it, each flaw stated on the graph; a graph that passes has none |
| AgentInvariants.WouldCycleExact | packages/agent/src/tools/graph-write-tools.ts:127-133 | on an acyclic graph and two different ends, the test is true if and only if the new edge makes the graph cyclic |
| AgentInvariants.WouldCycleExactIff | packages/agent/src/tools/graph-write-tools.ts:127-133 | on an acyclic graph the test is exact for every two ends if and only if no edge enters a node with an empty id |
| AgentInvariants.WouldCycleMissesEmptyId | packages/agent/src/tools/graph-write-tools.ts:127-133 | the condition on empty ids is needed: a concrete graph where the test misses the loop |
| AgentInvariants.ConnectKeeps | packages/agent/src/tools/graph-write-tools.ts:696-764 | an edge `connect_nodes` proposes keeps the document well formed and acyclic by the tool's own checks, without the gate |
| AgentInvariants.DeleteKeeps | packages/agent/src/tools/graph-write-tools.ts:661-694 | deleting a step keeps every well-formedness rule |
| AgentInvariants.DisconnectKeeps | packages/agent/src/tools/graph-write-tools.ts:766-788 | removing an edge keeps every well-formedness rule |
| AgentInvariants.InsertSplits | packages/agent/src/tools/graph-write-tools.ts:790-870 | inserting on an edge keeps every other edge in place and splits the one edge, its id and outlet on the first half |
| AgentInvariants.InsertSubdivides | packages/agent/src/tools/graph-write-tools.ts:790-870 | exact subdivision: paths between existing steps are unchanged, and the new step is reached exactly from the old source on and reaches exactly the old target on |
| AgentInvariants.InsertKeeps | packages/agent/src/tools/graph-write-tools.ts:790-870 | the inserted document is well formed: ids, ends, ports, outlets, Group membership and acyclicity |
| AgentInvariants.UpdateSkeletons | packages/agent/src/tools/graph-write-tools.ts:568-659 | an update changes no node's id, kind, frame or action type |
| AgentEdits.MergedKey | packages/agent/src/tools/graph-write-tools.ts:327-340 | key by key: clearing wins, then the last patch entry, then the current value |
| AgentEdits.MergeConfig | packages/agent/src/tools/graph-write-tools.ts:327-340 | the deleting loop computes that merge |
| AgentEdits.AddedStep | packages/agent/src/tools/graph-write-tools.ts:523-566 | an addition appends one step in no Group, at the placeholder position, its enabled flag unset, with the given label and description, of the asked action, its config exactly the asked entries, last value winning |
| AgentAnswers.InsertedExact | packages/agent/src/tools/graph-write-tools.ts:444-490 | an inserted step is stored as an added one, and joins the Group that both ends of the edge are members of, unless it is an Event Split |
| AgentEdits.UpdateTouchesOne | packages/agent/src/tools/graph-write-tools.ts:629-655 | an update changes no other node, and nothing but the data of the one named; run again, it changes nothing. What it stores is the next row |
| AgentEdits.UpdateStores | packages/agent/src/tools/graph-write-tools.ts:568-659 | what an accepted update stores, read off the proposed document: the given label, description and flag or else the old, the flag only when off, and each config key cleared, patched by its last entry, or kept |
| AgentAnswers.DeleteExact | packages/agent/src/tools/graph-write-tools.ts:661-694 | a deletion takes the one node and the edges at it, and nothing else |
| AgentAnswers.ConnectExact | packages/agent/src/tools/graph-write-tools.ts:696-764 | a connection appends one edge between the named ends by the named outlet |
| AgentAnswers.DisconnectExact | packages/agent/src/tools/graph-write-tools.ts:766-788 | a disconnection takes the one edge, and nothing else |
| AgentAnswers.OutletExact | packages/agent/src/tools/graph-write-tools.ts:285-325 | an outlet is accepted exactly when the node has it: an entry its two, a Condition its two, an Event Split the Events that reach it, any other step the unnamed one |
| AgentAnswers.ToolAnswers | packages/agent/src/tools/graph-write-tools.ts:503-870 | every tool proposes exactly the calls that have none of its faults, each stated on the document, and answers any other with the first fault in the order of its checks |
| AgentAnswers.AnswerExact | packages/agent/src/document.ts:129-168 | a refusal of the tool, the gate or the host is the answer and changes nothing; otherwise the document without its too small Groups is the answer, the draft and the newest revision |
| AgentEdits.DisconnectUndoesConnect | packages/agent/src/tools/graph-write-tools.ts:696-788 | after an accepted connection the tool accepts its disconnection, which gives back the document before |
| AgentEdits.DeleteUndoesAdd | packages/agent/src/tools/graph-write-tools.ts:523-694 | after an accepted addition the tool accepts deleting the new step, which gives back the document before |
| AgentRuns.SettledKeeps | packages/agent/src/document.ts:132-145 | settling an edit keeps it well formed and leaves no undersized Group |
| AgentRuns.ProposalKeeps | packages/agent/src/tools/graph-write-tools.ts:503-870 | whatever a tool proposes for a well-formed document is well formed, whether or not the gate accepts it |
| AgentRuns.RunKeeps | packages/agent/src/document.ts:118-185 | over every run of tool calls: each stored revision and the document are well formed and acyclic, revision 0 is the opening, the last revision is the document, and every revision after the opening has no undersized Group |
| AgentRuns.RevertRestores | packages/agent/src/tools/graph-write-tools.ts:507-521 | after any run, a revert answers the opening with undersized Groups dissolved, refused exactly when the gate or the host refuses that graph |
| AgentRuns.RunStoresSound | packages/agent/src/document.ts:129-168 | from any opening at all, every later revision passed the gate and revision 0 never changes |
| AgentRuns.RunAcyclic | packages/agent/src/document.ts:118-185 | from an acyclic opening, whatever else it breaks, every revision and the current document stay acyclic |
| AgentRuns.GateResidue | packages/shared/src/graph/workflow-topology.ts:77-132 | of the gate's thirteen reasons a well-formed document can meet five, and which one it gives |
| AgentRuns.GateAfterTools | packages/agent/src/tools/graph-write-tools.ts:503-870 | exactly which calls that pass a tool's own checks the gate then refuses, and why |
| AgentRuns.SecondBranchRefused | packages/agent/src/tools/graph-write-tools.ts:696-764 | a second branch of a Condition into a step the other branch enters passes every check of the tool and is refused by the gate as parallel edges |
| AgentRuns.SecondBranchExample | packages/agent/src/tools/graph-write-tools.ts:696-764 | a concrete accepted document with such a Condition |
| AgentRuns.StoredIsAccepted | packages/agent/src/document.ts:129-168 | the document after any accepted call is one the previous statement speaks of |
| AgentTools.WorkflowDraft.constructor | packages/agent/src/document.ts:118-125 | a new draft holds the opening as its document and its revision 0 |
| AgentTools.WorkflowDraft.Update | packages/agent/src/document.ts:129-168 | the one path that stores: the whole new state and answer, refusals changing nothing |
| AgentTools.WorkflowDraft.RevertDraft | packages/agent/src/tools/graph-write-tools.ts:513-521 | state and answer are those of a revert call |
| AgentTools.WorkflowDraft.AddNode | packages/agent/src/tools/graph-write-tools.ts:523-566 | state and answer are those of an add_node call, check by check |
| AgentTools.WorkflowDraft.UpdateNode | packages/agent/src/tools/graph-write-tools.ts:568-659 | state and answer are those of an update_node call, check by check |
| AgentTools.WorkflowDraft.DeleteNode | packages/agent/src/tools/graph-write-tools.ts:661-694 | state and answer are those of a delete_node call |
| AgentTools.WorkflowDraft.ConnectNodes | packages/agent/src/tools/graph-write-tools.ts:696-764 | state and answer are those of a connect_nodes call, with the real upstream walk |
| AgentTools.WorkflowDraft.DisconnectNodes | packages/agent/src/tools/graph-write-tools.ts:766-788 | state and answer are those of a disconnect_nodes call |
| AgentTools.WorkflowDraft.InsertNodeOnEdge | packages/agent/src/tools/graph-write-tools.ts:790-870 | state and answer are those of an insert_node_on_edge call |
| NodeGroup.RemoveNodesIsReduction | packages/client/src/lib/node-group.ts:143-170 | the two-pass list computation equals one set-level reduction: the batch, the Groups it leaves too small, and their members freed |
| NodeGroup.ReducedCompose | packages/client/src/lib/node-group.ts:143-170 | removing one batch and then another is removing both at once |
| NodeGroup.RemovalConfluent | packages/client/src/lib/node-group.ts:143-170 | one at a time in any order or all at once, the same ids, kinds, parents and edges remain |
| NodeGroup.RemoveNothing | packages/client/src/lib/node-group.ts:143-170 | an empty batch changes nothing if and only if no Group was undersized |
| NodeGroup.RemovalLeavesNoneUndersized | packages/client/src/lib/node-group.ts:143-170 | no undersized Group remains |
| NodeGroup.RemovalKeepsEnds | packages/client/src/lib/node-group.ts:143-282 | no edge dangles afterwards and the Lifecycle Node survives every batch |
| CanvasResults.RemovedEdgesExact | packages/client/src/lib/node-group.ts:143-170 | a batch takes exactly the edges at a step of it; its frames and the Lifecycle Node take none |
| CanvasResults.DeletedExact | packages/client/src/lib/workflow-group-store.ts:151-187 | a deletion leaves the nodes of the batch removal and exactly its edges that are not named |
| CanvasResults.ClearedExact | packages/client/src/lib/workflow-graph-store.ts:1118-1141 | a clear keeps exactly the Lifecycle Nodes and no edge |
| CanvasResults.CommitsChange | packages/client/src/lib/workflow-group-store.ts:125-148 | a deletion or a clear is committed exactly when it comes to another graph |
| Grouping.UngroupUndoesGroup | packages/client/src/lib/node-group.ts:32-114 | ungrouping a fresh Group gives back the edges and the nodes, members moved by the frame's offset |
| CanvasResults.GroupableExact | packages/shared/src/graph/node-group.ts:163-195 | a selection may be grouped exactly when it names at least two nodes, all top-level steps other than Event Splits, and no other rule breaks |
| CanvasResults.OriginExact | packages/client/src/lib/node-group.ts:32-103 | the frame stands at the least x and the least y of the selected steps |
| CanvasResults.GroupedExact | packages/client/src/lib/node-group.ts:32-103 | the nodes after grouping are those not selected, the frame, and each selected node in it, placed relative to it |
| CanvasResults.GroupedStaged | packages/client/src/lib/node-group.ts:32-103 | grouping stores frames before their members |
| CanvasResults.GroupOfExact | packages/client/src/lib/workflow-group-store.ts:77-99 | ungrouping names the given frame, or the frame of the given member |
| CanvasResults.UngroupedAs | packages/client/src/lib/workflow-group-store.ts:77-99 | ungrouping drops the frame and frees its members where they are placed, touches no other node and no edge, and commits unless that is the graph as it was |
| CanvasResults.UngroupedStaged | packages/client/src/lib/node-group.ts:225-241 | ungrouping stores frames before their members |
| Grouping.WrapKeepsStructure | packages/client/src/lib/node-group.ts:32-103 | grouping keeps the Group structure rules |
| Grouping.GroupDeletionExact | packages/client/src/lib/node-group.ts:176-193 | deleting a Group removes exactly the frame, its members and the edges touching them |
| Grouping.GroupDeletionKeeps | packages/client/src/lib/node-group.ts:176-193 | no edge dangles afterwards, the structure rules hold, and the Lifecycle Node stays |
| CanvasInsertion.PortKeyInjective | packages/shared/src/graph/group-port-key.ts:17-33 | two ports share a key if and only if they are the same port |
| CanvasInsertion.PlanPorts | packages/client/src/lib/workflow-graph-store.ts:624-681 | the plan connects the new step to exactly the replaced source ports and target ports |
| CanvasInsertion.PlanRepeatsNothing | packages/client/src/lib/workflow-graph-store.ts:624-681 | no connection is planned twice |
| CanvasResults.InsertionGraphExact | packages/client/src/lib/workflow-graph-store.ts:421-515 | the proposed graph holds every node where it is put, the step, the edges that stay, and one new edge for each addition, ends and handles as planned |
| CanvasResults.InsertStepExact | packages/client/src/lib/workflow-graph-store.ts:752-800 | what Insert step commits: nothing when nothing is painted or stored there, else the replacement when the rules, stated on the graph, allow it |
| CanvasResults.AddStepAfterExact | packages/client/src/lib/workflow-graph-store.ts:688-742 | what Add step after commits: nothing, the replacement of the painted connections, or what a drag to the new step comes to, when the rules allow it |
| CanvasResults.AddStepExact | packages/client/src/lib/workflow-graph-store.ts:545-555 | adding a step alone asks the structure rules and nothing else |
| CanvasResults.InsertedStaged | packages/client/src/lib/workflow-graph-store.ts:421-515 | an insertion stores frames before their members |
| CanvasInsertion.PlanIsStar | packages/client/src/lib/workflow-graph-store.ts:624-681 | the plan's arcs are the star from the replaced sources through the new step to the replaced targets |
| CanvasInsertion.InsertionPaths | packages/client/src/lib/workflow-graph-store.ts:624-681 | between old steps the new paths are those of the old graph with every replaced source joined to every replaced target, and no old path is lost |
| CanvasInsertion.InsertionExact | packages/client/src/lib/workflow-graph-store.ts:624-681 | reachability between old steps is unchanged if and only if every replaced source already led to every replaced target |
| CanvasInsertion.SharedEndJoined | packages/client/src/lib/workflow-graph-store.ts:688-800 | edges sharing one source step or one target step meet that condition |
| CanvasInsertion.InsertionAcyclic | packages/client/src/lib/workflow-graph-store.ts:624-681 | exactly when the canvas stays acyclic |
| CanvasInsertion.InsertionKeepsAcyclic | packages/client/src/lib/workflow-graph-store.ts:624-681 | under the condition an acyclic canvas stays acyclic |
| ConnectionRules.ConnectionAdditionsRefused | packages/client/src/components/workflow/connection-validation.ts:158-186 | refused exactly for an end that takes no connection, an addition whose target leads back to its source, or another rule |
| ConnectionRules.ClosesLoopExact | packages/client/src/components/workflow/connection-validation.ts:158-186 | with no empty id, the loop rule refuses exactly the additions that would make the canvas cyclic |
| CanvasResults.ConnectExact | packages/client/src/lib/workflow-group-store.ts:225-264 | a drag stores the stored edges and then what the request comes to, exactly when no added end is taken, no addition closes a loop and no other rule refuses |
| CanvasResults.ExpandRefusedIff | packages/client/src/components/workflow/connection-validation.ts:65-156 | a request is refused exactly when it lacks an end, joins a node to itself or to an end that takes no connection, crosses a boundary other than by its stub, or adds nothing |
| CanvasResults.SourcesExact | packages/shared/src/graph/node-group.ts:207-270 | a step is left by the given outlet and arrived at itself; a Group is left by its outlets and arrived at by its entries |
| PaintedEdges.FannedOutIff | packages/shared/src/graph/node-group.ts:281-299 | every painted edge stands for exactly the stored edges painted with its ends if and only if no two different painted ends share a key |
| PaintedEdges.EndpointKeyInjective | packages/shared/src/graph/node-group.ts:519-521 | with no NUL in ids and source handles, and handles as stored, two edges share a key if and only if they have the same four ends |
| PaintedEdges.PlainEndsApart | packages/shared/src/graph/node-group.ts:519-521 | so in such a stored graph no two different painted ends share a key |
| PaintedEdges.DisplayExact | packages/shared/src/graph/node-group.ts:310-361 | an edge inside one frame is painted as it is; any other end at a member is painted on the frame, whose outlet has no handle |
| PaintedEdges.StoredEdgeIdsExact | packages/client/src/lib/node-group.ts:200-221 | under a focused Group a painted edge is the stored one, on the overview those painted under its key |
| PaintedEdges.PaintedJoined | packages/client/src/lib/node-group.ts:200-221 | with no NUL in ids, a connection painted onto a step at either end, or inside a focused Group, stands for edges already joined end to end |
| PaintedEdges.OutletJoined | packages/client/src/lib/workflow-graph-store.ts:712-735 | so do all the connections painted at one outlet of a step |
| PaintedEdges.PaintedNeverLoops | packages/client/src/lib/workflow-graph-store.ts:752-800 | on such a connection of a sound canvas the loop rule never refuses the insertion |
| PaintedLoops.InsertionCanLoop | packages/client/src/lib/workflow-graph-store.ts:752-800 | between two Groups that lead into each other, inserting a step on the one painted connection would close a loop, and the loop rule refuses it |
| PaintedLoops.MergedEndsLoop | packages/shared/src/graph/node-group.ts:519-521 | a sound canvas with NUL inside ids where two edges between four steps share a key, and inserting on the one is refused as a loop |
| GroupBoundary.EntriesExact | packages/shared/src/graph/node-group.ts:35-44 | with no NUL in ids, a Group stored edges enter is entered at exactly the members they enter, and any other at the members no member leads to |
| GroupBoundary.OutletsExact | packages/shared/src/graph/node-group.ts:98-113 | a Group stored edges leave is left by exactly the ports they leave by, and any other from its last steps that are no Condition |
| GroupBoundary.GroupHasEntry | packages/shared/src/graph/node-group.ts:35-44 | on an acyclic graph a Group with a member has a member a connection onto its card enters |
| ConnectionExpansion.FanOutExact | packages/shared/src/graph/node-group.ts:232-254 | a request adds one edge from each stored source to each stored target, except where its key is stored already |
| ConnectionExpansion.FanOutPlain | packages/shared/src/graph/node-group.ts:232-254 | with no NUL in ids and outlets, an outlet is joined to a step exactly when no stored edge joins the two yet |
| ConnectionExpansion.ExpansionIsNew | packages/client/src/components/workflow/connection-validation.ts:65-156 | no stored edge joins the same outlet to the same step as an added one |
| ConnectionExpansion.ExpansionRepeatsNothing | packages/client/src/components/workflow/connection-validation.ts:65-156 | nothing is added twice |
| ConnectionExpansion.ExpansionJoinsSteps | packages/client/src/components/workflow/connection-validation.ts:65-156 | on a sound canvas a request between its nodes comes to edges between steps, never onto a frame |
| ConnectionExpansion.ExpansionKnown | packages/client/src/components/workflow/connection-validation.ts:65-156 | on any graph it names no node the graph does not hold |
| CanvasSoundness.RemoveKeepsSound | packages/client/src/lib/node-group.ts:143-170 | deletion keeps distinct nonempty ids, edges between nodes, the Group structure, acyclicity, and every Group whole |
| CanvasSoundness.GroupKeepsSound | packages/client/src/lib/node-group.ts:32-103 | grouping keeps the same |
| CanvasSoundness.UngroupKeepsSound | packages/client/src/lib/node-group.ts:225-236 | ungrouping keeps the same |
| CanvasSoundness.DeleteGroupKeepsSound | packages/client/src/lib/node-group.ts:176-193 | deleting a Group with its members keeps the same |
| CanvasSoundness.InsertionKeepsSound | packages/client/src/lib/workflow-graph-store.ts:421-490 | an insertion that passes the structure check and the loop rule keeps the same |
| CanvasSoundness.InsertedAcyclic | packages/client/src/lib/workflow-graph-store.ts:421-490 | the loop rule refuses an insertion exactly when the stored edges would have a cycle |
| CanvasSoundness.ConnectionKeepsSound | packages/client/src/lib/workflow-group-store.ts:225-264 | a connection between steps that passes the loop rule keeps the same |
| EditHistory.RunBounded | packages/client/src/lib/workflow-graph-cells.ts:84-106 | past and future together never exceed fifty, although redo never truncates |
| EditHistory.UndoRedoKeepTimeline | packages/client/src/lib/workflow-graph-store.ts:1143-1187 | any mix of undo and redo leaves the timeline of history, present and reversed future unchanged |
| EditHistory.TimelineDetermines | packages/client/src/lib/workflow-graph-store.ts:1143-1187 | the timeline and the cursor are the whole state |
| EditHistory.UndosThenRedos | packages/client/src/lib/workflow-graph-store.ts:1143-1187 | k undos then k redos is the identity if and only if there were k steps to undo or nothing to redo |
| EditHistory.CommitUndoRedo | packages/client/src/lib/workflow-graph-cells.ts:97-106 | one undo takes an edit back, one redo restores it, and only a full history loses its oldest entry |
| EditHistory.DragIsOneStep | packages/client/src/lib/workflow-graph-store.ts:232-290 | a drag of any number of frames is one undo step back to the graph before it |
| EditHistory.BatchExact | packages/client/src/lib/workflow-graph-store.ts:232-290 | any batch of canvas changes: the nodes are the new ones, the first frame of a drag is a step back to the graph before, and any other batch leaves history and future alone |
| CanvasStore.GraphStore.PushHistory | packages/client/src/lib/workflow-graph-cells.ts:97-106 | pushes the present, keeps the newest fifty, empties the future |
| CanvasOps.RunKeepsSound | packages/client/src/lib/workflow-graph-cells.ts:84-106 | over any run of group, ungroup, delete, insert, connect, paste, clear, move, undo and redo, given new ids and requests between nodes of the graph, every graph on the timeline is well formed and acyclic with its Groups whole |
| CanvasOps.AskedSound | packages/client/src/lib/workflow-graph-store.ts:421-515 | whatever one edit commits on a sound canvas is sound, with no condition on the result |
| CanvasOps.EditIsOneStep | packages/client/src/lib/workflow-graph-cells.ts:84-106 | an edit that is refused or changes nothing leaves everything as it was; undo and redo go back and forth over any other |
| CanvasStore.GraphStore.OnNodesChange | packages/client/src/lib/workflow-graph-store.ts:232-290 | for any batch, one history entry at a drag's first frame, none after, nothing while read-only; a batch of moves keeps the timeline sound |
| CanvasStore.GraphStore.UndoLast | packages/client/src/lib/workflow-graph-store.ts:1143-1164 | the cells after an undo, every graph on the timeline still sound |
| CanvasStore.GraphStore.RedoNext | packages/client/src/lib/workflow-graph-store.ts:1166-1187 | the cells after a redo, every graph on the timeline still sound |
| CanvasStore.GraphStore.CommitDeletion | packages/client/src/lib/workflow-group-store.ts:125-148 | commits one undo step exactly when the nodes changed or an edge was dropped |
| CanvasStore.GraphStore.DeleteItems | packages/client/src/lib/workflow-group-store.ts:151-187 | one undo step to the batch removal, or nothing when read-only or nothing changed; sound stays sound |
| CanvasStore.GraphStore.DeleteGroupWithMembers | packages/client/src/lib/workflow-group-store.ts:107-122 | one undo step to the Group removal, or nothing; sound stays sound |
| CanvasStore.GraphStore.GroupSelected | packages/client/src/lib/workflow-group-store.ts:46-74 | groups exactly when editable and groupable, as one undo step |
| CanvasStore.GraphStore.Ungroup | packages/client/src/lib/workflow-group-store.ts:77-99 | ungroups the named frame or the named member's frame, as one undo step |
| CanvasStore.GraphStore.Insert | packages/client/src/lib/workflow-graph-store.ts:421-515 | stores exactly when neither the connection rules nor the structure rules refuse, as one undo step |
| CanvasStore.GraphStore.AddStep | packages/client/src/lib/workflow-graph-store.ts:545-555 | adds one step, in the open Group if any, exactly when editable and the structure rules allow |
| CanvasStore.GraphStore.AddStepAfter | packages/client/src/lib/workflow-graph-store.ts:688-742 | replaces the insertable connections at an outlet, or gives an empty outlet what a drag from its stored port expands to; refused when the outlet stores nothing; sound stays sound |
| CanvasStore.GraphStore.InsertStepOnEdge | packages/client/src/lib/workflow-graph-store.ts:752-800 | replaces the stored edges behind one painted connection; refused when there are none; sound stays sound |
| CanvasOps.ReplacementKnown | packages/client/src/lib/workflow-graph-store.ts:624-681 | a replacement with a new step names only nodes the graph will hold, in or out of an open Group |
| CanvasOps.AfterKnown | packages/client/src/lib/workflow-graph-store.ts:688-742 | so does what Add step after plans, stored connections or none |
| CanvasStore.GraphStore.ConnectNodes | packages/client/src/lib/workflow-group-store.ts:225-264 | adds what the request expands to exactly when editable and the connection rules allow, as one undo step; sound stays sound, although no structure rule is asked |
| CanvasStore.GraphStore.PasteClone | packages/client/src/lib/workflow-graph-store.ts:830-905 | adds a cloned selection, in the open Group if any, exactly when editable and the structure rules allow, as one undo step; sound stays sound |
| CanvasStore.GraphStore.ClearWorkflow | packages/client/src/lib/workflow-graph-store.ts:1118-1141 | leaves the Lifecycle Node alone, as one undo step |
| CopySelection.ExtractExact | packages/client/src/lib/copy-selection.ts:73-101 | exactly which nodes are taken: the copyable requested ones and, by whole Groups, everything in the Group of one; null exactly when none is |
| CopySelection.ExtractSelfContained | packages/client/src/lib/copy-selection.ts:73-101 | the extract stands on its own and holds exactly the edges among its nodes |
| CopySelection.LifecycleLeftBehind | packages/client/src/lib/copy-selection.ts:73-101 | when the Lifecycle Node is copied, exactly |
| CopySelection.LifecycleNeverCopied | packages/client/src/lib/copy-selection.ts:73-101 | never, under the stored Group rules |
| CopySelection.CloneSelection | packages/client/src/lib/copy-selection.ts:108-159 | the clone loop gives a clone as the lemmas below describe it: one id map for nodes, edges, parents and tokens, and all else carried along |
| CopySelection.CloneIsomorphic | packages/client/src/lib/copy-selection.ts:108-159 | the id map is one to one and carries every path over, and no other |
| CopySelection.CloneSelfContained | packages/client/src/lib/copy-selection.ts:108-159 | the clone has distinct fresh ids and no edge or parent outside itself |
| CopySelection.ClonePositions | packages/client/src/lib/copy-selection.ts:108-159 | top-level nodes move by one offset, members stay local to the cloned frame, kind and attributes stay |
| CopySelection.CloneConfig | packages/client/src/lib/copy-selection.ts:108-159 | each node of the clone has the keys of its original, segment by segment: a token naming a copied node names that node of the clone, label and path kept, and any other segment is the same |
| CopySelection.CloneWiring | packages/client/src/lib/copy-selection.ts:108-159 | each edge of the clone joins the clones of its ends by the same handles |
| CopySelection.RemapRoundTrip | packages/client/src/lib/copy-selection.ts:229-248 | mapping the clone's tokens back gives the original config, and no token still names a copied original |
| Pasting.CopyFits | packages/client/src/lib/copy-selection.ts:73-159 | a clone of a selection of a sound canvas, taken by whole Groups or of steps alone, stands on its own on any canvas: new ids, no dangling edge, acyclic, structure sound, Groups whole |
| Pasting.PasteKeepsSound | packages/client/src/lib/workflow-graph-store.ts:421-515 | pasting it, in or out of an open Group, leaves the canvas sound when the structure check passes |
| Pasting.PasteAcceptedIff | packages/client/src/lib/workflow-graph-store.ts:421-515 | on the overview the structure check always passes, and in an open Group if and only if every node without its frame is a step |
| Pasting.PasteDisjoint | packages/client/src/lib/workflow-graph-store.ts:421-515 | after a paste the paths are those of the canvas and those of the clone, so it is acyclic exactly when both were |
| Pasting.StoredNodeExact | packages/client/src/lib/copy-selection.ts:108-159 | a stored copy keeps everything but its segments, which become text in the token format |
| CanvasResults.PastedExact | packages/client/src/lib/workflow-graph-store.ts:344-372 | a paste adds every node of the selection, in the open Group when its frame did not come along, and every edge |
| CanvasResults.PastedStaged | packages/client/src/lib/workflow-graph-store.ts:421-515 | a paste stores frames before their members |
| Pasting.CopyPasteAcyclic | packages/client/src/lib/workflow-graph-store.ts:421-515 | copy from an acyclic canvas, paste into an acyclic canvas: acyclic |
| StubPlacement.SlotExists | packages/client/src/lib/group-scope-canvas.ts:335-370 | some candidate is always clear, so the non-null assertion is safe |
| StubPlacement.ClearStubXOptimal | packages/client/src/lib/group-scope-canvas.ts:335-370 | the answer is allowed and clear and no allowed clear position on the whole line is nearer, ties to the left |
| StubPlacement.ClearStubXStays | packages/client/src/lib/group-scope-canvas.ts:335-370 | a wanted position that is allowed and clear is taken |
| StubSeparation.StubsSeparated | packages/client/src/lib/group-scope-canvas.ts:373-440 | any two stubs end up at least 24 apart on some axis and no stub changes row |
| StubSeparation.StubsClearMembers | packages/client/src/lib/group-scope-canvas.ts:373-440 | every stub ends up at least 24 from every member on some axis |
| StubSeparation.BandOrderKept | packages/client/src/lib/group-scope-canvas.ts:389-427 | each band keeps its order, the gap between every two: by x, at one x True first and False last, then by height, then as listed |
| StubSeparation.UnmovedExactly | packages/client/src/lib/group-scope-canvas.ts:373-440 | a pass changes nothing if and only if every band is already in place |
| StubSeparation.SeparationIdempotent | packages/client/src/lib/group-scope-canvas.ts:373-440 | a second pass is the identity |
| StubCentring.BandsExact | packages/client/src/lib/group-scope-canvas.ts:394-406 | the bands partition the stubs into chains of rows with a stub and the gap between any two chains |
| StubCentring.BandSettles | packages/client/src/lib/group-scope-canvas.ts:394-428 | in the result each band, in its column order, stands spread by the gap and centred, each stub at the nearest place that is clear of the members and the gap after the stub before |
| StubCentring.FreeBandCentred | packages/client/src/lib/group-scope-canvas.ts:394-428 | with no member in its rows a band is exactly that spread: its first stub moves left by as much as its last moves right |
| StubSeparation.ApartCanMove | packages/client/src/lib/group-scope-canvas.ts:373-440 | being the gap apart is not enough to stay: a family of three stubs that moves whatever the members and edges are |
| StubSeparation.GroupIntoBands | packages/client/src/lib/group-scope-canvas.ts:394-406 | the banding loop |
| StubSeparation.SweepRow | packages/client/src/lib/group-scope-canvas.ts:409-417 | the sweep loop and its centring shift |
| StubSeparation.ClearRowSlots | packages/client/src/lib/group-scope-canvas.ts:418-428 | the slot loop with its moving minimum |
| StubSeparation.Separate | packages/client/src/lib/group-scope-canvas.ts:373-440 | the whole pass returns the list the lemmas above speak of |
| FocusedGroup.StubIdInjective | packages/client/src/lib/group-scope-canvas.ts:62-67 | a painted stub id names one direction and one port |
| FocusedGroup.StubIdsDistinct | packages/client/src/lib/group-scope-canvas.ts:482-560 | no two stubs of a focused Group share an id |
| FocusedStubs.MembersShown | packages/client/src/lib/group-scope-canvas.ts:262-282 | exactly the members of the Group are shown, without their frame, missing sizes filled in |
| FocusedStubs.CrossingsExact | packages/shared/src/graph/group-boundary.ts:94-120 | which edges enter, leave and stay inside the Group |
| FocusedStubs.EndPortsExact | packages/shared/src/graph/node-group.ts:54-96 | a path ends at exactly the unconnected branches of a Condition and at any other member no edge leaves |
| FocusedStubs.StubsPainted | packages/client/src/lib/group-scope-canvas.ts:301-440 | every painted stub is a wanted one moved sideways by one pass over all of them; before it, each is centred over the members its edges meet |
| FocusedStubs.PaintedRanks | packages/client/src/lib/group-scope-canvas.ts:301-588 | on the painted canvas an ingress stub stands RANK_SPACING above every member its port enters and exactly that above one of them; any other stub stands as far below the members that meet it |
| FocusedLines.LinesExact | packages/client/src/lib/group-scope-canvas.ts:130-167 | exactly the edges at members are painted, each in its role, and one edge for every path that ends |
| FocusedLines.BendExact | packages/client/src/lib/group-scope-canvas.ts:442-480 | an edge going down bends midway between the row it enters and the lowest card an edge goes down from into that row; any other is left straight |
| FocusedEdges.PaintedEdgesJoined | packages/client/src/lib/group-scope-canvas.ts:482-588 | in a stored graph whose ids hold no NUL every painted edge joins two painted nodes |
| FocusedEdges.PaintedEdgesJoinedIff | packages/client/src/lib/group-scope-canvas.ts:482-588 | in any stored graph they do if and only if no two ingress ports share the key their stubs are told apart by |
| FocusedEdges.UniqueKeyInjective | packages/shared/src/graph/group-boundary.ts:130-132 | two stored ports share that key if and only if they are the same port, when their ids hold no NUL |
| FocusedEdges.MergedOutletsUnjoined | packages/shared/src/graph/group-boundary.ts:130-132 | a NUL inside an id can merge two outlets: a concrete stored graph with an unjoined edge |
| FocusedEdges.PortsKeptIff | packages/shared/src/graph/group-boundary.ts:130-132 | every ingress port is kept if and only if those keys are distinct |
| FocusedGroup.RowSharesOneBend | packages/client/src/lib/group-scope-canvas.ts:442-480 | edges entering one row bend at one height, which lies below each edge's own source and above the row |
| FocusedCanvas.HitIsWanted | packages/client/src/lib/group-scope-canvas.ts:204-260 | a cached stub at the wanted place and of the wanted kind is the wanted stub in every field |
| FocusedCanvas.Caches.FocusedLines | packages/client/src/lib/group-scope-canvas.ts:130-167 | boundary edges painted as without the cache, cached objects reused |
| FocusedCanvas.Caches.BoundaryStubs | packages/client/src/lib/group-scope-canvas.ts:204-260 | stubs as without the cache, cached objects reused |
| FocusedCanvas.Caches.ProjectedMembers | packages/client/src/lib/group-scope-canvas.ts:262-282 | members as without the cache, cached objects reused |
| FocusedCanvas.Caches.EndLinesFor | packages/client/src/lib/group-scope-canvas.ts:284-299 | end edges as without the cache, the last call's objects reused |
| FocusedCanvas.Caches.SeparateStubs | packages/client/src/lib/group-scope-canvas.ts:332-440 | shifted stubs as without the cache, cached objects reused, unmoved stubs themselves |
| FocusedCanvas.Caches.BendLines | packages/client/src/lib/group-scope-canvas.ts:442-480 | bent edges as without the cache, cached objects reused, straight edges themselves |
| FocusedCanvas.Caches.FocusedGroupCanvasGraph | packages/client/src/lib/group-scope-canvas.ts:482-588 | after any calls on any graphs, the painted graph equals by value the one computed from scratch |
| FocusedCanvas.TraceOnce | packages/client/src/lib/group-scope-canvas.ts:482-588 | caches that remember how a graph was painted can only paint it with the same objects |
| FocusedCanvas.Caches.SameObjectsAgain | packages/client/src/lib/group-scope-canvas.ts:482-588 | a second call on one input returns the same node and edge objects, one for one |
| FocusedCanvas.PaintedStubsApart | packages/client/src/lib/group-scope-canvas.ts:482-588 | on the painted canvas every two stubs, and every stub and member, are the gap apart |
| InactiveBranch.WalkIsReadiness | packages/client/src/lib/inactive-branch.ts:33-67 | on an acyclic graph the one walk reaches exactly the nodes some edge never releases, the recursive AND-join question |
| InactiveBranch.LostIsLeast | packages/client/src/lib/inactive-branch.ts:33-67 | on any graph the walk's set is contained in every solution of that question |
| InactiveBranch.LostSolves | packages/client/src/lib/inactive-branch.ts:33-67 | and is itself a solution |
| InactiveBranch.DeadOutletsExact | packages/client/src/lib/inactive-branch.ts:75-94 | the dead outlets are exactly the stored edges leaving a Lifecycle Node by its canceled outlet, when no Lifecycle Node declares a Cancel Event |
| InactiveBranch.AddFramesStandingForLostMembers | packages/client/src/lib/inactive-branch.ts:104-125 | a frame is added if and only if it has members and all are lost |
| InactiveBranch.FindInactive | packages/client/src/lib/inactive-branch.ts:33-67 | the named nodes and outlets, exactly |
| ComparisonEdges.NameInjective | packages/client/src/lib/workflow-comparison.ts:52-65 | no two tried names are equal |
| ComparisonEdges.AllocateRemovedEdgeId | packages/client/src/lib/workflow-comparison.ts:52-65 | the search ends, with the first free name |
| ComparisonEdges.FirstFreeUnique | packages/client/src/lib/workflow-comparison.ts:52-65 | there is one first free name |
| ComparisonEdges.DisplayEdges | packages/client/src/lib/workflow-comparison.ts:227-285 | all displayed ids differ, draft edges come first and keep theirs, and each removed base edge follows in order, under its own id or the first free name |
| ComparisonEdges.RemovedListedOnce | packages/client/src/lib/workflow-comparison.ts:227-285 | exactly the removed base edges are shown, each once |
| ComparisonEdges.ListedUniquely | packages/client/src/lib/workflow-comparison.ts:227-285 | no other list of removed edges meets that contract |
| ComparisonEdges.RemovedInOrder | packages/client/src/lib/workflow-comparison.ts:227-285 | removed edges come in the order of the changes that first remove them |
| ComparisonEdges.DraftMarked | packages/client/src/lib/workflow-comparison.ts:227-285 | a draft edge is shown as it is, marked exactly when the changes add it |
| ComparisonEdges.DecimalReads | packages/client/src/lib/workflow-comparison.ts:52-65 | a tried name is numbered in decimal |
| ComparisonGraph.AbsoluteOnAcyclic | packages/client/src/lib/workflow-comparison.ts:32-50 | on acyclic parents the recursion is the sum along the parent chain |
| ComparisonGraph.AbsoluteOnCycle | packages/client/src/lib/workflow-comparison.ts:32-50 | on any trail of parents that comes back to a node, it ends with the sum up to and with the node met again |
| ComparisonGraph.AbsoluteOnAny | packages/client/src/lib/workflow-comparison.ts:32-50 | every node of every graph has its chain to a top or such a trail, and the recursion is its sum |
| ComparisonGraph.RemovedDrawnInPlace | packages/client/src/lib/workflow-comparison.ts:191-225 | whatever was deleted above it, a removed node is drawn where the base version had it |
| ComparisonGraph.HistoricalExact | packages/client/src/lib/workflow-comparison.ts:191-225 | a removed node keeps everything but its place; its frame stays exactly when the frame was removed too |
| ComparisonGraph.StaticExact | packages/client/src/lib/workflow-comparison.ts:191-225 | the nodes shown are those of the draft and, so placed, each base node the draft lacks |
| ComparisonGraph.MovedWhere | packages/client/src/lib/workflow-comparison.ts:80-113 | a removed node stands where the user put it, and otherwise where the comparison drew it |
| ComparisonGraph.SlotsFromFit | packages/client/src/lib/workflow-comparison.ts:291-302 | exactly the nodes the draft lacks get a slot, with their index and default position |
| ComparisonCache.AppliedIsMoved | packages/client/src/lib/workflow-comparison.ts:80-113 | one incremental update from any earlier overrides gives the graph built from scratch |
| ComparisonCache.HistoryIndependent | packages/client/src/lib/workflow-comparison.ts:80-113 | after any run of override maps only the newest matters |
| ComparisonCache.DraftNeverMoves | packages/client/src/lib/workflow-comparison.ts:80-113 | over any run no node of the draft moves |
| ComparisonCache.SweptIsFaithful | packages/client/src/lib/workflow-comparison.ts:80-113 | a slot at its default position is the static node object itself, and only then |
| ComparisonCache.SweptKeepsObjects | packages/client/src/lib/workflow-comparison.ts:80-113 | unchanged nodes keep their objects, and the list is copied exactly when some node changed |
| ComparisonCache.CacheEntry.ApplyPositionOverrides | packages/client/src/lib/workflow-comparison.ts:80-113 | the copy-on-write loop: the entry serves the new overrides, and the graph object is new exactly when a node changed |
| ComparisonCache.DisplayGraphs.BuildComparisonDisplayGraph | packages/client/src/lib/workflow-comparison.ts:153-163 | whatever was asked before, the payload's nodes under these overrides and its exact displayed edges; the same override object gets the same graph object |
| ComparisonCache.NewEntry | packages/client/src/lib/workflow-comparison.ts:287-311 | a first build serves the payload with no overrides, displayed node ids distinct and every removed edge as promised |
| IssuePreflight.RunSettled | packages/client/src/hooks/use-workflow-issue-preflight.ts:49-143 | in every reachable state the one subscription is the active check's, its workflow is the open one, and the control is busy exactly while a check is active |
| IssuePreflight.ReadyIffUndisturbed | packages/client/src/hooks/use-workflow-issue-preflight.ts:62-143 | over every interleaving a check answers ready if and only if its fetch came back, its workflow was open in every state since the click, and nothing unmounted |
| IssuePreflight.OverlappedNeverReady | packages/client/src/hooks/use-workflow-issue-preflight.ts:62-143 | once a later check has started, the earlier one can only answer that the workflow changed |
| IssuePreflight.StaleFinishClearsNothing | packages/client/src/hooks/use-workflow-issue-preflight.ts:134-140 | a stale finish clears no newer check |
| IssuePreflight.ClickExact | packages/client/src/hooks/use-workflow-issue-preflight.ts:62-94 | a click while a check runs is answered busy, and then changed unless it names the open workflow; any other starts one check under a new number |
| IssuePreflight.ChangeExact | packages/client/src/hooks/use-workflow-issue-preflight.ts:84-93 | a change of workflow drops the check of any other, its subscription and its busy control, and nothing else |
| IssuePreflight.UnmountExact | packages/client/src/hooks/use-workflow-issue-preflight.ts:56-60 | an unmount drops the check, outdates every flight and sets no state |
| IssuePreflight.FinishExact | packages/client/src/hooks/use-workflow-issue-preflight.ts:95-141 | the answer of the running check frees the hook |
| IssuePreflight.PreflightHook.CheckWorkflowIssues | packages/client/src/hooks/use-workflow-issue-preflight.ts:62-94 | state and reply of a click, up to the await |
| IssuePreflight.PreflightHook.Resume | packages/client/src/hooks/use-workflow-issue-preflight.ts:95-141 | state and reply once the fetch has settled |
| IssuePreflight.PreflightHook.SetCurrentWorkflow | packages/client/src/hooks/use-workflow-issue-preflight.ts:84-93 | every subscriber's callback in turn |
| IssuePreflight.PreflightHook.Leave | packages/client/src/hooks/use-workflow-issue-preflight.ts:56-60 | the unmount cleanup |
| ComparisonStore.EpochCounts | packages/client/src/lib/workflow-comparison-store.ts:162-300 | a workflow's epoch counts its requests and clears, so it never goes back |
| ComparisonStore.IssuedOnce | packages/client/src/lib/workflow-comparison-store.ts:162-173 | no epoch is issued twice to one workflow |
| ComparisonStore.LandsIffNotOvertaken | packages/client/src/lib/workflow-comparison-store.ts:180-281 | a response lands if and only if no later request or clear overtook it and, for a session, the route names no other base; otherwise it changes nothing |
| ComparisonStore.PendingIffOpen | packages/client/src/lib/workflow-comparison-store.ts:162-216 | pending if and only if the newest request is neither answered nor overtaken |
| ComparisonStore.OthersDoNotInterfere | packages/client/src/lib/workflow-comparison-store.ts:162-300 | leaving out every event of every other workflow changes nothing a workflow shows |
| ComparisonStore.OverridesAreMoves | packages/client/src/lib/workflow-comparison-store.ts:339-384 | every kept position came from a move of a node the comparison on show listed as removed |
| ComparisonStore.FitsNextIff | packages/client/src/lib/workflow-comparison-store.ts:162-399 | from a state whose kept positions all name listed nodes, the next fits too unless it installs, over the session, a payload that no longer lists a moved node |
| ComparisonStore.FitsThroughoutIff | packages/client/src/lib/workflow-comparison-store.ts:162-399 | over a run every state fits if and only if no such install lands |
| ComparisonStore.InheritedMove | packages/client/src/lib/workflow-comparison-store.ts:239-281 | a concrete run that leaves a position for an unlisted node |
| ComparisonStore.UnlistedNeverShown | packages/client/src/lib/workflow-comparison.ts:80-113 | the displayed graph depends only on positions of listed nodes |
| ComparisonEvents.BeginExact | packages/client/src/lib/workflow-comparison-store.ts:162-173 | what a request changes |
| ComparisonEvents.SettleExact | packages/client/src/lib/workflow-comparison-store.ts:180-216 | an answer of the newest request settles it, failed only when it failed and the route asks for no other base; an older one changes nothing |
| ComparisonEvents.InstallExact | packages/client/src/lib/workflow-comparison-store.ts:239-281 | when a comparison is installed, and what each field of the session then is |
| ComparisonEvents.SelectExact | packages/client/src/lib/workflow-comparison-store.ts:302-333 | what selecting a version, a subview or an address changes |
| ComparisonEvents.MoveExact | packages/client/src/lib/workflow-comparison-store.ts:339-384 | each node the comparison lists as removed stands at its last move of the batch, and otherwise where it stood |
| ComparisonEvents.ResetExact | packages/client/src/lib/workflow-comparison-store.ts:386-399 | a reset forgets the moves of one session |
| ComparisonStore.ComparisonSessions.BeginRequest | packages/client/src/lib/workflow-comparison-store.ts:162-173 | issues the next epoch and shows pending |
| ComparisonStore.ComparisonSessions.SettleRequest | packages/client/src/lib/workflow-comparison-store.ts:180-216 | settles the current request, never as an error against a route naming another base |
| ComparisonStore.ComparisonSessions.InstallComparison | packages/client/src/lib/workflow-comparison-store.ts:239-281 | installs or refuses, keeping what is to be preserved |
| ComparisonStore.ComparisonSessions.ClearComparison | packages/client/src/lib/workflow-comparison-store.ts:283-300 | drops the session and overtakes every response on its way |
| ComparisonStore.ComparisonSessions.SelectHistoryVersion | packages/client/src/lib/workflow-comparison-store.ts:302-318 | changes the selected version of an existing session only |
| ComparisonStore.ComparisonSessions.ShowSubview | packages/client/src/lib/workflow-comparison-store.ts:320-333 | changes the subview of an existing session only |
| ComparisonStore.ComparisonSessions.ResetComparisonLayout | packages/client/src/lib/workflow-comparison-store.ts:386-399 | forgets every move of an existing session |
| ComparisonStore.ComparisonSessions.MoveComparisonNodes | packages/client/src/lib/workflow-comparison-store.ts:339-384 | moves removed nodes only, the last move of a batch winning |

## Left out

- Host decisions: `configPatchRefusal`, `validateUpdate`, the AND-join rules, `eventsReaching`, the
  catalog, and the canvas rules over Group entries, continuations and joins are arbitrary predicates; no
  property depends on what they answer.
- ConnectionExpansion.FanOutExact: the handle a plain source is stored with, which the catalog has a say in for an Event
  Split, is any function of the graph. An absent and an undefined request end are one value. A request
  names no stored edge to replace.
- Tool calls run one at a time. Overlapping calls between a handler's read of the document and its `update`
  are not modelled.
- Config values the agent writes are strings; an absent and a null handle are one value, and so are an absent
  and an undefined field.
- A Record looked up by a name every JavaScript object inherits, such as `constructor`, is a plain map lookup here.
- Where a released member lands, and `offsetClearOfRectangles`: deletion and dissolution results are stated for
  every placement function.
- NodeGroup.RemovalConfluent: compares ids, kinds, parents, data and edges of what remains, not positions, because
  a member released earlier is placed from an earlier graph.
- Widths and heights outside the focused Group and copying, selection cells, toasts, saves, labels and extents.
- CanvasStore.GraphStore.OnNodesChange: what the canvas library makes of a batch is any node list; that the timeline
  stays sound is stated for batches that only move nodes.
- CanvasStore.GraphStore.CommitDeletion: compares the node lists by value; the source compares the arrays by identity.
- Pasting.CopyFits: a config is a list of text and token segments, rendered as the token format has it; the source type
  an entity token carries is not modelled. The clipboard and its paste count are not.
- FocusedCanvas.Caches.FocusedGroupCanvasGraph: reads the node fields the projection reads (id, kind, parent, position,
  data, sizes); handle sides, draggable and other fixed flags are not modelled. Node ids are required to be unique, as
  every stored graph has them. The overview canvas and its collapsed frames are not modelled.
- ComparisonCache.DisplayGraphs.BuildComparisonDisplayGraph: annotations and fixed interaction flags on nodes are not
  modelled. Both snapshots are required to have unique ids, as every published version has.
- IssuePreflight.PreflightHook.SetCurrentWorkflow: a component that mounts again after its cleanup is not modelled.
- `applyAgentGraphAtom`, `isSameNode`, layout, `updateNodeDataAtom` and template rewriting on the canvas, storedCanvasConnection,
  mobile navigation, the command palette, run history and logs: they would only add easy members.
