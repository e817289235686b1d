// The structural gate every stored agent revision passes: the first reason a
// graph cannot be saved, in the order the checks run.
module Topology {
  import opened Reachability
  import opened Sequences
  import opened WorkflowGraph
  import opened GraphWalks
  import opened GroupRules

  datatype Reason =
    | DuplicateNodeIds | DuplicateEdgeIds | MissingEnds | SelfLoop | ParallelEdges | Cyclic
    | NoLifecycle | ManyLifecycles | LifecycleNotRoot
    | GroupStructure | ConditionBranch | LifecycleOutlet | JoinRule

  // --- cycle detection ---

  // What `hasCycle` asks of each edge: whether its head already leads to its tail.
  ghost predicate SomeEdgeCloses(edges: seq<Edge>) {
    exists e :: e in edges && Reaches(SolidArcs(edges), e.target, e.source)
  }

  method HasCycle(edges: seq<Edge>) returns (cyclic: bool)
    ensures cyclic <==> SomeEdgeCloses(edges)
  {
    for i := 0 to |edges|
      invariant forall j | 0 <= j < i :: !Reaches(SolidArcs(edges), edges[j].target, edges[j].source)
    {
      var upstream := UpstreamNodeIds(edges[i].source, edges);
      if edges[i].target in upstream {
        return true;
      }
    }
    return false;
  }

  // A path either avoids the empty id past its start, or splits at its last
  // visit to it.
  lemma {:induction false} SplitAtEmptyIn(edges: seq<Edge>, a: Id, b: Id, n: nat)
    requires ReachesIn(ArcsOf(edges), a, b, n)
    ensures Reaches(SolidArcs(edges), a, b)
         || (Reaches(ArcsOf(edges), a, "") && ReachesOrIs(SolidArcs(edges), "", b))
    decreases n
  {
    var all, solid := ArcsOf(edges), SolidArcs(edges);
    if n == 1 {
      ReachesArc(all, a, b);
      if b != "" { ReachesArc(solid, a, b); }
    } else {
      var m: Id :| (a, m) in all && ReachesIn(all, m, b, n - 1);
      SplitAtEmptyIn(edges, m, b, n - 1);
      ReachesArc(all, a, m);
      if Reaches(solid, m, b) {
        if m != "" {
          ReachesArc(solid, a, m);
          ReachesTrans(solid, a, m, b);
        }
      } else {
        ReachesTrans(all, a, m, "");
      }
    }
  }

  // A solid loop, or a loop through the empty id, is seen from one of its edges.
  lemma LoopIsSeen(edges: seq<Edge>, a: Id)
    requires ("", "") !in ArcsOf(edges) && Reaches(ArcsOf(edges), a, a)
    ensures SomeEdgeCloses(edges)
  {
    var all, solid := ArcsOf(edges), SolidArcs(edges);
    var n: nat :| ReachesIn(all, a, a, n);
    SplitAtEmptyIn(edges, a, a, n);
    if Reaches(solid, a, a) {
      var x := LastStep(solid, a, a);
      var e :| e in edges && e.target != "" && ArcOf(e) == (x, a);
      assert Reaches(solid, e.target, e.source);
    } else {
      if a != "" {
        ReachesMono(solid, all, "", a);
        ReachesTrans(all, "", a, "");
      }
      var x := LastStep(all, "", "");
      var e :| e in edges && ArcOf(e) == (x, "");
      assert x != "";
      var j: nat :| ReachesIn(all, "", x, j);
      SplitAtEmptyIn(edges, "", x, j);
      assert Reaches(solid, e.target, e.source);
    }
  }

  // The per-edge test is exact on any graph without a self-loop on the empty
  // id, and a self-loop is refused before the test runs.
  lemma HasCycleExact(edges: seq<Edge>)
    requires ("", "") !in ArcsOf(edges)
    ensures SomeEdgeCloses(edges) <==> !Acyclic(ArcsOf(edges))
  {
    var all, solid := ArcsOf(edges), SolidArcs(edges);
    if SomeEdgeCloses(edges) {
      var e :| e in edges && Reaches(solid, e.target, e.source);
      assert ArcOf(e) in all;
      ReachesMono(solid, all, e.target, e.source);
      ReachesArc(all, e.source, e.target);
      ReachesTrans(all, e.source, e.target, e.source);
    }
    if !Acyclic(all) {
      var a: Id :| Reaches(all, a, a);
      LoopIsSeen(edges, a);
    }
  }

  // --- the checks ---

  function EdgeReason(ids: set<Id>, edges: seq<Edge>, i: nat): Option<Reason>
    requires i < |edges|
  {
    var e := edges[i];
    if e.source !in ids || e.target !in ids then Some(MissingEnds)
    else if e.source == e.target then Some(SelfLoop)
    else if ArcOf(e) in ArcsOf(edges[..i]) then Some(ParallelEdges)
    else None
  }

  function EdgesReason(ids: set<Id>, edges: seq<Edge>, i: nat): Option<Reason>
    requires i <= |edges|
    decreases |edges| - i
  {
    if i == |edges| then None
    else if EdgeReason(ids, edges, i).Some? then EdgeReason(ids, edges, i)
    else EdgesReason(ids, edges, i + 1)
  }

  function LifecycleIds(nodes: seq<Node>): seq<Id> {
    if nodes == [] then []
    else (if nodes[0].kind == Lifecycle then [nodes[0].id] else []) + LifecycleIds(nodes[1..])
  }

  predicate ConditionBranchesOk(g: Graph) {
    forall e, n | e in g.edges && n in g.nodes && n.id == e.source ::
      if ActionTypeOf(n) == Some(CONDITION) then e.sourceHandle in {Some("true"), Some("false")}
      else e.sourceHandle !in {Some("true"), Some("false")}
  }

  predicate LifecycleOutletsOk(g: Graph) {
    forall e, n | e in g.edges && n in g.nodes && n.id == e.source && n.kind == Lifecycle ::
      e.sourceHandle in {Some(STARTED), Some(CANCELED)}
  }

  // The checks in order, given the answer of the cycle test. `joinRefused` is
  // the verdict of the AND-join rules, which this model leaves open.
  function ReasonGiven(g: Graph, cyclic: bool, joinRefused: bool): Option<Reason> {
    var edges := EdgesReason(NodeIds(g.nodes), g.edges, 0);
    var lifecycles := LifecycleIds(g.nodes);
    if HasDuplicates(Map(g.nodes, NodeId)) then Some(DuplicateNodeIds)
    else if HasDuplicates(Map(g.edges, EdgeId)) then Some(DuplicateEdgeIds)
    else if edges.Some? then edges
    else if cyclic then Some(Cyclic)
    else if lifecycles == [] then Some(NoLifecycle)
    else if |lifecycles| > 1 then Some(ManyLifecycles)
    else if exists e :: e in g.edges && e.target == lifecycles[0] then Some(LifecycleNotRoot)
    else if !GroupStructureOk(g) then Some(GroupStructure)
    else if !ConditionBranchesOk(g) then Some(ConditionBranch)
    else if !LifecycleOutletsOk(g) then Some(LifecycleOutlet)
    else if joinRefused then Some(JoinRule)
    else None
  }

  ghost function TopologyReason(g: Graph, joinRefused: bool): Option<Reason> {
    ReasonGiven(g, SomeEdgeCloses(g.edges), joinRefused)
  }

  method TopologyRefusalReason(g: Graph, joinRefused: bool) returns (reason: Option<Reason>)
    ensures reason == TopologyReason(g, joinRefused)
  {
    var cyclic := HasCycle(g.edges);
    reason := ReasonGiven(g, cyclic, joinRefused);
  }

  ghost predicate SimpleEdges(ids: set<Id>, edges: seq<Edge>) {
    && (forall e | e in edges :: e.source in ids && e.target in ids && e.source != e.target)
    && DistinctBy(edges, ArcOf)
  }

  lemma {:induction false} EdgesReasonFrom(ids: set<Id>, edges: seq<Edge>, i: nat)
    requires i <= |edges|
    ensures EdgesReason(ids, edges, i).None? <==> forall j | i <= j < |edges| :: EdgeReason(ids, edges, j).None?
    decreases |edges| - i
  {
    if i < |edges| { EdgesReasonFrom(ids, edges, i + 1); }
  }

  lemma EdgesReasonExact(ids: set<Id>, edges: seq<Edge>)
    ensures EdgesReason(ids, edges, 0).None? <==> SimpleEdges(ids, edges)
  {
    if SimpleEdges(ids, edges) {
      forall j | 0 <= j < |edges| ensures EdgeReason(ids, edges, j).None? {
        forall e | e in edges[..j] ensures ArcOf(e) != ArcOf(edges[j]) {
          var i :| 0 <= i < j && edges[i] == e;
        }
      }
    }
    EdgesReasonFrom(ids, edges, 0);
    if EdgesReason(ids, edges, 0).None? {
      forall e | e in edges ensures e.source in ids && e.target in ids && e.source != e.target {
        var j :| 0 <= j < |edges| && edges[j] == e;
        assert EdgeReason(ids, edges, j).None?;
      }
      forall i, j | 0 <= i < j < |edges| ensures ArcOf(edges[i]) != ArcOf(edges[j]) {
        assert EdgeReason(ids, edges, j).None?;
        assert edges[i] in edges[..j];
      }
    }
  }

  // What the gate accepts: a simple acyclic graph with one root Lifecycle Node,
  // sound Groups and named outlets, whose joins are allowed.
  ghost predicate Sound(g: Graph) {
    && UniqueNodeIds(g.nodes) && UniqueEdgeIds(g.edges)
    && SimpleEdges(NodeIds(g.nodes), g.edges)
    && Acyclic(ArcsOf(g.edges))
    && |LifecycleIds(g.nodes)| == 1
    && (forall e | e in g.edges :: e.target != LifecycleIds(g.nodes)[0])
    && GroupStructureOk(g) && ConditionBranchesOk(g) && LifecycleOutletsOk(g)
  }

  lemma GateExact(g: Graph, joinRefused: bool)
    ensures TopologyReason(g, joinRefused).None? <==> Sound(g) && !joinRefused
  {
    KeySetSize(g.nodes, NodeId);
    KeySetSize(g.edges, EdgeId);
    EdgesReasonExact(NodeIds(g.nodes), g.edges);
    if SimpleEdges(NodeIds(g.nodes), g.edges) {
      forall e | e in g.edges ensures ArcOf(e) != ("", "") {}
      HasCycleExact(g.edges);
    }
  }
}
