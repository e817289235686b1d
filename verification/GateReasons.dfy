// Which reason the topology gate gives: a flaw the graph has, and the first in
// the order of the checks.
module GateReasons {
  import opened Reachability
  import opened Sequences
  import opened WorkflowGraph
  import opened GroupRules
  import opened Topology

  predicate IsLifecycleNode(g: Graph, n: Node) { n in g.nodes && n.kind == Lifecycle }

  // What each reason says of a graph.
  ghost predicate Flaw(g: Graph, joinRefused: bool, why: Reason) {
    match why
    case DuplicateNodeIds => !UniqueNodeIds(g.nodes)
    case DuplicateEdgeIds => !UniqueEdgeIds(g.edges)
    case MissingEnds => exists e :: e in g.edges && (e.source !in NodeIds(g.nodes) || e.target !in NodeIds(g.nodes))
    case SelfLoop => exists e :: e in g.edges && e.source == e.target
    case ParallelEdges =>
      exists i, j :: 0 <= i < j < |g.edges| && g.edges[i].source == g.edges[j].source
        && g.edges[i].target == g.edges[j].target
    case Cyclic => !Acyclic(ArcsOf(g.edges))
    case NoLifecycle => forall n | n in g.nodes :: n.kind != Lifecycle
    case ManyLifecycles =>
      TwoLifecycles(g.nodes)
    case LifecycleNotRoot => exists e, n :: e in g.edges && IsLifecycleNode(g, n) && e.target == n.id
    case GroupStructure => !GroupStructureOk(g)
    case ConditionBranch =>
      exists e, n :: e in g.edges && n in g.nodes && n.id == e.source
        && (ActionTypeOf(n) == Some("Condition")) != (e.sourceHandle == Some("true") || e.sourceHandle == Some("false"))
    case LifecycleOutlet =>
      exists e, n :: e in g.edges && IsLifecycleNode(g, n) && n.id == e.source
        && e.sourceHandle != Some("started") && e.sourceHandle != Some("canceled")
    case JoinRule => joinRefused
  }

  // The order of the checks. One pass over the edges looks for three of them.
  function CheckedAs(why: Reason): nat {
    match why
    case DuplicateNodeIds => 0
    case DuplicateEdgeIds => 1
    case MissingEnds => 2
    case SelfLoop => 2
    case ParallelEdges => 2
    case Cyclic => 3
    case NoLifecycle => 4
    case ManyLifecycles => 5
    case LifecycleNotRoot => 6
    case GroupStructure => 7
    case ConditionBranch => 8
    case LifecycleOutlet => 9
    case JoinRule => 10
  }

  // --- the checks read as flaws ---

  lemma {:induction false} LifecyclesListed(nodes: seq<Node>, id: Id)
    ensures id in LifecycleIds(nodes) <==> exists n :: n in nodes && n.kind == Lifecycle && n.id == id
  {
    if nodes != [] {
      LifecyclesListed(nodes[1..], id);
      assert forall n :: n in nodes <==> n == nodes[0] || n in nodes[1..];
    }
  }

  lemma {:induction false} LifecyclesNone(nodes: seq<Node>)
    ensures LifecycleIds(nodes) == [] <==> forall n | n in nodes :: n.kind != Lifecycle
  {
    if nodes != [] {
      LifecyclesNone(nodes[1..]);
      assert forall n :: n in nodes <==> n == nodes[0] || n in nodes[1..];
    }
  }

  ghost predicate TwoLifecycles(nodes: seq<Node>) {
    exists i, j :: 0 <= i < j < |nodes| && nodes[i].kind == Lifecycle && nodes[j].kind == Lifecycle
  }

  lemma {:induction false} LifecyclesMany(nodes: seq<Node>)
    ensures |LifecycleIds(nodes)| > 1 <==> TwoLifecycles(nodes)
  {
    if nodes != [] {
      var rest := nodes[1..];
      LifecyclesMany(rest);
      LifecyclesNone(rest);
      TwoFromFirst(nodes);
      hide TwoLifecycles;
    }
  }

  lemma TwoFromFirst(nodes: seq<Node>)
    requires nodes != []
    ensures TwoLifecycles(nodes)
       <==> TwoLifecycles(nodes[1..])
            || (nodes[0].kind == Lifecycle && exists n :: n in nodes[1..] && n.kind == Lifecycle)
  {
    var rest := nodes[1..];
    assert forall j | 0 <= j < |rest| :: rest[j] == nodes[j + 1];
    if i, j :| 0 <= i < j < |nodes| && nodes[i].kind == Lifecycle && nodes[j].kind == Lifecycle {
      assert rest[j - 1].kind == Lifecycle && rest[j - 1] in rest;
      if i > 0 { assert rest[i - 1].kind == Lifecycle; }
    }
    if n :| n in rest && n.kind == Lifecycle && nodes[0].kind == Lifecycle {
      var j :| 0 <= j < |rest| && rest[j] == n;
      assert nodes[j + 1].kind == Lifecycle;
    }
    if i, j :| 0 <= i < j < |rest| && rest[i].kind == Lifecycle && rest[j].kind == Lifecycle {
      assert nodes[i + 1].kind == Lifecycle && nodes[j + 1].kind == Lifecycle;
    }
  }

  lemma {:induction false} EdgesReasonIsFlaw(g: Graph, joinRefused: bool, i: nat)
    requires i <= |g.edges| && EdgesReason(NodeIds(g.nodes), g.edges, i).Some?
    ensures var why := EdgesReason(NodeIds(g.nodes), g.edges, i).value;
            (why.MissingEnds? || why.SelfLoop? || why.ParallelEdges?) && Flaw(g, joinRefused, why)
    decreases |g.edges| - i
  {
    if EdgeReason(NodeIds(g.nodes), g.edges, i).Some? {
      var e := g.edges[i];
      assert e in g.edges;
      if EdgeReason(NodeIds(g.nodes), g.edges, i) == Some(ParallelEdges) {
        var d :| d in g.edges[..i] && ArcOf(d) == ArcOf(e);
        var k :| 0 <= k < i && g.edges[k] == d;
      }
    } else {
      EdgesReasonIsFlaw(g, joinRefused, i + 1);
    }
  }

  lemma EdgesFlawed(g: Graph, joinRefused: bool, why: Reason)
    requires why.MissingEnds? || why.SelfLoop? || why.ParallelEdges?
    ensures Flaw(g, joinRefused, why) ==> !SimpleEdges(NodeIds(g.nodes), g.edges)
  {
    if why.ParallelEdges? && Flaw(g, joinRefused, why) {
      var i, j :| 0 <= i < j < |g.edges| && g.edges[i].source == g.edges[j].source
        && g.edges[i].target == g.edges[j].target;
      assert ArcOf(g.edges[i]) == ArcOf(g.edges[j]);
    }
  }

  lemma LateChecks(g: Graph, joinRefused: bool)
    ensures Flaw(g, joinRefused, ConditionBranch) <==> !ConditionBranchesOk(g)
    ensures Flaw(g, joinRefused, LifecycleOutlet) <==> !LifecycleOutletsOk(g)
    ensures Flaw(g, joinRefused, GroupStructure) <==> !GroupStructureOk(g)
    ensures Flaw(g, joinRefused, JoinRule) <==> joinRefused
  {
    hide GroupStructureOk;
  }

  lemma EntryChecks(g: Graph, joinRefused: bool)
    ensures Flaw(g, joinRefused, NoLifecycle) <==> LifecycleIds(g.nodes) == []
    ensures Flaw(g, joinRefused, ManyLifecycles) <==> |LifecycleIds(g.nodes)| > 1
  {
    LifecyclesNone(g.nodes);
    LifecyclesMany(g.nodes);
  }

  lemma RootCheck(g: Graph, joinRefused: bool)
    requires |LifecycleIds(g.nodes)| == 1
    ensures Flaw(g, joinRefused, LifecycleNotRoot)
       <==> exists e :: e in g.edges && e.target == LifecycleIds(g.nodes)[0]
  {
    var ids := LifecycleIds(g.nodes);
    forall id ensures id in ids <==> exists n :: n in g.nodes && n.kind == Lifecycle && n.id == id {
      LifecyclesListed(g.nodes, id);
    }
    hide LifecycleIds;
    assert ids[0] in ids && forall id | id in ids :: id == ids[0];
    if e, n :| e in g.edges && IsLifecycleNode(g, n) && e.target == n.id { assert n.id in ids; }
    if e :| e in g.edges && e.target == ids[0] {
      var n :| n in g.nodes && n.kind == Lifecycle && n.id == ids[0];
      assert IsLifecycleNode(g, n);
    }
  }

  lemma FirstChecks(g: Graph, joinRefused: bool)
    ensures Flaw(g, joinRefused, DuplicateNodeIds) <==> HasDuplicates(Map(g.nodes, NodeId))
    ensures Flaw(g, joinRefused, DuplicateEdgeIds) <==> HasDuplicates(Map(g.edges, EdgeId))
    ensures SimpleEdges(NodeIds(g.nodes), g.edges) ==> (Flaw(g, joinRefused, Cyclic) <==> SomeEdgeCloses(g.edges))
  {
    KeySetSize(g.nodes, NodeId);
    KeySetSize(g.edges, EdgeId);
    if SimpleEdges(NodeIds(g.nodes), g.edges) {
      forall e | e in g.edges ensures ArcOf(e) != ("", "") {}
      HasCycleExact(g.edges);
    }
  }

  lemma Checks(g: Graph, joinRefused: bool)
    ensures Flaw(g, joinRefused, DuplicateNodeIds) <==> HasDuplicates(Map(g.nodes, NodeId))
    ensures Flaw(g, joinRefused, DuplicateEdgeIds) <==> HasDuplicates(Map(g.edges, EdgeId))
    ensures EdgesReason(NodeIds(g.nodes), g.edges, 0).None?
            ==> (Flaw(g, joinRefused, Cyclic) <==> SomeEdgeCloses(g.edges))
    ensures Flaw(g, joinRefused, NoLifecycle) <==> LifecycleIds(g.nodes) == []
    ensures Flaw(g, joinRefused, ManyLifecycles) <==> |LifecycleIds(g.nodes)| > 1
    ensures |LifecycleIds(g.nodes)| == 1
            ==> (Flaw(g, joinRefused, LifecycleNotRoot)
                 <==> exists e :: e in g.edges && e.target == LifecycleIds(g.nodes)[0])
    ensures Flaw(g, joinRefused, GroupStructure) <==> !GroupStructureOk(g)
    ensures Flaw(g, joinRefused, ConditionBranch) <==> !ConditionBranchesOk(g)
    ensures Flaw(g, joinRefused, LifecycleOutlet) <==> !LifecycleOutletsOk(g)
    ensures Flaw(g, joinRefused, JoinRule) <==> joinRefused
  {
    hide Flaw, EdgesReason, SimpleEdges, LifecycleIds, SomeEdgeCloses, GroupStructureOk, ConditionBranchesOk,
      LifecycleOutletsOk, HasDuplicates, NodeIds, Map;
    FirstChecks(g, joinRefused);
    EdgesReasonExact(NodeIds(g.nodes), g.edges);
    EntryChecks(g, joinRefused);
    LateChecks(g, joinRefused);
    if |LifecycleIds(g.nodes)| == 1 { RootCheck(g, joinRefused); }
  }

  lemma EdgeChecks(g: Graph, joinRefused: bool, other: Reason)
    ensures var edges := EdgesReason(NodeIds(g.nodes), g.edges, 0);
            && (edges.Some? ==> (edges.value.MissingEnds? || edges.value.SelfLoop? || edges.value.ParallelEdges?)
                                && Flaw(g, joinRefused, edges.value))
            && (edges.None? && (other.MissingEnds? || other.SelfLoop? || other.ParallelEdges?)
                ==> !Flaw(g, joinRefused, other))
  {
    EdgesReasonExact(NodeIds(g.nodes), g.edges);
    if EdgesReason(NodeIds(g.nodes), g.edges, 0).Some? { EdgesReasonIsFlaw(g, joinRefused, 0); }
    if other.MissingEnds? || other.SelfLoop? || other.ParallelEdges? { EdgesFlawed(g, joinRefused, other); }
  }

  // The gate's reason is a flaw the graph has, and no flaw is checked before it.
  // A graph it passes has none.
  lemma ReasonExact(g: Graph, joinRefused: bool, other: Reason)
    ensures var reason := TopologyReason(g, joinRefused);
            && (reason.Some? ==> Flaw(g, joinRefused, reason.value))
            && (Flaw(g, joinRefused, other) ==> reason.Some? && CheckedAs(reason.value) <= CheckedAs(other))
  {
    hide Flaw, EdgesReason, SimpleEdges, LifecycleIds, SomeEdgeCloses, GroupStructureOk, ConditionBranchesOk,
      LifecycleOutletsOk, HasDuplicates, NodeIds, Map;
    Checks(g, joinRefused);
    EdgeChecks(g, joinRefused, other);
  }
}
