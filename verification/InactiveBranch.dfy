// Which nodes a run can never reach: one downstream walk, and the AND-join
// reading of the graph it has to agree with.
module InactiveBranch {
  import opened Reachability
  import opened Sequences
  import opened WorkflowGraph
  import opened GraphWalks

  datatype Inactive = Inactive(nodeIds: set<Id>, outletEdgeIds: set<Id>)

  const NONE_INACTIVE := Inactive({}, {})

  // Whether a Lifecycle Node's config declares a Cancel Event is the config's
  // own question.
  type CancelRule = Config -> bool

  function DeadCanceledOutletEdges(g: Graph, declaresCancel: CancelRule): seq<Edge> {
    var entries := Filter(g.nodes, (n: Node) => n.kind == Lifecycle);
    if entries == [] || (exists n :: n in entries && declaresCancel(n.data.config)) then []
    else Filter(g.edges, (e: Edge) => e.source in NodeIds(entries) && e.sourceHandle == Some(CANCELED))
  }

  // The Canceled outlet of a Lifecycle Node, while no Lifecycle Node declares a
  // Cancel Event.
  ghost predicate DeadOutlet(g: Graph, declaresCancel: CancelRule, e: Edge) {
    && e in g.edges && e.sourceHandle == Some("canceled")
    && (exists n :: n in g.nodes && n.id == e.source && n.kind == Lifecycle)
    && (forall n | n in g.nodes && n.kind == Lifecycle :: !declaresCancel(n.data.config))
  }

  lemma DeadOutletsExact(g: Graph, declaresCancel: CancelRule)
    ensures forall e :: e in DeadCanceledOutletEdges(g, declaresCancel) <==> DeadOutlet(g, declaresCancel, e)
  {
    var entries := Filter(g.nodes, (n: Node) => n.kind == Lifecycle);
    forall id ensures id in NodeIds(entries) <==> exists n :: n in g.nodes && n.id == id && n.kind == Lifecycle {
      if n :| n in g.nodes && n.id == id && n.kind == Lifecycle { assert n in entries; }
    }
  }

  function DisabledIds(nodes: seq<Node>): seq<Id> {
    Map(Filter(nodes, (n: Node) => n.data.enabled == Some(false)), NodeId)
  }

  // --- what the walk must compute ---

  // An edge that never releases its target, whatever happens at its source.
  ghost predicate Withholds(g: Graph, declaresCancel: CancelRule, e: Edge) {
    DeadOutlet(g, declaresCancel, e)
    || exists n :: n in g.nodes && n.id == e.source && n.data.enabled == Some(false)
  }

  // A node is ready only when every incoming edge releases it: on an acyclic
  // graph, whether any edge holds it back, by recursion over its ancestors.
  ghost predicate Blocked(g: Graph, declaresCancel: CancelRule, v: Id)
    requires Acyclic(ArcsOf(g.edges))
    decreases Ancestors(ArcsOf(g.edges), v)
  {
    exists e :: e in g.edges && e.target == v && HeldBack(g, declaresCancel, e)
  }

  ghost predicate HeldBack(g: Graph, declaresCancel: CancelRule, e: Edge)
    requires Acyclic(ArcsOf(g.edges)) && e in g.edges
    decreases Ancestors(ArcsOf(g.edges), e.target), 0
  {
    assert ArcOf(e) in ArcsOf(g.edges);
    AncestorsShrink(ArcsOf(g.edges), e.source, e.target);
    Withholds(g, declaresCancel, e) || Blocked(g, declaresCancel, e.source)
  }

  // The frames standing for members every one of which is lost.
  ghost predicate StandsForLost(nodes: seq<Node>, lost: set<Id>, frameId: Id) {
    && frameId != "" && (exists n :: n in nodes && n.parentId == Some(frameId))
    && (forall n | n in nodes && n.parentId == Some(frameId) :: n.id in lost)
  }

  // --- what the walk reaches ---

  function TargetsOf(edges: seq<Edge>): seq<Id> {
    Map(edges, (e: Edge) => e.target)
  }

  // Where the walk starts: under every dead outlet, and at every disabled node.
  function StartsOf(g: Graph, declaresCancel: CancelRule): seq<Id> {
    TargetsOf(DeadCanceledOutletEdges(g, declaresCancel)) + DisabledIds(g.nodes)
  }

  // What the walk names: under a dead outlet, or downstream of one or of a
  // disabled node.
  ghost predicate Lost(g: Graph, declaresCancel: CancelRule, v: Id) {
    || UnderDead(g, declaresCancel, v)
    || exists s: Id :: (UnderDead(g, declaresCancel, s) || Disabled(g, s)) && Reaches(SolidArcs(g.edges), s, v)
  }

  ghost predicate UnderDead(g: Graph, declaresCancel: CancelRule, v: Id) {
    exists e :: DeadOutlet(g, declaresCancel, e) && e.target == v
  }

  // The same through the lists the walk starts from.
  lemma LostListed(g: Graph, declaresCancel: CancelRule, v: Id)
    ensures v in TargetsOf(DeadCanceledOutletEdges(g, declaresCancel)) <==> UnderDead(g, declaresCancel, v)
    ensures v in Elements(StartsOf(g, declaresCancel)) <==> UnderDead(g, declaresCancel, v) || Disabled(g, v)
  {
    DeadOutletsExact(g, declaresCancel);
    hide DeadCanceledOutletEdges, DeadOutlet;
    TargetListed(DeadCanceledOutletEdges(g, declaresCancel), v);
    DisabledListed(g, v);
  }

  lemma LostReached(g: Graph, declaresCancel: CancelRule, v: Id)
    ensures Lost(g, declaresCancel, v)
       <==> (v in TargetsOf(DeadCanceledOutletEdges(g, declaresCancel))
             || ReachedFrom(SolidArcs(g.edges), Elements(StartsOf(g, declaresCancel)), v))
  {
    hide DeadCanceledOutletEdges, DeadOutlet, UnderDead, Disabled, Elements, StartsOf, TargetsOf;
    forall s: Id
      ensures s in TargetsOf(DeadCanceledOutletEdges(g, declaresCancel)) <==> UnderDead(g, declaresCancel, s)
      ensures s in Elements(StartsOf(g, declaresCancel)) <==> UnderDead(g, declaresCancel, s) || Disabled(g, s)
    {
      LostListed(g, declaresCancel, s);
    }
  }

  predicate Disabled(g: Graph, v: Id) {
    exists n :: n in g.nodes && n.id == v && n.data.enabled == Some(false)
  }

  lemma DisabledListed(g: Graph, v: Id)
    ensures v in DisabledIds(g.nodes) <==> Disabled(g, v)
  {
  }

  lemma TargetListed(edges: seq<Edge>, v: Id)
    ensures v in TargetsOf(edges) <==> exists e :: e in edges && e.target == v
  {
  }

  lemma {:induction false} BlockedOnward(g: Graph, declaresCancel: CancelRule, u: Id, v: Id, n: nat)
    requires Acyclic(ArcsOf(g.edges)) && ReachesIn(ArcsOf(g.edges), u, v, n)
    requires Disabled(g, u) || Blocked(g, declaresCancel, u)
    ensures Blocked(g, declaresCancel, v)
    decreases n
  {
    hide DeadOutlet;
    var m: Id :| (u, m) in ArcsOf(g.edges) && (if n == 1 then m == v else ReachesIn(ArcsOf(g.edges), m, v, n - 1));
    var e :| e in g.edges && ArcOf(e) == (u, m);
    assert HeldBack(g, declaresCancel, e);
    assert Blocked(g, declaresCancel, m);
    if n > 1 { BlockedOnward(g, declaresCancel, m, v, n - 1); }
  }

  lemma {:induction false} BlockedIsLost(g: Graph, declaresCancel: CancelRule, v: Id)
    requires Acyclic(ArcsOf(g.edges)) && (forall e | e in g.edges :: e.target != "")
    requires Blocked(g, declaresCancel, v)
    ensures Lost(g, declaresCancel, v)
    decreases Ancestors(ArcsOf(g.edges), v)
  {
    hide DeadOutlet, Reaches;
    var arcs := ArcsOf(g.edges);
    var e :| e in g.edges && e.target == v && HeldBack(g, declaresCancel, e);
    SolidArcsAll(g.edges);
    assert ArcOf(e) in arcs;
    ReachesArc(arcs, e.source, v);
    if !DeadOutlet(g, declaresCancel, e) && !Disabled(g, e.source) {
      AncestorsShrink(arcs, e.source, v);
      BlockedIsLost(g, declaresCancel, e.source);
      LostNext(g, declaresCancel, e);
    }
  }

  lemma LostIsBlocked(g: Graph, declaresCancel: CancelRule, v: Id)
    requires Acyclic(ArcsOf(g.edges)) && (forall e | e in g.edges :: e.target != "")
    requires Lost(g, declaresCancel, v)
    ensures Blocked(g, declaresCancel, v)
  {
    var arcs := ArcsOf(g.edges);
    forall e | DeadOutlet(g, declaresCancel, e) ensures e in g.edges {}
    hide DeadOutlet;
    SolidArcsAll(g.edges);
    forall s: Id | UnderDead(g, declaresCancel, s) ensures Blocked(g, declaresCancel, s) {
      var e :| DeadOutlet(g, declaresCancel, e) && e.target == s;
      assert HeldBack(g, declaresCancel, e);
    }
    if !UnderDead(g, declaresCancel, v) {
      var s: Id :| (UnderDead(g, declaresCancel, s) || Disabled(g, s)) && Reaches(arcs, s, v);
      var n: nat :| ReachesIn(arcs, s, v, n);
      BlockedOnward(g, declaresCancel, s, v, n);
    }
  }

  // On an acyclic graph the one walk answers the readiness question exactly: it
  // reaches a node if and only if some edge into it never releases it.
  lemma WalkIsReadiness(g: Graph, declaresCancel: CancelRule, v: Id)
    requires Acyclic(ArcsOf(g.edges)) && (forall e | e in g.edges :: e.target != "")
    ensures Lost(g, declaresCancel, v) <==> Blocked(g, declaresCancel, v)
  {
    hide Lost, Blocked;
    if Lost(g, declaresCancel, v) { LostIsBlocked(g, declaresCancel, v); }
    if Blocked(g, declaresCancel, v) { BlockedIsLost(g, declaresCancel, v); }
  }

  // On any graph, cyclic ones included, the lost nodes are a solution of the
  // same equation, and every other solution contains them.
  ghost predicate Solves(g: Graph, declaresCancel: CancelRule, s: iset<Id>) {
    forall v: Id :: v in s
      <==> exists e :: e in g.edges && e.target == v && (Withholds(g, declaresCancel, e) || e.source in s)
  }

  lemma {:induction false} SolutionOnward(g: Graph, declaresCancel: CancelRule, s: iset<Id>, u: Id, v: Id, n: nat)
    requires Solves(g, declaresCancel, s) && ReachesIn(ArcsOf(g.edges), u, v, n)
    requires Disabled(g, u) || u in s
    ensures v in s
    decreases n
  {
    hide DeadOutlet;
    var m: Id :| (u, m) in ArcsOf(g.edges) && (if n == 1 then m == v else ReachesIn(ArcsOf(g.edges), m, v, n - 1));
    var e :| e in g.edges && ArcOf(e) == (u, m);
    assert Withholds(g, declaresCancel, e) || e.source in s;
    assert m in s;
    if n > 1 { SolutionOnward(g, declaresCancel, s, m, v, n - 1); }
  }

  lemma LostIsLeast(g: Graph, declaresCancel: CancelRule, s: iset<Id>, v: Id)
    requires forall e | e in g.edges :: e.target != ""
    requires Solves(g, declaresCancel, s) && Lost(g, declaresCancel, v)
    ensures v in s
  {
    forall e | DeadOutlet(g, declaresCancel, e) ensures e in g.edges {}
    hide DeadOutlet;
    var arcs := ArcsOf(g.edges);
    SolidArcsAll(g.edges);
    forall t: Id | UnderDead(g, declaresCancel, t) ensures t in s {
      var e :| DeadOutlet(g, declaresCancel, e) && e.target == t;
      assert Withholds(g, declaresCancel, e);
    }
    if !UnderDead(g, declaresCancel, v) {
      var u: Id :| (UnderDead(g, declaresCancel, u) || Disabled(g, u)) && Reaches(arcs, u, v);
      var n: nat :| ReachesIn(arcs, u, v, n);
      SolutionOnward(g, declaresCancel, s, u, v, n);
    }
  }

  lemma LostSolves(g: Graph, declaresCancel: CancelRule)
    requires forall e | e in g.edges :: e.target != ""
    ensures Solves(g, declaresCancel, iset v: Id | Lost(g, declaresCancel, v))
  {
    hide DeadOutlet, Lost, Withholds;
    var lost := iset v: Id | Lost(g, declaresCancel, v);
    forall v: Id
      ensures v in lost <==> exists e ::
                e in g.edges && e.target == v && (Withholds(g, declaresCancel, e) || e.source in lost)
    {
      if Lost(g, declaresCancel, v) {
        var e := LostThrough(g, declaresCancel, v);
        assert e.source in lost <==> Lost(g, declaresCancel, e.source);
      }
      if e :| e in g.edges && e.target == v && (Withholds(g, declaresCancel, e) || e.source in lost) {
        LostNext(g, declaresCancel, e);
      }
    }
  }

  // The edge a lost node is lost by.
  lemma LostThrough(g: Graph, declaresCancel: CancelRule, v: Id) returns (e: Edge)
    requires forall d | d in g.edges :: d.target != ""
    requires Lost(g, declaresCancel, v)
    ensures e in g.edges && e.target == v && (Withholds(g, declaresCancel, e) || Lost(g, declaresCancel, e.source))
  {
    forall d | DeadOutlet(g, declaresCancel, d) ensures d in g.edges {}
    hide DeadOutlet;
    var arcs := ArcsOf(g.edges);
    SolidArcsAll(g.edges);
    if UnderDead(g, declaresCancel, v) {
      e :| DeadOutlet(g, declaresCancel, e) && e.target == v;
    } else {
      var u: Id :| (UnderDead(g, declaresCancel, u) || Disabled(g, u)) && Reaches(arcs, u, v);
      var x := LastStep(arcs, u, v);
      e :| e in g.edges && ArcOf(e) == (x, v);
    }
  }

  lemma LostNext(g: Graph, declaresCancel: CancelRule, e: Edge)
    requires e in g.edges && forall d | d in g.edges :: d.target != ""
    requires Withholds(g, declaresCancel, e) || Lost(g, declaresCancel, e.source)
    ensures Lost(g, declaresCancel, e.target)
  {
    hide DeadOutlet;
    var arcs := ArcsOf(g.edges);
    SolidArcsAll(g.edges);
    assert ArcOf(e) in arcs;
    ReachesArc(arcs, e.source, e.target);
    if !DeadOutlet(g, declaresCancel, e) && !Disabled(g, e.source) && !UnderDead(g, declaresCancel, e.source) {
      var u: Id :| (UnderDead(g, declaresCancel, u) || Disabled(g, u)) && Reaches(arcs, u, e.source);
      ReachesTrans(arcs, u, e.source, e.target);
    }
  }

  // --- the analysis as it runs ---

  // What `lostByFrame` holds once the nodes in `seen` are folded in.
  ghost predicate Folded(lostByFrame: map<Id, bool>, seen: seq<Node>, lost: set<Id>) {
    && (forall n | n in seen && HasParent(n) :: n.parentId.value in lostByFrame)
    && (forall f | f in lostByFrame :: exists n :: n in seen && HasParent(n) && n.parentId.value == f)
    && (forall f | f in lostByFrame :: lostByFrame[f]
         <==> forall n | n in seen && HasParent(n) && n.parentId.value == f :: n.id in lost)
  }

  lemma FoldOne(lostByFrame: map<Id, bool>, seen: seq<Node>, lost: set<Id>, node: Node)
    requires Folded(lostByFrame, seen, lost) && HasParent(node)
    ensures var f := node.parentId.value;
            Folded(lostByFrame[f := (if f in lostByFrame then lostByFrame[f] else true) && node.id in lost],
              seen + [node], lost)
  {
  }

  // Adds the frame of every Group whose members are all lost.
  method AddFramesStandingForLostMembers(nodes: seq<Node>, lost: set<Id>) returns (nodeIds: set<Id>)
    ensures forall id: Id :: id in nodeIds <==> id in lost || StandsForLost(nodes, lost, id)
  {
    var lostByFrame: map<Id, bool> := map[];
    for i := 0 to |nodes|
      invariant Folded(lostByFrame, nodes[..i], lost)
    {
      var node := nodes[i];
      assert nodes[..i + 1] == nodes[..i] + [node];
      if HasParent(node) {
        FoldOne(lostByFrame, nodes[..i], lost, node);
        var frameId := node.parentId.value;
        lostByFrame := lostByFrame[frameId := (if frameId in lostByFrame then lostByFrame[frameId] else true)
          && node.id in lost];
      } else {
        assert forall n :: n in nodes[..i + 1] <==> n in nodes[..i] || n == node;
      }
    }
    assert nodes[..|nodes|] == nodes;
    nodeIds := lost;
    var left := lostByFrame.Keys;
    while left != {}
      invariant left <= lostByFrame.Keys
      invariant forall id: Id :: id in nodeIds <==> id in lost || (id in lostByFrame.Keys - left && lostByFrame[id])
      decreases left
    {
      var frameId :| frameId in left;
      if lostByFrame[frameId] {
        nodeIds := nodeIds + {frameId};
      }
      left := left - {frameId};
    }
    forall id: Id ensures id in nodeIds <==> id in lost || StandsForLost(nodes, lost, id) {
      if id in lostByFrame {
        assert lostByFrame[id] <==> StandsForLost(nodes, lost, id);
      }
    }
  }

  // A node is named if and only if the walk loses it or it is a frame whose
  // every member is lost, and the outlets are the dead ones.
  method FindInactive(g: Graph, declaresCancel: CancelRule) returns (inactive: Inactive, ghost lost: set<Id>)
    ensures forall v: Id :: v in lost <==> Lost(g, declaresCancel, v)
    ensures forall id: Id :: id in inactive.nodeIds <==> id in lost || StandsForLost(g.nodes, lost, id)
    ensures inactive.outletEdgeIds == set e | e in g.edges && DeadOutlet(g, declaresCancel, e) :: e.id
  {
    DeadOutletsExact(g, declaresCancel);
    forall e | DeadOutlet(g, declaresCancel, e) ensures e in g.edges {}
    hide DeadCanceledOutletEdges, DeadOutlet, Lost;
    forall v: Id
      ensures Lost(g, declaresCancel, v)
         <==> (v in TargetsOf(DeadCanceledOutletEdges(g, declaresCancel))
               || ReachedFrom(SolidArcs(g.edges), Elements(StartsOf(g, declaresCancel)), v)) {
      LostReached(g, declaresCancel, v);
    }
    var canceled := DeadCanceledOutletEdges(g, declaresCancel);
    var disabled := DisabledIds(g.nodes);
    if canceled == [] && disabled == [] {
      lost := {};
      assert StartsOf(g, declaresCancel) == [];
      return NONE_INACTIVE, lost;
    }
    var starts := TargetsOf(canceled) + disabled;
    var below := DescendantsOf(starts, g.edges);
    var nodeIds := Elements(TargetsOf(canceled)) + below;
    lost := nodeIds;
    if canceled != [] {
      TargetListed(canceled, canceled[0].target);
      assert canceled[0].target in lost;
    }
    nodeIds := AddFramesStandingForLostMembers(g.nodes, nodeIds);
    if nodeIds == {} {
      return NONE_INACTIVE, lost;
    }
    inactive := Inactive(nodeIds, EdgeIds(canceled));
  }
}
