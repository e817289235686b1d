// The rules every connection the editor adds must pass. The loop rule is worked
// out; the rules over Group boundaries and joins stay open.
module ConnectionRules {
  import opened Reachability
  import opened Sequences
  import opened WorkflowGraph
  import opened GraphWalks
  import opened CanvasInsertion

  // An addition before the store gives it an id.
  function Unnamed(a: Addition): Edge { Edge("", a.source, a.target, a.sourceHandle, a.targetHandle) }

  function Proposed(remaining: seq<Edge>, additions: seq<Addition>): seq<Edge> { remaining + Map(additions, Unnamed) }

  predicate EndpointRefused(nodes: seq<Node>, a: Addition) {
    var source, target := Lookup(nodes, a.source), Lookup(nodes, a.target);
    (source.Some? && source.value.kind == Add) || (target.Some? && target.value.kind in {Add, Lifecycle})
  }

  // Some addition's target already leads to its source.
  ghost predicate ClosesLoop(remaining: seq<Edge>, additions: seq<Addition>) {
    exists a :: a in additions && Reaches(SolidArcs(Proposed(remaining, additions)), a.target, a.source)
  }

  // `otherRules` is the verdict of the rules over Groups and joins.
  ghost predicate AdditionsRefused(g: Graph, additions: seq<Addition>, otherRules: (Graph, seq<Addition>) -> bool) {
    || (exists a :: a in additions && EndpointRefused(g.nodes, a))
    || ClosesLoop(g.edges, additions)
    || otherRules(g, additions)
  }

  method ConnectionAdditionsRefused(g: Graph, additions: seq<Addition>, otherRules: (Graph, seq<Addition>) -> bool)
    returns (refused: bool)
    ensures refused <==> AdditionsRefused(g, additions, otherRules)
  {
    if exists a :: a in additions && EndpointRefused(g.nodes, a) {
      return true;
    }
    var proposed := Proposed(g.edges, additions);
    for i := 0 to |additions|
      invariant forall j | 0 <= j < i :: !Reaches(SolidArcs(proposed), additions[j].target, additions[j].source)
    {
      var upstream := UpstreamNodeIds(additions[i].source, proposed);
      if additions[i].target in upstream {
        return true;
      }
    }
    refused := otherRules(g, additions);
  }

  // A path of the joined arcs either keeps to the old ones or passes a new one.
  lemma {:induction false} PassesNewIn(r: Arcs, s: Arcs, a: Id, b: Id, n: nat)
    requires ReachesIn(r + s, a, b, n)
    ensures Reaches(r, a, b)
            || exists u: Id, v: Id :: (u, v) in s && ReachesOrIs(r + s, a, u) && ReachesOrIs(r + s, v, b)
    decreases n
  {
    if n == 1 {
      if (a, b) in r { ReachesArc(r, a, b); }
    } else {
      var m: Id :| (a, m) in r + s && ReachesIn(r + s, m, b, n - 1);
      PassesNewIn(r, s, m, b, n - 1);
      ReachesArc(r + s, a, m);
      if (a, m) in s {
        assert Reaches(r + s, m, b);
      } else if Reaches(r, m, b) {
        ReachesArc(r, a, m);
        ReachesTrans(r, a, m, b);
      } else {
        var u: Id, v: Id :| (u, v) in s && ReachesOrIs(r + s, m, u) && ReachesOrIs(r + s, v, b);
        if m != u { ReachesTrans(r + s, a, m, u); }
      }
    }
  }

  lemma ProposedArcs(remaining: seq<Edge>, additions: seq<Addition>)
    ensures ArcsOf(Proposed(remaining, additions)) == ArcsOf(remaining) + AdditionArcs(additions)
  {
    var added := Map(additions, Unnamed);
    forall a | a in additions ensures (a.source, a.target) in ArcsOf(remaining + added) {
      MapHas(additions, Unnamed, Unnamed(a));
      assert ArcOf(Unnamed(a)) == (a.source, a.target) && Unnamed(a) in remaining + added;
    }
    forall e | e in added ensures ArcOf(e) in AdditionArcs(additions) {
      MapHas(additions, Unnamed, e);
    }
    forall e | e in remaining ensures e in remaining + added {}
  }

  // With no empty ids, the rule refuses exactly the additions that would leave
  // the canvas cyclic.
  lemma ClosesLoopExact(remaining: seq<Edge>, additions: seq<Addition>)
    requires Acyclic(ArcsOf(remaining))
    requires (forall e | e in remaining :: e.target != "") && (forall a | a in additions :: a.target != "")
    ensures ClosesLoop(remaining, additions) <==> !Acyclic(ArcsOf(remaining) + AdditionArcs(additions))
  {
    hide Reaches;
    var before, added := ArcsOf(remaining), AdditionArcs(additions);
    var all := before + added;
    ProposedArcs(remaining, additions);
    forall e | e in Proposed(remaining, additions) ensures e.target != "" {
      if e !in remaining { MapHas(additions, Unnamed, e); }
    }
    SolidArcsAll(Proposed(remaining, additions));
    if a :| a in additions && Reaches(all, a.target, a.source) {
      assert (a.source, a.target) in added;
      ReachesArc(all, a.source, a.target);
      ReachesTrans(all, a.source, a.target, a.source);
    }
    if !Acyclic(all) {
      var x: Id :| Reaches(all, x, x);
      LoopPassesNew(before, added, x);
      var u: Id, v: Id :| (u, v) in added && Reaches(all, v, u);
      var a :| a in additions && (a.source, a.target) == (u, v);
    }
  }

  lemma LoopPassesNew(r: Arcs, s: Arcs, x: Id)
    requires Acyclic(r) && Reaches(r + s, x, x)
    ensures exists u: Id, v: Id :: (u, v) in s && Reaches(r + s, v, u)
  {
    var n: nat :| ReachesIn(r + s, x, x, n);
    PassesNewIn(r, s, x, x, n);
    var u: Id, v: Id :| (u, v) in s && ReachesOrIs(r + s, x, u) && ReachesOrIs(r + s, v, x);
    ReachesArc(r + s, u, v);
    if v == u {
      assert Reaches(r + s, v, u);
    } else if v == x {
      assert Reaches(r + s, v, u);
    } else if x == u {
      assert Reaches(r + s, v, u);
    } else {
      ReachesTrans(r + s, v, x, u);
    }
  }
}
