// Reachability over a finite relation on node ids, and the path-splicing facts
// the graph editors rest on. Every path has at least one arc.
module Reachability {

  type Id = string
  type Arcs = set<(Id, Id)>

  // Some path of exactly `n` arcs leads from `a` to `b`.
  ghost predicate ReachesIn(r: Arcs, a: Id, b: Id, n: nat)
    decreases n
  {
    if n == 0 then false
    else if n == 1 then (a, b) in r
    else exists m: Id :: (a, m) in r && ReachesIn(r, m, b, n - 1)
  }

  ghost predicate Reaches(r: Arcs, a: Id, b: Id) {
    exists n: nat :: ReachesIn(r, a, b, n)
  }

  ghost predicate ReachesOrIs(r: Arcs, a: Id, b: Id) {
    a == b || Reaches(r, a, b)
  }

  ghost predicate Acyclic(r: Arcs) {
    forall a: Id :: !Reaches(r, a, a)
  }

  // --- composing paths ---

  lemma ReachesArc(r: Arcs, a: Id, b: Id)
    requires (a, b) in r
    ensures Reaches(r, a, b)
  {
    assert ReachesIn(r, a, b, 1);
  }

  lemma {:induction false} ReachesInTrans(r: Arcs, a: Id, b: Id, c: Id, m: nat, n: nat)
    requires ReachesIn(r, a, b, m) && ReachesIn(r, b, c, n)
    ensures ReachesIn(r, a, c, m + n)
    decreases m
  {
    if m == 1 {
      assert (a, b) in r && ReachesIn(r, b, c, m + n - 1);
    } else {
      var k: Id :| (a, k) in r && ReachesIn(r, k, b, m - 1);
      ReachesInTrans(r, k, b, c, m - 1, n);
      assert (a, k) in r && ReachesIn(r, k, c, m + n - 1);
    }
  }

  lemma ReachesTrans(r: Arcs, a: Id, b: Id, c: Id)
    requires Reaches(r, a, b) && Reaches(r, b, c)
    ensures Reaches(r, a, c)
  {
    var m: nat :| ReachesIn(r, a, b, m);
    var n: nat :| ReachesIn(r, b, c, n);
    ReachesInTrans(r, a, b, c, m, n);
  }

  // --- transporting paths between relations ---

  ghost predicate Simulates(s: Arcs, r: Arcs) {
    forall a: Id, b: Id :: (a, b) in r ==> Reaches(s, a, b)
  }

  lemma {:induction false} SimulationIn(r: Arcs, s: Arcs, a: Id, b: Id, n: nat)
    requires Simulates(s, r) && ReachesIn(r, a, b, n)
    ensures Reaches(s, a, b)
    decreases n
  {
    if n > 1 {
      var m: Id :| (a, m) in r && ReachesIn(r, m, b, n - 1);
      SimulationIn(r, s, m, b, n - 1);
      ReachesTrans(s, a, m, b);
    }
  }

  // When every arc of `r` is a path of `s`, every path of `r` is one too.
  lemma Simulation(r: Arcs, s: Arcs, a: Id, b: Id)
    requires Simulates(s, r) && Reaches(r, a, b)
    ensures Reaches(s, a, b)
  {
    var n: nat :| ReachesIn(r, a, b, n);
    SimulationIn(r, s, a, b, n);
  }

  lemma ReachesMono(r: Arcs, s: Arcs, a: Id, b: Id)
    requires r <= s && Reaches(r, a, b)
    ensures Reaches(s, a, b)
  {
    forall x: Id, y: Id | (x, y) in r ensures Reaches(s, x, y) { ReachesArc(s, x, y); }
    Simulation(r, s, a, b);
  }

  lemma AcyclicMono(r: Arcs, s: Arcs)
    requires r <= s && Acyclic(s)
    ensures Acyclic(r)
  {
    forall a: Id ensures !Reaches(r, a, a) {
      if Reaches(r, a, a) { ReachesMono(r, s, a, a); }
    }
  }

  // The ends of a path are ends of arcs.
  lemma {:induction false} ReachesInEnds(r: Arcs, a: Id, b: Id, n: nat)
    requires ReachesIn(r, a, b, n)
    ensures exists m: Id :: (a, m) in r
    ensures exists m: Id :: (m, b) in r
    decreases n
  {
    if n == 1 {
      assert (a, b) in r;
    } else {
      var m: Id :| (a, m) in r && ReachesIn(r, m, b, n - 1);
      ReachesInEnds(r, m, b, n - 1);
    }
  }

  lemma ReachesEnds(r: Arcs, a: Id, b: Id)
    requires Reaches(r, a, b)
    ensures exists m: Id :: (a, m) in r
    ensures exists m: Id :: (m, b) in r
  {
    var n: nat :| ReachesIn(r, a, b, n);
    ReachesInEnds(r, a, b, n);
  }

  // A path ends with an arc out of some node its start leads to.
  lemma LastStep(arcs: Arcs, u: Id, v: Id) returns (x: Id)
    requires Reaches(arcs, u, v)
    ensures (x, v) in arcs && ReachesOrIs(arcs, u, x)
  {
    var n: nat :| ReachesIn(arcs, u, v, n);
    x := LastStepIn(arcs, u, v, n);
  }

  lemma {:induction false} LastStepIn(arcs: Arcs, u: Id, v: Id, n: nat) returns (x: Id)
    requires ReachesIn(arcs, u, v, n)
    ensures (x, v) in arcs && ReachesOrIs(arcs, u, x)
    decreases n
  {
    if n == 1 {
      x := u;
    } else {
      var m: Id :| (u, m) in arcs && ReachesIn(arcs, m, v, n - 1);
      x := LastStepIn(arcs, m, v, n - 1);
      ReachesArc(arcs, u, m);
      if x != m { ReachesTrans(arcs, u, m, x); }
    }
  }

  // --- one more arc ---

  lemma {:induction false} SpliceArcIn(r: Arcs, s: Id, t: Id, a: Id, b: Id, n: nat)
    requires ReachesIn(r + {(s, t)}, a, b, n)
    ensures Reaches(r, a, b) || (ReachesOrIs(r, a, s) && ReachesOrIs(r, t, b))
    decreases n
  {
    if n == 1 {
      if (a, b) in r { ReachesArc(r, a, b); }
    } else {
      var m: Id :| (a, m) in r + {(s, t)} && ReachesIn(r + {(s, t)}, m, b, n - 1);
      SpliceArcIn(r, s, t, m, b, n - 1);
      if (a, m) in r {
        ReachesArc(r, a, m);
        if Reaches(r, m, b) { ReachesTrans(r, a, m, b); }
        else if m != s { ReachesTrans(r, a, m, s); }
      }
    }
  }

  // A path that uses the added arc goes to its tail and on from its head.
  lemma SpliceArc(r: Arcs, s: Id, t: Id, a: Id, b: Id)
    ensures Reaches(r + {(s, t)}, a, b)
       <==> Reaches(r, a, b) || (ReachesOrIs(r, a, s) && ReachesOrIs(r, t, b))
  {
    var q := r + {(s, t)};
    if Reaches(q, a, b) {
      var n: nat :| ReachesIn(q, a, b, n);
      SpliceArcIn(r, s, t, a, b, n);
    }
    if Reaches(r, a, b) { ReachesMono(r, q, a, b); }
    if ReachesOrIs(r, a, s) && ReachesOrIs(r, t, b) {
      ReachesArc(q, s, t);
      if a != s { ReachesMono(r, q, a, s); ReachesTrans(q, a, s, t); }
      if t != b { ReachesMono(r, q, t, b); ReachesTrans(q, a, t, b); }
    }
  }

  // Adding `s -> t` to an acyclic relation closes a loop exactly when `t` is
  // `s` or already leads to it.
  lemma AcyclicAddArc(r: Arcs, s: Id, t: Id)
    requires Acyclic(r)
    ensures Acyclic(r + {(s, t)}) <==> !ReachesOrIs(r, t, s)
  {
    var q := r + {(s, t)};
    SpliceArc(r, s, t, s, s);
    if ReachesOrIs(r, t, s) {
      assert Reaches(q, s, s);
    } else {
      forall a: Id ensures !Reaches(q, a, a) {
        SpliceArc(r, s, t, a, a);
        if ReachesOrIs(r, a, s) && ReachesOrIs(r, t, a) {
          if a != s && t != a { ReachesTrans(r, t, a, s); }
        }
      }
    }
  }

  // --- ancestors, the measure acyclic recursion descends on ---

  function TailsOf(r: Arcs): set<Id> {
    set p | p in r :: p.0
  }

  ghost function Ancestors(r: Arcs, v: Id): set<Id> {
    set u | u in TailsOf(r) && Reaches(r, u, v)
  }

  lemma AncestorsShrink(r: Arcs, u: Id, v: Id)
    requires Acyclic(r) && (u, v) in r
    ensures Ancestors(r, u) < Ancestors(r, v)
  {
    ReachesArc(r, u, v);
    assert (u, v).0 in TailsOf(r);
    forall w | w in Ancestors(r, u) ensures w in Ancestors(r, v) { ReachesTrans(r, w, u, v); }
    assert u in Ancestors(r, v) && u !in Ancestors(r, u);
  }

  // --- a star through a fresh node ---

  function Product(tails: set<Id>, heads: set<Id>): Arcs {
    set s, t | s in tails && t in heads :: (s, t)
  }

  function Star(tails: set<Id>, hub: Id, heads: set<Id>): Arcs {
    (set s | s in tails :: (s, hub)) + (set t | t in heads :: (hub, t))
  }

  ghost predicate Avoids(r: Arcs, v: Id) {
    forall a: Id, b: Id :: (a, b) in r ==> a != v && b != v
  }

  lemma StarStep(kept: Arcs, tails: set<Id>, hub: Id, heads: set<Id>, x: Id, y: Id)
    requires Avoids(kept, hub) && hub !in tails && hub !in heads
    ensures (x, y) in kept + Star(tails, hub, heads)
       <==> if y == hub then x in tails else if x == hub then y in heads else (x, y) in kept
  {
  }

  lemma {:induction false} StarContractIn(kept: Arcs, tails: set<Id>, hub: Id, heads: set<Id>, a: Id, b: Id, n: nat)
    requires Avoids(kept, hub) && hub !in tails && hub !in heads
    requires ReachesIn(kept + Star(tails, hub, heads), a, b, n) && a != hub && b != hub
    ensures Reaches(kept + Product(tails, heads), a, b)
    decreases n
  {
    hide Star;
    var star := kept + Star(tails, hub, heads);
    var full := kept + Product(tails, heads);
    if n == 1 {
      StarStep(kept, tails, hub, heads, a, b);
      ReachesArc(full, a, b);
    } else {
      var m: Id :| (a, m) in star && ReachesIn(star, m, b, n - 1);
      StarStep(kept, tails, hub, heads, a, m);
      if m != hub {
        ReachesArc(full, a, m);
        StarContractIn(kept, tails, hub, heads, m, b, n - 1);
        ReachesTrans(full, a, m, b);
      } else if n == 2 {
        StarStep(kept, tails, hub, heads, hub, b);
        ReachesArc(full, a, b);
      } else {
        var k: Id :| (hub, k) in star && ReachesIn(star, k, b, n - 2);
        StarStep(kept, tails, hub, heads, hub, k);
        ReachesArc(full, a, k);
        StarContractIn(kept, tails, hub, heads, k, b, n - 2);
        ReachesTrans(full, a, k, b);
      }
    }
  }

  // Between old nodes, routing through a fresh hub is the same as joining every
  // tail to every head directly.
  lemma StarIsProduct(kept: Arcs, tails: set<Id>, hub: Id, heads: set<Id>, a: Id, b: Id)
    requires Avoids(kept, hub) && hub !in tails && hub !in heads
    requires a != hub && b != hub
    ensures Reaches(kept + Star(tails, hub, heads), a, b) <==> Reaches(kept + Product(tails, heads), a, b)
  {
    var star := kept + Star(tails, hub, heads);
    var full := kept + Product(tails, heads);
    if Reaches(star, a, b) {
      var n: nat :| ReachesIn(star, a, b, n);
      StarContractIn(kept, tails, hub, heads, a, b, n);
    }
    if Reaches(full, a, b) {
      forall x: Id, y: Id | (x, y) in full ensures Reaches(star, x, y) {
        if (x, y) in kept {
          ReachesArc(star, x, y);
        } else {
          assert (x, hub) in star && (hub, y) in star;
          ReachesArc(star, x, hub);
          ReachesArc(star, hub, y);
          ReachesTrans(star, x, hub, y);
        }
      }
      Simulation(full, star, a, b);
    }
  }

  // A loop through the hub passes a tail and a head, so it is a loop of the
  // direct graph too.
  lemma StarAcyclic(kept: Arcs, tails: set<Id>, hub: Id, heads: set<Id>)
    requires Avoids(kept, hub) && hub !in tails && hub !in heads
    ensures Acyclic(kept + Star(tails, hub, heads)) <==> Acyclic(kept + Product(tails, heads))
  {
    var star := kept + Star(tails, hub, heads);
    var full := kept + Product(tails, heads);
    if Acyclic(star) {
      forall a: Id ensures !Reaches(full, a, a) {
        if a == hub {
          if Reaches(full, a, a) { ReachesEnds(full, a, a); }
        } else {
          StarIsProduct(kept, tails, hub, heads, a, a);
        }
      }
    }
    if Acyclic(full) {
      forall a: Id ensures !Reaches(star, a, a) {
        if a != hub {
          StarIsProduct(kept, tails, hub, heads, a, a);
        } else if Reaches(star, hub, hub) {
          LoopLeavesHub(star, hub);
          var m: Id :| (hub, m) in star && m != hub && Reaches(star, m, m);
          StarIsProduct(kept, tails, hub, heads, m, m);
        }
      }
    }
  }

  lemma LoopLeavesHub(r: Arcs, v: Id)
    requires Reaches(r, v, v) && (v, v) !in r
    ensures exists m: Id :: (v, m) in r && m != v && Reaches(r, m, m)
  {
    var n: nat :| ReachesIn(r, v, v, n);
    var m: Id :| (v, m) in r && ReachesIn(r, m, v, n - 1);
    ReachesArc(r, v, m);
    assert Reaches(r, m, v);
    ReachesTrans(r, m, v, m);
  }

  // --- disjoint unions and renamings ---

  ghost predicate Over(r: Arcs, ids: set<Id>) {
    forall a: Id, b: Id :: (a, b) in r ==> a in ids && b in ids
  }

  lemma {:induction false} UnionSplitsIn(r: Arcs, s: Arcs, a: Id, b: Id, left: set<Id>, right: set<Id>, n: nat)
    requires Over(r, left) && Over(s, right) && left !! right
    requires ReachesIn(r + s, a, b, n)
    ensures a in left ==> ReachesIn(r, a, b, n)
    ensures a in right ==> ReachesIn(s, a, b, n)
    ensures a in left || a in right
    decreases n
  {
    if n > 1 {
      var m: Id :| (a, m) in r + s && ReachesIn(r + s, m, b, n - 1);
      UnionSplitsIn(r, s, m, b, left, right, n - 1);
    }
  }

  // A path of a disjoint union stays on one side.
  lemma UnionSplits(r: Arcs, s: Arcs, a: Id, b: Id, left: set<Id>, right: set<Id>)
    requires Over(r, left) && Over(s, right) && left !! right
    ensures Reaches(r + s, a, b) <==> Reaches(r, a, b) || Reaches(s, a, b)
  {
    if Reaches(r + s, a, b) {
      var n: nat :| ReachesIn(r + s, a, b, n);
      UnionSplitsIn(r, s, a, b, left, right, n);
    }
    if Reaches(r, a, b) { ReachesMono(r, r + s, a, b); }
    if Reaches(s, a, b) { ReachesMono(s, r + s, a, b); }
  }

  lemma UnionAcyclic(r: Arcs, s: Arcs, left: set<Id>, right: set<Id>)
    requires Over(r, left) && Over(s, right) && left !! right
    ensures Acyclic(r + s) <==> Acyclic(r) && Acyclic(s)
  {
    forall a: Id ensures Reaches(r + s, a, a) <==> Reaches(r, a, a) || Reaches(s, a, a) {
      UnionSplits(r, s, a, a, left, right);
    }
  }

  ghost predicate InjectiveOn(f: map<Id, Id>) {
    forall a, b | a in f && b in f && f[a] == f[b] :: a == b
  }

  function Renamed(r: Arcs, f: map<Id, Id>): Arcs
    requires forall p | p in r :: p.0 in f && p.1 in f
  {
    set p | p in r :: (f[p.0], f[p.1])
  }

  lemma {:induction false} RenamedReachesIn(r: Arcs, f: map<Id, Id>, a: Id, b: Id, n: nat)
    requires Over(r, f.Keys) && InjectiveOn(f) && a in f && b in f
    ensures ReachesIn(Renamed(r, f), f[a], f[b], n) <==> ReachesIn(r, a, b, n)
    decreases n
  {
    var q := Renamed(r, f);
    if n == 1 {
      ArcRenamed(r, f, a, b);
    } else if n > 1 {
      if ReachesIn(r, a, b, n) {
        var m: Id :| (a, m) in r && ReachesIn(r, m, b, n - 1);
        ArcRenamed(r, f, a, m);
        RenamedReachesIn(r, f, m, b, n - 1);
      }
      if ReachesIn(q, f[a], f[b], n) {
        var k: Id :| (f[a], k) in q && ReachesIn(q, k, f[b], n - 1);
        var p :| p in r && (f[p.0], f[p.1]) == (f[a], k);
        assert p == (a, p.1);
        RenamedReachesIn(r, f, p.1, b, n - 1);
      }
    }
  }

  lemma ArcRenamed(r: Arcs, f: map<Id, Id>, a: Id, b: Id)
    requires Over(r, f.Keys) && InjectiveOn(f) && a in f && b in f
    ensures (f[a], f[b]) in Renamed(r, f) <==> (a, b) in r
  {
  }

  // Renaming the nodes one to one carries every path over, and no other.
  lemma RenamedReaches(r: Arcs, f: map<Id, Id>, a: Id, b: Id)
    requires Over(r, f.Keys) && InjectiveOn(f) && a in f && b in f
    ensures Reaches(Renamed(r, f), f[a], f[b]) <==> Reaches(r, a, b)
  {
    forall n: nat ensures ReachesIn(Renamed(r, f), f[a], f[b], n) <==> ReachesIn(r, a, b, n) {
      RenamedReachesIn(r, f, a, b, n);
    }
  }

  lemma RenamedAcyclic(r: Arcs, f: map<Id, Id>)
    requires Over(r, f.Keys) && InjectiveOn(f)
    ensures Acyclic(Renamed(r, f)) <==> Acyclic(r)
  {
    if Acyclic(Renamed(r, f)) {
      forall a: Id ensures !Reaches(r, a, a) {
        if Reaches(r, a, a) {
          ReachesEnds(r, a, a);
          RenamedReaches(r, f, a, a);
        }
      }
    }
    if Acyclic(r) {
      forall x: Id ensures !Reaches(Renamed(r, f), x, x) {
        if Reaches(Renamed(r, f), x, x) {
          ReachesEnds(Renamed(r, f), x, x);
          var m: Id :| (x, m) in Renamed(r, f);
          var p :| p in r && (f[p.0], f[p.1]) == (x, m);
          assert (p.0, p.1) in r;
          RenamedReaches(r, f, p.0, p.0);
        }
      }
    }
  }
}
