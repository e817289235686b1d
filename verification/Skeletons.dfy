// Node lists that agree in ids, kinds, frames and action types, one for one: what
// moving or relabelling nodes leaves alone.
module Skeletons {
  import opened Reachability
  import opened WorkflowGraph
  import opened GroupRules

  function Skeleton(n: Node): (Id, Kind, Option<Id>, Option<string>) {
    (n.id, n.kind, n.parentId, ActionTypeOf(n))
  }

  ghost predicate SameSkeletons(a: seq<Node>, b: seq<Node>) {
    |a| == |b| && forall i | 0 <= i < |a| :: Skeleton(a[i]) == Skeleton(b[i])
  }

  lemma Twin(a: seq<Node>, b: seq<Node>, n: Node) returns (m: Node)
    requires SameSkeletons(a, b) && n in b
    ensures m in a && Skeleton(m) == Skeleton(n)
  {
    var i :| 0 <= i < |b| && b[i] == n;
    m := a[i];
  }

  lemma SkeletonIds(a: seq<Node>, b: seq<Node>)
    requires SameSkeletons(a, b) && UniqueNodeIds(a)
    ensures UniqueNodeIds(b) && NodeIds(b) == NodeIds(a)
  {
  }

  lemma SkeletonMembers(a: seq<Node>, b: seq<Node>)
    requires SameSkeletons(a, b) && MembersOk(a)
    ensures MembersOk(b)
  {
    forall n | n in b ensures MemberOk(b, n) {
      var m := Twin(a, b, n);
      assert MemberOk(a, m);
      if n.parentId.Some? {
        var f :| f in a && f.id == m.parentId.value && IsGroup(f);
        var f' := Twin(b, a, f);
      }
    }
  }

  lemma SkeletonEnds(g: Graph, b: seq<Node>)
    requires SameSkeletons(g.nodes, b) && NoEdgeTouchesFrame(g)
    ensures NoEdgeTouchesFrame(g.(nodes := b))
  {
    hide SameSkeletons;
    forall e, n | e in g.edges && n in b && (n.id == e.source || n.id == e.target) ensures !IsGroup(n) {
      var m := Twin(g.nodes, b, n);
    }
  }

  lemma {:induction false} SkeletonSteps(a: seq<Node>, b: seq<Node>, groupId: Id)
    requires SameSkeletons(a, b)
    ensures StepCount(a, groupId) == StepCount(b, groupId)
  {
    if a != [] {
      assert Skeleton(a[0]) == Skeleton(b[0]);
      forall i | 0 <= i < |a| - 1 ensures Skeleton(a[1..][i]) == Skeleton(b[1..][i]) {
        assert Skeleton(a[i + 1]) == Skeleton(b[i + 1]);
      }
      SkeletonSteps(a[1..], b[1..], groupId);
    }
  }

  lemma SkeletonWhole(a: seq<Node>, b: seq<Node>)
    requires SameSkeletons(a, b) && NoUndersizedGroup(a)
    ensures NoUndersizedGroup(b)
  {
    forall f | f in b && IsGroup(f) ensures StepCount(b, f.id) >= 2 {
      var f' := Twin(a, b, f);
      SkeletonSteps(a, b, f.id);
    }
  }
}
