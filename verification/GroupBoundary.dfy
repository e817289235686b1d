// A Group's boundary, read off membership and the stored edges: the member ports
// a connection onto its card enters, and those a connection from it leaves by.
module GroupBoundary {
  import opened Reachability
  import opened Sequences
  import opened WorkflowGraph
  import opened CanvasInsertion

  // --- ports told apart by a key ---

  // A null handle and an empty one share a key here, and the first port stays.
  function UniqueKey(p: Port): string { JoinNul(p.nodeId, HandleText(p.handle)) }

  function NotUniqueKey(key: string): Port -> bool { (p: Port) => UniqueKey(p) != key }

  function DistinctPorts(ports: seq<Port>): seq<Port>
    decreases |ports|
  {
    if ports == [] then [] else [ports[0]] + DistinctPorts(Filter(ports[1..], NotUniqueKey(UniqueKey(ports[0]))))
  }

  lemma {:induction false} DistinctPortsDistinct(ports: seq<Port>)
    ensures DistinctBy(DistinctPorts(ports), UniqueKey)
    ensures forall p | p in DistinctPorts(ports) :: p in ports
    decreases |ports|
  {
    if ports != [] {
      var rest := Filter(ports[1..], NotUniqueKey(UniqueKey(ports[0])));
      DistinctPortsDistinct(rest);
      DistinctByConcat([ports[0]], DistinctPorts(rest), UniqueKey);
    }
  }

  lemma {:induction false} KeyKept(ports: seq<Port>, p: Port) returns (q: Port)
    requires p in ports
    ensures q in DistinctPorts(ports) && UniqueKey(q) == UniqueKey(p)
    decreases |ports|
  {
    if UniqueKey(p) == UniqueKey(ports[0]) { q := ports[0]; }
    else { q := KeyKept(Filter(ports[1..], NotUniqueKey(UniqueKey(ports[0]))), p); }
  }

  // --- the boundary ---

  predicate IsCondition(n: Node) { ActionTypeOf(n) == Some(CONDITION) }

  function IsMemberOf(groupId: Id): Node -> bool { (n: Node) => n.parentId == Some(groupId) }

  function MemberIdsOf(nodes: seq<Node>, groupId: Id): seq<Id> { Map(Filter(nodes, IsMemberOf(groupId)), NodeId) }

  function Crosses(members: seq<Id>, sourceInside: bool, targetInside: bool): Edge -> bool {
    (e: Edge) => (e.source in members) == sourceInside && (e.target in members) == targetInside
  }

  function InteriorEdges(nodes: seq<Node>, edges: seq<Edge>, groupId: Id): seq<Edge> {
    Filter(edges, Crosses(MemberIdsOf(nodes, groupId), true, true))
  }

  function IngressEdges(nodes: seq<Node>, edges: seq<Edge>, groupId: Id): seq<Edge> {
    Filter(edges, Crosses(MemberIdsOf(nodes, groupId), false, true))
  }

  function ContinuationEdges(nodes: seq<Node>, edges: seq<Edge>, groupId: Id): seq<Edge> {
    Filter(edges, Crosses(MemberIdsOf(nodes, groupId), true, false))
  }

  // --- where a connection onto the card arrives ---

  function PortIds(ports: seq<Port>): set<Id> { set p | p in ports :: p.nodeId }

  function InIds(ids: set<Id>): Id -> bool { (id: Id) => id in ids }

  function NotInIds(ids: set<Id>): Id -> bool { (id: Id) => id !in ids }

  // The members stored edges enter, or with none those no member leads to.
  function EntryIds(nodes: seq<Node>, edges: seq<Edge>, groupId: Id): seq<Id> {
    var members := MemberIdsOf(nodes, groupId);
    var entered := PortIds(DistinctPorts(Map(IngressEdges(nodes, edges, groupId), TargetPort)));
    if entered != {} then Filter(members, InIds(entered))
    else Filter(members, NotInIds(Heads(InteriorEdges(nodes, edges, groupId))))
  }

  lemma EntriesAreMembers(nodes: seq<Node>, edges: seq<Edge>, groupId: Id)
    ensures forall id | id in EntryIds(nodes, edges, groupId) :: id in MemberIdsOf(nodes, groupId)
  {
  }

  lemma MembersAre(nodes: seq<Node>, groupId: Id)
    ensures forall id ::
              id in MemberIdsOf(nodes, groupId) <==> exists n :: n in nodes && n.id == id && n.parentId == Some(groupId)
  {
    var members := Filter(nodes, IsMemberOf(groupId));
    forall id ensures id in MemberIdsOf(nodes, groupId) <==> exists n :: n in members && NodeId(n) == id {
      MapHas(members, NodeId, id);
    }
  }

  // In an acyclic graph some member of any set of nodes has none of them before it.
  lemma {:induction false} FirstAmong(r: Arcs, ids: seq<Id>, v: Id) returns (w: Id)
    requires Acyclic(r) && v in ids
    ensures w in ids && forall u: Id | u in ids :: (u, w) !in r
    decreases Ancestors(r, v)
  {
    if u: Id :| u in ids && (u, v) in r {
      AncestorsShrink(r, u, v);
      w := FirstAmong(r, ids, u);
    } else {
      w := v;
    }
  }

  // A Group with a step in it is entered somewhere.
  lemma GroupHasEntry(nodes: seq<Node>, edges: seq<Edge>, groupId: Id)
    requires Acyclic(ArcsOf(edges)) && MemberIdsOf(nodes, groupId) != []
    ensures EntryIds(nodes, edges, groupId) != []
  {
    var members := MemberIdsOf(nodes, groupId);
    var ports := Map(IngressEdges(nodes, edges, groupId), TargetPort);
    var entered := PortIds(DistinctPorts(ports));
    DistinctPortsDistinct(ports);
    if p :| p in DistinctPorts(ports) {
      assert p.nodeId in entered && p in ports;
      MapHas(IngressEdges(nodes, edges, groupId), TargetPort, p);
      assert p.nodeId in Filter(members, InIds(entered));
    } else {
      assert entered == {};
      var w := FirstAmong(ArcsOf(edges), members, members[0]);
      forall e | e in InteriorEdges(nodes, edges, groupId) ensures e.target != w {
        assert ArcOf(e) in ArcsOf(edges);
      }
      assert w in Filter(members, NotInIds(Heads(InteriorEdges(nodes, edges, groupId))));
    }
  }

  // Once stored edges enter a Group, its entries are exactly the members they
  // enter; before that, the members no member leads to.
  lemma EntriesExact(nodes: seq<Node>, edges: seq<Edge>, groupId: Id, id: Id)
    requires forall m | m in MemberIdsOf(nodes, groupId) :: NoNul(m)
    ensures var ingress := IngressEdges(nodes, edges, groupId);
            id in EntryIds(nodes, edges, groupId)
            <==> (id in MemberIdsOf(nodes, groupId)
                  && if ingress != [] then id in Heads(ingress) else id !in Heads(InteriorEdges(nodes, edges, groupId)))
  {
    hide UniqueKey;
    var ingress := IngressEdges(nodes, edges, groupId);
    var ports := Map(ingress, TargetPort);
    var entered := PortIds(DistinctPorts(ports));
    forall e | e in ingress ensures e.target in entered {
      MapHas(ingress, TargetPort, TargetPort(e));
      var q := KeyKept(ports, TargetPort(e));
      DistinctPortsDistinct(ports);
      MapHas(ingress, TargetPort, q);
      SameKeyNode(TargetPort(e), q);
    }
    forall p | p in DistinctPorts(ports) ensures p.nodeId in Heads(ingress) {
      DistinctPortsDistinct(ports);
      MapHas(ingress, TargetPort, p);
    }
    if ingress != [] { assert ingress[0].target in entered; }
  }

  lemma SameKeyNode(p: Port, q: Port)
    requires NoNul(p.nodeId) && NoNul(q.nodeId) && UniqueKey(p) == UniqueKey(q)
    ensures p.nodeId == q.nodeId && HandleText(p.handle) == HandleText(q.handle)
  {
    FirstPart(p.nodeId, HandleText(p.handle), q.nodeId, HandleText(q.handle));
  }

  // --- where a connection from the card leaves ---

  // A step no edge leaves. Unused Condition outlets stay unwired.
  function EndsIn(leaving: seq<Edge>): Node -> bool {
    (n: Node) => !IsCondition(n) && n.id !in Tails(leaving)
  }

  function UnnamedPort(n: Node): Port { Port(n.id, None) }

  // The ports stored edges leave by, or with none those of the last steps.
  function OutletPorts(nodes: seq<Node>, edges: seq<Edge>, groupId: Id): seq<Port> {
    var continuation := DistinctPorts(Map(ContinuationEdges(nodes, edges, groupId), SourcePort));
    if continuation != [] then continuation
    else
      var leaving := InteriorEdges(nodes, edges, groupId) + ContinuationEdges(nodes, edges, groupId);
      Map(Filter(Filter(nodes, IsMemberOf(groupId)), EndsIn(leaving)), UnnamedPort)
  }

  lemma OutletsAreMembers(nodes: seq<Node>, edges: seq<Edge>, groupId: Id, p: Port)
    requires p in OutletPorts(nodes, edges, groupId)
    ensures p.nodeId in MemberIdsOf(nodes, groupId)
  {
    var ports := Map(ContinuationEdges(nodes, edges, groupId), SourcePort);
    DistinctPortsDistinct(ports);
    if DistinctPorts(ports) != [] {
      MapHas(ContinuationEdges(nodes, edges, groupId), SourcePort, p);
    } else {
      var leaving := InteriorEdges(nodes, edges, groupId) + ContinuationEdges(nodes, edges, groupId);
      MapHas(Filter(Filter(nodes, IsMemberOf(groupId)), EndsIn(leaving)), UnnamedPort, p);
      MembersAre(nodes, groupId);
    }
  }

  // --- no entry and no outlet twice ---

  function Itself<T>(x: T): T { x }

  lemma EntriesDistinct(nodes: seq<Node>, edges: seq<Edge>, groupId: Id)
    requires UniqueNodeIds(nodes)
    ensures Distinct(EntryIds(nodes, edges, groupId))
  {
    var members := MemberIdsOf(nodes, groupId);
    FilterDistinctBy(nodes, IsMemberOf(groupId), NodeId);
    assert DistinctBy(members, Itself) by {
      forall i, j | 0 <= i < j < |members| ensures members[i] != members[j] {
        assert NodeId(Filter(nodes, IsMemberOf(groupId))[i]) != NodeId(Filter(nodes, IsMemberOf(groupId))[j]);
      }
    }
    var entered := PortIds(DistinctPorts(Map(IngressEdges(nodes, edges, groupId), TargetPort)));
    var keep := if entered != {} then InIds(entered) else NotInIds(Heads(InteriorEdges(nodes, edges, groupId)));
    FilterDistinctBy(members, keep, Itself);
    var entries := EntryIds(nodes, edges, groupId);
    forall i, j | 0 <= i < j < |entries| ensures entries[i] != entries[j] {
      assert Itself(entries[i]) != Itself(entries[j]);
    }
  }

  lemma OutletsDistinct(nodes: seq<Node>, edges: seq<Edge>, groupId: Id)
    requires UniqueNodeIds(nodes)
    ensures Distinct(OutletPorts(nodes, edges, groupId))
  {
    var outlets := OutletPorts(nodes, edges, groupId);
    var ports := Map(ContinuationEdges(nodes, edges, groupId), SourcePort);
    var members := Filter(nodes, IsMemberOf(groupId));
    var leaving := InteriorEdges(nodes, edges, groupId) + ContinuationEdges(nodes, edges, groupId);
    DistinctPortsDistinct(ports);
    FilterDistinctBy(nodes, IsMemberOf(groupId), NodeId);
    FilterDistinctBy(members, EndsIn(leaving), NodeId);
    forall i, j | 0 <= i < j < |outlets| ensures outlets[i] != outlets[j] {
      if DistinctPorts(ports) != [] {
        assert UniqueKey(outlets[i]) != UniqueKey(outlets[j]);
      } else {
        assert NodeId(Filter(members, EndsIn(leaving))[i]) != NodeId(Filter(members, EndsIn(leaving))[j]);
      }
    }
  }

  // --- exactly which outlets ---

  // The unnamed outlet of a member that is no Condition and that no edge leaves.
  ghost predicate IsLastPort(nodes: seq<Node>, edges: seq<Edge>, groupId: Id, p: Port) {
    p.handle == None && exists n :: IsLastStep(nodes, edges, groupId, n) && n.id == p.nodeId
  }

  ghost predicate IsLastStep(nodes: seq<Node>, edges: seq<Edge>, groupId: Id, n: Node) {
    n in nodes && n.parentId == Some(groupId) && !IsCondition(n) && forall e | e in edges :: e.source != n.id
  }

  // A Group edges leave keeps the ports they leave by. Otherwise it is left from
  // its last steps, Conditions aside.
  lemma OutletsExact(nodes: seq<Node>, edges: seq<Edge>, groupId: Id, p: Port)
    requires forall m | m in MemberIdsOf(nodes, groupId) :: NoNul(m)
    requires p.handle != Some("") && forall e | e in edges :: e.sourceHandle != Some("")
    ensures var continuation := ContinuationEdges(nodes, edges, groupId);
            p in OutletPorts(nodes, edges, groupId)
            <==> if continuation != [] then exists e :: e in continuation && SourcePort(e) == p
                 else IsLastPort(nodes, edges, groupId, p)
  {
    hide UniqueKey;
    var continuation := ContinuationEdges(nodes, edges, groupId);
    var ports := Map(continuation, SourcePort);
    DistinctPortsDistinct(ports);
    MapHas(continuation, SourcePort, p);
    if continuation != [] {
      var first := SourcePort(continuation[0]);
      assert first in ports;
      var kept := KeyKept(ports, first);
      if p in ports {
        var q := KeyKept(ports, p);
        MapHas(continuation, SourcePort, q);
        SameKeyNode(p, q);
        assert p == q;
      }
    } else {
      assert ports == [];
      LastSteps(nodes, edges, groupId, p);
    }
  }

  lemma LastSteps(nodes: seq<Node>, edges: seq<Edge>, groupId: Id, p: Port)
    requires ContinuationEdges(nodes, edges, groupId) == []
    ensures p in OutletPorts(nodes, edges, groupId)
       <==> IsLastPort(nodes, edges, groupId, p)
  {
    var interior := InteriorEdges(nodes, edges, groupId);
    assert ContinuationEdges(nodes, edges, groupId) == [] && interior + [] == interior;
    var members := Filter(nodes, IsMemberOf(groupId));
    MapHas(Filter(members, EndsIn(interior)), UnnamedPort, p);
    forall n | n in members ensures EndsIn(interior)(n) <==> IsLastStep(nodes, edges, groupId, n) {
      MemberListed(nodes, groupId, n);
      forall e | e in edges && e.source == n.id ensures e in interior {
        assert Crosses(MemberIdsOf(nodes, groupId), true, false)(e) ==> e in ContinuationEdges(nodes, edges, groupId);
      }
    }
  }

  lemma MemberListed(nodes: seq<Node>, groupId: Id, n: Node)
    requires n in Filter(nodes, IsMemberOf(groupId))
    ensures n.id in MemberIdsOf(nodes, groupId)
  {
    MembersAre(nodes, groupId);
  }
}
