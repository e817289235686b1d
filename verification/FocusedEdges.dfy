// Every edge of a focused Group is painted between two painted nodes. The stubs
// are told apart by a key and the edges by their exact port, so this rests on
// the key telling stored ports apart.
module FocusedEdges {
  import opened Reachability
  import opened Sequences
  import opened WorkflowGraph
  import opened CanvasInsertion
  import opened GroupBoundary
  import opened FocusedGroup

  // A stored id or handle is trimmed and not empty, so none looks painted.
  predicate StoredName(name: string) { name != "" && !(PAINTED_PREFIX <= name) }

  predicate StoredHandle(handle: Option<string>) { handle.Some? ==> StoredName(handle.value) }

  // The stored graph: ids once each, names as the graph schema has them, and
  // every edge between stored nodes.
  ghost predicate StoredOk(input: Input) {
    && UniqueCells(input.nodes)
    && (forall c | c in input.nodes :: StoredName(CellId(c)))
    && (forall l | l in input.edges :: Known(input, SourceOf(l)) && Known(input, TargetOf(l)))
    && (forall l | l in input.edges :: StoredHandle(l.line.edge.sourceHandle) && StoredHandle(l.line.edge.targetHandle))
  }

  ghost predicate Known(input: Input, id: Id) {
    exists c :: c in input.nodes && CellId(c) == id
  }

  // The ids of the painted nodes: the stubs and the members.
  ghost predicate Shown(input: Input, id: Id) {
    || (exists r :: r in Requests(input) && RequestId(r) == id)
    || (exists c :: c in Stored(input) && CellId(c) == id)
  }

  lemma RequestShown(input: Input, r: Request)
    requires r in IngressRequests(input) || r in ContinuationRequests(input) || r in EndRequests(input)
    ensures Shown(input, RequestId(r))
  {
    hide IngressRequests, ContinuationRequests, EndRequests, RequestId;
    assert r in Requests(input);
  }

  // The key stubs are told apart by tells the ingress ports apart.
  ghost predicate KeysApart(input: Input) {
    forall l, m | l in IngressLines(input) && m in IngressLines(input) ::
      UniqueKey(SourcePortOf(l)) == UniqueKey(SourcePortOf(m)) ==> SourcePortOf(l) == SourcePortOf(m)
  }

  // --- membership ---

  lemma {:induction false} CellsByIdKeys(cells: seq<CardCell>, id: Id)
    ensures id in CellsById(cells) <==> exists c :: c in cells && CellId(c) == id
  {
    if cells != [] {
      var front, last := cells[..|cells| - 1], cells[|cells| - 1];
      assert cells == front + [last];
      CellsByIdKeys(front, id);
    }
  }

  lemma {:induction false} CardsByIdKeys(cards: seq<Card>, id: Id)
    ensures id in CardsById(cards) <==> exists c :: c in cards && CardId(c) == id
  {
    if cards != [] {
      var front, last := cards[..|cards| - 1], cards[|cards| - 1];
      assert cards == front + [last];
      CardsByIdKeys(front, id);
    }
  }

  lemma ProjectedId(c: CardCell)
    ensures CardId(ProjectedOf(c)) == CellId(c)
  {
  }

  lemma MemberCard(input: Input, id: Id)
    ensures id in CardsById(MemberCards(input)) <==> id in MemberIds(input)
    ensures id in MemberIds(input) <==> exists c :: c in Stored(input) && CellId(c) == id
  {
    hide ProjectedOf, Stored;
    CardsByIdKeys(MemberCards(input), id);
    if c :| c in Stored(input) && CellId(c) == id {
      ProjectedId(c);
      MapHas(Stored(input), ProjectedOf, ProjectedOf(c));
    }
    if d :| d in MemberCards(input) && CardId(d) == id {
      MapHas(Stored(input), ProjectedOf, d);
      var c :| c in Stored(input) && ProjectedOf(c) == d;
      ProjectedId(c);
    }
  }

  // A step that exists, met by some member, is asked for one stub.
  lemma AskedSome(d: Direction, stepId: Id, p: Port, cards: seq<Card>, byId: map<Id, CardCell>)
    requires stepId in byId && cards != []
    ensures exists r :: r in Asked(d, stepId, p, cards, byId) && RequestId(r) == StubIdOf(d, p)
  {
    hide StubPosition, StubIdOf;
    var r := Request(d, byId[stepId], p, StubPosition(cards, d));
    assert r in Asked(d, stepId, p, cards, byId);
  }

  lemma CardsNonempty(lines: seq<LineCell>, members: map<Id, Card>, end: LineCell -> Id, l: LineCell)
    requires l in lines && end(l) in members
    ensures CardsAt(lines, members, end) != []
  {
    var f := (k: LineCell) => if end(k) in members then [members[end(k)]] else [];
    assert members[end(l)] in f(l);
    FlatMapHas(lines, f, l, members[end(l)]);
    assert CardsAt(lines, members, end) == FlatMap(lines, f);
  }

  // --- ingress ---

  function IngressPorts(input: Input): seq<Port> { DistinctPorts(Map(IngressLines(input), SourcePortOf)) }

  // A kept port of an ingress edge has its stub.
  lemma IngressStub(input: Input, l: LineCell)
    requires StoredOk(input) && l in IngressLines(input) && SourcePortOf(l) in IngressPorts(input)
    ensures Shown(input, PaintIngress(l.line).edge.source)
  {
    hide CellsById, CardsById, CardsAt, DistinctPorts, Asked, MemberCards, StubIdOf, RequestId, Shown;
    var p := SourcePortOf(l);
    var entering := Filter(IngressLines(input), FromPort(p));
    MemberCard(input, TargetOf(l));
    CardsNonempty(entering, CardsById(MemberCards(input)), TargetOf, l);
    CellsByIdKeys(input.nodes, p.nodeId);
    assert Known(input, SourceOf(l));
    AskedSome(Ingress, p.nodeId, p, CardsAt(entering, CardsById(MemberCards(input)), TargetOf), CellsById(input.nodes));
    var r :| r in IngressRequest(input)(p) && RequestId(r) == StubIdOf(Ingress, p);
    FlatMapHas(IngressPorts(input), IngressRequest(input), p, r);
    RequestShown(input, r);
  }

  // A port that was merged away has none.
  lemma MergedAway(input: Input, l: LineCell)
    requires UniqueCells(input.nodes) && l in IngressLines(input) && SourcePortOf(l) !in IngressPorts(input)
    ensures forall r | r in Requests(input) :: RequestId(r) != PaintIngress(l.line).edge.source
  {
    hide Asked, ContinuationRequests, EndRequests, DistinctPorts, StubIdOf;
    var p := SourcePortOf(l);
    ContinuationDistinct(input);
    EndDistinct(input);
    forall r | r in Requests(input) ensures RequestId(r) != StubIdOf(Ingress, p) {
      StubIdInjective(r.direction, r.port, Ingress, p);
      if r in IngressRequests(input) {
        var q := FlatMapIn(IngressPorts(input), IngressRequest(input), r);
        AskedOne(Ingress, q.nodeId, q,
          CardsAt(Filter(IngressLines(input), FromPort(q)), CardsById(MemberCards(input)), TargetOf),
                 CellsById(input.nodes));
      }
    }
  }

  // All ingress ports are kept exactly when their keys tell them apart.
  lemma PortsKeptIff(input: Input)
    ensures (forall l | l in IngressLines(input) :: SourcePortOf(l) in IngressPorts(input)) <==> KeysApart(input)
  {
    hide DistinctPorts;
    var ports := Map(IngressLines(input), SourcePortOf);
    DistinctPortsDistinct(ports);
    if KeysApart(input) {
      forall l | l in IngressLines(input) ensures SourcePortOf(l) in IngressPorts(input) {
        MapHas(IngressLines(input), SourcePortOf, SourcePortOf(l));
        var q := KeyKept(ports, SourcePortOf(l));
        MapHas(IngressLines(input), SourcePortOf, q);
      }
    }
    if forall l | l in IngressLines(input) :: SourcePortOf(l) in IngressPorts(input) {
      forall l, m | l in IngressLines(input) && m in IngressLines(input)
        && UniqueKey(SourcePortOf(l)) == UniqueKey(SourcePortOf(m))
        ensures SourcePortOf(l) == SourcePortOf(m)
      {
        DistinctByKey(IngressPorts(input), UniqueKey, SourcePortOf(l), SourcePortOf(m));
      }
    }
  }

  // --- continuations and ends ---

  lemma {:induction false} GroupOfLine(lines: seq<LineCell>, l: LineCell) returns (g: seq<LineCell>)
    requires l in lines
    ensures g in ByTarget(lines) && l in g && forall m | m in g :: m in lines && TargetPortOf(m) == TargetPortOf(l)
    decreases |lines|
  {
    var p := TargetPortOf(lines[0]);
    if TargetPortOf(l) == p { g := Filter(lines, SharesTarget(p)); }
    else { g := GroupOfLine(Filter(lines, OtherTarget(p)), l); }
  }

  lemma ContinuationStub(input: Input, l: LineCell)
    requires StoredOk(input) && l in ContinuationLines(input)
    ensures Shown(input, PaintContinuation(l.line).edge.target)
  {
    hide CellsById, CardsById, CardsAt, ByTarget, Asked, MemberCards, StubIdOf, RequestId, Shown;
    var g := GroupOfLine(ContinuationLines(input), l);
    assert g[0] in g;
    MemberCard(input, SourceOf(l));
    CardsNonempty(g, CardsById(MemberCards(input)), SourceOf, l);
    CellsByIdKeys(input.nodes, TargetOf(g[0]));
    assert Known(input, TargetOf(l));
    AskedSome(Continuation, TargetOf(g[0]), TargetPortOf(g[0]), CardsAt(g, CardsById(MemberCards(input)), SourceOf),
      CellsById(input.nodes));
    var r :| r in ContinuationRequest(input)(g) && RequestId(r) == StubIdOf(Continuation, TargetPortOf(g[0]));
    FlatMapHas(ByTarget(ContinuationLines(input)), ContinuationRequest(input), g, r);
    RequestShown(input, r);
  }

  lemma EndStub(input: Input, p: Port)
    requires p in EndPorts(input)
    ensures p.nodeId in MemberIds(input)
    ensures Shown(input, EndLine(p).edge.target)
  {
    hide CellsById, CardsById, EndPortsOf, Asked, MemberCards, StubIdOf, RequestId, Shown;
    var c := FlatMapIn(Stored(input), EndPortsOf(input), p);
    EndPortsOfOne(input, c);
    MemberCard(input, p.nodeId);
    CellsByIdKeys(Stored(input), p.nodeId);
    AskedSome(End, p.nodeId, p, [CardsById(MemberCards(input))[p.nodeId]], CellsById(Stored(input)));
    var r :| r in EndRequest(input)(p) && RequestId(r) == StubIdOf(End, p);
    FlatMapHas(EndPorts(input), EndRequest(input), p, r);
    RequestShown(input, r);
  }

  // --- every painted edge ---

  ghost predicate Joined(input: Input, l: Line) { Shown(input, l.edge.source) && Shown(input, l.edge.target) }

  lemma MemberShown(input: Input, id: Id)
    requires id in MemberIds(input)
    ensures Shown(input, id)
  {
  }

  lemma IngressJoined(input: Input, l: LineCell)
    requires StoredOk(input) && l in IngressLines(input)
    ensures Joined(input, PaintIngress(l.line)) <==> SourcePortOf(l) in IngressPorts(input)
  {
    hide IngressPorts, IngressRequests, ContinuationRequests, EndRequests, StubIdOf, Stored;
    MemberShown(input, l.line.edge.target);
    if SourcePortOf(l) in IngressPorts(input) {
      IngressStub(input, l);
    } else {
      MergedAway(input, l);
      NotStored(input, Ingress, SourcePortOf(l));
    }
  }

  lemma NotStored(input: Input, d: Direction, p: Port)
    requires StoredOk(input)
    ensures forall c | c in Stored(input) :: CellId(c) != StubIdOf(d, p)
  {
    assert PAINTED_PREFIX <= StubIdOf(d, p);
  }

  // Every painted edge joins two painted nodes exactly when no two ingress ports
  // share a key.
  lemma PaintedEdgesJoinedIff(input: Input)
    requires StoredOk(input)
    ensures (forall l | l in Lines(input) :: Joined(input, l)) <==> KeysApart(input)
  {
    hide Joined, Shown, KeysApart, IngressPorts, IngressRequests, ContinuationRequests, EndRequests, StoredOk;
    PortsKeptIff(input);
    forall l | l in IngressLines(input) ensures IngressPainted(l) in Lines(input) {
      MapHas(IngressLines(input), IngressPainted, IngressPainted(l));
    }
    forall l | l in IngressLines(input)
      ensures Joined(input, IngressPainted(l)) <==> SourcePortOf(l) in IngressPorts(input) {
      IngressJoined(input, l);
    }
    forall l | l in Lines(input)
      ensures Joined(input, l) || exists k :: k in IngressLines(input) && IngressPainted(k) == l {
      LineJoined(input, l);
    }
  }

  // With no separator inside ids the key gives the port back.
  lemma UniqueKeyInjective(p: Port, q: Port)
    requires NoNul(p.nodeId) && NoNul(q.nodeId) && StoredHandle(p.handle) && StoredHandle(q.handle)
    ensures UniqueKey(p) == UniqueKey(q) <==> p == q
  {
    if UniqueKey(p) == UniqueKey(q) { FirstPart(p.nodeId, HandleText(p.handle), q.nodeId, HandleText(q.handle)); }
  }

  // In a stored graph every painted edge joins two painted nodes.
  lemma PaintedEdgesJoined(input: Input)
    requires StoredOk(input) && forall c | c in input.nodes :: NoNul(CellId(c))
    ensures forall l | l in Lines(input) :: Joined(input, l)
  {
    hide UniqueKey, Lines, Joined, Crossing;
    forall l, m | l in IngressLines(input) && m in IngressLines(input)
      && UniqueKey(SourcePortOf(l)) == UniqueKey(SourcePortOf(m))
      ensures SourcePortOf(l) == SourcePortOf(m)
    {
      assert Known(input, SourceOf(l)) && Known(input, SourceOf(m));
      UniqueKeyInjective(SourcePortOf(l), SourcePortOf(m));
    }
    PaintedEdgesJoinedIff(input);
  }

  // The schema admits a separator inside an id, and then two outlets can merge:
  // the steps "a" and "a\0event:b", wired by the outlets "event:b\0event:c" and
  // "event:c", leave one of their two edges without its stub.
  predicate MergedOutlets(input: Input, frame: CardCell, member: CardCell, first: CardCell, second: CardCell,
                          l: LineCell, m: LineCell) {
    && input == Input([frame, member, first, second], [l, m], "g")
    && CellId(frame) == "g" && frame.card.node.parentId == None
    && CellId(member) == "m" && member.card.node.parentId == Some("g")
    && CellId(first) == "a" && first.card.node.parentId == None
    && CellId(second) == "a\0event:b" && second.card.node.parentId == None
    && l.line.edge == Edge("1", "a", "m", Some("event:b\0event:c"), None)
    && m.line.edge == Edge("2", "a\0event:b", "m", Some("event:c"), None)
  }

  lemma MergedStored(input: Input, frame: CardCell, member: CardCell, first: CardCell, second: CardCell, l: LineCell,
                     m: LineCell)
    requires MergedOutlets(input, frame, member, first, second, l, m)
    ensures StoredOk(input)
  {
    var nodes := input.nodes;
    assert nodes[0] == frame && nodes[1] == member && nodes[2] == first && nodes[3] == second;
    assert Known(input, "m") by { assert member in nodes; }
    assert Known(input, "a") by { assert first in nodes; }
    assert Known(input, "a\0event:b") by { assert second in nodes; }
    assert "a"[0] != ' ' && "a\0event:b"[0] != ' ' && "m"[0] != ' ' && "g"[0] != ' ' && "event:c"[0] != ' ';
    assert "event:b\0event:c"[0] != ' ' && PAINTED_PREFIX[0] == ' ';
  }

  lemma MergedEnter(input: Input, frame: CardCell, member: CardCell, first: CardCell, second: CardCell, l: LineCell,
                    m: LineCell)
    requires MergedOutlets(input, frame, member, first, second, l, m)
    ensures l in IngressLines(input) && m in IngressLines(input)
  {
    hide Filter;
    var nodes := input.nodes;
    assert forall c | c in nodes :: c == frame || c == member || c == first || c == second;
    assert member in nodes && member in Stored(input) && forall c | c in Stored(input) :: c == member;
    assert MemberIds(input) == {"m"} by { assert CellId(member) in MemberIds(input); }
    assert l in input.edges && m in input.edges;
  }

  lemma MergedKeys(input: Input, frame: CardCell, member: CardCell, first: CardCell, second: CardCell, l: LineCell,
                   m: LineCell)
    requires MergedOutlets(input, frame, member, first, second, l, m)
    ensures !KeysApart(input)
  {
    hide IngressLines, Filter;
    MergedEnter(input, frame, member, first, second, l, m);
    assert "a" + "\0" + "event:b\0event:c" == "a\0event:b" + "\0" + "event:c";
    assert UniqueKey(SourcePortOf(l)) == UniqueKey(SourcePortOf(m)) && SourcePortOf(l) != SourcePortOf(m);
  }

  lemma MergedOutletsUnjoined(input: Input, frame: CardCell, member: CardCell, first: CardCell, second: CardCell,
                              l: LineCell, m: LineCell)
    requires MergedOutlets(input, frame, member, first, second, l, m)
    ensures StoredOk(input) && !(forall k | k in Lines(input) :: Joined(input, k))
  {
    hide MergedOutlets, StoredOk, KeysApart, Joined, Lines;
    MergedStored(input, frame, member, first, second, l, m);
    MergedKeys(input, frame, member, first, second, l, m);
    PaintedEdgesJoinedIff(input);
  }

  lemma InteriorJoined(input: Input, k: LineCell)
    requires k in InteriorLines(input)
    ensures Joined(input, LineOf(k))
  {
    hide Stored, Requests, MemberIds;
    MemberShown(input, SourceOf(k));
    MemberShown(input, TargetOf(k));
  }

  lemma ContinuationJoined(input: Input, k: LineCell)
    requires StoredOk(input) && k in ContinuationLines(input)
    ensures Joined(input, ContinuationPainted(k))
  {
    hide Stored, Requests, ContinuationRequests, StubIdOf, MemberIds, Shown;
    MemberShown(input, SourceOf(k));
    ContinuationStub(input, k);
  }

  lemma EndJoined(input: Input, p: Port)
    requires p in EndPorts(input)
    ensures Joined(input, EndLine(p))
  {
    hide Stored, Requests, EndRequests, EndPorts, StubIdOf, MemberIds, Shown;
    EndStub(input, p);
    MemberShown(input, p.nodeId);
  }

  lemma LineJoined(input: Input, l: Line)
    requires StoredOk(input) && l in Lines(input)
    ensures Joined(input, l) || exists k :: k in IngressLines(input) && IngressPainted(k) == l
  {
    hide InteriorLines, IngressLines, ContinuationLines, EndPorts, Joined, StoredOk, IngressPainted,
      ContinuationPainted, EndLine, LineOf;
    if l in Map(InteriorLines(input), LineOf) {
      MapHas(InteriorLines(input), LineOf, l);
      var k :| k in InteriorLines(input) && LineOf(k) == l;
      InteriorJoined(input, k);
    } else if l in Map(IngressLines(input), IngressPainted) {
      MapHas(IngressLines(input), IngressPainted, l);
    } else if l in Map(ContinuationLines(input), ContinuationPainted) {
      MapHas(ContinuationLines(input), ContinuationPainted, l);
      var k :| k in ContinuationLines(input) && ContinuationPainted(k) == l;
      ContinuationJoined(input, k);
    } else {
      MapHas(EndPorts(input), EndLine, l);
      var p :| p in EndPorts(input) && EndLine(p) == l;
      EndJoined(input, p);
    }
  }
}
