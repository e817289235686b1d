// What a focused Group shows, computed from scratch: its members, the stubs on
// its boundary, the edges between them and where those edges bend.
module FocusedGroup {
  import opened Reachability
  import opened Sequences
  import opened WorkflowGraph
  import opened CanvasInsertion
  import opened GroupBoundary
  import opened StubPlacement

  const CARD_HEIGHT := 112.0
  const RANK_SPACING := 68.0
  const END_LABEL := "Path ends"
  const PAINTED_PREFIX := " group-"
  const CONDITION_BRANCHES := ["true", "false"]

  datatype Direction = Ingress | Continuation | End

  datatype StubPort = StubPort(direction: Direction, port: Port)

  datatype Size = Size(width: real, height: real)

  datatype Card = Card(node: Node, width: Option<real>, height: Option<real>, measured: Option<Size>,
                       stub: Option<StubPort>)

  datatype Line = Line(edge: Edge, displayLabel: Option<string>, centerY: Option<real>)

  // Card and line objects are never written, so the canvas may compare them by
  // identity and the caches may be keyed by them.
  class CardCell {
    const card: Card

    constructor (c: Card)
      ensures card == c
    {
      card := c;
    }
  }

  class LineCell {
    const line: Line

    constructor (l: Line)
      ensures line == l
    {
      line := l;
    }
  }

  datatype Input = Input(nodes: seq<CardCell>, edges: seq<LineCell>, groupId: Id)

  function CardId(c: Card): Id { c.node.id }

  function CellId(c: CardCell): Id { c.card.node.id }

  function CardOf(c: CardCell): Card { c.card }

  function LineOf(l: LineCell): Line { l.line }

  function EdgeOfLine(l: Line): Edge { l.edge }

  // --- members and crossings ---

  function MemberOf(groupId: Id): CardCell -> bool {
    (c: CardCell) => c.card.node.parentId == Some(groupId)
  }

  function Stored(input: Input): seq<CardCell> { Filter(input.nodes, MemberOf(input.groupId)) }

  function MemberIds(input: Input): set<Id> {
    set c | c in Stored(input) :: c.card.node.id
  }

  // Removing the frame changes no coordinate: member positions are local.
  function Projected(c: Card): Card {
    c.(node := c.node.(parentId := None),
       width := Some(if c.width.Some? then c.width.value else WIDTH),
       height := Some(if c.height.Some? then c.height.value else CARD_HEIGHT),
       measured := Some(if c.measured.Some? then c.measured.value else Size(WIDTH, CARD_HEIGHT)))
  }

  function ProjectedOf(c: CardCell): Card { Projected(c.card) }

  function MemberCards(input: Input): seq<Card> { Map(Stored(input), ProjectedOf) }

  function Crossing(inside: set<Id>, sourceInside: bool, targetInside: bool): LineCell -> bool {
    (l: LineCell) => (l.line.edge.source in inside) == sourceInside && (l.line.edge.target in inside) == targetInside
  }

  function InteriorLines(input: Input): seq<LineCell> { Filter(input.edges, Crossing(MemberIds(input), true, true)) }

  function IngressLines(input: Input): seq<LineCell> { Filter(input.edges, Crossing(MemberIds(input), false, true)) }

  function ContinuationLines(input: Input): seq<LineCell> {
    Filter(input.edges, Crossing(MemberIds(input), true, false))
  }

  // `new Map`: the last card of an id wins.
  function CardsById(cards: seq<Card>): map<Id, Card> {
    if cards == [] then map[] else CardsById(cards[..|cards| - 1])[CardId(cards[|cards| - 1]) := cards[|cards| - 1]]
  }

  function CellsById(cells: seq<CardCell>): map<Id, CardCell> {
    if cells == [] then map[] else CellsById(cells[..|cells| - 1])[CellId(cells[|cells| - 1]) := cells[|cells| - 1]]
  }

  // --- ports ---

  function SourcePortOf(l: LineCell): Port { SourcePort(l.line.edge) }

  function TargetPortOf(l: LineCell): Port { TargetPort(l.line.edge) }

  function SharesTarget(p: Port): LineCell -> bool { (l: LineCell) => TargetPortOf(l) == p }

  function OtherTarget(p: Port): LineCell -> bool { (l: LineCell) => TargetPortOf(l) != p }

  // The lines into one port together, ports in order of first sight.
  function ByTarget(lines: seq<LineCell>): seq<seq<LineCell>>
    decreases |lines|
  {
    if lines == [] then []
    else [Filter(lines, SharesTarget(TargetPortOf(lines[0])))] + ByTarget(Filter(lines,
      OtherTarget(TargetPortOf(lines[0]))))
  }

  function LeavesFrom(id: Id): LineCell -> bool { (l: LineCell) => l.line.edge.source == id }

  function Unconnected(leaving: seq<LineCell>): string -> bool {
    (branch: string) => forall l | l in leaving :: l.line.edge.sourceHandle != Some(branch)
  }

  // A member no stored edge leaves, or a Condition outlet no edge leaves by.
  function EndPortsOf(input: Input): CardCell -> seq<Port> {
    (c: CardCell) =>
      var leaving := Filter(InteriorLines(input) + ContinuationLines(input), LeavesFrom(CellId(c)));
      if CellId(c) in CellsById(input.nodes) && IsCondition(CellsById(input.nodes)[CellId(c)].card.node)
      then Map(Filter(CONDITION_BRANCHES, Unconnected(leaving)), (branch: string) => Port(CellId(c), Some(branch)))
      else if leaving == [] then [Port(CellId(c), None)]
      else []
  }

  function EndPorts(input: Input): seq<Port> { FlatMap(Stored(input), EndPortsOf(input)) }

  // --- stubs ---

  function DirectionName(d: Direction): string {
    match d
    case Ingress => "ingress"
    case Continuation => "continuation"
    case End => "end"
  }

  function StubIdOf(d: Direction, p: Port): Id { PAINTED_PREFIX + DirectionName(d) + ":" + GroupPortKey(p) }

  // A painted id names one direction and one port.
  lemma StubIdInjective(d: Direction, p: Port, e: Direction, q: Port)
    ensures StubIdOf(d, p) == StubIdOf(e, q) <==> d == e && p == q
  {
    if StubIdOf(d, p) == StubIdOf(e, q) {
      var n := |PAINTED_PREFIX|;
      assert StubIdOf(d, p)[n] == DirectionName(d)[0] && StubIdOf(e, q)[n] == DirectionName(e)[0];
      var m := n + |DirectionName(d)| + 1;
      assert StubIdOf(d, p)[m..] == GroupPortKey(p) && StubIdOf(e, q)[m..] == GroupPortKey(q);
      PortKeyInjective(p, q);
    }
  }

  function WidthOf(c: Card): real {
    if c.measured.Some? then c.measured.value.width else if c.width.Some? then c.width.value else WIDTH
  }

  function HeightOf(c: Card): real {
    if c.measured.Some? then c.measured.value.height else if c.height.Some? then c.height.value else CARD_HEIGHT
  }

  function Least(s: seq<real>): real
    requires s != []
  {
    if |s| == 1 then s[0] else if s[0] <= Least(s[1..]) then s[0] else Least(s[1..])
  }

  function Greatest(s: seq<real>): real
    requires s != []
  {
    if |s| == 1 then s[0] else Max(s[0], Greatest(s[1..]))
  }

  // Centred on the cards it meets, one rank above or below them.
  function StubPosition(cards: seq<Card>, d: Direction): Position
    requires cards != []
  {
    var left := Least(Map(cards, (c: Card) => c.node.position.x));
    var right := Greatest(Map(cards, (c: Card) => c.node.position.x + WidthOf(c)));
    Position((left + right - WIDTH) / 2.0,
             if d.Ingress? then Least(Map(cards, (c: Card) => c.node.position.y)) - RANK_SPACING - STUB_HEIGHT
             else Greatest(Map(cards, (c: Card) => c.node.position.y + HeightOf(c))) + RANK_SPACING)
  }

  // What a stub is asked for. An end stub reads nothing of `step` but its kind.
  datatype Request = Request(direction: Direction, step: CardCell, port: Port, position: Position)

  function RequestId(r: Request): Id { StubIdOf(r.direction, r.port) }

  function StubCard(d: Direction, step: Card, p: Port, position: Position): Card {
    Card(Node(StubIdOf(d, p), step.node.kind, None, position,
              if d.End? then NodeData(END_LABEL, None, None, map[])
              else NodeData(step.node.data.labelText, None, None, step.node.data.config)),
         Some(WIDTH), Some(STUB_HEIGHT), Some(Size(WIDTH, STUB_HEIGHT)), Some(StubPort(d, p)))
  }

  function RequestCard(r: Request): Card { StubCard(r.direction, r.step.card, r.port, r.position) }

  // The member cards at one end of some lines.
  function CardsAt(lines: seq<LineCell>, members: map<Id, Card>, end: LineCell -> Id): seq<Card> {
    FlatMap(lines, (l: LineCell) => if end(l) in members then [members[end(l)]] else [])
  }

  function SourceOf(l: LineCell): Id { l.line.edge.source }

  function TargetOf(l: LineCell): Id { l.line.edge.target }

  function Asked(d: Direction, stepId: Id, p: Port, cards: seq<Card>, byId: map<Id, CardCell>): seq<Request> {
    if stepId in byId && cards != [] then [Request(d, byId[stepId], p, StubPosition(cards, d))] else []
  }

  function FromPort(p: Port): LineCell -> bool { (l: LineCell) => SourcePortOf(l) == p }

  function IngressRequest(input: Input): Port -> seq<Request> {
    (p: Port) => Asked(Ingress, p.nodeId, p,
                       CardsAt(Filter(IngressLines(input), FromPort(p)), CardsById(MemberCards(input)), TargetOf),
                       CellsById(input.nodes))
  }

  function IngressRequests(input: Input): seq<Request> {
    FlatMap(DistinctPorts(Map(IngressLines(input), SourcePortOf)), IngressRequest(input))
  }

  function ContinuationRequest(input: Input): seq<LineCell> -> seq<Request> {
    (lines: seq<LineCell>) =>
      if lines == [] then []
      else Asked(Continuation, TargetOf(lines[0]), TargetPortOf(lines[0]),
                 CardsAt(lines, CardsById(MemberCards(input)), SourceOf), CellsById(input.nodes))
  }

  function ContinuationRequests(input: Input): seq<Request> {
    FlatMap(ByTarget(ContinuationLines(input)), ContinuationRequest(input))
  }

  function EndRequest(input: Input): Port -> seq<Request> {
    (p: Port) =>
      if p.nodeId in CardsById(MemberCards(input)) then
        Asked(End, p.nodeId, p, [CardsById(MemberCards(input))[p.nodeId]], CellsById(Stored(input)))
      else []
  }

  function EndRequests(input: Input): seq<Request> { FlatMap(EndPorts(input), EndRequest(input)) }

  function Requests(input: Input): seq<Request> {
    IngressRequests(input) + ContinuationRequests(input) + EndRequests(input)
  }

  // --- lines ---

  // Boundary edges keep their stored ids, so selecting and deleting stay exact.
  function PaintIngress(l: Line): Line {
    Line(l.edge.(source := StubIdOf(Ingress, SourcePort(l.edge)), sourceHandle := None),
         if l.edge.sourceHandle == Some("true") then Some("True")
         else if l.edge.sourceHandle == Some("false") then Some("False")
         else l.displayLabel,
         l.centerY)
  }

  function PaintContinuation(l: Line): Line {
    l.(edge := l.edge.(target := StubIdOf(Continuation, TargetPort(l.edge)), targetHandle := None))
  }

  function EndLineId(p: Port): Id { PAINTED_PREFIX + "end-edge:" + GroupPortKey(p) }

  function EndLine(p: Port): Line {
    Line(Edge(EndLineId(p), p.nodeId, StubIdOf(End, p), p.handle, None), None, None)
  }

  lemma EndLineIdInjective(p: Port, q: Port)
    ensures EndLineId(p) == EndLineId(q) <==> p == q
  {
    if EndLineId(p) == EndLineId(q) {
      var m := |PAINTED_PREFIX + "end-edge:"|;
      assert EndLineId(p)[m..] == GroupPortKey(p) && EndLineId(q)[m..] == GroupPortKey(q);
      PortKeyInjective(p, q);
    }
  }

  function IngressPainted(l: LineCell): Line { PaintIngress(l.line) }

  function ContinuationPainted(l: LineCell): Line { PaintContinuation(l.line) }

  function Lines(input: Input): seq<Line> {
    Map(InteriorLines(input), LineOf) + Map(IngressLines(input), IngressPainted)
    + Map(ContinuationLines(input), ContinuationPainted) + Map(EndPorts(input), EndLine)
  }

  // --- separation ---

  function ToStub(c: Card): Stub { Stub(c.node.id, c.node.position.x, c.node.position.y) }

  function ToMember(c: Card): Member { Member(c.node.position.x, c.node.position.y, WidthOf(c), HeightOf(c)) }

  function MoveCard(c: Card, x: real): Card { c.(node := c.node.(position := Position(x, c.node.position.y))) }

  // Where the separation pass puts a card that stands for one of `stubs`.
  function ShiftBy(stubs: seq<Stub>, edges: seq<Edge>, members: seq<Member>): Card -> Card {
    var positions := Positions(PlacedStubs(stubs, edges, Map(members, Inflate)));
    (c: Card) => MoveCard(c, MoveTo(positions)(ToStub(c)).x)
  }

  function Shifter(input: Input): Card -> Card {
    ShiftBy(Map(Map(Requests(input), RequestCard), ToStub), Map(Lines(input), EdgeOfLine),
      Map(MemberCards(input), ToMember))
  }

  function Unmoved(shift: Card -> Card): Card -> bool { (c: Card) => shift(c) == c }

  function StubCards(input: Input): seq<Card> { Map(Map(Requests(input), RequestCard), Shifter(input)) }

  // Ingress stubs, then the members, then the other stubs.
  function Assembled<T>(stubs: seq<T>, members: seq<T>, n: nat): seq<T>
    requires n <= |stubs|
  {
    stubs[..n] + members + stubs[n..]
  }

  function PaintedCards(input: Input): seq<Card> {
    Assembled(StubCards(input), MemberCards(input), |IngressRequests(input)|)
  }

  // --- bends ---

  function Bottom(c: Card): real { c.node.position.y + HeightOf(c) }

  // An edge going down, with nothing between its row and the next.
  predicate Forward(l: Line, byId: map<Id, Card>) {
    l.edge.source in byId && l.edge.target in byId && Bottom(byId[l.edge.source]) < byId[l.edge.target].node.position.y
  }

  function EnteredY(l: Line, byId: map<Id, Card>): real
    requires Forward(l, byId)
  {
    byId[l.edge.target].node.position.y
  }

  // Per row entered, the lowest bottom an edge enters it from.
  function RowBottoms(lines: seq<Line>, byId: map<Id, Card>): map<real, real> {
    if lines == [] then map[]
    else
      var before, l := RowBottoms(lines[..|lines| - 1], byId), lines[|lines| - 1];
      if !Forward(l, byId) then before
      else
        var bottom := Bottom(byId[l.edge.source]);
        before[EnteredY(l, byId) :=
          Max(if EnteredY(l, byId) in before then before[EnteredY(l, byId)] else bottom, bottom)]
  }

  predicate Straight(l: Line, byId: map<Id, Card>, rowBottoms: map<real, real>) {
    !(Forward(l, byId) && EnteredY(l, byId) in rowBottoms)
  }

  function Bend(l: Line, byId: map<Id, Card>, rowBottoms: map<real, real>): Line {
    if !Straight(l, byId, rowBottoms)
    then l.(centerY := Some((rowBottoms[EnteredY(l, byId)] + EnteredY(l, byId)) / 2.0))
    else l
  }

  function Bender(cards: seq<Card>, lines: seq<Line>): Line -> Line {
    var byId := CardsById(cards);
    var rowBottoms := RowBottoms(lines, byId);
    (l: Line) => Bend(l, byId, rowBottoms)
  }

  // The lines that pass through as they are.
  function Straights(cards: seq<Card>, lines: seq<Line>): Line -> bool {
    var byId := CardsById(cards);
    var rowBottoms := RowBottoms(lines, byId);
    (l: Line) => Straight(l, byId, rowBottoms)
  }

  function PaintedLines(input: Input): seq<Line> {
    Map(Lines(input), Bender(PaintedCards(input), Lines(input)))
  }

  lemma {:induction false} RowBottomIsLowest(lines: seq<Line>, byId: map<Id, Card>, l: Line)
    requires l in lines && Forward(l, byId)
    ensures var y := EnteredY(l, byId);
            y in RowBottoms(lines, byId) && Bottom(byId[l.edge.source]) <= RowBottoms(lines, byId)[y] < y
    decreases |lines|
  {
    var front, last := lines[..|lines| - 1], lines[|lines| - 1];
    assert lines == front + [last];
    RowBottomsBelow(front, byId);
    if l in front { RowBottomIsLowest(front, byId, l); }
  }

  lemma {:induction false} RowBottomsBelow(lines: seq<Line>, byId: map<Id, Card>)
    ensures forall y | y in RowBottoms(lines, byId) :: RowBottoms(lines, byId)[y] < y
    decreases |lines|
  {
    if lines != [] { RowBottomsBelow(lines[..|lines| - 1], byId); }
  }

  // Every forward edge bends below its own source's card and above its target's,
  // and all edges entering one row bend at one height.
  lemma RowSharesOneBend(cards: seq<Card>, lines: seq<Line>, l: Line, m: Line)
    requires l in lines && m in lines && Forward(l, CardsById(cards)) && Forward(m, CardsById(cards))
    ensures var byId := CardsById(cards);
            var bent := Bender(cards, lines)(l);
            && bent.centerY.Some? && Bottom(byId[l.edge.source]) < bent.centerY.value < EnteredY(l, byId)
            && (EnteredY(l, byId) == EnteredY(m, byId) ==> bent.centerY == Bender(cards, lines)(m).centerY)
  {
    RowBottomIsLowest(lines, CardsById(cards), l);
    RowBottomIsLowest(lines, CardsById(cards), m);
  }

  // --- no two stubs share an id ---

  function RequestPort(r: Request): Port { r.port }

  function ItsPort(p: Port): Port { p }

  lemma AskedOne(d: Direction, stepId: Id, p: Port, cards: seq<Card>, byId: map<Id, CardCell>)
    ensures var asked := Asked(d, stepId, p, cards, byId);
            |asked| <= 1 && forall r | r in asked :: r.direction == d && r.port == p
  {
  }

  // At most one stub for each of a list of distinct ports.
  lemma OneStubEach<T>(s: seq<T>, f: T -> seq<Request>, portOf: T -> Port, d: Direction)
    requires DistinctBy(s, portOf)
    requires forall t | t in s :: |f(t)| <= 1 && forall r | r in f(t) :: r.direction == d && r.port == portOf(t)
    ensures DistinctBy(FlatMap(s, f), RequestPort)
    ensures forall r | r in FlatMap(s, f) :: r.direction == d
  {
    forall i, j | 0 <= i < j < |s|
      ensures forall u, v | u in f(s[i]) && v in f(s[j]) :: RequestPort(u) != RequestPort(v) {
      assert portOf(s[i]) != portOf(s[j]);
    }
    FlatMapDistinct(s, f, RequestPort);
    forall r | r in FlatMap(s, f) ensures r.direction == d {
      var t := FlatMapIn(s, f, r);
    }
  }

  lemma IngressDistinct(input: Input)
    ensures DistinctBy(IngressRequests(input), RequestPort)
    ensures forall r | r in IngressRequests(input) :: r.direction == Ingress
  {
    hide Asked, DistinctPorts;
    var ports := DistinctPorts(Map(IngressLines(input), SourcePortOf));
    DistinctPortsDistinct(Map(IngressLines(input), SourcePortOf));
    assert DistinctBy(ports, ItsPort) by {
      forall i, j | 0 <= i < j < |ports| ensures ItsPort(ports[i]) != ItsPort(ports[j]) {
        assert UniqueKey(ports[i]) != UniqueKey(ports[j]);
      }
    }
    forall p | p in ports
      ensures |IngressRequest(input)(p)| <= 1
      ensures forall r | r in IngressRequest(input)(p) :: r.direction == Ingress && r.port == ItsPort(p)
    {
      AskedOne(Ingress, p.nodeId, p,
        CardsAt(Filter(IngressLines(input), FromPort(p)), CardsById(MemberCards(input)), TargetOf),
               CellsById(input.nodes));
    }
    OneStubEach(ports, IngressRequest(input), ItsPort, Ingress);
  }

  function GroupPort(lines: seq<LineCell>): Port {
    if lines == [] then Port("", None) else TargetPortOf(lines[0])
  }

  lemma {:induction false} ByTargetDistinct(lines: seq<LineCell>)
    ensures DistinctBy(ByTarget(lines), GroupPort)
    ensures forall g | g in ByTarget(lines) :: g != [] && g[0] in lines
    decreases |lines|
  {
    if lines != [] {
      var p := TargetPortOf(lines[0]);
      var first, rest := Filter(lines, SharesTarget(p)), Filter(lines, OtherTarget(p));
      assert lines[0] in first && lines[0] in lines && lines[0] !in rest;
      ByTargetDistinct(rest);
      assert first[0] in first;
      forall g | g in ByTarget(rest) ensures GroupPort(g) != p {
        assert g[0] in rest;
      }
      DistinctByConcat([first], ByTarget(rest), GroupPort);
    }
  }

  lemma ContinuationDistinct(input: Input)
    ensures DistinctBy(ContinuationRequests(input), RequestPort)
    ensures forall r | r in ContinuationRequests(input) :: r.direction == Continuation
  {
    hide Asked, ByTarget;
    var groups := ByTarget(ContinuationLines(input));
    ByTargetDistinct(ContinuationLines(input));
    forall g | g in groups
      ensures |ContinuationRequest(input)(g)| <= 1
      ensures forall r | r in ContinuationRequest(input)(g) :: r.direction == Continuation && r.port == GroupPort(g)
    {
      AskedOne(Continuation, TargetOf(g[0]), TargetPortOf(g[0]), CardsAt(g, CardsById(MemberCards(input)), SourceOf),
        CellsById(input.nodes));
    }
    OneStubEach(groups, ContinuationRequest(input), GroupPort, Continuation);
  }

  ghost predicate UniqueCells(cells: seq<CardCell>) { DistinctBy(cells, CellId) }

  lemma EndPortsOfOne(input: Input, c: CardCell)
    ensures DistinctBy(EndPortsOf(input)(c), ItsPort)
    ensures forall p | p in EndPortsOf(input)(c) :: p.nodeId == CellId(c)
  {
    var leaving := Filter(InteriorLines(input) + ContinuationLines(input), LeavesFrom(CellId(c)));
    var branches := Filter(CONDITION_BRANCHES, Unconnected(leaving));
    FilterDistinctBy(CONDITION_BRANCHES, Unconnected(leaving), (b: string) => b);
    forall i, j | 0 <= i < j < |branches| ensures branches[i] != branches[j] {
      assert ((b: string) => b)(branches[i]) != ((b: string) => b)(branches[j]);
    }
  }

  lemma EndPortsDistinct(input: Input)
    requires UniqueCells(input.nodes)
    ensures DistinctBy(EndPorts(input), ItsPort)
  {
    hide EndPortsOf;
    var stored := Stored(input);
    FilterDistinctBy(input.nodes, MemberOf(input.groupId), CellId);
    forall c | c in stored ensures DistinctBy(EndPortsOf(input)(c), ItsPort) { EndPortsOfOne(input, c); }
    forall i, j | 0 <= i < j < |stored|
      ensures forall p, q | p in EndPortsOf(input)(stored[i])
              && q in EndPortsOf(input)(stored[j]) :: ItsPort(p) != ItsPort(q)
    {
      EndPortsOfOne(input, stored[i]);
      EndPortsOfOne(input, stored[j]);
      assert CellId(stored[i]) != CellId(stored[j]);
    }
    FlatMapDistinct(stored, EndPortsOf(input), ItsPort);
  }

  lemma EndDistinct(input: Input)
    requires UniqueCells(input.nodes)
    ensures DistinctBy(EndRequests(input), RequestPort)
    ensures forall r | r in EndRequests(input) :: r.direction == End
  {
    hide Asked, EndPorts;
    EndPortsDistinct(input);
    forall p | p in EndPorts(input)
      ensures |EndRequest(input)(p)| <= 1
      ensures forall r | r in EndRequest(input)(p) :: r.direction == End && r.port == ItsPort(p)
    {
      if p.nodeId in CardsById(MemberCards(input)) {
        AskedOne(End, p.nodeId, p, [CardsById(MemberCards(input))[p.nodeId]], CellsById(Stored(input)));
      }
    }
    OneStubEach(EndPorts(input), EndRequest(input), ItsPort, End);
  }

  lemma OneDirectionDistinct(rs: seq<Request>, d: Direction)
    requires DistinctBy(rs, RequestPort) && forall r | r in rs :: r.direction == d
    ensures DistinctBy(rs, RequestId)
  {
    forall i, j | 0 <= i < j < |rs| ensures RequestId(rs[i]) != RequestId(rs[j]) {
      assert RequestPort(rs[i]) != RequestPort(rs[j]);
      StubIdInjective(rs[i].direction, rs[i].port, rs[j].direction, rs[j].port);
    }
  }

  // No two stubs of a focused Group share an id.
  lemma StubIdsDistinct(input: Input)
    requires UniqueCells(input.nodes)
    ensures DistinctBy(Requests(input), RequestId)
  {
    hide IngressRequests, ContinuationRequests, EndRequests;
    var a, b, c := IngressRequests(input), ContinuationRequests(input), EndRequests(input);
    IngressDistinct(input);
    ContinuationDistinct(input);
    EndDistinct(input);
    OneDirectionDistinct(a, Ingress);
    OneDirectionDistinct(b, Continuation);
    OneDirectionDistinct(c, End);
    DirectionsApart(a, b);
    DirectionsApart(a + b, c);
  }

  lemma DirectionsApart(rs: seq<Request>, ss: seq<Request>)
    requires DistinctBy(rs, RequestId) && DistinctBy(ss, RequestId)
    requires forall r, s | r in rs && s in ss :: r.direction != s.direction
    ensures DistinctBy(rs + ss, RequestId)
  {
    forall r, s | r in rs && s in ss ensures RequestId(r) != RequestId(s) {
      StubIdInjective(r.direction, r.port, s.direction, s.port);
    }
    DistinctByConcat(rs, ss, RequestId);
  }
}
