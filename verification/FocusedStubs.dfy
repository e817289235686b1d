// What a focused Group paints, read off its stored nodes and edges: which stubs
// there are, what each shows, where it stands over or under the members it meets,
// and what becomes of every edge.
module FocusedStubs {
  import opened Reachability
  import opened Sequences
  import opened WorkflowGraph
  import opened CanvasInsertion
  import opened GroupBoundary
  import opened StubPlacement
  import opened FocusedGroup

  // --- members ---

  ghost predicate IsMember(input: Input, c: CardCell) {
    c in input.nodes && c.card.node.parentId == Some(input.groupId)
  }

  ghost predicate IsMemberId(input: Input, id: Id) {
    exists c :: c in input.nodes && IsMember(input, c) && CellId(c) == id
  }

  // A member as it is painted: at its own place, out of its frame, its sizes
  // filled in.
  predicate ShownAs(c: CardCell, m: Card) {
    && m.node == c.card.node.(parentId := None) && m.stub == c.card.stub
    && m.width == Some(if c.card.width.Some? then c.card.width.value else WIDTH)
    && m.height == Some(if c.card.height.Some? then c.card.height.value else CARD_HEIGHT)
    && m.measured == Some(if c.card.measured.Some? then c.card.measured.value else Size(WIDTH, CARD_HEIGHT))
  }

  lemma MembersShown(input: Input)
    ensures |MemberCards(input)| == |Stored(input)|
    ensures forall c :: c in Stored(input) <==> IsMember(input, c)
    ensures forall i | 0 <= i < |Stored(input)| :: ShownAs(Stored(input)[i], MemberCards(input)[i])
  {
  }

  lemma MemberIdExact(input: Input, id: Id)
    ensures id in MemberIds(input) <==> IsMemberId(input, id)
  {
    if IsMemberId(input, id) {
      var c :| c in input.nodes && IsMember(input, c) && CellId(c) == id;
      assert c in Stored(input);
    }
  }

  // --- boundary edges and end ports ---

  ghost predicate Enters(input: Input, l: LineCell) {
    l in input.edges && !IsMemberId(input, l.line.edge.source) && IsMemberId(input, l.line.edge.target)
  }

  ghost predicate Leaves(input: Input, l: LineCell) {
    l in input.edges && IsMemberId(input, l.line.edge.source) && !IsMemberId(input, l.line.edge.target)
  }

  ghost predicate StaysInside(input: Input, l: LineCell) {
    l in input.edges && IsMemberId(input, l.line.edge.source) && IsMemberId(input, l.line.edge.target)
  }

  lemma CrossingsExact(input: Input)
    ensures forall l :: l in IngressLines(input) <==> Enters(input, l)
    ensures forall l :: l in ContinuationLines(input) <==> Leaves(input, l)
    ensures forall l :: l in InteriorLines(input) <==> StaysInside(input, l)
  {
    forall id: Id ensures id in MemberIds(input) <==> IsMemberId(input, id) { MemberIdExact(input, id); }
    hide MemberIds, IsMemberId;
  }

  // A path ends at a member's outlet: a True or False outlet of a Condition no
  // stored edge leaves by, or any other member no stored edge leaves.
  ghost predicate EndsPath(input: Input, c: CardCell, p: Port) {
    && IsMember(input, c) && p.nodeId == CellId(c)
    && if ActionTypeOf(c.card.node) == Some("Condition")
       then (p.handle == Some("true") || p.handle == Some("false"))
            && forall l | l in input.edges && l.line.edge.source == CellId(c) :: l.line.edge.sourceHandle != p.handle
       else p.handle == None && forall l | l in input.edges :: l.line.edge.source != CellId(c)
  }

  lemma {:induction false} CellsByIdAt(cells: seq<CardCell>, c: CardCell)
    requires UniqueCells(cells) && c in cells
    ensures CellId(c) in CellsById(cells) && CellsById(cells)[CellId(c)] == c
  {
    var front, last := cells[..|cells| - 1], cells[|cells| - 1];
    assert cells == front + [last];
    DistinctByConcat(front, [last], CellId);
    if c != last {
      assert CellId(c) != CellId(last);
      CellsByIdAt(front, c);
    }
  }

  lemma LeavingExact(input: Input, c: CardCell)
    requires IsMember(input, c)
    ensures var leaving := Filter(InteriorLines(input) + ContinuationLines(input), LeavesFrom(CellId(c)));
            forall l :: l in leaving <==> l in input.edges && l.line.edge.source == CellId(c)
  {
    CrossingsExact(input);
    hide InteriorLines, ContinuationLines, IngressLines;
    assert IsMemberId(input, CellId(c));
  }

  lemma EndPortsOfExact(input: Input, c: CardCell, p: Port)
    requires UniqueCells(input.nodes) && IsMember(input, c)
    ensures p in EndPortsOf(input)(c) <==> EndsPath(input, c, p)
  {
    LeavingExact(input, c);
    CellsByIdAt(input.nodes, c);
    hide InteriorLines, ContinuationLines, CellsById, UniqueCells, IsMember;
    var leaving := Filter(InteriorLines(input) + ContinuationLines(input), LeavesFrom(CellId(c)));
    if IsCondition(c.card.node) {
      OpenBranches(leaving, CellId(c), p);
    } else if leaving != [] {
      assert leaving[0] in leaving;
    }
  }

  lemma OpenBranches(leaving: seq<LineCell>, id: Id, p: Port)
    ensures p in Map(Filter(CONDITION_BRANCHES, Unconnected(leaving)), (branch: string) => Port(id, Some(branch)))
       <==> (p.nodeId == id && (p.handle == Some("true") || p.handle == Some("false"))
             && forall l | l in leaving :: l.line.edge.sourceHandle != p.handle)
  {
    var branches := Filter(CONDITION_BRANCHES, Unconnected(leaving));
    MapHas(branches, (branch: string) => Port(id, Some(branch)), p);
    assert forall b :: b in CONDITION_BRANCHES <==> b == "true" || b == "false";
    if p.handle.Some? {
      assert p.handle.value in branches
             <==> p.handle.value in CONDITION_BRANCHES && Unconnected(leaving)(p.handle.value);
    }
  }

  lemma EndPortsExact(input: Input, p: Port)
    requires UniqueCells(input.nodes)
    ensures p in EndPorts(input) <==> exists c :: EndsPath(input, c, p)
  {
    MembersShown(input);
    hide EndPortsOf, Stored, UniqueCells, MemberCards;
    if p in EndPorts(input) {
      var c := FlatMapIn(Stored(input), EndPortsOf(input), p);
      EndPortsOfExact(input, c, p);
    }
    if c :| EndsPath(input, c, p) {
      EndPortsOfExact(input, c, p);
      FlatMapHas(Stored(input), EndPortsOf(input), c, p);
    }
  }

  // --- what a stub meets, and where it stands ---

  // The painted members at the other end of what a stub stands for.
  ghost predicate Meets(input: Input, stub: StubPort, m: Card) {
    && m in MemberCards(input) && m.measured.Some?
    && match stub.direction
       case Ingress =>
         exists l :: l in input.edges && Enters(input, l)
           && SourcePort(l.line.edge) == stub.port && l.line.edge.target == CardId(m)
       case Continuation =>
         exists l :: l in input.edges && Leaves(input, l)
           && TargetPort(l.line.edge) == stub.port && l.line.edge.source == CardId(m)
       case End => CardId(m) == stub.port.nodeId
  }

  function Left(m: Card): real { m.node.position.x }

  function Right(m: Card): real
    requires m.measured.Some?
  {
    m.node.position.x + m.measured.value.width
  }

  function Top(m: Card): real { m.node.position.y }

  function Foot(m: Card): real
    requires m.measured.Some?
  {
    m.node.position.y + m.measured.value.height
  }

  // A rank above every member entered, or below every member left, and exactly
  // that from one of them.
  ghost predicate OnItsRank(input: Input, stub: StubPort, y: real) {
    if stub.direction.Ingress? then
      && (forall m | Meets(input, stub, m) :: y + STUB_HEIGHT + RANK_SPACING <= Top(m))
      && (exists m :: Meets(input, stub, m) && y + STUB_HEIGHT + RANK_SPACING == Top(m))
    else
      && (forall m | Meets(input, stub, m) :: Foot(m) + RANK_SPACING <= y)
      && (exists m :: Meets(input, stub, m) && Foot(m) + RANK_SPACING == y)
  }

  ghost predicate Leftmost(input: Input, stub: StubPort, a: Card) {
    Meets(input, stub, a) && forall m | Meets(input, stub, m) :: Left(a) <= Left(m)
  }

  ghost predicate Rightmost(input: Input, stub: StubPort, b: Card) {
    Meets(input, stub, b) && forall m | Meets(input, stub, m) :: Right(m) <= Right(b)
  }

  // Midway between the leftmost left and the rightmost right of them.
  ghost predicate Centred(input: Input, stub: StubPort, x: real) {
    exists a, b :: Leftmost(input, stub, a) && Rightmost(input, stub, b)
      && x + WIDTH / 2.0 == (Left(a) + Right(b)) / 2.0
  }

  // The card of a stub before the separation pass.
  ghost predicate WantedStub(input: Input, c: Card) {
    && c.stub.Some? && OnItsRank(input, c.stub.value, c.node.position.y)
       && Centred(input, c.stub.value, c.node.position.x)
    && c.node.id == StubIdOf(c.stub.value.direction, c.stub.value.port)
    && c.width == Some(WIDTH) && c.height == Some(STUB_HEIGHT) && c.measured == Some(Size(WIDTH, STUB_HEIGHT))
    && c.node.parentId == None && c.node.data.description == None && c.node.data.enabled == None
    && exists step :: step in input.nodes && CellId(step) == c.stub.value.port.nodeId
        && c.node.kind == step.card.node.kind
         && (if c.stub.value.direction.End? then c.node.data.labelText == "Path ends" && c.node.data.config == map[]
             else c.node.data.labelText == step.card.node.data.labelText
                  && c.node.data.config == step.card.node.data.config)
  }

  // --- extremes ---

  lemma {:induction false} LeastExact(s: seq<real>)
    requires s != []
    ensures Least(s) in s && forall x | x in s :: Least(s) <= x
  {
    if |s| > 1 { LeastExact(s[1..]); assert s == [s[0]] + s[1..]; }
  }

  lemma {:induction false} GreatestExact(s: seq<real>)
    requires s != []
    ensures Greatest(s) in s && forall x | x in s :: x <= Greatest(s)
  {
    if |s| > 1 { GreatestExact(s[1..]); assert s == [s[0]] + s[1..]; }
  }

  lemma LeastOf(cards: seq<Card>, f: Card -> real) returns (a: Card)
    requires cards != []
    ensures a in cards && f(a) == Least(Map(cards, f)) && forall m | m in cards :: f(a) <= f(m)
  {
    LeastExact(Map(cards, f));
    MapHas(cards, f, Least(Map(cards, f)));
    a :| a in cards && f(a) == Least(Map(cards, f));
    forall m | m in cards ensures f(a) <= f(m) { MapHas(cards, f, f(m)); }
  }

  lemma GreatestOf(cards: seq<Card>, f: Card -> real) returns (b: Card)
    requires cards != []
    ensures b in cards && f(b) == Greatest(Map(cards, f)) && forall m | m in cards :: f(m) <= f(b)
  {
    GreatestExact(Map(cards, f));
    MapHas(cards, f, Greatest(Map(cards, f)));
    b :| b in cards && f(b) == Greatest(Map(cards, f));
    forall m | m in cards ensures f(m) <= f(b) { MapHas(cards, f, f(m)); }
  }

  lemma PlacedAmong(input: Input, stub: StubPort, cards: seq<Card>)
    requires cards != [] && forall m :: m in cards <==> Meets(input, stub, m)
    ensures var place := StubPosition(cards, stub.direction);
            OnItsRank(input, stub, place.y) && Centred(input, stub, place.x)
  {
    hide Meets;
    assert forall m | Meets(input, stub, m) :: m.measured.Some? by { MeetsMeasured(input, stub); }
    var left, right := (c: Card) => c.node.position.x, (c: Card) => c.node.position.x + WidthOf(c);
    var top, foot := (c: Card) => c.node.position.y, (c: Card) => c.node.position.y + HeightOf(c);
    var a := LeastOf(cards, left);
    var b := GreatestOf(cards, right);
    assert Leftmost(input, stub, a) && Rightmost(input, stub, b);
    if stub.direction.Ingress? { var m := LeastOf(cards, top); } else { var m := GreatestOf(cards, foot); }
  }

  lemma MeetsMeasured(input: Input, stub: StubPort)
    ensures forall m | Meets(input, stub, m) :: m.measured.Some?
  {
  }

  // --- the stubs asked for ---

  lemma {:induction false} CardsByIdAt(cards: seq<Card>, id: Id)
    ensures id in CardsById(cards) ==> CardsById(cards)[id] in cards && CardId(CardsById(cards)[id]) == id
    ensures DistinctBy(cards, CardId) ==> forall m | m in cards && CardId(m) == id ::
              id in CardsById(cards) && CardsById(cards)[id] == m
  {
    if cards != [] {
      var front, last := cards[..|cards| - 1], cards[|cards| - 1];
      assert cards == front + [last];
      DistinctByConcat(front, [last], CardId);
      CardsByIdAt(front, id);
    }
  }

  lemma MemberCardsDistinct(input: Input)
    requires UniqueCells(input.nodes)
    ensures DistinctBy(MemberCards(input), CardId)
  {
    FilterDistinctBy(input.nodes, MemberOf(input.groupId), CellId);
    var stored, cards := Stored(input), MemberCards(input);
    forall i, j | 0 <= i < j < |cards| ensures CardId(cards[i]) != CardId(cards[j]) {
      assert CellId(stored[i]) != CellId(stored[j]);
    }
  }

  lemma CardsAtExact(lines: seq<LineCell>, members: map<Id, Card>, end: LineCell -> Id, m: Card)
    ensures m in CardsAt(lines, members, end)
       <==> exists l :: l in lines && end(l) in members && members[end(l)] == m
  {
    var f := (k: LineCell) => if end(k) in members then [members[end(k)]] else [];
    assert CardsAt(lines, members, end) == FlatMap(lines, f);
    if m in FlatMap(lines, f) { var l := FlatMapIn(lines, f, m); }
    if l :| l in lines && end(l) in members && members[end(l)] == m { FlatMapHas(lines, f, l, m); }
  }

  // The cards some boundary lines meet, when each line's end is a member.
  lemma CardsMet(input: Input, lines: seq<LineCell>, end: LineCell -> Id, m: Card)
    requires UniqueCells(input.nodes)
    ensures m in CardsAt(lines, CardsById(MemberCards(input)), end)
       <==> (m in MemberCards(input) && exists l :: l in lines && end(l) == CardId(m))
  {
    MemberCardsDistinct(input);
    CardsAtExact(lines, CardsById(MemberCards(input)), end, m);
    forall id: Id
      ensures id in CardsById(MemberCards(input))
              ==> (CardsById(MemberCards(input))[id] in MemberCards(input)
                && CardId(CardsById(MemberCards(input))[id]) == id)
      ensures forall n | n in MemberCards(input) && CardId(n) == id ::
                id in CardsById(MemberCards(input)) && CardsById(MemberCards(input))[id] == n
    {
      CardsByIdAt(MemberCards(input), id);
    }
    hide CardsAt, CardsById, MemberCards, UniqueCells;
  }

  lemma MembersMeasured(input: Input)
    ensures forall m | m in MemberCards(input) :: m.measured.Some?
  {
  }

  lemma IngressMeets(input: Input, p: Port, m: Card)
    requires UniqueCells(input.nodes)
    ensures m in CardsAt(Filter(IngressLines(input), FromPort(p)), CardsById(MemberCards(input)), TargetOf)
       <==> Meets(input, StubPort(Ingress, p), m)
  {
    CrossingsExact(input);
    MembersMeasured(input);
    CardsMet(input, Filter(IngressLines(input), FromPort(p)), TargetOf, m);
    hide CardsAt, CardsById, MemberCards, UniqueCells, IngressLines, Enters;
  }

  lemma {:induction false} ByTargetExact(lines: seq<LineCell>, g: seq<LineCell>)
    requires g in ByTarget(lines)
    ensures g != [] && forall l :: l in g <==> l in lines && TargetPortOf(l) == TargetPortOf(g[0])
    decreases |lines|
  {
    var p := TargetPortOf(lines[0]);
    var first, rest := Filter(lines, SharesTarget(p)), Filter(lines, OtherTarget(p));
    assert lines[0] in first && first[0] in first && lines[0] in lines && lines[0] !in rest;
    if g != first {
      ByTargetExact(rest, g);
      assert g[0] in rest;
    }
  }

  lemma ContinuationMeets(input: Input, g: seq<LineCell>, m: Card)
    requires UniqueCells(input.nodes) && g in ByTarget(ContinuationLines(input)) && g != []
    ensures m in CardsAt(g, CardsById(MemberCards(input)), SourceOf)
       <==> Meets(input, StubPort(Continuation, TargetPortOf(g[0])), m)
  {
    CrossingsExact(input);
    MembersMeasured(input);
    ByTargetExact(ContinuationLines(input), g);
    CardsMet(input, g, SourceOf, m);
    hide CardsAt, CardsById, MemberCards, UniqueCells, ContinuationLines, ByTarget, Leaves;
  }

  lemma EndMeets(input: Input, p: Port, m: Card)
    requires UniqueCells(input.nodes) && p.nodeId in CardsById(MemberCards(input))
    ensures m == CardsById(MemberCards(input))[p.nodeId] <==> Meets(input, StubPort(End, p), m)
  {
    MembersMeasured(input);
    MemberCardsDistinct(input);
    CardsByIdAt(MemberCards(input), p.nodeId);
    hide CardsById, MemberCards;
  }

  // A step asked for one stub: where it stands and what it shows.
  lemma AskedIsWanted(input: Input, d: Direction, stepId: Id, p: Port, cards: seq<Card>, byId: map<Id, CardCell>,
                      r: Request)
    requires r in Asked(d, stepId, p, cards, byId) && stepId == p.nodeId
    requires forall m :: m in cards <==> Meets(input, StubPort(d, p), m)
    requires stepId in byId ==> byId[stepId] in input.nodes && CellId(byId[stepId]) == stepId
    ensures WantedStub(input, RequestCard(r)) && RequestCard(r).stub == Some(StubPort(d, p))
  {
    hide Meets, OnItsRank, Centred, StubPosition, StubIdOf, UniqueCells;
    PlacedAmong(input, StubPort(d, p), cards);
    assert r == Request(d, byId[stepId], p, StubPosition(cards, d));
  }

  lemma {:induction false} CellsByIdFrom(cells: seq<CardCell>, id: Id)
    ensures id in CellsById(cells) ==> CellsById(cells)[id] in cells && CellId(CellsById(cells)[id]) == id
  {
    if cells != [] {
      var front := cells[..|cells| - 1];
      assert cells == front + [cells[|cells| - 1]];
      CellsByIdFrom(front, id);
    }
  }

  lemma IngressWanted(input: Input, r: Request)
    requires UniqueCells(input.nodes) && r in IngressRequests(input)
    ensures WantedStub(input, RequestCard(r)) && r.direction == Ingress
  {
    hide Asked, Meets, CardsAt, CardsById, CellsById, WantedStub, RequestCard, UniqueCells, MemberCards, IngressLines,
      DistinctPorts;
    var p := FlatMapIn(DistinctPorts(Map(IngressLines(input), SourcePortOf)), IngressRequest(input), r);
    var cards := CardsAt(Filter(IngressLines(input), FromPort(p)), CardsById(MemberCards(input)), TargetOf);
    forall m ensures m in cards <==> Meets(input, StubPort(Ingress, p), m) { IngressMeets(input, p, m); }
    CellsByIdFrom(input.nodes, p.nodeId);
    AskedOne(Ingress, p.nodeId, p, cards, CellsById(input.nodes));
    AskedIsWanted(input, Ingress, p.nodeId, p, cards, CellsById(input.nodes), r);
  }

  lemma ContinuationWanted(input: Input, r: Request)
    requires UniqueCells(input.nodes) && r in ContinuationRequests(input)
    ensures WantedStub(input, RequestCard(r)) && r.direction == Continuation
  {
    hide Asked, Meets, CardsAt, CardsById, CellsById, WantedStub, RequestCard, UniqueCells, MemberCards,
      ContinuationLines, ByTarget;
    var g := FlatMapIn(ByTarget(ContinuationLines(input)), ContinuationRequest(input), r);
    var p, cards := TargetPortOf(g[0]), CardsAt(g, CardsById(MemberCards(input)), SourceOf);
    forall m ensures m in cards <==> Meets(input, StubPort(Continuation, p), m) { ContinuationMeets(input, g, m); }
    CellsByIdFrom(input.nodes, p.nodeId);
    AskedOne(Continuation, p.nodeId, p, cards, CellsById(input.nodes));
    AskedIsWanted(input, Continuation, p.nodeId, p, cards, CellsById(input.nodes), r);
  }

  lemma EndWanted(input: Input, r: Request)
    requires UniqueCells(input.nodes) && r in EndRequests(input)
    ensures WantedStub(input, RequestCard(r)) && r.direction == End
  {
    hide Asked, Meets, CardsById, CellsById, WantedStub, RequestCard, UniqueCells, MemberCards, EndPorts;
    var p := FlatMapIn(EndPorts(input), EndRequest(input), r);
    var cards := [CardsById(MemberCards(input))[p.nodeId]];
    forall m ensures m in cards <==> Meets(input, StubPort(End, p), m) { EndMeets(input, p, m); }
    CellsByIdFrom(Stored(input), p.nodeId);
    AskedOne(End, p.nodeId, p, cards, CellsById(Stored(input)));
    AskedIsWanted(input, End, p.nodeId, p, cards, CellsById(Stored(input)), r);
  }

  // --- the painted nodes ---

  function StubOf(c: Card): Stub { Stub(c.node.id, c.node.position.x, c.node.position.y) }

  ghost predicate MemberRects(members: seq<Card>, rects: seq<Member>) {
    && |rects| == |members|
    && forall i | 0 <= i < |members| ::
         members[i].measured.Some?
         && rects[i] == Member(Left(members[i]), Top(members[i]), Right(members[i]) - Left(members[i]),
                               Foot(members[i]) - Top(members[i]))
  }

  function Placed(c: Card, x: real): Card { c.(node := c.node.(position := Position(x, c.node.position.y))) }

  // The stubs before the pass, those over the members first.
  ghost predicate WantedStubs(input: Input, wanted: seq<Card>, n: nat) {
    && n <= |wanted| && DistinctBy(wanted, CardId)
    && forall i | 0 <= i < |wanted| ::
         WantedStub(input, wanted[i]) && (i < n <==> wanted[i].stub.value.direction.Ingress?)
  }

  // Each stub as the separation pass leaves it, in its own row.
  ghost predicate Separated(input: Input, wanted: seq<Card>, rects: seq<Member>, painted: seq<Card>) {
    var apart := SeparateBoundaryStubs(Map(wanted, StubOf), Map(Lines(input), EdgeOfLine), rects);
    && |apart| == |painted| == |wanted|
    && forall i | 0 <= i < |wanted| :: painted[i] == Placed(wanted[i], apart[i].x)
  }

  lemma RequestsWanted(input: Input)
    requires UniqueCells(input.nodes)
    ensures |IngressRequests(input)| <= |Requests(input)|
    ensures forall i | 0 <= i < |Requests(input)| ::
              WantedStub(input, RequestCard(Requests(input)[i]))
              && (i < |IngressRequests(input)| <==> Requests(input)[i].direction.Ingress?)
  {
    hide WantedStub, UniqueCells, IngressRequests, ContinuationRequests, EndRequests, RequestCard;
    var a, b, c := IngressRequests(input), ContinuationRequests(input), EndRequests(input);
    forall i | 0 <= i < |Requests(input)|
      ensures WantedStub(input, RequestCard(Requests(input)[i]))
              && (i < |a| <==> Requests(input)[i].direction.Ingress?)
    {
      if i < |a| {
        IngressWanted(input, a[i]);
      } else if i < |a| + |b| {
        ContinuationWanted(input, b[i - |a|]);
      } else {
        EndWanted(input, c[i - |a| - |b|]);
      }
    }
  }

  lemma RectsExact(input: Input)
    ensures MemberRects(MemberCards(input), Map(MemberCards(input), ToMember))
  {
    MembersMeasured(input);
  }

  // Painted are the ingress stubs, the members, and the other stubs.
  lemma StubsPainted(input: Input)
    returns (wanted: seq<Card>, n: nat, rects: seq<Member>, painted: seq<Card>)
    requires UniqueCells(input.nodes)
    ensures WantedStubs(input, wanted, n) && MemberRects(MemberCards(input), rects)
    ensures Separated(input, wanted, rects, painted)
    ensures |painted| == |wanted| && PaintedCards(input) == painted[..n] + MemberCards(input) + painted[n..]
  {
    hide WantedStubs, MemberRects, Separated, Requests, IngressRequests, RequestCard, MemberCards, StubCards, ToMember;
    wanted, n, rects := Map(Requests(input), RequestCard), |IngressRequests(input)|, Map(MemberCards(input), ToMember);
    painted := StubCards(input);
    RectsExact(input);
    WantedAre(input);
    ShiftedAre(input, wanted);
  }

  lemma WantedAre(input: Input)
    requires UniqueCells(input.nodes)
    ensures WantedStubs(input, Map(Requests(input), RequestCard), |IngressRequests(input)|)
  {
    hide Requests, IngressRequests, WantedStub, UniqueCells, RequestCard, DistinctBy;
    RequestsWanted(input);
    StubIdsDistinct(input);
    WantedDistinct(input);
    var requests, wanted := Requests(input), Map(Requests(input), RequestCard);
    forall i | 0 <= i < |wanted|
      ensures WantedStub(input, wanted[i]) && wanted[i].stub.Some?
      ensures i < |IngressRequests(input)| <==> wanted[i].stub.value.direction.Ingress?
    {
      CardDirection(requests[i]);
    }
  }

  lemma CardDirection(r: Request)
    ensures RequestCard(r).stub.Some? && RequestCard(r).stub.value.direction == r.direction
  {
  }

  lemma WantedDistinct(input: Input)
    requires DistinctBy(Requests(input), RequestId)
    ensures DistinctBy(Map(Requests(input), RequestCard), CardId)
  {
    var requests, cards := Requests(input), Map(Requests(input), RequestCard);
    hide Requests, StubIdOf;
    forall i, j | 0 <= i < j < |cards| ensures CardId(cards[i]) != CardId(cards[j]) {
      assert RequestId(requests[i]) != RequestId(requests[j]);
    }
  }

  lemma ShiftedAre(input: Input, wanted: seq<Card>)
    requires wanted == Map(Requests(input), RequestCard)
    ensures Separated(input, wanted, Map(MemberCards(input), ToMember), StubCards(input))
    ensures |StubCards(input)| == |wanted|
  {
    hide Requests, MemberCards, Lines, PlacedStubs, Positions;
    assert Map(wanted, StubOf) == Map(wanted, ToStub);
  }

  lemma PlacedRank(input: Input, wanted: seq<Card>, n: nat, rects: seq<Member>, painted: seq<Card>, i: nat)
    requires WantedStubs(input, wanted, n) && Separated(input, wanted, rects, painted) && i < |painted|
    ensures |painted| == |wanted| && painted[i].stub.Some?
    ensures OnItsRank(input, painted[i].stub.value, painted[i].node.position.y)
  {
    hide OnItsRank, Centred, SeparateBoundaryStubs, Lines;
  }

  // On the painted canvas every stub keeps its rank.
  lemma PaintedRanks(input: Input, c: Card)
    requires UniqueCells(input.nodes) && c in PaintedCards(input) && c !in MemberCards(input)
    ensures c.stub.Some? && OnItsRank(input, c.stub.value, c.node.position.y)
  {
    hide PaintedCards, MemberCards, OnItsRank, Separated, WantedStubs, MemberRects, UniqueCells;
    var wanted, n, rects, painted := StubsPainted(input);
    var i :| 0 <= i < |painted| && painted[i] == c;
    PlacedRank(input, wanted, n, rects, painted, i);
  }
}
