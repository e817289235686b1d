// What becomes of the edges of a focused Group: which are painted, what each
// names, and where it bends.
module FocusedLines {
  import opened Reachability
  import opened Sequences
  import opened WorkflowGraph
  import opened CanvasInsertion
  import opened FocusedGroup
  import opened FocusedStubs

  // --- painted edges ---

  // An edge entering the Group is painted from the stub of its source port, and
  // a Condition branch is named in its label.
  predicate PaintedEntering(was: Line, now: Line) {
    && now.edge.id == was.edge.id && now.edge.target == was.edge.target
       && now.edge.targetHandle == was.edge.targetHandle
    && now.edge.source == StubIdOf(Ingress, Port(was.edge.source, was.edge.sourceHandle))
       && now.edge.sourceHandle == None
    && now.displayLabel == (if was.edge.sourceHandle == Some("true") then Some("True")
                            else if was.edge.sourceHandle == Some("false") then Some("False")
                            else was.displayLabel)
    && now.centerY == was.centerY
  }

  // An edge leaving it is painted onto the stub of its target port.
  predicate PaintedLeaving(was: Line, now: Line) {
    && now.edge.id == was.edge.id && now.edge.source == was.edge.source
       && now.edge.sourceHandle == was.edge.sourceHandle
    && now.edge.target == StubIdOf(Continuation, Port(was.edge.target, was.edge.targetHandle))
    && now.edge.targetHandle == None && now.displayLabel == was.displayLabel && now.centerY == was.centerY
  }

  // A path's end is painted onto a stub of its own.
  predicate PaintedEnd(p: Port, now: Line) {
    && now.edge.source == p.nodeId && now.edge.sourceHandle == p.handle
    && now.edge.target == StubIdOf(End, p) && now.edge.targetHandle == None
    && now.edge.id == EndLineId(p) && now.displayLabel == None && now.centerY == None
  }

  ghost predicate Painted(input: Input, l: Line) {
    || (exists c :: c in input.edges && StaysInside(input, c) && l == c.line)
    || (exists c :: c in input.edges && Enters(input, c) && PaintedEntering(c.line, l))
    || (exists c :: c in input.edges && Leaves(input, c) && PaintedLeaving(c.line, l))
    || (exists c, p :: c in input.nodes && EndsPath(input, c, p) && PaintedEnd(p, l))
  }

  lemma EndLineIs(p: Port, now: Line)
    ensures EndLine(p) == now <==> PaintedEnd(p, now)
  {
    hide StubIdOf, EndLineId;
  }

  lemma InteriorPainted(input: Input, l: Line)
    ensures l in Map(InteriorLines(input), LineOf)
            <==> exists c :: c in input.edges && StaysInside(input, c) && l == c.line
  {
    CrossingsExact(input);
    MapHas(InteriorLines(input), LineOf, l);
    if l in Map(InteriorLines(input), LineOf) {
      var c :| c in InteriorLines(input) && LineOf(c) == l;
      assert c in input.edges;
    }
    hide InteriorLines, ContinuationLines, IngressLines;
    if c :| c in input.edges && StaysInside(input, c) && l == c.line { assert LineOf(c) == l; }
  }

  lemma EnteringPainted(input: Input, l: Line)
    ensures l in Map(IngressLines(input), IngressPainted)
       <==> exists c :: c in input.edges && Enters(input, c) && PaintedEntering(c.line, l)
  {
    CrossingsExact(input);
    MapHas(IngressLines(input), IngressPainted, l);
    if l in Map(IngressLines(input), IngressPainted) {
      var c :| c in IngressLines(input) && IngressPainted(c) == l;
      assert c in input.edges;
    }
    hide InteriorLines, ContinuationLines, IngressLines, StubIdOf;
    if c :| c in input.edges && Enters(input, c) && PaintedEntering(c.line, l) { assert IngressPainted(c) == l; }
  }

  lemma LeavingPainted(input: Input, l: Line)
    ensures l in Map(ContinuationLines(input), ContinuationPainted)
       <==> exists c :: c in input.edges && Leaves(input, c) && PaintedLeaving(c.line, l)
  {
    CrossingsExact(input);
    MapHas(ContinuationLines(input), ContinuationPainted, l);
    if l in Map(ContinuationLines(input), ContinuationPainted) {
      var c :| c in ContinuationLines(input) && ContinuationPainted(c) == l;
      assert c in input.edges;
    }
    hide InteriorLines, ContinuationLines, IngressLines, StubIdOf;
    if c :| c in input.edges && Leaves(input, c) && PaintedLeaving(c.line, l) { assert ContinuationPainted(c) == l; }
  }

  // Every stored edge at a member is painted in its role, every path's end too,
  // and nothing else.
  lemma LinesExact(input: Input, l: Line)
    requires UniqueCells(input.nodes)
    ensures l in Lines(input) <==> Painted(input, l)
  {
    hide UniqueCells, PaintedEntering, PaintedLeaving, PaintedEnd, EndsPath, Enters, Leaves, StaysInside, Map;
    InteriorPainted(input, l);
    EnteringPainted(input, l);
    LeavingPainted(input, l);
    EndsPainted(input, l);
  }

  lemma EndsPainted(input: Input, l: Line)
    requires UniqueCells(input.nodes)
    ensures l in Map(EndPorts(input), EndLine)
       <==> exists c, p :: c in input.nodes && EndsPath(input, c, p) && PaintedEnd(p, l)
  {
    MapHas(EndPorts(input), EndLine, l);
    hide EndPorts, EndLine, UniqueCells, PaintedEnd, EndsPath;
    if p :| p in EndPorts(input) && EndLine(p) == l {
      EndPortsExact(input, p);
      EndLineIs(p, l);
      var c :| EndsPath(input, c, p);
      EndsInside(input, c, p);
    }
    if c, p :| c in input.nodes && EndsPath(input, c, p) && PaintedEnd(p, l) {
      EndPortsExact(input, p);
      EndLineIs(p, l);
    }
  }

  lemma EndsInside(input: Input, c: CardCell, p: Port)
    requires EndsPath(input, c, p)
    ensures c in input.nodes
  {
  }

  // --- bends ---

  function FootOf(c: Card): real {
    c.node.position.y
    + match c.measured
      case Some(size) => size.height
      case None => if c.height.Some? then c.height.value else CARD_HEIGHT
  }

  // `l` goes down from the card `s` to the card `t`.
  predicate GoesDown(cards: seq<Card>, l: Line, s: Card, t: Card) {
    s in cards && t in cards && CardId(s) == l.edge.source && CardId(t) == l.edge.target && FootOf(s) < Top(t)
  }

  lemma ForwardExact(cards: seq<Card>, l: Line)
    requires DistinctBy(cards, CardId)
    ensures Forward(l, CardsById(cards)) <==> exists s, t :: GoesDown(cards, l, s, t)
    ensures forall s, t | GoesDown(cards, l, s, t) ::
              CardsById(cards)[l.edge.source] == s && CardsById(cards)[l.edge.target] == t
  {
    CardsByIdAt(cards, l.edge.source);
    CardsByIdAt(cards, l.edge.target);
    hide CardsById;
    var byId := CardsById(cards);
    if Forward(l, byId) { assert GoesDown(cards, l, byId[l.edge.source], byId[l.edge.target]); }
  }

  lemma {:induction false} RowBottomReached(lines: seq<Line>, byId: map<Id, Card>, y: real) returns (m: Line)
    requires y in RowBottoms(lines, byId)
    ensures m in lines && Forward(m, byId) && EnteredY(m, byId) == y
    ensures RowBottoms(lines, byId)[y] == Bottom(byId[m.edge.source])
    decreases |lines|
  {
    var front, last := lines[..|lines| - 1], lines[|lines| - 1];
    assert last in lines;
    if Forward(last, byId) && EnteredY(last, byId) == y
      && RowBottoms(lines, byId)[y] == Bottom(byId[last.edge.source]) {
      m := last;
    } else {
      m := RowBottomReached(front, byId, y);
    }
  }

  // `u` ends lowest of all the cards an edge goes down from into the row at `y`.
  ghost predicate LowestInto(cards: seq<Card>, lines: seq<Line>, y: real, u: Card) {
    && (exists m, v :: m in lines && GoesDown(cards, m, u, v) && Top(v) == y)
    && forall k, w, z | k in lines && GoesDown(cards, k, w, z) && Top(z) == y :: FootOf(w) <= FootOf(u)
  }

  // Where an edge that goes down into the row at `y` bends.
  ghost predicate BendsInto(cards: seq<Card>, lines: seq<Line>, was: Line, now: Line, y: real) {
    exists u :: LowestInto(cards, lines, y, u) && now == was.(centerY := Some((FootOf(u) + y) / 2.0))
  }

  // An edge going down bends midway between the row it enters and the lowest card
  // an edge goes down from into that row. Any other edge is left as it is.
  lemma BendExact(cards: seq<Card>, lines: seq<Line>, l: Line)
    requires DistinctBy(cards, CardId) && l in lines
    ensures forall s, t | GoesDown(cards, l, s, t) :: BendsInto(cards, lines, l, Bender(cards, lines)(l), Top(t))
    ensures (forall s, t :: !GoesDown(cards, l, s, t)) ==> Bender(cards, lines)(l) == l
  {
    ForwardExact(cards, l);
    hide GoesDown, BendsInto, CardsById, RowBottoms;
    forall s, t | GoesDown(cards, l, s, t) ensures BendsInto(cards, lines, l, Bender(cards, lines)(l), Top(t)) {
      DownBends(cards, lines, l, s, t);
    }
  }

  lemma DownBends(cards: seq<Card>, lines: seq<Line>, l: Line, s: Card, t: Card)
    requires DistinctBy(cards, CardId) && l in lines && GoesDown(cards, l, s, t)
    ensures BendsInto(cards, lines, l, Bender(cards, lines)(l), Top(t))
  {
    hide CardsById, RowBottoms, LowestInto, DistinctBy;
    var byId := CardsById(cards);
    ForwardExact(cards, l);
    assert byId[l.edge.source] == s && byId[l.edge.target] == t;
    RowBottomIsLowest(lines, byId, l);
    var m := RowBottomReached(lines, byId, Top(t));
    LowestIs(cards, lines, m);
    var u := byId[m.edge.source];
    assert LowestInto(cards, lines, Top(t), u);
  }

  lemma LowestIs(cards: seq<Card>, lines: seq<Line>, m: Line)
    requires DistinctBy(cards, CardId) && m in lines && Forward(m, CardsById(cards))
    requires EnteredY(m, CardsById(cards)) in RowBottoms(lines, CardsById(cards))
    requires RowBottoms(lines, CardsById(cards))[EnteredY(m, CardsById(cards))] ==
             Bottom(CardsById(cards)[m.edge.source])
    ensures var byId := CardsById(cards);
            LowestInto(cards, lines, EnteredY(m, byId), byId[m.edge.source])
            && FootOf(byId[m.edge.source]) == Bottom(byId[m.edge.source])
  {
    var byId := CardsById(cards);
    ForwardExact(cards, m);
    hide CardsById, RowBottoms;
    var y := EnteredY(m, byId);
    forall k, w, z | k in lines && GoesDown(cards, k, w, z) && Top(z) == y
      ensures FootOf(w) <= FootOf(byId[m.edge.source]) {
      ForwardExact(cards, k);
      RowBottomIsLowest(lines, byId, k);
    }
    var s, v :| GoesDown(cards, m, s, v);
    assert s == byId[m.edge.source] && v == byId[m.edge.target];
  }
}
