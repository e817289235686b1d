// The focused Group's caches, keyed by the objects they were built from. They
// never show in what is painted, and painting the same graph again gives the
// same objects.
module FocusedCanvas {
  import opened Reachability
  import opened Sequences
  import opened WorkflowGraph
  import opened CanvasInsertion
  import opened StubPlacement
  import opened StubSeparation
  import opened FocusedGroup

  function Values(cells: seq<CardCell>): seq<Card> { Map(cells, CardOf) }

  function LineValues(cells: seq<LineCell>): seq<Line> { Map(cells, LineOf) }

  // --- what each cache holds ---

  // Written once per key.
  ghost predicate MembersHold(cache: map<CardCell, CardCell>) {
    forall k | k in cache :: cache[k].card == Projected(k.card)
  }

  ghost predicate LinesHold(cache: map<LineCell, LineCell>, paint: LineCell -> Line) {
    forall k | k in cache :: cache[k].line == paint(k)
  }

  // One stub per step and painted id, at whatever place it was last wanted.
  ghost predicate StubsHold(cache: map<(CardCell, Id), CardCell>) {
    forall k | k in cache ::
      && cache[k].card.stub.Some? && !cache[k].card.stub.value.direction.End?
      && k.1 == CardId(cache[k].card)
      && cache[k].card == StubCard(cache[k].card.stub.value.direction, k.0.card, cache[k].card.stub.value.port,
         cache[k].card.node.position)
  }

  ghost predicate EndStubsHold(cache: map<Id, CardCell>) {
    forall id | id in cache ::
      && cache[id].card.stub.Some?
      && id == CardId(cache[id].card)
      && cache[id].card == StubCard(End, cache[id].card, cache[id].card.stub.value.port, cache[id].card.node.position)
  }

  ghost predicate EndLinesHold(cache: map<Id, LineCell>) {
    forall id | id in cache ::
      && id == cache[id].line.edge.id
      && cache[id].line == EndLine(Port(cache[id].line.edge.source, cache[id].line.edge.sourceHandle))
  }

  // One shifted copy per stub, at the last x it was shifted to.
  ghost predicate ShiftsHold(cache: map<CardCell, CardCell>) {
    forall k | k in cache :: cache[k].card == MoveCard(k.card, cache[k].card.node.position.x)
  }

  ghost predicate BendsHold(cache: map<LineCell, LineCell>) {
    forall k | k in cache :: cache[k].line == k.line.(centerY := cache[k].line.centerY)
  }

  // --- what a call left behind ---

  // The cache answers `out` for `keys`, one for one.
  ghost predicate Recalled<K, V>(cache: map<K, V>, keys: seq<K>, out: seq<V>) {
    |out| == |keys| && forall i | 0 <= i < |keys| :: keys[i] in cache && cache[keys[i]] == out[i]
  }

  ghost predicate Extends<K, V>(cache: map<K, V>, bigger: map<K, V>) {
    forall k | k in cache :: k in bigger && bigger[k] == cache[k]
  }

  lemma RecalledNext<K, V>(first: map<K, V>, cache: map<K, V>, keys: seq<K>, out: seq<V>, i: nat, v: V)
    requires i < |keys| && Recalled(cache, keys[..i], out) && Extends(first, cache)
    requires keys[i] in cache ==> v == cache[keys[i]]
    ensures Recalled(cache[keys[i] := v], keys[..i + 1], out + [v]) && Extends(first, cache[keys[i] := v])
  {
  }

  lemma RecalledNothing<K, V>(cache: map<K, V>, keys: seq<K>)
    ensures Recalled(cache, keys[..0], []) && Extends(cache, cache)
  {
  }

  // Wherever the cache had an answer, that answer was given.
  ghost predicate Uses<K, V>(cache: map<K, V>, keys: seq<K>, out: seq<V>) {
    |out| == |keys| && forall i | 0 <= i < |keys| && keys[i] in cache :: out[i] == cache[keys[i]]
  }

  lemma RecalledUses<K, V>(first: map<K, V>, cache: map<K, V>, keys: seq<K>, out: seq<V>)
    requires Recalled(cache, keys, out) && Extends(first, cache)
    ensures Uses(first, keys, out)
  {
  }

  lemma UsesOnce<K, V>(cache: map<K, V>, keys: seq<K>, given: seq<V>, out: seq<V>)
    requires Recalled(cache, keys, given) && Uses(cache, keys, out)
    ensures given == out
  {
  }

  function Held(boundary: map<(CardCell, Id), CardCell>, ends: map<Id, CardCell>, r: Request): Option<CardCell> {
    var id := RequestId(r);
    if r.direction.End? then if id in ends then Some(ends[id]) else None
    else if (r.step, id) in boundary then Some(boundary[(r.step, id)])
    else None
  }

  ghost predicate StubsRecalled(boundary: map<(CardCell, Id), CardCell>, ends: map<Id, CardCell>,
                                requests: seq<Request>, out: seq<CardCell>) {
    && |out| == |requests|
    && forall i | 0 <= i < |requests| :: Held(boundary, ends, requests[i]) == Some(out[i])
        && out[i].card == RequestCard(requests[i])
  }

  ghost predicate UsesStubs(boundary: map<(CardCell, Id), CardCell>, ends: map<Id, CardCell>, requests: seq<Request>,
                            out: seq<CardCell>) {
    && |out| == |requests|
    && forall i | 0 <= i < |requests| && Held(boundary, ends, requests[i]).Some? ::
         Held(boundary, ends, requests[i]).value.card == RequestCard(requests[i])
         ==> out[i] == Held(boundary, ends, requests[i]).value
  }

  lemma UsesStubsOnce(boundary: map<(CardCell, Id), CardCell>, ends: map<Id, CardCell>, requests: seq<Request>,
                      given: seq<CardCell>, out: seq<CardCell>)
    requires StubsRecalled(boundary, ends, requests, given) && UsesStubs(boundary, ends, requests, out)
    ensures given == out
  {
  }

  // An object that needs no change stands for itself; a changed one is in the
  // cache.
  ghost predicate Shown<C, V>(cache: map<C, C>, keys: seq<C>, value: C -> V, stays: V -> bool, want: V -> V,
                              out: seq<C>) {
    && |out| == |keys|
    && forall i | 0 <= i < |keys| ::
         && value(out[i]) == want(value(keys[i]))
         && if stays(value(keys[i])) then out[i] == keys[i]
            else keys[i] in cache && cache[keys[i]] == out[i]
  }

  // What was right in the cache stays.
  ghost predicate KeepsRight<C, V>(first: map<C, C>, cache: map<C, C>, value: C -> V, want: V -> V) {
    forall k | k in first && value(first[k]) == want(value(k)) :: k in cache && cache[k] == first[k]
  }

  lemma ShownNothing<C, V>(cache: map<C, C>, keys: seq<C>, value: C -> V, stays: V -> bool, want: V -> V)
    ensures Shown(cache, keys[..0], value, stays, want, []) && KeepsRight(cache, cache, value, want)
  {
  }

  lemma ShownItself<C, V>(cache: map<C, C>, keys: seq<C>, value: C -> V, stays: V -> bool, want: V -> V, out: seq<C>,
                          i: nat)
    requires i < |keys| && Shown(cache, keys[..i], value, stays, want, out) && stays(value(keys[i]))
             && want(value(keys[i])) == value(keys[i])
    ensures Shown(cache, keys[..i + 1], value, stays, want, out + [keys[i]])
  {
  }

  lemma ShownHit<C, V>(cache: map<C, C>, keys: seq<C>, value: C -> V, stays: V -> bool, want: V -> V, out: seq<C>,
                       i: nat)
    requires i < |keys| && Shown(cache, keys[..i], value, stays, want, out) && !stays(value(keys[i]))
    requires keys[i] in cache && value(cache[keys[i]]) == want(value(keys[i]))
    ensures Shown(cache, keys[..i + 1], value, stays, want, out + [cache[keys[i]]])
  {
  }

  lemma ShownMiss<C, V>(first: map<C, C>, cache: map<C, C>, keys: seq<C>, value: C -> V, stays: V -> bool,
                        want: V -> V, out: seq<C>, i: nat, c: C)
    requires i < |keys| && Shown(cache, keys[..i], value, stays, want, out) && KeepsRight(first, cache, value, want)
    requires !stays(value(keys[i])) && value(c) == want(value(keys[i]))
    requires keys[i] in cache ==> value(cache[keys[i]]) != want(value(keys[i]))
    ensures Shown(cache[keys[i] := c], keys[..i + 1], value, stays, want, out + [c])
    ensures KeepsRight(first, cache[keys[i] := c], value, want)
  {
  }

  ghost predicate UsesShown<C, V>(cache: map<C, C>, keys: seq<C>, value: C -> V, stays: V -> bool, want: V -> V,
                                  out: seq<C>) {
    && |out| == |keys|
    && forall i | 0 <= i < |keys| ::
         if stays(value(keys[i])) then out[i] == keys[i]
         else keys[i] in cache && value(cache[keys[i]]) == want(value(keys[i])) ==> out[i] == cache[keys[i]]
  }

  lemma ShownUses<C, V>(first: map<C, C>, cache: map<C, C>, keys: seq<C>, value: C -> V, stays: V -> bool,
                        want: V -> V, out: seq<C>)
    requires Shown(cache, keys, value, stays, want, out) && KeepsRight(first, cache, value, want)
    ensures UsesShown(first, keys, value, stays, want, out)
  {
  }

  lemma UsesShownOnce<C, V>(cache: map<C, C>, keys: seq<C>, value: C -> V, stays: V -> bool, want: V -> V,
                            given: seq<C>, out: seq<C>)
    requires Shown(cache, keys, value, stays, want, given) && UsesShown(cache, keys, value, stays, want, out)
    ensures given == out
  {
  }

  datatype Contents = Contents(
    projectedMembers: map<CardCell, CardCell>,
    ingressLines: map<LineCell, LineCell>,
    continuationLines: map<LineCell, LineCell>,
    boundaryStubs: map<(CardCell, Id), CardCell>,
    endStubs: map<Id, CardCell>,
    endLines: map<Id, LineCell>,
    separatedStubs: map<CardCell, CardCell>,
    bentLines: map<LineCell, LineCell>)

  // The objects one call painted, step by step.
  datatype Parts = Parts(members: seq<CardCell>, stubs: seq<CardCell>, ingress: seq<LineCell>,
                         continuation: seq<LineCell>,
                         ends: seq<LineCell>)

  datatype Trace = Trace(parts: Parts, shifted: seq<CardCell>, bent: seq<LineCell>)

  function LinesOf(input: Input, p: Parts): seq<LineCell> {
    InteriorLines(input) + p.ingress + p.continuation + p.ends
  }

  // The parts of a painted Group, by value.
  ghost predicate PartsAre(input: Input, p: Parts) {
    && Values(p.members) == MemberCards(input)
    && Values(p.stubs) == Map(Requests(input), RequestCard)
    && LineValues(LinesOf(input, p)) == Lines(input)
  }

  ghost predicate RemembersParts(s: Contents, input: Input, p: Parts) {
    && Recalled(s.projectedMembers, Stored(input), p.members)
    && StubsRecalled(s.boundaryStubs, s.endStubs, Requests(input), p.stubs)
    && Recalled(s.ingressLines, IngressLines(input), p.ingress)
    && Recalled(s.continuationLines, ContinuationLines(input), p.continuation)
    && Recalled(s.endLines, Map(EndPorts(input), EndLineId), p.ends)
  }

  lemma PartsIntro(s: Contents, input: Input, p: Parts)
    requires Recalled(s.projectedMembers, Stored(input), p.members)
    requires StubsRecalled(s.boundaryStubs, s.endStubs, Requests(input), p.stubs)
    requires Recalled(s.ingressLines, IngressLines(input), p.ingress)
    requires Recalled(s.continuationLines, ContinuationLines(input), p.continuation)
    requires Recalled(s.endLines, Map(EndPorts(input), EndLineId), p.ends)
    ensures RemembersParts(s, input, p)
  {
  }

  // Wherever the caches could answer for a part, they were asked.
  ghost predicate UsesParts(s: Contents, input: Input, p: Parts) {
    && Uses(s.projectedMembers, Stored(input), p.members)
    && UsesStubs(s.boundaryStubs, s.endStubs, Requests(input), p.stubs)
    && Uses(s.ingressLines, IngressLines(input), p.ingress)
    && Uses(s.continuationLines, ContinuationLines(input), p.continuation)
    && Uses(s.endLines, Map(EndPorts(input), EndLineId), p.ends)
  }

  lemma UsesPartsIntro(s: Contents, input: Input, p: Parts)
    requires Uses(s.projectedMembers, Stored(input), p.members)
    requires UsesStubs(s.boundaryStubs, s.endStubs, Requests(input), p.stubs)
    requires Uses(s.ingressLines, IngressLines(input), p.ingress)
    requires Uses(s.continuationLines, ContinuationLines(input), p.continuation)
    requires Uses(s.endLines, Map(EndPorts(input), EndLineId), p.ends)
    ensures UsesParts(s, input, p)
  {
  }

  lemma PartsOnce(s: Contents, input: Input, given: Parts, p: Parts)
    requires RemembersParts(s, input, given) && UsesParts(s, input, p)
    ensures given == p
  {
    UsesOnce(s.projectedMembers, Stored(input), given.members, p.members);
    UsesStubsOnce(s.boundaryStubs, s.endStubs, Requests(input), given.stubs, p.stubs);
    UsesOnce(s.ingressLines, IngressLines(input), given.ingress, p.ingress);
    UsesOnce(s.continuationLines, ContinuationLines(input), given.continuation, p.continuation);
    UsesOnce(s.endLines, Map(EndPorts(input), EndLineId), given.ends, p.ends);
  }

  // The caches answer every step of painting `input` with the objects of `t`.
  ghost predicate Remembers(s: Contents, input: Input, t: Trace) {
    && RemembersParts(s, input, t.parts)
    && Shown(s.separatedStubs, t.parts.stubs, CardOf, Unmoved(Shifter(input)), Shifter(input), t.shifted)
    && Shown(s.bentLines, LinesOf(input, t.parts), LineOf, Straights(PaintedCards(input), Lines(input)),
             Bender(PaintedCards(input), Lines(input)), t.bent)
  }

  lemma PartsKept(s: Contents, t: Contents, input: Input, p: Parts)
    requires RemembersParts(s, input, p)
    requires t == s.(separatedStubs := t.separatedStubs, bentLines := t.bentLines)
    ensures RemembersParts(t, input, p)
  {
  }

  lemma TraceIntro(s: Contents, input: Input, t: Trace)
    requires RemembersParts(s, input, t.parts)
    requires Shown(s.separatedStubs, t.parts.stubs, CardOf, Unmoved(Shifter(input)), Shifter(input), t.shifted)
    requires Shown(s.bentLines, LinesOf(input, t.parts), LineOf, Straights(PaintedCards(input), Lines(input)),
                   Bender(PaintedCards(input), Lines(input)), t.bent)
    ensures Remembers(s, input, t)
  {
  }

  ghost predicate UsesTrace(s: Contents, input: Input, t: Trace) {
    && UsesParts(s, input, t.parts)
    && UsesShown(s.separatedStubs, t.parts.stubs, CardOf, Unmoved(Shifter(input)), Shifter(input), t.shifted)
    && UsesShown(s.bentLines, LinesOf(input, t.parts), LineOf, Straights(PaintedCards(input), Lines(input)),
                 Bender(PaintedCards(input), Lines(input)), t.bent)
  }

  lemma UsesTraceIntro(s: Contents, input: Input, t: Trace)
    requires UsesParts(s, input, t.parts)
    requires UsesShown(s.separatedStubs, t.parts.stubs, CardOf, Unmoved(Shifter(input)), Shifter(input), t.shifted)
    requires UsesShown(s.bentLines, LinesOf(input, t.parts), LineOf, Straights(PaintedCards(input), Lines(input)),
                       Bender(PaintedCards(input), Lines(input)), t.bent)
    ensures UsesTrace(s, input, t)
  {
  }

  // Caches that remember how a graph was painted can only paint it again with
  // the same objects.
  lemma TraceOnce(s: Contents, input: Input, given: Trace, t: Trace)
    requires Remembers(s, input, given) && UsesTrace(s, input, t)
    ensures given == t
  {
    PartsOnce(s, input, given.parts, t.parts);
    hide RemembersParts, UsesParts;
    UsesShownOnce(s.separatedStubs, t.parts.stubs, CardOf, Unmoved(Shifter(input)), Shifter(input), given.shifted,
      t.shifted);
    UsesShownOnce(s.bentLines, LinesOf(input, t.parts), LineOf, Straights(PaintedCards(input), Lines(input)),
                  Bender(PaintedCards(input), Lines(input)), given.bent, t.bent);
  }

  datatype Painted = Painted(nodes: seq<CardCell>, edges: seq<LineCell>, anchor: Option<Id>, projectedIds: set<Id>)

  // The graph whose objects are those of the trace.
  function PaintedFrom(input: Input, t: Trace): Painted {
    var n := if |IngressRequests(input)| <= |t.shifted| then |IngressRequests(input)| else |t.shifted|;
    Painted(Assembled(t.shifted, t.parts.members, n), t.bent,
            if Stored(input) == [] then None else Some(CellId(Stored(input)[0])),
            set r | r in Requests(input) :: RequestId(r))
  }

  // What a focused Group with members shows, by value.
  ghost predicate ShowsGroup(p: Painted, input: Input)
    requires Stored(input) != []
  {
    && Values(p.nodes) == PaintedCards(input)
    && LineValues(p.edges) == PaintedLines(input)
    && p.anchor == Some(CellId(Stored(input)[0]))
    && p.projectedIds == (set r | r in Requests(input) :: RequestId(r))
  }

  // --- one cache at a time ---

  // A cached stub at the wanted place and of the wanted kind is the wanted stub:
  // its painted id names the direction and the port.
  lemma HitIsWanted(boundary: map<(CardCell, Id), CardCell>, ends: map<Id, CardCell>, r: Request)
    requires StubsHold(boundary) && EndStubsHold(ends) && Held(boundary, ends, r).Some?
    ensures var c := Held(boundary, ends, r).value.card;
            c == RequestCard(r) <==> c.node.position == r.position && c.node.kind == r.step.card.node.kind
  {
    hide StubIdOf;
    var c := Held(boundary, ends, r).value.card;
    var asked := c.stub.value;
    StubIdInjective(asked.direction, asked.port, r.direction, r.port);
    if r.direction.End? { StubIdInjective(End, asked.port, r.direction, r.port); }
  }

  lemma ShiftHit(cache: map<CardCell, CardCell>, stub: CardCell)
    requires ShiftsHold(cache) && stub in cache
    ensures cache[stub].card == MoveCard(stub.card, cache[stub].card.node.position.x)
  {
  }

  lemma ShiftMiss(cache: map<CardCell, CardCell>, stub: CardCell, shifted: CardCell, x: real)
    requires ShiftsHold(cache) && shifted.card == MoveCard(stub.card, x)
    ensures ShiftsHold(cache[stub := shifted])
    ensures stub in cache && cache[stub].card == shifted.card ==> cache[stub].card.node.position.x == x
  {
  }

  class Caches {
    var projectedMembers: map<CardCell, CardCell>
    var ingressLines: map<LineCell, LineCell>
    var continuationLines: map<LineCell, LineCell>
    var boundaryStubs: map<(CardCell, Id), CardCell>
    var endStubs: map<Id, CardCell>
    var endLines: map<Id, LineCell>
    var separatedStubs: map<CardCell, CardCell>
    var bentLines: map<LineCell, LineCell>

    ghost function State(): Contents
      reads this
    {
      Contents(projectedMembers, ingressLines, continuationLines, boundaryStubs, endStubs, endLines, separatedStubs,
        bentLines)
    }

    ghost predicate Valid()
      reads this
    {
      && MembersHold(projectedMembers) && LinesHold(ingressLines, IngressPainted)
      && LinesHold(continuationLines, ContinuationPainted)
      && StubsHold(boundaryStubs) && EndStubsHold(endStubs) && EndLinesHold(endLines)
      && ShiftsHold(separatedStubs) && BendsHold(bentLines)
    }

    constructor ()
      ensures Valid()
    {
      projectedMembers, ingressLines, continuationLines := map[], map[], map[];
      boundaryStubs, endStubs, endLines := map[], map[], map[];
      separatedStubs, bentLines := map[], map[];
    }

    method ProjectedMember(member: CardCell) returns (projected: CardCell)
      requires MembersHold(projectedMembers)
      modifies `projectedMembers
      ensures MembersHold(projectedMembers) && projected.card == Projected(member.card)
      ensures projectedMembers == old(projectedMembers)[member := projected]
      ensures member in old(projectedMembers) ==> projected == old(projectedMembers)[member]
    {
      if member in projectedMembers {
        return projectedMembers[member];
      }
      projected := new CardCell(Projected(member.card));
      projectedMembers := projectedMembers[member := projected];
    }

    method ProjectedMembers(members: seq<CardCell>) returns (out: seq<CardCell>)
      requires MembersHold(projectedMembers)
      modifies `projectedMembers
      ensures MembersHold(projectedMembers) && Values(out) == Map(members, ProjectedOf)
      ensures Recalled(projectedMembers, members, out)
      ensures Uses(old(projectedMembers), members, out)
    {
      hide MembersHold, Recalled, Uses, Extends, Projected;
      out := [];
      ghost var first := projectedMembers;
      RecalledNothing(first, members);
      for i := 0 to |members|
        invariant MembersHold(projectedMembers) && Recalled(projectedMembers, members[..i], out)
                  && Extends(first, projectedMembers)
        invariant |out| == i && forall j | 0 <= j < i :: out[j].card == Projected(members[j].card)
      {
        ghost var before := projectedMembers;
        var projected := ProjectedMember(members[i]);
        RecalledNext(first, before, members, out, i, projected);
        out := out + [projected];
      }
      assert members[..|members|] == members;
      RecalledUses(first, projectedMembers, members, out);
    }

    method FocusedLine(line: LineCell, ingress: bool) returns (painted: LineCell)
      requires LinesHold(ingressLines, IngressPainted) && LinesHold(continuationLines, ContinuationPainted)
      modifies `ingressLines, `continuationLines
      ensures LinesHold(ingressLines, IngressPainted) && LinesHold(continuationLines, ContinuationPainted)
      ensures painted.line == if ingress then IngressPainted(line) else ContinuationPainted(line)
      ensures ingressLines == if ingress then old(ingressLines)[line := painted] else old(ingressLines)
      ensures continuationLines == if ingress then old(continuationLines) else old(continuationLines)[line := painted]
      ensures var cache := if ingress then old(ingressLines) else old(continuationLines);
              line in cache ==> painted == cache[line]
    {
      hide PaintIngress, PaintContinuation;
      if ingress {
        if line in ingressLines {
          return ingressLines[line];
        }
        painted := new LineCell(PaintIngress(line.line));
        ingressLines := ingressLines[line := painted];
      } else {
        if line in continuationLines {
          return continuationLines[line];
        }
        painted := new LineCell(PaintContinuation(line.line));
        continuationLines := continuationLines[line := painted];
      }
    }

    ghost function LineCache(ingress: bool): map<LineCell, LineCell>
      reads this
    {
      if ingress then ingressLines else continuationLines
    }

    method FocusedLines(lines: seq<LineCell>, ingress: bool) returns (out: seq<LineCell>)
      requires LinesHold(ingressLines, IngressPainted) && LinesHold(continuationLines, ContinuationPainted)
      modifies `ingressLines, `continuationLines
      ensures LinesHold(ingressLines, IngressPainted) && LinesHold(continuationLines, ContinuationPainted)
      ensures if ingress then continuationLines == old(continuationLines) else ingressLines == old(ingressLines)
      ensures LineValues(out) == Map(lines, if ingress then IngressPainted else ContinuationPainted)
      ensures Recalled(if ingress then ingressLines else continuationLines, lines, out)
      ensures Uses(if ingress then old(ingressLines) else old(continuationLines), lines, out)
    {
      hide LinesHold, Recalled, Uses, Extends, IngressPainted, ContinuationPainted;
      out := [];
      ghost var first := LineCache(ingress);
      RecalledNothing(first, lines);
      for i := 0 to |lines|
        invariant LinesHold(ingressLines, IngressPainted) && LinesHold(continuationLines, ContinuationPainted)
        invariant if ingress then continuationLines == old(continuationLines) else ingressLines == old(ingressLines)
        invariant Recalled(LineCache(ingress), lines[..i], out)
        invariant Extends(first, LineCache(ingress))
        invariant |out| == i
        invariant forall j | 0 <= j < i :: out[j].line == if ingress then IngressPainted(lines[j])
                  else ContinuationPainted(lines[j])
      {
        ghost var before := LineCache(ingress);
        var painted := FocusedLine(lines[i], ingress);
        RecalledNext(first, before, lines, out, i, painted);
        out := out + [painted];
      }
      assert lines[..|lines|] == lines;
      RecalledUses(first, LineCache(ingress), lines, out);
    }

    // A stub whose place or kind changed replaces the cached one.
    method BoundaryStub(r: Request) returns (stub: CardCell)
      requires StubsHold(boundaryStubs) && EndStubsHold(endStubs)
      modifies `boundaryStubs, `endStubs
      ensures StubsHold(boundaryStubs) && EndStubsHold(endStubs) && stub.card == RequestCard(r)
      ensures boundaryStubs ==
              (if r.direction.End? then old(boundaryStubs) else old(boundaryStubs)[(r.step, RequestId(r)) := stub])
      ensures endStubs == (if r.direction.End? then old(endStubs)[RequestId(r) := stub] else old(endStubs))
      ensures forall c | Held(old(boundaryStubs), old(endStubs), r) == Some(c) && c.card == RequestCard(r) :: stub == c
    {
      hide StubIdOf;
      var id := RequestId(r);
      var cached := Held(boundaryStubs, endStubs, r);
      if cached.Some? {
        HitIsWanted(boundaryStubs, endStubs, r);
        if cached.value.card.node.position == r.position && cached.value.card.node.kind == r.step.card.node.kind {
          return cached.value;
        }
      }
      stub := new CardCell(RequestCard(r));
      if r.direction.End? {
        endStubs := endStubs[id := stub];
      } else {
        boundaryStubs := boundaryStubs[(r.step, id) := stub];
      }
    }

    method BoundaryStubs(requests: seq<Request>) returns (out: seq<CardCell>)
      requires StubsHold(boundaryStubs) && EndStubsHold(endStubs) && DistinctBy(requests, RequestId)
      modifies `boundaryStubs, `endStubs
      ensures StubsHold(boundaryStubs) && EndStubsHold(endStubs)
      ensures Values(out) == Map(requests, RequestCard) && StubsRecalled(boundaryStubs, endStubs, requests, out)
      ensures UsesStubs(old(boundaryStubs), old(endStubs), requests, out)
    {
      hide StubsHold, EndStubsHold, RequestCard, RequestId;
      out := [];
      for i := 0 to |requests|
        invariant StubsHold(boundaryStubs) && EndStubsHold(endStubs)
        invariant StubsRecalled(boundaryStubs, endStubs, requests[..i], out)
        invariant forall j | i <= j < |requests| ::
          Held(boundaryStubs, endStubs, requests[j]) == Held(old(boundaryStubs), old(endStubs), requests[j])
        invariant UsesStubs(old(boundaryStubs), old(endStubs), requests[..i], out)
      {
        var stub := BoundaryStub(requests[i]);
        forall j | 0 <= j < |requests| && j != i ensures RequestId(requests[j]) != RequestId(requests[i]) {}
        out := out + [stub];
      }
    }

    // The end line an earlier call painted, or a new one.
    method EndLinesFor(ports: seq<Port>) returns (out: seq<LineCell>)
      requires EndLinesHold(endLines) && DistinctBy(ports, ItsPort)
      modifies `endLines
      ensures EndLinesHold(endLines) && LineValues(out) == Map(ports, EndLine)
      ensures Recalled(endLines, Map(ports, EndLineId), out)
      ensures Uses(old(endLines), Map(ports, EndLineId), out)
    {
      hide EndLine, EndLineId, EndLinesHold, Recalled;
      out := [];
      for i := 0 to |ports|
        invariant endLines == old(endLines) && |out| == i
        invariant forall j | 0 <= j < i :: out[j].line == EndLine(ports[j])
        invariant forall j | 0 <= j < i && EndLineId(ports[j]) in endLines :: out[j] == endLines[EndLineId(ports[j])]
      {
        var line: LineCell;
        if EndLineId(ports[i]) in endLines {
          line := endLines[EndLineId(ports[i])];
          EndLineHit(endLines, ports[i]);
        } else {
          line := new LineCell(EndLine(ports[i]));
        }
        out := out + [line];
      }
      endLines := LinesById(out);
      EndLinesReplaced(ports, out);
    }

    // Only this call's end stubs are kept.
    method KeepEndStubs(requests: seq<Request>, stubs: seq<CardCell>, n: nat)
      requires n <= |requests| && forall i | 0 <= i < |requests| :: requests[i].direction.End? <==> n <= i
      requires StubsRecalled(boundaryStubs, endStubs, requests, stubs) && DistinctBy(requests, RequestId)
      modifies `endStubs
      ensures EndStubsHold(endStubs) && StubsRecalled(boundaryStubs, endStubs, requests, stubs)
    {
      EndStubsKept(boundaryStubs, endStubs, requests, stubs, n);
      endStubs := CellsById(stubs[n..]);
    }

    method SeparateStubs(stubs: seq<CardCell>, edges: seq<Edge>, members: seq<Member>, ghost shift: Card -> Card)
      returns (out: seq<CardCell>)
      requires ShiftsHold(separatedStubs)
      requires shift == ShiftBy(Map(Values(stubs), ToStub), edges, members)
      modifies `separatedStubs
      ensures ShiftsHold(separatedStubs) && Values(out) == Map(Values(stubs), shift)
      ensures Shown(separatedStubs, stubs, CardOf, Unmoved(shift), shift, out)
      ensures UsesShown(old(separatedStubs), stubs, CardOf, Unmoved(shift), shift, out)
    {
      hide SeparateBoundaryStubs, Shown, UsesShown, KeepsRight, ShiftBy, ShiftsHold;
      var moved := Separate(Map(Values(stubs), ToStub), edges, members);
      SeparatedIsShift(Values(stubs), edges, members);
      out := [];
      ghost var first := separatedStubs;
      ShownNothing(first, stubs, CardOf, Unmoved(shift), shift);
      for i := 0 to |stubs|
        invariant ShiftsHold(separatedStubs) && Shown(separatedStubs, stubs[..i], CardOf, Unmoved(shift), shift, out)
        invariant KeepsRight(first, separatedStubs, CardOf, shift)
        invariant |out| == i && forall j | 0 <= j < i :: out[j].card == shift(stubs[j].card)
      {
        var stub, x := stubs[i], moved[i].x;
        assert Values(stubs)[i] == stub.card && shift(stub.card) == MoveCard(stub.card, x);
        if x == stub.card.node.position.x {
          ShownItself(separatedStubs, stubs, CardOf, Unmoved(shift), shift, out, i);
          out := out + [stub];
        } else if stub in separatedStubs && separatedStubs[stub].card.node.position.x == x {
          ShiftHit(separatedStubs, stub);
          ShownHit(separatedStubs, stubs, CardOf, Unmoved(shift), shift, out, i);
          out := out + [separatedStubs[stub]];
        } else {
          var shifted := new CardCell(MoveCard(stub.card, x));
          ShiftMiss(separatedStubs, stub, shifted, x);
          ShownMiss(first, separatedStubs, stubs, CardOf, Unmoved(shift), shift, out, i, shifted);
          separatedStubs := separatedStubs[stub := shifted];
          out := out + [shifted];
        }
      }
      assert stubs[..|stubs|] == stubs;
      ShownUses(first, separatedStubs, stubs, CardOf, Unmoved(shift), shift, out);
    }

    method RowBottomsOf(lines: seq<Line>, byId: map<Id, Card>) returns (rowBottoms: map<real, real>)
      ensures rowBottoms == RowBottoms(lines, byId)
    {
      rowBottoms := map[];
      for i := 0 to |lines|
        invariant rowBottoms == RowBottoms(lines[..i], byId)
      {
        assert lines[..i + 1][..i] == lines[..i];
        var line := lines[i];
        if line.edge.source !in byId || line.edge.target !in byId {
          continue;
        }
        var bottom, y := Bottom(byId[line.edge.source]), byId[line.edge.target].node.position.y;
        if bottom < y {
          rowBottoms := rowBottoms[y := Max(if y in rowBottoms then rowBottoms[y] else bottom, bottom)];
        }
      }
      assert lines[..|lines|] == lines;
    }

    method BendLines(nodes: seq<CardCell>, lines: seq<LineCell>, ghost straight: Line -> bool,
                     ghost bend: Line -> Line) returns (out: seq<LineCell>)
      requires BendsHold(bentLines) && bend == Bender(Values(nodes), LineValues(lines))
      requires straight == Straights(Values(nodes), LineValues(lines))
      modifies `bentLines
      ensures BendsHold(bentLines) && LineValues(out) == Map(LineValues(lines), bend)
      ensures Shown(bentLines, lines, LineOf, straight, bend, out)
      ensures UsesShown(old(bentLines), lines, LineOf, straight, bend, out)
    {
      hide RowBottoms, CardsById, Shown, UsesShown, KeepsRight;
      var byId := CardsById(Values(nodes));
      var rowBottoms := RowBottomsOf(LineValues(lines), byId);
      out := [];
      ghost var first := bentLines;
      ShownNothing(first, lines, LineOf, straight, bend);
      for i := 0 to |lines|
        invariant BendsHold(bentLines) && Shown(bentLines, lines[..i], LineOf, straight, bend, out)
        invariant KeepsRight(first, bentLines, LineOf, bend)
        invariant |out| == i && forall j | 0 <= j < i :: out[j].line == bend(lines[j].line)
      {
        var line := lines[i];
        var wanted := Bend(line.line, byId, rowBottoms);
        assert wanted == bend(line.line);
        if Straight(line.line, byId, rowBottoms) {
          ShownItself(bentLines, lines, LineOf, straight, bend, out, i);
          out := out + [line];
        } else if line in bentLines && bentLines[line].line.centerY == wanted.centerY {
          ShownHit(bentLines, lines, LineOf, straight, bend, out, i);
          out := out + [bentLines[line]];
        } else {
          var bent := new LineCell(wanted);
          ShownMiss(first, bentLines, lines, LineOf, straight, bend, out, i, bent);
          bentLines := bentLines[line := bent];
          out := out + [bent];
        }
      }
      assert lines[..|lines|] == lines;
      ShownUses(first, bentLines, lines, LineOf, straight, bend, out);
    }

    // The members, the stubs as first placed, and the lines.
    method GatherParts(input: Input) returns (parts: Parts)
      requires Valid() && UniqueCells(input.nodes)
      modifies `projectedMembers, `ingressLines, `continuationLines, `boundaryStubs, `endStubs, `endLines
      ensures Valid() && PartsAre(input, parts) && RemembersParts(State(), input, parts)
      ensures UsesParts(old(State()), input, parts)
    {
      hide MembersHold, LinesHold, StubsHold, EndStubsHold, EndLinesHold, ShiftsHold, BendsHold;
      hide Recalled, Uses, UsesStubs, StubsRecalled, Requests, IngressRequests, ContinuationRequests, EndPorts, Lines,
        Stored, Map, UniqueCells;
      hide IngressLines, ContinuationLines, InteriorLines, PartsAre, RemembersParts, DistinctBy, Filter;
      var members := ProjectedMembers(Stored(input));
      StubIdsDistinct(input);
      RequestsSplit(input);
      var n := |IngressRequests(input)|;
      var stubs := BoundaryStubs(Requests(input));
      EndPortsDistinct(input);
      var ends := EndLinesFor(EndPorts(input));
      StubsCount(boundaryStubs, endStubs, Requests(input), stubs);
      KeepEndStubs(Requests(input), stubs, n + |ContinuationRequests(input)|);
      var ingress := FocusedLines(IngressLines(input), true);
      var continuation := FocusedLines(ContinuationLines(input), false);
      parts := Parts(members, stubs, ingress, continuation, ends);
      LinesAre(input, parts);
      PartsIntro(State(), input, parts);
      UsesPartsIntro(old(State()), input, parts);
    }

    // The stubs moved apart, the nodes in painting order, and the lines bent.
    method Arrange(input: Input, parts: Parts)
      returns (nodes: seq<CardCell>, bent: seq<LineCell>, ghost shifted: seq<CardCell>)
      requires ShiftsHold(separatedStubs) && BendsHold(bentLines) && PartsAre(input, parts)
      modifies `separatedStubs, `bentLines
      ensures ShiftsHold(separatedStubs) && BendsHold(bentLines)
      ensures |IngressRequests(input)| <= |shifted|
              && nodes == Assembled(shifted, parts.members, |IngressRequests(input)|)
      ensures Values(nodes) == PaintedCards(input)
              && LineValues(bent) == Map(Lines(input), Bender(PaintedCards(input), Lines(input)))
      ensures Shown(separatedStubs, parts.stubs, CardOf, Unmoved(Shifter(input)), Shifter(input), shifted)
      ensures Shown(bentLines, LinesOf(input, parts), LineOf, Straights(PaintedCards(input), Lines(input)),
                    Bender(PaintedCards(input), Lines(input)), bent)
      ensures UsesShown(old(separatedStubs), parts.stubs, CardOf, Unmoved(Shifter(input)), Shifter(input), shifted)
      ensures UsesShown(old(bentLines), LinesOf(input, parts), LineOf, Straights(PaintedCards(input), Lines(input)),
                        Bender(PaintedCards(input), Lines(input)), bent)
    {
      hide ShiftsHold, BendsHold, Shown, UsesShown, IngressRequests, Lines, Shifter, Straights, Bender, ShiftBy;
      hide PaintedCards, Map, PartsAre, LinesOf, MemberCards, Unmoved;
      var n := |IngressRequests(input)|;
      var lines := LinesOf(input, parts);
      ShifterIs(input, parts);
      var moved := SeparateStubs(parts.stubs, Map(LineValues(lines), EdgeOfLine),
        Map(Values(parts.members), ToMember), Shifter(input));
      shifted := moved;
      CardsAre(input, parts, moved);
      nodes := moved[..n] + parts.members + moved[n..];
      BenderIs(input, nodes, lines);
      bent := BendLines(nodes, lines, Straights(PaintedCards(input), Lines(input)),
        Bender(PaintedCards(input), Lines(input)));
    }

    // A Group with members. The objects given back are those of the trace, the
    // caches were used wherever they could answer, and they remember it.
    method PaintGroup(input: Input) returns (painted: Painted, ghost trace: Trace)
      requires Valid() && UniqueCells(input.nodes) && Stored(input) != []
      modifies this
      ensures Valid() && ShowsGroup(painted, input)
      ensures painted == PaintedFrom(input, trace)
      ensures Remembers(State(), input, trace) && UsesTrace(old(State()), input, trace)
    {
      hide MembersHold, LinesHold, StubsHold, EndStubsHold, EndLinesHold, ShiftsHold, BendsHold;
      hide Shown, UsesShown, ShowsGroup, Requests, IngressRequests, Lines, Shifter, Straights, Bender;
      hide PaintedCards, Stored, Map, PartsAre, RemembersParts, UsesParts, LinesOf, Unmoved, UniqueCells, Remembers,
        UsesTrace, PaintedFrom;
      ghost var first := State();
      var parts := GatherParts(input);
      ghost var gathered := State();
      var nodes, bent;
      ghost var shifted;
      nodes, bent, shifted := Arrange(input, parts);
      painted := Painted(nodes, bent, Some(CellId(Stored(input)[0])), set r | r in Requests(input) :: RequestId(r));
      trace := Trace(parts, shifted, bent);
      ShowsIs(input, painted);
      PaintedIs(input, painted, trace);
      PartsKept(gathered, State(), input, parts);
      TraceIntro(State(), input, trace);
      UsesTraceIntro(first, input, trace);
    }

    // The focused Group's graph, by value what it is without caches. Nothing
    // when the id names no frame, and an empty graph when the frame is empty.
    method FocusedGroupCanvasGraph(input: Input) returns (painted: Option<Painted>, ghost trace: Trace)
      requires Valid() && UniqueCells(input.nodes)
      modifies this
      ensures Valid()
      ensures painted.Some? <==> exists c :: c in input.nodes && CellId(c) == input.groupId && IsGroup(c.card.node)
      ensures painted.Some? && Stored(input) == [] ==> painted.value == Painted([], [], None, {})
      ensures painted.Some? && Stored(input) != [] ==>
        && ShowsGroup(painted.value, input)
        && painted.value == PaintedFrom(input, trace)
        && Remembers(State(), input, trace) && UsesTrace(old(State()), input, trace)
    {
      hide Stored, ShowsGroup, Remembers, UsesTrace, PaintedFrom, UniqueCells;
      trace := Trace(Parts([], [], [], [], []), [], []);
      if !exists c :: c in input.nodes && CellId(c) == input.groupId && IsGroup(c.card.node) {
        return None, trace;
      }
      if Stored(input) == [] {
        return Some(Painted([], [], None, {})), trace;
      }
      var graph: Painted;
      graph, trace := PaintGroup(input);
      painted := Some(graph);
    }

    // Asking twice gives every node and edge object again.
    method SameObjectsAgain(input: Input) returns (first: Option<Painted>, second: Option<Painted>)
      requires Valid() && UniqueCells(input.nodes)
      modifies this
      ensures Valid() && first == second
    {
      hide Stored, ShowsGroup, Remembers, UsesTrace, PaintedFrom, UniqueCells, IsGroup;
      ghost var t, u;
      first, t := FocusedGroupCanvasGraph(input);
      ghost var between := State();
      second, u := FocusedGroupCanvasGraph(input);
      if first.Some? && Stored(input) != [] {
        TraceOnce(between, input, t, u);
      }
    }
  }

  lemma RequestsSplit(input: Input)
    requires UniqueCells(input.nodes)
    ensures var n := |IngressRequests(input)| + |ContinuationRequests(input)|;
            && n <= |Requests(input)|
            && forall i | 0 <= i < |Requests(input)| :: Requests(input)[i].direction.End? <==> n <= i
  {
    hide IngressRequests, ContinuationRequests, EndRequests;
    IngressDistinct(input);
    ContinuationDistinct(input);
    EndDistinct(input);
    var a, b, c := IngressRequests(input), ContinuationRequests(input), EndRequests(input);
    forall i | 0 <= i < |a + b + c| ensures (a + b + c)[i].direction.End? <==> |a| + |b| <= i {
      if i < |a| { assert a[i] in a; } else if i < |a| + |b| { assert b[i - |a|] in b; }
        else { assert c[i - |a| - |b|] in c; }
    }
  }

  lemma StubsCount(boundary: map<(CardCell, Id), CardCell>, ends: map<Id, CardCell>, requests: seq<Request>,
                   stubs: seq<CardCell>)
    requires StubsRecalled(boundary, ends, requests, stubs)
    ensures |stubs| == |requests|
  {
  }

  lemma LinesAre(input: Input, p: Parts)
    requires Values(p.members) == Map(Stored(input), ProjectedOf)
             && Values(p.stubs) == Map(Requests(input), RequestCard)
    requires LineValues(p.ingress) == Map(IngressLines(input), IngressPainted)
    requires LineValues(p.continuation) == Map(ContinuationLines(input), ContinuationPainted)
    requires LineValues(p.ends) == Map(EndPorts(input), EndLine)
    ensures PartsAre(input, p)
  {
    hide InteriorLines, IngressLines, ContinuationLines, EndPorts, EndLine, Requests;
    var interior := InteriorLines(input);
    assert LineValues(interior + p.ingress + p.continuation + p.ends)
        == LineValues(interior) + LineValues(p.ingress) + LineValues(p.continuation) + LineValues(p.ends);
  }

  lemma ShifterIs(input: Input, p: Parts)
    requires PartsAre(input, p)
    ensures Shifter(input)
         == ShiftBy(Map(Values(p.stubs), ToStub), Map(LineValues(LinesOf(input, p)), EdgeOfLine),
           Map(Values(p.members), ToMember))
  {
    hide Requests, Lines, ShiftBy, LinesOf, MemberCards;
  }

  lemma CardsAre(input: Input, p: Parts, shifted: seq<CardCell>)
    requires PartsAre(input, p) && Values(shifted) == Map(Values(p.stubs), Shifter(input))
    ensures |IngressRequests(input)| <= |shifted|
    ensures Values(shifted[..|IngressRequests(input)|] + p.members + shifted[|IngressRequests(input)|..]) ==
            PaintedCards(input)
  {
    hide IngressRequests, ContinuationRequests, EndRequests, Shifter, Lines, LinesOf, MemberCards;
    var n := |IngressRequests(input)|;
    assert |Map(Requests(input), RequestCard)| == |Requests(input)| >= n;
    assert Values(shifted) == StubCards(input);
    assert Values(shifted)[..n] == Values(shifted[..n]) && Values(shifted)[n..] == Values(shifted[n..]);
    assert Values(shifted[..n] + p.members + shifted[n..]) ==
           Values(shifted[..n]) + Values(p.members) + Values(shifted[n..]);
  }

  lemma BenderIs(input: Input, nodes: seq<CardCell>, lines: seq<LineCell>)
    requires Values(nodes) == PaintedCards(input) && exists p :: PartsAre(input, p) && lines == LinesOf(input, p)
    ensures LineValues(lines) == Lines(input)
    ensures Bender(PaintedCards(input), Lines(input)) == Bender(Values(nodes), LineValues(lines))
    ensures Straights(PaintedCards(input), Lines(input)) == Straights(Values(nodes), LineValues(lines))
  {
    hide PaintedCards, Lines, Bender, Straights, LinesOf;
  }

  lemma PaintedIs(input: Input, painted: Painted, t: Trace)
    requires Stored(input) != [] && |IngressRequests(input)| <= |t.shifted|
    requires painted.nodes == Assembled(t.shifted, t.parts.members, |IngressRequests(input)|) && painted.edges == t.bent
    requires painted.anchor == Some(CellId(Stored(input)[0]))
             && painted.projectedIds == set r | r in Requests(input) :: RequestId(r)
    ensures painted == PaintedFrom(input, t)
  {
    hide Requests, IngressRequests, Stored;
  }

  lemma ShowsIs(input: Input, painted: Painted)
    requires Stored(input) != []
    requires Values(painted.nodes) == PaintedCards(input)
    requires LineValues(painted.edges) == Map(Lines(input), Bender(PaintedCards(input), Lines(input)))
    requires painted.anchor == Some(CellId(Stored(input)[0]))
             && painted.projectedIds == set r | r in Requests(input) :: RequestId(r)
    ensures ShowsGroup(painted, input)
  {
    hide Lines, PaintedCards, Bender, Requests, Stored;
  }

  function LinesById(cells: seq<LineCell>): map<Id, LineCell> {
    if cells == [] then map[]
      else LinesById(cells[..|cells| - 1])[cells[|cells| - 1].line.edge.id := cells[|cells| - 1]]
  }

  lemma EndLineHit(cache: map<Id, LineCell>, p: Port)
    requires EndLinesHold(cache) && EndLineId(p) in cache
    ensures cache[EndLineId(p)].line == EndLine(p)
  {
    var e := cache[EndLineId(p)].line.edge;
    EndLineIdInjective(Port(e.source, e.sourceHandle), p);
  }

  lemma {:induction false} LinesByIdHas(cells: seq<LineCell>, i: nat)
    requires i < |cells| && forall j, k | 0 <= j < k < |cells| :: cells[j].line.edge.id != cells[k].line.edge.id
    ensures cells[i].line.edge.id in LinesById(cells) && LinesById(cells)[cells[i].line.edge.id] == cells[i]
  {
    if i < |cells| - 1 { LinesByIdHas(cells[..|cells| - 1], i); }
  }

  lemma {:induction false} LinesByIdFrom(cells: seq<LineCell>)
    ensures forall id | id in LinesById(cells) :: LinesById(cells)[id] in cells
             && LinesById(cells)[id].line.edge.id == id
  {
    if cells != [] { LinesByIdFrom(cells[..|cells| - 1]); }
  }

  lemma EndLinesReplaced(ports: seq<Port>, out: seq<LineCell>)
    requires DistinctBy(ports, ItsPort) && |out| == |ports|
             && forall j | 0 <= j < |ports| :: out[j].line == EndLine(ports[j])
    ensures Recalled(LinesById(out), Map(ports, EndLineId), out) && EndLinesHold(LinesById(out))
  {
    hide EndLineId, LinesById;
    forall j, k | 0 <= j < k < |out| ensures out[j].line.edge.id != out[k].line.edge.id {
      assert ItsPort(ports[j]) != ItsPort(ports[k]);
      EndLineIdInjective(ports[j], ports[k]);
    }
    forall j | 0 <= j < |out|
      ensures EndLineId(ports[j]) in LinesById(out) && LinesById(out)[EndLineId(ports[j])] == out[j] {
      LinesByIdHas(out, j);
    }
    LinesByIdFrom(out);
  }

  lemma {:induction false} CellsByIdHas(cells: seq<CardCell>, i: nat)
    requires i < |cells| && DistinctBy(cells, CellId)
    ensures CellId(cells[i]) in CellsById(cells) && CellsById(cells)[CellId(cells[i])] == cells[i]
  {
    if i < |cells| - 1 {
      assert CellId(cells[i]) != CellId(cells[|cells| - 1]);
      CellsByIdHas(cells[..|cells| - 1], i);
    }
  }

  lemma {:induction false} CellsByIdFrom(cells: seq<CardCell>)
    ensures forall id | id in CellsById(cells) :: CellsById(cells)[id] in cells && CellId(CellsById(cells)[id]) == id
  {
    if cells != [] { CellsByIdFrom(cells[..|cells| - 1]); }
  }

  lemma EndStubsKept(boundary: map<(CardCell, Id), CardCell>, ends: map<Id, CardCell>, requests: seq<Request>,
                     stubs: seq<CardCell>, n: nat)
    requires n <= |requests| && forall i | 0 <= i < |requests| :: requests[i].direction.End? <==> n <= i
    requires StubsRecalled(boundary, ends, requests, stubs) && DistinctBy(requests, RequestId)
    ensures EndStubsHold(CellsById(stubs[n..])) && StubsRecalled(boundary, CellsById(stubs[n..]), requests, stubs)
  {
    hide StubIdOf, CellsById;
    var kept := stubs[n..];
    forall j, k | 0 <= j < k < |kept| ensures CellId(kept[j]) != CellId(kept[k]) {
      assert RequestId(requests[n + j]) != RequestId(requests[n + k]);
    }
    forall i | n <= i < |requests|
      ensures Held(boundary, CellsById(kept), requests[i]) == Some(stubs[i])
    {
      assert kept[i - n] == stubs[i];
      CellsByIdHas(kept, i - n);
    }
    CellsByIdFrom(kept);
    forall id | id in CellsById(kept)
      ensures var c := CellsById(kept)[id].card;
              c.stub.Some? && id == CardId(c) && c == StubCard(End, c, c.stub.value.port, c.node.position)
    {
      var j :| 0 <= j < |kept| && kept[j] == CellsById(kept)[id];
      assert stubs[n + j].card == RequestCard(requests[n + j]);
    }
  }

  lemma SeparatedIsShift(cards: seq<Card>, edges: seq<Edge>, members: seq<Member>)
    ensures var moved := SeparateBoundaryStubs(Map(cards, ToStub), edges, members);
            && |moved| == |cards|
            && forall i | 0 <= i < |cards| ::
               ShiftBy(Map(cards, ToStub), edges, members)(cards[i]) == MoveCard(cards[i], moved[i].x)
  {
  }

  // On the painted canvas every two stubs are the gap apart, and so is every
  // stub from every member.
  lemma PaintedStubsApart(input: Input, i: nat, j: nat)
    requires UniqueCells(input.nodes) && i < j < |Requests(input)|
    ensures Apart(ToStub(StubCards(input)[i]), ToStub(StubCards(input)[j]))
    ensures forall m | m in MemberCards(input) ::
      && ApartFromMember(ToStub(StubCards(input)[i]), ToMember(m))
      && ApartFromMember(ToStub(StubCards(input)[j]), ToMember(m))
  {
    hide Requests, Lines, MemberCards, SeparateBoundaryStubs, Apart, ApartFromMember, ShiftBy, RequestCard, ToMember;
    var cards := Map(Requests(input), RequestCard);
    var stubs, edges, members := Map(cards, ToStub), Map(Lines(input), EdgeOfLine), Map(MemberCards(input), ToMember);
    StubIdsDistinct(input);
    RequestsDistinctStubs(Requests(input));
    SeparatedIsShift(cards, edges, members);
    StubsSeparated(stubs, edges, members, i, j);
    KeptInRow(stubs, edges, members, i);
    KeptInRow(stubs, edges, members, j);
    forall m | m in MemberCards(input)
      ensures ApartFromMember(ToStub(StubCards(input)[i]), ToMember(m))
              && ApartFromMember(ToStub(StubCards(input)[j]), ToMember(m))
    {
      MapHas(MemberCards(input), ToMember, ToMember(m));
      StubsClearMembers(stubs, edges, members, i, ToMember(m));
      StubsClearMembers(stubs, edges, members, j, ToMember(m));
    }
  }

  lemma KeptInRow(stubs: seq<Stub>, edges: seq<Edge>, members: seq<Member>, i: nat)
    requires i < |stubs|
    ensures var out := SeparateBoundaryStubs(stubs, edges, members);
            |out| == |stubs| && out[i] == stubs[i].(x := out[i].x)
  {
  }

  lemma RequestsDistinctStubs(requests: seq<Request>)
    requires DistinctBy(requests, RequestId)
    ensures DistinctBy(Map(Map(requests, RequestCard), ToStub), StubId)
  {
  }
}
