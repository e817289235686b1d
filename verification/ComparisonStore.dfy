// Comparison requests and sessions, one per workflow: requests, responses,
// navigation and clears in any order, and which response may land.
module ComparisonStore {
  import opened Reachability
  import opened Sequences
  import opened WorkflowGraph
  import opened GroupRules
  import opened ComparisonGraph

  datatype NodeChange = NodeChange(nodeId: Id, removed: bool)

  // What the store reads of a payload. A missing base version has no id.
  datatype Payload = Payload(baseVersionId: Option<Id>, nodeChanges: seq<NodeChange>)

  datatype Subview = Review | History

  datatype Session = Session(payload: Payload, selectedHistoryVersionId: Option<Id>, subview: Subview,
                             positionOverrides: Overrides)

  datatype Status = Idle | Pending | Failed

  datatype Request = Request(epoch: nat, status: Status, baseVersionId: Option<Id>, missingBaseVersionId: Option<Id>)

  // The active address: its workflow, whether it is a Changes route, and the
  // base it names.
  datatype Address = Address(workflowId: Id, changes: bool, baseVersionId: Option<Id>)

  // A canvas change. A drag that moved nothing has no position.
  datatype Change = PositionChange(id: Id, position: Option<Position>) | OtherChange(id: Id)

  datatype Store = Store(sessions: map<Id, Session>, requests: map<Id, Request>, address: Address)

  datatype Event =
    | Begin(workflowId: Id, baseVersionId: Option<Id>)
    | Settle(workflowId: Id, epoch: nat, failed: bool, missingBaseVersionId: Option<Id>)
    | Install(workflowId: Id, epoch: nat, payload: Payload, preserveSession: Option<bool>, selected: Option<Id>)
    | Clear(workflowId: Id)
    | Select(workflowId: Id, versionId: Option<Id>)
    | SetSubview(workflowId: Id, subview: Subview)
    | Move(workflowId: Id, changes: seq<Change>)
    | ResetLayout(workflowId: Id)
    | Navigate(address: Address)

  datatype Reply = Issued(epoch: nat) | Landed | Refused | Done

  function RequestFor(requests: map<Id, Request>, w: Id): Request {
    if w in requests then requests[w] else Request(0, Idle, None, None)
  }

  function RouteBase(a: Address): Option<Id> { if a.changes then a.baseVersionId else None }

  predicate RouteNamesOtherBase(a: Address, w: Id, base: Option<Id>) {
    a.workflowId == w && RouteBase(a).Some? && RouteBase(a) != base
  }

  function OrElse<T>(first: Option<T>, second: Option<T>): Option<T> {
    if first.Some? then first else second
  }

  function Settled(r: Request, a: Address, w: Id, failed: bool, missing: Option<Id>): Request {
    var superseded := r.baseVersionId.Some? && RouteNamesOtherBase(a, w, r.baseVersionId);
    Request(r.epoch, if failed && !superseded then Failed else Idle, r.baseVersionId,
            if superseded then None else missing)
  }

  function Installed(sessions: map<Id, Session>, w: Id, payload: Payload, preserveSession: Option<bool>,
                     selected: Option<Id>): Session {
    var preserve := w in sessions && (preserveSession.None? || preserveSession.value);
    Session(payload,
            OrElse(selected,
                   OrElse(payload.baseVersionId, if preserve then sessions[w].selectedHistoryVersionId else None)),
            if preserve then sessions[w].subview else Review,
            if preserve then sessions[w].positionOverrides else map[])
  }

  function RemovedNodeIds(p: Payload): set<Id> {
    set c | c in p.nodeChanges && c.removed :: c.nodeId
  }

  // The moves among a batch of changes; the last one for a node counts.
  function MovesOf(changes: seq<Change>, removed: set<Id>): Overrides {
    if changes == [] then map[]
    else
      var before, c := MovesOf(changes[..|changes| - 1], removed), changes[|changes| - 1];
      if c.PositionChange? && c.position.Some? && c.id in removed then before[c.id := c.position.value] else before
  }

  predicate LandsNow(s: Store, w: Id, epoch: nat, base: Option<Id>) {
    RequestFor(s.requests, w).epoch == epoch && !RouteNamesOtherBase(s.address, w, base)
  }

  function Next(s: Store, e: Event): Store {
    match e
    case Begin(w, base) => s.(requests :=
      s.requests[w := Request(RequestFor(s.requests, w).epoch + 1, Pending, base, None)])
    case Settle(w, epoch, failed, missing) =>
      var r := RequestFor(s.requests, w);
      if r.epoch != epoch then s else s.(requests := s.requests[w := Settled(r, s.address, w, failed, missing)])
    case Install(w, epoch, payload, preserve, selected) =>
      if LandsNow(s, w, epoch, payload.baseVersionId)
      then s.(sessions := s.sessions[w := Installed(s.sessions, w, payload, preserve, selected)])
      else s
    case Clear(w) =>
      s.(sessions := s.sessions - {w},
        requests := s.requests[w := Request(RequestFor(s.requests, w).epoch + 1, Idle, None, None)])
    case Select(w, version) =>
      if w in s.sessions
      then s.(sessions := s.sessions[w := s.sessions[w].(selectedHistoryVersionId := version)])
      else s
    case SetSubview(w, subview) =>
      if w in s.sessions then s.(sessions := s.sessions[w := s.sessions[w].(subview := subview)]) else s
    case Move(w, changes) =>
      if w !in s.sessions then s
      else
        var moves := MovesOf(changes, RemovedNodeIds(s.sessions[w].payload));
        s.(sessions := s.sessions[w := s.sessions[w].(positionOverrides := s.sessions[w].positionOverrides + moves)])
    case ResetLayout(w) =>
      if w in s.sessions then s.(sessions := s.sessions[w := s.sessions[w].(positionOverrides := map[])]) else s
    case Navigate(address) => s.(address := address)
  }

  function Says(s: Store, e: Event): Reply {
    match e
    case Begin(w, _) => Issued(RequestFor(s.requests, w).epoch + 1)
    case Settle(w, epoch, _, _) => if RequestFor(s.requests, w).epoch == epoch then Landed else Refused
    case Install(w, epoch, payload, _, _) => if LandsNow(s, w, epoch, payload.baseVersionId) then Landed else Refused
    case _ => Done
  }

  function After(s: Store, events: seq<Event>): Store {
    if events == [] then s else Next(After(s, events[..|events| - 1]), events[|events| - 1])
  }

  // --- epochs ---

  function EpochOf(s: Store, w: Id): nat { RequestFor(s.requests, w).epoch }

  // A request or a clear of `w` overtakes every response still on its way.
  predicate Overtakes(e: Event, w: Id) {
    (e.Begin? || e.Clear?) && e.workflowId == w
  }

  function Overtaker(w: Id): Event -> bool { (e: Event) => Overtakes(e, w) }

  function Overtakings(events: seq<Event>, w: Id): nat {
    |Filter(events, Overtaker(w))|
  }

  lemma EpochNext(s: Store, e: Event, w: Id)
    ensures EpochOf(Next(s, e), w) == EpochOf(s, w) + if Overtakes(e, w) then 1 else 0
  {
  }

  // A workflow's epoch is the number of its requests and clears: it never goes
  // back, whatever the responses do.
  lemma {:induction false} EpochCounts(s: Store, events: seq<Event>, w: Id)
    ensures EpochOf(After(s, events), w) == EpochOf(s, w) + Overtakings(events, w)
  {
    if events != [] {
      hide Next, EpochOf;
      var n := |events| - 1;
      EpochCounts(s, events[..n], w);
      EpochNext(After(s, events[..n]), events[n], w);
      assert events == events[..n] + [events[n]];
      FilterAppend(events[..n], events[n], Overtaker(w));
    }
  }

  // No epoch is issued twice to one workflow.
  lemma {:induction false} IssuedOnce(s: Store, before: seq<Event>, between: seq<Event>, w: Id, base: Option<Id>,
                                      base': Option<Id>)
    ensures var first := After(s, before);
            var second := After(Next(first, Begin(w, base)), between);
            Says(first, Begin(w, base)).epoch < Says(second, Begin(w, base')).epoch
  {
    EpochCounts(Next(After(s, before), Begin(w, base)), between, w);
  }

  // The open Changes route of `w` names another base.
  predicate AsksOther(a: Address, w: Id, base: Option<Id>) {
    a.workflowId == w && a.changes && a.baseVersionId.Some? && a.baseVersionId != base
  }

  // A response lands if and only if nothing overtook its request and, for a
  // session, the route it meets names no other base. A response that does not
  // land changes nothing.
  lemma LandsIffNotOvertaken(s: Store, before: seq<Event>, w: Id, base: Option<Id>, later: seq<Event>,
                             payload: Payload, preserve: Option<bool>, selected: Option<Id>, failed: bool,
                             missing: Option<Id>)
    ensures var asked := After(s, before);
            var epoch := Says(asked, Begin(w, base)).epoch;
            var now := After(Next(asked, Begin(w, base)), later);
            var overtaken := exists e :: e in later && Overtakes(e, w);
            var install := Install(w, epoch, payload, preserve, selected);
            var settle := Settle(w, epoch, failed, missing);
            && (Says(now, settle) == Landed <==> !overtaken)
            && (Says(now, install) == Landed
               <==> !overtaken && !AsksOther(now.address, w, payload.baseVersionId))
            && (Says(now, settle) == Refused ==> Next(now, settle) == now)
            && (Says(now, install) == Refused ==> Next(now, install) == now)
  {
    EpochCounts(Next(After(s, before), Begin(w, base)), later, w);
    FilterNone(later, Overtaker(w));
  }

  // --- pending ---

  // Nothing after event `i` answers or overtakes the request it started.
  ghost predicate StillOpen(s: Store, events: seq<Event>, w: Id, i: nat)
    requires i < |events|
  {
    && events[i].Begin? && events[i].workflowId == w
    && forall j | i < j < |events| ::
         !Overtakes(events[j], w)
         && !(events[j].Settle? && events[j].workflowId == w
            && events[j].epoch == Says(After(s, events[..i]), events[i]).epoch)
  }

  lemma OpenHasItsEpoch(s: Store, events: seq<Event>, w: Id, i: nat)
    requires i < |events| && StillOpen(s, events, w, i)
    ensures EpochOf(After(s, events), w) == Says(After(s, events[..i]), events[i]).epoch
  {
    var head, tail := events[..i + 1], events[i + 1..];
    assert events == head + tail && head[..i] == events[..i];
    AfterConcat(s, head, tail);
    EpochCounts(After(s, head), tail, w);
    FilterNone(tail, Overtaker(w));
  }

  lemma {:induction false} AfterConcat(s: Store, before: seq<Event>, later: seq<Event>)
    ensures After(s, before + later) == After(After(s, before), later)
  {
    if later == [] {
      assert before + later == before;
    } else {
      var n := |later| - 1;
      assert (before + later)[..|before| + n] == before + later[..n];
      AfterConcat(s, before, later[..n]);
    }
  }

  // A workflow shows as pending if and only if its newest request has been
  // neither answered nor overtaken.
  lemma {:induction false} PendingIffOpen(s: Store, events: seq<Event>, w: Id)
    requires RequestFor(s.requests, w).status != Pending
    ensures RequestFor(After(s, events).requests, w).status == Pending
       <==> exists i :: 0 <= i < |events| && StillOpen(s, events, w, i)
  {
    if events != [] {
      var n := |events| - 1;
      PendingIffOpen(s, events[..n], w);
      var e := events[n];
      forall i | 0 <= i < n
        ensures StillOpen(s, events, w, i)
           <==> StillOpen(s, events[..n], w, i) && !Overtakes(e, w)
                && !(e.Settle? && e.workflowId == w && e.epoch == EpochOf(After(s, events[..n]), w))
      {
        OpenNext(s, events, w, i);
      }
      assert StillOpen(s, events, w, n) <==> e.Begin? && e.workflowId == w;
    }
  }

  lemma OpenNext(s: Store, events: seq<Event>, w: Id, i: nat)
    requires i < |events| - 1
    ensures var n := |events| - 1;
            var e := events[n];
            StillOpen(s, events, w, i)
            <==> StillOpen(s, events[..n], w, i) && !Overtakes(e, w)
                 && !(e.Settle? && e.workflowId == w && e.epoch == EpochOf(After(s, events[..n]), w))
  {
    var n := |events| - 1;
    assert events[..n][..i] == events[..i];
    assert forall j | i < j < n :: events[..n][j] == events[j];
    if StillOpen(s, events[..n], w, i) { OpenHasItsEpoch(s, events[..n], w, i); }
  }

  // --- one workflow at a time ---

  predicate Concerns(e: Event, w: Id) { e.Navigate? || e.workflowId == w }

  function About(w: Id): Event -> bool { (e: Event) => Concerns(e, w) }

  predicate SameFor(s: Store, t: Store, w: Id) {
    && s.address == t.address
    && RequestFor(s.requests, w) == RequestFor(t.requests, w)
    && (w in s.sessions <==> w in t.sessions)
    && (w in s.sessions ==> s.sessions[w] == t.sessions[w])
  }

  // What a workflow shows is the work of its own events and of navigation:
  // leaving out every event of every other workflow changes nothing for it.
  lemma {:induction false} OthersDoNotInterfere(s: Store, events: seq<Event>, w: Id)
    ensures SameFor(After(s, events), After(s, Filter(events, About(w))), w)
  {
    if events != [] {
      hide Next, SameFor;
      var n := |events| - 1;
      var less := Filter(events[..n], About(w));
      OthersDoNotInterfere(s, events[..n], w);
      SameNext(After(s, events[..n]), After(s, less), events[n], w);
      assert events == events[..n] + [events[n]];
      FilterAppend(events[..n], events[n], About(w));
      if Concerns(events[n], w) {
        assert (less + [events[n]])[..|less|] == less;
        assert After(s, less + [events[n]]) == Next(After(s, less), events[n]);
      } else {
        assert Filter(events, About(w)) == less;
      }
    }
  }

  lemma SameNext(s: Store, t: Store, e: Event, w: Id)
    requires SameFor(s, t, w)
    ensures Concerns(e, w) ==> SameFor(Next(s, e), Next(t, e), w)
    ensures !Concerns(e, w) ==> SameFor(Next(s, e), t, w)
  {
    hide MovesOf, RemovedNodeIds;
  }

  // --- moves ---

  lemma {:induction false} MovesOfRemoved(changes: seq<Change>, removed: set<Id>, id: Id)
    requires id in MovesOf(changes, removed)
    ensures id in removed && PositionChange(id, Some(MovesOf(changes, removed)[id])) in changes
  {
    var n := |changes| - 1;
    assert changes == changes[..n] + [changes[n]];
    if !(changes[n].PositionChange? && changes[n].position.Some? && changes[n].id in removed && changes[n].id == id) {
      MovesOfRemoved(changes[..n], removed, id);
    }
  }

  // Event `k` moved node `id` to `p`, and the comparison on show then listed
  // the node as removed.
  ghost predicate MovedBy(s: Store, events: seq<Event>, w: Id, id: Id, p: Position, k: nat)
    requires k < |events|
  {
    && events[k].Move? && events[k].workflowId == w
    && PositionChange(id, Some(p)) in events[k].changes
    && w in After(s, events[..k]).sessions
    && id in RemovedNodeIds(After(s, events[..k]).sessions[w].payload)
  }

  // Every kept position was asked for by a move of a node that was removed in
  // the comparison then on show.
  lemma {:induction false} OverridesAreMoves(s: Store, events: seq<Event>, w: Id, id: Id)
    requires s.sessions == map[]
    requires w in After(s, events).sessions && id in After(s, events).sessions[w].positionOverrides
    ensures exists k :: 0 <= k < |events|
             && MovedBy(s, events, w, id, After(s, events).sessions[w].positionOverrides[id], k)
  {
    if events != [] {
      var n := |events| - 1;
      var e := events[n];
      var before := After(s, events[..n]);
      var p := After(s, events).sessions[w].positionOverrides[id];
      if w in before.sessions && id in before.sessions[w].positionOverrides
        && before.sessions[w].positionOverrides[id] == p {
        OverridesAreMoves(s, events[..n], w, id);
        var k :| 0 <= k < n && MovedBy(s, events[..n], w, id, p, k);
        assert events[..n][..k] == events[..k];
        assert MovedBy(s, events, w, id, p, k);
      } else {
        assert e.Move? && e.workflowId == w;
        MovesOfRemoved(e.changes, RemovedNodeIds(before.sessions[w].payload), id);
        assert MovedBy(s, events, w, id, p, n);
      }
    }
  }

  // Every kept position names a node the comparison on show lists as removed.
  ghost predicate Fits(s: Store, w: Id) {
    w in s.sessions ==> s.sessions[w].positionOverrides.Keys <= RemovedNodeIds(s.sessions[w].payload)
  }

  // A landing install that keeps the session over a payload which no longer
  // lists some moved node.
  ghost predicate Misfits(s: Store, e: Event, w: Id) {
    && e.Install? && e.workflowId == w && w in s.sessions
    && LandsNow(s, w, e.epoch, e.payload.baseVersionId)
    && (e.preserveSession.None? || e.preserveSession.value)
    && exists id :: id in s.sessions[w].positionOverrides && id !in RemovedNodeIds(e.payload)
  }

  // Exactly those installs leave a position for a node the payload keeps.
  lemma FitsNextIff(s: Store, e: Event, w: Id)
    requires Fits(s, w)
    ensures Fits(Next(s, e), w) <==> !Misfits(s, e, w)
  {
    hide RemovedNodeIds, MovesOf;
    if e.Move? && w in s.sessions {
      var removed := RemovedNodeIds(s.sessions[w].payload);
      forall id | id in MovesOf(e.changes, removed) ensures id in removed {
        MovesOfRemoved(e.changes, removed, id);
      }
    }
  }

  ghost predicate FitsThroughout(s: Store, events: seq<Event>, w: Id) {
    forall k | 0 <= k <= |events| :: Fits(After(s, events[..k]), w)
  }

  ghost predicate NeverMisfits(s: Store, events: seq<Event>, w: Id) {
    forall k | 0 <= k < |events| :: !Misfits(After(s, events[..k]), events[k], w)
  }

  lemma FitsSnoc(s: Store, front: seq<Event>, e: Event, w: Id)
    ensures FitsThroughout(s, front + [e], w) <==> FitsThroughout(s, front, w) && Fits(Next(After(s, front), e), w)
  {
    hide Fits, Next;
    var events := front + [e];
    assert events[..|events|] == events && events[..|front|] == front;
    forall k | 0 <= k <= |front| ensures events[..k] == front[..k] {}
    assert After(s, events) == Next(After(s, front), e);
    if FitsThroughout(s, events, w) { assert Fits(After(s, events[..|events|]), w); }
  }

  lemma MisfitsSnoc(s: Store, front: seq<Event>, e: Event, w: Id)
    ensures NeverMisfits(s, front + [e], w) <==> NeverMisfits(s, front, w) && !Misfits(After(s, front), e, w)
  {
    hide Misfits, After;
    var events := front + [e];
    assert events[..|front|] == front && events[|front|] == e;
    forall k | 0 <= k < |front| ensures events[..k] == front[..k] && events[k] == front[k] {}
    if NeverMisfits(s, events, w) { assert !Misfits(After(s, events[..|front|]), events[|front|], w); }
  }

  // Over a run: every state fits if and only if no install misfits where it
  // lands.
  lemma {:induction false} FitsThroughoutIff(s: Store, events: seq<Event>, w: Id)
    requires Fits(s, w)
    ensures FitsThroughout(s, events, w) <==> NeverMisfits(s, events, w)
    decreases |events|
  {
    hide Fits, Misfits, Next;
    if events != [] {
      var n := |events| - 1;
      var front, e := events[..n], events[n];
      assert events == front + [e];
      FitsThroughoutIff(s, front, w);
      FitsSnoc(s, front, e, w);
      MisfitsSnoc(s, front, e, w);
      if FitsThroughout(s, front, w) {
        assert front[..|front|] == front;
        FitsNextIff(After(s, front), e, w);
      }
    }
  }

  // It happens: a removed node is moved, and the next comparison no longer
  // lists it.
  lemma InheritedMove(w: Id, a: Id, p: Position, at: Address)
    requires !at.changes
    ensures var listing := Payload(None, [NodeChange(a, true)]);
            var events := [Begin(w, None), Install(w, 1, listing, None, None), Move(w, [PositionChange(a, Some(p))]),
                           Begin(w, None), Install(w, 2, Payload(None, []), None, None)];
            var end := After(Store(map[], map[], at), events);
            && w in end.sessions && a in end.sessions[w].positionOverrides
               && a !in RemovedNodeIds(end.sessions[w].payload)
  {
    var listing := Payload(None, [NodeChange(a, true)]);
    var s0 := Store(map[], map[], at);
    var e1, e2, e3 := Begin(w, None), Install(w, 1, listing, None, None), Move(w, [PositionChange(a, Some(p))]);
    var e4, e5 := Begin(w, None), Install(w, 2, Payload(None, []), None, None);
    assert [e1, e2, e3, e4, e5][..4] == [e1, e2, e3, e4] && [e1, e2, e3, e4][..3] == [e1, e2, e3];
    assert [e1, e2, e3][..2] == [e1, e2] && [e1, e2][..1] == [e1] && [e1][..0] == [];
    var s1 := Next(s0, e1);
    var s2 := Next(s1, e2);
    assert After(s0, [e1]) == s1 && After(s0, [e1, e2]) == s2;
    assert s2.sessions[w].payload == listing;
    assert a in RemovedNodeIds(listing) by { assert NodeChange(a, true) in listing.nodeChanges; }
    var change := PositionChange(a, Some(p));
    assert MovesOf([change], RemovedNodeIds(listing)) == map[a := p] by { assert [change][..0] == []; }
    var s3 := Next(s2, e3);
    assert After(s0, [e1, e2, e3]) == s3 && a in s3.sessions[w].positionOverrides;
    var s4 := Next(s3, e4);
    assert After(s0, [e1, e2, e3, e4]) == s4;
    assert After(s0, [e1, e2, e3, e4, e5]) == Next(s4, e5);
  }

  // --- what is shown ---

  // The overrides of the nodes a payload lists as removed.
  function Listed(overrides: Overrides, removed: set<Id>): Overrides {
    map id | id in overrides && id in removed :: overrides[id]
  }

  lemma SlotsAreRemoved(base: seq<Node>, draft: seq<Node>, slot: Slot)
    requires slot in SlotsFrom(StaticNodes(base, draft), NodeIds(draft), 0)
    ensures slot.id in NodeIds(base) - NodeIds(draft)
  {
    hide OrderGroupParentsFirst, Historical;
    var draftIds := NodeIds(draft);
    var gone := Filter(base, NotIn(draftIds));
    var drawn := draft + Map(gone, Historian(base, draftIds));
    SlotsFromFit(StaticNodes(base, draft), draftIds, 0);
    OrderPermutes(drawn);
    var n := StaticNodes(base, draft)[slot.index];
    assert n in drawn && n.id == slot.id && slot.id !in draftIds;
    assert n in draft ==> n.id in draftIds;
    MapHas(gone, Historian(base, draftIds), n);
    HistorianKeepsIds(base, draftIds);
  }

  // A payload lists as removed exactly the base nodes the draft lacks. The graph
  // it shows is then the one its listed overrides alone give, so a position kept
  // for any other node is never shown.
  lemma UnlistedNeverShown(out: seq<Node>, base: seq<Node>, draft: seq<Node>, payload: Payload, overrides: Overrides)
    requires RemovedNodeIds(payload) == NodeIds(base) - NodeIds(draft)
    ensures var statics := StaticNodes(base, draft);
            var slots := SlotsFrom(statics, NodeIds(draft), 0);
            IsMoved(out, statics, slots, overrides)
            <==> IsMoved(out, statics, slots, Listed(overrides, RemovedNodeIds(payload)))
  {
    hide StaticNodes, RemovedNodeIds;
    forall slot | slot in SlotsFrom(StaticNodes(base, draft), NodeIds(draft), 0)
      ensures Wanted(slot, overrides) == Wanted(slot, Listed(overrides, RemovedNodeIds(payload)))
    {
      SlotsAreRemoved(base, draft, slot);
    }
  }

  // --- the cells ---

  class ComparisonSessions {
    var sessions: map<Id, Session>
    var requests: map<Id, Request>
    var address: Address

    ghost function State(): Store
      reads this
    {
      Store(sessions, requests, address)
    }

    constructor (at: Address)
      ensures State() == Store(map[], map[], at)
    {
      sessions, requests, address := map[], map[], at;
    }

    method BeginRequest(workflowId: Id, baseVersionId: Option<Id>) returns (epoch: nat)
      modifies `requests
      ensures State() == Next(old(State()), Begin(workflowId, baseVersionId))
      ensures Issued(epoch) == Says(old(State()), Begin(workflowId, baseVersionId))
    {
      epoch := RequestFor(requests, workflowId).epoch + 1;
      requests := requests[workflowId := Request(epoch, Pending, baseVersionId, None)];
    }

    method SettleRequest(workflowId: Id, epoch: nat, failed: bool, missingBaseVersionId: Option<Id>)
      returns (landed: bool)
      modifies `requests
      ensures State() == Next(old(State()), Settle(workflowId, epoch, failed, missingBaseVersionId))
      ensures landed <==> Says(old(State()), Settle(workflowId, epoch, failed, missingBaseVersionId)) == Landed
    {
      var state := RequestFor(requests, workflowId);
      if state.epoch != epoch {
        return false;
      }
      var superseded := state.baseVersionId.Some? && RouteNamesOtherBase(address, workflowId, state.baseVersionId);
      requests := requests[workflowId := Request(
        state.epoch,
        if failed && !superseded then Failed else Idle,
        state.baseVersionId,
        if superseded then None else missingBaseVersionId)];
      landed := true;
    }

    method InstallComparison(workflowId: Id, epoch: nat, payload: Payload, preserveSession: Option<bool>,
                             selected: Option<Id>)
      returns (landed: bool)
      modifies `sessions
      ensures State() == Next(old(State()), Install(workflowId, epoch, payload, preserveSession, selected))
      ensures landed <==> Says(old(State()), Install(workflowId, epoch, payload, preserveSession, selected)) == Landed
    {
      if RequestFor(requests, workflowId).epoch != epoch
        || RouteNamesOtherBase(address, workflowId, payload.baseVersionId) {
        return false;
      }
      var preserve := workflowId in sessions && (if preserveSession.Some? then preserveSession.value else true);
      var selectedId := if selected.Some? then selected else payload.baseVersionId;
      if selectedId.None? && preserve {
        selectedId := sessions[workflowId].selectedHistoryVersionId;
      }
      sessions := sessions[workflowId := Session(
        payload,
        selectedId,
        if preserve then sessions[workflowId].subview else Review,
        if preserve then sessions[workflowId].positionOverrides else map[])];
      landed := true;
    }

    method ClearComparison(workflowId: Id)
      modifies `sessions, `requests
      ensures State() == Next(old(State()), Clear(workflowId))
    {
      sessions := sessions - {workflowId};
      requests := requests[workflowId := Request(RequestFor(requests, workflowId).epoch + 1, Idle, None, None)];
    }

    // Later changes of one batch overwrite earlier ones, and a batch that moves
    // no removed node leaves the session alone.
    method MoveComparisonNodes(workflowId: Id, changes: seq<Change>)
      modifies `sessions
      ensures State() == Next(old(State()), Move(workflowId, changes))
    {
      if workflowId !in sessions {
        return;
      }
      var session := sessions[workflowId];
      var removed := RemovedNodeIds(session.payload);
      var moves: Overrides := map[];
      for i := 0 to |changes|
        invariant moves == MovesOf(changes[..i], removed)
      {
        assert changes[..i + 1][..i] == changes[..i];
        var change := changes[i];
        if change.PositionChange? && change.position.Some? && change.id in removed {
          moves := moves[change.id := change.position.value];
        }
      }
      assert changes[..|changes|] == changes;
      if moves == map[] {
        assert session.positionOverrides + moves == session.positionOverrides;
        assert sessions == sessions[workflowId := session.(positionOverrides := session.positionOverrides + moves)];
        return;
      }
      sessions := sessions[workflowId := session.(positionOverrides := session.positionOverrides + moves)];
    }

    method SelectHistoryVersion(workflowId: Id, versionId: Option<Id>)
      modifies `sessions
      ensures State() == Next(old(State()), Select(workflowId, versionId))
    {
      if workflowId in sessions {
        sessions := sessions[workflowId := sessions[workflowId].(selectedHistoryVersionId := versionId)];
      }
    }

    method ShowSubview(workflowId: Id, subview: Subview)
      modifies `sessions
      ensures State() == Next(old(State()), SetSubview(workflowId, subview))
    {
      if workflowId in sessions {
        sessions := sessions[workflowId := sessions[workflowId].(subview := subview)];
      }
    }

    method ResetComparisonLayout(workflowId: Id)
      modifies `sessions
      ensures State() == Next(old(State()), ResetLayout(workflowId))
    {
      if workflowId in sessions {
        sessions := sessions[workflowId := sessions[workflowId].(positionOverrides := map[])];
      }
    }
  }
}
