// The check that runs before Run or Publish: clicks, workflow changes, late
// answers and an unmount in any order, and when the answer may be used.
module IssuePreflight {
  import opened Reachability
  import opened WorkflowGraph

  datatype Check = Check(generation: nat, workflowId: Id)

  // The store's open workflow and its subscribers, and the hook's refs and
  // state. `flights` are the checks still awaiting their fetch.
  datatype Hook = Hook(currentId: Option<Id>, subscribers: seq<Check>, generation: nat, active: Option<Check>,
                       isPreflighting: bool, mounted: bool, flights: map<nat, Id>)

  datatype Outcome = Fetched | Threw

  datatype Event =
    | Click(workflowId: Id)
    | WorkflowChange(id: Option<Id>)
    | Unmount
    | Answer(generation: nat, outcome: Outcome)

  datatype Reply = Started(generation: nat) | Busy | Ready | WorkflowChanged | Unavailable | NoReply

  // React drops a state update once the component is gone.
  function Flag(h: Hook, busy: bool): Hook {
    if h.mounted then h.(isPreflighting := busy) else h
  }

  predicate IsActive(h: Hook, generation: nat) {
    h.active.Some? && h.active.value.generation == generation
  }

  function Without(subscribers: seq<Check>, c: Check): seq<Check> {
    if subscribers == [] then []
    else (if subscribers[0] == c then [] else [subscribers[0]]) + Without(subscribers[1..], c)
  }

  function Release(h: Hook, c: Check): Hook {
    Flag(h.(subscribers := Without(h.subscribers, c), active := None), false)
  }

  // One subscriber hearing that the open workflow changed.
  function Hear(h: Hook, c: Check): Hook {
    if IsActive(h, c.generation) && h.currentId != Some(c.workflowId) then Release(h, c) else h
  }

  function HearAll(h: Hook, listeners: seq<Check>): Hook
    decreases |listeners|
  {
    if listeners == [] then h else HearAll(Hear(h, listeners[0]), listeners[1..])
  }

  // The code after the await, for a check that is still the active one or not.
  function Finished(h: Hook, generation: nat): Hook
    requires generation in h.flights
  {
    var landed := h.(flights := h.flights - {generation});
    if IsActive(h, generation) then Release(landed, Check(generation, h.flights[generation])) else landed
  }

  function Next(h: Hook, e: Event): Hook {
    match e
    case Click(w) =>
      if h.active.Some? || h.currentId != Some(w) then h
      else
        var check := Check(h.generation + 1, w);
        Flag(h, true).(generation := check.generation, active := Some(check),
                       subscribers := h.subscribers + [check], flights := h.flights[check.generation := w])
    case WorkflowChange(id) => HearAll(h.(currentId := id), h.subscribers)
    case Unmount =>
      h.(generation := h.generation + 1, active := None, mounted := false,
         subscribers := if h.active.Some? then Without(h.subscribers, h.active.value) else h.subscribers)
    case Answer(g, _) => if g in h.flights then Finished(h, g) else h
  }

  function Says(h: Hook, e: Event): Reply {
    match e
    case Click(w) =>
      if h.active.Some? then Busy
      else if h.currentId != Some(w) then WorkflowChanged
      else Started(h.generation + 1)
    case Answer(g, outcome) =>
      if g !in h.flights then NoReply
      else if !IsActive(h, g) || h.currentId != Some(h.flights[g]) then WorkflowChanged
      else if outcome == Fetched then Ready
      else Unavailable
    case _ => NoReply
  }

  function After(h: Hook, events: seq<Event>): Hook {
    if events == [] then h else Next(After(h, events[..|events| - 1]), events[|events| - 1])
  }

  // --- every reachable state ---

  predicate Opened(h: Hook) {
    h.subscribers == [] && h.active.None? && h.mounted && !h.isPreflighting && h.flights == map[]
  }

  // One subscription, the active check's, whose workflow is the open one; and
  // the control shows busy exactly while a check is active.
  ghost predicate Settled(h: Hook) {
    && h.subscribers == (if h.active.Some? then [h.active.value] else [])
    && (h.active.Some? ==> h.currentId == Some(h.active.value.workflowId))
    && (h.active.Some? ==> h.active.value.generation in h.flights
                           && h.flights[h.active.value.generation] == h.active.value.workflowId)
    && (forall g | g in h.flights :: g <= h.generation)
    && (h.mounted ==> (h.isPreflighting <==> h.active.Some?))
  }

  lemma NextSettled(h: Hook, e: Event)
    requires Settled(h)
    ensures Settled(Next(h, e))
  {
    if h.active.Some? {
      var c := h.active.value;
      assert Without([c], c) == [];
      if e.WorkflowChange? {
        assert HearAll(h.(currentId := e.id), [c]) == Hear(h.(currentId := e.id), c);
      }
    }
  }

  lemma {:induction false} RunSettled(h: Hook, events: seq<Event>)
    requires Opened(h)
    ensures Settled(After(h, events))
  {
    if events != [] {
      RunSettled(h, events[..|events| - 1]);
      NextSettled(After(h, events[..|events| - 1]), events[|events| - 1]);
    }
  }

  // --- what each event does in a reachable state ---

  // `next` has no check under way and no subscription; the control of a mounted
  // component is free again, and that of an unmounted one is left as it was.
  predicate Freed(h: Hook, next: Hook) {
    && next.active == None && next.subscribers == []
    && next.isPreflighting == (!h.mounted && h.isPreflighting)
  }

  // A click is answered `busy` while a check runs, and then `changed` unless it
  // names the open workflow. Any other starts a check under a new number.
  lemma ClickExact(h: Hook, w: Id)
    requires Settled(h)
    ensures var (reply, next) := (Says(h, Click(w)), Next(h, Click(w)));
            if h.active != None then reply == Busy && next == h
            else if h.currentId != Some(w) then reply == WorkflowChanged && next == h
            else
              && reply.Started? && reply.generation > h.generation && reply.generation !in h.flights
              && next.generation == reply.generation && next.active == Some(Check(reply.generation, w))
              && next.subscribers == [Check(reply.generation, w)]
              && next.flights == h.flights[reply.generation := w] && next.currentId == h.currentId
              && next.mounted == h.mounted && next.isPreflighting == (h.mounted || h.isPreflighting)
    ensures h.mounted ==> (Says(h, Click(w)) == Busy <==> h.isPreflighting)
  {
  }

  // A change of workflow drops the check of any other, and nothing else.
  lemma ChangeExact(h: Hook, id: Option<Id>)
    requires Settled(h)
    ensures var next := Next(h, WorkflowChange(id));
            && next.currentId == id && next.generation == h.generation && next.flights == h.flights
            && next.mounted == h.mounted
            && if h.active.Some? && id != Some(h.active.value.workflowId) then Freed(h, next)
               else (next.active == h.active && next.subscribers == h.subscribers
                     && next.isPreflighting == h.isPreflighting)
  {
    if h.active.Some? {
      var c := h.active.value;
      assert Without([c], c) == [];
      assert HearAll(h.(currentId := id), [c]) == Hear(h.(currentId := id), c);
    }
  }

  // An unmount drops the check and outdates every flight; it sets no state.
  lemma UnmountExact(h: Hook)
    requires Settled(h)
    ensures var next := Next(h, Unmount);
            && !next.mounted && next.active == None && next.subscribers == []
            && next.isPreflighting == h.isPreflighting && next.currentId == h.currentId && next.flights == h.flights
            && forall g | g in next.flights :: g < next.generation
  {
    if h.active.Some? { assert Without([h.active.value], h.active.value) == []; }
  }

  // The answer of the running check frees the hook.
  lemma FinishExact(h: Hook, g: nat, outcome: Outcome)
    requires Settled(h) && IsActive(h, g)
    ensures var next := Next(h, Answer(g, outcome));
            && Freed(h, next) && next.flights == h.flights - {g} && next.generation == h.generation
            && next.currentId == h.currentId && next.mounted == h.mounted
  {
    assert Without([h.active.value], h.active.value) == [];
  }

  // --- what an answer means ---

  // The open workflow was `w` all along, and the component stayed.
  ghost predicate Undisturbed(h: Hook, w: Id, events: seq<Event>) {
    && (forall k | 0 <= k <= |events| :: After(h, events[..k]).currentId == Some(w))
    && Unmount !in events
  }

  lemma UndisturbedNext(h: Hook, w: Id, events: seq<Event>)
    requires events != []
    ensures var front := events[..|events| - 1];
            Undisturbed(h, w, events)
            <==> Undisturbed(h, w, front) && After(h, events).currentId == Some(w) && events[|events| - 1] != Unmount
  {
    var n := |events| - 1;
    assert events == events[..n] + [events[n]] && events[..|events|] == events;
    forall k | 0 <= k <= n ensures events[..n][..k] == events[..k] {}
  }

  lemma UndisturbedPrefix(h: Hook, w: Id, events: seq<Event>, k: nat)
    requires k <= |events|
    ensures Undisturbed(h, w, events) ==> Undisturbed(h, w, events[..k])
  {
    forall j | 0 <= j <= k ensures events[..k][..j] == events[..j] {}
  }

  predicate Unanswered(g: nat, events: seq<Event>) {
    forall e | e in events && e.Answer? :: e.generation != g
  }

  // A check stays active exactly while nothing disturbs it; once dropped it is
  // never active again, not even when the workflow is opened again.
  lemma {:induction false} ActiveIffUndisturbed(h: Hook, g: nat, w: Id, events: seq<Event>)
    requires Settled(h) && h.active == Some(Check(g, w)) && Unanswered(g, events)
    ensures var end := After(h, events);
            && Settled(end) && g <= end.generation && g in end.flights && end.flights[g] == w
            && (IsActive(end, g) <==> Undisturbed(h, w, events))
            && (IsActive(end, g) ==> end.active == Some(Check(g, w)))
  {
    if events == [] {
      assert events[..0] == [];
    } else {
      var n := |events| - 1;
      var e := events[n];
      ActiveIffUndisturbed(h, g, w, events[..n]);
      UndisturbedNext(h, w, events);
      StepActive(After(h, events[..n]), g, w, e);
    }
  }

  lemma StepActive(h: Hook, g: nat, w: Id, e: Event)
    requires Settled(h) && g <= h.generation && g in h.flights && h.flights[g] == w
    requires IsActive(h, g) ==> h.active == Some(Check(g, w))
    requires e.Answer? ==> e.generation != g
    ensures var end := Next(h, e);
            && Settled(end) && g <= end.generation && g in end.flights && end.flights[g] == w
            && (IsActive(end, g) <==> IsActive(h, g) && end.currentId == Some(w) && e != Unmount)
            && (IsActive(end, g) ==> end.active == Some(Check(g, w)))
  {
    NextSettled(h, e);
    if e.WorkflowChange? && h.active.Some? {
      assert HearAll(h.(currentId := e.id), [h.active.value]) == Hear(h.(currentId := e.id), h.active.value);
    }
  }

  // Over every interleaving: a check answers `ready` if and only if its fetch
  // came back, its workflow was the open one in every state since the click,
  // and the component was never unmounted.
  lemma ReadyIffUndisturbed(first: Hook, before: seq<Event>, w: Id, later: seq<Event>, outcome: Outcome)
    requires Opened(first)
    requires Says(After(first, before), Click(w)).Started?
    requires Unanswered(Says(After(first, before), Click(w)).generation, later)
    ensures var h := After(first, before);
            var started := Next(h, Click(w));
            Says(After(started, later), Answer(Says(h, Click(w)).generation, outcome))
            == if !Undisturbed(started, w, later) then WorkflowChanged
               else if outcome == Fetched then Ready
               else Unavailable
  {
    hide Undisturbed;
    var h := After(first, before);
    RunSettled(first, before);
    NextSettled(h, Click(w));
    ActiveIffUndisturbed(Next(h, Click(w)), h.generation + 1, w, later);
  }

  // A later check may start only over a dropped one, so no two checks in
  // flight together can both come back ready.
  lemma OverlappedNeverReady(first: Hook, before: seq<Event>, w: Id, later: seq<Event>, k: nat, outcome: Outcome)
    requires Opened(first)
    requires Says(After(first, before), Click(w)).Started?
    requires Unanswered(Says(After(first, before), Click(w)).generation, later)
    requires k < |later| && Says(After(Next(After(first, before), Click(w)), later[..k]), later[k]).Started?
    ensures Says(After(Next(After(first, before), Click(w)), later),
            Answer(Says(After(first, before), Click(w)).generation, outcome))
            == WorkflowChanged
  {
    var h := After(first, before);
    var started := Next(h, Click(w));
    RunSettled(first, before);
    NextSettled(h, Click(w));
    ActiveIffUndisturbed(started, h.generation + 1, w, later[..k]);
    UndisturbedPrefix(started, w, later, k);
    ReadyIffUndisturbed(first, before, w, later, outcome);
  }

  // The answer of a check that is no longer the active one changes nothing but
  // its own flight, whatever check is active now.
  lemma StaleFinishClearsNothing(first: Hook, events: seq<Event>, g: nat, outcome: Outcome)
    requires Opened(first) && !IsActive(After(first, events), g)
    ensures var h := After(first, events);
            Next(h, Answer(g, outcome)) == h.(flights := h.flights - {g})
  {
    var h := After(first, events);
    if g !in h.flights { assert h.flights - {g} == h.flights; }
  }

  // --- the hook ---

  class PreflightHook {
    var currentId: Option<Id>
    var subscribers: seq<Check>
    var generation: nat
    var active: Option<Check>
    var isPreflighting: bool
    var mounted: bool
    ghost var flights: map<nat, Id>

    ghost function State(): Hook
      reads this
    {
      Hook(currentId, subscribers, generation, active, isPreflighting, mounted, flights)
    }

    constructor (open: Option<Id>)
      ensures Opened(State()) && currentId == open && generation == 0
    {
      currentId, subscribers, generation, active := open, [], 0, None;
      isPreflighting, mounted, flights := false, true, map[];
    }

    method SetIsPreflighting(busy: bool)
      modifies `isPreflighting
      ensures State() == Flag(old(State()), busy)
    {
      if mounted {
        isPreflighting := busy;
      }
    }

    method Unsubscribe(check: Check)
      modifies `subscribers
      ensures subscribers == Without(old(subscribers), check)
    {
      subscribers := Without(subscribers, check);
    }

    // The click, up to the await.
    method CheckWorkflowIssues(workflowId: Id) returns (reply: Reply)
      modifies this
      ensures State() == Next(old(State()), Click(workflowId))
      ensures reply == Says(old(State()), Click(workflowId))
    {
      if active.Some? {
        return Busy;
      }
      if currentId != Some(workflowId) {
        return WorkflowChanged;
      }
      generation := generation + 1;
      var check := Check(generation, workflowId);
      active := Some(check);
      SetIsPreflighting(true);
      subscribers := subscribers + [check];
      flights := flights[generation := workflowId];
      reply := Started(generation);
    }

    // The rest of the call, once the fetch has settled.
    method Resume(check: Check, outcome: Outcome) returns (reply: Reply)
      requires check.generation in flights && flights[check.generation] == check.workflowId
      modifies this
      ensures State() == Next(old(State()), Answer(check.generation, outcome))
      ensures reply == Says(old(State()), Answer(check.generation, outcome))
    {
      var current := active.Some? && active.value.generation == check.generation;
      if !current || currentId != Some(check.workflowId) {
        reply := WorkflowChanged;
      } else if outcome == Fetched {
        reply := Ready;
      } else {
        reply := Unavailable;
      }
      flights := flights - {check.generation};
      if current {
        Unsubscribe(check);
        active := None;
        SetIsPreflighting(false);
      }
    }

    // One subscriber's callback.
    method OnWorkflowChange(check: Check)
      modifies this
      ensures State() == Hear(old(State()), check)
    {
      if active.Some? && active.value.generation == check.generation && currentId != Some(check.workflowId) {
        Unsubscribe(check);
        active := None;
        SetIsPreflighting(false);
      }
    }

    method SetCurrentWorkflow(id: Option<Id>)
      modifies this
      ensures State() == Next(old(State()), WorkflowChange(id))
    {
      var listeners := subscribers;
      currentId := id;
      ghost var start := State();
      for i := 0 to |listeners|
        invariant HearAll(start, listeners) == HearAll(State(), listeners[i..])
      {
        OnWorkflowChange(listeners[i]);
        assert listeners[i..][1..] == listeners[i + 1..];
      }
    }

    method Leave()
      modifies this
      ensures State() == Next(old(State()), Unmount)
    {
      generation := generation + 1;
      if active.Some? {
        Unsubscribe(active.value);
      }
      active := None;
      mounted := false;
    }
  }
}
