// What each event of the comparison store does to a workflow's request and
// session, field by field.
module ComparisonEvents {
  import opened Reachability
  import opened WorkflowGraph
  import opened ComparisonStore

  predicate OnlyRequest(s: Store, t: Store, w: Id) {
    t.sessions == s.sessions && t.address == s.address && w in t.requests && t.requests - {w} == s.requests - {w}
  }

  predicate OnlySession(s: Store, t: Store, w: Id) {
    t.requests == s.requests && t.address == s.address && w in t.sessions && t.sessions - {w} == s.sessions - {w}
  }

  lemma BeginExact(s: Store, w: Id, base: Option<Id>)
    ensures var t := Next(s, Begin(w, base));
            && OnlyRequest(s, t, w) && t.requests[w].epoch == EpochOf(s, w) + 1 && t.requests[w].status == Pending
            && t.requests[w].baseVersionId == base && t.requests[w].missingBaseVersionId == None
  {
  }

  // A settled request shows an error if and only if it failed and the route does
  // not ask for another base by now. A stale one changes nothing.
  lemma SettleExact(s: Store, w: Id, epoch: nat, failed: bool, missing: Option<Id>)
    ensures var t, was := Next(s, Settle(w, epoch, failed, missing)), RequestFor(s.requests, w);
            if epoch != was.epoch then t == s
            else
              var superseded := was.baseVersionId.Some? && AsksOther(s.address, w, was.baseVersionId);
              && OnlyRequest(s, t, w) && t.requests[w].epoch == was.epoch
              && t.requests[w].baseVersionId == was.baseVersionId
              && (t.requests[w].status == Failed <==> failed && !superseded)
              && (t.requests[w].status == Idle <==> !failed || superseded)
              && t.requests[w].missingBaseVersionId == (if superseded then None else missing)
  {
  }

  // A landing comparison keeps the subview, the moves and the chosen version of
  // the session it replaces, unless it is told not to.
  lemma InstallExact(s: Store, w: Id, epoch: nat, payload: Payload, preserve: Option<bool>, selected: Option<Id>)
    ensures var t := Next(s, Install(w, epoch, payload, preserve, selected));
            if epoch != EpochOf(s, w) || AsksOther(s.address, w, payload.baseVersionId) then t == s
            else
              var kept := w in s.sessions && preserve != Some(false);
              && OnlySession(s, t, w) && t.sessions[w].payload == payload
              && t.sessions[w].subview == (if kept then s.sessions[w].subview else Review)
              && t.sessions[w].positionOverrides == (if kept then s.sessions[w].positionOverrides else map[])
              && t.sessions[w].selectedHistoryVersionId
                 == (if selected.Some? then selected
                     else if payload.baseVersionId.Some? then payload.baseVersionId
                     else if kept then s.sessions[w].selectedHistoryVersionId
                     else None)
  {
  }

  lemma ClearExact(s: Store, w: Id)
    ensures var t := Next(s, Clear(w));
            && t.address == s.address && w !in t.sessions && t.sessions - {w} == s.sessions - {w}
            && w in t.requests && t.requests - {w} == s.requests - {w}
            && t.requests[w] == Request(EpochOf(s, w) + 1, Idle, None, None)
  {
  }

  lemma SelectExact(s: Store, w: Id, version: Option<Id>, subview: Subview, address: Address)
    ensures var selected, shown := Next(s, Select(w, version)), Next(s, SetSubview(w, subview));
            if w !in s.sessions then selected == s && shown == s
            else
              && OnlySession(s, selected, w) && OnlySession(s, shown, w)
              && selected.sessions[w].selectedHistoryVersionId == version && shown.sessions[w].subview == subview
              && selected.sessions[w].subview == s.sessions[w].subview
              && shown.sessions[w].selectedHistoryVersionId == s.sessions[w].selectedHistoryVersionId
              && selected.sessions[w].payload == shown.sessions[w].payload == s.sessions[w].payload
              && selected.sessions[w].positionOverrides == shown.sessions[w].positionOverrides
                 == s.sessions[w].positionOverrides
    ensures var gone := Next(s, Navigate(address));
            gone.address == address && gone.sessions == s.sessions && gone.requests == s.requests
  {
  }

  // --- moves ---

  predicate Removes(p: Payload, id: Id) { exists c :: c in p.nodeChanges && c.removed && c.nodeId == id }

  // The batch's last word on where `id` goes.
  ghost predicate LastMoved(changes: seq<Change>, id: Id, p: Position) {
    exists i :: 0 <= i < |changes| && LastMovedAt(changes, id, p, i)
  }

  ghost predicate LastMovedAt(changes: seq<Change>, id: Id, p: Position, i: nat)
    requires i < |changes|
  {
    && changes[i] == PositionChange(id, Some(p))
    && forall j, q | i < j < |changes| :: changes[j] != PositionChange(id, Some(q))
  }

  lemma {:induction false} MovesExact(changes: seq<Change>, removed: set<Id>, id: Id)
    ensures id in MovesOf(changes, removed) <==> id in removed && exists p :: LastMoved(changes, id, p)
    ensures forall p | LastMoved(changes, id, p) && id in removed :: MovesOf(changes, removed)[id] == p
  {
    if changes != [] {
      var n := |changes| - 1;
      var front, last := changes[..n], changes[n];
      MovesExact(front, removed, id);
      if last.PositionChange? && last.position.Some? && last.id == id {
        assert last == PositionChange(id, Some(last.position.value));
        assert LastMovedAt(changes, id, last.position.value, n) && LastMoved(changes, id, last.position.value);
        forall p | LastMoved(changes, id, p) ensures p == last.position.value {
          var i :| 0 <= i < |changes| && LastMovedAt(changes, id, p, i);
        }
      } else {
        forall p ensures LastMoved(changes, id, p) <==> LastMoved(front, id, p) { LastMovedFront(changes, id, p); }
        hide LastMoved;
      }
    }
  }

  lemma LastMovedFront(changes: seq<Change>, id: Id, p: Position)
    requires changes != []
    requires forall q :: changes[|changes| - 1] != PositionChange(id, Some(q))
    ensures LastMoved(changes, id, p) <==> LastMoved(changes[..|changes| - 1], id, p)
  {
    var front := changes[..|changes| - 1];
    if i :| 0 <= i < |front| && LastMovedAt(front, id, p, i) { assert LastMovedAt(changes, id, p, i); }
    if i :| 0 <= i < |changes| && LastMovedAt(changes, id, p, i) { assert LastMovedAt(front, id, p, i); }
  }

  // A batch moves the removed nodes it names, each to its last place, and leaves
  // every other kept place alone.
  lemma MoveExact(s: Store, w: Id, changes: seq<Change>, id: Id)
    requires w in s.sessions
    ensures var t, was := Next(s, Move(w, changes)), s.sessions[w];
            && OnlySession(s, t, w) && t.sessions[w] == was.(positionOverrides := t.sessions[w].positionOverrides)
            && var now := t.sessions[w].positionOverrides;
            && (forall p | LastMoved(changes, id, p) && Removes(was.payload, id) :: id in now && now[id] == p)
            && ((forall p :: !LastMoved(changes, id, p)) || !Removes(was.payload, id)
                ==> (id in now <==> id in was.positionOverrides)
                    && (id in now ==> now[id] == was.positionOverrides[id]))
  {
    MovesExact(changes, RemovedNodeIds(s.sessions[w].payload), id);
    hide LastMoved, MovesOf;
  }

  lemma ResetExact(s: Store, w: Id)
    ensures var t := Next(s, ResetLayout(w));
            if w !in s.sessions then t == s
            else OnlySession(s, t, w) && t.sessions[w] == s.sessions[w].(positionOverrides := map[])
  {
  }
}
