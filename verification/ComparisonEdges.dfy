// Display ids of a comparison's edges: the search for a free name, and why no
// two displayed edges share an id.
module ComparisonEdges {
  import opened Reachability
  import opened Sequences
  import opened WorkflowGraph

  // --- free names ---

  function Digit(d: nat): char
    requires d < 10
  {
    ['0', '1', '2', '3', '4', '5', '6', '7', '8', '9'][d]
  }

  function Decimal(n: nat): string {
    if n < 10 then [Digit(n)] else Decimal(n / 10) + [Digit(n % 10)]
  }

  lemma {:induction false} DecimalInjective(m: nat, n: nat)
    requires Decimal(m) == Decimal(n)
    ensures m == n
  {
    var a, b := Decimal(m), Decimal(n);
    assert a[|a| - 1] == b[|b| - 1];
    assert a[|a| - 1] == Digit(m % 10) && b[|b| - 1] == Digit(n % 10);
    assert m % 10 == n % 10;
    if m >= 10 && n >= 10 {
      assert a[..|a| - 1] == Decimal(m / 10) && b[..|b| - 1] == Decimal(n / 10);
      DecimalInjective(m / 10, n / 10);
    } else if m >= 10 {
      DecimalNonempty(m / 10);
    } else if n >= 10 {
      DecimalNonempty(n / 10);
    }
  }

  lemma DecimalNonempty(n: nat)
    ensures Decimal(n) != ""
  {
  }

  // The k-th name tried: the prefix alone, then numbered from one.
  function Name(prefix: string, k: nat): string {
    if k == 0 then prefix else prefix + ":" + Decimal(k)
  }

  lemma NameInjective(prefix: string, j: nat, k: nat)
    requires Name(prefix, j) == Name(prefix, k)
    ensures j == k
  {
    if j > 0 && k > 0 {
      var n := |prefix| + 1;
      assert Name(prefix, j)[n..] == Decimal(j) && Name(prefix, k)[n..] == Decimal(k);
      DecimalInjective(j, k);
    }
  }

  function NamesBelow(prefix: string, k: nat): set<string> {
    set j | 0 <= j < k :: Name(prefix, j)
  }

  lemma {:induction false} NamesCount(prefix: string, k: nat)
    ensures |NamesBelow(prefix, k)| == k
  {
    hide Name;
    if k > 0 {
      NamesCount(prefix, k - 1);
      assert Name(prefix, k - 1) !in NamesBelow(prefix, k - 1) by {
        forall j | 0 <= j < k - 1 ensures Name(prefix, j) != Name(prefix, k - 1) {
          if Name(prefix, j) == Name(prefix, k - 1) { NameInjective(prefix, j, k - 1); }
        }
      }
      assert NamesBelow(prefix, k) == NamesBelow(prefix, k - 1) + {Name(prefix, k - 1)};
    } else {
      assert NamesBelow(prefix, k) == {};
    }
  }

  lemma SubsetSize<T>(a: set<T>, b: set<T>)
    requires a <= b
    ensures |a| <= |b|
  {
    assert b == a + (b - a);
  }

  const REMOVED_PREFIX := "comparison:removed:"

  // The first free name. The tried names are distinct and all taken, so there
  // are no more of them than taken ids, and the search ends.
  method AllocateRemovedEdgeId(sourceId: Id, taken: set<Id>) returns (candidate: Id, taken': set<Id>)
    ensures FirstFree(candidate, sourceId, taken) && taken' == taken + {candidate}
  {
    var prefix := REMOVED_PREFIX + sourceId;
    candidate := prefix;
    var suffix := 1;
    while candidate in taken
      invariant suffix >= 1 && candidate == Name(prefix, suffix - 1)
      invariant NamesBelow(prefix, suffix - 1) <= taken
      decreases |taken| - suffix
    {
      assert NamesBelow(prefix, suffix) == NamesBelow(prefix, suffix - 1) + {candidate};
      NamesCount(prefix, suffix);
      SubsetSize(NamesBelow(prefix, suffix), taken);
      candidate := prefix + ":" + Decimal(suffix);
      suffix := suffix + 1;
    }
    forall j | 0 <= j < suffix - 1 ensures Name(prefix, j) in taken {
      assert Name(prefix, j) in NamesBelow(prefix, suffix - 1);
    }
    taken' := taken + {candidate};
  }

  // --- displayed edges ---

  datatype EdgeChange = EdgeChange(edgeId: Id, added: bool)

  datatype Mark = Unmarked | MarkedAdded(sourceId: Id) | MarkedRemoved(sourceId: Id)

  // `edge` carries the displayed id, `mark` the stored one.
  datatype ShownEdge = ShownEdge(edge: Edge, mark: Mark)

  function ShownId(s: ShownEdge): Id { s.edge.id }

  function AddedIds(changes: seq<EdgeChange>): set<Id> {
    set c | c in changes && c.added :: c.edgeId
  }

  // A set in insertion order.
  function RemovedIds(changes: seq<EdgeChange>): seq<Id> {
    if changes == [] then []
    else
      var before, last := RemovedIds(changes[..|changes| - 1]), changes[|changes| - 1];
      if last.added || last.edgeId in before then before else before + [last.edgeId]
  }

  lemma {:induction false} RemovedIdsDistinct(changes: seq<EdgeChange>)
    ensures Distinct(RemovedIds(changes))
    ensures forall id :: id in RemovedIds(changes) <==> exists c :: c in changes && !c.added && c.edgeId == id
  {
    if changes != [] {
      var front, last := changes[..|changes| - 1], changes[|changes| - 1];
      RemovedIdsDistinct(front);
      assert changes == front + [last];
    }
  }

  // They come in the order of the changes that first remove them.
  lemma {:induction false} RemovedInOrder(changes: seq<EdgeChange>, p: nat, q: nat) returns (i: nat)
    requires p < q < |RemovedIds(changes)|
    ensures i < |changes| && !changes[i].added && changes[i].edgeId == RemovedIds(changes)[p]
    ensures forall j | 0 <= j <= i :: changes[j].added || changes[j].edgeId != RemovedIds(changes)[q]
  {
    var front, last := changes[..|changes| - 1], changes[|changes| - 1];
    if q < |RemovedIds(front)| {
      i := RemovedInOrder(front, p, q);
    } else {
      RemovedIdsDistinct(front);
      assert RemovedIds(front)[p] in RemovedIds(front);
      i :| 0 <= i < |front| && !front[i].added && front[i].edgeId == RemovedIds(front)[p];
      forall j | 0 <= j <= i ensures changes[j].added || changes[j].edgeId != last.edgeId { assert front[j] in front; }
    }
  }

  function ShownDraft(draft: seq<Edge>, changes: seq<EdgeChange>): seq<ShownEdge> {
    Map(draft, (e: Edge) => ShownEdge(e, if e.id in AddedIds(changes) then MarkedAdded(e.id) else Unmarked))
  }

  function ShownIds(shown: seq<ShownEdge>): set<Id> { set s | s in shown :: s.edge.id }

  // The first name for `sourceId` that is not taken.
  ghost predicate FirstFree(candidate: Id, sourceId: Id, taken: set<Id>) {
    exists k: nat :: candidate == Name(REMOVED_PREFIX + sourceId, k) && candidate !in taken
              && forall j | 0 <= j < k :: Name(REMOVED_PREFIX + sourceId, j) in taken
  }

  lemma FirstFreeUnique(c: Id, d: Id, sourceId: Id, taken: set<Id>)
    requires FirstFree(c, sourceId, taken) && FirstFree(d, sourceId, taken)
    ensures c == d
  {
    var prefix := REMOVED_PREFIX + sourceId;
    var j: nat :| c == Name(prefix, j) && c !in taken && forall i | 0 <= i < j :: Name(prefix, i) in taken;
    var k: nat :| d == Name(prefix, k) && d !in taken && forall i | 0 <= i < k :: Name(prefix, i) in taken;
    assert j < k ==> Name(prefix, j) in taken;
    assert k < j ==> Name(prefix, k) in taken;
  }

  // How the removed base edge after `before` is shown: under its own id unless
  // a draft edge has it, and then under the first free name.
  ghost predicate ShowsRemoved(s: ShownEdge, before: seq<ShownEdge>, base: seq<Edge>, draft: seq<Edge>) {
    exists e :: e in base && s.mark == MarkedRemoved(e.id) && s.edge == e.(id := s.edge.id)
             && if e.id in EdgeIds(draft)
                then FirstFree(s.edge.id, e.id, EdgeIds(base) + EdgeIds(draft) + ShownIds(before))
                else s.edge.id == e.id
  }

  function SourceOf(s: ShownEdge): Id {
    match s.mark
    case Unmarked => s.edge.id
    case MarkedAdded(id) => id
    case MarkedRemoved(id) => id
  }

  function InBase(base: seq<Edge>): Id -> bool {
    var ids := EdgeIds(base);
    (id: Id) => id in ids
  }

  // The removed edges as listed: one for each removed id the base has, in the
  // order the changes name them.
  ghost predicate ListsRemoved(shown: seq<ShownEdge>, base: seq<Edge>, draft: seq<Edge>, removed: seq<Id>) {
    && Map(shown, SourceOf) == Filter(removed, InBase(base))
    && forall i | 0 <= i < |shown| :: ShowsRemoved(shown[i], shown[..i], base, draft)
  }

  // Everything the displayed edges are: the draft's under their own ids, then
  // the removed ones, no two under one id.
  ghost predicate ShowsEdges(shown: seq<ShownEdge>, base: seq<Edge>, draft: seq<Edge>, changes: seq<EdgeChange>) {
    && |shown| >= |draft| && shown[..|draft|] == ShownDraft(draft, changes)
    && ListsRemoved(shown[|draft|..], base, draft, RemovedIds(changes))
    && DistinctBy(shown, ShownId)
  }

  // --- the loop ---

  // The id sets kept beside the list.
  ghost predicate Tracks(shown: seq<ShownEdge>, base: seq<Edge>, draft: seq<Edge>, taken: set<Id>, emitted: set<Id>) {
    && DistinctBy(shown, ShownId)
    && (forall s | s in shown :: s.edge.id !in EdgeIds(draft))
    && taken == EdgeIds(base) + EdgeIds(draft) + ShownIds(shown)
    && emitted == EdgeIds(draft) + ShownIds(shown)
  }

  lemma AppendShown(shown: seq<ShownEdge>, s: ShownEdge)
    ensures ShownIds(shown + [s]) == ShownIds(shown) + {s.edge.id}
  {
    assert s in shown + [s];
    forall t | t in shown ensures t in shown + [s] {}
  }

  lemma TrackNext(shown: seq<ShownEdge>, base: seq<Edge>, draft: seq<Edge>, taken: set<Id>, emitted: set<Id>,
                  s: ShownEdge)
    requires Tracks(shown, base, draft, taken, emitted) && s.edge.id !in emitted
    ensures Tracks(shown + [s], base, draft, taken + {s.edge.id}, emitted + {s.edge.id})
  {
    AppendShown(shown, s);
    forall t, u | t in shown && u in [s] ensures ShownId(t) != ShownId(u) { assert t.edge.id in ShownIds(shown); }
    DistinctByConcat(shown, [s], ShownId);
  }

  // Of the edges listed so far, none took the id of a base edge still to come.
  lemma EmittedIsDraft(shown: seq<ShownEdge>, base: seq<Edge>, draft: seq<Edge>, removed: seq<Id>, emitted: set<Id>,
                       e: Edge)
    requires UniqueEdgeIds(base) && ListsRemoved(shown, base, draft, removed)
    requires emitted == EdgeIds(draft) + ShownIds(shown) && e in base && e.id !in removed
    ensures e.id in emitted <==> e.id in EdgeIds(draft)
  {
    assert e.id in EdgeIds(base);
    forall i | 0 <= i < |shown| ensures shown[i].edge.id != e.id {
      assert ShowsRemoved(shown[i], shown[..i], base, draft);
      assert SourceOf(shown[i]) in removed by { assert Map(shown, SourceOf)[i] in Filter(removed, InBase(base)); }
    }
    forall s | s in shown ensures s.edge.id != e.id {
      var i :| 0 <= i < |shown| && shown[i] == s;
    }
  }

  lemma ListNext(shown: seq<ShownEdge>, base: seq<Edge>, draft: seq<Edge>, removed: seq<Id>, s: ShownEdge, id: Id)
    requires ListsRemoved(shown, base, draft, removed) && id in EdgeIds(base)
    requires ShowsRemoved(s, shown, base, draft) && s.mark == MarkedRemoved(id)
    ensures ListsRemoved(shown + [s], base, draft, removed + [id])
  {
    hide ShowsRemoved;
    var out := shown + [s];
    FilterAppend(removed, id, InBase(base));
    assert Map(out, SourceOf) == Map(shown, SourceOf) + [id];
    forall i | 0 <= i < |out| ensures ShowsRemoved(out[i], out[..i], base, draft) {
      assert out[..i] == shown[..i];
      assert shown[..|shown|] == shown;
    }
  }

  lemma SkipMissing(shown: seq<ShownEdge>, base: seq<Edge>, draft: seq<Edge>, removed: seq<Id>, id: Id)
    requires ListsRemoved(shown, base, draft, removed) && id !in EdgeIds(base)
    ensures ListsRemoved(shown, base, draft, removed + [id])
  {
    FilterAppend(removed, id, InBase(base));
  }

  lemma EmitNext(shown: seq<ShownEdge>, base: seq<Edge>, draft: seq<Edge>, removed: seq<Id>,
                 taken: set<Id>, emitted: set<Id>, e: Edge, displayId: Id)
    requires UniqueEdgeIds(base) && ListsRemoved(shown, base, draft, removed)
             && Tracks(shown, base, draft, taken, emitted)
    requires e in base && e.id !in removed
    requires if e.id in emitted then FirstFree(displayId, e.id, taken) else displayId == e.id
    ensures var s := ShownEdge(e.(id := displayId), MarkedRemoved(e.id));
            && ListsRemoved(shown + [s], base, draft, removed + [e.id])
            && Tracks(shown + [s], base, draft, taken + {displayId}, emitted + {displayId})
  {
    hide FirstFree;
    var s := ShownEdge(e.(id := displayId), MarkedRemoved(e.id));
    EmittedIsDraft(shown, base, draft, removed, emitted, e);
    assert e.id in EdgeIds(base);
    assert ShowsRemoved(s, shown, base, draft);
    ListNext(shown, base, draft, removed, s, e.id);
    if e.id in emitted { FreeIsNew(displayId, e.id, taken); }
    TrackNext(shown, base, draft, taken, emitted, s);
  }

  lemma FreeIsNew(candidate: Id, sourceId: Id, taken: set<Id>)
    requires FirstFree(candidate, sourceId, taken)
    ensures candidate !in taken
  {
  }

  // The draft edges first under their own ids, then every removed base edge once.
  method DisplayEdges(base: seq<Edge>, draft: seq<Edge>, changes: seq<EdgeChange>) returns (shown: seq<ShownEdge>)
    requires UniqueEdgeIds(base) && UniqueEdgeIds(draft)
    ensures ShowsEdges(shown, base, draft, changes)
  {
    hide ShowsRemoved, ListsRemoved, ShownDraft, Tracks, FirstFree, ShowsEdges;
    StartListing(base, draft);
    var removedIds := RemovedIds(changes);
    RemovedIdsDistinct(changes);
    var taken := EdgeIds(base) + EdgeIds(draft);
    var emitted := EdgeIds(draft);
    var extra: seq<ShownEdge> := [];
    for i := 0 to |removedIds|
      invariant ListsRemoved(extra, base, draft, removedIds[..i]) && Tracks(extra, base, draft, taken, emitted)
      invariant EdgeIds(base) <= taken
    {
      assert removedIds[..i + 1] == removedIds[..i] + [removedIds[i]];
      var found := LookupEdge(base, removedIds[i]);
      if found.None? {
        SkipMissing(extra, base, draft, removedIds[..i], removedIds[i]);
        continue;
      }
      var edge := found.value;
      var displayId, taken' := edge.id, taken;
      if edge.id in emitted {
        displayId, taken' := AllocateRemovedEdgeId(edge.id, taken);
      }
      EmitNext(extra, base, draft, removedIds[..i], taken, emitted, edge, displayId);
      assert taken' == taken + {displayId} by { assert edge.id in EdgeIds(base); }
      extra := extra + [ShownEdge(edge.(id := displayId), MarkedRemoved(edge.id))];
      emitted := emitted + {displayId};
      taken := taken';
    }
    assert removedIds[..|removedIds|] == removedIds;
    shown := ShownDraft(draft, changes) + extra;
    EmittedAll(extra, base, draft, changes, taken, emitted);
  }

  lemma StartListing(base: seq<Edge>, draft: seq<Edge>)
    ensures ListsRemoved([], base, draft, []) && Tracks([], base, draft, EdgeIds(base) + EdgeIds(draft), EdgeIds(draft))
  {
  }

  lemma EmittedAll(extra: seq<ShownEdge>, base: seq<Edge>, draft: seq<Edge>, changes: seq<EdgeChange>, taken: set<Id>,
                   emitted: set<Id>)
    requires UniqueEdgeIds(draft) && ListsRemoved(extra, base, draft, RemovedIds(changes))
    requires Tracks(extra, base, draft, taken, emitted)
    ensures ShowsEdges(ShownDraft(draft, changes) + extra, base, draft, changes)
  {
    hide ListsRemoved;
    var first := ShownDraft(draft, changes);
    assert (first + extra)[..|draft|] == first && (first + extra)[|draft|..] == extra;
    DraftShownDistinct(draft, changes, extra);
  }

  lemma DraftShownDistinct(draft: seq<Edge>, changes: seq<EdgeChange>, extra: seq<ShownEdge>)
    requires UniqueEdgeIds(draft) && DistinctBy(extra, ShownId)
    requires forall s | s in extra :: s.edge.id !in EdgeIds(draft)
    ensures DistinctBy(ShownDraft(draft, changes) + extra, ShownId)
  {
    DistinctByConcat(ShownDraft(draft, changes), extra, ShownId);
  }

  // Exactly the removed base edges are listed, and each of them once.
  lemma RemovedListedOnce(shown: seq<ShownEdge>, base: seq<Edge>, draft: seq<Edge>, changes: seq<EdgeChange>)
    requires UniqueEdgeIds(base) && ListsRemoved(shown, base, draft, RemovedIds(changes))
    ensures DistinctBy(shown, SourceOf)
    ensures forall e | e in base :: (exists s :: s in shown && s.mark == MarkedRemoved(e.id))
              <==> exists c :: c in changes && !c.added && c.edgeId == e.id
  {
    RemovedIdsDistinct(changes);
    hide RemovedIds;
    var removed := RemovedIds(changes);
    SourcesDistinct(shown, base, draft, removed);
    forall e | e in base ensures (exists s :: s in shown && s.mark == MarkedRemoved(e.id)) <==> e.id in removed {
      RemovedShown(shown, base, draft, removed, e);
    }
  }

  lemma SourcesDistinct(shown: seq<ShownEdge>, base: seq<Edge>, draft: seq<Edge>, removed: seq<Id>)
    requires ListsRemoved(shown, base, draft, removed) && DistinctBy(removed, SameId)
    ensures DistinctBy(shown, SourceOf)
  {
    hide ShowsRemoved;
    FilterDistinctBy(removed, InBase(base), SameId);
    forall i, j | 0 <= i < j < |shown| ensures SourceOf(shown[i]) != SourceOf(shown[j]) {
      var sources := Map(shown, SourceOf);
      assert SameId(sources[i]) != SameId(sources[j]);
    }
  }

  lemma RemovedShown(shown: seq<ShownEdge>, base: seq<Edge>, draft: seq<Edge>, removed: seq<Id>, e: Edge)
    requires ListsRemoved(shown, base, draft, removed) && e in base
    ensures (exists s :: s in shown && s.mark == MarkedRemoved(e.id)) <==> e.id in removed
  {
    MapHas(shown, SourceOf, e.id);
    assert e.id in EdgeIds(base);
    if s :| s in shown && SourceOf(s) == e.id {
      var i :| 0 <= i < |shown| && shown[i] == s;
      assert ShowsRemoved(shown[i], shown[..i], base, draft);
    }
  }

  function SameId(id: Id): Id { id }

  // Nothing else meets that description.
  lemma {:induction false} ListedUniquely(a: seq<ShownEdge>, b: seq<ShownEdge>, base: seq<Edge>, draft: seq<Edge>,
                                          removed: seq<Id>)
    requires UniqueEdgeIds(base) && ListsRemoved(a, base, draft, removed) && ListsRemoved(b, base, draft, removed)
    ensures a == b
  {
    assert |a| == |Map(a, SourceOf)| == |b|;
    forall i | 0 <= i < |a| ensures a[..i] == b[..i] && a[i] == b[i] {
      ListedSame(a, b, base, draft, removed, i);
    }
  }

  lemma {:induction false} ListedSame(a: seq<ShownEdge>, b: seq<ShownEdge>, base: seq<Edge>, draft: seq<Edge>,
                                      removed: seq<Id>, i: nat)
    requires UniqueEdgeIds(base) && ListsRemoved(a, base, draft, removed) && ListsRemoved(b, base, draft, removed)
    requires i < |a| && |a| == |b|
    ensures a[..i] == b[..i] && a[i] == b[i]
  {
    hide ShowsRemoved, Filter;
    if i > 0 {
      ListedSame(a, b, base, draft, removed, i - 1);
      assert a[..i] == a[..i - 1] + [a[i - 1]] && b[..i] == b[..i - 1] + [b[i - 1]];
    }
    assert Map(a, SourceOf)[i] == Map(b, SourceOf)[i];
    ShownSame(a[i], b[i], a[..i], base, draft);
  }

  lemma ShownSame(s: ShownEdge, t: ShownEdge, before: seq<ShownEdge>, base: seq<Edge>, draft: seq<Edge>)
    requires UniqueEdgeIds(base) && ShowsRemoved(s, before, base, draft) && ShowsRemoved(t, before, base, draft)
             && SourceOf(s) == SourceOf(t)
    ensures s == t
  {
    hide FirstFree;
    var taken := EdgeIds(base) + EdgeIds(draft) + ShownIds(before);
    var d :| d in base && s.mark == MarkedRemoved(d.id) && s.edge == d.(id := s.edge.id)
          && if d.id in EdgeIds(draft) then FirstFree(s.edge.id, d.id, taken) else s.edge.id == d.id;
    var e :| e in base && t.mark == MarkedRemoved(e.id) && t.edge == e.(id := t.edge.id)
          && if e.id in EdgeIds(draft) then FirstFree(t.edge.id, e.id, taken) else t.edge.id == e.id;
    UniqueEdge(base, d, e);
    if d.id in EdgeIds(draft) { FirstFreeUnique(s.edge.id, t.edge.id, d.id, taken); }
  }

  // --- what the draft's edges show ---

  // A draft edge is shown as it is, marked exactly when the changes add it.
  lemma DraftMarked(draft: seq<Edge>, changes: seq<EdgeChange>, i: nat)
    requires i < |draft|
    ensures |ShownDraft(draft, changes)| == |draft| && ShownDraft(draft, changes)[i].edge == draft[i]
    ensures ShownDraft(draft, changes)[i].mark.MarkedAdded?
            <==> exists c :: c in changes && c.added && c.edgeId == draft[i].id
    ensures !ShownDraft(draft, changes)[i].mark.MarkedRemoved?
    ensures SourceOf(ShownDraft(draft, changes)[i]) == draft[i].id
  {
  }

  // --- decimals ---

  predicate AllDigits(s: string) {
    forall i | 0 <= i < |s| :: '0' <= s[i] <= '9'
  }

  // What a reader takes a string of digits for.
  function Reads(s: string): nat
    requires AllDigits(s)
  {
    if s == "" then 0 else Reads(s[..|s| - 1]) * 10 + (s[|s| - 1] as int - '0' as int)
  }

  lemma {:induction false} DecimalDigits(n: nat)
    ensures AllDigits(Decimal(n))
  {
    if n >= 10 { DecimalDigits(n / 10); }
  }

  // A name is numbered in decimal, with no leading zero.
  lemma {:induction false} DecimalReads(n: nat)
    ensures AllDigits(Decimal(n))
    ensures Reads(Decimal(n)) == n && (n > 0 ==> Decimal(n)[0] != '0')
  {
    DecimalDigits(n);
    if n >= 10 {
      DecimalReads(n / 10);
      var s := Decimal(n);
      assert s[..|s| - 1] == Decimal(n / 10) && s[|s| - 1] == Digit(n % 10);
      DecimalNonempty(n / 10);
      assert s[0] == Decimal(n / 10)[0];
    } else {
      assert Decimal(n)[..0] == "";
    }
  }
}
