// Where the separation pass puts the stubs of one band: spread from the left,
// centred again as a whole, then each in the nearest slot clear of the members.
module StubCentring {
  import opened Sequences
  import opened WorkflowGraph
  import opened StableSort
  import opened StubPlacement
  import opened StubSeparation

  // --- which stubs make a band ---

  // Each stub reaches the next one's row.
  predicate Chained(band: seq<Stub>) {
    band != [] && forall k | 0 <= k < |band| - 1 :: band[k].y <= band[k + 1].y < band[k].y + STUB_HEIGHT + GAP
  }

  lemma {:induction false} BandsChained(rows: seq<Stub>)
    requires SortedBy(rows, RowKey)
    ensures forall b | b in Bands(rows) :: Chained(b)
  {
    if rows != [] {
      var front, last := rows[..|rows| - 1], rows[|rows| - 1];
      BandsChained(front);
      BandsApart(front);
      if front == [] {
        assert AddToBands([], last) == [[last]];
      } else {
        assert KeyLe(RowKey(front[|front| - 1]), RowKey(rows[|front|]));
        AddChained(Bands(front), front[|front| - 1], last);
      }
    }
  }

  lemma AddChained(bands: seq<seq<Stub>>, previous: Stub, last: Stub)
    requires (forall b | b in bands :: Chained(b)) && EndsWith(bands, previous) && previous.y <= last.y
    ensures forall b | b in AddToBands(bands, last) :: Chained(b)
  {
    forall b | b in AddToBands(bands, last) ensures Chained(b) {
      if b !in bands {
        var end := bands[|bands| - 1];
        assert end in bands && (b == [last] || b == end + [last]);
      }
    }
  }

  // The bands partition the stubs into chains of rows with a stub's height and
  // the gap between any two chains.
  lemma BandsExact(stubs: seq<Stub>)
    requires DistinctBy(stubs, StubId)
    ensures (forall b | b in BandsOf(stubs) :: Chained(b)) && RowsApart(BandsOf(stubs))
    ensures multiset(Flatten(BandsOf(stubs))) == multiset(stubs)
  {
    SortSorted(stubs, RowKey);
    SortContents(stubs, RowKey);
    BandsChained(Rows(stubs));
    BandsApart(Rows(stubs));
    BandsFlatten(Rows(stubs));
  }

  // --- where a stub ends up ---

  predicate ClearOf(x: real, y: real, members: seq<Member>) {
    forall m | m in members :: ApartFromMember(Stub("", x, y), m)
  }

  lemma ClearExact(x: real, y: real, members: seq<Member>)
    ensures Clear(x, y, ObstaclesOf(members)) <==> ClearOf(x, y, members)
  {
    forall m | m in members
      ensures Inflate(m) in ObstaclesOf(members)
              && (ApartFromMember(Stub("", x, y), m) <==> !RectanglesOverlap(StubRect(x, y), Inflate(m))) {
      MapHas(members, Inflate, Inflate(m));
    }
    forall o | o in ObstaclesOf(members) ensures exists m :: m in members && Inflate(m) == o {
      MapHas(members, Inflate, o);
    }
  }

  // The allowed place clear of every member that is nearest to `x`, the left one
  // of two.
  ghost predicate NearestSlot(x: real, y: real, minimum: Option<real>, members: seq<Member>, c: real) {
    && AtLeast(c, minimum) && ClearOf(c, y, members)
    && forall z: real :: AtLeast(z, minimum) && ClearOf(z, y, members) ==> CloserOrSame(c, z, x)
  }

  lemma SlotIsNearest(x: real, y: real, minimum: Option<real>, members: seq<Member>)
    ensures NearestSlot(x, y, minimum, members, ClearStubX(x, y, minimum, ObstaclesOf(members)))
  {
    hide ClearStubX, Clear, ClearOf;
    var c := ClearStubX(x, y, minimum, ObstaclesOf(members));
    ClearStubXOptimal(x, y, minimum, ObstaclesOf(members), c);
    ClearExact(c, y, members);
    forall z: real | AtLeast(z, minimum) && ClearOf(z, y, members) ensures CloserOrSame(c, z, x) {
      ClearExact(z, y, members);
      ClearStubXOptimal(x, y, minimum, ObstaclesOf(members), z);
    }
  }

  // Spread from the left: each at its own x, or the gap after the one before.
  predicate SpreadOut(ordered: seq<Stub>, spread: seq<real>) {
    && |spread| == |ordered|
    && (ordered != [] ==> spread[0] == ordered[0].x)
    && forall k | 0 < k < |ordered| ::
         var after := spread[k - 1] + WIDTH + GAP;
         spread[k] == if ordered[k].x >= after then ordered[k].x else after
  }

  // Half of how far the spread pushed the last stub.
  function HalfPush(ordered: seq<Stub>, spread: seq<real>): real
    requires ordered != [] && |spread| == |ordered|
  {
    (spread[|spread| - 1] - ordered[|ordered| - 1].x) / 2.0
  }

  ghost predicate EndsAt(stubs: seq<Stub>, edges: seq<Edge>, members: seq<Member>, s: Stub, x: real) {
    exists j :: 0 <= j < |stubs| && stubs[j] == s && SeparateBoundaryStubs(stubs, edges, members)[j] == s.(x := x)
  }

  function After(final: seq<real>, k: nat): Option<real>
    requires k <= |final|
  {
    if k == 0 then None else Some(final[k - 1] + WIDTH + GAP)
  }

  // What becomes of a band.
  ghost predicate Settles(stubs: seq<Stub>, edges: seq<Edge>, members: seq<Member>, ordered: seq<Stub>,
                          spread: seq<real>, final: seq<real>) {
    && ordered != [] && SpreadOut(ordered, spread) && |final| == |ordered|
    && forall k | 0 <= k < |ordered| ::
         && EndsAt(stubs, edges, members, ordered[k], final[k])
         && NearestSlot(spread[k] - HalfPush(ordered, spread), ordered[k].y, After(final, k), members, final[k])
  }

  // The band's stubs in the order `GoesFirst` gives them.
  ghost predicate InColumnOrder(stubs: seq<Stub>, edges: seq<Edge>, ordered: seq<Stub>) {
    forall a, b, p, q | 0 <= a < |stubs| && 0 <= b < |stubs| && 0 <= p < |ordered| && 0 <= q < |ordered| ::
      stubs[a] == ordered[p] && stubs[b] == ordered[q] && GoesFirst(stubs, edges, a, b) ==> p < q
  }

  lemma {:induction false} SweptIsSpread(ordered: seq<Stub>, n: nat) returns (spread: seq<real>)
    requires n <= |ordered|
    ensures SpreadOut(ordered[..n], spread) && forall k | 0 <= k < n :: spread[k] == SweptX(ordered, k)
  {
    if n == 0 {
      spread := [];
    } else {
      var front := SweptIsSpread(ordered, n - 1);
      spread := front + [SweptX(ordered, n - 1)];
      forall k | 0 <= k < n - 1 ensures ordered[..n][k] == ordered[..n - 1][k] {}
    }
  }

  function PlacedRow(ordered: seq<Stub>, obstacles: seq<Rect>): (final: seq<real>)
    ensures |final| == |ordered| && forall k | 0 <= k < |ordered| :: final[k] == PlacedX(ordered, obstacles, k)
  {
    seq(|ordered|, k requires 0 <= k < |ordered| => PlacedX(ordered, obstacles, k))
  }

  // Every band ends up centred on where it stood, as near as the members let it.
  lemma BandSettles(stubs: seq<Stub>, edges: seq<Edge>, members: seq<Member>, i: nat)
    returns (ordered: seq<Stub>, spread: seq<real>, final: seq<real>)
    requires DistinctBy(stubs, StubId) && i < |BandsOf(stubs)|
    ensures multiset(ordered) == multiset(BandsOf(stubs)[i]) && InColumnOrder(stubs, edges, ordered)
    ensures Settles(stubs, edges, members, ordered, spread, final)
  {
    hide Bands, PlacedX, PlacedRow, SortBy, Positions, SweptX, EndsAt, NearestSlot, InColumnOrder, HalfPush, SpreadOut;
    var band := BandsOf(stubs)[i];
    ordered := SortBy(band, ColumnKey(edges));
    SortContents(band, ColumnKey(edges));
    BandsFlatten(Rows(stubs));
    assert band in BandsOf(stubs) && |ordered| == |band|;
    spread := SweptSpread(ordered);
    final := PlacedRow(ordered, ObstaclesOf(members));
    BandEnds(stubs, edges, members, i);
    BandNearest(ordered, spread, members);
    ColumnOrdered(stubs, edges, members, i);
  }

  lemma SweptSpread(ordered: seq<Stub>) returns (spread: seq<real>)
    ensures SpreadOut(ordered, spread) && |spread| == |ordered|
    ensures forall k | 0 <= k < |ordered| :: spread[k] == SweptX(ordered, k)
  {
    spread := SweptIsSpread(ordered, |ordered|);
    assert ordered[..|ordered|] == ordered;
  }

  lemma BandEnds(stubs: seq<Stub>, edges: seq<Edge>, members: seq<Member>, i: nat)
    requires DistinctBy(stubs, StubId) && i < |BandsOf(stubs)|
    ensures var ordered := SortBy(BandsOf(stubs)[i], ColumnKey(edges));
            forall k | 0 <= k < |ordered| ::
              EndsAt(stubs, edges, members, ordered[k], PlacedRow(ordered, ObstaclesOf(members))[k])
  {
    hide Bands, PlacedX, SortBy, EndsAt;
    var ordered := SortBy(BandsOf(stubs)[i], ColumnKey(edges));
    forall k | 0 <= k < |ordered|
      ensures EndsAt(stubs, edges, members, ordered[k], PlacedRow(ordered, ObstaclesOf(members))[k]) {
      EndsPlaced(stubs, edges, members, i, k);
    }
  }

  lemma BandNearest(ordered: seq<Stub>, spread: seq<real>, members: seq<Member>)
    requires ordered != [] && |spread| == |ordered|
    requires forall j | 0 <= j < |ordered| :: spread[j] == SweptX(ordered, j)
    ensures var final := PlacedRow(ordered, ObstaclesOf(members));
            forall k | 0 <= k < |ordered| ::
              NearestSlot(spread[k] - HalfPush(ordered, spread), ordered[k].y, After(final, k), members, final[k])
  {
    hide PlacedX, SweptX, NearestSlot, HalfPush, After;
    var final := PlacedRow(ordered, ObstaclesOf(members));
    forall k | 0 <= k < |ordered|
      ensures NearestSlot(spread[k] - HalfPush(ordered, spread), ordered[k].y, After(final, k), members, final[k]) {
      PlacedNearest(ordered, spread, members, k);
    }
  }

  lemma PlacedNearest(ordered: seq<Stub>, spread: seq<real>, members: seq<Member>, k: nat)
    requires k < |ordered| && |spread| == |ordered|
    requires spread[k] == SweptX(ordered, k) && spread[|spread| - 1] == SweptX(ordered, |ordered| - 1)
    ensures var final := PlacedRow(ordered, ObstaclesOf(members));
            NearestSlot(spread[k] - HalfPush(ordered, spread), ordered[k].y, After(final, k), members, final[k])
  {
    hide PlacedX, SweptX, ClearStubX, NearestSlot;
    BandShift(ordered, spread);
    NextPlaced(ordered, ObstaclesOf(members), k);
    SlotIsNearest(spread[k] - HalfPush(ordered, spread), ordered[k].y,
                  After(PlacedRow(ordered, ObstaclesOf(members)), k), members);
  }

  lemma BandShift(ordered: seq<Stub>, spread: seq<real>)
    requires ordered != [] && |spread| == |ordered| && spread[|spread| - 1] == SweptX(ordered, |ordered| - 1)
    ensures Shift(ordered) == HalfPush(ordered, spread)
  {
  }

  lemma EndsPlaced(stubs: seq<Stub>, edges: seq<Edge>, members: seq<Member>, i: nat, k: nat)
    requires DistinctBy(stubs, StubId) && i < |BandsOf(stubs)|
    requires k < |SortBy(BandsOf(stubs)[i], ColumnKey(edges))|
    ensures var ordered := SortBy(BandsOf(stubs)[i], ColumnKey(edges));
            EndsAt(stubs, edges, members, ordered[k], PlacedX(ordered, ObstaclesOf(members), k))
  {
    hide Bands, PlacedX, SortBy, Positions;
    var band := BandsOf(stubs)[i];
    var ordered := SortBy(band, ColumnKey(edges));
    PlacedIsMoved(stubs, edges, members, i);
    RowsDistinct(stubs);
    BandWithin(BandsOf(stubs), i);
    SortMembers(band, ColumnKey(edges), ordered[k]);
    var j :| 0 <= j < |stubs| && stubs[j] == ordered[k];
    assert PlaceBand(band, edges, ObstaclesOf(members))[k] == Mover(stubs, edges, members)(ordered[k]);
    assert SeparateBoundaryStubs(stubs, edges, members)[j] == Mover(stubs, edges, members)(stubs[j]);
  }

  lemma ColumnOrdered(stubs: seq<Stub>, edges: seq<Edge>, members: seq<Member>, i: nat)
    requires DistinctBy(stubs, StubId) && i < |BandsOf(stubs)|
    ensures InColumnOrder(stubs, edges, SortBy(BandsOf(stubs)[i], ColumnKey(edges)))
  {
    hide Bands, SortBy, GoesFirst, FirstByKeys;
    var band := BandsOf(stubs)[i];
    var ordered := SortBy(band, ColumnKey(edges));
    RowsDistinct(stubs);
    BandWithin(BandsOf(stubs), i);
    SortDistinct(band, ColumnKey(edges), StubId);
    forall a, b, p, q | 0 <= a < |stubs| && 0 <= b < |stubs| && 0 <= p < |ordered| && 0 <= q < |ordered|
      && stubs[a] == ordered[p] && stubs[b] == ordered[q] && GoesFirst(stubs, edges, a, b) ensures p < q
    {
      SortMembers(band, ColumnKey(edges), ordered[p]);
      SortMembers(band, ColumnKey(edges), ordered[q]);
      GoesFirstKeys(stubs, edges, a, b);
      var k, l := BandSortsFirst(stubs, edges, i, a, b);
      var c, d := SortOrder(band, ColumnKey(edges), k, l);
      SameSpot(ordered, c, p);
      SameSpot(ordered, d, q);
    }
  }

  lemma SameSpot(ordered: seq<Stub>, c: nat, p: nat)
    requires DistinctBy(ordered, StubId) && c < |ordered| && p < |ordered| && ordered[c] == ordered[p]
    ensures c == p
  {
    forall i, j | 0 <= i < j < |ordered| ensures ordered[i] != ordered[j] {
      assert StubId(ordered[i]) != StubId(ordered[j]);
    }
  }

  // --- a band no member reaches ---

  predicate RowsFree(ordered: seq<Stub>, members: seq<Member>) {
    forall s, m | s in ordered && m in members :: MissesRow(s.y, m)
  }

  predicate MissesRow(y: real, m: Member) { y + STUB_HEIGHT + GAP <= m.y || m.y + m.height + GAP <= y }

  // It is spread and centred exactly: the first stub moves left by as much as the
  // last moves right.
  lemma FreeBandCentred(stubs: seq<Stub>, edges: seq<Edge>, members: seq<Member>, ordered: seq<Stub>,
                        spread: seq<real>, final: seq<real>)
    requires Settles(stubs, edges, members, ordered, spread, final) && RowsFree(ordered, members)
    ensures forall k | 0 <= k < |ordered| :: final[k] == spread[k] - HalfPush(ordered, spread)
    ensures var last := |ordered| - 1; ordered[0].x - final[0] == final[last] - ordered[last].x
  {
    hide NearestSlot, RowsFree, Settles, SpreadOut, HalfPush, After;
    SettledParts(stubs, edges, members, ordered, spread, final);
    FreeSlots(members, ordered, spread, HalfPush(ordered, spread), final, |ordered|);
    EvenlyPushed(ordered, spread);
  }

  lemma EvenlyPushed(ordered: seq<Stub>, spread: seq<real>)
    requires SpreadOut(ordered, spread) && ordered != []
    ensures var half, last := HalfPush(ordered, spread), |ordered| - 1;
            ordered[0].x - (spread[0] - half) == (spread[last] - half) - ordered[last].x
  {
  }

  lemma SettledParts(stubs: seq<Stub>, edges: seq<Edge>, members: seq<Member>, ordered: seq<Stub>,
                     spread: seq<real>, final: seq<real>)
    requires Settles(stubs, edges, members, ordered, spread, final)
    ensures ordered != [] && SpreadOut(ordered, spread) && |spread| == |final| == |ordered|
    ensures forall k | 0 <= k < |ordered| ::
              NearestSlot(spread[k] - HalfPush(ordered, spread), ordered[k].y, After(final, k), members, final[k])
  {
    hide EndsAt, NearestSlot;
  }

  lemma {:induction false} FreeSlots(members: seq<Member>, ordered: seq<Stub>, spread: seq<real>, half: real,
                                     final: seq<real>, n: nat)
    requires |spread| == |final| == |ordered| && n <= |ordered|
    requires SpreadOut(ordered, spread) && RowsFree(ordered, members)
    requires forall k | 0 <= k < |ordered| ::
               NearestSlot(spread[k] - half, ordered[k].y, After(final, k), members, final[k])
    ensures forall k | 0 <= k < n :: final[k] == spread[k] - half
  {
    hide NearestSlot, SpreadOut, RowsFree;
    if n > 0 {
      var k := n - 1;
      FreeSlots(members, ordered, spread, half, final, k);
      SpreadApart(ordered, spread, k);
      RowFree(ordered, members, k);
      FreeSlot(spread[k] - half, ordered[k].y, After(final, k), members, final[k]);
    }
  }

  lemma SpreadApart(ordered: seq<Stub>, spread: seq<real>, k: nat)
    requires SpreadOut(ordered, spread) && k < |ordered|
    ensures |spread| == |ordered| && (k > 0 ==> spread[k] >= spread[k - 1] + WIDTH + GAP)
  {
  }

  lemma RowFree(ordered: seq<Stub>, members: seq<Member>, k: nat)
    requires RowsFree(ordered, members) && k < |ordered|
    ensures forall m | m in members :: MissesRow(ordered[k].y, m)
  {
    assert ordered[k] in ordered;
  }

  lemma FreeSlot(x: real, y: real, minimum: Option<real>, members: seq<Member>, c: real)
    requires NearestSlot(x, y, minimum, members, c) && AtLeast(x, minimum)
    requires forall m | m in members :: MissesRow(y, m)
    ensures c == x
  {
    assert ClearOf(x, y, members);
    assert CloserOrSame(c, x, x);
  }
}
