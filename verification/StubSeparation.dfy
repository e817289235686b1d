// What separating the boundary stubs guarantees, when it moves nothing, and the
// method that does it with the loops the canvas runs.
module StubSeparation {
  import opened Reachability
  import opened Sequences
  import opened WorkflowGraph
  import opened StableSort
  import opened StubPlacement

  function Rows(stubs: seq<Stub>): seq<Stub> { SortBy(stubs, RowKey) }

  function BandsOf(stubs: seq<Stub>): seq<seq<Stub>> { Bands(Rows(stubs)) }

  function ObstaclesOf(members: seq<Member>): seq<Rect> { Map(members, Inflate) }

  // The move each stub makes.
  function Mover(stubs: seq<Stub>, edges: seq<Edge>, members: seq<Member>): Stub -> Stub {
    MoveTo(Positions(PlacedStubs(stubs, edges, ObstaclesOf(members))))
  }

  // --- the bands partition the stubs ---

  lemma {:induction false} BandWithin(bands: seq<seq<Stub>>, i: nat)
    requires i < |bands|
    ensures forall s | s in bands[i] :: s in Flatten(bands)
    ensures DistinctBy(Flatten(bands), StubId) ==> DistinctBy(bands[i], StubId)
    decreases |bands|
  {
    var front := bands[..|bands| - 1];
    DistinctByConcat(Flatten(front), bands[|bands| - 1], StubId);
    if i < |front| { BandWithin(front, i); }
  }

  lemma {:induction false} BandHolding(bands: seq<seq<Stub>>, s: Stub) returns (i: nat)
    requires s in Flatten(bands)
    ensures i < |bands| && s in bands[i]
  {
    if s in bands[|bands| - 1] { i := |bands| - 1; }
    else { i := BandHolding(bands[..|bands| - 1], s); }
  }

  lemma RowsDistinct(stubs: seq<Stub>)
    requires DistinctBy(stubs, StubId)
    ensures DistinctBy(Flatten(BandsOf(stubs)), StubId)
    ensures forall s :: s in Flatten(BandsOf(stubs)) <==> s in stubs
  {
    SortDistinct(stubs, RowKey, StubId);
    BandsFlatten(Rows(stubs));
    forall s ensures s in Rows(stubs) <==> s in stubs { SortMembers(stubs, RowKey, s); }
  }

  // --- every stub is placed once ---

  lemma {:induction false} PlacedBandAt(bands: seq<seq<Stub>>, edges: seq<Edge>, obstacles: seq<Rect>, i: nat)
    requires i < |bands|
    ensures |PlaceBands(bands, edges, obstacles)| == |bands|
    ensures PlaceBands(bands, edges, obstacles)[i] == PlaceBand(bands[i], edges, obstacles)
    decreases |bands|
  {
    hide PlaceBand;
    PlacedCount(bands, edges, obstacles);
    if i < |bands| - 1 {
      PlacedCount(bands[..|bands| - 1], edges, obstacles);
      PlacedBandAt(bands[..|bands| - 1], edges, obstacles, i);
    } else {
      PlacedCount(bands[..|bands| - 1], edges, obstacles);
    }
  }

  lemma {:induction false} PlacedCount(bands: seq<seq<Stub>>, edges: seq<Edge>, obstacles: seq<Rect>)
    ensures |PlaceBands(bands, edges, obstacles)| == |bands|
    decreases |bands|
  {
    hide PlaceBand;
    if bands != [] { PlacedCount(bands[..|bands| - 1], edges, obstacles); }
  }

  lemma PlacedBandIds(band: seq<Stub>, edges: seq<Edge>, obstacles: seq<Rect>)
    requires DistinctBy(band, StubId)
    ensures DistinctBy(PlaceBand(band, edges, obstacles), StubId)
    ensures forall p | p in PlaceBand(band, edges, obstacles) :: exists s :: s in band && s.id == p.id
  {
    hide PlacedX;
    var ordered, placed := SortBy(band, ColumnKey(edges)), PlaceBand(band, edges, obstacles);
    SortDistinct(band, ColumnKey(edges), StubId);
    forall i, j | 0 <= i < j < |placed| ensures StubId(placed[i]) != StubId(placed[j]) {
      assert StubId(ordered[i]) != StubId(ordered[j]);
    }
    forall p | p in placed ensures exists s :: s in band && s.id == p.id {
      var k :| 0 <= k < |placed| && placed[k] == p;
      SortMembers(band, ColumnKey(edges), ordered[k]);
    }
  }

  lemma {:induction false} PlacedIdsDistinct(bands: seq<seq<Stub>>, edges: seq<Edge>, obstacles: seq<Rect>)
    requires DistinctBy(Flatten(bands), StubId)
    ensures DistinctBy(Flatten(PlaceBands(bands, edges, obstacles)), StubId)
    ensures forall p | p in Flatten(PlaceBands(bands, edges, obstacles)) ::
              exists s :: s in Flatten(bands) && s.id == p.id
    decreases |bands|
  {
    hide PlaceBand;
    if bands != [] {
      var front, last := bands[..|bands| - 1], bands[|bands| - 1];
      DistinctByConcat(Flatten(front), last, StubId);
      PlacedIdsDistinct(front, edges, obstacles);
      PlacedBandIds(last, edges, obstacles);
      var before, added := Flatten(PlaceBands(front, edges, obstacles)), PlaceBand(last, edges, obstacles);
      FlattenSnoc(PlaceBands(front, edges, obstacles), added);
      forall p, q | p in before && q in added ensures StubId(p) != StubId(q) {
        var s :| s in Flatten(front) && s.id == p.id;
        var t :| t in last && t.id == q.id;
        assert StubId(s) != StubId(t);
      }
      DistinctByConcat(before, added, StubId);
    }
  }

  lemma {:induction false} PositionOf(placed: seq<Stub>, p: Stub)
    requires DistinctBy(placed, StubId) && p in placed
    ensures p.id in Positions(placed) && Positions(placed)[p.id] == p.x
  {
    var front, last := placed[..|placed| - 1], placed[|placed| - 1];
    assert placed == front + [last];
    DistinctByConcat(front, [last], StubId);
    if p != last {
      assert StubId(p) != StubId(last);
      PositionOf(front, p);
    }
  }

  // Each placed band is its ordered band, every stub moved.
  lemma PlacedIsMoved(stubs: seq<Stub>, edges: seq<Edge>, members: seq<Member>, i: nat)
    requires DistinctBy(stubs, StubId) && i < |BandsOf(stubs)|
    ensures PlaceBand(BandsOf(stubs)[i], edges, ObstaclesOf(members))
         == Map(SortBy(BandsOf(stubs)[i], ColumnKey(edges)), Mover(stubs, edges, members))
  {
    hide PlacedX, Positions, Bands;
    var bands, obstacles := BandsOf(stubs), ObstaclesOf(members);
    var ordered, placed := SortBy(bands[i], ColumnKey(edges)), PlaceBand(bands[i], edges, obstacles);
    var all := PlaceBands(bands, edges, obstacles);
    RowsDistinct(stubs);
    PlacedIdsDistinct(bands, edges, obstacles);
    PlacedBandAt(bands, edges, obstacles, i);
    BandWithin(all, i);
    forall k | 0 <= k < |placed| ensures placed[k] == Mover(stubs, edges, members)(ordered[k]) {
      assert placed[k] in all[i];
      PositionOf(Flatten(all), placed[k]);
    }
  }

  // Where one stub stands: its band, its place in it, and the move it makes.
  lemma Whereabouts(stubs: seq<Stub>, edges: seq<Edge>, members: seq<Member>, s: Stub) returns (i: nat, k: nat)
    requires DistinctBy(stubs, StubId) && s in stubs
    ensures i < |BandsOf(stubs)| && s in BandsOf(stubs)[i]
    ensures var ordered := SortBy(BandsOf(stubs)[i], ColumnKey(edges));
            k < |ordered| && ordered[k] == s
            && Mover(stubs, edges, members)(s) == s.(x := PlacedX(ordered, ObstaclesOf(members), k))
  {
    hide Bands, PlacedX, Positions;
    RowsDistinct(stubs);
    i := BandHolding(BandsOf(stubs), s);
    var ordered := SortBy(BandsOf(stubs)[i], ColumnKey(edges));
    SortMembers(BandsOf(stubs)[i], ColumnKey(edges), s);
    k :| 0 <= k < |ordered| && ordered[k] == s;
    PlacedIsMoved(stubs, edges, members, i);
    assert PlaceBand(BandsOf(stubs)[i], edges, ObstaclesOf(members))[k] == Mover(stubs, edges, members)(ordered[k]);
  }

  // --- the guarantees ---

  // At least the gap apart on some axis.
  predicate Apart(u: Stub, v: Stub) {
    || u.x + WIDTH + GAP <= v.x || v.x + WIDTH + GAP <= u.x
    || u.y + STUB_HEIGHT + GAP <= v.y || v.y + STUB_HEIGHT + GAP <= u.y
  }

  predicate ApartFromMember(s: Stub, m: Member) {
    || s.x + WIDTH + GAP <= m.x || m.x + m.width + GAP <= s.x
    || s.y + STUB_HEIGHT + GAP <= m.y || m.y + m.height + GAP <= s.y
  }

  // No row changes, every two stubs end up the gap apart, and so does every
  // stub from every member.
  lemma StubsSeparated(stubs: seq<Stub>, edges: seq<Edge>, members: seq<Member>, i: nat, j: nat)
    requires DistinctBy(stubs, StubId) && i < j < |stubs|
    ensures var out := SeparateBoundaryStubs(stubs, edges, members);
            && |out| == |stubs| && out[i].id == stubs[i].id && out[i].y == stubs[i].y
            && Apart(out[i], out[j])
  {
    hide Bands, PlacedX, SortBy;
    assert StubId(stubs[i]) != StubId(stubs[j]);
    var p, k := Whereabouts(stubs, edges, members, stubs[i]);
    var q, l := Whereabouts(stubs, edges, members, stubs[j]);
    SortSorted(stubs, RowKey);
    BandsApart(Rows(stubs));
    if p == q {
      var ordered := SortBy(BandsOf(stubs)[p], ColumnKey(edges));
      if k < l { PlacedInOrder(ordered, ObstaclesOf(members), k, l); }
      else { PlacedInOrder(ordered, ObstaclesOf(members), l, k); }
    }
  }

  lemma StubsClearMembers(stubs: seq<Stub>, edges: seq<Edge>, members: seq<Member>, i: nat, m: Member)
    requires DistinctBy(stubs, StubId) && i < |stubs| && m in members
    ensures ApartFromMember(SeparateBoundaryStubs(stubs, edges, members)[i], m)
  {
    hide Bands, PlacedX, SortBy;
    var p, k := Whereabouts(stubs, edges, members, stubs[i]);
    PlacedClear(SortBy(BandsOf(stubs)[p], ColumnKey(edges)), ObstaclesOf(members), k);
    MapHas(members, Inflate, Inflate(m));
    assert Inflate(m) in ObstaclesOf(members);
  }

  // A band is a run of consecutive rows.
  lemma {:induction false} BandSlice(bands: seq<seq<Stub>>, i: nat) returns (from: nat)
    requires i < |bands|
    ensures from + |bands[i]| <= |Flatten(bands)| && Flatten(bands)[from..from + |bands[i]|] == bands[i]
    decreases |bands|
  {
    var front := bands[..|bands| - 1];
    if i < |front| { from := BandSlice(front, i); } else { from := |Flatten(front)|; }
  }

  // The one edge that leads to `id`.
  predicate SoleEntry(edges: seq<Edge>, id: Id, k: nat)
    requires k < |edges|
  {
    edges[k].target == id && forall j | 0 <= j < |edges| && j != k :: edges[j].target != id
  }

  ghost predicate EnteredOnlyBy(edges: seq<Edge>, id: Id, handle: string) {
    exists k :: 0 <= k < |edges| && SoleEntry(edges, id, k) && edges[k].sourceHandle == Some(handle)
  }

  ghost function BranchRank(edges: seq<Edge>, id: Id): real {
    if EnteredOnlyBy(edges, id, "true") then -1.0 else if EnteredOnlyBy(edges, id, "false") then 1.0 else 0.0
  }

  lemma {:induction false} SoleFiltered(edges: seq<Edge>, id: Id, k: nat)
    requires k < |edges| && SoleEntry(edges, id, k)
    ensures Filter(edges, Onto(id)) == [edges[k]]
  {
    var front, back := edges[..k], edges[k + 1..];
    assert edges == front + ([edges[k]] + back);
    FilterConcat(front, [edges[k]] + back, Onto(id));
    FilterConcat([edges[k]], back, Onto(id));
    FilterNone(front, Onto(id));
    FilterNone(back, Onto(id));
  }

  lemma {:induction false} FilteredSole(edges: seq<Edge>, id: Id) returns (k: nat)
    requires |Filter(edges, Onto(id))| == 1
    ensures k < |edges| && SoleEntry(edges, id, k)
  {
    var rest := edges[1..];
    if edges[0].target == id {
      k := 0;
      FilterNone(rest, Onto(id));
      forall j | 0 < j < |edges| ensures edges[j].target != id { assert rest[j - 1] in rest; }
    } else {
      var i := FilteredSole(rest, id);
      k := i + 1;
      forall j | 0 <= j < |edges| && j != k ensures edges[j].target != id {
        if j > 0 { assert rest[j - 1] == edges[j]; }
      }
    }
  }

  lemma BranchOrderExact(edges: seq<Edge>, id: Id)
    ensures BranchOrder(edges, id) == BranchRank(edges, id)
  {
    var incoming := Filter(edges, Onto(id));
    if |incoming| == 1 {
      var k := FilteredSole(edges, id);
      SoleFiltered(edges, id, k);
    }
    forall k | 0 <= k < |edges| && SoleEntry(edges, id, k) ensures incoming == [edges[k]] {
      SoleFiltered(edges, id, k);
    }
    hide SoleEntry;
  }

  // The order a row is spread in: by x, at one x by branch, True first and False
  // last, then by height, then as listed.
  ghost predicate GoesFirst(stubs: seq<Stub>, edges: seq<Edge>, a: nat, b: nat)
    requires a < |stubs| && b < |stubs|
  {
    var u, v := stubs[a], stubs[b];
    var rank, other := BranchRank(edges, u.id), BranchRank(edges, v.id);
    || u.x < v.x
    || (u.x == v.x && rank < other)
    || (u.x == v.x && rank == other && u.y < v.y)
    || (u.x == v.x && rank == other && u.y == v.y && a < b)
  }

  // The same as the sorts compare.
  predicate FirstByKeys(stubs: seq<Stub>, edges: seq<Edge>, a: nat, b: nat)
    requires a < |stubs| && b < |stubs|
  {
    var key := ColumnKey(edges);
    || !KeyLe(key(stubs[b]), key(stubs[a]))
    || (KeyLe(key(stubs[a]), key(stubs[b])) && SortsFirst(stubs, RowKey, a, b))
  }

  lemma GoesFirstKeys(stubs: seq<Stub>, edges: seq<Edge>, a: nat, b: nat)
    requires a < |stubs| && b < |stubs| && GoesFirst(stubs, edges, a, b)
    ensures FirstByKeys(stubs, edges, a, b)
  {
    BranchOrderExact(edges, stubs[a].id);
    BranchOrderExact(edges, stubs[b].id);
    hide BranchOrder, BranchRank;
  }

  lemma BandSortsFirst(stubs: seq<Stub>, edges: seq<Edge>, i: nat, a: nat, b: nat) returns (p: nat, q: nat)
    requires DistinctBy(stubs, StubId) && i < |BandsOf(stubs)| && a < |stubs| && b < |stubs|
    requires stubs[a] in BandsOf(stubs)[i] && stubs[b] in BandsOf(stubs)[i] && FirstByKeys(stubs, edges, a, b)
    ensures var band := BandsOf(stubs)[i];
            p < |band| && q < |band| && band[p] == stubs[a] && band[q] == stubs[b]
            && SortsFirst(band, ColumnKey(edges), p, q)
  {
    hide Bands, SortBy, ColumnKey, RowKey;
    var band := BandsOf(stubs)[i];
    p :| 0 <= p < |band| && band[p] == stubs[a];
    q :| 0 <= q < |band| && band[q] == stubs[b];
    if SortsFirst(stubs, RowKey, a, b) {
      var from := BandSlice(BandsOf(stubs), i);
      var k, l := SortOrder(stubs, RowKey, a, b);
      RowsDistinct(stubs);
      BandsFlatten(Rows(stubs));
      assert Rows(stubs)[from + p] == Rows(stubs)[k] by { assert Rows(stubs)[from..from + |band|][p] == band[p]; }
      assert Rows(stubs)[from + q] == Rows(stubs)[l] by { assert Rows(stubs)[from..from + |band|][q] == band[q]; }
      assert StubId(Rows(stubs)[k]) != StubId(Rows(stubs)[l]);
    }
  }

  // Inside a band that order is kept, the gap between every two.
  lemma BandOrderKept(stubs: seq<Stub>, edges: seq<Edge>, members: seq<Member>, i: nat, a: nat, b: nat)
    requires DistinctBy(stubs, StubId) && i < |BandsOf(stubs)| && a < |stubs| && b < |stubs|
    requires stubs[a] in BandsOf(stubs)[i] && stubs[b] in BandsOf(stubs)[i] && GoesFirst(stubs, edges, a, b)
    ensures Mover(stubs, edges, members)(stubs[a]).x + WIDTH + GAP <= Mover(stubs, edges, members)(stubs[b]).x
  {
    hide Bands, PlacedX, SortBy, Positions, GoesFirst, FirstByKeys, SortsFirst;
    GoesFirstKeys(stubs, edges, a, b);
    var p, q := BandSortsFirst(stubs, edges, i, a, b);
    var band := BandsOf(stubs)[i];
    var k, l := SortOrder(band, ColumnKey(edges), p, q);
    var ordered := SortBy(band, ColumnKey(edges));
    PlacedIsMoved(stubs, edges, members, i);
    PlacedInOrder(ordered, ObstaclesOf(members), k, l);
    assert Map(ordered, Mover(stubs, edges, members))[k] == Mover(stubs, edges, members)(stubs[a]);
    assert Map(ordered, Mover(stubs, edges, members))[l] == Mover(stubs, edges, members)(stubs[b]);
  }

  // --- when nothing moves ---

  ghost predicate ClearRow(row: seq<Stub>, obstacles: seq<Rect>) {
    forall s | s in row :: Clear(s.x, s.y, obstacles)
  }

  // Every band in its column order is spread out and clear of the members.
  ghost predicate InPlace(stubs: seq<Stub>, edges: seq<Edge>, members: seq<Member>) {
    forall b | b in BandsOf(stubs) ::
      Spread(SortBy(b, ColumnKey(edges))) && ClearRow(SortBy(b, ColumnKey(edges)), ObstaclesOf(members))
  }

  lemma PlacedSpread(ordered: seq<Stub>, obstacles: seq<Rect>)
    ensures Spread(Placed(ordered, obstacles)) && ClearRow(Placed(ordered, obstacles), obstacles)
  {
    hide PlacedX, Clear;
    forall i, j | 0 <= i < j < |ordered|
      ensures PlacedX(ordered, obstacles, i) + WIDTH + GAP <= PlacedX(ordered, obstacles, j) {
      PlacedInOrder(ordered, obstacles, i, j);
    }
    forall s | s in Placed(ordered, obstacles) ensures Clear(s.x, s.y, obstacles) {
      var k :| 0 <= k < |ordered| && Placed(ordered, obstacles)[k] == s;
      PlacedClear(ordered, obstacles, k);
    }
  }

  // The pass moves nothing exactly when every band is already in place.
  lemma UnmovedExactly(stubs: seq<Stub>, edges: seq<Edge>, members: seq<Member>)
    requires DistinctBy(stubs, StubId)
    ensures SeparateBoundaryStubs(stubs, edges, members) == stubs <==> InPlace(stubs, edges, members)
  {
    hide Bands, PlacedX, SortBy, Positions, Spread;
    var out := SeparateBoundaryStubs(stubs, edges, members);
    var move := Mover(stubs, edges, members);
    if InPlace(stubs, edges, members) {
      forall i | 0 <= i < |stubs| ensures out[i] == stubs[i] {
        var p, k := Whereabouts(stubs, edges, members, stubs[i]);
        var b := BandsOf(stubs)[p];
        assert b in BandsOf(stubs);
        PlacedStays(SortBy(b, ColumnKey(edges)), ObstaclesOf(members), k);
      }
    }
    if out == stubs {
      forall b | b in BandsOf(stubs)
        ensures Spread(SortBy(b, ColumnKey(edges))) && ClearRow(SortBy(b, ColumnKey(edges)), ObstaclesOf(members))
      {
        var i :| 0 <= i < |BandsOf(stubs)| && BandsOf(stubs)[i] == b;
        FixedBand(stubs, edges, members, i);
        PlacedSpread(SortBy(b, ColumnKey(edges)), ObstaclesOf(members));
      }
    }
  }

  lemma FixedBand(stubs: seq<Stub>, edges: seq<Edge>, members: seq<Member>, i: nat)
    requires DistinctBy(stubs, StubId) && i < |BandsOf(stubs)|
    requires SeparateBoundaryStubs(stubs, edges, members) == stubs
    ensures PlaceBand(BandsOf(stubs)[i], edges, ObstaclesOf(members)) == SortBy(BandsOf(stubs)[i], ColumnKey(edges))
  {
    hide Bands, PlacedX, SortBy, Positions, PlaceBand;
    var b, move := BandsOf(stubs)[i], Mover(stubs, edges, members);
    var ordered := SortBy(b, ColumnKey(edges));
    PlacedIsMoved(stubs, edges, members, i);
    RowsDistinct(stubs);
    BandWithin(BandsOf(stubs), i);
    forall k | 0 <= k < |ordered| ensures move(ordered[k]) == ordered[k] {
      SortMembers(b, ColumnKey(edges), ordered[k]);
      var j :| 0 <= j < |stubs| && stubs[j] == ordered[k];
      assert SeparateBoundaryStubs(stubs, edges, members)[j] == move(stubs[j]);
    }
  }

  // --- idempotence ---

  function BandMover(move: Stub -> Stub): seq<Stub> -> seq<Stub> {
    (b: seq<Stub>) => Map(b, move)
  }

  lemma MapSnoc<T, U>(s: seq<T>, x: T, f: T -> U)
    ensures Map(s + [x], f) == Map(s, f) + [f(x)]
  {
  }

  lemma AddMapped(bands: seq<seq<Stub>>, stub: Stub, move: Stub -> Stub)
    requires forall s: Stub :: move(s).y == s.y
    ensures AddToBands(Map(bands, BandMover(move)), move(stub)) == Map(AddToBands(bands, stub), BandMover(move))
  {
    var moved := Map(bands, BandMover(move));
    if AddToBands(bands, stub) == bands + [[stub]] {
      MapSnoc(bands, [stub], BandMover(move));
      assert Map([stub], move) == [move(stub)];
    } else {
      var front, last := bands[..|bands| - 1], bands[|bands| - 1];
      MapSnoc(front, last + [stub], BandMover(move));
      MapSnoc(last, stub, move);
      assert moved[..|moved| - 1] == Map(front, BandMover(move));
      assert moved[|moved| - 1] == Map(last, move);
    }
  }

  // Bands read rows only, so moving stubs sideways keeps them.
  lemma {:induction false} BandsMapped(rows: seq<Stub>, move: Stub -> Stub)
    requires forall s: Stub :: move(s).y == s.y
    ensures Bands(Map(rows, move)) == Map(Bands(rows), BandMover(move))
  {
    if rows != [] {
      var front, last := rows[..|rows| - 1], rows[|rows| - 1];
      BandsMapped(front, move);
      assert Map(rows, move)[..|rows| - 1] == Map(front, move);
      AddMapped(Bands(front), last, move);
    }
  }

  // The moved band, sorted again, is the placed band.
  lemma MovedBandSorts(stubs: seq<Stub>, edges: seq<Edge>, members: seq<Member>, i: nat)
    requires DistinctBy(stubs, StubId) && i < |BandsOf(stubs)|
    ensures SortBy(Map(BandsOf(stubs)[i], Mover(stubs, edges, members)), ColumnKey(edges))
         == PlaceBand(BandsOf(stubs)[i], edges, ObstaclesOf(members))
  {
    hide Bands, PlacedX, SortBy, Positions;
    var b, move, key := BandsOf(stubs)[i], Mover(stubs, edges, members), ColumnKey(edges);
    var placed := PlaceBand(b, edges, ObstaclesOf(members));
    PlacedIsMoved(stubs, edges, members, i);
    SortImage(b, key, move);
    SortContents(Map(b, move), key);
    SortSorted(Map(b, move), key);
    PlacedSpread(SortBy(b, key), ObstaclesOf(members));
    forall j, k | 0 <= j < k < |placed| ensures key(placed[j]).0 < key(placed[k]).0 {
      assert placed[j].x + WIDTH + GAP <= placed[k].x;
    }
    SortUnique(SortBy(Map(b, move), key), placed, key);
  }

  // A second pass over the result is the identity.
  lemma SeparationIdempotent(stubs: seq<Stub>, edges: seq<Edge>, members: seq<Member>)
    requires DistinctBy(stubs, StubId)
    ensures var once := SeparateBoundaryStubs(stubs, edges, members);
            SeparateBoundaryStubs(once, edges, members) == once
  {
    hide Bands, PlacedX, SortBy, Positions, PlacedStubs;
    var once, move := SeparateBoundaryStubs(stubs, edges, members), Mover(stubs, edges, members);
    SortMapped(stubs, RowKey, move);
    BandsMapped(Rows(stubs), move);
    assert BandsOf(once) == Map(BandsOf(stubs), BandMover(move));
    forall c | c in BandsOf(once)
      ensures Spread(SortBy(c, ColumnKey(edges))) && ClearRow(SortBy(c, ColumnKey(edges)), ObstaclesOf(members))
    {
      var i :| 0 <= i < |BandsOf(once)| && BandsOf(once)[i] == c;
      MovedBandSorts(stubs, edges, members, i);
      PlacedSpread(SortBy(BandsOf(stubs)[i], ColumnKey(edges)), ObstaclesOf(members));
    }
    MovedDistinct(stubs, move);
    UnmovedExactly(once, edges, members);
  }

  lemma MovedDistinct(stubs: seq<Stub>, move: Stub -> Stub)
    requires DistinctBy(stubs, StubId) && forall s: Stub :: move(s).id == s.id
    ensures DistinctBy(Map(stubs, move), StubId)
  {
  }

  // Being the gap apart is not enough to stay: a band can chain three stubs of
  // which the first and last share a column, and the sweep parts those two.
  lemma ApartCanMove(a: Stub, b: Stub, c: Stub, edges: seq<Edge>, members: seq<Member>)
    requires a.id != b.id && a.id != c.id && b.id != c.id
    requires a.y <= b.y <= c.y && b.y < a.y + STUB_HEIGHT + GAP && c.y < b.y + STUB_HEIGHT + GAP
    requires a.x == c.x && a.y + STUB_HEIGHT + GAP <= c.y && a.x + WIDTH + GAP <= b.x
    ensures Apart(a, b) && Apart(b, c) && Apart(a, c)
    ensures SeparateBoundaryStubs([a, b, c], edges, members) != [a, b, c]
  {
    hide Bands, PlacedX, SortBy, Positions, SeparateBoundaryStubs;
    var stubs := [a, b, c];
    OneBand(a, b, c);
    assert stubs in BandsOf(stubs);
    SharedColumn(stubs, edges, a, c);
    UnmovedExactly(stubs, edges, members);
  }

  lemma SharedColumn(band: seq<Stub>, edges: seq<Edge>, a: Stub, c: Stub)
    requires a in band && c in band && a != c && a.x == c.x
    ensures !Spread(SortBy(band, ColumnKey(edges)))
  {
    hide SortBy;
    var ordered := SortBy(band, ColumnKey(edges));
    SortMembers(band, ColumnKey(edges), a);
    SortMembers(band, ColumnKey(edges), c);
    var i :| 0 <= i < |ordered| && ordered[i] == a;
    var j :| 0 <= j < |ordered| && ordered[j] == c;
    assert ordered[i].x + WIDTH + GAP > ordered[j].x && ordered[j].x + WIDTH + GAP > ordered[i].x;
  }

  lemma AddToOne(band: seq<Stub>, s: Stub)
    requires band != [] && s.y < band[|band| - 1].y + STUB_HEIGHT + GAP
    ensures AddToBands([band], s) == [band + [s]]
  {
  }

  lemma OneBand(a: Stub, b: Stub, c: Stub)
    requires a.y <= b.y <= c.y && b.y < a.y + STUB_HEIGHT + GAP && c.y < b.y + STUB_HEIGHT + GAP
    ensures BandsOf([a, b, c]) == [[a, b, c]]
  {
    assert Rows([a, b, c]) == [a, b, c] by {
      assert [a, b, c][1..] == [b, c] && [b, c][1..] == [c] && [c][1..] == [];
      assert SortBy([c], RowKey) == [c];
      assert SortBy([b, c], RowKey) == [b, c];
    }
    assert [a, b, c][..2] == [a, b] && [a, b][..1] == [a] && [a][..0] == [];
    AddToOne([a], b);
    AddToOne([a, b], c);
    assert Bands([a]) == AddToBands([], a) == [[a]];
    assert Bands([a, b]) == AddToBands([[a]], b);
    assert [a] + [b] == [a, b] && [a, b] + [c] == [a, b, c];
  }

  // --- the pass as it runs ---

  method GroupIntoBands(rows: seq<Stub>) returns (bands: seq<seq<Stub>>)
    ensures bands == Bands(rows)
  {
    bands := [];
    NoBands();
    hide Bands;
    for i := 0 to |rows|
      invariant bands == Bands(rows[..i])
    {
      var stub := rows[i];
      BandsNext(rows, i);
      if bands != [] && bands[|bands| - 1] != []
         && stub.y < bands[|bands| - 1][|bands[|bands| - 1]| - 1].y + STUB_HEIGHT + GAP {
        bands := bands[|bands| - 1 := bands[|bands| - 1] + [stub]];
      } else {
        bands := bands + [[stub]];
      }
    }
    assert rows[..|rows|] == rows;
  }

  lemma NoBands()
    ensures Bands([]) == []
  {
  }

  lemma BandsNext(rows: seq<Stub>, i: nat)
    requires i < |rows|
    ensures Bands(rows[..i + 1]) == AddToBands(Bands(rows[..i]), rows[i])
  {
    assert rows[..i + 1][..i] == rows[..i];
  }

  lemma NextSwept(ordered: seq<Stub>, k: nat)
    requires k < |ordered|
    ensures SweptX(ordered, k)
         == if k == 0 then ordered[k].x else Max(ordered[k].x, SweptX(ordered, k - 1) + WIDTH + GAP)
  {
  }

  // The sweep from the left, and how far it pushed the last stub.
  method SweepRow(ordered: seq<Stub>) returns (xs: seq<real>, shift: real)
    requires ordered != []
    ensures |xs| == |ordered| && forall j | 0 <= j < |ordered| :: xs[j] == SweptX(ordered, j)
    ensures shift == Shift(ordered)
  {
    hide SweptX;
    var right: Option<real> := None;
    xs := [];
    for k := 0 to |ordered|
      invariant |xs| == k && forall j | 0 <= j < k :: xs[j] == SweptX(ordered, j)
      invariant right == if k == 0 then None else Some(SweptX(ordered, k - 1) + WIDTH)
    {
      NextSwept(ordered, k);
      var x := if right.None? then ordered[k].x else Max(ordered[k].x, right.value + GAP);
      right := Some(x + WIDTH);
      xs := xs + [x];
    }
    shift := (right.value - ordered[|ordered| - 1].x - WIDTH) / 2.0;
  }

  function Minimum(ordered: seq<Stub>, obstacles: seq<Rect>, k: nat): Option<real>
    requires k <= |ordered|
  {
    if k == 0 then None else Some(PlacedX(ordered, obstacles, k - 1) + WIDTH + GAP)
  }

  lemma NextPlaced(ordered: seq<Stub>, obstacles: seq<Rect>, k: nat)
    requires k < |ordered|
    ensures PlacedX(ordered, obstacles, k)
         == ClearStubX(SweptX(ordered, k) - Shift(ordered), ordered[k].y, Minimum(ordered, obstacles, k), obstacles)
  {
    hide ClearStubX, SweptX, Shift;
  }

  // Each stub of a swept row to its nearest clear slot, left to right.
  method ClearRowSlots(ordered: seq<Stub>, xs: seq<real>, shift: real, obstacles: seq<Rect>) returns (placed: seq<Stub>)
    requires ordered != [] && shift == Shift(ordered)
    requires |xs| == |ordered| && forall j | 0 <= j < |ordered| :: xs[j] == SweptX(ordered, j)
    ensures placed == Placed(ordered, obstacles)
  {
    hide ClearStubX, SweptX, Shift, PlacedX;
    var minimum: Option<real> := None;
    placed := [];
    for k := 0 to |ordered|
      invariant placed == Placed(ordered, obstacles)[..k]
      invariant minimum == Minimum(ordered, obstacles, k)
    {
      var clearedX := ClearStubX(xs[k] - shift, ordered[k].y, minimum, obstacles);
      NextPlaced(ordered, obstacles, k);
      minimum := Some(clearedX + WIDTH + GAP);
      placed := placed + [ordered[k].(x := clearedX)];
    }
  }

  // One band: swept, centred, and cleared.
  method SeparateBand(band: seq<Stub>, edges: seq<Edge>, obstacles: seq<Rect>) returns (placed: seq<Stub>)
    requires band != []
    ensures placed == PlaceBand(band, edges, obstacles)
  {
    hide SortBy;
    var ordered := SortBy(band, ColumnKey(edges));
    SortContents(band, ColumnKey(edges));
    var xs, shift := SweepRow(ordered);
    placed := ClearRowSlots(ordered, xs, shift, obstacles);
  }

  // The whole pass. What it returns is the separated list of the lemmas above.
  method Separate(stubs: seq<Stub>, edges: seq<Edge>, members: seq<Member>) returns (out: seq<Stub>)
    ensures out == SeparateBoundaryStubs(stubs, edges, members)
  {
    hide PlaceBand, SortBy, Bands;
    var obstacles := Map(members, Inflate);
    var bands := GroupIntoBands(SortBy(stubs, RowKey));
    BandsFlatten(SortBy(stubs, RowKey));
    var entries: seq<Stub> := [];
    for i := 0 to |bands|
      invariant entries == Flatten(PlaceBands(bands[..i], edges, obstacles))
    {
      assert bands[i] in Bands(SortBy(stubs, RowKey));
      var placed := SeparateBand(bands[i], edges, obstacles);
      assert bands[..i + 1][..i] == bands[..i];
      FlattenSnoc(PlaceBands(bands[..i], edges, obstacles), placed);
      entries := entries + placed;
    }
    assert bands[..|bands|] == bands;
    var positions: map<Id, real> := map[];
    for i := 0 to |entries|
      invariant positions == Positions(entries[..i])
    {
      assert entries[..i + 1][..i] == entries[..i];
      positions := positions[entries[i].id := entries[i].x];
    }
    assert entries[..|entries|] == entries;
    out := Map(stubs, MoveTo(positions));
  }
}
