// Placing a focused Group's boundary stubs: bands of near rows, a left-to-right
// sweep, centring, and a move to the nearest slot clear of the members.
module StubPlacement {
  import opened Reachability
  import opened Sequences
  import opened WorkflowGraph
  import opened StableSort

  const WIDTH := 192.0
  const STUB_HEIGHT := 40.0
  const GAP := 24.0

  datatype Rect = Rect(x: real, y: real, width: real, height: real)

  datatype Stub = Stub(id: Id, x: real, y: real)

  predicate RectanglesOverlap(a: Rect, b: Rect) {
    a.x < b.x + b.width && a.x + a.width > b.x && a.y < b.y + b.height && a.y + a.height > b.y
  }

  function StubRect(x: real, y: real): Rect { Rect(x, y, WIDTH, STUB_HEIGHT) }

  predicate Clear(x: real, y: real, obstacles: seq<Rect>) {
    forall o | o in obstacles :: !RectanglesOverlap(StubRect(x, y), o)
  }

  // A lower bound, absent for minus infinity.
  predicate AtLeast(x: real, minimum: Option<real>) {
    minimum.None? || x >= minimum.value
  }

  function Max(a: real, b: real): real { if a >= b then a else b }

  function Abs(a: real): real { if a >= 0.0 then a else -a }

  // --- the nearest clear slot ---

  function InRow(y: real): Rect -> bool {
    (o: Rect) => o.y < y + STUB_HEIGHT && o.y + o.height > y
  }

  function Boundaries(near: seq<Rect>): seq<real> {
    if near == [] then [] else [near[0].x - WIDTH, near[0].x + near[0].width] + Boundaries(near[1..])
  }

  function Allowed(minimum: Option<real>): real -> bool { (x: real) => AtLeast(x, minimum) }

  function Start(x: real, minimum: Option<real>): real {
    if minimum.None? then x else Max(x, minimum.value)
  }

  function Candidates(x: real, minimum: Option<real>, near: seq<Rect>): seq<real> {
    Filter([Start(x, minimum)] + Boundaries(near), Allowed(minimum))
  }

  function NearTo(x: real): real -> Key { (c: real) => (Abs(c - x), c) }

  function FirstClear(slots: seq<real>, y: real, near: seq<Rect>): Option<real> {
    if slots == [] then None
    else if Clear(slots[0], y, near) then Some(slots[0])
    else FirstClear(slots[1..], y, near)
  }

  function FindSlot(x: real, y: real, minimum: Option<real>, obstacles: seq<Rect>): Option<real> {
    var near := Filter(obstacles, InRow(y));
    FirstClear(SortBy(Candidates(x, minimum, near), NearTo(x)), y, near)
  }

  lemma {:induction false} FirstClearFinds(slots: seq<real>, y: real, near: seq<Rect>, c: real)
    requires c in slots && Clear(c, y, near)
    ensures FirstClear(slots, y, near).Some?
  {
    if !Clear(slots[0], y, near) { FirstClearFinds(slots[1..], y, near, c); }
  }

  lemma {:induction false} FirstClearIsFirst(slots: seq<real>, y: real, near: seq<Rect>, key: real -> Key, c: real)
    requires SortedBy(slots, key) && FirstClear(slots, y, near).Some?
    ensures FirstClear(slots, y, near).value in slots && Clear(FirstClear(slots, y, near).value, y, near)
    ensures c in slots && Clear(c, y, near) ==>
      FirstClear(slots, y, near).value == c || KeyLe(key(FirstClear(slots, y, near).value), key(c))
  {
    if !Clear(slots[0], y, near) {
      FirstClearIsFirst(slots[1..], y, near, key, c);
    } else if c in slots {
      var j :| 0 <= j < |slots| && slots[j] == c;
      if j > 0 { assert KeyLe(key(slots[0]), key(slots[j])); }
    }
  }

  // Only obstacles in the stub's row can overlap it.
  lemma ClearOfRow(x: real, y: real, obstacles: seq<Rect>)
    ensures Clear(x, y, Filter(obstacles, InRow(y))) <==> Clear(x, y, obstacles)
  {
  }

  // The last right-hand boundary in (lo, hi], or lo.
  function RightStop(near: seq<Rect>, lo: real, hi: real): real {
    if near == [] then lo
    else
      var stop := RightStop(near[1..], lo, hi);
      var right := near[0].x + near[0].width;
      if stop < right <= hi then right else stop
  }

  lemma {:induction false} RightStopLast(near: seq<Rect>, lo: real, hi: real)
    requires lo <= hi
    ensures lo <= RightStop(near, lo, hi) <= hi
    ensures RightStop(near, lo, hi) == lo || RightStop(near, lo, hi) in Boundaries(near)
    ensures forall o | o in near :: !(RightStop(near, lo, hi) < o.x + o.width <= hi)
  {
    if near != [] { RightStopLast(near[1..], lo, hi); }
  }

  // The first slot ending at a left-hand boundary in [lo, hi), or hi.
  function LeftStop(near: seq<Rect>, lo: real, hi: real): real {
    if near == [] then hi
    else
      var stop := LeftStop(near[1..], lo, hi);
      var left := near[0].x - WIDTH;
      if lo <= left < stop then left else stop
  }

  lemma {:induction false} LeftStopFirst(near: seq<Rect>, lo: real, hi: real)
    requires lo <= hi
    ensures lo <= LeftStop(near, lo, hi) <= hi
    ensures LeftStop(near, lo, hi) == hi || LeftStop(near, lo, hi) in Boundaries(near)
    ensures forall o | o in near :: !(lo <= o.x - WIDTH < LeftStop(near, lo, hi))
  {
    if near != [] { LeftStopFirst(near[1..], lo, hi); }
  }

  // Some position past every obstacle is clear.
  function Beyond(near: seq<Rect>, lo: real): real {
    if near == [] then lo else Max(near[0].x + near[0].width, Beyond(near[1..], lo))
  }

  lemma {:induction false} BeyondClears(near: seq<Rect>, lo: real)
    ensures Beyond(near, lo) >= lo && forall o | o in near :: o.x + o.width <= Beyond(near, lo)
  {
    if near != [] { BeyondClears(near[1..], lo); }
  }

  ghost predicate CloserOrSame(c: real, z: real, x: real) {
    Abs(c - x) < Abs(z - x) || (Abs(c - x) == Abs(z - x) && c <= z)
  }

  // Whatever clear position is allowed, a clear candidate is at least as near.
  lemma NearerCandidate(x: real, y: real, minimum: Option<real>, near: seq<Rect>, z: real) returns (c: real)
    requires forall o | o in near :: InRow(y)(o)
    requires AtLeast(z, minimum) && Clear(z, y, near)
    ensures c in Candidates(x, minimum, near) && Clear(c, y, near) && CloserOrSame(c, z, x)
  {
    var start := Start(x, minimum);
    if z >= start {
      c := RightStop(near, start, z);
      RightStopLast(near, start, z);
    } else {
      c := LeftStop(near, z, start);
      LeftStopFirst(near, z, start);
    }
    assert c in [start] + Boundaries(near);
    forall o | o in near ensures !RectanglesOverlap(StubRect(c, y), o) {
      assert InRow(y)(o) && !RectanglesOverlap(StubRect(z, y), o);
    }
  }

  lemma SlotExists(x: real, y: real, minimum: Option<real>, obstacles: seq<Rect>)
    ensures FindSlot(x, y, minimum, obstacles).Some?
  {
    var near := Filter(obstacles, InRow(y));
    var z := Beyond(near, Start(x, minimum));
    BeyondClears(near, Start(x, minimum));
    var c := NearerCandidate(x, y, minimum, near, z);
    SortMembers(Candidates(x, minimum, near), NearTo(x), c);
    FirstClearFinds(SortBy(Candidates(x, minimum, near), NearTo(x)), y, near, c);
  }

  // The search never comes up empty, which is what the non-null assertion needs.
  function ClearStubX(x: real, y: real, minimum: Option<real>, obstacles: seq<Rect>): real {
    SlotExists(x, y, minimum, obstacles);
    FindSlot(x, y, minimum, obstacles).value
  }

  lemma SlotIsFirst(x: real, y: real, minimum: Option<real>, obstacles: seq<Rect>)
    ensures var near := Filter(obstacles, InRow(y));
            FirstClear(SortBy(Candidates(x, minimum, near), NearTo(x)), y, near) ==
              Some(ClearStubX(x, y, minimum, obstacles))
  {
    SlotExists(x, y, minimum, obstacles);
  }

  lemma SlotIsClear(x: real, y: real, minimum: Option<real>, near: seq<Rect>, c: real)
    requires FirstClear(SortBy(Candidates(x, minimum, near), NearTo(x)), y, near) == Some(c)
    ensures AtLeast(c, minimum) && Clear(c, y, near)
  {
    hide Candidates, SortBy, FirstClear, Clear;
    var candidates := Candidates(x, minimum, near);
    SortSorted(candidates, NearTo(x));
    FirstClearIsFirst(SortBy(candidates, NearTo(x)), y, near, NearTo(x), c);
    SortMembers(candidates, NearTo(x), c);
    CandidateAllowed(x, minimum, near, c);
  }

  lemma SlotIsBest(x: real, y: real, minimum: Option<real>, near: seq<Rect>, c: real, d: real)
    requires FirstClear(SortBy(Candidates(x, minimum, near), NearTo(x)), y, near) == Some(c)
    requires d in Candidates(x, minimum, near) && Clear(d, y, near)
    ensures CloserOrSame(c, d, x)
  {
    hide Candidates, SortBy, FirstClear, Clear;
    var candidates := Candidates(x, minimum, near);
    SortSorted(candidates, NearTo(x));
    SortMembers(candidates, NearTo(x), d);
    FirstClearIsFirst(SortBy(candidates, NearTo(x)), y, near, NearTo(x), d);
  }

  lemma CandidateAllowed(x: real, minimum: Option<real>, near: seq<Rect>, c: real)
    requires c in Candidates(x, minimum, near)
    ensures AtLeast(c, minimum)
  {
  }

  // The answer is allowed and clear, and no allowed clear position anywhere on
  // the line is nearer. Of two equally near it is the left one.
  lemma ClearStubXOptimal(x: real, y: real, minimum: Option<real>, obstacles: seq<Rect>, z: real)
    ensures var c := ClearStubX(x, y, minimum, obstacles);
            && AtLeast(c, minimum) && Clear(c, y, obstacles)
            && (AtLeast(z, minimum) && Clear(z, y, obstacles) ==> CloserOrSame(c, z, x))
  {
    hide ClearStubX, Candidates, Clear, FirstClear, SortBy;
    var near, c := Filter(obstacles, InRow(y)), ClearStubX(x, y, minimum, obstacles);
    SlotIsFirst(x, y, minimum, obstacles);
    SlotIsClear(x, y, minimum, near, c);
    ClearOfRow(c, y, obstacles);
    ClearOfRow(z, y, obstacles);
    if AtLeast(z, minimum) && Clear(z, y, obstacles) {
      var d := NearerCandidate(x, y, minimum, near, z);
      SlotIsBest(x, y, minimum, near, c, d);
    }
  }

  // A wanted position that is allowed and clear is taken as it is.
  lemma ClearStubXStays(x: real, y: real, minimum: Option<real>, obstacles: seq<Rect>)
    requires AtLeast(x, minimum) && Clear(x, y, obstacles)
    ensures ClearStubX(x, y, minimum, obstacles) == x
  {
    ClearStubXOptimal(x, y, minimum, obstacles, x);
  }

  // --- bands ---

  function RowKey(s: Stub): Key { (s.y, 0.0) }

  function StubId(s: Stub): Id { s.id }

  // A stub within a row's reach of the last one joins its band.
  function AddToBands(bands: seq<seq<Stub>>, stub: Stub): seq<seq<Stub>> {
    if bands != [] && bands[|bands| - 1] != []
       && stub.y < bands[|bands| - 1][|bands[|bands| - 1]| - 1].y + STUB_HEIGHT + GAP
    then bands[..|bands| - 1] + [bands[|bands| - 1] + [stub]]
    else bands + [[stub]]
  }

  function Bands(rows: seq<Stub>): seq<seq<Stub>> {
    if rows == [] then [] else AddToBands(Bands(rows[..|rows| - 1]), rows[|rows| - 1])
  }

  function Flatten(bands: seq<seq<Stub>>): seq<Stub> {
    if bands == [] then [] else Flatten(bands[..|bands| - 1]) + bands[|bands| - 1]
  }

  lemma FlattenSnoc(bands: seq<seq<Stub>>, band: seq<Stub>)
    ensures Flatten(bands + [band]) == Flatten(bands) + band
  {
  }

  lemma AddFlattens(bands: seq<seq<Stub>>, stub: Stub)
    ensures Flatten(AddToBands(bands, stub)) == Flatten(bands) + [stub]
  {
  }

  // The bands hold every stub once, in row order, and none is empty.
  lemma {:induction false} BandsFlatten(rows: seq<Stub>)
    ensures Flatten(Bands(rows)) == rows
    ensures forall b | b in Bands(rows) :: b != []
  {
    hide AddToBands;
    if rows != [] {
      var front, last := rows[..|rows| - 1], rows[|rows| - 1];
      BandsFlatten(front);
      AddFlattens(Bands(front), last);
      AddNonempty(Bands(front), last);
      assert rows == front + [last];
    }
  }

  lemma AddNonempty(bands: seq<seq<Stub>>, stub: Stub)
    requires forall b | b in bands :: b != []
    ensures forall b | b in AddToBands(bands, stub) :: b != []
  {
    var next := AddToBands(bands, stub);
    forall b | b in next ensures b != [] {
      if b != next[|next| - 1] { assert b in bands; }
    }
  }

  ghost predicate RowsApart(bands: seq<seq<Stub>>) {
    forall i, j, u, v | 0 <= i < j < |bands| && u in bands[i] && v in bands[j] :: v.y >= u.y + STUB_HEIGHT + GAP
  }

  ghost predicate NoneBelow(bands: seq<seq<Stub>>, y: real) {
    forall b, u | b in bands && u in b :: u.y <= y
  }

  ghost predicate EndsWith(bands: seq<seq<Stub>>, last: Stub) {
    bands != [] && bands[|bands| - 1] != [] && bands[|bands| - 1][|bands[|bands| - 1]| - 1] == last
  }

  // Stubs of different bands are a stub's height and the gap apart, vertically.
  lemma {:induction false} BandsApart(rows: seq<Stub>)
    requires SortedBy(rows, RowKey)
    ensures RowsApart(Bands(rows))
    ensures rows != [] ==> NoneBelow(Bands(rows), rows[|rows| - 1].y)
    ensures rows != [] ==> EndsWith(Bands(rows), rows[|rows| - 1])
  {
    if rows != [] {
      var front, last := rows[..|rows| - 1], rows[|rows| - 1];
      BandsApart(front);
      if front == [] {
        assert AddToBands([], last) == [[last]];
      } else {
        hide AddToBands, RowsApart, NoneBelow, EndsWith, SortedBy;
        assert front[|front| - 1] == rows[|rows| - 2];
        assert KeyLe(RowKey(rows[|rows| - 2]), RowKey(rows[|rows| - 1]));
        BandsStep(Bands(front), front[|front| - 1], last);
      }
    }
  }

  lemma BandsStep(bands: seq<seq<Stub>>, previous: Stub, last: Stub)
    requires EndsWith(bands, previous)
    requires RowsApart(bands) && NoneBelow(bands, previous.y) && previous.y <= last.y
    ensures RowsApart(AddToBands(bands, last)) && NoneBelow(AddToBands(bands, last), last.y)
    ensures EndsWith(AddToBands(bands, last), last)
  {
    var i := |bands| - 1;
    if last.y < previous.y + STUB_HEIGHT + GAP {
      JoinsLast(bands, last);
      assert AddToBands(bands, last) == bands[..i] + [bands[i] + [last]];
    } else {
      OpensNext(bands, last);
      assert AddToBands(bands, last) == bands + [[last]];
    }
  }

  // The last band takes `last` in: it still stands below those before it.
  lemma JoinsLast(bands: seq<seq<Stub>>, last: Stub)
    requires bands != [] && RowsApart(bands)
    requires exists u :: u in bands[|bands| - 1] && NoneBelow(bands, u.y) && u.y <= last.y
    ensures var i := |bands| - 1;
            RowsApart(bands[..i] + [bands[i] + [last]]) && NoneBelow(bands[..i] + [bands[i] + [last]], last.y)
  {
  }

  // A band of its own stands below all others.
  lemma OpensNext(bands: seq<seq<Stub>>, last: Stub)
    requires RowsApart(bands) && NoneBelow(bands, last.y - STUB_HEIGHT - GAP)
    ensures RowsApart(bands + [[last]]) && NoneBelow(bands + [[last]], last.y)
  {
  }

  // --- one band ---

  function Onto(id: Id): Edge -> bool { (e: Edge) => e.target == id }

  // Where a stub stands among stubs of the same x: True, then others, then False.
  function BranchOrder(edges: seq<Edge>, id: Id): real {
    var incoming := Filter(edges, Onto(id));
    if |incoming| != 1 then 0.0
    else if incoming[0].sourceHandle == Some("true") then -1.0
    else if incoming[0].sourceHandle == Some("false") then 1.0
    else 0.0
  }

  function ColumnKey(edges: seq<Edge>): Stub -> Key {
    (s: Stub) => (s.x, BranchOrder(edges, s.id))
  }

  // The sweep: each stub at its own x or clear of the one before.
  function SweptX(ordered: seq<Stub>, k: nat): real
    requires k < |ordered|
  {
    if k == 0 then ordered[0].x else Max(ordered[k].x, SweptX(ordered, k - 1) + WIDTH + GAP)
  }

  // Half of what the sweep moved the last stub.
  function Shift(ordered: seq<Stub>): real
    requires ordered != []
  {
    (SweptX(ordered, |ordered| - 1) + WIDTH - ordered[|ordered| - 1].x - WIDTH) / 2.0
  }

  function PlacedX(ordered: seq<Stub>, obstacles: seq<Rect>, k: nat): real
    requires k < |ordered|
  {
    ClearStubX(SweptX(ordered, k) - Shift(ordered), ordered[k].y,
               if k == 0 then None else Some(PlacedX(ordered, obstacles, k - 1) + WIDTH + GAP),
               obstacles)
  }

  function Placed(ordered: seq<Stub>, obstacles: seq<Rect>): (placed: seq<Stub>)
    ensures |placed| == |ordered|
    ensures forall k | 0 <= k < |ordered| :: placed[k] == ordered[k].(x := PlacedX(ordered, obstacles, k))
  {
    seq(|ordered|, k requires 0 <= k < |ordered| => ordered[k].(x := PlacedX(ordered, obstacles, k)))
  }

  function PlaceBand(band: seq<Stub>, edges: seq<Edge>, obstacles: seq<Rect>): seq<Stub> {
    Placed(SortBy(band, ColumnKey(edges)), obstacles)
  }

  lemma {:induction false} PlacedInOrder(ordered: seq<Stub>, obstacles: seq<Rect>, i: nat, j: nat)
    requires i < j < |ordered|
    ensures PlacedX(ordered, obstacles, i) + WIDTH + GAP <= PlacedX(ordered, obstacles, j)
    decreases j
  {
    hide ClearStubX;
    var minimum := Some(PlacedX(ordered, obstacles, j - 1) + WIDTH + GAP);
    ClearStubXOptimal(SweptX(ordered, j) - Shift(ordered), ordered[j].y, minimum, obstacles, 0.0);
    if i < j - 1 { PlacedInOrder(ordered, obstacles, i, j - 1); }
  }

  lemma PlacedClear(ordered: seq<Stub>, obstacles: seq<Rect>, k: nat)
    requires k < |ordered|
    ensures Clear(PlacedX(ordered, obstacles, k), ordered[k].y, obstacles)
  {
    hide ClearStubX, Clear, SweptX, Shift;
    var minimum := if k == 0 then None else Some(PlacedX(ordered, obstacles, k - 1) + WIDTH + GAP);
    ClearStubXOptimal(SweptX(ordered, k) - Shift(ordered), ordered[k].y, minimum, obstacles, 0.0);
  }

  ghost predicate Spread(row: seq<Stub>) {
    forall i, j | 0 <= i < j < |row| :: row[i].x + WIDTH + GAP <= row[j].x
  }

  // A band already spread out and clear is left exactly as it is.
  lemma {:induction false} SweptStays(row: seq<Stub>, k: nat)
    requires Spread(row) && k < |row|
    ensures SweptX(row, k) == row[k].x
  {
    if k > 0 { SweptStays(row, k - 1); }
  }

  lemma {:induction false} PlacedStays(row: seq<Stub>, obstacles: seq<Rect>, k: nat)
    requires Spread(row) && k < |row| && forall s | s in row :: Clear(s.x, s.y, obstacles)
    ensures PlacedX(row, obstacles, k) == row[k].x
  {
    hide ClearStubX;
    SweptStays(row, k);
    SweptStays(row, |row| - 1);
    if k > 0 { PlacedStays(row, obstacles, k - 1); }
    var minimum := if k == 0 then None else Some(row[k - 1].x + WIDTH + GAP);
    ClearStubXStays(row[k].x, row[k].y, minimum, obstacles);
  }

  // --- all stubs ---

  datatype Member = Member(x: real, y: real, width: real, height: real)

  function Inflate(m: Member): Rect {
    Rect(m.x - GAP, m.y - GAP, m.width + 2.0 * GAP, m.height + 2.0 * GAP)
  }

  function PlaceBands(bands: seq<seq<Stub>>, edges: seq<Edge>, obstacles: seq<Rect>): seq<seq<Stub>> {
    if bands == [] then []
    else PlaceBands(bands[..|bands| - 1], edges, obstacles) + [PlaceBand(bands[|bands| - 1], edges, obstacles)]
  }

  function PlacedStubs(stubs: seq<Stub>, edges: seq<Edge>, obstacles: seq<Rect>): seq<Stub> {
    Flatten(PlaceBands(Bands(SortBy(stubs, RowKey)), edges, obstacles))
  }

  // `new Map(entries)`: the last entry of an id wins.
  function Positions(placed: seq<Stub>): map<Id, real> {
    if placed == [] then map[]
    else Positions(placed[..|placed| - 1])[placed[|placed| - 1].id := placed[|placed| - 1].x]
  }

  function MoveTo(positions: map<Id, real>): Stub -> Stub {
    (s: Stub) => if s.id in positions then s.(x := positions[s.id]) else s
  }

  function SeparateBoundaryStubs(stubs: seq<Stub>, edges: seq<Edge>, members: seq<Member>): seq<Stub> {
    Map(stubs, MoveTo(Positions(PlacedStubs(stubs, edges, Map(members, Inflate)))))
  }
}
