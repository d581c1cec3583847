/** Repeated halving of an interval in exact arithmetic, and the grid of cells two such axes make. */
module Halving {
  import opened Observations

  datatype Span = Span(lo: real, hi: real) {
    function Mid(): real { 0.5 * (lo + hi) }

    function Width(): real { hi - lo }

    function Half(up: bool): Span { if up then Span(Mid(), hi) else Span(lo, Mid()) }
  }

  /** The cell these turns lead to. */
  function Narrow(s: Span, ups: seq<bool>): Span {
    if ups == [] then s else Narrow(s, ups[..|ups| - 1]).Half(ups[|ups| - 1])
  }

  /** The turns `x` takes: up whenever it is at or above the middle of the cell so far. */
  function Steer(s: Span, x: real, n: nat): (ups: seq<bool>)
    ensures |ups| == n
  {
    if n == 0 then [] else
    var before := Steer(s, x, n - 1);
    before + [x >= Narrow(s, before).Mid()]
  }

  lemma NarrowStep(s: Span, ups: seq<bool>, up: bool)
    ensures Narrow(s, ups + [up]) == Narrow(s, ups).Half(up)
  {
    assert (ups + [up])[..|ups|] == ups;
  }

  lemma SteerStep(s: Span, x: real, n: nat)
    ensures Steer(s, x, n + 1) == Steer(s, x, n) + [x >= Narrow(s, Steer(s, x, n)).Mid()]
  {
  }

  /** Cells are half-open, save that the last one also owns the far end of the world. */
  predicate Owns(s: Span, cell: Span, x: real) {
    cell.lo <= x && (x < cell.hi || (x == cell.hi && cell.hi == s.hi))
  }

  predicate Within(s: Span, x: real) { s.lo <= x <= s.hi }

  lemma {:induction false} NarrowStaysInside(s: Span, ups: seq<bool>)
    requires s.lo < s.hi
    ensures s.lo <= Narrow(s, ups).lo < Narrow(s, ups).hi <= s.hi
  {
    if ups != [] { NarrowStaysInside(s, ups[..|ups| - 1]); }
  }

  lemma {:induction false} SteerLandsInside(s: Span, x: real, n: nat)
    requires s.lo < s.hi && Within(s, x)
    ensures Owns(s, Narrow(s, Steer(s, x, n)), x)
  {
    if n > 0 {
      SteerLandsInside(s, x, n - 1);
      var before := Steer(s, x, n - 1);
      NarrowStaysInside(s, before);
      NarrowStep(s, before, x >= Narrow(s, before).Mid());
    }
  }

  /** The cells of one depth tile the axis: a point steers to exactly the one that owns it. */
  lemma {:induction false} SteersToItsOwner(s: Span, x: real, ups: seq<bool>)
    requires s.lo < s.hi && Within(s, x)
    ensures Steer(s, x, |ups|) == ups <==> Owns(s, Narrow(s, ups), x)
  {
    var n := |ups|;
    if Steer(s, x, n) == ups {
      SteerLandsInside(s, x, n);
    } else if n > 0 {
      SteersToItsOwner(s, x, ups[..n - 1]);
      NarrowStaysInside(s, ups[..n - 1]);
      assert ups == ups[..n - 1] + [ups[n - 1]];
    }
  }

  // ----- Cells by number -----

  function Pow2(n: nat): (p: nat)
    ensures p > 0
  {
    if n == 0 then 1 else 2 * Pow2(n - 1)
  }

  /** The number of a cell, counted upwards from the low end. */
  function Index(ups: seq<bool>): nat {
    if ups == [] then 0 else 2 * Index(ups[..|ups| - 1]) + if ups[|ups| - 1] then 1 else 0
  }

  function CellWidth(s: Span, n: nat): real { if n == 0 then s.Width() else CellWidth(s, n - 1) / 2.0 }

  lemma {:induction false} IndexInRange(ups: seq<bool>)
    ensures Index(ups) < Pow2(|ups|)
  {
    if ups != [] { IndexInRange(ups[..|ups| - 1]); }
  }

  lemma {:induction false} IndexIsInjective(a: seq<bool>, b: seq<bool>)
    requires |a| == |b|
    ensures Index(a) == Index(b) <==> a == b
  {
    if a != [] {
      var n := |a| - 1;
      IndexIsInjective(a[..n], b[..n]);
      assert a == a[..n] + [a[n]] && b == b[..n] + [b[n]];
    }
  }

  /** Some cell has each number in range. */
  function Turns(n: nat, i: nat): (ups: seq<bool>)
    requires i < Pow2(n)
    ensures |ups| == n && Index(ups) == i
  {
    if n == 0 then [] else
    var before := Turns(n - 1, i / 2);
    assert (before + [i % 2 == 1])[..n - 1] == before;
    before + [i % 2 == 1]
  }

  /** The `k`th grid line above `base`, counting the one just below it as well. */
  ghost function Mark(base: real, w: real, k: int): (m: real)
    requires k >= -1
    ensures k == 0 ==> m == base
  {
    if k == -1 then base - w else Mark(base, w, k - 1) + w
  }

  lemma {:induction false} MarksAscend(base: real, w: real, a: int, b: int)
    requires w > 0.0 && -1 <= a < b
    ensures Mark(base, w, a) + w <= Mark(base, w, b)
  {
    if a < b - 1 { MarksAscend(base, w, a, b - 1); }
  }

  /** Halving the spacing leaves every old line in place. */
  lemma {:induction false} MarksRefine(base: real, w: real, i: nat)
    ensures Mark(base, w / 2.0, 2 * i) == Mark(base, w, i)
  {
    if i > 0 {
      MarksRefine(base, w, i - 1);
      assert Mark(base, w / 2.0, 2 * i - 1) == Mark(base, w / 2.0, 2 * i - 2) + w / 2.0;
    }
  }

  /** The grid lines of depth `n` end at the far end of the world. */
  lemma {:induction false} MarksSpanTheWorld(s: Span, n: nat)
    requires s.lo < s.hi
    ensures CellWidth(s, n) > 0.0
    ensures Mark(s.lo, CellWidth(s, n), Pow2(n)) == s.hi
  {
    if n == 0 {
      assert Mark(s.lo, s.Width(), 0) == s.lo;
    } else {
      MarksSpanTheWorld(s, n - 1);
      MarksRefine(s.lo, CellWidth(s, n - 1), Pow2(n - 1));
    }
  }

  /** A cell lies between the grid line of its number and the next. */
  lemma {:induction false} CellPosition(s: Span, ups: seq<bool>)
    ensures Narrow(s, ups).lo == Mark(s.lo, CellWidth(s, |ups|), Index(ups))
    ensures Narrow(s, ups).Width() == CellWidth(s, |ups|)
  {
    if ups == [] {
      assert Mark(s.lo, s.Width(), 0) == s.lo;
    } else {
      var n := |ups| - 1;
      CellPosition(s, ups[..n]);
      MarksRefine(s.lo, CellWidth(s, n), Index(ups[..n]));
    }
  }

  /** Of so many equal parts of the axis, the cell is number `i`. */
  ghost predicate IsPart(s: Span, cell: Span, parts: real, i: real) {
    (cell.lo - s.lo) * parts == i * (s.hi - s.lo) && (cell.hi - cell.lo) * parts == s.hi - s.lo
  }

  /** A cell is the part its number says, of as many as there are cells. */
  lemma {:induction false} CellIsAPart(s: Span, ups: seq<bool>, cell: Span, parts: real, i: real)
    requires cell == Narrow(s, ups) && parts == Pow2(|ups|) as real && i == Index(ups) as real
    ensures IsPart(s, cell, parts, i)
    decreases |ups|
  {
    if ups != [] {
      var n := |ups| - 1;
      var before, half, j := Narrow(s, ups[..n]), Pow2(n) as real, Index(ups[..n]) as real;
      CellIsAPart(s, ups[..n], before, half, j);
      HalfIsAPart(s, before, half, j, ups[n]);
      assert parts == 2.0 * half && i == 2.0 * j + if ups[n] then 1.0 else 0.0;
    }
  }

  lemma HalfIsAPart(s: Span, before: Span, parts: real, i: real, up: bool)
    requires IsPart(s, before, parts, i)
    ensures IsPart(s, before.Half(up), 2.0 * parts, 2.0 * i + if up then 1.0 else 0.0)
  {
  }

  // ----- Probing past an edge -----

  /** A point a quarter cell below, in the middle of, or a quarter cell above a cell. */
  function Probe(cell: Span, d: int): real {
    if d < 0 then cell.lo - cell.Width() * 0.25
    else if d > 0 then cell.hi + cell.Width() * 0.25
    else cell.Mid()
  }

  /** A probe lies strictly inside the cell numbered `d` further on, whether or not that cell exists. */
  lemma ProbePosition(s: Span, ups: seq<bool>, d: int)
    requires s.lo < s.hi && -1 <= d <= 1
    ensures var w := CellWidth(s, |ups|);
      var edge := Mark(s.lo, w, Index(ups) + d);
      w > 0.0 && edge < Probe(Narrow(s, ups), d) < edge + w
  {
    CellPosition(s, ups);
    MarksSpanTheWorld(s, |ups|);
    var w := CellWidth(s, |ups|);
    assert Mark(s.lo, w, Index(ups)) == Mark(s.lo, w, Index(ups) - 1) + w;
    assert Mark(s.lo, w, Index(ups) + 1) == Mark(s.lo, w, Index(ups)) + w;
  }

  /** A point strictly between two neighbouring grid lines lies in no other gap. */
  lemma GapIsUnique(base: real, w: real, a: int, b: int, x: real)
    requires w > 0.0 && a >= -1 && b >= -1
    requires Mark(base, w, a) < x < Mark(base, w, a) + w
    requires Mark(base, w, b) <= x <= Mark(base, w, b) + w
    ensures a == b
  {
    if a < b { MarksAscend(base, w, a, b); }
    if b < a { MarksAscend(base, w, b, a); }
  }

  /** A point strictly between two neighbouring grid lines is in the world exactly when the gap is. */
  lemma GapInWorld(s: Span, n: nat, k: int, x: real)
    requires s.lo < s.hi && -1 <= k
    requires Mark(s.lo, CellWidth(s, n), k) < x < Mark(s.lo, CellWidth(s, n), k) + CellWidth(s, n)
    ensures Within(s, x) <==> 0 <= k < Pow2(n)
  {
    var w := CellWidth(s, n);
    MarksSpanTheWorld(s, n);
    if k == -1 {
      assert Mark(s.lo, w, 0) == s.lo;
    } else {
      if k > 0 { MarksAscend(s.lo, w, 0, k); }
      if k < Pow2(n) { MarksAscend(s.lo, w, k, Pow2(n)); }
      if k > Pow2(n) { MarksAscend(s.lo, w, Pow2(n), k); }
    }
  }

  /** A probe is in the world exactly when the next cell is, and then steers to that cell. */
  lemma ProbeFindsTheNext(s: Span, ups: seq<bool>, d: int)
    requires s.lo < s.hi && -1 <= d <= 1
    ensures var x := Probe(Narrow(s, ups), d);
      && (Within(s, x) <==> 0 <= Index(ups) + d < Pow2(|ups|))
      && (Within(s, x) ==> Index(Steer(s, x, |ups|)) == Index(ups) + d)
  {
    var n, x, k := |ups|, Probe(Narrow(s, ups), d), Index(ups) + d;
    ProbePosition(s, ups, d);
    GapInWorld(s, n, k, x);
    if Within(s, x) {
      var found := Steer(s, x, n);
      SteerLandsInside(s, x, n);
      CellPosition(s, found);
      GapIsUnique(s.lo, CellWidth(s, n), k, Index(found), x);
    }
  }

  /** Two closed cells of one depth meet exactly when their numbers differ by at most one. */
  lemma MeetIffAdjacent(s: Span, a: seq<bool>, b: seq<bool>)
    requires s.lo < s.hi && |a| == |b|
    ensures Meet(Narrow(s, a), Narrow(s, b)) <==> -1 <= Index(a) - Index(b) <= 1
  {
    CellPosition(s, a);
    CellPosition(s, b);
    MarksSpanTheWorld(s, |a|);
    MarksMeet(s.lo, CellWidth(s, |a|), Index(a), Index(b));
    MarksMeet(s.lo, CellWidth(s, |a|), Index(b), Index(a));
  }

  /** Closed intervals with a common point. */
  predicate Meet(a: Span, b: Span) { a.lo <= b.hi && b.lo <= a.hi }

  lemma MarksMeet(base: real, w: real, i: nat, j: nat)
    requires w > 0.0
    ensures Mark(base, w, j) <= Mark(base, w, i) + w <==> j <= i + 1
  {
    var next := Mark(base, w, i + 1);
    if j < i + 1 { MarksAscend(base, w, j, i + 1); }
    if i + 1 < j { MarksAscend(base, w, i + 1, j); }
  }

  // ----- Two axes -----

  const LONGITUDE := Span(-180.0, 180.0)

  const LATITUDE := Span(-90.0, 90.0)

  datatype Rect = Rect(x: Span, y: Span)

  /** A cell of the world, by its turns along each axis. */
  datatype Cell = Cell(xs: seq<bool>, ys: seq<bool>) {
    function Bounds(): Rect { Rect(Narrow(LONGITUDE, xs), Narrow(LATITUDE, ys)) }

    ghost predicate SameGrid(that: Cell) { |xs| == |that.xs| && |ys| == |that.ys| }
  }

  /** A cell of the world in degrees: its column of so many round the equator. */
  lemma ColumnInDegrees(c: Cell, columns: real, i: real)
    requires columns == Pow2(|c.xs|) as real && i == Index(c.xs) as real
    ensures (c.Bounds().x.lo + 180.0) * columns == i * 360.0 && (c.Bounds().x.hi - c.Bounds().x.lo) * columns == 360.0
  {
    CellIsAPart(LONGITUDE, c.xs, c.Bounds().x, columns, i);
    InDegrees(LONGITUDE, c.Bounds().x, columns, i, 180.0);
  }

  /** And its row of so many from pole to pole. */
  lemma RowInDegrees(c: Cell, rows: real, j: real)
    requires rows == Pow2(|c.ys|) as real && j == Index(c.ys) as real
    ensures (c.Bounds().y.lo + 90.0) * rows == j * 180.0 && (c.Bounds().y.hi - c.Bounds().y.lo) * rows == 180.0
  {
    CellIsAPart(LATITUDE, c.ys, c.Bounds().y, rows, j);
    InDegrees(LATITUDE, c.Bounds().y, rows, j, 90.0);
  }

  lemma InDegrees(s: Span, cell: Span, parts: real, i: real, half: real)
    requires IsPart(s, cell, parts, i) && s.lo == -half && s.hi == half
    ensures (cell.lo + half) * parts == i * (half + half) && (cell.hi - cell.lo) * parts == half + half
  {
  }

  /** The first turns towards a point are the same at any depth. */
  lemma {:induction false} SteersAlike(s: Span, x: real, k: nat, n: nat)
    requires k <= n
    ensures Steer(s, x, n)[..k] == Steer(s, x, k)
  {
    if k < n {
      SteersAlike(s, x, k, n - 1);
      assert Steer(s, x, n)[..k] == Steer(s, x, n - 1)[..k];
    }
  }

  function Clamp(s: Span, x: real): (r: real)
    ensures s.lo <= s.hi ==> Within(s, r) && (Within(s, x) ==> r == x)
  {
    if x < s.lo then s.lo else if x > s.hi then s.hi else x
  }

  function CellAt(p: Point, columns: nat, rows: nat): (c: Cell)
    ensures |c.xs| == columns && |c.ys| == rows
  {
    Cell(Steer(LONGITUDE, Clamp(LONGITUDE, p.x), columns), Steer(LATITUDE, Clamp(LATITUDE, p.y), rows))
  }

  predicate OwnsPoint(r: Rect, p: Point) { Owns(LONGITUDE, r.x, p.x) && Owns(LATITUDE, r.y, p.y) }

  predicate InWorld(p: Point) { Within(LONGITUDE, p.x) && Within(LATITUDE, p.y) }

  /** Cells of one grid tile the world: a point is located in a cell exactly when that cell owns it, clamped. */
  lemma CellsTile(p: Point, c: Cell)
    ensures CellAt(p, |c.xs|, |c.ys|) == c
       <==> OwnsPoint(c.Bounds(), Point(Clamp(LONGITUDE, p.x), Clamp(LATITUDE, p.y)))
  {
    SteersToItsOwner(LONGITUDE, Clamp(LONGITUDE, p.x), c.xs);
    SteersToItsOwner(LATITUDE, Clamp(LATITUDE, p.y), c.ys);
  }

  /** The closed rectangles share a point. */
  ghost predicate Touch(a: Cell, b: Cell) {
    a != b && Meet(a.Bounds().x, b.Bounds().x) && Meet(a.Bounds().y, b.Bounds().y)
  }

  /** The eight compass directions in the order they are probed, clockwise from north. */
  function East(k: nat): int { if 1 <= k <= 3 then 1 else if 5 <= k <= 7 then -1 else 0 }

  function North(k: nat): int { if k <= 1 || k == 7 then 1 else if 3 <= k <= 5 then -1 else 0 }

  /** North, north-east, east, south-east, south, south-west, west, north-west. */
  lemma Compass()
    ensures [East(0), East(1), East(2), East(3), East(4), East(5), East(6), East(7)] == [0, 1, 1, 1, 0, -1, -1, -1]
    ensures [North(0), North(1), North(2), North(3), North(4), North(5), North(6), North(7)] == [1, 1, 0, -1, -1, -1, 0, 1]
  {
  }

  function ProbePoint(r: Rect, k: nat): Point { Point(Probe(r.x, East(k)), Probe(r.y, North(k))) }

  /** The cell a probe finds, if that probe is in the world. */
  ghost predicate Finds(a: Cell, k: nat, b: Cell) {
    var p := ProbePoint(a.Bounds(), k);
    k < 8 && InWorld(p) && CellAt(p, |a.xs|, |a.ys|) == b
  }

  /** What a probe finds is the cell one column and row that way. */
  lemma FindsIsAStep(a: Cell, k: nat, b: Cell)
    requires k < 8 && a.SameGrid(b)
    ensures Finds(a, k, b) <==> Index(b.xs) == Index(a.xs) + East(k) && Index(b.ys) == Index(a.ys) + North(k)
  {
    var p := ProbePoint(a.Bounds(), k);
    ProbeFindsTheNext(LONGITUDE, a.xs, East(k));
    ProbeFindsTheNext(LATITUDE, a.ys, North(k));
    IndexInRange(b.xs);
    IndexInRange(b.ys);
    var found := CellAt(p, |a.xs|, |a.ys|);
    IndexIsInjective(found.xs, b.xs);
    IndexIsInjective(found.ys, b.ys);
  }

  /** The direction from a cell to one beside it. */
  function Direction(dx: int, dy: int): (k: nat)
    requires -1 <= dx <= 1 && -1 <= dy <= 1 && (dx != 0 || dy != 0)
    ensures k < 8 && East(k) == dx && North(k) == dy
  {
    if dx == 0 then if dy == 1 then 0 else 4
    else if dx == 1 then 2 - dy
    else 6 + dy
  }

  /** The probes find exactly the touching cells of the same grid, each from one direction only. */
  lemma ProbesFindWhatTouches(a: Cell, b: Cell)
    requires a.SameGrid(b)
    ensures (exists k :: Finds(a, k, b)) <==> Touch(a, b)
    ensures forall j, k :: Finds(a, j, b) && Finds(a, k, b) ==> j == k
  {
    MeetIffAdjacent(LONGITUDE, a.xs, b.xs);
    MeetIffAdjacent(LATITUDE, a.ys, b.ys);
    IndexIsInjective(a.xs, b.xs);
    IndexIsInjective(a.ys, b.ys);
    forall k | Finds(a, k, b)
      ensures k < 8 && Index(b.xs) == Index(a.xs) + East(k) && Index(b.ys) == Index(a.ys) + North(k)
    {
      FindsIsAStep(a, k, b);
    }
    if Touch(a, b) {
      var k := Direction(Index(b.xs) - Index(a.xs), Index(b.ys) - Index(a.ys));
      FindsIsAStep(a, k, b);
    }
  }

  lemma TouchIsSymmetric(a: Cell, b: Cell)
    ensures Touch(a, b) <==> Touch(b, a)
  {
  }
}
