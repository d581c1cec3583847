/** Geohash shards: cells of the world named by base-32 characters, five alternating turns each. */
module Geohashes {
  import opened Observations
  import opened Halving

  const MAX_PRECISION: nat := 12

  datatype Geohash = Geohash(data: seq<nat>, precision: nat) {
    /** A fixed buffer of five-bit values, zero beyond the precision. */
    ghost predicate Valid() {
      |data| == MAX_PRECISION && precision <= MAX_PRECISION &&
      (forall i {:trigger data[i]} :: 0 <= i < MAX_PRECISION ==> data[i] < 32 && (i >= precision ==> data[i] == 0))
    }

    /** The cell this hash names: its turns go to longitude and latitude alternately. */
    ghost function Decode(): Cell
      requires Valid()
    {
      var turns := Spell(data[..precision]);
      Cell(Xs(turns), Ys(turns))
    }
  }

  // ----- Values, turns and axes -----

  /** The five bits of a value, highest first. */
  function Five(v: nat): (bits: seq<bool>)
    ensures |bits| == 5
  {
    [v / 16 % 2 == 1, v / 8 % 2 == 1, v / 4 % 2 == 1, v / 2 % 2 == 1, v % 2 == 1]
  }

  function Spell(values: seq<nat>): (turns: seq<bool>)
    ensures |turns| == 5 * |values|
  {
    if values == [] then [] else Spell(values[..|values| - 1]) + Five(values[|values| - 1])
  }

  function Xs(turns: seq<bool>): (xs: seq<bool>)
    ensures |xs| == (|turns| + 1) / 2
    ensures forall k {:trigger xs[k]} :: 0 <= k < |xs| ==> xs[k] == turns[2 * k]
  {
    seq((|turns| + 1) / 2, k requires 0 <= k < (|turns| + 1) / 2 => turns[2 * k])
  }

  function Ys(turns: seq<bool>): (ys: seq<bool>)
    ensures |ys| == |turns| / 2
    ensures forall k {:trigger ys[k]} :: 0 <= k < |ys| ==> ys[k] == turns[2 * k + 1]
  {
    seq(|turns| / 2, k requires 0 <= k < |turns| / 2 => turns[2 * k + 1])
  }

  lemma SpellStep(values: seq<nat>, n: nat)
    requires n < |values|
    ensures Spell(values[..n + 1]) == Spell(values[..n]) + Five(values[n])
  {
    assert values[..n + 1][..n] == values[..n];
  }

  /** A further turn goes to longitude after an even number of turns, to latitude after an odd one. */
  lemma TurnStep(turns: seq<bool>, up: bool)
    ensures |turns| % 2 == 0 ==> Xs(turns + [up]) == Xs(turns) + [up] && Ys(turns + [up]) == Ys(turns)
    ensures |turns| % 2 == 1 ==> Xs(turns + [up]) == Xs(turns) && Ys(turns + [up]) == Ys(turns) + [up]
  {
  }

  /** The value five bits stand for. */
  function Value(bits: seq<bool>): nat
    requires |bits| == 5
  {
    (if bits[0] then 16 else 0) + (if bits[1] then 8 else 0) + (if bits[2] then 4 else 0)
    + (if bits[3] then 2 else 0) + (if bits[4] then 1 else 0)
  }

  lemma ValueInvertsFive(v: nat)
    requires v < 32
    ensures Value(Five(v)) == v
  {
  }

  lemma FiveIsInjective(a: nat, b: nat)
    requires a < 32 && b < 32 && Five(a) == Five(b)
    ensures a == b
  {
    ValueInvertsFive(a);
    ValueInvertsFive(b);
  }

  lemma SplitEqual(a: seq<bool>, c: seq<bool>, b: seq<bool>, d: seq<bool>)
    requires |a| == |b| && a + c == b + d
    ensures a == b && c == d
  {
    assert a == (a + c)[..|a|] && b == (b + d)[..|b|];
    assert c == (a + c)[|a|..] && d == (b + d)[|b|..];
  }

  lemma {:induction false} SpellIsInjective(a: seq<nat>, b: seq<nat>)
    requires |a| == |b| && Spell(a) == Spell(b)
    requires forall i :: 0 <= i < |a| ==> a[i] < 32 && b[i] < 32
    ensures a == b
  {
    if a != [] {
      var n := |a| - 1;
      SplitEqual(Spell(a[..n]), Five(a[n]), Spell(b[..n]), Five(b[n]));
      SpellIsInjective(a[..n], b[..n]);
      FiveIsInjective(a[n], b[n]);
      assert a == a[..n] + [a[n]] && b == b[..n] + [b[n]];
    }
  }

  lemma AxesDetermineTurns(a: seq<bool>, b: seq<bool>)
    requires |a| == |b| && Xs(a) == Xs(b) && Ys(a) == Ys(b)
    ensures a == b
  {
    forall t | 0 <= t < |a|
      ensures a[t] == b[t]
    {
      if t % 2 == 0 {
        assert Xs(a)[t / 2] == Xs(b)[t / 2];
      } else {
        assert Ys(a)[t / 2] == Ys(b)[t / 2];
      }
    }
  }

  /** At one precision, different hashes name different cells. */
  lemma DecodeIsInjective(g: Geohash, h: Geohash)
    requires g.Valid() && h.Valid() && g.precision == h.precision
    ensures g.Decode() == h.Decode() <==> g == h
  {
    if g.Decode() == h.Decode() {
      var n := g.precision;
      AxesDetermineTurns(Spell(g.data[..n]), Spell(h.data[..n]));
      SpellIsInjective(g.data[..n], h.data[..n]);
      forall i | 0 <= i < MAX_PRECISION
        ensures g.data[i] == h.data[i]
      {
        if i < n { assert g.data[i] == g.data[..n][i] == h.data[..n][i]; }
      }
    }
  }

  // ----- Locating a point -----

  /** After these turns, alternating the axes has steered along each as if alone, into this rectangle. */
  ghost predicate Reached(p: Point, turns: seq<bool>, columns: nat, rows: nat, x: Span, y: Span) {
    |turns| == columns + rows && rows <= columns <= rows + 1 &&
    Cell(Xs(turns), Ys(turns)) == CellAt(p, columns, rows) && CellAt(p, columns, rows).Bounds() == Rect(x, y)
  }

  lemma ReachedEast(p: Point, turns: seq<bool>, h: nat, x: Span, y: Span, up: bool)
    requires Reached(p, turns, h, h, x, y) && up == (Clamp(LONGITUDE, p.x) >= x.Mid())
    ensures Reached(p, turns + [up], h + 1, h, x.Half(up), y)
  {
    TurnStep(turns, up);
    SteerStep(LONGITUDE, Clamp(LONGITUDE, p.x), h);
    NarrowStep(LONGITUDE, Xs(turns), up);
  }

  lemma ReachedNorth(p: Point, turns: seq<bool>, h: nat, x: Span, y: Span, up: bool)
    requires Reached(p, turns, h + 1, h, x, y) && up == (Clamp(LATITUDE, p.y) >= y.Mid())
    ensures Reached(p, turns + [up], h + 1, h + 1, x, y.Half(up))
  {
    TurnStep(turns, up);
    SteerStep(LATITUDE, Clamp(LATITUDE, p.y), h);
    NarrowStep(LATITUDE, Ys(turns), up);
  }

  /** The axis to halve next alternates. */
  ghost predicate Walking(p: Point, turns: seq<bool>, x: Span, y: Span, even: bool) {
    Reached(p, turns, (|turns| + 1) / 2, |turns| / 2, x, y) && even == (|turns| % 2 == 0)
  }

  lemma WalkStep(p: Point, turns: seq<bool>, x: Span, y: Span, even: bool, up: bool)
    requires Walking(p, turns, x, y, even)
    requires up == if even then Clamp(LONGITUDE, p.x) >= x.Mid() else Clamp(LATITUDE, p.y) >= y.Mid()
    ensures Walking(p, turns + [up], if even then x.Half(up) else x, if even then y else y.Half(up), !even)
  {
    var h := |turns| / 2;
    if even { ReachedEast(p, turns, h, x, y, up); } else { ReachedNorth(p, turns, h, x, y, up); }
  }

  /** The place of turn `bit` within a value. */
  function Place(bit: nat): nat
    requires bit < 5
  {
    if bit == 0 then 16 else if bit == 1 then 8 else if bit == 2 then 4 else if bit == 3 then 2 else 1
  }

  /** Turns so far, the rest of the character still clear. */
  ghost function Pad(part: seq<bool>): (bits: seq<bool>)
    requires |part| <= 5
    ensures |bits| == 5
    ensures forall i {:trigger bits[i]} :: 0 <= i < 5 ==> bits[i] == (i < |part| && part[i])
  {
    part + seq(5 - |part|, i => false)
  }

  lemma SetTurn(part: seq<bool>, up: bool)
    requires |part| < 5
    ensures Value(Pad(part + [up])) == Value(Pad(part)) + if up then Place(|part|) else 0
  {
    var a, b := Pad(part), Pad(part + [up]);
    assert forall i {:trigger b[i]} :: 0 <= i < 5 && i != |part| ==> b[i] == a[i];
    assert !a[|part|] && b[|part|] == up;
  }

  lemma FiveInvertsValue(bits: seq<bool>)
    requires |bits| == 5
    ensures Value(bits) < 32 && Five(Value(bits)) == bits
  {
  }

  /** The grid a precision gives: longitude has the extra turn when their number is odd. */
  function Columns(precision: nat): nat { (5 * precision + 1) / 2 }

  function Rows(precision: nat): nat { 5 * precision / 2 }

  /** This hash of this precision names the cell that holds the point. */
  ghost predicate Names(g: Geohash, precision: nat, p: Point) {
    g.Valid() && g.precision == precision && g.Decode() == CellAt(p, Columns(precision), Rows(precision))
  }

  ghost predicate BufferOk(out: seq<nat>, cursor: nat) {
    |out| == MAX_PRECISION && cursor <= MAX_PRECISION &&
    forall i {:trigger out[i]} :: 0 <= i < MAX_PRECISION ==> out[i] < 32 && (i >= cursor ==> out[i] == 0)
  }

  /** The shard of a point: the loop narrows one axis a turn and emits a character every five. */
  method Locate(precision: nat, p: Point) returns (id: Geohash)
    requires precision <= MAX_PRECISION
    ensures Names(id, precision, p)
  {
    var x, y := LONGITUDE, LATITUDE;
    var px, py := Clamp(LONGITUDE, p.x), Clamp(LATITUDE, p.y);
    var out: seq<nat> := seq(MAX_PRECISION, _ => 0);
    var cursor, bit, ch, even := 0, 0, 0, true;
    ghost var turns: seq<bool>, part: seq<bool> := [], [];
    Begin(p, out);
    while cursor < precision
      invariant cursor <= precision && 0 <= bit < 5 && (cursor == precision ==> bit == 0)
      invariant Emitted(out, cursor, part, ch, bit, turns) && Walking(p, turns, x, y, even)
      decreases 5 * (precision - cursor) - bit
    {
      var up;
      x, y, up := TakeTurn(p, px, py, x, y, even, turns);
      Push(out, cursor, part, ch, bit, turns, up);
      if up { ch := ch + Place(bit); }
      turns, part := turns + [up], part + [up];
      even := !even;
      if bit < 4 {
        bit := bit + 1;
      } else {
        out, cursor := out[cursor := ch], cursor + 1;
        bit, ch, part := 0, 0, [];
      }
    }
    id := Geohash(out, cursor);
    Finish(p, id, turns, part, x, y, even);
  }

  /** Halve one axis towards the point. */
  method TakeTurn(ghost p: Point, px: real, py: real, fromX: Span, fromY: Span, even: bool, ghost turns: seq<bool>)
    returns (x: Span, y: Span, up: bool)
    requires Walking(p, turns, fromX, fromY, even)
    requires px == Clamp(LONGITUDE, p.x) && py == Clamp(LATITUDE, p.y)
    ensures Walking(p, turns + [up], x, y, !even)
  {
    x, y := fromX, fromY;
    if even {
      var mid := x.Mid();
      up := px >= mid;
      if up { x := Span(mid, x.hi); } else { x := Span(x.lo, mid); }
    } else {
      var mid := y.Mid();
      up := py >= mid;
      if up { y := Span(mid, y.hi); } else { y := Span(y.lo, mid); }
    }
    WalkStep(p, turns, fromX, fromY, even, up);
  }

  /** The characters so far and the value under construction spell the turns taken. */
  ghost predicate Emitted(out: seq<nat>, cursor: int, part: seq<bool>, ch: int, bit: int, turns: seq<bool>) {
    0 <= cursor && BufferOk(out, cursor) && Holds(ch, part, bit) && turns == Spell(out[..cursor]) + part
  }

  /** The value under construction holds the turns since the last character. */
  ghost predicate Holds(ch: int, part: seq<bool>, bit: int) {
    |part| == bit && bit <= 5 && ch == Value(Pad(part))
  }

  lemma Begin(p: Point, out: seq<nat>)
    requires BufferOk(out, 0)
    ensures Emitted(out, 0, [], 0, 0, []) && Walking(p, [], LONGITUDE, LATITUDE, true)
  {
  }

  /** One more turn, closing the character when it is the fifth. */
  lemma Push(out: seq<nat>, cursor: int, part: seq<bool>, ch: int, bit: int, turns: seq<bool>, up: bool)
    requires Emitted(out, cursor, part, ch, bit, turns) && 0 <= bit < 5 && cursor < MAX_PRECISION
    ensures var next := if up then ch + Place(bit) else ch;
      next >= 0
      && (bit < 4 ==> Emitted(out, cursor, part + [up], next, bit + 1, turns + [up]))
      && (bit == 4 ==> Emitted(out[cursor := next], cursor + 1, [], 0, 0, turns + [up]))
  {
    SetTurn(part, up);
    assert turns + [up] == Spell(out[..cursor]) + (part + [up]);
    if bit == 4 { Emit(out, cursor, part + [up], if up then ch + Place(bit) else ch); }
  }

  lemma Finish(p: Point, id: Geohash, turns: seq<bool>, part: seq<bool>, x: Span, y: Span, even: bool)
    requires id.Valid() && part == [] && turns == Spell(id.data[..id.precision]) + part && Walking(p, turns, x, y, even)
    ensures Names(id, id.precision, p)
  {
    assert turns == Spell(id.data[..id.precision]);
  }

  /** Five turns are one character. */
  lemma Emit(out: seq<nat>, cursor: nat, part: seq<bool>, ch: nat)
    requires BufferOk(out, cursor) && cursor < MAX_PRECISION && Holds(ch, part, 5)
    ensures BufferOk(out[cursor := ch], cursor + 1)
    ensures Spell(out[cursor := ch][..cursor + 1]) + [] == Spell(out[..cursor]) + part
    ensures Holds(0, [], 0)
  {
    FiveInvertsValue(part);
    assert Pad(part) == part;
    SpellStep(out[cursor := ch], cursor);
    assert out[cursor := ch][..cursor] == out[..cursor];
  }

  /** The rectangle of a hash: every bit of every character halves one axis. */
  method Bounds(id: Geohash) returns (r: Rect)
    requires id.Valid()
    ensures r == id.Decode().Bounds()
  {
    var x, y, even := LONGITUDE, LATITUDE, true;
    for c := 0 to id.precision
      invariant At(Spell(id.data[..c]), x, y, even)
    {
      SpellStep(id.data, c);
      x, y, even := ReadCharacter(id.data[c], x, y, even, Spell(id.data[..c]));
    }
    r := Rect(x, y);
  }

  /** The rectangle and the axis to halve next, after these turns. */
  ghost predicate At(turns: seq<bool>, x: Span, y: Span, even: bool) {
    Cell(Xs(turns), Ys(turns)).Bounds() == Rect(x, y) && even == (|turns| % 2 == 0)
  }

  /** One character's five halvings, highest bit first. */
  method ReadCharacter(v: nat, fromX: Span, fromY: Span, fromEven: bool, ghost turns: seq<bool>)
    returns (x: Span, y: Span, even: bool)
    requires At(turns, fromX, fromY, fromEven)
    ensures At(turns + Five(v), x, y, even)
  {
    x, y, even := fromX, fromY, fromEven;
    var bits := Five(v);
    assert turns + bits[..0] == turns;
    for i := 0 to 5
      invariant At(turns + bits[..i], x, y, even)
    {
      assert turns + bits[..i + 1] == (turns + bits[..i]) + [bits[i]];
      HalveStep(turns + bits[..i], bits[i], x, y, even);
      if even {
        var mid := x.Mid();
        if bits[i] { x := Span(mid, x.hi); } else { x := Span(x.lo, mid); }
      } else {
        var mid := y.Mid();
        if bits[i] { y := Span(mid, y.hi); } else { y := Span(y.lo, mid); }
      }
      even := !even;
    }
    assert bits[..5] == bits;
  }

  lemma HalveStep(turns: seq<bool>, up: bool, x: Span, y: Span, even: bool)
    requires At(turns, x, y, even)
    ensures At(turns + [up], if even then x.Half(up) else x, if even then y else y.Half(up), !even)
  {
    TurnStep(turns, up);
    NarrowStep(LONGITUDE, Xs(turns), up);
    NarrowStep(LATITUDE, Ys(turns), up);
  }

  /** A point is located in a shard exactly when that shard's rectangle owns the clamped point. */
  lemma ShardsTile(precision: nat, p: Point, id: Geohash)
    requires id.Valid() && id.precision == precision
    ensures Names(id, precision, p)
       <==> OwnsPoint(id.Decode().Bounds(), Point(Clamp(LONGITUDE, p.x), Clamp(LATITUDE, p.y)))
  {
    CellsTile(p, id.Decode());
  }

  /** A point has one name at each precision. */
  lemma NameIsUnique(g: Geohash, h: Geohash, precision: nat, p: Point)
    requires Names(g, precision, p) && Names(h, precision, p)
    ensures g == h
  {
    DecodeIsInjective(g, h);
  }

  lemma {:induction false} SpellPrefix(values: seq<nat>, k: nat)
    requires k <= |values|
    ensures Spell(values)[..5 * k] == Spell(values[..k])
  {
    if k < |values| {
      var n := |values| - 1;
      SpellPrefix(values[..n], k);
      assert values[..n][..k] == values[..k];
      assert Spell(values)[..5 * k] == Spell(values[..n])[..5 * k];
    } else {
      assert values[..k] == values;
    }
  }

  /** The hash of a point at a coarser precision is the start of its hash at a finer one. */
  lemma CoarserHashIsAPrefix(g: Geohash, n: nat, h: Geohash, k: nat, p: Point)
    requires Names(g, n, p) && Names(h, k, p) && k <= n
    ensures h.data[..k] == g.data[..k]
  {
    var q := Start(g, n, k, p);
    NameIsUnique(q, h, k, p);
  }

  lemma Start(g: Geohash, n: nat, k: nat, p: Point) returns (q: Geohash)
    requires Names(g, n, p) && k <= n
    ensures Names(q, k, p) && q.data[..k] == g.data[..k]
  {
    q := FirstPart(g, k);
    assert g.data[..k] == g.data[..n][..k];
    SpellPrefix(g.data[..n], k);
    PrefixSteers(p, Spell(g.data[..n]), Spell(g.data[..k]), k, n);
  }

  lemma FirstPart(g: Geohash, k: nat) returns (q: Geohash)
    requires g.Valid() && k <= MAX_PRECISION
    ensures q.Valid() && q.precision == k && q.data[..k] == g.data[..k]
  {
    q := Geohash(g.data[..k] + seq(MAX_PRECISION - k, _ => 0), k);
  }

  lemma PrefixSteers(p: Point, all: seq<bool>, part: seq<bool>, k: nat, n: nat)
    requires part <= all && |part| == 5 * k && k <= n && Cell(Xs(all), Ys(all)) == CellAt(p, Columns(n), Rows(n))
    ensures Cell(Xs(part), Ys(part)) == CellAt(p, Columns(k), Rows(k))
  {
    SteersAlike(LONGITUDE, Clamp(LONGITUDE, p.x), Columns(k), Columns(n));
    SteersAlike(LATITUDE, Clamp(LATITUDE, p.y), Rows(k), Rows(n));
    PrefixLeads(p, all, part, Columns(k), Rows(k), Columns(n), Rows(n));
  }

  lemma PrefixLeads(p: Point, all: seq<bool>, part: seq<bool>, columns: nat, rows: nat, allColumns: nat, allRows: nat)
    requires part <= all && columns == (|part| + 1) / 2 && rows == |part| / 2 && columns <= allColumns && rows <= allRows
    requires Cell(Xs(all), Ys(all)) == CellAt(p, allColumns, allRows)
    requires Steer(LONGITUDE, Clamp(LONGITUDE, p.x), allColumns)[..columns] == Steer(LONGITUDE, Clamp(LONGITUDE, p.x), columns)
    requires Steer(LATITUDE, Clamp(LATITUDE, p.y), allRows)[..rows] == Steer(LATITUDE, Clamp(LATITUDE, p.y), rows)
    ensures Cell(Xs(part), Ys(part)) == CellAt(p, columns, rows)
  {
    AxesOfPrefix(all, part);
  }

  lemma AxesOfPrefix(all: seq<bool>, part: seq<bool>)
    requires part <= all
    ensures Xs(part) == Xs(all)[..|Xs(part)|] && Ys(part) == Ys(all)[..|Ys(part)|]
  {
  }

  /** The first character: the bits of its column among eight and its row among four, alternating from the column's. */
  lemma FirstCharacter(g: Geohash)
    requires g.Valid() && g.precision == 1
    ensures var column, row := Index(g.Decode().xs), Index(g.Decode().ys);
      g.data[0] == 16 * (column / 4) + 8 * (row / 2) + 4 * (column / 2 % 2) + 2 * (row % 2) + column % 2
  {
    assert g.data[..1] == [g.data[0]] && [g.data[0]][..0] == [];
    assert Spell([g.data[0]]) == Spell([]) + Five(g.data[0]);
    assert Spell([]) + Five(g.data[0]) == Five(g.data[0]);
    OneValue(g.data[0], Five(g.data[0]), g.Decode());
  }

  lemma OneValue(v: nat, bits: seq<bool>, c: Cell)
    requires v < 32 && bits == Five(v) && c == Cell(Xs(bits), Ys(bits))
    ensures var column, row := Index(c.xs), Index(c.ys);
      v == 16 * (column / 4) + 8 * (row / 2) + 4 * (column / 2 % 2) + 2 * (row % 2) + column % 2
  {
    assert c.xs == [bits[0], bits[2], bits[4]] && c.ys == [bits[1], bits[3]];
    ThreeTurns(bits[0], bits[2], bits[4]);
    TwoTurns(bits[1], bits[3]);
    ValueInvertsFive(v);
    BitsAdd(v, bits, Index(c.xs), Index(c.ys));
  }

  lemma BitsAdd(v: nat, bits: seq<bool>, column: nat, row: nat)
    requires |bits| == 5 && v == Value(bits)
    requires column == (if bits[0] then 4 else 0) + (if bits[2] then 2 else 0) + (if bits[4] then 1 else 0)
    requires row == (if bits[1] then 2 else 0) + (if bits[3] then 1 else 0)
    ensures v == 16 * (column / 4) + 8 * (row / 2) + 4 * (column / 2 % 2) + 2 * (row % 2) + column % 2
  {
  }

  lemma ThreeTurns(a: bool, b: bool, c: bool)
    ensures Index([a, b, c]) == (if a then 4 else 0) + (if b then 2 else 0) + (if c then 1 else 0)
  {
    assert [a, b, c][..2] == [a, b];
    TwoTurns(a, b);
  }

  lemma TwoTurns(a: bool, b: bool)
    ensures Index([a, b]) == (if a then 2 else 0) + (if b then 1 else 0)
  {
    assert [a, b][..1] == [a] && [a][..0] == [];
    assert Index([a]) == if a then 1 else 0;
  }

  // ----- Neighbours -----

  /** A probe of `id` lands in this shard. */
  ghost predicate Lands(precision: nat, id: Geohash, k: nat, n: Geohash)
    requires id.Valid()
  {
    var p := ProbePoint(id.Decode().Bounds(), k);
    k < 8 && InWorld(p) && Names(n, precision, p)
  }

  ghost predicate LandsBefore(precision: nat, id: Geohash, k: nat, n: Geohash)
    requires id.Valid()
  {
    exists j: nat :: j < k && Lands(precision, id, j, n)
  }

  lemma LandsOn(precision: nat, id: Geohash, k: nat, n: Geohash)
    requires id.Valid()
    ensures LandsBefore(precision, id, k + 1, n) <==> LandsBefore(precision, id, k, n) || Lands(precision, id, k, n)
  {
  }

  ghost predicate Distinct(out: seq<Geohash>) {
    forall i, j {:trigger out[i], out[j]} :: 0 <= i < j < |out| ==> out[i] != out[j]
  }

  /** What the first `k` probes gave, the shard itself left out. */
  ghost predicate Gathered(precision: nat, id: Geohash, k: nat, out: seq<Geohash>)
    requires id.Valid()
  {
    Distinct(out) && forall n {:trigger n in out} :: n in out <==> n != id && LandsBefore(precision, id, k, n)
  }

  lemma GatherNone(precision: nat, id: Geohash, k: nat, out: seq<Geohash>)
    requires id.Valid() && Gathered(precision, id, k, out) && !InWorld(ProbePoint(id.Decode().Bounds(), k))
    ensures Gathered(precision, id, k + 1, out)
  {
    forall n
      ensures LandsBefore(precision, id, k + 1, n) <==> LandsBefore(precision, id, k, n)
    {
      LandsOn(precision, id, k, n);
    }
  }

  lemma GatherOne(precision: nat, id: Geohash, k: nat, out: seq<Geohash>, found: Geohash)
    requires id.Valid() && Gathered(precision, id, k, out) && Lands(precision, id, k, found)
    ensures Gathered(precision, id, k + 1, if found != id && found !in out then out + [found] else out)
  {
    forall n
      ensures LandsBefore(precision, id, k + 1, n) <==> LandsBefore(precision, id, k, n) || n == found
    {
      LandsOn(precision, id, k, n);
      if Lands(precision, id, k, n) {
        NameIsUnique(n, found, precision, ProbePoint(id.Decode().Bounds(), k));
      }
    }
    if found !in out { AppendOne(out, found); }
  }

  lemma AppendOne(out: seq<Geohash>, found: Geohash)
    requires Distinct(out) && found !in out
    ensures Distinct(out + [found]) && forall n {:trigger n in out + [found]} :: n in out + [found] <==> n in out || n == found
  {
    var all := out + [found];
    forall i, j {:trigger all[i], all[j]} | 0 <= i < j < |all|
      ensures all[i] != all[j]
    {
      assert all[i] == out[i] && out[i] in out;
    }
  }

  /** The shards the probes of `id` land in, other than itself, each once. */
  method Neighbours(precision: nat, id: Geohash) returns (out: seq<Geohash>)
    requires precision <= MAX_PRECISION && id.Valid()
    ensures Gathered(precision, id, 8, out)
  {
    var r := Bounds(id);
    out := [];
    for k := 0 to 8
      invariant Gathered(precision, id, k, out)
    {
      var p := ProbePoint(r, k);
      if InWorld(p) {
        var n := Locate(precision, p);
        GatherOne(precision, id, k, out, n);
        if n != id && n !in out { out := out + [n]; }
      } else {
        GatherNone(precision, id, k, out);
      }
    }
  }

  /** At the strategy's own precision the neighbours are exactly the shards whose rectangles touch. */
  lemma NeighboursAreTheTouching(id: Geohash, n: Geohash)
    requires id.Valid()
    ensures (n != id && LandsBefore(id.precision, id, 8, n))
       <==> (n.Valid() && n.precision == id.precision && Touch(id.Decode(), n.Decode()))
  {
    if n.Valid() && n.precision == id.precision {
      DecodeIsInjective(id, n);
      ProbesFindWhatTouches(id.Decode(), n.Decode());
      forall k
        ensures Finds(id.Decode(), k, n.Decode()) <==> Lands(id.precision, id, k, n)
      {
      }
    }
  }

  /** Being neighbours is mutual. */
  lemma NeighboursAreMutual(id: Geohash, n: Geohash)
    requires id.Valid() && n != id && LandsBefore(id.precision, id, 8, n)
    ensures n.Valid() && n.precision == id.precision && LandsBefore(n.precision, n, 8, id)
  {
    NeighboursAreTheTouching(id, n);
    TouchIsSymmetric(id.Decode(), n.Decode());
    NeighboursAreTheTouching(n, id);
  }
}
