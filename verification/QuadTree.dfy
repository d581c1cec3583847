/** Quad-tree shards: cells of the world keyed by two bits per level, packed low level first. */
module QuadTree {
  import opened Observations
  import opened Halving

  const MAX_DEPTH: nat := 31

  /** Place value of level `n` in the packed bits. */
  function Pow4(n: nat): (p: nat)
    ensures p > 0
  {
    if n == 0 then 1 else 4 * Pow4(n - 1)
  }

  /** The word shifted right by two bits per level. */
  function Shift(bits: nat, level: nat): nat { if level == 0 then bits else Shift(bits / 4, level - 1) }

  datatype QuadKey = QuadKey(depth: nat, bits: nat) {
    /** The quadrant taken at a level, counted from the root: two bits of the word. */
    function ChildAt(level: nat): (q: nat)
      ensures q < 4
    {
      Shift(bits, level) % 4
    }

    /** No bits beyond the key's depth. */
    predicate Packed() { bits < Pow4(depth) }

    /** The turns this key's quadrants spell out. */
    function Decode(): (c: Cell)
      ensures |c.xs| == depth && |c.ys| == depth
      ensures forall i {:trigger c.xs[i]} :: 0 <= i < depth ==> c.xs[i] == (ChildAt(i) % 2 == 1)
      ensures forall i {:trigger c.ys[i]} :: 0 <= i < depth ==> c.ys[i] == (ChildAt(i) / 2 == 1)
    {
      Cell(seq(depth, i requires 0 <= i < depth => ChildAt(i) % 2 == 1),
           seq(depth, i requires 0 <= i < depth => ChildAt(i) / 2 == 1))
    }
  }

  function Quadrant(east: bool, north: bool): (q: nat)
    ensures q < 4 && (q % 2 == 1 <==> east) && (q / 2 == 1 <==> north)
  {
    (if north then 2 else 0) + (if east then 1 else 0)
  }

  /** The word that spells out these turns. */
  function Pack(c: Cell): (bits: nat)
    requires |c.xs| == |c.ys|
    ensures bits < Pow4(|c.xs|)
    decreases |c.xs|
  {
    if c.xs == [] then 0 else
    var n := |c.xs| - 1;
    Pack(Cell(c.xs[..n], c.ys[..n])) + Quadrant(c.xs[n], c.ys[n]) * Pow4(n)
  }

  function KeyOf(c: Cell): QuadKey
    requires |c.xs| == |c.ys|
  {
    QuadKey(|c.xs|, Pack(c))
  }

  // ----- Words and turns are the same thing -----

  /** One shift of a word moves the digit at place `n` down to place `n - 1`. */
  lemma ShiftOnce(low: nat, q: nat, n: nat)
    requires n > 0
    ensures (low + q * Pow4(n)) / 4 == low / 4 + q * Pow4(n - 1)
    ensures (low + q * Pow4(n)) % 4 == low % 4
  {
    FourTimes(q, Pow4(n - 1));
  }

  lemma {:induction false} DigitAtTop(low: nat, q: nat, n: nat)
    requires low < Pow4(n)
    ensures Shift(low + q * Pow4(n), n) == q
  {
    if n > 0 {
      ShiftOnce(low, q, n);
      DigitAtTop(low / 4, q, n - 1);
    }
  }

  lemma {:induction false} DigitBelow(low: nat, q: nat, level: nat, n: nat)
    requires level < n
    ensures Shift(low + q * Pow4(n), level) % 4 == Shift(low, level) % 4
  {
    ShiftOnce(low, q, n);
    if level > 0 { DigitBelow(low / 4, q, level - 1, n - 1); }
  }

  /** Reading the word back at any level gives the turn that was packed there. */
  lemma {:induction false} PackedDigit(c: Cell, i: nat)
    requires |c.xs| == |c.ys| && i < |c.xs|
    ensures KeyOf(c).ChildAt(i) == Quadrant(c.xs[i], c.ys[i])
    decreases |c.xs|
  {
    var n := |c.xs| - 1;
    var front := Cell(c.xs[..n], c.ys[..n]);
    if i == n {
      DigitAtTop(Pack(front), Quadrant(c.xs[n], c.ys[n]), n);
    } else {
      DigitBelow(Pack(front), Quadrant(c.xs[n], c.ys[n]), i, n);
      PackedDigit(front, i);
    }
  }

  lemma DecodeInvertsKeyOf(c: Cell)
    requires |c.xs| == |c.ys|
    ensures KeyOf(c).Packed() && KeyOf(c).Decode() == c
  {
    var d := KeyOf(c).Decode();
    forall i | 0 <= i < |c.xs|
      ensures d.xs[i] == c.xs[i] && d.ys[i] == c.ys[i]
    {
      PackedDigit(c, i);
    }
    assert d.xs == c.xs && d.ys == c.ys;
  }

  /** The digits of a word below level `n`. */
  function Low(bits: nat, n: nat): (low: nat)
    ensures low < Pow4(n)
  {
    if n == 0 then 0 else bits % 4 + 4 * Low(bits / 4, n - 1)
  }

  lemma FourTimes(a: nat, p: nat)
    ensures a * (4 * p) == 4 * (a * p)
  {
  }

  /** A word one level longer is its lower digits and one digit on top. */
  lemma {:induction false} SplitTop(bits: nat, n: nat)
    requires bits < Pow4(n + 1)
    ensures Shift(bits, n) < 4 && bits == Low(bits, n) + Shift(bits, n) * Pow4(n)
  {
    if n > 0 {
      SplitTop(bits / 4, n - 1);
      FourTimes(Shift(bits, n), Pow4(n - 1));
    }
  }

  lemma {:induction false} KeyOfInvertsDecode(id: QuadKey)
    requires id.Packed()
    ensures KeyOf(id.Decode()) == id
    decreases id.depth
  {
    if id.depth > 0 {
      var n := id.depth - 1;
      var low, top := Low(id.bits, n), Shift(id.bits, n);
      SplitTop(id.bits, n);
      var front := QuadKey(n, low);
      KeyOfInvertsDecode(front);
      forall i | 0 <= i < n
        ensures front.ChildAt(i) == id.ChildAt(i)
      {
        DigitBelow(low, top, i, n);
      }
      var c := id.Decode();
      assert c.xs[..n] == front.Decode().xs && c.ys[..n] == front.Decode().ys;
      assert Quadrant(c.xs[n], c.ys[n]) == id.ChildAt(n) == top;
    }
  }

  /** A key of legal depth fits the unsigned 64-bit word it is stored in. */
  lemma {:induction false} WordFits(depth: nat)
    requires depth <= MAX_DEPTH
    ensures Pow4(depth) <= 0x4000_0000_0000_0000
  {
    Pow4Grows(depth, MAX_DEPTH);
    assert Pow4(8) == 0x1_0000;
    assert Pow4(16) == 0x1_0000_0000;
    assert Pow4(24) == 0x1_0000_0000_0000;
  }

  lemma {:induction false} Pow4Grows(a: nat, b: nat)
    requires a <= b
    ensures Pow4(a) <= Pow4(b)
  {
    if a < b { Pow4Grows(a, b - 1); }
  }

  // ----- The strategy's operations -----

  /** The shard of a point, out-of-range points falling into the edge cells. */
  method Locate(depth: nat, p: Point) returns (id: QuadKey)
    ensures id == KeyOf(CellAt(p, depth, depth))
  {
    var x, y := LONGITUDE, LATITUDE;
    var px, py := Clamp(LONGITUDE, p.x), Clamp(LATITUDE, p.y);
    var bits, place := 0, 1;
    for level := 0 to depth
      invariant Located(p, level, x, y, bits, place)
    {
      var midX, midY := x.Mid(), y.Mid();
      var east, north := px >= midX, py >= midY;
      LocateStep(p, level, x, y, bits, place, east, north);
      bits := bits + Quadrant(east, north) * place;
      place := 4 * place;
      if east { x := Span(midX, x.hi); } else { x := Span(x.lo, midX); }
      if north { y := Span(midY, y.hi); } else { y := Span(y.lo, midY); }
    }
    id := QuadKey(depth, bits);
  }

  /** Where the location of a point stands after some levels. */
  ghost predicate Located(p: Point, level: nat, x: Span, y: Span, bits: int, place: int) {
    var c := CellAt(p, level, level);
    c.Bounds() == Rect(x, y) && bits == Pack(c) && place == Pow4(level)
  }

  lemma LocateStep(p: Point, level: nat, x: Span, y: Span, bits: int, place: int, east: bool, north: bool)
    requires Located(p, level, x, y, bits, place)
    requires east == (Clamp(LONGITUDE, p.x) >= x.Mid()) && north == (Clamp(LATITUDE, p.y) >= y.Mid())
    ensures Located(p, level + 1, x.Half(east), y.Half(north), bits + Quadrant(east, north) * place, 4 * place)
  {
    var c, d := CellAt(p, level, level), CellAt(p, level + 1, level + 1);
    SteerStep(LONGITUDE, Clamp(LONGITUDE, p.x), level);
    SteerStep(LATITUDE, Clamp(LATITUDE, p.y), level);
    NarrowStep(LONGITUDE, c.xs, east);
    NarrowStep(LATITUDE, c.ys, north);
    PackStep(c, d, east, north);
  }

  lemma PackStep(c: Cell, d: Cell, east: bool, north: bool)
    requires |c.xs| == |c.ys| && d.xs == c.xs + [east] && d.ys == c.ys + [north]
    ensures Pack(d) == Pack(c) + Quadrant(east, north) * Pow4(|c.xs|)
  {
    assert d.xs[..|c.xs|] == c.xs && d.ys[..|c.ys|] == c.ys;
  }

  /** The rectangle of a shard. */
  method Bounds(id: QuadKey) returns (r: Rect)
    ensures r == id.Decode().Bounds()
  {
    var x, y := LONGITUDE, LATITUDE;
    ghost var c := id.Decode();
    for level := 0 to id.depth
      invariant x == Narrow(LONGITUDE, c.xs[..level]) && y == Narrow(LATITUDE, c.ys[..level])
    {
      var midX, midY := x.Mid(), y.Mid();
      var q := id.ChildAt(level);
      assert c.xs[..level + 1] == c.xs[..level] + [c.xs[level]];
      assert c.ys[..level + 1] == c.ys[..level] + [c.ys[level]];
      NarrowStep(LONGITUDE, c.xs[..level], c.xs[level]);
      NarrowStep(LATITUDE, c.ys[..level], c.ys[level]);
      if q % 2 != 0 { x := Span(midX, x.hi); } else { x := Span(x.lo, midX); }
      if q / 2 != 0 { y := Span(midY, y.hi); } else { y := Span(y.lo, midY); }
    }
    assert c.xs[..id.depth] == c.xs && c.ys[..id.depth] == c.ys;
    r := Rect(x, y);
  }

  /** A point is located in a shard exactly when that shard's rectangle owns the clamped point. */
  lemma ShardsTile(depth: nat, p: Point, id: QuadKey)
    requires id.depth == depth && id.Packed()
    ensures KeyOf(CellAt(p, depth, depth)) == id
       <==> OwnsPoint(id.Decode().Bounds(), Point(Clamp(LONGITUDE, p.x), Clamp(LATITUDE, p.y)))
  {
    CellsTile(p, id.Decode());
    DecodeInvertsKeyOf(CellAt(p, depth, depth));
    KeyOfInvertsDecode(id);
  }

  /** A shard's key starts with the keys of the coarser shards around it. */
  lemma CoarserShardIsAPrefix(p: Point, k: nat, n: nat, i: nat)
    requires i < k <= n
    ensures KeyOf(CellAt(p, k, k)).ChildAt(i) == KeyOf(CellAt(p, n, n)).ChildAt(i)
  {
    var c, d := CellAt(p, k, k), CellAt(p, n, n);
    SteersAlike(LONGITUDE, Clamp(LONGITUDE, p.x), k, n);
    SteersAlike(LATITUDE, Clamp(LATITUDE, p.y), k, n);
    PackedDigit(c, i);
    PackedDigit(d, i);
    assert d.xs[..k][i] == d.xs[i] && d.ys[..k][i] == d.ys[i];
  }

  /** The first quadrants: bit 0 for the eastern hemisphere and bit 1 for the northern. */
  lemma HemispheresOfTheWorld(p: Point)
    ensures KeyOf(CellAt(p, 1, 1)).bits == (if p.x >= 0.0 then 1 else 0) + (if p.y >= 0.0 then 2 else 0)
  {
    var c := CellAt(p, 1, 1);
    SteerStep(LONGITUDE, Clamp(LONGITUDE, p.x), 0);
    SteerStep(LATITUDE, Clamp(LATITUDE, p.y), 0);
    assert c.xs == [p.x >= 0.0] && c.ys == [p.y >= 0.0];
    assert Pack(Cell(c.xs[..0], c.ys[..0])) == 0;
  }

  /** The shard a probe of `id` lands in. */
  ghost predicate Lands(depth: nat, id: QuadKey, k: nat, n: QuadKey) {
    var p := ProbePoint(id.Decode().Bounds(), k);
    k < 8 && InWorld(p) && KeyOf(CellAt(p, depth, depth)) == n
  }

  ghost predicate LandsBefore(depth: nat, id: QuadKey, k: nat, n: QuadKey) {
    exists j: nat :: j < k && Lands(depth, id, j, n)
  }

  lemma LandsOn(depth: nat, id: QuadKey, k: nat, n: QuadKey)
    ensures LandsBefore(depth, id, k + 1, n) <==> LandsBefore(depth, id, k, n) || Lands(depth, id, k, n)
  {
  }

  ghost predicate Distinct(out: seq<QuadKey>) {
    forall i, j {:trigger out[i], out[j]} :: 0 <= i < j < |out| ==> out[i] != out[j]
  }

  /** What the first `k` probes gave, the shard itself left out, each once. */
  ghost predicate Gathered(depth: nat, id: QuadKey, k: nat, out: seq<QuadKey>) {
    Distinct(out) && forall n {:trigger n in out} :: n in out <==> n != id && LandsBefore(depth, id, k, n)
  }

  lemma GatherNone(depth: nat, id: QuadKey, k: nat, out: seq<QuadKey>)
    requires Gathered(depth, id, k, out) && !InWorld(ProbePoint(id.Decode().Bounds(), k))
    ensures Gathered(depth, id, k + 1, out)
  {
    forall n
      ensures LandsBefore(depth, id, k + 1, n) <==> LandsBefore(depth, id, k, n)
    {
      LandsOn(depth, id, k, n);
    }
  }

  lemma GatherOne(depth: nat, id: QuadKey, k: nat, out: seq<QuadKey>, found: QuadKey)
    requires Gathered(depth, id, k, out) && Lands(depth, id, k, found)
    ensures Gathered(depth, id, k + 1, if found != id && found !in out then out + [found] else out)
  {
    forall n
      ensures LandsBefore(depth, id, k + 1, n) <==> LandsBefore(depth, id, k, n) || n == found
    {
      LandsOn(depth, id, k, n);
    }
    if found !in out { AppendOne(out, found); }
  }

  lemma AppendOne(out: seq<QuadKey>, found: QuadKey)
    requires Distinct(out) && found !in out
    ensures Distinct(out + [found]) && forall n {:trigger n in out + [found]} :: n in out + [found] <==> n in out || n == found
  {
    var all := out + [found];
    forall i, j {:trigger all[i], all[j]} | 0 <= i < j < |all|
      ensures all[i] != all[j]
    {
      assert all[i] == out[i] && out[i] in out;
    }
  }

  /** The shards the probes of `id` land in, other than itself, each once. */
  method Neighbours(depth: nat, id: QuadKey) returns (out: seq<QuadKey>)
    ensures Gathered(depth, id, 8, out)
  {
    var r := Bounds(id);
    out := [];
    for k := 0 to 8
      invariant Gathered(depth, id, k, out)
    {
      var p := ProbePoint(r, k);
      if InWorld(p) {
        var n := Locate(depth, p);
        GatherOne(depth, id, k, out, n);
        if n != id && n !in out { out := out + [n]; }
      } else {
        GatherNone(depth, id, k, out);
      }
    }
  }

  /** At the strategy's own depth the neighbours are exactly the shards whose rectangles touch. */
  lemma NeighboursAreTheTouching(depth: nat, id: QuadKey, n: QuadKey)
    requires id.depth == depth && id.Packed()
    ensures (n != id && LandsBefore(depth, id, 8, n))
       <==> (n.depth == depth && n.Packed() && Touch(id.Decode(), n.Decode()))
  {
    KeyOfInvertsDecode(id);
    forall k | Lands(depth, id, k, n)
      ensures n.depth == depth && n.Packed() && Finds(id.Decode(), k, n.Decode())
    {
      DecodeInvertsKeyOf(CellAt(ProbePoint(id.Decode().Bounds(), k), depth, depth));
    }
    if n.depth == depth && n.Packed() {
      KeyOfInvertsDecode(n);
      ProbesFindWhatTouches(id.Decode(), n.Decode());
      forall k | Finds(id.Decode(), k, n.Decode())
        ensures Lands(depth, id, k, n)
      {
      }
    }
  }

  /** Being neighbours is mutual. */
  lemma NeighboursAreMutual(depth: nat, id: QuadKey, n: QuadKey)
    requires id.depth == depth && id.Packed() && n != id
    requires LandsBefore(depth, id, 8, n)
    ensures LandsBefore(depth, n, 8, id)
  {
    NeighboursAreTheTouching(depth, id, n);
    TouchIsSymmetric(id.Decode(), n.Decode());
    NeighboursAreTheTouching(depth, n, id);
  }
}
