/** Exactly which adopted trips every network that sees them alike would serve as restarts. */
module ProbingNetworks {
  import opened Observations
  import opened Numbers
  import opened TrellisGraph
  import opened TrellisCells
  import opened ConvergenceCut
  import opened Weighing
  import opened Trips
  import opened Matching
  import opened GrowingAlike
  import opened ForeignTrips

  /**
   * A network that knows the trip's candidates, places its observations and weighs the boundaries between
   * them as `w` does, and may be anything at all elsewhere.
   */
  ghost predicate SeesAlike(x: World, w: World, v: TripValue) {
    && x.Valid() && Supports(x, v.candidates)
    && (forall i {:trigger v.origins[i]} :: 0 <= i < |v.origins| ==> x.generate(v.origins[i].point) == w.generate(v.origins[i].point))
    && (forall k :: 0 <= k < |v.origins| - 1 ==> BoundaryOf(x, v.origins, k) == BoundaryOf(w, v.origins, k))
  }

  /** On every such network, whatever is observed next, the adopted trip is replied to as a restart. */
  ghost predicate AlwaysServedAlike(w: World, v: TripValue)
    requires v.Intact()
  {
    forall x: World, newer: seq<Origin> :: SeesAlike(x, w, v) ==> ServedAlike(x, v, newer)
  }

  // ----- Such networks weigh the trip alike -----

  lemma {:induction false} PushAllSame(x: World, w: World, v: TripValue, os: seq<Origin>)
    requires forall i {:trigger os[i]} :: 0 <= i < |os| ==> x.generate(os[i].point) == w.generate(os[i].point)
    ensures PushAll(x, v, os) == PushAll(w, v, os)
    decreases |os|
  {
    if os != [] {
      assert forall i {:trigger os[1..][i]} :: 0 <= i < |os| - 1 ==> os[1..][i] == os[i + 1];
      PushAllSame(x, w, Push(w, v, os[0]).0, os[1..]);
    }
  }

  lemma SeenAlikeIsPlacedAlike(x: World, w: World, v: TripValue)
    requires v.Intact() && PlacedAlike(w, v) && SeesAlike(x, w, v)
    ensures PlacedAlike(x, v) && Again(x, v) == Again(w, v)
  {
    assert StoreOf(x, v.origins) == StoreOf(w, v.origins);
    PushAllSame(x, w, FRESH, v.origins);
  }

  lemma WeighsAlikeWhatItHolds(x: World, w: World, v: TripValue, a: TripValue)
    requires v.Intact() && PlacedAlike(w, v) && SeesAlike(x, w, v)
    requires a.Intact() && !a.state.Unstarted? && a.origins == v.origins && a.candidates == v.candidates
    ensures WeighedHere(x, a) == WeighedHere(w, a)
  {
    var t := a.state.trellis;
    StoreIsStamped(w, v.origins);
    var p, q := Matching.Weigh(x, a.candidates, t), Matching.Weigh(w, a.candidates, t);
    forall k | 0 <= k < |t.transitions|
      ensures p.transitions[k] == q.transitions[k]
    {
      assert BoundaryOf(x, v.origins, k) == BoundaryOf(w, v.origins, k);
      assert p.transitions[k] == Settled(x, a.candidates, t, k) && q.transitions[k] == Settled(w, a.candidates, t, k);
    }
    assert p.transitions == q.transitions;
  }

  lemma AlikeFinalsServeAlike(x: World, w: World, v: TripValue, newer: seq<Origin>)
    requires v.Intact() && PlacedAlike(w, v) && !v.state.Unstarted? && SeesAlike(x, w, v)
    requires !Again(w, v).state.Unstarted? && FinalsAlike(WeighedHere(w, v), WeighedHere(w, Again(w, v)))
    ensures ServedAlike(x, v, newer)
  {
    SeenAlikeIsPlacedAlike(x, w, v);
    WeighsAlikeWhatItHolds(x, w, v, v);
    WeighsAlikeWhatItHolds(x, w, v, Again(w, v));
    AdoptedAlikeForever(x, v);
  }

  // ----- A network that tells two final nodes apart -----

  /** Two positions nobody else has, at a point nobody has been, reached only from `from`, free of charge. */
  ghost function Probe(w: World, p: Point, from: Anchor, a: Anchor, b: Anchor): World {
    World(q => if q == p then [a, b] else w.generate(q),
          c => c == a || c == b || w.knows(c),
          (c, d) => if d == a || d == b then (if c == from then Some([]) else None) else w.route(c, d),
          (c, d, path) => if d == a || d == b then Some(0) else w.price(c, d, path),
          (c, layer) => if layer == [a, b] then [0, 1] else w.select(c, layer))
  }

  lemma ProbeIsValid(w: World, p: Point, from: Anchor, a: Anchor, b: Anchor)
    requires w.Valid()
    ensures Probe(w, p, from, a, b).Valid()
  {
    var x := Probe(w, p, from, a, b);
    forall c: Anchor, layer: seq<Anchor>, i: nat | i in x.select(c, layer)
      ensures i < |layer|
    {
      if layer != [a, b] { assert i in w.select(c, layer); }
    }
  }

  /** Between positions that are not the two, it weighs as before. */
  lemma {:induction false} ProbeMatrix(w: World, x: World, p: Point, from: Anchor, a: Anchor, b: Anchor,
                                       sources: seq<Anchor>, to: seq<Anchor>)
    requires x == Probe(w, p, from, a, b) && a !in to && b !in to
    ensures x.Matrix(sources, to) == w.Matrix(sources, to)
  {
    if sources != [] {
      var n := |sources| - 1;
      ProbeMatrix(w, x, p, from, a, b, sources[..n], to);
      ProbeRow(w, x, p, from, a, b, sources[n], to);
    }
  }

  lemma ProbeRow(w: World, x: World, p: Point, from: Anchor, a: Anchor, b: Anchor, source: Anchor, to: seq<Anchor>)
    requires x == Probe(w, p, from, a, b) && a !in to && b !in to
    ensures x.Row(source, to) == w.Row(source, to)
  {
    assert to != [a, b] by { assert a in [a, b]; }
    forall j | 0 <= j < |to|
      ensures x.Entry(source, to, j) == w.Entry(source, to, j)
    {
      assert to[j] in to;
    }
  }

  /** Nobody has been there, and nobody has these positions. */
  ghost predicate Unseen(v: TripValue, p: Point, a: Anchor, b: Anchor) {
    && (forall i {:trigger v.origins[i]} :: 0 <= i < |v.origins| ==> v.origins[i].point != p)
    && (forall l {:trigger v.candidates[l]} :: 0 <= l < |v.candidates| ==>
          a !in Weighing.Anchors(v.candidates[l]) && b !in Weighing.Anchors(v.candidates[l]))
  }

  lemma ProbeSeesAlike(w: World, v: TripValue, p: Point, from: Anchor, a: Anchor, b: Anchor)
    requires w.Valid() && v.Intact() && Supports(w, v.candidates) && PlacedAlike(w, v) && Unseen(v, p, a, b)
    ensures SeesAlike(Probe(w, p, from, a, b), w, v)
  {
    var x := Probe(w, p, from, a, b);
    ProbeIsValid(w, p, from, a, b);
    StoreIsStamped(w, v.origins);
    forall k | 0 <= k < |v.origins| - 1
      ensures BoundaryOf(x, v.origins, k) == BoundaryOf(w, v.origins, k)
    {
      var to := w.generate(v.origins[k + 1].point);
      assert Weighing.Anchors(v.candidates[k + 1]) == to;
      ProbeMatrix(w, x, p, from, a, b, w.generate(v.origins[k].point), to);
    }
  }

  /** No two candidates of a layer are the same position. */
  ghost predicate Differ(anchors: seq<Anchor>) {
    forall i, j {:trigger anchors[i], anchors[j]} :: 0 <= i < j < |anchors| ==> anchors[i] != anchors[j]
  }

  /** The boundary into the two positions is the fan of a fork. */
  lemma ProbeBoundary(w: World, x: World, p: Point, anchors: seq<Anchor>, n: nat, a: Anchor, b: Anchor, t: Trellis)
    requires n < |anchors| && Differ(anchors) && x == Probe(w, p, anchors[n], a, b) && a != b
    requires t.Valid() && t.widths[t.Layers() - 1] == |anchors|
    ensures x.Boundary(anchors, [a, b]) == Fork(t, n, n, 0).transitions[t.Layers() - 1]
  {
    var m, fan := x.Matrix(anchors, [a, b]), Fork(t, n, n, 0).transitions[t.Layers() - 1].weights;
    forall z | 0 <= z < |anchors| * 2
      ensures Stored(m)[z] == fan[z] && (z == n * 2 ==> m[z] != NO_EDGE)
    {
      MatrixAt(x, anchors, [a, b], z / 2, z % 2);
      ProbeEntry(w, x, p, anchors, n, a, b, z / 2, z % 2);
      assert fan[z] == Prong(n, n, 0, z / 2, z % 2);
    }
    assert m[n * 2] != NO_EDGE;
    assert Stored(m) == fan;
  }

  lemma ProbeEntry(w: World, x: World, p: Point, anchors: seq<Anchor>, n: nat, a: Anchor, b: Anchor, i: nat, j: nat)
    requires n < |anchors| && Differ(anchors) && x == Probe(w, p, anchors[n], a, b) && i < |anchors| && j < 2
    ensures x.Entry(anchors[i], [a, b], j) == if i == n then 0 else NO_EDGE
  {
    assert x.select(anchors[i], [a, b]) == [0, 1];
    assert i != n ==> anchors[i] != anchors[n];
  }

  /** After one observation there, the trip is the fork of what it was. */
  lemma ProbeForks(w: World, x: World, v: TripValue, o: Origin, n: nat, anchors: seq<Anchor>, a: Anchor, b: Anchor)
    requires v.Intact() && !v.state.Unstarted? && anchors == Weighing.Anchors(v.candidates[|v.candidates| - 1])
    requires n < |anchors| && Differ(anchors) && x == Probe(w, o.point, anchors[n], a, b) && a != b && a.emission == b.emission == 0
    ensures var u := PushAll(x, v, [o]);
      u.Intact() && !u.state.Unstarted? && WeighedHere(x, u) == Fork(WeighedHere(x, v), n, n, 0)
  {
    var t := WeighedHere(x, v);
    PushWeighs(x, v, o, [a, b]);
    OnePushed(x, v, o);
    assert Emissions([a, b]) == [0, 0];
    assert Weighing.Anchors(Stamp(|v.origins|, [a, b])) == [a, b];
    ProbeBoundary(w, x, o.point, anchors, n, a, b, t);
    assert Fork(t, n, n, 0).transitions == t.transitions + [Fork(t, n, n, 0).transitions[t.Layers() - 1]];
  }

  lemma OnePushed(x: World, v: TripValue, o: Origin)
    ensures PushAll(x, v, [o]) == Push(x, v, o).0
  {
    assert [o][1..] == [];
  }

  // ----- Something unseen -----

  lemma {:induction false} FreshPoint(os: seq<Origin>) returns (p: Point)
    ensures forall i {:trigger os[i]} :: 0 <= i < |os| ==> os[i].point.x < p.x
  {
    if os == [] {
      p := Point(0.0, 0.0);
    } else {
      var n := |os| - 1;
      var q := FreshPoint(os[..n]);
      p := if q.x <= os[n].point.x then Point(os[n].point.x + 1.0, 0.0) else q;
      assert forall i {:trigger os[i]} :: 0 <= i < n ==> os[i] == os[..n][i];
    }
  }

  lemma {:induction false} FreshId(s: seq<Anchor>, least: int) returns (id: int)
    ensures least <= id && forall n {:trigger s[n]} :: 0 <= n < |s| ==> s[n].id < id
  {
    id := least;
    if s != [] {
      var n := |s| - 1;
      id := FreshId(s[..n], if least <= s[n].id then s[n].id + 1 else least);
      assert forall i {:trigger s[i]} :: 0 <= i < n ==> s[i] == s[..n][i];
    }
  }

  lemma {:induction false} FreshIds(store: Store) returns (id: int)
    ensures forall l, n :: 0 <= l < |store| && 0 <= n < |store[l]| ==> store[l][n].anchor.id < id
  {
    if store == [] {
      id := 0;
    } else {
      var k := |store| - 1;
      var least := FreshIds(store[..k]);
      id := FreshId(Weighing.Anchors(store[k]), least);
      forall l, n | 0 <= l < |store| && 0 <= n < |store[l]|
        ensures store[l][n].anchor.id < id
      {
        if l < k {
          assert store[..k][l] == store[l];
        } else {
          assert Weighing.Anchors(store[k])[n] == store[l][n].anchor;
        }
      }
    }
  }

  lemma SomethingUnseen(v: TripValue) returns (o: Origin, a: Anchor, b: Anchor)
    ensures Unseen(v, o.point, a, b) && a != b && a.emission == b.emission == 0
  {
    var p := FreshPoint(v.origins);
    var id := FreshIds(v.candidates);
    o, a, b := Origin(p, 0), Anchor(id, 0), Anchor(id + 1, 0);
    forall l {:trigger v.candidates[l]} | 0 <= l < |v.candidates|
      ensures a !in Weighing.Anchors(v.candidates[l]) && b !in Weighing.Anchors(v.candidates[l])
    {
      assert forall n {:trigger Weighing.Anchors(v.candidates[l])[n]} :: 0 <= n < |v.candidates[l]| ==>
        Weighing.Anchors(v.candidates[l])[n] == v.candidates[l][n].anchor;
    }
  }

  // ----- The exact condition -----

  /** A final node that differs is told apart by one network and one observation. */
  lemma UnlikeFinalsServeUnlike(w: World, v: TripValue, n: nat) returns (x: World, newer: seq<Origin>)
    requires w.Valid() && v.Intact() && Supports(w, v.candidates) && PlacedAlike(w, v) && !v.state.Unstarted?
    requires !Again(w, v).state.Unstarted? && Differ(Weighing.Anchors(v.candidates[|v.candidates| - 1]))
    requires !AlikeAt(WeighedHere(w, v), WeighedHere(w, Again(w, v)), n)
    ensures SeesAlike(x, w, v) && !ServedAlike(x, v, newer)
  {
    var t, r := WeighedHere(w, v), WeighedHere(w, Again(w, v));
    WeighedWidths(w, v, Again(w, v));
    ToldApart(t, r, n);
    x, newer := ForksToldApart(w, v, Again(w, v), t, r, n, Weighing.Anchors(v.candidates[|v.candidates| - 1]));
  }

  /** Two forks that answer differently are two replies to one observation. */
  lemma ForksToldApart(w: World, v: TripValue, again: TripValue, t: Trellis, r: Trellis, n: nat, anchors: seq<Anchor>)
    returns (x: World, newer: seq<Origin>)
    requires w.Valid() && v.Intact() && Supports(w, v.candidates) && PlacedAlike(w, v) && !v.state.Unstarted?
    requires again == Again(w, v) && !again.state.Unstarted? && t == WeighedHere(w, v) && r == WeighedHere(w, again)
    requires t.widths == r.widths && t.Has(t.Layers() - 1, n) && anchors == Weighing.Anchors(v.candidates[|v.candidates| - 1])
    requires n < |anchors| && Differ(anchors) && !AnswerAlike(Fork(t, n, n, 0), Fork(r, n, n, 0))
    ensures SeesAlike(x, w, v) && !ServedAlike(x, v, newer)
  {
    var o, a, b := SomethingUnseen(v);
    newer := [o];
    x := Probed(w, v, again, o, anchors[n], a, b);
    ForkedServeUnlike(w, x, v, again, o, n, anchors, a, b);
  }

  /** The probing network sees the trip and its restart just as this one does. */
  lemma Probed(w: World, v: TripValue, again: TripValue, o: Origin, from: Anchor, a: Anchor, b: Anchor) returns (x: World)
    requires w.Valid() && v.Intact() && Supports(w, v.candidates) && PlacedAlike(w, v) && !v.state.Unstarted?
    requires Unseen(v, o.point, a, b) && again == Again(w, v) && !again.state.Unstarted?
    ensures x == Probe(w, o.point, from, a, b) && SeesAlike(x, w, v) && PlacedAlike(x, v) && Again(x, v) == again
    ensures WeighedHere(x, v) == WeighedHere(w, v) && WeighedHere(x, again) == WeighedHere(w, again)
  {
    x := Probe(w, o.point, from, a, b);
    ProbeSeesAlike(w, v, o.point, from, a, b);
    SeenAlikeIsPlacedAlike(x, w, v);
    WeighsAlikeWhatItHolds(x, w, v, v);
    WeighsAlikeWhatItHolds(x, w, v, again);
  }

  lemma ForkedServeUnlike(w: World, x: World, v: TripValue, again: TripValue, o: Origin, n: nat, anchors: seq<Anchor>, a: Anchor, b: Anchor)
    requires v.Intact() && Supports(x, v.candidates) && PlacedAlike(x, v) && !v.state.Unstarted? && again == Again(x, v)
    requires again.Intact() && !again.state.Unstarted? && anchors == Weighing.Anchors(v.candidates[|v.candidates| - 1])
    requires n < |anchors| && Differ(anchors) && x == Probe(w, o.point, anchors[n], a, b) && a != b && a.emission == b.emission == 0
    requires WeighedHere(x, v).Has(WeighedHere(x, v).Layers() - 1, n)
    requires WeighedHere(x, again).Has(WeighedHere(x, again).Layers() - 1, n)
    requires !AnswerAlike(Fork(WeighedHere(x, v), n, n, 0), Fork(WeighedHere(x, again), n, n, 0))
    ensures !ServedAlike(x, v, [o])
  {
    ProbeForks(w, x, v, o, n, anchors, a, b);
    ProbeForks(w, x, again, o, n, anchors, a, b);
    ForksServeUnlike(x, v, again, o, WeighedHere(x, PushAll(x, v, [o])), WeighedHere(x, PushAll(x, again, [o])));
  }

  /** Two growths of one observation that do not answer alike are not served alike. */
  lemma ForksServeUnlike(x: World, v: TripValue, again: TripValue, o: Origin, p: Trellis, q: Trellis)
    requires v.Intact() && Supports(x, v.candidates) && PlacedAlike(x, v) && !v.state.Unstarted? && again == Again(x, v)
    requires PushAll(x, v, [o]).Intact() && !PushAll(x, v, [o]).state.Unstarted? && p == WeighedHere(x, PushAll(x, v, [o]))
    requires PushAll(x, again, [o]).Intact() && !PushAll(x, again, [o]).state.Unstarted?
    requires q == WeighedHere(x, PushAll(x, again, [o])) && !AnswerAlike(p, q)
    ensures !ServedAlike(x, v, [o])
  {
    var c, d := BothServed(x, v, [o]);
    AnsweredAlikeIff(x, c, d, WeighedHere(x, v), WeighedHere(x, again));
  }

  /**
   * A supported trip, built at whatever costs, whose candidates this network places alike. On every network
   * that sees it so, and whatever is observed next, adopting it is replied to as restarting, exactly when
   * each final node of its trellis, weighed here, is open in neither it nor the restart's, or in both at one
   * distance by one route.
   */
  lemma ServedAlikeIffFinalsAlike(w: World, v: TripValue)
    requires w.Valid() && v.Intact() && Supports(w, v.candidates) && PlacedAlike(w, v) && !v.state.Unstarted?
    requires Differ(Weighing.Anchors(v.candidates[|v.candidates| - 1]))
    ensures !Again(w, v).state.Unstarted?
    ensures AlwaysServedAlike(w, v) <==> FinalsAlike(WeighedHere(w, v), WeighedHere(w, Again(w, v)))
  {
    AdoptedIsPaired(w, v);
    if FinalsAlike(WeighedHere(w, v), WeighedHere(w, Again(w, v))) {
      forall x: World, newer: seq<Origin> | SeesAlike(x, w, v)
        ensures ServedAlike(x, v, newer)
      {
        AlikeFinalsServeAlike(x, w, v, newer);
      }
    } else {
      var n :| !AlikeAt(WeighedHere(w, v), WeighedHere(w, Again(w, v)), n);
      var x, newer := UnlikeFinalsServeUnlike(w, v, n);
    }
  }
}
