/** The matcher over a trip: pushing, extending, solving and collapsing, and what never changes. */
module Matching {
  import opened Observations
  import opened Numbers
  import opened TrellisGraph
  import opened Viterbi
  import FrontierCollapse
  import opened Weighing
  import opened Trips

  /** A boundary the route breaks at, with the observations on each side. */
  datatype Break = Break(fromLayer: nat, toLayer: nat, fromPoint: Point, toPoint: Point)

  datatype MatchError =
    | Unanchored(points: seq<(nat, Point)>)
    | Disconnected(breaks: seq<Break>)
    | TrellisFailure(error: TrellisError)

  // ----- What a trip's observations determine -----

  ghost predicate AllAnchored(w: World, os: seq<Origin>) {
    forall i :: 0 <= i < |os| ==> w.generate(os[i].point) != []
  }

  ghost function Widths(w: World, os: seq<Origin>): (s: seq<nat>)
    ensures |s| == |os| && forall i {:trigger s[i]} :: 0 <= i < |s| ==> s[i] == |w.generate(os[i].point)|
  {
    seq(|os|, i requires 0 <= i < |os| => |w.generate(os[i].point)|)
  }

  /** Every clamped emission, layer-major. */
  ghost function NodeTable(w: World, os: seq<Origin>): seq<u32> {
    if os == [] then [] else
    NodeTable(w, os[..|os| - 1]) + Emissions(w.generate(os[|os| - 1].point))
  }

  /** Where a layer's emissions are. */
  lemma {:induction false} NodeTableAt(w: World, os: seq<Origin>, l: nat, n: nat)
    requires l < |os| && n < |w.generate(os[l].point)|
    ensures 0 <= Start(Widths(w, os), l) + n < |NodeTable(w, os)|
    ensures NodeTable(w, os)[Start(Widths(w, os), l) + n] == Min(w.generate(os[l].point)[n].emission, MAX_WEIGHT)
  {
    var k := |os| - 1;
    var q := os[..k];
    NodeTableSize(w, q);
    StartOfPrefix(Widths(w, q), Widths(w, os), k);
    if l < k {
      NodeTableAt(w, q, l, n);
      StartOfPrefix(Widths(w, q), Widths(w, os), l);
    }
  }

  ghost function BoundaryOf(w: World, os: seq<Origin>, k: nat): Transition
    requires k + 1 < |os|
  {
    w.Boundary(w.generate(os[k].point), w.generate(os[k + 1].point))
  }

  ghost function StoreOf(w: World, os: seq<Origin>): (s: Store)
    ensures |s| == |os| && forall l {:trigger s[l]} :: 0 <= l < |s| ==> s[l] == Stamp(l, w.generate(os[l].point))
  {
    seq(|os|, l requires 0 <= l < |os| => Stamp(l, w.generate(os[l].point)))
  }

  /** A trellis grown from these observations, whose every boundary is as weighed or still pending. */
  ghost predicate Grown(w: World, os: seq<Origin>, t: Trellis) {
    && os != [] && t.widths == Widths(w, os) && t.nodes == NodeTable(w, os) && |t.transitions| == |os| - 1
    && forall k {:trigger t.transitions[k]} :: 0 <= k < |t.transitions| ==> t.transitions[k] == Pending || t.transitions[k] == BoundaryOf(w, os, k)
  }

  /** A grown trellis with every boundary weighed. */
  ghost predicate Weighed(w: World, os: seq<Origin>, t: Trellis) {
    Grown(w, os, t) && forall k {:trigger t.transitions[k]} :: 0 <= k < |t.transitions| ==> t.transitions[k] == BoundaryOf(w, os, k)
  }

  /**
   * What every operation of one matcher keeps: observations, candidates and trellis aligned; stamps
   * positional; node weights the clamped emissions; resolved boundaries as weighed; and a solved
   * trip holding the optimal path of its own trellis.
   */
  ghost predicate Sound(w: World, v: TripValue) {
    v.Intact() && Made(w, v)
  }

  /** The candidates and the trellis are the ones this network makes of the observations. */
  ghost predicate Made(w: World, v: TripValue) {
    && AllAnchored(w, v.origins) && v.candidates == StoreOf(w, v.origins)
    && match v.state
       case Unstarted => v.origins == []
       case Building(t) => Grown(w, v.origins, t)
       case Solved(t, path) => Weighed(w, v.origins, t) && t.Valid() && Solvable(t) && path == Answer(t)
  }

  lemma MadeIsSound(w: World, v: TripValue)
    requires Made(w, v)
    ensures Sound(w, v)
  {
    StoreIsStamped(w, v.origins);
    if !v.state.Unstarted? {
      GrownIsValid(w, v.origins, v.state.trellis);
    }
  }

  lemma StoreIsStamped(w: World, os: seq<Origin>)
    ensures Stamped(StoreOf(w, os))
    ensures forall l :: 0 <= l < |os| ==> Weighing.Anchors(StoreOf(w, os)[l]) == w.generate(os[l].point)
  {
  }

  lemma BoundaryFits(w: World, from: seq<Anchor>, to: seq<Anchor>)
    ensures w.Boundary(from, to).Resolved? ==>
      && |w.Boundary(from, to).weights| == |from| * |to|
      && forall x :: 0 <= x < |from| * |to| ==> w.Boundary(from, to).weights[x] <= INF_W
  {
  }

  lemma {:induction false} NodeTableSize(w: World, os: seq<Origin>)
    ensures |NodeTable(w, os)| == Start(Widths(w, os), |os|)
    ensures forall x :: 0 <= x < |NodeTable(w, os)| ==> NodeTable(w, os)[x] <= MAX_WEIGHT
  {
    if os != [] {
      var q := os[..|os| - 1];
      NodeTableSize(w, q);
      StartOfPrefix(Widths(w, q), Widths(w, os), |q|);
    }
  }

  lemma GrownIsValid(w: World, os: seq<Origin>, t: Trellis)
    requires AllAnchored(w, os) && Grown(w, os, t)
    ensures t.Valid() && Aligned(StoreOf(w, os), t)
  {
    NodeTableSize(w, os);
    forall k | 0 <= k < |t.transitions|
      ensures t.TransitionFits(k)
    {
      BoundaryFits(w, w.generate(os[k].point), w.generate(os[k + 1].point));
    }
  }

  lemma SoundIsSane(w: World, v: TripValue)
    requires Sound(w, v)
    ensures v.Sane() && (!v.state.Unstarted? ==> Grown(w, v.origins, v.state.trellis) && Aligned(v.candidates, v.state.trellis))
  {
    if !v.state.Unstarted? {
      GrownIsValid(w, v.origins, v.state.trellis);
    }
  }

  // ----- Trips of another network -----

  /** All of a trip's candidates lie on this network. */
  predicate Supports(w: World, store: Store) {
    forall l, n :: 0 <= l < |store| && 0 <= n < |store[l]| ==> w.knows(store[l][n].anchor)
  }

  /** A network supports every trip of its own. */
  lemma SoundIsSupported(w: World, v: TripValue)
    requires w.Valid() && Sound(w, v)
    ensures Supports(w, v.candidates)
  {
    forall l, n | 0 <= l < |v.candidates| && 0 <= n < |v.candidates[l]|
      ensures w.knows(v.candidates[l][n].anchor)
    {
      assert v.candidates[l][n].anchor in w.generate(v.origins[l].point);
    }
  }

  /** The two networks generate alike at every observation, and weigh alike every boundary resolved so far. */
  ghost predicate Agree(w: World, home: World, v: TripValue) {
    && (forall i {:trigger v.origins[i]} :: 0 <= i < |v.origins| ==>
          w.generate(v.origins[i].point) == home.generate(v.origins[i].point))
    && (!v.state.Unstarted? ==> forall k {:trigger v.state.trellis.transitions[k]} ::
          0 <= k < |v.state.trellis.transitions| && k + 1 < |v.origins| && v.state.trellis.transitions[k].Resolved? ==>
            BoundaryOf(w, v.origins, k) == BoundaryOf(home, v.origins, k))
  }

  lemma {:induction false} SameNodeTable(w: World, home: World, os: seq<Origin>)
    requires forall i {:trigger os[i]} :: 0 <= i < |os| ==> w.generate(os[i].point) == home.generate(os[i].point)
    ensures NodeTable(w, os) == NodeTable(home, os)
  {
    if os != [] { SameNodeTable(w, home, os[..|os| - 1]); }
  }

  /** A trip one network built is as sound in another if and only if they agree on what it holds. */
  lemma ForeignIsSoundIffAgreed(w: World, home: World, v: TripValue)
    requires Sound(home, v)
    ensures Sound(w, v) <==> Agree(w, home, v)
  {
    if Agree(w, home, v) {
      AgreedIsSound(w, home, v);
    } else if Sound(w, v) {
      SoundInBothAgree(w, home, v);
    }
  }

  lemma AgreedIsSound(w: World, home: World, v: TripValue)
    requires Sound(home, v) && Agree(w, home, v)
    ensures Sound(w, v)
  {
    SameNodeTable(w, home, v.origins);
    assert Widths(w, v.origins) == Widths(home, v.origins);
    assert StoreOf(w, v.origins) == StoreOf(home, v.origins);
    if v.state.Solved? {
      assert v.state.trellis.FullyResolved();
    }
  }

  lemma SoundInBothAgree(w: World, home: World, v: TripValue)
    requires Sound(home, v) && Sound(w, v)
    ensures Agree(w, home, v)
  {
    StoreIsStamped(w, v.origins);
    StoreIsStamped(home, v.origins);
  }

  // ----- Push and extend -----

  /** One observation: refused whole when nothing anchors it. */
  ghost function Push(w: World, v: TripValue, o: Origin): (TripValue, Result<nat, MatchError>) {
    var anchors := w.generate(o.point);
    if anchors == [] then (v, Err(Unanchored([(|v.origins|, o.point)])))
    else
      var (u, r) := PushLayer(v, o, anchors);
      (u, match r case Ok(id) => Ok(id) case Err(e) => Err(TrellisFailure(e)))
  }

  /** Every observation that does not anchor, with the layer it would have taken. */
  ghost function Unplaced(w: World, os: seq<Origin>, first: nat): seq<(nat, Point)> {
    if os == [] then [] else
    (if w.generate(os[0].point) == [] then [(first, os[0].point)] else []) + Unplaced(w, os[1..], first + 1)
  }

  ghost function PushAll(w: World, v: TripValue, os: seq<Origin>): TripValue
    decreases |os|
  {
    if os == [] then v else PushAll(w, Push(w, v, os[0]).0, os[1..])
  }

  /** A batch: refused whole, naming every observation that does not anchor. */
  ghost function Extend(w: World, v: TripValue, os: seq<Origin>): (TripValue, Result<(), MatchError>) {
    var missing := Unplaced(w, os, |v.origins|);
    if missing != [] then (v, Err(Unanchored(missing))) else (PushAll(w, v, os), Ok(()))
  }

  /** They are reported with the layers they would have taken, each once and in order, and no other is. */
  lemma {:induction false} UnplacedAreTheUnanchored(w: World, os: seq<Origin>, first: nat)
    ensures forall layer: nat, p: Point :: (layer, p) in Unplaced(w, os, first) <==>
      first <= layer < first + |os| && os[layer - first].point == p && w.generate(p) == []
    ensures forall i, j {:trigger Unplaced(w, os, first)[i], Unplaced(w, os, first)[j]} ::
      0 <= i < j < |Unplaced(w, os, first)| ==> Unplaced(w, os, first)[i].0 < Unplaced(w, os, first)[j].0
  {
    if os != [] {
      UnplacedAreTheUnanchored(w, os[1..], first + 1);
      var rest := Unplaced(w, os[1..], first + 1);
      assert forall i :: 0 <= i < |rest| ==> (rest[i].0, rest[i].1) in rest;
      assert forall i :: 0 <= i < |os| - 1 ==> os[1..][i] == os[i + 1];
    }
  }

  lemma {:induction false} UnplacedIffUnanchored(w: World, os: seq<Origin>, first: nat)
    ensures Unplaced(w, os, first) == [] <==> AllAnchored(w, os)
  {
    if os != [] {
      UnplacedIffUnanchored(w, os[1..], first + 1);
      assert AllAnchored(w, os) <==> w.generate(os[0].point) != [] && AllAnchored(w, os[1..]) by {
        if w.generate(os[0].point) != [] && AllAnchored(w, os[1..]) {
          assert forall i :: 1 <= i < |os| ==> os[i] == os[1..][i - 1];
        }
      }
    }
  }

  lemma GrownAppends(w: World, os: seq<Origin>, o: Origin, t: Trellis)
    requires Grown(w, os, t)
    ensures Grown(w, os + [o], t.Append(Emissions(w.generate(o.point))))
  {
    var ps := os + [o];
    assert ps[..|ps| - 1] == os;
  }

  lemma StoreAppends(w: World, os: seq<Origin>, o: Origin)
    ensures StoreOf(w, os + [o]) == StoreOf(w, os) + [Stamp(|os|, w.generate(o.point))]
  {
  }

  lemma FirstLayerIsGrown(w: World, o: Origin)
    ensures Grown(w, [o], FirstLayer(Emissions(w.generate(o.point))))
  {
    assert [o][..0] == [] && NodeTable(w, []) == [];
  }

  /** An anchored observation joins the trip as its next layer. */
  lemma PushKeepsSound(w: World, v: TripValue, o: Origin)
    requires Sound(w, v) && w.generate(o.point) != []
    ensures Push(w, v, o).1 == Ok(|v.origins|)
    ensures Sound(w, Push(w, v, o).0) && Push(w, v, o).0.origins == v.origins + [o]
  {
    StoreAppends(w, v.origins, o);
    if v.state.Unstarted? {
      FirstLayerIsGrown(w, o);
      assert [] + [o] == [o];
    } else {
      assert Grown(w, v.origins, v.state.trellis);
      GrownAppends(w, v.origins, o, v.state.trellis);
    }
    PushLayerKeepsIntact(v, o, w.generate(o.point));
  }

  /** Any trip, whichever network built it, is as intact after a push. */
  lemma PushKeepsIntact(w: World, v: TripValue, o: Origin)
    requires v.Intact()
    ensures Push(w, v, o).0.Intact()
  {
    if w.generate(o.point) != [] {
      PushLayerKeepsIntact(v, o, w.generate(o.point));
    }
  }

  /** An anchored observation joins the observations, as the next layer; any other changes nothing. */
  lemma PushAppends(w: World, v: TripValue, o: Origin)
    requires v.Intact()
    ensures w.generate(o.point) == [] ==> Push(w, v, o) == (v, Err(Unanchored([(|v.origins|, o.point)])))
    ensures w.generate(o.point) != [] ==> Push(w, v, o).1 == Ok(|v.origins|) && Push(w, v, o).0.origins == v.origins + [o]
  {
    if w.generate(o.point) != [] {
      PushLayerKeepsIntact(v, o, w.generate(o.point));
    }
  }

  lemma {:induction false} PushAllAppends(w: World, v: TripValue, os: seq<Origin>)
    requires v.Intact()
    ensures AllAnchored(w, os) ==> PushAll(w, v, os).origins == v.origins + os
    decreases |os|
  {
    if os != [] {
      PushKeepsIntact(w, v, os[0]);
      PushAppends(w, v, os[0]);
      PushAllAppends(w, Push(w, v, os[0]).0, os[1..]);
      if AllAnchored(w, os) {
        assert forall i :: 0 <= i < |os| - 1 ==> os[1..][i] == os[i + 1];
        assert v.origins + [os[0]] + os[1..] == v.origins + os;
      }
    }
  }

  lemma {:induction false} PushAllKeepsIntact(w: World, v: TripValue, os: seq<Origin>)
    requires v.Intact()
    ensures PushAll(w, v, os).Intact()
    decreases |os|
  {
    if os != [] {
      PushKeepsIntact(w, v, os[0]);
      PushAllKeepsIntact(w, Push(w, v, os[0]).0, os[1..]);
    }
  }

  /** The observations of `os` that anchor, in order. */
  ghost function Placed(w: World, os: seq<Origin>): seq<Origin> {
    if os == [] then [] else
    (if w.generate(os[0].point) != [] then [os[0]] else []) + Placed(w, os[1..])
  }

  lemma PushPlaces(w: World, v: TripValue, o: Origin)
    requires Sound(w, v)
    ensures Sound(w, Push(w, v, o).0) && Push(w, v, o).0.origins == v.origins + Placed(w, [o])
  {
    assert Placed(w, [o][1..]) == [];
    if w.generate(o.point) != [] {
      PushKeepsSound(w, v, o);
    }
  }

  lemma PlacedSplits(w: World, prefix: seq<Origin>, os: seq<Origin>)
    requires os != []
    ensures prefix + Placed(w, os) == prefix + Placed(w, [os[0]]) + Placed(w, os[1..])
  {
    PlacedHead(w, os);
    Reassociate(prefix, Placed(w, [os[0]]), Placed(w, os[1..]));
  }

  lemma PlacedHead(w: World, os: seq<Origin>)
    requires os != []
    ensures Placed(w, os) == Placed(w, [os[0]]) + Placed(w, os[1..])
  {
    assert [os[0]][1..] == [];
  }

  lemma Reassociate(a: seq<Origin>, b: seq<Origin>, c: seq<Origin>)
    ensures a + (b + c) == a + b + c
  {
  }

  lemma {:induction false} PushAllKeepsSound(w: World, v: TripValue, os: seq<Origin>)
    requires Sound(w, v)
    ensures Sound(w, PushAll(w, v, os)) && PushAll(w, v, os).origins == v.origins + Placed(w, os)
    decreases |os|
  {
    if os != [] {
      PushPlaces(w, v, os[0]);
      PlacedSplits(w, v.origins, os);
      PushAllKeepsSound(w, Push(w, v, os[0]).0, os[1..]);
    }
  }

  lemma {:induction false} PlacedOfAnchored(w: World, os: seq<Origin>)
    requires AllAnchored(w, os)
    ensures Placed(w, os) == os
  {
    if os != [] {
      assert AllAnchored(w, os[1..]) by {
        assert forall i :: 0 <= i < |os| - 1 ==> os[1..][i] == os[i + 1];
      }
      PlacedOfAnchored(w, os[1..]);
    }
  }

  // ----- Solve -----

  /** The trellis with every pending boundary weighed. */
  ghost function Weigh(w: World, store: Store, t: Trellis): (u: Trellis)
    requires |store| == |t.transitions| + 1
    ensures |u.transitions| == |t.transitions|
    ensures forall k :: 0 <= k < |t.transitions| ==> u.transitions[k] == Settled(w, store, t, k)
  {
    t.(transitions := seq(|t.transitions|, k requires 0 <= k < |t.transitions| => Settled(w, store, t, k)))
  }

  /** The boundaries left pending, in layer order. */
  ghost function Disconnections(ts: seq<Transition>): (gaps: seq<nat>)
    ensures forall i :: 0 <= i < |gaps| ==> gaps[i] < |ts|
    ensures gaps == [] <==> forall k :: 0 <= k < |ts| ==> ts[k].Resolved?
  {
    if ts == [] then [] else
    var n := |ts| - 1;
    var gaps := Disconnections(ts[..n]);
    assert forall k :: 0 <= k < n ==> ts[..n][k] == ts[k];
    if ts[n].Pending? then gaps + [n] else gaps
  }

  /** The break is at this boundary: its layer, the one after it, and the points observed there, in that order. */
  ghost predicate Names(os: seq<Origin>, b: Break, boundary: nat) {
    && b.fromLayer == boundary && b.toLayer == boundary + 1 < |os|
    && b.fromPoint == os[boundary].point && b.toPoint == os[boundary + 1].point
  }

  /** They are the pending boundaries, all of them, each once, in order. */
  lemma {:induction false} DisconnectionsAreThePending(ts: seq<Transition>)
    ensures forall k :: k in Disconnections(ts) <==> 0 <= k < |ts| && ts[k].Pending?
    ensures forall i, j {:trigger Disconnections(ts)[i], Disconnections(ts)[j]} ::
      0 <= i < j < |Disconnections(ts)| ==> Disconnections(ts)[i] < Disconnections(ts)[j]
  {
    if ts != [] {
      var n := |ts| - 1;
      DisconnectionsAreThePending(ts[..n]);
      assert forall k :: 0 <= k < n ==> ts[..n][k] == ts[k];
      assert forall i :: 0 <= i < |Disconnections(ts[..n])| ==> Disconnections(ts[..n])[i] in Disconnections(ts[..n]);
    }
  }

  ghost function BreaksAt(os: seq<Origin>, boundaries: seq<nat>): (breaks: seq<Break>)
    requires forall i :: 0 <= i < |boundaries| ==> boundaries[i] + 1 < |os|
    ensures |breaks| == |boundaries| && forall i {:trigger breaks[i]} :: 0 <= i < |breaks| ==> Names(os, breaks[i], boundaries[i])
  {
    seq(|boundaries|, i requires 0 <= i < |boundaries| =>
      Break(boundaries[i], boundaries[i] + 1, os[boundaries[i]].point, os[boundaries[i] + 1].point))
  }

  /** The state and result once a trellis is weighed. */
  ghost function Conclude(os: seq<Origin>, u: Trellis): (TripState, Result<Path, MatchError>)
    requires u.Valid() && u.Layers() == |os|
  {
    FrontierCollapse.BreaksAreFewest(u);
    var gaps := Disconnections(u.transitions);
    if gaps != [] then (Building(u), Err(Disconnected(BreaksAt(os, gaps))))
    else if Solvable(u) then (Solved(u, Answer(u)), Ok(Answer(u)))
    else (Building(u), Err(Disconnected(BreaksAt(os, FrontierCollapse.Breaks(u)))))
  }

  /**
   * A trellis that does not solve is reported broken. While a boundary is pending, the breaks are at the
   * pending boundaries, all of them and in order; otherwise at the fewest that split the layers into runs.
   */
  lemma BreaksAreTheGaps(os: seq<Origin>, u: Trellis)
    requires u.Valid() && u.Layers() == |os|
    ensures var r := Conclude(os, u).1;
      && (r.Ok? <==> Solvable(u)) && (r.Err? ==> r.error.Disconnected? && InOrder(os, r.error.breaks))
      && (!u.FullyResolved() ==> r.Err? && forall k: nat :: BreaksOff(r.error.breaks, k) <==> k < |u.transitions| && u.transitions[k].Pending?)
      && (u.FullyResolved() && r.Err? ==>
            |r.error.breaks| == |FrontierCollapse.Breaks(u)|
            && forall i :: 0 <= i < |r.error.breaks| ==> r.error.breaks[i].fromLayer == FrontierCollapse.Breaks(u)[i])
  {
    var gaps := Disconnections(u.transitions);
    DisconnectionsAreThePending(u.transitions);
    FrontierCollapse.BreaksAreFewest(u);
    if gaps != [] {
      BreaksKeepOrder(os, gaps);
    } else if !Solvable(u) {
      BreaksKeepOrder(os, FrontierCollapse.Breaks(u));
    }
  }

  /** The breaks ascend, each naming its boundary and the points on its two sides. */
  ghost predicate InOrder(os: seq<Origin>, breaks: seq<Break>) {
    && (forall i {:trigger breaks[i]} :: 0 <= i < |breaks| ==> Names(os, breaks[i], breaks[i].fromLayer))
    && (forall i, j {:trigger breaks[i], breaks[j]} :: 0 <= i < j < |breaks| ==> breaks[i].fromLayer < breaks[j].fromLayer)
  }

  /** Some break is at this boundary. */
  ghost predicate BreaksOff(breaks: seq<Break>, k: nat) { exists i :: 0 <= i < |breaks| && breaks[i].fromLayer == k }

  lemma BreaksKeepOrder(os: seq<Origin>, boundaries: seq<nat>)
    requires forall i :: 0 <= i < |boundaries| ==> boundaries[i] + 1 < |os|
    requires forall i, j :: 0 <= i < j < |boundaries| ==> boundaries[i] < boundaries[j]
    ensures InOrder(os, BreaksAt(os, boundaries))
    ensures forall k: nat :: BreaksOff(BreaksAt(os, boundaries), k) <==> k in boundaries
  {
    var breaks := BreaksAt(os, boundaries);
    forall k: nat | k in boundaries
      ensures BreaksOff(breaks, k)
    {
      var i :| 0 <= i < |boundaries| && boundaries[i] == k;
      assert Names(os, breaks[i], k);
    }
  }

  /** Solving: a certificate stands; otherwise weigh what is pending, then solve or report the breaks. */
  ghost function Solve(w: World, v: TripValue): (TripValue, Result<Path, MatchError>)
    requires v.Intact()
  {
    match v.state
    case Unstarted => (v, Err(TrellisFailure(Empty)))
    case Solved(_, path) => (v, Ok(path))
    case Building(t) =>
      var u := Weigh(w, v.candidates, t);
      WeighIsValid(w, v.candidates, t);
      var (state, r) := Conclude(v.origins, u);
      (v.(state := state), r)
  }

  /** Weighing an aligned trellis, whatever its boundaries hold so far, gives a trellis of the same layers. */
  lemma WeighIsValid(w: World, store: Store, t: Trellis)
    requires t.Valid() && Aligned(store, t)
    ensures Weigh(w, store, t).Valid() && Aligned(store, Weigh(w, store, t))
  {
    var u := Weigh(w, store, t);
    forall k | 0 <= k < |u.transitions|
      ensures u.TransitionFits(k)
    {
      assert t.TransitionFits(k);
      assert u.transitions[k] == Settled(w, store, t, k);
      BoundaryFits(w, Weighing.Anchors(store[k]), Weighing.Anchors(store[k + 1]));
    }
  }

  lemma SolveKeepsIntact(w: World, v: TripValue)
    requires v.Intact()
    ensures Solve(w, v).0.Intact() && Solve(w, v).0.origins == v.origins && Solve(w, v).0.candidates == v.candidates
    ensures Solve(w, v).1.Ok? ==> Solve(w, v).0.state.Solved? && Solve(w, v).0.state.path == Solve(w, v).1.value
  {
    if v.state.Building? {
      WeighIsValid(w, v.candidates, v.state.trellis);
    }
  }

  lemma WeighIsWeighed(w: World, os: seq<Origin>, t: Trellis)
    requires AllAnchored(w, os) && Grown(w, os, t)
    ensures Weighed(w, os, Weigh(w, StoreOf(w, os), t)) && Weigh(w, StoreOf(w, os), t).Valid()
  {
    StoreIsStamped(w, os);
    var u := Weigh(w, StoreOf(w, os), t);
    forall k | 0 <= k < |t.transitions|
      ensures u.transitions[k] == BoundaryOf(w, os, k)
    {
      assert u.transitions[k] == Settled(w, StoreOf(w, os), t, k);
    }
    GrownIsValid(w, os, u);
  }

  /** Only one trellis is fully weighed for given observations. */
  lemma WeighedIsUnique(w: World, os: seq<Origin>, t: Trellis, u: Trellis)
    requires Weighed(w, os, t) && Weighed(w, os, u)
    ensures t == u
  {
    assert t.transitions == u.transitions;
  }

  lemma SolveKeepsSound(w: World, v: TripValue)
    requires Sound(w, v)
    ensures Sound(w, Solve(w, v).0) && Solve(w, v).0.origins == v.origins
    ensures Solve(w, v).1.Ok? ==> Solve(w, v).0.state.Solved? && Solve(w, v).0.state.path == Solve(w, v).1.value
  {
    SolveKeepsIntact(w, v);
    if v.state.Building? {
      WeighIsWeighed(w, v.origins, v.state.trellis);
    }
  }

  /** A trip freshly built from these observations in one batch. */
  ghost function Batch(w: World, os: seq<Origin>): TripValue { PushAll(w, FRESH, os) }

  /**
   * A sound trip solves exactly as if its observations had arrived in one batch: same candidates,
   * same trellis, same path and cost, or the same breaks.
   */
  lemma SolveForgetsHistory(w: World, v: TripValue)
    requires Sound(w, v)
    ensures Sound(w, Batch(w, v.origins)) && Solve(w, v) == Solve(w, Batch(w, v.origins))
  {
    var b := Batch(w, v.origins);
    BatchIsSound(w, v.origins);
    if v.origins != [] {
      var u := WeighedTrellis(w, v);
      SolvesToWeighed(w, v, u);
      SolvesToWeighed(w, b, u);
      assert v.(state := Conclude(v.origins, u).0) == b.(state := Conclude(v.origins, u).0);
    }
  }

  lemma BatchIsSound(w: World, os: seq<Origin>)
    requires AllAnchored(w, os)
    ensures Sound(w, Batch(w, os)) && Batch(w, os).origins == os
  {
    PushAllKeepsSound(w, FRESH, os);
    PlacedOfAnchored(w, os);
  }

  lemma WeighedTrellis(w: World, v: TripValue) returns (u: Trellis)
    requires Sound(w, v) && v.origins != []
    ensures Weighed(w, v.origins, u) && u.Valid()
  {
    if v.state.Building? {
      u := Weigh(w, v.candidates, v.state.trellis);
      WeighIsWeighed(w, v.origins, v.state.trellis);
    } else {
      u := v.state.trellis;
    }
  }

  /** A started trip solves to the conclusion of its one weighed trellis. */
  lemma SolvesToWeighed(w: World, v: TripValue, u: Trellis)
    requires Sound(w, v) && Weighed(w, v.origins, u) && u.Valid()
    ensures Solve(w, v) == (v.(state := Conclude(v.origins, u).0), Conclude(v.origins, u).1)
  {
    if v.state.Building? {
      WeighIsWeighed(w, v.origins, v.state.trellis);
      WeighedIsUnique(w, v.origins, u, Weigh(w, v.candidates, v.state.trellis));
    } else {
      WeighedIsUnique(w, v.origins, u, v.state.trellis);
    }
  }
}
