/** The matcher's operations on a caller's trip, in place, and the collapse of a solved one. */
module Matcher {
  import opened Observations
  import opened Numbers
  import opened TrellisGraph
  import opened TrellisCells
  import opened TrellisPaths
  import opened Viterbi
  import ViterbiSolver
  import FrontierCollapse
  import opened Weighing
  import opened Trips
  import opened Matching

  /** A collapsed path: its cost, the candidates chosen and the hops between them. */
  datatype Collapsed = Collapsed(cost: u32, route: seq<Ref>, interpolated: seq<Reachable>)

  /** The chosen candidate per layer. */
  function RouteOf(nodes: seq<nat>): (route: seq<Ref>)
    ensures |route| == |nodes| && forall i {:trigger route[i]} :: 0 <= i < |route| ==> route[i] == Ref(i, nodes[i])
  {
    seq(|nodes|, i requires 0 <= i < |nodes| => Ref(i, nodes[i]))
  }

  /** Re-derive each hop, silently leaving out any that is not reachable. */
  function Hops(w: World, store: Store, route: seq<Ref>): seq<Reachable> {
    if |route| < 2 then [] else
    var n := |route| - 1;
    Hops(w, store, route[..n]) +
      match Reach(w, store, route[n - 1], route[n])
      case Some(hop) => [hop]
      case None => []
  }

  // ----- A collapse reproduces what weighing priced -----

  /** An edge a weighed boundary holds below the ceiling joins two routable candidates. */
  lemma PresentEdgeIsRoutable(w: World, from: seq<Anchor>, to: seq<Anchor>, i: nat, j: nat)
    requires i < |from| && j < |to| && w.Boundary(from, to).Resolved?
    requires 0 <= i * |to| + j < |w.Boundary(from, to).weights|
    requires w.Boundary(from, to).weights[i * |to| + j] <= MAX_WEIGHT
    ensures w.route(from[i], to[j]).Some?
  {
    MatrixAt(w, from, to, i, j);
  }

  /** A present edge of a weighed trellis joins two routable candidates. */
  lemma WeighedEdgeIsRoutable(w: World, os: seq<Origin>, t: Trellis, k: nat, i: nat, j: nat)
    requires Weighed(w, os, t) && t.Valid() && k + 1 < |os| && t.Has(k, i) && t.Has(k + 1, j)
    requires t.EdgeWeight(k, i, j) <= MAX_WEIGHT
    ensures i < |w.generate(os[k].point)| && j < |w.generate(os[k + 1].point)|
    ensures w.route(w.generate(os[k].point)[i], w.generate(os[k + 1].point)[j]).Some?
  {
    var from, to := w.generate(os[k].point), w.generate(os[k + 1].point);
    assert t.widths[k] == |from| && t.widths[k + 1] == |to|;
    assert t.transitions[k].Resolved? && t.transitions[k] == w.Boundary(from, to);
    RowMajorBound(i, j, |from|, |to|);
    assert t.TransitionFits(k);
    PresentEdgeIsRoutable(w, from, to, i, j);
  }

  /** Looking a placed candidate up gives what was generated there. */
  lemma StoreHolds(w: World, os: seq<Origin>, l: nat, n: nat)
    requires l < |os| && n < |w.generate(os[l].point)|
    ensures Lookup(StoreOf(w, os), Ref(l, n)) == Some(Candidate(w.generate(os[l].point)[n], Ref(l, n)))
  {
  }

  /** Every hop of a solved trip's path is reachable again at collapse time. */
  lemma ChosenHopIsReachable(w: World, v: TripValue, k: nat)
    requires Sound(w, v) && v.state.Solved? && k + 1 < |v.origins|
    ensures |v.state.path.nodes| == |v.origins|
    ensures Reach(w, v.candidates, Ref(k, v.state.path.nodes[k]), Ref(k + 1, v.state.path.nodes[k + 1])).Some?
  {
    ChosenEdgeIsPresent(v.state.trellis, k);
    EdgeIsReachable(w, v.origins, v.state.trellis, k, v.state.path.nodes[k], v.state.path.nodes[k + 1]);
  }

  lemma EdgeIsReachable(w: World, os: seq<Origin>, t: Trellis, k: nat, i: nat, j: nat)
    requires Weighed(w, os, t) && t.Valid() && k + 1 < |os| && t.Has(k, i) && t.Has(k + 1, j)
    requires t.EdgeWeight(k, i, j) <= MAX_WEIGHT
    ensures Reach(w, StoreOf(w, os), Ref(k, i), Ref(k + 1, j)).Some?
  {
    WeighedEdgeIsRoutable(w, os, t, k, i, j);
    StoreHolds(w, os, k, i);
    StoreHolds(w, os, k + 1, j);
  }

  lemma ChosenEdgeIsPresent(t: Trellis, k: nat)
    requires t.Valid() && Solvable(t) && k + 1 < t.Layers()
    ensures IsPath(t, Answer(t).nodes)
    ensures t.Has(k, Answer(t).nodes[k]) && t.Has(k + 1, Answer(t).nodes[k + 1])
    ensures t.EdgeWeight(k, Answer(t).nodes[k], Answer(t).nodes[k + 1]) <= MAX_WEIGHT
  {
    AnswerIsOptimal(t);
    var p := Answer(t).nodes;
    FrontierCollapse.GapIsInfinite(t, p);
    assert k !in FrontierCollapse.Gaps(t, p);
  }

  ghost predicate HopExists(w: World, store: Store, route: seq<Ref>, k: nat)
    requires k + 1 < |route|
  {
    Reach(w, store, route[k], route[k + 1]).Some?
  }

  /** Hop `i` joins the chosen candidates `i` and `i + 1`, by the road route between them. */
  ghost predicate Follows(w: World, store: Store, route: seq<Ref>, hop: Reachable, i: nat)
    requires i + 1 < |route|
  {
    && hop.from == route[i] && hop.to == route[i + 1]
    && InStore(store, route[i]) && InStore(store, route[i + 1])
    && w.route(store[route[i].layer][route[i].node].anchor, store[route[i + 1].layer][route[i + 1].node].anchor) == Some(hop.path)
  }

  predicate InStore(store: Store, r: Ref) { r.layer < |store| && r.node < |store[r.layer]| }

  /** Every hop found again is of the road route between two neighbours, and none that has a route is left out. */
  lemma {:induction false} HopsAreTheRoutes(w: World, store: Store, route: seq<Ref>)
    ensures forall h :: h in Hops(w, store, route) ==> exists k :: 0 <= k < |route| - 1 && Follows(w, store, route, h, k)
    ensures forall k :: 0 <= k < |route| - 1 && HopExists(w, store, route, k) ==>
      exists h :: h in Hops(w, store, route) && Follows(w, store, route, h, k)
    decreases |route|
  {
    if |route| > 1 {
      var n := |route| - 1;
      HopsAreTheRoutes(w, store, route[..n]);
      var hops, before := Hops(w, store, route), Hops(w, store, route[..n]);
      forall h | h in hops
        ensures exists k :: 0 <= k < |route| - 1 && Follows(w, store, route, h, k)
      {
        if h in before {
          var k :| 0 <= k < n - 1 && Follows(w, store, route[..n], h, k);
          assert Follows(w, store, route, h, k);
        } else {
          assert Follows(w, store, route, h, n - 1);
        }
      }
      forall k | 0 <= k < n && HopExists(w, store, route, k)
        ensures exists h :: h in hops && Follows(w, store, route, h, k)
      {
        if k < n - 1 {
          assert HopExists(w, store, route[..n], k);
          var h :| h in before && Follows(w, store, route[..n], h, k);
          assert Follows(w, store, route, h, k);
        } else {
          var h := Reach(w, store, route[n - 1], route[n]).value;
          assert Follows(w, store, route, h, k);
        }
      }
    }
  }

  /** When every hop is reachable none is left out: hop `i` follows the route from candidate `i` to `i + 1`. */
  lemma {:induction false} NoHopIsDropped(w: World, store: Store, route: seq<Ref>)
    requires route != [] && forall k :: 0 <= k < |route| - 1 ==> HopExists(w, store, route, k)
    ensures var hops := Hops(w, store, route);
      |hops| == |route| - 1 && forall i {:trigger hops[i]} :: 0 <= i < |hops| ==> Follows(w, store, route, hops[i], i)
    decreases |route|
  {
    if |route| > 1 {
      var n := |route| - 1;
      forall k | 0 <= k < n - 1
        ensures HopExists(w, store, route[..n], k)
      {
        assert HopExists(w, store, route, k);
      }
      NoHopIsDropped(w, store, route[..n]);
      assert HopExists(w, store, route, n - 1);
      var hops, before := Hops(w, store, route), Hops(w, store, route[..n]);
      forall i {:trigger hops[i]} | 0 <= i < |hops|
        ensures Follows(w, store, route, hops[i], i)
      {
        if i < n - 1 { assert hops[i] == before[i] && Follows(w, store, route[..n], before[i], i); }
      }
    }
  }

  /** A collapse has one hop per adjacent pair of layers, each by the very route that weighing priced. */
  lemma HopsAreComplete(w: World, v: TripValue)
    requires Sound(w, v) && v.state.Solved? && |v.origins| == |v.state.path.nodes| > 0
    ensures var route := RouteOf(v.state.path.nodes);
      var hops := Hops(w, v.candidates, route);
      |hops| == |route| - 1 && forall i {:trigger hops[i]} :: 0 <= i < |hops| ==> Follows(w, v.candidates, route, hops[i], i)
  {
    var route := RouteOf(v.state.path.nodes);
    forall k | 0 <= k < |route| - 1
      ensures HopExists(w, v.candidates, route, k)
    {
      ChosenHopIsReachable(w, v, k);
    }
    NoHopIsDropped(w, v.candidates, route);
  }

  // ----- The operations -----

  method PushOrigin(w: World, trip: Trip, o: Origin) returns (r: Result<nat, MatchError>)
    requires trip.View().Intact()
    modifies trip
    ensures (trip.View(), r) == Push(w, old(trip.View()), o) && trip.View().Intact()
    ensures w.generate(o.point) == [] ==> trip.View() == old(trip.View()) && r == Err(Unanchored([(|old(trip.origins)|, o.point)]))
    ensures w.generate(o.point) != [] ==> r == Ok(|old(trip.origins)|) && trip.origins == old(trip.origins) + [o]
    ensures Sound(w, old(trip.View())) ==> Sound(w, trip.View())
  {
    PushKeepsIntact(w, trip.View(), o);
    PushAppends(w, trip.View(), o);
    if Sound(w, trip.View()) {
      PushPlaces(w, trip.View(), o);
    }
    var anchors := w.generate(o.point);
    if anchors == [] {
      return Err(Unanchored([(|trip.origins|, o.point)]));
    }
    var pushed := trip.Push(o, anchors);
    r := match pushed case Ok(id) => Ok(id) case Err(e) => Err(TrellisFailure(e));
  }

  /** Every observation of the batch that does not anchor. */
  method ReadUnplaced(w: World, os: seq<Origin>, first: nat) returns (missing: seq<(nat, Point)>)
    ensures missing == Unplaced(w, os, first)
  {
    missing := [];
    assert os[0..] == os;
    for i := 0 to |os|
      invariant missing + Unplaced(w, os[i..], first + i) == Unplaced(w, os, first)
    {
      UnplacedStep(w, os, first, i, missing);
      if w.generate(os[i].point) == [] {
        missing := missing + [(first + i, os[i].point)];
      }
    }
  }

  lemma UnplacedStep(w: World, os: seq<Origin>, first: nat, i: nat, missing: seq<(nat, Point)>)
    requires i < |os|
    ensures missing + Unplaced(w, os[i..], first + i)
         == (if w.generate(os[i].point) == [] then missing + [(first + i, os[i].point)] else missing)
            + Unplaced(w, os[i + 1..], first + (i + 1))
  {
    assert os[i..][1..] == os[i + 1..];
  }

  /** The push loop of a batch. */
  method PushEach(w: World, trip: Trip, os: seq<Origin>)
    requires trip.View().Intact()
    modifies trip
    ensures trip.View() == PushAll(w, old(trip.View()), os) && trip.View().Intact()
    ensures Sound(w, old(trip.View())) ==> Sound(w, trip.View())
  {
    ghost var start := trip.View();
    assert os[0..] == os;
    for i := 0 to |os|
      invariant trip.View().Intact() && (Sound(w, start) ==> Sound(w, trip.View()))
      invariant PushAll(w, trip.View(), os[i..]) == PushAll(w, start, os)
    {
      assert os[i..][0] == os[i] && os[i..][1..] == os[i + 1..];
      var pushed := PushOrigin(w, trip, os[i]);
    }
  }

  method ExtendTrip(w: World, trip: Trip, os: seq<Origin>) returns (r: Result<(), MatchError>)
    requires trip.View().Intact()
    modifies trip
    ensures (trip.View(), r) == Extend(w, old(trip.View()), os) && trip.View().Intact()
    ensures r.Ok? <==> AllAnchored(w, os)
    ensures r.Ok? ==> trip.origins == old(trip.origins) + os
    ensures r.Err? ==> trip.View() == old(trip.View()) && r.error.Unanchored? && forall layer: nat, p: Point ::
      (layer, p) in r.error.points <==>
        |old(trip.origins)| <= layer < |old(trip.origins)| + |os| && os[layer - |old(trip.origins)|].point == p && w.generate(p) == []
    ensures Sound(w, old(trip.View())) ==> Sound(w, trip.View())
  {
    var missing := ReadUnplaced(w, os, |trip.origins|);
    UnplacedAreTheUnanchored(w, os, |trip.origins|);
    UnplacedIffUnanchored(w, os, |trip.origins|);
    PushAllAppends(w, trip.View(), os);
    if missing != [] {
      return Err(Unanchored(missing));
    }
    PushEach(w, trip, os);
    r := Ok(());
  }

  /** The boundaries left pending, read in layer order. */
  method ReadDisconnections(ts: seq<Transition>) returns (gaps: seq<nat>)
    ensures gaps == Disconnections(ts)
    ensures forall k :: k in gaps <==> 0 <= k < |ts| && ts[k].Pending?
    ensures forall i, j :: 0 <= i < j < |gaps| ==> gaps[i] < gaps[j]
  {
    DisconnectionsAreThePending(ts);
    gaps := [];
    for k := 0 to |ts|
      invariant gaps == Disconnections(ts[..k])
    {
      assert ts[..k + 1][..k] == ts[..k];
      if ts[k].Pending? {
        gaps := gaps + [k];
      }
    }
    assert ts[..|ts|] == ts;
  }

  /** The break list with the observations on each side. */
  function DisconnectedAt(os: seq<Origin>, boundaries: seq<nat>): (e: MatchError)
    requires forall i :: 0 <= i < |boundaries| ==> boundaries[i] + 1 < |os|
    ensures e == Disconnected(BreaksAt(os, boundaries)) && |e.breaks| == |boundaries|
    ensures forall i :: 0 <= i < |boundaries| ==> Names(os, e.breaks[i], boundaries[i])
  {
    Disconnected(seq(|boundaries|, i requires 0 <= i < |boundaries| =>
      Break(boundaries[i], boundaries[i] + 1, os[boundaries[i]].point, os[boundaries[i] + 1].point)))
  }

  /** Solve a weighed trellis, or say where it breaks. */
  method ConcludeTrip(os: seq<Origin>, u: Trellis) returns (state: TripState, r: Result<Path, MatchError>)
    requires u.Valid() && u.Layers() == |os|
    ensures (state, r) == Conclude(os, u)
    ensures (r.Ok? <==> Solvable(u)) && (r.Err? ==> r.error.Disconnected? && InOrder(os, r.error.breaks))
    ensures !u.FullyResolved() ==>
      r.Err? && forall k: nat :: BreaksOff(r.error.breaks, k) <==> k < |u.transitions| && u.transitions[k].Pending?
  {
    BreaksAreTheGaps(os, u);
    var gaps := ReadDisconnections(u.transitions);
    if gaps != [] {
      return Building(u), Err(DisconnectedAt(os, gaps));
    }
    var solved := ViterbiSolver.Solve(u);
    match solved {
      case Ok(path) =>
        return Solved(u, path), Ok(path);
      case Err(_) =>
        var breaks := FrontierCollapse.Collapse(u);
        FrontierCollapse.BreaksAreFewest(u);
        return Building(u), Err(DisconnectedAt(os, breaks));
    }
  }

  /** Weigh, then solve; whichever way it ends, the trip has its state back. */
  method SolveTrip(w: World, trip: Trip) returns (r: Result<Path, MatchError>)
    requires w.Valid() && trip.View().Intact()
    modifies trip
    ensures (trip.View(), r) == Matching.Solve(w, old(trip.View())) && trip.View().Intact()
    ensures old(trip.state).Unstarted? ==> r == Err(TrellisFailure(Empty))
    ensures Sound(w, old(trip.View())) ==> Sound(w, trip.View())
  {
    ghost var v := trip.View();
    SolveKeepsIntact(w, v);
    if Sound(w, v) {
      SolveKeepsSound(w, v);
    }
    var taken := trip.TakeState();
    match taken {
      case Unstarted =>
        return Err(TrellisFailure(Empty));
      case Solved(_, path) =>
        trip.Restore(taken);
        return Ok(path);
      case Building(t) =>
        var state;
        state, r := SolveBuilding(w, v, trip.origins, trip.candidates, t);
        trip.Restore(state);
    }
  }

  /** Weigh a building trip's pending boundaries, then solve it or say where it breaks. */
  method SolveBuilding(w: World, ghost v: TripValue, os: seq<Origin>, store: Store, t: Trellis)
    returns (state: TripState, r: Result<Path, MatchError>)
    requires w.Valid() && v == TripValue(os, store, Building(t)) && v.Intact()
    ensures (TripValue(os, store, state), r) == Matching.Solve(w, v)
  {
    var cell := new TrellisCell(t);
    var weighed := Weighing.Weigh(w, store, cell);
    ghost var u := Matching.Weigh(w, store, t);
    assert cell.Value() == u by {
      assert cell.transitions == u.transitions;
    }
    WeighIsValid(w, store, t);
    state, r := ConcludeTrip(os, cell.Value());
  }

  /** The collapse of a solved trip. */
  function CollapseOf(w: World, store: Store, path: Path): Collapsed {
    Collapsed(path.cost, RouteOf(path.nodes), Hops(w, store, RouteOf(path.nodes)))
  }

  /**
   * Solve if pending, then collapse the chosen path. A trip of this network loses none of its hops; one of
   * another may, because a hop is looked up again here.
   */
  method Snapshot(w: World, trip: Trip) returns (r: Result<Collapsed, MatchError>)
    requires w.Valid() && trip.View().Intact()
    modifies trip
    ensures trip.View() == Matching.Solve(w, old(trip.View())).0 && trip.View().Intact()
    ensures Sound(w, old(trip.View())) ==> Sound(w, trip.View())
    ensures r.Ok? <==> Matching.Solve(w, old(trip.View())).1.Ok?
    ensures r.Ok? ==> trip.state.Solved? && r.value == CollapseOf(w, trip.candidates, trip.state.path)
    ensures r.Ok? ==> |r.value.route| == |trip.origins|
    ensures r.Ok? ==>
      && IsPath(trip.state.trellis, trip.state.path.nodes) && r.value.cost == Cost(trip.state.trellis, trip.state.path.nodes)
      && forall l :: 0 <= l < |r.value.route| ==> r.value.route[l] == Ref(l, trip.state.path.nodes[l])
    ensures r.Ok? && Sound(w, old(trip.View())) ==>
      && |r.value.interpolated| == |trip.origins| - 1
      && forall i {:trigger r.value.interpolated[i]} :: 0 <= i < |r.value.interpolated| ==>
           Follows(w, trip.candidates, r.value.route, r.value.interpolated[i], i)
  {
    SolveKeepsIntact(w, trip.View());
    var solved := SolveTrip(w, trip);
    match solved {
      case Err(e) =>
        return Err(e);
      case Ok(path) =>
        var route := RouteOf(path.nodes);
        SolvedPathLength(trip.View());
        if Sound(w, trip.View()) {
          HopsAreComplete(w, trip.View());
        }
        return Ok(CollapseOf(w, trip.candidates, path));
    }
  }

  lemma SolvedPathLength(v: TripValue)
    requires v.Intact() && v.state.Solved?
    ensures |v.state.path.nodes| == |v.origins| > 0
    ensures IsPath(v.state.trellis, v.state.path.nodes) && Cost(v.state.trellis, v.state.path.nodes) == v.state.path.cost
  {
    AnswerIsOptimal(v.state.trellis);
  }
}
