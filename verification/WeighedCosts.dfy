/** What the weights of a weighed trip are, in terms of the network itself: emissions, routes and prices. */
module WeighedCosts {
  import opened Observations
  import opened Numbers
  import opened TrellisGraph
  import opened TrellisPaths
  import opened Viterbi
  import opened Weighing
  import opened Trips
  import opened Matching

  // ----- One node, one edge, one boundary -----

  /** A node weighs its candidate's emission, capped at the ceiling. */
  lemma NodeIsTheEmission(w: World, v: TripValue, l: nat, n: nat)
    requires Sound(w, v) && !v.state.Unstarted? && v.state.trellis.Has(l, n)
    ensures l < |v.candidates| && n < |v.candidates[l]|
    ensures v.state.trellis.NodeWeight(l, n) == Min(v.candidates[l][n].anchor.emission, MAX_WEIGHT)
  {
    GrownNodeIsTheEmission(w, v.origins, v.state.trellis, l, n);
    StoreIsStamped(w, v.origins);
    assert Weighing.Anchors(v.candidates[l])[n] == v.candidates[l][n].anchor;
  }

  lemma GrownNodeIsTheEmission(w: World, os: seq<Origin>, t: Trellis, l: nat, n: nat)
    requires Grown(w, os, t) && t.Valid() && t.Has(l, n)
    ensures n < |w.generate(os[l].point)| && t.NodeWeight(l, n) == Min(w.generate(os[l].point)[n].emission, MAX_WEIGHT)
  {
    NodeTableAt(w, os, l, n);
  }

  /**
   * An edge of a weighed trellis is the price of the road route between its two candidates, capped at the
   * ceiling, when the target is selected, routed and priced; it is absent otherwise.
   */
  lemma EdgeIsThePrice(w: World, os: seq<Origin>, t: Trellis, k: nat, i: nat, j: nat)
    requires Weighed(w, os, t) && t.Valid() && k + 1 < |os| && t.Has(k, i) && t.Has(k + 1, j)
    ensures i < |w.generate(os[k].point)| && j < |w.generate(os[k + 1].point)|
    ensures var from, to := w.generate(os[k].point), w.generate(os[k + 1].point);
      var path := w.route(from[i], to[j]);
      t.EdgeWeight(k, i, j) ==
        if j in w.select(from[i], to) && path.Some? && w.price(from[i], to[j], path.value).Some?
        then Min(w.price(from[i], to[j], path.value).value, MAX_WEIGHT) else INF_W
  {
    var from, to := w.generate(os[k].point), w.generate(os[k + 1].point);
    assert t.widths[k] == |from| && t.widths[k + 1] == |to|;
    MatrixAt(w, from, to, i, j);
    assert t.transitions[k] == w.Boundary(from, to);
  }

  /** Some candidate pair across the boundary is selected, routed and priced. */
  ghost predicate Bridged(w: World, from: seq<Anchor>, to: seq<Anchor>) {
    exists i, j :: 0 <= i < |from| && 0 <= j < |to| && Bridges(w, from, to, i, j)
  }

  ghost predicate Bridges(w: World, from: seq<Anchor>, to: seq<Anchor>, i: nat, j: nat)
    requires i < |from| && j < |to|
  {
    var path := w.route(from[i], to[j]);
    j in w.select(from[i], to) && path.Some? && w.price(from[i], to[j], path.value).Some?
  }

  /** A boundary stays pending exactly when nothing bridges it. */
  lemma PendingIffUnbridged(w: World, from: seq<Anchor>, to: seq<Anchor>)
    ensures w.Boundary(from, to).Pending? <==> !Bridged(w, from, to)
  {
    var m := w.Matrix(from, to);
    forall x | 0 <= x < |m| && m[x] != NO_EDGE
      ensures Bridged(w, from, to)
    {
      var i, j := Unflatten(x, |from|, |to|);
      MatrixAt(w, from, to, i, j);
      assert Bridges(w, from, to, i, j);
    }
    if Bridged(w, from, to) {
      var i, j :| 0 <= i < |from| && 0 <= j < |to| && Bridges(w, from, to, i, j);
      MatrixAt(w, from, to, i, j);
      assert m[i * |to| + j] != NO_EDGE;
    }
  }

  lemma Unflatten(x: nat, rows: nat, cols: nat) returns (i: nat, j: nat)
    requires x < rows * cols
    ensures i < rows && j < cols && x == i * cols + j
    decreases rows
  {
    if x < (rows - 1) * cols {
      i, j := Unflatten(x, rows - 1, cols);
    } else {
      i, j := rows - 1, x - (rows - 1) * cols;
      assert rows * cols == (rows - 1) * cols + cols;
    }
  }

  // ----- Whole trips -----

  /** A choice of a candidate for each of the first observations. */
  ghost predicate Chooses(w: World, os: seq<Origin>, p: seq<nat>) {
    0 < |p| <= |os| && forall l :: 0 <= l < |p| ==> p[l] < |w.generate(os[l].point)|
  }

  /**
   * What the choice pays, by the network alone: every candidate's emission and every hop's price, each
   * capped at the ceiling; nothing when a hop is not selected, not routed or not priced.
   */
  ghost function Outlay(w: World, os: seq<Origin>, p: seq<nat>): Option<nat>
    requires Chooses(w, os, p)
  {
    var l := |p| - 1;
    var to := w.generate(os[l].point);
    var emission := Min(to[p[l]].emission, MAX_WEIGHT);
    if l == 0 then Some(emission) else
    var a, b := w.generate(os[l - 1].point)[p[l - 1]], to[p[l]];
    var before, path := Outlay(w, os, p[..l]), w.route(a, b);
    if before.None? || p[l] !in w.select(a, to) || path.None? || w.price(a, b, path.value).None? then None
    else Some(before.value + Min(w.price(a, b, path.value).value, MAX_WEIGHT) + emission)
  }

  lemma ChoicesAreWalks(w: World, os: seq<Origin>, t: Trellis, p: seq<nat>)
    requires Grown(w, os, t) && t.Valid()
    ensures Chooses(w, os, p) <==> IsWalk(t, p)
  {
    if Chooses(w, os, p) {
      assert forall l :: 0 <= l < |p| ==> t.widths[l] == |w.generate(os[l].point)|;
    }
    if IsWalk(t, p) {
      forall l | 0 <= l < |p|
        ensures p[l] < |w.generate(os[l].point)|
      {
        assert t.Has(l, p[l]) && t.widths[l] == |w.generate(os[l].point)|;
      }
    }
  }

  /** The walk costs the outlay of the choice, and infinity at least when a hop of it is missing. */
  ghost predicate Agrees(t: Trellis, p: seq<nat>, outlay: Option<nat>)
    requires t.Valid() && IsWalk(t, p)
  {
    if outlay.Some? then Cost(t, p) == outlay.value else Cost(t, p) >= INF_W
  }

  lemma {:induction false} WalkCostsItsOutlay(w: World, os: seq<Origin>, t: Trellis, p: seq<nat>)
    requires Weighed(w, os, t) && t.Valid() && Chooses(w, os, p)
    ensures IsWalk(t, p) && Agrees(t, p, Outlay(w, os, p))
  {
    ChoicesAreWalks(w, os, t, p);
    var l := |p| - 1;
    if l == 0 {
      GrownNodeIsTheEmission(w, os, t, 0, p[0]);
    } else {
      WalkCostsItsOutlay(w, os, t, p[..l]);
      HopPays(w, os, t, p, p[..l], l);
    }
  }

  lemma HopPays(w: World, os: seq<Origin>, t: Trellis, p: seq<nat>, q: seq<nat>, l: nat)
    requires Weighed(w, os, t) && t.Valid() && Chooses(w, os, p) && IsWalk(t, p) && l == |p| - 1 > 0 && q == p[..l]
    requires IsWalk(t, q) && Chooses(w, os, q) && Agrees(t, q, Outlay(w, os, q))
    ensures Agrees(t, p, Outlay(w, os, p))
  {
    var hop, before, after := LastHop(w, os, t, p, l);
    StepsOn(t, p, q, l, before, hop, after);
  }

  /** The last hop's price, if it has one, is both what the outlay adds and what the edge weighs. */
  lemma LastHop(w: World, os: seq<Origin>, t: Trellis, p: seq<nat>, l: nat)
    returns (hop: Option<nat>, before: Option<nat>, after: Option<nat>)
    requires Weighed(w, os, t) && t.Valid() && Chooses(w, os, p) && IsWalk(t, p) && l == |p| - 1 > 0
    ensures t.Has(l - 1, p[l - 1]) && t.Has(l, p[l]) && Chooses(w, os, p[..l])
    ensures t.EdgeWeight(l - 1, p[l - 1], p[l]) == if hop.Some? then hop.value else INF_W
    ensures hop.Some? ==> hop.value < INF_W
    ensures before == Outlay(w, os, p[..l]) && after == Outlay(w, os, p)
    ensures after == if before.None? || hop.None? then None else Some(before.value + hop.value + t.NodeWeight(l, p[l]))
  {
    before, after := Outlay(w, os, p[..l]), Outlay(w, os, p);
    GrownNodeIsTheEmission(w, os, t, l, p[l]);
    var to := w.generate(os[l].point);
    var a, b := w.generate(os[l - 1].point)[p[l - 1]], to[p[l]];
    var path := w.route(a, b);
    hop := if p[l] in w.select(a, to) && path.Some? && w.price(a, b, path.value).Some?
           then Some(Min(w.price(a, b, path.value).value, MAX_WEIGHT)) else None;
    EdgeIsThePrice(w, os, t, l - 1, p[l - 1], p[l]);
  }

  lemma StepsOn(t: Trellis, p: seq<nat>, q: seq<nat>, l: nat, before: Option<nat>, hop: Option<nat>, after: Option<nat>)
    requires t.Valid() && IsWalk(t, p) && l == |p| - 1 > 0 && q == p[..l] && IsWalk(t, q) && Agrees(t, q, before)
    requires t.EdgeWeight(l - 1, p[l - 1], p[l]) == if hop.Some? then hop.value else INF_W
    requires after == if before.None? || hop.None? then None else Some(before.value + hop.value + t.NodeWeight(l, p[l]))
    ensures Agrees(t, p, after)
  {
    CostExtends(t, q, p[l]);
    assert p == q + [p[l]];
  }

  /**
   * What a solved trip holds, by the network alone: a candidate for every observation, at the outlay it
   * reports, which is below infinity and which no other choice of candidates undercuts.
   */
  lemma SolvedTripIsCheapest(w: World, v: TripValue)
    requires Sound(w, v) && v.state.Solved?
    ensures var p, cost := v.state.path.nodes, v.state.path.cost;
      && |p| == |v.origins| && Chooses(w, v.origins, p) && Outlay(w, v.origins, p) == Some(cost) && cost < INF_W
      && forall q :: Chooses(w, v.origins, q) && |q| == |v.origins| && Outlay(w, v.origins, q).Some? ==>
           cost <= Outlay(w, v.origins, q).value
  {
    var os, t, p := v.origins, v.state.trellis, v.state.path.nodes;
    AnswerIsOptimal(t);
    ChoicesAreWalks(w, os, t, p);
    WalkCostsItsOutlay(w, os, t, p);
    forall q | Chooses(w, os, q) && |q| == |os| && Outlay(w, os, q).Some?
      ensures v.state.path.cost <= Outlay(w, os, q).value
    {
      WalkCostsItsOutlay(w, os, t, q);
    }
  }

  /** And a solve succeeds exactly when some choice of candidates has an outlay below infinity. */
  lemma SolvesIffAffordable(w: World, v: TripValue)
    requires Sound(w, v) && v.origins != []
    ensures Solve(w, v).1.Ok? <==>
      exists q :: Chooses(w, v.origins, q) && |q| == |v.origins| && Affordable(w, v.origins, q)
  {
    var u := WeighedTrellis(w, v);
    SolvesToWeighed(w, v, u);
    if exists q :: Chooses(w, v.origins, q) && |q| == |v.origins| && Affordable(w, v.origins, q) {
      var q :| Chooses(w, v.origins, q) && |q| == |v.origins| && Affordable(w, v.origins, q);
      AffordableSolves(w, v.origins, u, q);
    }
    if Solvable(u) {
      AnswerIsOptimal(u);
      ChoicesAreWalks(w, v.origins, u, Answer(u).nodes);
      WalkCostsItsOutlay(w, v.origins, u, Answer(u).nodes);
      assert Affordable(w, v.origins, Answer(u).nodes);
    }
  }

  ghost predicate Affordable(w: World, os: seq<Origin>, q: seq<nat>)
    requires Chooses(w, os, q)
  {
    Outlay(w, os, q).Some? && Outlay(w, os, q).value < INF_W
  }

  lemma AffordableSolves(w: World, os: seq<Origin>, u: Trellis, q: seq<nat>)
    requires Weighed(w, os, u) && u.Valid() && Chooses(w, os, q) && |q| == |os| && Affordable(w, os, q)
    ensures Solvable(u)
  {
    WalkCostsItsOutlay(w, os, u, q);
    forall k | 0 <= k < |u.transitions|
      ensures u.transitions[k].Resolved?
    {
      AffordableBridges(w, os, u, q, k);
    }
    FinitePathSolves(u, q);
  }

  lemma FinitePathSolves(u: Trellis, q: seq<nat>)
    requires u.Valid() && u.FullyResolved() && IsPath(u, q) && Cost(u, q) < INF_W
    ensures Solvable(u)
  {
    SolvableIffFinitePath(u);
  }

  lemma AffordableBridges(w: World, os: seq<Origin>, u: Trellis, q: seq<nat>, k: nat)
    requires Weighed(w, os, u) && u.Valid() && Chooses(w, os, q) && Outlay(w, os, q).Some? && k + 1 < |q|
    ensures u.transitions[k].Resolved?
  {
    AffordablePrefix(w, os, q, k + 2);
    LastHopBridges(w, os, u, q[..k + 2], k);
  }

  lemma LastHopBridges(w: World, os: seq<Origin>, u: Trellis, p: seq<nat>, k: nat)
    requires Weighed(w, os, u) && u.Valid() && Chooses(w, os, p) && Outlay(w, os, p).Some? && |p| == k + 2
    ensures u.transitions[k].Resolved?
  {
    ChoicesAreWalks(w, os, u, p);
    var hop, before, after := LastHop(w, os, u, p, k + 1);
  }

  /** Every hop of a choice with an outlay is there. */
  lemma {:induction false} AffordablePrefix(w: World, os: seq<Origin>, q: seq<nat>, n: nat)
    requires Chooses(w, os, q) && Outlay(w, os, q).Some? && 0 < n <= |q|
    ensures Chooses(w, os, q[..n]) && Outlay(w, os, q[..n]).Some?
    decreases |q|
  {
    if n < |q| {
      AffordablePrefix(w, os, q[..|q| - 1], n);
      assert q[..|q| - 1][..n] == q[..n];
    } else {
      assert q[..n] == q;
    }
  }

  /**
   * When nothing bridges some boundary, solving a trip of this network fails, and the breaks it reports are at
   * the unbridged boundaries, all of them and in order, each with the points observed on its two sides.
   */
  lemma UnbridgedAreReported(w: World, v: TripValue)
    requires Sound(w, v) && v.origins != []
    ensures var r := Solve(w, v).1;
      r.Err? ==> r.error.Disconnected? && InOrder(v.origins, r.error.breaks)
    ensures (exists k: nat :: Unbridged(w, v.origins, k)) ==>
      && Solve(w, v).1.Err?
      && forall k: nat :: BreaksOff(Solve(w, v).1.error.breaks, k) <==> Unbridged(w, v.origins, k)
  {
    var u := WeighedTrellis(w, v);
    SolvesToWeighed(w, v, u);
    BreaksAreTheGaps(v.origins, u);
    forall k: nat
      ensures k < |u.transitions| && u.transitions[k].Pending? <==> Unbridged(w, v.origins, k)
    {
      if k + 1 < |v.origins| {
        PendingIffUnbridged(w, w.generate(v.origins[k].point), w.generate(v.origins[k + 1].point));
        assert u.transitions[k] == BoundaryOf(w, v.origins, k);
      }
    }
  }

  /** No candidate of observation `k` is priced to any of the next. */
  ghost predicate Unbridged(w: World, os: seq<Origin>, k: nat) {
    k + 1 < |os| && !Bridged(w, w.generate(os[k].point), w.generate(os[k + 1].point))
  }
}
