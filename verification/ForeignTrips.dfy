/** A trip of another network, adopted with the costs it was built at: when its replies are a restart's. */
module ForeignTrips {
  import opened Observations
  import opened Numbers
  import opened TrellisGraph
  import opened Viterbi
  import opened Weighing
  import opened Trips
  import opened Matching
  import opened Matcher
  import opened Continuation
  import opened GrowingAlike

  /** The trip's trellis once this network has weighed what is pending; what was resolved elsewhere stands. */
  ghost function WeighedHere(w: World, v: TripValue): (t: Trellis)
    requires v.Intact() && !v.state.Unstarted?
    ensures t.Valid() && t.Layers() == |v.origins|
  {
    WeighIsValid(w, v.candidates, v.state.trellis);
    Matching.Weigh(w, v.candidates, v.state.trellis)
  }

  /** A solve concludes from it, certified or not. */
  lemma SolveConcludes(w: World, v: TripValue)
    requires v.Intact() && !v.state.Unstarted?
    ensures Solve(w, v) == (v.(state := Conclude(v.origins, WeighedHere(w, v)).0), Conclude(v.origins, WeighedHere(w, v)).1)
  {
    if v.state.Solved? {
      var t := v.state.trellis;
      assert Matching.Weigh(w, v.candidates, t).transitions == t.transitions;
    }
  }

  /** So it answers exactly when that trellis solves, with its answer. */
  lemma SolveAnswers(w: World, v: TripValue)
    requires v.Intact() && !v.state.Unstarted?
    ensures Solve(w, v).1.Ok? <==> Solvable(WeighedHere(w, v))
    ensures Solve(w, v).1.Ok? ==> Solve(w, v).1.value == Answer(WeighedHere(w, v))
    ensures Solve(w, v).0.origins == v.origins && Solve(w, v).0.candidates == v.candidates
  {
    SolveConcludes(w, v);
  }

  // ----- One layer more -----

  /** The trellis with one more layer, the boundary into it already weighed. */
  ghost function GrownBy(t: Trellis, weights: seq<u32>, tr: Transition): Trellis {
    Trellis(t.widths + [|weights|], t.nodes + weights, t.transitions + [tr])
  }

  lemma WeighOfAppend(w: World, store: Store, t: Trellis, layer: seq<Candidate>, weights: seq<u32>)
    requires |store| == |t.transitions| + 1
    ensures Matching.Weigh(w, store + [layer], t.Append(weights))
         == GrownBy(Matching.Weigh(w, store, t), weights, w.Boundary(Weighing.Anchors(store[|store| - 1]), Weighing.Anchors(layer)))
  {
    var more, u := store + [layer], t.Append(weights);
    var a, b := Matching.Weigh(w, more, u), Matching.Weigh(w, store, t);
    forall k | 0 <= k < |t.transitions|
      ensures a.transitions[k] == b.transitions[k]
    {
      assert a.transitions[k] == Settled(w, more, u, k) && b.transitions[k] == Settled(w, store, t, k);
      assert more[k] == store[k] && more[k + 1] == store[k + 1] && u.transitions[k] == t.transitions[k];
    }
    assert a.transitions[|t.transitions|] == Settled(w, more, u, |t.transitions|);
    assert a.transitions == b.transitions + [a.transitions[|t.transitions|]];
  }

  lemma GrowthGoesOn(u: Trellis, t: Trellis, v: Trellis, r: Trellis, weights: seq<u32>, tr: Transition)
    requires SameGrowth(u, t, v, r)
    ensures SameGrowth(GrownBy(u, weights, tr), t, GrownBy(v, weights, tr), r)
  {
    assert (u.nodes + weights)[|t.nodes|..] == u.nodes[|t.nodes|..] + weights;
    assert (v.nodes + weights)[|r.nodes|..] == v.nodes[|r.nodes|..] + weights;
    assert (u.transitions + [tr])[|t.transitions|..] == u.transitions[|t.transitions|..] + [tr];
    assert (v.transitions + [tr])[|r.transitions|..] == v.transitions[|r.transitions|..] + [tr];
  }

  /** Two trips of the same observations and candidates, weighed here, are the same growth of `t` and of `r`. */
  ghost predicate Paired(w: World, a: TripValue, b: TripValue, t: Trellis, r: Trellis) {
    && a.Intact() && b.Intact() && !a.state.Unstarted? && !b.state.Unstarted?
    && a.origins == b.origins && a.candidates == b.candidates
    && SameGrowth(WeighedHere(w, a), t, WeighedHere(w, b), r)
  }

  /** A push on one of them. */
  lemma PushWeighs(w: World, a: TripValue, o: Origin, anchors: seq<Anchor>)
    requires a.Intact() && !a.state.Unstarted? && anchors == w.generate(o.point) != []
    ensures var u := Push(w, a, o).0;
      && u.Intact() && !u.state.Unstarted? && u.origins == a.origins + [o]
      && u.candidates == a.candidates + [Stamp(|a.origins|, anchors)]
      && WeighedHere(w, u) == GrownBy(WeighedHere(w, a), Emissions(anchors),
           w.Boundary(Weighing.Anchors(a.candidates[|a.candidates| - 1]), Weighing.Anchors(Stamp(|a.origins|, anchors))))
  {
    PushKeepsIntact(w, a, o);
    WeighOfAppend(w, a.candidates, a.state.trellis, Stamp(|a.origins|, anchors), Emissions(anchors));
  }

  lemma PushKeepsPaired(w: World, a: TripValue, b: TripValue, t: Trellis, r: Trellis, o: Origin)
    requires Paired(w, a, b, t, r)
    ensures Paired(w, Push(w, a, o).0, Push(w, b, o).0, t, r)
  {
    var anchors := w.generate(o.point);
    if anchors != [] {
      PushWeighs(w, a, o, anchors);
      PushWeighs(w, b, o, anchors);
      GrowthGoesOn(WeighedHere(w, a), t, WeighedHere(w, b), r, Emissions(anchors),
                   w.Boundary(Weighing.Anchors(a.candidates[|a.candidates| - 1]), Weighing.Anchors(Stamp(|a.origins|, anchors))));
    }
  }

  lemma {:induction false} PushAllKeepsPaired(w: World, a: TripValue, b: TripValue, t: Trellis, r: Trellis, os: seq<Origin>)
    requires Paired(w, a, b, t, r)
    ensures Paired(w, PushAll(w, a, os), PushAll(w, b, os), t, r)
    decreases |os|
  {
    if os != [] {
      PushKeepsPaired(w, a, b, t, r, os[0]);
      PushAllKeepsPaired(w, Push(w, a, os[0]).0, Push(w, b, os[0]).0, t, r, os[1..]);
    }
  }

  lemma {:induction false} PushAllSplits(w: World, v: TripValue, a: seq<Origin>, b: seq<Origin>)
    ensures PushAll(w, v, a + b) == PushAll(w, PushAll(w, v, a), b)
    decreases |a|
  {
    if a == [] {
      assert a + b == b;
    } else {
      assert (a + b)[0] == a[0] && (a + b)[1..] == a[1..] + b;
      PushAllSplits(w, Push(w, v, a[0]).0, a[1..], b);
    }
  }

  // ----- The adopted trip and the restart -----

  /** This network places the trip's candidates exactly where the trip has them. */
  ghost predicate PlacedAlike(w: World, v: TripValue) { v.candidates == StoreOf(w, v.origins) }

  lemma PlacedAlikeIsAnchored(w: World, v: TripValue)
    requires v.Intact() && PlacedAlike(w, v)
    ensures AllAnchored(w, v.origins)
  {
    forall i | 0 <= i < |v.origins|
      ensures w.generate(v.origins[i].point) != []
    {
      assert |v.candidates[i]| == v.state.trellis.widths[i] > 0;
    }
  }

  /** The restart over the trip's own observations. */
  ghost function Again(w: World, v: TripValue): (b: TripValue)
    requires v.Intact() && PlacedAlike(w, v)
    ensures Sound(w, b) && b.origins == v.origins && b.candidates == v.candidates
  {
    PlacedAlikeIsAnchored(w, v);
    BatchIsSound(w, v.origins);
    Batch(w, v.origins)
  }

  lemma AdoptedIsPaired(w: World, v: TripValue)
    requires v.Intact() && PlacedAlike(w, v) && !v.state.Unstarted?
    ensures !Again(w, v).state.Unstarted?
    ensures Paired(w, v, Again(w, v), WeighedHere(w, v), WeighedHere(w, Again(w, v)))
  {
    var b := Again(w, v);
    WeighedWidths(w, v, b);
    var t, r := WeighedHere(w, v), WeighedHere(w, b);
    assert t.nodes[|t.nodes|..] == [] == r.nodes[|r.nodes|..];
    assert t.transitions[|t.transitions|..] == [] == r.transitions[|r.transitions|..];
  }

  lemma WeighedWidths(w: World, a: TripValue, b: TripValue)
    requires a.Intact() && b.Intact() && !a.state.Unstarted? && !b.state.Unstarted? && a.candidates == b.candidates
    ensures WeighedHere(w, a).widths == WeighedHere(w, b).widths
  {
    assert a.state.trellis.widths == b.state.trellis.widths;
  }

  /** No match for either, or the same emission at the same times for both. */
  ghost predicate RepliesAlike(x: Reply, y: Reply) {
    (x.Matched? <==> y.Matched?) && (x.Matched? ==> x.emission == y.emission && x.timestamps == y.timestamps)
  }

  /** Two such trips are answered alike exactly when their weighed trellises answer alike. */
  lemma AnsweredAlikeIff(w: World, a: TripValue, b: TripValue, t: Trellis, r: Trellis)
    requires Paired(w, a, b, t, r)
    ensures RepliesAlike(Answered(w, a), Answered(w, b)) <==> AnswerAlike(WeighedHere(w, a), WeighedHere(w, b))
  {
    SolveKeepsIntact(w, a);
    SolveKeepsIntact(w, b);
    SolveAnswers(w, a);
    SolveAnswers(w, b);
    if Solvable(WeighedHere(w, a)) && Solvable(WeighedHere(w, b)) {
      CollapseTells(w, a.candidates, Answer(WeighedHere(w, a)), Answer(WeighedHere(w, b)));
    }
  }

  lemma CollapseTells(w: World, store: Store, p: Path, q: Path)
    ensures CollapseOf(w, store, p) == CollapseOf(w, store, q) <==> p == q
  {
    if RouteOf(p.nodes) == RouteOf(q.nodes) {
      assert forall i {:trigger p.nodes[i]} :: 0 <= i < |p.nodes| ==>
        RouteOf(p.nodes)[i] == Ref(i, p.nodes[i]) && RouteOf(q.nodes)[i] == Ref(i, q.nodes[i]);
      assert p.nodes == q.nodes;
    }
  }

  /** What the adopting network replies, and what it would have replied to a restart. */
  ghost predicate ServedAlike(w: World, v: TripValue, newer: seq<Origin>)
    requires v.Intact()
  {
    RepliesAlike(Serve(w, v, newer), Serve(w, FRESH, v.origins + newer))
  }

  /** The two trellises behind those replies. */
  lemma BothServed(w: World, v: TripValue, newer: seq<Origin>) returns (a: TripValue, b: TripValue)
    requires v.Intact() && Supports(w, v.candidates) && PlacedAlike(w, v) && !v.state.Unstarted?
    ensures !Again(w, v).state.Unstarted?
    ensures a == PushAll(w, v, newer) && b == PushAll(w, Again(w, v), newer)
    ensures Paired(w, a, b, WeighedHere(w, v), WeighedHere(w, Again(w, v)))
    ensures Serve(w, v, newer) == Flagged(Answered(w, a), false)
    ensures Serve(w, FRESH, v.origins + newer) == Flagged(Answered(w, b), false)
  {
    AdoptedIsPaired(w, v);
    PushAllKeepsPaired(w, v, Again(w, v), WeighedHere(w, v), WeighedHere(w, Again(w, v)), newer);
    a, b := PushAll(w, v, newer), PushAll(w, Again(w, v), newer);
    PushAllSplits(w, FRESH, v.origins, newer);
    FreshIsServed(w, v.origins + newer);
  }

  /**
   * A supported trip whose candidates this network places alike, whatever it was weighed at elsewhere. Its
   * final nodes weighed here compare with the restart's; if each is open in neither, or in both at one
   * distance by one route, then whatever is observed next the reply is the restart's. Otherwise some growth
   * of the two trellises by the same layers is answered differently.
   */
  lemma AdoptedAlikeForever(w: World, v: TripValue)
    requires v.Intact() && Supports(w, v.candidates) && PlacedAlike(w, v) && !v.state.Unstarted?
    ensures !Again(w, v).state.Unstarted?
    ensures FinalsAlike(WeighedHere(w, v), WeighedHere(w, Again(w, v))) ==> forall newer :: ServedAlike(w, v, newer)
    ensures FinalsAlike(WeighedHere(w, v), WeighedHere(w, Again(w, v)))
       <==> AlwaysAlike(WeighedHere(w, v), WeighedHere(w, Again(w, v)))
  {
    AdoptedIsPaired(w, v);
    var t, r := WeighedHere(w, v), WeighedHere(w, Again(w, v));
    AlwaysAlikeIffFinalsAlike(t, r);
    if FinalsAlike(t, r) {
      forall newer
        ensures ServedAlike(w, v, newer)
      {
        var a, b := BothServed(w, v, newer);
        AlikeFinalsAnswerAlike(WeighedHere(w, a), t, WeighedHere(w, b), r);
        AnsweredAlikeIff(w, a, b, t, r);
      }
    }
  }

  /** As it stands, with nothing newer, the reply is the restart's exactly when the two trellises answer alike. */
  lemma AdoptedAlikeNow(w: World, v: TripValue)
    requires v.Intact() && Supports(w, v.candidates) && PlacedAlike(w, v) && !v.state.Unstarted?
    ensures !Again(w, v).state.Unstarted?
    ensures ServedAlike(w, v, []) <==> AnswerAlike(WeighedHere(w, v), WeighedHere(w, Again(w, v)))
  {
    var t, r := WeighedHere(w, v), Again(w, v);
    AdoptedIsPaired(w, v);
    AnsweredAlikeIff(w, v, r, t, WeighedHere(w, r));
    FreshIsServed(w, v.origins + []);
    assert v.origins + [] == v.origins && PushAll(w, v, []) == v;
  }
}
