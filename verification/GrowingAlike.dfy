/** Two trellises of the same widths: exactly when no common growth can tell them apart. */
module GrowingAlike {
  import opened TrellisGraph
  import opened Viterbi
  import opened Convergence
  import opened ConvergenceCut

  /** `u` is `t`, and `v` is `r`, grown by the same layers. */
  ghost predicate SameGrowth(u: Trellis, t: Trellis, v: Trellis, r: Trellis) {
    && Extends(u, t) && Extends(v, r) && u.widths == v.widths && t.widths == r.widths && |t.nodes| == |r.nodes|
    && |t.transitions| == |r.transitions|
    && u.nodes[|t.nodes|..] == v.nodes[|r.nodes|..] && u.transitions[|t.transitions|..] == v.transitions[|r.transitions|..]
  }

  /** Both fail to solve, or both solve to the same path at the same cost. */
  ghost predicate AnswerAlike(u: Trellis, v: Trellis)
    requires u.Valid() && v.Valid()
  {
    (Solvable(u) <==> Solvable(v)) && (Solvable(u) ==> Answer(u) == Answer(v))
  }

  /** A final node an answer may yet come from. */
  ghost predicate Open(t: Trellis, n: nat)
    requires t.Valid()
  {
    t.FullyResolved() && LiveFinal(t, n)
  }

  /** What the two tables say of final node `n`: open in neither, or in both at one distance by one route. */
  ghost predicate AlikeAt(t: Trellis, r: Trellis, n: nat)
    requires t.Valid() && r.Valid()
  {
    (Open(t, n) <==> Open(r, n)) && (Open(t, n) ==> FinalDist(t, n) == FinalDist(r, n) && Route(t, n) == Route(r, n))
  }

  ghost predicate FinalsAlike(t: Trellis, r: Trellis)
    requires t.Valid() && r.Valid()
  {
    forall n :: AlikeAt(t, r, n)
  }

  /** Whatever layers both are grown by, they answer alike. */
  ghost predicate AlwaysAlike(t: Trellis, r: Trellis) {
    forall u: Trellis, v: Trellis :: u.Valid() && v.Valid() && SameGrowth(u, t, v, r) ==> AnswerAlike(u, v)
  }

  // ----- Alike final nodes stay alike -----

  /** Node `n` of layer `l`: dead in both, or live in both at one distance by one route. */
  ghost predicate NodeAlike(u: Trellis, v: Trellis, l: nat, n: nat)
    requires u.Valid() && v.Valid() && u.Has(l, n) && v.Has(l, n)
  {
    (Live(u, l, n) <==> Live(v, l, n)) && (Live(u, l, n) ==> Dist(u, l, n) == Dist(v, l, n) && Back(u, l, n) == Back(v, l, n))
  }

  ghost predicate LayerAlike(u: Trellis, v: Trellis, l: nat)
    requires u.Valid() && v.Valid() && u.widths == v.widths && l < u.Layers()
  {
    forall n :: 0 <= n < u.widths[l] ==> NodeAlike(u, v, l, n)
  }

  /** The two weigh layer `l` and the boundary into it alike. */
  ghost predicate WeighsAlike(u: Trellis, v: Trellis, l: nat)
    requires u.Valid() && v.Valid() && u.widths == v.widths && 0 < l < u.Layers()
  {
    && (forall n :: 0 <= n < u.widths[l] ==> u.NodeWeight(l, n) == v.NodeWeight(l, n))
    && EdgesAlike(u, v, l - 1)
  }

  ghost predicate EdgesAlike(u: Trellis, v: Trellis, k: nat)
    requires u.Valid() && v.Valid() && u.widths == v.widths && k + 1 < u.Layers()
  {
    forall i, n :: 0 <= i < u.widths[k] && 0 <= n < u.widths[k + 1] ==> u.EdgeWeight(k, i, n) == v.EdgeWeight(k, i, n)
  }

  lemma GrownWeighsAlike(u: Trellis, t: Trellis, v: Trellis, r: Trellis, l: nat)
    requires t.Valid() && r.Valid() && u.Valid() && v.Valid() && SameGrowth(u, t, v, r) && t.Layers() <= l < u.Layers()
    ensures WeighsAlike(u, v, l)
  {
    forall n | 0 <= n < u.widths[l]
      ensures u.NodeWeight(l, n) == v.NodeWeight(l, n)
    {
      GrownNode(u, t, v, r, l, n);
    }
    assert u.transitions[l - 1] == u.transitions[|t.transitions|..][l - 1 - |t.transitions|];
    assert v.transitions[l - 1] == v.transitions[|r.transitions|..][l - 1 - |r.transitions|];
  }

  lemma GrownNode(u: Trellis, t: Trellis, v: Trellis, r: Trellis, l: nat, n: nat)
    requires t.Valid() && r.Valid() && u.Valid() && v.Valid() && SameGrowth(u, t, v, r) && t.Layers() <= l && u.Has(l, n)
    ensures v.Has(l, n) && u.NodeWeight(l, n) == v.NodeWeight(l, n)
  {
    NodeIndexBound(u, l, n);
    StartOfPrefix(t.widths, u.widths, t.Layers());
    StartMonotone(u.widths, t.Layers(), l);
    var x := Start(u.widths, l) + n;
    assert u.nodes[x] == u.nodes[|t.nodes|..][x - |t.nodes|];
    assert v.nodes[x] == v.nodes[|r.nodes|..][x - |r.nodes|];
  }

  lemma {:induction false} InflowAlike(u: Trellis, v: Trellis, l: nat, n: nat, k: nat)
    requires u.Valid() && v.Valid() && u.widths == v.widths && 0 < l && u.Has(l, n) && k <= u.widths[l - 1]
    requires LayerAlike(u, v, l - 1) && WeighsAlike(u, v, l)
    ensures Inflow(u, l, n, k) == Inflow(v, l, n, k)
    decreases k
  {
    if k > 0 {
      InflowAlike(u, v, l, n, k - 1);
      assert NodeAlike(u, v, l - 1, k - 1);
    }
  }

  /** Through a live node of the layer before, arriving costs the same. */
  lemma ViaAlike(u: Trellis, v: Trellis, l: nat, n: nat, i: nat)
    requires u.Valid() && v.Valid() && u.widths == v.widths && 0 < l && u.Has(l, n) && u.Has(l - 1, i)
    requires LayerAlike(u, v, l - 1) && WeighsAlike(u, v, l) && (Live(u, l - 1, i) || Live(v, l - 1, i))
    ensures Via(u, l, n, i) == Via(v, l, n, i)
  {
    assert NodeAlike(u, v, l - 1, i);
  }

  lemma PredecessorAlike(u: Trellis, v: Trellis, l: nat, n: nat)
    requires u.Valid() && v.Valid() && u.widths == v.widths && 0 < l && u.Has(l, n)
    requires LayerAlike(u, v, l - 1) && WeighsAlike(u, v, l) && Live(u, l, n) && Live(v, l, n)
    ensures Predecessor(u, l, n) == Predecessor(v, l, n)
  {
    var i, j := Predecessor(u, l, n), Predecessor(v, l, n);
    LiveStep(u, l, n);
    LiveStep(v, l, n);
    ViaAlike(u, v, l, n, i);
    ViaAlike(u, v, l, n, j);
  }

  lemma NextNodeAlike(u: Trellis, v: Trellis, l: nat, n: nat)
    requires u.Valid() && v.Valid() && u.widths == v.widths && 0 < l && u.Has(l, n)
    requires LayerAlike(u, v, l - 1) && WeighsAlike(u, v, l)
    ensures NodeAlike(u, v, l, n)
  {
    InflowAlike(u, v, l, n, u.widths[l - 1]);
    assert Dist(u, l, n) == Dist(v, l, n);
    if Live(u, l, n) {
      PredecessorAlike(u, v, l, n);
      LiveStep(u, l, n);
      assert NodeAlike(u, v, l - 1, Predecessor(u, l, n));
    }
  }

  lemma {:induction false} LayersStayAlike(u: Trellis, t: Trellis, v: Trellis, r: Trellis, l: nat)
    requires t.Valid() && r.Valid() && u.Valid() && v.Valid() && SameGrowth(u, t, v, r)
    requires t.Layers() - 1 <= l < u.Layers() && LayerAlike(t, r, t.Layers() - 1)
    ensures LayerAlike(u, v, l)
    decreases l
  {
    if l < t.Layers() {
      forall n | 0 <= n < u.widths[l]
        ensures NodeAlike(u, v, l, n)
      {
        assert NodeAlike(t, r, l, n);
        ExtensionBack(u, t, l, n);
        ExtensionBack(v, r, l, n);
      }
    } else {
      LayersStayAlike(u, t, v, r, l - 1);
      GrownWeighsAlike(u, t, v, r, l);
      forall n | 0 <= n < u.widths[l]
        ensures NodeAlike(u, v, l, n)
      {
        NextNodeAlike(u, v, l, n);
      }
    }
  }

  /** Alike in their last layer, two resolved trellises answer alike. */
  lemma LastLayerDecides(u: Trellis, v: Trellis)
    requires u.Valid() && v.Valid() && u.widths == v.widths && LayerAlike(u, v, u.Layers() - 1)
    requires u.FullyResolved() && v.FullyResolved()
    ensures AnswerAlike(u, v)
  {
    if Solvable(u) {
      SameFinal(u, v);
    } else if Solvable(v) {
      var l := u.Layers() - 1;
      forall n | 0 <= n < u.widths[l]
        ensures NodeAlike(v, u, l, n)
      {
        assert NodeAlike(u, v, l, n);
      }
      SameFinal(v, u);
    }
  }

  lemma SameFinal(u: Trellis, v: Trellis)
    requires u.Valid() && v.Valid() && u.widths == v.widths && LayerAlike(u, v, u.Layers() - 1)
    requires Solvable(u)
    ensures FinalNode(u) == FinalNode(v) && NodeAlike(u, v, u.Layers() - 1, FinalNode(u))
  {
    var l, i, j := u.Layers() - 1, FinalNode(u), FinalNode(v);
    assert NodeAlike(u, v, l, i);
    assert NodeAlike(u, v, l, j);
    assert FinalDist(v, j) <= FinalDist(v, i);
    assert FinalDist(u, i) <= FinalDist(u, j);
  }

  /** An answer of a grown trellis crosses the old last layer at an open node. */
  lemma SolvesThroughOpen(u: Trellis, t: Trellis) returns (n: nat)
    requires t.Valid() && u.Valid() && Extends(u, t) && Solvable(u)
    ensures Open(t, n)
  {
    var l := t.Layers() - 1;
    LiveAlong(u, u.Layers() - 1, FinalNode(u), l);
    n := Back(u, u.Layers() - 1, FinalNode(u))[l];
    ExtensionDist(u, t, l, n);
    forall k | 0 <= k < |t.transitions|
      ensures t.transitions[k].Resolved?
    {
      assert u.transitions[k] == t.transitions[k];
    }
  }

  lemma GrowthStaysResolved(u: Trellis, t: Trellis, v: Trellis, r: Trellis)
    requires SameGrowth(u, t, v, r) && u.FullyResolved() && r.FullyResolved()
    ensures v.FullyResolved()
  {
    forall k | 0 <= k < |v.transitions|
      ensures v.transitions[k].Resolved?
    {
      if k < |r.transitions| {
        assert v.transitions[k] == r.transitions[k];
      } else {
        assert v.transitions[k] == v.transitions[|r.transitions|..][k - |r.transitions|];
        assert u.transitions[k] == u.transitions[|t.transitions|..][k - |t.transitions|];
      }
    }
  }

  lemma OpenIsAlike(t: Trellis, r: Trellis)
    requires t.Valid() && r.Valid() && t.widths == r.widths && FinalsAlike(t, r) && t.FullyResolved() && r.FullyResolved()
    ensures LayerAlike(t, r, t.Layers() - 1)
  {
    var l := t.Layers() - 1;
    forall n | 0 <= n < t.widths[l]
      ensures NodeAlike(t, r, l, n)
    {
      assert AlikeAt(t, r, n);
    }
  }

  /** If either solves, both do, to the same answer. */
  lemma SolvingAlike(u: Trellis, t: Trellis, v: Trellis, r: Trellis)
    requires t.Valid() && r.Valid() && u.Valid() && v.Valid() && SameGrowth(u, t, v, r)
    requires FinalsAlike(t, r) && Solvable(u)
    ensures AnswerAlike(u, v)
  {
    var n := SolvesThroughOpen(u, t);
    assert AlikeAt(t, r, n);
    GrowthStaysResolved(u, t, v, r);
    OpenIsAlike(t, r);
    LayersStayAlike(u, t, v, r, u.Layers() - 1);
    LastLayerDecides(u, v);
  }

  /** Alike final nodes are enough for every growth to answer alike. */
  lemma AlikeFinalsAnswerAlike(u: Trellis, t: Trellis, v: Trellis, r: Trellis)
    requires t.Valid() && r.Valid() && u.Valid() && v.Valid() && SameGrowth(u, t, v, r) && FinalsAlike(t, r)
    ensures AnswerAlike(u, v)
  {
    if Solvable(u) {
      SolvingAlike(u, t, v, r);
    } else if Solvable(v) {
      forall n
        ensures AlikeAt(r, t, n)
      {
        assert AlikeAt(t, r, n);
      }
      SolvingAlike(v, r, u, t);
    }
  }

  // ----- Unlike final nodes are told apart -----

  /** Growing both by a node that only final node `n` reaches. */
  lemma ForksGrowAlike(t: Trellis, r: Trellis, n: nat)
    requires t.Valid() && r.Valid() && t.widths == r.widths && t.Has(t.Layers() - 1, n)
    ensures SameGrowth(Fork(t, n, n, 0), t, Fork(r, n, n, 0), r)
  {
    var u, v, k := Fork(t, n, n, 0), Fork(r, n, n, 0), |t.transitions|;
    assert u.nodes[|t.nodes|..] == [0, 0] && v.nodes[|r.nodes|..] == [0, 0];
    assert u.transitions[k..] == [u.transitions[k]] && v.transitions[k..] == [v.transitions[k]];
  }

  /** Such a growth of a trellis solves exactly when that node is open, and then answers by its route at its distance. */
  lemma ForkReads(t: Trellis, n: nat)
    requires t.Valid() && t.Has(t.Layers() - 1, n)
    ensures Solvable(Fork(t, n, n, 0)) <==> Open(t, n)
    ensures Open(t, n) ==> Answer(Fork(t, n, n, 0)) == Path(Route(t, n) + [0], FinalDist(t, n))
  {
    var u := Fork(t, n, n, 0);
    ForkDist(t, n, n, 0, n, 0);
    ForkDist(t, n, n, 0, n, 1);
    if Open(t, n) {
      ForkAnswers(t, n, n, 0);
      assert FinalNode(u) == Answer(u).nodes[t.Layers()] == 0;
    } else if Solvable(u) {
      assert u.FullyResolved();
      ResolvedBefore(u, t);
    }
  }

  lemma ResolvedBefore(u: Trellis, t: Trellis)
    requires Extends(u, t) && u.FullyResolved()
    ensures t.FullyResolved()
  {
    forall k | 0 <= k < |t.transitions|
      ensures t.transitions[k].Resolved?
    {
      assert u.transitions[k] == t.transitions[k];
    }
  }

  lemma ToldApart(t: Trellis, r: Trellis, n: nat)
    requires t.Valid() && r.Valid() && t.widths == r.widths && !AlikeAt(t, r, n)
    ensures t.Has(t.Layers() - 1, n) && !AnswerAlike(Fork(t, n, n, 0), Fork(r, n, n, 0))
  {
    ForkReads(t, n);
    ForkReads(r, n);
    if Open(t, n) && Open(r, n) && Route(t, n) + [0] == Route(r, n) + [0] {
      assert Route(t, n) == (Route(t, n) + [0])[..t.Layers()] == Route(r, n);
    }
  }

  /**
   * Two trellises of the same widths: every growth by the same layers, however many and whatever they weigh,
   * solves alike and answers alike exactly when each final node is open in neither, or in both at the same
   * distance by the same route.
   */
  lemma AlwaysAlikeIffFinalsAlike(t: Trellis, r: Trellis)
    requires t.Valid() && r.Valid() && t.widths == r.widths
    ensures AlwaysAlike(t, r) <==> FinalsAlike(t, r)
  {
    if FinalsAlike(t, r) {
      forall u: Trellis, v: Trellis | u.Valid() && v.Valid() && SameGrowth(u, t, v, r)
        ensures AnswerAlike(u, v)
      {
        AlikeFinalsAnswerAlike(u, t, v, r);
      }
    } else {
      var n :| !AlikeAt(t, r, n);
      ToldApart(t, r, n);
      ForksGrowAlike(t, r, n);
    }
  }
}
