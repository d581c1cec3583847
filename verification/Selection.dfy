/** The selective weigher against the exhaustive one. */
module Selection {
  import opened Observations
  import opened Numbers
  import opened TrellisGraph
  import opened TrellisPaths
  import opened Viterbi
  import opened Weighing
  import opened Matching

  /** Every position of a layer, as the exhaustive weigher selects. */
  function Every(n: nat): (s: seq<nat>)
    ensures |s| == n && forall i :: 0 <= i < n ==> s[i] == i
  {
    seq(n, i => i)
  }

  ghost predicate SelectsAll(w: World) {
    forall a: Anchor, layer: seq<Anchor> :: w.select(a, layer) == Every(|layer|)
  }

  /**
   * What partial selection promises: everything when the layer fits the fan-out, otherwise `fanout`
   * distinct positions, none of them further from the source than one left out.
   */
  ghost predicate SelectsNearest(w: World, distance: (Anchor, Anchor) -> real, fanout: nat) {
    forall a: Anchor, layer: seq<Anchor> {:trigger w.select(a, layer)} ::
      var chosen := w.select(a, layer);
      if |layer| <= fanout then chosen == Every(|layer|)
      else
        && |chosen| == fanout && (forall i, j :: 0 <= i < j < |chosen| ==> chosen[i] != chosen[j])
        && (forall i :: 0 <= i < |chosen| ==> chosen[i] < |layer|)
        && forall x, y :: x in chosen && 0 <= y < |layer| && y !in chosen && 0 <= x < |layer| ==>
             distance(a, layer[x]) <= distance(a, layer[y])
  }

  /** Two worlds that differ in selection only. */
  ghost predicate SameButSelection(some: World, all: World) {
    some.generate == all.generate && some.route == all.route && some.price == all.price
  }

  lemma EntryIsKeptOrDropped(some: World, all: World, a: Anchor, layer: seq<Anchor>, j: nat)
    requires SameButSelection(some, all) && SelectsAll(all) && j < |layer|
    ensures some.Entry(a, layer, j) == NO_EDGE || some.Entry(a, layer, j) == all.Entry(a, layer, j)
    ensures j in some.select(a, layer) ==> some.Entry(a, layer, j) == all.Entry(a, layer, j)
  {
    assert Every(|layer|)[j] == j;
    assert some.Hop(a, layer[j]) == all.Hop(a, layer[j]);
  }

  lemma {:induction false} MatrixIsKeptOrDropped(some: World, all: World, from: seq<Anchor>, to: seq<Anchor>)
    requires SameButSelection(some, all) && SelectsAll(all)
    ensures forall x :: 0 <= x < |from| * |to| ==>
      some.Matrix(from, to)[x] == NO_EDGE || some.Matrix(from, to)[x] == all.Matrix(from, to)[x]
  {
    if from != [] {
      var n := |from| - 1;
      MatrixIsKeptOrDropped(some, all, from[..n], to);
      forall j | 0 <= j < |to|
        ensures some.Row(from[n], to)[j] == NO_EDGE || some.Row(from[n], to)[j] == all.Row(from[n], to)[j]
      {
        EntryIsKeptOrDropped(some, all, from[n], to, j);
      }
      assert |some.Matrix(from[..n], to)| == n * |to| == |all.Matrix(from[..n], to)|;
    }
  }

  /** Selecting less can only lose edges, never cheapen one. */
  lemma BoundaryDominates(some: World, all: World, from: seq<Anchor>, to: seq<Anchor>)
    requires SameButSelection(some, all) && SelectsAll(all) && some.Boundary(from, to).Resolved?
    ensures all.Boundary(from, to).Resolved?
    ensures forall x :: 0 <= x < |from| * |to| ==>
      all.Boundary(from, to).weights[x] <= some.Boundary(from, to).weights[x]
  {
    MatrixIsKeptOrDropped(some, all, from, to);
    var m := some.Matrix(from, to);
    var x :| 0 <= x < |m| && m[x] != NO_EDGE;
    assert all.Matrix(from, to)[x] != NO_EDGE;
  }

  /** When the fan-out covers the layer, the matrices coincide. */
  lemma {:induction false} WideFanoutMatrix(some: World, all: World, distance: (Anchor, Anchor) -> real, fanout: nat,
                                             from: seq<Anchor>, to: seq<Anchor>)
    requires SameButSelection(some, all) && SelectsAll(all) && SelectsNearest(some, distance, fanout) && |to| <= fanout
    ensures some.Matrix(from, to) == all.Matrix(from, to)
  {
    if from != [] {
      var n := |from| - 1;
      WideFanoutMatrix(some, all, distance, fanout, from[..n], to);
      assert some.select(from[n], to) == Every(|to|);
      forall j | 0 <= j < |to|
        ensures some.Row(from[n], to)[j] == all.Row(from[n], to)[j]
      {
        assert Every(|to|)[j] == j;
        EntryIsKeptOrDropped(some, all, from[n], to, j);
      }
      assert some.Row(from[n], to) == all.Row(from[n], to);
    }
  }

  // ----- Solving both -----

  /** Edge for edge, `all` is no dearer than `some`. */
  ghost predicate NoDearer(all: Trellis, some: Trellis)
    requires all.Valid() && some.Valid()
  {
    && all.widths == some.widths && all.nodes == some.nodes
    && forall l: nat, i: nat, j: nat :: all.Has(l, i) && all.Has(l + 1, j) ==> NoDearerEdge(all, some, l, i, j)
  }

  ghost predicate NoDearerEdge(all: Trellis, some: Trellis, l: nat, i: nat, j: nat)
    requires all.Valid() && some.Valid() && all.widths == some.widths && all.Has(l, i) && all.Has(l + 1, j)
  {
    all.EdgeWeight(l, i, j) <= some.EdgeWeight(l, i, j)
  }

  lemma {:induction false} NoDearerCost(all: Trellis, some: Trellis, p: seq<nat>)
    requires all.Valid() && some.Valid() && NoDearer(all, some) && IsWalk(some, p)
    ensures IsWalk(all, p) && Cost(all, p) <= Cost(some, p)
  {
    var l := |p| - 1;
    assert some.Has(l, p[l]) && all.NodeWeight(l, p[l]) == some.NodeWeight(l, p[l]);
    if l > 0 {
      var q := p[..l];
      assert p == q + [p[l]];
      NoDearerCost(all, some, q);
      assert all.Has(l - 1, p[l - 1]) && NoDearerEdge(all, some, l - 1, p[l - 1], p[l]);
      CostExtends(all, q, p[l]);
      CostExtends(some, q, p[l]);
    }
  }

  lemma WeighedDominates(some: World, all: World, os: seq<Origin>, ts: Trellis, ta: Trellis)
    requires SameButSelection(some, all) && SelectsAll(all) && AllAnchored(some, os)
    requires Weighed(some, os, ts) && Weighed(all, os, ta) && ts.Valid() && ta.Valid() && ts.FullyResolved()
    ensures ta.FullyResolved() && NoDearer(ta, ts)
  {
    forall k | 0 <= k < |ts.transitions|
      ensures ta.transitions[k].Resolved?
      ensures forall x :: 0 <= x < ta.widths[k] * ta.widths[k + 1] ==> ta.transitions[k].weights[x] <= ts.transitions[k].weights[x]
    {
      assert ts.transitions[k] == BoundaryOf(some, os, k) && ta.transitions[k] == BoundaryOf(all, os, k);
      BoundaryDominates(some, all, some.generate(os[k].point), some.generate(os[k + 1].point));
    }
    assert ta.widths == ts.widths;
    NodeTablesAgree(some, all, os);
    forall l: nat, i: nat, j: nat | ta.Has(l, i) && ta.Has(l + 1, j)
      ensures ta.EdgeWeight(l, i, j) <= ts.EdgeWeight(l, i, j)
    {
      RowMajorBound(i, j, ta.widths[l], ta.widths[l + 1]);
    }
  }

  lemma {:induction false} NodeTablesAgree(some: World, all: World, os: seq<Origin>)
    requires SameButSelection(some, all)
    ensures NodeTable(some, os) == NodeTable(all, os)
  {
    if os != [] {
      NodeTablesAgree(some, all, os[..|os| - 1]);
    }
  }

  /** Whenever the selective trellis solves, the exhaustive one solves at no greater cost. */
  lemma ExhaustiveIsNoDearer(some: World, all: World, os: seq<Origin>, ts: Trellis, ta: Trellis)
    requires SameButSelection(some, all) && SelectsAll(all) && AllAnchored(some, os)
    requires Weighed(some, os, ts) && Weighed(all, os, ta) && ts.Valid() && ta.Valid() && Solvable(ts)
    ensures Solvable(ta) && Answer(ta).cost <= Answer(ts).cost
  {
    WeighedDominates(some, all, os, ts, ta);
    AnswerIsOptimal(ts);
    NoDearerCost(ta, ts, Answer(ts).nodes);
    SolvableIffFinitePath(ta);
    AnswerIsOptimal(ta);
  }

  /** With a fan-out at least every layer's width, the two weighers build the same trellis. */
  lemma WideFanoutIsExhaustive(some: World, all: World, distance: (Anchor, Anchor) -> real, fanout: nat,
                               os: seq<Origin>, ts: Trellis, ta: Trellis)
    requires SameButSelection(some, all) && SelectsAll(all) && SelectsNearest(some, distance, fanout)
    requires Weighed(some, os, ts) && Weighed(all, os, ta)
    requires forall i :: 0 <= i < |os| ==> |some.generate(os[i].point)| <= fanout
    ensures ts == ta
  {
    NodeTablesAgree(some, all, os);
    forall k | 0 <= k < |ts.transitions|
      ensures ts.transitions[k] == ta.transitions[k]
    {
      assert ts.transitions[k] == BoundaryOf(some, os, k) && ta.transitions[k] == BoundaryOf(all, os, k);
      WideFanoutMatrix(some, all, distance, fanout, some.generate(os[k].point), some.generate(os[k + 1].point));
    }
    assert ts.transitions == ta.transitions;
  }
}
