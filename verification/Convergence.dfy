/** The convergence point: which prefix of the answer is final, and why appending cannot move it. */
module Convergence {
  import opened Numbers
  import opened TrellisGraph
  import opened TrellisPaths
  import opened Viterbi
  import opened ViterbiSolver

  /** The path backtracking chooses for final node `n`. */
  ghost function Route(t: Trellis, n: nat): (p: seq<nat>)
    requires t.Valid() && t.Has(t.Layers() - 1, n)
    ensures IsPath(t, p)
  {
    Back(t, t.Layers() - 1, n)
  }

  ghost predicate LiveFinal(t: Trellis, n: nat)
    requires t.Valid()
  {
    t.Has(t.Layers() - 1, n) && Live(t, t.Layers() - 1, n)
  }

  /** The routes of all live final nodes pass through one node of layer `k`. */
  ghost predicate FusedAt(t: Trellis, k: nat)
    requires t.Valid() && k < t.Layers()
  {
    forall n, m :: LiveFinal(t, n) && LiveFinal(t, m) ==> Route(t, n)[k] == Route(t, m)[k]
  }

  /** `r` is the latest fused layer, or none when the live routes never fuse. */
  ghost predicate ConvergesAt(t: Trellis, r: Option<nat>)
    requires t.Valid()
  {
    && (r.Some? ==> r.value < t.Layers() && FusedAt(t, r.value))
    && forall k :: 0 <= k < t.Layers() && (r.Some? ==> r.value < k) ==> !FusedAt(t, k)
  }

  /** Routes that meet at a layer agree on everything before it. */
  lemma FusedStaysFused(t: Trellis, j: nat, k: nat)
    requires t.Valid() && j <= k < t.Layers() && FusedAt(t, k)
    ensures FusedAt(t, j)
  {
    forall n, m | LiveFinal(t, n) && LiveFinal(t, m)
      ensures Route(t, n)[j] == Route(t, m)[j]
    {
      BackPrefix(t, t.Layers() - 1, n, k);
      BackPrefix(t, t.Layers() - 1, m, k);
      assert Route(t, n)[..k + 1][j] == Route(t, m)[..k + 1][j];
    }
  }

  /** Every node on the route of a live node is live. */
  lemma {:induction false} LiveAlong(t: Trellis, l: nat, n: nat, k: nat)
    requires t.Valid() && t.Has(l, n) && Live(t, l, n) && k <= l
    ensures t.Has(k, Back(t, l, n)[k]) && Live(t, k, Back(t, l, n)[k])
  {
    if k < l {
      LiveStep(t, l, n);
      LiveAlong(t, l - 1, Predecessor(t, l, n), k);
    }
  }

  // ----- Appended layers leave the table as it was -----

  lemma {:induction false} ExtensionInflow(u: Trellis, t: Trellis, l: nat, n: nat, k: nat)
    requires t.Valid() && u.Valid() && Extends(u, t) && 0 < l && t.Has(l, n) && k <= t.widths[l - 1]
    ensures u.Has(l, n) && Inflow(u, l, n, k) == Inflow(t, l, n, k)
    decreases l, 0, k
  {
    if k > 0 {
      ExtensionInflow(u, t, l, n, k - 1);
      ExtensionDist(u, t, l - 1, k - 1);
      ExtensionEdgeWeight(u, t, l - 1, k - 1, n);
    }
  }

  lemma {:induction false} ExtensionDist(u: Trellis, t: Trellis, l: nat, n: nat)
    requires t.Valid() && u.Valid() && Extends(u, t) && t.Has(l, n)
    ensures u.Has(l, n) && Dist(u, l, n) == Dist(t, l, n)
    decreases l, 1, 0
  {
    ExtensionNodeWeight(u, t, l, n);
    if l > 0 {
      ExtensionInflow(u, t, l, n, t.widths[l - 1]);
    }
  }

  lemma {:induction false} ExtensionBestOf(u: Trellis, t: Trellis, l: nat, n: nat, k: nat)
    requires t.Valid() && u.Valid() && Extends(u, t) && 0 < l && t.Has(l, n) && 0 < k <= t.widths[l - 1]
    ensures u.Has(l, n) && BestOf(u, l, n, k) == BestOf(t, l, n, k)
  {
    if k > 1 {
      ExtensionBestOf(u, t, l, n, k - 1);
      ExtensionVia(u, t, l, n, k - 1);
      ExtensionVia(u, t, l, n, BestOf(t, l, n, k - 1));
    }
  }

  lemma ExtensionVia(u: Trellis, t: Trellis, l: nat, n: nat, i: nat)
    requires t.Valid() && u.Valid() && Extends(u, t) && 0 < l && t.Has(l, n) && t.Has(l - 1, i)
    ensures u.Has(l, n) && u.Has(l - 1, i) && Via(u, l, n, i) == Via(t, l, n, i)
  {
    ExtensionDist(u, t, l - 1, i);
    ExtensionEdgeWeight(u, t, l - 1, i, n);
  }

  /** Appending layers changes neither the table nor the routes of the layers already there. */
  lemma {:induction false} ExtensionBack(u: Trellis, t: Trellis, l: nat, n: nat)
    requires t.Valid() && u.Valid() && Extends(u, t) && t.Has(l, n)
    ensures u.Has(l, n) && Dist(u, l, n) == Dist(t, l, n) && Back(u, l, n) == Back(t, l, n)
  {
    ExtensionDist(u, t, l, n);
    if l > 0 {
      ExtensionBestOf(u, t, l, n, t.widths[l - 1]);
      ExtensionBack(u, t, l - 1, Predecessor(t, l, n));
    }
  }

  // ----- The promise of `convergence` -----

  /** Any route of a grown trellis follows, up to a fused layer, the route that was fused there. */
  lemma GrownRouteFollows(u: Trellis, t: Trellis, c: nat, n: nat, m: nat)
    requires t.Valid() && u.Valid() && Extends(u, t) && c < t.Layers() && FusedAt(t, c)
    requires LiveFinal(t, m) && LiveFinal(u, n)
    ensures Route(u, n)[..c + 1] == Route(t, m)[..c + 1]
  {
    var l := t.Layers() - 1;
    var x := Route(u, n)[l];
    LiveAlong(u, u.Layers() - 1, n, l);
    BackPrefix(u, u.Layers() - 1, n, l);
    ExtensionBack(u, t, l, x);
    assert LiveFinal(t, x) && Route(u, n)[..l + 1] == Route(t, x);
    BackPrefix(t, l, x, c);
    BackPrefix(t, l, m, c);
    assert Route(u, n)[..c + 1] == Route(u, n)[..l + 1][..c + 1];
  }

  /**
   * Whatever layers are appended, as long as the result solves: the chosen nodes at or before a
   * convergence point never change, and the convergence point never moves backwards.
   */
  lemma ConvergedPrefixIsFinal(u: Trellis, t: Trellis, c: nat, later: Option<nat>)
    requires t.Valid() && u.Valid() && Extends(u, t) && Solvable(t) && Solvable(u)
    requires ConvergesAt(t, Some(c)) && ConvergesAt(u, later)
    ensures Answer(u).nodes[..c + 1] == Answer(t).nodes[..c + 1]
    ensures later.Some? && c <= later.value
  {
    GrownRouteFollows(u, t, c, FinalNode(u), FinalNode(t));
    forall n, m | LiveFinal(u, n) && LiveFinal(u, m)
      ensures Route(u, n)[c] == Route(u, m)[c]
    {
      GrownRouteFollows(u, t, c, n, FinalNode(t));
      GrownRouteFollows(u, t, c, m, FinalNode(t));
      assert Route(u, n)[c] == Route(u, n)[..c + 1][c];
      assert Route(u, m)[c] == Route(u, m)[..c + 1][c];
    }
    assert FusedAt(u, c);
  }

  // ----- The backward sweep -----

  ghost function LiveFinals(t: Trellis): set<nat>
    requires t.Valid()
  {
    set n: nat | n < t.widths[t.Layers() - 1] && LiveFinal(t, n)
  }

  /** The nodes of layer `k` on the routes of the live final nodes. */
  ghost function Frontier(t: Trellis, k: nat): (frontier: set<nat>)
    requires t.Valid() && k < t.Layers()
    ensures forall x :: x in frontier ==> t.Has(k, x)
  {
    set n | n in LiveFinals(t) :: Route(t, n)[k]
  }

  /** A frontier of one node is a fused layer. */
  lemma FrontierFuses(t: Trellis, k: nat)
    requires t.Valid() && Solvable(t) && k < t.Layers()
    ensures |Frontier(t, k)| == 1 <==> FusedAt(t, k)
  {
    var x := Route(t, FinalNode(t))[k];
    assert FinalNode(t) in LiveFinals(t) && x in Frontier(t, k);
    if |Frontier(t, k)| == 1 {
      OnlyMember(Frontier(t, k), x);
      forall n | LiveFinal(t, n)
        ensures Route(t, n)[k] == x
      {
        assert n in LiveFinals(t) && Route(t, n)[k] in Frontier(t, k);
      }
    }
    if FusedAt(t, k) {
      assert Frontier(t, k) == {x};
    }
  }

  lemma OnlyMember(s: set<nat>, x: nat)
    requires |s| == 1 && x in s
    ensures s == {x}
  {
    assert |s - {x}| == 0;
  }

  /** Stepping every frontier node to its predecessor gives the frontier one layer down. */
  lemma FrontierSteps(t: Trellis, l: nat)
    requires t.Valid() && 0 < l < t.Layers()
    ensures Frontier(t, l - 1) == set x | x in Frontier(t, l) :: Predecessor(t, l, x)
  {
    var next := set x | x in Frontier(t, l) :: Predecessor(t, l, x);
    forall n | n in LiveFinals(t)
      ensures Route(t, n)[l - 1] == Predecessor(t, l, Route(t, n)[l])
      ensures Route(t, n)[l - 1] in next
    {
      BackStep(t, t.Layers() - 1, n, l);
      assert Route(t, n)[l] in Frontier(t, l);
    }
    forall y | y in next
      ensures y in Frontier(t, l - 1)
    {
      var x :| x in Frontier(t, l) && y == Predecessor(t, l, x);
      var n :| n in LiveFinals(t) && Route(t, n)[l] == x;
      assert Route(t, n)[l - 1] == y;
    }
  }

  /** The starting frontier: the live nodes of the last layer, as read from the table. */
  function ReadLiveFinals(t: Trellis, dist: seq<u32>): (frontier: set<nat>)
    requires t.Valid() && IsTable(t, dist, t.Layers())
    ensures frontier == Frontier(t, t.Layers() - 1)
  {
    var k: nat := t.Layers() - 1;
    assert forall n :: n in LiveFinals(t) ==> Route(t, n)[k] == n;
    assert Frontier(t, k) == LiveFinals(t);
    set n: nat | n < t.widths[k] && Cell(t, dist, k, n) < INF_W
  }

  /** Every frontier node of layer `l` replaced by its predecessor, as read from the table. */
  function Narrow(t: Trellis, dist: seq<u32>, l: nat, frontier: set<nat>): (next: set<nat>)
    requires t.Valid() && t.FullyResolved() && IsTable(t, dist, t.Layers())
    requires 0 < l < t.Layers() && frontier == Frontier(t, l)
    ensures next == Frontier(t, l - 1)
  {
    FrontierSteps(t, l);
    set x | x in frontier :: ReadPredecessor(t, dist, l, x)
  }

  /**
   * The sweep behind `convergence`. The sorted, deduplicated frontier vector is the set of its
   * nodes; the loop stops at the first layer, walking backwards, where one node is left.
   */
  method ConvergedLayer(t: Trellis, dist: seq<u32>) returns (r: Option<nat>)
    requires t.Valid() && Solvable(t) && IsTable(t, dist, t.Layers())
    ensures ConvergesAt(t, r)
  {
    var k: nat := t.Layers() - 1;
    var frontier := ReadLiveFinals(t, dist);
    while true
      invariant k < t.Layers() && frontier == Frontier(t, k)
      invariant forall j :: k < j < t.Layers() ==> !FusedAt(t, j)
      decreases k
    {
      FrontierFuses(t, k);
      if |frontier| == 1 {
        return Some(k);
      }
      if k == 0 {
        return None;
      }
      frontier := Narrow(t, dist, k, frontier);
      k := k - 1;
    }
  }

  /** `convergence` fails exactly where a solve fails; otherwise it reports the convergence point. */
  method Query(t: Trellis) returns (r: Result<Option<nat>, SolveError>)
    requires t.Valid()
    ensures !t.FullyResolved() ==> r == Err(NotResolved(FirstPendingFrom(t, 0).value))
    ensures t.FullyResolved() && !Solvable(t) ==> r == Err(Unreachable)
    ensures t.FullyResolved() && Solvable(t) ==> r.Ok? && ConvergesAt(t, r.value)
  {
    var pending := FirstPendingFrom(t, 0);
    if pending.Some? {
      return Err(NotResolved(pending.value));
    }
    var dist := new u32[|t.nodes|](i requires 0 <= i < |t.nodes| => t.nodes[i]);
    assert dist[..] == t.nodes;
    ForwardPass(t, dist);
    var last := t.Layers() - 1;
    if forall n :: 0 <= n < t.widths[last] ==> Cell(t, dist[..], last, n) >= INF_W {
      assert Cell(t, dist[..], last, FinalNode(t)) >= INF_W;
      return Err(Unreachable);
    }
    assert Solvable(t) by {
      var n :| 0 <= n < t.widths[last] && Cell(t, dist[..], last, n) < INF_W;
      assert FinalDist(t, FinalNode(t)) <= FinalDist(t, n);
    }
    var layer := ConvergedLayer(t, dist[..]);
    r := Ok(layer);
  }
}
