/** The brute-force solver: an odometer over every path, keeping the first cheapest one. */
module BruteForce {
  import opened Numbers
  import opened TrellisGraph
  import opened TrellisPaths
  import opened Viterbi
  import opened ViterbiSolver

  /** `p` is a reading of the odometer whose digit `l` runs below `widths[l]`. */
  ghost predicate IsReading(widths: seq<nat>, p: seq<nat>) {
    |p| == |widths| && forall l :: 0 <= l < |p| ==> p[l] < widths[l]
  }

  ghost function Combinations(widths: seq<nat>): nat {
    if widths == [] then 1 else Combinations(widths[..|widths| - 1]) * widths[|widths| - 1]
  }

  /** How many readings come before `p`: the odometer's mixed-radix value. */
  ghost function Rank(widths: seq<nat>, p: seq<nat>): nat
    requires |p| == |widths|
  {
    var n := |p| - 1;
    if n < 0 then 0 else Rank(widths[..n], p[..n]) * widths[n] + p[n]
  }

  lemma {:induction false} RankBound(widths: seq<nat>, p: seq<nat>)
    requires IsReading(widths, p)
    ensures Rank(widths, p) < Combinations(widths)
  {
    var n := |p| - 1;
    if n >= 0 {
      RankBound(widths[..n], p[..n]);
      RowMajorBound(Rank(widths[..n], p[..n]), p[n], Combinations(widths[..n]), widths[n]);
    }
  }

  /** One tick: digit `m` goes up by one and every digit below it wraps from its top to zero. */
  ghost predicate Ticks(widths: seq<nat>, p: seq<nat>, q: seq<nat>, m: nat) {
    && IsReading(widths, p) && IsReading(widths, q) && m < |p|
    && p[..m] == q[..m] && q[m] == p[m] + 1
    && forall l :: m < l < |p| ==> p[l] == widths[l] - 1 && q[l] == 0
  }

  lemma {:induction false} TickRank(widths: seq<nat>, p: seq<nat>, q: seq<nat>, m: nat)
    requires Ticks(widths, p, q, m)
    ensures Rank(widths, q) == Rank(widths, p) + 1
  {
    var n := |p| - 1;
    if m < n {
      assert p[..n][..m] == p[..m] && q[..n][..m] == q[..m];
      TickRank(widths[..n], p[..n], q[..n], m);
      var r, w := Rank(widths[..n], p[..n]), widths[n];
      assert (r + 1) * w == r * w + w;
    }
  }

  /** Readings that agree before `m` and never exceed from `m` on are equal or earlier. */
  lemma {:induction false} BelowIsEarlier(p: seq<nat>, q: seq<nat>, m: nat)
    requires |p| == |q| && m <= |p| && p[..m] == q[..m]
    requires forall l :: m <= l < |p| ==> p[l] <= q[l]
    ensures p == q || ReadForwardsLess(p, q)
    decreases |p| - m
  {
    if m < |p| && p[m] == q[m] {
      assert p[..m + 1] == p[..m] + [p[m]] == q[..m + 1];
      BelowIsEarlier(p, q, m + 1);
    }
  }

  /** A tick skips nothing: whatever comes before the new reading came before the old one or was it. */
  lemma TickSkipsNothing(widths: seq<nat>, p: seq<nat>, q: seq<nat>, m: nat, r: seq<nat>)
    requires Ticks(widths, p, q, m) && IsReading(widths, r) && ReadForwardsLess(r, q)
    ensures r == p || ReadForwardsLess(r, p)
  {
    var k :| 0 <= k < |r| && r[k] < q[k] && r[..k] == q[..k];
    if k < m {
      assert r[k] < p[k] && r[..k] == q[..m][..k] == p[..k];
    } else {
      assert r[..m] == p[..m];
      BelowIsEarlier(r, p, m);
    }
  }

  lemma EarlierIsTransitive(a: seq<nat>, b: seq<nat>, c: seq<nat>)
    requires ReadForwardsLess(a, b) && ReadForwardsLess(b, c)
    ensures ReadForwardsLess(a, c)
  {
    var j :| 0 <= j < |a| && a[j] < b[j] && a[..j] == b[..j];
    var k :| 0 <= k < |b| && b[k] < c[k] && b[..k] == c[..k];
    var m := if j < k then j else k;
    assert a[..m] == a[..j][..m] == b[..m] == b[..k][..m] == c[..m];
    assert m < j ==> a[m] == a[..j][m];
    assert m < k ==> b[m] == b[..k][m];
    assert a[m] < c[m];
  }

  /** One step of the odometer, on which the last layer turns fastest. */
  method Advance(widths: seq<nat>, path: array<nat>) returns (carry: bool, ghost at: nat)
    requires IsReading(widths, path[..])
    modifies path
    ensures !carry ==> Ticks(widths, old(path[..]), path[..], at)
    ensures carry ==> forall l :: 0 <= l < path.Length ==> old(path[l]) == widths[l] - 1 && path[l] == 0
  {
    carry, at := true, 0;
    for layer := path.Length downto 0
      invariant carry ==> forall l :: layer <= l < path.Length ==> old(path[l]) == widths[l] - 1 && path[l] == 0
      invariant carry ==> forall l :: 0 <= l < layer ==> path[l] == old(path[l])
      invariant !carry ==> at < path.Length && path[at] == old(path[at]) + 1 < widths[at]
      invariant !carry ==> forall l :: 0 <= l < at ==> path[l] == old(path[l])
      invariant !carry ==> forall l :: at < l < path.Length ==> old(path[l]) == widths[l] - 1 && path[l] == 0
    {
      if carry {
        path[layer] := path[layer] + 1;
        if path[layer] < widths[layer] {
          carry, at := false, layer;
        } else {
          path[layer] := 0;
        }
      }
    }
  }

  /** `best` is the cheapest path in `seen` below infinity, the earliest of them on a tie. */
  ghost predicate BestOfSeen(t: Trellis, seen: iset<seq<nat>>, bestCost: u32, best: seq<nat>)
    requires t.Valid()
  {
    && bestCost <= INF_W
    && (forall p :: p in seen && IsPath(t, p) ==> bestCost <= Cost(t, p))
    && (bestCost < INF_W ==>
          && best in seen && IsPath(t, best) && Cost(t, best) == bestCost
          && forall p :: p in seen && IsPath(t, p) && Cost(t, p) == bestCost ==> p == best || ReadForwardsLess(best, p))
  }

  ghost function Earlier(p: seq<nat>): iset<seq<nat>> { iset q | ReadForwardsLess(q, p) }

  ghost function EveryPath(t: Trellis): iset<seq<nat>> { iset p | IsPath(t, p) }

  /** Pricing one more path keeps the best, replacing it only when strictly cheaper. */
  lemma BestAfterPricing(t: Trellis, p: seq<nat>, bestCost: u32, best: seq<nat>)
    requires t.Valid() && IsPath(t, p) && BestOfSeen(t, Earlier(p), bestCost, best)
    ensures Cost(t, p) < bestCost ==> BestOfSeen(t, Earlier(p) + iset{p}, Cost(t, p), p)
    ensures bestCost <= Cost(t, p) ==> BestOfSeen(t, Earlier(p) + iset{p}, bestCost, best)
  {
  }

  lemma ReadingsArePaths(t: Trellis, p: seq<nat>)
    requires t.Valid()
    ensures IsReading(t.widths, p) <==> IsPath(t, p)
  {
    if IsPath(t, p) {
      forall l | 0 <= l < |p|
        ensures p[l] < t.widths[l]
      {
        assert t.Has(l, p[l]);
      }
    }
  }

  /** After a tick the paths read so far are exactly the earlier ones and the one just priced. */
  lemma BestAfterTick(t: Trellis, p: seq<nat>, q: seq<nat>, m: nat, bestCost: u32, best: seq<nat>)
    requires t.Valid() && Ticks(t.widths, p, q, m)
    requires BestOfSeen(t, Earlier(p) + iset{p}, bestCost, best)
    ensures BestOfSeen(t, Earlier(q), bestCost, best)
  {
    assert ReadForwardsLess(p, q);
    forall r | r in Earlier(q) && IsPath(t, r)
      ensures r in Earlier(p) + iset{p}
    {
      ReadingsArePaths(t, r);
      TickSkipsNothing(t.widths, p, q, m, r);
    }
    if bestCost < INF_W && best != p {
      EarlierIsTransitive(best, p, q);
    }
  }

  /** When every digit is at its top, every path has been read. */
  lemma BestAtTheEnd(t: Trellis, p: seq<nat>, bestCost: u32, best: seq<nat>)
    requires t.Valid() && IsReading(t.widths, p) && BestOfSeen(t, Earlier(p) + iset{p}, bestCost, best)
    requires forall l :: 0 <= l < |p| ==> p[l] == t.widths[l] - 1
    ensures BestOfSeen(t, EveryPath(t), bestCost, best)
  {
    forall r | IsPath(t, r)
      ensures r in Earlier(p) + iset{p}
    {
      ReadingsArePaths(t, r);
      BelowIsEarlier(r, p, 0);
    }
  }

  /** An exhaustive minimum below infinity is the Viterbi answer's cost; at infinity nothing solves. */
  lemma ExhaustiveIsViterbi(t: Trellis, bestCost: u32, best: seq<nat>)
    requires t.Valid() && t.FullyResolved() && BestOfSeen(t, EveryPath(t), bestCost, best)
    ensures bestCost < INF_W <==> Solvable(t)
    ensures Solvable(t) ==> bestCost == Answer(t).cost
  {
    SolvableIffFinitePath(t);
    if Solvable(t) {
      AnswerIsOptimal(t);
    }
  }

  /** Read every path off the odometer and price it. */
  method Enumerate(t: Trellis) returns (bestCost: u32, bestNodes: seq<nat>)
    requires t.Valid()
    ensures BestOfSeen(t, EveryPath(t), bestCost, bestNodes)
  {
    bestCost, bestNodes := INF_W, [];
    var path := new nat[t.Layers()](_ => 0);
    while true
      invariant IsReading(t.widths, path[..]) && BestOfSeen(t, Earlier(path[..]), bestCost, bestNodes)
      decreases Combinations(t.widths) - Rank(t.widths, path[..])
    {
      ghost var here := path[..];
      ReadingsArePaths(t, here);
      BestAfterPricing(t, here, bestCost, bestNodes);
      var cost := PathCost(t, path[..]);
      if cost < bestCost {
        bestCost, bestNodes := cost, path[..];
      }
      var carry; ghost var at;
      carry, at := Advance(t.widths, path);
      if carry {
        BestAtTheEnd(t, here, bestCost, bestNodes);
        return;
      }
      BestAfterTick(t, here, path[..], at, bestCost, bestNodes);
      TickRank(t.widths, here, path[..], at);
      RankBound(t.widths, path[..]);
    }
  }

  /**
   * The odometer visits every path. It agrees with Viterbi on pending, unreachable and cost, and
   * breaks ties the other way: its path is the least of the optimal ones read forwards.
   */
  method Solve(t: Trellis) returns (r: Result<Path, SolveError>)
    requires t.Valid()
    ensures !t.FullyResolved() ==> r == Err(NotResolved(FirstPendingFrom(t, 0).value))
    ensures t.FullyResolved() && !Solvable(t) ==> r == Err(Unreachable)
    ensures t.FullyResolved() && Solvable(t) ==>
      && r.Ok? && r.value.cost == Answer(t).cost
      && IsPath(t, r.value.nodes) && Cost(t, r.value.nodes) == r.value.cost
      && forall p :: IsPath(t, p) && Cost(t, p) == r.value.cost ==> p == r.value.nodes || ReadForwardsLess(r.value.nodes, p)
  {
    var pending := FirstPendingFrom(t, 0);
    if pending.Some? {
      return Err(NotResolved(pending.value));
    }
    var bestCost, bestNodes := Enumerate(t);
    ExhaustiveIsViterbi(t, bestCost, bestNodes);
    r := if bestCost >= INF_W then Err(Unreachable) else Ok(Path(bestNodes, bestCost));
  }
}
