/** The Viterbi solver: its recurrence, its tie-break, and what the path it reports is. */
module Viterbi {
  import opened Numbers
  import opened TrellisGraph
  import opened TrellisPaths

  datatype Path = Path(nodes: seq<nat>, cost: u32)

  datatype SolveError = NotResolved(layer: nat) | Unreachable

  /** The entry of the dynamic-programming table for node `n` of layer `l`. */
  ghost function Dist(t: Trellis, l: nat, n: nat): (d: nat)
    requires t.Valid() && t.Has(l, n)
    ensures d < 2 * INF_W
    decreases l, 1, 0
  {
    if l == 0 then t.NodeWeight(0, n) else
    var m := Inflow(t, l, n, t.widths[l - 1]);
    if m < INF_W then m + t.NodeWeight(l, n) else m
  }

  /** The cheapest way into node `n` of layer `l` from the first `k` nodes of the layer before. */
  ghost function Inflow(t: Trellis, l: nat, n: nat, k: nat): (d: nat)
    requires t.Valid() && 0 < l && t.Has(l, n) && k <= t.widths[l - 1]
    ensures d <= INF_W
    decreases l, 0, k
  {
    if k == 0 then INF_W else
    var rest := Inflow(t, l, n, k - 1);
    var d := Dist(t, l - 1, k - 1);
    if d < INF_W then Min(rest, d + t.EdgeWeight(l - 1, k - 1, n)) else rest
  }

  ghost predicate Live(t: Trellis, l: nat, n: nat)
    requires t.Valid() && t.Has(l, n)
  {
    Dist(t, l, n) < INF_W
  }

  /** What `predecessor` minimises: the cost of arriving at `n` through node `i` of the layer before. */
  ghost function Via(t: Trellis, l: nat, n: nat, i: nat): nat
    requires t.Valid() && 0 < l && t.Has(l, n) && t.Has(l - 1, i)
  {
    Dist(t, l - 1, i) + t.EdgeWeight(l - 1, i, n)
  }

  /** The lowest of the first `k` nodes of the layer before that reach `n` cheapest. */
  ghost function BestOf(t: Trellis, l: nat, n: nat, k: nat): (i: nat)
    requires t.Valid() && 0 < l && t.Has(l, n) && 0 < k <= t.widths[l - 1]
    ensures i < k
    ensures forall j :: 0 <= j < k ==> Via(t, l, n, i) <= Via(t, l, n, j)
    ensures forall j :: 0 <= j < i ==> Via(t, l, n, i) < Via(t, l, n, j)
  {
    if k == 1 then 0 else
    var i := BestOf(t, l, n, k - 1);
    if Via(t, l, n, k - 1) < Via(t, l, n, i) then k - 1 else i
  }

  ghost function Predecessor(t: Trellis, l: nat, n: nat): (i: nat)
    requires t.Valid() && 0 < l && t.Has(l, n)
    ensures t.Has(l - 1, i)
  {
    BestOf(t, l, n, t.widths[l - 1])
  }

  /** The walk backtracking chooses when it ends at node `n` of layer `l`. */
  ghost function Back(t: Trellis, l: nat, n: nat): (p: seq<nat>)
    requires t.Valid() && t.Has(l, n)
    ensures |p| == l + 1 && p[l] == n && IsWalk(t, p)
    decreases l
  {
    if l == 0 then [n] else Back(t, l - 1, Predecessor(t, l, n)) + [n]
  }

  ghost function FinalDist(t: Trellis, n: nat): nat
    requires t.Valid() && t.Has(t.Layers() - 1, n)
  {
    Dist(t, t.Layers() - 1, n)
  }

  /** The lowest of the first `k` final nodes of least cost. */
  ghost function BestFinal(t: Trellis, k: nat): (n: nat)
    requires t.Valid() && 0 < k <= t.widths[t.Layers() - 1]
    ensures n < k
    ensures forall j :: 0 <= j < k ==> FinalDist(t, n) <= FinalDist(t, j)
    ensures forall j :: 0 <= j < n ==> FinalDist(t, n) < FinalDist(t, j)
  {
    if k == 1 then 0 else
    var i := BestFinal(t, k - 1);
    if FinalDist(t, k - 1) < FinalDist(t, i) then k - 1 else i
  }

  ghost function FinalNode(t: Trellis): nat
    requires t.Valid()
  {
    BestFinal(t, t.widths[t.Layers() - 1])
  }

  /** Whether some final node is live, which is when a resolved trellis solves. */
  ghost predicate Solvable(t: Trellis)
    requires t.Valid()
  {
    t.FullyResolved() && Live(t, t.Layers() - 1, FinalNode(t))
  }

  ghost function Answer(t: Trellis): Path
    requires t.Valid() && Solvable(t)
  {
    var n := FinalNode(t);
    Path(Back(t, t.Layers() - 1, n), Dist(t, t.Layers() - 1, n))
  }

  /** Cutting a backtracked walk short leaves the walk backtracked from where it was cut. */
  lemma {:induction false} BackPrefix(t: Trellis, l: nat, n: nat, k: nat)
    requires t.Valid() && t.Has(l, n) && k <= l
    ensures t.Has(k, Back(t, l, n)[k])
    ensures Back(t, l, n)[..k + 1] == Back(t, k, Back(t, l, n)[k])
  {
    if k < l {
      var i := Predecessor(t, l, n);
      BackPrefix(t, l - 1, i, k);
      assert Back(t, l, n)[..k + 1] == Back(t, l - 1, i)[..k + 1];
    } else {
      assert Back(t, l, n)[..k + 1] == Back(t, l, n);
    }
  }

  /** Each node of a backtracked walk is the predecessor of the next. */
  lemma {:induction false} BackStep(t: Trellis, l: nat, n: nat, k: nat)
    requires t.Valid() && t.Has(l, n) && 0 < k <= l
    ensures t.Has(k, Back(t, l, n)[k]) && Back(t, l, n)[k - 1] == Predecessor(t, k, Back(t, l, n)[k])
  {
    if k < l {
      BackStep(t, l - 1, Predecessor(t, l, n), k);
    }
  }

  // ----- The recurrence against the paths -----

  lemma {:induction false} InflowIsLeast(t: Trellis, l: nat, n: nat, k: nat)
    requires t.Valid() && 0 < l && t.Has(l, n) && 0 < k <= t.widths[l - 1]
    ensures Inflow(t, l, n, k) == Min(INF_W, Via(t, l, n, BestOf(t, l, n, k)))
  {
    if k > 1 {
      InflowIsLeast(t, l, n, k - 1);
    }
  }

  /** A live node is entered through its predecessor, which is live too, and pays exactly that. */
  lemma LiveStep(t: Trellis, l: nat, n: nat)
    requires t.Valid() && 0 < l && t.Has(l, n) && Live(t, l, n)
    ensures Live(t, l - 1, Predecessor(t, l, n))
    ensures Dist(t, l, n) == Via(t, l, n, Predecessor(t, l, n)) + t.NodeWeight(l, n)
  {
    InflowIsLeast(t, l, n, t.widths[l - 1]);
  }

  /** No walk below infinity beats the table. */
  lemma {:induction false} DistIsLowerBound(t: Trellis, p: seq<nat>)
    requires t.Valid() && IsWalk(t, p)
    ensures Cost(t, p) < INF_W ==> Dist(t, |p| - 1, p[|p| - 1]) <= Cost(t, p)
  {
    var l := |p| - 1;
    if l > 0 && Cost(t, p) < INF_W {
      DistIsLowerBound(t, p[..l]);
      InflowIsLeast(t, l, p[l], t.widths[l - 1]);
      assert Via(t, l, p[l], Predecessor(t, l, p[l])) <= Via(t, l, p[l], p[l - 1]);
    }
  }

  /** Backtracking a live node spends exactly what the table says. */
  lemma {:induction false} BackCost(t: Trellis, l: nat, n: nat)
    requires t.Valid() && t.Has(l, n) && Live(t, l, n)
    ensures Cost(t, Back(t, l, n)) == Dist(t, l, n)
  {
    if l > 0 {
      var i := Predecessor(t, l, n);
      LiveStep(t, l, n);
      BackCost(t, l - 1, i);
      CostExtends(t, Back(t, l - 1, i), n);
    }
  }

  /** A cheapest walk to a live node arrives by a cheapest walk, through no node below the predecessor. */
  lemma TieStep(t: Trellis, q: seq<nat>, n: nat)
    requires t.Valid() && IsWalk(t, q) && t.Has(|q|, n) && Live(t, |q|, n)
    requires IsWalk(t, q + [n]) && Cost(t, q + [n]) == Dist(t, |q|, n)
    ensures Live(t, |q| - 1, q[|q| - 1]) && Cost(t, q) == Dist(t, |q| - 1, q[|q| - 1])
    ensures Predecessor(t, |q|, n) <= q[|q| - 1]
  {
    CostExtends(t, q, n);
    LiveStep(t, |q|, n);
    DistIsLowerBound(t, q);
    assert Via(t, |q|, n, q[|q| - 1]) == Via(t, |q|, n, Predecessor(t, |q|, n));
  }

  /** Among the cheapest walks to a live node, backtracking takes the least read backwards. */
  lemma {:induction false} BackIsLeast(t: Trellis, p: seq<nat>)
    requires t.Valid() && IsWalk(t, p) && Live(t, |p| - 1, p[|p| - 1])
    requires Cost(t, p) == Dist(t, |p| - 1, p[|p| - 1])
    ensures p == Back(t, |p| - 1, p[|p| - 1]) || ReadBackwardsLess(Back(t, |p| - 1, p[|p| - 1]), p)
  {
    var l := |p| - 1;
    if l == 0 {
      assert p == [p[0]];
    } else {
      var i := TieAtEnd(t, p, l);
      if i == p[l - 1] {
        BackIsLeast(t, p[..l]);
      }
      assert p == p[..l] + [p[l]];
      NoLaterExtends(Back(t, l - 1, i), p[..l], p[l]);
    }
  }

  lemma TieAtEnd(t: Trellis, p: seq<nat>, l: nat) returns (i: nat)
    requires t.Valid() && IsWalk(t, p) && l == |p| - 1 > 0 && Live(t, l, p[l]) && Cost(t, p) == Dist(t, l, p[l])
    ensures i == Predecessor(t, l, p[l]) && i <= p[l - 1] && IsWalk(t, p[..l])
    ensures Live(t, l - 1, p[l - 1]) && Cost(t, p[..l]) == Dist(t, l - 1, p[l - 1])
  {
    i := Predecessor(t, l, p[l]);
    assert p == p[..l] + [p[l]];
    TieStep(t, p[..l], p[l]);
  }

  /** On a resolved trellis: solvable exactly when some path is finite. */
  lemma SolvableIffFinitePath(t: Trellis)
    requires t.Valid() && t.FullyResolved()
    ensures Solvable(t) <==> exists p :: IsPath(t, p) && Cost(t, p) < INF_W
  {
    var l := t.Layers() - 1;
    if Solvable(t) {
      BackCost(t, l, FinalNode(t));
      assert IsPath(t, Back(t, l, FinalNode(t)));
    }
    forall p | IsPath(t, p) && Cost(t, p) < INF_W
      ensures Solvable(t)
    {
      DistIsLowerBound(t, p);
      assert FinalDist(t, FinalNode(t)) <= FinalDist(t, p[l]);
    }
  }

  /**
   * What the solver answers: a path naming one node per layer, whose cost is the reported one,
   * that no path undercuts, and that is the least of the optimal paths read backwards.
   */
  lemma AnswerIsOptimal(t: Trellis)
    requires t.Valid() && Solvable(t)
    ensures IsPath(t, Answer(t).nodes) && Cost(t, Answer(t).nodes) == Answer(t).cost < INF_W
    ensures forall p :: IsPath(t, p) ==> Answer(t).cost <= Cost(t, p)
    ensures forall p :: IsPath(t, p) && Cost(t, p) == Answer(t).cost ==>
      p == Answer(t).nodes || ReadBackwardsLess(Answer(t).nodes, p)
  {
    BackCost(t, t.Layers() - 1, FinalNode(t));
    forall p | IsPath(t, p)
      ensures Answer(t).cost <= Cost(t, p)
      ensures Cost(t, p) == Answer(t).cost ==> p == Answer(t).nodes || ReadBackwardsLess(Answer(t).nodes, p)
    {
      AnswerComesFirst(t, p, t.Layers() - 1, FinalNode(t));
    }
  }

  lemma AnswerComesFirst(t: Trellis, p: seq<nat>, l: nat, n: nat)
    requires t.Valid() && IsPath(t, p) && l == t.Layers() - 1 && n == FinalNode(t) && Live(t, l, n)
    ensures Dist(t, l, n) <= Cost(t, p)
    ensures Cost(t, p) == Dist(t, l, n) ==> p == Back(t, l, n) || ReadBackwardsLess(Back(t, l, n), p)
  {
    DistIsLowerBound(t, p);
    assert FinalDist(t, n) <= FinalDist(t, p[l]);
    if Cost(t, p) == Dist(t, l, n) {
      if p[l] == n {
        BackIsLeast(t, p);
      } else {
        assert Back(t, l, n)[l] < p[l] && Back(t, l, n)[l + 1..] == p[l + 1..];
      }
    }
  }

  /** Of least cost, and the least read backwards among the paths of that cost. */
  ghost predicate Champion(t: Trellis, p: seq<nat>)
    requires t.Valid()
  {
    && IsPath(t, p)
    && (forall r :: IsPath(t, r) ==> Cost(t, p) <= Cost(t, r))
    && (forall r :: IsPath(t, r) && Cost(t, r) == Cost(t, p) ==> r == p || ReadBackwardsLess(p, r))
  }

  lemma AnswerIsChampion(t: Trellis)
    requires t.Valid() && Solvable(t)
    ensures Champion(t, Answer(t).nodes)
  {
    AnswerIsOptimal(t);
  }

  /** There is only one champion, so the answer is determined by the costs alone. */
  lemma ChampionIsUnique(t: Trellis, p: seq<nat>, q: seq<nat>)
    requires t.Valid() && Champion(t, p) && Champion(t, q)
    ensures p == q
  {
    if p != q {
      ReadBackwardsAsymmetric(p, q);
      assert false;
    }
  }
}
