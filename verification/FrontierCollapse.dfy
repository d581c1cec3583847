/** Where an unreachable trellis breaks: the greedy frontier walk and why its answer is minimal. */
module FrontierCollapse {
  import opened TrellisGraph
  import opened TrellisPaths
  import opened Viterbi

  /** Whether a walk crosses boundary `k` without a present edge; absent edges sit above the ceiling. */
  ghost predicate Absent(t: Trellis, p: seq<nat>, k: nat)
    requires t.Valid() && IsWalk(t, p) && k + 1 < |p|
  {
    t.EdgeWeight(k, p[k], p[k + 1]) > MAX_WEIGHT
  }

  ghost function Gaps(t: Trellis, p: seq<nat>): set<nat>
    requires t.Valid() && IsWalk(t, p)
  {
    set k: nat | k + 1 < |p| && Absent(t, p, k)
  }

  /** Breaking at `breaks` leaves runs of layers that present edges cross. */
  ghost predicate SplitsIntoRuns(t: Trellis, breaks: set<nat>)
    requires t.Valid()
  {
    exists p :: IsPath(t, p) && Gaps(t, p) <= breaks
  }

  /** A step adds the boundary it crosses to the gaps, or nothing. */
  lemma GapsExtend(t: Trellis, q: seq<nat>, n: nat)
    requires t.Valid() && IsWalk(t, q) && t.Has(|q|, n)
    ensures IsWalk(t, q + [n]) && |q| - 1 !in Gaps(t, q)
    ensures Gaps(t, q + [n]) ==
      Gaps(t, q) + if t.EdgeWeight(|q| - 1, q[|q| - 1], n) > MAX_WEIGHT then {|q| - 1} else {}
  {
    var p := q + [n];
    forall k: nat | k + 1 < |q|
      ensures Absent(t, p, k) == Absent(t, q, k)
    {
      assert p[k] == q[k] && p[k + 1] == q[k + 1];
    }
    assert Absent(t, p, |q| - 1) == (t.EdgeWeight(|q| - 1, q[|q| - 1], n) > MAX_WEIGHT);
  }

  /** Some walk to `x` of layer `l` has exactly these gaps. */
  ghost predicate WalksTo(t: Trellis, l: nat, x: nat, gaps: set<nat>)
    requires t.Valid()
  {
    exists p :: IsWalk(t, p) && |p| == l + 1 && p[l] == x && Gaps(t, p) == gaps
  }

  /** Every frontier node of layer `l` is walked to with exactly the breaks as gaps. */
  ghost predicate Attained(t: Trellis, l: nat, frontier: set<nat>, breaks: set<nat>)
    requires t.Valid()
  {
    forall x :: x in frontier ==> t.Has(l, x) && WalksTo(t, l, x, breaks)
  }

  /** No walk to layer `l` has fewer gaps than there are breaks, and one with as few ends in the frontier. */
  ghost predicate Fewest(t: Trellis, l: nat, frontier: set<nat>, breaks: set<nat>)
    requires t.Valid()
  {
    forall p :: IsWalk(t, p) && |p| == l + 1 ==>
      |breaks| < |Gaps(t, p)| || (|breaks| == |Gaps(t, p)| && p[l] in frontier)
  }

  /** Every node of a layer of this width. */
  function Whole(width: nat): (s: set<nat>)
    ensures forall y :: y in s <==> 0 <= y < width
  {
    if width == 0 then {} else Whole(width - 1) + {width - 1}
  }

  /** Whether a present edge leads from the frontier of layer `l - 1` to node `y`. */
  predicate Crossed(t: Trellis, l: nat, frontier: set<nat>, y: nat)
    requires t.Valid() && 0 < l && t.Has(l, y) && forall x :: x in frontier ==> t.Has(l - 1, x)
  {
    exists x :: x in frontier && t.EdgeWeight(l - 1, x, y) <= MAX_WEIGHT
  }

  function Reached(t: Trellis, l: nat, frontier: set<nat>): (next: set<nat>)
    requires t.Valid() && 0 < l < t.Layers() && forall x :: x in frontier ==> t.Has(l - 1, x)
  {
    set y | y in Whole(t.widths[l]) && Crossed(t, l, frontier, y)
  }

  lemma StepTo(t: Trellis, l: nat, x: nat, y: nat, breaks: set<nat>)
    requires t.Valid() && 0 < l && t.Has(l - 1, x) && t.Has(l, y) && WalksTo(t, l - 1, x, breaks)
    ensures WalksTo(t, l, y, breaks + if t.EdgeWeight(l - 1, x, y) > MAX_WEIGHT then {l - 1} else {})
  {
    var q :| IsWalk(t, q) && |q| == l && q[l - 1] == x && Gaps(t, q) == breaks;
    GapsExtend(t, q, y);
    assert (q + [y])[l] == y;
  }

  /** A walk has the gaps of its prefix, plus the boundary of its last edge if that is absent. */
  lemma LastGap(t: Trellis, p: seq<nat>)
    requires t.Valid() && IsWalk(t, p) && |p| > 1
    ensures IsWalk(t, p[..|p| - 1])
    ensures |Gaps(t, p)| == |Gaps(t, p[..|p| - 1])| + if t.EdgeWeight(|p| - 2, p[|p| - 2], p[|p| - 1]) > MAX_WEIGHT then 1 else 0
  {
    var q, n := p[..|p| - 1], p[|p| - 1];
    assert p == q + [n];
    GapsExtend(t, q, n);
  }

  /** Crossing a boundary by present edges keeps the breaks and moves the frontier. */
  lemma FrontierCrosses(t: Trellis, l: nat, frontier: set<nat>, breaks: set<nat>)
    requires t.Valid() && 0 < l < t.Layers()
    requires Attained(t, l - 1, frontier, breaks) && Fewest(t, l - 1, frontier, breaks)
    ensures Attained(t, l, Reached(t, l, frontier), breaks) && Fewest(t, l, Reached(t, l, frontier), breaks)
  {
    var next := Reached(t, l, frontier);
    forall y | y in next
      ensures WalksTo(t, l, y, breaks)
    {
      var x :| x in frontier && t.EdgeWeight(l - 1, x, y) <= MAX_WEIGHT;
      StepTo(t, l, x, y, breaks);
      assert breaks + {} == breaks;
    }
    forall p | IsWalk(t, p) && |p| == l + 1
      ensures |breaks| < |Gaps(t, p)| || (|breaks| == |Gaps(t, p)| && p[l] in next)
    {
      LastGap(t, p);
      assert p[..l][l - 1] == p[l - 1];
      if p[l - 1] in frontier && t.EdgeWeight(l - 1, p[l - 1], p[l]) <= MAX_WEIGHT {
        assert Crossed(t, l, frontier, p[l]);
      }
    }
  }

  lemma NothingCrosses(t: Trellis, l: nat, frontier: set<nat>, x: nat, y: nat)
    requires t.Valid() && 0 < l < t.Layers() && (forall z :: z in frontier ==> t.Has(l - 1, z))
    requires Reached(t, l, frontier) == {} && x in frontier && t.Has(l, y)
    ensures t.EdgeWeight(l - 1, x, y) > MAX_WEIGHT
  {
    assert y !in Reached(t, l, frontier) && !Crossed(t, l, frontier, y);
  }

  /** When nothing crosses, breaking lets every node of the next layer be walked to. */
  lemma BreakIsAttained(t: Trellis, l: nat, frontier: set<nat>, breaks: set<nat>)
    requires t.Valid() && 0 < l < t.Layers() && frontier != {} && Attained(t, l - 1, frontier, breaks)
    requires Reached(t, l, frontier) == {}
    ensures Attained(t, l, Whole(t.widths[l]), breaks + {l - 1})
  {
    var x :| x in frontier;
    forall y | y in Whole(t.widths[l])
      ensures WalksTo(t, l, y, breaks + {l - 1})
    {
      NothingCrosses(t, l, frontier, x, y);
      StepTo(t, l, x, y, breaks);
    }
  }

  /** When nothing crosses, no walk could have avoided one more gap. */
  lemma BreakIsForced(t: Trellis, l: nat, frontier: set<nat>, breaks: set<nat>)
    requires t.Valid() && 0 < l < t.Layers() && l - 1 !in breaks && Fewest(t, l - 1, frontier, breaks)
    requires (forall z :: z in frontier ==> t.Has(l - 1, z)) && Reached(t, l, frontier) == {}
    ensures Fewest(t, l, Whole(t.widths[l]), breaks + {l - 1})
  {
    forall p | IsWalk(t, p) && |p| == l + 1
      ensures |breaks| + 1 <= |Gaps(t, p)| && p[l] in Whole(t.widths[l])
    {
      LastGap(t, p);
      assert p[..l][l - 1] == p[l - 1];
      if p[l - 1] in frontier {
        NothingCrosses(t, l, frontier, p[l - 1], p[l]);
      }
    }
  }

  ghost function Elements(s: seq<nat>): set<nat> { set x | x in s }

  lemma ElementsExtend(s: seq<nat>, k: nat)
    requires forall i :: 0 <= i < |s| ==> s[i] < k
    requires |Elements(s)| == |s|
    ensures Elements(s + [k]) == Elements(s) + {k} && |Elements(s + [k])| == |s| + 1 && k !in Elements(s)
  {
    assert Elements(s + [k]) == Elements(s) + {k};
  }

  /** What the walk keeps: `breaks` ascending below layer `l`, attained at the frontier and fewest. */
  ghost predicate Progress(t: Trellis, l: nat, frontier: set<nat>, breaks: seq<nat>)
    requires t.Valid()
  {
    && frontier != {} && |Elements(breaks)| == |breaks|
    && Attained(t, l, frontier, Elements(breaks)) && Fewest(t, l, frontier, Elements(breaks))
    && Ascends(breaks, l)
  }

  ghost predicate Ascends(breaks: seq<nat>, l: nat) {
    && (forall i {:trigger breaks[i]} :: 0 <= i < |breaks| ==> breaks[i] < l)
    && (forall i, j {:trigger breaks[i], breaks[j]} :: 0 <= i < j < |breaks| ==> breaks[i] < breaks[j])
  }

  lemma AscendsExtend(breaks: seq<nat>, l: nat)
    requires Ascends(breaks, l)
    ensures Ascends(breaks + [l], l + 1)
  {
  }

  lemma ProgressBreaks(t: Trellis, l: nat, frontier: set<nat>, breaks: seq<nat>)
    requires t.Valid() && 0 < l < t.Layers() && Progress(t, l - 1, frontier, breaks) && Reached(t, l, frontier) == {}
    ensures Progress(t, l, Whole(t.widths[l]), breaks + [l - 1])
  {
    ElementsExtend(breaks, l - 1);
    AscendsExtend(breaks, l - 1);
    BreakIsAttained(t, l, frontier, Elements(breaks));
    BreakIsForced(t, l, frontier, Elements(breaks));
    assert 0 in Whole(t.widths[l]);
  }

  /** The breaks found and the frontier left on reaching layer `l`. */
  ghost function Sweep(t: Trellis, l: nat): (seq<nat>, set<nat>)
    requires t.Valid() && l < t.Layers()
  {
    if l == 0 then ([], Whole(t.widths[0])) else
    var (breaks, frontier) := Sweep(t, l - 1);
    if Reached(t, l, frontier) == {} then (breaks + [l - 1], Whole(t.widths[l]))
    else (breaks, Reached(t, l, frontier))
  }

  lemma {:induction false} SweepProgresses(t: Trellis, l: nat)
    requires t.Valid() && l < t.Layers()
    ensures Progress(t, l, Sweep(t, l).1, Sweep(t, l).0)
  {
    if l == 0 {
      FrontierStarts(t);
    } else {
      SweepProgresses(t, l - 1);
      var (breaks, frontier) := Sweep(t, l - 1);
      if Reached(t, l, frontier) == {} {
        ProgressBreaks(t, l, frontier, breaks);
      } else {
        FrontierCrosses(t, l, frontier, Elements(breaks));
      }
    }
  }

  ghost function Breaks(t: Trellis): seq<nat>
    requires t.Valid()
  {
    Sweep(t, t.Layers() - 1).0
  }

  /** The walk itself. */
  method Collapse(t: Trellis) returns (breaks: seq<nat>)
    requires t.Valid()
    ensures breaks == Breaks(t)
  {
    var reachable := Whole(t.widths[0]);
    breaks := [];
    for l := 1 to t.Layers()
      invariant (breaks, reachable) == Sweep(t, l - 1)
    {
      var next := Reached(t, l, reachable);
      if next == {} {
        breaks, reachable := breaks + [l - 1], Whole(t.widths[l]);
      } else {
        reachable := next;
      }
    }
  }

  /**
   * The breaks, in layer order: they split the layers into runs crossed by present edges, and no
   * smaller set of boundaries does.
   */
  lemma BreaksAreFewest(t: Trellis)
    requires t.Valid()
    ensures forall i, j :: 0 <= i < j < |Breaks(t)| ==> Breaks(t)[i] < Breaks(t)[j]
    ensures forall i :: 0 <= i < |Breaks(t)| ==> Breaks(t)[i] < t.Layers() - 1
    ensures SplitsIntoRuns(t, Elements(Breaks(t)))
    ensures forall b :: SplitsIntoRuns(t, b) ==> |Breaks(t)| <= |b|
  {
    SweepProgresses(t, t.Layers() - 1);
    FrontierEnds(t, Sweep(t, t.Layers() - 1).1, Breaks(t));
  }

  lemma FrontierStarts(t: Trellis)
    requires t.Valid()
    ensures Elements([]) == {} && Whole(t.widths[0]) != {}
    ensures Attained(t, 0, Whole(t.widths[0]), {}) && Fewest(t, 0, Whole(t.widths[0]), {})
  {
    assert 0 in Whole(t.widths[0]);
    forall y | y in Whole(t.widths[0])
      ensures WalksTo(t, 0, y, {})
    {
      assert IsWalk(t, [y]) && Gaps(t, [y]) == {};
    }
    forall p | IsWalk(t, p) && |p| == 1
      ensures Gaps(t, p) == {} && p[0] in Whole(t.widths[0])
    {
    }
  }

  lemma FrontierEnds(t: Trellis, frontier: set<nat>, breaks: seq<nat>)
    requires t.Valid() && frontier != {} && |Elements(breaks)| == |breaks|
    requires Attained(t, t.Layers() - 1, frontier, Elements(breaks)) && Fewest(t, t.Layers() - 1, frontier, Elements(breaks))
    ensures SplitsIntoRuns(t, Elements(breaks))
    ensures forall b :: SplitsIntoRuns(t, b) ==> |breaks| <= |b|
  {
    var x :| x in frontier;
    assert WalksTo(t, t.Layers() - 1, x, Elements(breaks));
    forall b | SplitsIntoRuns(t, b)
      ensures |breaks| <= |b|
    {
      var p :| IsPath(t, p) && Gaps(t, p) <= b;
      SmallerSet(Gaps(t, p), b);
    }
  }

  lemma SmallerSet(a: set<nat>, b: set<nat>)
    requires a <= b
    ensures |a| <= |b|
  {
    assert b == a + (b - a);
  }

  // ----- The breaks against the solver -----

  /** A walk with a gap costs at least infinity. */
  lemma {:induction false} GapIsInfinite(t: Trellis, p: seq<nat>)
    requires t.Valid() && IsWalk(t, p) && Cost(t, p) < INF_W
    ensures Gaps(t, p) == {}
  {
    if |p| > 1 {
      var q, n := p[..|p| - 1], p[|p| - 1];
      assert p == q + [n];
      CostExtends(t, q, n);
      GapIsInfinite(t, q);
      GapsExtend(t, q, n);
    }
  }

  /** Every path of present edges costs less than infinity: what a caller needs of the weights. */
  ghost predicate PresentPathsAreFinite(t: Trellis)
    requires t.Valid()
  {
    forall p :: IsPath(t, p) && Gaps(t, p) == {} ==> Cost(t, p) < INF_W
  }

  lemma NoBreaksIffWholeRun(t: Trellis)
    requires t.Valid()
    ensures Breaks(t) == [] <==> SplitsIntoRuns(t, {})
  {
    BreaksAreFewest(t);
    if Breaks(t) == [] {
      assert Elements([]) == {};
    }
  }

  /**
   * On a resolved trellis a solvable one never breaks; the break list tells reachable from
   * unreachable when every path of present edges stays finite; and an unreachable one is reported
   * with no break at all exactly when some path of present edges reaches infinity by its own weights.
   */
  lemma BreaksAgreeWithSolver(t: Trellis)
    requires t.Valid() && t.FullyResolved()
    ensures Solvable(t) ==> Breaks(t) == []
    ensures PresentPathsAreFinite(t) ==> (Solvable(t) <==> Breaks(t) == [])
    ensures !Solvable(t) ==> (Breaks(t) == [] <==> !PresentPathsAreFinite(t))
  {
    NoBreaksIffWholeRun(t);
    SolvableIffFinitePath(t);
    if Solvable(t) {
      var p :| IsPath(t, p) && Cost(t, p) < INF_W;
      GapIsInfinite(t, p);
    }
  }

  /** A fully connected trellis can be unreachable with nothing to report broken. */
  lemma UnreachableWithoutBreaks() returns (t: Trellis)
    ensures t.Valid() && t.FullyResolved() && !Solvable(t) && Breaks(t) == []
  {
    t := Trellis([1, 1], [MAX_WEIGHT, 0], [Resolved([1])]);
    assert Start(t.widths, 1) == 1 && Start(t.widths, 2) == 2;
    assert IsWalk(t, [0]) && Cost(t, [0]) == MAX_WEIGHT && IsPath(t, [0, 0]);
    assert [0] + [0] == [0, 0];
    CostExtends(t, [0], 0);
    GapsExtend(t, [0], 0);
    assert Gaps(t, [0]) == {};
    forall p | IsPath(t, p)
      ensures Cost(t, p) >= INF_W
    {
      assert t.Has(0, p[0]) && t.Has(1, p[1]);
      assert p == [0, 0];
    }
    SolvableIffFinitePath(t);
    NoBreaksIffWholeRun(t);
  }
}
