/** Node-paths through a trellis, their exact costs, and the saturating `path_cost` loop. */
module TrellisPaths {
  import opened Numbers
  import opened TrellisGraph

  /** `p` names one node in each of the first `|p|` layers. */
  ghost predicate IsWalk(t: Trellis, p: seq<nat>) {
    0 < |p| <= t.Layers() && forall l :: 0 <= l < |p| ==> t.Has(l, p[l])
  }

  /** `p` names one node per layer. */
  ghost predicate IsPath(t: Trellis, p: seq<nat>) {
    IsWalk(t, p) && |p| == t.Layers()
  }

  /** The exact cost of a walk: every node entered plus every edge taken. */
  ghost function Cost(t: Trellis, p: seq<nat>): nat
    requires t.Valid() && IsWalk(t, p)
  {
    var l := |p| - 1;
    if l == 0 then t.NodeWeight(0, p[0])
    else
      assert t.Has(l - 1 + 1, p[l]);
      Cost(t, p[..l]) + t.EdgeWeight(l - 1, p[l - 1], p[l]) + t.NodeWeight(l, p[l])
  }

  /** `a` comes before `b` when both are read from the last layer backwards. */
  ghost predicate ReadBackwardsLess(a: seq<nat>, b: seq<nat>) {
    |a| == |b| && exists k :: 0 <= k < |a| && a[k] < b[k] && a[k + 1..] == b[k + 1..]
  }

  /** `a` comes before `b` when both are read from the first layer forwards. */
  ghost predicate ReadForwardsLess(a: seq<nat>, b: seq<nat>) {
    |a| == |b| && exists k :: 0 <= k < |a| && a[k] < b[k] && a[..k] == b[..k]
  }

  lemma ReadBackwardsExtends(a: seq<nat>, b: seq<nat>, n: nat)
    requires ReadBackwardsLess(a, b)
    ensures ReadBackwardsLess(a + [n], b + [n])
  {
    var k :| 0 <= k < |a| && a[k] < b[k] && a[k + 1..] == b[k + 1..];
    assert (a + [n])[k + 1..] == a[k + 1..] + [n] == b[k + 1..] + [n] == (b + [n])[k + 1..];
    assert (a + [n])[k] < (b + [n])[k];
  }

  /** A lower last node, or an earlier or equal walk to it, stays no later when both take one more step. */
  lemma NoLaterExtends(b: seq<nat>, q: seq<nat>, n: nat)
    requires |b| == |q| > 0 && (b[|b| - 1] < q[|q| - 1] || b == q || ReadBackwardsLess(b, q))
    ensures b + [n] == q + [n] || ReadBackwardsLess(b + [n], q + [n])
  {
    if b[|b| - 1] < q[|q| - 1] {
      var k := |b| - 1;
      assert (b + [n])[k] < (q + [n])[k] && (b + [n])[k + 1..] == [n] == (q + [n])[k + 1..];
    } else if b != q {
      ReadBackwardsExtends(b, q, n);
    }
  }

  lemma ReadBackwardsAsymmetric(a: seq<nat>, b: seq<nat>)
    requires ReadBackwardsLess(a, b)
    ensures !ReadBackwardsLess(b, a)
  {
    var j :| 0 <= j < |a| && a[j] < b[j] && a[j + 1..] == b[j + 1..];
    forall k | 0 <= k < |a|
      ensures b[k + 1..] == a[k + 1..] ==> a[k] <= b[k]
    {
      if k < j {
        assert b[k + 1..][j - k - 1] != a[k + 1..][j - k - 1];
      } else if j < k {
        assert a[j + 1..][k - j - 1] == b[j + 1..][k - j - 1];
      }
    }
  }

  /** What stepping on to `n` costs: the edge taken and the node entered. */
  ghost function Step(t: Trellis, q: seq<nat>, n: nat): nat
    requires t.Valid() && IsWalk(t, q) && t.Has(|q|, n)
  {
    t.EdgeWeight(|q| - 1, q[|q| - 1], n) + t.NodeWeight(|q|, n)
  }

  lemma CostExtends(t: Trellis, q: seq<nat>, n: nat)
    requires t.Valid() && IsWalk(t, q) && t.Has(|q|, n)
    ensures IsWalk(t, q + [n]) && Cost(t, q + [n]) == Cost(t, q) + Step(t, q, n)
  {
    assert (q + [n])[..|q|] == q;
  }

  /** A prefix of a walk is a walk that costs no more. */
  lemma {:induction false} PrefixCostsNoMore(t: Trellis, p: seq<nat>, k: nat)
    requires t.Valid() && IsWalk(t, p) && 0 < k <= |p|
    ensures IsWalk(t, p[..k]) && Cost(t, p[..k]) <= Cost(t, p)
  {
    if k < |p| {
      PrefixCostsNoMore(t, p[..|p| - 1], k);
      assert p[..|p| - 1][..k] == p[..k];
    } else {
      assert p[..k] == p;
    }
  }

  /** The part of a walk beyond a cut is a walk of the cut trellis. */
  lemma WalkBeyondCut(t: Trellis, p: seq<nat>, c: nat)
    requires t.Valid() && IsWalk(t, p) && c < |p|
    ensures IsWalk(t, p[..c + 1]) && IsWalk(t.From(c), p[c..])
  {
    forall l | 0 <= l < |p| - c
      ensures t.From(c).Has(l, p[c..][l])
    {
      assert t.Has(c + l, p[c + l]);
    }
  }

  /** Stepping on beyond a cut costs the same in the cut trellis and the uncut one. */
  lemma StepBeyondCut(t: Trellis, q: seq<nat>, n: nat, c: nat)
    requires t.Valid() && IsWalk(t, q) && t.Has(|q|, n) && c < |q| && t.From(c).Valid() && IsWalk(t.From(c), q[c..])
    ensures t.From(c).Has(|q[c..]|, n) && Step(t.From(c), q[c..], n) == Step(t, q, n)
  {
    var l := |q|;
    CutNodeWeight(t, c, l - c, n);
    CutEdgeWeight(t, c, l - c - 1, q[l - 1], n);
    assert |q[c..]| == l - c && q[c..][l - c - 1] == q[l - 1];
  }

  /** A walk ending at the cut leaves only that node to pay beyond it. */
  lemma CostAtCut(t: Trellis, p: seq<nat>)
    requires t.Valid() && IsWalk(t, p) && t.From(|p| - 1).Valid() && IsWalk(t.From(|p| - 1), p[|p| - 1..])
    ensures Cost(t.From(|p| - 1), p[|p| - 1..]) == t.NodeWeight(|p| - 1, p[|p| - 1])
  {
    CutNodeWeight(t, |p| - 1, 0, p[|p| - 1]);
  }

  /** Costs split at any layer, the shared node being paid on both sides of the cut. */
  lemma {:induction false} CostSplits(t: Trellis, p: seq<nat>, c: nat)
    requires t.Valid() && IsWalk(t, p) && c < |p| && t.From(c).Valid()
    ensures IsWalk(t, p[..c + 1]) && IsWalk(t.From(c), p[c..])
    ensures Cost(t, p) + t.NodeWeight(c, p[c]) == Cost(t, p[..c + 1]) + Cost(t.From(c), p[c..])
    decreases |p|
  {
    WalkBeyondCut(t, p, c);
    var l := |p| - 1;
    if c == l {
      assert p[..c + 1] == p;
      CostAtCut(t, p);
    } else {
      var q := p[..l];
      assert p == q + [p[l]] && p[c..] == q[c..] + [p[l]] && p[..c + 1] == q[..c + 1];
      CostSplits(t, q, c);
      StepBeyondCut(t, q, p[l], c);
      CostExtends(t, q, p[l]);
      CostExtends(t.From(c), q[c..], p[l]);
    }
  }

  /** A trellis and its extension agree on the cost of every walk they share. */
  lemma {:induction false} ExtensionCost(u: Trellis, t: Trellis, p: seq<nat>)
    requires t.Valid() && u.Valid() && Extends(u, t) && IsWalk(t, p)
    ensures IsWalk(u, p) && Cost(u, p) == Cost(t, p)
  {
    var l := |p| - 1;
    ExtensionNodeWeight(u, t, l, p[l]);
    if l > 0 {
      ExtensionCost(u, t, p[..l]);
      ExtensionEdgeWeight(u, t, l - 1, p[l - 1], p[l]);
    }
  }

  /** `path_cost` adds with saturation at `u32::MAX`, so it reports the exact cost capped there. */
  method PathCost(t: Trellis, nodes: seq<nat>) returns (cost: u32)
    requires t.Valid() && IsPath(t, nodes)
    ensures cost == if Cost(t, nodes) <= U32_MAX then Cost(t, nodes) else U32_MAX
  {
    cost := t.NodeWeight(0, nodes[0]);
    assert nodes[..1] == [nodes[0]];
    for layer := 0 to |nodes| - 1
      invariant IsWalk(t, nodes[..layer + 1])
      invariant cost == if Cost(t, nodes[..layer + 1]) <= U32_MAX then Cost(t, nodes[..layer + 1]) else U32_MAX
    {
      assert nodes[..layer + 2][..layer + 1] == nodes[..layer + 1];
      var edge := t.EdgeWeight(layer, nodes[layer], nodes[layer + 1]);
      cost := SaturatingAdd(SaturatingAdd(cost, edge), t.NodeWeight(layer + 1, nodes[layer + 1]));
    }
    assert nodes[..|nodes|] == nodes;
  }
}
