/** The layered graph of `routers_trellis`: flat node weights, one transition per boundary. */
module TrellisGraph {
  import opened Numbers

  /** The in-band infinity of the dynamic-programming tables. */
  const INF_W: u32 := 0x4000_0000

  /** The largest weight a real edge or node may carry. */
  const MAX_WEIGHT: u32 := 0x3FFF_FFFF

  /** What a caller writes for "no edge"; stored as `INF_W`. */
  const NO_EDGE: u32 := 0xFFFF_FFFF

  datatype Transition = Pending | Resolved(weights: seq<u32>)

  datatype TrellisError =
    | Empty
    | ZeroWidthLayer(layer: nat)
    | LayerOutOfRange(layer: nat)
    | NodeOutOfRange(layer: nat, node: nat)
    | WeightTooLarge(weight: u32)
    | TransitionLenMismatch(layer: nat, expected: nat, got: nat)
    | NodeLenMismatch(layer: nat, expected: nat, got: nat)

  /** Where layer `l` starts in the flat, layer-major node buffer. */
  function Start(widths: seq<nat>, l: nat): nat
    requires l <= |widths|
  {
    if l == 0 then 0 else Start(widths, l - 1) + widths[l - 1]
  }

  datatype Trellis = Trellis(widths: seq<nat>, nodes: seq<u32>, transitions: seq<Transition>) {

    function Layers(): nat { |widths| }

    /** What every constructor and mutator maintains. */
    ghost predicate Valid() {
      && |widths| > 0
      && (forall l :: 0 <= l < |widths| ==> widths[l] > 0)
      && |nodes| == Start(widths, |widths|)
      && (forall x :: 0 <= x < |nodes| ==> nodes[x] <= MAX_WEIGHT)
      && |transitions| == |widths| - 1
      && (forall k :: 0 <= k < |transitions| ==> TransitionFits(k))
    }

    ghost predicate TransitionFits(k: nat)
      requires k < |transitions| && k + 1 < |widths|
    {
      transitions[k].Resolved? ==>
        && |transitions[k].weights| == widths[k] * widths[k + 1]
        && forall x :: 0 <= x < |transitions[k].weights| ==> transitions[k].weights[x] <= INF_W
    }

    ghost predicate FullyResolved() {
      forall k :: 0 <= k < |transitions| ==> transitions[k].Resolved?
    }

    /** Whether `n` names a node of layer `l`. */
    predicate Has(l: nat, n: nat) { l < |widths| && n < widths[l] }

    function NodeWeight(l: nat, n: nat): (w: u32)
      requires Valid() && Has(l, n)
      ensures w <= MAX_WEIGHT
    {
      NodeIndexBound(this, l, n);
      nodes[Start(widths, l) + n]
    }

    /** A pending boundary has no edges, so every edge across it weighs `INF_W`. */
    function EdgeWeight(l: nat, from: nat, to: nat): (w: u32)
      requires Valid() && Has(l, from) && Has(l + 1, to)
      ensures w <= INF_W
    {
      if transitions[l].Pending? then INF_W else
      RowMajorBound(from, to, widths[l], widths[l + 1]);
      assert TransitionFits(l);
      transitions[l].weights[from * widths[l + 1] + to]
    }

    /** The suffix that starts with layer `c`, as windowing cuts it. */
    function From(c: nat): Trellis
      requires Valid() && c < |widths|
    {
      StartMonotone(widths, c, |widths|);
      Trellis(widths[c..], nodes[Start(widths, c)..], transitions[c..])
    }

    /** A window of the newest `n` layers: everything when there are fewer, an error for none. */
    function Last(n: nat): Result<Trellis, TrellisError>
      requires Valid()
    {
      if n == 0 then Err(Empty)
      else if n >= |widths| then Ok(this)
      else Ok(From(|widths| - n))
    }

    /** Layers `start` up to but not including `end`, or what is wrong with that range. */
    function Partition(start: nat, end: nat): (r: Result<Trellis, TrellisError>)
      requires Valid()
      ensures r.Err? ==> r.error == (if start < end then LayerOutOfRange(end) else Empty)
      ensures r.Ok? <==> start < end <= |widths|
    {
      if start >= end then Err(Empty)
      else if end > |widths| then Err(LayerOutOfRange(end))
      else
        StartMonotone(widths, start, end);
        StartMonotone(widths, end, |widths|);
        Ok(Trellis(widths[start..end], nodes[Start(widths, start)..Start(widths, end)], transitions[start..end - 1]))
    }

    /** The trellis after a layer of width `|weights|` with those node weights is appended. */
    function Append(weights: seq<u32>): Trellis {
      Trellis(widths + [|weights|], nodes + weights, transitions + [Pending])
    }

    /** The trellis with layer `l`'s node weights replaced. */
    function WithNodes(l: nat, weights: seq<u32>): Trellis
      requires Valid() && l < |widths| && |weights| == widths[l]
    {
      StartMonotone(widths, l + 1, |widths|);
      var s := Start(widths, l);
      this.(nodes := nodes[..s] + weights + nodes[s + |weights|..])
    }

    /** The trellis with boundary `k` replaced. */
    function WithTransition(k: nat, tr: Transition): Trellis
      requires k < |transitions|
    {
      this.(transitions := transitions[k := tr])
    }
  }

  lemma {:induction false} StartMonotone(widths: seq<nat>, a: nat, b: nat)
    requires a <= b <= |widths|
    ensures Start(widths, a) <= Start(widths, b)
    decreases b - a
  {
    if a < b {
      StartMonotone(widths, a, b - 1);
    }
  }

  lemma NodeIndexBound(t: Trellis, l: nat, n: nat)
    requires t.Has(l, n) && |t.nodes| == Start(t.widths, |t.widths|)
    ensures Start(t.widths, l) + n < Start(t.widths, l + 1) <= |t.nodes|
  {
    StartMonotone(t.widths, l + 1, |t.widths|);
  }

  lemma {:induction false} StartOfPrefix(ws: seq<nat>, vs: seq<nat>, l: nat)
    requires ws <= vs && l <= |ws|
    ensures Start(vs, l) == Start(ws, l)
  {
    if l > 0 {
      StartOfPrefix(ws, vs, l - 1);
    }
  }

  lemma {:induction false} StartOfSuffix(ws: seq<nat>, c: nat, l: nat)
    requires c + l <= |ws|
    ensures Start(ws, c + l) == Start(ws, c) + Start(ws[c..], l)
  {
    if l > 0 {
      StartOfSuffix(ws, c, l - 1);
    }
  }

  lemma CutIsValid(t: Trellis, c: nat)
    requires t.Valid() && c < t.Layers()
    ensures t.From(c).Valid()
    ensures t.FullyResolved() ==> t.From(c).FullyResolved()
  {
    var s := t.From(c);
    StartOfSuffix(t.widths, c, |s.widths|);
    StartMonotone(t.widths, c, |t.widths|);
    forall k | 0 <= k < |s.transitions|
      ensures s.TransitionFits(k)
    {
      assert t.TransitionFits(c + k);
    }
  }

  /** A partition is a valid trellis, the first layers of the suffix that starts with it. */
  lemma PartitionIsValid(t: Trellis, start: nat, end: nat)
    requires t.Valid() && start < end <= t.Layers()
    ensures t.From(start).Valid() && t.Partition(start, end).Ok?
    ensures t.Partition(start, end).value.Valid() && t.Partition(start, end).value.Layers() == end - start
    ensures Extends(t.From(start), t.Partition(start, end).value)
  {
    CutIsValid(t, start);
    var s, p := t.From(start), t.Partition(start, end).value;
    StartMonotone(t.widths, start, end);
    StartMonotone(t.widths, end, t.Layers());
    StartOfSuffix(t.widths, start, end - start);
    StartOfPrefix(p.widths, s.widths, end - start);
    assert p.nodes == s.nodes[..|p.nodes|] && p.transitions == s.transitions[..|p.transitions|];
    forall k | 0 <= k < |p.transitions|
      ensures p.TransitionFits(k)
    {
      assert s.TransitionFits(k) && p.transitions[k] == s.transitions[k];
    }
  }

  /** A partition keeps every node weight of its layers, shifted by its start. */
  lemma PartitionNodeWeight(t: Trellis, start: nat, end: nat, l: nat, n: nat)
    requires t.Valid() && start < end <= t.Layers() && start + l < end && t.Has(start + l, n)
    ensures t.Partition(start, end).Ok? && t.Partition(start, end).value.Valid() && t.Partition(start, end).value.Has(l, n)
    ensures t.Partition(start, end).value.NodeWeight(l, n) == t.NodeWeight(start + l, n)
  {
    PartitionIsValid(t, start, end);
    CutNodeWeight(t, start, l, n);
    ExtensionNodeWeight(t.From(start), t.Partition(start, end).value, l, n);
  }

  /** A partition keeps every interior edge of its layers, shifted by its start. */
  lemma PartitionEdgeWeight(t: Trellis, start: nat, end: nat, l: nat, i: nat, j: nat)
    requires t.Valid() && start < end <= t.Layers() && start + l + 1 < end && t.Has(start + l, i) && t.Has(start + l + 1, j)
    ensures t.Partition(start, end).Ok? && t.Partition(start, end).value.Valid()
    ensures t.Partition(start, end).value.Has(l, i) && t.Partition(start, end).value.Has(l + 1, j)
    ensures t.Partition(start, end).value.EdgeWeight(l, i, j) == t.EdgeWeight(start + l, i, j)
  {
    PartitionIsValid(t, start, end);
    CutEdgeWeight(t, start, l, i, j);
    ExtensionEdgeWeight(t.From(start), t.Partition(start, end).value, l, i, j);
  }

  /** The last layers are the partition up to the end, and asking for none is the empty range's error. */
  lemma LastIsAPartition(t: Trellis, n: nat)
    requires t.Valid()
    ensures t.Last(n) == t.Partition(if n <= t.Layers() then t.Layers() - n else 0, t.Layers())
  {
    if n > 0 {
      var start := if n <= t.Layers() then t.Layers() - n else 0;
      StartMonotone(t.widths, start, t.Layers());
      var p, s := t.Partition(start, t.Layers()).value, t.From(start);
      assert p.widths == s.widths && p.nodes == s.nodes && p.transitions == s.transitions;
      assert start == 0 ==> s == t;
    }
  }

  /** A suffix cut keeps every surviving node weight, shifted by the cut. */
  lemma CutNodeWeight(t: Trellis, c: nat, l: nat, n: nat)
    requires t.Valid() && c < t.Layers() && t.From(c).Valid() && t.Has(c + l, n)
    ensures t.From(c).Has(l, n) && t.From(c).NodeWeight(l, n) == t.NodeWeight(c + l, n)
  {
    StartOfSuffix(t.widths, c, l);
    NodeIndexBound(t, c + l, n);
    NodeIndexBound(t.From(c), l, n);
  }

  /** A suffix cut keeps every surviving interior edge, shifted by the cut. */
  lemma CutEdgeWeight(t: Trellis, c: nat, l: nat, i: nat, j: nat)
    requires t.Valid() && c < t.Layers() && t.From(c).Valid() && t.Has(c + l, i) && t.Has(c + l + 1, j)
    ensures t.From(c).Has(l, i) && t.From(c).Has(l + 1, j)
    ensures t.From(c).EdgeWeight(l, i, j) == t.EdgeWeight(c + l, i, j)
  {
    assert t.From(c).transitions[l] == t.transitions[c + l];
  }

  /** `u` has `t`'s layers and boundaries first, then any number more. */
  ghost predicate Extends(u: Trellis, t: Trellis) {
    t.widths <= u.widths && t.nodes <= u.nodes && t.transitions <= u.transitions
  }

  lemma ExtensionNodeWeight(u: Trellis, t: Trellis, l: nat, n: nat)
    requires t.Valid() && u.Valid() && Extends(u, t) && t.Has(l, n)
    ensures u.Has(l, n) && u.NodeWeight(l, n) == t.NodeWeight(l, n)
  {
    StartOfPrefix(t.widths, u.widths, l);
    NodeIndexBound(t, l, n);
  }

  lemma ExtensionEdgeWeight(u: Trellis, t: Trellis, l: nat, i: nat, j: nat)
    requires t.Valid() && u.Valid() && Extends(u, t) && t.Has(l, i) && t.Has(l + 1, j)
    ensures u.Has(l, i) && u.Has(l + 1, j) && u.EdgeWeight(l, i, j) == t.EdgeWeight(l, i, j)
  {
    assert u.transitions[l] == t.transitions[l];
  }

  /** Cutting commutes with growing: the cut of a grown trellis is the grown cut. */
  lemma CutOfExtension(u: Trellis, t: Trellis, c: nat)
    requires t.Valid() && u.Valid() && Extends(u, t) && c < t.Layers()
    ensures Extends(u.From(c), t.From(c))
    ensures |u.widths| - |t.widths| == |u.From(c).widths| - |t.From(c).widths|
    ensures u.widths[|t.widths|..] == u.From(c).widths[|t.From(c).widths|..]
    ensures u.nodes[|t.nodes|..] == u.From(c).nodes[|t.From(c).nodes|..]
    ensures u.transitions[|t.transitions|..] == u.From(c).transitions[|t.From(c).transitions|..]
  {
    StartOfPrefix(t.widths, u.widths, c);
    StartMonotone(t.widths, c, |t.widths|);
    StartMonotone(u.widths, c, |u.widths|);
  }

  lemma AppendIsValid(t: Trellis, weights: seq<u32>)
    requires t.Valid() && |weights| > 0
    requires forall x :: 0 <= x < |weights| ==> weights[x] <= MAX_WEIGHT
    ensures t.Append(weights).Valid() && Extends(t.Append(weights), t)
  {
    var u := t.Append(weights);
    StartOfPrefix(t.widths, u.widths, |t.widths|);
    forall k | 0 <= k < |u.transitions|
      ensures u.TransitionFits(k)
    {
      if k < |t.transitions| {
        assert t.TransitionFits(k);
      }
    }
  }

  /** Whether `tr` may sit on boundary `k` of `t`. */
  ghost predicate Fits(t: Trellis, k: nat, tr: Transition)
    requires k + 1 < |t.widths|
  {
    tr.Resolved? ==>
      && |tr.weights| == t.widths[k] * t.widths[k + 1]
      && forall x :: 0 <= x < |tr.weights| ==> tr.weights[x] <= INF_W
  }

  lemma WithTransitionIsValid(t: Trellis, k: nat, tr: Transition)
    requires t.Valid() && k < |t.transitions| && Fits(t, k, tr)
    ensures t.WithTransition(k, tr).Valid()
  {
    var u := t.WithTransition(k, tr);
    forall j | 0 <= j < |u.transitions|
      ensures u.TransitionFits(j)
    {
      assert t.TransitionFits(j);
    }
  }

  /** Replacing a layer's node weights changes what that layer's nodes weigh and nothing else. */
  lemma WithNodesWeights(t: Trellis, layer: nat, weights: seq<u32>, l: nat, n: nat)
    requires t.Valid() && layer < t.Layers() && |weights| == t.widths[layer] && t.WithNodes(layer, weights).Valid()
    requires t.Has(l, n)
    ensures t.WithNodes(layer, weights).NodeWeight(l, n) == if l == layer then weights[n] else t.NodeWeight(l, n)
  {
    NodeIndexBound(t, l, n);
    StartMonotone(t.widths, layer + 1, t.Layers());
    if l < layer {
      StartMonotone(t.widths, l + 1, layer);
    } else if layer < l {
      StartMonotone(t.widths, layer + 1, l);
    }
  }

  lemma WithNodesIsValid(t: Trellis, layer: nat, weights: seq<u32>)
    requires t.Valid() && layer < t.Layers() && |weights| == t.widths[layer]
    requires forall x :: 0 <= x < |weights| ==> weights[x] <= MAX_WEIGHT
    ensures t.WithNodes(layer, weights).Valid()
  {
    var u := t.WithNodes(layer, weights);
    StartMonotone(t.widths, layer + 1, t.Layers());
    forall k | 0 <= k < |u.transitions|
      ensures u.TransitionFits(k)
    {
      assert t.TransitionFits(k);
    }
  }

  /** Appending blank nodes and then filling them is appending the filled layer. */
  lemma AppendThenFill(t: Trellis, weights: seq<u32>)
    requires t.Valid() && |weights| > 0 && t.Append(seq(|weights|, _ => 0)).Valid()
    ensures t.Append(seq(|weights|, _ => 0)).WithNodes(t.Layers(), weights) == t.Append(weights)
  {
    StartOfPrefix(t.widths, t.widths + [|weights|], t.Layers());
  }
}
