/** The solver's loops over the flat table, proved against the recurrence in `Viterbi`. */
module ViterbiSolver {
  import opened Numbers
  import opened TrellisGraph
  import opened Viterbi

  /** The first `layers` layers of the flat table hold the recurrence. */
  ghost predicate IsTable(t: Trellis, dist: seq<u32>, layers: nat)
    requires t.Valid() && layers <= t.Layers()
  {
    && |dist| == |t.nodes|
    && forall l: nat, n: nat {:trigger Cell(t, dist, l, n)} :: l < layers && t.Has(l, n) ==> Cell(t, dist, l, n) == Dist(t, l, n)
  }

  function Cell(t: Trellis, dist: seq<u32>, l: nat, n: nat): u32
    requires t.Valid() && t.Has(l, n) && |dist| == |t.nodes|
  {
    NodeIndexBound(t, l, n);
    dist[Start(t.widths, l) + n]
  }

  /** The first boundary still pending, as both solvers report it. */
  function FirstPendingFrom(t: Trellis, k: nat): (r: Option<nat>)
    requires k <= |t.transitions|
    ensures r.Some? ==> k <= r.value < |t.transitions| && t.transitions[r.value].Pending?
    ensures forall j :: k <= j < (if r.Some? then r.value else |t.transitions|) ==> t.transitions[j].Resolved?
    decreases |t.transitions| - k
  {
    if k == |t.transitions| then None
    else if t.transitions[k].Pending? then Some(k)
    else FirstPendingFrom(t, k + 1)
  }

  /** One source row: every cost of layer `l` is lowered to what source `i` offers, if it is live. */
  method RelaxRow(t: Trellis, l: nat, i: nat, dist: array<u32>)
    requires t.Valid() && 0 < l < t.Layers() && t.transitions[l - 1].Resolved? && t.Has(l - 1, i)
    requires IsTable(t, dist[..], l)
    requires forall j :: 0 <= j < t.widths[l] ==> Cell(t, dist[..], l, j) == Inflow(t, l, j, i)
    modifies dist
    ensures IsTable(t, dist[..], l)
    ensures forall j :: 0 <= j < t.widths[l] ==> Cell(t, dist[..], l, j) == Inflow(t, l, j, i + 1)
  {
    var cur, next := Start(t.widths, l - 1), Start(t.widths, l);
    NodeIndexBound(t, l - 1, i);
    var cost := dist[cur + i];
    assert cost == Cell(t, dist[..], l - 1, i) == Dist(t, l - 1, i);
    if cost >= INF_W {
      return;
    }
    ghost var before := dist[..];
    for j := 0 to t.widths[l]
      invariant forall x :: 0 <= x < dist.Length && !(next <= x < next + j) ==> dist[x] == before[x]
      invariant forall x :: next <= x < next + j <= dist.Length ==> dist[x] == Inflow(t, l, x - next, i + 1)
    {
      NodeIndexBound(t, l, j);
      assert before[next + j] == Cell(t, before, l, j);
      OneSourceMore(t, l, i, j);
      var offer: u32 := cost + t.EdgeWeight(l - 1, i, j);
      dist[next + j] := Min(dist[next + j], offer);
    }
    forall j | 0 <= j < t.widths[l]
      ensures Cell(t, dist[..], l, j) == Inflow(t, l, j, i + 1)
    {
      NodeIndexBound(t, l, j);
      assert dist[next + j] == Inflow(t, l, next + j - next, i + 1);
    }
    TableFrame(t, before, dist[..], l);
  }

  /** What a live source adds to a node's inflow. */
  lemma OneSourceMore(t: Trellis, l: nat, i: nat, j: nat)
    requires t.Valid() && 0 < l && t.Has(l, j) && t.Has(l - 1, i) && Live(t, l - 1, i)
    ensures Inflow(t, l, j, i + 1) == Min(Inflow(t, l, j, i), Dist(t, l - 1, i) + t.EdgeWeight(l - 1, i, j))
  {
  }

  /** Writing at or beyond a layer's start leaves the table of the layers before it. */
  lemma TableFrame(t: Trellis, before: seq<u32>, after: seq<u32>, layers: nat)
    requires t.Valid() && layers < t.Layers() && IsTable(t, before, layers) && |after| == |before|
    requires forall x :: 0 <= x < Start(t.widths, layers) <= |before| ==> after[x] == before[x]
    ensures IsTable(t, after, layers)
  {
    forall l: nat, n: nat | l < layers && t.Has(l, n)
      ensures Cell(t, after, l, n) == Dist(t, l, n)
    {
      NodeIndexBound(t, l, n);
      StartMonotone(t.widths, l + 1, layers);
      StartMonotone(t.widths, layers, |t.widths|);
      assert Cell(t, before, l, n) == Dist(t, l, n);
    }
  }

  /** One boundary: reset layer `l`, relax every source row into it, then pay the entered nodes. */
  method CrossInto(t: Trellis, l: nat, dist: array<u32>)
    requires t.Valid() && 0 < l < t.Layers() && t.transitions[l - 1].Resolved?
    requires IsTable(t, dist[..], l)
    modifies dist
    ensures IsTable(t, dist[..], l + 1)
  {
    var next := Start(t.widths, l);
    StartMonotone(t.widths, l + 1, |t.widths|);
    ghost var entry := dist[..];
    for j := 0 to t.widths[l]
      invariant forall x :: 0 <= x < next ==> dist[x] == entry[x]
      invariant forall x :: next <= x < next + j ==> dist[x] == INF_W
    {
      dist[next + j] := INF_W;
    }
    TableFrame(t, entry, dist[..], l);
    for i := 0 to t.widths[l - 1]
      invariant IsTable(t, dist[..], l)
      invariant forall j :: 0 <= j < t.widths[l] ==> Cell(t, dist[..], l, j) == Inflow(t, l, j, i)
    {
      RelaxRow(t, l, i, dist);
    }
    PayNodes(t, l, dist);
  }

  /** Add to every reached node what it weighs. */
  method PayNodes(t: Trellis, l: nat, dist: array<u32>)
    requires t.Valid() && 0 < l < t.Layers() && IsTable(t, dist[..], l)
    requires forall j :: 0 <= j < t.widths[l] ==> Cell(t, dist[..], l, j) == Inflow(t, l, j, t.widths[l - 1])
    modifies dist
    ensures IsTable(t, dist[..], l + 1)
  {
    var next, width := Start(t.widths, l), t.widths[l];
    StartMonotone(t.widths, l + 1, |t.widths|);
    ghost var before := dist[..];
    for j := 0 to width
      invariant forall x :: 0 <= x < dist.Length && !(next <= x < next + j) ==> dist[x] == before[x]
      invariant forall m :: 0 <= m < j ==> Cell(t, dist[..], l, m) == Dist(t, l, m)
    {
      assert before[next + j] == Cell(t, before, l, j);
      if dist[next + j] < INF_W {
        dist[next + j] := dist[next + j] + t.NodeWeight(l, j);
      }
    }
    TableFrame(t, before, dist[..], l);
  }

  /** The forward pass fills the whole table; every sum it stores fits 32 bits. */
  method ForwardPass(t: Trellis, dist: array<u32>)
    requires t.Valid() && t.FullyResolved() && dist[..] == t.nodes
    modifies dist
    ensures IsTable(t, dist[..], t.Layers())
  {
    for l := 1 to t.Layers()
      invariant IsTable(t, dist[..], l)
    {
      CrossInto(t, l, dist);
    }
  }

  /** The predecessor as the solver reads it from the table, over the first `k` sources. */
  function CheapestInto(t: Trellis, dist: seq<u32>, l: nat, chosen: nat, k: nat): (i: nat)
    requires t.Valid() && t.FullyResolved() && IsTable(t, dist, t.Layers())
    requires 0 < l && t.Has(l, chosen) && 0 < k <= t.widths[l - 1]
    ensures i == BestOf(t, l, chosen, k)
  {
    if k == 1 then 0 else
    var i := CheapestInto(t, dist, l, chosen, k - 1);
    var best := SaturatingAdd(Cell(t, dist, l - 1, i), t.EdgeWeight(l - 1, i, chosen));
    var last := SaturatingAdd(Cell(t, dist, l - 1, k - 1), t.EdgeWeight(l - 1, k - 1, chosen));
    if last < best then k - 1 else i
  }

  function ReadPredecessor(t: Trellis, dist: seq<u32>, l: nat, chosen: nat): (i: nat)
    requires t.Valid() && t.FullyResolved() && IsTable(t, dist, t.Layers()) && 0 < l && t.Has(l, chosen)
    ensures i == Predecessor(t, l, chosen)
  {
    CheapestInto(t, dist, l, chosen, t.widths[l - 1])
  }

  /** The best final node as the solver reads it from the table, over the first `k` nodes. */
  function CheapestFinal(t: Trellis, dist: seq<u32>, k: nat): (n: nat)
    requires t.Valid() && IsTable(t, dist, t.Layers()) && 0 < k <= t.widths[t.Layers() - 1]
    ensures n == BestFinal(t, k)
  {
    if k == 1 then 0 else
    var i := CheapestFinal(t, dist, k - 1);
    var l := t.Layers() - 1;
    if Cell(t, dist, l, k - 1) < Cell(t, dist, l, i) then k - 1 else i
  }

  /** Follow predecessors from a final node back to the first layer. */
  method Trace(t: Trellis, dist: seq<u32>, final: nat) returns (nodes: seq<nat>)
    requires t.Valid() && t.FullyResolved() && IsTable(t, dist, t.Layers()) && t.Has(t.Layers() - 1, final)
    ensures nodes == Back(t, t.Layers() - 1, final)
  {
    var last := t.Layers() - 1;
    var chosen := final;
    nodes := [final];
    ghost var whole := Back(t, last, final);
    for l := last downto 0
      invariant t.Has(l, chosen) && nodes == whole[l..] && chosen == whole[l]
    {
      BackStep(t, last, final, l + 1);
      chosen := ReadPredecessor(t, dist, l + 1, chosen);
      nodes := [chosen] + nodes;
    }
  }

  /** Pick the best final node, refuse it at infinity, else trace its path. */
  method Backtrack(t: Trellis, dist: seq<u32>) returns (r: Result<Path, SolveError>)
    requires t.Valid() && t.FullyResolved() && IsTable(t, dist, t.Layers())
    ensures r == if Solvable(t) then Ok(Answer(t)) else Err(Unreachable)
  {
    var final := CheapestFinal(t, dist, t.widths[t.Layers() - 1]);
    var bestCost := Cell(t, dist, t.Layers() - 1, final);
    if bestCost >= INF_W {
      return Err(Unreachable);
    }
    var nodes := Trace(t, dist, final);
    r := Ok(Path(nodes, bestCost));
  }

  /** The whole solver: refuses the first pending boundary, else answers the optimum. */
  method Solve(t: Trellis) returns (r: Result<Path, SolveError>)
    requires t.Valid()
    ensures !t.FullyResolved() ==> r == Err(NotResolved(FirstPendingFrom(t, 0).value))
    ensures t.FullyResolved() ==> r == if Solvable(t) then Ok(Answer(t)) else Err(Unreachable)
  {
    var pending := FirstPendingFrom(t, 0);
    if pending.Some? {
      return Err(NotResolved(pending.value));
    }
    var dist := new u32[|t.nodes|](i requires 0 <= i < |t.nodes| => t.nodes[i]);
    assert dist[..] == t.nodes;
    ForwardPass(t, dist);
    r := Backtrack(t, dist[..]);
  }
}
