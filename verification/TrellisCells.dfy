/** The trellis as the source holds it: fields its mutators overwrite in place. */
module TrellisCells {
  import opened Numbers
  import opened TrellisGraph

  /** How a bulk fill stores a row entry: the caller's "no edge" becomes infinity. */
  function Stored(rows: seq<u32>): (s: seq<u32>)
    ensures |s| == |rows| && forall i {:trigger s[i]} :: 0 <= i < |s| ==> s[i] == rows[i] || (rows[i] == NO_EDGE && s[i] == INF_W)
    ensures forall i {:trigger s[i]} :: 0 <= i < |s| ==> s[i] != NO_EDGE
  {
    seq(|rows|, i requires 0 <= i < |rows| => if rows[i] == NO_EDGE then INF_W else rows[i])
  }

  predicate TooLarge(w: u32) { w != NO_EDGE && w > MAX_WEIGHT }

  /** Position of the first entry a bulk fill rejects. */
  function FirstTooLarge(rows: seq<u32>, i: nat): (r: Option<nat>)
    requires i <= |rows|
    ensures r.Some? ==> i <= r.value < |rows| && TooLarge(rows[r.value])
    ensures forall k :: i <= k < (if r.Some? then r.value else |rows|) ==> !TooLarge(rows[k])
    decreases |rows| - i
  {
    if i == |rows| then None else if TooLarge(rows[i]) then Some(i) else FirstTooLarge(rows, i + 1)
  }

  /** Position of the first node weight above the ceiling. */
  function FirstAboveCeiling(weights: seq<u32>, i: nat): (r: Option<nat>)
    requires i <= |weights|
    ensures r.Some? ==> i <= r.value < |weights| && weights[r.value] > MAX_WEIGHT
    ensures forall k :: i <= k < (if r.Some? then r.value else |weights|) ==> weights[k] <= MAX_WEIGHT
    decreases |weights| - i
  {
    if i == |weights| then None else if weights[i] > MAX_WEIGHT then Some(i) else FirstAboveCeiling(weights, i + 1)
  }

  /** Every edge but one reads as before. */
  ghost predicate OnlyEdgeChanged(before: Trellis, after: Trellis, layer: nat, from: nat, to: nat) {
    before.Valid() && after.Valid() && before.widths == after.widths &&
    forall l: nat, i: nat, j: nat {:trigger after.EdgeWeight(l, i, j)} ::
      after.Has(l, i) && after.Has(l + 1, j) && (l != layer || i != from || j != to) ==>
      after.EdgeWeight(l, i, j) == before.EdgeWeight(l, i, j)
  }

  /** What a boundary's matrix reads as before any edge of it is set. */
  ghost function Current(t: Trellis, layer: nat): seq<u32>
    requires t.Valid() && layer + 1 < |t.widths|
  {
    if t.transitions[layer].Pending? then seq(t.widths[layer] * t.widths[layer + 1], _ => INF_W)
    else t.transitions[layer].weights
  }

  lemma SlotExists(t: Trellis, layer: nat, from: nat, to: nat)
    requires t.Valid() && layer + 1 < |t.widths| && from < t.widths[layer] && to < t.widths[layer + 1]
    ensures |Current(t, layer)| == t.widths[layer] * t.widths[layer + 1]
    ensures 0 <= from * t.widths[layer + 1] + to < |Current(t, layer)|
    ensures forall x :: 0 <= x < |Current(t, layer)| ==> Current(t, layer)[x] <= INF_W
    ensures t.EdgeWeight(layer, from, to) == Current(t, layer)[from * t.widths[layer + 1] + to]
  {
    assert t.TransitionFits(layer);
    RowMajorBound(from, to, t.widths[layer], t.widths[layer + 1]);
  }

  /** Overwriting one slot of a boundary changes that edge and no other. */
  lemma EdgeIsSet(t: Trellis, layer: nat, from: nat, to: nat, weight: u32, next: seq<u32>)
    requires t.Valid() && layer + 1 < |t.widths| && from < t.widths[layer] && to < t.widths[layer + 1] && weight <= MAX_WEIGHT
    requires 0 <= from * t.widths[layer + 1] + to < |Current(t, layer)|
    requires next == Current(t, layer)[from * t.widths[layer + 1] + to := weight]
    ensures var after := t.WithTransition(layer, Resolved(next));
      after.Valid() && after.EdgeWeight(layer, from, to) == weight && OnlyEdgeChanged(t, after, layer, from, to)
  {
    SlotExists(t, layer, from, to);
    WithTransitionIsValid(t, layer, Resolved(next));
    var after := t.WithTransition(layer, Resolved(next));
    forall l: nat, i: nat, j: nat | after.Has(l, i) && after.Has(l + 1, j) && (l != layer || i != from || j != to)
      ensures after.EdgeWeight(l, i, j) == t.EdgeWeight(l, i, j)
    {
      if l == layer {
        OtherEdgeStays(t, layer, from, to, weight, next, i, j);
      }
    }
  }

  lemma OtherEdgeStays(t: Trellis, layer: nat, from: nat, to: nat, weight: u32, next: seq<u32>, i: nat, j: nat)
    requires t.Valid() && layer + 1 < |t.widths| && from < t.widths[layer] && to < t.widths[layer + 1]
    requires 0 <= from * t.widths[layer + 1] + to < |Current(t, layer)|
    requires next == Current(t, layer)[from * t.widths[layer + 1] + to := weight]
    requires t.WithTransition(layer, Resolved(next)).Valid() && t.Has(layer, i) && t.Has(layer + 1, j) && (i != from || j != to)
    ensures t.WithTransition(layer, Resolved(next)).EdgeWeight(layer, i, j) == t.EdgeWeight(layer, i, j)
  {
    SlotExists(t, layer, i, j);
    RowMajorInjective(i, j, from, to, t.widths[layer + 1]);
  }

  class TrellisCell {
    var widths: seq<nat>
    var nodes: seq<u32>
    var transitions: seq<Transition>

    function Value(): Trellis
      reads this
    {
      Trellis(widths, nodes, transitions)
    }

    constructor (t: Trellis)
      ensures Value() == t
    {
      widths, nodes, transitions := t.widths, t.nodes, t.transitions;
    }

    /** A new layer of zero-weight nodes behind a pending boundary; zero width is refused. */
    method AddLayer(width: nat) returns (r: Result<nat, TrellisError>)
      requires Value().Valid()
      modifies this
      ensures Value().Valid()
      ensures width == 0 ==> r == Err(ZeroWidthLayer(|old(widths)|)) && Value() == old(Value())
      ensures width > 0 ==> r == Ok(|old(widths)|) && Value() == old(Value()).Append(seq(width, _ => 0))
    {
      var id := |widths|;
      if width == 0 {
        return Err(ZeroWidthLayer(id));
      }
      AppendIsValid(Value(), seq(width, _ => 0));
      widths := widths + [width];
      nodes := nodes + seq(width, _ => 0);
      transitions := transitions + [Pending];
      r := Ok(id);
    }

    /** Replace a layer's node weights, touching no other layer, or refuse and change nothing. */
    method FillNodes(layer: nat, weights: seq<u32>) returns (r: Result<(), TrellisError>)
      requires Value().Valid()
      modifies this`nodes
      ensures Value().Valid()
      ensures r == if layer >= |widths| then Err(LayerOutOfRange(layer))
                   else if |weights| != widths[layer] then Err(NodeLenMismatch(layer, widths[layer], |weights|))
                   else match FirstAboveCeiling(weights, 0)
                     case Some(i) => Err(WeightTooLarge(weights[i]))
                     case None => Ok(())
      ensures r.Err? ==> Value() == old(Value())
      ensures r.Ok? ==> Value() == old(Value()).WithNodes(layer, weights)
    {
      if layer >= |widths| {
        return Err(LayerOutOfRange(layer));
      }
      if |weights| != widths[layer] {
        return Err(NodeLenMismatch(layer, widths[layer], |weights|));
      }
      var bad := FirstAboveCeiling(weights, 0);
      if bad.Some? {
        return Err(WeightTooLarge(weights[bad.value]));
      }
      var start := Start(widths, layer);
      StartMonotone(widths, layer + 1, |widths|);
      WithNodesIsValid(Value(), layer, weights);
      nodes := nodes[..start] + weights + nodes[start + |weights|..];
      r := Ok(());
    }

    /** Bulk-fill a boundary, or refuse and change nothing. */
    method FillTransition(layer: nat, rows: seq<u32>) returns (r: Result<(), TrellisError>)
      requires Value().Valid()
      modifies this`transitions
      ensures Value().Valid()
      ensures r == if layer + 1 >= |widths| then Err(LayerOutOfRange(layer))
                   else if |rows| != widths[layer] * widths[layer + 1] then
                     Err(TransitionLenMismatch(layer, widths[layer] * widths[layer + 1], |rows|))
                   else match FirstTooLarge(rows, 0)
                     case Some(i) => Err(WeightTooLarge(rows[i]))
                     case None => Ok(())
      ensures r.Err? ==> Value() == old(Value())
      ensures r.Ok? ==> Value() == old(Value()).WithTransition(layer, Resolved(Stored(rows)))
    {
      if layer + 1 >= |widths| {
        return Err(LayerOutOfRange(layer));
      }
      var expected := widths[layer] * widths[layer + 1];
      if |rows| != expected {
        return Err(TransitionLenMismatch(layer, expected, |rows|));
      }
      var bad := FirstTooLarge(rows, 0);
      if bad.Some? {
        return Err(WeightTooLarge(rows[bad.value]));
      }
      WithTransitionIsValid(Value(), layer, Resolved(Stored(rows)));
      transitions := transitions[layer := Resolved(Stored(rows))];
      r := Ok(());
    }

    /** One edge: it reads back as written, and every other edge and node reads as before. */
    method SetEdge(layer: nat, from: nat, to: nat, weight: u32) returns (r: Result<(), TrellisError>)
      requires Value().Valid()
      modifies this`transitions
      ensures Value().Valid()
      ensures r == if weight > MAX_WEIGHT then Err(WeightTooLarge(weight))
                   else if layer + 1 >= |widths| then Err(LayerOutOfRange(layer))
                   else if from >= widths[layer] then Err(NodeOutOfRange(layer, from))
                   else if to >= widths[layer + 1] then Err(NodeOutOfRange(layer + 1, to))
                   else Ok(())
      ensures r.Err? ==> Value() == old(Value())
      ensures r.Ok? ==> transitions[layer].Resolved? && Value().EdgeWeight(layer, from, to) == weight
      ensures r.Ok? ==> OnlyEdgeChanged(old(Value()), Value(), layer, from, to)
    {
      if weight > MAX_WEIGHT {
        return Err(WeightTooLarge(weight));
      }
      if layer + 1 >= |widths| {
        return Err(LayerOutOfRange(layer));
      }
      if from >= widths[layer] {
        return Err(NodeOutOfRange(layer, from));
      }
      if to >= widths[layer + 1] {
        return Err(NodeOutOfRange(layer + 1, to));
      }
      ghost var before := Value();
      SlotExists(before, layer, from, to);
      var current := if transitions[layer].Pending?
                     then seq(widths[layer] * widths[layer + 1], _ => INF_W)
                     else transitions[layer].weights;
      var next := current[from * widths[layer + 1] + to := weight];
      transitions := transitions[layer := Resolved(next)];
      EdgeIsSet(before, layer, from, to, weight, next);
      r := Ok(());
    }

    /** Discard a boundary's edges: every edge across it reads as absent again. */
    method MarkPending(layer: nat) returns (r: Result<(), TrellisError>)
      requires Value().Valid()
      modifies this`transitions
      ensures Value().Valid()
      ensures layer >= |old(transitions)| ==> r == Err(LayerOutOfRange(layer)) && Value() == old(Value())
      ensures layer < |old(transitions)| ==> r == Ok(()) && Value() == old(Value()).WithTransition(layer, Pending)
    {
      if layer >= |transitions| {
        return Err(LayerOutOfRange(layer));
      }
      WithTransitionIsValid(Value(), layer, Pending);
      transitions := transitions[layer := Pending];
      r := Ok(());
    }
  }
}
