/** Weighing: how candidates become the boundary matrices of a trellis. */
module Weighing {
  import opened Numbers
  import opened Observations
  import opened TrellisGraph
  import opened TrellisCells

  /** A road position a point may anchor to: what a candidate is, apart from where it is placed. */
  datatype Anchor = Anchor(id: int, emission: u32)

  /** Positional identity within the candidate store and the trellis. */
  datatype Ref = Ref(layer: nat, node: nat)

  datatype Candidate = Candidate(anchor: Anchor, location: Ref)

  type Store = seq<seq<Candidate>>

  /** A hop between two candidates and the roads it takes. */
  datatype Reachable = Reachable(from: Ref, to: Ref, path: seq<nat>)

  /**
   * One map, one runtime and one set of strategies: the candidate generator, which positions lie on the
   * map at all, the road route between two positions, what the costing charges for it, and which targets
   * a source weighs.
   */
  datatype World = World(
    generate: Point -> seq<Anchor>,
    knows: Anchor -> bool,
    route: (Anchor, Anchor) -> Option<seq<nat>>,
    price: (Anchor, Anchor, seq<nat>) -> Option<u32>,
    select: (Anchor, seq<Anchor>) -> seq<nat>)
  {
    /** A selection names positions of the layer it was given, and candidates are generated on the map. */
    ghost predicate Valid() {
      && (forall a: Anchor, layer: seq<Anchor>, i: nat :: i in select(a, layer) ==> i < |layer|)
      && (forall p: Point, a: Anchor :: a in generate(p) ==> knows(a))
    }

    /** The transition cost between two positions, clamped to the weight ceiling. */
    function Hop(a: Anchor, b: Anchor): (r: Option<u32>)
      ensures r.Some? ==> route(a, b).Some? && r.value <= MAX_WEIGHT
    {
      match route(a, b)
      case None => None
      case Some(path) =>
        match price(a, b, path)
        case None => None
        case Some(cost) => Some(if cost <= MAX_WEIGHT then cost else MAX_WEIGHT)
    }

    /** One entry of a boundary matrix, before storage. */
    function Entry(a: Anchor, layer: seq<Anchor>, j: nat): (w: u32)
      requires j < |layer|
      ensures w != NO_EDGE ==> w <= MAX_WEIGHT && route(a, layer[j]).Some?
    {
      if j in select(a, layer) && Hop(a, layer[j]).Some? then Hop(a, layer[j]).value else NO_EDGE
    }

    function Row(a: Anchor, layer: seq<Anchor>): (row: seq<u32>)
      ensures |row| == |layer| && forall j {:trigger row[j]} :: 0 <= j < |row| ==> row[j] == Entry(a, layer, j)
    {
      seq(|layer|, j requires 0 <= j < |layer| => Entry(a, layer, j))
    }

    /** Source rows stacked in order. */
    function Matrix(from: seq<Anchor>, to: seq<Anchor>): (m: seq<u32>)
      ensures |m| == |from| * |to|
      ensures forall x :: 0 <= x < |m| ==> m[x] == NO_EDGE || m[x] <= MAX_WEIGHT
    {
      if from == [] then [] else
      var n := |from| - 1;
      assert (n + 1) * |to| == n * |to| + |to|;
      Matrix(from[..n], to) + Row(from[n], to)
    }

    /** The boundary as weighing leaves it: resolved, or still pending when nothing bridges it. */
    function Boundary(from: seq<Anchor>, to: seq<Anchor>): Transition {
      var m := Matrix(from, to);
      if forall x :: 0 <= x < |m| ==> m[x] == NO_EDGE then Pending else Resolved(Stored(m))
    }
  }

  lemma {:induction false} MatrixAt(w: World, from: seq<Anchor>, to: seq<Anchor>, i: nat, j: nat)
    requires i < |from| && j < |to|
    ensures 0 <= i * |to| + j < |w.Matrix(from, to)|
    ensures w.Matrix(from, to)[i * |to| + j] == w.Entry(from[i], to, j)
    ensures var path := w.route(from[i], to[j]);
      w.Entry(from[i], to, j) ==
        if j in w.select(from[i], to) && path.Some? && w.price(from[i], to[j], path.value).Some?
        then Min(w.price(from[i], to[j], path.value).value, MAX_WEIGHT) else NO_EDGE
  {
    var n := |from| - 1;
    RowMajorBound(i, j, |from|, |to|);
    if i < n {
      MatrixAt(w, from[..n], to, i, j);
    }
  }

  // ----- The store -----

  function Lookup(store: Store, r: Ref): Option<Candidate> {
    if r.layer < |store| && r.node < |store[r.layer]| then Some(store[r.layer][r.node]) else None
  }

  function Anchors(layer: seq<Candidate>): (s: seq<Anchor>)
    ensures |s| == |layer| && forall n {:trigger s[n]} :: 0 <= n < |s| ==> s[n] == layer[n].anchor
  {
    seq(|layer|, n requires 0 <= n < |layer| => layer[n].anchor)
  }

  /** Every candidate is located where it sits. */
  ghost predicate Stamped(store: Store) {
    forall l, n :: 0 <= l < |store| && 0 <= n < |store[l]| ==> store[l][n].location == Ref(l, n)
  }

  /** How the candidate behind `to` is reached from the one behind `from`. */
  function Reach(w: World, store: Store, from: Ref, to: Ref): Option<Reachable> {
    match (Lookup(store, from), Lookup(store, to))
    case (Some(a), Some(b)) =>
      (match w.route(a.anchor, b.anchor)
       case Some(path) => Some(Reachable(from, to, path))
       case None => None)
    case _ => None
  }

  /** The priced hop between two refs. */
  function HopBetween(w: World, store: Store, from: Ref, to: Ref): Option<u32> {
    match Reach(w, store, from, to)
    case None => None
    case Some(reachable) =>
      match w.price(Lookup(store, from).value.anchor, Lookup(store, to).value.anchor, reachable.path)
      case None => None
      case Some(cost) => Some(if cost <= MAX_WEIGHT then cost else MAX_WEIGHT)
  }

  // ----- The loops -----

  /** One source's row: absent everywhere, then each selected target priced through its ref. */
  method WeighSource(w: World, store: Store, l: nat, i: nat) returns (row: seq<u32>)
    requires w.Valid() && Stamped(store) && l + 1 < |store| && i < |store[l]|
    ensures row == w.Row(store[l][i].anchor, Anchors(store[l + 1])) && |row| == |store[l + 1]|
    ensures forall j :: 0 <= j < |row| ==>
      var a, b := store[l][i].anchor, store[l + 1][j].anchor;
      row[j] == if j in w.select(a, Anchors(store[l + 1])) && w.route(a, b).Some? && w.price(a, b, w.route(a, b).value).Some?
                then Min(w.price(a, b, w.route(a, b).value).value, MAX_WEIGHT) else NO_EDGE
  {
    var source, targets := store[l][i], store[l + 1];
    var chosen := w.select(source.anchor, Anchors(targets));
    row := seq(|targets|, _ => NO_EDGE);
    for k := 0 to |chosen|
      invariant |row| == |targets|
      invariant forall j :: 0 <= j < |targets| ==>
        row[j] == if j in chosen[..k] && w.Hop(source.anchor, targets[j].anchor).Some?
                  then w.Hop(source.anchor, targets[j].anchor).value else NO_EDGE
    {
      var to := chosen[k];
      assert to in chosen && chosen[..k + 1] == chosen[..k] + [to];
      var cost := HopBetween(w, store, source.location, targets[to].location);
      if cost.Some? {
        row := row[to := cost.value];
      }
    }
    assert chosen[..|chosen|] == chosen;
  }

  /** One boundary's row-major matrix. */
  method WeighBoundary(w: World, store: Store, l: nat) returns (m: seq<u32>)
    requires w.Valid() && Stamped(store) && l + 1 < |store|
    ensures m == w.Matrix(Anchors(store[l]), Anchors(store[l + 1]))
  {
    var from, to := Anchors(store[l]), Anchors(store[l + 1]);
    m := [];
    for i := 0 to |store[l]|
      invariant m == w.Matrix(from[..i], to)
    {
      var row := WeighSource(w, store, l, i);
      assert from[..i + 1][..i] == from[..i];
      m := m + row;
    }
    assert from[..|store[l]|] == from;
  }

  /** What weighing turns a boundary into: pending ones are weighed, resolved ones left alone. */
  function Settled(w: World, store: Store, t: Trellis, k: nat): Transition
    requires k < |t.transitions| && k + 1 < |store|
  {
    if t.transitions[k].Resolved? then t.transitions[k]
    else w.Boundary(Anchors(store[k]), Anchors(store[k + 1]))
  }

  /** The store and the trellis describe the same layers. */
  ghost predicate Aligned(store: Store, t: Trellis) {
    |store| == |t.widths| && forall l :: 0 <= l < |store| ==> |store[l]| == t.widths[l]
  }

  /**
   * Weigh every pending boundary first, then fill the ones something bridges. On an aligned trip no
   * fill is refused, so the only boundaries left pending are the gaps.
   */
  method Weigh(w: World, store: Store, trellis: TrellisCell) returns (r: Result<(), TrellisError>)
    requires w.Valid() && Stamped(store) && trellis.Value().Valid() && Aligned(store, trellis.Value())
    modifies trellis
    ensures r == Ok(()) && trellis.Value().Valid()
    ensures trellis.widths == old(trellis.widths) && trellis.nodes == old(trellis.nodes)
    ensures |trellis.transitions| == |old(trellis.transitions)|
    ensures forall k :: 0 <= k < |trellis.transitions| ==>
      trellis.transitions[k] == Settled(w, store, old(trellis.Value()), k)
  {
    var weighed := WeighPending(w, store, trellis.transitions);
    r := FillAll(w, store, trellis, weighed);
  }

  /** Each entry is a pending boundary below `k` and its matrix. */
  ghost predicate Priced(w: World, store: Store, ts: seq<Transition>, weighed: seq<(nat, seq<u32>)>, k: nat) {
    forall i {:trigger weighed[i]} :: 0 <= i < |weighed| ==>
      && weighed[i].0 < k && weighed[i].0 < |ts| && ts[weighed[i].0].Pending? && weighed[i].0 + 1 < |store|
      && weighed[i].1 == w.Matrix(Anchors(store[weighed[i].0]), Anchors(store[weighed[i].0 + 1]))
  }

  ghost predicate Listed(weighed: seq<(nat, seq<u32>)>, b: nat) { exists i :: 0 <= i < |weighed| && weighed[i].0 == b }

  /** No pending boundary below `k` is missing. */
  ghost predicate AllListed(ts: seq<Transition>, weighed: seq<(nat, seq<u32>)>, k: nat) {
    forall b :: 0 <= b < k && b < |ts| && ts[b].Pending? ==> Listed(weighed, b)
  }

  lemma ListOne(w: World, store: Store, ts: seq<Transition>, weighed: seq<(nat, seq<u32>)>, k: nat, m: seq<u32>)
    requires Priced(w, store, ts, weighed, k) && AllListed(ts, weighed, k) && k < |ts| && k + 1 < |store| && ts[k].Pending?
    requires m == w.Matrix(Anchors(store[k]), Anchors(store[k + 1]))
    ensures Priced(w, store, ts, weighed + [(k, m)], k + 1) && AllListed(ts, weighed + [(k, m)], k + 1)
  {
    var more := weighed + [(k, m)];
    assert more[|weighed|] == (k, m) && Listed(more, k);
    forall b | 0 <= b < k && ts[b].Pending?
      ensures Listed(more, b)
    {
      assert Listed(weighed, b);
      var i :| 0 <= i < |weighed| && weighed[i].0 == b;
      assert more[i].0 == b;
    }
  }

  /** The matrices of the pending boundaries, in layer order, before any is filled in. */
  method WeighPending(w: World, store: Store, ts: seq<Transition>) returns (weighed: seq<(nat, seq<u32>)>)
    requires w.Valid() && Stamped(store) && |store| == |ts| + 1
    ensures Priced(w, store, ts, weighed, |ts|) && AllListed(ts, weighed, |ts|)
  {
    weighed := [];
    for k := 0 to |ts|
      invariant Priced(w, store, ts, weighed, k) && AllListed(ts, weighed, k)
    {
      if ts[k].Pending? {
        var m := WeighBoundary(w, store, k);
        ListOne(w, store, ts, weighed, k, m);
        weighed := weighed + [(k, m)];
      }
    }
  }

  /** The fill loop of `Weigh`. */
  method FillAll(w: World, store: Store, trellis: TrellisCell, weighed: seq<(nat, seq<u32>)>)
    returns (r: Result<(), TrellisError>)
    requires trellis.Value().Valid() && Aligned(store, trellis.Value())
    requires Priced(w, store, trellis.transitions, weighed, |trellis.transitions|)
    requires AllListed(trellis.transitions, weighed, |trellis.transitions|)
    modifies trellis
    ensures r == Ok(()) && trellis.Value().Valid()
    ensures trellis.widths == old(trellis.widths) && trellis.nodes == old(trellis.nodes)
    ensures |trellis.transitions| == |old(trellis.transitions)|
    ensures forall k :: 0 <= k < |trellis.transitions| ==>
      trellis.transitions[k] == Settled(w, store, old(trellis.Value()), k)
  {
    ghost var t := trellis.Value();
    for n := 0 to |weighed|
      invariant trellis.Value().Valid() && trellis.widths == t.widths && trellis.nodes == t.nodes
      invariant Between(w, store, t, trellis.transitions) && FilledUpTo(w, store, t, trellis.transitions, weighed, n)
    {
      var (boundary, matrix) := weighed[n];
      FillOne(w, store, t, trellis.transitions, weighed, n);
      if exists x :: 0 <= x < |matrix| && matrix[x] != NO_EDGE {
        assert FirstTooLarge(matrix, 0).None?;
        r := trellis.FillTransition(boundary, matrix);
        if r.Err? {
          return;
        }
      }
    }
    AllFilled(w, store, t, trellis.transitions, weighed);
    r := Ok(());
  }

  /** Every boundary is as it was, or as weighing leaves it. */
  ghost predicate Between(w: World, store: Store, t: Trellis, ts: seq<Transition>) {
    && |ts| == |t.transitions| && |store| == |t.transitions| + 1
    && forall k {:trigger ts[k]} :: 0 <= k < |ts| ==> ts[k] == t.transitions[k] || ts[k] == Settled(w, store, t, k)
  }

  /** The first `n` weighed boundaries are as weighing leaves them. */
  ghost predicate FilledUpTo(w: World, store: Store, t: Trellis, ts: seq<Transition>, weighed: seq<(nat, seq<u32>)>, n: nat) {
    && |ts| == |t.transitions| && |store| == |t.transitions| + 1
    && forall i {:trigger weighed[i]} :: 0 <= i < n && i < |weighed| && weighed[i].0 < |ts| ==>
         ts[weighed[i].0] == Settled(w, store, t, weighed[i].0)
  }

  /** Filling in the next matrix, or leaving the boundary of an empty one, settles that boundary. */
  lemma FillOne(w: World, store: Store, t: Trellis, ts: seq<Transition>, weighed: seq<(nat, seq<u32>)>, n: nat)
    requires Between(w, store, t, ts) && FilledUpTo(w, store, t, ts, weighed, n) && n < |weighed|
    requires Priced(w, store, t.transitions, weighed, |t.transitions|)
    ensures var (b, m) := weighed[n];
      var us := if exists x :: 0 <= x < |m| && m[x] != NO_EDGE then ts[b := Resolved(Stored(m))] else ts;
      Between(w, store, t, us) && FilledUpTo(w, store, t, us, weighed, n + 1)
  {
    var (b, m) := weighed[n];
    FillSettles(w, store, t, ts, b, m);
    SettleOne(w, store, t, ts, weighed, n);
  }

  lemma FillSettles(w: World, store: Store, t: Trellis, ts: seq<Transition>, b: nat, m: seq<u32>)
    requires b < |t.transitions| == |ts| && b + 1 < |store| && t.transitions[b].Pending?
    requires ts[b] == Pending || ts[b] == Settled(w, store, t, b)
    requires m == w.Matrix(Anchors(store[b]), Anchors(store[b + 1]))
    ensures (if exists x :: 0 <= x < |m| && m[x] != NO_EDGE then ts[b := Resolved(Stored(m))] else ts)
         == ts[b := Settled(w, store, t, b)]
  {
  }

  lemma SettleOne(w: World, store: Store, t: Trellis, ts: seq<Transition>, weighed: seq<(nat, seq<u32>)>, n: nat)
    requires Between(w, store, t, ts) && FilledUpTo(w, store, t, ts, weighed, n) && n < |weighed| && weighed[n].0 < |ts|
    ensures var us := ts[weighed[n].0 := Settled(w, store, t, weighed[n].0)];
      Between(w, store, t, us) && FilledUpTo(w, store, t, us, weighed, n + 1)
  {
    var b := weighed[n].0;
    var us := ts[b := Settled(w, store, t, b)];
    assert forall k {:trigger us[k]} :: 0 <= k < |us| && k != b ==> us[k] == ts[k];
  }

  lemma AllFilled(w: World, store: Store, t: Trellis, ts: seq<Transition>, weighed: seq<(nat, seq<u32>)>)
    requires Between(w, store, t, ts) && FilledUpTo(w, store, t, ts, weighed, |weighed|)
    requires AllListed(t.transitions, weighed, |t.transitions|)
    ensures forall k :: 0 <= k < |ts| ==> ts[k] == Settled(w, store, t, k)
  {
    forall k | 0 <= k < |ts|
      ensures ts[k] == Settled(w, store, t, k)
    {
      if t.transitions[k].Pending? {
        assert Listed(weighed, k);
        var i :| 0 <= i < |weighed| && weighed[i].0 == k;
        assert weighed[i].0 < |ts|;
      }
    }
  }
}
