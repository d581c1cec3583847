/** The trip a caller owns between calls: its observations, their candidates and its trellis. */
module Trips {
  import opened Numbers
  import opened Observations
  import opened TrellisGraph
  import opened TrellisCells
  import opened Viterbi
  import opened Weighing

  datatype TripState =
    | Unstarted
    | Building(trellis: Trellis)
    | Solved(trellis: Trellis, path: Path)

  /** Everything a trip holds at one moment. */
  datatype TripValue = TripValue(origins: seq<Origin>, candidates: Store, state: TripState) {

    /** The trellis grown so far, if any, is well formed. */
    ghost predicate Sane() {
      state.Unstarted? || state.trellis.Valid()
    }

    /**
     * What a trip promises by itself, whichever network built it: candidates and trellis describe the same
     * layers, one an observation, every candidate is located where it sits, and a certificate is of the
     * trellis it comes with.
     */
    ghost predicate Intact() {
      && Sane() && |candidates| == |origins| && Stamped(candidates)
      && (if state.Unstarted? then origins == [] else Aligned(candidates, state.trellis))
      && (state.Solved? ==> Solvable(state.trellis) && state.path == Answer(state.trellis))
    }
  }

  const FRESH := TripValue([], [], Unstarted)

  /** A layer's candidates, each located at its own position. */
  function Stamp(layer: nat, anchors: seq<Anchor>): (s: seq<Candidate>)
    ensures |s| == |anchors| && forall n {:trigger s[n]} :: 0 <= n < |s| ==> s[n] == Candidate(anchors[n], Ref(layer, n))
  {
    seq(|anchors|, n requires 0 <= n < |anchors| => Candidate(anchors[n], Ref(layer, n)))
  }

  /** What each candidate's node weighs: its emission, capped. */
  function Emissions(anchors: seq<Anchor>): (s: seq<u32>)
    ensures |s| == |anchors| && forall n :: 0 <= n < |s| ==> s[n] <= MAX_WEIGHT && s[n] <= anchors[n].emission
    ensures forall n {:trigger s[n]} :: 0 <= n < |s| ==> s[n] == anchors[n].emission || s[n] == MAX_WEIGHT
  {
    seq(|anchors|, n requires 0 <= n < |anchors| =>
      if anchors[n].emission <= MAX_WEIGHT then anchors[n].emission else MAX_WEIGHT)
  }

  /** The trellis of a first layer. */
  function FirstLayer(weights: seq<u32>): Trellis { Trellis([|weights|], weights, []) }

  lemma FirstLayerIsValid(weights: seq<u32>)
    requires |weights| > 0 && forall x :: 0 <= x < |weights| ==> weights[x] <= MAX_WEIGHT
    ensures FirstLayer(weights).Valid()
  {
    assert Start([|weights|], 1) == Start([|weights|], 0) + |weights|;
  }

  /**
   * Appending one layer. An empty candidate list is refused; refusing it on a building trip loses
   * the trellis, because the state was taken out before the width was checked.
   */
  function PushLayer(v: TripValue, origin: Origin, anchors: seq<Anchor>): (r: (TripValue, Result<nat, TrellisError>)) {
    if |anchors| == 0 then
      match v.state
      case Unstarted => (v, Err(ZeroWidthLayer(0)))
      case Building(t) => (v.(state := Unstarted), Err(ZeroWidthLayer(|t.widths|)))
      case Solved(t, _) => (v, Err(ZeroWidthLayer(|t.widths|)))
    else
      var id := if v.state.Unstarted? then 0 else |v.state.trellis.widths|;
      var grown := if v.state.Unstarted? then FirstLayer(Emissions(anchors)) else v.state.trellis.Append(Emissions(anchors));
      (TripValue(v.origins + [origin], v.candidates + [Stamp(id, anchors)], Building(grown)), Ok(id))
  }

  /** A refused layer leaves the trip unchanged exactly when the trip was not building. */
  lemma RefusalIsAtomicIffNotBuilding(v: TripValue, origin: Origin)
    ensures PushLayer(v, origin, []).1.Err?
    ensures PushLayer(v, origin, []).0 == v <==> !v.state.Building?
  {
  }

  /** A window of the store; survivors are renumbered from layer zero. */
  function TailStore(store: Store, n: nat): (s: Store)
    ensures |s| == if n >= |store| then |store| else n
  {
    if n >= |store| then store else
    var cut := |store| - n;
    seq(n, l requires 0 <= l < n => RestampLayer(store[cut + l], l))
  }

  function RestampLayer(layer: seq<Candidate>, l: nat): (s: seq<Candidate>)
    ensures |s| == |layer|
    ensures forall n {:trigger s[n]} :: 0 <= n < |s| ==> s[n] == Candidate(layer[n].anchor, Ref(l, layer[n].location.node))
  {
    seq(|layer|, n requires 0 <= n < |layer| => layer[n].(location := layer[n].location.(layer := l)))
  }

  /** A window of the trip: a solved one reopens, none empties it, and more than all changes nothing. */
  function Tail(v: TripValue, n: nat): TripValue
    requires v.Sane()
  {
    if n >= |v.origins| then v
    else if n == 0 then FRESH
    else TripValue(v.origins[|v.origins| - n..], TailStore(v.candidates, n),
                   if v.state.Unstarted? then Unstarted else Building(v.state.trellis.Last(n).value))
  }

  lemma PushLayerKeepsIntact(v: TripValue, origin: Origin, anchors: seq<Anchor>)
    requires v.Intact() && anchors != []
    ensures PushLayer(v, origin, anchors).0.Intact() && PushLayer(v, origin, anchors).1 == Ok(|v.origins|)
  {
    if v.state.Unstarted? {
      FirstLayerIsValid(Emissions(anchors));
    } else {
      AppendIsValid(v.state.trellis, Emissions(anchors));
    }
    StampedGrows(v.candidates, anchors);
  }

  lemma StampedGrows(store: Store, anchors: seq<Anchor>)
    requires Stamped(store)
    ensures Stamped(store + [Stamp(|store|, anchors)])
  {
  }

  lemma TailKeepsIntact(v: TripValue, n: nat)
    requires v.Intact()
    ensures Tail(v, n).Intact()
  {
    if 0 < n < |v.origins| {
      CutIsValid(v.state.trellis, |v.origins| - n);
      TailStaysStamped(v.candidates, n);
      TailStaysAligned(v.candidates, v.state.trellis, n);
    }
  }

  lemma TailStaysStamped(store: Store, n: nat)
    requires Stamped(store)
    ensures Stamped(TailStore(store, n))
  {
    if n < |store| {
      var s: Store, c := TailStore(store, n), |store| - n;
      forall l: nat, k: nat | l < |s| && k < |s[l]|
        ensures s[l][k].location == Ref(l, k)
      {
        assert s[l] == RestampLayer(store[c + l], l);
      }
    }
  }

  lemma TailStaysAligned(store: Store, t: Trellis, n: nat)
    requires t.Valid() && Aligned(store, t) && 0 < n < |store|
    ensures Aligned(TailStore(store, n), t.From(|store| - n))
  {
    var s, c := TailStore(store, n), |store| - n;
    assert forall l :: 0 <= l < n ==> s[l] == RestampLayer(store[c + l], l);
  }

  /** The last layer has a node for each of these, weighing its emission capped at the ceiling. */
  ghost predicate EndsWith(t: Trellis, anchors: seq<Anchor>) {
    && t.Valid() && t.widths[t.Layers() - 1] == |anchors|
    && forall n :: 0 <= n < |anchors| ==> NodeIs(t, t.Layers() - 1, n, anchors[n])
  }

  ghost predicate NodeIs(t: Trellis, l: nat, n: nat, a: Anchor)
    requires t.Valid() && t.Has(l, n)
  {
    t.NodeWeight(l, n) == Min(a.emission, MAX_WEIGHT)
  }

  lemma LayersEndWith(taken: TripState, anchors: seq<Anchor>)
    requires (taken.Unstarted? || taken.trellis.Valid()) && anchors != []
    ensures EndsWith(if taken.Unstarted? then FirstLayer(Emissions(anchors)) else taken.trellis.Append(Emissions(anchors)), anchors)
  {
    if taken.Unstarted? {
      FirstLayerIsValid(Emissions(anchors));
      LastLayerWeighs(FirstLayer(Emissions(anchors)), anchors, 0);
    } else {
      AppendIsValid(taken.trellis, Emissions(anchors));
      LastLayerWeighs(taken.trellis.Append(Emissions(anchors)), anchors, |taken.trellis.nodes|);
    }
  }

  lemma LastLayerWeighs(t: Trellis, anchors: seq<Anchor>, start: nat)
    requires t.Valid() && |anchors| == t.widths[t.Layers() - 1] && start + |anchors| == |t.nodes|
    requires t.nodes[start..] == Emissions(anchors)
    ensures EndsWith(t, anchors)
  {
    var l := t.Layers() - 1;
    assert Start(t.widths, l + 1) == Start(t.widths, l) + t.widths[l];
    forall n | 0 <= n < |anchors|
      ensures NodeIs(t, l, n, anchors[n])
    {
      assert t.nodes[start + n] == t.nodes[start..][n];
    }
  }

  /** The trellis one layer further on: a blank layer added, then its emissions entered. */
  method Grow(taken: TripState, anchors: seq<Anchor>) returns (r: Result<Trellis, TrellisError>)
    requires taken.Unstarted? || taken.trellis.Valid()
    ensures |anchors| == 0 ==> r == Err(ZeroWidthLayer(if taken.Unstarted? then 0 else |taken.trellis.widths|))
    ensures |anchors| > 0 ==> r == Ok(if taken.Unstarted? then FirstLayer(Emissions(anchors))
                                      else taken.trellis.Append(Emissions(anchors)))
    ensures r.Ok? ==> EndsWith(r.value, anchors)
  {
    r := AddAndFill(taken, anchors);
    if anchors != [] {
      LayersEndWith(taken, anchors);
    }
  }

  method AddAndFill(taken: TripState, anchors: seq<Anchor>) returns (r: Result<Trellis, TrellisError>)
    requires taken.Unstarted? || taken.trellis.Valid()
    ensures |anchors| == 0 ==> r == Err(ZeroWidthLayer(if taken.Unstarted? then 0 else |taken.trellis.widths|))
    ensures |anchors| > 0 ==> r == Ok(if taken.Unstarted? then FirstLayer(Emissions(anchors))
                                      else taken.trellis.Append(Emissions(anchors)))
    ensures r.Ok? ==> r.value.Valid()
  {
    var width, weights := |anchors|, Emissions(anchors);
    var cell: TrellisCell;
    var id: nat;
    if taken.Unstarted? {
      if width == 0 {
        return Err(ZeroWidthLayer(0));
      }
      var blank: seq<u32> := seq(width, _ => 0);
      cell := new TrellisCell(FirstLayer(blank));
      id := 0;
      FirstLayerIsValid(blank);
      FirstLayerIsValid(weights);
      assert FirstLayer(blank).WithNodes(0, weights) == FirstLayer(weights);
    } else {
      cell := new TrellisCell(taken.trellis);
      var added := cell.AddLayer(width);
      if added.Err? {
        return Err(added.error);
      }
      id := added.value;
      AppendThenFill(taken.trellis, weights);
      AppendIsValid(taken.trellis, weights);
    }
    var filled := cell.FillNodes(id, weights);
    r := Ok(cell.Value());
  }

  class Trip {
    var origins: seq<Origin>
    var candidates: Store
    var state: TripState

    function View(): TripValue
      reads this
    {
      TripValue(origins, candidates, state)
    }

    constructor ()
      ensures View() == FRESH
    {
      origins, candidates, state := [], [], Unstarted;
    }

    /** Append one layer: grow the trellis, stamp the candidates, enter the emissions as node weights. */
    method Push(origin: Origin, anchors: seq<Anchor>) returns (r: Result<nat, TrellisError>)
      requires View().Sane()
      modifies this
      ensures View() == PushLayer(old(View()), origin, anchors).0
      ensures r.Ok? ==> state.Building? && EndsWith(state.trellis, anchors)
      ensures r == PushLayer(old(View()), origin, anchors).1
      ensures View().Sane()
    {
      var taken := TakeState();
      var grown := Grow(taken, anchors);
      if grown.Err? {
        if taken.Solved? {
          Restore(taken);
        }
        return Err(grown.error);
      }
      var id := |grown.value.widths| - 1;
      origins := origins + [origin];
      candidates := candidates + [Stamp(id, anchors)];
      Restore(Building(grown.value));
      r := Ok(id);
    }

    /** Shrink the trip to a window. */
    method KeepTail(n: nat)
      requires View().Sane()
      modifies this
      ensures View() == Tail(old(View()), n)
    {
      var len := |origins|;
      if n >= len {
        return;
      }
      if n == 0 {
        origins, candidates, state := [], [], Unstarted;
        return;
      }
      origins := origins[len - n..];
      candidates := TailStore(candidates, n);
      var taken := TakeState();
      if taken.Unstarted? {
        Restore(Unstarted);
      } else {
        Restore(Building(taken.trellis.Last(n).value));
      }
    }

    /** Take the state out, leaving none; the caller puts one back on every path. */
    method TakeState() returns (s: TripState)
      modifies this`state
      ensures s == old(state) && state == Unstarted
    {
      s := state;
      state := Unstarted;
    }

    method Restore(s: TripState)
      modifies this`state
      ensures state == s
    {
      state := s;
    }
  }
}
