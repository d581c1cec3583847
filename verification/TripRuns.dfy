/** Whole runs of a matcher over one trip: streaming, windowing and what they cannot change. */
module TripRuns {
  import opened Observations
  import opened Numbers
  import opened TrellisGraph
  import opened Weighing
  import opened Trips
  import opened Matching

  // ----- Cutting a trip to its tail -----

  lemma {:induction false} NodeTableSplits(w: World, os: seq<Origin>, c: nat)
    requires c <= |os|
    ensures NodeTable(w, os) == NodeTable(w, os[..c]) + NodeTable(w, os[c..])
    decreases |os|
  {
    if c == |os| {
      assert os[..c] == os && os[c..] == [];
    } else {
      var n := |os| - 1;
      var q := os[..n];
      NodeTableSplits(w, q, c);
      assert q[..c] == os[..c];
      TableGrows(w, os, q, os[n]);
      TableGrows(w, os[c..], q[c..], os[n]);
      TablesJoin(NodeTable(w, os[..c]), NodeTable(w, q[c..]), Emissions(w.generate(os[n].point)));
    }
  }

  lemma TablesJoin(a: seq<u32>, b: seq<u32>, c: seq<u32>)
    ensures a + b + c == a + (b + c)
  {
  }

  lemma TableGrows(w: World, os: seq<Origin>, before: seq<Origin>, last: Origin)
    requires os == before + [last]
    ensures NodeTable(w, os) == NodeTable(w, before) + Emissions(w.generate(last.point))
  {
    assert os[..|os| - 1] == before;
  }

  lemma NodeTableSuffix(w: World, os: seq<Origin>, c: nat)
    requires c <= |os| && Start(Widths(w, os), c) <= |NodeTable(w, os)|
    ensures NodeTable(w, os)[Start(Widths(w, os), c)..] == NodeTable(w, os[c..])
  {
    NodeTableSplits(w, os, c);
    NodeTableSize(w, os[..c]);
    StartOfPrefix(Widths(w, os[..c]), Widths(w, os), c);
  }

  lemma RestampingIsStamping(anchors: seq<Anchor>, before: nat, after: nat)
    ensures RestampLayer(Stamp(before, anchors), after) == Stamp(after, anchors)
  {
  }

  lemma TailStoreIsStore(w: World, os: seq<Origin>, n: nat)
    requires n < |os|
    ensures TailStore(StoreOf(w, os), n) == StoreOf(w, os[|os| - n..])
  {
    var c := |os| - n;
    var a, b := TailStore(StoreOf(w, os), n), StoreOf(w, os[c..]);
    forall l | 0 <= l < n
      ensures a[l] == b[l]
    {
      assert os[c..][l] == os[c + l];
      assert a[l] == RestampLayer(StoreOf(w, os)[c + l], l);
      RestampingIsStamping(w.generate(os[c + l].point), c + l, l);
    }
  }

  lemma TailIsGrown(w: World, os: seq<Origin>, t: Trellis, c: nat)
    requires AllAnchored(w, os) && Grown(w, os, t) && t.Valid() && c < |os|
    ensures Grown(w, os[c..], t.From(c))
  {
    var s := t.From(c);
    StartMonotone(t.widths, c, |os|);
    NodeTableSuffix(w, os, c);
    forall k | 0 <= k < |s.transitions|
      ensures s.transitions[k] == Pending || s.transitions[k] == BoundaryOf(w, os[c..], k)
    {
      assert s.transitions[k] == t.transitions[c + k];
      assert os[c..][k] == os[c + k] && os[c..][k + 1] == os[c + k + 1];
    }
  }

  lemma FreshIsSound(w: World)
    ensures Sound(w, FRESH)
  {
    assert StoreOf(w, []) == [];
  }

  /** How many of `len` layers a tail of `n` drops. */
  ghost function Dropped(len: nat, n: nat): nat { if n >= len then 0 else len - n }

  lemma SuffixAnchors(w: World, os: seq<Origin>, c: nat)
    requires AllAnchored(w, os) && c <= |os|
    ensures AllAnchored(w, os[c..])
  {
    assert forall i :: 0 <= i < |os| - c ==> os[c..][i] == os[c + i];
  }

  /** Windowing keeps soundness and exactly the newest observations. */
  lemma TailKeepsSound(w: World, v: TripValue, n: nat)
    requires Sound(w, v) && v.Sane()
    ensures Sound(w, Tail(v, n)) && Tail(v, n).origins == v.origins[Dropped(|v.origins|, n)..]
  {
    if 0 < n < |v.origins| {
      CutTailIsSound(w, v, n);
    } else {
      FreshIsSound(w);
      TailIsAllOrNothing(v, n);
    }
  }

  /** A window of nothing is a new trip, unless there is nothing to drop; a window of everything is the trip. */
  lemma TailIsAllOrNothing(v: TripValue, n: nat)
    requires v.Sane() && (n == 0 || n >= |v.origins|)
    ensures Tail(v, n) == (if n >= |v.origins| then v else FRESH)
    ensures v.origins[Dropped(|v.origins|, n)..] == if n >= |v.origins| then v.origins else []
  {
  }

  /** The case that cuts: what is left is what these observations alone would have grown. */
  lemma CutTailIsSound(w: World, v: TripValue, n: nat)
    requires Sound(w, v) && v.Sane() && 0 < n < |v.origins|
    ensures Sound(w, Tail(v, n)) && Tail(v, n).origins == v.origins[|v.origins| - n..]
  {
    var u := CutTail(w, v, n);
  }

  lemma CutTail(w: World, v: TripValue, n: nat) returns (u: TripValue)
    requires Sound(w, v) && 0 < n < |v.origins|
    ensures Sound(w, u) && u == Tail(v, n) && u.origins == v.origins[|v.origins| - n..]
  {
    u := GrownSuffix(w, v.origins, v.state.trellis, |v.origins| - n);
    CutTailIs(w, v, n, u);
  }

  lemma CutTailIs(w: World, v: TripValue, n: nat, u: TripValue)
    requires v.Intact() && v.candidates == StoreOf(w, v.origins) && 0 < n < |v.origins|
    requires var os := v.origins[|v.origins| - n..];
      u == TripValue(os, StoreOf(w, os), Building(v.state.trellis.From(|v.origins| - n)))
    ensures Tail(v, n) == u
  {
    TailStoreIsStore(w, v.origins, n);
  }

  lemma GrownSuffix(w: World, os: seq<Origin>, t: Trellis, c: nat) returns (u: TripValue)
    requires AllAnchored(w, os) && Grown(w, os, t) && t.Valid() && c < |os|
    ensures Sound(w, u) && u == TripValue(os[c..], StoreOf(w, os[c..]), Building(t.From(c)))
  {
    u := TripValue(os[c..], StoreOf(w, os[c..]), Building(t.From(c)));
    SuffixAnchors(w, os, c);
    TailIsGrown(w, os, t, c);
    GrownIsSound(w, os[c..], t.From(c));
  }

  lemma GrownIsSound(w: World, os: seq<Origin>, t: Trellis)
    requires AllAnchored(w, os) && Grown(w, os, t)
    ensures Sound(w, TripValue(os, StoreOf(w, os), Building(t)))
  {
    MadeIsSound(w, TripValue(os, StoreOf(w, os), Building(t)));
  }

  // ----- Runs -----

  datatype Op = Pushes(origin: Origin) | Extends(origins: seq<Origin>) | Solves | Snapshots | Keeps(n: nat)

  /** One operation, successful or not. A snapshot changes the trip only by solving it. */
  ghost function Apply(w: World, v: TripValue, op: Op): TripValue
    requires Sound(w, v)
  {
    match op
    case Pushes(o) => Push(w, v, o).0
    case Extends(os) => Extend(w, v, os).0
    case Solves => Solve(w, v).0
    case Snapshots => Solve(w, v).0
    case Keeps(n) => Tail(v, n)
  }

  lemma PushKeeps(w: World, v: TripValue, o: Origin)
    requires Sound(w, v)
    ensures Sound(w, Apply(w, v, Pushes(o)))
  {
    PushPlaces(w, v, o);
  }

  lemma ExtendKeeps(w: World, v: TripValue, os: seq<Origin>)
    requires Sound(w, v)
    ensures Sound(w, Apply(w, v, Extends(os)))
  {
    PushAllKeepsSound(w, v, os);
  }

  lemma SolveKeeps(w: World, v: TripValue)
    requires Sound(w, v)
    ensures Sound(w, Apply(w, v, Solves))
  {
    SolveKeepsSound(w, v);
  }

  lemma SnapshotKeeps(w: World, v: TripValue)
    requires Sound(w, v)
    ensures Sound(w, Apply(w, v, Snapshots))
  {
    SolveKeepsSound(w, v);
  }

  lemma WindowKeeps(w: World, v: TripValue, n: nat)
    requires Sound(w, v)
    ensures Sound(w, Apply(w, v, Keeps(n)))
  {
    var u := Windowed(w, v, n);
  }

  lemma Windowed(w: World, v: TripValue, n: nat) returns (u: TripValue)
    requires Sound(w, v)
    ensures Sound(w, u) && u == Apply(w, v, Keeps(n))
  {
    u := Tail(v, n);
    TailKeepsSound(w, v, n);
  }

  /** Every operation keeps a trip sound, successful or not. */
  lemma ApplyKeepsSound(w: World, v: TripValue, op: Op)
    requires Sound(w, v)
    ensures Sound(w, Apply(w, v, op))
  {
    match op
    case Pushes(o) => PushKeeps(w, v, o);
    case Extends(os) => ExtendKeeps(w, v, os);
    case Solves => SolveKeeps(w, v);
    case Snapshots => SnapshotKeeps(w, v);
    case Keeps(n) => WindowKeeps(w, v, n);
  }

  /** A run from a fresh trip; it stays sound whatever the operations and however they end. */
  ghost function Run(w: World, ops: seq<Op>): (v: TripValue)
    ensures Sound(w, v)
  {
    if ops == [] then FRESH else
    var v := Run(w, ops[..|ops| - 1]);
    ApplyKeepsSound(w, v, ops[|ops| - 1]);
    Apply(w, v, ops[|ops| - 1])
  }

  /** Whatever led to it, a trip solves as one batch of the observations it still holds. */
  lemma RunsAreHistoryIndependent(w: World, ops: seq<Op>)
    ensures Sound(w, Batch(w, Run(w, ops).origins))
    ensures Solve(w, Run(w, ops)) == Solve(w, Batch(w, Run(w, ops).origins))
  {
    SolveForgetsHistory(w, Run(w, ops));
  }

  /** The observations a run of pushes, solves and snapshots offered. */
  ghost function Offered(ops: seq<Op>): seq<Origin> {
    if ops == [] then [] else
    var last := ops[|ops| - 1];
    Offered(ops[..|ops| - 1]) + if last.Pushes? then [last.origin] else []
  }

  ghost predicate Streams(ops: seq<Op>) {
    forall i :: 0 <= i < |ops| ==> ops[i].Pushes? || ops[i].Solves? || ops[i].Snapshots?
  }

  lemma {:induction false} StreamHoldsWhatItWasOffered(w: World, ops: seq<Op>)
    requires Streams(ops) && AllAnchored(w, Offered(ops))
    ensures Run(w, ops).origins == Offered(ops)
  {
    if ops != [] {
      var init, last := ops[..|ops| - 1], ops[|ops| - 1];
      assert AllAnchored(w, Offered(init)) by {
        assert forall i :: 0 <= i < |Offered(init)| ==> Offered(init)[i] == Offered(ops)[i];
      }
      StreamHoldsWhatItWasOffered(w, init);
      var v := Run(w, init);
      if last.Pushes? {
        assert Offered(ops)[|Offered(init)|] == last.origin;
        PushKeepsSound(w, v, last.origin);
      } else {
        SolveKeepsSound(w, v);
      }
    }
  }

  /**
   * Streaming equals batch: any interleaving of pushes and solves, failed solves included, ends
   * with the trip, and the path, cost or breaks, of one extend and one solve.
   */
  lemma StreamingEqualsBatch(w: World, ops: seq<Op>)
    requires Streams(ops) && AllAnchored(w, Offered(ops))
    ensures Extend(w, FRESH, Offered(ops)).1 == Ok(()) && Sound(w, Extend(w, FRESH, Offered(ops)).0)
    ensures Solve(w, Run(w, ops)) == Solve(w, Extend(w, FRESH, Offered(ops)).0)
  {
    StreamHoldsWhatItWasOffered(w, ops);
    UnplacedIffUnanchored(w, Offered(ops), 0);
    SolveForgetsHistory(w, Run(w, ops));
  }

  /** Boundary `k` of the trip's trellis is `tr`. */
  ghost predicate HasBoundary(v: TripValue, k: nat, tr: Transition) {
    !v.state.Unstarted? && k < |v.state.trellis.transitions| && v.state.trellis.transitions[k] == tr
  }

  /** Outside a cut, a resolved boundary is never recomputed and no observation is dropped. */
  lemma ResolvedBoundariesStand(w: World, v: TripValue, op: Op, k: nat, tr: Transition)
    requires Sound(w, v) && !op.Keeps? && tr.Resolved? && HasBoundary(v, k, tr)
    ensures v.origins <= Apply(w, v, op).origins && HasBoundary(Apply(w, v, op), k, tr)
  {
    match op
    case Pushes(o) =>
      PushKeepsBoundary(w, v, o, k, tr);
    case Extends(os) =>
      PushAllKeepsBoundary(w, v, os, k, tr);
    case Solves =>
      SolveKeepsResolved(w, v, k, tr);
    case Snapshots =>
      SolveKeepsResolved(w, v, k, tr);
  }

  lemma PushKeepsBoundary(w: World, v: TripValue, o: Origin, k: nat, tr: Transition)
    requires Sound(w, v) && HasBoundary(v, k, tr)
    ensures v.origins <= Push(w, v, o).0.origins && HasBoundary(Push(w, v, o).0, k, tr)
  {
  }

  lemma {:induction false} PushAllKeepsBoundary(w: World, v: TripValue, os: seq<Origin>, k: nat, tr: Transition)
    requires Sound(w, v) && HasBoundary(v, k, tr)
    ensures v.origins <= PushAll(w, v, os).origins && HasBoundary(PushAll(w, v, os), k, tr)
    decreases |os|
  {
    if os != [] {
      PushPlaces(w, v, os[0]);
      PushKeepsBoundary(w, v, os[0], k, tr);
      PushAllKeepsBoundary(w, Push(w, v, os[0]).0, os[1..], k, tr);
    }
  }

  lemma SolveKeepsResolved(w: World, v: TripValue, k: nat, tr: Transition)
    requires Sound(w, v) && HasBoundary(v, k, tr) && tr.Resolved?
    ensures Solve(w, v).0.origins == v.origins && HasBoundary(Solve(w, v).0, k, tr)
  {
    if v.state.Building? {
      SoundIsSane(w, v);
      WeighIsWeighed(w, v.origins, v.state.trellis);
    }
  }
}
