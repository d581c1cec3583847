/** Resuming a persisted trip against the committed history, and the service that answers it. */
module Continuation {
  import opened Observations
  import opened Numbers
  import opened TrellisGraph
  import opened Viterbi
  import opened Convergence
  import opened Weighing
  import opened Trips
  import opened Matching
  import opened TripRuns
  import opened Matcher

  /** The last `k` observations of the trip are the first `k` of the history. */
  predicate Overlaps(origins: seq<Origin>, history: seq<Origin>, k: nat) {
    k <= |origins| && k <= |history| && origins[|origins| - k..] == history[..k]
  }

  /** The longest overlap of at most `bound`: exact observation equality, searched downwards. */
  function LongestOverlap(origins: seq<Origin>, history: seq<Origin>, bound: nat): (k: nat)
    requires bound <= |origins| && bound <= |history|
    ensures k <= bound && Overlaps(origins, history, k)
    ensures forall j :: k < j <= bound ==> !Overlaps(origins, history, j)
  {
    if Overlaps(origins, history, bound) then bound else LongestOverlap(origins, history, bound - 1)
  }

  function Overlap(origins: seq<Origin>, history: seq<Origin>): nat {
    LongestOverlap(origins, history, if |origins| <= |history| then |origins| else |history|)
  }

  /** Overlapping is all a resume needs, and nothing longer overlaps. */
  lemma OverlapIsLongest(origins: seq<Origin>, history: seq<Origin>, j: nat)
    requires Overlaps(origins, history, j)
    ensures j <= Overlap(origins, history) && Overlaps(origins, history, Overlap(origins, history))
  {
  }

  /**
   * Reconcile a trip with the history: keep the longest suffix of the trip that is a prefix of the
   * history and report the rest as fresh, or report the whole history when nothing overlaps.
   */
  method Reconcile(trip: Trip?, history: seq<Origin>) returns (resumed: bool, newer: seq<Origin>)
    requires trip != null ==> trip.View().Sane()
    modifies trip
    ensures !resumed ==> newer == history
    ensures !resumed <==> trip == null || Overlap(old(trip.origins), history) == 0
    ensures resumed ==>
      var k := Overlap(old(trip.origins), history);
      trip.View() == Tail(old(trip.View()), k) && newer == history[k..] && trip.origins + newer == history
  {
    if trip == null {
      return false, history;
    }
    var overlap := Overlap(trip.origins, history);
    if overlap == 0 {
      return false, history;
    }
    ghost var before := trip.origins;
    trip.KeepTail(overlap);
    assert Overlaps(before, history, overlap);
    assert trip.origins == history[..overlap];
    return true, history[overlap..];
  }

  // ----- Resuming equals restarting -----

  lemma {:induction false} PlacedConcat(w: World, a: seq<Origin>, b: seq<Origin>)
    ensures Placed(w, a + b) == Placed(w, a) + Placed(w, b)
  {
    if a == [] {
      assert a + b == b;
    } else {
      PlacedConcat(w, a[1..], b);
      assert (a + b)[1..] == a[1..] + b && (a + b)[0] == a[0];
    }
  }

  /** A sound trip that pushes `newer` ends as one that starts over from its observations and `newer`. */
  lemma PushingEqualsRestarting(w: World, v: TripValue, newer: seq<Origin>, history: seq<Origin>)
    requires Sound(w, v) && v.origins + newer == history
    ensures Sound(w, PushAll(w, v, newer)) && Sound(w, PushAll(w, FRESH, history))
    ensures PushAll(w, v, newer).origins == PushAll(w, FRESH, history).origins
    ensures Solve(w, PushAll(w, v, newer)) == Solve(w, PushAll(w, FRESH, history))
  {
    SameObservations(w, v, newer, history);
    SolveForgetsHistory(w, PushAll(w, v, newer));
    SolveForgetsHistory(w, PushAll(w, FRESH, history));
  }

  lemma SameObservations(w: World, v: TripValue, newer: seq<Origin>, history: seq<Origin>)
    requires Sound(w, v) && v.origins + newer == history
    ensures Sound(w, PushAll(w, v, newer)) && Sound(w, PushAll(w, FRESH, history))
    ensures PushAll(w, v, newer).origins == PushAll(w, FRESH, history).origins
  {
    FreshIsSound(w);
    PushAllKeepsSound(w, v, newer);
    PushAllKeepsSound(w, FRESH, history);
    PlacedConcat(w, v.origins, newer);
    PlacedOfAnchored(w, v.origins);
    assert [] + Placed(w, history) == v.origins + Placed(w, newer);
  }

  /** The trip a resume continues from. */
  ghost function Resumed(v: TripValue, history: seq<Origin>): TripValue
    requires v.Sane()
  {
    Tail(v, Overlap(v.origins, history))
  }

  lemma OverlapSuffix(origins: seq<Origin>, history: seq<Origin>, k: nat)
    requires k == Overlap(origins, history)
    ensures k <= |history| && origins[Dropped(|origins|, k)..] == history[..k] && history[..k] + history[k..] == history
  {
    assert Overlaps(origins, history, k);
  }

  lemma ResumeKeepsTheOverlap(w: World, v: TripValue, history: seq<Origin>, k: nat)
    requires Sound(w, v) && k == Overlap(v.origins, history) > 0
    ensures Sound(w, Resumed(v, history)) && Resumed(v, history).origins == history[..k]
    ensures Resumed(v, history).origins + history[k..] == history
  {
    OverlapSuffix(v.origins, history, k);
    TailKeepsSound(w, v, k);
  }

  /**
   * Resume, then push what is fresh, then solve: the same trip and the same answer as restarting
   * from the whole history, unanchored observations and gaps included.
   */
  lemma ResumeEqualsRestart(w: World, v: TripValue, history: seq<Origin>, k: nat)
    requires Sound(w, v) && k == Overlap(v.origins, history) > 0
    ensures Sound(w, PushAll(w, Resumed(v, history), history[k..])) && Sound(w, PushAll(w, FRESH, history))
    ensures Solve(w, PushAll(w, Resumed(v, history), history[k..])) == Solve(w, PushAll(w, FRESH, history))
  {
    ResumeKeepsTheOverlap(w, v, history, k);
    PushingEqualsRestarting(w, Resumed(v, history), history[k..], history);
  }

  // ----- The service -----

  datatype Reply =
    | NoMatch
    | Matched(emission: Collapsed, timestamps: seq<int>, downgraded: bool, trip: TripValue)

  /** A reply that says whether the resume had to be given up. */
  function Flagged(r: Reply, downgraded: bool): Reply {
    if r.Matched? then r.(downgraded := downgraded) else r
  }

  /** The latest fused layer at or below `k`. */
  ghost function LatestFused(t: Trellis, k: nat): (r: Option<nat>)
    requires t.Valid() && k < t.Layers()
    ensures r.Some? ==> r.value <= k && FusedAt(t, r.value)
    ensures forall j :: 0 <= j <= k && (r.Some? ==> r.value < j) ==> !FusedAt(t, j)
  {
    if FusedAt(t, k) then Some(k) else if k == 0 then None else LatestFused(t, k - 1)
  }

  ghost function ConvergencePoint(t: Trellis): (r: Option<nat>)
    requires t.Valid()
    ensures ConvergesAt(t, r)
  {
    LatestFused(t, t.Layers() - 1)
  }

  lemma ConvergencePointIsUnique(t: Trellis, r: Option<nat>)
    requires t.Valid() && ConvergesAt(t, r)
    ensures r == ConvergencePoint(t)
  {
  }

  /** Cut behind the convergence point, keeping its layer; an unfused trip stays whole. */
  ghost function CutBehind(v: TripValue): TripValue
    requires v.state.Solved? && v.state.trellis.Valid()
  {
    match ConvergencePoint(v.state.trellis)
    case None => v
    case Some(c) => if c <= |v.origins| then Tail(v, |v.origins| - c) else v
  }

  ghost function Timestamps(os: seq<Origin>): (stamps: seq<int>)
    ensures |stamps| == |os| && forall i :: 0 <= i < |os| ==> stamps[i] == os[i].timestamp
  {
    seq(|os|, i requires 0 <= i < |os| => os[i].timestamp)
  }

  /** The reply a finished solve gives. */
  ghost function ReplyOf(w: World, s: TripValue, r: Result<Path, MatchError>): Reply
    requires r.Ok? ==> s.state.Solved? && s.state.trellis.Valid()
  {
    if r.Err? then NoMatch
    else Matched(CollapseOf(w, s.candidates, r.value), Timestamps(s.origins), false, CutBehind(s))
  }

  /** The reply once the fresh observations are pushed. */
  ghost function Answered(w: World, u: TripValue): Reply
    requires u.Intact()
  {
    SolveKeepsIntact(w, u);
    ReplyOf(w, Solve(w, u).0, Solve(w, u).1)
  }

  /**
   * A resume whose candidates this network knows is adopted as it stands, whatever costs it was built at;
   * any other is downgraded to a restart over its own observations.
   */
  ghost function Serve(w: World, v: TripValue, newer: seq<Origin>): (r: Reply)
    requires v.Intact()
  {
    if Supports(w, v.candidates) then
      PushAllKeepsIntact(w, v, newer);
      Flagged(Answered(w, PushAll(w, v, newer)), false)
    else
      PushAllKeepsIntact(w, FRESH, v.origins + newer);
      Flagged(Answered(w, PushAll(w, FRESH, v.origins + newer)), true)
  }

  lemma RestartIsSound(w: World, history: seq<Origin>)
    ensures Sound(w, PushAll(w, FRESH, history))
  {
    FreshIsSound(w);
    PushAllKeepsSound(w, FRESH, history);
  }

  /** Adopted or downgraded, the reply is that of a restart from everything seen, and says which it was. */
  lemma ServeIsRestart(w: World, v: TripValue, newer: seq<Origin>, history: seq<Origin>)
    requires v.Intact() && (Supports(w, v.candidates) ==> Sound(w, v)) && v.origins + newer == history
    ensures Sound(w, PushAll(w, FRESH, history))
    ensures Serve(w, v, newer) == Flagged(Answered(w, PushAll(w, FRESH, history)), !Supports(w, v.candidates))
  {
    RestartIsSound(w, history);
    if Supports(w, v.candidates) {
      PushingEqualsRestarting(w, v, newer, history);
    }
  }

  lemma FreshIsServed(w: World, history: seq<Origin>)
    ensures Sound(w, PushAll(w, FRESH, history))
    ensures Serve(w, FRESH, history) == Flagged(Answered(w, PushAll(w, FRESH, history)), false)
  {
    RestartIsSound(w, history);
    assert FRESH.origins + history == history;
  }

  /** A trip of any network, brought to this one by a resume. */
  lemma ForeignResumeIsSound(w: World, home: World, v: TripValue, history: seq<Origin>, k: nat)
    requires Sound(home, v) && k == Overlap(v.origins, history) > 0
    ensures Resumed(v, history).Intact() && Resumed(v, history).origins + history[k..] == history
    ensures Agree(w, home, Resumed(v, history)) ==> Sound(w, Resumed(v, history))
  {
    ResumeKeepsTheOverlap(home, v, history, k);
    ForeignIsSoundIffAgreed(w, home, Resumed(v, history));
  }

  /**
   * A trip solved on any network: whether this one adopts its resume or downgrades it, the reply is that
   * of a restart from the history, but for the flag that tells the two apart. An adopted trip has to be
   * one the two networks agree on; nothing at all is asked of one that is downgraded.
   */
  lemma ServiceIsPathIndependent(w: World, home: World, v: TripValue, history: seq<Origin>, k: nat)
    requires Sound(home, v) && k == Overlap(v.origins, history) > 0
    requires Supports(w, Resumed(v, history).candidates) ==> Agree(w, home, Resumed(v, history))
    ensures Resumed(v, history).Intact()
    ensures Serve(w, Resumed(v, history), history[k..])
         == Flagged(Serve(w, FRESH, history), !Supports(w, Resumed(v, history).candidates))
  {
    FreshIsServed(w, history);
    ForeignResumeIsSound(w, home, v, history, k);
    ServeIsRestart(w, Resumed(v, history), history[k..], history);
  }

  lemma HomeResumeIsSupported(w: World, v: TripValue, history: seq<Origin>, k: nat)
    requires w.Valid() && Sound(w, v) && k == Overlap(v.origins, history) > 0
    ensures Supports(w, Resumed(v, history).candidates)
  {
    ResumeKeepsTheOverlap(w, v, history, k);
    SoundIsSupported(w, Resumed(v, history));
  }

  lemma NothingToFlag(w: World, history: seq<Origin>)
    ensures Flagged(Serve(w, FRESH, history), false) == Serve(w, FRESH, history)
  {
    FreshIsServed(w, history);
  }

  /** On its own network a resume is always adopted, and the reply is exactly that of a restart. */
  lemma HomeResumeIsAdopted(w: World, v: TripValue, history: seq<Origin>, k: nat)
    requires w.Valid() && Sound(w, v) && k == Overlap(v.origins, history) > 0
    ensures Resumed(v, history).Intact() && Supports(w, Resumed(v, history).candidates)
    ensures Serve(w, Resumed(v, history), history[k..]) == Serve(w, FRESH, history)
  {
    HomeResumeIsSupported(w, v, history, k);
    assert Agree(w, w, Resumed(v, history));
    ServiceIsPathIndependent(w, w, v, history, k);
    NothingToFlag(w, history);
  }

  /** A network of one position everywhere, at this emission cost. */
  function OnePosition(emission: u32): World {
    World(p => [Anchor(0, emission)], a => true, (a, b) => None, (a, b, path) => None, (a, layer) => [])
  }

  /**
   * Support is not agreement: a network that knows every candidate of a foreign trip adopts it with the
   * costs it was built at, and replies otherwise than to a restart from the same observations.
   */
  lemma SupportedCanDiffer(o: Origin)
    ensures var home, w := OnePosition(0), OnePosition(1);
      var v := PushAll(home, FRESH, [o]);
      && Sound(home, v) && Supports(w, v.candidates) && v.origins == [o]
      && Serve(w, v, []).Matched? && Serve(w, v, []).emission.cost == 0
      && Serve(w, FRESH, [o]).Matched? && Serve(w, FRESH, [o]).emission.cost == 1
  {
    OneLayer(0, o);
    OneLayer(1, o);
    OneReply(0, o, OnePosition(1), PushAll(OnePosition(0), FRESH, [o]));
    OneReply(1, o, OnePosition(1), PushAll(OnePosition(1), FRESH, [o]));
    FreshIsServed(OnePosition(1), [o]);
  }

  /** Whoever serves it, a trip of one position is replied to at the cost it was built at. */
  lemma OneReply(e: u32, o: Origin, w: World, v: TripValue)
    requires e <= MAX_WEIGHT && v.Intact() && v.origins == [o] && v.state == Building(FirstLayer([e]))
    requires |v.candidates| == 1 && FirstLayer([e]).Valid() && w == OnePosition(1)
    requires Conclude([o], FirstLayer([e])).1 == Ok(Path([0], e))
    ensures Answered(w, v).Matched? && Answered(w, v).emission.cost == e
    ensures Supports(w, v.candidates) && Serve(w, v, []) == Flagged(Answered(w, v), false)
  {
    var t := FirstLayer([e]);
    assert Matching.Weigh(w, v.candidates, t) == t;
    assert PushAll(w, v, []) == v;
  }

  lemma OneLayer(e: u32, o: Origin)
    requires e <= MAX_WEIGHT
    ensures var w := OnePosition(e);
      var v := PushAll(w, FRESH, [o]);
      && Sound(w, v) && v.origins == [o] && v.state == Building(FirstLayer([e])) && FirstLayer([e]).Valid()
      && v.candidates == [[Candidate(Anchor(0, e), Ref(0, 0))]]
      && Conclude([o], FirstLayer([e])).1 == Ok(Path([0], e)) && Solve(w, v).1 == Ok(Path([0], e))
  {
    var w, t := OnePosition(e), FirstLayer([e]);
    OnePush(e, o);
    FirstLayerIsValid([e]);
    OneNode(t, e);
    var v := PushAll(w, FRESH, [o]);
    assert Matching.Weigh(w, v.candidates, t) == t;
  }

  lemma OnePush(e: u32, o: Origin)
    requires e <= MAX_WEIGHT
    ensures var v := PushAll(OnePosition(e), FRESH, [o]);
      && Sound(OnePosition(e), v) && v.origins == [o] && v.state == Building(FirstLayer([e]))
      && v.candidates == [[Candidate(Anchor(0, e), Ref(0, 0))]]
  {
    RestartIsSound(OnePosition(e), [o]);
    OneStart(e, o, OnePosition(e), [Anchor(0, e)], [o]);
  }

  lemma OneStart(e: u32, o: Origin, w: World, anchors: seq<Anchor>, os: seq<Origin>)
    requires e <= MAX_WEIGHT && anchors == [Anchor(0, e)] && w.generate(o.point) == anchors && os == [o]
    ensures var v := PushAll(w, FRESH, os);
      v.origins == os && v.state == Building(FirstLayer([e])) && v.candidates == [[Candidate(Anchor(0, e), Ref(0, 0))]]
  {
    FirstPush(w, o, anchors, os);
    assert Emissions(anchors) == [e];
    assert Stamp(0, anchors) == [Candidate(Anchor(0, e), Ref(0, 0))];
  }

  lemma FirstPush(w: World, o: Origin, anchors: seq<Anchor>, os: seq<Origin>)
    requires anchors != [] && w.generate(o.point) == anchors && os == [o]
    ensures PushAll(w, FRESH, os) == TripValue(os, [Stamp(0, anchors)], Building(FirstLayer(Emissions(anchors))))
  {
    var v := Push(w, FRESH, o).0;
    assert v == TripValue(os, [Stamp(0, anchors)], Building(FirstLayer(Emissions(anchors))));
    assert os[1..] == [] && PushAll(w, v, []) == v;
  }

  lemma OneNode(t: Trellis, e: u32)
    requires t == FirstLayer([e]) && t.Valid() && e <= MAX_WEIGHT
    ensures Solvable(t) && Answer(t) == Path([0], e)
  {
    assert Dist(t, 0, 0) == e && FinalNode(t) == 0;
  }

  /** The trip handed back is sound again, so the next resume may rely on it. */
  lemma ReplyKeepsSound(w: World, u: TripValue)
    requires Sound(w, u) && Answered(w, u).Matched?
    ensures Sound(w, Answered(w, u).trip)
  {
    SolveKeepsSound(w, u);
    CutKeepsSound(w, Solve(w, u).0);
  }

  lemma CutKeepsSound(w: World, s: TripValue)
    requires Sound(w, s) && s.state.Solved?
    ensures Sound(w, CutBehind(s))
  {
    if ConvergencePoint(s.state.trellis).Some? {
      TailKeepsSound(w, s, |s.origins| - ConvergencePoint(s.state.trellis).value);
    }
  }

  /** Whichever network built it, the cut leaves a trip as intact as it was. */
  lemma CutKeepsIntact(s: TripValue)
    requires s.Intact() && s.state.Solved?
    ensures CutBehind(s).Intact()
  {
    var u := Cut(s, ConvergencePoint(s.state.trellis));
  }

  lemma Cut(s: TripValue, at: Option<nat>) returns (u: TripValue)
    requires s.Intact() && s.state.Solved? && at == ConvergencePoint(s.state.trellis)
    ensures u.Intact() && u == CutBehind(s)
  {
    u := s;
    if at.Some? {
      u := Tail(s, |s.origins| - at.value);
      TailKeepsIntact(s, |s.origins| - at.value);
    }
  }

  /** The service over an owned trip, of whichever network: downgrade or adopt, push, solve, snapshot, cut. */
  method ServeTrip(w: World, trip: Trip, newer: seq<Origin>) returns (r: Reply)
    requires w.Valid() && trip.View().Intact()
    modifies trip
    ensures r == Serve(w, old(trip.View()), newer)
    ensures r.Matched? ==> r.trip == trip.View() && r.trip.Intact()
    ensures r.Matched? && (r.downgraded || Sound(w, old(trip.View()))) ==> Sound(w, r.trip)
  {
    ghost var sound := Sound(w, trip.View());
    var downgraded := !Supports(w, trip.candidates);
    if downgraded {
      Restart(w, trip, newer);
    } else {
      PushEach(w, trip, newer);
    }
    r := AnswerTrip(w, trip);
    r := Flagged(r, downgraded);
  }

  /** Start over from the trip's own observations and the fresh ones. */
  method Restart(w: World, trip: Trip, newer: seq<Origin>)
    modifies trip
    ensures trip.View() == PushAll(w, FRESH, old(trip.origins) + newer) && Sound(w, trip.View())
  {
    var all := trip.origins + newer;
    trip.origins, trip.candidates, trip.state := [], [], Unstarted;
    FreshIsSound(w);
    PushEach(w, trip, all);
  }

  /** The solved reply: the snapshot of the solution, its timestamps, and the trip cut behind convergence. */
  method AnswerTrip(w: World, trip: Trip) returns (r: Reply)
    requires w.Valid() && trip.View().Intact()
    modifies trip
    ensures r == Answered(w, old(trip.View()))
    ensures r.Matched? ==> r.trip == trip.View() && r.trip.Intact()
    ensures r.Matched? && Sound(w, old(trip.View())) ==> Sound(w, r.trip)
  {
    ghost var u := trip.View();
    if trip.origins == [] {
      return NoMatch;
    }
    SolveKeepsIntact(w, u);
    var solved := SolveTrip(w, trip);
    if solved.Err? {
      return NoMatch;
    }
    ghost var s := trip.View();
    var os := trip.origins;
    var stamps := seq(|os|, i requires 0 <= i < |os| => os[i].timestamp);
    var snapshot := Snapshot(w, trip);
    assert trip.View() == s && snapshot == Ok(CollapseOf(w, s.candidates, s.state.path));
    CutTrip(w, trip);
    r := Matched(snapshot.value, stamps, false, trip.View());
  }

  method CutTrip(ghost w: World, trip: Trip)
    requires trip.View().Intact() && trip.state.Solved?
    modifies trip
    ensures trip.View() == CutBehind(old(trip.View())) && trip.View().Intact()
    ensures Sound(w, old(trip.View())) ==> Sound(w, trip.View())
  {
    ghost var s := trip.View();
    CutKeepsIntact(s);
    if Sound(w, s) {
      CutKeepsSound(w, s);
    }
    DropSettled(trip);
  }

  /** Ask where the routes fuse, and keep the layers from there on. */
  method DropSettled(trip: Trip)
    requires trip.View().Sane() && trip.state.Solved? && Solvable(trip.state.trellis)
    requires |trip.origins| == trip.state.trellis.Layers()
    modifies trip
    ensures trip.View() == CutBehind(old(trip.View()))
  {
    var converged := Convergence.Query(trip.state.trellis);
    match converged {
      case Ok(Some(c)) =>
        ConvergencePointIsUnique(trip.state.trellis, Some(c));
        trip.KeepTail(|trip.origins| - c);
      case Ok(None) =>
        ConvergencePointIsUnique(trip.state.trellis, None);
      case Err(_) =>
    }
  }
}
