/** One vehicle's events through the orchestrator worker, with crashes, retries and redelivery in any order. */
module Orchestrator {
  import opened Numbers
  import opened Observations
  import opened TimeOrder

  /** A delivered message: the event, in whole microseconds, and its ingest stream sequence, which is its revision. */
  datatype Message = Message(event: Origin, sequence: nat)

  /** What a solve hands back, resume state and emission alike, told apart by an identity. */
  datatype Solution = Solution(id: int)

  /** An emission on the matched stream. */
  datatype Emission = Emission(revision: nat, solution: Solution)

  /** Where the worker is with the message it holds. */
  datatype Phase =
    | Idle
    | Working(message: Message)
    | Gated(message: Message)
    | Replied(message: Message, reply: Option<Solution>)
    | Published(message: Message, solution: Solution)
    | Committed(message: Message)
    | Archived(message: Message)
    | Finished(message: Message)

  /**
   * Durable: the kept raw tail, everything ever written to it, the matched emissions, and the
   * acknowledged messages. Volatile: the history lane, the committed trip and the worker's phase.
   * `completed` remembers which messages ran the whole pipeline.
   */
  datatype Vehicle = Vehicle(
    tail: seq<Origin>, written: set<Origin>, emissions: set<Emission>, acked: set<Message>, completed: set<Message>,
    lane: Option<seq<Origin>>, trip: Option<Emission>, phase: Phase)

  const INITIAL := Vehicle([], {}, {}, {}, {}, None, None, Idle)

  // ----- The lane -----

  function Last(s: seq<Origin>, n: nat): seq<Origin> { if |s| <= n then s else s[|s| - n..] }

  /** Warming: the newest `3 * window` entries, newest first off the store, sorted by time. */
  function Warmed(window: nat, tail: seq<Origin>): seq<Origin> { SortUp(Reverse(Last(tail, 3 * window))) }

  /** The lane after an event enters it, trimmed to its bound. */
  function Entered(window: nat, lane: seq<Origin>, e: Origin): seq<Origin> { Last(lane + [e], 3 * window) }

  // ----- Steps -----

  datatype Step =
    | Deliver(message: Message)
    | Warm
    | Gate
    | Solve(reply: Option<Solution>)
    | Publish
    | PublishUnseen          // the emission became durable but its acknowledgement was lost
    | Commit
    | Archive(copies: nat, dropped: nat)
    | ArchiveUnseen(copies: nat, dropped: nat)   // written, but the writer never said so
    | EnterLane
    | Ack
    | AckLost
    | Fail                   // any transient failure: the pipeline starts the event over
    | EvictLane
    | EvictTrip
    | Crash

  function Holds(phase: Phase): Option<Message> { if phase.Idle? then None else Some(phase.message) }

  /** Which steps may happen. An archive write appends at least once and the store keeps its newest entry. */
  predicate Enabled(s: Vehicle, step: Step) {
    match step
    case Deliver(_) => s.phase.Idle?
    case Warm => s.phase.Working? && s.lane.None?
    case Gate => s.phase.Working? && s.lane.Some?
    case Solve(_) => s.phase.Gated?
    case Publish => s.phase.Replied? && s.phase.reply.Some?
    case PublishUnseen => s.phase.Replied? && s.phase.reply.Some?
    case Commit => s.phase.Published? || (s.phase.Replied? && s.phase.reply.None?)
    case Archive(copies, dropped) => s.phase.Committed? && copies > 0 && dropped < |s.tail| + copies
    case ArchiveUnseen(copies, dropped) => s.phase.Committed? && copies > 0 && dropped < |s.tail| + copies
    case EnterLane => s.phase.Archived?
    case Ack => s.phase.Finished?
    case AckLost => s.phase.Finished?
    case Fail => !s.phase.Idle? && !s.phase.Finished?
    case EvictLane => true
    case EvictTrip => true
    case Crash => true
  }

  /** Appending copies of an event, then trimming the oldest entries. */
  function Append(tail: seq<Origin>, e: Origin, copies: nat, dropped: nat): seq<Origin>
    requires dropped < |tail| + copies
  {
    (tail + seq(copies, _ => e))[dropped..]
  }

  function Wrote(s: Vehicle, e: Origin, copies: nat, dropped: nat): Vehicle
    requires dropped < |s.tail| + copies
  {
    s.(tail := Append(s.tail, e, copies, dropped), written := s.written + {e})
  }

  /** The state after a step. */
  function Apply(window: nat, s: Vehicle, step: Step): Vehicle
    requires Enabled(s, step)
  {
    match step
    case Deliver(m) => s.(phase := Working(m))
    case Warm => s.(lane := Some(Warmed(window, s.tail)))
    case Gate =>
      var lane, m := s.lane.value, s.phase.message;
      if lane != [] && m.event.timestamp <= lane[|lane| - 1].timestamp then s.(phase := Finished(m))
      else s.(phase := Gated(m))
    case Solve(reply) => s.(phase := Replied(s.phase.message, reply))
    case Publish =>
      var m, solution := s.phase.message, s.phase.reply.value;
      s.(emissions := s.emissions + {Emission(m.sequence, solution)}, phase := Published(m, solution))
    case PublishUnseen =>
      var m, solution := s.phase.message, s.phase.reply.value;
      s.(emissions := s.emissions + {Emission(m.sequence, solution)}, phase := Working(m))
    case Commit =>
      if s.phase.Published? then
        s.(trip := Some(Emission(s.phase.message.sequence, s.phase.solution)), phase := Committed(s.phase.message))
      else s.(phase := Committed(s.phase.message))
    case Archive(copies, dropped) =>
      Wrote(s, s.phase.message.event, copies, dropped).(phase := Archived(s.phase.message))
    case ArchiveUnseen(copies, dropped) =>
      Wrote(s, s.phase.message.event, copies, dropped).(phase := Working(s.phase.message))
    case EnterLane =>
      var m := s.phase.message;
      s.(lane := if s.lane.None? then None else Some(Entered(window, s.lane.value, m.event)),
         completed := s.completed + {m}, phase := Finished(m))
    case Ack => s.(acked := s.acked + {s.phase.message}, phase := Idle)
    case AckLost => s.(phase := Idle)
    case Fail => s.(phase := Working(s.phase.message))
    case EvictLane => s.(lane := None)
    case EvictTrip => s.(trip := None)
    case Crash => s.(lane := None, trip := None, phase := Idle)
  }

  // ----- The invariant -----

  /** Newest timestamp of an ascending sequence, if any. */
  function Newest(s: seq<Origin>): Option<int> { if s == [] then None else Some(s[|s| - 1].timestamp) }

  /** `t` is no later than the newest entry of `s`. */
  predicate Covered(s: seq<Origin>, t: int) { s != [] && t <= s[|s| - 1].timestamp }

  /** Strictly after everything in `s`. */
  predicate After(s: seq<Origin>, t: int) { s == [] || s[|s| - 1].timestamp < t }

  /** A message past the gate and not yet complete. */
  predicate InPipeline(phase: Phase) {
    phase.Gated? || phase.Replied? || phase.Published? || phase.Committed? || phase.Archived?
  }

  /** The event being worked on is already the newest durable one, but the lane does not show it yet. */
  predicate Ahead(s: Vehicle) {
    && (s.phase.Working? || InPipeline(s.phase)) && s.lane.Some?
    && Newest(s.tail) == Some(s.phase.message.event.timestamp) && After(s.lane.value, s.phase.message.event.timestamp)
  }

  /** Every completed message is strictly older than this one. */
  predicate NewerThanCompleted(s: Vehicle, m: Message) {
    forall c :: c in s.completed ==> c.event.timestamp < m.event.timestamp
  }

  ghost predicate Durable(s: Vehicle) {
    && Rising(s.tail) && TimesIdentify(s.tail)
    && (forall e :: e in s.written ==> Covered(s.tail, e.timestamp))
    && (s.tail != [] ==> s.tail[|s.tail| - 1] in s.written)
    && (forall m :: m in s.acked ==> Covered(s.tail, m.event.timestamp))
    && (forall m :: m in s.completed ==> Covered(s.tail, m.event.timestamp) && m.event in s.written)
  }

  /** A lane is in order, and no two of its entries share a time unless they are the same. */
  ghost predicate LaneInOrder(s: Vehicle) {
    s.lane.Some? ==> Rising(s.lane.value) && TimesIdentify(s.lane.value)
  }

  /** The event past the gate is newer than the lane, and is the archived one if one of its time is archived. */
  ghost predicate HeldIsNewest(s: Vehicle) {
    && (InPipeline(s.phase) && s.lane.Some? ==> After(s.lane.value, s.phase.message.event.timestamp))
    && (Ahead(s) || InPipeline(s.phase) ==>
          s.tail == [] || s.tail[|s.tail| - 1].timestamp < s.phase.message.event.timestamp
          || s.tail[|s.tail| - 1] == s.phase.message.event)
  }

  ghost predicate LaneAgrees(s: Vehicle) {
    s.lane.Some? ==> Newest(s.lane.value) == Newest(s.tail) || (Ahead(s) && NewerThanCompleted(s, s.phase.message))
  }

  ghost predicate PhaseAgrees(s: Vehicle) {
    && (InPipeline(s.phase) ==>
          && NewerThanCompleted(s, s.phase.message)
          && (After(s.tail, s.phase.message.event.timestamp) || Newest(s.tail) == Some(s.phase.message.event.timestamp)))
    && (s.phase.Archived? ==> Newest(s.tail) == Some(s.phase.message.event.timestamp) && s.phase.message.event in s.written)
    && (s.phase.Finished? ==> Covered(s.tail, s.phase.message.event.timestamp))
  }

  /** A committed trip, and one about to be, has its emission out under its revision. */
  ghost predicate TripIsEmitted(s: Vehicle) {
    && (s.trip.Some? ==> s.trip.value in s.emissions)
    && (s.phase.Published? ==> Emission(s.phase.message.sequence, s.phase.solution) in s.emissions)
  }

  ghost predicate Inv(s: Vehicle) {
    Durable(s) && LaneAgrees(s) && LaneInOrder(s) && HeldIsNewest(s) && PhaseAgrees(s) && TripIsEmitted(s)
  }

  // ----- Every step keeps it -----

  lemma LastKeepsOrder(s: seq<Origin>, n: nat)
    requires Rising(s) && TimesIdentify(s)
    ensures Rising(Last(s, n)) && TimesIdentify(Last(s, n))
  {
    var c := if |s| <= n then 0 else |s| - n;
    SuffixKeepsOrder(s, c);
  }

  /** Sorting what was read newest first gives back the tail's own newest entries, in order. */
  lemma WarmedIsTheTail(window: nat, tail: seq<Origin>)
    requires Rising(tail) && TimesIdentify(tail)
    ensures Warmed(window, tail) == Last(tail, 3 * window)
  {
    var kept := Last(tail, 3 * window);
    LastKeepsOrder(tail, 3 * window);
    SortUpUndoesReverse(kept);
  }

  lemma AppendKeepsOrder(tail: seq<Origin>, e: Origin, copies: nat, dropped: nat)
    requires Rising(tail) && TimesIdentify(tail) && copies > 0 && dropped < |tail| + copies
    requires tail == [] || tail[|tail| - 1].timestamp < e.timestamp || tail[|tail| - 1] == e
    ensures var after := Append(tail, e, copies, dropped);
      Rising(after) && TimesIdentify(after) && after != [] && after[|after| - 1] == e
  {
    CopiesKeepOrder(tail, e, copies);
    SuffixKeepsOrder(tail + seq(copies, _ => e), dropped);
  }

  /** Writing the event being worked on keeps the tail in order and makes that event its newest. */
  lemma WriteKeepsDurable(s: Vehicle, copies: nat, dropped: nat)
    requires Inv(s) && s.phase.Committed? && copies > 0 && dropped < |s.tail| + copies
    ensures Durable(Wrote(s, s.phase.message.event, copies, dropped))
    ensures Wrote(s, s.phase.message.event, copies, dropped).tail != []
    ensures Wrote(s, s.phase.message.event, copies, dropped).tail[|Wrote(s, s.phase.message.event, copies, dropped).tail| - 1] == s.phase.message.event
  {
    AppendKeepsOrder(s.tail, s.phase.message.event, copies, dropped);
  }

  lemma WarmKeepsInv(window: nat, s: Vehicle)
    requires window > 0 && Inv(s) && Enabled(s, Warm)
    ensures Inv(Apply(window, s, Warm))
  {
    WarmedIsTheTail(window, s.tail);
    LastKeepsOrder(s.tail, 3 * window);
    AgreeingLaneKeepsInv(s, Warmed(window, s.tail));
  }

  lemma AgreeingLaneKeepsInv(s: Vehicle, lane: seq<Origin>)
    requires Inv(s) && s.phase.Working? && s.lane.None?
    requires Newest(lane) == Newest(s.tail) && Rising(lane) && TimesIdentify(lane)
    ensures Inv(s.(lane := Some(lane)))
  {
  }

  lemma GateKeepsInv(window: nat, s: Vehicle)
    requires Inv(s) && Enabled(s, Gate)
    ensures Inv(Apply(window, s, Gate))
  {
    var lane, m := s.lane.value, s.phase.message;
    if !(lane != [] && m.event.timestamp <= lane[|lane| - 1].timestamp) && Newest(lane) == Newest(s.tail) {
      assert After(s.tail, m.event.timestamp);
      assert NewerThanCompleted(s, m);
    }
  }

  lemma ArchiveKeepsInv(window: nat, s: Vehicle, copies: nat, dropped: nat)
    requires Inv(s) && Enabled(s, Archive(copies, dropped))
    ensures Inv(Apply(window, s, Archive(copies, dropped))) && Inv(Apply(window, s, ArchiveUnseen(copies, dropped)))
  {
    WriteKeepsDurable(s, copies, dropped);
  }

  lemma EnterKeepsInv(window: nat, s: Vehicle)
    requires window > 0 && Inv(s) && Enabled(s, EnterLane)
    ensures Inv(Apply(window, s, EnterLane))
  {
    if s.lane.Some? {
      var entered := Entered(window, s.lane.value, s.phase.message.event);
      assert entered[|entered| - 1] == s.phase.message.event;
      CopiesKeepOrder(s.lane.value, s.phase.message.event, 1);
      assert seq(1, _ => s.phase.message.event) == [s.phase.message.event];
      LastKeepsOrder(s.lane.value + [s.phase.message.event], 3 * window);
    }
  }

  lemma PublishKeepsInv(window: nat, s: Vehicle, step: Step)
    requires Inv(s) && Enabled(s, step) && (step.Solve? || step.Publish? || step.PublishUnseen? || step.Commit?)
    ensures Inv(Apply(window, s, step))
  {
  }

  lemma OtherStepsKeepInv(window: nat, s: Vehicle, step: Step)
    requires Inv(s) && Enabled(s, step)
    requires step.Deliver? || step.Ack? || step.AckLost? || step.Fail? || step.EvictLane? || step.EvictTrip? || step.Crash?
    ensures Inv(Apply(window, s, step))
  {
  }

  lemma StepKeepsInv(window: nat, s: Vehicle, step: Step)
    requires window > 0 && Inv(s) && Enabled(s, step)
    ensures Inv(Apply(window, s, step))
  {
    match step {
      case Warm => WarmKeepsInv(window, s);
      case Gate => GateKeepsInv(window, s);
      case Archive(copies, dropped) => ArchiveKeepsInv(window, s, copies, dropped);
      case ArchiveUnseen(copies, dropped) => ArchiveKeepsInv(window, s, copies, dropped);
      case EnterLane => EnterKeepsInv(window, s);
      case Solve(_) => PublishKeepsInv(window, s, step);
      case Publish => PublishKeepsInv(window, s, step);
      case PublishUnseen => PublishKeepsInv(window, s, step);
      case Commit => PublishKeepsInv(window, s, step);
      case _ => OtherStepsKeepInv(window, s, step);
    }
  }

  /** The state after a sequence of steps from nothing, or none if one of them could not happen. */
  ghost function Run(window: nat, steps: seq<Step>): Option<Vehicle> {
    if steps == [] then Some(INITIAL) else
    var n := |steps| - 1;
    match Run(window, steps[..n])
    case None => None
    case Some(s) => if Enabled(s, steps[n]) then Some(Apply(window, s, steps[n])) else None
  }

  lemma {:induction false} RunsKeepInv(window: nat, steps: seq<Step>)
    requires window > 0 && Run(window, steps).Some?
    ensures Inv(Run(window, steps).value)
  {
    if steps != [] {
      RunsKeepInv(window, steps[..|steps| - 1]);
      StepKeepsInv(window, Run(window, steps[..|steps| - 1]).value, steps[|steps| - 1]);
    }
  }

  // ----- What holds of every run -----

  /** The `i`th step acknowledges this message. */
  ghost predicate AcksAt(window: nat, steps: seq<Step>, i: nat, m: Message) {
    i < |steps| && steps[i].Ack? && Run(window, steps[..i]).Some? && Run(window, steps[..i]).value.phase == Finished(m)
  }

  /** The `i`th step completes this message: it has been through the pipeline, and archived. */
  ghost predicate CompletesAt(window: nat, steps: seq<Step>, i: nat, m: Message) {
    i < |steps| && steps[i].EnterLane? && Run(window, steps[..i]).Some? && Run(window, steps[..i]).value.phase == Archived(m)
  }

  lemma StepRecords(window: nat, s: Vehicle, step: Step, m: Message)
    requires Enabled(s, step)
    ensures m in Apply(window, s, step).acked <==> m in s.acked || (step.Ack? && s.phase == Finished(m))
    ensures m in Apply(window, s, step).completed <==> m in s.completed || (step.EnterLane? && s.phase == Archived(m))
  {
  }

  /** What a run has on record: acknowledged are exactly the messages acknowledged, completed those completed. */
  lemma {:induction false} RecordsAreExact(window: nat, steps: seq<Step>, m: Message)
    requires Run(window, steps).Some?
    ensures m in Run(window, steps).value.acked <==> exists i :: AcksAt(window, steps, i, m)
    ensures m in Run(window, steps).value.completed <==> exists i :: CompletesAt(window, steps, i, m)
  {
    if steps != [] {
      var n := |steps| - 1;
      RecordsAreExact(window, steps[..n], m);
      StepRecords(window, Run(window, steps[..n]).value, steps[n], m);
      forall i: nat | i < n
        ensures AcksAt(window, steps, i, m) <==> AcksAt(window, steps[..n], i, m)
        ensures CompletesAt(window, steps, i, m) <==> CompletesAt(window, steps[..n], i, m)
      {
        assert steps[..n][..i] == steps[..i];
      }
      assert AcksAt(window, steps, n, m) <==> steps[n].Ack? && Run(window, steps[..n]).value.phase == Finished(m);
      assert CompletesAt(window, steps, n, m) <==> steps[n].EnterLane? && Run(window, steps[..n]).value.phase == Archived(m);
    }
  }

  /** Every acknowledged event was written to the raw tail, or is no later than one that was; the kept tail shows it. */
  lemma AckedIsDurable(window: nat, steps: seq<Step>, m: Message)
    requires window > 0 && Run(window, steps).Some? && m in Run(window, steps).value.acked
    ensures var s := Run(window, steps).value;
      Covered(s.tail, m.event.timestamp) && exists e :: e in s.written && m.event.timestamp <= e.timestamp
  {
    RunsKeepInv(window, steps);
    var s := Run(window, steps).value;
    assert s.tail[|s.tail| - 1] in s.written;
  }

  /** A committed trip always has its emission already durably published under its revision. */
  lemma CommittedTripIsPublished(window: nat, steps: seq<Step>)
    requires window > 0 && Run(window, steps).Some? && Run(window, steps).value.trip.Some?
    ensures Run(window, steps).value.trip.value in Run(window, steps).value.emissions
  {
    RunsKeepInv(window, steps);
  }

  /** Between events the newest lane timestamp is the newest archived one. */
  lemma LaneMatchesTailBetweenEvents(window: nat, steps: seq<Step>)
    requires window > 0 && Run(window, steps).Some?
    ensures var s := Run(window, steps).value;
      (s.phase.Idle? || s.phase.Finished?) && s.lane.Some? ==> Newest(s.lane.value) == Newest(s.tail)
  {
    RunsKeepInv(window, steps);
  }

  /** What has been acknowledged, completed, written or emitted stays so: crashes and evictions included. */
  lemma DurableStays(window: nat, s: Vehicle, step: Step)
    requires Enabled(s, step)
    ensures var u := Apply(window, s, step);
      s.acked <= u.acked && s.completed <= u.completed && s.written <= u.written && s.emissions <= u.emissions
  {
  }

  lemma {:induction false} CompletedStays(window: nat, steps: seq<Step>, i: nat, m: Message)
    requires i <= |steps| && Run(window, steps).Some?
    ensures Run(window, steps[..i]).Some?
    ensures m in Run(window, steps[..i]).value.completed ==> m in Run(window, steps).value.completed
    decreases |steps| - i
  {
    if i == |steps| {
      assert steps[..i] == steps;
    } else {
      CompletedStays(window, steps, i + 1, m);
      assert steps[..i + 1][..i] == steps[..i];
      DurableStays(window, Run(window, steps[..i]).value, steps[i]);
    }
  }

  /**
   * Once a message has completed, after any further deliveries, failures, evictions and crashes: it
   * is never again past the gate, so it is neither solved nor published again, and whenever it is
   * back before a warm gate the gate drops it.
   */
  lemma CompletedIsDroppedForever(window: nat, steps: seq<Step>, i: nat, m: Message)
    requires window > 0 && i <= |steps| && Run(window, steps).Some?
    requires Run(window, steps[..i]).Some? && m in Run(window, steps[..i]).value.completed
    ensures var s := Run(window, steps).value;
      && !(InPipeline(s.phase) && s.phase.message == m)
      && (s.phase == Working(m) && s.lane.Some? ==> Apply(window, s, Gate) == s.(phase := Finished(m)))
  {
    CompletedStays(window, steps, i, m);
    RunsKeepInv(window, steps);
  }

  lemma RunGoesOn(window: nat, steps: seq<Step>, step: Step)
    requires Run(window, steps).Some? && Enabled(Run(window, steps).value, step)
    ensures Run(window, steps + [step]) == Some(Apply(window, Run(window, steps).value, step))
  {
    assert (steps + [step])[..|steps|] == steps;
  }

  /** With no context window the lane never holds anything, and a completed event is solved again. */
  lemma WindowlessGateLetsThrough(m: Message) returns (steps: seq<Step>)
    ensures Run(0, steps).Some? && Run(0, steps).value.phase == Gated(m) && m in Run(0, steps).value.completed
  {
    steps := [];
    RunGoesOn(0, steps, Deliver(m));
    steps := steps + [Deliver(m)];
    RunGoesOn(0, steps, Warm);
    steps := steps + [Warm];
    assert Reverse(Last([], 0)) == [];
    assert Run(0, steps).value == INITIAL.(phase := Working(m), lane := Some([]));
    RunGoesOn(0, steps, Gate);
    steps := steps + [Gate];
    RunGoesOn(0, steps, Solve(None));
    steps := steps + [Solve(None)];
    RunGoesOn(0, steps, Commit);
    steps := steps + [Commit];
    RunGoesOn(0, steps, Archive(1, 0));
    steps := steps + [Archive(1, 0)];
    RunGoesOn(0, steps, EnterLane);
    steps := steps + [EnterLane];
    assert Entered(0, [], m.event) == [];
    RunGoesOn(0, steps, Ack);
    steps := steps + [Ack];
    RunGoesOn(0, steps, Deliver(m));
    steps := steps + [Deliver(m)];
    RunGoesOn(0, steps, Gate);
    steps := steps + [Gate];
  }

  /** In no run is a completed message past the gate again. */
  ghost predicate GateIsIdempotent(window: nat) {
    forall steps: seq<Step>, m: Message :: Run(window, steps).Some? && m in Run(window, steps).value.completed ==>
      !(InPipeline(Run(window, steps).value.phase) && Run(window, steps).value.phase.message == m)
  }

  /** Reprocessing is idempotent exactly when the context window is at least one. */
  lemma GateIsIdempotentIffWindowed(window: nat)
    ensures GateIsIdempotent(window) <==> window >= 1
  {
    if window >= 1 {
      forall steps: seq<Step>, m: Message | Run(window, steps).Some? && m in Run(window, steps).value.completed
        ensures !(InPipeline(Run(window, steps).value.phase) && Run(window, steps).value.phase.message == m)
      {
        RunsKeepInv(window, steps);
      }
    } else {
      var m := Message(Origin(Point(0.0, 0.0), 0), 0);
      var steps := WindowlessGateLetsThrough(m);
    }
  }

  // ----- A fleet of vehicles -----

  /** One vehicle's step, or a crash of the pod, which every vehicle it owns sees. */
  datatype FleetStep = One(vehicle: int, step: Step) | CrashAll

  ghost predicate FleetMoves(window: nat, a: map<int, Vehicle>, step: FleetStep, b: map<int, Vehicle>) {
    match step
    case One(v, st) => v in a && Enabled(a[v], st) && b == a[v := Apply(window, a[v], st)]
    case CrashAll => b.Keys == a.Keys && forall v :: v in a ==> b[v] == Apply(window, a[v], Crash)
  }

  /** Vehicles share nothing, so what holds of one holds of each through any fleet step. */
  lemma FleetKeepsInv(window: nat, a: map<int, Vehicle>, step: FleetStep, b: map<int, Vehicle>)
    requires window > 0 && FleetMoves(window, a, step, b) && forall v :: v in a ==> Inv(a[v])
    ensures forall v :: v in b ==> Inv(b[v])
  {
    forall v | v in b
      ensures Inv(b[v])
    {
      match step {
        case One(x, st) =>
          if v == x {
            StepKeepsInv(window, a[v], st);
          }
        case CrashAll =>
          StepKeepsInv(window, a[v], Crash);
      }
    }
  }
}
