/** What becomes of the gate when the archive keeps time coarser than events carry it. */
module ArchiveResolution {
  import opened Numbers
  import opened Observations
  import opened TimeOrder
  import opened Orchestrator

  /** The time of the event is one the archive keeps exactly. */
  predicate Whole(unit: nat, e: Origin)
    requires unit > 0
  {
    e.timestamp % unit == 0
  }

  /** A step of the worker over an archive of this resolution: what is written loses the finer part. */
  function ApplyAt(window: nat, unit: nat, s: Vehicle, step: Step): Vehicle
    requires unit > 0 && Enabled(s, step)
  {
    var t := Apply(window, s, step);
    match step
    case Archive(copies, dropped) => t.(tail := Append(s.tail, Truncated(unit, s.phase.message.event), copies, dropped))
    case ArchiveUnseen(copies, dropped) => t.(tail := Append(s.tail, Truncated(unit, s.phase.message.event), copies, dropped))
    case _ => t
  }

  ghost function RunAt(window: nat, unit: nat, steps: seq<Step>): Option<Vehicle>
    requires unit > 0
  {
    if steps == [] then Some(INITIAL) else
    var n := |steps| - 1;
    match RunAt(window, unit, steps[..n])
    case None => None
    case Some(s) => if Enabled(s, steps[n]) then Some(ApplyAt(window, unit, s, steps[n])) else None
  }

  /** Every delivery is of an event the archive keeps exactly. */
  ghost predicate DeliversWhole(unit: nat, steps: seq<Step>)
    requires unit > 0
  {
    forall i :: 0 <= i < |steps| && steps[i].Deliver? ==> Whole(unit, steps[i].message.event)
  }

  lemma TruncatedIsExactIffWhole(unit: nat, e: Origin)
    requires unit > 0
    ensures Truncated(unit, e) == e <==> Whole(unit, e)
    ensures Truncated(unit, e).timestamp <= e.timestamp
  {
    var q, r := e.timestamp / unit, e.timestamp % unit;
    assert e.timestamp == unit * q + r;
  }

  /** While every delivery is whole, so is whatever the worker holds, and the archive loses nothing. */
  lemma {:induction false} WholeRunsAgree(window: nat, unit: nat, steps: seq<Step>)
    requires unit > 0 && DeliversWhole(unit, steps)
    ensures RunAt(window, unit, steps) == Run(window, steps)
    ensures Run(window, steps).Some? && !Run(window, steps).value.phase.Idle? ==>
      Whole(unit, Run(window, steps).value.phase.message.event)
  {
    if steps != [] {
      var n := |steps| - 1;
      assert forall i :: 0 <= i < n ==> steps[..n][i] == steps[i];
      WholeRunsAgree(window, unit, steps[..n]);
      if Run(window, steps[..n]).Some? && Enabled(Run(window, steps[..n]).value, steps[n]) {
        WholeStepsAgree(window, unit, Run(window, steps[..n]).value, steps[n]);
      }
    }
  }

  lemma WholeStepsAgree(window: nat, unit: nat, s: Vehicle, step: Step)
    requires unit > 0 && Enabled(s, step) && (!s.phase.Idle? ==> Whole(unit, s.phase.message.event))
    requires step.Deliver? ==> Whole(unit, step.message.event)
    ensures ApplyAt(window, unit, s, step) == Apply(window, s, step)
    ensures var t := Apply(window, s, step); !t.phase.Idle? ==> Whole(unit, t.phase.message.event)
  {
    if !s.phase.Idle? { TruncatedIsExactIffWhole(unit, s.phase.message.event); }
  }

  // ----- What every run keeps, whatever the times delivered -----

  /** The newest entry of `s`, if any, is no later than `t`. */
  predicate UpTo(s: seq<Origin>, t: int) { s == [] || s[|s| - 1].timestamp <= t }

  /** The archive is in order and holds whole times only. */
  ghost predicate TailWhole(unit: nat, tail: seq<Origin>)
    requires unit > 0
  {
    Rising(tail) && forall i {:trigger tail[i]} :: 0 <= i < |tail| ==> Whole(unit, tail[i])
  }

  /** A warm lane shows the newest archived time, unless that is what the held event was archived as. */
  ghost predicate LaneShows(unit: nat, s: Vehicle)
    requires unit > 0
  {
    s.lane.Some? && s.tail != [] ==>
      || Covered(s.lane.value, s.tail[|s.tail| - 1].timestamp)
      || ((s.phase.Working? || InPipeline(s.phase))
          && s.tail[|s.tail| - 1].timestamp == Truncated(unit, s.phase.message.event).timestamp)
  }

  /** An event past the gate is after the lane, and no earlier than anything archived. */
  ghost predicate HeldIsLatest(s: Vehicle) {
    InPipeline(s.phase) ==>
      && (s.lane.Some? ==> After(s.lane.value, s.phase.message.event.timestamp))
      && UpTo(s.tail, s.phase.message.event.timestamp)
  }

  /** What a completed message of a whole time leaves behind for the gate. */
  ghost predicate Remembered(s: Vehicle, c: Message) {
    && Covered(s.tail, c.event.timestamp)
    && (s.lane.Some? ==> Covered(s.lane.value, c.event.timestamp))
    && (InPipeline(s.phase) ==> c.event.timestamp < s.phase.message.event.timestamp)
  }

  ghost predicate CoarseInv(unit: nat, s: Vehicle)
    requires unit > 0
  {
    && TailWhole(unit, s.tail) && LaneShows(unit, s) && HeldIsLatest(s) && (s.lane.Some? ==> Rising(s.lane.value))
    && (s.phase.Archived? ==> Newest(s.tail) == Some(Truncated(unit, s.phase.message.event).timestamp))
    && forall c {:trigger Remembered(s, c)} :: c in s.completed && Whole(unit, c.event) ==> Remembered(s, c)
  }

  /** Warming from an archive in order shows its newest time, even when several entries share it. */
  lemma WarmedShowsNewest(window: nat, tail: seq<Origin>)
    requires window > 0 && Rising(tail)
    ensures Newest(Warmed(window, tail)) == Newest(tail)
  {
    var last := Last(tail, 3 * window);
    if tail != [] {
      ReverseAt(last, 0);
      assert Reverse(last)[0] == tail[|tail| - 1];
      forall x | x in Reverse(last)
        ensures x.timestamp <= tail[|tail| - 1].timestamp
      {
        LastIsNoLater(tail, last, x);
      }
      SortsLatestLast(Reverse(last), tail[|tail| - 1]);
    }
  }

  /** Sorted oldest first, a list ends at the time of its latest entry. */
  lemma SortsLatestLast(kept: seq<Origin>, top: Origin)
    requires top in kept && forall x :: x in kept ==> x.timestamp <= top.timestamp
    ensures SortUp(kept) != [] && SortUp(kept)[|kept| - 1].timestamp == top.timestamp
  {
    var lane := SortUp(kept);
    SortUpRises(kept);
    SortUpKeeps(kept, top);
    var k :| 0 <= k < |lane| && lane[k] == top;
    assert lane[|lane| - 1] in lane;
    SortUpKeeps(kept, lane[|lane| - 1]);
  }

  lemma LastIsNoLater(tail: seq<Origin>, last: seq<Origin>, x: Origin)
    requires Rising(tail) && tail != [] && |last| <= |tail| && last == tail[|tail| - |last|..] && x in Reverse(last)
    ensures x.timestamp <= tail[|tail| - 1].timestamp
  {
    var i :| 0 <= i < |last| && Reverse(last)[i] == x;
    ReverseAt(last, i);
  }

  /** A whole time no later than an event is no later than what the event is archived as. */
  lemma WholeBelowTruncated(unit: nat, e: Origin, x: Origin)
    requires unit > 0 && Whole(unit, x) && x.timestamp <= e.timestamp
    ensures x.timestamp <= Truncated(unit, e).timestamp
  {
    var q, k := e.timestamp / unit, x.timestamp / unit;
    assert x.timestamp == unit * k && e.timestamp < unit * q + unit;
    Scales(unit, q, k);
    Scales(unit, k, q);
  }

  lemma Scales(unit: nat, x: int, y: int)
    requires unit > 0
    ensures x <= y ==> unit * x <= unit * y
    ensures x < y ==> unit * x + unit <= unit * y
  {
    if x < y { ScalesBy(unit, x, y - x - 1); }
  }

  lemma ScalesBy(unit: nat, x: int, d: nat)
    ensures unit * x + unit <= unit * (x + d + 1)
  {
    calc {
      unit * (x + d + 1);
      unit * x + unit * d + unit;
    }
    assert 0 <= unit * d;
  }

  lemma TruncatedIsWhole(unit: nat, e: Origin)
    requires unit > 0
    ensures Whole(unit, Truncated(unit, e))
  {
    MultipleIsWhole(unit, e.timestamp / unit);
  }

  lemma MultipleIsWhole(unit: nat, q: int)
    requires unit > 0
    ensures (q * unit) % unit == 0
  {
    var n := q * unit;
    assert n == unit * (n / unit) + n % unit;
    Scales(unit, n / unit, q);
    Scales(unit, q, n / unit);
  }

  /** Writing the held event's coarser time keeps the archive in order. */
  lemma WriteKeepsTail(unit: nat, tail: seq<Origin>, e: Origin, copies: nat, dropped: nat)
    requires unit > 0 && TailWhole(unit, tail) && UpTo(tail, e.timestamp) && copies > 0 && dropped < |tail| + copies
    ensures var after := Append(tail, Truncated(unit, e), copies, dropped);
      TailWhole(unit, after) && after != [] && after[|after| - 1] == Truncated(unit, e)
    ensures UpTo(tail, Truncated(unit, e).timestamp)
  {
    var t := Truncated(unit, e);
    TruncatedIsWhole(unit, e);
    if tail != [] { WholeBelowTruncated(unit, e, tail[|tail| - 1]); }
    var all := tail + seq(copies, _ => t);
    forall i {:trigger all[i]} | 0 <= i < |all|
      ensures Whole(unit, all[i]) && all[i].timestamp <= t.timestamp
    {
      if i < |tail| { assert all[i] == tail[i] && (i == |tail| - 1 || tail[i].timestamp <= tail[|tail| - 1].timestamp); }
    }
    assert Rising(all);
    RisingSuffix(all, dropped);
  }

  lemma RisingSuffix(s: seq<Origin>, c: nat)
    requires Rising(s) && c <= |s|
    ensures Rising(s[c..])
  {
    var r := s[c..];
    forall i, j {:trigger r[i], r[j]} | 0 <= i < j < |r|
      ensures r[i].timestamp <= r[j].timestamp
    {
      assert r[i] == s[c + i] && r[j] == s[c + j];
    }
  }

  lemma CoarseArchive(window: nat, unit: nat, s: Vehicle, step: Step)
    requires unit > 0 && CoarseInv(unit, s) && Enabled(s, step) && (step.Archive? || step.ArchiveUnseen?)
    ensures CoarseInv(unit, ApplyAt(window, unit, s, step))
  {
    var e := s.phase.message.event;
    WriteKeepsTail(unit, s.tail, e, step.copies, step.dropped);
    TruncatedIsExactIffWhole(unit, e);
    var t := ApplyAt(window, unit, s, step);
    forall c | c in t.completed && Whole(unit, c.event)
      ensures Remembered(t, c)
    {
      assert Remembered(s, c);
    }
  }

  lemma CoarseWarm(window: nat, unit: nat, s: Vehicle)
    requires window > 0 && unit > 0 && CoarseInv(unit, s) && Enabled(s, Warm)
    ensures CoarseInv(unit, ApplyAt(window, unit, s, Warm))
  {
    WarmedShowsNewest(window, s.tail);
    SortUpRises(Reverse(Last(s.tail, 3 * window)));
    var t := ApplyAt(window, unit, s, Warm);
    forall c | c in t.completed && Whole(unit, c.event)
      ensures Remembered(t, c)
    {
      assert Remembered(s, c);
    }
  }

  lemma CoarseGate(window: nat, unit: nat, s: Vehicle)
    requires unit > 0 && CoarseInv(unit, s) && Enabled(s, Gate)
    ensures CoarseInv(unit, ApplyAt(window, unit, s, Gate))
  {
    var t := ApplyAt(window, unit, s, Gate);
    TruncatedIsExactIffWhole(unit, s.phase.message.event);
    forall c | c in t.completed && Whole(unit, c.event)
      ensures Remembered(t, c)
    {
      assert Remembered(s, c);
    }
  }

  lemma EnteredRises(window: nat, lane: seq<Origin>, e: Origin)
    requires window > 0 && Rising(lane) && After(lane, e.timestamp)
    ensures var after := Entered(window, lane, e); Rising(after) && after != [] && after[|after| - 1] == e
  {
    var all := lane + [e];
    forall i {:trigger all[i]} | 0 <= i < |lane|
      ensures all[i].timestamp <= e.timestamp
    {
      assert all[i] == lane[i] && (i == |lane| - 1 || lane[i].timestamp <= lane[|lane| - 1].timestamp);
    }
    assert Rising(all);
    RisingSuffix(all, if |all| <= 3 * window then 0 else |all| - 3 * window);
  }

  lemma CoarseEnter(window: nat, unit: nat, s: Vehicle)
    requires window > 0 && unit > 0 && CoarseInv(unit, s) && Enabled(s, EnterLane)
    ensures CoarseInv(unit, ApplyAt(window, unit, s, EnterLane))
  {
    var t, e := ApplyAt(window, unit, s, EnterLane), s.phase.message.event;
    TruncatedIsExactIffWhole(unit, e);
    if s.lane.Some? { EnteredRises(window, s.lane.value, e); }
    forall c | c in t.completed && Whole(unit, c.event)
      ensures Remembered(t, c)
    {
      if c in s.completed { assert Remembered(s, c); }
    }
  }

  lemma CoarseOther(window: nat, unit: nat, s: Vehicle, step: Step)
    requires unit > 0 && CoarseInv(unit, s) && Enabled(s, step)
    requires !step.Archive? && !step.ArchiveUnseen? && !step.Warm? && !step.Gate? && !step.EnterLane?
    ensures CoarseInv(unit, ApplyAt(window, unit, s, step))
  {
    var t := ApplyAt(window, unit, s, step);
    forall c | c in t.completed && Whole(unit, c.event)
      ensures Remembered(t, c)
    {
      assert Remembered(s, c);
    }
  }

  /** Every step over an archive of any resolution keeps it, finer events among the deliveries or not. */
  lemma StepKeepsCoarse(window: nat, unit: nat, s: Vehicle, step: Step)
    requires window > 0 && unit > 0 && CoarseInv(unit, s) && Enabled(s, step)
    ensures CoarseInv(unit, ApplyAt(window, unit, s, step))
  {
    match step
    case Archive(_, _) => CoarseArchive(window, unit, s, step);
    case ArchiveUnseen(_, _) => CoarseArchive(window, unit, s, step);
    case Warm => CoarseWarm(window, unit, s);
    case Gate => CoarseGate(window, unit, s);
    case EnterLane => CoarseEnter(window, unit, s);
    case _ => CoarseOther(window, unit, s, step);
  }

  lemma {:induction false} RunsKeepCoarse(window: nat, unit: nat, steps: seq<Step>)
    requires window > 0 && unit > 0 && RunAt(window, unit, steps).Some?
    ensures CoarseInv(unit, RunAt(window, unit, steps).value)
  {
    if steps != [] {
      RunsKeepCoarse(window, unit, steps[..|steps| - 1]);
      StepKeepsCoarse(window, unit, RunAt(window, unit, steps[..|steps| - 1]).value, steps[|steps| - 1]);
    }
  }

  // ----- Which messages are processed once -----

  /** In no run, whatever else it delivers, is this message past the gate once it has completed. */
  ghost predicate Idempotent(window: nat, unit: nat, m: Message)
    requires unit > 0
  {
    forall steps: seq<Step> :: Completes(window, unit, steps, m) ==> !PastTheGate(RunAt(window, unit, steps).value, m)
  }

  ghost predicate Completes(window: nat, unit: nat, steps: seq<Step>, m: Message)
    requires unit > 0
  {
    RunAt(window, unit, steps).Some? && m in RunAt(window, unit, steps).value.completed
  }

  predicate PastTheGate(s: Vehicle, m: Message) { InPipeline(s.phase) && s.phase.message == m }

  /** The `i`th of these steps leads from the `i`th of these states to the next. */
  ghost predicate StepsAt(window: nat, unit: nat, more: seq<Step>, states: seq<Vehicle>, i: nat)
    requires unit > 0 && i < |more| < |states|
  {
    Enabled(states[i], more[i]) && states[i + 1] == ApplyAt(window, unit, states[i], more[i])
  }

  /** A run goes on by its states. */
  lemma {:induction false} RunsOn(window: nat, unit: nat, steps: seq<Step>, more: seq<Step>, states: seq<Vehicle>)
    requires unit > 0 && |states| == |more| + 1 && RunAt(window, unit, steps) == Some(states[0])
    requires forall i :: 0 <= i < |more| ==> StepsAt(window, unit, more, states, i)
    ensures RunAt(window, unit, steps + more) == Some(states[|more|])
    decreases |more|
  {
    if more == [] {
      assert steps + more == steps;
    } else {
      var n := |more| - 1;
      forall i {:trigger more[i]} | 0 <= i < n
        ensures StepsAt(window, unit, more[..n], states[..n + 1], i)
      {
        assert StepsAt(window, unit, more, states, i);
      }
      RunsOn(window, unit, steps, more[..n], states[..n + 1]);
      assert StepsAt(window, unit, more, states, n);
      var all := steps + more;
      assert all[..|all| - 1] == steps + more[..n] && all[|all| - 1] == more[n];
      RunsOneMore(window, unit, all, states[n], states[n + 1]);
    }
  }

  lemma RunsOneMore(window: nat, unit: nat, all: seq<Step>, s: Vehicle, t: Vehicle)
    requires unit > 0 && all != [] && RunAt(window, unit, all[..|all| - 1]) == Some(s)
    requires Enabled(s, all[|all| - 1]) && t == ApplyAt(window, unit, s, all[|all| - 1])
    ensures RunAt(window, unit, all) == Some(t)
  {
  }

  /** One message through the whole pipeline, solved to nothing, and then a crash. */
  function Round(m: Message): seq<Step> { [Deliver(m), Warm] + Carry() }

  function Carry(): seq<Step> { [Gate, Solve(None), Commit, Archive(1, 0), EnterLane, Ack, Crash] }

  /** A restarted worker takes a message that is later than the archive, and leaves its coarser event behind. */
  lemma RoundRuns(window: nat, unit: nat, steps: seq<Step>, s: Vehicle, m: Message) returns (t: Vehicle)
    requires window > 0 && unit > 0 && RunAt(window, unit, steps) == Some(s) && s.phase == Idle && s.lane == None
    requires After(Warmed(window, s.tail), m.event.timestamp)
    ensures RunAt(window, unit, steps + Round(m)) == Some(t) && t.phase == Idle && t.lane == None
    ensures t.tail == s.tail + [Truncated(unit, m.event)] && t.completed == s.completed + {m}
  {
    var gated := GateReached(window, unit, steps, s, m);
    t := Carried(window, unit, steps + [Deliver(m), Warm], gated, m);
    assert steps + Round(m) == steps + [Deliver(m), Warm] + Carry();
  }

  /** A message at the gate and later than the lane, through the rest of the pipeline. */
  lemma Carried(window: nat, unit: nat, steps: seq<Step>, s: Vehicle, m: Message) returns (t: Vehicle)
    requires unit > 0 && RunAt(window, unit, steps) == Some(s) && s.phase == Working(m)
    requires s.lane.Some? && After(s.lane.value, m.event.timestamp)
    ensures RunAt(window, unit, steps + Carry()) == Some(t) && t.phase == Idle && t.lane == None
    ensures t.tail == s.tail + [Truncated(unit, m.event)] && t.completed == s.completed + {m}
  {
    var s1 := s.(phase := Committed(m));
    RunsOn(window, unit, steps, [Gate, Solve(None), Commit], [s, s.(phase := Gated(m)), s.(phase := Replied(m, None)), s1]);
    t := Closed(window, unit, steps + [Gate, Solve(None), Commit], s1, m);
    assert steps + Carry() == steps + [Gate, Solve(None), Commit] + [Archive(1, 0), EnterLane, Ack, Crash];
  }

  lemma Closed(window: nat, unit: nat, steps: seq<Step>, s: Vehicle, m: Message) returns (t: Vehicle)
    requires unit > 0 && RunAt(window, unit, steps) == Some(s) && s.phase == Committed(m)
    ensures RunAt(window, unit, steps + [Archive(1, 0), EnterLane, Ack, Crash]) == Some(t)
    ensures t.phase == Idle && t.lane == None
    ensures t.tail == s.tail + [Truncated(unit, m.event)] && t.completed == s.completed + {m}
  {
    var e := Truncated(unit, m.event);
    assert (s.tail + seq(1, _ => e))[0..] == s.tail + [e];
    var s1 := ApplyAt(window, unit, s, Archive(1, 0));
    var s2 := ApplyAt(window, unit, s1, EnterLane);
    var s3 := ApplyAt(window, unit, s2, Ack);
    t := ApplyAt(window, unit, s3, Crash);
    RunsOn(window, unit, steps, [Archive(1, 0), EnterLane, Ack, Crash], [s, s1, s2, s3, t]);
  }

  /** A restarted worker up to the gate. */
  lemma GateReached(window: nat, unit: nat, steps: seq<Step>, s: Vehicle, m: Message) returns (t: Vehicle)
    requires window > 0 && unit > 0 && RunAt(window, unit, steps) == Some(s) && s.phase == Idle && s.lane == None
    ensures RunAt(window, unit, steps + [Deliver(m), Warm]) == Some(t)
    ensures t == s.(phase := Working(m), lane := Some(Warmed(window, s.tail)))
  {
    var s1 := s.(phase := Working(m));
    t := s1.(lane := Some(Warmed(window, s.tail)));
    RunsOn(window, unit, steps, [Deliver(m), Warm], [s, s1, t]);
  }

  /** After a crash the coarser event warms the lane, and the finer one passes it again. */
  lemma FinerEventPassesAgain(window: nat, unit: nat, m: Message) returns (steps: seq<Step>)
    requires window > 0 && unit > 0 && !Whole(unit, m.event)
    ensures Completes(window, unit, steps, m) && PastTheGate(RunAt(window, unit, steps).value, m)
  {
    var first, s := FirstPass(window, unit, m);
    var t := GateReached(window, unit, first, s, m);
    PassesTheGate(window, unit, t, m);
    var again := first + [Deliver(m), Warm];
    RunsOn(window, unit, again, [Gate], [t, t.(phase := Gated(m))]);
    steps := again + [Gate];
  }

  lemma FirstPass(window: nat, unit: nat, m: Message) returns (steps: seq<Step>, s: Vehicle)
    requires window > 0 && unit > 0
    ensures RunAt(window, unit, steps) == Some(s) && s.phase == Idle && s.lane == None
    ensures s.tail == [Truncated(unit, m.event)] && m in s.completed
  {
    WarmedIsTheTail(window, []);
    s := RoundRuns(window, unit, [], INITIAL, m);
    steps := [] + Round(m);
  }

  lemma PassesTheGate(window: nat, unit: nat, t: Vehicle, m: Message)
    requires window > 0 && unit > 0 && !Whole(unit, m.event) && t.tail == [Truncated(unit, m.event)]
    requires t.phase == Working(m) && t.lane == Some(Warmed(window, t.tail))
    ensures ApplyAt(window, unit, t, Gate) == t.(phase := Gated(m))
  {
    WarmedIsTheTail(window, t.tail);
    TruncatedIsExactIffWhole(unit, m.event);
  }

  /**
   * Over an archive of any resolution, in runs that deliver whatever else in any order: a message is
   * processed once exactly when its time is one the archive keeps.
   */
  lemma IdempotentIffWhole(window: nat, unit: nat, m: Message)
    requires window > 0 && unit > 0
    ensures Idempotent(window, unit, m) <==> Whole(unit, m.event)
  {
    if Whole(unit, m.event) {
      forall steps: seq<Step> | Completes(window, unit, steps, m)
        ensures !PastTheGate(RunAt(window, unit, steps).value, m)
      {
        RunsKeepCoarse(window, unit, steps);
        assert Remembered(RunAt(window, unit, steps).value, m);
      }
    } else {
      var steps := FinerEventPassesAgain(window, unit, m);
    }
  }
}
