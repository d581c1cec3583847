/** What a warm lane holds: the newest of what warmed it and of what has entered since, and nothing else. */
module Lanes {
  import opened Numbers
  import opened Observations
  import opened TimeOrder
  import opened Orchestrator

  /** The state these steps lead to, if each can happen. */
  ghost function Onwards(window: nat, s: Vehicle, steps: seq<Step>): Option<Vehicle> {
    if steps == [] then Some(s) else
    var n := |steps| - 1;
    match Onwards(window, s, steps[..n])
    case None => None
    case Some(t) => if Enabled(t, steps[n]) then Some(Apply(window, t, steps[n])) else None
  }

  /** The events that enter the lane along them, in order. */
  ghost function Entering(window: nat, s: Vehicle, steps: seq<Step>): seq<Origin>
    requires Onwards(window, s, steps).Some?
  {
    if steps == [] then [] else
    var n := |steps| - 1;
    Entering(window, s, steps[..n]) +
      if steps[n].EnterLane? then [Onwards(window, s, steps[..n]).value.phase.message.event] else []
  }

  /** Nothing evicts the lane or restarts the worker. */
  ghost predicate KeepsLane(steps: seq<Step>) {
    forall i {:trigger steps[i]} :: 0 <= i < |steps| ==> !steps[i].EvictLane? && !steps[i].Crash?
  }

  /** The last `n` of a sequence, or all of it. */
  ghost predicate IsNewest(lane: seq<Origin>, all: seq<Origin>, n: nat) {
    |lane| <= |all| && lane == all[|all| - |lane|..] && |lane| == Min(|all|, n)
  }

  lemma NewestGrows(lane: seq<Origin>, all: seq<Origin>, n: nat, e: Origin, after: seq<Origin>)
    requires IsNewest(lane, all, n) && IsNewest(after, lane + [e], n)
    ensures IsNewest(after, all + [e], n)
  {
    var more := all + [e];
    assert lane + [e] == more[|more| - |lane| - 1..];
    assert after == more[|more| - |after|..];
  }

  lemma EntersAsNewest(window: nat, lane: seq<Origin>, e: Origin)
    ensures IsNewest(Entered(window, lane, e), lane + [e], 3 * window)
  {
  }

  /**
   * Until the lane is evicted or the worker restarts, whatever else happens, the lane holds the newest three
   * windows' worth of what it held and of the events that entered it since.
   */
  lemma {:induction false} LaneIsTheNewest(window: nat, s: Vehicle, steps: seq<Step>, t: Vehicle)
    requires s.lane.Some? && |s.lane.value| <= 3 * window && KeepsLane(steps) && Onwards(window, s, steps) == Some(t)
    ensures t.lane.Some? && IsNewest(t.lane.value, s.lane.value + Entering(window, s, steps), 3 * window)
    decreases |steps|
  {
    if steps == [] {
      assert s.lane.value + [] == s.lane.value;
    } else {
      var n := |steps| - 1;
      var before := steps[..n];
      var u := Onwards(window, s, before).value;
      LaneIsTheNewest(window, s, before, u);
      LaneStep(window, u, steps[n], s.lane.value + Entering(window, s, before));
      if steps[n].EnterLane? {
        var e := u.phase.message.event;
        assert s.lane.value + Entering(window, s, before) + [e] == s.lane.value + (Entering(window, s, before) + [e]);
      } else {
        assert Entering(window, s, before) + [] == Entering(window, s, before);
      }
    }
  }

  /** One step: an event enters as the newest, and nothing else touches the lane. */
  lemma LaneStep(window: nat, u: Vehicle, step: Step, all: seq<Origin>)
    requires u.lane.Some? && Enabled(u, step) && !step.EvictLane? && !step.Crash? && IsNewest(u.lane.value, all, 3 * window)
    ensures Apply(window, u, step).lane.Some?
    ensures IsNewest(Apply(window, u, step).lane.value,
                     if step.EnterLane? then all + [u.phase.message.event] else all, 3 * window)
  {
    if step.EnterLane? {
      var e := u.phase.message.event;
      EntersAsNewest(window, u.lane.value, e);
      NewestGrows(u.lane.value, all, 3 * window, e, Entered(window, u.lane.value, e));
    }
  }

  /** From the moment it is warmed: the newest archived entries, in order, and the events since. */
  lemma LaneSinceWarming(window: nat, prefix: seq<Step>, s: Vehicle, steps: seq<Step>, t: Vehicle) returns (warmed: seq<Origin>)
    requires window > 0 && Run(window, prefix) == Some(s) && Enabled(s, Warm)
    requires KeepsLane(steps) && Onwards(window, Apply(window, s, Warm), steps) == Some(t)
    ensures IsNewest(warmed, s.tail, 3 * window) && t.lane.Some?
    ensures IsNewest(t.lane.value, warmed + Entering(window, Apply(window, s, Warm), steps), 3 * window)
  {
    warmed := WarmedNewest(window, prefix, s);
    LaneIsTheNewest(window, Apply(window, s, Warm), steps, t);
  }

  lemma WarmedNewest(window: nat, prefix: seq<Step>, s: Vehicle) returns (warmed: seq<Origin>)
    requires window > 0 && Run(window, prefix) == Some(s) && Enabled(s, Warm)
    ensures IsNewest(warmed, s.tail, 3 * window) && Apply(window, s, Warm).lane == Some(warmed)
  {
    warmed := Warmed(window, s.tail);
    RunsKeepInv(window, prefix);
    TailIsNewest(window, s.tail);
  }

  lemma TailIsNewest(window: nat, tail: seq<Origin>)
    requires Rising(tail) && TimesIdentify(tail)
    ensures IsNewest(Warmed(window, tail), tail, 3 * window)
  {
    WarmedIsTheTail(window, tail);
  }
}
