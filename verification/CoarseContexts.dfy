/** Contexts over an archive that keeps time coarser than events carry it. */
module CoarseContexts {
  import opened Numbers
  import opened Observations
  import opened TimeOrder
  import opened Context
  import opened ContextRuns
  import opened Orchestrator
  import opened ArchiveResolution

  /** Every event delivered is at a time the archive keeps, or at time `a`. */
  ghost predicate DeliversAt(unit: nat, a: int, steps: seq<Step>)
    requires unit > 0
  {
    forall i {:trigger steps[i]} :: 0 <= i < |steps| && steps[i].Deliver? ==>
      Whole(unit, steps[i].message.event) || steps[i].message.event.timestamp == a
  }

  /** A run with such deliveries stands at the gate, with this much of a window. */
  ghost predicate Asks(window: nat, unit: nat, a: int, steps: seq<Step>)
    requires unit > 0
  {
    && RunAt(window, unit, steps).Some? && DeliversAt(unit, a, steps)
    && AtTheGate(window, RunAt(window, unit, steps).value)
  }

  /** What the solve is asked for there. */
  ghost function Asked(cfg: Settings, unit: nat, steps: seq<Step>): seq<Origin>
    requires unit > 0 && RunAt(cfg.window, unit, steps).Some? && AtTheGate(cfg.window, RunAt(cfg.window, unit, steps).value)
  {
    var s := RunAt(cfg.window, unit, steps).value;
    History(cfg, s.lane.value, s.phase.message.event)
  }

  /** Whatever the gap, the jump and the distance, every context of every such run holds plausible moves only. */
  ghost predicate AlwaysLinked(window: nat, unit: nat, a: int)
    requires unit > 0
  {
    forall cfg: Settings, steps: seq<Step> :: cfg.window == window && Asks(cfg.window, unit, a, steps) ==>
      Linked(cfg, Asked(cfg, unit, steps))
  }

  // ----- When every move is plausible -----

  lemma WholeContextsAreLinked(cfg: Settings, unit: nat, a: int, steps: seq<Step>)
    requires cfg.window > 0 && unit > 0 && a % unit == 0 && Asks(cfg.window, unit, a, steps)
    ensures Linked(cfg, Asked(cfg, unit, steps))
  {
    WholeRunsAgree(cfg.window, unit, steps);
    EveryContextIsLinked(cfg, steps);
  }

  lemma ShortContextsAreLinked(cfg: Settings, unit: nat, a: int, steps: seq<Step>)
    requires 0 < cfg.window <= 2 && unit > 0 && Asks(cfg.window, unit, a, steps)
    ensures Linked(cfg, Asked(cfg, unit, steps))
  {
    RunsKeepCoarse(cfg.window, unit, steps);
    var s := RunAt(cfg.window, unit, steps).value;
    LaneIsEarlier(s.lane.value, s.phase.message.event);
    ShortHistoryIsLinked(cfg, s.lane.value, s.phase.message.event);
  }

  lemma LaneIsEarlier(lane: seq<Origin>, live: Origin)
    requires Rising(lane) && After(lane, live.timestamp)
    ensures forall e :: e in lane ==> e.timestamp < live.timestamp
  {
    forall e | e in lane
      ensures e.timestamp < live.timestamp
    {
      var i :| 0 <= i < |lane| && lane[i] == e;
      assert i == |lane| - 1 || lane[i].timestamp <= lane[|lane| - 1].timestamp;
    }
  }

  // ----- A run that breaks a link -----

  function At(x: real, t: int): Origin { Origin(Point(x, 0.0), t) }

  /** Distance along one axis, a jump of at most one, a gap of at most one unit. */
  function OneAxis(window: nat, unit: nat): Settings {
    Settings(window, unit, 1.0, (a: Point, b: Point) => if a.x < b.x then b.x - a.x else a.x - b.x)
  }

  lemma DeliversBoth(unit: nat, a: int, steps: seq<Step>, more: seq<Step>)
    requires unit > 0 && DeliversAt(unit, a, steps) && DeliversAt(unit, a, more)
    ensures DeliversAt(unit, a, steps + more)
  {
  }

  lemma DeliversRound(unit: nat, a: int, m: Message)
    requires unit > 0 && (Whole(unit, m.event) || m.event.timestamp == a)
    ensures DeliversAt(unit, a, Round(m)) && DeliversAt(unit, a, [Deliver(m), Warm])
  {
  }

  /** A run of those deliveries that has restarted with this in the archive. */
  ghost predicate Restarted(window: nat, unit: nat, a: int, steps: seq<Step>, tail: seq<Origin>)
    requires unit > 0
  {
    && RunAt(window, unit, steps).Some? && DeliversAt(unit, a, steps)
    && RunAt(window, unit, steps).value.phase == Idle && RunAt(window, unit, steps).value.lane == None
    && RunAt(window, unit, steps).value.tail == tail
  }

  /** One more message of those times, processed before a crash. */
  lemma OneMore(window: nat, unit: nat, a: int, steps: seq<Step>, tail: seq<Origin>, m: Message) returns (next: seq<Step>)
    requires window > 0 && unit > 0 && Restarted(window, unit, a, steps, tail)
    requires (Whole(unit, m.event) || m.event.timestamp == a) && Rising(tail) && After(tail, m.event.timestamp)
    ensures Restarted(window, unit, a, next, tail + [Truncated(unit, m.event)])
  {
    WarmedShowsNewest(window, tail);
    var t := RoundRuns(window, unit, steps, RunAt(window, unit, steps).value, m);
    DeliversRound(unit, a, m);
    DeliversBoth(unit, a, steps, Round(m));
    next := steps + Round(m);
  }

  /** From nothing, one event the archive keeps. */
  lemma FirstRound(window: nat, unit: nat, a: int, c: Origin) returns (steps: seq<Step>)
    requires window > 0 && unit > 0 && Whole(unit, c)
    ensures Restarted(window, unit, a, steps, [c])
  {
    TruncatedIsExactIffWhole(unit, c);
    assert Restarted(window, unit, a, [], []);
    steps := OneMore(window, unit, a, [], [], Message(c, 0));
    assert [] + [c] == [c];
  }

  /** Then two of a later time it does not keep, each before a crash: it holds the two at one time. */
  lemma TwoMore(window: nat, unit: nat, a: int, first: seq<Step>, c: Origin, e: Origin, live: Origin) returns (steps: seq<Step>)
    requires window > 0 && unit > 0 && Restarted(window, unit, a, first, [c]) && e.timestamp == live.timestamp == a
    requires c.timestamp < Truncated(unit, e).timestamp < a
    ensures Restarted(window, unit, a, steps, [c, Truncated(unit, e), Truncated(unit, live)])
  {
    var e1, e2 := Truncated(unit, e), Truncated(unit, live);
    steps := OneMore(window, unit, a, first, [c], Message(e, 1));
    assert [c] + [e1] == [c, e1];
    steps := OneMore(window, unit, a, steps, [c, e1], Message(live, 2));
    assert [c, e1] + [e2] == [c, e1, e2];
  }

  /** Then a third of time `a` at the gate. */
  lemma StandsAtTheGate(window: nat, unit: nat, a: int, before: seq<Step>, tail: seq<Origin>, live: Origin) returns (steps: seq<Step>)
    requires window > 0 && unit > 0 && Restarted(window, unit, a, before, tail) && live.timestamp == a
    requires Rising(tail) && After(tail, a)
    ensures Asks(window, unit, a, steps)
    ensures var s := RunAt(window, unit, steps).value; s.lane == Some(Warmed(window, tail)) && s.phase.message.event == live
  {
    var m := Message(live, 3);
    var s := GateReached(window, unit, before, RunAt(window, unit, before).value, m);
    steps := before + [Deliver(m), Warm];
    DeliversRound(unit, a, m);
    DeliversBoth(unit, a, before, [Deliver(m), Warm]);
    WarmedShowsNewest(window, tail);
  }

  /** There the history joins a position to one the settings rule out as a move. */
  lemma BrokenLink(window: nat, unit: nat, a: int) returns (cfg: Settings, steps: seq<Step>)
    requires window >= 3 && unit > 0 && a % unit != 0
    ensures cfg.window == window && Asks(window, unit, a, steps) && !Linked(cfg, Asked(cfg, unit, steps))
  {
    cfg := OneAxis(window, unit);
    var lo, hi := Below(unit, a);
    var c, e, live := At(0.0, lo), At(1.0, a), At(2.0, a);
    var first := FirstRound(window, unit, a, c);
    var before := TwoMore(window, unit, a, first, c, e, live);
    steps := BreaksThere(cfg, unit, a, before, [c, Truncated(unit, e), Truncated(unit, live)], live);
  }

  /** The last two times before `a` that the archive keeps. */
  lemma Below(unit: nat, a: int) returns (lo: int, hi: int)
    requires unit > 0 && a % unit != 0
    ensures lo % unit == 0 && hi - lo == unit && hi < a < hi + unit
    ensures forall x :: Truncated(unit, At(x, a)) == At(x, hi)
  {
    var q := a / unit;
    assert a == unit * q + a % unit;
    lo, hi := (q - 1) * unit, q * unit;
    MultipleIsWhole(unit, q - 1);
  }

  lemma BreaksThere(cfg: Settings, unit: nat, a: int, before: seq<Step>, tail: seq<Origin>, live: Origin) returns (steps: seq<Step>)
    requires cfg.window >= 3 && unit > 0 && Restarted(cfg.window, unit, a, before, tail) && live.timestamp == a
    requires |tail| == 3 && tail[0].timestamp < tail[1].timestamp == tail[2].timestamp < a
    requires cfg.Near(live, tail[2]) && cfg.Near(tail[2], tail[1]) && cfg.Near(tail[1], tail[0]) && !cfg.Near(tail[2], tail[0])
    ensures Asks(cfg.window, unit, a, steps) && !Linked(cfg, Asked(cfg, unit, steps))
  {
    steps := StandsAtTheGate(cfg.window, unit, a, before, tail, live);
    SharedTimeBreaks(cfg, tail[0], tail[1], tail[2], live);
    assert Last(tail, 3 * cfg.window) == tail == [tail[0], tail[1], tail[2]];
  }

  lemma SharedTimeBreaks(cfg: Settings, c: Origin, a: Origin, b: Origin, live: Origin)
    requires cfg.window >= 3 && c.timestamp < a.timestamp == b.timestamp < live.timestamp
    requires cfg.Near(live, b) && cfg.Near(b, a) && cfg.Near(a, c) && !cfg.Near(b, c)
    ensures !Linked(cfg, History(cfg, SortUp(Reverse([c, a, b])), live))
  {
    WarmedHistoryOfThree(cfg, c, a, b, live);
    assert !Follows(cfg, [c, b, live], 1);
  }

  /**
   * In runs whose other deliveries the archive keeps exactly, with crashes, failures, repeated writes and
   * evictions anywhere: every context the worker builds holds plausible moves only, whatever the settings,
   * exactly when the archive keeps time `a` too or the window is too short to walk three entries back.
   */
  lemma LinkedIffKept(window: nat, unit: nat, a: int)
    requires window > 0 && unit > 0
    ensures AlwaysLinked(window, unit, a) <==> a % unit == 0 || window <= 2
  {
    if a % unit == 0 || window <= 2 {
      forall cfg: Settings, steps: seq<Step> | cfg.window == window && Asks(cfg.window, unit, a, steps)
        ensures Linked(cfg, Asked(cfg, unit, steps))
      {
        if window <= 2 { ShortContextsAreLinked(cfg, unit, a, steps); }
        else { WholeContextsAreLinked(cfg, unit, a, steps); }
      }
    } else {
      var cfg, steps := BrokenLink(window, unit, a);
    }
  }
}
