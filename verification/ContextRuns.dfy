/** The contexts the orchestrator really builds: what holds of them in every run. */
module ContextRuns {
  import opened Observations
  import opened TimeOrder
  import opened Context
  import opened Orchestrator

  /** The worker holds an event, its lane is warm, and the gate is about to let the event through. */
  ghost predicate AtTheGate(window: nat, s: Vehicle) {
    s.phase.Working? && s.lane.Some? && Apply(window, s, Gate).phase.Gated?
  }

  /** At the gate the lane is in order, its times identify positions, and the event follows it. */
  lemma LaneAtTheGate(window: nat, steps: seq<Step>)
    requires window > 0 && Run(window, steps).Some? && AtTheGate(window, Run(window, steps).value)
    ensures var s := Run(window, steps).value;
      Rising(s.lane.value) && TimesIdentify(s.lane.value) && Arrives(s.lane.value, s.phase.message.event)
  {
    RunsKeepInv(window, steps);
  }

  /**
   * In every run, with crashes, failures, evictions, repeated archive writes and redelivery in any order:
   * the history a solve is asked for ends at the live position, is strictly ascending in time, and every
   * move in it is within the gap and the jump.
   */
  lemma EveryContextIsLinked(cfg: Settings, steps: seq<Step>)
    requires cfg.window > 0 && Run(cfg.window, steps).Some? && AtTheGate(cfg.window, Run(cfg.window, steps).value)
    ensures var s := Run(cfg.window, steps).value;
      var h := History(cfg, s.lane.value, s.phase.message.event);
      && h != [] && h[|h| - 1] == s.phase.message.event && Ascending(h) && Linked(cfg, h)
      && forall i :: 0 < i < |h| ==> MovesWithin(cfg, h, i)
  {
    var s := Run(cfg.window, steps).value;
    LaneAtTheGate(cfg.window, steps);
    LiveInFront(s.lane.value, s.phase.message.event);
    HistoryIsLinked(cfg, s.lane.value, s.phase.message.event);
    HistoryEndsLive(cfg, s.lane.value, s.phase.message.event);
    LinksAreMoves(cfg, History(cfg, s.lane.value, s.phase.message.event));
  }

  /** Position `i` is no longer than the gap after the one before, and no further than the jump from it. */
  ghost predicate MovesWithin(cfg: Settings, h: seq<Origin>, i: nat)
    requires 0 < i < |h|
  {
    0 <= h[i].timestamp - h[i - 1].timestamp <= cfg.gap && cfg.distance(h[i].point, h[i - 1].point) <= cfg.jump
  }

  lemma LinksAreMoves(cfg: Settings, h: seq<Origin>)
    requires Ascending(h) && Linked(cfg, h)
    ensures forall i :: 0 < i < |h| ==> MovesWithin(cfg, h, i)
  {
    forall i | 0 < i < |h|
      ensures MovesWithin(cfg, h, i)
    {
      assert Follows(cfg, h, i);
    }
  }

  /** From one position to the next is longer than the gap, or further than the jump. */
  ghost predicate Breaks(cfg: Settings, earlier: Origin, later: Origin) {
    later.timestamp - earlier.timestamp > cfg.gap || cfg.distance(later.point, earlier.point) > cfg.jump
  }

  /** And it is the longest plausible suffix of the lane, whatever repeats the archive left in it. */
  lemma EveryContextIsTheLongest(cfg: Settings, steps: seq<Step>) returns (k: nat)
    requires cfg.window > 0 && Run(cfg.window, steps).Some? && AtTheGate(cfg.window, Run(cfg.window, steps).value)
    ensures var lane, live := Run(cfg.window, steps).value.lane.value, Run(cfg.window, steps).value.phase.message.event;
      && k <= |lane| && |lane| - k <= cfg.window && History(cfg, lane, live) == Dedup(lane[k..] + [live])
      && (k == 0 || |lane| - k == cfg.window || Breaks(cfg, lane[k - 1], (lane[k..] + [live])[0]))
  {
    var s := Run(cfg.window, steps).value;
    LaneAtTheGate(cfg.window, steps);
    k := HistoryIsTheLongestSuffix(cfg, s.lane.value, s.phase.message.event);
    if k > 0 { NextIsNoEarlier(s.lane.value, s.phase.message.event, k); }
  }

  lemma NextIsNoEarlier(lane: seq<Origin>, live: Origin, k: nat)
    requires Rising(lane) && Arrives(lane, live) && 0 < k <= |lane|
    ensures lane[k - 1].timestamp <= (lane[k..] + [live])[0].timestamp
  {
  }
}
