/** The match context: which of a vehicle's recent positions go with a live one into a solve. */
module Context {
  import opened Observations
  import opened TimeOrder

  /** The orchestrator's settings, with the straight-line distance between points left open. */
  datatype Settings = Settings(window: nat, gap: int, jump: real, distance: (Point, Point) -> real) {
    /** Neither a gap in time nor a teleport. */
    predicate Near(later: Origin, earlier: Origin) {
      var d := later.timestamp - earlier.timestamp;
      (if d < 0 then -d else d) <= gap && distance(later.point, earlier.point) <= jump
    }
  }

  // ----- The steps of the assembly -----

  function Retain(events: seq<Origin>, until: int): seq<Origin> {
    if events == [] then [] else
    var n := |events| - 1;
    Retain(events[..n], until) + if events[n].timestamp <= until then [events[n]] else []
  }

  function Truncate(events: seq<Origin>, n: nat): (r: seq<Origin>)
    ensures r <= events && |r| == if |events| <= n then |events| else n
  {
    if |events| <= n then events else events[..n]
  }

  /** Walk back from `from` until the first gap or teleport. */
  function Scan(cfg: Settings, from: Origin, events: seq<Origin>): (r: seq<Origin>)
    ensures r <= events
    decreases |events|
  {
    if events == [] || !cfg.Near(from, events[0]) then []
    else [events[0]] + Scan(cfg, events[0], events[1..])
  }

  /** The first of every run of equal timestamps. */
  function Dedup(events: seq<Origin>): (r: seq<Origin>)
    ensures events != [] ==> r != [] && r[|r| - 1].timestamp == events[|events| - 1].timestamp
  {
    if |events| <= 1 then events else
    var n := |events| - 1;
    var front := Dedup(events[..n]);
    if events[n - 1].timestamp == events[n].timestamp then front else front + [events[n]]
  }

  /** The positions a solve of `live` is asked for, oldest first. */
  function History(cfg: Settings, entries: seq<Origin>, live: Origin): seq<Origin> {
    var newest := Truncate(SortDown(Retain(entries, live.timestamp)), cfg.window);
    Dedup(SortUp([live] + Scan(cfg, live, newest)))
  }

  // ----- Any entries: strictly ascending, ending at the live position -----

  /** What a stable ascending sort leaves around an event nothing is later than. */
  ghost predicate Around(s: seq<Origin>, before: seq<Origin>, live: Origin, after: seq<Origin>) {
    s == before + [live] + after
    && (forall i {:trigger before[i]} :: 0 <= i < |before| ==> before[i].timestamp < live.timestamp)
    && (forall i, j {:trigger before[i], before[j]} :: 0 <= i < j < |before| ==> before[i].timestamp <= before[j].timestamp)
    && (forall i {:trigger after[i]} :: 0 <= i < |after| ==> after[i].timestamp == live.timestamp)
  }

  lemma {:induction false} InsertBefore(before: seq<Origin>, e: Origin) returns (r: seq<Origin>)
    requires forall i, j :: 0 <= i < j < |before| ==> before[i].timestamp <= before[j].timestamp
    ensures r == InsertUp(before, e)
    ensures forall i, j {:trigger r[i], r[j]} :: 0 <= i < j < |r| ==> r[i].timestamp <= r[j].timestamp
    ensures forall i {:trigger r[i]} :: 0 <= i < |r| ==> r[i] == e || r[i] in before
    decreases |before|
  {
    r := InsertUp(before, e);
    if before != [] && before[|before| - 1].timestamp > e.timestamp {
      var n := |before| - 1;
      var front := InsertBefore(before[..n], e);
      assert r == front + [before[n]];
      forall i {:trigger r[i]} | 0 <= i < n + 1
        ensures r[i] == front[i] && r[i].timestamp <= before[n].timestamp && (r[i] == e || r[i] in before)
      {
      }
    }
  }

  /** Inserting an earlier event passes over the live one and its equals. */
  lemma {:induction false} InsertPasses(before: seq<Origin>, tail: seq<Origin>, e: Origin)
    requires forall i {:trigger tail[i]} :: 0 <= i < |tail| ==> tail[i].timestamp > e.timestamp
    ensures InsertUp(before + tail, e) == InsertUp(before, e) + tail
    decreases |tail|
  {
    if tail == [] {
      assert before + tail == before;
    } else {
      var n := |tail| - 1;
      InsertPasses(before, tail[..n], e);
      assert (before + tail)[..|before| + n] == before + tail[..n];
      assert tail == tail[..n] + [tail[n]];
    }
  }

  lemma {:induction false} SortsAround(live: Origin, rest: seq<Origin>) returns (before: seq<Origin>, after: seq<Origin>)
    requires forall i {:trigger rest[i]} :: 0 <= i < |rest| ==> rest[i].timestamp <= live.timestamp
    ensures Around(SortUp([live] + rest), before, live, after)
    ensures forall i {:trigger before[i]} :: 0 <= i < |before| ==> before[i] in rest
    decreases |rest|
  {
    if rest == [] {
      before, after := [], [];
      assert [live] + rest == [live] && [live][..0] == [];
    } else {
      var n := |rest| - 1;
      var e := rest[n];
      var b, a := SortsAround(live, rest[..n]);
      assert ([live] + rest)[..n + 1] == [live] + rest[..n];
      if e.timestamp == live.timestamp {
        PutEqual(live, b, a, e);
        before, after := b, a + [e];
      } else {
        before := PutEarlier(live, b, a, e);
        after := a;
      }
    }
  }

  lemma PutEqual(live: Origin, b: seq<Origin>, a: seq<Origin>, e: Origin)
    requires Around(b + [live] + a, b, live, a) && e.timestamp == live.timestamp
    ensures Around(InsertUp(b + [live] + a, e), b, live, a + [e])
  {
    assert b + [live] + a + [e] == b + [live] + (a + [e]);
  }

  lemma PutEarlier(live: Origin, b: seq<Origin>, a: seq<Origin>, e: Origin) returns (r: seq<Origin>)
    requires Around(b + [live] + a, b, live, a) && e.timestamp < live.timestamp
    ensures Around(InsertUp(b + [live] + a, e), r, live, a)
    ensures forall i {:trigger r[i]} :: 0 <= i < |r| ==> r[i] == e || r[i] in b
  {
    r := InsertBefore(b, e);
    assert b + [live] + a == b + ([live] + a);
    InsertPasses(b, [live] + a, e);
    assert r + ([live] + a) == r + [live] + a;
  }

  lemma {:induction false} DedupAscends(s: seq<Origin>)
    requires forall i, j {:trigger s[i], s[j]} :: 0 <= i < j < |s| ==> s[i].timestamp <= s[j].timestamp
    ensures Ascending(Dedup(s))
    ensures forall i {:trigger Dedup(s)[i]} :: 0 <= i < |Dedup(s)| ==> Dedup(s)[i] in s
  {
    if |s| > 1 {
      var n := |s| - 1;
      DedupAscends(s[..n]);
      var front, r := Dedup(s[..n]), Dedup(s);
      forall i, j {:trigger r[i], r[j]} | 0 <= i < j < |r|
        ensures r[i].timestamp < r[j].timestamp
      {
        if j == |front| {
          assert front[i].timestamp <= front[|front| - 1].timestamp == s[n - 1].timestamp;
        }
      }
    }
  }

  /** Equals of the last event kept are all dropped. */
  lemma {:induction false} DedupDropsEquals(before: seq<Origin>, live: Origin, after: seq<Origin>)
    requires before != [] ==> before[|before| - 1].timestamp < live.timestamp
    requires forall i {:trigger after[i]} :: 0 <= i < |after| ==> after[i].timestamp == live.timestamp
    ensures Dedup(before + [live] + after) == Dedup(before) + [live]
    decreases |after|
  {
    var s := before + [live] + after;
    var n := |s| - 1;
    if after == [] {
      assert s == before + [live] && s[..n] == before;
    } else {
      DedupDropsEquals(before, live, after[..|after| - 1]);
      assert s[..n] == before + [live] + after[..|after| - 1];
      assert s[n] == after[|after| - 1];
      assert s[n - 1] == if |after| == 1 then live else after[|after| - 2];
    }
  }

  lemma {:induction false} RetainKeeps(events: seq<Origin>, until: int, e: Origin)
    ensures e in Retain(events, until) <==> e in events && e.timestamp <= until
  {
    if events != [] {
      var n := |events| - 1;
      RetainKeeps(events[..n], until, e);
      assert events == events[..n] + [events[n]];
    }
  }

  /** What the walk back may keep: entries no later than the live position. */
  lemma ScannedAreEntries(cfg: Settings, entries: seq<Origin>, live: Origin)
    ensures var kept := Scan(cfg, live, Truncate(SortDown(Retain(entries, live.timestamp)), cfg.window));
      |kept| <= cfg.window && forall i {:trigger kept[i]} :: 0 <= i < |kept| ==>
        kept[i] in entries && kept[i].timestamp <= live.timestamp
  {
    var all := Retain(entries, live.timestamp);
    SortDownKeeps(all);
    var kept := Scan(cfg, live, Truncate(SortDown(all), cfg.window));
    forall i {:trigger kept[i]} | 0 <= i < |kept|
      ensures kept[i] in entries && kept[i].timestamp <= live.timestamp
    {
      assert kept[i] == SortDown(all)[i];
      assert kept[i] in SortDown(all);
      RetainKeeps(entries, live.timestamp, kept[i]);
    }
  }

  /**
   * Whatever the lane holds, in whatever order, the history is strictly ascending in time and ends
   * at the live position; every other position in it is an earlier entry.
   */
  lemma HistoryEndsLive(cfg: Settings, entries: seq<Origin>, live: Origin)
    ensures var h := History(cfg, entries, live);
      && h != [] && h[|h| - 1] == live && Ascending(h)
      && forall i {:trigger h[i]} :: 0 <= i < |h| - 1 ==> h[i] in entries && h[i].timestamp < live.timestamp
  {
    var kept := Scan(cfg, live, Truncate(SortDown(Retain(entries, live.timestamp)), cfg.window));
    ScannedAreEntries(cfg, entries, live);
    var before, after := SortsAround(live, kept);
    DedupDropsEquals(before, live, after);
    DedupAscends(before);
    var h := History(cfg, entries, live);
    var front := Dedup(before);
    assert h == front + [live];
    forall i {:trigger h[i]} | 0 <= i < |h| - 1
      ensures h[i] in entries && h[i].timestamp < live.timestamp
    {
      assert h[i] == front[i];
      assert front[i] in before;
      var k :| 0 <= k < |before| && before[k] == front[i];
    }
  }

  // ----- Timestamps that identify events: every step of the history is a plausible move -----

  /** Position `i` is near the one before it. */
  ghost predicate Follows(cfg: Settings, s: seq<Origin>, i: nat)
    requires 0 < i < |s|
  {
    cfg.Near(s[i], s[i - 1])
  }

  /** Each position is near the one before it. */
  ghost predicate Linked(cfg: Settings, s: seq<Origin>) {
    forall i :: 0 < i < |s| ==> Follows(cfg, s, i)
  }

  /** Position `i` repeats the one before it, or is at another time. */
  ghost predicate RepeatsOrMoves(s: seq<Origin>, i: nat)
    requires 0 < i < |s|
  {
    s[i].timestamp == s[i - 1].timestamp ==> s[i] == s[i - 1]
  }

  /** Neighbours that share a time are the same position. */
  ghost predicate Repeats(s: seq<Origin>) {
    forall i :: 0 < i < |s| ==> RepeatsOrMoves(s, i)
  }

  lemma LinkAtEnd(cfg: Settings, s: seq<Origin>, e: Origin)
    requires Linked(cfg, s) && s != [] && cfg.Near(e, s[|s| - 1])
    ensures Linked(cfg, s + [e])
  {
    forall i | 0 < i < |s| + 1
      ensures Follows(cfg, s + [e], i)
    {
      if i < |s| { assert Follows(cfg, s, i); }
    }
  }

  lemma {:induction false} DedupKeepsLinks(cfg: Settings, s: seq<Origin>)
    requires Linked(cfg, s) && Repeats(s)
    ensures Linked(cfg, Dedup(s))
    ensures s != [] ==> Dedup(s) != [] && Dedup(s)[|Dedup(s)| - 1] == s[|s| - 1]
  {
    if |s| > 1 {
      var n := |s| - 1;
      PrefixLinks(cfg, s, n);
      DedupKeepsLinks(cfg, s[..n]);
      assert s[..n][n - 1] == s[n - 1];
      assert Follows(cfg, s, n) && RepeatsOrMoves(s, n);
      LinkAtEnd(cfg, Dedup(s[..n]), s[n]);
    }
  }

  lemma PrefixLinks(cfg: Settings, s: seq<Origin>, n: nat)
    requires Linked(cfg, s) && Repeats(s) && n <= |s|
    ensures Linked(cfg, s[..n]) && Repeats(s[..n])
  {
    forall i | 0 < i < n
      ensures Follows(cfg, s[..n], i) && RepeatsOrMoves(s[..n], i)
    {
      assert Follows(cfg, s, i) && RepeatsOrMoves(s, i);
    }
  }

  /** The walk back is a chain, and stops only at the end or at the first broken link. */
  lemma {:induction false} ScanIsAChain(cfg: Settings, from: Origin, events: seq<Origin>)
    ensures var d := [from] + Scan(cfg, from, events);
      Linked(cfg, Reverse(d)) && (|d| <= |events| ==> !cfg.Near(d[|d| - 1], events[|d| - 1]))
    decreases |events|
  {
    if events != [] && cfg.Near(from, events[0]) {
      ScanIsAChain(cfg, events[0], events[1..]);
      var tail := [events[0]] + Scan(cfg, events[0], events[1..]);
      assert Scan(cfg, from, events) == tail;
      ReverseAppends(from, tail);
      ReverseAt(tail, |tail| - 1);
      LinkAtEnd(cfg, Reverse(tail), from);
    } else {
      ReverseAppends(from, []);
      assert [from] + Scan(cfg, from, events) == [from] + [];
    }
  }

  lemma ReverseRepeats(d: seq<Origin>)
    requires TimesIdentify(d)
    ensures Repeats(Reverse(d))
  {
    var r := Reverse(d);
    forall i | 0 < i < |r|
      ensures RepeatsOrMoves(r, i)
    {
      ReverseAt(d, i);
      ReverseAt(d, i - 1);
    }
  }

  /** What is sorted: the live position and those walked back to, newest first. */
  function Walked(cfg: Settings, entries: seq<Origin>, live: Origin): seq<Origin> {
    [live] + Scan(cfg, live, Truncate(SortDown(Retain(entries, live.timestamp)), cfg.window))
  }

  lemma WalkedDescends(cfg: Settings, entries: seq<Origin>, live: Origin)
    ensures Descending(Walked(cfg, entries, live))
  {
    var sorted := SortDown(Retain(entries, live.timestamp));
    SortDownDescends(Retain(entries, live.timestamp));
    ScannedAreEntries(cfg, entries, live);
    var kept := Scan(cfg, live, Truncate(sorted, cfg.window));
    assert forall i {:trigger kept[i]} :: 0 <= i < |kept| ==> kept[i] == sorted[i];
  }

  lemma WalkedIdentifies(cfg: Settings, entries: seq<Origin>, live: Origin)
    requires TimesIdentify([live] + entries)
    ensures TimesIdentify(Walked(cfg, entries, live))
  {
    ScannedAreEntries(cfg, entries, live);
    var d, all := Walked(cfg, entries, live), [live] + entries;
    forall i {:trigger d[i]} | 0 <= i < |d|
      ensures d[i] in all
    {
      if i > 0 { assert d[i] in entries; }
    }
  }

  /** When times identify positions, consecutive positions of the history are within the gap and the jump. */
  lemma HistoryIsLinked(cfg: Settings, entries: seq<Origin>, live: Origin)
    requires TimesIdentify([live] + entries)
    ensures Linked(cfg, History(cfg, entries, live))
  {
    var d := Walked(cfg, entries, live);
    WalkedDescends(cfg, entries, live);
    WalkedIdentifies(cfg, entries, live);
    SortUpReverses(d);
    ScanIsAChain(cfg, live, Truncate(SortDown(Retain(entries, live.timestamp)), cfg.window));
    ReverseRepeats(d);
    DedupKeepsLinks(cfg, Reverse(d));
  }

  // ----- A lane in order: the history is its longest plausible suffix -----

  lemma {:induction false} RetainAll(events: seq<Origin>, until: int)
    requires forall i {:trigger events[i]} :: 0 <= i < |events| ==> events[i].timestamp <= until
    ensures Retain(events, until) == events
  {
    if events != [] {
      RetainAll(events[..|events| - 1], until);
      assert events == events[..|events| - 1] + [events[|events| - 1]];
    }
  }

  lemma {:induction false} DedupOfAscending(s: seq<Origin>)
    requires Ascending(s)
    ensures Dedup(s) == s
  {
    if |s| > 1 {
      DedupOfAscending(s[..|s| - 1]);
      assert s == s[..|s| - 1] + [s[|s| - 1]];
    }
  }

  /**
   * For a lane in time order whose times identify positions, and a live position that follows it:
   * the history is a suffix of the lane and then the live position, repeats dropped. That suffix is
   * linked, no longer than the window, and ended on the far side only by the lane's start, the window,
   * or a broken link.
   */
  lemma HistoryIsTheLongestSuffix(cfg: Settings, lane: seq<Origin>, live: Origin) returns (k: nat)
    requires Rising(lane) && TimesIdentify(lane) && Arrives(lane, live)
    ensures k <= |lane| && |lane| - k <= cfg.window
    ensures History(cfg, lane, live) == Dedup(lane[k..] + [live])
    ensures Linked(cfg, lane[k..] + [live])
    ensures k == 0 || |lane| - k == cfg.window || !cfg.Near((lane[k..] + [live])[0], lane[k - 1])
  {
    k := |lane| - Kept(cfg, lane, live);
    LaneHistory(cfg, lane, live);
    WalkStops(cfg, lane, live);
  }

  /** The live position is later than the lane, or repeats its last entry. */
  ghost predicate Arrives(lane: seq<Origin>, live: Origin) {
    lane == [] || lane[|lane| - 1].timestamp < live.timestamp || lane[|lane| - 1] == live
  }

  /** How many lane positions the walk back keeps. */
  ghost function Kept(cfg: Settings, lane: seq<Origin>, live: Origin): (n: nat)
    ensures n <= |lane| && n <= cfg.window
  {
    |Scan(cfg, live, Truncate(Reverse(lane), cfg.window))|
  }

  /** A walk that stopped before the lane and the window ended stopped at a broken link of the lane. */
  lemma WalkStops(cfg: Settings, lane: seq<Origin>, live: Origin)
    ensures var n := Kept(cfg, lane, live);
      n < |lane| && n < cfg.window ==> !cfg.Near((lane[|lane| - n..] + [live])[0], lane[|lane| - n - 1])
  {
    var n := Kept(cfg, lane, live);
    if n < |lane| && n < cfg.window {
      StopsAt(cfg, live, Reverse(lane), Truncate(Reverse(lane), cfg.window));
      FromTheEnd(lane, live, n);
    }
  }

  /** Where a walk stops, read in the whole list. */
  lemma StopsAt(cfg: Settings, live: Origin, all: seq<Origin>, newest: seq<Origin>)
    requires newest <= all && |Scan(cfg, live, newest)| < |newest|
    ensures var n := |Scan(cfg, live, newest)|;
      n < |all| && !cfg.Near(if n == 0 then live else all[n - 1], all[n])
  {
    var kept := Scan(cfg, live, newest);
    ScanIsAChain(cfg, live, newest);
    assert kept != [] ==> kept[|kept| - 1] == newest[|kept| - 1];
  }

  /** The `i`th position from the end of a lane, and the one after it. */
  lemma FromTheEnd(lane: seq<Origin>, live: Origin, i: nat)
    requires i < |lane|
    ensures Reverse(lane)[i] == lane[|lane| - i - 1]
    ensures (lane[|lane| - i..] + [live])[0] == if i == 0 then live else Reverse(lane)[i - 1]
  {
    ReverseAt(lane, i);
    if i > 0 { ReverseAt(lane, i - 1); }
  }

  /** What is kept is a linked suffix of the lane, and the history is it and the live position. */
  lemma LaneHistory(cfg: Settings, lane: seq<Origin>, live: Origin)
    requires Rising(lane) && TimesIdentify(lane) && Arrives(lane, live)
    ensures var suffix := lane[|lane| - Kept(cfg, lane, live)..] + [live];
      History(cfg, lane, live) == Dedup(suffix) && Linked(cfg, suffix)
  {
    WalkedLane(cfg, lane, live);
    HistoryOfALane(cfg, lane, live);
    KeptSuffix(cfg, lane, live);
  }

  lemma HistoryOfALane(cfg: Settings, lane: seq<Origin>, live: Origin)
    requires Rising(lane) && TimesIdentify(lane) && Arrives(lane, live)
    ensures History(cfg, lane, live) == Dedup(Reverse(Walked(cfg, lane, live)))
  {
    LiveInFront(lane, live);
    HistoryReverses(cfg, lane, live);
  }

  lemma KeptSuffix(cfg: Settings, lane: seq<Origin>, live: Origin)
    ensures var suffix := lane[|lane| - Kept(cfg, lane, live)..] + [live];
      Reverse([live] + Scan(cfg, live, Truncate(Reverse(lane), cfg.window))) == suffix && Linked(cfg, suffix)
  {
    KeptReversed(cfg, lane, live);
    ScanIsAChain(cfg, live, Truncate(Reverse(lane), cfg.window));
  }

  lemma KeptReversed(cfg: Settings, lane: seq<Origin>, live: Origin)
    ensures Reverse([live] + Scan(cfg, live, Truncate(Reverse(lane), cfg.window)))
         == lane[|lane| - Kept(cfg, lane, live)..] + [live]
  {
    var newest := Truncate(Reverse(lane), cfg.window);
    PrefixOfPrefix(Scan(cfg, live, newest), newest, Reverse(lane));
    LiveThenSuffix(lane, live, Scan(cfg, live, newest));
  }

  lemma PrefixOfPrefix(a: seq<Origin>, b: seq<Origin>, c: seq<Origin>)
    requires a <= b <= c
    ensures a <= c
  {
  }

  lemma LiveThenSuffix(lane: seq<Origin>, live: Origin, kept: seq<Origin>)
    requires kept <= Reverse(lane)
    ensures Reverse([live] + kept) == lane[|lane| - |kept|..] + [live]
  {
    ReversedSuffix(lane, kept);
    ReverseAppends(live, kept);
  }

  lemma HistoryReverses(cfg: Settings, entries: seq<Origin>, live: Origin)
    requires TimesIdentify([live] + entries)
    ensures History(cfg, entries, live) == Dedup(Reverse(Walked(cfg, entries, live)))
  {
    WalkedDescends(cfg, entries, live);
    WalkedIdentifies(cfg, entries, live);
    SortUpReverses(Walked(cfg, entries, live));
  }

  /** A lane in order is retained whole and reversed. */
  lemma WalkedLane(cfg: Settings, lane: seq<Origin>, live: Origin)
    requires Rising(lane) && TimesIdentify(lane) && Arrives(lane, live)
    ensures Walked(cfg, lane, live) == [live] + Scan(cfg, live, Truncate(Reverse(lane), cfg.window))
  {
    forall i {:trigger lane[i]} | 0 <= i < |lane|
      ensures lane[i].timestamp <= live.timestamp
    {
      assert i == |lane| - 1 || lane[i].timestamp <= lane[|lane| - 1].timestamp;
    }
    RetainAll(lane, live.timestamp);
    SortDownReverses(lane);
  }

  lemma LiveInFront(lane: seq<Origin>, live: Origin)
    requires Rising(lane) && TimesIdentify(lane) && Arrives(lane, live)
    ensures TimesIdentify([live] + lane)
  {
    var s := [live] + lane;
    forall i {:trigger lane[i]} | 0 <= i < |lane|
      ensures lane[i].timestamp < live.timestamp || lane[i] == live
    {
      assert i == |lane| - 1 || lane[i].timestamp <= lane[|lane| - 1].timestamp;
    }
    assert forall i {:trigger s[i]} :: 0 < i < |s| ==> s[i] == lane[i - 1];
  }

  /** The first positions of a reversed lane, reversed back. */
  lemma {:induction false} ReversedSuffix(lane: seq<Origin>, kept: seq<Origin>)
    requires kept <= Reverse(lane)
    ensures Reverse(kept) == lane[|lane| - |kept|..]
    decreases |kept|
  {
    if kept != [] {
      var n := |lane| - 1;
      assert kept[0] == lane[n] && kept[1..] <= Reverse(lane[..n]);
      ReversedSuffix(lane[..n], kept[1..]);
      ReverseAppends(kept[0], kept[1..]);
      assert kept == [kept[0]] + kept[1..];
      assert lane[|lane| - |kept|..] == lane[..n][|lane| - |kept|..] + [lane[n]];
    }
  }

  // ----- Two positions at one time -----

  /** Two of three entries at one time: the walk back steps over both, and only the first it met is kept. */
  lemma WarmedHistoryOfThree(cfg: Settings, c: Origin, a: Origin, b: Origin, live: Origin)
    requires cfg.window >= 3 && c.timestamp < a.timestamp == b.timestamp < live.timestamp
    requires cfg.Near(live, b) && cfg.Near(b, a) && cfg.Near(a, c)
    ensures History(cfg, SortUp(Reverse([c, a, b])), live) == [c, b, live]
  {
    ReverseOfThree(c, a, b);
    SortUpOfThree(b, a, c);
    RetainAll([c, b, a], live.timestamp);
    SortDownOfThree(c, b, a);
    ScanOfThree(cfg, live, b, a, c);
    SortUpOfFour(live, b, a, c);
    DedupOfFour(c, b, a, live);
  }

  lemma ReverseOfThree(c: Origin, a: Origin, b: Origin)
    ensures Reverse([c, a, b]) == [b, a, c]
  {
    assert [c, a, b][..2] == [c, a] && [c, a][..1] == [c] && [c][..0] == [];
    assert Reverse([c]) == [c];
    assert Reverse([c, a]) == [a, c];
  }

  lemma ScanOfThree(cfg: Settings, live: Origin, b: Origin, a: Origin, c: Origin)
    requires cfg.Near(live, b) && cfg.Near(b, a) && cfg.Near(a, c)
    ensures [live] + Scan(cfg, live, [b, a, c]) == [live, b, a, c]
  {
    assert [b, a, c][1..] == [a, c] && [a, c][1..] == [c] && [c][1..] == [];
    assert Scan(cfg, a, [c]) == [c];
    assert Scan(cfg, b, [a, c]) == [a] + [c];
  }

  lemma SortUpOfThree(b: Origin, a: Origin, c: Origin)
    requires c.timestamp < a.timestamp == b.timestamp
    ensures SortUp([b, a, c]) == [c, b, a]
  {
    assert [b, a, c][..2] == [b, a] && [b, a][..1] == [b] && [b][..0] == [];
    assert SortUp([b]) == [b];
    assert SortUp([b, a]) == [b, a];
    InsertPasses([], [b, a], c);
    assert [] + [b, a] == [b, a] && InsertUp([], c) == [c];
  }

  lemma SortDownOfThree(c: Origin, a: Origin, b: Origin)
    requires c.timestamp < a.timestamp == b.timestamp
    ensures SortDown([c, a, b]) == [a, b, c]
  {
    assert [c, a, b][..2] == [c, a] && [c, a][..1] == [c] && [c][..0] == [];
    assert SortDown([c]) == [c];
    assert SortDown([c, a]) == [a, c] by { assert InsertDown([], a) == [a]; }
    assert [a, c][..1] == [a];
    assert InsertDown([a], b) == [a, b];
  }

  lemma SortUpOfFour(live: Origin, a: Origin, b: Origin, c: Origin)
    requires c.timestamp < a.timestamp == b.timestamp < live.timestamp
    ensures SortUp([live, a, b, c]) == [c, a, b, live]
  {
    assert [live, a, b, c][..3] == [live, a, b];
    SortUpPastLive(live, a, b);
    InsertPasses([], [a, b, live], c);
    assert [] + [a, b, live] == [a, b, live] && InsertUp([], c) == [c];
  }

  lemma SortUpPastLive(live: Origin, a: Origin, b: Origin)
    requires a.timestamp == b.timestamp < live.timestamp
    ensures SortUp([live, a, b]) == [a, b, live]
  {
    assert [live, a, b][..2] == [live, a];
    SortUpPair(live, a);
    InsertPasses([a], [live], b);
    assert InsertUp([a], b) == [a] + [b] && [a, live] == [a] + [live];
  }

  lemma SortUpPair(live: Origin, a: Origin)
    requires a.timestamp < live.timestamp
    ensures SortUp([live, a]) == [a, live]
  {
    assert [live, a][..1] == [live] && [live][..0] == [];
    assert SortUp([live]) == [live];
    InsertPasses([], [live], a);
    assert [] + [live] == [live] && InsertUp([], a) == [a];
  }

  lemma DedupOfFour(c: Origin, a: Origin, b: Origin, live: Origin)
    requires c.timestamp < a.timestamp == b.timestamp < live.timestamp
    ensures Dedup([c, a, b, live]) == [c, a, live]
  {
    var s := [c, a, b, live];
    assert s[..3] == [c, a, b] && [c, a, b][..2] == [c, a] && [c, a][..1] == [c];
    assert Dedup([c, a]) == [c, a];
    assert Dedup([c, a, b]) == [c, a];
  }

  /** A walk of at most two steps back from a later position is linked, whatever times its entries share. */
  lemma ShortHistoryIsLinked(cfg: Settings, entries: seq<Origin>, live: Origin)
    requires cfg.window <= 2 && forall e :: e in entries ==> e.timestamp < live.timestamp
    ensures Linked(cfg, History(cfg, entries, live))
  {
    var newest := Truncate(SortDown(Retain(entries, live.timestamp)), cfg.window);
    var kept := Scan(cfg, live, newest);
    ScannedAreEntries(cfg, entries, live);
    WalkedDescends(cfg, entries, live);
    ShortScan(cfg, live, newest);
    if |kept| == 2 {
      var d := Walked(cfg, entries, live);
      assert d[1] == kept[0] && d[2] == kept[1];
    }
    ShortWalk(cfg, live, kept);
  }

  lemma ShortWalk(cfg: Settings, live: Origin, kept: seq<Origin>)
    requires |kept| <= 2 && (kept != [] ==> kept[0].timestamp < live.timestamp && cfg.Near(live, kept[0]))
    requires |kept| == 2 ==> kept[1].timestamp <= kept[0].timestamp && cfg.Near(kept[0], kept[1])
    ensures Linked(cfg, Dedup(SortUp([live] + kept)))
  {
    if kept == [] {
      assert [live] + kept == [live];
      OneIsLinked(cfg, live);
    } else if |kept| == 1 {
      assert [live] + kept == [live, kept[0]];
      SortUpPair(live, kept[0]);
      PairIsLinked(cfg, kept[0], live);
    } else {
      assert [live] + kept == [live, kept[0], kept[1]];
      TwoStepsBack(cfg, live, kept[0], kept[1]);
    }
  }

  lemma OneIsLinked(cfg: Settings, live: Origin)
    ensures Linked(cfg, Dedup(SortUp([live])))
  {
    assert [live][..0] == [];
    assert SortUp([live]) == [live];
  }

  lemma PairIsLinked(cfg: Settings, x: Origin, live: Origin)
    requires x.timestamp < live.timestamp && cfg.Near(live, x)
    ensures Dedup([x, live]) == [x, live] && Linked(cfg, [x, live])
  {
    assert [x, live][..1] == [x];
    assert Dedup([x]) == [x];
  }

  lemma ShortScan(cfg: Settings, live: Origin, newest: seq<Origin>)
    requires |newest| <= 2
    ensures var kept := Scan(cfg, live, newest);
      (kept != [] ==> cfg.Near(live, kept[0])) && (|kept| == 2 ==> cfg.Near(kept[0], kept[1]))
  {
    if newest != [] { assert |newest[1..]| <= 1; }
  }

  lemma TwoStepsBack(cfg: Settings, live: Origin, x: Origin, y: Origin)
    requires y.timestamp <= x.timestamp < live.timestamp && cfg.Near(live, x) && cfg.Near(x, y)
    ensures Linked(cfg, Dedup(SortUp([live, x, y])))
  {
    if x.timestamp == y.timestamp {
      SortUpPastLive(live, x, y);
      SameThenLive(x, y, live);
      PairIsLinked(cfg, x, live);
    } else {
      SortUpTriple(live, x, y);
      PairIsLinked(cfg, y, x);
      LinkAtEnd(cfg, [y, x], live);
      assert [y, x, live][..2] == [y, x] && [y, x] + [live] == [y, x, live];
    }
  }

  lemma SameThenLive(x: Origin, y: Origin, live: Origin)
    requires y.timestamp == x.timestamp < live.timestamp
    ensures Dedup([x, y, live]) == [x, live]
  {
    assert [x, y, live][..2] == [x, y] && [x, y][..1] == [x];
    assert Dedup([x, y]) == [x];
  }

  lemma SortUpTriple(live: Origin, x: Origin, y: Origin)
    requires y.timestamp < x.timestamp < live.timestamp
    ensures SortUp([live, x, y]) == [y, x, live]
  {
    assert [live, x, y][..2] == [live, x];
    SortUpPair(live, x);
    InsertPasses([], [x, live], y);
    assert [] + [x, live] == [x, live] && InsertUp([], y) == [y];
  }
}
