/** Sequences of observations in time: their orders, and the stable sorts that put them in order. */
module TimeOrder {
  import opened Observations

  /** The event at a time with only whole units left. */
  function Truncated(unit: nat, e: Origin): Origin
    requires unit > 0
  {
    e.(timestamp := e.timestamp / unit * unit)
  }

  // ----- Orders -----

  ghost predicate Ascending(s: seq<Origin>) {
    forall i, j {:trigger s[i], s[j]} :: 0 <= i < j < |s| ==> s[i].timestamp < s[j].timestamp
  }

  ghost predicate Rising(s: seq<Origin>) {
    forall i, j {:trigger s[i], s[j]} :: 0 <= i < j < |s| ==> s[i].timestamp <= s[j].timestamp
  }

  ghost predicate Descending(s: seq<Origin>) {
    forall i, j {:trigger s[i], s[j]} :: 0 <= i < j < |s| ==> s[i].timestamp >= s[j].timestamp
  }

  /** No two of these positions share a time, unless they are the same. */
  ghost predicate TimesIdentify(s: seq<Origin>) {
    forall i, j {:trigger s[i], s[j]} :: 0 <= i < |s| && 0 <= j < |s| && s[i].timestamp == s[j].timestamp ==> s[i] == s[j]
  }

  /** Not after any of these, and one with any of its time. */
  ghost predicate Oldest(s: seq<Origin>, e: Origin) {
    forall i {:trigger s[i]} :: 0 <= i < |s| ==> s[i].timestamp > e.timestamp || s[i] == e
  }

  // ----- Reversing -----

  function Reverse(s: seq<Origin>): (r: seq<Origin>)
    ensures |r| == |s|
  {
    if s == [] then [] else [s[|s| - 1]] + Reverse(s[..|s| - 1])
  }

  lemma {:induction false} ReverseAt(s: seq<Origin>, i: nat)
    requires i < |s|
    ensures Reverse(s)[i] == s[|s| - 1 - i]
  {
    if i > 0 { ReverseAt(s[..|s| - 1], i - 1); }
  }

  lemma {:induction false} ReverseAppends(e: Origin, s: seq<Origin>)
    ensures Reverse([e] + s) == Reverse(s) + [e]
  {
    if s == [] {
      assert [e] + s == [e] && [e][..0] == [];
    } else {
      var n := |s| - 1;
      ReverseAppends(e, s[..n]);
      assert ([e] + s)[..n + 1] == [e] + s[..n];
    }
  }

  lemma ReverseRises(d: seq<Origin>)
    requires Descending(d)
    ensures Rising(Reverse(d))
  {
    var r := Reverse(d);
    forall i, j {:trigger r[i], r[j]} | 0 <= i < j < |r|
      ensures r[i].timestamp <= r[j].timestamp
    {
      ReverseAt(d, i);
      ReverseAt(d, j);
    }
  }

  // ----- Stable sorts -----

  function InsertUp(sorted: seq<Origin>, e: Origin): (r: seq<Origin>)
    ensures |r| == |sorted| + 1
  {
    if sorted == [] || sorted[|sorted| - 1].timestamp <= e.timestamp then sorted + [e]
    else InsertUp(sorted[..|sorted| - 1], e) + [sorted[|sorted| - 1]]
  }

  /** Oldest first. */
  function SortUp(events: seq<Origin>): (r: seq<Origin>)
    ensures |r| == |events|
  {
    if events == [] then [] else InsertUp(SortUp(events[..|events| - 1]), events[|events| - 1])
  }

  /** A stable sort's insertion: behind everything that must not follow `e`. */
  function InsertDown(sorted: seq<Origin>, e: Origin): (r: seq<Origin>)
    ensures |r| == |sorted| + 1
  {
    if sorted == [] || sorted[|sorted| - 1].timestamp >= e.timestamp then sorted + [e]
    else InsertDown(sorted[..|sorted| - 1], e) + [sorted[|sorted| - 1]]
  }

  /** Newest first. */
  function SortDown(events: seq<Origin>): (r: seq<Origin>)
    ensures |r| == |events|
  {
    if events == [] then [] else InsertDown(SortDown(events[..|events| - 1]), events[|events| - 1])
  }

  lemma {:induction false} InsertDownKeeps(sorted: seq<Origin>, e: Origin)
    ensures forall x :: x in InsertDown(sorted, e) <==> x in sorted || x == e
  {
    if sorted != [] && sorted[|sorted| - 1].timestamp < e.timestamp {
      var n := |sorted| - 1;
      InsertDownKeeps(sorted[..n], e);
      assert sorted == sorted[..n] + [sorted[n]];
    }
  }

  lemma {:induction false} SortDownKeeps(events: seq<Origin>)
    ensures forall x :: x in SortDown(events) <==> x in events
  {
    if events != [] {
      var n := |events| - 1;
      SortDownKeeps(events[..n]);
      InsertDownKeeps(SortDown(events[..n]), events[n]);
      assert events == events[..n] + [events[n]];
    }
  }

  lemma {:induction false} InsertDownDescends(sorted: seq<Origin>, e: Origin)
    requires Descending(sorted)
    ensures Descending(InsertDown(sorted, e))
  {
    if sorted != [] && sorted[|sorted| - 1].timestamp < e.timestamp {
      var n := |sorted| - 1;
      InsertDownDescends(sorted[..n], e);
      InsertDownKeeps(sorted[..n], e);
      var front, r := InsertDown(sorted[..n], e), InsertDown(sorted, e);
      forall i, j {:trigger r[i], r[j]} | 0 <= i < j < |r|
        ensures r[i].timestamp >= r[j].timestamp
      {
        if j == |front| {
          assert front[i] in sorted[..n] || front[i] == e;
        }
      }
    }
  }

  lemma {:induction false} SortDownDescends(events: seq<Origin>)
    ensures Descending(SortDown(events))
  {
    if events != [] {
      SortDownDescends(events[..|events| - 1]);
      InsertDownDescends(SortDown(events[..|events| - 1]), events[|events| - 1]);
    }
  }

  /** An event no later than any other, and identified by its time, goes to the front. */
  lemma {:induction false} InsertUpInFront(s: seq<Origin>, e: Origin)
    requires Rising(s) && Oldest(s, e)
    ensures InsertUp(s, e) == [e] + s
    decreases |s|
  {
    if s != [] {
      var n := |s| - 1;
      if s[n].timestamp > e.timestamp {
        InsertUpInFront(s[..n], e);
        assert [e] + s[..n] + [s[n]] == [e] + s;
      } else {
        forall i {:trigger s[i]} | 0 <= i < n
          ensures s[i] == e
        {
          assert s[i].timestamp <= s[n].timestamp;
        }
        CopiesCommute(s, e);
      }
    }
  }

  lemma CopiesCommute(s: seq<Origin>, e: Origin)
    requires forall i {:trigger s[i]} :: 0 <= i < |s| ==> s[i] == e
    ensures s + [e] == [e] + s
  {
  }

  /** Sorting a newest-first list oldest first reverses it. */
  lemma {:induction false} SortUpReverses(d: seq<Origin>)
    requires Descending(d) && TimesIdentify(d)
    ensures SortUp(d) == Reverse(d)
  {
    if d != [] {
      var n := |d| - 1;
      SortUpReverses(d[..n]);
      ReverseRises(d[..n]);
      LastIsOldest(d, n);
      InsertUpInFront(Reverse(d[..n]), d[n]);
    }
  }

  lemma LastIsOldest(d: seq<Origin>, n: nat)
    requires Descending(d) && TimesIdentify(d) && n < |d|
    ensures Oldest(Reverse(d[..n]), d[n])
  {
    var r := Reverse(d[..n]);
    forall i {:trigger r[i]} | 0 <= i < |r|
      ensures r[i].timestamp > d[n].timestamp || r[i] == d[n]
    {
      ReverseAt(d[..n], i);
      assert r[i] == d[n - 1 - i];
    }
  }

  /** A list in order, read newest first and sorted again, is itself. */
  lemma SortUpUndoesReverse(s: seq<Origin>)
    requires Rising(s) && TimesIdentify(s)
    ensures SortUp(Reverse(s)) == s
  {
    var d := Reverse(s);
    forall i, j {:trigger d[i], d[j]} | 0 <= i < j < |d|
      ensures d[i].timestamp >= d[j].timestamp
    {
      ReverseAt(s, i);
      ReverseAt(s, j);
    }
    ReverseIdentifies(s);
    SortUpReverses(d);
    ReverseTwice(s);
  }

  lemma ReverseIdentifies(s: seq<Origin>)
    requires TimesIdentify(s)
    ensures TimesIdentify(Reverse(s))
  {
    var d := Reverse(s);
    forall i, j {:trigger d[i], d[j]} | 0 <= i < |d| && 0 <= j < |d| && d[i].timestamp == d[j].timestamp
      ensures d[i] == d[j]
    {
      ReverseAt(s, i);
      ReverseAt(s, j);
    }
  }

  lemma ReverseTwice(s: seq<Origin>)
    ensures Reverse(Reverse(s)) == s
  {
    var r := Reverse(Reverse(s));
    forall i | 0 <= i < |s|
      ensures r[i] == s[i]
    {
      ReverseAt(Reverse(s), i);
      ReverseAt(s, |s| - 1 - i);
    }
  }

  /** No earlier than any of these, and one with any of its time. */
  ghost predicate Latest(s: seq<Origin>, e: Origin) {
    forall i {:trigger s[i]} :: 0 <= i < |s| ==> s[i].timestamp < e.timestamp || s[i] == e
  }

  lemma {:induction false} InsertDownInFront(s: seq<Origin>, e: Origin)
    requires Descending(s) && Latest(s, e)
    ensures InsertDown(s, e) == [e] + s
    decreases |s|
  {
    if s != [] {
      var n := |s| - 1;
      if s[n].timestamp < e.timestamp {
        InsertDownInFront(s[..n], e);
        assert [e] + s[..n] + [s[n]] == [e] + s;
      } else {
        forall i {:trigger s[i]} | 0 <= i < n
          ensures s[i] == e
        {
          assert s[i].timestamp >= s[n].timestamp;
        }
        CopiesCommute(s, e);
      }
    }
  }

  /** Sorting a list in order newest first reverses it. */
  lemma {:induction false} SortDownReverses(s: seq<Origin>)
    requires Rising(s) && TimesIdentify(s)
    ensures SortDown(s) == Reverse(s)
  {
    if s != [] {
      var n := |s| - 1;
      PrefixKeepsOrder(s, n);
      SortDownReverses(s[..n]);
      SortDownDescends(s[..n]);
      LastIsLatest(s, n);
      InsertDownInFront(Reverse(s[..n]), s[n]);
    }
  }

  lemma LastIsLatest(s: seq<Origin>, n: nat)
    requires Rising(s) && TimesIdentify(s) && n < |s|
    ensures Latest(Reverse(s[..n]), s[n])
  {
    var r := Reverse(s[..n]);
    forall i {:trigger r[i]} | 0 <= i < |r|
      ensures r[i].timestamp < s[n].timestamp || r[i] == s[n]
    {
      ReverseAt(s[..n], i);
      assert r[i] == s[n - 1 - i];
    }
  }

  lemma {:induction false} InsertUpKeeps(sorted: seq<Origin>, e: Origin, x: Origin)
    ensures x in InsertUp(sorted, e) <==> x in sorted || x == e
  {
    if sorted != [] && sorted[|sorted| - 1].timestamp > e.timestamp {
      var n := |sorted| - 1;
      InsertUpKeeps(sorted[..n], e, x);
      assert sorted == sorted[..n] + [sorted[n]];
    }
  }

  lemma {:induction false} SortUpKeeps(events: seq<Origin>, x: Origin)
    ensures x in SortUp(events) <==> x in events
  {
    if events != [] {
      var n := |events| - 1;
      SortUpKeeps(events[..n], x);
      InsertUpKeeps(SortUp(events[..n]), events[n], x);
      assert events == events[..n] + [events[n]];
    }
  }

  lemma {:induction false} InsertUpRises(sorted: seq<Origin>, e: Origin)
    requires Rising(sorted)
    ensures Rising(InsertUp(sorted, e))
  {
    if sorted != [] && sorted[|sorted| - 1].timestamp > e.timestamp {
      var n := |sorted| - 1;
      InsertUpRises(sorted[..n], e);
      var front, r := InsertUp(sorted[..n], e), InsertUp(sorted, e);
      forall i {:trigger front[i]} | 0 <= i < |front|
        ensures front[i].timestamp <= sorted[n].timestamp
      {
        InsertUpKeeps(sorted[..n], e, front[i]);
        assert front[i] in front;
      }
      assert r == front + [sorted[n]];
    }
  }

  lemma {:induction false} SortUpRises(events: seq<Origin>)
    ensures Rising(SortUp(events))
  {
    if events != [] {
      SortUpRises(events[..|events| - 1]);
      InsertUpRises(SortUp(events[..|events| - 1]), events[|events| - 1]);
    }
  }

  // ----- Growing and trimming -----

  lemma PrefixKeepsOrder(s: seq<Origin>, n: nat)
    requires Rising(s) && TimesIdentify(s) && n <= |s|
    ensures Rising(s[..n]) && TimesIdentify(s[..n])
  {
    var r := s[..n];
    forall i, j {:trigger r[i], r[j]} | 0 <= i < |r| && 0 <= j < |r|
      ensures i < j ==> r[i].timestamp <= r[j].timestamp
      ensures r[i].timestamp == r[j].timestamp ==> r[i] == r[j]
    {
      assert r[i] == s[i] && r[j] == s[j];
    }
  }

  lemma SuffixKeepsOrder(s: seq<Origin>, c: nat)
    requires Rising(s) && TimesIdentify(s) && c <= |s|
    ensures Rising(s[c..]) && TimesIdentify(s[c..])
  {
    var r := s[c..];
    forall i, j {:trigger r[i], r[j]} | 0 <= i < |r| && 0 <= j < |r|
      ensures i < j ==> r[i].timestamp <= r[j].timestamp
      ensures r[i].timestamp == r[j].timestamp ==> r[i] == r[j]
    {
      assert r[i] == s[c + i] && r[j] == s[c + j];
    }
  }

  /** Appending copies of an event that is later than the rest, or is the last of it already. */
  lemma CopiesKeepOrder(s: seq<Origin>, e: Origin, copies: nat)
    requires Rising(s) && TimesIdentify(s)
    requires s == [] || s[|s| - 1].timestamp < e.timestamp || s[|s| - 1] == e
    ensures Rising(s + seq(copies, _ => e)) && TimesIdentify(s + seq(copies, _ => e))
  {
    var r := s + seq(copies, _ => e);
    assert forall i {:trigger r[i]} :: |s| <= i < |r| ==> r[i] == e;
    forall i {:trigger s[i]} | 0 <= i < |s|
      ensures s[i].timestamp <= e.timestamp && (s[i].timestamp == e.timestamp ==> s[i] == e)
    {
      assert i == |s| - 1 || s[i].timestamp <= s[|s| - 1].timestamp;
    }
  }
}
