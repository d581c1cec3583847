/** For any road weights: which roads an offer stands for, which of two it leaves, and at which offer a node settles. */
module OfferedRoads {
  import opened Numbers
  import opened RoutingCost
  import opened Dijkstra
  import opened LeastOffers
  import opened Reachability

  function End(root: int, roads: seq<Road>): int { if roads == [] then root else roads[|roads| - 1].to }

  /** Accessible roads, each leaving where the one before ends. */
  ghost predicate Drives(g: Network, root: int, roads: seq<Road>) {
    roads == [] ||
    (Drives(g, root, roads[..|roads| - 1]) && roads[|roads| - 1] in Out(g, End(root, roads[..|roads| - 1])))
  }

  lemma DrivesOn(g: Network, root: int, roads: seq<Road>, road: Road)
    requires Drives(g, root, roads) && road in Out(g, End(root, roads))
    ensures Drives(g, root, roads + [road]) && End(root, roads + [road]) == road.to
  {
    assert (roads + [road])[..|roads|] == roads;
  }

  /** What a drive compares by: the square of its truncated average weight, times its length, capped at 32 bits. */
  ghost predicate ComparesAs(roads: seq<Road>, c: nat) {
    if roads == [] then c == 0 else exists mean: nat :: IsMean(roads, mean) && c == Min(mean * mean * Length(roads), U32_MAX)
  }

  lemma ReprCompares(roads: seq<Road>, c: nat)
    ensures ComparesAs(roads, c) <==> c == Total(roads).Repr()
  {
    if roads != [] {
      var m := MeanExists(roads);
      ComparesBy(roads, m);
      forall mean: nat | IsMean(roads, mean)
        ensures mean == m
      {
        MeanIsUnique(|roads|, Weights(roads), mean, m);
      }
    }
  }

  /** A settled node was settled at the cost of a drive to it. */
  lemma {:induction false} SettledByADrive(g: Network, root: int, s: Search, ys: seq<Settled>, k: nat) returns (roads: seq<Road>)
    requires Inv(g, root, s, ys) && k < |ys|
    ensures ys[k].index < |s.parents| && Drives(g, root, roads) && End(root, roads) == NodeAt(s, ys, k)
    ensures ys[k].cost == Total(roads) && (k > 0 ==> roads != [])
    decreases k, 0
  {
    if k == 0 {
      roads := [];
    } else {
      assert Descends(g, s, ys, k, ys[k].index, ys[k].parent, ys[k].cost);
      var j :| 0 <= j < k && StepsFrom(g, s, ys, j, ys[k].index, ys[k].parent, ys[k].cost);
      roads := OneRoadOn(g, root, s, ys, j, ys[k].index, ys[k].parent, ys[k].cost);
    }
  }

  lemma OneRoadOn(g: Network, root: int, s: Search, ys: seq<Settled>, j: nat, i: nat, parent: Option<nat>, cost: Cost)
    returns (roads: seq<Road>)
    requires Inv(g, root, s, ys) && j < |ys| && i < |s.parents| && StepsFrom(g, s, ys, j, i, parent, cost)
    ensures Drives(g, root, roads) && roads != [] && End(root, roads) == s.parents[i].node && cost == Total(roads)
    ensures parent.Some? && parent.value < |s.parents|
    ensures End(root, roads[..|roads| - 1]) == s.parents[parent.value].node
    decreases j, 1
  {
    var before := SettledByADrive(g, root, s, ys, j);
    var road :| road in Out(g, s.parents[ys[j].index].node) && road.to == s.parents[i].node && cost == ys[j].cost.Plus(road.Charge());
    roads := before + [road];
    assert roads[..|roads| - 1] == before;
    DrivesOn(g, root, before, road);
    TotalStep(before, road);
  }

  /** Every entry stands for a drive to its node, the last road of it out of its parent. */
  lemma EntryIsADrive(g: Network, root: int, s: Search, ys: seq<Settled>, i: nat) returns (roads: seq<Road>)
    requires Inv(g, root, s, ys) && i < |s.parents|
    ensures Drives(g, root, roads) && End(root, roads) == s.parents[i].node && s.parents[i].cost == Total(roads)
    ensures roads == [] <==> i == 0
    ensures i > 0 ==> s.parents[i].parent.Some? && s.parents[i].parent.value < |s.parents|
    ensures i > 0 ==> End(root, roads[..|roads| - 1]) == s.parents[s.parents[i].parent.value].node
  {
    if i == 0 {
      roads := [];
    } else {
      assert Descends(g, s, ys, |ys|, i, s.parents[i].parent, s.parents[i].cost);
      var j :| 0 <= j < |ys| && StepsFrom(g, s, ys, j, i, s.parents[i].parent, s.parents[i].cost);
      roads := OneRoadOn(g, root, s, ys, j, i, s.parents[i].parent, s.parents[i].cost);
    }
  }

  /**
   * Which parent an offer leaves, for any weights. The offer stands for a drive through the settled node, the
   * entry of the road's end for another; the settled node becomes the parent when that end has no entry, or
   * when its drive compares strictly less, and otherwise nothing changes.
   */
  lemma OfferLeaves(g: Network, root: int, s: Search, ys: seq<Settled>, k: nat, road: Road)
    returns (through: seq<Road>, held: seq<Road>, i: nat, c: nat, d: nat)
    requires Inv(g, root, s, ys) && k < |ys| && ys[k].index < |s.parents| && road in Out(g, NodeAt(s, ys, k))
    ensures Drives(g, root, through) && End(root, through) == road.to && ComparesAs(through, c)
    ensures through != [] && through[|through| - 1] == road && End(root, through[..|through| - 1]) == NodeAt(s, ys, k)
    ensures i <= |s.parents| && (i == |s.parents| <==> forall n :: 0 <= n < |s.parents| ==> s.parents[n].node != road.to)
    ensures i < |s.parents| ==>
      s.parents[i].node == road.to && Drives(g, root, held) && End(root, held) == road.to
      && s.parents[i].cost == Total(held) && ComparesAs(held, d)
    ensures var entry, u := Found(road.to, Some(ys[k].index), Total(through)), Relax(s, ys[k].index, ys[k].cost, road);
      if i == |s.parents| then u.parents == s.parents + [entry]
      else if c < d then u.parents == s.parents[i := entry] else u == s
  {
    var before := SettledByADrive(g, root, s, ys, k);
    through := before + [road];
    assert through[..|through| - 1] == before;
    DrivesOn(g, root, before, road);
    TotalStep(before, road);
    c := Total(through).Repr();
    ReprCompares(through, c);
    var found := Find(s.parents, road.to);
    i := if found.Some? then found.value else |s.parents|;
    held, d := [], 0;
    if i < |s.parents| {
      held := EntryIsADrive(g, root, s, ys, i);
      d := Total(held).Repr();
      ReprCompares(held, d);
    }
  }

  /** Road `r` leads from the `j`-th settled node to the `k`-th. */
  ghost predicate LeadsOn(g: Network, s: Search, ys: seq<Settled>, j: nat, k: nat, r: Road)
    requires j < |ys| && k < |ys|
  {
    && ys[j].index < |s.parents| && ys[k].index < |s.parents|
    && r in Out(g, NodeAt(s, ys, j)) && r.to == NodeAt(s, ys, k)
  }

  /**
   * At which drive a node settles, for any weights: one that leaves its parent last and compares no more than
   * going on to it, by any accessible road, from any node settled before it.
   */
  lemma SettlesAtTheLeast(g: Network, root: int, w: nat, s: Search, ys: seq<Settled>, done: nat, k: nat) returns (roads: seq<Road>, c: nat)
    requires Good(g, root, w, s, ys, done) && 0 < k < |ys|
    ensures ys[k].index < |s.parents| && Drives(g, root, roads) && End(root, roads) == NodeAt(s, ys, k)
    ensures ys[k].cost == Total(roads) && ComparesAs(roads, c) && ys[k].cost.distance == Length(roads)
    ensures roads != [] && ys[k].parent.Some? && ys[k].parent.value < |s.parents|
    ensures End(root, roads[..|roads| - 1]) == s.parents[ys[k].parent.value].node
    ensures forall j, r, before, e: nat {:trigger LeadsOn(g, s, ys, j, k, r), ComparesAs(before + [r], e)} ::
      0 <= j < k && LeadsOn(g, s, ys, j, k, r) && ys[j].cost == Total(before) && ComparesAs(before + [r], e) ==> c <= e
  {
    assert Descends(g, s, ys, k, ys[k].index, ys[k].parent, ys[k].cost);
    var m :| 0 <= m < k && StepsFrom(g, s, ys, m, ys[k].index, ys[k].parent, ys[k].cost);
    roads := OneRoadOn(g, root, s, ys, m, ys[k].index, ys[k].parent, ys[k].cost);
    c := Total(roads).Repr();
    ReprCompares(roads, c);
    TotalSums(roads);
    forall j, r, before, e: nat | 0 <= j < k && LeadsOn(g, s, ys, j, k, r) && ys[j].cost == Total(before) && ComparesAs(before + [r], e)
      ensures c <= e
    {
      TotalStep(before, r);
      ReprCompares(before + [r], e);
      var out := Out(g, NodeAt(s, ys, j));
      var n :| 0 <= n < |out| && out[n] == r;
      assert PaysNoMore(g, s, ys, j, k, n);
    }
  }
}
