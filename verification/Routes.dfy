/** Routes walked out of a predicate map, and which map the bounded search really computes. */
module Routes {
  import opened Numbers
  import opened RoutingCost
  import opened Dijkstra
  import opened LeastOffers
  import opened UniformDijkstra
  import opened Reachability
  import opened PredicateMap

  /** Everything `Calculate` promises of a map and the search behind it. */
  ghost predicate Computed(g: Network, root: int, reach: nat, w: nat, pm: map<int, int>,
                           s: Search, ys: seq<Settled>, n: nat, done: nat)
  {
    && Good(g, root, w, s, ys, done) && Complete(g, s, ys, done)
    && Collected(s, ys, n, pm) && InReach(ys, n, reach) && Stopped(s, ys, n, reach)
  }

  /** The settled node at position `k` is `x`. */
  ghost predicate IsAt(s: Search, ys: seq<Settled>, k: nat, x: int) {
    k < |ys| && ys[k].index < |s.parents| && s.parents[ys[k].index].node == x
  }

  /** A mapped node but the root has an earlier settled parent in the map, one accessible road away. */
  lemma ParentIsEarlier(g: Network, root: int, s: Search, ys: seq<Settled>, n: nat, pm: map<int, int>, k: nat, x: int)
    returns (j: nat, road: Road)
    requires Inv(g, root, s, ys) && Collected(s, ys, n, pm) && k < n && IsAt(s, ys, k, x) && x != root
    ensures j < k && x in pm && IsAt(s, ys, j, pm[x]) && pm[x] in pm
    ensures road in Out(g, pm[x]) && road.to == x && ys[k].cost.distance == ys[j].cost.distance + road.distance
  {
    assert k > 0 by {
      assert s.parents[0].node == root;
    }
    assert Descends(g, s, ys, k, ys[k].index, ys[k].parent, ys[k].cost);
    j :| 0 <= j < k && StepsFrom(g, s, ys, j, ys[k].index, ys[k].parent, ys[k].cost);
    road :| road in Out(g, s.parents[ys[j].index].node) && road.to == x && ys[k].cost == ys[j].cost.Plus(road.Charge());
    assert Maps(s, ys[k], pm) && Maps(s, ys[j], pm);
  }

  // ----- The walk back through a predicate map -----

  /**
   * A node of the map hangs off the root: its parent is in the map, placed before it, and the accessible
   * road between them is the difference of their distances.
   */
  ghost predicate Hangs(g: Network, root: int, pm: map<int, int>, order: map<int, nat>, dist: map<int, nat>, x: int) {
    && x in pm && x in order && x in dist
    && if x == root then dist[x] == 0
       else pm[x] in pm && pm[x] in order && pm[x] in dist && order[pm[x]] < order[x]
            && exists road :: road in Out(g, pm[x]) && road.to == x && dist[x] == dist[pm[x]] + road.distance
  }

  /** The map is a tree of roads hanging off the root, every node of it nearer than the reach. */
  ghost predicate Tree(g: Network, root: int, reach: nat, pm: map<int, int>, order: map<int, nat>, dist: map<int, nat>) {
    forall x :: x in pm ==> Hangs(g, root, pm, order, dist, x) && dist[x] < reach
  }

  /**
   * The parent walk through any such map, computed or cached. It ends for every mapped leaf, because each
   * parent is placed before; the walk is a contiguous road route from the root of the leaf's distance.
   */
  method ParentPath(pm: map<int, int>, root: int, leaf: int,
                    ghost g: Network, ghost reach: nat, ghost order: map<int, nat>, ghost dist: map<int, nat>)
    returns (r: Option<seq<int>>)
    requires Tree(g, root, reach, pm, order, dist)
    ensures r.None? <==> leaf != root && leaf !in pm
    ensures r.Some? ==> |r.value| > 0 && r.value[0] == root && r.value[|r.value| - 1] == leaf
    ensures r.Some? && leaf == root ==> r.value == [root]
    ensures r.Some? && leaf != root ==> leaf in dist && dist[leaf] < reach && Chain(g, r.value, dist[leaf])
  {
    if leaf == root {
      return Some([root]);
    }
    if leaf !in pm {
      return None;
    }
    HangsThere(g, root, reach, pm, order, dist, leaf);
    var nodes := WalkBack(pm, root, leaf, g, reach, order, dist);
    r := Some(nodes);
  }

  /** The walk itself, each node placed before the one it leads to. */
  method WalkBack(pm: map<int, int>, root: int, leaf: int,
                  ghost g: Network, ghost reach: nat, ghost order: map<int, nat>, ghost dist: map<int, nat>)
    returns (nodes: seq<int>)
    requires Tree(g, root, reach, pm, order, dist) && leaf in pm
    ensures |nodes| > 0 && nodes[0] == root && nodes[|nodes| - 1] == leaf && root in pm
    ensures leaf in dist && Chain(g, nodes, dist[leaf])
  {
    nodes := [leaf];
    var cursor := leaf;
    ghost var left: nat := 0;
    HangsThere(g, root, reach, pm, order, dist, leaf);
    while cursor != root
      invariant cursor in pm && cursor in order && cursor in dist
      invariant |nodes| > 0 && nodes[0] == cursor && nodes[|nodes| - 1] == leaf
      invariant Chain(g, nodes, left) && left + dist[cursor] == dist[leaf]
      decreases order[cursor]
    {
      var up := pm[cursor];
      ghost var longer, more := StepsUp(g, root, reach, pm, order, dist, cursor, nodes, left);
      nodes, cursor, left := [up] + nodes, up, more;
    }
    HangsThere(g, root, reach, pm, order, dist, cursor);
  }

  lemma HangsThere(g: Network, root: int, reach: nat, pm: map<int, int>, order: map<int, nat>, dist: map<int, nat>, x: int)
    requires Tree(g, root, reach, pm, order, dist) && x in pm
    ensures x in order && x in dist && dist[x] < reach && (x == root ==> dist[x] == 0)
  {
    assert Hangs(g, root, pm, order, dist, x);
  }

  lemma StepUp(g: Network, root: int, reach: nat, pm: map<int, int>, order: map<int, nat>, dist: map<int, nat>, x: int)
    returns (road: Road)
    requires Tree(g, root, reach, pm, order, dist) && x in pm && x != root && x in order && x in dist
    ensures pm[x] in pm && pm[x] in order && pm[x] in dist && order[pm[x]] < order[x]
    ensures road in Out(g, pm[x]) && road.to == x && dist[x] == dist[pm[x]] + road.distance
  {
    assert Hangs(g, root, pm, order, dist, x);
    road :| road in Out(g, pm[x]) && road.to == x && dist[x] == dist[pm[x]] + road.distance;
  }

  /** One more node in front of the walk, and how long it is then. */
  lemma StepsUp(g: Network, root: int, reach: nat, pm: map<int, int>, order: map<int, nat>, dist: map<int, nat>,
                x: int, nodes: seq<int>, left: nat) returns (longer: seq<int>, more: nat)
    requires Tree(g, root, reach, pm, order, dist) && x in pm && x != root && x in order && x in dist
    requires nodes != [] && nodes[0] == x && Chain(g, nodes, left)
    ensures pm[x] in pm && pm[x] in order && pm[x] in dist && order[pm[x]] < order[x]
    ensures longer == [pm[x]] + nodes && Chain(g, longer, more) && more + dist[pm[x]] == left + dist[x]
  {
    var road := StepUp(g, root, reach, pm, order, dist, x);
    longer, more := [pm[x]] + nodes, left + road.distance;
    ChainPrepends(g, pm[x], nodes, left, road);
  }

  /** Every node of such a map is reached, by roads, at its distance. */
  lemma {:induction false} TreeIsNearer(g: Network, root: int, reach: nat, pm: map<int, int>,
                                        order: map<int, nat>, dist: map<int, nat>, x: int) returns (p: seq<int>)
    requires Tree(g, root, reach, pm, order, dist) && x in pm && x in order && x in dist
    ensures p != [] && p[0] == root && p[|p| - 1] == x && Chain(g, p, dist[x]) && Nearer(g, root, x, reach) && root in pm
    decreases order[x]
  {
    HangsThere(g, root, reach, pm, order, dist, x);
    if x == root {
      p := [root];
    } else {
      var road := StepUp(g, root, reach, pm, order, dist, x);
      var q := TreeIsNearer(g, root, reach, pm, order, dist, pm[x]);
      ChainExtends(g, q, dist[pm[x]], road);
      p := q + [x];
    }
    assert Chain(g, p, dist[x]) && dist[x] < reach;
  }

  // ----- The map the search computes -----

  /** Where a mapped node was settled. */
  ghost function Place(s: Search, ys: seq<Settled>, n: nat, pm: map<int, int>, x: int): (k: nat)
    requires Collected(s, ys, n, pm) && x in pm
    ensures k < n && IsAt(s, ys, k, x)
  {
    var k :| 0 <= k < n && ys[k].index < |s.parents| && s.parents[ys[k].index].node == x;
    k
  }

  lemma PlaceIsUnique(g: Network, root: int, s: Search, ys: seq<Settled>, n: nat, pm: map<int, int>, x: int, j: nat)
    requires Inv(g, root, s, ys) && Collected(s, ys, n, pm) && x in pm && IsAt(s, ys, j, x)
    ensures Place(s, ys, n, pm, x) == j
  {
    var k := Place(s, ys, n, pm, x);
    if j < k { SettledNodesDiffer(g, root, s, ys, j, k); }
    if k < j { SettledNodesDiffer(g, root, s, ys, k, j); }
  }

  ghost function Order(s: Search, ys: seq<Settled>, n: nat, pm: map<int, int>): (order: map<int, nat>)
    requires Collected(s, ys, n, pm)
    ensures order.Keys == pm.Keys
  {
    map x | x in pm :: Place(s, ys, n, pm, x)
  }

  ghost function Distances(s: Search, ys: seq<Settled>, n: nat, pm: map<int, int>): (dist: map<int, nat>)
    requires Collected(s, ys, n, pm)
    ensures dist.Keys == pm.Keys
  {
    map x | x in pm :: ys[Place(s, ys, n, pm, x)].cost.distance
  }

  /** The collected map is such a tree: nodes placed as they settled, at their settled distances. */
  lemma CollectedIsATree(g: Network, root: int, reach: nat, s: Search, ys: seq<Settled>, n: nat, pm: map<int, int>)
    requires Inv(g, root, s, ys) && Collected(s, ys, n, pm) && InReach(ys, n, reach)
    ensures Tree(g, root, reach, pm, Order(s, ys, n, pm), Distances(s, ys, n, pm))
  {
    forall x | x in pm
      ensures Hangs(g, root, pm, Order(s, ys, n, pm), Distances(s, ys, n, pm), x) && Distances(s, ys, n, pm)[x] < reach
    {
      HangsAsSettled(g, root, reach, s, ys, n, pm, x);
    }
  }

  lemma HangsAsSettled(g: Network, root: int, reach: nat, s: Search, ys: seq<Settled>, n: nat, pm: map<int, int>, x: int)
    requires Inv(g, root, s, ys) && Collected(s, ys, n, pm) && InReach(ys, n, reach) && x in pm
    ensures Hangs(g, root, pm, Order(s, ys, n, pm), Distances(s, ys, n, pm), x) && Distances(s, ys, n, pm)[x] < reach
  {
    var order, dist := Order(s, ys, n, pm), Distances(s, ys, n, pm);
    var k := Place(s, ys, n, pm, x);
    assert order[x] == k && dist[x] == ys[k].cost.distance;
    if x == root {
      RootSettledAtZero(g, root, s, ys, k);
    } else {
      var j, road := ParentIsEarlier(g, root, s, ys, n, pm, k, x);
      PlaceIsUnique(g, root, s, ys, n, pm, pm[x], j);
      HangsBelow(g, root, pm, order, dist, x, road);
    }
  }

  lemma HangsBelow(g: Network, root: int, pm: map<int, int>, order: map<int, nat>, dist: map<int, nat>, x: int, road: Road)
    requires x in pm && x in order && x in dist && x != root
    requires pm[x] in pm && pm[x] in order && pm[x] in dist && order[pm[x]] < order[x]
    requires road in Out(g, pm[x]) && road.to == x && dist[x] == dist[pm[x]] + road.distance
    ensures Hangs(g, root, pm, order, dist, x)
  {
  }

  lemma RootSettledAtZero(g: Network, root: int, s: Search, ys: seq<Settled>, k: nat)
    requires Inv(g, root, s, ys) && IsAt(s, ys, k, root)
    ensures ys[k].cost.distance == 0
  {
    if k > 0 {
      SettledNodesDiffer(g, root, s, ys, 0, k);
    }
  }

  /** Every settled node is reached by a road route of exactly its settled distance. */
  lemma {:induction false} RouteTo(g: Network, root: int, s: Search, ys: seq<Settled>, k: nat) returns (p: seq<int>)
    requires Inv(g, root, s, ys) && k < |ys|
    ensures ys[k].index < |s.parents| && p != [] && p[0] == root && p[|p| - 1] == s.parents[ys[k].index].node
    ensures Chain(g, p, ys[k].cost.distance)
    decreases k
  {
    if k == 0 {
      p := [root];
    } else {
      assert Descends(g, s, ys, k, ys[k].index, ys[k].parent, ys[k].cost);
      var j :| 0 <= j < k && StepsFrom(g, s, ys, j, ys[k].index, ys[k].parent, ys[k].cost);
      var road :| road in Out(g, s.parents[ys[j].index].node) && road.to == s.parents[ys[k].index].node
        && ys[k].cost == ys[j].cost.Plus(road.Charge());
      var q := RouteTo(g, root, s, ys, j);
      ChainExtends(g, q, ys[j].cost.distance, road);
      p := q + [road.to];
    }
  }

  // ----- One road weight: exact and shortest -----

  /** One weight for every road, and a reach whose cost fits 32 bits. */
  ghost predicate Exact(g: Network, w: nat, reach: nat) {
    OneWeight(g, w) && w > 0 && w * w * reach <= U32_MAX
  }

  lemma SettledRepr(w: nat, s: Search, ys: seq<Settled>, k: nat)
    requires UniformInv(w, s, ys) && k < |ys|
    ensures ys[k].cost.Repr() == Key(w, ys[k].cost.distance)
  {
    assert s.parents[ys[k].index].cost == ys[k].cost;
    UniformRepr(ys[k].cost, w);
  }

  /** An entry nearer than the reach has been settled, kept, and at no more than that distance. */
  lemma NearIsKept(g: Network, root: int, reach: nat, w: nat, pm: map<int, int>,
                   s: Search, ys: seq<Settled>, n: nat, done: nat, i: nat, d: nat) returns (k: nat)
    requires Computed(g, root, reach, w, pm, s, ys, n, done) && Exact(g, w, reach)
    requires i < |s.parents| && s.parents[i].cost.Repr() <= Key(w, d) && d < reach
    ensures k < n && ys[k].index == i && ys[k].cost.distance <= d
  {
    assert UniformInv(w, s, ys);
    if i !in s.seen {
      var h := Holder(s.parents[i].cost, i);
      assert h in s.heap && n + 1 == |ys|;
      assert NoDearer(ys[n].cost, h.cost);
      SettledRepr(w, s, ys, n);
      KeyIsExact(w, reach, ys[n].cost.distance, d);
      assert false;
    }
    k :| 0 <= k < |ys| && ys[k].index == i;
    SettledRepr(w, s, ys, k);
    KeyIsExact(w, reach, ys[k].cost.distance, d);
  }

  /** Some kept node is `x`, at no more than distance `d`. */
  ghost predicate KeptWithin(s: Search, ys: seq<Settled>, n: nat, x: int, d: int) {
    exists j :: 0 <= j < n && IsAt(s, ys, j, x) && ys[j].cost.distance <= d
  }

  /** Every road out of a kept node, if it stays in reach, leads to a kept node no further away. */
  ghost predicate ClosedInReach(g: Network, reach: nat, s: Search, ys: seq<Settled>, n: nat) {
    forall k: nat, road: Road {:trigger LeadsOn(g, reach, s, ys, k, road)} ::
      k < n && LeadsOn(g, reach, s, ys, k, road) ==> KeptWithin(s, ys, n, road.to, ys[k].cost.distance + road.distance)
  }

  ghost predicate LeadsOn(g: Network, reach: nat, s: Search, ys: seq<Settled>, k: nat, road: Road) {
    && k < |ys| && ys[k].index < |s.parents| && road in Out(g, s.parents[ys[k].index].node)
    && ys[k].cost.distance + road.distance < reach
  }

  lemma ComputedIsClosed(g: Network, root: int, reach: nat, w: nat, pm: map<int, int>,
                         s: Search, ys: seq<Settled>, n: nat, done: nat)
    requires Computed(g, root, reach, w, pm, s, ys, n, done) && Exact(g, w, reach)
    ensures n <= |ys| && ClosedInReach(g, reach, s, ys, n)
  {
    forall k: nat, road: Road | k < n && LeadsOn(g, reach, s, ys, k, road)
      ensures KeptWithin(s, ys, n, road.to, ys[k].cost.distance + road.distance)
    {
      var j := RoadIsKept(g, root, reach, w, pm, s, ys, n, done, k, road);
    }
  }

  /** Following roads out of a kept node, while in reach, only meets kept nodes, no later than the roads allow. */
  lemma {:induction false} ChainIsKept(g: Network, reach: nat, s: Search, ys: seq<Settled>, n: nat,
                                       p: seq<int>, d: int, k: nat) returns (m: nat)
    requires n <= |ys| && ClosedInReach(g, reach, s, ys, n)
    requires k < n && Chain(g, p, d) && IsAt(s, ys, k, p[0]) && ys[k].cost.distance + d < reach
    ensures m < n && IsAt(s, ys, m, p[|p| - 1]) && ys[m].cost.distance <= ys[k].cost.distance + d
    decreases |p|
  {
    if |p| == 1 {
      m := k;
    } else {
      var road :| road in Out(g, p[0]) && road.to == p[1] && Chain(g, p[1..], d - road.distance);
      ChainIsForwards(g, p[1..], d - road.distance);
      assert LeadsOn(g, reach, s, ys, k, road);
      var j :| 0 <= j < n && IsAt(s, ys, j, road.to) && ys[j].cost.distance <= ys[k].cost.distance + road.distance;
      m := ChainIsKept(g, reach, s, ys, n, p[1..], d - road.distance, j);
    }
  }

  /** A road out of a kept node, if it stays in reach, leads to a kept node no further away. */
  lemma RoadIsKept(g: Network, root: int, reach: nat, w: nat, pm: map<int, int>,
                   s: Search, ys: seq<Settled>, n: nat, done: nat, k: nat, road: Road) returns (j: nat)
    requires Computed(g, root, reach, w, pm, s, ys, n, done) && Exact(g, w, reach) && k < n && k < |ys|
    requires ys[k].index < |s.parents| && road in Out(g, s.parents[ys[k].index].node)
    requires ys[k].cost.distance + road.distance < reach
    ensures j < n && IsAt(s, ys, j, road.to) && ys[j].cost.distance <= ys[k].cost.distance + road.distance
  {
    var i := OfferedEntry(g, w, root, s, ys, done, k, road);
    j := NearIsKept(g, root, reach, w, pm, s, ys, n, done, i, ys[k].cost.distance + road.distance);
  }

  /** Each road out of a settled node leads to an entry at no more than the cost of taking it. */
  lemma OfferedEntry(g: Network, w: nat, root: int, s: Search, ys: seq<Settled>, done: nat, k: nat, road: Road) returns (i: nat)
    requires Expanded(g, s, ys, done) && Complete(g, s, ys, done) && k < |ys| && OneWeight(g, w) && UniformInv(w, s, ys)
    requires ys[k].index < |s.parents| && road in Out(g, s.parents[ys[k].index].node)
    ensures i < |s.parents| && s.parents[i].node == road.to
    ensures s.parents[i].cost.Repr() <= Key(w, ys[k].cost.distance + road.distance)
  {
    OfferKey(g, w, s, ys, k, road);
    i := EntryWithin(g, s, ys, done, k, road);
  }

  lemma OfferKey(g: Network, w: nat, s: Search, ys: seq<Settled>, k: nat, road: Road)
    requires k < |ys| && OneWeight(g, w) && UniformInv(w, s, ys)
    requires ys[k].index < |s.parents| && road in Out(g, s.parents[ys[k].index].node)
    ensures ys[k].cost.Plus(road.Charge()).Repr() == Key(w, ys[k].cost.distance + road.distance)
  {
    var node := s.parents[ys[k].index].node;
    var r :| 0 <= r < |g[node]| && g[node][r] == road;
    assert g[node][r].weight == w;
    assert Uniform(s.parents[ys[k].index].cost, w);
    OfferIsNoCheaper(ys[k].cost, road, w);
  }

  lemma EntryWithin(g: Network, s: Search, ys: seq<Settled>, done: nat, k: nat, road: Road) returns (i: nat)
    requires Expanded(g, s, ys, done) && Complete(g, s, ys, done) && k < |ys|
    requires ys[k].index < |s.parents| && road in Out(g, s.parents[ys[k].index].node)
    ensures i < |s.parents| && s.parents[i].node == road.to && s.parents[i].cost.Repr() <= ys[k].cost.Plus(road.Charge()).Repr()
  {
    var roads := Out(g, s.parents[ys[k].index].node);
    var r :| 0 <= r < |roads| && roads[r] == road;
    assert FullOrPartial(g, s, ys, k, done);
    assert Within(s, road.to, ys[k].cost.Plus(road.Charge()).Repr());
    i :| 0 <= i < |s.parents| && s.parents[i].node == road.to && s.parents[i].cost.Repr() <= ys[k].cost.Plus(road.Charge()).Repr();
  }

  /** The root is kept as soon as the reach is positive. */
  lemma RootIsKept(g: Network, root: int, reach: nat, w: nat, pm: map<int, int>,
                   s: Search, ys: seq<Settled>, n: nat, done: nat)
    requires Computed(g, root, reach, w, pm, s, ys, n, done) && reach > 0
    ensures n > 0 && IsAt(s, ys, 0, root) && ys[0].cost.distance == 0
  {
    var first := Holder(ZERO, 0);
    assert ys == [] ==> first in s.heap;
  }

  /** Kept nodes come in nondecreasing distance, each at its shortest distance from the root. */
  lemma KeptAreShortest(g: Network, root: int, reach: nat, w: nat, pm: map<int, int>,
                        s: Search, ys: seq<Settled>, n: nat, done: nat, k: nat)
    requires Computed(g, root, reach, w, pm, s, ys, n, done) && Exact(g, w, reach) && k < n
    ensures forall j :: 0 <= j < k ==> ys[j].cost.distance <= ys[k].cost.distance
    ensures ys[k].index < |s.parents|
    ensures forall p, d :: Chain(g, p, d) && p[0] == root && p[|p| - 1] == s.parents[ys[k].index].node ==>
      ys[k].cost.distance <= d
  {
    forall j | 0 <= j < k
      ensures ys[j].cost.distance <= ys[k].cost.distance
    {
      assert NoDearer(ys[j].cost, ys[k].cost);
      SettledRepr(w, s, ys, j);
      SettledRepr(w, s, ys, k);
      KeyIsExact(w, reach, ys[j].cost.distance, ys[k].cost.distance);
    }
    RootIsKept(g, root, reach, w, pm, s, ys, n, done);
    ComputedIsClosed(g, root, reach, w, pm, s, ys, n, done);
    forall p, d | Chain(g, p, d) && p[0] == root && p[|p| - 1] == s.parents[ys[k].index].node
      ensures ys[k].cost.distance <= d
    {
      if d < reach {
        var m := ChainIsKept(g, reach, s, ys, n, p, d, 0);
        if m < k {
          SettledNodesDiffer(g, root, s, ys, m, k);
        } else if k < m {
          SettledNodesDiffer(g, root, s, ys, k, m);
        }
      }
    }
  }

  /** Some road route leads from the root to `x` in less than the reach. */
  ghost predicate Nearer(g: Network, root: int, x: int, reach: nat) {
    exists p, d :: Chain(g, p, d) && p[0] == root && p[|p| - 1] == x && d < reach
  }

  /** The predicate map holds exactly the nodes some road route reaches nearer than the reach. */
  lemma MapIsExact(g: Network, root: int, reach: nat, w: nat, pm: map<int, int>,
                   s: Search, ys: seq<Settled>, n: nat, done: nat, x: int)
    requires Computed(g, root, reach, w, pm, s, ys, n, done) && Exact(g, w, reach)
    ensures x in pm <==> Nearer(g, root, x, reach)
  {
    if x in pm {
      var k :| 0 <= k < n && ys[k].index < |s.parents| && s.parents[ys[k].index].node == x;
      var p := RouteTo(g, root, s, ys, k);
      assert Chain(g, p, ys[k].cost.distance) && ys[k].cost.distance < reach;
    }
    forall p, d | Chain(g, p, d) && p[0] == root && p[|p| - 1] == x && d < reach
      ensures x in pm
    {
      ChainIsForwards(g, p, d);
      RootIsKept(g, root, reach, w, pm, s, ys, n, done);
      ComputedIsClosed(g, root, reach, w, pm, s, ys, n, done);
      var m := ChainIsKept(g, reach, s, ys, n, p, d, 0);
      assert Maps(s, ys[m], pm);
    }
  }

  /**
   * The predicate map by what it means, for any weights: it holds the root unless the reach is nothing, and
   * it is a tree of accessible roads hanging off the root, every node of it nearer than the reach.
   */
  ghost predicate Reaches(g: Network, root: int, reach: nat, pm: map<int, int>) {
    (reach > 0 <==> root in pm) && exists order, dist :: Tree(g, root, reach, pm, order, dist)
  }

  /** It holds every node that is nearer than the reach. */
  ghost predicate ReachesAll(g: Network, root: int, reach: nat, pm: map<int, int>) {
    forall x :: Nearer(g, root, x, reach) ==> x in pm
  }

  lemma ComputedReaches(g: Network, root: int, reach: nat, w: nat, pm: map<int, int>,
                        s: Search, ys: seq<Settled>, n: nat, done: nat)
    requires Computed(g, root, reach, w, pm, s, ys, n, done)
    ensures Reaches(g, root, reach, pm)
    ensures Exact(g, w, reach) ==> ReachesAll(g, root, reach, pm)
  {
    CollectedIsATree(g, root, reach, s, ys, n, pm);
    if reach > 0 {
      RootIsKept(g, root, reach, w, pm, s, ys, n, done);
      assert Maps(s, ys[0], pm);
    }
    if Exact(g, w, reach) {
      forall x | Nearer(g, root, x, reach)
        ensures x in pm
      {
        MapIsExact(g, root, reach, w, pm, s, ys, n, done, x);
      }
    }
  }

  /** The predicate map of the bounded search: sound for any weights, and exact for one. */
  method Predicates(g: Network, root: int, reach: nat, ghost w: nat) returns (pm: map<int, int>)
    ensures Reaches(g, root, reach, pm)
    ensures Exact(g, w, reach) ==> ReachesAll(g, root, reach, pm)
  {
    ghost var s; ghost var ys; ghost var n; ghost var done;
    pm, s, ys, n, done := Calculate(g, root, reach, w);
    ComputedReaches(g, root, reach, w, pm, s, ys, n, done);
  }

  /** The road route between two nodes, as the expansion asks for it: search, then walk back. */
  method Route(g: Network, root: int, leaf: int, reach: nat, ghost w: nat) returns (r: Option<seq<int>>, ghost d: nat)
    ensures r.Some? ==> |r.value| > 0 && r.value[0] == root && r.value[|r.value| - 1] == leaf && Chain(g, r.value, d)
    ensures r.Some? && leaf != root ==> d < reach
    ensures Exact(g, w, reach) ==>
      (r.Some? <==> leaf == root || Nearer(g, root, leaf, reach))
    ensures Exact(g, w, reach) && r.Some? ==>
      forall p, e :: Chain(g, p, e) && p[0] == root && p[|p| - 1] == leaf ==> d <= e
  {
    var pm; ghost var s; ghost var ys; ghost var n; ghost var done;
    pm, s, ys, n, done := Calculate(g, root, reach, w);
    CollectedIsATree(g, root, reach, s, ys, n, pm);
    r := ParentPath(pm, root, leaf, g, reach, Order(s, ys, n, pm), Distances(s, ys, n, pm));
    d := if r.Some? && leaf != root then Distances(s, ys, n, pm)[leaf] else 0;
    if Exact(g, w, reach) {
      MapIsExact(g, root, reach, w, pm, s, ys, n, done, leaf);
      if r.Some? && leaf != root {
        KeptAreShortest(g, root, reach, w, pm, s, ys, n, done, Place(s, ys, n, pm, leaf));
      }
    }
    forall p, e | Chain(g, p, e)
      ensures 0 <= e
    {
      ChainIsForwards(g, p, e);
    }
  }

  // ----- From nodes to edges -----

  datatype Edge = Edge(source: int, target: int, id: int)

  /** The edge between each two neighbours, silently leaving out any that is not found. */
  function Edges(lookup: (int, int) -> Option<Edge>, nodes: seq<int>): seq<Edge> {
    if |nodes| < 2 then [] else
    (match lookup(nodes[0], nodes[1]) case Some(e) => [e] case None => []) + Edges(lookup, nodes[1..])
  }

  /** The map finds an edge for every accessible road, between the road's own ends. */
  ghost predicate FindsRoads(g: Network, lookup: (int, int) -> Option<Edge>) {
    forall a: int, road: Road {:trigger road in Out(g, a)} :: road in Out(g, a) ==>
      lookup(a, road.to).Some? && lookup(a, road.to).value.source == a && lookup(a, road.to).value.target == road.to
  }

  /** The edges are the ones the map has between the nodes, one after the other. */
  ghost predicate Joins(lookup: (int, int) -> Option<Edge>, edges: seq<Edge>, nodes: seq<int>) {
    |edges| + 1 == |nodes| && forall i {:trigger edges[i]} :: 0 <= i < |edges| ==>
      edges[i].source == nodes[i] && edges[i].target == nodes[i + 1] && lookup(nodes[i], nodes[i + 1]) == Some(edges[i])
  }

  /** Along a road route none is left out: one edge per step, each joining its two nodes. */
  lemma {:induction false} NoEdgeIsDropped(g: Network, lookup: (int, int) -> Option<Edge>, nodes: seq<int>, d: int)
    requires Chain(g, nodes, d) && FindsRoads(g, lookup)
    ensures Joins(lookup, Edges(lookup, nodes), nodes)
    decreases |nodes|
  {
    if |nodes| > 1 {
      var road :| road in Out(g, nodes[0]) && road.to == nodes[1] && Chain(g, nodes[1..], d - road.distance);
      NoEdgeIsDropped(g, lookup, nodes[1..], d - road.distance);
      var rest, e := Edges(lookup, nodes[1..]), lookup(nodes[0], nodes[1]).value;
      assert Edges(lookup, nodes) == [e] + rest;
      assert forall i {:trigger rest[i]} :: 0 <= i < |rest| ==>
        rest[i].source == nodes[i + 1] && rest[i].target == nodes[i + 2] && lookup(nodes[i + 1], nodes[i + 2]) == Some(rest[i]);
    }
  }

  /** The road edges between two nodes: search, walk back, look each step up. */
  method RouteEdges(g: Network, lookup: (int, int) -> Option<Edge>, root: int, leaf: int, reach: nat, ghost w: nat)
    returns (r: Option<seq<Edge>>, ghost nodes: seq<int>, ghost d: nat)
    ensures r.Some? ==> |nodes| > 0 && nodes[0] == root && nodes[|nodes| - 1] == leaf && Chain(g, nodes, d)
    ensures r.Some? && leaf != root ==> d < reach
    ensures r.Some? && FindsRoads(g, lookup) ==> Joins(lookup, r.value, nodes)
    ensures Exact(g, w, reach) ==> (r.Some? <==> leaf == root || Nearer(g, root, leaf, reach))
  {
    var route;
    route, d := Route(g, root, leaf, reach, w);
    if route.None? {
      return None, [], d;
    }
    nodes := route.value;
    var edges := LookUp(lookup, route.value);
    if FindsRoads(g, lookup) {
      NoEdgeIsDropped(g, lookup, nodes, d);
    }
    r := Some(edges);
  }

  /** Every two neighbours looked up in turn. */
  method LookUp(lookup: (int, int) -> Option<Edge>, nodes: seq<int>) returns (edges: seq<Edge>)
    requires nodes != []
    ensures edges == Edges(lookup, nodes)
  {
    edges := [];
    for i := 0 to |nodes| - 1
      invariant edges + Edges(lookup, nodes[i..]) == Edges(lookup, nodes)
    {
      var found := lookup(nodes[i], nodes[i + 1]);
      ghost var rest := Edges(lookup, nodes[i + 1..]);
      assert nodes[i..][1..] == nodes[i + 1..];
      if found.Some? {
        assert edges + ([found.value] + rest) == edges + [found.value] + rest;
        edges := edges + [found.value];
      } else {
        assert edges + ([] + rest) == edges + rest;
      }
    }
    assert Edges(lookup, nodes[|nodes| - 1..]) == [];
  }
}
