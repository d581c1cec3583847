/** The bounded predicate map, the parent walk out of it, and what both mean on the road network. */
module PredicateMap {
  import opened Numbers
  import opened RoutingCost
  import opened Dijkstra
  import opened Reachability

  /** `p` follows accessible roads, `d` centimetres in all. */
  ghost predicate Chain(g: Network, p: seq<int>, d: int)
    decreases |p|
  {
    if |p| == 0 then false
    else if |p| == 1 then d == 0
    else exists r :: r in Out(g, p[0]) && r.to == p[1] && Chain(g, p[1..], d - r.distance)
  }

  lemma {:induction false} ChainExtends(g: Network, p: seq<int>, d: int, r: Road)
    requires Chain(g, p, d) && r in Out(g, p[|p| - 1])
    ensures Chain(g, p + [r.to], d + r.distance)
    decreases |p|
  {
    var q := p + [r.to];
    if |p| == 1 {
      assert q[1..] == [r.to];
      assert Chain(g, q[1..], d + r.distance - r.distance);
    } else {
      var first :| first in Out(g, p[0]) && first.to == p[1] && Chain(g, p[1..], d - first.distance);
      ChainExtends(g, p[1..], d - first.distance, r);
      assert q[1..] == p[1..] + [r.to];
      assert Chain(g, q[1..], d + r.distance - first.distance);
    }
  }

  lemma ChainPrepends(g: Network, a: int, p: seq<int>, d: int, r: Road)
    requires Chain(g, p, d) && r in Out(g, a) && r.to == p[0]
    ensures Chain(g, [a] + p, d + r.distance)
  {
    var q := [a] + p;
    assert q[1..] == p && q[0] == a && q[1] == p[0];
    assert Chain(g, q[1..], d + r.distance - r.distance);
  }

  lemma {:induction false} ChainIsForwards(g: Network, p: seq<int>, d: int)
    requires Chain(g, p, d)
    ensures d >= 0
    decreases |p|
  {
    if |p| > 1 {
      var r :| r in Out(g, p[0]) && r.to == p[1] && Chain(g, p[1..], d - r.distance);
      ChainIsForwards(g, p[1..], d - r.distance);
    }
  }

  // ----- The map -----

  /** `pm` maps the first `n` settled nodes, and only them, to the node each was reached from. */
  ghost predicate Collected(s: Search, ys: seq<Settled>, n: nat, pm: map<int, int>) {
    && n <= |ys|
    && (forall k :: 0 <= k < n ==> Maps(s, ys[k], pm))
    && (forall x :: x in pm ==> exists k :: 0 <= k < n && ys[k].index < |s.parents| && s.parents[ys[k].index].node == x)
  }

  /** `pm` sends a settled node to its parent; the root has none and gets the default entry. */
  ghost predicate Maps(s: Search, y: Settled, pm: map<int, int>) {
    && y.index < |s.parents| && s.parents[y.index].node in pm
    && match y.parent
       case None => pm[s.parents[y.index].node] == 0
       case Some(p) => p < |s.parents| && pm[s.parents[y.index].node] == s.parents[p].node
  }

  /** Why the search stopped: nothing left, or the first item out of reach. */
  ghost predicate Stopped(s: Search, ys: seq<Settled>, n: nat, reach: nat) {
    || (n == |ys| && s.heap == multiset{})
    || (n + 1 == |ys| && ys[n].cost.distance >= reach)
  }

  ghost predicate InReach(ys: seq<Settled>, n: nat, reach: nat) {
    n <= |ys| && forall k :: 0 <= k < n ==> ys[k].cost.distance < reach
  }

  lemma CollectedStays(s: Search, u: Search, ys: seq<Settled>, zs: seq<Settled>, n: nat, pm: map<int, int>)
    requires KeepsNodes(s, u) && ys <= zs && Collected(s, ys, n, pm)
    ensures Collected(u, zs, n, pm)
  {
    forall k | 0 <= k < n
      ensures Maps(u, zs[k], pm)
    {
      assert Maps(s, ys[k], pm) && zs[k] == ys[k];
    }
    forall x | x in pm
      ensures exists k :: 0 <= k < n && zs[k].index < |u.parents| && u.parents[zs[k].index].node == x
    {
      var k :| 0 <= k < n && ys[k].index < |s.parents| && s.parents[ys[k].index].node == x;
      assert zs[k] == ys[k];
    }
  }

  /** Settled nodes are pairwise different nodes of the network. */
  lemma SettledNodesDiffer(g: Network, root: int, s: Search, ys: seq<Settled>, j: nat, k: nat)
    requires Inv(g, root, s, ys) && j < k < |ys|
    ensures ys[j].index < |s.parents| && ys[k].index < |s.parents|
    ensures s.parents[ys[j].index].node != s.parents[ys[k].index].node
  {
    assert Apart(ys, j, k);
    var a, b := ys[j].index, ys[k].index;
    assert if a < b then Differ(s.parents, a, b) else Differ(s.parents, b, a);
  }

  /** Adding the node just settled. */
  lemma CollectedGrows(g: Network, root: int, s: Search, ys: seq<Settled>, pm: map<int, int>, item: Item)
    requires Inv(g, root, s, ys) && ys != [] && Collected(s, ys, |ys| - 1, pm) && Describes(s, ys[|ys| - 1], item)
    ensures Collected(s, ys, |ys|, pm[item.node := match item.parent case None => 0 case Some(p) => p])
  {
    var n := |ys| - 1;
    var qm := pm[item.node := match item.parent case None => 0 case Some(p) => p];
    forall k | 0 <= k < |ys|
      ensures Maps(s, ys[k], qm)
    {
      if k < n {
        assert Maps(s, ys[k], pm);
        SettledNodesDiffer(g, root, s, ys, k, n);
      }
    }
    forall x | x in qm
      ensures exists k :: 0 <= k < |ys| && ys[k].index < |s.parents| && s.parents[ys[k].index].node == x
    {
      if x == item.node {
        assert s.parents[ys[n].index].node == x;
      }
    }
  }

  // ----- Termination -----

  ghost function Places(g: Network, root: int): set<int> {
    {root} + set n, k | n in g && 0 <= k < |g[n]| :: g[n][k].to
  }

  lemma SettledIsAPlace(g: Network, root: int, s: Search, ys: seq<Settled>, k: nat)
    requires Inv(g, root, s, ys) && k < |ys|
    ensures ys[k].index < |s.parents| && s.parents[ys[k].index].node in Places(g, root)
  {
    if k > 0 {
      assert Descends(g, s, ys, k, ys[k].index, ys[k].parent, ys[k].cost);
      var j :| 0 <= j < k && StepsFrom(g, s, ys, j, ys[k].index, ys[k].parent, ys[k].cost);
      var r :| r in Out(g, s.parents[ys[j].index].node) && r.to == s.parents[ys[k].index].node;
    }
  }

  lemma {:induction false} DistinctFit(xs: seq<int>, all: set<int>)
    requires forall k :: 0 <= k < |xs| ==> xs[k] in all
    requires forall j, k :: 0 <= j < k < |xs| ==> xs[j] != xs[k]
    ensures |xs| <= |all|
  {
    if xs != [] {
      var n := |xs| - 1;
      DistinctFit(xs[..n], all - {xs[n]});
    }
  }

  /** There are no more settled nodes than places, so the search ends. */
  lemma SettledFit(g: Network, root: int, s: Search, ys: seq<Settled>)
    requires Inv(g, root, s, ys)
    ensures |ys| <= |Places(g, root)|
  {
    forall k | 0 <= k < |ys|
      ensures ys[k].index < |s.parents| && s.parents[ys[k].index].node in Places(g, root)
    {
      SettledIsAPlace(g, root, s, ys, k);
    }
    var xs := seq(|ys|, k requires 0 <= k < |ys| => s.parents[ys[k].index].node);
    forall j, k | 0 <= j < k < |xs|
      ensures xs[j] != xs[k]
    {
      SettledNodesDiffer(g, root, s, ys, j, k);
    }
    DistinctFit(xs, Places(g, root));
  }

  /** One turn of the collection: keep the next item in reach, or stop. */
  method Gather(search: DijkstraReachable, reach: nat, sofar: map<int, int>)
    returns (more: bool, pm: map<int, int>, ghost n: nat)
    requires search.Valid() && Collected(search.State(), search.settled, |search.settled|, sofar)
    requires InReach(search.settled, |search.settled|, reach)
    modifies search
    ensures search.Valid() && n == |old(search.settled)|
    ensures more ==>
      && Collected(search.State(), search.settled, |search.settled|, pm)
      && InReach(search.settled, |search.settled|, reach)
      && n < |search.settled| <= |Places(search.successors, search.root)|
    ensures !more ==>
      && Collected(search.State(), search.settled, n, pm) && InReach(search.settled, n, reach)
      && Stopped(search.State(), search.settled, n, reach)
  {
    ghost var before, order := search.State(), search.settled;
    var item; ghost var z;
    item, z := search.Next();
    ghost var s, ys := search.State(), search.settled;
    CollectedStays(before, s, order, ys, |order|, sofar);
    pm, n := sofar, |order|;
    if item.None? || item.value.cost.distance >= reach {
      StopHere(s, order, ys, z, item, reach);
      return false, pm, n;
    }
    KeepItem(search.successors, search.root, s, order, ys, z, pm, item.value, reach);
    pm := pm[item.value.node := match item.value.parent case None => 0 case Some(p) => p];
    more := true;
  }

  lemma StopHere(s: Search, order: seq<Settled>, ys: seq<Settled>, z: Settled, item: Option<Item>, reach: nat)
    requires InReach(order, |order|, reach)
    requires item.None? ==> ys == order && s.heap == multiset{}
    requires item.Some? ==> ys == order + [z] && Describes(s, z, item.value) && item.value.cost.distance >= reach
    ensures InReach(ys, |order|, reach) && Stopped(s, ys, |order|, reach)
  {
  }

  lemma KeepItem(g: Network, root: int, s: Search, order: seq<Settled>, ys: seq<Settled>, z: Settled,
                 pm: map<int, int>, item: Item, reach: nat)
    requires Inv(g, root, s, ys) && ys == order + [z] && Describes(s, z, item) && item.cost.distance < reach
    requires Collected(s, ys, |order|, pm) && InReach(order, |order|, reach)
    ensures Collected(s, ys, |ys|, pm[item.node := match item.parent case None => 0 case Some(p) => p])
    ensures InReach(ys, |ys|, reach) && |ys| <= |Places(g, root)|
  {
    CollectedGrows(g, root, s, ys, pm, item);
    SettledFit(g, root, s, ys);
  }

  /**
   * Run the search while items are in reach, collecting each node's parent. The ghost results say
   * which search it was: its final state, its settled order, and how much of that order was kept.
   */
  method Calculate(g: Network, root: int, reach: nat, ghost w: nat)
    returns (pm: map<int, int>, ghost s: Search, ghost ys: seq<Settled>, ghost n: nat, ghost done: nat)
    ensures Good(g, root, w, s, ys, done) && Complete(g, s, ys, done)
    ensures Collected(s, ys, n, pm) && InReach(ys, n, reach) && Stopped(s, ys, n, reach)
  {
    var search := new DijkstraReachable(g, root, w);
    pm, n := map[], 0;
    var more := true;
    while more
      invariant search.Valid() && search.successors == g && search.root == root && search.weight == w && fresh(search)
      invariant more ==> Collected(search.State(), search.settled, |search.settled|, pm)
      invariant more ==> InReach(search.settled, |search.settled|, reach)
      invariant !more ==> Collected(search.State(), search.settled, n, pm)
      invariant !more ==> InReach(search.settled, n, reach) && Stopped(search.State(), search.settled, n, reach)
      decreases more, |Places(g, root)| - |search.settled|
    {
      more, pm, n := Gather(search, reach, pm);
    }
    s, ys, done := search.State(), search.settled, search.done;
  }
}
