/** What every offer leaves, whatever the road weights: no entry, and no settled node, that pays more than it was offered. */
module LeastOffers {
  import opened Numbers
  import opened RoutingCost
  import opened Dijkstra

  /** The node is in the parent map at no more than this key. */
  ghost predicate Within(s: Search, node: int, key: u32) {
    exists i :: 0 <= i < |s.parents| && s.parents[i].node == node && s.parents[i].cost.Repr() <= key
  }

  /** The first `m` roads out of the `k`-th settled node have been offered. */
  ghost predicate Offered(g: Network, s: Search, y: Settled, m: nat)
    requires y.index < |s.parents|
  {
    var roads := Out(g, s.parents[y.index].node);
    forall r {:trigger roads[r]} :: 0 <= r < m && r < |roads| ==> Within(s, roads[r].to, y.cost.Plus(roads[r].Charge()).Repr())
  }

  /** The `k`-th settled node is fully expanded, or, if it is the last, up to `done` roads. */
  ghost predicate FullOrPartial(g: Network, s: Search, ys: seq<Settled>, k: nat, done: nat)
    requires k < |ys|
  {
    && ys[k].index < |s.parents|
    && Offered(g, s, ys[k], if k < |ys| - 1 then |Out(g, s.parents[ys[k].index].node)| else done)
  }

  /** All settled nodes are fully expanded but the last, which is expanded up to `done` roads. */
  ghost predicate Expanded(g: Network, s: Search, ys: seq<Settled>, done: nat) {
    forall k {:trigger FullOrPartial(g, s, ys, k, done)} :: 0 <= k < |ys| ==> FullOrPartial(g, s, ys, k, done)
  }

  lemma WithinStays(s: Search, from: nat, cost: Cost, road: Road, node: int, key: u32)
    requires Within(s, node, key)
    ensures Within(Relax(s, from, cost, road), node, key)
  {
    var i :| 0 <= i < |s.parents| && s.parents[i].node == node && s.parents[i].cost.Repr() <= key;
    var u := Relax(s, from, cost, road);
    assert u.parents[i].node == node && u.parents[i].cost.Repr() <= key;
  }

  lemma OfferIsWithin(s: Search, from: nat, cost: Cost, road: Road)
    ensures Within(Relax(s, from, cost, road), road.to, cost.Plus(road.Charge()).Repr())
  {
    var u := Relax(s, from, cost, road);
    var i := match Find(s.parents, road.to) case Some(i) => i case None => |s.parents|;
    assert u.parents[i].node == road.to && u.parents[i].cost.Repr() <= cost.Plus(road.Charge()).Repr();
  }

  lemma RelaxKeepsExpanded(g: Network, s: Search, ys: seq<Settled>, done: nat)
    requires Expanded(g, s, ys, done) && ys != []
    requires ys[|ys| - 1].index < |s.parents| && done < |Out(g, s.parents[ys[|ys| - 1].index].node)|
    ensures var z := ys[|ys| - 1];
      Expanded(g, Relax(s, z.index, z.cost, Out(g, s.parents[z.index].node)[done]), ys, done + 1)
  {
    var z := ys[|ys| - 1];
    var road := Out(g, s.parents[z.index].node)[done];
    var next := done + 1;
    forall k | 0 <= k < |ys|
      ensures FullOrPartial(g, Relax(s, z.index, z.cost, road), ys, k, next)
    {
      assert FullOrPartial(g, s, ys, k, done);
      if k < |ys| - 1 {
        RelaxKeepsFull(g, s, ys[k], z, road);
      } else {
        RelaxAddsOne(g, s, z, done, road);
      }
    }
  }

  /** A fully expanded node stays so. */
  lemma RelaxKeepsFull(g: Network, s: Search, y: Settled, z: Settled, road: Road)
    requires y.index < |s.parents| && Offered(g, s, y, |Out(g, s.parents[y.index].node)|)
    ensures var u := Relax(s, z.index, z.cost, road);
      y.index < |u.parents| && Offered(g, u, y, |Out(g, u.parents[y.index].node)|)
  {
    OfferedStays(g, s, y, |Out(g, s.parents[y.index].node)|, z, road);
  }

  /** The node being expanded has one more of its roads offered. */
  lemma RelaxAddsOne(g: Network, s: Search, z: Settled, done: nat, road: Road)
    requires z.index < |s.parents| && Offered(g, s, z, done)
    requires done < |Out(g, s.parents[z.index].node)| && road == Out(g, s.parents[z.index].node)[done]
    ensures var u := Relax(s, z.index, z.cost, road);
      z.index < |u.parents| && Offered(g, u, z, done + 1)
  {
    OfferedStays(g, s, z, done, z, road);
    OfferIsWithin(s, z.index, z.cost, road);
  }

  lemma OfferedStays(g: Network, s: Search, y: Settled, m: nat, z: Settled, road: Road)
    requires y.index < |s.parents| && Offered(g, s, y, m)
    ensures KeepsNodes(s, Relax(s, z.index, z.cost, road)) && Offered(g, Relax(s, z.index, z.cost, road), y, m)
  {
    var u, roads := Relax(s, z.index, z.cost, road), Out(g, s.parents[y.index].node);
    RelaxKeepsNodes(s, z.index, z.cost, road);
    forall r | 0 <= r < m && r < |roads|
      ensures Within(u, roads[r].to, y.cost.Plus(roads[r].Charge()).Repr())
    {
      WithinStays(s, z.index, z.cost, road, roads[r].to, y.cost.Plus(roads[r].Charge()).Repr());
    }
  }

  lemma FullyOffered(g: Network, s: Search, u: Search, y: Settled, m: nat)
    requires y.index < |s.parents| && u.parents == s.parents && Offered(g, s, y, m)
    requires m >= |Out(g, s.parents[y.index].node)|
    ensures Offered(g, u, y, |Out(g, u.parents[y.index].node)|)
  {
    var roads := Out(g, s.parents[y.index].node);
    forall r | 0 <= r < |roads|
      ensures Within(u, roads[r].to, y.cost.Plus(roads[r].Charge()).Repr())
    {
      assert Within(s, roads[r].to, y.cost.Plus(roads[r].Charge()).Repr());
    }
  }

  lemma OfferedSame(g: Network, s: Search, u: Search, y: Settled, m: nat)
    requires y.index < |s.parents| && u.parents == s.parents && Offered(g, s, y, m)
    ensures Offered(g, u, y, m)
  {
    var roads := Out(g, s.parents[y.index].node);
    forall r | 0 <= r < m && r < |roads|
      ensures Within(u, roads[r].to, y.cost.Plus(roads[r].Charge()).Repr())
    {
      assert Within(s, roads[r].to, y.cost.Plus(roads[r].Charge()).Repr());
    }
  }
  // ----- Settled at the least offer -----

  /** The `k`-th settled node was settled at no more than the `r`-th road out of the `j`-th offers. */
  ghost predicate PaysNoMore(g: Network, s: Search, ys: seq<Settled>, j: nat, k: nat, r: nat)
    requires j < |ys| && k < |ys|
  {
    && ys[j].index < |s.parents| && ys[k].index < |s.parents|
    && var roads := Out(g, s.parents[ys[j].index].node);
      r < |roads| && roads[r].to == s.parents[ys[k].index].node ==>
        ys[k].cost.Repr() <= ys[j].cost.Plus(roads[r].Charge()).Repr()
  }

  /** Every node was settled at the least of what those settled before it offered. */
  ghost predicate SettledLeast(g: Network, s: Search, ys: seq<Settled>) {
    forall j: nat, k: nat, r: nat {:trigger PaysNoMore(g, s, ys, j, k, r)} :: j < k < |ys| ==> PaysNoMore(g, s, ys, j, k, r)
  }

  ghost predicate LeastInv(g: Network, s: Search, ys: seq<Settled>, done: nat) {
    Expanded(g, s, ys, done) && SettledLeast(g, s, ys)
  }

  lemma RelaxKeepsLeast(g: Network, s: Search, ys: seq<Settled>, done: nat)
    requires LeastInv(g, s, ys, done) && ys != [] && ys[|ys| - 1].index < |s.parents|
    requires done < |Out(g, s.parents[ys[|ys| - 1].index].node)|
    ensures var z := ys[|ys| - 1];
      LeastInv(g, Relax(s, z.index, z.cost, Out(g, s.parents[z.index].node)[done]), ys, done + 1)
  {
    var z := ys[|ys| - 1];
    var road := Out(g, s.parents[z.index].node)[done];
    RelaxKeepsExpanded(g, s, ys, done);
    RelaxKeepsNodes(s, z.index, z.cost, road);
    var u := Relax(s, z.index, z.cost, road);
    forall j: nat, k: nat, r: nat | j < k < |ys|
      ensures PaysNoMore(g, u, ys, j, k, r)
    {
      assert PaysNoMore(g, s, ys, j, k, r);
    }
  }

  lemma SkipKeepsLeast(g: Network, s: Search, ys: seq<Settled>, done: nat, h: Holder)
    requires LeastInv(g, s, ys, done)
    ensures LeastInv(g, s.(heap := s.heap - multiset{h}), ys, done)
  {
    var u := s.(heap := s.heap - multiset{h});
    forall k | 0 <= k < |ys|
      ensures FullOrPartial(g, u, ys, k, done)
    {
      assert FullOrPartial(g, s, ys, k, done);
      OfferedSame(g, s, u, ys[k], if k < |ys| - 1 then |Out(g, s.parents[ys[k].index].node)| else done);
    }
    forall j: nat, k: nat, r: nat | j < k < |ys|
      ensures PaysNoMore(g, u, ys, j, k, r)
    {
      assert PaysNoMore(g, s, ys, j, k, r);
    }
  }

  /** Settling the current entry of a node, once all that was settled before is fully expanded. */
  lemma SettleKeepsLeast(g: Network, root: int, s: Search, ys: seq<Settled>, h: Holder, done: nat)
    requires LeastInv(g, s, ys, done) && Indexed(s, root) && h.index < |s.parents|
    requires ys != [] ==> ys[|ys| - 1].index < |s.parents| && done >= |Out(g, s.parents[ys[|ys| - 1].index].node)|
    ensures LeastInv(g, Settle(s, h), ys + [Record(s, h)], 0)
  {
    var u, zs := Settle(s, h), ys + [Record(s, h)];
    forall k | 0 <= k < |zs|
      ensures FullOrPartial(g, u, zs, k, 0)
    {
      if k < |ys| {
        assert zs[k] == ys[k] && FullOrPartial(g, s, ys, k, done);
        FullyOffered(g, s, u, ys[k], if k < |ys| - 1 then |Out(g, s.parents[ys[k].index].node)| else done);
      }
    }
    forall j: nat, k: nat, r: nat | j < k < |zs|
      ensures PaysNoMore(g, u, zs, j, k, r)
    {
      assert zs[j] == ys[j];
      if k < |ys| {
        assert zs[k] == ys[k] && PaysNoMore(g, s, ys, j, k, r);
      } else {
        assert FullOrPartial(g, s, ys, j, done);
        OfferReaches(g, root, s, ys[j], if j < |ys| - 1 then |Out(g, s.parents[ys[j].index].node)| else done, r, h.index);
      }
    }
  }

  /** The entry of a node pays no more than any road already offered to it. */
  lemma OfferReaches(g: Network, root: int, s: Search, y: Settled, m: nat, r: nat, i: nat)
    requires Indexed(s, root) && y.index < |s.parents| && Offered(g, s, y, m) && i < |s.parents|
    requires m >= |Out(g, s.parents[y.index].node)|
    ensures var roads := Out(g, s.parents[y.index].node);
      r < |roads| && roads[r].to == s.parents[i].node ==> s.parents[i].cost.Repr() <= y.cost.Plus(roads[r].Charge()).Repr()
  {
    var roads := Out(g, s.parents[y.index].node);
    if r < |roads| && roads[r].to == s.parents[i].node {
      assert Within(s, roads[r].to, y.cost.Plus(roads[r].Charge()).Repr());
      var k :| 0 <= k < |s.parents| && s.parents[k].node == roads[r].to && s.parents[k].cost.Repr() <= y.cost.Plus(roads[r].Charge()).Repr();
      NodesIdentify(s, root, k, i);
    }
  }

  lemma NodesIdentify(s: Search, root: int, k: nat, i: nat)
    requires Indexed(s, root) && k < |s.parents| && i < |s.parents|
    ensures s.parents[k].node == s.parents[i].node ==> k == i
  {
    if k < i {
      assert Differ(s.parents, k, i);
    } else if i < k {
      assert Differ(s.parents, i, k);
    }
  }
}
