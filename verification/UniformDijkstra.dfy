/** When every road has one weight: settling in order of distance, at the shortest distance. */
module UniformDijkstra {
  import opened RoutingCost
  import opened Dijkstra

  /** Every accessible road has weight `w`. */
  ghost predicate OneWeight(g: Network, w: nat) {
    forall n, k :: n in g && 0 <= k < |g[n]| ==> g[n][k].weight == w
  }

  ghost predicate UniformCosts(s: Search, w: nat) {
    && (forall i :: 0 <= i < |s.parents| ==> Uniform(s.parents[i].cost, w))
    && (forall h :: h in s.heap ==> Uniform(h.cost, w))
  }

  /** Settled costs never decrease, and nothing waiting undercuts them. */
  ghost predicate InOrder(s: Search, ys: seq<Settled>) {
    && (forall j, k {:trigger NoDearer(ys[j].cost, ys[k].cost)} :: 0 <= j < k < |ys| ==> NoDearer(ys[j].cost, ys[k].cost))
    && (forall k, h {:trigger NoDearer(ys[k].cost, h.cost)} :: 0 <= k < |ys| && h in s.heap ==> NoDearer(ys[k].cost, h.cost))
  }

  ghost predicate NoDearer(a: Cost, b: Cost) { a.Repr() <= b.Repr() }

  /** Settled entries keep the cost they were settled at. */
  ghost predicate Frozen(s: Search, ys: seq<Settled>) {
    forall k :: 0 <= k < |ys| ==> ys[k].index < |s.parents| && s.parents[ys[k].index].cost == ys[k].cost
  }

  ghost predicate UniformInv(w: nat, s: Search, ys: seq<Settled>) {
    UniformCosts(s, w) && InOrder(s, ys) && Frozen(s, ys)
  }

  /** With one weight, an offer never undercuts the settled cost it comes from. */
  lemma OfferIsNoCheaper(cost: Cost, road: Road, w: nat)
    requires Uniform(cost, w) && road.weight == w
    ensures Uniform(cost.Plus(road.Charge()), w) && cost.Repr() <= cost.Plus(road.Charge()).Repr()
    ensures cost.Plus(road.Charge()).Repr() == Key(w, cost.distance + road.distance)
  {
    UniformPlus(cost, road, w);
    UniformRepr(cost, w);
    UniformRepr(cost.Plus(road.Charge()), w);
    KeyIsMonotone(w, cost.distance, cost.distance + road.distance);
  }

  lemma RelaxKeepsCosts(s: Search, w: nat, from: nat, cost: Cost, road: Road)
    requires UniformCosts(s, w) && Uniform(cost, w) && road.weight == w
    ensures UniformCosts(Relax(s, from, cost, road), w)
  {
    OfferIsNoCheaper(cost, road, w);
  }

  /** No offer reopens a settled entry. */
  lemma RelaxKeepsFrozen(s: Search, w: nat, ys: seq<Settled>, road: Road)
    requires InOrder(s, ys) && Frozen(s, ys) && ys != [] && Uniform(ys[|ys| - 1].cost, w) && road.weight == w
    ensures Frozen(Relax(s, ys[|ys| - 1].index, ys[|ys| - 1].cost, road), ys)
    ensures InOrder(Relax(s, ys[|ys| - 1].index, ys[|ys| - 1].cost, road), ys)
  {
    var z := ys[|ys| - 1];
    var offer := z.cost.Plus(road.Charge());
    var u := Relax(s, z.index, z.cost, road);
    OfferIsNoCheaper(z.cost, road, w);
    forall k | 0 <= k < |ys|
      ensures NoDearer(ys[k].cost, offer) && ys[k].index < |u.parents| && u.parents[ys[k].index].cost == ys[k].cost
    {
      assert k < |ys| - 1 ==> NoDearer(ys[k].cost, z.cost);
    }
    forall k, h | 0 <= k < |ys| && h in u.heap
      ensures NoDearer(ys[k].cost, h.cost)
    {
      if h in s.heap {
        assert NoDearer(ys[k].cost, h.cost);
      }
    }
  }

  lemma RelaxKeepsUniform(w: nat, s: Search, ys: seq<Settled>, road: Road)
    requires UniformInv(w, s, ys) && ys != [] && road.weight == w
    ensures UniformInv(w, Relax(s, ys[|ys| - 1].index, ys[|ys| - 1].cost, road), ys)
  {
    var z := ys[|ys| - 1];
    assert Uniform(s.parents[z.index].cost, w);
    RelaxKeepsCosts(s, w, z.index, z.cost, road);
    RelaxKeepsFrozen(s, w, ys, road);
  }

  /** Settling the cheapest entry keeps the order. */
  lemma SettleKeepsUniform(w: nat, s: Search, ys: seq<Settled>, h: Holder)
    requires UniformInv(w, s, ys) && h in s.heap && h.index < |s.parents| && h.cost == s.parents[h.index].cost
    requires forall x :: x in s.heap ==> h.cost.Repr() <= x.cost.Repr()
    ensures UniformInv(w, Settle(s, h), ys + [Record(s, h)])
  {
    var u, zs := Settle(s, h), ys + [Record(s, h)];
    assert zs[|ys|].cost == h.cost;
    forall j, k | 0 <= j < k < |zs|
      ensures NoDearer(zs[j].cost, zs[k].cost)
    {
      assert zs[j] == ys[j] && NoDearer(ys[j].cost, if k < |ys| then ys[k].cost else h.cost);
    }
    forall k, x | 0 <= k < |zs| && x in u.heap
      ensures NoDearer(zs[k].cost, x.cost)
    {
      if k < |ys| {
        assert zs[k] == ys[k] && NoDearer(ys[k].cost, x.cost);
      }
    }
  }

  lemma SkipKeepsUniform(w: nat, s: Search, ys: seq<Settled>, h: Holder)
    requires UniformInv(w, s, ys)
    ensures UniformInv(w, s.(heap := s.heap - multiset{h}), ys)
  {
    var u := s.(heap := s.heap - multiset{h});
    forall k, x | 0 <= k < |ys| && x in u.heap
      ensures NoDearer(ys[k].cost, x.cost)
    {
      assert x in s.heap;
    }
  }
}
