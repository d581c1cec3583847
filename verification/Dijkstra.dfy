/** The lazy-deletion Dijkstra: a heap that may hold stale entries, and the order it settles nodes in. */
module Dijkstra {
  import opened Numbers
  import opened RoutingCost

  /** A heap entry, compared by cost only. */
  datatype Holder = Holder(cost: Cost, index: nat)

  /** An entry of the insertion-ordered parent map. */
  datatype Found = Found(node: int, parent: Option<nat>, cost: Cost)

  /** A node as it was when it was settled. */
  datatype Settled = Settled(index: nat, parent: Option<nat>, cost: Cost)

  datatype Search = Search(parents: seq<Found>, heap: multiset<Holder>, seen: set<nat>)

  function Begin(root: int): Search {
    Search([Found(root, None, ZERO)], multiset{Holder(ZERO, 0)}, {})
  }

  /** The position of a node in the parent map. */
  function Find(parents: seq<Found>, node: int): (r: Option<nat>)
    ensures r.Some? ==> r.value < |parents| && parents[r.value].node == node
    ensures r.None? ==> forall i :: 0 <= i < |parents| ==> parents[i].node != node
  {
    if parents == [] then None
    else if parents[|parents| - 1].node == node then Some(|parents| - 1)
    else Find(parents[..|parents| - 1], node)
  }

  /** Offer one road out of settled entry `from`: a new node, a strictly cheaper way, or nothing. */
  function Relax(s: Search, from: nat, cost: Cost, road: Road): Search {
    var offer := cost.Plus(road.Charge());
    match Find(s.parents, road.to)
    case None =>
      s.(parents := s.parents + [Found(road.to, Some(from), offer)],
         heap := s.heap + multiset{Holder(offer, |s.parents|)})
    case Some(i) =>
      if s.parents[i].cost.Repr() > offer.Repr() then
        s.(parents := s.parents[i := Found(road.to, Some(from), offer)],
           heap := s.heap + multiset{Holder(offer, i)})
      else s
  }

  // ----- What every step keeps -----

  /** The parent map keeps its order: nodes are distinct and never move. */
  ghost predicate Indexed(s: Search, root: int) {
    && |s.parents| > 0 && s.parents[0] == Found(root, None, ZERO)
    && forall i, j {:trigger Differ(s.parents, i, j)} :: 0 <= i < j < |s.parents| ==> Differ(s.parents, i, j)
  }

  ghost predicate Differ(parents: seq<Found>, i: nat, j: nat)
    requires i < j < |parents|
  {
    parents[i].node != parents[j].node
  }

  /** A heap entry is the current cost of its node, or strictly dearer. */
  ghost predicate CurrentOrDearer(s: Search, h: Holder) {
    && h.index < |s.parents|
    && (h.cost == s.parents[h.index].cost || h.cost.Repr() > s.parents[h.index].cost.Repr())
  }

  /** No heap entry undercuts its node, and every unsettled node has its current entry. */
  ghost predicate HeapCurrent(s: Search) {
    && (forall h {:trigger CurrentOrDearer(s, h)} :: h in s.heap ==> CurrentOrDearer(s, h))
    && (forall i :: 0 <= i < |s.parents| && i !in s.seen ==> Holder(s.parents[i].cost, i) in s.heap)
  }

  /** The settled order lists exactly the seen entries, each once, the root first. */
  ghost predicate Ordered(s: Search, ys: seq<Settled>) {
    && (forall k :: 0 <= k < |ys| ==> ys[k].index < |s.parents| && ys[k].index in s.seen)
    && (forall i :: i in s.seen ==> exists k :: 0 <= k < |ys| && ys[k].index == i)
    && (forall j, k {:trigger Apart(ys, j, k)} :: 0 <= j < k < |ys| ==> Apart(ys, j, k))
    && (|ys| > 0 ==> ys[0] == Settled(0, None, ZERO))
  }

  ghost predicate Apart(ys: seq<Settled>, j: nat, k: nat)
    requires j < k < |ys|
  {
    ys[j].index != ys[k].index
  }

  /** `cost` at entry `i` is the settled cost of `ys[j]` plus a road from there to `i`. */
  ghost predicate StepsFrom(g: Network, s: Search, ys: seq<Settled>, j: nat, i: nat, parent: Option<nat>, cost: Cost)
    requires j < |ys| && i < |s.parents|
  {
    && ys[j].index < |s.parents| && parent == Some(ys[j].index)
    && exists r :: r in Out(g, s.parents[ys[j].index].node) && r.to == s.parents[i].node && cost == ys[j].cost.Plus(r.Charge())
  }

  /** Entry `i` with this parent and cost descends from one of the first `n` settled entries. */
  ghost predicate Descends(g: Network, s: Search, ys: seq<Settled>, n: nat, i: nat, parent: Option<nat>, cost: Cost)
    requires n <= |ys|
  {
    i < |s.parents| && exists j :: 0 <= j < n && StepsFrom(g, s, ys, j, i, parent, cost)
  }

  /** Settled nodes but the root descend from earlier ones, and every entry but the root's from some settled one. */
  ghost predicate Derived(g: Network, s: Search, ys: seq<Settled>) {
    && (forall k {:trigger Descends(g, s, ys, k, ys[k].index, ys[k].parent, ys[k].cost)} :: 0 < k < |ys| ==>
          Descends(g, s, ys, k, ys[k].index, ys[k].parent, ys[k].cost))
    && (forall i {:trigger Descends(g, s, ys, |ys|, i, s.parents[i].parent, s.parents[i].cost)} ::
          0 < i < |s.parents| ==>
          Descends(g, s, ys, |ys|, i, s.parents[i].parent, s.parents[i].cost))
  }

  ghost predicate Inv(g: Network, root: int, s: Search, ys: seq<Settled>) {
    && Indexed(s, root) && HeapCurrent(s) && Ordered(s, ys) && Derived(g, s, ys)
    && (ys == [] ==> s == Begin(root))
  }

  /** `s` has every node `t` has, at the same position. */
  ghost predicate KeepsNodes(t: Search, s: Search) {
    && |t.parents| <= |s.parents|
    && forall i :: 0 <= i < |t.parents| ==> s.parents[i].node == t.parents[i].node
  }

  /** Descent survives new nodes, overwritten entries and further settling. */
  lemma DescentStays(g: Network, t: Search, ys: seq<Settled>, s: Search, zs: seq<Settled>,
                     n: nat, i: nat, parent: Option<nat>, cost: Cost)
    requires KeepsNodes(t, s) && ys <= zs && n <= |ys| && Descends(g, t, ys, n, i, parent, cost)
    ensures Descends(g, s, zs, n, i, parent, cost)
  {
    var j :| 0 <= j < n && StepsFrom(g, t, ys, j, i, parent, cost);
    assert zs[j] == ys[j];
    assert StepsFrom(g, s, zs, j, i, parent, cost);
  }

  lemma DescentWidens(g: Network, s: Search, ys: seq<Settled>, m: nat, n: nat, i: nat, parent: Option<nat>, cost: Cost)
    requires m <= n <= |ys| && Descends(g, s, ys, m, i, parent, cost)
    ensures Descends(g, s, ys, n, i, parent, cost)
  {
  }

  lemma RelaxKeepsNodes(s: Search, from: nat, cost: Cost, road: Road)
    ensures KeepsNodes(s, Relax(s, from, cost, road)) && Relax(s, from, cost, road).seen == s.seen
  {
  }

  lemma RelaxKeepsHeap(s: Search, root: int, from: nat, cost: Cost, road: Road)
    requires Indexed(s, root) && HeapCurrent(s)
    ensures Indexed(Relax(s, from, cost, road), root) && HeapCurrent(Relax(s, from, cost, road))
  {
    var u := Relax(s, from, cost, road);
    forall i, j | 0 <= i < j < |u.parents|
      ensures Differ(u.parents, i, j)
    {
      if j < |s.parents| {
        assert Differ(s.parents, i, j);
      }
    }
    forall h | h in u.heap
      ensures CurrentOrDearer(u, h)
    {
      if h in s.heap {
        assert CurrentOrDearer(s, h);
      }
    }
  }

  /** Every entry after an offer is as it was, or is the offer. */
  lemma RelaxEntry(s: Search, from: nat, cost: Cost, road: Road, i: nat)
    requires i < |Relax(s, from, cost, road).parents|
    ensures var entry := Relax(s, from, cost, road).parents[i];
      (i < |s.parents| && entry == s.parents[i]) || entry == Found(road.to, Some(from), cost.Plus(road.Charge()))
  {
  }

  /** The offer descends from the settled entry it came out of. */
  lemma OfferDescends(g: Network, s: Search, u: Search, ys: seq<Settled>, k: nat, road: Road, i: nat)
    requires k < |ys| && ys[k].index < |s.parents| && KeepsNodes(s, u) && road in Out(g, s.parents[ys[k].index].node)
    requires i < |u.parents| && u.parents[i].node == road.to
    ensures Descends(g, u, ys, |ys|, i, Some(ys[k].index), ys[k].cost.Plus(road.Charge()))
  {
    assert StepsFrom(g, u, ys, k, i, Some(ys[k].index), ys[k].cost.Plus(road.Charge()));
  }

  /** Offering a road out of a settled entry keeps the descent of everything settled or waiting. */
  lemma RelaxKeepsDerived(g: Network, s: Search, ys: seq<Settled>, k: nat, road: Road)
    requires Derived(g, s, ys) && k < |ys| && ys[k].index < |s.parents| && road in Out(g, s.parents[ys[k].index].node)
    ensures Derived(g, Relax(s, ys[k].index, ys[k].cost, road), ys)
  {
    var from, cost := ys[k].index, ys[k].cost;
    var u := Relax(s, from, cost, road);
    RelaxKeepsNodes(s, from, cost, road);
    forall m | 0 < m < |ys|
      ensures Descends(g, u, ys, m, ys[m].index, ys[m].parent, ys[m].cost)
    {
      DescentStays(g, s, ys, u, ys, m, ys[m].index, ys[m].parent, ys[m].cost);
    }
    forall i | 0 < i < |u.parents|
      ensures Descends(g, u, ys, |ys|, i, u.parents[i].parent, u.parents[i].cost)
    {
      RelaxEntry(s, from, cost, road, i);
      if i < |s.parents| && u.parents[i] == s.parents[i] {
        DescentStays(g, s, ys, u, ys, |ys|, i, s.parents[i].parent, s.parents[i].cost);
      } else {
        OfferDescends(g, s, u, ys, k, road, i);
      }
    }
  }

  /** The heap's cheapest entry for an unsettled node carries exactly the cost recorded for it. */
  lemma PoppedIsCurrent(s: Search, h: Holder)
    requires HeapCurrent(s) && h in s.heap && (forall x :: x in s.heap ==> h.cost.Repr() <= x.cost.Repr())
    requires h.index !in s.seen
    ensures h.index < |s.parents| && h.cost == s.parents[h.index].cost
  {
    assert CurrentOrDearer(s, h);
    var current := Holder(s.parents[h.index].cost, h.index);
    assert current in s.heap && h.cost.Repr() <= current.cost.Repr();
  }

  /** Dropping a stale entry of a settled node loses nothing. */
  lemma SkipKeepsInv(g: Network, root: int, s: Search, ys: seq<Settled>, h: Holder)
    requires Inv(g, root, s, ys) && h in s.heap && h.index in s.seen
    ensures Inv(g, root, s.(heap := s.heap - multiset{h}), ys)
  {
    var u := s.(heap := s.heap - multiset{h});
    forall x | x in u.heap
      ensures CurrentOrDearer(u, x)
    {
      assert CurrentOrDearer(s, x);
    }
    DerivedStays(g, s, ys, u, ys);
  }

  lemma DerivedStays(g: Network, s: Search, ys: seq<Settled>, u: Search, zs: seq<Settled>)
    requires Derived(g, s, ys) && u.parents == s.parents && ys <= zs && s.seen <= u.seen
    ensures forall k :: 0 < k < |ys| ==> Descends(g, u, zs, k, zs[k].index, zs[k].parent, zs[k].cost)
    ensures forall i :: 0 < i < |s.parents| ==>
      Descends(g, u, zs, |ys|, i, u.parents[i].parent, u.parents[i].cost)
  {
    forall k | 0 < k < |ys|
      ensures Descends(g, u, zs, k, zs[k].index, zs[k].parent, zs[k].cost)
    {
      assert zs[k] == ys[k];
      DescentStays(g, s, ys, u, zs, k, ys[k].index, ys[k].parent, ys[k].cost);
    }
    forall i | 0 < i < |s.parents|
      ensures Descends(g, u, zs, |ys|, i, u.parents[i].parent, u.parents[i].cost)
    {
      DescentStays(g, s, ys, u, zs, |ys|, i, s.parents[i].parent, s.parents[i].cost);
    }
  }

  /** Settling the popped entry records it, with its parent and cost of that moment. */
  function Settle(s: Search, h: Holder): Search {
    s.(heap := s.heap - multiset{h}, seen := s.seen + {h.index})
  }

  ghost function Record(s: Search, h: Holder): Settled
    requires h.index < |s.parents|
  {
    Settled(h.index, s.parents[h.index].parent, s.parents[h.index].cost)
  }

  lemma SettleKeepsHeap(s: Search, h: Holder)
    requires HeapCurrent(s)
    ensures HeapCurrent(Settle(s, h))
  {
    var u := Settle(s, h);
    forall x | x in u.heap
      ensures CurrentOrDearer(u, x)
    {
      assert CurrentOrDearer(s, x);
    }
  }

  lemma SettleKeepsOrdered(s: Search, root: int, ys: seq<Settled>, h: Holder)
    requires Indexed(s, root) && Ordered(s, ys) && h.index !in s.seen && h.index < |s.parents|
    requires ys == [] ==> h.index == 0
    ensures Ordered(Settle(s, h), ys + [Record(s, h)])
  {
    var u, zs := Settle(s, h), ys + [Record(s, h)];
    assert zs[|ys|].index == h.index;
    forall j, k | 0 <= j < k < |zs|
      ensures Apart(zs, j, k)
    {
      if k < |ys| {
        assert Apart(ys, j, k);
      }
    }
    forall i | i in u.seen
      ensures exists k :: 0 <= k < |zs| && zs[k].index == i
    {
      if i != h.index {
        var k :| 0 <= k < |ys| && ys[k].index == i;
        assert zs[k].index == i;
      }
    }
  }

  lemma SettleKeepsDerived(g: Network, s: Search, ys: seq<Settled>, h: Holder)
    requires Derived(g, s, ys) && h.index < |s.parents| && h.index !in s.seen && (ys != [] ==> h.index != 0)
    ensures Derived(g, Settle(s, h), ys + [Record(s, h)])
  {
    var u, zs := Settle(s, h), ys + [Record(s, h)];
    DerivedStays(g, s, ys, u, zs);
    forall i | 0 < i < |u.parents|
      ensures Descends(g, u, zs, |zs|, i, u.parents[i].parent, u.parents[i].cost)
    {
      DescentWidens(g, u, zs, |ys|, |zs|, i, u.parents[i].parent, u.parents[i].cost);
    }
  }

  lemma SettleKeepsInv(g: Network, root: int, s: Search, ys: seq<Settled>, h: Holder)
    requires Inv(g, root, s, ys) && h in s.heap && h.index !in s.seen
    ensures h.index < |s.parents| && Inv(g, root, Settle(s, h), ys + [Record(s, h)])
  {
    RootComesFirst(g, root, s, ys, h);
    SettleKeepsHeap(s, h);
    SettleKeepsOrdered(s, root, ys, h);
    SettleKeepsDerived(g, s, ys, h);
    assert Indexed(Settle(s, h), root);
  }

  lemma RootComesFirst(g: Network, root: int, s: Search, ys: seq<Settled>, h: Holder)
    requires Inv(g, root, s, ys) && h in s.heap && h.index !in s.seen
    ensures h.index < |s.parents| && (ys == [] <==> h.index == 0)
  {
    assert CurrentOrDearer(s, h);
    if ys == [] {
      assert h == Holder(ZERO, 0);
    } else {
      assert ys[0].index in s.seen;
    }
  }

  /** Relaxing keeps the whole invariant. */
  lemma RelaxKeepsInv(g: Network, root: int, s: Search, ys: seq<Settled>, road: Road)
    requires Inv(g, root, s, ys) && ys != []
    requires road in Out(g, s.parents[ys[|ys| - 1].index].node)
    ensures Inv(g, root, Relax(s, ys[|ys| - 1].index, ys[|ys| - 1].cost, road), ys)
  {
    var z := ys[|ys| - 1];
    RelaxKeepsNodes(s, z.index, z.cost, road);
    RelaxKeepsHeap(s, root, z.index, z.cost, road);
    RelaxKeepsDerived(g, s, ys, |ys| - 1, road);
  }
}
