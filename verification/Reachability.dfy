/** The search as an iterator, the predicate map collected from it, and the routes walked back out of it. */
module Reachability {
  import opened Numbers
  import opened RoutingCost
  import opened Dijkstra
  import opened LeastOffers
  import opened UniformDijkstra

  /** What the iterator yields. */
  datatype Item = Item(node: int, parent: Option<int>, cost: Cost)

  ghost function NodeAt(s: Search, ys: seq<Settled>, k: nat): int
    requires k < |ys| && ys[k].index < |s.parents|
  {
    s.parents[ys[k].index].node
  }

  lemma {:induction false} CheapestExists(heap: multiset<Holder>)
    requires heap != multiset{}
    ensures exists h :: IsCheapest(heap, h)
    decreases |heap|
  {
    var h :| h in heap;
    var rest := heap - multiset{h};
    if rest == multiset{} {
      assert heap == multiset{h};
      assert IsCheapest(heap, h);
    } else {
      CheapestExists(rest);
      var m :| IsCheapest(rest, m);
      var best := if h.cost.Repr() <= m.cost.Repr() then h else m;
      forall x | x in heap
        ensures best.cost.Repr() <= x.cost.Repr()
      {
        if x != h {
          assert rest[x] == heap[x];
        }
      }
      assert IsCheapest(heap, best);
    }
  }

  /** An entry the heap may pop: none is cheaper; which of several equals it is, is the heap's choice. */
  predicate IsCheapest(heap: multiset<Holder>, h: Holder) {
    h in heap && forall x :: x in heap ==> h.cost.Repr() <= x.cost.Repr()
  }

  /** Everything the search keeps, in any network and in one of a single weight. */
  ghost predicate Good(g: Network, root: int, w: nat, s: Search, ys: seq<Settled>, done: nat) {
    Inv(g, root, s, ys) && LeastInv(g, s, ys, done) && (OneWeight(g, w) ==> UniformInv(w, s, ys))
  }

  /** Every settled node has had all its roads offered. */
  ghost predicate Complete(g: Network, s: Search, ys: seq<Settled>, done: nat) {
    ys != [] ==> ys[|ys| - 1].index < |s.parents| && done >= |Out(g, NodeAt(s, ys, |ys| - 1))|
  }

  lemma GoodSkip(g: Network, root: int, w: nat, s: Search, ys: seq<Settled>, done: nat, h: Holder)
    requires Good(g, root, w, s, ys, done) && h in s.heap && h.index in s.seen
    ensures Good(g, root, w, s.(heap := s.heap - multiset{h}), ys, done)
  {
    SkipKeepsInv(g, root, s, ys, h);
    SkipKeepsLeast(g, s, ys, done, h);
    if OneWeight(g, w) {
      SkipKeepsUniform(w, s, ys, h);
    }
  }

  lemma GoodSettle(g: Network, root: int, w: nat, s: Search, ys: seq<Settled>, done: nat, h: Holder)
    requires Good(g, root, w, s, ys, done) && Complete(g, s, ys, done) && IsCheapest(s.heap, h) && h.index !in s.seen
    ensures h.index < |s.parents| && h.cost == s.parents[h.index].cost
    ensures Good(g, root, w, Settle(s, h), ys + [Record(s, h)], 0)
  {
    PoppedIsCurrent(s, h);
    SettleKeepsInv(g, root, s, ys, h);
    SettleKeepsLeast(g, root, s, ys, h, done);
    if OneWeight(g, w) {
      SettleKeepsUniform(w, s, ys, h);
    }
  }

  lemma GoodRelax(g: Network, root: int, w: nat, s: Search, ys: seq<Settled>, done: nat, z: Settled, road: Road)
    requires Good(g, root, w, s, ys, done) && ys != [] && z == ys[|ys| - 1] && z.index < |s.parents|
    requires done < |Out(g, s.parents[z.index].node)| && road == Out(g, s.parents[z.index].node)[done]
    ensures Good(g, root, w, Relax(s, z.index, z.cost, road), ys, done + 1)
    ensures KeepsNodes(s, Relax(s, z.index, z.cost, road))
  {
    RelaxKeepsNodes(s, z.index, z.cost, road);
    RelaxKeepsInv(g, root, s, ys, road);
    RelaxKeepsLeast(g, s, ys, done);
    if OneWeight(g, w) {
      assert road.weight == w;
      RelaxKeepsUniform(w, s, ys, road);
    }
  }

  /** A parent index names an entry of the map. */
  lemma ParentIsPlaced(g: Network, root: int, s: Search, ys: seq<Settled>, h: Holder)
    requires Inv(g, root, s, ys) && h in s.heap && h.index !in s.seen
    ensures h.index < |s.parents| && (s.parents[h.index].parent.Some? ==> s.parents[h.index].parent.value < |s.parents|)
  {
    RootComesFirst(g, root, s, ys, h);
    if h.index > 0 {
      assert Descends(g, s, ys, |ys|, h.index, s.parents[h.index].parent, s.parents[h.index].cost);
    }
  }

  /** The yielded item names the settled node, its parent and the cost it was settled at. */
  ghost predicate Describes(s: Search, z: Settled, item: Item) {
    && z.index < |s.parents| && (z.parent.Some? ==> z.parent.value < |s.parents|)
    && item == Item(s.parents[z.index].node,
                    match z.parent case None => None case Some(p) => Some(s.parents[p].node), z.cost)
  }

  lemma DescriptionStays(s: Search, u: Search, z: Settled, item: Item)
    requires KeepsNodes(s, u) && Describes(s, z, item)
    ensures Describes(u, z, item)
  {
  }

  lemma KeepsNodesTrans(s: Search, t: Search, u: Search)
    requires KeepsNodes(s, t) && KeepsNodes(t, u)
    ensures KeepsNodes(s, u)
  {
  }

  /** The search iterator; the ghost order remembers what it has settled, and at which cost. */
  class DijkstraReachable {
    var toSee: multiset<Holder>
    var seen: set<nat>
    var parents: seq<Found>
    const successors: Network
    ghost const root: int
    ghost const weight: nat
    ghost var settled: seq<Settled>
    ghost var done: nat

    ghost function State(): Search
      reads this
    {
      Search(parents, toSee, seen)
    }

    ghost predicate Valid()
      reads this
    {
      Good(successors, root, weight, State(), settled, done) && Complete(successors, State(), settled, done)
    }

    constructor (g: Network, start: int, ghost w: nat)
      ensures Valid() && successors == g && root == start && weight == w && State() == Begin(start) && settled == []
    {
      toSee, seen, parents := multiset{Holder(ZERO, 0)}, {}, [Found(start, None, ZERO)];
      successors, root, weight := g, start, w;
      settled, done := [], 0;
    }

    /** Pop until an unsettled node comes up, settle it, and yield it; nothing is left when it yields none. */
    method Next() returns (item: Option<Item>, ghost z: Settled)
      requires Valid()
      modifies this
      ensures Valid() && KeepsNodes(old(State()), State())
      ensures item.None? ==> settled == old(settled) && toSee == multiset{}
      ensures item.Some? ==> settled == old(settled) + [z] && Describes(State(), z, item.value)
    {
      var h := SkipStale();
      if h.None? {
        item, z := None, Settled(0, None, ZERO);
      } else {
        item, z := Expand(h.value);
      }
    }

    /** Drop entries of settled nodes; stop at a cheapest entry of an unsettled one. */
    method SkipStale() returns (h: Option<Holder>)
      requires Valid()
      modifies this`toSee
      ensures Valid()
      ensures h.None? ==> toSee == multiset{}
      ensures h.Some? ==> IsCheapest(toSee, h.value) && h.value.index !in seen
    {
      while toSee != multiset{}
        invariant Valid()
        decreases |toSee|
      {
        CheapestExists(toSee);
        var top :| IsCheapest(toSee, top);
        if top.index !in seen {
          return Some(top);
        }
        Drop(top);
      }
      h := None;
    }

    /** Drop one stale entry. */
    method Drop(top: Holder)
      requires Valid() && top in toSee && top.index in seen
      modifies this`toSee
      ensures Valid() && toSee == old(toSee) - multiset{top}
    {
      ghost var s := State();
      GoodSkip(successors, root, weight, s, settled, done, top);
      toSee := toSee - multiset{top};
      assert State() == s.(heap := s.heap - multiset{top});
    }

    /** Settle the popped entry, then offer every road out of it. */
    method Expand(h: Holder) returns (item: Option<Item>, ghost z: Settled)
      requires Valid() && IsCheapest(toSee, h) && h.index !in seen
      modifies this
      ensures Valid() && KeepsNodes(old(State()), State())
      ensures item.Some? && settled == old(settled) + [z] && Describes(State(), z, item.value)
    {
      ParentIsPlaced(successors, root, State(), settled, h);
      GoodSettle(successors, root, weight, State(), settled, done, h);
      var entry := parents[h.index];
      item := Some(Item(entry.node, match entry.parent case None => None case Some(p) => Some(parents[p].node), entry.cost));
      z := Record(State(), h);
      ghost var before := State();
      toSee, seen := toSee - multiset{h}, seen + {h.index};
      settled, done := settled + [z], 0;
      OfferAll(h, z);
      DescriptionStays(before, State(), z, item.value);
    }

    /** The relaxation loop. */
    method OfferAll(h: Holder, ghost z: Settled)
      requires Good(successors, root, weight, State(), settled, done) && settled != [] && done == 0
      requires settled[|settled| - 1] == z == Settled(h.index, z.parent, h.cost) && h.index < |parents|
      modifies this
      ensures Valid() && settled == old(settled) && KeepsNodes(old(State()), State())
    {
      ghost var before := State();
      var node := parents[h.index].node;
      var roads := Out(successors, node);
      for r := 0 to |roads|
        invariant Good(successors, root, weight, State(), settled, done) && settled == old(settled) && done == r
        invariant KeepsNodes(before, State()) && h.index < |parents| && parents[h.index].node == node
      {
        ghost var s := State();
        OfferNext(h, z, roads[r]);
        KeepsNodesTrans(before, s, State());
      }
    }

    /** One turn of the relaxation loop. */
    method OfferNext(h: Holder, ghost z: Settled, road: Road)
      requires Good(successors, root, weight, State(), settled, done) && settled != [] && h.index < |parents|
      requires settled[|settled| - 1] == z == Settled(h.index, z.parent, h.cost)
      requires done < |Out(successors, parents[h.index].node)| && road == Out(successors, parents[h.index].node)[done]
      modifies this
      ensures Good(successors, root, weight, State(), settled, done) && KeepsNodes(old(State()), State())
      ensures settled == old(settled) && done == old(done) + 1
      ensures h.index < |parents| && parents[h.index].node == old(parents)[h.index].node
    {
      ghost var s := State();
      GoodRelax(successors, root, weight, s, settled, done, z, road);
      Offer(h.index, h.cost, road);
      assert State() == Relax(s, z.index, z.cost, road);
      assert s.parents[h.index].node == State().parents[h.index].node;
      done := done + 1;
    }

    /** Offer one road: a new entry, a strictly cheaper overwrite, or nothing. */
    method Offer(from: nat, cost: Cost, road: Road)
      modifies this`toSee, this`parents
      ensures State() == Relax(old(State()), from, cost, road)
    {
      var offer := cost.Plus(road.Charge());
      match Find(parents, road.to) {
        case None =>
          toSee := toSee + multiset{Holder(offer, |parents|)};
          parents := parents + [Found(road.to, Some(from), offer)];
        case Some(i) =>
          if parents[i].cost.Repr() > offer.Repr() {
            toSee := toSee + multiset{Holder(offer, i)};
            parents := parents[i := Found(road.to, Some(from), offer)];
          }
      }
    }
  }
}
