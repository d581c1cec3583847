/** Which sets of road weights the routing cost and the bounded search are right for. */
module WeightSets {
  import opened Numbers
  import opened RoutingCost
  import opened Dijkstra
  import opened UniformDijkstra
  import opened PredicateMap
  import opened Routes
  import opened PredicateCache
  import opened SearchPlan

  ghost predicate OneMember(ws: set<nat>) {
    forall a, b :: a in ws && b in ws ==> a == b
  }

  // ----- Adding a road -----

  ghost predicate Over(roads: seq<Road>, ws: set<nat>) {
    forall i :: 0 <= i < |roads| ==> roads[i].weight in ws
  }

  /** Over these weights, going one road further never makes a route compare cheaper. */
  ghost predicate NeverCheapens(ws: set<nat>) {
    forall roads: seq<Road>, road: Road :: Over(roads + [road], ws) ==> Total(roads).Repr() <= Total(roads + [road]).Repr()
  }

  lemma {:induction false} TotalIsUniform(roads: seq<Road>, w: nat)
    requires Over(roads, {w})
    ensures Uniform(Total(roads), w)
  {
    if roads != [] {
      TotalIsUniform(roads[..|roads| - 1], w);
      UniformPlus(Total(roads[..|roads| - 1]), roads[|roads| - 1], w);
    }
  }

  lemma SquareMonotone(a: nat, b: nat)
    requires a <= b
    ensures a * a <= b * b
  {
    ScaleMonotone(a, a, b);
    ScaleMonotone(b, a, b);
  }

  lemma SquareBelow(b: nat)
    requires b > 0
    ensures (b - 1) * (b - 1) == b * b - 2 * b + 1
  {
  }

  /** What a cost of this average weight compares by, when it fits. */
  lemma ReprIs(c: Cost, w: nat)
    requires c.Weight() == w && w * w * c.distance <= U32_MAX
    ensures c.Repr() == w * w * c.distance
  {
  }

  /** A lighter road of no length brings the average down, and with it the cost. */
  lemma LighterRoadCheapens(a: nat, b: nat)
    requires a < b && b * b <= U32_MAX
    ensures Cost(b, 1, 1).Plus(Cost(a, 1, 0)).Repr() < Cost(b, 1, 1).Repr()
  {
    var mean := (a + b) / 2;
    SquareMonotone(mean, b - 1);
    SquareBelow(b);
    ReprIs(Cost(b, 1, 1), b);
    ReprIs(Cost(b + a, 2, 1), mean);
  }

  /** The cost is monotone over a set of weights, as far as their squares fit 32 bits, exactly when it has one. */
  lemma NeverCheapensIffOneWeight(ws: set<nat>)
    requires forall x :: x in ws ==> x * x <= U32_MAX
    ensures NeverCheapens(ws) <==> OneMember(ws)
  {
    if OneMember(ws) {
      forall roads: seq<Road>, road: Road | Over(roads + [road], ws)
        ensures Total(roads).Repr() <= Total(roads + [road]).Repr()
      {
        OneWeightNeverCheapens(ws, roads, road);
      }
    } else {
      var a, b :| a in ws && b in ws && a != b;
      TwoWeightsCheapen(ws, if a < b then a else b, if a < b then b else a);
    }
  }

  lemma OneWeightNeverCheapens(ws: set<nat>, roads: seq<Road>, road: Road)
    requires OneMember(ws) && Over(roads + [road], ws)
    ensures Total(roads).Repr() <= Total(roads + [road]).Repr()
  {
    var all := roads + [road];
    assert all[|roads|] == road;
    forall i | 0 <= i < |roads|
      ensures roads[i].weight in {road.weight}
    {
      assert all[i] == roads[i];
    }
    TotalIsUniform(roads, road.weight);
    TotalStep(roads, road);
    OfferIsNoCheaper(Total(roads), road, road.weight);
  }

  lemma TwoWeightsCheapen(ws: set<nat>, a: nat, b: nat)
    requires a in ws && b in ws && a < b && b * b <= U32_MAX
    ensures !NeverCheapens(ws)
  {
    var heavy, light := Road(0, b, 1), Road(0, a, 0);
    assert Over([heavy] + [light], ws);
    TotalStep([], heavy);
    TotalStep([heavy], light);
    assert [] + [heavy] == [heavy];
    LighterRoadCheapens(a, b);
    assert Total([heavy]) == Cost(b, 1, 1) && Total([heavy] + [light]) == Cost(b, 1, 1).Plus(Cost(a, 1, 0));
  }

  // ----- The bounded search -----

  ghost predicate WeighedIn(g: Network, ws: set<nat>) {
    forall n, k :: n in g && 0 <= k < |g[n]| ==> g[n][k].weight in ws
  }

  ghost predicate Fit(ws: set<nat>, reach: nat) {
    forall x :: x in ws ==> x * x * reach <= U32_MAX
  }

  /** One network for every runtime. */
  ghost function Everywhere(g: Network): Runtime -> Network { r => g }

  /** Over these weights, whatever the network, the root and a reach that fits, the map misses no nearer node. */
  ghost predicate FindsAll(ws: set<nat>) {
    forall g: Network, root: int, reach: nat, pm: Predicates ::
      WeighedIn(g, ws) && Fit(ws, reach) && Direct(Bounded(reach, Everywhere(g)), 0, root, pm) ==> ReachesAll(g, root, reach, pm)
  }

  /** Two roads out of the root: a light one that leads too far, and a heavy one that does not. */
  ghost function Junction(a: nat, b: nat): Network { map[0 := [Road(1, a, b + 1), Road(2, b, b)]] }

  /** A lighter weight, squared, makes up for one centimetre more. */
  lemma LightTimesFar(a: nat, b: nat)
    requires a < b
    ensures a * a * (b + 1) < b * b * b
  {
    var q := b * b;
    SquareMonotone(a, b - 1);
    SquareBelow(b);
    ScaleMonotone(b + 1, a * a, q - 2 * b + 1);
    assert (b + 1) * (q - 2 * b + 1) == b * (q - 2 * b + 1) + (q - 2 * b + 1);
    assert b * (q - 2 * b + 1) == b * q - 2 * q + b;
  }

  /** The light road's end compares cheaper, though it is further. */
  lemma LightComparesCheaper(a: nat, b: nat)
    requires a < b && b * b * (b + 1) <= U32_MAX
    ensures Cost(a, 1, b + 1).Repr() < Cost(b, 1, b).Repr()
  {
    LightTimesFar(a, b);
    ScaleMonotone(b * b, b, b + 1);
    ReprIs(Cost(a, 1, b + 1), a);
    ReprIs(Cost(b, 1, b), b);
  }

  lemma OnlyTop(heap: multiset<Holder>, h: Holder)
    requires h in heap && forall x :: x in heap && x != h ==> h.cost.Repr() < x.cost.Repr()
    ensures heap != multiset{} && Top(heap) == h
  {
    var t := Top(heap);
    assert t.cost.Repr() <= h.cost.Repr();
  }

  /** First the root is settled and asks for its roads. */
  lemma JunctionBegins(reach: nat)
    ensures StageOf(reach, 0, []) == Asking(Search([Found(0, None, ZERO)], multiset{}, {0}), [Settled(0, None, ZERO)], map[])
  {
    var s := Begin(0);
    OnlyTop(s.heap, Holder(ZERO, 0));
    assert s.heap - multiset{Holder(ZERO, 0)} == multiset{};
  }

  /** Then both ends are offered, and the light one is settled. */
  lemma JunctionGoesOn(reach: nat, roads: Roads, light: Cost, heavy: Cost)
    requires reach > 0 && light.Repr() < heavy.Repr()
    requires |roads| == 2 && roads[0].to == 1 && roads[1].to == 2
    requires roads[0].Charge() == light && roads[1].Charge() == heavy
    ensures StageOf(reach, 0, [roads]) == Asking(LightSettled(light, heavy), LightOrder(light), map[0 := 0])
  {
    var z, s := Settled(0, None, ZERO), Search([Found(0, None, ZERO)], multiset{}, {0});
    JunctionBegins(reach);
    assert [roads][..0] == [];
    OfferBoth(s, z, roads, light, heavy);
    SettlesLight(light, heavy);
    assert Entered(s, z, map[]) == map[0 := 0];
  }

  /** The search with the root and the light end settled. */
  ghost function LightSettled(light: Cost, heavy: Cost): Search {
    Search([Found(0, None, ZERO), Found(1, Some(0), light), Found(2, Some(0), heavy)], multiset{Holder(heavy, 2)}, {0, 1})
  }

  ghost function LightOrder(light: Cost): seq<Settled> { [Settled(0, None, ZERO), Settled(1, Some(0), light)] }

  /** The search with the root settled and both ends offered. */
  ghost function BothOffered(light: Cost, heavy: Cost): Search {
    Search([Found(0, None, ZERO), Found(1, Some(0), light), Found(2, Some(0), heavy)],
           multiset{Holder(light, 1), Holder(heavy, 2)}, {0})
  }

  lemma SettlesLight(light: Cost, heavy: Cost)
    requires light.Repr() < heavy.Repr()
    ensures SearchPlan.Advance(BothOffered(light, heavy), [Settled(0, None, ZERO)], map[0 := 0])
         == Asking(LightSettled(light, heavy), LightOrder(light), map[0 := 0])
  {
    var u := BothOffered(light, heavy);
    OnlyTop(u.heap, Holder(light, 1));
    assert u.heap - multiset{Holder(light, 1)} == multiset{Holder(heavy, 2)};
    assert u.seen + {1} == {0, 1};
    assert Freshen(u) == u;
  }

  lemma OfferBoth(s: Search, z: Settled, roads: Roads, light: Cost, heavy: Cost)
    requires s == Search([Found(0, None, ZERO)], multiset{}, {0}) && z == Settled(0, None, ZERO)
    requires |roads| == 2 && roads[0].to == 1 && roads[1].to == 2
    requires roads[0].Charge() == light && roads[1].Charge() == heavy
    ensures OfferAll(s, z, roads) == BothOffered(light, heavy)
  {
    assert roads[..1] == [roads[0]] && [roads[0]][..0] == [];
    assert OfferAll(s, z, []) == s;
    var t := OfferAll(s, z, [roads[0]]);
    assert t == Search([Found(0, None, ZERO), Found(1, Some(0), light)], multiset{Holder(light, 1)}, {0});
    assert multiset{Holder(light, 1)} + multiset{Holder(heavy, 2)} == multiset{Holder(light, 1), Holder(heavy, 2)};
  }

  lemma StageStep(reach: nat, key: int, heard: seq<Roads>, roads: Roads)
    ensures StageOf(reach, key, heard + [roads]) == Hear(reach, StageOf(reach, key, heard), roads)
  {
    assert (heard + [roads])[..|heard|] == heard;
  }

  /** The light end is out of reach and has no roads: the search is over. */
  lemma JunctionEnds(reach: nat, light: Cost, heavy: Cost)
    requires light.distance >= reach
    ensures var s := LightSettled(light, heavy);
      Hear(reach, Asking(s, LightOrder(light), map[0 := 0]), []) == Done(s, LightOrder(light), 1, map[0 := 0])
  {
    assert OfferAll(LightSettled(light, heavy), LightOrder(light)[1], []) == LightSettled(light, heavy);
  }

  /** What the search does at a junction: ask of the root, ask of the light end, and answer with the root alone. */
  lemma JunctionMoves(reach: nat, roads: Roads, light: Cost, heavy: Cost)
    requires 0 < reach <= light.distance && light.Repr() < heavy.Repr()
    requires |roads| == 2 && roads[0].to == 1 && roads[1].to == 2
    requires roads[0].Charge() == light && roads[1].Charge() == heavy
    ensures NextMove(reach, 0, []) == Ask(0) && NextMove(reach, 0, [roads]) == Ask(1)
    ensures NextMove(reach, 0, [roads] + [[]]) == Answer(map[0 := 0])
  {
    JunctionBegins(reach);
    JunctionGoesOn(reach, roads, light, heavy);
    JunctionEnds(reach, light, heavy);
    StageStep(reach, 0, [roads], []);
  }

  /** A junction by its roads and what they charge. */
  ghost predicate IsJunction(g: Network, light: Cost, heavy: Cost) {
    && |Out(g, 0)| == 2 && Out(g, 0)[0].to == 1 && Out(g, 0)[1].to == 2 && Out(g, 1) == []
    && Out(g, 0)[0].Charge() == light && Out(g, 0)[1].Charge() == heavy && light.Repr() < heavy.Repr()
  }

  lemma JunctionIsDirect(g: Network, reach: nat, light: Cost, heavy: Cost, root: int, pm: Predicates)
    requires IsJunction(g, light, heavy) && 0 < reach <= light.distance && root == 0 && pm == map[0 := 0]
    ensures Direct(Bounded(reach, Everywhere(g)), 0, root, pm)
  {
    JunctionMoves(reach, Out(g, 0), light, heavy);
    JunctionIsHeard(reach, g, Out(g, 0), pm);
  }

  lemma JunctionIsOne(a: nat, b: nat)
    requires a < b && b * b * (b + 1) <= U32_MAX
    ensures IsJunction(Junction(a, b), Cost(a, 1, b + 1), Cost(b, 1, b))
  {
    LightComparesCheaper(a, b);
  }

  /** So the heavy end, which is in reach, is missing. */
  lemma JunctionMissesANode(a: nat, b: nat) returns (root: int, reach: nat, pm: Predicates, x: int)
    requires a < b && b * b * (b + 1) <= U32_MAX
    ensures reach == b + 1 && Direct(Bounded(reach, Everywhere(Junction(a, b))), 0, root, pm)
    ensures Nearer(Junction(a, b), root, x, reach) && x !in pm
  {
    root, reach, pm, x := 0, b + 1, map[0 := 0], 2;
    var g := Junction(a, b);
    JunctionIsOne(a, b);
    JunctionIsDirect(g, reach, Cost(a, 1, b + 1), Cost(b, 1, b), root, pm);
    HeavyEndIsNear(g, Out(g, 0), b);
  }

  lemma JunctionIsHeard(reach: nat, g: Network, roads: Roads, pm: Predicates)
    requires Out(g, 0) == roads && Out(g, 1) == []
    requires NextMove(reach, 0, []) == Ask(0) && NextMove(reach, 0, [roads]) == Ask(1)
    requires NextMove(reach, 0, [roads] + [[]]) == Answer(pm)
    ensures Direct(Bounded(reach, Everywhere(g)), 0, 0, pm)
  {
    var plan := Bounded(reach, Everywhere(g));
    HeardExtends(plan, 0, 0, [], roads);
    assert [] + [roads] == [roads];
    HeardExtends(plan, 0, 0, [roads], []);
    assert plan.next(0, [roads] + [[]]) == Answer(pm);
  }

  lemma HeavyEndIsNear(g: Network, roads: Roads, d: nat)
    requires Out(g, 0) == roads && |roads| == 2 && roads[1].to == 2 && roads[1].distance == d
    ensures Nearer(g, 0, 2, d + 1)
  {
    assert Chain(g, [2], 0);
    assert roads[1] in Out(g, 0);
    ChainPrepends(g, 0, [2], 0, roads[1]);
    assert [0] + [2] == [0, 2];
    assert Chain(g, [0, 2], d);
  }

  /** A concrete junction: six centimetres on a light road, too far, hide five on a heavy one, which are not. */
  lemma SearchCanMissANearNode() returns (root: int, pm: Predicates, x: int)
    ensures var g := map[0 := [Road(1, 1, 6), Road(2, 5, 5)]];
      Direct(Bounded(6, Everywhere(g)), 0, root, pm) && Nearer(g, root, x, 6) && x !in pm
  {
    var reach;
    assert Junction(1, 5) == map[0 := [Road(1, 1, 6), Road(2, 5, 5)]];
    root, reach, pm, x := JunctionMissesANode(1, 5);
  }

  /** The bounded search misses no nearer node, over weights that fit, exactly when there is one weight. */
  lemma FindsAllIffOneWeight(ws: set<nat>)
    requires ws != {} && forall x :: x in ws ==> x > 0 && x * x * (x + 1) <= U32_MAX
    ensures FindsAll(ws) <==> OneMember(ws)
  {
    if OneMember(ws) {
      forall g: Network, root: int, reach: nat, pm: Predicates
        | WeighedIn(g, ws) && Fit(ws, reach) && Direct(Bounded(reach, Everywhere(g)), 0, root, pm)
        ensures ReachesAll(g, root, reach, pm)
      {
        var w :| w in ws;
        assert Exact(g, w, reach);
        DirectReaches(reach, Everywhere(g), 0, root, pm, w);
      }
    } else {
      var a, b :| a in ws && b in ws && a != b;
      TwoWeightsMiss(ws, if a < b then a else b, if a < b then b else a);
    }
  }

  lemma TwoWeightsMiss(ws: set<nat>, a: nat, b: nat)
    requires a in ws && b in ws && a < b && forall x :: x in ws ==> x > 0 && x * x * (x + 1) <= U32_MAX
    ensures !FindsAll(ws)
  {
    assert WeighedIn(Junction(a, b), ws);
    var root, reach, pm, x := JunctionMissesANode(a, b);
    JunctionFits(ws, b, reach);
    MissesOne(ws, Junction(a, b), root, reach, pm, x);
  }

  lemma JunctionFits(ws: set<nat>, b: nat, reach: nat)
    requires b in ws && reach == b + 1 && forall x :: x in ws ==> x * x * (x + 1) <= U32_MAX
    ensures Fit(ws, reach)
  {
    forall x | x in ws
      ensures x * x * reach <= U32_MAX
    {
      FitsBelow(x, b);
    }
  }

  lemma MissesOne(ws: set<nat>, g: Network, root: int, reach: nat, pm: Predicates, x: int)
    requires WeighedIn(g, ws) && Fit(ws, reach) && Direct(Bounded(reach, Everywhere(g)), 0, root, pm)
    requires Nearer(g, root, x, reach) && x !in pm
    ensures !FindsAll(ws)
  {
    assert !ReachesAll(g, root, reach, pm);
  }

  lemma FitsBelow(x: nat, b: nat)
    requires x * x * (x + 1) <= U32_MAX && b * b * (b + 1) <= U32_MAX
    ensures x * x * (b + 1) <= U32_MAX
  {
    if x <= b {
      SquareMonotone(x, b);
      ScaleMonotone(b + 1, x * x, b * b);
    } else {
      ScaleMonotone(x * x, b + 1, x + 1);
    }
  }
}
