/** The bounded search as the cache runs it: one that sees the network only by asking for roads. */
module SearchPlan {
  import opened Numbers
  import opened RoutingCost
  import opened Dijkstra
  import opened Reachability
  import opened PredicateMap
  import opened Routes
  import opened PredicateCache

  /** The search between two answers: waiting for the roads out of the node it settled last, or finished. */
  datatype Stage =
    | Asking(s: Search, ys: seq<Settled>, pm: Predicates)
    | Done(s: Search, ys: seq<Settled>, n: nat, pm: Predicates)

  /** Some cheapest entry, the same one whenever the heap is the same. */
  ghost function Top(heap: multiset<Holder>): (h: Holder)
    requires heap != multiset{}
    ensures IsCheapest(heap, h)
  {
    CheapestExists(heap);
    var h :| IsCheapest(heap, h);
    h
  }

  /** Entries of settled nodes dropped off the top. */
  ghost function Freshen(s: Search): (u: Search)
    ensures u.parents == s.parents && u.seen == s.seen
    ensures u.heap != multiset{} ==> Top(u.heap).index !in u.seen
    decreases |s.heap|
  {
    if s.heap == multiset{} || Top(s.heap).index !in s.seen then s
    else Freshen(s.(heap := s.heap - multiset{Top(s.heap)}))
  }

  /** Settle the next node, or finish when there is none. */
  ghost function Advance(s: Search, ys: seq<Settled>, pm: Predicates): Stage { SettleTop(Freshen(s), ys, pm) }

  ghost function SettleTop(u: Search, ys: seq<Settled>, pm: Predicates): Stage {
    if u.heap == multiset{} || Top(u.heap).index >= |u.parents| then Done(u, ys, |ys|, pm)
    else Asking(Settle(u, Top(u.heap)), ys + [Record(u, Top(u.heap))], pm)
  }

  /** Every road out of the node just settled, offered in turn. */
  ghost function OfferAll(s: Search, z: Settled, roads: Roads): Search {
    if roads == [] then s else
    Relax(OfferAll(s, z, roads[..|roads| - 1]), z.index, z.cost, roads[|roads| - 1])
  }

  /** The map with one settled node entered. */
  ghost function Entered(s: Search, z: Settled, pm: Predicates): Predicates
    requires z.index < |s.parents| && (z.parent.Some? ==> z.parent.value < |s.parents|)
  {
    pm[s.parents[z.index].node := match z.parent case None => 0 case Some(p) => s.parents[p].node]
  }

  /** A settled record points into the parent map. */
  ghost predicate Placed(s: Search, ys: seq<Settled>) {
    ys != [] && var z := ys[|ys| - 1];
    z.index < |s.parents| && (z.parent.Some? ==> z.parent.value < |s.parents|)
  }

  /** Hearing the roads out of the last settled node: offer them, keep the node if in reach, go on. */
  ghost function Hear(reach: nat, stage: Stage, roads: Roads): Stage {
    match stage
    case Done(_, _, _, _) => stage
    case Asking(s, ys, pm) =>
      if !Placed(s, ys) then Done(s, ys, 0, pm) else
      var z := ys[|ys| - 1];
      var u := OfferAll(s, z, roads);
      if z.cost.distance >= reach then Done(u, ys, |ys| - 1, pm)
      else Advance(u, ys, Entered(s, z, pm))
  }

  ghost function StageOf(reach: nat, key: int, heard: seq<Roads>): Stage {
    if heard == [] then Advance(Begin(key), [], map[])
    else Hear(reach, StageOf(reach, key, heard[..|heard| - 1]), heard[|heard| - 1])
  }

  ghost function NextMove(reach: nat, key: int, heard: seq<Roads>): Move {
    match StageOf(reach, key, heard)
    case Done(_, _, _, pm) => Answer(pm)
    case Asking(s, ys, pm) => if Placed(s, ys) then Ask(s.parents[ys[|ys| - 1].index].node) else Answer(pm)
  }

  /** The bounded search over the roads each runtime may take. */
  ghost function Bounded(reach: nat, net: Runtime -> Network): Plan {
    Plan((key: int, heard: seq<Roads>) => NextMove(reach, key, heard), (r: Runtime, n: int) => Out(net(r), n))
  }

  // ----- What every stage keeps -----

  ghost predicate StageOk(g: Network, root: int, reach: nat, w: nat, stage: Stage) {
    match stage
    case Asking(s, ys, pm) =>
      Placed(s, ys) && Good(g, root, w, s, ys, 0) && Collected(s, ys, |ys| - 1, pm) && InReach(ys, |ys| - 1, reach)
    case Done(s, ys, n, pm) => exists done :: Computed(g, root, reach, w, pm, s, ys, n, done)
  }

  lemma {:induction false} FreshenKeepsGood(g: Network, root: int, w: nat, s: Search, ys: seq<Settled>, done: nat)
    requires Good(g, root, w, s, ys, done)
    ensures Good(g, root, w, Freshen(s), ys, done)
    decreases |s.heap|
  {
    if s.heap != multiset{} && Top(s.heap).index in s.seen {
      var h := Top(s.heap);
      GoodSkip(g, root, w, s, ys, done, h);
      FreshenKeepsGood(g, root, w, s.(heap := s.heap - multiset{h}), ys, done);
    }
  }

  lemma FreshenKeepsAll(g: Network, root: int, w: nat, s: Search, ys: seq<Settled>, done: nat, pm: Predicates)
    requires Good(g, root, w, s, ys, done) && Complete(g, s, ys, done) && Collected(s, ys, |ys|, pm)
    ensures var u := Freshen(s);
      Good(g, root, w, u, ys, done) && Complete(g, u, ys, done) && Collected(u, ys, |ys|, pm)
  {
    FreshenKeepsGood(g, root, w, s, ys, done);
    CollectedStays(s, Freshen(s), ys, ys, |ys|, pm);
  }

  lemma AdvanceIsOk(g: Network, root: int, reach: nat, w: nat, s: Search, ys: seq<Settled>, done: nat, pm: Predicates)
    requires Good(g, root, w, s, ys, done) && Complete(g, s, ys, done)
    requires Collected(s, ys, |ys|, pm) && InReach(ys, |ys|, reach)
    ensures StageOk(g, root, reach, w, Advance(s, ys, pm))
  {
    FreshenKeepsAll(g, root, w, s, ys, done, pm);
    FreshIsOk(g, root, reach, w, Freshen(s), ys, done, pm);
  }

  lemma FreshIsOk(g: Network, root: int, reach: nat, w: nat, u: Search, ys: seq<Settled>, done: nat, pm: Predicates)
    requires Good(g, root, w, u, ys, done) && Complete(g, u, ys, done)
    requires Collected(u, ys, |ys|, pm) && InReach(ys, |ys|, reach)
    requires u.heap != multiset{} ==> Top(u.heap).index !in u.seen
    ensures StageOk(g, root, reach, w, SettleTop(u, ys, pm))
  {
    if u.heap == multiset{} {
      EndingIsOk(g, root, reach, w, u, ys, done, pm);
    } else {
      SettlingIsOk(g, root, reach, w, u, ys, done, pm, Top(u.heap));
    }
  }

  lemma EndingIsOk(g: Network, root: int, reach: nat, w: nat, u: Search, ys: seq<Settled>, done: nat, pm: Predicates)
    requires Good(g, root, w, u, ys, done) && Complete(g, u, ys, done) && u.heap == multiset{}
    requires Collected(u, ys, |ys|, pm) && InReach(ys, |ys|, reach)
    ensures StageOk(g, root, reach, w, Done(u, ys, |ys|, pm))
  {
    assert Computed(g, root, reach, w, pm, u, ys, |ys|, done);
  }

  lemma SettlingIsOk(g: Network, root: int, reach: nat, w: nat, u: Search, ys: seq<Settled>, done: nat, pm: Predicates, h: Holder)
    requires Good(g, root, w, u, ys, done) && Complete(g, u, ys, done) && IsCheapest(u.heap, h) && h.index !in u.seen
    requires Collected(u, ys, |ys|, pm) && InReach(ys, |ys|, reach)
    ensures h.index < |u.parents| && StageOk(g, root, reach, w, Asking(Settle(u, h), ys + [Record(u, h)], pm))
  {
    GoodSettle(g, root, w, u, ys, done, h);
    SettledIsPlaced(g, root, u, ys, h);
    SettlingCollects(reach, u, ys, pm, h);
  }

  lemma SettledIsPlaced(g: Network, root: int, u: Search, ys: seq<Settled>, h: Holder)
    requires Dijkstra.Inv(g, root, u, ys) && h in u.heap && h.index !in u.seen
    ensures h.index < |u.parents| && Placed(Settle(u, h), ys + [Record(u, h)])
  {
    ParentIsPlaced(g, root, u, ys, h);
  }

  lemma SettlingCollects(reach: nat, u: Search, ys: seq<Settled>, pm: Predicates, h: Holder)
    requires h.index < |u.parents| && Collected(u, ys, |ys|, pm) && InReach(ys, |ys|, reach)
    ensures var zs := ys + [Record(u, h)];
      Collected(Settle(u, h), zs, |zs| - 1, pm) && InReach(zs, |zs| - 1, reach)
  {
    CollectedStays(u, Settle(u, h), ys, ys + [Record(u, h)], |ys|, pm);
  }

  /** Offering the roads out of the last settled node, all of them, completes it. */
  lemma {:induction false} OfferAllKeepsGood(g: Network, root: int, w: nat, s: Search, ys: seq<Settled>, roads: Roads)
    requires Good(g, root, w, s, ys, 0) && Placed(s, ys)
    requires roads <= Out(g, s.parents[ys[|ys| - 1].index].node)
    ensures Good(g, root, w, OfferAll(s, ys[|ys| - 1], roads), ys, |roads|)
    ensures KeepsNodes(s, OfferAll(s, ys[|ys| - 1], roads))
    decreases |roads|
  {
    if roads != [] {
      var n, z := |roads| - 1, ys[|ys| - 1];
      OfferAllKeepsGood(g, root, w, s, ys, roads[..n]);
      var u := OfferAll(s, z, roads[..n]);
      GoodRelax(g, root, w, u, ys, n, z, roads[n]);
      KeepsNodesTrans(s, u, Relax(u, z.index, z.cost, roads[n]));
    }
  }

  /** Out of reach: the node is dropped and the search is over. */
  lemma StoppingIsOk(g: Network, root: int, reach: nat, w: nat, u: Search, ys: seq<Settled>, done: nat, pm: Predicates)
    requires Good(g, root, w, u, ys, done) && Complete(g, u, ys, done) && ys != [] && ys[|ys| - 1].cost.distance >= reach
    requires Collected(u, ys, |ys| - 1, pm) && InReach(ys, |ys| - 1, reach)
    ensures StageOk(g, root, reach, w, Done(u, ys, |ys| - 1, pm))
  {
    assert Computed(g, root, reach, w, pm, u, ys, |ys| - 1, done);
  }

  lemma EnteringCollects(g: Network, root: int, reach: nat, u: Search, ys: seq<Settled>, pm: Predicates)
    requires Dijkstra.Inv(g, root, u, ys) && Placed(u, ys) && ys[|ys| - 1].cost.distance < reach
    requires Collected(u, ys, |ys| - 1, pm) && InReach(ys, |ys| - 1, reach)
    ensures Collected(u, ys, |ys|, Entered(u, ys[|ys| - 1], pm)) && InReach(ys, |ys|, reach)
  {
    var z, order := ys[|ys| - 1], ys[..|ys| - 1];
    var item := Item(u.parents[z.index].node,
                     match z.parent case None => None case Some(p) => Some(u.parents[p].node), z.cost);
    CollectedGrows(g, root, u, ys, pm, item);
  }

  /** In reach: the node is entered and the search goes on. */
  lemma KeepingIsOk(g: Network, root: int, reach: nat, w: nat, u: Search, ys: seq<Settled>, done: nat, pm: Predicates)
    requires Good(g, root, w, u, ys, done) && Complete(g, u, ys, done)
    requires Placed(u, ys) && ys[|ys| - 1].cost.distance < reach
    requires Collected(u, ys, |ys| - 1, pm) && InReach(ys, |ys| - 1, reach)
    ensures StageOk(g, root, reach, w, Advance(u, ys, Entered(u, ys[|ys| - 1], pm)))
  {
    EnteringCollects(g, root, reach, u, ys, pm);
    AdvanceIsOk(g, root, reach, w, u, ys, done, Entered(u, ys[|ys| - 1], pm));
  }

  /** Once its roads are offered, the last settled node is complete, and entering it means the same. */
  lemma OfferingCompletes(g: Network, root: int, w: nat, s: Search, ys: seq<Settled>, pm: Predicates)
    requires Good(g, root, w, s, ys, 0) && Placed(s, ys) && Collected(s, ys, |ys| - 1, pm)
    ensures var z := ys[|ys| - 1];
      var roads := Out(g, s.parents[z.index].node);
      var u := OfferAll(s, z, roads);
      && Good(g, root, w, u, ys, |roads|) && Complete(g, u, ys, |roads|) && Placed(u, ys)
      && Collected(u, ys, |ys| - 1, pm) && Entered(u, z, pm) == Entered(s, z, pm)
  {
    var z := ys[|ys| - 1];
    var roads := Out(g, s.parents[z.index].node);
    OfferAllKeepsGood(g, root, w, s, ys, roads);
    SameEntries(s, OfferAll(s, z, roads), ys, pm);
  }

  /** Nodes never move, so what a settled record and the map say of them stays. */
  lemma SameEntries(s: Search, u: Search, ys: seq<Settled>, pm: Predicates)
    requires KeepsNodes(s, u) && Placed(s, ys) && Collected(s, ys, |ys| - 1, pm)
    ensures Placed(u, ys) && Collected(u, ys, |ys| - 1, pm) && Entered(u, ys[|ys| - 1], pm) == Entered(s, ys[|ys| - 1], pm)
    ensures u.parents[ys[|ys| - 1].index].node == s.parents[ys[|ys| - 1].index].node
  {
    CollectedStays(s, u, ys, ys, |ys| - 1, pm);
  }

  lemma HearingIsOk(g: Network, root: int, reach: nat, w: nat, s: Search, ys: seq<Settled>, pm: Predicates)
    requires StageOk(g, root, reach, w, Asking(s, ys, pm))
    ensures StageOk(g, root, reach, w, Hear(reach, Asking(s, ys, pm), Out(g, s.parents[ys[|ys| - 1].index].node)))
  {
    var z := ys[|ys| - 1];
    var roads := Out(g, s.parents[z.index].node);
    if z.cost.distance >= reach {
      HearingStops(g, root, reach, w, s, ys, pm, roads);
    } else {
      HearingGoesOn(g, root, reach, w, s, ys, pm, roads);
    }
  }

  lemma HearingStops(g: Network, root: int, reach: nat, w: nat, s: Search, ys: seq<Settled>, pm: Predicates, roads: Roads)
    requires StageOk(g, root, reach, w, Asking(s, ys, pm)) && roads == Out(g, s.parents[ys[|ys| - 1].index].node)
    requires ys[|ys| - 1].cost.distance >= reach
    ensures StageOk(g, root, reach, w, Done(OfferAll(s, ys[|ys| - 1], roads), ys, |ys| - 1, pm))
  {
    OfferingCompletes(g, root, w, s, ys, pm);
    StoppingIsOk(g, root, reach, w, OfferAll(s, ys[|ys| - 1], roads), ys, |roads|, pm);
  }

  lemma HearingGoesOn(g: Network, root: int, reach: nat, w: nat, s: Search, ys: seq<Settled>, pm: Predicates, roads: Roads)
    requires StageOk(g, root, reach, w, Asking(s, ys, pm)) && roads == Out(g, s.parents[ys[|ys| - 1].index].node)
    requires ys[|ys| - 1].cost.distance < reach
    ensures StageOk(g, root, reach, w, Advance(OfferAll(s, ys[|ys| - 1], roads), ys, Entered(s, ys[|ys| - 1], pm)))
  {
    OfferingCompletes(g, root, w, s, ys, pm);
    KeepingIsOk(g, root, reach, w, OfferAll(s, ys[|ys| - 1], roads), ys, |roads|, pm);
  }

  /** However many roads it has heard of, the search is where a search of that network would be. */
  lemma {:induction false} StagesAreOk(reach: nat, net: Runtime -> Network, r: Runtime, key: int, heard: seq<Roads>, w: nat)
    requires Heard(Bounded(reach, net), r, key, heard)
    ensures StageOk(net(r), key, reach, w, StageOf(reach, key, heard))
  {
    var g := net(r);
    if heard == [] {
      BeginIsOk(g, key, reach, w);
    } else {
      var n := |heard| - 1;
      var before := heard[..n];
      HeardPrefix(Bounded(reach, net), r, key, heard, n);
      StagesAreOk(reach, net, r, key, before, w);
      assert HeardNext(Bounded(reach, net), r, key, before, heard[n]);
      var stage := StageOf(reach, key, before);
      assert stage.Asking?;
      HearingIsOk(g, key, reach, w, stage.s, stage.ys, stage.pm);
    }
  }

  lemma BeginIsOk(g: Network, root: int, reach: nat, w: nat)
    ensures StageOk(g, root, reach, w, Advance(Begin(root), [], map[]))
  {
    AdvanceIsOk(g, root, reach, w, Begin(root), [], 0, map[]);
  }

  lemma HeardPrefix(plan: Plan, r: Runtime, key: int, heard: seq<Roads>, n: nat)
    requires Heard(plan, r, key, heard) && n <= |heard|
    ensures Heard(plan, r, key, heard[..n])
  {
    forall i | 0 <= i < n
      ensures HeardNext(plan, r, key, heard[..n][..i], heard[..n][i])
    {
      assert heard[..n][..i] == heard[..i];
    }
  }

  // ----- What it answers -----

  /** Whatever the bounded search answers by asking is a predicate map of that runtime's roads. */
  lemma DirectReaches(reach: nat, net: Runtime -> Network, r: Runtime, key: int, pm: Predicates, w: nat)
    requires Direct(Bounded(reach, net), r, key, pm)
    ensures Reaches(net(r), key, reach, pm)
    ensures Exact(net(r), w, reach) ==> ReachesAll(net(r), key, reach, pm)
  {
    var plan := Bounded(reach, net);
    var heard :| Heard(plan, r, key, heard) && plan.next(key, heard) == Answer(pm);
    StagesAreOk(reach, net, r, key, heard, w);
    var stage := StageOf(reach, key, heard);
    var done :| Computed(net(r), key, reach, w, pm, stage.s, stage.ys, stage.n, done);
    ComputedReaches(net(r), key, reach, w, pm, stage.s, stage.ys, stage.n, done);
  }

  /** Asking goes on for no longer than there are places, so there always is an answer. */
  lemma SearchAnswers(reach: nat, net: Runtime -> Network, r: Runtime, key: int)
    ensures exists pm :: Direct(Bounded(reach, net), r, key, pm)
  {
    AnswersAfter(reach, net, r, key, []);
  }

  lemma {:induction false} AnswersAfter(reach: nat, net: Runtime -> Network, r: Runtime, key: int, heard: seq<Roads>)
    requires Heard(Bounded(reach, net), r, key, heard)
    ensures exists pm :: Direct(Bounded(reach, net), r, key, pm)
    decreases |Places(net(r), key)| - |StageOf(reach, key, heard).ys|, StageOf(reach, key, heard).Asking?
  {
    var plan, stage := Bounded(reach, net), StageOf(reach, key, heard);
    if plan.next(key, heard).Answer? {
      assert Direct(plan, r, key, plan.next(key, heard).value);
    } else {
      var roads := plan.roads(r, plan.next(key, heard).node);
      HeardExtends(plan, r, key, heard, roads);
      StageGoesOn(reach, net, r, key, heard, roads);
      AnswersAfter(reach, net, r, key, heard + [roads]);
    }
  }

  lemma StageGoesOn(reach: nat, net: Runtime -> Network, r: Runtime, key: int, heard: seq<Roads>, roads: Roads)
    requires Heard(Bounded(reach, net), r, key, heard) && Heard(Bounded(reach, net), r, key, heard + [roads])
    requires NextMove(reach, key, heard).Ask?
    ensures var a, b := StageOf(reach, key, heard), StageOf(reach, key, heard + [roads]);
      |b.ys| == |a.ys| + (if b.Asking? then 1 else 0) && (b.Asking? ==> |b.ys| <= |Places(net(r), key)|)
  {
    assert (heard + [roads])[..|heard|] == heard;
    HearGrows(reach, StageOf(reach, key, heard), roads);
    StagesAreOk(reach, net, r, key, heard + [roads], 0);
    StageFits(net(r), key, reach, StageOf(reach, key, heard + [roads]));
  }

  lemma HearGrows(reach: nat, stage: Stage, roads: Roads)
    requires stage.Asking? && Placed(stage.s, stage.ys)
    ensures var b := Hear(reach, stage, roads);
      |b.ys| == |stage.ys| + if b.Asking? then 1 else 0
  {
  }

  lemma StageFits(g: Network, root: int, reach: nat, stage: Stage)
    requires StageOk(g, root, reach, 0, stage)
    ensures stage.Asking? ==> |stage.ys| <= |Places(g, root)|
  {
    if stage.Asking? {
      SettledFit(g, root, stage.s, stage.ys);
    }
  }

  /**
   * Under one runtime, whatever the interleaving of threads and whatever is evicted meanwhile, every reply
   * of the shared cache is a predicate map of that runtime's roads: a tree of
   * roads off the root, nearer than the reach, and with one road weight no nearer node is missing.
   */
  lemma CachedReaches(reach: nat, net: Runtime -> Network, steps: seq<Step>, states: seq<State>,
                      r: Runtime, i: nat, k: nat, w: nat)
    requires Run(Bounded(reach, net), steps, states) && OneRuntime(steps, r)
    requires i < |states| && k < |states[i].replies|
    ensures var reply := states[i].replies[k];
      && reply.outcome.Some? && Reaches(net(r), reply.key, reach, reply.outcome.value)
      && (Exact(net(r), w, reach) ==> ReachesAll(net(r), reply.key, reach, reply.outcome.value))
  {
    CachedEqualsDirect(Bounded(reach, net), steps, states, r, i, k);
    var reply := states[i].replies[k];
    DirectReaches(reach, net, r, reply.key, reply.outcome.value, w);
  }

  /**
   * So the parent walk through a cached reply ends at its root: for a leaf in the reply it is a road route of
   * that runtime shorter than the reach, and there is none exactly when the leaf is neither root nor in it.
   */
  method CachedPath(pm: Predicates, leaf: int, ghost reach: nat, ghost net: Runtime -> Network,
                    ghost steps: seq<Step>, ghost states: seq<State>, r: Runtime, ghost i: nat, ghost k: nat, root: int)
    returns (path: Option<seq<int>>, ghost d: nat)
    requires Run(Bounded(reach, net), steps, states) && OneRuntime(steps, r) && i < |states| && k < |states[i].replies|
    requires states[i].replies[k].outcome == Some(pm) && states[i].replies[k].key == root
    ensures path.None? <==> leaf != root && leaf !in pm
    ensures path.Some? ==> path.value != [] && path.value[0] == root && path.value[|path.value| - 1] == leaf
    ensures path.Some? ==> Chain(net(r), path.value, d) && (leaf != root ==> d < reach)
  {
    CachedReaches(reach, net, steps, states, r, i, k, 0);
    ghost var order, dist :| Tree(net(r), root, reach, pm, order, dist);
    path := ParentPath(pm, root, leaf, net(r), reach, order, dist);
    d := if path.Some? && leaf != root then dist[leaf] else 0;
  }
}
