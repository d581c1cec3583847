/** One shared reachability cache asked under several runtimes: which replies are still right. */
module RuntimeMixing {
  import opened Numbers
  import opened RoutingCost
  import opened PredicateMap
  import opened Routes
  import opened PredicateCache
  import opened SearchPlan

  /** Every query names one of these runtimes. */
  ghost predicate NamesOnly(steps: seq<Step>, rs: iset<Runtime>) {
    forall i {:trigger steps[i]} :: 0 <= i < |steps| && steps[i].Query? ==> steps[i].runtime in rs
  }

  /** In every run under these runtimes, whoever is answered gets the search of the runtime they named. */
  ghost predicate NeverMisleads(plan: Plan, rs: iset<Runtime>) {
    forall steps: seq<Step>, states: seq<State>, i: nat, k: nat ::
      Run(plan, steps, states) && NamesOnly(steps, rs) && i < |states| && k < |states[i].replies| ==>
        Right(plan, states[i].replies[k])
  }

  ghost predicate Right(plan: Plan, reply: Reply) {
    reply.outcome.Some? ==> Direct(plan, reply.runtime, reply.key, reply.outcome.value)
  }

  /** These runtimes search alike from everywhere. */
  ghost predicate AllSame(plan: Plan, rs: iset<Runtime>) {
    forall q: Runtime, r: Runtime, key: int :: q in rs && r in rs ==> Same(plan, q, r, key)
  }

  // ----- Runtimes that search alike -----

  /** The caches serve, and have answered, these runtimes only. */
  ghost predicate Serves(s: State, rs: iset<Runtime>) {
    && (s.bound.Some? ==> s.bound.value in rs)
    && (forall id {:trigger s.tasks[id]} :: id in s.tasks ==> s.tasks[id].runtime in rs)
    && (forall i {:trigger s.replies[i]} :: 0 <= i < |s.replies| ==> s.replies[i].runtime in rs)
  }

  lemma StepServes(plan: Plan, s: State, step: Step, rs: iset<Runtime>)
    requires Serves(s, rs) && PredicateCache.Enabled(s, step) && (step.Query? ==> step.runtime in rs)
    ensures Serves(PredicateCache.Apply(plan, s, step), rs)
  {
  }

  lemma {:induction false} RunsServe(plan: Plan, steps: seq<Step>, states: seq<State>, rs: iset<Runtime>, i: nat)
    requires Run(plan, steps, states) && NamesOnly(steps, rs) && i < |states|
    ensures Serves(states[i], rs)
  {
    if i > 0 {
      RunsServe(plan, steps, states, rs, i - 1);
      assert PredicateCache.Enabled(states[i - 1], steps[i - 1]);
      StepServes(plan, states[i - 1], steps[i - 1], rs);
    }
  }

  lemma AlikeNeverMislead(plan: Plan, rs: iset<Runtime>, steps: seq<Step>, states: seq<State>, i: nat, k: nat)
    requires AllSame(plan, rs) && Run(plan, steps, states) && NamesOnly(steps, rs)
    requires i < |states| && k < |states[i].replies|
    ensures Right(plan, states[i].replies[k])
  {
    PredicateCache.RunsKeepInv(plan, steps, states, i);
    RunsServe(plan, steps, states, rs, i);
    var reply := states[i].replies[k];
    assert ReplyOk(plan, states[i].bound, reply);
    if reply.outcome.Some? {
      var q := states[i].bound.value;
      assert Same(plan, q, reply.runtime, reply.key);
      var v :| Direct(plan, q, reply.key, v) && Direct(plan, reply.runtime, reply.key, v);
      DirectIsUnique(plan, q, reply.key, v, reply.outcome.value);
    }
  }

  // ----- Runtimes that do not -----

  lemma RunExtends(plan: Plan, steps: seq<Step>, states: seq<State>, step: Step) returns (more: seq<Step>, after: seq<State>)
    requires Run(plan, steps, states) && PredicateCache.Enabled(states[|steps|], step)
    ensures more == steps + [step] && Run(plan, more, after) && |after| == |states| + 1
    ensures after[|more|] == PredicateCache.Apply(plan, states[|steps|], step)
  {
    more, after := steps + [step], states + [PredicateCache.Apply(plan, states[|steps|], step)];
    forall i {:trigger more[i]} | 0 <= i < |more|
      ensures PredicateCache.Enabled(after[i], more[i]) && after[i + 1] == PredicateCache.Apply(plan, after[i], more[i])
    {
      if i < |steps| { assert more[i] == steps[i]; }
    }
  }

  /** A run whose only thread is a search of `key` under `q` that has heard this much. */
  ghost predicate AloneAt(plan: Plan, steps: seq<Step>, states: seq<State>, key: int, q: Runtime, phase: PredicateCache.Phase) {
    && Run(plan, steps, states) && NamesOnly(steps, iset{q})
    && states[|steps|].tasks == map[0 := Task(key, q, phase)] && states[|steps|].replies == []
    && states[|steps|].maps == map[] && (phase.Missed? || states[|steps|].bound == Some(q))
    && (phase.Searching? || phase.Filling? ==> Kept(plan, states[|steps|], key, phase.heard))
  }

  /** The roads of every node it has asked about are cached, so each is looked up once. */
  ghost predicate Kept(plan: Plan, s: State, key: int, heard: seq<Roads>) {
    forall i :: 0 <= i < |heard| ==> KeptAt(plan, s, key, heard[..i])
  }

  ghost predicate KeptAt(plan: Plan, s: State, key: int, before: seq<Roads>) {
    plan.next(key, before).Ask? && plan.next(key, before).node in s.roads
  }

  lemma KeptGrows(plan: Plan, s: State, t: State, key: int, heard: seq<Roads>, x: Roads)
    requires Kept(plan, s, key, heard) && s.roads.Keys <= t.roads.Keys && KeptAt(plan, t, key, heard)
    ensures Kept(plan, t, key, heard + [x])
  {
    forall i | 0 <= i < |heard| + 1
      ensures KeptAt(plan, t, key, (heard + [x])[..i])
    {
      if i < |heard| {
        assert (heard + [x])[..i] == heard[..i] && KeptAt(plan, s, key, heard[..i]);
      } else {
        assert (heard + [x])[..i] == heard;
      }
    }
  }

  /** That thread's next access. */
  lemma AloneProceeds(plan: Plan, steps: seq<Step>, states: seq<State>, key: int, q: Runtime, phase: PredicateCache.Phase)
    returns (more: seq<Step>, after: seq<State>)
    requires AloneAt(plan, steps, states, key, q, phase)
    ensures Run(plan, more, after) && NamesOnly(more, iset{q})
    ensures after[|more|] == Proceed(plan, states[|steps|], 0)
  {
    more, after := RunExtends(plan, steps, states, Advance(0));
  }

  /** Another answer to its question. */
  lemma AloneHears(plan: Plan, steps: seq<Step>, states: seq<State>, key: int, q: Runtime, heard: seq<Roads>, x: Roads)
    returns (more: seq<Step>, after: seq<State>)
    requires AloneAt(plan, steps, states, key, q, Searching(heard)) && HeardNext(plan, q, key, heard, x)
    ensures AloneAt(plan, more, after, key, q, Searching(heard + [x]))
  {
    PredicateCache.RunsKeepInv(plan, steps, states, |steps|);
    var s, n := states[|steps|], plan.next(key, heard).node;
    assert s.tasks[0] == Task(key, q, Searching(heard));
    more, after := AloneProceeds(plan, steps, states, key, q, Searching(heard));
    if n !in s.roads {
      more, after := AloneProceeds(plan, more, after, key, q, Filling(heard, n, x));
    }
    KeptGrows(plan, s, after[|more|], key, heard, x);
  }

  /** And so on to its answer. */
  lemma {:induction false} AloneListens(plan: Plan, steps: seq<Step>, states: seq<State>, key: int, q: Runtime,
                                        all: seq<Roads>, n: nat) returns (more: seq<Step>, after: seq<State>)
    requires Heard(plan, q, key, all) && n <= |all| && AloneAt(plan, steps, states, key, q, Searching(all[..n]))
    ensures AloneAt(plan, more, after, key, q, Searching(all))
    decreases |all| - n
  {
    if n == |all| {
      assert all[..n] == all;
      more, after := steps, states;
    } else {
      assert HeardNext(plan, q, key, all[..n], all[n]);
      more, after := AloneHears(plan, steps, states, key, q, all[..n], all[n]);
      assert all[..n] + [all[n]] == all[..n + 1];
      more, after := AloneListens(plan, more, after, key, q, all, n + 1);
    }
  }

  lemma AloneBegins(plan: Plan, key: int, q: Runtime) returns (steps: seq<Step>, states: seq<State>)
    ensures AloneAt(plan, steps, states, key, q, Searching([]))
  {
    assert Run(plan, [], [Empty()]);
    steps, states := RunExtends(plan, [], [Empty()], Query(0, key, q));
    assert AloneAt(plan, steps, states, key, q, Missed);
    steps, states := AloneProceeds(plan, steps, states, key, q, Missed);
  }

  /** Whatever the search answers under `q` ends up cached, from nothing, by one query. */
  lemma OneQueryFills(plan: Plan, key: int, q: Runtime, v: Predicates) returns (steps: seq<Step>, states: seq<State>)
    requires Direct(plan, q, key, v)
    ensures Run(plan, steps, states) && NamesOnly(steps, iset{q})
    ensures states[|steps|].replies == [Reply(key, q, Some(v))] && states[|steps|].maps == map[key := v]
    ensures states[|steps|].tasks == map[]
  {
    var all :| Heard(plan, q, key, all) && plan.next(key, all) == Answer(v);
    steps, states := AloneBegins(plan, key, q);
    assert all[..0] == [];
    steps, states := AloneListens(plan, steps, states, key, q, all, 0);
    steps, states := AloneProceeds(plan, steps, states, key, q, Searching(all));
    assert AloneAt(plan, steps, states, key, q, Storing(v));
    steps, states := AloneProceeds(plan, steps, states, key, q, Storing(v));
  }

  /** A query of one runtime, then the same key under another: the second caller gets the first's search. */
  lemma ForeignHit(plan: Plan, key: int, q: Runtime, r: Runtime, v: Predicates) returns (steps: seq<Step>, states: seq<State>)
    requires Direct(plan, q, key, v)
    ensures Run(plan, steps, states) && NamesOnly(steps, iset{q, r})
    ensures states[|steps|].replies == [Reply(key, q, Some(v)), Reply(key, r, Some(v))]
  {
    steps, states := OneQueryFills(plan, key, q, v);
    var s := states[|steps|];
    assert s.maps[key] == v;
    steps, states := RunExtends(plan, steps, states, Query(0, key, r));
    assert states[|steps|].replies == [Reply(key, q, Some(v))] + [Reply(key, r, Some(v))];
  }

  /**
   * Over any networks, for any set of runtimes sharing the cache of the bounded search: every answer in every
   * run is the asking runtime's own exactly when all of them search alike from every node.
   */
  lemma NeverMisleadsIffAlike(reach: nat, net: Runtime -> Network, rs: iset<Runtime>)
    ensures NeverMisleads(Bounded(reach, net), rs) <==> AllSame(Bounded(reach, net), rs)
  {
    var plan := Bounded(reach, net);
    if AllSame(plan, rs) {
      forall steps: seq<Step>, states: seq<State>, i: nat, k: nat
        | Run(plan, steps, states) && NamesOnly(steps, rs) && i < |states| && k < |states[i].replies|
        ensures Right(plan, states[i].replies[k])
      {
        AlikeNeverMislead(plan, rs, steps, states, i, k);
      }
    } else {
      var q: Runtime, r: Runtime, key: int :| q in rs && r in rs && !Same(plan, q, r, key);
      SearchAnswers(reach, net, q, key);
      var v :| Direct(plan, q, key, v);
      UnlikeMisleads(plan, rs, q, r, key, v);
    }
  }

  lemma UnlikeMisleads(plan: Plan, rs: iset<Runtime>, q: Runtime, r: Runtime, key: int, v: Predicates)
    requires q in rs && r in rs && !Same(plan, q, r, key) && Direct(plan, q, key, v)
    ensures !NeverMisleads(plan, rs)
  {
    var steps, states := ForeignHit(plan, key, q, r, v);
    assert states[|steps|].replies[1] == Reply(key, r, Some(v));
    assert NamesOnly(steps, rs);
    assert !Right(plan, states[|steps|].replies[1]);
  }

  // ----- Networks that make them differ -----

  /** One runtime comes near a node that another does not: the other is told that it does. */
  lemma ForeignHitMisleads(reach: nat, net: Runtime -> Network, q: Runtime, r: Runtime, key: int, w: nat, x: int)
    returns (steps: seq<Step>, states: seq<State>, pm: Predicates)
    requires Exact(net(q), w, reach) && Nearer(net(q), key, x, reach) && !Nearer(net(r), key, x, reach)
    ensures Run(Bounded(reach, net), steps, states)
    ensures states[|steps|].replies == [Reply(key, q, Some(pm)), Reply(key, r, Some(pm))]
    ensures Reaches(net(q), key, reach, pm) && x in pm && !Direct(Bounded(reach, net), r, key, pm)
  {
    var plan := Bounded(reach, net);
    SearchAnswers(reach, net, q, key);
    pm :| Direct(plan, q, key, pm);
    DirectReaches(reach, net, q, key, pm, w);
    steps, states := ForeignHit(plan, key, q, r, pm);
    if Direct(plan, r, key, pm) {
      DirectReaches(reach, net, r, key, pm, 0);
      MappedIsNearer(net(r), key, reach, pm, x);
    }
  }

  lemma MappedIsNearer(g: Network, root: int, reach: nat, pm: Predicates, x: int)
    requires Reaches(g, root, reach, pm) && x in pm
    ensures Nearer(g, root, x, reach)
  {
    var order, dist :| Tree(g, root, reach, pm, order, dist);
    HangsThere(g, root, reach, pm, order, dist, x);
    var p := TreeIsNearer(g, root, reach, pm, order, dist, x);
  }

  /** Runtime `r` has one road out of node 0, a centimetre long, to node `r`. */
  ghost function OneRoad(): Runtime -> Network { r => map[0 := [Road(r, 1, 1)]] }

  /** A bicycle and a car whose networks differ in one road out of the key. */
  lemma OneRoadMisleads() returns (steps: seq<Step>, states: seq<State>, pm: Predicates)
    ensures Run(Bounded(2, OneRoad()), steps, states)
    ensures states[|steps|].replies == [Reply(0, 1, Some(pm)), Reply(0, 2, Some(pm))]
    ensures 1 in pm && !Nearer(OneRoad()(2), 0, 1, 2) && !Direct(Bounded(2, OneRoad()), 2, 0, pm)
  {
    var g, h := OneRoad()(1), OneRoad()(2);
    OneRoadEnds(1, 2);
    OneRoadEnds(2, 2);
    steps, states, pm := ForeignHitMisleads(2, OneRoad(), 1, 2, 0, 1, 1);
  }

  lemma OneRoadEnds(r: Runtime, reach: nat)
    requires r != 0 && reach == 2
    ensures Nearer(OneRoad()(r), 0, r, reach)
    ensures forall x :: Nearer(OneRoad()(r), 0, x, reach) ==> x == 0 || x == r
    ensures Exact(OneRoad()(r), 1, reach)
  {
    var g, road := OneRoad()(r), Road(r, 1, 1);
    assert Chain(g, [r], 0) && road in Out(g, 0);
    ChainPrepends(g, 0, [r], 0, road);
    assert [0] + [r] == [0, r] && Chain(g, [0, r], 1);
    forall x | Nearer(g, 0, x, reach)
      ensures x == 0 || x == r
    {
      var p, d :| Chain(g, p, d) && p[0] == 0 && p[|p| - 1] == x && d < reach;
      OneRoadChain(g, r, p, d);
    }
  }

  lemma OneRoadChain(g: Network, r: int, p: seq<int>, d: int)
    requires r != 0 && g == map[0 := [Road(r, 1, 1)]] && Chain(g, p, d) && p[0] == 0
    ensures p[|p| - 1] == 0 || p[|p| - 1] == r
  {
    if |p| > 1 {
      var first :| first in Out(g, p[0]) && first.to == p[1] && Chain(g, p[1..], d - first.distance);
      ChainLeaves(g, p[1..], d - first.distance);
    }
  }

  lemma ChainLeaves(g: Network, p: seq<int>, d: int)
    requires Chain(g, p, d)
    ensures |p| == 1 || Out(g, p[0]) != []
  {
  }
}
