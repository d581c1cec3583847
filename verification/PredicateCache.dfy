/**
 * The shared reachability cache: a bounded read-through map of searches, over a second read-through
 * map of the roads out of each node, queried from many threads while either map evicts at will.
 */
module PredicateCache {
  import opened Numbers
  import opened RoutingCost

  /** A routing configuration, named by a number. */
  type Runtime = int

  /** The roads one runtime may take out of a node. */
  type Roads = seq<Road>

  /** Every node found, with its parent. */
  type Predicates = map<int, int>

  /** What a search does next: ask for the roads out of a node, or answer. */
  datatype Move = Ask(node: int) | Answer(value: Predicates)

  /** A deterministic search that sees the network only by asking, and the roads each runtime may use. */
  datatype Plan = Plan(next: (int, seq<Roads>) -> Move, roads: (Runtime, int) -> Roads)

  // ----- Direct calculation -----

  /** What the search heard so far is what runtime `r` may drive. */
  ghost predicate Heard(plan: Plan, r: Runtime, key: int, heard: seq<Roads>) {
    forall i :: 0 <= i < |heard| ==> HeardNext(plan, r, key, heard[..i], heard[i])
  }

  /** Having heard this much, the search asks again and hears `x`. */
  predicate HeardNext(plan: Plan, r: Runtime, key: int, heard: seq<Roads>, x: Roads) {
    plan.next(key, heard).Ask? && x == plan.roads(r, plan.next(key, heard).node)
  }

  /** Without any cache, the search from `key` under `r` answers `v`. */
  ghost predicate Direct(plan: Plan, r: Runtime, key: int, v: Predicates) {
    exists heard :: Heard(plan, r, key, heard) && plan.next(key, heard) == Answer(v)
  }

  lemma HeardExtends(plan: Plan, r: Runtime, key: int, heard: seq<Roads>, x: Roads)
    requires Heard(plan, r, key, heard)
    requires plan.next(key, heard).Ask? && x == plan.roads(r, plan.next(key, heard).node)
    ensures Heard(plan, r, key, heard + [x])
  {
    var more := heard + [x];
    forall i | 0 <= i < |more|
      ensures HeardNext(plan, r, key, more[..i], more[i])
    {
      if i < |heard| {
        assert more[..i] == heard[..i] && more[i] == heard[i];
      } else {
        assert more[..i] == heard && more[i] == x;
      }
    }
  }

  lemma {:induction false} HeardAgree(plan: Plan, r: Runtime, key: int, a: seq<Roads>, b: seq<Roads>, n: nat)
    requires Heard(plan, r, key, a) && Heard(plan, r, key, b) && n <= |a| && n <= |b|
    ensures a[..n] == b[..n]
  {
    if n > 0 {
      HeardAgree(plan, r, key, a, b, n - 1);
      assert HeardNext(plan, r, key, a[..n - 1], a[n - 1]) && HeardNext(plan, r, key, b[..n - 1], b[n - 1]);
      assert a[..n] == a[..n - 1] + [a[n - 1]] && b[..n] == b[..n - 1] + [b[n - 1]];
    }
  }

  lemma ShorterIsEqual(plan: Plan, r: Runtime, key: int, a: seq<Roads>, b: seq<Roads>)
    requires Heard(plan, r, key, a) && Heard(plan, r, key, b) && |a| <= |b| && plan.next(key, a).Answer?
    ensures a == b
  {
    assert a[..|a|] == a && b[..|b|] == b;
    assert |a| < |b| ==> HeardNext(plan, r, key, b[..|a|], b[|a|]);
    HeardAgree(plan, r, key, a, b, |a|);
  }

  /** A search has one answer. */
  lemma DirectIsUnique(plan: Plan, r: Runtime, key: int, v: Predicates, w: Predicates)
    requires Direct(plan, r, key, v) && Direct(plan, r, key, w)
    ensures v == w
  {
    var a :| Heard(plan, r, key, a) && plan.next(key, a) == Answer(v);
    var b :| Heard(plan, r, key, b) && plan.next(key, b) == Answer(w);
    if |a| <= |b| { ShorterIsEqual(plan, r, key, a, b); } else { ShorterIsEqual(plan, r, key, b, a); }
  }

  // ----- The shared caches -----

  /** Where one thread's query stands; each gap between two of its accesses is a phase of its own. */
  datatype Phase =
    | Missed
    | Searching(heard: seq<Roads>)
    | Filling(heard: seq<Roads>, node: int, found: Roads)
    | Storing(value: Predicates)

  datatype Task = Task(key: int, runtime: Runtime, phase: Phase)

  /** What a query gave its caller: a search, or the panic of a cache reused across runtimes. */
  datatype Reply = Reply(key: int, runtime: Runtime, outcome: Option<Predicates>)

  datatype State = State(
    bound: Option<Runtime>, roads: map<int, Roads>, maps: map<int, Predicates>,
    tasks: map<nat, Task>, replies: seq<Reply>)

  function Empty(): State { State(None, map[], map[], map[], []) }

  datatype Step =
    | Query(id: nat, key: int, runtime: Runtime)
    | Advance(id: nat)
    | EvictMap(key: int)
    | EvictRoads(node: int)

  predicate Enabled(s: State, step: Step) {
    match step
    case Query(id, _, _) => id !in s.tasks
    case Advance(id) => id in s.tasks
    case _ => true
  }

  /** A `put` never overwrites. */
  function Put<T>(m: map<int, T>, k: int, v: T): map<int, T> { if k in m then m else m[k := v] }

  function Apply(plan: Plan, s: State, step: Step): State
    requires Enabled(s, step)
  {
    match step
    case Query(id, key, runtime) =>
      if key in s.maps then s.(replies := s.replies + [Reply(key, runtime, Some(s.maps[key]))])
      else s.(tasks := s.tasks[id := Task(key, runtime, Missed)])
    case Advance(id) => Proceed(plan, s, id)
    case EvictMap(key) => s.(maps := s.maps - {key})
    case EvictRoads(node) => s.(roads := s.roads - {node})
  }

  /** One access of the thread running task `id`. */
  function Proceed(plan: Plan, s: State, id: nat): State
    requires id in s.tasks
  {
    var t := s.tasks[id];
    match t.phase
    case Missed =>
      if s.bound == None || s.bound == Some(t.runtime)
      then s.(bound := Some(t.runtime), tasks := s.tasks[id := t.(phase := Searching([]))])
      else s.(tasks := s.tasks - {id}, replies := s.replies + [Reply(t.key, t.runtime, None)])
    case Searching(heard) =>
      (match plan.next(t.key, heard)
       case Answer(v) => s.(tasks := s.tasks[id := t.(phase := Storing(v))])
       case Ask(n) =>
         var phase := if n in s.roads then Searching(heard + [s.roads[n]])
                      else Filling(heard, n, plan.roads(t.runtime, n));
         s.(tasks := s.tasks[id := t.(phase := phase)]))
    case Filling(heard, n, x) =>
      s.(roads := Put(s.roads, n, x), tasks := s.tasks[id := t.(phase := Searching(heard + [x]))])
    case Storing(v) =>
      s.(maps := Put(s.maps, t.key, v), tasks := s.tasks - {id},
         replies := s.replies + [Reply(t.key, t.runtime, Some(v))])
  }

  // ----- What every step keeps -----

  ghost predicate PhaseOk(plan: Plan, r: Runtime, key: int, phase: Phase) {
    match phase
    case Missed => true
    case Searching(heard) => Heard(plan, r, key, heard)
    case Filling(heard, n, x) =>
      Heard(plan, r, key, heard) && plan.next(key, heard) == Ask(n) && x == plan.roads(r, n)
    case Storing(v) => Direct(plan, r, key, v)
  }

  ghost predicate TaskOk(plan: Plan, bound: Option<Runtime>, t: Task) {
    (t.phase.Missed? || bound == Some(t.runtime)) && PhaseOk(plan, t.runtime, t.key, t.phase)
  }

  /** An answer is the bound runtime's own; a panic went to some other runtime. */
  ghost predicate ReplyOk(plan: Plan, bound: Option<Runtime>, reply: Reply) {
    bound.Some? &&
    match reply.outcome
    case Some(v) => Direct(plan, bound.value, reply.key, v)
    case None => bound.value != reply.runtime
  }

  ghost predicate RoadsOk(plan: Plan, s: State) {
    forall n {:trigger s.roads[n]} :: n in s.roads ==> s.bound.Some? && s.roads[n] == plan.roads(s.bound.value, n)
  }

  ghost predicate MapsOk(plan: Plan, s: State) {
    forall k {:trigger s.maps[k]} :: k in s.maps ==> s.bound.Some? && Direct(plan, s.bound.value, k, s.maps[k])
  }

  ghost predicate TasksOk(plan: Plan, s: State) {
    forall id {:trigger s.tasks[id]} :: id in s.tasks ==> TaskOk(plan, s.bound, s.tasks[id])
  }

  ghost predicate RepliesOk(plan: Plan, s: State) {
    forall i {:trigger s.replies[i]} :: 0 <= i < |s.replies| ==> ReplyOk(plan, s.bound, s.replies[i])
  }

  ghost predicate Inv(plan: Plan, s: State) {
    RoadsOk(plan, s) && MapsOk(plan, s) && TasksOk(plan, s) && RepliesOk(plan, s)
  }

  lemma ProceedKeepsInv(plan: Plan, s: State, id: nat)
    requires Inv(plan, s) && id in s.tasks
    ensures Inv(plan, Proceed(plan, s, id))
    ensures s.bound.Some? ==> Proceed(plan, s, id).bound == s.bound
  {
    var t := s.tasks[id];
    assert TaskOk(plan, s.bound, t);
    match t.phase
    case Missed =>
    case Searching(heard) =>
      if plan.next(t.key, heard).Ask? {
        var n := plan.next(t.key, heard).node;
        if n in s.roads { HeardExtends(plan, t.runtime, t.key, heard, s.roads[n]); }
      }
    case Filling(heard, n, x) => HeardExtends(plan, t.runtime, t.key, heard, x);
    case Storing(v) =>
  }

  /** Every step keeps the caches true to the runtime they are bound to, and never rebinds them. */
  lemma StepKeepsInv(plan: Plan, s: State, step: Step)
    requires Inv(plan, s) && Enabled(s, step)
    ensures Inv(plan, Apply(plan, s, step))
    ensures s.bound.Some? ==> Apply(plan, s, step).bound == s.bound
  {
    match step
    case Query(id, key, runtime) =>
    case Advance(id) => ProceedKeepsInv(plan, s, id);
    case EvictMap(key) =>
    case EvictRoads(node) =>
  }

  // ----- Whole runs -----

  /** The states a run of steps passes through, in any interleaving. */
  ghost predicate Run(plan: Plan, steps: seq<Step>, states: seq<State>) {
    |states| == |steps| + 1 && states[0] == Empty() &&
    forall i {:trigger steps[i]} :: 0 <= i < |steps| ==>
      Enabled(states[i], steps[i]) && states[i + 1] == Apply(plan, states[i], steps[i])
  }

  lemma {:induction false} RunsKeepInv(
      plan: Plan, steps: seq<Step>, states: seq<State>, i: nat)
    requires Run(plan, steps, states) && i < |states|
    ensures Inv(plan, states[i])
  {
    if i > 0 {
      RunsKeepInv(plan, steps, states, i - 1);
      assert Enabled(states[i - 1], steps[i - 1]);
      StepKeepsInv(plan, states[i - 1], steps[i - 1]);
    }
  }

  /** Every query of the run names this runtime. */
  ghost predicate OneRuntime(steps: seq<Step>, r: Runtime) {
    forall i {:trigger steps[i]} :: 0 <= i < |steps| && steps[i].Query? ==> steps[i].runtime == r
  }

  ghost predicate OnlyServes(s: State, r: Runtime) {
    (s.bound.Some? ==> s.bound.value == r) &&
    (forall id {:trigger s.tasks[id]} :: id in s.tasks ==> s.tasks[id].runtime == r) &&
    (forall i {:trigger s.replies[i]} :: 0 <= i < |s.replies| ==> s.replies[i].outcome.Some?)
  }

  lemma {:induction false} OneRuntimeIsServed(
      plan: Plan, steps: seq<Step>, states: seq<State>, r: Runtime, i: nat)
    requires Run(plan, steps, states) && OneRuntime(steps, r) && i < |states|
    ensures OnlyServes(states[i], r)
  {
    if i > 0 {
      OneRuntimeIsServed(plan, steps, states, r, i - 1);
      assert Enabled(states[i - 1], steps[i - 1]);
      ServesOn(plan, states[i - 1], steps[i - 1], r);
    }
  }

  lemma ServesOn(plan: Plan, s: State, step: Step, r: Runtime)
    requires OnlyServes(s, r) && Enabled(s, step) && (step.Query? ==> step.runtime == r)
    ensures OnlyServes(Apply(plan, s, step), r)
  {
  }

  /**
   * Under one runtime, whatever the interleaving and whatever is evicted meanwhile, every reply is
   * the direct calculation for its key: no panic, and no dependence on what was cached.
   */
  lemma CachedEqualsDirect(
      plan: Plan, steps: seq<Step>, states: seq<State>, r: Runtime, i: nat, k: nat)
    requires Run(plan, steps, states) && OneRuntime(steps, r) && i < |states| && k < |states[i].replies|
    ensures var reply := states[i].replies[k];
      reply.outcome.Some? && Direct(plan, r, reply.key, reply.outcome.value)
      && forall v :: Direct(plan, r, reply.key, v) ==> v == reply.outcome.value
  {
    RunsKeepInv(plan, steps, states, i);
    OneRuntimeIsServed(plan, steps, states, r, i);
    var reply := states[i].replies[k];
    assert ReplyOk(plan, states[i].bound, reply);
    forall v | Direct(plan, r, reply.key, v)
      ensures v == reply.outcome.value
    {
      DirectIsUnique(plan, r, reply.key, v, reply.outcome.value);
    }
  }

  // ----- A second runtime -----

  /** The state after a query and, on a miss, its check of the runtime. */
  function Asked(plan: Plan, s: State, id: nat, key: int, r: Runtime): State
    requires id !in s.tasks
  {
    var t := Apply(plan, s, Query(id, key, r));
    if id in t.tasks then Apply(plan, t, Advance(id)) else t
  }

  /**
   * Once bound elsewhere, a query under another runtime is answered if and only if its key happens
   * to be cached; that answer is the bound runtime's, so it is right if and only if both agree.
   */
  lemma ForeignQueryAnsweredIffCached(plan: Plan, s: State, id: nat, key: int, r: Runtime)
    requires Inv(plan, s) && id !in s.tasks && s.bound.Some? && s.bound.value != r
    ensures var t := Asked(plan, s, id, key, r);
      |t.replies| == |s.replies| + 1 && id !in t.tasks && t.bound == s.bound
      && var outcome := t.replies[|s.replies|].outcome;
      (outcome.Some? <==> key in s.maps)
      && (outcome.Some? ==> Direct(plan, s.bound.value, key, outcome.value))
      && (outcome.Some? ==> (Direct(plan, r, key, outcome.value) <==> Same(plan, s.bound.value, r, key)))
  {
    if key in s.maps {
      var v := s.maps[key];
      assert Direct(plan, s.bound.value, key, v);
      if Same(plan, s.bound.value, r, key) {
        var w :| Direct(plan, s.bound.value, key, w) && Direct(plan, r, key, w);
        DirectIsUnique(plan, s.bound.value, key, v, w);
      }
    }
  }

  /** Two runtimes search alike from `key`. */
  ghost predicate Same(plan: Plan, q: Runtime, r: Runtime, key: int) {
    exists v :: Direct(plan, q, key, v) && Direct(plan, r, key, v)
  }
}
