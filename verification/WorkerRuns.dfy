/** The worker and the matching service together: what every reply of every run is. */
module WorkerRuns {
  import opened Numbers
  import opened Observations
  import opened TimeOrder
  import opened Context
  import opened ContextRuns
  import opened Orchestrator
  import opened Weighing
  import opened Trips
  import opened Matching
  import opened Continuation

  /** A question to the service, with the trip committed when it was asked. */
  datatype Question = Question(message: Message, history: seq<Origin>, trip: Option<TripValue>)

  /** A question's history, and what the service replied. */
  datatype Exchange = Exchange(message: Message, history: seq<Origin>, reply: Reply)

  /** A vehicle, the question its worker is waiting on, and every reply so far; a solution is named by its place there. */
  datatype Worker = Worker(vehicle: Vehicle, asked: Option<Question>, replies: seq<Exchange>)

  const IDLE := Worker(Orchestrator.INITIAL, None, [])

  ghost predicate Names(x: Worker, solution: Solution) {
    0 <= solution.id < |x.replies| && x.replies[solution.id].reply.Matched?
  }

  /** The trip behind the committed solution. */
  ghost function Committed(x: Worker): Option<TripValue> {
    if x.vehicle.trip.Some? && Names(x, x.vehicle.trip.value.solution)
    then Some(x.replies[x.vehicle.trip.value.solution.id].reply.trip) else None
  }

  /** Resume the committed trip where it overlaps the history, or restart from the history. */
  ghost function Ask(w: World, q: Question): Reply
    requires q.trip.Some? ==> q.trip.value.Intact()
  {
    if q.trip.Some? && Overlap(q.trip.value.origins, q.history) > 0 then
      TailKeepsIntact(q.trip.value, Overlap(q.trip.value.origins, q.history));
      Serve(w, Resumed(q.trip.value, q.history), q.history[Overlap(q.trip.value.origins, q.history)..])
    else Serve(w, FRESH, q.history)
  }

  /** The worker is waiting on a question the service can take. */
  ghost predicate Waiting(x: Worker) {
    x.asked.Some? && (x.asked.value.trip.Some? ==> x.asked.value.trip.value.Intact())
  }

  /** How the worker names the reply. */
  ghost function Named(x: Worker, reply: Reply): Option<Solution> {
    if reply.Matched? then Some(Solution(|x.replies|)) else None
  }

  /** A step of the worker; the reply it gets is the service's. */
  ghost predicate Works(w: World, x: Worker, step: Step) {
    Enabled(x.vehicle, step) && (step.Solve? ==> Waiting(x) && step.reply == Named(x, Ask(w, x.asked.value)))
  }

  ghost function Work(cfg: Settings, w: World, x: Worker, step: Step): Worker
    requires Works(w, x, step)
  {
    var next := Apply(cfg.window, x.vehicle, step);
    match step
    case Gate =>
      if next.phase.Gated? then
        var m := x.vehicle.phase.message;
        Worker(next, Some(Question(m, History(cfg, x.vehicle.lane.value, m.event), Committed(x))), x.replies)
      else x.(vehicle := next)
    case Solve(_) =>
      var q := x.asked.value;
      Worker(next, None, x.replies + [Exchange(q.message, q.history, Ask(w, q))])
    case _ => x.(vehicle := next)
  }

  ghost function RunOf(cfg: Settings, w: World, steps: seq<Step>): Option<Worker> {
    if steps == [] then Some(IDLE) else
    var n := |steps| - 1;
    match RunOf(cfg, w, steps[..n])
    case None => None
    case Some(x) => if Works(w, x, steps[n]) then Some(Work(cfg, w, x, steps[n])) else None
  }

  /** To its vehicle the worker's run is a run of the orchestrator. */
  lemma {:induction false} RunsTheVehicle(cfg: Settings, w: World, steps: seq<Step>)
    requires RunOf(cfg, w, steps).Some?
    ensures Orchestrator.Run(cfg.window, steps) == Some(RunOf(cfg, w, steps).value.vehicle)
  {
    if steps != [] { RunsTheVehicle(cfg, w, steps[..|steps| - 1]); }
  }

  // ----- What every run keeps -----

  /** A history of plausible moves, in time order, that ends at the event in question. */
  ghost predicate Plausible(cfg: Settings, history: seq<Origin>, m: Message) {
    history != [] && history[|history| - 1] == m.event && Ascending(history) && Linked(cfg, history)
  }

  /** The reply is that of a restart from such a history, and its trip may be resumed. */
  ghost predicate Right(cfg: Settings, w: World, e: Exchange) {
    && Plausible(cfg, e.history, e.message) && e.reply == Serve(w, FRESH, e.history)
    && (e.reply.Matched? ==> Sound(w, e.reply.trip))
  }

  ghost predicate AllRight(cfg: Settings, w: World, replies: seq<Exchange>) {
    forall i {:trigger replies[i]} :: 0 <= i < |replies| ==> Right(cfg, w, replies[i])
  }

  /** A solution names a match that was made for this message. */
  ghost predicate MadeFor(x: Worker, solution: Solution, m: Message) {
    Names(x, solution) && x.replies[solution.id].message == m
  }

  /** Every emission names a match made for the message whose revision it bears. */
  ghost predicate EmissionsNamed(x: Worker) {
    forall e {:trigger e in x.vehicle.emissions} :: e in x.vehicle.emissions ==>
      Names(x, e.solution) && x.replies[e.solution.id].message.sequence == e.revision
  }

  ghost predicate PhaseNamed(x: Worker) {
    && (x.vehicle.trip.Some? ==> Names(x, x.vehicle.trip.value.solution))
    && (x.vehicle.phase.Replied? && x.vehicle.phase.reply.Some? ==>
          MadeFor(x, x.vehicle.phase.reply.value, x.vehicle.phase.message))
    && (x.vehicle.phase.Published? ==> MadeFor(x, x.vehicle.phase.solution, x.vehicle.phase.message))
  }

  ghost predicate AskedWell(cfg: Settings, w: World, x: Worker) {
    && (x.vehicle.phase.Gated? ==> x.asked.Some? && x.asked.value.message == x.vehicle.phase.message)
    && (x.asked.Some? ==> Plausible(cfg, x.asked.value.history, x.asked.value.message))
    && (x.asked.Some? && x.asked.value.trip.Some? ==> Sound(w, x.asked.value.trip.value))
  }

  /** The `i`th reply was for this message, and if it was a match its emission is durable under the message's revision. */
  ghost predicate AnsweredAndOut(x: Worker, m: Message, i: nat) {
    && i < |x.replies| && x.replies[i].message == m
    && (x.replies[i].reply.Matched? ==> Emission(m.sequence, Solution(i)) in x.vehicle.emissions)
  }

  /** The last reply is for the message past it, the phase says which it was, and a match is out once published. */
  ghost predicate LastReply(x: Worker) {
    var p, n := x.vehicle.phase, |x.replies| - 1;
    && (p.Replied? ==> n >= 0 && x.replies[n].message == p.message)
    && (p.Replied? ==> p.reply == if x.replies[n].reply.Matched? then Some(Solution(n)) else None)
    && (p.Published? || p.Committed? || p.Archived? ==> n >= 0 && AnsweredAndOut(x, p.message, n))
  }

  /** Every completed message was answered, and its match, if it got one, is out. */
  ghost predicate CompletedOut(x: Worker) {
    LastReply(x) && forall m {:trigger m in x.vehicle.completed} :: m in x.vehicle.completed ==> exists i :: AnsweredAndOut(x, m, i)
  }

  ghost predicate WorkInv(cfg: Settings, w: World, x: Worker) {
    AllRight(cfg, w, x.replies) && EmissionsNamed(x) && PhaseNamed(x) && AskedWell(cfg, w, x)
  }

  /** Nothing answered or out is ever lost. */
  lemma OutStays(x: Worker, y: Worker, m: Message)
    requires x.replies <= y.replies && x.vehicle.emissions <= y.vehicle.emissions && exists i :: AnsweredAndOut(x, m, i)
    ensures exists i :: AnsweredAndOut(y, m, i)
  {
    var i :| AnsweredAndOut(x, m, i);
    assert AnsweredAndOut(y, m, i);
  }

  lemma WorkOnlyAdds(cfg: Settings, w: World, x: Worker, step: Step)
    requires Works(w, x, step)
    ensures var y := Work(cfg, w, x, step); x.replies <= y.replies && x.vehicle.emissions <= y.vehicle.emissions
  {
  }

  lemma LastReplyKeeps(cfg: Settings, w: World, x: Worker, step: Step)
    requires LastReply(x) && AskedFor(x) && Works(w, x, step)
    ensures LastReply(Work(cfg, w, x, step)) && AskedFor(Work(cfg, w, x, step))
  {
  }

  /** What is asked is asked for the message past the gate. */
  ghost predicate AskedFor(x: Worker) {
    x.vehicle.phase.Gated? ==> x.asked.Some? && x.asked.value.message == x.vehicle.phase.message
  }

  lemma CompletedKeeps(cfg: Settings, w: World, x: Worker, step: Step)
    requires CompletedOut(x) && AskedFor(x) && Works(w, x, step)
    ensures CompletedOut(Work(cfg, w, x, step)) && AskedFor(Work(cfg, w, x, step))
  {
    var y := Work(cfg, w, x, step);
    LastReplyKeeps(cfg, w, x, step);
    WorkOnlyAdds(cfg, w, x, step);
    forall m {:trigger m in y.vehicle.completed} | m in y.vehicle.completed
      ensures exists i :: AnsweredAndOut(y, m, i)
    {
      StepRecords(cfg.window, x.vehicle, step, m);
      if m !in x.vehicle.completed {
        assert AnsweredAndOut(x, m, |x.replies| - 1);
      }
      OutStays(x, y, m);
    }
  }

  /**
   * At least once, end to end: in every run, a message that has completed was answered by the service, and if
   * the answer was a match, that very match is durable under the message's revision.
   */
  lemma {:induction false} CompletedIsEmitted(cfg: Settings, w: World, steps: seq<Step>)
    requires RunOf(cfg, w, steps).Some?
    ensures CompletedOut(RunOf(cfg, w, steps).value) && AskedFor(RunOf(cfg, w, steps).value)
  {
    if steps != [] {
      CompletedIsEmitted(cfg, w, steps[..|steps| - 1]);
      CompletedKeeps(cfg, w, RunOf(cfg, w, steps[..|steps| - 1]).value, steps[|steps| - 1]);
    }
  }

  lemma CommittedIsSound(cfg: Settings, w: World, x: Worker)
    requires WorkInv(cfg, w, x) && Committed(x).Some?
    ensures Sound(w, Committed(x).value)
  {
    assert Right(cfg, w, x.replies[x.vehicle.trip.value.solution.id]);
  }

  /** On one network, whether it resumes or not, a question is answered as a restart from its history. */
  lemma AskedIsARestart(w: World, q: Question)
    requires w.Valid() && (q.trip.Some? ==> Sound(w, q.trip.value))
    ensures Ask(w, q) == Serve(w, FRESH, q.history)
    ensures Ask(w, q).Matched? ==> Sound(w, Ask(w, q).trip)
  {
    if q.trip.Some? && Overlap(q.trip.value.origins, q.history) > 0 {
      HomeResumeIsAdopted(w, q.trip.value, q.history, Overlap(q.trip.value.origins, q.history));
    }
    FreshIsServed(w, q.history);
    var u := PushAll(w, FRESH, q.history);
    if Answered(w, u).Matched? { ReplyKeepsSound(w, u); }
  }

  lemma GateKeeps(cfg: Settings, w: World, x: Worker, steps: seq<Step>)
    requires cfg.window > 0 && WorkInv(cfg, w, x) && Orchestrator.Run(cfg.window, steps) == Some(x.vehicle) && Works(w, x, Gate)
    ensures WorkInv(cfg, w, Work(cfg, w, x, Gate))
  {
    if Apply(cfg.window, x.vehicle, Gate).phase.Gated? {
      EveryContextIsLinked(cfg, steps);
      if Committed(x).Some? { CommittedIsSound(cfg, w, x); }
    }
  }

  lemma SolveKeeps(cfg: Settings, w: World, x: Worker, step: Step)
    requires w.Valid() && WorkInv(cfg, w, x) && step.Solve? && Works(w, x, step)
    ensures WorkInv(cfg, w, Work(cfg, w, x, step))
  {
    AskedIsARestart(w, x.asked.value);
    var y := Work(cfg, w, x, step);
    assert Right(cfg, w, y.replies[|x.replies|]);
  }

  /** A publication names what the phase names. */
  lemma PublishKeeps(cfg: Settings, w: World, x: Worker, step: Step)
    requires WorkInv(cfg, w, x) && (step.Publish? || step.PublishUnseen? || step.Commit?) && Works(w, x, step)
    ensures WorkInv(cfg, w, Work(cfg, w, x, step))
  {
  }

  lemma OthersKeep(cfg: Settings, w: World, x: Worker, step: Step)
    requires WorkInv(cfg, w, x) && !step.Gate? && !step.Solve? && Works(w, x, step)
    requires !step.Publish? && !step.PublishUnseen? && !step.Commit?
    ensures WorkInv(cfg, w, Work(cfg, w, x, step))
  {
    var y := Work(cfg, w, x, step);
    assert y.replies == x.replies && y.asked == x.asked && y.vehicle.emissions == x.vehicle.emissions;
  }

  lemma {:induction false} RunsKeepWork(cfg: Settings, w: World, steps: seq<Step>)
    requires cfg.window > 0 && w.Valid() && RunOf(cfg, w, steps).Some?
    ensures WorkInv(cfg, w, RunOf(cfg, w, steps).value)
  {
    if steps != [] {
      var before, step := steps[..|steps| - 1], steps[|steps| - 1];
      RunsKeepWork(cfg, w, before);
      var x := RunOf(cfg, w, before).value;
      RunsTheVehicle(cfg, w, before);
      match step
      case Gate => GateKeeps(cfg, w, x, before);
      case Solve(_) => SolveKeeps(cfg, w, x, step);
      case Publish => PublishKeeps(cfg, w, x, step);
      case PublishUnseen => PublishKeeps(cfg, w, x, step);
      case Commit => PublishKeeps(cfg, w, x, step);
      case _ => OthersKeep(cfg, w, x, step);
    }
  }

  /**
   * In every run of a worker with one network, through crashes, failures, evictions and redelivery: each
   * reply of the service, resumed or not, is the reply to a restart from the question's history; that
   * history is plausible and ends at the event; and every emission that became durable names such a reply,
   * made for the message whose revision it bears.
   */
  lemma EveryReplyIsARestart(cfg: Settings, w: World, steps: seq<Step>)
    requires cfg.window > 0 && w.Valid() && RunOf(cfg, w, steps).Some?
    ensures var x := RunOf(cfg, w, steps).value;
      && (forall i {:trigger x.replies[i]} :: 0 <= i < |x.replies| ==>
            x.replies[i].reply == Serve(w, FRESH, x.replies[i].history) && Plausible(cfg, x.replies[i].history, x.replies[i].message))
      && (forall e {:trigger e in x.vehicle.emissions} :: e in x.vehicle.emissions ==>
            0 <= e.solution.id < |x.replies| && x.replies[e.solution.id].reply.Matched?
            && x.replies[e.solution.id].message.sequence == e.revision)
  {
    RunsKeepWork(cfg, w, steps);
    var x := RunOf(cfg, w, steps).value;
    forall i {:trigger x.replies[i]} | 0 <= i < |x.replies|
      ensures Right(cfg, w, x.replies[i])
    {
    }
  }

  /** The worker never waits on a question the service cannot take: a gated event can always be solved. */
  lemma GatedCanBeSolved(cfg: Settings, w: World, steps: seq<Step>)
    requires cfg.window > 0 && w.Valid() && RunOf(cfg, w, steps).Some? && RunOf(cfg, w, steps).value.vehicle.phase.Gated?
    ensures exists step: Step :: step.Solve? && Works(w, RunOf(cfg, w, steps).value, step)
  {
    RunsKeepWork(cfg, w, steps);
    var x := RunOf(cfg, w, steps).value;
    var reply := Named(x, Ask(w, x.asked.value));
    assert Works(w, x, Orchestrator.Solve(reply));
  }
}
