# Map matching, verified

A Dafny model of a map-matching system: a vehicle's positions become layers of road candidates, a
layered trellis of transition and emission costs is solved for the cheapest path, and a streaming
service keeps such trips going across restarts, crashes and redelivery. `dafny verify dfyconfig.toml`
checks all of it.

The modules follow the system from the bottom up.

* **Trellis and solvers.** `TrellisGraph` is the value with its invariant, `TrellisCells` the object
  whose methods mutate it, `TrellisPaths` what a path costs. `Viterbi` specifies the dynamic programme
  and proves its answer optimal and least in tie order; `ViterbiSolver` is the in-place 32-bit
  implementation; `BruteForce` is the odometer it agrees with. `Convergence` proves that the reported
  prefix is final under every growth; `ConvergenceCut` says exactly when cutting behind it is
  seamless, and `RepeatedCuts` what a trip cut after every reply adds up to; `GrowingAlike` says exactly
  when two trellises cannot be told apart by growing them; `FrontierCollapse` is the fewest-breaks report
  of a trellis that does not solve.
* **Trips.** `Weighing` fills boundaries, `Selection` compares the selective weigher with the
  exhaustive one, `Trips` is the state object, `Matching` its specification and what every operation
  keeps, also for trips of another network, `TripRuns` the theorems over whole runs, `Matcher` the
  object-level operations, `Continuation` reconciling and serving. `WeighedCosts` and `ServedReplies` say
  what a solved trip and a reply are in terms of the network's own emissions, routes and prices alone.
  `ForeignTrips` and `ProbingNetworks` say exactly when a trip of another network is served as a restart
  would be.
* **Routing.** `RoutingCost`, `Dijkstra`, `LeastOffers` and `UniformDijkstra` hold the settle-order and
  shortest-path arguments, `OfferedRoads` which roads each cost stands for, `Reachability` the iterator
  object, `PredicateMap` the bounded map, `Routes` the parent walk, `PredicateCache` the shared caches
  under any interleaving and eviction, `SearchPlan` the bounded search as those caches run it,
  `RuntimeMixing` what several runtimes get from one cache, and `WeightSets` the sets of road weights the
  search is exact for.
* **Realtime.** `Orchestrator` is the worker protocol as a state machine with crashes, lost
  acknowledgements, evictions and redelivery; `Context` assembles the positions a solve is asked for, and
  `ContextRuns` says what holds of them in every run; `Lanes` is what a warm lane holds;
  `ArchiveResolution` is the same worker over an archive that keeps coarser times, and `CoarseContexts`
  the positions it asks for then; `WorkerRuns` joins the worker to the matching service; `Observations`
  and `TimeOrder` are what both speak of; `Placement` is the stable hashing and rendezvous placement.
* **Geometry.** `Cluster` is density clustering, `Halving`, `QuadTree`, `Geohashes` and `GeohashText`
  the shard cells, their neighbours and their names.

Integers that the system keeps in 32 bits have the subset type `u32`, so that storing a sum is an
obligation that it does not overflow; `u64` hashing is on 64-bit vectors with wrap-around. Coordinates
are exact reals. The candidate generator, the road route between two candidates, the price of a
transition and the distance between points are parameters.

## Findings

Where a promise does not hold as the code stands, a concrete input shows it and a theorem gives the
condition under which it does.

* Cutting a trip behind its convergence layer keeps every node of that layer, so the cut trip may
  later answer through another node than the one already emitted (`CutCanMoveItsSeam`). For one growth
  the seam holds if and only if the cut answer starts at the converged node
  (`CutContinuesIffItMeets`). For every growth it holds if and only if each final node the cut trellis
  reaches within what the frozen prefix leaves below infinity is reached from the converged node
  (`SeamlessForeverIffSettled`), which a caller can read off the two tables.
* A trellis whose present edges connect it can still be unreachable, because accumulated cost reaches
  the in-band infinity, and is then reported disconnected with no break
  (`UnreachableWithoutBreaks`, `BreaksAgreeWithSolver`).
* Pushing an empty layer onto a building trip loses its trellis; on any other trip it changes nothing
  (`RefusalIsAtomicIffNotBuilding`). The matcher never offers one.
* A cache hit does not check the runtime (`ForeignQueryAnsweredIffCached`), so a runtime can be handed
  another's predicate map, with nodes it cannot come near (`ForeignHitMisleads`, `OneRoadMisleads`).
  Every answer of every run is the asking runtime's own if and only if the runtimes that share the
  cache search alike from every node (`NeverMisleadsIffAlike`).
* With a context window of zero the lane holds nothing and the gate lets completed events through
  (`WindowlessGateLetsThrough`, `GateIsIdempotentIffWindowed`).
* Events carry nanoseconds and the archive keeps microseconds. A completed event whose time has a finer
  part is let through the gate again after a crash (`FinerEventPassesAgain`); one whose time is whole
  never is, in any run, whatever else it delivers (`IdempotentIffWhole`, an if and only if).
* For the same reason a lane warmed back after a crash can hold two places at one time, and
  deduplication then leaves two consecutive positions further apart than the jump limit. One time with
  a finer part is enough, and a run of the worker gets there (`BrokenLink`). When all other times are
  whole, every context of every run is linked, whatever the settings, if and only if that time is whole
  too or the window is at most two (`LinkedIffKept`).
* A foreign trip whose candidates all lie on this network is adopted with the costs it was built at, so
  the reply can differ from a restart's (`SupportedCanDiffer`). With its candidates placed alike here, it
  is replied to as a restart whatever comes next if and only if each of its final nodes, once weighed
  here, is out of play in its trellis and in the restart's, or reached in both at the same cost by the
  same route (`ServedAlikeIffFinalsAlike`, over every network that sees the trip as this one does; on
  the trellises themselves, `AlwaysAlikeIffFinalsAlike`). The trip is sound here if and only if the two
  networks agree on its observations and resolved boundaries (`ForeignIsSoundIffAgreed`); a trip that is
  downgraded always answers as a restart does.
* Geohash parsing compares only a character's low byte and takes the precision from the byte length,
  so some non-ASCII texts are read (`DottedCapitalIReadsAsZeros`, `PrintInvertsParseIffAscii`).
* The routing cost is not monotone under addition, and the bounded search can miss a node nearer than
  the reach (`LighterRoadCheapens`, `SearchCanMissANearNode`). Over a set of weights that fit 32 bits,
  each holds if and only if the set has one weight (`NeverCheapensIffOneWeight`,
  `FindsAllIffOneWeight`). That every route found is valid and within the reach holds for any weights.
* The comment on `path_cost` speaks of saturating at the solver's infinity; the code saturates at the
  32-bit maximum, and so does `PathCost`.

## Model

| member | source | states |
|---|---|---|
| `TrellisGraph.CutNodeWeight` | libs/routers_trellis/src/trellis.rs:358-382 | cutting leading layers keeps every surviving node weight, shifted by the cut |
| `TrellisGraph.CutEdgeWeight` | libs/routers_trellis/src/trellis.rs:358-382 | cutting leading layers keeps every surviving edge, pending or resolved, shifted by the cut |
| `TrellisGraph.CutIsValid` | libs/routers_trellis/src/trellis.rs:377-382 | a suffix is a valid trellis again, and resolved if the whole was |
| `TrellisGraph.PartitionIsValid` | libs/routers_trellis/src/trellis.rs:358-375 | a partition of a legal range is a valid trellis of as many layers, the first ones of the suffix that starts with it |
| `TrellisGraph.PartitionNodeWeight` | libs/routers_trellis/src/trellis.rs:358-375 | a partition keeps every node weight of its layers, shifted by its start |
| `TrellisGraph.PartitionEdgeWeight` | libs/routers_trellis/src/trellis.rs:358-375 | a partition keeps every interior edge of its layers, shifted by its start |
| `TrellisGraph.LastIsAPartition` | libs/routers_trellis/src/trellis.rs:377-382 | the last layers are the partition up to the end, clamped, and asking for none is the empty range's error |
| `TrellisGraph.CutOfExtension` | libs/routers_trellis/src/trellis.rs:358-382 | cutting commutes with growing: the cut of a grown trellis is the grown cut, with the very same appended layers |
| `TrellisGraph.AppendIsValid` | libs/routers_trellis/src/trellis.rs:232-243 | a new layer keeps the invariant and leaves everything already there as it was |
| `TrellisGraph.WithNodesWeights` | libs/routers_trellis/src/trellis.rs:302-317 | replacing one layer's node weights changes what that layer's nodes weigh and nothing else |
| `TrellisGraph.AppendThenFill` | libs/routers_transition/src/matcher/trip.rs:160-186 | adding a blank layer and then filling it is appending the filled layer |
| `TrellisCells.TrellisCell.AddLayer` | libs/routers_trellis/src/trellis.rs:232-243 | zero width is refused with the trellis unchanged; otherwise a layer of zero weights behind a pending boundary |
| `TrellisCells.TrellisCell.FillNodes` | libs/routers_trellis/src/trellis.rs:302-317 | which error for which input in the source's order, unchanged on error, the layer replaced on success; the invariant kept |
| `TrellisCells.TrellisCell.FillTransition` | libs/routers_trellis/src/trellis.rs:259-288 | which error for which input in the source's order, unchanged on error; on success the boundary holds the rows with absent edges stored as infinity |
| `TrellisCells.TrellisCell.SetEdge` | libs/routers_trellis/src/trellis.rs:191-227 | an edge reads back as written, resolving a pending boundary if need be; every other edge reads as before; errors change nothing |
| `TrellisCells.TrellisCell.MarkPending` | libs/routers_trellis/src/trellis.rs:149-156 | only the named boundary becomes pending; out of range is refused |
| `TrellisCells.FirstTooLarge` | libs/routers_trellis/src/trellis.rs:272-280 | the entry a bulk fill names in its error is the first above the ceiling that is not the absent-edge marker |
| `TrellisCells.FirstAboveCeiling` | libs/routers_trellis/src/trellis.rs:308-313 | the node weight named in the error is the first above the ceiling |
| `TrellisPaths.CostExtends` | libs/routers_trellis/src/trellis.rs:339-353 | one more node adds exactly its edge and its node weight |
| `TrellisPaths.CostSplits` | libs/routers_trellis/src/trellis.rs:339-382 | a path's cost splits at any layer into prefix and suffix-trellis costs, the shared node being paid on both sides |
| `TrellisPaths.ExtensionCost` | libs/routers_trellis/src/trellis.rs:232-243 | appended layers change no cost of a walk already there |
| `TrellisPaths.PathCost` | libs/routers_trellis/src/trellis.rs:339-353 | the saturating loop returns the exact cost capped at the 32-bit maximum |
| `Viterbi.DistIsLowerBound` | libs/routers_trellis/src/solver/viterbi.rs:61-95 | no finite walk of any length beats the table entry of the node it ends at |
| `Viterbi.BackCost` | libs/routers_trellis/src/solver/viterbi.rs:105-162 | the backtracked walk of a live node costs exactly its table entry |
| `Viterbi.LiveStep` | libs/routers_trellis/src/solver/viterbi.rs:97-120 | a live node's predecessor is live, and the table entry is exactly what coming through it costs |
| `Viterbi.TieStep` | libs/routers_trellis/src/solver/viterbi.rs:105-120 | a cheapest walk arrives by a cheapest walk, through no node below the chosen predecessor |
| `Viterbi.BackIsLeast` | libs/routers_trellis/src/solver/viterbi.rs:105-162 | among the cheapest walks to a live node, backtracking takes the least read from the last layer backwards |
| `Viterbi.SolvableIffFinitePath` | libs/routers_trellis/src/solver/viterbi.rs:124-145 | a resolved trellis is solvable if and only if some path costs less than infinity |
| `Viterbi.AnswerIsOptimal` | libs/routers_trellis/src/solver/viterbi.rs:61-162 | the answer names one node per layer, costs what it reports, costs no more than any path, and is the least optimal path read backwards |
| `Viterbi.ChampionIsUnique` | libs/routers_trellis/src/solver/viterbi.rs:124-162 | that path is unique, so the answer is determined by the costs alone |
| `Viterbi.AnswerIsChampion` | libs/routers_trellis/src/solver/viterbi.rs:124-162 | the answer is the least optimal path read backwards |
| `ViterbiSolver.RelaxRow` | libs/routers_trellis/src/solver/viterbi.rs:70-87 | relaxing one source row lowers every target to the best over the sources so far; every sum fits 32 bits |
| `ViterbiSolver.CrossInto` | libs/routers_trellis/src/solver/viterbi.rs:61-95 | one boundary turns a correct table of the layers before into a correct table one layer longer |
| `ViterbiSolver.PayNodes` | libs/routers_trellis/src/solver/viterbi.rs:88-94 | node weights are paid once, by reached nodes only |
| `ViterbiSolver.ForwardPass` | libs/routers_trellis/src/solver/viterbi.rs:61-95 | the in-place pass fills the flat table with the specified distances, with no 32-bit overflow in any run |
| `ViterbiSolver.Trace` | libs/routers_trellis/src/solver/viterbi.rs:146-160 | following predecessors from a final node gives its specified route |
| `ViterbiSolver.Backtrack` | libs/routers_trellis/src/solver/viterbi.rs:124-162 | unreachable if and only if no final node is below infinity; otherwise the specified answer |
| `ViterbiSolver.Solve` | libs/routers_trellis/src/solver/viterbi.rs:206-264 | refuses the first pending boundary, else answers the optimum or reports unreachable, matching the specification exactly |
| `ViterbiSolver.FirstPendingFrom` | libs/routers_trellis/src/trellis.rs:140-145 | the boundary reported is pending and everything before it is resolved |
| `BruteForce.TickRank` | libs/routers_trellis/src/solver/brute.rs:58-73 | one carry step of the odometer advances the mixed-radix rank by exactly one |
| `BruteForce.TickSkipsNothing` | libs/routers_trellis/src/solver/brute.rs:58-73 | a tick skips no combination |
| `BruteForce.Advance` | libs/routers_trellis/src/solver/brute.rs:58-73 | the carry loop is that tick, or reports a carry exactly when every digit was at its top, leaving all zero |
| `BruteForce.Enumerate` | libs/routers_trellis/src/solver/brute.rs:41-78 | after the loop the best cost and nodes are the first minimum over every path |
| `BruteForce.ExhaustiveIsViterbi` | libs/routers_trellis/src/solver/brute.rs:31-85 | an exhaustive minimum is below infinity if and only if Viterbi solves, at the same cost |
| `BruteForce.Solve` | libs/routers_trellis/src/solver/brute.rs:31-85 | brute force agrees with Viterbi on pending, unreachable and cost; its path is the optimal one least read forwards |
| `Convergence.FusedStaysFused` | libs/routers_trellis/src/solver/viterbi.rs:164-202 | routes that share a node at a layer agree on every earlier layer |
| `Convergence.ExtensionBack` | libs/routers_trellis/src/solver/viterbi.rs:221-238 | appending layers changes neither the table nor the routes of the layers already there |
| `Convergence.GrownRouteFollows` | libs/routers_trellis/src/solver/viterbi.rs:221-238 | every live route of a grown trellis passes through the fused node and follows the fused prefix |
| `Convergence.ConvergedPrefixIsFinal` | libs/routers_trellis/src/solver/viterbi.rs:221-247 | for any growth that stays solvable, the nodes chosen at or before the reported layer never change and the reported layer never moves back |
| `Convergence.FrontierFuses` | libs/routers_trellis/src/solver/viterbi.rs:170-202 | one frontier node is the same as all live routes sharing that layer's node |
| `Convergence.FrontierSteps` | libs/routers_trellis/src/solver/viterbi.rs:187-200 | stepping the frontier to its predecessors gives the frontier one layer down |
| `Convergence.ConvergedLayer` | libs/routers_trellis/src/solver/viterbi.rs:170-202 | the loop reports the latest layer where all live routes share a node, and none exactly when there is none |
| `Convergence.Query` | libs/routers_trellis/src/solver/viterbi.rs:239-247 | fails exactly as a solve fails, otherwise reports that layer |
| `ConvergenceCut.CutStaysSolvable` | libs/routers_realtime/bin/matcher.rs:196-207 | cutting leading layers never makes a solvable trellis unsolvable, however many layers were appended |
| `ConvergenceCut.MeetingMeansContinuing` | libs/routers_realtime/bin/matcher.rs:196-207 | if the cut answer starts at the node the uncut answer has there, it is exactly the rest of the uncut answer |
| `ConvergenceCut.CutContinuesIffItMeets` | libs/routers_realtime/bin/matcher.rs:196-207 | for any growth: the cut answer continues the uncut one if and only if it starts at the converged node, and then frozen prefix joined to it is the uncut optimum |
| `ConvergenceCut.SeamlessForeverIffSettled` | libs/routers_realtime/bin/matcher.rs:196-207 | every growth that still solves continues seamlessly if and only if each final node the cut trellis reaches within what the frozen prefix leaves below infinity is reached from the converged node |
| `ConvergenceCut.SettledCutIsSeamless` | libs/routers_realtime/bin/matcher.rs:196-207 | that condition, read off the two tables, is enough for any growth |
| `ConvergenceCut.UnsettledCutBreaks` | libs/routers_realtime/bin/matcher.rs:196-207 | otherwise one appended layer of two nodes, constructed, still solves and moves the seam, also through a node that is dead in the uncut trellis |
| `ConvergenceCut.CutCanMoveItsSeam` | libs/routers_realtime/bin/matcher.rs:200-204 | a concrete trellis whose cut answers through another node than the one already emitted |
| `FrontierCollapse.Collapse` | libs/routers_transition/src/weigh/mod.rs:184-216 | the sweep returns the specified break list |
| `FrontierCollapse.SweepProgresses` | libs/routers_transition/src/weigh/mod.rs:184-216 | at every layer the breaks so far are attained at the frontier and no walk has fewer |
| `FrontierCollapse.BreaksAreFewest` | libs/routers_transition/src/weigh/mod.rs:184-216 | the breaks ascend, split the layers into runs crossed by present edges, and no smaller set of boundaries does |
| `FrontierCollapse.BreaksAgreeWithSolver` | libs/routers_transition/src/matcher/entity.rs:228-240 | solvable means no breaks; unreachable reports none if and only if some path of present edges reaches infinity by its own weights |
| `FrontierCollapse.UnreachableWithoutBreaks` | libs/routers_transition/src/matcher/entity.rs:228-240 | a fully connected trellis that is unreachable with an empty break list |
| `Weighing.MatrixAt` | libs/routers_transition/src/weigh/mod.rs:119-143 | entry (source, target) of the row-major matrix is the price of the route between the two, capped at the ceiling, when the target is selected, routed and priced; otherwise the absent-edge marker |
| `Weighing.WeighSource` | libs/routers_transition/src/weigh/mod.rs:91-112 | a row holds for each target the capped price of its route when it is selected, routed and priced, and the absent-edge marker otherwise |
| `Weighing.WeighBoundary` | libs/routers_transition/src/weigh/mod.rs:119-143 | a boundary's matrix stacks its sources' rows in order |
| `Weighing.Weigh` | libs/routers_transition/src/weigh/mod.rs:151-181 | exactly the pending boundaries whose matrix holds an edge become resolved with it; resolved ones, widths and node weights are untouched |
| `WeighedCosts.EdgeIsThePrice` | libs/routers_transition/src/weigh/mod.rs:69-143 | an edge of a weighed trellis is the network's own price of the routed pair, capped at the ceiling, when the target is selected and priced, and infinity otherwise |
| `WeighedCosts.PendingIffUnbridged` | libs/routers_transition/src/weigh/mod.rs:151-181 | a boundary stays pending if and only if no pair across it is selected, routed and priced |
| `WeighedCosts.NodeIsTheEmission` | libs/routers_transition/src/matcher/trip.rs:176-183 | in every sound trip a node weighs its own candidate's emission, capped at the ceiling |
| `WeighedCosts.WalkCostsItsOutlay` | libs/routers_transition/src/matcher/entity.rs:200-246 | a choice of candidates costs the sum of its emissions and prices, by the network alone, and infinity at least when a hop is not priced |
| `WeighedCosts.SolvedTripIsCheapest` | libs/routers_transition/src/matcher/entity.rs:200-246 | a solved trip holds a choice of a candidate for every observation at the cost it reports, and no other choice has a smaller outlay |
| `WeighedCosts.SolvesIffAffordable` | libs/routers_transition/src/matcher/entity.rs:200-246 | a sound trip solves if and only if some choice of candidates has an outlay below infinity |
| `WeighedCosts.UnbridgedAreReported` | libs/routers_transition/src/matcher/entity.rs:220-226 | when nothing bridges some boundary the solve fails, and the breaks are at the unbridged boundaries, all of them, in order, each naming the layer after it and the points observed on its two sides |
| `Selection.BoundaryDominates` | libs/routers_transition/src/weigh/selective.rs:72-91 | selecting fewer targets only loses edges, never cheapens one |
| `Selection.ExhaustiveIsNoDearer` | libs/routers_transition/src/weigh/all_compute.rs:58-65 | whenever the selective trellis solves, the exhaustive one solves at no greater cost |
| `Selection.WideFanoutIsExhaustive` | libs/routers_transition/src/weigh/selective.rs:72-91 | with a fan-out of at least every layer's width the two weighers build the same trellis |
| `Trips.RefusalIsAtomicIffNotBuilding` | libs/routers_transition/src/matcher/trip.rs:153-190 | an empty layer is refused, and leaves the trip unchanged if and only if it was not building |
| `Trips.Grow` | libs/routers_transition/src/matcher/trip.rs:160-186 | the first or the appended layer, each of its nodes weighing its own candidate's emission, capped at the ceiling, or the zero-width error |
| `Trips.Trip.Push` | libs/routers_transition/src/matcher/trip.rs:153-190 | the whole new trip value and result, on the refusing path too; on success the last layer weighs the candidates' own emissions, capped |
| `Trips.Trip.KeepTail` | libs/routers_transition/src/matcher/trip.rs:122-148 | the whole trip value after windowing: nothing, everything, or the last layers reopened and restamped |
| `Trips.Trip.TakeState` | libs/routers_transition/src/matcher/trip.rs:194-196 | takes the state out and leaves none |
| `Trips.Trip.Restore` | libs/routers_transition/src/matcher/trip.rs:198-200 | puts a state back |
| `TripRuns.TailStoreIsStore` | libs/routers_transition/src/candidate/store.rs:31-43 | the cut and renumbered store is exactly the store the surviving observations alone would have given |
| `Matching.PushKeepsSound` | libs/routers_transition/src/matcher/entity.rs:143-158 | an anchored observation becomes the next layer; origins, store and trellis stay aligned and stamped |
| `Matching.PushAllKeepsSound` | libs/routers_transition/src/matcher/entity.rs:166-193 | pushing any list keeps soundness and appends exactly the observations that anchor |
| `Matching.UnplacedIffUnanchored` | libs/routers_transition/src/matcher/entity.rs:166-185 | a batch is refused if and only if some observation does not anchor |
| `Matching.UnplacedAreTheUnanchored` | libs/routers_transition/src/matcher/entity.rs:166-185 | the error lists exactly the observations that do not anchor, each with its point and the layer it would have taken, in order |
| `Matching.WeighIsWeighed` | libs/routers_transition/src/weigh/mod.rs:151-181 | weighing what is pending gives the one fully weighed trellis of the observations |
| `Matching.WeighedIsUnique` | libs/routers_transition/src/weigh/mod.rs:151-181 | only one trellis is fully weighed for given observations |
| `Matching.SolveKeepsSound` | libs/routers_transition/src/matcher/entity.rs:200-246 | after a solve, failed or not, the trip is sound with the same observations; a success leaves the optimal path in it |
| `Matching.SolveForgetsHistory` | libs/routers_transition/src/matcher/entity.rs:200-246 | a sound trip solves, or fails with the same breaks, to the same trip as one fresh batch of its observations |
| `Matching.DisconnectionsAreThePending` | libs/routers_trellis/src/trellis.rs:167-174 | the disconnections are exactly the pending boundaries, each once, ascending |
| `Matching.BreaksAreTheGaps` | libs/routers_transition/src/matcher/entity.rs:220-246 | solving a trellis succeeds exactly when it is solvable; otherwise the breaks ascend, each naming its boundary, the layer after it and the points observed on the two; they are at all the pending boundaries, or when there are none at the fewest that split the layers |
| `Matching.SoundIsSupported` | libs/routers_transition/src/matcher/entity.rs:253-258 | a network supports every trip of its own |
| `Matching.ForeignIsSoundIffAgreed` | libs/routers_transition/src/matcher/entity.rs:248-258 | a trip another network built is sound in this one if and only if both generate alike at its observations and weigh alike its resolved boundaries |
| `TripRuns.TailKeepsSound` | libs/routers_transition/src/matcher/trip.rs:122-148 | windowing keeps soundness and exactly the newest observations |
| `Trips.TailKeepsIntact` | libs/routers_transition/src/matcher/trip.rs:122-148 | whichever network built a trip, windowing leaves store and trellis aligned, the stamps positional and no stale certificate |
| `Matching.SolveKeepsIntact` | libs/routers_transition/src/matcher/entity.rs:200-246 | whichever network built a trip, a solve here keeps that, and a success leaves the optimal path of the trellis it holds |
| `TripRuns.ApplyKeepsSound` | libs/routers_transition/src/matcher/entity.rs:143-299 | every operation, successful or failed, keeps alignment, stamps, clamped weights and the optimality of a held solution |
| `TripRuns.Run` | libs/routers_transition/src/matcher/entity.rs:143-299 | every run of operations from a fresh trip ends sound |
| `TripRuns.RunsAreHistoryIndependent` | libs/routers_transition/src/matcher/entity.rs:143-246 | whatever run led to it, a trip solves as one batch of what it still holds |
| `TripRuns.StreamingEqualsBatch` | libs/routers_transition/src/matcher/entity.rs:143-246 | for observations that anchor, any interleaving of pushes, solves and snapshots ends with the trip, path, cost or break list of one batch |
| `TripRuns.ResolvedBoundariesStand` | libs/routers_transition/src/weigh/mod.rs:151-181 | a resolved boundary is changed by nothing but a cut |
| `Matcher.PushOrigin` | libs/routers_transition/src/matcher/entity.rs:143-158 | for a trip of any network: an observation that does not anchor is refused with its point and layer and changes nothing; any other is the next layer; one of this network stays sound |
| `Matcher.ExtendTrip` | libs/routers_transition/src/matcher/entity.rs:166-193 | succeeds exactly when all observations anchor, which are then appended; a refused batch names exactly those that do not, with their layers, and leaves the trip unchanged |
| `Matcher.ConcludeTrip` | libs/routers_transition/src/matcher/entity.rs:222-244 | pending boundaries, then the solver, then the break list decide the new state and result; every pending boundary is named, and no other while one is pending |
| `Matcher.SolveTrip` | libs/routers_transition/src/matcher/entity.rs:200-246 | for a trip of any network, the trip object and result after a solve are the specified ones, the state put back on every path |
| `Matcher.Snapshot` | libs/routers_transition/src/matcher/entity.rs:283-358 | for a trip of any network, succeeds exactly when the solve does, with the chosen candidate of each layer and the cost of that path; for one of this network, hop i joins chosen candidate i to i + 1 by the road route between them |
| `Matcher.ChosenHopIsReachable` | libs/routers_transition/src/matcher/entity.rs:337-358 | every hop of a solved path is routable again when the geometry is re-derived |
| `Matcher.HopsAreComplete` | libs/routers_transition/src/matcher/entity.rs:337-358 | a solved trip's re-derived geometry has one hop per adjacent pair of layers, each the very route that weighing priced |
| `Matcher.HopsAreTheRoutes` | libs/routers_transition/src/matcher/entity.rs:337-351 | for a trip of any network: every hop re-derived is the route between two neighbours of the path, and none that has a route is left out |
| `Matcher.ReadDisconnections` | libs/routers_trellis/src/trellis.rs:167-174 | exactly the pending boundaries, ascending |
| `Continuation.OverlapIsLongest` | libs/routers_transition/src/matcher/continuation.rs:32-57 | no longer suffix of the trip is a prefix of the history |
| `Continuation.Reconcile` | libs/routers_transition/src/matcher/continuation.rs:32-57 | resumes exactly when there is an overlap; then the trip's observations followed by the fresh ones are the history |
| `Continuation.PushingEqualsRestarting` | libs/routers_transition/src/matcher/continuation.rs:32-57 | pushing the fresh observations and solving equals starting over from the history |
| `Continuation.ResumeEqualsRestart` | libs/routers_transition/src/matcher/continuation.rs:32-57 | reconciling, pushing and solving equals restarting from the history, whatever the trip had been through |
| `Continuation.ServiceIsPathIndependent` | libs/routers_realtime/bin/matcher.rs:120-213 | for a trip solved on any network: adopted or downgraded, the reply is that of a restart from the history, but for the flag that tells the two apart; nothing is asked of a trip that is downgraded, and of an adopted one that the networks agree on it |
| `Continuation.HomeResumeIsAdopted` | libs/routers_realtime/bin/matcher.rs:120-213 | on its own network a resume is always adopted, and the reply is exactly that of a restart |
| `Continuation.ServeIsRestart` | libs/routers_realtime/bin/matcher.rs:120-157 | serving equals restarting over the trip's own observations and the fresh ones |
| `Continuation.SupportedCanDiffer` | libs/routers_realtime/bin/matcher.rs:120-136 | a foreign trip whose candidates are all known is adopted at the costs it was built at, and the service's reply to it is at another cost than its reply to a restart from the same observations |
| `Continuation.ReplyKeepsSound` | libs/routers_realtime/bin/matcher.rs:196-213 | the trip handed back, cut behind convergence, is sound, so the next resume may rely on it |
| `Continuation.ServeTrip` | libs/routers_realtime/bin/matcher.rs:89-213 | for a trip of any network: the support check, downgrade, push loop, solve, snapshot and cut give the specified reply, and a trip as intact as it was; sound if it was or was downgraded |
| `ServedReplies.ReplyMeans` | libs/routers_realtime/bin/matcher.rs:89-213 | for a trip of this network or one that must be given up: there is a match if and only if some choice of candidates for the observations that anchor stays below infinity; the emission is of a cheapest one by the network's own emissions, routes and prices, with each hop's route and each observation's time; it is flagged if and only if some candidate of the trip is not on this network |
| `ServedReplies.AnswerMeans` | libs/routers_realtime/bin/matcher.rs:159-187 | so is the answer to any sound trip |
| `Continuation.CutTrip` | libs/routers_realtime/bin/matcher.rs:196-207 | the trip keeps exactly the layers from the convergence point on |
| `GrowingAlike.AlwaysAlikeIffFinalsAlike` | libs/routers_trellis/src/solver/viterbi.rs:61-162 | two trellises of the same widths, resolved or not: every growth by the same layers solves alike and answers alike, path and cost, if and only if each final node is open in neither, or in both at one distance by one route |
| `GrowingAlike.AlikeFinalsAnswerAlike` | libs/routers_trellis/src/solver/viterbi.rs:61-162 | alike final nodes are enough, for any number of layers of any weights |
| `GrowingAlike.ToldApart` | libs/routers_trellis/src/solver/viterbi.rs:61-162 | two final nodes that differ are told apart by one appended layer |
| `ForeignTrips.AdoptedAlikeForever` | libs/routers_realtime/bin/matcher.rs:120-213 | for a supported trip built at whatever costs, its candidates placed alike here: if its final nodes, weighed here, are the restart's, then whatever is observed next the service replies with the restart's emission and timestamps |
| `ForeignTrips.AdoptedAlikeNow` | libs/routers_realtime/bin/matcher.rs:120-213 | with nothing newer, the two replies are alike if and only if the two weighed trellises answer alike |
| `ProbingNetworks.ServedAlikeIffFinalsAlike` | libs/routers_realtime/bin/matcher.rs:120-213 | on every network that places and weighs what such a trip holds as this one does, and whatever is observed next, adopting it is replied to as restarting, if and only if each final node, weighed here, is open in neither its trellis nor the restart's, or in both at one distance by one route; the last layer's candidates being different positions |
| `ProbingNetworks.UnlikeFinalsServeUnlike` | libs/routers_realtime/bin/matcher.rs:120-213 | otherwise one such network and one observation give unlike replies |
| `RepeatedCuts.RepeatedCutsAreSeamless` | libs/routers_realtime/bin/matcher.rs:189-213 | by induction over replies: when every cut has settled, the pieces frozen by the replies joined to the answer of what is left are the least optimal path of the trellis that was never cut |
| `RepeatedCuts.ServedRound` | libs/routers_realtime/bin/matcher.rs:196-207 | a solved trip of its own network holds exactly the uncut layers of its observations' weighed trellis, answers as they do, and is cut where its routes have fused |
| `WeightSets.NeverCheapensIffOneWeight` | libs/routers_transition/src/primitives/weight_and_distance.rs:42-109 | over a set of weights whose squares fit 32 bits, going one road further never makes a route compare cheaper if and only if the set has one weight |
| `WeightSets.LighterRoadCheapens` | libs/routers_transition/src/primitives/weight_and_distance.rs:42-54 | after a heavier road, a lighter one of no length always makes the cost compare smaller |
| `RoutingCost.KeyIsExact` | libs/routers_transition/src/primitives/weight_and_distance.rs:42-54 | with one weight and a bound that fits 32 bits, comparing costs is comparing distances |
| `RoutingCost.ComparesBy` | libs/routers_transition/src/primitives/weight_and_distance.rs:42-54 | for any weights, a list of roads compares by the square of its average weight, truncated, times its whole length, capped at 32 bits |
| `Dijkstra.PoppedIsCurrent` | libs/routers_transition/src/primitives/algorithms/dijkstra.rs:78-93 | the cheapest heap entry of an unsettled node carries the cost recorded for it, stale entries notwithstanding |
| `Dijkstra.SettleKeepsInv` | libs/routers_transition/src/primitives/algorithms/dijkstra.rs:84-96 | settling keeps every node descended from an earlier settled one by an accessible road, for any weights |
| `Dijkstra.RelaxKeepsInv` | libs/routers_transition/src/primitives/algorithms/dijkstra.rs:96-116 | offering a road keeps it, though an offer may overwrite the entry of a settled node |
| `LeastOffers.RelaxKeepsLeast` | libs/routers_transition/src/primitives/algorithms/dijkstra.rs:96-116 | for any weights, after every offer no entry pays more than any road already offered to it |
| `LeastOffers.SettleKeepsLeast` | libs/routers_transition/src/primitives/algorithms/dijkstra.rs:78-96 | and a node settles at no more than anything settled before it offers |
| `OfferedRoads.EntryIsADrive` | libs/routers_transition/src/primitives/algorithms/dijkstra.rs:96-116 | for any weights, every entry stands for a contiguous drive from the root at exactly its cost, the last road out of its parent |
| `OfferedRoads.OfferLeaves` | libs/routers_transition/src/primitives/algorithms/dijkstra.rs:96-116 | which parent an offer leaves, for any weights: the settled node when the road's end has no entry or the drive through that node compares strictly less by truncated average weight squared times length; otherwise nothing changes |
| `OfferedRoads.SettlesAtTheLeast` | libs/routers_transition/src/primitives/algorithms/dijkstra.rs:78-116 | for any weights a node settles with the parent of a drive that compares no more than going on to it by any accessible road from any node settled before |
| `UniformDijkstra.RelaxKeepsFrozen` | libs/routers_transition/src/primitives/algorithms/dijkstra.rs:96-116 | with one weight no offer reopens a settled node |
| `UniformDijkstra.SettleKeepsUniform` | libs/routers_transition/src/primitives/algorithms/dijkstra.rs:78-124 | with one weight nodes settle in nondecreasing cost, and nothing waiting undercuts them |
| `Reachability.DijkstraReachable.constructor` | libs/routers_transition/src/primitives/algorithms/dijkstra.rs:135-159 | a search starts with the root alone on the heap at no cost |
| `Reachability.DijkstraReachable.Next` | libs/routers_transition/src/primitives/algorithms/dijkstra.rs:78-124 | yields one newly settled node and extends the settle order by it, or nothing exactly when the heap has run out |
| `Reachability.DijkstraReachable.Offer` | libs/routers_transition/src/primitives/algorithms/dijkstra.rs:96-116 | a new entry, a strictly cheaper overwrite, or nothing, costs comparing as the road lists they stand for |
| `PredicateMap.SettledFit` | libs/routers_transition/src/primitives/algorithms/dijkstra.rs:78-124 | no more nodes settle than the network has, so the search ends |
| `PredicateMap.Calculate` | libs/routers_transition/src/primitives/cache.rs:347-358 | the map holds exactly the settled prefix below the reach, each node with its parent |
| `Routes.ParentIsEarlier` | libs/routers_transition/src/weigh/expansion.rs:26-38 | for any weights, a mapped node other than the root has an earlier settled parent in the map, one accessible road away |
| `Routes.ParentPath` | libs/routers_transition/src/weigh/expansion.rs:26-38 | through any predicate map, computed or cached: the parent walk ends at the root and is a contiguous route of the leaf's distance, below the reach; none exactly when the leaf is neither the root nor mapped |
| `Routes.CollectedIsATree` | libs/routers_transition/src/primitives/cache.rs:347-358 | the collected map is a tree of accessible roads hanging off the root, each parent placed before its child, distances adding up, all below the reach |
| `Routes.RouteTo` | libs/routers_transition/src/primitives/algorithms/dijkstra.rs:78-124 | every settled node is reached by a road route of exactly its settled distance |
| `Routes.KeptAreShortest` | libs/routers_transition/src/primitives/cache.rs:347-358 | with one weight, kept nodes come in nondecreasing distance, each at its shortest distance |
| `Routes.MapIsExact` | libs/routers_transition/src/primitives/cache.rs:347-358 | with one weight, the map holds exactly the nodes some route reaches nearer than the reach |
| `Routes.Predicates` | libs/routers_transition/src/primitives/cache.rs:347-358 | for any weights the map is such a tree, with the root unless the reach is nothing; with one weight it holds every node nearer than the reach |
| `Routes.NoEdgeIsDropped` | libs/routers_transition/src/weigh/expansion.rs:88-96 | when the map finds an edge for every accessible road, looking a route's steps up leaves none out: edge i is the one the map has from node i to i + 1 |
| `Routes.RouteEdges` | libs/routers_transition/src/weigh/expansion.rs:80-97 | the edges of a route from root to leaf shorter than the reach, one per step; with one weight it exists exactly when some route does |
| `Routes.Route` | libs/routers_transition/src/weigh/expansion.rs:80-87 | a route from root to leaf shorter than the reach; with one weight it exists exactly when some route does and is the shortest |
| `PredicateCache.DirectIsUnique` | libs/routers_transition/src/primitives/cache.rs:332-358 | a search that sees the network only by asking has one answer |
| `PredicateCache.StepKeepsInv` | libs/routers_transition/src/primitives/cache.rs:115-124 | any access of any thread, and any eviction, keeps both caches true to the runtime first bound, and never rebinds |
| `PredicateCache.RunsKeepInv` | libs/routers_transition/src/primitives/cache.rs:115-124 | so does every interleaving of queries and evictions |
| `PredicateCache.CachedEqualsDirect` | libs/routers_transition/src/primitives/cache.rs:115-124 | under one runtime every reply of every run is the direct calculation for its key, with no panic |
| `SearchPlan.StagesAreOk` | libs/routers_transition/src/primitives/cache.rs:349-358 | however many roads it has asked for and heard, the search is where a search of that runtime's network would be |
| `SearchPlan.DirectReaches` | libs/routers_transition/src/primitives/cache.rs:349-358 | whatever the bounded search answers by asking is a predicate map of that runtime's roads: a tree off the key nearer than the reach, and with one weight no nearer node missing |
| `SearchPlan.SearchAnswers` | libs/routers_transition/src/primitives/cache.rs:349-358 | it asks no longer than there are places, so it always answers |
| `SearchPlan.CachedReaches` | libs/routers_transition/src/primitives/cache.rs:115-124 | so is every reply of the shared cache, in every interleaving with any evictions |
| `SearchPlan.CachedPath` | libs/routers_transition/src/weigh/expansion.rs:26-38 | so the parent walk through any cached reply ends at its root, a road route shorter than the reach |
| `WeightSets.FindsAllIffOneWeight` | libs/routers_transition/src/primitives/cache.rs:347-358 | over a set of weights that fit, the bounded search misses no node nearer than the reach, on any network, if and only if the set has one weight |
| `WeightSets.SearchCanMissANearNode` | libs/routers_transition/src/primitives/cache.rs:354-354 | a junction whose light, too far end is settled first and ends the search, so its near, heavy end is missing |
| `PredicateCache.ForeignQueryAnsweredIffCached` | libs/routers_transition/src/primitives/cache.rs:333-345 | under a second runtime a query is answered if and only if its key is cached, and that answer is right if and only if both runtimes search alike |
| `RuntimeMixing.NeverMisleadsIffAlike` | libs/routers_transition/src/primitives/cache.rs:115-124 | for any networks and any set of runtimes sharing the cache of the bounded search: in every run every answer is the asking runtime's own if and only if all of them search alike from every node |
| `RuntimeMixing.ForeignHitMisleads` | libs/routers_transition/src/primitives/cache.rs:115-118 | whenever one runtime comes near a node another does not, a run hands the second the first one's predicate map, with that node in it |
| `RuntimeMixing.OneRoadMisleads` | libs/routers_transition/src/primitives/cache.rs:115-118 | two networks that differ in one road out of the key are enough |
| `Orchestrator.StepKeepsInv` | libs/routers_realtime/bin/orchestrator.rs:488-621 | every step, crash, eviction, failure and redelivery keeps the protocol invariant |
| `Orchestrator.RunsKeepInv` | libs/routers_realtime/bin/orchestrator.rs:345-398 | every run keeps it |
| `Orchestrator.AckedIsDurable` | libs/routers_realtime/bin/orchestrator.rs:372-397 | an acknowledged event was written to the raw tail or is no later than one that was |
| `Orchestrator.RecordsAreExact` | libs/routers_realtime/bin/orchestrator.rs:372-397 | in every run, the messages on record as acknowledged and as completed are exactly those that some step acknowledged and completed |
| `Orchestrator.CommittedTripIsPublished` | libs/routers_realtime/bin/orchestrator.rs:545-588 | a committed trip has its emission durably published under its revision |
| `Orchestrator.LaneMatchesTailBetweenEvents` | libs/routers_realtime/bin/orchestrator.rs:589-618 | between events the newest lane timestamp is the newest archived one |
| `Orchestrator.CompletedIsDroppedForever` | libs/routers_realtime/bin/orchestrator.rs:498-528 | once processed to completion, an event is never in the pipeline again and every later delivery is dropped at the gate |
| `Orchestrator.DurableStays` | libs/routers_realtime/bin/orchestrator.rs:280-319 | what was acknowledged, completed, written or emitted stays so through any step |
| `Orchestrator.WarmedIsTheTail` | libs/routers_realtime/bin/orchestrator.rs:498-514 | warming gives back the tail's newest entries in the tail's own order |
| `Lanes.LaneIsTheNewest` | libs/routers_realtime/bin/orchestrator.rs:606-618 | until it is evicted or the worker restarts, whatever else happens, the lane holds the newest three windows of what it held and of the events that have entered since |
| `Lanes.LaneSinceWarming` | libs/routers_realtime/bin/orchestrator.rs:498-514 | so from the moment it is warmed: the newest archived entries in order, and the events since |
| `Orchestrator.GateIsIdempotentIffWindowed` | libs/routers_realtime/bin/orchestrator.rs:498-528 | reprocessing is idempotent if and only if the context window is at least one |
| `Orchestrator.WindowlessGateLetsThrough` | libs/routers_realtime/bin/orchestrator.rs:498-528 | a run with window zero in which a completed event passes the gate again |
| `Orchestrator.FleetKeepsInv` | libs/routers_realtime/bin/orchestrator.rs:345-398 | what holds of one vehicle holds of each through any step of the fleet |
| `ArchiveResolution.WholeRunsAgree` | libs/routers_realtime/src/event.rs:237-240 | while every delivered time is whole in the archive's unit, runs over the coarser archive are the runs over an exact one, so all that holds of them carries over |
| `ArchiveResolution.RunsKeepCoarse` | libs/routers_realtime/src/event.rs:237-240 | every run over an archive of any resolution, whatever times it delivers, keeps the archive in order and whole, shows its newest time in a warm lane, and remembers every completed message of a whole time |
| `ArchiveResolution.IdempotentIffWhole` | libs/routers_realtime/bin/orchestrator.rs:516-528 | over an archive of any resolution, a completed message is never past the gate again, in any run, whatever else it delivers, if and only if its time is whole in the archive's unit |
| `ArchiveResolution.FinerEventPassesAgain` | libs/routers_realtime/src/event.rs:237-240 | a run in which a completed event with a finer time passes the gate again after a crash |
| `Context.HistoryEndsLive` | libs/routers_realtime/bin/orchestrator.rs:626-697 | whatever the lane holds, the history is strictly ascending in time and ends at the live position, the rest being earlier entries |
| `Context.HistoryIsLinked` | libs/routers_realtime/bin/orchestrator.rs:633-675 | when times identify positions, consecutive positions are within the gap and the jump |
| `Context.HistoryIsTheLongestSuffix` | libs/routers_realtime/bin/orchestrator.rs:633-675 | for a lane in order, repeats allowed, whose times identify positions: the history is a linked suffix of it within the window, repeats dropped, ended only by the lane's start, the window or a broken link |
| `ContextRuns.EveryContextIsLinked` | libs/routers_realtime/bin/orchestrator.rs:514-530 | in every run of the worker, whatever crashes, fails, is evicted, archived twice or redelivered: the history a solve is asked for is strictly ascending and ends live, and from each position to the next is within the gap in time and within the jump in distance |
| `ContextRuns.EveryContextIsTheLongest` | libs/routers_realtime/bin/orchestrator.rs:626-697 | and is the longest such suffix of the lane: it ends on the far side at the lane's start, at the window, or at a step longer than the gap or further than the jump |
| `CoarseContexts.LinkedIffKept` | libs/routers_realtime/bin/orchestrator.rs:514-530 | over an archive of any resolution, in runs whose other deliveries it keeps exactly: every context, whatever the gap, the jump and the distance, is linked if and only if the archive keeps time a as well or the window is at most two |
| `CoarseContexts.BrokenLink` | libs/routers_realtime/src/event.rs:237-240 | otherwise a run of the worker, with three crashes, ends at the gate with a context that holds a move the settings rule out |
| `WorkerRuns.RunsTheVehicle` | libs/routers_realtime/bin/orchestrator.rs:488-621 | a run of worker and matching service together is, to its vehicle, a run of the worker protocol, so all that holds of those carries over |
| `WorkerRuns.AskedIsARestart` | libs/routers_realtime/bin/orchestrator.rs:676-681 | on one network a question is answered as a restart from its history, whatever trip is committed |
| `WorkerRuns.EveryReplyIsARestart` | libs/routers_realtime/bin/orchestrator.rs:530-586 | in every run with one network, through crashes, failures, evictions and redelivery: every reply, resumed or not, is the reply to a restart from the question's history; that history is linked, ascending and ends at the event; every durable emission names such a reply, made for the message whose revision it bears |
| `WorkerRuns.CompletedIsEmitted` | libs/routers_realtime/bin/orchestrator.rs:530-618 | in every run, a message that has completed was answered by the service, and if the answer was a match, that very match is durable under the message's revision |
| `WorkerRuns.GatedCanBeSolved` | libs/routers_realtime/bin/orchestrator.rs:530-550 | the committed trip is always one the service can take, so an event past the gate can be solved |
| `Cluster.QuietIsClustering` | libs/routers_geo/src/cluster.rs:276-304 | once all is visited: two cores share a number if and only if core points link them; a point is an edge if and only if it is not dense and near a core; the rest is noise |
| `Cluster.CoreIsDense` | libs/routers_geo/src/cluster.rs:234-256 | a point is a core if and only if at least the capacity of different points lie strictly within epsilon of it, itself among them |
| `Cluster.ClassificationIsUnique` | libs/routers_geo/src/cluster.rs:243-304 | a density clustering numbered from zero by first cores, each edge with the least number of the cores near it, is the only one: the whole classification is determined by the points |
| `Cluster.RootsLeadOn` | libs/routers_geo/src/cluster.rs:243-304 | expanding a seed keeps every number's root its first core, the seed leading a new one |
| `Cluster.LiftKeepsNumbers` | libs/routers_geo/src/cluster.rs:243-304 | and leaves earlier cores their number and edge points with the cluster that found them first |
| `Cluster.LiftKeepsBusy` | libs/routers_geo/src/cluster.rs:243-274 | taking a dense point off the stack keeps the expansion's invariant |
| `Cluster.LinkedBothWays` | libs/routers_geo/src/cluster.rs:243-274 | cores expanded from one seed are linked to each other |
| `Cluster.IntoCluster.Absorb` | libs/routers_geo/src/cluster.rs:253-270 | marks the core, lifts its noise to edges, pushes the unvisited, and pays for them in visits, so the expansion ends |
| `Cluster.IntoCluster.ExpandCluster` | libs/routers_geo/src/cluster.rs:243-274 | expands one seed completely; true exactly when a cluster came of it, the seed being one of its cores; no earlier core or edge changes its number |
| `Cluster.IntoCluster.Classify` | libs/routers_geo/src/cluster.rs:276-304 | the classification array is a density clustering, numbered by first cores, with each edge in the least cluster near it |
| `Placement.Fnv1a` | libs/routers_realtime/src/partition.rs:18-25 | the loop computes the recursive hash |
| `Placement.CommonSuffixNeverCollides` | libs/routers_realtime/src/partition.rs:18-25 | reading the same bytes after two hashes collides if and only if the hashes were equal |
| `Placement.ReferenceVectors` | libs/routers_realtime/src/partition.rs:56-58 | the published FNV-1a vectors |
| `Placement.VehicleVector` | libs/routers_realtime/src/partition.rs:59-59 | the fleet's own FNV-1a vector |
| `Placement.MixVectors` | libs/routers_realtime/src/partition.rs:61-64 | the fleet's mix vectors |
| `Placement.PartitionVectors` | libs/routers_realtime/src/partition.rs:66-68 | the fleet's partition vectors |
| `Placement.MixIsBijective` | libs/routers_realtime/src/partition.rs:30-36 | mixing is undone by an explicit inverse, both ways round |
| `Placement.MixIsInjective` | libs/routers_realtime/src/partition.rs:30-36 | mixing is one-to-one |
| `Placement.EveryPartitionIsUsed` | libs/routers_realtime/src/partition.rs:43-45 | undoing the mix names a vehicle of every partition |
| `Placement.OnlyEqualSeedsTie` | libs/routers_realtime/src/store/redis.rs:49-60 | two primaries score alike for a key if and only if their seeds are equal |
| `Placement.IndexFor` | libs/routers_realtime/src/store/redis.rs:49-60 | the index is that of the primary whose hash, mixed with the key's, scores strictly above every other, at its last position |
| `Placement.OwnerIsUnique` | libs/routers_realtime/src/store/redis.rs:49-60 | one owner at most, so placement depends only on the set of seeds |
| `Placement.ReorderingKeepsTheSeed` | libs/routers_realtime/src/store/redis.rs:37-60 | reordering or repeating endpoints leaves every key with the same seed |
| `Placement.ReorderingMovesNoKey` | libs/routers_realtime/src/store/redis.rs:37-60 | and with the same endpoint, as long as no two endpoints hash alike |
| `Placement.GrowthMovesOnlyOntoTheNew` | libs/routers_realtime/src/store/redis.rs:46-60 | adding a primary moves a key exactly when the new one outscores the owner, and only onto it |
| `Placement.LossMovesOnlyTheLost` | libs/routers_realtime/src/store/redis.rs:46-60 | dropping a primary moves a key if and only if it was the owner |
| `Halving.SteersToItsOwner` | libs/routers_shard/src/strategy/quadtree.rs:88-124 | a point steers to a cell if and only if that half-open cell owns it |
| `Halving.CellPosition` | libs/routers_shard/src/strategy/quadtree.rs:126-147 | a cell lies between the grid line of its number and the next |
| `Halving.ColumnInDegrees` | libs/routers_shard/src/strategy/quadtree.rs:126-147 | a cell's western edge is its column number, of a power of two round the equator, in parts of 360 degrees from the date line |
| `Halving.RowInDegrees` | libs/routers_shard/src/strategy/quadtree.rs:126-147 | and its southern edge its row number in parts of 180 degrees from the pole |
| `Halving.Compass` | libs/routers_shard/src/strategy/quadtree.rs:168-177 | the probes go clockwise from north |
| `Halving.ProbeFindsTheNext` | libs/routers_shard/src/strategy/quadtree.rs:149-193 | a quarter-cell probe is in the world exactly when the next cell is, and then steers to it |
| `Halving.MeetIffAdjacent` | libs/routers_shard/src/strategy/quadtree.rs:149-193 | closed cells of one depth meet if and only if their numbers differ by at most one |
| `Halving.CellsTile` | libs/routers_shard/src/strategy/quadtree.rs:88-147 | cells of one grid tile the world in exact arithmetic |
| `Halving.ProbesFindWhatTouches` | libs/routers_shard/src/strategy/quadtree.rs:149-193 | the eight probes find exactly the touching cells of the same grid, each from one direction only |
| `QuadTree.DecodeInvertsKeyOf` | libs/routers_shard/src/strategy/quadtree.rs:51-55 | reading the packed word back gives the turns packed |
| `QuadTree.KeyOfInvertsDecode` | libs/routers_shard/src/strategy/quadtree.rs:51-55 | packing the turns read gives the word back, if it holds no bits beyond its depth |
| `QuadTree.WordFits` | libs/routers_shard/src/strategy/quadtree.rs:75-78 | a key of legal depth fits its 64-bit word |
| `QuadTree.HemispheresOfTheWorld` | libs/routers_shard/src/strategy/quadtree.rs:98-107 | the first two bits say east and north of the origin, for any point |
| `QuadTree.CoarserShardIsAPrefix` | libs/routers_shard/src/strategy/quadtree.rs:88-124 | the key of a point starts with its keys at every smaller depth |
| `QuadTree.Locate` | libs/routers_shard/src/strategy/quadtree.rs:88-124 | the loop returns the key of the cell that holds the clamped point |
| `QuadTree.Bounds` | libs/routers_shard/src/strategy/quadtree.rs:126-147 | the loop returns the rectangle of the key's turns |
| `QuadTree.ShardsTile` | libs/routers_shard/src/strategy/quadtree.rs:88-147 | a point is located in a shard if and only if that shard's bounds own the clamped point |
| `QuadTree.Neighbours` | libs/routers_shard/src/strategy/quadtree.rs:149-193 | the keys the in-world probes land in, other than the shard itself, each once |
| `QuadTree.NeighboursAreTheTouching` | libs/routers_shard/src/strategy/quadtree.rs:149-193 | those are exactly the touching shards of the same depth |
| `QuadTree.NeighboursAreMutual` | libs/routers_shard/src/strategy/quadtree.rs:149-193 | being neighbours is mutual |
| `Geohashes.DecodeIsInjective` | libs/routers_shard/src/strategy/geohash.rs:139-166 | at one precision different hashes name different cells |
| `Geohashes.Locate` | libs/routers_shard/src/strategy/geohash.rs:88-137 | the loop returns a well-formed hash of the strategy's precision naming the cell that holds the clamped point |
| `Geohashes.Bounds` | libs/routers_shard/src/strategy/geohash.rs:139-166 | the nested loops return the rectangle of the hash's turns |
| `Geohashes.ShardsTile` | libs/routers_shard/src/strategy/geohash.rs:88-166 | a point is located in a shard if and only if that shard's bounds own the clamped point |
| `Geohashes.NameIsUnique` | libs/routers_shard/src/strategy/geohash.rs:88-137 | a point has one name at each precision |
| `Geohashes.CoarserHashIsAPrefix` | libs/routers_shard/src/strategy/geohash.rs:88-137 | the hash of a point at a coarser precision is the start of its hash at a finer one |
| `Geohashes.FirstCharacter` | libs/routers_shard/src/strategy/geohash.rs:88-137 | the first character spells its column of eight and its row of four, bits alternating from the column's |
| `Geohashes.Neighbours` | libs/routers_shard/src/strategy/geohash.rs:168-204 | the hashes the in-world probes land in, other than the shard itself, each once |
| `Geohashes.NeighboursAreTheTouching` | libs/routers_shard/src/strategy/geohash.rs:168-204 | those are exactly the touching shards of the same precision |
| `Geohashes.NeighboursAreMutual` | libs/routers_shard/src/strategy/geohash.rs:168-204 | being neighbours is mutual |
| `GeohashText.Base32IsAnAlphabet` | libs/routers_shard/src/strategy/geohash.rs:15-15 | the table holds thirty-two different ASCII characters |
| `GeohashText.Base32IsTheGeohashAlphabet` | libs/routers_shard/src/strategy/geohash.rs:15-15 | they are the ten digits and the small letters in order without a, i, l and o |
| `GeohashText.Parse` | libs/routers_shard/src/strategy/geohash.rs:46-63 | the loop computes the specified reading, errors included |
| `GeohashText.Print` | libs/routers_shard/src/strategy/geohash.rs:25-33 | the loop prints the symbol of each value |
| `GeohashText.ParsesIff` | libs/routers_shard/src/strategy/geohash.rs:46-63 | a text is read if and only if it is 1 to 12 bytes long and the low byte of every character is a symbol |
| `GeohashText.FailsAtTheFirst` | libs/routers_shard/src/strategy/geohash.rs:52-58 | the error names the first character that is not a symbol |
| `GeohashText.ParseInvertsPrint` | libs/routers_shard/src/strategy/geohash.rs:25-63 | reading a printed hash returns it |
| `GeohashText.PrintInvertsParseIffAscii` | libs/routers_shard/src/strategy/geohash.rs:25-63 | printing what was read gives the text back if and only if the text is ASCII |
| `GeohashText.DottedCapitalIReadsAsZeros` | libs/routers_shard/src/strategy/geohash.rs:46-63 | one wide character that is read as two zeros |

## Left out

- Context.HistoryEndsLive: the local vectors the source edits in place are values here; its two stable sorts are insertion sorts.
- Reachability.DijkstraReachable.Next: which of several equally cheap heap entries is popped is left open; costs add as unbounded naturals, so the 32-bit sum of road weights and the edge counter do not wrap; lengths are whole centimetres.
- SearchPlan.CachedReaches: which of several equally cheap heap entries is popped is taken to depend on the heap's contents only; that eviction is least recently used within a bucket is not stated.
- Continuation.ServeTrip: the reply holds the snapshot rather than a diff of geometries.
- ProbingNetworks.ServedAlikeIffFinalsAlike: a trip whose candidates this network would place otherwise, or whose last layer repeats a position, is not compared with its restart.
- WorkerRuns.EveryReplyIsARestart: one network answers every question; trips that cross networks are the subject of ProbingNetworks and Continuation.
- Routes.ParentPath: prepends nodes instead of appending and reversing.
- Convergence.ConvergedLayer: the frontier is a set rather than a sorted, deduplicated vector; so is the reachable frontier of FrontierCollapse.Collapse.
- QuadTree.Locate: the packed word is a natural number, with addition at a free place for the bitwise or; WordFits bounds it.
- Orchestrator.StepKeepsInv: times are whole in the archive's unit (ArchiveResolution says what that excludes); one owner per vehicle and an archive that keeps its newest entry are part of the steps; lanes, trips and logs are values per vehicle, and a batch of the archive writer is atomic against a crash.
- Total layer widths and index sums are unbounded naturals; that they fit the machine's index type is assumed.
- Candidate generation, the spatial index, emission and transition costing, map geometry and angles: parameters of the model.
- Clusters as groups with hulls, and the rule that sends large noise groups among them: only the classification array is modelled.
- Floating-point rounding of cell arithmetic: cells are in exact reals.
- Messaging, key-value stores, encoding, telemetry, retries with back-off and thread scheduling: only their effects on the logs appear, as steps.
- Sharded network ingest, tiles, RPC services, viewer, timezone data and the map-file decoders: not part of this model.
