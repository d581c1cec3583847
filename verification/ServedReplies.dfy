/** What a reply of the service says, in terms of the network and the observations alone. */
module ServedReplies {
  import opened Observations
  import opened Numbers
  import opened Weighing
  import opened Trips
  import opened Matching
  import opened TripRuns
  import opened Matcher
  import opened Continuation
  import opened WeighedCosts

  /** Hop `i` joins the candidates chosen for observations `i` and `i + 1` by the network's own route between them. */
  ghost predicate HopIs(w: World, os: seq<Origin>, p: seq<nat>, hop: Reachable, i: nat)
    requires Chooses(w, os, p) && i + 1 < |p|
  {
    && hop.from == Ref(i, p[i]) && hop.to == Ref(i + 1, p[i + 1])
    && w.route(w.generate(os[i].point)[p[i]], w.generate(os[i + 1].point)[p[i + 1]]) == Some(hop.path)
  }

  /** The emission is of this choice: its outlay, its candidates in order, and a routed hop between each two. */
  ghost predicate EmissionIs(w: World, os: seq<Origin>, p: seq<nat>, e: Collapsed) {
    && Chooses(w, os, p) && |p| == |os| && Outlay(w, os, p) == Some(e.cost)
    && |e.route| == |os| && (forall l :: 0 <= l < |os| ==> e.route[l] == Ref(l, p[l]))
    && |e.interpolated| == |os| - 1
    && forall i {:trigger e.interpolated[i]} :: 0 <= i < |os| - 1 ==> HopIs(w, os, p, e.interpolated[i], i)
  }

  /** Nothing else the observations allow costs less. */
  ghost predicate IsCheapest(w: World, os: seq<Origin>, cost: nat) {
    forall q :: Chooses(w, os, q) && |q| == |os| && Outlay(w, os, q).Some? ==> cost <= Outlay(w, os, q).value
  }

  /** Some candidate of the trip is not on this network. */
  ghost predicate Foreign(w: World, store: Store) {
    exists l, n :: 0 <= l < |store| && 0 <= n < |store[l]| && !w.knows(store[l][n].anchor)
  }

  /** The reply is a match of this choice, a cheapest one, with every observation's time. */
  ghost predicate ReplyIs(w: World, os: seq<Origin>, p: seq<nat>, r: Reply) {
    && r.Matched? && EmissionIs(w, os, p, r.emission) && IsCheapest(w, os, r.emission.cost)
    && |r.timestamps| == |os| && forall i :: 0 <= i < |os| ==> r.timestamps[i] == os[i].timestamp
  }

  lemma FollowedHop(w: World, os: seq<Origin>, p: seq<nat>, hop: Reachable, i: nat)
    requires Chooses(w, os, p) && i + 1 < |p| && Follows(w, StoreOf(w, os), RouteOf(p), hop, i)
    ensures HopIs(w, os, p, hop, i)
  {
    StoreHolds(w, os, i, p[i]);
    StoreHolds(w, os, i + 1, p[i + 1]);
  }

  lemma SolvedIsEmitted(w: World, s: TripValue, p: seq<nat>, e: Collapsed)
    requires Sound(w, s) && s.state.Solved? && p == s.state.path.nodes && e == CollapseOf(w, s.candidates, s.state.path)
    ensures EmissionIs(w, s.origins, p, e) && IsCheapest(w, s.origins, e.cost)
  {
    SolvedTripIsCheapest(w, s);
    HopsAreComplete(w, s);
    FollowedHops(w, s.origins, p, e.interpolated);
  }

  lemma FollowedHops(w: World, os: seq<Origin>, p: seq<nat>, hops: seq<Reachable>)
    requires Chooses(w, os, p) && |hops| == |p| - 1
    requires forall i {:trigger hops[i]} :: 0 <= i < |hops| ==> Follows(w, StoreOf(w, os), RouteOf(p), hops[i], i)
    ensures forall i {:trigger hops[i]} :: 0 <= i < |hops| ==> HopIs(w, os, p, hops[i], i)
  {
    forall i {:trigger hops[i]} | 0 <= i < |hops|
      ensures HopIs(w, os, p, hops[i], i)
    {
      FollowedHop(w, os, p, hops[i], i);
    }
  }

  /** What is said of a solved trip. */
  lemma SolvedReply(w: World, s: TripValue) returns (p: seq<nat>)
    requires Sound(w, s) && s.state.Solved?
    ensures ReplyIs(w, s.origins, p, ReplyOf(w, s, Ok(s.state.path)))
  {
    p := s.state.path.nodes;
    SolvedIsEmitted(w, s, p, CollapseOf(w, s.candidates, s.state.path));
  }

  /** Some choice of candidates for all the observations stays below infinity. */
  ghost predicate Matchable(w: World, os: seq<Origin>) {
    exists q :: Chooses(w, os, q) && |q| == |os| && Affordable(w, os, q)
  }

  /** A reply to a sound trip, once the fresh observations are pushed. */
  lemma AnswerMeans(w: World, u: TripValue) returns (p: seq<nat>)
    requires Sound(w, u)
    ensures Answered(w, u).Matched? <==> Matchable(w, u.origins)
    ensures Answered(w, u).Matched? ==> ReplyIs(w, u.origins, p, Answered(w, u))
  {
    SolveKeepsSound(w, u);
    if u.origins != [] { SolvesIffAffordable(w, u); }
    p := [];
    if Solve(w, u).1.Ok? {
      p := SolvedReply(w, Solve(w, u).0);
    }
  }

  /**
   * What the service replies, whenever the trip is this network's own or has to be given up. The observations
   * that count are those of the trip and the fresh ones that anchor here. There is a match exactly when some
   * choice of candidates for all of them stays below infinity; then the emission is of a cheapest one, by the
   * network's own emissions, routes and prices, with every hop's route, and every observation's time. The
   * reply is flagged exactly when some candidate of the trip is not on this network.
   */
  lemma ReplyMeans(w: World, v: TripValue, newer: seq<Origin>, os: seq<Origin>) returns (p: seq<nat>)
    requires v.Intact() && (Foreign(w, v.candidates) || Sound(w, v)) && os == Matching.Placed(w, v.origins + newer)
    ensures Serve(w, v, newer).Matched? <==> Matchable(w, os)
    ensures Serve(w, v, newer).Matched? ==> ReplyIs(w, os, p, Serve(w, v, newer))
    ensures Serve(w, v, newer).Matched? ==> (Serve(w, v, newer).downgraded <==> Foreign(w, v.candidates))
  {
    var history := v.origins + newer;
    assert Foreign(w, v.candidates) <==> !Supports(w, v.candidates);
    ServeIsRestart(w, v, newer, history);
    FreshIsSound(w);
    PushAllKeepsSound(w, FRESH, history);
    assert [] + Matching.Placed(w, history) == os;
    p := AnswerMeans(w, PushAll(w, FRESH, history));
  }
}
