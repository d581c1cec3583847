/** Cutting a trellis at its convergence layer: what the cut preserves, and exactly when it is seamless. */
module ConvergenceCut {
  import opened Numbers
  import opened TrellisGraph
  import opened TrellisPaths
  import opened Viterbi
  import opened Convergence

  /** Dropping leading layers only makes the rest of a walk cheaper. */
  lemma CutCostsNoMore(t: Trellis, p: seq<nat>, c: nat)
    requires t.Valid() && IsWalk(t, p) && c < |p| && t.From(c).Valid()
    ensures IsWalk(t.From(c), p[c..]) && Cost(t.From(c), p[c..]) <= Cost(t, p)
  {
    CostSplits(t, p, c);
    assert p[..c + 1][c] == p[c];
  }

  /** A finite path leaves a finite rest, so its last node is live in the cut trellis. */
  lemma FiniteRestIsLive(t: Trellis, p: seq<nat>, c: nat)
    requires t.Valid() && IsPath(t, p) && Cost(t, p) < INF_W && c < t.Layers() && t.From(c).Valid()
    ensures LiveFinal(t.From(c), p[|p| - 1])
  {
    CutCostsNoMore(t, p, c);
    DistIsLowerBound(t.From(c), p[c..]);
    assert p[c..][|p| - 1 - c] == p[|p| - 1];
  }

  /** A live node stays live when leading layers are cut away. */
  lemma CutKeepsLive(t: Trellis, c: nat, n: nat)
    requires t.Valid() && c < t.Layers() && LiveFinal(t, n)
    ensures t.From(c).Valid() && LiveFinal(t.From(c), n)
  {
    CutIsValid(t, c);
    BackCost(t, t.Layers() - 1, n);
    FiniteRestIsLive(t, Route(t, n), c);
  }

  /** Cutting leading layers never makes a solvable trellis unsolvable. */
  lemma CutStaysSolvable(t: Trellis, c: nat)
    requires t.Valid() && Solvable(t) && c < t.Layers()
    ensures t.From(c).Valid() && Solvable(t.From(c))
  {
    CutKeepsLive(t, c, FinalNode(t));
    CutIsValid(t, c);
    var s := t.From(c);
    assert FinalDist(s, FinalNode(s)) <= FinalDist(s, FinalNode(t));
  }

  lemma DropCommonPrefix(a: seq<nat>, b: seq<nat>, c: nat)
    requires ReadBackwardsLess(a, b) && c < |a| && a[..c + 1] == b[..c + 1]
    ensures ReadBackwardsLess(a[c..], b[c..])
  {
    var k :| 0 <= k < |a| && a[k] < b[k] && a[k + 1..] == b[k + 1..];
    assert forall i :: 0 <= i <= c ==> a[i] == a[..c + 1][i] == b[i];
    assert a[c..][k - c] < b[c..][k - c];
    assert a[c..][k - c + 1..] == a[k + 1..] == b[c..][k - c + 1..];
  }

  /** Two paths meeting at layer `c` tie in the uncut trellis exactly when their rests tie in the cut one. */
  lemma RestsTie(u: Trellis, c: nat, w: seq<nat>, j: seq<nat>)
    requires u.Valid() && c < u.Layers() && u.From(c).Valid() && IsPath(u, w) && IsPath(u, j) && w[..c + 1] == j[..c + 1]
    ensures IsPath(u.From(c), w[c..]) && IsPath(u.From(c), j[c..])
    ensures Cost(u, w) - Cost(u, j) == Cost(u.From(c), w[c..]) - Cost(u.From(c), j[c..])
  {
    CostSplits(u, w, c);
    CostSplits(u, j, c);
    assert w[c] == w[..c + 1][c] == j[c];
  }

  /** A champion that is no cheaper than another path comes first of the two. */
  lemma ChampionComesFirst(t: Trellis, p: seq<nat>, r: seq<nat>)
    requires t.Valid() && Champion(t, p) && IsPath(t, r) && Cost(t, r) <= Cost(t, p)
    ensures Cost(t, r) == Cost(t, p) && (r == p || ReadBackwardsLess(p, r))
  {
  }

  /**
   * The heart of the cut: if the champion of the cut trellis starts at the node the uncut champion
   * passes through, it is exactly the rest of the uncut champion.
   */
  lemma MeetingMeansContinuing(u: Trellis, c: nat, w: seq<nat>, q: seq<nat>)
    requires u.Valid() && c < u.Layers() && u.From(c).Valid()
    requires Champion(u, w) && Champion(u.From(c), q) && q[0] == w[c]
    ensures q == w[c..]
  {
    var s, j := u.From(c), w[..c] + q;
    assert IsPath(u, j) && w[..c + 1] == j[..c + 1] && j[c..] == q by {
      JoinIsPath(u, c, w, q);
      assert w[..c + 1] == w[..c] + [w[c]];
    }
    RestsTie(u, c, w, j);
    assert Cost(s, q) <= Cost(s, w[c..]);
    ChampionComesFirst(u, w, j);
    ChampionComesFirst(s, q, w[c..]);
    if j != w {
      DropCommonPrefix(w, j, c);
      ReadBackwardsAsymmetric(w[c..], q);
    }
  }

  lemma JoinIsPath(u: Trellis, c: nat, w: seq<nat>, q: seq<nat>)
    requires u.Valid() && c < u.Layers() && IsPath(u, w) && IsPath(u.From(c), q)
    ensures IsPath(u, w[..c] + q)
  {
    var j := w[..c] + q;
    forall l | 0 <= l < |j|
      ensures u.Has(l, j[l])
    {
      if l < c {
        assert u.Has(l, w[l]);
      } else {
        assert u.From(c).Has(l - c, q[l - c]);
      }
    }
  }

  /** The cut of `u` solves, and answers with the rest of the answer of `u`. */
  ghost predicate Seamless(u: Trellis, c: nat)
    requires u.Valid() && Solvable(u) && c < u.Layers()
  {
    u.From(c).Valid() && Solvable(u.From(c)) && Answer(u.From(c)).nodes == Answer(u).nodes[c..]
  }

  /**
   * Whatever layers were appended to both: the cut trellis still solves; its answer continues the
   * frozen prefix exactly when it starts at the converged node; and when it does, the frozen
   * prefix joined to it is the minimum-cost answer of the uncut trellis.
   */
  lemma CutContinuesIffItMeets(u: Trellis, t: Trellis, c: nat)
    requires t.Valid() && u.Valid() && Extends(u, t) && Solvable(t) && Solvable(u)
    requires c < t.Layers() && FusedAt(t, c)
    ensures u.From(c).Valid() && Solvable(u.From(c)) && Extends(u.From(c), t.From(c))
    ensures Seamless(u, c) <==> Answer(u.From(c)).nodes[0] == Answer(t).nodes[c]
    ensures Answer(u.From(c)).nodes[0] == Answer(t).nodes[c] ==>
      Answer(t).nodes[..c] + Answer(u.From(c)).nodes == Answer(u).nodes
  {
    CutStaysSolvable(u, c);
    CutOfExtension(u, t, c);
    GrownRouteFollows(u, t, c, FinalNode(u), FinalNode(t));
    AnswerIsChampion(u);
    AnswerIsChampion(u.From(c));
    ContinuingFromThePrefix(u, c, Answer(u).nodes, Answer(t).nodes, Answer(u.From(c)).nodes);
  }

  lemma ContinuingFromThePrefix(u: Trellis, c: nat, w: seq<nat>, v: seq<nat>, q: seq<nat>)
    requires u.Valid() && c < u.Layers() && u.From(c).Valid() && Champion(u, w) && Champion(u.From(c), q)
    requires c < |v| && w[..c + 1] == v[..c + 1]
    ensures q == w[c..] <==> q[0] == v[c]
    ensures q[0] == v[c] ==> v[..c] + q == w
  {
    assert w[c] == w[..c + 1][c] == v[c] && w[c..][0] == w[c];
    if q[0] == v[c] {
      MeetingMeansContinuing(u, c, w, q);
      assert w[..c] == w[..c + 1][..c] == v[..c];
      assert w == w[..c] + w[c..];
    }
  }

  // ----- When every growth is seamless -----

  /** What the frozen prefix has paid on arriving at the converged node, before paying that node. */
  ghost function Arrival(t: Trellis, c: nat): (d: int)
    requires t.Valid() && Solvable(t) && c < t.Layers()
  {
    var z := Answer(t).nodes[c];
    assert t.Has(c, z);
    Dist(t, c, z) - t.NodeWeight(c, z)
  }

  /** A final node the cut trellis reaches within what the frozen prefix leaves, but not from the converged node. */
  ghost predicate Strays(t: Trellis, c: nat, n: nat)
    requires t.Valid() && Solvable(t) && c < t.Layers() && t.From(c).Valid()
  {
    var s := t.From(c);
    s.Has(s.Layers() - 1, n) && FinalDist(s, n) + Arrival(t, c) < INF_W && Route(s, n)[0] != Answer(t).nodes[c]
  }

  /** What a caller can read off the two tables: no final node strays. */
  ghost predicate CutHasSettled(t: Trellis, c: nat)
    requires t.Valid() && Solvable(t) && c < t.Layers()
  {
    t.From(c).Valid() && forall n :: !Strays(t, c, n)
  }

  lemma AnswerCosts(t: Trellis)
    requires t.Valid() && Solvable(t)
    ensures IsPath(t, Answer(t).nodes) && Cost(t, Answer(t).nodes) == Answer(t).cost < INF_W
  {
    AnswerIsOptimal(t);
  }

  lemma AnswerBeats(t: Trellis, p: seq<nat>)
    requires t.Valid() && Solvable(t) && IsPath(t, p)
    ensures Answer(t).cost <= Cost(t, p)
  {
    AnswerIsOptimal(t);
  }

  /** A prefix of the answer costs what the table holds where it ends. */
  lemma PrefixPays(t: Trellis, c: nat)
    requires t.Valid() && Solvable(t) && c < t.Layers()
    ensures var p := Answer(t).nodes;
      t.Has(c, p[c]) && IsWalk(t, p[..c + 1]) && Cost(t, p[..c + 1]) == Dist(t, c, p[c])
  {
    var l, n := t.Layers() - 1, FinalNode(t);
    BackPrefix(t, l, n, c);
    LiveAlong(t, l, n, c);
    BackCost(t, c, Back(t, l, n)[c]);
  }

  /** What is left of a path after the frozen prefix: the whole, less what arriving has paid. */
  lemma RestPays(t: Trellis, c: nat, u: Trellis, j: seq<nat>)
    requires t.Valid() && u.Valid() && Extends(u, t) && Solvable(t) && c < t.Layers() && u.From(c).Valid()
    requires IsPath(u, j) && j[..c + 1] == Answer(t).nodes[..c + 1]
    ensures IsPath(u.From(c), j[c..]) && Cost(u, j) == Arrival(t, c) + Cost(u.From(c), j[c..])
  {
    var p := Answer(t).nodes;
    assert j[c] == j[..c + 1][c] == p[..c + 1][c] == p[c];
    PrefixPays(t, c);
    CostSplits(u, j, c);
    ExtensionCost(u, t, p[..c + 1]);
    ExtensionNodeWeight(u, t, c, p[c]);
  }

  /** Where a route of a grown trellis crosses the old last layer, it has followed an old route, at its price. */
  lemma CrossesByARoute(u: Trellis, t: Trellis)
    requires t.Valid() && u.Valid() && Extends(u, t) && Solvable(u)
    ensures var q, l := Answer(u).nodes, t.Layers() - 1;
      t.Has(l, q[l]) && q[..l + 1] == Route(t, q[l]) && FinalDist(t, q[l]) <= Answer(u).cost
  {
    var q, l := Answer(u).nodes, t.Layers() - 1;
    PrefixIsARoute(u, l);
    ExtensionBack(u, t, l, q[l]);
    PrefixPaysLess(u, l);
  }

  lemma PrefixIsARoute(u: Trellis, l: nat)
    requires u.Valid() && Solvable(u) && l < u.Layers()
    ensures u.Has(l, Answer(u).nodes[l]) && Answer(u).nodes[..l + 1] == Back(u, l, Answer(u).nodes[l])
  {
    BackPrefix(u, u.Layers() - 1, FinalNode(u), l);
  }

  lemma PrefixPaysLess(u: Trellis, l: nat)
    requires u.Valid() && Solvable(u) && l < u.Layers()
    ensures u.Has(l, Answer(u).nodes[l]) && Dist(u, l, Answer(u).nodes[l]) <= Answer(u).cost
  {
    AnswerCosts(u);
    PrefixPays(u, l);
    PrefixCostsNoMore(u, Answer(u).nodes, l + 1);
  }

  /** The answer of a grown cut leaves the old layers by a cut route the frozen prefix can afford. */
  lemma CutAnswerIsAffordable(u: Trellis, t: Trellis, c: nat)
    requires t.Valid() && u.Valid() && Extends(u, t) && Solvable(t) && Solvable(u)
    requires c < t.Layers() && u.From(c).Valid() && Solvable(u.From(c)) && t.From(c).Valid()
    requires Answer(u).nodes[..c + 1] == Answer(t).nodes[..c + 1]
    ensures var s, q := t.From(c), Answer(u.From(c)).nodes;
      var l := s.Layers() - 1;
      s.Has(l, q[l]) && q[..l + 1] == Route(s, q[l]) && FinalDist(s, q[l]) + Arrival(t, c) < INF_W
  {
    var p := Answer(u).nodes;
    AnswerCosts(u);
    RestPays(t, c, u, p);
    AnswerBeats(u.From(c), p[c..]);
    CutOfExtension(u, t, c);
    CrossesByARoute(u.From(c), t.From(c));
  }

  /** Enough for every growth to be seamless. */
  lemma SettledCutIsSeamless(u: Trellis, t: Trellis, c: nat)
    requires t.Valid() && u.Valid() && Extends(u, t) && Solvable(t) && Solvable(u)
    requires c < t.Layers() && FusedAt(t, c) && CutHasSettled(t, c)
    ensures Seamless(u, c)
  {
    CutContinuesIffItMeets(u, t, c);
    GrownRouteFollows(u, t, c, FinalNode(u), FinalNode(t));
    CutAnswerIsAffordable(u, t, c);
    var q, l := Answer(u.From(c)).nodes, t.From(c).Layers() - 1;
    assert !Strays(t, c, q[l]);
    assert q[0] == q[..l + 1][0];
  }

  /** Grow `t` by a node that only final node `n` reaches, free, and one that only `f` reaches, at `w`. */
  ghost function Fork(t: Trellis, n: nat, f: nat, w: u32): (u: Trellis)
    requires t.Valid() && t.Has(t.Layers() - 1, n) && t.Has(t.Layers() - 1, f) && w <= MAX_WEIGHT
    ensures u.Valid() && Extends(u, t) && u.widths == t.widths + [2]
    ensures t.FullyResolved() ==> u.FullyResolved()
  {
    AppendIsValid(t, [0, 0]);
    var u := t.Append([0, 0]);
    var k := |t.transitions|;
    var fan: seq<u32> := seq(t.widths[k] * 2, x requires 0 <= x < t.widths[k] * 2 => Prong(n, f, w, x / 2, x % 2));
    WithTransitionIsValid(u, k, Resolved(fan));
    u.WithTransition(k, Resolved(fan))
  }

  /** The edge from old final node `i` to new node `j`. */
  ghost function Prong(n: nat, f: nat, w: u32, i: nat, j: nat): (e: u32)
    requires w <= MAX_WEIGHT
    ensures e <= INF_W
  {
    if j == 0 then (if i == n then 0 else INF_W) else (if i == f then w else INF_W)
  }

  lemma ForkVia(t: Trellis, n: nat, f: nat, w: u32, i: nat, j: nat)
    requires t.Valid() && t.Has(t.Layers() - 1, n) && t.Has(t.Layers() - 1, f) && w <= MAX_WEIGHT
    requires t.Has(t.Layers() - 1, i) && j < 2
    ensures var u, l := Fork(t, n, f, w), t.Layers();
      u.Has(l - 1, i) && u.Has(l, j) && u.NodeWeight(l, j) == 0
      && Via(u, l, j, i) == FinalDist(t, i) + Prong(n, f, w, i, j)
  {
    var u, l := Fork(t, n, f, w), t.Layers();
    StartOfPrefix(t.widths, u.widths, l);
    ExtensionDist(u, t, l - 1, i);
    assert u.EdgeWeight(l - 1, i, j) == u.transitions[l - 1].weights[i * 2 + j];
    assert (i * 2 + j) / 2 == i && (i * 2 + j) % 2 == j;
  }

  /** A new node reached from one live node only is entered through it, at its price and the prong's. */
  lemma ForkDist(t: Trellis, n: nat, f: nat, w: u32, i: nat, j: nat)
    requires t.Valid() && t.Has(t.Layers() - 1, n) && t.Has(t.Layers() - 1, f) && w <= MAX_WEIGHT
    requires j < 2 && i == if j == 0 then n else f
    ensures var u, l, d := Fork(t, n, f, w), t.Layers(), FinalDist(t, i) + if j == 0 then 0 else w;
      u.Has(l, j) && Dist(u, l, j) == Min(INF_W, d) && (d < INF_W ==> Predecessor(u, l, j) == i)
  {
    var u, l := Fork(t, n, f, w), t.Layers();
    ForkVia(t, n, f, w, i, j);
    var best := Predecessor(u, l, j);
    assert Via(u, l, j, best) <= Via(u, l, j, i);
    ForkVia(t, n, f, w, best, j);
    InflowIsLeast(u, l, j, t.widths[l - 1]);
  }

  /** When the free node is the cheaper, a fork answers through it. */
  lemma ForkAnswers(t: Trellis, n: nat, f: nat, w: u32)
    requires t.Valid() && t.FullyResolved() && LiveFinal(t, n) && t.Has(t.Layers() - 1, f) && w <= MAX_WEIGHT
    requires FinalDist(t, n) <= FinalDist(t, f) + w
    ensures Solvable(Fork(t, n, f, w)) && Answer(Fork(t, n, f, w)).nodes == Route(t, n) + [0]
  {
    var u, l := Fork(t, n, f, w), t.Layers();
    ForkDist(t, n, f, w, n, 0);
    ForkDist(t, n, f, w, f, 1);
    ExtensionBack(u, t, l - 1, n);
    assert FinalDist(u, 0) <= FinalDist(u, 1);
    assert FinalNode(u) == 0;
  }

  /** A fork solves whenever its second prong stays below infinity. */
  lemma ForkSolves(t: Trellis, n: nat, f: nat, w: u32)
    requires t.Valid() && t.FullyResolved() && t.Has(t.Layers() - 1, n) && t.Has(t.Layers() - 1, f) && w <= MAX_WEIGHT
    requires FinalDist(t, f) + w < INF_W
    ensures Solvable(Fork(t, n, f, w))
  {
    var u := Fork(t, n, f, w);
    ForkDist(t, n, f, w, f, 1);
    assert FinalDist(u, FinalNode(u)) <= FinalDist(u, 1);
  }

  lemma CutOfFork(t: Trellis, n: nat, f: nat, w: u32, c: nat)
    requires t.Valid() && t.Has(t.Layers() - 1, n) && t.Has(t.Layers() - 1, f) && w <= MAX_WEIGHT
    requires c < t.Layers() && t.From(c).Valid()
    ensures Fork(t, n, f, w).From(c) == Fork(t.From(c), n, f, w)
  {
    var u, v := Fork(t, n, f, w), Fork(t.From(c), n, f, w);
    StartOfPrefix(t.widths, u.widths, c);
    StartMonotone(t.widths, c, t.Layers());
    assert u.From(c).nodes == v.nodes;
    assert u.transitions[|t.transitions|] == v.transitions[|t.transitions| - c];
    assert u.From(c).transitions == v.transitions;
  }

  /** The frozen prefix joined to a cut path from the converged node is a path, paid as arriving and that path. */
  lemma RejoinedPays(t: Trellis, c: nat, q: seq<nat>)
    requires t.Valid() && Solvable(t) && c < t.Layers() && t.From(c).Valid()
    requires IsPath(t.From(c), q) && q[0] == Answer(t).nodes[c]
    ensures var j := Answer(t).nodes[..c] + q;
      IsPath(t, j) && Cost(t, j) == Arrival(t, c) + Cost(t.From(c), q)
  {
    var p := Answer(t).nodes;
    JoinIsPath(t, c, p, q);
    var j := p[..c] + q;
    assert j[..c + 1] == p[..c + 1] && j[c..] == q;
    RestPays(t, c, t, j);
  }

  /** A live final node costs no more than arriving at the converged node and any cut path from there to it. */
  lemma RejoiningCostsNoMore(t: Trellis, c: nat, f: nat, q: seq<nat>)
    requires t.Valid() && Solvable(t) && c < t.Layers() && t.From(c).Valid() && LiveFinal(t, f)
    requires IsPath(t.From(c), q) && q[0] == Answer(t).nodes[c] && q[|q| - 1] == f
    ensures FinalDist(t, f) <= Arrival(t, c) + Cost(t.From(c), q)
  {
    RejoinedPays(t, c, q);
    LiveIsNoDearer(t, f, Answer(t).nodes[..c] + q);
  }

  lemma LiveIsNoDearer(t: Trellis, f: nat, j: seq<nat>)
    requires t.Valid() && LiveFinal(t, f) && IsPath(t, j) && j[|j| - 1] == f
    ensures FinalDist(t, f) <= Cost(t, j)
  {
    DistIsLowerBound(t, j);
  }

  /** One growth breaks the seam of a cut that answers, within budget, from another node. */
  lemma ForkBreaksTheSeam(t: Trellis, c: nat, n: nat, f: nat, w: u32)
    requires t.Valid() && Solvable(t) && c < t.Layers() && FusedAt(t, c) && t.From(c).Valid()
    requires LiveFinal(t.From(c), n) && Route(t.From(c), n)[0] != Answer(t).nodes[c]
    requires t.Has(t.Layers() - 1, f) && w <= MAX_WEIGHT && FinalDist(t, f) + w < INF_W
    requires FinalDist(t.From(c), n) <= FinalDist(t.From(c), f) + w
    ensures Solvable(Fork(t, n, f, w)) && !Seamless(Fork(t, n, f, w), c)
  {
    CutIsValid(t, c);
    ForkSolves(t, n, f, w);
    CutOfFork(t, n, f, w, c);
    ForkAnswers(t.From(c), n, f, w);
    CutContinuesIffItMeets(Fork(t, n, f, w), t, c);
  }

  /** If any final node strays, one strays that is no dearer than the best final node grown to the brink. */
  lemma StrayToForkAt(t: Trellis, c: nat, n: nat) returns (m: nat)
    requires t.Valid() && Solvable(t) && c < t.Layers() && t.From(c).Valid() && Strays(t, c, n)
    ensures LiveFinal(t.From(c), m) && Route(t.From(c), m)[0] != Answer(t).nodes[c]
    ensures t.From(c).Has(t.From(c).Layers() - 1, FinalNode(t))
    ensures FinalDist(t.From(c), m) <= FinalDist(t.From(c), FinalNode(t)) + INF_W - 1 - FinalDist(t, FinalNode(t))
  {
    var f := FinalNode(t);
    CutKeepsLive(t, c, f);
    ArrivalIsPaid(t, c);
    if Route(t.From(c), f)[0] != Answer(t).nodes[c] {
      m := f;
    } else {
      m := n;
      RejoinedRoute(t, c, f);
    }
  }

  /** A live final node whose cut route starts at the converged node is reached at what arriving leaves. */
  lemma RejoinedRoute(t: Trellis, c: nat, f: nat)
    requires t.Valid() && Solvable(t) && c < t.Layers() && t.From(c).Valid() && LiveFinal(t, f) && LiveFinal(t.From(c), f)
    requires Route(t.From(c), f)[0] == Answer(t).nodes[c]
    ensures FinalDist(t, f) <= Arrival(t, c) + FinalDist(t.From(c), f)
  {
    RouteCosts(t.From(c), f);
    RejoiningCostsNoMore(t, c, f, Route(t.From(c), f));
  }

  lemma RouteCosts(s: Trellis, f: nat)
    requires s.Valid() && LiveFinal(s, f)
    ensures IsPath(s, Route(s, f)) && Route(s, f)[|Route(s, f)| - 1] == f && Cost(s, Route(s, f)) == FinalDist(s, f)
  {
    BackCost(s, s.Layers() - 1, f);
  }

  /** Needed as well: a cut that has not settled is broken by one growth of one layer. */
  lemma UnsettledCutBreaks(t: Trellis, c: nat) returns (u: Trellis)
    requires t.Valid() && Solvable(t) && c < t.Layers() && FusedAt(t, c) && !CutHasSettled(t, c)
    ensures u.Valid() && Extends(u, t) && Solvable(u) && !Seamless(u, c)
  {
    CutIsValid(t, c);
    var n :| Strays(t, c, n);
    var m := StrayToForkAt(t, c, n);
    var f := FinalNode(t);
    var w := INF_W - 1 - FinalDist(t, f);
    u := Fork(t, m, f, w);
    ForkBreaksTheSeam(t, c, m, f, w);
  }

  lemma ArrivalIsPaid(t: Trellis, c: nat)
    requires t.Valid() && Solvable(t) && c < t.Layers()
    ensures Arrival(t, c) >= 0
  {
  }

  /**
   * Exactly when a cut at the convergence layer is safe for every future: every growth that still
   * solves is seamless if and only if the cut has settled.
   */
  lemma SeamlessForeverIffSettled(t: Trellis, c: nat)
    requires t.Valid() && Solvable(t) && c < t.Layers() && FusedAt(t, c)
    ensures (forall u: Trellis :: u.Valid() && Extends(u, t) && Solvable(u) ==> Seamless(u, c)) <==> CutHasSettled(t, c)
  {
    if CutHasSettled(t, c) {
      forall u: Trellis | u.Valid() && Extends(u, t) && Solvable(u)
        ensures Seamless(u, c)
      {
        SettledCutIsSeamless(u, t, c);
      }
    } else {
      var u := UnsettledCutBreaks(t, c);
    }
  }

  // ----- A cut that does move its seam -----

  /** Reaching node 0 of the middle layer is dear, but being at it is cheap. */
  ghost predicate IsDetour(t: Trellis) {
    && t.Valid() && t.FullyResolved() && t.widths == [1, 2, 2]
    && t.NodeWeight(0, 0) == 0 && t.NodeWeight(1, 0) == 5 && t.NodeWeight(1, 1) == 10
    && t.EdgeWeight(0, 0, 0) == 100 && t.EdgeWeight(0, 0, 1) == 0
    && (forall j :: 0 <= j < 2 ==> t.NodeWeight(2, j) == 0)
    && (forall i, j :: 0 <= i < 2 && 0 <= j < 2 ==> t.EdgeWeight(1, i, j) == 0)
  }

  lemma DetourExists() returns (t: Trellis)
    ensures IsDetour(t)
  {
    t := Trellis([1, 2, 2], [0, 5, 10, 0, 0], [Resolved([100, 0]), Resolved([0, 0, 0, 0])]);
    assert Start(t.widths, 1) == 1 && Start(t.widths, 2) == 3 && Start(t.widths, 3) == 5;
  }

  lemma DetourTable(t: Trellis, j: nat)
    requires IsDetour(t) && j < 2
    ensures Dist(t, 0, 0) == 0 && Dist(t, 1, 0) == 105 && Dist(t, 1, 1) == 10
    ensures Dist(t, 2, j) == 10 && Predecessor(t, 2, j) == 1
  {
    assert Inflow(t, 1, 0, 0) == INF_W && Inflow(t, 1, 0, 1) == 100;
    assert Inflow(t, 1, 1, 0) == INF_W && Inflow(t, 1, 1, 1) == 0;
    assert Inflow(t, 2, j, 0) == INF_W && Inflow(t, 2, j, 1) == 105 && Inflow(t, 2, j, 2) == 10;
    assert Via(t, 2, j, 0) == 105 && Via(t, 2, j, 1) == 10;
  }

  lemma CutDetourTable(t: Trellis, j: nat)
    requires IsDetour(t) && j < 2 && t.From(1).Valid()
    ensures t.From(1).Has(1, j) && Dist(t.From(1), 1, j) == 5 && Predecessor(t.From(1), 1, j) == 0
  {
    var s := t.From(1);
    CutNodeWeight(t, 1, 0, 0);
    CutNodeWeight(t, 1, 0, 1);
    CutNodeWeight(t, 1, 1, j);
    CutEdgeWeight(t, 1, 0, 0, j);
    CutEdgeWeight(t, 1, 0, 1, j);
    assert Inflow(s, 1, j, 0) == INF_W && Inflow(s, 1, j, 1) == 5 && Inflow(s, 1, j, 2) == 5;
    assert Via(s, 1, j, 0) == 5 && Via(s, 1, j, 1) == 10;
  }

  lemma DetourRoute(t: Trellis, j: nat)
    requires IsDetour(t) && j < 2
    ensures LiveFinal(t, j) && Route(t, j) == [0, 1, j] && FinalDist(t, j) == 10
  {
    assert Predecessor(t, 2, j) == 1 && Dist(t, 2, j) == 10 by { DetourTable(t, j); }
    assert Predecessor(t, 1, 1) == 0;
    assert Back(t, 1, 1) == [0, 1] by { assert Back(t, 0, 0) == [0]; }
  }

  lemma TwoRoutesMeet(t: Trellis)
    requires t.Valid() && t.FullyResolved() && t.Layers() == 3 && t.widths[2] == 2
    requires forall j :: 0 <= j < 2 ==> LiveFinal(t, j) && Route(t, j) == [0, 1, j] && FinalDist(t, j) == FinalDist(t, 0)
    ensures Solvable(t) && ConvergesAt(t, Some(1)) && Answer(t).nodes == [0, 1, 0]
  {
    assert FinalNode(t) == 0;
    assert Route(t, 0)[2] != Route(t, 1)[2];
    assert !FusedAt(t, 2);
  }

  lemma DetourConverges(t: Trellis)
    requires IsDetour(t)
    ensures Solvable(t) && ConvergesAt(t, Some(1)) && Answer(t).nodes == [0, 1, 0]
  {
    forall j | 0 <= j < 2
      ensures LiveFinal(t, j) && Route(t, j) == [0, 1, j] && FinalDist(t, j) == 10
    {
      DetourRoute(t, j);
    }
    TwoRoutesMeet(t);
  }

  lemma CutDetourAnswers(t: Trellis)
    requires IsDetour(t) && t.From(1).Valid() && Solvable(t.From(1))
    ensures Answer(t.From(1)).nodes == [0, 0]
  {
    var s := t.From(1);
    CutDetourTable(t, 0);
    CutDetourTable(t, 1);
    assert FinalDist(s, 0) == 5 && FinalDist(s, 1) == 5 && FinalNode(s) == 0;
    assert Back(s, 0, 0) == [0];
  }

  /** The cut keeps every node of the convergence layer, so its answer can leave the converged node. */
  lemma CutCanMoveItsSeam() returns (t: Trellis)
    ensures t.Valid() && Solvable(t) && ConvergesAt(t, Some(1)) && Answer(t).nodes == [0, 1, 0]
    ensures t.From(1).Valid() && Solvable(t.From(1)) && Answer(t.From(1)).nodes == [0, 0]
    ensures !Seamless(t, 1)
  {
    t := DetourExists();
    DetourConverges(t);
    CutStaysSolvable(t, 1);
    CutDetourAnswers(t);
  }
}
