/** Density clustering: seeding, expansion over a stack, and the classification it ends with. */
module Cluster {
  import opened Observations

  datatype Classification = Core(id: nat) | Edge(id: nat) | Noise

  /** The points, how far apart they are, and the two parameters of the clustering. */
  datatype Population = Population(points: seq<Point>, distance: (Point, Point) -> real, epsilon: real, capacity: nat) {

    predicate Near(i: nat, j: nat) { i < |points| && j < |points| && distance(points[i], points[j]) < epsilon }

    /** The indices below `k` within epsilon of point `i`, ascending. */
    function RangeBelow(i: nat, k: nat): (s: seq<nat>)
      requires i < |points| && k <= |points|
      ensures forall j {:trigger j in s} :: j in s <==> 0 <= j < k && Near(i, j)
      ensures forall m, n {:trigger s[m], s[n]} :: 0 <= m < n < |s| ==> s[m] < s[n]
    {
      if k == 0 then [] else
      var below := RangeBelow(i, k - 1);
      assert forall m :: 0 <= m < |below| ==> below[m] in below;
      below + if Near(i, k - 1) then [k - 1] else []
    }

    function RangeQuery(i: nat): (s: seq<nat>)
      requires i < |points|
      ensures forall j {:trigger j in s} :: j in s <==> 0 <= j && Near(i, j)
      ensures forall m, n {:trigger s[m], s[n]} :: 0 <= m < n < |s| ==> s[m] < s[n]
    {
      RangeBelow(i, |points|)
    }

    predicate IsCore(i: nat) { i < |points| && |RangeQuery(i)| >= capacity }

    ghost predicate Symmetric() {
      forall i: nat, j: nat :: Near(i, j) ==> Near(j, i)
    }

    /** A chain of core points, each within epsilon of the next. */
    ghost predicate CoreChain(p: seq<nat>) {
      && |p| > 0 && (forall k :: 0 <= k < |p| ==> IsCore(p[k]))
      && forall k :: 0 < k < |p| ==> Follows(p, k)
    }

    /** This point of a chain is within epsilon of the one before. */
    ghost predicate Follows(p: seq<nat>, k: nat)
      requires 0 < k < |p|
    {
      Near(p[k - 1], p[k])
    }

    ghost predicate Joins(p: seq<nat>, i: nat, j: nat) {
      CoreChain(p) && p[0] == i && p[|p| - 1] == j
    }

    ghost predicate Linked(i: nat, j: nat) { exists p :: Joins(p, i, j) }
  }

  /** The points within epsilon of point `i`. */
  ghost function Neighbourhood(w: Population, i: nat): set<nat>
    requires i < |w.points|
  {
    set j: nat | j < |w.points| && w.distance(w.points[i], w.points[j]) < w.epsilon
  }

  /** A point is a core exactly when at least the capacity of different points, itself among them, are near. */
  lemma CoreIsDense(w: Population, i: nat)
    requires i < |w.points|
    ensures w.IsCore(i) <==> |Neighbourhood(w, i)| >= w.capacity
  {
    AscendingIsASet(w.RangeQuery(i), Neighbourhood(w, i));
  }

  lemma {:induction false} AscendingIsASet(s: seq<nat>, all: set<nat>)
    requires forall m, n {:trigger s[m], s[n]} :: 0 <= m < n < |s| ==> s[m] < s[n]
    requires forall x :: x in s <==> x in all
    ensures |s| == |all|
  {
    if s == [] {
      assert all == {};
    } else {
      var k := |s| - 1;
      assert forall x :: x in s[..k] <==> x in all - {s[k]} by {
        assert s == s[..k] + [s[k]];
      }
      AscendingIsASet(s[..k], all - {s[k]});
    }
  }

  lemma LinkedExtends(w: Population, i: nat, j: nat, k: nat)
    requires w.Linked(i, j) && w.IsCore(k) && w.Near(j, k)
    ensures w.Linked(i, k)
  {
    var p :| w.Joins(p, i, j);
    var q := p + [k];
    forall m | 0 < m < |q|
      ensures w.Follows(q, m)
    {
      if m < |p| {
        assert w.Follows(p, m);
      }
    }
    assert w.Joins(q, i, k);
  }

  lemma LinkedSelf(w: Population, i: nat)
    requires w.IsCore(i)
    ensures w.Linked(i, i)
  {
    assert w.Joins([i], i, i);
  }

  lemma ChainShortens(w: Population, p: seq<nat>, n: nat)
    requires w.CoreChain(p) && 0 < n <= |p|
    ensures w.CoreChain(p[..n])
  {
    forall k | 0 < k < n
      ensures w.Follows(p[..n], k)
    {
      assert w.Follows(p, k);
    }
  }

  lemma {:induction false} ChainReverses(w: Population, p: seq<nat>) returns (q: seq<nat>)
    requires w.Symmetric() && w.CoreChain(p)
    ensures w.CoreChain(q) && q[0] == p[|p| - 1] && q[|q| - 1] == p[0]
  {
    if |p| == 1 {
      q := p;
    } else {
      var n := |p| - 1;
      ChainShortens(w, p, n);
      var r := ChainReverses(w, p[..n]);
      q := [p[n]] + r;
      assert w.Follows(p, n);
      forall k | 0 < k < |q|
        ensures w.Follows(q, k)
      {
        if k > 1 {
          assert w.Follows(r, k - 1);
        }
      }
    }
  }

  lemma {:induction false} LinkedAlong(w: Population, i: nat, q: seq<nat>, k: nat)
    requires w.CoreChain(q) && k < |q| && w.Linked(i, q[0])
    ensures w.Linked(i, q[k])
  {
    if k > 0 {
      LinkedAlong(w, i, q, k - 1);
      assert w.Follows(q, k);
      LinkedExtends(w, i, q[k - 1], q[k]);
    }
  }

  lemma LinkedBothWays(w: Population, root: nat, i: nat, j: nat)
    requires w.Symmetric() && w.Linked(root, i) && w.Linked(root, j)
    ensures w.Linked(i, j)
  {
    var p :| w.Joins(p, root, i);
    var q :| w.Joins(q, root, j);
    var r := ChainReverses(w, p);
    assert w.Joins(r, i, root);
    LinkedAlong(w, i, q, |q| - 1);
  }

  // ----- The invariant -----

  /** What is settled: cores are cores, edges touch a core of their number, nothing near a core is noise. */
  ghost predicate Labelled(w: Population, c: seq<Classification>, v: seq<bool>, next: nat) {
    && |c| == |v| == |w.points|
    && (forall i {:trigger c[i]} :: 0 <= i < |c| && c[i].Core? ==> w.IsCore(i) && v[i] && c[i].id < next)
    && (forall i {:trigger c[i]} :: 0 <= i < |c| && c[i].Edge? ==> v[i] && c[i].id < next && TouchesCore(w, c, i, c[i].id))
    && (forall i: nat, j: nat {:trigger w.Near(i, j)} :: i < |c| && j < |c| && c[i].Core? && w.Near(i, j) ==> v[j] && !c[j].Noise?)
  }

  /** Some core of number `id` is within epsilon of `i`. */
  ghost predicate TouchesCore(w: Population, c: seq<Classification>, i: nat, id: nat) {
    exists j: nat :: j < |c| && c[j] == Core(id) && w.Near(j, i)
  }

  /** Clusters numbered below `k` are closed: a core next to one of their cores is in them already. */
  ghost predicate Closed(w: Population, c: seq<Classification>, k: nat) {
    && |c| == |w.points|
    && forall i: nat, j: nat {:trigger w.Near(i, j)} :: i < |c| && j < |c| && c[i].Core? && c[i].id < k && w.Near(i, j) && w.IsCore(j) ==> c[j] == c[i]
  }

  /** Cores of one finished number all descend from one root. */
  ghost predicate Rooted(w: Population, c: seq<Classification>, roots: seq<nat>) {
    forall i {:trigger c[i]} :: 0 <= i < |c| && c[i].Core? && c[i].id < |roots| ==> w.Linked(roots[c[i].id], i)
  }

  /** Between seeds: every visited core is labelled, every labelled cluster is closed and rooted. */
  ghost predicate Quiet(w: Population, c: seq<Classification>, v: seq<bool>, roots: seq<nat>) {
    && Labelled(w, c, v, |roots|) && Closed(w, c, |roots|) && Rooted(w, c, roots)
    && forall i :: 0 <= i < |c| && v[i] && w.IsCore(i) ==> c[i].Core?
  }

  /** During an expansion of cluster `k` seeded at `seed`, with `queue` still to look at. */
  ghost predicate Busy(w: Population, c: seq<Classification>, v: seq<bool>, roots: seq<nat>, seed: nat, queue: seq<nat>) {
    var k := |roots|;
    && Labelled(w, c, v, k + 1) && Closed(w, c, k) && Rooted(w, c, roots)
    && (forall x {:trigger x in queue} :: x in queue ==> 0 <= x < |c| && v[x] && !c[x].Core?)
    && (forall x {:trigger x in queue} :: x in queue && w.IsCore(x) ==> w.Linked(seed, x))
    && (forall i {:trigger c[i]} :: 0 <= i < |c| && c[i] == Core(k) ==> w.Linked(seed, i))
    && (forall i :: 0 <= i < |c| && v[i] && w.IsCore(i) ==> c[i].Core? || i in queue)
  }

  /** Some core carries this number. */
  ghost predicate Made(c: seq<Classification>, k: nat) { exists i :: 0 <= i < |c| && c[i] == Core(k) }

  ghost predicate StillVisited(v: seq<bool>, v': seq<bool>) {
    |v| == |v'| && forall i {:trigger v'[i]} :: 0 <= i < |v| && v[i] ==> v'[i]
  }

  /** With nothing left to look at, the expansion is over: either it made cluster `k` or changed nothing. */
  lemma BusyEnds(w: Population, c: seq<Classification>, v: seq<bool>, roots: seq<nat>, seed: nat, made: bool)
    requires w.Symmetric() && Busy(w, c, v, roots, seed, [])
    requires made <==> Made(c, |roots|)
    ensures Quiet(w, c, v, if made then roots + [seed] else roots)
  {
    var k := |roots|;
    forall i: nat, j: nat | i < |c| && j < |c| && c[i].Core? && c[i].id < k + 1 && w.Near(i, j) && w.IsCore(j)
      ensures c[j] == c[i]
    {
      assert c[j].Core?;
      if c[i].id == k && c[j].id < k {
        assert w.Near(j, i);
      }
    }
    if !made {
      forall i | 0 <= i < |c| && c[i].Edge?
        ensures c[i].id < k
      {
        assert TouchesCore(w, c, i, c[i].id);
      }
    }
  }

  // ----- One pop of the expansion -----

  /** The labels after a core has been marked and its neighbours lifted out of the noise. */
  ghost predicate Lifted(w: Population, c: seq<Classification>, v: seq<bool>, queue: seq<nat>, at: nat, k: nat,
                         c': seq<Classification>, v': seq<bool>, queue': seq<nat>)
  {
    && |c'| == |c| && |v'| == |v| && |c| == |v| == |w.points| && at < |c|
    && (forall j: nat {:trigger c'[j]} :: j < |c| ==>
          c'[j] == if j == at then Core(k) else if w.Near(at, j) && c[j].Noise? then Edge(k) else c[j])
    && (forall j: nat {:trigger v'[j]} :: j < |c| ==> (v'[j] <==> v[j] || w.Near(at, j)))
    && (forall x {:trigger x in queue'} :: x in queue' <==> x in queue || (0 <= x < |v| && w.Near(at, x) && !v[x]))
  }

  lemma LiftKeepsLabelled(w: Population, c: seq<Classification>, v: seq<bool>, queue: seq<nat>, at: nat, k: nat,
                          c': seq<Classification>, v': seq<bool>, queue': seq<nat>)
    requires Labelled(w, c, v, k + 1) && Lifted(w, c, v, queue, at, k, c', v', queue') && w.IsCore(at) && v[at] && !c[at].Core?
    ensures Labelled(w, c', v', k + 1)
  {
    forall i | 0 <= i < |c'| && c'[i].Edge?
      ensures v'[i] && c'[i].id < k + 1 && TouchesCore(w, c', i, c'[i].id)
    {
      if c'[i] == c[i] {
        var j: nat :| j < |c| && c[j] == Core(c[i].id) && w.Near(j, i);
        assert c'[j] == Core(c'[i].id);
      } else {
        assert c'[at] == Core(k);
      }
    }
    forall i: nat, j: nat | i < |c'| && j < |c'| && c'[i].Core? && w.Near(i, j)
      ensures v'[j] && !c'[j].Noise?
    {
      assert i != at ==> c[i].Core?;
    }
  }

  lemma LiftKeepsClosed(w: Population, c: seq<Classification>, v: seq<bool>, queue: seq<nat>, at: nat, k: nat,
                        c': seq<Classification>, v': seq<bool>, queue': seq<nat>)
    requires Closed(w, c, k) && Lifted(w, c, v, queue, at, k, c', v', queue') && w.IsCore(at) && !c[at].Core?
    ensures Closed(w, c', k)
  {
    forall i: nat, j: nat | i < |c'| && j < |c'| && c'[i].Core? && c'[i].id < k && w.Near(i, j) && w.IsCore(j)
      ensures c'[j] == c'[i]
    {
      assert c'[i] == c[i] && c[j] == c[i];
    }
  }

  lemma LiftKeepsBusy(w: Population, c: seq<Classification>, v: seq<bool>, roots: seq<nat>, seed: nat, queue: seq<nat>, at: nat,
                      c': seq<Classification>, v': seq<bool>, queue': seq<nat>)
    requires Busy(w, c, v, roots, seed, queue + [at]) && w.IsCore(at) && at !in queue
    requires Lifted(w, c, v, queue, at, |roots|, c', v', queue')
    ensures Busy(w, c', v', roots, seed, queue')
  {
    var k := |roots|;
    assert at in queue + [at];
    LiftKeepsLabelled(w, c, v, queue, at, k, c', v', queue');
    LiftKeepsClosed(w, c, v, queue, at, k, c', v', queue');
    forall x | x in queue'
      ensures 0 <= x < |c'| && v'[x] && !c'[x].Core? && (w.IsCore(x) ==> w.Linked(seed, x))
    {
      if x in queue {
        assert x in queue + [at];
      } else {
        assert !c[x].Core? && x != at;
        if w.IsCore(x) {
          LinkedExtends(w, seed, at, x);
        }
      }
    }
    forall i | 0 <= i < |c'| && v'[i] && w.IsCore(i)
      ensures c'[i].Core? || i in queue'
    {
      if v[i] && i != at {
        assert c[i].Core? || i in queue + [at];
      }
    }
  }

  /** An edge point has the least number of the cores near it: the cluster that found it first. */
  ghost predicate EdgesLeast(w: Population, c: seq<Classification>) {
    |c| == |w.points| && forall i: nat, j: nat {:trigger w.Near(j, i)} ::
      i < |c| && j < |c| && c[i].Edge? && c[j].Core? && w.Near(j, i) ==> c[i].id <= c[j].id
  }

  /** Cores keep their number, and new ones have this one. */
  ghost predicate CoresKept(before: seq<Classification>, c: seq<Classification>, k: nat) {
    && |before| == |c|
    && forall i {:trigger c[i]} :: 0 <= i < |c| ==>
         (before[i].Core? ==> c[i] == before[i]) && (c[i].Core? && !before[i].Core? ==> c[i] == Core(k))
  }

  lemma LiftKeepsNumbers(w: Population, before: seq<Classification>, c: seq<Classification>, v: seq<bool>, queue: seq<nat>,
                         at: nat, k: nat, c': seq<Classification>, v': seq<bool>, queue': seq<nat>)
    requires Labelled(w, c, v, k + 1) && Lifted(w, c, v, queue, at, k, c', v', queue') && !c[at].Core?
    requires EdgesLeast(w, c) && CoresKept(before, c, k)
    ensures EdgesLeast(w, c') && CoresKept(before, c', k)
  {
    forall i: nat, j: nat | i < |c'| && j < |c'| && c'[i].Edge? && c'[j].Core? && w.Near(j, i)
      ensures c'[i].id <= c'[j].id
    {
      assert j != at ==> c'[j] == c[j] && !c[i].Noise?;
    }
    forall i {:trigger c'[i]} | 0 <= i < |c'|
      ensures (before[i].Core? ==> c'[i] == before[i]) && (c'[i].Core? && !before[i].Core? ==> c'[i] == Core(k))
    {
      assert before[i].Core? ==> c[i] == before[i];
    }
  }

  /** A cluster that came of a seed has the seed among its cores. */
  lemma SeedIsACore(w: Population, before: seq<Classification>, c: seq<Classification>, v: seq<bool>, roots: seq<nat>, seed: nat)
    requires Quiet(w, c, v, roots + [seed]) && Made(c, |roots|) && seed < |c| && v[seed]
    requires CoresKept(before, c, |roots|) && !before[seed].Core?
    ensures c[seed] == Core(|roots|)
  {
    var i :| 0 <= i < |c| && c[i] == Core(|roots|);
    assert w.Linked((roots + [seed])[|roots|], i);
    var p :| w.Joins(p, seed, i);
    assert w.IsCore(p[0]);
  }

  /** The roots ascend, and each is the first core of its number. */
  ghost predicate RootsLead(c: seq<Classification>, roots: seq<nat>) {
    && (forall m, n {:trigger roots[m], roots[n]} :: 0 <= m < n < |roots| ==> roots[m] < roots[n])
    && (forall m {:trigger roots[m]} :: 0 <= m < |roots| ==> roots[m] < |c| && c[roots[m]] == Core(m))
    && (forall i {:trigger c[i]} :: 0 <= i < |c| && c[i].Core? ==> c[i].id < |roots| && roots[c[i].id] <= i)
  }

  /** A seed's expansion keeps the roots leading, with the seed for a new cluster's. */
  lemma RootsLeadOn(w: Population, c: seq<Classification>, v: seq<bool>, roots: seq<nat>, seed: nat, made: bool,
                    c': seq<Classification>, v': seq<bool>)
    requires Quiet(w, c, v, roots) && RootsLead(c, roots) && seed < |c| && (forall i :: 0 <= i < seed ==> v[i])
    requires (forall m :: 0 <= m < |roots| ==> roots[m] < seed)
    requires Quiet(w, c', v', if made then roots + [seed] else roots) && CoresKept(c, c', |roots|)
    requires made ==> c'[seed] == Core(|roots|)
    ensures RootsLead(c', if made then roots + [seed] else roots)
  {
    var all := if made then roots + [seed] else roots;
    forall m {:trigger all[m]} | 0 <= m < |all|
      ensures all[m] < |c'| && c'[all[m]] == Core(m)
    {
      if m < |roots| { assert all[m] == roots[m] && c[roots[m]] == Core(m); }
    }
    forall i {:trigger c'[i]} | 0 <= i < |c'| && c'[i].Core?
      ensures c'[i].id < |all| && all[c'[i].id] <= i
    {
      if c[i].Core? {
        assert c'[i] == c[i] && roots[c[i].id] <= i;
      } else {
        assert c'[i] == Core(|roots|) && w.IsCore(i);
      }
    }
  }

  lemma SkipKeepsBusy(w: Population, c: seq<Classification>, v: seq<bool>, roots: seq<nat>, seed: nat, queue: seq<nat>, at: nat)
    requires Busy(w, c, v, roots, seed, queue + [at]) && !w.IsCore(at)
    ensures Busy(w, c, v, roots, seed, queue)
  {
    forall x | x in queue
      ensures x in queue + [at]
    {
    }
  }

  // ----- The loops -----

  function Unvisited(v: seq<bool>): nat {
    if v == [] then 0 else Unvisited(v[..|v| - 1]) + if v[|v| - 1] then 0 else 1
  }

  lemma {:induction false} VisitingCounts(v: seq<bool>, i: nat)
    requires i < |v| && !v[i]
    ensures Unvisited(v[i := true]) == Unvisited(v) - 1
  {
    var n := |v| - 1;
    if i < n {
      VisitingCounts(v[..n], i);
      assert v[i := true][..n] == v[..n][i := true];
    } else {
      assert v[i := true][..n] == v[..n];
    }
  }

  ghost predicate NoRepeats(q: seq<nat>) {
    forall i, j :: 0 <= i < j < |q| ==> q[i] != q[j]
  }

  /** What the stack's top and the rest of it are known to be. */
  lemma PopsAVisited(w: Population, c: seq<Classification>, v: seq<bool>, roots: seq<nat>, seed: nat, queue: seq<nat>)
    requires Busy(w, c, v, roots, seed, queue) && NoRepeats(queue) && queue != []
    ensures var rest, at := queue[..|queue| - 1], queue[|queue| - 1];
      && queue == rest + [at] && NoRepeats(rest) && at < |c| && v[at] && !c[at].Core?
      && forall x {:trigger x in rest} :: x in rest ==> x < |v| && v[x]
  {
    var rest, at := queue[..|queue| - 1], queue[|queue| - 1];
    assert queue == rest + [at] && at in queue;
    forall x {:trigger x in rest} | x in rest
      ensures x in queue
    {
    }
  }

  /** What meeting these neighbours of a new core of cluster `k` makes of labels, visits and stack. */
  ghost predicate Met(labels: seq<Classification>, visited: seq<bool>, queue: seq<nat>, near: seq<nat>, at: nat, k: nat,
                      c: seq<Classification>, v: seq<bool>, pushed: seq<nat>)
  {
    && |c| == |labels| == |v| == |visited|
    && (forall j: nat {:trigger c[j]} :: j < |c| ==>
          c[j] == if j == at then Core(k) else if j in near && labels[j].Noise? then Edge(k) else labels[j])
    && (forall j: nat {:trigger v[j]} :: j < |c| ==> (v[j] <==> visited[j] || j in near))
    && (forall x {:trigger x in pushed} :: x in pushed <==> x in queue || (x < |visited| && x in near && !visited[x]))
  }

  lemma MeetsOne(labels: seq<Classification>, visited: seq<bool>, queue: seq<nat>, near: seq<nat>, at: nat, k: nat,
                 c: seq<Classification>, v: seq<bool>, pushed: seq<nat>, n: nat)
    requires Met(labels, visited, queue, near, at, k, c, v, pushed) && n < |c| && at < |c|
    requires visited[at] && forall x :: x in queue ==> x < |visited| && visited[x]
    ensures Met(labels, visited, queue, near + [n], at, k,
                if c[n].Noise? then c[n := Edge(k)] else c, v[n := true], if v[n] then pushed else pushed + [n])
    ensures forall x :: x in pushed ==> x < |v| && v[x]
  {
  }

  class IntoCluster {
    const world: Population
    var c: seq<Classification>
    var v: seq<bool>

    constructor (w: Population)
      ensures world == w && c == seq(|w.points|, _ => Noise) && v == seq(|w.points|, _ => false)
    {
      world := w;
      c, v := seq(|w.points|, _ => Noise), seq(|w.points|, _ => false);
    }

    /** Mark a core and go through its neighbours: lift the noise, push the unvisited. */
    method Absorb(at: nat, cluster: nat, queue: seq<nat>) returns (pushed: seq<nat>)
      requires |c| == |v| == |world.points| && at < |c| && NoRepeats(queue)
      requires (forall x :: x in queue ==> x < |v| && v[x]) && v[at]
      modifies this
      ensures Lifted(world, old(c), old(v), queue, at, cluster, c, v, pushed) && NoRepeats(pushed)
      ensures |pushed| + 2 * Unvisited(v) <= |queue| + 2 * Unvisited(old(v))
    {
      c := c[at := Core(cluster)];
      pushed := queue;
      var neighbours := world.RangeQuery(at);
      for m := 0 to |neighbours|
        invariant Met(old(c), old(v), queue, neighbours[..m], at, cluster, c, v, pushed) && NoRepeats(pushed)
        invariant |pushed| + 2 * Unvisited(v) <= |queue| + 2 * Unvisited(old(v))
      {
        var n := neighbours[m];
        assert n in neighbours && neighbours[..m + 1] == neighbours[..m] + [n];
        MeetsOne(old(c), old(v), queue, neighbours[..m], at, cluster, c, v, pushed, n);
        pushed := Meet(n, cluster, pushed);
      }
      assert neighbours[..|neighbours|] == neighbours;
    }

    /** Lift one neighbour out of the noise, and push it if it is new. */
    method Meet(n: nat, cluster: nat, queue: seq<nat>) returns (pushed: seq<nat>)
      requires |c| == |v| && n < |c| && NoRepeats(queue) && forall x :: x in queue ==> x < |v| && v[x]
      modifies this
      ensures c == if old(c)[n].Noise? then old(c)[n := Edge(cluster)] else old(c)
      ensures v == old(v)[n := true] && pushed == (if old(v)[n] then queue else queue + [n]) && NoRepeats(pushed)
      ensures |pushed| + 2 * Unvisited(v) <= |queue| + 2 * Unvisited(old(v))
    {
      pushed := queue;
      if c[n].Noise? {
        c := c[n := Edge(cluster)];
      }
      if !v[n] {
        VisitingCounts(v, n);
        assert n !in queue;
        assert forall i :: 0 <= i < |queue| ==> queue[i] in queue;
        v := v[n := true];
        pushed := queue + [n];
      }
    }

    /** Expand one seed over the stack until it is empty; true when a cluster came of it. */
    method ExpandCluster(seed: nat, cluster: nat, ghost roots: seq<nat>) returns (made: bool)
      requires cluster == |roots| && world.Symmetric() && seed < |c| && Busy(world, c, v, roots, seed, [seed])
      requires forall i :: 0 <= i < |c| ==> c[i] != Core(|roots|)
      requires EdgesLeast(world, c)
      modifies this
      ensures Quiet(world, c, v, if made then roots + [seed] else roots)
      ensures StillVisited(old(v), v)
      ensures EdgesLeast(world, c) && CoresKept(old(c), c, cluster) && (made ==> c[seed] == Core(cluster))
    {
      made := false;
      var queue := [seed];
      assert seed in queue;
      while queue != []
        invariant NoRepeats(queue) && Busy(world, c, v, roots, seed, queue)
        invariant made <==> Made(c, |roots|)
        invariant StillVisited(old(v), v) && EdgesLeast(world, c) && CoresKept(old(c), c, cluster)
        decreases |queue| + 2 * Unvisited(v)
      {
        var n := |queue| - 1;
        var at := queue[n];
        var rest := queue[..n];
        PopsAVisited(world, c, v, roots, seed, queue);
        if |world.RangeQuery(at)| >= world.capacity {
          made := true;
          ghost var before, visited := c, v;
          queue := Absorb(at, cluster, rest);
          LiftKeepsBusy(world, before, visited, roots, seed, rest, at, c, v, queue);
          LiftKeepsNumbers(world, old(c), before, visited, rest, at, cluster, c, v, queue);
          assert c[at] == Core(|roots|);
        } else {
          SkipKeepsBusy(world, c, v, roots, seed, rest, at);
          queue := rest;
        }
      }
      BusyEnds(world, c, v, roots, seed, made);
      if made {
        SeedIsACore(world, old(c), c, v, roots, seed);
      }
    }

    /** Expand one point, unless it has been visited, all before it having been. */
    method SeedPoint(idx: nat, cluster: nat, ghost roots: seq<nat>) returns (next: nat, ghost all: seq<nat>)
      requires cluster == |roots| && world.Symmetric() && idx < |c| && SeededUpTo(world, c, v, roots, idx)
      modifies this
      ensures next == |all| && SeededUpTo(world, c, v, all, idx + 1)
    {
      next, all := cluster, roots;
      if v[idx] {
        return;
      }
      ghost var labels, before := c, v;
      v := v[idx := true];
      SeedIsBusy(world, c, before, roots, idx);
      var made := ExpandCluster(idx, cluster, roots);
      RootsLeadOn(world, labels, before, roots, idx, made, c, v);
      if made {
        next, all := cluster + 1, roots + [idx];
      }
    }

    /** Seed every unvisited point in turn, numbering clusters as they appear. */
    method Classify()
      requires world.Symmetric() && c == seq(|world.points|, _ => Noise) && v == seq(|world.points|, _ => false)
      modifies this
      ensures IsDensityClustering(world, c) && IsNumbered(world, c)
    {
      var cluster := 0;
      ghost var roots: seq<nat> := [];
      for idx := 0 to |world.points|
        invariant cluster == |roots| && SeededUpTo(world, c, v, roots, idx)
      {
        cluster, roots := SeedPoint(idx, cluster, roots);
      }
      QuietIsClustering(world, c, v, roots);
    }
  }

  /** The points below `k` have been seeded, and the clusters they gave have these roots. */
  ghost predicate SeededUpTo(w: Population, c: seq<Classification>, v: seq<bool>, roots: seq<nat>, k: nat) {
    && Quiet(w, c, v, roots) && EdgesLeast(w, c) && RootsLead(c, roots)
    && (forall i :: 0 <= i < k && i < |v| ==> v[i]) && (forall m :: 0 <= m < |roots| ==> roots[m] < k)
  }

  /** Visiting a fresh seed starts an expansion. */
  lemma SeedIsBusy(w: Population, c: seq<Classification>, v: seq<bool>, roots: seq<nat>, seed: nat)
    requires w.Symmetric() && Quiet(w, c, v, roots) && seed < |v| && !v[seed]
    ensures Busy(w, c, v[seed := true], roots, seed, [seed])
    ensures forall i :: 0 <= i < |c| ==> c[i] != Core(|roots|)
  {
    assert !c[seed].Core?;
    if w.IsCore(seed) {
      LinkedSelf(w, seed);
    }
  }

  /**
   * What a classification means: cores are exactly the dense points; two cores share a number
   * exactly when core points link them within epsilon; an edge is a point that is not dense but
   * within epsilon of a core of its number; everything else is noise.
   */
  ghost predicate IsDensityClustering(w: Population, c: seq<Classification>) {
    && |c| == |w.points|
    && (forall i: nat :: i < |c| ==> (c[i].Core? <==> w.IsCore(i)))
    && (forall i: nat, j: nat :: i < |c| && j < |c| && w.IsCore(i) && w.IsCore(j) ==> (c[i] == c[j] <==> w.Linked(i, j)))
    && (forall i: nat :: i < |c| ==> (c[i].Edge? <==> !w.IsCore(i) && exists j: nat :: w.IsCore(j) && w.Near(j, i)))
    && (forall i: nat :: i < |c| && c[i].Edge? ==> TouchesCore(w, c, i, c[i].id))
  }

  lemma {:induction false} ChainKeepsLabel(w: Population, c: seq<Classification>, v: seq<bool>, roots: seq<nat>, p: seq<nat>)
    requires Quiet(w, c, v, roots) && (forall i :: 0 <= i < |v| ==> v[i]) && w.CoreChain(p)
    ensures p[0] < |c| && p[|p| - 1] < |c| && c[p[0]] == c[p[|p| - 1]]
  {
    assert w.IsCore(p[0]);
    if |p| > 1 {
      var n := |p| - 1;
      ChainShortens(w, p, n);
      ChainKeepsLabel(w, c, v, roots, p[..n]);
      assert w.Follows(p, n) && w.Near(p[n - 1], p[n]) && w.IsCore(p[n]) && w.IsCore(p[n - 1]);
    }
  }

  /** Once every point is visited and nothing is pending, the labels are a density clustering. */
  lemma QuietIsClustering(w: Population, c: seq<Classification>, v: seq<bool>, roots: seq<nat>)
    requires w.Symmetric() && Quiet(w, c, v, roots) && forall i :: 0 <= i < |v| ==> v[i]
    ensures IsDensityClustering(w, c)
  {
    forall i: nat, j: nat | i < |c| && j < |c| && w.IsCore(i) && w.IsCore(j)
      ensures c[i] == c[j] <==> w.Linked(i, j)
    {
      if c[i] == c[j] {
        LinkedBothWays(w, roots[c[i].id], i, j);
      }
      if w.Linked(i, j) {
        var p :| w.Joins(p, i, j);
        ChainKeepsLabel(w, c, v, roots, p);
      }
    }
    forall i: nat | i < |c|
      ensures c[i].Edge? <==> !w.IsCore(i) && exists j: nat :: w.IsCore(j) && w.Near(j, i)
    {
      if c[i].Edge? {
        var j: nat :| j < |c| && c[j] == Core(c[i].id) && w.Near(j, i);
        assert w.IsCore(j);
      }
      if !w.IsCore(i) && exists j: nat :: w.IsCore(j) && w.Near(j, i) {
        var j: nat :| w.IsCore(j) && w.Near(j, i);
        assert c[j].Core?;
      }
    }
  }

  // ----- One classification -----

  /** Clusters are numbered from zero by their first cores, and an edge goes to the least of those near it. */
  ghost predicate IsNumbered(w: Population, c: seq<Classification>) {
    EdgesLeast(w, c) && exists roots :: RootsLead(c, roots)
  }

  /** No core linked to this one comes before it. */
  ghost predicate LeadsItsCluster(w: Population, x: nat) {
    w.IsCore(x) && forall i: nat :: i < |w.points| && w.IsCore(i) && w.Linked(x, i) ==> x <= i
  }

  lemma RootsAreTheLeaders(w: Population, c: seq<Classification>, roots: seq<nat>, x: nat)
    requires IsDensityClustering(w, c) && RootsLead(c, roots)
    ensures x in roots <==> LeadsItsCluster(w, x)
  {
    if x in roots {
      var m :| 0 <= m < |roots| && roots[m] == x;
      forall i: nat | i < |w.points| && w.IsCore(i) && w.Linked(x, i)
        ensures x <= i
      {
        assert c[i] == c[x];
      }
    }
    if LeadsItsCluster(w, x) {
      var first := roots[c[x].id];
      assert w.IsCore(first) && c[first] == c[x];
    }
  }

  ghost predicate Ascends(s: seq<nat>) {
    forall m, n {:trigger s[m], s[n]} :: 0 <= m < n < |s| ==> s[m] < s[n]
  }

  lemma {:induction false} AscendingIsUnique(a: seq<nat>, b: seq<nat>)
    requires Ascends(a) && Ascends(b) && forall x :: x in a <==> x in b
    ensures a == b
  {
    EmptyAlike(a, b);
    if a != [] {
      var last := SameLast(a, b);
      WithoutLast(a, last);
      WithoutLast(b, last);
      var before, others := a[..|a| - 1], b[..|b| - 1];
      forall x
        ensures x in before <==> x in others
      {
        assert x in a <==> x in b;
      }
      AscendingIsUnique(before, others);
      assert a == a[..|a| - 1] + [last] && b == b[..|b| - 1] + [last];
    }
  }

  lemma SameLast(a: seq<nat>, b: seq<nat>) returns (last: nat)
    requires Ascends(a) && Ascends(b) && a != [] && b != [] && forall x :: x in a <==> x in b
    ensures last == a[|a| - 1] == b[|b| - 1]
  {
    last := a[|a| - 1];
    LastIsGreatest(a, b[|b| - 1]);
    LastIsGreatest(b, last);
  }

  lemma EmptyAlike(a: seq<nat>, b: seq<nat>)
    requires forall x :: x in a <==> x in b
    ensures a == [] <==> b == []
  {
    if a != [] { assert a[0] in b; }
    if b != [] { assert b[0] in a; }
  }

  lemma LastIsGreatest(s: seq<nat>, x: nat)
    requires s != [] && Ascends(s)
    ensures x in s ==> x <= s[|s| - 1]
    ensures s[|s| - 1] in s
  {
  }

  lemma WithoutLast(s: seq<nat>, last: nat)
    requires s != [] && Ascends(s) && last == s[|s| - 1]
    ensures Ascends(s[..|s| - 1]) && forall x :: x in s[..|s| - 1] <==> x in s && x != last
  {
    assert s == s[..|s| - 1] + [last];
  }

  /** A core's number is the same in any such classification. */
  lemma CoresAgree(w: Population, c: seq<Classification>, d: seq<Classification>, roots: seq<nat>, i: nat)
    requires IsDensityClustering(w, c) && IsDensityClustering(w, d) && RootsLead(c, roots) && RootsLead(d, roots)
    requires i < |w.points| && w.IsCore(i)
    ensures c[i] == d[i]
  {
    assert c[i].Core?;
    var first := roots[c[i].id];
    assert c[first] == c[i] && d[first] == Core(c[i].id);
    assert w.IsCore(first);
    assert d[i] == d[first];
  }

  lemma EdgeIsNoLess(w: Population, c: seq<Classification>, d: seq<Classification>, roots: seq<nat>, i: nat)
    requires IsDensityClustering(w, c) && IsDensityClustering(w, d) && RootsLead(c, roots) && RootsLead(d, roots)
    requires EdgesLeast(w, d) && i < |c| && c[i].Edge?
    ensures d[i].Edge? && d[i].id <= c[i].id
  {
    var j: nat :| j < |c| && c[j] == Core(c[i].id) && w.Near(j, i);
    CoresAgree(w, c, d, roots, j);
  }

  /** These laws leave one classification: every core's number and every edge's is determined by the points. */
  lemma ClassificationIsUnique(w: Population, c: seq<Classification>, d: seq<Classification>)
    requires IsDensityClustering(w, c) && IsNumbered(w, c) && IsDensityClustering(w, d) && IsNumbered(w, d)
    ensures c == d
  {
    var roots :| RootsLead(c, roots);
    var others :| RootsLead(d, others);
    forall x
      ensures x in roots <==> x in others
    {
      RootsAreTheLeaders(w, c, roots, x);
      RootsAreTheLeaders(w, d, others, x);
    }
    AscendingIsUnique(roots, others);
    forall i | 0 <= i < |c|
      ensures c[i] == d[i]
    {
      if w.IsCore(i) {
        CoresAgree(w, c, d, roots, i);
      } else if c[i].Edge? {
        EdgeIsNoLess(w, c, d, roots, i);
        EdgeIsNoLess(w, d, c, roots, i);
      }
    }
  }
}
