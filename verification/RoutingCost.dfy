/** The routing cost: a running average road weight, squared, times the distance travelled. */
module RoutingCost {
  import opened Numbers

  /** Sum of road weights, number of edges, and whole centimetres. */
  datatype Cost = Cost(numerator: nat, denominator: nat, distance: nat) {

    /** The running average road weight, truncated. */
    function Weight(): (r: nat)
      ensures denominator > 0 ==> r * denominator <= numerator < (r + 1) * denominator
      ensures denominator == 0 ==> r == 0
    {
      if denominator == 0 then 0 else
      QuotientBounds(numerator, denominator);
      numerator / denominator
    }

    /** What costs are compared by, saturated to 32 bits as the float cast saturates. */
    function Repr(): (r: u32) {
      var exact := Weight() * Weight() * distance;
      if exact > U32_MAX then U32_MAX else exact
    }

    function Plus(that: Cost): Cost {
      Cost(numerator + that.numerator, denominator + that.denominator, distance + that.distance)
    }
  }

  lemma QuotientBounds(n: nat, d: nat)
    requires d > 0
    ensures 0 <= n / d && (n / d) * d <= n < (n / d + 1) * d
  {
    assert n == d * (n / d) + n % d;
  }

  const ZERO := Cost(0, 0, 0)

  /** A road leading to `to`, of this class weight and length. */
  datatype Road = Road(to: int, weight: nat, distance: nat) {
    function Charge(): Cost { Cost(weight, 1, distance) }
  }

  /** The roads accessible out of each node. */
  type Network = map<int, seq<Road>>

  function Out(g: Network, n: int): seq<Road> { if n in g then g[n] else [] }

  // ----- What a list of roads compares by -----

  /** What a route pays. */
  ghost function Total(roads: seq<Road>): Cost {
    if roads == [] then ZERO else Total(roads[..|roads| - 1]).Plus(roads[|roads| - 1].Charge())
  }

  ghost function Weights(roads: seq<Road>): nat {
    if roads == [] then 0 else Weights(roads[..|roads| - 1]) + roads[|roads| - 1].weight
  }

  ghost function Length(roads: seq<Road>): nat {
    if roads == [] then 0 else Length(roads[..|roads| - 1]) + roads[|roads| - 1].distance
  }

  /** `mean` is the average weight of these roads, truncated. */
  ghost predicate IsMean(roads: seq<Road>, mean: nat) {
    roads != [] && mean * |roads| <= Weights(roads) < (mean + 1) * |roads|
  }

  lemma TotalStep(roads: seq<Road>, road: Road)
    ensures Total(roads + [road]) == Total(roads).Plus(road.Charge())
  {
    assert (roads + [road])[..|roads|] == roads;
  }

  lemma {:induction false} TotalSums(roads: seq<Road>)
    ensures Total(roads) == Cost(Weights(roads), |roads|, Length(roads))
  {
    if roads != [] { TotalSums(roads[..|roads| - 1]); }
  }

  lemma MeanIsUnique(n: nat, sum: nat, a: nat, b: nat)
    requires a * n <= sum < (a + 1) * n && b * n <= sum < (b + 1) * n
    ensures a == b
  {
    CancelLess(n, a, b + 1);
    CancelLess(n, b, a + 1);
  }

  /** For any weights: the square of the truncated average weight, times the whole length, capped at 32 bits. */
  lemma ComparesBy(roads: seq<Road>, mean: nat)
    requires IsMean(roads, mean)
    ensures Total(roads).Repr() == Min(mean * mean * Length(roads), U32_MAX)
  {
    TotalSums(roads);
    MeanIsUnique(|roads|, Weights(roads), mean, Total(roads).Weight());
  }

  /** And there is always such an average. */
  lemma MeanExists(roads: seq<Road>) returns (mean: nat)
    requires roads != []
    ensures IsMean(roads, mean)
  {
    TotalSums(roads);
    mean := Total(roads).Weight();
  }

  /** Nothing yet, or every edge so far of weight `w`. */
  ghost predicate Uniform(c: Cost, w: nat) {
    c == ZERO || (c.denominator > 0 && c.numerator == w * c.denominator)
  }

  /** What a uniform cost compares by. */
  ghost function Key(w: nat, distance: nat): u32 {
    var exact := w * w * distance;
    if exact > U32_MAX then U32_MAX else exact
  }

  lemma UniformRepr(c: Cost, w: nat)
    requires Uniform(c, w)
    ensures c.Repr() == Key(w, c.distance)
  {
    if c != ZERO {
      assert c.Weight() == w by {
        DivideExactly(w, c.denominator);
      }
    }
  }

  lemma DivideExactly(w: nat, d: nat)
    requires d > 0
    ensures (w * d) / d == w
  {
    var q := (w * d) / d;
    DistributeOne(d, q);
    CancelLess(d, q, w + 1);
    DistributeOne(d, w);
    CancelLess(d, w, q + 1);
  }

  lemma CancelLess(d: nat, a: nat, b: nat)
    ensures d * a < d * b ==> a < b
  {
    if b <= a {
      ScaleMonotone(d, b, a);
    }
  }

  lemma DistributeOne(s: nat, b: nat)
    ensures s * (b + 1) == s * b + s
  {
  }

  lemma UniformPlus(c: Cost, r: Road, w: nat)
    requires Uniform(c, w) && r.weight == w
    ensures Uniform(c.Plus(r.Charge()), w) && c.Plus(r.Charge()).distance == c.distance + r.distance
  {
    assert w * (c.denominator + 1) == w * c.denominator + w;
  }

  lemma KeyIsMonotone(w: nat, a: nat, b: nat)
    requires a <= b
    ensures Key(w, a) <= Key(w, b)
  {
    assert w * w * a <= w * w * b by {
      ScaleMonotone(w * w, a, b);
    }
  }

  lemma ScaleMonotone(s: nat, a: nat, b: nat)
    requires a <= b
    ensures s * a <= s * b
  {
  }

  /** Below a bound that fits 32 bits, comparing keys is comparing distances. */
  lemma KeyIsExact(w: nat, reach: nat, a: nat, b: nat)
    requires w > 0 && w * w * reach <= U32_MAX && b < reach && Key(w, a) <= Key(w, b)
    ensures a <= b
  {
    var s := w * w;
    assert s > 0;
    if a > b {
      DistributeOne(s, b);
      ScaleMonotone(s, b + 1, reach);
      ScaleMonotone(s, b + 1, a);
    }
  }
}
