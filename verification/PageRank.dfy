/** PageRank by power iteration (graph/src/lib.rs): the chain it iterates, and the loop that does. */
module PageRank {
  import opened RealSums
  import opened Sequences
  import opened Graph

  // ---------------------------------------------------------------------------
  // The chain
  // ---------------------------------------------------------------------------

  /** One walk over the graph's nodes: the live targets each node links to, with repeats, and the
      distribution along which restarts and dangling nodes jump. */
  datatype Chain = Chain(out: map<NodeId, seq<NodeId>>, teleport: map<NodeId, real>)

  ghost predicate Valid(c: Chain) {
    && c.teleport.Keys == c.out.Keys
    && (forall u, v :: u in c.out && v in c.out[u] ==> v in c.out)
    && (forall v :: v in c.teleport ==> c.teleport[v] >= 0.0)
  }

  /** A product under a name, so that proofs can leave it closed. */
  ghost function Times(k: real, x: real): real {
    k * x
  }

  /** Restart with probability `1 - d`, walk on with probability `d`. */
  ghost function Mix(d: real, restart: real, walk: real): real {
    (1.0 - d) * restart + d * walk
  }

  ghost function At(rank: map<NodeId, real>): NodeId -> real {
    v => if v in rank then rank[v] else 0.0
  }

  ghost function Mass(rank: map<NodeId, real>): real {
    Sum(rank.Keys, At(rank))
  }

  /** The part of `u`'s rank that moves on to `v`: split over the live links, or all along `teleport`. */
  ghost function Weight(c: Chain, u: NodeId, v: NodeId): real {
    if u !in c.out then 0.0
    else if c.out[u] == [] then At(c.teleport)(v)
    else multiset(c.out[u])[v] as real / |c.out[u]| as real
  }

  ghost function Inflow(c: Chain, rank: map<NodeId, real>, v: NodeId): real {
    Sum(c.out.Keys, Into(Moved(c, At(rank)), v))
  }

  /** One iteration with damping `d`. */
  ghost function Next(c: Chain, d: real, rank: map<NodeId, real>): (r: map<NodeId, real>)
    requires c.teleport.Keys == c.out.Keys
    ensures r.Keys == c.out.Keys
  {
    map v | v in c.out :: Mix(d, c.teleport[v], Inflow(c, rank, v))
  }

  ghost function Iterate(c: Chain, d: real, k: nat): (r: map<NodeId, real>)
    requires c.teleport.Keys == c.out.Keys
    ensures r.Keys == c.out.Keys
  {
    if k == 0 then c.teleport else Next(c, d, Iterate(c, d, k - 1))
  }

  ghost predicate Distribution(c: Chain, rank: map<NodeId, real>) {
    rank.Keys == c.out.Keys && (forall v :: v in rank ==> rank[v] >= 0.0) && Mass(rank) == 1.0
  }

  // ---------------------------------------------------------------------------
  // Rows sum to one
  // ---------------------------------------------------------------------------

  lemma WeightNonNegative(c: Chain, u: NodeId, v: NodeId)
    requires Valid(c)
    ensures Weight(c, u, v) >= 0.0
  {
  }

  ghost function Occurrences(s: seq<NodeId>): NodeId -> real {
    v => multiset(s)[v] as real
  }

  ghost function Indicator(x: NodeId): NodeId -> real {
    v => if v == x then 1.0 else 0.0
  }

  ghost function Row(c: Chain, u: NodeId): NodeId -> real {
    v => Weight(c, u, v)
  }

  ghost function Moved(c: Chain, f: NodeId -> real): (NodeId, NodeId) -> real {
    (u, v) => f(u) * Weight(c, u, v)
  }

  /** What the redistribution of `f` leaves in total for `u`'s part. */
  ghost function Kept(c: Chain, f: NodeId -> real): NodeId -> real {
    u => if u in c.out && c.out[u] == [] then Mass(c.teleport) * f(u) else f(u)
  }

  /** Counting every element of `s` over a set that contains them all counts its length. */
  lemma {:induction false} OccurrencesSum(s: seq<NodeId>, all: set<NodeId>)
    requires forall v :: v in s ==> v in all
    ensures Sum(all, Occurrences(s)) == |s| as real
  {
    hide Sum, Occurrences, Indicator;
    if s == [] {
      NoOccurrences();
      SumConstant(all, 0.0, Occurrences(s));
    } else {
      var x, rest := s[0], s[1..];
      OccurrencesSum(rest, all);
      assert s == [x] + rest;
      OneMoreOccurrence(x, rest);
      SumPlus(all, Occurrences(rest), Indicator(x), Occurrences(s));
      SumTake(all, Indicator(x), x);
      SumConstant(all - {x}, 0.0, Indicator(x));
      assert |s| as real == |rest| as real + 1.0;
    }
  }

  lemma NoOccurrences()
    ensures forall v :: Occurrences([])(v) == 0.0
  {
  }

  lemma OneMoreOccurrence(x: NodeId, rest: seq<NodeId>)
    ensures forall v :: Occurrences([x] + rest)(v) == Occurrences(rest)(v) + Indicator(x)(v)
    ensures Indicator(x)(x) == 1.0 && forall v :: v != x ==> Indicator(x)(v) == 0.0
  {
    forall v
      ensures Occurrences([x] + rest)(v) == Occurrences(rest)(v) + Indicator(x)(v)
    {
      assert multiset([x] + rest)[v] == multiset(rest)[v] + if v == x then 1 else 0;
    }
  }

  /** Whatever leaves a node arrives somewhere: all of it from a linked node, and as much as `teleport`
      carries from a dangling one. */
  lemma RowSum(c: Chain, u: NodeId)
    requires Valid(c) && u in c.out
    ensures Sum(c.out.Keys, Row(c, u)) == if c.out[u] == [] then Mass(c.teleport) else 1.0
  {
    if c.out[u] == [] {
      SumSame(c.out.Keys, Row(c, u), At(c.teleport));
    } else {
      LinkedRowSum(c, u);
    }
  }

  lemma LinkedRowSum(c: Chain, u: NodeId)
    requires Valid(c) && u in c.out && c.out[u] != []
    ensures Sum(c.out.Keys, Row(c, u)) == 1.0
  {
    hide Sum, Weight, Row, Occurrences;
    var all, n := c.out.Keys, |c.out[u]| as real;
    OccurrencesSum(c.out[u], all);
    forall v | v in all
      ensures Occurrences(c.out[u])(v) == n * Row(c, u)(v)
    {
      LinkShare(c, u, v);
    }
    SumTimes(all, n, Row(c, u), Occurrences(c.out[u]));
    var x := Sum(all, Row(c, u));
    assert Sum(all, Occurrences(c.out[u])) == n;
    assert Sum(all, Occurrences(c.out[u])) == n * x;
    CancelFactor(n, x);
  }

  lemma LinkShare(c: Chain, u: NodeId, v: NodeId)
    requires u in c.out && c.out[u] != []
    ensures Occurrences(c.out[u])(v) == |c.out[u]| as real * Row(c, u)(v)
  {
    var x, n := multiset(c.out[u])[v] as real, |c.out[u]| as real;
    assert n * (x / n) == x;
  }

  lemma CancelFactor(n: real, x: real)
    requires n > 0.0 && n * x == n
    ensures x == 1.0
  {
  }

  lemma MovedAlong(c: Chain, f: NodeId -> real, u: NodeId, v: NodeId)
    ensures Along(Moved(c, f), u)(v) == f(u) * Row(c, u)(v)
  {
  }

  /** Redistributing any assignment `f` along the rows, and adding up what arrives. */
  lemma Redistributed(c: Chain, f: NodeId -> real, inflow: NodeId -> real)
    requires Valid(c)
    requires forall v :: v in c.out ==> inflow(v) == Sum(c.out.Keys, Into(Moved(c, f), v))
    ensures Sum(c.out.Keys, inflow) == Sum(c.out.Keys, Kept(c, f))
  {
    hide Sum, Row, Weight, Moved, Mass;
    var all := c.out.Keys;
    forall u | u in all
      ensures Kept(c, f)(u) == Sum(all, Along(Moved(c, f), u))
    {
      RowSum(c, u);
      forall v ensures Along(Moved(c, f), u)(v) == f(u) * Row(c, u)(v) {
        MovedAlong(c, f, u, v);
      }
      SumTimes(all, f(u), Row(c, u), Along(Moved(c, f), u));
    }
    SumSwap(all, all, Moved(c, f), Kept(c, f), inflow);
  }

  // ---------------------------------------------------------------------------
  // Conservation
  // ---------------------------------------------------------------------------

  ghost function InflowOf(c: Chain, f: NodeId -> real): NodeId -> real {
    v => Sum(c.out.Keys, Into(Moved(c, f), v))
  }

  ghost function Scaled(k: real, f: NodeId -> real): NodeId -> real {
    v => Times(k, f(v))
  }

  lemma NextAt(c: Chain, d: real, rank: map<NodeId, real>, v: NodeId)
    requires Valid(c) && v in c.out
    ensures At(Next(c, d, rank))(v) == Mix(d, At(c.teleport)(v), InflowOf(c, At(rank))(v))
  {
    hide Sum, Moved, Into, Mix;
  }

  lemma NextMass(c: Chain, d: real, rank: map<NodeId, real>)
    requires Valid(c)
    ensures Mass(Next(c, d, rank)) == Mix(d, Mass(c.teleport), Sum(c.out.Keys, Kept(c, At(rank))))
  {
    hide Sum, At, InflowOf, Next, Kept;
    var all, next := c.out.Keys, Next(c, d, rank);
    var a, b := Scaled(1.0 - d, At(c.teleport)), Scaled(d, InflowOf(c, At(rank)));
    forall v | v in all
      ensures At(next)(v) == a(v) + b(v)
    {
      NextAt(c, d, rank, v);
    }
    SumPlus(all, a, b, At(next));
    SumScaled(all, 1.0 - d, At(c.teleport));
    SumScaled(all, d, InflowOf(c, At(rank)));
    InflowIsRedistribution(c, At(rank));
  }

  lemma SumScaled(all: set<NodeId>, k: real, f: NodeId -> real)
    ensures Sum(all, Scaled(k, f)) == Times(k, Sum(all, f))
  {
    hide Sum;
    SumTimes(all, k, f, Scaled(k, f));
  }

  lemma InflowIsRedistribution(c: Chain, f: NodeId -> real)
    requires Valid(c)
    ensures Sum(c.out.Keys, InflowOf(c, f)) == Sum(c.out.Keys, Kept(c, f))
  {
    Redistributed(c, f, InflowOf(c, f));
  }

  ghost predicate NonNegative(c: Chain, f: NodeId -> real) {
    forall v :: v in c.out ==> f(v) >= 0.0
  }

  lemma MovedNonNegative(c: Chain, f: NodeId -> real, u: NodeId, v: NodeId)
    requires Valid(c) && NonNegative(c, f) && u in c.out
    ensures Into(Moved(c, f), v)(u) >= 0.0
  {
    hide Sum;
    WeightNonNegative(c, u, v);
    ProductNonNegative(f(u), Weight(c, u, v));
  }

  lemma InflowNonNegative(c: Chain, f: NodeId -> real, v: NodeId)
    requires Valid(c) && NonNegative(c, f)
    ensures InflowOf(c, f)(v) >= 0.0
  {
    hide Sum, Moved, Into;
    var zero := (u: NodeId) => 0.0;
    forall u | u in c.out.Keys
      ensures zero(u) <= Into(Moved(c, f), v)(u)
    {
      MovedNonNegative(c, f, u, v);
    }
    SumMonotone(c.out.Keys, zero, Into(Moved(c, f), v));
    SumConstant(c.out.Keys, 0.0, zero);
  }

  lemma ProductNonNegative(a: real, b: real)
    requires a >= 0.0 && b >= 0.0
    ensures a * b >= 0.0
  {
  }

  lemma ProductAtMost(a: real, b: real)
    requires a <= 1.0 && b >= 0.0
    ensures a * b <= b
  {
  }

  /** Redistribution loses nothing when `teleport` has mass one, and gains nothing when it has less. */
  lemma KeptMass(c: Chain, f: NodeId -> real)
    requires Valid(c)
    ensures Mass(c.teleport) == 1.0 ==> Sum(c.out.Keys, Kept(c, f)) == Sum(c.out.Keys, f)
    ensures Mass(c.teleport) <= 1.0 && NonNegative(c, f) ==> Sum(c.out.Keys, Kept(c, f)) <= Sum(c.out.Keys, f)
  {
    hide Sum, Mass;
    var tau := Mass(c.teleport);
    if tau == 1.0 {
      SumSame(c.out.Keys, Kept(c, f), f);
    }
    if tau <= 1.0 && NonNegative(c, f) {
      forall u | u in c.out.Keys
        ensures Kept(c, f)(u) <= f(u)
      {
        ProductAtMost(tau, f(u));
      }
      SumMonotone(c.out.Keys, Kept(c, f), f);
    }
  }

  lemma NextNonNegative(c: Chain, d: real, rank: map<NodeId, real>)
    requires Valid(c) && 0.0 <= d <= 1.0
    requires NonNegative(c, At(rank))
    ensures NonNegative(c, At(Next(c, d, rank)))
  {
    hide Sum, Next, InflowOf;
    forall v | v in c.out
      ensures At(Next(c, d, rank))(v) >= 0.0
    {
      NextAt(c, d, rank, v);
      InflowNonNegative(c, At(rank), v);
      ProductNonNegative(1.0 - d, c.teleport[v]);
      ProductNonNegative(d, InflowOf(c, At(rank))(v));
    }
  }

  /** One iteration keeps a distribution a distribution, dangling nodes included. */
  lemma NextKeepsDistribution(c: Chain, d: real, rank: map<NodeId, real>)
    requires Valid(c) && Distribution(c, c.teleport) && 0.0 <= d <= 1.0
    requires Distribution(c, rank)
    ensures Distribution(c, Next(c, d, rank))
  {
    hide Sum, Next, Kept, Mix;
    NextNonNegative(c, d, rank);
    NextMass(c, d, rank);
    KeptMass(c, At(rank));
    BlendOnes(d, Mass(c.teleport), Sum(c.out.Keys, Kept(c, At(rank))));
    assert forall v :: v in c.out ==> At(Next(c, d, rank))(v) == Next(c, d, rank)[v];
  }

  lemma BlendOnes(d: real, a: real, b: real)
    requires a == 1.0 && b == 1.0
    ensures Mix(d, a, b) == 1.0
  {
  }

  /** Every iterate is a distribution. */
  lemma {:induction false} IterateIsDistribution(c: Chain, d: real, k: nat)
    requires Valid(c) && Distribution(c, c.teleport) && 0.0 <= d <= 1.0
    ensures Distribution(c, Iterate(c, d, k))
  {
    hide Sum, Next, Mass;
    if k > 0 {
      IterateIsDistribution(c, d, k - 1);
      NextKeepsDistribution(c, d, Iterate(c, d, k - 1));
    }
  }

  /** Mass missing from `teleport` is never made up: the iterates stay at or below what it started with. */
  lemma {:induction false} MissingMassStaysMissing(c: Chain, d: real, k: nat)
    requires Valid(c) && Mass(c.teleport) <= 1.0 && 0.0 <= d <= 1.0
    ensures Mass(Iterate(c, d, k)) <= Mass(c.teleport)
    ensures NonNegative(c, At(Iterate(c, d, k)))
  {
    hide Sum, Next, Kept, Mix;
    if k > 0 {
      var rank := Iterate(c, d, k - 1);
      MissingMassStaysMissing(c, d, k - 1);
      NextNonNegative(c, d, rank);
      NextMass(c, d, rank);
      KeptMass(c, At(rank));
      Blend(d, Mass(c.teleport), Sum(c.out.Keys, Kept(c, At(rank))));
    }
  }

  lemma Blend(d: real, a: real, b: real)
    requires 0.0 <= d <= 1.0 && b <= a
    ensures Mix(d, a, b) <= a
  {
    ProductNonNegative(d, a - b);
    assert (1.0 - d) * a + d * b == a - d * (a - b);
  }

  // ---------------------------------------------------------------------------
  // Convergence
  // ---------------------------------------------------------------------------

  ghost function Difference(a: map<NodeId, real>, b: map<NodeId, real>): NodeId -> real {
    v => At(a)(v) - At(b)(v)
  }

  ghost function Gap(a: map<NodeId, real>, b: map<NodeId, real>): NodeId -> real {
    v => Abs(At(a)(v) - At(b)(v))
  }

  /** The L1 distance between two assignments of rank. */
  ghost function Distance(c: Chain, a: map<NodeId, real>, b: map<NodeId, real>): real {
    Sum(c.out.Keys, Gap(a, b))
  }

  lemma AbsOfProduct(x: real, w: real)
    requires w >= 0.0
    ensures Abs(x * w) == Abs(x) * w
  {
    if x >= 0.0 {
      ProductNonNegative(x, w);
    } else {
      ProductNonNegative(-x, w);
      assert (-x) * w == -(x * w);
    }
  }

  lemma MovedInto(c: Chain, f: NodeId -> real, u: NodeId, v: NodeId)
    ensures Into(Moved(c, f), v)(u) == f(u) * Weight(c, u, v)
  {
  }

  lemma MovedGap(c: Chain, a: map<NodeId, real>, b: map<NodeId, real>, u: NodeId, v: NodeId)
    requires Valid(c)
    ensures Into(Moved(c, Gap(a, b)), v)(u) == Abs(Into(Moved(c, Difference(a, b)), v)(u))
    ensures Into(Moved(c, At(a)), v)(u) == Into(Moved(c, At(b)), v)(u) + Into(Moved(c, Difference(a, b)), v)(u)
  {
    hide Sum, Moved, Weight, At;
    WeightNonNegative(c, u, v);
    var x, y, w := At(a)(u), At(b)(u), Weight(c, u, v);
    MovedInto(c, At(a), u, v);
    MovedInto(c, At(b), u, v);
    MovedInto(c, Gap(a, b), u, v);
    MovedInto(c, Difference(a, b), u, v);
    AbsOfProduct(x - y, w);
    assert x * w == y * w + (x - y) * w;
  }

  /** At each node the inflows differ by at most the redistributed gap. */
  lemma InflowGap(c: Chain, a: map<NodeId, real>, b: map<NodeId, real>, v: NodeId)
    requires Valid(c)
    ensures Abs(InflowOf(c, At(a))(v) - InflowOf(c, At(b))(v)) <= InflowOf(c, Gap(a, b))(v)
  {
    hide Sum, Moved, Into, Gap, Difference;
    var all := c.out.Keys;
    forall u
      ensures Into(Moved(c, Gap(a, b)), v)(u) == Abs(Into(Moved(c, Difference(a, b)), v)(u))
      ensures Into(Moved(c, At(a)), v)(u) == Into(Moved(c, At(b)), v)(u) + Into(Moved(c, Difference(a, b)), v)(u)
    {
      MovedGap(c, a, b, u, v);
    }
    SumPlus(all, Into(Moved(c, At(b)), v), Into(Moved(c, Difference(a, b)), v), Into(Moved(c, At(a)), v));
    SumTriangle(all, Into(Moved(c, Difference(a, b)), v), Into(Moved(c, Gap(a, b)), v));
  }

  lemma NextGap(c: Chain, d: real, a: map<NodeId, real>, b: map<NodeId, real>, v: NodeId)
    requires Valid(c) && d >= 0.0 && v in c.out
    ensures Gap(Next(c, d, a), Next(c, d, b))(v) <= Scaled(d, InflowOf(c, Gap(a, b)))(v)
  {
    hide Sum, InflowOf, Next, Mix, Times;
    NextAt(c, d, a, v);
    NextAt(c, d, b, v);
    InflowGap(c, a, b, v);
    var x, y, z := InflowOf(c, At(a))(v), InflowOf(c, At(b))(v), InflowOf(c, Gap(a, b))(v);
    MixGap(d, At(c.teleport)(v), x, y, z);
  }

  lemma MixGap(d: real, t: real, x: real, y: real, z: real)
    requires d >= 0.0 && Abs(x - y) <= z
    ensures Abs(Mix(d, t, x) - Mix(d, t, y)) <= Times(d, z)
  {
    assert d * x - d * y == (x - y) * d;
    AbsOfProduct(x - y, d);
    ProductNonNegative(d, z - Abs(x - y));
    assert d * (z - Abs(x - y)) == d * z - Abs(x - y) * d;
  }

  lemma GapNonNegative(c: Chain, a: map<NodeId, real>, b: map<NodeId, real>)
    ensures NonNegative(c, Gap(a, b))
  {
    forall v ensures Gap(a, b)(v) >= 0.0 {
      assert Gap(a, b)(v) == Abs(At(a)(v) - At(b)(v));
    }
  }

  /** An iteration brings any two assignments closer by the damping factor. */
  lemma Contraction(c: Chain, d: real, a: map<NodeId, real>, b: map<NodeId, real>)
    requires Valid(c) && Mass(c.teleport) <= 1.0 && d >= 0.0
    ensures Distance(c, Next(c, d, a), Next(c, d, b)) <= Times(d, Distance(c, a, b))
  {
    hide Sum, Gap, Scaled, InflowOf, Next, Kept, Mass, Times;
    var all, gap := c.out.Keys, Gap(a, b);
    forall v | v in all
      ensures Gap(Next(c, d, a), Next(c, d, b))(v) <= Scaled(d, InflowOf(c, gap))(v)
    {
      NextGap(c, d, a, b, v);
    }
    SumMonotone(all, Gap(Next(c, d, a), Next(c, d, b)), Scaled(d, InflowOf(c, gap)));
    SumScaled(all, d, InflowOf(c, gap));
    InflowIsRedistribution(c, gap);
    GapNonNegative(c, a, b);
    KeptMass(c, gap);
    ScaleMonotone(d, Sum(all, InflowOf(c, gap)), Sum(all, gap));
  }

  lemma ScaleMonotone(k: real, x: real, y: real)
    requires k >= 0.0 && x <= y
    ensures Times(k, x) <= Times(k, y)
  {
    ProductNonNegative(k, y - x);
  }

  ghost function Pow(d: real, k: nat): real {
    if k == 0 then 1.0 else d * Pow(d, k - 1)
  }

  /** Two distributions are never more than 2 apart. */
  lemma DistributionsWithinTwo(c: Chain, a: map<NodeId, real>, b: map<NodeId, real>)
    requires Distribution(c, a) && Distribution(c, b)
    ensures Distance(c, a, b) <= 2.0
  {
    var sum := (v: NodeId) => At(a)(v) + At(b)(v);
    SumMonotone(c.out.Keys, Gap(a, b), sum);
    SumPlus(c.out.Keys, At(a), At(b), sum);
  }

  lemma ShrinkBound(d: real, now: real, before: real, p: real)
    requires d >= 0.0 && now <= Times(d, before) && before <= 2.0 * p
    ensures now <= 2.0 * (d * p)
  {
    ScaleMonotone(d, before, 2.0 * p);
    assert d * (2.0 * p) == 2.0 * (d * p);
  }

  /** Iterating keeps shrinking the distance to anything an iteration leaves alone. */
  lemma {:induction false} IterateApproaches(c: Chain, d: real, k: nat, pi: map<NodeId, real>)
    requires Valid(c) && Distribution(c, c.teleport) && 0.0 <= d <= 1.0
    requires Distribution(c, pi) && Next(c, d, pi) == pi
    ensures Distance(c, Iterate(c, d, k), pi) <= 2.0 * Pow(d, k)
  {
    hide Sum, Next, Distance;
    if k == 0 {
      DistributionsWithinTwo(c, c.teleport, pi);
      assert Pow(d, k) == 1.0;
    } else {
      IterateApproaches(c, d, k - 1, pi);
      Contraction(c, d, Iterate(c, d, k - 1), pi);
      ShrinkBound(d, Distance(c, Iterate(c, d, k), pi), Distance(c, Iterate(c, d, k - 1), pi), Pow(d, k - 1));
    }
  }

  /** The first iteration already moves the ranks by at most `2 d`. */
  lemma FirstStep(c: Chain, d: real)
    requires Valid(c) && Distribution(c, c.teleport) && 0.0 <= d <= 1.0
    ensures Distance(c, Next(c, d, c.teleport), c.teleport) <= Times(d, 2.0)
  {
    hide Sum, InflowOf, Next, Kept, Mass, Valid, Mix, Times;
    var all, tp := c.out.Keys, At(c.teleport);
    var bound := (v: NodeId) => InflowOf(c, tp)(v) + tp(v);
    forall v | v in all
      ensures Gap(Next(c, d, c.teleport), c.teleport)(v) <= Scaled(d, bound)(v)
    {
      NextAt(c, d, c.teleport, v);
      InflowNonNegative(c, tp, v);
      MoveBound(d, tp(v), InflowOf(c, tp)(v));
    }
    SumMonotone(all, Gap(Next(c, d, c.teleport), c.teleport), Scaled(d, bound));
    SumScaled(all, d, bound);
    SumPlus(all, InflowOf(c, tp), tp, bound);
    InflowIsRedistribution(c, tp);
    KeptMass(c, tp);
    assert Mass(c.teleport) == Sum(all, tp) by {
      MassIsSum(c.teleport);
    }
    ScaleMonotone(d, Sum(all, bound), 2.0);
  }

  lemma MassIsSum(rank: map<NodeId, real>)
    ensures Mass(rank) == Sum(rank.Keys, At(rank))
  {
  }

  lemma MoveBound(d: real, t: real, x: real)
    requires d >= 0.0 && t >= 0.0 && x >= 0.0
    ensures Abs(Mix(d, t, x) - t) <= Times(d, x + t)
  {
    assert (1.0 - d) * t + d * x - t == (x - t) * d;
    AbsOfProduct(x - t, d);
    ScaleMonotone(d, Abs(x - t), x + t);
  }

  /** Successive iterates: step `k + 1` moves the ranks by at most `2 d^(k+1)`. */
  lemma {:induction false} StepsShrink(c: Chain, d: real, k: nat)
    requires Valid(c) && Distribution(c, c.teleport) && 0.0 <= d <= 1.0
    ensures Distance(c, Iterate(c, d, k + 1), Iterate(c, d, k)) <= 2.0 * Pow(d, k + 1)
  {
    hide Sum, Next, Distance, Mass;
    if k == 0 {
      FirstStep(c, d);
      assert Iterate(c, d, 1) == Next(c, d, Iterate(c, d, 0));
      assert Pow(d, 1) == d * Pow(d, 0);
    } else {
      StepsShrink(c, d, k - 1);
      Contraction(c, d, Iterate(c, d, k), Iterate(c, d, k - 1));
      ShrinkBound(d, Distance(c, Iterate(c, d, k + 1), Iterate(c, d, k)),
                  Distance(c, Iterate(c, d, k), Iterate(c, d, k - 1)), Pow(d, k));
    }
  }

  /** With damping below one there is at most one stationary distribution. */
  lemma StationaryIsUnique(c: Chain, d: real, p: map<NodeId, real>, q: map<NodeId, real>)
    requires Valid(c) && Mass(c.teleport) <= 1.0 && 0.0 <= d < 1.0
    requires Next(c, d, p) == p && Next(c, d, q) == q
    ensures p == q
  {
    hide Sum, Mass, Next, Distance, Times;
    Contraction(c, d, p, q);
    ShrinksToZero(d, Distance(c, p, q));
    ZeroDistance(c, p, q);
  }

  lemma ZeroDistance(c: Chain, p: map<NodeId, real>, q: map<NodeId, real>)
    requires p.Keys == q.Keys == c.out.Keys && Distance(c, p, q) <= 0.0
    ensures p == q
  {
    hide Sum;
    GapNonNegative(c, p, q);
    forall v | v in c.out
      ensures p[v] == q[v]
    {
      ZeroSum(c, Gap(p, q), v);
      assert Gap(p, q)(v) == Abs(At(p)(v) - At(q)(v));
    }
  }

  lemma ShrinksStrictly(d: real, x: real)
    requires d < 1.0 && x > 0.0
    ensures Times(d, x) < x
  {
    assert (1.0 - d) * x > 0.0;
    assert (1.0 - d) * x == x - d * x;
  }

  lemma ShrinksToZero(d: real, x: real)
    requires d < 1.0 && x <= Times(d, x)
    ensures x <= 0.0
  {
    if x > 0.0 {
      ShrinksStrictly(d, x);
    }
  }

  lemma ZeroSum(c: Chain, f: NodeId -> real, v: NodeId)
    requires NonNegative(c, f) && Sum(c.out.Keys, f) <= 0.0 && v in c.out
    ensures f(v) == 0.0
  {
    var rest := c.out.Keys - {v};
    var zero := (u: NodeId) => 0.0;
    SumTake(c.out.Keys, f, v);
    SumMonotone(rest, zero, f);
    SumConstant(rest, 0.0, zero);
  }

  // ---------------------------------------------------------------------------
  // The loops
  // ---------------------------------------------------------------------------

  /** The targets of those edges that point at a node that exists. */
  function LiveTargets(nodes: set<NodeId>, edges: seq<Edge>): (r: seq<NodeId>)
    ensures forall v :: v in r ==> v in nodes
  {
    if edges == [] then []
    else
      var n := |edges| - 1;
      LiveTargets(nodes, edges[..n]) + if edges[n].to in nodes then [edges[n].to] else []
  }

  /** Each node is there once for every edge that points at it. */
  lemma {:induction false} LiveTargetsAre(nodes: set<NodeId>, edges: seq<Edge>, v: NodeId)
    ensures multiset(LiveTargets(nodes, edges))[v] == if v in nodes then |EdgesTo(edges, v)| else 0
  {
    if edges != [] {
      var n := |edges| - 1;
      LiveTargetsAre(nodes, edges[..n], v);
      var one: set<int> := if edges[n].to == v then {n} else {};
      assert EdgesTo(edges, v) == EdgesTo(edges[..n], v) + one;
    }
  }

  ghost function EdgesTo(edges: seq<Edge>, v: NodeId): set<int> {
    set i | 0 <= i < |edges| && edges[i].to == v
  }

  ghost function ChainOf(s: Snapshot, teleport: map<NodeId, real>): (c: Chain)
    requires teleport.Keys == s.nodes.Keys && forall v :: v in teleport ==> teleport[v] >= 0.0
    ensures Valid(c) && c.out.Keys == s.nodes.Keys && c.teleport == teleport
    ensures forall u :: u in c.out ==> c.out[u] == LiveTargets(s.nodes.Keys, s.Edges(u))
  {
    Chain(map u | u in s.nodes :: LiveTargets(s.nodes.Keys, s.Edges(u)), teleport)
  }

  /** One link's part of the rank `r` of a node with `n` live links. */
  function Share(d: real, r: real, n: nat): real {
    if n == 0 then 0.0 else d * r / n as real
  }

  /** What reaches a node with restart probability `t` from the rank set aside. */
  function Jumped(d: real, dangling: real, t: real): real {
    d * dangling * t
  }

  function Clamp(x: real): (r: real)
    ensures 0.0 <= r <= 1.0
  {
    if x < 0.0 then 0.0 else if x > 1.0 then 1.0 else x
  }

  /** The damping used is the point of [0, 1] nearest to the one asked for. */
  lemma ClampIsNearest(x: real, y: real)
    requires 0.0 <= y <= 1.0
    ensures Abs(Clamp(x) - x) <= Abs(y - x)
    ensures 0.0 <= x <= 1.0 ==> Clamp(x) == x
  {
  }

  /** The ranks after some iterations with the damping given, or with the end of [0, 1] that it lies beyond. */
  ghost predicate AreRanks(c: Chain, damping: real, iterations: nat, rank: map<NodeId, real>)
    requires c.teleport.Keys == c.out.Keys
  {
    && (0.0 <= damping <= 1.0 ==> rank == Iterate(c, damping, iterations))
    && (damping < 0.0 ==> rank == Iterate(c, 0.0, iterations))
    && (damping > 1.0 ==> rank == Iterate(c, 1.0, iterations))
  }

  lemma ClampedAreRanks(c: Chain, damping: real, iterations: nat)
    requires c.teleport.Keys == c.out.Keys
    ensures AreRanks(c, damping, iterations, Iterate(c, Clamp(damping), iterations))
  {
    ClampIsNearest(damping, 0.0);
    ClampIsNearest(damping, 1.0);
    hide Iterate;
  }

  lemma DampingUsed(c: Chain, damping: real, k: nat, rank: map<NodeId, real>) returns (d: real)
    requires c.teleport.Keys == c.out.Keys && AreRanks(c, damping, k, rank)
    ensures 0.0 <= d <= 1.0 && rank == Iterate(c, d, k)
  {
    d := if damping < 0.0 then 0.0 else if damping > 1.0 then 1.0 else damping;
  }

  lemma RanksAreDistribution(c: Chain, damping: real, k: nat, rank: map<NodeId, real>)
    requires Valid(c) && Distribution(c, c.teleport) && AreRanks(c, damping, k, rank)
    ensures Distribution(c, rank) && (damping <= 0.0 || k == 0 ==> rank == c.teleport)
  {
    var d := DampingUsed(c, damping, k, rank);
    if damping <= 0.0 {
      NoDampingRestarts(c, damping, k, rank);
    }
    hide AreRanks, Distribution;
    IterateIsDistribution(c, d, k);
  }

  /** Without damping the walk only ever restarts. */
  lemma NoDampingRestarts(c: Chain, damping: real, iterations: nat, rank: map<NodeId, real>)
    requires Valid(c) && AreRanks(c, damping, iterations, rank) && damping <= 0.0
    ensures rank == c.teleport
  {
    hide Iterate;
    assert rank == Iterate(c, 0.0, iterations);
    OnlyRestarts(c, iterations);
  }

  lemma {:induction false} OnlyRestarts(c: Chain, k: nat)
    requires c.teleport.Keys == c.out.Keys
    ensures Iterate(c, 0.0, k) == c.teleport
  {
    hide Next;
    if k > 0 {
      OnlyRestarts(c, k - 1);
      RestartsNext(c);
    }
  }

  lemma RestartsNext(c: Chain)
    requires c.teleport.Keys == c.out.Keys
    ensures Next(c, 0.0, c.teleport) == c.teleport
  {
    hide Inflow, Mix;
    forall v | v in c.out
      ensures Mix(0.0, c.teleport[v], Inflow(c, c.teleport, v)) == c.teleport[v]
    {
      NothingMixed(c.teleport[v], Inflow(c, c.teleport, v));
    }
  }

  lemma NothingMixed(restart: real, walk: real)
    ensures Mix(0.0, restart, walk) == restart
  {
  }

  /** One more iteration moves the ranks by at most twice that power of the damping. */
  lemma OneMoreIteration(c: Chain, damping: real, k: nat, rank: map<NodeId, real>, next: map<NodeId, real>)
    requires Valid(c) && Distribution(c, c.teleport) && 0.0 <= damping <= 1.0
    requires AreRanks(c, damping, k, rank) && AreRanks(c, damping, k + 1, next)
    ensures Distance(c, next, rank) <= 2.0 * Pow(damping, k + 1)
  {
    StepsShrink(c, damping, k);
    hide Iterate, Distance, Distribution;
  }

  /** And after k iterations they are within twice the k-th power of any distribution that an iteration leaves alone. */
  lemma RanksApproach(c: Chain, damping: real, k: nat, rank: map<NodeId, real>, pi: map<NodeId, real>)
    requires Valid(c) && Distribution(c, c.teleport) && 0.0 <= damping <= 1.0
    requires AreRanks(c, damping, k, rank) && Distribution(c, pi) && Next(c, damping, pi) == pi
    ensures Distance(c, rank, pi) <= 2.0 * Pow(damping, k)
  {
    IterateApproaches(c, damping, k, pi);
  }

  /** What linked nodes send to `v`. */
  ghost function LinkedInto(c: Chain, rank: map<NodeId, real>, v: NodeId): NodeId -> real {
    u => if u in c.out && c.out[u] != [] then At(rank)(u) * Weight(c, u, v) else 0.0
  }

  ghost function DanglingRank(c: Chain, rank: map<NodeId, real>): NodeId -> real {
    u => if u in c.out && c.out[u] == [] then At(rank)(u) else 0.0
  }

  /** The accumulator at `v` once the nodes in `visited` have sent their shares. */
  ghost function Collected(c: Chain, d: real, rank: map<NodeId, real>, visited: set<NodeId>, v: NodeId): real {
    Mix(d, At(c.teleport)(v), Sum(visited, LinkedInto(c, rank, v)))
  }

  lemma CollectLinked(c: Chain, d: real, rank: map<NodeId, real>, visited: set<NodeId>, u: NodeId, v: NodeId)
    requires Valid(c) && u in c.out && u !in visited && c.out[u] != []
    ensures Collected(c, d, rank, visited + {u}, v) ==
            Collected(c, d, rank, visited, v) + Times(Share(d, At(rank)(u), |c.out[u]|), Occurrences(c.out[u])(v))
  {
    hide Sum, At;
    SumAdd(visited, LinkedInto(c, rank, v), u);
    var r, m, n := At(rank)(u), Occurrences(c.out[u])(v), |c.out[u]| as real;
    assert LinkedInto(c, rank, v)(u) == r * (m / n);
    ShareAlgebra(d, r, m, n);
    MixMore(d, At(c.teleport)(v), Sum(visited, LinkedInto(c, rank, v)), r * (m / n));
  }

  lemma MixMore(d: real, t: real, s: real, more: real)
    ensures Mix(d, t, s + more) == Mix(d, t, s) + d * more
  {
    assert d * (s + more) == d * s + d * more;
  }

  lemma ShareAlgebra(d: real, r: real, m: real, n: real)
    requires n > 0.0
    ensures d * (r * (m / n)) == Times(d * r / n, m)
  {
    var q := m / n;
    assert q * n == m;
    var p := d * r / n;
    assert p * n == d * r;
    assert p * m == p * (q * n) == (p * n) * q == (d * r) * q;
  }

  lemma CollectDangling(c: Chain, d: real, rank: map<NodeId, real>, visited: set<NodeId>, u: NodeId, v: NodeId)
    requires u in c.out && u !in visited && c.out[u] == []
    ensures Collected(c, d, rank, visited + {u}, v) == Collected(c, d, rank, visited, v)
  {
    hide Sum;
    SumAdd(visited, LinkedInto(c, rank, v), u);
  }

  ghost function Jump(c: Chain, rank: map<NodeId, real>, t: real): NodeId -> real {
    u => Times(t, DanglingRank(c, rank)(u))
  }

  lemma LinkedPlusJump(c: Chain, rank: map<NodeId, real>, u: NodeId, v: NodeId)
    requires Valid(c) && v in c.out && u in c.out
    ensures Into(Moved(c, At(rank)), v)(u) == LinkedInto(c, rank, v)(u) + Jump(c, rank, c.teleport[v])(u)
  {
    hide Sum;
    MovedInto(c, At(rank), u, v);
    var r, t := At(rank)(u), c.teleport[v];
    if c.out[u] == [] {
      assert Weight(c, u, v) == t;
      assert DanglingRank(c, rank)(u) == r;
      assert r * t == t * r;
    } else {
      assert DanglingRank(c, rank)(u) == 0.0;
      assert t * 0.0 == 0.0;
    }
  }

  /** All shares collected and the dangling rank jumping along `teleport` make one iteration. */
  lemma CollectedAll(c: Chain, d: real, rank: map<NodeId, real>, v: NodeId)
    requires Valid(c) && v in c.out
    ensures Collected(c, d, rank, c.out.Keys, v) + Jumped(d, Sum(c.out.Keys, DanglingRank(c, rank)), c.teleport[v])
            == Next(c, d, rank)[v]
  {
    hide Sum, LinkedInto, DanglingRank, Moved, Into, Mix;
    var all, t := c.out.Keys, c.teleport[v];
    var linked, dangling := Sum(all, LinkedInto(c, rank, v)), Sum(all, DanglingRank(c, rank));
    SumTimes(all, t, DanglingRank(c, rank), Jump(c, rank, t));
    forall u | u in all
      ensures Into(Moved(c, At(rank)), v)(u) == LinkedInto(c, rank, v)(u) + Jump(c, rank, t)(u)
    {
      LinkedPlusJump(c, rank, u, v);
    }
    SumPlus(all, LinkedInto(c, rank, v), Jump(c, rank, t), Into(Moved(c, At(rank)), v));
    MixMore(d, t, linked, t * dangling);
    assert d * (t * dangling) == d * dangling * t;
  }

  /** Adds `share` at each target, once per link. */
  method Spread(next: map<NodeId, real>, targets: seq<NodeId>, share: real) returns (r: map<NodeId, real>)
    requires forall v :: v in targets ==> v in next
    ensures r.Keys == next.Keys
    ensures forall v :: v in next ==> r[v] == next[v] + Times(share, Occurrences(targets)(v))
  {
    hide Times, Occurrences;
    r := next;
    var j := 0;
    forall v ensures Times(share, Occurrences(targets[..0])(v)) == 0.0 {
      NoneYet(share, v, targets[..0]);
    }
    while j < |targets|
      invariant 0 <= j <= |targets|
      invariant r.Keys == next.Keys
      invariant forall v :: v in next ==> r[v] == next[v] + Times(share, Occurrences(targets[..j])(v))
    {
      assert targets[..j + 1] == targets[..j] + [targets[j]];
      forall v
        ensures Times(share, Occurrences(targets[..j + 1])(v)) ==
                Times(share, Occurrences(targets[..j])(v)) + if v == targets[j] then share else 0.0
      {
        OneMore(share, targets[..j], targets[j], v);
      }
      r := r[targets[j] := r[targets[j]] + share];
      j := j + 1;
    }
    assert targets[..j] == targets;
  }

  lemma NoneYet(share: real, v: NodeId, s: seq<NodeId>)
    requires s == []
    ensures Times(share, Occurrences(s)(v)) == 0.0
  {
  }

  lemma OneMore(share: real, s: seq<NodeId>, x: NodeId, v: NodeId)
    ensures Times(share, Occurrences(s + [x])(v)) == Times(share, Occurrences(s)(v)) + if v == x then share else 0.0
  {
    var m := multiset(s)[v] as real;
    assert Occurrences(s + [x])(v) == m + if v == x then 1.0 else 0.0;
    assert share * (m + 1.0) == share * m + share;
  }

  lemma NothingCollected(c: Chain, d: real, rank: map<NodeId, real>, v: NodeId)
    requires v in c.teleport
    ensures Collected(c, d, rank, {}, v) == (1.0 - d) * c.teleport[v]
  {
  }

  /** Sends one node's rank along its live links, or sets it aside when it has none. */
  method Visit(targets: seq<NodeId>, r: real, d: real, next: map<NodeId, real>, dangling: real)
    returns (next': map<NodeId, real>, dangling': real)
    requires forall v :: v in targets ==> v in next
    ensures next'.Keys == next.Keys
    ensures targets == [] ==> next' == next && dangling' == dangling + r
    ensures targets != [] ==>
              && dangling' == dangling
              && forall v :: v in next ==> next'[v] == next[v] + Times(Share(d, r, |targets|), Occurrences(targets)(v))
  {
    next', dangling' := next, dangling;
    if targets == [] {
      dangling' := dangling + r;
    } else {
      next' := Spread(next, targets, Share(d, r, |targets|));
    }
  }

  /** The accumulators after some nodes were visited. */
  ghost predicate Accumulated(c: Chain, d: real, rank: map<NodeId, real>, visited: set<NodeId>,
                              next: map<NodeId, real>, dangling: real)
  {
    && next.Keys == c.out.Keys
    && (forall v :: v in next ==> next[v] == Collected(c, d, rank, visited, v))
    && dangling == Sum(visited, DanglingRank(c, rank))
  }

  lemma AccumulateNone(c: Chain, d: real, rank: map<NodeId, real>, next: map<NodeId, real>)
    requires Valid(c) && next == map v | v in c.out :: (1.0 - d) * c.teleport[v]
    ensures Accumulated(c, d, rank, {}, next, 0.0)
  {
    hide Collected;
    forall v | v in next
      ensures next[v] == Collected(c, d, rank, {}, v)
    {
      NothingCollected(c, d, rank, v);
    }
  }

  lemma AccumulateNode(c: Chain, d: real, rank: map<NodeId, real>, visited: set<NodeId>, u: NodeId,
                       next: map<NodeId, real>, dangling: real, next': map<NodeId, real>, dangling': real)
    requires Valid(c) && u in c.out && u !in visited
    requires Accumulated(c, d, rank, visited, next, dangling) && next'.Keys == next.Keys
    requires c.out[u] == [] ==> next' == next && dangling' == dangling + At(rank)(u)
    requires c.out[u] != [] ==>
               && dangling' == dangling
               && forall v :: v in next ==>
                    next'[v] == next[v] + Times(Share(d, At(rank)(u), |c.out[u]|), Occurrences(c.out[u])(v))
    ensures Accumulated(c, d, rank, visited + {u}, next', dangling')
  {
    hide Sum, Collected, Times, Occurrences, At, Share;
    SumAdd(visited, DanglingRank(c, rank), u);
    forall v | v in next
      ensures next'[v] == Collected(c, d, rank, visited + {u}, v)
    {
      if c.out[u] == [] {
        CollectDangling(c, d, rank, visited, u, v);
      } else {
        CollectLinked(c, d, rank, visited, u, v);
      }
    }
  }

  lemma AccumulateAll(c: Chain, d: real, rank: map<NodeId, real>, next: map<NodeId, real>, dangling: real)
    requires Valid(c) && Accumulated(c, d, rank, c.out.Keys, next, dangling)
    ensures (map v | v in next :: next[v] + Jumped(d, dangling, c.teleport[v])) == Next(c, d, rank)
  {
    hide Sum, Collected, DanglingRank, Next, Jumped;
    forall v | v in next
      ensures next[v] + Jumped(d, dangling, c.teleport[v]) == Next(c, d, rank)[v]
    {
      CollectedAll(c, d, rank, v);
    }
  }

  lemma DoneAfter(all: set<NodeId>, todo: set<NodeId>, id: NodeId)
    requires id in todo && todo <= all
    ensures all - todo + {id} == all - (todo - {id})
  {
  }

  /** One round of the power iteration, visiting the nodes in whatever order the table yields them. */
  method Round(g: KnowledgeGraph, teleport: map<NodeId, real>, d: real, rank: map<NodeId, real>)
      returns (next: map<NodeId, real>)
    requires teleport.Keys == g.nodes.Keys == rank.Keys && forall v :: v in teleport ==> teleport[v] >= 0.0
    ensures next == Next(ChainOf(g.Value(), teleport), d, rank)
  {
    hide Accumulated, Next, LiveTargets, ChainOf, Jumped, Share, Times, Occurrences;
    ghost var c := ChainOf(g.Value(), teleport);
    next := map v | v in g.nodes :: (1.0 - d) * teleport[v];
    var dangling := 0.0;
    var todo := g.nodes.Keys;
    ghost var all := todo;
    AccumulateNone(c, d, rank, next);
    assert all - todo == {};
    while todo != {}
      invariant todo <= all && next.Keys == all
      invariant Accumulated(c, d, rank, all - todo, next, dangling)
      decreases |todo|
    {
      var id :| id in todo;
      var targets := LiveTargets(g.nodes.Keys, g.Value().Edges(id));
      ghost var next0, dangling0 := next, dangling;
      next, dangling := Visit(targets, rank[id], d, next, dangling);
      AccumulateNode(c, d, rank, all - todo, id, next0, dangling0, next, dangling);
      DoneAfter(all, todo, id);
      todo := todo - {id};
    }
    assert all - todo == c.out.Keys;
    AccumulateAll(c, d, rank, next, dangling);
    next := map v | v in next :: next[v] + Jumped(d, dangling, teleport[v]);
  }

  /** The power iteration shared by both forms; an empty graph has no ranks. */
  method PagerankCore(g: KnowledgeGraph, teleport: map<NodeId, real>, damping: real, iterations: nat)
    returns (rank: map<NodeId, real>)
    requires teleport.Keys == g.nodes.Keys && forall v :: v in teleport ==> teleport[v] >= 0.0
    ensures AreRanks(ChainOf(g.Value(), teleport), damping, iterations, rank)
  {
    hide ChainOf, Next, Clamp, Valid, AreRanks;
    ghost var c := ChainOf(g.Value(), teleport);
    ClampedAreRanks(c, damping, iterations);
    if g.nodes == map[] {
      assert Iterate(c, Clamp(damping), iterations).Keys == {};
      return map[];
    }
    var d := Clamp(damping);
    rank := teleport;
    var k := 0;
    while k < iterations
      invariant 0 <= k <= iterations
      invariant rank == Iterate(c, d, k)
    {
      rank := Round(g, teleport, d, rank);
      k := k + 1;
    }
  }

  /** Classic PageRank: the ranks are a distribution over exactly the graph's nodes. */
  method Pagerank(g: KnowledgeGraph, damping: real, iterations: nat) returns (rank: map<NodeId, real>)
    ensures rank.Keys == g.nodes.Keys
    ensures forall v :: v in rank ==> rank[v] >= 0.0
    ensures g.nodes != map[] ==> Mass(rank) == 1.0
    ensures g.nodes != map[] ==> AreRanks(ChainOf(g.Value(), Uniform(g.nodes.Keys)), damping, iterations, rank)
    ensures damping <= 0.0 || iterations == 0 ==> rank == Uniform(g.nodes.Keys)
  {
    if |g.nodes| == 0 {
      return map[];
    }
    var uniform := 1.0 / |g.nodes| as real;
    var teleport := map v | v in g.nodes :: uniform;
    assert teleport == Uniform(g.nodes.Keys);
    UniformMass(g.nodes.Keys);
    rank := PagerankCore(g, teleport, damping, iterations);
    RanksAreDistribution(ChainOf(g.Value(), teleport), damping, iterations, rank);
  }

  ghost function Uniform(nodes: set<NodeId>): map<NodeId, real> {
    map v | v in nodes :: if |nodes| > 0 then 1.0 / |nodes| as real else 0.0
  }

  lemma UniformMass(nodes: set<NodeId>)
    requires |nodes| > 0
    ensures Mass(Uniform(nodes)) == 1.0
  {
    var share := 1.0 / |nodes| as real;
    SumConstant(nodes, share, At(Uniform(nodes)));
    assert Uniform(nodes).Keys == nodes;
    UndoDivision(|nodes| as real);
  }

  lemma UndoDivision(n: real)
    requires n > 0.0
    ensures n * (1.0 / n) == 1.0
  {
  }

  /** The seeds that are in the graph, repeats included. */
  function Present(nodes: set<NodeId>, seeds: seq<NodeId>): (r: seq<NodeId>)
    ensures forall v :: v in r <==> v in seeds && v in nodes
    ensures forall v :: v in nodes ==> multiset(r)[v] == multiset(seeds)[v]
  {
    if seeds == [] then []
    else
      assert seeds == [seeds[0]] + seeds[1..];
      (if seeds[0] in nodes then [seeds[0]] else []) + Present(nodes, seeds[1..])
  }

  /** Restart only at the present seeds, each with an equal share; a repeated seed is counted in the share
      but entered once. */
  ghost function SeedTeleport(nodes: set<NodeId>, present: seq<NodeId>): (r: map<NodeId, real>)
    ensures r.Keys == nodes && forall v :: v in r ==> r[v] >= 0.0
  {
    map v | v in nodes :: if v in present then 1.0 / |present| as real else 0.0
  }

  lemma SeedMass(nodes: set<NodeId>, present: seq<NodeId>)
    requires present != [] && forall v :: v in present ==> v in nodes
    ensures Mass(SeedTeleport(nodes, present)) <= 1.0
    ensures Mass(SeedTeleport(nodes, present)) == 1.0 <==> NoDup(present)
  {
    hide Sum;
    var tp, seeds, n := SeedTeleport(nodes, present), Elems(present), |present| as real;
    var share := 1.0 / n;
    assert tp.Keys == nodes;
    SumSupport(nodes, seeds, At(tp));
    SumConstant(seeds, share, At(tp));
    RepeatShrinks(present);
    if NoDup(present) {
      ElemsCardinality(present);
    }
    SharesAddUp(|seeds|, |present|);
  }

  lemma SharesAddUp(m: nat, n: nat)
    requires 0 < n && m <= n
    ensures m as real * (1.0 / n as real) <= 1.0
    ensures m as real * (1.0 / n as real) == 1.0 <==> m == n
  {
    var s := 1.0 / n as real;
    UndoDivision(n as real);
    assert s > 0.0;
    assert n as real * s - m as real * s == (n - m) as real * s;
    if m < n {
      ProductNonNegative((n - m) as real - 1.0, s);
      assert (n - m) as real * s >= s;
    }
  }

  /** Personalized PageRank. Seeds outside the graph are ignored, and with none left there are no ranks.
      Otherwise the ranks add up to one exactly when no present seed is listed twice. */
  method PersonalizedPagerank(g: KnowledgeGraph, seeds: seq<NodeId>, damping: real, iterations: nat)
    returns (rank: map<NodeId, real>)
    ensures var present := Present(g.nodes.Keys, seeds);
            if present == [] then rank == map[]
            else
              && rank.Keys == g.nodes.Keys
              && (forall v :: v in rank ==> rank[v] >= 0.0)
              && AreRanks(ChainOf(g.Value(), SeedTeleport(g.nodes.Keys, present)), damping, iterations, rank)
              && (damping <= 0.0 || iterations == 0 ==> rank == SeedTeleport(g.nodes.Keys, present))
              && Mass(rank) <= 1.0
              && (Mass(rank) == 1.0 <==> NoDup(present))
  {
    hide ChainOf, Mass, Iterate, SeedTeleport, AreRanks;
    var present := Present(g.nodes.Keys, seeds);
    if present == [] {
      return map[];
    }
    var teleport := SeedShares(g.nodes.Keys, present);
    SeedMass(g.nodes.Keys, present);
    rank := PagerankCore(g, teleport, damping, iterations);
    PersonalizedMass(ChainOf(g.Value(), teleport), damping, iterations, rank);
  }

  method SeedShares(nodes: set<NodeId>, present: seq<NodeId>) returns (teleport: map<NodeId, real>)
    requires present != [] && forall v :: v in present ==> v in nodes
    ensures teleport == SeedTeleport(nodes, present)
    ensures teleport.Keys == nodes && forall v :: v in teleport ==> teleport[v] >= 0.0
  {
    var share := 1.0 / |present| as real;
    teleport := map v | v in nodes :: 0.0;
    var k := 0;
    while k < |present|
      invariant 0 <= k <= |present|
      invariant teleport == map v | v in nodes :: if v in present[..k] then share else 0.0
    {
      assert present[..k + 1] == present[..k] + [present[k]];
      teleport := teleport[present[k] := share];
      k := k + 1;
    }
    assert present[..k] == present;
  }

  /** The ranks have full mass exactly when `teleport` does. */
  lemma PersonalizedMass(c: Chain, damping: real, k: nat, rank: map<NodeId, real>)
    requires Valid(c) && Mass(c.teleport) <= 1.0 && AreRanks(c, damping, k, rank)
    ensures Mass(rank) <= 1.0 && (Mass(rank) == 1.0 <==> Mass(c.teleport) == 1.0)
    ensures rank.Keys == c.out.Keys && forall v :: v in c.out ==> rank[v] >= 0.0
    ensures damping <= 0.0 || k == 0 ==> rank == c.teleport
  {
    var d := DampingUsed(c, damping, k, rank);
    if damping <= 0.0 {
      NoDampingRestarts(c, damping, k, rank);
    }
    hide Mass, AreRanks;
    MissingMassStaysMissing(c, d, k);
    if Mass(c.teleport) == 1.0 {
      IterateIsDistribution(c, d, k);
    }
    forall v | v in c.out
      ensures rank[v] >= 0.0
    {
      assert At(rank)(v) >= 0.0;
    }
  }
}
