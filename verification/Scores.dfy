/** What a task scores, and what the weights mean (scheduler/src/lib.rs). */
module Scores {
  import opened Tasks

  /** A scoring factor as a float: a number, an infinity, or not a number. */
  datatype Factor = NaN | NegInfinity | PosInfinity | Finite(value: real)

  /** Coerces a factor into [0, 1]: numbers clamp, NaN counts as the low end. */
  function Norm(f: Factor): (r: real)
    ensures 0.0 <= r <= 1.0
    ensures f.Finite? && 0.0 <= f.value <= 1.0 ==> r == f.value
  {
    match f
    case NaN => 0.0
    case NegInfinity => 0.0
    case PosInfinity => 1.0
    case Finite(v) => if v < 0.0 then 0.0 else if v > 1.0 then 1.0 else v
  }

  datatype ScoreFactors = ScoreFactors(
    deadline: Factor, importance: Factor, costEfficiency: Factor,
    runtimeFit: Factor, energy: Factor, confidence: Factor)
  {
    /** Every score is finite and lies in [0, 2], whatever the factors are. */
    function Score(base: Priority): (r: real)
      ensures 0.0 <= r <= 2.0
    {
      BaseWeight(base)
      + 0.30 * Norm(deadline)
      + 0.25 * Norm(importance)
      + 0.15 * Norm(runtimeFit)
      + 0.10 * Norm(confidence)
      + 0.10 * Norm(costEfficiency)
      + 0.10 * Norm(energy)
    }
  }

  function BaseWeight(base: Priority): real {
    match base
    case Low => 0.0
    case Normal => 0.25
    case High => 0.5
    case Critical => 1.0
  }

  // ---------------------------------------------------------------------------
  // Priorities
  // ---------------------------------------------------------------------------

  /** `p` is the less urgent one. */
  ghost predicate Below(p: Priority, q: Priority) {
    match p
    case Low => q != Low
    case Normal => q in {High, Critical}
    case High => q == Critical
    case Critical => false
  }

  /** A more urgent task with the same factors scores higher: from `Low` to `Normal` and from `Normal` to `High` by as
      much, from `High` to `Critical` by twice that. */
  lemma PrioritiesWeigh(f: ScoreFactors)
    ensures forall p, q :: Below(p, q) ==> f.Score(p) < f.Score(q)
    ensures f.Score(High) - f.Score(Normal) == f.Score(Normal) - f.Score(Low)
    ensures f.Score(Critical) - f.Score(High) == 2.0 * (f.Score(High) - f.Score(Normal))
  {
    hide Norm;
    forall p, q | Below(p, q)
      ensures BaseWeight(p) < BaseWeight(q)
    {
    }
  }

  // ---------------------------------------------------------------------------
  // Factors
  // ---------------------------------------------------------------------------

  /** A number counts as the point of [0, 1] nearest to it, infinities as the ends and NaN as the low one. */
  lemma NormIsNearest(v: real, y: real)
    requires 0.0 <= y <= 1.0
    ensures Distance(Norm(Finite(v)), v) <= Distance(y, v)
    ensures Norm(NaN) == Norm(NegInfinity) <= Norm(Finite(v)) <= Norm(PosInfinity)
    ensures y <= Norm(PosInfinity) && Norm(NegInfinity) <= y
  {
  }

  ghost function Distance(x: real, y: real): real {
    if x < y then y - x else x - y
  }

  datatype FactorName = Deadline | Importance | CostEfficiency | RuntimeFit | Energy | Confidence

  ghost function Get(f: ScoreFactors, name: FactorName): Factor {
    match name
    case Deadline => f.deadline
    case Importance => f.importance
    case CostEfficiency => f.costEfficiency
    case RuntimeFit => f.runtimeFit
    case Energy => f.energy
    case Confidence => f.confidence
  }

  ghost function Put(f: ScoreFactors, name: FactorName, v: Factor): ScoreFactors {
    match name
    case Deadline => f.(deadline := v)
    case Importance => f.(importance := v)
    case CostEfficiency => f.(costEfficiency := v)
    case RuntimeFit => f.(runtimeFit := v)
    case Energy => f.(energy := v)
    case Confidence => f.(confidence := v)
  }

  /** What a score gains when one factor moves from `a` to `b`. */
  ghost function Gain(f: ScoreFactors, base: Priority, name: FactorName, a: real, b: real): real {
    Put(f, name, Finite(b)).Score(base) - Put(f, name, Finite(a)).Score(base)
  }

  /** Raising any factor within [0, 1] raises the score, deadline more than importance, importance more than runtime
      fit, and that more than the three others, which count the same: as 6 to 5 to 3 to 2. All six in full count 1, as
      much as the priority does from `Low` to `Critical`. */
  lemma FactorsWeigh(f: ScoreFactors, base: Priority, a: real, b: real)
    requires 0.0 <= a < b <= 1.0
    ensures Gain(f, base, Confidence, a, b) > 0.0
    ensures Gain(f, base, CostEfficiency, a, b) == Gain(f, base, Energy, a, b) == Gain(f, base, Confidence, a, b)
    ensures 2.0 * Gain(f, base, Deadline, a, b) == 6.0 * Gain(f, base, Confidence, a, b)
    ensures 2.0 * Gain(f, base, Importance, a, b) == 5.0 * Gain(f, base, Confidence, a, b)
    ensures 2.0 * Gain(f, base, RuntimeFit, a, b) == 3.0 * Gain(f, base, Confidence, a, b)
    ensures Gain(f, base, Deadline, a, b) + Gain(f, base, Importance, a, b) + Gain(f, base, RuntimeFit, a, b)
            + Gain(f, base, Confidence, a, b) + Gain(f, base, CostEfficiency, a, b) + Gain(f, base, Energy, a, b)
         == b - a
    ensures f.Score(Critical) - f.Score(Low) == 1.0
  {
    GainIsShare(f, base, Deadline, a, b);
    GainIsShare(f, base, Importance, a, b);
    GainIsShare(f, base, RuntimeFit, a, b);
    GainIsShare(f, base, Confidence, a, b);
    GainIsShare(f, base, CostEfficiency, a, b);
    GainIsShare(f, base, Energy, a, b);
    WholeRange(f);
    hide Gain, Norm, ScoreFactors.Score;
  }

  lemma WholeRange(f: ScoreFactors)
    ensures f.Score(Critical) - f.Score(Low) == 1.0
  {
    hide Norm;
  }

  ghost function Share(name: FactorName): real {
    match name
    case Deadline => 0.30
    case Importance => 0.25
    case RuntimeFit => 0.15
    case Confidence => 0.10
    case CostEfficiency => 0.10
    case Energy => 0.10
  }

  lemma GainIsShare(f: ScoreFactors, base: Priority, name: FactorName, a: real, b: real)
    requires 0.0 <= a < b <= 1.0
    ensures Gain(f, base, name, a, b) == Share(name) * (b - a)
  {
    assert Norm(Finite(a)) == a && Norm(Finite(b)) == b;
    hide Norm, BaseWeight;
    match name
    case Deadline =>
    case Importance =>
    case RuntimeFit =>
    case Confidence =>
    case CostEfficiency =>
    case Energy =>
  }

  /** What one factor is worth depends neither on the others nor on the priority. */
  lemma FactorsAreApart(f: ScoreFactors, g: ScoreFactors, p: Priority, q: Priority, name: FactorName, a: real, b: real)
    ensures Gain(f, p, name, a, b) == Gain(g, q, name, a, b)
  {
    hide Norm, BaseWeight;
  }

  /** A factor that counts in full, or not at all. */
  ghost predicate Full(f: Factor) {
    f.PosInfinity? || (f.Finite? && f.value >= 1.0)
  }

  ghost predicate Empty(f: Factor) {
    f.NaN? || f.NegInfinity? || (f.Finite? && f.value <= 0.0)
  }

  /** The highest score is that of `Critical` with every factor in full, the lowest that of `Low` with none. */
  lemma ScoreExtremes(f: ScoreFactors, base: Priority)
    ensures f.Score(base) == 2.0 <==> base == Critical && forall name :: Full(Get(f, name))
    ensures f.Score(base) == 0.0 <==> base == Low && forall name :: Empty(Get(f, name))
  {
    forall x: Factor
      ensures (Full(x) <==> Norm(x) == 1.0) && (Empty(x) <==> Norm(x) == 0.0)
    {
    }
    hide Norm, Full, Empty;
    if forall name :: Full(Get(f, name)) {
      EachNamed(f, Full);
    }
    if forall name :: Empty(Get(f, name)) {
      EachNamed(f, Empty);
    }
  }

  lemma EachNamed(f: ScoreFactors, p: Factor -> bool)
    requires forall name :: p(Get(f, name))
    ensures p(f.deadline) && p(f.importance) && p(f.costEfficiency)
    ensures p(f.runtimeFit) && p(f.energy) && p(f.confidence)
  {
    assert p(Get(f, Deadline)) && p(Get(f, Importance)) && p(Get(f, CostEfficiency));
    assert p(Get(f, RuntimeFit)) && p(Get(f, Energy)) && p(Get(f, Confidence));
  }

  // ---------------------------------------------------------------------------
  // Both together
  // ---------------------------------------------------------------------------

  /** Every factor of `f` counts at least as much as that of `g`. */
  ghost predicate AsGood(f: ScoreFactors, g: ScoreFactors) {
    && Norm(g.deadline) <= Norm(f.deadline) && Norm(g.importance) <= Norm(f.importance)
    && Norm(g.runtimeFit) <= Norm(f.runtimeFit) && Norm(g.confidence) <= Norm(f.confidence)
    && Norm(g.costEfficiency) <= Norm(f.costEfficiency) && Norm(g.energy) <= Norm(f.energy)
  }

  /** At least as urgent with factors at least as good, and better in something. */
  ghost predicate Surpasses(f: ScoreFactors, p: Priority, g: ScoreFactors, q: Priority) {
    !Below(p, q) && AsGood(f, g) && (Below(q, p) || !AsGood(g, f))
  }

  lemma SurpassingScores(f: ScoreFactors, p: Priority, g: ScoreFactors, q: Priority)
    ensures !Below(p, q) && AsGood(f, g) ==> f.Score(p) >= g.Score(q)
    ensures Surpasses(f, p, g, q) ==> f.Score(p) > g.Score(q)
  {
    if AsGood(f, g) {
      FactorsAtLeast(f, g, p);
      PrioritiesWeigh(g);
      hide ScoreFactors.Score, AsGood;
      assert !Below(p, q) ==> p == q || Below(q, p);
    }
  }

  lemma FactorsAtLeast(f: ScoreFactors, g: ScoreFactors, p: Priority)
    requires AsGood(f, g)
    ensures f.Score(p) >= g.Score(p) && (!AsGood(g, f) ==> f.Score(p) > g.Score(p))
  {
    hide Norm, BaseWeight;
  }
}
