/** Ranking metrics (sdk/src/eval.rs) over the reals, with the logarithmic discount left as any decreasing one. */
module Metrics {
  import opened Sequences

  // ---------------------------------------------------------------------------
  // Where the relevant documents stand
  // ---------------------------------------------------------------------------

  /** Positions, among the first `n`, where a relevant document appears for the first time. */
  function Hits(ranked: seq<string>, relevant: set<string>, n: nat): (hits: seq<nat>)
    requires n <= |ranked|
  {
    if n == 0 then []
    else
      Hits(ranked, relevant, n - 1)
      + if ranked[n - 1] in relevant && ranked[n - 1] !in ranked[..n - 1] then [n - 1] else []
  }

  function Cutoff(ranked: seq<string>, k: nat): nat {
    if k < |ranked| then k else |ranked|
  }

  function TopHits(ranked: seq<string>, relevant: set<string>, k: nat): seq<nat> {
    Hits(ranked, relevant, Cutoff(ranked, k))
  }

  /** The hits ascend, so the hit with number `m` stands at position `m` or later. */
  lemma {:induction false} HitsAscend(ranked: seq<string>, relevant: set<string>, n: nat)
    requires n <= |ranked|
    ensures var hits := Hits(ranked, relevant, n);
            && |hits| <= n && (forall m :: 0 <= m < |hits| ==> m <= hits[m] < n)
            && (forall m, l :: 0 <= m < l < |hits| ==> hits[m] < hits[l])
  {
    if n > 0 {
      HitsAscend(ranked, relevant, n - 1);
    }
  }

  lemma ElemsSnoc(before: seq<string>, x: string, relevant: set<string>)
    ensures |Elems(before + [x]) * relevant|
         == |Elems(before) * relevant| + (if x in relevant && x !in before then 1 else 0)
  {
    assert Elems(before + [x]) * relevant
        == Elems(before) * relevant + (if x in relevant && x !in before then {x} else {});
  }

  /** There is one hit for each relevant document. */
  lemma {:induction false} HitsCount(ranked: seq<string>, relevant: set<string>, n: nat)
    requires n <= |ranked|
    ensures |Hits(ranked, relevant, n)| == |Elems(ranked[..n]) * relevant|
  {
    if n == 0 {
      assert Elems(ranked[..0]) * relevant == {};
    } else {
      HitsCount(ranked, relevant, n - 1);
      ElemsSnoc(ranked[..n - 1], ranked[n - 1], relevant);
      assert ranked[..n] == ranked[..n - 1] + [ranked[n - 1]];
    }
  }

  lemma HitsAtMostRelevant(ranked: seq<string>, relevant: set<string>, n: nat)
    requires n <= |ranked|
    ensures |Hits(ranked, relevant, n)| <= |relevant| && |Hits(ranked, relevant, n)| <= n
  {
    HitsAscend(ranked, relevant, n);
    HitsCount(ranked, relevant, n);
    SubsetCardinality(Elems(ranked[..n]) * relevant, relevant);
    var hits := Hits(ranked, relevant, n);
    assert hits != [] ==> |hits| - 1 <= hits[|hits| - 1] < n;
  }

  // ---------------------------------------------------------------------------
  // The metrics as functions of the hits
  // ---------------------------------------------------------------------------

  function Ratio(a: nat, b: nat): real {
    if b == 0 then 0.0 else a as real / b as real
  }

  function ReciprocalRank(hits: seq<nat>): real {
    if hits == [] then 0.0 else Ratio(1, hits[0] + 1)
  }

  /** The precisions at the hits, summed. */
  function PrecisionSum(hits: seq<nat>): real {
    if hits == [] then 0.0
    else PrecisionSum(hits[..|hits| - 1]) + Ratio(|hits|, hits[|hits| - 1] + 1)
  }

  function AveragePrecision(hits: seq<nat>, total: nat): real {
    if total == 0 then 0.0 else PrecisionSum(hits) / total as real
  }

  type Discount = nat -> real

  ghost predicate Decreasing(g: Discount) {
    (forall i :: g(i) > 0.0) && forall i, j :: i < j ==> g(j) < g(i)
  }

  function Gain(g: Discount, hits: seq<nat>): real {
    if hits == [] then 0.0 else Gain(g, hits[..|hits| - 1]) + g(hits[|hits| - 1])
  }

  /** The best gain that `n` hits can have. */
  function IdealGain(g: Discount, n: nat): real {
    if n == 0 then 0.0 else IdealGain(g, n - 1) + g(n - 1)
  }

  function Ndcg(g: Discount, hits: seq<nat>, ideal: nat): real {
    if IdealGain(g, ideal) == 0.0 then 0.0 else Gain(g, hits) / IdealGain(g, ideal)
  }

  function Fewer(a: nat, b: nat): nat {
    if a < b then a else b
  }

  // ---------------------------------------------------------------------------
  // Orders between rankings
  // ---------------------------------------------------------------------------

  /** At least as many hits, each at least as early. */
  ghost predicate AtLeastAsGood(a: seq<nat>, b: seq<nat>) {
    |b| <= |a| && forall m :: 0 <= m < |b| ==> a[m] <= b[m]
  }

  /** The same number of hits, each at least as early. */
  ghost predicate NoLater(a: seq<nat>, b: seq<nat>) {
    |a| == |b| && AtLeastAsGood(a, b)
  }

  /** The hits of a ranking that starts with relevant documents only. */
  function Perfect(n: nat): (hits: seq<nat>)
    ensures |hits| == n && forall m :: 0 <= m < n ==> hits[m] == m
  {
    if n == 0 then [] else Perfect(n - 1) + [n - 1]
  }

  lemma RatioFacts(a: nat, b: nat)
    requires a <= b && b > 0
    ensures 0.0 <= Ratio(a, b) <= 1.0 && (Ratio(a, b) == 1.0 <==> a == b)
  {
    var r, x, y := Ratio(a, b), a as real, b as real;
    assert r * y == x;
    assert (r - 1.0) * y == x - y;
  }

  lemma RatioLater(a: nat, b: nat, c: nat)
    requires 0 < b <= c
    ensures Ratio(a, c) <= Ratio(a, b)
  {
    DivideAntitone(a as real, b as real, c as real);
  }

  lemma DivideAntitone(x: real, y: real, z: real)
    requires 0.0 <= x && 0.0 < y <= z
    ensures x / z <= x / y
  {
    var p, q := x / y, x / z;
    assert p * y == x && q * z == x && q >= 0.0;
    assert q * y <= q * z;
    assert (p - q) * y >= 0.0;
  }

  lemma {:induction false} PrecisionSumBetter(a: seq<nat>, b: seq<nat>)
    requires AtLeastAsGood(a, b)
    ensures PrecisionSum(b) <= PrecisionSum(a)
    decreases |a|
  {
    hide Ratio;
    if a != [] {
      var a', b' := a[..|a| - 1], b[..|b| - (if |a| == |b| then 1 else 0)];
      PrecisionSumBetter(a', b');
      if |a| == |b| {
        RatioLater(|a|, a[|a| - 1] + 1, b[|b| - 1] + 1);
      } else {
        assert b' == b;
        RatioNonNegative(|a|, a[|a| - 1] + 1);
      }
    }
  }

  lemma RatioNonNegative(a: nat, b: nat)
    ensures Ratio(a, b) >= 0.0
  {
  }

  lemma {:induction false} GainBetter(g: Discount, a: seq<nat>, b: seq<nat>)
    requires AtLeastAsGood(a, b) && Decreasing(g)
    ensures Gain(g, b) <= Gain(g, a)
    decreases |a|
  {
    if a != [] {
      var a', b' := a[..|a| - 1], b[..|b| - (if |a| == |b| then 1 else 0)];
      GainBetter(g, a', b');
      if |a| > |b| {
        assert b' == b;
      } else {
        assert a[|a| - 1] == b[|b| - 1] || g(b[|b| - 1]) < g(a[|a| - 1]);
      }
    }
  }

  /** More relevant documents, or the same ones earlier, never lower a metric. */
  lemma BetterScoresHigher(g: Discount, a: seq<nat>, b: seq<nat>, total: nat, k: nat, ideal: nat)
    requires AtLeastAsGood(a, b) && Decreasing(g)
    ensures Ratio(|b|, k) <= Ratio(|a|, k) && Ratio(|b|, total) <= Ratio(|a|, total)
    ensures ReciprocalRank(b) <= ReciprocalRank(a)
    ensures AveragePrecision(b, total) <= AveragePrecision(a, total)
    ensures Ndcg(g, b, ideal) <= Ndcg(g, a, ideal)
  {
    RatioMore(|b|, |a|, k);
    RatioMore(|b|, |a|, total);
    PrecisionSumBetter(a, b);
    GainBetter(g, a, b);
    IdealGainPositive(g, ideal);
    hide Ratio, PrecisionSum, Gain, IdealGain;
    if b != [] {
      RatioLater(1, a[0] + 1, b[0] + 1);
    } else if a != [] {
      RatioNonNegative(1, a[0] + 1);
    }
    if total > 0 {
      DivideMonotone(PrecisionSum(b), PrecisionSum(a), total as real);
    }
    if ideal > 0 {
      DivideMonotone(Gain(g, b), Gain(g, a), IdealGain(g, ideal));
    }
  }

  lemma RatioMore(a: nat, b: nat, c: nat)
    requires a <= b
    ensures Ratio(a, c) <= Ratio(b, c)
  {
    if c > 0 {
      DivideMonotone(a as real, b as real, c as real);
    }
  }

  lemma DivideMonotone(x: real, y: real, z: real)
    requires x <= y && z > 0.0
    ensures x / z <= y / z
  {
  }

  lemma {:induction false} IdealGainPositive(g: Discount, n: nat)
    requires Decreasing(g)
    ensures IdealGain(g, n) >= 0.0 && (IdealGain(g, n) == 0.0 <==> n == 0)
  {
    if n > 0 {
      IdealGainPositive(g, n - 1);
    }
  }

  // ---------------------------------------------------------------------------
  // Bounds, and when they are met
  // ---------------------------------------------------------------------------

  ghost predicate Ascending(hits: seq<nat>) {
    forall m :: 0 <= m < |hits| ==> m <= hits[m]
  }

  lemma {:induction false} PrecisionSumBound(hits: seq<nat>)
    requires Ascending(hits)
    ensures 0.0 <= PrecisionSum(hits) <= |hits| as real
    ensures PrecisionSum(hits) == |hits| as real <==> hits == Perfect(|hits|)
  {
    hide Ratio;
    if hits != [] {
      var front, last := hits[..|hits| - 1], hits[|hits| - 1];
      PrecisionSumBound(front);
      RatioFacts(|hits|, last + 1);
      assert hits == front + [last];
      assert hits == Perfect(|hits|) <==> front == Perfect(|hits| - 1) && last == |hits| - 1;
    }
  }

  lemma {:induction false} GainBound(g: Discount, hits: seq<nat>)
    requires Ascending(hits) && Decreasing(g)
    ensures 0.0 <= Gain(g, hits) <= IdealGain(g, |hits|)
    ensures Gain(g, hits) == IdealGain(g, |hits|) <==> hits == Perfect(|hits|)
  {
    if hits != [] {
      var front, last := hits[..|hits| - 1], hits[|hits| - 1];
      GainBound(g, front);
      assert hits == front + [last];
      assert hits == Perfect(|hits|) <==> front == Perfect(|hits| - 1) && last == |hits| - 1;
      assert last == |hits| - 1 || g(last) < g(|hits| - 1);
    }
  }

  lemma {:induction false} IdealGainMore(g: Discount, m: nat, n: nat)
    requires m <= n && Decreasing(g)
    ensures IdealGain(g, m) <= IdealGain(g, n) && (IdealGain(g, m) == IdealGain(g, n) <==> m == n)
    decreases n
  {
    if m < n {
      IdealGainMore(g, m, n - 1);
    }
  }

  /** Average precision lies between 0 and 1, and is 1 exactly when every relevant document is found, and found
      before anything else. */
  lemma AveragePrecisionBound(hits: seq<nat>, total: nat)
    requires Ascending(hits) && |hits| <= total
    ensures 0.0 <= AveragePrecision(hits, total) <= 1.0
    ensures AveragePrecision(hits, total) == 1.0 <==> total > 0 && hits == Perfect(total)
  {
    hide PrecisionSum, Perfect;
    PrecisionSumBound(hits);
    if total > 0 {
      ShareBound(PrecisionSum(hits), total as real);
    }
  }

  /** nDCG lies between 0 and 1, and is 1 exactly when the top holds as many relevant documents as fit, and nothing
      stands before them. */
  lemma NdcgBound(g: Discount, hits: seq<nat>, ideal: nat)
    requires Ascending(hits) && |hits| <= ideal && Decreasing(g)
    ensures 0.0 <= Ndcg(g, hits, ideal) <= 1.0
    ensures Ndcg(g, hits, ideal) == 1.0 <==> ideal > 0 && hits == Perfect(ideal)
  {
    GainBound(g, hits);
    IdealGainMore(g, |hits|, ideal);
    IdealGainPositive(g, ideal);
    hide Gain, IdealGain, Perfect, Decreasing;
    if ideal > 0 {
      ShareBound(Gain(g, hits), IdealGain(g, ideal));
    }
  }

  lemma ShareBound(x: real, y: real)
    requires 0.0 <= x <= y && y > 0.0
    ensures 0.0 <= x / y <= 1.0 && (x / y == 1.0 <==> x == y)
  {
  }

  // ---------------------------------------------------------------------------
  // Collapsing repeats
  // ---------------------------------------------------------------------------

  /** The first `n` entries, each document only where it appears first. */
  ghost function Collapsed(ranked: seq<string>, n: nat): seq<string>
    requires n <= |ranked|
  {
    if n == 0 then []
    else Collapsed(ranked, n - 1) + if ranked[n - 1] in ranked[..n - 1] then [] else [ranked[n - 1]]
  }

  lemma {:induction false} CollapsedFacts(ranked: seq<string>, n: nat)
    requires n <= |ranked|
    ensures |Collapsed(ranked, n)| <= n && forall x :: x in Collapsed(ranked, n) <==> x in ranked[..n]
  {
    if n > 0 {
      CollapsedFacts(ranked, n - 1);
      assert ranked[..n] == ranked[..n - 1] + [ranked[n - 1]];
    }
  }

  lemma {:induction false} HitsPrefix(ranked: seq<string>, more: seq<string>, relevant: set<string>, n: nat)
    requires n <= |ranked|
    ensures Hits(ranked + more, relevant, n) == Hits(ranked, relevant, n)
  {
    if n > 0 {
      HitsPrefix(ranked, more, relevant, n - 1);
      assert (ranked + more)[..n - 1] == ranked[..n - 1];
    }
  }

  lemma {:induction false} HitsExtend(ranked: seq<string>, relevant: set<string>, m: nat, n: nat)
    requires m <= n <= |ranked|
    ensures Hits(ranked, relevant, m) <= Hits(ranked, relevant, n)
    decreases n
  {
    if m < n {
      HitsExtend(ranked, relevant, m, n - 1);
    }
  }

  lemma HitsSnoc(c: seq<string>, x: string, relevant: set<string>)
    requires x !in c
    ensures Hits(c + [x], relevant, |c| + 1)
         == if x in relevant then Hits(c, relevant, |c|) + [|c|] else Hits(c, relevant, |c|)
  {
    HitsPrefix(c, [x], relevant, |c|);
    assert (c + [x])[..|c|] == c;
  }

  lemma BetterSnoc(a: seq<nat>, b: seq<nat>, i: nat, j: nat)
    requires NoLater(a, b) && i <= j
    ensures NoLater(a + [i], b + [j])
  {
  }

  lemma {:induction false} CollapsedIsBetter(ranked: seq<string>, relevant: set<string>, n: nat)
    requires n <= |ranked|
    ensures var c := Collapsed(ranked, n); NoLater(Hits(c, relevant, |c|), Hits(ranked, relevant, n))
  {
    hide Collapsed, Hits, NoLater;
    if n == 0 {
      NothingCollapsed(ranked, relevant);
    } else {
      CollapsedIsBetter(ranked, relevant, n - 1);
      CollapsedStep(ranked, relevant, n);
    }
  }

  lemma NothingCollapsed(ranked: seq<string>, relevant: set<string>)
    ensures var c := Collapsed(ranked, 0); NoLater(Hits(c, relevant, |c|), Hits(ranked, relevant, 0))
  {
  }

  /** A new document at position `i` stands no later in the list without repeats. */
  lemma NewDocument(c: seq<string>, x: string, relevant: set<string>, hits: seq<nat>, i: nat)
    requires x !in c && |c| <= i && NoLater(Hits(c, relevant, |c|), hits)
    ensures NoLater(Hits(c + [x], relevant, |c| + 1), if x in relevant then hits + [i] else hits)
  {
    HitsSnoc(c, x, relevant);
    hide Hits, NoLater;
    if x in relevant {
      BetterSnoc(Hits(c, relevant, |c|), hits, |c|, i);
    }
  }

  lemma CollapsedStep(ranked: seq<string>, relevant: set<string>, n: nat)
    requires 0 < n <= |ranked|
    requires var c := Collapsed(ranked, n - 1); NoLater(Hits(c, relevant, |c|), Hits(ranked, relevant, n - 1))
    ensures var c := Collapsed(ranked, n); NoLater(Hits(c, relevant, |c|), Hits(ranked, relevant, n))
  {
    OneMoreEntry(ranked, relevant, n);
    CollapsedNew(ranked, n);
    hide Collapsed, Hits, NoLater;
    var x := ranked[n - 1];
    if x !in ranked[..n - 1] {
      NewDocument(Collapsed(ranked, n - 1), x, relevant, Hits(ranked, relevant, n - 1), n - 1);
    }
  }

  lemma CollapsedNew(ranked: seq<string>, n: nat)
    requires 0 < n <= |ranked|
    ensures |Collapsed(ranked, n - 1)| <= n - 1
    ensures ranked[n - 1] in Collapsed(ranked, n - 1) <==> ranked[n - 1] in ranked[..n - 1]
  {
    CollapsedFacts(ranked, n - 1);
  }

  lemma OneMoreEntry(ranked: seq<string>, relevant: set<string>, n: nat)
    requires 0 < n <= |ranked|
    ensures var (c, x, before) := (Collapsed(ranked, n - 1), ranked[n - 1], Hits(ranked, relevant, n - 1));
            if x in ranked[..n - 1] then Collapsed(ranked, n) == c && Hits(ranked, relevant, n) == before
            else Collapsed(ranked, n) == c + [x]
                 && Hits(ranked, relevant, n) == if x in relevant then before + [n - 1] else before
  {
  }

  lemma {:induction false} CollapsedPrefix(ranked: seq<string>, m: nat, n: nat)
    requires m <= n <= |ranked|
    ensures Collapsed(ranked, m) <= Collapsed(ranked, n)
    decreases n
  {
    if m < n {
      CollapsedPrefix(ranked, m, n - 1);
    }
  }

  lemma HitsOfPrefix(early: seq<string>, all: seq<string>, relevant: set<string>)
    requires early <= all
    ensures Hits(all, relevant, |early|) == Hits(early, relevant, |early|)
  {
    hide Hits;
    HitsPrefix(early, all[|early|..], relevant, |early|);
    assert all == early + all[|early|..];
  }

  lemma PrefixIsBetter(a: seq<nat>, longer: seq<nat>, b: seq<nat>)
    requires a <= longer && AtLeastAsGood(a, b)
    ensures AtLeastAsGood(longer, b)
  {
  }

  /** Dropping repeats from a ranking never makes its top hits worse, at any cutoff. */
  lemma CollapsingIsBetter(ranked: seq<string>, relevant: set<string>, k: nat)
    ensures var c := Collapsed(ranked, |ranked|);
            AtLeastAsGood(TopHits(c, relevant, k), TopHits(ranked, relevant, k))
  {
    hide Collapsed, Hits;
    var n, c := Cutoff(ranked, k), Collapsed(ranked, |ranked|);
    var early := Collapsed(ranked, n);
    CollapsedFacts(ranked, n);
    CollapsedPrefix(ranked, n, |ranked|);
    CollapsedIsBetter(ranked, relevant, n);
    HitsOfPrefix(early, c, relevant);
    HitsExtend(c, relevant, |early|, Cutoff(c, k));
    PrefixIsBetter(Hits(c, relevant, |early|), TopHits(c, relevant, k), TopHits(ranked, relevant, k));
  }

  // ---------------------------------------------------------------------------
  // All metrics of one ranking
  // ---------------------------------------------------------------------------

  datatype EvalScores = EvalScores(
    k: nat, precision: real, recall: real, reciprocalRank: real, ndcg: real, averagePrecision: real)

  function Scores(g: Discount, ranked: seq<string>, relevant: set<string>, k: nat): EvalScores {
    var top, all := TopHits(ranked, relevant, k), Hits(ranked, relevant, |ranked|);
    EvalScores(k, Ratio(|top|, k), Ratio(|top|, |relevant|), ReciprocalRank(all),
               Ndcg(g, top, Fewer(|relevant|, k)), AveragePrecision(all, |relevant|))
  }

  /** Precision and recall count the different relevant documents in the top, of the places there and of all relevant
      ones. */
  lemma CountsMean(g: Discount, ranked: seq<string>, relevant: set<string>, k: nat)
    ensures var (s, found) := (Scores(g, ranked, relevant, k), Elems(ranked[..Cutoff(ranked, k)]) * relevant);
            && s.precision * k as real == (if k == 0 then 0 else |found|) as real
            && s.recall * |relevant| as real == |found| as real
  {
    hide Hits, Ndcg, AveragePrecision, ReciprocalRank, Elems;
    HitsCount(ranked, relevant, Cutoff(ranked, k));
    var found := Elems(ranked[..Cutoff(ranked, k)]) * relevant;
    SubsetCardinality(found, relevant);
    RatioTimes(|found|, k);
    RatioTimes(|found|, |relevant|);
  }

  lemma RatioTimes(a: nat, b: nat)
    ensures Ratio(a, b) * b as real == if b == 0 then 0.0 else a as real
  {
  }

  /** The cutoff is the place asked for, or the end of a shorter ranking. */
  lemma CutoffIs(ranked: seq<string>, k: nat, i: nat)
    ensures i < Cutoff(ranked, k) <==> i < k && i < |ranked|
  {
  }

  /** The reciprocal rank is that of the first relevant document, counted from 1. */
  lemma ReciprocalRankMeans(g: Discount, ranked: seq<string>, relevant: set<string>, k: nat, i: nat)
    requires i < |ranked| && ranked[i] in relevant && forall j :: 0 <= j < i ==> ranked[j] !in relevant
    ensures Scores(g, ranked, relevant, k).reciprocalRank * (i + 1) as real == 1.0
  {
    hide Ndcg, AveragePrecision, TopHits, Ratio;
    NoHitsBefore(ranked, relevant, i);
    HitsBeginAt(ranked, relevant, i, |ranked|);
    RatioTimes(1, i + 1);
  }

  lemma {:induction false} NoHitsBefore(ranked: seq<string>, relevant: set<string>, n: nat)
    requires n <= |ranked| && forall j :: 0 <= j < n ==> ranked[j] !in relevant
    ensures Hits(ranked, relevant, n) == []
  {
    if n > 0 {
      NoHitsBefore(ranked, relevant, n - 1);
    }
  }

  lemma {:induction false} HitsBeginAt(ranked: seq<string>, relevant: set<string>, i: nat, n: nat)
    requires i < n <= |ranked| && ranked[i] in relevant && Hits(ranked, relevant, i) == []
    requires forall j :: 0 <= j < i ==> ranked[j] !in relevant
    ensures Hits(ranked, relevant, n) != [] && Hits(ranked, relevant, n)[0] == i
  {
    if n > i + 1 {
      HitsBeginAt(ranked, relevant, i, n - 1);
    } else {
      assert forall x :: x in ranked[..i] ==> x !in relevant;
    }
  }

  /** A hit is a place where a relevant document stands for the first time. */
  lemma {:induction false} HitsAre(ranked: seq<string>, relevant: set<string>, n: nat)
    requires n <= |ranked|
    ensures forall i :: 0 <= i < |ranked| ==>
              (i in Hits(ranked, relevant, n) <==> i < n && ranked[i] in relevant && ranked[i] !in ranked[..i])
  {
    if n > 0 {
      HitsAre(ranked, relevant, n - 1);
    }
  }

  /** Where a hit is added last, the average precision gains the precision there, shared among all relevant
      documents. */
  lemma AveragePrecisionGains(hits: seq<nat>, place: nat, total: nat)
    requires total > 0
    ensures AveragePrecision([], total) == 0.0
    ensures (AveragePrecision(hits + [place], total) - AveragePrecision(hits, total)) * total as real
            * (place + 1) as real == (|hits| + 1) as real
  {
    var more, n := hits + [place], |hits|;
    assert more[..n] == hits;
    var t, x, y := total as real, PrecisionSum(hits), Ratio(n + 1, place + 1);
    assert PrecisionSum(more) == x + y;
    QuotientGap(x, y, t);
    RatioTimes(n + 1, place + 1);
  }

  lemma QuotientGap(x: real, y: real, t: real)
    requires t > 0.0
    ensures ((x + y) / t - x / t) * t == y
  {
    var a, b := (x + y) / t, x / t;
    assert a * t == x + y && b * t == x;
    assert (a - b) * t == a * t - b * t;
  }

  ghost predicate NoHigher(a: EvalScores, b: EvalScores) {
    && a.precision <= b.precision && a.recall <= b.recall && a.reciprocalRank <= b.reciprocalRank
    && a.ndcg <= b.ndcg && a.averagePrecision <= b.averagePrecision
  }

  /** Every metric lies between 0 and 1, whatever the ranking, repeats included. */
  lemma ScoresBounded(g: Discount, ranked: seq<string>, relevant: set<string>, k: nat)
    requires Decreasing(g)
    ensures NoHigher(EvalScores(k, 0.0, 0.0, 0.0, 0.0, 0.0), Scores(g, ranked, relevant, k))
    ensures NoHigher(Scores(g, ranked, relevant, k), EvalScores(k, 1.0, 1.0, 1.0, 1.0, 1.0))
  {
    var top, all := TopHits(ranked, relevant, k), Hits(ranked, relevant, |ranked|);
    HitsAscend(ranked, relevant, Cutoff(ranked, k));
    HitsAscend(ranked, relevant, |ranked|);
    HitsAtMostRelevant(ranked, relevant, Cutoff(ranked, k));
    HitsAtMostRelevant(ranked, relevant, |ranked|);
    hide Ratio, Ndcg, AveragePrecision, Hits, ReciprocalRank, TopHits;
    NdcgBound(g, top, Fewer(|relevant|, k));
    AveragePrecisionBound(all, |relevant|);
    RatioBound(|top|, k);
    RatioBound(|top|, |relevant|);
    ReciprocalRankBound(all);
  }

  lemma RatioBound(a: nat, b: nat)
    requires a <= b
    ensures 0.0 <= Ratio(a, b) <= 1.0
  {
    if b > 0 {
      RatioFacts(a, b);
    }
  }

  lemma ReciprocalRankBound(hits: seq<nat>)
    ensures 0.0 <= ReciprocalRank(hits) <= 1.0
  {
    if hits != [] {
      RatioFacts(1, hits[0] + 1);
    }
  }

  /** A run that lists documents repeatedly never outscores the same run without the repeats. */
  lemma RepeatsNeverHelp(g: Discount, ranked: seq<string>, relevant: set<string>, k: nat)
    requires Decreasing(g)
    ensures NoHigher(Scores(g, ranked, relevant, k), Scores(g, Collapsed(ranked, |ranked|), relevant, k))
  {
    hide Ratio, ReciprocalRank, AveragePrecision, Ndcg, Decreasing, Collapsed, AtLeastAsGood;
    var c := Collapsed(ranked, |ranked|);
    CollapsingIsBetter(ranked, relevant, k);
    CollapsedIsBetter(ranked, relevant, |ranked|);
    BetterScoresHigher(g, TopHits(c, relevant, k), TopHits(ranked, relevant, k), |relevant|, k, Fewer(|relevant|, k));
    BetterScoresHigher(g, Hits(c, relevant, |c|), Hits(ranked, relevant, |ranked|), |relevant|, k, 0);
  }

  /** The first `n` entries are different relevant documents. */
  ghost predicate StartsRelevant(ranked: seq<string>, relevant: set<string>, n: nat) {
    n <= |ranked| && NoDup(ranked[..n]) && forall i :: 0 <= i < n ==> ranked[i] in relevant
  }

  lemma {:induction false} PerfectHits(ranked: seq<string>, relevant: set<string>, n: nat)
    requires n <= |ranked|
    ensures Hits(ranked, relevant, n) == Perfect(n) <==> StartsRelevant(ranked, relevant, n)
  {
    if n > 0 {
      var x, before := ranked[n - 1], ranked[..n - 1];
      PerfectHits(ranked, relevant, n - 1);
      HitsAtMostRelevant(ranked, relevant, n - 1);
      assert ranked[..n] == before + [x];
      NoDupSnoc(before, x);
      PerfectStep(ranked, relevant, n);
    }
  }

  lemma PerfectStep(ranked: seq<string>, relevant: set<string>, n: nat)
    requires 0 < n <= |ranked| && |Hits(ranked, relevant, n - 1)| <= n - 1
    ensures Hits(ranked, relevant, n) == Perfect(n) <==>
              Hits(ranked, relevant, n - 1) == Perfect(n - 1)
              && ranked[n - 1] in relevant && ranked[n - 1] !in ranked[..n - 1]
  {
    var front := Hits(ranked, relevant, n - 1);
    assert Perfect(n)[..n - 1] == Perfect(n - 1);
    if Hits(ranked, relevant, n) == Perfect(n) {
      assert |Hits(ranked, relevant, n)| == n;
      assert Hits(ranked, relevant, n)[..n - 1] == front;
    }
  }

  lemma {:induction false} PerfectEarly(ranked: seq<string>, relevant: set<string>, m: nat, n: nat)
    requires m <= n <= |ranked|
    ensures Hits(ranked, relevant, n) == Perfect(m)
       ==> Hits(ranked, relevant, m) == Perfect(m)
    decreases n
  {
    if m < n {
      var hits := Hits(ranked, relevant, n);
      if hits == Perfect(m) {
        assert m > 0 ==> hits[m - 1] == m - 1;
        PerfectEarly(ranked, relevant, m, n - 1);
      }
    }
  }

  /** When the scores are full: nDCG when the top has nothing but relevant documents, as many as fit; recall when
      every relevant document is in the top; average precision when the ranking starts with all of them. */
  lemma FullScores(g: Discount, ranked: seq<string>, relevant: set<string>, k: nat)
    requires Decreasing(g)
    ensures var s := Scores(g, ranked, relevant, k);
            && (s.ndcg == 1.0 <==>
                  relevant != {} && k > 0 && StartsRelevant(ranked, relevant, Fewer(|relevant|, k)))
            && (s.recall == 1.0 <==> relevant != {} && relevant <= Elems(ranked[..Cutoff(ranked, k)]))
            && (s.averagePrecision == 1.0 <==> relevant != {} && StartsRelevant(ranked, relevant, |relevant|))
  {
    var top, all, n := TopHits(ranked, relevant, k), Hits(ranked, relevant, |ranked|), Fewer(|relevant|, k);
    HitsAscend(ranked, relevant, Cutoff(ranked, k));
    HitsAscend(ranked, relevant, |ranked|);
    HitsAtMostRelevant(ranked, relevant, Cutoff(ranked, k));
    HitsAtMostRelevant(ranked, relevant, |ranked|);
    NdcgBound(g, top, n);
    AveragePrecisionBound(all, |relevant|);
    FullWhen(ranked, relevant, Cutoff(ranked, k), n);
    FullWhen(ranked, relevant, |ranked|, |relevant|);
    RecallFull(ranked, relevant, k);
  }

  lemma RecallFull(ranked: seq<string>, relevant: set<string>, k: nat)
    ensures Ratio(|TopHits(ranked, relevant, k)|, |relevant|) == 1.0
       <==> relevant != {} && relevant <= Elems(ranked[..Cutoff(ranked, k)])
  {
    var n := Cutoff(ranked, k);
    HitsCount(ranked, relevant, n);
    HitsAtMostRelevant(ranked, relevant, n);
    SubsetCardinality(Elems(ranked[..n]) * relevant, relevant);
    assert relevant <= Elems(ranked[..n]) <==> Elems(ranked[..n]) * relevant == relevant;
    if relevant != {} {
      RatioFacts(|TopHits(ranked, relevant, k)|, |relevant|);
    }
  }

  /** The hits among the first `n` are the first `m` positions exactly when the ranking starts that way, given that
      there are no more than `m`. */
  lemma FullWhen(ranked: seq<string>, relevant: set<string>, n: nat, m: nat)
    requires n <= |ranked| && |Hits(ranked, relevant, n)| <= m && (m <= |ranked| ==> m <= n)
    ensures Hits(ranked, relevant, n) == Perfect(m) <==> StartsRelevant(ranked, relevant, m)
  {
    HitsAtMostRelevant(ranked, relevant, n);
    if m <= n {
      PerfectHits(ranked, relevant, m);
      PerfectEarly(ranked, relevant, m, n);
      HitsExtend(ranked, relevant, m, n);
    }
  }

  // ---------------------------------------------------------------------------
  // The loops
  // ---------------------------------------------------------------------------

  lemma SeenSnoc(before: seq<string>, x: string)
    ensures Elems(before + [x]) == Elems(before) + {x}
  {
  }

  method CountTop(ranked: seq<string>, relevant: set<string>, k: nat) returns (count: nat)
    ensures count == |TopHits(ranked, relevant, k)|
  {
    count := 0;
    var seen: set<string> := {};
    for i := 0 to Cutoff(ranked, k)
      invariant seen == Elems(ranked[..i]) && count == |Hits(ranked, relevant, i)|
    {
      assert ranked[..i + 1] == ranked[..i] + [ranked[i]];
      SeenSnoc(ranked[..i], ranked[i]);
      if ranked[i] in relevant && ranked[i] !in seen {
        count := count + 1;
      }
      seen := seen + {ranked[i]};
    }
  }

  method TopGain(g: Discount, ranked: seq<string>, relevant: set<string>, k: nat) returns (gain: real)
    ensures gain == Gain(g, TopHits(ranked, relevant, k))
  {
    gain := 0.0;
    var seen: set<string> := {};
    for i := 0 to Cutoff(ranked, k)
      invariant seen == Elems(ranked[..i]) && gain == Gain(g, Hits(ranked, relevant, i))
    {
      assert ranked[..i + 1] == ranked[..i] + [ranked[i]];
      SeenSnoc(ranked[..i], ranked[i]);
      var hits := Hits(ranked, relevant, i);
      assert (hits + [i])[..|hits|] == hits && hits + [] == hits;
      if ranked[i] in relevant && ranked[i] !in seen {
        gain := gain + g(i);
      }
      seen := seen + {ranked[i]};
    }
  }

  lemma FirstHit(ranked: seq<string>, relevant: set<string>, i: nat)
    requires i < |ranked| && ranked[i] in relevant && Hits(ranked, relevant, i) == []
    requires forall j :: 0 <= j < i ==> ranked[j] !in relevant
    ensures ReciprocalRank(Hits(ranked, relevant, |ranked|)) == Ratio(1, i + 1)
  {
    assert ranked[i] !in ranked[..i];
    assert Hits(ranked, relevant, i + 1) == [i];
    hide Ratio, Hits;
    HitsExtend(ranked, relevant, i + 1, |ranked|);
  }

  method FirstRelevant(ranked: seq<string>, relevant: set<string>) returns (r: real)
    ensures r == ReciprocalRank(Hits(ranked, relevant, |ranked|))
  {
    for i := 0 to |ranked|
      invariant Hits(ranked, relevant, i) == [] && forall j :: 0 <= j < i ==> ranked[j] !in relevant
    {
      if ranked[i] in relevant {
        FirstHit(ranked, relevant, i);
        return Ratio(1, i + 1);
      }
    }
    return 0.0;
  }

  method PrecisionAtHits(ranked: seq<string>, relevant: set<string>) returns (r: real)
    ensures r == AveragePrecision(Hits(ranked, relevant, |ranked|), |relevant|)
  {
    hide Ratio;
    if relevant == {} {
      return 0.0;
    }
    var found, sum := 0, 0.0;
    var seen: set<string> := {};
    for i := 0 to |ranked|
      invariant seen == Elems(ranked[..i])
      invariant found == |Hits(ranked, relevant, i)| && sum == PrecisionSum(Hits(ranked, relevant, i))
    {
      assert ranked[..i + 1] == ranked[..i] + [ranked[i]];
      SeenSnoc(ranked[..i], ranked[i]);
      var hits := Hits(ranked, relevant, i);
      assert (hits + [i])[..|hits|] == hits && hits + [] == hits;
      if ranked[i] in relevant && ranked[i] !in seen {
        found := found + 1;
        sum := sum + Ratio(found, i + 1);
      }
      seen := seen + {ranked[i]};
    }
    return sum / |relevant| as real;
  }

  method Evaluate(g: Discount, ranked: seq<string>, relevant: set<string>, k: nat) returns (s: EvalScores)
    ensures s == Scores(g, ranked, relevant, k)
  {
    hide ReciprocalRank, AveragePrecision, Gain, Hits;
    var count := CountTop(ranked, relevant, k);
    var gain := TopGain(g, ranked, relevant, k);
    var rr := FirstRelevant(ranked, relevant);
    var ap := PrecisionAtHits(ranked, relevant);
    var ideal := IdealGain(g, Fewer(|relevant|, k));
    s := EvalScores(k, Ratio(count, k), Ratio(count, |relevant|), rr, if ideal == 0.0 then 0.0 else gain / ideal, ap);
  }
}
