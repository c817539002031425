/** The audit driver `run_audit`: compares every review that either labeller
    mentions, adds up the per-review scores and counts, derives the macro- and
    micro-averaged figures, and decides on the micro-averaged F1. */
module Audit {
  import opened Ordering
  import opened Metrics
  import opened Loaders

  /** One row of the audit: the review, the labels on each side, the scores,
      and the F1 as the row shows it, rounded to three decimals. */
  datatype ReviewResult = ReviewResult(reviewId: string, reference: seq<string>,
                                       candidate: seq<string>, metrics: MetricResult,
                                       roundedF1: real)

  /** The six running sums: recall, precision and F1 summed over reviews, and
      the true-positive, false-negative and false-positive counts. */
  datatype Totals = Totals(recall: real, precision: real, f1: real, tp: nat, fn: nat, fp: nat)

  /** The figures the audit reports, as percentages, with the summed counts. */
  datatype Summary = Summary(macroRecall: real, macroPrecision: real, macroF1: real,
                             microRecall: real, microPrecision: real, microF1: real,
                             totalTp: nat, totalFn: nat, totalFp: nat)

  /** The verdict: adopt the candidate labeller, or flag it and list the worst reviews. */
  datatype Decision = Green | Red(worst: seq<ReviewResult>)

  /** The micro-averaged F1, in percent, from which the verdict is green. */
  const GreenThreshold: real := 80.0
  /** A review is listed as poor when its rounded F1 is below this. */
  const LowScore: real := 0.5
  /** At most this many poor reviews are listed. */
  const MaxListed: nat := 10

  /** A value rounded to three decimals, halves rounded up: the number the
      results file shows and the worst-case listing reads back. */
  function Rounded(x: real): real
  {
    (x * 1000.0 + 0.5).Floor as real / 1000.0
  }

  /** Rounding moves a value by at most half a thousandth. */
  lemma RoundedNear(x: real)
    ensures x - 0.0005 < Rounded(x) <= x + 0.0005
  {
    var y := x * 1000.0 + 0.5;
    assert y.Floor as real <= y < y.Floor as real + 1.0;
  }

  /** The comparison of one review; an id one side does not mention has no labels there. */
  function Evaluate(id: string, reference: map<string, seq<string>>,
                    candidate: map<string, seq<string>>): ReviewResult
  {
    var r := LabelsOf(reference, id);
    var c := LabelsOf(candidate, id);
    var m := CalculateMetrics(r, c);
    ReviewResult(id, r, c, m, Rounded(m.f1))
  }

  function EvaluateAll(ids: seq<string>, reference: map<string, seq<string>>,
                       candidate: map<string, seq<string>>): seq<ReviewResult>
  {
    seq(|ids|, i requires 0 <= i < |ids| => Evaluate(ids[i], reference, candidate))
  }

  function ReviewIds(results: seq<ReviewResult>): seq<string>
  {
    seq(|results|, i requires 0 <= i < |results| => results[i].reviewId)
  }

  /** The running sums after the given results, in order. */
  function Accumulate(results: seq<ReviewResult>): Totals
  {
    if results == [] then Totals(0.0, 0.0, 0.0, 0, 0, 0)
    else
      var t := Accumulate(results[..|results| - 1]);
      var m := results[|results| - 1].metrics;
      Totals(t.recall + m.recall, t.precision + m.precision, t.f1 + m.f1,
             t.tp + m.tp, t.fn + m.fn, t.fp + m.fp)
  }

  /** A sum over `n` reviews as a per-review mean in percent; zero when there are no reviews. */
  function MacroMean(total: real, n: nat): real
  {
    if n > 0 then total / n as real * 100.0 else 0.0
  }

  /** `tp` as a percentage of `tp + other`; zero when both are zero. */
  function MicroRatio(tp: nat, other: nat): real
  {
    if tp + other > 0 then tp as real / (tp + other) as real * 100.0 else 0.0
  }

  function Summarize(t: Totals, n: nat): Summary
  {
    var microRecall := MicroRatio(t.tp, t.fn);
    var microPrecision := MicroRatio(t.tp, t.fp);
    Summary(MacroMean(t.recall, n), MacroMean(t.precision, n), MacroMean(t.f1, n),
            microRecall, microPrecision, HarmonicMean(microRecall, microPrecision),
            t.tp, t.fn, t.fp)
  }

  /** Each sum lies between zero and the number of reviews when every review's
      scores lie in [0, 1]. */
  lemma {:induction false} AccumulateBounded(results: seq<ReviewResult>)
    requires forall r :: r in results ==>
      0.0 <= r.metrics.recall <= 1.0 && 0.0 <= r.metrics.precision <= 1.0 && 0.0 <= r.metrics.f1 <= 1.0
    ensures var t := Accumulate(results);
      && 0.0 <= t.recall <= |results| as real
      && 0.0 <= t.precision <= |results| as real
      && 0.0 <= t.f1 <= |results| as real
  {
    if results != [] {
      var front := results[..|results| - 1];
      assert forall r :: r in front ==> r in results;
      assert results[|results| - 1] in results;
      AccumulateBounded(front);
    }
  }

  /** The macro averages are percentages when the sums are bounded by the
      review count, and all three are zero when there are no reviews. */
  lemma MacroBounded(t: Totals, n: nat)
    requires 0.0 <= t.recall <= n as real && 0.0 <= t.precision <= n as real && 0.0 <= t.f1 <= n as real
    ensures var s := Summarize(t, n);
      && 0.0 <= s.macroRecall <= 100.0
      && 0.0 <= s.macroPrecision <= 100.0
      && 0.0 <= s.macroF1 <= 100.0
    ensures n == 0 ==> var s := Summarize(t, n);
      s.macroRecall == 0.0 && s.macroPrecision == 0.0 && s.macroF1 == 0.0
  {
    if n > 0 {
      MeanAtMostHundred(t.recall, n);
      MeanAtMostHundred(t.precision, n);
      MeanAtMostHundred(t.f1, n);
    }
  }

  lemma MeanAtMostHundred(total: real, n: nat)
    requires n > 0 && 0.0 <= total <= n as real
    ensures 0.0 <= total / n as real * 100.0 <= 100.0
  {
    assert total / n as real <= 1.0;
  }

  /** A count as a percentage of a positive base, multiplied back by the base. */
  lemma PercentTimesBase(tp: nat, base: nat)
    requires base > 0
    ensures tp as real / base as real * 100.0 * base as real == 100.0 * tp as real
  {
    var q := tp as real / base as real;
    assert q * base as real == tp as real;
    assert q * 100.0 * base as real == 100.0 * (q * base as real);
  }

  /** The micro-averaged F1 is `200 tp / (2 tp + fn + fp)` percent, and zero when
      all three counts are zero. */
  lemma MicroF1ClosedForm(t: Totals, n: nat)
    ensures Summarize(t, n).microF1 ==
      if 2 * t.tp + t.fn + t.fp > 0 then 200.0 * t.tp as real / (2 * t.tp + t.fn + t.fp) as real else 0.0
  {
    var r := MicroRatio(t.tp, t.fn);
    var p := MicroRatio(t.tp, t.fp);
    var bigA := t.tp + t.fn;
    var bigB := t.tp + t.fp;
    if bigA > 0 && bigB > 0 {
      PercentTimesBase(t.tp, bigA);
      PercentTimesBase(t.tp, bigB);
      HarmonicOfRatios(r, p, 100.0 * t.tp as real, bigA as real, bigB as real);
      assert 2.0 * (100.0 * t.tp as real) == 200.0 * t.tp as real;
    } else {
      assert t.tp == 0;
      assert r == 0.0 && p == 0.0;
    }
  }

  lemma QuotientAtMost(a: real, b: real, c: real)
    requires b > 0.0 && 0.0 <= a <= c * b
    ensures 0.0 <= a / b <= c
  {
  }

  /** The micro-averaged figures are percentages. */
  lemma MicroBounded(t: Totals, n: nat)
    ensures var s := Summarize(t, n);
      && 0.0 <= s.microRecall <= 100.0
      && 0.0 <= s.microPrecision <= 100.0
      && 0.0 <= s.microF1 <= 100.0
  {
    RatioAtMostHundred(t.tp, t.fn);
    RatioAtMostHundred(t.tp, t.fp);
    MicroF1ClosedForm(t, n);
    var d := 2 * t.tp + t.fn + t.fp;
    if d > 0 {
      QuotientAtMost(200.0 * t.tp as real, d as real, 100.0);
    }
  }

  lemma RatioAtMostHundred(tp: nat, other: nat)
    ensures 0.0 <= MicroRatio(tp, other) <= 100.0
  {
    if tp + other > 0 {
      QuotientAtMost(tp as real, (tp + other) as real, 1.0);
    }
  }

  /** The micro-averaged F1 is positive exactly when some label matched somewhere. */
  lemma MicroF1PositiveIff(t: Totals, n: nat)
    ensures Summarize(t, n).microF1 > 0.0 <==> t.tp > 0
  {
    MicroF1ClosedForm(t, n);
  }

  /** The macro and the micro averages can disagree: on these sums over two
      reviews the macro F1 is 50 and the micro F1 is 25. DiffersOnResults shows
      two comparisons that add up to them. */
  lemma MacroMicroDiffer()
    ensures Summarize(Totals(1.0, 1.0, 1.0, 1, 3, 3), 2).macroF1 == 50.0
    ensures Summarize(Totals(1.0, 1.0, 1.0, 1, 3, 3), 2).microF1 == 25.0
  {
    MicroF1ClosedForm(Totals(1.0, 1.0, 1.0, 1, 3, 3), 2);
  }

  /** A review whose two sides hold the same single label scores perfectly. */
  lemma MatchedOneFacts(r: ReviewResult)
    requires r.metrics == CalculateMetrics(r.reference, r.candidate)
    requires r.reference == r.candidate && |LabelSet(r.reference)| == 1
    ensures r.metrics.recall == 1.0 && r.metrics.precision == 1.0 && r.metrics.f1 == 1.0
    ensures r.metrics.tp == 1 && r.metrics.fn == 0 && r.metrics.fp == 0
  {
    Reflexive(r.reference);
  }

  /** A review that misses three labels and makes up three others scores zero. */
  lemma MissedThreeFacts(r: ReviewResult)
    requires r.metrics == CalculateMetrics(r.reference, r.candidate)
    requires r.reference != [] && r.candidate != []
    requires |LabelSet(r.reference)| == 3 && |LabelSet(r.candidate)| == 3
    requires LabelSet(r.reference) * LabelSet(r.candidate) == {}
    ensures r.metrics.recall == 0.0 && r.metrics.precision == 0.0 && r.metrics.f1 == 0.0
    ensures r.metrics.tp == 0 && r.metrics.fn == 3 && r.metrics.fp == 3
  {
    F1ClosedForm(r.reference, r.candidate);
  }

  /** The two reviews of MacroMicroDiffer, compared by `calculate_metrics`:
      their sums are the ones stated there, so macro F1 50 and micro F1 25. */
  lemma DiffersOnResults(r1: ReviewResult, r2: ReviewResult)
    requires r1.metrics == CalculateMetrics(r1.reference, r1.candidate)
    requires r1.reference == r1.candidate && |LabelSet(r1.reference)| == 1
    requires r2.metrics == CalculateMetrics(r2.reference, r2.candidate)
    requires r2.reference != [] && r2.candidate != []
    requires |LabelSet(r2.reference)| == 3 && |LabelSet(r2.candidate)| == 3
    requires LabelSet(r2.reference) * LabelSet(r2.candidate) == {}
    ensures Accumulate([r1, r2]) == Totals(1.0, 1.0, 1.0, 1, 3, 3)
    ensures Summarize(Accumulate([r1, r2]), 2).macroF1 == 50.0
    ensures Summarize(Accumulate([r1, r2]), 2).microF1 == 25.0
  {
    MatchedOneFacts(r1);
    MissedThreeFacts(r2);
    SumOfTwo(r1, r2);
    MacroMicroDiffer();
  }

  /** The sums of a perfect review and a review with three misses and three extras. */
  lemma SumOfTwo(r1: ReviewResult, r2: ReviewResult)
    requires r1.metrics.recall == 1.0 && r1.metrics.precision == 1.0 && r1.metrics.f1 == 1.0
    requires r1.metrics.tp == 1 && r1.metrics.fn == 0 && r1.metrics.fp == 0
    requires r2.metrics.recall == 0.0 && r2.metrics.precision == 0.0 && r2.metrics.f1 == 0.0
    requires r2.metrics.tp == 0 && r2.metrics.fn == 3 && r2.metrics.fp == 3
    ensures Accumulate([r1, r2]) == Totals(1.0, 1.0, 1.0, 1, 3, 3)
  {
    assert [r1][..0] == [];
    assert Accumulate([r1]) == Totals(1.0, 1.0, 1.0, 1, 0, 0);
    assert [r1, r2][..1] == [r1];
  }

  /** Every summary the audit computes from its own comparisons reports percentages. */
  lemma SummaryBounded(results: seq<ReviewResult>)
    requires forall r :: r in results ==> r.metrics == CalculateMetrics(r.reference, r.candidate)
    ensures var s := Summarize(Accumulate(results), |results|);
      && 0.0 <= s.macroRecall <= 100.0 && 0.0 <= s.macroPrecision <= 100.0 && 0.0 <= s.macroF1 <= 100.0
      && 0.0 <= s.microRecall <= 100.0 && 0.0 <= s.microPrecision <= 100.0 && 0.0 <= s.microF1 <= 100.0
  {
    forall r | r in results
      ensures 0.0 <= r.metrics.recall <= 1.0 && 0.0 <= r.metrics.precision <= 1.0 && 0.0 <= r.metrics.f1 <= 1.0
    {
      MetricsBounded(r.reference, r.candidate);
    }
    AccumulateBounded(results);
    MacroBounded(Accumulate(results), |results|);
    MicroBounded(Accumulate(results), |results|);
  }

  /** Repeated reference labels all count as misses when the candidate has none:
      the degenerate branch counts the list, not the set. */
  lemma DuplicatesCountAsMisses(cell: string)
    requires cell == "Comfort" + "," + ("comfort" + "," + " ")
    ensures CalculateMetrics(ParseAspectCell(cell), []).fn == 2
  {
    DuplicateLabelsKept(cell);
  }

  /** The sort key of the worst-case listing: the F1 read back from the row. */
  function Score(r: ReviewResult): real
  {
    r.roundedF1
  }

  predicate ScoreAscending(s: seq<ReviewResult>)
  {
    forall i, j :: 0 <= i < j < |s| ==> Score(s[i]) <= Score(s[j])
  }

  /** Places `x` before the first element that does not score lower. */
  function InsertByScore(x: ReviewResult, s: seq<ReviewResult>): (r: seq<ReviewResult>)
    requires ScoreAscending(s)
    ensures |r| == |s| + 1
    ensures r[0] == x || (s != [] && r[0] == s[0])
    ensures ScoreAscending(r)
  {
    if s == [] then [x]
    else if Score(x) <= Score(s[0]) then
      [x] + s
    else
      var t := InsertByScore(x, s[1..]);
      assert Score(s[0]) <= Score(t[0]);
      AscendingCons(s[0], t);
      [s[0]] + t
  }

  /** Inserting adds `x` and keeps every element of `s`, each as often as before. */
  lemma {:induction false} InsertByScorePermutes(x: ReviewResult, s: seq<ReviewResult>)
    requires ScoreAscending(s)
    ensures multiset(InsertByScore(x, s)) == multiset(s) + multiset{x}
  {
    if s != [] {
      assert s == [s[0]] + s[1..];
      if Score(x) > Score(s[0]) {
        InsertByScorePermutes(x, s[1..]);
      }
    }
  }

  /** Putting an element no higher than the head in front keeps a listing ascending. */
  lemma AscendingCons(a: ReviewResult, t: seq<ReviewResult>)
    requires t != [] && ScoreAscending(t) && Score(a) <= Score(t[0])
    ensures ScoreAscending([a] + t)
  {
    var u := [a] + t;
    forall i, j | 0 <= i < j < |u| ensures Score(u[i]) <= Score(u[j]) {
      if i == 0 {
        assert u[j] == t[j - 1];
        assert Score(t[0]) <= Score(t[j - 1]);
      } else {
        assert u[i] == t[i - 1] && u[j] == t[j - 1];
      }
    }
  }

  /** The results ordered by score, ties in their original order. */
  function SortByScore(s: seq<ReviewResult>): (r: seq<ReviewResult>)
    ensures ScoreAscending(r)
    ensures multiset(r) == multiset(s)
  {
    if s == [] then []
    else
      assert s == [s[0]] + s[1..];
      InsertByScorePermutes(s[0], SortByScore(s[1..]));
      InsertByScore(s[0], SortByScore(s[1..]))
  }

  /** The results that score below `LowScore`, in order. */
  function LowScoring(s: seq<ReviewResult>): (r: seq<ReviewResult>)
    ensures |r| <= |s|
    ensures forall x :: x in r ==> Score(x) < LowScore
  {
    if s == [] then []
    else
      var last := s[|s| - 1];
      LowScoring(s[..|s| - 1]) + (if Score(last) < LowScore then [last] else [])
  }

  /** When every result scores low, the filter keeps them all. */
  lemma {:induction false} AllLowKept(s: seq<ReviewResult>)
    requires forall j :: 0 <= j < |s| ==> Score(s[j]) < LowScore
    ensures LowScoring(s) == s
  {
    if s != [] {
      var front := s[..|s| - 1];
      assert forall j :: 0 <= j < |front| ==> front[j] == s[j];
      AllLowKept(front);
      assert s == front + [s[|s| - 1]];
    }
  }

  /** Dropping the last result of an ascending listing keeps it ascending. */
  lemma AscendingFront(s: seq<ReviewResult>)
    requires s != [] && ScoreAscending(s)
    ensures ScoreAscending(s[..|s| - 1])
  {
    var front := s[..|s| - 1];
    assert forall j :: 0 <= j < |front| ==> front[j] == s[j];
  }

  /** In an ascending listing whose last result scores low, every result does. */
  lemma LowLastAllLow(s: seq<ReviewResult>)
    requires s != [] && ScoreAscending(s) && Score(s[|s| - 1]) < LowScore
    ensures LowScoring(s) == s
  {
    forall j | 0 <= j < |s| ensures Score(s[j]) < LowScore {
      if j < |s| - 1 {
        assert Score(s[j]) <= Score(s[|s| - 1]);
      }
    }
    AllLowKept(s);
  }

  /** In a listing ordered by score the low scorers are exactly a prefix. */
  lemma {:induction false} LowScoringPrefix(s: seq<ReviewResult>)
    requires ScoreAscending(s)
    ensures LowScoring(s) == s[..|LowScoring(s)|]
    ensures forall j :: 0 <= j < |s| && Score(s[j]) < LowScore ==> j < |LowScoring(s)|
  {
    if s != [] {
      if Score(s[|s| - 1]) < LowScore {
        LowLastAllLow(s);
        assert s[..|s|] == s;
      } else {
        var front := s[..|s| - 1];
        AscendingFront(s);
        LowScoringPrefix(front);
        assert LowScoring(s) == LowScoring(front);
        var k := |LowScoring(front)|;
        assert s[..k] == front[..k];
        assert forall j :: 0 <= j < |front| ==> front[j] == s[j];
      }
    }
  }

  function FirstAtMost(s: seq<ReviewResult>, n: nat): seq<ReviewResult>
  {
    if |s| <= n then s else s[..n]
  }

  /** The reviews the red verdict lists. */
  function WorstOf(results: seq<ReviewResult>): seq<ReviewResult>
  {
    FirstAtMost(LowScoring(SortByScore(results)), MaxListed)
  }

  lemma SortedSameMembers(results: seq<ReviewResult>)
    ensures forall r :: r in results <==> r in SortByScore(results)
  {
    var sorted := SortByScore(results);
    forall r ensures r in results <==> r in sorted {
      assert r in results <==> r in multiset(results);
      assert r in sorted <==> r in multiset(sorted);
    }
  }

  /** The listing is the first `min(10, k)` entries of the sorted results, where
      the first `k` are exactly the low scorers. */
  lemma WorstIsPrefix(results: seq<ReviewResult>)
    ensures var sorted := SortByScore(results);
      var k := |LowScoring(sorted)|;
      var w := WorstOf(results);
      && k <= |sorted|
      && |w| == (if k <= MaxListed then k else MaxListed)
      && w == sorted[..|w|]
      && (forall j :: 0 <= j < k ==> Score(sorted[j]) < LowScore)
      && (forall j :: 0 <= j < |sorted| && Score(sorted[j]) < LowScore ==> j < k)
  {
    var sorted := SortByScore(results);
    var low := LowScoring(sorted);
    LowScoringPrefix(sorted);
    forall j | 0 <= j < |low| ensures Score(sorted[j]) < LowScore {
      assert low[j] == sorted[j] && low[j] in low;
    }
  }

  /** The listing holds at most ten reviews, in ascending order of score, all
      from the results and all scoring below one half. */
  lemma WorstListing(results: seq<ReviewResult>)
    ensures var w := WorstOf(results);
      && |w| <= MaxListed
      && ScoreAscending(w)
      && (forall r :: r in w ==> r in results && Score(r) < LowScore)
  {
    var sorted := SortByScore(results);
    var w := WorstOf(results);
    SortedSameMembers(results);
    WorstIsPrefix(results);
    forall r | r in w ensures r in sorted && Score(r) < LowScore {
      var i :| 0 <= i < |w| && w[i] == r;
      assert sorted[i] == r;
    }
    forall i, j | 0 <= i < j < |w| ensures Score(w[i]) <= Score(w[j]) {
      assert w[i] == sorted[i] && w[j] == sorted[j];
    }
  }

  /** A low scorer missing from the listing scores at least as high as every
      listed review, and the listing is full: when fewer than ten reviews are
      listed, every low scorer is. */
  lemma WorstAreTheLowest(results: seq<ReviewResult>, r: ReviewResult)
    requires r in results && Score(r) < LowScore && r !in WorstOf(results)
    ensures |WorstOf(results)| == MaxListed
    ensures forall x :: x in WorstOf(results) ==> Score(x) <= Score(r)
  {
    var sorted := SortByScore(results);
    var w := WorstOf(results);
    SortedSameMembers(results);
    WorstIsPrefix(results);
    var j :| 0 <= j < |sorted| && sorted[j] == r;
    assert j >= |w|;
    forall x | x in w ensures Score(x) <= Score(r) {
      var i :| 0 <= i < |w| && w[i] == x;
      assert sorted[i] == x;
    }
  }

  /** Walks the results ordered by score and collects the first ten low scorers. */
  method ListWorst(sorted: seq<ReviewResult>) returns (worst: seq<ReviewResult>)
    ensures worst == FirstAtMost(LowScoring(sorted), MaxListed)
  {
    worst := [];
    var count := 0;
    for i := 0 to |sorted|
      invariant worst == FirstAtMost(LowScoring(sorted[..i]), MaxListed)
      invariant count == |worst|
    {
      var r := sorted[i];
      assert sorted[..i + 1] == sorted[..i] + [r];
      assert sorted[..i + 1][..i] == sorted[..i];
      ghost var low := LowScoring(sorted[..i]);
      if Score(r) < LowScore && count < MaxListed {
        worst := worst + [r];
        count := count + 1;
      } else if Score(r) < LowScore {
        assert (low + [r])[..MaxListed] == low[..MaxListed];
      }
    }
    assert sorted[..|sorted|] == sorted;
  }

  /** The verdict: green when the micro-averaged F1 reaches the threshold,
      otherwise red with the worst reviews. */
  function Decide(s: Summary, results: seq<ReviewResult>): Decision
  {
    if s.microF1 >= GreenThreshold then Green else Red(WorstOf(results))
  }

  /** The verdict depends on the micro-averaged F1 alone: the macro averages and
      the other figures play no part in it. */
  lemma DecisionOnMicroF1(s: Summary, t: Summary, results: seq<ReviewResult>)
    requires s.microF1 == t.microF1
    ensures Decide(s, results) == Decide(t, results)
    ensures Decide(s, results).Green? <==> s.microF1 >= 80.0
  {
  }

  /** `sorted` over a set of ids: the ids in ascending order, each once. */
  method SortedIds(ids: set<string>) returns (r: seq<string>)
    ensures StrictlySorted(r)
    ensures forall y :: y in r <==> y in ids
  {
    r := [];
    var rest := ids;
    while rest != {}
      invariant StrictlySorted(r)
      invariant forall y :: y in ids <==> y in r || y in rest
      decreases |rest|
    {
      var x :| x in rest;
      r := Insert(x, r);
      rest := rest - {x};
    }
  }

  lemma EvaluateAllExtend(ids: seq<string>, i: nat, reference: map<string, seq<string>>,
                          candidate: map<string, seq<string>>)
    requires i < |ids|
    ensures EvaluateAll(ids[..i + 1], reference, candidate) ==
      EvaluateAll(ids[..i], reference, candidate) + [Evaluate(ids[i], reference, candidate)]
  {
  }

  lemma AccumulateExtend(results: seq<ReviewResult>, x: ReviewResult)
    ensures var t := Accumulate(results);
      Accumulate(results + [x]) ==
        Totals(t.recall + x.metrics.recall, t.precision + x.metrics.precision, t.f1 + x.metrics.f1,
               t.tp + x.metrics.tp, t.fn + x.metrics.fn, t.fp + x.metrics.fp)
  {
    assert (results + [x])[..|results|] == results;
  }

  /** Compares every listed review in turn, keeping the six running sums. */
  method CompareReviews(ids: seq<string>, reference: map<string, seq<string>>,
                        candidate: map<string, seq<string>>)
      returns (results: seq<ReviewResult>, totals: Totals)
    ensures results == EvaluateAll(ids, reference, candidate)
    ensures totals == Accumulate(results)
  {
    results := [];
    var totalRecall, totalPrecision, totalF1 := 0.0, 0.0, 0.0;
    var totalTp: nat, totalFn: nat, totalFp: nat := 0, 0, 0;
    for i := 0 to |ids|
      invariant results == EvaluateAll(ids[..i], reference, candidate)
      invariant Accumulate(results).recall == totalRecall
      invariant Accumulate(results).precision == totalPrecision
      invariant Accumulate(results).f1 == totalF1
      invariant Accumulate(results).tp == totalTp
      invariant Accumulate(results).fn == totalFn
      invariant Accumulate(results).fp == totalFp
    {
      var result := Evaluate(ids[i], reference, candidate);
      var m := result.metrics;
      EvaluateAllExtend(ids, i, reference, candidate);
      AccumulateExtend(results, result);
      results := results + [result];
      totalRecall := totalRecall + m.recall;
      totalPrecision := totalPrecision + m.precision;
      totalF1 := totalF1 + m.f1;
      totalTp := totalTp + m.tp;
      totalFn := totalFn + m.fn;
      totalFp := totalFp + m.fp;
    }
    assert ids[..|ids|] == ids;
    totals := Totals(totalRecall, totalPrecision, totalF1, totalTp, totalFn, totalFp);
  }

  /** Runs the audit over the reference rows and the candidate file's lines:
      every review either side mentions is compared, in ascending id order,
      the sums and the summary are those of these comparisons, and the verdict
      follows from the summary. */
  method RunAudit(rows: seq<ReferenceRow>, lines: seq<string>)
      returns (results: seq<ReviewResult>, summary: Summary, decision: Decision)
    ensures var reference := LastWins(ParseRows(rows));
      var candidate := CandidateMap(ParseEach(DataLines(lines)));
      var ids := ReviewIds(results);
      && StrictlySorted(ids)
      && (forall id :: id in ids <==> id in reference || id in candidate)
      && results == EvaluateAll(ids, reference, candidate)
    ensures summary == Summarize(Accumulate(results), |results|)
    ensures decision == Decide(summary, results)
  {
    var reference := LoadReference(rows);
    var candidate := LoadCandidate(lines);
    var ids := SortedIds(reference.Keys + candidate.Keys);
    var totals;
    results, totals := CompareReviews(ids, reference, candidate);
    assert ReviewIds(results) == ids;
    summary := Summarize(totals, |results|);
    if summary.microF1 >= GreenThreshold {
      decision := Green;
    } else {
      var sorted := SortByScore(results);
      var worst := ListWorst(sorted);
      decision := Red(worst);
    }
  }
}
