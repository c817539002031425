/** The per-review comparison of `calculate_metrics`: confusion counts between
    the reference labels and the candidate labels of one review, recall,
    precision and F1, and the matched / missed / extra listing. Ratios are
    exact rationals (`real`). */
module Metrics {
  import opened Text
  import opened Ordering

  /** What the detail text is built from: one of the three degenerate cases, or
      the sorted matched, missed and extra labels (lower-cased). */
  datatype Details =
    | BothEmpty
    | NoReference
    | NoCandidate
    | Compared(matched: seq<string>, missed: seq<string>, extra: seq<string>)

  datatype MetricResult = MetricResult(
    recall: real, precision: real, f1: real,
    tp: nat, fn: nat, fp: nat,
    details: Details)

  /** The labels of a list, lower-cased, in list order. */
  function LowerAll(xs: seq<string>): seq<string>
  {
    seq(|xs|, i requires 0 <= i < |xs| => Lower(xs[i]))
  }

  /** `set(a.lower() for a in xs)`. */
  function LabelSet(xs: seq<string>): set<string>
  {
    set x | x in xs :: Lower(x)
  }

  lemma LabelSetMembers(xs: seq<string>)
    ensures forall y :: y in LabelSet(xs) <==> y in LowerAll(xs)
  {
    forall y | y in LowerAll(xs) ensures y in LabelSet(xs) {
      var i :| 0 <= i < |xs| && LowerAll(xs)[i] == y;
      assert xs[i] in xs;
    }
    forall y | y in LabelSet(xs) ensures y in LowerAll(xs) {
      var x :| x in xs && Lower(x) == y;
      var i :| 0 <= i < |xs| && xs[i] == x;
      assert LowerAll(xs)[i] == y;
    }
  }

  lemma LabelSetNonEmpty(xs: seq<string>)
    requires xs != []
    ensures |LabelSet(xs)| > 0
  {
    assert Lower(xs[0]) in LabelSet(xs);
  }

  /** The harmonic mean as `calculate_metrics` and `run_audit` compute it:
      0 when both values are 0. */
  function HarmonicMean(a: real, b: real): real
  {
    if a + b > 0.0 then 2.0 * (a * b) / (a + b) else 0.0
  }

  /** Compares one review's reference labels with its candidate labels. The
      degenerate cases come first, in the order `calculate_metrics` tests
      them; otherwise the two lists are compared as sets of lower-cased
      labels, and the true positives plus the misses make up the reference set
      while the true positives plus the extras make up the candidate set. */
  function CalculateMetrics(reference: seq<string>, candidate: seq<string>): (m: MetricResult)
    ensures reference != [] && candidate != [] ==>
      && m.tp + m.fn == |LabelSet(reference)|
      && m.tp + m.fp == |LabelSet(candidate)|
      && m.tp == |LabelSet(reference) * LabelSet(candidate)|
  {
    if reference == [] && candidate == [] then
      MetricResult(1.0, 1.0, 1.0, 0, 0, 0, BothEmpty)
    else if reference == [] then
      MetricResult(0.0, 0.0, 0.0, 0, 0, |candidate|, NoReference)
    else if candidate == [] then
      MetricResult(0.0, 0.0, 0.0, 0, |reference|, 0, NoCandidate)
    else
      CompareSets(LabelSet(reference), LabelSet(candidate),
                  SortedOf(LowerAll(reference)), SortedOf(LowerAll(candidate)))
  }

  /** The non-degenerate branch of `CalculateMetrics`, on the two label sets and
      their ascending listings. */
  function CompareSets(refSet: set<string>, candSet: set<string>,
                       refSorted: seq<string>, candSorted: seq<string>): (m: MetricResult)
    ensures m.tp + m.fn == |refSet| && m.tp + m.fp == |candSet|
    ensures m.tp == |refSet * candSet|
  {
    var matches := refSet * candSet;
    var tp := |matches|;
    var fn := |refSet - candSet|;
    var fp := |candSet - refSet|;
    var recall := if |refSet| > 0 then tp as real / |refSet| as real else 0.0;
    var precision := if |candSet| > 0 then tp as real / |candSet| as real else 0.0;
    assert refSet == matches + (refSet - candSet);
    assert candSet == matches + (candSet - refSet);
    MetricResult(recall, precision, HarmonicMean(recall, precision), tp, fn, fp,
      Compared(Only(refSorted, candSet), Only(refSorted, refSet - candSet), Only(candSorted, candSet - refSet)))
  }

  /** The three degenerate rows of the policy table. */
  lemma DegenerateCases(reference: seq<string>, candidate: seq<string>)
    ensures reference == [] && candidate == [] ==>
      CalculateMetrics(reference, candidate) == MetricResult(1.0, 1.0, 1.0, 0, 0, 0, BothEmpty)
    ensures reference == [] && candidate != [] ==>
      CalculateMetrics(reference, candidate) == MetricResult(0.0, 0.0, 0.0, 0, 0, |candidate|, NoReference)
    ensures reference != [] && candidate == [] ==>
      CalculateMetrics(reference, candidate) == MetricResult(0.0, 0.0, 0.0, 0, |reference|, 0, NoCandidate)
  {
  }

  /** `t / A` and `t / B` have the harmonic mean `2t / (A + B)`. */
  lemma HarmonicOfRatios(a: real, b: real, t: real, bigA: real, bigB: real)
    requires bigA > 0.0 && bigB > 0.0 && t >= 0.0
    requires a * bigA == t && b * bigB == t
    ensures HarmonicMean(a, b) == 2.0 * t / (bigA + bigB)
  {
    if t == 0.0 {
      assert a == 0.0 && b == 0.0;
    } else {
      assert a > 0.0 && b > 0.0;
      var s := a + b;
      assert s * bigA * bigB == t * (bigA + bigB);
      assert a * b * bigA * bigB == t * t;
      calc {
        HarmonicMean(a, b);
        2.0 * (a * b) / s;
        { assert 2.0 * (a * b) * bigA * bigB == 2.0 * t * t; }
        2.0 * t * t / (s * bigA * bigB);
        2.0 * t * t / (t * (bigA + bigB));
        2.0 * t / (bigA + bigB);
      }
    }
  }

  lemma CompareSetsClosedForm(refSet: set<string>, candSet: set<string>,
                               refSorted: seq<string>, candSorted: seq<string>)
    requires |refSet| > 0 && |candSet| > 0
    ensures var m := CompareSets(refSet, candSet, refSorted, candSorted);
      && m.recall == m.tp as real / |refSet| as real
      && m.precision == m.tp as real / |candSet| as real
      && m.f1 == 2.0 * m.tp as real / (|refSet| + |candSet|) as real
  {
    var m := CompareSets(refSet, candSet, refSorted, candSorted);
    HarmonicOfRatios(m.recall, m.precision, m.tp as real, |refSet| as real, |candSet| as real);
  }

  /** Outside the degenerate cases recall is `tp / |R|`, precision is `tp / |C|`
      and F1 is `2 tp / (|R| + |C|)`, where R and C are the lower-cased label
      sets; neither ratio divides by zero. */
  lemma F1ClosedForm(reference: seq<string>, candidate: seq<string>)
    requires reference != [] && candidate != []
    ensures var m := CalculateMetrics(reference, candidate);
      var bigR := |LabelSet(reference)|;
      var bigC := |LabelSet(candidate)|;
      && bigR > 0 && bigC > 0
      && m.recall == m.tp as real / bigR as real
      && m.precision == m.tp as real / bigC as real
      && m.f1 == 2.0 * m.tp as real / (bigR + bigC) as real
  {
    LabelSetNonEmpty(reference);
    LabelSetNonEmpty(candidate);
    CompareSetsClosedForm(LabelSet(reference), LabelSet(candidate),
                          SortedOf(LowerAll(reference)), SortedOf(LowerAll(candidate)));
  }

  /** Recall, precision and F1 always lie between 0 and 1. */
  lemma MetricsBounded(reference: seq<string>, candidate: seq<string>)
    ensures var m := CalculateMetrics(reference, candidate);
      && 0.0 <= m.recall <= 1.0
      && 0.0 <= m.precision <= 1.0
      && 0.0 <= m.f1 <= 1.0
  {
    if reference != [] && candidate != [] {
      F1ClosedForm(reference, candidate);
      var m := CalculateMetrics(reference, candidate);
      var bigR := |LabelSet(reference)|;
      var bigC := |LabelSet(candidate)|;
      assert m.tp <= bigR && m.tp <= bigC;
      RatioAtMostOne(m.tp, bigR);
      RatioAtMostOne(m.tp, bigC);
      RatioAtMostOne(2 * m.tp, bigR + bigC);
    }
  }

  lemma RatioAtMostOne(a: nat, b: nat)
    requires 0 < b && a <= b
    ensures 0.0 <= a as real / b as real <= 1.0
  {
  }

  /** Outside the degenerate cases F1 is zero exactly when nothing matched. */
  lemma F1ZeroIffNoMatch(reference: seq<string>, candidate: seq<string>)
    requires reference != [] && candidate != []
    ensures var m := CalculateMetrics(reference, candidate);
      m.f1 == 0.0 <==> m.tp == 0
  {
    F1ClosedForm(reference, candidate);
  }

  /** Every list agrees with itself perfectly, the empty one through the
      both-empty row. */
  lemma Reflexive(labels: seq<string>)
    ensures var m := CalculateMetrics(labels, labels);
      && m.recall == 1.0 && m.precision == 1.0 && m.f1 == 1.0
      && m.fn == 0 && m.fp == 0 && m.tp == |LabelSet(labels)|
  {
    if labels == [] {
      assert LabelSet(labels) == {};
      return;
    }
    F1ClosedForm(labels, labels);
    var s := LabelSet(labels);
    assert s * s == s;
    var n := |s| as real;
    assert CalculateMetrics(labels, labels).tp as real == n;
    assert n / n == 1.0 && 2.0 * n / (n + n) == 1.0;
  }

  lemma CompareSetsListing(refSet: set<string>, candSet: set<string>,
                           refSorted: seq<string>, candSorted: seq<string>)
    requires StrictlySorted(refSorted) && StrictlySorted(candSorted)
    requires forall y :: y in refSorted <==> y in refSet
    requires forall y :: y in candSorted <==> y in candSet
    ensures var m := CompareSets(refSet, candSet, refSorted, candSorted);
      && m.details.Compared?
      && StrictlySorted(m.details.matched)
      && StrictlySorted(m.details.missed)
      && StrictlySorted(m.details.extra)
      && (forall y :: y in m.details.matched <==> y in refSet * candSet)
      && (forall y :: y in m.details.missed <==> y in refSet - candSet)
      && (forall y :: y in m.details.extra <==> y in candSet - refSet)
      && |m.details.matched| == m.tp
      && |m.details.missed| == m.fn
      && |m.details.extra| == m.fp
  {
    var d := CompareSets(refSet, candSet, refSorted, candSorted).details;
    SortedCardinality(d.matched);
    SortedCardinality(d.missed);
    SortedCardinality(d.extra);
    assert (set y | y in d.matched) == refSet * candSet;
    assert (set y | y in d.missed) == refSet - candSet;
    assert (set y | y in d.extra) == candSet - refSet;
  }

  /** Outside the degenerate cases the listing holds the matched, missed and
      extra labels, each group strictly ascending and as long as its count. */
  lemma DetailsListing(reference: seq<string>, candidate: seq<string>)
    requires reference != [] && candidate != []
    ensures var m := CalculateMetrics(reference, candidate);
      var refSet := LabelSet(reference);
      var candSet := LabelSet(candidate);
      && m.details.Compared?
      && StrictlySorted(m.details.matched)
      && StrictlySorted(m.details.missed)
      && StrictlySorted(m.details.extra)
      && (forall y :: y in m.details.matched <==> y in refSet * candSet)
      && (forall y :: y in m.details.missed <==> y in refSet - candSet)
      && (forall y :: y in m.details.extra <==> y in candSet - refSet)
      && |m.details.matched| == m.tp
      && |m.details.missed| == m.fn
      && |m.details.extra| == m.fp
  {
    LabelSetMembers(reference);
    LabelSetMembers(candidate);
    CompareSetsListing(LabelSet(reference), LabelSet(candidate),
                       SortedOf(LowerAll(reference)), SortedOf(LowerAll(candidate)));
  }

  lemma HalfMatchLowered()
    ensures Lower("Comfort") == "comfort"
    ensures Lower("Durability") == "durability"
    ensures Lower("Value/Price") == "value/price"
  {
  }

  lemma HalfMatchLabelSets(reference: seq<string>, candidate: seq<string>)
    requires reference == ["Comfort", "Durability"] && candidate == ["Comfort", "Value/Price"]
    ensures LabelSet(reference) == {"comfort", "durability"}
    ensures LabelSet(candidate) == {"comfort", "value/price"}
  {
    HalfMatchLowered();
    LabelSetMembers(reference);
    LabelSetMembers(candidate);
  }

  lemma HalfMatchCounts()
    ensures |{"comfort", "durability"}| == 2 && |{"comfort", "value/price"}| == 2
    ensures {"comfort", "durability"} * {"comfort", "value/price"} == {"comfort"}
  {
    assert "comfort" != "durability" && "comfort" != "value/price" && "durability" != "value/price";
  }

  /** One label shared and one on each side only: every score is one half. */
  lemma HalfMatch(reference: seq<string>, candidate: seq<string>)
    requires reference == ["Comfort", "Durability"] && candidate == ["Comfort", "Value/Price"]
    ensures var m := CalculateMetrics(reference, candidate);
      && m.tp == 1 && m.fn == 1 && m.fp == 1
      && m.recall == 0.5 && m.precision == 0.5 && m.f1 == 0.5
  {
    HalfMatchLabelSets(reference, candidate);
    HalfMatchCounts();
    OneOfTwoEach(reference, candidate);
  }

  lemma OneOfTwoEach(reference: seq<string>, candidate: seq<string>)
    requires |LabelSet(reference)| == 2 && |LabelSet(candidate)| == 2
    requires |LabelSet(reference) * LabelSet(candidate)| == 1
    ensures var m := CalculateMetrics(reference, candidate);
      && m.tp == 1 && m.fn == 1 && m.fp == 1
      && m.recall == 0.5 && m.precision == 0.5 && m.f1 == 0.5
  {
    assert reference != [] && candidate != [];
    F1ClosedForm(reference, candidate);
  }

  /** The detail text of a comparison, as the audit report shows it. */
  function DetailText(d: Details): string
  {
    match d
    case BothEmpty => "Both empty"
    case NoReference => "Rita has no aspects"
    case NoCandidate => "Gemini found no aspects"
    case Compared(matched, missed, extra) =>
      var groups :=
        (if |matched| > 0 then ["Matched: " + Join(matched, ", ")] else [])
        + (if |missed| > 0 then ["Missed: " + Join(missed, ", ")] else [])
        + (if |extra| > 0 then ["Extra: " + Join(extra, ", ")] else []);
      if groups == [] then "Perfect match" else Join(groups, " | ")
  }

  lemma JoinStartsWithFirst(parts: seq<string>, sep: string)
    requires parts != []
    ensures parts[0] <= Join(parts, sep)
  {
  }

  /** "Perfect match" is never produced: a non-empty reference list always yields
      a matched or a missed group. */
  lemma PerfectMatchUnreachable(reference: seq<string>, candidate: seq<string>)
    ensures DetailText(CalculateMetrics(reference, candidate).details) != "Perfect match"
  {
    var m := CalculateMetrics(reference, candidate);
    if reference != [] && candidate != [] {
      DetailsListing(reference, candidate);
      LabelSetNonEmpty(reference);
      var d := m.details;
      var groups :=
        (if |d.matched| > 0 then ["Matched: " + Join(d.matched, ", ")] else [])
        + (if |d.missed| > 0 then ["Missed: " + Join(d.missed, ", ")] else [])
        + (if |d.extra| > 0 then ["Extra: " + Join(d.extra, ", ")] else []);
      assert groups != [] && groups[0][0] == 'M';
      JoinStartsWithFirst(groups, " | ");
      assert DetailText(d) == Join(groups, " | ");
      assert DetailText(d)[0] == 'M';
    }
  }
}
