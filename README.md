# RRE all-aspects accuracy audit, modelled in Dafny

The audit script `Data/rre_accuracy_audit.py` compares two sets of aspect
labels for the same product reviews:

- a reference labelling, by a human annotator (Rita);
- a candidate labelling, by a language model (Gemini).

The reference file has one CSV row per review, with a comma-separated cell of
aspects. The candidate file has one line per extracted aspect, written with
stray quotes around it. The script:

1. normalises aspect names through a fixed synonym table;
2. loads both files into maps from review id to an aspect list;
3. compares every review either side mentions, as sets of lower-cased labels,
   giving true positives, misses and extras;
4. adds up the per-review recall, precision and F1, and derives macro averages
   (the mean of per-review scores) and micro averages (from the summed counts);
5. decides: green when the micro-averaged F1 is at least 80 %, otherwise red,
   listing up to ten reviews whose rounded F1 is below 0.50, lowest first.

The model has six modules, one per concern of the script:

| file | module | models |
|---|---|---|
| `text.dfy` | `Text` | the `str` operations the script relies on: `strip()`, `strip('"')`, `lower()`, `split(',')`, `join` |
| `ordering.dfy` | `Ordering` | Python's string order and the duplicate-free ascending listings that `sorted(set)` yields |
| `normalizer.dfy` | `Normalizer` | `normalize_aspect_name` |
| `metrics.dfy` | `Metrics` | `calculate_metrics` |
| `loaders.dfy` | `Loaders` | `load_rita_aspects` and `load_gemini_aspects` |
| `audit.dfy` | `Audit` | `run_audit`: the comparison loop, the averages, the verdict and the worst-case listing |

How the code is modelled:

- Pure code (the normaliser, the metrics, the list comprehensions) is written
  as functions and lemmas.
- Each of the script's loops is written as a method with a `while` or `for`
  loop:
  - the two loader loops that fill a `defaultdict`;
  - the comparison loop that keeps six running sums;
  - the loop that collects the worst reviews under a counter.
- Each such method is proved equal to a recursive specification function. The
  properties are proved about that function.
- The script's floats are exact rationals (`real`). Its strings are `seq<char>`.

## Model

| member | source | states |
|---|---|---|
| Normalizer.NormalizeAspect | Data/rre_accuracy_audit.py:14-38 | Carries no contract of its own. It is the normaliser: trim, then look up the lower-cased form in the table, else keep the trimmed label. Its properties are stated by the Normalizer lemmas below: NormalizeResult, NormalizeIdempotent, NormalizeCaseInsensitive, NormalizeUnmapped and NormalizeEmpty. |
| Normalizer.NormalizeResult | Data/rre_accuracy_audit.py:14-38 | The result is a canonical name from the table, or the trimmed label. When the trimmed, lower-cased label is a key, the result is that key's entry. |
| Normalizer.CanonicalNamesAreFixed | Data/rre_accuracy_audit.py:19-32 | Every canonical name in the table is non-empty and already trimmed, and the table maps its lower-cased form back to it. |
| Normalizer.NormalizeIdempotent | Data/rre_accuracy_audit.py:14-38 | Normalising a normalised name changes nothing. |
| Normalizer.NormalizeCaseInsensitive | Data/rre_accuracy_audit.py:34-36 | Two labels with the same trimmed, lower-cased form that is in the table normalise to the same canonical name. |
| Normalizer.NormalizeUnmapped | Data/rre_accuracy_audit.py:38 | A label without a table entry comes back trimmed, its case kept. |
| Normalizer.NormalizeEmpty | Data/rre_accuracy_audit.py:14-38 | The result is empty exactly when the label is blank. |
| Normalizer.NormalizeSpacingVariant | Data/rre_accuracy_audit.py:20-21 | "Material/ Quality" and "material/quality" both become "Material/Quality". |
| Normalizer.NormalizeUnknownName | Data/rre_accuracy_audit.py:16 | An unknown name keeps its case and loses only its padding: "  Odor " becomes "Odor". |
| Text.Strip | Data/rre_accuracy_audit.py:79 | Neither end of the result is a character of the stripped set. Text.StripRemovesOnlyEnds states the rest of `strip(chars)`. |
| Text.StripRemovesOnlyEnds | Data/rre_accuracy_audit.py:79 | The result is a middle stretch `s[i..j]` of the input. Every character before `i` and from `j` on belongs to the stripped set, so nothing else is removed and the middle is kept as it is. |
| Text.StripTwiceRemovesOnlyEnds | Data/rre_accuracy_audit.py:79 | `strip()` followed by `strip('"')` also leaves a middle stretch of the input. Only characters from either set are removed, and only around it. |
| Text.StripIdempotent | Data/rre_accuracy_audit.py:79 | Stripping twice gives what stripping once gives. |
| Text.TrimIdempotent | Data/rre_accuracy_audit.py:16 | `strip()` twice is `strip()` once. |
| Text.LowerIdempotent | Data/rre_accuracy_audit.py:34 | `lower()` twice is `lower()` once. |
| Text.SplitComma | Data/rre_accuracy_audit.py:56 | `split(',')` always yields at least one piece, and no piece holds a comma. |
| Text.SplitCommaJoin | Data/rre_accuracy_audit.py:82 | Joining the pieces of `split(',')` with commas gives back the original string. |
| Text.SplitCommaCount | Data/rre_accuracy_audit.py:82-85 | There are fewer than two pieces exactly when the string has no comma. |
| Text.SplitJoin | Data/rre_accuracy_audit.py:56 | Comma-free pieces joined with commas split back into exactly those pieces. |
| Text.SplitFirstTwo | Data/rre_accuracy_audit.py:82-88 | The first two pieces of `a,b,rest` are `a` and `b`, for comma-free `a` and `b`. |
| Ordering.StrLessTotal | Data/rre_accuracy_audit.py:180 | Any two different strings are ordered one way or the other. |
| Ordering.StrLessTransitive | Data/rre_accuracy_audit.py:180 | The string order is transitive. |
| Ordering.Insert | Data/rre_accuracy_audit.py:180 | Inserting keeps a listing strictly ascending. The result holds exactly the new string and the old elements. |
| Ordering.SortedOf | Data/rre_accuracy_audit.py:137-143 | `sorted(set(xs))` is strictly ascending and holds exactly the elements of `xs`. |
| Ordering.Only | Data/rre_accuracy_audit.py:137-143 | Filtering keeps exactly the elements in the given set, and keeps a strictly ascending listing strictly ascending. |
| Ordering.SortedCardinality | Data/rre_accuracy_audit.py:137-143 | A strictly ascending listing has as many entries as its set has elements. |
| Ordering.SortedUnique | Data/rre_accuracy_audit.py:180 | Two strictly ascending listings of the same elements are equal, so `sorted` has only one possible result. |
| Metrics.CalculateMetrics | Data/rre_accuracy_audit.py:98-147 | When neither list is empty: tp + fn is the size of the reference set, tp + fp is the size of the candidate set, and tp is the size of their intersection. |
| Metrics.CompareSets | Data/rre_accuracy_audit.py:114-123 | The same three count identities, on the two label sets. |
| Metrics.DetailText | Data/rre_accuracy_audit.py:134-145 | Carries no contract of its own. It renders the details the way `calculate_metrics` writes them. Metrics.PerfectMatchUnreachable shows that its "Perfect match" branch is never reached. |
| Metrics.LabelSetMembers | Data/rre_accuracy_audit.py:115-116 | The label set holds exactly the lower-cased labels of the list. |
| Metrics.DegenerateCases | Data/rre_accuracy_audit.py:105-112 | Both lists empty: the scores are 1, 1, 1 with no counts. No reference labels: the scores are 0 with fp = the candidate list's length. No candidate labels: the scores are 0 with fn = the reference list's length. The cases are checked in that order. |
| Metrics.HarmonicOfRatios | Data/rre_accuracy_audit.py:129-132 | The harmonic mean of `t/A` and `t/B` is `2t/(A+B)`. |
| Metrics.F1ClosedForm | Data/rre_accuracy_audit.py:121-132 | Outside the degenerate cases, both label sets R and C are non-empty, recall = tp / size(R), precision = tp / size(C) and F1 = 2tp / (size(R) + size(C)). |
| Metrics.MetricsBounded | Data/rre_accuracy_audit.py:98-147 | Recall, precision and F1 always lie in [0, 1]. |
| Metrics.F1ZeroIffNoMatch | Data/rre_accuracy_audit.py:126-132 | With two non-empty lists, F1 is 0 exactly when nothing matched. |
| Metrics.Reflexive | Data/rre_accuracy_audit.py:98-147 | A list compared with itself scores 1, 1, 1, with no misses or extras, and tp the size of its set. This includes the empty list. |
| Metrics.DetailsListing | Data/rre_accuracy_audit.py:135-143 | The matched, missed and extra groups are strictly ascending. They hold exactly the intersection and the two differences of the label sets, and their lengths are tp, fn and fp. |
| Metrics.HalfMatch | Data/rre_accuracy_audit.py:115-132 | ["Comfort","Durability"] against ["Comfort","Value/Price"] gives tp = fn = fp = 1 and every score 0.5. |
| Metrics.OneOfTwoEach | Data/rre_accuracy_audit.py:121-132 | Any two two-element label sets sharing one element give tp = fn = fp = 1 and every score 0.5. |
| Metrics.PerfectMatchUnreachable | Data/rre_accuracy_audit.py:145 | The "Perfect match" detail text is never produced. |
| Loaders.NonEmpty | Data/rre_accuracy_audit.py:57 | Keeps exactly the non-empty names, never more than the input. |
| Loaders.NormalizeEachIdempotent | Data/rre_accuracy_audit.py:56 | Normalising a whole list a second time changes nothing, element by element (from Normalizer.NormalizeIdempotent). |
| Loaders.NonEmptyConcat | Data/rre_accuracy_audit.py:57 | The filter works run by run: filtering a concatenation is concatenating the filtered runs. So order and repeated names are kept. |
| Loaders.ParseAspectCell | Data/rre_accuracy_audit.py:53-57 | Carries no contract of its own. It parses one reference cell: split on commas, normalise each piece, drop the blank ones. Its properties are in ParseAspectCellMembers, ParseAspectCellOfLabels, ParseAspectCellOfJoin, ParseBlankCell and DuplicateLabelsKept. |
| Loaders.ParseAspectCellMembers | Data/rre_accuracy_audit.py:53-57 | A cell's labels are non-empty. Each is the normalised form of one of the cell's comma-separated pieces, and every piece that normalises to a non-empty name is among them. |
| Loaders.ParseAspectCellOfJoin | Data/rre_accuracy_audit.py:56-57 | A cell that joins comma-free labels normalising to non-empty names yields those names, in order. |
| Loaders.ParseAspectCellOfLabels | Data/rre_accuracy_audit.py:56-57 | A cell that joins comma-free labels yields exactly the non-empty normalised labels, in order, with repetitions kept. |
| Loaders.DuplicateLabelsKept | Data/rre_accuracy_audit.py:56-57 | The cell "Comfort,comfort, " yields ["Comfort", "Comfort"]: the repeated label is kept twice, and the blank last piece is dropped. |
| Loaders.ParseBlankCell | Data/rre_accuracy_audit.py:56-57 | A blank cell yields no labels. |
| Loaders.LastWinsKeys | Data/rre_accuracy_audit.py:59 | The map's keys are exactly the ids assigned. |
| Loaders.LastWinsValue | Data/rre_accuracy_audit.py:59 | An id's value is the one from the last assignment to it. |
| Loaders.ReferenceMapContents | Data/rre_accuracy_audit.py:40-61 | The reference map has a key for exactly the ids of the rows. An id's value is parsed from the last row carrying it. |
| Loaders.LoadReference | Data/rre_accuracy_audit.py:46-61 | The loop builds exactly the last-row-wins map of the parsed rows. |
| Loaders.StripLine | Data/rre_accuracy_audit.py:79 | Neither end of a stripped line is a quote. Loaders.StripLineRemovesOnlyEnds states what is kept. |
| Loaders.StripLineRemovesOnlyEnds | Data/rre_accuracy_audit.py:79 | The stripped line is a middle stretch of the line. Only white space and quotes are removed, and only at its two ends. |
| Loaders.StripOuterQuotes | Data/rre_accuracy_audit.py:79 | With one quote in front and three at the back, exactly those four quotes are removed and the inside is kept. |
| Loaders.ParseFields | Data/rre_accuracy_audit.py:82-94 | An accepted line held a comma, and its aspect is non-empty. |
| Loaders.ParseCandidateLine | Data/rre_accuracy_audit.py:79-94 | Carries no contract of its own. It parses one candidate line: strip, split, test the field count, trim and normalise the first two fields, and keep the line if the aspect is non-empty. Its properties are in CommaFreeLineSkipped, ParseFirstTwoFields, ParseTwoFields, AspectsForNonEmpty and ExampleQuotedLine. |
| Loaders.CommaFreeLineSkipped | Data/rre_accuracy_audit.py:84-85 | A line with no comma left after stripping is skipped. |
| Loaders.ParseFirstTwoFields | Data/rre_accuracy_audit.py:82-94 | Only the first two fields count. A line with more fields is read exactly as the line of its first two fields would be, whether that line is accepted or skipped. |
| Loaders.ParseTwoFields | Data/rre_accuracy_audit.py:82-94 | A line with exactly two fields is read the same way. It is skipped when the aspect normalises to nothing. |
| Loaders.ExampleQuotedLine | Data/rre_accuracy_audit.py:78-94 | The line `"RRE_001,Fit/Sizing,negative,""evidence"""` is read as review RRE_001 with aspect Sizing/Fit. |
| Loaders.ParseEachConcat | Data/rre_accuracy_audit.py:76-94 | Lines are parsed independently: parsing a concatenation of two runs of lines is concatenating the parsed runs. |
| Loaders.HeaderIgnored | Data/rre_accuracy_audit.py:75-76 | The first line is never parsed: two files that differ only in their first line load to the same map. |
| Loaders.AspectsForConcat | Data/rre_accuracy_audit.py:76-94 | The aspects collected for an id from two runs of lines are those of the first run followed by those of the second. |
| Loaders.AspectsForNonEmpty | Data/rre_accuracy_audit.py:93-94 | Every stored aspect is non-empty. |
| Loaders.CandidateMapContents | Data/rre_accuracy_audit.py:70-96 | An id is in the candidate map exactly when some line gives it an aspect. Its list holds those aspects in file order, with duplicates kept. |
| Loaders.CandidateMapStep | Data/rre_accuracy_audit.py:76-94 | One more line applies just that line to the map. |
| Loaders.AddLine | Data/rre_accuracy_audit.py:79-94 | Processing one line appends its aspect to its id's list, creating the list if needed. A skipped line changes nothing. |
| Loaders.LoadCandidate | Data/rre_accuracy_audit.py:63-96 | The loop over the lines after the header builds exactly the map the parsed lines specify. |
| Audit.RoundedNear | Data/rre_accuracy_audit.py:199 | Rounding to three decimals moves a value by at most 0.0005. |
| Audit.Evaluate | Data/rre_accuracy_audit.py:183-199 | Carries no contract of its own. It compares one id, reading an id missing from a side as [], and rounds the F1 for the sort key. Audit.CompareReviews and Audit.RunAudit tie every row to it. |
| Audit.AccumulateBounded | Data/rre_accuracy_audit.py:203-205 | When every review's scores lie in [0, 1], each summed score lies between 0 and the number of reviews. |
| Audit.MacroBounded | Data/rre_accuracy_audit.py:219-224 | When the sums are bounded by the review count, the macro averages are percentages. All three are 0 when there are no reviews. |
| Audit.Summarize | Data/rre_accuracy_audit.py:219-233 | Carries no contract of its own. It computes the six figures from the sums. Their properties are in MacroBounded, MicroF1ClosedForm, MicroBounded, MicroF1PositiveIff, MacroMicroDiffer and SummaryBounded. |
| Audit.MicroF1ClosedForm | Data/rre_accuracy_audit.py:227-233 | The micro F1 is 200·tp/(2tp+fn+fp) percent, or 0 when all three counts are 0. |
| Audit.MicroBounded | Data/rre_accuracy_audit.py:227-233 | The micro recall, precision and F1 are percentages. |
| Audit.RatioAtMostHundred | Data/rre_accuracy_audit.py:227-228 | A guarded micro ratio lies in [0, 100]. |
| Audit.MicroF1PositiveIff | Data/rre_accuracy_audit.py:227-233 | The micro F1 is positive exactly when some true positive was counted. |
| Audit.MacroMicroDiffer | Data/rre_accuracy_audit.py:221-233 | Macro and micro can disagree: for the totals (1, 1, 1, tp 1, fn 3, fp 3) over two reviews, macro F1 is 50 and micro F1 is 25. Audit.DiffersOnResults shows two real comparisons that reach these sums. |
| Audit.MatchedOneFacts | Data/rre_accuracy_audit.py:115-132 | A review whose two sides hold the same single label scores recall, precision and F1 1, with tp 1 and no misses or extras. |
| Audit.MissedThreeFacts | Data/rre_accuracy_audit.py:115-132 | A review whose reference and candidate sets are disjoint and hold three labels each scores 0 throughout, with tp 0, fn 3 and fp 3. |
| Audit.SumOfTwo | Data/rre_accuracy_audit.py:203-208 | Summing such a perfect review and such a zero review gives the totals (1, 1, 1, tp 1, fn 3, fp 3). |
| Audit.DiffersOnResults | Data/rre_accuracy_audit.py:203-233 | For those two reviews, compared by `calculate_metrics` and summed as the loop does, the macro F1 is 50 and the micro F1 is 25. |
| Audit.SummaryBounded | Data/rre_accuracy_audit.py:172-233 | Every summary the audit computes from its own comparisons reports six percentages. |
| Audit.DuplicatesCountAsMisses | Data/rre_accuracy_audit.py:56-57 | Repeated reference labels all count as misses when the candidate has none: the cell "Comfort,comfort, " gives fn = 2 (lines 111-112 count the list, not the set). |
| Audit.InsertByScore | Data/rre_accuracy_audit.py:297 | Inserting keeps the listing in ascending score order and adds one element. |
| Audit.InsertByScorePermutes | Data/rre_accuracy_audit.py:297 | Inserting adds exactly `x` to the multiset of elements. |
| Audit.SortByScore | Data/rre_accuracy_audit.py:297 | The sorted results are in ascending order of the rounded F1, and are a permutation of the results. |
| Audit.LowScoring | Data/rre_accuracy_audit.py:300 | The filter keeps only reviews whose rounded F1 is below 0.50. |
| Audit.AllLowKept | Data/rre_accuracy_audit.py:300 | When every review scores below 0.50, the filter keeps them all. |
| Audit.LowScoringPrefix | Data/rre_accuracy_audit.py:297-300 | In a listing sorted by score, the low scorers are exactly a prefix. |
| Audit.WorstOf | Data/rre_accuracy_audit.py:296-302 | Carries no contract of its own. It gives the reviews the red verdict lists: the first ten low scorers of the results sorted by rounded F1. Its properties are in WorstIsPrefix, WorstListing and WorstAreTheLowest. |
| Audit.SortedSameMembers | Data/rre_accuracy_audit.py:297 | Sorting neither adds nor loses a review. |
| Audit.WorstIsPrefix | Data/rre_accuracy_audit.py:296-302 | The listing is the first min(10, k) sorted results, where exactly the first k score below 0.50. |
| Audit.WorstListing | Data/rre_accuracy_audit.py:296-302 | At most ten reviews are listed, in ascending order of score. All come from the results and score below 0.50. |
| Audit.WorstAreTheLowest | Data/rre_accuracy_audit.py:296-302 | A low scorer left out means that ten reviews are listed, each scoring no higher than it. |
| Audit.ListWorst | Data/rre_accuracy_audit.py:297-302 | The loop with its counter lists exactly the first (at most ten) low scorers of the sorted results. |
| Audit.Decide | Data/rre_accuracy_audit.py:266-302 | Carries no contract of its own. It gives the verdict: green from micro F1 80 upwards, otherwise red with WorstOf. Its properties are in DecisionOnMicroF1 and RunAudit. |
| Audit.DecisionOnMicroF1 | Data/rre_accuracy_audit.py:266-268 | The verdict depends on the micro F1 alone, and is green exactly when it is at least 80. |
| Audit.SortedIds | Data/rre_accuracy_audit.py:180 | The ids come out strictly ascending, exactly the ids of the set. |
| Audit.EvaluateAllExtend | Data/rre_accuracy_audit.py:182-201 | Comparing one more id appends its row. |
| Audit.AccumulateExtend | Data/rre_accuracy_audit.py:203-208 | One more row adds its scores and counts to the six sums. |
| Audit.CompareReviews | Data/rre_accuracy_audit.py:172-208 | The loop yields one row per id, each comparing the two sides' lists for that id, with a missing id read as []. The six running sums equal the sums over those rows. |
| Audit.RunAudit | Data/rre_accuracy_audit.py:158-302 | The rows cover exactly the ids either loader produced, once each and ascending, each compared as the loaders specify. The summary is that of these rows. The verdict is green when the micro F1 reaches 80, and otherwise red with the worst-case listing. |

## Left out

- Reading and writing files are not modelled: `open`, `csv.DictReader`, `readlines` and `csv.DictWriter`. The loaders take the parsed reference rows and the candidate file's lines as values.
- The results file and the console report are not modelled: every `print`, the `"NONE"` and `', '.join` renderings of the row cells, and the `:.3f` strings other than the F1 sort key.
- The `__main__` block and its fixed paths are not modelled.
- The dictionary `run_audit` returns is not modelled as such: its fields are all in `Summary`.
- A missing `Review_ID` or `Rita_Aspect` column (a `KeyError` in the source) is outside the model. A reference row always carries both fields.
- Text handling is ASCII only. `strip()` removes the ASCII characters Python treats as white space, and `lower()` changes only A–Z. Unicode white space and case mappings are not modelled.
- Arithmetic is on exact rationals, not IEEE doubles: recall, precision, the F1s, the sums and the percentages are `real`. The model has no rounding error, so the comparisons against 80 and 0.50 are decided on exact values.
- Audit.Rounded: rounds to three decimals with halves rounded up, on the exact value. Python's `.3f` rounds the binary double, so a value that lies exactly halfway in decimal can round the other way.
- Audit.SortByScore: does not state that the sort is stable, although the insertion it uses keeps equal scores in their original order, as Python's `sorted` does.
- Audit.SortedIds: a loop of ordered insertions stands in for the built-in `sorted`. Ordering.SortedUnique shows that any strictly ascending listing of the set is the one `sorted` returns.
- The messages of the two verdicts are left out. The verdict holds only the colour and, for red, the reviews listed.
- The candidate loader's `strip('"')` removes every leading and trailing quote, not just one outer pair. The model follows the code; Loaders.StripOuterQuotes and Loaders.ExampleQuotedLine show it removing one quote in front and three at the back.
- The comment about commas inside quotes is not reflected in the code, and so not in the model: `split(',')` splits on every comma.
