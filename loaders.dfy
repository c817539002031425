/** The two label loaders: the reference file holds one row per review with a
    comma-separated cell of aspects, the candidate file one line per extracted
    aspect. Reading the files is left to the caller; the loaders work on the
    rows and lines read from them. */
module Loaders {
  import opened Text
  import opened Normalizer

  datatype Option<T> = None | Some(value: T)

  /** One row of the reference file: its `Review_ID` and `Rita_Aspect` columns. */
  datatype ReferenceRow = ReferenceRow(reviewId: string, aspectCell: string)

  /** One accepted line of the candidate file: a review id and a normalised aspect. */
  datatype CandidateEntry = CandidateEntry(reviewId: string, aspect: string)

  /** The labels stored for `id`, or none: `defaultdict(list)` reads a missing key as `[]`. */
  function LabelsOf(m: map<string, seq<string>>, id: string): seq<string>
  {
    if id in m then m[id] else []
  }

  /** Every piece, normalised. */
  function NormalizeEach(pieces: seq<string>): seq<string>
  {
    seq(|pieces|, i requires 0 <= i < |pieces| => NormalizeAspect(pieces[i]))
  }

  /** Normalising a list of names a second time changes nothing. */
  lemma NormalizeEachIdempotent(pieces: seq<string>)
    ensures NormalizeEach(NormalizeEach(pieces)) == NormalizeEach(pieces)
  {
    var names := NormalizeEach(pieces);
    forall i | 0 <= i < |names| ensures NormalizeAspect(names[i]) == names[i] {
      NormalizeIdempotent(pieces[i]);
    }
  }

  /** The non-empty names, in order. */
  function NonEmpty(names: seq<string>): (r: seq<string>)
    ensures |r| <= |names|
    ensures forall a :: a in r <==> a in names && a != ""
  {
    if names == [] then []
    else if names[0] != "" then [names[0]] + NonEmpty(names[1..])
    else NonEmpty(names[1..])
  }

  /** The filter works piece by piece: it keeps the order of the names and
      every repetition of a name. */
  lemma {:induction false} NonEmptyConcat(a: seq<string>, b: seq<string>)
    ensures NonEmpty(a + b) == NonEmpty(a) + NonEmpty(b)
  {
    if a != [] {
      assert (a + b)[0] == a[0] && (a + b)[1..] == a[1..] + b;
      NonEmptyConcat(a[1..], b);
    } else {
      assert a + b == b;
    }
  }

  /** The labels of one reference cell: the comma-separated pieces, each
      normalised, the blank ones dropped. */
  function ParseAspectCell(cell: string): seq<string>
  {
    NonEmpty(NormalizeEach(SplitComma(cell)))
  }

  /** A cell's labels are the non-empty normalised forms of its pieces. */
  lemma ParseAspectCellMembers(cell: string)
    ensures forall a :: a in ParseAspectCell(cell) ==> a != ""
    ensures forall p :: p in SplitComma(cell) && NormalizeAspect(p) != "" ==>
      NormalizeAspect(p) in ParseAspectCell(cell)
    ensures forall a :: a in ParseAspectCell(cell) ==>
      exists p :: p in SplitComma(cell) && NormalizeAspect(p) == a
  {
    var pieces := SplitComma(cell);
    var names := NormalizeEach(pieces);
    forall p | p in pieces && NormalizeAspect(p) != "" ensures NormalizeAspect(p) in ParseAspectCell(cell) {
      var i :| 0 <= i < |pieces| && pieces[i] == p;
      assert names[i] == NormalizeAspect(p);
    }
    forall a | a in ParseAspectCell(cell) ensures exists p :: p in pieces && NormalizeAspect(p) == a {
      var i :| 0 <= i < |names| && names[i] == a;
      assert pieces[i] in pieces;
    }
  }

  lemma {:induction false} NonEmptyKeepsAll(names: seq<string>)
    requires forall i :: 0 <= i < |names| ==> names[i] != ""
    ensures NonEmpty(names) == names
  {
    if names != [] {
      NonEmptyKeepsAll(names[1..]);
    }
  }

  /** A cell listing comma-free labels that normalise to non-empty names yields
      exactly those names, in order. */
  lemma ParseAspectCellOfJoin(labels: seq<string>)
    requires |labels| >= 1
    requires forall p :: p in labels ==> ',' !in p
    requires forall a :: a in NormalizeEach(labels) ==> a != ""
    ensures ParseAspectCell(Join(labels, ",")) == NormalizeEach(labels)
  {
    SplitJoin(labels);
    var names := NormalizeEach(labels);
    assert forall i :: 0 <= i < |names| ==> names[i] != "" by {
      forall i | 0 <= i < |names| ensures names[i] != "" {
        assert names[i] in names;
      }
    }
    NonEmptyKeepsAll(names);
  }

  /** A cell joining comma-free labels yields their normalised forms in order,
      repetitions kept, with only the blank ones dropped. */
  lemma ParseAspectCellOfLabels(labels: seq<string>)
    requires |labels| >= 1
    requires forall p :: p in labels ==> ',' !in p
    ensures ParseAspectCell(Join(labels, ",")) == NonEmpty(NormalizeEach(labels))
  {
    SplitJoin(labels);
  }

  lemma DuplicateCellFacts()
    ensures Trim("Comfort") == "Comfort" && Lower("Comfort") == "comfort"
    ensures Trim("comfort") == "comfort" && Lower("comfort") == "comfort"
    ensures Trim(" ") == ""
  {
    StripFixed("Comfort", Whitespace);
    StripFixed("comfort", Whitespace);
    assert SkipLeading(" ", Whitespace, 0) == 1;
  }

  lemma DuplicateCellNames()
    ensures NormalizeAspect("Comfort") == "Comfort"
    ensures NormalizeAspect("comfort") == "Comfort"
    ensures NormalizeAspect(" ") == ""
  {
    DuplicateCellFacts();
    NormalizeEmpty(" ");
  }

  lemma ThreePieces(a: string, b: string, c: string)
    ensures Join([a, b, c], ",") == a + "," + (b + "," + c)
    ensures NormalizeEach([a, b, c]) == [NormalizeAspect(a), NormalizeAspect(b), NormalizeAspect(c)]
  {
    assert [a, b, c][1..] == [b, c] && [b, c][1..] == [c];
    assert Join([c], ",") == c;
    assert Join([b, c], ",") == b + "," + c;
  }

  /** A label given twice, in two spellings, is kept twice; the blank piece
      after the last comma is dropped. */
  lemma DuplicateLabelsKept(cell: string)
    requires cell == "Comfort" + "," + ("comfort" + "," + " ")
    ensures ParseAspectCell(cell) == ["Comfort", "Comfort"]
  {
    var labels := ["Comfort", "comfort", " "];
    ThreePieces("Comfort", "comfort", " ");
    ParseAspectCellOfLabels(labels);
    DuplicateCellNames();
    var names := ["Comfort", "Comfort", ""];
    assert names[1..] == ["Comfort", ""] && names[1..][1..] == [""] && [""][1..] == [];
  }

  /** A blank cell holds no labels. */
  lemma ParseBlankCell(cell: string)
    requires ',' !in cell && Trim(cell) == ""
    ensures ParseAspectCell(cell) == []
  {
    SplitNoComma(cell);
    NormalizeEmpty(cell);
    assert NormalizeEach([cell]) == [""];
  }

  /** Every row with its cell parsed. */
  function ParseRows(rows: seq<ReferenceRow>): seq<(string, seq<string>)>
  {
    seq(|rows|, i requires 0 <= i < |rows| => (rows[i].reviewId, ParseAspectCell(rows[i].aspectCell)))
  }

  /** The map that assigning the pairs in order leaves: a later pair with a key
      overwrites an earlier one. */
  function LastWins(pairs: seq<(string, seq<string>)>): map<string, seq<string>>
  {
    if pairs == [] then map[]
    else
      var last := pairs[|pairs| - 1];
      LastWins(pairs[..|pairs| - 1])[last.0 := last.1]
  }

  /** Every key of some pair is in the map, and nothing else is. */
  lemma {:induction false} LastWinsKeys(pairs: seq<(string, seq<string>)>)
    ensures forall id :: id in LastWins(pairs) <==> exists i :: 0 <= i < |pairs| && pairs[i].0 == id
  {
    if pairs != [] {
      var front := pairs[..|pairs| - 1];
      LastWinsKeys(front);
      forall id ensures id in LastWins(pairs) <==> exists i :: 0 <= i < |pairs| && pairs[i].0 == id {
        if id in LastWins(front) {
          var i :| 0 <= i < |front| && front[i].0 == id;
          assert pairs[i].0 == id;
        }
        if exists i :: 0 <= i < |pairs| && pairs[i].0 == id {
          var i :| 0 <= i < |pairs| && pairs[i].0 == id;
          if i < |front| {
            assert front[i].0 == id;
          }
        }
      }
    }
  }

  /** A key holds the value of the last pair that carries it. */
  lemma {:induction false} LastWinsValue(pairs: seq<(string, seq<string>)>, i: nat)
    requires i < |pairs|
    requires forall j :: i < j < |pairs| ==> pairs[j].0 != pairs[i].0
    ensures pairs[i].0 in LastWins(pairs)
    ensures LastWins(pairs)[pairs[i].0] == pairs[i].1
  {
    var front := pairs[..|pairs| - 1];
    if i < |front| {
      forall j | i < j < |front| ensures front[j].0 != front[i].0 {
        assert pairs[j] == front[j];
      }
      LastWinsValue(front, i);
    }
  }

  /** The reference map has one key per review id in the rows, and the value
      stored for an id is parsed from the last row carrying it. */
  lemma ReferenceMapContents(rows: seq<ReferenceRow>, i: nat)
    requires i < |rows|
    requires forall j :: i < j < |rows| ==> rows[j].reviewId != rows[i].reviewId
    ensures forall id :: id in LastWins(ParseRows(rows)) <==> exists k :: 0 <= k < |rows| && rows[k].reviewId == id
    ensures LastWins(ParseRows(rows))[rows[i].reviewId] == ParseAspectCell(rows[i].aspectCell)
  {
    var pairs := ParseRows(rows);
    LastWinsKeys(pairs);
    forall id ensures id in LastWins(pairs) <==> exists k :: 0 <= k < |rows| && rows[k].reviewId == id {
      if exists k :: 0 <= k < |rows| && rows[k].reviewId == id {
        var k :| 0 <= k < |rows| && rows[k].reviewId == id;
        assert pairs[k].0 == id;
      }
    }
    LastWinsValue(pairs, i);
  }

  /** Extending the pairs by one assigns that one pair. */
  lemma LastWinsStep(pairs: seq<(string, seq<string>)>, i: nat)
    requires i < |pairs|
    ensures LastWins(pairs[..i + 1]) == LastWins(pairs[..i])[pairs[i].0 := pairs[i].1]
  {
    assert pairs[..i + 1][..i] == pairs[..i];
  }

  /** Loads the reference rows into a map from review id to labels; a later row
      with an id replaces the earlier one. */
  method LoadReference(rows: seq<ReferenceRow>) returns (reviews: map<string, seq<string>>)
    ensures reviews == LastWins(ParseRows(rows))
  {
    reviews := map[];
    ghost var pairs := ParseRows(rows);
    var i := 0;
    while i < |rows|
      invariant 0 <= i <= |rows|
      invariant reviews == LastWins(pairs[..i])
    {
      var row := rows[i];
      reviews := reviews[row.reviewId := ParseAspectCell(row.aspectCell)];
      LastWinsStep(pairs, i);
      i := i + 1;
    }
    assert pairs[..i] == pairs;
  }

  /** A candidate line with its surrounding white space removed and then every
      leading and trailing double quote. */
  function StripLine(line: string): (r: string)
    ensures r != [] ==> r[0] != '"' && r[|r| - 1] != '"'
  {
    Strip(Trim(line), {'"'})
  }

  /** The stripped line is a middle stretch of the line: only white space and
      quotes are removed, and only at the two ends. */
  lemma StripLineRemovesOnlyEnds(line: string)
    ensures exists i, j :: MiddleOf(StripLine(line), line, Whitespace + {'"'}, i, j)
  {
    StripTwiceRemovesOnlyEnds(line, Whitespace, {'"'});
    assert StripLine(line) == Strip(Strip(line, Whitespace), {'"'});
  }

  /** Reads the first two comma-separated fields of a stripped line: a line with
      fewer than two fields, or whose aspect normalises to nothing, is skipped. */
  function ParseFields(stripped: string): (e: Option<CandidateEntry>)
    ensures e.Some? ==> ',' in stripped && e.value.aspect != ""
  {
    var parts := SplitComma(stripped);
    SplitCommaCount(stripped);
    if |parts| < 2 then None
    else
      var aspect := NormalizeAspect(Trim(parts[1]));
      if aspect != "" then Some(CandidateEntry(Trim(parts[0]), aspect)) else None
  }

  function ParseCandidateLine(line: string): Option<CandidateEntry>
  {
    ParseFields(StripLine(line))
  }

  /** A line without a comma, a blank line among them, is skipped. */
  lemma CommaFreeLineSkipped(line: string)
    requires ',' !in StripLine(line)
    ensures ParseCandidateLine(line) == None
  {
    SplitCommaCount(StripLine(line));
  }

  /** Only the first two fields of a line count: whatever follows the second
      comma is ignored, whether the line is accepted or skipped. */
  lemma ParseFirstTwoFields(id: string, aspect: string, rest: string)
    requires ',' !in id && ',' !in aspect
    ensures ParseFields(id + "," + (aspect + "," + rest)) == ParseFields(id + "," + aspect)
  {
    SplitFirstTwo(id, aspect, rest);
    SplitNoComma(aspect);
    SplitAfterField(id, aspect);
  }

  /** A line holding exactly two fields is read the same way. */
  lemma ParseTwoFields(id: string, aspect: string)
    requires ',' !in id && ',' !in aspect
    ensures ParseFields(id + "," + aspect) ==
      (if NormalizeAspect(Trim(aspect)) != "" then Some(CandidateEntry(Trim(id), NormalizeAspect(Trim(aspect))))
       else None)
  {
    SplitNoComma(aspect);
    SplitAfterField(id, aspect);
  }

  lemma ExampleFieldFacts()
    ensures Trim("RRE_001") == "RRE_001"
    ensures Trim("Fit/Sizing") == "Fit/Sizing"
    ensures Lower("Fit/Sizing") == "fit/sizing"
    ensures NormalizeAspect("Fit/Sizing") == "Sizing/Fit"
  {
    StripFixed("RRE_001", Whitespace);
    StripFixed("Fit/Sizing", Whitespace);
  }

  /** A line ending in a newline loses just that. */
  lemma TrimNewline(s: string)
    requires s != [] && s[0] !in Whitespace && s[|s| - 1] !in Whitespace
    ensures Trim(s + "\n") == s
  {
    var t := s + "\n";
    assert t[|t| - 1] == '\n' && t[|t| - 2] == s[|s| - 1];
    assert SkipTrailing(t, Whitespace, |t| - 1) == |t| - 1;
    assert t[..|t| - 1] == s;
  }

  /** One quote before and three after come off; what is between stays. */
  lemma StripOuterQuotes(inner: string)
    requires inner != [] && inner[0] != '"' && inner[|inner| - 1] != '"'
    ensures Strip("\"" + inner + "\"\"\"", {'"'}) == inner
  {
    var q := "\"" + inner + "\"\"\"";
    var n := |q|;
    assert q[1] == inner[0];
    assert SkipLeading(q, {'"'}, 1) == 1;
    assert q[n - 4] == inner[|inner| - 1];
    assert q[n - 1] == '"' && q[n - 2] == '"' && q[n - 3] == '"';
    assert SkipTrailing(q, {'"'}, n - 3) == n - 3;
    assert SkipTrailing(q, {'"'}, n - 2) == n - 3;
    assert SkipTrailing(q, {'"'}, n - 1) == n - 3;
    assert q[1..n - 3] == inner;
  }

  lemma ExampleLineEnds(inner: string)
    requires inner == "RRE_001" + "," + ("Fit/Sizing" + "," + "negative,\"\"evidence")
    ensures inner != [] && inner[0] == 'R' && inner[|inner| - 1] == 'e'
  {
  }

  lemma ExampleLineStripped(inner: string)
    requires inner != [] && inner[0] == 'R' && inner[|inner| - 1] == 'e'
    ensures StripLine("\"" + inner + "\"\"\"" + "\n") == inner
  {
    var quoted := "\"" + inner + "\"\"\"";
    assert quoted[0] == '"' && quoted[|quoted| - 1] == '"';
    TrimNewline(quoted);
    StripOuterQuotes(inner);
  }

  /** A line wrapped in an extra pair of quotes, its evidence field quoted
      again inside, as the candidate file holds them: the quotes at both ends
      go, and the id and the aspect are read from the first two fields. The
      line is written in pieces, `"` + fields + `"""` + newline. */
  lemma ExampleQuotedLine()
    ensures ParseCandidateLine("\"" + ("RRE_001" + "," + ("Fit/Sizing" + "," + "negative,\"\"evidence")) + "\"\"\"" + "\n")
      == Some(CandidateEntry("RRE_001", "Sizing/Fit"))
  {
    var inner := "RRE_001" + "," + ("Fit/Sizing" + "," + "negative,\"\"evidence");
    ExampleLineEnds(inner);
    ExampleLineStripped(inner);
    ExampleFieldFacts();
    ParseFirstTwoFields("RRE_001", "Fit/Sizing", "negative,\"\"evidence");
    ParseTwoFields("RRE_001", "Fit/Sizing");
  }

  /** The lines after the header; an empty file has none. */
  function DataLines(lines: seq<string>): seq<string>
  {
    if |lines| == 0 then [] else lines[1..]
  }

  /** Every line, parsed. */
  function ParseEach(lines: seq<string>): seq<Option<CandidateEntry>>
  {
    seq(|lines|, i requires 0 <= i < |lines| => ParseCandidateLine(lines[i]))
  }

  /** Lines are parsed one at a time: parsing two runs of lines one after the
      other is parsing each run. */
  lemma ParseEachConcat(a: seq<string>, b: seq<string>)
    ensures ParseEach(a + b) == ParseEach(a) + ParseEach(b)
  {
    var l := a + b;
    var p := ParseEach(a) + ParseEach(b);
    forall i | 0 <= i < |l| ensures ParseEach(l)[i] == p[i] {
      if i < |a| {
        assert l[i] == a[i] && p[i] == ParseEach(a)[i];
      } else {
        assert l[i] == b[i - |a|] && p[i] == ParseEach(b)[i - |a|];
      }
    }
  }

  /** The header line is never parsed: whatever it says, the loader builds the
      same map. */
  lemma HeaderIgnored(h1: string, h2: string, rest: seq<string>)
    ensures CandidateMap(ParseEach(DataLines([h1] + rest))) == CandidateMap(ParseEach(DataLines([h2] + rest)))
  {
    assert ([h1] + rest)[1..] == rest && ([h2] + rest)[1..] == rest;
  }

  /** The aspects the parsed lines give `id`, in file order: the reference
      definition of what the candidate loader stores. */
  function AspectsFor(entries: seq<Option<CandidateEntry>>, id: string): seq<string>
  {
    if entries == [] then []
    else
      var e := entries[|entries| - 1];
      AspectsFor(entries[..|entries| - 1], id) + (if e.Some? && e.value.reviewId == id then [e.value.aspect] else [])
  }

  lemma {:induction false} AspectsForConcat(a: seq<Option<CandidateEntry>>, b: seq<Option<CandidateEntry>>, id: string)
    ensures AspectsFor(a + b, id) == AspectsFor(a, id) + AspectsFor(b, id)
    decreases |b|
  {
    if b != [] {
      var front := b[..|b| - 1];
      assert (a + b)[..|a + b| - 1] == a + front;
      assert (a + b)[|a + b| - 1] == b[|b| - 1];
      AspectsForConcat(a, front, id);
    } else {
      assert a + b == a;
    }
  }

  /** Every stored aspect is a non-empty name. */
  lemma {:induction false} AspectsForNonEmpty(lines: seq<string>, id: string)
    ensures forall a :: a in AspectsFor(ParseEach(lines), id) ==> a != ""
  {
    var entries := ParseEach(lines);
    forall e | e in entries && e.Some? ensures e.value.aspect != "" {
      var i :| 0 <= i < |entries| && entries[i] == e;
      assert e == ParseCandidateLine(lines[i]);
    }
    EntriesNonEmpty(entries, id);
  }

  lemma {:induction false} EntriesNonEmpty(entries: seq<Option<CandidateEntry>>, id: string)
    requires forall e :: e in entries && e.Some? ==> e.value.aspect != ""
    ensures forall a :: a in AspectsFor(entries, id) ==> a != ""
  {
    if entries != [] {
      EntriesNonEmpty(entries[..|entries| - 1], id);
    }
  }

  /** One accepted line appends its aspect to its id's list, creating the list;
      a skipped line changes nothing. */
  function AddEntry(m: map<string, seq<string>>, e: Option<CandidateEntry>): map<string, seq<string>>
  {
    match e
    case None => m
    case Some(x) => m[x.reviewId := LabelsOf(m, x.reviewId) + [x.aspect]]
  }

  /** What the candidate loader builds from the parsed data lines, line by line. */
  function CandidateMap(entries: seq<Option<CandidateEntry>>): map<string, seq<string>>
  {
    if entries == [] then map[]
    else AddEntry(CandidateMap(entries[..|entries| - 1]), entries[|entries| - 1])
  }

  /** An id has an entry exactly when some line gives it an aspect, and the
      entry lists those aspects in file order, duplicates kept. */
  lemma {:induction false} CandidateMapContents(entries: seq<Option<CandidateEntry>>)
    ensures forall id :: id in CandidateMap(entries) <==> AspectsFor(entries, id) != []
    ensures forall id :: LabelsOf(CandidateMap(entries), id) == AspectsFor(entries, id)
  {
    if entries != [] {
      CandidateMapContents(entries[..|entries| - 1]);
    }
  }

  /** Extending the parsed lines by one applies that one line to the map. */
  lemma CandidateMapStep(entries: seq<Option<CandidateEntry>>, i: nat)
    requires i < |entries|
    ensures CandidateMap(entries[..i + 1]) == AddEntry(CandidateMap(entries[..i]), entries[i])
  {
    assert entries[..i + 1][..i] == entries[..i];
  }

  /** Parses one data line and, when it is accepted, appends its aspect to the
      list of its review id. */
  method AddLine(reviews: map<string, seq<string>>, line: string) returns (updated: map<string, seq<string>>)
    ensures updated == AddEntry(reviews, ParseCandidateLine(line))
  {
    var e := ParseCandidateLine(line);
    updated := reviews;
    if e.Some? {
      var id := e.value.reviewId;
      var current := if id in updated then updated[id] else [];
      updated := updated[id := current + [e.value.aspect]];
    }
  }

  /** Loads the candidate lines, skipping the header line, into a map from
      review id to the aspects in the order the lines give them. */
  method LoadCandidate(lines: seq<string>) returns (reviews: map<string, seq<string>>)
    ensures reviews == CandidateMap(ParseEach(DataLines(lines)))
  {
    reviews := map[];
    var data := DataLines(lines);
    ghost var parsed := ParseEach(data);
    var i := 0;
    while i < |data|
      invariant 0 <= i <= |data|
      invariant reviews == CandidateMap(parsed[..i])
    {
      reviews := AddLine(reviews, data[i]);
      CandidateMapStep(parsed, i);
      i := i + 1;
    }
    assert parsed[..i] == parsed;
  }
}
