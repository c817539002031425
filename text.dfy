/** String helpers the audit script takes from Python's `str`: `strip`, `lower`,
    `split(',')` and `join`, restricted to ASCII. */
module Text {

  /** The ASCII characters that Python's `str.isspace()` accepts, and hence the
      ones a bare `strip()` removes from either end of an ASCII string. */
  const Whitespace: set<char> :=
    {' ', '\t', '\n', '\r', '\U{B}', '\U{C}', '\U{1C}', '\U{1D}', '\U{1E}', '\U{1F}'}

  function LowerChar(c: char): (d: char)
    ensures 'A' <= c <= 'Z' ==> 'a' <= d <= 'z'
    ensures !('A' <= c <= 'Z') ==> d == c
  {
    if 'A' <= c <= 'Z' then (c as int + 32) as char else c
  }

  /** ASCII `str.lower()`: every upper-case letter becomes lower case, the rest is kept. */
  function Lower(s: string): string
  {
    seq(|s|, i requires 0 <= i < |s| => LowerChar(s[i]))
  }

  lemma LowerIdempotent(s: string)
    ensures Lower(Lower(s)) == Lower(s)
  {
  }

  /** The index of the first character at or after `i` that is not in `cs`, or `|s|`. */
  function SkipLeading(s: string, cs: set<char>, i: nat): (k: nat)
    requires i <= |s|
    ensures i <= k <= |s|
    ensures k < |s| ==> s[k] !in cs
    decreases |s| - i
  {
    if i == |s| || s[i] !in cs then i else SkipLeading(s, cs, i + 1)
  }

  /** The index just past the last character before `j` that is not in `cs`, or 0. */
  function SkipTrailing(s: string, cs: set<char>, j: nat): (k: nat)
    requires j <= |s|
    ensures k <= j
    ensures k > 0 ==> s[k - 1] !in cs
  {
    if j == 0 || s[j - 1] !in cs then j else SkipTrailing(s, cs, j - 1)
  }

  /** Python's `s.strip(chars)`: every leading and every trailing character that
      belongs to `cs` is removed, however many there are. */
  function Strip(s: string, cs: set<char>): (r: string)
    ensures r != [] ==> r[0] !in cs && r[|r| - 1] !in cs
  {
    var i := SkipLeading(s, cs, 0);
    var j := SkipTrailing(s, cs, |s|);
    if i < j then s[i..j] else []
  }

  /** `SkipLeading` passes over characters of `cs` only. */
  lemma {:induction false} SkipLeadingSkips(s: string, cs: set<char>, i: nat)
    requires i <= |s|
    ensures forall k :: i <= k < SkipLeading(s, cs, i) ==> s[k] in cs
    decreases |s| - i
  {
    if i < |s| && s[i] in cs {
      SkipLeadingSkips(s, cs, i + 1);
    }
  }

  /** `SkipTrailing` passes over characters of `cs` only. */
  lemma {:induction false} SkipTrailingSkips(s: string, cs: set<char>, j: nat)
    requires j <= |s|
    ensures forall k :: SkipTrailing(s, cs, j) <= k < j ==> s[k] in cs
  {
    if j > 0 && s[j - 1] in cs {
      SkipTrailingSkips(s, cs, j - 1);
    }
  }

  /** `r` is the stretch `s[i..j]`, and every character of `s` outside it is in `cs`. */
  predicate MiddleOf(r: string, s: string, cs: set<char>, i: nat, j: nat)
  {
    && i <= j <= |s| && r == s[i..j]
    && (forall k :: 0 <= k < i ==> s[k] in cs)
    && (forall k :: j <= k < |s| ==> s[k] in cs)
  }

  /** `Strip` keeps a middle stretch of the string and removes only characters
      of `cs` before and after it. */
  lemma StripRemovesOnlyEnds(s: string, cs: set<char>)
    ensures exists i, j :: MiddleOf(Strip(s, cs), s, cs, i, j)
  {
    var i := SkipLeading(s, cs, 0);
    var j := SkipTrailing(s, cs, |s|);
    SkipLeadingSkips(s, cs, 0);
    SkipTrailingSkips(s, cs, |s|);
    if i < j {
      assert MiddleOf(Strip(s, cs), s, cs, i, j);
    } else {
      assert MiddleOf(Strip(s, cs), s, cs, i, i);
    }
  }

  /** A middle stretch of a middle stretch is a middle stretch, with the
      removed characters drawn from both sets. */
  lemma MiddleOfMiddle(r: string, t: string, s: string, cs1: set<char>, cs2: set<char>,
                       i1: nat, j1: nat, i2: nat, j2: nat)
    requires MiddleOf(t, s, cs1, i1, j1) && MiddleOf(r, t, cs2, i2, j2)
    ensures MiddleOf(r, s, cs1 + cs2, i1 + i2, i1 + j2)
  {
    forall k | 0 <= k < |r| ensures r[k] == s[i1 + i2 + k] {
      assert r[k] == t[i2 + k];
    }
    assert r == s[i1 + i2..i1 + j2];
    forall k | 0 <= k < i1 + i2 ensures s[k] in cs1 + cs2 {
      if k >= i1 {
        assert s[k] == t[k - i1];
      }
    }
    forall k | i1 + j2 <= k < |s| ensures s[k] in cs1 + cs2 {
      if k < j1 {
        assert s[k] == t[k - i1];
      }
    }
  }

  /** Stripping one set of characters and then another keeps a middle stretch
      of the string and removes only characters of either set around it. */
  lemma StripTwiceRemovesOnlyEnds(s: string, cs1: set<char>, cs2: set<char>)
    ensures exists i, j :: MiddleOf(Strip(Strip(s, cs1), cs2), s, cs1 + cs2, i, j)
  {
    var t := Strip(s, cs1);
    StripRemovesOnlyEnds(s, cs1);
    var i1, j1 :| MiddleOf(t, s, cs1, i1, j1);
    StripRemovesOnlyEnds(t, cs2);
    var i2, j2 :| MiddleOf(Strip(t, cs2), t, cs2, i2, j2);
    MiddleOfMiddle(Strip(t, cs2), t, s, cs1, cs2, i1, j1, i2, j2);
  }

  /** A string neither starting nor ending with a character of `cs` is unchanged by `Strip`. */
  lemma StripFixed(s: string, cs: set<char>)
    requires s != [] ==> s[0] !in cs && s[|s| - 1] !in cs
    ensures Strip(s, cs) == s
  {
  }

  lemma StripIdempotent(s: string, cs: set<char>)
    ensures Strip(Strip(s, cs), cs) == Strip(s, cs)
  {
    StripFixed(Strip(s, cs), cs);
  }

  /** Python's bare `s.strip()` on ASCII text. */
  function Trim(s: string): (r: string)
    ensures r != [] ==> r[0] !in Whitespace && r[|r| - 1] !in Whitespace
  {
    Strip(s, Whitespace)
  }

  lemma TrimIdempotent(s: string)
    ensures Trim(Trim(s)) == Trim(s)
  {
    StripIdempotent(s, Whitespace);
  }

  /** `sep.join(parts)`. */
  function Join(parts: seq<string>, sep: string): string
  {
    if |parts| == 0 then ""
    else if |parts| == 1 then parts[0]
    else parts[0] + sep + Join(parts[1..], sep)
  }

  /** Python's `s.split(',')`: the pieces between commas, empty ones included;
      there is always at least one piece. */
  function SplitComma(s: string): (r: seq<string>)
    ensures |r| >= 1
    ensures forall p :: p in r ==> ',' !in p
  {
    if s == [] then [""]
    else if s[0] == ',' then [""] + SplitComma(s[1..])
    else
      var t := SplitComma(s[1..]);
      [[s[0]] + t[0]] + t[1..]
  }

  /** Joining the pieces back with commas gives the string again. */
  lemma {:induction false} SplitCommaJoin(s: string)
    ensures Join(SplitComma(s), ",") == s
  {
    if s != [] {
      var t := SplitComma(s[1..]);
      SplitCommaJoin(s[1..]);
      if s[0] == ',' {
        assert SplitComma(s) == [""] + t;
        assert Join(SplitComma(s), ",") == "" + "," + Join(t, ",");
      } else if |t| == 1 {
        assert SplitComma(s) == [[s[0]] + t[0]];
        assert Join(t, ",") == t[0];
      } else {
        var r := [[s[0]] + t[0]] + t[1..];
        assert SplitComma(s) == r && r[1..] == t[1..];
        assert Join(t, ",") == t[0] + "," + Join(t[1..], ",");
        assert Join(r, ",") == [s[0]] + t[0] + "," + Join(t[1..], ",");
      }
    }
  }

  /** There is more than one piece exactly when the string holds a comma. */
  lemma {:induction false} SplitCommaCount(s: string)
    ensures |SplitComma(s)| == 1 <==> ',' !in s
  {
    if s != [] {
      SplitCommaCount(s[1..]);
      assert s == [s[0]] + s[1..];
    }
  }

  /** Splitting undoes joining: comma-free pieces joined with commas split back into themselves. */
  lemma {:induction false} SplitJoin(parts: seq<string>)
    requires |parts| >= 1
    requires forall p :: p in parts ==> ',' !in p
    ensures SplitComma(Join(parts, ",")) == parts
  {
    if |parts| == 1 {
      SplitNoComma(parts[0]);
    } else {
      SplitJoin(parts[1..]);
      SplitAfterField(parts[0], Join(parts[1..], ","));
    }
  }

  /** The first two comma-separated fields of a line are what precedes the first
      comma and what lies between the first and the second. */
  lemma SplitFirstTwo(a: string, b: string, rest: string)
    requires ',' !in a && ',' !in b
    ensures var parts := SplitComma(a + "," + (b + "," + rest));
      |parts| >= 2 && parts[0] == a && parts[1] == b
  {
    SplitAfterField(b, rest);
    SplitAfterField(a, b + "," + rest);
  }

  lemma SplitNoComma(s: string)
    requires ',' !in s
    ensures SplitComma(s) == [s]
  {
    SplitCommaCount(s);
    SplitCommaJoin(s);
  }

  /** A comma-free leading field is split off as the first piece. */
  lemma {:induction false} SplitAfterField(a: string, b: string)
    requires ',' !in a
    ensures SplitComma(a + "," + b) == [a] + SplitComma(b)
  {
    var s := a + "," + b;
    if a == [] {
      assert s[0] == ',' && s[1..] == b;
    } else {
      assert s[0] == a[0] && s[1..] == a[1..] + "," + b;
      SplitAfterField(a[1..], b);
      assert [a[0]] + a[1..] == a;
    }
  }
}
