/** Cutting a text at headings with `re.split`, and the facts the two
    splitting strategies rely on: the pieces give back the text, separators
    sit at the odd positions, and the test `re.match(pattern, part.strip())`
    applied to every piece picks out exactly the separators. */
module Splitting {
  import opened Wrappers
  import opened Text
  import opened Seqs
  import opened Patterns

  /** The two headings a document is cut at: `Pasal\s+\d+` in regulations
      and `<Month>\s+\d{4}` in calendars. */
  datatype Heading = ArticleHeading | MonthHeading

  function PatternOf(h: Heading): Pattern {
    match h
    case ArticleHeading => ArticleMarker
    case MonthHeading => MonthYear
  }

  /** Where a heading starting at `i` ends, if one does. */
  function HeadingAt(h: Heading, s: string, i: nat): (r: Option<nat>)
    requires i <= |s|
    ensures r.Some? ==> i < r.value <= |s|
  {
    match h
    case ArticleHeading => MarkerAt(s, i, "P")
    case MonthHeading => MonthYearAt(s, i)
  }

  /** The heading table is the match table of the heading's pattern. */
  lemma HeadingsArePatternMatches(h: Heading, s: string)
    ensures Headings(h, s) == Table(PatternOf(h), s)
  {
  }

  /** The match table of the heading over `s`. */
  function Headings(h: Heading, s: string): (m: seq<Option<nat>>)
    ensures |m| == |s| && ValidTable(m)
    ensures forall j :: 0 <= j < |s| ==> m[j] == HeadingAt(h, s, j)
  {
    seq(|s|, j requires 0 <= j < |s| => HeadingAt(h, s, j))
  }

  /** `re.split(r'(<heading>)', s)`. */
  function Split(h: Heading, s: string): seq<string> {
    SplitFrom(s, Headings(h, s), 0, 0)
  }

  /** The splitters' test on a piece: `re.match(<heading>, part.strip())`. */
  predicate IsBoundary(h: Heading, part: string) {
    HeadingAt(h, Strip(part), 0).Some?
  }

  /** A run of spaces scanned inside the window `s[x..y]` is the run in `s`, cut at `y`. */
  lemma SkipSpacesWindow(s: string, x: nat, y: nat, k: nat)
    requires x <= y <= |s| && k <= y - x
    ensures x + SkipSpaces(s[x..y], k) == if SkipSpaces(s, x + k) < y then SkipSpaces(s, x + k) else y
  {
    var e := SkipSpaces(s, x + k);
    SkipSpacesUnique(s[x..y], k, (if e < y then e else y) - x);
  }

  lemma SkipDigitsWindow(s: string, x: nat, y: nat, k: nat)
    requires x <= y <= |s| && k <= y - x
    ensures x + SkipDigits(s[x..y], k) == if SkipDigits(s, x + k) < y then SkipDigits(s, x + k) else y
  {
    var e := SkipDigits(s, x + k);
    SkipDigitsUnique(s[x..y], k, (if e < y then e else y) - x);
  }

  /** A word spelled at the start of a window is spelled there in the whole string. */
  lemma SpelledWindow(s: string, x: nat, y: nat, w: string, ignoreCase: bool)
    requires x <= y <= |s|
    ensures SpelledAt(s[x..y], 0, w, ignoreCase) <==> x + |w| <= y && SpelledAt(s, x, w, ignoreCase)
  {
    if x + |w| <= y {
      SliceOfSlice(s, x, y, 0, |w|);
    }
  }

  /** A month found at the start of a window is found at the same place in the whole string. */
  lemma MonthFromWindow(s: string, x: nat, y: nat)
    requires x <= y <= |s| && MonthAt(s[x..y], 0, false).Some?
    ensures MonthAt(s, x, false) == Some(x + MonthAt(s[x..y], 0, false).value)
  {
    var k := MonthAtIndex(s[x..y], 0, false);
    SpelledWindow(s, x, y, Months[k], false);
    MonthAtSpelled(s, x, k, false);
  }

  /** A month of the whole string that ends inside a window starting with it is found in the window. */
  lemma MonthIntoWindow(s: string, x: nat, y: nat)
    requires x <= y <= |s|
    requires MonthAt(s, x, false).Some? && MonthAt(s, x, false).value <= y
    ensures MonthAt(s[x..y], 0, false) == Some(MonthAt(s, x, false).value - x)
  {
    var k := MonthAtIndex(s, x, false);
    SpelledWindow(s, x, y, Months[k], false);
    MonthAtSpelled(s[x..y], 0, k, false);
  }

  lemma SpacesThenDigitsWindow(s: string, x: nat, y: nat, k: nat)
    requires x <= y <= |s| && k <= y - x
    ensures SpacesThenDigits(s[x..y], k).Some? ==> SpacesThenDigits(s, x + k).Some?
    ensures SpacesThenDigits(s, x + k).Some? && SpacesThenDigits(s, x + k).value <= y ==>
      SpacesThenDigits(s[x..y], k) == Some(SpacesThenDigits(s, x + k).value - x)
  {
    var t := s[x..y];
    SkipSpacesWindow(s, x, y, k);
    var w := SkipSpaces(s, x + k);
    var wt := SkipSpaces(t, k);
    if wt < |t| || w < y {
      assert x + wt == w;
      SkipDigitsWindow(s, x, y, wt);
    }
  }

  /** `\s+\d{4}` at position `k` of `s` is `\s+\d{4}` at `k - x` of the window `s[x..y]`,
      as long as it ends inside the window. */
  lemma SpacesThenYearWindow(s: string, x: nat, y: nat, k: nat)
    requires x <= k <= y <= |s|
    ensures SpacesThenYear(s[x..y], k - x).Some? ==> SpacesThenYear(s, k) == Some(x + SpacesThenYear(s[x..y], k - x).value)
    ensures SpacesThenYear(s, k).Some? && SpacesThenYear(s, k).value <= y ==>
      SpacesThenYear(s[x..y], k - x) == Some(SpacesThenYear(s, k).value - x)
  {
    var t := s[x..y];
    SkipSpacesWindow(s, x, y, k - x);
    var w := SkipSpaces(s, k);
    var wt := SkipSpaces(t, k - x);
    if wt + 4 <= |t| || w + 4 <= y {
      assert x + wt == w;
      SliceOfSlice(s, x, y, wt, wt + 4);
    }
  }

  /** An article heading at the start of a window is one of the whole string. */
  lemma MarkerFromWindow(s: string, x: nat, y: nat)
    requires x <= y <= |s| && MarkerAt(s[x..y], 0, "P").Some?
    ensures MarkerAt(s, x, "P").Some?
  {
    SliceOfSlice(s, x, y, 1, 5);
    SpacesThenDigitsWindow(s, x, y, 5);
  }

  lemma MonthYearFromWindow(s: string, x: nat, y: nat)
    requires x <= y <= |s| && MonthYearAt(s[x..y], 0).Some?
    ensures MonthYearAt(s, x).Some?
  {
    MonthFromWindow(s, x, y);
    SpacesThenYearWindow(s, x, y, MonthAt(s, x, false).value);
  }

  /** A heading at the start of a window `w` of `s` is a heading of `s`. */
  lemma HeadingFromWindow(h: Heading, s: string, x: nat, y: nat, w: string)
    requires x <= y <= |s| && w == s[x..y] && HeadingAt(h, w, 0).Some?
    ensures HeadingAt(h, s, x).Some?
  {
    if h == ArticleHeading {
      MarkerFromWindow(s, x, y);
    } else {
      MonthYearFromWindow(s, x, y);
    }
  }

  /** An article heading, cut out of its string, is one from end to end, and
      has no surrounding whitespace. */
  lemma MarkerInOwnWindow(s: string, i: nat)
    requires i <= |s| && MarkerAt(s, i, "P").Some?
    ensures MarkerAt(s[i..MarkerAt(s, i, "P").value], 0, "P") == Some(MarkerAt(s, i, "P").value - i)
    ensures Strip(s[i..MarkerAt(s, i, "P").value]) == s[i..MarkerAt(s, i, "P").value]
  {
    var e := MarkerAt(s, i, "P").value;
    SliceOfSlice(s, i, e, 1, 5);
    SpacesThenDigitsWindow(s, i, e, 5);
    assert s[i] == 'P';
    assert IsDigit(s[e - 1]);
    StripTrimmed(s[i..e]);
  }

  /** The number `re.search` finds in an article heading cut out of its
      string is the number of the heading. */
  lemma MarkerNumberInOwnWindow(s: string, i: nat)
    requires i <= |s| && MarkerAt(s, i, "P").Some?
    ensures SearchNumber(ArticleMarker, s[i..MarkerAt(s, i, "P").value]) == Some(MarkerNumber(s, i))
  {
    var e := MarkerAt(s, i, "P").value;
    var w := s[i..e];
    MarkerInOwnWindow(s, i);
    assert MatchAt(ArticleMarker, w, 0).Some?;
    assert Search(ArticleMarker, w).value.start == 0;
    WindowDigits(s, i, e);
  }

  /** The digits after an article heading's spaces, read in its own window. */
  lemma WindowDigits(s: string, i: nat, e: nat)
    requires i <= |s| && MarkerAt(s, i, "P") == Some(e)
    ensures e - i >= 5 && MarkerNumber(s[i..e], 0) == MarkerNumber(s, i)
  {
    var w := s[i..e];
    var d := SkipSpaces(s, i + 5);
    SkipSpacesWindow(s, i, e, 5);
    var dw := SkipSpaces(w, 5);
    assert i + dw == d;
    SkipDigitsWindow(s, i, e, dw);
    assert i + SkipDigits(w, dw) == e;
    SliceOfSlice(s, i, e, dw, e - i);
  }

  lemma MonthYearInOwnWindow(s: string, i: nat, e: nat)
    requires i <= |s| && MonthYearAt(s, i) == Some(e)
    ensures MonthYearAt(s[i..e], 0) == Some(e - i)
    ensures Strip(s[i..e]) == s[i..e]
  {
    var m := MonthAt(s, i, false).value;
    assert SpacesThenYear(s, m) == Some(e);
    MonthIntoWindow(s, i, e);
    assert MonthAt(s[i..e], 0, false) == Some(m - i);
    SpacesThenYearWindow(s, i, e, m);
    assert SpacesThenYear(s[i..e], m - i) == Some(e - i);
    MonthYearTrimmed(s, i);
  }

  lemma MonthYearTrimmed(s: string, i: nat)
    requires i <= |s| && MonthYearAt(s, i).Some?
    ensures Strip(s[i..MonthYearAt(s, i).value]) == s[i..MonthYearAt(s, i).value]
  {
    var e := MonthYearAt(s, i).value;
    MonthStartsWithLetter(s, i, false);
    YearEndsWithDigit(s, MonthAt(s, i, false).value);
    var t := s[i..e];
    assert t[0] == s[i] && t[|t| - 1] == s[e - 1];
    StripTrimmed(t);
  }

  lemma MonthStartsWithLetter(s: string, i: nat, ignoreCase: bool)
    requires MonthAt(s, i, ignoreCase).Some?
    ensures i < |s| && IsLetter(s[i])
  {
    var k := MonthAtIndex(s, i, ignoreCase);
    MonthKeys(k);
    var w := Months[k];
    if ignoreCase {
      assert LowerStr(s[i..i + |w|])[0] == LowerStr(w)[0];
    } else {
      assert s[i..i + |w|][0] == w[0];
    }
  }

  lemma YearEndsWithDigit(s: string, k: nat)
    requires k <= |s| && SpacesThenYear(s, k).Some?
    ensures IsDigit(s[SpacesThenYear(s, k).value - 1])
  {
    var w := SkipSpaces(s, k);
    assert s[w..w + 4][3] == s[w + 3];
  }

  /** A separator passes the splitters' boundary test. */
  lemma SeparatorIsBoundary(h: Heading, s: string, i: nat)
    requires i <= |s| && HeadingAt(h, s, i).Some?
    ensures IsBoundary(h, s[i..HeadingAt(h, s, i).value])
  {
    if h == ArticleHeading {
      MarkerInOwnWindow(s, i);
    } else {
      MonthYearInOwnWindow(s, i, HeadingAt(h, s, i).value);
    }
  }

  /** A piece that passes the boundary test has a heading starting inside it,
      just after its leading whitespace. */
  lemma BoundaryHeading(h: Heading, s: string, g: nat, i: nat, t: string) returns (a: nat)
    requires g <= i <= |s| && t == s[g..i] && IsBoundary(h, t)
    ensures g <= a < i && HeadingAt(h, s, a).Some?
  {
    var r := Strip(t);
    assert HeadingAt(h, r, 0).Some?;
    a := StrippedSlice(s, g, i, t, r);
    HeadingFromWindow(h, s, a, a + |r|, r);
  }

  /** What `strip` keeps of a slice `t` of `s` is itself a slice of `s`. */
  lemma StrippedSlice(s: string, g: nat, i: nat, t: string, r: string) returns (a: nat)
    requires g <= i <= |s| && t == s[g..i] && r == Strip(t) && r != ""
    ensures g <= a && a + |r| <= i && r == s[a..a + |r|]
  {
    var k := SkipSpaces(t, 0);
    assert r == t[k..k + |r|];
    SliceOfSlice(s, g, i, k, k + |r|);
    a := g + k;
  }

  /** A stretch of text in which no heading starts fails the boundary test. */
  lemma GapIsNotBoundary(h: Heading, s: string, g: nat, i: nat)
    requires g <= i <= |s|
    requires forall j :: g <= j < i ==> HeadingAt(h, s, j).None?
    ensures !IsBoundary(h, s[g..i])
  {
    if IsBoundary(h, s[g..i]) {
      var a := BoundaryHeading(h, s, g, i, s[g..i]);
    }
  }

  /** `re.split`'s pieces, read in order, give back the text. */
  lemma {:induction false} SplitReassembles(s: string, m: seq<Option<nat>>, g: nat, i: nat)
    requires |m| == |s| && ValidTable(m) && g <= i <= |s|
    ensures Flatten(SplitFrom(s, m, g, i)) == s[g..]
    decreases |s| - i
  {
    if i == |s| {
      FlattenAppend([], s[g..i]);
    } else if m[i].Some? {
      var e := m[i].value;
      SplitReassembles(s, m, e, e);
      var rest := SplitFrom(s, m, e, e);
      assert SplitFrom(s, m, g, i) == [s[g..i], s[i..e]] + rest;
      FlattenPrefix2(s[g..i], s[i..e], rest);
      SliceConcat3(s, g, i, e);
    } else {
      SplitReassembles(s, m, g, i + 1);
    }
  }

  /** With no match left to find, `re.split` returns the rest of the text whole. */
  lemma {:induction false} SplitNoMatch(s: string, m: seq<Option<nat>>, g: nat, i: nat)
    requires |m| == |s| && ValidTable(m) && g <= i <= |s| && NoneIn(m, i, |s|)
    ensures SplitFrom(s, m, g, i) == [s[g..]]
    decreases |s| - i
  {
    if i < |s| {
      assert m[i].None?;
      assert NoneIn(m, i + 1, |s|);
      SplitNoMatch(s, m, g, i + 1);
      assert SplitFrom(s, m, g, i) == SplitFrom(s, m, g, i + 1);
    } else {
      assert s[g..i] == s[g..];
    }
  }

  /** `re.split`'s first piece runs up to the first match, or to the end. */
  lemma {:induction false} SplitFirst(s: string, m: seq<Option<nat>>, g: nat, i: nat)
    requires |m| == |s| && ValidTable(m) && g <= i <= |s|
    ensures g <= GapEnd(|s|, ScanFrom(m, i), 0) <= |s|
    ensures SplitFrom(s, m, g, i)[0] == s[g..GapEnd(|s|, ScanFrom(m, i), 0)]
    decreases |s| - i
  {
    if i < |s| && m[i].None? {
      SplitFirst(s, m, g, i + 1);
    }
  }

  /** `re.split` yields one more text piece than there are matches, and its
      odd-indexed pieces are the matched texts, in order. */
  lemma {:induction false} SplitShape(s: string, m: seq<Option<nat>>, g: nat, i: nat)
    requires |m| == |s| && ValidTable(m) && g <= i <= |s|
    ensures |SplitFrom(s, m, g, i)| == 2 * |ScanFrom(m, i)| + 1
    ensures forall k :: 0 <= k < |ScanFrom(m, i)| ==>
      SplitFrom(s, m, g, i)[2 * k + 1] == s[ScanFrom(m, i)[k].start..ScanFrom(m, i)[k].end]
    decreases |s| - i
  {
    if i < |s| {
      match m[i]
      case Some(e) =>
        SplitShape(s, m, e, e);
        ShapeCons(s, i, e, SplitFrom(s, m, g, i), s[g..i], SplitFrom(s, m, e, e), ScanFrom(m, i), ScanFrom(m, e));
      case None =>
        SplitShape(s, m, g, i + 1);
    }
  }

  /** One step of `SplitShape`: a gap and a separator in front of pieces of
      the right shape keep the shape. */
  lemma ShapeCons(s: string, i: nat, e: nat, parts: seq<string>, gap: string, rest: seq<string>,
                  spans: seq<Span>, more: seq<Span>)
    requires i <= e <= |s|
    requires parts == [gap, s[i..e]] + rest && spans == [Span(i, e)] + more
    requires forall k :: 0 <= k < |more| ==> more[k].start <= more[k].end <= |s|
    requires |rest| == 2 * |more| + 1
    requires forall k :: 0 <= k < |more| ==> rest[2 * k + 1] == s[more[k].start..more[k].end]
    ensures |parts| == 2 * |spans| + 1
    ensures forall k :: 0 <= k < |spans| ==> parts[2 * k + 1] == s[spans[k].start..spans[k].end]
  {
    forall k | 0 <= k < |spans|
      ensures parts[2 * k + 1] == s[spans[k].start..spans[k].end]
    {
      if k > 0 {
        assert parts[2 * k + 1] == rest[2 * (k - 1) + 1];
      }
    }
  }

  /** `test` holds of a piece exactly when the piece sits at an odd index. */
  ghost predicate Alternating(test: string -> bool, parts: seq<string>) {
    forall k :: 0 <= k < |parts| ==> (test(parts[k]) <==> k % 2 == 1)
  }

  lemma AlternatingCons(test: string -> bool, gap: string, sep: string, rest: seq<string>)
    requires !test(gap) && test(sep) && Alternating(test, rest)
    ensures Alternating(test, [gap, sep] + rest)
  {
    var parts := [gap, sep] + rest;
    forall k | 2 <= k < |parts|
      ensures test(parts[k]) <==> k % 2 == 1
    {
      assert parts[k] == rest[k - 2];
    }
  }

  /** The splitters' boundary test, as a function value. */
  function BoundaryTest(h: Heading): string -> bool {
    part => IsBoundary(h, part)
  }

  /** A test tells a table's pieces apart when every separator passes it and
      no stretch free of match starts does. */
  ghost predicate Separates(test: string -> bool, s: string, m: seq<Option<nat>>)
    requires |m| == |s| && ValidTable(m)
  {
    (forall x :: 0 <= x < |s| && m[x].Some? ==> test(s[x..m[x].value])) &&
    (forall x, y {:trigger NoneIn(m, x, y)} :: 0 <= x <= y <= |s| && NoneIn(m, x, y) ==> !test(s[x..y]))
  }

  /** `re.split`'s pieces alternate between text and separators, and a test
      that separates the table tells them apart. */
  lemma {:induction false} SplitAlternates(test: string -> bool, s: string, m: seq<Option<nat>>, g: nat, i: nat)
    requires |m| == |s| && ValidTable(m) && g <= i <= |s|
    requires Separates(test, s, m) && NoneIn(m, g, i)
    ensures Alternating(test, SplitFrom(s, m, g, i))
    decreases |s| - i
  {
    if i < |s| {
      match m[i]
      case Some(e) =>
        SplitAlternates(test, s, m, e, e);
        AlternatingCons(test, s[g..i], s[i..e], SplitFrom(s, m, e, e));
      case None =>
        SplitAlternates(test, s, m, g, i + 1);
    }
  }

  /** The boundary test separates the heading table. */
  lemma BoundaryTestSeparates(h: Heading, s: string)
    ensures Separates(BoundaryTest(h), s, Headings(h, s))
  {
    var m := Headings(h, s);
    forall x | 0 <= x < |s| && m[x].Some?
      ensures BoundaryTest(h)(s[x..m[x].value])
    {
      SeparatorIsBoundary(h, s, x);
    }
    forall x, y | 0 <= x <= y <= |s| && NoneIn(m, x, y)
      ensures !BoundaryTest(h)(s[x..y])
    {
      GapIsNotBoundary(h, s, x, y);
    }
  }

  /** The facts the splitting strategies rely on, for a whole text. */
  lemma SplitFacts(h: Heading, s: string)
    ensures |Split(h, s)| == 2 * |FindAll(PatternOf(h), s)| + 1
    ensures forall k :: 0 <= k < |FindAll(PatternOf(h), s)| ==>
      Split(h, s)[2 * k + 1] == s[FindAll(PatternOf(h), s)[k].start..FindAll(PatternOf(h), s)[k].end]
    ensures Alternating(BoundaryTest(h), Split(h, s))
    ensures Flatten(Split(h, s)) == s
  {
    HeadingsArePatternMatches(h, s);
    SplitShape(s, Headings(h, s), 0, 0);
    BoundaryTestSeparates(h, s);
    SplitAlternates(BoundaryTest(h), s, Headings(h, s), 0, 0);
    SplitReassembles(s, Headings(h, s), 0, 0);
  }

  /** `re.split`'s pieces named by the matched headings: the `k`-th odd piece
      is the `k`-th heading's text, and the boundary test picks out the odd pieces. */
  lemma SplitHeads(h: Heading, s: string)
    ensures var parts, heads := Split(h, s), Texts(s, FindAll(PatternOf(h), s));
      && |parts| == 2 * |heads| + 1
      && (forall k :: 0 <= k < |heads| ==> parts[2 * k + 1] == heads[k])
      && (forall k :: 0 <= k < |parts| ==> (IsBoundary(h, parts[k]) <==> k % 2 == 1))
  {
    SplitFacts(h, s);
  }

  /** `re.match(<heading>, part.strip()).group(1)`: the heading text at the
      start of the stripped piece. */
  function MatchedHeading(h: Heading, part: string): (r: Option<string>)
    ensures r.Some? <==> IsBoundary(h, part)
  {
    var t := Strip(part);
    match HeadingAt(h, t, 0)
    case Some(e) => Some(t[..e])
    case None => None
  }

  /** A month heading cut out of its string is matched whole. */
  lemma MonthHeadingInOwnWindow(s: string, i: nat, e: nat)
    requires i < |s| && Table(MonthYear, s)[i] == Some(e)
    ensures i < e <= |s| && MatchedHeading(MonthHeading, s[i..e]) == Some(s[i..e])
  {
    MonthYearEntry(s, i, e);
    MonthYearInOwnWindow(s, i, e);
    var w := s[i..e];
    assert |w| == e - i;
    WholeMonthHeading(w);
  }

  /** An entry of the month-heading table is a month heading's end. */
  lemma MonthYearEntry(s: string, i: nat, e: nat)
    requires i < |s| && Table(MonthYear, s)[i] == Some(e)
    ensures MonthYearAt(s, i) == Some(e) && i < e <= |s|
  {
    assert MatchAt(MonthYear, s, i) == Some(e);
  }

  /** A stripped string that is one month heading end to end is matched whole. */
  lemma WholeMonthHeading(w: string)
    requires MonthYearAt(w, 0) == Some(|w|) && Strip(w) == w
    ensures MatchedHeading(MonthHeading, w) == Some(w)
  {
    assert HeadingAt(MonthHeading, w, 0) == Some(|w|);
    assert w[..|w|] == w;
  }

  /** Searching each article heading found in a text gives its number. */
  lemma FoundArticleNumbers(text: string)
    ensures var f, nums := FindAll(ArticleMarker, text), MarkerNumbers(ArticleMarker, text);
      forall k :: 0 <= k < |f| ==> SearchNumber(ArticleMarker, text[f[k].start..f[k].end]) == Some(nums[k])
  {
    var f := FindAll(ArticleMarker, text);
    FindAllIsScan(ArticleMarker, text, f);
    forall k | 0 <= k < |f|
      ensures SearchNumber(ArticleMarker, text[f[k].start..f[k].end]) == Some(MarkerNumbers(ArticleMarker, text)[k])
    {
      assert Table(ArticleMarker, text)[f[k].start] == Some(f[k].end);
      MarkerNumberInOwnWindow(text, f[k].start);
    }
  }

  /** Matching each month heading found in a text gives the heading itself. */
  lemma FoundMonthHeadings(text: string)
    ensures var f := FindAll(MonthYear, text);
      forall k :: 0 <= k < |f| ==> MatchedHeading(MonthHeading, text[f[k].start..f[k].end]) == Some(Texts(text, f)[k])
  {
    var f := FindAll(MonthYear, text);
    FindAllIsScan(MonthYear, text, f);
    forall k | 0 <= k < |f|
      ensures MatchedHeading(MonthHeading, text[f[k].start..f[k].end]) == Some(text[f[k].start..f[k].end])
    {
      assert Table(MonthYear, text)[f[k].start] == Some(f[k].end);
      MonthHeadingInOwnWindow(text, f[k].start, f[k].end);
    }
  }
}
