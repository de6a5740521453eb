/** Hand-written scanners for the regular expressions of the Python backend.

    Each constructor of `Pattern` is one regex; `MatchAt` says whether Python's
    backtracking engine finds a match starting at a given position and where
    it ends. `FindAll`, `Search` and `Split` are `re.findall`, `re.search`
    and `re.split` (the pattern's single group captures the whole match, so
    `re.split` keeps the separators). Character classes are the ASCII ones of
    module `Text`. */
module Patterns {
  import opened Wrappers
  import opened Text

  /** The twelve month names, in calendar order, as `utils.py`, `document_strategies.py` and `table_extractor.py` list them. */
  const Months: seq<string> := ["Januari", "Februari", "Maret", "April", "Mei", "Juni",
                                "Juli", "Agustus", "September", "Oktober", "November", "Desember"]

  /** `word` is spelled at position `i` of `s`: exactly, or up to ASCII case when `ignoreCase`. */
  predicate SpelledAt(s: string, i: nat, word: string, ignoreCase: bool) {
    && i + |word| <= |s|
    && if ignoreCase then LowerStr(s[i..i + |word|]) == LowerStr(word) else s[i..i + |word|] == word
  }

  /** Recovers a month's position in `Months` from its first three lower-cased letters. */
  function MonthIndexOfKey(a: char, b: char, c: char): nat {
    if a == 'j' then (if b == 'a' then 0 else if c == 'n' then 5 else 6)
    else if a == 'f' then 1
    else if a == 'm' then (if b == 'a' then 2 else 4)
    else if a == 'a' then (if b == 'p' then 3 else 7)
    else if a == 's' then 8
    else if a == 'o' then 9
    else if a == 'n' then 10
    else 11
  }

  /** No two month names share their first three letters, whatever the case. */
  lemma MonthKeys(k: nat)
    requires k < |Months|
    ensures |Months[k]| >= 3 && IsLetter(Months[k][0])
    ensures MonthIndexOfKey(Lower(Months[k][0]), Lower(Months[k][1]), Lower(Months[k][2])) == k
  {
  }

  /** At most one month name is spelled at any position: no name is a prefix of another. */
  lemma MonthSpelledOnce(s: string, i: nat, k: nat, l: nat, ignoreCase: bool)
    requires k < |Months| && l < |Months|
    requires SpelledAt(s, i, Months[k], ignoreCase) && SpelledAt(s, i, Months[l], ignoreCase)
    ensures k == l
  {
    MonthKeys(k);
    MonthKeys(l);
    var mk, ml := Months[k], Months[l];
    forall j | 0 <= j < 3
      ensures Lower(mk[j]) == Lower(ml[j])
    {
      if ignoreCase {
        assert LowerStr(s[i..i + |mk|])[j] == Lower(s[i + j]);
        assert LowerStr(s[i..i + |ml|])[j] == Lower(s[i + j]);
        assert LowerStr(mk)[j] == Lower(mk[j]);
        assert LowerStr(ml)[j] == Lower(ml[j]);
      } else {
        assert s[i..i + |mk|][j] == s[i + j] == mk[j];
        assert s[i..i + |ml|][j] == s[i + j] == ml[j];
      }
    }
  }

  /** The month whose name could start at `i`, told apart by its first three letters. */
  function MonthKeyAt(s: string, i: nat): (k: nat)
    requires i + 3 <= |s|
    ensures k < |Months|
  {
    MonthIndexOfKey(Lower(s[i]), Lower(s[i + 1]), Lower(s[i + 2]))
  }

  /** The end of the month name spelled at `i`, if any: `(Januari|...|Desember)`,
      exactly or ignoring case. */
  function MonthAt(s: string, i: nat, ignoreCase: bool): (r: Option<nat>)
    ensures r.Some? ==> i < r.value <= |s|
  {
    if i + 3 <= |s| && SpelledAt(s, i, Months[MonthKeyAt(s, i)], ignoreCase) then
      MonthKeys(MonthKeyAt(s, i));
      Some(i + |Months[MonthKeyAt(s, i)]|)
    else None
  }

  /** The month `MonthAt` reports, as an index into `Months`. */
  lemma MonthAtIndex(s: string, i: nat, ignoreCase: bool) returns (k: nat)
    requires MonthAt(s, i, ignoreCase).Some?
    ensures k < |Months| && SpelledAt(s, i, Months[k], ignoreCase)
    ensures MonthAt(s, i, ignoreCase) == Some(i + |Months[k]|)
  {
    k := MonthKeyAt(s, i);
  }

  /** A spelled month is the one `MonthAt` reports. */
  lemma MonthAtSpelled(s: string, i: nat, k: nat, ignoreCase: bool)
    requires k < |Months| && SpelledAt(s, i, Months[k], ignoreCase)
    ensures MonthAt(s, i, ignoreCase) == Some(i + |Months[k]|)
  {
    MonthKeys(k);
    SpelledLowers(s, i, Months[k], ignoreCase);
    assert MonthKeyAt(s, i) == k;
  }

  /** A spelled word's first three letters, lowered, are those of the text. */
  lemma SpelledLowers(s: string, i: nat, w: string, ignoreCase: bool)
    requires |w| >= 3 && SpelledAt(s, i, w, ignoreCase)
    ensures Lower(s[i]) == Lower(w[0]) && Lower(s[i + 1]) == Lower(w[1]) && Lower(s[i + 2]) == Lower(w[2])
  {
    forall j | 0 <= j < 3
      ensures Lower(s[i + j]) == Lower(w[j])
    {
      if ignoreCase {
        assert LowerStr(s[i..i + |w|])[j] == Lower(s[i + j]);
        assert LowerStr(w)[j] == Lower(w[j]);
      } else {
        assert s[i..i + |w|][j] == s[i + j];
      }
    }
  }

  /** The alternation as the regex engine runs it: the first month name, from
      index `k` of `Months` on, spelled at `i`. */
  function MonthFrom(s: string, i: nat, ignoreCase: bool, k: nat): (r: Option<nat>)
    requires k <= |Months|
    ensures r.Some? ==> k <= r.value < |Months| && SpelledAt(s, i, Months[r.value], ignoreCase)
    decreases |Months| - k
  {
    if k == |Months| then None
    else if SpelledAt(s, i, Months[k], ignoreCase) then Some(k)
    else MonthFrom(s, i, ignoreCase, k + 1)
  }

  lemma {:induction false} MonthFromFinds(s: string, i: nat, ignoreCase: bool, k: nat, m: nat)
    requires k <= m < |Months| && SpelledAt(s, i, Months[m], ignoreCase)
    ensures MonthFrom(s, i, ignoreCase, k).Some?
    decreases |Months| - k
  {
    if k < m && !SpelledAt(s, i, Months[k], ignoreCase) {
      MonthFromFinds(s, i, ignoreCase, k + 1, m);
    }
  }

  /** Picking the month by its first letters agrees with trying the names in order. */
  lemma MonthAtIsAlternation(s: string, i: nat, ignoreCase: bool)
    ensures MonthAt(s, i, ignoreCase).None? <==> MonthFrom(s, i, ignoreCase, 0).None?
    ensures MonthFrom(s, i, ignoreCase, 0).Some? ==>
      MonthAt(s, i, ignoreCase) == Some(i + |Months[MonthFrom(s, i, ignoreCase, 0).value]|)
  {
    if MonthFrom(s, i, ignoreCase, 0).Some? {
      AlternationFound(s, i, ignoreCase);
    }
    if MonthAt(s, i, ignoreCase).Some? {
      AlternationMisses(s, i, ignoreCase);
    }
  }

  lemma AlternationFound(s: string, i: nat, ignoreCase: bool)
    requires MonthFrom(s, i, ignoreCase, 0).Some?
    ensures MonthAt(s, i, ignoreCase) == Some(i + |Months[MonthFrom(s, i, ignoreCase, 0).value]|)
  {
    var m := MonthFrom(s, i, ignoreCase, 0).value;
    MonthAtSpelled(s, i, m, ignoreCase);
  }

  lemma AlternationMisses(s: string, i: nat, ignoreCase: bool)
    requires MonthAt(s, i, ignoreCase).Some?
    ensures MonthFrom(s, i, ignoreCase, 0).Some?
  {
    var k := MonthAtIndex(s, i, ignoreCase);
    MonthFromFinds(s, i, ignoreCase, 0, k);
  }

  /** The regex `\b` at position `i`. */
  predicate WordBoundary(s: string, i: nat)
    requires i <= |s|
  {
    (i > 0 && IsWordChar(s[i - 1])) != (i < |s| && IsWordChar(s[i]))
  }

  /** `\s+\d+` at `k`: the end of the digits. */
  function SpacesThenDigits(s: string, k: nat): (r: Option<nat>)
    requires k <= |s|
    ensures r.Some? ==> k < r.value <= |s|
  {
    var w := SkipSpaces(s, k);
    if w == k then None
    else
      var e := SkipDigits(s, w);
      if e == w then None else Some(e)
  }

  /** `\s+\d{4}` at `k`: the end of the year. */
  function SpacesThenYear(s: string, k: nat): (r: Option<nat>)
    requires k <= |s|
    ensures r.Some? ==> k < r.value <= |s|
  {
    var w := SkipSpaces(s, k);
    if w > k && w + 4 <= |s| && AllDigits(s[w..w + 4]) then Some(w + 4) else None
  }

  /** `\s*(\d{4})?` at `k`: greedy spaces, then a year if one follows. */
  function OptionalYear(s: string, k: nat): (r: nat)
    requires k <= |s|
    ensures k <= r <= |s|
  {
    var w := SkipSpaces(s, k);
    if w + 4 <= |s| && AllDigits(s[w..w + 4]) then w + 4 else w
  }

  /** `\b(Januari|...|Desember)\b` with `re.IGNORECASE` at `i`. */
  function MonthWordAt(s: string, i: nat): (r: Option<nat>)
    requires i <= |s|
    ensures r.Some? ==> i < r.value <= |s|
  {
    if !WordBoundary(s, i) then None
    else match MonthAt(s, i, true)
      case Some(e) => if WordBoundary(s, e) then Some(e) else None
      case None => None
  }

  predicate IsDateFiller(c: char) {
    IsSpace(c) || IsDigit(c) || c == '-'
  }

  /** The end of the run of spaces, digits and dashes starting at `i`. */
  function SkipDateFiller(s: string, i: nat): (k: nat)
    requires i <= |s|
    ensures i <= k <= |s|
    ensures forall j :: i <= j < k ==> IsDateFiller(s[j])
    ensures k < |s| ==> !IsDateFiller(s[k])
    decreases |s| - i
  {
    if i == |s| || !IsDateFiller(s[i]) then i else SkipDateFiller(s, i + 1)
  }

  /** `t` is in the language of `\d{1,2}\s*-?\s*(\d{1,2})?\s*`: a first day, an
      optional dash, an optional second day. Greedy scanning decides it because
      the classes are disjoint; when no dash and no later digits follow the
      first digit run, the two day groups can share that run, so up to four
      digits are accepted. */
  predicate DayRangeShape(t: string) {
    var a := SkipDigits(t, 0);
    var x1 := SkipSpaces(t, a);
    var x2 := if x1 < |t| && t[x1] == '-' then x1 + 1 else x1;
    var x3 := SkipSpaces(t, x2);
    var b := SkipDigits(t, x3);
    && 1 <= a
    && SkipSpaces(t, b) == |t|
    && if x2 == x1 && b == x3 then a <= 4 else a <= 2 && b - x3 <= 2
  }

  /** `\d{1,2}\s+<month>\s+\d{4}` at `i`. `\d{1,2}` must take the whole digit run,
      since `\s+` cannot start on a digit. */
  function DayMonthYearAt(s: string, i: nat, ignoreCase: bool): (r: Option<nat>)
    requires i <= |s|
    ensures r.Some? ==> i < r.value <= |s|
  {
    var d := SkipDigits(s, i);
    if d == i || d > i + 2 then None
    else
      var w := SkipSpaces(s, d);
      if w == d then None
      else match MonthAt(s, w, ignoreCase)
        case Some(e) => SpacesThenYear(s, e)
        case None => None
  }

  /** Where the day of a date mention starts: after a `tanggal` prefix when one
      (with spaces and a digit after it) is there, else at `i` itself. */
  function DayStart(s: string, i: nat): (r: Option<nat>)
    requires i <= |s|
    ensures r.Some? ==> i <= r.value < |s| && IsDigit(s[r.value])
  {
    if SpelledAt(s, i, "tanggal", true) then
      var w := SkipSpaces(s, i + 7);
      if w > i + 7 && w < |s| && IsDigit(s[w]) then Some(w) else None
    else if i < |s| && IsDigit(s[i]) then Some(i)
    else None
  }

  /** `[<initials>]asal\s+\d+` at `i`: an article heading such as `Pasal 12`,
      whose first letter is one of `initials`. */
  function MarkerAt(s: string, i: nat, initials: string): (r: Option<nat>)
    requires i <= |s|
    ensures r.Some? ==> i < r.value <= |s|
  {
    if i + 5 <= |s| && s[i] in initials && s[i + 1..i + 5] == "asal" then SpacesThenDigits(s, i + 5) else None
  }

  /** `(Januari|...|Desember)\s+\d{4}` at `i`: a month heading such as `Maret 2024`. */
  function MonthYearAt(s: string, i: nat): (r: Option<nat>)
    requires i <= |s|
    ensures r.Some? ==> i < r.value <= |s|
  {
    match MonthAt(s, i, false)
    case Some(e) => SpacesThenYear(s, e)
    case None => None
  }

  /** The end of `(\d{1,2})` for a day starting at digit `d`: greedy, so two
      digits when two are there. */
  function DayEnd(s: string, d: nat): (r: nat)
    requires d < |s| && IsDigit(s[d])
    ensures d < r <= d + 2 && r <= |s|
  {
    if d + 1 < |s| && IsDigit(s[d + 1]) then d + 2 else d + 1
  }

  /** The optional `\s+(\b<month>\b)` after a day ending at `dayEnd`: the span
      of the month word when it is there. */
  function MonthAfterDay(s: string, dayEnd: nat): (r: Option<Span>)
    requires dayEnd <= |s|
    ensures r.Some? ==> dayEnd < r.value.start < r.value.end <= |s|
  {
    var w := SkipSpaces(s, dayEnd);
    if w > dayEnd && MonthWordAt(s, w).Some? then Some(Span(w, MonthWordAt(s, w).value)) else None
  }

  /** `(?:tanggal\s+)?(\d{1,2})(?:\s+(\b<month>\b))?` ignoring case, at `i`. */
  function DateMentionAt(s: string, i: nat): (r: Option<nat>)
    requires i <= |s|
    ensures r.Some? ==> i < r.value <= |s|
  {
    match DayStart(s, i)
    case None => None
    case Some(d) =>
      match MonthAfterDay(s, DayEnd(s, d))
      case Some(m) => Some(m.end)
      case None => Some(DayEnd(s, d))
  }

  /** `\b[a-zA-Z]{3,}\b` at `i`. */
  function WordAt(s: string, i: nat): (r: Option<nat>)
    requires i <= |s|
    ensures r.Some? ==> i < r.value <= |s|
  {
    var e := SkipLetters(s, i);
    if WordBoundary(s, i) && e >= i + 3 && WordBoundary(s, e) then Some(e) else None
  }

  /** `(\d{1,2})\s*-?\s*(\d{1,2})?\s*(<month>)\s*(\d{4})?` ignoring case, at `i`.
      Everything before the month is spaces, digits and dashes, so the month
      must start where that run ends. */
  function DayRangeAt(s: string, i: nat): (r: Option<nat>)
    requires i <= |s|
    ensures r.Some? ==> i < r.value <= |s|
  {
    if i < |s| && IsDigit(s[i]) then
      var q := SkipDateFiller(s, i);
      if DayRangeShape(s[i..q]) then
        match MonthAt(s, q, true)
        case Some(e) => Some(OptionalYear(s, e))
        case None => None
      else None
    else None
  }

  /** The regular expressions used by `utils.py`, `document_strategies.py` and `table_extractor.py`. */
  datatype Pattern =
    | ArticleMarker       // Pasal\s+\d+
    | LowerArticleMarker  // pasal\s+\d+
    | AnyArticleMarker    // [Pp]asal\s+\d+
    | MonthYear           // (Januari|...|Desember)\s+\d{4}
    | DayMonthYear        // \d{1,2}\s+(?:Januari|...|Desember)\s+\d{4}
    | DayMonthYearAnyCase // the same, ignoring case
    | MonthWord           // \b(Januari|...|Desember)\b, ignoring case
    | DateMention         // (?:tanggal\s+)?(\d{1,2})(?:\s+(\b(Januari|...)\b))?, ignoring case
    | Word                // \b[a-zA-Z]{3,}\b
    | DayRange            // (\d{1,2})\s*-?\s*(\d{1,2})?\s*(Januari|...)\s*(\d{4})?, ignoring case

  /** Whether `p` matches at position `i` of `s` and where the match ends. */
  function MatchAt(p: Pattern, s: string, i: nat): (r: Option<nat>)
    requires i <= |s|
    ensures r.Some? ==> i < r.value <= |s|
  {
    match p
    case ArticleMarker => MarkerAt(s, i, "P")
    case LowerArticleMarker => MarkerAt(s, i, "p")
    case AnyArticleMarker => MarkerAt(s, i, "Pp")
    case MonthYear => MonthYearAt(s, i)
    case DayMonthYear => DayMonthYearAt(s, i, false)
    case DayMonthYearAnyCase => DayMonthYearAt(s, i, true)
    case MonthWord => MonthWordAt(s, i)
    case DateMention => DateMentionAt(s, i)
    case Word => WordAt(s, i)
    case DayRange => DayRangeAt(s, i)
  }

  /** The day-range pattern matches where its scanner does. */
  lemma MatchAtDayRange(s: string, i: nat)
    requires i <= |s|
    ensures MatchAt(DayRange, s, i) == DayRangeAt(s, i)
  {
  }

  /** The case-blind day-month-year pattern matches where its scanner does. */
  lemma MatchAtDayMonthYear(s: string, i: nat)
    requires i <= |s|
    ensures MatchAt(DayMonthYearAnyCase, s, i) == DayMonthYearAt(s, i, true)
  {
  }

  /** A match table: entry `j` is where a match starting at `j` ends, if one does.
      Every match is non-empty and ends inside the text. */
  predicate ValidTable(m: seq<Option<nat>>) {
    forall j :: 0 <= j < |m| && m[j].Some? ==> j < m[j].value <= |m|
  }

  /** The match table of `p` over `s`. */
  function Table(p: Pattern, s: string): (m: seq<Option<nat>>)
    ensures |m| == |s| && ValidTable(m)
    ensures forall j :: 0 <= j < |s| ==> m[j] == MatchAt(p, s, j)
  {
    seq(|s|, j requires 0 <= j < |s| => MatchAt(p, s, j))
  }

  /** No match starts in `[a, b)`. */
  predicate NoneIn(m: seq<Option<nat>>, a: nat, b: nat)
    requires b <= |m|
  {
    forall j :: a <= j < b ==> m[j].None?
  }

  /** A match found by scanning: `text[start..end]`. */
  datatype Span = Span(start: nat, end: nat)

  /** The scan of `re.findall` from position `i`: take the leftmost match,
      resume at its end. */
  function ScanFrom(m: seq<Option<nat>>, i: nat): (r: seq<Span>)
    requires ValidTable(m) && i <= |m|
    ensures forall k :: 0 <= k < |r| ==> i <= r[k].start < r[k].end <= |m|
    decreases |m| - i
  {
    if i == |m| then []
    else match m[i]
      case Some(e) => [Span(i, e)] + ScanFrom(m, e)
      case None => ScanFrom(m, i + 1)
  }

  /** Where the `k`-th stretch between the spans of `r` starts and ends, for a
      scan from `i` over a text of length `n`: before the first span, between
      two spans, and after the last. */
  function GapStart(i: nat, r: seq<Span>, k: nat): nat
    requires k <= |r|
  {
    if k == 0 then i else r[k - 1].end
  }

  function GapEnd(n: nat, r: seq<Span>, k: nat): nat
    requires k <= |r|
  {
    if k == |r| then n else r[k].start
  }

  /** `r` is what scanning the table `m` from `i` must find: every span is a
      match of the table, the spans follow each other without overlap, and no
      match starts in any stretch between them. */
  ghost predicate IsScan(m: seq<Option<nat>>, i: nat, r: seq<Span>) {
    && (forall k :: 0 <= k < |r| ==> r[k].start < r[k].end <= |m| && m[r[k].start] == Some(r[k].end))
    && (forall k :: 0 <= k <= |r| ==> GapStart(i, r, k) <= GapEnd(|m|, r, k) <= |m|)
    && (forall k :: 0 <= k <= |r| ==> NoneIn(m, GapStart(i, r, k), GapEnd(|m|, r, k)))
  }

  /** The scan finds exactly the leftmost non-overlapping matches. */
  lemma {:induction false} ScanFromIsScan(m: seq<Option<nat>>, i: nat)
    requires ValidTable(m) && i <= |m|
    ensures IsScan(m, i, ScanFrom(m, i))
    decreases |m| - i
  {
    if i < |m| {
      match m[i]
      case Some(e) =>
        ScanFromIsScan(m, e);
        ScanCons(m, i, e, ScanFrom(m, e));
      case None =>
        ScanFromIsScan(m, i + 1);
        ScanUnskip(m, i, ScanFrom(m, i + 1));
    }
  }

  /** A scan from the next position is one from a position where no match starts. */
  lemma ScanUnskip(m: seq<Option<nat>>, i: nat, r: seq<Span>)
    requires i < |m| && m[i].None? && IsScan(m, i + 1, r)
    ensures IsScan(m, i, r)
  {
    assert GapStart(i + 1, r, 0) == i + 1;
    forall k | 0 < k <= |r|
      ensures GapStart(i, r, k) == GapStart(i + 1, r, k)
    {
    }
  }

  /** A match at `i` in front of a scan from its end is a scan from `i`. */
  lemma ScanCons(m: seq<Option<nat>>, i: nat, e: nat, rest: seq<Span>)
    requires i < |m| && m[i] == Some(e) && i < e <= |m| && IsScan(m, e, rest)
    ensures IsScan(m, i, [Span(i, e)] + rest)
  {
    var r := [Span(i, e)] + rest;
    forall k | 0 < k <= |r|
      ensures GapStart(i, r, k) == GapStart(e, rest, k - 1) && GapEnd(|m|, r, k) == GapEnd(|m|, rest, k - 1)
    {
    }
    assert GapStart(i, r, 0) == GapEnd(|m|, r, 0) == i;
  }

  /** Only one list of spans is a scan: `IsScan` pins `ScanFrom` down. */
  lemma {:induction false} ScanUnique(m: seq<Option<nat>>, i: nat, r: seq<Span>)
    requires ValidTable(m) && i <= |m| && IsScan(m, i, r)
    ensures r == ScanFrom(m, i)
    decreases |m| - i
  {
    if i == |m| {
      ScanAtEnd(m, i, r);
    } else if m[i].None? {
      ScanSkip(m, i, r);
      ScanUnique(m, i + 1, r);
    } else {
      ScanTail(m, i, r);
      ScanUnique(m, m[i].value, r[1..]);
      assert r == [r[0]] + r[1..];
    }
  }

  lemma ScanAtEnd(m: seq<Option<nat>>, i: nat, r: seq<Span>)
    requires i == |m| && IsScan(m, i, r)
    ensures r == []
  {
    assert GapStart(i, r, 0) == i;
  }

  /** A scan from a position where no match starts is a scan from the next one. */
  lemma ScanSkip(m: seq<Option<nat>>, i: nat, r: seq<Span>)
    requires i < |m| && m[i].None? && IsScan(m, i, r)
    ensures IsScan(m, i + 1, r)
  {
    assert GapStart(i, r, 0) == i;
    if |r| > 0 {
      assert GapEnd(|m|, r, 0) == r[0].start;
      assert r[0].start != i;
    } else {
      assert GapEnd(|m|, r, 0) == |m|;
    }
    forall k | 0 < k <= |r|
      ensures GapStart(i, r, k) == GapStart(i + 1, r, k)
    {
    }
  }

  /** A scan from a position where a match starts begins with that match. */
  lemma ScanTail(m: seq<Option<nat>>, i: nat, r: seq<Span>)
    requires i < |m| && m[i].Some? && IsScan(m, i, r)
    ensures |r| > 0 && r[0] == Span(i, m[i].value) && IsScan(m, m[i].value, r[1..])
  {
    var e := m[i].value;
    assert GapStart(i, r, 0) == i;
    assert GapEnd(|m|, r, 0) == r[0].start;
    assert NoneIn(m, i, r[0].start);
    var rest := r[1..];
    forall k | 0 <= k <= |rest|
      ensures GapStart(e, rest, k) == GapStart(i, r, k + 1) && GapEnd(|m|, rest, k) == GapEnd(|m|, r, k + 1)
    {
    }
  }

  /** `re.findall(p, s)`, as spans. */
  function FindAll(p: Pattern, s: string): (r: seq<Span>)
    ensures forall k :: 0 <= k < |r| ==> r[k].start < r[k].end <= |s|
  {
    ScanFrom(Table(p, s), 0)
  }

  /** `re.findall` finds the leftmost non-overlapping matches, and nothing else does. */
  lemma FindAllIsScan(p: Pattern, s: string, r: seq<Span>)
    ensures IsScan(Table(p, s), 0, FindAll(p, s))
    ensures IsScan(Table(p, s), 0, r) ==> r == FindAll(p, s)
  {
    ScanFromIsScan(Table(p, s), 0);
    if IsScan(Table(p, s), 0, r) {
      ScanUnique(Table(p, s), 0, r);
    }
  }

  /** The matched texts of a list of spans. */
  function Texts(s: string, spans: seq<Span>): (r: seq<string>)
    requires forall k :: 0 <= k < |spans| ==> spans[k].start <= spans[k].end <= |s|
    ensures |r| == |spans|
    ensures forall k :: 0 <= k < |spans| ==> r[k] == s[spans[k].start..spans[k].end]
  {
    seq(|spans|, k requires 0 <= k < |spans| => s[spans[k].start..spans[k].end])
  }

  /** `re.search`: the leftmost match. */
  function Search(p: Pattern, s: string): (r: Option<Span>)
    ensures r.Some? ==> r.value.start < r.value.end <= |s| && MatchAt(p, s, r.value.start) == Some(r.value.end)
    ensures r.Some? ==> forall j :: 0 <= j < r.value.start ==> MatchAt(p, s, j).None?
    ensures r.None? <==> forall j :: 0 <= j < |s| ==> MatchAt(p, s, j).None?
  {
    var m := Table(p, s);
    var all := ScanFrom(m, 0);
    ScanFromIsScan(m, 0);
    assert GapStart(0, all, 0) == 0;
    if |all| > 0 then
      assert GapEnd(|m|, all, 0) == all[0].start;
      assert forall j :: 0 <= j < all[0].start ==> m[j].None?;
      Some(all[0])
    else
      assert GapEnd(|m|, all, 0) == |m|;
      assert forall j :: 0 <= j < |s| ==> m[j].None?;
      None
  }

  /** `re.findall` finds nothing exactly when the pattern matches nowhere. */
  lemma FindAllEmpty(p: Pattern, s: string)
    ensures FindAll(p, s) == [] <==> forall j :: 0 <= j < |s| ==> MatchAt(p, s, j).None?
  {
    var m := Table(p, s);
    ScanFromIsScan(m, 0);
    if FindAll(p, s) == [] {
      assert GapStart(0, [], 0) == 0 && GapEnd(|m|, [], 0) == |m|;
    }
  }

  /** `p` matches somewhere in `s`. */
  predicate Matches(p: Pattern, s: string) {
    exists j :: 0 <= j < |s| && MatchAt(p, s, j).Some?
  }

  /** `i` is the leftmost position where `p` matches. */
  predicate FirstMatchAt(p: Pattern, s: string, i: nat) {
    i < |s| && MatchAt(p, s, i).Some? && forall j :: 0 <= j < i ==> MatchAt(p, s, j).None?
  }

  /** The number after the first article marker `Search` finds, as
      `int(match.group(1))`. */
  function SearchNumber(p: Pattern, s: string): (r: Option<nat>)
    requires p == ArticleMarker || p == LowerArticleMarker || p == AnyArticleMarker
    ensures r.Some? <==> Matches(p, s)
    ensures r.Some? ==> exists i: nat :: FirstMatchAt(p, s, i) && i + 5 <= |s| && r.value == MarkerNumber(s, i)
  {
    match Search(p, s)
    case Some(sp) =>
      assert MatchAt(p, s, sp.start).Some?;
      assert FirstMatchAt(p, s, sp.start);
      Some(MarkerNumber(s, sp.start))
    case None => None
  }

  /** The leftmost marker decides the number `SearchNumber` reads. */
  lemma SearchNumberAt(p: Pattern, s: string, i: nat)
    requires p == ArticleMarker || p == LowerArticleMarker || p == AnyArticleMarker
    requires FirstMatchAt(p, s, i)
    ensures i + 5 <= |s| && SearchNumber(p, s) == Some(MarkerNumber(s, i))
  {
    assert MatchAt(p, s, i).Some?;
    var sp := Search(p, s).value;
    assert sp.start == i;
  }

  /** The letters an article marker may start with. */
  function Initials(p: Pattern): string {
    match p
    case ArticleMarker => "P"
    case LowerArticleMarker => "p"
    case _ => "Pp"
  }

  /** No article marker starts at a character it cannot start with. */
  lemma NoMarkerBefore(p: Pattern, s: string, n: nat)
    requires p == ArticleMarker || p == LowerArticleMarker || p == AnyArticleMarker
    requires n <= |s| && forall j :: 0 <= j < n ==> s[j] !in Initials(p)
    ensures forall j :: 0 <= j < n ==> MatchAt(p, s, j).None?
  {
  }

  /** A date mention matches at every digit. */
  lemma DateMentionAtDigit(s: string, j: nat)
    requires j < |s| && IsDigit(s[j])
    ensures DateMentionAt(s, j).Some?
  {
    if j + 7 <= |s| {
      assert LowerStr(s[j..j + 7])[0] == Lower(s[j]);
      assert LowerStr("tanggal")[0] == 't';
    }
    assert !SpelledAt(s, j, "tanggal", true);
  }

  /** The date pattern finds something exactly when the text holds a digit. */
  lemma DateMentionFound(s: string)
    ensures FindAll(DateMention, s) != [] <==> exists j :: 0 <= j < |s| && IsDigit(s[j])
  {
    FindAllEmpty(DateMention, s);
    if j :| 0 <= j < |s| && IsDigit(s[j]) {
      DateMentionAtDigit(s, j);
      assert MatchAt(DateMention, s, j).Some?;
    }
    if FindAll(DateMention, s) != [] {
      var j :| 0 <= j < |s| && MatchAt(DateMention, s, j).Some?;
      var d := DayStart(s, j).value;
      assert IsDigit(s[d]);
    }
  }

  /** `\b[a-zA-Z]{3,}\b` matches runs of at least three letters. */
  predicate IsWord(w: string) {
    |w| >= 3 && forall m :: 0 <= m < |w| ==> IsLetter(w[m])
  }

  /** Every word `re.findall` returns is a run of at least three letters. */
  lemma FoundWords(s: string)
    ensures var ws := Texts(s, FindAll(Word, s));
      forall k :: 0 <= k < |ws| ==> IsWord(ws[k])
  {
    var f := FindAll(Word, s);
    FindAllIsScan(Word, s, f);
    forall k | 0 <= k < |f|
      ensures IsWord(s[f[k].start..f[k].end])
    {
      var i, e := f[k].start, f[k].end;
      assert Table(Word, s)[i] == Some(e);
      assert WordAt(s, i) == Some(e);
      assert e == SkipLetters(s, i);
      var w := s[i..e];
      forall m | 0 <= m < |w|
        ensures IsLetter(w[m])
      {
        assert w[m] == s[i + m];
      }
    }
  }

  /** `[int(m) for m in re.findall(p, s)]` for an article marker with one
      group around its digits: the number of every heading, in order. */
  function MarkerNumbers(p: Pattern, s: string): (r: seq<nat>)
    requires p == ArticleMarker || p == LowerArticleMarker || p == AnyArticleMarker
    ensures |r| == |FindAll(p, s)|
    ensures forall k :: 0 <= k < |r| ==>
      FindAll(p, s)[k].start + 5 <= |s| && r[k] == MarkerNumber(s, FindAll(p, s)[k].start)
  {
    var f := FindAll(p, s);
    FindAllIsScan(p, s, f);
    assert forall k :: 0 <= k < |f| ==> MatchAt(p, s, f[k].start).Some?;
    seq(|f|, k requires 0 <= k < |f| => MarkerNumber(s, f[k].start))
  }

  /** `re.split` with one group around the whole pattern, scanning from `i`
      with the current text piece starting at `gapStart`: text pieces and
      matched separators alternate, starting and ending with a text piece. */
  function SplitFrom(s: string, m: seq<Option<nat>>, gapStart: nat, i: nat): (r: seq<string>)
    requires |m| == |s| && ValidTable(m) && gapStart <= i <= |s|
    ensures |r| > 0
    decreases |s| - i
  {
    if i == |s| then [s[gapStart..i]]
    else match m[i]
      case Some(e) => [s[gapStart..i], s[i..e]] + SplitFrom(s, m, e, e)
      case None => SplitFrom(s, m, gapStart, i + 1)
  }

  /** The digits captured by `(\d+)` after an article marker at `i`. */
  function MarkerNumber(s: string, i: nat): nat
    requires i + 5 <= |s|
  {
    var w := SkipSpaces(s, i + 5);
    DigitsValue(s[w..SkipDigits(s, w)])
  }
}
