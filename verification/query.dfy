/** Reading a user's question: the article number a text names, and what a
    query asks for (articles, months, dates, keywords). */
module Query {
  import opened Wrappers
  import opened Text
  import opened Patterns

  // ----- extract_article_number -----

  /** `extract_article_number`: the number after the first `Pasal <n>`, or,
      when there is none, after the first `pasal <n>`. */
  function ExtractArticleNumber(text: string): (r: Option<nat>)
    ensures r.Some? <==> Matches(ArticleMarker, text) || Matches(LowerArticleMarker, text)
    ensures Matches(ArticleMarker, text) ==>
      exists i: nat :: FirstMatchAt(ArticleMarker, text, i) && i + 5 <= |text| && r == Some(MarkerNumber(text, i))
    ensures !Matches(ArticleMarker, text) && Matches(LowerArticleMarker, text) ==>
      exists i: nat :: FirstMatchAt(LowerArticleMarker, text, i) && i + 5 <= |text| && r == Some(MarkerNumber(text, i))
  {
    match SearchNumber(ArticleMarker, text)
    case Some(n) => Some(n)
    case None => SearchNumber(LowerArticleMarker, text)
  }

  /** `Pasal 13` is a heading reading 13. */
  lemma PlainHeading()
    ensures MarkerAt("Pasal 13", 0, "P") == Some(8) && MarkerNumber("Pasal 13", 0) == 13
  {
    var a := "Pasal 13";
    assert a[1..5] == "asal";
    assert SkipSpaces(a, 5) == 6 && SkipDigits(a, 6) == 8;
    assert a[6..8] == "13" && "13"[..1] == "1" && "1"[..0] == "";
  }

  /** The examples of the function's documentation. */
  lemma ExtractArticleNumberPlain()
    ensures ExtractArticleNumber("Pasal 13") == Some(13)
  {
    PlainHeading();
    SearchNumberAt(ArticleMarker, "Pasal 13", 0);
  }

  /** The heading of `BAB II Pasal 5` starts at 7 and reads 5. */
  lemma ChapterHeading()
    ensures MarkerAt("BAB II Pasal 5", 7, "P") == Some(14) && MarkerNumber("BAB II Pasal 5", 7) == 5
  {
    var b := "BAB II Pasal 5";
    assert b[8..12] == "asal";
    assert SkipSpaces(b, 12) == 13 && SkipDigits(b, 13) == 14;
    assert b[13..14] == "5" && "5"[..0] == "";
  }

  lemma ExtractArticleNumberAfterChapter()
    ensures ExtractArticleNumber("BAB II Pasal 5") == Some(5)
  {
    ChapterHeading();
    NoMarkerBefore(ArticleMarker, "BAB II Pasal 5", 7);
    SearchNumberAt(ArticleMarker, "BAB II Pasal 5", 7);
  }

  /** The capitalised heading of `pasal 3 dan Pasal 7` starts at 12 and reads 7. */
  lemma CapitalHeading()
    ensures MarkerAt("pasal 3 dan Pasal 7", 12, "P") == Some(19) && MarkerNumber("pasal 3 dan Pasal 7", 12) == 7
  {
    var c := "pasal 3 dan Pasal 7";
    assert c[13..17] == "asal";
    assert SkipSpaces(c, 17) == 18 && SkipDigits(c, 18) == 19;
    assert c[18..19] == "7" && "7"[..0] == "";
  }

  /** A capitalised heading wins over an earlier lower-case one. */
  lemma ExtractArticleNumberCapitalFirst()
    ensures ExtractArticleNumber("pasal 3 dan Pasal 7") == Some(7)
  {
    CapitalHeading();
    NoMarkerBefore(ArticleMarker, "pasal 3 dan Pasal 7", 12);
    SearchNumberAt(ArticleMarker, "pasal 3 dan Pasal 7", 12);
  }

  /** The heading of `Ayat (1) Pasal 20` starts at 9 and reads 20. */
  lemma SectionHeading()
    ensures MarkerAt("Ayat (1) Pasal 20", 9, "P") == Some(17) && MarkerNumber("Ayat (1) Pasal 20", 9) == 20
  {
    var e := "Ayat (1) Pasal 20";
    assert e[10..14] == "asal";
    assert SkipSpaces(e, 14) == 15 && SkipDigits(e, 15) == 17;
    assert e[15..17] == "20" && "20"[..1] == "2" && "2"[..0] == "";
  }

  /** A sub-section number before the heading is not read as the article. */
  lemma ExtractArticleNumberAfterSection()
    ensures ExtractArticleNumber("Ayat (1) Pasal 20") == Some(20)
  {
    SectionHeading();
    NoMarkerBefore(ArticleMarker, "Ayat (1) Pasal 20", 9);
    SearchNumberAt(ArticleMarker, "Ayat (1) Pasal 20", 9);
  }

  lemma ExtractArticleNumberAbsent()
    ensures ExtractArticleNumber("tidak ada nomor") == None
  {
    var d := "tidak ada nomor";
    NoMarkerBefore(ArticleMarker, d, |d|);
    NoMarkerBefore(LowerArticleMarker, d, |d|);
  }

  // ----- parse_query -----

  datatype DocType = PeraturanDoc | KalenderDoc | GeneralDoc

  datatype QueryType = SpecificArticle | SpecificDate | Comparison | GeneralQuery

  /** The dictionary `parse_query` returns. */
  datatype QueryInfo = QueryInfo(
    docType: DocType,
    articleNumbers: seq<nat>,
    months: seq<string>,
    dates: seq<string>,
    queryType: QueryType,
    keywords: seq<string>)

  const CalendarKeywords: seq<string> :=
    ["jadwal", "acara", "event", "kegiatan", "libur", "ujian", "semester", "kalender", "kapan", "tanggal"]

  const Stopwords: seq<string> :=
    ["apa", "yang", "di", "ke", "dari", "dan", "atau", "adalah", "sebutkan", "jelaskan", "dokumen", "kapan", "berapa", "tentang"]

  /** `any(kw in query.lower() for kw in kalender_keywords)`. */
  predicate HasCalendarKeyword(q: string) {
    exists k :: 0 <= k < |CalendarKeywords| && Contains(LowerStr(q), CalendarKeywords[k])
  }

  /** `[w for w in ws if w not in stop]`. */
  function Without(ws: seq<string>, stop: seq<string>): (r: seq<string>)
    ensures |r| <= |ws|
    ensures forall i :: 0 <= i < |r| ==> r[i] in ws && r[i] !in stop
    ensures forall i :: 0 <= i < |ws| && ws[i] !in stop ==> ws[i] in r
  {
    if |ws| == 0 then []
    else
      var rest := Without(ws[..|ws| - 1], stop);
      var w := ws[|ws| - 1];
      assert forall i :: 0 <= i < |ws| - 1 ==> ws[i] == ws[..|ws| - 1][i];
      if w in stop then rest else rest + [w]
  }

  /** Filtering a concatenation filters each part. */
  lemma {:induction false} WithoutConcat(a: seq<string>, b: seq<string>, stop: seq<string>)
    ensures Without(a + b, stop) == Without(a, stop) + Without(b, stop)
    decreases |b|
  {
    if |b| == 0 {
      assert a + b == a;
    } else {
      var init := b[..|b| - 1];
      assert (a + b)[..|a + b| - 1] == a + init;
      assert b[..|b| - 1] == init;
      WithoutConcat(a, init, stop);
    }
  }

  /** The lower-cased words of the query that are not stopwords. */
  function Keywords(q: string): seq<string> {
    var lq := LowerStr(q);
    Without(Texts(lq, FindAll(Word, lq)), Stopwords)
  }

  /** A keyword is a run of at least three lower-case letters, and no stopword. */
  predicate IsKeyword(w: string) {
    |w| >= 3 && (forall m :: 0 <= m < |w| ==> 'a' <= w[m] <= 'z') && w !in Stopwords
  }

  lemma KeywordsAreWords(q: string)
    ensures forall i :: 0 <= i < |Keywords(q)| ==> IsKeyword(Keywords(q)[i])
  {
    var lq := LowerStr(q);
    var f := FindAll(Word, lq);
    var ws := Texts(lq, f);
    FoundWords(lq);
    forall k | 0 <= k < |ws|
      ensures forall m :: 0 <= m < |ws[k]| ==> 'a' <= ws[k][m] <= 'z'
    {
      forall m | 0 <= m < |ws[k]|
        ensures 'a' <= ws[k][m] <= 'z'
      {
        assert ws[k][m] == lq[f[k].start + m] == Lower(q[f[k].start + m]);
      }
    }
  }

  /** A query about one or more articles. */
  function ArticleQuery(arts: seq<nat>): QueryInfo {
    QueryInfo(PeraturanDoc, arts, [], [], if |arts| > 1 then Comparison else SpecificArticle, [])
  }

  /** The rest of `parse_query` once no article is named, given the dates it
      reports: months and dates make a calendar query about a specific date; a
      calendar keyword alone makes a calendar query. */
  function CalendarQuery(q: string, dates: seq<string>): QueryInfo {
    var months := Texts(q, FindAll(MonthWord, q));
    var dated := months != [] || dates != [];
    var docType := if dated || HasCalendarKeyword(q) then KalenderDoc else GeneralDoc;
    QueryInfo(docType, [], months, dates, if dated then SpecificDate else GeneralQuery, Keywords(q))
  }

  /** `parse_query` as written. The date pattern has three groups, so every
      match `re.findall` returns is a triple, and `for day, month in
      date_matches` raises ValueError on the first one. */
  function ParseQuery(q: string): (r: Result<QueryInfo>)
    ensures r.Failure? ==> r.error.ValueError?
    ensures r.Success? ==> r.value.dates == []
    ensures r.Success? ==> r.value.articleNumbers == MarkerNumbers(AnyArticleMarker, q)
  {
    var arts := MarkerNumbers(AnyArticleMarker, q);
    if |arts| > 0 then Success(ArticleQuery(arts))
    else if |FindAll(DateMention, q)| > 0 then Failure(ValueError("too many values to unpack (expected 2)"))
    else Success(CalendarQuery(q, []))
  }

  /** The query names an article heading (`[Pp]asal <n>`). */
  predicate NamesArticle(q: string) {
    Matches(AnyArticleMarker, q)
  }

  predicate HasDigit(q: string) {
    exists j :: 0 <= j < |q| && IsDigit(q[j])
  }

  /** As written, `parse_query` raises exactly for the queries that name no
      article and hold a digit: no date is ever reported. */
  lemma ParseQueryFails(q: string)
    ensures ParseQuery(q).Failure? <==> !NamesArticle(q) && HasDigit(q)
  {
    FindAllEmpty(AnyArticleMarker, q);
    DateMentionFound(q);
  }

  /** A concrete failing query: a date with its month. */
  lemma ParseQueryFailsOnDate()
    ensures ParseQuery("libur 17 Agustus").Failure?
  {
    var q := "libur 17 Agustus";
    assert IsDigit(q[6]);
    forall j | 0 <= j < |q|
      ensures MatchAt(AnyArticleMarker, q, j).None?
    {
      assert q[j] != 'P' && q[j] != 'p';
    }
    ParseQueryFails(q);
  }

  /** Results of an article query: the numbers named, in order; a comparison
      when there are several. */
  lemma ParseQueryArticles(q: string)
    requires NamesArticle(q)
    ensures ParseQuery(q).Success?
    ensures var info := ParseQuery(q).value;
      && info.docType == PeraturanDoc && info.articleNumbers != []
      && (info.queryType == Comparison <==> |info.articleNumbers| > 1)
      && info.months == [] && info.keywords == []
  {
    FindAllEmpty(AnyArticleMarker, q);
  }

  // ----- parse_query, corrected -----

  /** The date text of a mention at `i`: the day, then a space and the month
      when the mention names one (`f"{day} {month}"` or `day`). */
  function DateText(q: string, i: nat): (r: string)
    requires i <= |q| && DateMentionAt(q, i).Some?
    ensures 1 <= |r| && IsDigit(r[0])
  {
    var d := DayStart(q, i).value;
    var de := DayEnd(q, d);
    match MonthAfterDay(q, de)
    case Some(m) => q[d..de] + " " + q[m.start..m.end]
    case None => q[d..de]
  }

  /** The formatted dates of every date mention, in order. */
  function Dates(q: string): (r: seq<string>)
    ensures |r| == |FindAll(DateMention, q)|
    ensures forall k :: 0 <= k < |r| ==> 1 <= |r[k]| && IsDigit(r[k][0])
  {
    var f := FindAll(DateMention, q);
    FindAllIsScan(DateMention, q, f);
    assert forall k :: 0 <= k < |f| ==> MatchAt(DateMention, q, f[k].start).Some?;
    seq(|f|, k requires 0 <= k < |f| => DateText(q, f[k].start))
  }

  /** `parse_query` as its documentation describes it: the date loop takes
      the day and month groups of each match. */
  function ParseQueryIntended(q: string): (r: QueryInfo)
    ensures r.articleNumbers == MarkerNumbers(AnyArticleMarker, q)
  {
    var arts := MarkerNumbers(AnyArticleMarker, q);
    if |arts| > 0 then ArticleQuery(arts) else CalendarQuery(q, Dates(q))
  }

  /** The corrected function reports a date exactly when the query names no
      article and holds a digit; it is then a calendar query about a date. */
  lemma ParseQueryIntendedDates(q: string)
    ensures var info := ParseQueryIntended(q);
      (info.dates != [] <==> !NamesArticle(q) && HasDigit(q))
      && (info.dates != [] ==> info.docType == KalenderDoc && info.queryType == SpecificDate)
  {
    FindAllEmpty(AnyArticleMarker, q);
    DateMentionFound(q);
  }

  /** Wherever the function as written returns, it returns what the corrected
      one does. */
  lemma ParseQueryAgrees(q: string)
    requires ParseQuery(q).Success?
    ensures ParseQuery(q).value == ParseQueryIntended(q)
  {
    if |MarkerNumbers(AnyArticleMarker, q)| == 0 {
      assert FindAll(DateMention, q) == [];
      assert Dates(q) == [];
    }
  }

  /** What a query without an article says: its months as written, and a
      calendar query exactly when it names a month or a date or uses a
      calendar keyword. */
  lemma ParseQueryIntendedCalendar(q: string)
    requires !NamesArticle(q)
    ensures var info := ParseQueryIntended(q);
      && info.articleNumbers == []
      && info.months == Texts(q, FindAll(MonthWord, q))
      && (info.docType == KalenderDoc <==> info.months != [] || HasDigit(q) || HasCalendarKeyword(q))
      && (info.queryType == SpecificDate <==> info.months != [] || HasDigit(q))
      && info.keywords == Keywords(q)
  {
    FindAllEmpty(AnyArticleMarker, q);
    DateMentionFound(q);
  }
}
