/** The three chunking strategies and the factory that picks one.

    The regulation strategy cuts a page at article headings (`Pasal 12`) and
    tags every chunk with the number of the article it belongs to; the
    calendar strategy cuts at month headings (`Maret 2024`) and tags chunks
    with the heading; the generic strategy hands the page to the text
    splitter. The text splitter is a parameter: the properties hold whatever
    it returns. */
module Strategies {
  import opened Wrappers
  import opened Text
  import opened Seqs
  import opened Patterns
  import opened Splitting
  import opened BoundarySplit
  import opened HeadingSplit
  import opened Documents

  /** `PeraturanStrategy.detect`: at least three article headings, or
      "peraturan" in the lower-cased file name. */
  predicate PeraturanDetect(filename: string, content: string) {
    |FindAll(ArticleMarker, content)| >= 3 || Contains(LowerStr(filename), "peraturan")
  }

  /** Detection counts the leftmost non-overlapping headings: any list of
      spans that is such a scan decides it. */
  lemma PeraturanDetectByScan(filename: string, content: string, r: seq<Span>)
    requires IsScan(Table(ArticleMarker, content), 0, r)
    ensures PeraturanDetect(filename, content) <==>
      |r| >= 3 || exists i: nat :: OccursAt(LowerStr(filename), "peraturan", i)
  {
    FindAllIsScan(ArticleMarker, content, r);
    ContainsAt(LowerStr(filename), "peraturan");
  }

  /** The article number a heading piece sets: `re.search(r'Pasal\s+(\d+)', part)`. */
  function PeraturanTag(part: string): Option<nat> {
    SearchNumber(ArticleMarker, part)
  }

  function PeraturanConfig(maxSize: nat, splitter: string -> seq<string>): Config<Option<nat>> {
    HeadingConfig(ArticleHeading, PeraturanTag, None, splitter, maxSize)
  }

  /** The chunk dictionaries of tagged pieces, all with the same metadata. */
  function ArticleChunks(ps: seq<Piece<Option<nat>>>, metadata: Metadata): (r: seq<Chunk>)
    ensures |r| == |ps|
    ensures forall i :: 0 <= i < |ps| ==> r[i] == ArticleChunk(ps[i].content, ps[i].tag, metadata)
  {
    seq(|ps|, i requires 0 <= i < |ps| => ArticleChunk(ps[i].content, ps[i].tag, metadata))
  }

  /** `PeraturanStrategy.chunk`. */
  function PeraturanChunk(text: string, metadata: Metadata, maxSize: nat, splitter: string -> seq<string>): (r: seq<Chunk>)
    ensures forall i :: 0 <= i < |r| ==> r[i].ArticleChunk?
    ensures forall i :: 0 <= i < |r| ==>
      "doc_type" in r[i].metadata && r[i].metadata["doc_type"] == Str("peraturan") &&
      (forall k :: k in metadata && k != "doc_type" ==> k in r[i].metadata && r[i].metadata[k] == metadata[k])
  {
    ArticleChunks(Chunks(PeraturanConfig(maxSize, splitter), Split(ArticleHeading, text)), With(metadata, "doc_type", Str("peraturan")))
  }

  /** The sections of a regulation page: the preamble, tagged None, then one
      section per article heading, tagged with its number. */
  lemma PeraturanSections(text: string, maxSize: nat, splitter: string -> seq<string>)
    ensures var c := PeraturanConfig(maxSize, splitter);
      var f := FindAll(ArticleMarker, text);
      var secs := Sections(c, Split(ArticleHeading, text));
      && |secs| == |f| + 1
      && secs[0].tag == None && SectionText(secs[0]) == Preamble(ArticleHeading, text)
      && (forall k :: 1 <= k < |secs| ==>
            secs[k].head == text[f[k - 1].start..f[k - 1].end] && secs[k].tag == Some(MarkerNumbers(ArticleMarker, text)[k - 1]))
      && AllText(secs) == text
      && Chunks(c, Split(ArticleHeading, text)) == AllPieces(c, secs)
  {
    var c := PeraturanConfig(maxSize, splitter);
    var f := FindAll(ArticleMarker, text);
    HeadingSections(ArticleHeading, PeraturanTag, None, splitter, maxSize, text);
    var secs := Sections(c, Split(ArticleHeading, text));
    PreambleSection(secs[0], Preamble(ArticleHeading, text));
    FoundArticleNumbers(text);
  }

  /** When no section outgrows the size limit, one chunk per article heading,
      plus one when the text before the first heading is not blank. */
  lemma PeraturanCount(text: string, metadata: Metadata, maxSize: nat, splitter: string -> seq<string>)
    requires var c := PeraturanConfig(maxSize, splitter);
      forall k :: 0 <= k < |Sections(c, Split(ArticleHeading, text))| ==> Fits(c, Sections(c, Split(ArticleHeading, text))[k])
    ensures |PeraturanChunk(text, metadata, maxSize, splitter)| ==
      |FindAll(ArticleMarker, text)| + (if AllSpaces(Preamble(ArticleHeading, text)) then 0 else 1)
  {
    var c := PeraturanConfig(maxSize, splitter);
    assert c == HeadingConfig(ArticleHeading, PeraturanTag, None, splitter, maxSize);
    HeadingCount(ArticleHeading, PeraturanTag, None, splitter, maxSize, text);
    var ps := Chunks(c, Split(ArticleHeading, text));
    assert PeraturanChunk(text, metadata, maxSize, splitter) == ArticleChunks(ps, With(metadata, "doc_type", Str("peraturan")));
  }

  /** Every chunk carries the number of the most recent article heading
      before it: `idx[i]` counts the headings up to chunk `i`, so chunks with
      none before them are tagged None, the others carry the number of
      heading `idx[i]`, and the counts never decrease along the chunks. */
  lemma PeraturanChunkTags(text: string, metadata: Metadata, maxSize: nat, splitter: string -> seq<string>)
    returns (idx: seq<nat>)
    ensures var r := PeraturanChunk(text, metadata, maxSize, splitter);
      var c := PeraturanConfig(maxSize, splitter);
      var ps, secs := Chunks(c, Split(ArticleHeading, text)), Sections(c, Split(ArticleHeading, text));
      var f, nums := FindAll(ArticleMarker, text), MarkerNumbers(ArticleMarker, text);
      && |idx| == |r| == |ps| && |secs| == |f| + 1
      && (forall i :: 0 <= i < |r| ==> idx[i] <= |f| && r[i].content == ps[i].content && ps[i] in SectionPieces(c, secs[idx[i]]))
      && (forall i :: 0 <= i < |r| && idx[i] == 0 ==> r[i].articleNumber == None)
      && (forall i :: 0 <= i < |r| && idx[i] > 0 ==>
            secs[idx[i]].head == text[f[idx[i] - 1].start..f[idx[i] - 1].end] && r[i].articleNumber == Some(nums[idx[i] - 1]))
      && (forall a, b :: 0 <= a <= b < |r| ==> idx[a] <= idx[b])
  {
    FoundArticleNumbers(text);
    idx := HeadingChunkOrigin(ArticleHeading, PeraturanTag, None, splitter, maxSize, text);
  }

  /** Every chunk is stripped and non-empty, or is one of the text splitter's pieces. */
  lemma PeraturanClean(text: string, metadata: Metadata, maxSize: nat, splitter: string -> seq<string>)
    ensures var r := PeraturanChunk(text, metadata, maxSize, splitter);
      forall i :: 0 <= i < |r| ==> Clean(r[i].content) || FromSplitter(PeraturanConfig(maxSize, splitter), r[i].content)
  {
    RunClean(PeraturanConfig(maxSize, splitter), Split(ArticleHeading, text));
  }

  /** A blank page gives no chunk. */
  lemma PeraturanBlank(text: string, metadata: Metadata, maxSize: nat, splitter: string -> seq<string>)
    requires AllSpaces(text)
    requires |text| <= maxSize || splitter(text) == []
    ensures PeraturanChunk(text, metadata, maxSize, splitter) == []
  {
    HeadingBlank(ArticleHeading, PeraturanTag, None, splitter, maxSize, text);
  }

  // ----- Calendars -----

  /** `KalenderStrategy.detect`: "kalender" in the lower-cased file name, or
      at least five dates such as `12 Januari 2024`. */
  predicate KalenderDetect(filename: string, content: string) {
    Contains(LowerStr(filename), "kalender") || |FindAll(DayMonthYear, content)| >= 5
  }

  lemma KalenderDetectByScan(filename: string, content: string, r: seq<Span>)
    requires IsScan(Table(DayMonthYear, content), 0, r)
    ensures KalenderDetect(filename, content) <==>
      (exists i: nat :: OccursAt(LowerStr(filename), "kalender", i)) || |r| >= 5
  {
    FindAllIsScan(DayMonthYear, content, r);
    ContainsAt(LowerStr(filename), "kalender");
  }

  /** The month a heading piece sets: `re.match(month_pattern, part.strip()).group(1)`. */
  function KalenderTag(part: string): Option<string> {
    MatchedHeading(MonthHeading, part)
  }

  function KalenderConfig(maxSize: nat, splitter: string -> seq<string>): Config<Option<string>> {
    HeadingConfig(MonthHeading, KalenderTag, None, splitter, maxSize)
  }

  function MonthChunks(ps: seq<Piece<Option<string>>>, metadata: Metadata): (r: seq<Chunk>)
    ensures |r| == |ps|
    ensures forall i :: 0 <= i < |ps| ==> r[i] == MonthChunk(ps[i].content, ps[i].tag, metadata)
  {
    seq(|ps|, i requires 0 <= i < |ps| => MonthChunk(ps[i].content, ps[i].tag, metadata))
  }

  /** `KalenderStrategy.chunk`. Its table branch does nothing, so the PDF path
      it takes has no effect and is not a parameter here. */
  function KalenderChunk(text: string, metadata: Metadata, maxSize: nat, splitter: string -> seq<string>): (r: seq<Chunk>)
    ensures forall i :: 0 <= i < |r| ==> r[i].MonthChunk?
    ensures forall i :: 0 <= i < |r| ==>
      "doc_type" in r[i].metadata && r[i].metadata["doc_type"] == Str("kalender") &&
      (forall k :: k in metadata && k != "doc_type" ==> k in r[i].metadata && r[i].metadata[k] == metadata[k])
  {
    MonthChunks(Chunks(KalenderConfig(maxSize, splitter), Split(MonthHeading, text)), With(metadata, "doc_type", Str("kalender")))
  }

  /** The sections of a calendar page: the preamble, with no month, then one
      section per month heading, tagged with the heading's own text. */
  lemma KalenderSections(text: string, maxSize: nat, splitter: string -> seq<string>)
    ensures var c := KalenderConfig(maxSize, splitter);
      var f := FindAll(MonthYear, text);
      var secs := Sections(c, Split(MonthHeading, text));
      && |secs| == |f| + 1
      && secs[0].tag == None && SectionText(secs[0]) == Preamble(MonthHeading, text)
      && (forall k :: 1 <= k < |secs| ==>
            secs[k].head == text[f[k - 1].start..f[k - 1].end] && secs[k].tag == Some(secs[k].head))
      && AllText(secs) == text
      && Chunks(c, Split(MonthHeading, text)) == AllPieces(c, secs)
  {
    var c := KalenderConfig(maxSize, splitter);
    var f := FindAll(MonthYear, text);
    HeadingSections(MonthHeading, KalenderTag, None, splitter, maxSize, text);
    var secs := Sections(c, Split(MonthHeading, text));
    PreambleSection(secs[0], Preamble(MonthHeading, text));
    FoundMonthHeadings(text);
    forall k | 1 <= k < |secs|
      ensures secs[k].tag == Some(secs[k].head)
    {
      assert secs[k].head == Texts(text, f)[k - 1];
    }
  }

  lemma KalenderCount(text: string, metadata: Metadata, maxSize: nat, splitter: string -> seq<string>)
    requires var c := KalenderConfig(maxSize, splitter);
      forall k :: 0 <= k < |Sections(c, Split(MonthHeading, text))| ==> Fits(c, Sections(c, Split(MonthHeading, text))[k])
    ensures |KalenderChunk(text, metadata, maxSize, splitter)| ==
      |FindAll(MonthYear, text)| + (if AllSpaces(Preamble(MonthHeading, text)) then 0 else 1)
  {
    var c := KalenderConfig(maxSize, splitter);
    assert c == HeadingConfig(MonthHeading, KalenderTag, None, splitter, maxSize);
    HeadingCount(MonthHeading, KalenderTag, None, splitter, maxSize, text);
    var ps := Chunks(c, Split(MonthHeading, text));
    assert KalenderChunk(text, metadata, maxSize, splitter) == MonthChunks(ps, With(metadata, "doc_type", Str("kalender")));
  }

  /** Every chunk carries the text of the most recent month heading before
      it, counted as in `PeraturanChunkTags`. */
  lemma KalenderChunkTags(text: string, metadata: Metadata, maxSize: nat, splitter: string -> seq<string>)
    returns (idx: seq<nat>)
    ensures var r := KalenderChunk(text, metadata, maxSize, splitter);
      var c := KalenderConfig(maxSize, splitter);
      var ps, secs := Chunks(c, Split(MonthHeading, text)), Sections(c, Split(MonthHeading, text));
      var f := FindAll(MonthYear, text);
      && |idx| == |r| == |ps| && |secs| == |f| + 1
      && (forall i :: 0 <= i < |r| ==> idx[i] <= |f| && r[i].content == ps[i].content && ps[i] in SectionPieces(c, secs[idx[i]]))
      && (forall i :: 0 <= i < |r| && idx[i] == 0 ==> r[i].month == None)
      && (forall i :: 0 <= i < |r| && idx[i] > 0 ==>
            secs[idx[i]].head == text[f[idx[i] - 1].start..f[idx[i] - 1].end] && r[i].month == Some(Texts(text, f)[idx[i] - 1]))
      && (forall a, b :: 0 <= a <= b < |r| ==> idx[a] <= idx[b])
  {
    FoundMonthHeadings(text);
    idx := HeadingChunkOrigin(MonthHeading, KalenderTag, None, splitter, maxSize, text);
  }

  lemma KalenderClean(text: string, metadata: Metadata, maxSize: nat, splitter: string -> seq<string>)
    ensures var r := KalenderChunk(text, metadata, maxSize, splitter);
      forall i :: 0 <= i < |r| ==> Clean(r[i].content) || FromSplitter(KalenderConfig(maxSize, splitter), r[i].content)
  {
    RunClean(KalenderConfig(maxSize, splitter), Split(MonthHeading, text));
  }

  lemma KalenderBlank(text: string, metadata: Metadata, maxSize: nat, splitter: string -> seq<string>)
    requires AllSpaces(text)
    requires |text| <= maxSize || splitter(text) == []
    ensures KalenderChunk(text, metadata, maxSize, splitter) == []
  {
    HeadingBlank(MonthHeading, KalenderTag, None, splitter, maxSize, text);
  }

  // ----- Other documents -----

  predicate GenericDetect(filename: string, content: string) {
    true
  }

  /** `GenericStrategy.chunk`: one chunk per piece of the text splitter, in
      order, with no article or month field. */
  function GenericChunk(text: string, metadata: Metadata, splitter: string -> seq<string>): (r: seq<Chunk>)
    ensures |r| == |splitter(text)|
    ensures forall i :: 0 <= i < |r| ==>
      r[i].PlainChunk? && r[i].content == splitter(text)[i] && r[i].metadata == With(metadata, "doc_type", Str("generic"))
  {
    var pieces := splitter(text);
    seq(|pieces|, i requires 0 <= i < |pieces| => PlainChunk(pieces[i], With(metadata, "doc_type", Str("generic"))))
  }

  // ----- Choosing a strategy -----

  datatype Strategy = PeraturanStrategy | KalenderStrategy | GenericStrategy

  /** `DocumentStrategyFactory.STRATEGIES`, in priority order. */
  const Strategies: seq<Strategy> := [PeraturanStrategy, KalenderStrategy, GenericStrategy]

  predicate Detect(st: Strategy, filename: string, content: string) {
    match st
    case PeraturanStrategy => PeraturanDetect(filename, content)
    case KalenderStrategy => KalenderDetect(filename, content)
    case GenericStrategy => GenericDetect(filename, content)
  }

  /** `sts[i]` detects the document and no strategy before it does. */
  predicate FirstAt(sts: seq<Strategy>, i: int, filename: string, content: string) {
    0 <= i < |sts| && Detect(sts[i], filename, content) &&
    forall j :: 0 <= j < i ==> !Detect(sts[j], filename, content)
  }

  /** The factory's loop: the first strategy of `sts` whose `detect` holds. */
  function FirstDetected(sts: seq<Strategy>, filename: string, content: string): (r: Option<Strategy>)
    ensures r.Some? ==> exists i :: FirstAt(sts, i, filename, content) && sts[i] == r.value
    ensures r.None? <==> forall i :: 0 <= i < |sts| ==> !Detect(sts[i], filename, content)
  {
    if |sts| == 0 then None
    else if Detect(sts[0], filename, content) then Some(sts[0])
    else
      var r := FirstDetected(sts[1..], filename, content);
      assert forall j :: 1 <= j < |sts| ==> sts[j] == sts[1..][j - 1];
      r
  }

  /** `DocumentStrategyFactory.get_strategy`: regulations first, then
      calendars, then the generic strategy, which always applies, so the
      fallback after the loop is never reached. */
  function GetStrategy(filename: string, content: string): (r: Strategy)
    ensures r == PeraturanStrategy <==> PeraturanDetect(filename, content)
    ensures r == KalenderStrategy <==> !PeraturanDetect(filename, content) && KalenderDetect(filename, content)
    ensures r == GenericStrategy <==> !PeraturanDetect(filename, content) && !KalenderDetect(filename, content)
    ensures FirstDetected(Strategies, filename, content) == Some(r)
  {
    var found := FirstDetected(Strategies, filename, content);
    assert Detect(Strategies[2], filename, content);
    if found.Some? then
      var i :| FirstAt(Strategies, i, filename, content) && Strategies[i] == found.value;
      assert Strategies[0] == PeraturanStrategy && Strategies[1] == KalenderStrategy;
      found.value
    else
      GenericStrategy
  }
}
