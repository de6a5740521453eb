/** The ingestion script's own copies of two regulation helpers: the
    document-type test and the article splitter. Both are shown to agree with
    the regulation strategy, the splitter up to the `doc_type` key that the
    script adds later. */
module ArticleIngest {
  import opened Wrappers
  import opened Text
  import opened Patterns
  import opened Splitting
  import opened BoundarySplit
  import opened HeadingSplit
  import opened Documents
  import opened Query
  import opened Strategies

  /** `is_calendar_document`: "kalender" in the lower-cased file name. A name
      that passes makes the calendar strategy detect the document whatever its
      content. */
  function IsCalendarDocument(filename: string): (r: bool)
    ensures r <==> exists i: nat :: OccursAt(LowerStr(filename), "kalender", i)
    ensures r ==> forall content :: KalenderDetect(filename, content)
  {
    ContainsAt(LowerStr(filename), "kalender");
    Contains(LowerStr(filename), "kalender")
  }

  /** `is_peraturan_document`: "peraturan" in the lower-cased file name, or
      at least three article headings in the sample; the same test as the
      regulation strategy's detection. */
  function IsPeraturanDocument(filename: string, sample: string): (r: bool)
    ensures r <==> PeraturanDetect(filename, sample)
  {
    Contains(LowerStr(filename), "peraturan") || |FindAll(ArticleMarker, sample)| >= 3
  }

  /** The splitter loop of `smart_split_by_articles`: the same boundary test
      as the strategy, but the tag of a heading piece is read with
      `extract_article_number`. */
  function SmartConfig(maxSize: nat, splitter: string -> seq<string>): Config<Option<nat>> {
    HeadingConfig(ArticleHeading, ExtractArticleNumber, None, splitter, maxSize)
  }

  /** `smart_split_by_articles`: chunks tagged with their article number,
      each with a copy of the page metadata. */
  function SmartSplitByArticles(text: string, metadata: Metadata, maxSize: nat, splitter: string -> seq<string>): (r: seq<Chunk>)
    ensures forall i :: 0 <= i < |r| ==> r[i].ArticleChunk? && r[i].metadata == metadata
  {
    ArticleChunks(Chunks(SmartConfig(maxSize, splitter), Split(ArticleHeading, text)), metadata)
  }

  /** A heading piece holds a capitalised heading, so both ways of reading
      its number read the first capitalised one. */
  lemma BoundaryTagsAgree(p: string)
    requires IsBoundary(ArticleHeading, p)
    ensures ExtractArticleNumber(p) == PeraturanTag(p)
  {
    assert p == p[0..|p|];
    var a := BoundaryHeading(ArticleHeading, p, 0, |p|, p);
    assert MatchAt(ArticleMarker, p, a).Some?;
    assert Matches(ArticleMarker, p);
  }

  /** The script's splitter and the regulation strategy produce the same
      chunks with the same article numbers; the strategy's metadata is the
      script's with `doc_type` set to `peraturan`. */
  lemma SmartSplitAgrees(text: string, metadata: Metadata, maxSize: nat, splitter: string -> seq<string>)
    ensures var a := SmartSplitByArticles(text, metadata, maxSize, splitter);
      var b := PeraturanChunk(text, metadata, maxSize, splitter);
      |a| == |b| &&
      forall i :: 0 <= i < |a| ==>
        a[i].content == b[i].content && a[i].articleNumber == b[i].articleNumber &&
        b[i].metadata == With(a[i].metadata, "doc_type", Str("peraturan"))
  {
    var parts := Split(ArticleHeading, text);
    var c := SmartConfig(maxSize, splitter);
    forall k | 0 <= k < |parts| && c.isBoundary(parts[k])
      ensures c.tagOf(parts[k]) == PeraturanTag(parts[k])
    {
      BoundaryTagsAgree(parts[k]);
    }
    ChunksSameTags(c, PeraturanTag, parts);
    assert Config(c.isBoundary, PeraturanTag, c.init, c.splitter, c.maxSize) == PeraturanConfig(maxSize, splitter);
  }
}
