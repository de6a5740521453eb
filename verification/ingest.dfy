/** The ingestion loop: for every PDF, the table path for calendars that
    have tables, otherwise per-page text chunking with the regulation
    splitter or the generic text splitter, then metadata enrichment and the
    per-type statistics.

    The file system, the PDF readers and the embedding store are not
    modelled: a file is given as what the readers would report about it. */
module Ingest {
  import opened Wrappers
  import opened Text
  import opened Seqs
  import opened Documents
  import opened Collect
  import opened Patterns
  import opened TableExtractor
  import opened ArticleIngest

  /** One page as the text loader returns it: its text and its `page`
      metadata, if present. */
  datatype Page = Page(content: string, number: Option<int>)

  /** A file in the documents directory, as the readers see it: whether the
      table reader opens it, the table count of every page (nothing for a
      page whose reading raises), the tables found (nothing when reading
      them raises) and the pages of the text loader. */
  datatype PdfFile = PdfFile(
    name: string,
    opens: bool,
    tableCounts: seq<Option<nat>>,
    tables: Option<seq<Table>>,
    pages: seq<Page>)

  /** The two text splitters: the one that cuts oversized regulation chunks
      (size 2000, overlap 200) and the generic one (size 2000, overlap 400). */
  datatype Splitters = Splitters(article: string -> seq<string>, generic: string -> seq<string>)

  /** `str.endswith`. */
  predicate EndsWith(s: string, t: string) {
    |t| <= |s| && s[|s| - |t|..] == t
  }

  // ----- The table path -----

  /** The chunks of the table path, when it is taken and succeeds: a
      calendar file with at least one table whose extraction does not raise. */
  function TablePath(f: PdfFile): (r: Option<seq<Doc>>)
    ensures r.Some? <==>
      IsCalendarDocument(f.name) && HasTables(f.opens, f.tableCounts, 1) && f.tables.Some? &&
      ExtractFromPdf(f.tables.value, f.name).Success?
  {
    if IsCalendarDocument(f.name) && HasTables(f.opens, f.tableCounts, 1) && f.tables.Some? then
      match ExtractFromPdf(f.tables.value, f.name)
      case Success(cs) => Some(cs)
      case Failure(_) => None
    else None
  }

  /** A table chunk as a stored document, marked as extracted from a table. */
  function TableDocs(cs: seq<Doc>): (r: seq<Doc>)
    ensures |r| == |cs|
    ensures forall i :: 0 <= i < |cs| ==>
      r[i].content == cs[i].content &&
      r[i].metadata == With(cs[i].metadata, "extraction_method", Str("table"))
  {
    seq(|cs|, i requires 0 <= i < |cs| => Doc(cs[i].content, With(cs[i].metadata, "extraction_method", Str("table"))))
  }

  // ----- The text path -----

  /** The metadata every chunk of a page starts from. */
  function PageMetadata(filename: string, p: Page): Metadata {
    map["source" := Str(filename), "page" := Int(p.number.GetOr(0)), "extraction_method" := Str("text")]
  }

  /** The text used to detect a regulation: the first page, or nothing. */
  function Sample(pages: seq<Page>): string {
    if |pages| == 0 then "" else pages[0].content
  }

  /** The `doc_type` of the text path, decided once per file. */
  function TextDocType(peraturan: bool, calendar: bool): (r: string)
    ensures r == "peraturan" <==> peraturan
    ensures r == "kalender" <==> !peraturan && calendar
    ensures r == "generic" <==> !peraturan && !calendar
  {
    if peraturan then "peraturan" else if calendar then "kalender" else "generic"
  }

  /** Each generic piece with a copy of the page metadata. */
  function PlainChunks(texts: seq<string>, metadata: Metadata): (r: seq<Chunk>)
    ensures |r| == |texts|
    ensures forall i :: 0 <= i < |texts| ==> r[i] == PlainChunk(texts[i], metadata)
  {
    seq(|texts|, i requires 0 <= i < |texts| => PlainChunk(texts[i], metadata))
  }

  /** The chunks of one page. */
  function PageChunks(filename: string, p: Page, peraturan: bool, sp: Splitters): (r: seq<Chunk>)
    ensures forall i :: 0 <= i < |r| ==> r[i].metadata == PageMetadata(filename, p)
    ensures !peraturan ==> forall i :: 0 <= i < |r| ==> r[i].PlainChunk?
  {
    if peraturan then SmartSplitByArticles(p.content, PageMetadata(filename, p), 2000, sp.article)
    else PlainChunks(sp.generic(p.content), PageMetadata(filename, p))
  }

  /** The article number a chunk carries into the metadata: only a truthy
      one, so article 0 is dropped. */
  function CarriedArticle(c: Chunk): (r: Option<nat>)
    ensures r.Some? <==> c.ArticleChunk? && c.articleNumber.Some? && c.articleNumber.value != 0
    ensures r.Some? ==> r.value > 0
  {
    if c.ArticleChunk? && c.articleNumber.Some? && c.articleNumber.value != 0 then c.articleNumber else None
  }

  /** The stored document of a chunk: `doc_type` set, and `article_number`
      with `has_article` added when the chunk carries an article number. */
  function Enrich(c: Chunk, docType: string): (d: Doc)
    ensures d.content == c.content
    ensures d.metadata.Keys == c.metadata.Keys + {"doc_type"} +
      (if CarriedArticle(c).Some? then {"article_number", "has_article"} else {})
    ensures d.metadata["doc_type"] == Str(docType)
    ensures CarriedArticle(c).Some? ==>
      d.metadata["article_number"] == Int(CarriedArticle(c).value) && d.metadata["has_article"] == Bool(true)
    ensures forall k :: k in c.metadata && k !in {"doc_type", "article_number", "has_article"} ==>
      d.metadata[k] == c.metadata[k]
  {
    var md := With(c.metadata, "doc_type", Str(docType));
    match CarriedArticle(c)
    case Some(n) => Doc(c.content, With(With(md, "article_number", Int(n)), "has_article", Bool(true)))
    case None => Doc(c.content, md)
  }

  function EnrichAll(cs: seq<Chunk>, docType: string): (r: seq<Doc>)
    ensures |r| == |cs|
    ensures forall i :: 0 <= i < |cs| ==> r[i] == Enrich(cs[i], docType)
  {
    seq(|cs|, i requires 0 <= i < |cs| => Enrich(cs[i], docType))
  }

  // ----- Statistics -----

  /** Chunk counts per document type. */
  type Stats = map<string, nat>

  /** The counters the script starts with. */
  const InitialStats: Stats := map["peraturan" := 0, "kalender" := 0, "kalender_table" := 0]

  /** `stats[key] += n`: a key the dictionary lacks raises. */
  function Bump(s: Stats, key: string, n: nat): (r: Result<Stats>)
    ensures r.Success? <==> key in s
    ensures r.Failure? ==> r.error == KeyError(key)
    ensures r.Success? ==> r.value.Keys == s.Keys && r.value[key] == s[key] + n
    ensures r.Success? ==> forall k :: k in s && k != key ==> r.value[k] == s[k]
  {
    if key in s then Success(s[key := s[key] + n]) else Failure(KeyError(key))
  }

  /** The documents gathered so far and the counters. */
  datatype Ingested = Ingested(docs: seq<Doc>, stats: Stats)

  /** The loop over the pages of a text-path file. */
  function TextPages(filename: string, pages: seq<Page>, peraturan: bool, calendar: bool, sp: Splitters, acc: Ingested): (r: Result<Ingested>)
  {
    if |pages| == 0 then Success(acc)
    else match TextPages(filename, pages[..|pages| - 1], peraturan, calendar, sp, acc)
      case Failure(e) => Failure(e)
      case Success(before) =>
        var docType := TextDocType(peraturan, calendar);
        var cs := PageChunks(filename, pages[|pages| - 1], peraturan, sp);
        match Bump(before.stats, docType, |cs|)
        case Failure(e) => Failure(e)
        case Success(st) => Success(Ingested(before.docs + EnrichAll(cs, docType), st))
  }

  /** The text path of a file: the regulation test on the first page decides
      the splitter and the `doc_type` of every page. */
  function TextPath(f: PdfFile, sp: Splitters, acc: Ingested): Result<Ingested> {
    TextPages(f.name, f.pages, IsPeraturanDocument(f.name, Sample(f.pages)), IsCalendarDocument(f.name), sp, acc)
  }

  /** One iteration of the loop over the directory. */
  function IngestFile(f: PdfFile, sp: Splitters, acc: Ingested): (r: Result<Ingested>)
    ensures !EndsWith(f.name, ".pdf") ==> r == Success(acc)
    ensures EndsWith(f.name, ".pdf") && TablePath(f).None? ==> r == TextPath(f, sp, acc)
  {
    if !EndsWith(f.name, ".pdf") then Success(acc)
    else match TablePath(f)
      case Some(cs) =>
        (match Bump(acc.stats, "kalender_table", |cs|)
         case Failure(e) => Failure(e)
         case Success(st) => Success(Ingested(acc.docs + TableDocs(cs), st)))
      case None => TextPath(f, sp, acc)
  }

  /** The loop over the directory listing, from the given counters. */
  function IngestFiles(files: seq<PdfFile>, sp: Splitters, acc: Ingested): Result<Ingested> {
    if |files| == 0 then Success(acc)
    else match IngestFiles(files[..|files| - 1], sp, acc)
      case Failure(e) => Failure(e)
      case Success(before) => IngestFile(files[|files| - 1], sp, before)
  }

  /** `main` as written, without the embedding step. */
  function IngestAsWritten(files: seq<PdfFile>, sp: Splitters): Result<Ingested> {
    IngestFiles(files, sp, Ingested([], InitialStats))
  }

  // ----- What the two paths store -----

  /** What a table-path document carries: the file name, the calendar type
      and the table method. */
  predicate TableDoc(d: Doc, filename: string) {
    var md := d.metadata;
    && "source" in md && md["source"] == Str(filename)
    && "doc_type" in md && md["doc_type"] == Str("kalender")
    && "extraction_method" in md && md["extraction_method"] == Str("table")
  }

  /** A calendar file whose tables extract stores exactly its table chunks,
      all marked as extracted from a table; no text chunk is produced. */
  lemma TablePathDocs(f: PdfFile, sp: Splitters, acc: Ingested)
    requires EndsWith(f.name, ".pdf") && TablePath(f).Some? && "kalender_table" in acc.stats
    ensures var r := IngestFile(f, sp, acc);
      r.Success? && r.value.docs == acc.docs + TableDocs(TablePath(f).value) &&
      forall i :: |acc.docs| <= i < |r.value.docs| ==> TableDoc(r.value.docs[i], f.name)
  {
    ExtractedChunksFields(f.tables.value, f.name);
    var cs := TablePath(f).value;
    var ds := TableDocs(cs);
    forall j | 0 <= j < |ds|
      ensures TableDoc(ds[j], f.name)
    {
      assert CalendarChunk(cs[j], f.name);
    }
    var r := IngestFile(f, sp, acc);
    assert r.value.docs == acc.docs + ds;
    forall i | |acc.docs| <= i < |r.value.docs|
      ensures TableDoc(r.value.docs[i], f.name)
    {
      assert r.value.docs[i] == ds[i - |acc.docs|];
    }
  }

  /** A file that is not a calendar with tables, or whose table extraction
      raises, falls back to the text path. */
  lemma FallbackToText(f: PdfFile, sp: Splitters, acc: Ingested)
    requires EndsWith(f.name, ".pdf")
    requires !IsCalendarDocument(f.name) || !HasTables(f.opens, f.tableCounts, 1) ||
      f.tables.None? || ExtractFromPdf(f.tables.value, f.name).Failure?
    ensures IngestFile(f, sp, acc) == TextPath(f, sp, acc)
  {
  }

  /** What a text-path document carries: the file name, the text method, the
      file's `doc_type`, and an article number only when it is a positive
      one of a regulation chunk. */
  predicate TextDoc(d: Doc, filename: string, docType: string) {
    var md := d.metadata;
    && "source" in md && md["source"] == Str(filename)
    && "extraction_method" in md && md["extraction_method"] == Str("text")
    && "doc_type" in md && md["doc_type"] == Str(docType)
    && ("article_number" in md ==>
          docType == "peraturan" && md["article_number"].Int? && md["article_number"].i > 0 &&
          "has_article" in md && md["has_article"] == Bool(true))
  }

  /** The documents of one page. */
  lemma PageDocs(filename: string, p: Page, peraturan: bool, calendar: bool, sp: Splitters)
    ensures var docType := TextDocType(peraturan, calendar);
      var ds := EnrichAll(PageChunks(filename, p, peraturan, sp), docType);
      forall i :: 0 <= i < |ds| ==> TextDoc(ds[i], filename, docType)
  {
    var docType := TextDocType(peraturan, calendar);
    var cs := PageChunks(filename, p, peraturan, sp);
    forall i | 0 <= i < |cs|
      ensures TextDoc(Enrich(cs[i], docType), filename, docType)
    {
      assert cs[i].metadata == PageMetadata(filename, p);
    }
  }

  /** The text path appends documents that all carry the text-path fields. */
  lemma {:induction false} TextPagesDocs(filename: string, pages: seq<Page>, peraturan: bool, calendar: bool, sp: Splitters, acc: Ingested)
    ensures var r := TextPages(filename, pages, peraturan, calendar, sp, acc);
      r.Success? ==>
        |acc.docs| <= |r.value.docs| && r.value.docs[..|acc.docs|] == acc.docs &&
        forall i :: |acc.docs| <= i < |r.value.docs| ==>
          TextDoc(r.value.docs[i], filename, TextDocType(peraturan, calendar))
  {
    if |pages| > 0 {
      var init := pages[..|pages| - 1];
      TextPagesDocs(filename, init, peraturan, calendar, sp, acc);
      var r := TextPages(filename, pages, peraturan, calendar, sp, acc);
      if r.Success? {
        var before := TextPages(filename, init, peraturan, calendar, sp, acc).value;
        var docType := TextDocType(peraturan, calendar);
        var ds := EnrichAll(PageChunks(filename, pages[|pages| - 1], peraturan, sp), docType);
        PageDocs(filename, pages[|pages| - 1], peraturan, calendar, sp);
        assert r.value.docs == before.docs + ds;
        forall i | |acc.docs| <= i < |r.value.docs|
          ensures TextDoc(r.value.docs[i], filename, docType)
        {
          if i >= |before.docs| {
            assert r.value.docs[i] == ds[i - |before.docs|];
          } else {
            assert r.value.docs[i] == before.docs[i];
          }
        }
      }
    }
  }

  // ----- Statistics -----

  /** The document types the counters are meant for. */
  const StatKeys: set<string> := {"peraturan", "kalender", "kalender_table", "generic"}

  /** `stats.get(key, 0)`. */
  function Count(s: Stats, key: string): nat {
    if key in s then s[key] else 0
  }

  /** The sum of all counters. */
  function Total(s: Stats): nat {
    Count(s, "peraturan") + Count(s, "kalender") + Count(s, "kalender_table") + Count(s, "generic")
  }

  /** Raising one of the counters raises the sum by as much. */
  lemma BumpTotal(s: Stats, key: string, n: nat)
    requires key in StatKeys && key in s
    ensures Total(Bump(s, key, n).value) == Total(s) + n
  {
  }

  /** The text path bumps the file's counter once per page: it succeeds
      exactly when that counter exists, keeps the counter keys, and counts
      every document it adds. */
  lemma {:induction false} TextPagesCount(filename: string, pages: seq<Page>, peraturan: bool, calendar: bool, sp: Splitters, acc: Ingested)
    ensures var r := TextPages(filename, pages, peraturan, calendar, sp, acc);
      && (r.Success? <==> |pages| == 0 || TextDocType(peraturan, calendar) in acc.stats)
      && (r.Failure? ==> r.error == KeyError(TextDocType(peraturan, calendar)))
      && (r.Success? ==> r.value.stats.Keys == acc.stats.Keys)
      && (r.Success? ==> Total(r.value.stats) + |acc.docs| == Total(acc.stats) + |r.value.docs|)
  {
    if |pages| > 0 {
      var init := pages[..|pages| - 1];
      TextPagesCount(filename, init, peraturan, calendar, sp, acc);
      var docType := TextDocType(peraturan, calendar);
      var b := TextPages(filename, init, peraturan, calendar, sp, acc);
      if b.Success? && docType in acc.stats {
        var cs := PageChunks(filename, pages[|pages| - 1], peraturan, sp);
        BumpTotal(b.value.stats, docType, |cs|);
      }
    }
  }

  /** One file keeps the counter keys and counts every document it adds;
      it fails only on a counter the dictionary lacks. */
  lemma FileCount(f: PdfFile, sp: Splitters, acc: Ingested)
    requires "kalender_table" in acc.stats
    ensures var r := IngestFile(f, sp, acc);
      && (r.Failure? ==> exists k :: k in StatKeys && k !in acc.stats && r.error == KeyError(k))
      && (r.Success? ==> r.value.stats.Keys == acc.stats.Keys)
      && (r.Success? ==> Total(r.value.stats) + |acc.docs| == Total(acc.stats) + |r.value.docs|)
  {
    if EndsWith(f.name, ".pdf") {
      if TablePath(f).Some? {
        BumpTotal(acc.stats, "kalender_table", |TablePath(f).value|);
      } else {
        var per, cal := IsPeraturanDocument(f.name, Sample(f.pages)), IsCalendarDocument(f.name);
        TextPagesCount(f.name, f.pages, per, cal, sp, acc);
        assert TextDocType(per, cal) in StatKeys;
      }
    }
  }

  /** The whole loop keeps the counter keys and counts every document it
      stores; when the counters cover every document type it never fails. */
  lemma {:induction false} FilesCount(files: seq<PdfFile>, sp: Splitters, acc: Ingested)
    requires "kalender_table" in acc.stats
    ensures var r := IngestFiles(files, sp, acc);
      && (StatKeys <= acc.stats.Keys ==> r.Success?)
      && (r.Success? ==> r.value.stats.Keys == acc.stats.Keys)
      && (r.Success? ==> Total(r.value.stats) + |acc.docs| == Total(acc.stats) + |r.value.docs|)
  {
    if |files| > 0 {
      var init := files[..|files| - 1];
      FilesCount(init, sp, acc);
      var b := IngestFiles(init, sp, acc);
      if b.Success? {
        FileCount(files[|files| - 1], sp, b.value);
      }
    }
  }

  // ----- The missing `generic` counter -----

  /** A text-path file that is neither a regulation nor a calendar and has a
      page bumps `generic`, which the script's counters lack: the whole
      ingestion stops with a KeyError. */
  lemma GenericFileFails(f: PdfFile, sp: Splitters, acc: Ingested)
    requires EndsWith(f.name, ".pdf") && |f.pages| > 0
    requires !IsCalendarDocument(f.name) && !IsPeraturanDocument(f.name, Sample(f.pages))
    requires "generic" !in acc.stats
    ensures IngestFile(f, sp, acc) == Failure(KeyError("generic"))
  {
    TextPagesCount(f.name, f.pages, false, false, sp, acc);
  }

  /** A concrete failing directory: one generic PDF with one empty page. */
  lemma AsWrittenCrash(sp: Splitters)
    ensures IngestAsWritten([PdfFile("a.pdf", true, [], None, [Page("", None)])], sp) == Failure(KeyError("generic"))
  {
    var f := PdfFile("a.pdf", true, [], None, [Page("", None)]);
    assert EndsWith(f.name, ".pdf") by { assert f.name[1..] == ".pdf"; }
    ContainsAt(LowerStr(f.name), "kalender");
    ContainsAt(LowerStr(f.name), "peraturan");
    assert FindAll(ArticleMarker, "") == [];
    GenericFileFails(f, sp, Ingested([], InitialStats));
    var acc := Ingested([], InitialStats);
    var fs := [f];
    assert fs[..|fs| - 1] == [] && fs[|fs| - 1] == f;
    assert IngestFiles(fs[..|fs| - 1], sp, acc) == Success(acc);
  }

  /** The counters with the `generic` entry the text path needs. */
  const CorrectedStats: Stats := InitialStats["generic" := 0]

  /** The ingestion loop with every document type counted. */
  function IngestCorrected(files: seq<PdfFile>, sp: Splitters): (r: Result<Ingested>)
    ensures r.Success?
    ensures r.value.stats.Keys == StatKeys && Total(r.value.stats) == |r.value.docs|
  {
    FilesCount(files, sp, Ingested([], CorrectedStats));
    IngestFiles(files, sp, Ingested([], CorrectedStats))
  }

  /** The stored documents never depend on the counters: starting from more
      counters, the text path stores the same documents and fails no more
      often. */
  lemma {:induction false} TextPagesSameDocs(filename: string, pages: seq<Page>, peraturan: bool, calendar: bool, sp: Splitters, a: Ingested, b: Ingested)
    requires a.docs == b.docs && a.stats.Keys <= b.stats.Keys
    ensures var ra, rb := TextPages(filename, pages, peraturan, calendar, sp, a), TextPages(filename, pages, peraturan, calendar, sp, b);
      ra.Success? ==> rb.Success? && ra.value.docs == rb.value.docs && ra.value.stats.Keys <= rb.value.stats.Keys
  {
    if |pages| > 0 {
      TextPagesSameDocs(filename, pages[..|pages| - 1], peraturan, calendar, sp, a, b);
    }
  }

  /** The same for one file. */
  lemma FileSameDocs(f: PdfFile, sp: Splitters, a: Ingested, b: Ingested)
    requires a.docs == b.docs && a.stats.Keys <= b.stats.Keys
    ensures var ra, rb := IngestFile(f, sp, a), IngestFile(f, sp, b);
      ra.Success? ==> rb.Success? && ra.value.docs == rb.value.docs && ra.value.stats.Keys <= rb.value.stats.Keys
  {
    if EndsWith(f.name, ".pdf") && TablePath(f).None? {
      TextPagesSameDocs(f.name, f.pages, IsPeraturanDocument(f.name, Sample(f.pages)), IsCalendarDocument(f.name), sp, a, b);
    }
  }

  /** The same for the whole directory. */
  lemma {:induction false} FilesSameDocs(files: seq<PdfFile>, sp: Splitters, a: Ingested, b: Ingested)
    requires a.docs == b.docs && a.stats.Keys <= b.stats.Keys
    ensures var ra, rb := IngestFiles(files, sp, a), IngestFiles(files, sp, b);
      ra.Success? ==> rb.Success? && ra.value.docs == rb.value.docs && ra.value.stats.Keys <= rb.value.stats.Keys
  {
    if |files| > 0 {
      var init := files[..|files| - 1];
      FilesSameDocs(init, sp, a, b);
      if IngestFiles(init, sp, a).Success? {
        FileSameDocs(files[|files| - 1], sp, IngestFiles(init, sp, a).value, IngestFiles(init, sp, b).value);
      }
    }
  }

  /** Adding the `generic` counter changes nothing but the crash: whenever
      the script as written finishes, it stores the documents the corrected
      loop stores. */
  lemma AsWrittenAgrees(files: seq<PdfFile>, sp: Splitters)
    ensures IngestAsWritten(files, sp).Success? ==>
      IngestAsWritten(files, sp).value.docs == IngestCorrected(files, sp).value.docs
  {
    FilesSameDocs(files, sp, Ingested([], InitialStats), Ingested([], CorrectedStats));
  }
}
