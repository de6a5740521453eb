# Academic-assistant retrieval core, modelled in Dafny

This project models the part of the ITB academic assistant backend that
decides how documents are cut into chunks and how a question is matched back
to them:

- **Query analysis** (`backend/utils.py`): `extract_article_number` and
  `parse_query`.
- **Re-ranking and context building** (`backend/utils.py`): `rerank_results`,
  `merge_adjacent_chunks` and `get_context_window`.
- **Segmentation strategies** (`backend/document_strategies.py`): the
  regulation ("peraturan"), calendar ("kalender") and generic strategies, and
  the factory that picks one.
- **Calendar table extraction** (`backend/table_extractor.py`): month and date
  recognition, table rows to chunks, whole-PDF extraction and the table probe.
- **Ingestion** (`backend/ingest.py`): the document-type checks,
  `smart_split_by_articles`, and the loop of `main` that turns files into
  stored documents and per-type counters.
- **The chat endpoint** (`backend/main.py`): retrieval with fallbacks,
  re-ranking, the top five, context text, source labels and the choice of
  prompt template.

Regular expressions are modelled as hand-written scanners. Each one has a
match table, a reference characterisation (`IsScan`) and lemmas that tie the
scanners to it. The accumulate-and-flush loop shared by both structured
strategies and by `smart_split_by_articles` is one generic fold
(`BoundarySplit`). Its results are characterised section by section.

Modules, in dependency order:

- `Wrappers`: Option, Result and the Python exception kinds.
- `Text`: ASCII character classes, strip, lower and join.
- `Seqs`: Python slices, dedup and flatten.
- `Patterns`: the regex scanners.
- `Splitting`: `re.split`.
- `BoundarySplit` and `HeadingSplit`: the chunking fold.
- `Documents`: metadata values, chunks and documents.
- `Strategies`.
- `Query`.
- `Rerank`.
- `Grouping` and `ChunkMerge`.
- `Collect`: map, filter and first failure over sequences.
- `TableExtractor`.
- `ArticleIngest`.
- `Ingest`.
- `Chat`.

Where the code and its documentation disagree, the model follows the code.
Two cases:

- `rerank_results` uses Python's stable `list.sort`, so equal scores keep
  their input order. `Rerank.RerankStable` states this tie order, which the
  system's documentation leaves unspecified.
- `KalenderStrategy.chunk` takes a `pdf_path`, but its table branch ends in
  `pass` (document_strategies.py:100-110). The path therefore changes nothing,
  and `Strategies.KalenderChunk` has no such parameter.

## Model

| member | source | states |
|---|---|---|
| Query.ExtractArticleNumber | backend/utils.py:4-24 | Some exactly when a `Pasal\s+\d+` or `pasal\s+\d+` marker occurs. The number comes from the first capitalised marker when there is one, otherwise from the first lower-case marker. |
| Query.ExtractArticleNumberPlain | backend/utils.py:9 | "Pasal 13" gives 13. |
| Query.ExtractArticleNumberAfterChapter | backend/utils.py:10 | "BAB II Pasal 5" gives 5. |
| Query.ExtractArticleNumberAfterSection | backend/utils.py:11 | "Ayat (1) Pasal 20" gives 20. |
| Query.ExtractArticleNumberCapitalFirst | backend/utils.py:14-22 | The capitalised pattern is tried first: "pasal 3 dan Pasal 7" gives 7. |
| Query.ExtractArticleNumberAbsent | backend/utils.py:19-24 | A text without a marker gives None. |
| Query.Without | backend/utils.py:96 | The kept words are exactly the non-stopwords, and no more words than the input. |
| Query.WithoutConcat | backend/utils.py:96 | Filtering stopwords distributes over concatenation, so the kept words stay in input order. |
| Query.KeywordsAreWords | backend/utils.py:93-96 | Every keyword has at least three lower-case ASCII letters and is not a stopword. |
| Query.ParseQuery | backend/utils.py:26-98 | As written: every failure is a ValueError. A success has no dates and carries the numbers of all `[Pp]asal` markers, in order. |
| Query.ParseQueryFails | backend/utils.py:70-76 | As written, the parse fails exactly when the query names no article and contains a digit. |
| Query.ParseQueryFailsOnDate | backend/utils.py:70-76 | As written, "libur 17 Agustus" fails. |
| Query.ParseQueryArticles | backend/utils.py:50-56 | A query naming an article returns early as a regulation query. Its numbers are non-empty, it is a comparison exactly when there is more than one, and it has no months or keywords. |
| Query.ParseQueryIntended | backend/utils.py:26-98 | The corrected parse: article numbers are all marker numbers, in order. |
| Query.ParseQueryIntendedDates | backend/utils.py:69-83 | The corrected parse reports dates exactly when the query names no article and contains a digit. It is then a calendar query about a specific date. |
| Query.ParseQueryIntendedCalendar | backend/utils.py:58-96 | Without an article: months are the month words as written. The query is a calendar one exactly when it has a month, a digit or a calendar keyword. It is a specific-date query exactly when it has a month or a digit. Keywords are the filtered words. |
| Query.ParseQueryAgrees | backend/utils.py:26-98 | Wherever the parse as written succeeds, it equals the corrected parse. |
| Rerank.ArticleScore | backend/utils.py:150-157 | The article boost is non-negative and at most 300 per queried number. Scores are in thousandths. |
| Rerank.ArticleScoreSplit | backend/utils.py:150-157 | The article boost adds up over the queried numbers. One number contributes 100 when the content mentions it plus 200 when the metadata carries it, which fixes the boost for every list. |
| Rerank.NoMatchZero | backend/utils.py:150-157 | With no mention and no metadata match for any queried number, the article boost is 0. |
| Rerank.MetadataBoost | backend/utils.py:156-157 | A metadata match with any queried number gives at least 200 (200000 thousandths). |
| Rerank.MetadataMatchOutranks | backend/utils.py:145-165 | A document whose metadata carries a queried number scores strictly higher than one that neither mentions nor carries any, given at least as many keyword hits and a length within 200000 characters. |
| Rerank.MetadataMatchFirst | backend/utils.py:145-172 | Under the same conditions, both documents are in `rerank_results` and every place holding the matching one comes before every place holding the other. |
| Rerank.RankUnique | backend/utils.py:170 | Exactly one ordering of all positions is sorted by descending score with ties in input order, and it is the one `Rank` computes. |
| Rerank.RerankResults | backend/utils.py:132-172 | Same length as the input, with scores non-increasing along the result. |
| Rerank.RerankPermutes | backend/utils.py:167-172 | The result is a permutation of the input. |
| Rerank.RerankStable | backend/utils.py:170 | Entry `a` is the input at rank position `a`. Equal scores keep their input order. |
| ChunkMerge.GroupKeysSpec | backend/utils.py:114-127 | The group keys are sorted and every used chunk's key is among them. Every key comes from a used chunk. |
| ChunkMerge.GroupKeysUnique | backend/utils.py:121-127 | The key list is the only sorted list that covers exactly the used keys. |
| ChunkMerge.MergeAdjacentChunks | backend/utils.py:100-130 | No chunks give no strings. Otherwise there is one merged string per distinct `source_page` key among the first `max_chunks` chunks. |
| ChunkMerge.MergeCovers | backend/utils.py:116-128 | Every used chunk's content is in the group of its key, and the string at that key's position joins that group with newlines. |
| ChunkMerge.MergeFrom | backend/utils.py:116-123 | Every content in a group comes from a used chunk that has that key. |
| ChunkMerge.ContextWindow | backend/utils.py:174-190 | An empty window gives the empty string. Otherwise the text starts with the window's first content. |
| ChunkMerge.WindowAroundTarget | backend/utils.py:186-189 | For an index in range, the window is `chunks[max(0,t-w):min(n,t+w+1)]`. It holds the target and at most 2w+1 chunks. |
| ChunkMerge.WindowNegativeEnd | backend/utils.py:186-189 | With a negative end index, Python's slice counts from the back, and the model does the same. |
| Strategies.PeraturanDetectByScan | backend/document_strategies.py:23-26 | Detected exactly when there are three or more `Pasal\s+\d+` matches, or the lower-cased file name contains "peraturan". |
| Strategies.PeraturanChunk | backend/document_strategies.py:29-73 | Every chunk is an article chunk. Its `doc_type` is "peraturan" and every other metadata key is kept. |
| Strategies.PeraturanSections | backend/document_strategies.py:32-48 | The sections are the preamble, with no number, then one section per marker. Each section is opened by the marker's text and tagged with its number. The sections concatenate back to the text, and the chunks are their pieces. |
| Strategies.PeraturanCount | backend/document_strategies.py:38-71 | When no section outgrows the limit, there is one chunk per marker, plus one for a non-blank preamble. |
| Strategies.PeraturanChunkTags | backend/document_strategies.py:38-71 | Every chunk carries the number of the most recent marker before it, or None before the first marker. The marker counts never decrease along the chunks. |
| Strategies.PeraturanClean | backend/document_strategies.py:40-71 | Every chunk is stripped and non-empty, or is a piece of the text splitter. |
| Strategies.PeraturanBlank | backend/document_strategies.py:66-73 | A blank page that fits gives no chunk. |
| Strategies.KalenderDetectByScan | backend/document_strategies.py:79-84 | Detected exactly when the lower-cased file name contains "kalender", or there are five or more day-month-year dates. |
| Strategies.KalenderChunk | backend/document_strategies.py:87-156 | Every chunk is a month chunk. Its `doc_type` is "kalender" and every other metadata key is kept. |
| Strategies.KalenderSections | backend/document_strategies.py:114-130 | The sections are the preamble, with no month, then one section per month heading, tagged with the heading's own text. The sections concatenate back to the text. |
| Strategies.KalenderCount | backend/document_strategies.py:120-154 | When no section outgrows the limit, there is one chunk per month heading, plus one for a non-blank preamble. |
| Strategies.KalenderChunkTags | backend/document_strategies.py:117-154 | Every chunk carries the text of the most recent month heading before it, or None before the first one. |
| Strategies.KalenderClean | backend/document_strategies.py:123-154 | Every chunk is stripped and non-empty, or is a piece of the text splitter. |
| Strategies.KalenderBlank | backend/document_strategies.py:149-156 | A blank page that fits gives no chunk. |
| Strategies.GenericChunk | backend/document_strategies.py:167-184 | One plain chunk per splitter piece, in order. Each has the piece as content and `doc_type` "generic". |
| Strategies.FirstDetected | backend/document_strategies.py:197-202 | Returns the first strategy in the list that detects the document, and None exactly when none does. |
| Strategies.GetStrategy | backend/document_strategies.py:190-202 | Regulation when it detects. Otherwise calendar when it detects. Otherwise generic. The result is the first detector in priority order, never none. |
| TableExtractor.MonthIndexFrom | backend/table_extractor.py:45-48 | The first month, from the given one on, whose lower-cased name occurs in the lower-cased text. None exactly when no later month occurs. |
| TableExtractor.ExtractMonth | backend/table_extractor.py:37-48 | Empty text gives None. Otherwise the result is the first month in calendar order that occurs, ignoring case. None means no month occurs. |
| TableExtractor.ExtractDate | backend/table_extractor.py:51-67 | Empty text gives None. A result is a piece of the input. |
| TableExtractor.ExtractDateShape | backend/table_extractor.py:57-65 | A found date starts with a digit and names a month. None exactly when the first pattern matches nowhere. |
| TableExtractor.DateSpanIsFirstPattern | backend/table_extractor.py:57-65 | The date is the first match of the first pattern. The second pattern never decides anything. |
| TableExtractor.SecondImpliesFirst | backend/table_extractor.py:58-59 | Wherever the second pattern matches, the first matches too. |
| TableExtractor.ExtractDateFourDigits | backend/table_extractor.py:58-65 | "2024 Januari" gives "2024 Januari": the two day groups share the four digits. |
| TableExtractor.CellTextBlank | backend/table_extractor.py:97 | A cell renders as empty exactly when it is missing, is "nan", or is blank. |
| TableExtractor.RowCellsSpec | backend/table_extractor.py:93-100 | The shown cells are exactly the visible columns with a non-empty value, in column order. |
| TableExtractor.RowCellOrigin | backend/table_extractor.py:93-100 | Every shown cell is the name and rendered value of one column. |
| TableExtractor.RowBlank | backend/table_extractor.py:93-112 | A row shows nothing exactly when every visible column renders as empty. |
| TableExtractor.RowMonthsSpec | backend/table_extractor.py:103-105 | The row's months are distinct calendar months, and every cell's month is among them. |
| TableExtractor.RowDatesSpec | backend/table_extractor.py:107-109 | The row's dates are distinct, each starts with a digit and names a month, and every cell's date is among them. |
| TableExtractor.RowMetadata | backend/table_extractor.py:84-125 | The keys are source, page, table_index and doc_type "kalender". `month` and `months` are present exactly when a month was found, and are the first month and the ", "-joined list. The same holds for the dates. |
| TableExtractor.RowChunk | backend/table_extractor.py:111-130 | A row gives a chunk exactly when it shows a cell. The content is the " \| "-joined "name: value" lines. |
| TableExtractor.RowChunkKeys | backend/table_extractor.py:103-121 | A chunk has `month`/`months` exactly when some shown cell names a month, and `date`/`dates` exactly when some shown cell holds a date. |
| TableExtractor.TableToChunks | backend/table_extractor.py:70-132 | Fails with an AttributeError exactly when a header cell is missing and there is a row. |
| TableExtractor.TableChunksOrigin | backend/table_extractor.py:81-132 | The chunks are the chunks of the showing rows, in row order, one per row. |
| TableExtractor.TableChunksNone | backend/table_extractor.py:81-132 | No chunk exactly when no row shows a cell. |
| TableExtractor.ExtractFromPdfSpec | backend/table_extractor.py:146-159 | Succeeds exactly when every table converts. The chunks are then the tables' chunks concatenated in table order. |
| TableExtractor.ExtractedChunksFields | backend/table_extractor.py:84-91 | Every extracted chunk carries the file name, `doc_type` "kalender" and only the known keys. |
| TableExtractor.TableCountGrows | backend/table_extractor.py:176-179 | The running table count never decreases. |
| TableExtractor.FirstFailure | backend/table_extractor.py:173-187 | The first page whose table reading raises, or the page count. |
| TableExtractor.PdfHasTables | backend/table_extractor.py:162-187 | The early-exit loop returns the loop-free answer: the file opens, and enough tables are counted before the first failing page. |
| TableExtractor.HasTablesWithoutFailures | backend/table_extractor.py:174-184 | Without failing pages, the answer is "opens and the total reaches the minimum". |
| TableExtractor.HasTablesFirstPageFails | backend/table_extractor.py:185-187 | An unopenable file, or a first page that raises, gives False. |
| ArticleIngest.IsCalendarDocument | backend/ingest.py:18-20 | True exactly when the lower-cased file name contains "kalender". Such a name makes the calendar strategy detect the document for any content. |
| ArticleIngest.IsPeraturanDocument | backend/ingest.py:22-26 | Equal to the regulation strategy's detection, for all inputs. |
| ArticleIngest.SmartSplitByArticles | backend/ingest.py:28-73 | Every chunk is an article chunk with an unmodified copy of the metadata. |
| ArticleIngest.BoundaryTagsAgree | backend/ingest.py:40-48 | On a marker piece, `extract_article_number` gives the same number as the strategy's `re.search`. |
| ArticleIngest.SmartSplitAgrees | backend/ingest.py:28-73 | Same chunks as the regulation strategy: equal contents and article numbers. The strategy only adds `doc_type`. |
| Ingest.TablePath | backend/ingest.py:92-123 | The table path is taken exactly for a calendar file whose probe finds a table and whose extraction succeeds. |
| Ingest.TableDocs | backend/ingest.py:106-115 | One document per table chunk, with the same content and `extraction_method` "table". |
| Ingest.TextDocType | backend/ingest.py:146-164 | "peraturan" for a regulation. Otherwise "kalender" for a calendar file name. Otherwise "generic". |
| Ingest.PageChunks | backend/ingest.py:138-163 | Every chunk of a page carries the page's base metadata. A non-regulation file gives plain chunks. |
| Ingest.CarriedArticle | backend/ingest.py:171 | An article number is kept exactly when it is present and non-zero. |
| Ingest.Enrich | backend/ingest.py:167-180 | The document has the chunk's content. `doc_type` is set, `article_number` and `has_article` are added exactly for a kept number, and the other keys are unchanged. |
| Ingest.Bump | backend/ingest.py:182 | Fails with KeyError exactly when the counter is missing. Otherwise only that counter grows, by the chunk count. |
| Ingest.IngestFile | backend/ingest.py:86-184 | A non-PDF name changes nothing. A PDF without the table path goes through the text path. |
| Ingest.TablePathDocs | backend/ingest.py:98-119 | A file on the table path stores exactly its table documents, all of them kalender table documents of that file. |
| Ingest.FallbackToText | backend/ingest.py:94-127 | Every way of missing the table path, including an extraction that raises, ends in the text path. |
| Ingest.PageDocs | backend/ingest.py:138-180 | Every document of a page carries the file name, `extraction_method` "text" and the file's doc type. Only regulation documents carry an article number, which is positive with `has_article` True. |
| Ingest.TextPagesDocs | backend/ingest.py:138-182 | The text path only appends, and every appended document is a text document of that file. |
| Ingest.BumpTotal | backend/ingest.py:182 | Raising one counter raises the sum of the counters by the same amount. |
| Ingest.TextPagesCount | backend/ingest.py:138-182 | The text path fails, with KeyError of its doc type, exactly when there is a page and that counter is missing. On success the counters grow by the number of appended documents. |
| Ingest.FileCount | backend/ingest.py:86-184 | A file's failure is a KeyError of a missing counter. Otherwise the counter keys stay the same and the counters grow by the number of new documents. |
| Ingest.FilesCount | backend/ingest.py:84-184 | With every counter present, the loop never fails, and the counters sum to the stored document count. |
| Ingest.GenericFileFails | backend/ingest.py:84-182 | A PDF with pages that is neither a calendar nor a regulation makes `stats['generic'] += …` raise KeyError('generic'). |
| Ingest.AsWrittenCrash | backend/ingest.py:84-182 | One generic PDF page crashes the loop as written. |
| Ingest.IngestCorrected | backend/ingest.py:84-184 | With a 'generic' counter the loop always succeeds, and the counters sum to the number of stored documents. |
| Ingest.AsWrittenAgrees | backend/ingest.py:84-184 | Wherever the loop as written succeeds, it stores the same documents as the corrected loop. |
| Chat.ArticleLookups | backend/main.py:46-52 | One top-5 lookup per queried article, filtered by that number, in order. |
| Chat.MonthLookups | backend/main.py:68-73 | One top-5 lookup per queried month, filtered by that month, in order. |
| Chat.WithFallbackSpec | backend/main.py:53-59 | The filtered lookups always run. The fallback runs exactly when they all return nothing, and its results are then the results. Otherwise the results are exactly what the filtered lookups found. |
| Chat.RetrieveSpec | backend/main.py:42-89 | An article query runs its article lookups and falls back to an unfiltered top-10. A calendar query runs its month lookups and falls back to a top-10 filtered to kalender. Any other query runs one top-10. Every lookup uses the question. |
| Chat.Reranked | backend/main.py:92-94 | The re-ranked results have the same length and non-increasing scores. |
| Chat.TopSpec | backend/main.py:99 | The top documents are min(5, n) of the results. |
| Chat.TopBeatsRest | backend/main.py:92-99 | No result outside the top scores higher than any top document. |
| Chat.TopLeads | backend/main.py:92-99 | The first top document is a result with the highest score. |
| Chat.ContextUses | backend/main.py:111-114 | The context joins the first three top contents for a specific-article query, and all of them otherwise. |
| Chat.ContextHolds | backend/main.py:108-114 | Every top content the context uses occurs in it. |
| Chat.ContextText | backend/main.py:97-114 | No top documents give an empty context. Otherwise it starts with the first top content. |
| Chat.PageLabel | backend/main.py:120 | `page + 1` fails with TypeError exactly when the page is a string. |
| Chat.SourceLabels | backend/main.py:119-120 | Every label or the first TypeError. Labels are index-aligned with the documents. |
| Chat.Sources | backend/main.py:117-123 | Fails, with a TypeError, exactly when some label fails. |
| Chat.SourcesSpec | backend/main.py:117-123 | The sources are distinct and at most one per top document. Every label appears, nothing else does, and the order is that of first occurrence. |
| Chat.ChooseTemplate | backend/main.py:126-192 | Exactly one template for every parsed query: article exactly for a specific-article query; calendar exactly for any other query that is about a date or a calendar document; comparison exactly for a comparison query about a non-calendar document; general exactly for a general query about a non-calendar document. |
| Chat.TemplateForQuestion | backend/main.py:126-192 | With the corrected parse: a question naming an article gets the article or comparison template, comparison exactly with several numbers. Any other question gets the calendar template exactly when it has a month, a digit or a calendar keyword, and the general template otherwise. As written, a question with a digit and no article raises ValueError before the template choice (`Chat.ChatFailsOnDigits`). |
| Chat.Answer | backend/main.py:32-123 | The endpoint fails, with a TypeError, exactly when a top document's source label fails. |
| Chat.AnswerSpec | backend/main.py:32-123 | A reply reports the lookups that ran, at most five distinct sources, and a context starting with the best-scoring result. |
| Chat.ChatEndpoint | backend/main.py:32-36 | With the corrected parse, the endpoint's only failure is a TypeError. |
| Chat.ChatFailsOnDigits | backend/main.py:36 | As written, the endpoint fails with ValueError exactly on questions that name no article and contain a digit. |
| Chat.ChatAgrees | backend/main.py:36 | The corrected endpoint never raises ValueError. Wherever the endpoint as written answers, its answer is the same. |

## Left out

- Character classes: `\s`, `\d`, `\w`, `\b`, `str.strip`, `str.lower`, `str.isspace` and `re.IGNORECASE` are modelled on ASCII only, because Python's Unicode tables are out of scope. So Unicode digits such as "٣" are not `\d` here, `"İ".lower()` is not modelled, and `\b` next to "é" is placed as if "é" were not a word character.
- Rerank.Score: the length term `len(content)/1000.0` is a float in the source. Here every score is an integer in thousandths (boosts ×1000 plus the length), which orders documents the same way. Floating-point rounding is not modelled.
- Strategies.KalenderChunk: the `pdf_path` parameter is dropped. Its branch (document_strategies.py:100-110) only probes for tables and then does nothing, and the probe's errors are caught, so it never affects the chunks.
- `RecursiveCharacterTextSplitter` is a parameter: an arbitrary function from text to pieces (sizes 2000/200 and 2000/400 in the source). Its separators, sizes and overlaps are not modelled, so every property holds for any splitter.
- `PyPDFLoader.load()` raising (ingest.py:126-127) is not modelled. A file gives its pages as data, and such an exception would end the script.
- TableExtractor.Table: `page` and `index` are options. table_extractor.py:30-31 always sets the `_source_page` and `_table_index` columns; the options also cover the `row.get(..., 0)` defaults, which apply when they are absent.
- `extract_tables_from_pdf` and `pdfplumber` are not modelled: a file gives its tables, the per-page table counts, and whether it opens.
- `TableExtractor.TableToChunks` zips header and rows the way pandas `iterrows` does for equal lengths. The `columns` list at table_extractor.py:79 is computed and never used, so it is not modelled.
- The vector store (Chroma), the embedding model, `shutil.rmtree` of the old database, and the order of `os.listdir` are left out. The store's similarity search is a parameter of the chat model, and the files are a given sequence.
- The LLM HTTP call, the prompt wording and the reply text are left out. The model stops at the chosen template, the context text and the sources.
- Console output (`print`) is left out: it has no effect on results.

## Findings

| source | as written | input that shows it | evidently intended | confidence | as-written member | corrected member |
|---|---|---|---|---|---|---|
| backend/ingest.py:182 | `stats[doc_type] += len(chunks)` with `stats` created at line 84 without a 'generic' key | one PDF whose name holds neither "kalender" nor "peraturan", with fewer than three `Pasal n` on its first page and at least one page: KeyError('generic') ends ingestion | every document type has a counter, so every file is ingested and counted | not executed | Ingest.GenericFileFails, Ingest.AsWrittenCrash | Ingest.IngestCorrected, Ingest.AsWrittenAgrees |
| backend/utils.py:70-76 | `re.findall` over a pattern with three groups (the month pattern adds its own group) returns triples, unpacked as `for day, month in date_matches` | "libur 17 Agustus", or any question with a digit and no `Pasal n`: ValueError (too many values to unpack) | each date mention becomes "day month", or just the day | not executed | Query.ParseQuery, Query.ParseQueryFails, Chat.ChatFailsOnDigits | Query.ParseQueryIntended, Query.ParseQueryAgrees, Chat.ChatAgrees |
