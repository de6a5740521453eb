/** The `/chat` endpoint: the similarity searches it issues for a question,
    the re-ranked top documents, the prompt context, the cited sources and the
    prompt template it picks.

    The vector store is the parameter `search`, from one search call to the
    documents it returns; the language-model request that follows is not
    part of this model. */
module Chat {
  import opened Wrappers
  import opened Text
  import opened Seqs
  import opened Documents
  import opened Patterns
  import opened Query
  import opened Rerank
  import opened ChunkMerge
  import opened Collect

  // ----- retrieval -----

  /** The metadata filter of a similarity search. */
  datatype Filter =
    | NoFilter
    | ArticleFilter(article: nat)
    | MonthFilter(month: string)
    | DocTypeFilter(docType: string)

  /** One `similarity_search(question, k=k, filter=...)` call. */
  datatype Lookup = Lookup(question: string, k: nat, filter: Filter)

  type Search = Lookup -> seq<Doc>

  /** One search of 5 per queried article, in order. */
  function ArticleLookups(q: string, arts: seq<nat>): (r: seq<Lookup>)
    ensures |r| == |arts|
    ensures forall i :: 0 <= i < |arts| ==> r[i] == Lookup(q, 5, ArticleFilter(arts[i]))
  {
    seq(|arts|, i requires 0 <= i < |arts| => Lookup(q, 5, ArticleFilter(arts[i])))
  }

  /** One search of 5 per queried month, in order. */
  function MonthLookups(q: string, months: seq<string>): (r: seq<Lookup>)
    ensures |r| == |months|
    ensures forall i :: 0 <= i < |months| ==> r[i] == Lookup(q, 5, MonthFilter(months[i]))
  {
    seq(|months|, i requires 0 <= i < |months| => Lookup(q, 5, MonthFilter(months[i])))
  }

  /** What each lookup returns. */
  function Answers(search: Search, ls: seq<Lookup>): (r: seq<seq<Doc>>)
    ensures |r| == |ls|
    ensures forall i :: 0 <= i < |ls| ==> r[i] == search(ls[i])
  {
    seq(|ls|, i requires 0 <= i < |ls| => search(ls[i]))
  }

  /** The documents of every lookup, in order (`results.extend`). */
  function LookupAll(search: Search, ls: seq<Lookup>): seq<Doc> {
    Flatten(Answers(search, ls))
  }

  /** The searches issued and the documents kept. */
  datatype Retrieval = Retrieval(lookups: seq<Lookup>, results: seq<Doc>)

  /** The filtered searches, then `fallback` alone when they found nothing. */
  function WithFallback(search: Search, first: seq<Lookup>, fallback: Lookup): Retrieval {
    var found := LookupAll(search, first);
    if found == [] then Retrieval(first + [fallback], search(fallback)) else Retrieval(first, found)
  }

  /** The filtered searches always run; the fallback runs exactly when none
      of them found anything, and then its documents are the results;
      otherwise the results are exactly what the filtered searches found. */
  lemma WithFallbackSpec(search: Search, first: seq<Lookup>, fallback: Lookup)
    ensures var r := WithFallback(search, first, fallback);
      && |first| <= |r.lookups| <= |first| + 1 && r.lookups[..|first|] == first
      && (|r.lookups| == |first| + 1 <==> forall i :: 0 <= i < |first| ==> search(first[i]) == [])
      && (|r.lookups| == |first| + 1 ==> r.lookups[|first|] == fallback && r.results == search(fallback))
      && (|r.lookups| == |first| ==> r.results != [])
      && (|r.lookups| == |first| ==> forall d :: d in r.results <==> exists i :: 0 <= i < |first| && d in search(first[i]))
  {
    var parts := Answers(search, first);
    FlattenEmpty(parts);
    forall d
      ensures d in LookupAll(search, first) <==> exists i :: 0 <= i < |first| && d in search(first[i])
    {
      FlattenMembers(parts, d);
      if exists k :: 0 <= k < |parts| && d in parts[k] {
        var k :| 0 <= k < |parts| && d in parts[k];
        assert d in search(first[k]);
      }
    }
  }

  /** The hybrid search of the endpoint: per-article searches with a plain
      semantic fallback; else, for a calendar query, per-month searches with
      a fallback restricted to calendar documents; else one plain search. */
  function Retrieve(q: string, info: QueryInfo, search: Search): Retrieval {
    if |info.articleNumbers| > 0 then
      WithFallback(search, ArticleLookups(q, info.articleNumbers), Lookup(q, 10, NoFilter))
    else if info.docType == KalenderDoc then
      WithFallback(search, MonthLookups(q, info.months), Lookup(q, 10, DocTypeFilter("kalender")))
    else
      Retrieval([Lookup(q, 10, NoFilter)], search(Lookup(q, 10, NoFilter)))
  }

  /** Which searches run for which query: every search uses the question;
      an article query starts with its article searches and a calendar
      query with its month searches, each falling back to one search of 10
      exactly when those found nothing (for a calendar query without months,
      always); any other query runs one plain search of 10. */
  lemma RetrieveSpec(q: string, info: QueryInfo, search: Search)
    ensures var r := Retrieve(q, info, search);
      && |r.lookups| > 0
      && (forall j :: 0 <= j < |r.lookups| ==> r.lookups[j].question == q)
      && (|info.articleNumbers| > 0 ==>
            && r.lookups[..|info.articleNumbers|] == ArticleLookups(q, info.articleNumbers)
            && (|r.lookups| > |info.articleNumbers| <==>
                  forall i :: 0 <= i < |info.articleNumbers| ==> search(Lookup(q, 5, ArticleFilter(info.articleNumbers[i]))) == [])
            && (|r.lookups| > |info.articleNumbers| ==>
                  r.lookups == ArticleLookups(q, info.articleNumbers) + [Lookup(q, 10, NoFilter)]))
      && (|info.articleNumbers| == 0 && info.docType == KalenderDoc ==>
            && r.lookups[..|info.months|] == MonthLookups(q, info.months)
            && (|r.lookups| > |info.months| <==>
                  forall i :: 0 <= i < |info.months| ==> search(Lookup(q, 5, MonthFilter(info.months[i]))) == [])
            && (|r.lookups| > |info.months| ==>
                  r.lookups == MonthLookups(q, info.months) + [Lookup(q, 10, DocTypeFilter("kalender"))]))
      && (|info.articleNumbers| == 0 && info.docType != KalenderDoc ==>
            r.lookups == [Lookup(q, 10, NoFilter)])
      && (r.results != [] ==> exists j :: 0 <= j < |r.lookups| && r.results[0] in search(r.lookups[j]))
  {
    var r := Retrieve(q, info, search);
    if |info.articleNumbers| > 0 {
      var first := ArticleLookups(q, info.articleNumbers);
      WithFallbackSpec(search, first, Lookup(q, 10, NoFilter));
      if |r.lookups| == |first| && r.results != [] {
        assert r.results[0] in r.results;
        var i :| 0 <= i < |first| && r.results[0] in search(first[i]);
        assert r.lookups[i] == first[i];
      } else if |r.lookups| > |first| {
        assert r.lookups == r.lookups[..|first|] + [r.lookups[|first|]];
      }
    } else if info.docType == KalenderDoc {
      var first := MonthLookups(q, info.months);
      WithFallbackSpec(search, first, Lookup(q, 10, DocTypeFilter("kalender")));
      if |r.lookups| == |first| && r.results != [] {
        assert r.results[0] in r.results;
        var i :| 0 <= i < |first| && r.results[0] in search(first[i]);
        assert r.lookups[i] == first[i];
      } else if |r.lookups| > |first| {
        assert r.lookups == r.lookups[..|first|] + [r.lookups[|first|]];
      }
    } else {
      if r.results != [] {
        assert r.results[0] in search(r.lookups[0]);
      }
    }
  }

  // ----- re-ranking and the top documents -----

  /** `rerank_results` when anything was found. */
  function Reranked(results: seq<Doc>, info: QueryInfo): (r: seq<Doc>)
    ensures |r| == |results|
    ensures forall a, b :: 0 <= a < b < |r| ==>
      Score(r[a], info.articleNumbers, info.keywords) >= Score(r[b], info.articleNumbers, info.keywords)
  {
    if |results| > 0 then RerankResults(results, info.articleNumbers, info.keywords) else results
  }

  /** `results[:5]` after re-ranking. */
  function Top(results: seq<Doc>, info: QueryInfo): seq<Doc> {
    PyPrefix(Reranked(results, info), 5)
  }

  /** The top documents are at most five of the results. */
  lemma TopSpec(results: seq<Doc>, info: QueryInfo)
    ensures |Top(results, info)| == Min(5, |results|)
    ensures multiset(Top(results, info)) <= multiset(results)
  {
    var ranked := Reranked(results, info);
    if |results| > 0 {
      RerankPermutes(results, info.articleNumbers, info.keywords);
    }
    var top := Top(results, info);
    assert ranked == top + ranked[|top|..];
  }

  /** No result left out of the top scores higher than any kept one. */
  lemma TopBeatsRest(results: seq<Doc>, info: QueryInfo)
    ensures var top := Top(results, info);
      forall i, d :: 0 <= i < |top| && d in multiset(results) - multiset(top) ==>
        Score(d, info.articleNumbers, info.keywords) <= Score(top[i], info.articleNumbers, info.keywords)
  {
    var ranked := Reranked(results, info);
    if |results| > 0 {
      RerankPermutes(results, info.articleNumbers, info.keywords);
    }
    var top := Top(results, info);
    var rest := ranked[|top|..];
    assert ranked == top + rest;
    assert multiset(ranked) == multiset(top) + multiset(rest);
    forall i, d | 0 <= i < |top| && d in multiset(results) - multiset(top)
      ensures Score(d, info.articleNumbers, info.keywords) <= Score(top[i], info.articleNumbers, info.keywords)
    {
      assert d in multiset(rest);
      var j :| 0 <= j < |rest| && rest[j] == d;
      assert ranked[|top| + j] == d && ranked[i] == top[i];
    }
  }

  // ----- context -----

  const ContextSeparator := "\n\n---\n\n"

  /** How many top documents enter the context: three for a specific
      article, all of them otherwise. */
  function ContextCount(info: QueryInfo, n: nat): (r: nat)
    ensures r <= n
  {
    if info.queryType == SpecificArticle && n > 0 then Min(3, n) else n
  }

  /** The prompt context: the contents of the top documents joined by a
      rule line, only the first three for a specific-article query. */
  function ContextText(info: QueryInfo, top: seq<Doc>): (r: string)
    ensures |top| == 0 ==> r == ""
    ensures |top| > 0 ==> StartsWith(r, top[0].content)
  {
    var contents := Contents(top);
    if info.queryType == SpecificArticle && |contents| > 0 then Join(ContextSeparator, PyPrefix(contents, 3))
    else Join(ContextSeparator, contents)
  }

  /** The context holds the content of every top document it uses: the
      first three for a specific-article query, all five otherwise. */
  lemma ContextHolds(info: QueryInfo, top: seq<Doc>, i: nat)
    requires i < |top|
    requires info.queryType == SpecificArticle ==> i < 3
    ensures Contains(ContextText(info, top), top[i].content)
  {
    var contents := Contents(top);
    if info.queryType == SpecificArticle {
      var used := PyPrefix(contents, 3);
      assert used[i] == top[i].content;
      JoinHas(ContextSeparator, used, i);
    } else {
      JoinHas(ContextSeparator, contents, i);
    }
  }

  /** The context joins exactly the first `ContextCount` contents. */
  lemma ContextUses(info: QueryInfo, top: seq<Doc>)
    ensures var n := ContextCount(info, |top|);
      && (info.queryType == SpecificArticle ==> n <= 3)
      && (info.queryType != SpecificArticle ==> n == |top|)
      && ContextText(info, top) == Join(ContextSeparator, Contents(top[..n]))
  {
    var n := ContextCount(info, |top|);
    assert Contents(top[..n]) == Contents(top)[..n];
    if info.queryType == SpecificArticle && |top| > 0 {
      assert PyPrefix(Contents(top), 3) == Contents(top)[..n];
    } else {
      assert Contents(top)[..n] == Contents(top);
    }
  }

  // ----- sources -----

  /** `metadata.get('page', 0) + 1`: a missing page counts as 0, a boolean
      as 0 or 1, and a string page raises TypeError. */
  function PageLabel(v: Option<Value>): (r: Result<int>)
    ensures r.Failure? <==> v.Some? && v.value.Str?
    ensures r.Failure? ==> r.error.TypeError?
  {
    match v
    case None => Success(1)
    case Some(Int(i)) => Success(i + 1)
    case Some(Bool(b)) => Success(if b then 2 else 1)
    case Some(Str(_)) => Failure(TypeError("can only concatenate str (not \"int\") to str"))
  }

  /** `f"{source} (Page. {page + 1})"`; a missing source prints `None`. */
  function SourceLabel(d: Doc): Result<string> {
    match PageLabel(Get(d.metadata, "page"))
    case Success(p) => Success(Format(Get(d.metadata, "source")) + " (Page. " + IntToString(p) + ")")
    case Failure(e) => Failure(e)
  }

  /** The label of every document, or the first error. */
  function SourceLabels(docs: seq<Doc>): (r: Result<seq<string>>)
    ensures r.Success? <==> forall i :: 0 <= i < |docs| ==> SourceLabel(docs[i]).Success?
    ensures r.Failure? ==> r.error.TypeError?
    ensures r.Success? ==> |r.value| == |docs|
    ensures r.Success? ==> forall i :: 0 <= i < |docs| ==> r.value[i] == SourceLabel(docs[i]).value
  {
    MapAll(SourceLabel, docs)
  }

  /** The source list: each label once, in order of first appearance. */
  function Sources(top: seq<Doc>): (r: Result<seq<string>>)
    ensures r.Success? <==> SourceLabels(top).Success?
    ensures r.Failure? ==> r.error.TypeError?
  {
    match SourceLabels(top)
    case Failure(e) => Failure(e)
    case Success(ls) => Success(Dedup(ls))
  }

  /** The sources are distinct, no more than the documents, name every top
      document's label and nothing else, in order of first appearance. */
  lemma SourcesSpec(top: seq<Doc>)
    requires Sources(top).Success?
    ensures var s := Sources(top).value;
      var ls := SourceLabels(top).value;
      && NoDuplicates(s) && |s| <= |top|
      && (forall i :: 0 <= i < |top| ==> SourceLabel(top[i]).value in s)
      && (forall j :: 0 <= j < |s| ==> exists i :: 0 <= i < |top| && SourceLabel(top[i]).value == s[j])
      && (forall a, b :: 0 <= a < b < |s| ==> IndexOf(ls, s[a]) < IndexOf(ls, s[b]))
  {
    var ls := SourceLabels(top).value;
    DedupMembers(ls);
    DedupOrder(ls);
    var s := Dedup(ls);
    forall j | 0 <= j < |s|
      ensures exists i :: 0 <= i < |top| && SourceLabel(top[i]).value == s[j]
    {
      var i :| 0 <= i < |ls| && ls[i] == s[j];
    }
  }

  // ----- prompt template -----

  /** The four prompt templates. */
  datatype Template = ArticleTemplate | CalendarTemplate | ComparisonTemplate | GeneralTemplate

  /** The template for the parsed query: the article template for a specific
      article, then the calendar one for a date or a calendar document, then
      the comparison one, else the general one. */
  function ChooseTemplate(info: QueryInfo): (r: Template)
    ensures r == ArticleTemplate <==> info.queryType == SpecificArticle
    ensures r == CalendarTemplate <==>
      info.queryType != SpecificArticle && (info.queryType == SpecificDate || info.docType == KalenderDoc)
    ensures r == ComparisonTemplate <==> info.queryType == Comparison && info.docType != KalenderDoc
    ensures r == GeneralTemplate <==> info.queryType == GeneralQuery && info.docType != KalenderDoc
  {
    match info.queryType
    case SpecificArticle => ArticleTemplate
    case _ =>
      if info.queryType == SpecificDate || info.docType == KalenderDoc then CalendarTemplate
      else if info.queryType == Comparison then ComparisonTemplate
      else GeneralTemplate
  }

  /** With the corrected parse, the template in terms of the question: one
      article named gives the article template and several the comparison
      one; a question naming no article gets the calendar template exactly
      when it names a month, holds a digit or uses a calendar keyword, and the
      general one otherwise. As written, a question naming no article but
      holding a digit never reaches the template choice (`ChatFailsOnDigits`). */
  lemma TemplateForQuestion(q: string)
    ensures var t := ChooseTemplate(ParseQueryIntended(q));
      && (NamesArticle(q) ==> (t == ArticleTemplate || t == ComparisonTemplate))
      && (NamesArticle(q) ==> (t == ComparisonTemplate <==> |MarkerNumbers(AnyArticleMarker, q)| > 1))
      && (!NamesArticle(q) ==> (t == CalendarTemplate <==>
            Texts(q, FindAll(MonthWord, q)) != [] || HasDigit(q) || HasCalendarKeyword(q)))
      && (!NamesArticle(q) ==> (t == CalendarTemplate || t == GeneralTemplate))
  {
    if NamesArticle(q) {
      ParseQueryArticles(q);
      ParseQueryAgrees(q);
    } else {
      ParseQueryIntendedCalendar(q);
      ParseQueryIntendedDates(q);
    }
  }

  // ----- the endpoint -----

  /** What the endpoint computes before calling the language model. */
  datatype Reply = Reply(lookups: seq<Lookup>, template: Template, context: string, sources: seq<string>)

  /** The endpoint for an already parsed question. */
  function Answer(q: string, info: QueryInfo, search: Search): (r: Result<Reply>)
    ensures r.Failure? ==> r.error.TypeError?
    ensures var top := Top(Retrieve(q, info, search).results, info);
      r.Failure? <==> exists i :: 0 <= i < |top| && SourceLabel(top[i]).Failure?
  {
    var found := Retrieve(q, info, search);
    var top := Top(found.results, info);
    match Sources(top)
    case Failure(e) => Failure(e)
    case Success(s) => Success(Reply(found.lookups, ChooseTemplate(info), ContextText(info, top), s))
  }

  /** The endpoint as written: the question parsed by `parse_query` as
      written, whose ValueError becomes the endpoint's error. */
  function ChatAsWritten(q: string, search: Search): Result<Reply> {
    match ParseQuery(q)
    case Failure(e) => Failure(e)
    case Success(info) => Answer(q, info, search)
  }

  /** The endpoint with the corrected parse. */
  function ChatEndpoint(q: string, search: Search): (r: Result<Reply>)
    ensures r.Failure? ==> r.error.TypeError?
  {
    Answer(q, ParseQueryIntended(q), search)
  }

  /** The first top document is the highest-scoring document retrieved. */
  lemma TopLeads(results: seq<Doc>, info: QueryInfo)
    requires results != []
    ensures Top(results, info)[0] in results
    ensures forall d :: d in results ==>
      Score(d, info.articleNumbers, info.keywords) <= Score(Top(results, info)[0], info.articleNumbers, info.keywords)
  {
    var ranked := Reranked(results, info);
    RerankPermutes(results, info.articleNumbers, info.keywords);
    assert Top(results, info)[0] == ranked[0];
    assert ranked[0] in multiset(results);
    forall d | d in results
      ensures Score(d, info.articleNumbers, info.keywords) <= Score(ranked[0], info.articleNumbers, info.keywords)
    {
      assert d in multiset(ranked);
      var j :| 0 <= j < |ranked| && ranked[j] == d;
    }
  }

  /** A reply reports the searches issued, cites at most five distinct
      sources, and its context opens with the highest-scoring document
      retrieved. */
  lemma AnswerSpec(q: string, info: QueryInfo, search: Search)
    requires Answer(q, info, search).Success?
    ensures var found := Retrieve(q, info, search);
      var top := Top(found.results, info);
      var reply := Answer(q, info, search).value;
      && reply.lookups == found.lookups && reply.lookups != []
      && |reply.sources| <= 5 && NoDuplicates(reply.sources)
      && (found.results != [] ==>
            && StartsWith(reply.context, top[0].content)
            && top[0] in found.results
            && forall d :: d in found.results ==>
                 Score(d, info.articleNumbers, info.keywords) <= Score(top[0], info.articleNumbers, info.keywords))
  {
    var found := Retrieve(q, info, search);
    var top := Top(found.results, info);
    TopSpec(found.results, info);
    RetrieveSpec(q, info, search);
    SourcesSpec(top);
    if found.results != [] {
      TopLeads(found.results, info);
    }
  }

  /** As written, the endpoint fails with a ValueError exactly on the
      questions that name no article and hold a digit, whatever the store
      holds: any question naming a date. */
  lemma ChatFailsOnDigits(q: string, search: Search)
    ensures ChatAsWritten(q, search).Failure? && ChatAsWritten(q, search).error.ValueError?
      <==> !NamesArticle(q) && HasDigit(q)
  {
    ParseQueryFails(q);
  }

  /** The corrected endpoint never fails with a ValueError, and wherever the
      endpoint as written answers, it answers what the corrected one does. */
  lemma ChatAgrees(q: string, search: Search)
    ensures ChatEndpoint(q, search).Failure? ==> !ChatEndpoint(q, search).error.ValueError?
    ensures ChatAsWritten(q, search).Success? ==> ChatAsWritten(q, search) == ChatEndpoint(q, search)
  {
    if ParseQuery(q).Success? {
      ParseQueryAgrees(q);
    }
  }
}
