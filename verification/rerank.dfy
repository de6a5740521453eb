/** Re-ranking retrieved documents: an additive relevance score, then a
    stable sort by decreasing score.

    `rerank_results` scores with a float (`100`, `200`, `5` and `len / 1000`); here
    it is scaled by 1000 to an integer, which orders documents the same way. */
module Rerank {
  import opened Wrappers
  import opened Text
  import opened Seqs
  import opened Documents

  /** `f'pasal {n}' in content or f'pasal  {n}' in content`: a prefix test,
      so `pasal 50` also mentions article 5. */
  predicate MentionsArticle(content: string, n: nat) {
    Contains(content, "pasal " + NatToString(n)) || Contains(content, "pasal  " + NatToString(n))
  }

  /** `metadata.get('article_number') == n`; Python's `True == 1` and
      `False == 0` make a boolean compare as a number. */
  predicate MetadataArticle(md: Metadata, n: nat) {
    match Get(md, "article_number")
    case Some(Int(i)) => i == n
    case Some(Bool(b)) => (if b then 1 else 0) == n
    case _ => false
  }

  /** The article part of the score, over the queried numbers. */
  function ArticleScore(content: string, md: Metadata, arts: seq<nat>): (r: int)
    ensures 0 <= r <= 300000 * |arts|
  {
    if |arts| == 0 then 0
    else
      var n := arts[|arts| - 1];
      ArticleScore(content, md, arts[..|arts| - 1])
        + (if MentionsArticle(content, n) then 100000 else 0)
        + (if MetadataArticle(md, n) then 200000 else 0)
  }

  /** How many entries of the keyword list occur in the content. */
  function KeywordHits(content: string, kws: seq<string>): (r: nat)
    ensures r <= |kws|
  {
    if |kws| == 0 then 0
    else KeywordHits(content, kws[..|kws| - 1]) + (if Contains(content, kws[|kws| - 1]) then 1 else 0)
  }

  /** The score of one document, times 1000. */
  function Score(d: Doc, arts: seq<nat>, kws: seq<string>): int {
    var content := LowerStr(d.content);
    ArticleScore(content, d.metadata, arts) + 5000 * KeywordHits(content, kws) + |content|
  }

  /** Each queried article whose number the metadata carries adds 200 (x1000). */
  lemma {:induction false} MetadataBoost(content: string, md: Metadata, arts: seq<nat>, k: nat)
    requires k < |arts| && MetadataArticle(md, arts[k])
    ensures ArticleScore(content, md, arts) >= 200000
  {
    if k < |arts| - 1 {
      MetadataBoost(content, md, arts[..|arts| - 1], k);
    }
  }

  /** The article part is additive over the queried numbers, and one number
      adds 100 (x1000) for a mention in the content plus 200 for a metadata
      match: together these fix the value for every list of numbers. */
  lemma {:induction false} ArticleScoreSplit(content: string, md: Metadata, a: seq<nat>, b: seq<nat>)
    ensures ArticleScore(content, md, a + b) == ArticleScore(content, md, a) + ArticleScore(content, md, b)
    ensures |b| == 1 ==> (ArticleScore(content, md, b) ==
      (if MentionsArticle(content, b[0]) then 100000 else 0) + (if MetadataArticle(md, b[0]) then 200000 else 0))
  {
    if |b| == 0 {
      assert a + b == a;
    } else {
      var b' := b[..|b| - 1];
      ArticleScoreSplit(content, md, a, b');
      assert (a + b)[..|a + b| - 1] == a + b';
      assert (a + b)[|a + b| - 1] == b[|b| - 1];
      if |b| == 1 {
        assert b' == [];
      }
    }
  }

  /** No mention and no metadata match for any queried number: no article boost. */
  lemma {:induction false} NoMatchZero(content: string, md: Metadata, arts: seq<nat>)
    requires forall k :: 0 <= k < |arts| ==> !MentionsArticle(content, arts[k]) && !MetadataArticle(md, arts[k])
    ensures ArticleScore(content, md, arts) == 0
  {
    if |arts| > 0 {
      NoMatchZero(content, md, arts[..|arts| - 1]);
    }
  }

  /** A document whose metadata carries a queried article number scores higher
      than one that neither mentions nor carries any queried number, when it
      has at least as many keyword hits and is not 200000 characters shorter:
      the 200-point metadata boost outweighs the length term. */
  lemma MetadataMatchOutranks(d1: Doc, d2: Doc, arts: seq<nat>, kws: seq<string>, k: nat)
    requires k < |arts| && MetadataArticle(d1.metadata, arts[k])
    requires forall j :: 0 <= j < |arts| ==>
      !MentionsArticle(LowerStr(d2.content), arts[j]) && !MetadataArticle(d2.metadata, arts[j])
    requires KeywordHits(LowerStr(d1.content), kws) >= KeywordHits(LowerStr(d2.content), kws)
    requires |d2.content| < |d1.content| + 200000
    ensures Score(d1, arts, kws) > Score(d2, arts, kws)
  {
    MetadataBoost(LowerStr(d1.content), d1.metadata, arts, k);
    NoMatchZero(LowerStr(d2.content), d2.metadata, arts);
  }

  /** In `rerank_results`, such a document comes before the other one: both
      are in the result, and every place holding the first precedes every
      place holding the second. */
  lemma MetadataMatchFirst(docs: seq<Doc>, arts: seq<nat>, kws: seq<string>, i: nat, j: nat, k: nat)
    requires i < |docs| && j < |docs|
    requires k < |arts| && MetadataArticle(docs[i].metadata, arts[k])
    requires forall m :: 0 <= m < |arts| ==>
      !MentionsArticle(LowerStr(docs[j].content), arts[m]) && !MetadataArticle(docs[j].metadata, arts[m])
    requires KeywordHits(LowerStr(docs[i].content), kws) >= KeywordHits(LowerStr(docs[j].content), kws)
    requires |docs[j].content| < |docs[i].content| + 200000
    ensures var r := RerankResults(docs, arts, kws);
      docs[i] in r && docs[j] in r &&
      forall a, b :: 0 <= a < |r| && 0 <= b < |r| && r[a] == docs[i] && r[b] == docs[j] ==> a < b
  {
    MetadataMatchOutranks(docs[i], docs[j], arts, kws, k);
    RerankPermutes(docs, arts, kws);
    var r := RerankResults(docs, arts, kws);
    assert docs[i] in multiset(docs) && docs[j] in multiset(docs);
  }

  /** Document `i` comes before document `j`: a higher score, or the same
      score and an earlier position (the sort is stable). */
  predicate Before(sc: seq<int>, i: nat, j: nat) {
    i < |sc| && j < |sc| && (sc[i] > sc[j] || (sc[i] == sc[j] && i < j))
  }

  /** Every position of `order` comes before every later one. */
  predicate Ranked(sc: seq<int>, order: seq<nat>) {
    forall a, b :: 0 <= a < b < |order| ==> Before(sc, order[a], order[b])
  }

  /** Every position in `order` is below `n`. */
  predicate Within(order: seq<nat>, n: nat) {
    forall k :: 0 <= k < |order| ==> order[k] < n
  }

  /** `Before` orders positions transitively. */
  lemma BeforeTransitive(sc: seq<int>, i: nat, j: nat, k: nat)
    requires Before(sc, i, j) && Before(sc, j, k)
    ensures Before(sc, i, k)
  {
  }

  /** Insert position `i` in front of the first entry it comes before. */
  function Insert(sc: seq<int>, order: seq<nat>, i: nat): (r: seq<nat>)
    ensures |r| == |order| + 1
  {
    if |order| == 0 then [i]
    else if Before(sc, i, order[0]) then [i] + order
    else [order[0]] + Insert(sc, order[1..], i)
  }

  /** Insertion adds exactly the one position. */
  lemma {:induction false} InsertMembers(sc: seq<int>, order: seq<nat>, i: nat)
    ensures multiset(Insert(sc, order, i)) == multiset(order) + multiset{i}
  {
    if |order| > 0 && !Before(sc, i, order[0]) {
      InsertMembers(sc, order[1..], i);
      assert order == [order[0]] + order[1..];
    }
  }

  /** Inserting a position below `n` keeps every position below `n`. */
  lemma InsertWithin(sc: seq<int>, order: seq<nat>, i: nat, n: nat)
    requires i < n && Within(order, n)
    ensures Within(Insert(sc, order, i), n)
  {
    var r := Insert(sc, order, i);
    InsertMembers(sc, order, i);
    forall k | 0 <= k < |r|
      ensures r[k] < n
    {
      assert r[k] in multiset(r);
      if r[k] != i {
        assert r[k] in order;
      }
    }
  }

  /** Inserting a position larger than every ranked one keeps the order ranked. */
  lemma {:induction false} InsertRanked(sc: seq<int>, order: seq<nat>, i: nat)
    requires i < |sc| && Ranked(sc, order) && Within(order, i)
    ensures Ranked(sc, Insert(sc, order, i))
  {
    if |order| == 0 {
    } else if Before(sc, i, order[0]) {
      forall k | 0 < k < |order|
        ensures Before(sc, i, order[k])
      {
        BeforeTransitive(sc, i, order[0], order[k]);
      }
      assert Insert(sc, order, i) == [i] + order;
    } else {
      assert Ranked(sc, order[1..]);
      InsertRanked(sc, order[1..], i);
      InsertMembers(sc, order[1..], i);
      var rest := Insert(sc, order[1..], i);
      assert Before(sc, order[0], i);
      forall k | 0 <= k < |rest|
        ensures Before(sc, order[0], rest[k])
      {
        assert rest[k] in multiset(rest);
        if rest[k] != i {
          assert rest[k] in order[1..];
          var j :| 0 <= j < |order[1..]| && order[1..][j] == rest[k];
          assert Before(sc, order[0], order[j + 1]);
        }
      }
      assert Insert(sc, order, i) == [order[0]] + rest;
    }
  }

  /** The ranking of the first `n` positions, by repeated insertion. */
  function RankFrom(sc: seq<int>, n: nat): (r: seq<nat>)
    ensures |r| == n
  {
    if n == 0 then [] else Insert(sc, RankFrom(sc, n - 1), n - 1)
  }

  /** The ranking of the first `n` positions holds each of them once. */
  lemma {:induction false} RankFromMembers(sc: seq<int>, n: nat)
    ensures Within(RankFrom(sc, n), n)
    ensures forall x :: 0 <= x < n ==> x in RankFrom(sc, n)
  {
    if n > 0 {
      var prev := RankFrom(sc, n - 1);
      RankFromMembers(sc, n - 1);
      InsertWithin(sc, prev, n - 1, n);
      InsertMembers(sc, prev, n - 1);
      forall x | 0 <= x < n
        ensures x in RankFrom(sc, n)
      {
        assert x == n - 1 || x in prev;
        assert x in multiset(Insert(sc, prev, n - 1));
      }
    }
  }

  /** Repeated insertion yields a ranked order. */
  lemma {:induction false} RankFromRanked(sc: seq<int>, n: nat)
    requires n <= |sc|
    ensures Ranked(sc, RankFrom(sc, n))
  {
    if n > 0 {
      RankFromRanked(sc, n - 1);
      RankFromMembers(sc, n - 1);
      InsertRanked(sc, RankFrom(sc, n - 1), n - 1);
    }
  }

  /** The positions of the documents in ranked order. */
  function Rank(sc: seq<int>): (r: seq<nat>)
    ensures |r| == |sc|
    ensures Within(r, |sc|)
    ensures forall i :: 0 <= i < |sc| ==> i in r
    ensures Ranked(sc, r)
  {
    RankFromRanked(sc, |sc|);
    RankFromMembers(sc, |sc|);
    RankFrom(sc, |sc|)
  }

  /** Any permutation of the positions ordered by `Before` is the ranking: a
      stable sort by decreasing score has exactly one result. */
  lemma RankUnique(sc: seq<int>, order: seq<nat>)
    requires forall i :: 0 <= i < |sc| ==> i in order
    requires Within(order, |sc|)
    requires Ranked(sc, order)
    ensures order == Rank(sc)
  {
    var lt := (x, y) => Before(sc, x, y);
    var r := Rank(sc);
    assert StrictlySorted(lt, order) && StrictlySorted(lt, r);
    SortedUnique(lt, order, r);
  }

  function Scores(docs: seq<Doc>, arts: seq<nat>, kws: seq<string>): (r: seq<int>)
    ensures |r| == |docs|
    ensures forall i :: 0 <= i < |docs| ==> r[i] == Score(docs[i], arts, kws)
  {
    seq(|docs|, i requires 0 <= i < |docs| => Score(docs[i], arts, kws))
  }

  /** The documents at the given positions, in that order. */
  function Pick(docs: seq<Doc>, order: seq<nat>): (r: seq<Doc>)
    requires Within(order, |docs|)
    ensures |r| == |order|
  {
    if |order| == 0 then [] else [docs[order[0]]] + Pick(docs, order[1..])
  }

  /** Entry `k` of a pick is the document at position `order[k]`. */
  lemma {:induction false} PickAt(docs: seq<Doc>, order: seq<nat>)
    requires Within(order, |docs|)
    ensures forall k :: 0 <= k < |order| ==> Pick(docs, order)[k] == docs[order[k]]
  {
    if |order| > 0 {
      PickAt(docs, order[1..]);
    }
  }

  /** Picking from a sequence with a given first position. */
  lemma PickCons(docs: seq<Doc>, x: nat, rest: seq<nat>)
    requires x < |docs| && Within(rest, |docs|)
    ensures multiset(Pick(docs, [x] + rest)) == multiset{docs[x]} + multiset(Pick(docs, rest))
  {
    assert ([x] + rest)[1..] == rest;
  }

  /** Picking after an insertion adds the inserted document once. */
  lemma {:induction false} InsertPick(docs: seq<Doc>, sc: seq<int>, order: seq<nat>, i: nat)
    requires i < |docs| && Within(order, |docs|)
    ensures Within(Insert(sc, order, i), |docs|)
    ensures multiset(Pick(docs, Insert(sc, order, i))) == multiset(Pick(docs, order)) + multiset{docs[i]}
    decreases |order|
  {
    InsertWithin(sc, order, i, |docs|);
    var r := Insert(sc, order, i);
    if |order| == 0 || Before(sc, i, order[0]) {
      assert r == [i] + order;
      PickCons(docs, i, order);
    } else {
      InsertPick(docs, sc, order[1..], i);
      InsertPickStep(docs, sc, order, i);
    }
  }

  /** Insertion past the head keeps the head and inserts into the tail. */
  lemma InsertPickStep(docs: seq<Doc>, sc: seq<int>, order: seq<nat>, i: nat)
    requires i < |docs| && Within(order, |docs|) && |order| > 0 && !Before(sc, i, order[0])
    requires Within(Insert(sc, order[1..], i), |docs|)
    requires multiset(Pick(docs, Insert(sc, order[1..], i))) == multiset(Pick(docs, order[1..])) + multiset{docs[i]}
    ensures Within(Insert(sc, order, i), |docs|)
    ensures multiset(Pick(docs, Insert(sc, order, i))) == multiset(Pick(docs, order)) + multiset{docs[i]}
  {
    var r := Insert(sc, order, i);
    assert r[0] == order[0] && r[1..] == Insert(sc, order[1..], i);
    InsertWithin(sc, order, i, |docs|);
    PickSameHead(docs, r, order, i);
  }

  /** Adding a document to the pick of a tail adds it to the pick of the
      whole sequence. */
  lemma PickSameHead(docs: seq<Doc>, xs: seq<nat>, ys: seq<nat>, i: nat)
    requires |xs| > 0 && |ys| > 0 && xs[0] == ys[0] && i < |docs|
    requires Within(xs, |docs|) && Within(ys, |docs|)
    requires multiset(Pick(docs, xs[1..])) == multiset(Pick(docs, ys[1..])) + multiset{docs[i]}
    ensures multiset(Pick(docs, xs)) == multiset(Pick(docs, ys)) + multiset{docs[i]}
  {
    var d := multiset{docs[xs[0]]};
    assert multiset(Pick(docs, xs)) == d + multiset(Pick(docs, xs[1..]));
    assert multiset(Pick(docs, ys)) == d + multiset(Pick(docs, ys[1..]));
  }

  /** One more insertion picks one more document of the prefix. */
  lemma RankFromPickStep(docs: seq<Doc>, sc: seq<int>, n: nat)
    requires 0 < n <= |docs|
    requires Within(RankFrom(sc, n - 1), |docs|)
    requires multiset(Pick(docs, RankFrom(sc, n - 1))) == multiset(docs[..n - 1])
    ensures Within(RankFrom(sc, n), |docs|)
    ensures multiset(Pick(docs, RankFrom(sc, n))) == multiset(docs[..n])
  {
    var prev := RankFrom(sc, n - 1);
    assert RankFrom(sc, n) == Insert(sc, prev, n - 1);
    InsertPick(docs, sc, prev, n - 1);
    PrefixSnoc(docs, n);
  }

  /** The ranking of the first `n` positions picks the first `n` documents. */
  lemma {:induction false} RankFromPick(docs: seq<Doc>, sc: seq<int>, n: nat)
    requires n <= |docs|
    ensures Within(RankFrom(sc, n), |docs|)
    ensures multiset(Pick(docs, RankFrom(sc, n))) == multiset(docs[..n])
  {
    if n > 0 {
      RankFromPick(docs, sc, n - 1);
      RankFromPickStep(docs, sc, n);
    }
  }

  /** `rerank_results`: the documents by decreasing score, ties in input order. */
  function RerankResults(docs: seq<Doc>, arts: seq<nat>, kws: seq<string>): (r: seq<Doc>)
    ensures |r| == |docs|
    ensures forall a, b :: 0 <= a < b < |r| ==> Score(r[a], arts, kws) >= Score(r[b], arts, kws)
  {
    var sc := Scores(docs, arts, kws);
    var r := Pick(docs, Rank(sc));
    PickAt(docs, Rank(sc));
    assert forall a, b :: 0 <= a < b < |r| ==> Before(sc, Rank(sc)[a], Rank(sc)[b]);
    r
  }

  /** Re-ranking is a permutation: every document keeps its multiplicity. */
  lemma RerankPermutes(docs: seq<Doc>, arts: seq<nat>, kws: seq<string>)
    ensures multiset(RerankResults(docs, arts, kws)) == multiset(docs)
  {
    var sc := Scores(docs, arts, kws);
    RankFromPick(docs, sc, |docs|);
    assert docs[..|docs|] == docs;
  }

  /** Documents with equal scores keep their input order. */
  lemma RerankStable(docs: seq<Doc>, arts: seq<nat>, kws: seq<string>, a: nat, b: nat)
    requires a < b < |docs|
    ensures var order := Rank(Scores(docs, arts, kws));
      RerankResults(docs, arts, kws)[a] == docs[order[a]] &&
      RerankResults(docs, arts, kws)[b] == docs[order[b]] &&
      (Score(docs[order[a]], arts, kws) == Score(docs[order[b]], arts, kws) ==> order[a] < order[b])
  {
    var sc := Scores(docs, arts, kws);
    PickAt(docs, Rank(sc));
    assert Before(sc, Rank(sc)[a], Rank(sc)[b]);
  }
}
