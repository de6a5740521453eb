/** The two list helpers that assemble retrieved chunks into prompt context:
    grouping chunks by source and page, and the window of chunks around one
    target chunk. */
module ChunkMerge {
  import opened Wrappers
  import opened Text
  import opened Seqs
  import opened Documents
  import opened Grouping

  /** `f"{source}_{page}"`, with `source` defaulting to `unknown` and `page`
      to 0 when the metadata lacks them. */
  function Key(d: Doc): string {
    Format(Some(Get(d.metadata, "source").GetOr(Str("unknown"))))
      + "_" + Format(Some(Get(d.metadata, "page").GetOr(Int(0))))
  }

  /** The entry of every chunk, in order. */
  function Entries(docs: seq<Doc>): (r: seq<Entry<string, string>>)
    ensures |r| == |docs|
    ensures forall i :: 0 <= i < |docs| ==> r[i] == Entry(Key(docs[i]), docs[i].content)
  {
    seq(|docs|, i requires 0 <= i < |docs| => Entry(Key(docs[i]), docs[i].content))
  }

  /** Insert `k` in front of the first key it sorts before. */
  function InsertKey(xs: seq<string>, k: string): (r: seq<string>)
    ensures |r| == |xs| + 1
  {
    if |xs| == 0 then [k]
    else if LexLess(k, xs[0]) then [k] + xs
    else [xs[0]] + InsertKey(xs[1..], k)
  }

  /** Insertion adds exactly the one key. */
  lemma {:induction false} InsertKeyMembers(xs: seq<string>, k: string)
    ensures multiset(InsertKey(xs, k)) == multiset(xs) + multiset{k}
  {
    if |xs| > 0 && !LexLess(k, xs[0]) {
      InsertKeyMembers(xs[1..], k);
      assert xs == [xs[0]] + xs[1..];
    }
  }

  /** Keys in strictly increasing string order. */
  predicate KeysSorted(xs: seq<string>) {
    forall a, b :: 0 <= a < b < |xs| ==> LexLess(xs[a], xs[b])
  }

  /** Inserting a new key into sorted keys keeps them sorted. */
  lemma {:induction false} InsertKeySorted(xs: seq<string>, k: string)
    requires KeysSorted(xs) && k !in xs
    ensures KeysSorted(InsertKey(xs, k))
  {
    if |xs| == 0 {
    } else if LexLess(k, xs[0]) {
      forall j | 0 < j < |xs|
        ensures LexLess(k, xs[j])
      {
        LexLessTransitive(k, xs[0], xs[j]);
      }
      assert InsertKey(xs, k) == [k] + xs;
    } else {
      var rest := InsertKey(xs[1..], k);
      assert k !in xs[1..];
      InsertKeySorted(xs[1..], k);
      InsertKeyMembers(xs[1..], k);
      LexLessTotal(k, xs[0]);
      forall j | 0 <= j < |rest|
        ensures LexLess(xs[0], rest[j])
      {
        assert rest[j] in multiset(rest);
        if rest[j] != k {
          assert rest[j] in xs[1..];
          var m :| 0 <= m < |xs[1..]| && xs[1..][m] == rest[j];
          assert LexLess(xs[0], xs[m + 1]);
        }
      }
      assert InsertKey(xs, k) == [xs[0]] + rest;
    }
  }

  /** `sorted(keys)`, by repeated insertion. */
  function SortKeys(xs: seq<string>): (r: seq<string>)
    ensures |r| == |xs|
  {
    if |xs| == 0 then [] else InsertKey(SortKeys(xs[..|xs| - 1]), xs[|xs| - 1])
  }

  /** Sorting distinct keys permutes them into strictly increasing order. */
  lemma {:induction false} SortKeysSpec(xs: seq<string>)
    requires NoDuplicates(xs)
    ensures multiset(SortKeys(xs)) == multiset(xs)
    ensures KeysSorted(SortKeys(xs))
  {
    if |xs| > 0 {
      var init := xs[..|xs| - 1];
      var k := xs[|xs| - 1];
      SortKeysSpec(init);
      InsertKeyMembers(SortKeys(init), k);
      assert k !in init;
      assert k !in multiset(SortKeys(init));
      InsertKeySorted(SortKeys(init), k);
      PrefixSnoc(xs, |xs|);
      assert xs[..|xs|] == xs;
    }
  }

  /** The distinct keys of the chunks, in string order. */
  function GroupKeys(es: seq<Entry<string, string>>): seq<string> {
    SortKeys(Dedup(EntryKeys(es)))
  }

  /** The group keys are strictly increasing and are exactly the entries' keys. */
  lemma GroupKeysSpec(es: seq<Entry<string, string>>)
    ensures KeysSorted(GroupKeys(es))
    ensures forall i :: 0 <= i < |es| ==> es[i].key in GroupKeys(es)
    ensures forall j :: 0 <= j < |GroupKeys(es)| ==> GroupKeys(es)[j] in EntryKeys(es)
  {
    var ks := EntryKeys(es);
    DedupOrder(ks);
    DedupMembers(ks);
    SortKeysSpec(Dedup(ks));
    var g := GroupKeys(es);
    forall i | 0 <= i < |es|
      ensures es[i].key in g
    {
      assert ks[i] in Dedup(ks);
      assert ks[i] in multiset(g);
    }
    forall j | 0 <= j < |g|
      ensures g[j] in ks
    {
      assert g[j] in multiset(Dedup(ks));
    }
  }

  /** String order is asymmetric. */
  lemma LexLessAsymmetric()
    ensures Asymmetric(LexLess)
  {
    forall x: string, y: string | LexLess(x, y)
      ensures !LexLess(y, x)
    {
      if LexLess(y, x) {
        LexLessTransitive(x, y, x);
        LexLessIrreflexive(x);
      }
    }
  }

  /** The group keys are the only strictly increasing list of exactly the
      chunks' keys: `sorted` of the distinct keys has one answer. */
  lemma GroupKeysUnique(es: seq<Entry<string, string>>, ks: seq<string>)
    requires KeysSorted(ks)
    requires forall i :: 0 <= i < |es| ==> es[i].key in ks
    requires forall j :: 0 <= j < |ks| ==> ks[j] in EntryKeys(es)
    ensures ks == GroupKeys(es)
  {
    var g := GroupKeys(es);
    GroupKeysSpec(es);
    LexLessAsymmetric();
    assert StrictlySorted(LexLess, ks) && StrictlySorted(LexLess, g);
    forall j | 0 <= j < |ks|
      ensures ks[j] in g
    {
      var i :| 0 <= i < |EntryKeys(es)| && EntryKeys(es)[i] == ks[j];
    }
    forall j | 0 <= j < |g|
      ensures g[j] in ks
    {
      var i :| 0 <= i < |EntryKeys(es)| && EntryKeys(es)[i] == g[j];
    }
    SortedUnique(LexLess, ks, g);
  }

  /** `merge_adjacent_chunks`: one string per distinct key among the first
      `maxChunks` chunks, in key order, each joining that key's contents. */
  function MergeAdjacentChunks(chunks: seq<Doc>, maxChunks: int): (r: seq<string>)
    ensures |chunks| == 0 ==> r == []
    ensures |chunks| > 0 ==> |r| == |GroupKeys(Entries(PyPrefix(chunks, maxChunks)))|
  {
    if |chunks| == 0 then []
    else
      var es := Entries(PyPrefix(chunks, maxChunks));
      var ks := GroupKeys(es);
      seq(|ks|, i requires 0 <= i < |ks| => Join("\n", Group(es, ks[i])))
  }

  /** Every chunk among the first `maxChunks` lands in the merged string of
      its own key; the merged strings follow strictly increasing key order,
      so that string is the only one for the key. */
  lemma MergeCovers(chunks: seq<Doc>, maxChunks: int, i: nat)
    requires i < |PyPrefix(chunks, maxChunks)|
    ensures var used := PyPrefix(chunks, maxChunks);
      var es := Entries(used);
      var ks := GroupKeys(es);
      var r := MergeAdjacentChunks(chunks, maxChunks);
      KeysSorted(ks) && |r| == |ks| &&
      (exists j :: 0 <= j < |ks| && ks[j] == Key(used[i]) && r[j] == Join("\n", Group(es, ks[j])) &&
        used[i].content in Group(es, ks[j]))
  {
    var es := Entries(PyPrefix(chunks, maxChunks));
    GroupKeysSpec(es);
    GroupHas(es, es[i].key);
    var ks := GroupKeys(es);
    var j :| 0 <= j < |ks| && ks[j] == es[i].key;
  }

  /** Each merged string joins entries that all carry its key. */
  lemma MergeFrom(chunks: seq<Doc>, maxChunks: int, j: nat, c: string)
    requires |chunks| > 0
    requires j < |MergeAdjacentChunks(chunks, maxChunks)|
    requires c in Group(Entries(PyPrefix(chunks, maxChunks)), GroupKeys(Entries(PyPrefix(chunks, maxChunks)))[j])
    ensures var used := PyPrefix(chunks, maxChunks);
      exists i :: 0 <= i < |used| && used[i].content == c &&
        Key(used[i]) == GroupKeys(Entries(used))[j]
  {
    var used := PyPrefix(chunks, maxChunks);
    var es := Entries(used);
    GroupFrom(es, GroupKeys(es)[j], c);
    var i :| 0 <= i < |es| && es[i] == Entry(GroupKeys(es)[j], c);
  }

  /** Python's `max` and `min` on two integers. */
  function Max(a: int, b: int): int { if a < b then b else a }
  function Min(a: int, b: int): int { if a < b then a else b }

  /** `chunks[max(0, t - w):min(len(chunks), t + w + 1)]`. */
  function WindowChunks(chunks: seq<Doc>, t: int, w: int): (r: seq<Doc>)
    ensures |r| <= |chunks|
  {
    PySlice(chunks, Max(0, t - w), Min(|chunks|, t + w + 1))
  }

  /** The contents of the chunks, in order. */
  function Contents(docs: seq<Doc>): (r: seq<string>)
    ensures |r| == |docs|
    ensures forall i :: 0 <= i < |docs| ==> r[i] == docs[i].content
  {
    seq(|docs|, i requires 0 <= i < |docs| => docs[i].content)
  }

  /** `get_context_window`: the window's contents joined by a rule line. */
  function ContextWindow(chunks: seq<Doc>, t: int, w: int): (r: string)
    ensures |WindowChunks(chunks, t, w)| == 0 ==> r == ""
    ensures |WindowChunks(chunks, t, w)| > 0 ==> StartsWith(r, WindowChunks(chunks, t, w)[0].content)
  {
    Join("\n\n---\n\n", Contents(WindowChunks(chunks, t, w)))
  }

  /** For a target inside the list and a non-negative width, the window is
      the contiguous run of at most `2w + 1` chunks around the target,
      clipped to the list, and holds the target. */
  lemma WindowAroundTarget(chunks: seq<Doc>, t: int, w: int)
    requires 0 <= t < |chunks| && w >= 0
    ensures var lo := Max(0, t - w);
      var hi := Min(|chunks|, t + w + 1);
      lo <= t < hi && hi - lo <= 2 * w + 1 &&
      WindowChunks(chunks, t, w) == chunks[lo..hi] &&
      WindowChunks(chunks, t, w)[t - lo] == chunks[t]
  {
  }

  /** A target far enough before the start makes the end bound negative, and
      Python's slice then counts it from the end of the list: the window is
      a prefix, not empty. */
  lemma WindowNegativeEnd(chunks: seq<Doc>, t: int, w: int)
    requires t + w + 1 < 0 && t - w <= 0
    ensures WindowChunks(chunks, t, w) == chunks[..Max(0, |chunks| + t + w + 1)]
  {
  }
}
