/** The accumulator loop applied to `re.split`'s pieces at a heading: what
    the sections are, how many chunks come out and what a blank page gives. */
module HeadingSplit {
  import opened Wrappers
  import opened Text
  import opened Seqs
  import opened Patterns
  import opened Splitting
  import opened BoundarySplit

  /** The loop configuration of a splitter that cuts at heading `h`. */
  function HeadingConfig<T>(h: Heading, tagOf: string -> T, init: T, splitter: string -> seq<string>, maxSize: nat): Config<T> {
    Config(BoundaryTest(h), tagOf, init, splitter, maxSize)
  }

  /** The text before the first heading; all of it when there is none. */
  function Preamble(h: Heading, text: string): string {
    var f := FindAll(PatternOf(h), text);
    text[..if |f| == 0 then |text| else f[0].start]
  }

  /** A heading starts with a character that is not whitespace. */
  lemma HeadingStartsSolid(h: Heading, s: string, i: nat)
    requires i <= |s| && HeadingAt(h, s, i).Some?
    ensures i < |s| && !IsSpace(s[i])
  {
    if h == MonthHeading {
      MonthStartsWithLetter(s, i, false);
    }
  }

  /** A piece that passes the boundary test is not blank. */
  lemma BoundaryNotBlank(h: Heading, p: string)
    requires IsBoundary(h, p)
    ensures !AllSpaces(p)
  {
    StripBlank(p);
  }

  /** The sections of `re.split`'s pieces: the first holds the first piece,
      every other one is a matched heading followed by one text piece. */
  lemma SplitSections<T>(h: Heading, tagOf: string -> T, init: T, splitter: string -> seq<string>, maxSize: nat, text: string)
    ensures var c := HeadingConfig(h, tagOf, init, splitter, maxSize);
      var f := FindAll(PatternOf(h), text);
      var secs := Sections(c, Split(h, text));
      && |secs| == |f| + 1
      && secs[0] == Section("", init, [Split(h, text)[0]])
      && (forall k :: 1 <= k < |secs| ==>
            secs[k].head == text[f[k - 1].start..f[k - 1].end] && secs[k].tag == tagOf(secs[k].head) && |secs[k].gaps| == 1)
  {
    SplitHeads(h, text);
    HeadedSections(HeadingConfig(h, tagOf, init, splitter, maxSize), Split(h, text), Texts(text, FindAll(PatternOf(h), text)));
  }

  /** `AlternatingSections` with the boundary pieces named. */
  lemma HeadedSections<T>(c: Config<T>, parts: seq<string>, heads: seq<string>)
    requires |parts| == 2 * |heads| + 1
    requires forall k :: 0 <= k < |heads| ==> parts[2 * k + 1] == heads[k]
    requires forall k :: 0 <= k < |parts| ==> (c.isBoundary(parts[k]) <==> k % 2 == 1)
    ensures var secs := Sections(c, parts);
      && |secs| == |heads| + 1
      && secs[0] == Section("", c.init, [parts[0]])
      && (forall k :: 1 <= k < |secs| ==> secs[k].head == heads[k - 1] && secs[k].tag == c.tagOf(secs[k].head) && |secs[k].gaps| == 1)
  {
    AlternatingSections(c, parts);
    var secs := Sections(c, parts);
    forall k | 1 <= k < |secs|
      ensures secs[k].head == heads[k - 1]
    {
      assert 2 * k - 1 == 2 * (k - 1) + 1;
    }
  }

  /** `re.split`'s first piece is the preamble. */
  lemma SplitPreamble(h: Heading, text: string)
    ensures Split(h, text)[0] == Preamble(h, text)
  {
    HeadingsArePatternMatches(h, text);
    SplitFirst(text, Headings(h, text), 0, 0);
  }

  /** Cutting at headings: one section before the first heading holding the
      preamble, then one section per heading, opened by the heading's text and
      tagged by it. The sections cover the text in order, and the chunks are
      what the sections emit, one after the other. */
  lemma HeadingSections<T>(h: Heading, tagOf: string -> T, init: T, splitter: string -> seq<string>, maxSize: nat, text: string)
    ensures var c := HeadingConfig(h, tagOf, init, splitter, maxSize);
      var f := FindAll(PatternOf(h), text);
      var secs := Sections(c, Split(h, text));
      && |secs| == |f| + 1
      && secs[0] == Section("", init, [Preamble(h, text)])
      && (forall k :: 1 <= k < |secs| ==>
            secs[k].head == text[f[k - 1].start..f[k - 1].end] && secs[k].tag == tagOf(secs[k].head) && |secs[k].gaps| == 1)
      && AllText(secs) == text
      && Chunks(c, Split(h, text)) == AllPieces(c, secs)
  {
    var c := HeadingConfig(h, tagOf, init, splitter, maxSize);
    var parts := Split(h, text);
    SplitSections(h, tagOf, init, splitter, maxSize, text);
    SplitPreamble(h, text);
    SplitFacts(h, text);
    SectionsCover(c, parts);
    ChunksBySections(c, parts);
  }

  /** The section before the first heading covers exactly the preamble. */
  lemma PreambleSection<T>(sec: Section<T>, pre: string)
    requires sec.head == "" && sec.gaps == [pre]
    ensures SectionText(sec) == pre
  {
    FlattenAppend([], pre);
  }

  /** When no section outgrows the size limit, a heading splitter emits one
      chunk per heading, plus one when the preamble is not blank. */
  lemma HeadingCount<T>(h: Heading, tagOf: string -> T, init: T, splitter: string -> seq<string>, maxSize: nat, text: string)
    requires var c := HeadingConfig(h, tagOf, init, splitter, maxSize);
      forall k :: 0 <= k < |Sections(c, Split(h, text))| ==> Fits(c, Sections(c, Split(h, text))[k])
    ensures |Chunks(HeadingConfig(h, tagOf, init, splitter, maxSize), Split(h, text))| ==
      |FindAll(PatternOf(h), text)| + (if AllSpaces(Preamble(h, text)) then 0 else 1)
  {
    var c := HeadingConfig(h, tagOf, init, splitter, maxSize);
    var parts := Split(h, text);
    forall p | c.isBoundary(p)
      ensures !AllSpaces(p)
    {
      BoundaryNotBlank(h, p);
    }
    ChunkCount(c, parts);
    SectionsCount(c, parts);
    HeadingSections(h, tagOf, init, splitter, maxSize, text);
    PreambleSection(Sections(c, parts)[0], Preamble(h, text));
  }

  /** A blank text has no heading and gives no chunk, provided the text
      splitter returns nothing for it when it is too long. */
  lemma HeadingBlank<T>(h: Heading, tagOf: string -> T, init: T, splitter: string -> seq<string>, maxSize: nat, text: string)
    requires AllSpaces(text)
    requires |text| <= maxSize || splitter(text) == []
    ensures Chunks(HeadingConfig(h, tagOf, init, splitter, maxSize), Split(h, text)) == []
  {
    var m := Headings(h, text);
    forall j | 0 <= j < |text|
      ensures m[j].None?
    {
      if HeadingAt(h, text, j).Some? {
        HeadingStartsSolid(h, text, j);
      }
    }
    SplitNoMatch(text, m, 0, 0);
    assert Split(h, text) == [text];
    if IsBoundary(h, text) {
      BoundaryNotBlank(h, text);
    }
    BlankPiece(HeadingConfig(h, tagOf, init, splitter, maxSize), text);
  }

  /** Every chunk carries the initial tag or the tag of one of the headings. */
  lemma HeadingChunkTags<T>(h: Heading, tagOf: string -> T, init: T, splitter: string -> seq<string>, maxSize: nat, text: string)
    ensures var ps, f := Chunks(HeadingConfig(h, tagOf, init, splitter, maxSize), Split(h, text)), FindAll(PatternOf(h), text);
      forall i :: 0 <= i < |ps| ==>
        ps[i].tag == init || exists k :: 0 <= k < |f| && ps[i].tag == tagOf(text[f[k].start..f[k].end])
  {
    var c := HeadingConfig(h, tagOf, init, splitter, maxSize);
    var f := FindAll(PatternOf(h), text);
    var secs := Sections(c, Split(h, text));
    SplitSections(h, tagOf, init, splitter, maxSize, text);
    ChunksBySections(c, Split(h, text));
    AllPiecesTags(c, secs);
    var ps := AllPieces(c, secs);
    forall i | 0 <= i < |ps| && ps[i].tag != init
      ensures exists k :: 0 <= k < |f| && ps[i].tag == tagOf(text[f[k].start..f[k].end])
    {
      var j :| 0 <= j < |secs| && ps[i].tag == secs[j].tag;
      assert secs[0].tag == init;
      assert secs[j].tag == tagOf(text[f[j - 1].start..f[j - 1].end]);
    }
  }

  /** Where each chunk comes from: chunk `i` is emitted by section `idx[i]`,
      in text order; the section before the first heading carries the
      initial tag, and section `k` is opened by the `k`-th heading and
      carries that heading's tag. */
  lemma HeadingChunkOrigin<T>(h: Heading, tagOf: string -> T, init: T, splitter: string -> seq<string>, maxSize: nat, text: string)
    returns (idx: seq<nat>)
    ensures var c := HeadingConfig(h, tagOf, init, splitter, maxSize);
      var ps, f := Chunks(c, Split(h, text)), FindAll(PatternOf(h), text);
      var secs := Sections(c, Split(h, text));
      && |idx| == |ps| && |secs| == |f| + 1
      && (forall i :: 0 <= i < |ps| ==> idx[i] <= |f| && ps[i] in SectionPieces(c, secs[idx[i]]))
      && (forall i :: 0 <= i < |ps| && idx[i] == 0 ==> ps[i].tag == init)
      && (forall i :: 0 <= i < |ps| && idx[i] > 0 ==>
            secs[idx[i]].head == text[f[idx[i] - 1].start..f[idx[i] - 1].end] &&
            ps[i].tag == tagOf(text[f[idx[i] - 1].start..f[idx[i] - 1].end]))
      && (forall a, b :: 0 <= a <= b < |ps| ==> idx[a] <= idx[b])
  {
    var c := HeadingConfig(h, tagOf, init, splitter, maxSize);
    HeadingSections(h, tagOf, init, splitter, maxSize, text);
    idx := AllPiecesOrigin(c, Sections(c, Split(h, text)));
  }

  /** With optional tags that name each heading's value, every chunk carries
      no tag or one of those values. */
  lemma HeadingChunkValues<U>(h: Heading, tagOf: string -> Option<U>, splitter: string -> seq<string>, maxSize: nat, text: string, values: seq<U>)
    requires var f := FindAll(PatternOf(h), text);
      && |values| == |f|
      && forall k :: 0 <= k < |f| ==> tagOf(text[f[k].start..f[k].end]) == Some(values[k])
    ensures var ps := Chunks(HeadingConfig(h, tagOf, None, splitter, maxSize), Split(h, text));
      forall i :: 0 <= i < |ps| ==> ps[i].tag == None || ps[i].tag.value in values
  {
    var f := FindAll(PatternOf(h), text);
    var ps := Chunks(HeadingConfig(h, tagOf, None, splitter, maxSize), Split(h, text));
    HeadingChunkTags(h, tagOf, None, splitter, maxSize, text);
    forall i | 0 <= i < |ps| && ps[i].tag != None
      ensures ps[i].tag.value in values
    {
      var k :| 0 <= k < |f| && ps[i].tag == tagOf(text[f[k].start..f[k].end]);
      assert ps[i].tag.value == values[k];
    }
  }
}
