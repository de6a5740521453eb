/** The accumulator loop shared by the article splitter and the month splitter.

    The loop walks over the pieces produced by `re.split`. A piece that passes
    the boundary test closes the current chunk (emitting it stripped, when it
    is not blank) and starts a new one, whose tag is computed from the piece.
    Any other piece is appended to the current chunk; when that makes the
    chunk longer than the size limit, the text splitter cuts it, every
    sub-chunk but the last is emitted as is, and the last one carries on.

    The main theorem cuts the loop into sections, each a boundary piece with
    the pieces after it: the loop's output is the sections' outputs, each
    section processed on its own. */
module BoundarySplit {
  import opened Text
  import opened Seqs

  /** An emitted chunk and the tag of the section it came from. */
  datatype Piece<T> = Piece(content: string, tag: T)

  /** The loop's state: the chunk being accumulated, the current tag and the
      chunks emitted so far. */
  datatype Acc<T> = Acc(current: string, tag: T, done: seq<Piece<T>>)

  /** What the loop is parameterised by: the boundary test, the tag a boundary
      piece sets, the tag before the first boundary, the text splitter and the
      size limit. */
  datatype Config<T> = Config(
    isBoundary: string -> bool,
    tagOf: string -> T,
    init: T,
    splitter: string -> seq<string>,
    maxSize: nat)

  /** A chunk that `strip` leaves unchanged and that is not empty. */
  predicate Clean(t: string) {
    t != "" && !IsSpace(t[0]) && !IsSpace(t[|t| - 1])
  }

  /** Closing a chunk: emit it stripped, unless it is blank. */
  function Flush<T>(current: string, tag: T): (r: seq<Piece<T>>)
    ensures r == [] <==> AllSpaces(current)
    ensures forall i :: 0 <= i < |r| ==> Clean(r[i].content) && r[i].tag == tag
    ensures |r| == 1 ==> r[0].content == Strip(current)
  {
    StripBlank(current);
    if Strip(current) != "" then [Piece(Strip(current), tag)] else []
  }

  /** Every string of `xs`, tagged. */
  function Tagged<T>(xs: seq<string>, tag: T): (r: seq<Piece<T>>)
    ensures |r| == |xs|
    ensures forall i :: 0 <= i < |xs| ==> r[i] == Piece(xs[i], tag)
  {
    seq(|xs|, i requires 0 <= i < |xs| => Piece(xs[i], tag))
  }

  /** Appending a piece that is not a boundary, and cutting the chunk with the
      splitter when it has grown past the limit. */
  function Grow<T>(c: Config<T>, a: Acc<T>, part: string): (r: Acc<T>)
    ensures r.tag == a.tag
  {
    var cur := a.current + part;
    if |cur| > c.maxSize then
      var subs := c.splitter(cur);
      Acc(if |subs| > 0 then subs[|subs| - 1] else "", a.tag, a.done + Tagged(PyPrefix(subs, -1), a.tag))
    else Acc(cur, a.tag, a.done)
  }

  /** One iteration of the loop. */
  function Step<T>(c: Config<T>, a: Acc<T>, part: string): Acc<T> {
    if c.isBoundary(part) then Acc(part, c.tagOf(part), a.done + Flush(a.current, a.tag))
    else Grow(c, a, part)
  }

  /** The loop over `parts`, from an empty chunk with the initial tag. */
  function Run<T>(c: Config<T>, parts: seq<string>): Acc<T> {
    if |parts| == 0 then Acc("", c.init, [])
    else Step(c, Run(c, parts[..|parts| - 1]), parts[|parts| - 1])
  }

  /** The splitter's output: the loop followed by the final flush. */
  function Chunks<T>(c: Config<T>, parts: seq<string>): seq<Piece<T>> {
    var a := Run(c, parts);
    a.done + Flush(a.current, a.tag)
  }

  /** A boundary piece with the pieces that follow it up to the next boundary;
      the first section has an empty head and the initial tag. */
  datatype Section<T> = Section(head: string, tag: T, gaps: seq<string>)

  /** The text a section covers. */
  function SectionText<T>(sec: Section<T>): string {
    sec.head + Flatten(sec.gaps)
  }

  /** `parts` grouped into sections, independently of the loop. */
  function Sections<T>(c: Config<T>, parts: seq<string>): (r: seq<Section<T>>)
    ensures |r| > 0
  {
    if |parts| == 0 then [Section("", c.init, [])]
    else
      var secs := Sections(c, parts[..|parts| - 1]);
      var p := parts[|parts| - 1];
      if c.isBoundary(p) then secs + [Section(p, c.tagOf(p), [])]
      else
        var last := secs[|secs| - 1];
        secs[..|secs| - 1] + [Section(last.head, last.tag, last.gaps + [p])]
  }

  /** One section run on its own: start from its head and grow by its gaps. */
  function SectionRun<T>(c: Config<T>, sec: Section<T>): (r: Acc<T>)
    ensures r.tag == sec.tag
    decreases |sec.gaps|
  {
    if |sec.gaps| == 0 then Acc(sec.head, sec.tag, [])
    else
      var before := Section(sec.head, sec.tag, sec.gaps[..|sec.gaps| - 1]);
      Grow(c, SectionRun(c, before), sec.gaps[|sec.gaps| - 1])
  }

  /** What one section emits. */
  function SectionPieces<T>(c: Config<T>, sec: Section<T>): seq<Piece<T>> {
    var a := SectionRun(c, sec);
    a.done + Flush(a.current, a.tag)
  }

  /** What a list of sections emits, section after section. */
  function AllPieces<T>(c: Config<T>, secs: seq<Section<T>>): seq<Piece<T>> {
    if |secs| == 0 then []
    else AllPieces(c, secs[..|secs| - 1]) + SectionPieces(c, secs[|secs| - 1])
  }

  /** Chunks emitted earlier do not affect a growth step. */
  lemma GrowAppend<T>(c: Config<T>, a: Acc<T>, earlier: seq<Piece<T>>, part: string)
    ensures Grow(c, Acc(a.current, a.tag, earlier + a.done), part)
         == Acc(Grow(c, a, part).current, a.tag, earlier + Grow(c, a, part).done)
  {
  }

  /** The loop, after any prefix of the pieces, has emitted what the closed
      sections emit and is in the middle of the last section, exactly as if
      that section were run on its own. */
  lemma {:induction false} RunBySections<T>(c: Config<T>, parts: seq<string>)
    ensures var secs := Sections(c, parts);
      Run(c, parts) == Acc(SectionRun(c, secs[|secs| - 1]).current, secs[|secs| - 1].tag,
                           AllPieces(c, secs[..|secs| - 1]) + SectionRun(c, secs[|secs| - 1]).done)
  {
    if |parts| > 0 {
      var init, p := parts[..|parts| - 1], parts[|parts| - 1];
      RunBySections(c, init);
      var secs := Sections(c, init);
      var k := |secs| - 1;
      var last := secs[k];
      var r := SectionRun(c, last);
      if c.isBoundary(p) {
        BoundaryStep(c, secs, p);
      } else {
        GapStep(c, secs, p);
        GrowAppend(c, r, AllPieces(c, secs[..k]), p);
      }
    }
  }

  /** The boundary case of `RunBySections`: the open section is closed and a
      new one starts at the boundary piece. */
  lemma BoundaryStep<T>(c: Config<T>, secs: seq<Section<T>>, p: string)
    requires |secs| > 0
    ensures var last := secs[|secs| - 1];
      var r := SectionRun(c, last);
      AllPieces(c, secs[..|secs| - 1]) + r.done + Flush(r.current, r.tag) == AllPieces(c, secs)
    ensures var secs2 := secs + [Section(p, c.tagOf(p), [])];
      secs2[..|secs2| - 1] == secs && SectionRun(c, secs2[|secs2| - 1]) == Acc(p, c.tagOf(p), [])
  {
    CloseLast(c, secs);
    var secs2 := secs + [Section(p, c.tagOf(p), [])];
    assert secs2[..|secs2| - 1] == secs;
  }

  /** The other case of `RunBySections`: the piece joins the open section. */
  lemma GapStep<T>(c: Config<T>, secs: seq<Section<T>>, p: string)
    requires |secs| > 0
    ensures var last := secs[|secs| - 1];
      var grown := Section(last.head, last.tag, last.gaps + [p]);
      var secs2 := secs[..|secs| - 1] + [grown];
      secs2[..|secs2| - 1] == secs[..|secs| - 1] && secs2[|secs2| - 1] == grown
      && SectionRun(c, grown) == Grow(c, SectionRun(c, last), p)
  {
    var last := secs[|secs| - 1];
    var grown := Section(last.head, last.tag, last.gaps + [p]);
    assert grown.gaps[..|grown.gaps| - 1] == last.gaps;
    var secs2 := secs[..|secs| - 1] + [grown];
    assert secs2[..|secs2| - 1] == secs[..|secs| - 1];
  }

  /** Closing the open section completes the output of all sections. */
  lemma CloseLast<T>(c: Config<T>, secs: seq<Section<T>>)
    requires |secs| > 0
    ensures var r := SectionRun(c, secs[|secs| - 1]);
      AllPieces(c, secs[..|secs| - 1]) + r.done + Flush(r.current, r.tag) == AllPieces(c, secs)
  {
    var last := secs[|secs| - 1];
    var r := SectionRun(c, last);
    var f := Flush(r.current, r.tag);
    assert SectionPieces(c, last) == r.done + f;
    var before := AllPieces(c, secs[..|secs| - 1]);
    assert AllPieces(c, secs) == before + (r.done + f);
  }

  /** The splitter's output is what the sections emit, one after the other. */
  lemma ChunksBySections<T>(c: Config<T>, parts: seq<string>)
    ensures Chunks(c, parts) == AllPieces(c, Sections(c, parts))
  {
    RunBySections(c, parts);
    CloseLast(c, Sections(c, parts));
  }

  /** Every chunk a section emits carries the section's tag. */
  lemma {:induction false} SectionTagged<T>(c: Config<T>, sec: Section<T>)
    ensures forall i :: 0 <= i < |SectionRun(c, sec).done| ==> SectionRun(c, sec).done[i].tag == sec.tag
    ensures forall i :: 0 <= i < |SectionPieces(c, sec)| ==> SectionPieces(c, sec)[i].tag == sec.tag
    decreases |sec.gaps|
  {
    if |sec.gaps| > 0 {
      SectionTagged(c, Section(sec.head, sec.tag, sec.gaps[..|sec.gaps| - 1]));
    }
  }

  /** The whole text of a list of sections, in order. */
  function AllText<T>(secs: seq<Section<T>>): string {
    if |secs| == 0 then "" else AllText(secs[..|secs| - 1]) + SectionText(secs[|secs| - 1])
  }

  /** The sections cover the pieces, in order and without overlap. */
  lemma {:induction false} SectionsCover<T>(c: Config<T>, parts: seq<string>)
    ensures AllText(Sections(c, parts)) == Flatten(parts)
  {
    if |parts| == 0 {
      assert AllText(Sections(c, parts)) == AllText<T>([]) + SectionText(Section("", c.init, []));
    } else {
      SectionsCover(c, parts[..|parts| - 1]);
      CoverStep(c, parts);
    }
  }

  /** One step of `SectionsCover`: the last piece extends the text of the sections. */
  lemma CoverStep<T>(c: Config<T>, parts: seq<string>)
    requires |parts| > 0
    ensures AllText(Sections(c, parts)) == AllText(Sections(c, parts[..|parts| - 1])) + parts[|parts| - 1]
  {
    var init, p := parts[..|parts| - 1], parts[|parts| - 1];
    var secs := Sections(c, init);
    var k := |secs| - 1;
    if c.isBoundary(p) {
      CoverBoundary(secs, Section(p, c.tagOf(p), []));
    } else {
      var last := secs[k];
      assert secs == secs[..k] + [last];
      CoverGap(secs[..k], last, p);
    }
  }

  lemma CoverBoundary<T>(secs: seq<Section<T>>, sec: Section<T>)
    requires sec.gaps == []
    ensures AllText(secs + [sec]) == AllText(secs) + sec.head
  {
    var secs2 := secs + [sec];
    assert secs2[..|secs2| - 1] == secs;
    assert Flatten(sec.gaps) == "";
  }

  lemma CoverGap<T>(pre: seq<Section<T>>, last: Section<T>, p: string)
    ensures AllText(pre + [Section(last.head, last.tag, last.gaps + [p])]) == AllText(pre + [last]) + p
  {
    var grown := Section(last.head, last.tag, last.gaps + [p]);
    assert (pre + [grown])[..|pre|] == pre;
    assert (pre + [last])[..|pre|] == pre;
    FlattenAppend(last.gaps, p);
    var before, h, g := AllText(pre), last.head, Flatten(last.gaps);
    assert SectionText(grown) == h + (g + p);
    assert before + (h + (g + p)) == (before + (h + g)) + p;
  }

  /** How many pieces pass the boundary test. */
  function CountBoundaries<T>(c: Config<T>, parts: seq<string>): nat {
    if |parts| == 0 then 0
    else CountBoundaries(c, parts[..|parts| - 1]) + (if c.isBoundary(parts[|parts| - 1]) then 1 else 0)
  }

  /** One section before the first boundary, and one per boundary piece. */
  lemma {:induction false} SectionsCount<T>(c: Config<T>, parts: seq<string>)
    ensures |Sections(c, parts)| == CountBoundaries(c, parts) + 1
  {
    if |parts| > 0 {
      SectionsCount(c, parts[..|parts| - 1]);
    }
  }

  /** A section fits when no growth step can overflow in it: it has no gap,
      or its whole text is within the limit. */
  predicate Fits<T>(c: Config<T>, sec: Section<T>) {
    |sec.gaps| == 0 || |SectionText(sec)| <= c.maxSize
  }

  /** A section that fits is never cut: the chunk is its whole text. */
  lemma {:induction false} FittingSection<T>(c: Config<T>, sec: Section<T>)
    requires Fits(c, sec)
    ensures SectionRun(c, sec) == Acc(SectionText(sec), sec.tag, [])
    ensures SectionPieces(c, sec) == Flush(SectionText(sec), sec.tag)
    decreases |sec.gaps|
  {
    if |sec.gaps| > 0 {
      var init := sec.gaps[..|sec.gaps| - 1];
      var last := sec.gaps[|sec.gaps| - 1];
      var before := Section(sec.head, sec.tag, init);
      assert sec.gaps == init + [last];
      FlattenAppend(init, last);
      assert SectionText(sec) == SectionText(before) + last;
      FittingSection(c, before);
    }
  }

  /** The chunks of sections that all fit: each non-blank section, stripped. */
  function RefPieces<T>(secs: seq<Section<T>>): seq<Piece<T>> {
    if |secs| == 0 then []
    else RefPieces(secs[..|secs| - 1]) + Flush(SectionText(secs[|secs| - 1]), secs[|secs| - 1].tag)
  }

  lemma {:induction false} AllPiecesFit<T>(c: Config<T>, secs: seq<Section<T>>)
    requires forall k :: 0 <= k < |secs| ==> Fits(c, secs[k])
    ensures AllPieces(c, secs) == RefPieces(secs)
  {
    if |secs| > 0 {
      AllPiecesFit(c, secs[..|secs| - 1]);
      FittingSection(c, secs[|secs| - 1]);
    }
  }

  /** When no section overflows, the splitter emits every non-blank section,
      stripped and tagged, in text order. */
  lemma NoOverflowReference<T>(c: Config<T>, parts: seq<string>)
    requires forall k :: 0 <= k < |Sections(c, parts)| ==> Fits(c, Sections(c, parts)[k])
    ensures Chunks(c, parts) == RefPieces(Sections(c, parts))
  {
    ChunksBySections(c, parts);
    AllPiecesFit(c, Sections(c, parts));
  }

  /** The first section has no head and the initial tag; every other one is
      headed by a boundary piece and tagged by it; no gap is a boundary. */
  lemma {:induction false} SectionsShape<T>(c: Config<T>, parts: seq<string>)
    ensures var r := Sections(c, parts);
      && r[0].head == "" && r[0].tag == c.init
      && (forall k :: 0 < k < |r| ==> c.isBoundary(r[k].head) && r[k].tag == c.tagOf(r[k].head))
      && (forall k, j :: 0 <= k < |r| && 0 <= j < |r[k].gaps| ==> !c.isBoundary(r[k].gaps[j]))
  {
    if |parts| > 0 {
      SectionsShape(c, parts[..|parts| - 1]);
    }
  }

  /** The number of chunks of fitting sections: one per non-blank section. */
  lemma {:induction false} RefCount<T>(secs: seq<Section<T>>)
    requires |secs| > 0
    requires forall k :: 0 < k < |secs| ==> !AllSpaces(secs[k].head)
    ensures |RefPieces(secs)| == |secs| - 1 + (if AllSpaces(SectionText(secs[0])) then 0 else 1)
  {
    var n := |secs|;
    if n > 1 {
      RefCount(secs[..n - 1]);
      AllSpacesConcat(secs[n - 1].head, Flatten(secs[n - 1].gaps));
    }
  }

  /** When no section overflows and every boundary piece has a non-space
      character, there is one chunk per boundary piece, plus one when the text
      before the first boundary is not blank. */
  lemma ChunkCount<T>(c: Config<T>, parts: seq<string>)
    requires forall k :: 0 <= k < |Sections(c, parts)| ==> Fits(c, Sections(c, parts)[k])
    requires forall p :: c.isBoundary(p) ==> !AllSpaces(p)
    ensures |Chunks(c, parts)| ==
      CountBoundaries(c, parts) + (if AllSpaces(SectionText(Sections(c, parts)[0])) then 0 else 1)
  {
    NoOverflowReference(c, parts);
    SectionsShape(c, parts);
    SectionsCount(c, parts);
    RefCount(Sections(c, parts));
  }

  /** `t` is one of the strings the splitter returns for some input. */
  ghost predicate FromSplitter<T>(c: Config<T>, t: string) {
    exists x, i :: 0 <= i < |c.splitter(x)| && c.splitter(x)[i] == t
  }

  /** Every chunk is either stripped and non-empty (it was flushed at a
      boundary or at the end) or was cut by the splitter. */
  lemma {:induction false} RunClean<T>(c: Config<T>, parts: seq<string>)
    ensures forall i :: 0 <= i < |Run(c, parts).done| ==>
      Clean(Run(c, parts).done[i].content) || FromSplitter(c, Run(c, parts).done[i].content)
    ensures forall i :: 0 <= i < |Chunks(c, parts)| ==>
      Clean(Chunks(c, parts)[i].content) || FromSplitter(c, Chunks(c, parts)[i].content)
  {
    if |parts| > 0 {
      var a := Run(c, parts[..|parts| - 1]);
      RunClean(c, parts[..|parts| - 1]);
      StepClean(c, a, parts[|parts| - 1]);
    }
  }

  lemma StepClean<T>(c: Config<T>, a: Acc<T>, part: string)
    requires forall i :: 0 <= i < |a.done| ==> Clean(a.done[i].content) || FromSplitter(c, a.done[i].content)
    ensures var b := Step(c, a, part);
      forall i :: 0 <= i < |b.done| ==> Clean(b.done[i].content) || FromSplitter(c, b.done[i].content)
  {
    var cur := a.current + part;
    if !c.isBoundary(part) && |cur| > c.maxSize {
      var subs := c.splitter(cur);
      var cut := Tagged(PyPrefix(subs, -1), a.tag);
      forall i | 0 <= i < |cut|
        ensures FromSplitter(c, cut[i].content)
      {
        assert c.splitter(cur)[i] == cut[i].content;
      }
    }
  }

  /** A single blank piece that is not a boundary gives no chunk, provided
      it fits or the splitter returns nothing for it. */
  lemma BlankPiece<T>(c: Config<T>, t: string)
    requires !c.isBoundary(t) && AllSpaces(t)
    requires |t| <= c.maxSize || c.splitter(t) == []
    ensures Chunks(c, [t]) == []
  {
    assert [t][..0] == [];
    assert "" + t == t;
    var a := Grow(c, Acc("", c.init, []), t);
    assert Run(c, [t]) == a;
    if |t| > c.maxSize {
      assert PyPrefix(c.splitter(t), -1) == [];
      assert a.done == [] && a.current == "";
    }
  }

  /** Pieces that alternate between text and boundaries, starting and ending
      with text, group into one section before the first boundary and one
      per boundary, each holding the text piece that follows its head. */
  lemma {:induction false} AlternatingSections<T>(c: Config<T>, parts: seq<string>)
    requires |parts| % 2 == 1
    requires forall k :: 0 <= k < |parts| ==> (c.isBoundary(parts[k]) <==> k % 2 == 1)
    ensures SectionsAlternate(c, parts, Sections(c, parts))
    decreases |parts|
  {
    var n := |parts|;
    if n == 1 {
      assert parts[..0] == [];
    } else {
      var pre, sep, gap := parts[..n - 2], parts[n - 2], parts[n - 1];
      assert parts == pre + [sep, gap];
      AlternatingPrefix(c, pre, sep, gap);
      AlternatingSections(c, pre);
      TwoSteps(c, pre, sep, gap);
      ExtendAlternate(c, pre, sep, gap, Sections(c, pre));
    }
  }

  /** The sections of alternating pieces, as `AlternatingSections` states them. */
  ghost predicate SectionsAlternate<T>(c: Config<T>, parts: seq<string>, secs: seq<Section<T>>)
    requires |parts| > 0
  {
    && |secs| == (|parts| + 1) / 2
    && secs[0] == Section("", c.init, [parts[0]])
    && (forall k :: 1 <= k < |secs| ==>
          2 * k < |parts| && secs[k] == Section(parts[2 * k - 1], c.tagOf(parts[2 * k - 1]), [parts[2 * k]]))
  }

  lemma AlternatingPrefix<T>(c: Config<T>, pre: seq<string>, sep: string, gap: string)
    requires forall k :: 0 <= k < |pre + [sep, gap]| ==> (c.isBoundary((pre + [sep, gap])[k]) <==> k % 2 == 1)
    ensures forall k :: 0 <= k < |pre| ==> (c.isBoundary(pre[k]) <==> k % 2 == 1)
  {
    forall k | 0 <= k < |pre|
      ensures c.isBoundary(pre[k]) <==> k % 2 == 1
    {
      assert (pre + [sep, gap])[k] == pre[k];
    }
  }

  lemma ExtendAlternate<T>(c: Config<T>, pre: seq<string>, sep: string, gap: string, secs: seq<Section<T>>)
    requires |pre| % 2 == 1 && SectionsAlternate(c, pre, secs)
    ensures SectionsAlternate(c, pre + [sep, gap], secs + [Section(sep, c.tagOf(sep), [gap])])
  {
    var parts := pre + [sep, gap];
    var r := secs + [Section(sep, c.tagOf(sep), [gap])];
    forall k | 1 <= k < |r|
      ensures 2 * k < |parts| && r[k] == Section(parts[2 * k - 1], c.tagOf(parts[2 * k - 1]), [parts[2 * k]])
    {
      if k < |secs| {
        assert r[k] == secs[k];
        assert parts[2 * k - 1] == pre[2 * k - 1] && parts[2 * k] == pre[2 * k];
      }
    }
  }

  /** A boundary piece followed by a text piece add one section. */
  lemma TwoSteps<T>(c: Config<T>, pre: seq<string>, sep: string, gap: string)
    requires c.isBoundary(sep) && !c.isBoundary(gap)
    ensures Sections(c, pre + [sep, gap]) == Sections(c, pre) + [Section(sep, c.tagOf(sep), [gap])]
  {
    var parts := pre + [sep, gap];
    var secs := Sections(c, pre);
    assert parts[..|parts| - 1] == pre + [sep];
    assert (pre + [sep])[..|pre|] == pre;
    var mid := secs + [Section(sep, c.tagOf(sep), [])];
    assert Sections(c, pre + [sep]) == mid;
    assert mid[..|mid| - 1] == secs && mid[|mid| - 1].gaps + [gap] == [gap];
  }

  /** The loop reads the tag function only on boundary pieces: two tag
      functions that agree there give the same chunks. */
  lemma {:induction false} ChunksSameTags<T>(c: Config<T>, tagOf: string -> T, parts: seq<string>)
    requires forall k :: 0 <= k < |parts| && c.isBoundary(parts[k]) ==> c.tagOf(parts[k]) == tagOf(parts[k])
    ensures Run(c, parts) == Run(Config(c.isBoundary, tagOf, c.init, c.splitter, c.maxSize), parts)
    ensures Chunks(c, parts) == Chunks(Config(c.isBoundary, tagOf, c.init, c.splitter, c.maxSize), parts)
  {
    if |parts| > 0 {
      ChunksSameTags(c, tagOf, parts[..|parts| - 1]);
    }
  }

  /** `idx[i]` is the section that emitted chunk `i` of `ps`: the chunk is one
      of that section's pieces and carries its tag, and `idx` never
      decreases, since sections emit in order. */
  ghost predicate EmittedBy<T>(c: Config<T>, secs: seq<Section<T>>, ps: seq<Piece<T>>, idx: seq<nat>) {
    && |idx| == |ps|
    && (forall i :: 0 <= i < |idx| ==> idx[i] < |secs|)
    && (forall i :: 0 <= i < |idx| ==> ps[i] in SectionPieces(c, secs[idx[i]]) && ps[i].tag == secs[idx[i]].tag)
    && (forall a, b :: 0 <= a <= b < |idx| ==> idx[a] <= idx[b])
  }

  /** A run of equal indices larger than every earlier one keeps a
      sequence of indices non-decreasing. */
  lemma MonotoneAppend(before: seq<nat>, n: nat, idx: seq<nat>)
    requires forall i :: 0 <= i < |before| ==> before[i] < n
    requires forall a, b :: 0 <= a <= b < |before| ==> before[a] <= before[b]
    requires |before| <= |idx| && idx[..|before|] == before
    requires forall i :: |before| <= i < |idx| ==> idx[i] == n
    ensures forall a, b :: 0 <= a <= b < |idx| ==> idx[a] <= idx[b]
  {
  }

  /** Appending the pieces of one more section keeps the origins. */
  lemma EmittedByAppend<T>(c: Config<T>, pre: seq<Section<T>>, last: Section<T>, a: seq<Piece<T>>, before: seq<nat>)
    requires EmittedBy(c, pre, a, before)
    requires forall i :: 0 <= i < |SectionPieces(c, last)| ==> SectionPieces(c, last)[i].tag == last.tag
    ensures EmittedBy(c, pre + [last], a + SectionPieces(c, last), before + seq(|SectionPieces(c, last)|, j => |pre|))
  {
    var secs := pre + [last];
    var b := SectionPieces(c, last);
    var ps := a + b;
    var idx := before + seq(|b|, j => |pre|);
    assert idx[..|before|] == before;
    MonotoneAppend(before, |pre|, idx);
    forall i | 0 <= i < |idx|
      ensures idx[i] < |secs|
      ensures ps[i] in SectionPieces(c, secs[idx[i]]) && ps[i].tag == secs[idx[i]].tag
    {
      if i < |a| {
        assert secs[before[i]] == pre[before[i]];
      } else {
        assert ps[i] == b[i - |a|];
      }
    }
  }

  /** Where each emitted chunk comes from. */
  lemma {:induction false} AllPiecesOrigin<T>(c: Config<T>, secs: seq<Section<T>>) returns (idx: seq<nat>)
    ensures EmittedBy(c, secs, AllPieces(c, secs), idx)
  {
    if |secs| == 0 {
      idx := [];
    } else {
      var pre := secs[..|secs| - 1];
      var before := AllPiecesOrigin(c, pre);
      SectionTagged(c, secs[|secs| - 1]);
      assert secs == pre + [secs[|secs| - 1]];
      EmittedByAppend(c, pre, secs[|secs| - 1], AllPieces(c, pre), before);
      idx := before + seq(|SectionPieces(c, secs[|secs| - 1])|, j => |secs| - 1);
    }
  }

  /** Every emitted chunk carries the tag of one of the sections. */
  lemma {:induction false} AllPiecesTags<T>(c: Config<T>, secs: seq<Section<T>>)
    ensures forall i :: 0 <= i < |AllPieces(c, secs)| ==>
      exists k :: 0 <= k < |secs| && AllPieces(c, secs)[i].tag == secs[k].tag
  {
    if |secs| > 0 {
      var pre, last := secs[..|secs| - 1], secs[|secs| - 1];
      AllPiecesTags(c, pre);
      SectionTagged(c, last);
      var a: seq<Piece<T>>, b: seq<Piece<T>> := AllPieces(c, pre), SectionPieces(c, last);
      var all := AllPieces(c, secs);
      assert all == a + b;
      forall i | 0 <= i < |all|
        ensures exists k :: 0 <= k < |secs| && all[i].tag == secs[k].tag
      {
        if i < |a| {
          var k :| 0 <= k < |pre| && a[i].tag == pre[k].tag;
          assert all[i] == a[i] && secs[k] == pre[k];
        } else {
          assert all[i] == b[i - |a|];
          assert all[i].tag == secs[|secs| - 1].tag;
        }
      }
    } else {
      assert AllPieces(c, secs) == [];
    }
  }
}
