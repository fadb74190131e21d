/**
 * When `build_chunks` keeps the limit it documents: exactly which titles, pages, limit and
 * overlap leave no paper whose chunks exceed it.
 */
module ChunkLimit {
  import opened Seqs
  import opened Text
  import opened ChunkText
  import opened Packing
  import opened Chunking
  import opened Chunks
  import opened ChunkBounds

  /** A caption begins with a word of three letters or more and a digit. */
  ghost predicate CaptionsAreLong(isCaption: string -> bool)
  {
    forall t: string :: isCaption(t) ==> |t| >= 4
  }

  /** The papers agree in all but the texts of their sections. */
  predicate SameShape(a: ParsedPaper, b: ParsedPaper)
  {
    && a.title == b.title
    && |a.sections| == |b.sections|
    && forall i :: 0 <= i < |a.sections| ==> SameHeading(a.sections[i], b.sections[i])
  }

  predicate SameHeading(a: Section, b: Section)
  {
    a.title == b.title && a.pages == b.pages
  }

  ghost predicate AllWithin(chunks: seq<PaperChunk>, limit: int, measure: string -> int)
  {
    forall k :: 0 <= k < |chunks| ==> measure(chunks[k].text) <= limit
  }

  /** Whatever texts the sections have, every chunk is within the limit. */
  ghost predicate KeepsLimit(shape: ParsedPaper, overlap: int, limit: int, isCaption: string -> bool, measure: string -> int)
  {
    forall parsed, chunks, units, grouped ::
      SameShape(parsed, shape) && Chunked(chunks, parsed, units, grouped, overlap, limit, isCaption, measure) ==>
        AllWithin(chunks, limit, measure)
  }

  /** The header probe of a section, as `build_chunks` renders it. */
  function Probe(title: string, s: Section): string
  {
    Render(title, [HeaderProbe(CleanTitle(s.title), s.pages)])
  }

  /** The section has no room for text, or there is no overlap and its header leaves a remainder of 1 or 2. */
  predicate HeaderAllows(title: string, s: Section, overlap: int, limit: int, measure: string -> int)
  {
    measure(Probe(title, s)) < limit ==> overlap <= 0 && |Probe(title, s)| % 4 in {1, 2}
  }

  /* ----- the condition suffices ----- */

  lemma OneUnitWithin(title: string, u: Unit, limit: int, measure: string -> int)
    requires EstimatesTokens(measure) && FitsHeader(u, HeaderTokens(title, measure), limit, measure)
    requires |Render(title, [HeaderProbe(u.section, u.pages)])| % 4 in {1, 2}
    ensures measure(Render(title, [u])) <= limit
  {
    hide Render;
    var tokens := HeaderTokens(title, measure)(u.section, u.pages);
    CutTextFits(u.text, limit - tokens, measure);
    OneUnitLength(title, u);
    WithinTokens(measure, Render(title, [HeaderProbe(u.section, u.pages)]), tokens);
    WithinTokens(measure, u.text, limit - tokens);
    WithinTokens(measure, Render(title, [u]), limit);
  }

  /** The unit's section has room for text, so the condition on its header applies. */
  lemma UnitAllows(
    title: string, u: Unit, s: Section, shape: Section, overlap: int, limit: int, measure: string -> int)
    requires FitsHeader(u, HeaderTokens(title, measure), limit, measure)
    requires UnderSection(u, s) && SameHeading(s, shape) && HeaderAllows(title, shape, overlap, limit, measure)
    ensures overlap <= 0 && |Render(title, [HeaderProbe(u.section, u.pages)])| % 4 in {1, 2}
  {
    hide Render, CleanTitle;
  }

  lemma NoOverlap(
    title: string, units: seq<Unit>, grouped: seq<seq<int>>, k: nat, overlap: int, limit: int, measure: string -> int)
    requires Grouped(grouped, |units|) && k < |grouped| && (overlap <= 0 || k == 0)
    ensures Overlap(title, units, grouped, k, overlap, limit, measure) == []
  {
  }

  lemma UnitFits(units: seq<Unit>, header: (string, seq<int>) -> int, limit: int, measure: string -> int, i: nat)
    requires AllFitHeaders(units, header, limit, measure) && i < |units|
    ensures FitsHeader(units[i], header, limit, measure)
  {
  }

  lemma GroupMembers(grouped: seq<seq<int>>, n: nat, k: nat)
    requires Grouped(grouped, n) && k < |grouped|
    ensures grouped[k] != [] && 0 <= grouped[k][0] < n && InRange(grouped[k], n)
  {
  }

  lemma LoneUnit(units: seq<Unit>, group: seq<int>)
    requires |group| == 1 && InRange(group, |units|)
    ensures Pick(units, group) == [units[group[0]]]
  {
  }

  lemma AllowedChunkWithin(
    shape: ParsedPaper, chunks: seq<PaperChunk>, parsed: ParsedPaper, units: seq<Unit>, grouped: seq<seq<int>>, k: nat,
    overlap: int, limit: int, isCaption: string -> bool, measure: string -> int)
    requires EstimatesTokens(measure) && SameShape(parsed, shape)
    requires Chunked(chunks, parsed, units, grouped, overlap, limit, isCaption, measure) && k < |chunks|
    requires forall i :: 0 <= i < |shape.sections| ==>
      HeaderAllows(CleanTitle(shape.title), shape.sections[i], overlap, limit, measure)
    ensures measure(chunks[k].text) <= limit
  {
    var title := CleanTitle(parsed.title);
    var header := HeaderTokens(title, measure);
    assert ChunkOf(chunks[k], title, units, grouped, k, overlap, limit, measure);
    GroupMembers(grouped, |units|, k);
    var u := grouped[k][0];
    var n := UnitHasSection(units, parsed.sections, header, limit, isCaption, measure, u);
    assert SameHeading(parsed.sections[n], shape.sections[n]);
    hide *;
    UnitFits(units, header, limit, measure, u);
    UnitAllows(title, units[u], parsed.sections[n], shape.sections[n], overlap, limit, measure);
    NoOverlap(title, units, grouped, k, overlap, limit, measure);
    ChunkRenders(chunks[k], title, units, grouped, k, [], overlap, limit, measure);
    assert [] + grouped[k] == grouped[k];
    GroupBound(title, units, grouped, k, limit, measure);
    if |grouped[k]| >= 2 {
      WithinTokens(measure, chunks[k].text, limit);
    } else {
      LoneUnit(units, grouped[k]);
      OneUnitWithin(title, units[u], limit, measure);
    }
  }

  /* ----- papers with text in one section only ----- */

  /** The shape with a text in section i and nowhere else. */
  function OnlyText(shape: ParsedPaper, i: nat, text: string): (r: ParsedPaper)
    requires i < |shape.sections|
    ensures SameShape(r, shape) && r.sections[i] == shape.sections[i].(text := text)
    ensures forall j :: 0 <= j < |r.sections| && j != i ==> r.sections[j].text == ""
  {
    shape.(sections := seq(|shape.sections|, j requires 0 <= j < |shape.sections| =>
      shape.sections[j].(text := if j == i then text else "")))
  }

  lemma {:induction false} BlankSectionsCut(
    units: seq<Unit>, sections: seq<Section>, header: (string, seq<int>) -> int, limit: int, isCaption: string -> bool,
    measure: string -> int)
    requires forall j :: 0 <= j < |sections| ==> sections[j].text == ""
    ensures PaperCut(units, sections, header, limit, isCaption, measure) <==> units == []
    decreases |sections|
  {
    if sections != [] {
      var front, last := sections[..|sections| - 1], sections[|sections| - 1];
      assert front + [last] == sections;
      BlankSectionCut(last, header, limit, isCaption, measure);
      BlankSectionsCut([], front, header, limit, isCaption, measure);
      hide PaperCut, SectionCut;
      PaperCutNext([], [], front, last, header, limit, isCaption, measure);
      if PaperCut(units, sections, header, limit, isCaption, measure) {
        var k := PaperCutLast(units, sections, header, limit, isCaption, measure);
        BlankSectionsCut(units[..k], front, header, limit, isCaption, measure);
        assert SectionCut(units[k..], last, header, limit, isCaption, measure);
      }
    }
  }

  lemma BlankSectionCut(
    s: Section, header: (string, seq<int>) -> int, limit: int, isCaption: string -> bool, measure: string -> int)
    requires s.text == ""
    ensures forall units :: SectionCut(units, s, header, limit, isCaption, measure) <==> units == []
  {
    hide ParagraphsCut;
    assert Strip("") == "";
  }

  /** The units of such a paper are those of the section. */
  lemma {:induction false} OneSectionCut(
    units: seq<Unit>, sections: seq<Section>, i: nat, header: (string, seq<int>) -> int, limit: int,
    isCaption: string -> bool, measure: string -> int)
    requires i < |sections| && forall j :: 0 <= j < |sections| && j != i ==> sections[j].text == ""
    ensures PaperCut(units, sections, header, limit, isCaption, measure)
       <==> SectionCut(units, sections[i], header, limit, isCaption, measure)
    decreases |sections|
  {
    hide PaperCut, SectionCut;
    var front, last := sections[..|sections| - 1], sections[|sections| - 1];
    assert front + [last] == sections;
    if i == |sections| - 1 {
      BlankSectionsCut([], front, header, limit, isCaption, measure);
      if SectionCut(units, last, header, limit, isCaption, measure) {
        PaperCutNext([], units, front, last, header, limit, isCaption, measure);
        assert [] + units == units;
      }
      if PaperCut(units, sections, header, limit, isCaption, measure) {
        var k := PaperCutLast(units, sections, header, limit, isCaption, measure);
        BlankSectionsCut(units[..k], front, header, limit, isCaption, measure);
        assert units[k..] == units;
      }
    } else {
      BlankSectionCut(last, header, limit, isCaption, measure);
      OneSectionCut(units, front, i, header, limit, isCaption, measure);
      if PaperCut(units, front, header, limit, isCaption, measure) {
        PaperCutNext(units, [], front, last, header, limit, isCaption, measure);
        assert units + [] == units;
      }
      if PaperCut(units, sections, header, limit, isCaption, measure) {
        var k := PaperCutLast(units, sections, header, limit, isCaption, measure);
        assert units[..k] == units;
      }
    }
  }

  /* ----- paragraphs that all fit ----- */

  function Whole(section: string, pages: seq<int>, paragraphs: seq<string>): (r: seq<Unit>)
    ensures |r| == |paragraphs|
  {
    if paragraphs == [] then []
    else
      Whole(section, pages, paragraphs[..|paragraphs| - 1])
      + [Unit(section, pages, paragraphs[|paragraphs| - 1], true)]
  }

  lemma FittingParagraphCut(
    units: seq<Unit>, section: string, pages: seq<int>, paragraph: string, limit: int, measure: string -> int)
    requires Trimmed(paragraph) && measure(paragraph) <= limit
    ensures ParagraphCut(units, section, pages, paragraph, limit, measure)
       <==> units == [Unit(section, pages, paragraph, true)]
  {
    StrippedIsFixed(paragraph);
    var u := Unit(section, pages, paragraph, true);
    assert UnitOk(u, section, pages, limit, measure);
    assert [] + [u] == [u];
    EraseEmpty();
    NoUnitsOk(section, pages, limit, measure);
    hide Strip, Stripped, Trimmed, Erase, EraseAll, Texts, UnitOk, UnitsOk;
    UnitsOkSnoc([], u, section, pages, limit, measure);
    assert "" + Erase(paragraph) == Erase(paragraph);
  }

  lemma NoUnitsOk(section: string, pages: seq<int>, limit: int, measure: string -> int)
    ensures UnitsOk([], section, pages, limit, measure) && EraseAll(Texts([])) == ""
  {
  }

  lemma WholeNext(section: string, pages: seq<int>, paragraphs: seq<string>)
    ensures paragraphs == [] ==> Whole(section, pages, paragraphs) == []
    ensures paragraphs != [] ==>
      Whole(section, pages, paragraphs)
      == Whole(section, pages, paragraphs[..|paragraphs| - 1]) + [Unit(section, pages, paragraphs[|paragraphs| - 1], true)]
  {
  }

  lemma NoParagraphsIff(units: seq<Unit>, section: string, pages: seq<int>, limit: int, measure: string -> int)
    ensures ParagraphsCut(units, section, pages, [], limit, measure) <==> units == []
  {
  }

  /** Paragraphs that all fit are cut into one unit each. */
  lemma {:induction false} FittingParagraphsCut(
    units: seq<Unit>, section: string, pages: seq<int>, paragraphs: seq<string>, limit: int, measure: string -> int)
    requires forall p <- paragraphs :: Trimmed(p) && measure(p) <= limit
    ensures ParagraphsCut(units, section, pages, paragraphs, limit, measure) <==> units == Whole(section, pages, paragraphs)
    decreases |paragraphs|
  {
    hide *;
    WholeNext(section, pages, paragraphs);
    if paragraphs == [] {
      NoParagraphsIff(units, section, pages, limit, measure);
    } else {
      var front, last := paragraphs[..|paragraphs| - 1], paragraphs[|paragraphs| - 1];
      var u := Unit(section, pages, last, true);
      assert paragraphs == front + [last];
      FittingParagraphsCut(Whole(section, pages, front), section, pages, front, limit, measure);
      FittingParagraphCut([u], section, pages, last, limit, measure);
      ParagraphsCutNext(Whole(section, pages, front), [u], section, pages, front, last, limit, measure);
      if ParagraphsCut(units, section, pages, paragraphs, limit, measure) {
        var k := ParagraphsCutLast(units, section, pages, paragraphs, limit, measure);
        FittingParagraphsCut(units[..k], section, pages, front, limit, measure);
        FittingParagraphCut(units[k..], section, pages, last, limit, measure);
        assert units == units[..k] + units[k..];
      }
    }
  }

  /* ----- the two texts ----- */

  /** A word of n characters. */
  function Word(n: nat): (r: string)
    ensures |r| == n && forall k :: 0 <= k < n ==> r[k] == 'x'
  {
    seq(n, _ => 'x')
  }

  lemma {:induction false} OneLineSplits(s: string, start: nat, i: nat)
    requires start <= i <= |s| && forall k :: i <= k < |s| ==> s[k] != '\n'
    ensures SplitFrom(BlankLine, s, start, i) == [s[start..]]
    decreases |s| - i
  {
    if i < |s| {
      OneLineSplits(s, start, i + 1);
    }
  }

  lemma OneWordParagraphs(s: Section, isCaption: string -> bool)
    requires s.text == Word(|s.text|) && s.text != ""
    ensures Paragraphs(s, isCaption) == [s.text] && Strip(s.text) == s.text && Trimmed(s.text)
  {
    var text: string := s.text;
    StrippedIsFixed(text);
    OneLineSplits(text, 0, 0);
    var parts: seq<string> := [text];
    assert text[0..] == text && parts[..0] == [] && parts[1..] == [];
    assert StripAll([]) == [] && StripAll(parts) == parts;
    assert Glue([], isCaption) == [];
  }

  /** A word of one character, a blank line, and a longer word. */
  function TwoWords(n: nat): (r: string)
  {
    "x\n\n" + Word(n)
  }

  lemma TwoWordsSplit(n: nat)
    requires n > 0
    ensures Split(BlankLine, TwoWords(n)) == ["x", Word(n)]
  {
    var s := TwoWords(n);
    assert s[0] == 'x' && s[1] == '\n' && s[2] == '\n' && s[3] == 'x';
    assert MatchEnd(BlankLine, s, 0) == 0;
    assert RunEnd(s, 3) == 3 && RunEnd(s, 2) == 3;
    assert AfterLastNewline(s, 2, 3) == 3;
    assert MatchEnd(BlankLine, s, 1) == 3;
    OneLineSplits(s, 3, 3);
    assert s[0..1] == "x" && s[3..] == Word(n);
    assert SplitFrom(BlankLine, s, 0, 1) == [s[0..1]] + SplitFrom(BlankLine, s, 3, 3);
  }

  lemma TwoWordParagraphs(s: Section, n: nat, isCaption: string -> bool)
    requires s.text == TwoWords(n) && n > 0 && CaptionsAreLong(isCaption)
    ensures Paragraphs(s, isCaption) == ["x", Word(n)] && Strip(s.text) == s.text != ""
    ensures Trimmed("x") && Trimmed(Word(n))
  {
    var text: string, parts: seq<string> := s.text, ["x", Word(n)];
    assert Stripped(text) by {
      assert text[0] == 'x' && text[|text| - 1] == Word(n)[n - 1];
    }
    StrippedIsFixed(text);
    StrippedIsFixed("x");
    StrippedIsFixed(Word(n));
    TwoWordsSplit(n);
    assert !isCaption("x");
    var first: seq<string>, second: seq<string> := ["x"], [Word(n)];
    assert parts[..1] == first && first[..0] == [];
    assert StripAll([]) == [] && StripAll(first) == first && StripAll(parts) == parts;
    assert parts[1..] == second && second[1..] == [] && Glue([], isCaption) == [];
    assert Glue(second, isCaption) == second;
  }

  /* ----- the units, groups and chunks of such a paper ----- */

  /** A section whose paragraphs all fit is cut into one unit a paragraph. */
  lemma FittingSectionCut(
    units: seq<Unit>, s: Section, header: (string, seq<int>) -> int, limit: int, isCaption: string -> bool,
    measure: string -> int)
    requires Strip(s.text) != "" && header(CleanTitle(s.title), s.pages) < limit
    requires forall p <- Paragraphs(s, isCaption) ::
      Trimmed(p) && measure(p) <= limit - header(CleanTitle(s.title), s.pages)
    ensures SectionCut(units, s, header, limit, isCaption, measure)
       <==> units == Whole(CleanTitle(s.title), s.pages, Paragraphs(s, isCaption))
  {
    hide Strip, CleanTitle, ParagraphsCut, Paragraphs, Trimmed, Whole;
    var title := CleanTitle(s.title);
    FittingParagraphsCut(units, title, s.pages, Paragraphs(s, isCaption), limit - header(title, s.pages), measure);
  }

  lemma WholeShort(section: string, pages: seq<int>, p: string, q: string)
    ensures Whole(section, pages, [p]) == [Unit(section, pages, p, true)]
    ensures Whole(section, pages, [p, q]) == [Unit(section, pages, p, true), Unit(section, pages, q, true)]
  {
    assert [p, q][..1] == [p] && [p][..0] == [];
  }

  lemma WordIsWord(n: nat)
    ensures |Word(n)| == n && (n > 0 ==> Word(n) != "")
  {
  }

  /** The section's text is one word: one unit. */
  lemma OneWordUnits(
    shape: ParsedPaper, i: nat, n: nat, units: seq<Unit>, header: (string, seq<int>) -> int, limit: int,
    isCaption: string -> bool, measure: string -> int)
    requires i < |shape.sections| && n > 0
    requires
      var room := limit - header(CleanTitle(shape.sections[i].title), shape.sections[i].pages);
      room > 0 && measure(Word(n)) <= room
    ensures
      PaperCut(units, OnlyText(shape, i, Word(n)).sections, header, limit, isCaption, measure)
      <==> units == [Unit(CleanTitle(shape.sections[i].title), shape.sections[i].pages, Word(n), true)]
  {
    hide *;
    WordIsWord(n);
    var parsed := OnlyText(shape, i, Word(n));
    OnlyTextSections(shape, i, Word(n));
    var s := parsed.sections[i];
    OneSectionCut(units, parsed.sections, i, header, limit, isCaption, measure);
    OneWordParagraphs(s, isCaption);
    FittingSectionCut(units, s, header, limit, isCaption, measure);
    WholeShort(CleanTitle(s.title), s.pages, s.text, s.text);
  }

  lemma OnlyTextSections(shape: ParsedPaper, i: nat, text: string)
    requires i < |shape.sections|
    ensures |OnlyText(shape, i, text).sections| == |shape.sections|
  {
  }

  /** The section's text is two words around a blank line: two units. */
  lemma TwoWordUnits(
    shape: ParsedPaper, i: nat, n: nat, units: seq<Unit>, header: (string, seq<int>) -> int, limit: int,
    isCaption: string -> bool, measure: string -> int)
    requires i < |shape.sections| && n > 0 && CaptionsAreLong(isCaption)
    requires
      var room := limit - header(CleanTitle(shape.sections[i].title), shape.sections[i].pages);
      room > 0 && measure("x") <= room && measure(Word(n)) <= room
    ensures
      var title, pages := CleanTitle(shape.sections[i].title), shape.sections[i].pages;
      PaperCut(units, OnlyText(shape, i, TwoWords(n)).sections, header, limit, isCaption, measure)
      <==> units == [Unit(title, pages, "x", true), Unit(title, pages, Word(n), true)]
  {
    hide *;
    var parsed := OnlyText(shape, i, TwoWords(n));
    OnlyTextSections(shape, i, TwoWords(n));
    var s := parsed.sections[i];
    OneSectionCut(units, parsed.sections, i, header, limit, isCaption, measure);
    TwoWordParagraphs(s, n, isCaption);
    FittingSectionCut(units, s, header, limit, isCaption, measure);
    WholeShort(CleanTitle(s.title), s.pages, "x", Word(n));
  }

  lemma FlattenShort(a: seq<int>, b: seq<int>)
    ensures Flatten<int>([]) == [] && Flatten([a]) == a && Flatten([a, b]) == a + b
  {
    assert [a][..0] == [] && [a, b][..1] == [a];
    assert [] + a == a;
  }

  lemma OneGroup(grouped: seq<seq<int>>)
    requires Grouped(grouped, 1)
    ensures grouped == [[0]]
  {
    BatchCount(grouped);
    assert Upto(1) == [0];
    FlattenShort([], []);
    hide Flatten;
    assert |grouped| == 1;
    FlattenShort(grouped[0], []);
    assert grouped == [grouped[0]];
  }

  lemma TwoGroups(grouped: seq<seq<int>>, fits: seq<int> -> bool)
    requires Grouped(grouped, 2) && IsPacking(grouped, Upto(2), fits) && !fits([0, 1])
    ensures grouped == [[0], [1]]
  {
    BatchCount(grouped);
    assert Upto(2) == [0, 1];
    FlattenShort([], []);
    hide Flatten;
    assert grouped != [];
    if |grouped| == 1 {
      assert grouped == [grouped[0]];
      FlattenShort(grouped[0], []);
    } else {
      assert grouped == [grouped[0], grouped[1]];
      FlattenShort(grouped[0], grouped[1]);
      assert |grouped[0]| == 1 && |grouped[1]| == 1;
      assert (grouped[0] + grouped[1])[0] == grouped[0][0] && (grouped[0] + grouped[1])[1] == grouped[1][0];
      assert grouped[0] == [0] && grouped[1] == [1];
    }
  }

  /** The only chunk of a paper with one unit renders that unit. */
  lemma OneUnitExceeds(
    chunks: seq<PaperChunk>, parsed: ParsedPaper, u: Unit, grouped: seq<seq<int>>,
    overlap: int, limit: int, isCaption: string -> bool, measure: string -> int)
    requires Chunked(chunks, parsed, [u], grouped, overlap, limit, isCaption, measure)
    ensures |chunks| == 1 && chunks[0].text == Render(CleanTitle(parsed.title), [u])
  {
    var title := CleanTitle(parsed.title);
    hide Render, PaperCut, AllFitHeaders, EraseAll, Texts, IsGreedy, IsPacking;
    OneGroup(grouped);
    assert ChunkOf(chunks[0], title, [u], grouped, 0, overlap, limit, measure);
    NoOverlap(title, [u], grouped, 0, overlap, limit, measure);
    ChunkRenders(chunks[0], title, [u], grouped, 0, [], overlap, limit, measure);
    assert [] + grouped[0] == [0];
    assert Pick([u], [0]) == [u];
  }

  /** When the first paragraph fits beside the overlap limit and both do not fit together, the second chunk renders both. */
  lemma SecondChunkRepeatsFirst(
    chunks: seq<PaperChunk>, parsed: ParsedPaper, a: Unit, b: Unit, grouped: seq<seq<int>>,
    overlap: int, limit: int, isCaption: string -> bool, measure: string -> int)
    requires Chunked(chunks, parsed, [a, b], grouped, overlap, limit, isCaption, measure)
    requires overlap > 0 && a.isParagraph
    requires measure(Render(CleanTitle(parsed.title), [a])) <= limit < measure(Render(CleanTitle(parsed.title), [a, b]))
    ensures |chunks| == 2 && chunks[1].text == Render(CleanTitle(parsed.title), [a, b])
  {
    var title, units := CleanTitle(parsed.title), [a, b];
    hide Render, PaperCut, AllFitHeaders, EraseAll, Texts, IsGreedy;
    assert Pick(units, [0, 1]) == units;
    assert !GroupFits(title, units, limit, measure)([0, 1]);
    TwoGroups(grouped, GroupFits(title, units, limit, measure));
    assert ChunkOf(chunks[1], title, units, grouped, 1, overlap, limit, measure);
    FirstRepeated(title, units, grouped, overlap, limit, measure);
    ChunkRenders(chunks[1], title, units, grouped, 1, [0], overlap, limit, measure);
    assert [0] + [1] == [0, 1];
  }

  lemma FirstSeed(units: seq<Unit>, overlap: int)
    requires overlap > 0 && units != [] && units[0].isParagraph
    ensures Seed(units, [0], overlap) == [0]
  {
    var group: seq<int> := [0];
    assert group[..0] == [] && ParagraphIndices(units, []) == [];
    assert ParagraphIndices(units, group) == group;
  }

  lemma OverlapIsSeed(
    title: string, units: seq<Unit>, grouped: seq<seq<int>>, k: nat, seed: seq<int>, overlap: int, limit: int,
    measure: string -> int)
    requires 0 < k < |grouped| && overlap > 0 && forall g :: 0 <= g < |grouped| ==> InRange(grouped[g], |units|)
    requires seed != [] && seed == Seed(units, grouped[k - 1], overlap)
    requires measure(Render(title, Pick(units, seed))) <= limit
    ensures Overlap(title, units, grouped, k, overlap, limit, measure) == seed
  {
    hide Render, Seed, Pick;
  }

  lemma FirstRepeated(
    title: string, units: seq<Unit>, grouped: seq<seq<int>>, overlap: int, limit: int, measure: string -> int)
    requires |units| == 2 && grouped == [[0], [1]]
    requires overlap > 0 && units[0].isParagraph && measure(Render(title, [units[0]])) <= limit
    ensures Grouped(grouped, 2) && Overlap(title, units, grouped, 1, overlap, limit, measure) == [0]
  {
    GroupsOfTwo(grouped);
    hide *;
    FirstSeed(units, overlap);
    LoneUnit(units, [0]);
    OverlapIsSeed(title, units, grouped, 1, [0], overlap, limit, measure);
  }

  lemma GroupsOfTwo(grouped: seq<seq<int>>)
    requires grouped == [[0], [1]]
    ensures Grouped(grouped, 2) && forall g :: 0 <= g < |grouped| ==> InRange(grouped[g], 2)
  {
    FlattenShort([0], [1]);
    assert Upto(2) == [0] + [1];
  }

  lemma ChunkMade(
    title: string, units: seq<Unit>, grouped: seq<seq<int>>, k: nat, overlap: int, limit: int, measure: string -> int)
    returns (c: PaperChunk)
    requires Grouped(grouped, |units|) && k < |grouped|
    ensures ChunkOf(c, title, units, grouped, k, overlap, limit, measure)
  {
    hide Render, Overlap, Dedup, SortedUnique, MinOf, MaxOf, Sections, Pages, Upto, Flatten;
    var seed := Overlap(title, units, grouped, k, overlap, limit, measure);
    GroupMembers(grouped, |units|, k);
    c := MakeChunk(title, units, seed + grouped[k], |seed|, k + 1);
  }

  /** The units and groups of a paper have their chunks. */
  lemma {:induction false} ChunksMade(
    title: string, units: seq<Unit>, grouped: seq<seq<int>>, n: nat, overlap: int, limit: int, measure: string -> int)
    returns (chunks: seq<PaperChunk>)
    requires Grouped(grouped, |units|) && n <= |grouped|
    ensures |chunks| == n
    ensures forall k :: 0 <= k < n ==> ChunkOf(chunks[k], title, units, grouped, k, overlap, limit, measure)
  {
    hide *;
    if n == 0 {
      chunks := [];
    } else {
      var front := ChunksMade(title, units, grouped, n - 1, overlap, limit, measure);
      var last := ChunkMade(title, units, grouped, n - 1, overlap, limit, measure);
      chunks := front + [last];
    }
  }

  /** Whatever units and greedy groups a paper has, it can be chunked that way. */
  lemma PaperChunked(
    parsed: ParsedPaper, units: seq<Unit>, grouped: seq<seq<int>>, overlap: int, limit: int, isCaption: string -> bool,
    measure: string -> int)
    returns (chunks: seq<PaperChunk>)
    requires
      var title := CleanTitle(parsed.title);
      var fits := GroupFits(title, units, limit, measure);
      && PaperCut(units, parsed.sections, HeaderTokens(title, measure), limit, isCaption, measure)
      && Grouped(grouped, |units|) && IsPacking(grouped, Upto(|units|), fits) && IsGreedy(grouped, fits)
    ensures Chunked(chunks, parsed, units, grouped, overlap, limit, isCaption, measure)
  {
    var title := CleanTitle(parsed.title);
    PaperCutConserves(units, parsed.sections, HeaderTokens(title, measure), limit, isCaption, measure);
    hide Render, PaperCut, AllFitHeaders, EraseAll, Texts, SectionTexts, Grouped, IsGreedy, IsPacking, ChunkOf, Upto, CleanTitle;
    chunks := ChunksMade(title, units, grouped, |grouped|, overlap, limit, measure);
  }

  lemma OneGroupPacks(title: string, u: Unit, limit: int, measure: string -> int)
    ensures
      var grouped, fits := [[0]], GroupFits(title, [u], limit, measure);
      Grouped(grouped, 1) && IsPacking(grouped, Upto(1), fits) && IsGreedy(grouped, fits)
  {
    hide Render;
    FlattenShort([0], []);
    assert Upto(1) == [0];
  }

  lemma TwoGroupsPack(title: string, units: seq<Unit>, limit: int, measure: string -> int)
    requires |units| == 2 && measure(Render(title, units)) > limit
    ensures
      var grouped, fits := [[0], [1]], GroupFits(title, units, limit, measure);
      Grouped(grouped, 2) && IsPacking(grouped, Upto(2), fits) && IsGreedy(grouped, fits)
  {
    hide Render;
    var grouped: seq<seq<int>> := [[0], [1]];
    FlattenShort([0], [1]);
    assert grouped[..1] == [[0]] && Upto(2) == [0] + [1] == [0, 1];
    assert Pick(units, [0, 1]) == units;
  }

  /* ----- the condition is needed ----- */

  lemma SamePagesTwice(pages: seq<int>)
    ensures SortedUnique(pages + pages) == SortedUnique(pages)
  {
    SortedUniqueProperties(pages);
    SortedUniqueProperties(pages + pages);
    SortedExtensional(SortedUnique(pages + pages), SortedUnique(pages));
  }

  /** Two units of one section are rendered under its header, with four more characters than the probe and the texts. */
  lemma TwoUnitLength(title: string, a: Unit, b: Unit)
    requires a.section == b.section && a.pages == b.pages && a.text != "" && b.text != ""
    ensures |Render(title, [a, b])|
         == |Render(title, [HeaderProbe(a.section, a.pages)])| + 4 + |a.text| + |b.text|
  {
    var probe: seq<Unit>, one: seq<Unit>, two: seq<Unit> := [HeaderProbe(a.section, a.pages)], [a], [a, b];
    assert probe[..0] == [] && one[..0] == [] && two[..1] == one;
    var title1: seq<string>, body1: seq<string> := [a.section], [a.text];
    assert Sections(probe) == title1 == Sections(one) && Sections(two) == [a.section, a.section];
    assert [a.section, a.section][..1] == title1 && title1[..0] == [];
    assert Dedup(Sections(two)) == Dedup(title1);
    assert Pages(probe) == a.pages == Pages(one) && Pages(two) == a.pages + a.pages;
    SamePagesTwice(a.pages);
    assert Bodies(probe) == [] && Bodies(one) == body1 && Bodies(two) == [a.text, b.text];
    assert [a.text, b.text][..1] == body1;
    assert Join("\n\n", Bodies(two)) == a.text + "\n\n" + b.text;
    assert Header(title, two) == Header(title, probe);
  }

  /** A word that fills its room exceeds the limit when the remainder is 3 or 0. */
  lemma FullWordExceeds(title: string, u: Unit, room: int, limit: int, measure: string -> int)
    requires EstimatesTokens(measure)
    requires room == limit - measure(Render(title, [HeaderProbe(u.section, u.pages)])) > 0 && |u.text| == 4 * room
    requires |Render(title, [HeaderProbe(u.section, u.pages)])| % 4 !in {1, 2}
    ensures measure(u.text) <= room && measure(Render(title, [u])) > limit
  {
    hide Render;
    var probe := Render(title, [HeaderProbe(u.section, u.pages)]);
    OneUnitLength(title, u);
    WithinTokens(measure, u.text, room);
    WithinTokens(measure, probe, limit - room - 1);
    WithinTokens(measure, Render(title, [u]), limit);
  }

  /** One character leaves room for itself, and with a full word behind it exceeds the limit. */
  lemma FullPairExceeds(title: string, a: Unit, b: Unit, room: int, limit: int, measure: string -> int)
    requires EstimatesTokens(measure) && a.section == b.section && a.pages == b.pages
    requires room == limit - measure(Render(title, [HeaderProbe(a.section, a.pages)])) > 0
    requires |a.text| == 1 && |b.text| == 4 * room
    ensures measure(a.text) <= room && measure(b.text) <= room
    ensures measure(Render(title, [a])) <= limit < measure(Render(title, [a, b]))
  {
    hide Render;
    var probe := Render(title, [HeaderProbe(a.section, a.pages)]);
    OneUnitLength(title, a);
    TwoUnitLength(title, a, b);
    WithinTokens(measure, a.text, room);
    WithinTokens(measure, b.text, room);
    WithinTokens(measure, probe, limit - room);
    WithinTokens(measure, probe, limit - room - 1);
    WithinTokens(measure, Render(title, [a]), limit);
    WithinTokens(measure, Render(title, [a, b]), limit);
  }

  /** The room that the header of section i leaves. */
  function Room(shape: ParsedPaper, i: nat, limit: int, measure: string -> int): int
    requires i < |shape.sections|
  {
    limit - measure(Probe(CleanTitle(shape.title), shape.sections[i]))
  }

  /** A paper of the shape that breaks the limit when section i does not allow for it. */
  function Breaker(shape: ParsedPaper, i: nat, overlap: int, limit: int, measure: string -> int): (r: ParsedPaper)
    requires i < |shape.sections| && Room(shape, i, limit, measure) > 0
    ensures SameShape(r, shape)
  {
    var n := 4 * Room(shape, i, limit, measure);
    OnlyText(shape, i, if overlap > 0 then TwoWords(n) else Word(n))
  }

  /** However it is chunked, it has a chunk beyond the limit; and it can be chunked. */
  lemma BreakerBreaks(
    shape: ParsedPaper, i: nat, overlap: int, limit: int, isCaption: string -> bool, measure: string -> int)
    returns (chunks: seq<PaperChunk>, units: seq<Unit>, grouped: seq<seq<int>>)
    requires EstimatesTokens(measure) && CaptionsAreLong(isCaption) && i < |shape.sections|
    requires !HeaderAllows(CleanTitle(shape.title), shape.sections[i], overlap, limit, measure)
    ensures Chunked(chunks, Breaker(shape, i, overlap, limit, measure), units, grouped, overlap, limit, isCaption, measure)
    ensures forall cs, us, gs ::
      Chunked(cs, Breaker(shape, i, overlap, limit, measure), us, gs, overlap, limit, isCaption, measure) ==>
        !AllWithin(cs, limit, measure)
  {
    var title, s, room := CleanTitle(shape.title), shape.sections[i], Room(shape, i, limit, measure);
    var section, n, parsed := CleanTitle(s.title), 4 * room, Breaker(shape, i, overlap, limit, measure);
    var header := HeaderTokens(title, measure);
    var u := Unit(section, s.pages, Word(n), true);
    hide Render, CleanTitle, PaperCut, Word, AllFitHeaders, EraseAll, Texts, SectionTexts, ChunksOf, IsGreedy, IsPacking, Grouped;
    if overlap > 0 {
      var a := Unit(section, s.pages, "x", true);
      FullPairExceeds(title, a, u, room, limit, measure);
      units, grouped := [a, u], [[0], [1]];
      TwoWordUnits(shape, i, n, units, header, limit, isCaption, measure);
      TwoGroupsPack(title, units, limit, measure);
      chunks := PaperChunked(parsed, units, grouped, overlap, limit, isCaption, measure);
      forall cs, us, gs | Chunked(cs, parsed, us, gs, overlap, limit, isCaption, measure)
        ensures !AllWithin(cs, limit, measure)
      {
        TwoWordUnits(shape, i, n, us, header, limit, isCaption, measure);
        SecondChunkRepeatsFirst(cs, parsed, a, u, gs, overlap, limit, isCaption, measure);
      }
    } else {
      FullWordExceeds(title, u, room, limit, measure);
      units, grouped := [u], [[0]];
      OneWordUnits(shape, i, n, units, header, limit, isCaption, measure);
      OneGroupPacks(title, u, limit, measure);
      chunks := PaperChunked(parsed, units, grouped, overlap, limit, isCaption, measure);
      forall cs, us, gs | Chunked(cs, parsed, us, gs, overlap, limit, isCaption, measure)
        ensures !AllWithin(cs, limit, measure)
      {
        OneWordUnits(shape, i, n, us, header, limit, isCaption, measure);
        OneUnitExceeds(cs, parsed, u, gs, overlap, limit, isCaption, measure);
      }
    }
  }

  /**
   * `build_chunks` keeps the documented limit on every paper with given titles and pages exactly
   * when no section whose header leaves room for text has an overlap to bear or a header probe
   * that leaves a remainder of 3 or 0.
   */
  lemma LimitKeptIff(
    shape: ParsedPaper, overlap: int, limit: int, isCaption: string -> bool, measure: string -> int)
    requires EstimatesTokens(measure) && CaptionsAreLong(isCaption)
    ensures KeepsLimit(shape, overlap, limit, isCaption, measure) <==>
      forall i :: 0 <= i < |shape.sections| ==>
        HeaderAllows(CleanTitle(shape.title), shape.sections[i], overlap, limit, measure)
  {
    hide Chunked, HeaderAllows, CleanTitle, Breaker;
    if i :| 0 <= i < |shape.sections| && !HeaderAllows(CleanTitle(shape.title), shape.sections[i], overlap, limit, measure) {
      HasRoom(shape, i, overlap, limit, measure);
      var chunks, units, grouped := BreakerBreaks(shape, i, overlap, limit, isCaption, measure);
      assert !KeepsLimit(shape, overlap, limit, isCaption, measure);
    } else {
      forall parsed, chunks: seq<PaperChunk>, units, grouped
        | SameShape(parsed, shape) && Chunked(chunks, parsed, units, grouped, overlap, limit, isCaption, measure)
        ensures AllWithin(chunks, limit, measure)
      {
        forall k | 0 <= k < |chunks| ensures measure(chunks[k].text) <= limit {
          AllowedChunkWithin(shape, chunks, parsed, units, grouped, k, overlap, limit, isCaption, measure);
        }
      }
    }
  }

  lemma HasRoom(shape: ParsedPaper, i: nat, overlap: int, limit: int, measure: string -> int)
    requires i < |shape.sections|
    requires !HeaderAllows(CleanTitle(shape.title), shape.sections[i], overlap, limit, measure)
    ensures Room(shape, i, limit, measure) > 0
  {
  }

  /** Where the condition fails, a paper on which `build_chunks` itself returns a chunk beyond the limit. */
  method BreakLimit(
    shape: ParsedPaper, i: nat, maxInputTokens: int, promptOverheadTokens: int, overlapParagraphs: int,
    isCaption: string -> bool, measure: string -> int)
    returns (parsed: ParsedPaper, r: Result<seq<PaperChunk>, ChunkError>)
    requires EstimatesTokens(measure) && CaptionsAreLong(isCaption) && i < |shape.sections|
    requires !HeaderAllows(
      CleanTitle(shape.title), shape.sections[i], overlapParagraphs, maxInputTokens - promptOverheadTokens, measure)
    ensures SameShape(parsed, shape)
    ensures r.Ok? && !AllWithin(r.value, maxInputTokens - promptOverheadTokens, measure)
  {
    hide *;
    var limit := maxInputTokens - promptOverheadTokens;
    HasRoom(shape, i, overlapParagraphs, limit, measure);
    parsed := Breaker(shape, i, overlapParagraphs, limit, measure);
    BreakerAccepted(shape, i, overlapParagraphs, limit, measure);
    r := BuildChunks(parsed, maxInputTokens, promptOverheadTokens, overlapParagraphs, isCaption, measure);
    match r {
      case Err(NoBudget) => assert false;
      case Err(HeaderTooLong) => assert false;
      case Ok(chunks) => BreakerNeverWithin(shape, i, overlapParagraphs, limit, isCaption, measure, chunks);
    }
  }

  lemma BreakerNeverWithin(
    shape: ParsedPaper, i: nat, overlap: int, limit: int, isCaption: string -> bool, measure: string -> int,
    chunks: seq<PaperChunk>)
    requires EstimatesTokens(measure) && CaptionsAreLong(isCaption) && i < |shape.sections|
    requires !HeaderAllows(CleanTitle(shape.title), shape.sections[i], overlap, limit, measure)
    requires exists units, grouped ::
      Chunked(chunks, Breaker(shape, i, overlap, limit, measure), units, grouped, overlap, limit, isCaption, measure)
    ensures !AllWithin(chunks, limit, measure)
  {
    hide Chunked, CleanTitle, Breaker, AllWithin, Render;
    var _, _, _ := BreakerBreaks(shape, i, overlap, limit, isCaption, measure);
  }

  lemma BreakerAccepted(shape: ParsedPaper, i: nat, overlap: int, limit: int, measure: string -> int)
    requires EstimatesTokens(measure) && i < |shape.sections| && Room(shape, i, limit, measure) > 0
    ensures limit > 0
    ensures
      var parsed := Breaker(shape, i, overlap, limit, measure);
      forall s <- parsed.sections :: !HeaderTooLarge(s, HeaderTokens(CleanTitle(parsed.title), measure), limit)
  {
    hide Render, CleanTitle;
    var parsed := Breaker(shape, i, overlap, limit, measure);
    assert Strip("") == "";
    forall s <- parsed.sections ensures !HeaderTooLarge(s, HeaderTokens(CleanTitle(parsed.title), measure), limit) {
      var j :| 0 <= j < |parsed.sections| && parsed.sections[j] == s;
      if j == i {
        assert SameHeading(s, shape.sections[i]);
      }
    }
  }

  /* ----- two papers that break the limit ----- */

  lemma ExampleProbeLength(title: string, section: string)
    ensures |Render(title, [HeaderProbe(section, [])])| == 29 + |title| + |section|
  {
    var probe := HeaderProbe(section, []);
    var units: seq<Unit>, titles: seq<string> := [probe], [section];
    assert units[..0] == [] && titles[..0] == [];
    assert Sections(units) == titles && Pages(units) == [] + [] == [] && probe.text == "";
    assert Bodies(units) == Bodies([]) + [] == [];
    assert Dedup(titles) == titles;
    assert |Header(title, units)| == 28 + |title| + |section|;
  }

  /** A paper with one section, without pages. */
  function Example(title: string, section: string, text: string): ParsedPaper
  {
    ParsedPaper(Some(title), [Section(Some(section), [], text)])
  }

  lemma ExampleFacts(title: string, section: string, text: string)
    requires Trimmed(title) && Trimmed(section)
    ensures
      var parsed := Example(title, section, text);
      && |parsed.sections| == 1 && parsed.sections[0].pages == []
      && CleanTitle(parsed.title) == title && CleanTitle(parsed.sections[0].title) == section
      && OnlyText(Example(title, section, ""), 0, text) == parsed
  {
    StrippedIsFixed(title);
    StrippedIsFixed(section);
  }

  lemma ExampleAccepted(title: string, section: string, text: string, limit: int, measure: string -> int)
    requires EstimatesTokens(measure) && Trimmed(title) && Trimmed(section) && 29 + |title| + |section| <= 4 * (limit - 1)
    ensures
      var parsed := Example(title, section, text);
      forall s <- parsed.sections :: !HeaderTooLarge(s, HeaderTokens(CleanTitle(parsed.title), measure), limit)
  {
    ExampleFacts(title, section, text);
    hide Render, CleanTitle, Strip, Trimmed;
    ExampleProbeLength(title, section);
    WithinTokens(measure, Render(title, [HeaderProbe(section, [])]), limit - 1);
  }

  /**
   * A one-letter title, a section with a one-letter title and a text of four letters: the only
   * chunk measures 10 with a limit of 9, although there is no overlap.
   */
  method LimitExceededExample(title: string, section: string, isCaption: string -> bool, measure: string -> int)
    returns (r: Result<seq<PaperChunk>, ChunkError>)
    requires EstimatesTokens(measure) && Trimmed(title) && Trimmed(section) && |title| == |section| == 1
    ensures r.Ok? && |r.value| == 1 && measure(r.value[0].text) == 10
  {
    hide *;
    var text := Word(4);
    ExampleAccepted(title, section, text, 9, measure);
    r := BuildChunks(Example(title, section, text), 9, 0, 0, isCaption, measure);
    match r {
      case Err(NoBudget) => assert false;
      case Err(HeaderTooLong) => assert false;
      case Ok(chunks) => OneWordExample(title, section, chunks, isCaption, measure);
    }
  }

  lemma OneWordExample(
    title: string, section: string, chunks: seq<PaperChunk>, isCaption: string -> bool, measure: string -> int)
    requires EstimatesTokens(measure) && Trimmed(title) && Trimmed(section) && |title| == |section| == 1
    requires exists units, grouped ::
      Chunked(chunks, Example(title, section, Word(4)), units, grouped, 0, 9, isCaption, measure)
    ensures |chunks| == 1 && measure(chunks[0].text) == 10
  {
    hide *;
    var parsed := Example(title, section, Word(4));
    var u := Unit(section, [], Word(4), true);
    var units, grouped :| Chunked(chunks, parsed, units, grouped, 0, 9, isCaption, measure);
    ExampleFacts(title, section, Word(4));
    ExampleFacts(title, section, "");
    ExampleProbeLength(title, section);
    WordIsWord(4);
    OneUnitLength(title, u);
    HeaderIsProbe(title, section, [], measure);
    WithinTokens(measure, Render(title, [HeaderProbe(section, [])]), 8);
    WithinTokens(measure, Word(4), 1);
    ChunkedCuts(chunks, parsed, units, grouped, 0, 9, isCaption, measure);
    OneWordUnits(Example(title, section, ""), 0, 4, units, HeaderTokens(title, measure), 9, isCaption, measure);
    OneUnitExceeds(chunks, parsed, u, grouped, 0, 9, isCaption, measure);
    WithinTokens(measure, Render(title, [u]), 10);
    WithinTokens(measure, Render(title, [u]), 9);
  }

  lemma HeaderIsProbe(title: string, section: string, pages: seq<int>, measure: string -> int)
    ensures HeaderTokens(title, measure)(section, pages) == measure(Render(title, [HeaderProbe(section, pages)]))
    ensures HeaderProbe(section, pages).section == section && HeaderProbe(section, pages).pages == pages
  {
    hide Render;
  }

  lemma ChunkedCuts(
    chunks: seq<PaperChunk>, parsed: ParsedPaper, units: seq<Unit>, grouped: seq<seq<int>>, overlap: int, limit: int,
    isCaption: string -> bool, measure: string -> int)
    requires Chunked(chunks, parsed, units, grouped, overlap, limit, isCaption, measure)
    ensures PaperCut(units, parsed.sections, HeaderTokens(CleanTitle(parsed.title), measure), limit, isCaption, measure)
  {
    hide Render, PaperCut, CleanTitle;
  }

  /**
   * A one-letter title and a section with a title of three letters, where one-unit chunks keep the
   * limit: with an overlap of one paragraph, the second chunk measures 11 with a limit of 10.
   */
  method OverlapExceededExample(title: string, section: string, isCaption: string -> bool, measure: string -> int)
    returns (r: Result<seq<PaperChunk>, ChunkError>)
    requires EstimatesTokens(measure) && CaptionsAreLong(isCaption)
    requires Trimmed(title) && Trimmed(section) && |title| == 1 && |section| == 3
    ensures r.Ok? && |r.value| == 2 && measure(r.value[1].text) == 11
  {
    hide *;
    var text := TwoWords(4);
    ExampleAccepted(title, section, text, 10, measure);
    r := BuildChunks(Example(title, section, text), 10, 0, 1, isCaption, measure);
    match r {
      case Err(NoBudget) => assert false;
      case Err(HeaderTooLong) => assert false;
      case Ok(chunks) => TwoWordExample(title, section, chunks, isCaption, measure);
    }
  }

  lemma TwoWordExample(
    title: string, section: string, chunks: seq<PaperChunk>, isCaption: string -> bool, measure: string -> int)
    requires EstimatesTokens(measure) && CaptionsAreLong(isCaption)
    requires Trimmed(title) && Trimmed(section) && |title| == 1 && |section| == 3
    requires exists units, grouped ::
      Chunked(chunks, Example(title, section, TwoWords(4)), units, grouped, 1, 10, isCaption, measure)
    ensures |chunks| == 2 && measure(chunks[1].text) == 11
  {
    hide *;
    var parsed := Example(title, section, TwoWords(4));
    var a, b := Unit(section, [], "x", true), Unit(section, [], Word(4), true);
    var units, grouped :| Chunked(chunks, parsed, units, grouped, 1, 10, isCaption, measure);
    ExampleFacts(title, section, TwoWords(4));
    ExampleFacts(title, section, "");
    ExampleProbeLength(title, section);
    WordIsWord(4);
    HeaderIsProbe(title, section, [], measure);
    WithinTokens(measure, Render(title, [HeaderProbe(section, [])]), 9);
    WithinTokens(measure, Render(title, [HeaderProbe(section, [])]), 8);
    FullPairExceeds(title, a, b, 1, 10, measure);
    TwoUnitLength(title, a, b);
    ChunkedCuts(chunks, parsed, units, grouped, 1, 10, isCaption, measure);
    TwoWordUnits(Example(title, section, ""), 0, 4, units, HeaderTokens(title, measure), 10, isCaption, measure);
    SecondChunkRepeatsFirst(chunks, parsed, a, b, grouped, 1, 10, isCaption, measure);
    WithinTokens(measure, Render(title, [a, b]), 11);
    WithinTokens(measure, Render(title, [a, b]), 10);
  }
}
