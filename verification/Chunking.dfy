/**
 * The semantic chunker: sections are cut into paragraphs, captions are glued to what
 * follows them, long paragraphs are cut into sentences and long sentences by force;
 * the resulting units are grouped greedily into chunks with an optional overlap.
 */
module Chunking {
  import opened Seqs
  import opened Text
  import opened ChunkText
  import Budget
  import Packing

  const CAPTION_MAX_CHARACTERS := 400

  datatype Section = Section(title: Option<string>, pages: seq<int>, text: string)

  datatype ParsedPaper = ParsedPaper(title: Option<string>, sections: seq<Section>)

  datatype PaperChunk = PaperChunk(
    index: nat,
    sectionTitles: seq<string>,
    pages: seq<int>,
    text: string,
    firstUnit: nat,
    lastUnit: nat,
    overlapUnits: nat)

  datatype ChunkError = NoBudget | HeaderTooLong

  /** The measure is the configured token estimate of four characters a token. */
  ghost predicate EstimatesTokens(measure: string -> int)
  {
    forall s: string :: measure(s) == Budget.EstimateTokens(s, Budget.CHARS_PER_TOKEN)
  }

  lemma WithinTokens(measure: string -> int, s: string, n: int)
    requires EstimatesTokens(measure)
    ensures measure(s) <= n <==> |s| <= 4 * n
  {
    Budget.QuarterTokens(s, n);
  }

  /** `(title or "Untitled").strip() or "Untitled"`. */
  function CleanTitle(title: Option<string>): (r: string)
    ensures r != ""
  {
    var stripped := Strip(if title.Some? then title.value else "");
    if stripped == "" then "Untitled" else stripped
  }

  /** A title is trimmed, and keeps all its text if it has any. */
  lemma CleanTitleKeeps(title: Option<string>)
    ensures Trimmed(CleanTitle(title))
    ensures title.Some? && Erase(title.value) != "" ==> Erase(CleanTitle(title)) == Erase(title.value)
  {
    var given := if title.Some? then title.value else "";
    StripIsStripped(given);
    EraseStrip(given);
    EraseEmpty();
  }

  /* ----- hard split ----- */

  /** k characters fit and one more does not (or there are no more, or not even one fits). */
  ghost predicate IsCut(text: string, k: nat, limit: int, measure: string -> int)
  {
    && k <= |text|
    && (k > 0 ==> measure(text[..k]) <= limit)
    && (k < |text| ==> measure(text[..k + 1]) > limit)
  }

  ghost predicate MonotonePrefixes(text: string, measure: string -> int)
  {
    forall i, j :: 0 <= i <= j <= |text| ==> measure(text[..i]) <= measure(text[..j])
  }

  /** Binary search for a prefix that fits; the longest one when the measure grows with the prefix. */
  method FitPrefix(text: string, limit: int, measure: string -> int) returns (prefix: string)
    ensures prefix <= text && IsCut(text, |prefix|, limit, measure)
    ensures MonotonePrefixes(text, measure) ==>
      forall j :: |prefix| < j <= |text| ==> measure(text[..j]) > limit
  {
    var low, high := 0, |text|;
    while low < high
      invariant 0 <= low <= high <= |text|
      invariant low > 0 ==> measure(text[..low]) <= limit
      invariant high < |text| ==> measure(text[..high + 1]) > limit
    {
      var middle := (low + high + 1) / 2;
      if measure(text[..middle]) <= limit {
        low := middle;
      } else {
        high := middle - 1;
      }
    }
    return text[..low];
  }

  /** Where the hard split cuts: at a cut, or at the fallback length when not even one character fits. */
  ghost predicate HardCut(text: string, k: nat, limit: int, measure: string -> int)
  {
    && 0 < k <= |text|
    && (IsCut(text, k, limit, measure)
        || (IsCut(text, 0, limit, measure) && k == Min(|text|, if limit > 1 then limit else 1)))
  }

  /** The token estimate grows with the prefix, so binary search finds the longest prefix that fits. */
  lemma EstimateIsMonotone(text: string, measure: string -> int)
    requires EstimatesTokens(measure)
    ensures MonotonePrefixes(text, measure)
  {
    forall i, j | 0 <= i <= j <= |text| ensures measure(text[..i]) <= measure(text[..j]) {
      WithinTokens(measure, text[..i], measure(text[..j]));
      WithinTokens(measure, text[..j], measure(text[..j]));
    }
  }

  /** The cut takes the longest prefix that fits, or one character when no prefix does. */
  ghost predicate LongestCut(text: string, k: nat, limit: int, measure: string -> int)
  {
    && 0 < k <= |text|
    && (measure(text[..k]) <= limit || (k == 1 && measure(text[..1]) > limit))
    && forall j :: k < j <= |text| ==> measure(text[..j]) > limit
  }

  lemma HardCutIsLongest(text: string, k: nat, limit: int, measure: string -> int)
    requires EstimatesTokens(measure) && HardCut(text, k, limit, measure)
    ensures LongestCut(text, k, limit, measure)
    ensures k == if limit >= 1 then Min(|text|, 4 * limit) else 1
  {
    EstimateIsMonotone(text, measure);
    WithinTokens(measure, text[..1], limit);
    WithinTokens(measure, text[..k], limit);
    if k < |text| {
      WithinTokens(measure, text[..k + 1], limit);
      assert measure(text[..k + 1]) > limit;
    }
  }

  function Min(a: nat, b: nat): nat
  {
    if a < b then a else b
  }

  /** The pieces are taken off the text by successive hard cuts at the given lengths, leaving the remainder. */
  ghost predicate HardSplit(
    text: string, cuts: seq<nat>, pieces: seq<string>, remaining: string, limit: int, measure: string -> int)
    decreases cuts
  {
    if cuts == [] then pieces == [] && remaining == text
    else
      && pieces != [] && HardCut(text, cuts[0], limit, measure)
      && pieces[0] == Strip(text[..cuts[0]])
      && HardSplit(Strip(text[cuts[0]..]), cuts[1..], pieces[1..], remaining, limit, measure)
  }

  /** Every cut of a hard split takes the longest prefix. */
  ghost predicate LongestCuts(text: string, cuts: seq<nat>, limit: int, measure: string -> int)
    decreases cuts
  {
    cuts != [] ==>
      LongestCut(text, cuts[0], limit, measure) && LongestCuts(Strip(text[cuts[0]..]), cuts[1..], limit, measure)
  }

  lemma {:induction false} HardSplitIsLongest(
    text: string, cuts: seq<nat>, pieces: seq<string>, remaining: string, limit: int, measure: string -> int)
    requires EstimatesTokens(measure) && HardSplit(text, cuts, pieces, remaining, limit, measure)
    ensures LongestCuts(text, cuts, limit, measure)
    decreases cuts
  {
    hide EstimatesTokens, LongestCut, HardCut, Strip;
    if cuts != [] {
      HardCutIsLongest(text, cuts[0], limit, measure);
      assert cuts[0] <= |text| by { HardCutLength(text, cuts[0], limit, measure); }
      HardSplitIsLongest(Strip(text[cuts[0]..]), cuts[1..], pieces[1..], remaining, limit, measure);
    }
  }

  lemma HardCutLength(text: string, k: nat, limit: int, measure: string -> int)
    requires HardCut(text, k, limit, measure)
    ensures 0 < k <= |text|
  {
  }

  function Texts(units: seq<Unit>): (r: seq<string>)
    ensures |r| == |units|
  {
    if units == [] then [] else Texts(units[..|units| - 1]) + [units[|units| - 1].text]
  }

  lemma {:induction false} TextsAppend(a: seq<Unit>, b: seq<Unit>)
    ensures Texts(a + b) == Texts(a) + Texts(b)
  {
    if b == [] {
      assert a + b == a;
    } else {
      assert (a + b)[..|a + b| - 1] == a + b[..|b| - 1];
      TextsAppend(a, b[..|b| - 1]);
    }
  }

  lemma EraseTextsSnoc(units: seq<Unit>, u: Unit)
    ensures EraseAll(Texts(units + [u])) == EraseAll(Texts(units)) + Erase(u.text)
    ensures Texts(units + [u]) == Texts(units) + [u.text]
  {
    TextsAppend(units, [u]);
    assert [u][..0] == [];
    EraseAllAppend(Texts(units), [u.text]);
    EraseAllSingle(u.text);
  }

  /** Trimmed text of a piece that fits, or of a piece of a text that cannot be cut to fit. */
  ghost predicate CutToFit(text: string, limit: int, measure: string -> int)
  {
    exists raw: string :: raw != "" && text == Strip(raw) && (measure(raw) <= limit || measure(raw[..1]) > limit)
  }

  /** Under the token estimate one character always fits, so every unit does. */
  lemma CutTextFits(text: string, limit: int, measure: string -> int)
    requires CutToFit(text, limit, measure) && EstimatesTokens(measure) && limit >= 1
    ensures measure(text) <= limit
  {
    var raw :| raw != "" && text == Strip(raw) && (measure(raw) <= limit || measure(raw[..1]) > limit);
    WithinTokens(measure, raw, limit);
    WithinTokens(measure, raw[..1], limit);
    WithinTokens(measure, text, limit);
  }

  ghost predicate UnitOk(u: Unit, section: string, pages: seq<int>, limit: int, measure: string -> int)
  {
    u.section == section && u.pages == pages && Trimmed(u.text) && CutToFit(u.text, limit, measure)
  }

  ghost predicate UnitsOk(units: seq<Unit>, section: string, pages: seq<int>, limit: int, measure: string -> int)
  {
    units != [] ==>
      && UnitsOk(units[..|units| - 1], section, pages, limit, measure)
      && UnitOk(units[|units| - 1], section, pages, limit, measure)
  }

  /** The pieces of a paragraph that had to be cut do not count as paragraphs. */
  predicate NoneWhole(units: seq<Unit>)
  {
    forall i :: 0 <= i < |units| ==> !units[i].isParagraph
  }

  lemma EraseTextsAppend(a: seq<Unit>, b: seq<Unit>)
    ensures EraseAll(Texts(a + b)) == EraseAll(Texts(a)) + EraseAll(Texts(b))
  {
    hide EraseAll, Texts;
    TextsAppend(a, b);
    EraseAllAppend(Texts(a), Texts(b));
  }

  lemma {:induction false} UnitsOkAppend(
    a: seq<Unit>, b: seq<Unit>, section: string, pages: seq<int>, limit: int, measure: string -> int)
    requires UnitsOk(a, section, pages, limit, measure) && UnitsOk(b, section, pages, limit, measure)
    ensures UnitsOk(a + b, section, pages, limit, measure)
  {
    hide UnitOk;
    if b == [] {
      assert a + b == a;
    } else {
      assert (a + b)[..|a + b| - 1] == a + b[..|b| - 1];
      UnitsOkAppend(a, b[..|b| - 1], section, pages, limit, measure);
    }
  }

  lemma UnitsOkSnoc(
    units: seq<Unit>, u: Unit, section: string, pages: seq<int>, limit: int, measure: string -> int)
    requires UnitsOk(units, section, pages, limit, measure) && UnitOk(u, section, pages, limit, measure)
    ensures UnitsOk(units + [u], section, pages, limit, measure)
    ensures EraseAll(Texts(units + [u])) == EraseAll(Texts(units)) + Erase(u.text)
  {
    hide Erase, EraseAll, UnitOk;
    assert (units + [u])[..|units|] == units;
    EraseTextsSnoc(units, u);
  }

  lemma FirstCharacterKept(s: string)
    requires s != "" && !IsSpace(s[0])
    ensures Strip(s) != ""
  {
    SliceJoin(s, 0, 1);
    EraseAppend(s[..1], s[1..]);
    EraseStrip(s);
  }

  /** A hard cut of trimmed text takes a trimmed piece and leaves a shorter trimmed text. */
  lemma CutPiece(text: string, k: nat, limit: int, measure: string -> int)
    requires Trimmed(text) && HardCut(text, k, limit, measure)
    ensures Trimmed(Strip(text[..k])) && CutToFit(Strip(text[..k]), limit, measure)
    ensures |Strip(text[k..])| < |text| && Stripped(Strip(text[k..]))
    ensures Erase(text) == Erase(Strip(text[..k])) + Erase(Strip(text[k..]))
  {
    StripIsStripped(text[..k]);
    StripIsStripped(text[k..]);
    EraseStrip(text[..k]);
    EraseStrip(text[k..]);
    SliceJoin(text, 0, k);
    EraseAppend(text[..k], text[k..]);
    FirstCharacterKept(text[..k]);
    assert text[..k][..1] == text[..1];
  }

  lemma {:induction false} HardSplitFurther(
    text: string, cuts: seq<nat>, pieces: seq<string>, remaining: string, k: nat, limit: int, measure: string -> int)
    requires HardSplit(text, cuts, pieces, remaining, limit, measure) && HardCut(remaining, k, limit, measure)
    ensures HardSplit(text, cuts + [k], pieces + [Strip(remaining[..k])], Strip(remaining[k..]), limit, measure)
    decreases cuts
  {
    hide Strip;
    if cuts == [] {
      assert (cuts + [k])[1..] == [] && (pieces + [Strip(remaining[..k])])[1..] == [];
    } else {
      HardSplitFurther(Strip(text[cuts[0]..]), cuts[1..], pieces[1..], remaining, k, limit, measure);
      assert (cuts + [k])[1..] == cuts[1..] + [k];
      assert (pieces + [Strip(remaining[..k])])[1..] == pieces[1..] + [Strip(remaining[..k])];
    }
  }

  ghost predicate HardSplitting(
    text: string, units: seq<Unit>, cuts: seq<nat>, remaining: string,
    section: string, pages: seq<int>, limit: int, measure: string -> int)
  {
    && Stripped(remaining)
    && NoneWhole(units)
    && UnitsOk(units, section, pages, limit, measure)
    && EraseAll(Texts(units)) + Erase(remaining) == Erase(text)
    && HardSplit(text, cuts, Texts(units), remaining, limit, measure)
  }

  lemma TakeCut(
    text: string, units: seq<Unit>, cuts: seq<nat>, remaining: string, k: nat,
    section: string, pages: seq<int>, limit: int, measure: string -> int)
    requires HardSplitting(text, units, cuts, remaining, section, pages, limit, measure)
    requires remaining != "" && HardCut(remaining, k, limit, measure)
    ensures HardSplitting(
      text, units + [Unit(section, pages, Strip(remaining[..k]), false)], cuts + [k], Strip(remaining[k..]),
      section, pages, limit, measure)
  {
    CutPiece(remaining, k, limit, measure);
    var u := Unit(section, pages, Strip(remaining[..k]), false);
    assert UnitOk(u, section, pages, limit, measure);
    assert NoneWhole(units) ==> NoneWhole(units + [u]);
    assert k <= |remaining|;
    hide NoneWhole, UnitsOk, UnitOk, Erase, EraseAll, Texts, HardSplit, HardCut, Strip, Stripped, Trimmed, CutToFit;
    UnitsOkSnoc(units, u, section, pages, limit, measure);
    EraseTextsSnoc(units, u);
    HardSplitFurther(text, cuts, Texts(units), remaining, k, limit, measure);
    ConcatAssoc(EraseAll(Texts(units)), Erase(u.text), Erase(Strip(remaining[k..])));
  }

  /** The prefix that fits, or the fallback prefix when none does. */
  method CutPrefix(text: string, limit: int, measure: string -> int) returns (prefix: string)
    requires text != ""
    ensures HardCut(text, |prefix|, limit, measure) && prefix == text[..|prefix|]
  {
    prefix := FitPrefix(text, limit, measure);
    if prefix == "" {
      prefix := text[..Min(|text|, if limit > 1 then limit else 1)];
    }
  }

  method HardSplitUnits(section: string, pages: seq<int>, text: string, limit: int, measure: string -> int)
    returns (units: seq<Unit>, ghost cuts: seq<nat>)
    requires Stripped(text)
    ensures UnitsOk(units, section, pages, limit, measure)
    ensures EraseAll(Texts(units)) == Erase(text)
    ensures HardSplit(text, cuts, Texts(units), "", limit, measure)
    ensures EstimatesTokens(measure) ==> LongestCuts(text, cuts, limit, measure)
    ensures NoneWhole(units)
  {
    EraseEmpty();
    assert Texts([]) == [];
    hide Erase, EraseAll, Texts, Strip;
    units, cuts := [], [];
    var remaining := text;
    while remaining != ""
      invariant HardSplitting(text, units, cuts, remaining, section, pages, limit, measure)
      decreases |remaining|
    {
      var prefix := CutPrefix(remaining, limit, measure);
      ghost var k: nat := |prefix|;
      CutPiece(remaining, k, limit, measure);
      TakeCut(text, units, cuts, remaining, k, section, pages, limit, measure);
      cuts := cuts + [k];
      units := units + [Unit(section, pages, Strip(prefix), false)];
      remaining := Strip(remaining[|prefix|..]);
    }
    if EstimatesTokens(measure) {
      HardSplitIsLongest(text, cuts, Texts(units), "", limit, measure);
    }
  }

  /* ----- paragraphs ----- */

  /** Keep a short caption in one unit with the paragraph after it. */
  function Glue(paragraphs: seq<string>, isCaption: string -> bool): (r: seq<string>)
  {
    if paragraphs == [] then []
    else if isCaption(paragraphs[0]) && |paragraphs[0]| < CAPTION_MAX_CHARACTERS && |paragraphs| > 1 then
      [paragraphs[0] + "\n" + paragraphs[1]] + Glue(paragraphs[2..], isCaption)
    else [paragraphs[0]] + Glue(paragraphs[1..], isCaption)
  }

  lemma EraseGlued(caption: string, paragraph: string)
    requires Trimmed(caption) && Trimmed(paragraph)
    ensures Erase(caption + "\n" + paragraph) == Erase(caption) + Erase(paragraph)
    ensures Trimmed(caption + "\n" + paragraph)
  {
    EraseJoin(caption, "\n", paragraph);
  }

  /** Gluing loses no text. */
  lemma {:induction false} GlueConserves(paragraphs: seq<string>, isCaption: string -> bool)
    requires AllTrimmed(paragraphs)
    ensures EraseAll(Glue(paragraphs, isCaption)) == EraseAll(paragraphs)
  {
    hide Erase, EraseAll;
    if paragraphs != [] {
      var p := paragraphs[0];
      EraseAllHead(paragraphs);
      if isCaption(p) && |p| < CAPTION_MAX_CHARACTERS && |paragraphs| > 1 {
        var q := paragraphs[1];
        EraseAllHead(paragraphs[1..]);
        assert paragraphs[1..][1..] == paragraphs[2..];
        GlueConserves(paragraphs[2..], isCaption);
        EraseGlued(p, q);
        EraseAllCons(p + "\n" + q, Glue(paragraphs[2..], isCaption));
        ConcatAssoc(Erase(p), Erase(q), EraseAll(paragraphs[2..]));
      } else {
        GlueConserves(paragraphs[1..], isCaption);
        EraseAllCons(p, Glue(paragraphs[1..], isCaption));
      }
    }
  }

  lemma {:induction false} GlueTrims(paragraphs: seq<string>, isCaption: string -> bool)
    requires AllTrimmed(paragraphs)
    ensures AllTrimmed(Glue(paragraphs, isCaption))
  {
    if paragraphs != [] {
      if isCaption(paragraphs[0]) && |paragraphs[0]| < CAPTION_MAX_CHARACTERS && |paragraphs| > 1 {
        GlueTrims(paragraphs[2..], isCaption);
        EraseGlued(paragraphs[0], paragraphs[1]);
      } else {
        GlueTrims(paragraphs[1..], isCaption);
      }
    }
  }

  method GluedParagraphs(text: string, isCaption: string -> bool) returns (glued: seq<string>)
    ensures glued == Glue(Pieces(BlankLine, text), isCaption)
    ensures EraseAll(glued) == Erase(text) && AllTrimmed(glued)
  {
    var paragraphs := Pieces(BlankLine, text);
    glued := [];
    var index := 0;
    while index < |paragraphs|
      invariant 0 <= index <= |paragraphs|
      invariant glued + Glue(paragraphs[index..], isCaption) == Glue(paragraphs, isCaption)
    {
      var paragraph := paragraphs[index];
      if isCaption(paragraph) && |paragraph| < CAPTION_MAX_CHARACTERS && index + 1 < |paragraphs| {
        assert paragraphs[index..][2..] == paragraphs[index + 2..];
        ConcatAssoc(glued, [paragraph + "\n" + paragraphs[index + 1]], Glue(paragraphs[index + 2..], isCaption));
        glued := glued + [paragraph + "\n" + paragraphs[index + 1]];
        index := index + 2;
      } else {
        assert paragraphs[index..][1..] == paragraphs[index + 1..];
        ConcatAssoc(glued, [paragraph], Glue(paragraphs[index + 1..], isCaption));
        glued := glued + [paragraph];
        index := index + 1;
      }
    }
    PiecesConserve(BlankLine, text);
    GlueConserves(paragraphs, isCaption);
    GlueTrims(paragraphs, isCaption);
  }

  /** Units and buffer after some sentences of a paragraph. */
  ghost predicate Buffered(
    units: seq<Unit>, buffer: string, erased: string,
    section: string, pages: seq<int>, limit: int, measure: string -> int)
  {
    && NoneWhole(units)
    && UnitsOk(units, section, pages, limit, measure)
    && EraseAll(Texts(units)) + Erase(buffer) == erased
    && Holds(buffer, limit, measure)
  }

  /** A buffer is empty or trimmed text that fits. */
  ghost predicate Holds(buffer: string, limit: int, measure: string -> int)
  {
    buffer != "" ==> Trimmed(buffer) && measure(buffer) <= limit
  }

  function Flushed(units: seq<Unit>, section: string, pages: seq<int>, buffer: string): seq<Unit>
  {
    if buffer == "" then units else units + [Unit(section, pages, buffer, false)]
  }

  lemma FlushBuffer(
    units: seq<Unit>, buffer: string, erased: string,
    section: string, pages: seq<int>, limit: int, measure: string -> int)
    requires Buffered(units, buffer, erased, section, pages, limit, measure)
    ensures UnitsOk(Flushed(units, section, pages, buffer), section, pages, limit, measure)
    ensures EraseAll(Texts(Flushed(units, section, pages, buffer))) == erased
    ensures NoneWhole(Flushed(units, section, pages, buffer))
  {
    if buffer != "" {
      assert buffer == Strip(buffer);
      UnitsOkSnoc(units, Unit(section, pages, buffer, false), section, pages, limit, measure);
    }
  }

  /** Appending a sentence to the buffer adds its text and leaves the candidate trimmed. */
  lemma CandidateText(buffer: string, sentence: string)
    ensures Erase(Strip(buffer + " " + sentence)) == Erase(buffer) + Erase(sentence)
    ensures Stripped(Strip(buffer + " " + sentence))
  {
    EraseJoin(buffer, " ", sentence);
    EraseStrip(buffer + " " + sentence);
    StripIsStripped(buffer + " " + sentence);
  }

  lemma ExtendBuffer(
    units: seq<Unit>, buffer: string, erased: string, sentence: string,
    section: string, pages: seq<int>, limit: int, measure: string -> int)
    requires Buffered(units, buffer, erased, section, pages, limit, measure)
    requires measure(Strip(buffer + " " + sentence)) <= limit
    ensures Buffered(
      units, Strip(buffer + " " + sentence), erased + Erase(sentence), section, pages, limit, measure)
  {
    hide Erase, EraseAll, Strip, Stripped, UnitsOk, Texts;
    CandidateText(buffer, sentence);
    ConcatAssoc(EraseAll(Texts(units)), Erase(buffer), Erase(sentence));
  }

  /* ----- sentences ----- */

  /** Sentences that go on one line within the limit. */
  function OneLine(limit: int, measure: string -> int): seq<string> -> bool
  {
    (run: seq<string>) => measure(Join(" ", run)) <= limit
  }

  /** A run of sentences is one unit when it fits; otherwise it is one sentence, cut by force. */
  ghost predicate RunCut(
    run: seq<string>, units: seq<Unit>, section: string, pages: seq<int>, limit: int, measure: string -> int)
  {
    if OneLine(limit, measure)(run) then run != [] && units == [Unit(section, pages, Join(" ", run), false)]
    else |run| == 1 && exists cuts :: HardSplit(run[0], cuts, Texts(units), "", limit, measure)
  }

  /** The run had no room for the sentence that opens the next one. */
  ghost predicate Full(run: seq<string>, next: string, limit: int, measure: string -> int)
  {
    OneLine(limit, measure)(run) ==> !OneLine(limit, measure)(run + [next])
  }

  ghost predicate RunsCut(
    runs: seq<seq<string>>, cuts: seq<seq<Unit>>, section: string, pages: seq<int>, limit: int, measure: string -> int)
  {
    && |runs| == |cuts|
    && (forall k :: 0 <= k < |runs| ==> runs[k] != [] && RunCut(runs[k], cuts[k], section, pages, limit, measure))
    && (forall k :: 0 <= k < |runs| - 1 ==> Full(runs[k], runs[k + 1][0], limit, measure))
  }

  /** Runs of whole sentences, in order, each with its units. */
  ghost predicate SentenceRuns(
    units: seq<Unit>, runs: seq<seq<string>>, cuts: seq<seq<Unit>>, sentences: seq<string>,
    section: string, pages: seq<int>, limit: int, measure: string -> int)
  {
    Flatten(runs) == sentences && Flatten(cuts) == units && RunsCut(runs, cuts, section, pages, limit, measure)
  }

  /** The units of a paragraph that does not fit as a whole. */
  ghost predicate SentencesCut(
    units: seq<Unit>, sentences: seq<string>, section: string, pages: seq<int>, limit: int, measure: string -> int)
  {
    exists runs: seq<seq<string>>, cuts: seq<seq<Unit>> ::
      SentenceRuns(units, runs, cuts, sentences, section, pages, limit, measure)
  }

  /** The runs so far, and the sentences in the buffer. */
  ghost predicate Running(
    units: seq<Unit>, buffer: string, runs: seq<seq<string>>, cuts: seq<seq<Unit>>, current: seq<string>,
    sentences: seq<string>, section: string, pages: seq<int>, limit: int, measure: string -> int)
  {
    && SentenceRuns(units, runs, cuts, Flatten(runs), section, pages, limit, measure)
    && Flatten(runs) + current == sentences
    && buffer == Join(" ", current)
    && (current == [] <==> buffer == "")
    && (current != [] ==> OneLine(limit, measure)(current))
    && (runs != [] ==>
          if current == [] then !OneLine(limit, measure)(runs[|runs| - 1])
          else Full(runs[|runs| - 1], current[0], limit, measure))
  }

  /** The runs are closed, and the last one has no room for the next sentence. */
  ghost predicate Closed(
    units: seq<Unit>, runs: seq<seq<string>>, cuts: seq<seq<Unit>>, sentences: seq<string>, next: string,
    section: string, pages: seq<int>, limit: int, measure: string -> int)
  {
    && SentenceRuns(units, runs, cuts, sentences, section, pages, limit, measure)
    && (runs != [] ==> Full(runs[|runs| - 1], next, limit, measure))
  }

  lemma JoinNext(run: seq<string>, next: string)
    ensures Join(" ", [next]) == next
    ensures run != [] ==> Join(" ", run + [next]) == Join(" ", run) + " " + next
  {
    assert (run + [next])[..|run|] == run;
  }

  /** The candidate is the run with the sentence behind it. */
  lemma CandidateIsRun(buffer: string, current: seq<string>, next: string)
    requires buffer == Join(" ", current) && (current == [] <==> buffer == "")
    requires Stripped(buffer) && Trimmed(next)
    ensures Strip(buffer + " " + next) == Join(" ", current + [next])
  {
    JoinNext(current, next);
    if current == [] {
      assert current + [next] == [next];
      assert buffer + " " + next == " " + next && (" " + next)[1..] == next;
      StrippedIsFixed(next);
    } else {
      StrippedIsFixed(buffer + " " + next);
    }
  }

  lemma AddRun(
    units: seq<Unit>, runs: seq<seq<string>>, cuts: seq<seq<Unit>>, sentences: seq<string>,
    run: seq<string>, more: seq<Unit>, section: string, pages: seq<int>, limit: int, measure: string -> int)
    requires SentenceRuns(units, runs, cuts, sentences, section, pages, limit, measure)
    requires run != [] && RunCut(run, more, section, pages, limit, measure)
    requires runs != [] ==> Full(runs[|runs| - 1], run[0], limit, measure)
    ensures SentenceRuns(units + more, runs + [run], cuts + [more], sentences + run, section, pages, limit, measure)
  {
    hide RunCut, Full;
    FlattenSnoc(runs, run);
    FlattenSnoc(cuts, more);
  }

  /** The sentences of the buffer become a run when the buffer is flushed. */
  lemma CloseRun(
    units: seq<Unit>, buffer: string, runs: seq<seq<string>>, cuts: seq<seq<Unit>>, current: seq<string>,
    sentences: seq<string>, section: string, pages: seq<int>, limit: int, measure: string -> int)
    returns (runs': seq<seq<string>>, cuts': seq<seq<Unit>>)
    requires Running(units, buffer, runs, cuts, current, sentences, section, pages, limit, measure)
    ensures SentenceRuns(
      Flushed(units, section, pages, buffer), runs', cuts', sentences, section, pages, limit, measure)
    ensures current == [] ==> runs' == runs
    ensures current != [] ==> runs' == runs + [current]
  {
    if current == [] {
      runs', cuts' := runs, cuts;
    } else {
      var more := [Unit(section, pages, buffer, false)];
      AddRun(units, runs, cuts, Flatten(runs), current, more, section, pages, limit, measure);
      runs', cuts' := runs + [current], cuts + [more];
    }
  }

  lemma CloseRunBefore(
    units: seq<Unit>, buffer: string, runs: seq<seq<string>>, cuts: seq<seq<Unit>>, current: seq<string>,
    sentences: seq<string>, next: string, section: string, pages: seq<int>, limit: int, measure: string -> int)
    returns (runs': seq<seq<string>>, cuts': seq<seq<Unit>>)
    requires Running(units, buffer, runs, cuts, current, sentences, section, pages, limit, measure)
    requires !OneLine(limit, measure)(current + [next])
    ensures Closed(
      Flushed(units, section, pages, buffer), runs', cuts', sentences, next, section, pages, limit, measure)
  {
    hide SentenceRuns;
    runs', cuts' := CloseRun(units, buffer, runs, cuts, current, sentences, section, pages, limit, measure);
  }

  lemma ExtendRun(
    units: seq<Unit>, buffer: string, runs: seq<seq<string>>, cuts: seq<seq<Unit>>, current: seq<string>,
    sentences: seq<string>, next: string, section: string, pages: seq<int>, limit: int, measure: string -> int)
    requires Running(units, buffer, runs, cuts, current, sentences, section, pages, limit, measure)
    requires OneLine(limit, measure)(current + [next]) && Join(" ", current + [next]) != ""
    ensures Running(
      units, Join(" ", current + [next]), runs, cuts, current + [next], sentences + [next],
      section, pages, limit, measure)
  {
    hide SentenceRuns, Join;
    ConcatAssoc(Flatten(runs), current, [next]);
  }

  lemma OpenRun(
    units: seq<Unit>, runs: seq<seq<string>>, cuts: seq<seq<Unit>>, sentences: seq<string>, next: string,
    section: string, pages: seq<int>, limit: int, measure: string -> int)
    requires Closed(units, runs, cuts, sentences, next, section, pages, limit, measure)
    requires measure(next) <= limit && next != ""
    ensures Running(units, next, runs, cuts, [next], sentences + [next], section, pages, limit, measure)
  {
    JoinNext([], next);
    hide RunsCut;
  }

  lemma HardRun(
    units: seq<Unit>, runs: seq<seq<string>>, cuts: seq<seq<Unit>>, sentences: seq<string>, next: string,
    pieces: seq<Unit>, at: seq<nat>, section: string, pages: seq<int>, limit: int, measure: string -> int)
    requires Closed(units, runs, cuts, sentences, next, section, pages, limit, measure)
    requires measure(next) > limit && HardSplit(next, at, Texts(pieces), "", limit, measure)
    ensures Running(
      units + pieces, "", runs + [[next]], cuts + [pieces], [], sentences + [next], section, pages, limit, measure)
  {
    JoinNext([], next);
    AddRun(units, runs, cuts, sentences, [next], pieces, section, pages, limit, measure);
    FlattenSnoc(runs, [next]);
    hide RunsCut, RunCut;
    assert Flatten(runs + [[next]]) + [] == sentences + [next];
  }

  /**
   * The units of a paragraph hold its text in order under its section's title and pages; a
   * paragraph that fits is one unit. Any other is cut into units that are no paragraphs: runs of
   * whole sentences that had no room for the next one, and sentences too long for a unit.
   */
  ghost predicate ParagraphCut(
    units: seq<Unit>, section: string, pages: seq<int>, paragraph: string, limit: int, measure: string -> int)
  {
    && UnitsOk(units, section, pages, limit, measure)
    && EraseAll(Texts(units)) == Erase(paragraph)
    && if measure(paragraph) <= limit then units == [Unit(section, pages, paragraph, true)]
       else NoneWhole(units) && SentencesCut(units, Pieces(SentenceGap, paragraph), section, pages, limit, measure)
  }

  method ParagraphUnits(section: string, pages: seq<int>, paragraph: string, limit: int, measure: string -> int)
    returns (units: seq<Unit>)
    requires Trimmed(paragraph)
    ensures ParagraphCut(units, section, pages, paragraph, limit, measure)
  {
    hide *;
    if measure(paragraph) <= limit {
      units := [Unit(section, pages, paragraph, true)];
      WholeParagraphCut(section, pages, paragraph, limit, measure);
      return;
    }
    units := [];
    var sentences := Pieces(SentenceGap, paragraph);
    PiecesConserve(SentenceGap, paragraph);
    var buffer := "";
    ghost var runs: seq<seq<string>>, cuts: seq<seq<Unit>>, current: seq<string> := [], [], [];
    NoRuns(sentences, section, pages, limit, measure);
    for i := 0 to |sentences|
      invariant Buffered(units, buffer, EraseAll(sentences[..i]), section, pages, limit, measure)
      invariant Running(units, buffer, runs, cuts, current, sentences[..i], section, pages, limit, measure)
    {
      TrimmedAt(sentences, i);
      units, buffer, runs, cuts, current := AddSentence(
        units, buffer, runs, cuts, current, sentences[..i], sentences[i], section, pages, limit, measure);
      EraseAllNext(sentences, i);
      assert sentences[..i + 1] == sentences[..i] + [sentences[i]];
    }
    assert sentences[..|sentences|] == sentences;
    FlushBuffer(units, buffer, EraseAll(sentences), section, pages, limit, measure);
    runs, cuts := CloseRun(units, buffer, runs, cuts, current, sentences, section, pages, limit, measure);
    units := Flushed(units, section, pages, buffer);
    LongParagraphCut(units, runs, cuts, section, pages, paragraph, limit, measure);
  }

  lemma WholeParagraphCut(section: string, pages: seq<int>, paragraph: string, limit: int, measure: string -> int)
    requires Trimmed(paragraph) && measure(paragraph) <= limit
    ensures ParagraphCut([Unit(section, pages, paragraph, true)], section, pages, paragraph, limit, measure)
  {
    var u := Unit(section, pages, paragraph, true);
    EraseEmpty();
    assert Texts([]) == [];
    assert paragraph == Strip(paragraph);
    UnitsOkSnoc([], u, section, pages, limit, measure);
    assert [] + [u] == [u];
  }

  lemma LongParagraphCut(
    units: seq<Unit>, runs: seq<seq<string>>, cuts: seq<seq<Unit>>,
    section: string, pages: seq<int>, paragraph: string, limit: int, measure: string -> int)
    requires measure(paragraph) > limit && NoneWhole(units) && UnitsOk(units, section, pages, limit, measure)
    requires EraseAll(Texts(units)) == Erase(paragraph)
    requires SentenceRuns(units, runs, cuts, Pieces(SentenceGap, paragraph), section, pages, limit, measure)
    ensures ParagraphCut(units, section, pages, paragraph, limit, measure)
  {
    hide SentenceRuns;
  }

  lemma NoRuns(sentences: seq<string>, section: string, pages: seq<int>, limit: int, measure: string -> int)
    ensures Running([], "", [], [], [], sentences[..0], section, pages, limit, measure)
    ensures Buffered([], "", EraseAll(sentences[..0]), section, pages, limit, measure)
  {
    EraseEmpty();
    assert Texts([]) == [];
    assert Flatten<Unit>([]) == [];
    assert sentences[..0] == [];
  }

  lemma Candidate(
    units: seq<Unit>, buffer: string, runs: seq<seq<string>>, cuts: seq<seq<Unit>>, current: seq<string>,
    sentences: seq<string>, next: string, section: string, pages: seq<int>, limit: int, measure: string -> int)
    requires Running(units, buffer, runs, cuts, current, sentences, section, pages, limit, measure)
    requires Buffered(units, buffer, EraseAll(sentences), section, pages, limit, measure) && Trimmed(next)
    ensures Strip(buffer + " " + next) == Join(" ", current + [next]) != ""
    ensures OneLine(limit, measure)(current + [next]) <==> measure(Strip(buffer + " " + next)) <= limit
    ensures Stripped(next) && next != ""
  {
    hide SentenceRuns, UnitsOk, EraseAll, Texts, Erase;
    CandidateIsRun(buffer, current, next);
    JoinNext(current, next);
  }

  /** The flushed buffer starts again with a sentence that fits. */
  lemma BufferTaken(
    units: seq<Unit>, erased: string, sentence: string,
    section: string, pages: seq<int>, limit: int, measure: string -> int)
    requires UnitsOk(units, section, pages, limit, measure) && NoneWhole(units) && EraseAll(Texts(units)) == erased
    requires Trimmed(sentence) && measure(sentence) <= limit
    ensures Buffered(units, sentence, erased + Erase(sentence), section, pages, limit, measure)
  {
  }

  /** The pieces of a sentence that was cut by force leave the buffer empty. */
  lemma BufferEmptied(
    units: seq<Unit>, erased: string, pieces: seq<Unit>, sentence: string,
    section: string, pages: seq<int>, limit: int, measure: string -> int)
    requires UnitsOk(units, section, pages, limit, measure) && NoneWhole(units) && EraseAll(Texts(units)) == erased
    requires UnitsOk(pieces, section, pages, limit, measure) && NoneWhole(pieces)
    requires EraseAll(Texts(pieces)) == Erase(sentence)
    ensures Buffered(units + pieces, "", erased + Erase(sentence), section, pages, limit, measure)
  {
    hide UnitsOk, EraseAll, Texts;
    UnitsOkAppend(units, pieces, section, pages, limit, measure);
    EraseTextsAppend(units, pieces);
    assert Erase("") == "";
    assert EraseAll(Texts(units + pieces)) + "" == erased + Erase(sentence);
  }

  lemma FlushedExtends(units: seq<Unit>, section: string, pages: seq<int>, buffer: string)
    ensures units <= Flushed(units, section, pages, buffer)
  {
  }

  /** The body of the sentence loop. */
  method AddSentence(
    units: seq<Unit>, buffer: string, ghost runs: seq<seq<string>>, ghost cuts: seq<seq<Unit>>,
    ghost current: seq<string>, ghost sentences: seq<string>, sentence: string,
    section: string, pages: seq<int>, limit: int, measure: string -> int)
    returns (
      units': seq<Unit>, buffer': string,
      ghost runs': seq<seq<string>>, ghost cuts': seq<seq<Unit>>, ghost current': seq<string>)
    requires Buffered(units, buffer, EraseAll(sentences), section, pages, limit, measure) && Trimmed(sentence)
    requires Running(units, buffer, runs, cuts, current, sentences, section, pages, limit, measure)
    ensures Buffered(units', buffer', EraseAll(sentences) + Erase(sentence), section, pages, limit, measure)
    ensures Running(units', buffer', runs', cuts', current', sentences + [sentence], section, pages, limit, measure)
    ensures units <= units'
    ensures measure(Strip(buffer + " " + sentence)) <= limit ==>
      units' == units && buffer' == Strip(buffer + " " + sentence)
    ensures measure(Strip(buffer + " " + sentence)) > limit && measure(sentence) <= limit ==>
      units' == Flushed(units, section, pages, buffer) && buffer' == sentence
  {
    hide *;
    var candidate := Strip(buffer + " " + sentence);
    Candidate(units, buffer, runs, cuts, current, sentences, sentence, section, pages, limit, measure);
    if measure(candidate) <= limit {
      ExtendBuffer(units, buffer, EraseAll(sentences), sentence, section, pages, limit, measure);
      ExtendRun(units, buffer, runs, cuts, current, sentences, sentence, section, pages, limit, measure);
      return units, candidate, runs, cuts, current + [sentence];
    }
    FlushBuffer(units, buffer, EraseAll(sentences), section, pages, limit, measure);
    runs', cuts' := CloseRunBefore(
      units, buffer, runs, cuts, current, sentences, sentence, section, pages, limit, measure);
    units' := Flushed(units, section, pages, buffer);
    FlushedExtends(units, section, pages, buffer);
    if measure(sentence) <= limit {
      BufferTaken(units', EraseAll(sentences), sentence, section, pages, limit, measure);
      OpenRun(units', runs', cuts', sentences, sentence, section, pages, limit, measure);
      return units', sentence, runs', cuts', [sentence];
    }
    ghost var at: seq<nat>;
    var pieces: seq<Unit>;
    pieces, at := HardSplitUnits(section, pages, sentence, limit, measure);
    BufferEmptied(units', EraseAll(sentences), pieces, sentence, section, pages, limit, measure);
    HardRun(units', runs', cuts', sentences, sentence, pieces, at, section, pages, limit, measure);
    units', buffer', runs', cuts', current' := units' + pieces, "", runs' + [[sentence]], cuts' + [pieces], [];
  }

  lemma {:induction false} MembersOfRuns(runs: seq<seq<string>>, k: nat, j: nat)
    requires k < |runs| && j < |runs[k]|
    ensures runs[k][j] in Flatten(runs)
  {
    if k < |runs| - 1 {
      MembersOfRuns(runs[..|runs| - 1], k, j);
    } else {
      assert Flatten(runs)[|Flatten(runs[..k])| + j] == runs[k][j];
    }
  }

  lemma {:induction false} FullRunsAreGreedy(
    runs: seq<seq<string>>, cuts: seq<seq<Unit>>, section: string, pages: seq<int>, limit: int, measure: string -> int)
    requires RunsCut(runs, cuts, section, pages, limit, measure)
    requires forall k :: 0 <= k < |runs| ==> OneLine(limit, measure)(runs[k])
    ensures Packing.IsGreedy(runs, OneLine(limit, measure))
    decreases |runs|
  {
    hide RunCut, OneLine;
    if |runs| >= 2 {
      FullRunsAreGreedy(runs[..|runs| - 1], cuts[..|cuts| - 1], section, pages, limit, measure);
      assert Full(runs[|runs| - 2], runs[|runs| - 1][0], limit, measure);
    }
  }

  lemma RunOfFittingSentences(
    run: seq<string>, units: seq<Unit>, section: string, pages: seq<int>, limit: int, measure: string -> int)
    requires run != [] && RunCut(run, units, section, pages, limit, measure) && measure(run[0]) <= limit
    ensures OneLine(limit, measure)(run) && units == [Unit(section, pages, Join(" ", run), false)]
  {
    hide OneLine, HardSplit;
    OneLineAlone(run[0], limit, measure);
    if |run| == 1 {
      assert run == [run[0]];
    }
  }

  /** When every sentence fits alone, every run fits on one line. */
  lemma RunsOfFittingSentences(
    runs: seq<seq<string>>, cuts: seq<seq<Unit>>, section: string, pages: seq<int>, limit: int, measure: string -> int)
    requires RunsCut(runs, cuts, section, pages, limit, measure)
    requires forall sentence <- Flatten(runs) :: measure(sentence) <= limit
    ensures forall k :: 0 <= k < |runs| ==>
      OneLine(limit, measure)(runs[k]) && cuts[k] == [Unit(section, pages, Join(" ", runs[k]), false)]
  {
    hide OneLine, RunCut, Full, Flatten, Join;
    forall k | 0 <= k < |runs|
      ensures OneLine(limit, measure)(runs[k]) && cuts[k] == [Unit(section, pages, Join(" ", runs[k]), false)]
    {
      MembersOfRuns(runs, k, 0);
      RunOfFittingSentences(runs[k], cuts[k], section, pages, limit, measure);
    }
  }

  /**
   * A paragraph too long for a unit whose sentences all fit alone: every unit is a run of whole
   * sentences joined by blanks, and no run had room for the next sentence.
   */
  lemma UnitsAreSentenceRuns(
    units: seq<Unit>, section: string, pages: seq<int>, paragraph: string, limit: int, measure: string -> int)
    returns (runs: seq<seq<string>>)
    requires ParagraphCut(units, section, pages, paragraph, limit, measure) && measure(paragraph) > limit
    requires forall sentence <- Pieces(SentenceGap, paragraph) :: measure(sentence) <= limit
    ensures Packing.IsPacking(runs, Pieces(SentenceGap, paragraph), OneLine(limit, measure))
    ensures Packing.IsGreedy(runs, OneLine(limit, measure))
    ensures |units| == |runs|
    ensures forall k :: 0 <= k < |units| ==> units[k] == Unit(section, pages, Join(" ", runs[k]), false)
  {
    hide UnitsOk, EraseAll, Texts, Pieces, OneLine;
    var cuts: seq<seq<Unit>>;
    runs, cuts :| SentenceRuns(units, runs, cuts, Pieces(SentenceGap, paragraph), section, pages, limit, measure);
    RunsOfFittingSentences(runs, cuts, section, pages, limit, measure);
    FullRunsAreGreedy(runs, cuts, section, pages, limit, measure);
    Packing.SingletonBatches(cuts);
  }

  lemma OneLineIsHereditary(limit: int, measure: string -> int)
    requires EstimatesTokens(measure)
    ensures Packing.Hereditary(OneLine(limit, measure))
  {
    forall run: seq<string>, lo: nat, hi: nat | lo <= hi <= |run| && OneLine(limit, measure)(run)
      ensures OneLine(limit, measure)(run[lo..hi])
    {
      JoinSublist(" ", run, lo, hi);
      WithinTokens(measure, Join(" ", run), limit);
      WithinTokens(measure, Join(" ", run[lo..hi]), limit);
    }
  }

  /** Under the token estimate no other grouping of consecutive sentences into fitting units has fewer units. */
  lemma FewestSentenceUnits(
    units: seq<Unit>, section: string, pages: seq<int>, paragraph: string, limit: int, measure: string -> int,
    other: seq<seq<string>>)
    requires EstimatesTokens(measure)
    requires ParagraphCut(units, section, pages, paragraph, limit, measure) && measure(paragraph) > limit
    requires Packing.IsPacking(other, Pieces(SentenceGap, paragraph), OneLine(limit, measure))
    ensures |units| <= |other|
  {
    hide ParagraphCut, Pieces, OneLine, EstimatesTokens;
    OneLineIsHereditary(limit, measure);
    Packing.PackedSinglesFit(other, Pieces(SentenceGap, paragraph), OneLine(limit, measure));
    forall sentence <- Pieces(SentenceGap, paragraph) ensures measure(sentence) <= limit {
      OneLineAlone(sentence, limit, measure);
    }
    var runs := UnitsAreSentenceRuns(units, section, pages, paragraph, limit, measure);
    Packing.GreedyIsOptimal(runs, other, Pieces(SentenceGap, paragraph), OneLine(limit, measure));
  }

  lemma OneLineAlone(sentence: string, limit: int, measure: string -> int)
    ensures OneLine(limit, measure)([sentence]) <==> measure(sentence) <= limit
  {
    JoinNext([], sentence);
  }

  /* ----- sections ----- */

  /** Tokens of the header of a section, as `build_chunks` measures it for one paper title. */
  function HeaderTokens(title: string, measure: string -> int): (string, seq<int>) -> int
  {
    (section: string, pages: seq<int>) => measure(Render(title, [HeaderProbe(section, pages)]))
  }

  /** A trimmed unit whose text is cut to the room its own header leaves. */
  ghost predicate FitsHeader(u: Unit, header: (string, seq<int>) -> int, limit: int, measure: string -> int)
  {
    && Trimmed(u.text)
    && header(u.section, u.pages) < limit
    && CutToFit(u.text, limit - header(u.section, u.pages), measure)
  }

  ghost predicate AllFitHeaders(units: seq<Unit>, header: (string, seq<int>) -> int, limit: int, measure: string -> int)
  {
    forall i :: 0 <= i < |units| ==> FitsHeader(units[i], header, limit, measure)
  }

  lemma {:induction false} SectionUnitsFit(
    units: seq<Unit>, header: (string, seq<int>) -> int, section: string, pages: seq<int>, limit: int, measure: string -> int)
    requires header(section, pages) < limit
    requires UnitsOk(units, section, pages, limit - header(section, pages), measure)
    ensures AllFitHeaders(units, header, limit, measure)
  {
    if units != [] {
      SectionUnitsFit(units[..|units| - 1], header, section, pages, limit, measure);
    }
  }

  function SectionTexts(sections: seq<Section>): (r: seq<string>)
    ensures |r| == |sections|
  {
    if sections == [] then [] else SectionTexts(sections[..|sections| - 1]) + [sections[|sections| - 1].text]
  }

  /** A section with text whose header alone uses up the limit. */
  predicate HeaderTooLarge(s: Section, header: (string, seq<int>) -> int, limit: int)
  {
    Strip(s.text) != "" && header(CleanTitle(s.title), s.pages) >= limit
  }

  lemma NoUnits(header: (string, seq<int>) -> int, limit: int, measure: string -> int)
    ensures AllFitHeaders([], header, limit, measure) && EraseAll(Texts([])) == Erase("")
  {
    EraseEmpty();
  }

  /** The units of some paragraphs of a section, one paragraph after the other. */
  ghost predicate ParagraphsCut(
    units: seq<Unit>, section: string, pages: seq<int>, paragraphs: seq<string>, limit: int, measure: string -> int)
    decreases |paragraphs|
  {
    if paragraphs == [] then units == []
    else
      exists k: nat :: k <= |units|
        && ParagraphsCut(units[..k], section, pages, paragraphs[..|paragraphs| - 1], limit, measure)
        && ParagraphCut(units[k..], section, pages, paragraphs[|paragraphs| - 1], limit, measure)
  }

  lemma ParagraphsCutNext(
    units: seq<Unit>, more: seq<Unit>, section: string, pages: seq<int>, paragraphs: seq<string>, paragraph: string,
    limit: int, measure: string -> int)
    requires ParagraphsCut(units, section, pages, paragraphs, limit, measure)
    requires ParagraphCut(more, section, pages, paragraph, limit, measure)
    ensures ParagraphsCut(units + more, section, pages, paragraphs + [paragraph], limit, measure)
  {
    hide ParagraphCut;
    var k: nat := |units|;
    assert (units + more)[..k] == units && (units + more)[k..] == more;
    assert (paragraphs + [paragraph])[..|paragraphs|] == paragraphs;
  }

  /** Where the units of the last paragraph begin. */
  lemma ParagraphsCutLast(
    units: seq<Unit>, section: string, pages: seq<int>, paragraphs: seq<string>, limit: int, measure: string -> int)
    returns (k: nat)
    requires paragraphs != [] && ParagraphsCut(units, section, pages, paragraphs, limit, measure)
    ensures k <= |units|
    ensures ParagraphsCut(units[..k], section, pages, paragraphs[..|paragraphs| - 1], limit, measure)
    ensures ParagraphCut(units[k..], section, pages, paragraphs[|paragraphs| - 1], limit, measure)
  {
    hide ParagraphCut;
    k :| k <= |units|
      && ParagraphsCut(units[..k], section, pages, paragraphs[..|paragraphs| - 1], limit, measure)
      && ParagraphCut(units[k..], section, pages, paragraphs[|paragraphs| - 1], limit, measure);
  }

  lemma ParagraphCutConserves(
    units: seq<Unit>, section: string, pages: seq<int>, paragraph: string, limit: int, measure: string -> int)
    requires ParagraphCut(units, section, pages, paragraph, limit, measure)
    ensures UnitsOk(units, section, pages, limit, measure)
    ensures EraseAll(Texts(units)) == Erase(paragraph)
  {
  }

  lemma NoParagraphs(units: seq<Unit>, section: string, pages: seq<int>, limit: int, measure: string -> int)
    requires ParagraphsCut(units, section, pages, [], limit, measure)
    ensures units == [] && UnitsOk(units, section, pages, limit, measure) && EraseAll(Texts(units)) == EraseAll([])
  {
  }

  lemma {:induction false} ParagraphsCutConserves(
    units: seq<Unit>, section: string, pages: seq<int>, paragraphs: seq<string>, limit: int, measure: string -> int)
    requires ParagraphsCut(units, section, pages, paragraphs, limit, measure)
    ensures UnitsOk(units, section, pages, limit, measure)
    ensures EraseAll(Texts(units)) == EraseAll(paragraphs)
    decreases |paragraphs|
  {
    hide *;
    if paragraphs == [] {
      NoParagraphs(units, section, pages, limit, measure);
    } else {
      var front, last := paragraphs[..|paragraphs| - 1], paragraphs[|paragraphs| - 1];
      var k := ParagraphsCutLast(units, section, pages, paragraphs, limit, measure);
      ParagraphsCutConserves(units[..k], section, pages, front, limit, measure);
      ParagraphCutConserves(units[k..], section, pages, last, limit, measure);
      assert units == units[..k] + units[k..] && paragraphs == front + [last];
      UnitsOkAppend(units[..k], units[k..], section, pages, limit, measure);
      EraseTextsAppend(units[..k], units[k..]);
      EraseAllAppend(front, [last]);
      EraseAllSingle(last);
    }
  }

  /** The paragraphs of a section, captions glued. */
  function Paragraphs(s: Section, isCaption: string -> bool): seq<string>
  {
    Glue(Pieces(BlankLine, Strip(s.text)), isCaption)
  }

  /**
   * The units of a section: none without text, else its paragraphs cut to the room that the
   * section's header leaves, each unit under the cleaned title and the pages of the section.
   */
  ghost predicate SectionCut(
    units: seq<Unit>, s: Section, header: (string, seq<int>) -> int, limit: int, isCaption: string -> bool,
    measure: string -> int)
  {
    if Strip(s.text) == "" then units == []
    else
      var title := CleanTitle(s.title);
      && header(title, s.pages) < limit
      && ParagraphsCut(units, title, s.pages, Paragraphs(s, isCaption), limit - header(title, s.pages), measure)
  }

  method SectionUnits(s: Section, header: (string, seq<int>) -> int, limit: int, isCaption: string -> bool, measure: string -> int)
    returns (units: seq<Unit>)
    requires !HeaderTooLarge(s, header, limit)
    ensures SectionCut(units, s, header, limit, isCaption, measure)
  {
    hide Strip, CleanTitle, ParagraphsCut;
    units := [];
    if Strip(s.text) != "" {
      var section := CleanTitle(s.title);
      units := TextUnits(section, s.pages, Strip(s.text), limit - header(section, s.pages), isCaption, measure);
    }
  }

  lemma NoParagraphCut(section: string, pages: seq<int>, limit: int, measure: string -> int)
    ensures ParagraphsCut([], section, pages, [], limit, measure)
  {
  }

  lemma TrimmedAt(parts: seq<string>, i: nat)
    requires AllTrimmed(parts) && i < |parts|
    ensures Trimmed(parts[i])
  {
  }

  /** Units of a section's text, each cut to the given limit. */
  method TextUnits(section: string, pages: seq<int>, text: string, unitLimit: int, isCaption: string -> bool, measure: string -> int)
    returns (units: seq<Unit>)
    ensures ParagraphsCut(units, section, pages, Glue(Pieces(BlankLine, text), isCaption), unitLimit, measure)
  {
    hide *;
    units := [];
    var paragraphs := GluedParagraphs(text, isCaption);
    NoParagraphCut(section, pages, unitLimit, measure);
    assert paragraphs[..0] == [];
    for k := 0 to |paragraphs|
      invariant ParagraphsCut(units, section, pages, paragraphs[..k], unitLimit, measure)
    {
      TrimmedAt(paragraphs, k);
      var more := ParagraphUnits(section, pages, paragraphs[k], unitLimit, measure);
      ParagraphsCutNext(units, more, section, pages, paragraphs[..k], paragraphs[k], unitLimit, measure);
      assert paragraphs[..k + 1] == paragraphs[..k] + [paragraphs[k]];
      units := units + more;
    }
    assert paragraphs[..|paragraphs|] == paragraphs;
  }

  /** The units of some sections of a paper, one section after the other. */
  ghost predicate PaperCut(
    units: seq<Unit>, sections: seq<Section>, header: (string, seq<int>) -> int, limit: int, isCaption: string -> bool,
    measure: string -> int)
    decreases |sections|
  {
    if sections == [] then units == []
    else
      exists k: nat :: k <= |units|
        && PaperCut(units[..k], sections[..|sections| - 1], header, limit, isCaption, measure)
        && SectionCut(units[k..], sections[|sections| - 1], header, limit, isCaption, measure)
  }

  lemma PaperCutNext(
    units: seq<Unit>, more: seq<Unit>, sections: seq<Section>, s: Section, header: (string, seq<int>) -> int, limit: int,
    isCaption: string -> bool, measure: string -> int)
    requires PaperCut(units, sections, header, limit, isCaption, measure)
    requires SectionCut(more, s, header, limit, isCaption, measure)
    ensures PaperCut(units + more, sections + [s], header, limit, isCaption, measure)
  {
    hide SectionCut;
    var k: nat := |units|;
    assert (units + more)[..k] == units && (units + more)[k..] == more;
    assert (sections + [s])[..|sections|] == sections;
  }

  /** Where the units of the last section begin. */
  lemma PaperCutLast(
    units: seq<Unit>, sections: seq<Section>, header: (string, seq<int>) -> int, limit: int, isCaption: string -> bool,
    measure: string -> int)
    returns (k: nat)
    requires sections != [] && PaperCut(units, sections, header, limit, isCaption, measure)
    ensures k <= |units|
    ensures PaperCut(units[..k], sections[..|sections| - 1], header, limit, isCaption, measure)
    ensures SectionCut(units[k..], sections[|sections| - 1], header, limit, isCaption, measure)
  {
    hide SectionCut;
    k :| k <= |units|
      && PaperCut(units[..k], sections[..|sections| - 1], header, limit, isCaption, measure)
      && SectionCut(units[k..], sections[|sections| - 1], header, limit, isCaption, measure);
  }

  /** A section with units has text, and its units are cut under its cleaned title and pages. */
  lemma SectionCutUnits(
    units: seq<Unit>, s: Section, header: (string, seq<int>) -> int, limit: int, isCaption: string -> bool,
    measure: string -> int)
    requires SectionCut(units, s, header, limit, isCaption, measure)
    ensures Strip(s.text) == "" ==> units == []
    ensures Strip(s.text) != "" ==>
      var title := CleanTitle(s.title);
      && header(title, s.pages) < limit
      && UnitsOk(units, title, s.pages, limit - header(title, s.pages), measure)
      && EraseAll(Texts(units)) == EraseAll(Paragraphs(s, isCaption))
  {
    hide ParagraphsCut, UnitsOk, EraseAll, Texts, Paragraphs, Strip, CleanTitle;
    if Strip(s.text) != "" {
      var title := CleanTitle(s.title);
      ParagraphsCutConserves(units, title, s.pages, Paragraphs(s, isCaption), limit - header(title, s.pages), measure);
    }
  }

  lemma ParagraphsConserve(s: Section, isCaption: string -> bool)
    ensures EraseAll(Paragraphs(s, isCaption)) == Erase(s.text)
  {
    hide Strip, Erase, EraseAll, Pieces, Glue;
    EraseStrip(s.text);
    PiecesConserve(BlankLine, Strip(s.text));
    GlueConserves(Pieces(BlankLine, Strip(s.text)), isCaption);
  }

  lemma BlankSection(s: Section)
    requires Strip(s.text) == ""
    ensures Erase(s.text) == Erase("")
  {
    EraseStrip(s.text);
  }

  lemma SectionCutConserves(
    units: seq<Unit>, s: Section, header: (string, seq<int>) -> int, limit: int, isCaption: string -> bool,
    measure: string -> int)
    requires SectionCut(units, s, header, limit, isCaption, measure)
    ensures AllFitHeaders(units, header, limit, measure)
    ensures EraseAll(Texts(units)) == Erase(s.text)
  {
    hide *;
    SectionCutUnits(units, s, header, limit, isCaption, measure);
    if Strip(s.text) == "" {
      NoUnits(header, limit, measure);
      BlankSection(s);
    } else {
      ParagraphsConserve(s, isCaption);
      SectionUnitsFit(units, header, CleanTitle(s.title), s.pages, limit, measure);
    }
  }

  lemma NoSections(
    units: seq<Unit>, header: (string, seq<int>) -> int, limit: int, isCaption: string -> bool, measure: string -> int)
    requires PaperCut(units, [], header, limit, isCaption, measure)
    ensures units == [] && AllFitHeaders(units, header, limit, measure)
    ensures EraseAll(Texts(units)) == EraseAll(SectionTexts([]))
  {
  }

  lemma AllFitHeadersAppend(
    a: seq<Unit>, b: seq<Unit>, header: (string, seq<int>) -> int, limit: int, measure: string -> int)
    requires AllFitHeaders(a, header, limit, measure) && AllFitHeaders(b, header, limit, measure)
    ensures AllFitHeaders(a + b, header, limit, measure)
  {
    hide FitsHeader;
  }

  lemma SectionTextsNext(sections: seq<Section>)
    requires sections != []
    ensures EraseAll(SectionTexts(sections))
         == EraseAll(SectionTexts(sections[..|sections| - 1])) + Erase(sections[|sections| - 1].text)
  {
    hide Erase;
    var front, last := SectionTexts(sections[..|sections| - 1]), sections[|sections| - 1].text;
    EraseAllAppend(front, [last]);
    EraseAllSingle(last);
  }

  /** The units of a paper leave room for their headers and hold the text of all sections in order. */
  lemma {:induction false} PaperCutConserves(
    units: seq<Unit>, sections: seq<Section>, header: (string, seq<int>) -> int, limit: int, isCaption: string -> bool,
    measure: string -> int)
    requires PaperCut(units, sections, header, limit, isCaption, measure)
    ensures AllFitHeaders(units, header, limit, measure)
    ensures EraseAll(Texts(units)) == EraseAll(SectionTexts(sections))
    decreases |sections|
  {
    hide *;
    if sections == [] {
      NoSections(units, header, limit, isCaption, measure);
    } else {
      var front, last := sections[..|sections| - 1], sections[|sections| - 1];
      var k := PaperCutLast(units, sections, header, limit, isCaption, measure);
      PaperCutConserves(units[..k], front, header, limit, isCaption, measure);
      SectionCutConserves(units[k..], last, header, limit, isCaption, measure);
      assert units == units[..k] + units[k..];
      AllFitHeadersAppend(units[..k], units[k..], header, limit, measure);
      EraseTextsAppend(units[..k], units[k..]);
      SectionTextsNext(sections);
    }
  }

  /** The unit stands under the cleaned title and the pages of the section. */
  predicate UnderSection(u: Unit, s: Section)
  {
    u.section == CleanTitle(s.title) && u.pages == s.pages
  }

  lemma SectionUnitsUnder(
    units: seq<Unit>, s: Section, header: (string, seq<int>) -> int, limit: int, isCaption: string -> bool,
    measure: string -> int, i: nat)
    requires SectionCut(units, s, header, limit, isCaption, measure) && i < |units|
    ensures UnderSection(units[i], s)
  {
    hide *;
    SectionCutUnits(units, s, header, limit, isCaption, measure);
    var room := limit - header(CleanTitle(s.title), s.pages);
    UnitsOkAt(units, CleanTitle(s.title), s.pages, room, measure, i);
    UnderOwnTitle(units[i], s, room, measure);
  }

  lemma UnderOwnTitle(u: Unit, s: Section, limit: int, measure: string -> int)
    requires UnitOk(u, CleanTitle(s.title), s.pages, limit, measure)
    ensures UnderSection(u, s)
  {
  }

  /** Every unit of a paper stands under one of its sections. */
  lemma {:induction false} UnitHasSection(
    units: seq<Unit>, sections: seq<Section>, header: (string, seq<int>) -> int, limit: int, isCaption: string -> bool,
    measure: string -> int, i: nat)
    returns (n: nat)
    requires PaperCut(units, sections, header, limit, isCaption, measure) && i < |units|
    ensures n < |sections| && UnderSection(units[i], sections[n])
    decreases |sections|
  {
    hide *;
    if sections == [] {
      NoSections(units, header, limit, isCaption, measure);
    } else {
      var front, last := sections[..|sections| - 1], sections[|sections| - 1];
      var k := PaperCutLast(units, sections, header, limit, isCaption, measure);
      if i < k {
        n := UnitHasSection(units[..k], front, header, limit, isCaption, measure, i);
      } else {
        SectionUnitsUnder(units[k..], last, header, limit, isCaption, measure, i - k);
        n := |sections| - 1;
      }
    }
  }

  lemma {:induction false} UnitsOkAt(
    units: seq<Unit>, section: string, pages: seq<int>, limit: int, measure: string -> int, i: nat)
    requires UnitsOk(units, section, pages, limit, measure) && i < |units|
    ensures UnitOk(units[i], section, pages, limit, measure)
  {
    if i < |units| - 1 {
      UnitsOkAt(units[..|units| - 1], section, pages, limit, measure, i);
    }
  }

  lemma NothingCut(header: (string, seq<int>) -> int, limit: int, isCaption: string -> bool, measure: string -> int)
    ensures PaperCut([], [], header, limit, isCaption, measure)
  {
  }

  method PaperUnits(parsed: ParsedPaper, header: (string, seq<int>) -> int, limit: int, isCaption: string -> bool, measure: string -> int)
    returns (r: Result<seq<Unit>, ChunkError>)
    ensures r.Ok? ==> PaperCut(r.value, parsed.sections, header, limit, isCaption, measure)
    ensures r.Err? ==> r.error == HeaderTooLong
    ensures r.Err? <==> exists s :: s in parsed.sections && HeaderTooLarge(s, header, limit)
  {
    hide *;
    var units: seq<Unit> := [];
    NothingCut(header, limit, isCaption, measure);
    assert parsed.sections[..0] == [];
    for i := 0 to |parsed.sections|
      invariant PaperCut(units, parsed.sections[..i], header, limit, isCaption, measure)
      invariant forall j :: 0 <= j < i ==> !HeaderTooLarge(parsed.sections[j], header, limit)
    {
      var s := parsed.sections[i];
      if HeaderTooLarge(s, header, limit) {
        return Err(HeaderTooLong);
      }
      var more := SectionUnits(s, header, limit, isCaption, measure);
      PaperCutNext(units, more, parsed.sections[..i], s, header, limit, isCaption, measure);
      assert parsed.sections[..i + 1] == parsed.sections[..i] + [s];
      units := units + more;
    }
    assert parsed.sections[..|parsed.sections|] == parsed.sections;
    return Ok(units);
  }
}
