/** Grouping of units into chunks, and the overlap between neighbouring chunks. */
module Chunks {
  import opened Seqs
  import opened Text
  import opened ChunkText
  import opened Packing
  import opened Chunking

  /** The numbers 0, 1, ..., n-1. */
  function Upto(n: nat): (r: seq<int>)
    ensures |r| == n && forall i :: 0 <= i < n ==> r[i] == i
  {
    seq(n, i => i)
  }

  predicate InRange(indices: seq<int>, n: nat)
  {
    forall k :: 0 <= k < |indices| ==> 0 <= indices[k] < n
  }

  function Pick(units: seq<Unit>, indices: seq<int>): (r: seq<Unit>)
    requires InRange(indices, |units|)
    ensures |r| == |indices| && forall k :: 0 <= k < |r| ==> r[k] == units[indices[k]]
  {
    seq(|indices|, k requires 0 <= k < |indices| => units[indices[k]])
  }

  /** The grouping rule: one unit always forms a group, more must render within the limit. */
  function GroupFits(title: string, units: seq<Unit>, limit: int, measure: string -> int): seq<int> -> bool
  {
    (group: seq<int>) =>
      |group| <= 1 || (InRange(group, |units|) && measure(Render(title, Pick(units, group))) <= limit)
  }

  /** `build_chunks`' grouping loop: greedy contiguous groups. */
  method GroupUnits(title: string, units: seq<Unit>, limit: int, measure: string -> int)
    returns (grouped: seq<seq<int>>)
    ensures IsPacking(grouped, Upto(|units|), GroupFits(title, units, limit, measure))
    ensures IsGreedy(grouped, GroupFits(title, units, limit, measure))
  {
    hide Render, Pick;
    ghost var fits := GroupFits(title, units, limit, measure);
    grouped := [];
    var current: seq<int> := [];
    for index := 0 to |units|
      invariant Packed(grouped, current, Upto(index), fits)
    {
      var candidate := current + [index];
      assert Upto(index + 1) == Upto(index) + [index];
      InUpto(grouped, current, index, fits);
      assert InRange(candidate, |units|);
      if current != [] && measure(Render(title, Pick(units, candidate))) > limit {
        OpenBatch(grouped, current, Upto(index), fits, index);
        grouped, current := grouped + [current], [index];
      } else {
        ExtendBatch(grouped, current, Upto(index), fits, index);
        current := candidate;
      }
    }
    FinishPacking(grouped, current, Upto(|units|), fits);
    if current != [] {
      grouped := grouped + [current];
    }
  }

  lemma InUpto(grouped: seq<seq<int>>, current: seq<int>, n: nat, fits: seq<int> -> bool)
    requires Packed(grouped, current, Upto(n), fits)
    ensures InRange(current, n)
  {
    var k := |Flatten(grouped)|;
    forall j | 0 <= j < |current| ensures 0 <= current[j] < n {
      assert (Flatten(grouped) + current)[k + j] == current[j];
    }
  }

  /* ----- overlap ----- */

  /** Python's `s[start:]`, where a negative start counts from the end. */
  function SliceFrom(s: seq<int>, start: int): (r: seq<int>)
  {
    if start >= |s| then []
    else if start >= 0 then s[start..]
    else if -start >= |s| then s
    else s[|s| + start..]
  }

  function ParagraphIndices(units: seq<Unit>, group: seq<int>): (r: seq<int>)
    requires InRange(group, |units|)
    ensures forall i :: i in r ==> i in group
  {
    if group == [] then []
    else
      var front, last := group[..|group| - 1], group[|group| - 1];
      assert group == front + [last];
      ParagraphIndices(units, front) + (if units[last].isParagraph then [last] else [])
  }

  /** The last paragraphs of the previous group, as the source slices them. */
  function Seed(units: seq<Unit>, previous: seq<int>, overlap: int): (r: seq<int>)
    requires InRange(previous, |units|)
    ensures InRange(r, |units|)
  {
    var paragraphs := ParagraphIndices(units, previous);
    assert forall k :: 0 <= k < |paragraphs| ==> paragraphs[k] in paragraphs;
    SliceFrom(paragraphs, |paragraphs| - overlap)
  }

  /** As many paragraphs as wanted or available are repeated, except when the slice start goes negative part of the way. */
  lemma SeedTakesWhatIsWantedIff(paragraphs: seq<int>, overlap: int)
    requires overlap > 0
    ensures |SliceFrom(paragraphs, |paragraphs| - overlap)| == Min(|paragraphs|, overlap)
      <==> overlap <= |paragraphs| || overlap >= 2 * |paragraphs|
    ensures |paragraphs| < overlap < 2 * |paragraphs| ==>
      |SliceFrom(paragraphs, |paragraphs| - overlap)| == overlap - |paragraphs|
  {
  }

  /** The overlap of chunk k: the seed, if there is one and it renders within the limit by itself. */
  function Overlap(
    title: string, units: seq<Unit>, grouped: seq<seq<int>>, k: nat, overlap: int, limit: int, measure: string -> int)
    : (r: seq<int>)
    requires k < |grouped| && forall g :: 0 <= g < |grouped| ==> InRange(grouped[g], |units|)
    ensures InRange(r, |units|)
  {
    if k == 0 || overlap <= 0 then []
    else
      var seed := Seed(units, grouped[k - 1], overlap);
      if seed != [] && measure(Render(title, Pick(units, seed))) <= limit then seed else []
  }

  /* ----- chunks ----- */

  function MinOf(s: seq<int>): (m: int)
    requires s != []
    ensures m in s && forall x :: x in s ==> m <= x
  {
    if |s| == 1 then s[0]
    else
      assert s == [s[0]] + s[1..];
      var m := MinOf(s[1..]);
      if s[0] < m then s[0] else m
  }

  function MaxOf(s: seq<int>): (m: int)
    requires s != []
    ensures m in s && forall x :: x in s ==> x <= m
  {
    if |s| == 1 then s[0]
    else
      assert s == [s[0]] + s[1..];
      var m := MaxOf(s[1..]);
      if s[0] > m then s[0] else m
  }

  /** Chunk number `number` over the given unit indices, the first `overlap` of them repeated. */
  function MakeChunk(title: string, units: seq<Unit>, indices: seq<int>, overlap: nat, number: nat): (c: PaperChunk)
    requires indices != [] && InRange(indices, |units|)
  {
    var chosen := Pick(units, indices);
    assert forall i :: i in indices ==> 0 <= i;
    PaperChunk(
      number, Dedup(Sections(chosen)), SortedUnique(Pages(chosen)), Render(title, chosen),
      MinOf(indices), MaxOf(indices), overlap)
  }

  ghost predicate Grouped(grouped: seq<seq<int>>, n: nat)
  {
    && Flatten(grouped) == Upto(n)
    && forall g :: 0 <= g < |grouped| ==> grouped[g] != [] && InRange(grouped[g], n)
  }

  lemma PackedGroups(grouped: seq<seq<int>>, n: nat, fits: seq<int> -> bool)
    requires IsPacking(grouped, Upto(n), fits)
    ensures Grouped(grouped, n)
  {
    forall g | 0 <= g < |grouped| ensures InRange(grouped[g], n) {
      GroupIsRange(grouped, n, g);
    }
  }

  /** Group g holds consecutive unit numbers starting at its cover mark. */
  lemma GroupIsRange(grouped: seq<seq<int>>, n: nat, g: nat)
    requires Flatten(grouped) == Upto(n) && g < |grouped|
    ensures Covered(grouped, g) + |grouped[g]| <= n
    ensures forall j :: 0 <= j < |grouped[g]| ==> grouped[g][j] == Covered(grouped, g) + j
  {
    BatchIsSlice(grouped, g);
  }

  /** Chunk k renders its overlap followed by exactly the units of group k. */
  ghost predicate ChunkOf(
    c: PaperChunk, title: string, units: seq<Unit>, grouped: seq<seq<int>>, k: nat,
    overlap: int, limit: int, measure: string -> int)
    requires k < |grouped| && Grouped(grouped, |units|)
  {
    var seed := Overlap(title, units, grouped, k, overlap, limit, measure);
    c == MakeChunk(title, units, seed + grouped[k], |seed|, k + 1)
  }

  ghost predicate ChunksOf(
    chunks: seq<PaperChunk>, title: string, units: seq<Unit>, grouped: seq<seq<int>>,
    overlap: int, limit: int, measure: string -> int)
    requires Grouped(grouped, |units|)
  {
    && |chunks| == |grouped|
    && forall k :: 0 <= k < |chunks| ==> ChunkOf(chunks[k], title, units, grouped, k, overlap, limit, measure)
  }

  /**
   * The chunks come from these units and groups: the units are cut from the sections in order,
   * each under the title and pages of its section, without losing or inventing text, and each
   * leaves room for its header; the groups are the unit numbers 0, 1, 2, ... cut greedily into
   * consecutive runs; chunk k is its overlap followed by group k.
   */
  ghost predicate Chunked(
    chunks: seq<PaperChunk>, parsed: ParsedPaper, units: seq<Unit>, grouped: seq<seq<int>>,
    overlap: int, limit: int, isCaption: string -> bool, measure: string -> int)
  {
    var title := CleanTitle(parsed.title);
    && PaperCut(units, parsed.sections, HeaderTokens(title, measure), limit, isCaption, measure)
    && AllFitHeaders(units, HeaderTokens(title, measure), limit, measure)
    && EraseAll(Texts(units)) == EraseAll(SectionTexts(parsed.sections))
    && Grouped(grouped, |units|)
    && IsGreedy(grouped, GroupFits(title, units, limit, measure))
    && IsPacking(grouped, Upto(|units|), GroupFits(title, units, limit, measure))
    && ChunksOf(chunks, title, units, grouped, overlap, limit, measure)
  }

  method BuildChunks(
    parsed: ParsedPaper, maxInputTokens: int, promptOverheadTokens: int, overlapParagraphs: int,
    isCaption: string -> bool, measure: string -> int)
    returns (r: Result<seq<PaperChunk>, ChunkError>)
    ensures
      var limit := maxInputTokens - promptOverheadTokens;
      var header := HeaderTokens(CleanTitle(parsed.title), measure);
      && (r == Err(NoBudget) <==> limit <= 0)
      && (r == Err(HeaderTooLong) <==>
            limit > 0 && exists s :: s in parsed.sections && HeaderTooLarge(s, header, limit))
      && (r.Ok? ==> exists units, grouped ::
              Chunked(r.value, parsed, units, grouped, overlapParagraphs, limit, isCaption, measure))
  {
    hide Render, PaperCut, HeaderTooLarge, Texts, EraseAll, SectionTexts, AllFitHeaders, IsGreedy, Overlap, MakeChunk;
    var limit := maxInputTokens - promptOverheadTokens;
    if limit <= 0 {
      return Err(NoBudget);
    }
    var title := CleanTitle(parsed.title);
    var cut := PaperUnits(parsed, HeaderTokens(title, measure), limit, isCaption, measure);
    if cut.Err? {
      return Err(cut.error);
    }
    var units := cut.value;
    PaperCutConserves(units, parsed.sections, HeaderTokens(title, measure), limit, isCaption, measure);
    var grouped := GroupUnits(title, units, limit, measure);
    PackedGroups(grouped, |units|, GroupFits(title, units, limit, measure));
    var chunks: seq<PaperChunk> := [];
    for position := 0 to |grouped|
      invariant |chunks| == position
      invariant forall k :: 0 <= k < position ==>
        ChunkOf(chunks[k], title, units, grouped, k, overlapParagraphs, limit, measure)
    {
      var seed := Overlap(title, units, grouped, position, overlapParagraphs, limit, measure);
      var indices := seed + grouped[position];
      chunks := chunks + [MakeChunk(title, units, indices, |seed|, |chunks| + 1)];
    }
    assert Chunked(chunks, parsed, units, grouped, overlapParagraphs, limit, isCaption, measure);
    return Ok(chunks);
  }

  /* ----- what a chunk holds ----- */

  lemma {:induction false} BodiesConserve(units: seq<Unit>)
    ensures EraseAll(Bodies(units)) == EraseAll(Texts(units))
  {
    hide Erase;
    if units != [] {
      var front, last := units[..|units| - 1], units[|units| - 1].text;
      BodiesConserve(front);
      EraseAllAppend(Texts(front), [last]);
      EraseAllAppend(Bodies(front), if last == "" then [] else [last]);
      EraseAllSingle(last);
      EraseEmpty();
    }
  }

  lemma {:induction false} EraseJoined(sep: string, parts: seq<string>)
    requires AllSpace(sep, 0, |sep|)
    ensures Erase(Join(sep, parts)) == EraseAll(parts)
  {
    hide Erase;
    if parts == [] {
      EraseEmpty();
    } else if |parts| == 1 {
      EraseAllSingle(parts[0]);
      assert parts == [parts[0]];
    } else {
      EraseJoined(sep, parts[..|parts| - 1]);
      EraseJoin(Join(sep, parts[..|parts| - 1]), sep, parts[|parts| - 1]);
    }
  }

  /** A rendering holds its header and the texts of its units, in their order, and nothing else. */
  lemma RenderConserves(title: string, units: seq<Unit>)
    ensures Erase(Render(title, units)) == Erase(Header(title, units)) + EraseAll(Texts(units))
  {
    hide Erase, EraseAll, Texts, Bodies, Header;
    var header, body := Header(title, units), Join("\n\n", Bodies(units));
    BodiesConserve(units);
    EraseJoined("\n\n", Bodies(units));
    EraseEmpty();
    EraseSpaces("\n");
    EraseJoin(header, "\n\n", body);
    EraseAppend(header + "\n\n" + body, "\n");
    EraseAppend(header, "\n");
    assert Erase(header) + "" == Erase(header);
  }

  ghost predicate Ascending(s: seq<int>)
  {
    forall i, j :: 0 <= i < j < |s| ==> s[i] < s[j]
  }

  lemma {:induction false} ParagraphsOfGroup(units: seq<Unit>, group: seq<int>)
    requires InRange(group, |units|) && Ascending(group)
    ensures Ascending(ParagraphIndices(units, group))
    ensures forall i :: i in ParagraphIndices(units, group) <==> i in group && units[i].isParagraph
  {
    if group != [] {
      var front, last := group[..|group| - 1], group[|group| - 1];
      ParagraphsOfGroup(units, front);
      assert group == front + [last];
      var rest := ParagraphIndices(units, front);
      forall m | 0 <= m < |rest| ensures rest[m] < last {
        assert rest[m] in front;
        var i :| 0 <= i < |front| && front[i] == rest[m];
        assert group[i] == rest[m];
      }
    }
  }

  lemma SliceIsSuffix(s: seq<int>, start: int) returns (j: nat)
    ensures j <= |s| && SliceFrom(s, start) == s[j..]
  {
    j := if start >= |s| then |s| else if start >= 0 then start else if -start >= |s| then 0 else |s| + start;
  }

  /** The indices are of paragraphs of the group: those from the first of them on. */
  ghost predicate LastParagraphs(units: seq<Unit>, group: seq<int>, seed: seq<int>)
    requires InRange(group, |units|)
  {
    && Ascending(seed)
    && (forall i :: i in seed ==> i in group && units[i].isParagraph)
    && (seed != [] ==> forall i <- group :: units[i].isParagraph && seed[0] <= i ==> i in seed)
  }

  lemma SeedIsLastParagraphs(units: seq<Unit>, group: seq<int>, overlap: int)
    requires InRange(group, |units|) && Ascending(group)
    ensures LastParagraphs(units, group, Seed(units, group, overlap))
  {
    var paragraphs := ParagraphIndices(units, group);
    ParagraphsOfGroup(units, group);
    var j := SliceIsSuffix(paragraphs, |paragraphs| - overlap);
    SuffixOfAscending(paragraphs, j);
    hide ParagraphIndices, SliceFrom, Ascending;
  }

  /** The overlap are the last paragraphs of the previous group. */
  lemma OverlapIsLastParagraphs(
    title: string, units: seq<Unit>, grouped: seq<seq<int>>, k: nat, overlap: int, limit: int, measure: string -> int)
    requires Grouped(grouped, |units|) && 0 < k < |grouped|
    ensures LastParagraphs(units, grouped[k - 1], Overlap(title, units, grouped, k, overlap, limit, measure))
  {
    GroupIsRange(grouped, |units|, k - 1);
    SeedIsLastParagraphs(units, grouped[k - 1], overlap);
    hide Seed, Render, Pick, Flatten;
  }

  lemma SuffixOfAscending(s: seq<int>, j: nat)
    requires Ascending(s) && j <= |s|
    ensures Ascending(s[j..]) && forall x :: x in s[j..] ==> x in s
    ensures j < |s| ==> forall x :: x in s && s[j] <= x ==> x in s[j..]
  {
    forall x | j < |s| && x in s && s[j] <= x ensures x in s[j..] {
      var i :| 0 <= i < |s| && s[i] == x;
      assert s[j..][i - j] == x;
    }
  }

  lemma {:induction false} SectionsMembers(units: seq<Unit>, section: string)
    ensures section in Sections(units) <==> exists u <- units :: u.section == section
  {
    if units != [] {
      SectionsMembers(units[..|units| - 1], section);
      assert units == units[..|units| - 1] + [units[|units| - 1]];
    }
  }

  lemma {:induction false} PagesMembers(units: seq<Unit>, page: int)
    ensures page in Pages(units) <==> exists u <- units :: page in u.pages
  {
    if units != [] {
      PagesMembers(units[..|units| - 1], page);
      assert units == units[..|units| - 1] + [units[|units| - 1]];
    }
  }

  lemma TogetherRendered(title: string, a: seq<Unit>, b: seq<Unit>)
    ensures Erase(Render(title, a + b)) == Erase(Header(title, a + b)) + (EraseAll(Texts(a)) + EraseAll(Texts(b)))
  {
    hide Erase, EraseAll, Texts, Render, Header;
    RenderConserves(title, a + b);
    TextsAppend(a, b);
    EraseAllAppend(Texts(a), Texts(b));
  }

  /** The list names the sections of the units, each once. */
  ghost predicate NamesSections(titles: seq<string>, units: seq<Unit>)
  {
    Distinct(titles) && forall t :: t in titles <==> exists u <- units :: u.section == t
  }

  /** The list gives the pages of the units, each once and ascending. */
  ghost predicate GivesPages(pages: seq<int>, units: seq<Unit>)
  {
    StrictlyIncreasing(pages) && forall p :: p in pages <==> exists u <- units :: p in u.pages
  }

  lemma ListsOfUnits(units: seq<Unit>)
    ensures NamesSections(Dedup(Sections(units)), units)
    ensures GivesPages(SortedUnique(Pages(units)), units)
  {
    hide Sections, Pages, StrictlyIncreasing, Distinct;
    DedupDistinct(Sections(units));
    SortedUniqueProperties(Pages(units));
    forall t ensures t in Dedup(Sections(units)) <==> exists u <- units :: u.section == t {
      SectionsMembers(units, t);
    }
    forall p ensures p in SortedUnique(Pages(units)) <==> exists u <- units :: p in u.pages {
      PagesMembers(units, p);
    }
  }

  /**
   * Chunk k is numbered k+1, holds under its header the texts of its overlap and then those of
   * group k, and lists the sections and pages of these units, each once, the pages ascending.
   */
  lemma ChunkContents(
    c: PaperChunk, title: string, units: seq<Unit>, grouped: seq<seq<int>>, k: nat,
    overlap: int, limit: int, measure: string -> int)
    requires k < |grouped| && Grouped(grouped, |units|) && ChunkOf(c, title, units, grouped, k, overlap, limit, measure)
    ensures
      var seed := Overlap(title, units, grouped, k, overlap, limit, measure);
      var chosen := Pick(units, seed) + Pick(units, grouped[k]);
      && c.index == k + 1 && c.overlapUnits == |seed|
      && c.firstUnit in seed + grouped[k] && c.lastUnit in seed + grouped[k]
      && (forall i <- seed + grouped[k] :: c.firstUnit <= i <= c.lastUnit)
      && Erase(c.text) ==
           Erase(Header(title, chosen)) + (EraseAll(Texts(Pick(units, seed))) + EraseAll(Texts(Pick(units, grouped[k]))))
      && NamesSections(c.sectionTitles, chosen) && GivesPages(c.pages, chosen)
  {
    var seed := Overlap(title, units, grouped, k, overlap, limit, measure);
    var chosen := Pick(units, seed) + Pick(units, grouped[k]);
    ChunkFields(title, units, seed + grouped[k], |seed|, k + 1);
    PickBoth(units, seed, grouped[k]);
    hide Erase, EraseAll, Texts, Render, Header, Overlap, Pick, NamesSections, GivesPages, Sections, Pages, MakeChunk;
    TogetherRendered(title, Pick(units, seed), Pick(units, grouped[k]));
    ListsOfUnits(chosen);
  }

  lemma PickBoth(units: seq<Unit>, a: seq<int>, b: seq<int>)
    requires InRange(a, |units|) && InRange(b, |units|)
    ensures InRange(a + b, |units|) && Pick(units, a + b) == Pick(units, a) + Pick(units, b)
  {
  }

  lemma ChunkFields(title: string, units: seq<Unit>, indices: seq<int>, overlap: nat, number: nat)
    requires indices != [] && InRange(indices, |units|)
    ensures
      var c, chosen := MakeChunk(title, units, indices, overlap, number), Pick(units, indices);
      && c.index == number && c.overlapUnits == overlap && c.text == Render(title, chosen)
      && c.sectionTitles == Dedup(Sections(chosen)) && c.pages == SortedUnique(Pages(chosen))
      && c.firstUnit in indices && c.lastUnit in indices
      && (forall i <- indices :: c.firstUnit <= i <= c.lastUnit)
  {
    hide Pick;
  }
}
