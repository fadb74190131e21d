/** How large the chunks really are, and when the documented limit holds. */
module ChunkBounds {
  import opened Seqs
  import opened ChunkText
  import opened Packing
  import opened Chunking
  import opened Chunks

  lemma PickAppend(units: seq<Unit>, a: seq<int>, b: seq<int>)
    requires InRange(a, |units|) && InRange(b, |units|)
    ensures InRange(a + b, |units|) && Pick(units, a + b) == Pick(units, a) + Pick(units, b)
  {
  }

  lemma PickTexts(units: seq<Unit>, indices: seq<int>)
    requires InRange(indices, |units|) && AllTexts(units)
    ensures AllTexts(Pick(units, indices))
  {
  }

  lemma FittedTexts(units: seq<Unit>, header: (string, seq<int>) -> int, limit: int, measure: string -> int)
    requires AllFitHeaders(units, header, limit, measure)
    ensures AllTexts(units)
  {
    forall i | 0 <= i < |units| ensures units[i].text != "" {
      assert FitsHeader(units[i], header, limit, measure);
    }
  }

  /** A unit alone may exceed the limit, but by no more than two characters. */
  lemma OneUnitBound(title: string, u: Unit, limit: int, measure: string -> int)
    requires EstimatesTokens(measure) && FitsHeader(u, HeaderTokens(title, measure), limit, measure)
    ensures |Render(title, [u])| <= 4 * limit + 2
  {
    hide Render;
    var tokens := HeaderTokens(title, measure)(u.section, u.pages);
    CutTextFits(u.text, limit - tokens, measure);
    OneUnitLength(title, u);
    WithinTokens(measure, Render(title, [HeaderProbe(u.section, u.pages)]), tokens);
    WithinTokens(measure, u.text, limit - tokens);
  }

  /** A group of two or more units is within the limit; a single unit within two more characters. */
  lemma GroupBound(
    title: string, units: seq<Unit>, grouped: seq<seq<int>>, k: nat, limit: int, measure: string -> int)
    requires EstimatesTokens(measure) && AllFitHeaders(units, HeaderTokens(title, measure), limit, measure)
    requires Grouped(grouped, |units|) && k < |grouped|
    requires IsPacking(grouped, Upto(|units|), GroupFits(title, units, limit, measure))
    ensures |Render(title, Pick(units, grouped[k]))| <= 4 * limit + 2
    ensures |grouped[k]| >= 2 ==> |Render(title, Pick(units, grouped[k]))| <= 4 * limit
  {
    hide Render;
    var group := grouped[k];
    assert GroupFits(title, units, limit, measure)(group);
    if |group| >= 2 {
      WithinTokens(measure, Render(title, Pick(units, group)), limit);
    } else {
      var u := units[group[0]];
      assert FitsHeader(u, HeaderTokens(title, measure), limit, measure);
      OneUnitBound(title, u, limit, measure);
      assert Pick(units, group) == [u];
    }
  }

  lemma OverlapFits(
    title: string, units: seq<Unit>, grouped: seq<seq<int>>, k: nat, overlap: int, limit: int, measure: string -> int)
    requires Grouped(grouped, |units|) && k < |grouped|
    ensures
      var seed := Overlap(title, units, grouped, k, overlap, limit, measure);
      seed != [] ==> measure(Render(title, Pick(units, seed))) <= limit
  {
    hide Render;
  }

  /**
   * The true size bound of a chunk of a paper, in tokens of four characters: L + 1 without
   * overlap (L when it has two or more units) and 2L - 5 with overlap.
   */
  lemma ChunkBound(
    c: PaperChunk, title: string, units: seq<Unit>, grouped: seq<seq<int>>, k: nat,
    overlap: int, limit: int, measure: string -> int)
    requires title != "" && EstimatesTokens(measure)
    requires AllFitHeaders(units, HeaderTokens(title, measure), limit, measure)
    requires Grouped(grouped, |units|) && k < |grouped|
    requires IsPacking(grouped, Upto(|units|), GroupFits(title, units, limit, measure))
    requires ChunkOf(c, title, units, grouped, k, overlap, limit, measure)
    ensures c.overlapUnits == 0 ==> measure(c.text) <= limit + 1
    ensures c.overlapUnits == 0 && |grouped[k]| >= 2 ==> measure(c.text) <= limit
    ensures c.overlapUnits > 0 ==> measure(c.text) <= 2 * limit - 5
  {
    hide Render, GroupFits, AllFitHeaders, AllTexts, Overlap, Dedup, SortedUnique, MinOf, MaxOf, Sections, Pages, Upto, Flatten;
    OverlapFits(title, units, grouped, k, overlap, limit, measure);
    var seed := Overlap(title, units, grouped, k, overlap, limit, measure);
    var a, b := Pick(units, seed), Pick(units, grouped[k]);
    PickAppend(units, seed, grouped[k]);
    GroupBound(title, units, grouped, k, limit, measure);
    if seed == [] {
      assert seed + grouped[k] == grouped[k];
      WithinTokens(measure, c.text, limit + 1);
      WithinTokens(measure, c.text, limit);
    } else {
      FittedTexts(units, HeaderTokens(title, measure), limit, measure);
      PickTexts(units, seed);
      PickTexts(units, grouped[k]);
      RenderTogether(title, a, b);
      WithinTokens(measure, Render(title, a), limit);
      WithinTokens(measure, c.text, 2 * limit - 5);
    }
  }

  /** The bound for everything `build_chunks` returns. */
  lemma EveryChunkBounded(
    chunks: seq<PaperChunk>, parsed: ParsedPaper, units: seq<Unit>, grouped: seq<seq<int>>,
    overlap: int, limit: int, isCaption: string -> bool, measure: string -> int)
    requires EstimatesTokens(measure) && Chunked(chunks, parsed, units, grouped, overlap, limit, isCaption, measure)
    ensures forall k :: 0 <= k < |chunks| ==>
      measure(chunks[k].text) <= if chunks[k].overlapUnits == 0 then limit + 1 else 2 * limit - 5
  {
    forall k | 0 <= k < |chunks|
      ensures measure(chunks[k].text) <= if chunks[k].overlapUnits == 0 then limit + 1 else 2 * limit - 5
    {
      var title := CleanTitle(parsed.title);
      assert ChunkOf(chunks[k], title, units, grouped, k, overlap, limit, measure);
      hide *;
      ChunkBound(chunks[k], title, units, grouped, k, overlap, limit, measure);
    }
  }

  /**
   * Whatever text fits beside its header, the unit alone renders within the limit exactly when the
   * header probe leaves a remainder of 1 or 2 modulo 4; otherwise a text that fills its room exceeds it.
   */
  lemma OneUnitWithinLimitIff(title: string, section: string, pages: seq<int>, limit: int, measure: string -> int)
    requires EstimatesTokens(measure)
    requires HeaderTokens(title, measure)(section, pages) < limit
    ensures
      (forall text: string | text != "" && measure(text) <= limit - HeaderTokens(title, measure)(section, pages) ::
         measure(Render(title, [Unit(section, pages, text, true)])) <= limit)
      <==> |Render(title, [HeaderProbe(section, pages)])| % 4 in {1, 2}
  {
    hide Render;
    var probe := Render(title, [HeaderProbe(section, pages)]);
    var room := limit - HeaderTokens(title, measure)(section, pages);
    Budget.QuarterTokens(probe, limit - room);
    forall text: string | text != "" && measure(text) <= room && |probe| % 4 in {1, 2}
      ensures measure(Render(title, [Unit(section, pages, text, true)])) <= limit
    {
      OneUnitLength(title, Unit(section, pages, text, true));
      WithinTokens(measure, text, room);
      WithinTokens(measure, Render(title, [Unit(section, pages, text, true)]), limit);
    }
    if |probe| % 4 !in {1, 2} {
      var full := seq(4 * room, i => 'x');
      OneUnitLength(title, Unit(section, pages, full, true));
      WithinTokens(measure, full, room);
      WithinTokens(measure, Render(title, [Unit(section, pages, full, true)]), limit);
    }
  }

  lemma ChunkRenders(
    c: PaperChunk, title: string, units: seq<Unit>, grouped: seq<seq<int>>, k: nat, seed: seq<int>,
    overlap: int, limit: int, measure: string -> int)
    requires Grouped(grouped, |units|) && k < |grouped|
    requires ChunkOf(c, title, units, grouped, k, overlap, limit, measure)
    requires seed == Overlap(title, units, grouped, k, overlap, limit, measure)
    ensures InRange(seed + grouped[k], |units|) && c.text == Render(title, Pick(units, seed + grouped[k]))
  {
    hide Render, Overlap, Dedup, SortedUnique, MinOf, MaxOf, Sections, Pages, Upto, Flatten;
  }

  /** An overlap that repeats the whole previous group always exceeds the limit. */
  lemma WholeGroupOverlapExceeds(
    c: PaperChunk, title: string, units: seq<Unit>, grouped: seq<seq<int>>, k: nat,
    overlap: int, limit: int, measure: string -> int)
    requires EstimatesTokens(measure) && AllTexts(units)
    requires Grouped(grouped, |units|) && 0 < k < |grouped|
    requires IsGreedy(grouped, GroupFits(title, units, limit, measure))
    requires ChunkOf(c, title, units, grouped, k, overlap, limit, measure)
    requires Overlap(title, units, grouped, k, overlap, limit, measure) == grouped[k - 1]
    ensures measure(c.text) > limit
  {
    hide *;
    GroupOf(grouped, |units|, k - 1);
    GroupOf(grouped, |units|, k);
    GreedyAt(grouped, k - 1, GroupFits(title, units, limit, measure));
    ChunkRenders(c, title, units, grouped, k, grouped[k - 1], overlap, limit, measure);
    JoinedGroupsExceed(title, units, grouped[k - 1], grouped[k], limit, measure);
  }

  lemma GroupOf(grouped: seq<seq<int>>, n: nat, k: nat)
    requires Grouped(grouped, n) && k < |grouped|
    ensures grouped[k] != [] && InRange(grouped[k], n)
  {
  }

  lemma JoinedGroupsExceed(
    title: string, units: seq<Unit>, previous: seq<int>, group: seq<int>, limit: int, measure: string -> int)
    requires EstimatesTokens(measure) && AllTexts(units)
    requires previous != [] && InRange(previous, |units|) && InRange(group, |units|)
    requires NoRoom(previous, group, GroupFits(title, units, limit, measure))
    ensures InRange(previous + group, |units|)
    ensures measure(Render(title, Pick(units, previous + group))) > limit
  {
    hide Render, AllTexts;
    var joined, rest := previous + [group[0]], group[1..];
    PickAppend(units, joined, rest);
    assert previous + group == joined + rest;
    PickTexts(units, joined);
    PickTexts(units, rest);
    RenderPrefix(title, Pick(units, joined), Pick(units, rest));
    WithinTokens(measure, Render(title, Pick(units, joined)), limit);
    WithinTokens(measure, Render(title, Pick(units, previous + group)), limit);
  }

  /** Under the token estimate every run of units within a fitting run fits. */
  lemma SubgroupFits(title: string, units: seq<Unit>, a: seq<int>, b: seq<int>, c: seq<int>, limit: int, measure: string -> int)
    requires EstimatesTokens(measure) && AllTexts(units) && b != []
    requires InRange(a, |units|) && InRange(b, |units|) && InRange(c, |units|)
    requires GroupFits(title, units, limit, measure)(a + b + c)
    ensures GroupFits(title, units, limit, measure)(b)
  {
    hide Render, AllTexts;
    PickAppend(units, a, b);
    PickAppend(units, a + b, c);
    PickTexts(units, a);
    PickTexts(units, b);
    PickTexts(units, c);
    RenderMonotone(title, Pick(units, a), Pick(units, b), Pick(units, c));
    WithinTokens(measure, Render(title, Pick(units, a + b + c)), limit);
    WithinTokens(measure, Render(title, Pick(units, b)), limit);
  }

  lemma GroupFitsIsHereditary(title: string, units: seq<Unit>, limit: int, measure: string -> int)
    requires EstimatesTokens(measure) && AllTexts(units)
    ensures Hereditary(GroupFits(title, units, limit, measure))
  {
    hide Render, AllTexts, Pick;
    var fits := GroupFits(title, units, limit, measure);
    forall g: seq<int>, lo: nat, hi: nat | lo <= hi <= |g| && fits(g) ensures fits(g[lo..hi]) {
      if hi - lo >= 2 {
        var a, b, c := g[..lo], g[lo..hi], g[hi..];
        assert g == a + b + c;
        assert InRange(g, |units|);
        assert forall k :: 0 <= k < |a| ==> a[k] == g[k];
        assert forall k :: 0 <= k < |b| ==> b[k] == g[lo + k];
        assert forall k :: 0 <= k < |c| ==> c[k] == g[hi + k];
        SubgroupFits(title, units, a, b, c, limit, measure);
      }
    }
  }

  /** The chunker uses as few chunks as any grouping of consecutive units can. */
  lemma FewestChunks(
    title: string, units: seq<Unit>, grouped: seq<seq<int>>, other: seq<seq<int>>, limit: int, measure: string -> int)
    requires EstimatesTokens(measure) && AllTexts(units)
    requires IsPacking(grouped, Upto(|units|), GroupFits(title, units, limit, measure))
    requires IsGreedy(grouped, GroupFits(title, units, limit, measure))
    requires IsPacking(other, Upto(|units|), GroupFits(title, units, limit, measure))
    ensures |grouped| <= |other|
  {
    GroupFitsIsHereditary(title, units, limit, measure);
    GreedyIsOptimal(grouped, other, Upto(|units|), GroupFits(title, units, limit, measure));
  }
}
