/** Validation of an answer's citations against the snapshot and the evidence that was loaded. */
module AnswerCitations {
  import opened Seqs
  import opened Text
  import opened SummaryPath

  type PaperId = string
  type CaseFold = string -> string

  datatype ArtifactKind = Extracted | SummaryFile | OutlineFile

  datatype ArtifactRef = ArtifactRef(id: string, kind: ArtifactKind, sha256: string)

  datatype Section = Section(title: Option<string>, pages: seq<int>, text: string)

  /** The evidence of one paper: its part of the snapshot and what was loaded; an outline is its lines. */
  datatype Evidence = Evidence(
    paper: PaperId,
    artifacts: seq<ArtifactRef>,
    summary: Option<Json>,
    outline: Option<seq<string>>,
    parsed: Option<seq<Section>>)

  datatype Citation = Citation(
    paper: PaperId,
    kind: ArtifactKind,
    artifactId: Option<string>,
    sha256: string,
    summaryPath: Option<string>,
    section: Option<string>,
    pageStart: Option<int>,
    pageEnd: Option<int>,
    excerpt: Option<string>)

  datatype Error = OutsideSnapshot | KindNotInSnapshot | OtherArtifact | OtherHash | BadLocator

  /** `_normalize`. */
  function Normalize(fold: CaseFold, text: string): string
  {
    fold(Strip(Collapse(text)))
  }

  /** `part in text` on strings. */
  predicate Contains(text: string, part: string)
  {
    exists k :: 0 <= k <= |text| && part <= text[k..]
  }

  predicate Alike(a: string, b: string)
  {
    Contains(a, b) || Contains(b, a)
  }

  lemma ContainsIff(text: string, part: string)
    ensures Contains(text, part) <==> exists before: string, behind: string :: text == before + part + behind
  {
    if Contains(text, part) {
      var k :| 0 <= k <= |text| && part <= text[k..];
      assert text == text[..k] + part + text[k + |part|..];
    }
    if before: string, behind: string :| text == before + part + behind {
      assert part <= text[|before|..];
    }
  }

  /** Texts are alike exactly when one is the other with text before and behind it. */
  lemma AlikeIff(a: string, b: string)
    ensures Alike(a, b) <==>
      exists before: string, behind: string :: a == before + b + behind || b == before + a + behind
  {
    ContainsIff(a, b);
    ContainsIff(b, a);
    hide Contains;
    if before: string, behind: string :| a == before + b + behind || b == before + a + behind {
      assert Contains(a, b) || Contains(b, a);
    }
  }

  /** The length and kind of whitespace never matter to a comparison. */
  lemma NormalizeForgetsSpace(fold: CaseFold, a: string, b: string)
    requires GapsAlike(a, b)
    ensures Normalize(fold, a) == Normalize(fold, b)
  {
    CollapsedAlikeIff(a, b);
  }

  /* ----- outline ----- */

  function WithoutHashes(line: string): string
  {
    if line != "" && line[0] == '#' then WithoutHashes(line[1..]) else line
  }

  /** The normalised heading of a line that begins with a hash sign, blanks aside. */
  function Heading(fold: CaseFold, line: string): Option<string>
  {
    if "#" <= LStrip(line) then Some(Normalize(fold, Strip(WithoutHashes(line)))) else None
  }

  /** The heading of hash signs, a blank and a title is the title. */
  lemma {:induction false} HeadingOfTitle(fold: CaseFold, hashes: string, title: string)
    requires hashes != "" && forall k :: 0 <= k < |hashes| ==> hashes[k] == '#'
    requires Trimmed(title)
    ensures Heading(fold, hashes + " " + title) == Some(Normalize(fold, title))
  {
    HashesGo(hashes, " " + title);
    assert hashes + " " + title == hashes + (" " + title);
    assert LStrip(hashes + " " + title) == hashes + " " + title;
    assert (" " + title)[1..] == title;
    StrippedIsFixed(title);
    hide Normalize;
  }

  lemma {:induction false} HashesGo(hashes: string, rest: string)
    requires (forall k :: 0 <= k < |hashes| ==> hashes[k] == '#') && (rest != "" ==> rest[0] != '#')
    ensures WithoutHashes(hashes + rest) == rest
  {
    if hashes == "" {
      assert hashes + rest == rest;
    } else {
      assert (hashes + rest)[1..] == hashes[1..] + rest;
      HashesGo(hashes[1..], rest);
    }
  }

  predicate HeadingMatches(fold: CaseFold, line: string, wanted: string)
  {
    var heading := Heading(fold, line);
    heading.Some? && heading.value != "" && Alike(heading.value, wanted)
  }

  /** `_validate_outline_locator`. */
  method ValidateOutlineLocator(fold: CaseFold, c: Citation, outline: Option<seq<string>>) returns (ok: bool)
    ensures ok <==> OutlineGrounded(fold, c, outline)
  {
    if outline.None? || c.section.None? {
      return false;
    }
    var wanted := Normalize(fold, c.section.value);
    for i := 0 to |outline.value|
      invariant forall j :: 0 <= j < i ==> !HeadingMatches(fold, outline.value[j], wanted)
    {
      if HeadingMatches(fold, outline.value[i], wanted) {
        assert outline.value[i] in outline.value;
        return true;
      }
    }
    return false;
  }

  /** The section named by the citation is like a heading of the outline. */
  predicate OutlineGrounded(fold: CaseFold, c: Citation, outline: Option<seq<string>>)
  {
    && outline.Some? && c.section.Some?
    && exists line <- outline.value :: HeadingMatches(fold, line, Normalize(fold, c.section.value))
  }

  /* ----- raw text ----- */

  predicate TitleMatches(fold: CaseFold, s: Section, wanted: string)
  {
    s.title.Some? && s.title.value != "" && Alike(Normalize(fold, s.title.value), wanted)
  }

  /** The cited pages, if any, meet those of the section. */
  predicate PagesMeet(c: Citation, s: Section)
  {
    c.pageStart.Some? ==>
      exists page <- s.pages :: c.pageStart.value <= page <= (if c.pageEnd.Some? then c.pageEnd.value else c.pageStart.value)
  }

  /** The excerpt, if any, is a contiguous part of the section, up to whitespace and case. */
  predicate ExcerptFound(fold: CaseFold, c: Citation, s: Section)
  {
    c.excerpt.Some? ==> Contains(Normalize(fold, s.text), Normalize(fold, c.excerpt.value))
  }

  /** An excerpt is found exactly when the section's text is the excerpt with text before and behind it. */
  lemma ExcerptFoundIff(fold: CaseFold, c: Citation, s: Section)
    requires c.excerpt.Some?
    ensures ExcerptFound(fold, c, s) <==>
      exists before: string, behind: string ::
        Normalize(fold, s.text) == before + Normalize(fold, c.excerpt.value) + behind
  {
    hide Normalize;
    ContainsIff(Normalize(fold, s.text), Normalize(fold, c.excerpt.value));
  }

  /** A single page has to be one of the section; a range fails when all of these lie before or behind it. */
  lemma PagesMeetIff(c: Citation, s: Section)
    requires c.pageStart.Some?
    ensures c.pageEnd.None? ==> (PagesMeet(c, s) <==> c.pageStart.value in s.pages)
    ensures c.pageEnd.Some? ==>
      (!PagesMeet(c, s) <==> forall page <- s.pages :: page < c.pageStart.value || c.pageEnd.value < page)
  {
  }

  /** The section whose title is matched first is the one that counts. */
  ghost predicate RawGrounded(fold: CaseFold, c: Citation, parsed: Option<seq<Section>>)
  {
    && parsed.Some? && c.section.Some?
    && exists i :: 0 <= i < |parsed.value|
         && TitleMatches(fold, parsed.value[i], Normalize(fold, c.section.value))
         && (forall j :: 0 <= j < i ==> !TitleMatches(fold, parsed.value[j], Normalize(fold, c.section.value)))
         && PagesMeet(c, parsed.value[i])
         && ExcerptFound(fold, c, parsed.value[i])
  }

  /** `_validate_raw_locator`. */
  method ValidateRawLocator(fold: CaseFold, c: Citation, parsed: Option<seq<Section>>) returns (ok: bool)
    ensures ok <==> RawGrounded(fold, c, parsed)
  {
    hide TitleMatches, PagesMeet, ExcerptFound, Normalize;
    if parsed.None? || c.section.None? {
      return false;
    }
    var wanted := Normalize(fold, c.section.value);
    var i := 0;
    while i < |parsed.value| && !TitleMatches(fold, parsed.value[i], wanted)
      invariant 0 <= i <= |parsed.value|
      invariant forall j :: 0 <= j < i ==> !TitleMatches(fold, parsed.value[j], wanted)
    {
      i := i + 1;
    }
    if i == |parsed.value| {
      return false;
    }
    return PagesMeet(c, parsed.value[i]) && ExcerptFound(fold, c, parsed.value[i]);
  }

  /* ----- one citation ----- */

  /** The summary path addresses a node of the summary that lists the cited page. */
  ghost predicate SummaryGrounded(c: Citation, summary: Option<Json>)
  {
    && summary.Some? && c.summaryPath.Some?
    && exists address :: Address(c.summaryPath.value) == Some(address)
         && Walk(summary.value, address).Some?
         && Walk(summary.value, address).value != Null
         && (c.pageStart.Some? ==> HasPage(Walk(summary.value, address).value, c.pageStart.value))
  }

  /** The first artifact of a kind. */
  function FirstOfKind(artifacts: seq<ArtifactRef>, kind: ArtifactKind): (r: Option<ArtifactRef>)
    ensures r.Some? ==> r.value in artifacts && r.value.kind == kind
    ensures r.None? ==> forall artifact <- artifacts :: artifact.kind != kind
  {
    if artifacts == [] then None
    else if artifacts[0].kind == kind then Some(artifacts[0])
    else
      assert artifacts == [artifacts[0]] + artifacts[1..];
      FirstOfKind(artifacts[1..], kind)
  }

  /** An artifact counts when no earlier one is of its kind. */
  lemma {:induction false} FirstArtifactCounts(artifacts: seq<ArtifactRef>, k: nat)
    requires k < |artifacts| && forall j :: 0 <= j < k ==> artifacts[j].kind != artifacts[k].kind
    ensures FirstOfKind(artifacts, artifacts[k].kind) == Some(artifacts[k])
  {
    if k > 0 {
      FirstArtifactCounts(artifacts[1..], k - 1);
    }
  }

  /** What an accepted citation stands for: an artifact of the snapshot, and a place in it that was loaded. */
  ghost predicate Grounded(fold: CaseFold, c: Citation, e: Evidence)
  {
    && c.paper == e.paper
    && (exists artifact :: FirstOfKind(e.artifacts, c.kind) == Some(artifact)
          && c.artifactId == Some(artifact.id) && c.sha256 == artifact.sha256)
    && match c.kind
       case SummaryFile => SummaryGrounded(c, e.summary)
       case OutlineFile => OutlineGrounded(fold, c, e.outline)
       case Extracted => RawGrounded(fold, c, e.parsed)
  }

  /** `_validate_citation`; None when the citation is accepted. */
  method ValidateCitation(fold: CaseFold, c: Citation, e: Evidence) returns (error: Option<Error>)
    ensures error.None? <==> Grounded(fold, c, e)
    ensures error == Some(OutsideSnapshot) <==> c.paper != e.paper
  {
    hide OutlineGrounded, RawGrounded;
    if c.paper != e.paper {
      return Some(OutsideSnapshot);
    }
    var artifact := FirstOfKind(e.artifacts, c.kind);
    if artifact.None? {
      return Some(KindNotInSnapshot);
    }
    if c.artifactId != Some(artifact.value.id) {
      return Some(OtherArtifact);
    }
    if c.sha256 != artifact.value.sha256 {
      return Some(OtherHash);
    }
    var ok: bool;
    match c.kind {
      case SummaryFile =>
        var found := ValidateSummaryLocator(e.summary, c.summaryPath, c.pageStart);
        ok := found.None?;
      case OutlineFile => ok := ValidateOutlineLocator(fold, c, e.outline);
      case Extracted => ok := ValidateRawLocator(fold, c, e.parsed);
    }
    return if ok then None else Some(BadLocator);
  }

  /* ----- the citations of an answer ----- */

  /** `{paper.snapshot.paper_id: paper for paper in index.papers}`: the last one of a paper counts. */
  function ByPaper(papers: seq<Evidence>): (r: map<PaperId, Evidence>)
    ensures forall id <- r.Keys :: r[id].paper == id && r[id] in papers
    ensures forall e <- papers :: e.paper in r
  {
    if papers == [] then map[]
    else
      var last := papers[|papers| - 1];
      assert papers == papers[..|papers| - 1] + [last];
      ByPaper(papers[..|papers| - 1])[last.paper := last]
  }

  /** Of several entries for a paper the last one counts. */
  lemma {:induction false} LastEntryCounts(papers: seq<Evidence>, k: nat)
    requires k < |papers| && forall j :: k < j < |papers| ==> papers[j].paper != papers[k].paper
    ensures papers[k].paper in ByPaper(papers) && ByPaper(papers)[papers[k].paper] == papers[k]
  {
    if k < |papers| - 1 {
      LastEntryCounts(papers[..|papers| - 1], k);
    }
  }

  ghost predicate GroundedIn(fold: CaseFold, c: Citation, papers: seq<Evidence>)
  {
    c.paper in ByPaper(papers) && Grounded(fold, c, ByPaper(papers)[c.paper])
  }

  /** `validate_answer_citations` over several papers: accepted iff every citation is grounded. */
  method ValidateAnswerCitations(fold: CaseFold, citations: seq<Citation>, papers: seq<Evidence>)
    returns (error: Option<Error>)
    ensures error.None? <==> forall c <- citations :: GroundedIn(fold, c, papers)
    ensures error == Some(OutsideSnapshot) ==> exists c <- citations :: forall e <- papers :: e.paper != c.paper
  {
    hide Grounded, ByPaper;
    var byPaper := ByPaper(papers);
    for i := 0 to |citations|
      invariant forall j :: 0 <= j < i ==> GroundedIn(fold, citations[j], papers)
    {
      var c := citations[i];
      assert c in citations;
      if c.paper !in byPaper {
        return Some(OutsideSnapshot);
      }
      error := ValidateCitation(fold, c, byPaper[c.paper]);
      if error.Some? {
        return;
      }
    }
    return None;
  }

  /** The same over the evidence of a single paper. */
  method ValidateAgainstOne(fold: CaseFold, citations: seq<Citation>, e: Evidence) returns (error: Option<Error>)
    ensures error.None? <==> forall c <- citations :: Grounded(fold, c, e)
  {
    hide Grounded;
    for i := 0 to |citations|
      invariant forall j :: 0 <= j < i ==> Grounded(fold, citations[j], e)
    {
      error := ValidateCitation(fold, citations[i], e);
      if error.Some? {
        assert citations[i] in citations;
        return;
      }
    }
    return None;
  }

  /** A single paper's evidence accepts the same citations alone and as a list of one. */
  lemma OneOrListOfOne(fold: CaseFold, c: Citation, e: Evidence)
    ensures GroundedIn(fold, c, [e]) <==> Grounded(fold, c, e)
  {
    assert [e][..0] == [];
    assert ByPaper([e]) == map[e.paper := e];
  }

  /** When a single section matches, that section decides, wherever it stands. */
  lemma OnlyMatchDecides(fold: CaseFold, c: Citation, sections: seq<Section>, i: nat)
    requires i < |sections| && c.section.Some?
    requires forall j :: 0 <= j < |sections| ==>
      (TitleMatches(fold, sections[j], Normalize(fold, c.section.value)) <==> j == i)
    ensures RawGrounded(fold, c, Some(sections)) <==> PagesMeet(c, sections[i]) && ExcerptFound(fold, c, sections[i])
  {
    hide TitleMatches, PagesMeet, ExcerptFound, Normalize;
  }
}
