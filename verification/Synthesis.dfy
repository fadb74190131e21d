/**
 * Collection synthesis: direct generation when one prompt fits, otherwise a map
 * step over packed sources and a reduce loop over the mapped syntheses.
 * Every model reply is arbitrary; only what the validators accept is kept.
 */
module Synthesis {
  import opened Seqs
  import opened Packing
  import Budget

  type PaperId = string
  type CitationId = string

  datatype Failure = ContextPlan | ProviderCall | AnswerValidation

  datatype Coverage = Coverage(included: seq<PaperId>, missing: seq<PaperId>, partial: bool)

  /** The coverage model's own validator. */
  ghost predicate ConsistentCoverage(c: Coverage)
  {
    && c.included != []
    && Distinct(c.included)
    && Distinct(c.missing)
    && (forall id :: id in c.included ==> id !in c.missing)
    && c.partial == (c.missing != [])
  }

  datatype Source = Source(paperId: PaperId, json: string)

  datatype Citation = Citation(id: CitationId, paperId: PaperId, locator: string)

  /** A cell of the comparison matrix, with the paper of its row. */
  datatype Cell = Cell(rowPaper: PaperId, citationIds: seq<CitationId>)

  /** `mentioned` lists the papers named by themes, matrix rows, insights and questions. */
  datatype Document = Document(
    roles: seq<PaperId>,
    citations: seq<Citation>,
    mentioned: seq<PaperId>,
    cells: seq<Cell>,
    prose: string,
    coverage: Coverage)

  /**
   * What the service is configured with: prompt texts, the input limits of the three
   * purposes, how a document is printed as JSON, and which citations resolve in the
   * loaded summaries.
   */
  datatype Settings = Settings(
    instructions: string,
    schema: string,
    directLimit: int,
    mapLimit: int,
    reduceLimit: int,
    render: Document -> string,
    resolves: Citation -> bool)

  /* ----- prompts ----- */

  function JsonList(docs: seq<string>): string
  {
    "[" + Join(",", docs) + "]"
  }

  function Prompt(st: Settings, operation: string, docs: seq<string>): string
  {
    st.instructions + "\nOPERATION: " + operation + "\nSCHEMA:\n" + st.schema + "\nSOURCES:\n" + JsonList(docs)
  }

  predicate Fits(st: Settings, operation: string, limit: int, docs: seq<string>)
  {
    Budget.EstimateTokens(Prompt(st, operation, docs), Budget.CHARS_PER_TOKEN) <= limit
  }

  function SourceTexts(sources: seq<Source>): (r: seq<string>)
    ensures |r| == |sources|
  {
    seq(|sources|, i requires 0 <= i < |sources| => sources[i].json)
  }

  function DocumentTexts(st: Settings, docs: seq<Document>): (r: seq<string>)
    ensures |r| == |docs|
  {
    seq(|docs|, i requires 0 <= i < |docs| => st.render(docs[i]))
  }

  function SourcesFit(st: Settings): seq<Source> -> bool
  {
    (sources: seq<Source>) => Fits(st, "MAP SYNTHESIS", st.mapLimit, SourceTexts(sources))
  }

  function DocumentsFit(st: Settings): seq<Document> -> bool
  {
    (docs: seq<Document>) => Fits(st, "REDUCE SYNTHESIS", st.reduceLimit, DocumentTexts(st, docs))
  }

  /** The length of the documents with a separator each. */
  function ListLength(docs: seq<string>): nat
  {
    if docs == [] then 0 else ListLength(docs[..|docs| - 1]) + |docs[|docs| - 1]| + 1
  }

  lemma {:induction false} JoinedLength(sep: string, docs: seq<string>)
    requires docs != [] && |sep| == 1
    ensures |Join(sep, docs)| + 1 == ListLength(docs)
  {
    if |docs| > 1 {
      JoinedLength(sep, docs[..|docs| - 1]);
    } else {
      assert docs[..0] == [];
    }
  }

  /** Documents fit exactly when instructions, operation, schema and all documents stay within four characters a token. */
  lemma FitsIff(st: Settings, operation: string, limit: int, docs: seq<string>)
    requires docs != []
    ensures Fits(st, operation, limit, docs) <==>
      |st.instructions| + |operation| + |st.schema| + ListLength(docs) + 32 <= 4 * limit
  {
    JoinedLength(",", docs);
    Budget.QuarterTokens(Prompt(st, operation, docs), limit);
    assert |"\nOPERATION: "| == 12 && |"\nSCHEMA:\n"| == 9 && |"\nSOURCES:\n"| == 10;
  }

  /** Dropping documents at either end never makes a prompt longer. */
  lemma FitsSublist(st: Settings, operation: string, limit: int, docs: seq<string>, lo: nat, hi: nat)
    requires lo <= hi <= |docs| && Fits(st, operation, limit, docs)
    ensures Fits(st, operation, limit, docs[lo..hi])
  {
    JoinSublist(",", docs, lo, hi);
    Budget.QuarterTokens(Prompt(st, operation, docs), limit);
    Budget.QuarterTokens(Prompt(st, operation, docs[lo..hi]), limit);
  }

  /** So the packer's optimality applies to both of its uses. */
  lemma SourcesFitIsHereditary(st: Settings)
    ensures Hereditary(SourcesFit(st))
  {
    forall docs: seq<Source>, lo: nat, hi: nat | lo <= hi <= |docs| && SourcesFit(st)(docs)
      ensures SourcesFit(st)(docs[lo..hi])
    {
      FitsSublist(st, "MAP SYNTHESIS", st.mapLimit, SourceTexts(docs), lo, hi);
      assert SourceTexts(docs)[lo..hi] == SourceTexts(docs[lo..hi]);
    }
  }

  lemma DocumentsFitIsHereditary(st: Settings)
    ensures Hereditary(DocumentsFit(st))
  {
    forall docs: seq<Document>, lo: nat, hi: nat | lo <= hi <= |docs| && DocumentsFit(st)(docs)
      ensures DocumentsFit(st)(docs[lo..hi])
    {
      FitsSublist(st, "REDUCE SYNTHESIS", st.reduceLimit, DocumentTexts(st, docs), lo, hi);
      assert DocumentTexts(st, docs)[lo..hi] == DocumentTexts(st, docs[lo..hi]);
    }
  }

  method PackSources(st: Settings, sources: seq<Source>) returns (r: Result<seq<seq<Source>>, PackError>)
    ensures r.Ok? ==>
      && IsPacking(r.value, sources, SourcesFit(st)) && FewestBatches(r.value, sources, SourcesFit(st))
      && |r.value| <= |sources|
    ensures r.Err? <==> exists k :: 0 <= k < |sources| && !SourcesFit(st)([sources[k]])
  {
    SourcesFitIsHereditary(st);
    r := Pack(sources, SourcesFit(st));
    if r.Ok? {
      PackedSinglesFit(r.value, sources, SourcesFit(st));
      GreedyHasFewest(r.value, sources, SourcesFit(st));
      BatchCount(r.value);
    }
  }

  /** A batch of two or more documents shows two neighbours that fit together. */
  lemma {:induction false} LongBatchHasPair<D(!new)>(batches: seq<seq<D>>, docs: seq<D>, fits: seq<D> -> bool)
    requires Hereditary(fits) && IsPacking(batches, docs, fits) && !AllSingletons(batches)
    ensures exists k :: 0 <= k < |docs| - 1 && fits([docs[k], docs[k + 1]])
  {
    var i :| 0 <= i < |batches| && |batches[i]| != 1;
    BatchIsSlice(batches, i);
    var k := Covered(batches, i);
    assert batches[i][0..2] == [docs[k], docs[k + 1]];
  }

  /** The groups of one reduce round: fewer than there are documents, or the round is refused. */
  method PackDocuments(st: Settings, docs: seq<Document>) returns (r: Result<seq<seq<Document>>, Failure>)
    ensures r.Ok? ==>
      && IsPacking(r.value, docs, DocumentsFit(st)) && FewestBatches(r.value, docs, DocumentsFit(st))
      && |r.value| < |docs|
    ensures r.Err? <==>
      || (exists k :: 0 <= k < |docs| && !DocumentsFit(st)([docs[k]]))
      || (forall k :: 0 <= k < |docs| - 1 ==> !DocumentsFit(st)([docs[k], docs[k + 1]]))
  {
    DocumentsFitIsHereditary(st);
    var packed := Pack(docs, DocumentsFit(st));
    if packed.Err? {
      return Err(ContextPlan);
    }
    BatchCount(packed.value);
    if |packed.value| == |docs| && AllSingletons(packed.value) {
      SingletonBatches(packed.value);
      forall k | 0 <= k < |docs| - 1 ensures !DocumentsFit(st)([docs[k], docs[k + 1]]) {
        GreedyAt(packed.value, k, DocumentsFit(st));
        assert packed.value[k] + [packed.value[k + 1][0]] == [docs[k], docs[k + 1]];
      }
      return Err(ContextPlan);
    }
    PackedSinglesFit(packed.value, docs, DocumentsFit(st));
    GreedyHasFewest(packed.value, docs, DocumentsFit(st));
    LongBatchHasPair(packed.value, docs, DocumentsFit(st));
    return Ok(packed.value);
  }

  /* ----- validation ----- */

  /** The schema model's validators: unique citations, unique roles, known references. */
  predicate SchemaValid(d: Document)
  {
    && (forall i, j :: 0 <= i < j < |d.citations| ==> d.citations[i].id != d.citations[j].id)
    && (forall i, j :: 0 <= i < j < |d.roles| ==> d.roles[i] != d.roles[j])
    && d.citations != []
    && (forall c <- d.cells :: forall id <- c.citationIds :: exists k :: 0 <= k < |d.citations| && d.citations[k].id == id)
  }

  function Papers(ids: seq<PaperId>): (r: set<PaperId>)
    ensures forall id :: id in r <==> id in ids
  {
    set id | id in ids
  }

  /** Every paper a document refers to. */
  function UsedPapers(d: Document): (r: set<PaperId>)
  {
    (set c | c in d.citations :: c.paperId) + Papers(d.roles) + Papers(d.mentioned)
  }

  /** Every citation is of a covered paper and resolves, and no two have the same identifier. */
  ghost predicate CitationsResolve(st: Settings, d: Document, coverage: Coverage)
  {
    && d.citations != []
    && (forall c <- d.citations :: c.paperId in coverage.included && st.resolves(c))
    && (forall i, j :: 0 <= i < j < |d.citations| ==> d.citations[i].id != d.citations[j].id)
  }

  /** The cell lists citations of the document only, one of them of the paper of its row. */
  ghost predicate CellGrounded(d: Document, cell: Cell)
  {
    && (forall id <- cell.citationIds :: exists c <- d.citations :: c.id == id)
    && (exists c <- d.citations :: c.id in cell.citationIds && c.paperId == cell.rowPaper)
  }

  /**
   * A usable answer to a request: the requested coverage, one role a paper, no paper from outside,
   * citations that resolve, and cells with a citation of the paper of their row.
   */
  ghost predicate Covers(st: Settings, d: Document, coverage: Coverage)
  {
    && d.coverage == coverage
    && (Distinct(coverage.included) ==> OneRoleEach(d.roles, coverage.included))
    && (forall id <- d.mentioned :: id in coverage.included)
    && CitationsResolve(st, d, coverage)
    && (forall cell <- d.cells :: CellGrounded(d, cell))
  }

  /** `_validate`: roles are exactly the covered papers and nothing outside coverage is used. */
  predicate Validates(st: Settings, d: Document, available: set<PaperId>)
  {
    && Papers(d.roles) == Papers(d.coverage.included)
    && UsedPapers(d) <= Papers(d.coverage.included)
    && (forall c <- d.cells ::
          exists k :: 0 <= k < |d.citations| && d.citations[k].id in c.citationIds && d.citations[k].paperId == c.rowPaper)
    && (forall c <- d.citations :: c.paperId in available && st.resolves(c))
  }

  /** Exactly one role for each of the (distinct) covered papers: the roles are a permutation of them. */
  ghost predicate OneRoleEach(roles: seq<PaperId>, included: seq<PaperId>)
  {
    multiset(roles) == multiset(included)
  }

  lemma CellsGrounded(st: Settings, d: Document, available: set<PaperId>)
    requires SchemaValid(d) && Validates(st, d, available)
    ensures forall cell <- d.cells :: CellGrounded(d, cell)
  {
    forall cell <- d.cells ensures CellGrounded(d, cell) {
      forall id <- cell.citationIds ensures exists c <- d.citations :: c.id == id {
        var k :| 0 <= k < |d.citations| && d.citations[k].id == id;
        assert d.citations[k] in d.citations;
      }
      var k :| 0 <= k < |d.citations| && d.citations[k].id in cell.citationIds && d.citations[k].paperId == cell.rowPaper;
      assert d.citations[k] in d.citations;
    }
  }

  lemma ValidatedCovers(st: Settings, d: Document, available: set<PaperId>)
    requires SchemaValid(d) && Validates(st, d, available)
    ensures Covers(st, d, d.coverage)
  {
    CellsGrounded(st, d, available);
    assert UsedPapers(d) <= Papers(d.coverage.included);
    assert forall id <- d.mentioned :: id in UsedPapers(d);
    assert forall c <- d.citations :: c.paperId in UsedPapers(d);
    hide UsedPapers, CellGrounded;
    if Distinct(d.coverage.included) {
      forall id ensures multiset(d.roles)[id] == multiset(d.coverage.included)[id] {
        DistinctCounts(d.roles, id);
        DistinctCounts(d.coverage.included, id);
      }
    }
  }

  /* ----- requests ----- */

  /** One model call: refused if the prompt is too long, otherwise any reply or a provider error. */
  method CallLlm(promptFits: bool) returns (r: Result<Option<Document>, Failure>)
    ensures !promptFits ==> r == Err(ContextPlan)
    ensures r.Ok? && r.value.Some? ==> SchemaValid(r.value.value)
    ensures r.Err? ==> r.error != AnswerValidation
  {
    if !promptFits {
      return Err(ContextPlan);
    }
    var providerFails: bool := *;
    if providerFails {
      return Err(ProviderCall);
    }
    var reply: Document := *;
    return Ok(if SchemaValid(reply) then Some(reply) else None);
  }

  /** A request with at most one repair call. */
  method RequestSynthesis(st: Settings, promptFits: bool, coverage: Coverage, available: set<PaperId>)
    returns (r: Result<Document, Failure>)
    ensures r.Ok? ==> Covers(st, r.value, coverage) && forall c <- r.value.citations :: c.paperId in available
    ensures !promptFits ==> r == Err(ContextPlan)
  {
    var first := CallLlm(promptFits);
    if first.Err? {
      return Err(first.error);
    }
    if first.value.Some? {
      var candidate := first.value.value.(coverage := coverage);
      if Validates(st, candidate, available) {
        ValidatedCovers(st, candidate, available);
        return Ok(candidate);
      }
    }
    var repairFits: bool := *;
    var second := CallLlm(repairFits);
    if second.Err? {
      return Err(second.error);
    }
    if second.value.Some? {
      var repaired := second.value.value.(coverage := coverage);
      if Validates(st, repaired, available) {
        ValidatedCovers(st, repaired, available);
        return Ok(repaired);
      }
    }
    return Err(AnswerValidation);
  }

  /* ----- coverage ----- */

  /** The covered papers of a list of documents, concatenated. */
  function Included(docs: seq<Document>): (r: seq<PaperId>)
  {
    if docs == [] then [] else Included(docs[..|docs| - 1]) + docs[|docs| - 1].coverage.included
  }

  lemma {:induction false} IncludedAppend(a: seq<Document>, b: seq<Document>)
    ensures Included(a + b) == Included(a) + Included(b)
  {
    if b == [] {
      assert a + b == a;
    } else {
      assert (a + b)[..|a + b| - 1] == a + b[..|b| - 1];
      IncludedAppend(a, b[..|b| - 1]);
    }
  }

  /** The covered papers of a list of groups, concatenated group by group. */
  function GroupedIncluded(groups: seq<seq<Document>>): (r: seq<PaperId>)
  {
    if groups == [] then []
    else GroupedIncluded(groups[..|groups| - 1]) + Included(groups[|groups| - 1])
  }

  lemma {:induction false} GroupingKeepsIncluded(groups: seq<seq<Document>>)
    ensures GroupedIncluded(groups) == Included(Flatten(groups))
  {
    if groups != [] {
      var front := groups[..|groups| - 1];
      GroupingKeepsIncluded(front);
      IncludedAppend(Flatten(front), groups[|groups| - 1]);
    }
  }

  lemma GroupedIncludedNext(groups: seq<seq<Document>>, k: nat)
    requires k < |groups|
    ensures GroupedIncluded(groups[..k + 1]) == GroupedIncluded(groups[..k]) + Included(groups[k])
  {
    assert groups[..k + 1][..k] == groups[..k];
  }

  lemma DistinctParts(a: seq<PaperId>, b: seq<PaperId>)
    requires Distinct(a + b)
    ensures Distinct(a) && Distinct(b)
  {
    var all := a + b;
    assert forall i :: 0 <= i < |a| ==> all[i] == a[i];
    assert forall i :: 0 <= i < |b| ==> all[|a| + i] == b[i];
  }

  /** When all covered papers are distinct, so are those of each group. */
  lemma {:induction false} GroupDistinct(groups: seq<seq<Document>>, k: nat)
    requires k < |groups| && Distinct(GroupedIncluded(groups))
    ensures Distinct(Included(groups[k]))
  {
    var front, last := groups[..|groups| - 1], groups[|groups| - 1];
    DistinctParts(GroupedIncluded(front), Included(last));
    if k < |front| {
      GroupDistinct(front, k);
    }
  }

  lemma OneGroup<T>(groups: seq<seq<T>>)
    ensures |groups| == 1 ==> Flatten(groups) == groups[0]
  {
    if |groups| == 1 {
      assert groups[..0] == [];
    }
  }

  /** Requests of a reduce loop that loses at least one document a round: (n-1) + (n-2) + ... + 1. */
  function ReduceBudget(n: nat): (r: nat)
  {
    if n == 0 then 0 else ReduceBudget(n - 1) + (n - 1)
  }

  lemma {:induction false} ReduceBudgetClosedForm(n: nat)
    ensures 2 * ReduceBudget(n) == n * (n - 1)
  {
    if n > 0 {
      ReduceBudgetClosedForm(n - 1);
    }
  }

  lemma {:induction false} ReduceBudgetMonotone(m: nat, n: nat)
    requires m <= n
    ensures ReduceBudget(m) <= ReduceBudget(n)
  {
    if m < n {
      ReduceBudgetMonotone(m, n - 1);
    }
  }

  /* ----- reduce ----- */

  /** The documents of a round cover all papers in order; a single one is a finished answer. */
  ghost predicate RoundCovers(st: Settings, docs: seq<Document>, finalCoverage: Coverage)
  {
    && docs != []
    && Included(docs) == finalCoverage.included
    && (|docs| == 1 ==> Covers(st, docs[0], finalCoverage))
  }

  /** One round: a request for each packed group, covering the group's papers in order. */
  method ReduceRound(st: Settings, groups: seq<seq<Document>>, finalCoverage: Coverage, available: set<PaperId>)
    returns (r: Result<seq<Document>, Failure>)
    requires groups != [] && Distinct(finalCoverage.included)
    requires Included(Flatten(groups)) == finalCoverage.included
    ensures r.Ok? ==> |r.value| == |groups| && RoundCovers(st, r.value, finalCoverage)
  {
    GroupingKeepsIncluded(groups);
    var reduced: seq<Document> := [];
    for k := 0 to |groups|
      invariant |reduced| == k
      invariant Included(reduced) == GroupedIncluded(groups[..k])
      invariant k == 1 && |groups| == 1 ==> Covers(st, reduced[0], finalCoverage)
    {
      GroupedIncludedNext(groups, k);
      GroupDistinct(groups, k);
      DedupIdentity(Included(groups[k]));
      OneGroup(groups);
      var ids := Dedup(Included(groups[k]));
      var coverage := if |groups| == 1 then finalCoverage else Coverage(ids, [], false);
      var reply := RequestSynthesis(st, DocumentsFit(st)(groups[k]), coverage, available);
      if reply.Err? {
        return Err(reply.error);
      }
      reduced := reduced + [reply.value];
      assert reduced[..k] == reduced[..|reduced| - 1];
    }
    assert groups[..|groups|] == groups;
    return Ok(reduced);
  }

  /** The reduced document gets the final coverage if it lacks it and is validated once more. */
  method Finish(st: Settings, reduced: Document, finalCoverage: Coverage, available: set<PaperId>)
    returns (r: Result<Document, Failure>)
    ensures r.Ok? ==> r.value == reduced.(coverage := finalCoverage)
    ensures r.Err? ==> !Validates(st, reduced.(coverage := finalCoverage), available)
  {
    var result := reduced;
    if result.coverage != finalCoverage {
      result := result.(coverage := finalCoverage);
    }
    if !Validates(st, result, available) {
      return Err(AnswerValidation);
    }
    return Ok(result);
  }

  method Reduce(st: Settings, mapped: seq<Document>, finalCoverage: Coverage, available: set<PaperId>)
    returns (r: Result<Document, Failure>, requests: nat)
    requires mapped != [] && Distinct(finalCoverage.included)
    requires Included(mapped) == finalCoverage.included
    ensures r.Ok? ==> Covers(st, r.value, finalCoverage)
    ensures |mapped| == 1 ==> requests <= 1
    ensures |mapped| > 1 ==> requests <= ReduceBudget(|mapped|)
  {
    hide FewestBatches, Fits, DocumentsFit, CitationsResolve, CellGrounded;
    requests := 0;
    var current := mapped;
    if |current| == 1 {
      if !DocumentsFit(st)(current) {
        return Err(ContextPlan), 0;
      }
      r := RequestSynthesis(st, DocumentsFit(st)(current), finalCoverage, available);
      return r, 1;
    }
    while |current| > 1
      invariant |current| == 1 ==> RoundCovers(st, current, finalCoverage)
      invariant current != [] && Included(current) == finalCoverage.included
      invariant requests + ReduceBudget(|current|) <= ReduceBudget(|mapped|)
      decreases |current|
    {
      var packed := PackDocuments(st, current);
      if packed.Err? {
        return Err(packed.error), requests;
      }
      var groups := packed.value;
      ReduceBudgetMonotone(|groups|, |current| - 1);
      requests := requests + |groups|;
      var round := ReduceRound(st, groups, finalCoverage, available);
      if round.Err? {
        return Err(round.error), requests;
      }
      current := round.value;
    }
    r := Finish(st, current[0], finalCoverage, available);
    return r, requests;
  }

  /* ----- map ----- */

  function PaperIds(sources: seq<Source>): (r: seq<PaperId>)
    ensures |r| == |sources|
  {
    seq(|sources|, i requires 0 <= i < |sources| => sources[i].paperId)
  }

  lemma PaperIdsAppend(a: seq<Source>, b: seq<Source>)
    ensures PaperIds(a + b) == PaperIds(a) + PaperIds(b)
  {
    assert |PaperIds(a + b)| == |PaperIds(a) + PaperIds(b)|;
  }

  /**
   * A synthesis is returned with exactly the requested coverage and exactly one role for
   * every covered paper, whatever the model replies; the number of requests is bounded.
   */
  method Generate(st: Settings, sources: seq<Source>, coverage: Coverage)
    returns (r: Result<Document, Failure>, requests: nat)
    requires ConsistentCoverage(coverage) && PaperIds(sources) == coverage.included
    ensures r.Ok? ==> Covers(st, r.value, coverage) && OneRoleEach(r.value.roles, coverage.included)
    ensures requests <= |sources| + 1 + ReduceBudget(|sources|)
    ensures r.Ok? ==> requests >= 1
  {
    hide FewestBatches, Fits, SourcesFit, OneRoleEach, CitationsResolve, CellGrounded;
    var available := Papers(coverage.included);
    if Fits(st, "SYNTHESIZE", st.directLimit, SourceTexts(sources)) {
      r := RequestSynthesis(st, true, coverage, available);
      return r, 1;
    }
    var packed := PackSources(st, sources);
    if packed.Err? {
      return Err(ContextPlan), 0;
    }
    var batches := packed.value;
    var mapped: seq<Document> := [];
    for k := 0 to |batches|
      invariant |mapped| == k
      invariant Included(mapped) == PaperIds(Flatten(batches[..k]))
    {
      assert batches[..k + 1][..k] == batches[..k];
      PaperIdsAppend(Flatten(batches[..k]), batches[k]);
      var ids := PaperIds(batches[k]);
      var reply := RequestSynthesis(st, SourcesFit(st)(batches[k]), Coverage(ids, [], false), Papers(ids));
      if reply.Err? {
        return Err(reply.error), k + 1;
      }
      mapped := mapped + [reply.value];
      assert mapped[..k] == mapped[..|mapped| - 1];
    }
    assert batches[..|batches|] == batches;
    var reduceRequests: nat;
    r, reduceRequests := Reduce(st, mapped, coverage, available);
    ReduceBudgetMonotone(|mapped|, |sources|);
    return r, |batches| + reduceRequests;
  }
}
