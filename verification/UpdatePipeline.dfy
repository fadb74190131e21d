/** The update pipeline of a paper: its stages, what each stores, and batches of papers. */
module UpdatePipeline {
  import opened Seqs

  type PaperId = string

  datatype Status = Discovered | MetadataResolved | Parsed | Summarized | Outlined

  /**
   * A paper's row with its artifact rows. An artifact is known by the number of the write that
   * stored it last; the summary and the outline each stand for the two files stored together.
   */
  datatype Paper = Paper(
    status: Status, hasAbstract: bool, extracted: Option<nat>, summary: Option<nat>, outline: Option<nat>)

  datatype Stage = Metadata | Parse | Abstract | Summary | Outline

  /** `_STATUS_STAGE_INDEX`. */
  function StatusIndex(status: Status): nat
  {
    match status
    case Discovered => 0
    case MetadataResolved => 1
    case Parsed => 2
    case Summarized => 4
    case Outlined => 5
  }

  /** `_STAGE_INDEX`. */
  function StageIndex(stage: Stage): nat
  {
    match stage
    case Metadata => 1
    case Parse => 2
    case Abstract => 3
    case Summary => 4
    case Outline => 5
  }

  const REBUILD_STAGES := ["metadata", "parse", "abstract", "summary", "outline"]

  /** The names are known to `rebuild_stage_index` in the order of the stages. */
  lemma RebuildStageIff(name: string, stage: Stage)
    ensures RebuildStage(name) == Some(stage) <==> name == REBUILD_STAGES[StageIndex(stage) - 1]
    ensures RebuildStage(name).None? <==> name !in REBUILD_STAGES
  {
    assert REBUILD_STAGES[0] == "metadata" && REBUILD_STAGES[1] == "parse" && REBUILD_STAGES[2] == "abstract";
    assert REBUILD_STAGES[3] == "summary" && REBUILD_STAGES[4] == "outline";
    assert REBUILD_STAGES[0][0] == 'm' && REBUILD_STAGES[1][0] == 'p' && REBUILD_STAGES[2][0] == 'a';
    assert REBUILD_STAGES[3][0] == 's' && REBUILD_STAGES[4][0] == 'o';
  }

  /** `rebuild_stage_index`; None for an unknown name. */
  function RebuildStage(name: string): Option<Stage>
  {
    if name == "metadata" then Some(Metadata)
    else if name == "parse" then Some(Parse)
    else if name == "abstract" then Some(Abstract)
    else if name == "summary" then Some(Summary)
    else if name == "outline" then Some(Outline)
    else None
  }

  predicate Older(a: Option<nat>, b: Option<nat>)
  {
    a.Some? && b.Some? && a.value < b.value
  }

  /** The status never outruns the artifacts, and no artifact is without what it is made from. */
  predicate Backed(p: Paper)
  {
    && (p.outline.Some? ==> p.summary.Some?)
    && (p.summary.Some? ==> p.extracted.Some?)
    && (StatusIndex(p.status) >= 2 ==> p.extracted.Some?)
    && (StatusIndex(p.status) >= 4 ==> p.summary.Some?)
    && (StatusIndex(p.status) >= 5 ==> p.outline.Some?)
  }

  /** Each artifact the status stands for was made after the one it is made from. */
  predicate Fresh(p: Paper)
  {
    && (StatusIndex(p.status) >= 4 ==> Older(p.extracted, p.summary))
    && (StatusIndex(p.status) >= 5 ==> Older(p.summary, p.outline))
  }

  /** Artifacts are replaced, never removed. */
  predicate ArtifactsKept(p: Paper, p': Paper)
  {
    && (p.extracted.Some? ==> p'.extracted.Some? && p.extracted.value <= p'.extracted.value)
    && (p.summary.Some? ==> p'.summary.Some? && p.summary.value <= p'.summary.value)
    && (p.outline.Some? ==> p'.outline.Some? && p.outline.value <= p'.outline.value)
  }

  predicate Written(artifact: Option<nat>, writes: nat)
  {
    artifact.Some? ==> artifact.value < writes
  }

  predicate RowOk(p: Paper, writes: nat)
  {
    Backed(p) && Written(p.extracted, writes) && Written(p.summary, writes) && Written(p.outline, writes)
  }

  ghost predicate RowsOk(papers: map<PaperId, Paper>, writes: nat)
  {
    forall id <- papers.Keys :: RowOk(papers[id], writes)
  }

  /** One more transaction on the row of a paper. */
  lemma RowStored(
    before: map<PaperId, Paper>, papers: map<PaperId, Paper>, id: PaperId, p: Paper, writes: nat, writes': nat)
    requires RowsOk(papers, writes) && id in papers && writes <= writes' && RowOk(p, writes')
    requires OthersKept(id, before, papers)
    ensures RowsOk(papers[id := p], writes') && OthersKept(id, before, papers[id := p])
  {
  }

  lemma RowAt(papers: map<PaperId, Paper>, id: PaperId, writes: nat)
    requires RowsOk(papers, writes) && id in papers
    ensures RowOk(papers[id], writes) && OthersKept(id, papers, papers)
  {
  }

  /** A stage ends, raises its declared error, or is stopped by anything else at any point. */
  datatype Ending = Done | Declared | Stopped

  /* ----- the plan for one paper ----- */

  /** What is asked of a batch: the stage to rebuild from, if any, and whether abstracts are cleaned. */
  datatype Order = Order(rebuild: Option<Stage>, fixAbstracts: bool)

  /** The rebuild reaches back to the stage. */
  predicate Rebuilds(order: Order, stage: Stage)
  {
    order.rebuild.Some? && StageIndex(order.rebuild.value) <= StageIndex(stage)
  }

  predicate AbstractOnly(order: Order)
  {
    order.rebuild == Some(Abstract)
  }

  predicate NeedsMetadata(p: Paper, order: Order)
  {
    StatusIndex(p.status) < 1 || order.rebuild == Some(Metadata)
  }

  predicate NeedsParsing(p: Paper, order: Order)
  {
    StatusIndex(p.status) < 2 || Rebuilds(order, Parse)
  }

  predicate NeedsAbstractFix(p: Paper, order: Order)
  {
    && order.fixAbstracts
    && (p.hasAbstract || NeedsParsing(p, order))
    && (order.rebuild.None? || Rebuilds(order, Abstract))
  }

  predicate NeedsSummary(p: Paper, order: Order)
  {
    !AbstractOnly(order) && (StatusIndex(p.status) < 4 || Rebuilds(order, Summary))
  }

  predicate NeedsOutline(p: Paper, order: Order)
  {
    !AbstractOnly(order) && (StatusIndex(p.status) < 5 || order.rebuild.Some?)
  }

  /** The paper is left alone: it has arrived, or only its abstract is asked for and there is nothing to clean. */
  predicate LeftAlone(p: Paper, order: Order)
  {
    if order.rebuild.None? then p.status == Outlined
    else AbstractOnly(order) && StatusIndex(p.status) >= 2 && !NeedsAbstractFix(p, order)
  }

  /** Where a successful update leaves the status. */
  function FinalStatus(p: Paper, order: Order): Status
  {
    if !AbstractOnly(order) then Outlined
    else if StatusIndex(p.status) < 2 then Parsed
    else p.status
  }

  predicate Rewritten(needed: bool, before: Option<nat>, after: Option<nat>, writes: nat)
  {
    if needed then after.Some? && after.value >= writes else after == before
  }

  /** A successful update: the final status, and exactly the artifacts of the needed stages made anew. */
  predicate Succeeded(p: Paper, order: Order, p': Paper, writes: nat)
  {
    && p'.status == FinalStatus(p, order)
    && Rewritten(NeedsParsing(p, order), p.extracted, p'.extracted, writes)
    && Rewritten(NeedsSummary(p, order), p.summary, p'.summary, writes)
    && Rewritten(NeedsOutline(p, order), p.outline, p'.outline, writes)
  }

  /** The artifact was stored by one of the writes from `writes` on. */
  predicate MadeAnew(artifact: Option<nat>, writes: nat)
  {
    artifact.Some? && artifact.value >= writes
  }

  /**
   * A finished paper rebuilt from the stage with this number, by the place of its name: the text
   * is made anew from `parse` on, the summary from `summary` on, the outline always; a rebuild of
   * the abstract makes nothing anew.
   */
  lemma RebuildMakesAnew(p: Paper, k: nat, fixAbstracts: bool, p': Paper, writes: nat)
    requires k < |REBUILD_STAGES| && p.status == Outlined && RowOk(p, writes)
    requires Succeeded(p, Order(RebuildStage(REBUILD_STAGES[k]), fixAbstracts), p', writes)
    ensures MadeAnew(p'.extracted, writes) <==> k <= 1
    ensures MadeAnew(p'.summary, writes) <==> k != 2 && k <= 3
    ensures MadeAnew(p'.outline, writes) <==> k != 2
    ensures p'.status == Outlined
  {
    var stage := if k == 0 then Metadata else if k == 1 then Parse else if k == 2 then Abstract
                 else if k == 3 then Summary else Outline;
    RebuildStageIff(REBUILD_STAGES[k], stage);
    hide RebuildStage;
  }

  /** Without a rebuild, exactly the artifacts that the status does not stand for yet are made. */
  lemma UpdateMakesMissing(p: Paper, fixAbstracts: bool, p': Paper, writes: nat)
    requires RowOk(p, writes) && Succeeded(p, Order(None, fixAbstracts), p', writes)
    ensures MadeAnew(p'.extracted, writes) <==> p.status in {Discovered, MetadataResolved}
    ensures MadeAnew(p'.summary, writes) <==> p.status in {Discovered, MetadataResolved, Parsed}
    ensures MadeAnew(p'.outline, writes) <==> p.status != Outlined
    ensures p'.status == Outlined
  {
  }

  /** The lowest status an unsuccessful update may leave: that before the stage it rebuilds from. */
  function Floor(p: Paper, order: Order): nat
  {
    var before := StatusIndex(p.status);
    if order.rebuild.None? || AbstractOnly(order) then before
    else
      var base :=
        match order.rebuild.value
        case Metadata => 0
        case Parse => 1
        case Abstract => before
        case Summary => 2
        case Outline => 4;
      if base < before then base else before
  }

  /** Whatever an update does to a paper, however it ends. */
  predicate Progressed(p: Paper, order: Order, p': Paper)
  {
    ArtifactsKept(p, p') && StatusIndex(p'.status) >= Floor(p, order)
  }

  /** Only the row of this paper may differ. */
  ghost predicate OthersKept(id: PaperId, papers: map<PaperId, Paper>, papers': map<PaperId, Paper>)
  {
    && papers'.Keys == papers.Keys
    && forall other <- papers.Keys :: other != id ==> papers'[other] == papers[other]
  }

  lemma OthersKeptTwice(
    id: PaperId, papers: map<PaperId, Paper>, papers': map<PaperId, Paper>, papers'': map<PaperId, Paper>)
    requires OthersKept(id, papers, papers') && OthersKept(id, papers', papers'')
    ensures OthersKept(id, papers, papers'')
  {
  }

  /** The paper as the later stages find it: parsed if it was to be. */
  predicate TextReady(p: Paper, order: Order, p': Paper, writes: nat)
  {
    && p'.status == (if NeedsParsing(p, order) then Parsed else p.status)
    && Rewritten(NeedsParsing(p, order), p.extracted, p'.extracted, writes)
    && p'.summary == p.summary && p'.outline == p.outline
  }

  /** The stage named by a failure was one the paper needed. */
  predicate FailedWhereNeeded(p: Paper, order: Order, category: Stage)
  {
    match category
    case Metadata => NeedsMetadata(p, order)
    case Parse => NeedsParsing(p, order)
    case Summary => NeedsSummary(p, order)
    case Outline => NeedsOutline(p, order)
    case Abstract => false
  }

  /** What an update makes of one paper, by its outcome. */
  predicate Settled(p: Paper, order: Order, p': Paper, writes: nat, r: Outcome)
  {
    && Progressed(p, order, p')
    && (Fresh(p) ==> Fresh(p'))
    && match r
       case Updated => !LeftAlone(p, order) && Succeeded(p, order, p', writes)
       case Skipped => LeftAlone(p, order) && p'.status == p.status && SameArtifacts(p, p')
       case Failed(category) => !LeftAlone(p, order) && FailedWhereNeeded(p, order, category)
       case Aborted => true
  }

  /**
   * Whatever was asked except the abstract alone, a paper that was updated or skipped is outlined,
   * and it is skipped only without a rebuild. The abstract alone is skipped only for a parsed paper
   * with nothing to clean.
   */
  lemma TargetReached(p: Paper, order: Order, p': Paper, writes: nat, r: Outcome)
    requires Settled(p, order, p', writes, r) && (r == Updated || r == Skipped)
    ensures order.rebuild != Some(Abstract) ==> p'.status == Outlined && (r == Skipped ==> order.rebuild.None?)
    ensures order.rebuild == Some(Abstract) ==> p'.status !in {Discovered, MetadataResolved}
    ensures order.rebuild == Some(Abstract) && r == Skipped ==> !(order.fixAbstracts && p.hasAbstract)
    ensures r == Skipped ==> p'.status == p.status && SameArtifacts(p, p')
  {
  }

  predicate SameArtifacts(p: Paper, p': Paper)
  {
    p'.extracted == p.extracted && p'.summary == p.summary && p'.outline == p.outline
  }

  datatype Outcome = Updated | Skipped | Failed(category: Stage) | Aborted

  datatype Failure = Failure(id: PaperId, category: Stage)

  datatype BatchResult = BatchResult(updated: seq<PaperId>, skipped: seq<PaperId>, failures: seq<Failure>)

  const NOTHING := BatchResult([], [], [])

  datatype Selection = All | Only(ids: seq<PaperId>)

  datatype BatchEnding = Finished(result: BatchResult) | UnknownStage | UnknownPaper(id: PaperId) | Interrupted

  function FailureIds(failures: seq<Failure>): (r: seq<PaperId>)
    ensures |r| == |failures| && forall i :: 0 <= i < |r| ==> r[i] == failures[i].id
  {
    seq(|failures|, i requires 0 <= i < |failures| => failures[i].id)
  }

  function Record(result: BatchResult, id: PaperId, r: Outcome): BatchResult
  {
    match r
    case Updated => result.(updated := result.updated + [id])
    case Skipped => result.(skipped := result.skipped + [id])
    case Failed(category) => result.(failures := result.failures + [Failure(id, category)])
    case Aborted => result
  }

  /** No paper loses ground or becomes stale, whatever happens to the batch. */
  ghost predicate NoneHarmed(order: Order, papers: map<PaperId, Paper>, papers': map<PaperId, Paper>)
  {
    && papers'.Keys == papers.Keys
    && forall id <- papers.Keys :: Progressed(papers[id], order, papers'[id]) && (Fresh(papers[id]) ==> Fresh(papers'[id]))
  }

  /** A batch after its first `n` papers: each recorded once, by what has become of it. */
  ghost predicate BatchHolds(
    ids: seq<PaperId>, n: nat, order: Order, papers: map<PaperId, Paper>, papers': map<PaperId, Paper>, writes: nat,
    result: BatchResult)
    requires n <= |ids|
  {
    && NoneHarmed(order, papers, papers')
    && (forall id <- papers.Keys :: id !in ids[..n] ==> papers'[id] == papers[id])
    && multiset(result.updated) + multiset(result.skipped) + multiset(FailureIds(result.failures)) == multiset(ids[..n])
    && AllSettled(order, papers, papers', writes, result)
  }

  /** Every record says what has become of the paper. */
  ghost predicate AllSettled(
    order: Order, papers: map<PaperId, Paper>, papers': map<PaperId, Paper>, writes: nat, result: BatchResult)
  {
    && (forall id <- result.updated :: SettledAs(id, order, papers, papers', writes, Updated))
    && (forall id <- result.skipped :: SettledAs(id, order, papers, papers', writes, Skipped))
    && (forall failure <- result.failures ::
          SettledAs(failure.id, order, papers, papers', writes, Failed(failure.category)))
  }

  predicate SettledAs(
    id: PaperId, order: Order, papers: map<PaperId, Paper>, papers': map<PaperId, Paper>, writes: nat, r: Outcome)
  {
    id in papers && id in papers' && Settled(papers[id], order, papers'[id], writes, r)
  }

  lemma SettledStays(
    id: PaperId, other: PaperId, order: Order, papers: map<PaperId, Paper>, papers': map<PaperId, Paper>,
    papers'': map<PaperId, Paper>, writes: nat, r: Outcome)
    requires SettledAs(id, order, papers, papers', writes, r) && OthersKept(other, papers', papers'') && id != other
    ensures SettledAs(id, order, papers, papers'', writes, r)
  {
  }

  lemma BatchStarts(ids: seq<PaperId>, order: Order, papers: map<PaperId, Paper>, writes: nat)
    ensures BatchHolds(ids, 0, order, papers, papers, writes, NOTHING)
  {
    assert ids[..0] == [];
    assert FailureIds([]) == [];
  }

  lemma NoneHarmedNext(
    id: PaperId, order: Order, papers: map<PaperId, Paper>, papers': map<PaperId, Paper>, papers'': map<PaperId, Paper>)
    requires NoneHarmed(order, papers, papers') && OthersKept(id, papers', papers'') && id in papers
    requires Progressed(papers[id], order, papers''[id]) && (Fresh(papers[id]) ==> Fresh(papers''[id]))
    ensures NoneHarmed(order, papers, papers'')
  {
    hide Progressed, Fresh;
  }

  /** The record of one paper more. */
  lemma RecordCounts(ids: seq<PaperId>, n: nat, result: BatchResult, r: Outcome)
    requires n < |ids| && r != Aborted
    requires multiset(result.updated) + multiset(result.skipped) + multiset(FailureIds(result.failures)) == multiset(ids[..n])
    ensures
      var more := Record(result, ids[n], r);
      multiset(more.updated) + multiset(more.skipped) + multiset(FailureIds(more.failures)) == multiset(ids[..n + 1])
  {
    assert ids[..n + 1] == ids[..n] + [ids[n]];
    if r.Failed? {
      var more := Record(result, ids[n], r);
      assert FailureIds(more.failures) == FailureIds(result.failures) + [ids[n]];
    }
  }

  lemma SettledEarlier(p: Paper, order: Order, p': Paper, early: nat, late: nat, r: Outcome)
    requires Settled(p, order, p', late, r) && early <= late
    ensures Settled(p, order, p', early, r)
  {
  }

  lemma AllSettledStay(
    id: PaperId, order: Order, papers: map<PaperId, Paper>, papers': map<PaperId, Paper>, papers'': map<PaperId, Paper>,
    writes: nat, result: BatchResult)
    requires AllSettled(order, papers, papers', writes, result) && OthersKept(id, papers', papers'')
    requires id !in result.updated && id !in result.skipped && forall failure <- result.failures :: failure.id != id
    ensures AllSettled(order, papers, papers'', writes, result)
  {
    hide SettledAs, OthersKept;
    forall other <- result.updated ensures SettledAs(other, order, papers, papers'', writes, Updated) {
      SettledStays(other, id, order, papers, papers', papers'', writes, Updated);
    }
    forall other <- result.skipped ensures SettledAs(other, order, papers, papers'', writes, Skipped) {
      SettledStays(other, id, order, papers, papers', papers'', writes, Skipped);
    }
    forall failure <- result.failures
      ensures SettledAs(failure.id, order, papers, papers'', writes, Failed(failure.category))
    {
      SettledStays(failure.id, id, order, papers, papers', papers'', writes, Failed(failure.category));
    }
  }

  lemma AllSettledNext(
    id: PaperId, order: Order, papers: map<PaperId, Paper>, papers': map<PaperId, Paper>, writes: nat,
    result: BatchResult, r: Outcome)
    requires AllSettled(order, papers, papers', writes, result) && SettledAs(id, order, papers, papers', writes, r)
    ensures AllSettled(order, papers, papers', writes, Record(result, id, r))
  {
    hide SettledAs;
  }

  lemma BatchNext(
    ids: seq<PaperId>, n: nat, order: Order, papers: map<PaperId, Paper>, papers': map<PaperId, Paper>,
    papers'': map<PaperId, Paper>, writes: nat, writes': nat, result: BatchResult, r: Outcome)
    requires n < |ids| && Distinct(ids) && ids[n] in papers && writes <= writes' && r != Aborted
    requires BatchHolds(ids, n, order, papers, papers', writes, result)
    requires OthersKept(ids[n], papers', papers'') && Settled(papers[ids[n]], order, papers''[ids[n]], writes', r)
    ensures BatchHolds(ids, n + 1, order, papers, papers'', writes, Record(result, ids[n], r))
  {
    var id := ids[n];
    NoneHarmedNext(id, order, papers, papers', papers'');
    SettledEarlier(papers[id], order, papers''[id], writes, writes', r);
    RecordCounts(ids, n, result, r);
    RecordedBefore(ids, n, result);
    assert id !in ids[..n];
    assert SettledAs(id, order, papers, papers'', writes, r);
    hide AllSettled, SettledAs, NoneHarmed, Settled, Record;
    AllSettledStay(id, order, papers, papers', papers'', writes, result);
    AllSettledNext(id, order, papers, papers'', writes, result, r);
    assert ids[..n + 1] == ids[..n] + [id];
  }

  /** Whoever is recorded is one of the papers the batch has come past. */
  lemma RecordedBefore(ids: seq<PaperId>, n: nat, result: BatchResult)
    requires n <= |ids|
    requires multiset(result.updated) + multiset(result.skipped) + multiset(FailureIds(result.failures)) == multiset(ids[..n])
    ensures forall id <- result.updated :: id in ids[..n]
    ensures forall id <- result.skipped :: id in ids[..n]
    ensures forall failure <- result.failures :: failure.id in ids[..n]
  {
    var all := multiset(ids[..n]);
    forall id <- result.updated ensures id in ids[..n] {
      assert id in multiset(result.updated) && id in all;
    }
    forall id <- result.skipped ensures id in ids[..n] {
      assert id in multiset(result.skipped) && id in all;
    }
    forall failure <- result.failures ensures failure.id in ids[..n] {
      var i :| 0 <= i < |result.failures| && result.failures[i] == failure;
      assert FailureIds(result.failures)[i] == failure.id;
      assert failure.id in multiset(FailureIds(result.failures)) && failure.id in all;
    }
  }

  /** Each selected paper is in exactly one list of the result, and only once. */
  lemma EachPaperOnce(
    ids: seq<PaperId>, order: Order, papers: map<PaperId, Paper>, papers': map<PaperId, Paper>, writes: nat,
    result: BatchResult, id: PaperId)
    requires Distinct(ids) && BatchHolds(ids, |ids|, order, papers, papers', writes, result)
    ensures
      multiset(result.updated)[id] + multiset(result.skipped)[id] + multiset(FailureIds(result.failures))[id] ==
      if id in ids then 1 else 0
  {
    hide NoneHarmed, Settled;
    assert ids[..|ids|] == ids;
    DistinctCounts(ids, id);
    var all := multiset(result.updated) + multiset(result.skipped) + multiset(FailureIds(result.failures));
    assert all[id] == multiset(ids)[id];
  }

  class Library {
    var papers: map<PaperId, Paper>
    var writes: nat

    ghost predicate Valid()
      reads this
    {
      RowsOk(papers, writes)
    }

    constructor ()
      ensures Valid() && papers == map[]
    {
      papers, writes := map[], 0;
    }

    /** A scanned paper is added as discovered. */
    method Add(id: PaperId)
      requires Valid()
      modifies this
      ensures Valid() && writes == old(writes)
      ensures papers == if id in old(papers) then old(papers) else old(papers)[id := Paper(Discovered, false, None, None, None)]
    {
      if id !in papers {
        papers := papers[id := Paper(Discovered, false, None, None, None)];
      }
    }

    /** `resolve_paper_metadata`. */
    method ResolveMetadata(id: PaperId, force: bool) returns (ending: Ending)
      requires Valid() && id in papers
      modifies this
      ensures Valid() && OthersKept(id, old(papers), papers) && old(writes) <= writes
      ensures
        var p, p' := old(papers)[id], papers[id];
        && ArtifactsKept(p, p')
        && p' == p.(status := p'.status, hasAbstract := p'.hasAbstract)
        && (Fresh(p) ==> Fresh(p'))
        && (p.status != Discovered && !force ==> ending == Done && p' == p)
        && (ending == Done ==> p'.status == if p.status == Discovered || force then MetadataResolved else p.status)
        && (ending != Done ==> p'.status == p.status || (force && p'.status == Discovered))
    {
      hide RowsOk, OthersKept;
      var p := papers[id];
      RowAt(papers, id, writes);
      if p.status != Discovered && !force {
        return Done;
      }
      if * { return Stopped; }
      RowStored(old(papers), papers, id, p.(status := Discovered), writes, writes);
      papers := papers[id := p.(status := Discovered)];
      ending := *;
      if ending != Done { return; }
      var found: bool := *;
      RowStored(old(papers), papers, id, p.(status := MetadataResolved, hasAbstract := found), writes, writes);
      papers := papers[id := p.(status := MetadataResolved, hasAbstract := found)];
    }

    /** `parse_paper`; the artifact and the status are stored in one transaction. */
    method ParsePaper(id: PaperId, force: bool) returns (ending: Ending)
      requires Valid() && id in papers
      modifies this
      ensures Valid() && OthersKept(id, old(papers), papers) && old(writes) <= writes
      ensures
        var p, p' := old(papers)[id], papers[id];
        && ArtifactsKept(p, p')
        && p'.summary == p.summary && p'.outline == p.outline
        && (Fresh(p) ==> Fresh(p'))
        && (p.status == Discovered && !force ==> ending == Declared)
        && (StatusIndex(p.status) >= 2 && !force ==> ending == Done && p' == p)
        && (ending == Done && (p.status == MetadataResolved || force) ==>
              p'.status == Parsed && p'.extracted.Some? && p'.extracted.value >= old(writes))
        && (ending != Done ==> p'.extracted == p.extracted)
        && (ending != Done ==> p'.status == p.status || (force && p'.status == MetadataResolved))
    {
      hide RowsOk, OthersKept;
      var p := papers[id];
      RowAt(papers, id, writes);
      if p.status != MetadataResolved && !force {
        return if p.status == Discovered then Declared else Done;
      }
      if * { return Stopped; }
      RowStored(old(papers), papers, id, p.(status := MetadataResolved), writes, writes);
      papers := papers[id := p.(status := MetadataResolved)];
      ending := *;
      if ending != Done { return; }
      var found: bool := *;
      RowStored(old(papers), papers, id, p.(status := Parsed, extracted := Some(writes), hasAbstract := p.hasAbstract || found), writes, writes + 1);
      papers := papers[id := p.(status := Parsed, extracted := Some(writes), hasAbstract := p.hasAbstract || found)];
      writes := writes + 1;
    }

    /** `summarize_paper`. */
    method SummarizePaper(id: PaperId, force: bool) returns (ending: Ending)
      requires Valid() && id in papers
      modifies this
      ensures Valid() && OthersKept(id, old(papers), papers) && old(writes) <= writes
      ensures
        var p, p' := old(papers)[id], papers[id];
        && ArtifactsKept(p, p')
        && p' == p.(status := p'.status, summary := p'.summary)
        && (Fresh(p) ==> Fresh(p'))
        && (StatusIndex(p.status) >= 4 && !force ==> ending == Done && p' == p)
        && (StatusIndex(p.status) < 4 && p.extracted.None? ==> ending == Declared)
        && (ending == Done && (StatusIndex(p.status) < 4 || force) ==>
              p'.status == Summarized && p'.summary.Some? && p'.summary.value >= old(writes))
        && (ending != Done ==> p'.summary == p.summary)
        && (ending != Done ==> p'.status == p.status || (force && p'.status == Parsed))
    {
      hide RowsOk, OthersKept;
      var p := papers[id];
      RowAt(papers, id, writes);
      if StatusIndex(p.status) >= 4 && !force {
        return Done;
      }
      if p.extracted.None? {
        return Declared;
      }
      ending := *;
      if ending != Done { return; }
      if force {
        RowStored(old(papers), papers, id, p.(status := Parsed), writes, writes);
        papers := papers[id := p.(status := Parsed)];
      }
      ending := *;
      if ending != Done { return; }
      RowStored(old(papers), papers, id, p.(status := Summarized, summary := Some(writes)), writes, writes + 1);
      papers := papers[id := p.(status := Summarized, summary := Some(writes))];
      writes := writes + 1;
    }

    /** `outline_paper`; the outline is fresh when the summary it starts from is one the status stands for. */
    method OutlinePaper(id: PaperId, force: bool) returns (ending: Ending)
      requires Valid() && id in papers
      modifies this
      ensures Valid() && OthersKept(id, old(papers), papers) && old(writes) <= writes
      ensures
        var p, p' := old(papers)[id], papers[id];
        && ArtifactsKept(p, p')
        && p' == p.(status := p'.status, outline := p'.outline)
        && (Fresh(p) && StatusIndex(p.status) >= 4 ==> Fresh(p'))
        && (p.status == Outlined && !force ==> ending == Done && p' == p)
        && (p.status != Outlined && p.summary.None? ==> ending == Declared)
        && (ending == Done && (p.status != Outlined || force) ==>
              p'.status == Outlined && p'.outline.Some? && p'.outline.value >= old(writes))
        && (ending != Done ==> p'.outline == p.outline)
        && (ending != Done ==> p'.status == p.status || (force && p'.status == Summarized))
    {
      hide RowsOk, OthersKept;
      var p := papers[id];
      RowAt(papers, id, writes);
      if p.status == Outlined && !force {
        return Done;
      }
      if p.summary.None? {
        return Declared;
      }
      ending := *;
      if ending != Done { return; }
      if force {
        RowStored(old(papers), papers, id, p.(status := Summarized), writes, writes);
        papers := papers[id := p.(status := Summarized)];
      }
      ending := *;
      if ending != Done { return; }
      RowStored(old(papers), papers, id, p.(status := Outlined, outline := Some(writes)), writes, writes + 1);
      papers := papers[id := p.(status := Outlined, outline := Some(writes))];
      writes := writes + 1;
    }

    /** `fix_paper_abstract`: never touches the status; its declared error is only a warning. */
    method FixAbstract(id: PaperId) returns (ending: Ending)
    {
      ending := *;
    }

    /** The stages up to the cleaning of the abstract; None when all that are needed are done. */
    method PrepareText(id: PaperId, paper: Paper, order: Order) returns (end: Option<Outcome>)
      requires Valid() && id in papers && papers[id] == paper
      modifies this
      ensures Valid() && OthersKept(id, old(papers), papers) && old(writes) <= writes
      ensures id in papers && Progressed(paper, order, papers[id]) && (Fresh(paper) ==> Fresh(papers[id]))
      ensures end.None? ==> TextReady(paper, order, papers[id], old(writes))
      ensures end.Some? ==>
        || end == Some(Aborted)
        || (end == Some(Failed(Metadata)) && NeedsMetadata(paper, order))
        || (end == Some(Failed(Parse)) && NeedsParsing(paper, order))
    {
      hide OthersKept, Fresh, Valid;
      ghost var papers0, writes0 := papers, writes;
      assert OthersKept(id, papers0, papers0) by { NothingChanges(id, papers0); }
      KeptKeys(id, papers0, papers);
      if NeedsMetadata(paper, order) {
        var ending := ResolveMetadata(id, order.rebuild == Some(Metadata));
        KeptKeys(id, papers0, papers);
        if ending != Done {
          return Some(if ending == Declared then Failed(Metadata) else Aborted);
        }
      }
      ghost var papers1 := papers;
      if NeedsParsing(paper, order) {
        var ending := ParsePaper(id, Rebuilds(order, Parse));
        OthersKeptTwice(id, papers0, papers1, papers);
        KeptKeys(id, papers0, papers);
        if ending != Done {
          return Some(if ending == Declared then Failed(Parse) else Aborted);
        }
      }
      if NeedsAbstractFix(paper, order) {
        var ending := FixAbstract(id);
        if ending == Stopped {
          return Some(Aborted);
        }
      }
      return None;
    }

    /** The summary and the outline, from a paper whose text is ready. */
    method WriteUp(id: PaperId, paper: Paper, order: Order, ghost writes0: nat) returns (end: Option<Outcome>)
      requires Valid() && id in papers && TextReady(paper, order, papers[id], writes0) && writes0 <= writes
      requires Progressed(paper, order, papers[id])
      modifies this
      ensures Valid() && OthersKept(id, old(papers), papers) && old(writes) <= writes
      ensures id in papers && Progressed(paper, order, papers[id]) && (Fresh(old(papers)[id]) ==> Fresh(papers[id]))
      ensures end.None? ==> Succeeded(paper, order, papers[id], writes0)
      ensures end.Some? ==>
        || end == Some(Aborted)
        || (end == Some(Failed(Summary)) && NeedsSummary(paper, order))
        || (end == Some(Failed(Outline)) && NeedsOutline(paper, order))
    {
      hide OthersKept, Fresh, Valid;
      ghost var papers0 := papers;
      assert OthersKept(id, papers0, papers0) by { NothingChanges(id, papers0); }
      KeptKeys(id, papers0, papers);
      if NeedsSummary(paper, order) {
        var ending := SummarizePaper(id, Rebuilds(order, Summary));
        KeptKeys(id, papers0, papers);
        if ending != Done {
          return Some(if ending == Declared then Failed(Summary) else Aborted);
        }
      }
      ghost var papers1 := papers;
      if NeedsOutline(paper, order) {
        var ending := OutlinePaper(id, order.rebuild.Some?);
        OthersKeptTwice(id, papers0, papers1, papers);
        KeptKeys(id, papers0, papers);
        if ending != Done {
          return Some(if ending == Declared then Failed(Outline) else Aborted);
        }
      }
      return None;
    }

    /** The body of the loop of `update_papers`, for one paper as it was selected. */
    method UpdatePaper(id: PaperId, paper: Paper, order: Order) returns (r: Outcome)
      requires Valid() && id in papers && papers[id] == paper
      modifies this
      ensures Valid() && OthersKept(id, old(papers), papers) && old(writes) <= writes
      ensures id in papers && Settled(paper, order, papers[id], old(writes), r)
    {
      hide OthersKept, Fresh, Valid;
      if order.rebuild.None? && paper.status == Outlined {
        NothingChanges(id, papers);
        return Skipped;
      }
      ghost var papers0, writes0 := papers, writes;
      var end := PrepareText(id, paper, order);
      if end.Some? {
        return end.value;
      }
      ghost var papers1 := papers;
      end := WriteUp(id, paper, order, writes0);
      OthersKeptTwice(id, papers0, papers1, papers);
      if end.Some? {
        return end.value;
      }
      var needed := NeedsMetadata(paper, order) || NeedsParsing(paper, order) || NeedsAbstractFix(paper, order)
                    || NeedsSummary(paper, order) || NeedsOutline(paper, order);
      return if needed then Updated else Skipped;
    }

    /** `_select_papers`; each paper once, in the order asked for or in any order of the whole library. */
    method SelectPapers(selection: Selection) returns (r: Result<seq<PaperId>, PaperId>)
      requires Valid()
      ensures r.Ok? ==> Distinct(r.value) && forall id <- r.value :: id in papers
      ensures r.Ok? && selection.All? ==> forall id <- papers.Keys :: id in r.value
      ensures selection.Only? ==> (r.Ok? <==> forall id <- selection.ids :: id in papers)
      ensures selection.Only? && r.Ok? ==> r.value == Dedup(selection.ids)
      ensures r.Err? ==> selection.Only? && r.error in selection.ids && r.error !in papers
    {
      if selection.Only? {
        var ids := Dedup(selection.ids);
        DedupDistinct(selection.ids);
        for i := 0 to |ids|
          invariant forall j :: 0 <= j < i ==> ids[j] in papers
        {
          if ids[i] !in papers {
            assert ids[i] in selection.ids;
            return Err(ids[i]);
          }
        }
        return Ok(ids);
      }
      var listed: seq<PaperId> := [];
      var rest := papers.Keys;
      while rest != {}
        invariant rest <= papers.Keys && Distinct(listed)
        invariant forall id <- papers.Keys :: id in listed <==> id !in rest
        invariant forall id <- listed :: id in papers
        decreases |rest|
      {
        var id :| id in rest;
        listed := listed + [id];
        rest := rest - {id};
      }
      return Ok(listed);
    }

    /** `update_papers`. */
    method UpdatePapers(selection: Selection, fromStage: Option<string>, force: bool, fixAbstracts: bool)
      returns (ending: BatchEnding, ids: seq<PaperId>, order: Order)
      requires Valid()
      modifies this
      ensures Valid() && NoneHarmed(order, old(papers), papers)
      ensures Distinct(ids) && (selection.Only? && !ending.UnknownPaper? && !ending.UnknownStage? ==> ids == Dedup(selection.ids))
      ensures selection.All? && !ending.UnknownStage? ==> forall id <- old(papers).Keys :: id in ids
      ensures !ending.UnknownStage? ==> order == Order(if fromStage.None? then (if force then Some(Metadata) else None)
                                                       else RebuildStage(fromStage.value), fixAbstracts)
      ensures ending.UnknownStage? <==> fromStage.Some? && RebuildStage(fromStage.value).None?
      ensures ending.UnknownPaper? ==> selection.Only? && ending.id in selection.ids && ending.id !in papers
      ensures ending.UnknownStage? || ending.UnknownPaper? ==> papers == old(papers)
      ensures ending.Finished? ==> BatchHolds(ids, |ids|, order, old(papers), papers, old(writes), ending.result)
    {
      hide BatchHolds, NoneHarmed, Settled, OthersKept, RowsOk, RebuildStage;
      ghost var papers0, writes0 := papers, writes;
      ids, order := [], Order(None, fixAbstracts);
      BatchStarts(ids, order, papers, writes);
      BatchHarmsNone(ids, 0, order, papers0, papers, writes, NOTHING);
      var rebuild := if fromStage.Some? then RebuildStage(fromStage.value) else if force then Some(Metadata) else None;
      if fromStage.Some? && rebuild.None? {
        return UnknownStage, ids, order;
      }
      var selected := SelectPapers(selection);
      order := Order(rebuild, fixAbstracts);
      BatchStarts(ids, order, papers, writes);
      BatchHarmsNone(ids, 0, order, papers0, papers, writes, NOTHING);
      if selected.Err? {
        return UnknownPaper(selected.error), ids, order;
      }
      ids := selected.value;
      BatchStarts(ids, order, papers, writes);
      var seen, result := papers, NOTHING;
      for n := 0 to |ids|
        invariant Valid() && writes0 <= writes
        invariant BatchHolds(ids, n, order, papers0, papers, writes0, result)
      {
        var id := ids[n];
        BatchNotYet(ids, n, order, papers0, papers, writes0, result);
        ghost var papers1, writes1 := papers, writes;
        BatchHarmsNone(ids, n, order, papers0, papers, writes0, result);
        var r := UpdatePaper(id, seen[id], order);
        SettledHarmsNone(papers0[id], order, papers[id], writes1, r);
        NoneHarmedNext(id, order, papers0, papers1, papers);
        if r == Aborted {
          return Interrupted, ids, order;
        }
        BatchNext(ids, n, order, papers0, papers1, papers, writes0, writes1, result, r);
        result := Record(result, id, r);
      }
      BatchHarmsNone(ids, |ids|, order, papers0, papers, writes0, result);
      return Finished(result), ids, order;
    }

    /** Any number of updates, whatever they ask for and however they end. */
    method UpdateRepeatedly(calls: seq<Call>)
      requires Valid() && AllFresh(papers)
      modifies this
      ensures Valid() && AllFresh(papers) && AllKept(old(papers), papers)
    {
      hide RowsOk, NoneHarmed, BatchHolds, AllFresh, AllKept;
      KeptStart(papers);
      ghost var papers0 := papers;
      for n := 0 to |calls|
        invariant Valid() && AllFresh(papers) && AllKept(papers0, papers)
      {
        ghost var papers1 := papers;
        var _, _, order := UpdatePapers(calls[n].selection, calls[n].fromStage, calls[n].force, calls[n].fixAbstracts);
        KeptNext(order, papers0, papers1, papers);
      }
    }
  }

  datatype Call = Call(selection: Selection, fromStage: Option<string>, force: bool, fixAbstracts: bool)

  ghost predicate AllFresh(papers: map<PaperId, Paper>)
  {
    forall id <- papers.Keys :: Fresh(papers[id])
  }

  ghost predicate AllKept(papers: map<PaperId, Paper>, papers': map<PaperId, Paper>)
  {
    papers'.Keys == papers.Keys && forall id <- papers.Keys :: ArtifactsKept(papers[id], papers'[id])
  }

  lemma KeptStart(papers: map<PaperId, Paper>)
    ensures AllKept(papers, papers)
  {
  }

  lemma KeptNext(order: Order, papers: map<PaperId, Paper>, papers': map<PaperId, Paper>, papers'': map<PaperId, Paper>)
    requires AllKept(papers, papers') && AllFresh(papers') && NoneHarmed(order, papers', papers'')
    ensures AllKept(papers, papers'') && AllFresh(papers'')
  {
    hide Fresh, Floor;
  }

  lemma BatchHarmsNone(
    ids: seq<PaperId>, n: nat, order: Order, papers: map<PaperId, Paper>, papers': map<PaperId, Paper>, writes: nat,
    result: BatchResult)
    requires n <= |ids| && BatchHolds(ids, n, order, papers, papers', writes, result)
    ensures NoneHarmed(order, papers, papers') && papers'.Keys == papers.Keys
  {
  }

  /** A paper the batch has not come to is as it was selected. */
  lemma BatchNotYet(
    ids: seq<PaperId>, n: nat, order: Order, papers: map<PaperId, Paper>, papers': map<PaperId, Paper>, writes: nat,
    result: BatchResult)
    requires n < |ids| && Distinct(ids) && ids[n] in papers
    requires BatchHolds(ids, n, order, papers, papers', writes, result)
    ensures ids[n] in papers' && papers'[ids[n]] == papers[ids[n]]
  {
    assert ids[n] !in ids[..n];
  }

  lemma SettledHarmsNone(p: Paper, order: Order, p': Paper, writes: nat, r: Outcome)
    requires Settled(p, order, p', writes, r)
    ensures Progressed(p, order, p') && (Fresh(p) ==> Fresh(p'))
  {
  }

  lemma NothingChanges(id: PaperId, papers: map<PaperId, Paper>)
    ensures OthersKept(id, papers, papers)
  {
  }

  lemma KeptKeys(id: PaperId, papers: map<PaperId, Paper>, papers': map<PaperId, Paper>)
    requires OthersKept(id, papers, papers')
    ensures papers'.Keys == papers.Keys
  {
  }
}
