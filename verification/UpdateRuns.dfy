/** Batch update runs: their table, who executes them, and the exclusive use of papers. */
module UpdateRuns {
  import opened Seqs
  import UpdatePipeline

  type RunId = nat
  type PaperId = string

  datatype Mode = Continue | Rebuild

  datatype Status = Queued | Running | Completed | Failed | Interrupted

  /** What `finish_run` writes, all four columns at once. */
  datatype Ending = Ending(status: Status, result: Option<string>, error: Option<string>, finishedAt: int)

  datatype Run = Run(
    papers: seq<PaperId>,
    mode: Mode,
    fromStage: Option<string>,
    status: Status,
    result: Option<string>,
    error: Option<string>,
    finishedAt: Option<int>)

  /** The table, and the runs that threads of the living process execute. */
  datatype System = System(runs: map<RunId, Run>, executing: set<RunId>)

  const START := System(map[], {})

  predicate Active(status: Status)
  {
    status == Queued || status == Running
  }

  predicate Overlap(a: seq<PaperId>, b: seq<PaperId>)
  {
    exists paper <- a :: paper in b
  }

  /** `find_active_run_for_papers`: an active run that works on one of the papers. */
  predicate Conflicts(runs: map<RunId, Run>, run: RunId, papers: seq<PaperId>)
  {
    run in runs && Active(runs[run].status) && Overlap(papers, runs[run].papers)
  }

  predicate Free(runs: map<RunId, Run>, papers: seq<PaperId>)
  {
    forall run <- runs.Keys :: !Conflicts(runs, run, papers)
  }

  /* ----- steps ----- */

  datatype Action =
    | Create(run: RunId, papers: seq<PaperId>, mode: Mode, fromStage: Option<string>)
    | Claim(run: RunId)
    | Finish(run: RunId, ending: Ending)
    | Die
    | Startup(now: int)

  function SetStatus(runs: map<RunId, Run>, run: RunId, status: Status): map<RunId, Run>
    requires run in runs
  {
    runs[run := runs[run].(status := status)]
  }

  function NewRun(papers: seq<PaperId>, mode: Mode, fromStage: Option<string>): Run
  {
    Run(papers, mode, fromStage, Queued, None, None, None)
  }

  function Finished(r: Run, ending: Ending): Run
  {
    r.(status := ending.status, result := ending.result, error := ending.error, finishedAt := Some(ending.finishedAt))
  }

  const PROCESS_STOPPED := "Process stopped while the run was still active"

  /** An interrupted run keeps what its result column held. */
  function Interrupt(r: Run, now: int): Run
  {
    r.(status := Interrupted, error := Some(PROCESS_STOPPED), finishedAt := Some(now))
  }

  function InterruptAll(runs: map<RunId, Run>, now: int): map<RunId, Run>
  {
    map run <- runs :: if Active(runs[run].status) then Interrupt(runs[run], now) else runs[run]
  }

  /** Creation under the service lock, execution by whoever claims, interruption only at startup. */
  predicate Enabled(s: System, a: Action)
  {
    match a
    case Create(run, papers, _, _) => run !in s.runs && Free(s.runs, papers)
    case Claim(run) => run in s.runs && s.runs[run].status == Queued
    case Finish(run, ending) => run in s.executing && run in s.runs && !Active(ending.status)
    case Die => true
    case Startup(_) => s.executing == {}
  }

  function Next(s: System, a: Action): System
    requires Enabled(s, a)
  {
    match a
    case Create(run, papers, mode, fromStage) => s.(runs := s.runs[run := NewRun(papers, mode, fromStage)])
    case Claim(run) => System(SetStatus(s.runs, run, Running), s.executing + {run})
    case Finish(run, ending) => System(s.runs[run := Finished(s.runs[run], ending)], s.executing - {run})
    case Die => s.(executing := {})
    case Startup(now) => s.(runs := InterruptAll(s.runs, now))
  }

  /* ----- invariant ----- */

  /** No paper belongs to two active runs. */
  ghost predicate Exclusive(runs: map<RunId, Run>)
  {
    forall a <- runs.Keys :: forall b <- runs.Keys ::
      a != b && Active(runs[a].status) && Active(runs[b].status) ==> !Overlap(runs[a].papers, runs[b].papers)
  }

  ghost predicate Inv(s: System)
  {
    && Exclusive(s.runs)
    && (forall run <- s.executing :: run in s.runs && s.runs[run].status == Running)
  }

  lemma OverlapSymmetric(a: seq<PaperId>, b: seq<PaperId>)
    ensures Overlap(a, b) <==> Overlap(b, a)
  {
    if paper :| paper in a && paper in b {
      assert Overlap(b, a);
    }
    if paper :| paper in b && paper in a {
      assert Overlap(a, b);
    }
  }

  lemma CreateKeepsExclusive(runs: map<RunId, Run>, run: RunId, created: Run)
    requires Exclusive(runs) && run !in runs && Free(runs, created.papers)
    ensures Exclusive(runs[run := created])
  {
    hide Overlap;
    forall other <- runs.Keys ensures Overlap(created.papers, runs[other].papers) <==> Overlap(runs[other].papers, created.papers) {
      OverlapSymmetric(created.papers, runs[other].papers);
      assert !Conflicts(runs, other, created.papers);
    }
  }

  lemma StepKeepsInv(s: System, a: Action)
    requires Inv(s) && Enabled(s, a)
    ensures Inv(Next(s, a))
  {
    hide Overlap, Free;
    match a {
      case Create(run, papers, mode, fromStage) =>
        CreateKeepsExclusive(s.runs, run, NewRun(papers, mode, fromStage));
      case _ =>
    }
  }

  /** Runs are never removed or given other papers, never go back in status and never leave a final one. */
  ghost predicate Evolves(s: map<RunId, Run>, s': map<RunId, Run>)
  {
    forall run <- s.Keys ::
      && run in s'
      && s'[run].papers == s[run].papers
      && (s'[run].status == Queued ==> s[run].status == Queued)
      && (!Active(s[run].status) ==> s'[run] == s[run])
  }

  lemma StepEvolves(s: System, a: Action)
    requires Inv(s) && Enabled(s, a)
    ensures Evolves(s.runs, Next(s, a).runs)
  {
    hide Overlap, Free, Exclusive;
  }

  lemma EvolvesTwice(a: map<RunId, Run>, b: map<RunId, Run>, c: map<RunId, Run>)
    requires Evolves(a, b) && Evolves(b, c)
    ensures Evolves(a, c)
  {
  }

  /* ----- runs of the whole system ----- */

  ghost predicate Behavior(states: seq<System>, actions: seq<Action>)
  {
    && |states| == |actions| + 1
    && states[0] == START
    && forall i :: 0 <= i < |actions| ==> StepAt(states, actions, i)
  }

  ghost predicate StepAt(states: seq<System>, actions: seq<Action>, i: nat)
    requires i < |actions| && |states| == |actions| + 1
  {
    Enabled(states[i], actions[i]) && states[i + 1] == Next(states[i], actions[i])
  }

  lemma {:induction false} ReachableInv(states: seq<System>, actions: seq<Action>, i: nat)
    requires Behavior(states, actions) && i < |states|
    ensures Inv(states[i])
  {
    if i > 0 {
      hide Inv, Next, Enabled;
      ReachableInv(states, actions, i - 1);
      assert StepAt(states, actions, i - 1);
      StepKeepsInv(states[i - 1], actions[i - 1]);
    }
  }

  /** In every reachable state a paper belongs to one active run at most, and is worked on by one executor at most. */
  lemma PapersAreExclusive(states: seq<System>, actions: seq<Action>, i: nat, a: RunId, b: RunId, paper: PaperId)
    requires Behavior(states, actions) && i < |states|
    requires a in states[i].runs && b in states[i].runs
    requires paper in states[i].runs[a].papers && paper in states[i].runs[b].papers
    requires (Active(states[i].runs[a].status) && Active(states[i].runs[b].status))
          || (a in states[i].executing && b in states[i].executing)
    ensures a == b
  {
    ReachableInv(states, actions, i);
    assert Overlap(states[i].runs[a].papers, states[i].runs[b].papers);
  }

  /** Finished runs stay as they are, and no run is queued again. */
  lemma {:induction false} FinishedForever(states: seq<System>, actions: seq<Action>, i: nat, j: nat)
    requires Behavior(states, actions) && i <= j < |states|
    ensures Evolves(states[i].runs, states[j].runs)
    decreases j - i
  {
    if i < j {
      hide Inv, Next, Enabled, Evolves;
      FinishedForever(states, actions, i, j - 1);
      ReachableInv(states, actions, j - 1);
      assert StepAt(states, actions, j - 1);
      StepEvolves(states[j - 1], actions[j - 1]);
      EvolvesTwice(states[i].runs, states[j - 1].runs, states[j].runs);
    }
  }

  /** No run is claimed twice, in whatever process. */
  lemma ClaimedOnce(states: seq<System>, actions: seq<Action>, i: nat, j: nat, run: RunId)
    requires Behavior(states, actions) && i < |actions| && j < |actions|
    requires actions[i] == Claim(run) && actions[j] == Claim(run)
    ensures i == j
  {
    assert StepAt(states, actions, i) && StepAt(states, actions, j);
    if i < j {
      FinishedForever(states, actions, i + 1, j);
    } else if j < i {
      FinishedForever(states, actions, j + 1, i);
    }
  }

  /** A startup leaves no run active, whatever the process before it left behind, and touches no finished run. */
  lemma StartupLeavesNothingActive(s: System, now: int, run: RunId)
    requires Enabled(s, Startup(now)) && run in s.runs
    ensures
      var after := Next(s, Startup(now)).runs;
      && run in after
      && !Active(after[run].status)
      && (if Active(s.runs[run].status) then after[run].status == Interrupted && after[run].finishedAt == Some(now)
          else after[run] == s.runs[run])
  {
  }

  /* ----- what the discipline is needed for ----- */

  /**
   * Two creations that both check the table before either is stored, as two services with a lock
   * each could: exclusiveness survives exactly when they do not share a paper.
   */
  lemma UnlockedCreationIff(runs: map<RunId, Run>, a: RunId, b: RunId, first: Run, second: Run)
    requires Exclusive(runs) && a !in runs && b !in runs && a != b
    requires first.status == Queued && second.status == Queued
    requires Free(runs, first.papers) && Free(runs, second.papers)
    ensures Exclusive(runs[a := first][b := second]) <==> !Overlap(first.papers, second.papers)
  {
    hide Overlap;
    var after := runs[a := first][b := second];
    OverlapSymmetric(first.papers, second.papers);
    if Overlap(first.papers, second.papers) {
      assert a in after && b in after && after[a] == first && after[b] == second;
    } else {
      CreateKeepsExclusive(runs, a, first);
      assert Free(runs[a := first], second.papers) by {
        assert forall run <- runs.Keys :: !Conflicts(runs, run, second.papers);
      }
      CreateKeepsExclusive(runs[a := first], b, second);
    }
  }

  /**
   * `finish_run` does not look at the status: it keeps finished runs as they are exactly when it
   * is given an active one, or would write what the finished row already holds.
   */
  lemma FinishKeepsFinishedIff(runs: map<RunId, Run>, run: RunId, ending: Ending)
    requires run in runs && !Active(ending.status)
    ensures Evolves(runs, runs[run := Finished(runs[run], ending)]) <==>
      || Active(runs[run].status)
      || (&& runs[run].status == ending.status
          && runs[run].result == ending.result
          && runs[run].error == ending.error
          && runs[run].finishedAt == Some(ending.finishedAt))
  {
    var after := runs[run := Finished(runs[run], ending)];
    if !Active(runs[run].status) && Finished(runs[run], ending) != runs[run] {
      assert run in runs.Keys && after[run] != runs[run];
    }
  }

  /** Finishing a completed run again with another result changes the finished row. */
  lemma FinishedAgainExample(papers: seq<PaperId>, first: string, second: string)
    requires first != second
    ensures
      var done := Finished(NewRun(papers, Continue, None), Ending(Completed, Some(first), None, 1));
      var runs := map[0 := done];
      !Evolves(runs, runs[0 := Finished(done, Ending(Completed, Some(second), None, 2))])
  {
    var done := Finished(NewRun(papers, Continue, None), Ending(Completed, Some(first), None, 1));
    FinishKeepsFinishedIff(map[0 := done], 0, Ending(Completed, Some(second), None, 2));
  }

  /* ----- the service ----- */

  datatype Error =
    | StageWithoutRebuild
    | UnknownStage(stage: string)
    | UnknownPapers(missing: seq<PaperId>)
    | Conflict(run: RunId, overlapping: set<PaperId>)
    | RunNotFound
    | NotQueued(status: Status)

  function Missing(papers: seq<PaperId>, known: set<PaperId>): (r: seq<PaperId>)
    ensures forall paper :: paper in r <==> paper in papers && paper !in known
  {
    if papers == [] then []
    else
      assert papers == papers[..|papers| - 1] + [papers[|papers| - 1]];
      Missing(papers[..|papers| - 1], known)
      + if papers[|papers| - 1] in known then [] else [papers[|papers| - 1]]
  }

  class ProcessingService {
    var runs: map<RunId, Run>
    var executing: set<RunId>
    var nextRun: RunId

    function State(): System
      reads this
    {
      System(runs, executing)
    }

    ghost predicate Valid()
      reads this
    {
      Inv(State()) && forall run <- runs.Keys :: run < nextRun
    }

    constructor ()
      ensures Valid() && State() == START
    {
      runs, executing, nextRun := map[], {}, 0;
    }

    /** `find_active_run_for_papers`, over the rows in whatever order the query gives them. */
    method FindActiveRunForPapers(papers: seq<PaperId>) returns (found: Option<RunId>)
      ensures found.None? <==> Free(runs, papers)
      ensures found.Some? ==> Conflicts(runs, found.value, papers)
    {
      if papers == [] {
        return None;
      }
      var rows := runs.Keys;
      while rows != {}
        invariant rows <= runs.Keys
        invariant forall run <- runs.Keys - rows :: !Conflicts(runs, run, papers)
        decreases |rows|
      {
        var run :| run in rows;
        if Conflicts(runs, run, papers) {
          return Some(run);
        }
        rows := rows - {run};
      }
      return None;
    }

    /** `start_update`; the check and the creation hold the service lock together. */
    method StartUpdate(paperIds: seq<PaperId>, mode: Mode, fromStage: Option<string>, known: set<PaperId>)
      returns (r: Result<RunId, Error>)
      requires Valid()
      modifies this
      ensures Valid()
      ensures r.Err? ==> State() == old(State())
      ensures r.Ok? ==>
        var action := Create(r.value, Dedup(paperIds), mode, fromStage);
        Enabled(old(State()), action) && State() == Next(old(State()), action)
      ensures r.Ok? <==>
        && (fromStage.Some? ==> mode == Rebuild && fromStage.value in UpdatePipeline.REBUILD_STAGES)
        && (forall paper <- paperIds :: paper in known)
        && Free(old(runs), Dedup(paperIds))
      ensures r.Err? && r.error.Conflict? ==>
        && Conflicts(runs, r.error.run, Dedup(paperIds))
        && forall paper :: paper in r.error.overlapping <==> paper in paperIds && paper in runs[r.error.run].papers
    {
      hide Overlap, Exclusive;
      if fromStage.Some? && mode != Rebuild {
        return Err(StageWithoutRebuild);
      }
      if fromStage.Some? && fromStage.value !in UpdatePipeline.REBUILD_STAGES {
        return Err(UnknownStage(fromStage.value));
      }
      var selected := Dedup(paperIds);
      var missing := Missing(selected, known);
      if missing != [] {
        assert missing[0] in missing;
        return Err(UnknownPapers(missing));
      }
      assert forall paper <- selected :: paper in known || paper in missing;
      var conflict := FindActiveRunForPapers(selected);
      if conflict.Some? {
        return Err(Conflict(conflict.value, set paper <- selected | paper in runs[conflict.value].papers));
      }
      var run := CreateRun(selected, mode, fromStage);
      return Ok(run);
    }

    /** `create_run`, for papers that no active run has. */
    method CreateRun(papers: seq<PaperId>, mode: Mode, fromStage: Option<string>) returns (run: RunId)
      requires Valid() && Free(runs, papers)
      modifies this
      ensures Valid()
      ensures
        var action := Create(run, papers, mode, fromStage);
        Enabled(old(State()), action) && State() == Next(old(State()), action)
    {
      StepKeepsInv(State(), Create(nextRun, papers, mode, fromStage));
      hide Overlap, Exclusive;
      runs := runs[nextRun := NewRun(papers, mode, fromStage)];
      nextRun := nextRun + 1;
      return nextRun - 1;
    }

    /** `claim_run`. */
    method ClaimRun(run: RunId) returns (claimed: bool)
      requires Valid()
      modifies this`runs, this`executing
      ensures Valid()
      ensures claimed <==> Enabled(old(State()), Claim(run))
      ensures State() == if claimed then Next(old(State()), Claim(run)) else old(State())
    {
      if run !in runs || runs[run].status != Queued {
        return false;
      }
      StepKeepsInv(State(), Claim(run));
      hide Inv;
      runs := SetStatus(runs, run, Running);
      executing := executing + {run};
      return true;
    }

    /** `finish_run`, by the executor of the run. */
    method FinishRun(run: RunId, ending: Ending)
      requires Valid() && run in executing && !Active(ending.status)
      modifies this`runs, this`executing
      ensures Valid() && Enabled(old(State()), Finish(run, ending)) && State() == Next(old(State()), Finish(run, ending))
    {
      StepKeepsInv(State(), Finish(run, ending));
      hide Exclusive;
      runs := runs[run := Finished(runs[run], ending)];
      executing := executing - {run};
    }

    /** What the other threads of the process do while one executes a run; they leave that run to it. */
    method OtherThreads(run: RunId)
      requires Valid() && run in executing
      modifies this
      ensures Valid() && Evolves(old(runs), runs)
      ensures run in executing && run in old(runs) && run in runs && runs[run] == old(runs)[run]
    {
      var runs': map<RunId, Run> := *;
      var executing': set<RunId> := *;
      var nextRun': int := *;
      if nextRun' >= 0 && MayBecome(run, runs', executing', nextRun') {
        runs, executing, nextRun := runs', executing', nextRun';
      }
    }

    predicate MayBecome(run: RunId, runs': map<RunId, Run>, executing': set<RunId>, nextRun': nat)
      reads this
    {
      && run in runs && run in runs' && run in executing' && runs'[run] == runs[run]
      && (forall a <- runs'.Keys :: forall b <- runs'.Keys ::
            a != b && Active(runs'[a].status) && Active(runs'[b].status) ==> !Overlap(runs'[a].papers, runs'[b].papers))
      && (forall other <- executing' :: other in runs' && runs'[other].status == Running)
      && (forall other <- runs'.Keys :: other < nextRun')
      && (forall other <- runs.Keys ::
            && other in runs'
            && runs'[other].papers == runs[other].papers
            && (runs'[other].status == Queued ==> runs[other].status == Queued)
            && (!Active(runs[other].status) ==> runs'[other] == runs[other]))
    }

    /**
     * `execute_run`: the update of the papers ends well and leaves a result, or with an error, or
     * with an interrupt from the keyboard.
     */
    method ExecuteRun(run: RunId) returns (r: Result<Ending, Error>)
      requires Valid()
      modifies this
      ensures Valid() && Evolves(old(runs), runs)
      ensures r.Ok? <==> run in old(runs) && old(runs)[run].status == Queued
      ensures r.Ok? ==>
        && run in runs && runs[run] == Finished(old(runs)[run], r.value)
        && match r.value.status
           case Completed => r.value.result.Some? && r.value.error.None?
           case Failed => r.value.result.None? && r.value.error.Some?
           case Interrupted => r.value.result.None? && r.value.error.Some?
           case _ => false
      ensures r.Err? ==> State() == old(State())
      ensures r == Err(RunNotFound) <==> run !in old(runs)
    {
      hide Inv, Evolves;
      if run !in runs {
        EvolvesItself(runs);
        return Err(RunNotFound);
      }
      var status := runs[run].status;
      ghost var before := State();
      var claimed := ClaimRun(run);
      if !claimed {
        EvolvesItself(runs);
        return Err(NotQueued(status));
      }
      StepEvolves(before, Claim(run));
      ghost var claimedRuns := runs;
      OtherThreads(run);
      EvolvesTwice(before.runs, claimedRuns, runs);
      var ending := UpdateTheirPapers();
      ghost var worked := State();
      FinishRun(run, ending);
      StepEvolves(worked, Finish(run, ending));
      EvolvesTwice(before.runs, worked.runs, runs);
      return Ok(ending);
    }

    /** How the call of `update_papers` ends, and what is recorded of it. */
    method UpdateTheirPapers() returns (ending: Ending)
      ensures match ending.status
        case Completed => ending.result.Some? && ending.error.None?
        case Failed => ending.result.None? && ending.error.Some?
        case Interrupted => ending.result.None? && ending.error.Some?
        case _ => false
    {
      var text: string := *;
      var now: int := *;
      if * {
        return Ending(Completed, Some(text), None, now);
      } else if * {
        return Ending(Failed, None, Some(text), now);
      }
      return Ending(Interrupted, None, Some("Interrupted while running"), now);
    }

    /** The process ends, however it does; its threads are gone. */
    method Stop()
      requires Valid()
      modifies this`executing
      ensures Valid() && State() == Next(old(State()), Die)
    {
      StepKeepsInv(State(), Die);
      executing := {};
    }

    /** `interrupt_active_runs`, at startup. */
    method InterruptActiveRuns(now: int) returns (interrupted: set<RunId>)
      requires Valid() && executing == {}
      modifies this`runs
      ensures Valid() && State() == Next(old(State()), Startup(now))
      ensures interrupted == set run <- old(runs).Keys | Active(old(runs)[run].status)
      ensures forall run <- runs.Keys :: !Active(runs[run].status)
    {
      StepKeepsInv(State(), Startup(now));
      hide Exclusive;
      interrupted := set run <- runs.Keys | Active(runs[run].status);
      runs := InterruptAll(runs, now);
    }
  }

  lemma EvolvesItself(runs: map<RunId, Run>)
    ensures Evolves(runs, runs)
  {
  }
}
