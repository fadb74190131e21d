/**
 * The service that executes generation runs. It calls the repository functions one transaction
 * at a time while the other threads of the process do the same, and may die between any two.
 * Every transaction it makes is shown to be a step that the protocol allows.
 */
module GenerationService {
  import opened Seqs
  import opened GenerationTables
  import opened GenerationProtocol
  import opened GenerationStore

  /**
   * How the execution of a run ends: refused without a trace, given up after the run was
   * started, ended with a product or with a failure on record, or cut off by the death of the
   * process.
   */
  datatype Ending = Refused | GaveUp | Ended(succeeded: bool) | Died

  /** The run that a step is about; crashes and recovery are about none. */
  function RunOf(a: Action): Option<RunId>
  {
    match a
    case Crash => None
    case Boot => None
    case RecoverReports => None
    case RecoverRuns => None
    case SubmitTurn(run, _, _, _, _) => Some(run)
    case SubmitSynthesis(run, _) => Some(run)
    case SubmitReport(run, _, _, _) => Some(run)
    case ClaimNext(run) => Some(run)
    case Begin(run) => Some(run)
    case BeginReport(run, _) => Some(run)
    case SaveAnswer(run, _, _, _, _) => Some(run)
    case FailAnswer(run, _) => Some(run)
    case EndSynthesis(run, _) => Some(run)
    case SaveReport(run, _, _) => Some(run)
    case AbortReport(run, _) => Some(run)
    case Abandon(run) => Some(run)
  }

  /** The steps about a run, from position `start` on. */
  function StepsSince(actions: seq<Action>, start: nat, run: RunId): seq<Action>
  {
    if |actions| <= start then []
    else
      StepsSince(actions[..|actions| - 1], start, run)
      + if RunOf(actions[|actions| - 1]) == Some(run) then [actions[|actions| - 1]] else []
  }

  lemma StepsSinceNext(actions: seq<Action>, start: nat, run: RunId, a: Action)
    requires start <= |actions|
    ensures StepsSince(actions + [a], start, run) ==
      StepsSince(actions, start, run) + if RunOf(a) == Some(run) then [a] else []
  {
    assert (actions + [a])[..|actions|] == actions;
  }

  lemma BehaviorGrows(states: seq<System>, actions: seq<Action>, a: Action)
    requires Behavior(states, actions) && Enabled(states[|actions|], a)
    ensures Behavior(states + [Next(states[|actions|], a)], actions + [a])
  {
    hide Enabled, Next;
    var states', actions' := states + [Next(states[|actions|], a)], actions + [a];
    forall i | 0 <= i < |actions'| ensures StepAt(states', actions', i) {
      if i < |actions| {
        assert StepAt(states, actions, i);
      }
    }
  }

  /** A run being executed keeps its row, its owner, its answer and its report. */
  ghost predicate RunKept(s: System, s': System, run: RunId)
  {
    && s.process.Up? && s'.process.Up?
    && run in s.process.owned && run in s'.process.owned && s'.process.owned[run] == s.process.owned[run]
    && run in s.tables.runs && run in s'.tables.runs && s'.tables.runs[run] == s.tables.runs[run]
    && (forall m :: AnswerOf(s.tables, run, m) ==> m in s'.tables.messages && s'.tables.messages[m] == s.tables.messages[m])
    && (forall p :: ReportOf(s.tables, run, p) ==> p in s'.tables.reports && s'.tables.reports[p] == s.tables.reports[p])
  }

  lemma RunKeptTwice(s: System, s': System, s'': System, run: RunId)
    requires RunKept(s, s', run) && RunKept(s', s'', run)
    ensures RunKept(s, s'', run)
  {
  }

  /** A step of another run leaves this one alone. */
  lemma OtherRunsStep(s: System, a: Action, run: RunId)
    requires Enabled(s, a) && s.process.Up? && run in s.process.owned && run in s.tables.runs
    requires RunOf(a).Some? && RunOf(a) != Some(run)
    ensures RunKept(s, Next(s, a), run)
  {
  }

  class Dispatcher {
    const database: Database
    /** Which runs the executors of this process are working on. */
    var process: Process
    ghost var states: seq<System>
    ghost var actions: seq<Action>

    function Now(): System
      reads this, database
    {
      System(database.State(), process)
    }

    /** What happened so far is a behavior of the protocol, and it has led to the present tables. */
    ghost predicate Valid()
      reads this, database
    {
      Behavior(states, actions) && states[|actions|] == Now()
    }

    constructor ()
      ensures Valid() && fresh(database) && actions == [] && process.Down?
    {
      database := new Database();
      process, states, actions := Down, [START], [];
    }

    /** The transaction just made was the step `a` of the protocol. */
    method Took(before: System, a: Action)
      requires Behavior(states, actions) && states[|actions|] == before && before.process == process
      requires Enabled(before, a) && database.State() == Next(before, a).tables
      modifies this
      ensures Valid() && Now() == Next(before, a)
      ensures actions == old(actions) + [a] && states == old(states) + [Now()]
    {
      BehaviorGrows(states, actions, a);
      hide Enabled, Behavior;
      process := Next(before, a).process;
      states, actions := states + [Now()], actions + [a];
    }

    /**
     * The other threads of the process at work: they submit, claim and execute other runs, or
     * the process dies.
     */
    method OtherThreads(run: RunId, ghost start: nat) returns (died: bool)
      requires Valid() && process.Up? && run in process.owned && start <= |actions|
      modifies this, database
      ensures Valid() && old(states) <= states && old(actions) <= actions
      ensures StepsSince(actions, start, run) == StepsSince(old(actions), start, run)
      ensures if died then process.Down? else RunKept(old(Now()), Now(), run)
    {
      var count: int := *;
      OwnedRunExists(run);
      for i := 0 to if count > 0 then count else 0
        invariant Valid() && old(states) <= states && old(actions) <= actions
        invariant StepsSince(actions, start, run) == StepsSince(old(actions), start, run)
        invariant RunKept(old(Now()), Now(), run)
      {
        var a: Action := *;
        if RunOf(a).Some? && RunOf(a) != Some(run) && Enabled(Now(), a) {
          ghost var was := Now();
          StepsSinceNext(actions, start, run, a);
          OtherRunsStep(was, a, run);
          Step(a);
          hide *;
          RunKeptTwice(old(Now()), was, Now(), run);
        }
      }
      if * {
        StepsSinceNext(actions, start, run, Crash);
        Step(Crash);
        return true;
      }
      return false;
    }

    /** Some thread takes a step of the protocol. */
    method Step(a: Action)
      requires Valid() && Enabled(Now(), a)
      modifies this, database
      ensures Valid() && Now() == Next(old(Now()), a)
      ensures actions == old(actions) + [a] && states == old(states) + [Now()]
    {
      var before := Now();
      var tables := Next(before, a).tables;
      database.runs, database.messages := tables.runs, tables.messages;
      database.qaRecords, database.reports := tables.qaRecords, tables.reports;
      Took(before, a);
    }

    /** Nobody else is executing the run: the one discipline that the service relies on. */
    predicate Executable(run: RunId)
      reads this
    {
      process.Up? && (run in process.owned ==> process.owned[run] == Claimed)
    }

    /** `start_generation_run`, by the executor of the run; an ended or missing run is left alone. */
    method Start(run: RunId, ghost start: nat) returns (started: bool)
      requires Valid() && Executable(run) && start <= |actions|
      modifies this, database
      ensures Valid() && old(states) <= states && old(actions) <= actions
      ensures started <==> run in old(database.runs) && Active(old(database.runs)[run].status)
      ensures StepsSince(actions, start, run) ==
        StepsSince(old(actions), start, run) + if started then [Begin(run)] else []
      ensures started ==>
        && process.Up? && run in process.owned && process.owned[run] == Started
        && run in database.runs && database.runs[run] == old(database.runs)[run].(status := Running)
      ensures !started ==> Now() == old(Now())
    {
      var before := Now();
      var found := database.StartGenerationRun(run);
      if !found || database.runs[run].status != Running {
        return false;
      }
      StepsSinceNext(actions, start, run, Begin(run));
      Took(before, Begin(run));
      return true;
    }

    /** The executor of a run gives up; the run stays as it is until the process starts again. */
    method GiveUp(run: RunId, ghost start: nat)
      requires Valid() && process.Up? && run in process.owned && start <= |actions|
      modifies this, database
      ensures Valid() && old(states) <= states && old(actions) <= actions
      ensures StepsSince(actions, start, run) == StepsSince(old(actions), start, run) + [Abandon(run)]
      ensures database.State() == old(database.State()) && run in database.runs && database.runs[run].status == Running
    {
      OwnedRunExists(run);
      StepsSinceNext(actions, start, run, Abandon(run));
      Step(Abandon(run));
    }

    /** What `execute_turn` has done to the run, its answer and its record. */
    ghost predicate TurnExecuted(run: RunId, start: nat, ending: Ending)
      reads this, database
    {
      var steps, t := StepsSince(actions, start, run), database.State();
      match ending
      case Refused => steps == []
      case GaveUp => steps == [Begin(run), Abandon(run)] && run in t.runs && t.runs[run].status == Running
      case Ended(true) =>
        && |steps| == 2 && steps[0] == Begin(run) && steps[1].SaveAnswer? && steps[1].run == run
        && var SaveAnswer(_, question, answer, qa, text) := steps[1];
        && run in t.runs && t.runs[run].status == Completed && t.runs[run].qaRecord == Some(qa)
        && answer in t.messages && t.messages[answer] == Message(text, MessageCompleted, Some(run))
        && qa in t.qaRecords && t.qaRecords[qa] == QaRecord(question, answer, text)
      case Ended(false) =>
        && |steps| == 2 && steps[0] == Begin(run) && steps[1].FailAnswer? && steps[1].run == run
        && run in t.runs && t.runs[run].status == Failed
        && AnswerOf(t, run, steps[1].answer) && t.messages[steps[1].answer].status == MessageFailed
      case Died => process.Down? && steps == [Begin(run)]
    }

    /** `execute_turn`. */
    method ExecuteTurn(run: RunId) returns (ending: Ending)
      requires Valid() && Executable(run)
      modifies this, database
      ensures Valid() && old(states) <= states && old(actions) <= actions
      ensures ending == Refused <==> run !in old(database.runs) || !Active(old(database.runs)[run].status)
      ensures ending == Refused ==> Now() == old(Now())
      ensures TurnExecuted(run, |old(actions)|, ending)
    {
      hide Valid, Enabled, Next, Behavior;
      ghost var start := |actions|;
      var started := Start(run, start);
      if !started {
        return Refused;
      }
      var died := OtherThreads(run, start);
      if died {
        return Died;
      }
      var answer := database.GetMessageByRun(run);
      // a run of another kind, or a conversation, question or snapshot that is not there
      var inputsFound: bool := *;
      if database.runs[run].kind != Answer || answer.None? || !inputsFound {
        GiveUp(run, start);
        return GaveUp;
      }
      ending := RunTurn(run, answer.value, start);
    }

    /** `_run_turn`: the answer is generated, or reused, or neither, beside the other threads. */
    method RunTurn(run: RunId, answer: MessageId, ghost start: nat) returns (ending: Ending)
      requires Valid() && start <= |actions|
      requires Owns(Now(), run, Answer, Started) && AnswerOf(database.State(), run, answer)
      requires StepsSince(actions, start, run) == [Begin(run)]
      modifies this, database
      ensures Valid() && old(states) <= states && old(actions) <= actions
      ensures ending != Refused && TurnExecuted(run, start, ending)
    {
      hide Valid, Enabled, Next, Behavior;
      var died := OtherThreads(run, start);
      if died {
        return Died;
      }
      if * {
        GiveUp(run, start);
        return GaveUp;
      }
      var saved := EndTurn(run, answer, start);
      return Ended(saved);
    }

    /** The last transaction of `execute_turn`. */
    method EndTurn(run: RunId, answer: MessageId, ghost start: nat) returns (saved: bool)
      requires Valid() && start <= |actions|
      requires Owns(Now(), run, Answer, Started) && AnswerOf(database.State(), run, answer)
      requires StepsSince(actions, start, run) == [Begin(run)]
      modifies this, database
      ensures Valid() && old(states) <= states && old(actions) <= actions
      ensures TurnExecuted(run, start, Ended(saved))
    {
      var before := Now();
      var question: MessageId, qa: QaId, text: string := *, *, *;
      if * {
        // the identifiers of new records are unused ones
        if qa !in database.qaRecords {
          saved := database.SaveQaTurn(run, question, answer, qa, text);
          if saved {
            StepsSinceNext(actions, start, run, SaveAnswer(run, question, answer, qa, text));
            Took(before, SaveAnswer(run, question, answer, qa, text));
            return true;
          }
        }
      }
      database.FailTurnRows(run, answer);
      StepsSinceNext(actions, start, run, FailAnswer(run, answer));
      Took(before, FailAnswer(run, answer));
      return false;
    }

    /** What `execute_synthesis_run` has done to the run. */
    ghost predicate SynthesisExecuted(run: RunId, start: nat, ending: Ending)
      reads this, database
    {
      var steps, t := StepsSince(actions, start, run), database.State();
      match ending
      case Refused => steps == []
      case GaveUp => steps == [Begin(run), Abandon(run)] && run in t.runs && t.runs[run].status == Running
      case Ended(succeeded) =>
        && steps == [Begin(run), EndSynthesis(run, succeeded)]
        && run in t.runs && t.runs[run].status == if succeeded then Completed else Failed
      case Died => process.Down? && steps == [Begin(run)]
    }

    /** `execute_synthesis_run`, which does not look at the status of a run that is there. */
    method ExecuteSynthesisRun(run: RunId) returns (ending: Ending)
      requires Valid() && Executable(run)
      requires run in database.runs ==> Active(database.runs[run].status)
      modifies this, database
      ensures Valid() && old(states) <= states && old(actions) <= actions
      ensures ending == Refused <==> run !in old(database.runs)
      ensures ending == Refused ==> Now() == old(Now())
      ensures SynthesisExecuted(run, |old(actions)|, ending)
    {
      hide Valid, Enabled, Next, Behavior;
      ghost var start := |actions|;
      var started := Start(run, start);
      if !started {
        return Refused;
      }
      var inputsFound: bool := *;
      if database.runs[run].kind != CollectionSynthesis || !inputsFound {
        GiveUp(run, start);
        return GaveUp;
      }
      var died := OtherThreads(run, start);
      if died {
        return Died;
      }
      if * {
        GiveUp(run, start);
        return GaveUp;
      }
      var succeeded: bool := *;
      EndSynthesisRun(run, succeeded, start);
      return Ended(succeeded);
    }

    /** The last transaction of `execute_synthesis_run`. */
    method EndSynthesisRun(run: RunId, succeeded: bool, ghost start: nat)
      requires Valid() && start <= |actions|
      requires Owns(Now(), run, CollectionSynthesis, Started)
      requires StepsSince(actions, start, run) == [Begin(run)]
      modifies this, database
      ensures Valid() && old(states) <= states && old(actions) <= actions
      ensures SynthesisExecuted(run, start, Ended(succeeded))
    {
      var before := Now();
      StepsSinceNext(actions, start, run, EndSynthesis(run, succeeded));
      database.FinishSynthesisRun(run, succeeded);
      Took(before, EndSynthesis(run, succeeded));
    }

    /** What `execute_report` has done to the run and its report. */
    ghost predicate ReportExecuted(run: RunId, start: nat, ending: Ending)
      reads this, database
    {
      var steps, t := StepsSince(actions, start, run), database.State();
      match ending
      case Refused => steps == []
      case GaveUp =>
        && (steps == [Begin(run), Abandon(run)]
            || (|steps| == 3 && steps[1].BeginReport? && steps == [Begin(run), BeginReport(run, steps[1].report), Abandon(run)]))
        && run in t.runs && t.runs[run].status == Running
      case Ended(succeeded) =>
        && |steps| == 3 && steps[1].BeginReport?
        && var report := steps[1].report;
        && steps[..2] == [Begin(run), BeginReport(run, report)]
        && run in t.runs && t.runs[run].status == (if succeeded then Completed else Failed)
        && ReportOf(t, run, report)
        && t.reports[report].status == (if succeeded then ReportCompleted else ReportFailed)
        && (if succeeded then steps[2] == SaveReport(run, report, t.reports[report].title)
            else steps[2] == AbortReport(run, report))
      case Died => process.Down? && steps != [] && steps[0] == Begin(run) && forall step <- steps[1..] :: step.BeginReport?
    }

    /** `execute_report`, which does not look at the status of a run that is there. */
    method ExecuteReport(run: RunId) returns (ending: Ending)
      requires Valid() && Executable(run)
      requires run in database.runs ==> Active(database.runs[run].status)
      modifies this, database
      ensures Valid() && old(states) <= states && old(actions) <= actions
      ensures ending == Refused <==> run !in old(database.runs)
      ensures ending == Refused ==> Now() == old(Now())
      ensures ReportExecuted(run, |old(actions)|, ending)
    {
      hide Valid, Enabled, Next, Behavior;
      ghost var start := |actions|;
      var started := Start(run, start);
      if !started {
        return Refused;
      }
      var died := OtherThreads(run, start);
      if died {
        return Died;
      }
      var report := database.GetReportByRun(run);
      if database.runs[run].kind != Report || report.None? {
        GiveUp(run, start);
        return GaveUp;
      }
      BeginWriting(run, report.value, start);
      ending := WriteUp(run, report.value, start);
    }

    /** `start_report`, by the executor of its run. */
    method BeginWriting(run: RunId, report: ReportId, ghost start: nat)
      requires Valid() && start <= |actions|
      requires Owns(Now(), run, Report, Started) && ReportOf(database.State(), run, report)
      modifies this, database
      ensures Valid() && old(states) <= states && old(actions) <= actions
      ensures Owns(Now(), run, Report, Working) && ReportOf(database.State(), run, report)
      ensures StepsSince(actions, start, run) == StepsSince(old(actions), start, run) + [BeginReport(run, report)]
    {
      var before := Now();
      StepsSinceNext(actions, start, run, BeginReport(run, report));
      database.StartReportRow(report);
      Took(before, BeginReport(run, report));
    }

    /** The report is generated, or is not, beside the other threads. */
    method WriteUp(run: RunId, report: ReportId, ghost start: nat) returns (ending: Ending)
      requires Valid() && start <= |actions|
      requires Owns(Now(), run, Report, Working) && ReportOf(database.State(), run, report)
      requires StepsSince(actions, start, run) == [Begin(run), BeginReport(run, report)]
      modifies this, database
      ensures Valid() && old(states) <= states && old(actions) <= actions
      ensures ending != Refused && ReportExecuted(run, start, ending)
    {
      hide Valid, Enabled, Next, Behavior;
      var died := OtherThreads(run, start);
      if died {
        return Died;
      }
      if * {
        GiveUp(run, start);
        return GaveUp;
      }
      var saved := EndReport(run, report, start);
      return Ended(saved);
    }

    /** The last transaction of `execute_report`. */
    method EndReport(run: RunId, report: ReportId, ghost start: nat) returns (saved: bool)
      requires Valid() && start <= |actions|
      requires Owns(Now(), run, Report, Working) && ReportOf(database.State(), run, report)
      requires StepsSince(actions, start, run) == [Begin(run), BeginReport(run, report)]
      modifies this, database
      ensures Valid() && old(states) <= states && old(actions) <= actions
      ensures ReportExecuted(run, start, Ended(saved))
    {
      var before := Now();
      if * {
        var title: string := *;
        saved := database.SaveReportCompletion(run, report, title);
        if saved {
          StepsSinceNext(actions, start, run, SaveReport(run, report, title));
          Took(before, SaveReport(run, report, title));
          return true;
        }
      }
      database.FailReportRows(report);
      StepsSinceNext(actions, start, run, AbortReport(run, report));
      Took(before, AbortReport(run, report));
      return false;
    }

    /** `GenerationRunDispatcher.execute_run`: by the kind of the run. */
    method ExecuteRun(run: RunId) returns (ending: Ending)
      requires Valid() && Executable(run)
      requires run in database.runs ==> Active(database.runs[run].status)
      modifies this, database
      ensures Valid() && old(states) <= states && old(actions) <= actions
      ensures TerminalKept(old(database.State()), database.State())
      ensures ending == Refused <==> run !in old(database.runs)
      ensures run in old(database.runs) ==>
        match old(database.runs)[run].kind
        case Answer => TurnExecuted(run, |old(actions)|, ending)
        case CollectionSynthesis => SynthesisExecuted(run, |old(actions)|, ending)
        case Report => ReportExecuted(run, |old(actions)|, ending)
    {
      ghost var start := |actions|;
      if run !in database.runs {
        EndedRowsKept(start);
        return Refused;
      }
      match database.runs[run].kind {
        case Answer => ending := ExecuteTurn(run);
        case CollectionSynthesis => ending := ExecuteSynthesisRun(run);
        case Report => ending := ExecuteReport(run);
      }
      EndedRowsKept(start);
    }

    lemma EndedRowsKept(start: nat)
      requires Valid() && start <= |actions|
      ensures TerminalKept(states[start].tables, database.State())
    {
      TerminalForever(states, actions, start, |actions|);
    }

    /** `claim_next_queued_run`, by the worker. */
    method Claim() returns (claimed: Option<RunId>)
      requires Valid() && process.Up?
      modifies this, database
      ensures Valid() && old(states) <= states
      ensures claimed.None? <==> forall r :: r in old(database.runs) ==> old(database.runs)[r].status != Queued
      ensures claimed.None? ==> Now() == old(Now()) && actions == old(actions)
      ensures claimed.Some? ==>
        && FirstInQueue(old(database.runs), claimed.value) && actions == old(actions) + [ClaimNext(claimed.value)]
        && Executable(claimed.value) && claimed.value in database.runs
        && database.runs[claimed.value] == old(database.runs)[claimed.value].(status := Running)
    {
      var before := Now();
      OwnedRunsRun();
      claimed := database.ClaimNextQueuedRun();
      if claimed.Some? {
        Took(before, ClaimNext(claimed.value));
      }
    }

    /**
     * One turn of the worker: the oldest queued run is claimed and executed. A claimed run is
     * one that nobody else executes, so it is never refused.
     */
    method Work() returns (claimed: Option<RunId>, ending: Ending)
      requires Valid() && process.Up?
      modifies this, database
      ensures Valid() && old(states) <= states && old(actions) <= actions
      ensures TerminalKept(old(database.State()), database.State())
      ensures claimed.None? <==> forall r :: r in old(database.runs) ==> old(database.runs)[r].status != Queued
      ensures claimed.None? ==> Now() == old(Now())
      ensures claimed.Some? ==>
        && FirstInQueue(old(database.runs), claimed.value) && ending != Refused
        && |actions| > |old(actions)| && actions[|old(actions)|] == ClaimNext(claimed.value)
        && match old(database.runs)[claimed.value].kind
           case Answer => TurnExecuted(claimed.value, |old(actions)| + 1, ending)
           case CollectionSynthesis => SynthesisExecuted(claimed.value, |old(actions)| + 1, ending)
           case Report => ReportExecuted(claimed.value, |old(actions)| + 1, ending)
    {
      ghost var start := |actions|;
      assert start < |states| && states[start] == Now();
      hide Valid, Enabled, Next, Behavior, TerminalKept, TurnExecuted, SynthesisExecuted, ReportExecuted, FirstInQueue;
      claimed := Claim();
      ending := Refused;
      if claimed.Some? {
        ending := ExecuteRun(claimed.value);
      }
      EndedRowsKept(start);
    }

    /** `create_turn_submission`; the identifiers are new ones. */
    method SubmitTurn(run: RunId, question: MessageId, answer: MessageId, text: string, now: nat)
      requires Valid() && process.Up? && run !in database.runs
      requires question !in database.messages && answer !in database.messages && question != answer
      modifies this, database
      ensures Valid() && actions == old(actions) + [Action.SubmitTurn(run, question, answer, text, now)]
    {
      var before := Now();
      database.CreateTurnSubmission(run, question, answer, text, now);
      Took(before, Action.SubmitTurn(run, question, answer, text, now));
    }

    /** `create_generation_run`, for a synthesis. */
    method SubmitSynthesis(run: RunId, now: nat)
      requires Valid() && process.Up? && run !in database.runs
      modifies this, database
      ensures Valid() && actions == old(actions) + [Action.SubmitSynthesis(run, now)]
    {
      var before := Now();
      database.CreateSynthesisRun(run, now);
      Took(before, Action.SubmitSynthesis(run, now));
    }

    /** `create_report_submission`. */
    method SubmitReport(run: RunId, report: ReportId, title: string, now: nat)
      requires Valid() && process.Up? && run !in database.runs && report !in database.reports
      modifies this, database
      ensures Valid() && actions == old(actions) + [Action.SubmitReport(run, report, title, now)]
    {
      var before := Now();
      database.CreateReportSubmission(run, report, title, now);
      Took(before, Action.SubmitReport(run, report, title, now));
    }

    /**
     * The process starts and recovers (`interrupt_active_runs`); it may die between the two
     * transactions. Once it is up nothing is active, whatever the earlier process left behind.
     */
    method StartProcess() returns (up: bool)
      requires Valid() && process.Down?
      modifies this, database
      ensures Valid() && TerminalKept(old(database.State()), database.State())
      ensures actions == old(actions) + if up then [Boot, RecoverReports, RecoverRuns] else [Boot, RecoverReports, Crash]
      ensures up ==> process == Up(map[]) && NothingActive(database.State())
    {
      ghost var start := |actions|;
      hide Inv, TerminalKept, NothingActive;
      Step(Boot);
      var before := Now();
      database.InterruptActiveReports();
      Took(before, RecoverReports);
      if * {
        Step(Crash);
        EndedRowsKept(start);
        return false;
      }
      before := Now();
      database.InterruptActiveGenerationRuns();
      Took(before, RecoverRuns);
      RecoveryLeavesNothingActive(states, actions, start + 2);
      EndedRowsKept(start);
      return true;
    }

    lemma OwnedRunsRun()
      requires Valid() && process.Up?
      ensures forall run <- process.owned.Keys :: run in database.runs && database.runs[run].status == Running
    {
      ReachableInv(states, actions, |actions|);
      hide Consistent, OneProductEach;
    }

    lemma OwnedRunExists(run: RunId)
      requires Valid() && process.Up? && run in process.owned
      ensures run in database.runs && database.runs[run].status == Running
      ensures RunKept(Now(), Now(), run)
    {
      OwnedRunsRun();
    }
  }
}
