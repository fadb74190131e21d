/**
 * Generation runs over crashes and restarts: which steps the running service may take, and
 * what they keep true of runs, answers and reports in every reachable state.
 */
module GenerationProtocol {
  import opened Seqs
  import opened GenerationTables

  /** How far the executor that owns a run has got. */
  datatype Phase = Claimed | Started | Working

  /**
   * The service process. Only the tables survive a crash; on start the process first fails
   * active reports, then interrupts active runs, and only then serves requests.
   */
  datatype Process = Down | Booting | ReportsRecovered | Up(owned: map<RunId, Phase>)

  datatype System = System(tables: Tables, process: Process)

  const START := System(Tables(map[], map[], map[], map[]), Down)

  datatype Action =
    | Crash
    | Boot
    | RecoverReports
    | RecoverRuns
    | SubmitTurn(run: RunId, question: MessageId, answer: MessageId, text: string, now: nat)
    | SubmitSynthesis(run: RunId, now: nat)
    | SubmitReport(run: RunId, report: ReportId, title: string, now: nat)
    | ClaimNext(run: RunId)
    | Begin(run: RunId)
    | BeginReport(run: RunId, report: ReportId)
    | SaveAnswer(run: RunId, question: MessageId, answer: MessageId, qa: QaId, text: string)
    | FailAnswer(run: RunId, answer: MessageId)
    | EndSynthesis(run: RunId, succeeded: bool)
    | SaveReport(run: RunId, report: ReportId, title: string)
    | AbortReport(run: RunId, report: ReportId)
    | Abandon(run: RunId)

  predicate Owns(s: System, run: RunId, kind: Kind, phase: Phase)
  {
    && s.process.Up? && run in s.process.owned && s.process.owned[run] == phase
    && run in s.tables.runs && s.tables.runs[run].kind == kind
  }

  /** The message that `get_message_by_run` finds and the report that `get_report_by_run` finds. */
  predicate AnswerOf(t: Tables, run: RunId, answer: MessageId)
  {
    answer in t.messages && t.messages[answer].run == Some(run)
  }

  predicate ReportOf(t: Tables, run: RunId, report: ReportId)
  {
    report in t.reports && t.reports[report].run == run
  }

  /** When a step may be taken; new rows get unused identifiers. */
  predicate Enabled(s: System, a: Action)
  {
    var t := s.tables;
    match a
    case Crash => true
    case Boot => s.process.Down?
    case RecoverReports => s.process.Booting?
    case RecoverRuns => s.process.ReportsRecovered?
    case SubmitTurn(run, question, answer, _, _) =>
      s.process.Up? && run !in t.runs && question !in t.messages && answer !in t.messages && question != answer
    case SubmitSynthesis(run, _) => s.process.Up? && run !in t.runs
    case SubmitReport(run, report, _, _) => s.process.Up? && run !in t.runs && report !in t.reports
    case ClaimNext(run) => s.process.Up? && FirstInQueue(t.runs, run) && run !in s.process.owned
    // one executor owns a run: it starts its own claimed run, or an active run nobody owns
    case Begin(run) =>
      s.process.Up? && run in t.runs && Active(t.runs[run].status)
      && (run in s.process.owned ==> s.process.owned[run] == Claimed)
    case BeginReport(run, report) => Owns(s, run, Report, Started) && ReportOf(t, run, report)
    case SaveAnswer(run, _, answer, qa, _) =>
      Owns(s, run, Answer, Started) && AnswerOf(t, run, answer) && qa !in t.qaRecords
    case FailAnswer(run, answer) => Owns(s, run, Answer, Started) && AnswerOf(t, run, answer)
    case EndSynthesis(run, _) => Owns(s, run, CollectionSynthesis, Started)
    case SaveReport(run, report, _) => Owns(s, run, Report, Working) && ReportOf(t, run, report)
    case AbortReport(run, report) => Owns(s, run, Report, Working) && ReportOf(t, run, report)
    // an executor gives up without recording anything (an interrupt, or a row it cannot find)
    case Abandon(run) => s.process.Up? && run in s.process.owned
  }

  function Own(s: System, run: RunId, phase: Phase): Process
    requires s.process.Up?
  {
    Up(s.process.owned[run := phase])
  }

  function Release(s: System, run: RunId): Process
    requires s.process.Up?
  {
    Up(s.process.owned - {run})
  }

  function Next(s: System, a: Action): System
    requires Enabled(s, a)
  {
    var t := s.tables;
    match a
    case Crash => s.(process := Down)
    case Boot => s.(process := Booting)
    case RecoverReports => System(InterruptReports(t), ReportsRecovered)
    case RecoverRuns => System(InterruptRuns(t), Up(map[]))
    case SubmitTurn(run, question, answer, text, now) => s.(tables := CreateTurn(t, run, question, answer, text, now))
    case SubmitSynthesis(run, now) => s.(tables := CreateSynthesis(t, run, now))
    case SubmitReport(run, report, title, now) => s.(tables := CreateReport(t, run, report, title, now))
    case ClaimNext(run) => System(SetStatus(t, run, Running), Own(s, run, Claimed))
    case Begin(run) => System(GenerationTables.StartRun(t, run), Own(s, run, Started))
    case BeginReport(run, report) => System(GenerationTables.StartReport(t, report), Own(s, run, Working))
    case SaveAnswer(run, question, answer, qa, text) =>
      System(SaveTurn(t, run, question, answer, qa, text).value, Release(s, run))
    case FailAnswer(run, answer) => System(FailTurn(t, run, answer), Release(s, run))
    case EndSynthesis(run, succeeded) => System(FinishSynthesis(t, run, succeeded), Release(s, run))
    case SaveReport(run, report, title) => System(CompleteReport(t, run, report, title).value, Release(s, run))
    case AbortReport(run, report) => System(FailReport(t, report), Release(s, run))
    case Abandon(run) => s.(process := Release(s, run))
  }

  /* ----- what is kept ----- */

  /** Pending iff active, completed iff completed, failed iff failed or interrupted. */
  predicate MessageMatches(message: MessageStatus, run: RunStatus)
  {
    match message
    case MessagePending => Active(run)
    case MessageCompleted => run == Completed
    case MessageFailed => Unsuccessful(run)
  }

  /** As for messages; between the two recovery transactions a failed report may still have an active run. */
  predicate ReportMatches(report: ReportStatus, run: RunStatus, recovering: bool)
  {
    match report
    case ReportQueued => Active(run)
    case ReportRunning => run == Running
    case ReportCompleted => run == Completed
    case ReportFailed => Unsuccessful(run) || (recovering && Active(run))
  }

  predicate MessageOk(t: Tables, m: MessageId)
    requires m in t.messages
  {
    t.messages[m].run.Some? ==>
      var run := t.messages[m].run.value;
      && run in t.runs && t.runs[run].kind == Answer
      && MessageMatches(t.messages[m].status, t.runs[run].status)
  }

  predicate ReportOk(t: Tables, p: ReportId, recovering: bool)
    requires p in t.reports
  {
    var run := t.reports[p].run;
    && run in t.runs && t.runs[run].kind == Report
    && ReportMatches(t.reports[p].status, t.runs[run].status, recovering)
  }

  /** A record belongs to the run that completed with it. */
  predicate QaOk(t: Tables, q: QaId)
    requires q in t.qaRecords
  {
    var m := t.qaRecords[q].answerMessage;
    && m in t.messages && t.messages[m].run.Some? && t.messages[m].run.value in t.runs
    && t.runs[t.messages[m].run.value].status == Completed
    && t.runs[t.messages[m].run.value].qaRecord == Some(q)
    && t.messages[m].content == t.qaRecords[q].answer
  }

  /** Exactly the completed answer runs have a record, and it is a record of their own answer. */
  predicate RunOk(t: Tables, r: RunId)
    requires r in t.runs
  {
    var run := t.runs[r];
    && (run.qaRecord.Some? <==> run.kind == Answer && run.status == Completed)
    && (run.qaRecord.Some? ==>
          && run.qaRecord.value in t.qaRecords
          && AnswerOf(t, r, t.qaRecords[run.qaRecord.value].answerMessage))
  }

  ghost predicate HasProduct(t: Tables, r: RunId)
    requires r in t.runs
  {
    && (t.runs[r].kind == Answer ==> exists m :: AnswerOf(t, r, m))
    && (t.runs[r].kind == Report ==> exists p :: ReportOf(t, r, p))
  }

  ghost predicate StatusesMatch(t: Tables, recovering: bool)
  {
    && (forall m :: m in t.messages ==> MessageOk(t, m))
    && (forall p :: p in t.reports ==> ReportOk(t, p, recovering))
  }

  ghost predicate RecordsMatch(t: Tables)
  {
    && (forall q :: q in t.qaRecords ==> QaOk(t, q))
    && (forall r :: r in t.runs ==> RunOk(t, r))
  }

  ghost predicate Consistent(t: Tables, recovering: bool)
  {
    StatusesMatch(t, recovering) && RecordsMatch(t)
  }

  /** A run has one product: its answer message or its report. */
  ghost predicate OneProductEach(t: Tables)
  {
    && (forall r :: r in t.runs ==> HasProduct(t, r))
    && (forall m, m' | m in t.messages && m' in t.messages && t.messages[m].run.Some? ::
          t.messages[m].run == t.messages[m'].run ==> m == m')
    && (forall p, p' | p in t.reports && p' in t.reports ::
          t.reports[p].run == t.reports[p'].run ==> p == p')
  }

  ghost predicate OwnersRun(s: System)
  {
    s.process.Up? ==>
      forall r :: r in s.process.owned ==> r in s.tables.runs && s.tables.runs[r].status == Running
  }

  ghost predicate NoActiveReports(t: Tables)
  {
    forall p :: p in t.reports ==> !ReportActive(t.reports[p].status)
  }

  ghost predicate Inv(s: System)
  {
    && Consistent(s.tables, !s.process.Up?)
    && OneProductEach(s.tables)
    && OwnersRun(s)
    && (s.process.ReportsRecovered? ==> NoActiveReports(s.tables))
  }

  lemma StartKeepsInv()
    ensures Inv(START)
  {
  }

  /* ----- each transaction keeps the tables consistent ----- */

  /** The same rows with the same links; only statuses and contents may differ. */
  ghost predicate SameLinks(t: Tables, t': Tables)
  {
    && t'.runs.Keys == t.runs.Keys && (forall r :: r in t.runs ==> t'.runs[r].kind == t.runs[r].kind)
    && t'.messages.Keys == t.messages.Keys && (forall m :: m in t.messages ==> t'.messages[m].run == t.messages[m].run)
    && t'.reports.Keys == t.reports.Keys && (forall p :: p in t.reports ==> t'.reports[p].run == t.reports[p].run)
  }

  lemma SameLinksKeepProducts(t: Tables, t': Tables)
    requires OneProductEach(t) && SameLinks(t, t')
    ensures OneProductEach(t')
  {
    forall r | r in t'.runs ensures HasProduct(t', r) {
      assert HasProduct(t, r);
      if t.runs[r].kind == Answer {
        var m :| AnswerOf(t, r, m);
        assert AnswerOf(t', r, m);
      }
      if t.runs[r].kind == Report {
        var p :| ReportOf(t, r, p);
        assert ReportOf(t', r, p);
      }
    }
  }

  lemma CreateTurnKeeps(t: Tables, run: RunId, question: MessageId, answer: MessageId, text: string, now: nat)
    requires Consistent(t, false) && run !in t.runs && question !in t.messages && answer !in t.messages && question != answer
    ensures Consistent(CreateTurn(t, run, question, answer, text, now), false)
  {
  }

  lemma CreateTurnKeepsProducts(t: Tables, run: RunId, question: MessageId, answer: MessageId, text: string, now: nat)
    requires Consistent(t, false) && OneProductEach(t)
    requires run !in t.runs && question !in t.messages && answer !in t.messages && question != answer
    ensures OneProductEach(CreateTurn(t, run, question, answer, text, now))
  {
    hide RunOk, QaOk;
    var t' := CreateTurn(t, run, question, answer, text, now);
    forall r | r in t'.runs ensures HasProduct(t', r) {
      if r == run {
        assert AnswerOf(t', run, answer);
      } else {
        ProductRemains(t, t', r);
      }
    }
  }

  lemma CreateReportKeeps(t: Tables, run: RunId, report: ReportId, title: string, now: nat)
    requires Consistent(t, false) && run !in t.runs && report !in t.reports
    ensures Consistent(CreateReport(t, run, report, title, now), false)
  {
  }

  lemma CreateReportKeepsProducts(t: Tables, run: RunId, report: ReportId, title: string, now: nat)
    requires Consistent(t, false) && OneProductEach(t)
    requires run !in t.runs && report !in t.reports
    ensures OneProductEach(CreateReport(t, run, report, title, now))
  {
    hide RunOk, QaOk;
    var t' := CreateReport(t, run, report, title, now);
    forall r | r in t'.runs ensures HasProduct(t', r) {
      if r == run {
        assert ReportOf(t', run, report);
      } else {
        ProductRemains(t, t', r);
      }
    }
  }

  lemma CreateSynthesisKeeps(t: Tables, run: RunId, now: nat)
    requires Consistent(t, false) && run !in t.runs
    ensures Consistent(CreateSynthesis(t, run, now), false)
  {
  }

  lemma CreateSynthesisKeepsProducts(t: Tables, run: RunId, now: nat)
    requires Consistent(t, false) && OneProductEach(t)
    requires run !in t.runs
    ensures OneProductEach(CreateSynthesis(t, run, now))
  {
    hide RunOk, QaOk;
    var t' := CreateSynthesis(t, run, now);
    forall r | r in t'.runs ensures HasProduct(t', r) {
      if r != run {
        ProductRemains(t, t', r);
      }
    }
  }

  lemma ProductRemains(t: Tables, t': Tables, r: RunId)
    requires r in t.runs && HasProduct(t, r) && r in t'.runs && t'.runs[r].kind == t.runs[r].kind
    requires forall m :: m in t.messages ==> m in t'.messages && t'.messages[m] == t.messages[m]
    requires forall p :: p in t.reports ==> p in t'.reports && t'.reports[p] == t.reports[p]
    ensures HasProduct(t', r)
  {
    if t.runs[r].kind == Answer {
      var m :| AnswerOf(t, r, m);
      assert AnswerOf(t', r, m);
    }
    if t.runs[r].kind == Report {
      var p :| ReportOf(t, r, p);
      assert ReportOf(t', r, p);
    }
  }

  lemma RunningKeeps(t: Tables, run: RunId)
    requires Consistent(t, false) && run in t.runs && t.runs[run].status == Queued
    ensures Consistent(SetStatus(t, run, Running), false)
  {
  }

  lemma StartReportKeeps(t: Tables, run: RunId, report: ReportId)
    requires Consistent(t, false)
    requires ReportOf(t, run, report) && run in t.runs && t.runs[run].status == Running
    ensures Consistent(StartReport(t, report), false)
  {
  }

  lemma SaveTurnKeepsStatuses(t: Tables, run: RunId, question: MessageId, answer: MessageId, qa: QaId, text: string)
    requires StatusesMatch(t, false) && OneProductEach(t)
    requires run in t.runs && t.runs[run].status == Running && AnswerOf(t, run, answer)
    ensures StatusesMatch(SaveTurn(t, run, question, answer, qa, text).value, false)
  {
    hide HasProduct;
  }

  lemma SaveTurnKeepsRecords(t: Tables, run: RunId, question: MessageId, answer: MessageId, qa: QaId, text: string)
    requires Consistent(t, false)
    requires run in t.runs && t.runs[run].status == Running && AnswerOf(t, run, answer) && qa !in t.qaRecords
    ensures RecordsMatch(SaveTurn(t, run, question, answer, qa, text).value)
  {
    hide ReportOk;
  }

  lemma FailTurnKeeps(t: Tables, run: RunId, answer: MessageId)
    requires Consistent(t, false) && OneProductEach(t)
    requires run in t.runs && t.runs[run].status == Running && AnswerOf(t, run, answer)
    ensures Consistent(FailTurn(t, run, answer), false)
  {
    hide HasProduct;
  }

  lemma FinishSynthesisKeeps(t: Tables, run: RunId, succeeded: bool)
    requires Consistent(t, false)
    requires run in t.runs && t.runs[run].kind == CollectionSynthesis && t.runs[run].status == Running
    ensures Consistent(FinishSynthesis(t, run, succeeded), false)
  {
  }

  lemma FailReportKeeps(t: Tables, run: RunId, report: ReportId)
    requires Consistent(t, false) && OneProductEach(t)
    requires run in t.runs && t.runs[run].status == Running && ReportOf(t, run, report)
    ensures Consistent(FailReport(t, report), false)
  {
    hide HasProduct;
  }

  lemma CompleteReportKeeps(t: Tables, run: RunId, report: ReportId, title: string)
    requires Consistent(t, false) && OneProductEach(t)
    requires run in t.runs && t.runs[run].status == Running && ReportOf(t, run, report)
    ensures Consistent(CompleteReport(t, run, report, title).value, false)
  {
    hide HasProduct;
  }

  lemma InterruptReportsKeeps(t: Tables)
    requires Consistent(t, true)
    ensures Consistent(InterruptReports(t), true)
    ensures NoActiveReports(InterruptReports(t))
  {
  }

  lemma InterruptRunsKeeps(t: Tables)
    requires Consistent(t, true) && NoActiveReports(t)
    ensures Consistent(InterruptRuns(t), false)
  {
    hide StatusesMatch, RecordsMatch, NoActiveReports;
    InterruptRunsKeepsStatuses(t);
    InterruptRunsKeepsRecords(t);
  }

  lemma InterruptRunsKeepsStatuses(t: Tables)
    requires StatusesMatch(t, true) && NoActiveReports(t)
    ensures StatusesMatch(InterruptRuns(t), false)
  {
  }

  lemma InterruptRunsKeepsRecords(t: Tables)
    requires RecordsMatch(t)
    ensures RecordsMatch(InterruptRuns(t))
  {
  }

  lemma StepKeepsTables(s: System, a: Action)
    requires Inv(s) && Enabled(s, a)
    ensures Consistent(Next(s, a).tables, !Next(s, a).process.Up?) && OneProductEach(Next(s, a).tables)
  {
    hide StatusesMatch, RecordsMatch, OneProductEach, HasProduct;
    var t, t' := s.tables, Next(s, a).tables;
    match a {
    case Crash => WeakenStatuses(t, !s.process.Up?);
    case Boot =>
    case RecoverReports => InterruptReportsKeeps(t);
    case RecoverRuns => InterruptRunsKeeps(t);
    case SubmitTurn(run, question, answer, text, now) =>
      CreateTurnKeeps(t, run, question, answer, text, now);
      CreateTurnKeepsProducts(t, run, question, answer, text, now);
    case SubmitSynthesis(run, now) =>
      CreateSynthesisKeeps(t, run, now);
      CreateSynthesisKeepsProducts(t, run, now);
    case SubmitReport(run, report, title, now) =>
      CreateReportKeeps(t, run, report, title, now);
      CreateReportKeepsProducts(t, run, report, title, now);
    case ClaimNext(run) => RunningKeeps(t, run);
    case Begin(run) => if t.runs[run].status == Queued { RunningKeeps(t, run); }
    case BeginReport(run, report) => StartReportKeeps(t, run, report);
    case SaveAnswer(run, question, answer, qa, text) =>
      SaveTurnKeepsStatuses(t, run, question, answer, qa, text);
      SaveTurnKeepsRecords(t, run, question, answer, qa, text);
    case FailAnswer(run, answer) => FailTurnKeeps(t, run, answer);
    case EndSynthesis(run, succeeded) => FinishSynthesisKeeps(t, run, succeeded);
    case SaveReport(run, report, title) => CompleteReportKeeps(t, run, report, title);
    case AbortReport(run, report) => FailReportKeeps(t, run, report);
    case Abandon(run) =>
    }
    if !a.SubmitTurn? && !a.SubmitSynthesis? && !a.SubmitReport? {
      SameLinksKeepProducts(t, t');
    }
  }

  lemma WeakenStatuses(t: Tables, recovering: bool)
    requires StatusesMatch(t, recovering)
    ensures StatusesMatch(t, true)
  {
  }

  lemma StepKeepsOwners(s: System, a: Action)
    requires Inv(s) && Enabled(s, a)
    ensures OwnersRun(Next(s, a))
    ensures Next(s, a).process.ReportsRecovered? ==> NoActiveReports(Next(s, a).tables)
  {
    hide Consistent, OneProductEach, FirstInQueue;
    if a.RecoverReports? {
      NoReportStaysActive(s.tables);
    }
  }

  /** Every step keeps the invariant. */
  lemma StepKeepsInv(s: System, a: Action)
    requires Inv(s) && Enabled(s, a)
    ensures Inv(Next(s, a))
  {
    StepKeepsTables(s, a);
    StepKeepsOwners(s, a);
    hide Consistent, OneProductEach, OwnersRun, NoActiveReports, Enabled, Next;
  }

  lemma NoReportStaysActive(t: Tables)
    ensures NoActiveReports(InterruptReports(t))
  {
  }

  /* ----- whole runs of the system ----- */

  /** A finite run of the system: crashes and restarts included, in any order the steps allow. */
  ghost predicate Behavior(states: seq<System>, actions: seq<Action>)
  {
    && |states| == |actions| + 1
    && states[0] == START
    && forall i :: 0 <= i < |actions| ==> StepAt(states, actions, i)
  }

  ghost predicate StepAt(states: seq<System>, actions: seq<Action>, i: nat)
    requires i < |actions| && |states| == |actions| + 1
  {
    Enabled(states[i], actions[i]) && states[i + 1] == Next(states[i], actions[i])
  }

  /** Every reachable state satisfies the invariant. */
  lemma {:induction false} ReachableInv(states: seq<System>, actions: seq<Action>, i: nat)
    requires Behavior(states, actions) && i < |states|
    ensures Inv(states[i])
  {
    hide Inv, Next, Enabled;
    if i == 0 {
      StartKeepsInv();
    } else {
      ReachableInv(states, actions, i - 1);
      assert StepAt(states, actions, i - 1);
      StepKeepsInv(states[i - 1], actions[i - 1]);
    }
  }

  /** What the later state may not change of the earlier one: everything that has come to an end. */
  ghost predicate TerminalKept(t: Tables, t': Tables)
  {
    && (forall r :: r in t.runs ==> r in t'.runs && (!Active(t.runs[r].status) ==> t'.runs[r] == t.runs[r]))
    && (forall m :: m in t.messages ==>
          m in t'.messages && (t.messages[m].status != MessagePending ==> t'.messages[m] == t.messages[m]))
    && (forall p :: p in t.reports ==>
          p in t'.reports && (!ReportActive(t.reports[p].status) ==> t'.reports[p] == t.reports[p]))
    && (forall q :: q in t.qaRecords ==> q in t'.qaRecords && t'.qaRecords[q] == t.qaRecords[q])
  }

  lemma StepKeepsTerminal(s: System, a: Action)
    requires Inv(s) && Enabled(s, a)
    ensures TerminalKept(s.tables, Next(s, a).tables)
  {
    if a.SaveAnswer? || a.FailAnswer? || a.SaveReport? || a.AbortReport? || a.BeginReport? {
      ProductStepKeepsTerminal(s, a);
    } else {
      hide Inv;
    }
  }

  /** The product of a running run has not come to an end. */
  lemma ProductStepKeepsTerminal(s: System, a: Action)
    requires Inv(s) && Enabled(s, a)
    requires a.SaveAnswer? || a.FailAnswer? || a.SaveReport? || a.AbortReport? || a.BeginReport?
    ensures TerminalKept(s.tables, Next(s, a).tables)
  {
    hide OneProductEach, RecordsMatch;
  }

  /** Terminal runs, answers, reports and records never change again, whatever crashes in between. */
  lemma {:induction false} TerminalForever(states: seq<System>, actions: seq<Action>, i: nat, j: nat)
    requires Behavior(states, actions) && i <= j < |states|
    ensures TerminalKept(states[i].tables, states[j].tables)
    decreases j - i
  {
    if i < j {
      assert StepAt(states, actions, j - 1);
      hide Inv, Next, Enabled, TerminalKept;
      TerminalForever(states, actions, i, j - 1);
      ReachableInv(states, actions, j - 1);
      StepKeepsTerminal(states[j - 1], actions[j - 1]);
      TerminalKeptTransitive(states[i].tables, states[j - 1].tables, states[j].tables);
    } else {
      TerminalKeptReflexive(states[i].tables);
    }
  }

  lemma TerminalKeptReflexive(t: Tables)
    ensures TerminalKept(t, t)
  {
  }

  lemma TerminalKeptTransitive(a: Tables, b: Tables, c: Tables)
    requires TerminalKept(a, b) && TerminalKept(b, c)
    ensures TerminalKept(a, c)
  {
  }

  /** No run, answer or report is active. */
  ghost predicate NothingActive(t: Tables)
  {
    && (forall r :: r in t.runs ==> !Active(t.runs[r].status))
    && (forall m :: m in t.messages && t.messages[m].run.Some? ==> t.messages[m].status != MessagePending)
    && NoActiveReports(t)
  }

  /**
   * When recovery has finished nothing is active any more. It may start from any reachable
   * state, in particular from one where an earlier recovery crashed between its transactions.
   */
  lemma RecoveryLeavesNothingActive(states: seq<System>, actions: seq<Action>, i: nat)
    requires Behavior(states, actions) && i < |actions| && actions[i] == RecoverRuns
    ensures NothingActive(states[i + 1].tables)
  {
    ReachableInv(states, actions, i);
    assert StepAt(states, actions, i);
    hide OneProductEach, RecordsMatch;
  }

  /** The records of an answer message. */
  function RecordsOf(t: Tables, m: MessageId): set<QaId>
  {
    set q | q in t.qaRecords && t.qaRecords[q].answerMessage == m
  }

  /**
   * What users see, in every reachable state: an answer is pending iff its run is active,
   * completed iff its run completed and then with exactly one record, failed iff its run
   * failed or was interrupted; without completion there is no record.
   */
  lemma AnswerStatus(states: seq<System>, actions: seq<Action>, i: nat, m: MessageId)
    requires Behavior(states, actions) && i < |states|
    requires m in states[i].tables.messages && states[i].tables.messages[m].run.Some?
    ensures
      var t := states[i].tables;
      var answer, run := t.messages[m], t.messages[m].run.value;
      && run in t.runs
      && (answer.status == MessagePending <==> Active(t.runs[run].status))
      && (answer.status == MessageCompleted <==> t.runs[run].status == Completed)
      && (answer.status == MessageFailed <==> Unsuccessful(t.runs[run].status))
      && |RecordsOf(t, m)| == (if answer.status == MessageCompleted then 1 else 0)
  {
    ReachableInv(states, actions, i);
    var t := states[i].tables;
    var run := t.messages[m].run.value;
    assert MessageOk(t, m) && RunOk(t, run);
    forall q | q in RecordsOf(t, m) ensures t.runs[run].qaRecord == Some(q) && t.runs[run].status == Completed {
      assert QaOk(t, q);
    }
    if t.runs[run].status == Completed {
      var q := t.runs[run].qaRecord.value;
      assert t.qaRecords[q].answerMessage == m;
      assert RecordsOf(t, m) == {q};
    } else {
      assert RecordsOf(t, m) == {};
    }
  }

  /** While the service is up, a report is completed iff its run is, and failed iff its run failed or was interrupted. */
  lemma ReportStatusMatches(states: seq<System>, actions: seq<Action>, i: nat, p: ReportId)
    requires Behavior(states, actions) && i < |states| && p in states[i].tables.reports
    ensures
      var t := states[i].tables;
      var report, run := t.reports[p], t.reports[p].run;
      && run in t.runs
      && (report.status == ReportCompleted <==> t.runs[run].status == Completed)
      && (Unsuccessful(t.runs[run].status) ==> report.status == ReportFailed)
      && (states[i].process.Up? ==> (report.status == ReportFailed <==> Unsuccessful(t.runs[run].status)))
  {
    ReachableInv(states, actions, i);
    assert ReportOk(states[i].tables, p, !states[i].process.Up?);
  }

  lemma StepNeverRequeues(s: System, a: Action, run: RunId)
    requires Enabled(s, a) && run in s.tables.runs && s.tables.runs[run].status != Queued
    ensures run in Next(s, a).tables.runs && Next(s, a).tables.runs[run].status != Queued
  {
  }

  lemma {:induction false} NeverQueuedAgain(states: seq<System>, actions: seq<Action>, i: nat, j: nat, run: RunId)
    requires Behavior(states, actions) && i <= j < |states|
    requires run in states[i].tables.runs && states[i].tables.runs[run].status != Queued
    ensures run in states[j].tables.runs && states[j].tables.runs[run].status != Queued
    decreases j - i
  {
    if i < j {
      hide Enabled, Next;
      NeverQueuedAgain(states, actions, i, j - 1, run);
      assert StepAt(states, actions, j - 1);
      StepNeverRequeues(states[j - 1], actions[j - 1], run);
    }
  }

  /** No run is claimed twice. */
  lemma ClaimedOnce(states: seq<System>, actions: seq<Action>, i: nat, j: nat, run: RunId)
    requires Behavior(states, actions) && i < |actions| && j < |actions|
    requires actions[i] == ClaimNext(run) && actions[j] == ClaimNext(run)
    ensures i == j
  {
    assert StepAt(states, actions, i) && StepAt(states, actions, j);
    if i < j {
      NeverQueuedAgain(states, actions, i + 1, j, run);
    } else if j < i {
      NeverQueuedAgain(states, actions, j + 1, i, run);
    }
  }

  /* ----- the order of the queue ----- */

  /** The step that creates a run, and its creation time. */
  predicate Submits(a: Action, run: RunId, now: nat)
  {
    match a
    case SubmitTurn(r, _, _, _, time) => r == run && time == now
    case SubmitSynthesis(r, time) => r == run && time == now
    case SubmitReport(r, _, _, time) => r == run && time == now
    case _ => false
  }

  lemma StepKeepsCreation(s: System, a: Action, run: RunId)
    requires Enabled(s, a) && run in s.tables.runs
    ensures run in Next(s, a).tables.runs && Next(s, a).tables.runs[run].createdAt == s.tables.runs[run].createdAt
  {
  }

  /** A run keeps the time it was submitted with. */
  lemma {:induction false} CreationKept(states: seq<System>, actions: seq<Action>, i: nat, j: nat, run: RunId, now: nat)
    requires Behavior(states, actions) && i < j < |states| && Submits(actions[i], run, now)
    ensures run in states[j].tables.runs && states[j].tables.runs[run].createdAt == now
  {
    assert StepAt(states, actions, j - 1);
    if i < j - 1 {
      hide Enabled, Next;
      CreationKept(states, actions, i, j - 1, run, now);
      StepKeepsCreation(states[j - 1], actions[j - 1], run);
    }
  }

  /**
   * First come, first served: when a run is claimed, no run is still queued that was submitted at
   * an earlier time, or at the same time with a smaller identifier.
   */
  lemma ClaimedInOrder(
    states: seq<System>, actions: seq<Action>, i: nat, j: nat, k: nat, early: RunId, late: RunId, now: nat, later: nat)
    requires Behavior(states, actions) && i < k < |actions| && j < k
    requires Submits(actions[i], early, now) && Submits(actions[j], late, later) && actions[k] == ClaimNext(late)
    requires now < later || (now == later && early < late)
    ensures early in states[k].tables.runs && states[k].tables.runs[early].status != Queued
  {
    CreationKept(states, actions, i, k, early, now);
    CreationKept(states, actions, j, k, late, later);
    assert StepAt(states, actions, k);
    assert FirstInQueue(states[k].tables.runs, late);
  }

  /** The steps that end a run. */
  predicate Ends(a: Action, run: RunId)
  {
    match a
    case SaveAnswer(r, _, _, _, _) => r == run
    case FailAnswer(r, _) => r == run
    case EndSynthesis(r, _) => r == run
    case SaveReport(r, _, _) => r == run
    case AbortReport(r, _) => r == run
    case _ => false
  }

  lemma EndingEnds(s: System, a: Action, run: RunId)
    requires Enabled(s, a) && Ends(a, run)
    ensures run in s.tables.runs && run in Next(s, a).tables.runs && !Active(Next(s, a).tables.runs[run].status)
    ensures OwnersRun(s) ==> s.tables.runs[run].status == Running
  {
  }

  lemma EndedRunIsKept(t: Tables, t': Tables, run: RunId)
    requires TerminalKept(t, t') && run in t.runs && !Active(t.runs[run].status)
    ensures run in t'.runs && t'.runs[run] == t.runs[run]
  {
  }

  /** A run ends at most once: never saved and failed, nor saved twice, through any crash and recovery. */
  lemma EndedOnce(states: seq<System>, actions: seq<Action>, i: nat, j: nat, run: RunId)
    requires Behavior(states, actions) && i < |actions| && j < |actions|
    requires Ends(actions[i], run) && Ends(actions[j], run)
    ensures i == j
  {
    if i != j {
      hide Enabled, Next, TerminalKept, Consistent, OneProductEach, OwnersRun, Ends;
      var first, second := if i < j then i else j, if i < j then j else i;
      assert StepAt(states, actions, first) && StepAt(states, actions, second);
      EndingEnds(states[first], actions[first], run);
      EndingEnds(states[second], actions[second], run);
      TerminalForever(states, actions, first + 1, second);
      EndedRunIsKept(states[first + 1].tables, states[second].tables, run);
      ReachableInv(states, actions, second);
    }
  }

  /* ----- why ownership matters: executing a report run that has already ended ----- */

  /** The transactions of `execute_report` in one go; it has no check of the run's status. */
  function ExecuteReport(t: Tables, run: RunId, report: ReportId, succeeds: bool, title: string): Tables
    requires run in t.runs && ReportOf(t, run, report)
  {
    var started := GenerationTables.StartReport(GenerationTables.StartRun(t, run), report);
    if succeeds then CompleteReport(started, run, report, title).value else FailReport(started, report)
  }

  lemma ExecutingActiveReportKeepsTerminal(t: Tables, run: RunId, report: ReportId, succeeds: bool, title: string)
    requires StatusesMatch(t, false) && run in t.runs && ReportOf(t, run, report) && Active(t.runs[run].status)
    ensures TerminalKept(t, ExecuteReport(t, run, report, succeeds, title))
  {
    assert ReportOk(t, report, false);
  }

  lemma ExecutedReportStatus(t: Tables, run: RunId, report: ReportId, succeeds: bool, title: string)
    requires run in t.runs && ReportOf(t, run, report)
    ensures
      var t' := ExecuteReport(t, run, report, succeeds, title);
      run in t'.runs && t'.runs[run].status == if succeeds then Completed else Failed
  {
  }

  /**
   * Executing a report run keeps everything terminal, for both outcomes, exactly when the run
   * is still active: the check that `execute_turn` makes and `execute_report` leaves to its callers.
   */
  lemma ExecuteReportKeepsTerminalIff(t: Tables, run: RunId, report: ReportId, title: string)
    requires StatusesMatch(t, false) && run in t.runs && ReportOf(t, run, report)
    ensures
      && TerminalKept(t, ExecuteReport(t, run, report, true, title))
      && TerminalKept(t, ExecuteReport(t, run, report, false, title))
      <==> Active(t.runs[run].status)
  {
    hide ExecuteReport, StatusesMatch;
    ExecutedReportStatus(t, run, report, true, title);
    ExecutedReportStatus(t, run, report, false, title);
    if Active(t.runs[run].status) {
      ExecutingActiveReportKeepsTerminal(t, run, report, true, title);
      ExecutingActiveReportKeepsTerminal(t, run, report, false, title);
    }
  }

  /** The transactions of `execute_synthesis_run`, which has no such check either. */
  function ExecuteSynthesis(t: Tables, run: RunId, succeeds: bool): Tables
    requires run in t.runs
  {
    FinishSynthesis(GenerationTables.StartRun(t, run), run, succeeds)
  }

  lemma ExecuteSynthesisKeepsTerminalIff(t: Tables, run: RunId)
    requires run in t.runs
    ensures
      TerminalKept(t, ExecuteSynthesis(t, run, true)) && TerminalKept(t, ExecuteSynthesis(t, run, false))
      <==> Active(t.runs[run].status)
  {
    var completed, failed := ExecuteSynthesis(t, run, true), ExecuteSynthesis(t, run, false);
    assert completed.runs[run].status == Completed && failed.runs[run].status == Failed;
  }
}
