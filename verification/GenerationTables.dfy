/**
 * The persisted tables behind generation runs - runs, chat messages, question/answer records
 * and reports - and the database transactions on them, each as one function.
 */
module GenerationTables {
  import opened Seqs

  type RunId = nat
  type MessageId = nat
  type QaId = nat
  type ReportId = nat

  datatype Kind = Answer | CollectionSynthesis | Report

  datatype RunStatus = Queued | Running | Completed | Failed | Interrupted

  datatype MessageStatus = MessagePending | MessageCompleted | MessageFailed

  datatype ReportStatus = ReportQueued | ReportRunning | ReportCompleted | ReportFailed

  datatype Run = Run(kind: Kind, status: RunStatus, createdAt: nat, qaRecord: Option<QaId>)

  /** `run` is set on assistant messages only. */
  datatype Message = Message(content: string, status: MessageStatus, run: Option<RunId>)

  datatype QaRecord = QaRecord(questionMessage: MessageId, answerMessage: MessageId, answer: string)

  datatype ReportRow = ReportRow(status: ReportStatus, run: RunId, title: string)

  datatype Tables = Tables(
    runs: map<RunId, Run>,
    messages: map<MessageId, Message>,
    qaRecords: map<QaId, QaRecord>,
    reports: map<ReportId, ReportRow>)

  predicate Active(status: RunStatus)
  {
    status == Queued || status == Running
  }

  predicate Unsuccessful(status: RunStatus)
  {
    status == Failed || status == Interrupted
  }

  predicate ReportActive(status: ReportStatus)
  {
    status == ReportQueued || status == ReportRunning
  }

  function SetStatus(t: Tables, run: RunId, status: RunStatus): Tables
    requires run in t.runs
  {
    t.(runs := t.runs[run := t.runs[run].(status := status)])
  }

  /** `create_turn_submission`: a queued run with its question and pending answer. */
  function CreateTurn(
    t: Tables, run: RunId, question: MessageId, answer: MessageId, text: string, now: nat): Tables
  {
    t.(runs := t.runs[run := Run(Answer, Queued, now, None)],
       messages := t.messages[question := Message(text, MessageCompleted, None)]
                             [answer := Message("", MessagePending, Some(run))])
  }

  /** `create_generation_run` with status queued, for a synthesis. */
  function CreateSynthesis(t: Tables, run: RunId, now: nat): Tables
  {
    t.(runs := t.runs[run := Run(CollectionSynthesis, Queued, now, None)])
  }

  /** `create_report_submission`: a queued run and its queued report. */
  function CreateReport(t: Tables, run: RunId, report: ReportId, title: string, now: nat): Tables
  {
    t.(runs := t.runs[run := Run(Report, Queued, now, None)],
       reports := t.reports[report := ReportRow(ReportQueued, run, title)])
  }

  /** Queue order: creation time, then identifier. */
  predicate Before(t: Tables, a: RunId, b: RunId)
    requires a in t.runs && b in t.runs
  {
    t.runs[a].createdAt < t.runs[b].createdAt || (t.runs[a].createdAt == t.runs[b].createdAt && a <= b)
  }

  /**
   * The run that `claim_next_queued_run` selects: every other queued run was created later, or at
   * the same time with a greater identifier.
   */
  predicate FirstInQueue(runs: map<RunId, Run>, run: RunId)
  {
    && run in runs && runs[run].status == Queued
    && forall other <- runs.Keys :: other != run && runs[other].status == Queued ==>
         || runs[run].createdAt < runs[other].createdAt
         || (runs[run].createdAt == runs[other].createdAt && run < other)
  }

  /** `start_generation_run`: a queued run becomes running, any other is left alone. */
  function StartRun(t: Tables, run: RunId): Tables
    requires run in t.runs
  {
    if t.runs[run].status == Queued then SetStatus(t, run, Running) else t
  }

  /** `save_qa_turn`; None when a row is missing and the transaction rolls back. */
  function SaveTurn(
    t: Tables, run: RunId, question: MessageId, answer: MessageId, qa: QaId, text: string): Option<Tables>
  {
    if answer !in t.messages || run !in t.runs then None
    else
      Some(t.(
        messages := t.messages[answer := t.messages[answer].(status := MessageCompleted, content := text)],
        qaRecords := t.qaRecords[qa := QaRecord(question, answer, text)],
        runs := t.runs[run := t.runs[run].(status := Completed, qaRecord := Some(qa))]))
  }

  /** `fail_turn`: both rows, where they exist. */
  function FailTurn(t: Tables, run: RunId, answer: MessageId): Tables
  {
    var t1 := if answer in t.messages
              then t.(messages := t.messages[answer := t.messages[answer].(status := MessageFailed)]) else t;
    if run in t1.runs then SetStatus(t1, run, Failed) else t1
  }

  /** The run update of `save_synthesis_artifacts` and of `fail_generation_run`. */
  function FinishSynthesis(t: Tables, run: RunId, succeeded: bool): Tables
  {
    if run in t.runs then SetStatus(t, run, if succeeded then Completed else Failed) else t
  }

  /** `start_report`. */
  function StartReport(t: Tables, report: ReportId): Tables
  {
    if report in t.reports && t.reports[report].status == ReportQueued
    then t.(reports := t.reports[report := t.reports[report].(status := ReportRunning)]) else t
  }

  /** `save_report_completion`; None when a row is missing and the transaction rolls back. */
  function CompleteReport(t: Tables, run: RunId, report: ReportId, title: string): Option<Tables>
  {
    if report !in t.reports || run !in t.runs then None
    else
      Some(SetStatus(t, run, Completed).(
        reports := t.reports[report := t.reports[report].(status := ReportCompleted, title := title)]))
  }

  /** `fail_report`: the report and the run it names. */
  function FailReport(t: Tables, report: ReportId): Tables
  {
    if report !in t.reports then t
    else
      var t1 := t.(reports := t.reports[report := t.reports[report].(status := ReportFailed)]);
      var run := t.reports[report].run;
      if run in t.runs then SetStatus(t1, run, Failed) else t1
  }

  /** `interrupt_active_reports`. */
  function InterruptReports(t: Tables): Tables
  {
    t.(reports := map p | p in t.reports ::
      if ReportActive(t.reports[p].status) then t.reports[p].(status := ReportFailed) else t.reports[p])
  }

  /** An assistant message whose run is still active. */
  predicate AwaitsRun(t: Tables, message: Message)
  {
    message.run.Some? && message.run.value in t.runs && Active(t.runs[message.run.value].status)
  }

  /** `interrupt_active_generation_runs`: pending messages of active runs fail, then the runs are interrupted. */
  function InterruptRuns(t: Tables): Tables
  {
    t.(messages := map m | m in t.messages ::
         if AwaitsRun(t, t.messages[m]) && t.messages[m].status == MessagePending
         then t.messages[m].(status := MessageFailed) else t.messages[m],
       runs := map r | r in t.runs ::
         if Active(t.runs[r].status) then t.runs[r].(status := Interrupted) else t.runs[r])
  }
}
