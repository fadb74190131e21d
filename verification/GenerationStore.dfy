/**
 * The repository functions that change generation runs, as methods on the database they
 * update in place. Each is one transaction of GenerationTables.
 */
module GenerationStore {
  import opened Seqs
  import opened GenerationTables
  import opened GenerationProtocol

  class Database {
    var runs: map<RunId, Run>
    var messages: map<MessageId, Message>
    var qaRecords: map<QaId, QaRecord>
    var reports: map<ReportId, ReportRow>

    function State(): Tables
      reads this
    {
      Tables(runs, messages, qaRecords, reports)
    }

    constructor ()
      ensures State() == START.tables
    {
      runs, messages, qaRecords, reports := map[], map[], map[], map[];
    }

    method CreateTurnSubmission(run: RunId, question: MessageId, answer: MessageId, text: string, now: nat)
      modifies this
      ensures State() == CreateTurn(old(State()), run, question, answer, text, now)
    {
      runs := runs[run := Run(Answer, Queued, now, None)];
      messages := messages[question := Message(text, MessageCompleted, None)];
      messages := messages[answer := Message("", MessagePending, Some(run))];
    }

    method CreateReportSubmission(run: RunId, report: ReportId, title: string, now: nat)
      modifies this
      ensures State() == CreateReport(old(State()), run, report, title, now)
    {
      runs := runs[run := Run(Report, Queued, now, None)];
      reports := reports[report := ReportRow(ReportQueued, run, title)];
    }

    /** The oldest queued run, by creation time and identifier, becomes running; None when there is none. */
    method ClaimNextQueuedRun() returns (claimed: Option<RunId>)
      modifies this
      ensures claimed.None? ==> State() == old(State()) && forall r :: r in runs ==> runs[r].status != Queued
      ensures claimed.Some? ==>
        && FirstInQueue(old(runs), claimed.value)
        && State() == SetStatus(old(State()), claimed.value, Running)
    {
      claimed := None;
      var unseen := runs.Keys;
      while unseen != {}
        invariant unseen <= runs.Keys
        invariant claimed.None? ==> forall r :: r in runs && r !in unseen ==> runs[r].status != Queued
        invariant claimed.Some? ==>
          && claimed.value in runs && runs[claimed.value].status == Queued
          && forall r :: r in runs && r !in unseen && runs[r].status == Queued ==> Before(State(), claimed.value, r)
        invariant State() == old(State())
        decreases unseen
      {
        var r :| r in unseen;
        unseen := unseen - {r};
        if runs[r].status == Queued && (claimed.None? || !Before(State(), claimed.value, r)) {
          claimed := Some(r);
        }
      }
      if claimed.Some? {
        runs := runs[claimed.value := runs[claimed.value].(status := Running)];
      }
    }

    /** False when there is no such run. */
    method StartGenerationRun(run: RunId) returns (found: bool)
      modifies this
      ensures found <==> run in old(runs)
      ensures State() == if found then StartRun(old(State()), run) else old(State())
    {
      found := run in runs;
      if found && runs[run].status == Queued {
        runs := runs[run := runs[run].(status := Running)];
      }
    }

    /** `get_message_by_run`. */
    method GetMessageByRun(run: RunId) returns (found: Option<MessageId>)
      ensures found.None? <==> forall m :: m in messages ==> !AnswerOf(State(), run, m)
      ensures found.Some? ==> AnswerOf(State(), run, found.value)
    {
      var rows := messages.Keys;
      while rows != {}
        invariant rows <= messages.Keys
        invariant forall m :: m in messages && m !in rows ==> !AnswerOf(State(), run, m)
        decreases |rows|
      {
        var m :| m in rows;
        if AnswerOf(State(), run, m) {
          return Some(m);
        }
        rows := rows - {m};
      }
      return None;
    }

    /** `get_report_by_run`. */
    method GetReportByRun(run: RunId) returns (found: Option<ReportId>)
      ensures found.None? <==> forall p :: p in reports ==> !ReportOf(State(), run, p)
      ensures found.Some? ==> ReportOf(State(), run, found.value)
    {
      var rows := reports.Keys;
      while rows != {}
        invariant rows <= reports.Keys
        invariant forall p :: p in reports && p !in rows ==> !ReportOf(State(), run, p)
        decreases |rows|
      {
        var p :| p in rows;
        if ReportOf(State(), run, p) {
          return Some(p);
        }
        rows := rows - {p};
      }
      return None;
    }

    /** False when a row is missing; the transaction is then rolled back. */
    method SaveQaTurn(run: RunId, question: MessageId, answer: MessageId, qa: QaId, text: string)
      returns (saved: bool)
      modifies this
      ensures
        var result := SaveTurn(old(State()), run, question, answer, qa, text);
        saved == result.Some? && State() == if saved then result.value else old(State())
    {
      if answer !in messages {
        return false;
      }
      var before := (messages, qaRecords);
      messages := messages[answer := messages[answer].(status := MessageCompleted, content := text)];
      qaRecords := qaRecords[qa := QaRecord(question, answer, text)];
      if run !in runs {
        messages, qaRecords := before.0, before.1;
        return false;
      }
      runs := runs[run := runs[run].(status := Completed, qaRecord := Some(qa))];
      return true;
    }

    /** `create_generation_run`, for a synthesis. */
    method CreateSynthesisRun(run: RunId, now: nat)
      modifies this
      ensures State() == CreateSynthesis(old(State()), run, now)
    {
      runs := runs[run := Run(CollectionSynthesis, Queued, now, None)];
    }

    method FailTurnRows(run: RunId, answer: MessageId)
      modifies this
      ensures State() == FailTurn(old(State()), run, answer)
    {
      if answer in messages {
        messages := messages[answer := messages[answer].(status := MessageFailed)];
      }
      if run in runs {
        runs := runs[run := runs[run].(status := Failed)];
      }
    }

    /** Completes or fails a synthesis run, if it exists. */
    method FinishSynthesisRun(run: RunId, succeeded: bool)
      modifies this
      ensures State() == FinishSynthesis(old(State()), run, succeeded)
    {
      if run in runs {
        runs := runs[run := runs[run].(status := if succeeded then Completed else Failed)];
      }
    }

    method StartReportRow(report: ReportId)
      modifies this
      ensures State() == StartReport(old(State()), report)
    {
      if report in reports && reports[report].status == ReportQueued {
        reports := reports[report := reports[report].(status := ReportRunning)];
      }
    }

    /** False when a row is missing; the transaction is then rolled back. */
    method SaveReportCompletion(run: RunId, report: ReportId, title: string) returns (saved: bool)
      modifies this
      ensures
        var result := CompleteReport(old(State()), run, report, title);
        saved == result.Some? && State() == if saved then result.value else old(State())
    {
      if report !in reports {
        return false;
      }
      var before := reports;
      reports := reports[report := reports[report].(status := ReportCompleted, title := title)];
      if run !in runs {
        reports := before;
        return false;
      }
      runs := runs[run := runs[run].(status := Completed)];
      return true;
    }

    method FailReportRows(report: ReportId)
      modifies this
      ensures State() == FailReport(old(State()), report)
    {
      if report in reports {
        var run := reports[report].run;
        reports := reports[report := reports[report].(status := ReportFailed)];
        if run in runs {
          runs := runs[run := runs[run].(status := Failed)];
        }
      }
    }

    method InterruptActiveReports()
      modifies this
      ensures State() == InterruptReports(old(State()))
    {
      reports := map p | p in reports ::
        if ReportActive(reports[p].status) then reports[p].(status := ReportFailed) else reports[p];
    }

    method InterruptActiveGenerationRuns()
      modifies this
      ensures State() == InterruptRuns(old(State()))
    {
      var active := set r | r in runs && Active(runs[r].status);
      messages := map m | m in messages ::
        if messages[m].run.Some? && messages[m].run.value in active && messages[m].status == MessagePending
        then messages[m].(status := MessageFailed) else messages[m];
      runs := map r | r in runs :: if r in active then runs[r].(status := Interrupted) else runs[r];
    }

    /**
     * `interrupt_active_runs`: two transactions; the process may die between them. Recovery that
     * runs to its end leaves nothing active, whether or not an earlier one died half way.
     */
    method InterruptActiveRuns(diesBetween: bool)
      requires Consistent(State(), true)
      modifies this
      ensures Consistent(State(), true)
      ensures !diesBetween ==> Consistent(State(), false) && NothingActive(State())
      ensures diesBetween ==> State() == InterruptReports(old(State()))
    {
      InterruptReportsKeeps(State());
      InterruptActiveReports();
      if diesBetween {
        return;
      }
      InterruptRunsKeeps(State());
      InterruptActiveGenerationRuns();
      WeakenStatuses(State(), false);
    }

    /**
     * The transactions of `execute_report`, one right after the other. There is no check of the
     * run's status, so only for an active run is everything kept that had come to an end.
     */
    method ExecuteReportRun(run: RunId, report: ReportId, succeeds: bool, title: string)
      requires run in runs && ReportOf(State(), run, report)
      modifies this
      ensures State() == ExecuteReport(old(State()), run, report, succeeds, title)
      ensures run in runs && runs[run].status == if succeeds then Completed else Failed
      ensures StatusesMatch(old(State()), false) && Active(old(runs)[run].status) ==> TerminalKept(old(State()), State())
    {
      ExecutedReportStatus(State(), run, report, succeeds, title);
      if StatusesMatch(State(), false) && Active(runs[run].status) {
        ExecutingActiveReportKeepsTerminal(State(), run, report, succeeds, title);
      }
      hide StatusesMatch, TerminalKept;
      var found := StartGenerationRun(run);
      StartReportRow(report);
      if succeeds {
        var saved := SaveReportCompletion(run, report, title);
      } else {
        FailReportRows(report);
      }
    }
  }
}
