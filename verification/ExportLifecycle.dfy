/**
 What runs of the export machinery keep. Some of it holds of every run; the rest
 holds of every job that no reaper read while its chain could still write the row
 and the grace period had passed. Such a scan is exactly what lets a reaper hold a
 live job, and exactly what lets a client see one failed.
 */
module ExportLifecycle {
  import opened Options
  import opened Store
  import opened ExportJobs
  import opened ExportRuns

  // ----- runs -----

  /** The i-th step is possible and leads to the next state. */
  ghost predicate StepAt(trace: seq<State>, steps: seq<Step>, i: nat)
    requires |trace| == |steps| + 1 && i < |steps|
  {
    Enabled(trace[i], steps[i]) && trace[i + 1] == Next(trace[i], steps[i])
  }

  ghost predicate Behaviour(trace: seq<State>, steps: seq<Step>) {
    && |trace| == |steps| + 1
    && trace[0] == Init
    && forall i :: 0 <= i < |steps| ==> StepAt(trace, steps, i)
  }

  lemma StepTaken(trace: seq<State>, steps: seq<Step>, i: nat)
    requires Behaviour(trace, steps) && i < |steps|
    ensures Enabled(trace[i], steps[i]) && trace[i + 1] == Next(trace[i], steps[i])
  {
    assert StepAt(trace, steps, i);
  }

  lemma {:induction false} AllOnTimeAlong(trace: seq<State>, steps: seq<Step>, k: nat)
    requires Behaviour(trace, steps) && k < |trace|
    ensures AllOnTime(trace[k])
  {
    if k > 0 {
      AllOnTimeAlong(trace, steps, k - 1);
      assert StepAt(trace, steps, k - 1);
      OnTimeKept(trace[k - 1], steps[k - 1]);
    }
  }

  // ----- every run: attempts and completion -----

  /** The row's count of attempts, as the chain stands. */
  predicate AttemptsFit(c: Chain, attempts: nat) {
    match c
    case Requested => attempts == 0
    case Rejecting => attempts == 0
    case Queued(r, _) => attempts <= r < MAX_ATTEMPTS
    case Starting(r, _) => attempts <= r < MAX_ATTEMPTS
    case Raised(r, _) => attempts <= r < MAX_ATTEMPTS
    case Working(r, _, _) => attempts == r + 1 && r < MAX_ATTEMPTS
    case Exhausting(r, _, _) => attempts <= r + 1 && r < MAX_ATTEMPTS
    case Ended(Rejected) => attempts == 0
    case _ => attempts <= MAX_ATTEMPTS
  }

  /**
   Only a finished chain leaves a completed row, with path, count and time filled, and
   a rejected chain leaves a failed one.
   */
  predicate EndOk(c: Chain, id: int, row: ExportJob) {
    && (row.status == Completed ==>
          c == Ended(Finished) && row.filePath == Some(Path(id)) && row.rowCount.Some? && row.completedAt.Some?)
    && (c == Ended(Rejected) ==> row.status == Failed && row.completedAt.Some?)
  }

  /** What holds of a row in every run, whatever reapers do. */
  predicate RowKnown(st: State, id: int)
    requires id in st.rows
  {
    && id in st.tasks
    && st.rows[id].createdAt == st.tasks[id].createdAt && st.rows[id].projectId == st.tasks[id].projectId
    && AttemptsFit(st.tasks[id].chain, st.rows[id].attempts)
    && EndOk(st.tasks[id].chain, id, st.rows[id])
  }

  predicate Known(st: State, id: int) {
    id in st.rows ==> RowKnown(st, id)
  }

  lemma SweepKnown(st: State, p: int, id: int)
    requires Enabled(st, Sweep(p)) && Known(st, id)
    ensures Known(Next(st, Sweep(p)), id)
    ensures id in st.rows ==> id in Next(st, Sweep(p)).rows && Next(st, Sweep(p)).rows[id].attempts == st.rows[id].attempts
    ensures Next(st, Sweep(p)).tasks == st.tasks
  {
  }

  /** Steps that write the row of the job they name. */
  predicate WritesRow(step: Step) {
    step.Request? || step.Reject? || step.MarkRunning? || step.Complete? || step.Record?
  }

  /** Steps that only move the chain of the job they name. */
  predicate MovesChain(step: Step) {
    step.Publish? || step.PublishFails? || step.Start? || step.LookupFails? || step.Retry? || step.GiveUp?
  }

  lemma WriteKnown(st: State, step: Step, id: int)
    requires WritesRow(step) && Enabled(st, step) && Known(st, id)
    ensures Known(Next(st, step), id)
  {
  }

  lemma MoveKnown(st: State, step: Step, id: int)
    requires MovesChain(step) && Enabled(st, step) && Known(st, id)
    ensures Known(Next(st, step), id)
  {
  }

  lemma OtherKnown(st: State, step: Step, id: int)
    requires !WritesRow(step) && !MovesChain(step) && !step.Sweep? && Enabled(st, step) && Known(st, id)
    ensures Known(Next(st, step), id)
  {
  }

  lemma KnownKept(st: State, step: Step, id: int)
    requires Enabled(st, step) && Known(st, id)
    ensures Known(Next(st, step), id)
  {
    if step.Sweep? {
      SweepKnown(st, step.process, id);
    } else if WritesRow(step) {
      WriteKnown(st, step, id);
    } else if MovesChain(step) {
      MoveKnown(st, step, id);
    } else {
      OtherKnown(st, step, id);
    }
  }

  lemma {:induction false} KnownAlong(trace: seq<State>, steps: seq<Step>, k: nat, id: int)
    requires Behaviour(trace, steps) && k < |trace|
    ensures Known(trace[k], id)
  {
    if k > 0 {
      KnownAlong(trace, steps, k - 1, id);
      StepTaken(trace, steps, k - 1);
      KnownKept(trace[k - 1], steps[k - 1], id);
    }
  }

  /** A row once gone stays gone, for its id is never requested again. */
  lemma RowsAppearOnce(st: State, step: Step, id: int)
    requires Enabled(st, step) && id in st.tasks && id in Next(st, step).rows
    ensures id in st.rows
  {
  }

  lemma TaskStays(st: State, step: Step, id: int)
    requires Enabled(st, step) && id in st.tasks
    ensures id in Next(st, step).tasks
  {
  }

  lemma {:induction false} TasksStay(trace: seq<State>, steps: seq<Step>, i: nat, k: nat, id: int)
    requires Behaviour(trace, steps) && i <= k < |trace| && id in trace[i].tasks
    ensures id in trace[k].tasks
    decreases k - i
  {
    if i < k {
      TasksStay(trace, steps, i, k - 1, id);
      StepTaken(trace, steps, k - 1);
      TaskStays(trace[k - 1], steps[k - 1], id);
    }
  }

  /** A row present early and late was present in between. */
  lemma RowStayed(trace: seq<State>, steps: seq<Step>, i: nat, k: nat, id: int)
    requires Behaviour(trace, steps) && i < k < |trace| && id in trace[i].rows && id in trace[k].rows
    ensures id in trace[k - 1].rows
  {
    KnownAlong(trace, steps, i, id);
    TasksStay(trace, steps, i, k - 1, id);
    StepTaken(trace, steps, k - 1);
    RowsAppearOnce(trace[k - 1], steps[k - 1], id);
  }

  lemma StepAttempts(st: State, step: Step, id: int)
    requires Enabled(st, step) && id in st.rows && id in Next(st, step).rows && RowKnown(st, id)
    ensures st.rows[id].attempts <= Next(st, step).rows[id].attempts
  {
    if step.Sweep? {
      SweepKnown(st, step.process, id);
    }
  }

  /** In every run the recorded attempts never decrease and never exceed three. */
  lemma {:induction false} AttemptsOnlyGrow(trace: seq<State>, steps: seq<Step>, i: nat, k: nat, id: int)
    requires Behaviour(trace, steps) && i <= k < |trace|
    requires id in trace[i].rows && id in trace[k].rows
    ensures trace[i].rows[id].attempts <= trace[k].rows[id].attempts <= 3
    decreases k - i
  {
    KnownAlong(trace, steps, k, id);
    if i < k {
      RowStayed(trace, steps, i, k, id);
      AttemptsOnlyGrow(trace, steps, i, k - 1, id);
      KnownAlong(trace, steps, k - 1, id);
      StepTaken(trace, steps, k - 1);
      StepAttempts(trace[k - 1], steps[k - 1], id);
    }
  }

  /** How many of the steps retry the job. */
  function RetrySteps(steps: seq<Step>, id: int): nat {
    if steps == [] then 0
    else
      var last := steps[|steps| - 1];
      RetrySteps(steps[..|steps| - 1], id) + if last.Retry? && last.id == id then 1 else 0
  }

  /** The chain carries as many retries as there were, and gave up only after two. */
  predicate RetriesCounted(st: State, steps: seq<Step>, id: int) {
    if id !in st.tasks then RetrySteps(steps, id) == 0
    else
      match st.tasks[id].chain
      case Requested => RetrySteps(steps, id) == 0
      case Rejecting => RetrySteps(steps, id) == 0
      case Queued(r, _) => RetrySteps(steps, id) == r
      case Starting(r, _) => RetrySteps(steps, id) == r
      case Raised(r, _) => RetrySteps(steps, id) == r
      case Working(r, _, _) => RetrySteps(steps, id) == r
      case Exhausting(r, _, _) => RetrySteps(steps, id) == r == 2
      case Recorded(retryable, _) => retryable ==> RetrySteps(steps, id) == 2
      case Ended(DeadLettered(retryable)) => retryable ==> RetrySteps(steps, id) == 2
      case Ended(_) => RetrySteps(steps, id) <= 2
  }

  /** A step of another job, or of none, leaves this job's chain where it stands. */
  lemma ChainUnmoved(st: State, step: Step, id: int)
    requires Enabled(st, step) && !Advances(step, id) && !(step.Request? && step.id == id)
    ensures id in Next(st, step).tasks <==> id in st.tasks
    ensures id in st.tasks ==> Next(st, step).tasks[id].chain == st.tasks[id].chain
  {
  }

  lemma ChainMoved(st: State, steps: seq<Step>, step: Step, id: int)
    requires Enabled(st, step) && RetriesCounted(st, steps, id) && RetrySteps(steps, id) <= 2
    requires Advances(step, id) || (step.Request? && step.id == id)
    ensures RetriesCounted(Next(st, step), steps + [step], id) && RetrySteps(steps + [step], id) <= 2
  {
    assert (steps + [step])[..|steps|] == steps;
  }

  lemma RetriesCountedKept(st: State, steps: seq<Step>, step: Step, id: int)
    requires Enabled(st, step) && RetriesCounted(st, steps, id) && RetrySteps(steps, id) <= 2
    ensures RetriesCounted(Next(st, step), steps + [step], id) && RetrySteps(steps + [step], id) <= 2
  {
    if Advances(step, id) || (step.Request? && step.id == id) {
      ChainMoved(st, steps, step, id);
    } else {
      ChainUnmoved(st, step, id);
      assert (steps + [step])[..|steps|] == steps;
    }
  }

  /** In every run a chain counts its retries, there are at most two, and only after two does it give up. */
  lemma {:induction false} RetriesAreCounted(trace: seq<State>, steps: seq<Step>, k: nat, id: int)
    requires Behaviour(trace, steps) && k < |trace|
    ensures RetriesCounted(trace[k], steps[..k], id) && RetrySteps(steps[..k], id) <= 2
  {
    if k > 0 {
      RetriesAreCounted(trace, steps, k - 1, id);
      StepTaken(trace, steps, k - 1);
      RetriesCountedKept(trace[k - 1], steps[..k - 1], steps[k - 1], id);
      assert steps[..k] == steps[..k - 1] + [steps[k - 1]];
    }
  }

  // ----- every step: the row, column by column -----

  /** A sweep that commits and includes the job: every row its process read is still there. */
  predicate SweepTakes(st: State, step: Step, id: int) {
    && step.Sweep? && step.process in st.scans && id in st.scans[step.process]
    && forall i :: i in st.scans[step.process] ==> i in st.rows
  }

  /** The step ends the job one way or another. */
  predicate EndsJob(st: State, step: Step, id: int) {
    (step.Complete? && step.id == id) || step == Record(id) || step == Reject(id) || SweepTakes(st, step, id)
  }

  /** The first 2000 characters, or all there are. */
  predicate CutTo2000(text: string, reason: string) {
    text <= reason && |text| == if |reason| <= 2000 then |reason| else 2000
  }

  /** The status and the number of attempts a step leaves in a row. */
  predicate ProgressWritten(st: State, step: Step, id: int, before: ExportJob, after: ExportJob)
    requires Enabled(st, step)
  {
    && (step == MarkRunning(id) ==> after.status == Running && after.attempts == st.tasks[id].chain.retries + 1)
    && (step.Complete? && step.id == id ==> after.status == Completed && after.attempts == before.attempts)
    && (step == Record(id) ==> after.status == Failed && after.attempts == st.tasks[id].chain.retries + 1)
    && (step == Reject(id) ==> after.status == Failed && after.attempts == 0)
    && (SweepTakes(st, step, id) ==> after.status == Failed && after.attempts == before.attempts)
  }

  /** The error message a step leaves: the raised text cut short, the broker's absence, or the status a reaper found. */
  predicate MessageWritten(st: State, step: Step, id: int, before: ExportJob, after: ExportJob)
    requires Enabled(st, step)
  {
    && (step == Complete(id, true) ==> after.errorMessage == None)
    && (step == Complete(id, false) ==> after.errorMessage == before.errorMessage)
    && (step == Reject(id) ==> after.errorMessage == Some(QueueUnavailable))
    && (SweepTakes(st, step, id) ==> after.errorMessage == Some(Abandoned(st.scans[step.process][id], 900)))
    && (step == Record(id) ==>
          && after.errorMessage.Some? && after.errorMessage.value.Reason?
          && CutTo2000(after.errorMessage.value.text, st.tasks[id].chain.reason))
  }

  /** The file a step names in a row, with its number of lines, and the time it ends the job. */
  predicate EndWritten(st: State, step: Step, id: int, before: ExportJob, after: ExportJob)
    requires Enabled(st, step)
  {
    && after.completedAt == (if EndsJob(st, step, id) then Some(st.now) else before.completedAt)
    && (if step.Complete? && step.id == id
        then after.filePath == Some(Path(id)) && after.rowCount == st.tasks[id].chain.written
        else after.filePath == before.filePath && after.rowCount == before.rowCount)
  }

  /** What one step can make of a row: each column as the step says, and otherwise as it was. */
  predicate RowWritten(st: State, step: Step, id: int, before: ExportJob, after: ExportJob)
    requires Enabled(st, step)
  {
    && after.projectId == before.projectId && after.requestedById == before.requestedById
    && after.createdAt == before.createdAt
    && ProgressWritten(st, step, id, before, after) && MessageWritten(st, step, id, before, after)
    && EndWritten(st, step, id, before, after)
    && (step != MarkRunning(id) && !EndsJob(st, step, id) ==> after == before)
  }

  lemma SweepWrites(st: State, step: Step, id: int)
    requires Enabled(st, step) && step.Sweep?
    ensures Next(st, step).rows.Keys == st.rows.Keys
    ensures id in st.rows ==>
              Next(st, step).rows[id] == if SweepTakes(st, step, id)
                                         then Reaped(st.rows[id], st.scans[step.process][id], 900, st.now) else st.rows[id]
  {
    assert (forall i :: i in st.scans[step.process] ==> i in st.rows) <==>
           !exists i :: i in st.scans[step.process] && i !in st.rows;
  }

  lemma WriterWrites(st: State, step: Step, id: int)
    requires Enabled(st, step) && WritesRow(step) && !step.Request? && step.id == id
    requires id in st.rows && id in Next(st, step).rows
    ensures RowWritten(st, step, id, st.rows[id], Next(st, step).rows[id])
  {
  }

  lemma OthersKeepRow(st: State, step: Step, id: int)
    requires Enabled(st, step) && !step.Sweep? && !(WritesRow(step) && step.id == id)
    requires id in st.rows && id in Next(st, step).rows
    ensures Next(st, step).rows[id] == st.rows[id]
  {
  }

  /** Every step of every run writes exactly these columns of exactly these rows. */
  lemma RowsByColumns(st: State, step: Step, id: int)
    requires Enabled(st, step)
    ensures id in Next(st, step).rows <==> (id in st.rows && step != RemoveRow(id)) || (step.Request? && step.id == id)
    ensures id in st.rows && id in Next(st, step).rows ==> RowWritten(st, step, id, st.rows[id], Next(st, step).rows[id])
    ensures step.Request? && step.id == id ==>
              Next(st, step).rows[id] ==
              ExportJob(step.projectId, step.userId, Pending, None, None, None, 0, st.now, None)
  {
    if step.Sweep? {
      SweepWrites(st, step, id);
    } else if id in st.rows && id in Next(st, step).rows {
      if WritesRow(step) && step.id == id {
        WriterWrites(st, step, id);
      } else {
        OthersKeepRow(st, step, id);
      }
    }
  }

  // ----- every run: files -----

  /**
   The step wrote this file for the job: the header and one line per issue of the
   project that the query returned from the database as it was then, by increasing id.
   */
  predicate Wrote(step: Step, id: int, file: seq<Line>, projectId: int, count: nat) {
    && step.WriteFile? && step.id == id && step.file == file && |step.ids| == count
    && QueryResult(step.db, projectId, step.ids) && FileLists(file, step.db, step.ids)
  }

  /** The job's file is the one a step of the past wrote for it. */
  ghost predicate FileOk(st: State, past: seq<Step>, id: int, projectId: int, count: nat) {
    Path(id) in st.files &&
    exists i :: 0 <= i < |past| && Wrote(past[i], id, st.files[Path(id)], projectId, count)
  }

  /** The file an attempt has written, and the file behind a completed row. */
  ghost predicate FilesOk(st: State, past: seq<Step>, id: int) {
    && (id in st.tasks && st.tasks[id].chain.Working? && st.tasks[id].chain.written.Some? ==>
          FileOk(st, past, id, st.tasks[id].projectId, st.tasks[id].chain.written.value))
    && (id in st.rows && st.rows[id].status == Completed && st.rows[id].rowCount.Some? ==>
          FileOk(st, past, id, st.rows[id].projectId, st.rows[id].rowCount.value))
  }

  lemma FileStays(st: State, past: seq<Step>, step: Step, id: int, projectId: int, count: nat)
    requires Enabled(st, step) && FileOk(st, past, id, projectId, count)
    requires !(step.WriteFile? && step.id == id)
    ensures FileOk(Next(st, step), past + [step], id, projectId, count)
  {
    if step.WriteFile? {
      PathsDistinct(id, step.id);
    }
    var i :| 0 <= i < |past| && Wrote(past[i], id, st.files[Path(id)], projectId, count);
    assert (past + [step])[i] == past[i];
    assert Next(st, step).files[Path(id)] == st.files[Path(id)];
  }

  /** The chain of a step that is not its write or its completion keeps what it has written; so does a completed row. */
  lemma WrittenStays(st: State, step: Step, id: int)
    requires Enabled(st, step) && !(step.WriteFile? && step.id == id)
    requires id in Next(st, step).tasks && Next(st, step).tasks[id].chain.Working?
    requires Next(st, step).tasks[id].chain.written.Some?
    ensures id in st.tasks && st.tasks[id].projectId == Next(st, step).tasks[id].projectId
    ensures st.tasks[id].chain == Next(st, step).tasks[id].chain
  {
  }

  /** Only its own completion makes a row completed, and no file is written for a completed job. */
  lemma CompletedStays(st: State, step: Step, id: int)
    requires Enabled(st, step) && Known(st, id)
    requires id in Next(st, step).rows && Next(st, step).rows[id].status == Completed
    ensures id in st.rows
    ensures (step.Complete? && step.id == id) || st.rows[id] == Next(st, step).rows[id]
    ensures !(step.WriteFile? && step.id == id)
  {
  }

  lemma CompletionWrites(st: State, id: int, clears: bool)
    requires Enabled(st, Complete(id, clears)) && RowKnown(st, id)
    ensures var row := Next(st, Complete(id, clears)).rows[id];
            row.projectId == st.tasks[id].projectId && row.rowCount == st.tasks[id].chain.written
  {
  }

  lemma WriteMakesFile(st: State, past: seq<Step>, step: Step)
    requires Enabled(st, step) && step.WriteFile?
    ensures FileOk(Next(st, step), past + [step], step.id, st.tasks[step.id].projectId, |step.ids|)
    ensures Next(st, step).tasks[step.id] ==
            st.tasks[step.id].(chain := st.tasks[step.id].chain.(written := Some(|step.ids|)))
  {
    assert (past + [step])[|past|] == step;
    assert Wrote(step, step.id, Next(st, step).files[Path(step.id)], st.tasks[step.id].projectId, |step.ids|);
  }

  lemma WrittenFileKept(st: State, past: seq<Step>, step: Step, id: int)
    requires Enabled(st, step) && FilesOk(st, past, id)
    requires id in Next(st, step).tasks && Next(st, step).tasks[id].chain.Working?
    requires Next(st, step).tasks[id].chain.written.Some?
    ensures FileOk(Next(st, step), past + [step], id, Next(st, step).tasks[id].projectId, Next(st, step).tasks[id].chain.written.value)
  {
    if step.WriteFile? && step.id == id {
      WriteMakesFile(st, past, step);
    } else {
      WrittenStays(st, step, id);
      FileStays(st, past, step, id, st.tasks[id].projectId, st.tasks[id].chain.written.value);
    }
  }

  lemma CompletedFileKept(st: State, past: seq<Step>, step: Step, id: int)
    requires Enabled(st, step) && Known(st, id) && FilesOk(st, past, id)
    requires id in Next(st, step).rows && Next(st, step).rows[id].status == Completed
    requires Next(st, step).rows[id].rowCount.Some?
    ensures FileOk(Next(st, step), past + [step], id, Next(st, step).rows[id].projectId, Next(st, step).rows[id].rowCount.value)
  {
    CompletedStays(st, step, id);
    if step.Complete? && step.id == id {
      CompletionWrites(st, id, step.clears);
      FileStays(st, past, step, id, st.tasks[id].projectId, st.tasks[id].chain.written.value);
    } else {
      FileStays(st, past, step, id, st.rows[id].projectId, st.rows[id].rowCount.value);
    }
  }

  lemma FilesOkKept(st: State, past: seq<Step>, step: Step, id: int)
    requires Enabled(st, step) && Known(st, id) && FilesOk(st, past, id)
    ensures FilesOk(Next(st, step), past + [step], id)
  {
    var st' := Next(st, step);
    if id in st'.tasks && st'.tasks[id].chain.Working? && st'.tasks[id].chain.written.Some? {
      WrittenFileKept(st, past, step, id);
    }
    if id in st'.rows && st'.rows[id].status == Completed && st'.rows[id].rowCount.Some? {
      CompletedFileKept(st, past, step, id);
    }
  }

  lemma {:induction false} FilesOkAlong(trace: seq<State>, steps: seq<Step>, k: nat, id: int)
    requires Behaviour(trace, steps) && k < |trace|
    ensures FilesOk(trace[k], steps[..k], id)
  {
    if k > 0 {
      FilesOkAlong(trace, steps, k - 1, id);
      KnownAlong(trace, steps, k - 1, id);
      StepTaken(trace, steps, k - 1);
      FilesOkKept(trace[k - 1], steps[..k - 1], steps[k - 1], id);
      assert steps[..k - 1] + [steps[k - 1]] == steps[..k];
    }
  }

  /**
   In every run a completed row names its own file, and an earlier step of the run wrote
   that file for this job, with as many issues of its project as the row counts.
   */
  lemma CompletedMeansFile(trace: seq<State>, steps: seq<Step>, k: nat, id: int)
    requires Behaviour(trace, steps) && k < |trace|
    requires id in trace[k].rows && trace[k].rows[id].status == Completed
    ensures var row := trace[k].rows[id];
            row.filePath == Some(Path(id)) && row.rowCount.Some? && FileOk(trace[k], steps[..k], id, row.projectId, row.rowCount.value)
  {
    KnownAlong(trace, steps, k, id);
    FilesOkAlong(trace, steps, k, id);
  }

  /** In every run a job the broker refused stays failed with no attempt made. */
  lemma RejectedMeansFailed(trace: seq<State>, steps: seq<Step>, i: nat, k: nat, id: int)
    requires Behaviour(trace, steps) && i < k < |trace| && steps[i] == Reject(id) && id in trace[k].rows
    ensures trace[k].rows[id].status == Failed && trace[k].rows[id].attempts == 0
  {
    StepTaken(trace, steps, i);
    EndStays(trace, steps, i + 1, k, id);
    KnownAlong(trace, steps, k, id);
  }

  /** A chain that has ended stays as it ended. */
  lemma {:induction false} EndStays(trace: seq<State>, steps: seq<Step>, i: nat, k: nat, id: int)
    requires Behaviour(trace, steps) && i <= k < |trace| && id in trace[i].tasks && trace[i].tasks[id].chain.Ended?
    ensures id in trace[k].tasks && trace[k].tasks[id].chain == trace[i].tasks[id].chain
    decreases k - i
  {
    if i < k {
      EndStays(trace, steps, i, k - 1, id);
      StepTaken(trace, steps, k - 1);
      EndStep(trace[k - 1], steps[k - 1], id);
    }
  }

  lemma EndStep(st: State, step: Step, id: int)
    requires Enabled(st, step) && id in st.tasks && st.tasks[id].chain.Ended?
    ensures id in Next(st, step).tasks && Next(st, step).tasks[id].chain == st.tasks[id].chain
  {
  }

  // ----- jobs no reaper read too late -----

  /** What a row looks like at each point of its chain. */
  predicate StatusFits(c: Chain, status: JobStatus) {
    match c
    case Requested => status == Pending
    case Rejecting => status == Pending
    case Queued(_, _) => !Terminal(status)
    case Starting(_, _) => !Terminal(status)
    case Raised(_, _) => !Terminal(status)
    case Working(_, _, _) => status == Running
    case Exhausting(_, _, _) => !Terminal(status)
    case Recorded(retryable, _) => status == Failed && retryable
    case Ended(Finished) => status == Completed
    case Ended(DeadLettered(retryable)) => status == Failed && retryable
    case Ended(Rejected) => status == Failed
    case Ended(Lost) => status != Completed
  }

  predicate RowOk(st: State, id: int) {
    id in st.rows ==>
      RowKnown(st, id) && FieldsMatchStatus(st.rows[id]) && StatusFits(st.tasks[id].chain, st.rows[id].status)
  }

  /** A reaper holds the job only if its chain died. */
  ghost predicate HeldOnlyDead(st: State, id: int) {
    forall p :: p in st.scans && id in st.scans[p] ==> id in st.tasks && st.tasks[id].chain == Ended(Lost)
  }

  /** A reaper reads the job while its chain may still write the row and the grace period is over. */
  predicate CatchesLive(st: State, step: Step, id: int) {
    step.Scan? && id in st.rows && id in st.tasks && MayWrite(st.tasks[id].chain) && !Young(st.tasks[id], st.now)
  }

  lemma SweepRowOk(st: State, p: int, id: int)
    requires Enabled(st, Sweep(p)) && RowOk(st, id) && HeldOnlyDead(st, id)
    ensures RowOk(Next(st, Sweep(p)), id)
  {
  }

  /** Between two states the row and the chain of the job are the same, or the row is gone. */
  predicate SameJob(st: State, st': State, id: int) {
    id in st'.rows ==> id in st.rows && id in st.tasks && id in st'.tasks &&
                       st'.rows[id] == st.rows[id] && st'.tasks[id] == st.tasks[id]
  }

  lemma SameJobOk(st: State, st': State, id: int)
    requires SameJob(st, st', id) && RowOk(st, id)
    ensures RowOk(st', id)
  {
  }

  lemma WriteRowOk(st: State, step: Step, id: int)
    requires WritesRow(step) && step.id == id && Enabled(st, step) && RowOk(st, id)
    ensures RowOk(Next(st, step), id)
  {
    WriteKnown(st, step, id);
  }

  lemma MoveRowOk(st: State, step: Step, id: int)
    requires MovesChain(step) && step.id == id && Enabled(st, step) && RowOk(st, id)
    ensures RowOk(Next(st, step), id)
  {
    MoveKnown(st, step, id);
  }

  lemma EndRowOk(st: State, step: Step, id: int)
    requires step == PushLetter(id) || step == Crash(id) || (step.WriteFile? && step.id == id)
    requires Enabled(st, step) && RowOk(st, id)
    ensures RowOk(Next(st, step), id)
  {
    OtherKnown(st, step, id);
  }

  /** A step that names another job, or no chain, leaves the job alone. */
  predicate Elsewhere(step: Step, id: int) {
    match step
    case Tick(_) => true
    case Scan(_) => true
    case Sweep(_) => false
    case RemoveRow(_) => true
    case _ => step.id != id
  }

  lemma ElsewhereSameJob(st: State, step: Step, id: int)
    requires Elsewhere(step, id) && Enabled(st, step) && (id in st.rows ==> id in st.tasks)
    ensures SameJob(st, Next(st, step), id)
  {
  }

  lemma RowOkKept(st: State, step: Step, id: int)
    requires Enabled(st, step) && RowOk(st, id) && HeldOnlyDead(st, id)
    ensures RowOk(Next(st, step), id)
  {
    if step.Sweep? {
      SweepRowOk(st, step.process, id);
    } else if Elsewhere(step, id) {
      ElsewhereSameJob(st, step, id);
      SameJobOk(st, Next(st, step), id);
    } else if WritesRow(step) {
      WriteRowOk(st, step, id);
    } else if MovesChain(step) {
      MoveRowOk(st, step, id);
    } else {
      EndRowOk(st, step, id);
    }
  }

  /**
   A reaper that reads now takes a job whose chain may still write its row exactly
   when that job is past the grace period; else it takes only what chains lost.
   */
  lemma ScanTakesLiveJobsExactlyWhenOld(st: State, id: int)
    requires RowOk(st, id) && id in st.rows
    ensures MayWrite(st.tasks[id].chain) ==>
              (id in StrandedIds(st.rows, st.now - GRACE) <==> !Young(st.tasks[id], st.now))
    ensures id in StrandedIds(st.rows, st.now - GRACE) && !MayWrite(st.tasks[id].chain) ==>
              st.tasks[id].chain == Ended(Lost)
  {
  }

  /** One step keeps reapers to dead chains exactly unless it is a scan that catches the job alive. */
  lemma HeldOnlyDeadKept(st: State, step: Step, id: int)
    requires Enabled(st, step) && RowOk(st, id) && HeldOnlyDead(st, id)
    ensures HeldOnlyDead(Next(st, step), id) <==> !CatchesLive(st, step, id)
  {
    var st' := Next(st, step);
    if id in st.tasks && st.tasks[id].chain == Ended(Lost) {
      EndStep(st, step, id);
    }
    if step.Scan? {
      assert st'.scans[step.process].Keys == StrandedIds(st.rows, st.now - GRACE);
      if id in st.rows {
        ScanTakesLiveJobsExactlyWhenOld(st, id);
      }
    }
  }

  /** None of the first `k` steps is a scan that catches the job alive. */
  ghost predicate Spared(trace: seq<State>, steps: seq<Step>, k: nat, id: int)
    requires k <= |steps| < |trace|
  {
    forall i :: 0 <= i < k ==> !CatchesLive(trace[i], steps[i], id)
  }

  lemma {:induction false} SparedIsOk(trace: seq<State>, steps: seq<Step>, k: nat, id: int)
    requires Behaviour(trace, steps) && k < |trace| && Spared(trace, steps, k, id)
    ensures RowOk(trace[k], id) && HeldOnlyDead(trace[k], id)
  {
    if k > 0 {
      SparedIsOk(trace, steps, k - 1, id);
      StepTaken(trace, steps, k - 1);
      assert !CatchesLive(trace[k - 1], steps[k - 1], id);
      RowOkKept(trace[k - 1], steps[k - 1], id);
      HeldOnlyDeadKept(trace[k - 1], steps[k - 1], id);
    }
  }

  /**
   The exact condition: along a run reapers hold the job only once its chain is dead
   if and only if no scan read it alive with its grace period over.
   */
  lemma {:induction false} ReapersHoldOnlyTheDead(trace: seq<State>, steps: seq<Step>, k: nat, id: int)
    requires Behaviour(trace, steps) && k < |trace|
    ensures Spared(trace, steps, k, id) <==> forall j :: 0 <= j <= k ==> HeldOnlyDead(trace[j], id)
  {
    if k > 0 {
      ReapersHoldOnlyTheDead(trace, steps, k - 1, id);
      StepTaken(trace, steps, k - 1);
      if Spared(trace, steps, k - 1, id) {
        SparedIsOk(trace, steps, k - 1, id);
        HeldOnlyDeadKept(trace[k - 1], steps[k - 1], id);
      }
    }
  }

  function Rank(s: JobStatus): nat {
    match s
    case Pending => 0
    case Running => 1
    case _ => 2
  }

  /** What a step, and hence a run, may do to a row's status; a completed row is left alone altogether. */
  predicate Climbs(before: ExportJob, after: ExportJob) {
    && Rank(before.status) <= Rank(after.status)
    && (Terminal(before.status) ==> after.status == before.status)
    && (before.status == Completed ==> after == before)
    && after.createdAt == before.createdAt
  }

  lemma StepClimbs(st: State, step: Step, id: int)
    requires Enabled(st, step) && RowOk(st, id) && HeldOnlyDead(st, id)
    requires id in st.rows && id in Next(st, step).rows
    ensures Climbs(st.rows[id], Next(st, step).rows[id])
    ensures !(st.rows[id].status == Pending && Next(st, step).rows[id].status == Completed)
  {
  }

  /**
   The status of a job no reaper caught alive only climbs from pending over running
   to one terminal status, which is final, and its completed row never changes again.
   */
  lemma {:induction false} StatusOnlyClimbs(trace: seq<State>, steps: seq<Step>, i: nat, k: nat, id: int)
    requires Behaviour(trace, steps) && i <= k < |trace| && Spared(trace, steps, k, id)
    requires id in trace[i].rows && id in trace[k].rows
    ensures Climbs(trace[i].rows[id], trace[k].rows[id])
    decreases k - i
  {
    if i < k {
      RowStayed(trace, steps, i, k, id);
      StatusOnlyClimbs(trace, steps, i, k - 1, id);
      SparedIsOk(trace, steps, k - 1, id);
      StepTaken(trace, steps, k - 1);
      StepClimbs(trace[k - 1], steps[k - 1], id);
    }
  }

  /** The columns of such a row say what its status says. */
  lemma FieldsAlwaysMatch(trace: seq<State>, steps: seq<Step>, k: nat, id: int)
    requires Behaviour(trace, steps) && k < |trace| && Spared(trace, steps, k, id) && id in trace[k].rows
    ensures FieldsMatchStatus(trace[k].rows[id])
  {
    SparedIsOk(trace, steps, k, id);
  }

  /** While an attempt is running, waiting or about to be retried, nobody sees such a job failed. */
  lemma NotFailedBetweenAttempts(trace: seq<State>, steps: seq<Step>, k: nat, id: int)
    requires Behaviour(trace, steps) && k < |trace| && Spared(trace, steps, k, id) && id in trace[k].rows
    requires id in trace[k].tasks && MayWrite(trace[k].tasks[id].chain)
    ensures !Terminal(trace[k].rows[id].status)
  {
    SparedIsOk(trace, steps, k, id);
  }

  /** A client that looks now sees the job failed although its chain may still write the row. */
  predicate FailedAlive(st: State, id: int) {
    id in st.rows && Terminal(st.rows[id].status) && id in st.tasks && MayWrite(st.tasks[id].chain)
  }

  /** The job is not seen failed alive now, nor after any sweep that is under way. */
  ghost predicate NeverFailedAlive(st: State, id: int) {
    && !FailedAlive(st, id)
    && forall p :: Enabled(st, Sweep(p)) ==> !FailedAlive(Next(st, Sweep(p)), id)
  }

  lemma OkIsNeverFailedAlive(st: State, id: int)
    requires RowOk(st, id) && HeldOnlyDead(st, id)
    ensures NeverFailedAlive(st, id)
  {
    forall p | Enabled(st, Sweep(p)) ensures !FailedAlive(Next(st, Sweep(p)), id) {
      SweepRowOk(st, p, id);
    }
  }

  /** A scan that catches a job alive needs only its sweep to show the job failed, its chain still at work. */
  lemma LateScanShowsFailure(st: State, p: int, id: int)
    requires Enabled(st, Step.Scan(p)) && RowOk(st, id) && CatchesLive(st, Step.Scan(p), id)
    ensures var seen := Next(st, Step.Scan(p));
            && Enabled(seen, Sweep(p)) && FailedAlive(Next(seen, Sweep(p)), id)
            && Next(seen, Sweep(p)).rows[id].status == Failed
  {
    ScanTakesLiveJobsExactlyWhenOld(st, id);
  }

  /**
   The exact condition for what clients see: along a run, and after any sweep under
   way, a job is never seen failed while its chain may write, if and only if no scan
   caught it alive past its grace.
   */
  lemma {:induction false} NeverSeenFailedExactly(trace: seq<State>, steps: seq<Step>, k: nat, id: int)
    requires Behaviour(trace, steps) && k < |trace|
    ensures Spared(trace, steps, k, id) <==> forall j :: 0 <= j <= k ==> NeverFailedAlive(trace[j], id)
  {
    if k == 0 {
      SparedIsOk(trace, steps, 0, id);
      OkIsNeverFailedAlive(trace[0], id);
    } else {
      NeverSeenFailedExactly(trace, steps, k - 1, id);
      if Spared(trace, steps, k - 1, id) {
        StepTaken(trace, steps, k - 1);
        SparedIsOk(trace, steps, k - 1, id);
        if CatchesLive(trace[k - 1], steps[k - 1], id) {
          LateScanShowsFailure(trace[k - 1], steps[k - 1].process, id);
          assert !NeverFailedAlive(trace[k], id);
        } else {
          SparedIsOk(trace, steps, k, id);
          OkIsNeverFailedAlive(trace[k], id);
        }
      }
    }
  }

  /** If at every scan a live job's waits, attempts begun and backoffs fit the grace period, no reaper ever holds it alive. */
  lemma WithinBudgetIsSpared(trace: seq<State>, steps: seq<Step>, k: nat, id: int)
    requires Behaviour(trace, steps) && k < |trace|
    requires forall i :: 0 <= i < k && steps[i].Scan? && id in trace[i].tasks && MayWrite(trace[i].tasks[id].chain) ==>
               WithinBudget(trace[i].tasks[id], trace[i].now)
    ensures Spared(trace, steps, k, id) && forall j :: 0 <= j <= k ==> HeldOnlyDead(trace[j], id)
  {
    forall i | 0 <= i < k ensures !CatchesLive(trace[i], steps[i], id) {
      AllOnTimeAlong(trace, steps, i);
      if steps[i].Scan? && id in trace[i].tasks && MayWrite(trace[i].tasks[id].chain) {
        assert OnTime(trace[i].tasks[id], trace[i].now);
        AgeBound(trace[i].tasks[id], trace[i].now);
      }
    }
    ReapersHoldOnlyTheDead(trace, steps, k, id);
  }

  /** A third attempt never fits the budget at full length: 909 seconds exceed the 900 of grace. */
  lemma BudgetByRetries(task: Task, now: real)
    requires OnTime(task, now) && MayWrite(task.chain)
    ensures Retries(task.chain) == 0 && TotalWait(task, now) <= 600.0 ==> WithinBudget(task, now)
    ensures Retries(task.chain) == 1 && TotalWait(task, now) <= 297.0 ==> WithinBudget(task, now)
    ensures Retries(task.chain) == 2 && !task.chain.Queued? && TotalWait(task, now) >= 0.0 ==> !WithinBudget(task, now)
  {
  }
}
