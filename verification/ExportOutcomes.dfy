/**
 How chains of task executions end, in every run; and a run in which the grace
 period is too short.
 */
module ExportOutcomes {
  import opened Options
  import opened Store
  import opened ExportJobs
  import opened ExportRuns
  import opened ExportLifecycle

  // ----- every chain ends -----

  /** An upper bound on the steps a chain still has in it. */
  function Weight(c: Chain): nat {
    match c
    case Requested => 17
    case Rejecting => 1
    case Queued(r, _) => if r < MAX_ATTEMPTS then 16 - 4 * r else 4
    case Starting(r, _) => if r < MAX_ATTEMPTS then 15 - 4 * r else 3
    case Raised(r, _) => if r < MAX_ATTEMPTS then 15 - 4 * r else 3
    case Working(r, _, written) => (if r < MAX_ATTEMPTS then 14 - 4 * r else 5) - (if written.Some? then 1 else 0)
    case Exhausting(_, _, _) => 2
    case Recorded(_, _) => 1
    case Ended(_) => 0
  }

  function CountAdvances(steps: seq<Step>, id: int): nat {
    if steps == [] then 0
    else CountAdvances(steps[..|steps| - 1], id) + if Advances(steps[|steps| - 1], id) then 1 else 0
  }

  predicate RetriesBounded(c: Chain) {
    (c.Queued? || Unhandled(c) || c.Exhausting?) ==> c.retries < MAX_ATTEMPTS
  }

  lemma AdvanceLightens(st: State, step: Step, id: int)
    requires Enabled(st, step) && Advances(step, id) && id in st.tasks && RetriesBounded(st.tasks[id].chain)
    ensures id in Next(st, step).tasks && RetriesBounded(Next(st, step).tasks[id].chain)
    ensures Weight(Next(st, step).tasks[id].chain) < Weight(st.tasks[id].chain)
  {
  }

  lemma StepLightens(st: State, step: Step, id: int)
    requires Enabled(st, step) && id in st.tasks && RetriesBounded(st.tasks[id].chain)
    ensures id in Next(st, step).tasks && RetriesBounded(Next(st, step).tasks[id].chain)
    ensures Advances(step, id) ==> Weight(Next(st, step).tasks[id].chain) < Weight(st.tasks[id].chain)
    ensures !Advances(step, id) ==> Next(st, step).tasks[id].chain == st.tasks[id].chain
  {
    if Advances(step, id) {
      AdvanceLightens(st, step, id);
    } else {
      ChainUnmoved(st, step, id);
    }
  }

  lemma NoAdvanceWithoutTask(st: State, step: Step, id: int)
    requires Enabled(st, step) && id !in st.tasks
    ensures !Advances(step, id)
    ensures id in Next(st, step).tasks ==> Next(st, step).tasks[id].chain == Requested
  {
  }

  /** A chain takes at most 17 steps however the run interleaves, so it ends. */
  lemma {:induction false} ChainsAreFinite(trace: seq<State>, steps: seq<Step>, k: nat, id: int)
    requires Behaviour(trace, steps) && k < |trace|
    ensures id !in trace[k].tasks ==> CountAdvances(steps[..k], id) == 0
    ensures id in trace[k].tasks ==> RetriesBounded(trace[k].tasks[id].chain)
    ensures id in trace[k].tasks ==> CountAdvances(steps[..k], id) + Weight(trace[k].tasks[id].chain) <= 17
  {
    if k > 0 {
      ChainsAreFinite(trace, steps, k - 1, id);
      assert StepAt(trace, steps, k - 1);
      assert steps[..k][..k - 1] == steps[..k - 1];
      if id in trace[k - 1].tasks {
        StepLightens(trace[k - 1], steps[k - 1], id);
      } else {
        NoAdvanceWithoutTask(trace[k - 1], steps[k - 1], id);
        if id in trace[k].tasks {
          assert Weight(Requested) == 17;
        }
      }
    }
  }

  // ----- dead letters -----

  function LettersFor(letters: seq<Letter>, id: int): seq<Letter> {
    if letters == [] then []
    else
      var last := letters[|letters| - 1];
      LettersFor(letters[..|letters| - 1], id) + if last.jobId == id then [last] else []
  }

  /** The chain of the job ended dead-lettered. */
  predicate DeadEnd(st: State, id: int) {
    id in st.tasks && st.tasks[id].chain.Ended? && st.tasks[id].chain.outcome.DeadLettered?
  }

  /** One letter for a chain that ended dead-lettered, none for any other. */
  ghost predicate LettersOk(st: State, id: int) {
    LettersFor(st.letters, id) ==
      if DeadEnd(st, id) then [Letter(id, st.tasks[id].chain.outcome.retryable)] else []
  }

  lemma LettersForAppend(letters: seq<Letter>, l: Letter, id: int)
    ensures LettersFor(letters + [l], id) == LettersFor(letters, id) + if l.jobId == id then [l] else []
  {
    assert (letters + [l])[..|letters|] == letters;
  }

  lemma PushOk(st: State, pushed: int, id: int)
    requires Enabled(st, PushLetter(pushed)) && LettersOk(st, id)
    ensures LettersOk(Next(st, PushLetter(pushed)), id)
  {
    LettersForAppend(st.letters, Letter(pushed, st.tasks[pushed].chain.retryable), id);
    if pushed == id {
      assert !DeadEnd(st, id) && DeadEnd(Next(st, PushLetter(pushed)), id);
    } else {
      assert DeadEnd(Next(st, PushLetter(pushed)), id) <==> DeadEnd(st, id);
    }
  }

  /** No other step pushes a letter or makes or unmakes a dead end. */
  lemma OtherStepPushesNothing(st: State, step: Step, id: int)
    requires Enabled(st, step) && !step.PushLetter?
    ensures Next(st, step).letters == st.letters && (DeadEnd(Next(st, step), id) <==> DeadEnd(st, id))
    ensures DeadEnd(st, id) ==> Next(st, step).tasks[id].chain == st.tasks[id].chain
  {
  }

  lemma LettersOkKept(st: State, step: Step, id: int)
    requires Enabled(st, step) && LettersOk(st, id)
    ensures LettersOk(Next(st, step), id)
  {
    if step.PushLetter? {
      PushOk(st, step.id, id);
    } else {
      OtherStepPushesNothing(st, step, id);
    }
  }

  /** Exactly one push is attempted for a dead-lettered chain and none for a chain with any other end. */
  lemma {:induction false} OneLetterPerDeadChain(trace: seq<State>, steps: seq<Step>, k: nat, id: int)
    requires Behaviour(trace, steps) && k < |trace|
    ensures LettersOk(trace[k], id)
  {
    if k > 0 {
      OneLetterPerDeadChain(trace, steps, k - 1, id);
      assert StepAt(trace, steps, k - 1);
      LettersOkKept(trace[k - 1], steps[k - 1], id);
    }
  }

  /** Step `i` began an attempt, and its lookup answered that there is no row. */
  ghost predicate AbsentAtStart(trace: seq<State>, steps: seq<Step>, i: int, id: int)
    requires |trace| == |steps| + 1
  {
    0 <= i < |steps| && steps[i] == Start(id) && id !in trace[i].rows
  }

  predicate SaysAbsent(c: Chain) {
    (c.Recorded? && !c.retryable) || c == Ended(DeadLettered(false))
  }

  predicate SaysPresent(c: Chain) {
    (c.Recorded? && c.retryable) || c == Ended(DeadLettered(true))
  }

  lemma AbsentStep(st: State, step: Step, id: int)
    requires Enabled(st, step) && id in st.tasks
    ensures var c, c' := st.tasks[id].chain, Next(st, step).tasks[id].chain;
            && (SaysAbsent(c') && !SaysAbsent(c) ==> step == Start(id) && id !in st.rows)
            && (step == Start(id) && id !in st.rows ==> SaysAbsent(c') && !SaysAbsent(c) && !SaysPresent(c) && !c.Ended?)
            && (SaysPresent(c') ==> !SaysAbsent(c) && c != Ended(Lost))
            && (SaysAbsent(c) ==> SaysAbsent(c') || c' == Ended(Lost))
            && (c.Ended? ==> c' == c)
  {
  }

  /** A dead letter is marked not retryable exactly when an attempt of its chain started without finding the row. */
  lemma {:induction false} RetryableExactly(trace: seq<State>, steps: seq<Step>, k: nat, id: int)
    requires Behaviour(trace, steps) && k < |trace| && id in trace[k].tasks
    ensures SaysAbsent(trace[k].tasks[id].chain) ==> exists i :: i < k && AbsentAtStart(trace, steps, i, id)
    ensures (exists i :: i < k && AbsentAtStart(trace, steps, i, id)) ==>
              SaysAbsent(trace[k].tasks[id].chain) || trace[k].tasks[id].chain == Ended(Lost)
  {
    if k > 0 {
      var st, step := trace[k - 1], steps[k - 1];
      assert StepAt(trace, steps, k - 1);
      if id in st.tasks {
        RetryableExactly(trace, steps, k - 1, id);
        AbsentStep(st, step, id);
        if SaysAbsent(trace[k].tasks[id].chain) && !SaysAbsent(st.tasks[id].chain) {
          assert AbsentAtStart(trace, steps, k - 1, id);
        }
      } else {
        NoAdvanceWithoutTask(st, step, id);
        forall i | i < k ensures !AbsentAtStart(trace, steps, i, id) {
          if AbsentAtStart(trace, steps, i, id) {
            assert StepAt(trace, steps, i);
            TasksStay(trace, steps, i, k - 1, id);
          }
        }
      }
    }
  }

  // ----- downloads -----

  /** Whom a job may be shown to: its requester, its project's owner, an administrator. */
  predicate MayView(job: ExportJob, owner: Option<int>, user: int, admin: bool) {
    job.requestedById == user || owner == Some(user) || admin
  }

  /** The path a download request is answered with. */
  function DownloadPath(rows: map<int, ExportJob>, id: int, owner: Option<int>, user: int, admin: bool): Result<string> {
    if id !in rows then Err(NotFound)
    else if !MayView(rows[id], owner, user, admin) then Err(PermissionDenied)
    else if rows[id].status != Completed || rows[id].filePath.None? || rows[id].filePath.value == "" then Err(BadRequest)
    else Ok(rows[id].filePath.value)
  }

  /** The user requested the job, owns its project, or is an administrator. */
  predicate Concerned(job: ExportJob, owner: Option<int>, user: int, admin: bool) {
    job.requestedById == user || owner == Some(user) || admin
  }

  /**
   In every run a download is refused exactly when there is no such job or the job is not
   the caller's concern; otherwise it succeeds exactly for completed jobs, and then serves
   the job's own export.
   */
  lemma DownloadExactlyWhenCompleted(trace: seq<State>, steps: seq<Step>, k: nat, id: int, owner: Option<int>, user: int, admin: bool)
    requires Behaviour(trace, steps) && k < |trace|
    ensures var answer, rows := DownloadPath(trace[k].rows, id, owner, user, admin), trace[k].rows;
            && (answer == Err(NotFound) <==> id !in rows)
            && (answer == Err(PermissionDenied) <==> id in rows && !Concerned(rows[id], owner, user, admin))
            && (answer.Ok? <==> id in rows && Concerned(rows[id], owner, user, admin) && rows[id].status == Completed)
            && (answer.Ok? ==> answer.value == Path(id) && rows[id].rowCount.Some?)
            && (answer.Ok? ==> FileOk(trace[k], steps[..k], id, rows[id].projectId, rows[id].rowCount.value))
  {
    if id in trace[k].rows && trace[k].rows[id].status == Completed {
      CompletedMeansFile(trace, steps, k, id);
      assert Path(id)[0] == 'e';
    }
  }

  // ----- the grace period does not cover three attempts -----

  /** Job 1 alone: requested at time zero and never kept waiting. */
  function Alone(now: real, row: ExportJob, c: Chain): State {
    State(now, map[1 := row], map[1 := Task(0.0, 10, c, 0.0)], map[], [], map[])
  }

  const PENDING: ExportJob := Fresh(10, 20, 0.0)

  const EMPTY: Db := Db(map[], map[], map[], map[], map[], map[], map[], Sequences(1, 1, 1, 1, 1, 1, 1))

  /** The step is possible and leads from one state to the other. */
  ghost predicate Leads(st: State, step: Step, st': State) {
    Enabled(st, step) && st' == Next(st, step)
  }

  /** One failed attempt, 300 seconds long, and its longest backoff. */
  lemma FailedAttempt(begin: real, row: ExportJob, r: nat, delay: real)
    requires r < 2 && delay == Countdown(r, 1.5) && delay > 0.0 && begin >= 0.0
    ensures var at, after, again := begin + 300.0, Started(row, r), begin + 300.0 + delay;
            && Leads(Alone(begin, row, Queued(r, begin)), Start(1), Alone(begin, row, Starting(r, begin)))
            && Leads(Alone(begin, row, Starting(r, begin)), MarkRunning(1), Alone(begin, after, Working(r, begin, None)))
            && Leads(Alone(begin, after, Working(r, begin, None)), Tick(300.0), Alone(at, after, Working(r, begin, None)))
            && Leads(Alone(at, after, Working(r, begin, None)), Retry(1, 1.5), Alone(at, after, Queued(r + 1, again)))
            && Leads(Alone(at, after, Queued(r + 1, again)), Tick(delay), Alone(again, after, Queued(r + 1, again)))
  {
  }

  /** The third attempt is still at work when the grace period runs out. */
  lemma ThirdAttemptOutlivesGrace(row: ExportJob)
    ensures var running, working := Started(row, 2), Working(2, 609.0, None);
            && Leads(Alone(609.0, row, Queued(2, 609.0)), Start(1), Alone(609.0, row, Starting(2, 609.0)))
            && Leads(Alone(609.0, row, Starting(2, 609.0)), MarkRunning(1), Alone(609.0, running, working))
            && Leads(Alone(609.0, running, working), Tick(292.0), Alone(901.0, running, working))
  {
  }

  lemma LiveJobIsSwept(running: ExportJob, c: Chain)
    requires running.status == Running && running.createdAt == 0.0
    ensures var seen := Alone(901.0, running, c).(scans := map[0 := map[1 := Running]]);
            && Leads(Alone(901.0, running, c), Scan(0), seen)
            && Leads(seen, Sweep(0), Alone(901.0, Reaped(running, Running, 900, 901.0), c))
  {
    var st := Alone(901.0, running, c);
    assert StrandedIds(st.rows, st.now - GRACE) == {1};
    assert Next(st, Scan(0)).scans[0] == map[1 := Running];
    var seen := st.(scans := map[0 := map[1 := Running]]);
    assert SweepRows(seen.rows, seen.scans[0], 901.0) == map[1 := Reaped(running, Running, 900, 901.0)];
    assert seen.scans - {0} == map[];
  }

  /** The swept job then completes, over its terminal status. */
  lemma SweptJobCompletes(failed: ExportJob)
    ensures var saved := Alone(901.0, failed, Working(2, 609.0, Some(0))).(files := map[Path(1) := [HEADER]]);
            && Leads(Alone(901.0, failed, Working(2, 609.0, None)), WriteFile(1, EMPTY, [], [HEADER]), saved)
            && Leads(saved, Complete(1, true),
                     saved.(rows := map[1 := ExportJobs.Finished(failed, Path(1), 0, 901.0, true)],
                            tasks := map[1 := Task(0.0, 10, Ended(Outcome.Finished), 0.0)]))
  {
    assert QueryResult(EMPTY, 10, []);
    assert FileLists([HEADER], EMPTY, []);
  }

  ghost predicate FailsThenCompletes(trace: seq<State>, i: int, k: int, id: int) {
    && 0 <= i < k < |trace|
    && id in trace[i].rows && trace[i].rows[id].status == Failed
    && id in trace[k].rows && trace[k].rows[id].status == Completed
  }

  /**
   For a job read alive past its grace a terminal status is not final: one that never
   waits but needs three long attempts is reaped as failed and then completes.
   */
  lemma ReaperCanFailALiveJob()
    ensures exists trace, steps, i, k :: Behaviour(trace, steps) && FailsThenCompletes(trace, i, k, 1)
  {
    var d0, d1 := Countdown(0, 1.5), Countdown(1, 1.5);
    assert Pow2(1) == 2.0 * Pow2(0);
    assert d0 == 3.0 && d1 == 6.0;
    var one, two := Started(PENDING, 0), Started(Started(PENDING, 0), 1);
    var trace, steps := RunUp();
    trace, steps := RunFailedAttempt(trace, steps, 0.0, PENDING, 0, d0);
    trace, steps := RunFailedAttempt(trace, steps, 303.0, one, 1, d1);
    trace, steps := RunIntoReaper(trace, steps, two);
    var i := |trace| - 1;
    trace, steps := RunToCompletion(trace, steps, trace[i].rows[1]);
    assert FailsThenCompletes(trace, i, |trace| - 1, 1);
  }

  /** Only a scan that caught the job alive and old can let it complete after it was seen failed. */
  lemma OnlyALateScanReopensAJob(trace: seq<State>, steps: seq<Step>, i: nat, k: nat, id: int)
    requires Behaviour(trace, steps) && FailsThenCompletes(trace, i, k, id)
    ensures exists j :: 0 <= j < k && CatchesLive(trace[j], steps[j], id)
  {
    if Spared(trace, steps, k, id) {
      StatusOnlyClimbs(trace, steps, i, k, id);
    }
  }

  lemma RunFailedAttempt(trace: seq<State>, steps: seq<Step>, begin: real, row: ExportJob, r: nat, delay: real)
    returns (trace': seq<State>, steps': seq<Step>)
    requires Behaviour(trace, steps) && trace[|trace| - 1] == Alone(begin, row, Queued(r, begin))
    requires r < 2 && delay == Countdown(r, 1.5) && delay > 0.0 && begin >= 0.0
    ensures Behaviour(trace', steps')
    ensures var again := begin + 300.0 + delay; trace'[|trace'| - 1] == Alone(again, Started(row, r), Queued(r + 1, again))
  {
    FailedAttempt(begin, row, r, delay);
    var at, after, again := begin + 300.0, Started(row, r), begin + 300.0 + delay;
    trace', steps' := Extend(trace, steps, Start(1), Alone(begin, row, Starting(r, begin)));
    trace', steps' := Extend(trace', steps', MarkRunning(1), Alone(begin, after, Working(r, begin, None)));
    trace', steps' := Extend(trace', steps', Tick(300.0), Alone(at, after, Working(r, begin, None)));
    trace', steps' := Extend(trace', steps', Retry(1, 1.5), Alone(at, after, Queued(r + 1, again)));
    trace', steps' := Extend(trace', steps', Tick(delay), Alone(again, after, Queued(r + 1, again)));
  }

  lemma RunIntoReaper(trace: seq<State>, steps: seq<Step>, row: ExportJob)
    returns (trace': seq<State>, steps': seq<Step>)
    requires Behaviour(trace, steps) && trace[|trace| - 1] == Alone(609.0, row, Queued(2, 609.0))
    requires row.createdAt == 0.0
    ensures Behaviour(trace', steps')
    ensures trace'[|trace'| - 1] == Alone(901.0, Reaped(Started(row, 2), Running, 900, 901.0), Working(2, 609.0, None))
  {
    ThirdAttemptOutlivesGrace(row);
    var three, working := Started(row, 2), Working(2, 609.0, None);
    LiveJobIsSwept(three, working);
    trace', steps' := Extend(trace, steps, Start(1), Alone(609.0, row, Starting(2, 609.0)));
    trace', steps' := Extend(trace', steps', MarkRunning(1), Alone(609.0, three, working));
    trace', steps' := Extend(trace', steps', Tick(292.0), Alone(901.0, three, working));
    trace', steps' := Extend(trace', steps', Scan(0), Alone(901.0, three, working).(scans := map[0 := map[1 := Running]]));
    trace', steps' := Extend(trace', steps', Sweep(0), Alone(901.0, Reaped(three, Running, 900, 901.0), working));
  }

  lemma RunToCompletion(trace: seq<State>, steps: seq<Step>, failed: ExportJob)
    returns (trace': seq<State>, steps': seq<Step>)
    requires Behaviour(trace, steps) && trace[|trace| - 1] == Alone(901.0, failed, Working(2, 609.0, None))
    ensures Behaviour(trace', steps') && trace < trace'
    ensures 1 in trace'[|trace'| - 1].rows && trace'[|trace'| - 1].rows[1].status == Completed
  {
    SweptJobCompletes(failed);
    var saved := Alone(901.0, failed, Working(2, 609.0, Some(0))).(files := map[Path(1) := [HEADER]]);
    trace', steps' := Extend(trace, steps, WriteFile(1, EMPTY, [], [HEADER]), saved);
    trace', steps' := Extend(trace', steps', Complete(1, true),
      saved.(rows := map[1 := ExportJobs.Finished(failed, Path(1), 0, 901.0, true)],
             tasks := map[1 := Task(0.0, 10, Ended(Outcome.Finished), 0.0)]));
  }

  lemma RunUp() returns (trace: seq<State>, steps: seq<Step>)
    ensures Behaviour(trace, steps) && trace[|trace| - 1] == Alone(0.0, PENDING, Queued(0, 0.0))
  {
    assert Leads(Init, Request(1, 10, 20), Alone(0.0, PENDING, Requested));
    assert Leads(Alone(0.0, PENDING, Requested), Publish(1), Alone(0.0, PENDING, Queued(0, 0.0)));
    trace, steps := [Init], [];
    trace, steps := Extend(trace, steps, Request(1, 10, 20), Alone(0.0, PENDING, Requested));
    trace, steps := Extend(trace, steps, Publish(1), Alone(0.0, PENDING, Queued(0, 0.0)));
  }

  /** Append one step to a run, keeping every state reached so far. */
  lemma Extend(trace: seq<State>, steps: seq<Step>, step: Step, st: State) returns (trace': seq<State>, steps': seq<Step>)
    requires Behaviour(trace, steps) && Leads(trace[|trace| - 1], step, st)
    ensures Behaviour(trace', steps') && trace < trace' && trace'[|trace'| - 1] == st
  {
    trace', steps' := trace + [st], steps + [step];
    forall i | 0 <= i < |steps'| ensures StepAt(trace', steps', i) {
      if i < |steps| {
        assert StepAt(trace, steps, i);
      }
    }
  }
}
