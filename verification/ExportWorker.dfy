/**
 The export code as it runs: the request, one attempt of the task with its
 exception handler, and the startup sweep, as methods over the shared row, file
 and dead-letter state. The object records what every process does, step by step;
 whatever its methods do, and whatever others do while an attempt is under way, is a
 run of the state machine, so every theorem about runs holds of them.
 */
module ExportWorker {
  import opened Options
  import opened Store
  import opened ExportJobs
  import opened ExportRuns
  import opened ExportLifecycle

  datatype Moment = AtFirstCommit | AtWork | AtLastCommit

  /** What goes wrong during an attempt; the reason is the text of the exception. */
  datatype Fault =
    | NoFault
    | LookupFault(reason: string)        // reading the row raises, whether or not it is there
    | BeforeRunning(reason: string)      // the first commit fails
    | WhileExporting(reason: string)     // the query or the file fails
    | OnCompleting(reason: string)       // the last commit fails
    | Killed(at: Moment)                 // the process dies

  /** What other processes, and the clock, do before each of the attempt's own steps. */
  datatype Others = Others(firstCommit: seq<Step>, work: seq<Step>, lastCommit: seq<Step>, handler: seq<Step>,
                           letter: seq<Step>)

  /**
   What an attempt meets: a fault, whether its handler fails too, the text a commit raises
   when the row has gone, the database its query sees, the backoff factor, and others' steps.
   */
  datatype Conditions = Conditions(fault: Fault, handlerDies: bool, gone: string, db: Db, ids: seq<int>, jitter: real,
                                   others: Others)

  /** The issues the query returns are issues. */
  ghost predicate Listed(c: Conditions) {
    forall i :: i in c.ids ==> i in c.db.issues
  }

  // ----- the steps an attempt comes to -----

  /** The steps of a record that advance the chain of one job. */
  function Own(steps: seq<Step>, id: int): seq<Step> {
    if steps == [] then []
    else Own(steps[..|steps| - 1], id) + if Advances(steps[|steps| - 1], id) then [steps[|steps| - 1]] else []
  }

  lemma OwnAppend(steps: seq<Step>, step: Step, id: int)
    ensures Own(steps + [step], id) == Own(steps, id) + if Advances(step, id) then [step] else []
  {
    assert (steps + [step])[..|steps|] == steps;
  }

  /** What an attempt finds: its row at the lookup and at both commits, and an error to clear. */
  datatype Seen = Seen(atLookup: bool, atFirstCommit: bool, atLastCommit: bool, clears: bool)

  /** Giving up: the row, then the dead letter, unless reading or writing the row raises again. */
  function Surrender(id: int, reason: string, dies: bool): seq<Step> {
    [GiveUp(id, reason)] + if dies then [Crash(id)] else [Record(id), PushLetter(id)]
  }

  /** The steps of the exception handler; publishing the retry may raise too. */
  function Handler(id: int, retries: nat, c: Conditions, reason: string): seq<Step> {
    if retries >= MAX_ATTEMPTS - 1 then Surrender(id, reason, c.handlerDies)
    else if c.handlerDies then [Crash(id)]
    else [Retry(id, c.jitter)]
  }

  /** The steps of a publication, and of one that fails. */
  function PublishSteps(id: int, brokerUp: bool, removed: bool): seq<Step> {
    if brokerUp then [Publish(id)]
    else [PublishFails(id)] + (if removed then [RemoveRow(id)] else []) + [Reject(id)]
  }

  /** The steps once the file is written. */
  function LastSteps(id: int, retries: nat, c: Conditions, seen: Seen): seq<Step> {
    if c.fault == Killed(AtLastCommit) then [Crash(id)]
    else if c.fault.OnCompleting? then Handler(id, retries, c, c.fault.reason)
    else if !seen.atLastCommit then Handler(id, retries, c, c.gone)
    else [Complete(id, seen.clears)]
  }

  /** The steps once the row says running. */
  function WorkSteps(id: int, retries: nat, c: Conditions, seen: Seen): seq<Step>
    requires Listed(c)
  {
    if c.fault == Killed(AtWork) then [Crash(id)]
    else if c.fault.WhileExporting? then Handler(id, retries, c, c.fault.reason)
    else [WriteFile(id, c.db, c.ids, Csv(c.db, c.ids))] + LastSteps(id, retries, c, seen)
  }

  /** The steps of an attempt that found its row. */
  function BodySteps(id: int, retries: nat, c: Conditions, seen: Seen): seq<Step>
    requires Listed(c)
  {
    if c.fault == Killed(AtFirstCommit) then [Crash(id)]
    else if c.fault.BeforeRunning? then Handler(id, retries, c, c.fault.reason)
    else if !seen.atFirstCommit then Handler(id, retries, c, c.gone)
    else [MarkRunning(id)] + WorkSteps(id, retries, c, seen)
  }

  /** The steps of one attempt. */
  function AttemptSteps(id: int, retries: nat, c: Conditions, seen: Seen): seq<Step>
    requires Listed(c)
  {
    if c.fault.LookupFault? then [LookupFails(id)] + Handler(id, retries, c, c.fault.reason)
    else if !seen.atLookup then [Start(id), PushLetter(id)]
    else [Start(id)] + BodySteps(id, retries, c, seen)
  }

  /** The attempt raises: a fault of its own, or a commit that finds the row gone. A kill raises nothing. */
  predicate Raises(c: Conditions, seen: Seen) {
    match c.fault
    case LookupFault(_) => true
    case Killed(AtFirstCommit) => false
    case Killed(_) => seen.atLookup && !seen.atFirstCommit
    case NoFault => seen.atLookup && (!seen.atFirstCommit || !seen.atLastCommit)
    case _ => seen.atLookup
  }

  /** The attempt gets as far as committing that it runs. */
  predicate Runs(c: Conditions, seen: Seen) {
    && seen.atLookup && seen.atFirstCommit
    && !c.fault.LookupFault? && !c.fault.BeforeRunning? && c.fault != Killed(AtFirstCommit)
  }

  /** The last of an attempt's steps. */
  function LastOf(id: int, retries: nat, c: Conditions, seen: Seen): Step {
    if Raises(c, seen) then HandlerLast(id, retries, c)
    else if !seen.atLookup then PushLetter(id)
    else if c.fault.Killed? then Crash(id)
    else Complete(id, seen.clears)
  }

  /** An exception ends in a retry, after two retries in a dead letter, or in the handler's own death. */
  function HandlerLast(id: int, retries: nat, c: Conditions): Step {
    if c.handlerDies then Crash(id) else if retries < 2 then Retry(id, c.jitter) else PushLetter(id)
  }

  /** Whether the steps commit that the attempt runs, whether they fail its row, and how they end. */
  predicate EndsAs(steps: seq<Step>, id: int, runs: bool, fails: bool, last: Step) {
    && steps != [] && steps[|steps| - 1] == last
    && (MarkRunning(id) in steps <==> runs) && (Record(id) in steps <==> fails)
  }

  lemma OneStepEarlier(first: Step, rest: seq<Step>, id: int, runs: bool, fails: bool, last: Step)
    requires EndsAs(rest, id, runs, fails, last) && first != Record(id)
    ensures EndsAs([first] + rest, id, runs || first == MarkRunning(id), fails, last)
  {
    assert forall step :: step in [first] + rest <==> step == first || step in rest;
  }

  lemma HandlerEnds(id: int, retries: nat, c: Conditions, reason: string)
    ensures EndsAs(Handler(id, retries, c, reason), id, false, !c.handlerDies && retries >= 2, HandlerLast(id, retries, c))
  {
    var steps := Handler(id, retries, c, reason);
    if retries >= 2 {
      assert steps == if c.handlerDies then [GiveUp(id, reason), Crash(id)] else [GiveUp(id, reason), Record(id), PushLetter(id)];
      assert !c.handlerDies ==> steps[1] == Record(id);
    }
  }

  lemma LastStepsEnd(id: int, retries: nat, c: Conditions, seen: Seen)
    requires Runs(c, seen) && c.fault != Killed(AtWork) && !c.fault.WhileExporting?
    ensures EndsAs(LastSteps(id, retries, c, seen), id, false, Raises(c, seen) && !c.handlerDies && retries >= 2,
                   LastOf(id, retries, c, seen))
  {
    if c.fault.Killed? {
      assert c.fault == Killed(c.fault.at) && c.fault.at != AtWork && c.fault.at != AtFirstCommit;
      assert c.fault.at == AtLastCommit;
    }
    HandlerEnds(id, retries, c, if c.fault.OnCompleting? then c.fault.reason else c.gone);
  }

  lemma WorkStepsEnd(id: int, retries: nat, c: Conditions, seen: Seen)
    requires Listed(c) && Runs(c, seen)
    ensures EndsAs(WorkSteps(id, retries, c, seen), id, false, Raises(c, seen) && !c.handlerDies && retries >= 2,
                   LastOf(id, retries, c, seen))
  {
    if c.fault.WhileExporting? {
      HandlerEnds(id, retries, c, c.fault.reason);
    } else if c.fault != Killed(AtWork) {
      LastStepsEnd(id, retries, c, seen);
      OneStepEarlier(WriteFile(id, c.db, c.ids, Csv(c.db, c.ids)), LastSteps(id, retries, c, seen), id, false,
                     Raises(c, seen) && !c.handlerDies && retries >= 2, LastOf(id, retries, c, seen));
    }
  }

  lemma BodyStepsEnd(id: int, retries: nat, c: Conditions, seen: Seen)
    requires Listed(c) && seen.atLookup && !c.fault.LookupFault?
    ensures EndsAs(BodySteps(id, retries, c, seen), id, Runs(c, seen), Raises(c, seen) && !c.handlerDies && retries >= 2,
                   LastOf(id, retries, c, seen))
  {
    if Runs(c, seen) {
      WorkStepsEnd(id, retries, c, seen);
      OneStepEarlier(MarkRunning(id), WorkSteps(id, retries, c, seen), id, false,
                     Raises(c, seen) && !c.handlerDies && retries >= 2, LastOf(id, retries, c, seen));
    } else if c.fault.BeforeRunning? {
      HandlerEnds(id, retries, c, c.fault.reason);
    } else {
      HandlerEnds(id, retries, c, c.gone);
    }
  }

  /**
   How an attempt ends: it raises and is retried, or after two retries fails its row and
   leaves a letter, unless its handler dies too; it finds no row and leaves a letter; it is
   killed; or it completes. It commits that it runs exactly when it gets that far.
   */
  lemma AttemptEndsExactly(id: int, retries: nat, c: Conditions, seen: Seen)
    requires Listed(c)
    ensures EndsAs(AttemptSteps(id, retries, c, seen), id, Runs(c, seen),
                   Raises(c, seen) && !c.handlerDies && retries >= 2, LastOf(id, retries, c, seen))
  {
    if c.fault.LookupFault? {
      HandlerEnds(id, retries, c, c.fault.reason);
      OneStepEarlier(LookupFails(id), Handler(id, retries, c, c.fault.reason), id, false,
                     !c.handlerDies && retries >= 2, HandlerLast(id, retries, c));
    } else if seen.atLookup {
      BodyStepsEnd(id, retries, c, seen);
      OneStepEarlier(Start(id), BodySteps(id, retries, c, seen), id, Runs(c, seen),
                     Raises(c, seen) && !c.handlerDies && retries >= 2, LastOf(id, retries, c, seen));
    }
  }

  /** What the task hands back to the broker; nothing if it died or its handler raised. */
  datatype Answer =
    | JobNotFound
    | Exported(rowCount: nat)
    | RetryIn(seconds: real)
    | GaveUp(reason: string)
    | Died

  /** What an answer says about the row and the file as the attempt leaves them. */
  predicate Answers(a: Answer, st: State, id: int, retries: nat, c: Conditions)
    requires forall i :: i in c.ids ==> i in c.db.issues
  {
    match a
    case JobNotFound => id !in st.rows
    case Exported(n) =>
      && n == |c.ids| && Path(id) in st.files && st.files[Path(id)] == Csv(c.db, c.ids)
      && id in st.rows && st.rows[id].status == Completed && st.rows[id].rowCount == Some(n)
      && st.rows[id].filePath == Some(Path(id))
    case RetryIn(seconds) => retries < MAX_ATTEMPTS - 1 && seconds == Countdown(retries, c.jitter)
    case GaveUp(_) =>
      retries >= MAX_ATTEMPTS - 1 &&
      (id in st.rows ==> st.rows[id].status == Failed && st.rows[id].attempts == retries + 1)
    case Died => true
  }

  /** What others can have done to a job while its own chain stood still. */
  predicate Aside(before: State, after: State, id: int) {
    && id in before.tasks && id in after.tasks && after.tasks[id] == before.tasks[id]
    && (Path(id) in before.files ==> Path(id) in after.files && after.files[Path(id)] == before.files[Path(id)])
    && (id in after.rows ==>
          && id in before.rows && after.rows[id].attempts == before.rows[id].attempts
          && (after.rows[id] == before.rows[id] || after.rows[id].status == Failed))
  }

  lemma AsideStep(st: State, step: Step, id: int)
    requires Enabled(st, step) && !Advances(step, id) && id in st.tasks
    ensures Aside(st, Next(st, step), id)
  {
    if step.WriteFile? {
      PathsDistinct(id, step.id);
    }
  }

  lemma AsideAgain(a: State, b: State, c: State, id: int)
    requires Aside(a, b, id) && Aside(b, c, id)
    ensures Aside(a, c, id)
  {
  }

  lemma Joined(done: seq<Step>, first: seq<Step>, rest: seq<Step>)
    ensures (done + first) + rest == done + (first + rest)
  {
  }

  lemma ExtendBehaviour(trace: seq<State>, steps: seq<Step>, step: Step)
    requires Behaviour(trace, steps) && Enabled(trace[|trace| - 1], step)
    ensures Behaviour(trace + [Next(trace[|trace| - 1], step)], steps + [step])
  {
    var trace', steps' := trace + [Next(trace[|trace| - 1], step)], steps + [step];
    forall i | 0 <= i < |steps'| ensures StepAt(trace', steps', i) {
      if i < |steps| {
        assert StepAt(trace, steps, i);
      }
    }
  }

  /** A sweep straight after its read is the sweep of the table as it stands. */
  lemma SweepIsSwept(rows: map<int, ExportJob>, now: real)
    ensures var scan := map id | id in StrandedIds(rows, now - GRACE) :: rows[id].status;
            SweepRows(rows, scan, now) == Swept(rows, now - GRACE, 900, now)
  {
  }

  /** A scan and the sweep straight after it fail the stranded rows and leave no trace of the reaper. */
  lemma SweepPair(st: State, process: int)
    requires process !in st.scans
    ensures var seen := Next(st, Step.Scan(process));
            Enabled(seen, Sweep(process)) && Next(seen, Sweep(process)) == st.(rows := Swept(st.rows, st.now - GRACE, 900, st.now))
  {
    SweepIsSwept(st.rows, st.now);
    assert Next(st, Step.Scan(process)).scans - {process} == st.scans;
  }

  /** The loop over the stranded rows, on a table of its own. */
  method SweepTable(rows: map<int, ExportJob>, now: real) returns (swept: map<int, ExportJob>, count: nat)
    ensures swept == Swept(rows, now - GRACE, 900, now) && count == |StrandedIds(rows, now - GRACE)|
  {
    var table := new JobTable(rows);
    count := table.RecoverStranded(now, 900);
    swept := table.jobs;
  }

  class Exports {
    var now: real
    var rows: map<int, ExportJob>
    var files: map<string, seq<Line>>
    var letters: seq<Letter>
    /** The record: what every process has done, and the states that led through. */
    var trace: seq<State>
    var steps: seq<Step>

    function Last(): State
      reads this
      requires |trace| > 0
    {
      trace[|trace| - 1]
    }

    /** The fields are those of the state. */
    ghost predicate Shows(st: State)
      reads this
    {
      now == st.now && rows == st.rows && files == st.files && letters == st.letters
    }

    /** The record is a run that ends in the present state. */
    ghost predicate Valid()
      reads this
    {
      Behaviour(trace, steps) && Shows(Last())
    }

    constructor ()
      ensures Valid() && steps == [] && now == 0.0 && rows == map[] && letters == []
    {
      now, rows, files, letters := 0.0, map[], map[], [];
      trace, steps := [Init], [];
    }

    /** Record a step that has just been carried out. */
    method Note(step: Step)
      requires Behaviour(trace, steps) && Enabled(Last(), step) && Shows(Next(Last(), step))
      modifies this`trace, this`steps
      ensures Valid() && steps == old(steps) + [step] && Last() == Next(old(Last()), step)
    {
      ExtendBehaviour(trace, steps, step);
      trace, steps := trace + [Next(Last(), step)], steps + [step];
    }

    /** Record a step of the job's own chain. */
    method NoteOwn(id: int, step: Step)
      requires Behaviour(trace, steps) && Enabled(Last(), step) && Shows(Next(Last(), step)) && Advances(step, id)
      modifies this`trace, this`steps
      ensures Valid() && old(steps) <= steps && Last() == Next(old(Last()), step)
      ensures Own(steps, id) == Own(old(steps), id) + [step]
    {
      OwnAppend(steps, step, id);
      Note(step);
    }

    /** The chain of the job, where there is one. */
    ghost predicate At(id: int, c: Chain)
      requires |trace| > 0
      reads this
    {
      id in Last().tasks && Last().tasks[id].chain == c
    }

    /** Another process, or the clock, takes a step. */
    method Perform(step: Step)
      requires Valid() && Enabled(Last(), step)
      modifies this
      ensures Valid() && steps == old(steps) + [step] && Last() == Next(old(Last()), step)
    {
      var next := Next(Last(), step);
      now, rows, files, letters := next.now, next.rows, next.files, next.letters;
      Note(step);
    }

    /** Others at work: whatever of this is possible when its turn comes, and not this chain's own to do, happens. */
    method Meanwhile(id: int, others: seq<Step>)
      requires Valid() && id in Last().tasks
      modifies this
      ensures Valid() && old(steps) <= steps && Own(steps, id) == Own(old(steps), id)
      ensures Aside(old(Last()), Last(), id)
    {
      for k := 0 to |others|
        invariant Valid() && old(steps) <= steps && Own(steps, id) == Own(old(steps), id)
        invariant Aside(old(Last()), Last(), id)
      {
        if Enabled(Last(), others[k]) && !Advances(others[k], id) {
          AsideStep(Last(), others[k], id);
          AsideAgain(old(Last()), Last(), Next(Last(), others[k]), id);
          OwnAppend(steps, others[k], id);
          Perform(others[k]);
        }
      }
    }

    // ----- single commits, each one step -----

    method InsertRow(id: int, projectId: int, userId: int)
      requires Valid() && id !in Last().tasks && id !in rows
      modifies this
      ensures Valid() && steps == old(steps) + [Request(id, projectId, userId)] && At(id, Requested)
      ensures now == old(now) && rows == old(rows)[id := Fresh(projectId, userId, now)]
    {
      rows := rows[id := Fresh(projectId, userId, now)];
      Note(Request(id, projectId, userId));
    }

    method RejectRow(id: int)
      requires Valid() && At(id, Rejecting)
      modifies this
      ensures Valid() && steps == old(steps) + [Reject(id)] && now == old(now)
      ensures rows == if id in old(rows) then old(rows)[id := Unqueued(old(rows)[id], now)] else old(rows)
    {
      if id in rows {
        rows := rows[id := rows[id].(status := Failed, attempts := 0, errorMessage := Some(QueueUnavailable),
                                     completedAt := Some(now))];
      }
      Note(Reject(id));
    }

    method RemoveFromRows(id: int)
      requires Valid() && id in rows
      modifies this
      ensures Valid() && steps == old(steps) + [RemoveRow(id)] && now == old(now)
      ensures rows == old(rows) - {id} && Last().tasks == old(Last()).tasks
    {
      rows := rows - {id};
      Note(RemoveRow(id));
    }

    method FailRow(id: int, retries: nat, since: real, reason: string)
      requires Valid() && At(id, Exhausting(retries, since, reason))
      modifies this
      ensures Valid() && old(steps) <= steps && Own(steps, id) == Own(old(steps), id) + [Record(id)]
      ensures At(id, Recorded(true, since))
      ensures id in rows ==> id in old(rows) && rows[id].status == Failed && rows[id].attempts == retries + 1
    {
      if id in rows {
        rows := rows[id := rows[id].(status := Failed, attempts := retries + 1,
                                     errorMessage := Some(Reason(Truncate(reason))), completedAt := Some(now))];
      }
      NoteOwn(id, Record(id));
    }

    method PushDeadLetter(id: int, retryable: bool, since: real)
      requires Valid() && At(id, Recorded(retryable, since))
      modifies this
      ensures Valid() && old(steps) <= steps && Own(steps, id) == Own(old(steps), id) + [PushLetter(id)]
      ensures rows == old(rows) && letters == old(letters) + [Letter(id, retryable)]
    {
      letters := letters + [Letter(id, retryable)];
      NoteOwn(id, PushLetter(id));
    }

    /** The first commit; the row is read back after it, and with it whether there is an error to clear. */
    method StartRow(id: int, retries: nat, since: real) returns (clears: bool)
      requires Valid() && At(id, Starting(retries, since)) && id in rows
      modifies this
      ensures Valid() && old(steps) <= steps && Own(steps, id) == Own(old(steps), id) + [MarkRunning(id)]
      ensures At(id, Working(retries, since, None)) && Last().tasks[id].projectId == old(Last()).tasks[id].projectId
      ensures rows == old(rows)[id := Started(old(rows)[id], retries)] && clears == rows[id].errorMessage.Some?
    {
      rows := rows[id := rows[id].(status := Running, attempts := retries + 1)];
      NoteOwn(id, MarkRunning(id));
      clears := rows[id].errorMessage.Some?;
    }

    method SaveFile(id: int, projectId: int, retries: nat, since: real, db: Db, ids: seq<int>)
      requires Valid() && At(id, Working(retries, since, None)) && Last().tasks[id].projectId == projectId
      requires QueryResult(db, projectId, ids)
      modifies this
      ensures Valid() && old(steps) <= steps
      ensures Own(steps, id) == Own(old(steps), id) + [WriteFile(id, db, ids, Csv(db, ids))]
      ensures At(id, Working(retries, since, Some(|ids|))) && rows == old(rows)
      ensures Path(id) in files && files[Path(id)] == Csv(db, ids)
    {
      var file := WriteCsv(db, projectId, ids);
      files := files[Path(id) := file];
      NoteOwn(id, WriteFile(id, db, ids, file));
    }

    method CompleteRow(id: int, retries: nat, since: real, count: nat, clears: bool)
      requires Valid() && At(id, Working(retries, since, Some(count))) && id in rows
      modifies this
      ensures Valid() && old(steps) <= steps && Own(steps, id) == Own(old(steps), id) + [Complete(id, clears)]
      ensures files == old(files)
      ensures rows == old(rows)[id := ExportJobs.Finished(old(rows)[id], Path(id), count, now, clears)]
    {
      var row := rows[id].(status := Completed, filePath := Some(Path(id)), rowCount := Some(count),
                           completedAt := Some(now));
      if clears {
        row := row.(errorMessage := None);
      }
      rows := rows[id := row];
      NoteOwn(id, Complete(id, clears));
    }

    /** The clock, alone. */
    method Wait(seconds: real)
      requires Valid() && Enabled(Last(), Tick(seconds))
      modifies this
      ensures Valid() && steps == old(steps) + [Tick(seconds)] && now == old(now) + seconds
      ensures rows == old(rows) && files == old(files) && letters == old(letters) && Last().tasks == old(Last()).tasks
    {
      Perform(Tick(seconds));
    }

    // ----- the request -----

    /** Publish the job, or end it. */
    method Deliver(id: int, brokerUp: bool, removed: bool) returns (r: Result<int>)
      requires Valid() && At(id, Requested) && id in rows
      modifies this
      ensures Valid() && steps == old(steps) + PublishSteps(id, brokerUp, removed) && now == old(now)
      ensures r == if brokerUp then Ok(id) else Err(ServiceUnavailable)
      ensures rows == if brokerUp then old(rows) else if removed then old(rows) - {id}
                      else old(rows)[id := Unqueued(old(rows)[id], now)]
    {
      if brokerUp {
        Note(Publish(id));
        return Ok(id);
      }
      Note(PublishFails(id));
      if removed {
        RemoveFromRows(id);
      }
      RejectRow(id);
      r := Err(ServiceUnavailable);
    }

    /**
     Commit a pending row, then publish. If the broker is unreachable the row, unless it
     has gone meanwhile, is failed and the caller told so.
     */
    method RequestExport(id: int, projectId: int, userId: int, projects: set<int>, brokerUp: bool, removed: bool)
      returns (r: Result<int>)
      requires Valid() && id !in Last().tasks && id !in rows
      modifies this
      ensures Valid()
      ensures steps == old(steps) + if projectId !in projects then []
                                    else [Request(id, projectId, userId)] + PublishSteps(id, brokerUp, removed)
      ensures r == if projectId !in projects then Err(NotFound) else if brokerUp then Ok(id) else Err(ServiceUnavailable)
      ensures rows == if projectId !in projects || (!brokerUp && removed) then old(rows)
                      else old(rows)[id := if brokerUp then Fresh(projectId, userId, now)
                                           else Unqueued(Fresh(projectId, userId, now), now)]
    {
      if projectId !in projects {
        return Err(NotFound);
      }
      InsertRow(id, projectId, userId);
      r := Deliver(id, brokerUp, removed);
      if brokerUp || !removed {
        assert rows == old(rows)[id := rows[id]];
      } else {
        assert rows == old(rows);
      }
    }

    // ----- the attempt -----

    /** The exception handler of an attempt: retry while the budget lasts, else give up. */
    method Handle(id: int, retries: nat, c: Conditions, reason: string) returns (a: Answer)
      requires Valid() && id in Last().tasks && Unhandled(Last().tasks[id].chain) && Jitter(c.jitter) && Listed(c)
      requires Last().tasks[id].chain.retries == retries
      modifies this
      ensures Valid() && old(steps) <= steps && Own(steps, id) == Own(old(steps), id) + Handler(id, retries, c, reason)
      ensures a == (if c.handlerDies then Died else if retries >= MAX_ATTEMPTS - 1 then GaveUp(reason)
                    else RetryIn(Countdown(retries, c.jitter))) && Answers(a, Last(), id, retries, c)
      ensures id in rows ==> id in old(rows)
    {
      if retries >= MAX_ATTEMPTS - 1 {
        a := Exhaust(id, retries, c, reason);
        return;
      }
      Meanwhile(id, c.others.handler);
      if c.handlerDies {
        NoteOwn(id, Crash(id));
        a := Died;
      } else {
        NoteOwn(id, Retry(id, c.jitter));
        a := RetryIn(Countdown(retries, c.jitter));
      }
    }

    /** The budget is spent: the row is failed if it still exists, and a dead letter pushed in any case. */
    method Exhaust(id: int, retries: nat, c: Conditions, reason: string) returns (a: Answer)
      requires Valid() && id in Last().tasks && Unhandled(Last().tasks[id].chain) && retries >= MAX_ATTEMPTS - 1
      requires Last().tasks[id].chain.retries == retries && Listed(c)
      modifies this
      ensures Valid() && old(steps) <= steps
      ensures Own(steps, id) == Own(old(steps), id) + Surrender(id, reason, c.handlerDies)
      ensures a == (if c.handlerDies then Died else GaveUp(reason)) && Answers(a, Last(), id, retries, c)
      ensures id in rows ==> id in old(rows)
    {
      var since := StopTrying(id, retries, reason, c.others.handler);
      if c.handlerDies {
        NoteOwn(id, Crash(id));
        Joined(Own(old(steps), id), [GiveUp(id, reason)], [Crash(id)]);
        a := Died;
      } else {
        Bury(id, retries, since, reason, c.others.letter);
        Joined(Own(old(steps), id), [GiveUp(id, reason)], [Record(id), PushLetter(id)]);
        a := GaveUp(reason);
      }
    }

    /** No attempt is left. */
    method StopTrying(id: int, retries: nat, reason: string, others: seq<Step>) returns (since: real)
      requires Valid() && id in Last().tasks && Unhandled(Last().tasks[id].chain) && retries >= MAX_ATTEMPTS - 1
      requires Last().tasks[id].chain.retries == retries
      modifies this
      ensures Valid() && old(steps) <= steps && Own(steps, id) == Own(old(steps), id) + [GiveUp(id, reason)]
      ensures At(id, Exhausting(retries, since, reason)) && (id in rows ==> id in old(rows))
    {
      since := Last().tasks[id].chain.since;
      NoteOwn(id, GiveUp(id, reason));
      Meanwhile(id, others);
    }

    /** Fail the row, then push the letter. */
    method Bury(id: int, retries: nat, since: real, reason: string, others: seq<Step>)
      requires Valid() && At(id, Exhausting(retries, since, reason))
      modifies this
      ensures Valid() && old(steps) <= steps && Own(steps, id) == Own(old(steps), id) + [Record(id), PushLetter(id)]
      ensures id in rows ==> id in old(rows) && rows[id].status == Failed && rows[id].attempts == retries + 1
    {
      FailRow(id, retries, since, reason);
      Meanwhile(id, others);
      PushDeadLetter(id, true, since);
      Joined(Own(old(steps), id), [Record(id)], [PushLetter(id)]);
    }

    /** The last commit, and what becomes of the attempt when it fails. */
    method Conclude(id: int, retries: nat, since: real, c: Conditions, clears: bool) returns (a: Answer, seen: bool)
      requires Valid() && At(id, Working(retries, since, Some(|c.ids|))) && Listed(c) && Jitter(c.jitter)
      requires Path(id) in files && files[Path(id)] == Csv(c.db, c.ids)
      modifies this
      ensures Valid() && old(steps) <= steps && !a.JobNotFound? && Answers(a, Last(), id, retries, c)
      ensures Own(steps, id) == Own(old(steps), id) + LastSteps(id, retries, c, Seen(true, true, seen, clears))
      ensures (!seen ==> id !in rows) && (id in rows ==> id in old(rows))
    {
      Meanwhile(id, c.others.lastCommit);
      seen := true;
      if c.fault == Killed(AtLastCommit) {
        NoteOwn(id, Crash(id));
        a := Died;
      } else if c.fault.OnCompleting? {
        a := Handle(id, retries, c, c.fault.reason);
      } else if id !in rows {
        seen := false;
        a := Handle(id, retries, c, c.gone);
      } else {
        CompleteRow(id, retries, since, |c.ids|, clears);
        a := Exported(|c.ids|);
      }
    }

    /** The query, the file and the last commit. */
    method Work(id: int, projectId: int, retries: nat, since: real, c: Conditions, clears: bool)
      returns (a: Answer, seen: bool)
      requires Valid() && At(id, Working(retries, since, None)) && Jitter(c.jitter)
      requires Last().tasks[id].projectId == projectId && QueryResult(c.db, projectId, c.ids)
      modifies this
      ensures Valid() && old(steps) <= steps && !a.JobNotFound? && Answers(a, Last(), id, retries, c)
      ensures Own(steps, id) == Own(old(steps), id) + WorkSteps(id, retries, c, Seen(true, true, seen, clears))
      ensures (!seen ==> id !in rows) && (id in rows ==> id in old(rows))
    {
      Meanwhile(id, c.others.work);
      seen := true;
      if c.fault == Killed(AtWork) {
        NoteOwn(id, Crash(id));
        a := Died;
      } else if c.fault.WhileExporting? {
        a := Handle(id, retries, c, c.fault.reason);
      } else {
        SaveFile(id, projectId, retries, since, c.db, c.ids);
        a, seen := Conclude(id, retries, since, c, clears);
        Joined(Own(old(steps), id), [WriteFile(id, c.db, c.ids, Csv(c.db, c.ids))],
               LastSteps(id, retries, c, Seen(true, true, seen, clears)));
      }
    }

    /** An attempt that found its row. */
    method Attempt(id: int, projectId: int, retries: nat, since: real, c: Conditions) returns (a: Answer, seen: Seen)
      requires Valid() && At(id, Starting(retries, since)) && Jitter(c.jitter)
      requires Last().tasks[id].projectId == projectId && QueryResult(c.db, projectId, c.ids)
      modifies this
      ensures Valid() && old(steps) <= steps && !a.JobNotFound? && Answers(a, Last(), id, retries, c)
      ensures Own(steps, id) == Own(old(steps), id) + BodySteps(id, retries, c, seen)
      ensures seen.atLookup && (id in rows ==> id in old(rows) && seen.atFirstCommit && seen.atLastCommit)
    {
      Meanwhile(id, c.others.firstCommit);
      seen := Seen(true, true, true, false);
      if c.fault == Killed(AtFirstCommit) {
        NoteOwn(id, Crash(id));
        a := Died;
      } else if c.fault.BeforeRunning? {
        a := Handle(id, retries, c, c.fault.reason);
      } else if id !in rows {
        seen := seen.(atFirstCommit := false);
        a := Handle(id, retries, c, c.gone);
      } else {
        var clears := StartRow(id, retries, since);
        var last: bool;
        a, last := Work(id, projectId, retries, since, c, clears);
        seen := Seen(true, true, last, clears);
        Joined(Own(old(steps), id), [MarkRunning(id)], WorkSteps(id, retries, c, seen));
      }
    }

    /** The message arrives and the row is looked up. */
    method LookUp(id: int, retries: nat, raises: bool) returns (job: Option<ExportJob>)
      requires Valid() && id in Last().tasks && Last().tasks[id].chain.Queued?
      requires Last().tasks[id].chain.retries == retries && Last().tasks[id].chain.ready <= now
      modifies this`trace, this`steps
      ensures Valid() && old(steps) <= steps
      ensures Own(steps, id) == Own(old(steps), id) + [if raises then LookupFails(id) else Start(id)]
      ensures job == if !raises && id in rows then Some(rows[id]) else None
      ensures At(id, if raises then Raised(retries, now) else if id in rows then Starting(retries, now)
                     else Recorded(false, now))
      ensures Last().tasks[id].projectId == old(Last()).tasks[id].projectId
    {
      if raises {
        NoteOwn(id, LookupFails(id));
        return None;
      }
      NoteOwn(id, Start(id));
      job := if id in rows then Some(rows[id]) else None;
    }

    /** The project a job's row names is the one its task was asked to export. */
    lemma RowNamesItsProject(id: int)
      requires Valid() && id in rows
      ensures id in Last().tasks && rows[id].projectId == Last().tasks[id].projectId
    {
      KnownAlong(trace, steps, |trace| - 1, id);
    }

    /** A missing row: a dead letter that says so, others permitting. */
    method ReportMissing(id: int, since: real, others: seq<Step>)
      requires Valid() && At(id, Recorded(false, since)) && id !in rows
      modifies this
      ensures Valid() && old(steps) <= steps && Own(steps, id) == Own(old(steps), id) + [PushLetter(id)] && id !in rows
    {
      Meanwhile(id, others);
      PushDeadLetter(id, false, since);
    }

    /** One delivery of the task, whatever others do meanwhile. */
    method GenerateProjectExport(id: int, retries: nat, c: Conditions) returns (a: Answer, seen: Seen)
      requires Valid() && id in Last().tasks && Jitter(c.jitter)
      requires Last().tasks[id].chain.Queued? && Last().tasks[id].chain.retries == retries
      requires Last().tasks[id].chain.ready <= now
      requires QueryResult(c.db, Last().tasks[id].projectId, c.ids)
      modifies this
      ensures Valid() && old(steps) <= steps && Answers(a, Last(), id, retries, c)
      ensures Own(steps, id) == Own(old(steps), id) + AttemptSteps(id, retries, c, seen)
      ensures seen.atLookup == (id in old(rows)) && (a.JobNotFound? <==> !seen.atLookup && !c.fault.LookupFault?)
      ensures id in rows ==> id in old(rows) && seen.atFirstCommit && seen.atLastCommit
    {
      var began, found := now, id in rows;
      seen := Seen(found, true, true, false);
      var job := LookUp(id, retries, c.fault.LookupFault?);
      if c.fault.LookupFault? {
        a := Handle(id, retries, c, c.fault.reason);
        Joined(Own(old(steps), id), [LookupFails(id)], Handler(id, retries, c, c.fault.reason));
      } else if job.None? {
        ReportMissing(id, began, c.others.letter);
        Joined(Own(old(steps), id), [Start(id)], [PushLetter(id)]);
        a := JobNotFound;
      } else {
        RowNamesItsProject(id);
        a, seen := Attempt(id, job.value.projectId, retries, began, c);
        Joined(Own(old(steps), id), [Start(id)], BodySteps(id, retries, c, seen));
      }
    }

    // ----- the sweep -----

    /** The sweep's commit. */
    method SaveSweep(process: int, swept: map<int, ExportJob>)
      requires Valid() && Enabled(Last(), Sweep(process)) && swept == Next(Last(), Sweep(process)).rows
      modifies this
      ensures Valid() && steps == old(steps) + [Sweep(process)] && Last() == Next(old(Last()), Sweep(process))
      ensures now == old(now) && rows == swept && files == old(files) && letters == old(letters)
    {
      rows := swept;
      Note(Sweep(process));
    }

    /** The startup sweep: read the stranded rows, then fail them all in one commit. */
    method RecoverStranded(process: int) returns (count: nat)
      requires Valid() && process !in Last().scans
      modifies this
      ensures Valid() && steps == old(steps) + [Scan(process), Sweep(process)]
      ensures now == old(now) && files == old(files) && letters == old(letters)
      ensures rows == Swept(old(rows), now - GRACE, 900, now)
      ensures count == |StrandedIds(old(rows), now - GRACE)|
    {
      var swept, n := SweepTable(rows, now);
      count := n;
      SweepPair(Last(), process);
      Note(Step.Scan(process));
      SaveSweep(process, swept);
      Joined(old(steps), [Step.Scan(process)], [Sweep(process)]);
    }
  }
}
