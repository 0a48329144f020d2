/**
 The life of export jobs: the API, the broker, workers and the startup reaper as
 interleaved steps over a clock. Each commit is a step of its own, and so are the
 reaper's read and its write.
 */
module ExportRuns {
  import opened Options
  import opened Store
  import opened ExportJobs

  datatype Outcome =
    | Finished
    | DeadLettered(retryable: bool)
    | Rejected
    | Lost

  /**
   Where a job's one chain of task executions stands. `retries` is the count the
   broker message carries, `since` when the attempt began, `ready` when the message
   may be delivered.
   */
  datatype Chain =
    | Requested                                        // row committed, nothing published yet
    | Rejecting                                        // publishing failed, the API is about to say so
    | Queued(retries: nat, ready: real)
    | Starting(retries: nat, since: real)              // row found, RUNNING not yet committed
    | Raised(retries: nat, since: real)                // the row lookup raised, the handler is next
    | Working(retries: nat, since: real, written: Option<nat>)
    | Exhausting(retries: nat, since: real, reason: string)
    | Recorded(retryable: bool, since: real)           // the dead-letter push is all that is left
    | Ended(outcome: Outcome)

  /** `waited` adds up the time from request to publication and from ready to delivery. */
  datatype Task = Task(createdAt: real, projectId: int, chain: Chain, waited: real)

  datatype Letter = Letter(jobId: int, retryable: bool)

  /** A reaper that has read the stranded rows and not yet written them. */
  type Scan = map<int, JobStatus>

  datatype State = State(now: real, rows: map<int, ExportJob>, tasks: map<int, Task>,
                         files: map<string, seq<Line>>, letters: seq<Letter>, scans: map<int, Scan>)

  const Init := State(0.0, map[], map[], map[], [], map[])

  datatype Step =
    | Tick(dt: real)
    | Request(id: int, projectId: int, userId: int)
    | Publish(id: int)
    | PublishFails(id: int)
    | Reject(id: int)
    | Start(id: int)                                   // delivery, and the row looked up
    | LookupFails(id: int)                             // delivery, and the lookup raises
    | MarkRunning(id: int)
    | WriteFile(id: int, db: Db, ids: seq<int>, file: seq<Line>)
    | Complete(id: int, clears: bool)
    | Retry(id: int, jitter: real)                     // the attempt raised and a retry is published
    | GiveUp(id: int, reason: string)                  // the last attempt raised
    | Record(id: int)
    | PushLetter(id: int)
    | Crash(id: int)                                   // killed, or a commit or publish in the handler failed
    | RemoveRow(id: int)                               // a cascade deletes the row
    | Scan(process: int)
    | Sweep(process: int)

  predicate InAttempt(c: Chain) {
    c.Starting? || c.Raised? || c.Working? || c.Exhausting? || c.Recorded?
  }

  /** An exception raised now reaches the task's handler. */
  predicate Unhandled(c: Chain) {
    c.Starting? || c.Raised? || c.Working?
  }

  /** The chain may still write the job's row. */
  predicate MayWrite(c: Chain) {
    !c.Recorded? && !c.Ended?
  }

  predicate Enabled(st: State, step: Step) {
    match step
    case Tick(dt) =>
      // The hard time limit: no attempt is alive longer than that.
      dt > 0.0 && forall id :: id in st.tasks && InAttempt(st.tasks[id].chain) ==>
                                 st.now + dt <= st.tasks[id].chain.since + TASK_TIME_LIMIT
    case Request(id, _, _) => id !in st.tasks && id !in st.rows
    case Publish(id) => id in st.tasks && st.tasks[id].chain.Requested?
    case PublishFails(id) => id in st.tasks && st.tasks[id].chain.Requested?
    case Reject(id) => id in st.tasks && st.tasks[id].chain.Rejecting?
    case Start(id) => id in st.tasks && st.tasks[id].chain.Queued? && st.tasks[id].chain.ready <= st.now
    case LookupFails(id) => id in st.tasks && st.tasks[id].chain.Queued? && st.tasks[id].chain.ready <= st.now
    case MarkRunning(id) => id in st.tasks && st.tasks[id].chain.Starting? && id in st.rows
    case WriteFile(id, db, ids, file) =>
      && id in st.tasks && st.tasks[id].chain.Working? && st.tasks[id].chain.written.None?
      && QueryResult(db, st.tasks[id].projectId, ids) && FileLists(file, db, ids)
    case Complete(id, _) =>
      id in st.tasks && st.tasks[id].chain.Working? && st.tasks[id].chain.written.Some? && id in st.rows
    case Retry(id, jitter) =>
      && id in st.tasks && Unhandled(st.tasks[id].chain)
      && st.tasks[id].chain.retries < MAX_ATTEMPTS - 1 && Jitter(jitter)
    case GiveUp(id, _) =>
      && id in st.tasks && Unhandled(st.tasks[id].chain)
      && st.tasks[id].chain.retries >= MAX_ATTEMPTS - 1
    case Record(id) => id in st.tasks && st.tasks[id].chain.Exhausting?
    case PushLetter(id) => id in st.tasks && st.tasks[id].chain.Recorded?
    case Crash(id) => id in st.tasks && !st.tasks[id].chain.Ended?
    case RemoveRow(id) => id in st.rows
    case Scan(process) => process !in st.scans
    case Sweep(process) => process in st.scans
  }

  function Move(st: State, id: int, c: Chain): State
    requires id in st.tasks
  {
    st.(tasks := st.tasks[id := st.tasks[id].(chain := c)])
  }

  function Write(st: State, id: int, row: ExportJob): State {
    st.(rows := st.rows[id := row])
  }

  /** The sweep's one commit: refused as a whole if a row it read is gone. */
  function SweepRows(rows: map<int, ExportJob>, scan: map<int, JobStatus>, now: real): map<int, ExportJob> {
    if exists id :: id in scan && id !in rows then rows
    else map id | id in rows :: if id in scan then Reaped(rows[id], scan[id], 900, now) else rows[id]
  }

  function Next(st: State, step: Step): State
    requires Enabled(st, step)
  {
    match step
    case Tick(dt) => st.(now := st.now + dt)
    case Request(id, projectId, userId) =>
      st.(rows := st.rows[id := Fresh(projectId, userId, st.now)],
          tasks := st.tasks[id := Task(st.now, projectId, Requested, 0.0)])
    case Publish(id) =>
      st.(tasks := st.tasks[id := st.tasks[id].(chain := Queued(0, st.now), waited := st.now - st.tasks[id].createdAt)])
    case PublishFails(id) => Move(st, id, Rejecting)
    case Reject(id) =>
      Move(if id in st.rows then Write(st, id, Unqueued(st.rows[id], st.now)) else st, id, Ended(Rejected))
    case Start(id) =>
      var task := st.tasks[id];
      var c := if id in st.rows then Starting(task.chain.retries, st.now) else Recorded(false, st.now);
      st.(tasks := st.tasks[id := task.(chain := c, waited := task.waited + (st.now - task.chain.ready))])
    case LookupFails(id) =>
      var task := st.tasks[id];
      st.(tasks := st.tasks[id := task.(chain := Raised(task.chain.retries, st.now),
                                        waited := task.waited + (st.now - task.chain.ready))])
    case MarkRunning(id) =>
      var c := st.tasks[id].chain;
      Move(Write(st, id, Started(st.rows[id], c.retries)), id, Working(c.retries, c.since, None))
    case WriteFile(id, _, ids, file) =>
      Move(st.(files := st.files[Path(id) := file]), id, st.tasks[id].chain.(written := Some(|ids|)))
    case Complete(id, clears) =>
      var row := ExportJobs.Finished(st.rows[id], Path(id), st.tasks[id].chain.written.value, st.now, clears);
      Move(Write(st, id, row), id, Ended(Outcome.Finished))
    case Retry(id, jitter) =>
      var r := st.tasks[id].chain.retries;
      Move(st, id, Queued(r + 1, st.now + Countdown(r, jitter)))
    case GiveUp(id, reason) =>
      var c := st.tasks[id].chain;
      Move(st, id, Exhausting(c.retries, c.since, reason))
    case Record(id) =>
      var c := st.tasks[id].chain;
      Move(if id in st.rows then Write(st, id, Exhausted(st.rows[id], c.retries, c.reason, st.now)) else st,
           id, Recorded(true, c.since))
    case PushLetter(id) =>
      var retryable := st.tasks[id].chain.retryable;
      Move(st.(letters := st.letters + [Letter(id, retryable)]), id, Ended(DeadLettered(retryable)))
    case Crash(id) => Move(st, id, Ended(Lost))
    case RemoveRow(id) => st.(rows := st.rows - {id})
    case Scan(process) =>
      st.(scans := st.scans[process := map id | id in StrandedIds(st.rows, st.now - GRACE) :: st.rows[id].status])
    case Sweep(process) =>
      st.(rows := SweepRows(st.rows, st.scans[process], st.now), scans := st.scans - {process})
  }

  /** The step advances the chain of job `id`. */
  predicate Advances(step: Step, id: int) {
    match step
    case Publish(j) => j == id
    case PublishFails(j) => j == id
    case Reject(j) => j == id
    case Start(j) => j == id
    case LookupFails(j) => j == id
    case MarkRunning(j) => j == id
    case WriteFile(j, _, _, _) => j == id
    case Complete(j, _) => j == id
    case Retry(j, _) => j == id
    case GiveUp(j, _) => j == id
    case Record(j) => j == id
    case PushLetter(j) => j == id
    case Crash(j) => j == id
    case _ => false
  }

  // ----- timing -----

  /** The most backoff a chain can have spent before its `retries`-th retry. */
  function BackoffBefore(retries: nat): real {
    if retries == 0 then 0.0 else if retries == 1 then 3.0 else 9.0
  }

  /** Time spent waiting for the API to publish or a worker to pick the message up, so far. */
  function TotalWait(task: Task, now: real): real {
    match task.chain
    case Requested => now - task.createdAt
    case Rejecting => now - task.createdAt
    case Queued(_, ready) => if now > ready then task.waited + (now - ready) else task.waited
    case _ => task.waited
  }

  function Attempts(c: Chain): nat {
    if c.Queued? then c.retries
    else if Unhandled(c) || c.Exhausting? then c.retries + 1
    else 0
  }

  function Retries(c: Chain): nat {
    if c.Queued? || Unhandled(c) || c.Exhausting? then c.retries else 0
  }

  predicate OnTime(task: Task, now: real) {
    && task.createdAt <= now && task.waited >= 0.0
    && match task.chain
       case Queued(r, ready) =>
         r < MAX_ATTEMPTS && ready <= task.createdAt + task.waited + TASK_TIME_LIMIT * r as real + BackoffBefore(r)
       case Starting(r, since) => r < MAX_ATTEMPTS && Begun(task, r, since, now)
       case Raised(r, since) => r < MAX_ATTEMPTS && Begun(task, r, since, now)
       case Working(r, since, _) => r < MAX_ATTEMPTS && Begun(task, r, since, now)
       case Exhausting(r, since, _) => r < MAX_ATTEMPTS && Begun(task, r, since, now)
       case _ => true
  }

  predicate Begun(task: Task, r: nat, since: real, now: real) {
    since <= task.createdAt + task.waited + TASK_TIME_LIMIT * r as real + BackoffBefore(r) &&
    since <= now <= since + TASK_TIME_LIMIT
  }

  ghost predicate AllOnTime(st: State) {
    forall id :: id in st.tasks ==> OnTime(st.tasks[id], st.now)
  }

  lemma OnTimeKept(st: State, step: Step)
    requires AllOnTime(st) && Enabled(st, step)
    ensures AllOnTime(Next(st, step))
  {
    var st' := Next(st, step);
    forall id | id in st'.tasks ensures OnTime(st'.tasks[id], st'.now) {
      if step.Retry? && step.id == id {
        RetryOnTime(st, step);
      } else if step.Start? || step.LookupFails? {
        DeliveryOnTime(st, step, id);
      } else if step.Tick? {
        TickOnTime(st, step, id);
      } else {
        OtherOnTime(st, step, id);
      }
    }
  }

  /** A step that neither lets time pass nor delivers nor retries puts no job behind. */
  lemma OtherOnTime(st: State, step: Step, id: int)
    requires AllOnTime(st) && Enabled(st, step) && !step.Tick? && !step.Start? && !step.LookupFails?
    requires !(step.Retry? && step.id == id) && id in Next(st, step).tasks
    ensures OnTime(Next(st, step).tasks[id], Next(st, step).now)
  {
    if id in st.tasks {
      assert OnTime(st.tasks[id], st.now);
    }
  }

  lemma DeliveryOnTime(st: State, step: Step, id: int)
    requires AllOnTime(st) && Enabled(st, step) && (step.Start? || step.LookupFails?) && id in st.tasks
    ensures OnTime(Next(st, step).tasks[id], Next(st, step).now)
  {
    assert OnTime(st.tasks[id], st.now);
  }

  lemma TickOnTime(st: State, step: Step, id: int)
    requires AllOnTime(st) && Enabled(st, step) && step.Tick? && id in st.tasks
    ensures OnTime(Next(st, step).tasks[id], Next(st, step).now)
  {
    assert OnTime(st.tasks[id], st.now);
  }

  lemma RetryOnTime(st: State, step: Step)
    requires AllOnTime(st) && Enabled(st, step) && step.Retry?
    ensures OnTime(Next(st, step).tasks[step.id], st.now)
  {
    assert OnTime(st.tasks[step.id], st.now);
    CountdownBounds(st.tasks[step.id].chain.retries, step.jitter);
  }

  /** A chain that may still write its row is no older than its waits, its attempts at full length, and its backoffs. */
  lemma AgeBound(task: Task, now: real)
    requires OnTime(task, now) && MayWrite(task.chain)
    ensures now - task.createdAt <=
            TotalWait(task, now) + TASK_TIME_LIMIT * Attempts(task.chain) as real + BackoffBefore(Retries(task.chain))
  {
  }

  /** The job is young enough that no reaper takes it. */
  predicate Young(task: Task, now: real) {
    now - task.createdAt <= 900.0
  }

  /** Waits so far, plus the attempts begun at full length, plus their backoffs, fit into the grace period. */
  predicate WithinBudget(task: Task, now: real) {
    TotalWait(task, now) + TASK_TIME_LIMIT * Attempts(task.chain) as real + BackoffBefore(Retries(task.chain)) <= 900.0
  }
}
