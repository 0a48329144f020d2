/**
 The export-job row: what the API, the worker and the startup reaper write to
 it, and the file a finished export leaves.
 */
module ExportJobs {
  import opened Options
  import opened Store
  import Keys
  import Sets

  const MAX_ATTEMPTS: nat := 3
  const BACKOFF_BASE: real := 2.0
  const BACKOFF_CAP: real := 60.0
  const GRACE: real := 900.0
  const TASK_TIME_LIMIT: real := 300.0
  const MAX_MESSAGE: nat := 2000

  function Truncate(s: string): string {
    if |s| <= MAX_MESSAGE then s else s[..MAX_MESSAGE]
  }

  predicate Terminal(s: JobStatus) {
    s == Completed || s == Failed
  }

  // ----- the writes -----

  function Fresh(projectId: int, requestedById: int, now: real): ExportJob {
    ExportJob(projectId, requestedById, Pending, None, None, None, 0, now, None)
  }

  /** The broker could not be reached: the API ends the job itself. */
  function Unqueued(job: ExportJob, now: real): ExportJob {
    job.(status := Failed, attempts := 0,
         errorMessage := Some(QueueUnavailable), completedAt := Some(now))
  }

  function Started(job: ExportJob, retries: nat): ExportJob {
    job.(status := Running, attempts := retries + 1)
  }

  /**
   The completing write. `clears` says whether the error column is part of it: a row
   loaded without an error has none to clear, so the update leaves that column out.
   */
  function Finished(job: ExportJob, path: string, count: nat, now: real, clears: bool): ExportJob {
    job.(status := Completed, filePath := Some(path), rowCount := Some(count), completedAt := Some(now),
         errorMessage := if clears then None else job.errorMessage)
  }

  function Exhausted(job: ExportJob, retries: nat, reason: string, now: real): ExportJob {
    job.(status := Failed, attempts := retries + 1, errorMessage := Some(Reason(Truncate(reason))), completedAt := Some(now))
  }

  /** The reaper's write; `found` is the status it read. */
  function Reaped(job: ExportJob, found: JobStatus, grace: nat, now: real): ExportJob {
    job.(status := Failed, errorMessage := Some(Abandoned(found, grace)), completedAt := Some(now))
  }

  /** A column is filled exactly when the status says it should be. */
  predicate FieldsMatchStatus(job: ExportJob) {
    match job.status
    case Completed => job.filePath.Some? && job.rowCount.Some? && job.completedAt.Some? && job.errorMessage.None?
    case Failed => job.filePath.None? && job.rowCount.None? && job.completedAt.Some? && job.errorMessage.Some?
    case _ => job.filePath.None? && job.rowCount.None? && job.completedAt.None? && job.errorMessage.None?
  }

  // ----- backoff -----

  function Pow2(n: nat): real {
    if n == 0 then 1.0 else 2.0 * Pow2(n - 1)
  }

  /** Twice as long after every attempt, up to the cap. */
  function Exponential(retries: nat): real {
    var e := BACKOFF_BASE * Pow2(retries);
    if e < BACKOFF_CAP then e else BACKOFF_CAP
  }

  /** The delay before the next attempt, `jitter` being the random factor. */
  function Countdown(retries: nat, jitter: real): real {
    Exponential(retries) * jitter
  }

  predicate Jitter(f: real) {
    0.5 <= f <= 1.5
  }

  /** Backoff is at least a second, at most a minute and a half, and a whole chain waits at most nine seconds. */
  lemma {:induction false} CountdownBounds(retries: nat, f: real)
    requires Jitter(f)
    ensures 1.0 <= Countdown(retries, f) <= 90.0
    ensures retries == 0 ==> Countdown(retries, f) <= 3.0
    ensures retries == 1 ==> 2.0 <= Countdown(retries, f) <= 6.0
  {
    ExponentialBounds(retries);
    ScaleBounds(Exponential(retries), f);
  }

  /** Without jitter the delay starts at two seconds and doubles up to a minute; jitter leaves the average as it is. */
  lemma BackoffDoubles(retries: nat, d: real)
    ensures Countdown(0, 1.0) == 2.0
    ensures Countdown(retries + 1, 1.0) ==
            if Countdown(retries, 1.0) <= 30.0 then 2.0 * Countdown(retries, 1.0) else 60.0
    ensures Countdown(retries, 1.0 - d) + Countdown(retries, 1.0 + d) == 2.0 * Countdown(retries, 1.0)
  {
    assert Pow2(retries + 1) == 2.0 * Pow2(retries);
    var e := Exponential(retries);
    assert e * (1.0 - d) + e * (1.0 + d) == e + e;
  }

  lemma ExponentialBounds(retries: nat)
    ensures 2.0 <= Exponential(retries) <= 60.0
    ensures retries == 0 ==> Exponential(retries) == 2.0
    ensures retries == 1 ==> Exponential(retries) == 4.0
  {
    Pow2AtLeastOne(retries);
    if retries == 1 {
      assert Pow2(1) == 2.0 * Pow2(0);
    }
  }

  lemma ScaleBounds(m: real, f: real)
    requires 2.0 <= m && 0.5 <= f <= 1.5
    ensures 1.0 <= m * f <= m * 1.5
  {
  }

  lemma {:induction false} Pow2AtLeastOne(n: nat)
    ensures Pow2(n) >= 1.0
  {
    if n > 0 {
      Pow2AtLeastOne(n - 1);
    }
  }

  // ----- the file -----

  function Path(jobId: int): string {
    "export_" + Keys.Decimal(jobId) + ".csv"
  }

  lemma PathsDistinct(a: int, b: int)
    ensures Path(a) == Path(b) <==> a == b
  {
    Keys.DecimalInjective(a, b);
    var n := |"export_"|;
    assert Path(a)[n..|Path(a)| - 4] == Keys.Decimal(a);
    assert Path(b)[n..|Path(b)| - 4] == Keys.Decimal(b);
  }

  /** A cell as it is handed to the CSV writer. */
  datatype Field = Number(value: int) | Text(text: string) | Moment(at: real)

  type Line = seq<Field>

  const HEADER: Line := [Text("id"), Text("title"), Text("description"), Text("priority"), Text("status"),
                         Text("assigned_to"), Text("due_date"), Text("created_at")]

  function PriorityText(p: Priority): string {
    match p
    case Low => "low"
    case Medium => "medium"
    case High => "high"
  }

  function IssueStatusText(s: Status): string {
    match s
    case Todo => "todo"
    case InProgress => "in_progress"
    case Done => "done"
  }

  /** One issue as a line; an absent description, assignee or due date prints as nothing. */
  function IssueLine(db: Db, id: int): Line
    requires id in db.issues
  {
    var issue := db.issues[id];
    [Number(id), Text(issue.title), Text(if issue.description.Some? then issue.description.value else ""),
     Text(PriorityText(issue.priority)), Text(IssueStatusText(issue.status)),
     Text(if issue.assignedTo.Some? && issue.assignedTo.value in db.users
          then db.users[issue.assignedTo.value].email else ""),
     if issue.dueDate.Some? then Moment(issue.dueDate.value) else Text(""), Moment(issue.createdAt)]
  }

  /** The rows of the issue query: the project's issues, each once, by increasing id. */
  predicate QueryResult(db: Db, projectId: int, ids: seq<int>) {
    && (forall i :: i in ids ==> i in db.issues && db.issues[i].projectId == projectId)
    && (forall i :: i in db.issues && db.issues[i].projectId == projectId ==> i in ids)
    && (forall a, b :: 0 <= a < b < |ids| ==> ids[a] < ids[b])
  }

  /** The ordering leaves the query no choice. */
  lemma {:induction false} QueryResultUnique(db: Db, projectId: int, a: seq<int>, b: seq<int>)
    requires QueryResult(db, projectId, a) && QueryResult(db, projectId, b)
    ensures a == b
  {
    SortedUnique(a, b);
  }

  lemma InTail(s: seq<int>, x: int)
    requires s != [] && forall i, j :: 0 <= i < j < |s| ==> s[i] < s[j]
    ensures x in s[1..] <==> x in s && x != s[0]
  {
    if x in s && x != s[0] {
      var i :| 0 <= i < |s| && s[i] == x;
      assert s[1..][i - 1] == x;
    }
  }

  lemma HeadIn(s: seq<int>)
    requires s != []
    ensures s[0] in s
  {
  }

  lemma {:induction false} SortedUnique(a: seq<int>, b: seq<int>)
    requires forall i :: i in a <==> i in b
    requires forall i, j :: 0 <= i < j < |a| ==> a[i] < a[j]
    requires forall i, j :: 0 <= i < j < |b| ==> b[i] < b[j]
    ensures a == b
  {
    if a == [] {
      if b != [] {
        HeadIn(b);
      }
    } else {
      assert a[0] in b && b[0] in a;
      var i :| 0 <= i < |b| && b[i] == a[0];
      var j :| 0 <= j < |a| && a[j] == b[0];
      assert a[0] == b[0];
      forall x ensures x in a[1..] <==> x in b[1..] {
        InTail(a, x);
        InTail(b, x);
      }
      SortedUnique(a[1..], b[1..]);
    }
  }

  lemma {:induction false} Largest(s: set<int>) returns (m: int)
    requires s != {}
    ensures m in s && forall x :: x in s ==> x <= m
  {
    var one := Sets.Member(s);
    var rest := s - {one};
    if rest == {} {
      m := one;
    } else {
      var other := Largest(rest);
      m := if other > one then other else one;
    }
    forall x | x in s ensures x <= m {
      assert x == one || x in rest;
    }
  }

  lemma {:induction false} InOrder(s: set<int>) returns (ids: seq<int>)
    ensures |ids| == |s| && forall x :: x in ids <==> x in s
    ensures forall a, b :: 0 <= a < b < |ids| ==> ids[a] < ids[b]
  {
    if s == {} {
      ids := [];
    } else {
      var m := Largest(s);
      var before := InOrder(s - {m});
      ids := before + [m];
      forall a, b | 0 <= a < b < |ids| ensures ids[a] < ids[b] {
        assert before[a] in before;
      }
    }
  }

  /** And there is always a result, one row for each issue of the project. */
  lemma QueryResultExists(db: Db, projectId: int) returns (ids: seq<int>)
    ensures QueryResult(db, projectId, ids)
    ensures |ids| == |set i | i in db.issues && db.issues[i].projectId == projectId|
  {
    ids := InOrder(set i | i in db.issues && db.issues[i].projectId == projectId);
  }

  /** The cell the line holds under a heading; no other column has that heading. */
  predicate Under(header: Line, line: Line, heading: string, cell: Field) {
    && |line| == |header|
    && (exists c :: 0 <= c < |header| && header[c] == Text(heading))
    && (forall c :: 0 <= c < |header| && header[c] == Text(heading) ==> line[c] == cell)
  }

  /** The line holds the issue's columns, each under its heading. */
  predicate ShowsIssue(header: Line, line: Line, db: Db, id: int)
    requires id in db.issues
  {
    var issue := db.issues[id];
    && Under(header, line, "id", Number(id))
    && ShowsTexts(header, line, issue)
    && ShowsTimes(header, line, issue)
    && ShowsChoices(header, line, issue)
    && ShowsAssignee(header, line, db, issue.assignedTo)
  }

  predicate ShowsTexts(header: Line, line: Line, issue: Issue) {
    && Under(header, line, "title", Text(issue.title))
    && Under(header, line, "description", if issue.description == None then Text("") else Text(issue.description.value))
  }

  predicate ShowsTimes(header: Line, line: Line, issue: Issue) {
    && Under(header, line, "created_at", Moment(issue.createdAt))
    && Under(header, line, "due_date", if issue.dueDate == None then Text("") else Moment(issue.dueDate.value))
  }

  /** Priority and status, by the names the enumerations give them. */
  predicate ShowsChoices(header: Line, line: Line, issue: Issue) {
    && (issue.priority == Low ==> Under(header, line, "priority", Text("low")))
    && (issue.priority == Medium ==> Under(header, line, "priority", Text("medium")))
    && (issue.priority == High ==> Under(header, line, "priority", Text("high")))
    && (issue.status == Todo ==> Under(header, line, "status", Text("todo")))
    && (issue.status == InProgress ==> Under(header, line, "status", Text("in_progress")))
    && (issue.status == Done ==> Under(header, line, "status", Text("done")))
  }

  /** The address of the assignee; nothing when there is none. */
  predicate ShowsAssignee(header: Line, line: Line, db: Db, assignee: Option<int>) {
    && (assignee.Some? && assignee.value in db.users ==>
          Under(header, line, "assigned_to", Text(db.users[assignee.value].email)))
    && (assignee.None? || assignee.value !in db.users ==> Under(header, line, "assigned_to", Text("")))
  }

  /** The file of a finished export: the headings, then one line per issue in query order. */
  predicate FileLists(file: seq<Line>, db: Db, ids: seq<int>) {
    && |file| == |ids| + 1 && Headings(file[0])
    && forall k :: 0 <= k < |ids| ==> ids[k] in db.issues && ShowsIssue(file[0], file[k + 1], db, ids[k])
  }

  predicate Headings(line: Line) {
    line == [Text("id"), Text("title"), Text("description"), Text("priority"), Text("status"),
             Text("assigned_to"), Text("due_date"), Text("created_at")]
  }

  /** The headings differ, so each names one column. */
  lemma HeadingsDiffer(a: nat, b: nat)
    requires a < 8 && b < 8 && HEADER[a] == HEADER[b]
    ensures a == b
  {
  }

  lemma AtColumn(line: Line, c: nat)
    requires |line| == 8 && c < 8
    ensures Under(HEADER, line, HEADER[c].text, line[c])
  {
    forall k | 0 <= k < 8 && HEADER[k] == Text(HEADER[c].text) ensures line[k] == line[c] {
      HeadingsDiffer(k, c);
    }
  }

  lemma ChoicesShown(db: Db, id: int)
    requires id in db.issues
    ensures ShowsChoices(HEADER, IssueLine(db, id), db.issues[id])
  {
    AtColumn(IssueLine(db, id), 3);
    AtColumn(IssueLine(db, id), 4);
  }

  lemma AssigneeShown(db: Db, id: int)
    requires id in db.issues
    ensures ShowsAssignee(HEADER, IssueLine(db, id), db, db.issues[id].assignedTo)
  {
    AtColumn(IssueLine(db, id), 5);
  }

  lemma TextsShown(db: Db, id: int)
    requires id in db.issues
    ensures ShowsTexts(HEADER, IssueLine(db, id), db.issues[id])
    ensures Under(HEADER, IssueLine(db, id), "id", Number(id))
  {
    AtColumn(IssueLine(db, id), 0);
    AtColumn(IssueLine(db, id), 1);
    AtColumn(IssueLine(db, id), 2);
  }

  lemma TimesShown(db: Db, id: int)
    requires id in db.issues
    ensures ShowsTimes(HEADER, IssueLine(db, id), db.issues[id])
  {
    AtColumn(IssueLine(db, id), 6);
    AtColumn(IssueLine(db, id), 7);
  }

  lemma LineShowsIssue(db: Db, id: int)
    requires id in db.issues
    ensures ShowsIssue(HEADER, IssueLine(db, id), db, id)
  {
    TextsShown(db, id);
    TimesShown(db, id);
    ChoicesShown(db, id);
    AssigneeShown(db, id);
  }

  /** The file an export of these rows leaves. */
  function Csv(db: Db, ids: seq<int>): seq<Line>
    requires forall i :: i in ids ==> i in db.issues
  {
    [HEADER] + seq(|ids|, k requires 0 <= k < |ids| => IssueLine(db, ids[k]))
  }

  lemma CsvLists(db: Db, ids: seq<int>)
    requires forall i :: i in ids ==> i in db.issues
    ensures FileLists(Csv(db, ids), db, ids)
  {
    var file := Csv(db, ids);
    forall k | 0 <= k < |ids| ensures ShowsIssue(file[0], file[k + 1], db, ids[k]) {
      LineShowsIssue(db, ids[k]);
      assert file[0] == HEADER && file[k + 1] == IssueLine(db, ids[k]);
    }
  }

  /** Write the header, then a line for each issue. */
  method WriteCsv(db: Db, projectId: int, ids: seq<int>) returns (file: seq<Line>)
    requires QueryResult(db, projectId, ids)
    ensures FileLists(file, db, ids)
    ensures file == Csv(db, ids)
  {
    file := [HEADER];
    for k := 0 to |ids|
      invariant file == Csv(db, ids)[..k + 1]
    {
      assert ids[k] in ids;
      file := file + [IssueLine(db, ids[k])];
    }
    CsvLists(db, ids);
  }

  // ----- the reaper -----

  predicate Stranded(job: ExportJob, cutoff: real) {
    !Terminal(job.status) && job.createdAt < cutoff
  }

  function StrandedIds(jobs: map<int, ExportJob>, cutoff: real): set<int> {
    set id | id in jobs && Stranded(jobs[id], cutoff)
  }

  /** The table after one sweep: the stranded rows are failed, every other row is as it was. */
  function Swept(jobs: map<int, ExportJob>, cutoff: real, grace: nat, now: real): map<int, ExportJob> {
    map id | id in jobs :: if Stranded(jobs[id], cutoff) then Reaped(jobs[id], jobs[id].status, grace, now) else jobs[id]
  }

  /** What a sweep makes of one row, column by column. */
  predicate SweptRow(before: ExportJob, after: ExportJob, cutoff: real, grace: nat, now: real) {
    if before.status in {Pending, Running} && before.createdAt < cutoff then
      && after.status == Failed && after.errorMessage == Some(Abandoned(before.status, grace))
      && after.completedAt == Some(now) && after.createdAt == before.createdAt && after.attempts == before.attempts
      && after.projectId == before.projectId && after.requestedById == before.requestedById
      && after.filePath == before.filePath && after.rowCount == before.rowCount
    else after == before
  }

  lemma SweptByColumns(jobs: map<int, ExportJob>, cutoff: real, grace: nat, now: real)
    ensures Swept(jobs, cutoff, grace, now).Keys == jobs.Keys
    ensures forall id :: id in jobs ==> SweptRow(jobs[id], Swept(jobs, cutoff, grace, now)[id], cutoff, grace, now)
    ensures StrandedIds(jobs, cutoff) ==
            set id | id in jobs && jobs[id].status in {Pending, Running} && jobs[id].createdAt < cutoff
  {
    forall id | id in jobs ensures Stranded(jobs[id], cutoff) <==>
                                   jobs[id].status in {Pending, Running} && jobs[id].createdAt < cutoff {
    }
  }

  /** A second sweep with the same cutoff finds nothing and changes nothing. */
  lemma SweepIdempotent(jobs: map<int, ExportJob>, cutoff: real, grace: nat, now: real, later: real)
    ensures StrandedIds(Swept(jobs, cutoff, grace, now), cutoff) == {}
    ensures Swept(Swept(jobs, cutoff, grace, now), cutoff, grace, later) == Swept(jobs, cutoff, grace, now)
  {
    var once := Swept(jobs, cutoff, grace, now);
    forall id | id in once ensures !Stranded(once[id], cutoff) {
    }
  }

  /** The reaper loops over the stranded rows; it never re-reads a status it has overwritten. */
  class JobTable {
    var jobs: map<int, ExportJob>

    constructor (rows: map<int, ExportJob>)
      ensures jobs == rows
    {
      jobs := rows;
    }

    method RecoverStranded(now: real, staleAfter: nat) returns (count: nat)
      modifies this
      ensures jobs == Swept(old(jobs), now - staleAfter as real, staleAfter, now)
      ensures jobs.Keys == old(jobs).Keys
      ensures forall id :: id in jobs ==>
                SweptRow(old(jobs)[id], jobs[id], now - staleAfter as real, staleAfter, now)
      ensures count == |StrandedIds(old(jobs), now - staleAfter as real)|
    {
      var stranded := StrandedIds(jobs, now - staleAfter as real);
      count := |stranded|;
      var todo := stranded;
      while todo != {}
        invariant todo <= stranded
        invariant jobs.Keys == old(jobs).Keys
        invariant forall id :: id in jobs ==>
                    jobs[id] == if id in stranded && id !in todo
                                then Reaped(old(jobs)[id], old(jobs)[id].status, staleAfter, now) else old(jobs)[id]
        decreases |todo|
      {
        var id := Sets.Pick(todo);
        var found := jobs[id].status;
        jobs := jobs[id := Reaped(jobs[id], found, staleAfter, now)];
        todo := todo - {id};
      }
      ghost var swept := Swept(old(jobs), now - staleAfter as real, staleAfter, now);
      assert forall id :: id in jobs ==> jobs[id] == swept[id];
      SweptByColumns(old(jobs), now - staleAfter as real, staleAfter, now);
    }
  }
}
