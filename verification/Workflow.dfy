/**
 The issue workflow over whole runs: todo, in progress, done, one rung at a time.
 */
module Workflow {
  import opened Options
  import opened Store
  import opened Tracker
  import opened Effects

  const LADDER: seq<Status> := [InProgress, Done]

  function Rank(s: Status): nat {
    match s
    case Todo => 0
    case InProgress => 1
    case Done => 2
  }

  /** The request is a status change of issue `id` that succeeds and alters the status. */
  predicate Advances(app: App, op: Op, id: int) {
    && op.Move? && op.issueId == id
    && Serve(app.db, op, app.now).result.Ok?
    && app.db.issues[id].status != op.to
  }

  /** The statuses that successful changes moved issue `id` to, in order. */
  function Moves(app: App, ops: seq<Op>, id: int): seq<Status> {
    if ops == [] then []
    else
      var before, op := ops[..|ops| - 1], ops[|ops| - 1];
      Moves(app, before, id) + if Advances(Run(app, before), op, id) then [op.to] else []
  }

  /** A granted status change is to the status there is or the next one up. */
  lemma MovesOneRung(db: Db, op: Op, now: real)
    requires op.Move? && Granted(db, op, now)
    ensures op.issueId in db.issues
    ensures var s := db.issues[op.issueId].status; op.to != s ==> Rank(op.to) == Rank(s) + 1
  {
    AnswersExactly(db, op, now);
  }

  /** One request leaves an issue's status alone, or takes it up one rung by a successful status change. */
  lemma StepStatus(app: App, op: Op, id: int)
    requires Sound(app.db) && id in Step(app, op).db.issues
    ensures id in app.db.issues ==>
              var s, s' := app.db.issues[id].status, Step(app, op).db.issues[id].status;
              if Advances(app, op, id) then s' == op.to && Rank(s') == Rank(s) + 1 else s' == s
    ensures id !in app.db.issues ==> Step(app, op).db.issues[id].status == Todo && !Advances(app, op, id)
    ensures id !in app.db.issues ==> id >= app.db.next.issues
  {
    StepDb(app, op);
    if Granted(app.db, op, app.now) {
      if op.Move? {
        MovesOneRung(app.db, op, app.now);
      }
      IssuesExactly(app.db, op, app.now, id);
    } else {
      RefusedExactly(app.db, op, app.now);
    }
  }

  lemma {:induction false} NoMovesBeforeCreation(app: App, ops: seq<Op>, id: int)
    requires Sound(app.db) && id >= Run(app, ops).db.next.issues
    ensures Moves(app, ops, id) == [] && id !in Run(app, ops).db.issues
  {
    RunKeepsIntegrity(app, ops);
    if ops != [] {
      var before, op := ops[..|ops| - 1], ops[|ops| - 1];
      StepExtends(Run(app, before), op);
      SequencesGrow(Run(app, before).db, Step(Run(app, before), op).db);
      NoMovesBeforeCreation(app, before, id);
    }
  }

  /**
   An issue created during a run has climbed the ladder one rung at a time: the
   successful changes made to it are exactly the rungs up to its status.
   */
  lemma {:induction false} StatusIsItsMoves(app: App, ops: seq<Op>, id: int)
    requires Sound(app.db) && id >= app.db.next.issues
    requires id in Run(app, ops).db.issues
    ensures Moves(app, ops, id) == LADDER[..Rank(Run(app, ops).db.issues[id].status)]
  {
    RunKeepsIntegrity(app, ops);
    if ops != [] {
      var before, op := ops[..|ops| - 1], ops[|ops| - 1];
      RunKeepsIntegrity(app, before);
      StepStatus(Run(app, before), op, id);
      if id in Run(app, before).db.issues {
        StatusIsItsMoves(app, before, id);
      } else {
        NoMovesBeforeCreation(app, before, id);
      }
    }
  }

  /** A finished issue was moved exactly twice, to in-progress and then to done. */
  lemma DoneMeansBothMoves(app: App, ops: seq<Op>, id: int)
    requires Sound(app.db) && id >= app.db.next.issues && id in Run(app, ops).db.issues
    ensures Run(app, ops).db.issues[id].status == Done <==> Moves(app, ops, id) == [InProgress, Done]
  {
    StatusIsItsMoves(app, ops, id);
  }
}
