/**
 Laws of the whole service that follow from what each request does: refusals change
 nothing, rows change only by the hand of those who may change them, notifications
 reach exactly the people they are about, and no address is shared.
 */
module Rules {
  import opened Options
  import opened Store
  import Services
  import opened Tracker
  import opened Effects

  // ----- refusals -----

  lemma RefusedKeepsCache(app: App, op: Op)
    requires Serve(app.db, op, app.now).result.Err? && !op.ViewDashboard?
    ensures Step(app, op) == app.(db := Step(app, op).db)
  {
  }

  /** A refused request leaves the cache and every row as they were; an issue id is lost exactly when the commit refuses one. */
  lemma RefusedChangesNothing(app: App, op: Op)
    requires Serve(app.db, op, app.now).result.Err? && !op.ViewDashboard?
    ensures Step(app, op) ==
            if op.NewIssue? && Serve(app.db, op, app.now).result == Err(IntegrityError)
            then app.(db := app.db.(next := app.db.next.(issues := app.db.next.issues + 1))) else app
  {
    StepDb(app, op);
    RefusedExactly(app.db, op, app.now);
    RefusedKeepsCache(app, op);
  }

  // ----- who changes what -----

  predicate IssueTouched(db: Db, after: Db, id: int) {
    id in db.issues && (id !in after.issues || after.issues[id] != db.issues[id])
  }

  predicate ProjectTouched(db: Db, after: Db, id: int) {
    id in db.projects && (id !in after.projects || after.projects[id] != db.projects[id])
  }

  /** The request was granted, and its maker owns the project or is an administrator. */
  predicate ByRight(db: Db, op: Op, now: real, projectId: int) {
    Serve(db, op, now).result.Ok? && Actor(op).Some? && HasRight(db, projectId, Actor(op).value)
  }

  /** An issue changes or goes only at the request of its project's owner or an administrator. */
  lemma IssuesChangeByRight(db: Db, op: Op, now: real, id: int)
    requires Sound(db) && id in db.issues
    ensures IssueTouched(db, Serve(db, op, now).db, id) ==> ByRight(db, op, now, db.issues[id].projectId)
  {
    if Granted(db, op, now) {
      IssueParent(db, id);
      IssuesExactly(db, op, now, id);
      ProjectsExactly(db, op, now, db.issues[id].projectId);
      AnswersExactly(db, op, now);
    } else {
      RefusedExactly(db, op, now);
    }
  }

  /** So does a project. */
  lemma ProjectsChangeByRight(db: Db, op: Op, now: real, id: int)
    requires Sound(db) && id in db.projects
    ensures ProjectTouched(db, Serve(db, op, now).db, id) ==> ByRight(db, op, now, id)
  {
    if Granted(db, op, now) {
      ProjectsExactly(db, op, now, id);
      AnswersExactly(db, op, now);
    } else {
      RefusedExactly(db, op, now);
    }
  }

  // ----- whom notifications reach -----

  /**
   A granted assignment, status change or comment adds a notification exactly when it
   leaves the issue with an assignee other than its maker, and then to that assignee. User
   zero is told of assignments only.
   */
  lemma AssigneeIsToldExactly(db: Db, op: Op, now: real)
    requires Sound(db) && Granted(db, op, now) && Announces(op)
    ensures var after := Serve(db, op, now).db;
            && op.issueId in after.issues
            && var to := after.issues[op.issueId].assignedTo;
               && (db.next.notifications in after.notifications <==>
                     to.Some? && to.value != op.actor && (op.Assign? || to.value != 0))
               && (db.next.notifications in after.notifications ==>
                     to == Some(after.notifications[db.next.notifications].userId))
  {
    AnswersExactly(db, op, now);
    IssuesExactly(db, op, now, op.issueId);
    ProjectsExactly(db, op, now, db.issues[op.issueId].projectId);
    IssueParent(db, op.issueId);
    NotificationsExactly(db, op, now, db.next.notifications);
  }

  /** How one request can leave a notification it finds: as it was, or read, by the recipient's own request. */
  predicate ReadOrSame(before: Notification, after: Notification, actor: Option<int>) {
    after == before || (after == before.(isRead := true) && actor == Some(before.userId))
  }

  /** A notification changes only by its recipient's reading it, goes only by a cascade, and new ones take new ids. */
  lemma NotificationsChangeByRecipient(db: Db, op: Op, now: real, n: int)
    requires Sound(db) && n in Serve(db, op, now).db.notifications
    ensures n in db.notifications ==>
              ReadOrSame(db.notifications[n], Serve(db, op, now).db.notifications[n], Actor(op))
    ensures n !in db.notifications ==> n == db.next.notifications && Announces(op)
  {
    if Granted(db, op, now) {
      NotificationsExactly(db, op, now, n);
      AnswersExactly(db, op, now);
    } else {
      RefusedExactly(db, op, now);
    }
  }

  /** Over any run a notification keeps recipient, kind, text and issue, and once read stays read. */
  lemma {:induction false} ReadStaysRead(app: App, ops: seq<Op>, i: nat, n: int)
    requires Sound(app.db) && i <= |ops|
    requires n in Run(app, ops[..i]).db.notifications && n in Run(app, ops).db.notifications
    ensures var earlier, later := Run(app, ops[..i]).db.notifications[n], Run(app, ops).db.notifications[n];
            later == earlier || later == earlier.(isRead := true)
    decreases |ops|
  {
    if i == |ops| {
      assert ops[..i] == ops;
    } else {
      var before, op := ops[..|ops| - 1], ops[|ops| - 1];
      assert before[..i] == ops[..i];
      RunKeepsIntegrity(app, before);
      RunKeepsIntegrity(app, ops[..i]);
      RunNotificationIds(app, before, i);
      StepDb(Run(app, before), op);
      NotificationsChangeByRecipient(Run(app, before).db, op, Run(app, before).now, n);
      ReadStaysRead(app, before, i, n);
    }
  }

  lemma {:induction false} RunNotificationIds(app: App, ops: seq<Op>, i: nat)
    requires i <= |ops|
    ensures Run(app, ops[..i]).db.next.notifications <= Run(app, ops).db.next.notifications
    decreases |ops|
  {
    if i == |ops| {
      assert ops[..i] == ops;
    } else {
      var before := ops[..|ops| - 1];
      assert before[..i] == ops[..i];
      RunNotificationIds(app, before, i);
      StepExtends(Run(app, before), ops[|ops| - 1]);
      SequencesGrow(Run(app, before).db, Step(Run(app, before), ops[|ops| - 1]).db);
    }
  }

  /** Marking everything read leaves the caller nothing unread, answers how much there was, and touches nobody else's. */
  lemma MarkAllReadExactly(db: Db, actor: int, other: int)
    requires actor in db.users
    ensures var outcome := Services.MarkAllRead(db, actor);
            && outcome.result == Ok(|Services.UnreadOf(db, actor)|)
            && Services.UnreadOf(outcome.db, actor) == {}
            && (other != actor ==> Services.UnreadOf(outcome.db, other) == Services.UnreadOf(db, other))
  {
    var after := Services.MarkAllRead(db, actor).db;
    forall n | n in after.notifications ensures n !in Services.UnreadOf(after, actor) {
      assert n in db.notifications;
    }
    if other != actor {
      assert Services.UnreadOf(after, other) == Services.UnreadOf(db, other);
    }
  }

  // ----- accounts -----

  ghost predicate EmailsUnique(db: Db) {
    forall u, v :: u in db.users && v in db.users && db.users[u].email == db.users[v].email ==> u == v
  }

  /** A user's address after a request is the one they had, or one nobody else has. */
  lemma AddressKeptOrFree(db: Db, op: Op, now: real, u: int, v: int)
    requires Sound(db) && EmailsUnique(db) && Granted(db, op, now)
    requires u in Serve(db, op, now).db.users && v in Serve(db, op, now).db.users
    requires Serve(db, op, now).db.users[u].email == Serve(db, op, now).db.users[v].email
    ensures u == v
  {
    UsersExactly(db, op, now, u);
    UsersExactly(db, op, now, v);
    AnswersExactly(db, op, now);
  }

  lemma StepKeepsEmails(app: App, op: Op)
    requires Sound(app.db) && EmailsUnique(app.db)
    ensures EmailsUnique(Step(app, op).db)
  {
    StepDb(app, op);
    var after := Serve(app.db, op, app.now).db;
    if Granted(app.db, op, app.now) {
      forall u, v | u in after.users && v in after.users && after.users[u].email == after.users[v].email ensures u == v {
        AddressKeptOrFree(app.db, op, app.now, u, v);
      }
    } else {
      RefusedExactly(app.db, op, app.now);
    }
  }

  /** No run lets two users share an e-mail address. */
  lemma {:induction false} RunKeepsEmailsUnique(app: App, ops: seq<Op>)
    requires Sound(app.db) && EmailsUnique(app.db)
    ensures EmailsUnique(Run(app, ops).db)
  {
    if ops != [] {
      var before, op := ops[..|ops| - 1], ops[|ops| - 1];
      RunKeepsEmailsUnique(app, before);
      RunKeepsIntegrity(app, before);
      StepKeepsEmails(Run(app, before), op);
    }
  }
}
