/**
 Whole runs of the application: requests served one after another against the
 database and the dashboard cache, and what every such run keeps.
 */
module Tracker {
  import opened Options
  import opened Store
  import opened Dashboard
  import Cascade
  import Keys
  import Services

  const CACHE_TTL: real := 60.0

  datatype Entry = Entry(value: Summary, expiresAt: real)

  datatype App = App(db: Db, cache: map<string, Entry>, redisUp: bool, now: real)

  datatype Op =
    | Register(name: string, email: string)
    | EditProfile(actor: int, profile: Services.UserUpdate)
    | RemoveUser(actor: int, userId: int)
    | Activity(actor: int, action: string)
    | NewProject(actor: int, title: string, description: Option<string>)
    | EditProject(actor: int, projectId: int, project: Services.ProjectUpdate)
    | RemoveProject(actor: int, projectId: int)
    | NewIssue(actor: int, input: Services.IssueCreate)
    | EditIssue(actor: int, issueId: int, issue: Services.IssueUpdate)
    | RemoveIssue(actor: int, issueId: int)
    | Assign(actor: int, issueId: int, assignee: int)
    | Move(actor: int, issueId: int, to: Status)
    | PostComment(actor: int, issueId: int, text: string)
    | RemoveComment(actor: int, commentId: int)
    | Read(actor: int, notificationId: int)
    | ReadAll(actor: int)
    | Export(actor: int, projectId: int)
    | ViewDashboard(actor: int)
    | Wait(seconds: real)
    | Redis(up: bool)

  /** The database side of a request. */
  function Serve(db: Db, op: Op, now: real): Services.Outcome<int> {
    match op
    case Register(name, email) => Services.Register(db, name, email)
    case EditProfile(actor, profile) => Services.UpdateProfile(db, actor, profile)
    case RemoveUser(actor, userId) => Services.DeleteUser(db, actor, userId)
    case Activity(actor, action) => Services.RecordActivity(db, actor, action)
    case NewProject(actor, title, description) => Services.CreateProject(db, actor, title, description)
    case EditProject(actor, projectId, project) => Services.UpdateProject(db, actor, projectId, project)
    case RemoveProject(actor, projectId) => Services.DeleteProject(db, actor, projectId)
    case NewIssue(actor, input) => Services.CreateIssue(db, actor, input, now)
    case EditIssue(actor, issueId, issue) => Services.UpdateIssue(db, actor, issueId, issue)
    case RemoveIssue(actor, issueId) => Services.DeleteIssue(db, actor, issueId)
    case Assign(actor, issueId, assignee) => Services.AssignIssue(db, actor, issueId, assignee)
    case Move(actor, issueId, to) => Services.ChangeStatus(db, actor, issueId, to)
    case PostComment(actor, issueId, text) => Services.PostComment(db, actor, issueId, text)
    case RemoveComment(actor, commentId) => Services.DeleteComment(db, actor, commentId)
    case Read(actor, notificationId) => Services.MarkRead(db, actor, notificationId)
    case ReadAll(actor) => Services.MarkAllRead(db, actor)
    case Export(actor, projectId) => Services.RequestExport(db, actor, projectId, now)
    case ViewDashboard(actor) => Services.Outcome(db, if actor in db.users then Ok(actor) else Err(Unauthenticated))
    case Wait(_) => Services.Outcome(db, Ok(0))
    case Redis(_) => Services.Outcome(db, Ok(0))
  }

  /** The user whose cached summary a successful request drops; `after` is the database it committed. */
  function Invalidates(db: Db, op: Op, after: Db): Option<int> {
    match op
    case NewProject(actor, _, _) => Some(actor)
    case RemoveProject(_, projectId) => Services.OwnerOf(db, projectId)
    case NewIssue(_, input) => Services.OwnerOf(after, input.projectId)
    case EditIssue(_, issueId, _) =>
      if issueId in after.issues then Services.OwnerOf(after, after.issues[issueId].projectId) else None
    case RemoveIssue(_, issueId) =>
      if issueId in db.issues then Services.OwnerOf(after, db.issues[issueId].projectId) else None
    case Move(_, issueId, _) =>
      if issueId in after.issues then Services.OwnerOf(after, after.issues[issueId].projectId) else None
    case _ => None
  }

  function GetCache(app: App, key: string): Option<Summary> {
    if app.redisUp && key in app.cache && app.now < app.cache[key].expiresAt then Some(app.cache[key].value) else None
  }

  function SetCache(app: App, key: string, value: Summary, ttl: real): App {
    if app.redisUp then app.(cache := app.cache[key := Entry(value, app.now + ttl)]) else app
  }

  function DeleteCache(app: App, key: string): App {
    if app.redisUp then app.(cache := app.cache - {key}) else app
  }

  /** Drop the summary of a user, if there is one to drop it for. */
  function Dropped(app: App, user: Option<int>): App {
    match user
    case None => app
    case Some(u) => DeleteCache(app, Keys.DashboardKey(u))
  }

  /** The dashboard request: a cached summary if there is a live one, a computed and stored one otherwise. */
  function View(app: App, actor: int): (App, Result<Summary>) {
    if actor !in app.db.users then (app, Err(Unauthenticated))
    else
      var key := Keys.DashboardKey(actor);
      match GetCache(app, key)
      case Some(summary) => (app, Ok(summary))
      case None =>
        var summary := ComputeSummary(app.db, actor);
        (SetCache(app, key, summary, CACHE_TTL), Ok(summary))
  }

  function Step(app: App, op: Op): App {
    match op
    case ViewDashboard(actor) => View(app, actor).0
    case Wait(seconds) => if seconds >= 0.0 then app.(now := app.now + seconds) else app
    case Redis(up) => app.(redisUp := up)
    case _ =>
      var outcome := Serve(app.db, op, app.now);
      var committed := app.(db := outcome.db);
      if outcome.result.Ok? then Dropped(committed, Invalidates(app.db, op, outcome.db)) else committed
  }

  function Run(app: App, ops: seq<Op>): App {
    if ops == [] then app else Step(Run(app, ops[..|ops| - 1]), ops[|ops| - 1])
  }

  // ----- referential integrity and fresh ids over every run -----

  ghost predicate Sound(db: Db) {
    Integrity(db) && IdsAllocated(db)
  }

  lemma AddLogSound(db: Db, row: ActivityLog)
    requires Sound(db) && row.userId in db.users
    ensures Sound(Services.AddLog(db, row))
  {
    var after := Services.AddLog(db, row);
    forall r: Ref, c: Column, parent: Ref | Refers(after, r, c, parent) ensures Has(after, parent) {
      if r != Ref(ActivityLogs, db.next.logs) {
        assert Refers(db, r, c, parent);
      }
    }
  }

  lemma AddNotificationSound(db: Db, row: Notification)
    requires Sound(db) && row.userId in db.users && (row.issueId.Some? ==> row.issueId.value in db.issues)
    ensures Sound(Services.AddNotification(db, row))
  {
    var after := Services.AddNotification(db, row);
    forall r: Ref, c: Column, parent: Ref | Refers(after, r, c, parent) ensures Has(after, parent) {
      if r != Ref(Notifications, db.next.notifications) {
        assert Refers(db, r, c, parent);
      }
    }
  }

  lemma AddCommentSound(db: Db, row: Comment)
    requires Sound(db) && row.userId in db.users && row.issueId in db.issues
    ensures Sound(Services.AddComment(db, row))
  {
    var after := Services.AddComment(db, row);
    forall r: Ref, c: Column, parent: Ref | Refers(after, r, c, parent) ensures Has(after, parent) {
      if r != Ref(Comments, db.next.comments) {
        assert Refers(db, r, c, parent);
      }
    }
  }

  lemma AddIssueSound(db: Db, row: Issue)
    requires Sound(db) && row.projectId in db.projects && Services.UserResolves(db, row.assignedTo)
    ensures Sound(Services.AddIssue(db, row))
  {
    var after := Services.AddIssue(db, row);
    forall r: Ref, c: Column, parent: Ref | Refers(after, r, c, parent) ensures Has(after, parent) {
      if r != Ref(Issues, db.next.issues) {
        assert Refers(db, r, c, parent);
      }
    }
  }

  lemma AddProjectSound(db: Db, row: Project)
    requires Sound(db) && row.ownerId in db.users
    ensures Sound(Services.AddProject(db, row))
  {
    var after := Services.AddProject(db, row);
    forall r: Ref, c: Column, parent: Ref | Refers(after, r, c, parent) ensures Has(after, parent) {
      if r != Ref(Projects, db.next.projects) {
        assert Refers(db, r, c, parent);
      }
    }
  }

  lemma AddJobSound(db: Db, row: ExportJob)
    requires Sound(db) && row.projectId in db.projects && row.requestedById in db.users
    ensures Sound(Services.AddJob(db, row))
  {
    var after := Services.AddJob(db, row);
    forall r: Ref, c: Column, parent: Ref | Refers(after, r, c, parent) ensures Has(after, parent) {
      if r != Ref(ExportJobs, db.next.jobs) {
        assert Refers(db, r, c, parent);
      }
    }
  }

  lemma AddUserSound(db: Db, row: User)
    requires Sound(db)
    ensures Sound(Services.AddUser(db, row))
  {
    var after := Services.AddUser(db, row);
    forall r: Ref, c: Column, parent: Ref | Refers(after, r, c, parent) ensures Has(after, parent) {
      assert Refers(db, r, c, parent);
    }
  }

  /** Rewriting an issue in place, its new assignee resolving. */
  lemma WriteIssueSound(db: Db, id: int, row: Issue)
    requires Sound(db) && id in db.issues
    requires row.projectId == db.issues[id].projectId && Services.UserResolves(db, row.assignedTo)
    ensures Sound(db.(issues := db.issues[id := row]))
  {
    var after := db.(issues := db.issues[id := row]);
    forall r: Ref, c: Column, parent: Ref | Refers(after, r, c, parent) ensures Has(after, parent) {
      if r == Ref(Issues, id) {
        assert Refers(db, r, IssueProject, Ref(Projects, row.projectId));
      } else {
        assert Refers(db, r, c, parent);
      }
    }
  }

  /** Rewriting rows without touching a foreign key. */
  lemma WriteUserSound(db: Db, id: int, row: User)
    requires Sound(db) && id in db.users
    ensures Sound(db.(users := db.users[id := row]))
  {
    var after := db.(users := db.users[id := row]);
    forall r: Ref, c: Column, parent: Ref | Refers(after, r, c, parent) ensures Has(after, parent) {
      assert Refers(db, r, c, parent);
    }
  }

  lemma WriteProjectSound(db: Db, id: int, row: Project)
    requires Sound(db) && id in db.projects && row.ownerId == db.projects[id].ownerId
    ensures Sound(db.(projects := db.projects[id := row]))
  {
    var after := db.(projects := db.projects[id := row]);
    forall r: Ref, c: Column, parent: Ref | Refers(after, r, c, parent) ensures Has(after, parent) {
      assert Refers(db, r, c, parent);
    }
  }

  lemma WriteNotificationsSound(db: Db, rows: map<int, Notification>)
    requires Sound(db) && rows.Keys == db.notifications.Keys
    requires forall n :: n in rows ==> rows[n] == db.notifications[n] || rows[n] == db.notifications[n].(isRead := true)
    ensures Sound(db.(notifications := rows))
  {
    var after := db.(notifications := rows);
    forall r: Ref, c: Column, parent: Ref | Refers(after, r, c, parent) ensures Has(after, parent) {
      assert Refers(db, r, c, parent);
    }
  }

  lemma DeleteRowSound(db: Db, root: Ref)
    requires Sound(db)
    ensures Sound(Cascade.DeleteRow(db, root))
  {
    Cascade.DeleteKeepsIntegrity(db, root);
  }

  lemma AnnounceSound(db: Db, issueId: int, actor: int, kind: NotificationKind, text: Message)
    requires Sound(db) && issueId in db.issues
    ensures Sound(Services.Announce(db, issueId, actor, kind, text))
  {
    var to := Services.Recipient(db.issues[issueId], actor);
    if to.Some? {
      assert Refers(db, Ref(Issues, issueId), IssueAssignee, Ref(Users, to.value));
      AddNotificationSound(db, Notification(to.value, kind, text, Some(issueId), false));
    }
  }

  lemma IssueAssigneeResolves(db: Db, id: int)
    requires Sound(db) && id in db.issues
    ensures Services.UserResolves(db, db.issues[id].assignedTo)
  {
    var a := db.issues[id].assignedTo;
    if a.Some? {
      assert Refers(db, Ref(Issues, id), IssueAssignee, Ref(Users, a.value));
    }
  }

  lemma NewIssueSound(db: Db, actor: int, input: Services.IssueCreate, now: real)
    requires Sound(db)
    ensures Sound(Services.CreateIssue(db, actor, input, now).db)
  {
    var outcome := Services.CreateIssue(db, actor, input, now);
    if outcome.result.Ok? {
      var row := Issue(input.title, input.description, input.priority, Todo, input.dueDate, input.projectId,
                       input.assignedTo, now);
      AddIssueSound(db, row);
      AddLogSound(Services.AddIssue(db, row), ActivityLog(actor, CreatedIssue(input.title)));
    } else if outcome.db != db {
      SameKeysExceptNext(db, outcome.db);
    }
  }

  lemma EditIssueSound(db: Db, actor: int, id: int, update: Services.IssueUpdate)
    requires Sound(db)
    ensures Sound(Services.UpdateIssue(db, actor, id, update).db)
  {
    if Services.UpdateIssue(db, actor, id, update).result.Ok? {
      IssueAssigneeResolves(db, id);
      WriteIssueSound(db, id, Services.Updated(db.issues[id], update));
    }
  }

  lemma AssignSound(db: Db, actor: int, id: int, assignee: int)
    requires Sound(db)
    ensures Sound(Services.AssignIssue(db, actor, id, assignee).db)
  {
    if Services.AssignIssue(db, actor, id, assignee).result.Ok? {
      var row := db.issues[id].(assignedTo := Some(assignee));
      WriteIssueSound(db, id, row);
      var written, log := db.(issues := db.issues[id := row]), ActivityLog(actor, AssignedIssue(row.title, assignee));
      AddLogSound(written, log);
      if assignee != actor {
        var text := AssignsYou(db.users[actor].name, row.title);
        AddNotificationSound(Services.AddLog(written, log), Notification(assignee, IssueAssigned, text, Some(id), false));
      }
    }
  }

  lemma MoveSound(db: Db, actor: int, id: int, to: Status)
    requires Sound(db)
    ensures Sound(Services.ChangeStatus(db, actor, id, to).db)
  {
    if Services.ChangeStatus(db, actor, id, to).result.Ok? {
      var row := db.issues[id].(status := to);
      IssueAssigneeResolves(db, id);
      WriteIssueSound(db, id, row);
      var written, log := db.(issues := db.issues[id := row]), ActivityLog(actor, MovedIssue(row.title, to));
      AddLogSound(written, log);
      AnnounceSound(Services.AddLog(written, log), id, actor, IssueStatusChanged,
                    ChangesStatus(db.users[actor].name, row.title, to));
    }
  }

  lemma RemoveIssueSound(db: Db, actor: int, id: int)
    requires Sound(db)
    ensures Sound(Services.DeleteIssue(db, actor, id).db)
  {
    DeleteRowSound(db, Ref(Issues, id));
  }

  lemma IssueOpsSound(db: Db, op: Op, now: real)
    requires Sound(db)
    requires op.NewIssue? || op.EditIssue? || op.RemoveIssue? || op.Assign? || op.Move?
    ensures Sound(Serve(db, op, now).db)
  {
    match op
    case NewIssue(actor, input) => NewIssueSound(db, actor, input, now);
    case EditIssue(actor, id, update) => EditIssueSound(db, actor, id, update);
    case RemoveIssue(actor, id) => RemoveIssueSound(db, actor, id);
    case Assign(actor, id, assignee) => AssignSound(db, actor, id, assignee);
    case Move(actor, id, to) => MoveSound(db, actor, id, to);
  }

  lemma SameKeysExceptNext(db: Db, after: Db)
    requires Sound(db)
    requires after == db.(next := db.next.(issues := db.next.issues + 1))
    ensures Sound(after)
  {
    forall r: Ref, c: Column, parent: Ref | Refers(after, r, c, parent) ensures Has(after, parent) {
      assert Refers(db, r, c, parent);
    }
  }

  /** Requests that rewrite rows without touching a key. */
  predicate EditsInPlace(op: Op) {
    op.EditProfile? || op.EditProject? || op.Read? || op.ReadAll?
  }

  lemma EditsInPlaceSound(db: Db, op: Op, now: real)
    requires Sound(db) && EditsInPlace(op)
    ensures Sound(Serve(db, op, now).db)
  {
    var after := Serve(db, op, now).db;
    if Serve(db, op, now).result.Ok? {
      match op
      case EditProfile(id, _) => WriteUserSound(db, id, after.users[id]);
      case EditProject(_, id, _) => WriteProjectSound(db, id, after.projects[id]);
      case Read(_, _) => WriteNotificationsSound(db, after.notifications);
      case ReadAll(_) => WriteNotificationsSound(db, after.notifications);
    }
  }

  lemma OtherOpsSound(db: Db, op: Op, now: real)
    requires Sound(db)
    requires !op.NewIssue? && !op.EditIssue? && !op.RemoveIssue? && !op.Assign? && !op.Move? && !EditsInPlace(op)
    ensures Sound(Serve(db, op, now).db)
  {
    if Serve(db, op, now).result.Ok? {
      match op
      case Register(name, email) =>
        AddUserSound(db, User(name, email, Developer));
        AddLogSound(Services.AddUser(db, User(name, email, Developer)), ActivityLog(db.next.users, Registered));
      case RemoveUser(_, id) => DeleteRowSound(db, Ref(Users, id));
      case Activity(actor, action) => AddLogSound(db, ActivityLog(actor, Account(action)));
      case NewProject(actor, title, description) =>
        AddProjectSound(db, Project(title, description, actor));
        AddLogSound(Services.AddProject(db, Project(title, description, actor)),
                    ActivityLog(actor, CreatedProject(title)));
      case RemoveProject(_, id) => DeleteRowSound(db, Ref(Projects, id));
      case PostComment(actor, id, text) =>
        AddCommentSound(db, Comment(id, actor, text));
        AnnounceSound(Services.AddComment(db, Comment(id, actor, text)), id, actor, IssueCommented,
                      CommentsOn(db.users[actor].name, db.issues[id].title));
      case RemoveComment(_, id) => DeleteRowSound(db, Ref(Comments, id));
      case Export(actor, id) =>
        AddJobSound(db, ExportJob(id, actor, Pending, None, None, None, 0, now, None));
      case _ =>
    }
  }

  // ----- what each group of requests can touch -----

  predicate Deletes(op: Op) {
    op.RemoveUser? || op.RemoveProject? || op.RemoveIssue? || op.RemoveComment?
  }

  predicate WritesIssue(op: Op) {
    op.NewIssue? || op.EditIssue? || op.Assign? || op.Move?
  }

  predicate WritesAccount(op: Op) {
    op.Register? || op.EditProfile? || op.Activity? || op.NewProject? || op.EditProject?
  }

  function Doomed(op: Op): Ref
    requires Deletes(op)
  {
    match op
    case RemoveUser(_, id) => Ref(Users, id)
    case RemoveProject(_, id) => Ref(Projects, id)
    case RemoveIssue(_, id) => Ref(Issues, id)
    case RemoveComment(_, id) => Ref(Comments, id)
  }

  lemma DeletesShape(db: Db, op: Op, now: real)
    requires Deletes(op)
    ensures var outcome := Serve(db, op, now);
            outcome.db == if outcome.result.Ok? then Cascade.DeleteRow(db, Doomed(op)) else db
  {
  }

  /** A granted edit or delete of an issue is its commit, followed by dropping the summary of its project's owner. */
  lemma EditLands(app: App, actor: int, id: int, update: Services.IssueUpdate)
    requires Services.UpdateIssue(app.db, actor, id, update).result.Ok?
    ensures var after := Services.UpdateIssue(app.db, actor, id, update).db;
            id in after.issues &&
            Step(app, EditIssue(actor, id, update)) ==
            Dropped(app.(db := after), Services.OwnerOf(after, after.issues[id].projectId))
  {
  }

  lemma RemovalLands(app: App, actor: int, id: int)
    requires Services.DeleteIssue(app.db, actor, id).result.Ok?
    ensures id in app.db.issues
    ensures var after := Services.DeleteIssue(app.db, actor, id).db;
            Step(app, RemoveIssue(actor, id)) ==
            Dropped(app.(db := after), Services.OwnerOf(after, app.db.issues[id].projectId))
  {
  }

  lemma StepDb(app: App, op: Op)
    ensures Step(app, op).db == Serve(app.db, op, app.now).db
  {
  }

  lemma StepSound(app: App, op: Op)
    requires Sound(app.db)
    ensures Sound(Step(app, op).db)
  {
    StepDb(app, op);
    if op.NewIssue? || op.EditIssue? || op.RemoveIssue? || op.Assign? || op.Move? {
      IssueOpsSound(app.db, op, app.now);
    } else if EditsInPlace(op) {
      EditsInPlaceSound(app.db, op, app.now);
    } else {
      OtherOpsSound(app.db, op, app.now);
    }
  }

  /** No run of requests leaves a dangling foreign key, or a row whose id its sequence has yet to hand out. */
  lemma {:induction false} RunKeepsIntegrity(app: App, ops: seq<Op>)
    requires Sound(app.db)
    ensures Sound(Run(app, ops).db)
  {
    if ops != [] {
      RunKeepsIntegrity(app, ops[..|ops| - 1]);
      StepSound(Run(app, ops[..|ops| - 1]), ops[|ops| - 1]);
    }
  }

  // ----- ids are handed out once -----

  function NextId(s: Sequences, t: Table): int {
    match t
    case Users => s.users
    case Projects => s.projects
    case Issues => s.issues
    case Comments => s.comments
    case ActivityLogs => s.logs
    case Notifications => s.notifications
    case ExportJobs => s.jobs
  }

  /** No sequence goes back, and a row that was not there has an id not handed out before. */
  ghost predicate Extends(db: Db, after: Db) {
    && (forall t: Table :: NextId(db.next, t) <= NextId(after.next, t))
    && (forall r: Ref :: Has(after, r) && !Has(db, r) ==> NextId(db.next, r.table) <= r.id)
  }

  lemma ExtendsOn(a: Db, b: Db, c: Db)
    requires Extends(a, b) && Extends(b, c)
    ensures Extends(a, c)
  {
    forall t: Table ensures NextId(a.next, t) <= NextId(c.next, t) {
      assert NextId(a.next, t) <= NextId(b.next, t) <= NextId(c.next, t);
    }
    forall r: Ref | Has(c, r) && !Has(a, r) ensures NextId(a.next, r.table) <= r.id {
      assert NextId(a.next, r.table) <= NextId(b.next, r.table);
    }
  }

  lemma AnnounceExtends(db: Db, id: int, actor: int, kind: NotificationKind, text: Message)
    requires id in db.issues
    ensures Extends(db, Services.Announce(db, id, actor, kind, text))
  {
  }

  lemma DeleteExtends(db: Db, root: Ref)
    ensures Extends(db, Cascade.DeleteRow(db, root))
  {
  }

  lemma RegisterExtends(db: Db, name: string, email: string)
    ensures Extends(db, Services.Register(db, name, email).db)
  {
  }

  lemma EditProfileExtends(db: Db, actor: int, profile: Services.UserUpdate)
    ensures Extends(db, Services.UpdateProfile(db, actor, profile).db)
  {
  }

  lemma ActivityExtends(db: Db, actor: int, action: string)
    ensures Extends(db, Services.RecordActivity(db, actor, action).db)
  {
  }

  lemma NewProjectExtends(db: Db, actor: int, title: string, description: Option<string>)
    ensures Extends(db, Services.CreateProject(db, actor, title, description).db)
  {
  }

  lemma EditProjectExtends(db: Db, actor: int, id: int, project: Services.ProjectUpdate)
    ensures Extends(db, Services.UpdateProject(db, actor, id, project).db)
  {
  }

  lemma NewIssueExtends(db: Db, actor: int, input: Services.IssueCreate, now: real)
    ensures Extends(db, Services.CreateIssue(db, actor, input, now).db)
  {
  }

  lemma EditIssueExtends(db: Db, actor: int, id: int, update: Services.IssueUpdate)
    ensures Extends(db, Services.UpdateIssue(db, actor, id, update).db)
  {
  }

  lemma AddNotificationExtends(db: Db, row: Notification)
    ensures Extends(db, Services.AddNotification(db, row))
  {
  }

  lemma AssignExtends(db: Db, actor: int, id: int, assignee: int)
    ensures Extends(db, Services.AssignIssue(db, actor, id, assignee).db)
  {
    var outcome := Services.AssignIssue(db, actor, id, assignee);
    if outcome.result.Ok? && assignee != actor {
      var row := db.issues[id].(assignedTo := Some(assignee));
      var saved := Services.AddLog(db.(issues := db.issues[id := row]), ActivityLog(actor, AssignedIssue(row.title, assignee)));
      var told := Notification(assignee, IssueAssigned, AssignsYou(db.users[actor].name, row.title), Some(id), false);
      assert Extends(db, saved);
      AddNotificationExtends(saved, told);
      ExtendsOn(db, saved, outcome.db);
    }
  }

  lemma MoveExtends(db: Db, actor: int, id: int, to: Status)
    ensures Extends(db, Services.ChangeStatus(db, actor, id, to).db)
  {
    if Services.ChangeStatus(db, actor, id, to).result.Ok? {
      var row := db.issues[id].(status := to);
      var saved := Services.AddLog(db.(issues := db.issues[id := row]), ActivityLog(actor, MovedIssue(row.title, to)));
      assert Extends(db, saved);
      AnnounceExtends(saved, id, actor, IssueStatusChanged, ChangesStatus(db.users[actor].name, row.title, to));
      ExtendsOn(db, saved, Services.ChangeStatus(db, actor, id, to).db);
    }
  }

  lemma CommentExtends(db: Db, actor: int, id: int, text: string)
    ensures Extends(db, Services.PostComment(db, actor, id, text).db)
  {
    if Services.PostComment(db, actor, id, text).result.Ok? {
      var saved := Services.AddComment(db, Comment(id, actor, text));
      assert Extends(db, saved);
      AnnounceExtends(saved, id, actor, IssueCommented, CommentsOn(db.users[actor].name, db.issues[id].title));
      ExtendsOn(db, saved, Services.PostComment(db, actor, id, text).db);
    }
  }

  lemma ReadExtends(db: Db, actor: int, id: int)
    ensures Extends(db, Services.MarkRead(db, actor, id).db) && Extends(db, Services.MarkAllRead(db, actor).db)
  {
  }

  lemma ExportExtends(db: Db, actor: int, id: int, now: real)
    ensures Extends(db, Services.RequestExport(db, actor, id, now).db)
  {
  }

  lemma AccountOpsExtend(db: Db, op: Op, now: real)
    requires WritesAccount(op)
    ensures Extends(db, Serve(db, op, now).db)
  {
    match op
    case Register(name, email) => RegisterExtends(db, name, email);
    case EditProfile(actor, profile) => EditProfileExtends(db, actor, profile);
    case Activity(actor, action) => ActivityExtends(db, actor, action);
    case NewProject(actor, title, description) => NewProjectExtends(db, actor, title, description);
    case EditProject(actor, id, project) => EditProjectExtends(db, actor, id, project);
  }

  lemma IssueOpsExtend(db: Db, op: Op, now: real)
    requires WritesIssue(op)
    ensures Extends(db, Serve(db, op, now).db)
  {
    match op
    case NewIssue(actor, input) => NewIssueExtends(db, actor, input, now);
    case EditIssue(actor, id, update) => EditIssueExtends(db, actor, id, update);
    case Assign(actor, id, assignee) => AssignExtends(db, actor, id, assignee);
    case Move(actor, id, to) => MoveExtends(db, actor, id, to);
  }

  lemma OtherOpsExtend(db: Db, op: Op, now: real)
    requires !Deletes(op) && !WritesAccount(op) && !WritesIssue(op)
    ensures Extends(db, Serve(db, op, now).db)
  {
    match op
    case PostComment(actor, id, text) => CommentExtends(db, actor, id, text);
    case Read(actor, id) => ReadExtends(db, actor, id);
    case ReadAll(actor) => ReadExtends(db, actor, 0);
    case Export(actor, id) => ExportExtends(db, actor, id, now);
    case _ =>
  }

  lemma ServeExtends(db: Db, op: Op, now: real)
    ensures Extends(db, Serve(db, op, now).db)
  {
    if Deletes(op) {
      DeletesShape(db, op, now);
      DeleteExtends(db, Doomed(op));
    } else if WritesAccount(op) {
      AccountOpsExtend(db, op, now);
    } else if WritesIssue(op) {
      IssueOpsExtend(db, op, now);
    } else {
      OtherOpsExtend(db, op, now);
    }
  }

  lemma StepExtends(app: App, op: Op)
    ensures Extends(app.db, Step(app, op).db)
  {
    StepDb(app, op);
    ServeExtends(app.db, op, app.now);
  }

  lemma SequencesGrow(db: Db, after: Db)
    requires Extends(db, after)
    ensures db.next.issues <= after.next.issues && db.next.notifications <= after.next.notifications
  {
    assert NextId(db.next, Issues) <= NextId(after.next, Issues);
    assert NextId(db.next, Notifications) <= NextId(after.next, Notifications);
  }

  lemma {:induction false} RunExtends(app: App, ops: seq<Op>, i: nat)
    requires i <= |ops|
    ensures Extends(Run(app, ops[..i]).db, Run(app, ops).db)
    decreases |ops|
  {
    if i == |ops| {
      assert ops[..i] == ops;
    } else {
      var before, op := ops[..|ops| - 1], ops[|ops| - 1];
      assert before[..i] == ops[..i];
      RunExtends(app, before, i);
      StepExtends(Run(app, before), op);
      ExtendsOn(Run(app, ops[..i]).db, Run(app, before).db, Run(app, ops).db);
    }
  }

  /** In no run and no table does an id come back: no sequence goes back, and a row once gone stays gone. */
  lemma IdsAreHandedOutOnce(app: App, ops: seq<Op>, i: nat, r: Ref)
    requires i <= |ops| && r.id < NextId(Run(app, ops[..i]).db.next, r.table)
    ensures NextId(Run(app, ops[..i]).db.next, r.table) <= NextId(Run(app, ops).db.next, r.table)
    ensures Has(Run(app, ops).db, r) ==> Has(Run(app, ops[..i]).db, r)
  {
    RunExtends(app, ops, i);
  }
}
