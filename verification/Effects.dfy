/**
 What every request does, told by the columns: which rows are there afterwards,
 what each column of each row holds, and what the request is answered.
 */
module Effects {
  import opened Options
  import opened Store
  import Cascade
  import Keys
  import Services
  import opened Tracker

  /** Who makes the request, for requests someone makes. */
  function Actor(op: Op): Option<int> {
    match op
    case Register(_, _) => None
    case EditProfile(actor, _) => Some(actor)
    case RemoveUser(actor, _) => Some(actor)
    case Activity(actor, _) => Some(actor)
    case NewProject(actor, _, _) => Some(actor)
    case EditProject(actor, _, _) => Some(actor)
    case RemoveProject(actor, _) => Some(actor)
    case NewIssue(actor, _) => Some(actor)
    case EditIssue(actor, _, _) => Some(actor)
    case RemoveIssue(actor, _) => Some(actor)
    case Assign(actor, _, _) => Some(actor)
    case Move(actor, _, _) => Some(actor)
    case PostComment(actor, _, _) => Some(actor)
    case RemoveComment(actor, _) => Some(actor)
    case Read(actor, _) => Some(actor)
    case ReadAll(actor) => Some(actor)
    case Export(actor, _) => Some(actor)
    case ViewDashboard(actor) => Some(actor)
    case Wait(_) => None
    case Redis(_) => None
  }

  /** A user of the tracker who owns the project or is an administrator. */
  predicate HasRight(db: Db, projectId: int, user: int) {
    user in db.users &&
    ((projectId in db.projects && db.projects[projectId].ownerId == user) || db.users[user].role == Admin)
  }

  /** Requests that can announce something about an issue. */
  predicate Announces(op: Op) {
    op.Assign? || op.Move? || op.PostComment?
  }

  predicate Granted(db: Db, op: Op, now: real) {
    Serve(db, op, now).result.Ok?
  }

  /** What a column holds after a request that may give it a value. */
  predicate Column<T(==)>(given: Option<T>, before: T, after: T) {
    after == if given.Some? then given.value else before
  }

  /** The same for a column that holds no null: a null cannot have been given. */
  predicate Required<T(==)>(given: Option<Option<T>>, before: T, after: T) {
    if given.Some? then given.value.Some? && after == given.value.value else after == before
  }

  // ----- users -----

  /** A user's columns after a request: name and address as an edit of their own profile gives them. */
  predicate UserKept(op: Op, id: int, before: User, after: User) {
    var mine := op.EditProfile? && op.actor == id;
    && Required(if mine then op.profile.name else None, before.name, after.name)
    && Required(if mine then op.profile.email else None, before.email, after.email)
    && after.role == before.role
  }

  predicate UserAfter(db: Db, op: Op, after: Db, id: int) {
    if id in db.users then
      && (id in after.users <==> !(op.RemoveUser? && op.userId == id))
      && (id in after.users ==> UserKept(op, id, db.users[id], after.users[id]))
    else
      && (id in after.users <==> op.Register? && id == db.next.users)
      && (id in after.users ==> after.users[id] == User(op.name, op.email, Developer))
  }

  // ----- projects -----

  predicate ProjectKept(op: Op, id: int, before: Project, after: Project) {
    var edited := op.EditProject? && op.projectId == id;
    && Required(if edited then op.project.title else None, before.title, after.title)
    && Column(if edited then op.project.description else None, before.description, after.description)
    && after.ownerId == before.ownerId
  }

  /** A project goes when it or its owner is deleted. */
  predicate ProjectAfter(db: Db, op: Op, after: Db, id: int) {
    if id in db.projects then
      && (id in after.projects <==>
            !(op.RemoveProject? && op.projectId == id) && !(op.RemoveUser? && op.userId == db.projects[id].ownerId))
      && (id in after.projects ==> ProjectKept(op, id, db.projects[id], after.projects[id]))
    else
      && (id in after.projects <==> op.NewProject? && id == db.next.projects)
      && (id in after.projects ==> after.projects[id] == Project(op.title, op.description, op.actor))
  }

  // ----- issues -----

  /** Whom a request gives an issue to: the assignee asked for, or nobody when its assignee is deleted. */
  function AssigneeGiven(op: Op, id: int, before: Issue): Option<Option<int>> {
    if op.Assign? && op.issueId == id then Some(Some(op.assignee))
    else if op.EditIssue? && op.issueId == id then op.issue.assignedTo
    else if op.RemoveUser? && before.assignedTo == Some(op.userId) then Some(None)
    else None
  }

  predicate IssueKept(op: Op, id: int, before: Issue, after: Issue) {
    var edited := op.EditIssue? && op.issueId == id;
    && Required(if edited then op.issue.title else None, before.title, after.title)
    && Column(if edited then op.issue.description else None, before.description, after.description)
    && Required(if edited then op.issue.priority else None, before.priority, after.priority)
    && Column(if edited then op.issue.dueDate else None, before.dueDate, after.dueDate)
    && Column(AssigneeGiven(op, id, before), before.assignedTo, after.assignedTo)
    && Column(if op.Move? && op.issueId == id then Some(op.to) else None, before.status, after.status)
    && after.projectId == before.projectId && after.createdAt == before.createdAt
  }

  predicate IssueMade(op: Op, now: real, row: Issue)
    requires op.NewIssue?
  {
    && row.title == op.input.title && row.description == op.input.description
    && row.priority == op.input.priority && row.status == Todo && row.dueDate == op.input.dueDate
    && row.projectId == op.input.projectId && row.assignedTo == op.input.assignedTo && row.createdAt == now
  }

  /** An issue goes when it is deleted or its project goes. */
  predicate IssueAfter(db: Db, op: Op, now: real, after: Db, id: int) {
    if id in db.issues then
      && (id in after.issues <==>
            !(op.RemoveIssue? && op.issueId == id) && db.issues[id].projectId in after.projects)
      && (id in after.issues ==> IssueKept(op, id, db.issues[id], after.issues[id]))
    else
      && (id in after.issues <==> op.NewIssue? && id == db.next.issues)
      && (id in after.issues ==> IssueMade(op, now, after.issues[id]))
  }

  // ----- comments, activity records, export jobs -----

  /** A comment goes when it, its author or its issue goes, and is never edited. */
  predicate CommentAfter(db: Db, op: Op, after: Db, id: int) {
    if id in db.comments then
      && (id in after.comments <==>
            && !(op.RemoveComment? && op.commentId == id) && db.comments[id].userId in after.users
            && db.comments[id].issueId in after.issues)
      && (id in after.comments ==> after.comments[id] == db.comments[id])
    else
      && (id in after.comments <==> op.PostComment? && id == db.next.comments)
      && (id in after.comments ==> after.comments[id] == Comment(op.issueId, op.actor, op.text))
  }

  /** What a request records of its maker, if it records anything. */
  function Recorded(db: Db, op: Op): Option<ActivityLog> {
    match op
    case Register(_, _) => Some(ActivityLog(db.next.users, Registered))
    case Activity(actor, action) => Some(ActivityLog(actor, Account(action)))
    case NewProject(actor, title, _) => Some(ActivityLog(actor, CreatedProject(title)))
    case NewIssue(actor, input) => Some(ActivityLog(actor, CreatedIssue(input.title)))
    case Assign(actor, id, assignee) =>
      if id in db.issues then Some(ActivityLog(actor, AssignedIssue(db.issues[id].title, assignee))) else None
    case Move(actor, id, to) =>
      if id in db.issues then Some(ActivityLog(actor, MovedIssue(db.issues[id].title, to))) else None
    case _ => None
  }

  /** An activity record goes with its user and is never edited. */
  predicate LogAfter(db: Db, op: Op, after: Db, id: int) {
    if id in db.logs then
      && (id in after.logs <==> db.logs[id].userId in after.users)
      && (id in after.logs ==> after.logs[id] == db.logs[id])
    else
      && (id in after.logs <==> Recorded(db, op).Some? && id == db.next.logs)
      && (id in after.logs ==> Recorded(db, op) == Some(after.logs[id]))
  }

  /** An export job goes with its requester or its project; only the workers edit it. */
  predicate JobAfter(db: Db, op: Op, now: real, after: Db, id: int) {
    if id in db.jobs then
      && (id in after.jobs <==> db.jobs[id].requestedById in after.users && db.jobs[id].projectId in after.projects)
      && (id in after.jobs ==> after.jobs[id] == db.jobs[id])
    else
      && (id in after.jobs <==> op.Export? && id == db.next.jobs)
      && (id in after.jobs ==>
            after.jobs[id] == ExportJob(op.projectId, op.actor, Pending, None, None, None, 0, now, None))
  }

  // ----- notifications -----

  /** Whom a request tells: a new assignee, or the issue's assignee, never its maker. */
  function Reader(db: Db, op: Op): Option<int> {
    match op
    case Assign(actor, _, assignee) => if assignee != actor then Some(assignee) else None
    case Move(actor, id, _) => AssigneeBut(db, id, actor)
    case PostComment(actor, id, _) => AssigneeBut(db, id, actor)
    case _ => None
  }

  function AssigneeBut(db: Db, id: int, actor: int): Option<int> {
    if id in db.issues && db.issues[id].assignedTo != Some(actor) && db.issues[id].assignedTo != Some(0)
    then db.issues[id].assignedTo else None
  }

  /** The notification tells this reader, unread, who did what to which issue. */
  predicate Tells(db: Db, op: Op, row: Notification, reader: int)
    requires Announces(op)
  {
    && row.userId == reader && !row.isRead && row.issueId == Some(op.issueId)
    && op.actor in db.users && op.issueId in db.issues
    && var author, title := db.users[op.actor].name, db.issues[op.issueId].title;
       && (op.Assign? ==> row.kind == IssueAssigned && row.message == AssignsYou(author, title))
       && (op.Move? ==> row.kind == IssueStatusChanged && row.message == ChangesStatus(author, title, op.to))
       && (op.PostComment? ==> row.kind == IssueCommented && row.message == CommentsOn(author, title))
  }

  predicate NotificationKept(op: Op, id: int, before: Notification, after: Notification) {
    var seen := (op.Read? && op.notificationId == id) || (op.ReadAll? && op.actor == before.userId);
    after == before.(isRead := seen || before.isRead)
  }

  /** A notification goes with its recipient or its issue, and only reading changes it. */
  predicate NotificationAfter(db: Db, op: Op, after: Db, id: int) {
    if id in db.notifications then
      && (id in after.notifications <==>
            && db.notifications[id].userId in after.users
            && (db.notifications[id].issueId.Some? ==> db.notifications[id].issueId.value in after.issues))
      && (id in after.notifications ==> NotificationKept(op, id, db.notifications[id], after.notifications[id]))
    else
      && (id in after.notifications <==> Reader(db, op).Some? && id == db.next.notifications)
      && (id in after.notifications ==> Announces(op) && Tells(db, op, after.notifications[id], Reader(db, op).value))
  }

  // ----- id sequences -----

  function One(made: bool): int {
    if made then 1 else 0
  }

  /** A sequence moves by one for each row made. */
  predicate SequencesAfter(db: Db, op: Op, after: Db) {
    && after.next.users == db.next.users + One(op.Register?)
    && after.next.projects == db.next.projects + One(op.NewProject?)
    && after.next.issues == db.next.issues + One(op.NewIssue?)
    && after.next.comments == db.next.comments + One(op.PostComment?)
    && after.next.logs == db.next.logs + One(Recorded(db, op).Some?)
    && after.next.notifications == db.next.notifications + One(Reader(db, op).Some?)
    && after.next.jobs == db.next.jobs + One(op.Export?)
  }

  // ----- requests that delete nothing -----

  lemma AccountTables(db: Db, op: Op, now: real)
    requires WritesAccount(op) && Granted(db, op, now)
    ensures var after := Serve(db, op, now).db;
            && after.issues == db.issues && after.comments == db.comments
            && after.notifications == db.notifications && after.jobs == db.jobs
            && (op.NewProject? || op.EditProject? || after.projects == db.projects)
            && db.users.Keys <= after.users.Keys && db.projects.Keys <= after.projects.Keys
  {
  }

  /** The tables an issue write leaves alone. */
  predicate BesideIssues(db: Db, op: Op, after: Db) {
    && after.users == db.users && after.projects == db.projects && after.comments == db.comments
    && after.jobs == db.jobs && db.issues.Keys <= after.issues.Keys
    && (op.NewIssue? || op.EditIssue? ==> after.notifications == db.notifications)
  }

  lemma NewIssueTables(db: Db, actor: int, input: Services.IssueCreate, now: real)
    requires Services.CreateIssue(db, actor, input, now).result.Ok?
    ensures var after, op := Services.CreateIssue(db, actor, input, now).db, NewIssue(actor, input);
            BesideIssues(db, op, after) && SequencesAfter(db, op, after)
  {
  }

  lemma EditIssueTables(db: Db, actor: int, edited: int, update: Services.IssueUpdate)
    requires Services.UpdateIssue(db, actor, edited, update).result.Ok?
    ensures var after, op := Services.UpdateIssue(db, actor, edited, update).db, EditIssue(actor, edited, update);
            BesideIssues(db, op, after) && SequencesAfter(db, op, after)
  {
  }

  lemma AssignTables(db: Db, actor: int, target: int, assignee: int)
    requires Services.AssignIssue(db, actor, target, assignee).result.Ok?
    ensures var after, op := Services.AssignIssue(db, actor, target, assignee).db, Op.Assign(actor, target, assignee);
            BesideIssues(db, op, after) && SequencesAfter(db, op, after)
  {
  }

  lemma MoveTables(db: Db, actor: int, moved: int, to: Status)
    requires Services.ChangeStatus(db, actor, moved, to).result.Ok?
    ensures var after, op := Services.ChangeStatus(db, actor, moved, to).db, Op.Move(actor, moved, to);
            BesideIssues(db, op, after) && SequencesAfter(db, op, after)
  {
  }

  lemma IssueTables(db: Db, op: Op, now: real)
    requires WritesIssue(op) && Granted(db, op, now)
    ensures BesideIssues(db, op, Serve(db, op, now).db) && SequencesAfter(db, op, Serve(db, op, now).db)
  {
    match op
    case NewIssue(actor, input) => NewIssueTables(db, actor, input, now);
    case EditIssue(actor, edited, update) => EditIssueTables(db, actor, edited, update);
    case Assign(actor, target, assignee) => AssignTables(db, actor, target, assignee);
    case Move(actor, moved, to) => MoveTables(db, actor, moved, to);
  }

  lemma OtherTables(db: Db, op: Op, now: real)
    requires !WritesAccount(op) && !WritesIssue(op) && !Deletes(op) && Granted(db, op, now)
    ensures var after := Serve(db, op, now).db;
            && after.users == db.users && after.projects == db.projects && after.issues == db.issues
            && after.logs == db.logs
            && (!op.PostComment? ==> after.comments == db.comments)
            && (!op.Export? ==> after.jobs == db.jobs)
            && (!op.PostComment? && !op.Read? && !op.ReadAll? ==> after.notifications == db.notifications)
  {
  }

  lemma IssueParent(db: Db, id: int)
    requires Sound(db) && id in db.issues
    ensures db.issues[id].projectId in db.projects
  {
    assert Refers(db, Ref(Issues, id), IssueProject, Ref(Projects, db.issues[id].projectId));
  }

  lemma CommentParents(db: Db, id: int)
    requires Sound(db) && id in db.comments
    ensures db.comments[id].userId in db.users && db.comments[id].issueId in db.issues
  {
    assert Refers(db, Ref(Comments, id), CommentUser, Ref(Users, db.comments[id].userId));
    assert Refers(db, Ref(Comments, id), CommentIssue, Ref(Issues, db.comments[id].issueId));
  }

  lemma LogParent(db: Db, id: int)
    requires Sound(db) && id in db.logs
    ensures db.logs[id].userId in db.users
  {
    assert Refers(db, Ref(ActivityLogs, id), LogUser, Ref(Users, db.logs[id].userId));
  }

  lemma JobParents(db: Db, id: int)
    requires Sound(db) && id in db.jobs
    ensures db.jobs[id].requestedById in db.users && db.jobs[id].projectId in db.projects
  {
    assert Refers(db, Ref(ExportJobs, id), JobRequester, Ref(Users, db.jobs[id].requestedById));
    assert Refers(db, Ref(ExportJobs, id), JobProject, Ref(Projects, db.jobs[id].projectId));
  }

  lemma NotificationParents(db: Db, id: int)
    requires Sound(db) && id in db.notifications
    ensures db.notifications[id].userId in db.users
    ensures db.notifications[id].issueId.Some? ==> db.notifications[id].issueId.value in db.issues
  {
    var row := db.notifications[id];
    assert Refers(db, Ref(Notifications, id), NotificationUser, Ref(Users, row.userId));
    if row.issueId.Some? {
      assert Refers(db, Ref(Notifications, id), NotificationIssue, Ref(Issues, row.issueId.value));
    }
  }

  /** Nothing a row belongs to goes. */
  lemma ParentsStay(db: Db, op: Op, now: real)
    requires !Deletes(op) && Granted(db, op, now)
    ensures var after := Serve(db, op, now).db;
            && db.users.Keys <= after.users.Keys && db.projects.Keys <= after.projects.Keys
            && db.issues.Keys <= after.issues.Keys
  {
    if WritesAccount(op) {
      AccountTables(db, op, now);
    } else if WritesIssue(op) {
      IssueTables(db, op, now);
    } else {
      OtherTables(db, op, now);
    }
  }

  lemma UsersWritten(db: Db, op: Op, now: real, id: int)
    requires Sound(db) && Granted(db, op, now) && !Deletes(op)
    ensures UserAfter(db, op, Serve(db, op, now).db, id)
  {
    if WritesIssue(op) {
      IssueTables(db, op, now);
    } else if !WritesAccount(op) {
      OtherTables(db, op, now);
    }
  }

  lemma NewProjectRow(db: Db, actor: int, title: string, description: Option<string>, id: int)
    requires Sound(db) && Services.CreateProject(db, actor, title, description).result.Ok?
    ensures ProjectAfter(db, NewProject(actor, title, description), Services.CreateProject(db, actor, title, description).db, id)
  {
  }

  lemma EditedProjectRow(db: Db, actor: int, edited: int, update: Services.ProjectUpdate, id: int)
    requires Services.UpdateProject(db, actor, edited, update).result.Ok?
    ensures ProjectAfter(db, EditProject(actor, edited, update), Services.UpdateProject(db, actor, edited, update).db, id)
  {
  }

  lemma ProjectsWritten(db: Db, op: Op, now: real, id: int)
    requires Sound(db) && Granted(db, op, now) && !Deletes(op)
    ensures ProjectAfter(db, op, Serve(db, op, now).db, id)
  {
    if op.NewProject? {
      NewProjectRow(db, op.actor, op.title, op.description, id);
    } else if op.EditProject? {
      EditedProjectRow(db, op.actor, op.projectId, op.project, id);
    } else if WritesIssue(op) {
      IssueTables(db, op, now);
    } else if WritesAccount(op) {
      AccountTables(db, op, now);
    } else {
      OtherTables(db, op, now);
    }
  }

  lemma IssuesWritten(db: Db, op: Op, now: real, id: int)
    requires Sound(db) && Granted(db, op, now) && !Deletes(op)
    ensures IssueAfter(db, op, now, Serve(db, op, now).db, id)
  {
    if id in db.issues {
      IssueParent(db, id);
    }
    ParentsStay(db, op, now);
    if WritesAccount(op) {
      AccountTables(db, op, now);
    } else if WritesIssue(op) {
      IssueRowsWritten(db, op, now, id);
    } else {
      OtherTables(db, op, now);
    }
  }

  /** What an issue table keeps and gains in a request that deletes nothing. */
  predicate IssueRow(db: Db, op: Op, now: real, after: Db, id: int) {
    && (id in db.issues ==> id in after.issues && IssueKept(op, id, db.issues[id], after.issues[id]))
    && (id !in db.issues ==> (id in after.issues <==> op.NewIssue? && id == db.next.issues))
    && (id !in db.issues && id in after.issues ==> IssueMade(op, now, after.issues[id]))
  }

  lemma NewIssueRow(db: Db, actor: int, input: Services.IssueCreate, now: real, id: int)
    requires Sound(db) && Services.CreateIssue(db, actor, input, now).result.Ok?
    ensures IssueRow(db, NewIssue(actor, input), now, Services.CreateIssue(db, actor, input, now).db, id)
  {
  }

  lemma EditedIssueRow(db: Db, actor: int, edited: int, update: Services.IssueUpdate, now: real, id: int)
    requires Services.UpdateIssue(db, actor, edited, update).result.Ok?
    ensures IssueRow(db, EditIssue(actor, edited, update), now, Services.UpdateIssue(db, actor, edited, update).db, id)
  {
  }

  lemma AssignedIssueRow(db: Db, actor: int, target: int, assignee: int, now: real, id: int)
    requires Services.AssignIssue(db, actor, target, assignee).result.Ok?
    ensures IssueRow(db, Op.Assign(actor, target, assignee), now, Services.AssignIssue(db, actor, target, assignee).db, id)
  {
  }

  lemma MovedIssueRow(db: Db, actor: int, moved: int, to: Status, now: real, id: int)
    requires Services.ChangeStatus(db, actor, moved, to).result.Ok?
    ensures IssueRow(db, Op.Move(actor, moved, to), now, Services.ChangeStatus(db, actor, moved, to).db, id)
  {
  }

  lemma IssueRowsWritten(db: Db, op: Op, now: real, id: int)
    requires Sound(db) && Granted(db, op, now) && WritesIssue(op)
    ensures IssueRow(db, op, now, Serve(db, op, now).db, id)
  {
    match op
    case NewIssue(actor, input) => NewIssueRow(db, actor, input, now, id);
    case EditIssue(actor, edited, update) => EditedIssueRow(db, actor, edited, update, now, id);
    case Assign(actor, target, assignee) => AssignedIssueRow(db, actor, target, assignee, now, id);
    case Move(actor, moved, to) => MovedIssueRow(db, actor, moved, to, now, id);
  }

  lemma CommentsWritten(db: Db, op: Op, now: real, id: int)
    requires Sound(db) && Granted(db, op, now) && !Deletes(op)
    ensures CommentAfter(db, op, Serve(db, op, now).db, id)
  {
    if id in db.comments {
      CommentParents(db, id);
    }
    ParentsStay(db, op, now);
    if WritesAccount(op) {
      AccountTables(db, op, now);
    } else if WritesIssue(op) {
      IssueTables(db, op, now);
    } else if !op.PostComment? {
      OtherTables(db, op, now);
    }
  }

  /** What the activity table keeps and gains in a request that deletes nothing. */
  predicate LogRow(db: Db, op: Op, after: Db, id: int) {
    && (id in db.logs ==> id in after.logs && after.logs[id] == db.logs[id])
    && (id !in db.logs ==> (id in after.logs <==> Recorded(db, op).Some? && id == db.next.logs))
    && (id !in db.logs && id in after.logs ==> Recorded(db, op) == Some(after.logs[id]))
  }

  lemma AccountLogs(db: Db, op: Op, now: real, id: int)
    requires Sound(db) && Granted(db, op, now) && WritesAccount(op)
    ensures LogRow(db, op, Serve(db, op, now).db, id)
  {
  }

  lemma NewIssueLog(db: Db, actor: int, input: Services.IssueCreate, now: real, id: int)
    requires Sound(db) && Services.CreateIssue(db, actor, input, now).result.Ok?
    ensures LogRow(db, NewIssue(actor, input), Services.CreateIssue(db, actor, input, now).db, id)
  {
  }

  lemma EditLogsNothing(db: Db, actor: int, edited: int, update: Services.IssueUpdate)
    ensures Services.UpdateIssue(db, actor, edited, update).db.logs == db.logs
  {
  }

  lemma AssignLog(db: Db, actor: int, target: int, assignee: int, id: int)
    requires Sound(db) && Services.AssignIssue(db, actor, target, assignee).result.Ok?
    ensures LogRow(db, Op.Assign(actor, target, assignee), Services.AssignIssue(db, actor, target, assignee).db, id)
  {
  }

  lemma MoveLog(db: Db, actor: int, moved: int, to: Status, id: int)
    requires Sound(db) && Services.ChangeStatus(db, actor, moved, to).result.Ok?
    ensures LogRow(db, Op.Move(actor, moved, to), Services.ChangeStatus(db, actor, moved, to).db, id)
  {
  }

  lemma IssueLogs(db: Db, op: Op, now: real, id: int)
    requires Sound(db) && Granted(db, op, now) && WritesIssue(op)
    ensures LogRow(db, op, Serve(db, op, now).db, id)
  {
    match op
    case NewIssue(actor, input) => NewIssueLog(db, actor, input, now, id);
    case EditIssue(actor, edited, update) => EditLogsNothing(db, actor, edited, update);
    case Assign(actor, target, assignee) => AssignLog(db, actor, target, assignee, id);
    case Move(actor, moved, to) => MoveLog(db, actor, moved, to, id);
  }

  lemma LogsWritten(db: Db, op: Op, now: real, id: int)
    requires Sound(db) && Granted(db, op, now) && !Deletes(op)
    ensures LogAfter(db, op, Serve(db, op, now).db, id)
  {
    if id in db.logs {
      LogParent(db, id);
    }
    ParentsStay(db, op, now);
    if WritesAccount(op) {
      AccountLogs(db, op, now, id);
    } else if WritesIssue(op) {
      IssueLogs(db, op, now, id);
    } else {
      OtherTables(db, op, now);
    }
  }

  lemma JobsWritten(db: Db, op: Op, now: real, id: int)
    requires Sound(db) && Granted(db, op, now) && !Deletes(op)
    ensures JobAfter(db, op, now, Serve(db, op, now).db, id)
  {
    if id in db.jobs {
      JobParents(db, id);
    }
    ParentsStay(db, op, now);
    if WritesAccount(op) {
      AccountTables(db, op, now);
    } else if WritesIssue(op) {
      IssueTables(db, op, now);
    } else if !op.Export? {
      OtherTables(db, op, now);
    }
  }

  /** What the notification table keeps and gains in a request that announces something. */
  predicate NotificationRow(db: Db, op: Op, after: Db, id: int)
    requires Announces(op)
  {
    && (id in db.notifications ==> id in after.notifications && after.notifications[id] == db.notifications[id])
    && (id !in db.notifications ==> (id in after.notifications <==> Reader(db, op).Some? && id == db.next.notifications))
    && (id !in db.notifications && id in after.notifications ==>
          Tells(db, op, after.notifications[id], Reader(db, op).value))
  }

  lemma AssignNotifies(db: Db, actor: int, target: int, assignee: int, id: int)
    requires Sound(db) && Services.AssignIssue(db, actor, target, assignee).result.Ok?
    ensures NotificationRow(db, Op.Assign(actor, target, assignee), Services.AssignIssue(db, actor, target, assignee).db, id)
  {
  }

  lemma MoveNotifies(db: Db, actor: int, moved: int, to: Status, id: int)
    requires Sound(db) && Services.ChangeStatus(db, actor, moved, to).result.Ok?
    ensures NotificationRow(db, Op.Move(actor, moved, to), Services.ChangeStatus(db, actor, moved, to).db, id)
  {
  }

  lemma CommentNotifies(db: Db, actor: int, target: int, text: string, id: int)
    requires Sound(db) && Services.PostComment(db, actor, target, text).result.Ok?
    ensures NotificationRow(db, Op.PostComment(actor, target, text), Services.PostComment(db, actor, target, text).db, id)
  {
  }

  lemma TellingWritten(db: Db, op: Op, now: real, id: int)
    requires Sound(db) && Granted(db, op, now) && Announces(op)
    ensures NotificationRow(db, op, Serve(db, op, now).db, id)
  {
    match op
    case Assign(actor, target, assignee) => AssignNotifies(db, actor, target, assignee, id);
    case Move(actor, moved, to) => MoveNotifies(db, actor, moved, to, id);
    case PostComment(actor, target, text) => CommentNotifies(db, actor, target, text, id);
  }

  lemma NotificationsWritten(db: Db, op: Op, now: real, id: int)
    requires Sound(db) && Granted(db, op, now) && !Deletes(op)
    ensures NotificationAfter(db, op, Serve(db, op, now).db, id)
  {
    if id in db.notifications {
      NotificationParents(db, id);
    }
    ParentsStay(db, op, now);
    if Announces(op) {
      TellingWritten(db, op, now, id);
    } else if WritesAccount(op) {
      AccountTables(db, op, now);
    } else if WritesIssue(op) {
      IssueTables(db, op, now);
    } else if !op.Read? && !op.ReadAll? {
      OtherTables(db, op, now);
    }
  }

  // ----- requests that delete -----

  /** A row is there after a delete when it was there before and the delete does not take it. */
  lemma Survives(db: Db, op: Op, now: real, r: Ref)
    requires Deletes(op) && Granted(db, op, now)
    ensures Has(Serve(db, op, now).db, r) <==> Has(db, r) && r !in Cascade.Closure(db, {Doomed(op)})
  {
    DeletesShape(db, op, now);
    Cascade.WithoutHas(db, Cascade.Closure(db, {Doomed(op)}), r);
  }

  /** A user is there after a delete unless it was the user deleted. */
  lemma UserSurvives(db: Db, op: Op, now: real, id: int)
    requires Deletes(op) && Granted(db, op, now)
    ensures id in Serve(db, op, now).db.users <==> id in db.users && !(op.RemoveUser? && op.userId == id)
  {
    Survives(db, op, now, Ref(Users, id));
    Cascade.UserTaken(db, Doomed(op), id);
  }

  /** Rows that survive a delete are as they were, but for issues that lose a deleted assignee. */
  ghost predicate SurvivorsKept(db: Db, op: Op, after: Db) {
    && (forall i :: i in after.users ==> i in db.users && after.users[i] == db.users[i])
    && (forall i :: i in after.projects ==> i in db.projects && after.projects[i] == db.projects[i])
    && (forall i :: i in after.issues ==> i in db.issues && IssueKept(op, i, db.issues[i], after.issues[i]))
    && (forall i :: i in after.comments ==> i in db.comments && after.comments[i] == db.comments[i])
    && (forall i :: i in after.logs ==> i in db.logs && after.logs[i] == db.logs[i])
    && (forall i :: i in after.notifications ==> i in db.notifications && after.notifications[i] == db.notifications[i])
    && (forall i :: i in after.jobs ==> i in db.jobs && after.jobs[i] == db.jobs[i])
  }

  lemma DetachedIssueKept(op: Op, id: int, before: Issue)
    requires Deletes(op)
    ensures IssueKept(op, id, before, if op.RemoveUser? && before.assignedTo == Some(op.userId)
                                      then before.(assignedTo := None) else before)
  {
  }

  lemma DeleteKeepsIssue(db: Db, op: Op, id: int)
    requires Deletes(op) && id in Cascade.DeleteRow(db, Doomed(op)).issues
    ensures id in db.issues && IssueKept(op, id, db.issues[id], Cascade.DeleteRow(db, Doomed(op)).issues[id])
  {
    Cascade.DeleteChangesOnlyAssignees(db, Doomed(op));
    assert id in db.issues;
    DetachedIssueKept(op, id, db.issues[id]);
  }

  lemma DeleteKeepsIssues(db: Db, op: Op)
    requires Deletes(op)
    ensures var after := Cascade.DeleteRow(db, Doomed(op));
            forall i :: i in after.issues ==> i in db.issues && IssueKept(op, i, db.issues[i], after.issues[i])
  {
    var after := Cascade.DeleteRow(db, Doomed(op));
    forall i | i in after.issues ensures i in db.issues && IssueKept(op, i, db.issues[i], after.issues[i]) {
      DeleteKeepsIssue(db, op, i);
    }
  }

  lemma DeleteKeepsRows(db: Db, root: Ref)
    ensures var after := Cascade.DeleteRow(db, root);
            && (forall i :: i in after.users ==> i in db.users && after.users[i] == db.users[i])
            && (forall i :: i in after.projects ==> i in db.projects && after.projects[i] == db.projects[i])
            && (forall i :: i in after.comments ==> i in db.comments && after.comments[i] == db.comments[i])
            && (forall i :: i in after.logs ==> i in db.logs && after.logs[i] == db.logs[i])
            && (forall i :: i in after.notifications ==> i in db.notifications && after.notifications[i] == db.notifications[i])
            && (forall i :: i in after.jobs ==> i in db.jobs && after.jobs[i] == db.jobs[i])
  {
  }

  lemma DeleteKeepsSurvivors(db: Db, op: Op, now: real)
    requires Deletes(op) && Granted(db, op, now)
    ensures SurvivorsKept(db, op, Serve(db, op, now).db)
  {
    DeletesShape(db, op, now);
    DeleteKeepsRows(db, Doomed(op));
    DeleteKeepsIssues(db, op);
  }

  lemma UsersDeleted(db: Db, op: Op, now: real, id: int)
    requires Granted(db, op, now) && Deletes(op)
    ensures UserAfter(db, op, Serve(db, op, now).db, id)
  {
    UserSurvives(db, op, now, id);
    DeleteKeepsSurvivors(db, op, now);
  }

  lemma ProjectsDeleted(db: Db, op: Op, now: real, id: int)
    requires Granted(db, op, now) && Deletes(op)
    ensures ProjectAfter(db, op, Serve(db, op, now).db, id)
  {
    Survives(db, op, now, Ref(Projects, id));
    if id in db.projects {
      Cascade.ProjectTaken(db, Doomed(op), id);
    }
    DeleteKeepsSurvivors(db, op, now);
  }

  lemma IssuesDeleted(db: Db, op: Op, now: real, id: int)
    requires Sound(db) && Granted(db, op, now) && Deletes(op)
    ensures IssueAfter(db, op, now, Serve(db, op, now).db, id)
  {
    Survives(db, op, now, Ref(Issues, id));
    if id in db.issues {
      IssueParent(db, id);
      Cascade.IssueTaken(db, Doomed(op), id);
      Survives(db, op, now, Ref(Projects, db.issues[id].projectId));
    }
    DeleteKeepsSurvivors(db, op, now);
  }

  lemma CommentsDeleted(db: Db, op: Op, now: real, id: int)
    requires Sound(db) && Granted(db, op, now) && Deletes(op)
    ensures CommentAfter(db, op, Serve(db, op, now).db, id)
  {
    Survives(db, op, now, Ref(Comments, id));
    if id in db.comments {
      CommentParents(db, id);
      Cascade.CommentTaken(db, Doomed(op), id);
      UserSurvives(db, op, now, db.comments[id].userId);
      Survives(db, op, now, Ref(Issues, db.comments[id].issueId));
    }
    DeleteKeepsSurvivors(db, op, now);
  }

  lemma LogsDeleted(db: Db, op: Op, now: real, id: int)
    requires Sound(db) && Granted(db, op, now) && Deletes(op)
    ensures LogAfter(db, op, Serve(db, op, now).db, id)
  {
    Survives(db, op, now, Ref(ActivityLogs, id));
    if id in db.logs {
      LogParent(db, id);
      Cascade.LogTaken(db, Doomed(op), id);
      UserSurvives(db, op, now, db.logs[id].userId);
    }
    DeleteKeepsSurvivors(db, op, now);
  }

  lemma JobsDeleted(db: Db, op: Op, now: real, id: int)
    requires Sound(db) && Granted(db, op, now) && Deletes(op)
    ensures JobAfter(db, op, now, Serve(db, op, now).db, id)
  {
    Survives(db, op, now, Ref(ExportJobs, id));
    if id in db.jobs {
      JobParents(db, id);
      Cascade.JobTaken(db, Doomed(op), id);
      UserSurvives(db, op, now, db.jobs[id].requestedById);
      Survives(db, op, now, Ref(Projects, db.jobs[id].projectId));
    }
    DeleteKeepsSurvivors(db, op, now);
  }

  lemma NotificationsDeleted(db: Db, op: Op, now: real, id: int)
    requires Sound(db) && Granted(db, op, now) && Deletes(op)
    ensures NotificationAfter(db, op, Serve(db, op, now).db, id)
  {
    Survives(db, op, now, Ref(Notifications, id));
    if id in db.notifications {
      NotificationParents(db, id);
      Cascade.NotificationTaken(db, Doomed(op), id);
      UserSurvives(db, op, now, db.notifications[id].userId);
      if db.notifications[id].issueId.Some? {
        Survives(db, op, now, Ref(Issues, db.notifications[id].issueId.value));
      }
    }
    DeleteKeepsSurvivors(db, op, now);
  }

  // ----- every granted request, table by table -----

  /** Only a registration makes a user, only an administrator's delete ends one, and only they edit themselves. */
  lemma UsersExactly(db: Db, op: Op, now: real, id: int)
    requires Sound(db) && Granted(db, op, now)
    ensures UserAfter(db, op, Serve(db, op, now).db, id)
  {
    if Deletes(op) {
      UsersDeleted(db, op, now, id);
    } else {
      UsersWritten(db, op, now, id);
    }
  }

  lemma ProjectsExactly(db: Db, op: Op, now: real, id: int)
    requires Sound(db) && Granted(db, op, now)
    ensures ProjectAfter(db, op, Serve(db, op, now).db, id)
  {
    if Deletes(op) {
      ProjectsDeleted(db, op, now, id);
    } else {
      ProjectsWritten(db, op, now, id);
    }
  }

  lemma IssuesExactly(db: Db, op: Op, now: real, id: int)
    requires Sound(db) && Granted(db, op, now)
    ensures IssueAfter(db, op, now, Serve(db, op, now).db, id)
  {
    if Deletes(op) {
      IssuesDeleted(db, op, now, id);
    } else {
      IssuesWritten(db, op, now, id);
    }
  }

  lemma CommentsExactly(db: Db, op: Op, now: real, id: int)
    requires Sound(db) && Granted(db, op, now)
    ensures CommentAfter(db, op, Serve(db, op, now).db, id)
  {
    if Deletes(op) {
      CommentsDeleted(db, op, now, id);
    } else {
      CommentsWritten(db, op, now, id);
    }
  }

  lemma LogsExactly(db: Db, op: Op, now: real, id: int)
    requires Sound(db) && Granted(db, op, now)
    ensures LogAfter(db, op, Serve(db, op, now).db, id)
  {
    if Deletes(op) {
      LogsDeleted(db, op, now, id);
    } else {
      LogsWritten(db, op, now, id);
    }
  }

  lemma JobsExactly(db: Db, op: Op, now: real, id: int)
    requires Sound(db) && Granted(db, op, now)
    ensures JobAfter(db, op, now, Serve(db, op, now).db, id)
  {
    if Deletes(op) {
      JobsDeleted(db, op, now, id);
    } else {
      JobsWritten(db, op, now, id);
    }
  }

  lemma NotificationsExactly(db: Db, op: Op, now: real, id: int)
    requires Sound(db) && Granted(db, op, now)
    ensures NotificationAfter(db, op, Serve(db, op, now).db, id)
  {
    if Deletes(op) {
      NotificationsDeleted(db, op, now, id);
    } else {
      NotificationsWritten(db, op, now, id);
    }
  }

  // ----- answers -----

  /** The request comes from someone who is not a user of the tracker. */
  predicate SignedOut(db: Db, op: Op) {
    Actor(op).Some? && Actor(op).value !in db.users
  }

  /** The row a request names. */
  function Named(op: Op): Option<Ref> {
    match op
    case RemoveUser(_, id) => Some(Ref(Users, id))
    case EditProject(_, id, _) => Some(Ref(Projects, id))
    case RemoveProject(_, id) => Some(Ref(Projects, id))
    case NewIssue(_, input) => Some(Ref(Projects, input.projectId))
    case EditIssue(_, id, _) => Some(Ref(Issues, id))
    case RemoveIssue(_, id) => Some(Ref(Issues, id))
    case Assign(_, id, _) => Some(Ref(Issues, id))
    case Move(_, id, _) => Some(Ref(Issues, id))
    case PostComment(_, id, _) => Some(Ref(Issues, id))
    case RemoveComment(_, id) => Some(Ref(Comments, id))
    case Read(_, id) => Some(Ref(Notifications, id))
    case Export(_, id) => Some(Ref(Projects, id))
    case _ => None
  }

  /** The maker of the request may not do this to the row it names. */
  predicate Forbidden(db: Db, op: Op)
    requires !SignedOut(db, op)
  {
    match op
    case RemoveUser(actor, _) => db.users[actor].role != Admin
    case EditProject(actor, id, _) => id in db.projects && !HasRight(db, id, actor)
    case RemoveProject(actor, id) => id in db.projects && !HasRight(db, id, actor)
    case EditIssue(actor, id, _) => id in db.issues && !HasRight(db, db.issues[id].projectId, actor)
    case RemoveIssue(actor, id) => id in db.issues && !HasRight(db, db.issues[id].projectId, actor)
    case Assign(actor, id, _) => id in db.issues && !HasRight(db, db.issues[id].projectId, actor)
    case Move(actor, id, _) => id in db.issues && !HasRight(db, db.issues[id].projectId, actor)
    case RemoveComment(actor, id) =>
      id in db.comments && db.comments[id].userId != actor && db.users[actor].role != Admin
    case Read(actor, id) => id in db.notifications && db.notifications[id].userId != actor
    case _ => false
  }

  /** The row it names, or the user it would assign, does not exist. */
  predicate Missing(db: Db, op: Op) {
    (Named(op).Some? && !Has(db, Named(op).value)) || (op.Assign? && op.assignee !in db.users)
  }

  /** What the request would write breaks a NOT NULL, UNIQUE or foreign-key rule. */
  predicate Unfit(db: Db, op: Op) {
    match op
    case EditProfile(actor, profile) =>
      || profile.name == Some(None) || profile.email == Some(None)
      || (profile.email.Some? && profile.email.value.Some? &&
          exists u :: u in db.users && u != actor && db.users[u].email == profile.email.value.value)
    case EditProject(_, _, project) => project.title == Some(None)
    case NewIssue(_, input) => input.assignedTo.Some? && input.assignedTo.value !in db.users
    case EditIssue(_, _, issue) =>
      || issue.title == Some(None) || issue.priority == Some(None)
      || (issue.assignedTo.Some? && issue.assignedTo.value.Some? && issue.assignedTo.value.value !in db.users)
    case _ => false
  }

  /** The status asked for is neither the issue's own nor the next one up. */
  predicate Skips(db: Db, op: Op) {
    op.Move? && op.issueId in db.issues &&
    (op.to, db.issues[op.issueId].status) in {(Todo, InProgress), (Todo, Done), (InProgress, Done), (Done, Todo)}
  }

  predicate AddressTaken(db: Db, op: Op) {
    op.Register? && exists u :: u in db.users && db.users[u].email == op.email
  }

  /** What a granted request answers: the id of the row it makes or names, its maker's, or how many it marked. */
  function Answer(db: Db, op: Op): int {
    match op
    case Register(_, _) => db.next.users
    case NewProject(_, _, _) => db.next.projects
    case NewIssue(_, _) => db.next.issues
    case PostComment(_, _, _) => db.next.comments
    case Export(_, _) => db.next.jobs
    case ReadAll(actor) =>
      |set n | n in db.notifications && db.notifications[n].userId == actor && !db.notifications[n].isRead|
    case EditProfile(actor, _) => actor
    case Activity(actor, _) => actor
    case ViewDashboard(actor) => actor
    case _ => if Named(op).Some? then Named(op).value.id else 0
  }

  /** Which answer the columns call for: the first of these that applies. */
  function AnswerByColumns(db: Db, op: Op): Result<int> {
    if SignedOut(db, op) then Err(Unauthenticated)
    else if Forbidden(db, op) then Err(PermissionDenied)
    else if Missing(db, op) then Err(NotFound)
    else if Skips(db, op) then Err(BadRequest)
    else if AddressTaken(db, op) then Err(Duplicate)
    else if Unfit(db, op) then Err(IntegrityError)
    else Ok(Answer(db, op))
  }

  lemma AccountAnswers(db: Db, op: Op, now: real)
    requires WritesAccount(op)
    ensures Serve(db, op, now).result == AnswerByColumns(db, op)
  {
  }

  lemma IssueAnswers(db: Db, op: Op, now: real)
    requires WritesIssue(op)
    ensures Serve(db, op, now).result == AnswerByColumns(db, op)
  {
  }

  lemma DeleteAnswers(db: Db, op: Op, now: real)
    requires Deletes(op)
    ensures Serve(db, op, now).result == AnswerByColumns(db, op)
  {
  }

  lemma OtherAnswers(db: Db, op: Op, now: real)
    requires !WritesAccount(op) && !WritesIssue(op) && !Deletes(op)
    ensures Serve(db, op, now).result == AnswerByColumns(db, op)
  {
    if op.ReadAll? {
      assert Services.UnreadOf(db, op.actor) ==
             set n | n in db.notifications && db.notifications[n].userId == op.actor && !db.notifications[n].isRead;
    }
  }

  /** Every request is answered as the columns call for: whoever makes it, whatever it names, whatever it would write. */
  lemma AnswersExactly(db: Db, op: Op, now: real)
    ensures Serve(db, op, now).result == AnswerByColumns(db, op)
  {
    if WritesAccount(op) {
      AccountAnswers(db, op, now);
    } else if WritesIssue(op) {
      IssueAnswers(db, op, now);
    } else if Deletes(op) {
      DeleteAnswers(db, op, now);
    } else {
      OtherAnswers(db, op, now);
    }
  }

  /** A refusal leaves the database as it was, but for the id lost with an issue the commit refused. */
  predicate Unchanged(db: Db, op: Op, outcome: Services.Outcome<int>) {
    outcome.db == if op.NewIssue? && outcome.result == Err(IntegrityError)
                  then db.(next := db.next.(issues := db.next.issues + 1)) else db
  }

  lemma RefusedAccountOp(db: Db, op: Op, now: real)
    requires WritesAccount(op) && !Granted(db, op, now)
    ensures Unchanged(db, op, Serve(db, op, now))
  {
  }

  lemma RefusedIssueWrite(db: Db, op: Op, now: real)
    requires WritesIssue(op) && !Granted(db, op, now)
    ensures Unchanged(db, op, Serve(db, op, now))
  {
  }

  lemma RefusedOtherOp(db: Db, op: Op, now: real)
    requires !Deletes(op) && !WritesAccount(op) && !WritesIssue(op) && !Granted(db, op, now)
    ensures Unchanged(db, op, Serve(db, op, now))
  {
  }

  lemma RefusedExactly(db: Db, op: Op, now: real)
    requires !Granted(db, op, now)
    ensures Unchanged(db, op, Serve(db, op, now))
  {
    if Deletes(op) {
      DeletesShape(db, op, now);
    } else if WritesAccount(op) {
      RefusedAccountOp(db, op, now);
    } else if WritesIssue(op) {
      RefusedIssueWrite(db, op, now);
    } else {
      RefusedOtherOp(db, op, now);
    }
  }

  // ----- sequences and the cache -----

  lemma DeleteSequences(db: Db, op: Op, now: real)
    requires Granted(db, op, now) && Deletes(op)
    ensures SequencesAfter(db, op, Serve(db, op, now).db)
  {
    DeletesShape(db, op, now);
  }

  lemma RegisterSequences(db: Db, name: string, email: string)
    requires Services.Register(db, name, email).result.Ok?
    ensures SequencesAfter(db, Register(name, email), Services.Register(db, name, email).db)
  {
  }

  lemma NewProjectSequences(db: Db, actor: int, title: string, description: Option<string>)
    requires Services.CreateProject(db, actor, title, description).result.Ok?
    ensures SequencesAfter(db, NewProject(actor, title, description), Services.CreateProject(db, actor, title, description).db)
  {
  }

  lemma AccountSequences(db: Db, op: Op, now: real)
    requires Granted(db, op, now) && WritesAccount(op)
    ensures SequencesAfter(db, op, Serve(db, op, now).db)
  {
    if op.Register? {
      RegisterSequences(db, op.name, op.email);
    } else if op.NewProject? {
      NewProjectSequences(db, op.actor, op.title, op.description);
    }
  }

  lemma OtherSequences(db: Db, op: Op, now: real)
    requires Granted(db, op, now) && !Deletes(op) && !WritesAccount(op) && !WritesIssue(op)
    ensures SequencesAfter(db, op, Serve(db, op, now).db)
  {
  }

  /** A granted request moves each sequence by the rows it makes. */
  lemma SequencesExactly(db: Db, op: Op, now: real)
    requires Granted(db, op, now)
    ensures SequencesAfter(db, op, Serve(db, op, now).db)
  {
    if Deletes(op) {
      DeleteSequences(db, op, now);
    } else if WritesAccount(op) {
      AccountSequences(db, op, now);
    } else if WritesIssue(op) {
      IssueTables(db, op, now);
    } else {
      OtherSequences(db, op, now);
    }
  }

  /** The owner of the project whose issues a request counts anew; a new project is its maker's. */
  function Recounted(db: Db, op: Op): Option<int> {
    match op
    case NewProject(actor, _, _) => Some(actor)
    case RemoveProject(_, id) => OwnerColumn(db, id)
    case NewIssue(_, input) => OwnerColumn(db, input.projectId)
    case EditIssue(_, id, _) => if id in db.issues then OwnerColumn(db, db.issues[id].projectId) else None
    case RemoveIssue(_, id) => if id in db.issues then OwnerColumn(db, db.issues[id].projectId) else None
    case Move(_, id, _) => if id in db.issues then OwnerColumn(db, db.issues[id].projectId) else None
    case _ => None
  }

  function OwnerColumn(db: Db, projectId: int): Option<int> {
    if projectId in db.projects then Some(db.projects[projectId].ownerId) else None
  }

  lemma DropsRecounted(db: Db, op: Op, now: real)
    requires Sound(db) && Granted(db, op, now)
    ensures Invalidates(db, op, Serve(db, op, now).db) == Recounted(db, op)
  {
    if WritesIssue(op) {
      IssueTables(db, op, now);
      if op.NewIssue? {
        IssuesExactly(db, op, now, db.next.issues);
      } else {
        IssuesExactly(db, op, now, op.issueId);
      }
    } else if op.RemoveIssue? {
      DeleteAnswers(db, op, now);
      ProjectsExactly(db, op, now, db.issues[op.issueId].projectId);
    }
  }

  /** A granted write leaves the clock, and of the cache drops only the summary it may have changed. */
  lemma CacheExactly(app: App, op: Op)
    requires Sound(app.db) && Granted(app.db, op, app.now)
    requires !op.ViewDashboard? && !op.Wait? && !op.Redis?
    ensures var after, owner := Step(app, op), Recounted(app.db, op);
            && after.now == app.now && after.redisUp == app.redisUp
            && after.cache == if app.redisUp && owner.Some? then app.cache - {Keys.DashboardKey(owner.value)} else app.cache
  {
    DropsRecounted(app.db, op, app.now);
  }
}
