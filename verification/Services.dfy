/**
 What each service operation does to the database and what it answers.
 A commit is refused when a row breaks a NOT NULL, UNIQUE or foreign-key rule;
 the id drawn for a refused insert is lost, because sequences do not roll back.
 */
module Services {
  import opened Options
  import opened Store
  import Cascade

  datatype Outcome<+T> = Outcome(db: Db, result: Result<T>)

  // ----- rows -----

  function AddUser(db: Db, row: User): Db {
    db.(users := db.users[db.next.users := row], next := db.next.(users := db.next.users + 1))
  }

  function AddProject(db: Db, row: Project): Db {
    db.(projects := db.projects[db.next.projects := row], next := db.next.(projects := db.next.projects + 1))
  }

  function AddIssue(db: Db, row: Issue): Db {
    db.(issues := db.issues[db.next.issues := row], next := db.next.(issues := db.next.issues + 1))
  }

  function AddComment(db: Db, row: Comment): Db {
    db.(comments := db.comments[db.next.comments := row], next := db.next.(comments := db.next.comments + 1))
  }

  function AddLog(db: Db, row: ActivityLog): Db {
    db.(logs := db.logs[db.next.logs := row], next := db.next.(logs := db.next.logs + 1))
  }

  function AddNotification(db: Db, row: Notification): Db {
    db.(notifications := db.notifications[db.next.notifications := row],
        next := db.next.(notifications := db.next.notifications + 1))
  }

  function AddJob(db: Db, row: ExportJob): Db {
    db.(jobs := db.jobs[db.next.jobs := row], next := db.next.(jobs := db.next.jobs + 1))
  }

  predicate UserResolves(db: Db, id: Option<int>) {
    id.None? || id.value in db.users
  }

  function OwnerOf(db: Db, projectId: int): Option<int> {
    if projectId in db.projects then Some(db.projects[projectId].ownerId) else None
  }

  predicate IsAdmin(db: Db, actor: int) {
    actor in db.users && db.users[actor].role == Admin
  }

  /** The owner of the project, or an administrator. */
  predicate MayModify(db: Db, projectId: int, actor: int) {
    OwnerOf(db, projectId) == Some(actor) || IsAdmin(db, actor)
  }

  // ----- users -----

  predicate EmailTaken(db: Db, email: string) {
    exists u :: u in db.users && db.users[u].email == email
  }

  function Register(db: Db, name: string, email: string): Outcome<int> {
    if EmailTaken(db, email) then Outcome(db, Err(Duplicate))
    else
      var id := db.next.users;
      Outcome(AddLog(AddUser(db, User(name, email, Developer)), ActivityLog(id, Registered)), Ok(id))
  }

  /** The fields a request sets; an absent field is left alone, a field set to null is written as null. */
  datatype UserUpdate = UserUpdate(name: Option<Option<string>>, email: Option<Option<string>>)

  function UpdateProfile(db: Db, actor: int, update: UserUpdate): Outcome<int> {
    if actor !in db.users then Outcome(db, Err(Unauthenticated))
    else if update.name == Some(None) || update.email == Some(None) then Outcome(db, Err(IntegrityError))
    else if update.email.Some? && exists u :: u in db.users && u != actor && db.users[u].email == update.email.value.value
    then Outcome(db, Err(IntegrityError))
    else
      var before := db.users[actor];
      var row := before.(name := if update.name.Some? then update.name.value.value else before.name,
                      email := if update.email.Some? then update.email.value.value else before.email);
      Outcome(db.(users := db.users[actor := row]), Ok(actor))
  }

  function DeleteUser(db: Db, actor: int, userId: int): Outcome<int> {
    if actor !in db.users then Outcome(db, Err(Unauthenticated))
    else if !IsAdmin(db, actor) then Outcome(db, Err(PermissionDenied))
    else if userId !in db.users then Outcome(db, Err(NotFound))
    else Outcome(Cascade.DeleteRow(db, Ref(Users, userId)), Ok(userId))
  }

  /** Login, logout and password changes leave an activity record and nothing else here. */
  function RecordActivity(db: Db, actor: int, action: string): Outcome<int> {
    if actor !in db.users then Outcome(db, Err(Unauthenticated))
    else Outcome(AddLog(db, ActivityLog(actor, Account(action))), Ok(actor))
  }

  // ----- projects -----

  function CreateProject(db: Db, actor: int, title: string, description: Option<string>): Outcome<int> {
    if actor !in db.users then Outcome(db, Err(Unauthenticated))
    else
      var id := db.next.projects;
      Outcome(AddLog(AddProject(db, Project(title, description, actor)),
                     ActivityLog(actor, CreatedProject(title))), Ok(id))
  }

  datatype ProjectUpdate = ProjectUpdate(title: Option<Option<string>>, description: Option<Option<string>>)

  function UpdateProject(db: Db, actor: int, projectId: int, update: ProjectUpdate): Outcome<int> {
    if actor !in db.users then Outcome(db, Err(Unauthenticated))
    else if projectId !in db.projects then Outcome(db, Err(NotFound))
    else if !MayModify(db, projectId, actor) then Outcome(db, Err(PermissionDenied))
    else if update.title == Some(None) then Outcome(db, Err(IntegrityError))
    else
      var before := db.projects[projectId];
      var row := before.(title := if update.title.Some? then update.title.value.value else before.title,
                      description := if update.description.Some? then update.description.value else before.description);
      Outcome(db.(projects := db.projects[projectId := row]), Ok(projectId))
  }

  function DeleteProject(db: Db, actor: int, projectId: int): Outcome<int> {
    if actor !in db.users then Outcome(db, Err(Unauthenticated))
    else if projectId !in db.projects then Outcome(db, Err(NotFound))
    else if !MayModify(db, projectId, actor) then Outcome(db, Err(PermissionDenied))
    else Outcome(Cascade.DeleteRow(db, Ref(Projects, projectId)), Ok(projectId))
  }

  // ----- issues -----

  datatype IssueCreate = IssueCreate(title: string, description: Option<string>, priority: Priority,
                                     dueDate: Option<real>, projectId: int, assignedTo: Option<int>)

  function CreateIssue(db: Db, actor: int, input: IssueCreate, now: real): Outcome<int> {
    if actor !in db.users then Outcome(db, Err(Unauthenticated))
    else if input.projectId !in db.projects then Outcome(db, Err(NotFound))
    else if !UserResolves(db, input.assignedTo) then
      Outcome(db.(next := db.next.(issues := db.next.issues + 1)), Err(IntegrityError))
    else
      var id := db.next.issues;
      var row := Issue(input.title, input.description, input.priority, Todo, input.dueDate, input.projectId,
                       input.assignedTo, now);
      Outcome(AddLog(AddIssue(db, row), ActivityLog(actor, CreatedIssue(input.title))), Ok(id))
  }

  datatype IssueUpdate = IssueUpdate(title: Option<Option<string>>, description: Option<Option<string>>,
                                     priority: Option<Option<Priority>>, dueDate: Option<Option<real>>,
                                     assignedTo: Option<Option<int>>)

  function Updated(before: Issue, update: IssueUpdate): Issue
    requires update.title != Some(None) && update.priority != Some(None)
  {
    before.(title := if update.title.Some? then update.title.value.value else before.title,
         description := if update.description.Some? then update.description.value else before.description,
         priority := if update.priority.Some? then update.priority.value.value else before.priority,
         dueDate := if update.dueDate.Some? then update.dueDate.value else before.dueDate,
         assignedTo := if update.assignedTo.Some? then update.assignedTo.value else before.assignedTo)
  }

  function UpdateIssue(db: Db, actor: int, issueId: int, update: IssueUpdate): Outcome<int> {
    if actor !in db.users then Outcome(db, Err(Unauthenticated))
    else if issueId !in db.issues then Outcome(db, Err(NotFound))
    else if !MayModify(db, db.issues[issueId].projectId, actor) then Outcome(db, Err(PermissionDenied))
    else if update.title == Some(None) || update.priority == Some(None) then Outcome(db, Err(IntegrityError))
    else if update.assignedTo.Some? && !UserResolves(db, update.assignedTo.value) then Outcome(db, Err(IntegrityError))
    else Outcome(db.(issues := db.issues[issueId := Updated(db.issues[issueId], update)]), Ok(issueId))
  }

  function DeleteIssue(db: Db, actor: int, issueId: int): Outcome<int> {
    if actor !in db.users then Outcome(db, Err(Unauthenticated))
    else if issueId !in db.issues then Outcome(db, Err(NotFound))
    else if !MayModify(db, db.issues[issueId].projectId, actor) then Outcome(db, Err(PermissionDenied))
    else Outcome(Cascade.DeleteRow(db, Ref(Issues, issueId)), Ok(issueId))
  }

  function AssignIssue(db: Db, actor: int, issueId: int, assignee: int): Outcome<int> {
    if actor !in db.users then Outcome(db, Err(Unauthenticated))
    else if issueId !in db.issues then Outcome(db, Err(NotFound))
    else if !MayModify(db, db.issues[issueId].projectId, actor) then Outcome(db, Err(PermissionDenied))
    else if assignee !in db.users then Outcome(db, Err(NotFound))
    else
      var row := db.issues[issueId].(assignedTo := Some(assignee));
      var saved := AddLog(db.(issues := db.issues[issueId := row]),
                          ActivityLog(actor, AssignedIssue(row.title, assignee)));
      var text := AssignsYou(db.users[actor].name, row.title);
      Outcome(if assignee == actor then saved
              else AddNotification(saved, Notification(assignee, IssueAssigned, text, Some(issueId), false)),
              Ok(issueId))
  }

  /** The declared forward transitions. */
  function AllowedFrom(s: Status): set<Status> {
    match s
    case Todo => {InProgress}
    case InProgress => {Done}
    case Done => {}
  }

  predicate MayMove(from: Status, to: Status) {
    to == from || to in AllowedFrom(from)
  }

  /** Whom an event on an issue is announced to: its assignee, unless they caused it or the id is zero. */
  function Recipient(issue: Issue, actor: int): Option<int> {
    if issue.assignedTo.Some? && issue.assignedTo.value != 0 && issue.assignedTo.value != actor
    then issue.assignedTo else None
  }

  function Announce(db: Db, issueId: int, actor: int, kind: NotificationKind, text: Message): Db
    requires issueId in db.issues
  {
    match Recipient(db.issues[issueId], actor)
    case None => db
    case Some(to) => AddNotification(db, Notification(to, kind, text, Some(issueId), false))
  }

  function ChangeStatus(db: Db, actor: int, issueId: int, to: Status): Outcome<int> {
    if actor !in db.users then Outcome(db, Err(Unauthenticated))
    else if issueId !in db.issues then Outcome(db, Err(NotFound))
    else if !MayModify(db, db.issues[issueId].projectId, actor) then Outcome(db, Err(PermissionDenied))
    else if !MayMove(db.issues[issueId].status, to) then Outcome(db, Err(BadRequest))
    else
      var row := db.issues[issueId].(status := to);
      var saved := AddLog(db.(issues := db.issues[issueId := row]),
                          ActivityLog(actor, MovedIssue(row.title, to)));
      var text := ChangesStatus(db.users[actor].name, row.title, to);
      Outcome(Announce(saved, issueId, actor, IssueStatusChanged, text), Ok(issueId))
  }

  // ----- comments and notifications -----

  function PostComment(db: Db, actor: int, issueId: int, text: string): Outcome<int> {
    if actor !in db.users then Outcome(db, Err(Unauthenticated))
    else if issueId !in db.issues then Outcome(db, Err(NotFound))
    else
      var id := db.next.comments;
      var saved := AddComment(db, Comment(issueId, actor, text));
      var message := CommentsOn(db.users[actor].name, db.issues[issueId].title);
      Outcome(Announce(saved, issueId, actor, IssueCommented, message), Ok(id))
  }

  function DeleteComment(db: Db, actor: int, commentId: int): Outcome<int> {
    if actor !in db.users then Outcome(db, Err(Unauthenticated))
    else if commentId !in db.comments then Outcome(db, Err(NotFound))
    else if db.comments[commentId].userId != actor && !IsAdmin(db, actor) then Outcome(db, Err(PermissionDenied))
    else Outcome(Cascade.DeleteRow(db, Ref(Comments, commentId)), Ok(commentId))
  }

  function MarkRead(db: Db, actor: int, notificationId: int): Outcome<int> {
    if actor !in db.users then Outcome(db, Err(Unauthenticated))
    else if notificationId !in db.notifications then Outcome(db, Err(NotFound))
    else if db.notifications[notificationId].userId != actor then Outcome(db, Err(PermissionDenied))
    else
      Outcome(db.(notifications :=
                    db.notifications[notificationId := db.notifications[notificationId].(isRead := true)]),
              Ok(notificationId))
  }

  function UnreadOf(db: Db, userId: int): set<int> {
    set n | n in db.notifications && db.notifications[n].userId == userId && !db.notifications[n].isRead
  }

  /** Mark every unread notification of the caller, answering how many there were. */
  function MarkAllRead(db: Db, actor: int): Outcome<int> {
    if actor !in db.users then Outcome(db, Err(Unauthenticated))
    else
      var unread := UnreadOf(db, actor);
      Outcome(db.(notifications := map n | n in db.notifications ::
                    if n in unread then db.notifications[n].(isRead := true) else db.notifications[n]),
              Ok(|unread|))
  }

  // ----- export requests -----

  /** The pending row an export request commits before it talks to the broker. */
  function RequestExport(db: Db, actor: int, projectId: int, now: real): Outcome<int> {
    if actor !in db.users then Outcome(db, Err(Unauthenticated))
    else if projectId !in db.projects then Outcome(db, Err(NotFound))
    else
      var id := db.next.jobs;
      Outcome(AddJob(db, ExportJob(projectId, actor, Pending, None, None, None, 0, now, None)), Ok(id))
  }
}
