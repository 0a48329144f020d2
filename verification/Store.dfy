/**
 The relational store: seven tables, their foreign keys, and the one-to-many
 relationships declared over those keys.
 */
module Store {
  import opened Options

  datatype Role = Admin | Developer
  datatype Priority = Low | Medium | High
  datatype Status = Todo | InProgress | Done
  datatype NotificationKind = IssueAssigned | IssueStatusChanged | IssueCommented
  datatype JobStatus = Pending | Running | Completed | Failed

  datatype User = User(name: string, email: string, role: Role)
  datatype Project = Project(title: string, description: Option<string>, ownerId: int)
  datatype Issue = Issue(title: string, description: Option<string>, priority: Priority, status: Status,
                         dueDate: Option<real>, projectId: int, assignedTo: Option<int>, createdAt: real)
  datatype Comment = Comment(issueId: int, userId: int, text: string)
  datatype ActivityLog = ActivityLog(userId: int, action: Action)
  datatype Notification = Notification(userId: int, kind: NotificationKind, message: Message,
                                       issueId: Option<int>, isRead: bool)

  /** What an activity record says its user did. */
  datatype Action =
    | Registered
    | CreatedProject(title: string)
    | CreatedIssue(title: string)
    | AssignedIssue(title: string, assignee: int)
    | MovedIssue(title: string, to: Status)
    | Account(text: string)

  /** What a notification tells its reader, and who caused it. */
  datatype Message =
    | AssignsYou(author: string, title: string)
    | ChangesStatus(author: string, title: string, to: Status)
    | CommentsOn(author: string, title: string)

  /** What a failed export job says went wrong. */
  datatype Failure =
    | QueueUnavailable
    | Abandoned(found: JobStatus, graceSeconds: nat)
    | Reason(text: string)

  datatype ExportJob = ExportJob(projectId: int, requestedById: int, status: JobStatus, filePath: Option<string>,
                                 rowCount: Option<nat>, errorMessage: Option<Failure>, attempts: nat,
                                 createdAt: real, completedAt: Option<real>)

  /** The next value of each table's id sequence; sequences only move forward. */
  datatype Sequences = Sequences(users: int, projects: int, issues: int, comments: int, logs: int,
                                 notifications: int, jobs: int)

  datatype Db = Db(users: map<int, User>, projects: map<int, Project>, issues: map<int, Issue>,
                   comments: map<int, Comment>, logs: map<int, ActivityLog>,
                   notifications: map<int, Notification>, jobs: map<int, ExportJob>, next: Sequences)

  datatype Table = Users | Projects | Issues | Comments | ActivityLogs | Notifications | ExportJobs

  /** A row's address. */
  datatype Ref = Ref(table: Table, id: int)

  predicate Has(db: Db, r: Ref) {
    match r.table
    case Users => r.id in db.users
    case Projects => r.id in db.projects
    case Issues => r.id in db.issues
    case Comments => r.id in db.comments
    case ActivityLogs => r.id in db.logs
    case Notifications => r.id in db.notifications
    case ExportJobs => r.id in db.jobs
  }

  /** The foreign-key columns; each backs exactly one one-to-many relationship. */
  datatype Column =
    | ProjectOwner
    | IssueProject
    | IssueAssignee
    | CommentIssue
    | CommentUser
    | LogUser
    | NotificationUser
    | NotificationIssue
    | JobProject
    | JobRequester

  function Source(c: Column): Table {
    match c
    case ProjectOwner => Projects
    case IssueProject => Issues
    case IssueAssignee => Issues
    case CommentIssue => Comments
    case CommentUser => Comments
    case LogUser => ActivityLogs
    case NotificationUser => Notifications
    case NotificationIssue => Notifications
    case JobProject => ExportJobs
    case JobRequester => ExportJobs
  }

  function Target(c: Column): Table {
    match c
    case ProjectOwner => Users
    case IssueProject => Projects
    case IssueAssignee => Users
    case CommentIssue => Issues
    case CommentUser => Users
    case LogUser => Users
    case NotificationUser => Users
    case NotificationIssue => Issues
    case JobProject => Projects
    case JobRequester => Users
  }

  /** Whether the relationship over this column is declared with `all, delete-orphan`. */
  predicate Cascades(c: Column) {
    !c.IssueAssignee?
  }

  /** The value a row holds in a foreign-key column, `None` for NULL. */
  function ForeignKey(db: Db, r: Ref, c: Column): Option<int>
    requires Has(db, r) && r.table == Source(c)
  {
    match c
    case ProjectOwner => Some(db.projects[r.id].ownerId)
    case IssueProject => Some(db.issues[r.id].projectId)
    case IssueAssignee => db.issues[r.id].assignedTo
    case CommentIssue => Some(db.comments[r.id].issueId)
    case CommentUser => Some(db.comments[r.id].userId)
    case LogUser => Some(db.logs[r.id].userId)
    case NotificationUser => Some(db.notifications[r.id].userId)
    case NotificationIssue => db.notifications[r.id].issueId
    case JobProject => Some(db.jobs[r.id].projectId)
    case JobRequester => Some(db.jobs[r.id].requestedById)
  }

  /** Row `r` refers to `parent` through column `c`. */
  predicate Refers(db: Db, r: Ref, c: Column, parent: Ref) {
    Has(db, r) && r.table == Source(c) && parent.table == Target(c) && ForeignKey(db, r, c) == Some(parent.id)
  }

  /** Every foreign key resolves. */
  ghost predicate Integrity(db: Db) {
    forall r: Ref, c: Column, parent: Ref :: Refers(db, r, c, parent) ==> Has(db, parent)
  }

  /** The same, column by column: owners, projects, assignees, authors, recipients and requesters all exist. */
  ghost predicate ColumnsResolve(db: Db) {
    && (forall i :: i in db.projects ==> db.projects[i].ownerId in db.users)
    && (forall i :: i in db.issues ==> db.issues[i].projectId in db.projects)
    && (forall i :: i in db.issues && db.issues[i].assignedTo.Some? ==> db.issues[i].assignedTo.value in db.users)
    && (forall i :: i in db.comments ==> db.comments[i].issueId in db.issues && db.comments[i].userId in db.users)
    && (forall i :: i in db.logs ==> db.logs[i].userId in db.users)
    && (forall i :: i in db.notifications ==> db.notifications[i].userId in db.users)
    && (forall i :: i in db.notifications && db.notifications[i].issueId.Some? ==>
          db.notifications[i].issueId.value in db.issues)
    && (forall i :: i in db.jobs ==> db.jobs[i].projectId in db.projects && db.jobs[i].requestedById in db.users)
  }

  lemma ColumnResolves(db: Db, table: Table, id: int, c: Column, to: int)
    requires Integrity(db) && Refers(db, Ref(table, id), c, Ref(Target(c), to))
    ensures Has(db, Ref(Target(c), to))
  {
  }

  lemma IntegrityByColumns(db: Db)
    ensures Integrity(db) <==> ColumnsResolve(db)
  {
    if Integrity(db) {
      forall i | i in db.projects ensures db.projects[i].ownerId in db.users {
        ColumnResolves(db, Projects, i, ProjectOwner, db.projects[i].ownerId);
      }
      forall i | i in db.issues ensures db.issues[i].projectId in db.projects {
        ColumnResolves(db, Issues, i, IssueProject, db.issues[i].projectId);
      }
      forall i | i in db.issues && db.issues[i].assignedTo.Some? ensures db.issues[i].assignedTo.value in db.users {
        ColumnResolves(db, Issues, i, IssueAssignee, db.issues[i].assignedTo.value);
      }
      forall i | i in db.comments ensures db.comments[i].issueId in db.issues && db.comments[i].userId in db.users {
        ColumnResolves(db, Comments, i, CommentIssue, db.comments[i].issueId);
        ColumnResolves(db, Comments, i, CommentUser, db.comments[i].userId);
      }
      forall i | i in db.logs ensures db.logs[i].userId in db.users {
        ColumnResolves(db, ActivityLogs, i, LogUser, db.logs[i].userId);
      }
      forall i | i in db.notifications ensures db.notifications[i].userId in db.users {
        ColumnResolves(db, Notifications, i, NotificationUser, db.notifications[i].userId);
      }
      forall i | i in db.notifications && db.notifications[i].issueId.Some?
        ensures db.notifications[i].issueId.value in db.issues
      {
        ColumnResolves(db, Notifications, i, NotificationIssue, db.notifications[i].issueId.value);
      }
      forall i | i in db.jobs ensures db.jobs[i].projectId in db.projects && db.jobs[i].requestedById in db.users {
        ColumnResolves(db, ExportJobs, i, JobProject, db.jobs[i].projectId);
        ColumnResolves(db, ExportJobs, i, JobRequester, db.jobs[i].requestedById);
      }
    }
  }

  /** No sequence will hand out an id that a row already holds. */
  ghost predicate IdsAllocated(db: Db) {
    && (forall i :: i in db.users ==> i < db.next.users)
    && (forall i :: i in db.projects ==> i < db.next.projects)
    && (forall i :: i in db.issues ==> i < db.next.issues)
    && (forall i :: i in db.comments ==> i < db.next.comments)
    && (forall i :: i in db.logs ==> i < db.next.logs)
    && (forall i :: i in db.notifications ==> i < db.next.notifications)
    && (forall i :: i in db.jobs ==> i < db.next.jobs)
  }

  function Rows(db: Db): (rows: set<Ref>)
    ensures forall r :: r in rows <==> Has(db, r)
  {
    (set i | i in db.users :: Ref(Users, i)) + (set i | i in db.projects :: Ref(Projects, i)) +
    (set i | i in db.issues :: Ref(Issues, i)) + (set i | i in db.comments :: Ref(Comments, i)) +
    (set i | i in db.logs :: Ref(ActivityLogs, i)) + (set i | i in db.notifications :: Ref(Notifications, i)) +
    (set i | i in db.jobs :: Ref(ExportJobs, i))
  }
}
