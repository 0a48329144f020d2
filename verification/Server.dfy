/**
 The services as they run: methods that change the database and the Redis cache
 step by step, each held to the one-step meaning the runs are built from.
 */
module Server {
  import opened Options
  import opened Store
  import opened Dashboard
  import Cascade
  import Keys
  import Services
  import Sets
  import Tracker

  // ----- attribute loops -----

  /** One item of an issue update's dictionary. */
  datatype IssueField =
    | SetTitle(title: Option<string>)
    | SetDescription(description: Option<string>)
    | SetPriority(priority: Option<Priority>)
    | SetDueDate(dueDate: Option<real>)
    | SetAssignedTo(assignedTo: Option<int>)

  /** An issue whose columns have been assigned but not flushed; required ones may be null. */
  datatype IssueDraft = IssueDraft(title: Option<string>, description: Option<string>, priority: Option<Priority>,
                                   dueDate: Option<real>, assignedTo: Option<int>)

  function Put(u: Services.IssueUpdate, f: IssueField): Services.IssueUpdate {
    match f
    case SetTitle(v) => u.(title := Some(v))
    case SetDescription(v) => u.(description := Some(v))
    case SetPriority(v) => u.(priority := Some(v))
    case SetDueDate(v) => u.(dueDate := Some(v))
    case SetAssignedTo(v) => u.(assignedTo := Some(v))
  }

  /** The update a dictionary amounts to. */
  function IssueUpdateOf(fields: seq<IssueField>): Services.IssueUpdate {
    if fields == [] then Services.IssueUpdate(None, None, None, None, None)
    else Put(IssueUpdateOf(fields[..|fields| - 1]), fields[|fields| - 1])
  }

  /** The draft an update makes of an issue. */
  function Drafted(issue: Issue, u: Services.IssueUpdate): IssueDraft {
    IssueDraft(if u.title.Some? then u.title.value else Some(issue.title),
               if u.description.Some? then u.description.value else issue.description,
               if u.priority.Some? then u.priority.value else Some(issue.priority),
               if u.dueDate.Some? then u.dueDate.value else issue.dueDate,
               if u.assignedTo.Some? then u.assignedTo.value else issue.assignedTo)
  }

  datatype ProjectField = ProjectTitle(title: Option<string>) | ProjectDescription(description: Option<string>)

  function ProjectUpdateOf(fields: seq<ProjectField>): Services.ProjectUpdate {
    if fields == [] then Services.ProjectUpdate(None, None)
    else
      var u := ProjectUpdateOf(fields[..|fields| - 1]);
      match fields[|fields| - 1]
      case ProjectTitle(v) => u.(title := Some(v))
      case ProjectDescription(v) => u.(description := Some(v))
  }

  datatype UserField = UserName(name: Option<string>) | UserEmail(email: Option<string>)

  function UserUpdateOf(fields: seq<UserField>): Services.UserUpdate {
    if fields == [] then Services.UserUpdate(None, None)
    else
      var u := UserUpdateOf(fields[..|fields| - 1]);
      match fields[|fields| - 1]
      case UserName(v) => u.(name := Some(v))
      case UserEmail(v) => u.(email := Some(v))
  }

  /** The last item of its kind: from `k` on nothing else sets that attribute. */
  predicate LastIssueField(fields: seq<IssueField>, k: nat) {
    k < |fields| && forall j :: k < j < |fields| ==> !SameAttribute(fields[j], fields[k])
  }

  predicate SameAttribute(f: IssueField, g: IssueField) {
    || (f.SetTitle? && g.SetTitle?) || (f.SetDescription? && g.SetDescription?) || (f.SetPriority? && g.SetPriority?)
    || (f.SetDueDate? && g.SetDueDate?) || (f.SetAssignedTo? && g.SetAssignedTo?)
  }

  /** Of several items for one attribute the last decides. */
  lemma {:induction false} LastItemDecides(fields: seq<IssueField>, k: nat)
    requires LastIssueField(fields, k)
    ensures match fields[k]
            case SetTitle(v) => IssueUpdateOf(fields).title == Some(v)
            case SetDescription(v) => IssueUpdateOf(fields).description == Some(v)
            case SetPriority(v) => IssueUpdateOf(fields).priority == Some(v)
            case SetDueDate(v) => IssueUpdateOf(fields).dueDate == Some(v)
            case SetAssignedTo(v) => IssueUpdateOf(fields).assignedTo == Some(v)
  {
    if k < |fields| - 1 {
      var before := fields[..|fields| - 1];
      assert !SameAttribute(fields[|fields| - 1], fields[k]);
      assert LastIssueField(before, k);
      LastItemDecides(before, k);
    }
  }

  /** An attribute without an item is left alone. */
  lemma {:induction false} UnsetStaysOut(fields: seq<IssueField>)
    ensures var u := IssueUpdateOf(fields);
            && (u.title.Some? ==> exists k :: 0 <= k < |fields| && fields[k].SetTitle?)
            && (u.description.Some? ==> exists k :: 0 <= k < |fields| && fields[k].SetDescription?)
            && (u.priority.Some? ==> exists k :: 0 <= k < |fields| && fields[k].SetPriority?)
            && (u.dueDate.Some? ==> exists k :: 0 <= k < |fields| && fields[k].SetDueDate?)
            && (u.assignedTo.Some? ==> exists k :: 0 <= k < |fields| && fields[k].SetAssignedTo?)
  {
    if fields != [] {
      UnsetStaysOut(fields[..|fields| - 1]);
      assert fields[|fields| - 1] in fields;
    }
  }

  /** The same for projects: the last item decides, and an attribute without one is left alone. */
  lemma {:induction false} LastProjectItemDecides(fields: seq<ProjectField>, k: nat)
    ensures k < |fields| && (forall j :: k < j < |fields| ==> fields[j].ProjectTitle? != fields[k].ProjectTitle?) ==>
              if fields[k].ProjectTitle? then ProjectUpdateOf(fields).title == Some(fields[k].title)
              else ProjectUpdateOf(fields).description == Some(fields[k].description)
    ensures ProjectUpdateOf(fields).title.Some? ==> exists j :: 0 <= j < |fields| && fields[j].ProjectTitle?
    ensures ProjectUpdateOf(fields).description.Some? ==> exists j :: 0 <= j < |fields| && fields[j].ProjectDescription?
  {
    if fields != [] {
      LastProjectItemDecides(fields[..|fields| - 1], k);
      assert fields[|fields| - 1] in fields;
    }
  }

  /** And for profiles. */
  lemma {:induction false} LastUserItemDecides(fields: seq<UserField>, k: nat)
    ensures k < |fields| && (forall j :: k < j < |fields| ==> fields[j].UserName? != fields[k].UserName?) ==>
              if fields[k].UserName? then UserUpdateOf(fields).name == Some(fields[k].name)
              else UserUpdateOf(fields).email == Some(fields[k].email)
    ensures UserUpdateOf(fields).name.Some? ==> exists j :: 0 <= j < |fields| && fields[j].UserName?
    ensures UserUpdateOf(fields).email.Some? ==> exists j :: 0 <= j < |fields| && fields[j].UserEmail?
  {
    if fields != [] {
      LastUserItemDecides(fields[..|fields| - 1], k);
      assert fields[|fields| - 1] in fields;
    }
  }

  /** `setattr` over the items, later ones winning. */
  method AssignIssueFields(issue: Issue, fields: seq<IssueField>) returns (d: IssueDraft)
    ensures d == Drafted(issue, IssueUpdateOf(fields))
  {
    d := IssueDraft(Some(issue.title), issue.description, Some(issue.priority), issue.dueDate, issue.assignedTo);
    for k := 0 to |fields|
      invariant d == Drafted(issue, IssueUpdateOf(fields[..k]))
    {
      assert fields[..k + 1][..k] == fields[..k];
      match fields[k] {
        case SetTitle(v) => d := d.(title := v);
        case SetDescription(v) => d := d.(description := v);
        case SetPriority(v) => d := d.(priority := v);
        case SetDueDate(v) => d := d.(dueDate := v);
        case SetAssignedTo(v) => d := d.(assignedTo := v);
      }
    }
    assert fields[..|fields|] == fields;
  }

  method AssignProjectFields(project: Project, fields: seq<ProjectField>)
    returns (title: Option<string>, description: Option<string>)
    ensures var u := ProjectUpdateOf(fields);
            && title == (if u.title.Some? then u.title.value else Some(project.title))
            && description == (if u.description.Some? then u.description.value else project.description)
  {
    title, description := Some(project.title), project.description;
    for k := 0 to |fields|
      invariant var u := ProjectUpdateOf(fields[..k]);
                && title == (if u.title.Some? then u.title.value else Some(project.title))
                && description == (if u.description.Some? then u.description.value else project.description)
    {
      assert fields[..k + 1][..k] == fields[..k];
      match fields[k] {
        case ProjectTitle(v) => title := v;
        case ProjectDescription(v) => description := v;
      }
    }
    assert fields[..|fields|] == fields;
  }

  method AssignUserFields(user: User, fields: seq<UserField>) returns (name: Option<string>, email: Option<string>)
    ensures var u := UserUpdateOf(fields);
            && name == (if u.name.Some? then u.name.value else Some(user.name))
            && email == (if u.email.Some? then u.email.value else Some(user.email))
  {
    name, email := Some(user.name), Some(user.email);
    for k := 0 to |fields|
      invariant var u := UserUpdateOf(fields[..k]);
                && name == (if u.name.Some? then u.name.value else Some(user.name))
                && email == (if u.email.Some? then u.email.value else Some(user.email))
    {
      assert fields[..k + 1][..k] == fields[..k];
      match fields[k] {
        case UserName(v) => name := v;
        case UserEmail(v) => email := v;
      }
    }
    assert fields[..|fields|] == fields;
  }

  /** The loop of a bulk read: flip the rows one at a time, in whatever order the query returned them. */
  method ReadRows(rows: map<int, Notification>, unread: set<int>) returns (after: map<int, Notification>)
    requires unread <= rows.Keys
    ensures after == map n | n in rows :: if n in unread then rows[n].(isRead := true) else rows[n]
  {
    var waiting := unread;
    after := rows;
    while waiting != {}
      invariant waiting <= unread && after.Keys == rows.Keys
      invariant forall n :: n in rows ==>
                  after[n] == if n in unread && n !in waiting then rows[n].(isRead := true) else rows[n]
      decreases |waiting|
    {
      var n := Sets.Pick(waiting);
      after := after[n := rows[n].(isRead := true)];
      waiting := waiting - {n};
    }
    assert forall n :: n in rows ==> after[n] == if n in unread then rows[n].(isRead := true) else rows[n];
  }

  /** The captured loop, if any; a refusing one closes between the check and the call that schedules the push. */
  datatype EventLoop = NotCaptured | Running | Refusing | Closed

  // ----- the backend -----

  class Backend {
    var db: Db
    var cache: map<string, Tracker.Entry>
    var redisUp: bool
    var now: real
    /** The event loop, and the notifications whose push was handed to it. */
    var loop: EventLoop
    var pushes: seq<int>

    function View(): Tracker.App
      reads this
    {
      Tracker.App(db, cache, redisUp, now)
    }

    /** A request that lands in its one-step meaning leaves the backend valid. */
    twostate lemma Kept(op: Tracker.Op)
      requires old(Valid()) && View() == Tracker.Step(old(View()), op)
      requires pushes == old(pushes) || (|pushes| > 0 && pushes[..|pushes| - 1] == old(pushes) &&
                                         pushes[|pushes| - 1] < db.next.notifications)
      ensures Valid()
    {
      Tracker.StepSound(old(View()), op);
      Tracker.StepExtends(old(View()), op);
      Tracker.SequencesGrow(old(View()).db, Tracker.Step(old(View()), op).db);
    }

    /** The database is sound, and whatever is being pushed was committed first. */
    ghost predicate Valid()
      reads this
    {
      Tracker.Sound(db) && forall k :: 0 <= k < |pushes| ==> pushes[k] < db.next.notifications
    }

    constructor (start: Db)
      requires Tracker.Sound(start)
      ensures Valid() && View() == Tracker.App(start, map[], true, 0.0) && loop == NotCaptured && pushes == []
    {
      db, cache, redisUp, now, loop, pushes := start, map[], true, 0.0, NotCaptured, [];
    }

    // ----- the cache helper: every Redis failure is swallowed -----

    method GetCache(key: string) returns (hit: Option<Summary>)
      ensures hit == Tracker.GetCache(View(), key)
    {
      hit := None;
      if redisUp {
        if key in cache && now < cache[key].expiresAt {
          hit := Some(cache[key].value);
        }
      }
    }

    method SetCache(key: string, value: Summary, ttl: real)
      modifies this`cache
      ensures View() == Tracker.SetCache(old(View()), key, value, ttl)
    {
      if redisUp {
        cache := cache[key := Tracker.Entry(value, now + ttl)];
      }
    }

    method DeleteCache(key: string)
      modifies this`cache
      ensures View() == Tracker.DeleteCache(old(View()), key)
    {
      if redisUp {
        cache := cache - {key};
      }
    }

    method InvalidateForProject(projectId: int)
      modifies this`cache
      ensures View() == Tracker.Dropped(old(View()), Services.OwnerOf(db, projectId))
    {
      if projectId in db.projects {
        DeleteCache(Keys.DashboardKey(db.projects[projectId].ownerId));
      }
    }

    method GetDashboardSummary(actor: int) returns (r: Result<Summary>)
      modifies this`cache
      ensures (View(), r) == Tracker.View(old(View()), actor)
    {
      if actor !in db.users {
        return Err(Unauthenticated);
      }
      var key := Keys.DashboardKey(actor);
      var hit := GetCache(key);
      if hit.Some? {
        return Ok(hit.value);
      }
      var summary := ComputeSummary(db, actor);
      SetCache(key, summary, Tracker.CACHE_TTL);
      r := Ok(summary);
    }

    // ----- writes shared by the services -----

    method Log(actor: int, action: Action)
      modifies this`db
      ensures db == Services.AddLog(old(db), ActivityLog(actor, action))
    {
      var id := db.next.logs;
      db := db.(logs := db.logs[id := ActivityLog(actor, action)], next := db.next.(logs := id + 1));
    }

    /** Commit a changed issue, then the record of who changed it. */
    method SaveIssue(issueId: int, row: Issue, actor: int, action: Action)
      requires issueId in db.issues
      modifies this`db
      ensures db == Services.AddLog(old(db).(issues := old(db).issues[issueId := row]), ActivityLog(actor, action))
    {
      db := db.(issues := db.issues[issueId := row]);
      Log(actor, action);
    }

    /** Insert an issue; the commit refuses an assignee that does not exist, and the id drawn is lost then. */
    method InsertIssue(row: Issue) returns (r: Result<int>)
      modifies this`db
      ensures r == if Services.UserResolves(old(db), row.assignedTo) then Ok(old(db).next.issues) else Err(IntegrityError)
      ensures db == if r.Ok? then Services.AddIssue(old(db), row)
                    else old(db).(next := old(db).next.(issues := old(db).next.issues + 1))
    {
      var id := db.next.issues;
      db := db.(next := db.next.(issues := id + 1));
      if row.assignedTo.Some? && row.assignedTo.value !in db.users {
        return Err(IntegrityError);
      }
      db := db.(issues := db.issues[id := row]);
      r := Ok(id);
    }

    /** Commit the notification first, hand its push to the loop after; a push that cannot be scheduled is let go. */
    method NotifyUser(userId: int, kind: NotificationKind, message: Message, issueId: Option<int>)
      modifies this`db, this`pushes
      ensures db == Services.AddNotification(old(db), Notification(userId, kind, message, issueId, false))
      ensures pushes == old(pushes) + if loop.Running? then [old(db).next.notifications] else []
    {
      var id := db.next.notifications;
      db := db.(notifications := db.notifications[id := Notification(userId, kind, message, issueId, false)],
                next := db.next.(notifications := id + 1));
      if loop.NotCaptured? || loop.Closed? {
        return;
      }
      var accepted := loop.Running?;
      if accepted {
        pushes := pushes + [id];
      }
    }

    /** Tell the issue's assignee, unless there is none or they caused it. */
    method NotifyAssignee(issueId: int, actor: int, kind: NotificationKind, message: Message)
      requires issueId in db.issues
      modifies this`db, this`pushes
      ensures db == Services.Announce(old(db), issueId, actor, kind, message)
      ensures PushedWhatItCommitted(old(db), old(pushes))
    {
      var to := db.issues[issueId].assignedTo;
      if to.Some? && to.value != 0 && to.value != actor {
        NotifyUser(to.value, kind, message, Some(issueId));
      }
    }

    /** The notifications a request committed are those it pushes, if there is a loop that takes them. */
    ghost predicate PushedWhatItCommitted(before: Db, pushed: seq<int>)
      reads this
    {
      pushes == pushed + if loop.Running? && db.next.notifications > before.next.notifications
                         then [before.next.notifications] else []
    }

    // ----- projects -----

    method CreateProject(actor: int, title: string, description: Option<string>) returns (r: Result<int>)
      requires Valid()
      modifies this`db, this`cache
      ensures Valid() && View() == Tracker.Step(old(View()), Tracker.NewProject(actor, title, description))
      ensures r == Services.CreateProject(old(db), actor, title, description).result
    {
      if actor !in db.users {
        return Err(Unauthenticated);
      }
      var id := db.next.projects;
      db := db.(projects := db.projects[id := Project(title, description, actor)],
                next := db.next.(projects := id + 1));
      Log(actor, CreatedProject(title));
      DeleteCache(Keys.DashboardKey(actor));
      Kept(Tracker.NewProject(actor, title, description));
      r := Ok(id);
    }

    method UpdateProject(actor: int, projectId: int, fields: seq<ProjectField>) returns (r: Result<int>)
      requires Valid()
      modifies this`db
      ensures Valid() && View() == Tracker.Step(old(View()), Tracker.EditProject(actor, projectId, ProjectUpdateOf(fields)))
      ensures r == Services.UpdateProject(old(db), actor, projectId, ProjectUpdateOf(fields)).result
    {
      if actor !in db.users {
        return Err(Unauthenticated);
      }
      if projectId !in db.projects {
        return Err(NotFound);
      }
      var project := db.projects[projectId];
      if project.ownerId != actor && db.users[actor].role != Admin {
        return Err(PermissionDenied);
      }
      var title, description := AssignProjectFields(project, fields);
      if title.None? {
        return Err(IntegrityError);
      }
      db := db.(projects := db.projects[projectId := Project(title.value, description, project.ownerId)]);
      Kept(Tracker.EditProject(actor, projectId, ProjectUpdateOf(fields)));
      r := Ok(projectId);
    }

    method DeleteProject(actor: int, projectId: int) returns (r: Result<int>)
      requires Valid()
      modifies this`db, this`cache
      ensures Valid() && View() == Tracker.Step(old(View()), Tracker.RemoveProject(actor, projectId))
      ensures r == Services.DeleteProject(old(db), actor, projectId).result
    {
      if actor !in db.users {
        return Err(Unauthenticated);
      }
      if projectId !in db.projects {
        return Err(NotFound);
      }
      var owner := db.projects[projectId].ownerId;
      if owner != actor && db.users[actor].role != Admin {
        return Err(PermissionDenied);
      }
      db := Cascade.DeleteRow(db, Ref(Projects, projectId));
      DeleteCache(Keys.DashboardKey(owner));
      Kept(Tracker.RemoveProject(actor, projectId));
      r := Ok(projectId);
    }

    // ----- issues -----

    method CreateIssue(actor: int, input: Services.IssueCreate) returns (r: Result<int>)
      requires Valid()
      modifies this`db, this`cache
      ensures Valid() && View() == Tracker.Step(old(View()), Tracker.NewIssue(actor, input))
      ensures r == Services.CreateIssue(old(db), actor, input, now).result
    {
      if actor !in db.users {
        return Err(Unauthenticated);
      }
      if input.projectId !in db.projects {
        return Err(NotFound);
      }
      r := InsertIssue(Issue(input.title, input.description, input.priority, Todo, input.dueDate, input.projectId,
                             input.assignedTo, now));
      if r.Ok? {
        Log(actor, CreatedIssue(input.title));
        InvalidateForProject(db.issues[r.value].projectId);
      }
      Kept(Tracker.NewIssue(actor, input));
    }

    /** The row of an issue the caller may modify. */
    method GetForChange(actor: int, issueId: int) returns (r: Result<Issue>)
      requires Valid()
      ensures r == Err(Unauthenticated) <==> actor !in db.users
      ensures r == Err(NotFound) <==> actor in db.users && issueId !in db.issues
      ensures r == Err(PermissionDenied) <==>
              && actor in db.users && issueId in db.issues && db.users[actor].role != Admin
              && db.issues[issueId].projectId in db.projects
              && db.projects[db.issues[issueId].projectId].ownerId != actor
      ensures r.Err? ==> r.error == Unauthenticated || r.error == NotFound || r.error == PermissionDenied
      ensures r.Ok? ==> r.value == db.issues[issueId] && r.value.projectId in db.projects
    {
      if actor !in db.users {
        return Err(Unauthenticated);
      }
      if issueId !in db.issues {
        return Err(NotFound);
      }
      var issue := db.issues[issueId];
      assert Refers(db, Ref(Issues, issueId), IssueProject, Ref(Projects, issue.projectId));
      if db.projects[issue.projectId].ownerId != actor && db.users[actor].role != Admin {
        return Err(PermissionDenied);
      }
      r := Ok(issue);
    }

    method UpdateIssue(actor: int, issueId: int, fields: seq<IssueField>) returns (r: Result<int>)
      requires Valid()
      modifies this`db, this`cache
      ensures Valid() && View() == Tracker.Step(old(View()), Tracker.EditIssue(actor, issueId, IssueUpdateOf(fields)))
      ensures r == Services.UpdateIssue(old(db), actor, issueId, IssueUpdateOf(fields)).result
    {
      var got := GetForChange(actor, issueId);
      if got.Err? {
        return Err(got.error);
      }
      var issue := got.value;
      var d := AssignIssueFields(issue, fields);
      Tracker.IssueAssigneeResolves(db, issueId);
      if d.title.None? || d.priority.None? || (d.assignedTo.Some? && d.assignedTo.value !in db.users) {
        return Err(IntegrityError);
      }
      db := db.(issues := db.issues[issueId := Issue(d.title.value, d.description, d.priority.value, issue.status,
                                                     d.dueDate, issue.projectId, d.assignedTo, issue.createdAt)]);
      assert Services.Outcome(db, Ok(issueId)) == Services.UpdateIssue(old(db), actor, issueId, IssueUpdateOf(fields));
      InvalidateForProject(db.issues[issueId].projectId);
      Tracker.EditLands(old(View()), actor, issueId, IssueUpdateOf(fields));
      Kept(Tracker.EditIssue(actor, issueId, IssueUpdateOf(fields)));
      r := Ok(issueId);
    }

    /** A permitted delete: the row and all that goes with it, then the summary of the project's owner. */
    method ApplyRemoval(issueId: int, projectId: int)
      modifies this`db, this`cache
      ensures var after := Cascade.DeleteRow(old(db), Ref(Issues, issueId));
              View() == Tracker.Dropped(old(View()).(db := after), Services.OwnerOf(after, projectId))
    {
      db := Cascade.DeleteRow(db, Ref(Issues, issueId));
      InvalidateForProject(projectId);
    }

    method DeleteIssue(actor: int, issueId: int) returns (r: Result<int>)
      requires Valid()
      modifies this`db, this`cache
      ensures Valid() && View() == Tracker.Step(old(View()), Tracker.RemoveIssue(actor, issueId))
      ensures r == Services.DeleteIssue(old(db), actor, issueId).result
    {
      var got := GetForChange(actor, issueId);
      if got.Err? {
        return Err(got.error);
      }
      var projectId := got.value.projectId;
      assert Services.DeleteIssue(db, actor, issueId) ==
             Services.Outcome(Cascade.DeleteRow(db, Ref(Issues, issueId)), Ok(issueId));
      Tracker.RemovalLands(View(), actor, issueId);
      ApplyRemoval(issueId, projectId);
      Kept(Tracker.RemoveIssue(actor, issueId));
      r := Ok(issueId);
    }

    method AssignIssue(actor: int, issueId: int, assignee: int) returns (r: Result<int>)
      requires Valid()
      modifies this`db, this`pushes
      ensures Valid() && View() == Tracker.Step(old(View()), Tracker.Assign(actor, issueId, assignee))
      ensures r == Services.AssignIssue(old(db), actor, issueId, assignee).result
      ensures PushedWhatItCommitted(old(db), old(pushes))
    {
      var got := GetForChange(actor, issueId);
      if got.Err? {
        return Err(got.error);
      }
      if assignee !in db.users {
        return Err(NotFound);
      }
      var issue := got.value.(assignedTo := Some(assignee));
      SaveIssue(issueId, issue, actor, AssignedIssue(issue.title, assignee));
      if assignee != actor {
        NotifyUser(assignee, IssueAssigned, AssignsYou(db.users[actor].name, issue.title), Some(issueId));
      }
      Kept(Tracker.Assign(actor, issueId, assignee));
      r := Ok(issueId);
    }

    /** A permitted status change: row, activity record, cache, notification, in that order. */
    method ApplyStatus(actor: int, issueId: int, to: Status)
      requires actor in db.users && issueId in db.issues && db.issues[issueId].projectId in db.projects
      requires Services.MayModify(db, db.issues[issueId].projectId, actor)
      requires Services.MayMove(db.issues[issueId].status, to)
      modifies this`db, this`cache, this`pushes
      ensures db == Services.ChangeStatus(old(db), actor, issueId, to).db
      ensures cache == Tracker.DeleteCache(old(View()), Keys.DashboardKey(
                         old(db).projects[old(db).issues[issueId].projectId].ownerId)).cache
      ensures PushedWhatItCommitted(old(db), old(pushes))
    {
      var issue := db.issues[issueId].(status := to);
      SaveIssue(issueId, issue, actor, MovedIssue(issue.title, to));
      InvalidateForProject(issue.projectId);
      NotifyAssignee(issueId, actor, IssueStatusChanged, ChangesStatus(db.users[actor].name, issue.title, to));
    }

    /** The checks before a status change: existence, permission, transition. */
    method CheckMove(actor: int, issueId: int, to: Status) returns (refusal: Option<Error>)
      requires Valid()
      ensures refusal.Some? ==>
                Services.ChangeStatus(db, actor, issueId, to) == Services.Outcome(db, Err(refusal.value))
      ensures refusal.None? ==>
                && actor in db.users && issueId in db.issues && db.issues[issueId].projectId in db.projects
                && Services.MayModify(db, db.issues[issueId].projectId, actor)
                && Services.MayMove(db.issues[issueId].status, to)
    {
      var got := GetForChange(actor, issueId);
      if got.Err? {
        return Some(got.error);
      }
      if to != got.value.status && to !in Services.AllowedFrom(got.value.status) {
        return Some(BadRequest);
      }
      assert Refers(db, Ref(Issues, issueId), IssueProject, Ref(Projects, got.value.projectId));
      refusal := None;
    }

    method ChangeIssueStatus(actor: int, issueId: int, to: Status) returns (r: Result<int>)
      requires Valid()
      modifies this`db, this`cache, this`pushes
      ensures Valid() && View() == Tracker.Step(old(View()), Tracker.Move(actor, issueId, to))
      ensures r == Services.ChangeStatus(old(db), actor, issueId, to).result
      ensures PushedWhatItCommitted(old(db), old(pushes))
    {
      var refusal := CheckMove(actor, issueId, to);
      if refusal.Some? {
        return Err(refusal.value);
      }
      ApplyStatus(actor, issueId, to);
      Kept(Tracker.Move(actor, issueId, to));
      r := Ok(issueId);
    }

    // ----- comments and notifications -----

    method AddComment(actor: int, issueId: int, text: string) returns (r: Result<int>)
      requires Valid()
      modifies this`db, this`pushes
      ensures Valid() && View() == Tracker.Step(old(View()), Tracker.PostComment(actor, issueId, text))
      ensures r == Services.PostComment(old(db), actor, issueId, text).result
      ensures PushedWhatItCommitted(old(db), old(pushes))
    {
      if actor !in db.users {
        return Err(Unauthenticated);
      }
      if issueId !in db.issues {
        return Err(NotFound);
      }
      var issue, id := db.issues[issueId], db.next.comments;
      db := db.(comments := db.comments[id := Comment(issueId, actor, text)], next := db.next.(comments := id + 1));
      NotifyAssignee(issueId, actor, IssueCommented, CommentsOn(db.users[actor].name, issue.title));
      Kept(Tracker.PostComment(actor, issueId, text));
      r := Ok(id);
    }

    method MarkNotificationRead(actor: int, notificationId: int) returns (r: Result<int>)
      requires Valid()
      modifies this`db
      ensures Valid() && View() == Tracker.Step(old(View()), Tracker.Read(actor, notificationId))
      ensures r == Services.MarkRead(old(db), actor, notificationId).result
    {
      if actor !in db.users {
        return Err(Unauthenticated);
      }
      if notificationId !in db.notifications {
        return Err(NotFound);
      }
      var row := db.notifications[notificationId];
      if row.userId != actor {
        return Err(PermissionDenied);
      }
      db := db.(notifications := db.notifications[notificationId := row.(isRead := true)]);
      Kept(Tracker.Read(actor, notificationId));
      r := Ok(notificationId);
    }

    method MarkAllRead(actor: int) returns (r: Result<int>)
      requires Valid()
      modifies this`db
      ensures Valid() && View() == Tracker.Step(old(View()), Tracker.ReadAll(actor))
      ensures r == Services.MarkAllRead(old(db), actor).result
    {
      if actor !in db.users {
        return Err(Unauthenticated);
      }
      var unread := Services.UnreadOf(db, actor);
      var rows := ReadRows(db.notifications, unread);
      db := db.(notifications := rows);
      Kept(Tracker.ReadAll(actor));
      r := Ok(|unread|);
    }

    // ----- users -----

    method UpdateMyProfile(actor: int, fields: seq<UserField>) returns (r: Result<int>)
      requires Valid()
      modifies this`db
      ensures Valid() && View() == Tracker.Step(old(View()), Tracker.EditProfile(actor, UserUpdateOf(fields)))
      ensures r == Services.UpdateProfile(old(db), actor, UserUpdateOf(fields)).result
    {
      if actor !in db.users {
        return Err(Unauthenticated);
      }
      var user := db.users[actor];
      var name, email := AssignUserFields(user, fields);
      if name.None? || email.None? {
        return Err(IntegrityError);
      }
      if UserUpdateOf(fields).email.Some? && exists u :: u in db.users && u != actor && db.users[u].email == email.value {
        return Err(IntegrityError);
      }
      db := db.(users := db.users[actor := user.(name := name.value, email := email.value)]);
      Kept(Tracker.EditProfile(actor, UserUpdateOf(fields)));
      r := Ok(actor);
    }

    method DeleteUser(actor: int, userId: int) returns (r: Result<int>)
      requires Valid()
      modifies this`db
      ensures Valid() && View() == Tracker.Step(old(View()), Tracker.RemoveUser(actor, userId))
      ensures r == Services.DeleteUser(old(db), actor, userId).result
    {
      if actor !in db.users {
        return Err(Unauthenticated);
      }
      if db.users[actor].role != Admin {
        return Err(PermissionDenied);
      }
      if userId !in db.users {
        return Err(NotFound);
      }
      db := Cascade.DeleteRow(db, Ref(Users, userId));
      Kept(Tracker.RemoveUser(actor, userId));
      r := Ok(userId);
    }
  }
}
