/**
 Deleting a row: the rows a delete takes with it, and what it leaves behind.
 */
module Cascade {
  import opened Options
  import opened Store
  import Sets

  /** Deleting `parent` deletes `r`: a cascading relationship leads from one to the other. */
  predicate Pulls(db: Db, parent: Ref, r: Ref) {
    exists c :: Cascades(c) && Refers(db, r, c, parent)
  }

  /** The rows that the rows of `gone` pull and that are not there yet. */
  function Frontier(db: Db, gone: set<Ref>): set<Ref> {
    set r | r in Rows(db) && r !in gone && exists p :: p in gone && Pulls(db, p, r)
  }

  /** What a delete collects: keep following cascading relationships until nothing new turns up. */
  function Closure(db: Db, gone: set<Ref>): (all: set<Ref>)
    ensures gone <= all
    ensures Frontier(db, all) == {}
    decreases |Rows(db) - gone|
  {
    var more := Frontier(db, gone);
    if more == {} then gone
    else
      FrontierShrinksRest(db, gone);
      Closure(db, gone + more)
  }

  lemma FrontierShrinksRest(db: Db, gone: set<Ref>)
    requires Frontier(db, gone) != {}
    ensures |Rows(db) - (gone + Frontier(db, gone))| < |Rows(db) - gone|
  {
    var more := Frontier(db, gone);
    var x :| x in more;
    assert x in Rows(db) - gone && x !in Rows(db) - (gone + more);
    Sets.SmallerSet(Rows(db) - (gone + more), Rows(db) - gone);
  }

  lemma ClosureIsClosed(db: Db, gone: set<Ref>, p: Ref, r: Ref)
    requires p in Closure(db, gone) && Pulls(db, p, r)
    ensures r in Closure(db, gone)
  {
    var all := Closure(db, gone);
    assert r !in Frontier(db, all);
    assert r in Rows(db);
  }

  /** A row is collected only because it was asked for or because a collected row pulls it. */
  lemma {:induction false} ClosureHasReason(db: Db, gone: set<Ref>, r: Ref)
    requires r in Closure(db, gone) && r !in gone
    ensures exists p :: p in Closure(db, gone) && Pulls(db, p, r)
    decreases |Rows(db) - gone|
  {
    var more := Frontier(db, gone);
    FrontierShrinksRest(db, gone);
    if r in more {
      var p :| p in gone && Pulls(db, p, r);
      assert p in Closure(db, gone);
    } else {
      ClosureHasReason(db, gone + more, r);
    }
  }

  /** A chain of cascading relationships. */
  ghost predicate Chain(db: Db, path: seq<Ref>) {
    |path| > 0 && forall i :: 0 < i < |path| ==> Pulls(db, path[i - 1], path[i])
  }

  ghost predicate ChainTo(db: Db, root: Ref, path: seq<Ref>, r: Ref) {
    Chain(db, path) && path[0] == root && path[|path| - 1] == r
  }

  ghost predicate Reachable(db: Db, root: Ref, r: Ref) {
    exists path :: ChainTo(db, root, path, r)
  }

  lemma {:induction false} ChainStaysInClosure(db: Db, root: Ref, path: seq<Ref>, r: Ref)
    requires ChainTo(db, root, path, r)
    ensures r in Closure(db, {root})
    decreases |path|
  {
    if |path| > 1 {
      var p := path[|path| - 2];
      assert Pulls(db, path[|path| - 1 - 1], path[|path| - 1]);
      ChainStaysInClosure(db, root, path[..|path| - 1], p);
      ClosureIsClosed(db, {root}, p, r);
    }
  }

  lemma {:induction false} ClosureIsReachable(db: Db, root: Ref, gone: set<Ref>, r: Ref)
    requires forall q :: q in gone ==> Reachable(db, root, q)
    requires r in Closure(db, gone)
    ensures Reachable(db, root, r)
    decreases |Rows(db) - gone|
  {
    var more := Frontier(db, gone);
    if more != {} {
      forall q | q in more ensures Reachable(db, root, q) {
        var p :| p in gone && Pulls(db, p, q);
        var path :| ChainTo(db, root, path, p);
        assert ChainTo(db, root, path + [q], q);
      }
      FrontierShrinksRest(db, gone);
      ClosureIsReachable(db, root, gone + more, r);
    }
  }

  /** A delete collects exactly the rows reachable over cascading relationships. */
  lemma {:induction false} ClosureExact(db: Db, root: Ref)
    ensures forall r :: r in Closure(db, {root}) <==> Reachable(db, root, r)
  {
    assert ChainTo(db, root, [root], root);
    forall r ensures r in Closure(db, {root}) <==> Reachable(db, root, r) {
      if r in Closure(db, {root}) {
        ClosureIsReachable(db, root, {root}, r);
      }
      if Reachable(db, root, r) {
        var path :| ChainTo(db, root, path, r);
        ChainStaysInClosure(db, root, path, r);
      }
    }
  }

  /** A surviving issue loses its assignee when that user goes; the relationship does not cascade. */
  function Detach(issue: Issue, gone: set<Ref>): Issue {
    if issue.assignedTo.Some? && Ref(Users, issue.assignedTo.value) in gone then issue.(assignedTo := None) else issue
  }

  function Without(db: Db, gone: set<Ref>): Db {
    Db(map i | i in db.users && Ref(Users, i) !in gone :: db.users[i],
       map i | i in db.projects && Ref(Projects, i) !in gone :: db.projects[i],
       map i | i in db.issues && Ref(Issues, i) !in gone :: Detach(db.issues[i], gone),
       map i | i in db.comments && Ref(Comments, i) !in gone :: db.comments[i],
       map i | i in db.logs && Ref(ActivityLogs, i) !in gone :: db.logs[i],
       map i | i in db.notifications && Ref(Notifications, i) !in gone :: db.notifications[i],
       map i | i in db.jobs && Ref(ExportJobs, i) !in gone :: db.jobs[i],
       db.next)
  }

  /** `db.delete(row)` followed by a commit. */
  function DeleteRow(db: Db, root: Ref): Db {
    Without(db, Closure(db, {root}))
  }

  lemma WithoutHas(db: Db, gone: set<Ref>, r: Ref)
    ensures Has(Without(db, gone), r) <==> Has(db, r) && r !in gone
  {
  }

  /** Exactly the reachable rows disappear. */
  lemma DeleteRemovesExactlyReachable(db: Db, root: Ref, r: Ref)
    ensures Has(DeleteRow(db, root), r) <==> Has(db, r) && !Reachable(db, root, r)
  {
    ClosureExact(db, root);
    WithoutHas(db, Closure(db, {root}), r);
  }

  /** No column sits in the users table, so a cascade never reaches a user. */
  lemma CascadeNeverReachesUsers(db: Db, root: Ref, id: int)
    requires Ref(Users, id) in Closure(db, {root})
    ensures Ref(Users, id) == root
  {
    if Ref(Users, id) != root {
      ClosureHasReason(db, {root}, Ref(Users, id));
    }
  }

  /** A delete takes a user exactly when asked for that user. */
  lemma UserTaken(db: Db, root: Ref, id: int)
    ensures Ref(Users, id) in Closure(db, {root}) <==> root == Ref(Users, id)
  {
    if Ref(Users, id) in Closure(db, {root}) {
      CascadeNeverReachesUsers(db, root, id);
    }
  }

  lemma SurvivorKeepsKeys(db: Db, gone: set<Ref>, r: Ref, c: Column, parent: Ref)
    requires Refers(Without(db, gone), r, c, parent)
    ensures Refers(db, r, c, parent) && r !in gone
    ensures !Cascades(c) ==> parent !in gone
  {
    WithoutHas(db, gone, r);
  }

  /** Deleting any row leaves every foreign key resolving. */
  lemma {:induction false} DeleteKeepsIntegrity(db: Db, root: Ref)
    requires Integrity(db)
    ensures Integrity(DeleteRow(db, root))
  {
    var gone := Closure(db, {root});
    forall r: Ref, c: Column, parent: Ref | Refers(DeleteRow(db, root), r, c, parent)
      ensures Has(DeleteRow(db, root), parent)
    {
      SurvivorKeepsKeys(db, gone, r, c, parent);
      WithoutHas(db, gone, parent);
      assert Has(db, parent);
      if parent in gone {
        ClosureIsClosed(db, {root}, parent, r);
      }
    }
  }

  /** Survivors change only by losing a deleted user as assignee. */
  lemma DeleteChangesOnlyAssignees(db: Db, root: Ref)
    ensures var after := DeleteRow(db, root);
            && (forall i :: i in after.users ==> after.users[i] == db.users[i])
            && (forall i :: i in after.projects ==> after.projects[i] == db.projects[i])
            && (forall i :: i in after.comments ==> after.comments[i] == db.comments[i])
            && (forall i :: i in after.logs ==> after.logs[i] == db.logs[i])
            && (forall i :: i in after.notifications ==> after.notifications[i] == db.notifications[i])
            && (forall i :: i in after.jobs ==> after.jobs[i] == db.jobs[i])
            && (forall i :: i in after.issues ==>
                  after.issues[i] ==
                    if root.table == Users && db.issues[i].assignedTo == Some(root.id)
                    then db.issues[i].(assignedTo := None) else db.issues[i])
  {
    var after := DeleteRow(db, root);
    forall i | i in after.issues
      ensures after.issues[i] ==
        if root.table == Users && db.issues[i].assignedTo == Some(root.id)
        then db.issues[i].(assignedTo := None) else db.issues[i]
    {
      var a := db.issues[i].assignedTo;
      if a.Some? && Ref(Users, a.value) in Closure(db, {root}) {
        CascadeNeverReachesUsers(db, root, a.value);
      }
    }
  }

  /** Nothing smaller would do: any set of rows that holds the root and is closed under cascading holds them all. */
  lemma {:induction false} DeleteIsMinimal(db: Db, root: Ref, other: set<Ref>, r: Ref)
    requires root in other
    requires forall p, q :: p in other && Pulls(db, p, q) ==> q in other
    requires Reachable(db, root, r)
    ensures r in other
  {
    var path :| ChainTo(db, root, path, r);
    ClosedSetHoldsChain(db, path, other);
  }

  lemma {:induction false} ClosedSetHoldsChain(db: Db, path: seq<Ref>, other: set<Ref>)
    requires Chain(db, path) && path[0] in other
    requires forall p, q :: p in other && Pulls(db, p, q) ==> q in other
    ensures path[|path| - 1] in other
    decreases |path|
  {
    if |path| > 1 {
      assert Pulls(db, path[|path| - 1 - 1], path[|path| - 1]);
      ClosedSetHoldsChain(db, path[..|path| - 1], other);
    }
  }

  /** Only its owner pulls a project. */
  lemma ProjectPulledBy(db: Db, q: Ref, id: int)
    requires Pulls(db, q, Ref(Projects, id))
    ensures id in db.projects && q == Ref(Users, db.projects[id].ownerId)
  {
    var c :| Cascades(c) && Refers(db, Ref(Projects, id), c, q);
    assert c == ProjectOwner;
  }

  /** Only its project pulls an issue. */
  lemma IssuePulledBy(db: Db, q: Ref, id: int)
    requires Pulls(db, q, Ref(Issues, id))
    ensures id in db.issues && q == Ref(Projects, db.issues[id].projectId)
  {
    var c :| Cascades(c) && Refers(db, Ref(Issues, id), c, q);
    assert c == IssueProject;
  }

  lemma ParentTakesRow(db: Db, root: Ref, c: Column, parent: Ref, r: Ref)
    requires Cascades(c) && Refers(db, r, c, parent) && parent in Closure(db, {root})
    ensures r in Closure(db, {root})
  {
    ClosureIsClosed(db, {root}, parent, r);
  }

  lemma ProjectHasReason(db: Db, root: Ref, id: int)
    requires id in db.projects && Ref(Projects, id) in Closure(db, {root}) && Ref(Projects, id) != root
    ensures root == Ref(Users, db.projects[id].ownerId)
  {
    ClosureHasReason(db, {root}, Ref(Projects, id));
    var q :| q in Closure(db, {root}) && Pulls(db, q, Ref(Projects, id));
    ProjectPulledBy(db, q, id);
    CascadeNeverReachesUsers(db, root, q.id);
  }

  lemma IssueHasReason(db: Db, root: Ref, id: int)
    requires id in db.issues && Ref(Issues, id) in Closure(db, {root}) && Ref(Issues, id) != root
    ensures Ref(Projects, db.issues[id].projectId) in Closure(db, {root})
  {
    ClosureHasReason(db, {root}, Ref(Issues, id));
    var q :| q in Closure(db, {root}) && Pulls(db, q, Ref(Issues, id));
    IssuePulledBy(db, q, id);
  }

  /** A delete takes a project exactly when asked for it or its owner. */
  lemma ProjectTaken(db: Db, root: Ref, id: int)
    requires id in db.projects
    ensures Ref(Projects, id) in Closure(db, {root}) <==>
            Ref(Projects, id) == root || root == Ref(Users, db.projects[id].ownerId)
  {
    var r, owner := Ref(Projects, id), Ref(Users, db.projects[id].ownerId);
    if root == owner {
      ParentTakesRow(db, root, ProjectOwner, owner, r);
    } else if r in Closure(db, {root}) && r != root {
      ProjectHasReason(db, root, id);
    }
  }

  /** A delete takes an issue exactly when asked for it or when it takes its project. */
  lemma IssueTaken(db: Db, root: Ref, id: int)
    requires id in db.issues
    ensures Ref(Issues, id) in Closure(db, {root}) <==>
            Ref(Issues, id) == root || Ref(Projects, db.issues[id].projectId) in Closure(db, {root})
  {
    var r, project := Ref(Issues, id), Ref(Projects, db.issues[id].projectId);
    if project in Closure(db, {root}) {
      ParentTakesRow(db, root, IssueProject, project, r);
    } else if r in Closure(db, {root}) && r != root {
      IssueHasReason(db, root, id);
    }
  }

  /** A delete takes any other row exactly when asked for it or when it takes a row it belongs to. */
  lemma RowTaken(db: Db, root: Ref, r: Ref)
    ensures r in Closure(db, {root}) <==>
            r == root || exists p, c :: Cascades(c) && Refers(db, r, c, p) && p in Closure(db, {root})
  {
    if r != root && r in Closure(db, {root}) {
      ClosureHasReason(db, {root}, r);
      var p :| p in Closure(db, {root}) && Pulls(db, p, r);
      var c :| Cascades(c) && Refers(db, r, c, p);
    } else if p, c :| Cascades(c) && Refers(db, r, c, p) && p in Closure(db, {root}) {
      ParentTakesRow(db, root, c, p, r);
    }
  }

  /** A comment goes when asked for, with its author, or with its issue. */
  lemma CommentTaken(db: Db, root: Ref, id: int)
    requires id in db.comments
    ensures Ref(Comments, id) in Closure(db, {root}) <==>
            root == Ref(Comments, id) || root == Ref(Users, db.comments[id].userId) ||
            Ref(Issues, db.comments[id].issueId) in Closure(db, {root})
  {
    var r := Ref(Comments, id);
    RowTaken(db, root, r);
    assert Refers(db, r, CommentUser, Ref(Users, db.comments[id].userId));
    assert Refers(db, r, CommentIssue, Ref(Issues, db.comments[id].issueId));
    if p, c :| Cascades(c) && Refers(db, r, c, p) && p in Closure(db, {root}) {
      if c.CommentUser? {
        CascadeNeverReachesUsers(db, root, p.id);
      }
    }
  }

  /** An activity record goes when asked for or with its user. */
  lemma LogTaken(db: Db, root: Ref, id: int)
    requires id in db.logs
    ensures Ref(ActivityLogs, id) in Closure(db, {root}) <==>
            root == Ref(ActivityLogs, id) || root == Ref(Users, db.logs[id].userId)
  {
    var r := Ref(ActivityLogs, id);
    RowTaken(db, root, r);
    assert Refers(db, r, LogUser, Ref(Users, db.logs[id].userId));
    if p, c :| Cascades(c) && Refers(db, r, c, p) && p in Closure(db, {root}) {
      CascadeNeverReachesUsers(db, root, p.id);
    }
  }

  /** A notification goes when asked for, with its recipient, or with its issue. */
  lemma NotificationTaken(db: Db, root: Ref, id: int)
    requires id in db.notifications
    ensures Ref(Notifications, id) in Closure(db, {root}) <==>
            root == Ref(Notifications, id) || root == Ref(Users, db.notifications[id].userId) ||
            (db.notifications[id].issueId.Some? && Ref(Issues, db.notifications[id].issueId.value) in Closure(db, {root}))
  {
    var r, row := Ref(Notifications, id), db.notifications[id];
    RowTaken(db, root, r);
    assert Refers(db, r, NotificationUser, Ref(Users, row.userId));
    assert row.issueId.Some? ==> Refers(db, r, NotificationIssue, Ref(Issues, row.issueId.value));
    if p, c :| Cascades(c) && Refers(db, r, c, p) && p in Closure(db, {root}) {
      if c.NotificationUser? {
        CascadeNeverReachesUsers(db, root, p.id);
      }
    }
  }

  /** An export job goes when asked for, with its requester, or with its project. */
  lemma JobTaken(db: Db, root: Ref, id: int)
    requires id in db.jobs
    ensures Ref(ExportJobs, id) in Closure(db, {root}) <==>
            root == Ref(ExportJobs, id) || root == Ref(Users, db.jobs[id].requestedById) ||
            Ref(Projects, db.jobs[id].projectId) in Closure(db, {root})
  {
    var r := Ref(ExportJobs, id);
    RowTaken(db, root, r);
    assert Refers(db, r, JobRequester, Ref(Users, db.jobs[id].requestedById));
    assert Refers(db, r, JobProject, Ref(Projects, db.jobs[id].projectId));
    if p, c :| Cascades(c) && Refers(db, r, c, p) && p in Closure(db, {root}) {
      if c.JobRequester? {
        CascadeNeverReachesUsers(db, root, p.id);
      }
    }
  }
}
