/**
 The dashboard summary and what it depends on.
 */
module Dashboard {
  import opened Store
  import Sets

  datatype Summary = Summary(totalProjects: nat, totalIssues: nat, completedIssues: nat, pendingIssues: nat,
                             highPriorityIssues: nat)

  /** The four count queries over a user's issues. */
  datatype Filter = Every | OnlyDone | OnlyPending | OnlyHigh

  predicate Selects(f: Filter, issue: Issue) {
    match f
    case Every => true
    case OnlyDone => issue.status == Done
    case OnlyPending => issue.status != Done
    case OnlyHigh => issue.priority == High
  }

  function OwnedProjects(db: Db, userId: int): set<int> {
    set p | p in db.projects && db.projects[p].ownerId == userId
  }

  function Matching(db: Db, projectIds: set<int>, f: Filter): (ids: set<int>)
    ensures forall i :: i in ids <==> i in db.issues && db.issues[i].projectId in projectIds && Selects(f, db.issues[i])
  {
    set i | i in db.issues && db.issues[i].projectId in projectIds && Selects(f, db.issues[i])
  }

  /** One count query; with no project to look in, the query is skipped and the count is zero. */
  function CountIssues(db: Db, projectIds: set<int>, f: Filter): nat {
    if projectIds == {} then 0 else |Matching(db, projectIds, f)|
  }

  function ComputeSummary(db: Db, userId: int): Summary {
    var ids := OwnedProjects(db, userId);
    Summary(|ids|, CountIssues(db, ids, Every), CountIssues(db, ids, OnlyDone), CountIssues(db, ids, OnlyPending),
            CountIssues(db, ids, OnlyHigh))
  }

  /** The issue sits in a project the user owns. */
  predicate IssueOf(db: Db, id: int, userId: int)
    requires id in db.issues
  {
    db.issues[id].projectId in db.projects && db.projects[db.issues[id].projectId].ownerId == userId
  }

  /** Each part of the summary is the number of rows whose columns say so. */
  lemma SummaryByColumns(db: Db, userId: int)
    ensures var s := ComputeSummary(db, userId);
            && s.totalProjects == |set p | p in db.projects && db.projects[p].ownerId == userId|
            && s.totalIssues == |set i | i in db.issues && IssueOf(db, i, userId)|
            && s.completedIssues == |set i | i in db.issues && IssueOf(db, i, userId) && db.issues[i].status == Done|
            && s.pendingIssues ==
                 |set i | i in db.issues && IssueOf(db, i, userId) && db.issues[i].status in {Todo, InProgress}|
            && s.highPriorityIssues == |set i | i in db.issues && IssueOf(db, i, userId) && db.issues[i].priority == High|
  {
    var ids := OwnedProjects(db, userId);
    assert (set i | i in db.issues && IssueOf(db, i, userId)) == Matching(db, ids, Every);
    assert (set i | i in db.issues && IssueOf(db, i, userId) && db.issues[i].status == Done) == Matching(db, ids, OnlyDone);
    assert (set i | i in db.issues && IssueOf(db, i, userId) && db.issues[i].status in {Todo, InProgress}) ==
           Matching(db, ids, OnlyPending);
    assert (set i | i in db.issues && IssueOf(db, i, userId) && db.issues[i].priority == High) == Matching(db, ids, OnlyHigh);
  }

  /** Every issue counted is either completed or pending, and none is both. */
  lemma CompletedAndPendingPartition(db: Db, userId: int)
    ensures var s := ComputeSummary(db, userId);
            s.totalIssues == s.completedIssues + s.pendingIssues && s.highPriorityIssues <= s.totalIssues
  {
    var ids := OwnedProjects(db, userId);
    var done, pending := Matching(db, ids, OnlyDone), Matching(db, ids, OnlyPending);
    forall i | i in db.issues ensures Selects(OnlyDone, db.issues[i]) != Selects(OnlyPending, db.issues[i]) {
    }
    assert done !! pending;
    assert Matching(db, ids, Every) == done + pending;
    Sets.SubsetSize(Matching(db, ids, OnlyHigh), Matching(db, ids, Every));
  }

  /** Two databases agree about everything the summary of `userId` looks at. */
  ghost predicate SameView(db: Db, db': Db, userId: int) {
    var ids := OwnedProjects(db, userId);
    && OwnedProjects(db', userId) == ids
    && (forall i :: i in db.issues && db.issues[i].projectId in ids ==>
          i in db'.issues && SameCounted(db.issues[i], db'.issues[i]))
    && (forall i :: i in db'.issues && db'.issues[i].projectId in ids ==>
          i in db.issues && SameCounted(db.issues[i], db'.issues[i]))
  }

  predicate SameCounted(a: Issue, b: Issue) {
    a.projectId == b.projectId && a.status == b.status && a.priority == b.priority
  }

  lemma MatchingFrame(db: Db, db': Db, userId: int, f: Filter)
    requires SameView(db, db', userId)
    ensures Matching(db, OwnedProjects(db, userId), f) == Matching(db', OwnedProjects(db, userId), f)
  {
    var ids := OwnedProjects(db, userId);
    forall i ensures i in Matching(db, ids, f) <==> i in Matching(db', ids, f) {
      if i in db.issues && db.issues[i].projectId in ids {
        assert SameCounted(db.issues[i], db'.issues[i]);
      } else if i in db'.issues && db'.issues[i].projectId in ids {
        assert SameCounted(db.issues[i], db'.issues[i]);
      }
    }
  }

  lemma SummaryFrame(db: Db, db': Db, userId: int)
    requires SameView(db, db', userId)
    ensures ComputeSummary(db, userId) == ComputeSummary(db', userId)
  {
    MatchingFrame(db, db', userId, Every);
    MatchingFrame(db, db', userId, OnlyDone);
    MatchingFrame(db, db', userId, OnlyPending);
    MatchingFrame(db, db', userId, OnlyHigh);
  }
}
