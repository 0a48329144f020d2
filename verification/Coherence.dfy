/**
 The dashboard cache over whole runs: while Redis answers it agrees with the database,
 and through any outage it lags by less than a minute.
 */
module Coherence {
  import opened Options
  import opened Store
  import opened Dashboard
  import opened Tracker
  import opened Effects
  import Keys
  import Services

  // ----- what a request leaves alone -----

  /** The request neither recounts the user's issues nor deletes the user. */
  predicate Spares(db: Db, op: Op, u: int) {
    Recounted(db, op) != Some(u) && !(op.RemoveUser? && op.userId == u)
  }

  lemma OwnedProjectsStay(db: Db, op: Op, now: real, u: int)
    requires Sound(db) && Granted(db, op, now) && Spares(db, op, u)
    ensures OwnedProjects(Serve(db, op, now).db, u) == OwnedProjects(db, u)
  {
    var after := Serve(db, op, now).db;
    forall p ensures p in OwnedProjects(after, u) <==> p in OwnedProjects(db, u) {
      ProjectsExactly(db, op, now, p);
    }
  }

  lemma OwnedIssueStays(db: Db, op: Op, now: real, u: int, i: int)
    requires Sound(db) && Granted(db, op, now) && Spares(db, op, u)
    ensures var after, ids := Serve(db, op, now).db, OwnedProjects(db, u);
            && (i in db.issues && db.issues[i].projectId in ids ==>
                  i in after.issues && SameCounted(db.issues[i], after.issues[i]))
            && (i in after.issues && after.issues[i].projectId in ids ==>
                  i in db.issues && SameCounted(db.issues[i], after.issues[i]))
  {
    IssuesExactly(db, op, now, i);
    OwnedProjectsStay(db, op, now, u);
    assert forall p :: p in OwnedProjects(db, u) ==> p in OwnedProjects(Serve(db, op, now).db, u);
  }

  lemma SparedView(db: Db, op: Op, now: real, u: int)
    requires Sound(db) && (Granted(db, op, now) ==> Spares(db, op, u))
    ensures SameView(db, Serve(db, op, now).db, u)
  {
    if Granted(db, op, now) {
      OwnedProjectsStay(db, op, now, u);
      forall i {
        OwnedIssueStays(db, op, now, u, i);
      }
    } else {
      RefusedExactly(db, op, now);
    }
  }

  /** No request makes another user's summary move unless it drops that user's cached entry. */
  lemma ServeFrame(db: Db, op: Op, now: real, u: int)
    requires Sound(db) && u in Serve(db, op, now).db.users
    requires Granted(db, op, now) ==> Invalidates(db, op, Serve(db, op, now).db) != Some(u)
    ensures SameView(db, Serve(db, op, now).db, u)
  {
    if Granted(db, op, now) {
      DropsRecounted(db, op, now);
      UsersExactly(db, op, now, u);
    }
    SparedView(db, op, now, u);
  }

  /** Assigning an issue, commenting and reading change nobody's summary, the project owner's included. */
  lemma UncountedFrame(db: Db, op: Op, now: real, u: int)
    requires Sound(db) && (op.Assign? || op.PostComment? || op.RemoveComment? || op.Read? || op.ReadAll?)
    ensures SameView(db, Serve(db, op, now).db, u)
  {
    SparedView(db, op, now, u);
  }

  /** Deleting a user leaves every other user's summary as it was. */
  lemma DeletingAUserKeepsOtherSummaries(db: Db, actor: int, gone: int, now: real, u: int)
    requires Sound(db) && u != gone
    ensures ComputeSummary(Serve(db, RemoveUser(actor, gone), now).db, u) == ComputeSummary(db, u)
  {
    SparedView(db, RemoveUser(actor, gone), now, u);
    SummaryFrame(db, Serve(db, RemoveUser(actor, gone), now).db, u);
  }

  // ----- the cache agrees with the database over every run -----

  /** Every cached entry of an existing user is current, and no entry waits for a user yet to come. */
  ghost predicate Coherent(app: App) {
    && (forall u :: u in app.db.users && Keys.DashboardKey(u) in app.cache ==>
          app.cache[Keys.DashboardKey(u)].value == ComputeSummary(app.db, u))
    && (forall u :: u >= app.db.next.users ==> Keys.DashboardKey(u) !in app.cache)
  }

  predicate Outage(op: Op) {
    op.Redis? && !op.up
  }

  lemma UsersOnlyByRegistering(db: Db, op: Op, now: real)
    requires Sound(db)
    ensures db.next.users <= Serve(db, op, now).db.next.users
    ensures forall u :: u in Serve(db, op, now).db.users && u !in db.users ==> u == db.next.users
  {
    if Granted(db, op, now) {
      SequencesExactly(db, op, now);
      forall u | u in Serve(db, op, now).db.users && u !in db.users ensures u == db.next.users {
        UsersExactly(db, op, now, u);
      }
    } else {
      RefusedExactly(db, op, now);
    }
  }

  lemma ViewCoherent(app: App, actor: int)
    requires IdsAllocated(app.db) && Coherent(app)
    ensures Coherent(View(app, actor).0)
  {
    var after := View(app, actor).0;
    forall u | Keys.DashboardKey(u) in after.cache
      ensures u in after.db.users ==> after.cache[Keys.DashboardKey(u)].value == ComputeSummary(after.db, u)
      ensures u < after.db.next.users
    {
      Keys.DashboardKeysDistinct(u, actor);
    }
  }

  lemma WriteCoherent(app: App, op: Op)
    requires Sound(app.db) && Coherent(app) && app.redisUp && !op.ViewDashboard?
    ensures Coherent(Step(app, op))
  {
    var after := Step(app, op);
    StepDb(app, op);
    UsersOnlyByRegistering(app.db, op, app.now);
    forall u | u in after.db.users && Keys.DashboardKey(u) in after.cache
      ensures after.cache[Keys.DashboardKey(u)].value == ComputeSummary(after.db, u)
    {
      assert u in app.db.users;
      ServeFrame(app.db, op, app.now, u);
      SummaryFrame(app.db, after.db, u);
    }
  }

  lemma {:induction false} StepCoherent(app: App, op: Op)
    requires Sound(app.db) && Coherent(app) && app.redisUp && !Outage(op)
    ensures Coherent(Step(app, op)) && Step(app, op).redisUp
  {
    if op.ViewDashboard? {
      ViewCoherent(app, op.actor);
    } else {
      WriteCoherent(app, op);
    }
  }

  lemma {:induction false} RunCoherent(app: App, ops: seq<Op>)
    requires Sound(app.db) && Coherent(app) && app.redisUp
    requires forall k :: 0 <= k < |ops| ==> !Outage(ops[k])
    ensures Coherent(Run(app, ops)) && Run(app, ops).redisUp
  {
    if ops != [] {
      var before := ops[..|ops| - 1];
      RunCoherent(app, before);
      RunKeepsIntegrity(app, before);
      StepCoherent(Run(app, before), ops[|ops| - 1]);
    }
  }

  /** After any run without a Redis outage, the dashboard shows what the database holds. */
  lemma {:induction false} ServedSummaryIsCurrent(app: App, ops: seq<Op>, u: int)
    requires Sound(app.db) && Coherent(app) && app.redisUp
    requires forall k :: 0 <= k < |ops| ==> !Outage(ops[k])
    requires u in Run(app, ops).db.users
    ensures View(Run(app, ops), u).1 == Ok(ComputeSummary(Run(app, ops).db, u))
  {
    RunCoherent(app, ops);
  }

  // ----- the cache over every run, outages included -----

  /** A stored value is read at any time until its lifetime ends, and other keys read as before. */
  lemma StoreThenRead(app: App, key: string, value: Summary, ttl: real, other: string, t: real)
    requires app.redisUp
    ensures var afterwards := SetCache(app, key, value, ttl).(now := t);
            && (GetCache(afterwards, key) == if t < app.now + ttl then Some(value) else None)
            && (other != key ==> GetCache(afterwards, other) == GetCache(app.(now := t), other))
  {
  }

  /** A dropped key is a miss at any time until it is stored again, and other keys read as before. */
  lemma DropThenRead(app: App, key: string, other: string, t: real)
    requires app.redisUp
    ensures var afterwards := DeleteCache(app, key).(now := t);
            && GetCache(afterwards, key) == None
            && (other != key ==> GetCache(afterwards, other) == GetCache(app.(now := t), other))
  {
  }

  /** How long the requests of a run wait in all. */
  function Waited(ops: seq<Op>): real {
    if ops == [] then 0.0
    else
      var last := ops[|ops| - 1];
      Waited(ops[..|ops| - 1]) + if last.Wait? && last.seconds >= 0.0 then last.seconds else 0.0
  }

  lemma StepClock(app: App, op: Op)
    ensures Step(app, op).now == app.now + if op.Wait? && op.seconds >= 0.0 then op.seconds else 0.0
  {
  }

  /** Over every run the clock moves by what the requests wait, and never back. */
  lemma {:induction false} RunClock(app: App, ops: seq<Op>)
    ensures Run(app, ops).now == app.now + Waited(ops) && Waited(ops) >= 0.0
  {
    if ops != [] {
      RunClock(app, ops[..|ops| - 1]);
      StepClock(Run(app, ops[..|ops| - 1]), ops[|ops| - 1]);
    }
  }

  /**
   A summary computed on a miss is served again for sixty seconds, whatever has happened to
   the database, as long as nothing drops it; a hit changes nothing.
   */
  lemma ComputedOncePerMinute(app: App, actor: int, later: Db, t: real)
    requires actor in app.db.users && actor in later.users && app.redisUp && app.now <= t < app.now + 60.0
    ensures var served := View(app, actor);
            if GetCache(app, Keys.DashboardKey(actor)).Some? then served.0 == app
            else View(served.0.(db := later, now := t), actor) == (served.0.(db := later, now := t), served.1)
  {
  }

  /** The user's cached entry was computed from the database as it stood after the first `i` requests. */
  predicate CachedAfter(app: App, ops: seq<Op>, u: int, i: nat)
    requires i <= |ops|
  {
    var key, earlier, here := Keys.DashboardKey(u), Run(app, ops[..i]), Run(app, ops);
    key in here.cache && here.cache[key] == Entry(ComputeSummary(earlier.db, u), earlier.now + CACHE_TTL)
  }

  /** One request leaves a user's entry, drops it, or stores what the database says now. */
  lemma EntryStep(app: App, op: Op, u: int)
    requires Keys.DashboardKey(u) in Step(app, op).cache
    ensures var key := Keys.DashboardKey(u);
            || (key in app.cache && Step(app, op).cache[key] == app.cache[key])
            || Step(app, op).cache[key] == Entry(ComputeSummary(app.db, u), app.now + CACHE_TTL)
  {
    if op.ViewDashboard? {
      Keys.DashboardKeysDistinct(u, op.actor);
    }
  }

  lemma {:induction false} EntriesAreComputed(app: App, ops: seq<Op>, u: int)
    requires app.cache == map[] && Keys.DashboardKey(u) in Run(app, ops).cache
    ensures exists i: nat :: i <= |ops| && CachedAfter(app, ops, u, i)
  {
    var before, key := ops[..|ops| - 1], Keys.DashboardKey(u);
    EntryStep(Run(app, before), ops[|ops| - 1], u);
    if key in Run(app, before).cache && Run(app, ops).cache[key] == Run(app, before).cache[key] {
      EntriesAreComputed(app, before, u);
      var i: nat :| i <= |before| && CachedAfter(app, before, u, i);
      SameEntry(app, ops, u, i);
    } else {
      assert CachedAfter(app, ops, u, |ops| - 1);
    }
  }

  lemma SameEntry(app: App, ops: seq<Op>, u: int, i: nat)
    requires ops != [] && i < |ops| && CachedAfter(app, ops[..|ops| - 1], u, i)
    requires Keys.DashboardKey(u) in Run(app, ops).cache
    requires Run(app, ops).cache[Keys.DashboardKey(u)] == Run(app, ops[..|ops| - 1]).cache[Keys.DashboardKey(u)]
    ensures CachedAfter(app, ops, u, i)
  {
    assert ops[..i] == ops[..|ops| - 1][..i];
  }

  /** The summary is what the database said after the first `i` requests, less than a lifetime ago. */
  predicate SaidRecently(app: App, ops: seq<Op>, u: int, s: Summary, i: nat)
    requires i <= |ops|
  {
    s == ComputeSummary(Run(app, ops[..i]).db, u) && Run(app, ops).now - 60.0 < Run(app, ops[..i]).now
  }

  /** Whatever outages a run goes through, the dashboard shows what the database said less than 60 seconds before. */
  lemma ServedWithinLifetime(app: App, ops: seq<Op>, u: int)
    requires app.cache == map[] && u in Run(app, ops).db.users
    ensures View(Run(app, ops), u).1.Ok?
    ensures exists i: nat :: i <= |ops| && SaidRecently(app, ops, u, View(Run(app, ops), u).1.value, i)
  {
    var here := Run(app, ops);
    if GetCache(here, Keys.DashboardKey(u)).Some? {
      EntriesAreComputed(app, ops, u);
      var i: nat :| i <= |ops| && CachedAfter(app, ops, u, i);
      assert SaidRecently(app, ops, u, View(here, u).1.value, i);
    } else {
      assert ops[..|ops|] == ops;
      assert SaidRecently(app, ops, u, View(here, u).1.value, |ops|);
    }
  }
}
