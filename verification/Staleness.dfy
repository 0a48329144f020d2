/**
 How old a served dashboard summary can be when requests interleave and Redis may
 fail: computing, storing, committing and invalidating are separate steps, every
 count is a query of its own, and any store or delete may be lost.
 */
module Staleness {
  import opened Options
  import opened Store
  import opened Dashboard

  const TTL: real := 60.0

  /** The database as of one commit. */
  datatype Version = Version(at: real, db: Db)

  /** One count of a fill, with the versions its project list and its own query saw. */
  datatype Reading = Reading(count: nat, idsFrom: nat, countFrom: nat)

  /** A fill under way: the project list read first, then up to four counts. */
  datatype Fill = Fill(began: real, idsFrom: nat, ids: set<int>, counts: seq<Reading>)

  /** A finished summary, with the versions behind each of its parts. */
  datatype Stamped = Stamped(summary: Summary, began: real, idsFrom: nat, counts: seq<Reading>)

  datatype Cached = Cached(value: Stamped, expiresAt: real)

  datatype Cache = Empty | Holds(entry: Cached)

  /** One user's view: the commits so far, the fills under way, the cached entry, and what has been served when. */
  datatype State = State(now: real, log: seq<Version>, fills: map<int, Fill>, ready: map<int, Stamped>, cache: Cache,
                         served: seq<(real, Stamped)>)

  datatype Step =
    | Tick(dt: real)
    | Commit(db: Db)
    | Invalidate(lost: bool)             // the delete that follows a commit
    | Begin(reader: int)                 // a cache miss, and the project query
    | Count(reader: int)                 // the next count query
    | Finish(reader: int)
    | StoreAndServe(reader: int, lost: bool)
    | Hit

  const QUERIES: seq<Filter> := [Every, OnlyDone, OnlyPending, OnlyHigh]

  function Latest(st: State): nat
    requires st.log != []
  {
    |st.log| - 1
  }

  function Assemble(f: Fill): Stamped
    requires |f.counts| == 4
  {
    Stamped(Summary(|f.ids|, f.counts[0].count, f.counts[1].count, f.counts[2].count, f.counts[3].count),
            f.began, f.idsFrom, f.counts)
  }

  /** `delay` bounds the time from a fill's first query to the end of its store. */
  ghost predicate Enabled(st: State, step: Step, delay: real) {
    && st.log != []
    && match step
       case Tick(dt) =>
         dt > 0.0 && (forall r :: r in st.fills ==> st.now + dt <= st.fills[r].began + delay)
                  && (forall r :: r in st.ready ==> st.now + dt <= st.ready[r].began + delay)
       case Commit(_) => true
       case Invalidate(_) => true
       case Begin(r) => r !in st.fills && r !in st.ready
       case Count(r) => r in st.fills && |st.fills[r].counts| < 4
       case Finish(r) => r in st.fills && |st.fills[r].counts| == 4
       case StoreAndServe(r, _) => r in st.ready
       case Hit => st.cache.Holds? && st.now < st.cache.entry.expiresAt
  }

  function Next(st: State, step: Step, user: int): State
    requires st.log != []
    requires step.Count? ==> step.reader in st.fills && |st.fills[step.reader].counts| < 4
    requires step.Finish? ==> step.reader in st.fills && |st.fills[step.reader].counts| == 4
    requires step.StoreAndServe? ==> step.reader in st.ready
    requires step.Hit? ==> st.cache.Holds?
  {
    match step
    case Tick(dt) => st.(now := st.now + dt)
    case Commit(db) => st.(log := st.log + [Version(st.now, db)])
    case Invalidate(lost) => if lost then st else st.(cache := Empty)
    case Begin(r) =>
      var v := Latest(st);
      st.(fills := st.fills[r := Fill(st.now, v, OwnedProjects(st.log[v].db, user), [])])
    case Count(r) =>
      var f, v := st.fills[r], Latest(st);
      var reading := Reading(CountIssues(st.log[v].db, f.ids, QUERIES[|f.counts|]), f.idsFrom, v);
      st.(fills := st.fills[r := f.(counts := f.counts + [reading])])
    case Finish(r) => st.(fills := st.fills - {r}, ready := st.ready[r := Assemble(st.fills[r])])
    case StoreAndServe(r, lost) =>
      var value := st.ready[r];
      st.(ready := st.ready - {r}, served := st.served + [(st.now, value)],
          cache := if lost then st.cache else Holds(Cached(value, st.now + TTL)))
    case Hit => st.(served := st.served + [(st.now, st.cache.entry.value)])
  }

  // ----- versions and moments -----

  ghost predicate LogOrdered(log: seq<Version>, now: real) {
    && (forall i, j :: 0 <= i <= j < |log| ==> log[i].at <= log[j].at)
    && (forall i :: 0 <= i < |log| ==> log[i].at <= now)
  }

  /** Version `i` was the database at moment `t`. */
  predicate CurrentAt(log: seq<Version>, i: nat, t: real) {
    i < |log| && log[i].at <= t && (i + 1 < |log| ==> t <= log[i + 1].at)
  }

  /** Version `i` was the database at some moment later than `after` and no later than `until`. */
  ghost predicate CurrentWithin(log: seq<Version>, i: nat, after: real, until: real) {
    exists t: real :: after < t <= until && CurrentAt(log, i, t)
  }

  /** A version current in a window, in every later log. */
  ghost predicate SeenSince(log: seq<Version>, i: nat, began: real, now: real) {
    exists t: real :: began <= t <= now && CurrentAt(log, i, t)
  }

  /** The reading is the count its query gave on its two versions. */
  predicate ReadingTrue(log: seq<Version>, user: int, k: nat, reading: Reading) {
    && k < 4 && reading.idsFrom < |log| && reading.countFrom < |log|
    && reading.count ==
         CountIssues(log[reading.countFrom].db, OwnedProjects(log[reading.idsFrom].db, user), QUERIES[k])
  }

  ghost predicate ReadingsFrom(log: seq<Version>, user: int, idsFrom: nat, counts: seq<Reading>, began: real, now: real) {
    && |counts| <= 4 && SeenSince(log, idsFrom, began, now)
    && forall k :: 0 <= k < |counts| ==>
         counts[k].idsFrom == idsFrom && ReadingTrue(log, user, k, counts[k]) &&
         SeenSince(log, counts[k].countFrom, began, now)
  }

  /** The summary is made of true readings, each of a version current between `began` and `now`. */
  ghost predicate StampTrue(log: seq<Version>, user: int, s: Stamped, now: real) {
    && |s.counts| == 4 && s.began <= now
    && ReadingsFrom(log, user, s.idsFrom, s.counts, s.began, now)
    && s.summary == Summary(|OwnedProjects(log[s.idsFrom].db, user)|, s.counts[0].count, s.counts[1].count,
                            s.counts[2].count, s.counts[3].count)
  }

  ghost predicate FillTrue(log: seq<Version>, user: int, f: Fill, now: real) {
    && f.began <= now && ReadingsFrom(log, user, f.idsFrom, f.counts, f.began, now)
    && f.ids == OwnedProjects(log[f.idsFrom].db, user)
  }

  ghost predicate Invariant(st: State, user: int, delay: real) {
    && st.log != [] && LogOrdered(st.log, st.now)
    && (forall r :: r in st.fills ==> FillTrue(st.log, user, st.fills[r], st.now) && st.now <= st.fills[r].began + delay)
    && (forall r :: r in st.ready ==> StampTrue(st.log, user, st.ready[r], st.now) && st.now <= st.ready[r].began + delay)
    && (st.cache.Holds? ==> StampTrue(st.log, user, st.cache.entry.value, st.now) &&
                            st.cache.entry.expiresAt <= st.cache.entry.value.began + delay + TTL)
    && (forall i :: 0 <= i < |st.served| ==> ServedFresh(st, user, delay, i))
  }

  /** The i-th summary served is recent: all its parts were read less than the lifetime and the delay before. */
  ghost predicate ServedFresh(st: State, user: int, delay: real, i: nat)
    requires i < |st.served|
  {
    var (t, s) := st.served[i];
    t <= st.now && StampTrue(st.log, user, s, t) && t - TTL - delay < s.began
  }

  /** Later commits and later clocks take nothing back. */
  lemma SeenStays(log: seq<Version>, more: seq<Version>, i: nat, began: real, now: real, later: real)
    requires SeenSince(log, i, began, now) && now <= later
    requires more == log || (|more| == |log| + 1 && log <= more && more[|log|].at >= now)
    ensures SeenSince(more, i, began, later)
  {
    var t :| began <= t <= now && CurrentAt(log, i, t);
    assert CurrentAt(more, i, t);
  }

  lemma ReadingsStay(log: seq<Version>, more: seq<Version>, user: int, idsFrom: nat, counts: seq<Reading>, began: real,
                     now: real, later: real)
    requires ReadingsFrom(log, user, idsFrom, counts, began, now) && now <= later
    requires more == log || (|more| == |log| + 1 && log <= more && more[|log|].at >= now)
    ensures ReadingsFrom(more, user, idsFrom, counts, began, later)
  {
    SeenStays(log, more, idsFrom, began, now, later);
    forall k | 0 <= k < |counts|
      ensures ReadingTrue(more, user, k, counts[k]) && SeenSince(more, counts[k].countFrom, began, later)
    {
      assert ReadingTrue(log, user, k, counts[k]);
      SeenStays(log, more, counts[k].countFrom, began, now, later);
    }
  }

  lemma StampStays(log: seq<Version>, more: seq<Version>, user: int, s: Stamped, now: real, later: real)
    requires StampTrue(log, user, s, now) && now <= later
    requires more == log || (|more| == |log| + 1 && log <= more && more[|log|].at >= now)
    ensures StampTrue(more, user, s, later)
  {
    ReadingsStay(log, more, user, s.idsFrom, s.counts, s.began, now, later);
    var t :| s.began <= t <= now && CurrentAt(log, s.idsFrom, t);
  }

  lemma FillStays(log: seq<Version>, more: seq<Version>, user: int, f: Fill, now: real, later: real)
    requires FillTrue(log, user, f, now) && now <= later
    requires more == log || (|more| == |log| + 1 && log <= more && more[|log|].at >= now)
    ensures FillTrue(more, user, f, later)
  {
    ReadingsStay(log, more, user, f.idsFrom, f.counts, f.began, now, later);
    var t :| f.began <= t <= now && CurrentAt(log, f.idsFrom, t);
  }

  /** A query that runs now sees the latest version, which is current now. */
  lemma LatestIsCurrent(st: State)
    requires st.log != [] && LogOrdered(st.log, st.now)
    ensures SeenSince(st.log, Latest(st), st.now, st.now)
  {
    assert CurrentAt(st.log, Latest(st), st.now);
  }

  lemma CountKeepsFill(st: State, r: int, user: int)
    requires st.log != [] && LogOrdered(st.log, st.now)
    requires r in st.fills && |st.fills[r].counts| < 4 && FillTrue(st.log, user, st.fills[r], st.now)
    ensures FillTrue(st.log, user, Next(st, Count(r), user).fills[r], st.now)
  {
    LatestIsCurrent(st);
    var f, g := st.fills[r], Next(st, Count(r), user).fills[r];
    forall k | 0 <= k < |g.counts|
      ensures g.counts[k].idsFrom == f.idsFrom && ReadingTrue(st.log, user, k, g.counts[k])
      ensures SeenSince(st.log, g.counts[k].countFrom, g.began, st.now)
    {
      if k < |f.counts| {
        assert g.counts[k] == f.counts[k];
      } else {
        var t :| st.now <= t <= st.now && CurrentAt(st.log, Latest(st), t);
        var u :| f.began <= u <= st.now && CurrentAt(st.log, f.idsFrom, u);
      }
    }
  }

  /** Steps that move the clock or the log keep what has been recorded. */
  lemma RecordsStay(st: State, st': State, user: int, delay: real)
    requires Invariant(st, user, delay)
    requires st.now <= st'.now && LogOrdered(st'.log, st'.now)
    requires st'.log == st.log || (|st'.log| == |st.log| + 1 && st.log <= st'.log && st'.log[|st.log|].at >= st.now)
    requires st'.served == st.served
    ensures forall r :: r in st.fills ==> FillTrue(st'.log, user, st.fills[r], st'.now)
    ensures forall r :: r in st.ready ==> StampTrue(st'.log, user, st.ready[r], st'.now)
    ensures st.cache.Holds? ==> StampTrue(st'.log, user, st.cache.entry.value, st'.now)
    ensures forall i :: 0 <= i < |st.served| ==> ServedFresh(st', user, delay, i)
  {
    forall r | r in st.fills ensures FillTrue(st'.log, user, st.fills[r], st'.now) {
      FillStays(st.log, st'.log, user, st.fills[r], st.now, st'.now);
    }
    forall r | r in st.ready ensures StampTrue(st'.log, user, st.ready[r], st'.now) {
      StampStays(st.log, st'.log, user, st.ready[r], st.now, st'.now);
    }
    if st.cache.Holds? {
      StampStays(st.log, st'.log, user, st.cache.entry.value, st.now, st'.now);
    }
    forall i | 0 <= i < |st.served| ensures ServedFresh(st', user, delay, i) {
      assert ServedFresh(st, user, delay, i);
      StampStays(st.log, st'.log, user, st.served[i].1, st.served[i].0, st.served[i].0);
    }
  }

  lemma ServeKeepsServed(st: State, st': State, user: int, delay: real, s: Stamped)
    requires Invariant(st, user, delay)
    requires StampTrue(st.log, user, s, st.now) && st.now - TTL - delay < s.began
    requires st'.log == st.log && st'.now == st.now && st'.served == st.served + [(st.now, s)]
    ensures forall i :: 0 <= i < |st'.served| ==> ServedFresh(st', user, delay, i)
  {
    forall i | 0 <= i < |st'.served| ensures ServedFresh(st', user, delay, i) {
      if i < |st.served| {
        assert ServedFresh(st, user, delay, i);
      }
    }
  }

  lemma FillKeepsInvariant(st: State, step: Step, user: int, delay: real)
    requires Invariant(st, user, delay) && Enabled(st, step, delay) && delay >= 0.0
    requires step.Begin? || step.Count?
    ensures Invariant(Next(st, step, user), user, delay)
  {
    RecordsStay(st, Next(st, step, user), user, delay);
    match step
    case Begin(r) => LatestIsCurrent(st);
    case Count(r) => CountKeepsFill(st, r, user);
  }

  lemma ServeKeepsInvariant(st: State, step: Step, user: int, delay: real)
    requires Invariant(st, user, delay) && Enabled(st, step, delay) && delay >= 0.0
    requires step.StoreAndServe? || step.Hit?
    ensures Invariant(Next(st, step, user), user, delay)
  {
    match step
    case StoreAndServe(r, lost) => ServeKeepsServed(st, Next(st, step, user), user, delay, st.ready[r]);
    case Hit => ServeKeepsServed(st, Next(st, step, user), user, delay, st.cache.entry.value);
  }

  /** Time passing, commits and deletes. */
  lemma WorldKeepsInvariant(st: State, step: Step, user: int, delay: real)
    requires Invariant(st, user, delay) && Enabled(st, step, delay) && delay >= 0.0
    requires step.Tick? || step.Commit? || step.Invalidate?
    ensures Invariant(Next(st, step, user), user, delay)
  {
    RecordsStay(st, Next(st, step, user), user, delay);
  }

  lemma FinishKeepsInvariant(st: State, step: Step, user: int, delay: real)
    requires Invariant(st, user, delay) && Enabled(st, step, delay) && delay >= 0.0 && step.Finish?
    ensures Invariant(Next(st, step, user), user, delay)
  {
    RecordsStay(st, Next(st, step, user), user, delay);
  }

  lemma InvariantKept(st: State, step: Step, user: int, delay: real)
    requires Invariant(st, user, delay) && Enabled(st, step, delay) && delay >= 0.0
    ensures Invariant(Next(st, step, user), user, delay)
  {
    if step.Begin? || step.Count? {
      FillKeepsInvariant(st, step, user, delay);
    } else if step.StoreAndServe? || step.Hit? {
      ServeKeepsInvariant(st, step, user, delay);
    } else if step.Finish? {
      FinishKeepsInvariant(st, step, user, delay);
    } else {
      WorldKeepsInvariant(st, step, user, delay);
    }
  }

  // ----- whole runs -----

  /** A run from a database `db`, an empty cache and nothing under way. */
  function Start(db: Db): State {
    State(0.0, [Version(0.0, db)], map[], map[], Empty, [])
  }

  ghost predicate StepAt(trace: seq<State>, steps: seq<Step>, user: int, delay: real, i: nat)
    requires |trace| == |steps| + 1 && i < |steps|
  {
    Enabled(trace[i], steps[i], delay) && trace[i + 1] == Next(trace[i], steps[i], user)
  }

  ghost predicate Behaviour(trace: seq<State>, steps: seq<Step>, db: Db, user: int, delay: real) {
    && |trace| == |steps| + 1 && trace[0] == Start(db)
    && forall i :: 0 <= i < |steps| ==> StepAt(trace, steps, user, delay, i)
  }

  lemma {:induction false} InvariantAlong(trace: seq<State>, steps: seq<Step>, db: Db, user: int, delay: real, k: nat)
    requires Behaviour(trace, steps, db, user, delay) && delay >= 0.0 && k < |trace|
    ensures Invariant(trace[k], user, delay)
  {
    if k > 0 {
      InvariantAlong(trace, steps, db, user, delay, k - 1);
      assert StepAt(trace, steps, user, delay, k - 1);
      InvariantKept(trace[k - 1], steps[k - 1], user, delay);
    }
  }

  /** Each part of the summary is what its query answers on versions that were current in the last 60 seconds and the delay. */
  ghost predicate Recent(log: seq<Version>, user: int, s: Stamped, t: real, delay: real) {
    && |s.counts| == 4
    && CurrentWithin(log, s.idsFrom, t - 60.0 - delay, t)
    && s.idsFrom < |log| && s.summary.totalProjects == |OwnedProjects(log[s.idsFrom].db, user)|
    && (forall k :: 0 <= k < 4 ==> PartRecent(log, user, s, t, delay, k))
  }

  ghost predicate PartRecent(log: seq<Version>, user: int, s: Stamped, t: real, delay: real, k: nat)
    requires |s.counts| == 4 && k < 4
  {
    && s.counts[k].idsFrom == s.idsFrom && ReadingTrue(log, user, k, s.counts[k])
    && CurrentWithin(log, s.counts[k].countFrom, t - 60.0 - delay, t)
    && Part(s.summary, k) == s.counts[k].count
  }

  function Part(s: Summary, k: nat): nat
    requires k < 4
  {
    if k == 0 then s.totalIssues else if k == 1 then s.completedIssues
    else if k == 2 then s.pendingIssues else s.highPriorityIssues
  }

  /**
   Whatever interleaves and whatever Redis loses, every summary ever served was
   true, part by part, less than a cache lifetime and a fill's delay before.
   */
  lemma ServedSummariesAreRecent(trace: seq<State>, steps: seq<Step>, db: Db, user: int, delay: real, k: nat, i: nat)
    requires Behaviour(trace, steps, db, user, delay) && delay >= 0.0 && k < |trace| && i < |trace[k].served|
    ensures Recent(trace[k].log, user, trace[k].served[i].1, trace[k].served[i].0, delay)
  {
    InvariantAlong(trace, steps, db, user, delay, k);
    var st := trace[k];
    assert ServedFresh(st, user, delay, i);
    var (t, s) := st.served[i];
    SeenIsWithin(st.log, s.idsFrom, s.began, t, t - TTL - delay);
    forall j | 0 <= j < 4 ensures PartRecent(st.log, user, s, t, delay, j) {
      SeenIsWithin(st.log, s.counts[j].countFrom, s.began, t, t - TTL - delay);
    }
  }

  lemma SeenIsWithin(log: seq<Version>, i: nat, began: real, until: real, after: real)
    requires SeenSince(log, i, began, until) && after < began
    ensures CurrentWithin(log, i, after, until)
  {
    var t :| began <= t <= until && CurrentAt(log, i, t);
    assert after < t <= until && CurrentAt(log, i, t);
  }

  // ----- when a summary is one version -----

  lemma StepTaken(trace: seq<State>, steps: seq<Step>, db: Db, user: int, delay: real, i: nat)
    requires Behaviour(trace, steps, db, user, delay) && i < |steps|
    ensures Enabled(trace[i], steps[i], delay) && trace[i + 1] == Next(trace[i], steps[i], user)
  {
    assert StepAt(trace, steps, user, delay, i);
  }

  /** No commit among steps `i` to `j`. */
  ghost predicate NoCommit(steps: seq<Step>, i: int, j: int)
    requires 0 <= i && j <= |steps|
  {
    forall x :: i <= x < j ==> !steps[x].Commit?
  }

  lemma {:induction false} LogNeverEmpty(trace: seq<State>, steps: seq<Step>, db: Db, user: int, delay: real, i: nat)
    requires Behaviour(trace, steps, db, user, delay) && i < |trace|
    ensures trace[i].log != []
  {
    if i > 0 {
      LogNeverEmpty(trace, steps, db, user, delay, i - 1);
      StepTaken(trace, steps, db, user, delay, i - 1);
    }
  }

  /** The log only grows, and stays as long as nothing is committed, no longer. */
  lemma {:induction false} LogGrows(trace: seq<State>, steps: seq<Step>, db: Db, user: int, delay: real, i: nat, j: nat)
    requires Behaviour(trace, steps, db, user, delay) && i <= j < |trace|
    ensures trace[i].log <= trace[j].log && trace[i].log != []
    ensures trace[i].log == trace[j].log <==> NoCommit(steps, i, j)
    decreases j - i
  {
    if i < j {
      LogGrows(trace, steps, db, user, delay, i, j - 1);
      StepTaken(trace, steps, db, user, delay, j - 1);
    } else {
      LogNeverEmpty(trace, steps, db, user, delay, i);
    }
  }

  /** All queries behind the summary met the same version. */
  predicate OneVersion(s: Stamped) {
    |s.counts| == 4 && forall k :: 0 <= k < 4 ==> s.counts[k].countFrom == s.idsFrom
  }

  /** Steps `b`, `e` and `s` are one fill's first query, its last count and its store. */
  ghost predicate FillSpan(trace: seq<State>, steps: seq<Step>, b: int, e: int, s: int, r: int) {
    && 0 <= b < e < s < |steps| < |trace|
    && steps[b] == Begin(r) && (forall i :: b < i < s ==> steps[i] != Begin(r))
    && steps[e] == Count(r) && r in trace[e].fills && |trace[e].fills[r].counts| == 3
    && steps[s].StoreAndServe? && steps[s].reader == r
  }

  /** A fill begun on version `v`: its readings are of versions from `v` to the latest. */
  predicate BegunOn(st: State, r: int, v: nat) {
    && r !in st.ready
    && (r in st.fills ==>
          && st.fills[r].idsFrom == v < |st.log| && |st.fills[r].counts| <= 4
          && forall k :: 0 <= k < |st.fills[r].counts| ==> v <= st.fills[r].counts[k].countFrom < |st.log|)
  }

  lemma BegunStep(st: State, step: Step, user: int, delay: real, r: int, v: nat)
    requires Enabled(st, step, delay) && BegunOn(st, r, v) && step != Begin(r) && step != Finish(r)
    ensures BegunOn(Next(st, step, user), r, v)
  {
  }

  lemma {:induction false} BegunAlong(trace: seq<State>, steps: seq<Step>, db: Db, user: int, delay: real,
                                      b: nat, j: nat, r: int)
    requires Behaviour(trace, steps, db, user, delay) && b < j < |trace|
    requires steps[b] == Begin(r) && forall i :: b < i < j ==> steps[i] != Begin(r)
    ensures trace[b].log != [] && (r in trace[j].fills ==> BegunOn(trace[j], r, |trace[b].log| - 1))
    decreases j
  {
    StepTaken(trace, steps, db, user, delay, j - 1);
    if b < j - 1 {
      BegunAlong(trace, steps, db, user, delay, b, j - 1, r);
      if r in trace[j].fills {
        BegunStep(trace[j - 1], steps[j - 1], user, delay, r, |trace[b].log| - 1);
      }
    }
  }

  /** A fill with all its readings, waiting to finish or to be stored. */
  predicate Settled(st: State, r: int, f: Fill)
    requires |f.counts| == 4
  {
    (r in st.fills ==> st.fills[r] == f) && (r in st.ready ==> st.ready[r] == Assemble(f))
  }

  lemma {:induction false} SettledAlong(trace: seq<State>, steps: seq<Step>, db: Db, user: int, delay: real,
                                        e: nat, j: nat, r: int, f: Fill)
    requires Behaviour(trace, steps, db, user, delay) && e < j < |trace| && |f.counts| == 4
    requires Settled(trace[e + 1], r, f) && forall i :: e < i < j ==> steps[i] != Begin(r)
    ensures Settled(trace[j], r, f)
    decreases j
  {
    if e + 1 < j {
      StepTaken(trace, steps, db, user, delay, j - 1);
      SettledAlong(trace, steps, db, user, delay, e, j - 1, r, f);
    }
  }

  /** The summary a fill stores is one version if and only if nothing was committed between its first query and its last. */
  lemma OneVersionExactly(trace: seq<State>, steps: seq<Step>, db: Db, user: int, delay: real, b: int, e: int, s: int, r: int)
    requires Behaviour(trace, steps, db, user, delay) && FillSpan(trace, steps, b, e, s, r)
    ensures r in trace[s].ready && (OneVersion(trace[s].ready[r]) <==> NoCommit(steps, b, e))
  {
    BegunAlong(trace, steps, db, user, delay, b, e, r);
    LogGrows(trace, steps, db, user, delay, b, e);
    StepTaken(trace, steps, db, user, delay, e);
    StepTaken(trace, steps, db, user, delay, s);
    SettledAlong(trace, steps, db, user, delay, e, s, r, trace[e + 1].fills[r]);
  }

  lemma StampIsSummary(log: seq<Version>, user: int, s: Stamped, now: real)
    requires StampTrue(log, user, s, now) && OneVersion(s)
    ensures s.idsFrom < |log| && s.summary == ComputeSummary(log[s.idsFrom].db, user)
  {
    assert ReadingTrue(log, user, 0, s.counts[0]) && ReadingTrue(log, user, 1, s.counts[1]) &&
           ReadingTrue(log, user, 2, s.counts[2]) && ReadingTrue(log, user, 3, s.counts[3]);
  }

  /**
   When nothing is committed between a fill's first and last query, its summary is,
   whenever it is served, at once or from the cache, the whole summary of one recent
   database.
   */
  lemma UndisturbedFillIsOneVersion(trace: seq<State>, steps: seq<Step>, db: Db, user: int, delay: real,
                                    b: int, e: int, s: int, r: int, k: nat, i: nat)
    requires Behaviour(trace, steps, db, user, delay) && delay >= 0.0
    requires FillSpan(trace, steps, b, e, s, r) && NoCommit(steps, b, e)
    requires k < |trace| && i < |trace[k].served| && r in trace[s].ready && trace[k].served[i].1 == trace[s].ready[r]
    ensures var (t, value) := trace[k].served[i];
            && value.idsFrom < |trace[k].log| && value.summary == ComputeSummary(trace[k].log[value.idsFrom].db, user)
            && CurrentWithin(trace[k].log, value.idsFrom, t - 60.0 - delay, t)
  {
    OneVersionExactly(trace, steps, db, user, delay, b, e, s, r);
    ServedSummariesAreRecent(trace, steps, db, user, delay, k, i);
    InvariantAlong(trace, steps, db, user, delay, k);
    assert ServedFresh(trace[k], user, delay, i);
    StampIsSummary(trace[k].log, user, trace[k].served[i].1, trace[k].served[i].0);
  }

  predicate Torn(s: Summary) {
    s.totalIssues != s.completedIssues + s.pendingIssues
  }

  /** A fill's summary is torn only by a commit between its queries. */
  lemma TornOnlyByACommit(trace: seq<State>, steps: seq<Step>, db: Db, user: int, delay: real, b: int, e: int, s: int, r: int)
    requires Behaviour(trace, steps, db, user, delay) && delay >= 0.0 && FillSpan(trace, steps, b, e, s, r)
    requires r in trace[s].ready && Torn(trace[s].ready[r].summary)
    ensures !NoCommit(steps, b, e)
  {
    OneVersionExactly(trace, steps, db, user, delay, b, e, s, r);
    InvariantAlong(trace, steps, db, user, delay, s);
    var value := trace[s].ready[r];
    if OneVersion(value) {
      StampIsSummary(trace[s].log, user, value, trace[s].now);
      CompletedAndPendingPartition(trace[s].log[value.idsFrom].db, user);
    }
  }

  // ----- when the cache is exact -----

  lemma Extend(trace: seq<State>, steps: seq<Step>, step: Step, st: State, db: Db, user: int, delay: real)
    returns (trace': seq<State>, steps': seq<Step>)
    requires Behaviour(trace, steps, db, user, delay)
    requires Enabled(trace[|trace| - 1], step, delay) && st == Next(trace[|trace| - 1], step, user)
    ensures Behaviour(trace', steps', db, user, delay) && trace < trace' && trace'[|trace'| - 1] == st
    ensures steps' == steps + [step]
  {
    trace', steps' := trace + [st], steps + [step];
    forall i | 0 <= i < |steps'| ensures StepAt(trace', steps', user, delay, i) {
      if i < |steps| {
        assert StepAt(trace, steps, user, delay, i);
      }
    }
  }

  /** What the database says now. */
  function Truth(st: State, user: int): Summary
    requires st.log != []
  {
    ComputeSummary(st.log[Latest(st)].db, user)
  }

  /** One query's answer on `db`, looking in the projects `ids`. */
  function Answer(db: Db, ids: set<int>, k: nat): nat
    requires k < 4
  {
    CountIssues(db, ids, QUERIES[k])
  }

  /** The fill has counted right by `db` so far, and its project list will make it count right to the end. */
  ghost predicate FillRight(db: Db, user: int, f: Fill) {
    && |f.ids| == |OwnedProjects(db, user)|
    && (forall k :: 0 <= k < 4 && k < |f.counts| ==> f.counts[k].count == Answer(db, OwnedProjects(db, user), k))
    && (forall k :: 0 <= k < 4 && k >= |f.counts| ==> Answer(db, f.ids, k) == Answer(db, OwnedProjects(db, user), k))
  }

  /** Every fill under way is right by the latest commit, and so is every summary about to be stored. */
  ghost predicate Harmless(st: State, user: int)
    requires st.log != []
  {
    && (forall r :: r in st.fills ==> |st.fills[r].counts| <= 4 && FillRight(st.log[Latest(st)].db, user, st.fills[r]))
    && (forall r :: r in st.ready ==> st.ready[r].summary == Truth(st, user))
  }

  ghost predicate CacheRight(st: State, user: int) {
    st.log != [] && (st.cache.Holds? ==> st.cache.entry.value.summary == Truth(st, user))
  }

  lemma CountStaysRight(st: State, r: int, user: int)
    requires st.log != [] && r in st.fills && |st.fills[r].counts| < 4
    ensures FillRight(st.log[Latest(st)].db, user, st.fills[r]) <==>
            FillRight(st.log[Latest(st)].db, user, Next(st, Count(r), user).fills[r])
  {
    var db, f, g := st.log[Latest(st)].db, st.fills[r], Next(st, Count(r), user).fills[r];
    var n := |f.counts|;
    assert g.counts[n].count == Answer(db, f.ids, n);
    assert forall k :: 0 <= k < n ==> g.counts[k] == f.counts[k];
    if FillRight(db, user, g) {
      forall k | 0 <= k < 4 && k < n ensures f.counts[k].count == Answer(db, OwnedProjects(db, user), k) {
        assert g.counts[k].count == Answer(db, OwnedProjects(db, user), k);
      }
      assert g.counts[n].count == Answer(db, OwnedProjects(db, user), n);
    }
  }

  lemma AssembledRight(db: Db, user: int, f: Fill)
    requires |f.counts| == 4
    ensures FillRight(db, user, f) <==> Assemble(f).summary == ComputeSummary(db, user)
  {
    var ids := OwnedProjects(db, user);
    assert QUERIES[0] == Every && QUERIES[1] == OnlyDone && QUERIES[2] == OnlyPending && QUERIES[3] == OnlyHigh;
    if Assemble(f).summary == ComputeSummary(db, user) {
      forall k | 0 <= k < 4 ensures f.counts[k].count == Answer(db, ids, k) {
        assert k == 0 || k == 1 || k == 2 || k == 3;
      }
    }
  }

  lemma FillsStayRight(st: State, step: Step, user: int, delay: real, r: int)
    requires Enabled(st, step, delay) && Harmless(st, user) && !step.Commit? && r in Next(st, step, user).fills
    ensures var f := Next(st, step, user).fills[r]; |f.counts| <= 4 && FillRight(st.log[Latest(st)].db, user, f)
  {
    if step == Count(r) {
      CountStaysRight(st, r, user);
    }
  }

  lemma ReadyStaysRight(st: State, step: Step, user: int, delay: real, r: int)
    requires Enabled(st, step, delay) && Harmless(st, user) && !step.Commit? && r in Next(st, step, user).ready
    ensures Next(st, step, user).ready[r].summary == Truth(st, user)
  {
    if step == Finish(r) {
      AssembledRight(st.log[Latest(st)].db, user, st.fills[r]);
    }
  }

  lemma HarmlessStep(st: State, step: Step, user: int, delay: real)
    requires Enabled(st, step, delay) && Harmless(st, user) && CacheRight(st, user) && !step.Commit?
    ensures Next(st, step, user).log == st.log
    ensures Harmless(Next(st, step, user), user) && CacheRight(Next(st, step, user), user)
  {
    var st', db := Next(st, step, user), st.log[Latest(st)].db;
    forall r | r in st'.fills ensures |st'.fills[r].counts| <= 4 && FillRight(db, user, st'.fills[r]) {
      FillsStayRight(st, step, user, delay, r);
    }
    forall r | r in st'.ready ensures st'.ready[r].summary == Truth(st, user) {
      ReadyStaysRight(st, step, user, delay, r);
    }
  }

  lemma {:induction false} HarmlessAlong(trace: seq<State>, steps: seq<Step>, db: Db, user: int, delay: real, d: nat, k: nat)
    requires Behaviour(trace, steps, db, user, delay) && d <= k < |trace| && NoCommit(steps, d, k)
    requires trace[d].log != [] && Harmless(trace[d], user) && CacheRight(trace[d], user)
    ensures trace[k].log == trace[d].log && Harmless(trace[k], user) && CacheRight(trace[k], user)
    decreases k - d
  {
    if d < k {
      HarmlessAlong(trace, steps, db, user, delay, d, k - 1);
      StepTaken(trace, steps, db, user, delay, k - 1);
      HarmlessStep(trace[k - 1], steps[k - 1], user, delay);
    }
  }

  /**
   After a delete that was not lost, as long as nothing is committed, the cached
   summary is what the database says, if all that was under way at the delete was
   right by the database then.
   */
  lemma CacheExactAfterInvalidation(trace: seq<State>, steps: seq<Step>, db: Db, user: int, delay: real, d: nat, k: nat)
    requires Behaviour(trace, steps, db, user, delay) && d < k < |trace| && steps[d] == Invalidate(false)
    requires trace[d].log != [] && Harmless(trace[d], user) && NoCommit(steps, d, k)
    ensures CacheRight(trace[k], user)
  {
    StepTaken(trace, steps, db, user, delay, d);
    HarmlessAlong(trace, steps, db, user, delay, d + 1, k);
  }

  /** All readings made so far met the latest version. */
  predicate UpToDate(idsFrom: nat, counts: seq<Reading>, latest: nat) {
    idsFrom == latest && forall k :: 0 <= k < |counts| ==> counts[k].countFrom == latest
  }

  /** It is enough that nothing under way holds a reading older than the latest commit, as after a quiet moment. */
  lemma FreshIsHarmless(trace: seq<State>, steps: seq<Step>, db: Db, user: int, delay: real, d: nat)
    requires Behaviour(trace, steps, db, user, delay) && delay >= 0.0 && d < |trace| && trace[d].log != []
    requires forall r :: r in trace[d].fills ==> UpToDate(trace[d].fills[r].idsFrom, trace[d].fills[r].counts, Latest(trace[d]))
    requires forall r :: r in trace[d].ready ==> UpToDate(trace[d].ready[r].idsFrom, trace[d].ready[r].counts, Latest(trace[d]))
    ensures Harmless(trace[d], user)
  {
    var st := trace[d];
    InvariantAlong(trace, steps, db, user, delay, d);
    forall r | r in st.fills ensures |st.fills[r].counts| <= 4 && FillRight(st.log[Latest(st)].db, user, st.fills[r]) {
      assert FillTrue(st.log, user, st.fills[r], st.now);
      assert forall k :: 0 <= k < |st.fills[r].counts| ==> ReadingTrue(st.log, user, k, st.fills[r].counts[k]);
    }
    forall r | r in st.ready ensures st.ready[r].summary == Truth(st, user) {
      assert StampTrue(st.log, user, st.ready[r], st.now);
      assert OneVersion(st.ready[r]);
      StampIsSummary(st.log, user, st.ready[r], st.now);
    }
  }

  // ----- and when it can be made wrong -----

  /** The step loses no write to Redis. */
  predicate Lossless(step: Step) {
    (step.Invalidate? ==> !step.lost) && (step.StoreAndServe? ==> !step.lost)
  }

  /** A run goes on from another without a commit or a lost write. */
  ghost predicate Continues(trace: seq<State>, steps: seq<Step>, trace': seq<State>, steps': seq<Step>) {
    && |steps| <= |steps'| && trace <= trace' && steps <= steps' && NoCommit(steps', |steps|, |steps'|)
    && forall i :: |steps| <= i < |steps'| ==> Lossless(steps'[i])
  }

  /** The cache holds a live summary that is not what the database says. */
  predicate CachesWrong(st: State, user: int) {
    st.log != [] && st.cache.Holds? && st.now < st.cache.entry.expiresAt && st.cache.entry.value.summary != Truth(st, user)
  }

  lemma ExtendQuietly(trace: seq<State>, steps: seq<Step>, step: Step, db: Db, user: int, delay: real)
    returns (trace': seq<State>, steps': seq<Step>)
    requires Behaviour(trace, steps, db, user, delay)
    requires Enabled(trace[|trace| - 1], step, delay) && !step.Commit? && Lossless(step)
    ensures Behaviour(trace', steps', db, user, delay) && Continues(trace, steps, trace', steps')
    ensures trace'[|trace'| - 1] == Next(trace[|trace| - 1], step, user)
  {
    trace', steps' := Extend(trace, steps, step, Next(trace[|trace| - 1], step, user), db, user, delay);
  }

  lemma ContinuesOn(t0: seq<State>, s0: seq<Step>, t1: seq<State>, s1: seq<Step>, t2: seq<State>, s2: seq<Step>)
    requires Continues(t0, s0, t1, s1) && Continues(t1, s1, t2, s2)
    ensures Continues(t0, s0, t2, s2)
  {
    forall i | |s0| <= i < |s2| ensures !s2[i].Commit? && Lossless(s2[i]) {
      assert i < |s1| ==> s2[i] == s1[i];
    }
  }

  lemma WrongReadyCanBeCached(trace: seq<State>, steps: seq<Step>, db: Db, user: int, delay: real, r: int)
    returns (trace': seq<State>, steps': seq<Step>)
    requires Behaviour(trace, steps, db, user, delay)
    requires var st := trace[|trace| - 1]; st.log != [] && r in st.ready && st.ready[r].summary != Truth(st, user)
    ensures Behaviour(trace', steps', db, user, delay) && Continues(trace, steps, trace', steps')
    ensures CachesWrong(trace'[|trace'| - 1], user)
  {
    var st := trace[|trace| - 1];
    trace', steps' := ExtendQuietly(trace, steps, StoreAndServe(r, false), db, user, delay);
  }

  lemma {:induction false} WrongFillCanBeCached(trace: seq<State>, steps: seq<Step>, db: Db, user: int, delay: real, r: int)
    returns (trace': seq<State>, steps': seq<Step>)
    requires Behaviour(trace, steps, db, user, delay)
    requires var st := trace[|trace| - 1];
             st.log != [] && r in st.fills && |st.fills[r].counts| <= 4 &&
             !FillRight(st.log[Latest(st)].db, user, st.fills[r])
    ensures Behaviour(trace', steps', db, user, delay) && Continues(trace, steps, trace', steps')
    ensures CachesWrong(trace'[|trace'| - 1], user)
    decreases 4 - |trace[|trace| - 1].fills[r].counts|
  {
    var st := trace[|trace| - 1];
    if |st.fills[r].counts| < 4 {
      CountStaysRight(st, r, user);
      var t, s := ExtendQuietly(trace, steps, Count(r), db, user, delay);
      trace', steps' := WrongFillCanBeCached(t, s, db, user, delay, r);
      ContinuesOn(trace, steps, t, s, trace', steps');
    } else {
      AssembledRight(st.log[Latest(st)].db, user, st.fills[r]);
      var t, s := ExtendQuietly(trace, steps, Finish(r), db, user, delay);
      trace', steps' := WrongReadyCanBeCached(t, s, db, user, delay, r);
      ContinuesOn(trace, steps, t, s, trace', steps');
    }
  }

  ghost predicate FourCounts(st: State) {
    forall r :: r in st.fills ==> |st.fills[r].counts| <= 4
  }

  lemma Culprit(st: State, user: int) returns (r: int, filling: bool)
    requires st.log != [] && !Harmless(st, user) && FourCounts(st)
    ensures if filling then r in st.fills && !FillRight(st.log[Latest(st)].db, user, st.fills[r])
            else r in st.ready && st.ready[r].summary != Truth(st, user)
  {
    if x :| x in st.fills && !FillRight(st.log[Latest(st)].db, user, st.fills[x]) {
      r, filling := x, true;
    } else {
      r :| r in st.ready && st.ready[r].summary != Truth(st, user);
      filling := false;
    }
  }

  lemma FillsHaveFourCounts(trace: seq<State>, steps: seq<Step>, db: Db, user: int, delay: real)
    requires Behaviour(trace, steps, db, user, delay) && delay >= 0.0
    ensures FourCounts(trace[|trace| - 1])
  {
    var st := trace[|trace| - 1];
    InvariantAlong(trace, steps, db, user, delay, |trace| - 1);
    forall r | r in st.fills ensures |st.fills[r].counts| <= 4 {
      assert FillTrue(st.log, user, st.fills[r], st.now);
    }
  }

  /** In any other state the run can go on, committing and losing nothing, until a live entry is wrong. */
  lemma HarmCanBeDone(trace: seq<State>, steps: seq<Step>, db: Db, user: int, delay: real)
    returns (trace': seq<State>, steps': seq<Step>)
    requires Behaviour(trace, steps, db, user, delay) && delay >= 0.0
    requires trace[|trace| - 1].log != [] && !Harmless(trace[|trace| - 1], user)
    ensures Behaviour(trace', steps', db, user, delay) && Continues(trace, steps, trace', steps')
    ensures CachesWrong(trace'[|trace'| - 1], user)
  {
    FillsHaveFourCounts(trace, steps, db, user, delay);
    var r, filling := Culprit(trace[|trace| - 1], user);
    if filling {
      trace', steps' := WrongFillCanBeCached(trace, steps, db, user, delay, r);
    } else {
      trace', steps' := WrongReadyCanBeCached(trace, steps, db, user, delay, r);
    }
  }

  /** Whatever happens next, short of a commit or a lost write, the cache says what the database says. */
  ghost predicate StaysRight(trace: seq<State>, steps: seq<Step>, db: Db, user: int, delay: real)
    requires trace != []
  {
    forall trace', steps' :: Behaviour(trace', steps', db, user, delay) && Continues(trace, steps, trace', steps') ==>
                             CacheRight(trace'[|trace'| - 1], user)
  }

  /**
   The exact condition: a delete that was not lost leaves the cache right until the
   next commit if and only if all that is under way is right by the database.
   */
  lemma InvalidationWorksExactly(trace: seq<State>, steps: seq<Step>, db: Db, user: int, delay: real)
    requires Behaviour(trace, steps, db, user, delay) && delay >= 0.0
    requires steps != [] && steps[|steps| - 1] == Invalidate(false)
    ensures trace[|trace| - 1].log != []
    ensures StaysRight(trace, steps, db, user, delay) <==> Harmless(trace[|trace| - 1], user)
  {
    var d := |trace| - 1;
    LogNeverEmpty(trace, steps, db, user, delay, d);
    StepTaken(trace, steps, db, user, delay, d - 1);
    if Harmless(trace[d], user) {
      forall trace', steps' | Behaviour(trace', steps', db, user, delay) && Continues(trace, steps, trace', steps')
        ensures CacheRight(trace'[|trace'| - 1], user)
      {
        assert trace'[d] == trace[d];
        HarmlessAlong(trace', steps', db, user, delay, d, |trace'| - 1);
      }
    } else {
      var trace', steps' := HarmCanBeDone(trace, steps, db, user, delay);
      assert !CacheRight(trace'[|trace'| - 1], user);
    }
  }

  // ----- what interleaving can do -----

  const NOBODY: Db := Db(map[], map[], map[], map[], map[], map[], map[], Sequences(9, 9, 9, 9, 9, 9, 9))

  /** User 1 owns project 1 with the one issue 1 in the given status. */
  function OneIssue(status: Status): Db {
    NOBODY.(users := map[1 := User("u", "e", Developer)], projects := map[1 := Project("p", None, 1)],
            issues := map[1 := Issue("t", None, Low, status, None, 1, None, 0.0)])
  }

  lemma OneIssueCounts(status: Status)
    ensures OwnedProjects(OneIssue(status), 1) == {1}
    ensures forall f :: CountIssues(OneIssue(status), {1}, f) ==
                        if Selects(f, OneIssue(status).issues[1]) then 1 else 0
  {
    var db := OneIssue(status);
    assert OwnedProjects(db, 1) == {1};
    forall f ensures CountIssues(db, {1}, f) == if Selects(f, db.issues[1]) then 1 else 0 {
      assert Matching(db, {1}, f) == if Selects(f, db.issues[1]) then {1} else {};
    }
  }

  /** Reader 7 at work: versions `log`, and the readings made so far. */
  function Counting(log: seq<Version>, counts: seq<Reading>): State {
    State(0.0, log, map[7 := Fill(0.0, 0, {1}, counts)], map[], Empty, [])
  }

  /** The next reading against the latest version, which shows one issue in `status`. */
  lemma CountStep(log: seq<Version>, counts: seq<Reading>, status: Status, delay: real)
    requires log != [] && log[|log| - 1].db == OneIssue(status) && |counts| < 4
    ensures var found := if Selects(QUERIES[|counts|], OneIssue(status).issues[1]) then 1 else 0;
            && Enabled(Counting(log, counts), Count(7), delay)
            && Next(Counting(log, counts), Count(7), 1) ==
               Counting(log, counts + [Reading(found, 0, |log| - 1)])
  {
    OneIssueCounts(status);
  }

  lemma RunToTwoCounts(delay: real) returns (trace: seq<State>, steps: seq<Step>)
    ensures Behaviour(trace, steps, OneIssue(InProgress), 1, delay)
    ensures trace[|trace| - 1] == Counting([Version(0.0, OneIssue(InProgress))], [Reading(1, 0, 0), Reading(0, 0, 0)])
    ensures forall s :: s in steps ==> !s.Invalidate?
  {
    var db, log := OneIssue(InProgress), [Version(0.0, OneIssue(InProgress))];
    OneIssueCounts(InProgress);
    trace, steps := [Start(db)], [];
    trace, steps := Extend(trace, steps, Begin(7), Counting(log, []), db, 1, delay);
    CountStep(log, [], InProgress, delay);
    assert [] + [Reading(1, 0, 0)] == [Reading(1, 0, 0)];
    trace, steps := Extend(trace, steps, Count(7), Counting(log, [Reading(1, 0, 0)]), db, 1, delay);
    CountStep(log, [Reading(1, 0, 0)], InProgress, delay);
    assert [Reading(1, 0, 0)] + [Reading(0, 0, 0)] == [Reading(1, 0, 0), Reading(0, 0, 0)];
    trace, steps := Extend(trace, steps, Count(7), Counting(log, [Reading(1, 0, 0), Reading(0, 0, 0)]), db, 1, delay);
  }

  /** From four readings to the served and stored summary. */
  lemma RunToServed(trace: seq<State>, steps: seq<Step>, log: seq<Version>, counts: seq<Reading>, db: Db, delay: real)
    returns (trace': seq<State>, steps': seq<Step>)
    requires Behaviour(trace, steps, db, 1, delay) && log != [] && |counts| == 4
    requires trace[|trace| - 1] == Counting(log, counts)
    ensures Behaviour(trace', steps', db, 1, delay)
    ensures steps' == steps + [Finish(7), StoreAndServe(7, false)]
    ensures var value := Assemble(Fill(0.0, 0, {1}, counts));
            trace'[|trace'| - 1] == State(0.0, log, map[], map[], Holds(Cached(value, TTL)), [(0.0, value)])
  {
    var value := Assemble(Fill(0.0, 0, {1}, counts));
    var st := Counting(log, counts);
    var ready := State(0.0, log, map[], map[7 := value], Empty, []);
    assert st.fills - {7} == map[] && ready.ready - {7} == map[];
    trace', steps' := Extend(trace, steps, Finish(7), ready, db, 1, delay);
    trace', steps' := Extend(trace', steps', StoreAndServe(7, false),
                             State(0.0, log, map[], map[], Holds(Cached(value, TTL)), [(0.0, value)]), db, 1, delay);
  }

  /** A run has served a summary whose total is not the sum of completed and pending. */
  ghost predicate ServesTornSummary(trace: seq<State>) {
    exists k, i :: 0 <= k < |trace| && 0 <= i < |trace[k].served| && Torn(trace[k].served[i].1.summary)
  }

  /** Committing between two of a fill's queries can tear the summary: here one issue, neither completed nor pending. */
  lemma SummaryCanBeTorn(delay: real)
    ensures exists trace, steps :: Behaviour(trace, steps, OneIssue(InProgress), 1, delay) && ServesTornSummary(trace)
  {
    var db := OneIssue(InProgress);
    var log := [Version(0.0, db), Version(0.0, OneIssue(Done))];
    var two := [Reading(1, 0, 0), Reading(0, 0, 0)];
    var trace, steps := RunToTwoCounts(delay);
    trace, steps := Extend(trace, steps, Commit(OneIssue(Done)), Counting(log, two), db, 1, delay);
    CountStep(log, two, Done, delay);
    var three := two + [Reading(0, 0, 1)];
    trace, steps := Extend(trace, steps, Count(7), Counting(log, three), db, 1, delay);
    CountStep(log, three, Done, delay);
    var four := three + [Reading(0, 0, 1)];
    trace, steps := Extend(trace, steps, Count(7), Counting(log, four), db, 1, delay);
    trace, steps := RunToServed(trace, steps, log, four, db, delay);
    assert Torn(trace[|trace| - 1].served[0].1.summary);
  }

  /** The cached summary is live, no fill is under way, and it is not what the database says. */
  ghost predicate CachesStaleSummary(st: State) {
    && st.log != [] && st.cache.Holds? && st.now < st.cache.entry.expiresAt && st.fills == map[] && st.ready == map[]
    && st.cache.entry.value.summary != ComputeSummary(st.log[|st.log| - 1].db, 1)
  }

  /** A fill that read before a commit can store after its invalidation: the entry is then wrong, though no delete was lost. */
  lemma FillCanOutliveInvalidation(delay: real)
    ensures exists trace, steps :: Behaviour(trace, steps, OneIssue(InProgress), 1, delay) &&
              Invalidate(false) in steps && Invalidate(true) !in steps && CachesStaleSummary(trace[|trace| - 1])
  {
    var db, done := OneIssue(InProgress), OneIssue(Done);
    var log := [Version(0.0, db), Version(0.0, done)];
    var trace, steps, four := RunToFourCounts(delay);
    trace, steps := Extend(trace, steps, Commit(done), Counting(log, four), db, 1, delay);
    assert !Commit(done).Invalidate?;
    trace, steps := Extend(trace, steps, Invalidate(false), Counting(log, four), db, 1, delay);
    var before := steps;
    assert before[|before| - 1] == Invalidate(false) && Invalidate(true) !in before;
    trace, steps := RunToServed(trace, steps, log, four, db, delay);
    InvalidatedOnce(before, steps);
    OneIssueCounts(Done);
    assert CachesStaleSummary(trace[|trace| - 1]);
  }

  lemma InvalidatedOnce(before: seq<Step>, steps: seq<Step>)
    requires before != [] && before[|before| - 1] == Invalidate(false) && Invalidate(true) !in before
    requires steps == before + [Finish(7), StoreAndServe(7, false)]
    ensures Invalidate(false) in steps && Invalidate(true) !in steps
  {
    assert steps[|before| - 1] == Invalidate(false);
  }

  lemma RunToFourCounts(delay: real) returns (trace: seq<State>, steps: seq<Step>, four: seq<Reading>)
    ensures Behaviour(trace, steps, OneIssue(InProgress), 1, delay)
    ensures four == [Reading(1, 0, 0), Reading(0, 0, 0), Reading(1, 0, 0), Reading(0, 0, 0)]
    ensures trace[|trace| - 1] == Counting([Version(0.0, OneIssue(InProgress))], four)
    ensures forall s :: s in steps ==> !s.Invalidate?
  {
    var db, log := OneIssue(InProgress), [Version(0.0, OneIssue(InProgress))];
    var two := [Reading(1, 0, 0), Reading(0, 0, 0)];
    trace, steps := RunToTwoCounts(delay);
    CountStep(log, two, InProgress, delay);
    var three := two + [Reading(1, 0, 0)];
    trace, steps := Extend(trace, steps, Count(7), Counting(log, three), db, 1, delay);
    CountStep(log, three, InProgress, delay);
    four := three + [Reading(0, 0, 0)];
    trace, steps := Extend(trace, steps, Count(7), Counting(log, four), db, 1, delay);
  }

  /** The last thing served, at moment `t`, is not what the database has said at any moment since zero. */
  ghost predicate ServesOld(trace: seq<State>, t: real) {
    && trace != []
    && var st := trace[|trace| - 1];
       && |st.log| == 2 && st.log[1].at == 0.0 && st.served != []
       && st.served[|st.served| - 1].0 == t
       && st.served[|st.served| - 1].1.summary != ComputeSummary(st.log[1].db, 1)
  }

  lemma RunToLateStore(trace: seq<State>, steps: seq<Step>, log: seq<Version>, counts: seq<Reading>, db: Db, delay: real)
    returns (trace': seq<State>, steps': seq<Step>)
    requires Behaviour(trace, steps, db, 1, delay) && log != [] && |counts| == 4 && delay > 0.0
    requires trace[|trace| - 1] == Counting(log, counts)
    ensures Behaviour(trace', steps', db, 1, delay)
    ensures var value := Assemble(Fill(0.0, 0, {1}, counts));
            trace'[|trace'| - 1] == State(delay, log, map[], map[], Holds(Cached(value, delay + 60.0)), [(delay, value)])
  {
    var fill := Fill(0.0, 0, {1}, counts);
    var value, half := Assemble(fill), delay / 2.0;
    var filled := Counting(log, counts).(now := half);
    trace', steps' := Extend(trace, steps, Tick(half), filled, db, 1, delay);
    var ready := State(half, log, map[], map[7 := value], Empty, []);
    assert filled.fills - {7} == map[] && ready.ready - {7} == map[];
    trace', steps' := Extend(trace', steps', Finish(7), ready, db, 1, delay);
    trace', steps' := Extend(trace', steps', Tick(half), ready.(now := delay), db, 1, delay);
    trace', steps' := Extend(trace', steps', StoreAndServe(7, false),
                             State(delay, log, map[], map[], Holds(Cached(value, delay + 60.0)), [(delay, value)]),
                             db, 1, delay);
  }

  /** The bound cannot be improved: some run serves, as shortly before it as you like, what has not been true since the fill began. */
  lemma BoundIsSharp(delay: real, early: real)
    requires delay > 0.0 && 0.0 < early < 60.0
    ensures exists trace, steps ::
              Behaviour(trace, steps, OneIssue(InProgress), 1, delay) && ServesOld(trace, 60.0 + delay - early)
  {
    var db, done := OneIssue(InProgress), OneIssue(Done);
    var log := [Version(0.0, db), Version(0.0, done)];
    var trace, steps, four := RunToFourCounts(delay);
    trace, steps := Extend(trace, steps, Commit(done), Counting(log, four), db, 1, delay);
    trace, steps := RunToLateStore(trace, steps, log, four, db, delay);
    var value, t := Assemble(Fill(0.0, 0, {1}, four)), 60.0 + delay - early;
    var waited := State(t, log, map[], map[], Holds(Cached(value, delay + 60.0)), [(delay, value)]);
    trace, steps := Extend(trace, steps, Tick(60.0 - early), waited, db, 1, delay);
    trace, steps := Extend(trace, steps, Hit, waited.(served := [(delay, value), (t, value)]), db, 1, delay);
    OneIssueCounts(Done);
    assert ServesOld(trace, t);
  }
}
