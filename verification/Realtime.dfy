/**
 Live notifications: service threads commit a row and then schedule a push;
 handlers on the event loop register a socket and then read the backlog. Steps
 of all of them interleave freely.
 */
module Realtime {
  import opened Registry
  import Sets

  /** A notification is named by its place in commit order. */
  type Note = nat

  /** Where a socket's handler stands. `Reading`: the backlog has been read and is being sent. */
  datatype Phase = Accepting | Listed | Reading | Open | Closed

  datatype Conn = Conn(user: int, phase: Phase, dropped: bool, backlog: set<Note>, readAt: nat, pushed: set<Note>)

  /**
   `notes` holds the recipient of each committed notification. A committed
   notification is `unscheduled` until its thread has looked for the event loop,
   then `skipped` or `scheduled`, then in `pushing` with the sockets still to be
   sent to.
   */
  datatype State = State(notes: seq<int>, read: set<Note>, removed: set<Note>, loopSet: bool,
                         unscheduled: set<Note>, skipped: set<Note>, scheduled: set<Note>,
                         pushing: map<Note, set<Socket>>, conns: map<Socket, Conn>, registry: Connections)

  datatype Step =
    | Startup                                         // the application captures the loop
    | Commit(user: int)                               // a thread commits a notification
    | MarkRead(note: Note)
    | Remove(note: Note)                              // a cascade deletes the row
    | CheckLoop(note: Note)                           // the committing thread schedules or skips the push
    | Handshake(socket: Socket, user: int)            // a handler starts: it captures the loop, then authenticates
    | Register(socket: Socket)
    | ReadBacklog(socket: Socket)
    | BacklogSent(socket: Socket, ok: bool)
    | Hangup(socket: Socket)                          // the client goes away; the handler unregisters
    | StartPush(note: Note)                           // the scheduled coroutine takes its snapshot
    | Send(note: Note, socket: Socket, ok: bool)      // one awaited send ends

  const Init := State([], {}, {}, false, {}, {}, {}, map[], map[], map[])

  /** The rows the backlog query returns: the user's unread notifications committed so far. */
  function Unread(st: State, user: int): set<Note> {
    set n: nat | n < |st.notes| && st.notes[n] == user && n !in st.read && n !in st.removed
  }

  /** The handler has registered its socket and neither it nor a failed push has unregistered it. */
  predicate Live(c: Conn) {
    (c.phase == Listed || c.phase == Reading || c.phase == Open) && !c.dropped
  }

  predicate HasRead(c: Conn) {
    c.phase == Reading || c.phase == Open
  }

  predicate Enabled(st: State, step: Step) {
    match step
    case Startup => true
    case Commit(_) => true
    case MarkRead(n) => n < |st.notes|
    case Remove(n) => n < |st.notes|
    case CheckLoop(n) => n in st.unscheduled
    case Handshake(s, _) => s !in st.conns
    case Register(s) => s in st.conns && st.conns[s].phase == Accepting
    case ReadBacklog(s) => s in st.conns && st.conns[s].phase == Listed
    case BacklogSent(s, _) => s in st.conns && st.conns[s].phase == Reading
    case Hangup(s) => s in st.conns && st.conns[s].phase != Closed
    case StartPush(n) => n in st.scheduled && n < |st.notes|
    case Send(n, s, _) => n in st.pushing && n < |st.notes| && s in st.pushing[n] && s in st.conns
  }

  function Close(st: State, s: Socket): State
    requires s in st.conns
  {
    st.(conns := st.conns[s := st.conns[s].(phase := Closed)],
        registry := After(st.registry, Event.Disconnect(st.conns[s].user, s)))
  }

  function Next(st: State, step: Step): State
    requires Enabled(st, step)
  {
    match step
    case Startup => st.(loopSet := true)
    case Commit(user) => st.(notes := st.notes + [user], unscheduled := st.unscheduled + {|st.notes|})
    case MarkRead(n) => st.(read := st.read + {n})
    case Remove(n) => st.(removed := st.removed + {n})
    case CheckLoop(n) =>
      if st.loopSet then st.(unscheduled := st.unscheduled - {n}, scheduled := st.scheduled + {n})
      else st.(unscheduled := st.unscheduled - {n}, skipped := st.skipped + {n})
    case Handshake(s, user) =>
      st.(loopSet := true, conns := st.conns[s := Conn(user, Accepting, false, {}, 0, {})])
    case Register(s) =>
      var c := st.conns[s];
      st.(conns := st.conns[s := c.(phase := Listed)], registry := After(st.registry, Event.Connect(c.user, s)))
    case ReadBacklog(s) =>
      var c := st.conns[s];
      st.(conns := st.conns[s := c.(phase := Reading, backlog := Unread(st, c.user), readAt := |st.notes|)])
    case BacklogSent(s, ok) =>
      if ok then st.(conns := st.conns[s := st.conns[s].(phase := Open)]) else Close(st, s)
    case Hangup(s) => Close(st, s)
    case StartPush(n) =>
      st.(scheduled := st.scheduled - {n}, pushing := st.pushing[n := SocketsOf(st.registry, st.notes[n])])
    case Send(n, s, ok) =>
      var c := st.conns[s];
      var left := st.(pushing := st.pushing[n := st.pushing[n] - {s}]);
      if ok then left.(conns := st.conns[s := c.(pushed := c.pushed + {n})])
      else left.(conns := st.conns[s := c.(dropped := true)],
                 registry := After(st.registry, Event.Disconnect(st.notes[n], s)))
  }

  /** A push of `n` that will still try socket `s` if it is registered when its turn comes. */
  predicate Pending(st: State, n: Note, s: Socket) {
    n in st.unscheduled || n in st.scheduled || (n in st.pushing && s in st.pushing[n])
  }

  // ----- what every interleaving keeps -----

  /** The registry lists exactly the live sockets, each under its own user. */
  ghost predicate RegistryAgrees(st: State) {
    forall user, s :: Registered(st.registry, user, s) <==>
                      (s in st.conns && st.conns[s].user == user && Live(st.conns[s]))
  }

  /** Pushes concern committed notifications and go to sockets of the recipient. */
  ghost predicate PushesAddressed(st: State) {
    PushesCommitted(st) && PushesToRecipients(st) && AcceptingNotDropped(st) && ReceivedAreOwn(st)
  }

  ghost predicate PushesCommitted(st: State) {
    forall n: Note :: n in st.unscheduled || n in st.scheduled || n in st.skipped || n in st.pushing ==> n < |st.notes|
  }

  ghost predicate PushesToRecipients(st: State) {
    forall n: Note, s: Socket :: n in st.pushing && s in st.pushing[n] ==> MaySend(st, n, s)
  }

  predicate MaySend(st: State, n: Note, s: Socket) {
    n < |st.notes| && s in st.conns && st.conns[s].user == st.notes[n] && st.conns[s].phase != Accepting
  }

  ghost predicate AcceptingNotDropped(st: State) {
    forall s :: s in st.conns && st.conns[s].phase == Accepting ==> !st.conns[s].dropped
  }

  ghost predicate ReceivedAreOwn(st: State) {
    forall s: Socket, n: Note :: Received(st, s, n) ==> IsFor(st, n, st.conns[s].user)
  }

  /** The notification was in the socket's backlog or has been pushed to it. */
  predicate Received(st: State, s: Socket, n: Note) {
    s in st.conns && (n in st.conns[s].pushed || n in st.conns[s].backlog)
  }

  /** The notification is committed and addressed to the user. */
  predicate IsFor(st: State, n: Note, user: int) {
    n < |st.notes| && st.notes[n] == user
  }

  /** A handler captures the loop before its socket exists. */
  ghost predicate LoopBeforeSockets(st: State) {
    st.conns != map[] ==> st.loopSet
  }

  /** A live socket that has read its backlog misses nothing committed since. */
  ghost predicate NothingMissed(st: State) {
    forall s, n: nat :: s in st.conns && Live(st.conns[s]) && HasRead(st.conns[s]) &&
                        st.conns[s].readAt <= n < |st.notes| && st.notes[n] == st.conns[s].user ==>
                        n in st.conns[s].pushed || Pending(st, n, s)
  }

  ghost predicate ReadsBounded(st: State) {
    forall s :: s in st.conns ==> st.conns[s].readAt <= |st.notes|
  }

  ghost predicate Invariant(st: State) {
    RegistryAgrees(st) && PushesAddressed(st) && LoopBeforeSockets(st) && NothingMissed(st) && ReadsBounded(st)
  }

  lemma RegistryAgreesKept(st: State, step: Step)
    requires Invariant(st) && Enabled(st, step)
    ensures RegistryAgrees(Next(st, step))
  {
    var st' := Next(st, step);
    forall user, s
      ensures Registered(st'.registry, user, s) <==>
              (s in st'.conns && st'.conns[s].user == user && Live(st'.conns[s]))
    {
      match step {
        case Register(t) => EventTouchesOneSocket(st.registry, Event.Connect(st.conns[t].user, t), user, s);
        case BacklogSent(t, ok) => EventTouchesOneSocket(st.registry, Event.Disconnect(st.conns[t].user, t), user, s);
        case Hangup(t) => EventTouchesOneSocket(st.registry, Event.Disconnect(st.conns[t].user, t), user, s);
        case Send(n, t, ok) => EventTouchesOneSocket(st.registry, Event.Disconnect(st.notes[n], t), user, s);
        case _ =>
      }
    }
  }

  lemma PushesToRecipientsKept(st: State, step: Step)
    requires Invariant(st) && Enabled(st, step)
    ensures PushesToRecipients(Next(st, step))
  {
    var st' := Next(st, step);
    forall n: Note, s: Socket | n in st'.pushing && s in st'.pushing[n] ensures MaySend(st', n, s) {
      if step.StartPush? && step.note == n {
        assert Registered(st.registry, st.notes[n], s);
      } else {
        assert MaySend(st, n, s);
      }
    }
  }

  lemma ReceivedAreOwnKept(st: State, step: Step)
    requires Invariant(st) && Enabled(st, step)
    ensures ReceivedAreOwn(Next(st, step))
  {
    var st' := Next(st, step);
    forall s: Socket, n: Note | Received(st', s, n) ensures IsFor(st', n, st'.conns[s].user) {
      if step.Send? && step.note == n && step.socket == s {
        assert MaySend(st, n, s);
      } else if step.ReadBacklog? && step.socket == s && n in st'.conns[s].backlog {
        assert n in Unread(st, st.conns[s].user);
      } else {
        assert Received(st, s, n);
      }
    }
  }

  lemma PushesAddressedKept(st: State, step: Step)
    requires Invariant(st) && Enabled(st, step)
    ensures PushesCommitted(Next(st, step)) && AcceptingNotDropped(Next(st, step))
  {
  }

  lemma NothingMissedKept(st: State, step: Step)
    requires Invariant(st) && Enabled(st, step)
    ensures NothingMissed(Next(st, step))
  {
    var st' := Next(st, step);
    forall s, n: nat | s in st'.conns && Live(st'.conns[s]) && HasRead(st'.conns[s]) &&
                       st'.conns[s].readAt <= n < |st'.notes| && st'.notes[n] == st'.conns[s].user
      ensures n in st'.conns[s].pushed || Pending(st', n, s)
    {
      if s in st.conns && HasRead(st.conns[s]) && n < |st.notes| {
        assert Live(st.conns[s]);
        assert n in st.conns[s].pushed || Pending(st, n, s);
        if step.StartPush? && step.note == n {
          assert Registered(st.registry, st.conns[s].user, s);
        }
      }
    }
  }

  lemma InvariantKept(st: State, step: Step)
    requires Invariant(st) && Enabled(st, step)
    ensures Invariant(Next(st, step))
  {
    RegistryAgreesKept(st, step);
    PushesAddressedKept(st, step);
    PushesToRecipientsKept(st, step);
    ReceivedAreOwnKept(st, step);
    NothingMissedKept(st, step);
  }

  // ----- whole runs -----

  /** The i-th step is possible and leads to the next state. */
  ghost predicate StepAt(trace: seq<State>, steps: seq<Step>, i: nat)
    requires |trace| == |steps| + 1 && i < |steps|
  {
    Enabled(trace[i], steps[i]) && trace[i + 1] == Next(trace[i], steps[i])
  }

  /** `trace` lists the states an interleaving `steps` goes through. */
  ghost predicate Behaviour(trace: seq<State>, steps: seq<Step>) {
    && |trace| == |steps| + 1
    && trace[0] == Init
    && forall i :: 0 <= i < |steps| ==> StepAt(trace, steps, i)
  }

  lemma {:induction false} InvariantAlong(trace: seq<State>, steps: seq<Step>, k: nat)
    requires Behaviour(trace, steps) && k < |trace|
    ensures Invariant(trace[k])
  {
    if k > 0 {
      InvariantAlong(trace, steps, k - 1);
      assert StepAt(trace, steps, k - 1);
      InvariantKept(trace[k - 1], steps[k - 1]);
    }
  }

  /** The socket read this backlog for this user when `at` notifications were committed. */
  predicate BacklogIs(st: State, s: Socket, user: int, backlog: set<Note>, at: seq<int>) {
    && s in st.conns && st.conns[s].user == user && st.conns[s].backlog == backlog && st.conns[s].readAt == |at|
    && st.conns[s].phase in {Reading, Open, Closed} && at <= st.notes
  }

  lemma BacklogKept(st: State, step: Step, s: Socket, user: int, backlog: set<Note>, at: seq<int>)
    requires Enabled(st, step) && BacklogIs(st, s, user, backlog, at)
    ensures BacklogIs(Next(st, step), s, user, backlog, at)
  {
  }

  /** After a socket has read its backlog, that backlog and the moment of reading stay on record. */
  lemma {:induction false} BacklogStays(trace: seq<State>, steps: seq<Step>, j: nat, k: nat, s: Socket)
    requires Behaviour(trace, steps) && j < k < |trace|
    requires steps[j] == ReadBacklog(s)
    ensures StepAt(trace, steps, j)
    ensures var u := trace[j].conns[s].user; BacklogIs(trace[k], s, u, Unread(trace[j], u), trace[j].notes)
    decreases k
  {
    assert StepAt(trace, steps, j);
    var u := trace[j].conns[s].user;
    if k > j + 1 {
      BacklogStays(trace, steps, j, k - 1, s);
      assert StepAt(trace, steps, k - 1);
      BacklogKept(trace[k - 1], steps[k - 1], s, u, Unread(trace[j], u), trace[j].notes);
    }
  }

  // ----- the same, told by the steps alone -----

  /** How many notifications the steps commit. */
  function Commits(steps: seq<Step>): nat {
    if steps == [] then 0
    else Commits(steps[..|steps| - 1]) + if steps[|steps| - 1].Commit? then 1 else 0
  }

  /** The `i`-th step commits notification `n`, for this user. */
  predicate CommitsAt(steps: seq<Step>, i: nat, n: Note, user: int) {
    i < |steps| && steps[i] == Commit(user) && Commits(steps[..i]) == n
  }

  ghost predicate Committed(steps: seq<Step>, n: Note, user: int) {
    exists i: nat :: CommitsAt(steps, i, n, user)
  }

  /** Some step marks the notification read or removes it. */
  predicate Settled(steps: seq<Step>, n: Note) {
    MarkRead(n) in steps || Remove(n) in steps
  }

  /** The socket has registered, nobody hung up, and nothing sent to it has failed. */
  ghost predicate Connected(steps: seq<Step>, s: Socket) {
    && Register(s) in steps && Hangup(s) !in steps && BacklogSent(s, false) !in steps
    && forall n: Note :: Send(n, s, false) !in steps
  }

  lemma CommitsGrow(steps: seq<Step>, i: nat)
    requires i < |steps| && steps[i].Commit?
    ensures Commits(steps[..i]) < Commits(steps)
    decreases |steps|
  {
    var before := steps[..|steps| - 1];
    if i < |before| {
      assert before[..i] == steps[..i];
      CommitsGrow(before, i);
    } else {
      assert before == steps[..i];
    }
  }

  lemma CommittedExtends(steps: seq<Step>, step: Step, n: Note, user: int)
    ensures Committed(steps + [step], n, user) <==>
            Committed(steps, n, user) || (step == Commit(user) && Commits(steps) == n)
  {
    var longer := steps + [step];
    assert longer[..|steps|] == steps;
    forall i: nat | i < |steps| ensures CommitsAt(longer, i, n, user) <==> CommitsAt(steps, i, n, user) {
      assert longer[..i] == steps[..i];
    }
    if step == Commit(user) && Commits(steps) == n {
      assert CommitsAt(longer, |steps|, n, user);
    }
    if Committed(steps, n, user) {
      var i: nat :| CommitsAt(steps, i, n, user);
      assert CommitsAt(longer, i, n, user);
    }
  }

  /** What the steps say of a notification: who it is for, whether it is read or gone. */
  ghost predicate NoteTold(st: State, steps: seq<Step>, n: Note, user: int) {
    && |st.notes| == Commits(steps)
    && (IsFor(st, n, user) <==> Committed(steps, n, user))
    && (n in st.read || n in st.removed <==> Settled(steps, n))
  }

  lemma NoteToldKept(st: State, steps: seq<Step>, step: Step, n: Note, user: int)
    requires Enabled(st, step) && NoteTold(st, steps, n, user)
    ensures NoteTold(Next(st, step), steps + [step], n, user)
  {
    CommittedExtends(steps, step, n, user);
    assert (steps + [step])[..|steps|] == steps;
  }

  lemma {:induction false} NotesFromSteps(trace: seq<State>, steps: seq<Step>, k: nat, n: Note, user: int)
    requires Behaviour(trace, steps) && k < |trace|
    ensures NoteTold(trace[k], steps[..k], n, user)
  {
    if k > 0 {
      NotesFromSteps(trace, steps, k - 1, n, user);
      assert StepAt(trace, steps, k - 1);
      NoteToldKept(trace[k - 1], steps[..k - 1], steps[k - 1], n, user);
      assert steps[..k] == steps[..k - 1] + [steps[k - 1]];
    }
  }

  /** What the steps say of a socket: whose it is, where its handler stands, what has been pushed to it. */
  ghost predicate SocketTold(st: State, steps: seq<Step>, s: Socket) {
    && (forall user :: Handshake(s, user) in steps <==> s in st.conns && st.conns[s].user == user)
    && (s in st.conns ==> PhaseTold(st.conns[s], steps, s) && PushesTold(st.conns[s], steps, s))
    && (s !in st.conns ==> Untouched(steps, s))
  }

  ghost predicate PhaseTold(c: Conn, steps: seq<Step>, s: Socket) {
    && (c.phase == Closed <==> Hangup(s) in steps || BacklogSent(s, false) in steps)
    && (c.phase == Accepting ==> Register(s) !in steps)
    && (c.phase != Accepting && c.phase != Closed ==> Register(s) in steps)
  }

  ghost predicate PushesTold(c: Conn, steps: seq<Step>, s: Socket) {
    && (forall n: Note :: n in c.pushed <==> Send(n, s, true) in steps)
    && (c.dropped <==> exists n: Note :: Send(n, s, false) in steps)
  }

  /** No step concerns the socket. */
  ghost predicate Untouched(steps: seq<Step>, s: Socket) {
    && Register(s) !in steps && Hangup(s) !in steps && BacklogSent(s, false) !in steps
    && forall n: Note, ok :: Send(n, s, ok) !in steps
  }

  lemma OneMore(steps: seq<Step>, step: Step)
    ensures forall t :: t in steps + [step] <==> t in steps || t == step
  {
  }

  lemma OwnersToldKept(st: State, steps: seq<Step>, step: Step, s: Socket)
    requires Enabled(st, step) && SocketTold(st, steps, s)
    ensures forall user :: Handshake(s, user) in steps + [step] <==>
                           s in Next(st, step).conns && Next(st, step).conns[s].user == user
    ensures s !in Next(st, step).conns ==> s !in st.conns && Untouched(steps + [step], s)
  {
    OneMore(steps, step);
  }

  lemma PhaseToldKept(st: State, steps: seq<Step>, step: Step, s: Socket)
    requires Enabled(st, step) && SocketTold(st, steps, s)
    ensures s in Next(st, step).conns ==> PhaseTold(Next(st, step).conns[s], steps + [step], s)
  {
    OneMore(steps, step);
  }

  lemma PushesToldKept(st: State, steps: seq<Step>, step: Step, s: Socket)
    requires Enabled(st, step) && SocketTold(st, steps, s)
    ensures s in Next(st, step).conns ==> PushesTold(Next(st, step).conns[s], steps + [step], s)
  {
    OneMore(steps, step);
    if step.Send? && step.socket == s {
      assert step == Send(step.note, s, true) || step == Send(step.note, s, false);
    }
  }

  lemma SocketToldKept(st: State, steps: seq<Step>, step: Step, s: Socket)
    requires Enabled(st, step) && SocketTold(st, steps, s)
    ensures SocketTold(Next(st, step), steps + [step], s)
  {
    OwnersToldKept(st, steps, step, s);
    PhaseToldKept(st, steps, step, s);
    PushesToldKept(st, steps, step, s);
  }

  lemma {:induction false} SocketsFromSteps(trace: seq<State>, steps: seq<Step>, k: nat, s: Socket)
    requires Behaviour(trace, steps) && k < |trace|
    ensures SocketTold(trace[k], steps[..k], s)
  {
    if k > 0 {
      SocketsFromSteps(trace, steps, k - 1, s);
      assert StepAt(trace, steps, k - 1);
      SocketToldKept(trace[k - 1], steps[..k - 1], steps[k - 1], s);
      assert steps[..k] == steps[..k - 1] + [steps[k - 1]];
    }
  }

  /** What the steps say of a push: checked for a loop, started, and to whom it has not yet been sent. */
  ghost predicate PushTold(st: State, steps: seq<Step>, n: Note) {
    && (n in st.unscheduled <==> n < |st.notes| && CheckLoop(n) !in steps)
    && (n in st.scheduled || n in st.skipped <==> CheckLoop(n) in steps && StartPush(n) !in steps)
    && !(n in st.scheduled && n in st.skipped)
    && (n in st.pushing <==> StartPush(n) in steps)
    && (n in st.pushing ==> CheckLoop(n) in steps)
    && (forall s: Socket, ok :: Send(n, s, ok) in steps ==> n in st.pushing && s !in st.pushing[n])
  }

  lemma PushToldKept(st: State, steps: seq<Step>, step: Step, n: Note)
    requires Invariant(st) && Enabled(st, step) && PushTold(st, steps, n)
    requires n >= |st.notes| ==> CheckLoop(n) !in steps
    ensures PushTold(Next(st, step), steps + [step], n)
    ensures n >= |Next(st, step).notes| ==> CheckLoop(n) !in steps + [step]
  {
    OneMore(steps, step);
  }

  /** Along every run a push waits, is skipped or scheduled, and runs, as the steps say. */
  lemma {:induction false} PushesFromSteps(trace: seq<State>, steps: seq<Step>, k: nat, n: Note)
    requires Behaviour(trace, steps) && k < |trace|
    ensures PushTold(trace[k], steps[..k], n)
    ensures n >= |trace[k].notes| ==> CheckLoop(n) !in steps[..k]
  {
    if k > 0 {
      PushesFromSteps(trace, steps, k - 1, n);
      InvariantAlong(trace, steps, k - 1);
      assert StepAt(trace, steps, k - 1);
      PushToldKept(trace[k - 1], steps[..k - 1], steps[k - 1], n);
      assert steps[..k] == steps[..k - 1] + [steps[k - 1]];
    }
  }

  /**
   A backlog holds exactly what earlier steps committed for the socket's user and neither
   marked read nor removed.
   */
  lemma BacklogFromSteps(trace: seq<State>, steps: seq<Step>, j: nat, k: nat, s: Socket, user: int, n: Note)
    requires Behaviour(trace, steps) && j < k < |trace|
    requires steps[j] == ReadBacklog(s) && Handshake(s, user) in steps[..k]
    ensures s in trace[k].conns && trace[k].conns[s].user == user
    ensures n in trace[k].conns[s].backlog <==>
            Committed(steps[..j], n, user) && MarkRead(n) !in steps[..j] && Remove(n) !in steps[..j]
  {
    SocketsFromSteps(trace, steps, k, s);
    BacklogStays(trace, steps, j, k, s);
    NotesFromSteps(trace, steps, j, n, user);
  }

  /**
   What a socket that reads its backlog at step `j` is owed by step `k`: what its user had
   unread before step `j`, and what is committed for its user from then on.
   */
  ghost predicate Owed(steps: seq<Step>, j: nat, k: nat, user: int, n: Note)
    requires j <= k <= |steps|
  {
    || (Committed(steps[..j], n, user) && MarkRead(n) !in steps[..j] && Remove(n) !in steps[..j])
    || (Committed(steps[..k], n, user) && !Committed(steps[..j], n, user))
  }

  /** A later notification of the user has a number the backlog query had not yet seen. */
  lemma LaterNotesAreNew(trace: seq<State>, steps: seq<Step>, j: nat, k: nat, user: int, n: Note)
    requires Behaviour(trace, steps) && j <= k < |trace|
    requires Committed(steps[..k], n, user) && !Committed(steps[..j], n, user)
    ensures |trace[j].notes| <= n && IsFor(trace[k], n, user)
  {
    NotesFromSteps(trace, steps, j, n, user);
    NotesFromSteps(trace, steps, k, n, user);
    NotesStay(trace, steps, j, k);
  }

  lemma {:induction false} NotesStay(trace: seq<State>, steps: seq<Step>, j: nat, k: nat)
    requires Behaviour(trace, steps) && j <= k < |trace|
    ensures trace[j].notes <= trace[k].notes
  {
    if j < k {
      NotesStay(trace, steps, j, k - 1);
      assert StepAt(trace, steps, k - 1);
    }
  }

  /**
   No interleaving loses a notification: while a socket stays connected, everything it is
   owed was in its backlog, has been pushed to it, or waits: for its committing thread to
   look for the loop, for its push to start, or for this socket's turn in that push.
   */
  lemma NoLostNotification(trace: seq<State>, steps: seq<Step>, j: nat, k: nat, s: Socket, user: int, n: Note)
    requires Behaviour(trace, steps) && j < k < |trace|
    requires steps[j] == ReadBacklog(s) && Handshake(s, user) in steps[..k]
    requires Connected(steps[..k], s) && Owed(steps, j, k, user, n)
    ensures s in trace[k].conns
    ensures || n in trace[k].conns[s].backlog || Send(n, s, true) in steps[..k]
            || n in trace[k].unscheduled || n in trace[k].scheduled
            || (n in trace[k].pushing && s in trace[k].pushing[n])
  {
    BacklogFromSteps(trace, steps, j, k, s, user, n);
    if !Committed(steps[..j], n, user) {
      SocketsFromSteps(trace, steps, k, s);
      BacklogStays(trace, steps, j, k, s);
      LaterNotesAreNew(trace, steps, j, k, user, n);
      InvariantAlong(trace, steps, k);
    }
  }

  /** Once no push is outstanding, everything owed has arrived. */
  lemma QuietMeansDelivered(trace: seq<State>, steps: seq<Step>, j: nat, k: nat, s: Socket, user: int)
    requires Behaviour(trace, steps) && j < k < |trace|
    requires steps[j] == ReadBacklog(s) && Handshake(s, user) in steps[..k] && Connected(steps[..k], s)
    requires trace[k].unscheduled == {} && trace[k].scheduled == {}
    requires forall n :: n in trace[k].pushing ==> trace[k].pushing[n] == {}
    ensures s in trace[k].conns
    ensures forall n :: Owed(steps, j, k, user, n) ==>
                        n in trace[k].conns[s].backlog || Send(n, s, true) in steps[..k]
  {
    SocketsFromSteps(trace, steps, k, s);
    forall n | Owed(steps, j, k, user, n)
      ensures n in trace[k].conns[s].backlog || Send(n, s, true) in steps[..k]
    {
      NoLostNotification(trace, steps, j, k, s, user, n);
    }
  }

  lemma {:induction false} SkippedBefore(trace: seq<State>, steps: seq<Step>, j: nat, k: nat, s: Socket, n: Note)
    requires Behaviour(trace, steps) && j < k < |trace| && n in trace[k].skipped && steps[j] == ReadBacklog(s)
    ensures n < |trace[j].notes|
    decreases k
  {
    BacklogStays(trace, steps, j, k, s);
    InvariantAlong(trace, steps, k - 1);
    assert StepAt(trace, steps, k - 1);
    if j < k - 1 {
      BacklogStays(trace, steps, j, k - 1, s);
      SkippedBefore(trace, steps, j, k - 1, s, n);
    }
  }

  /** A push skipped for want of a loop was committed before any socket read its backlog, so every backlog covers it. */
  lemma SkippedPushPrecedesEveryRead(trace: seq<State>, steps: seq<Step>, j: nat, k: nat, s: Socket, n: Note)
    requires Behaviour(trace, steps) && j < k < |trace| && n in trace[k].skipped && steps[j] == ReadBacklog(s)
    ensures exists user :: Committed(steps[..j], n, user)
  {
    SkippedBefore(trace, steps, j, k, s, n);
    NotesFromSteps(trace, steps, j, n, trace[j].notes[n]);
  }

  /** No socket is ever sent another user's notification, nor one that was not committed first. */
  lemma NothingSentToStrangers(trace: seq<State>, steps: seq<Step>, k: nat, s: Socket, user: int, n: Note)
    requires Behaviour(trace, steps) && k < |trace| && Handshake(s, user) in steps[..k]
    ensures s in trace[k].conns
    ensures n in trace[k].conns[s].backlog || Send(n, s, true) in steps[..k] ==> Committed(steps[..k], n, user)
  {
    SocketsFromSteps(trace, steps, k, s);
    InvariantAlong(trace, steps, k);
    NotesFromSteps(trace, steps, k, n, user);
    if n in trace[k].conns[s].backlog || Send(n, s, true) in steps[..k] {
      assert Received(trace[k], s, n);
    }
  }

  // ----- what can always still happen -----

  lemma Extend(trace: seq<State>, steps: seq<Step>, step: Step, st: State) returns (trace': seq<State>, steps': seq<Step>)
    requires Behaviour(trace, steps) && Enabled(trace[|trace| - 1], step) && st == Next(trace[|trace| - 1], step)
    ensures trace' == trace + [st] && steps' == steps + [step] && Behaviour(trace', steps')
  {
    trace', steps' := trace + [st], steps + [step];
    forall i | 0 <= i < |steps'| ensures StepAt(trace', steps', i) {
      if i < |steps| {
        assert StepAt(trace, steps, i);
      }
    }
  }

  /** A step that gets a push done: its thread looks for the loop, the push starts, a send succeeds. */
  predicate Delivers(step: Step) {
    step.CheckLoop? || step.StartPush? || (step.Send? && step.ok)
  }

  /** A run goes on from another by nothing but such steps. */
  ghost predicate DeliversOn(steps: seq<Step>, steps': seq<Step>) {
    steps <= steps' && forall i :: |steps| <= i < |steps'| ==> Delivers(steps'[i])
  }

  /** No push is outstanding. */
  predicate Quiet(st: State) {
    st.unscheduled == {} && st.scheduled == {} && forall n :: n in st.pushing ==> st.pushing[n] == {}
  }

  /** The sends that started pushes have yet to make. */
  function Outstanding(st: State): set<(Note, Socket)> {
    set n, s | n in st.pushing && s in st.pushing[n] :: (n, s)
  }

  lemma NextDelivery(st: State) returns (step: Step)
    requires Invariant(st) && !Quiet(st)
    ensures Delivers(step) && Enabled(st, step)
    ensures var st' := Next(st, step);
            || st'.unscheduled < st.unscheduled
            || (st'.unscheduled == st.unscheduled && st'.scheduled < st.scheduled)
            || (st'.unscheduled == st.unscheduled && st'.scheduled == st.scheduled && Outstanding(st') < Outstanding(st))
  {
    if st.unscheduled != {} {
      var n := Sets.Member(st.unscheduled);
      step := CheckLoop(n);
    } else if st.scheduled != {} {
      var n := Sets.Member(st.scheduled);
      step := StartPush(n);
    } else {
      var n :| n in st.pushing && st.pushing[n] != {};
      var s := Sets.Member(st.pushing[n]);
      assert MaySend(st, n, s);
      step := Send(n, s, true);
      assert (n, s) in Outstanding(st) && (n, s) !in Outstanding(Next(st, step));
    }
  }

  /** From every state of every run the outstanding pushes can be completed, one step after another. */
  lemma {:induction false} DeliveryPossible(trace: seq<State>, steps: seq<Step>)
    returns (trace': seq<State>, steps': seq<Step>)
    requires Behaviour(trace, steps)
    ensures Behaviour(trace', steps') && DeliversOn(steps, steps') && Quiet(trace'[|trace'| - 1])
    decreases trace[|trace| - 1].unscheduled, trace[|trace| - 1].scheduled, Outstanding(trace[|trace| - 1])
  {
    var st := trace[|trace| - 1];
    InvariantAlong(trace, steps, |steps|);
    if Quiet(st) {
      trace', steps' := trace, steps;
    } else {
      var step := NextDelivery(st);
      var t, s := Extend(trace, steps, step, Next(st, step));
      trace', steps' := DeliveryPossible(t, s);
      assert steps'[|steps|] == step;
    }
  }

  lemma StaysConnected(steps: seq<Step>, steps': seq<Step>, s: Socket)
    requires DeliversOn(steps, steps') && Connected(steps, s)
    ensures Connected(steps', s)
  {
    assert steps' == steps + steps'[|steps|..];
    forall step | step in steps' ensures step in steps || Delivers(step) {
      var i :| 0 <= i < |steps'| && steps'[i] == step;
      assert i < |steps| ==> steps[i] == step;
    }
    var i :| 0 <= i < |steps| && steps[i] == Register(s);
    assert steps'[i] == Register(s);
  }

  /**
   At any point of any run, whatever is owed to a connected socket can still arrive: some way
   of going on, in which nobody else has to act, ends with all of it in the backlog or sent.
   */
  lemma EverythingOwedCanArrive(trace: seq<State>, steps: seq<Step>, j: nat, s: Socket, user: int)
    returns (trace': seq<State>, steps': seq<Step>)
    requires Behaviour(trace, steps) && j < |steps| && steps[j] == ReadBacklog(s)
    requires Handshake(s, user) in steps && Connected(steps, s)
    ensures Behaviour(trace', steps') && DeliversOn(steps, steps') && s in trace'[|steps'|].conns
    ensures forall n :: Owed(steps', j, |steps'|, user, n) ==>
                        n in trace'[|steps'|].conns[s].backlog || Send(n, s, true) in steps'
  {
    trace', steps' := DeliveryPossible(trace, steps);
    StaysConnected(steps, steps', s);
    var i :| 0 <= i < |steps| && steps[i] == Handshake(s, user);
    assert steps'[i] == Handshake(s, user) && steps'[j] == ReadBacklog(s);
    assert steps'[..|steps'|] == steps';
    QuietMeansDelivered(trace', steps', j, |steps'|, s, user);
  }

  // ----- one whole life of a socket -----

  /** Socket 5 of user 1, its first notification committed before there was a loop. */
  function Life(loopSet: bool, conns: map<Socket, Conn>, registry: Connections): State {
    State([1], {}, {}, loopSet, {}, {0}, {}, map[], conns, registry)
  }

  lemma RunToListed() returns (trace: seq<State>, steps: seq<Step>)
    ensures Behaviour(trace, steps)
    ensures trace[|trace| - 1] == Life(true, map[5 := Conn(1, Listed, false, {}, 0, {})], map[1 := {5}])
  {
    trace, steps := [Init], [];
    trace, steps := Extend(trace, steps, Commit(1), State([1], {}, {}, false, {0}, {}, {}, map[], map[], map[]));
    assert {0} - {0} == {};
    trace, steps := Extend(trace, steps, CheckLoop(0), Life(false, map[], map[]));
    trace, steps := Extend(trace, steps, Startup, Life(true, map[], map[]));
    trace, steps := Extend(trace, steps, Handshake(5, 1), Life(true, map[5 := Conn(1, Accepting, false, {}, 0, {})], map[]));
    assert {} + {5} == {5};
    trace, steps := Extend(trace, steps, Register(5), Life(true, map[5 := Conn(1, Listed, false, {}, 0, {})], map[1 := {5}]));
  }

  lemma RunToBacklog() returns (trace: seq<State>, steps: seq<Step>)
    ensures Behaviour(trace, steps)
    ensures trace[|trace| - 1] == Life(true, map[5 := Conn(1, Open, false, {0}, 1, {})], map[1 := {5}])
  {
    trace, steps := RunToListed();
    assert Unread(trace[|trace| - 1], 1) == {0};
    trace, steps := Extend(trace, steps, ReadBacklog(5), Life(true, map[5 := Conn(1, Reading, false, {0}, 1, {})], map[1 := {5}]));
    trace, steps := Extend(trace, steps, BacklogSent(5, true), Life(true, map[5 := Conn(1, Open, false, {0}, 1, {})], map[1 := {5}]));
  }

  lemma RunToPushed() returns (trace: seq<State>, steps: seq<Step>)
    ensures Behaviour(trace, steps)
    ensures trace[|trace| - 1] == State([1, 1], {}, {}, true, {}, {0}, {}, map[1 := {}],
                                        map[5 := Conn(1, Open, false, {0}, 1, {1})], map[1 := {5}])
  {
    trace, steps := RunToBacklog();
    var conns, registry := map[5 := Conn(1, Open, false, {0}, 1, {})], map[1 := {5}];
    var st := State([1, 1], {}, {}, true, {1}, {0}, {}, map[], conns, registry);
    trace, steps := Extend(trace, steps, Commit(1), st);
    st := st.(unscheduled := {}, scheduled := {1});
    trace, steps := Extend(trace, steps, CheckLoop(1), st);
    st := st.(scheduled := {}, pushing := map[1 := {5}]);
    trace, steps := Extend(trace, steps, StartPush(1), st);
    assert st.pushing[1] - {5} == {} && st.conns[5].pushed + {1} == {1};
    st := st.(pushing := map[1 := {}], conns := map[5 := Conn(1, Open, false, {0}, 1, {1})]);
    trace, steps := Extend(trace, steps, Send(1, 5, true), st);
  }

  /** The socket was sent one notification in its backlog and one by a push, and is gone; one was read, one removed. */
  ghost predicate WholeLife(trace: seq<State>) {
    && trace != []
    && var st := trace[|trace| - 1];
       && 5 in st.conns && st.conns[5] == Conn(1, Closed, false, {0}, 1, {1})
       && st.read == {0} && st.removed == {1} && st.skipped == {0} && st.registry == map[]
  }

  /** A run in which a notification reaches a socket by its backlog, the next by a push, both are then settled, and it hangs up. */
  lemma OneLife()
    ensures exists trace, steps :: Behaviour(trace, steps) && WholeLife(trace)
  {
    var trace, steps := RunToPushed();
    var st := trace[|trace| - 1];
    st := st.(read := {0});
    trace, steps := Extend(trace, steps, MarkRead(0), st);
    st := st.(removed := {1});
    trace, steps := Extend(trace, steps, Remove(1), st);
    assert st.registry - {1} == map[];
    st := st.(conns := map[5 := Conn(1, Closed, false, {0}, 1, {1})], registry := map[]);
    trace, steps := Extend(trace, steps, Hangup(5), st);
    assert WholeLife(trace);
  }
}
