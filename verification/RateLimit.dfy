/**
 The fixed-window limiter: counters in Redis that expire, against the plain log
 of requests they stand for.
 */
module RateLimit {
  import Keys

  // ----- windows -----

  /** The aligned window a clock reading falls into. */
  function WindowOf(t: real, seconds: nat): int
    requires seconds > 0
  {
    t.Floor / seconds
  }

  lemma WindowBounds(n: int, seconds: nat)
    requires seconds > 0
    ensures (n / seconds) * seconds <= n < (n / seconds) * seconds + seconds
    ensures n == (n / seconds) * seconds + n % seconds
  {
  }

  lemma WindowUnique(n: int, seconds: nat, k: int)
    requires seconds > 0 && k * seconds <= n < k * seconds + seconds
    ensures n / seconds == k
  {
    WindowBounds(n, seconds);
    var q := n / seconds;
    if q < k {
      LessWindow(q, k, seconds);
    } else if q > k {
      LessWindow(k, q, seconds);
    }
  }

  lemma {:induction false} LessWindow(a: int, b: int, seconds: nat)
    requires a < b
    ensures a * seconds + seconds <= b * seconds
    decreases b - a
  {
    assert (b - 1) * seconds + seconds == b * seconds;
    if a + 1 < b {
      LessWindow(a, b - 1, seconds);
    }
  }

  lemma WindowMonotone(a: int, b: int, seconds: nat)
    requires seconds > 0 && a <= b
    ensures a / seconds <= b / seconds
  {
    WindowBounds(a, seconds);
    WindowBounds(b, seconds);
    if b / seconds < a / seconds {
      LessWindow(b / seconds, a / seconds, seconds);
    }
  }

  /** Two moments of one window are less than a window apart. */
  lemma SameWindowClose(a: real, b: real, seconds: nat)
    requires seconds > 0 && WindowOf(a, seconds) == WindowOf(b, seconds)
    ensures b < a + seconds as real
  {
    WindowBounds(a.Floor, seconds);
    WindowBounds(b.Floor, seconds);
  }

  /** The wait a denied caller is told, from a second reading of the clock. */
  function RetryAfter(clock: real, seconds: nat): int
    requires seconds > 0
  {
    seconds - clock.Floor % seconds
  }

  /** The wait is between one second and a whole window, and ends in a window later than the one that denied the caller. */
  lemma RetryLandsLater(first: real, second: real, seconds: nat)
    requires seconds > 0 && first <= second
    ensures 1 <= RetryAfter(second, seconds) <= seconds
    ensures WindowOf(second + RetryAfter(second, seconds) as real, seconds) == WindowOf(second, seconds) + 1
    ensures WindowOf(second + RetryAfter(second, seconds) as real, seconds) > WindowOf(first, seconds)
  {
    WindowBounds(second.Floor, seconds);
    var r, k := RetryAfter(second, seconds), WindowOf(second, seconds);
    assert (second + r as real).Floor == second.Floor + r;
    assert second.Floor + r == k * seconds + seconds;
    assert (k + 1) * seconds == k * seconds + seconds;
    WindowUnique(second.Floor + r, seconds, k + 1);
    WindowMonotone(first.Floor, second.Floor, seconds);
  }

  // ----- counters -----

  datatype Counter = Counter(count: nat, expiresAt: real)

  type Counters = map<string, Counter>

  function Live(c: Counters, key: string, now: real): nat {
    if key in c && now < c[key].expiresAt then c[key].count else 0
  }

  /** Increment and refresh the lifetime, as one atomic step at `now`. */
  function Bump(c: Counters, key: string, seconds: nat, now: real): Counters {
    c[key := Counter(Live(c, key, now) + 1, now + seconds as real)]
  }

  // ----- the log -----

  /** A request: its limiter key, the window of its first clock reading, and when its pipeline ran. */
  datatype Request = Request(key: string, seconds: nat, window: int, readAt: real, ranAt: real)

  function RedisKey(r: Request): string {
    Keys.WindowKey(r.key, r.window)
  }

  /** Requests in the order Redis ran them; a limiter key always comes with the same window length. */
  ghost predicate Log(log: seq<Request>) {
    && (forall i, j :: 0 <= i < j < |log| ==> log[i].ranAt <= log[j].ranAt)
    && (forall i, j :: 0 <= i < j < |log| && log[i].key == log[j].key ==> log[i].seconds == log[j].seconds)
  }

  /** The window a request names is the one its clock reading falls into. */
  predicate Aligned(r: Request) {
    r.seconds > 0 && r.readAt <= r.ranAt && r.window == WindowOf(r.readAt, r.seconds)
  }

  /** The request's pipeline ran in the window the clock was read in. */
  predicate Prompt(r: Request) {
    Aligned(r) && WindowOf(r.ranAt, r.seconds) == r.window
  }

  function Replay(log: seq<Request>): Counters {
    if log == [] then map[]
    else
      var r := log[|log| - 1];
      Bump(Replay(log[..|log| - 1]), RedisKey(r), r.seconds, r.ranAt)
  }

  lemma ReplayAppend(log: seq<Request>, r: Request)
    ensures Replay(log + [r]) == Bump(Replay(log), RedisKey(r), r.seconds, r.ranAt)
  {
    assert (log + [r])[..|log|] == log;
  }

  predicate InBucket(r: Request, key: string, window: int) {
    r.key == key && r.window == window
  }

  /** How many requests of the log fall into one key's window. */
  function BucketCount(log: seq<Request>, key: string, window: int): nat {
    if log == [] then 0
    else BucketCount(log[..|log| - 1], key, window) + if InBucket(log[|log| - 1], key, window) then 1 else 0
  }

  /** When the last request of the bucket ran; meaningful once there is one. */
  function LastRan(log: seq<Request>, key: string, window: int): real {
    if log == [] then 0.0
    else if InBucket(log[|log| - 1], key, window) then log[|log| - 1].ranAt
    else LastRan(log[..|log| - 1], key, window)
  }

  /** No request of the bucket ran a whole window or more after the one before it. */
  predicate NoGap(log: seq<Request>, key: string, window: int) {
    if log == [] then true
    else
      var before, r := log[..|log| - 1], log[|log| - 1];
      NoGap(before, key, window) &&
      (InBucket(r, key, window) && BucketCount(before, key, window) > 0 ==>
         r.ranAt < LastRan(before, key, window) + r.seconds as real)
  }

  lemma PrefixLog(log: seq<Request>)
    requires Log(log) && log != []
    ensures Log(log[..|log| - 1])
  {
  }

  lemma RedisKeysDistinct(r: Request, key: string, window: int)
    ensures RedisKey(r) == Keys.WindowKey(key, window) <==> InBucket(r, key, window)
  {
    if RedisKey(r) == Keys.WindowKey(key, window) {
      Keys.DecimalInjective(r.window, window);
      Keys.DecimalInjective(window, r.window);
      Keys.SplitAtLastColon(r.key, Keys.Decimal(r.window), key, Keys.Decimal(window));
    }
  }

  /** What the counter of a bucket holds: exactly the log's count as long as there was no gap, and less after one. */
  lemma {:induction false} CounterOfBucket(log: seq<Request>, key: string, window: int, seconds: nat)
    requires Log(log)
    requires forall i :: 0 <= i < |log| && log[i].key == key ==> log[i].seconds == seconds
    ensures var c, n, k := Replay(log), BucketCount(log, key, window), Keys.WindowKey(key, window);
            && (n == 0 <==> k !in c)
            && (n > 0 ==> k in c && c[k].expiresAt == LastRan(log, key, window) + seconds as real)
            && (n > 0 ==> 1 <= c[k].count <= n)
            && (n > 0 ==> (c[k].count == n <==> NoGap(log, key, window)))
    ensures BucketCount(log, key, window) == 0 ==> NoGap(log, key, window)
  {
    if log != [] {
      var before, r := log[..|log| - 1], log[|log| - 1];
      PrefixLog(log);
      CounterOfBucket(before, key, window, seconds);
      RedisKeysDistinct(r, key, window);
    }
  }

  /** The count Redis answers to a request appended to the log. */
  function Answer(log: seq<Request>, r: Request): nat {
    Live(Replay(log), RedisKey(r), r.ranAt) + 1
  }

  /** A request is counted at its true rank in its window exactly when the window has seen no gap. */
  lemma AnswerIsRank(log: seq<Request>, r: Request)
    requires Log(log + [r])
    ensures Answer(log, r) == BucketCount(log, r.key, r.window) + 1 <==> NoGap(log + [r], r.key, r.window)
    ensures Answer(log, r) <= BucketCount(log, r.key, r.window) + 1
  {
    var all := log + [r];
    assert all[|log|] == r && all[..|log|] == log;
    PrefixLog(all);
    forall i | 0 <= i < |log| && log[i].key == r.key ensures log[i].seconds == r.seconds {
      assert all[i] == log[i];
    }
    CounterOfBucket(log, r.key, r.window, r.seconds);
  }

  /** The key's requests are prompt; other keys' may be as late as they like. */
  ghost predicate PromptFor(log: seq<Request>, key: string) {
    forall i :: 0 <= i < |log| && log[i].key == key ==> Prompt(log[i])
  }

  /** The refreshed lifetime never ends inside the counter's own window, so a key's prompt requests leave it no gap. */
  lemma {:induction false} PromptLeavesNoGap(log: seq<Request>, key: string, window: int)
    requires Log(log) && PromptFor(log, key)
    ensures NoGap(log, key, window)
  {
    if log != [] {
      var before, r := log[..|log| - 1], log[|log| - 1];
      PrefixLog(log);
      PromptLeavesNoGap(before, key, window);
      if InBucket(r, key, window) && BucketCount(before, key, window) > 0 {
        var j := LastRanInBucket(before, key, window);
        assert log[j] == before[j] && Prompt(log[j]) && Prompt(r);
        SameWindowClose(before[j].ranAt, r.ranAt, r.seconds);
      }
    }
  }

  lemma {:induction false} LastRanInBucket(log: seq<Request>, key: string, window: int) returns (j: nat)
    requires BucketCount(log, key, window) > 0
    ensures j < |log| && InBucket(log[j], key, window) && log[j].ranAt == LastRan(log, key, window)
  {
    if InBucket(log[|log| - 1], key, window) {
      j := |log| - 1;
    } else {
      j := LastRanInBucket(log[..|log| - 1], key, window);
    }
  }

  /** The answer lets the request through exactly when it is among the first `limit` of its key's window. */
  predicate AdmitsFirst(log: seq<Request>, r: Request, limit: int) {
    Answer(log, r) <= limit <==> BucketCount(log, r.key, r.window) < limit
  }

  /** Whatever the limit, a request is allowed exactly when it is among the first `limit` of its window: if and only if the window has seen no gap. */
  lemma AllowedIsFirstLimit(log: seq<Request>, r: Request)
    requires Log(log + [r])
    ensures NoGap(log + [r], r.key, r.window) <==> forall limit :: AdmitsFirst(log, r, limit)
  {
    AnswerIsRank(log, r);
    if !NoGap(log + [r], r.key, r.window) {
      assert !AdmitsFirst(log, r, Answer(log, r));
    }
  }

  /** So it is when the key's requests are prompt. */
  lemma PromptIsFirstLimit(log: seq<Request>, r: Request, limit: int)
    requires Log(log + [r]) && PromptFor(log + [r], r.key)
    ensures AdmitsFirst(log, r, limit)
  {
    PromptLeavesNoGap(log + [r], r.key, r.window);
    AllowedIsFirstLimit(log, r);
  }

  /** Promptness is needed: a request delayed past its counter's lifetime is counted afresh and let through. */
  lemma LateRequestSlipsThrough()
    ensures var log := [Request("k", 60, 0, 0.0, 0.0), Request("k", 60, 0, 59.0, 59.0)];
            var late := Request("k", 60, 0, 59.5, 119.5);
            && Log(log + [late]) && Aligned(log[0]) && Aligned(log[1]) && Aligned(late)
            && BucketCount(log, "k", 0) == 2 && Answer(log, late) == 1
  {
    var a, b, late := Request("k", 60, 0, 0.0, 0.0), Request("k", 60, 0, 59.0, 59.0), Request("k", 60, 0, 59.5, 119.5);
    assert [a, b][..1] == [a] && [a][..0] == [];
    assert BucketCount([a], "k", 0) == 1;
    assert Live(Replay([a, b]), RedisKey(late), 119.5) == 0;
  }

  // ----- how many requests an interval lets through -----

  /** Requests admitted from the log for one key with first clock reading in `[from, until)`. */
  function Admitted(log: seq<Request>, key: string, limit: int, from: real, until: real): nat {
    if log == [] then 0
    else
      var before, r := log[..|log| - 1], log[|log| - 1];
      Admitted(before, key, limit, from, until) +
      if r.key == key && from <= r.readAt < until && Answer(before, r) <= limit then 1 else 0
  }

  function Smaller(a: int, b: int): int {
    if a < b then a else b
  }

  /** The last request of a log, if its window saw no gap, is answered with its rank there. */
  lemma LastAnswer(log: seq<Request>)
    requires Log(log) && log != [] && NoGap(log, log[|log| - 1].key, log[|log| - 1].window)
    ensures var before, r := log[..|log| - 1], log[|log| - 1];
            Answer(before, r) == BucketCount(before, r.key, r.window) + 1
  {
    var before, r := log[..|log| - 1], log[|log| - 1];
    assert before + [r] == log;
    AnswerIsRank(before, r);
  }

  /** The requests of the key whose first clock reading lies in `[from, until)` name window `k` or the one after. */
  ghost predicate InTwoWindows(log: seq<Request>, key: string, from: real, until: real, k: int) {
    forall i :: 0 <= i < |log| && log[i].key == key && from <= log[i].readAt < until ==>
      log[i].window == k || log[i].window == k + 1
  }

  /** If the interval's requests fall into windows `k` and `k + 1`, each of those admits at most its first `limit`. */
  lemma {:induction false} AdmittedByWindow(log: seq<Request>, key: string, limit: nat, from: real, until: real, k: int)
    requires Log(log) && NoGap(log, key, k) && NoGap(log, key, k + 1) && InTwoWindows(log, key, from, until, k)
    ensures Admitted(log, key, limit, from, until) <=
              Smaller(limit, BucketCount(log, key, k)) + Smaller(limit, BucketCount(log, key, k + 1))
  {
    if log != [] {
      var before, r := log[..|log| - 1], log[|log| - 1];
      PrefixLog(log);
      AdmittedByWindow(before, key, limit, from, until, k);
      if r.key == key && from <= r.readAt < until {
        assert r.window == k || r.window == k + 1;
        LastAnswer(log);
      }
    }
  }

  lemma TwoWindows(from: real, t: real, seconds: nat)
    requires seconds > 0 && from <= t < from + seconds as real
    ensures WindowOf(t, seconds) == WindowOf(from, seconds) || WindowOf(t, seconds) == WindowOf(from, seconds) + 1
  {
    WindowBounds(from.Floor, seconds);
    WindowBounds(t.Floor, seconds);
    assert from.Floor <= t.Floor <= from.Floor + seconds;
    var k := WindowOf(from, seconds);
    assert (k + 1) * seconds == k * seconds + seconds;
    if t.Floor < k * seconds + seconds {
      WindowUnique(t.Floor, seconds, k);
    } else {
      WindowUnique(t.Floor, seconds, k + 1);
    }
  }

  /** The key's requests name the window of their clock reading, all with this window length. */
  ghost predicate AlignedFor(log: seq<Request>, key: string, seconds: nat) {
    forall i :: 0 <= i < |log| && log[i].key == key ==> Aligned(log[i]) && log[i].seconds == seconds
  }

  /** No stretch of one window's length admits more than twice the limit, if the two windows it meets saw no gap. */
  lemma AtMostTwiceTheLimit(log: seq<Request>, key: string, limit: nat, from: real, seconds: nat)
    requires Log(log) && seconds > 0 && AlignedFor(log, key, seconds)
    requires NoGap(log, key, WindowOf(from, seconds)) && NoGap(log, key, WindowOf(from, seconds) + 1)
    ensures Admitted(log, key, limit, from, from + seconds as real) <= 2 * limit
  {
    var k := WindowOf(from, seconds);
    forall i | 0 <= i < |log| && log[i].key == key && from <= log[i].readAt < from + seconds as real
      ensures log[i].window == k || log[i].window == k + 1
    {
      assert Aligned(log[i]);
      TwoWindows(from, log[i].readAt, seconds);
    }
    AdmittedByWindow(log, key, limit, from, from + seconds as real, k);
  }

  /** In particular if the key's requests are prompt. */
  lemma PromptAtMostTwiceTheLimit(log: seq<Request>, key: string, limit: nat, from: real, seconds: nat)
    requires Log(log) && seconds > 0 && AlignedFor(log, key, seconds) && PromptFor(log, key)
    ensures Admitted(log, key, limit, from, from + seconds as real) <= 2 * limit
  {
    PromptLeavesNoGap(log, key, WindowOf(from, seconds));
    PromptLeavesNoGap(log, key, WindowOf(from, seconds) + 1);
    AtMostTwiceTheLimit(log, key, limit, from, seconds);
  }

  lemma AdmittedAppend(log: seq<Request>, r: Request, key: string, limit: int, from: real, until: real)
    ensures Admitted(log + [r], key, limit, from, until) ==
            Admitted(log, key, limit, from, until) +
            if r.key == key && from <= r.readAt < until && Answer(log, r) <= limit then 1 else 0
  {
    assert (log + [r])[..|log|] == log;
  }

  /** A request that runs a whole window after the one before it finds the counter gone. */
  lemma LateIsCountedAfresh(log: seq<Request>, r: Request, late: Request)
    requires late.key == r.key && late.window == r.window && late.ranAt >= r.ranAt + r.seconds as real
    ensures Answer(log + [r], late) == 1
  {
    ReplayAppend(log, r);
  }

  /** A request of the first minute whose pipeline runs `n` minutes later. */
  function Delayed(key: string, n: nat): Request {
    Request(key, 60, 0, 0.0, 60.0 * n as real)
  }

  /** `n` such requests, each a minute behind the one before. */
  function Trickle(key: string, n: nat): seq<Request> {
    if n == 0 then [] else Trickle(key, n - 1) + [Delayed(key, n - 1)]
  }

  lemma {:induction false} TrickleShape(key: string, n: nat)
    ensures |Trickle(key, n)| == n && forall i :: 0 <= i < n ==> Trickle(key, n)[i] == Delayed(key, i)
  {
    if n > 0 {
      TrickleShape(key, n - 1);
    }
  }

  /** They are aligned requests in the order they ran. */
  lemma TrickleIsLog(key: string, n: nat)
    ensures Log(Trickle(key, n)) && AlignedFor(Trickle(key, n), key, 60)
  {
    TrickleShape(key, n);
    var log := Trickle(key, n);
    forall i, j | 0 <= i < j < |log| ensures log[i].ranAt <= log[j].ranAt && log[i].seconds == log[j].seconds {
      assert log[i] == Delayed(key, i) && log[j] == Delayed(key, j);
    }
    forall i | 0 <= i < |log| ensures Aligned(log[i]) && log[i].seconds == 60 {
      assert log[i] == Delayed(key, i);
    }
  }

  lemma TrickleAnswersOne(key: string, n: nat)
    ensures Answer(Trickle(key, n), Delayed(key, n)) == 1
  {
    if n > 0 {
      LateIsCountedAfresh(Trickle(key, n - 1), Delayed(key, n - 1), Delayed(key, n));
    }
  }

  lemma {:induction false} TrickleAdmitted(key: string, n: nat)
    ensures Admitted(Trickle(key, n), key, 1, 0.0, 60.0) == n
  {
    if n > 0 {
      TrickleAdmitted(key, n - 1);
      AdmittedAppend(Trickle(key, n - 1), Delayed(key, n - 1), key, 1, 0.0, 60.0);
      TrickleAnswersOne(key, n - 1);
    }
  }

  /** With gaps there is no bound at all: however many delayed requests of one window, a limit of one admits them all. */
  lemma LateRequestsBreakAnyBound(key: string, n: nat)
    ensures exists log :: Log(log) && AlignedFor(log, key, 60) && |log| == n && Admitted(log, key, 1, 0.0, 60.0) == n
  {
    TrickleShape(key, n);
    TrickleIsLog(key, n);
    TrickleAdmitted(key, n);
  }

  // ----- the limiter -----

  class Limiter {
    var counters: Counters
    ghost var log: seq<Request>

    ghost predicate Valid()
      reads this
    {
      Log(log) && counters == Replay(log)
    }

    constructor ()
      ensures Valid() && log == []
    {
      counters := map[];
      log := [];
    }

    /** One pipeline at `runs`: increment, refresh the lifetime, answer the count. */
    method Pipeline(redisKey: string, seconds: nat, runs: real, ghost r: Request) returns (count: nat)
      requires Valid() && Log(log + [r])
      requires redisKey == RedisKey(r) && seconds == r.seconds && runs == r.ranAt
      modifies this
      ensures Valid() && log == old(log) + [r]
      ensures count == Answer(old(log), r)
    {
      counters := Bump(counters, redisKey, seconds, runs);
      count := counters[redisKey].count;
      ReplayAppend(log, r);
      log := log + [r];
    }

    /**
     `clock`, `runs` and `later` are the first clock reading, the moment the pipeline
     runs, and the second reading. With Redis down the request is let through.
     */
    method IsAllowed(key: string, limit: int, seconds: nat, up: bool, clock: real, runs: real, later: real)
      returns (allowed: bool, retryAfter: int)
      requires Valid() && seconds > 0 && clock <= runs <= later
      requires Log(log + [Request(key, seconds, WindowOf(clock, seconds), clock, runs)])
      modifies this
      ensures Valid()
      ensures !up ==> allowed && log == old(log) && counters == old(counters)
      ensures up ==> log == old(log) + [Request(key, seconds, WindowOf(clock, seconds), clock, runs)]
      ensures up && NoGap(log, key, WindowOf(clock, seconds)) ==>
                (allowed <==> BucketCount(old(log), key, WindowOf(clock, seconds)) < limit)
      ensures allowed ==> retryAfter == 0
      ensures !allowed ==> 1 <= retryAfter <= seconds
      ensures !allowed ==> WindowOf(later + retryAfter as real, seconds) > WindowOf(clock, seconds)
    {
      var window := WindowOf(clock, seconds);
      if !up {
        return true, 0;
      }
      ghost var r := Request(key, seconds, window, clock, runs);
      AnswerIsRank(log, r);
      var count := Pipeline(Keys.WindowKey(key, window), seconds, runs, r);
      if count > limit {
        RetryLandsLater(clock, later, seconds);
        return false, RetryAfter(later, seconds);
      }
      return true, 0;
    }
  }
}
