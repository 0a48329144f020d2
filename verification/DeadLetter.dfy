/**
 The capped, expiring dead-letter list against the history of pushes it stands for.
 */
module DeadLetter {

  const TTL: real := 604800.0  // seven days

  const MAX_ENTRIES: nat := 500

  /** A pushed payload with the time it was stamped. */
  datatype Entry = Entry(payload: map<string, string>, at: real)

  /** A list element as Redis holds it: the encoding of an entry, or text that does not decode. */
  datatype Raw = Json(entry: Entry) | Other(text: string)

  datatype Shown = Parsed(entry: Entry) | Unparseable(text: string)

  function Decode(raw: Raw): Shown {
    match raw
    case Json(e) => Parsed(e)
    case Other(t) => Unparseable(if |t| <= 500 then t else t[..500])
  }

  // ----- the history -----

  /** What can change the list: a successful push, of this program or another that shares the key, or an operator's clear. */
  datatype Event = Pushed(raw: Raw, at: real) | Cleared(at: real)

  function When(e: Event): real {
    e.at
  }

  ghost predicate Ordered(history: seq<Event>) {
    forall i, j :: 0 <= i < j < |history| ==> When(history[i]) <= When(history[j])
  }

  /** The first event still on the list at `now`: after the last clear and the last seven days without a push. */
  function Since(history: seq<Event>, now: real): (start: nat)
    ensures start <= |history|
  {
    if history == [] then 0
    else
      var last := history[|history| - 1];
      if last.Cleared? || now >= When(last) + TTL then |history| else Since(history[..|history| - 1], When(last))
  }

  /** The events from `k` on are pushes, each within seven days of the one before, the last within seven days of `now`. */
  ghost predicate Unbroken(history: seq<Event>, k: nat, now: real) {
    && (forall i :: k <= i < |history| ==> history[i].Pushed?)
    && (forall i :: k <= i < |history| - 1 ==> When(history[i + 1]) < When(history[i]) + 604800.0)
    && (k < |history| ==> now < When(history[|history| - 1]) + 604800.0)
  }

  lemma BrokenAtTheEnd(history: seq<Event>, now: real)
    requires history != []
    requires history[|history| - 1].Cleared? || now >= When(history[|history| - 1]) + TTL
    ensures forall k :: 0 <= k <= |history| && Unbroken(history, k, now) ==> k == |history|
  {
  }

  /** `Since` finds the longest unbroken run of pushes up to `now`. */
  lemma {:induction false} SinceIsLongestRun(history: seq<Event>, now: real)
    ensures Unbroken(history, Since(history, now), now)
    ensures forall k :: 0 <= k <= |history| && Unbroken(history, k, now) ==> Since(history, now) <= k
  {
    if history != [] {
      var before, last := history[..|history| - 1], history[|history| - 1];
      if last.Pushed? && now < When(last) + TTL {
        SinceIsLongestRun(before, When(last));
        forall k | 0 <= k <= |history| && Unbroken(history, k, now) ensures Since(history, now) <= k {
          if k < |history| {
            assert Unbroken(before, k, When(last)) by {
              assert k < |before| ==> When(history[|before| - 1 + 1]) < When(history[|before| - 1]) + TTL;
            }
          }
        }
        var s := Since(before, When(last));
        forall i | s <= i < |history| - 1 ensures When(history[i + 1]) < When(history[i]) + TTL {
          if i < |before| - 1 {
            assert When(before[i + 1]) < When(before[i]) + TTL;
          }
        }
      } else {
        BrokenAtTheEnd(history, now);
      }
    }
  }

  function Kept(history: seq<Event>, now: real): nat {
    var n := |history| - Since(history, now);
    if n < MAX_ENTRIES then n else MAX_ENTRIES
  }

  /** The list is as long as that run, up to 500 entries. */
  lemma KeptIsLongestRun(history: seq<Event>, now: real, k: nat)
    requires k <= |history| && Unbroken(history, k, now)
    requires forall m :: 0 <= m <= |history| && Unbroken(history, m, now) ==> k <= m
    ensures Kept(history, now) == if |history| - k <= 500 then |history| - k else 500
  {
    SinceIsLongestRun(history, now);
  }

  /** The list element is the push that lies `k` events before the last. */
  predicate Holds(raw: Raw, history: seq<Event>, k: nat)
    requires k < |history|
  {
    history[|history| - 1 - k].Pushed? && raw == history[|history| - 1 - k].raw
  }

  /** The same, decoded for an operator: an entry as it was pushed, or the first 500 characters of a text that is none. */
  predicate Shows(shown: Shown, history: seq<Event>, k: nat)
    requires k < |history|
  {
    history[|history| - 1 - k].Pushed? &&
    match history[|history| - 1 - k].raw
    case Json(entry) => shown == Parsed(entry)
    case Other(text) => shown.Unparseable? && shown.text <= text && |shown.text| == if |text| < 500 then |text| else 500
  }

  /** `list` is the newest at most 500 surviving pushes, newest first. */
  ghost predicate IsNewestFirst(list: seq<Raw>, history: seq<Event>, now: real) {
    && |list| == Kept(history, now)
    && forall k :: 0 <= k < |list| ==> Holds(list[k], history, k)
  }

  /** The history leaves the list no choice. */
  lemma NewestFirstUnique(a: seq<Raw>, b: seq<Raw>, history: seq<Event>, now: real)
    requires IsNewestFirst(a, history, now) && IsNewestFirst(b, history, now)
    ensures a == b
  {
    forall k | 0 <= k < |a| ensures a[k] == b[k] {
      assert Holds(a[k], history, k) && Holds(b[k], history, k);
    }
  }

  /** Without a push or a clear the list neither grows nor shrinks until it is seven days old. */
  lemma ExpiresOnlyAfterSevenQuietDays(history: seq<Event>, now: real, later: real)
    requires history != [] && history[|history| - 1].Pushed? && When(history[|history| - 1]) <= now <= later
    ensures later < When(history[|history| - 1]) + 604800.0 ==> Since(history, later) == Since(history, now) < |history|
    ensures later >= When(history[|history| - 1]) + 604800.0 ==> Kept(history, later) == 0
  {
  }

  // ----- the list -----

  datatype Stored = Absent | Present(items: seq<Raw>, expiresAt: real)

  function ItemsAt(s: Stored, now: real): seq<Raw> {
    if s.Present? && now < s.expiresAt then s.items else []
  }

  function Take<T>(s: seq<T>, n: nat): seq<T> {
    if |s| <= n then s else s[..n]
  }

  function Max(a: int, b: int): int {
    if a > b then a else b
  }

  /** How many entries a peek asks for: the range is inclusive and its end never below zero. */
  function Asked(limit: int): nat {
    Max(limit - 1, 0) + 1
  }

  /** How many of the entries there are a peek shows: at most `limit`, and one for a limit below one. */
  predicate Peeked(limit: int, available: nat, shown: nat) {
    && (limit >= 1 ==> shown == if limit <= available then limit else available)
    && (limit <= 0 ==> shown == if available > 0 then 1 else 0)
  }

  /** A peek shows at most `limit` entries exactly when `limit` is positive or the list is empty: asking for none shows one. */
  lemma PeekRespectsPositiveLimits(limit: int, available: nat, shown: nat)
    requires Peeked(limit, available, shown)
    ensures shown <= Max(limit, 0) <==> limit >= 1 || available == 0
  {
  }

  /** What a history of pushes and clears leaves in Redis. */
  ghost predicate Results(history: seq<Event>, stored: Stored) {
    && Ordered(history)
    && (history == [] ==> stored == Absent)
    && (history != [] && history[|history| - 1].Cleared? ==> stored == Absent)
    && (history != [] && history[|history| - 1].Pushed? ==>
          var at := When(history[|history| - 1]);
          stored.Present? && stored.expiresAt == at + TTL && IsNewestFirst(stored.items, history, at))
  }

  class DeadLetterList {
    var stored: Stored
    ghost var history: seq<Event>

    ghost predicate Valid()
      reads this
    {
      Results(history, stored)
    }

    /** No event of the history lies after `now`. */
    ghost predicate UpTo(now: real)
      reads this
    {
      history != [] ==> When(history[|history| - 1]) <= now
    }

    /** A process finds the list as earlier ones left it. */
    constructor (found: Stored, ghost past: seq<Event>)
      requires Results(past, found)
      ensures Valid() && history == past && stored == found
    {
      stored := found;
      history := past;
    }

    lemma ListIsHistory(now: real)
      requires Valid() && UpTo(now)
      ensures IsNewestFirst(ItemsAt(stored, now), history, now)
    {
    }

    /** Push, trim and refresh the lifetime as one step. A push that fails leaves everything as it was. */
    method Push(payload: map<string, string>, now: real, up: bool, encodable: bool) returns (pushed: bool)
      requires Valid() && UpTo(now)
      modifies this
      ensures Valid() && UpTo(now)
      ensures pushed <==> up && encodable
      ensures pushed ==> history == old(history) + [Pushed(Json(Entry(payload, now)), now)]
      ensures !pushed ==> history == old(history) && stored == old(stored)
    {
      if !up || !encodable {
        return false;
      }
      var entry := Entry(payload, now);
      ListIsHistory(now);
      ghost var kept := ItemsAt(stored, now);
      var items := [Json(entry)] + ItemsAt(stored, now);
      stored := Present(Take(items, MAX_ENTRIES), now + TTL);
      ghost var before := history;
      history := history + [Pushed(Json(entry), now)];
      assert history[..|before|] == before && When(history[|before|]) == now;
      assert Since(history, now) == Since(before, now);
      forall k | 0 <= k < |stored.items| ensures Holds(stored.items[k], history, k) {
        if k > 0 {
          assert items[k] == kept[k - 1];
        }
      }
      return true;
    }

    /** The newest entries, decoded one by one; nothing when Redis is down. */
    method Peek(limit: int, now: real, up: bool) returns (out: seq<Shown>)
      requires Valid() && UpTo(now)
      ensures !up ==> out == []
      ensures up ==> Peeked(limit, Kept(history, now), |out|)
      ensures |out| <= |history| && forall k :: 0 <= k < |out| ==> Shows(out[k], history, k)
    {
      out := [];
      if !up {
        return;
      }
      ListIsHistory(now);
      var raw := Take(ItemsAt(stored, now), Asked(limit));
      assert forall k :: 0 <= k < |raw| ==> raw[k] == ItemsAt(stored, now)[k];
      for k := 0 to |raw|
        invariant |out| == k
        invariant forall j :: 0 <= j < k ==> out[j] == Decode(raw[j])
      {
        out := out + [Decode(raw[k])];
      }
      forall k | 0 <= k < |out| ensures Shows(out[k], history, k) {
        assert Holds(raw[k], history, k);
      }
    }

    /** The length, or -1 when Redis is down. */
    method Count(now: real, up: bool) returns (n: int)
      requires Valid() && UpTo(now)
      ensures n == if up then Kept(history, now) else -1
      ensures n <= MAX_ENTRIES
    {
      ListIsHistory(now);
      n := if up then |ItemsAt(stored, now)| else -1;
    }

    /** Drop the list, answering whether there was one. */
    method Clear(now: real, up: bool) returns (had: bool)
      requires Valid() && UpTo(now)
      modifies this
      ensures Valid() && UpTo(now)
      ensures had <==> up && old(Kept(history, now)) > 0
      ensures history == if up then old(history) + [Cleared(now)] else old(history)
      ensures up ==> Kept(history, now) == 0
    {
      if !up {
        return false;
      }
      ListIsHistory(now);
      had := stored.Present? && now < stored.expiresAt;
      stored := Absent;
      history := history + [Cleared(now)];
    }
  }
}
