/**
 The Redis keys the application builds, and why no two of them meet.
 */
module Keys {

  function Digit(d: nat): char
    requires d < 10
  {
    ('0' as int + d) as char
  }

  function Digits(n: nat): string {
    if n < 10 then [Digit(n)] else Digits(n / 10) + [Digit(n % 10)]
  }

  /** How an integer prints inside a key. */
  function Decimal(n: int): string {
    if n < 0 then "-" + Digits(-n) else Digits(n)
  }

  function ValueOf(s: string): int {
    if s == [] then 0 else 10 * ValueOf(s[..|s| - 1]) + (s[|s| - 1] as int - '0' as int)
  }

  predicate IsDigit(c: char) {
    '0' <= c <= '9'
  }

  lemma {:induction false} DigitsReadBack(n: nat)
    ensures Digits(n) != [] && ValueOf(Digits(n)) == n && Digits(n)[0] != '-'
    ensures forall c :: c in Digits(n) ==> IsDigit(c)
  {
    if n < 10 {
      assert Digits(n)[..0] == [];
    } else {
      DigitsReadBack(n / 10);
      var s := Digits(n);
      assert s[..|s| - 1] == Digits(n / 10);
      assert s[0] == Digits(n / 10)[0];
    }
  }

  /** Printed integers are distinct and hold no colon. */
  lemma {:induction false} DecimalInjective(a: int, b: int)
    ensures Decimal(a) == Decimal(b) <==> a == b
    ensures ':' !in Decimal(a)
  {
    DigitsReadBack(if a < 0 then -a else a);
    DigitsReadBack(if b < 0 then -b else b);
    assert a < 0 <==> Decimal(a)[0] == '-';
    assert b < 0 <==> Decimal(b)[0] == '-';
    assert a < 0 ==> Decimal(a)[1..] == Digits(-a);
    assert b < 0 ==> Decimal(b)[1..] == Digits(-b);
  }

  // ----- the keys -----

  const DEAD_LETTER_KEY := "devtrack:dead_letter:export_jobs"

  function DashboardKey(userId: int): string {
    "dashboard:summary:" + Decimal(userId)
  }

  /** Who a limit counts: a client address (or "unknown"), or a signed-in user. */
  datatype Subject = ClientIp(host: string) | UserId(id: int)

  function SubjectText(s: Subject): string {
    match s
    case ClientIp(host) => "ip" + (":" + host)
    case UserId(id) => "user" + (":" + Decimal(id))
  }

  /** The key a dependency hands to the limiter. */
  function LimiterKey(action: string, subject: Subject): string {
    "ratelimit" + (":" + (action + (":" + SubjectText(subject))))
  }

  /** The key of one fixed window's counter. */
  function WindowKey(key: string, window: int): string {
    key + (":" + Decimal(window))
  }

  lemma FirstColon(s: string, a: string, x: string)
    requires s == a + (":" + x) && ':' !in a
    ensures |a| < |s| && s[|a|] == ':' && s[..|a|] == a && s[|a| + 1..] == x
    ensures forall i :: 0 <= i < |a| ==> s[i] != ':'
  {
  }

  lemma SplitAtFirstColon(a: string, x: string, b: string, y: string)
    requires ':' !in a && ':' !in b
    requires a + (":" + x) == b + (":" + y)
    ensures a == b && x == y
  {
    var s := a + (":" + x);
    FirstColon(s, a, x);
    FirstColon(s, b, y);
  }

  lemma LastColon(s: string, x: string, a: string)
    requires s == x + (":" + a) && ':' !in a
    ensures |x| < |s| && s[|x|] == ':' && s[..|x|] == x && s[|x| + 1..] == a
    ensures forall i :: |x| < i < |s| ==> s[i] != ':'
  {
  }

  lemma SplitAtLastColon(x: string, a: string, y: string, b: string)
    requires ':' !in a && ':' !in b
    requires x + (":" + a) == y + (":" + b)
    ensures a == b && x == y
  {
    var s := x + (":" + a);
    LastColon(s, x, a);
    LastColon(s, y, b);
  }

  lemma SubjectTextInjective(s: Subject, t: Subject)
    requires SubjectText(s) == SubjectText(t)
    ensures s == t
  {
    var a, x := if s.ClientIp? then "ip" else "user", if s.ClientIp? then s.host else Decimal(s.id);
    var b, y := if t.ClientIp? then "ip" else "user", if t.ClientIp? then t.host else Decimal(t.id);
    SplitAtFirstColon(a, x, b, y);
    assert |a| == |b|;
    if s.UserId? {
      DecimalInjective(s.id, t.id);
    }
  }

  /** Counters of different (action, subject, window) never share a key, even when an address holds colons. */
  lemma LimiterKeysDistinct(action: string, s: Subject, w: int, action': string, s': Subject, w': int)
    requires ':' !in action && ':' !in action'
    ensures WindowKey(LimiterKey(action, s), w) == WindowKey(LimiterKey(action', s'), w') <==>
            action == action' && s == s' && w == w'
  {
    if WindowKey(LimiterKey(action, s), w) == WindowKey(LimiterKey(action', s'), w') {
      DecimalInjective(w, w');
      DecimalInjective(w', w);
      SplitAtLastColon(LimiterKey(action, s), Decimal(w), LimiterKey(action', s'), Decimal(w'));
      SplitAtFirstColon("ratelimit", action + (":" + SubjectText(s)), "ratelimit", action' + (":" + SubjectText(s')));
      SplitAtFirstColon(action, SubjectText(s), action', SubjectText(s'));
      SubjectTextInjective(s, s');
    }
  }

  /** A colon in an action lets two different limits share a key, for any action, address part and address. */
  lemma ColonInActionCollides(action: string, part: string, host: string)
    ensures LimiterKey(action + (":ip:" + part), ClientIp(host)) == LimiterKey(action, ClientIp(part + (":ip:" + host)))
  {
    Regroup(action, ":ip:" + part, ":" + ("ip" + (":" + host)));
    Regroup(":ip:", part, ":" + ("ip" + (":" + host)));
    assert ":" + ("ip" + (":" + host)) == ":ip:" + host;
    assert ":" + ("ip" + (":" + (part + (":ip:" + host)))) == ":ip:" + (part + (":ip:" + host));
  }

  lemma Regroup(a: string, b: string, c: string)
    ensures (a + b) + c == a + (b + c)
  {
  }

  lemma DashboardKeysDistinct(u: int, v: int)
    ensures DashboardKey(u) == DashboardKey(v) <==> u == v
  {
    DecimalInjective(u, v);
    var n := |"dashboard:summary:"|;
    assert DashboardKey(u)[n..] == Decimal(u) && DashboardKey(v)[n..] == Decimal(v);
  }

  /** The three families of keys are disjoint, so each can be read as a keyspace of its own. */
  lemma KeyFamiliesDisjoint(action: string, s: Subject, w: int, u: int)
    ensures WindowKey(LimiterKey(action, s), w) != DashboardKey(u)
    ensures WindowKey(LimiterKey(action, s), w) != DEAD_LETTER_KEY
    ensures DashboardKey(u) != DEAD_LETTER_KEY
  {
    assert WindowKey(LimiterKey(action, s), w)[0] == 'r';
    assert DashboardKey(u)[0] == 'd' && DEAD_LETTER_KEY[0] == 'd';
    assert DashboardKey(u)[1] == 'a' && DEAD_LETTER_KEY[1] == 'e';
  }
}
