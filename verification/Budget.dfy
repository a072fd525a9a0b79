/** The per-source rate-limit budget (internal/infrastructure/queue/budget.go).

Redis is a map from keys to counters with an expiry, and one clock drives both
Redis and the workers. Computing the key and running the Lua script form one
step, as the scripts are atomic. Times are nanoseconds since the Unix epoch. */
module Budget {
  import opened Prelude
  import opened Digits

  const MILLI: int := 1_000_000
  /** From January 1 of year 1, the zero of time.Truncate, to the Unix epoch. */
  const EPOCH_OFFSET: int := 62_135_596_800 * SECOND

  datatype BudgetPolicy = BudgetPolicy(window: int, limit: int)
  {
    predicate IsZero() { window == 0 && limit == 0 }
  }

  datatype Config = Config(keyPrefix: string, policies: map<string, BudgetPolicy>)

  /** policyFor: None means the source is unlimited. */
  function PolicyFor(cfg: Config, sid: string): Option<BudgetPolicy> {
    if sid !in cfg.policies || cfg.policies[sid].IsZero() then None else Some(cfg.policies[sid])
  }

  // ---- windows and keys ---------------------------------------------------

  /** time.Truncate(window), which counts windows from year 1. */
  function Truncate(t: int, window: int): int {
    if window <= 0 then t else t - (t + EPOCH_OFFSET) % window
  }

  /** The number of the window that contains t. */
  function WindowIndex(t: int, window: int): int
    requires window > 0
  {
    (t + EPOCH_OFFSET) / window
  }

  function WindowEnd(t: int, window: int): int { Truncate(t, window) + window }

  /** The Unix seconds in the key. */
  function WindowSeconds(t: int, window: int): int { Truncate(t, window) / SECOND }

  /** currentKey. */
  function KeyAt(cfg: Config, sid: string, window: int, t: int): string {
    cfg.keyPrefix + (sid + ":" + PrintInt(WindowSeconds(t, window)))
  }

  /** The key names the source and the second in which its window starts: the last instant
      up to t that is a whole number of windows from year 1. */
  lemma KeyText(cfg: Config, sid: string, window: int, t: int, start: int)
    requires window > 0 && start <= t < start + window && (start + EPOCH_OFFSET) % window == 0
    ensures KeyAt(cfg, sid, window, t) == cfg.keyPrefix + sid + ":" + PrintInt(start / SECOND)
  {
    hide PrintInt;
    WindowOf(t, window, start);
    assert cfg.keyPrefix + (sid + ":" + PrintInt(start / SECOND)) == cfg.keyPrefix + sid + ":" + PrintInt(start / SECOND);
  }

  lemma WindowOf(t: int, window: int, start: int)
    requires window > 0 && start <= t < start + window && (start + EPOCH_OFFSET) % window == 0
    ensures Truncate(t, window) == start
  {
    hide Truncate;
    var q := (start + EPOCH_OFFSET) / window;
    DivModUnique(t + EPOCH_OFFSET, window, q, t - start);
    WindowBounds(t, window);
  }

  lemma WindowBounds(t: int, window: int)
    requires window > 0
    ensures Truncate(t, window) <= t < WindowEnd(t, window)
    ensures Truncate(t, window) == window * WindowIndex(t, window) - EPOCH_OFFSET
  {
  }

  lemma WindowsApart(t: int, u: int, window: int)
    requires window > 0
    ensures WindowIndex(t, window) == WindowIndex(u, window) ==> Truncate(t, window) == Truncate(u, window)
    ensures WindowIndex(t, window) < WindowIndex(u, window) ==> WindowEnd(t, window) <= Truncate(u, window)
    ensures t <= u ==> WindowIndex(t, window) <= WindowIndex(u, window)
  {
    var i, j := WindowIndex(t, window), WindowIndex(u, window);
    WindowBounds(t, window);
    WindowBounds(u, window);
    if i < j { MulAtLeast(window, j, i + 1); assert window * (i + 1) == window * i + window; }
    if j < i { MulAtLeast(window, i, j + 1); assert window * (j + 1) == window * j + window; }
  }

  /** Windows of at least a second have distinct start seconds. */
  lemma SecondsTellWindows(t: int, u: int, window: int)
    requires window >= SECOND
    ensures WindowSeconds(t, window) == WindowSeconds(u, window) <==> WindowIndex(t, window) == WindowIndex(u, window)
  {
    WindowsApart(t, u, window);
    WindowsApart(u, t, window);
  }

  /** Shorter windows do not: the window of at least a second is exactly what the key needs. */
  lemma KeySecondsExactly(window: int)
    requires window > 0
    ensures (forall t: nat, u: nat :: !Collide(t, u, window)) <==> window >= SECOND
  {
    if window >= SECOND {
      forall t: nat, u: nat ensures !Collide(t, u, window) {
        SecondsTellWindows(t, u, window);
      }
    } else {
      ShortWindowsCollide(window);
    }
  }

  /** Two neighbouring windows shorter than a second that share a key. */
  lemma ShortWindowsCollide(window: int)
    requires 0 < window < SECOND
    ensures exists t: nat, u: nat :: Collide(t, u, window)
  {
    var s := Truncate(SECOND, window);
    WindowBounds(SECOND, window);
    StartIsFixed(s, SECOND, window);
    var t := CollideFrom(s, window);
    assert Collide(t, t + window, window);
  }

  ghost predicate Collide(t: int, u: int, window: int)
    requires window > 0
  {
    WindowSeconds(t, window) == WindowSeconds(u, window) && WindowIndex(t, window) != WindowIndex(u, window)
  }

  lemma StartIsFixed(s: int, t: int, window: int)
    requires window > 0 && s == Truncate(t, window)
    ensures Truncate(s, window) == s
  {
    DivModUnique(s + EPOCH_OFFSET, window, WindowIndex(t, window), 0);
  }

  lemma NextSecond(s: int, window: int)
    requires 0 < window < SECOND
    ensures s % SECOND < SECOND - window ==> (s + window) / SECOND == s / SECOND
    ensures s % SECOND >= SECOND - window ==> (s + window) % SECOND == s % SECOND + window - SECOND
  {
    var q, r := s / SECOND, s % SECOND;
    if r < SECOND - window {
      DivModUnique(s + window, SECOND, q, r + window);
    } else {
      DivModUnique(s + window, SECOND, q + 1, r + window - SECOND);
    }
  }

  /** Walking from window start to window start, the offset into the second shrinks
      until two starts fall into one second. */
  lemma {:induction false} CollideFrom(s: int, window: int) returns (t: int)
    requires 0 < window < SECOND && s >= 0 && Truncate(s, window) == s
    ensures t >= 0 && Collide(t, t + window, window)
    decreases s % SECOND
  {
    ModPlus(s + EPOCH_OFFSET, window);
    assert s + window + EPOCH_OFFSET == s + EPOCH_OFFSET + window;
    NextSecond(s, window);
    if s % SECOND < SECOND - window {
      t := s;
    } else {
      t := CollideFrom(s + window, window);
    }
  }

  /** "Windows pin to Unix-epoch boundaries" holds exactly when the window divides the
      distance from year 1 to the epoch; a week, for one, does not. */
  lemma EpochPinnedExactly(window: int)
    requires window > 0
    ensures (forall t: nat :: Truncate(t, window) % window == 0) <==> EPOCH_OFFSET % window == 0
  {
    var q := EPOCH_OFFSET / window;
    if EPOCH_OFFSET % window == 0 {
      forall t: nat ensures Truncate(t, window) % window == 0 {
        WindowBounds(t, window);
        assert Truncate(t, window) == window * (WindowIndex(t, window) - q);
        DivModUnique(Truncate(t, window), window, WindowIndex(t, window) - q, 0);
      }
    }
    if forall t: nat :: Truncate(t, window) % window == 0 {
      WindowBounds(0, window);
      assert Truncate(0, window) % window == 0;
      var p := Truncate(0, window) / window;
      assert EPOCH_OFFSET == window * (WindowIndex(0, window) - p);
      DivModUnique(EPOCH_OFFSET, window, WindowIndex(0, window) - p, 0);
    }
  }

  /** That distance is 1969 Gregorian years. */
  lemma YearsToEpoch()
    ensures EPOCH_OFFSET == (1969 * 365 + 1969 / 4 - 1969 / 100 + 1969 / 400) * 86_400 * SECOND
  {
  }

  lemma WeekNotPinned()
    ensures EPOCH_OFFSET % (604_800 * SECOND) != 0
  {
  }

  predicate NoColon(s: string) { forall c :: c in s ==> c != ':' }

  lemma LastColon(a: string, x: string, b: string, y: string)
    requires a + ":" + x == b + ":" + y && NoColon(x) && NoColon(y)
    ensures a == b && x == y
  {
    var s := a + ":" + x;
    assert s[|a|] == ':' && s[|b|] == ':';
    assert s == b + ":" + y;
    forall i | |a| < i < |s| ensures s[i] != ':' { assert x[i - |a| - 1] in x; }
    forall i | |b| < i < |s| ensures s[i] != ':' { assert y[i - |b| - 1] in y; }
    assert a == s[..|a|] && b == s[..|b|];
    assert x == s[|a| + 1..] && y == s[|b| + 1..];
  }

  /** Two instants have the same budget key exactly when they name the same source and
      the same window, whatever characters the source ids contain. */
  lemma KeySound(cfg: Config, sid1: string, t1: int, sid2: string, t2: int, window: int)
    requires window >= SECOND
    ensures KeyAt(cfg, sid1, window, t1) == KeyAt(cfg, sid2, window, t2) <==>
      sid1 == sid2 && WindowIndex(t1, window) == WindowIndex(t2, window)
  {
    KeyParts(cfg, sid1, t1, window, sid2, t2, window);
    SecondsTellWindows(t1, t2, window);
  }

  lemma KeyParts(cfg: Config, sid1: string, t1: int, w1: int, sid2: string, t2: int, w2: int)
    ensures KeyAt(cfg, sid1, w1, t1) == KeyAt(cfg, sid2, w2, t2) <==>
      sid1 == sid2 && WindowSeconds(t1, w1) == WindowSeconds(t2, w2)
  {
    var n1, n2 := WindowSeconds(t1, w1), WindowSeconds(t2, w2);
    var k1, k2 := KeyAt(cfg, sid1, w1, t1), KeyAt(cfg, sid2, w2, t2);
    assert k1[|cfg.keyPrefix|..] == sid1 + ":" + PrintInt(n1);
    assert k2[|cfg.keyPrefix|..] == sid2 + ":" + PrintInt(n2);
    ParsePrintInt(n1);
    ParsePrintInt(n2);
    if k1 == k2 {
      LastColon(sid1, PrintInt(n1), sid2, PrintInt(n2));
      PrintIntInjective(n1, n2);
    }
  }

  // ---- Redis --------------------------------------------------------------

  /** A counter; None is a key without expiry. */
  datatype Cell = Cell(count: int, expiry: Option<int>)

  type Store = map<string, Cell>

  predicate Live(store: Store, key: string, now: int) {
    key in store && (store[key].expiry.None? || now < store[key].expiry.value)
  }

  /** GET, with 0 for an absent or expired key. */
  function Get(store: Store, key: string, now: int): int {
    if Live(store, key, now) then store[key].count else 0
  }

  /** INCRBY keeps the expiry of a live key and creates a key without one. */
  function IncrBy(store: Store, key: string, now: int, n: int): Store {
    store[key := if Live(store, key, now) then Cell(store[key].count + n, store[key].expiry) else Cell(n, None)]
  }

  function PExpire(store: Store, key: string, now: int, ttlMillis: int): Store
    requires key in store
  {
    store[key := Cell(store[key].count, Some(now + ttlMillis * MILLI))]
  }

  /** SET ... KEEPTTL. */
  function SetKeepTTL(store: Store, key: string, now: int, n: int): Store {
    store[key := Cell(n, if Live(store, key, now) then store[key].expiry else None)]
  }

  /** reserveScript: the new store, and -1 or the new counter. */
  function ReserveScript(store: Store, now: int, key: string, n: int, limit: int, ttlMillis: int): (Store, int) {
    var current := Get(store, key, now);
    if current + n > limit then (store, -1)
    else
      var bumped := IncrBy(store, key, now, n);
      (if current == 0 then PExpire(bumped, key, now, ttlMillis) else bumped, current + n)
  }

  /** refundScript. */
  function RefundScript(store: Store, now: int, key: string, n: int): Store {
    var newval := Get(store, key, now) - n;
    if newval <= 0 then map k | k in store && k != key :: store[k]
    else SetKeepTTL(store, key, now, newval)
  }

  // ---- Reserve and Refund -------------------------------------------------

  datatype Reply = Granted | Exhausted | EmptySource

  /** ttlMillis: the window in milliseconds, cut toward zero, plus a second. */
  function TtlMillis(window: int): int { (if window < 0 then -(-window / MILLI) else window / MILLI) + 1000 }

  function ReserveUnits(cfg: Config, store: Store, now: int, sid: string, n: int): (Store, Reply) {
    if n <= 0 then (store, Granted)
    else if sid == "" then (store, EmptySource)
    else
      match PolicyFor(cfg, sid)
      case None => (store, Granted)
      case Some(p) =>
        var (store', result) := ReserveScript(store, now, KeyAt(cfg, sid, p.window, now), n, p.limit, TtlMillis(p.window));
        (store', if result == -1 then Exhausted else Granted)
  }

  function RefundUnits(cfg: Config, store: Store, now: int, sid: string, n: int): Store {
    if n <= 0 || sid == "" then store
    else
      match PolicyFor(cfg, sid)
      case None => store
      case Some(p) => RefundScript(store, now, KeyAt(cfg, sid, p.window, now), n)
  }

  /** The source has a limit: a policy, and not one with both fields zero. */
  predicate Limited(cfg: Config, sid: string) {
    sid in cfg.policies && (cfg.policies[sid].window != 0 || cfg.policies[sid].limit != 0)
  }

  /** A source is unlimited exactly when it has no such policy; otherwise its stored policy applies. */
  lemma UnlimitedExactly(cfg: Config, sid: string)
    ensures PolicyFor(cfg, sid) == if Limited(cfg, sid) then Some(cfg.policies[sid]) else None
  {
  }

  /** So a zero limit on a positive window denies everything, as a zero count is not negative. */
  lemma ZeroLimitDenies(cfg: Config, store: Store, now: int, sid: string, n: int)
    requires sid in cfg.policies && cfg.policies[sid].limit == 0 && cfg.policies[sid].window > 0
    requires n > 0 && sid != "" && Get(store, KeyAt(cfg, sid, cfg.policies[sid].window, now), now) >= 0
    ensures ReserveUnits(cfg, store, now, sid, n) == (store, Exhausted)
  {
  }

  /** Every key but one is as it was. */
  ghost predicate OthersKept(before: Store, after: Store, key: string) {
    && (forall k :: k in before && k != key ==> k in after && after[k] == before[k])
    && forall k :: k in after && k != key ==> k in before
  }

  /** The call reaches Redis. */
  predicate Charged(cfg: Config, sid: string, n: int) { n > 0 && sid != "" && PolicyFor(cfg, sid).Some? }

  function KeyNow(cfg: Config, sid: string, now: int): string
    requires PolicyFor(cfg, sid).Some?
  {
    KeyAt(cfg, sid, PolicyFor(cfg, sid).value.window, now)
  }

  /** RedisBudget: the two operations on the shared store. */
  class RedisBudget {
    const config: Config
    var store: Store

    constructor (cfg: Config)
      ensures config == cfg && store == map[]
    {
      config := cfg;
      store := map[];
    }

    /** One run of reserveScript: a count that would pass the limit changes nothing; else
        the count rises by n, and only a count of zero gets a new expiry. */
    method RunReserve(key: string, n: int, limit: int, ttlMillis: int, now: int) returns (result: int)
      modifies this
      ensures (store, result) == ReserveScript(old(store), now, key, n, limit, ttlMillis)
      ensures OthersKept(old(store), store, key)
      ensures Get(old(store), key, now) + n > limit ==> result == -1 && store == old(store)
      ensures Get(old(store), key, now) + n <= limit ==>
        && result == Get(old(store), key, now) + n && key in store && store[key].count == result
        && store[key].expiry ==
             if Get(old(store), key, now) == 0 then Some(now + ttlMillis * MILLI) else old(store)[key].expiry
      ensures Get(old(store), key, now) + n <= limit && ttlMillis > 0 ==> Get(store, key, now) == result
    {
      var current := Get(store, key, now);
      if current + n > limit { return -1; }
      store := IncrBy(store, key, now, n);
      result := current + n;
      if current == 0 { store := PExpire(store, key, now, ttlMillis); }
    }

    /** Reserve: granted without a trace for an unlimited source; otherwise granted exactly
        when the window has room, and then the units are counted. A window's first units set
        an expiry at its length in whole milliseconds plus a second; later ones keep it. */
    method Reserve(sid: string, n: int, now: int) returns (reply: Reply)
      modifies this
      ensures (store, reply) == ReserveUnits(config, old(store), now, sid, n)
      ensures reply == EmptySource <==> n > 0 && sid == ""
      ensures n <= 0 || sid == "" || !Limited(config, sid) ==> store == old(store) && reply != Exhausted
      ensures n > 0 && sid != "" && Limited(config, sid) ==>
        var p := config.policies[sid];
        var key := KeyAt(config, sid, p.window, now);
        var used := Get(old(store), key, now);
        && OthersKept(old(store), store, key)
        && (used >= 0 ==>
              && (reply == Granted <==> used + n <= p.limit)
              && (reply == Exhausted <==> used + n > p.limit)
              && (reply == Exhausted ==> store == old(store))
              && (reply == Granted ==> key in store && store[key].count == used + n)
              && (reply == Granted && used > 0 ==> key in old(store) && store[key].expiry == old(store)[key].expiry)
              && (reply == Granted && used == 0 && p.window >= 0 ==>
                    store[key].expiry == Some(now + p.window - p.window % MILLI + SECOND)))
    {
      if n <= 0 { return Granted; }
      if sid == "" { return EmptySource; }
      var policy := PolicyFor(config, sid);
      if policy.None? { return Granted; }
      var key := KeyAt(config, sid, policy.value.window, now);
      var result := RunReserve(key, n, policy.value.limit, TtlMillis(policy.value.window), now);
      reply := if result == -1 then Exhausted else Granted;
    }

    /** Refund: takes n off the current window's count and keeps its expiry, or removes the
        key when nothing is left. */
    method Refund(sid: string, n: int, now: int) returns (ok: bool)
      modifies this
      ensures store == RefundUnits(config, old(store), now, sid, n)
      ensures ok <==> n <= 0 || sid != ""
      ensures n <= 0 || sid == "" || !Limited(config, sid) ==> store == old(store)
      ensures n > 0 && sid != "" && Limited(config, sid) ==>
        var key := KeyAt(config, sid, config.policies[sid].window, now);
        var left := Get(old(store), key, now) - n;
        && OthersKept(old(store), store, key)
        && (if left <= 0 then key !in store
            else key in store && key in old(store) && store[key] == Cell(left, old(store)[key].expiry))
    {
      if n <= 0 { return true; }
      if sid == "" { return false; }
      var policy := PolicyFor(config, sid);
      if policy.None? { return true; }
      var key := KeyAt(config, sid, policy.value.window, now);
      var current := Get(store, key, now);
      var newval := current - n;
      if newval <= 0 {
        store := map k | k in store && k != key :: store[k];
      } else {
        store := SetKeepTTL(store, key, now, newval);
      }
      return true;
    }
  }
}
