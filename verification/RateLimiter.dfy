/** The limiter object and the store of limiters per client. */
module RateLimiter {
  import opened Prelude
  import opened TokenBucket
  import LimiterResets

  datatype Violation = Violation(timestamp: real, endpoint: string, remaining: real)

  const MAX_VIOLATIONS: nat := 100

  function LastOf<T>(s: seq<T>, n: nat): seq<T> {
    if |s| <= n then s else s[|s| - n..]
  }

  class Limiter {
    const rate: real
    const burst: int
    var tokens: real
    var lastUpdate: real
    var requestsAllowed: nat
    var requestsDenied: nat
    var lastRequest: real
    var violations: seq<Violation>
    var customConfig: Option<Custom>

    ghost function View(): Bucket
      reads this
    {
      Bucket(rate, burst, tokens, lastUpdate, customConfig)
    }

    constructor (rate: real, burst: int, now: real)
      ensures View() == Fresh(rate, burst, now)
      ensures requestsAllowed == requestsDenied == 0 && violations == [] && lastRequest == now
    {
      this.rate, this.burst := rate, burst;
      tokens, lastUpdate, lastRequest := burst as real, now, now;
      requestsAllowed, requestsDenied := 0, 0;
      violations, customConfig := [], None;
    }

    method GetEffectiveConfig(now: real) returns (r: real, b: int)
      modifies this`customConfig
      ensures r == EffectiveRate(old(View()), now) && b == EffectiveBurst(old(View()), now)
      ensures if old(customConfig).Some? && now < old(customConfig).value.expiresAt
              then r == old(customConfig).value.rate && b == old(customConfig).value.burst
              else r == rate && b == burst
      ensures customConfig == if old(customConfig).Some? && now > old(customConfig).value.expiresAt then None
                              else old(customConfig)
    {
      if customConfig.Some? && now < customConfig.value.expiresAt {
        return customConfig.value.rate, customConfig.value.burst;
      }
      if customConfig.Some? && now > customConfig.value.expiresAt {
        customConfig := None;
      }
      return rate, burst;
    }

    method AllowWithEndpoint(endpoint: string, now: real) returns (ok: bool)
      modifies this
      ensures ok == Admits(old(View()), now) && View() == AfterCheck(old(View()), now)
      ensures requestsAllowed == old(requestsAllowed) + (if ok then 1 else 0)
      ensures requestsDenied == old(requestsDenied) + (if ok then 0 else 1)
      ensures violations == if ok then old(violations)
                            else LastOf(old(violations) + [Violation(now, endpoint, tokens)], MAX_VIOLATIONS)
      ensures lastRequest == now
    {
      lastRequest := now;
      var r, b := GetEffectiveConfig(now);
      var elapsed := now - lastUpdate;
      tokens := tokens + Refill(elapsed, r);
      if tokens > b as real {
        tokens := b as real;
      }
      lastUpdate := now;
      if tokens >= 1.0 {
        tokens := tokens - 1.0;
        requestsAllowed := requestsAllowed + 1;
        return true;
      }
      requestsDenied := requestsDenied + 1;
      RecordViolation(Violation(now, endpoint, tokens));
      ok := false;
    }

    method RecordViolation(v: Violation)
      modifies this`violations
      ensures violations == LastOf(old(violations) + [v], MAX_VIOLATIONS)
    {
      violations := violations + [v];
      if |violations| > MAX_VIOLATIONS {
        violations := violations[|violations| - MAX_VIOLATIONS..];
      }
    }

    method SetCustomConfig(customRate: real, customBurst: int, duration: real, now: real)
      modifies this`customConfig, this`tokens
      ensures View() == AfterOp(old(View()), Customize(now, customRate, customBurst, duration))
    {
      customConfig := Some(Custom(customRate, customBurst, now + duration));
      if tokens > customBurst as real {
        tokens := customBurst as real;
      }
    }

    method ClearCustomConfig()
      modifies this`customConfig
      ensures View() == old(View()).(custom := None)
    {
      customConfig := None;
    }

    method Reset(now: real)
      modifies this`tokens, this`lastUpdate
      ensures View() == LimiterResets.AfterRequest(old(View()), LimiterResets.Reset(now))
    {
      tokens, lastUpdate := burst as real, now;
    }
  }

  /** The buckets of all clients after one call, and after a cleanup. */
  function Called(buckets: map<string, Bucket>, rate: real, burst: int, key: string, now: real): map<string, Bucket> {
    var b := if key in buckets then buckets[key] else Fresh(rate, burst, now);
    buckets[key := AfterCheck(b, now)]
  }

  function Evicted(buckets: map<string, Bucket>, now: real): map<string, Bucket> {
    map k | k in buckets && now - buckets[k].lastUpdate <= IDLE :: buckets[k]
  }

  class Store {
    var limiters: map<string, Limiter>
    const rate: real
    const burst: int

    /** No two clients share a limiter. */
    ghost predicate Valid()
      reads this
    {
      forall k, l :: k in limiters && l in limiters && k != l ==> limiters[k] != limiters[l]
    }

    ghost function Buckets(): map<string, Bucket>
      reads this, limiters.Values
    {
      map k | k in limiters :: limiters[k].View()
    }

    constructor (rate: real, burst: int)
      ensures Valid() && Buckets() == map[] && this.rate == rate && this.burst == burst
    {
      this.rate, this.burst := rate, burst;
      limiters := map[];
    }

    method GetLimiter(key: string, now: real) returns (limiter: Limiter)
      requires Valid()
      modifies this
      ensures Valid() && key in limiters && limiters[key] == limiter
      ensures key in old(limiters) ==> limiters == old(limiters)
      ensures key !in old(limiters) ==> fresh(limiter) && limiters == old(limiters)[key := limiter]
                                        && limiter.View() == Fresh(rate, burst, now)
    {
      if key in limiters {
        return limiters[key];
      }
      limiter := new Limiter(rate, burst, now);
      limiters := limiters[key := limiter];
    }

    method Allow(key: string, now: real) returns (ok: bool)
      requires Valid()
      modifies this, limiters.Values
      ensures Valid() && fresh(limiters.Values - old(limiters.Values))
      ensures Buckets() == Called(old(Buckets()), rate, burst, key, now)
      ensures ok == Admits(if key in old(limiters) then old(limiters[key].View()) else Fresh(rate, burst, now), now)
    {
      var limiter := GetLimiter(key, now);
      ok := limiter.AllowWithEndpoint("", now);
    }

    /** Visits the limiters in any order and forgets those idle for longer than five minutes. */
    method CleanupExpired(now: real)
      requires Valid()
      modifies this
      ensures Valid() && Buckets() == Evicted(old(Buckets()), now)
      ensures forall key :: key in limiters <==> key in old(limiters) && now - old(limiters)[key].lastUpdate <= 300.0
    {
      ghost var before := limiters;
      var rest := limiters.Keys;
      while rest != {}
        invariant rest <= before.Keys
        invariant limiters == map k | k in before && (k in rest || now - before[k].lastUpdate <= IDLE) :: before[k]
        decreases rest
      {
        var key :| key in rest;
        if now - limiters[key].lastUpdate > IDLE {
          limiters := limiters - {key};
        }
        rest := rest - {key};
      }
    }
  }

  // ---- Violations ----------------------------------------------------------------------------------------------

  function Recorded(all: seq<Violation>): seq<Violation> {
    if |all| == 0 then [] else LastOf(Recorded(all[..|all| - 1]) + [all[|all| - 1]], MAX_VIOLATIONS)
  }

  /** The history always holds the most recent hundred violations, oldest first. */
  lemma {:induction false} HistoryIsTheRecentHundred(all: seq<Violation>)
    ensures Recorded(all) == LastOf(all, MAX_VIOLATIONS)
    ensures Recorded(all) == if |all| <= 100 then all else all[|all| - 100..]
  {
    if |all| > 0 {
      HistoryIsTheRecentHundred(all[..|all| - 1]);
      assert all == all[..|all| - 1] + [all[|all| - 1]];
    }
  }

  // ---- A client's view across evictions ------------------------------------------------------------------------

  datatype Event = Call(key: string, time: real) | Cleanup(time: real)

  function AfterEvents(buckets: map<string, Bucket>, rate: real, burst: int, events: seq<Event>,
                       n: nat): map<string, Bucket>
    requires n <= |events|
  {
    if n == 0 then buckets
    else
      var before := AfterEvents(buckets, rate, burst, events, n - 1);
      match events[n - 1]
      case Call(key, t) => Called(before, rate, burst, key, t)
      case Cleanup(t) => Evicted(before, t)
  }

  /** The single bucket a client would have if nothing were ever evicted. */
  function Kept1(rate: real, burst: int, key: string, events: seq<Event>, n: nat): Option<Bucket>
    requires n <= |events|
  {
    if n == 0 then None
    else
      var before := Kept1(rate, burst, key, events, n - 1);
      match events[n - 1]
      case Cleanup(_) => before
      case Call(k, t) =>
        if k != key then before
        else Some(AfterCheck(if before.Some? then before.value else Fresh(rate, burst, t), t))
  }

  function LevelOf(b: Option<Bucket>, burst: int, t: real): real {
    if b.Some? then Level(b.value, t) else burst as real
  }

  function Find(buckets: map<string, Bucket>, key: string): Option<Bucket> {
    if key in buckets then Some(buckets[key]) else None
  }

  predicate Ordered(events: seq<Event>) {
    forall i, j :: 0 <= i < j < |events| ==> events[i].time <= events[j].time
  }

  /** The bucket in the store and the bucket that was never evicted find the same level from `t` on. */
  ghost predicate Equivalent(a: Option<Bucket>, b: Option<Bucket>, rate: real, burst: int, t: real) {
    && (a.Some? ==> Plain(a.value) && a.value.rate == rate && a.value.burst == burst && a.value.lastUpdate <= t)
    && (b.Some? ==> Plain(b.value) && b.value.rate == rate && b.value.burst == burst && b.value.lastUpdate <= t)
    && LevelOf(a, burst, t) == LevelOf(b, burst, t)
  }

  lemma FreshLevel(rate: real, burst: int, t: real, u: real)
    requires rate >= 0.0 && burst >= 0 && t <= u
    ensures Level(Fresh(rate, burst, t), u) == burst as real
  {
    Scale(u - t, rate, rate);
  }

  lemma EquivalentLater(a: Option<Bucket>, b: Option<Bucket>, rate: real, burst: int, t: real, u: real)
    requires Equivalent(a, b, rate, burst, t) && t <= u && rate >= 0.0 && burst >= 0
    ensures Equivalent(a, b, rate, burst, u)
  {
    if a.Some? { RefillIsAdditive(a.value, t, u); }
    if b.Some? { RefillIsAdditive(b.value, t, u); }
    Scale(u - t, rate, rate);
  }

  lemma CallKeepsEquivalent(a: Option<Bucket>, b: Option<Bucket>, rate: real, burst: int, t: real)
    requires Equivalent(a, b, rate, burst, t) && rate >= 0.0 && burst >= 0
    ensures var x := if a.Some? then a.value else Fresh(rate, burst, t);
            var y := if b.Some? then b.value else Fresh(rate, burst, t);
            Admits(x, t) == Admits(y, t) && Equivalent(Some(AfterCheck(x, t)), Some(AfterCheck(y, t)), rate, burst, t)
  {
    var x := if a.Some? then a.value else Fresh(rate, burst, t);
    var y := if b.Some? then b.value else Fresh(rate, burst, t);
    FreshLevel(rate, burst, t, t);
    CheckKeepsPlain(x, t);
    CheckKeepsPlain(y, t);
    LevelNow(AfterCheck(x, t));
    LevelNow(AfterCheck(y, t));
  }

  lemma EvictionKeepsEquivalent(a: Option<Bucket>, b: Option<Bucket>, rate: real, burst: int, t: real)
    requires Equivalent(a, b, rate, burst, t) && rate >= 0.0 && burst >= 0 && burst as real <= Refill(IDLE, rate)
    requires a.Some? && t - a.value.lastUpdate > IDLE
    ensures Equivalent(None, b, rate, burst, t)
  {
    LongIdleRefills(a.value, t);
  }

  /** In a store whose burst refills within the idle time no client can tell, over any run of calls and cleanups, that
      limiters are evicted: every call is answered as if they never were. */
  lemma {:induction false} StoreHidesEviction(rate: real, burst: int, key: string, events: seq<Event>, n: nat)
    requires n <= |events| && Ordered(events)
    requires rate >= 0.0 && burst >= 0 && burst as real <= Refill(IDLE, rate)
    ensures n > 0 ==> Equivalent(Find(AfterEvents(map[], rate, burst, events, n), key),
                                 Kept1(rate, burst, key, events, n), rate, burst, events[n - 1].time)
    ensures n == 0 ==>
              Find(AfterEvents(map[], rate, burst, events, n), key) == Kept1(rate, burst, key, events, n) == None
  {
    if n > 0 {
      StoreHidesEviction(rate, burst, key, events, n - 1);
      var a, b := Find(AfterEvents(map[], rate, burst, events, n - 1), key), Kept1(rate, burst, key, events, n - 1);
      var t := events[n - 1].time;
      if n > 1 {
        EquivalentLater(a, b, rate, burst, events[n - 2].time, t);
      }
      CallKeepsEquivalent(a, b, rate, burst, t);
      if events[n - 1].Cleanup? && a.Some? && t - a.value.lastUpdate > IDLE {
        EvictionKeepsEquivalent(a, b, rate, burst, t);
      }
    }
  }

  /** The verdict of call number `n`, with and without eviction. */
  lemma VerdictsAreAsIfNeverEvicted(rate: real, burst: int, events: seq<Event>, n: nat)
    requires n < |events| && Ordered(events) && events[n].Call?
    requires rate >= 0.0 && burst >= 0 && burst as real <= Refill(IDLE, rate)
    ensures var (key, t) := (events[n].key, events[n].time);
            var a := Find(AfterEvents(map[], rate, burst, events, n), key);
            var b := Kept1(rate, burst, key, events, n);
            Admits(if a.Some? then a.value else Fresh(rate, burst, t), t) ==
            Admits(if b.Some? then b.value else Fresh(rate, burst, t), t)
  {
    var key, t := events[n].key, events[n].time;
    var a, b := Find(AfterEvents(map[], rate, burst, events, n), key), Kept1(rate, burst, key, events, n);
    StoreHidesEviction(rate, burst, key, events, n);
    if n > 0 {
      EquivalentLater(a, b, rate, burst, events[n - 1].time, t);
    }
    CallKeepsEquivalent(a, b, rate, burst, t);
  }
}
