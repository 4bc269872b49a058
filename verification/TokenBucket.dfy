/**
 The token bucket on values. Tokens and seconds are real numbers; one check reads the clock once. A custom
 configuration replaces rate and burst until it expires.
 */
module TokenBucket {
  import opened Prelude

  datatype Custom = Custom(rate: real, burst: int, expiresAt: real)

  datatype Bucket = Bucket(rate: real, burst: int, tokens: real, lastUpdate: real, custom: Option<Custom>)

  function Fresh(rate: real, burst: int, now: real): Bucket {
    Bucket(rate, burst, burst as real, now, None)
  }

  /** Tokens that flow in during `elapsed` seconds. */
  function Refill(elapsed: real, rate: real): real {
    elapsed * rate
  }

  function Min(a: real, b: real): real {
    if a > b then b else a
  }

  predicate InForce(b: Bucket, now: real) {
    b.custom.Some? && now < b.custom.value.expiresAt
  }

  function EffectiveRate(b: Bucket, now: real): real {
    if InForce(b, now) then b.custom.value.rate else b.rate
  }

  function EffectiveBurst(b: Bucket, now: real): int {
    if InForce(b, now) then b.custom.value.burst else b.burst
  }

  /** The tokens a check at `now` finds after the lazy refill. */
  function Level(b: Bucket, now: real): real {
    Min(b.tokens + Refill(now - b.lastUpdate, EffectiveRate(b, now)), EffectiveBurst(b, now) as real)
  }

  /** An expired custom configuration is forgotten, except at the very instant of its expiry. */
  function Kept(b: Bucket, now: real): Option<Custom> {
    if b.custom.Some? && now > b.custom.value.expiresAt then None else b.custom
  }

  predicate Admits(b: Bucket, now: real) {
    Level(b, now) >= 1.0
  }

  function AfterCheck(b: Bucket, now: real): Bucket {
    b.(tokens := if Admits(b, now) then Level(b, now) - 1.0 else Level(b, now), lastUpdate := now,
       custom := Kept(b, now))
  }

  function WithCustom(b: Bucket, rate: real, burst: int, expiresAt: real): Bucket {
    b.(custom := Some(Custom(rate, burst, expiresAt)), tokens := Min(b.tokens, burst as real))
  }

  // ---- Runs ----------------------------------------------------------------------------------------------------

  datatype Op =
    | Check(time: real)
    | Customize(time: real, rate: real, burst: int, duration: real)
    | ClearCustom(time: real)

  function AfterOp(b: Bucket, op: Op): Bucket {
    match op
    case Check(t) => AfterCheck(b, t)
    case Customize(t, rate, burst, duration) => WithCustom(b, rate, burst, t + duration)
    case ClearCustom(_) => b.(custom := None)
  }

  function AfterOps(b: Bucket, ops: seq<Op>): Bucket
    decreases |ops|
  {
    if |ops| == 0 then b else AfterOps(AfterOp(b, ops[0]), ops[1..])
  }

  function Admitted(b: Bucket, ops: seq<Op>): nat
    decreases |ops|
  {
    if |ops| == 0 then 0
    else AdmittedNow(b, ops[0]) + Admitted(AfterOp(b, ops[0]), ops[1..])
  }

  /** Time does not run backwards: operations are in order, none before `start` and none after `end`. */
  predicate InOrder(ops: seq<Op>, start: real, end: real) {
    if |ops| == 0 then start <= end else start <= ops[0].time <= end && InOrder(ops[1..], ops[0].time, end)
  }

  /** All rates and bursts that the operations bring in are between zero and the bounds. */
  predicate ConfigsWithin(ops: seq<Op>, B: int, R: real) {
    forall i :: 0 <= i < |ops| && ops[i].Customize? ==> 0 <= ops[i].burst <= B && 0.0 <= ops[i].rate <= R
  }

  /** A bucket whose configurations respect the bounds and whose tokens fit its last effective burst. */
  predicate Within(b: Bucket, B: int, R: real) {
    && 0 <= b.burst <= B && 0.0 <= b.rate <= R
    && (b.custom.Some? ==> 0 <= b.custom.value.burst <= B && 0.0 <= b.custom.value.rate <= R)
    && 0.0 <= b.tokens <= B as real
  }

  lemma Scale(x: real, r: real, R: real)
    requires 0.0 <= x && 0.0 <= r <= R
    ensures 0.0 <= Refill(x, r) <= Refill(x, R)
  {
    NonNegativeProduct(x, r);
    NonNegativeProduct(x, R - r);
    assert x * R == x * r + x * (R - r);
  }

  lemma NonNegativeProduct(x: real, y: real)
    requires 0.0 <= x && 0.0 <= y
    ensures 0.0 <= x * y
  {
  }

  /** Tokens are never negative, and after a check they are at most the burst that was in force. */
  lemma CheckKeepsWithin(b: Bucket, now: real, B: int, R: real)
    requires Within(b, B, R) && b.lastUpdate <= now
    ensures Within(AfterCheck(b, now), B, R)
    ensures 0.0 <= AfterCheck(b, now).tokens <= EffectiveBurst(b, now) as real
    ensures Level(b, now) <= b.tokens + Refill(now - b.lastUpdate, R)
  {
    Scale(now - b.lastUpdate, EffectiveRate(b, now), R);
    assert 0.0 <= EffectiveBurst(b, now) as real <= B as real;
    assert 0.0 <= Level(b, now) <= B as real;
  }

  lemma OpKeepsWithin(b: Bucket, op: Op, B: int, R: real)
    requires Within(b, B, R) && b.lastUpdate <= op.time && ConfigsWithin([op], B, R)
    ensures Within(AfterOp(b, op), B, R) && AfterOp(b, op).lastUpdate <= op.time
  {
    assert [op][0] == op;
    if op.Check? {
      CheckKeepsWithin(b, op.time, B, R);
    }
  }

  lemma ConfigsSplit(ops: seq<Op>, B: int, R: real)
    requires ConfigsWithin(ops, B, R) && |ops| > 0
    ensures ConfigsWithin([ops[0]], B, R) && ConfigsWithin(ops[1..], B, R)
  {
  }

  // ---- Paying for admissions -----------------------------------------------------------------------------------

  /** What one operation admits is covered by the tokens it uses up and the refill at the largest rate. */
  predicate Paid(tokens: real, tokens': real, clock: real, clock': real, admitted: nat, R: real) {
    clock <= clock' && tokens' + admitted as real <= tokens + Refill(clock' - clock, R)
  }

  lemma OpPays(b: Bucket, op: Op, B: int, R: real)
    requires Within(b, B, R) && b.lastUpdate <= op.time && ConfigsWithin([op], B, R)
    ensures var next := AfterOp(b, op);
            Paid(b.tokens, next.tokens, b.lastUpdate, next.lastUpdate, AdmittedNow(b, op), R)
  {
    if op.Check? {
      CheckKeepsWithin(b, op.time, B, R);
    }
  }

  function AdmittedNow(b: Bucket, op: Op): nat {
    if op.Check? && Admits(b, op.time) then 1 else 0
  }

  /** The account of a run: tokens and clocks before and after every operation, and what each admitted. */
  datatype Account = Account(tokens: seq<real>, clocks: seq<real>, admitted: seq<nat>)

  ghost predicate Balanced(a: Account, R: real) {
    && |a.tokens| == |a.clocks| == |a.admitted| + 1
    && forall i :: 0 <= i < |a.admitted| ==>
         Paid(a.tokens[i], a.tokens[i + 1], a.clocks[i], a.clocks[i + 1], a.admitted[i], R)
  }

  function Total(counts: seq<nat>): nat {
    if |counts| == 0 then 0 else counts[0] + Total(counts[1..])
  }

  lemma AccountOneMore(a: Account, tokens: real, clock: real, admitted: nat, R: real)
    requires Balanced(a, R) && Paid(tokens, a.tokens[0], clock, a.clocks[0], admitted, R)
    ensures Balanced(Account([tokens] + a.tokens, [clock] + a.clocks, [admitted] + a.admitted), R)
  {
  }

  lemma {:induction false} RunHasAccount(b: Bucket, ops: seq<Op>, start: real, end: real, B: int,
                                         R: real) returns (a: Account)
    requires Within(b, B, R) && ConfigsWithin(ops, B, R)
    requires b.lastUpdate <= start && InOrder(ops, start, end)
    ensures Balanced(a, R) && a.tokens[0] == b.tokens && a.clocks[0] == b.lastUpdate
    ensures Total(a.admitted) == Admitted(b, ops)
    ensures a.tokens[|a.admitted|] >= 0.0 && a.clocks[|a.admitted|] <= end
    decreases |ops|
  {
    if |ops| == 0 {
      a := Account([b.tokens], [b.lastUpdate], []);
    } else {
      ConfigsSplit(ops, B, R);
      OpKeepsWithin(b, ops[0], B, R);
      OpPays(b, ops[0], B, R);
      var rest := RunHasAccount(AfterOp(b, ops[0]), ops[1..], ops[0].time, end, B, R);
      AccountOneMore(rest, b.tokens, b.lastUpdate, AdmittedNow(b, ops[0]), R);
      a := Account([b.tokens] + rest.tokens, [b.lastUpdate] + rest.clocks, [AdmittedNow(b, ops[0])] + rest.admitted);
      assert a.admitted[1..] == rest.admitted;
    }
  }

  lemma {:induction false} AccountTelescopes(a: Account, R: real)
    requires Balanced(a, R)
    ensures var n := |a.admitted|;
            a.clocks[0] <= a.clocks[n]
            && a.tokens[n] + Total(a.admitted) as real <= a.tokens[0] + Refill(a.clocks[n] - a.clocks[0], R)
    decreases |a.admitted|
  {
    if |a.admitted| > 0 {
      var rest := Account(a.tokens[1..], a.clocks[1..], a.admitted[1..]);
      AccountTelescopes(rest, R);
      var n := |a.admitted|;
      Chain(a.tokens[0], a.tokens[1], a.tokens[n], a.clocks[0], a.clocks[1], a.clocks[n], a.admitted[0],
            Total(rest.admitted), R);
    }
  }

  lemma Chain(x: real, y: real, z: real, c: real, d: real, e: real, m: nat, n: nat, R: real)
    requires Paid(x, y, c, d, m, R) && z + n as real <= y + Refill(e - d, R)
    ensures z + (m + n) as real <= x + Refill(e - c, R)
  {
    RefillAdds(d - c, e - d, R);
    assert d - c + (e - d) == e - c;
  }

  lemma RefillAdds(d: real, e: real, r: real)
    ensures Refill(d + e, r) == Refill(d, r) + Refill(e, r)
  {
  }

  lemma MoreTimeMoreRefill(R: real, d: real, e: real)
    requires R >= 0.0 && 0.0 <= d <= e
    ensures 0.0 <= Refill(d, R) <= Refill(e, R)
  {
    NonNegativeProduct(d, R);
    NonNegativeProduct(e - d, R);
    RefillAdds(d, e - d, R);
    assert d + (e - d) == e;
  }

  lemma AccountBound(a: Account, end: real, R: real)
    requires Balanced(a, R) && R >= 0.0
    requires a.tokens[|a.admitted|] >= 0.0 && a.clocks[|a.admitted|] <= end
    ensures Total(a.admitted) as real <= a.tokens[0] + Refill(end - a.clocks[0], R)
  {
    AccountTelescopes(a, R);
    MoreTimeMoreRefill(R, a.clocks[|a.admitted|] - a.clocks[0], end - a.clocks[0]);
  }

  /** From the last update on, admissions are paid for by the tokens in the bucket and the refill. */
  lemma AdmissionsArePaid(b: Bucket, ops: seq<Op>, start: real, end: real, B: int, R: real) returns (count: nat)
    requires Within(b, B, R) && ConfigsWithin(ops, B, R)
    requires b.lastUpdate <= start && InOrder(ops, start, end)
    ensures count == Admitted(b, ops) && count as real <= b.tokens + Refill(end - b.lastUpdate, R)
  {
    var a := RunHasAccount(b, ops, start, end, B, R);
    AccountBound(a, end, R);
    count := Total(a.admitted);
  }

  /** A check cannot find more than the burst, so tokens earned before the window do not carry into it. */
  lemma FirstCheckForgets(b: Bucket, ops: seq<Op>, start: real, end: real, B: int, R: real) returns (count: nat)
    requires Within(b, B, R) && ConfigsWithin(ops, B, R) && |ops| > 0 && ops[0].Check?
    requires b.lastUpdate <= start && InOrder(ops, start, end)
    ensures count == Admitted(b, ops) && count as real <= B as real + Refill(end - start, R)
  {
    var t := ops[0].time;
    CheckKeepsWithin(b, t, B, R);
    ConfigsSplit(ops, B, R);
    var later := AdmissionsArePaid(AfterCheck(b, t), ops[1..], t, end, B, R);
    count := FirstIsPaidByBurst(b, t, B, R, later, Refill(end - t, R));
    assert count == AdmittedNow(b, ops[0]) + Admitted(AfterOp(b, ops[0]), ops[1..]);
    MoreTimeMoreRefill(R, end - t, end - start);
  }

  lemma FirstIsPaidByBurst(b: Bucket, t: real, B: int, R: real, later: nat, refill: real) returns (count: nat)
    requires Within(b, B, R) && b.lastUpdate <= t && later as real <= AfterCheck(b, t).tokens + refill
    ensures count == AdmittedNow(b, Check(t)) + later && count as real <= B as real + refill
  {
    assert Level(b, t) <= EffectiveBurst(b, t) as real <= B as real;
    count := AdmittedNow(b, Check(t)) + later;
  }

  /** No window admits more than the burst bound plus the rate bound times its length, whatever came before it and
      however configurations change in it. */
  lemma {:induction false} WindowBound(b: Bucket, ops: seq<Op>, start: real, end: real, B: int,
                                       R: real) returns (count: nat)
    requires Within(b, B, R) && ConfigsWithin(ops, B, R)
    requires b.lastUpdate <= start && InOrder(ops, start, end)
    ensures count == Admitted(b, ops) && count as real <= B as real + Refill(end - start, R)
    decreases |ops|
  {
    if |ops| == 0 {
      count := 0;
      MoreTimeMoreRefill(R, end - start, end - start);
    } else if ops[0].Check? {
      count := FirstCheckForgets(b, ops, start, end, B, R);
    } else {
      ConfigsSplit(ops, B, R);
      OpKeepsWithin(b, ops[0], B, R);
      count := WindowBound(AfterOp(b, ops[0]), ops[1..], ops[0].time, end, B, R);
      MoreTimeMoreRefill(R, end - ops[0].time, end - start);
    }
  }

  lemma {:induction false} RunKeepsWithin(b: Bucket, ops: seq<Op>, start: real, end: real, B: int, R: real)
    requires Within(b, B, R) && ConfigsWithin(ops, B, R)
    requires b.lastUpdate <= start && InOrder(ops, start, end)
    ensures Within(AfterOps(b, ops), B, R) && AfterOps(b, ops).lastUpdate <= end
    decreases |ops|
  {
    if |ops| > 0 {
      ConfigsSplit(ops, B, R);
      OpKeepsWithin(b, ops[0], B, R);
      RunKeepsWithin(AfterOp(b, ops[0]), ops[1..], ops[0].time, end, B, R);
    }
  }

  /** The admission bound for any window of any run of a new limiter. */
  lemma AdmissionBound(rate: real, burst: int, created: real, before: seq<Op>, window: seq<Op>,
                       start: real, end: real, B: int, R: real)
    requires 0 <= burst <= B && 0.0 <= rate <= R
    requires ConfigsWithin(before, B, R) && ConfigsWithin(window, B, R)
    requires InOrder(before, created, start) && InOrder(window, start, end)
    ensures Admitted(AfterOps(Fresh(rate, burst, created), before), window) as real
         <= B as real + Refill(end - start, R)
  {
    RunKeepsWithin(Fresh(rate, burst, created), before, created, start, B, R);
    var count := WindowBound(AfterOps(Fresh(rate, burst, created), before), window, start, end, B, R);
  }

  // ---- Without custom configurations: denied calls and eviction ------------------------------------------------

  predicate Plain(b: Bucket) {
    b.custom.None? && b.rate >= 0.0 && b.burst >= 0 && 0.0 <= b.tokens <= b.burst as real
  }

  predicate TimesFrom(times: seq<real>, start: real) {
    |times| == 0 || (start <= times[0] && TimesFrom(times[1..], times[0]))
  }

  function Verdicts(b: Bucket, times: seq<real>): (v: seq<bool>)
    ensures |v| == |times|
    decreases |times|
  {
    if |times| == 0 then [] else [Admits(b, times[0])] + Verdicts(AfterCheck(b, times[0]), times[1..])
  }

  lemma CheckKeepsPlain(b: Bucket, t: real)
    requires Plain(b) && b.lastUpdate <= t
    ensures Plain(AfterCheck(b, t)) && AfterCheck(b, t).lastUpdate == t
    ensures AfterCheck(b, t).rate == b.rate && AfterCheck(b, t).burst == b.burst
  {
    assert EffectiveRate(b, t) == b.rate && EffectiveBurst(b, t) == b.burst;
    Scale(t - b.lastUpdate, EffectiveRate(b, t), b.rate);
    assert 0.0 <= Level(b, t) <= b.burst as real;
  }

  lemma LevelNow(b: Bucket)
    requires Plain(b)
    ensures Level(b, b.lastUpdate) == b.tokens
  {
    NoTime(b.lastUpdate - b.lastUpdate, EffectiveRate(b, b.lastUpdate));
  }

  lemma NoTime(d: real, r: real)
    requires d == 0.0
    ensures Refill(d, r) == 0.0
  {
  }

  /** Refilling in two stretches is refilling in one. */
  lemma RefillIsAdditive(b: Bucket, s: real, t: real)
    requires Plain(b) && b.lastUpdate <= s <= t
    ensures Level(b, t) == Min(Level(b, s) + Refill(t - s, b.rate), b.burst as real)
  {
    RefillAdds(s - b.lastUpdate, t - s, b.rate);
    assert s - b.lastUpdate + (t - s) == t - b.lastUpdate;
    Scale(t - s, b.rate, b.rate);
  }

  /** Buckets of one configuration that would find the same level at `t` answer every later call alike. */
  lemma {:induction false} SameLevelSameVerdicts(b: Bucket, c: Bucket, t: real, times: seq<real>)
    requires Plain(b) && Plain(c) && b.rate == c.rate && b.burst == c.burst
    requires b.lastUpdate <= t && c.lastUpdate <= t && Level(b, t) == Level(c, t) && TimesFrom(times, t)
    ensures Verdicts(b, times) == Verdicts(c, times)
    decreases |times|
  {
    if |times| > 0 {
      var u := times[0];
      SameLevelLater(b, c, t, u);
      CheckKeepsPlain(b, u);
      CheckKeepsPlain(c, u);
      LevelNow(AfterCheck(b, u));
      LevelNow(AfterCheck(c, u));
      SameLevelSameVerdicts(AfterCheck(b, u), AfterCheck(c, u), u, times[1..]);
    }
  }

  lemma SameLevelLater(b: Bucket, c: Bucket, t: real, u: real)
    requires Plain(b) && Plain(c) && b.rate == c.rate && b.burst == c.burst
    requires b.lastUpdate <= t <= u && c.lastUpdate <= t && Level(b, t) == Level(c, t)
    ensures Level(b, u) == Level(c, u)
  {
    RefillIsAdditive(b, t, u);
    RefillIsAdditive(c, t, u);
  }

  /** A denied call leaves the level where it was at every later time. */
  lemma DeniedCallIsInvisible(b: Bucket, t: real, times: seq<real>)
    requires Plain(b) && b.lastUpdate <= t && !Admits(b, t) && TimesFrom(times, t)
    ensures Verdicts(AfterCheck(b, t), times) == Verdicts(b, times)
  {
    CheckKeepsPlain(b, t);
    LevelNow(AfterCheck(b, t));
    SameLevelSameVerdicts(AfterCheck(b, t), b, t, times);
  }

  /** The calls that were admitted. */
  function AdmittedTimes(b: Bucket, times: seq<real>): seq<real>
    decreases |times|
  {
    if |times| == 0 then []
    else (if Admits(b, times[0]) then [times[0]] else []) + AdmittedTimes(AfterCheck(b, times[0]), times[1..])
  }

  lemma {:induction false} LaterTimes(times: seq<real>, start: real, earlier: real)
    requires TimesFrom(times, start) && earlier <= start
    ensures TimesFrom(times, earlier)
  {
  }

  lemma {:induction false} AdmittedTimesInOrder(b: Bucket, times: seq<real>, start: real)
    requires TimesFrom(times, start)
    ensures TimesFrom(AdmittedTimes(b, times), start)
    decreases |times|
  {
    if |times| > 0 {
      var rest := AdmittedTimes(AfterCheck(b, times[0]), times[1..]);
      AdmittedTimesInOrder(AfterCheck(b, times[0]), times[1..], times[0]);
      TimesCons(times[0], rest, start);
      if !Admits(b, times[0]) {
        LaterTimes(rest, times[0], start);
        assert [] + rest == rest;
      }
    }
  }

  lemma TimesCons(t: real, rest: seq<real>, start: real)
    requires start <= t && TimesFrom(rest, t)
    ensures TimesFrom([t] + rest, start)
  {
    assert ([t] + rest)[1..] == rest;
  }

  lemma VerdictsCons(b: Bucket, t: real, rest: seq<real>)
    ensures Verdicts(b, [t] + rest) == [Admits(b, t)] + Verdicts(AfterCheck(b, t), rest)
  {
    assert ([t] + rest)[1..] == rest;
  }

  /** Deleting every denied call from a history changes no other verdict: all remaining calls are still admitted. */
  lemma {:induction false} DeniedCallsChangeNothing(b: Bucket, times: seq<real>, start: real) returns (left: seq<real>)
    requires Plain(b) && b.lastUpdate <= start && TimesFrom(times, start)
    ensures left == AdmittedTimes(b, times) && forall i :: 0 <= i < |left| ==> Verdicts(b, left)[i]
    decreases |times|
  {
    if |times| == 0 {
      left := [];
    } else {
      var t, next := times[0], AfterCheck(b, times[0]);
      CheckKeepsPlain(b, t);
      left := DeniedCallsChangeNothing(next, times[1..], t);
      if Admits(b, t) {
        VerdictsCons(b, t, left);
        left := [t] + left;
      } else {
        AdmittedTimesInOrder(next, times[1..], t);
        DeniedCallIsInvisible(b, t, left);
      }
    }
  }

  /** Inserting or deleting one denied call anywhere leaves every other verdict unchanged. */
  lemma {:induction false} OneDeniedCall(b: Bucket, before: seq<real>, t: real, after: seq<real>, start: real)
    requires Plain(b) && b.lastUpdate <= start && TimesFrom(before + [t] + after, start)
    requires !Verdicts(b, before + [t])[|before|]
    ensures Verdicts(b, before + [t] + after) == Verdicts(b, before) + [false] + Verdicts(b, before + after)[|before|..]
    ensures Verdicts(b, before + after)[..|before|] == Verdicts(b, before)
    decreases |before|
  {
    if |before| == 0 {
      assert before + [t] + after == [t] + after && before + after == after && before + [t] == [t];
      DeniedCallIsInvisible(b, t, after);
    } else {
      var u, rest := before[0], before[1..];
      var next := AfterCheck(b, u);
      assert before == [u] + rest && before + [t] + after == [u] + (rest + [t] + after);
      assert before + after == [u] + (rest + after) && before + [t] == [u] + (rest + [t]);
      VerdictsCons(b, u, rest);
      VerdictsCons(b, u, rest + [t]);
      VerdictsCons(b, u, rest + after);
      VerdictsCons(b, u, rest + [t] + after);
      CheckKeepsPlain(b, u);
      OneDeniedCall(next, rest, t, after, u);
      SpliceCons(Admits(b, u), Verdicts(next, rest), Verdicts(next, rest + [t] + after), Verdicts(next, rest + after),
                 |rest|);
    }
  }

  lemma SpliceCons(v: bool, x: seq<bool>, y: seq<bool>, z: seq<bool>, n: nat)
    requires n <= |z| && y == x + [false] + z[n..] && z[..n] == x
    ensures [v] + y == ([v] + x) + [false] + ([v] + z)[n + 1..]
    ensures ([v] + z)[..n + 1] == [v] + x
  {
    assert ([v] + z)[n + 1..] == z[n..];
    assert [v] + (x + [false] + z[n..]) == ([v] + x) + [false] + z[n..];
  }

  // ---- Idle eviction -------------------------------------------------------------------------------------------

  /** Seconds a limiter must have been idle before it is evicted. */
  const IDLE: real := 300.0

  /** Replacing the limiter by a new one at `t` changes no later verdict. */
  ghost predicate EvictionInvisible(b: Bucket, t: real) {
    forall times :: TimesFrom(times, t) ==> Verdicts(b, times) == Verdicts(Fresh(b.rate, b.burst, t), times)
  }

  function Burst(t: real, n: nat): (times: seq<real>)
    ensures |times| == n
    decreases n
  {
    if n == 0 then [] else [t] + Burst(t, n - 1)
  }

  lemma {:induction false} BurstVerdicts(b: Bucket, t: real, n: nat)
    requires Plain(b) && b.lastUpdate <= t
    ensures TimesFrom(Burst(t, n), t)
    ensures n > 0 ==> (Verdicts(b, Burst(t, n))[n - 1] <==> Level(b, t) >= n as real)
    decreases n
  {
    if n > 0 {
      var next := AfterCheck(b, t);
      CheckKeepsPlain(b, t);
      LevelNow(next);
      BurstVerdicts(next, t, n - 1);
    }
  }

  lemma PositiveBurst(burst: int, x: real)
    requires 0.0 <= x < burst as real
    ensures burst > 0
  {
  }

  /** For one limiter: its eviction is invisible exactly when it would have been full again anyway. */
  lemma EvictionIsInvisibleIff(b: Bucket, t: real)
    requires Plain(b) && b.lastUpdate <= t
    ensures EvictionInvisible(b, t) <==> b.tokens + Refill(t - b.lastUpdate, b.rate) >= b.burst as real
  {
    var anew := Fresh(b.rate, b.burst, t);
    assert Level(anew, t) == b.burst as real;
    if b.tokens + Refill(t - b.lastUpdate, b.rate) >= b.burst as real {
      forall times | TimesFrom(times, t) ensures Verdicts(b, times) == Verdicts(anew, times) {
        SameLevelSameVerdicts(b, anew, t, times);
      }
    } else {
      Scale(t - b.lastUpdate, b.rate, b.rate);
      PositiveBurst(b.burst, b.tokens + Refill(t - b.lastUpdate, b.rate));
      BurstVerdicts(b, t, b.burst);
      BurstVerdicts(anew, t, b.burst);
      assert Verdicts(b, Burst(t, b.burst))[b.burst - 1] != Verdicts(anew, Burst(t, b.burst))[b.burst - 1];
    }
  }

  /** Every limiter of this configuration, whatever its history, may be evicted unnoticed after the idle time. */
  ghost predicate PolicyInvisible(rate: real, burst: int) {
    forall created: real, times: seq<real>, evicted: real ::
      TimesFrom(times, created) && AfterTimes(Fresh(rate, burst, created), times).lastUpdate + IDLE < evicted ==>
        EvictionInvisible(AfterTimes(Fresh(rate, burst, created), times), evicted)
  }

  function AfterTimes(b: Bucket, times: seq<real>): Bucket
    decreases |times|
  {
    if |times| == 0 then b else AfterTimes(AfterCheck(b, times[0]), times[1..])
  }

  lemma {:induction false} AfterTimesPlain(b: Bucket, times: seq<real>, start: real)
    requires Plain(b) && b.lastUpdate <= start && TimesFrom(times, start)
    ensures Plain(AfterTimes(b, times))
    ensures AfterTimes(b, times).rate == b.rate && AfterTimes(b, times).burst == b.burst
    decreases |times|
  {
    if |times| > 0 {
      CheckKeepsPlain(b, times[0]);
      AfterTimesPlain(AfterCheck(b, times[0]), times[1..], times[0]);
    }
  }

  lemma {:induction false} DrainedByBurst(b: Bucket, n: nat)
    requires Plain(b) && b.tokens == n as real
    ensures AfterTimes(b, Burst(b.lastUpdate, n)) == b.(tokens := 0.0)
    ensures TimesFrom(Burst(b.lastUpdate, n), b.lastUpdate)
    decreases n
  {
    if n > 0 {
      LevelNow(b);
      CheckKeepsPlain(b, b.lastUpdate);
      DrainedByBurst(AfterCheck(b, b.lastUpdate), n - 1);
    }
  }

  /** The eviction policy is invisible to all clients exactly when five idle minutes refill the whole bucket. */
  lemma EvictionPolicyIsInvisibleIff(rate: real, burst: int)
    requires rate >= 0.0 && burst >= 0
    ensures PolicyInvisible(rate, burst) <==> burst as real <= Refill(IDLE, rate)
  {
    if burst as real <= Refill(IDLE, rate) {
      forall created: real, times: seq<real>, evicted: real |
        TimesFrom(times, created) && AfterTimes(Fresh(rate, burst, created), times).lastUpdate + IDLE < evicted
        ensures EvictionInvisible(AfterTimes(Fresh(rate, burst, created), times), evicted)
      {
        var b := AfterTimes(Fresh(rate, burst, created), times);
        AfterTimesPlain(Fresh(rate, burst, created), times, created);
        LongIdleRefills(b, evicted);
        EvictionIsInvisibleIff(b, evicted);
      }
    } else {
      var anew := Fresh(rate, burst, 0.0);
      var drained := AfterTimes(anew, Burst(0.0, burst));
      DrainedByBurst(anew, burst);
      var evicted := JustTooEarly(rate, burst);
      EvictionIsInvisibleIff(drained, evicted);
      assert !EvictionInvisible(AfterTimes(Fresh(rate, burst, 0.0), Burst(0.0, burst)), evicted);
    }
  }

  lemma LongIdleRefills(b: Bucket, evicted: real)
    requires Plain(b) && b.lastUpdate + IDLE < evicted
    requires b.burst as real <= Refill(IDLE, b.rate)
    ensures b.tokens + Refill(evicted - b.lastUpdate, b.rate) >= b.burst as real
  {
    MoreTimeMoreRefill(b.rate, IDLE, evicted - b.lastUpdate);
  }

  /** A moment after the idle time at which an empty bucket is not yet full. */
  lemma JustTooEarly(rate: real, burst: int) returns (t: real)
    requires rate >= 0.0 && burst > 0 && burst as real > Refill(IDLE, rate)
    ensures t > IDLE && Refill(t, rate) < burst as real
  {
    if rate == 0.0 {
      t := IDLE + 1.0;
    } else {
      t := (IDLE + burst as real / rate) / 2.0;
      assert burst as real / rate * rate == burst as real;
      if burst as real / rate <= IDLE {
        Scale(rate, burst as real / rate, IDLE);
      }
    }
  }
}
