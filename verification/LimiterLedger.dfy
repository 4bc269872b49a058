/**
 What the verdicts of a limiter are, in plain arithmetic: refill, cap, price of a call, and which configuration is in
 force.
 */
module LimiterLedger {
  import opened Prelude
  import opened TokenBucket
  import opened LimiterResets

  // ---- One configuration ---------------------------------------------------------------------------------------

  /** `found` is what a call finds `since` seconds after `left` tokens were left: never more than the burst. */
  predicate Finds(left: real, since: real, rate: real, burst: int, found: real) {
    found == if left + rate * since > burst as real then burst as real else left + rate * since
  }

  /** A call is admitted when it finds a whole token, and takes it. */
  predicate Takes(found: real, admitted: bool, left: real) {
    (admitted <==> found >= 1.0) && left == (if admitted then found - 1.0 else found)
  }

  /** The tokens left before and after each call, and the verdicts. */
  ghost predicate IsLedger(rate: real, burst: int, last: real, times: seq<real>, left: seq<real>, found: seq<real>,
                           verdicts: seq<bool>) {
    && |left| == |times| + 1 && |found| == |verdicts| == |times|
    && forall i :: 0 <= i < |times| ==>
         IsEntry(rate, burst, Since(last, times, i), left[i], found[i], verdicts[i], left[i + 1])
  }

  ghost predicate IsEntry(rate: real, burst: int, since: real, before: real, found: real, verdict: bool, after: real) {
    Finds(before, since, rate, burst, found) && Takes(found, verdict, after)
  }

  /** The seconds between a call and the one before it. */
  function Since(last: real, times: seq<real>, i: nat): real
    requires i < |times|
  {
    times[i] - (if i == 0 then last else times[i - 1])
  }

  lemma OneCall(b: Bucket, t: real) returns (found: real)
    requires b.custom.None?
    ensures Finds(b.tokens, t - b.lastUpdate, b.rate, b.burst, found)
    ensures Takes(found, Admits(b, t), AfterCheck(b, t).tokens)
    ensures AfterCheck(b, t).lastUpdate == t && AfterCheck(b, t).custom.None?
    ensures AfterCheck(b, t).rate == b.rate && AfterCheck(b, t).burst == b.burst
  {
    found := Level(b, t);
    Commute(t - b.lastUpdate, b.rate);
  }

  lemma Commute(x: real, y: real)
    ensures x * y == y * x && Refill(x, y) == y * x
  {
  }

  lemma LedgerOneMore(rate: real, burst: int, last: real, t: real, times: seq<real>, x: real, f: real, v: bool,
                      left: seq<real>, found: seq<real>, verdicts: seq<bool>)
    requires IsLedger(rate, burst, t, times, left, found, verdicts)
    requires IsEntry(rate, burst, t - last, x, f, v, left[0])
    ensures IsLedger(rate, burst, last, [t] + times, [x] + left, [f] + found, [v] + verdicts)
  {
    var ts, ls, fs, vs := [t] + times, [x] + left, [f] + found, [v] + verdicts;
    forall i | 0 <= i < |ts|
      ensures IsEntry(rate, burst, Since(last, ts, i), ls[i], fs[i], vs[i], ls[i + 1])
    {
      if i > 0 {
        assert Since(last, ts, i) == Since(t, times, i - 1);
        assert IsEntry(rate, burst, Since(t, times, i - 1), left[i - 1], found[i - 1], verdicts[i - 1], left[i]);
      }
    }
  }

  /** The verdicts on any series of calls are those of the token ledger. */
  lemma {:induction false} VerdictsAreTheLedger(b: Bucket, times: seq<real>) returns (left: seq<real>, found: seq<real>)
    requires b.custom.None?
    ensures IsLedger(b.rate, b.burst, b.lastUpdate, times, left, found, Verdicts(b, times)) && left[0] == b.tokens
    ensures AfterChecks(b, times).tokens == left[|times|]
    decreases |times|
  {
    if |times| == 0 {
      left, found := [b.tokens], [];
    } else {
      var t, next := times[0], AfterCheck(b, times[0]);
      var f := OneCall(b, t);
      left, found := VerdictsAreTheLedger(next, times[1..]);
      LedgerOneMore(b.rate, b.burst, b.lastUpdate, t, times[1..], b.tokens, f, Admits(b, t), left, found,
                    Verdicts(next, times[1..]));
      assert times == [t] + times[1..];
      left, found := [b.tokens] + left, [f] + found;
    }
  }

  /** Calls that leave each other the time for one token are all admitted. */
  ghost predicate Spaced(rate: real, last: real, times: seq<real>) {
    forall i :: 0 < i < |times| ==> BringsAToken(rate, Since(last, times, i))
  }

  predicate BringsAToken(rate: real, since: real) {
    rate * since >= 1.0
  }

  predicate Enough(before: real, rate: real, since: real) {
    before + rate * since >= 1.0
  }

  lemma TokenBrought(rate: real, burst: int, since: real, before: real, found: real, verdict: bool, after: real)
    requires IsEntry(rate, burst, since, before, found, verdict, after) && burst >= 1 && Enough(before, rate, since)
    ensures verdict && after >= 0.0
  {
  }

  lemma BroughtIsEnough(before: real, rate: real, since: real)
    requires before >= 0.0 && BringsAToken(rate, since)
    ensures Enough(before, rate, since)
  {
  }

  lemma {:induction false} SteadyFrom(left: seq<real>, found: seq<real>, rate: real, burst: int, last: real,
                                      times: seq<real>, verdicts: seq<bool>, i: nat)
    requires IsLedger(rate, burst, last, times, left, found, verdicts) && i < |times|
    requires burst >= 1 && Spaced(rate, last, times) && Enough(left[0], rate, times[0] - last)
    ensures verdicts[i] && left[i + 1] >= 0.0
  {
    assert IsEntry(rate, burst, Since(last, times, i), left[i], found[i], verdicts[i], left[i + 1]);
    if i > 0 {
      SteadyFrom(left, found, rate, burst, last, times, verdicts, i - 1);
      assert BringsAToken(rate, Since(last, times, i));
      BroughtIsEnough(left[i], rate, Since(last, times, i));
    }
    TokenBrought(rate, burst, Since(last, times, i), left[i], found[i], verdicts[i], left[i + 1]);
  }

  /** The lower bound: a client whose calls are one token's time apart is never refused, from the first call that
      finds a token on. */
  lemma SteadyCallsAreAdmitted(b: Bucket, times: seq<real>)
    requires b.custom.None? && b.burst >= 1 && |times| > 0
    requires Spaced(b.rate, b.lastUpdate, times) && Enough(b.tokens, b.rate, times[0] - b.lastUpdate)
    ensures forall i :: 0 <= i < |times| ==> Verdicts(b, times)[i]
  {
    var left, found := VerdictsAreTheLedger(b, times);
    forall i | 0 <= i < |times| ensures Verdicts(b, times)[i] {
      SteadyFrom(left, found, b.rate, b.burst, b.lastUpdate, times, Verdicts(b, times), i);
    }
  }

  /** At one instant a new limiter admits exactly its burst. */
  lemma {:induction false} BurstFrom(left: seq<real>, found: seq<real>, rate: real, burst: int, t: real,
                                     times: seq<real>, verdicts: seq<bool>, i: nat)
    requires IsLedger(rate, burst, t, times, left, found, verdicts) && i < |times|
    requires left[0] == burst as real && burst >= 0 && forall j :: 0 <= j < |times| ==> times[j] == t
    ensures left[i] == (if i <= burst then burst - i else 0) as real
    ensures left[i + 1] == (if i < burst then burst - i - 1 else 0) as real && (verdicts[i] <==> i < burst)
  {
    if i > 0 {
      BurstFrom(left, found, rate, burst, t, times, verdicts, i - 1);
    }
    assert IsEntry(rate, burst, Since(t, times, i), left[i], found[i], verdicts[i], left[i + 1]);
    Nothing(rate, Since(t, times, i));
  }

  lemma Nothing(rate: real, since: real)
    requires since == 0.0
    ensures rate * since == 0.0
  {
  }

  lemma FreshLimiterAdmitsItsBurst(rate: real, burst: int, t: real, times: seq<real>, i: nat)
    requires burst >= 0 && i < |times| && forall j :: 0 <= j < |times| ==> times[j] == t
    ensures Verdicts(Fresh(rate, burst, t), times)[i] <==> i < burst
  {
    var left, found := VerdictsAreTheLedger(Fresh(rate, burst, t), times);
    BurstFrom(left, found, rate, burst, t, times, Verdicts(Fresh(rate, burst, t), times), i);
  }

  /** And so does a limiter that is reset, whatever it had left. */
  lemma ResetLimiterAdmitsItsBurst(b: Bucket, t: real, times: seq<real>, i: nat)
    requires b.custom.None? && b.burst >= 0 && i < |times| && forall j :: 0 <= j < |times| ==> times[j] == t
    ensures Verdicts(AfterRequest(b, LimiterResets.Reset(t)), times)[i] <==> i < b.burst
  {
    FreshLimiterAdmitsItsBurst(b.rate, b.burst, t, times, i);
  }

  // ---- Which configuration is in force -------------------------------------------------------------------------

  /** The bucket that has `rate` and `burst` for its own, with the tokens and the clock of `b`. */
  function Owning(b: Bucket, rate: real, burst: int): Bucket {
    Bucket(rate, burst, b.tokens, b.lastUpdate, None)
  }

  lemma CheckInForce(b: Bucket, t: real)
    requires b.custom.Some? && t < b.custom.value.expiresAt
    ensures var own := Owning(b, b.custom.value.rate, b.custom.value.burst);
            && Admits(b, t) == Admits(own, t) && AfterCheck(b, t).custom == b.custom
            && AfterCheck(b, t).rate == b.rate && AfterCheck(b, t).burst == b.burst
            && AfterCheck(own, t) == Owning(AfterCheck(b, t), b.custom.value.rate, b.custom.value.burst)
  {
  }

  /** While a custom configuration is in force, the verdicts are those of a bucket that has it for its own. */
  lemma {:induction false} CustomDecides(b: Bucket, times: seq<real>)
    requires b.custom.Some? && forall i :: 0 <= i < |times| ==> times[i] < b.custom.value.expiresAt
    ensures var own := Owning(b, b.custom.value.rate, b.custom.value.burst);
            && Verdicts(b, times) == Verdicts(own, times)
            && AfterChecks(b, times).custom == b.custom && AfterChecks(b, times).rate == b.rate
            && AfterChecks(b, times).burst == b.burst
            && AfterChecks(own, times) == Owning(AfterChecks(b, times), b.custom.value.rate, b.custom.value.burst)
    decreases |times|
  {
    if |times| > 0 {
      CheckInForce(b, times[0]);
      CustomDecides(AfterCheck(b, times[0]), times[1..]);
    }
  }

  lemma CheckExpired(b: Bucket, t: real)
    requires b.custom.Some? ==> b.custom.value.expiresAt <= t
    ensures var own := Owning(b, b.rate, b.burst);
            && Admits(b, t) == Admits(own, t)
            && (AfterCheck(b, t).custom.None? || AfterCheck(b, t).custom == b.custom)
            && AfterCheck(b, t).rate == b.rate && AfterCheck(b, t).burst == b.burst
            && AfterCheck(own, t) == Owning(AfterCheck(b, t), b.rate, b.burst)
  {
  }

  /** From its expiry on they are those of the base configuration. */
  lemma {:induction false} BaseDecides(b: Bucket, times: seq<real>)
    requires b.custom.Some? ==> forall i :: 0 <= i < |times| ==> b.custom.value.expiresAt <= times[i]
    ensures Verdicts(b, times) == Verdicts(Owning(b, b.rate, b.burst), times)
    decreases |times|
  {
    if |times| > 0 {
      CheckExpired(b, times[0]);
      BaseDecides(AfterCheck(b, times[0]), times[1..]);
    }
  }

  lemma {:induction false} VerdictsConcat(b: Bucket, before: seq<real>, after: seq<real>)
    ensures Verdicts(b, before + after) == Verdicts(b, before) + Verdicts(AfterChecks(b, before), after)
    decreases |before|
  {
    if |before| == 0 {
      assert before + after == after;
    } else {
      assert before + after == [before[0]] + (before[1..] + after);
      VerdictsCons(b, before[0], before[1..] + after);
      VerdictsConcat(AfterCheck(b, before[0]), before[1..], after);
    }
  }

  /** A custom configuration set for `duration` seconds: the tokens are clamped to its burst; calls before its end get
      the verdicts of a bucket with that rate and burst, and calls from its end on those of a bucket with the base
      rate and burst that takes over the tokens left. */
  lemma ConfigurationDecides(b: Bucket, rate: real, burst: int, at: real, duration: real, before: seq<real>,
                             after: seq<real>)
    requires forall i :: 0 <= i < |before| ==> before[i] < at + duration
    requires forall i :: 0 <= i < |after| ==> at + duration <= after[i]
    ensures var tokens := if b.tokens > burst as real then burst as real else b.tokens;
            var custom := Bucket(rate, burst, tokens, b.lastUpdate, None);
            var left := AfterChecks(custom, before);
            var base := Bucket(b.rate, b.burst, left.tokens, left.lastUpdate, None);
            Verdicts(AfterOp(b, Customize(at, rate, burst, duration)), before + after)
            == Verdicts(custom, before) + Verdicts(base, after)
  {
    var c := AfterOp(b, Customize(at, rate, burst, duration));
    VerdictsConcat(c, before, after);
    CustomDecides(c, before);
    BaseDecides(AfterChecks(c, before), after);
  }
}
