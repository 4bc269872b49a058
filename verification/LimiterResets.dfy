/** Manual interventions on a limiter: resets, which each grant a new burst, and clearing a custom configuration. */
module LimiterResets {
  import opened Prelude
  import opened TokenBucket

  datatype Request = On(op: Op) | Reset(at: real)

  function TimeOf(r: Request): real {
    if r.Reset? then r.at else r.op.time
  }

  function AfterRequest(b: Bucket, r: Request): Bucket {
    match r
    case On(op) => AfterOp(b, op)
    case Reset(t) => b.(tokens := b.burst as real, lastUpdate := t)
  }

  function AdmittedBy(b: Bucket, r: Request): nat {
    if r.Reset? then 0 else AdmittedNow(b, r.op)
  }

  function AdmittedAll(b: Bucket, requests: seq<Request>): nat
    decreases |requests|
  {
    if |requests| == 0 then 0
    else AdmittedBy(b, requests[0]) + AdmittedAll(AfterRequest(b, requests[0]), requests[1..])
  }

  predicate InOrderAll(requests: seq<Request>, start: real, end: real)
    decreases |requests|
  {
    if |requests| == 0 then start <= end
    else start <= TimeOf(requests[0]) <= end && InOrderAll(requests[1..], TimeOf(requests[0]), end)
  }

  predicate ConfigsAll(requests: seq<Request>, B: int, R: real) {
    forall i :: 0 <= i < |requests| && requests[i].On? ==> ConfigsWithin([requests[i].op], B, R)
  }

  /** One burst bound for every reset. */
  function Granted(requests: seq<Request>, B: int): real {
    if |requests| == 0 then 0.0 else (if requests[0].Reset? then B as real else 0.0) + Granted(requests[1..], B)
  }

  lemma {:induction false} GrantedIsNotNegative(requests: seq<Request>, B: int)
    requires B >= 0
    ensures Granted(requests, B) >= 0.0
  {
    if |requests| > 0 {
      GrantedIsNotNegative(requests[1..], B);
    }
  }

  lemma RequestKeepsWithin(b: Bucket, r: Request, B: int, R: real)
    requires Within(b, B, R) && b.lastUpdate <= TimeOf(r) && (r.On? ==> ConfigsWithin([r.op], B, R))
    ensures Within(AfterRequest(b, r), B, R) && AfterRequest(b, r).lastUpdate <= TimeOf(r)
  {
    if r.On? {
      OpKeepsWithin(b, r.op, B, R);
    }
  }

  lemma RequestPays(b: Bucket, r: Request, end: real, B: int, R: real, later: nat, granted: real) returns (count: nat)
    requires Within(b, B, R) && b.lastUpdate <= TimeOf(r) <= end && (r.On? ==> ConfigsWithin([r.op], B, R))
    requires AfterRequest(b, r).lastUpdate <= end
    requires later as real <= AfterRequest(b, r).tokens + granted + Refill(end - AfterRequest(b, r).lastUpdate, R)
    ensures count == AdmittedBy(b, r) + later
    ensures count as real <=
            b.tokens + (if r.Reset? then B as real else 0.0) + granted + Refill(end - b.lastUpdate, R)
  {
    var next := AfterRequest(b, r);
    count := AdmittedBy(b, r) + later;
    if r.Reset? {
      MoreTimeMoreRefill(R, end - next.lastUpdate, end - b.lastUpdate);
    } else {
      OpPays(b, r.op, B, R);
      RefillAdds(next.lastUpdate - b.lastUpdate, end - next.lastUpdate, R);
      assert (next.lastUpdate - b.lastUpdate) + (end - next.lastUpdate) == end - b.lastUpdate;
    }
  }

  lemma {:induction false} PaidWithResets(b: Bucket, requests: seq<Request>, start: real, end: real, B: int, R: real)
    returns (count: nat)
    requires Within(b, B, R) && ConfigsAll(requests, B, R)
    requires b.lastUpdate <= start && InOrderAll(requests, start, end)
    ensures count == AdmittedAll(b, requests)
    ensures count as real <= b.tokens + Granted(requests, B) + Refill(end - b.lastUpdate, R)
    decreases |requests|
  {
    if |requests| == 0 {
      count := 0;
      MoreTimeMoreRefill(R, end - b.lastUpdate, end - b.lastUpdate);
    } else {
      RequestKeepsWithin(b, requests[0], B, R);
      var next := AfterRequest(b, requests[0]);
      var later := PaidWithResets(next, requests[1..], TimeOf(requests[0]), end, B, R);
      count := RequestPays(b, requests[0], end, B, R, later, Granted(requests[1..], B));
    }
  }

  /** With manual resets a window of length d admits at most one more burst bound per reset in it: B + R*d, and B for
      each. */
  lemma {:induction false} WindowWithResets(b: Bucket, requests: seq<Request>, start: real, end: real, B: int, R: real)
    returns (count: nat)
    requires Within(b, B, R) && ConfigsAll(requests, B, R)
    requires b.lastUpdate <= start && InOrderAll(requests, start, end)
    ensures count == AdmittedAll(b, requests)
    ensures count as real <= B as real + Granted(requests, B) + Refill(end - start, R)
    decreases |requests|
  {
    if |requests| == 0 {
      count := 0;
      MoreTimeMoreRefill(R, end - start, end - start);
    } else {
      var r, t := requests[0], TimeOf(requests[0]);
      RequestKeepsWithin(b, r, B, R);
      MoreTimeMoreRefill(R, end - t, end - start);
      if r.On? && !r.op.Check? {
        count := WindowWithResets(AfterRequest(b, r), requests[1..], t, end, B, R);
      } else {
        var later := PaidWithResets(AfterRequest(b, r), requests[1..], t, end, B, R);
        count := AdmittedBy(b, r) + later;
        if r.On? {
          CheckKeepsWithin(b, t, B, R);
        }
      }
    }
  }

  // ---- Clearing a custom configuration -------------------------------------------------------------------------

  /** A configuration that has expired, cleared or not, decides nothing any more. */
  lemma {:induction false} ExpiredDecidesNothing(b: Bucket, times: seq<real>, start: real)
    requires b.custom.Some? && b.custom.value.expiresAt <= start && TimesFrom(times, start)
    ensures Verdicts(AfterOp(b, ClearCustom(start)), times) == Verdicts(b, times)
    decreases |times|
  {
    if |times| > 0 {
      var cleared, t := AfterOp(b, ClearCustom(start)), times[0];
      assert Level(cleared, t) == Level(b, t);
      if t > b.custom.value.expiresAt {
        assert AfterCheck(cleared, t) == AfterCheck(b, t);
      } else {
        ExpiredDecidesNothing(AfterCheck(b, t), times[1..], t);
        assert AfterOp(AfterCheck(b, t), ClearCustom(t)) == AfterCheck(cleared, t);
      }
    }
  }

  function AfterChecks(b: Bucket, times: seq<real>): Bucket
    decreases |times|
  {
    if |times| == 0 then b else AfterChecks(AfterCheck(b, times[0]), times[1..])
  }

  /** The same bucket with a configuration that expires at another time. */
  function Expiring(b: Bucket, at: real): Bucket
    requires b.custom.Some?
  {
    b.(custom := Some(b.custom.value.(expiresAt := at)))
  }

  lemma CheckBeforeExpiry(b: Bucket, t: real, start: real)
    requires b.custom.Some? && t < start <= b.custom.value.expiresAt
    ensures Admits(Expiring(b, start), t) == Admits(b, t)
    ensures AfterCheck(b, t).custom == b.custom
    ensures AfterCheck(Expiring(b, start), t) == Expiring(AfterCheck(b, t), start)
  {
    assert Level(Expiring(b, start), t) == Level(b, t);
  }

  /** Clearing a configuration that is still in force is having it expire at that moment: a limiter that is
      cleared at `start` and one whose configuration was to expire at `start` all along give the same verdicts,
      before and after. */
  lemma {:induction false} ClearingIsExpiring(b: Bucket, before: seq<real>, start: real, after: seq<real>)
    requires b.custom.Some? && start <= b.custom.value.expiresAt
    requires (forall i :: 0 <= i < |before| ==> before[i] < start) && TimesFrom(after, start)
    ensures Verdicts(b, before) == Verdicts(Expiring(b, start), before)
    ensures Verdicts(AfterOp(AfterChecks(b, before), ClearCustom(start)), after)
         == Verdicts(AfterChecks(Expiring(b, start), before), after)
    decreases |before|
  {
    if |before| == 0 {
      ExpiredDecidesNothing(Expiring(b, start), after, start);
      assert AfterOp(Expiring(b, start), ClearCustom(start)) == AfterOp(b, ClearCustom(start));
    } else {
      CheckBeforeExpiry(b, before[0], start);
      ClearingIsExpiring(AfterCheck(b, before[0]), before[1..], start, after);
    }
  }
}
