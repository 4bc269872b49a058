/** Exact conditions for whole nodes: when a log has one outcome on all of them, and when a restore goes unnoticed. */
module FsmReplicas {
  import opened Fsm
  import Kv
  import KvReplication
  import KvDeterminism
  import KvRuns
  import ServiceModel
  import ServiceTypes
  import ServiceRuns

  // ---- One outcome on all nodes --------------------------------------------------------------------------------

  /** At step `n` the nodes hold the same except for expiry times, and answer alike except to health updates. */
  ghost predicate SameNode(s: State, t: State, a: seq<Applying>, b: seq<Applying>, ttl: int, n: nat)
    requires ValidRun(a) && ValidRun(b) && |a| == |b| && n <= |a|
  {
    && SameButDates(StateAt(s, a, ttl, n), StateAt(t, b, ttl, n))
    && (n < |a| && !a[n].entry.HealthEntry? ==> AnswerAt(s, a, ttl, n) == AnswerAt(t, b, ttl, n))
  }

  ghost predicate SameRun(start: State, a: seq<Applying>, b: seq<Applying>, ttl: int)
    requires ValidRun(a)
  {
    ValidRun(b) && SameLog(a, b) ==> forall n :: 0 <= n <= |a| ==> SameNode(start, start, a, b, ttl, n)
  }

  /** Every other node, with map orders and a clock of its own, goes through the same. */
  ghost predicate SameForAllNodes(start: State, a: seq<Applying>, ttl: int)
    requires ValidRun(a)
  {
    forall b :: SameRun(start, a, b, ttl)
  }

  ghost predicate OrderFreeAt(start: State, a: seq<Applying>, ttl: int, i: nat)
    requires ValidRun(a) && i < |a|
  {
    a[i].entry.KvEntry? ==> KvDeterminism.OrderFree(StateAt(start, a, ttl, i).kv, a[i].entry.kv)
  }

  /** Every key command of the log, in the state it meets, is free of the order. */
  ghost predicate AllOrderFree(start: State, a: seq<Applying>, ttl: int)
    requires ValidRun(a)
  {
    forall i :: 0 <= i < |a| ==> OrderFreeAt(start, a, ttl, i)
  }

  /** Each step of the log has the same outcome for the orders of both nodes. */
  ghost predicate StepsAlike(start: State, a: seq<Applying>, b: seq<Applying>, ttl: int)
    requires ValidRun(a) && ValidRun(b) && SameLog(a, b)
  {
    forall i :: 0 <= i < |a| ==> StepAlike(start, a, b, ttl, i)
  }

  ghost predicate StepAlike(start: State, a: seq<Applying>, b: seq<Applying>, ttl: int, i: nat)
    requires ValidRun(a) && ValidRun(b) && SameLog(a, b) && i < |a|
  {
    SameOutcome(StateAt(start, a, ttl, i).kv, a[i].entry, a[i].local, b[i].local)
  }

  lemma {:induction false} AlikeStates(start: State, a: seq<Applying>, b: seq<Applying>, ttl: int, n: nat)
    requires ValidRun(a) && ValidRun(b) && SameLog(a, b) && n <= |a| && StepsAlike(start, a, b, ttl)
    ensures SameButDates(StateAt(start, a, ttl, n), StateAt(start, b, ttl, n))
  {
    if n > 0 {
      AlikeStates(start, a, b, ttl, n - 1);
      assert StepAlike(start, a, b, ttl, n - 1);
      SameEntry(StateAt(start, a, ttl, n - 1), StateAt(start, b, ttl, n - 1), a[n - 1].entry, a[n - 1].local,
                b[n - 1].local, ttl);
    }
  }

  lemma AlikeNodes(start: State, a: seq<Applying>, b: seq<Applying>, ttl: int, n: nat)
    requires ValidRun(a) && ValidRun(b) && SameLog(a, b) && n <= |a| && StepsAlike(start, a, b, ttl)
    ensures SameNode(start, start, a, b, ttl, n)
  {
    AlikeStates(start, a, b, ttl, n);
    if n < |a| {
      assert StepAlike(start, a, b, ttl, n);
      SameEntry(StateAt(start, a, ttl, n), StateAt(start, b, ttl, n), a[n].entry, a[n].local, b[n].local, ttl);
    }
  }

  lemma OrderFreeAlike(start: State, a: seq<Applying>, b: seq<Applying>, ttl: int)
    requires ValidRun(a) && ValidRun(b) && SameLog(a, b) && AllOrderFree(start, a, ttl)
    ensures StepsAlike(start, a, b, ttl)
  {
    forall i | 0 <= i < |a| ensures StepAlike(start, a, b, ttl, i) {
      assert OrderFreeAt(start, a, ttl, i);
      if a[i].entry.KvEntry? {
        KvDeterminism.OrderFreeSteps(StateAt(start, a, ttl, i).kv, Kv.Step(a[i].entry.kv, a[i].local.orders),
                                     Kv.Step(a[i].entry.kv, b[i].local.orders));
      }
    }
  }

  lemma {:induction false} SamePrefix(start: State, a: seq<Applying>, b: seq<Applying>, ttl: int, n: nat)
    requires ValidRun(a) && ValidRun(b) && n <= |a| && n <= |b| && a[..n] == b[..n]
    ensures StateAt(start, a, ttl, n) == StateAt(start, b, ttl, n)
  {
    if n > 0 {
      assert a[n - 1] == a[..n][n - 1] && b[n - 1] == b[..n][n - 1];
      assert a[..n - 1] == a[..n][..n - 1] && b[..n - 1] == b[..n][..n - 1];
      SamePrefix(start, a, b, ttl, n - 1);
    }
  }

  /** The run in which one node visits the batch of entry `i` in another order. */
  lemma OtherNode(start: State, a: seq<Applying>, ttl: int, i: nat) returns (b: seq<Applying>)
    requires ValidRun(a) && i < |a| && !OrderFreeAt(start, a, ttl, i)
    ensures ValidRun(b) && SameLog(a, b) && a[..i] == b[..i]
    ensures !SameOutcome(StateAt(start, a, ttl, i).kv, a[i].entry, a[i].local, b[i].local)
  {
    var step := Kv.Step(a[i].entry.kv, a[i].local.orders);
    var other := KvDeterminism.OtherOutcome(StateAt(start, a, ttl, i).kv, step);
    b := a[i := a[i].(local := a[i].local.(orders := other.schedule))];
    assert other == Kv.Step(a[i].entry.kv, b[i].local.orders);
  }

  lemma OutcomesDiffer(start: State, a: seq<Applying>, b: seq<Applying>, ttl: int, i: nat)
    requires ValidRun(a) && ValidRun(b) && SameLog(a, b) && i < |a|
    requires StateAt(start, a, ttl, i) == StateAt(start, b, ttl, i)
    requires !SameOutcome(StateAt(start, a, ttl, i).kv, a[i].entry, a[i].local, b[i].local)
    ensures !SameNode(start, start, a, b, ttl, i) || !SameNode(start, start, a, b, ttl, i + 1)
  {
  }

  /** A log has one outcome on all nodes, expiry times and health answers aside, exactly when each key batch in it, in
      the state it meets, has at most one item or is a compare-and-swap batch refused because of one item only.
      Service entries never part the nodes. */
  lemma LogIsDeterministicIff(start: State, a: seq<Applying>, ttl: int)
    requires ValidRun(a)
    ensures SameForAllNodes(start, a, ttl) <==> AllOrderFree(start, a, ttl)
  {
    if AllOrderFree(start, a, ttl) {
      forall b ensures SameRun(start, a, b, ttl) {
        if ValidRun(b) && SameLog(a, b) {
          OrderFreeAlike(start, a, b, ttl);
          forall n | 0 <= n <= |a| ensures SameNode(start, start, a, b, ttl, n) {
            AlikeNodes(start, a, b, ttl, n);
          }
        }
      }
    } else {
      var i :| 0 <= i < |a| && !OrderFreeAt(start, a, ttl, i);
      var b := OtherNode(start, a, ttl, i);
      SamePrefix(start, a, b, ttl, i);
      OutcomesDiffer(start, a, b, ttl, i);
      assert !SameRun(start, a, b, ttl);
    }
  }

  // ---- An unnoticed restore ------------------------------------------------------------------------------------

  ghost predicate SameOrders(a: seq<Applying>, b: seq<Applying>) {
    SameLog(a, b) && forall i :: 0 <= i < |a| ==> a[i].local.orders == b[i].local.orders
  }

  /** Whatever log the two nodes apply, with the same map orders and clocks of their own: same answers, health aside. */
  ghost predicate AnswersAlike(s: State, t: State) {
    forall a, b, ttl, n: nat :: AnswerAlike(s, t, a, b, ttl, n)
  }

  ghost predicate AnswerAlike(s: State, t: State, a: seq<Applying>, b: seq<Applying>, ttl: int, n: nat) {
    ValidRun(a) && ValidRun(b) && SameOrders(a, b) && n < |a| && !a[n].entry.HealthEntry? ==>
      AnswerAt(s, a, ttl, n) == AnswerAt(t, b, ttl, n)
  }

  /** In both stores a live entry carries the counter, or nothing was ever written. */
  ghost predicate CountersSurvive(s: State) {
    && (s.kv.index == 0 || exists k :: k in s.kv.data && s.kv.data[k].modifyIndex == s.kv.index)
    && (s.services.index == 0
        || exists n :: n in s.services.data && s.services.data[n].modifyIndex == s.services.index)
  }

  const ZERO := Local(Kv.Schedule([], []), [], 0, id => true)

  ghost function Quiet(entry: Entry): Applying {
    Applying(entry, ZERO)
  }

  lemma TwoEntries(s: State, x: Entry, y: Entry, ttl: int)
    requires ValidLocal(x, ZERO) && ValidLocal(y, ZERO)
    ensures ValidRun([Quiet(x), Quiet(y)])
    ensures AnswerAt(s, [Quiet(x), Quiet(y)], ttl, 1) == Applied(Applied(s, x, ZERO, ttl).0, y, ZERO, ttl).1
  {
    var run := [Quiet(x), Quiet(y)];
    assert StateAt(s, run, ttl, 1) == Applied(StateAt(s, run, ttl, 0), x, ZERO, ttl).0;
  }

  lemma AnswersDiffer(s: State, t: State, x: Entry, y: Entry)
    requires ValidLocal(x, ZERO) && ValidLocal(y, ZERO) && !y.HealthEntry?
    requires Applied(Applied(s, x, ZERO, 0).0, y, ZERO, 0).1 != Applied(Applied(t, x, ZERO, 0).0, y, ZERO, 0).1
    ensures !AnswersAlike(s, t)
  {
    var run := [Quiet(x), Quiet(y)];
    TwoEntries(s, x, y, 0);
    TwoEntries(t, x, y, 0);
    assert !AnswerAlike(s, t, run, run, 0, 1);
  }

  lemma KeyGapIsVisible(s: State, t: State)
    requires t.kv.index < s.kv.index
    ensures !AnswersAlike(s, t)
  {
    var x := KvEntry(Kv.CmdSet("k", "v"));
    var y := KvEntry(Kv.CmdSetCAS("k", "v", s.kv.index + 1));
    AnswersDiffer(s, t, x, y);
  }

  lemma ServiceGapIsVisible(s: State, t: State)
    requires t.services.index < s.services.index
    ensures !AnswersAlike(s, t)
  {
    var svc := ServiceTypes.Service("n", "a", 80, [], map[]);
    var x := ServiceEntry(ServiceModel.CmdRegister(svc));
    var y := ServiceEntry(ServiceModel.CmdRegisterCAS(svc, s.services.index + 1));
    assert ServiceModel.ValidService(svc);
    AnswersDiffer(s, t, x, y);
  }

  lemma SameStartAnswersAlike(s: State)
    ensures AnswersAlike(s, s)
  {
    forall a, b, ttl, n: nat ensures AnswerAlike(s, s, a, b, ttl, n) {
      if ValidRun(a) && ValidRun(b) && SameOrders(a, b) && n < |a| {
        forall i | 0 <= i < |a| ensures StepAlike(s, a, b, ttl, i) {}
        AlikeNodes(s, a, b, ttl, n);
      }
    }
  }

  /** Nobody who sees the answers of a restored node can tell it from the node that went on, compare-and-swap included,
      exactly when the counters of both stores survive the restore. */
  lemma RestoreIsInvisibleIff(s: State)
    requires KvReplication.BelowCounter(s.kv) && KvRuns.WellIndexed(ServiceRuns.Shadow(s.services))
    ensures AnswersAlike(s, Restored(s)) <==> CountersSurvive(s)
    ensures CountersSurvive(s) <==> Restored(s) == s
  {
    KvReplication.GapIsZeroIff(s.kv);
    ServiceRuns.GapIsZeroIff(s.services);
    if Restored(s).kv.index < s.kv.index {
      KeyGapIsVisible(s, Restored(s));
    } else if Restored(s).services.index < s.services.index {
      ServiceGapIsVisible(s, Restored(s));
    } else {
      SameStartAnswersAlike(s);
    }
  }
}
