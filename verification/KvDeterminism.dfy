/** When the outcome of a log does not depend on the order in which a replica visits its batches. */
module KvDeterminism {
  import opened Prelude
  import opened Kv
  import opened KvRuns
  import opened KvReplication

  // ---- Two orders of one batch ---------------------------------------------------------------------------------

  function Flip(order: seq<string>): seq<string>
    requires |order| >= 2
  {
    [order[1], order[0]] + order[2..]
  }

  lemma FlipEnumerates(order: seq<string>, S: set<string>)
    requires Enumerates(order, S) && |order| >= 2
    ensures Enumerates(Flip(order), S)
  {
    var other := Flip(order);
    forall i | 2 <= i < |order| ensures other[i] == order[i] {}
    forall x ensures x in other <==> x in order {
      if x in order {
        var i :| 0 <= i < |order| && order[i] == x;
        assert other[if i == 0 then 1 else if i == 1 then 0 else i] == x;
      }
    }
  }

  /** The key visited first gets the next index; visited second, the one after it. */
  lemma OrderShows(s: State, items: map<string, string>, order: seq<string>)
    requires Enumerates(order, items.Keys) && |items| >= 2
    ensures |order| >= 2 && Enumerates(Flip(order), items.Keys)
    ensures (forall k :: k in order ==> k in items) && (forall k :: k in Flip(order) ==> k in items)
    ensures order[0] in PutAll(s, items, order).data && order[0] in PutAll(s, items, Flip(order)).data
    ensures PutAll(s, items, order).data[order[0]].modifyIndex == s.index + 1
    ensures PutAll(s, items, Flip(order)).data[order[0]].modifyIndex == s.index + 2
  {
    OrderInItems(order, items);
    FlipEnumerates(order, items.Keys);
    OrderInItems(Flip(order), items);
    PutAllContents(s, items, order);
    PutAllContents(s, items, Flip(order));
    assert Flip(order)[1] == order[0];
  }

  /** In every state, every batch of two or more keys can be visited in two orders that answer a later compare-and-swap
      differently, whatever the first order was. */
  lemma BatchOrderBreaksCas(s: State, items: map<string, string>, first: Schedule, v: string)
    returns (a: seq<Step>, b: seq<Step>)
    requires |items| >= 2 && ValidStep(Step(CmdBatchSet(items), first))
    ensures |a| == 2 && ValidRun(a) && ValidRun(b) && SameLog(a, b)
    ensures a[0] == Step(CmdBatchSet(items), first) && a[1].command.CmdSetCAS?
    ensures ReplyAt(s, a, 1).Indexed? && ReplyAt(s, b, 1).Failed?
  {
    var other, key, t, u := OtherOrder(s, items, first);
    var swap := Step(CmdSetCAS(key, v, s.index + 1), first);
    a, b := [Step(CmdBatchSet(items), first), swap], [other, swap];
    SwapAfter(s, a[0], t, swap, a);
    SwapAfter(s, other, u, swap, b);
  }

  /** The same batch in another order: some key gets the first index in one order and the second in the other. */
  lemma OtherOrder(s: State, items: map<string, string>, first: Schedule)
    returns (other: Step, key: string, t: State, u: State)
    requires |items| >= 2 && ValidStep(Step(CmdBatchSet(items), first))
    ensures ValidStep(other) && other.command == CmdBatchSet(items)
    ensures t == Apply(s, Step(CmdBatchSet(items), first)).0 && u == Apply(s, other).0
    ensures key in t.data && t.data[key].modifyIndex == s.index + 1
    ensures key in u.data && u.data[key].modifyIndex == s.index + 2
  {
    var order := first.write;
    OrderShows(s, items, order);
    other := Step(CmdBatchSet(items), first.(write := Flip(order)));
    key, t, u := order[0], PutAll(s, items, order), PutAll(s, items, Flip(order));
  }

  lemma SwapAfter(s: State, step: Step, t: State, swap: Step, run: seq<Step>)
    requires ValidStep(step) && ValidStep(swap) && swap.command.CmdSetCAS? && swap.command.expected > 0
    requires run == [step, swap] && t == Apply(s, step).0 && swap.command.key in t.data
    ensures ValidRun(run)
    ensures if t.data[swap.command.key].modifyIndex == swap.command.expected then ReplyAt(s, run, 1).Indexed?
            else ReplyAt(s, run, 1).Failed?
  {
    assert StateAt(s, run, 1) == Apply(StateAt(s, run, 0), run[0]).0 == t;
  }

  // ---- Commands whose outcome is free of the order -------------------------------------------------------------

  predicate Refuses(s: State, indices: map<string, nat>, key: string) {
    CheckSet(s, key, Expected(indices, key)).Some?
  }

  /** Exactly one item of the batch is refused. */
  predicate OneRefusal(s: State, items: map<string, string>, indices: map<string, nat>) {
    exists k :: k in items && Refuses(s, indices, k) && forall l :: l in items && Refuses(s, indices, l) ==> l == k
  }

  /** A batch of at most one item, or a compare-and-swap batch refused because of one item only. */
  predicate OrderFree(s: State, command: Command) {
    match command
    case CmdBatchSet(items) => |items| <= 1
    case CmdBatchSetCAS(items, indices) => |items| <= 1 || OneRefusal(s, items, indices)
    case _ => true
  }

  lemma OrderFreeSteps(s: State, a: Step, b: Step)
    requires ValidStep(a) && ValidStep(b) && a.command == b.command && OrderFree(s, a.command)
    ensures Apply(s, a) == Apply(s, b)
  {
    if SmallBatch(a.command) {
      SmallBatchIsDeterministic(s, a, b);
    } else {
      OneRefusalDecides(s, a);
      OneRefusalDecides(s, b);
    }
  }

  lemma OneRefusalDecides(s: State, a: Step)
    requires ValidStep(a) && a.command.CmdBatchSetCAS? && OneRefusal(s, a.command.items, a.command.indices)
    ensures exists k :: k in a.command.items && Refuses(s, a.command.indices, k)
                        && Apply(s, a) == (s, Failed(CheckSet(s, k, Expected(a.command.indices, k)).value))
  {
    var items, indices, check := a.command.items, a.command.indices, a.schedule.check;
    var k :| k in items && Refuses(s, indices, k) && forall l :: l in items && Refuses(s, indices, l) ==> l == k;
    OrderInItems(check, items);
    CheckSetAllIff(s, indices, check);
    FirstErrorIsReal(s, indices, check);
    assert CheckSetAll(s, indices, check).Some?;
    var l :| l in check && CheckSet(s, l, Expected(indices, l)) == CheckSetAll(s, indices, check);
    assert Refuses(s, indices, l) && l == k;
  }

  /** Any other batch has, beside each order, another one with a different outcome. */
  lemma OtherOutcome(s: State, a: Step) returns (b: Step)
    requires ValidStep(a) && !OrderFree(s, a.command)
    ensures ValidStep(b) && b.command == a.command && Apply(s, b) != Apply(s, a)
  {
    var items := a.command.items;
    OrderShows(s, items, a.schedule.write);
    if a.command.CmdBatchSetCAS? && !AllConditionsHold(s, items, a.command.indices) {
      b := OtherError(s, a);
    } else {
      b := a.(schedule := a.schedule.(write := Flip(a.schedule.write)));
      if a.command.CmdBatchSetCAS? {
        OrderInItems(a.schedule.check, items);
        CheckSetAllIff(s, a.command.indices, a.schedule.check);
      }
      assert Apply(s, a).0 == PutAll(s, items, a.schedule.write);
      assert Apply(s, b).0 == PutAll(s, items, Flip(a.schedule.write));
    }
  }

  lemma OtherError(s: State, a: Step) returns (b: Step)
    requires ValidStep(a) && a.command.CmdBatchSetCAS? && !OneRefusal(s, a.command.items, a.command.indices)
    requires !AllConditionsHold(s, a.command.items, a.command.indices)
    ensures ValidStep(b) && b.command == a.command && Apply(s, b) != Apply(s, a)
  {
    var items, indices, check := a.command.items, a.command.indices, a.schedule.check;
    var first := FirstRefusal(s, items, indices, check);
    var other := OtherRefusal(s, items, indices, first);
    FrontedEnumerates(check, other, items.Keys);
    FrontDecides(s, indices, Fronted(check, other));
    b := a.(schedule := a.schedule.(check := Fronted(check, other)));
    RefusalIsReported(s, a, first);
    RefusalIsReported(s, b, other);
  }

  lemma OtherRefusal(s: State, items: map<string, string>, indices: map<string, nat>, first: string)
    returns (other: string)
    requires first in items && Refuses(s, indices, first) && !OneRefusal(s, items, indices)
    ensures other in items && Refuses(s, indices, other) && other != first
  {
    other :| other in items && Refuses(s, indices, other) && other != first;
  }

  lemma FirstRefusal(s: State, items: map<string, string>, indices: map<string, nat>, check: seq<string>)
    returns (first: string)
    requires Enumerates(check, items.Keys) && !AllConditionsHold(s, items, indices)
    ensures first in items && Refuses(s, indices, first)
    ensures CheckSetAll(s, indices, check) == CheckSet(s, first, Expected(indices, first))
  {
    OrderInItems(check, items);
    CheckSetAllIff(s, indices, check);
    FirstErrorIsReal(s, indices, check);
    first :| first in check && CheckSet(s, first, Expected(indices, first)) == CheckSetAll(s, indices, check);
  }

  lemma RefusalIsReported(s: State, a: Step, key: string)
    requires ValidStep(a) && a.command.CmdBatchSetCAS? && Refuses(s, a.command.indices, key)
    requires CheckSetAll(s, a.command.indices, a.schedule.check) == CheckSet(s, key, Expected(a.command.indices, key))
    ensures Apply(s, a).0 == s && Apply(s, a).1.Failed? && Apply(s, a).1.error.key == key
  {
  }

  /** The order with one key moved to the front. */
  function Fronted(order: seq<string>, key: string): seq<string> {
    [key] + RemoveFirst(order, key)
  }

  lemma FrontedEnumerates(order: seq<string>, key: string, S: set<string>)
    requires Enumerates(order, S) && key in S
    ensures Enumerates(Fronted(order, key), S)
  {
    EnumerationMembers(order, S);
    RemoveFirstContents(order, key);
    var other := Fronted(order, key);
    assert NoDup(other);
    forall x ensures x in other <==> x in S {
      assert x in other <==> x == key || x in RemoveFirst(order, key);
    }
  }

  lemma FrontDecides(s: State, indices: map<string, nat>, order: seq<string>)
    requires |order| > 0 && Refuses(s, indices, order[0])
    ensures CheckSetAll(s, indices, order) == CheckSet(s, order[0], Expected(indices, order[0]))
  {
    assert order[..1] == [order[0]] && order[..1][..0] == [];
    StopsAtFirst(s, indices, order, 1);
  }

  // ---- Logs ----------------------------------------------------------------------------------------------------

  ghost predicate SameRun(start: State, a: seq<Step>, b: seq<Step>, n: nat)
    requires ValidRun(a) && ValidRun(b) && |a| == |b|
  {
    n <= |a| && StateAt(start, a, n) == StateAt(start, b, n)
    && (n < |a| ==> ReplyAt(start, a, n) == ReplyAt(start, b, n))
  }

  /** Every replica goes through the same states and gives the same replies, whatever its batch orders. */
  ghost predicate SameForAllOrders(start: State, a: seq<Step>)
    requires ValidRun(a)
  {
    forall b, n: nat :: ValidRun(b) && SameLog(a, b) && n <= |a| ==> SameRun(start, a, b, n)
  }

  ghost predicate OrderFreeAt(start: State, a: seq<Step>, i: nat)
    requires ValidRun(a) && i < |a|
  {
    OrderFree(StateAt(start, a, i), a[i].command)
  }

  /** Every command of the log is free of the order, in the state it meets. */
  ghost predicate AllOrderFree(start: State, a: seq<Step>)
    requires ValidRun(a)
  {
    forall i :: 0 <= i < |a| ==> OrderFreeAt(start, a, i)
  }

  lemma {:induction false} OrderFreeRuns(start: State, a: seq<Step>, b: seq<Step>, n: nat)
    requires ValidRun(a) && ValidRun(b) && SameLog(a, b) && n <= |a|
    requires AllOrderFree(start, a)
    ensures StateAt(start, a, n) == StateAt(start, b, n)
  {
    if n > 0 {
      OrderFreeRuns(start, a, b, n - 1);
      assert OrderFreeAt(start, a, n - 1);
      OrderFreeSteps(StateAt(start, a, n - 1), a[n - 1], b[n - 1]);
    }
  }

  lemma SameReplies(start: State, a: seq<Step>, b: seq<Step>, n: nat)
    requires ValidRun(a) && ValidRun(b) && SameLog(a, b) && n <= |a|
    requires StateAt(start, a, n) == StateAt(start, b, n)
    requires n < |a| ==> OrderFreeAt(start, a, n)
    ensures SameRun(start, a, b, n)
  {
    if n < |a| {
      OrderFreeSteps(StateAt(start, a, n), a[n], b[n]);
    }
  }

  lemma {:induction false} SamePrefix(start: State, a: seq<Step>, b: seq<Step>, n: nat)
    requires ValidRun(a) && ValidRun(b) && n <= |a| && n <= |b| && a[..n] == b[..n]
    ensures StateAt(start, a, n) == StateAt(start, b, n)
  {
    if n > 0 {
      assert a[n - 1] == a[..n][n - 1] && b[n - 1] == b[..n][n - 1];
      assert a[..n - 1] == a[..n][..n - 1] && b[..n - 1] == b[..n][..n - 1];
      SamePrefix(start, a, b, n - 1);
    }
  }

  /** The exact condition: a log has one outcome on all replicas exactly when each of its batches, in the state it
      meets, is free of the order. */
  lemma LogIsDeterministicIff(start: State, a: seq<Step>)
    requires ValidRun(a)
    ensures SameForAllOrders(start, a) <==> AllOrderFree(start, a)
  {
    if AllOrderFree(start, a) {
      forall b, n: nat | ValidRun(b) && SameLog(a, b) && n <= |a| ensures SameRun(start, a, b, n) {
        OrderFreeRuns(start, a, b, n);
        SameReplies(start, a, b, n);
      }
    } else {
      var i :| 0 <= i < |a| && !OrderFreeAt(start, a, i);
      var other := OtherOutcome(StateAt(start, a, i), a[i]);
      var b := a[i := other];
      SamePrefix(start, a, b, i);
      OutcomesDiffer(start, a, b, i);
    }
  }

  lemma OutcomesDiffer(start: State, a: seq<Step>, b: seq<Step>, i: nat)
    requires ValidRun(a) && ValidRun(b) && SameLog(a, b) && i < |a|
    requires StateAt(start, a, i) == StateAt(start, b, i)
    requires Apply(StateAt(start, a, i), a[i]) != Apply(StateAt(start, b, i), b[i])
    ensures !SameForAllOrders(start, a)
  {
    assert !SameRun(start, a, b, i) || !SameRun(start, a, b, i + 1);
  }

  /** For logs without compare-and-swap batches the condition is on the log alone: no batch set of two or more. */
  lemma PlainLogIsDeterministicIff(start: State, a: seq<Step>)
    requires ValidRun(a) && forall i :: 0 <= i < |a| ==> !a[i].command.CmdBatchSetCAS?
    ensures SameForAllOrders(start, a) <==>
            forall i :: 0 <= i < |a| && a[i].command.CmdBatchSet? ==> |a[i].command.items| <= 1
  {
    LogIsDeterministicIff(start, a);
    forall i | 0 <= i < |a|
      ensures OrderFreeAt(start, a, i) <==> (a[i].command.CmdBatchSet? ==> |a[i].command.items| <= 1)
    {}
  }
}
