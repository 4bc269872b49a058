/** What every run of key-value commands keeps, and what a successful compare-and-swap proves about the past. */
module KvRuns {
  import opened Prelude
  import opened Kv

  // ---- Indices -------------------------------------------------------------------------------------------------

  /** Live entries carry indices 1 <= create <= modify <= counter, and no two of them the same modify index. */
  ghost predicate WellIndexed(s: State) {
    && (forall k :: k in s.data ==> 1 <= s.data[k].createIndex <= s.data[k].modifyIndex <= s.index)
    && (forall k, l :: k in s.data && l in s.data && k != l ==> s.data[k].modifyIndex != s.data[l].modifyIndex)
  }

  lemma StepKeepsWellIndexed(s: State, step: Step)
    requires ValidStep(step) && WellIndexed(s)
    ensures WellIndexed(Apply(s, step).0)
  {
    StepTouches(s, step);
    var t := Apply(s, step).0;
    forall k | k in t.data ensures 1 <= t.data[k].createIndex <= t.data[k].modifyIndex <= t.index {
      if k !in Written(s, step) {
        assert k !in Deleted(s, step);
      }
    }
    forall k, l | k in t.data && l in t.data && k != l ensures t.data[k].modifyIndex != t.data[l].modifyIndex {
      assert k !in Deleted(s, step) && l !in Deleted(s, step);
    }
  }

  lemma {:induction false} EveryRunIsWellIndexed(run: seq<Step>, n: nat)
    requires ValidRun(run) && n <= |run|
    ensures WellIndexed(StateAt(EMPTY, run, n))
  {
    if n > 0 {
      EveryRunIsWellIndexed(run, n - 1);
      StepKeepsWellIndexed(StateAt(EMPTY, run, n - 1), run[n - 1]);
    }
  }

  lemma {:induction false} CounterNeverFalls(start: State, run: seq<Step>, a: nat, b: nat)
    requires ValidRun(run) && a <= b <= |run|
    ensures StateAt(start, run, a).index <= StateAt(start, run, b).index
  {
    if a < b {
      CounterNeverFalls(start, run, a, b - 1);
      StepTouches(StateAt(start, run, b - 1), run[b - 1]);
    }
  }

  // ---- No ABA --------------------------------------------------------------------------------------------------

  /** Step `w` of the run wrote `key` and gave it index `e`. */
  ghost predicate Writes(run: seq<Step>, w: nat, key: string, e: nat)
    requires ValidRun(run)
  {
    && w < |run|
    && key in Written(StateAt(EMPTY, run, w), run[w])
    && key in StateAt(EMPTY, run, w + 1).data
    && StateAt(EMPTY, run, w + 1).data[key].modifyIndex == e
  }

  ghost predicate Touches(run: seq<Step>, i: nat, key: string)
    requires ValidRun(run) && i < |run|
  {
    key in Written(StateAt(EMPTY, run, i), run[i]) || key in Deleted(StateAt(EMPTY, run, i), run[i])
  }

  /** No step from number `a` up to but excluding `b` writes or deletes `key`. */
  ghost predicate Untouched(run: seq<Step>, a: nat, b: nat, key: string)
    requires ValidRun(run) && b <= |run|
  {
    forall i :: a <= i < b ==> !Touches(run, i, key)
  }

  /** The command goes through for `key` only if the key's index is `e`. */
  predicate GuardedBy(command: Command, key: string, e: nat) {
    match command
    case CmdSetCAS(k, _, expected) => k == key && expected == e > 0
    case CmdDeleteCAS(k, expected) => k == key && expected == e
    case CmdBatchSetCAS(items, indices) => key in items && Expected(indices, key) == e > 0
    case CmdBatchDeleteCAS(keys, indices) => key in keys && Expected(indices, key) == e
    case _ => false
  }

  lemma GuardHolds(s: State, step: Step, key: string, e: nat)
    requires ValidStep(step) && GuardedBy(step.command, key, e) && !Apply(s, step).1.Failed?
    ensures key in s.data && s.data[key].modifyIndex == e
  {
    match step.command {
      case CmdBatchSetCAS(items, indices) =>
        OrderInItems(step.schedule.check, items);
        CheckSetAllIff(s, indices, step.schedule.check);
      case CmdBatchDeleteCAS(keys, indices) =>
        CheckDeleteAllIff(s, indices, keys);
      case _ =>
    }
  }

  /** Every live entry was written by some step of the run and has not been touched since. */
  lemma {:induction false} LastWrite(run: seq<Step>, n: nat, key: string) returns (w: nat)
    requires ValidRun(run) && n <= |run| && key in StateAt(EMPTY, run, n).data
    ensures w < n && Writes(run, w, key, StateAt(EMPTY, run, n).data[key].modifyIndex)
    ensures Untouched(run, w + 1, n, key)
  {
    if Touches(run, n - 1, key) {
      JustWritten(run, n - 1, key);
      w := n - 1;
    } else {
      UntouchedStays(run, n - 1, key);
      w := LastWrite(run, n - 1, key);
    }
  }

  lemma JustWritten(run: seq<Step>, n: nat, key: string)
    requires ValidRun(run) && n < |run| && Touches(run, n, key) && key in StateAt(EMPTY, run, n + 1).data
    ensures Writes(run, n, key, StateAt(EMPTY, run, n + 1).data[key].modifyIndex)
  {
    StepTouches(StateAt(EMPTY, run, n), run[n]);
  }

  lemma UntouchedStays(run: seq<Step>, n: nat, key: string)
    requires ValidRun(run) && n < |run| && !Touches(run, n, key)
    ensures var s, t := StateAt(EMPTY, run, n), StateAt(EMPTY, run, n + 1);
            (key in t.data <==> key in s.data) && (key in s.data ==> t.data[key] == s.data[key])
  {
    StepTouches(StateAt(EMPTY, run, n), run[n]);
  }

  /** An index is handed out once: one step, one key. */
  lemma IndexGivenOnce(run: seq<Step>, v: nat, w: nat, k: string, l: string, e: nat)
    requires ValidRun(run) && Writes(run, v, k, e) && Writes(run, w, l, e)
    ensures v == w && k == l
  {
    StepTouches(StateAt(EMPTY, run, v), run[v]);
    StepTouches(StateAt(EMPTY, run, w), run[w]);
    if v < w {
      CounterNeverFalls(EMPTY, run, v + 1, w);
    } else if w < v {
      CounterNeverFalls(EMPTY, run, w + 1, v);
    }
  }

  /** When a compare-and-swap that expects index `e` succeeds, some earlier step wrote that very key and got `e`,
      and nothing has written or deleted the key since. */
  lemma NoAba(run: seq<Step>, t: nat, key: string, e: nat)
    requires ValidRun(run) && t < |run| && GuardedBy(run[t].command, key, e)
    requires !ReplyAt(EMPTY, run, t).Failed?
    ensures exists w :: 0 <= w < t && Writes(run, w, key, e) && Untouched(run, w + 1, t, key)
  {
    GuardHolds(StateAt(EMPTY, run, t), run[t], key, e);
    var w := LastWrite(run, t, key);
  }

  /** The same, told from the write: whoever got index `e` for any key got it for this key, and it is untouched. */
  lemma NoAbaSince(run: seq<Step>, t: nat, key: string, e: nat, v: nat, l: string)
    requires ValidRun(run) && t < |run| && GuardedBy(run[t].command, key, e)
    requires !ReplyAt(EMPTY, run, t).Failed?
    requires Writes(run, v, l, e)
    ensures l == key && v < t && Untouched(run, v + 1, t, key)
  {
    NoAba(run, t, key, e);
    var w :| 0 <= w < t && Writes(run, w, key, e) && Untouched(run, w + 1, t, key);
    IndexGivenOnce(run, v, w, l, key, e);
  }

  // ---- Batch compare-and-swap ----------------------------------------------------------------------------------

  /** Running the single compare-and-swap on the items one after the other; `None` as soon as one is refused. */
  function OneByOne(s: State, items: map<string, string>, indices: map<string, nat>, order: seq<string>): Option<State>
    requires forall k :: k in order ==> k in items
  {
    if |order| == 0 then Some(s)
    else
      var k := order[|order| - 1];
      var before := OneByOne(s, items, indices, order[..|order| - 1]);
      if before.None? || CheckSet(before.value, k, Expected(indices, k)).Some? then None
      else Some(Put(before.value, k, items[k]))
  }

  lemma CheckUnaffected(s: State, items: map<string, string>, indices: map<string, nat>, before: seq<string>, k: string)
    requires NoDup(before) && k !in before && forall x :: x in before ==> x in items
    ensures CheckSet(PutAll(s, items, before), k, Expected(indices, k)) == CheckSet(s, k, Expected(indices, k))
  {
    PutAllContents(s, items, before);
  }

  lemma {:induction false} OneByOneIsBatch(s: State, items: map<string, string>, indices: map<string, nat>,
                                           order: seq<string>)
    requires NoDup(order) && forall k :: k in order ==> k in items
    ensures OneByOne(s, items, indices, order) ==
            if CheckSetAll(s, indices, order).None? then Some(PutAll(s, items, order)) else None
  {
    if |order| > 0 {
      var n := |order| - 1;
      OneByOneIsBatch(s, items, indices, order[..n]);
      CheckUnaffected(s, items, indices, order[..n], order[n]);
    }
  }

  ghost predicate AllConditionsHold(s: State, items: map<string, string>, indices: map<string, nat>) {
    forall k :: k in items ==> CheckSet(s, k, Expected(indices, k)).None?
  }

  /** All or nothing, whatever the orders: the batch succeeds exactly when every condition holds beforehand; it then
      equals the single operations run in its write order; otherwise nothing changes and the error is a real one. */
  lemma BatchCasIsAllOrNothing(s: State, step: Step)
    requires ValidStep(step) && step.command.CmdBatchSetCAS?
    ensures var (t, reply) := Apply(s, step);
            var items, indices := step.command.items, step.command.indices;
            && (forall k :: k in step.schedule.write ==> k in items)
            && (reply.IndexedAll? <==> AllConditionsHold(s, items, indices))
            && (reply.IndexedAll? ==> OneByOne(s, items, indices, step.schedule.write) == Some(t))
            && (!reply.IndexedAll? ==>
                  (reply.Failed? && t == s && OneByOne(s, items, indices, step.schedule.write) == None
                   && exists k :: k in items && CheckSet(s, k, Expected(indices, k)) == Some(reply.error)))
  {
    var items, indices := step.command.items, step.command.indices;
    OrderInItems(step.schedule.check, items);
    OrderInItems(step.schedule.write, items);
    CheckSetAllIff(s, indices, step.schedule.check);
    CheckSetAllIff(s, indices, step.schedule.write);
    OneByOneIsBatch(s, items, indices, step.schedule.write);
    FirstErrorIsReal(s, indices, step.schedule.check);
  }

  lemma {:induction false} FirstErrorIsReal(s: State, indices: map<string, nat>, order: seq<string>)
    ensures CheckSetAll(s, indices, order).Some? ==>
              exists k :: k in order && CheckSet(s, k, Expected(indices, k)) == CheckSetAll(s, indices, order)
  {
    if |order| > 0 {
      var n := |order| - 1;
      FirstErrorIsReal(s, indices, order[..n]);
      assert order == order[..n] + [order[n]];
      assert order[n] in order;
    }
  }

  predicate InBlock(after: nat, size: nat, e: nat) {
    after < e <= after + size
  }

  ghost function Block(after: nat, size: nat): set<nat> {
    set e: nat | after < e <= after + size && InBlock(after, size, e)
  }

  /** The block counter+1 .. counter+|items| is handed out one to one, and each reply index is the stored one. */
  lemma BatchIndicesAreABlock(s: State, step: Step, t: State, given: map<string, nat>)
    requires ValidStep(step) && step.command.CmdBatchSetCAS? && Apply(s, step) == (t, IndexedAll(given))
    ensures given.Keys == step.command.items.Keys && t.index == s.index + |given|
    ensures given.Values == Block(s.index, |given|)
    ensures forall k, l :: k in given && l in given && k != l ==> given[k] != given[l]
    ensures forall k :: k in given ==> k in t.data && t.data[k].modifyIndex == given[k]
  {
    var items, order := step.command.items, step.schedule.write;
    OrderInItems(order, items);
    assert t == PutAll(s, items, order) && given == NewIndices(s, order);
    WrittenBlock(s, t, given, items, order);
    BlockOfOrder(s, t, given, items, order);
  }

  lemma WrittenBlock(s: State, t: State, given: map<string, nat>, items: map<string, string>, order: seq<string>)
    requires NoDup(order) && forall k :: k in order ==> k in items
    requires t == PutAll(s, items, order) && given == NewIndices(s, order)
    ensures WrittenInOrder(s, t, items, order) && given.Keys == set k | k in order
    ensures forall i :: 0 <= i < |order| ==> given[order[i]] == s.index + 1 + i
  {
    NewIndicesContents(s, order);
    PutAllContents(s, items, order);
  }

  lemma BlockOfOrder(s: State, t: State, given: map<string, nat>, items: map<string, string>, order: seq<string>)
    requires NoDup(order) && |order| == |items| && forall k :: k in order <==> k in items
    requires WrittenInOrder(s, t, items, order) && given.Keys == set k | k in order
    requires forall i :: 0 <= i < |order| ==> given[order[i]] == s.index + 1 + i
    ensures given.Keys == items.Keys && t.index == s.index + |given|
    ensures given.Values == Block(s.index, |given|)
    ensures forall k, l :: k in given && l in given && k != l ==> given[k] != given[l]
    ensures forall k :: k in given ==> k in t.data && t.data[k].modifyIndex == given[k]
  {
    assert given.Keys == items.Keys;
    assert |given| == |given.Keys| == |items.Keys| == |items|;
    GivenByPosition(s.index, given, order);
    StoredAsGiven(s, t, given, items, order);
  }

  lemma GivenByPosition(after: nat, given: map<string, nat>, order: seq<string>)
    requires NoDup(order) && given.Keys == set k | k in order
    requires forall i :: 0 <= i < |order| ==> given[order[i]] == after + 1 + i
    ensures given.Values == Block(after, |order|)
    ensures forall k, l :: k in given && l in given && k != l ==> given[k] != given[l]
  {
    forall k | k in given ensures k in order && given[k] == after + 1 + PositionOf(order, k) {
      assert k in set x | x in order;
    }
    forall v | v in given.Values ensures v in Block(after, |order|) {
      var k :| k in given && given[k] == v;
      assert InBlock(after, |order|, v);
    }
    forall e | e in Block(after, |order|) ensures e in given.Values {
      var k := order[e - after - 1];
      assert k in given.Keys && given[k] == e;
    }
  }

  lemma StoredAsGiven(s: State, t: State, given: map<string, nat>, items: map<string, string>, order: seq<string>)
    requires (forall k :: k in order ==> k in items) && WrittenInOrder(s, t, items, order)
    requires given.Keys == set k | k in order
    requires forall i :: 0 <= i < |order| ==> given[order[i]] == s.index + 1 + i
    ensures forall k :: k in given ==> k in t.data && t.data[k].modifyIndex == given[k]
  {
    forall k | k in given ensures k in t.data && t.data[k].modifyIndex == given[k] {
      assert k in set x | x in order;
      var i := PositionOf(order, k);
    }
  }
}
