/**
 The versioned key-value store on values: what each operation does to the entries and the global index.
 Go maps have no iteration order, so an operation that ranges over a batch takes the order as an input.
 The 64-bit index is modelled as an unbounded number.
 */
module Kv {
  import opened Prelude

  datatype KVEntry = KVEntry(value: string, modifyIndex: nat, createIndex: nat, flags: nat)

  datatype State = State(data: map<string, KVEntry>, index: nat)

  datatype Error = CASConflict(key: string, expected: nat, current: nat) | NotFound(key: string)

  const EMPTY := State(map[], 0)

  // ---- Single-key operations -----------------------------------------------------------------------------------

  /** The entry written for `key` at index `index`: creation index and flags survive an overwrite. */
  function WrittenEntry(s: State, key: string, value: string, index: nat): KVEntry {
    if key in s.data then KVEntry(value, index, s.data[key].createIndex, s.data[key].flags)
    else KVEntry(value, index, index, 0)
  }

  function Put(s: State, key: string, value: string): State {
    State(s.data[key := WrittenEntry(s, key, value, s.index + 1)], s.index + 1)
  }

  function PutWithFlags(s: State, key: string, value: string, flags: nat): State {
    State(s.data[key := WrittenEntry(s, key, value, s.index + 1).(flags := flags)], s.index + 1)
  }

  function Remove(s: State, key: string): State {
    s.(data := s.data - {key})
  }

  /** Expected index 0 means "create only"; any other index must be the current one. */
  function CheckSet(s: State, key: string, expected: nat): Option<Error> {
    if expected == 0 then
      if key in s.data then Some(CASConflict(key, 0, s.data[key].modifyIndex)) else None
    else if key !in s.data then Some(NotFound(key))
    else if s.data[key].modifyIndex != expected then Some(CASConflict(key, expected, s.data[key].modifyIndex))
    else None
  }

  function CheckDelete(s: State, key: string, expected: nat): Option<Error> {
    if key !in s.data then Some(NotFound(key))
    else if s.data[key].modifyIndex != expected then Some(CASConflict(key, expected, s.data[key].modifyIndex))
    else None
  }

  // ---- Batches -------------------------------------------------------------------------------------------------

  /** A missing expected index reads as zero. */
  function Expected(indices: map<string, nat>, key: string): nat {
    if key in indices then indices[key] else 0
  }

  function PutAll(s: State, items: map<string, string>, order: seq<string>): State
    requires forall k :: k in order ==> k in items
  {
    if |order| == 0 then s
    else
      var k := order[|order| - 1];
      Put(PutAll(s, items, order[..|order| - 1]), k, items[k])
  }

  function RemoveAll(s: State, keys: seq<string>): State {
    if |keys| == 0 then s else Remove(RemoveAll(s, keys[..|keys| - 1]), keys[|keys| - 1])
  }

  /** The first failing check, in the order the keys are visited. */
  function CheckSetAll(s: State, indices: map<string, nat>, order: seq<string>): Option<Error> {
    if |order| == 0 then None
    else
      var earlier := CheckSetAll(s, indices, order[..|order| - 1]);
      var k := order[|order| - 1];
      if earlier.Some? then earlier else CheckSet(s, k, Expected(indices, k))
  }

  function CheckDeleteAll(s: State, indices: map<string, nat>, keys: seq<string>): Option<Error> {
    if |keys| == 0 then None
    else
      var earlier := CheckDeleteAll(s, indices, keys[..|keys| - 1]);
      var k := keys[|keys| - 1];
      if earlier.Some? then earlier else CheckDelete(s, k, Expected(indices, k))
  }

  /** The index each key of a batch was given. */
  function NewIndices(s: State, order: seq<string>): map<string, nat> {
    if |order| == 0 then map[] else NewIndices(s, order[..|order| - 1])[order[|order| - 1] := s.index + |order|]
  }

  // ---- What the batches amount to ------------------------------------------------------------------------------

  /** `t` is `s` with the keys of `order` written in that order, and nothing else touched. */
  ghost predicate WrittenInOrder(s: State, t: State, items: map<string, string>, order: seq<string>)
    requires forall k :: k in order ==> k in items
  {
    && t.index == s.index + |order|
    && (forall i :: 0 <= i < |order| ==>
          order[i] in t.data && t.data[order[i]] == WrittenEntry(s, order[i], items[order[i]], s.index + 1 + i))
    && (forall k :: k !in order ==> (k in t.data <==> k in s.data))
    && (forall k :: k !in order && k in s.data ==> k in t.data && t.data[k] == s.data[k])
  }

  lemma WriteOneMore(s: State, u: State, items: map<string, string>, before: seq<string>, k: string)
    requires k !in before && k in items && forall x :: x in before ==> x in items
    requires WrittenInOrder(s, u, items, before)
    ensures WrittenInOrder(s, Put(u, k, items[k]), items, before + [k])
  {
    var order, t := before + [k], Put(u, k, items[k]);
    forall i | 0 <= i < |order|
      ensures order[i] in t.data && t.data[order[i]] == WrittenEntry(s, order[i], items[order[i]], s.index + 1 + i)
    {
      assert i < |before| ==> order[i] == before[i] && before[i] in before;
    }
    assert forall x :: x !in order ==> x !in before && x != k;
  }

  /** A batch of different keys numbers them in the order they are visited and touches nothing else. */
  lemma {:induction false} PutAllContents(s: State, items: map<string, string>, order: seq<string>)
    requires NoDup(order) && forall k :: k in order ==> k in items
    ensures WrittenInOrder(s, PutAll(s, items, order), items, order)
  {
    if |order| > 0 {
      var n := |order| - 1;
      PutAllContents(s, items, order[..n]);
      WriteOneMore(s, PutAll(s, items, order[..n]), items, order[..n], order[n]);
      assert order == order[..n] + [order[n]];
    }
  }

  lemma {:induction false} RemoveAllContents(s: State, keys: seq<string>)
    ensures RemoveAll(s, keys) == s.(data := s.data - set k | k in keys)
  {
    if |keys| > 0 {
      var n := |keys| - 1;
      RemoveAllContents(s, keys[..n]);
      assert keys == keys[..n] + [keys[n]];
      assert (set k | k in keys) == (set k | k in keys[..n]) + {keys[n]};
    } else {
      assert s.data - (set k | k in keys) == s.data;
    }
  }

  lemma {:induction false} NewIndicesContents(s: State, order: seq<string>)
    requires NoDup(order)
    ensures NewIndices(s, order).Keys == set k | k in order
    ensures forall i :: 0 <= i < |order| ==> NewIndices(s, order)[order[i]] == s.index + 1 + i
  {
    if |order| > 0 {
      var n := |order| - 1;
      assert NoDup(order[..n]);
      NewIndicesContents(s, order[..n]);
      assert order == order[..n] + [order[n]];
      assert forall i :: 0 <= i < n ==> order[i] == order[..n][i] && order[i] in order[..n];
      assert order[n] !in order[..n];
    }
  }

  /** A batch check passes exactly when every single check passes in the state before the batch. */
  lemma {:induction false} CheckSetAllIff(s: State, indices: map<string, nat>, order: seq<string>)
    ensures CheckSetAll(s, indices, order).None? <==>
            forall k :: k in order ==> CheckSet(s, k, Expected(indices, k)).None?
  {
    if |order| > 0 {
      var n := |order| - 1;
      CheckSetAllIff(s, indices, order[..n]);
      assert order == order[..n] + [order[n]];
    }
  }

  lemma {:induction false} CheckDeleteAllIff(s: State, indices: map<string, nat>, keys: seq<string>)
    ensures CheckDeleteAll(s, indices, keys).None? <==>
            forall k :: k in keys ==> CheckDelete(s, k, Expected(indices, k)).None?
  {
    if |keys| > 0 {
      var n := |keys| - 1;
      CheckDeleteAllIff(s, indices, keys[..n]);
      assert keys == keys[..n] + [keys[n]];
    }
  }

  // ---- Commands ------------------------------------------------------------------------------------------------

  datatype Command =
    | CmdSet(key: string, value: string)
    | CmdSetWithFlags(key: string, value: string, flags: nat)
    | CmdDelete(key: string)
    | CmdBatchSet(items: map<string, string>)
    | CmdBatchDelete(keys: seq<string>)
    | CmdSetCAS(key: string, value: string, expected: nat)
    | CmdDeleteCAS(key: string, expected: nat)
    | CmdBatchSetCAS(items: map<string, string>, indices: map<string, nat>)
    | CmdBatchDeleteCAS(keys: seq<string>, indices: map<string, nat>)

  /** What a command answers: nothing for plain commands, indices or the first error for compare-and-swap. */
  datatype Reply = Done | Indexed(newIndex: nat) | IndexedAll(newIndices: map<string, nat>) | Failed(error: Error)

  /** The order in which a batch is validated and the order in which it is written. */
  datatype Schedule = Schedule(check: seq<string>, write: seq<string>)

  datatype Step = Step(command: Command, schedule: Schedule)

  ghost predicate ValidStep(step: Step) {
    step.command.CmdBatchSet? || step.command.CmdBatchSetCAS? ==>
      && Enumerates(step.schedule.check, step.command.items.Keys)
      && Enumerates(step.schedule.write, step.command.items.Keys)
  }

  lemma OrderInItems(order: seq<string>, items: map<string, string>)
    requires Enumerates(order, items.Keys)
    ensures NoDup(order) && |order| == |items| && forall k :: k in order <==> k in items
  {
    EnumerationLength(order, items.Keys);
    EnumerationMembers(order, items.Keys);
  }

  ghost function Apply(s: State, step: Step): (State, Reply)
    requires ValidStep(step)
  {
    match step.command
    case CmdSet(k, v) => (Put(s, k, v), Done)
    case CmdSetWithFlags(k, v, f) => (PutWithFlags(s, k, v, f), Done)
    case CmdDelete(k) => (Remove(s, k), Done)
    case CmdBatchSet(items) =>
      OrderInItems(step.schedule.write, items);
      (PutAll(s, items, step.schedule.write), Done)
    case CmdBatchDelete(keys) => (RemoveAll(s, keys), Done)
    case CmdSetCAS(k, v, e) =>
      var err := CheckSet(s, k, e);
      if err.Some? then (s, Failed(err.value)) else (Put(s, k, v), Indexed(s.index + 1))
    case CmdDeleteCAS(k, e) =>
      var err := CheckDelete(s, k, e);
      if err.Some? then (s, Failed(err.value)) else (Remove(s, k), Done)
    case CmdBatchSetCAS(items, indices) =>
      OrderInItems(step.schedule.write, items);
      var err := CheckSetAll(s, indices, step.schedule.check);
      if err.Some? then (s, Failed(err.value))
      else (PutAll(s, items, step.schedule.write), IndexedAll(NewIndices(s, step.schedule.write)))
    case CmdBatchDeleteCAS(keys, indices) =>
      var err := CheckDeleteAll(s, indices, keys);
      if err.Some? then (s, Failed(err.value)) else (RemoveAll(s, keys), Done)
  }

  ghost predicate ValidRun(run: seq<Step>) {
    forall i :: 0 <= i < |run| ==> ValidStep(run[i])
  }

  /** The state after the first `n` steps of a run. */
  ghost function StateAt(start: State, run: seq<Step>, n: nat): State
    requires ValidRun(run) && n <= |run|
  {
    if n == 0 then start else Apply(StateAt(start, run, n - 1), run[n - 1]).0
  }

  ghost function ReplyAt(start: State, run: seq<Step>, n: nat): Reply
    requires ValidRun(run) && n < |run|
  {
    Apply(StateAt(start, run, n), run[n]).1
  }

  /** The keys a step writes and the keys it deletes, in the state it meets. */
  ghost function Written(s: State, step: Step): set<string>
    requires ValidStep(step)
  {
    if Apply(s, step).1.Failed? then {}
    else match step.command
      case CmdSet(k, _) => {k}
      case CmdSetWithFlags(k, _, _) => {k}
      case CmdSetCAS(k, _, _) => {k}
      case CmdBatchSet(items) => items.Keys
      case CmdBatchSetCAS(items, _) => items.Keys
      case _ => {}
  }

  ghost function Deleted(s: State, step: Step): set<string>
    requires ValidStep(step)
  {
    if Apply(s, step).1.Failed? then {}
    else match step.command
      case CmdDelete(k) => {k}
      case CmdDeleteCAS(k, _) => {k}
      case CmdBatchDelete(keys) => set k | k in keys
      case CmdBatchDeleteCAS(keys, _) => set k | k in keys
      case _ => {}
  }

  /** The value a command writes for a key. */
  function NewValue(command: Command, key: string): string {
    match command
    case CmdSet(_, v) => v
    case CmdSetWithFlags(_, v, _) => v
    case CmdSetCAS(_, v, _) => v
    case CmdBatchSet(items) => if key in items then items[key] else ""
    case CmdBatchSetCAS(items, _) => if key in items then items[key] else ""
    case _ => ""
  }

  /** Only one command brings flags of its own; every other write keeps those of the key. */
  function NewFlags(s: State, command: Command, key: string): nat {
    if command.CmdSetWithFlags? then command.flags else if key in s.data then s.data[key].flags else 0
  }

  ghost predicate Stores(s: State, t: State, command: Command, written: set<string>) {
    forall k :: k in written ==>
      k in t.data && t.data[k].value == NewValue(command, k) && t.data[k].flags == NewFlags(s, command, k)
  }

  /** One step, seen key by key: written keys hold the command's value and flags under fresh different indices, deleted
      keys go, the rest stays. */
  lemma StepEffect(s: State, step: Step)
    requires ValidStep(step)
    ensures IsEffect(s, Apply(s, step).0, Written(s, step), Deleted(s, step))
    ensures Stores(s, Apply(s, step).0, step.command, Written(s, step))
  {
    StepTouches(s, step);
    StepStores(s, step);
  }

  lemma StepTouches(s: State, step: Step)
    requires ValidStep(step)
    ensures IsEffect(s, Apply(s, step).0, Written(s, step), Deleted(s, step))
  {
    if !Apply(s, step).1.Failed? {
      match step.command {
        case CmdSet(k, v) => WriteEffect(s, k, v);
        case CmdSetWithFlags(k, v, _) => WriteEffect(s, k, v);
        case CmdSetCAS(k, v, _) => WriteEffect(s, k, v);
        case CmdBatchSet(items) => BatchSetEffect(s, items, step.schedule.write);
        case CmdBatchSetCAS(items, _) => BatchSetEffect(s, items, step.schedule.write);
        case CmdBatchDelete(keys) => RemoveAllContents(s, keys);
        case CmdBatchDeleteCAS(keys, _) => RemoveAllContents(s, keys);
        case CmdDelete(_) =>
        case CmdDeleteCAS(_, _) =>
      }
    }
  }

  lemma StepStores(s: State, step: Step)
    requires ValidStep(step)
    ensures Stores(s, Apply(s, step).0, step.command, Written(s, step))
  {
    if !Apply(s, step).1.Failed? {
      match step.command {
        case CmdBatchSet(items) => BatchStores(s, items, step.schedule.write, step.command);
        case CmdBatchSetCAS(items, _) => BatchStores(s, items, step.schedule.write, step.command);
        case _ =>
      }
    }
  }

  ghost predicate IsEffect(s: State, t: State, written: set<string>, deleted: set<string>) {
    && t.index >= s.index
    && (forall k :: k in written ==>
          k in t.data && s.index < t.data[k].modifyIndex <= t.index
          && t.data[k].createIndex == (if k in s.data then s.data[k].createIndex else t.data[k].modifyIndex))
    && (forall k, l :: k in written && l in written && k != l ==> t.data[k].modifyIndex != t.data[l].modifyIndex)
    && (forall k :: k in deleted ==> k !in t.data)
    && (forall k :: k !in written && k !in deleted ==> (k in t.data <==> k in s.data))
    && (forall k :: k !in written && k !in deleted && k in s.data ==> t.data[k] == s.data[k])
  }

  lemma WriteEffect(s: State, k: string, v: string)
    ensures IsEffect(s, Put(s, k, v), {k}, {})
    ensures forall f: nat :: IsEffect(s, PutWithFlags(s, k, v, f), {k}, {})
  {
  }

  lemma BatchSetEffect(s: State, items: map<string, string>, order: seq<string>)
    requires Enumerates(order, items.Keys)
    ensures forall k :: k in order ==> k in items
    ensures IsEffect(s, PutAll(s, items, order), items.Keys, {})
  {
    BatchEffect(s, items, order);
    EffectOfBatch(s, PutAll(s, items, order), items);
  }

  lemma EffectOfBatch(s: State, t: State, items: map<string, string>)
    requires IsBatchEffect(s, t, items)
    ensures IsEffect(s, t, items.Keys, {})
  {
  }

  lemma BatchStores(s: State, items: map<string, string>, order: seq<string>, command: Command)
    requires Enumerates(order, items.Keys)
    requires (command.CmdBatchSet? || command.CmdBatchSetCAS?) && command.items == items
    ensures forall k :: k in order ==> k in items
    ensures Stores(s, PutAll(s, items, order), command, items.Keys)
  {
    BatchEffect(s, items, order);
  }

  /** A whole batch, seen key by key. */
  ghost predicate IsBatchEffect(s: State, t: State, items: map<string, string>) {
    && t.index == s.index + |items|
    && (forall k :: k in items ==>
          k in t.data && s.index < t.data[k].modifyIndex <= t.index
          && t.data[k] == WrittenEntry(s, k, items[k], t.data[k].modifyIndex))
    && (forall k, l :: k in items && l in items && k != l ==>
          k in t.data && l in t.data && t.data[k].modifyIndex != t.data[l].modifyIndex)
    && (forall k :: k !in items ==> (k in t.data <==> k in s.data))
    && (forall k :: k !in items && k in s.data ==> k in t.data && t.data[k] == s.data[k])
  }

  lemma OrderMakesBatchEffect(s: State, t: State, items: map<string, string>, order: seq<string>)
    requires NoDup(order) && |order| == |items| && forall k :: k in order <==> k in items
    requires WrittenInOrder(s, t, items, order)
    ensures IsBatchEffect(s, t, items)
  {
    forall k | k in items
      ensures k in t.data && s.index < t.data[k].modifyIndex <= t.index
      ensures t.data[k] == WrittenEntry(s, k, items[k], t.data[k].modifyIndex)
    {
      var i := PositionOf(order, k);
    }
    forall k, l | k in items && l in items && k != l
      ensures k in t.data && l in t.data && t.data[k].modifyIndex != t.data[l].modifyIndex
    {
      var i, j := PositionOf(order, k), PositionOf(order, l);
    }
  }

  lemma BatchEffect(s: State, items: map<string, string>, order: seq<string>)
    requires Enumerates(order, items.Keys)
    ensures forall k :: k in order <==> k in items
    ensures IsBatchEffect(s, PutAll(s, items, order), items)
  {
    OrderInItems(order, items);
    PutAllContents(s, items, order);
    OrderMakesBatchEffect(s, PutAll(s, items, order), items, order);
  }

  ghost function PositionOf(order: seq<string>, key: string): (i: nat)
    requires key in order
    ensures i < |order| && order[i] == key
  {
    var i: nat :| i < |order| && order[i] == key;
    i
  }

  lemma {:induction false} StopsAtFirst(s: State, indices: map<string, nat>, order: seq<string>, n: nat)
    requires n <= |order| && CheckSetAll(s, indices, order[..n]).Some?
    ensures CheckSetAll(s, indices, order) == CheckSetAll(s, indices, order[..n])
  {
    if n == |order| {
      assert order[..n] == order;
    } else {
      assert order[..|order| - 1][..n] == order[..n];
      StopsAtFirst(s, indices, order[..|order| - 1], n);
    }
  }

  lemma {:induction false} StopsAtFirstDelete(s: State, indices: map<string, nat>, keys: seq<string>, n: nat)
    requires n <= |keys| && CheckDeleteAll(s, indices, keys[..n]).Some?
    ensures CheckDeleteAll(s, indices, keys) == CheckDeleteAll(s, indices, keys[..n])
  {
    if n == |keys| {
      assert keys[..n] == keys;
    } else {
      assert keys[..|keys| - 1][..n] == keys[..n];
      StopsAtFirstDelete(s, indices, keys[..|keys| - 1], n);
    }
  }
}
