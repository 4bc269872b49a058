/** Replicas that apply one log, and replicas rebuilt from a snapshot plus the rest of the log. */
module KvReplication {
  import opened Prelude
  import opened Kv
  import opened KvRuns

  predicate IsCas(command: Command) {
    command.CmdSetCAS? || command.CmdDeleteCAS? || command.CmdBatchSetCAS? || command.CmdBatchDeleteCAS?
  }

  // ---- Two replicas, one log, two iteration orders -------------------------------------------------------------

  /** No command boundary separates the two indices: they were handed out by the same command. */
  predicate SameBlock(bounds: seq<nat>, i: nat, j: nat) {
    forall b :: b in bounds ==> (i <= b <==> j <= b)
  }

  /** Same keys, values, flags and counter; indices agree up to the order inside one command's block. */
  ghost predicate Agree(s: State, t: State, bounds: seq<nat>) {
    && s.index == t.index
    && s.data.Keys == t.data.Keys
    && (forall b :: b in bounds ==> b <= s.index)
    && forall k :: k in s.data ==> AgreeEntry(s.data[k], t.data[k], bounds)
  }

  ghost predicate AgreeEntry(a: KVEntry, b: KVEntry, bounds: seq<nat>) {
    && a.value == b.value && a.flags == b.flags
    && SameBlock(bounds, a.modifyIndex, b.modifyIndex)
    && SameBlock(bounds, a.createIndex, b.createIndex)
  }

  ghost predicate SameLog(a: seq<Step>, b: seq<Step>) {
    |a| == |b| && forall i :: 0 <= i < |a| ==> a[i].command == b[i].command
  }

  /** The counter before each of the first `n` commands. */
  ghost function Bounds(start: State, run: seq<Step>, n: nat): seq<nat>
    requires ValidRun(run) && n <= |run|
  {
    if n == 0 then [] else Bounds(start, run, n - 1) + [StateAt(start, run, n - 1).index]
  }

  lemma OldEntriesAgree(a: KVEntry, b: KVEntry, bounds: seq<nat>, index: nat)
    requires AgreeEntry(a, b, bounds)
    requires a.modifyIndex <= index && b.modifyIndex <= index && a.createIndex <= index && b.createIndex <= index
    ensures AgreeEntry(a, b, bounds + [index])
  {
  }

  /** A key written on both replicas by the same command. */
  lemma WrittenEntriesAgree(s: State, t: State, bounds: seq<nat>, k: string, v: string, i: nat, j: nat)
    requires Agree(s, t, bounds) && WellIndexed(s) && WellIndexed(t)
    requires i > s.index && j > s.index
    ensures AgreeEntry(WrittenEntry(s, k, v, i), WrittenEntry(t, k, v, j), bounds + [s.index])
  {
    if k in s.data {
      OldEntriesAgree(s.data[k], t.data[k], bounds, s.index);
    }
  }

  lemma BatchesAgree(s: State, t: State, s': State, t': State, bounds: seq<nat>, items: map<string, string>)
    requires Agree(s, t, bounds) && WellIndexed(s) && WellIndexed(t)
    requires IsBatchEffect(s, s', items) && IsBatchEffect(t, t', items)
    ensures Agree(s', t', bounds + [s.index])
  {
    forall k ensures k in s'.data <==> k in t'.data {
    }
    forall k | k in s'.data ensures AgreeEntry(s'.data[k], t'.data[k], bounds + [s.index]) {
      if k in items {
        WrittenEntriesAgree(s, t, bounds, k, items[k], s'.data[k].modifyIndex, t'.data[k].modifyIndex);
      } else {
        OldEntriesAgree(s.data[k], t.data[k], bounds, s.index);
      }
    }
  }

  lemma RemovalsAgree(s: State, t: State, bounds: seq<nat>, keys: set<string>)
    requires Agree(s, t, bounds) && WellIndexed(s) && WellIndexed(t)
    ensures Agree(s.(data := s.data - keys), t.(data := t.data - keys), bounds + [s.index])
  {
    forall k | k in s.data - keys ensures AgreeEntry(s.data[k], t.data[k], bounds + [s.index]) {
      OldEntriesAgree(s.data[k], t.data[k], bounds, s.index);
    }
  }

  lemma WritesAgree(s: State, t: State, bounds: seq<nat>, k: string, v: string)
    requires Agree(s, t, bounds) && WellIndexed(s) && WellIndexed(t)
    ensures Agree(Put(s, k, v), Put(t, k, v), bounds + [s.index])
  {
    WrittenEntriesAgree(s, t, bounds, k, v, s.index + 1, t.index + 1);
    var a, b := WrittenEntry(s, k, v, s.index + 1), WrittenEntry(t, k, v, t.index + 1);
    StoredEntriesAgree(s, t, bounds, k, a, b);
    assert Put(s, k, v) == State(s.data[k := a], s.index + 1) && Put(t, k, v) == State(t.data[k := b], t.index + 1);
  }

  lemma FlaggedWritesAgree(s: State, t: State, bounds: seq<nat>, k: string, v: string, flags: nat)
    requires Agree(s, t, bounds) && WellIndexed(s) && WellIndexed(t)
    ensures Agree(PutWithFlags(s, k, v, flags), PutWithFlags(t, k, v, flags), bounds + [s.index])
  {
    WrittenEntriesAgree(s, t, bounds, k, v, s.index + 1, t.index + 1);
    var a := WrittenEntry(s, k, v, s.index + 1).(flags := flags);
    var b := WrittenEntry(t, k, v, t.index + 1).(flags := flags);
    StoredEntriesAgree(s, t, bounds, k, a, b);
    assert PutWithFlags(s, k, v, flags) == State(s.data[k := a], s.index + 1);
    assert PutWithFlags(t, k, v, flags) == State(t.data[k := b], t.index + 1);
  }

  lemma StoredEntriesAgree(s: State, t: State, bounds: seq<nat>, k: string, a: KVEntry, b: KVEntry)
    requires Agree(s, t, bounds) && WellIndexed(s) && WellIndexed(t)
    requires AgreeEntry(a, b, bounds + [s.index])
    ensures Agree(State(s.data[k := a], s.index + 1), State(t.data[k := b], t.index + 1), bounds + [s.index])
  {
    forall l | l in s.data ensures AgreeEntry(s.data[l], t.data[l], bounds + [s.index]) {
      OldEntriesAgree(s.data[l], t.data[l], bounds, s.index);
    }
  }

  lemma StepAgrees(s: State, t: State, bounds: seq<nat>, a: Step, b: Step)
    requires Agree(s, t, bounds) && WellIndexed(s) && WellIndexed(t)
    requires ValidStep(a) && ValidStep(b) && a.command == b.command && !IsCas(a.command)
    ensures Agree(Apply(s, a).0, Apply(t, b).0, bounds + [s.index])
  {
    match a.command {
      case CmdSet(k, v) => WritesAgree(s, t, bounds, k, v);
      case CmdSetWithFlags(k, v, f) => FlaggedWritesAgree(s, t, bounds, k, v, f);
      case CmdDelete(k) => RemovalsAgree(s, t, bounds, {k});
      case CmdBatchSet(items) =>
        BatchSetsAgree(s, t, bounds, items, a.schedule.write, b.schedule.write);
      case CmdBatchDelete(keys) => BatchDeletesAgree(s, t, bounds, keys);
    }
  }

  lemma BatchSetsAgree(s: State, t: State, bounds: seq<nat>, items: map<string, string>, a: seq<string>, b: seq<string>)
    requires Agree(s, t, bounds) && WellIndexed(s) && WellIndexed(t)
    requires Enumerates(a, items.Keys) && Enumerates(b, items.Keys)
    ensures (forall k :: k in a ==> k in items) && forall k :: k in b ==> k in items
    ensures Agree(PutAll(s, items, a), PutAll(t, items, b), bounds + [s.index])
  {
    BatchEffect(s, items, a);
    BatchEffect(t, items, b);
    BatchesAgree(s, t, PutAll(s, items, a), PutAll(t, items, b), bounds, items);
  }

  lemma BatchDeletesAgree(s: State, t: State, bounds: seq<nat>, keys: seq<string>)
    requires Agree(s, t, bounds) && WellIndexed(s) && WellIndexed(t)
    ensures Agree(RemoveAll(s, keys), RemoveAll(t, keys), bounds + [s.index])
  {
    RemoveAllContents(s, keys);
    RemoveAllContents(t, keys);
    RemovalsAgree(s, t, bounds, set k | k in keys);
  }

  lemma {:induction false} RunsKeepWellIndexed(start: State, run: seq<Step>, n: nat)
    requires WellIndexed(start) && ValidRun(run) && n <= |run|
    ensures WellIndexed(StateAt(start, run, n))
  {
    if n > 0 {
      RunsKeepWellIndexed(start, run, n - 1);
      StepKeepsWellIndexed(StateAt(start, run, n - 1), run[n - 1]);
    }
  }

  /** Replicas that apply one log of plain commands, each visiting its batches in its own order, always agree. */
  lemma {:induction false} ReplicasAgree(start: State, a: seq<Step>, b: seq<Step>, n: nat)
    requires WellIndexed(start) && ValidRun(a) && ValidRun(b) && SameLog(a, b) && n <= |a|
    requires forall i :: 0 <= i < |a| ==> !IsCas(a[i].command)
    ensures Agree(StateAt(start, a, n), StateAt(start, b, n), Bounds(start, a, n))
  {
    if n == 0 {
      assert Agree(start, start, []);
    } else {
      ReplicasAgree(start, a, b, n - 1);
      RunsKeepWellIndexed(start, a, n - 1);
      RunsKeepWellIndexed(start, b, n - 1);
      NextStepAgrees(start, a, b, n - 1);
    }
  }

  lemma NextStepAgrees(start: State, a: seq<Step>, b: seq<Step>, n: nat)
    requires ValidRun(a) && ValidRun(b) && SameLog(a, b) && n < |a| && !IsCas(a[n].command)
    requires WellIndexed(StateAt(start, a, n)) && WellIndexed(StateAt(start, b, n))
    requires Agree(StateAt(start, a, n), StateAt(start, b, n), Bounds(start, a, n))
    ensures Agree(StateAt(start, a, n + 1), StateAt(start, b, n + 1), Bounds(start, a, n + 1))
  {
    StepAgrees(StateAt(start, a, n), StateAt(start, b, n), Bounds(start, a, n), a[n], b[n]);
  }

  predicate SmallBatch(command: Command) {
    command.CmdBatchSet? || command.CmdBatchSetCAS? ==> |command.items| <= 1
  }

  lemma SmallBatchIsDeterministic(s: State, a: Step, b: Step)
    requires ValidStep(a) && ValidStep(b) && a.command == b.command && SmallBatch(a.command)
    ensures Apply(s, a) == Apply(s, b)
  {
    if a.command.CmdBatchSet? || a.command.CmdBatchSetCAS? {
      SingletonOrder(a.schedule.check, b.schedule.check, a.command.items.Keys);
      SingletonOrder(a.schedule.write, b.schedule.write, a.command.items.Keys);
    }
  }

  /** Without batches of two or more the replicas are identical, states and replies, compare-and-swap included. */
  lemma {:induction false} SmallBatchReplicasAreIdentical(start: State, a: seq<Step>, b: seq<Step>, n: nat)
    requires ValidRun(a) && ValidRun(b) && SameLog(a, b) && n <= |a|
    requires forall i :: 0 <= i < |a| ==> SmallBatch(a[i].command)
    ensures StateAt(start, a, n) == StateAt(start, b, n)
    ensures n < |a| ==> ReplyAt(start, a, n) == ReplyAt(start, b, n)
  {
    if n > 0 {
      SmallBatchReplicasAreIdentical(start, a, b, n - 1);
      SmallBatchIsDeterministic(StateAt(start, a, n - 1), a[n - 1], b[n - 1]);
    }
    if n < |a| {
      SmallBatchIsDeterministic(StateAt(start, a, n), a[n], b[n]);
    }
  }

  // ---- Snapshot and restore ------------------------------------------------------------------------------------

  ghost predicate IsMaxModify(data: map<string, KVEntry>, m: nat) {
    && (forall k :: k in data ==> data[k].modifyIndex <= m)
    && (m == 0 || exists k :: k in data && data[k].modifyIndex == m)
  }

  ghost function MaxModify(data: map<string, KVEntry>): (m: nat)
    ensures IsMaxModify(data, m)
  {
    if data == map[] then 0
    else
      var k :| k in data;
      var rest := MaxModify(data - {k});
      assert forall l :: l in data && l != k ==> l in data - {k} && (data - {k})[l] == data[l];
      if data[k].modifyIndex > rest then data[k].modifyIndex else rest
  }

  lemma MaxModifyUnique(data: map<string, KVEntry>, m: nat)
    requires IsMaxModify(data, m)
    ensures m == MaxModify(data)
  {
  }

  lemma MaxWithOneMore(data: map<string, KVEntry>, m: nat, key: string, entry: KVEntry)
    requires IsMaxModify(data, m) && key !in data
    ensures IsMaxModify(data[key := entry], if entry.modifyIndex > m then entry.modifyIndex else m)
  {
    var next := data[key := entry];
    assert next[key] == entry;
    if m > 0 {
      var k :| k in data && data[k].modifyIndex == m;
      assert next[k].modifyIndex == m;
    }
  }

  /** The state after restoring a snapshot: the counter becomes the largest index still live. */
  ghost function Restored(data: map<string, KVEntry>): State {
    State(data, MaxModify(data))
  }

  /** How far the counter falls when the state is restored from its own snapshot. */
  ghost function Gap(s: State): int {
    s.index - MaxModify(s.data)
  }

  /** No live index is above the counter. */
  ghost predicate BelowCounter(s: State) {
    forall k :: k in s.data ==> s.data[k].modifyIndex <= s.index
  }

  /** The counter survives exactly when some live entry carries it (or nothing was ever written). */
  lemma GapIsZeroIff(s: State)
    requires BelowCounter(s)
    ensures Gap(s) >= 0
    ensures Gap(s) == 0 <==> s.index == 0 || exists k :: k in s.data && s.data[k].modifyIndex == s.index
  {
    if exists k :: k in s.data && s.data[k].modifyIndex == s.index {
      var k :| k in s.data && s.data[k].modifyIndex == s.index;
    }
  }

  function ShiftEntry(e: KVEntry, base: nat, gap: nat): KVEntry
    requires gap <= base
  {
    KVEntry(e.value, ShiftIndex(e.modifyIndex, base, gap), ShiftIndex(e.createIndex, base, gap), e.flags)
  }

  /** `t` is `s` with every index handed out after `base`, and the counter, lower by `gap`. */
  ghost predicate Drifted(s: State, t: State, base: nat, gap: nat)
    requires gap <= base
  {
    && base <= s.index && t.index == s.index - gap
    && t.data == map k | k in s.data :: ShiftEntry(s.data[k], base, gap)
  }

  lemma PutDrifts(s: State, t: State, base: nat, gap: nat, k: string, v: string)
    requires gap <= base && Drifted(s, t, base, gap)
    ensures Drifted(Put(s, k, v), Put(t, k, v), base, gap)
    ensures forall f: nat :: Drifted(PutWithFlags(s, k, v, f), PutWithFlags(t, k, v, f), base, gap)
  {
  }

  lemma {:induction false} PutAllDrifts(s: State, t: State, base: nat, gap: nat, items: map<string, string>,
                                        order: seq<string>)
    requires gap <= base && Drifted(s, t, base, gap) && forall k :: k in order ==> k in items
    ensures Drifted(PutAll(s, items, order), PutAll(t, items, order), base, gap)
  {
    if |order| > 0 {
      var n := |order| - 1;
      PutAllDrifts(s, t, base, gap, items, order[..n]);
      PutDrifts(PutAll(s, items, order[..n]), PutAll(t, items, order[..n]), base, gap, order[n], items[order[n]]);
    }
  }

  lemma StepDrifts(s: State, t: State, base: nat, gap: nat, step: Step)
    requires gap <= base && Drifted(s, t, base, gap) && ValidStep(step) && !IsCas(step.command)
    ensures Drifted(Apply(s, step).0, Apply(t, step).0, base, gap)
  {
    match step.command {
      case CmdSet(k, v) => PutDrifts(s, t, base, gap, k, v);
      case CmdSetWithFlags(k, v, _) => PutDrifts(s, t, base, gap, k, v);
      case CmdBatchSet(items) =>
        OrderInItems(step.schedule.write, items);
        PutAllDrifts(s, t, base, gap, items, step.schedule.write);
      case CmdDelete(k) =>
      case CmdBatchDelete(keys) =>
        RemoveAllContents(s, keys);
        RemoveAllContents(t, keys);
    }
  }

  /** Snapshot plus suffix simulates full replay: for every suffix of plain commands the restored replica holds the
      same keys, values and flags, indices from before the snapshot are kept, later ones are lower by the gap. */
  lemma {:induction false} SnapshotPlusSuffix(s: State, suffix: seq<Step>, n: nat)
    requires WellIndexed(s) && ValidRun(suffix) && n <= |suffix|
    requires forall i :: 0 <= i < |suffix| ==> !IsCas(suffix[i].command)
    ensures 0 <= Gap(s) <= s.index
    ensures Drifted(StateAt(s, suffix, n), StateAt(Restored(s.data), suffix, n), s.index, Gap(s))
  {
    GapIsZeroIff(s);
    if n > 0 {
      SnapshotPlusSuffix(s, suffix, n - 1);
      StepDrifts(StateAt(s, suffix, n - 1), StateAt(Restored(s.data), suffix, n - 1), s.index, Gap(s), suffix[n - 1]);
    }
  }

  /** The restored replica answers every suffix, compare-and-swap included, as the original does: states and replies. */
  ghost predicate Indistinguishable(s: State, r: State) {
    forall suffix: seq<Step>, n: nat :: ValidRun(suffix) && n <= |suffix| ==>
      && StateAt(s, suffix, n) == StateAt(r, suffix, n)
      && (n < |suffix| ==> ReplyAt(s, suffix, n) == ReplyAt(r, suffix, n))
  }

  /** Only the replies are compared. */
  ghost predicate AnswersAlike(s: State, r: State) {
    forall suffix: seq<Step>, n: nat :: ValidRun(suffix) && n < |suffix| ==>
      ReplyAt(s, suffix, n) == ReplyAt(r, suffix, n)
  }

  ghost function WriteThenCas(k: string, v: string, e: nat): (run: seq<Step>)
    ensures ValidRun(run) && |run| == 2
  {
    [Step(CmdSet(k, v), Schedule([], [])), Step(CmdSetCAS(k, v, e), Schedule([], []))]
  }

  /** With a gap, a client that writes and then swaps on the index it should have got succeeds on the original and
      is refused by the restored replica. */
  lemma GapIsVisible(s: State, k: string, v: string)
    requires BelowCounter(s) && Gap(s) > 0
    ensures ReplyAt(s, WriteThenCas(k, v, s.index + 1), 1) == Indexed(s.index + 2)
    ensures ReplyAt(Restored(s.data), WriteThenCas(k, v, s.index + 1), 1).Failed?
  {
    var run, r := WriteThenCas(k, v, s.index + 1), Restored(s.data);
    assert StateAt(s, run, 1) == Apply(StateAt(s, run, 0), run[0]).0 == Put(s, k, v);
    assert StateAt(r, run, 1) == Apply(StateAt(r, run, 0), run[0]).0 == Put(r, k, v);
  }

  /** Restoring is invisible to every suffix, and to every client that sees the replies only, exactly when the counter
      survives it. */
  lemma RestoreIsInvisibleIff(s: State)
    requires BelowCounter(s)
    ensures Indistinguishable(s, Restored(s.data)) <==>
            s.index == 0 || exists k :: k in s.data && s.data[k].modifyIndex == s.index
    ensures AnswersAlike(s, Restored(s.data)) <==> Indistinguishable(s, Restored(s.data))
  {
    GapIsZeroIff(s);
    if Gap(s) == 0 {
      assert Restored(s.data) == s;
    } else {
      GapIsVisible(s, "k", "v");
      var run := WriteThenCas("k", "v", s.index + 1);
      assert ReplyAt(s, run, 1) != ReplyAt(Restored(s.data), run, 1);
    }
  }
}
