/** What a restore does to the compare-and-swap guarantee, and a restored replica with batch orders of its own. */
module KvRestore {
  import opened Prelude
  import opened Kv
  import opened KvRuns
  import opened KvReplication

  // ---- Runs that continue --------------------------------------------------------------------------------------

  lemma {:induction false} StateAtPrefix(start: State, a: seq<Step>, b: seq<Step>, n: nat)
    requires ValidRun(a) && ValidRun(b) && n <= |a|
    ensures ValidRun(a + b) && StateAt(start, a + b, n) == StateAt(start, a, n)
  {
    if n > 0 {
      StateAtPrefix(start, a, b, n - 1);
      assert (a + b)[n - 1] == a[n - 1];
    }
  }

  lemma {:induction false} StateAtSuffix(start: State, a: seq<Step>, b: seq<Step>, n: nat)
    requires ValidRun(a) && ValidRun(b) && n <= |b|
    ensures ValidRun(a + b) && StateAt(start, a + b, |a| + n) == StateAt(StateAt(start, a, |a|), b, n)
  {
    if n == 0 {
      StateAtPrefix(start, a, b, |a|);
    } else {
      StateAtSuffix(start, a, b, n - 1);
      assert (a + b)[|a| + n - 1] == b[n - 1];
    }
  }

  // ---- Every index up to the counter was handed out ------------------------------------------------------------

  lemma StepGivesItsIndices(s: State, step: Step, e: nat) returns (k: string)
    requires ValidStep(step) && s.index < e <= Apply(s, step).0.index
    ensures k in Written(s, step) && k in Apply(s, step).0.data && Apply(s, step).0.data[k].modifyIndex == e
  {
    match step.command {
      case CmdBatchSet(items) => k := BatchGivesItsIndices(s, items, step.schedule.write, e);
      case CmdBatchSetCAS(items, _) => k := BatchGivesItsIndices(s, items, step.schedule.write, e);
      case CmdSet(key, _) => k := key;
      case CmdSetWithFlags(key, _, _) => k := key;
      case CmdSetCAS(key, _, _) => k := key;
      case CmdBatchDelete(keys) => RemoveAllContents(s, keys); assert false;
      case CmdBatchDeleteCAS(keys, _) => RemoveAllContents(s, keys); assert false;
    }
  }

  lemma BatchGivesItsIndices(s: State, items: map<string, string>, order: seq<string>, e: nat) returns (k: string)
    requires Enumerates(order, items.Keys) && s.index < e
    requires (forall x :: x in order ==> x in items) && e <= PutAll(s, items, order).index
    ensures k in items && k in PutAll(s, items, order).data && PutAll(s, items, order).data[k].modifyIndex == e
  {
    OrderInItems(order, items);
    PutAllContents(s, items, order);
    k := order[e - s.index - 1];
  }

  lemma {:induction false} EveryIndexWasGiven(run: seq<Step>, n: nat, e: nat) returns (w: nat, k: string)
    requires ValidRun(run) && n <= |run| && 1 <= e <= StateAt(EMPTY, run, n).index
    ensures w < n && Writes(run, w, k, e)
  {
    if e <= StateAt(EMPTY, run, n - 1).index {
      w, k := EveryIndexWasGiven(run, n - 1, e);
    } else {
      w := n - 1;
      k := StepGivesItsIndices(StateAt(EMPTY, run, n - 1), run[n - 1], e);
    }
  }

  // ---- No ABA across a restore ---------------------------------------------------------------------------------

  ghost predicate TouchesFrom(start: State, run: seq<Step>, i: nat, key: string)
    requires ValidRun(run) && i < |run|
  {
    key in Written(StateAt(start, run, i), run[i]) || key in Deleted(StateAt(start, run, i), run[i])
  }

  ghost predicate UntouchedFrom(start: State, run: seq<Step>, n: nat, key: string)
    requires ValidRun(run) && n <= |run|
  {
    forall i :: 0 <= i < n ==> !TouchesFrom(start, run, i, key)
  }

  /** Step `t` of a run from `start` is guarded by index `e` on `key`, and succeeds. */
  ghost predicate GoesThrough(start: State, run: seq<Step>, t: nat, key: string, e: nat) {
    ValidRun(run) && t < |run| && GuardedBy(run[t].command, key, e) && !ReplyAt(start, run, t).Failed?
  }

  /** The guarantee across a restore of the run's end state: when a guard on an index that a step of the run was given
      lets a later command through, the index was given for that key, and nothing touched the key since, neither in the
      run nor after the restore. */
  ghost predicate NoAbaAcrossRestore(run: seq<Step>)
    requires ValidRun(run)
  {
    GuardsHold(run, Restored(StateAt(EMPTY, run, |run|).data))
  }

  ghost predicate GuardsHold(run: seq<Step>, restored: State)
    requires ValidRun(run)
  {
    forall suffix, t: nat, key, e: nat, w: nat, l :: GuardHoldsAt(run, restored, suffix, t, key, e, w, l)
  }

  ghost predicate GuardHoldsAt(run: seq<Step>, restored: State, suffix: seq<Step>, t: nat, key: string, e: nat, w: nat,
                               l: string)
    requires ValidRun(run)
  {
    GoesThrough(restored, suffix, t, key, e) && Writes(run, w, l, e) ==>
    l == key && Untouched(run, w + 1, |run|, key) && UntouchedFrom(restored, suffix, t, key)
  }

  /** Every index in the gap is handed out again: the key that was given it before the snapshot is written after the
      restore, and the stale guard still lets a swap through. */
  lemma AbaAfterRestore(run: seq<Step>, e: nat) returns (w: nat, key: string, suffix: seq<Step>, t: nat)
    requires ValidRun(run)
    requires MaxModify(StateAt(EMPTY, run, |run|).data) < e <= StateAt(EMPTY, run, |run|).index
    ensures Writes(run, w, key, e)
    ensures var restored := Restored(StateAt(EMPTY, run, |run|).data);
            GoesThrough(restored, suffix, t, key, e) && !UntouchedFrom(restored, suffix, t, key)
  {
    w, key := EveryIndexWasGiven(run, |run|, e);
    var r := Restored(StateAt(EMPTY, run, |run|).data);
    t := e - r.index;
    var sets, swap := RepeatedSets(key, "", t), [Step(CmdSetCAS(key, "", e), Schedule([], []))];
    suffix := sets + swap;
    WritesCount(r, key, "", t, t);
    StateAtPrefix(r, sets, swap, t);
    StateAtPrefix(r, sets, swap, 0);
    assert suffix[t] == swap[0] && suffix[0] == sets[0];
    assert TouchesFrom(r, suffix, 0, key);
  }

  ghost function RepeatedSets(k: string, v: string, n: nat): (run: seq<Step>)
    ensures ValidRun(run) && |run| == n && forall i :: 0 <= i < n ==> run[i].command == CmdSet(k, v)
  {
    seq(n, i => Step(CmdSet(k, v), Schedule([], [])))
  }

  lemma {:induction false} WritesCount(r: State, k: string, v: string, total: nat, n: nat)
    requires n <= total
    ensures var u := StateAt(r, RepeatedSets(k, v, total), n);
            u.index == r.index + n && (n > 0 ==> k in u.data && u.data[k].modifyIndex == r.index + n)
  {
    if n > 0 {
      WritesCount(r, k, v, total, n - 1);
    }
  }

  /** An entry whose index is not above the counter of the start was there from the start. */
  lemma {:induction false} ThereFromTheStart(start: State, run: seq<Step>, n: nat, key: string)
    requires ValidRun(run) && n <= |run| && key in StateAt(start, run, n).data
    requires StateAt(start, run, n).data[key].modifyIndex <= start.index
    ensures key in start.data && start.data[key] == StateAt(start, run, n).data[key]
    ensures UntouchedFrom(start, run, n, key)
  {
    if n > 0 {
      var s := StateAt(start, run, n - 1);
      CounterNeverFalls(start, run, 0, n - 1);
      StepTouches(s, run[n - 1]);
      assert !TouchesFrom(start, run, n - 1, key);
      ThereFromTheStart(start, run, n - 1, key);
    }
  }

  lemma GivenIndexIsBelow(run: seq<Step>, w: nat, l: string, e: nat)
    requires ValidRun(run) && Writes(run, w, l, e)
    ensures e <= StateAt(EMPTY, run, |run|).index
  {
    StepTouches(StateAt(EMPTY, run, w), run[w]);
    CounterNeverFalls(EMPTY, run, w + 1, |run|);
  }

  /** Without a gap the run simply continues. */
  lemma NoAbaWithoutGap(run: seq<Step>, s: State, suffix: seq<Step>, t: nat, key: string, e: nat, w: nat, l: string)
    requires ValidRun(run) && s == StateAt(EMPTY, run, |run|)
    requires GoesThrough(s, suffix, t, key, e) && Writes(run, w, l, e)
    ensures l == key && Untouched(run, w + 1, |run|, key) && UntouchedFrom(s, suffix, t, key)
  {
    GuardHolds(StateAt(s, suffix, t), suffix[t], key, e);
    GivenIndexIsBelow(run, w, l, e);
    ThereFromTheStart(s, suffix, t, key);
    var v := LastWrite(run, |run|, key);
    IndexGivenOnce(run, w, v, l, key, e);
  }

  /** The guarantee carries across the restore exactly when some live entry carries the counter, or nothing was ever
      written. */
  lemma NoAbaAcrossRestoreIff(run: seq<Step>)
    requires ValidRun(run)
    ensures var s := StateAt(EMPTY, run, |run|);
            NoAbaAcrossRestore(run) <==>
            s.index == 0 || exists k :: k in s.data && s.data[k].modifyIndex == s.index
  {
    var s := StateAt(EMPTY, run, |run|);
    EveryRunIsWellIndexed(run, |run|);
    GapIsZeroIff(s);
    if Gap(s) == 0 {
      assert Restored(s.data) == s;
      SavedCounterKeepsGuards(run, s);
    } else {
      var w, key, suffix, t := AbaAfterRestore(run, s.index);
      GuaranteeBroken(run, Restored(s.data), suffix, t, key, s.index, w);
    }
  }

  /** A snapshot that saves the counter beside the entries keeps every guard, after every run. */
  lemma SavedCounterKeepsGuards(run: seq<Step>, s: State)
    requires ValidRun(run) && s == StateAt(EMPTY, run, |run|)
    ensures GuardsHold(run, s)
  {
    forall suffix, t: nat, key, e: nat, w: nat, l ensures GuardHoldsAt(run, s, suffix, t, key, e, w, l) {
      if GoesThrough(s, suffix, t, key, e) && Writes(run, w, l, e) {
        NoAbaWithoutGap(run, s, suffix, t, key, e, w, l);
      }
    }
  }

  lemma GuaranteeBroken(run: seq<Step>, restored: State, suffix: seq<Step>, t: nat, key: string, e: nat, w: nat)
    requires ValidRun(run) && Writes(run, w, key, e)
    requires GoesThrough(restored, suffix, t, key, e) && !UntouchedFrom(restored, suffix, t, key)
    ensures !GuardsHold(run, restored)
  {
    assert !GuardHoldsAt(run, restored, suffix, t, key, e, w, key);
  }

  /** After any run, writing a key and deleting it again loses the guarantee. */
  lemma DeletingTheNewestLosesIt(run: seq<Step>, k: string, v: string) returns (longer: seq<Step>)
    requires ValidRun(run)
    ensures ValidRun(longer) && run <= longer && |longer| == |run| + 2
    ensures !NoAbaAcrossRestore(longer)
  {
    var more := [Step(CmdSet(k, v), Schedule([], [])), Step(CmdDelete(k), Schedule([], []))];
    longer := run + more;
    var s := StateAt(EMPTY, run, |run|);
    StateAtSuffix(EMPTY, run, more, 2);
    assert StateAt(s, more, 1) == Apply(StateAt(s, more, 0), more[0]).0 == Put(s, k, v);
    assert StateAt(s, more, 2) == Apply(StateAt(s, more, 1), more[1]).0 == Remove(Put(s, k, v), k);
    EveryRunIsWellIndexed(run, |run|);
    NoAbaAcrossRestoreIff(longer);
  }

  // ---- A restored replica with batch orders of its own ---------------------------------------------------------

  /** `w` is `u` with later indices lower by the gap, up to the order inside one batch. */
  ghost predicate Follows(u: State, w: State, base: nat, gap: nat, bounds: seq<nat>)
    requires gap <= base
  {
    && w.index == u.index - gap && w.data.Keys == u.data.Keys
    && forall k :: k in u.data ==> AgreeEntry(ShiftEntry(u.data[k], base, gap), w.data[k], bounds)
  }

  lemma DriftThenAgree(u: State, t: State, w: State, base: nat, gap: nat, bounds: seq<nat>)
    requires gap <= base && Drifted(u, t, base, gap) && Agree(t, w, bounds)
    ensures Follows(u, w, base, gap, bounds)
  {
    assert t.data.Keys == u.data.Keys;
    forall k | k in u.data ensures AgreeEntry(ShiftEntry(u.data[k], base, gap), w.data[k], bounds) {
      assert t.data[k] == ShiftEntry(u.data[k], base, gap);
    }
  }

  /** Snapshot plus suffix, the restored replica visiting its batches in its own orders: same keys, values and flags;
      indices from before the snapshot kept; later ones lower by the gap, up to the order inside one batch. */
  lemma RestoredReplicaFollows(s: State, a: seq<Step>, b: seq<Step>, n: nat)
    requires WellIndexed(s) && ValidRun(a) && ValidRun(b) && SameLog(a, b) && n <= |a|
    requires forall i :: 0 <= i < |a| ==> !IsCas(a[i].command)
    ensures 0 <= Gap(s) <= s.index
    ensures Follows(StateAt(s, a, n), StateAt(Restored(s.data), b, n), s.index, Gap(s), Bounds(Restored(s.data), a, n))
  {
    SnapshotPlusSuffix(s, a, n);
    RestoredIsWellIndexed(s);
    ReplicasAgree(Restored(s.data), a, b, n);
    DriftThenAgree(StateAt(s, a, n), StateAt(Restored(s.data), a, n), StateAt(Restored(s.data), b, n), s.index, Gap(s),
                   Bounds(Restored(s.data), a, n));
  }

  lemma RestoredIsWellIndexed(s: State)
    requires WellIndexed(s)
    ensures WellIndexed(Restored(s.data))
  {
  }
}
