/** What the persistent operations leave in the storage engine, and what a restart makes of it. */
module KvDurability {
  import opened Prelude
  import opened Kv
  import opened KvRuns
  import opened KvReplication
  import opened Persistence

  ghost function Encoded(codec: Codec<KVEntry>, data: map<string, KVEntry>): map<string, Bytes> {
    map k | k in data :: codec.enc(data[k])
  }

  /** The engine's contents after a persistent operation that took `s` to its next state. */
  ghost function Persisted(codec: Codec<KVEntry>, m: map<string, Bytes>, s: State, step: Step): map<string, Bytes>
    requires ValidStep(step)
  {
    var t := Apply(s, step).0;
    if Apply(s, step).1.Failed? then m
    else match step.command
      case CmdSet(k, _) => m[k := codec.enc(t.data[k])]
      case CmdSetWithFlags(k, _, _) => m[k := codec.enc(t.data[k])]
      case CmdSetCAS(k, _, _) => m[k := codec.enc(t.data[k])]
      case CmdDelete(k) => m - {k}
      case CmdDeleteCAS(k, _) => m - {k}
      case CmdBatchSet(items) => m + EncodedItems(codec, t, items.Keys)
      case CmdBatchSetCAS(items, _) => m + EncodedItems(codec, t, items.Keys)
      case CmdBatchDelete(keys) => m - set k | k in keys
      case CmdBatchDeleteCAS(keys, _) => m - set k | k in keys
  }

  ghost function EncodedItems(codec: Codec<KVEntry>, t: State, keys: set<string>): map<string, Bytes> {
    map k | k in keys && k in t.data :: codec.enc(t.data[k])
  }

  lemma BatchPersists(codec: Codec<KVEntry>, s: State, t: State, keys: set<string>)
    requires keys <= t.data.Keys == s.data.Keys + keys
    requires forall k :: k in s.data && k !in keys ==> t.data[k] == s.data[k]
    ensures Encoded(codec, s.data) + EncodedItems(codec, t, keys) == Encoded(codec, t.data)
  {
  }

  lemma WritePersists(codec: Codec<KVEntry>, s: State, t: State, k: string)
    requires k in t.data && t.data == s.data[k := t.data[k]]
    ensures Encoded(codec, s.data)[k := codec.enc(t.data[k])] == Encoded(codec, t.data)
  {
  }

  lemma RemovalPersists(codec: Codec<KVEntry>, s: State, keys: set<string>)
    ensures Encoded(codec, s.data) - keys == Encoded(codec, s.data - keys)
  {
  }

  /** The engine follows the store. */
  lemma StepPersists(codec: Codec<KVEntry>, s: State, step: Step)
    requires ValidStep(step)
    ensures Persisted(codec, Encoded(codec, s.data), s, step) == Encoded(codec, Apply(s, step).0.data)
  {
    if !Apply(s, step).1.Failed? {
      match step.command {
        case CmdSet(k, v) => WritePersists(codec, s, Put(s, k, v), k);
        case CmdSetWithFlags(k, v, f) => WritePersists(codec, s, PutWithFlags(s, k, v, f), k);
        case CmdSetCAS(k, v, _) => WritePersists(codec, s, Put(s, k, v), k);
        case CmdDelete(k) => RemovalPersists(codec, s, {k});
        case CmdDeleteCAS(k, _) => RemovalPersists(codec, s, {k});
        case CmdBatchSet(items) => BatchSetPersists(codec, s, items, step.schedule.write);
        case CmdBatchSetCAS(items, _) => BatchSetPersists(codec, s, items, step.schedule.write);
        case CmdBatchDelete(keys) => BatchDeletePersists(codec, s, keys);
        case CmdBatchDeleteCAS(keys, _) => BatchDeletePersists(codec, s, keys);
      }
    }
  }

  lemma BatchSetPersists(codec: Codec<KVEntry>, s: State, items: map<string, string>, write: seq<string>)
    requires Enumerates(write, items.Keys)
    ensures (forall k :: k in write <==> k in items)
            && Encoded(codec, s.data) + EncodedItems(codec, PutAll(s, items, write), items.Keys)
               == Encoded(codec, PutAll(s, items, write).data)
  {
    BatchEffect(s, items, write);
    BatchKeys(s, PutAll(s, items, write), items);
    BatchPersists(codec, s, PutAll(s, items, write), items.Keys);
  }

  lemma BatchKeys(s: State, t: State, items: map<string, string>)
    requires IsBatchEffect(s, t, items)
    ensures items.Keys <= t.data.Keys == s.data.Keys + items.Keys
    ensures forall k :: k in s.data && k !in items ==> t.data[k] == s.data[k]
  {
  }

  lemma BatchDeletePersists(codec: Codec<KVEntry>, s: State, keys: seq<string>)
    ensures Encoded(codec, s.data) - (set k | k in keys) == Encoded(codec, RemoveAll(s, keys).data)
  {
    RemoveAllContents(s, keys);
    RemovalPersists(codec, s, set k | k in keys);
  }

  // ---- Lives of a store ----------------------------------------------------------------------------------------

  /** A stored text that is no encoded entry is a value in the old format, loaded with index 1. */
  function Loaded(codec: Codec<KVEntry>, bytes: Bytes): KVEntry {
    var entry := codec.dec(bytes);
    if entry.Some? then entry.value else KVEntry(bytes, 1, 1, 0)
  }

  ghost function LoadedAll(codec: Codec<KVEntry>, m: map<string, Bytes>): map<string, KVEntry> {
    map k | k in m :: Loaded(codec, m[k])
  }

  /** What a store holds after opening: every stored key, with the entry that was saved; a text in the old format
      becomes the value, unflagged and with index 1. */
  lemma OpenedHolds(codec: Codec<KVEntry>, stored: map<string, Bytes>, key: string)
    ensures var s := Restored(LoadedAll(codec, stored));
            && (key in s.data <==> key in stored)
            && (key in stored && codec.dec(stored[key]).Some? ==> s.data[key] == codec.dec(stored[key]).value)
            && (key in stored && codec.dec(stored[key]).None? ==>
                  s.data[key].value == stored[key] && s.data[key].modifyIndex == 1 && s.data[key].createIndex == 1
                  && s.data[key].flags == 0 && s.index >= 1)
  {
  }

  /** A store opens on an engine that already holds something, runs commands, and is restarted at any time. */
  datatype Action = Run(step: Step) | Restart

  datatype System = System(store: State, stored: map<string, Bytes>)

  ghost predicate ValidActions(actions: seq<Action>) {
    forall i :: 0 <= i < |actions| && actions[i].Run? ==> ValidStep(actions[i].step)
  }

  ghost function Next(codec: Codec<KVEntry>, sys: System, action: Action): System
    requires action.Run? ==> ValidStep(action.step)
  {
    match action
    case Run(step) => System(Apply(sys.store, step).0, Persisted(codec, sys.stored, sys.store, step))
    case Restart => sys.(store := Restored(LoadedAll(codec, sys.stored)))
  }

  ghost function SystemAt(codec: Codec<KVEntry>, stored: map<string, Bytes>, actions: seq<Action>, n: nat): System
    requires ValidActions(actions) && n <= |actions|
  {
    if n == 0 then System(Restored(LoadedAll(codec, stored)), stored)
    else Next(codec, SystemAt(codec, stored, actions, n - 1), actions[n - 1])
  }

  lemma ActionKeepsEngine(codec: Codec<KVEntry>, sys: System, action: Action)
    requires Inverse(codec) && (action.Run? ==> ValidStep(action.step))
    requires LoadedAll(codec, sys.stored) == sys.store.data
    ensures LoadedAll(codec, Next(codec, sys, action).stored) == Next(codec, sys, action).store.data
  {
    if action.Run? {
      StepKeepsEngine(codec, sys.stored, sys.store, action.step);
    }
  }

  /** At every moment of every history of commands and restarts, whatever the engine held at first, the engine holds
      what a restart turns into exactly the present entries. */
  lemma {:induction false} RestartRecovers(codec: Codec<KVEntry>, stored: map<string, Bytes>, actions: seq<Action>,
                                           n: nat)
    requires Inverse(codec) && ValidActions(actions) && n <= |actions|
    ensures Recovers(codec, SystemAt(codec, stored, actions, n))
  {
    if n == 0 {
      OpenedRecovers(codec, stored);
    } else {
      RestartRecovers(codec, stored, actions, n - 1);
      ActionRecovers(codec, SystemAt(codec, stored, actions, n - 1), actions[n - 1]);
    }
  }

  /** A restart gives back exactly the present entries, and no live index is above the counter. */
  ghost predicate Recovers(codec: Codec<KVEntry>, sys: System) {
    LoadedAll(codec, sys.stored) == sys.store.data && BelowCounter(sys.store)
  }

  lemma OpenedRecovers(codec: Codec<KVEntry>, stored: map<string, Bytes>)
    ensures Recovers(codec, System(Restored(LoadedAll(codec, stored)), stored))
  {
  }

  lemma ActionRecovers(codec: Codec<KVEntry>, sys: System, action: Action)
    requires Inverse(codec) && (action.Run? ==> ValidStep(action.step)) && Recovers(codec, sys)
    ensures Recovers(codec, Next(codec, sys, action))
  {
    ActionKeepsEngine(codec, sys, action);
    ActionKeepsBelow(codec, sys, action);
  }

  lemma ActionKeepsBelow(codec: Codec<KVEntry>, sys: System, action: Action)
    requires BelowCounter(sys.store) && (action.Run? ==> ValidStep(action.step))
    ensures BelowCounter(Next(codec, sys, action).store)
  {
    if action.Run? {
      StepTouches(sys.store, action.step);
      EffectKeepsBelow(sys.store, Apply(sys.store, action.step).0, Written(sys.store, action.step),
                       Deleted(sys.store, action.step));
    }
  }

  lemma EffectKeepsBelow(s: State, t: State, written: set<string>, deleted: set<string>)
    requires BelowCounter(s) && IsEffect(s, t, written, deleted)
    ensures BelowCounter(t)
  {
    forall k | k in t.data ensures t.data[k].modifyIndex <= t.index {
      if k !in written {
        assert k !in deleted && t.data[k] == s.data[k];
      }
    }
  }

  /** Hence no later command can tell the restart exactly when some live entry carries the counter, or it is 0. */
  lemma RestartIsInvisibleIff(codec: Codec<KVEntry>, stored: map<string, Bytes>, actions: seq<Action>, n: nat)
    requires Inverse(codec) && ValidActions(actions) && n <= |actions|
    ensures var sys := SystemAt(codec, stored, actions, n);
            Indistinguishable(sys.store, Next(codec, sys, Restart).store) <==>
            sys.store.index == 0 || exists k :: k in sys.store.data && sys.store.data[k].modifyIndex == sys.store.index
  {
    RestartRecovers(codec, stored, actions, n);
    RestoreIsInvisibleIff(SystemAt(codec, stored, actions, n).store);
  }

  /** An engine that held nothing but encoded entries never holds anything else. */
  lemma {:induction false} EngineFollowsStore(codec: Codec<KVEntry>, start: State, actions: seq<Action>, n: nat)
    requires Inverse(codec) && ValidActions(actions) && n <= |actions|
    ensures var sys := SystemAt(codec, Encoded(codec, start.data), actions, n);
            sys.stored == Encoded(codec, sys.store.data)
  {
    LoadedUndoesEncoded(codec, start.data);
    if n > 0 {
      var sys := SystemAt(codec, Encoded(codec, start.data), actions, n - 1);
      EngineFollowsStore(codec, start, actions, n - 1);
      LoadedUndoesEncoded(codec, sys.store.data);
      if actions[n - 1].Run? {
        StepPersists(codec, sys.store, actions[n - 1].step);
      }
    }
  }

  lemma LoadedUndoesEncoded(codec: Codec<KVEntry>, data: map<string, KVEntry>)
    requires Inverse(codec)
    ensures LoadedAll(codec, Encoded(codec, data)) == data
  {
  }

  // ---- One step on an engine that holds anything ---------------------------------------------------------------

  lemma StepKeepsEngine(codec: Codec<KVEntry>, m: map<string, Bytes>, s: State, step: Step)
    requires Inverse(codec) && ValidStep(step) && LoadedAll(codec, m) == s.data
    ensures LoadedAll(codec, Persisted(codec, m, s, step)) == Apply(s, step).0.data
  {
    match step.command {
      case CmdSet(_, _) => SingleKeepsEngine(codec, m, s, step);
      case CmdSetWithFlags(_, _, _) => SingleKeepsEngine(codec, m, s, step);
      case CmdSetCAS(_, _, _) => SingleKeepsEngine(codec, m, s, step);
      case CmdDelete(k) => RemovalKeepsEngine(codec, m, s, {k});
      case CmdDeleteCAS(k, _) => RemovalKeepsEngine(codec, m, s, {k});
      case CmdBatchSet(_) => BatchKeepsEngine(codec, m, s, step);
      case CmdBatchSetCAS(_, _) => BatchKeepsEngine(codec, m, s, step);
      case CmdBatchDelete(keys) => BatchDeleteKeepsEngine(codec, m, s, keys);
      case CmdBatchDeleteCAS(keys, _) => BatchDeleteKeepsEngine(codec, m, s, keys);
    }
  }

  lemma BatchKeepsEngine(codec: Codec<KVEntry>, m: map<string, Bytes>, s: State, step: Step)
    requires Inverse(codec) && ValidStep(step) && LoadedAll(codec, m) == s.data
    requires step.command.CmdBatchSet? || step.command.CmdBatchSetCAS?
    ensures LoadedAll(codec, Persisted(codec, m, s, step)) == Apply(s, step).0.data
  {
    if !Apply(s, step).1.Failed? {
      BatchSetKeepsEngine(codec, m, s, step.command.items, step.schedule.write);
    }
  }

  lemma SingleKeepsEngine(codec: Codec<KVEntry>, m: map<string, Bytes>, s: State, step: Step)
    requires Inverse(codec) && ValidStep(step) && LoadedAll(codec, m) == s.data
    requires step.command.CmdSet? || step.command.CmdSetWithFlags? || step.command.CmdSetCAS?
    ensures LoadedAll(codec, Persisted(codec, m, s, step)) == Apply(s, step).0.data
  {
    if !Apply(s, step).1.Failed? {
      WriteKeepsEngine(codec, m, s, Apply(s, step).0, step.command.key);
    }
  }

  lemma WriteKeepsEngine(codec: Codec<KVEntry>, m: map<string, Bytes>, s: State, t: State, k: string)
    requires Inverse(codec) && LoadedAll(codec, m) == s.data
    requires k in t.data && t.data == s.data[k := t.data[k]]
    ensures LoadedAll(codec, m[k := codec.enc(t.data[k])]) == t.data
  {
  }

  lemma RemovalKeepsEngine(codec: Codec<KVEntry>, m: map<string, Bytes>, s: State, keys: set<string>)
    requires LoadedAll(codec, m) == s.data
    ensures LoadedAll(codec, m - keys) == s.data - keys
  {
  }

  lemma KeysKeepEngine(codec: Codec<KVEntry>, m: map<string, Bytes>, s: State, t: State, keys: set<string>)
    requires Inverse(codec) && LoadedAll(codec, m) == s.data
    requires keys <= t.data.Keys == s.data.Keys + keys
    requires forall k :: k in s.data && k !in keys ==> t.data[k] == s.data[k]
    ensures LoadedAll(codec, m + EncodedItems(codec, t, keys)) == t.data
  {
    assert m.Keys == s.data.Keys;
  }

  lemma BatchSetKeepsEngine(codec: Codec<KVEntry>, m: map<string, Bytes>, s: State, items: map<string, string>,
                            write: seq<string>)
    requires Inverse(codec) && LoadedAll(codec, m) == s.data && Enumerates(write, items.Keys)
    ensures (forall k :: k in write <==> k in items)
            && LoadedAll(codec, m + EncodedItems(codec, PutAll(s, items, write), items.Keys))
               == PutAll(s, items, write).data
  {
    BatchEffect(s, items, write);
    BatchKeys(s, PutAll(s, items, write), items);
    KeysKeepEngine(codec, m, s, PutAll(s, items, write), items.Keys);
  }

  lemma BatchDeleteKeepsEngine(codec: Codec<KVEntry>, m: map<string, Bytes>, s: State, keys: seq<string>)
    requires LoadedAll(codec, m) == s.data
    ensures LoadedAll(codec, m - set k | k in keys) == RemoveAll(s, keys).data
  {
    RemoveAllContents(s, keys);
    RemovalKeepsEngine(codec, m, s, set k | k in keys);
  }
}
