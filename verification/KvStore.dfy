/**
 The key-value store object. A `...Local` method changes memory and notifies watchers; the method without the suffix
 also writes to the storage engine. Every batch takes the iteration orders of its Go maps: `check` for validation,
 `write` for the update, `notify` for the events.
 */
module KvStore {
  import opened Prelude
  import opened Kv
  import opened KvEvents
  import opened KvReplication
  import opened KvDurability
  import opened Persistence
  import Watch
  import WatchManager

  class KVStore {
    var Data: map<string, KVEntry>
    var globalIndex: nat
    const engine: MemoryEngine?
    const watchManager: WatchManager.Manager?
    const codec: Codec<KVEntry>

    ghost function View(): State
      reads this
    {
      State(Data, globalIndex)
    }

    ghost predicate Valid()
      reads this, watchManager
    {
      watchManager != null ==> watchManager.Valid()
    }

    ghost function Registry(): Watch.Registry
      reads this, watchManager
    {
      if watchManager == null then Watch.EMPTY else watchManager.State()
    }

    /** The engine, if there is one. The other store of the node may use it too, and keeps its half. */
    ghost function Engines(): set<MemoryEngine> {
      if engine == null then {} else {engine}
    }

    ghost function Stored(): map<string, Bytes>
      reads this, engine
    {
      if engine == null then map[] else engine.kvData
    }

    /** The watch manager has been notified of `events`, in that order. */
    ghost predicate Told(before: Watch.Registry, events: seq<Watch.Event>)
      reads this, watchManager
    {
      watchManager != null ==> watchManager.State() == Watch.NotifiedAll(before, watchManager.rules, events)
    }

    constructor (engine: MemoryEngine?, watchManager: WatchManager.Manager?, codec: Codec<KVEntry>)
      requires watchManager != null ==> watchManager.Valid()
      ensures Valid() && this.engine == engine && this.watchManager == watchManager && this.codec == codec
      ensures engine == null ==> View() == EMPTY
      ensures engine != null ==> View() == Restored(LoadedAll(codec, engine.kvData))
    {
      this.engine, this.watchManager, this.codec := engine, watchManager, codec;
      Data, globalIndex := map[], 0;
      new;
      if engine != null {
        LoadFromPersistence();
      }
    }

    method LoadFromPersistence()
      requires engine != null && Data == map[]
      modifies this
      ensures View() == Restored(LoadedAll(codec, engine.kvData))
    {
      var maxIndex := 0;
      var rest := engine.kvData.Keys;
      while rest != {}
        invariant rest <= engine.kvData.Keys
        invariant Data == map k | k in engine.kvData && k !in rest :: Loaded(codec, engine.kvData[k])
        invariant IsMaxModify(Data, maxIndex)
        decreases rest
      {
        var key :| key in rest;
        var value := engine.Get(key);
        var entry := Loaded(codec, value.value);
        MaxWithOneMore(Data, maxIndex, key, entry);
        Data := Data[key := entry];
        if entry.modifyIndex > maxIndex {
          maxIndex := entry.modifyIndex;
        }
        rest := rest - {key};
      }
      assert Data == LoadedAll(codec, engine.kvData);
      globalIndex := maxIndex;
      MaxModifyUnique(Data, maxIndex);
    }

    // ---- In-memory steps shared by the local and the persistent forms ------------------------------------------

    method NextIndex() returns (index: nat)
      modifies this`globalIndex
      ensures globalIndex == old(globalIndex) + 1 == index
    {
      globalIndex := globalIndex + 1;
      index := globalIndex;
    }

    method Write(key: string, value: string) returns (event: Watch.Event)
      modifies this
      ensures View() == Put(old(View()), key, value)
      ensures event == SetEvent(old(View()), key, value)
    {
      var existed := key in Data;
      var oldValue := if existed then Data[key].value else "";
      var newIndex := NextIndex();
      var entry := KVEntry(value, newIndex, newIndex, 0);
      if existed {
        entry := entry.(createIndex := Data[key].createIndex, flags := Data[key].flags);
      }
      Data := Data[key := entry];
      event := Watch.Event(Watch.SetKind, key, value, oldValue);
    }

    method WriteWithFlags(key: string, value: string, flags: nat) returns (event: Watch.Event)
      modifies this
      ensures View() == PutWithFlags(old(View()), key, value, flags)
      ensures event == SetEvent(old(View()), key, value)
    {
      var existed := key in Data;
      var oldValue := if existed then Data[key].value else "";
      var newIndex := NextIndex();
      var entry := KVEntry(value, newIndex, newIndex, flags);
      if existed {
        entry := entry.(createIndex := Data[key].createIndex);
      }
      Data := Data[key := entry];
      event := Watch.Event(Watch.SetKind, key, value, oldValue);
    }

    method Check(key: string, expectedIndex: nat) returns (err: Option<Error>)
      ensures err == CheckSet(View(), key, expectedIndex)
    {
      if expectedIndex == 0 {
        if key in Data {
          return Some(CASConflict(key, 0, Data[key].modifyIndex));
        }
      } else {
        if key !in Data {
          return Some(NotFound(key));
        }
        if Data[key].modifyIndex != expectedIndex {
          return Some(CASConflict(key, expectedIndex, Data[key].modifyIndex));
        }
      }
      return None;
    }

    method CheckForDelete(key: string, expectedIndex: nat) returns (err: Option<Error>)
      ensures err == CheckDelete(View(), key, expectedIndex)
    {
      if key !in Data {
        return Some(NotFound(key));
      }
      if Data[key].modifyIndex != expectedIndex {
        return Some(CASConflict(key, expectedIndex, Data[key].modifyIndex));
      }
      return None;
    }

    method CheckBatch(check: seq<string>, expectedIndices: map<string, nat>) returns (err: Option<Error>)
      ensures err == CheckSetAll(View(), expectedIndices, check)
    {
      for i := 0 to |check|
        invariant CheckSetAll(View(), expectedIndices, check[..i]).None?
      {
        assert check[..i + 1][..i] == check[..i];
        err := Check(check[i], Expected(expectedIndices, check[i]));
        if err.Some? {
          StopsAtFirst(View(), expectedIndices, check, i + 1);
          return;
        }
      }
      assert check[..|check|] == check;
      err := None;
    }

    method CheckBatchForDelete(keys: seq<string>, expectedIndices: map<string, nat>) returns (err: Option<Error>)
      ensures err == CheckDeleteAll(View(), expectedIndices, keys)
    {
      for i := 0 to |keys|
        invariant CheckDeleteAll(View(), expectedIndices, keys[..i]).None?
      {
        assert keys[..i + 1][..i] == keys[..i];
        err := CheckForDelete(keys[i], Expected(expectedIndices, keys[i]));
        if err.Some? {
          StopsAtFirstDelete(View(), expectedIndices, keys, i + 1);
          return;
        }
      }
      assert keys[..|keys|] == keys;
      err := None;
    }

    /** Writes a batch in the given order and remembers the values it replaced. */
    method WriteAll(items: map<string, string>, write: seq<string>) returns (oldValues: Values,
                    indices: map<string, nat>)
      requires NoDup(write) && forall k :: k in write ==> k in items
      modifies this
      ensures View() == PutAll(old(View()), items, write)
      ensures indices == NewIndices(old(View()), write)
      ensures forall k :: k in write ==> OldValue(old(View()), k) == (if k in oldValues then oldValues[k] else "")
    {
      ghost var s := View();
      oldValues, indices := map[], map[];
      for i := 0 to |write|
        invariant View() == PutAll(s, items, write[..i])
        invariant indices == NewIndices(s, write[..i])
        invariant Remembered(s, oldValues, write[..i])
      {
        WriteNext(s, items, write, i);
        RememberNext(s, View(), items, write, i, oldValues);
        var index;
        oldValues, index := WriteOne(write[i], items[write[i]], oldValues);
        indices := indices[write[i] := index];
      }
      assert write[..|write|] == write;
    }

    method WriteOne(key: string, value: string, oldValues: Values) returns (remembered: Values, index: nat)
      modifies this
      ensures View() == Put(old(View()), key, value) && index == globalIndex
      ensures remembered == if key in old(Data) then oldValues[key := old(Data)[key].value] else oldValues
    {
      remembered := if key in Data then oldValues[key := Data[key].value] else oldValues;
      var event := Write(key, value);
      index := globalIndex;
    }

    method EraseAll(keys: seq<string>) returns (oldValues: Values)
      modifies this`Data
      ensures View() == RemoveAll(old(View()), keys)
      ensures oldValues == RememberedLive(old(View()), keys)
    {
      ghost var s := View();
      oldValues := map[];
      for i := 0 to |keys|
        invariant View() == RemoveAll(s, keys[..i])
        invariant oldValues == RememberedLive(s, keys[..i])
      {
        EraseNext(s, keys, i);
        if keys[i] in Data {
          oldValues := oldValues[keys[i] := Data[keys[i]].value];
        }
        Data := Data - {keys[i]};
      }
      assert keys[..|keys|] == keys;
    }

    /** The second pass of a compare-and-swap batch delete: a missing key reads as the empty entry. */
    method EraseAllCas(keys: seq<string>) returns (oldValues: Values)
      modifies this`Data
      ensures View() == RemoveAll(old(View()), keys)
      ensures oldValues == RememberedCas(old(View()), keys)
    {
      ghost var s := View();
      oldValues := map[];
      for i := 0 to |keys|
        invariant View() == RemoveAll(s, keys[..i])
        invariant oldValues == RememberedCas(s, keys[..i])
      {
        assert keys[..i + 1] == keys[..i] + [keys[i]] && keys[..i + 1][..i] == keys[..i];
        RemoveAllContents(s, keys[..i]);
        oldValues := oldValues[keys[i] := if keys[i] in Data then Data[keys[i]].value else ""];
        Data := Data - {keys[i]};
      }
      assert keys[..|keys|] == keys;
    }

    // ---- Notifying ---------------------------------------------------------------------------------------------

    method Tell(event: Watch.Event)
      requires Valid()
      modifies watchManager
      ensures Valid() && Told(old(Registry()), [event])
    {
      if watchManager != null {
        watchManager.Notify(event);
        assert [event][..0] == [];
      }
    }

    method TellSets(items: map<string, string>, oldValues: Values, notify: seq<string>, ghost s: Kv.State)
      requires Valid() && forall k :: k in notify ==> k in items
      requires forall k :: k in notify ==> OldValue(s, k) == (if k in oldValues then oldValues[k] else "")
      modifies watchManager
      ensures Valid() && Told(old(Registry()), SetEvents(s, items, notify))
    {
      if watchManager != null {
        ghost var before := Registry();
        ghost var events := SetEvents(s, items, notify);
        for i := 0 to |notify|
          invariant Valid() && Told(before, events[..i])
        {
          var key := notify[i];
          assert events[i] == SetEvent(s, key, items[key]);
          Watch.NotifiedOneMore(before, watchManager.rules, events, i);
          var oldValue := if key in oldValues then oldValues[key] else "";
          watchManager.Notify(Watch.Event(Watch.SetKind, key, items[key], oldValue));
        }
        assert events[..|notify|] == events;
      }
    }

    method TellDeletes(oldValues: Values, notify: seq<string>)
      requires Valid() && forall k :: k in notify ==> k in oldValues
      modifies watchManager
      ensures Valid() && Told(old(Registry()), DeleteEvents(oldValues, notify))
    {
      if watchManager != null {
        ghost var before := Registry();
        ghost var events := DeleteEvents(oldValues, notify);
        for i := 0 to |notify|
          invariant Valid() && Told(before, events[..i])
        {
          var event := Watch.Event(Watch.DeleteKind, notify[i], "", oldValues[notify[i]]);
          assert events[i] == event;
          Watch.NotifiedOneMore(before, watchManager.rules, events, i);
          watchManager.Notify(event);
        }
        assert events[..|notify|] == events;
      }
    }

    // ---- Operations of the replicated log: memory and watchers only --------------------------------------------

    method SetLocal(key: string, value: string)
      requires Valid()
      modifies this, watchManager
      ensures Valid() && View() == Apply(old(View()), Plain(CmdSet(key, value))).0
      ensures Told(old(Registry()), [SetEvent(old(View()), key, value)])
    {
      var event := Write(key, value);
      Tell(event);
    }

    method SetWithFlagsLocal(key: string, value: string, flags: nat)
      requires Valid()
      modifies this, watchManager
      ensures Valid() && View() == Apply(old(View()), Plain(CmdSetWithFlags(key, value, flags))).0
      ensures Told(old(Registry()), [SetEvent(old(View()), key, value)])
    {
      var event := WriteWithFlags(key, value, flags);
      Tell(event);
    }

    method DeleteLocal(key: string)
      requires Valid()
      modifies this, watchManager
      ensures Valid() && View() == Apply(old(View()), Plain(CmdDelete(key))).0
      ensures Told(old(Registry()), if key in old(Data) then [DeleteEvent(key, old(Data)[key].value)] else [])
    {
      if key in Data {
        var event := Watch.Event(Watch.DeleteKind, key, "", Data[key].value);
        Data := Data - {key};
        Tell(event);
      } else {
        Data := Data - {key};
      }
    }

    method SetCASLocal(key: string, value: string, expectedIndex: nat) returns (r: Reply)
      requires Valid()
      modifies this, watchManager
      ensures Valid() && (View(), r) == Apply(old(View()), Plain(CmdSetCAS(key, value, expectedIndex)))
      ensures Told(old(Registry()), if r.Failed? then [] else [SetEvent(old(View()), key, value)])
    {
      var err := Check(key, expectedIndex);
      if err.Some? {
        return Failed(err.value);
      }
      var event := Write(key, value);
      r := Indexed(globalIndex);
      Tell(event);
    }

    method DeleteCASLocal(key: string, expectedIndex: nat) returns (r: Reply)
      requires Valid()
      modifies this, watchManager
      ensures Valid() && (View(), r) == Apply(old(View()), Plain(CmdDeleteCAS(key, expectedIndex)))
      ensures Told(old(Registry()), if r.Failed? then [] else [DeleteEvent(key, OldValue(old(View()), key))])
    {
      var err := CheckForDelete(key, expectedIndex);
      if err.Some? {
        return Failed(err.value);
      }
      var event := Watch.Event(Watch.DeleteKind, key, "", Data[key].value);
      Data := Data - {key};
      Tell(event);
      r := Done;
    }

    method BatchSetLocal(items: map<string, string>, orders: Schedule, notify: seq<string>)
      requires Valid() && ValidStep(Step(CmdBatchSet(items), orders)) && Enumerates(notify, items.Keys)
      modifies this, watchManager
      ensures Valid() && View() == Apply(old(View()), Step(CmdBatchSet(items), orders)).0
      ensures (forall k :: k in notify ==> k in items) && Told(old(Registry()), SetEvents(old(View()), items, notify))
    {
      OrderInItems(orders.write, items);
      OrderInItems(notify, items);
      ghost var s := View();
      var oldValues, indices := WriteAll(items, orders.write);
      TellSets(items, oldValues, notify, s);
    }

    method BatchSetCASLocal(items: map<string, string>, expectedIndices: map<string, nat>, orders: Schedule,
                            notify: seq<string>) returns (r: Reply)
      requires Valid() && ValidStep(Step(CmdBatchSetCAS(items, expectedIndices), orders))
      requires Enumerates(notify, items.Keys)
      modifies this, watchManager
      ensures Valid() && (View(), r) == Apply(old(View()), Step(CmdBatchSetCAS(items, expectedIndices), orders))
      ensures forall k :: k in notify ==> k in items
      ensures Told(old(Registry()), if r.Failed? then [] else SetEvents(old(View()), items, notify))
    {
      OrderInItems(orders.write, items);
      OrderInItems(notify, items);
      ghost var s := View();
      var err := CheckBatch(orders.check, expectedIndices);
      if err.Some? {
        return Failed(err.value);
      }
      var oldValues, indices := WriteAll(items, orders.write);
      r := IndexedAll(indices);
      TellSets(items, oldValues, notify, s);
    }

    method BatchDeleteLocal(keys: seq<string>, notify: seq<string>)
      requires Valid() && Enumerates(notify, LiveKeys(View(), keys))
      modifies this, watchManager
      ensures Valid() && View() == Apply(old(View()), Plain(CmdBatchDelete(keys))).0
      ensures Told(old(Registry()), DeleteEvents(RememberedLive(old(View()), keys), notify))
    {
      var oldValues := EraseAll(keys);
      EnumeratedKeys(oldValues, notify);
      TellDeletes(oldValues, notify);
    }

    method BatchDeleteCASLocal(keys: seq<string>, expectedIndices: map<string, nat>,
                               notify: seq<string>) returns (r: Reply)
      requires Valid() && Enumerates(notify, set k | k in keys)
      modifies this, watchManager
      ensures Valid() && (View(), r) == Apply(old(View()), Plain(CmdBatchDeleteCAS(keys, expectedIndices)))
      ensures Told(old(Registry()),
                   if r.Failed? then [] else DeleteEvents(RememberedCas(old(View()), keys), notify))
    {
      var err := CheckBatchForDelete(keys, expectedIndices);
      if err.Some? {
        return Failed(err.value);
      }
      RememberedCasKeys(View(), keys);
      var oldValues := EraseAllCas(keys);
      EnumeratedKeys(oldValues, notify);
      TellDeletes(oldValues, notify);
      r := Done;
    }

    // ---- The same operations with persistence ------------------------------------------------------------------

    method Save(key: string)
      requires key in Data
      modifies Engines()`kvData
      ensures engine != null ==> engine.kvData == old(Stored())[key := codec.enc(Data[key])]
    {
      if engine != null {
        engine.Set(key, codec.enc(Data[key]));
      }
    }

    method Unsave(key: string)
      modifies Engines()`kvData
      ensures engine != null ==> engine.kvData == old(Stored()) - {key}
    {
      if engine != null {
        engine.Delete(key);
      }
    }

    method SaveAll(keys: set<string>)
      requires keys <= Data.Keys
      modifies Engines()`kvData
      ensures engine != null ==> engine.kvData == old(Stored()) + EncodedItems(codec, View(), keys)
    {
      if engine != null {
        engine.BatchSet(map k | k in keys && k in Data :: codec.enc(Data[k]));
      }
    }

    method UnsaveAll(keys: seq<string>)
      modifies Engines()`kvData
      ensures engine != null ==> engine.kvData == old(Stored()) - set k | k in keys
    {
      if engine != null {
        engine.BatchDelete(keys);
      }
    }

    method Set(key: string, value: string)
      requires Valid()
      modifies this, Engines()`kvData, watchManager
      ensures Valid() && View() == Apply(old(View()), Plain(CmdSet(key, value))).0
      ensures engine != null ==> Stored() == Persisted(codec, old(Stored()), old(View()), Plain(CmdSet(key, value)))
      ensures Told(old(Registry()), [SetEvent(old(View()), key, value)])
    {
      var event := Write(key, value);
      Save(key);
      Tell(event);
    }

    method SetWithFlags(key: string, value: string, flags: nat)
      requires Valid()
      modifies this, Engines()`kvData, watchManager
      ensures Valid() && View() == Apply(old(View()), Plain(CmdSetWithFlags(key, value, flags))).0
      ensures engine != null ==>
                Stored() == Persisted(codec, old(Stored()), old(View()), Plain(CmdSetWithFlags(key, value, flags)))
      ensures Told(old(Registry()), [SetEvent(old(View()), key, value)])
    {
      var event := WriteWithFlags(key, value, flags);
      Save(key);
      Tell(event);
    }

    method Delete(key: string)
      requires Valid()
      modifies this, Engines()`kvData, watchManager
      ensures Valid() && View() == Apply(old(View()), Plain(CmdDelete(key))).0
      ensures engine != null ==> Stored() == Persisted(codec, old(Stored()), old(View()), Plain(CmdDelete(key)))
      ensures Told(old(Registry()), if key in old(Data) then [DeleteEvent(key, old(Data)[key].value)] else [])
    {
      var oldEntry := if key in Data then Some(Data[key]) else None;
      Data := Data - {key};
      Unsave(key);
      if oldEntry.Some? {
        Tell(Watch.Event(Watch.DeleteKind, key, "", oldEntry.value.value));
      }
    }

    method SetCAS(key: string, value: string, expectedIndex: nat) returns (r: Reply)
      requires Valid()
      modifies this, Engines()`kvData, watchManager
      ensures Valid() && (View(), r) == Apply(old(View()), Plain(CmdSetCAS(key, value, expectedIndex)))
      ensures engine != null ==>
                Stored() == Persisted(codec, old(Stored()), old(View()), Plain(CmdSetCAS(key, value, expectedIndex)))
      ensures Told(old(Registry()), if r.Failed? then [] else [SetEvent(old(View()), key, value)])
    {
      var err := Check(key, expectedIndex);
      if err.Some? {
        return Failed(err.value);
      }
      var event := Write(key, value);
      r := Indexed(globalIndex);
      Save(key);
      Tell(event);
    }

    method DeleteCAS(key: string, expectedIndex: nat) returns (r: Reply)
      requires Valid()
      modifies this, Engines()`kvData, watchManager
      ensures Valid() && (View(), r) == Apply(old(View()), Plain(CmdDeleteCAS(key, expectedIndex)))
      ensures engine != null ==>
                Stored() == Persisted(codec, old(Stored()), old(View()), Plain(CmdDeleteCAS(key, expectedIndex)))
      ensures Told(old(Registry()), if r.Failed? then [] else [DeleteEvent(key, OldValue(old(View()), key))])
    {
      var err := CheckForDelete(key, expectedIndex);
      if err.Some? {
        return Failed(err.value);
      }
      var event := Watch.Event(Watch.DeleteKind, key, "", Data[key].value);
      Data := Data - {key};
      Unsave(key);
      Tell(event);
      r := Done;
    }

    method BatchSet(items: map<string, string>, orders: Schedule, notify: seq<string>)
      requires Valid() && ValidStep(Step(CmdBatchSet(items), orders)) && Enumerates(notify, items.Keys)
      modifies this, Engines()`kvData, watchManager
      ensures Valid() && View() == Apply(old(View()), Step(CmdBatchSet(items), orders)).0
      ensures engine != null ==>
                Stored() == Persisted(codec, old(Stored()), old(View()), Step(CmdBatchSet(items), orders))
      ensures (forall k :: k in notify ==> k in items) && Told(old(Registry()), SetEvents(old(View()), items, notify))
    {
      OrderInItems(notify, items);
      ghost var s := View();
      BatchIsThere(s, items, orders.write);
      BatchIsStored(codec, Stored(), s, items, orders);
      var oldValues, indices := WriteAll(items, orders.write);
      SaveAll(items.Keys);
      TellSets(items, oldValues, notify, s);
    }

    method BatchSetCAS(items: map<string, string>, expectedIndices: map<string, nat>, orders: Schedule,
                       notify: seq<string>) returns (r: Reply)
      requires Valid() && ValidStep(Step(CmdBatchSetCAS(items, expectedIndices), orders))
      requires Enumerates(notify, items.Keys)
      modifies this, Engines()`kvData, watchManager
      ensures Valid() && (View(), r) == Apply(old(View()), Step(CmdBatchSetCAS(items, expectedIndices), orders))
      ensures engine != null ==>
                Stored() == Persisted(codec, old(Stored()), old(View()),
                                      Step(CmdBatchSetCAS(items, expectedIndices), orders))
      ensures forall k :: k in notify ==> k in items
      ensures Told(old(Registry()), if r.Failed? then [] else SetEvents(old(View()), items, notify))
    {
      OrderInItems(notify, items);
      ghost var s := View();
      BatchIsThere(s, items, orders.write);
      var err := CheckBatch(orders.check, expectedIndices);
      if err.Some? {
        return Failed(err.value);
      }
      var oldValues, indices := WriteAll(items, orders.write);
      r := IndexedAll(indices);
      SaveAll(items.Keys);
      TellSets(items, oldValues, notify, s);
    }

    method BatchDelete(keys: seq<string>, notify: seq<string>)
      requires Valid() && Enumerates(notify, LiveKeys(View(), keys))
      modifies this, Engines()`kvData, watchManager
      ensures Valid() && View() == Apply(old(View()), Plain(CmdBatchDelete(keys))).0
      ensures engine != null ==> Stored() == Persisted(codec, old(Stored()), old(View()), Plain(CmdBatchDelete(keys)))
      ensures Told(old(Registry()), DeleteEvents(RememberedLive(old(View()), keys), notify))
    {
      var oldValues := EraseAll(keys);
      EnumeratedKeys(oldValues, notify);
      UnsaveAll(keys);
      TellDeletes(oldValues, notify);
    }

    method BatchDeleteCAS(keys: seq<string>, expectedIndices: map<string, nat>, notify: seq<string>) returns (r: Reply)
      requires Valid() && Enumerates(notify, set k | k in keys)
      modifies this, Engines()`kvData, watchManager
      ensures Valid() && (View(), r) == Apply(old(View()), Plain(CmdBatchDeleteCAS(keys, expectedIndices)))
      ensures engine != null ==>
                Stored() == Persisted(codec, old(Stored()), old(View()),
                                      Plain(CmdBatchDeleteCAS(keys, expectedIndices)))
      ensures Told(old(Registry()),
                   if r.Failed? then [] else DeleteEvents(RememberedCas(old(View()), keys), notify))
    {
      var err := CheckBatchForDelete(keys, expectedIndices);
      if err.Some? {
        return Failed(err.value);
      }
      RememberedCasKeys(View(), keys);
      var oldValues := EraseAllCas(keys);
      EnumeratedKeys(oldValues, notify);
      UnsaveAll(keys);
      TellDeletes(oldValues, notify);
      r := Done;
    }

    // ---- Snapshots ---------------------------------------------------------------------------------------------

    method GetAllData() returns (data: map<string, KVEntry>)
      ensures data == Data
    {
      data := map[];
      var rest := Data.Keys;
      while rest != {}
        invariant rest <= Data.Keys && data == map k | k in Data && k !in rest :: Data[k]
        decreases rest
      {
        var key :| key in rest;
        data := data[key := Data[key]];
        rest := rest - {key};
      }
      assert data == Data;
    }

    /** The snapshot does not carry the counter: it is recomputed as the largest restored index. */
    method RestoreFromSnapshot(data: map<string, KVEntry>)
      modifies this
      ensures View() == Restored(data)
    {
      Data := map[];
      var maxIndex := 0;
      var rest := data.Keys;
      while rest != {}
        invariant rest <= data.Keys && Data == map k | k in data && k !in rest :: data[k]
        invariant IsMaxModify(Data, maxIndex)
        decreases rest
      {
        var key :| key in rest;
        MaxWithOneMore(Data, maxIndex, key, data[key]);
        Data := Data[key := data[key]];
        if data[key].modifyIndex > maxIndex {
          maxIndex := data[key].modifyIndex;
        }
        rest := rest - {key};
      }
      assert Data == data;
      globalIndex := maxIndex;
      MaxModifyUnique(Data, maxIndex);
    }

    /** The pair that saves the counter explicitly brings back the very same state. */
    method SnapshotState() returns (entries: map<string, KVEntry>, index: nat)
      ensures State(entries, index) == View()
    {
      entries := GetAllData();
      index := globalIndex;
    }

    method RestoreSnapshot(entries: map<string, KVEntry>, index: nat)
      modifies this
      ensures View() == State(entries, index)
    {
      Data := map[];
      var rest := entries.Keys;
      while rest != {}
        invariant rest <= entries.Keys && Data == map k | k in entries && k !in rest :: entries[k]
        decreases rest
      {
        var key :| key in rest;
        Data := Data[key := entries[key]];
        rest := rest - {key};
      }
      assert Data == entries;
      globalIndex := index;
    }
  }

  /** A step without batch orders. */
  function Plain(command: Command): Step {
    Step(command, Schedule([], []))
  }

  lemma EraseNext(s: State, keys: seq<string>, i: nat)
    requires i < |keys|
    ensures RemoveAll(s, keys[..i + 1]) == Remove(RemoveAll(s, keys[..i]), keys[i])
    ensures var t := RemoveAll(s, keys[..i]);
            RememberedLive(s, keys[..i + 1]) ==
            if keys[i] in t.data then RememberedLive(s, keys[..i])[keys[i] := t.data[keys[i]].value]
            else RememberedLive(s, keys[..i])
  {
    assert keys[..i + 1] == keys[..i] + [keys[i]] && keys[..i + 1][..i] == keys[..i];
    RemoveAllContents(s, keys[..i]);
  }

  lemma WriteNext(s: State, items: map<string, string>, write: seq<string>, i: nat)
    requires i < |write| && NoDup(write) && forall k :: k in write ==> k in items
    ensures PutAll(s, items, write[..i + 1]) == Put(PutAll(s, items, write[..i]), write[i], items[write[i]])
    ensures NewIndices(s, write[..i + 1]) == NewIndices(s, write[..i])[write[i] := s.index + i + 1]
    ensures PutAll(s, items, write[..i]).index == s.index + i
  {
    assert write[..i + 1] == write[..i] + [write[i]] && write[..i + 1][..i] == write[..i];
    UnaffectedByEarlier(s, items, write[..i], write[i]);
  }

  lemma BatchIsThere(s: State, items: map<string, string>, order: seq<string>)
    requires Enumerates(order, items.Keys)
    ensures NoDup(order) && (forall k :: k in order <==> k in items)
    ensures items.Keys <= PutAll(s, items, order).data.Keys
  {
    OrderInItems(order, items);
    BatchEffect(s, items, order);
  }

  lemma BatchIsStored(codec: Codec<KVEntry>, m: map<string, Bytes>, s: State, items: map<string, string>,
                      orders: Schedule)
    requires ValidStep(Step(CmdBatchSet(items), orders))
    ensures (forall k :: k in orders.write ==> k in items)
    ensures Persisted(codec, m, s, Step(CmdBatchSet(items), orders))
         == m + EncodedItems(codec, PutAll(s, items, orders.write), items.Keys)
    ensures Apply(s, Step(CmdBatchSet(items), orders)).0 == PutAll(s, items, orders.write)
  {
    OrderInItems(orders.write, items);
  }

  /** The batch has remembered the value of every key it met that was there. */
  ghost predicate Remembered(s: State, oldValues: Values, before: seq<string>) {
    && (forall k :: k in before ==> OldValue(s, k) == (if k in oldValues then oldValues[k] else ""))
    && (forall k :: k in oldValues ==> k in before)
  }

  lemma RememberNext(s: State, t: State, items: map<string, string>, write: seq<string>, i: nat, oldValues: Values)
    requires i < |write| && NoDup(write) && (forall k :: k in write ==> k in items)
    requires t == PutAll(s, items, write[..i]) && Remembered(s, oldValues, write[..i])
    ensures Remembered(s, if write[i] in t.data then oldValues[write[i] := t.data[write[i]].value] else oldValues,
                       write[..i + 1])
  {
    var key := write[i];
    assert write[..i + 1] == write[..i] + [key] && key !in write[..i];
    UnaffectedByEarlier(s, items, write[..i], key);
    assert OldValue(t, key) == OldValue(s, key);
  }

  lemma UnaffectedByEarlier(s: State, items: map<string, string>, before: seq<string>, key: string)
    requires NoDup(before) && key !in before && forall k :: k in before ==> k in items
    ensures OldValue(PutAll(s, items, before), key) == OldValue(s, key)
    ensures key in PutAll(s, items, before).data <==> key in s.data
    ensures PutAll(s, items, before).index == s.index + |before|
  {
    PutAllContents(s, items, before);
  }
}
