/**
 The service store object: entries, the two indexes edited step by step, the storage engine, and the queries.
 Clock readings are inputs; `later` is a reading taken after `now`.
 */
module ServiceStore {
  import opened Prelude
  import opened ServiceTypes
  import opened ServiceModel
  import opened ServiceIndex
  import opened Persistence
  import opened ServiceDurability
  import opened ServiceQuery
  import opened Sorting
  import opened ServiceVersions
  import KvReplication

  class ServiceStore {
    var Data: map<string, ServiceEntry>
    var TagIndex: Tags
    var MetaIndex: Metas
    var globalIndex: nat
    const TTL: int
    const engine: MemoryEngine?
    const codec: Codec<ServiceEntry>

    ghost function View(): State
      reads this
    {
      State(Data, globalIndex)
    }

    ghost predicate Valid()
      reads this
    {
      TagsAgree(Data, TagIndex) && MetasAgree(Data, MetaIndex) && NamesMatch(Data)
    }

    constructor (ttl: int, engine: MemoryEngine?, codec: Codec<ServiceEntry>, now: int)
      requires engine != null ==> NamesMatch(ReloadedData(codec, engine.svcData, now))
      ensures Valid() && TTL == ttl && this.engine == engine && this.codec == codec
      ensures engine == null ==> View() == EMPTY
      ensures engine != null ==> View() == Reloaded(codec, engine.svcData, now)
      ensures engine != null && LongEnough(codec, engine.svcData) ==> Mirrors(codec, Data, engine.svcData, now)
    {
      TTL, this.engine, this.codec := ttl, engine, codec;
      Data, TagIndex, MetaIndex, globalIndex := map[], map[], map[], 0;
      new;
      if engine != null {
        LoadFromPersistence(now);
        if LongEnough(codec, engine.svcData) {
          OpenedMirrors(codec, engine.svcData, now);
        }
      }
    }

    // ---- Index maintenance -------------------------------------------------------------------------------------

    method AddToTagIndex(serviceName: string, tags: seq<string>)
      requires NoEmptyTags(TagIndex)
      modifies this`TagIndex
      ensures NoEmptyTags(TagIndex) && TagsAdded(old(TagIndex), TagIndex, serviceName, tags)
    {
      for i := 0 to |tags|
        invariant NoEmptyTags(TagIndex) && TagsAdded(old(TagIndex), TagIndex, serviceName, tags[..i])
      {
        var tag := tags[i];
        assert tags[..i + 1] == tags[..i] + [tag];
        if tag !in TagIndex {
          TagIndex := TagIndex[tag := {}];
        }
        TagIndex := TagIndex[tag := TagIndex[tag] + {serviceName}];
      }
      assert tags[..|tags|] == tags;
    }

    method RemoveFromTagIndex(serviceName: string, tags: seq<string>)
      requires NoEmptyTags(TagIndex)
      modifies this`TagIndex
      ensures NoEmptyTags(TagIndex) && TagsRemoved(old(TagIndex), TagIndex, serviceName, tags)
    {
      for i := 0 to |tags|
        invariant NoEmptyTags(TagIndex) && TagsRemoved(old(TagIndex), TagIndex, serviceName, tags[..i])
      {
        var tag := tags[i];
        assert tags[..i + 1] == tags[..i] + [tag];
        if tag in TagIndex {
          TagIndex := TagIndex[tag := TagIndex[tag] - {serviceName}];
          if TagIndex[tag] == {} {
            TagIndex := TagIndex - {tag};
          }
        }
      }
      assert tags[..|tags|] == tags;
    }

    method AddToMetaIndex(serviceName: string, meta: map<string, string>)
      requires NoEmptyMetas(MetaIndex)
      modifies this`MetaIndex
      ensures NoEmptyMetas(MetaIndex) && MetasAdded(old(MetaIndex), MetaIndex, serviceName, meta)
    {
      var rest := meta.Keys;
      while rest != {}
        invariant rest <= meta.Keys && NoEmptyMetas(MetaIndex)
        invariant MetasAdded(old(MetaIndex), MetaIndex, serviceName, meta - rest)
        decreases rest
      {
        var key :| key in rest;
        AddToBucket(serviceName, key, meta[key]);
        rest := rest - {key};
      }
      assert meta - rest == meta;
    }

    /** One round of the adding loop: the name is appended to its bucket. */
    method AddToBucket(serviceName: string, key: string, value: string)
      requires NoEmptyMetas(MetaIndex)
      modifies this`MetaIndex
      ensures NoEmptyMetas(MetaIndex)
      ensures forall k, v :: Listed(MetaIndex, k, v) ==
                Listed(old(MetaIndex), k, v) + (if k == key && v == value then [serviceName] else [])
    {
      var values := if key in MetaIndex then MetaIndex[key] else map[];
      values := values[value := (if value in values then values[value] else []) + [serviceName]];
      MetaIndex := MetaIndex[key := values];
    }

    method RemoveFromMetaIndex(serviceName: string, meta: map<string, string>)
      requires NoEmptyMetas(MetaIndex)
      modifies this`MetaIndex
      ensures NoEmptyMetas(MetaIndex) && MetasRemoved(old(MetaIndex), MetaIndex, serviceName, meta)
    {
      var rest := meta.Keys;
      while rest != {}
        invariant rest <= meta.Keys && NoEmptyMetas(MetaIndex)
        invariant MetasRemoved(old(MetaIndex), MetaIndex, serviceName, meta - rest)
        decreases rest
      {
        var key :| key in rest;
        RemoveFromBucket(serviceName, key, meta[key]);
        rest := rest - {key};
      }
      assert meta - rest == meta;
    }

    /** One round of the removal loop: the first occurrence of the name leaves its bucket, empty buckets go. */
    /** One value's bucket loses the name, and goes when it is empty. */
    method WithoutName(buckets: map<string, seq<string>>, value: string, name: string)
      returns (left: map<string, seq<string>>)
      requires forall v :: v in buckets ==> buckets[v] != []
      ensures forall v :: v in left ==> left[v] != []
      ensures forall v :: (if v in left then left[v] else []) ==
                if v == value && v in buckets then RemoveFirst(buckets[v], name)
                else if v in buckets then buckets[v] else []
    {
      left := buckets;
      if value in buckets {
        var services := Unlist(buckets[value], name);
        left := left[value := services];
        if |services| == 0 {
          left := left - {value};
        }
      }
    }

    method RemoveFromBucket(serviceName: string, key: string, value: string)
      requires NoEmptyMetas(MetaIndex)
      modifies this`MetaIndex
      ensures NoEmptyMetas(MetaIndex)
      ensures forall k, v :: Listed(MetaIndex, k, v) ==
                if k == key && v == value then RemoveFirst(Listed(old(MetaIndex), k, v), serviceName)
                else Listed(old(MetaIndex), k, v)
    {
      assert RemoveFirst([], serviceName) == [];
      if key in MetaIndex {
        var values := WithoutName(MetaIndex[key], value, serviceName);
        if values == map[] {
          MetaIndex := MetaIndex - {key};
        } else {
          MetaIndex := MetaIndex[key := values];
        }
      }
    }

    // ---- Entries and indexes together --------------------------------------------------------------------------

    /** Removes the entry and its index records. */
    method Drop(name: string)
      requires Valid()
      modifies this`Data, this`TagIndex, this`MetaIndex
      ensures Valid() && View() == Dropped(old(View()), name)
    {
      if name in Data {
        RemoveFromTagIndex(name, Data[name].service.tags);
        RemoveFromMetaIndex(name, Data[name].service.meta);
        TagsAgreeAfterRemoval(Data, old(TagIndex), TagIndex, name);
        MetasAgreeAfterRemoval(Data, old(MetaIndex), MetaIndex, name);
      }
      Data := Data - {name};
    }

    /** Stores an entry under a name that is not there and records it in the indexes. */
    method Insert(name: string, entry: ServiceEntry)
      requires Valid() && name !in Data && entry.service.name == name
      modifies this`Data, this`TagIndex, this`MetaIndex
      ensures Valid() && Data == old(Data)[name := entry]
    {
      AddToTagIndex(name, entry.service.tags);
      AddToMetaIndex(name, entry.service.meta);
      TagsAgreeAfterAddition(Data, old(TagIndex), TagIndex, name, entry);
      MetasAgreeAfterAddition(Data, old(MetaIndex), MetaIndex, name, entry);
      Data := Data[name := entry];
    }

    method Put(service: Service, now: int)
      requires Valid()
      modifies this`Data, this`TagIndex, this`MetaIndex, this`globalIndex
      ensures Valid() && View() == Registered(old(View()), service, now + TTL)
    {
      var oldEntry := if service.name in Data then Some(Data[service.name]) else None;
      Drop(service.name);
      globalIndex := globalIndex + 1;
      var entry := ServiceEntry(service, now + TTL, globalIndex,
                                if oldEntry.Some? then oldEntry.value.createIndex else globalIndex);
      Insert(service.name, entry);
    }

    // ---- Operations of the replicated log ----------------------------------------------------------------------

    method RegisterLocal(service: Service, now: int) returns (r: Reply)
      requires Valid()
      modifies this`Data, this`TagIndex, this`MetaIndex, this`globalIndex
      ensures Valid() && (View(), r) == Apply(old(View()), CmdRegister(service), now, TTL)
    {
      if !ValidService(service) {
        return Failed(Invalid);
      }
      Put(service, now);
      r := Done;
    }

    method RegisterCASLocal(service: Service, expectedIndex: nat, now: int) returns (r: Reply)
      requires Valid()
      modifies this`Data, this`TagIndex, this`MetaIndex, this`globalIndex
      ensures Valid() && (View(), r) == Apply(old(View()), CmdRegisterCAS(service, expectedIndex), now, TTL)
    {
      if !ValidService(service) {
        return Failed(Invalid);
      }
      if expectedIndex == 0 {
        if service.name in Data {
          return Failed(CASConflict(service.name, 0, Data[service.name].modifyIndex));
        }
      } else {
        if service.name !in Data {
          return Failed(NotFound(service.name));
        }
        if Data[service.name].modifyIndex != expectedIndex {
          return Failed(CASConflict(service.name, expectedIndex, Data[service.name].modifyIndex));
        }
      }
      Put(service, now);
      r := Indexed(globalIndex);
    }

    method DeregisterLocal(name: string)
      requires Valid()
      modifies this`Data, this`TagIndex, this`MetaIndex
      ensures Valid() && forall now :: View() == Apply(old(View()), CmdDeregister(name), now, TTL).0
    {
      Drop(name);
    }

    method DeregisterCASLocal(name: string, expectedIndex: nat) returns (r: Reply)
      requires Valid()
      modifies this`Data, this`TagIndex, this`MetaIndex
      ensures Valid()
      ensures forall now :: (View(), r) == Apply(old(View()), CmdDeregisterCAS(name, expectedIndex), now, TTL)
    {
      if name !in Data {
        return Failed(NotFound(name));
      }
      if Data[name].modifyIndex != expectedIndex {
        return Failed(CASConflict(name, expectedIndex, Data[name].modifyIndex));
      }
      Drop(name);
      r := Done;
    }

    /** A heartbeat moves the expiry and leaves the indices alone. */
    method HeartbeatLocal(name: string, now: int) returns (found: bool)
      requires Valid()
      modifies this`Data
      ensures Valid() && View() == Apply(old(View()), CmdHeartbeat(name), now, TTL).0
      ensures found == (name in old(Data))
    {
      if name !in Data {
        return false;
      }
      Data := Data[name := Data[name].(expiresAt := now + TTL)];
      SameServicesSameIndexes(old(Data), Data, TagIndex, MetaIndex);
      found := true;
    }

    // ---- The same operations with persistence ------------------------------------------------------------------

    /** The engine, if there is one. The other store of the node may use it too, and keeps its half. */
    ghost function Engines(): set<MemoryEngine> {
      if engine == null then {} else {engine}
    }

    ghost function Stored(): map<string, Record>
      reads this, engine
    {
      if engine == null then map[] else engine.svcData
    }

    method Save(name: string, later: int)
      requires name in Data
      modifies Engines()`svcData
      ensures engine != null ==> Stored() == old(Stored())[name := Saved(codec, View(), name, later + TTL)]
    {
      if engine != null {
        engine.SetService(name, codec.enc(Data[name]), TTL, later);
      }
    }

    method Unsave(name: string)
      modifies Engines()`svcData
      ensures engine != null ==> Stored() == old(Stored()) - {name}
    {
      if engine != null {
        engine.DeleteService(name);
      }
    }

    method Register(service: Service, now: int, later: int) returns (r: Reply)
      requires Valid()
      modifies this, Engines()`svcData
      ensures Valid() && (View(), r) == Apply(old(View()), CmdRegister(service), now, TTL)
      ensures engine != null ==>
                Stored() == Persisted(codec, old(Stored()), old(View()), CmdRegister(service), now, later, TTL)
    {
      r := RegisterLocal(service, now);
      if r.Done? {
        Save(service.name, later);
      }
    }

    method RegisterCAS(service: Service, expectedIndex: nat, now: int, later: int) returns (r: Reply)
      requires Valid()
      modifies this, Engines()`svcData
      ensures Valid() && (View(), r) == Apply(old(View()), CmdRegisterCAS(service, expectedIndex), now, TTL)
      ensures engine != null ==>
                Stored() == Persisted(codec, old(Stored()), old(View()), CmdRegisterCAS(service, expectedIndex), now,
                                      later, TTL)
    {
      r := RegisterCASLocal(service, expectedIndex, now);
      if r.Indexed? {
        Save(service.name, later);
      }
    }

    method Deregister(name: string)
      requires Valid()
      modifies this`Data, this`TagIndex, this`MetaIndex, Engines()`svcData
      ensures Valid() && View() == Dropped(old(View()), name)
      ensures engine != null ==>
                forall now, later ::
                  Stored() == Persisted(codec, old(Stored()), old(View()), CmdDeregister(name), now, later, TTL)
    {
      Drop(name);
      Unsave(name);
    }

    method DeregisterCAS(name: string, expectedIndex: nat) returns (r: Reply)
      requires Valid()
      modifies this, Engines()`svcData
      ensures Valid()
      ensures forall now :: (View(), r) == Apply(old(View()), CmdDeregisterCAS(name, expectedIndex), now, TTL)
      ensures engine != null ==>
                forall now, later ::
                  Stored() == Persisted(codec, old(Stored()), old(View()), CmdDeregisterCAS(name, expectedIndex), now,
                                        later, TTL)
    {
      r := DeregisterCASLocal(name, expectedIndex);
      assert (View(), r) == Apply(old(View()), CmdDeregisterCAS(name, expectedIndex), 0, TTL);
      if r.Done? {
        Unsave(name);
      }
    }

    method Heartbeat(name: string, now: int, later: int) returns (found: bool)
      requires Valid()
      modifies this, Engines()`svcData
      ensures Valid() && View() == Extended(old(View()), name, now + TTL)
      ensures found == (name in old(Data))
      ensures engine != null ==>
                Stored() == Persisted(codec, old(Stored()), old(View()), CmdHeartbeat(name), now, later, TTL)
    {
      found := HeartbeatLocal(name, now);
      if found {
        Save(name, later);
      }
    }

    /** Visits the entries in any order and drops those that expired before now; then drops them from the engine. */
    method CleanupExpired(now: int) returns (count: nat)
      requires Valid()
      modifies this`Data, this`TagIndex, this`MetaIndex, Engines()`svcData
      ensures Valid() && View() == Cleaned(old(View()), now)
      ensures count == |Expired(old(View()), now)|
      ensures engine != null ==> Stored() == old(Stored()) - Expired(old(View()), now)
    {
      ghost var before := Data;
      var expired: seq<string> := [];
      count := 0;
      var rest := Data.Keys;
      while rest != {}
        invariant Valid() && rest <= before.Keys
        invariant Data == CleanedOutside(before, rest, now) && Stored() == old(Stored())
        invariant NoDup(expired) && count == |expired|
        invariant forall n :: n in expired <==> n in before.Keys - rest && before[n].expiresAt < now
        decreases rest
      {
        var name :| name in rest;
        CleanedOneMore(before, rest, name, now);
        if Data[name].expiresAt < now {
          Drop(name);
          expired := expired + [name];
          count := count + 1;
        }
        rest := rest - {name};
      }
      assert Data == Cleaned(old(View()), now).data;
      assert (set n | n in expired) == Expired(old(View()), now);
      EnumerationLength(expired, Expired(old(View()), now));
      UnsaveAll(expired);
    }

    method UnsaveAll(names: seq<string>)
      modifies Engines()`svcData
      ensures engine != null ==> Stored() == old(Stored()) - set n | n in names
    {
      assert old(Stored()) - (set n | n in names[..0]) == old(Stored());
      for i := 0 to |names|
        invariant engine != null ==> Stored() == old(Stored()) - set n | n in names[..i]
      {
        assert names[..i + 1] == names[..i] + [names[i]];
        Unsave(names[i]);
      }
      assert names[..|names|] == names;
    }

    // ---- Snapshots and restart ---------------------------------------------------------------------------------

    method GetAllData() returns (data: map<string, ServiceEntry>)
      ensures data == Data
    {
      data := map[];
      var rest := Data.Keys;
      while rest != {}
        invariant rest <= Data.Keys && data == map n | n in Data && n !in rest :: Data[n]
        decreases rest
      {
        var name :| name in rest;
        data := data[name := Data[name]];
        rest := rest - {name};
      }
      assert data == Data;
    }

    method RestoreFromSnapshot(data: map<string, ServiceEntry>)
      requires NamesMatch(data)
      modifies this
      ensures Valid() && Data == data && IsMaxModify(data, globalIndex)
    {
      Data, TagIndex, MetaIndex := map[], map[], map[];
      var maxIndex := 0;
      var rest := data.Keys;
      while rest != {}
        invariant Valid() && rest <= data.Keys && Data == map n | n in data && n !in rest :: data[n]
        invariant IsMaxModify(Data, maxIndex)
        decreases rest
      {
        var name :| name in rest;
        MaxWithOneMore(Data, maxIndex, name, data[name]);
        Insert(name, data[name]);
        if data[name].modifyIndex > maxIndex {
          maxIndex := data[name].modifyIndex;
        }
        rest := rest - {name};
      }
      assert Data == data;
      globalIndex := maxIndex;
    }

    method SnapshotState() returns (entries: map<string, ServiceEntry>, index: nat)
      ensures State(entries, index) == View()
    {
      entries := GetAllData();
      index := globalIndex;
    }

    method RestoreSnapshot(entries: map<string, ServiceEntry>, index: nat)
      requires NamesMatch(entries)
      modifies this
      ensures Valid() && View() == State(entries, index)
    {
      RestoreFromSnapshot(entries);
      globalIndex := index;
    }

    /** Loads every stored service that can be read and has not expired. */
    method LoadFromPersistence(now: int)
      requires engine != null && Data == map[] && Valid()
      requires NamesMatch(ReloadedData(codec, engine.svcData, now))
      modifies this
      ensures Valid() && View() == Reloaded(codec, engine.svcData, now)
    {
      var maxIndex := 0;
      var rest := set n | n in engine.svcData && now < engine.svcData[n].expiresAt;
      while rest != {}
        invariant Valid() && rest <= engine.svcData.Keys
        invariant forall n :: n in rest ==> now < engine.svcData[n].expiresAt
        invariant Data == ReloadedOutside(codec, engine.svcData, rest, now)
        invariant IsMaxModify(Data, maxIndex)
        decreases rest
      {
        var name :| name in rest;
        ReloadedOneMore(codec, engine.svcData, rest, name, now);
        maxIndex := LoadOne(name, now, maxIndex);
        rest := rest - {name};
      }
      assert Data == ReloadedData(codec, engine.svcData, now);
      globalIndex := maxIndex;
      KvReplication.MaxModifyUnique(Versions(Data), maxIndex);
    }

    method LoadOne(name: string, now: int, maxIndex: nat) returns (m: nat)
      requires engine != null && Valid() && name !in Data && IsMaxModify(Data, maxIndex)
      requires name in engine.svcData && now < engine.svcData[name].expiresAt
      requires NamesMatch(ReloadedData(codec, engine.svcData, now))
      modifies this`Data, this`TagIndex, this`MetaIndex
      ensures Valid() && IsMaxModify(Data, m)
      ensures Data == if Loads(codec, engine.svcData[name], now)
                      then old(Data)[name := Loaded(codec, engine.svcData[name])] else old(Data)
    {
      m := maxIndex;
      var data := engine.GetService(name, now);
      var entry := codec.dec(data.value);
      if entry.Some? {
        var migrated := Migrated(entry.value);
        if migrated.expiresAt > now {
          MaxWithOneMore(Data, maxIndex, name, migrated);
          assert ReloadedData(codec, engine.svcData, now)[name] == migrated;
          Insert(name, migrated);
          if migrated.modifyIndex > m {
            m := migrated.modifyIndex;
          }
        }
      }
    }

    // ---- Queries -----------------------------------------------------------------------------------------------

    method List(now: int, order: seq<string>) returns (services: seq<Service>)
      requires Enumerates(order, Data.Keys)
      ensures (forall n :: n in order ==> n in Data) && services == Listing(Data, now, order)
    {
      EnumerationMembers(order, Data.Keys);
      services := [];
      for i := 0 to |order|
        invariant services == Listing(Data, now, order[..i])
      {
        assert order[..i + 1][..i] == order[..i];
        if Data[order[i]].expiresAt > now {
          services := services + [Data[order[i]].service];
        }
      }
      assert order[..|order|] == order;
    }

    /** The names of a candidate set, in the order in which they are visited. */
    method AllOf(candidates: set<string>) returns (names: seq<string>)
      ensures NoDup(names) && forall n :: n in names <==> n in candidates
    {
      names := [];
      var rest := candidates;
      while rest != {}
        invariant rest <= candidates && NoDup(names)
        invariant forall n :: n in names <==> n in candidates - rest
        decreases rest
      {
        var name :| name in rest;
        assert name !in names;
        names := names + [name];
        rest := rest - {name};
      }
    }

    /** The common tail of the queries: sort the candidate names, keep the live entries. */
    method Collect(candidates: set<string>, now: int) returns (result: seq<Service>)
      ensures result == Scan(Data, set n | n in candidates && n in Data && Data[n].expiresAt > now)
    {
      var names := AllOf(candidates);
      names := SortNames(names);
      result := [];
      ghost var kept: seq<string> := [];
      for i := 0 to |names|
        invariant StrictlySorted(kept)
        invariant forall n :: n in kept <==> n in names[..i] && n in Data && Data[n].expiresAt > now
        invariant result == ServicesAt(Data, kept)
      {
        var name := names[i];
        assert names[..i + 1] == names[..i] + [name];
        if name in Data && Data[name].expiresAt > now {
          assert forall n :: n in names[..i] ==> Less(n, name);
          assert (kept + [name])[..|kept|] == kept;
          result := result + [Data[name].service];
          kept := kept + [name];
        }
      }
      assert names[..|names|] == names;
      assert forall n :: n in names <==> n in Elements(names);
      ScanIs(Data, (set n | n in candidates && n in Data && Data[n].expiresAt > now), kept);
    }

    method QueryByTags(tags: seq<string>, now: int, order: seq<string>) returns (result: seq<Service>)
      requires Valid() && Enumerates(order, Data.Keys)
      ensures forall n :: n in order ==> n in Data
      ensures result == if |tags| == 0 then Listing(Data, now, order) else ScanFor(Data, now, tags, map[])
    {
      EnumerationMembers(order, Data.Keys);
      if |tags| == 0 {
        result := List(now, order);
        return;
      }
      var candidates, found := TagCandidates(tags);
      WantedByTags(Data, TagIndex, now, tags, candidates);
      if !found {
        result := [];
        NothingWanted(Data, Wanted(Data, now, tags, map[]));
        return;
      }
      result := Collect(candidates, now);
    }

    /** Intersects the buckets of all tags; stops with nothing as soon as a tag has no bucket. */
    method TagCandidates(tags: seq<string>) returns (candidates: set<string>, found: bool)
      requires |tags| > 0
      ensures forall n :: n in candidates <==> InAllBuckets(TagIndex, tags, n)
      ensures !found ==> candidates == {}
    {
      if tags[0] !in TagIndex {
        assert tags[0] in tags && Tagged(TagIndex, tags[0]) == {};
        return {}, false;
      }
      candidates := TagIndex[tags[0]];
      forall n ensures InAllBuckets(TagIndex, tags[..1], n) <==> n in Tagged(TagIndex, tags[0]) {
        OneMoreBucket(TagIndex, tags, 0, n);
        assert InAllBuckets(TagIndex, tags[..0], n);
      }
      for i := 1 to |tags|
        invariant forall n :: n in candidates <==> InAllBuckets(TagIndex, tags[..i], n)
      {
        if tags[i] !in TagIndex {
          assert tags[i] in tags && Tagged(TagIndex, tags[i]) == {};
          return {}, false;
        }
        ghost var before := candidates;
        candidates := candidates * TagIndex[tags[i]];
        forall n ensures n in candidates <==> InAllBuckets(TagIndex, tags[..i + 1], n) {
          OneMoreBucket(TagIndex, tags, i, n);
          assert n in before <==> InAllBuckets(TagIndex, tags[..i], n);
        }
      }
      assert tags[..|tags|] == tags;
      found := true;
    }

    method QueryByMetadata(filters: map<string, string>, now: int, order: seq<string>) returns (result: seq<Service>)
      requires Valid() && Enumerates(order, Data.Keys)
      ensures forall n :: n in order ==> n in Data
      ensures result == if filters == map[] then Listing(Data, now, order) else ScanFor(Data, now, [], filters)
    {
      EnumerationMembers(order, Data.Keys);
      if |filters| == 0 {
        result := List(now, order);
        return;
      }
      var candidates, found := MetaCandidates(filters);
      WantedByMeta(Data, MetaIndex, now, filters, candidates);
      if !found {
        result := [];
        NothingWanted(Data, Wanted(Data, now, [], filters));
        return;
      }
      result := Collect(candidates, now);
    }

    /** Starts from whatever filter the map yields first, then intersects with the others in any order. */
    method MetaCandidates(filters: map<string, string>) returns (candidates: set<string>, found: bool)
      requires filters != map[]
      ensures forall n :: n in candidates <==> forall k :: k in filters ==> n in Listed(MetaIndex, k, filters[k])
      ensures !found ==> candidates == {}
    {
      var firstKey :| firstKey in filters;
      if firstKey !in MetaIndex || filters[firstKey] !in MetaIndex[firstKey] {
        assert Listed(MetaIndex, firstKey, filters[firstKey]) == [];
        return {}, false;
      }
      candidates := set n | n in MetaIndex[firstKey][filters[firstKey]];
      var rest := filters.Keys - {firstKey};
      while rest != {}
        invariant rest <= filters.Keys
        invariant forall n :: n in candidates <==>
                    forall k :: k in filters && k !in rest ==> n in Listed(MetaIndex, k, filters[k])
        decreases rest
      {
        var key :| key in rest;
        if key !in MetaIndex || filters[key] !in MetaIndex[key] {
          assert Listed(MetaIndex, key, filters[key]) == [];
          return {}, false;
        }
        candidates := set n | n in candidates && n in MetaIndex[key][filters[key]];
        rest := rest - {key};
      }
      found := true;
    }

    /** Both kinds of filter: the two queries read the clock one after the other. */
    method QueryByTagsAndMetadata(tags: seq<string>, meta: map<string, string>, now: int, later: int,
                                  order: seq<string>)
      returns (result: seq<Service>)
      requires Valid() && now <= later && Enumerates(order, Data.Keys)
      ensures forall n :: n in order ==> n in Data
      ensures result == if |tags| == 0 && meta == map[] then Listing(Data, now, order)
                        else if meta == map[] then ScanFor(Data, now, tags, map[])
                        else if |tags| == 0 then ScanFor(Data, now, [], meta)
                        else ScanFor(Data, later, tags, meta)
    {
      if |tags| == 0 && meta == map[] {
        result := List(now, order);
        return;
      }
      if meta == map[] {
        result := QueryByTags(tags, now, order);
        return;
      }
      if |tags| == 0 {
        result := QueryByMetadata(meta, now, order);
        return;
      }
      var byTags := QueryByTags(tags, now, order);
      var byMeta := QueryByMetadata(meta, later, order);
      result := KeepNamed(byMeta, (set i | 0 <= i < |byTags| :: byTags[i].name));
      CombinedScan(Data, now, later, tags, meta, byTags, byMeta, result);
    }

    /** Filters in order; a list already strictly sorted by name stays so, and sorting it again changes nothing. */
    method KeepNamed(services: seq<Service>, names: set<string>) returns (result: seq<Service>)
      ensures result == Kept(services, names)
    {
      result := [];
      for i := 0 to |services|
        invariant result == Kept(services[..i], names)
      {
        assert services[..i + 1][..i] == services[..i];
        if services[i].name in names {
          result := result + [services[i]];
        }
      }
      assert services[..|services|] == services;
    }
  }
}
