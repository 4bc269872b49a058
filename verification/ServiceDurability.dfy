/** What the storage engine holds of the service registry, and what a restart makes of it. */
module ServiceDurability {
  import opened Prelude
  import opened ServiceModel
  import opened ServiceIndex
  import opened Persistence
  import KvReplication
  import opened ServiceVersions

  /** Entries from before indices existed are given index 1. */
  function Migrated(e: ServiceEntry): ServiceEntry {
    if e.modifyIndex == 0 then e.(modifyIndex := 1, createIndex := 1) else e
  }

  /** The engine still serves the record, it can be read, and the entry itself has not expired. */
  predicate Loads(codec: Codec<ServiceEntry>, r: Record, now: int) {
    now < r.expiresAt && codec.dec(r.data).Some? && codec.dec(r.data).value.expiresAt > now
  }

  function Loaded(codec: Codec<ServiceEntry>, r: Record): ServiceEntry
    requires codec.dec(r.data).Some?
  {
    Migrated(codec.dec(r.data).value)
  }

  ghost function ReloadedData(codec: Codec<ServiceEntry>, svcData: map<string, Record>,
                              now: int): map<string, ServiceEntry> {
    map n | n in svcData && Loads(codec, svcData[n], now) :: Loaded(codec, svcData[n])
  }

  /** The largest index is that of the key-value store, over the versions of the services. */
  ghost predicate IsMaxModify(data: map<string, ServiceEntry>, m: nat) {
    KvReplication.IsMaxModify(Versions(data), m)
  }

  ghost function MaxModify(data: map<string, ServiceEntry>): nat {
    KvReplication.MaxModify(Versions(data))
  }

  lemma MaxWithOneMore(data: map<string, ServiceEntry>, m: nat, name: string, entry: ServiceEntry)
    requires IsMaxModify(data, m) && name !in data
    ensures IsMaxModify(data[name := entry], if entry.modifyIndex > m then entry.modifyIndex else m)
  {
    KvReplication.MaxWithOneMore(Versions(data), m, name, Version(entry));
    assert Versions(data[name := entry]) == Versions(data)[name := Version(entry)];
  }

  ghost function Reloaded(codec: Codec<ServiceEntry>, svcData: map<string, Record>, now: int): State {
    var data := ReloadedData(codec, svcData, now);
    State(data, MaxModify(data))
  }

  /** What a registry holds after opening: the records that are still served, can be read and hold no expired entry; an
      entry from before indices existed gets index 1. */
  lemma OpenedServes(codec: Codec<ServiceEntry>, stored: map<string, Record>, now: int, name: string)
    ensures var s := Reloaded(codec, stored, now);
            && (name in s.data <==>
                  name in stored && now < stored[name].expiresAt && codec.dec(stored[name].data).Some?
                  && codec.dec(stored[name].data).value.expiresAt > now)
            && (name in s.data ==>
                  var saved := codec.dec(stored[name].data).value;
                  && s.data[name].service == saved.service && s.data[name].expiresAt == saved.expiresAt
                  && s.data[name].modifyIndex == (if saved.modifyIndex == 0 then 1 else saved.modifyIndex)
                  && s.data[name].createIndex == (if saved.modifyIndex == 0 then 1 else saved.createIndex)
                  && s.data[name].modifyIndex <= s.index)
  {
    var s := Reloaded(codec, stored, now);
    assert IsMaxModify(s.data, s.index);
    forall n | n in s.data ensures Versions(s.data)[n].modifyIndex == s.data[n].modifyIndex {}
  }

  // ---- What the engine holds -----------------------------------------------------------------------------------

  /** The record reloads as the entry and does not expire before it. */
  ghost predicate Backs(codec: Codec<ServiceEntry>, r: Record, e: ServiceEntry) {
    codec.dec(r.data).Some? && Loaded(codec, r) == e && r.expiresAt >= e.expiresAt
  }

  /** Every entry has its record; any other record is one that no restart from `clock` on will load. */
  ghost predicate Mirrors(codec: Codec<ServiceEntry>, data: map<string, ServiceEntry>, stored: map<string, Record>,
                          clock: int) {
    && (forall n :: n in data ==> n in stored && Backs(codec, stored[n], data[n]))
    && (forall n :: n in stored && n !in data ==> !Loads(codec, stored[n], clock))
  }

  /** No readable record expires before the entry in it: true of every record that the program writes. */
  ghost predicate LongEnough(codec: Codec<ServiceEntry>, stored: map<string, Record>) {
    forall n :: n in stored && codec.dec(stored[n].data).Some? ==>
      stored[n].expiresAt >= codec.dec(stored[n].data).value.expiresAt
  }

  /** Opening a store at `now` on any such engine, with whatever expired or unreadable records in it. */
  lemma OpenedMirrors(codec: Codec<ServiceEntry>, stored: map<string, Record>, now: int)
    requires LongEnough(codec, stored)
    ensures Mirrors(codec, ReloadedData(codec, stored, now), stored, now)
  {
  }

  /** A restart at `now` brings back exactly the entries that expire after `now`: the engine, whose expiry is never the
      earlier one, hides none of them, and what else it holds stays out. */
  lemma RestartRecoversLive(codec: Codec<ServiceEntry>, data: map<string, ServiceEntry>, stored: map<string, Record>,
                            clock: int, now: int)
    requires Mirrors(codec, data, stored, clock) && clock <= now
    ensures ReloadedData(codec, stored, now) == map n | n in data && data[n].expiresAt > now :: data[n]
    ensures Mirrors(codec, ReloadedData(codec, stored, now), stored, now)
  {
    forall n | n in stored
      ensures Loads(codec, stored[n], now) <==> n in data && data[n].expiresAt > now
      ensures Loads(codec, stored[n], now) ==> Loaded(codec, stored[n]) == data[n]
    {
      if n in data {
        assert Backs(codec, stored[n], data[n]);
      }
    }
  }

  // ---- Histories -----------------------------------------------------------------------------------------------

  /** A persistent operation reads the clock at `now`, its engine at `later`. */
  datatype Action = Run(cmd: Command, now: int, later: int) | Cleanup(now: int) | Restart(now: int)

  datatype System = System(store: State, stored: map<string, Record>)

  /** The engine's services after a persistent operation that took `s` to its next state. */
  function Persisted(codec: Codec<ServiceEntry>, stored: map<string, Record>, s: State, cmd: Command, now: int,
                     later: int, ttl: int): map<string, Record> {
    var (t, reply) := Apply(s, cmd, now, ttl);
    if reply.Failed? then stored
    else match cmd
      case CmdRegister(svc) => stored[svc.name := Saved(codec, t, svc.name, later + ttl)]
      case CmdRegisterCAS(svc, _) => stored[svc.name := Saved(codec, t, svc.name, later + ttl)]
      case CmdDeregister(name) => stored - {name}
      case CmdDeregisterCAS(name, _) => stored - {name}
      case CmdHeartbeat(name) => if name in s.data then stored[name := Saved(codec, t, name, later + ttl)] else stored
  }

  function Saved(codec: Codec<ServiceEntry>, s: State, name: string, expiresAt: int): Record
    requires name in s.data
  {
    Record(codec.enc(s.data[name]), expiresAt)
  }

  function Expired(s: State, now: int): set<string> {
    set n | n in s.data && s.data[n].expiresAt < now
  }

  ghost function Next(codec: Codec<ServiceEntry>, sys: System, action: Action, ttl: int): System {
    match action
    case Run(cmd, now, later) =>
      System(Apply(sys.store, cmd, now, ttl).0, Persisted(codec, sys.stored, sys.store, cmd, now, later, ttl))
    case Cleanup(now) => System(Cleaned(sys.store, now), sys.stored - Expired(sys.store, now))
    case Restart(now) => sys.(store := Reloaded(codec, sys.stored, now))
  }

  /** A store opens at time `since` on an engine that already holds something. */
  ghost function SystemAt(codec: Codec<ServiceEntry>, stored: map<string, Record>, since: int, actions: seq<Action>,
                          ttl: int, n: nat): System
    requires n <= |actions|
  {
    if n == 0 then System(Reloaded(codec, stored, since), stored)
    else Next(codec, SystemAt(codec, stored, since, actions, ttl, n - 1), actions[n - 1], ttl)
  }

  /** The last clock reading of the first `n` actions. */
  function ClockAt(since: int, actions: seq<Action>, n: nat): int
    requires n <= |actions|
  {
    if n == 0 then since else if actions[n - 1].Run? then actions[n - 1].later else actions[n - 1].now
  }

  /** Clocks do not run backwards. */
  predicate InOrder(since: int, actions: seq<Action>) {
    forall i {:trigger ClockAt(since, actions, i)} :: 0 <= i < |actions| ==>
      ClockAt(since, actions, i) <= actions[i].now && (actions[i].Run? ==> actions[i].now <= actions[i].later)
  }

  lemma RunKeepsMirror(codec: Codec<ServiceEntry>, s: State, stored: map<string, Record>, cmd: Command, clock: int,
                       now: int, later: int, ttl: int)
    requires Inverse(codec) && Mirrors(codec, s.data, stored, clock) && clock <= now <= later
    ensures Mirrors(codec, Apply(s, cmd, now, ttl).0.data, Persisted(codec, stored, s, cmd, now, later, ttl), later)
  {
  }

  lemma CleanupKeepsMirror(codec: Codec<ServiceEntry>, s: State, stored: map<string, Record>, clock: int, now: int)
    requires Mirrors(codec, s.data, stored, clock) && clock <= now
    ensures Mirrors(codec, Cleaned(s, now).data, stored - Expired(s, now), now)
  {
  }

  lemma {:induction false} EveryHistoryMirrors(codec: Codec<ServiceEntry>, stored: map<string, Record>, since: int,
                                               actions: seq<Action>, ttl: int, n: nat)
    requires Inverse(codec) && LongEnough(codec, stored) && InOrder(since, actions) && n <= |actions|
    ensures var sys := SystemAt(codec, stored, since, actions, ttl, n);
            Mirrors(codec, sys.store.data, sys.stored, ClockAt(since, actions, n))
  {
    if n == 0 {
      OpenedMirrors(codec, stored, since);
    } else {
      EveryHistoryMirrors(codec, stored, since, actions, ttl, n - 1);
      var sys, clock := SystemAt(codec, stored, since, actions, ttl, n - 1), ClockAt(since, actions, n - 1);
      match actions[n - 1] {
        case Run(cmd, now, later) => RunKeepsMirror(codec, sys.store, sys.stored, cmd, clock, now, later, ttl);
        case Cleanup(now) => CleanupKeepsMirror(codec, sys.store, sys.stored, clock, now);
        case Restart(now) => RestartRecoversLive(codec, sys.store.data, sys.stored, clock, now);
      }
    }
  }

  /** At every moment of every history of persistent operations, cleanups and restarts, a restart at `now` yields
      exactly the entries that expire after `now`, with the largest of their indices as counter. */
  lemma RestartYieldsTheUnexpired(codec: Codec<ServiceEntry>, stored: map<string, Record>, since: int,
                                  actions: seq<Action>, ttl: int, n: nat, now: int)
    requires Inverse(codec) && LongEnough(codec, stored) && InOrder(since, actions) && n <= |actions|
    requires ClockAt(since, actions, n) <= now
    ensures var sys := SystemAt(codec, stored, since, actions, ttl, n);
            var restarted := Next(codec, sys, Restart(now), ttl);
            && restarted.stored == sys.stored
            && restarted.store.data == (map x | x in sys.store.data && sys.store.data[x].expiresAt > now ::
                                          sys.store.data[x])
            && IsMaxModify(restarted.store.data, restarted.store.index)
  {
    EveryHistoryMirrors(codec, stored, since, actions, ttl, n);
    var sys := SystemAt(codec, stored, since, actions, ttl, n);
    RestartRecoversLive(codec, sys.store.data, sys.stored, ClockAt(since, actions, n), now);
  }

  lemma RunKeepsNames(s: State, cmd: Command, now: int, ttl: int)
    requires NamesMatch(s.data)
    ensures NamesMatch(Apply(s, cmd, now, ttl).0.data)
  {
  }

  lemma ActionKeepsNames(codec: Codec<ServiceEntry>, sys: System, action: Action, clock: int, ttl: int)
    requires Mirrors(codec, sys.store.data, sys.stored, clock) && clock <= action.now && NamesMatch(sys.store.data)
    ensures NamesMatch(Next(codec, sys, action, ttl).store.data)
  {
    match action {
      case Run(cmd, now, _) => RunKeepsNames(sys.store, cmd, now, ttl);
      case Cleanup(_) =>
      case Restart(now) => RestartRecoversLive(codec, sys.store.data, sys.stored, clock, now);
    }
  }

  /** Names stay in order along every history, restarts included: what a restart loads is always fit to be loaded. */
  lemma {:induction false} HistoriesKeepNames(codec: Codec<ServiceEntry>, stored: map<string, Record>, since: int,
                                              actions: seq<Action>, ttl: int, n: nat)
    requires Inverse(codec) && LongEnough(codec, stored) && InOrder(since, actions) && n <= |actions|
    requires NamesMatch(ReloadedData(codec, stored, since))
    ensures NamesMatch(SystemAt(codec, stored, since, actions, ttl, n).store.data)
  {
    if n > 0 {
      HistoriesKeepNames(codec, stored, since, actions, ttl, n - 1);
      EveryHistoryMirrors(codec, stored, since, actions, ttl, n - 1);
      NextKeepsNames(codec, stored, since, actions, ttl, n - 1, SystemAt(codec, stored, since, actions, ttl, n - 1));
    }
  }

  lemma NextKeepsNames(codec: Codec<ServiceEntry>, stored: map<string, Record>, since: int, actions: seq<Action>,
                       ttl: int, n: nat, sys: System)
    requires n < |actions| && InOrder(since, actions) && sys == SystemAt(codec, stored, since, actions, ttl, n)
    requires Mirrors(codec, sys.store.data, sys.stored, ClockAt(since, actions, n)) && NamesMatch(sys.store.data)
    ensures NamesMatch(SystemAt(codec, stored, since, actions, ttl, n + 1).store.data)
  {
    ActionKeepsNames(codec, sys, actions[n], ClockAt(since, actions, n), ttl);
  }

  // ---- Loops ---------------------------------------------------------------------------------------------------

  /** The loops over stored records and over entries, with `rest` still to be visited. */
  ghost function ReloadedOutside(codec: Codec<ServiceEntry>, svcData: map<string, Record>, rest: set<string>, now: int)
    : map<string, ServiceEntry>
  {
    map n | n in svcData && n !in rest && Loads(codec, svcData[n], now) :: Loaded(codec, svcData[n])
  }

  lemma ReloadedOneMore(codec: Codec<ServiceEntry>, svcData: map<string, Record>, rest: set<string>,
                        name: string, now: int)
    requires name in rest && name in svcData
    ensures var before := ReloadedOutside(codec, svcData, rest, now);
            name !in before
            && ReloadedOutside(codec, svcData, rest - {name}, now) ==
               if Loads(codec, svcData[name], now) then before[name := Loaded(codec, svcData[name])] else before
  {
  }

  ghost function CleanedOutside(data: map<string, ServiceEntry>, rest: set<string>,
                                now: int): map<string, ServiceEntry> {
    map n | n in data && (n in rest || data[n].expiresAt >= now) :: data[n]
  }

  lemma CleanedOneMore(data: map<string, ServiceEntry>, rest: set<string>, name: string, now: int)
    requires name in rest && name in data
    ensures CleanedOutside(data, rest - {name}, now) ==
            if data[name].expiresAt < now then CleanedOutside(data, rest, now) - {name}
            else CleanedOutside(data, rest, now)
  {
  }

  /** Changing expiry times leaves both indexes in agreement. */
  lemma SameServicesSameIndexes(data: map<string, ServiceEntry>, data': map<string, ServiceEntry>, tags: Tags,
                                metas: Metas)
    requires data.Keys == data'.Keys && forall n :: n in data ==> data'[n].service == data[n].service
    requires TagsAgree(data, tags) && MetasAgree(data, metas)
    ensures TagsAgree(data', tags) && MetasAgree(data', metas)
  {
    forall tag, n ensures HasTag(data, n, tag) <==> HasTag(data', n, tag) {
    }
    forall k, v, n ensures HasMeta(data, n, k, v) <==> HasMeta(data', n, k, v) {
    }
  }
}
