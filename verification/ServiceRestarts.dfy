/**
 Restarts of a registry with an engine. A restart drops what has expired and takes the largest index of what is left
 for its counter, so it is a cleanup followed by a restore.
 */
module ServiceRestarts {
  import opened Prelude
  import opened ServiceTypes
  import opened ServiceModel
  import opened ServiceRuns
  import opened Persistence
  import Durable = ServiceDurability
  import KvRuns
  import KvReplication
  import ServiceVersions

  /** What an action does to the entries: a restart at `now` is the cleanup one tick later. */
  function EventOf(a: Durable.Action): Event {
    match a
    case Run(cmd, now, _) => Event.Do(cmd, now)
    case Cleanup(now) => Event.Cleanup(now)
    case Restart(now) => Event.Cleanup(now + 1)
  }

  function EventsOf(actions: seq<Durable.Action>): (events: seq<Event>)
    ensures |events| == |actions|
  {
    seq(|actions|, i requires 0 <= i < |actions| => EventOf(actions[i]))
  }

  /** An entry that has not expired at `now` carries the counter, or nothing was ever registered. */
  ghost predicate CounterSurvives(s: State, now: int) {
    s.index == 0 || exists name :: name in s.data && s.data[name].expiresAt > now && s.data[name].modifyIndex == s.index
  }

  /** The store after `n` actions of a history that began on an empty engine. */
  ghost function StoreAt(codec: Codec<ServiceEntry>, since: int, actions: seq<Durable.Action>, ttl: int, n: nat): State
    requires n <= |actions|
  {
    Durable.SystemAt(codec, map[], since, actions, ttl, n).store
  }

  /** In no restart among the first `n` actions was the counter lost. */
  ghost predicate Seamless(codec: Codec<ServiceEntry>, since: int, actions: seq<Durable.Action>, ttl: int, n: nat)
    requires n <= |actions|
  {
    forall i :: 0 <= i < n ==> KeepsCounter(codec, since, actions, ttl, i)
  }

  /** Action `i`, if it is a restart, does not lose the counter. */
  ghost predicate KeepsCounter(codec: Codec<ServiceEntry>, since: int, actions: seq<Durable.Action>, ttl: int, i: nat)
    requires i < |actions|
  {
    actions[i].Restart? ==> CounterSurvives(StoreAt(codec, since, actions, ttl, i), actions[i].now)
  }

  /** The store that a restart at `now` gives after the whole history. */
  ghost function Restarted(codec: Codec<ServiceEntry>, since: int, actions: seq<Durable.Action>, ttl: int,
                           now: int): State {
    Durable.Next(codec, Durable.SystemAt(codec, map[], since, actions, ttl, |actions|), Durable.Restart(now), ttl).store
  }

  ghost predicate IsHistory(codec: Codec<ServiceEntry>, since: int, actions: seq<Durable.Action>) {
    Inverse(codec) && Durable.InOrder(since, actions)
  }

  lemma RestartIsCleanedRestore(codec: Codec<ServiceEntry>, since: int, actions: seq<Durable.Action>, ttl: int, n: nat,
                                now: int)
    requires IsHistory(codec, since, actions) && n <= |actions| && Durable.ClockAt(since, actions, n) <= now
    ensures Durable.Next(codec, Durable.SystemAt(codec, map[], since, actions, ttl, n), Durable.Restart(now), ttl).store
         == Restored(Cleaned(StoreAt(codec, since, actions, ttl, n), now + 1))
  {
    Durable.RestartYieldsTheUnexpired(codec, map[], since, actions, ttl, n, now);
    var sys := Durable.SystemAt(codec, map[], since, actions, ttl, n);
    var restarted := Durable.Next(codec, sys, Durable.Restart(now), ttl).store;
    assert restarted.data == Cleaned(sys.store, now + 1).data;
    KvReplication.MaxModifyUnique(ServiceVersions.Versions(restarted.data), restarted.index);
  }

  /** A live entry carries the counter, or nothing was ever registered. */
  ghost predicate CounterCarried(s: State) {
    s.index == 0 || exists name :: name in s.data && s.data[name].modifyIndex == s.index
  }

  lemma SurvivesIff(s: State, now: int)
    ensures CounterSurvives(s, now) <==> CounterCarried(Cleaned(s, now + 1))
  {
    var c := Cleaned(s, now + 1);
    forall n ensures n in c.data <==> n in s.data && s.data[n].expiresAt > now {}
  }

  lemma CarriedIsSeamless(s: State)
    requires KvRuns.WellIndexed(Shadow(s))
    ensures Restored(s).index <= s.index
    ensures CounterCarried(s) <==> Restored(s) == s
  {
    GapIsZeroIff(s);
  }

  lemma SurvivingRestart(s: State, now: int)
    requires KvRuns.WellIndexed(Shadow(Cleaned(s, now + 1))) && CounterSurvives(s, now)
    ensures Restored(Cleaned(s, now + 1)) == Cleaned(s, now + 1)
  {
    SurvivesIff(s, now);
    CarriedIsSeamless(Cleaned(s, now + 1));
  }

  lemma CleanedIsWellIndexed(events: seq<Event>, ttl: int, n: nat, now: int)
    requires n < |events| && events[n] == Event.Cleanup(now)
    ensures KvRuns.WellIndexed(Shadow(Cleaned(StateOf(EMPTY, events, ttl, n), now)))
  {
    EveryRunIsWellIndexed(events, ttl, n + 1);
    assert StateOf(EMPTY, events, ttl, n + 1) == Cleaned(StateOf(EMPTY, events, ttl, n), now);
  }

  /** An action that lost no counter does to the entries what its event does. */
  ghost predicate ActsAs(codec: Codec<ServiceEntry>, sys: Durable.System, a: Durable.Action, ttl: int) {
    Durable.Next(codec, sys, a, ttl).store == After(sys.store, EventOf(a), ttl).0
  }

  lemma PlainActsAs(codec: Codec<ServiceEntry>, sys: Durable.System, a: Durable.Action, ttl: int)
    requires !a.Restart?
    ensures ActsAs(codec, sys, a, ttl)
  {
  }

  lemma RestartActsAs(codec: Codec<ServiceEntry>, since: int, actions: seq<Durable.Action>, ttl: int, n: nat)
    requires IsHistory(codec, since, actions) && n < |actions| && actions[n].Restart?
    requires StoreAt(codec, since, actions, ttl, n) == StateOf(EMPTY, EventsOf(actions), ttl, n)
    requires CounterSurvives(StoreAt(codec, since, actions, ttl, n), actions[n].now)
    ensures ActsAs(codec, Durable.SystemAt(codec, map[], since, actions, ttl, n), actions[n], ttl)
  {
    var s, now := StoreAt(codec, since, actions, ttl, n), actions[n].now;
    RestartIsCleanedRestore(codec, since, actions, ttl, n, now);
    CleanedIsWellIndexed(EventsOf(actions), ttl, n, now + 1);
    SurvivingRestart(s, now);
  }

  /** The history and the run are in the same state after `n` actions. */
  ghost predicate Together(codec: Codec<ServiceEntry>, since: int, actions: seq<Durable.Action>, ttl: int, n: nat)
    requires n <= |actions|
  {
    StoreAt(codec, since, actions, ttl, n) == StateOf(EMPTY, EventsOf(actions), ttl, n)
  }

  lemma StartsEmpty(codec: Codec<ServiceEntry>, since: int, actions: seq<Durable.Action>, ttl: int)
    ensures Together(codec, since, actions, ttl, 0)
  {
    assert Durable.ReloadedData(codec, map[], since) == map[];
  }

  lemma BothMove(codec: Codec<ServiceEntry>, since: int, actions: seq<Durable.Action>, ttl: int, n: nat)
    requires n < |actions| && Together(codec, since, actions, ttl, n)
    requires ActsAs(codec, Durable.SystemAt(codec, map[], since, actions, ttl, n), actions[n], ttl)
    ensures Together(codec, since, actions, ttl, n + 1)
  {
  }

  lemma OneActionMore(codec: Codec<ServiceEntry>, since: int, actions: seq<Durable.Action>, ttl: int, n: nat)
    requires IsHistory(codec, since, actions) && n < |actions| && Together(codec, since, actions, ttl, n)
    requires KeepsCounter(codec, since, actions, ttl, n)
    ensures Together(codec, since, actions, ttl, n + 1)
  {
    if actions[n].Restart? {
      RestartActsAs(codec, since, actions, ttl, n);
    } else {
      PlainActsAs(codec, Durable.SystemAt(codec, map[], since, actions, ttl, n), actions[n], ttl);
    }
    BothMove(codec, since, actions, ttl, n);
  }

  /** While no counter is lost, a history with restarts is one run of the registry. */
  lemma {:induction false} HistoryIsRun(codec: Codec<ServiceEntry>, since: int, actions: seq<Durable.Action>, ttl: int,
                                        n: nat)
    requires IsHistory(codec, since, actions) && n <= |actions| && Seamless(codec, since, actions, ttl, n)
    ensures Together(codec, since, actions, ttl, n)
  {
    if n == 0 {
      StartsEmpty(codec, since, actions, ttl);
    } else {
      HistoryIsRun(codec, since, actions, ttl, n - 1);
      assert KeepsCounter(codec, since, actions, ttl, n - 1);
      OneActionMore(codec, since, actions, ttl, n - 1);
    }
  }

  // ---- No ABA across a restart ---------------------------------------------------------------------------------

  lemma {:induction false} SamePrefix(a: seq<Event>, b: seq<Event>, ttl: int, n: nat)
    requires a <= b && n <= |a|
    ensures StateOf(EMPTY, a, ttl, n) == StateOf(EMPTY, b, ttl, n)
  {
    if n > 0 {
      SamePrefix(a, b, ttl, n - 1);
    }
  }

  lemma RegistersInLonger(a: seq<Event>, b: seq<Event>, ttl: int, w: nat, name: string, e: nat)
    requires a <= b && w < |a|
    ensures Registers(a, ttl, w, name, e) <==> Registers(b, ttl, w, name, e)
  {
    SamePrefix(a, b, ttl, w);
    SamePrefix(a, b, ttl, w + 1);
  }

  lemma UntouchedInLonger(a: seq<Event>, b: seq<Event>, ttl: int, w: nat, name: string)
    requires a <= b && Untouched(EMPTY, b, ttl, w, |b|, name)
    ensures Untouched(EMPTY, a, ttl, w, |a|, name)
  {
    forall i | w <= i < |a| ensures !Touches(EMPTY, a, ttl, i, name) {
      SamePrefix(a, b, ttl, i);
      assert !Touches(EMPTY, b, ttl, i, name);
    }
  }

  lemma GuardInLonger(run: seq<Event>, longer: seq<Event>, restored: State, ttl: int, suffix: seq<Event>, t: nat,
                      name: string, e: nat, w: nat, l: string)
    requires run <= longer && GuardHoldsAt(longer, restored, ttl, suffix, t, name, e, w, l)
    ensures GuardHoldsAt(run, restored, ttl, suffix, t, name, e, w, l)
  {
    if GoesThrough(restored, suffix, ttl, t, name, e) && Registers(run, ttl, w, l, e) {
      RegistersInLonger(run, longer, ttl, w, l, e);
      UntouchedInLonger(run, longer, ttl, w + 1, name);
    }
  }

  /** For a run and the cleanup after it: the guards of the run hold across a restore exactly as those of both do. */
  lemma CleanupThenRestoreIff(run: seq<Event>, ttl: int, now: int)
    ensures var s := StateOf(EMPTY, run, ttl, |run|);
            GuardsHold(run, Restored(Cleaned(s, now + 1)), ttl) <==> CounterSurvives(s, now)
  {
    var s := StateOf(EMPTY, run, ttl, |run|);
    var longer := run + [Event.Cleanup(now + 1)];
    var cleaned := Cleaned(s, now + 1);
    SamePrefix(run, longer, ttl, |run|);
    assert StateOf(EMPTY, longer, ttl, |longer|) == cleaned;
    RestoreCarriesIff(longer, ttl, cleaned);
    SurvivesIff(s, now);
    if CounterSurvives(s, now) {
      GuardsOfPrefix(run, longer, Restored(cleaned), ttl);
    } else {
      LostCounterBreaks(run, longer, cleaned, ttl);
    }
  }

  lemma RestoreCarriesIff(run: seq<Event>, ttl: int, s: State)
    requires s == StateOf(EMPTY, run, ttl, |run|)
    ensures GuardsHold(run, Restored(s), ttl) <==> CounterCarried(s)
  {
    NoAbaAcrossRestoreIff(run, ttl);
  }

  lemma GuardsOfPrefix(run: seq<Event>, longer: seq<Event>, restored: State, ttl: int)
    requires run <= longer && GuardsHold(longer, restored, ttl)
    ensures GuardsHold(run, restored, ttl)
  {
    forall suffix, t: nat, name, e: nat, w: nat, l ensures GuardHoldsAt(run, restored, ttl, suffix, t, name, e, w, l) {
      assert GuardHoldsAt(longer, restored, ttl, suffix, t, name, e, w, l);
      GuardInLonger(run, longer, restored, ttl, suffix, t, name, e, w, l);
    }
  }

  lemma LostCounterBreaks(run: seq<Event>, longer: seq<Event>, s: State, ttl: int)
    requires run <= longer && |longer| == |run| + 1 && longer[|run|].Cleanup?
    requires s == StateOf(EMPTY, longer, ttl, |longer|)
    requires !CounterCarried(s)
    ensures !GuardsHold(run, Restored(s), ttl)
  {
    EveryRunIsWellIndexed(longer, ttl, |longer|);
    CarriedIsSeamless(s);
    StaleGuard(run, longer, s, ttl);
  }

  lemma StaleGuard(run: seq<Event>, longer: seq<Event>, s: State, ttl: int)
    requires run <= longer && |longer| == |run| + 1 && longer[|run|].Cleanup?
    requires s == StateOf(EMPTY, longer, ttl, |longer|) && Restored(s).index < s.index
    ensures !GuardsHold(run, Restored(s), ttl)
  {
    var w, name, suffix, t := AbaAfterRestore(longer, ttl, s.index);
    NotByTheCleanup(longer, ttl, w, name, s.index);
    RegistersInLonger(run, longer, ttl, w, name, s.index);
    GuardMisled(run, Restored(s), ttl, suffix, t, name, s.index, w);
  }

  lemma NotByTheCleanup(longer: seq<Event>, ttl: int, w: nat, name: string, e: nat)
    requires |longer| > 0 && longer[|longer| - 1].Cleanup? && Registers(longer, ttl, w, name, e)
    ensures w < |longer| - 1
  {
  }

  lemma GuardMisled(run: seq<Event>, restored: State, ttl: int, suffix: seq<Event>, t: nat, name: string, e: nat,
                    w: nat)
    requires Registers(run, ttl, w, name, e) && t <= |suffix|
    requires GoesThrough(restored, suffix, ttl, t, name, e) && !Untouched(restored, suffix, ttl, 0, t, name)
    ensures !GuardsHold(run, restored, ttl)
  {
    assert !GuardHoldsAt(run, restored, ttl, suffix, t, name, e, w, name);
  }

  /** The guarantee carries across a restart at `now`, for every registration before it and every suffix after it,
      exactly when an entry that has not expired carries the counter (or nothing was ever registered). Earlier
      restarts may be part of the history, as long as none of them lost the counter. */
  lemma NoAbaAcrossRestartIff(codec: Codec<ServiceEntry>, since: int, actions: seq<Durable.Action>, ttl: int, now: int)
    requires IsHistory(codec, since, actions) && Durable.ClockAt(since, actions, |actions|) <= now
    requires Seamless(codec, since, actions, ttl, |actions|)
    ensures GuardsHold(EventsOf(actions), Restarted(codec, since, actions, ttl, now), ttl) <==>
            CounterSurvives(StoreAt(codec, since, actions, ttl, |actions|), now)
  {
    HistoryIsRun(codec, since, actions, ttl, |actions|);
    RestartIsCleanedRestore(codec, since, actions, ttl, |actions|, now);
    CleanupThenRestoreIff(EventsOf(actions), ttl, now);
  }

  // ---- Ways to lose it -----------------------------------------------------------------------------------------

  lemma OneMore(run: seq<Event>, x: Event, ttl: int)
    ensures StateOf(EMPTY, run + [x], ttl, |run| + 1) == After(StateOf(EMPTY, run, ttl, |run|), x, ttl).0
  {
    SamePrefix(run, run + [x], ttl, |run|);
  }

  lemma RegisteredNewest(s: State, svc: Service, at: int, ttl: int)
    requires ValidService(svc) && KvRuns.WellIndexed(Shadow(s))
    ensures var t := After(s, Event.Do(CmdRegister(svc), at), ttl).0;
            && t.index > 0 && svc.name in t.data && t.data[svc.name].expiresAt == at + ttl
            && forall n :: n in t.data && n != svc.name ==> t.data[n].modifyIndex < t.index
  {
    forall n | n in s.data ensures s.data[n].modifyIndex <= s.index {
      assert n in Shadow(s).data;
    }
  }

  /** After any run, registering a service and removing it again is enough for a restore to lose the guarantee. */
  lemma DeletingTheNewestLosesIt(run: seq<Event>, svc: Service, now: int, ttl: int) returns (longer: seq<Event>)
    requires ValidService(svc)
    ensures run <= longer && |longer| == |run| + 2
    ensures !GuardsHold(longer, Restored(StateOf(EMPTY, longer, ttl, |longer|)), ttl)
  {
    var x, y := Event.Do(CmdRegister(svc), now), Event.Do(CmdDeregister(svc.name), now);
    var s, t := StateOf(EMPTY, run, ttl, |run|), StateOf(EMPTY, run + [x], ttl, |run| + 1);
    longer := run + [x] + [y];
    OneMore(run, x, ttl);
    OneMore(run + [x], y, ttl);
    EveryRunIsWellIndexed(run, ttl, |run|);
    RegisteredNewest(s, svc, now, ttl);
    NewestIsGone(t, svc.name, now, ttl);
    RestoreCarriesIff(longer, ttl, StateOf(EMPTY, longer, ttl, |longer|));
  }

  lemma NewestIsGone(t: State, name: string, now: int, ttl: int)
    requires t.index > 0 && forall n :: n in t.data && n != name ==> t.data[n].modifyIndex < t.index
    ensures !CounterCarried(After(t, Event.Do(CmdDeregister(name), now), ttl).0)
  {
  }

  /** After any run, a service that is registered last and expires before a restart is enough to lose it too. */
  lemma LettingTheNewestExpireLosesIt(run: seq<Event>, svc: Service, at: int, now: int, ttl: int)
    returns (longer: seq<Event>)
    requires ValidService(svc) && at + ttl <= now
    ensures longer == run + [Event.Do(CmdRegister(svc), at)]
    ensures !GuardsHold(longer, Restored(Cleaned(StateOf(EMPTY, longer, ttl, |longer|), now + 1)), ttl)
  {
    var x := Event.Do(CmdRegister(svc), at);
    longer := run + [x];
    OneMore(run, x, ttl);
    EveryRunIsWellIndexed(run, ttl, |run|);
    RegisteredNewest(StateOf(EMPTY, run, ttl, |run|), svc, at, ttl);
    assert !CounterSurvives(StateOf(EMPTY, longer, ttl, |longer|), now);
    CleanupThenRestoreIff(longer, ttl, now);
  }
}
