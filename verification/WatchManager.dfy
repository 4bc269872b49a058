/** The watch manager object. Sending on or closing a closed channel would panic, so both demand an open channel. */
module WatchManager {
  import opened Prelude
  import opened Watch
  import WatchDelivery

  class Manager {
    var watchers: map<string, Watcher>
    var patterns: map<string, seq<string>>
    var clientCounts: map<string, nat>
    var channels: map<string, Chan>
    const rules: Rules
    const bufferSize: nat
    const maxPerClient: int

    ghost function State(): Registry
      reads this
    {
      Registry(watchers, patterns, clientCounts, channels)
    }

    ghost predicate Valid()
      reads this
    {
      RegistryOk(State(), maxPerClient)
    }

    constructor (rules: Rules, bufferSize: nat, maxPerClient: int)
      ensures Valid() && State() == Watch.EMPTY
      ensures this.rules == rules && this.bufferSize == bufferSize && this.maxPerClient == maxPerClient
    {
      this.rules, this.bufferSize, this.maxPerClient := rules, bufferSize, maxPerClient;
      watchers, patterns, clientCounts, channels := map[], map[], map[], map[];
      new;
      EmptyRegistryOk(maxPerClient);
    }

    /** A non-blocking send on the channel of `id`. */
    method TrySend(id: string, event: Event)
      requires id in channels && !channels[id].closed
      modifies this`channels
      ensures channels == old(channels)[id := Pushed(old(channels)[id], event)]
    {
      if |channels[id].buf| < channels[id].cap {
        channels := channels[id := channels[id].(buf := channels[id].buf + [event])];
      }
    }

    method CloseChannel(id: string)
      requires id in channels && !channels[id].closed
      modifies this`channels
      ensures channels == old(channels)[id := old(channels)[id].(closed := true)]
    {
      channels := channels[id := channels[id].(closed := true)];
    }

    method AddWatcher(id: string, pattern: string, policies: seq<string>, userID: string) returns (ok: bool)
      requires Valid() && id !in channels
      modifies this
      ensures Valid()
      ensures ok == !LimitReached(old(State()), userID, maxPerClient)
      ensures State() == if ok then Added(old(State()), id, Watcher(pattern, policies, userID), bufferSize)
                            else old(State())
      ensures ok ==> id in channels && channels[id] == Chan([], bufferSize, false)
    {
      if maxPerClient > 0 && userID != "" {
        if userID in clientCounts && clientCounts[userID] >= maxPerClient {
          return false;
        }
      }
      AddKeepsRegistry(State(), id, Watcher(pattern, policies, userID), bufferSize, maxPerClient);
      Register(id, Watcher(pattern, policies, userID));
      ok := true;
    }

    method Register(id: string, watcher: Watcher)
      modifies this
      ensures State() == Added(old(State()), id, watcher, bufferSize)
    {
      watchers := watchers[id := watcher];
      channels := channels[id := Chan([], bufferSize, false)];
      var ids := if watcher.pattern in patterns then patterns[watcher.pattern] else [];
      patterns := patterns[watcher.pattern := ids + [id]];
      var user := watcher.userID;
      if user != "" {
        clientCounts := clientCounts[user := (if user in clientCounts then clientCounts[user] else 0) + 1];
      }
    }

    method Unpattern(pattern: string, id: string)
      modifies this`patterns
      ensures var ids := RemoveFirst(IdsOf(old(patterns), pattern), id);
              patterns == if |ids| == 0 then old(patterns) - {pattern} else old(patterns)[pattern := ids]
    {
      var ids := if pattern in patterns then patterns[pattern] else [];
      ids := Unlist(ids, id);
      patterns := patterns[pattern := ids];
      if |patterns[pattern]| == 0 {
        patterns := patterns - {pattern};
      }
    }

    method Uncount(userID: string)
      requires userID != "" ==> CountOf(clientCounts, userID) > 0
      modifies this`clientCounts
      ensures clientCounts == if userID == "" then old(clientCounts)
                              else if CountOf(old(clientCounts), userID) == 1 then old(clientCounts) - {userID}
                              else old(clientCounts)[userID := CountOf(old(clientCounts), userID) - 1]
    {
      if userID != "" {
        clientCounts := clientCounts[userID := clientCounts[userID] - 1];
        if clientCounts[userID] == 0 {
          clientCounts := clientCounts - {userID};
        }
      }
    }

    method RemoveWatcher(id: string)
      requires Valid()
      modifies this
      ensures Valid() && State() == Removed(old(State()), id)
    {
      if id in watchers {
        RemoveKeepsRegistry(State(), id, maxPerClient);
        RegisteredIsCounted(State(), id, maxPerClient);
        RemoveRegistered(id);
      }
    }

    method RemoveRegistered(id: string)
      requires id in watchers && id in channels && !channels[id].closed
      requires watchers[id].userID != "" ==> CountOf(clientCounts, watchers[id].userID) > 0
      modifies this
      ensures State() == Removed(old(State()), id)
    {
      var watcher := watchers[id];
      Unpattern(watcher.pattern, id);
      Uncount(watcher.userID);
      CloseChannel(id);
      watchers := watchers - {id};
    }

    /** Visits the patterns in any order; the outcome does not depend on it. */
    method Notify(event: Event)
      requires Valid()
      modifies this`channels
      ensures Valid() && State() == Notified(old(State()), rules, event)
      ensures forall id :: id in watchers && watchers[id].pattern == event.key && id in old(channels)
                           && rules.canRead(watchers[id].policies, event.key)
                           && |old(channels)[id].buf| < old(channels)[id].cap ==>
                id in channels && channels[id].buf == old(channels)[id].buf + [event]
    {
      ghost var before := State();
      NotifyKeepsRegistry(State(), rules, event, maxPerClient);
      SendToMatching(event);
      forall id | id in before.watchers && before.watchers[id].pattern == event.key && id in before.channels
                  && rules.canRead(before.watchers[id].policies, event.key)
                  && |before.channels[id].buf| < before.channels[id].cap
        ensures id in channels && channels[id].buf == before.channels[id].buf + [event]
      {
        WatchDelivery.KeyWatcherIsTold(before, rules, event, id);
      }
    }

    method SendToMatching(event: Event)
      requires PatternsOk(State()) && ChannelsOk(State())
      modifies this`channels
      ensures State() == Notified(old(State()), rules, event)
    {
      ghost var before := State();
      var rest := patterns.Keys;
      NothingSentYet(before, rules, event);
      while rest != {}
        invariant rest <= patterns.Keys
        invariant SentOutside(before, rules, event, rest, channels)
        decreases rest
      {
        var pattern :| pattern in rest;
        if MatchesPattern(rules, event.key, pattern) {
          SendToAll(pattern, event, before, rest);
        } else {
          NobodyConcerned(before, rules, event, rest, pattern, channels);
        }
        rest := rest - {pattern};
      }
      EverybodySent(before, rules, event, channels);
    }

    /** The inner loop of a notification: every permitted watcher listed under one matching pattern. */
    method SendToAll(pattern: string, event: Event, ghost before: Registry, ghost rest: set<string>)
      requires PatternsOk(before) && ChannelsOk(before)
      requires watchers == before.watchers && patterns == before.patterns
      requires pattern in patterns && pattern in rest && MatchesPattern(rules, event.key, pattern)
      requires SentOutside(before, rules, event, rest, channels)
      modifies this`channels
      ensures SentOutside(before, rules, event, rest - {pattern}, channels)
    {
      var ids := patterns[pattern];
      for i := 0 to |ids|
        invariant SentSome(before, rules, event, rest, ids[..i], channels)
      {
        var id := ids[i];
        assert id in before.patterns[pattern] && id !in ids[..i] && ids[..i + 1] == ids[..i] + [id];
        SendOneMore(before, rules, event, rest, ids[..i], id, channels);
        if id in watchers && rules.canRead(watchers[id].policies, event.key) {
          TrySend(id, event);
        }
      }
      assert ids[..|ids|] == ids;
      forall id | id in watchers && watchers[id].pattern == pattern ensures id in ids {
        assert id in IdsOf(before.patterns, before.watchers[id].pattern);
      }
    }

    /** The owner of a watcher takes its oldest buffered event. */
    method Receive(id: string) returns (event: Option<Event>)
      requires Valid()
      modifies this`channels
      ensures Valid() && (State(), event) == Received(old(State()), id)
    {
      ReceiveKeepsRegistry(State(), id, maxPerClient);
      event := None;
      if id in channels && |channels[id].buf| > 0 {
        event := Some(channels[id].buf[0]);
        channels := channels[id := channels[id].(buf := channels[id].buf[1..])];
      }
    }

    method Close()
      requires Valid()
      modifies this
      ensures Valid() && State() == AllClosed(old(State()))
    {
      CloseKeepsRegistry(State(), maxPerClient);
      CloseEvery();
      patterns, clientCounts := map[], map[];
    }

    method CloseEvery()
      requires ChannelsOk(State())
      modifies this`watchers, this`channels
      ensures watchers == map[] && channels == AllClosed(old(State())).channels
    {
      ghost var before := State();
      while watchers != map[]
        invariant watchers.Keys <= before.watchers.Keys && channels.Keys == before.channels.Keys
        invariant forall id :: id in channels ==>
                    channels[id] == if id in before.watchers && id !in watchers
                                    then before.channels[id].(closed := true) else before.channels[id]
        decreases watchers.Keys
      {
        var id :| id in watchers;
        CloseChannel(id);
        watchers := watchers - {id};
      }
    }
  }

  /** Every watcher whose pattern is outside `rest` has been served, the others not yet. */
  ghost predicate SentOutside(before: Registry, rules: Rules, event: Event, rest: set<string>,
                              channels: map<string, Chan>) {
    && channels.Keys == before.channels.Keys
    && forall id :: id in channels ==>
         channels[id] == if Concerns(before, rules, id, event.key) && before.watchers[id].pattern !in rest
                         then Pushed(before.channels[id], event) else before.channels[id]
  }

  /** The same, with the watchers of `done` served although their pattern is in `rest`. */
  ghost predicate SentSome(before: Registry, rules: Rules, event: Event, rest: set<string>, done: seq<string>,
                           channels: map<string, Chan>) {
    && channels.Keys == before.channels.Keys
    && forall id :: id in channels ==>
         channels[id] == if Concerns(before, rules, id, event.key)
                            && (before.watchers[id].pattern !in rest || id in done)
                         then Pushed(before.channels[id], event) else before.channels[id]
  }

  lemma NothingSentYet(before: Registry, rules: Rules, event: Event)
    requires PatternsOk(before)
    ensures SentOutside(before, rules, event, before.patterns.Keys, before.channels)
  {
    forall id | id in before.watchers ensures before.watchers[id].pattern in before.patterns.Keys {
      assert id in IdsOf(before.patterns, before.watchers[id].pattern);
    }
  }

  lemma NobodyConcerned(before: Registry, rules: Rules, event: Event, rest: set<string>, pattern: string,
                        channels: map<string, Chan>)
    requires SentOutside(before, rules, event, rest, channels) && !MatchesPattern(rules, event.key, pattern)
    ensures SentOutside(before, rules, event, rest - {pattern}, channels)
  {
  }

  lemma EverybodySent(before: Registry, rules: Rules, event: Event, channels: map<string, Chan>)
    requires SentOutside(before, rules, event, {}, channels)
    ensures channels == Notified(before, rules, event).channels
  {
  }

  lemma SendOneMore(before: Registry, rules: Rules, event: Event, rest: set<string>, done: seq<string>, id: string,
                    channels: map<string, Chan>)
    requires SentSome(before, rules, event, rest, done, channels) && ChannelsOk(before)
    requires id in before.watchers && before.watchers[id].pattern in rest && id !in done
    requires MatchesPattern(rules, event.key, before.watchers[id].pattern)
    ensures id in channels && channels[id] == before.channels[id] && !channels[id].closed
    ensures SentSome(before, rules, event, rest, done + [id],
                     if rules.canRead(before.watchers[id].policies, event.key)
                     then channels[id := Pushed(channels[id], event)] else channels)
  {
    assert forall x :: x in done + [id] <==> x in done || x == id;
  }

  lemma RegisteredIsCounted(reg: Registry, id: string, maxPerClient: int)
    requires RegistryOk(reg, maxPerClient) && id in reg.watchers
    ensures reg.watchers[id].userID != "" ==> CountOf(reg.clientCounts, reg.watchers[id].userID) > 0
  {
    assert id in WatchersOf(reg.watchers, reg.watchers[id].userID);
  }
}
