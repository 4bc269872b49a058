/** Which keys a watch pattern matches, who is told of an event, and how much a new channel holds. */
module WatchDelivery {
  import opened Prelude
  import opened Watch

  // ---- Patterns ------------------------------------------------------------------------------------------------

  predicate HasDoubleStar(pattern: string) {
    exists i :: 0 <= i < |pattern| - 1 && pattern[i] == '*' && pattern[i + 1] == '*'
  }

  /** What a double-star pattern asks keys to start with: itself, without two stars at its end. */
  function Stem(pattern: string): string {
    if |pattern| >= 2 && pattern[|pattern| - 1] == '*' && pattern[|pattern| - 2] == '*' then pattern[..|pattern| - 2]
    else pattern
  }

  lemma ContainsStarIff(pattern: string)
    ensures Contains(pattern, "*") <==> '*' in pattern
  {
    if i :| 0 <= i < |pattern| && pattern[i] == '*' {
      assert StartsWith(pattern[i..], "*");
    }
    if i :| 0 <= i <= |pattern| && StartsWith(pattern[i..], "*") {
      assert pattern[i..][0] == pattern[i] && pattern[i..][..1][0] == '*';
    }
  }

  lemma ContainsDoubleStarIff(pattern: string)
    ensures Contains(pattern, "**") <==> HasDoubleStar(pattern)
  {
    if i :| 0 <= i < |pattern| - 1 && pattern[i] == '*' && pattern[i + 1] == '*' {
      assert pattern[i..][..2] == [pattern[i], pattern[i + 1]];
      assert StartsWith(pattern[i..], "**");
    }
    if i :| 0 <= i <= |pattern| && StartsWith(pattern[i..], "**") {
      assert pattern[i..][..2][0] == pattern[i] && pattern[i..][..2][1] == pattern[i + 1];
    }
  }

  lemma StemIsTrimmed(pattern: string)
    ensures TrimSuffix(pattern, "**") == Stem(pattern)
  {
    var n := |pattern|;
    if n >= 2 {
      assert pattern[n - 2..] == [pattern[n - 2], pattern[n - 1]];
    }
  }

  /** A pattern matches the key equal to it. Beyond that, one with two stars in a row matches the keys that start with
      its stem, one with single stars those that the wildcard match accepts, and one without stars nothing. */
  lemma PatternMatchesIff(rules: Rules, key: string, pattern: string)
    ensures MatchesPattern(rules, key, pattern) <==>
            || key == pattern
            || (HasDoubleStar(pattern) && |Stem(pattern)| <= |key| && key[..|Stem(pattern)|] == Stem(pattern))
            || ('*' in pattern && !HasDoubleStar(pattern) && rules.globMatch(pattern, key))
  {
    ContainsStarIff(pattern);
    ContainsDoubleStarIff(pattern);
    StemIsTrimmed(pattern);
    if i :| 0 <= i < |pattern| - 1 && pattern[i] == '*' && pattern[i + 1] == '*' {
      assert '*' in pattern;
    }
  }

  /** So a pattern without a star is a watch on one key. */
  lemma ExactPatternIff(rules: Rules, key: string, pattern: string)
    requires '*' !in pattern
    ensures MatchesPattern(rules, key, pattern) <==> key == pattern
  {
    PatternMatchesIff(rules, key, pattern);
  }

  // ---- Who is told ---------------------------------------------------------------------------------------------

  /** A notification lengthens a channel, by that event, exactly when it has room and belongs to a registered watcher
      that may read the key and whose pattern matches it. */
  lemma ToldIff(reg: Registry, rules: Rules, event: Event, id: string)
    requires id in reg.channels
    ensures var before, after := reg.channels[id], Notified(reg, rules, event).channels[id];
            if |before.buf| < before.cap && id in reg.watchers && rules.canRead(reg.watchers[id].policies, event.key)
               && MatchesPattern(rules, event.key, reg.watchers[id].pattern)
            then after == Chan(before.buf + [event], before.cap, before.closed)
            else after == before
  {
  }

  /** A watcher of one key, allowed to read it and with room in its channel, is told of every event of that key. */
  lemma KeyWatcherIsTold(reg: Registry, rules: Rules, event: Event, id: string)
    requires id in reg.channels && id in reg.watchers && reg.watchers[id].pattern == event.key
    requires rules.canRead(reg.watchers[id].policies, event.key)
    requires |reg.channels[id].buf| < reg.channels[id].cap
    ensures Notified(reg, rules, event).channels[id].buf == reg.channels[id].buf + [event]
  {
    PatternMatchesIff(rules, event.key, event.key);
    ToldIff(reg, rules, event, id);
  }

  // ---- A new channel -------------------------------------------------------------------------------------------

  ghost predicate AllFor(rules: Rules, watcher: Watcher, events: seq<Event>) {
    forall i :: 0 <= i < |events| ==>
      rules.canRead(watcher.policies, events[i].key) && MatchesPattern(rules, events[i].key, watcher.pattern)
  }

  /** A new watcher's channel holds the first `bufferSize` events meant for it, all of them, and drops the rest. */
  lemma {:induction false} NewChannelHolds(reg: Registry, rules: Rules, id: string, watcher: Watcher, bufferSize: nat,
                                           events: seq<Event>)
    requires AllFor(rules, watcher, events)
    ensures var after := NotifiedAll(Added(reg, id, watcher, bufferSize), rules, events);
            && id in after.watchers && after.watchers[id] == watcher && id in after.channels
            && after.channels[id]
                 == Chan(if |events| <= bufferSize then events else events[..bufferSize], bufferSize, false)
  {
    if |events| > 0 {
      var n := |events| - 1;
      NewChannelHolds(reg, rules, id, watcher, bufferSize, events[..n]);
      assert events[..n][..n] == events[..n] && events == events[..n] + [events[n]];
      var before := NotifiedAll(Added(reg, id, watcher, bufferSize), rules, events[..n]);
      ToldIff(before, rules, events[n], id);
      if bufferSize <= n {
        assert events[..n][..bufferSize] == events[..bufferSize];
      }
    }
  }

  /** In particular a watcher of one key gets the first `bufferSize` events of that key. */
  lemma NewKeyWatcherHears(reg: Registry, rules: Rules, id: string, watcher: Watcher, bufferSize: nat,
                           events: seq<Event>)
    requires rules.canRead(watcher.policies, watcher.pattern)
    requires forall i :: 0 <= i < |events| ==> events[i].key == watcher.pattern
    ensures var after := NotifiedAll(Added(reg, id, watcher, bufferSize), rules, events);
            id in after.channels
            && after.channels[id].buf == if |events| <= bufferSize then events else events[..bufferSize]
  {
    PatternMatchesIff(rules, watcher.pattern, watcher.pattern);
    NewChannelHolds(reg, rules, id, watcher, bufferSize, events);
  }

  /** The limit refuses a named user exactly when a positive limit is reached by the watchers that are registered. */
  lemma LimitReachedIff(reg: Registry, userID: string, maxPerClient: int)
    requires RegistryOk(reg, maxPerClient)
    ensures LimitReached(reg, userID, maxPerClient) <==>
            userID != "" && maxPerClient > 0
            && |set id | id in reg.watchers && reg.watchers[id].userID == userID| >= maxPerClient
  {
    assert WatchersOf(reg.watchers, userID) == set id | id in reg.watchers && reg.watchers[id].userID == userID;
  }
}
