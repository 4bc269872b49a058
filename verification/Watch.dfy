/**
 The watch registry: watchers by id, ids by pattern, counts by client, and the bounded event channels.
 A channel outlives its registration, because its receiver may still drain it; it is modelled in a map of its own.
 */
module Watch {
  import opened Prelude

  datatype Kind = SetKind | DeleteKind

  datatype Event = Event(kind: Kind, key: string, value: string, oldValue: string)

  datatype Watcher = Watcher(pattern: string, policies: seq<string>, userID: string)

  datatype Chan = Chan(buf: seq<Event>, cap: nat, closed: bool)

  datatype Registry = Registry(
    watchers: map<string, Watcher>,
    patterns: map<string, seq<string>>,
    clientCounts: map<string, nat>,
    channels: map<string, Chan>)

  /** What the registry takes from elsewhere: the permission check and the single-level wildcard match. */
  datatype Rules = Rules(canRead: (seq<string>, string) -> bool, globMatch: (string, string) -> bool)

  const EMPTY := Registry(map[], map[], map[], map[])

  // ---- Patterns ------------------------------------------------------------------------------------------------

  predicate HasSuffix(s: string, suffix: string) {
    |suffix| <= |s| && s[|s| - |suffix|..] == suffix
  }

  function TrimSuffix(s: string, suffix: string): string {
    if HasSuffix(s, suffix) then s[..|s| - |suffix|] else s
  }

  predicate MatchesPattern(rules: Rules, key: string, pattern: string) {
    if key == pattern then true
    else if !Contains(pattern, "*") then false
    else if Contains(pattern, "**") then StartsWith(key, TrimSuffix(pattern, "**"))
    else rules.globMatch(pattern, key)
  }

  /** A trailing `**` matches exactly the keys that start with what precedes it. */
  lemma TrailingDoubleStar(rules: Rules, key: string, prefix: string)
    ensures MatchesPattern(rules, key, prefix + "**") <==> StartsWith(key, prefix)
  {
    var pattern := prefix + "**";
    assert pattern[|prefix|..] == "**";
    assert StartsWith(pattern[|prefix|..], "**") && StartsWith(pattern[|prefix|..], "*");
    assert Contains(pattern, "*") && Contains(pattern, "**");
    assert TrimSuffix(pattern, "**") == prefix;
    if key == pattern {
      assert StartsWith(key, prefix);
    }
  }

  // ---- Operations on values ------------------------------------------------------------------------------------

  function IdsOf(patterns: map<string, seq<string>>, pattern: string): seq<string> {
    if pattern in patterns then patterns[pattern] else []
  }

  function CountOf(counts: map<string, nat>, user: string): nat {
    if user in counts then counts[user] else 0
  }

  predicate LimitReached(reg: Registry, userID: string, maxPerClient: int) {
    maxPerClient > 0 && userID != "" && CountOf(reg.clientCounts, userID) >= maxPerClient
  }

  function Added(reg: Registry, id: string, watcher: Watcher, bufferSize: nat): Registry {
    Registry(
      reg.watchers[id := watcher],
      reg.patterns[watcher.pattern := IdsOf(reg.patterns, watcher.pattern) + [id]],
      if watcher.userID != "" then reg.clientCounts[watcher.userID := CountOf(reg.clientCounts, watcher.userID) + 1]
      else reg.clientCounts,
      reg.channels[id := Chan([], bufferSize, false)])
  }

  function Removed(reg: Registry, id: string): Registry {
    if id !in reg.watchers then reg
    else
      var w := reg.watchers[id];
      var ids := RemoveFirst(IdsOf(reg.patterns, w.pattern), id);
      var left := CountOf(reg.clientCounts, w.userID) - 1;
      Registry(
        reg.watchers - {id},
        if |ids| == 0 then reg.patterns - {w.pattern} else reg.patterns[w.pattern := ids],
        if w.userID == "" then reg.clientCounts
        else if left <= 0 then reg.clientCounts - {w.userID} else reg.clientCounts[w.userID := left],
        if id in reg.channels then reg.channels[id := reg.channels[id].(closed := true)] else reg.channels)
  }

  predicate Concerns(reg: Registry, rules: Rules, id: string, key: string) {
    && id in reg.watchers
    && MatchesPattern(rules, key, reg.watchers[id].pattern)
    && rules.canRead(reg.watchers[id].policies, key)
  }

  /** A non-blocking send: a full channel drops the event. */
  function Pushed(ch: Chan, event: Event): Chan {
    if |ch.buf| < ch.cap then ch.(buf := ch.buf + [event]) else ch
  }

  function Notified(reg: Registry, rules: Rules, event: Event): Registry {
    reg.(channels := map id | id in reg.channels ::
           if Concerns(reg, rules, id, event.key) then Pushed(reg.channels[id], event) else reg.channels[id])
  }

  function NotifiedAll(reg: Registry, rules: Rules, events: seq<Event>): Registry {
    if |events| == 0 then reg
    else Notified(NotifiedAll(reg, rules, events[..|events| - 1]), rules, events[|events| - 1])
  }

  lemma NotifiedOneMore(reg: Registry, rules: Rules, events: seq<Event>, i: nat)
    requires i < |events|
    ensures NotifiedAll(reg, rules, events[..i + 1]) == Notified(NotifiedAll(reg, rules, events[..i]), rules, events[i])
  {
    assert events[..i + 1][..i] == events[..i];
  }

  function AllClosed(reg: Registry): Registry {
    Registry(map[], map[], map[],
      map id | id in reg.channels :: if id in reg.watchers then reg.channels[id].(closed := true) else reg.channels[id])
  }

  /** The receiver takes the oldest buffered event. */
  function Received(reg: Registry, id: string): (Registry, Option<Event>) {
    if id in reg.channels && |reg.channels[id].buf| > 0 then
      (reg.(channels := reg.channels[id := reg.channels[id].(buf := reg.channels[id].buf[1..])]),
       Some(reg.channels[id].buf[0]))
    else (reg, None)
  }

  // ---- Consistency ---------------------------------------------------------------------------------------------

  function WatchersOf(watchers: map<string, Watcher>, user: string): set<string> {
    set id | id in watchers && watchers[id].userID == user
  }

  /** Every id is listed once, under its own pattern and nowhere else; no pattern list is empty. */
  ghost predicate PatternsOk(reg: Registry) {
    && (forall p :: p in reg.patterns ==> |reg.patterns[p]| > 0 && NoDup(reg.patterns[p]))
    && (forall p, id :: p in reg.patterns && id in reg.patterns[p] ==>
          id in reg.watchers && reg.watchers[id].pattern == p)
    && (forall id :: id in reg.watchers ==> id in IdsOf(reg.patterns, reg.watchers[id].pattern))
  }

  /** Counts are exact, never zero, never for the anonymous user, and within a positive limit. */
  ghost predicate CountsOk(reg: Registry, maxPerClient: int) {
    && (forall u :: u != "" ==> CountOf(reg.clientCounts, u) == |WatchersOf(reg.watchers, u)|)
    && (forall u :: u in reg.clientCounts ==> u != "" && reg.clientCounts[u] > 0)
    && (maxPerClient > 0 ==> forall u :: u in reg.clientCounts ==> reg.clientCounts[u] <= maxPerClient)
  }

  /** Exactly the channels of registered watchers are open; no buffer exceeds its capacity. */
  ghost predicate ChannelsOk(reg: Registry) {
    && (forall id :: id in reg.watchers ==> id in reg.channels && !reg.channels[id].closed)
    && (forall id :: id in reg.channels && id !in reg.watchers ==> reg.channels[id].closed)
    && (forall id :: id in reg.channels ==> |reg.channels[id].buf| <= reg.channels[id].cap)
  }

  ghost predicate RegistryOk(reg: Registry, maxPerClient: int) {
    PatternsOk(reg) && CountsOk(reg, maxPerClient) && ChannelsOk(reg)
  }

  lemma AddKeepsPatterns(reg: Registry, id: string, watcher: Watcher, bufferSize: nat)
    requires PatternsOk(reg) && ChannelsOk(reg) && id !in reg.channels
    ensures PatternsOk(Added(reg, id, watcher, bufferSize))
  {
    var next := Added(reg, id, watcher, bufferSize);
    assert id !in IdsOf(reg.patterns, watcher.pattern);
    assert next.patterns[watcher.pattern] == IdsOf(reg.patterns, watcher.pattern) + [id];
  }

  lemma AddKeepsCounts(reg: Registry, id: string, watcher: Watcher, bufferSize: nat, maxPerClient: int)
    requires CountsOk(reg, maxPerClient) && ChannelsOk(reg) && id !in reg.channels
    requires !LimitReached(reg, watcher.userID, maxPerClient)
    ensures CountsOk(Added(reg, id, watcher, bufferSize), maxPerClient)
  {
    var next := Added(reg, id, watcher, bufferSize);
    var user := watcher.userID;
    assert next.watchers == reg.watchers[id := watcher];
    forall u | u != "" ensures CountOf(next.clientCounts, u) == |WatchersOf(next.watchers, u)| {
      WatchersOneMore(reg.watchers, id, watcher, u);
      assert CountOf(next.clientCounts, u) == CountOf(reg.clientCounts, u) + (if u == user then 1 else 0);
    }
    if maxPerClient > 0 {
      forall u | u in next.clientCounts ensures next.clientCounts[u] <= maxPerClient {
        assert u == user ==> CountOf(reg.clientCounts, user) < maxPerClient;
      }
    }
  }

  lemma WatchersOneMore(watchers: map<string, Watcher>, id: string, watcher: Watcher, user: string)
    requires id !in watchers
    ensures |WatchersOf(watchers[id := watcher], user)| ==
            |WatchersOf(watchers, user)| + (if user == watcher.userID then 1 else 0)
  {
    assert WatchersOf(watchers[id := watcher], user) ==
           WatchersOf(watchers, user) + (if user == watcher.userID then {id} else {});
  }

  lemma WatchersOneLess(watchers: map<string, Watcher>, id: string, user: string)
    requires id in watchers
    ensures |WatchersOf(watchers - {id}, user)| ==
            |WatchersOf(watchers, user)| - (if user == watchers[id].userID then 1 else 0)
  {
    assert WatchersOf(watchers - {id}, user) == WatchersOf(watchers, user) - {id};
  }

  lemma AddKeepsRegistry(reg: Registry, id: string, watcher: Watcher, bufferSize: nat, maxPerClient: int)
    requires RegistryOk(reg, maxPerClient) && id !in reg.channels
    requires !LimitReached(reg, watcher.userID, maxPerClient)
    ensures RegistryOk(Added(reg, id, watcher, bufferSize), maxPerClient)
  {
    AddKeepsPatterns(reg, id, watcher, bufferSize);
    AddKeepsCounts(reg, id, watcher, bufferSize, maxPerClient);
  }

  lemma RemoveKeepsPatterns(reg: Registry, id: string)
    requires PatternsOk(reg) && id in reg.watchers
    ensures PatternsOk(Removed(reg, id))
  {
    var w := reg.watchers[id];
    var ids := RemoveFirst(IdsOf(reg.patterns, w.pattern), id);
    var next := Removed(reg, id);
    RemoveFirstContents(IdsOf(reg.patterns, w.pattern), id);
    UnlistedKeepsPatterns(reg, next, id, w.pattern, ids);
  }

  lemma UnlistedKeepsPatterns(reg: Registry, next: Registry, id: string, pattern: string, ids: seq<string>)
    requires PatternsOk(reg) && id in reg.watchers && reg.watchers[id].pattern == pattern
    requires NoDup(ids) && forall x :: x in ids <==> x in IdsOf(reg.patterns, pattern) && x != id
    requires next.watchers == reg.watchers - {id}
    requires next.patterns == if |ids| == 0 then reg.patterns - {pattern} else reg.patterns[pattern := ids]
    ensures PatternsOk(next)
  {
    forall p | p in next.patterns
      ensures |next.patterns[p]| > 0 && NoDup(next.patterns[p])
      ensures forall x :: x in next.patterns[p] ==> x in next.watchers && next.watchers[x].pattern == p
    {
      LeftInBucket(reg, next, id, pattern, ids, p);
    }
    forall x | x in next.watchers ensures x in IdsOf(next.patterns, next.watchers[x].pattern) {
      StillListed(reg, next, id, pattern, ids, x);
    }
  }

  lemma LeftInBucket(reg: Registry, next: Registry, id: string, pattern: string, ids: seq<string>, p: string)
    requires PatternsOk(reg) && NoDup(ids) && p in next.patterns
    requires forall x :: x in ids ==> x in IdsOf(reg.patterns, pattern) && x != id
    requires next.watchers == reg.watchers - {id} && id in reg.watchers && reg.watchers[id].pattern == pattern
    requires next.patterns == if |ids| == 0 then reg.patterns - {pattern} else reg.patterns[pattern := ids]
    ensures |next.patterns[p]| > 0 && NoDup(next.patterns[p])
    ensures forall x :: x in next.patterns[p] ==> x in next.watchers && next.watchers[x].pattern == p
  {
    forall x | x in next.patterns[p] ensures x in next.watchers && next.watchers[x].pattern == p {
      if p == pattern {
        assert x in reg.patterns[p];
      }
    }
  }

  lemma StillListed(reg: Registry, next: Registry, id: string, pattern: string, ids: seq<string>, x: string)
    requires PatternsOk(reg) && x in reg.watchers && x != id
    requires x in IdsOf(reg.patterns, pattern) ==> x in ids
    requires next.watchers == reg.watchers - {id}
    requires next.patterns == if |ids| == 0 then reg.patterns - {pattern} else reg.patterns[pattern := ids]
    ensures x in IdsOf(next.patterns, next.watchers[x].pattern)
  {
    BucketAfterRemoval(reg.patterns, pattern, ids, next.watchers[x].pattern);
  }

  lemma BucketAfterRemoval(patterns: map<string, seq<string>>, pattern: string, ids: seq<string>, p: string)
    ensures IdsOf(if |ids| == 0 then patterns - {pattern} else patterns[pattern := ids], p)
         == if p == pattern then ids else IdsOf(patterns, p)
  {
  }

  lemma RemoveKeepsCounts(reg: Registry, id: string, maxPerClient: int)
    requires CountsOk(reg, maxPerClient) && id in reg.watchers
    ensures CountsOk(Removed(reg, id), maxPerClient)
  {
    var next := Removed(reg, id);
    var user := reg.watchers[id].userID;
    WatchersOneLess(reg.watchers, id, user);
    forall u | u != "" ensures CountOf(next.clientCounts, u) == |WatchersOf(next.watchers, u)| {
      WatchersOneLess(reg.watchers, id, u);
      assert CountOf(next.clientCounts, u) == CountOf(reg.clientCounts, u) - (if u == user then 1 else 0);
    }
  }

  lemma RemoveKeepsRegistry(reg: Registry, id: string, maxPerClient: int)
    requires RegistryOk(reg, maxPerClient)
    ensures RegistryOk(Removed(reg, id), maxPerClient)
  {
    if id in reg.watchers {
      RemoveKeepsPatterns(reg, id);
      RemoveKeepsCounts(reg, id, maxPerClient);
    }
  }

  lemma ReceiveKeepsRegistry(reg: Registry, id: string, maxPerClient: int)
    requires RegistryOk(reg, maxPerClient)
    ensures RegistryOk(Received(reg, id).0, maxPerClient)
  {
  }

  lemma NotifyKeepsRegistry(reg: Registry, rules: Rules, event: Event, maxPerClient: int)
    requires RegistryOk(reg, maxPerClient)
    ensures RegistryOk(Notified(reg, rules, event), maxPerClient)
  {
  }

  lemma CloseKeepsRegistry(reg: Registry, maxPerClient: int)
    requires RegistryOk(reg, maxPerClient)
    ensures RegistryOk(AllClosed(reg), maxPerClient)
  {
    forall u ensures WatchersOf(map[], u) == {} {
    }
  }

  // ---- Any interleaving of operations --------------------------------------------------------------------------

  datatype Op =
    | OpAdd(id: string, watcher: Watcher)
    | OpRemove(id: string)
    | OpNotify(event: Event)
    | OpClose
    | OpReceive(id: string)

  function AfterOp(reg: Registry, op: Op, rules: Rules, bufferSize: nat, maxPerClient: int): Registry {
    match op
    case OpAdd(id, watcher) =>
      if LimitReached(reg, watcher.userID, maxPerClient) then reg else Added(reg, id, watcher, bufferSize)
    case OpRemove(id) => Removed(reg, id)
    case OpNotify(event) => Notified(reg, rules, event)
    case OpClose => AllClosed(reg)
    case OpReceive(id) => Received(reg, id).0
  }

  function AfterOps(ops: seq<Op>, n: nat, rules: Rules, bufferSize: nat, maxPerClient: int): Registry
    requires n <= |ops|
  {
    if n == 0 then EMPTY
    else AfterOp(AfterOps(ops, n - 1, rules, bufferSize, maxPerClient), ops[n - 1], rules, bufferSize, maxPerClient)
  }

  /** Identifiers are fresh: no two additions of the run use the same one. */
  ghost predicate FreshIds(ops: seq<Op>) {
    forall i, j :: 0 <= i < j < |ops| && ops[i].OpAdd? && ops[j].OpAdd? ==> ops[i].id != ops[j].id
  }

  lemma {:induction false} ChannelsComeFromAdds(ops: seq<Op>, n: nat, rules: Rules, bufferSize: nat,
                                                maxPerClient: int, id: string)
    requires n <= |ops| && id in AfterOps(ops, n, rules, bufferSize, maxPerClient).channels
    ensures exists i :: 0 <= i < n && ops[i].OpAdd? && ops[i].id == id
  {
    if n > 0 {
      if id in AfterOps(ops, n - 1, rules, bufferSize, maxPerClient).channels {
        ChannelsComeFromAdds(ops, n - 1, rules, bufferSize, maxPerClient, id);
      } else {
        assert ops[n - 1].OpAdd? && ops[n - 1].id == id;
      }
    }
  }

  lemma OpKeepsRegistry(reg: Registry, op: Op, rules: Rules, bufferSize: nat, maxPerClient: int)
    requires RegistryOk(reg, maxPerClient) && (op.OpAdd? ==> op.id !in reg.channels)
    ensures RegistryOk(AfterOp(reg, op, rules, bufferSize, maxPerClient), maxPerClient)
  {
    match op {
      case OpAdd(id, watcher) =>
        if !LimitReached(reg, watcher.userID, maxPerClient) {
          AddKeepsRegistry(reg, id, watcher, bufferSize, maxPerClient);
        }
      case OpRemove(id) => RemoveKeepsRegistry(reg, id, maxPerClient);
      case OpClose => CloseKeepsRegistry(reg, maxPerClient);
      case OpNotify(event) => NotifyKeepsRegistry(reg, rules, event, maxPerClient);
      case OpReceive(id) => ReceiveKeepsRegistry(reg, id, maxPerClient);
    }
  }

  /** The registry is consistent after every interleaving of additions, removals, notifications, receives and closes. */
  lemma {:induction false} EveryInterleavingIsConsistent(ops: seq<Op>, n: nat, rules: Rules, bufferSize: nat,
                                                         maxPerClient: int)
    requires n <= |ops| && FreshIds(ops)
    ensures RegistryOk(AfterOps(ops, n, rules, bufferSize, maxPerClient), maxPerClient)
  {
    if n == 0 {
      EmptyRegistryOk(maxPerClient);
    } else {
      EveryInterleavingIsConsistent(ops, n - 1, rules, bufferSize, maxPerClient);
      var reg := AfterOps(ops, n - 1, rules, bufferSize, maxPerClient);
      if ops[n - 1].OpAdd? && ops[n - 1].id in reg.channels {
        ChannelsComeFromAdds(ops, n - 1, rules, bufferSize, maxPerClient, ops[n - 1].id);
      }
      OpKeepsRegistry(reg, ops[n - 1], rules, bufferSize, maxPerClient);
    }
  }

  lemma EmptyRegistryOk(maxPerClient: int)
    ensures RegistryOk(EMPTY, maxPerClient)
  {
    forall u ensures WatchersOf(map[], u) == {} {
    }
  }

  /** Once closed, a channel is never opened, written or closed again: only its receiver still drains it. */
  lemma ClosedChannelsOnlyDrain(reg: Registry, op: Op, rules: Rules, bufferSize: nat, maxPerClient: int, id: string)
    requires RegistryOk(reg, maxPerClient) && id in reg.channels && reg.channels[id].closed
    requires op.OpAdd? ==> op.id !in reg.channels
    ensures var next := AfterOp(reg, op, rules, bufferSize, maxPerClient);
            && id !in reg.watchers && id !in next.watchers && id in next.channels && next.channels[id].closed
            && (next.channels[id] == reg.channels[id]
                || (op == OpReceive(id) && next.channels[id].buf == reg.channels[id].buf[1..]))
  {
    if op == OpReceive(id) && |reg.channels[id].buf| == 0 {
      assert Received(reg, id).0 == reg;
    }
  }

  /** One notification enqueues at most one copy per watcher: exactly one when it concerns the watcher and there is
      room, none otherwise. */
  lemma AtMostOneCopy(reg: Registry, rules: Rules, event: Event, id: string)
    requires id in reg.channels
    ensures var (before, after) := (reg.channels[id].buf, Notified(reg, rules, event).channels[id].buf);
            if Concerns(reg, rules, id, event.key) && |before| < reg.channels[id].cap then after == before + [event]
            else after == before
  {
  }
}
