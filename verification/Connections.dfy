/**
 Connection counters. They are kept under a text that joins name, address and port, so two instances share a counter
 when their texts coincide.
 */
module Connections {
  import opened Prelude
  import opened ServiceTypes
  import opened HashRing

  // ---- The key -------------------------------------------------------------------------------------------------

  predicate IsCodePoint(r: int) {
    0 <= r < 0xD800 || 0xE000 <= r <= 0x10FFFF
  }

  /** Go's `string(rune(port))`: the low 32 bits are taken for a code point, and what is none becomes U+FFFD. */
  function PortChar(port: int): char {
    var r := port % 0x1_0000_0000;
    if IsCodePoint(r) then r as char else '\U{FFFD}'
  }

  function InstanceKey(svc: Service): string {
    NodeText(svc) + ":" + [PortChar(svc.port)]
  }

  /** The second name goes on where the first one ends, up to a later colon of the joined text. */
  ghost predicate ColonMoved(a: Service, b: Service) {
    exists m :: b.name == a.name + ":" + m && a.address == m + ":" + b.address
  }

  predicate SameInstance(a: Service, b: Service) {
    a.name == b.name && a.address == b.address && a.port == b.port
  }

  /** A port that is printed as U+FFFD: a surrogate, no code point at all, or that character itself. */
  predicate Unprintable(port: int) {
    var r := port % 0x1_0000_0000;
    0xD800 <= r <= 0xDFFF || r > 0x10FFFF || r == 0xFFFD
  }

  lemma SamePortCharIff(p: int, q: int)
    ensures PortChar(p) == PortChar(q) <==>
            p % 0x1_0000_0000 == q % 0x1_0000_0000 || (Unprintable(p) && Unprintable(q))
  {
    assert PortChar(p) as int == if Unprintable(p) then 0xFFFD else p % 0x1_0000_0000;
    assert PortChar(q) as int == if Unprintable(q) then 0xFFFD else q % 0x1_0000_0000;
  }

  lemma LongerNameMoves(a: Service, b: Service)
    requires NodeText(a) == NodeText(b) && |a.name| < |b.name|
    ensures ColonMoved(a, b)
  {
    var n := |a.name|;
    var m := b.name[n + 1..];
    assert a.name == NodeText(a)[..n] == b.name[..n];
    assert NodeText(a)[n] == ':' == b.name[n];
    assert b.name == a.name + ":" + m;
    assert a.address == NodeText(a)[n + 1..] == NodeText(b)[n + 1..] == m + ":" + b.address;
  }

  lemma MovedSharesText(a: Service, b: Service)
    requires ColonMoved(a, b)
    ensures NodeText(a) == NodeText(b)
  {
    var m :| b.name == a.name + ":" + m && a.address == m + ":" + b.address;
    assert a.name + ":" + (m + ":" + b.address) == (a.name + ":" + m) + ":" + b.address;
  }

  /** The texts of name and address coincide exactly when both parts do, or a colon moved between them. */
  lemma SameNodeTextIff(a: Service, b: Service)
    ensures NodeText(a) == NodeText(b) <==>
            (a.name == b.name && a.address == b.address) || ColonMoved(a, b) || ColonMoved(b, a)
  {
    if ColonMoved(a, b) {
      MovedSharesText(a, b);
    } else if ColonMoved(b, a) {
      MovedSharesText(b, a);
    } else if NodeText(a) == NodeText(b) {
      if |a.name| < |b.name| {
        LongerNameMoves(a, b);
      } else if |b.name| < |a.name| {
        LongerNameMoves(b, a);
      } else {
        assert a.name == NodeText(a)[..|a.name|] == b.name;
        assert a.address == NodeText(a)[|a.name| + 1..] == b.address;
      }
    }
  }

  /** The exact condition for two services to share a counter. */
  lemma SharedCounterIff(a: Service, b: Service)
    ensures InstanceKey(a) == InstanceKey(b) <==>
            && ((a.name == b.name && a.address == b.address) || ColonMoved(a, b) || ColonMoved(b, a))
            && (a.port % 0x1_0000_0000 == b.port % 0x1_0000_0000 || (Unprintable(a.port) && Unprintable(b.port)))
  {
    SameNodeTextIff(a, b);
    SamePortCharIff(a.port, b.port);
    var s, t := NodeText(a) + ":", NodeText(b) + ":";
    assert InstanceKey(a) == s + [PortChar(a.port)] && InstanceKey(b) == t + [PortChar(b.port)];
    if InstanceKey(a) == InstanceKey(b) {
      assert s == InstanceKey(a)[..|s|] == t;
      assert NodeText(a) == s[..|s| - 1] == NodeText(b);
      assert InstanceKey(a)[|s|] == PortChar(a.port) == PortChar(b.port);
    }
  }

  // ---- The counters --------------------------------------------------------------------------------------------

  /** A text without a counter has no connections. */
  function Count(connections: map<string, int>, key: string): int {
    if key in connections then connections[key] else 0
  }

  function Conns(connections: map<string, int>, svc: Service): int {
    Count(connections, InstanceKey(svc))
  }

  function Incremented(connections: map<string, int>, svc: Service): map<string, int> {
    connections[InstanceKey(svc) := Conns(connections, svc) + 1]
  }

  function Decremented(connections: map<string, int>, svc: Service): map<string, int> {
    if Conns(connections, svc) > 0 then connections[InstanceKey(svc) := Conns(connections, svc) - 1] else connections
  }

  function KeysOf(instances: seq<Service>): (keys: seq<string>)
    ensures |keys| == |instances| && forall i :: 0 <= i < |keys| ==> keys[i] == InstanceKey(instances[i])
  {
    seq(|instances|, i requires 0 <= i < |instances| => InstanceKey(instances[i]))
  }

  function CountsOf(connections: map<string, int>, keys: seq<string>): (counts: seq<int>)
    ensures |counts| == |keys| && forall i :: 0 <= i < |keys| ==> counts[i] == Count(connections, keys[i])
  {
    seq(|keys|, i requires 0 <= i < |keys| => Count(connections, keys[i]))
  }

  /** The first smallest element. */
  predicate IsFirstMin(s: seq<int>, p: nat) {
    && p < |s|
    && (forall i :: 0 <= i < |s| ==> s[p] <= s[i])
    && (forall i :: 0 <= i < p ==> s[p] < s[i])
  }

  /** The scan over the first `i` counts has found the first smallest of them. */
  predicate Scanned(counts: seq<int>, i: nat, p: nat, smallest: int) {
    i <= |counts| && (i > 0 ==> IsFirstMin(counts[..i], p) && smallest == counts[p])
  }

  lemma ScanOneMore(counts: seq<int>, i: nat, p: nat, smallest: int)
    requires i < |counts| && Scanned(counts, i, p, smallest)
    ensures if i == 0 || counts[i] < smallest then Scanned(counts, i + 1, i, counts[i])
            else Scanned(counts, i + 1, p, smallest)
  {
  }

  lemma ScannedAll(counts: seq<int>, p: nat, smallest: int)
    requires |counts| > 0 && Scanned(counts, |counts|, p, smallest)
    ensures IsFirstMin(counts, p)
  {
    assert counts[..|counts|] == counts;
  }

  /** The counters after some were read: no count differs, and those read are there. */
  ghost predicate AfterReading(before: map<string, int>, after: map<string, int>, keys: seq<string>) {
    && (forall key :: Count(after, key) == Count(before, key))
    && (forall key :: key in after <==> key in before || key in keys)
  }

  ghost predicate AfterReadingFirst(before: map<string, int>, after: map<string, int>, keys: seq<string>, i: nat) {
    i <= |keys| && AfterReading(before, after, keys[..i])
  }

  lemma ReadingStarts(counters: map<string, int>, keys: seq<string>)
    ensures AfterReadingFirst(counters, counters, keys, 0)
  {
  }

  lemma OneMoreRead(before: map<string, int>, between: map<string, int>, after: map<string, int>, keys: seq<string>,
                    i: nat)
    requires i < |keys| && AfterReadingFirst(before, between, keys, i) && AfterReading(between, after, [keys[i]])
    ensures AfterReadingFirst(before, after, keys, i + 1)
    ensures Count(between, keys[i]) == Count(before, keys[i])
  {
    assert keys[..i + 1] == keys[..i] + [keys[i]];
  }

  lemma ReadAll(before: map<string, int>, after: map<string, int>, keys: seq<string>)
    requires AfterReadingFirst(before, after, keys, |keys|)
    ensures AfterReading(before, after, keys)
  {
    assert keys[..|keys|] == keys;
  }

  predicate NoNegativeCounts(connections: map<string, int>) {
    forall k :: k in connections ==> connections[k] >= 0
  }

  datatype Traffic = Open(svc: Service) | Finish(svc: Service)

  function AfterTraffic(connections: map<string, int>, events: seq<Traffic>): map<string, int> {
    if |events| == 0 then connections
    else
      var before := AfterTraffic(connections, events[..|events| - 1]);
      match events[|events| - 1]
      case Open(svc) => Incremented(before, svc)
      case Finish(svc) => Decremented(before, svc)
  }

  /** Requests opened and not finished, over the services that `counted` picks out. */
  function InFlight(events: seq<Traffic>, counted: Service -> bool): int {
    if |events| == 0 then 0
    else
      var last := events[|events| - 1];
      InFlight(events[..|events| - 1], counted) + (if !counted(last.svc) then 0 else if last.Open? then 1 else -1)
  }

  function OnCounterOf(svc: Service): Service -> bool {
    other => InstanceKey(other) == InstanceKey(svc)
  }

  function ItselfOnly(svc: Service): Service -> bool {
    other => SameInstance(other, svc)
  }

  /** No moment at which more requests were finished than opened. */
  ghost predicate NeverNegative(events: seq<Traffic>, counted: Service -> bool) {
    forall n :: 0 <= n <= |events| ==> InFlight(events[..n], counted) >= 0
  }

  lemma NeverNegativeBefore(events: seq<Traffic>, counted: Service -> bool)
    requires NeverNegative(events, counted) && |events| > 0
    ensures NeverNegative(events[..|events| - 1], counted) && InFlight(events, counted) >= 0
  {
    var before := events[..|events| - 1];
    forall n | 0 <= n <= |before| ensures InFlight(before[..n], counted) >= 0 {
      assert before[..n] == events[..n];
    }
    assert events[..|events|] == events;
  }

  /** A counter is the number of requests in flight over all services that share it. */
  lemma {:induction false} CountersAreInFlight(events: seq<Traffic>, svc: Service)
    requires NeverNegative(events, OnCounterOf(svc))
    ensures Conns(AfterTraffic(map[], events), svc) == InFlight(events, OnCounterOf(svc))
  {
    if |events| > 0 {
      NeverNegativeBefore(events, OnCounterOf(svc));
      CountersAreInFlight(events[..|events| - 1], svc);
    }
  }

  // ---- When a counter is an instance's own ---------------------------------------------------------------------

  /** Requests to services of the pool, none of which finishes more than it opened. */
  ghost predicate IsTraffic(pool: set<Service>, events: seq<Traffic>) {
    && (forall i :: 0 <= i < |events| ==> events[i].svc in pool)
    && forall svc :: svc in pool ==> NeverNegative(events, ItselfOnly(svc))
  }

  /** The counter of `svc` tells how many of its own requests are in flight, whatever the traffic. */
  ghost predicate CountsItsOwn(pool: set<Service>, svc: Service) {
    forall events :: IsTraffic(pool, events) ==>
      Conns(AfterTraffic(map[], events), svc) == InFlight(events, ItselfOnly(svc))
  }

  lemma {:induction false} SameCount(events: seq<Traffic>, p: Service -> bool, q: Service -> bool)
    requires forall i :: 0 <= i < |events| ==> p(events[i].svc) == q(events[i].svc)
    ensures InFlight(events, p) == InFlight(events, q)
  {
    if |events| > 0 {
      SameCount(events[..|events| - 1], p, q);
    }
  }

  lemma AloneCountsItsOwn(pool: set<Service>, svc: Service, events: seq<Traffic>)
    requires svc in pool && IsTraffic(pool, events)
    requires forall other :: other in pool && InstanceKey(other) == InstanceKey(svc) ==> SameInstance(other, svc)
    ensures Conns(AfterTraffic(map[], events), svc) == InFlight(events, ItselfOnly(svc))
  {
    forall n | 0 <= n <= |events|
      ensures InFlight(events[..n], OnCounterOf(svc)) == InFlight(events[..n], ItselfOnly(svc))
    {
      SameCount(events[..n], OnCounterOf(svc), ItselfOnly(svc));
    }
    assert events[..|events|] == events;
    CountersAreInFlight(events, svc);
  }

  lemma OneRequestIsTraffic(pool: set<Service>, other: Service)
    requires other in pool
    ensures IsTraffic(pool, [Open(other)])
  {
    var events := [Open(other)];
    forall svc, n | svc in pool && 0 <= n <= 1 ensures InFlight(events[..n], ItselfOnly(svc)) >= 0 {
      if n == 1 {
        assert events[..1] == events && events[..0] == [];
        assert InFlight(events[..0], ItselfOnly(svc)) == 0;
      }
    }
  }

  /** The exact condition: a counter is an instance's own exactly when no other instance has the same key text. */
  lemma CountsItsOwnIff(pool: set<Service>, svc: Service)
    requires svc in pool
    ensures CountsItsOwn(pool, svc) <==>
            forall other :: other in pool && InstanceKey(other) == InstanceKey(svc) ==> SameInstance(other, svc)
  {
    forall other | other in pool && InstanceKey(other) == InstanceKey(svc) && !SameInstance(other, svc)
      ensures !CountsItsOwn(pool, svc)
    {
      var events := [Open(other)];
      OneRequestIsTraffic(pool, other);
      assert events[..0] == [] && AfterTraffic(map[], events[..0]) == map[];
      assert InFlight(events[..0], ItselfOnly(svc)) == 0;
      assert Conns(AfterTraffic(map[], events), svc) == 1 && InFlight(events, ItselfOnly(svc)) == 0;
    }
    if forall other :: other in pool && InstanceKey(other) == InstanceKey(svc) ==> SameInstance(other, svc) {
      forall events | IsTraffic(pool, events)
        ensures Conns(AfterTraffic(map[], events), svc) == InFlight(events, ItselfOnly(svc))
      {
        AloneCountsItsOwn(pool, svc, events);
      }
    }
  }
}
