/** The table of cached rings: when a ring is reused, where it sends keys, and what every run of calls keeps. */
module RingCache {
  import opened Prelude
  import opened ServiceTypes
  import opened HashRing

  type Rings = map<string, Ring>

  ghost predicate IsCachedRing(hash: string -> nat, ring: Ring) {
    exists origin :: |origin| > 0 && IsRing(ring, hash, origin)
  }

  predicate Reuses(rings: Rings, name: string, count: nat) {
    name in rings && |rings[name].instances| == count
  }

  /** The key goes to the position that the ring's own list gives it, if the present list has that position. */
  ghost predicate RoutesWithin(hash: string -> nat, origin: seq<Service>, k: nat, count: nat, index: Option<nat>) {
    exists i: nat :: Routes(hash, origin, k, i) && index == (if i < count then Some(i) else None)
  }

  lemma RingHasNodes(hash: string -> nat, ring: Ring)
    requires IsCachedRing(hash, ring)
    ensures |ring.nodes| > 0
  {
    var origin :| |origin| > 0 && IsRing(ring, hash, origin);
    assert IsNodeOf(hash, origin, 0, 0, NodeHash(hash, origin, 0, 0));
    assert NodeHash(hash, origin, 0, 0) in ring.nodes;
  }

  lemma FoundNodeRoutes(hash: string -> nat, ring: Ring, origin: seq<Service>, k: nat, p: nat)
    requires IsRing(ring, hash, origin) && p in ring.nodes
    requires (p >= k && forall q :: q in ring.nodes && q >= k ==> p <= q)
             || forall q :: q in ring.nodes ==> q < k && p <= q
    ensures p in ring.instances && Routes(hash, origin, k, ring.instances[p]) && ring.instances[p] < |origin|
  {
    assert IsSuccessor(hash, origin, k, p);
    assert Owns(hash, origin, ring.instances[p], p);
  }

  /** A position on a ring is one of the ring's own list. */
  lemma RoutesInRange(hash: string -> nat, origin: seq<Service>, k: nat, count: nat, index: Option<nat>)
    requires RoutesWithin(hash, origin, k, count, index) && |origin| <= count
    ensures index.Some? && Routes(hash, origin, k, index.value)
  {
    var i: nat :| Routes(hash, origin, k, i) && index == (if i < count then Some(i) else None);
    var p :| IsSuccessor(hash, origin, k, p) && Owns(hash, origin, i, p);
  }

  // ---- Staying inside the present list -------------------------------------------------------------------------

  /** No session key is routed past the end of a list of `count` instances by a ring built from `origin`. */
  ghost predicate StaysInside(hash: string -> nat, origin: seq<Service>, count: nat) {
    forall key, index :: KeyRoutesWithin(hash, origin, key, count, index) ==> index.Some?
  }

  ghost predicate KeyRoutesWithin(hash: string -> nat, origin: seq<Service>, key: string, count: nat,
                                  index: Option<nat>) {
    key != "" && RoutesWithin(hash, origin, hash(key), count, index)
  }

  /** The last instance always owns its nodes, and the names of its nodes are session keys that reach it. */
  lemma LastIsReached(hash: string -> nat, origin: seq<Service>)
    requires |origin| > 0
    ensures var key := NodeKey(origin[|origin| - 1], 0);
            key != "" && Routes(hash, origin, hash(key), |origin| - 1)
  {
    var last := |origin| - 1;
    var p := NodeHash(hash, origin, last, 0);
    assert IsNodeOf(hash, origin, last, 0, p);
    assert IsSuccessor(hash, origin, p, p) && Owns(hash, origin, last, p);
  }

  /** A ring stays inside the present list exactly when that list is not shorter than the one it was built from. */
  lemma StaysInsideIff(hash: string -> nat, origin: seq<Service>, count: nat)
    requires |origin| > 0
    ensures StaysInside(hash, origin, count) <==> |origin| <= count
  {
    if |origin| <= count {
      forall key, index | KeyRoutesWithin(hash, origin, key, count, index) ensures index.Some? {
        RoutesInRange(hash, origin, hash(key), count, index);
      }
    } else {
      LastIsReached(hash, origin);
      var key := NodeKey(origin[|origin| - 1], 0);
      var nowhere: Option<nat> := None;
      assert KeyRoutesWithin(hash, origin, key, count, nowhere);
    }
  }

  /** A ring that was built from a list is reused for that very list exactly when its nodes have as many different
      hashes as it has instances. */
  lemma OwnListIsReusedIff(hash: string -> nat, rings: Rings, name: string, origin: seq<Service>)
    requires name in rings && IsRing(rings[name], hash, origin)
    ensures Reuses(rings, name, |origin|) <==> NodeCount(hash, origin) == |origin|
  {
    RingSize(hash, rings[name], origin);
  }

  /** A list has room for its ring when its nodes have at least as many different hashes as it has instances. */
  predicate Roomy(hash: string -> nat, origin: seq<Service>) {
    |origin| <= NodeCount(hash, origin)
  }

  /** So a ring that is reused stays inside exactly when it was built from such a list. */
  lemma ReuseStaysInsideIff(hash: string -> nat, rings: Rings, name: string, origin: seq<Service>, count: nat)
    requires Reuses(rings, name, count) && IsRing(rings[name], hash, origin) && |origin| > 0
    ensures StaysInside(hash, origin, count) <==> Roomy(hash, origin)
  {
    RingSize(hash, rings[name], origin);
    StaysInsideIff(hash, origin, count);
  }

  /** With collision-free hashes a ring is reused exactly for lists 150 times as long as the one it was built from:
      never for that list itself, and then it stays inside. */
  lemma CacheReuseCondition(hash: string -> nat, rings: Rings, name: string, origin: seq<Service>, count: nat)
    requires name in rings && IsRing(rings[name], hash, origin) && |origin| > 0 && CollisionFree(hash, origin)
    ensures Reuses(rings, name, count) <==> count == 150 * |origin|
    ensures !Reuses(rings, name, |origin|)
    ensures Reuses(rings, name, count) ==> StaysInside(hash, origin, count)
  {
    RingSize(hash, rings[name], origin);
    NodeCountBounds(hash, origin);
    StaysInsideIff(hash, origin, count);
  }

  /** Instances that share one node text: a ring built from more than 150 of them sends every key past the end of every
      list it is reused for. */
  lemma SharedTextOverflows(hash: string -> nat, rings: Rings, name: string, origin: seq<Service>, count: nat, k: nat,
                            index: Option<nat>)
    requires |origin| > 150 && forall i :: 0 <= i < |origin| ==> NodeText(origin[i]) == NodeText(origin[0])
    requires Reuses(rings, name, count) && IsRing(rings[name], hash, origin)
    requires RoutesWithin(hash, origin, k, count, index)
    ensures count <= 150 && index == None
  {
    SharedTextNodeCount(hash, origin);
    RingSize(hash, rings[name], origin);
    var i: nat :| Routes(hash, origin, k, i) && index == (if i < count then Some(i) else None);
    var p :| IsSuccessor(hash, origin, k, p) && Owns(hash, origin, i, p);
    if i < |origin| - 1 {
      EarlierTwinGetsNothing(hash, origin, k, i, |origin| - 1);
    }
  }

  // ---- Runs of calls -------------------------------------------------------------------------------------------

  datatype RingCall = RingCall(name: string, instances: seq<Service>, key: string, draw: nat)

  /** One call: what it answers and what it leaves in the table. */
  ghost predicate RingStep(hash: string -> nat, before: Rings, after: Rings, call: RingCall, index: Option<nat>) {
    var count := |call.instances|;
    if call.key == "" then index == Some(call.draw) && after == before
    else if Reuses(before, call.name, count) then
      && after == before
      && forall origin :: IsRing(before[call.name], hash, origin) ==>
           RoutesWithin(hash, origin, hash(call.key), count, index)
    else
      && index.Some? && Routes(hash, call.instances, hash(call.key), index.value)
      && call.name in after && IsRing(after[call.name], hash, call.instances)
      && after == before[call.name := after[call.name]]
  }

  /** Every ring in the table was built from a list with room for it. */
  ghost predicate RoomyTable(hash: string -> nat, rings: Rings) {
    forall name :: name in rings ==> HasRoomyOrigin(hash, rings[name])
  }

  ghost predicate HasRoomyOrigin(hash: string -> nat, ring: Ring) {
    exists origin :: |origin| > 0 && Roomy(hash, origin) && IsRing(ring, hash, origin)
  }

  lemma CallStaysInside(hash: string -> nat, before: Rings, after: Rings, call: RingCall, index: Option<nat>)
    requires RoomyTable(hash, before) && RingStep(hash, before, after, call, index)
    requires |call.instances| > 0 && Roomy(hash, call.instances)
    ensures RoomyTable(hash, after) && index.Some?
  {
    var count := |call.instances|;
    if call.key != "" && Reuses(before, call.name, count) {
      var origin :| |origin| > 0 && Roomy(hash, origin) && IsRing(before[call.name], hash, origin);
      RingSize(hash, before[call.name], origin);
      RoutesInRange(hash, origin, hash(call.key), count, index);
    }
  }

  /** Tables, calls and answers of a run that starts without rings, on lists from the pool. */
  ghost predicate IsRun(hash: string -> nat, pool: iset<seq<Service>>, tables: seq<Rings>, calls: seq<RingCall>,
                        answers: seq<Option<nat>>) {
    && |tables| == |calls| + 1 && |answers| == |calls| && tables[0] == map[]
    && forall i :: 0 <= i < |calls| ==> IsCallOfRun(hash, pool, tables, calls, answers, i)
  }

  ghost predicate IsCallOfRun(hash: string -> nat, pool: iset<seq<Service>>, tables: seq<Rings>, calls: seq<RingCall>,
                              answers: seq<Option<nat>>, i: nat)
    requires |tables| == |calls| + 1 && |answers| == |calls| && i < |calls|
  {
    calls[i].instances in pool && RingStep(hash, tables[i], tables[i + 1], calls[i], answers[i])
  }

  ghost predicate AllRoomy(hash: string -> nat, pool: iset<seq<Service>>) {
    forall origin :: origin in pool ==> Roomy(hash, origin)
  }

  lemma {:induction false} TableStaysRoomy(hash: string -> nat, pool: iset<seq<Service>>, tables: seq<Rings>,
                                           calls: seq<RingCall>, answers: seq<Option<nat>>, n: nat)
    requires IsRun(hash, pool, tables, calls, answers) && n <= |calls|
    requires [] !in pool && AllRoomy(hash, pool)
    ensures RoomyTable(hash, tables[n])
  {
    if n > 0 {
      TableStaysRoomy(hash, pool, tables, calls, answers, n - 1);
      assert IsCallOfRun(hash, pool, tables, calls, answers, n - 1);
      CallStaysInside(hash, tables[n - 1], tables[n], calls[n - 1], answers[n - 1]);
    }
  }

  /** Over every run of calls on lists with room, whatever names, lists and keys they use, no call is ever sent past the
      end of its list. */
  lemma RoomyRunsStayInside(hash: string -> nat, pool: iset<seq<Service>>, tables: seq<Rings>, calls: seq<RingCall>,
                            answers: seq<Option<nat>>, i: nat)
    requires IsRun(hash, pool, tables, calls, answers) && i < |calls|
    requires [] !in pool && AllRoomy(hash, pool)
    ensures answers[i].Some?
  {
    TableStaysRoomy(hash, pool, tables, calls, answers, i);
    assert IsCallOfRun(hash, pool, tables, calls, answers, i);
    CallStaysInside(hash, tables[i], tables[i + 1], calls[i], answers[i]);
  }

  /** One call on a list without room, and one on a list as long as its ring: the second is sent past the end. */
  lemma CrampedListOverflows(hash: string -> nat, pool: iset<seq<Service>>, name: string, origin: seq<Service>,
                             later: seq<Service>)
    returns (tables: seq<Rings>, calls: seq<RingCall>, answers: seq<Option<nat>>)
    requires origin in pool && later in pool
    requires |origin| > 0 && !Roomy(hash, origin) && |later| == NodeCount(hash, origin)
    ensures IsRun(hash, pool, tables, calls, answers)
    ensures |calls| == 2 && calls[0].instances == origin && calls[1].instances == later && answers[1] == None
  {
    var ring := RingExists(hash, origin);
    var last := |origin| - 1;
    var key := NodeKey(origin[last], 0);
    var table: Rings := map[name := ring];
    LastIsReached(hash, origin);
    calls := [RingCall(name, origin, key, 0), RingCall(name, later, key, 0)];
    tables := [map[], table, table];
    answers := [Some(last), None];
    FirstCallBuilds(hash, name, ring, calls[0], last);
    SecondCallOverflows(hash, table, origin, calls[1], last);
    TwoCalls(hash, pool, tables, calls, answers);
  }

  lemma TwoCalls(hash: string -> nat, pool: iset<seq<Service>>, tables: seq<Rings>, calls: seq<RingCall>,
                 answers: seq<Option<nat>>)
    requires |tables| == 3 && |calls| == |answers| == 2 && tables[0] == map[]
    requires calls[0].instances in pool && RingStep(hash, tables[0], tables[1], calls[0], answers[0])
    requires calls[1].instances in pool && RingStep(hash, tables[1], tables[2], calls[1], answers[1])
    ensures IsRun(hash, pool, tables, calls, answers)
  {
    forall i | 0 <= i < 2 ensures IsCallOfRun(hash, pool, tables, calls, answers, i) {
      assert i == 0 || i == 1;
    }
  }

  lemma FirstCallBuilds(hash: string -> nat, name: string, ring: Ring, call: RingCall, i: nat)
    requires call.name == name && call.key != ""
    requires IsRing(ring, hash, call.instances) && Routes(hash, call.instances, hash(call.key), i)
    ensures RingStep(hash, map[], map[name := ring], call, Some(i))
  {
  }

  lemma SecondCallOverflows(hash: string -> nat, table: Rings, origin: seq<Service>, call: RingCall, i: nat)
    requires call.key != "" && call.name in table && IsRing(table[call.name], hash, origin)
    requires Routes(hash, origin, hash(call.key), i) && |call.instances| == NodeCount(hash, origin) <= i
    ensures RingStep(hash, table, table, call, None)
  {
    var nowhere: Option<nat> := None;
    RingSize(hash, table[call.name], origin);
    forall o | IsRing(table[call.name], hash, o)
      ensures RoutesWithin(hash, o, hash(call.key), |call.instances|, nowhere)
    {
      SameRingRoutesAlike(hash, table[call.name], origin, o, hash(call.key), i);
    }
  }

  /** Where a key goes depends on the ring only. */
  lemma SameRingRoutesAlike(hash: string -> nat, ring: Ring, a: seq<Service>, b: seq<Service>, k: nat, i: nat)
    requires IsRing(ring, hash, a) && IsRing(ring, hash, b) && Routes(hash, a, k, i)
    ensures Routes(hash, b, k, i)
  {
    var p :| IsSuccessor(hash, a, k, p) && Owns(hash, a, i, p);
    forall q: nat ensures IsNode(hash, a, q) <==> IsNode(hash, b, q) {
      assert q in ring.instances <==> IsNode(hash, a, q);
      assert q in ring.instances <==> IsNode(hash, b, q);
    }
    SameNodesSameSuccessor(hash, a, b, k, p);
    assert p in ring.instances;
    OneOwner(hash, a, i, ring.instances[p], p);
    assert Owns(hash, b, i, p);
  }

  lemma OneOwner(hash: string -> nat, instances: seq<Service>, i: nat, j: nat, p: nat)
    requires Owns(hash, instances, i, p) && Owns(hash, instances, j, p)
    ensures i == j
  {
    var r: nat :| IsNodeOf(hash, instances, i, r, p);
    var s: nat :| IsNodeOf(hash, instances, j, s, p);
  }

  lemma SameNodesSameSuccessor(hash: string -> nat, a: seq<Service>, b: seq<Service>, k: nat, p: nat)
    requires IsSuccessor(hash, a, k, p) && forall q: nat :: IsNode(hash, a, q) <==> IsNode(hash, b, q)
    ensures IsSuccessor(hash, b, k, p)
  {
  }

  /** The lists of the pool include, for each of them, one as long as its ring. */
  ghost predicate HasRingLengths(hash: string -> nat, pool: iset<seq<Service>>) {
    forall origin {:trigger NodeCount(hash, origin)} ::
      origin in pool ==> exists later :: later in pool && |later| == NodeCount(hash, origin)
  }

  ghost predicate AllInside(answers: seq<Option<nat>>) {
    forall i :: 0 <= i < |answers| ==> answers[i].Some?
  }

  ghost predicate RunStaysInside(hash: string -> nat, pool: iset<seq<Service>>, tables: seq<Rings>,
                                 calls: seq<RingCall>, answers: seq<Option<nat>>) {
    IsRun(hash, pool, tables, calls, answers) ==> AllInside(answers)
  }

  ghost predicate NeverOutside(hash: string -> nat, pool: iset<seq<Service>>) {
    forall tables, calls, answers :: RunStaysInside(hash, pool, tables, calls, answers)
  }

  lemma RoomyPoolStaysInside(hash: string -> nat, pool: iset<seq<Service>>, tables: seq<Rings>, calls: seq<RingCall>,
                             answers: seq<Option<nat>>)
    requires [] !in pool && AllRoomy(hash, pool)
    ensures RunStaysInside(hash, pool, tables, calls, answers)
  {
    if IsRun(hash, pool, tables, calls, answers) {
      forall i | 0 <= i < |answers| ensures answers[i].Some? {
        RoomyRunsStayInside(hash, pool, tables, calls, answers, i);
      }
    }
  }

  lemma CrampedPoolOverflows(hash: string -> nat, pool: iset<seq<Service>>, origin: seq<Service>)
    requires [] !in pool && HasRingLengths(hash, pool) && origin in pool && !Roomy(hash, origin)
    ensures !NeverOutside(hash, pool)
  {
    var later :| later in pool && |later| == NodeCount(hash, origin);
    var tables, calls, answers := CrampedListOverflows(hash, pool, "", origin, later);
    assert !answers[1].Some?;
    assert !RunStaysInside(hash, pool, tables, calls, answers);
  }

  /** The exact condition: on such a pool no run sends any call past the end exactly when every list has room. */
  lemma RunsStayInsideIff(hash: string -> nat, pool: iset<seq<Service>>)
    requires [] !in pool && HasRingLengths(hash, pool)
    ensures NeverOutside(hash, pool) <==> AllRoomy(hash, pool)
  {
    if AllRoomy(hash, pool) {
      forall tables, calls, answers ensures RunStaysInside(hash, pool, tables, calls, answers) {
        RoomyPoolStaysInside(hash, pool, tables, calls, answers);
      }
    } else {
      var origin :| origin in pool && !Roomy(hash, origin);
      CrampedPoolOverflows(hash, pool, origin);
    }
  }

  /** Lists without collisions have room. */
  lemma CollisionFreeRunsStayInside(hash: string -> nat, pool: iset<seq<Service>>, tables: seq<Rings>,
                                    calls: seq<RingCall>, answers: seq<Option<nat>>, i: nat)
    requires IsRun(hash, pool, tables, calls, answers) && i < |calls|
    requires [] !in pool && forall origin :: origin in pool ==> CollisionFree(hash, origin)
    ensures answers[i].Some?
  {
    forall origin | origin in pool ensures Roomy(hash, origin) {
      NodeCountBounds(hash, origin);
    }
    RoomyRunsStayInside(hash, pool, tables, calls, answers, i);
  }
}
