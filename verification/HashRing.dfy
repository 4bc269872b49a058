/**
 Consistent hashing. The 64-bit hash is an uninterpreted function from strings to numbers; a ring holds
 150 virtual nodes per instance.
 */
module HashRing {
  import opened Prelude
  import opened ServiceTypes
  import opened Sorting

  const REPLICAS: nat := 150

  datatype Ring = Ring(nodes: seq<nat>, instances: map<nat, nat>)

  /** The part of a virtual node's name that tells instances apart. Neither the port nor the colon inside a name
      does. */
  function NodeText(svc: Service): string {
    svc.name + ":" + svc.address
  }

  function NodeKey(svc: Service, r: nat): string {
    NodeText(svc) + ":" + Itoa(r)
  }

  /** The name of a virtual node tells both the node text and the replica. */
  lemma NodeKeyTells(a: Service, r: nat, b: Service, q: nat)
    ensures NodeKey(a, r) == NodeKey(b, q) <==> NodeText(a) == NodeText(b) && r == q
  {
    ItoaRoundTrip(r);
    ItoaRoundTrip(q);
    if NodeKey(a, r) == NodeKey(b, q) {
      SplitAtLastColon(NodeText(a), Itoa(r), NodeText(b), Itoa(q));
    }
  }

  lemma SplitAtLastColon(x: string, d: string, y: string, e: string)
    requires IsDigits(d) && IsDigits(e) && x + ":" + d == y + ":" + e
    ensures x == y && d == e
  {
    var s, t := x + ":" + d, y + ":" + e;
    NotBeforeColon(x, d, y, e);
    NotBeforeColon(y, e, x, d);
    assert x == s[..|x|] && y == t[..|y|] && d == s[|x| + 1..] && e == t[|y| + 1..];
  }

  lemma NotBeforeColon(x: string, d: string, y: string, e: string)
    requires IsDigits(d) && x + ":" + d == y + ":" + e
    ensures |x| >= |y|
  {
    assert (y + ":" + e)[|y|] == ':';
    assert forall k :: |x| < k < |x + ":" + d| ==> (x + ":" + d)[k] == d[k - |x| - 1];
  }

  /** A virtual node of instance `i`: its hash value. */
  function NodeHash(hash: string -> nat, instances: seq<Service>, i: nat, r: nat): nat
    requires i < |instances|
  {
    hash(NodeKey(instances[i], r))
  }

  predicate IsNodeOf(hash: string -> nat, instances: seq<Service>, i: nat, r: nat, p: nat) {
    i < |instances| && r < REPLICAS && NodeHash(hash, instances, i, r) == p
  }

  ghost predicate IsNode(hash: string -> nat, instances: seq<Service>, p: nat) {
    exists i: nat, r: nat :: IsNodeOf(hash, instances, i, r, p)
  }

  /** The owner of a hash value: the last instance that has a virtual node there. */
  ghost predicate Owns(hash: string -> nat, instances: seq<Service>, i: nat, p: nat) {
    && (exists r: nat :: IsNodeOf(hash, instances, i, r, p))
    && forall j: nat, r: nat :: IsNodeOf(hash, instances, j, r, p) ==> j <= i
  }

  ghost predicate CollisionFree(hash: string -> nat, instances: seq<Service>) {
    forall i: nat, r: nat, j: nat, q: nat, p: nat ::
      IsNodeOf(hash, instances, i, r, p) && IsNodeOf(hash, instances, j, q, p) ==> i == j && r == q
  }

  /** What a freshly built ring is. */
  ghost predicate IsRing(ring: Ring, hash: string -> nat, instances: seq<Service>) {
    && Ascending(ring.nodes)
    && (forall p :: p in ring.nodes <==> p in ring.instances)
    && (forall p: nat :: p in ring.instances <==> IsNode(hash, instances, p))
    && (forall p :: p in ring.instances ==> Owns(hash, instances, ring.instances[p], p))
  }

  /** The least node at or after the key's hash, or the smallest node when there is none. */
  ghost predicate IsSuccessor(hash: string -> nat, instances: seq<Service>, k: nat, p: nat) {
    && IsNode(hash, instances, p)
    && ((p >= k && forall q: nat :: IsNode(hash, instances, q) && q >= k ==> p <= q)
        || forall q: nat :: IsNode(hash, instances, q) ==> q < k && p <= q)
  }

  /** The instance that a key with hash `k` is routed to. */
  ghost predicate Routes(hash: string -> nat, instances: seq<Service>, k: nat, i: nat) {
    exists p :: IsSuccessor(hash, instances, k, p) && Owns(hash, instances, i, p)
  }

  lemma RoutesToOne(hash: string -> nat, instances: seq<Service>, k: nat, i: nat, j: nat)
    requires Routes(hash, instances, k, i) && Routes(hash, instances, k, j)
    ensures i == j
  {
    var p :| IsSuccessor(hash, instances, k, p) && Owns(hash, instances, i, p);
    var q :| IsSuccessor(hash, instances, k, q) && Owns(hash, instances, j, q);
    assert p == q;
    var r: nat :| IsNodeOf(hash, instances, i, r, p);
    var s: nat :| IsNodeOf(hash, instances, j, s, p);
  }

  function Without<T>(s: seq<T>, j: nat): seq<T>
    requires j < |s|
  {
    s[..j] + s[j + 1..]
  }

  /** Where position `i` of the longer list is found in the list without position `j`. */
  function Shifted(i: nat, j: nat): nat
    requires i != j
  {
    if i < j then i else i - 1
  }

  lemma NodeWithout(hash: string -> nat, instances: seq<Service>, j: nat, i: nat, r: nat, p: nat)
    requires j < |instances| && i != j
    ensures IsNodeOf(hash, instances, i, r, p) <==> IsNodeOf(hash, Without(instances, j), Shifted(i, j), r, p)
    ensures i < |instances| ==> Without(instances, j)[Shifted(i, j)] == instances[i]
  {
  }

  lemma NodesWithout(hash: string -> nat, instances: seq<Service>, j: nat, p: nat)
    requires j < |instances|
    ensures IsNode(hash, Without(instances, j), p) ==> IsNode(hash, instances, p)
  {
    if IsNode(hash, Without(instances, j), p) {
      var i: nat, r: nat :| IsNodeOf(hash, Without(instances, j), i, r, p);
      NodeWithout(hash, instances, j, if i < j then i else i + 1, r, p);
    }
  }

  /** Removing an instance leaves every key it did not own where it was. */
  lemma RemovalMovesOnlyOwnedKeys(hash: string -> nat, instances: seq<Service>, j: nat, k: nat, i: nat)
    requires j < |instances| && i != j && Routes(hash, instances, k, i)
    ensures Routes(hash, Without(instances, j), k, Shifted(i, j))
    ensures i < |instances| && Without(instances, j)[Shifted(i, j)] == instances[i]
  {
    var fewer := Without(instances, j);
    var p :| IsSuccessor(hash, instances, k, p) && Owns(hash, instances, i, p);
    var r: nat :| IsNodeOf(hash, instances, i, r, p);
    NodeWithout(hash, instances, j, i, r, p);
    forall q ensures IsNode(hash, fewer, q) ==> IsNode(hash, instances, q) {
      NodesWithout(hash, instances, j, q);
    }
    assert IsSuccessor(hash, fewer, k, p);
    forall i': nat, r': nat | IsNodeOf(hash, fewer, i', r', p) ensures i' <= Shifted(i, j) {
      NodeWithout(hash, instances, j, if i' < j then i' else i' + 1, r', p);
    }
    assert Owns(hash, fewer, Shifted(i, j), p);
  }

  /** Adding an instance (at position `j`) moves keys only to the new instance. */
  lemma AdditionMovesKeysOnlyToNew(hash: string -> nat, instances: seq<Service>, j: nat, k: nat, i: nat, i': nat)
    requires j < |instances|
    requires Routes(hash, Without(instances, j), k, i')
    requires Routes(hash, instances, k, i)
    ensures i == j || (i < |instances| && i' < |Without(instances, j)| && instances[i] == Without(instances, j)[i'])
  {
    if i != j {
      RemovalMovesOnlyOwnedKeys(hash, instances, j, k, i);
      RoutesToOne(hash, Without(instances, j), k, i', Shifted(i, j));
    }
  }

  /** Of the instances that share a node text only the last one is ever routed to. */
  lemma EarlierTwinGetsNothing(hash: string -> nat, instances: seq<Service>, k: nat, i: nat, j: nat)
    requires i < j < |instances| && NodeText(instances[i]) == NodeText(instances[j])
    ensures !Routes(hash, instances, k, i)
  {
    forall p ensures !Owns(hash, instances, i, p) {
      if r: nat :| IsNodeOf(hash, instances, i, r, p) {
        assert NodeKey(instances[i], r) == NodeKey(instances[j], r);
        assert IsNodeOf(hash, instances, j, r, p);
      }
    }
  }

  // ---- Building a ring -----------------------------------------------------------------------------------------

  /** The virtual nodes added when instances before `i` are done and replicas before `r` of instance `i`. */
  predicate Added(i: nat, r: nat, j: nat, q: nat) {
    j < i || (j == i && q < r)
  }

  ghost predicate PartlyBuilt(ring: Ring, hash: string -> nat, instances: seq<Service>, i: nat, r: nat) {
    && (forall p :: p in ring.nodes <==> p in ring.instances)
    && (forall j: nat, q: nat, p: nat ::
          IsNodeOf(hash, instances, j, q, p) && Added(i, r, j, q) ==> p in ring.instances && j <= ring.instances[p])
    && (forall p :: p in ring.instances ==>
          exists q: nat :: IsNodeOf(hash, instances, ring.instances[p], q, p) && Added(i, r, ring.instances[p], q))
  }

  lemma AddNode(ring: Ring, hash: string -> nat, instances: seq<Service>, i: nat, r: nat)
    requires i < |instances| && r < REPLICAS && PartlyBuilt(ring, hash, instances, i, r)
    ensures var p := NodeHash(hash, instances, i, r);
            PartlyBuilt(Ring(ring.nodes + [p], ring.instances[p := i]), hash, instances, i, r + 1)
  {
    var p := NodeHash(hash, instances, i, r);
    var next := Ring(ring.nodes + [p], ring.instances[p := i]);
    assert IsNodeOf(hash, instances, i, r, p);
    forall x | x in next.instances
      ensures exists q: nat ::
                IsNodeOf(hash, instances, next.instances[x], q, x) && Added(i, r + 1, next.instances[x], q)
    {
      if x == p {
        assert IsNodeOf(hash, instances, i, r, x) && Added(i, r + 1, i, r);
      } else {
        var q: nat :| IsNodeOf(hash, instances, ring.instances[x], q, x) && Added(i, r, ring.instances[x], q);
        assert Added(i, r + 1, ring.instances[x], q);
      }
    }
    forall j: nat, q: nat, x: nat | IsNodeOf(hash, instances, j, q, x) && Added(i, r + 1, j, q)
      ensures x in next.instances && j <= next.instances[x]
    {
      if !(j == i && q == r) {
        assert Added(i, r, j, q);
      }
    }
  }

  method BuildRing(hash: string -> nat, instances: seq<Service>) returns (ring: Ring)
    ensures IsRing(ring, hash, instances)
    ensures |ring.instances| == NodeCount(hash, instances)
  {
    ring := Ring([], map[]);
    for i := 0 to |instances|
      invariant PartlyBuilt(ring, hash, instances, i, 0)
    {
      for r := 0 to REPLICAS
        invariant PartlyBuilt(ring, hash, instances, i, r)
      {
        var hashValue := NodeHash(hash, instances, i, r);
        AddNode(ring, hash, instances, i, r);
        ring := Ring(ring.nodes + [hashValue], ring.instances[hashValue := i]);
      }
      RowDone(ring, hash, instances, i);
    }
    AllRowsDone(ring, hash, instances);
    ring := ring.(nodes := SortNumbers(ring.nodes));
    RingSize(hash, ring, instances);
  }

  lemma RowDone(ring: Ring, hash: string -> nat, instances: seq<Service>, i: nat)
    requires PartlyBuilt(ring, hash, instances, i, REPLICAS)
    ensures PartlyBuilt(ring, hash, instances, i + 1, 0)
  {
    forall j: nat, q: nat, p: nat | IsNodeOf(hash, instances, j, q, p) && Added(i + 1, 0, j, q)
      ensures p in ring.instances && j <= ring.instances[p]
    {
      assert Added(i, REPLICAS, j, q);
    }
    forall p | p in ring.instances
      ensures exists q: nat ::
                IsNodeOf(hash, instances, ring.instances[p], q, p) && Added(i + 1, 0, ring.instances[p], q)
    {
      var q: nat :| IsNodeOf(hash, instances, ring.instances[p], q, p) && Added(i, REPLICAS, ring.instances[p], q);
      assert Added(i + 1, 0, ring.instances[p], q);
    }
  }

  lemma AllRowsDone(ring: Ring, hash: string -> nat, instances: seq<Service>)
    requires PartlyBuilt(ring, hash, instances, |instances|, 0)
    ensures IsRing(ring.(nodes := SortNumbers(ring.nodes)), hash, instances)
  {
    var sorted := SortNumbers(ring.nodes);
    forall p ensures p in sorted <==> p in ring.nodes {
      assert p in multiset(sorted) <==> p in multiset(ring.nodes);
    }
    forall p: nat ensures p in ring.instances <==> IsNode(hash, instances, p) {
      if IsNode(hash, instances, p) {
        var i: nat, r: nat :| IsNodeOf(hash, instances, i, r, p);
        assert Added(|instances|, 0, i, r);
      }
    }
    forall p | p in ring.instances ensures Owns(hash, instances, ring.instances[p], p) {
      forall j: nat, r: nat | IsNodeOf(hash, instances, j, r, p) ensures j <= ring.instances[p] {
        assert Added(|instances|, 0, j, r);
      }
    }
  }

  // ---- The size of a ring --------------------------------------------------------------------------------------

  /** The node hashes of the instances before `i` and of the first `r` replicas of instance `i`. */
  function NodeSet(hash: string -> nat, instances: seq<Service>, i: nat, r: nat): set<nat>
    requires i <= |instances| && r <= REPLICAS && (i == |instances| ==> r == 0)
    decreases i, r
  {
    if r > 0 then NodeSet(hash, instances, i, r - 1) + {NodeHash(hash, instances, i, r - 1)}
    else if i > 0 then NodeSet(hash, instances, i - 1, REPLICAS)
    else {}
  }

  /** How many different hashes the virtual nodes of a list have. */
  function NodeCount(hash: string -> nat, instances: seq<Service>): nat {
    |NodeSet(hash, instances, |instances|, 0)|
  }

  lemma {:induction false} NodeSetMembers(hash: string -> nat, instances: seq<Service>, i: nat, r: nat, p: nat)
    requires i <= |instances| && r <= REPLICAS && (i == |instances| ==> r == 0)
    ensures p in NodeSet(hash, instances, i, r) <==>
            exists j: nat, q: nat :: IsNodeOf(hash, instances, j, q, p) && Added(i, r, j, q)
    decreases i, r
  {
    if r > 0 {
      NodeSetMembers(hash, instances, i, r - 1, p);
      assert IsNodeOf(hash, instances, i, r - 1, NodeHash(hash, instances, i, r - 1)) && Added(i, r, i, r - 1);
      forall j: nat, q: nat | IsNodeOf(hash, instances, j, q, p)
        ensures Added(i, r, j, q) <==> Added(i, r - 1, j, q) || (j == i && q == r - 1) {}
    } else if i > 0 {
      NodeSetMembers(hash, instances, i - 1, REPLICAS, p);
      forall j: nat, q: nat | IsNodeOf(hash, instances, j, q, p)
        ensures Added(i, r, j, q) <==> Added(i - 1, REPLICAS, j, q) {}
    }
  }

  lemma {:induction false} NodeSetSize(hash: string -> nat, instances: seq<Service>, i: nat, r: nat)
    requires i <= |instances| && r <= REPLICAS && (i == |instances| ==> r == 0)
    ensures |NodeSet(hash, instances, i, r)| <= REPLICAS * i + r
    ensures CollisionFree(hash, instances) ==> |NodeSet(hash, instances, i, r)| == REPLICAS * i + r
    decreases i, r
  {
    if r > 0 {
      NodeSetSize(hash, instances, i, r - 1);
      var p := NodeHash(hash, instances, i, r - 1);
      NodeSetMembers(hash, instances, i, r - 1, p);
      assert IsNodeOf(hash, instances, i, r - 1, p);
      forall j: nat, q: nat | IsNodeOf(hash, instances, j, q, p) && Added(i, r - 1, j, q)
        ensures !CollisionFree(hash, instances) {}
    } else if i > 0 {
      NodeSetSize(hash, instances, i - 1, REPLICAS);
    }
  }

  lemma NodeSetIsExact(hash: string -> nat, instances: seq<Service>, p: nat)
    ensures p in NodeSet(hash, instances, |instances|, 0) <==> IsNode(hash, instances, p)
  {
    NodeSetMembers(hash, instances, |instances|, 0, p);
    forall j: nat, q: nat | IsNodeOf(hash, instances, j, q, p) ensures Added(|instances|, 0, j, q) {}
  }

  /** A ring has one node for each different hash. */
  lemma RingSize(hash: string -> nat, ring: Ring, instances: seq<Service>)
    requires IsRing(ring, hash, instances)
    ensures |ring.instances| == NodeCount(hash, instances)
  {
    var nodes := NodeSet(hash, instances, |instances|, 0);
    forall p ensures p in nodes <==> p in ring.instances {
      NodeSetIsExact(hash, instances, p);
    }
    assert nodes == ring.instances.Keys;
    assert |ring.instances| == |ring.instances.Keys|;
  }

  /** That is at most 150 for each instance, and exactly as many when no two hashes collide. */
  lemma NodeCountBounds(hash: string -> nat, instances: seq<Service>)
    ensures NodeCount(hash, instances) <= REPLICAS * |instances|
    ensures CollisionFree(hash, instances) ==> NodeCount(hash, instances) == REPLICAS * |instances|
    ensures |instances| > 0 ==> NodeCount(hash, instances) > 0
  {
    NodeSetSize(hash, instances, |instances|, 0);
    if |instances| > 0 {
      var p := NodeHash(hash, instances, 0, 0);
      assert IsNodeOf(hash, instances, 0, 0, p);
      NodeSetIsExact(hash, instances, p);
    }
  }

  /** Instances that all share one node text have the nodes of one of them. */
  lemma SharedTextNodeCount(hash: string -> nat, instances: seq<Service>)
    requires |instances| > 0
    requires forall i :: 0 <= i < |instances| ==> NodeText(instances[i]) == NodeText(instances[0])
    ensures NodeCount(hash, instances) == NodeCount(hash, [instances[0]]) <= REPLICAS
  {
    var one := [instances[0]];
    forall p ensures p in NodeSet(hash, instances, |instances|, 0) <==> p in NodeSet(hash, one, 1, 0) {
      NodeSetIsExact(hash, instances, p);
      NodeSetIsExact(hash, one, p);
      forall i: nat, r: nat | IsNodeOf(hash, instances, i, r, p) ensures IsNodeOf(hash, one, 0, r, p) {
        assert NodeKey(instances[i], r) == NodeKey(one[0], r);
      }
      forall i: nat, r: nat | IsNodeOf(hash, one, i, r, p) ensures IsNodeOf(hash, instances, 0, r, p) {}
    }
    assert NodeSet(hash, instances, |instances|, 0) == NodeSet(hash, one, 1, 0);
    NodeCountBounds(hash, one);
  }

  // ---- Every list has a ring -----------------------------------------------------------------------------------

  lemma {:induction false} PartialRing(hash: string -> nat, instances: seq<Service>, i: nat, r: nat)
    returns (ring: Ring)
    requires i <= |instances| && r <= REPLICAS && (i == |instances| ==> r == 0)
    ensures PartlyBuilt(ring, hash, instances, i, r)
    decreases i, r
  {
    if r > 0 {
      ring := PartialRing(hash, instances, i, r - 1);
      AddNode(ring, hash, instances, i, r - 1);
      var p := NodeHash(hash, instances, i, r - 1);
      ring := Ring(ring.nodes + [p], ring.instances[p := i]);
    } else if i > 0 {
      ring := PartialRing(hash, instances, i - 1, REPLICAS);
      RowDone(ring, hash, instances, i - 1);
    } else {
      ring := Ring([], map[]);
    }
  }

  lemma RingExists(hash: string -> nat, instances: seq<Service>) returns (ring: Ring)
    ensures IsRing(ring, hash, instances)
  {
    ring := PartialRing(hash, instances, |instances|, 0);
    AllRowsDone(ring, hash, instances);
    ring := ring.(nodes := SortNumbers(ring.nodes));
  }

  /** Binary search for the first node at or after `k`, wrapping to node 0. */
  method Lookup(ring: Ring, k: nat) returns (p: nat)
    requires Ascending(ring.nodes) && |ring.nodes| > 0
    ensures p in ring.nodes
    ensures (p >= k && forall q :: q in ring.nodes && q >= k ==> p <= q)
            || forall q :: q in ring.nodes ==> q < k && p <= q
  {
    var lo, hi := 0, |ring.nodes|;
    while lo < hi
      invariant 0 <= lo <= hi <= |ring.nodes|
      invariant forall x :: 0 <= x < lo ==> ring.nodes[x] < k
      invariant forall x :: hi <= x < |ring.nodes| ==> ring.nodes[x] >= k
    {
      var mid := (lo + hi) / 2;
      if ring.nodes[mid] >= k {
        hi := mid;
      } else {
        lo := mid + 1;
      }
    }
    var idx := if lo == |ring.nodes| then 0 else lo;
    p := ring.nodes[idx];
  }
}
