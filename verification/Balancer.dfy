/** The load balancer object: weight vectors, round-robin counters, connection counts and cached hash rings. */
module Balancer {
  import opened Prelude
  import opened ServiceTypes
  import opened SmoothWrr
  import opened PlainPicks
  import HashRing
  import opened Connections
  import opened RingCache

  const MIN_INT32 := -0x8000_0000

  // ---- Weights -------------------------------------------------------------------------------------------------

  const MAX_INT64 := 0x7FFF_FFFF_FFFF_FFFF

  /** Decimal integers as `strconv.Atoi` reads them; a text that is not one, or does not fit, has no weight. */
  function ParseWeight(text: string): int {
    var digits := if |text| > 0 && (text[0] == '+' || text[0] == '-') then text[1..] else text;
    if |digits| == 0 || !IsDigits(digits) then 0
    else
      var value := DigitsValue(digits);
      if text[0] == '-' || value > MAX_INT64 then 0 else value
  }

  function ExtractWeight(svc: Service): (w: int)
    ensures w > 0
  {
    if "weight" in svc.meta && ParseWeight(svc.meta["weight"]) > 0 then ParseWeight(svc.meta["weight"]) else 1
  }

  function WeightsOf(instances: seq<Service>): (w: seq<int>)
    ensures |w| == |instances| && (forall i :: 0 <= i < |w| ==> w[i] == ExtractWeight(instances[i]))
  {
    seq(|instances|, i requires 0 <= i < |instances| => ExtractWeight(instances[i]))
  }

  /** The text is a positive decimal number that fits 64 bits, with or without a plus sign. */
  ghost predicate Spells(text: string, n: nat) {
    exists digits ::
      && digits != "" && IsDigits(digits) && (text == digits || text == "+" + digits)
      && DigitsValue(digits) == n && 0 < n <= 9223372036854775807
  }

  lemma SpelledIsParsed(text: string, n: nat)
    ensures Spells(text, n) <==> ParseWeight(text) == n > 0
  {
    if Spells(text, n) {
      var digits :| && digits != "" && IsDigits(digits) && (text == digits || text == "+" + digits)
                    && DigitsValue(digits) == n && 0 < n <= 9223372036854775807;
      assert text == "+" + digits ==> text[1..] == digits;
    }
    if ParseWeight(text) == n > 0 {
      var digits := if text[0] == '+' || text[0] == '-' then text[1..] else text;
      assert text[0] == '+' ==> text == "+" + digits;
      assert digits != "" && IsDigits(digits) && DigitsValue(digits) == n;
    }
  }

  /** The weight of an instance is the number that its metadata spells; without one, it is 1. */
  lemma WeightIsSpelled(svc: Service)
    ensures "weight" in svc.meta ==> forall n :: Spells(svc.meta["weight"], n) ==> ExtractWeight(svc) == n
    ensures "weight" !in svc.meta || (forall n :: !Spells(svc.meta["weight"], n)) ==> ExtractWeight(svc) == 1
  {
    if "weight" in svc.meta {
      var text := svc.meta["weight"];
      forall n ensures Spells(text, n) <==> ParseWeight(text) == n > 0 {
        SpelledIsParsed(text, n);
      }
      if ParseWeight(text) > 0 {
        assert Spells(text, ParseWeight(text));
      }
    }
  }

  /** A weight written in decimal is the weight that is read. */
  lemma PrintedWeightIsRead(svc: Service, n: nat)
    requires 0 < n <= 9223372036854775807
    requires "weight" in svc.meta && svc.meta["weight"] == Itoa(n)
    ensures ExtractWeight(svc) == n
  {
    ItoaRoundTrip(n);
  }

  // ---- The balancer --------------------------------------------------------------------------------------------

  /** The pick is the counter modulo the number of instances, starting at 0, and only that counter moves, by one. */
  predicate PicksInTurn(before: map<string, nat>, after: map<string, nat>, name: string, n: nat, index: nat)
    requires n > 0
  {
    var counter := if name in before then before[name] else 0;
    index == counter % n && after == before[name := counter + 1]
  }

  /** The weights are added to the stored vector, or to zeros when none of that length is stored; the pick is the first
      largest entry, and the total weight is taken off it. */
  ghost predicate PicksSmoothly(before: Table, after: Table, key: string, weights: seq<int>, index: nat) {
    var n := |weights|;
    var current := if key in before && |before[key]| == n then before[key] else seq(n, _ => 0);
    var raised := seq(n, i requires 0 <= i < n => current[i] + weights[i]);
    IsFirstMax(raised, index) && after == before[key := raised[index := raised[index] - Sum(weights)]]
  }

  ghost predicate StatesBalanced(states: Table) {
    forall key :: key in states ==> Sum(states[key]) == 0
  }

  class Balancer {
    var weightStates: Table
    var counters: map<string, nat>
    var connections: map<string, int>
    var hashRings: map<string, HashRing.Ring>
    const hash: string -> nat

    /** Stored weight vectors sum to zero; every cached ring was built from some list of instances. */
    ghost predicate Valid()
      reads this
    {
      && StatesBalanced(weightStates)
      && NoNegativeCounts(connections)
      && (forall name :: name in hashRings ==> IsCachedRing(hash, hashRings[name]))
    }

    constructor (hash: string -> nat)
      ensures Valid() && this.hash == hash
      ensures weightStates == map[] && counters == map[] && connections == map[] && hashRings == map[]
    {
      this.hash := hash;
      weightStates, counters, connections, hashRings := map[], map[], map[], map[];
    }

    method SelectRoundRobin(serviceName: string, instances: seq<Service>) returns (index: nat)
      requires Valid() && |instances| > 0
      modifies this`counters
      ensures Valid()
      ensures PicksInTurn(old(counters), counters, serviceName, |instances|, index)
    {
      if serviceName !in counters {
        counters := counters[serviceName := 0];
      }
      counters := counters[serviceName := counters[serviceName] + 1];
      index := (counters[serviceName] - 1) % |instances|;
    }

    method SelectWeightedRoundRobin(serviceName: string, instances: seq<Service>) returns (index: nat)
      requires Valid() && |instances| > 0
      modifies this`counters, this`weightStates
      ensures Valid() && index < |instances|
      ensures weightStates == AfterCall(old(weightStates), Call("wrr:" + serviceName, WeightsOf(instances)))
      ensures AllTheSame(WeightsOf(instances)) ==>
                weightStates == old(weightStates)
                && PicksInTurn(old(counters), counters, serviceName, |instances|, index)
      ensures TwoDiffer(WeightsOf(instances)) ==>
                counters == old(counters)
                && PicksSmoothly(old(weightStates), weightStates, "wrr:" + serviceName, WeightsOf(instances), index)
    {
      var weights, totalWeight := ComputeWeights(instances);
      SumPositive(weights);
      SameOrDiffer(weights);
      if totalWeight == 0 || AllEqual(weights) {
        index := SelectRoundRobin(serviceName, instances);
        return;
      }
      index := PickSmooth("wrr:" + serviceName, weights, totalWeight);
    }

    /** One smooth pick on the stored vector, or on zeros when none of that length is stored. */
    method PickSmooth(key: string, weights: seq<int>, totalWeight: int) returns (index: nat)
      requires StatesBalanced(weightStates) && IsWeights(weights) && totalWeight == Sum(weights)
      modifies this`weightStates
      ensures StatesBalanced(weightStates) && index < |weights|
      ensures PicksSmoothly(old(weightStates), weightStates, key, weights, index)
      ensures !AllEqual(weights) ==> weightStates == AfterCall(old(weightStates), Call(key, weights))
    {
      var current := if key in weightStates && |weightStates[key]| == |weights| then weightStates[key]
                     else Zeros(|weights|);
      SumZeros(|weights|);
      StepKeepsZeroSum(current, weights);
      StepIsRaiseAndCharge(current, weights);
      var next;
      next, index := Advance(current, weights, totalWeight);
      weightStates := weightStates[key := next];
    }

    method ComputeWeights(instances: seq<Service>) returns (weights: seq<int>, totalWeight: int)
      ensures weights == WeightsOf(instances) && totalWeight == Sum(weights)
    {
      weights, totalWeight := [], 0;
      for i := 0 to |instances|
        invariant weights == WeightsOf(instances)[..i]
        invariant totalWeight == Sum(weights)
      {
        var weight := ExtractWeight(instances[i]);
        assert (weights + [weight])[..i] == weights;
        weights := weights + [weight];
        totalWeight := totalWeight + weight;
      }
    }

    method SelectWeightedRandom(instances: seq<Service>, randVal: int, uniformIdx: nat) returns (index: nat)
      requires |instances| > 0
      requires 0 <= randVal < Sum(WeightsOf(instances)) && uniformIdx < |instances|
      ensures AllTheSame(WeightsOf(instances)) ==> index == uniformIdx
      ensures TwoDiffer(WeightsOf(instances)) ==> Selects(WeightsOf(instances), randVal, index)
    {
      SameOrDiffer(WeightsOf(instances));
      var weights := WeightsOf(instances);
      if AllEqual(weights) {
        return uniformIdx;
      }
      index := DrawWeighted(weights, randVal);
    }

    /** The first position whose cumulative weight exceeds the draw; the fallback after the loop is never reached. */
    method DrawWeighted(weights: seq<int>, randVal: int) returns (index: nat)
      requires |weights| > 0 && 0 <= randVal < Sum(weights)
      ensures Selects(weights, randVal, index)
    {
      assert weights[..|weights|] == weights;
      index := |weights| - 1;
      var cumulative := 0;
      for i := 0 to |weights|
        invariant cumulative == Sum(weights[..i]) <= randVal
      {
        assert weights[..i + 1][..i] == weights[..i];
        cumulative := cumulative + weights[i];
        if randVal < cumulative {
          return i;
        }
      }
      assert false;
    }

    method SelectLeastConnections(instances: seq<Service>) returns (index: nat)
      requires Valid() && |instances| > 0
      modifies this`connections
      ensures Valid() && IsFirstMin(CountsOf(old(connections), KeysOf(instances)), index)
      ensures AfterReading(old(connections), connections, KeysOf(instances))
    {
      index := LeastLoaded(instances);
    }

    method LeastLoaded(instances: seq<Service>) returns (index: nat)
      requires NoNegativeCounts(connections) && |instances| > 0
      modifies this`connections
      ensures NoNegativeCounts(connections)
      ensures IsFirstMin(CountsOf(old(connections), KeysOf(instances)), index)
      ensures AfterReading(old(connections), connections, KeysOf(instances))
    {
      ghost var keys := KeysOf(instances);
      ghost var counts := CountsOf(connections, keys);
      ReadingStarts(connections, keys);
      var minIdx, minConns := 0, 0;
      for i := 0 to |instances|
        invariant NoNegativeCounts(connections)
        invariant AfterReadingFirst(old(connections), connections, keys, i)
        invariant Scanned(counts, i, minIdx, minConns)
      {
        ghost var before := connections;
        var conns := CounterOf(InstanceKey(instances[i]));
        OneMoreRead(old(connections), before, connections, keys, i);
        ScanOneMore(counts, i, minIdx, minConns);
        if i == 0 || conns < minConns {
          minIdx, minConns := i, conns;
        }
      }
      ReadAll(old(connections), connections, keys);
      ScannedAll(counts, minIdx, minConns);
      index := minIdx;
    }

    /** Reads a counter, which starts at zero. */
    method CounterOf(key: string) returns (conns: int)
      requires NoNegativeCounts(connections)
      modifies this`connections
      ensures NoNegativeCounts(connections) && conns == Count(old(connections), key)
      ensures AfterReading(old(connections), connections, [key])
    {
      if key !in connections {
        connections := connections[key := 0];
      }
      conns := connections[key];
    }

    method IncrementConnections(svc: Service)
      requires Valid()
      modifies this`connections
      ensures Valid() && connections == Incremented(old(connections), svc)
    {
      if InstanceKey(svc) !in connections {
        connections := connections[InstanceKey(svc) := 0];
      }
      connections := connections[InstanceKey(svc) := connections[InstanceKey(svc)] + 1];
    }

    method DecrementConnections(svc: Service)
      requires Valid()
      modifies this`connections
      ensures Valid() && connections == Decremented(old(connections), svc)
    {
      if InstanceKey(svc) in connections && connections[InstanceKey(svc)] > 0 {
        connections := connections[InstanceKey(svc) := connections[InstanceKey(svc)] - 1];
      }
    }

    /** A cached ring is reused when its number of virtual nodes equals the number of instances, whatever list it was
        built from; otherwise a fresh ring routes the key. `None` is the panic on a position that the list does not
        have. Without a session key the draw decides. */
    method SelectRingHash(serviceName: string, instances: seq<Service>, sessionKey: string, draw: nat)
      returns (index: Option<nat>)
      requires Valid() && |instances| > 0 && draw < |instances|
      modifies this`hashRings
      ensures Valid()
      ensures RingStep(hash, old(hashRings), hashRings, RingCall(serviceName, instances, sessionKey, draw), index)
    {
      if sessionKey == "" {
        return Some(draw);
      }
      var ring := GetOrCreateRing(serviceName, instances);
      index := RouteOn(ring, hash(sessionKey), |instances|);
      if !Reuses(old(hashRings), serviceName, |instances|) {
        RoutesInRange(hash, instances, hash(sessionKey), |instances|, index);
      }
    }

    method GetOrCreateRing(serviceName: string, instances: seq<Service>) returns (ring: HashRing.Ring)
      requires Valid() && |instances| > 0
      modifies this`hashRings
      ensures Valid() && IsCachedRing(hash, ring)
      ensures Reuses(old(hashRings), serviceName, |instances|) ==>
                ring == old(hashRings)[serviceName] && hashRings == old(hashRings)
      ensures !Reuses(old(hashRings), serviceName, |instances|) ==>
                HashRing.IsRing(ring, hash, instances) && hashRings == old(hashRings)[serviceName := ring]
    {
      if serviceName in hashRings && |hashRings[serviceName].instances| == |instances| {
        return hashRings[serviceName];
      }
      ring := HashRing.BuildRing(hash, instances);
      hashRings := hashRings[serviceName := ring];
    }

    /** The position that the ring gives a key, unless the present list does not have it. */
    method RouteOn(ring: HashRing.Ring, k: nat, count: nat) returns (index: Option<nat>)
      requires IsCachedRing(hash, ring)
      ensures forall origin :: HashRing.IsRing(ring, hash, origin) ==> RoutesWithin(hash, origin, k, count, index)
    {
      RingHasNodes(hash, ring);
      var p := HashRing.Lookup(ring, k);
      assert p in ring.instances by {
        var origin :| |origin| > 0 && HashRing.IsRing(ring, hash, origin);
      }
      var owner := ring.instances[p];
      index := if owner < count then Some(owner) else None;
      forall origin | HashRing.IsRing(ring, hash, origin) ensures RoutesWithin(hash, origin, k, count, index) {
        FoundNodeRoutes(hash, ring, origin, k, p);
      }
    }
  }

  /** The two loops' worth of one smooth pick: raise every entry while tracking the largest from the 32-bit minimum
      upwards, then charge the chosen entry. */
  method Advance(start: seq<int>, weights: seq<int>, totalWeight: int) returns (current: seq<int>, maxIdx: nat)
    requires |start| == |weights| && IsWeights(weights) && Sum(start) == 0 && totalWeight == Sum(weights)
    ensures current == Step(start, weights).0 && maxIdx == Step(start, weights).1
  {
    current := start;
    ghost var raised := Raise(start, weights);
    ghost var chosen := Step(start, weights).1;
    PickIsPositive(start, weights);
    var maxCurrent := MIN_INT32;
    maxIdx := 0;
    for i := 0 to |weights|
      invariant |current| == |weights|
      invariant forall j :: 0 <= j < |weights| ==> current[j] == if j < i then raised[j] else start[j]
      invariant forall j :: 0 <= j < i ==> raised[j] <= maxCurrent
      invariant maxCurrent == MIN_INT32 || (maxIdx < i && raised[maxIdx] == maxCurrent)
      invariant forall j :: 0 <= j < maxIdx && maxCurrent > MIN_INT32 ==> raised[j] < maxCurrent
      invariant maxIdx < |weights|
    {
      current := current[i := current[i] + weights[i]];
      if current[i] > maxCurrent {
        maxCurrent := current[i];
        maxIdx := i;
      }
    }
    assert raised[..|weights|] == raised;
    assert maxCurrent >= raised[chosen] > 0;
    FirstMaxUnique(raised, maxIdx, chosen);
    assert current == raised;
    assert Step(start, weights).0 == raised[chosen := raised[chosen] - Sum(weights)];
    current := current[maxIdx := current[maxIdx] - totalWeight];
  }

  lemma StepIsRaiseAndCharge(current: seq<int>, weights: seq<int>)
    requires |current| == |weights| && IsWeights(weights)
    ensures var raised := Raise(current, weights);
            var (next, index) := Step(current, weights);
            IsFirstMax(raised, index) && next == raised[index := raised[index] - Sum(weights)]
  {
  }

  lemma FirstMaxUnique(s: seq<int>, p: nat, q: nat)
    requires IsFirstMax(s, p) && IsFirstMax(s, q)
    ensures p == q
  {
    assert s[p] <= s[q] <= s[p];
  }

  lemma StepKeepsZeroSum(current: seq<int>, weights: seq<int>)
    requires |current| == |weights| && IsWeights(weights) && Sum(current) == 0
    ensures Sum(Step(current, weights).0) == 0
  {
    var raised := Raise(current, weights);
    var p := Step(current, weights).1;
    SumRaise(current, weights);
    SumUpdate(raised, p, raised[p] - Sum(weights));
  }
}
