/**
 Lists that the registry really hands to the balancer. Its names are pairwise different, but the colon that joins
 name and address, in a virtual node's name and in a counter's key, may also stand inside either of them.
 */
module RingInputs {
  import opened Prelude
  import opened ServiceTypes
  import opened ServiceModel
  import opened ServiceQuery
  import opened Sorting
  import opened HashRing
  import opened RingCache
  import opened Connections

  // ---- Registering a list and querying it ----------------------------------------------------------------------

  /** One after the other the services are registered, and then removed again from the end. */
  function RegisterThenDrop(services: seq<Service>, now: int): (run: seq<Step>)
    ensures |run| == 2 * |services|
  {
    var m := |services|;
    seq(2 * m, i requires 0 <= i < 2 * m =>
      Step(if i < m then CmdRegister(services[i]) else CmdDeregister(services[2 * m - 1 - i].name), now))
  }

  ghost predicate DifferentNames(services: seq<Service>) {
    forall i, j :: 0 <= i < j < |services| ==> services[i].name != services[j].name
  }

  function NamesOf(services: seq<Service>): (names: seq<string>)
    ensures |names| == |services| && forall i :: 0 <= i < |names| ==> names[i] == services[i].name
  {
    seq(|services|, i requires 0 <= i < |services| => services[i].name)
  }

  /** The first `n` services, and nothing else, are registered until `until`. */
  ghost predicate HoldsFirst(data: map<string, ServiceEntry>, services: seq<Service>, n: nat, until: int)
    requires n <= |services|
  {
    && (forall x :: x in data ==> x in NamesOf(services[..n]))
    && (forall i :: 0 <= i < n ==> HoldsAt(data, services, i, until))
  }

  predicate HoldsAt(data: map<string, ServiceEntry>, services: seq<Service>, i: nat, until: int)
    requires i < |services|
  {
    services[i].name in data && IsEntry(data[services[i].name], services[i], until)
  }

  predicate IsEntry(e: ServiceEntry, svc: Service, until: int) {
    e.service == svc && e.expiresAt == until
  }

  lemma HoldsOneMore(s: State, services: seq<Service>, n: nat, until: int)
    requires n < |services| && DifferentNames(services) && HoldsFirst(s.data, services, n, until)
    ensures HoldsFirst(Registered(s, services[n], until).data, services, n + 1, until)
  {
    var next := Registered(s, services[n], until).data;
    assert NamesOf(services[..n + 1]) == NamesOf(services[..n]) + [services[n].name];
    forall x | x in next ensures x in NamesOf(services[..n + 1]) {
      assert x in s.data || x == services[n].name;
    }
    forall i | 0 <= i < n + 1 ensures HoldsAt(next, services, i, until) {
      if i < n {
        assert HoldsAt(s.data, services, i, until);
      }
    }
  }

  ghost predicate AllValid(services: seq<Service>) {
    forall i :: 0 <= i < |services| ==> ValidService(services[i])
  }

  /** The state after registering the first `n` services, without the checks that valid services pass. */
  function Entered(services: seq<Service>, until: int, n: nat): State
    requires n <= |services|
  {
    if n == 0 then EMPTY else Registered(Entered(services, until, n - 1), services[n - 1], until)
  }

  lemma {:induction false} RunEnters(services: seq<Service>, run: seq<Step>, now: int, ttl: int, n: nat)
    requires n <= |services| <= |run| && forall i :: 0 <= i < |services| ==> RegistersAt(run, services, now, i)
    ensures StateAt(EMPTY, run, ttl, n) == Entered(services, now + ttl, n)
  {
    if n > 0 {
      RunEnters(services, run, now, ttl, n - 1);
      assert RegistersAt(run, services, now, n - 1);
      RegisterEnters(StateAt(EMPTY, run, ttl, n - 1), run, services, now, ttl, n - 1);
    }
  }

  predicate RegistersAt(run: seq<Step>, services: seq<Service>, now: int, i: int) {
    0 <= i < |run| && i < |services| && run[i] == Step(CmdRegister(services[i]), now) && ValidService(services[i])
  }

  lemma RegisterEnters(s: State, run: seq<Step>, services: seq<Service>, now: int, ttl: int, i: nat)
    requires RegistersAt(run, services, now, i)
    ensures Apply(s, run[i].cmd, run[i].now, ttl).0 == Registered(s, services[i], now + ttl)
  {
  }

  lemma {:induction false} AllEntered(services: seq<Service>, until: int, n: nat)
    requires DifferentNames(services) && n <= |services|
    ensures HoldsFirst(Entered(services, until, n).data, services, n, until)
  {
    if n > 0 {
      AllEntered(services, until, n - 1);
      var s := Entered(services, until, n - 1);
      HoldsOneMore(s, services, n - 1, until);
      assert Entered(services, until, n) == Registered(s, services[n - 1], until);
    }
  }

  /** The registry after the first `n` steps of that history. */
  function EntriesAt(services: seq<Service>, now: int, ttl: int, n: nat): map<string, ServiceEntry>
    requires n <= 2 * |services|
  {
    StateAt(EMPTY, RegisterThenDrop(services, now), ttl, n).data
  }

  lemma RegisteredAreEntered(services: seq<Service>, now: int, ttl: int)
    requires AllValid(services)
    ensures EntriesAt(services, now, ttl, |services|) == Entered(services, now + ttl, |services|).data
  {
    var run := RegisterThenDrop(services, now);
    forall i | 0 <= i < |services| ensures RegistersAt(run, services, now, i) {
      assert ValidService(services[i]);
    }
    RunEnters(services, run, now, ttl, |services|);
  }

  lemma DroppingUndoesEntering(services: seq<Service>, until: int, n: nat)
    requires DifferentNames(services) && n < |services|
    ensures Entered(services, until, n + 1).data - {services[n].name} == Entered(services, until, n).data
  {
    AllEntered(services, until, n);
    var before := Entered(services, until, n).data;
    assert services[n].name !in before by {
      assert forall i :: 0 <= i < n ==> NamesOf(services[..n])[i] != services[n].name;
    }
    assert Entered(services, until, n + 1) == Registered(Entered(services, until, n), services[n], until);
  }

  /** After `d` removals the registry is as it was before the last `d` registrations. */
  ghost predicate RemovalsUndo(services: seq<Service>, now: int, ttl: int, d: nat)
    requires d <= |services|
  {
    EntriesAt(services, now, ttl, |services| + d) == Entered(services, now + ttl, |services| - d).data
  }

  lemma {:induction false} RemainingAreEntered(services: seq<Service>, now: int, ttl: int, d: nat)
    requires DifferentNames(services) && d <= |services| && RemovalsUndo(services, now, ttl, 0)
    ensures RemovalsUndo(services, now, ttl, d)
  {
    if d > 0 {
      RemainingAreEntered(services, now, ttl, d - 1);
      OneMoreUndone(services, now, ttl, d);
    }
  }

  lemma OneMoreUndone(services: seq<Service>, now: int, ttl: int, d: nat)
    requires DifferentNames(services) && 0 < d <= |services|
    requires RemovalsUndo(services, now, ttl, d - 1)
    ensures RemovalsUndo(services, now, ttl, d)
  {
    DroppingUndoesEntering(services, now + ttl, |services| - d);
    RemovalDrops(services, now, ttl, d);
  }

  lemma RemovalDrops(services: seq<Service>, now: int, ttl: int, d: nat)
    requires 0 < d <= |services|
    ensures EntriesAt(services, now, ttl, |services| + d)
         == EntriesAt(services, now, ttl, |services| + d - 1) - {services[|services| - d].name}
  {
    DeregisterDrops(RegisterThenDrop(services, now), ttl, |services| + d - 1, services[|services| - d].name);
  }

  lemma DeregisterDrops(run: seq<Step>, ttl: int, n: nat, name: string)
    requires n < |run| && run[n].cmd == CmdDeregister(name)
    ensures StateAt(EMPTY, run, ttl, n + 1).data == StateAt(EMPTY, run, ttl, n).data - {name}
  {
  }

  lemma HeldNamesMatch(data: map<string, ServiceEntry>, services: seq<Service>, until: int)
    requires HoldsFirst(data, services, |services|, until)
    ensures NamesMatch(data)
  {
    assert services[..|services|] == services;
    forall x | x in data ensures data[x].service.name == x {
      var i :| 0 <= i < |services| && NamesOf(services)[i] == x;
      assert HoldsAt(data, services, i, until);
    }
  }

  lemma ScannedList(data: map<string, ServiceEntry>, services: seq<Service>, tag: string, now: int, ttl: int)
    returns (listed: seq<Service>)
    requires DifferentNames(services) && ttl > 0
    requires forall i :: 0 <= i < |services| ==> tag in services[i].tags
    requires HoldsFirst(data, services, |services|, now + ttl)
    ensures listed == ScanFor(data, now, [tag], map[])
    ensures |listed| == |services| && DifferentNames(listed)
    ensures forall svc :: svc in listed ==> svc in services
  {
    var wanted := Wanted(data, now, [tag], map[]);
    HeldNamesMatch(data, services, now + ttl);
    listed := ScannedServices(data, wanted);
    ListedAreServices(data, listed, services, now + ttl);
    assert |listed| == |services| by {
      WantedAreTheNames(services, data, wanted, tag, now, ttl);
      SameLength(listed, services, data, wanted);
    }
  }

  lemma ScannedServices(data: map<string, ServiceEntry>, wanted: set<string>) returns (listed: seq<Service>)
    requires wanted <= data.Keys && NamesMatch(data)
    ensures listed == Scan(data, wanted) && DifferentNames(listed)
    ensures forall i :: 0 <= i < |listed| ==> listed[i].name in wanted && listed[i] == data[listed[i].name].service
    ensures forall x :: x in wanted ==> exists i :: 0 <= i < |listed| && listed[i] == data[x].service
  {
    ScanIsExact(data, wanted);
    listed := Scan(data, wanted);
  }

  lemma ListedAreServices(data: map<string, ServiceEntry>, listed: seq<Service>, services: seq<Service>, until: int)
    requires HoldsFirst(data, services, |services|, until)
    requires forall i :: 0 <= i < |listed| ==> listed[i].name in data && listed[i] == data[listed[i].name].service
    ensures forall svc :: svc in listed ==> svc in services
  {
    assert services[..|services|] == services;
    forall svc | svc in listed ensures svc in services {
      var i :| 0 <= i < |services| && NamesOf(services)[i] == svc.name;
      assert HoldsAt(data, services, i, until);
    }
  }

  lemma EnteredListed(services: seq<Service>, tag: string, now: int, ttl: int) returns (listed: seq<Service>)
    requires DifferentNames(services) && ttl > 0
    requires forall i :: 0 <= i < |services| ==> tag in services[i].tags
    ensures listed == ScanFor(Entered(services, now + ttl, |services|).data, now, [tag], map[])
    ensures |listed| == |services| && DifferentNames(listed)
    ensures forall svc :: svc in listed ==> svc in services
  {
    AllEntered(services, now + ttl, |services|);
    listed := ScannedList(Entered(services, now + ttl, |services|).data, services, tag, now, ttl);
  }

  lemma AllListed(services: seq<Service>, tag: string, now: int, ttl: int) returns (listed: seq<Service>)
    requires DifferentNames(services) && ttl > 0 && AllValid(services)
    requires forall i :: 0 <= i < |services| ==> tag in services[i].tags
    ensures listed == ScanFor(EntriesAt(services, now, ttl, |services|), now, [tag], map[])
    ensures |listed| == |services| && DifferentNames(listed)
    ensures forall svc :: svc in listed ==> svc in services
  {
    RegisteredAreEntered(services, now, ttl);
    listed := EnteredListed(services, tag, now, ttl);
  }

  lemma WantedAreTheNames(services: seq<Service>, data: map<string, ServiceEntry>, wanted: set<string>, tag: string,
                          now: int, ttl: int)
    requires wanted == Wanted(data, now, [tag], map[]) && ttl > 0
    requires forall i :: 0 <= i < |services| ==> tag in services[i].tags
    requires HoldsFirst(data, services, |services|, now + ttl)
    ensures forall i :: 0 <= i < |services| ==> services[i].name in wanted
    ensures forall x :: x in wanted ==> exists i :: 0 <= i < |services| && services[i].name == x
  {
    assert services[..|services|] == services;
    forall i | 0 <= i < |services| ensures services[i].name in wanted {
      assert HoldsAt(data, services, i, now + ttl);
      assert HasAllTags(data[services[i].name], [tag]) && HasAllMeta(data[services[i].name], map[]);
    }
  }

  lemma SameLength(listed: seq<Service>, services: seq<Service>, data: map<string, ServiceEntry>, wanted: set<string>)
    requires DifferentNames(listed) && DifferentNames(services) && wanted <= data.Keys && NamesMatch(data)
    requires forall i :: 0 <= i < |listed| ==> listed[i].name in wanted
    requires forall x :: x in wanted ==> exists i :: 0 <= i < |listed| && listed[i] == data[x].service
    requires forall i :: 0 <= i < |services| ==> services[i].name in wanted
    requires forall x :: x in wanted ==> exists i :: 0 <= i < |services| && services[i].name == x
    ensures |listed| == |services|
  {
    NamesEnumerate(listed, wanted);
    NamesEnumerate(services, wanted);
    EnumerationLength(NamesOf(listed), wanted);
    EnumerationLength(NamesOf(services), wanted);
  }

  lemma NamesEnumerate(services: seq<Service>, names: set<string>)
    requires DifferentNames(services)
    requires forall i :: 0 <= i < |services| ==> services[i].name in names
    requires forall x :: x in names ==> exists i :: 0 <= i < |services| && services[i].name == x
    ensures Enumerates(NamesOf(services), names)
  {
    forall x ensures x in NamesOf(services) <==> x in names {
      if x in names {
        var i :| 0 <= i < |services| && services[i].name == x;
        assert NamesOf(services)[i] == x;
      }
    }
  }

  // ---- Two services with one node text -------------------------------------------------------------------------

  function Tagged(name: string, address: string, tag: string): Service {
    Service(name, address, 80, [tag], map[])
  }

  lemma TaggedIsValid(name: string, address: string, tag: string)
    requires name != "" && address != "" && ValidTag(tag)
    ensures ValidService(Tagged(name, address, tag))
  {
  }

  /** A colon may move between name and address: the two services have different names, the same virtual nodes and one
      connection counter, and of the list that a query returns the first one gets no key at all, whatever the hash. */
  lemma ColonTwins(x: string, y: string, z: string, tag: string, now: int, ttl: int) returns (listed: seq<Service>)
    requires x != "" && y != "" && z != "" && ValidTag(tag) && ttl > 0
    ensures var twins := [Tagged(x, y + ":" + z, tag), Tagged(x + ":" + y, z, tag)];
            listed == ScanFor(EntriesAt(twins, now, ttl, 2), now, [tag], map[])
    ensures |listed| == 2 && listed[0].name != listed[1].name
    ensures NodeText(listed[0]) == NodeText(listed[1]) && InstanceKey(listed[0]) == InstanceKey(listed[1])
    ensures forall hash: string -> nat, k: nat :: !Routes(hash, listed, k, 0)
  {
    var twins := [Tagged(x, y + ":" + z, tag), Tagged(x + ":" + y, z, tag)];
    TaggedIsValid(x, y + ":" + z, tag);
    TaggedIsValid(x + ":" + y, z, tag);
    assert x + ":" + (y + ":" + z) == (x + ":" + y) + ":" + z;
    listed := AllListed(twins, tag, now, ttl);
    assert listed[0] in listed && listed[1] in listed;
    forall hash: string -> nat, k: nat ensures !Routes(hash, listed, k, 0) {
      EarlierTwinGetsNothing(hash, listed, k, 0, 1);
    }
  }

  // ---- Any number of services with one node text ---------------------------------------------------------------

  function Colons(n: nat): string {
    if n == 0 then "" else ":a" + Colons(n - 1)
  }

  lemma {:induction false} ColonsAdd(m: nat, n: nat)
    ensures Colons(m) + Colons(n) == Colons(m + n)
    ensures |Colons(m)| == 2 * m
  {
    if m > 0 {
      ColonsAdd(m - 1, n);
      assert (":a" + Colons(m - 1)) + Colons(n) == ":a" + (Colons(m - 1) + Colons(n));
    }
  }

  /** The `i`-th of `m` ways to split one text at a colon. */
  function Split(m: nat, i: nat, tag: string): Service
    requires i < m
  {
    Tagged("a" + Colons(i), "a" + Colons(m - 1 - i), tag)
  }

  lemma SplitText(m: nat, i: nat, tag: string)
    requires i < m
    ensures NodeText(Split(m, i, tag)) == "a" + Colons(m)
    ensures |Split(m, i, tag).name| == 1 + 2 * i
  {
    ColonsAdd(i, m - i);
    assert ":" + ("a" + Colons(m - 1 - i)) == ":a" + Colons(m - 1 - i) == Colons(m - i);
    assert (("a" + Colons(i)) + ":") + ("a" + Colons(m - 1 - i))
        == "a" + (Colons(i) + (":" + ("a" + Colons(m - 1 - i))));
  }

  function Splits(m: nat, tag: string): (services: seq<Service>)
    ensures |services| == m
  {
    seq(m, i requires 0 <= i < m => Split(m, i, tag))
  }

  lemma SplitsAt(m: nat, tag: string)
    ensures forall i :: 0 <= i < m ==> Splits(m, tag)[i] == Split(m, i, tag)
  {
  }

  /** For every number of instances there is a list of that length, all with different names, that a query returns and
      whose instances share their virtual nodes. */
  lemma SharedTextIsReachable(m: nat, tag: string, now: int, ttl: int) returns (listed: seq<Service>)
    requires ValidTag(tag) && ttl > 0
    ensures listed == ScanFor(EntriesAt(Splits(m, tag), now, ttl, m), now, [tag], map[])
    ensures |listed| == m && DifferentNames(listed)
    ensures forall i :: 0 <= i < m ==> NodeText(listed[i]) == "a" + Colons(m)
  {
    var services := Splits(m, tag);
    SplitsAt(m, tag);
    forall i | 0 <= i < m
      ensures ValidService(services[i]) && |services[i].name| == 1 + 2 * i && NodeText(services[i]) == "a" + Colons(m)
    {
      TaggedIsValid("a" + Colons(i), "a" + Colons(m - 1 - i), tag);
      SplitText(m, i, tag);
    }
    listed := AllListed(services, tag, now, ttl);
    forall i | 0 <= i < m ensures NodeText(listed[i]) == "a" + Colons(m) {
      assert listed[i] in listed && listed[i] in services;
    }
  }

  /** Valid services with different names that all carry the tag. */
  ghost predicate Queryable(services: seq<Service>, tag: string) {
    AllValid(services) && DifferentNames(services) && forall i :: 0 <= i < |services| ==> tag in services[i].tags
  }

  /** After `d` removals a query returns the others. */
  lemma RemainingListed(services: seq<Service>, tag: string, now: int, ttl: int, d: nat) returns (listed: seq<Service>)
    requires Queryable(services, tag) && ttl > 0 && d <= |services|
    ensures listed == ScanFor(EntriesAt(services, now, ttl, |services| + d), now, [tag], map[])
    ensures |listed| == |services| - d && DifferentNames(listed)
  {
    RegisteredAreEntered(services, now, ttl);
    RemainingAreEntered(services, now, ttl, d);
    listed := UndoneListed(services, EntriesAt(services, now, ttl, |services| + d), tag, now, ttl, d);
  }

  lemma UndoneListed(services: seq<Service>, data: map<string, ServiceEntry>, tag: string, now: int, ttl: int, d: nat)
    returns (listed: seq<Service>)
    requires DifferentNames(services) && ttl > 0 && d <= |services|
    requires forall i :: 0 <= i < |services| ==> tag in services[i].tags
    requires data == Entered(services, now + ttl, |services| - d).data
    ensures listed == ScanFor(data, now, [tag], map[])
    ensures |listed| == |services| - d && DifferentNames(listed)
  {
    var kept := services[..|services| - d];
    EnteredPrefix(services, now + ttl, |kept|, |kept|);
    FirstTagged(services, |kept|, tag);
    listed := EnteredListed(kept, tag, now, ttl);
  }

  lemma FirstTagged(services: seq<Service>, n: nat, tag: string)
    requires DifferentNames(services) && n <= |services|
    requires forall i :: 0 <= i < |services| ==> tag in services[i].tags
    ensures DifferentNames(services[..n]) && forall i :: 0 <= i < n ==> tag in services[..n][i].tags
  {
  }

  lemma {:induction false} EnteredPrefix(services: seq<Service>, until: int, kept: nat, n: nat)
    requires n <= kept <= |services|
    ensures Entered(services[..kept], until, n) == Entered(services, until, n)
  {
    if n > 0 {
      EnteredPrefix(services, until, kept, n - 1);
    }
  }

  lemma SplitsAreValid(m: nat, tag: string)
    requires ValidTag(tag)
    ensures AllValid(Splits(m, tag)) && DifferentNames(Splits(m, tag))
  {
    var services := Splits(m, tag);
    SplitsAt(m, tag);
    forall i | 0 <= i < m ensures ValidService(services[i]) && |services[i].name| == 1 + 2 * i {
      TaggedIsValid("a" + Colons(i), "a" + Colons(m - 1 - i), tag);
      SplitText(m, i, tag);
    }
  }

  /** After a call that built the ring of more than 150 services with one node text, every keyed call under the same
      name on a list as long as the ring is sent past the end. */
  lemma SecondCallsOverflow(hash: string -> nat, before: Rings, after: Rings, first: RingCall, index: Option<nat>,
                            table: Rings, call: RingCall, answer: Option<nat>)
    requires |first.instances| > 150 && first.key != "" && !Reuses(before, first.name, |first.instances|)
    requires forall i :: 0 <= i < |first.instances| ==> NodeText(first.instances[i]) == NodeText(first.instances[0])
    requires RingStep(hash, before, after, first, index) && RingStep(hash, after, table, call, answer)
    requires call.name == first.name && call.key != "" && |call.instances| == NodeCount(hash, first.instances)
    ensures answer == None && table == after
  {
    RingSize(hash, after[first.name], first.instances);
    assert Reuses(after, first.name, |call.instances|);
    assert RoutesWithin(hash, first.instances, hash(call.key), |call.instances|, answer);
    SharedTextOverflows(hash, after, first.name, first.instances, |call.instances|, hash(call.key), answer);
  }

  /** So the overflow is reached in one history of the registry, whatever the hash: more than 150 services that share
      one node text are registered and queried, and a call builds their ring; then some are removed and the query is
      made again, and every keyed call under the same name is sent past the end of the second result. */
  lemma OverflowIsReachable(m: nat, tag: string, now: int, ttl: int, listed: seq<Service>, hash: string -> nat,
                            before: Rings, after: Rings, first: RingCall, index: Option<nat>)
    returns (dropped: nat, later: seq<Service>)
    requires m > 150 && ValidTag(tag) && ttl > 0
    requires listed == ScanFor(EntriesAt(Splits(m, tag), now, ttl, m), now, [tag], map[])
    requires first.instances == listed && first.key != "" && !Reuses(before, first.name, m)
    requires RingStep(hash, before, after, first, index)
    ensures dropped <= m
    ensures later == ScanFor(EntriesAt(Splits(m, tag), now, ttl, |Splits(m, tag)| + dropped), now, [tag], map[])
    ensures DifferentNames(listed) && DifferentNames(later) && 0 < |later| <= 150
    ensures forall call, table, answer :: RingStep(hash, after, table, call, answer) ==>
              (call.name == first.name && call.instances == later && call.key != "" ==>
                 answer == None && table == after)
  {
    var same := SharedTextIsReachable(m, tag, now, ttl);
    assert same == listed && |listed| == m;
    SharedTextNodeCount(hash, listed);
    NodeCountBounds(hash, listed);
    dropped := m - NodeCount(hash, listed);
    SplitsAreQueryable(m, tag);
    later := RemainingListed(Splits(m, tag), tag, now, ttl, dropped);
    forall call, table, answer | RingStep(hash, after, table, call, answer) && call.name == first.name
                                 && call.instances == later && call.key != ""
      ensures answer == None && table == after
    {
      SecondCallsOverflow(hash, before, after, first, index, table, call, answer);
    }
  }

  lemma SplitsAreQueryable(m: nat, tag: string)
    requires ValidTag(tag)
    ensures Queryable(Splits(m, tag), tag)
  {
    SplitsAreValid(m, tag);
    SplitsAt(m, tag);
  }

  /** A ring can be reused for the list it was built from: with 150 such services it is exactly when the hash keeps
      the 150 nodes of one of them apart. */
  lemma OwnListIsReused(tag: string, now: int, ttl: int, listed: seq<Service>, hash: string -> nat, rings: Rings,
                        name: string)
    requires ValidTag(tag) && ttl > 0
    requires listed == ScanFor(EntriesAt(Splits(150, tag), now, ttl, 150), now, [tag], map[])
    requires name in rings && IsRing(rings[name], hash, listed)
    ensures |listed| == 150 && (Reuses(rings, name, 150) <==> NodeCount(hash, [listed[0]]) == 150)
  {
    var same := SharedTextIsReachable(150, tag, now, ttl);
    assert same == listed;
    SharedTextNodeCount(hash, listed);
    OwnListIsReusedIff(hash, rings, name, listed);
  }
}
