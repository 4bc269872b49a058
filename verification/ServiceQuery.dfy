/** What the queries of the registry are to return: a plain scan of the entries, in name order. */
module ServiceQuery {
  import opened Prelude
  import opened ServiceTypes
  import opened ServiceModel
  import opened ServiceIndex
  import opened Sorting

  predicate HasAllTags(entry: ServiceEntry, tags: seq<string>) {
    forall tag :: tag in tags ==> tag in entry.service.tags
  }

  predicate HasAllMeta(entry: ServiceEntry, filters: map<string, string>) {
    forall k :: k in filters ==> Maps(entry.service.meta, k, filters[k])
  }

  /** The names a scan keeps: expiring after `now`, with every tag and every metadata value. */
  function Wanted(data: map<string, ServiceEntry>, now: int, tags: seq<string>,
                  filters: map<string, string>): set<string> {
    set n | n in data && data[n].expiresAt > now && HasAllTags(data[n], tags) && HasAllMeta(data[n], filters)
  }

  ghost function SortedNames(names: set<string>): (s: seq<string>)
    ensures StrictlySorted(s) && Elements(s) == names
  {
    if names == {} then []
    else
      var x :| x in names;
      InsertName(x, SortedNames(names - {x}))
  }

  function ServicesAt(data: map<string, ServiceEntry>, names: seq<string>): seq<Service>
    requires forall n :: n in names ==> n in data
  {
    if |names| == 0 then [] else ServicesAt(data, names[..|names| - 1]) + [data[names[|names| - 1]].service]
  }

  /** The reference: the wanted services, strictly by name. */
  ghost function Scan(data: map<string, ServiceEntry>, wanted: set<string>): seq<Service>
    requires wanted <= data.Keys
  {
    ServicesAt(data, SortedNames(wanted))
  }

  ghost function ScanFor(data: map<string, ServiceEntry>, now: int, tags: seq<string>,
                         filters: map<string, string>): seq<Service>
  {
    Scan(data, Wanted(data, now, tags, filters))
  }

  lemma ScanIs(data: map<string, ServiceEntry>, wanted: set<string>, names: seq<string>)
    requires wanted <= data.Keys && StrictlySorted(names) && Elements(names) == wanted
    ensures (forall n :: n in names ==> n in data) && ServicesAt(data, names) == Scan(data, wanted)
  {
    StrictlySortedUnique(names, SortedNames(wanted));
    assert forall n :: n in names ==> n in Elements(names);
  }

  lemma {:induction false} ServicesAtIndex(data: map<string, ServiceEntry>, names: seq<string>)
    requires forall n :: n in names ==> n in data
    ensures |ServicesAt(data, names)| == |names|
    ensures forall i :: 0 <= i < |names| ==> ServicesAt(data, names)[i] == data[names[i]].service
  {
    if |names| > 0 {
      ServicesAtIndex(data, names[..|names| - 1]);
      assert forall i :: 0 <= i < |names| - 1 ==> names[i] == names[..|names| - 1][i];
    }
  }

  /** A scan is strictly sorted by name, without duplicates, and holds exactly the wanted services. */
  lemma ScanIsExact(data: map<string, ServiceEntry>, wanted: set<string>)
    requires wanted <= data.Keys && NamesMatch(data)
    ensures var r := Scan(data, wanted);
            && (forall i, j :: 0 <= i < j < |r| ==> Less(r[i].name, r[j].name) && r[i].name != r[j].name)
            && (forall i :: 0 <= i < |r| ==> r[i].name in wanted && r[i] == data[r[i].name].service)
            && (forall n :: n in wanted ==> exists i :: 0 <= i < |r| && r[i] == data[n].service)
  {
    var names, r := SortedNames(wanted), Scan(data, wanted);
    ServicesAtIndex(data, names);
    forall i | 0 <= i < |r| ensures r[i].name == names[i] && names[i] in wanted {
      assert names[i] in Elements(names);
    }
    forall i, j | 0 <= i < j < |r| ensures Less(r[i].name, r[j].name) && r[i].name != r[j].name {
      LessTrichotomy(names[i], names[j]);
    }
    forall n | n in wanted ensures exists i :: 0 <= i < |r| && r[i] == data[n].service {
      assert n in Elements(names);
      var i :| 0 <= i < |names| && names[i] == n;
      assert r[i] == data[n].service;
    }
  }

  /** What `List` returns when it meets the entries in the given order: the unexpired services, unsorted. */
  function Listing(data: map<string, ServiceEntry>, now: int, order: seq<string>): seq<Service>
    requires forall n :: n in order ==> n in data
  {
    if |order| == 0 then []
    else
      var n := order[|order| - 1];
      Listing(data, now, order[..|order| - 1]) + (if data[n].expiresAt > now then [data[n].service] else [])
  }

  lemma {:induction false} ListingHolds(data: map<string, ServiceEntry>, now: int, order: seq<string>, svc: Service)
    requires forall n :: n in order ==> n in data
    ensures svc in Listing(data, now, order) <==>
            exists n :: n in order && data[n].expiresAt > now && data[n].service == svc
  {
    if |order| > 0 {
      var k := |order| - 1;
      ListingHolds(data, now, order[..k], svc);
      assert order == order[..k] + [order[k]];
    }
  }

  lemma {:induction false} ListingNames(data: map<string, ServiceEntry>, now: int, order: seq<string>)
    requires NamesMatch(data) && NoDup(order) && forall n :: n in order ==> n in data
    ensures forall svc :: svc in Listing(data, now, order) ==> svc.name in order
    ensures forall i, j :: 0 <= i < j < |Listing(data, now, order)| ==>
              Listing(data, now, order)[i].name != Listing(data, now, order)[j].name
  {
    if |order| > 0 {
      var k := |order| - 1;
      ListingNames(data, now, order[..k]);
      assert order == order[..k] + [order[k]];
      var shorter := Listing(data, now, order[..k]);
      forall i | 0 <= i < |shorter| ensures shorter[i].name != order[k] {
        assert shorter[i] in shorter;
      }
    }
  }

  /** Without filters: exactly the services whose entries have not expired, each name once. */
  lemma ListingIsExact(data: map<string, ServiceEntry>, now: int, order: seq<string>)
    requires NamesMatch(data) && Enumerates(order, data.Keys)
    ensures forall n :: n in order ==> n in data
    ensures forall svc :: svc in Listing(data, now, order) <==>
              exists n :: n in data && data[n].expiresAt > now && data[n].service == svc
    ensures forall i, j :: 0 <= i < j < |Listing(data, now, order)| ==>
              Listing(data, now, order)[i].name != Listing(data, now, order)[j].name
  {
    EnumerationMembers(order, data.Keys);
    forall svc ensures svc in Listing(data, now, order) <==>
                       exists n :: n in data && data[n].expiresAt > now && data[n].service == svc
    {
      ListingHolds(data, now, order, svc);
    }
    ListingNames(data, now, order);
  }

  /** The entry under `name` holds the service, has not expired, carries every tag, and its metadata has every filter's
      value under its key. */
  ghost predicate IsFound(data: map<string, ServiceEntry>, name: string, now: int, tags: seq<string>,
                          filters: map<string, string>, svc: Service)
  {
    && name in data && data[name].service == svc && data[name].expiresAt > now
    && (forall tag :: tag in tags ==> tag in svc.tags)
    && forall k :: k in filters ==> k in svc.meta && svc.meta[k] == filters[k]
  }

  lemma WantedIff(data: map<string, ServiceEntry>, name: string, now: int, tags: seq<string>,
                  filters: map<string, string>)
    ensures name in Wanted(data, now, tags, filters) <==>
            name in data && IsFound(data, name, now, tags, filters, data[name].service)
  {
  }

  /** With filters: exactly the services that are found. */
  lemma FoundIff(data: map<string, ServiceEntry>, now: int, tags: seq<string>, filters: map<string, string>,
                 svc: Service)
    requires NamesMatch(data)
    ensures svc in ScanFor(data, now, tags, filters) <==> exists n :: IsFound(data, n, now, tags, filters, svc)
  {
    var wanted := Wanted(data, now, tags, filters);
    ScanHoldsIff(data, wanted, svc);
    forall n ensures n in wanted <==> n in data && IsFound(data, n, now, tags, filters, data[n].service) {
      WantedIff(data, n, now, tags, filters);
    }
  }

  lemma ScanHoldsIff(data: map<string, ServiceEntry>, wanted: set<string>, svc: Service)
    requires wanted <= data.Keys && NamesMatch(data)
    ensures svc in Scan(data, wanted) <==> exists n :: n in wanted && data[n].service == svc
  {
    ScanIsExact(data, wanted);
    var r := Scan(data, wanted);
    if svc in r {
      var i :| 0 <= i < |r| && r[i] == svc;
      assert svc.name in wanted && data[svc.name].service == svc;
    }
  }

  // ---- From index buckets to wanted names ----------------------------------------------------------------------

  predicate InAllBuckets(index: Tags, tags: seq<string>, name: string) {
    forall tag :: tag in tags ==> name in Tagged(index, tag)
  }

  lemma OneMoreBucket(index: Tags, tags: seq<string>, i: nat, name: string)
    requires i < |tags|
    ensures InAllBuckets(index, tags[..i + 1], name) <==>
            InAllBuckets(index, tags[..i], name) && name in Tagged(index, tags[i])
  {
    assert tags[..i + 1] == tags[..i] + [tags[i]];
  }

  lemma WantedByTags(data: map<string, ServiceEntry>, index: Tags, now: int, tags: seq<string>, candidates: set<string>)
    requires TagsAgree(data, index) && |tags| > 0
    requires forall n :: n in candidates <==> InAllBuckets(index, tags, n)
    ensures (set n | n in candidates && n in data && data[n].expiresAt > now) == Wanted(data, now, tags, map[])
  {
    forall n | n in data ensures n in candidates <==> HasAllTags(data[n], tags) {
      forall tag ensures n in Tagged(index, tag) <==> tag in data[n].service.tags {
        assert n in Tagged(index, tag) <==> HasTag(data, n, tag);
      }
    }
  }

  lemma WantedByMeta(data: map<string, ServiceEntry>, index: Metas, now: int, filters: map<string, string>,
                     candidates: set<string>)
    requires MetasAgree(data, index)
    requires forall n :: n in candidates <==> forall k :: k in filters ==> n in Listed(index, k, filters[k])
    ensures (set n | n in candidates && n in data && data[n].expiresAt > now) == Wanted(data, now, [], filters)
  {
    forall n | n in data ensures n in candidates <==> HasAllMeta(data[n], filters) {
      forall k | k in filters ensures n in Listed(index, k, filters[k]) <==> Maps(data[n].service.meta, k, filters[k]) {
        assert n in Listed(index, k, filters[k]) <==> HasMeta(data, n, k, filters[k]);
      }
    }
  }

  lemma NothingWanted(data: map<string, ServiceEntry>, wanted: set<string>)
    requires wanted <= data.Keys
    ensures wanted == {} ==> Scan(data, wanted) == []
  {
    ServicesAtIndex(data, SortedNames(wanted));
    assert forall n :: n in SortedNames(wanted) ==> n in wanted;
  }

  // ---- Intersecting two results --------------------------------------------------------------------------------

  function Kept(services: seq<Service>, names: set<string>): seq<Service> {
    if |services| == 0 then []
    else Kept(services[..|services| - 1], names)
         + (if services[|services| - 1].name in names then [services[|services| - 1]] else [])
  }

  function KeptNames(sorted: seq<string>, names: set<string>): seq<string> {
    if |sorted| == 0 then []
    else KeptNames(sorted[..|sorted| - 1], names)
         + (if sorted[|sorted| - 1] in names then [sorted[|sorted| - 1]] else [])
  }

  lemma {:induction false} KeptNamesSorted(sorted: seq<string>, names: set<string>)
    requires StrictlySorted(sorted)
    ensures StrictlySorted(KeptNames(sorted, names))
    ensures Elements(KeptNames(sorted, names)) == Elements(sorted) * names
  {
    if |sorted| > 0 {
      var n := |sorted| - 1;
      KeptNamesSorted(sorted[..n], names);
      assert sorted == sorted[..n] + [sorted[n]];
      assert forall x :: x in KeptNames(sorted[..n], names) ==> x in Elements(sorted[..n]);
      assert forall x :: x in sorted[..n] ==> Less(x, sorted[n]);
    }
  }

  lemma {:induction false} KeptServices(data: map<string, ServiceEntry>, sorted: seq<string>, names: set<string>)
    requires NamesMatch(data) && forall n :: n in sorted ==> n in data
    ensures forall n :: n in KeptNames(sorted, names) ==> n in data
    ensures Kept(ServicesAt(data, sorted), names) == ServicesAt(data, KeptNames(sorted, names))
  {
    if |sorted| > 0 {
      var n := |sorted| - 1;
      KeptServices(data, sorted[..n], names);
      var services, kept := ServicesAt(data, sorted), KeptNames(sorted[..n], names);
      ServicesAtIndex(data, sorted);
      assert services[..|services| - 1] == ServicesAt(data, sorted[..n]);
      assert services[n] == data[sorted[n]].service && data[sorted[n]].service.name == sorted[n];
      if sorted[n] in names {
        assert (kept + [sorted[n]])[..|kept|] == kept;
        assert KeptNames(sorted, names) == kept + [sorted[n]];
        assert Kept(services, names) == Kept(services[..n], names) + [services[n]];
      } else {
        assert KeptNames(sorted, names) == kept;
        assert Kept(services, names) == Kept(services[..n], names);
      }
    }
  }

  /** Keeping the metadata hits whose names are tag hits is one scan with both kinds of filter. */
  lemma CombinedScan(data: map<string, ServiceEntry>, now: int, later: int, tags: seq<string>,
                     meta: map<string, string>,
                     byTags: seq<Service>, byMeta: seq<Service>, result: seq<Service>)
    requires NamesMatch(data) && now <= later
    requires byTags == ScanFor(data, now, tags, map[]) && byMeta == ScanFor(data, later, [], meta)
    requires result == Kept(byMeta, set i | 0 <= i < |byTags| :: byTags[i].name)
    ensures result == ScanFor(data, later, tags, meta)
  {
    NamesOfScan(data, Wanted(data, now, tags, map[]));
    var tagNames := Wanted(data, now, tags, map[]);
    assert tagNames == set i | 0 <= i < |byTags| :: byTags[i].name;
    var sorted := SortedNames(Wanted(data, later, [], meta));
    assert forall n :: n in sorted ==> n in Elements(sorted);
    KeptServices(data, sorted, tagNames);
    KeptNamesSorted(sorted, tagNames);
    BothFilters(data, now, later, tags, meta);
    ScanIs(data, Wanted(data, later, tags, meta), KeptNames(sorted, tagNames));
  }

  lemma NamesOfScan(data: map<string, ServiceEntry>, wanted: set<string>)
    requires NamesMatch(data) && wanted <= data.Keys
    ensures (set i | 0 <= i < |Scan(data, wanted)| :: Scan(data, wanted)[i].name) == wanted
  {
    var r := Scan(data, wanted);
    ScanIsExact(data, wanted);
    forall n | n in wanted ensures n in set i | 0 <= i < |r| :: r[i].name {
      var i :| 0 <= i < |r| && r[i] == data[n].service;
      assert r[i].name == n;
    }
  }

  lemma BothFilters(data: map<string, ServiceEntry>, now: int, later: int, tags: seq<string>, meta: map<string, string>)
    requires now <= later
    ensures Wanted(data, later, tags, meta) == Wanted(data, later, [], meta) * Wanted(data, now, tags, map[])
  {
  }
}
