/** The tag index and the metadata index of the registry, and when they agree with the entries. */
module ServiceIndex {
  import opened Prelude
  import opened ServiceTypes
  import opened ServiceModel

  type Tags = map<string, set<string>>
  type Metas = map<string, map<string, seq<string>>>

  function Tagged(index: Tags, tag: string): set<string> {
    if tag in index then index[tag] else {}
  }

  function Listed(index: Metas, key: string, value: string): seq<string> {
    if key in index && value in index[key] then index[key][value] else []
  }

  /** No empty bucket: no tag without services, no key without values, no value without services. */
  predicate NoEmptyTags(index: Tags) {
    forall tag :: tag in index ==> index[tag] != {}
  }

  predicate NoEmptyMetas(index: Metas) {
    forall k :: k in index ==> index[k] != map[] && forall v :: v in index[k] ==> index[k][v] != []
  }

  predicate HasTag(data: map<string, ServiceEntry>, name: string, tag: string) {
    name in data && tag in data[name].service.tags
  }

  predicate HasMeta(data: map<string, ServiceEntry>, name: string, key: string, value: string) {
    name in data && Maps(data[name].service.meta, key, value)
  }

  predicate Maps(meta: map<string, string>, key: string, value: string) {
    key in meta && meta[key] == value
  }

  ghost predicate TagsAgree(data: map<string, ServiceEntry>, index: Tags) {
    NoEmptyTags(index) && forall tag, name :: name in Tagged(index, tag) <==> HasTag(data, name, tag)
  }

  ghost predicate MetasAgree(data: map<string, ServiceEntry>, index: Metas) {
    && NoEmptyMetas(index)
    && (forall k, v :: NoDup(Listed(index, k, v)))
    && forall k, v, name :: name in Listed(index, k, v) <==> HasMeta(data, name, k, v)
  }

  /** What adding or removing one service does to every bucket. */
  ghost predicate TagsAdded(before: Tags, after: Tags, name: string, tags: seq<string>) {
    forall tag :: Tagged(after, tag) == Tagged(before, tag) + (if tag in tags then {name} else {})
  }

  ghost predicate TagsRemoved(before: Tags, after: Tags, name: string, tags: seq<string>) {
    forall tag :: Tagged(after, tag) == Tagged(before, tag) - (if tag in tags then {name} else {})
  }

  ghost predicate MetasAdded(before: Metas, after: Metas, name: string, meta: map<string, string>) {
    forall k, v :: Listed(after, k, v) == Listed(before, k, v) + (if Maps(meta, k, v) then [name] else [])
  }

  ghost predicate MetasRemoved(before: Metas, after: Metas, name: string, meta: map<string, string>) {
    forall k, v :: Listed(after, k, v) == if Maps(meta, k, v) then RemoveFirst(Listed(before, k, v), name)
                                          else Listed(before, k, v)
  }

  // ---- One service leaves, one service enters ------------------------------------------------------------------

  lemma TagsAgreeAfterRemoval(data: map<string, ServiceEntry>, before: Tags, after: Tags, name: string)
    requires TagsAgree(data, before) && NoEmptyTags(after) && name in data
    requires TagsRemoved(before, after, name, data[name].service.tags)
    ensures TagsAgree(data - {name}, after)
  {
    forall tag, n ensures n in Tagged(after, tag) <==> HasTag(data - {name}, n, tag) {
      assert n in Tagged(before, tag) <==> HasTag(data, n, tag);
    }
  }

  lemma TagsAgreeAfterAddition(data: map<string, ServiceEntry>, before: Tags, after: Tags, name: string,
                               entry: ServiceEntry)
    requires TagsAgree(data, before) && NoEmptyTags(after) && name !in data
    requires TagsAdded(before, after, name, entry.service.tags)
    ensures TagsAgree(data[name := entry], after)
  {
    forall tag, n ensures n in Tagged(after, tag) <==> HasTag(data[name := entry], n, tag) {
      assert n in Tagged(before, tag) <==> HasTag(data, n, tag);
    }
  }

  lemma MetasAgreeAfterRemoval(data: map<string, ServiceEntry>, before: Metas, after: Metas, name: string)
    requires MetasAgree(data, before) && NoEmptyMetas(after) && name in data
    requires MetasRemoved(before, after, name, data[name].service.meta)
    ensures MetasAgree(data - {name}, after)
  {
    forall k, v ensures NoDup(Listed(after, k, v))
                && forall n :: n in Listed(after, k, v) <==> HasMeta(data - {name}, n, k, v) {
      RemoveFirstContents(Listed(before, k, v), name);
      assert forall n :: n in Listed(before, k, v) <==> HasMeta(data, n, k, v);
    }
  }

  lemma MetasAgreeAfterAddition(data: map<string, ServiceEntry>, before: Metas, after: Metas, name: string,
                                entry: ServiceEntry)
    requires MetasAgree(data, before) && NoEmptyMetas(after) && name !in data
    requires MetasAdded(before, after, name, entry.service.meta)
    ensures MetasAgree(data[name := entry], after)
  {
    forall k, v ensures NoDup(Listed(after, k, v))
                && forall n :: n in Listed(after, k, v) <==> HasMeta(data[name := entry], n, k, v) {
      BucketAfterAddition(data, Listed(before, k, v), Listed(after, k, v), name, entry, k, v);
    }
  }

  lemma BucketAfterAddition(data: map<string, ServiceEntry>, before: seq<string>, after: seq<string>, name: string,
                            entry: ServiceEntry, k: string, v: string)
    requires NoDup(before) && name !in data && forall n :: n in before <==> HasMeta(data, n, k, v)
    requires after == if (k, v) in entry.service.meta.Items then before + [name] else before
    ensures NoDup(after) && forall n :: n in after <==> HasMeta(data[name := entry], n, k, v)
  {
    assert name !in before;
  }

  /** The indexes are a function of the entries, up to the order inside a metadata bucket. */
  lemma IndexesAreDetermined(data: map<string, ServiceEntry>, tags: Tags, tags': Tags, metas: Metas, metas': Metas)
    requires TagsAgree(data, tags) && TagsAgree(data, tags') && MetasAgree(data, metas) && MetasAgree(data, metas')
    ensures tags == tags'
    ensures forall k, v :: multiset(Listed(metas, k, v)) == multiset(Listed(metas', k, v))
  {
    forall tag ensures Tagged(tags, tag) == Tagged(tags', tag) && (tag in tags <==> Tagged(tags, tag) != {}) {
      forall name ensures name in Tagged(tags, tag) <==> name in Tagged(tags', tag) {
        assert name in Tagged(tags, tag) <==> HasTag(data, name, tag);
      }
    }
    forall tag ensures tag in tags <==> tag in tags' {
      assert tag in tags' <==> Tagged(tags', tag) != {};
    }
    forall k, v ensures multiset(Listed(metas, k, v)) == multiset(Listed(metas', k, v)) {
      forall name ensures name in Listed(metas, k, v) <==> name in Listed(metas', k, v) {
        assert name in Listed(metas, k, v) <==> HasMeta(data, name, k, v);
      }
      SameElementsOnce(Listed(metas, k, v), Listed(metas', k, v));
    }
  }

  lemma {:induction false} OccursOnce(s: seq<string>, x: string)
    requires NoDup(s)
    ensures multiset(s)[x] == if x in s then 1 else 0
  {
    if |s| > 0 {
      OccursOnce(s[1..], x);
      assert s == [s[0]] + s[1..];
      assert s[0] !in s[1..];
    }
  }

  lemma SameElementsOnce(a: seq<string>, b: seq<string>)
    requires NoDup(a) && NoDup(b) && forall x :: x in a <==> x in b
    ensures multiset(a) == multiset(b)
  {
    forall x ensures multiset(a)[x] == multiset(b)[x] {
      OccursOnce(a, x);
      OccursOnce(b, x);
    }
  }
}
