/** The events each key-value operation hands to the watch manager, and what folding them means. */
module KvEvents {
  import opened Prelude
  import opened Kv
  import Watch

  type Values = map<string, string>

  function ValuesOf(s: State): Values {
    map k | k in s.data :: s.data[k].value
  }

  function OldValue(s: State, key: string): string {
    if key in s.data then s.data[key].value else ""
  }

  function SetEvent(s: State, key: string, value: string): Watch.Event {
    Watch.Event(Watch.SetKind, key, value, OldValue(s, key))
  }

  function DeleteEvent(key: string, oldValue: string): Watch.Event {
    Watch.Event(Watch.DeleteKind, key, "", oldValue)
  }

  /** One set event per key, in the order the notification loop visits the batch. */
  function SetEvents(s: State, items: map<string, string>, order: seq<string>): (events: seq<Watch.Event>)
    requires forall k :: k in order ==> k in items
    ensures |events| == |order|
  {
    seq(|order|, i requires 0 <= i < |order| => SetEvent(s, order[i], items[order[i]]))
  }

  function DeleteEvents(was: Values, order: seq<string>): (events: seq<Watch.Event>)
    ensures |events| == |order|
  {
    seq(|order|, i requires 0 <= i < |order| => DeleteEvent(order[i], if order[i] in was then was[order[i]] else ""))
  }

  function LiveKeys(s: State, keys: seq<string>): set<string> {
    set k | k in keys && k in s.data
  }

  /** The old values a plain batch delete remembers: those of the keys that were there. */
  function RememberedLive(s: State, keys: seq<string>): Values {
    map k | k in LiveKeys(s, keys) :: s.data[k].value
  }

  /** A compare-and-swap batch delete overwrites what it remembers when a key is listed twice: by the second visit
      the key is gone and reads as the empty entry. */
  function RememberedCas(s: State, keys: seq<string>): Values {
    if |keys| == 0 then map[]
    else
      var n := |keys| - 1;
      RememberedCas(s, keys[..n])[keys[n] := if keys[n] in keys[..n] then "" else OldValue(s, keys[n])]
  }

  /** `events` is what one successful step may notify; the batch orders are those of Go maps. */
  ghost predicate Notifies(s: State, step: Step, events: seq<Watch.Event>)
    requires ValidStep(step)
  {
    if Apply(s, step).1.Failed? then events == []
    else match step.command
      case CmdSet(k, v) => events == [SetEvent(s, k, v)]
      case CmdSetWithFlags(k, v, _) => events == [SetEvent(s, k, v)]
      case CmdSetCAS(k, v, _) => events == [SetEvent(s, k, v)]
      case CmdDelete(k) => events == if k in s.data then [DeleteEvent(k, s.data[k].value)] else []
      case CmdDeleteCAS(k, _) => events == [DeleteEvent(k, OldValue(s, k))]
      case CmdBatchSet(items) => NotifiesSets(s, items, events)
      case CmdBatchSetCAS(items, _) => NotifiesSets(s, items, events)
      case CmdBatchDelete(keys) => NotifiesDeletes(RememberedLive(s, keys), events)
      case CmdBatchDeleteCAS(keys, _) => NotifiesDeletes(RememberedCas(s, keys), events)
  }

  ghost predicate SetsInOrder(s: State, items: map<string, string>, order: seq<string>, events: seq<Watch.Event>) {
    Enumerates(order, items.Keys) && (forall k :: k in order ==> k in items) && events == SetEvents(s, items, order)
  }

  ghost predicate NotifiesSets(s: State, items: map<string, string>, events: seq<Watch.Event>) {
    exists order :: SetsInOrder(s, items, order, events)
  }

  ghost predicate NotifiesDeletes(was: Values, events: seq<Watch.Event>) {
    exists order :: Enumerates(order, was.Keys) && events == DeleteEvents(was, order)
  }

  // ---- Folding events ------------------------------------------------------------------------------------------

  function Folded1(m: Values, e: Watch.Event): Values {
    match e.kind
    case SetKind => m[e.key := e.value]
    case DeleteKind => m - {e.key}
  }

  function Folded(m: Values, events: seq<Watch.Event>): Values {
    if |events| == 0 then m else Folded1(Folded(m, events[..|events| - 1]), events[|events| - 1])
  }

  lemma {:induction false} FoldedConcat(m: Values, a: seq<Watch.Event>, b: seq<Watch.Event>)
    ensures Folded(m, a + b) == Folded(Folded(m, a), b)
  {
    if |b| == 0 {
      assert a + b == a;
    } else {
      FoldedConcat(m, a, b[..|b| - 1]);
      assert (a + b)[..|a + b| - 1] == a + b[..|b| - 1];
    }
  }

  /** `r` is `m` with the listed keys set as in `items`. */
  ghost predicate Overlaid(m: Values, r: Values, items: Values, order: seq<string>) {
    && (forall k :: k in order ==> k in items && k in r && r[k] == items[k])
    && (forall k :: k !in order ==> (k in r <==> k in m))
    && (forall k :: k !in order && k in m ==> k in r && r[k] == m[k])
  }

  lemma OverlayOneMore(m: Values, r: Values, items: Values, order: seq<string>, n: nat)
    requires n < |order| && order[n] in items && Overlaid(m, r, items, order[..n])
    ensures Overlaid(m, r[order[n] := items[order[n]]], items, order[..n + 1])
  {
    assert order[..n + 1] == order[..n] + [order[n]];
  }

  lemma {:induction false} FoldedSets(m: Values, s: State, items: Values, order: seq<string>)
    requires forall k :: k in order ==> k in items
    ensures Overlaid(m, Folded(m, SetEvents(s, items, order)), items, order)
  {
    if |order| > 0 {
      var n := |order| - 1;
      FoldedSets(m, s, items, order[..n]);
      assert SetEvents(s, items, order)[..n] == SetEvents(s, items, order[..n]);
      OverlayOneMore(m, Folded(m, SetEvents(s, items, order[..n])), items, order, n);
      assert order[..n + 1] == order;
    }
  }

  lemma OneMoreKey(order: seq<string>, n: nat)
    requires |order| == n + 1
    ensures (set k | k in order) == (set k | k in order[..n]) + {order[n]}
  {
    assert order == order[..n] + [order[n]];
  }

  lemma {:induction false} FoldedDeletes(m: Values, was: Values, order: seq<string>)
    ensures Folded(m, DeleteEvents(was, order)) == m - set k | k in order
  {
    if |order| > 0 {
      var n := |order| - 1;
      FoldedDeletes(m, was, order[..n]);
      assert DeleteEvents(was, order)[..n] == DeleteEvents(was, order[..n]);
      OneMoreKey(order, n);
    } else {
      assert m - (set k | k in order) == m;
    }
  }

  lemma {:induction false} RememberedCasKeys(s: State, keys: seq<string>)
    ensures RememberedCas(s, keys).Keys == set k | k in keys
  {
    if |keys| > 0 {
      var n := |keys| - 1;
      RememberedCasKeys(s, keys[..n]);
      assert keys == keys[..n] + [keys[n]];
    }
  }

  lemma BatchSetValues(s: State, items: map<string, string>, write: seq<string>)
    requires Enumerates(write, items.Keys)
    ensures (forall k :: k in write <==> k in items) && ValuesOf(PutAll(s, items, write)) == ValuesOf(s) + items
  {
    OrderInItems(write, items);
    var t := PutAll(s, items, write);
    forall k
      ensures k in t.data <==> k in s.data || k in items
      ensures k in t.data ==> t.data[k].value == if k in items then items[k] else s.data[k].value
    {
      BatchValue(s, items, write, k);
    }
    ValuesOverlaid(s, t, items);
  }

  lemma ValuesOverlaid(s: State, t: State, items: map<string, string>)
    requires forall k :: k in t.data <==> k in s.data || k in items
    requires forall k :: k in t.data ==> t.data[k].value == if k in items then items[k] else s.data[k].value
    ensures ValuesOf(t) == ValuesOf(s) + items
  {
  }

  lemma BatchValue(s: State, items: map<string, string>, write: seq<string>, k: string)
    requires Enumerates(write, items.Keys)
    ensures forall x :: x in write ==> x in items
    ensures var t := PutAll(s, items, write);
            && (k in t.data <==> k in s.data || k in items)
            && (k in t.data ==> t.data[k].value == if k in items then items[k] else s.data[k].value)
  {
    BatchEffect(s, items, write);
    EffectValue(s, PutAll(s, items, write), items, k);
  }

  lemma EffectValue(s: State, t: State, items: map<string, string>, k: string)
    requires IsBatchEffect(s, t, items)
    ensures k in t.data <==> k in s.data || k in items
    ensures k in t.data ==> t.data[k].value == if k in items then items[k] else s.data[k].value
  {
  }

  lemma SetsMirror(s: State, items: map<string, string>, events: seq<Watch.Event>)
    requires NotifiesSets(s, items, events)
    ensures Folded(ValuesOf(s), events) == ValuesOf(s) + items
  {
    var order :| SetsInOrder(s, items, order, events);
    OrderInItems(order, items);
    FoldedSets(ValuesOf(s), s, items, order);
    OverlayIsSum(ValuesOf(s), Folded(ValuesOf(s), events), items, order);
  }

  lemma OverlayIsSum(m: Values, r: Values, items: Values, order: seq<string>)
    requires Overlaid(m, r, items, order) && forall k :: k in items ==> k in order
    ensures r == m + items
  {
  }

  lemma DeletesMirror(s: State, was: Values, keys: seq<string>, events: seq<Watch.Event>)
    requires NotifiesDeletes(was, events)
    requires LiveKeys(s, keys) <= was.Keys <= set k | k in keys
    ensures Folded(ValuesOf(s), events) == ValuesOf(RemoveAll(s, keys))
  {
    var order :| Enumerates(order, was.Keys) && events == DeleteEvents(was, order);
    FoldedDeletes(ValuesOf(s), was, order);
    RemoveAllContents(s, keys);
    forall k | k in s.data ensures k in (set x | x in order) <==> k in (set x | x in keys) {
      if k in (set x | x in keys) {
        assert k in LiveKeys(s, keys);
      }
    }
  }

  lemma SetMirrors(s: State, k: string, v: string)
    ensures Folded(ValuesOf(s), [SetEvent(s, k, v)]) == ValuesOf(Put(s, k, v))
    ensures forall f: nat :: ValuesOf(PutWithFlags(s, k, v, f)) == ValuesOf(Put(s, k, v))
  {
    assert Folded(ValuesOf(s), [SetEvent(s, k, v)]) == Folded1(Folded(ValuesOf(s), []), SetEvent(s, k, v));
  }

  lemma DeleteMirrors(s: State, k: string, was: string)
    ensures Folded(ValuesOf(s), [DeleteEvent(k, was)]) == ValuesOf(Remove(s, k))
    ensures k !in s.data ==> ValuesOf(Remove(s, k)) == ValuesOf(s)
  {
    assert Folded(ValuesOf(s), [DeleteEvent(k, was)]) == Folded1(Folded(ValuesOf(s), []), DeleteEvent(k, was));
  }

  /** Whatever the delivery order inside a batch, folding the events of a step over the old values gives the new
      ones. */
  lemma StepMirrors(s: State, step: Step, events: seq<Watch.Event>)
    requires ValidStep(step) && Notifies(s, step, events)
    ensures Folded(ValuesOf(s), events) == ValuesOf(Apply(s, step).0)
  {
    if !Apply(s, step).1.Failed? {
      match step.command {
        case CmdSet(k, v) => SetMirrors(s, k, v);
        case CmdSetWithFlags(k, v, _) => SetMirrors(s, k, v);
        case CmdSetCAS(k, v, _) => SetMirrors(s, k, v);
        case CmdDelete(k) => DeleteMirrors(s, k, OldValue(s, k));
        case CmdDeleteCAS(k, _) => DeleteMirrors(s, k, OldValue(s, k));
        case CmdBatchSet(items) =>
          SetsMirror(s, items, events);
          BatchSetValues(s, items, step.schedule.write);
        case CmdBatchSetCAS(items, _) =>
          SetsMirror(s, items, events);
          BatchSetValues(s, items, step.schedule.write);
        case CmdBatchDelete(keys) => DeletesMirror(s, RememberedLive(s, keys), keys, events);
        case CmdBatchDeleteCAS(keys, _) =>
          RememberedCasKeys(s, keys);
          DeletesMirror(s, RememberedCas(s, keys), keys, events);
      }
    }
  }

  // ---- What the events are about -------------------------------------------------------------------------------

  ghost predicate Reports(events: seq<Watch.Event>, kind: Watch.Kind, key: string) {
    exists i :: 0 <= i < |events| && events[i].kind == kind && events[i].key == key
  }

  ghost predicate OncePerKey(events: seq<Watch.Event>) {
    forall i, j :: 0 <= i < j < |events| ==> events[i].key != events[j].key
  }

  lemma SetsReport(s: State, items: map<string, string>, order: seq<string>)
    requires Enumerates(order, items.Keys) && forall k :: k in order ==> k in items
    ensures OncePerKey(SetEvents(s, items, order))
    ensures forall k :: Reports(SetEvents(s, items, order), Watch.SetKind, k) <==> k in items
    ensures forall k :: !Reports(SetEvents(s, items, order), Watch.DeleteKind, k)
  {
    var events := SetEvents(s, items, order);
    EnumerationMembers(order, items.Keys);
    forall k | k in items ensures Reports(events, Watch.SetKind, k) {
      var i :| 0 <= i < |order| && order[i] == k;
      assert events[i].key == k;
    }
  }

  lemma DeletesReport(was: Values, order: seq<string>)
    requires Enumerates(order, was.Keys)
    ensures OncePerKey(DeleteEvents(was, order))
    ensures forall k :: Reports(DeleteEvents(was, order), Watch.DeleteKind, k) <==> k in was
    ensures forall k :: !Reports(DeleteEvents(was, order), Watch.SetKind, k)
  {
    var events := DeleteEvents(was, order);
    EnumerationMembers(order, was.Keys);
    forall k | k in was ensures Reports(events, Watch.DeleteKind, k) {
      var i :| 0 <= i < |order| && order[i] == k;
      assert events[i].key == k;
    }
  }

  /** A step notifies about exactly what it changes, once for each key: a set for every key it writes, a delete for
      every key that it takes away. */
  lemma EventsNameTheChanges(s: State, step: Step, events: seq<Watch.Event>)
    requires ValidStep(step) && Notifies(s, step, events)
    ensures OncePerKey(events)
    ensures forall k :: Reports(events, Watch.SetKind, k) <==> k in Written(s, step)
    ensures forall k :: Reports(events, Watch.DeleteKind, k) <==> k in s.data && k !in Apply(s, step).0.data
  {
    StepTouches(s, step);
    if !Apply(s, step).1.Failed? {
      match step.command {
        case CmdBatchSet(items) => BatchReports(s, items, events);
        case CmdBatchSetCAS(items, _) => BatchReports(s, items, events);
        case CmdBatchDelete(keys) => BatchDeleteReports(s, keys, events);
        case CmdBatchDeleteCAS(keys, indices) => BatchDeleteCasReports(s, keys, indices, events);
        case CmdSet(k, v) => OneReport(SetEvent(s, k, v));
        case CmdSetWithFlags(k, v, _) => OneReport(SetEvent(s, k, v));
        case CmdSetCAS(k, v, _) => OneReport(SetEvent(s, k, v));
        case CmdDelete(k) => OneReport(DeleteEvent(k, OldValue(s, k)));
        case CmdDeleteCAS(k, _) => OneReport(DeleteEvent(k, OldValue(s, k)));
      }
    }
  }

  lemma OneReport(e: Watch.Event)
    ensures OncePerKey([e]) && forall kind, k :: Reports([e], kind, k) <==> kind == e.kind && k == e.key
  {
    assert [e][0] == e;
  }

  lemma BatchReports(s: State, items: map<string, string>, events: seq<Watch.Event>)
    requires NotifiesSets(s, items, events)
    ensures OncePerKey(events)
    ensures forall k :: Reports(events, Watch.SetKind, k) <==> k in items
    ensures forall k :: !Reports(events, Watch.DeleteKind, k)
  {
    var order :| SetsInOrder(s, items, order, events);
    SetsReport(s, items, order);
  }

  lemma BatchDeleteReports(s: State, keys: seq<string>, events: seq<Watch.Event>)
    requires NotifiesDeletes(RememberedLive(s, keys), events)
    ensures OncePerKey(events)
    ensures forall k :: Reports(events, Watch.DeleteKind, k) <==> k in s.data && k !in RemoveAll(s, keys).data
    ensures forall k :: !Reports(events, Watch.SetKind, k)
  {
    var was := RememberedLive(s, keys);
    var order :| Enumerates(order, was.Keys) && events == DeleteEvents(was, order);
    DeletesReport(was, order);
    RemoveAllContents(s, keys);
  }

  lemma BatchDeleteCasReports(s: State, keys: seq<string>, indices: map<string, nat>, events: seq<Watch.Event>)
    requires NotifiesDeletes(RememberedCas(s, keys), events) && CheckDeleteAll(s, indices, keys).None?
    ensures OncePerKey(events)
    ensures forall k :: Reports(events, Watch.DeleteKind, k) <==> k in s.data && k !in RemoveAll(s, keys).data
    ensures forall k :: !Reports(events, Watch.SetKind, k)
  {
    var was := RememberedCas(s, keys);
    var order :| Enumerates(order, was.Keys) && events == DeleteEvents(was, order);
    DeletesReport(was, order);
    RememberedCasKeys(s, keys);
    CheckDeleteAllIff(s, indices, keys);
    RemoveAllContents(s, keys);
  }

  // ---- Old values ----------------------------------------------------------------------------------------------

  /** The event's old value is the value the key had (the empty string when it had none). */
  predicate Faithful1(m: Values, e: Watch.Event) {
    e.oldValue == if e.key in m then m[e.key] else ""
  }

  predicate Faithful(m: Values, events: seq<Watch.Event>) {
    if |events| == 0 then true
    else Faithful(m, events[..|events| - 1]) && Faithful1(Folded(m, events[..|events| - 1]), events[|events| - 1])
  }

  lemma {:induction false} SetsFaithful(s: State, items: map<string, string>, order: seq<string>)
    requires NoDup(order) && forall k :: k in order ==> k in items
    ensures Faithful(ValuesOf(s), SetEvents(s, items, order))
  {
    if |order| > 0 {
      var n := |order| - 1;
      SetsFaithful(s, items, order[..n]);
      FoldedSets(ValuesOf(s), s, items, order[..n]);
      assert SetEvents(s, items, order)[..n] == SetEvents(s, items, order[..n]);
      assert order[n] !in order[..n];
    }
  }

  lemma {:induction false} DeletesFaithfulIff(m: Values, was: Values, order: seq<string>)
    requires NoDup(order) && forall k :: k in order ==> k in was && k in m
    ensures Faithful(m, DeleteEvents(was, order)) <==> forall k :: k in order ==> was[k] == m[k]
  {
    if |order| > 0 {
      var n := |order| - 1;
      DeletesFaithfulIff(m, was, order[..n]);
      FoldedDeletes(m, was, order[..n]);
      assert DeleteEvents(was, order)[..n] == DeleteEvents(was, order[..n]);
      assert order == order[..n] + [order[n]];
      assert order[n] !in order[..n];
    }
  }

  predicate ListedTwice(keys: seq<string>, k: string) {
    exists i, j :: 0 <= i < j < |keys| && keys[i] == k && keys[j] == k
  }

  lemma {:induction false} RememberedCasValues(s: State, keys: seq<string>, k: string)
    requires k in keys
    ensures k in RememberedCas(s, keys)
    ensures RememberedCas(s, keys)[k] == if ListedTwice(keys, k) then "" else OldValue(s, k)
  {
    var n := |keys| - 1;
    var before := keys[..n];
    RememberedCasKeys(s, keys);
    assert keys == before + [keys[n]];
    if keys[n] == k {
      if k in before {
        var i :| 0 <= i < n && before[i] == k;
        assert keys[i] == k && keys[n] == k;
      }
    } else {
      RememberedCasValues(s, before, k);
      if ListedTwice(keys, k) {
        var i, j :| 0 <= i < j < |keys| && keys[i] == k && keys[j] == k;
        assert before[i] == k && before[j] == k;
      }
      if ListedTwice(before, k) {
        var i, j :| 0 <= i < j < |before| && before[i] == k && before[j] == k;
        assert keys[i] == k && keys[j] == k;
      }
    }
  }

  /** Old values are always right, except when a compare-and-swap batch delete lists a non-empty key twice. */
  lemma OldValuesAreFaithfulIff(s: State, step: Step, events: seq<Watch.Event>)
    requires ValidStep(step) && Notifies(s, step, events) && !Apply(s, step).1.Failed?
    ensures Faithful(ValuesOf(s), events) <==>
            !(step.command.CmdBatchDeleteCAS?
              && exists k :: k in step.command.keys && ListedTwice(step.command.keys, k) && OldValue(s, k) != "")
  {
    match step.command {
      case CmdBatchSet(items) => BatchSetFaithful(s, items, events);
      case CmdBatchSetCAS(items, _) => BatchSetFaithful(s, items, events);
      case CmdBatchDelete(keys) =>
        var was := RememberedLive(s, keys);
        var order :| Enumerates(order, was.Keys) && events == DeleteEvents(was, order);
        EnumeratedKeys(was, order);
        DeletesFaithfulIff(ValuesOf(s), was, order);
      case CmdBatchDeleteCAS(keys, indices) => BatchDeleteCasFaithful(s, keys, indices, events);
      case _ => SingleEventFaithful(s, events);
    }
  }

  lemma SingleEventFaithful(s: State, events: seq<Watch.Event>)
    requires events == [] || (|events| == 1 && events[0].oldValue == OldValue(s, events[0].key))
    ensures Faithful(ValuesOf(s), events)
  {
    if |events| == 1 {
      assert events[..0] == [];
    }
  }

  lemma EnumeratedKeys(was: Values, order: seq<string>)
    requires Enumerates(order, was.Keys)
    ensures NoDup(order) && forall k :: k in order <==> k in was
  {
    EnumerationMembers(order, was.Keys);
  }

  lemma BatchSetFaithful(s: State, items: map<string, string>, events: seq<Watch.Event>)
    requires NotifiesSets(s, items, events)
    ensures Faithful(ValuesOf(s), events)
  {
    var order :| SetsInOrder(s, items, order, events);
    SetsFaithful(s, items, order);
  }

  lemma BatchDeleteCasFaithful(s: State, keys: seq<string>, indices: map<string, nat>, events: seq<Watch.Event>)
    requires CheckDeleteAll(s, indices, keys).None? && NotifiesDeletes(RememberedCas(s, keys), events)
    ensures Faithful(ValuesOf(s), events) <==>
            forall k :: k in keys && ListedTwice(keys, k) ==> OldValue(s, k) == ""
  {
    var was := RememberedCas(s, keys);
    var order :| Enumerates(order, was.Keys) && events == DeleteEvents(was, order);
    EnumeratedKeys(was, order);
    RememberedCasKeys(s, keys);
    CheckDeleteAllIff(s, indices, keys);
    forall k | k in order
      ensures k in keys && k in s.data && was[k] == if ListedTwice(keys, k) then "" else OldValue(s, k)
    {
      assert k in was.Keys;
      RememberedCasValues(s, keys, k);
    }
    forall k | k in keys ensures k in order {
      assert k in was.Keys;
    }
    DeletesFaithfulIff(ValuesOf(s), was, order);
  }
}
