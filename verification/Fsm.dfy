/** The replicated state machine: log entries dispatched to the two stores, snapshots, and agreement of replicas. */
module Fsm {
  import opened Prelude
  import Kv
  import KvRuns
  import KvReplication
  import KvEvents
  import KvStore
  import ServiceModel
  import ServiceDurability
  import ServiceStore
  import ServiceRuns
  import KvRestore

  /** A decoded log entry. Entries that cannot be decoded and unknown types change nothing. */
  datatype Entry =
    | Undecodable
    | UnknownType
    | KvEntry(kv: Kv.Command)
    | ServiceEntry(svc: ServiceModel.Command)
    | HealthEntry(checkID: string)

  datatype Answer = Rejected | KvAnswer(kv: Kv.Reply) | ServiceAnswer(svc: ServiceModel.Reply) | HealthAnswer(ok: bool)

  /** What a node brings to an entry: the orders of its Go maps, the reading of its clock, and the answer of its own
      health checks, which are outside the replicated state. */
  datatype Local = Local(orders: Kv.Schedule, notify: seq<string>, now: int, healthy: string -> bool)

  datatype State = State(kv: Kv.State, services: ServiceModel.State)

  const EMPTY := State(Kv.EMPTY, ServiceModel.EMPTY)

  ghost predicate ValidLocal(entry: Entry, local: Local) {
    entry.KvEntry? ==> Kv.ValidStep(Kv.Step(entry.kv, local.orders))
  }

  /** The notification order fits the keys the command notifies about. */
  ghost predicate ValidNotify(s: Kv.State, entry: Entry, local: Local) {
    entry.KvEntry? ==>
      match entry.kv
      case CmdBatchSet(items) => Enumerates(local.notify, items.Keys)
      case CmdBatchSetCAS(items, _) => Enumerates(local.notify, items.Keys)
      case CmdBatchDelete(keys) => Enumerates(local.notify, KvEvents.LiveKeys(s, keys))
      case CmdBatchDeleteCAS(keys, _) => Enumerates(local.notify, set k | k in keys)
      case _ => true
  }

  ghost function Applied(s: State, entry: Entry, local: Local, ttl: int): (State, Answer)
    requires ValidLocal(entry, local)
  {
    match entry
    case Undecodable => (s, Rejected)
    case UnknownType => (s, Rejected)
    case KvEntry(c) =>
      var (kv, reply) := Kv.Apply(s.kv, Kv.Step(c, local.orders));
      (s.(kv := kv), KvAnswer(reply))
    case ServiceEntry(c) =>
      var (services, reply) := ServiceModel.Apply(s.services, c, local.now, ttl);
      (s.(services := services), ServiceAnswer(reply))
    case HealthEntry(id) => (s, HealthAnswer(local.healthy(id)))
  }

  /** Each entry is a matter of one store, or of none: the other one is left alone. */
  lemma EntryConcernsOneStore(s: State, entry: Entry, local: Local, ttl: int)
    requires ValidLocal(entry, local)
    ensures var (t, answer) := Applied(s, entry, local, ttl);
            match entry
            case KvEntry(c) =>
              && t.services == s.services && answer.KvAnswer?
              && (t.kv, answer.kv) == Kv.Apply(s.kv, Kv.Step(c, local.orders))
            case ServiceEntry(c) =>
              && t.kv == s.kv && answer.ServiceAnswer?
              && (t.services, answer.svc) == ServiceModel.Apply(s.services, c, local.now, ttl)
            case HealthEntry(checkID) => t == s && answer == HealthAnswer(local.healthy(checkID))
            case _ => t == s && answer == Rejected
  {
  }

  class KonsulFSM {
    const kvStore: KvStore.KVStore
    const serviceStore: ServiceStore.ServiceStore

    ghost function View(): State
      reads kvStore, serviceStore
    {
      State(kvStore.View(), serviceStore.View())
    }

    ghost predicate Valid()
      reads kvStore, kvStore.watchManager, serviceStore
    {
      kvStore.Valid() && serviceStore.Valid()
    }

    constructor (kvStore: KvStore.KVStore, serviceStore: ServiceStore.ServiceStore)
      ensures this.kvStore == kvStore && this.serviceStore == serviceStore
    {
      this.kvStore, this.serviceStore := kvStore, serviceStore;
    }

    method Apply(entry: Entry, local: Local) returns (answer: Answer)
      requires Valid() && ValidLocal(entry, local) && ValidNotify(kvStore.View(), entry, local)
      modifies kvStore, kvStore.watchManager, serviceStore
      ensures Valid() && (View(), answer) == Applied(old(View()), entry, local, serviceStore.TTL)
    {
      match entry {
        case Undecodable => answer := Rejected;
        case UnknownType => answer := Rejected;
        case KvEntry(c) =>
          var reply := ApplyKv(c, local);
          answer := KvAnswer(reply);
        case ServiceEntry(c) =>
          var reply := ApplyService(c, local.now);
          answer := ServiceAnswer(reply);
        case HealthEntry(id) => answer := HealthAnswer(local.healthy(id));
      }
    }

    method ApplyKv(c: Kv.Command, local: Local) returns (r: Kv.Reply)
      requires Valid() && ValidLocal(KvEntry(c), local) && ValidNotify(kvStore.View(), KvEntry(c), local)
      modifies kvStore, kvStore.watchManager
      ensures kvStore.Valid() && (kvStore.View(), r) == Kv.Apply(old(kvStore.View()), Kv.Step(c, local.orders))
    {
      r := Kv.Done;
      match c {
        case CmdSet(k, v) => kvStore.SetLocal(k, v);
        case CmdSetWithFlags(k, v, f) => kvStore.SetWithFlagsLocal(k, v, f);
        case CmdDelete(k) => kvStore.DeleteLocal(k);
        case CmdBatchSet(items) => kvStore.BatchSetLocal(items, local.orders, local.notify);
        case CmdBatchDelete(keys) => kvStore.BatchDeleteLocal(keys, local.notify);
        case CmdSetCAS(k, v, e) => r := kvStore.SetCASLocal(k, v, e);
        case CmdDeleteCAS(k, e) => r := kvStore.DeleteCASLocal(k, e);
        case CmdBatchSetCAS(items, indices) =>
          r := kvStore.BatchSetCASLocal(items, indices, local.orders, local.notify);
        case CmdBatchDeleteCAS(keys, indices) => r := kvStore.BatchDeleteCASLocal(keys, indices, local.notify);
      }
    }

    method ApplyService(c: ServiceModel.Command, now: int) returns (r: ServiceModel.Reply)
      requires serviceStore.Valid()
      modifies serviceStore
      ensures serviceStore.Valid()
      ensures (serviceStore.View(), r) == ServiceModel.Apply(old(serviceStore.View()), c, now, serviceStore.TTL)
    {
      r := ServiceModel.Done;
      match c {
        case CmdRegister(svc) => r := serviceStore.RegisterLocal(svc, now);
        case CmdRegisterCAS(svc, expected) => r := serviceStore.RegisterCASLocal(svc, expected, now);
        case CmdDeregister(name) => serviceStore.DeregisterLocal(name);
        case CmdDeregisterCAS(name, expected) =>
          r := serviceStore.DeregisterCASLocal(name, expected);
          assert (serviceStore.View(), r) == ServiceModel.Apply(old(serviceStore.View()), c, now, serviceStore.TTL);
        case CmdHeartbeat(name) =>
          var found := serviceStore.HeartbeatLocal(name, now);
      }
    }

    method Snapshot() returns (kvData: map<string, Kv.KVEntry>, serviceData: map<string, ServiceModel.ServiceEntry>)
      requires Valid()
      ensures kvData == kvStore.Data && serviceData == serviceStore.Data
      ensures ServiceModel.NamesMatch(serviceData)
    {
      kvData := kvStore.GetAllData();
      serviceData := serviceStore.GetAllData();
    }

    method Restore(kvData: map<string, Kv.KVEntry>, serviceData: map<string, ServiceModel.ServiceEntry>)
      requires kvStore.Valid() && ServiceModel.NamesMatch(serviceData)
      modifies kvStore, serviceStore
      ensures Valid()
      ensures kvStore.View() == KvReplication.Restored(kvData)
      ensures serviceStore.Data == serviceData && ServiceDurability.IsMaxModify(serviceData, serviceStore.globalIndex)
    {
      kvStore.RestoreFromSnapshot(kvData);
      serviceStore.RestoreFromSnapshot(serviceData);
    }
  }

  // ---- Replicas ------------------------------------------------------------------------------------------------

  datatype Applying = Applying(entry: Entry, local: Local)

  ghost predicate ValidRun(run: seq<Applying>) {
    forall i :: 0 <= i < |run| ==> ValidLocal(run[i].entry, run[i].local)
  }

  ghost function StateAt(start: State, run: seq<Applying>, ttl: int, n: nat): State
    requires ValidRun(run) && n <= |run|
  {
    if n == 0 then start else Applied(StateAt(start, run, ttl, n - 1), run[n - 1].entry, run[n - 1].local, ttl).0
  }

  ghost function AnswerAt(start: State, run: seq<Applying>, ttl: int, n: nat): Answer
    requires ValidRun(run) && n < |run|
  {
    Applied(StateAt(start, run, ttl, n), run[n].entry, run[n].local, ttl).1
  }

  ghost predicate SameLog(a: seq<Applying>, b: seq<Applying>) {
    |a| == |b| && forall i :: 0 <= i < |a| ==> a[i].entry == b[i].entry
  }

  ghost function Bounds(start: State, run: seq<Applying>, ttl: int, n: nat): seq<nat>
    requires ValidRun(run) && n <= |run|
  {
    if n == 0 then [] else Bounds(start, run, ttl, n - 1) + [StateAt(start, run, ttl, n - 1).kv.index]
  }

  /** Agreement of two nodes: the key-value stores up to the order inside one batch, the registries up to expiry. */
  ghost predicate Agree(s: State, t: State, bounds: seq<nat>) {
    && KvRuns.WellIndexed(s.kv) && KvRuns.WellIndexed(t.kv)
    && KvReplication.Agree(s.kv, t.kv, bounds)
    && ServiceModel.Undated(s.services) == ServiceModel.Undated(t.services)
  }

  lemma QuietEntriesAgree(s: Kv.State, t: Kv.State, bounds: seq<nat>)
    requires KvRuns.WellIndexed(s) && KvRuns.WellIndexed(t) && KvReplication.Agree(s, t, bounds)
    ensures KvReplication.Agree(s, t, bounds + [s.index])
  {
    forall k | k in s.data ensures KvReplication.AgreeEntry(s.data[k], t.data[k], bounds + [s.index]) {
      KvReplication.OldEntriesAgree(s.data[k], t.data[k], bounds, s.index);
    }
  }

  lemma EntryKeepsAgreement(s: State, t: State, bounds: seq<nat>, entry: Entry, l: Local, m: Local, ttl: int)
    requires Agree(s, t, bounds) && ValidLocal(entry, l) && ValidLocal(entry, m)
    requires entry.KvEntry? ==> !KvReplication.IsCas(entry.kv)
    ensures Agree(Applied(s, entry, l, ttl).0, Applied(t, entry, m, ttl).0, bounds + [s.kv.index])
    ensures !entry.HealthEntry? ==> Applied(s, entry, l, ttl).1 == Applied(t, entry, m, ttl).1
  {
    match entry {
      case KvEntry(c) =>
        var a, b := Kv.Step(c, l.orders), Kv.Step(c, m.orders);
        KvReplication.StepAgrees(s.kv, t.kv, bounds, a, b);
        KvRuns.StepKeepsWellIndexed(s.kv, a);
        KvRuns.StepKeepsWellIndexed(t.kv, b);
      case ServiceEntry(c) =>
        QuietEntriesAgree(s.kv, t.kv, bounds);
        ServiceModel.StepAgrees(s.services, t.services, c, l.now, m.now, ttl);
      case Undecodable => QuietEntriesAgree(s.kv, t.kv, bounds);
      case UnknownType => QuietEntriesAgree(s.kv, t.kv, bounds);
      case HealthEntry(_) => QuietEntriesAgree(s.kv, t.kv, bounds);
    }
  }

  /** Nodes that apply one log, each with its own map orders and its own clock, agree after every entry and answer
      alike, as long as the log has no compare-and-swap on keys; service compare-and-swap is allowed. */
  lemma {:induction false} NodesAgree(start: State, a: seq<Applying>, b: seq<Applying>, ttl: int, n: nat)
    requires ValidRun(a) && ValidRun(b) && SameLog(a, b) && n <= |a|
    requires KvRuns.WellIndexed(start.kv)
    requires forall i :: 0 <= i < |a| && a[i].entry.KvEntry? ==> !KvReplication.IsCas(a[i].entry.kv)
    ensures Agree(StateAt(start, a, ttl, n), StateAt(start, b, ttl, n), Bounds(start, a, ttl, n))
    ensures n < |a| && !a[n].entry.HealthEntry? ==> AnswerAt(start, a, ttl, n) == AnswerAt(start, b, ttl, n)
  {
    if n == 0 {
      assert KvReplication.Agree(start.kv, start.kv, []);
    } else {
      NodesAgree(start, a, b, ttl, n - 1);
      EntryKeepsAgreement(StateAt(start, a, ttl, n - 1), StateAt(start, b, ttl, n - 1), Bounds(start, a, ttl, n - 1),
                          a[n - 1].entry, a[n - 1].local, b[n - 1].local, ttl);
    }
    if n < |a| {
      EntryKeepsAgreement(StateAt(start, a, ttl, n), StateAt(start, b, ttl, n), Bounds(start, a, ttl, n),
                          a[n].entry, a[n].local, b[n].local, ttl);
    }
  }

  /** With batches of at most one item nodes are identical except for expiry times, whatever the log contains. */
  lemma {:induction false} SmallBatchNodesAreIdentical(start: State, a: seq<Applying>, b: seq<Applying>, ttl: int,
                                                       n: nat)
    requires ValidRun(a) && ValidRun(b) && SameLog(a, b) && n <= |a|
    requires forall i :: 0 <= i < |a| && a[i].entry.KvEntry? ==> KvReplication.SmallBatch(a[i].entry.kv)
    ensures SameButDates(StateAt(start, a, ttl, n), StateAt(start, b, ttl, n))
    ensures n < |a| && !a[n].entry.HealthEntry? ==> AnswerAt(start, a, ttl, n) == AnswerAt(start, b, ttl, n)
  {
    if n > 0 {
      SmallBatchNodesAreIdentical(start, a, b, ttl, n - 1);
      SmallBatchEntry(StateAt(start, a, ttl, n - 1), StateAt(start, b, ttl, n - 1),
                      a[n - 1].entry, a[n - 1].local, b[n - 1].local, ttl);
    }
    if n < |a| {
      SmallBatchEntry(StateAt(start, a, ttl, n), StateAt(start, b, ttl, n), a[n].entry, a[n].local, b[n].local, ttl);
    }
  }

  /** Equal except for expiry times. */
  predicate SameButDates(s: State, t: State) {
    s.kv == t.kv && ServiceModel.Undated(s.services) == ServiceModel.Undated(t.services)
  }

  /** The command does the same for the orders of either node. */
  ghost predicate SameOutcome(s: Kv.State, entry: Entry, l: Local, m: Local)
    requires ValidLocal(entry, l) && ValidLocal(entry, m)
  {
    entry.KvEntry? ==> Kv.Apply(s, Kv.Step(entry.kv, l.orders)) == Kv.Apply(s, Kv.Step(entry.kv, m.orders))
  }

  lemma SameEntry(s: State, t: State, entry: Entry, l: Local, m: Local, ttl: int)
    requires ValidLocal(entry, l) && ValidLocal(entry, m)
    requires SameOutcome(s.kv, entry, l, m) && SameButDates(s, t)
    ensures entry.HealthEntry? || Applied(s, entry, l, ttl).1 == Applied(t, entry, m, ttl).1
    ensures SameButDates(Applied(s, entry, l, ttl).0, Applied(t, entry, m, ttl).0)
  {
    if entry.ServiceEntry? {
      ServiceModel.StepAgrees(s.services, t.services, entry.svc, l.now, m.now, ttl);
    }
  }

  lemma SmallBatchEntry(s: State, t: State, entry: Entry, l: Local, m: Local, ttl: int)
    requires ValidLocal(entry, l) && ValidLocal(entry, m) && (entry.KvEntry? ==> KvReplication.SmallBatch(entry.kv))
    requires SameButDates(s, t)
    ensures entry.HealthEntry? || Applied(s, entry, l, ttl).1 == Applied(t, entry, m, ttl).1
    ensures SameButDates(Applied(s, entry, l, ttl).0, Applied(t, entry, m, ttl).0)
  {
    if entry.KvEntry? {
      KvReplication.SmallBatchIsDeterministic(s.kv, Kv.Step(entry.kv, l.orders), Kv.Step(entry.kv, m.orders));
    }
    SameEntry(s, t, entry, l, m, ttl);
  }

  // ---- A restored node -----------------------------------------------------------------------------------------

  /** What a node holds after restoring the snapshot of `s`. */
  ghost function Restored(s: State): State {
    State(KvReplication.Restored(s.kv.data), ServiceRuns.Restored(s.services))
  }

  predicate IsPlain(entry: Entry) {
    (entry.KvEntry? ==> !KvReplication.IsCas(entry.kv)) && (entry.ServiceEntry? ==> !ServiceModel.IsCas(entry.svc))
  }

  lemma EntryDrifts(s: State, t: State, base: nat, gap: nat, entry: Entry, l: Local, ttl: int)
    requires gap <= base && KvReplication.Drifted(s.kv, t.kv, base, gap)
    requires ValidLocal(entry, l) && IsPlain(entry)
    ensures KvReplication.Drifted(Applied(s, entry, l, ttl).0.kv, Applied(t, entry, l, ttl).0.kv, base, gap)
  {
    if entry.KvEntry? {
      KvReplication.StepDrifts(s.kv, t.kv, base, gap, Kv.Step(entry.kv, l.orders));
    }
  }

  lemma {:induction false} KeysDrift(s: State, r: State, base: nat, gap: nat, a: seq<Applying>, ttl: int, n: nat)
    requires gap <= base && KvReplication.Drifted(s.kv, r.kv, base, gap)
    requires ValidRun(a) && n <= |a| && forall i :: 0 <= i < |a| ==> IsPlain(a[i].entry)
    ensures KvReplication.Drifted(StateAt(s, a, ttl, n).kv, StateAt(r, a, ttl, n).kv, base, gap)
  {
    if n > 0 {
      KeysDrift(s, r, base, gap, a, ttl, n - 1);
      EntryDrifts(StateAt(s, a, ttl, n - 1), StateAt(r, a, ttl, n - 1), base, gap, a[n - 1].entry, a[n - 1].local, ttl);
    }
  }

  lemma {:induction false} ServicesDrift(s: State, r: State, base: nat, gap: nat, a: seq<Applying>, b: seq<Applying>,
                                         ttl: int, n: nat)
    requires gap <= base && ServiceModel.Drifted(s.services, r.services, base, gap)
    requires ValidRun(a) && ValidRun(b) && SameLog(a, b) && n <= |a|
    requires forall i :: 0 <= i < |a| ==> IsPlain(a[i].entry)
    ensures ServiceModel.Drifted(StateAt(s, a, ttl, n).services, StateAt(r, b, ttl, n).services, base, gap)
  {
    if n > 0 {
      ServicesDrift(s, r, base, gap, a, b, ttl, n - 1);
      if a[n - 1].entry.ServiceEntry? {
        ServiceModel.StepDrifts(StateAt(s, a, ttl, n - 1).services, StateAt(r, b, ttl, n - 1).services, base, gap,
                                a[n - 1].entry.svc, a[n - 1].local.now, b[n - 1].local.now, ttl);
      }
    }
  }

  /** Snapshot plus suffix for a whole node, with map orders and a clock of its own: through every log without
      compare-and-swap it holds the same keys, values, flags and services as the node that went on; indices from before
      the snapshot are kept, later ones are lower by the gap of their store, up to the order inside one batch. */
  lemma RestoredNodeFollows(s: State, a: seq<Applying>, b: seq<Applying>, ttl: int, n: nat)
    requires KvRuns.WellIndexed(s.kv) && KvRuns.WellIndexed(ServiceRuns.Shadow(s.services))
    requires ValidRun(a) && ValidRun(b) && SameLog(a, b) && n <= |a|
    requires forall i :: 0 <= i < |a| ==> IsPlain(a[i].entry)
    ensures 0 <= KvReplication.Gap(s.kv) <= s.kv.index && ServiceRuns.Restored(s.services).index <= s.services.index
    ensures KvRestore.Follows(StateAt(s, a, ttl, n).kv, StateAt(Restored(s), b, ttl, n).kv, s.kv.index,
                              KvReplication.Gap(s.kv), Bounds(Restored(s), a, ttl, n))
    ensures ServiceModel.Drifted(StateAt(s, a, ttl, n).services, StateAt(Restored(s), b, ttl, n).services,
                                 s.services.index, s.services.index - ServiceRuns.Restored(s.services).index)
  {
    var r := Restored(s);
    KvReplication.SnapshotPlusSuffix(s.kv, [], 0);
    ServiceRuns.RestoredRegistryFollows(s.services, [], [], ttl, 0);
    KvRestore.RestoredIsWellIndexed(s.kv);
    KeysDrift(s, r, s.kv.index, KvReplication.Gap(s.kv), a, ttl, n);
    NodesAgree(r, a, b, ttl, n);
    KvRestore.DriftThenAgree(StateAt(s, a, ttl, n).kv, StateAt(r, a, ttl, n).kv, StateAt(r, b, ttl, n).kv, s.kv.index,
                             KvReplication.Gap(s.kv), Bounds(r, a, ttl, n));
    ServicesDrift(s, r, s.services.index, s.services.index - ServiceRuns.Restored(s.services).index, a, b, ttl, n);
  }
}
