/**
 What every run of registry operations keeps. Seen through its versions the registry is a key-value store that runs
 single commands, so what is proved of that store's runs carries over.
 */
module ServiceRuns {
  import opened Prelude
  import opened ServiceTypes
  import opened ServiceModel
  import opened ServiceVersions
  import opened ServiceQuery
  import opened Sorting
  import ServiceDurability
  import Kv
  import KvRuns
  import KvReplication
  import KvRestore

  /** A command, or the cleanup that every node runs by its own clock. */
  datatype Event = Do(cmd: Command, now: int) | Cleanup(now: int)

  function After(s: State, event: Event, ttl: int): (State, Reply) {
    match event
    case Do(cmd, now) => Apply(s, cmd, now, ttl)
    case Cleanup(now) => (Cleaned(s, now), Done)
  }

  function StateOf(start: State, run: seq<Event>, ttl: int, n: nat): State
    requires n <= |run|
  {
    if n == 0 then start else After(StateOf(start, run, ttl, n - 1), run[n - 1], ttl).0
  }

  function ReplyOf(start: State, run: seq<Event>, ttl: int, n: nat): Reply
    requires n < |run|
  {
    After(StateOf(start, run, ttl, n), run[n], ttl).1
  }

  /** The names an event registers and the names it removes, in the state it meets. */
  function RegisteredBy(s: State, event: Event, ttl: int): set<string> {
    if event.Do? && (event.cmd.CmdRegister? || event.cmd.CmdRegisterCAS?) && !After(s, event, ttl).1.Failed?
    then {event.cmd.svc.name} else {}
  }

  function RemovedBy(s: State, event: Event, ttl: int): set<string> {
    match event
    case Cleanup(now) => ServiceDurability.Expired(s, now)
    case Do(cmd, _) =>
      if (cmd.CmdDeregister? || cmd.CmdDeregisterCAS?) && !After(s, event, ttl).1.Failed? then {cmd.name} else {}
  }

  // ---- The registry as a versioned store -----------------------------------------------------------------------

  function Shadow(s: State): Kv.State {
    Kv.State(Versions(s.data), s.index)
  }

  /** The key-value command that does to the versions what the event does to the entries. */
  ghost function ShadowOf(s: State, event: Event): Kv.Step {
    Kv.Step(match event
            case Cleanup(now) => Kv.CmdBatchDelete(SortedNames(ServiceDurability.Expired(s, now)))
            case Do(cmd, _) => ShadowCommand(cmd),
            Kv.Schedule([], []))
  }

  function ShadowCommand(cmd: Command): Kv.Command {
    match cmd
    case CmdRegister(svc) => if ValidService(svc) then Kv.CmdSet(svc.name, "") else Kv.CmdBatchDelete([])
    case CmdRegisterCAS(svc, e) => if ValidService(svc) then Kv.CmdSetCAS(svc.name, "", e) else Kv.CmdBatchDelete([])
    case CmdDeregister(name) => Kv.CmdDelete(name)
    case CmdDeregisterCAS(name, e) => Kv.CmdDeleteCAS(name, e)
    case CmdHeartbeat(_) => Kv.CmdBatchDelete([])
  }

  lemma ShadowStep(s: State, event: Event, ttl: int)
    ensures Kv.ValidStep(ShadowOf(s, event))
    ensures Kv.Apply(Shadow(s), ShadowOf(s, event)).0 == Shadow(After(s, event, ttl).0)
    ensures Kv.Written(Shadow(s), ShadowOf(s, event)) == RegisteredBy(s, event, ttl)
    ensures Kv.Deleted(Shadow(s), ShadowOf(s, event)) == RemovedBy(s, event, ttl)
  {
    match event {
      case Cleanup(now) => ShadowCleanup(s, now);
      case Do(cmd, now) =>
        if IsCas(cmd) {
          ShadowCas(s, cmd, now, ttl);
        } else {
          ShadowDo(s, cmd, now, ttl);
        }
    }
  }

  lemma ShadowCleanup(s: State, now: int)
    ensures var names := SortedNames(ServiceDurability.Expired(s, now));
            Kv.RemoveAll(Shadow(s), names) == Shadow(Cleaned(s, now))
            && (set n | n in names) == ServiceDurability.Expired(s, now)
  {
    var expired := ServiceDurability.Expired(s, now);
    var names := SortedNames(expired);
    Kv.RemoveAllContents(Shadow(s), names);
    assert (set n | n in names) == Elements(names) == expired;
    assert Versions(s.data) - expired == Versions(Cleaned(s, now).data);
  }

  lemma ShadowDo(s: State, cmd: Command, now: int, ttl: int)
    requires !IsCas(cmd)
    ensures Kv.Apply(Shadow(s), ShadowOf(s, Do(cmd, now))).0 == Shadow(Apply(s, cmd, now, ttl).0)
    ensures Kv.Written(Shadow(s), ShadowOf(s, Do(cmd, now))) == RegisteredBy(s, Do(cmd, now), ttl)
    ensures Kv.Deleted(Shadow(s), ShadowOf(s, Do(cmd, now))) == RemovedBy(s, Do(cmd, now), ttl)
  {
    match cmd {
      case CmdRegister(svc) => ShadowPut(s, svc, now + ttl);
      case CmdDeregister(name) => ShadowDrop(s, name);
      case CmdHeartbeat(name) => ShadowExtend(s, name, now + ttl);
    }
  }

  lemma ShadowCas(s: State, cmd: Command, now: int, ttl: int)
    requires IsCas(cmd)
    ensures Kv.Apply(Shadow(s), ShadowOf(s, Do(cmd, now))).0 == Shadow(Apply(s, cmd, now, ttl).0)
    ensures Kv.Written(Shadow(s), ShadowOf(s, Do(cmd, now))) == RegisteredBy(s, Do(cmd, now), ttl)
    ensures Kv.Deleted(Shadow(s), ShadowOf(s, Do(cmd, now))) == RemovedBy(s, Do(cmd, now), ttl)
  {
    match cmd {
      case CmdRegisterCAS(svc, e) => ShadowRegisterCas(s, svc, e, now, ttl);
      case CmdDeregisterCAS(name, e) =>
        ShadowDrop(s, name);
        ShadowChecks(s, name, e);
    }
  }

  lemma ShadowRegisterCas(s: State, svc: Service, e: nat, now: int, ttl: int)
    ensures var cmd := CmdRegisterCAS(svc, e);
            && Kv.Apply(Shadow(s), ShadowOf(s, Do(cmd, now))).0 == Shadow(Apply(s, cmd, now, ttl).0)
            && Kv.Written(Shadow(s), ShadowOf(s, Do(cmd, now))) == RegisteredBy(s, Do(cmd, now), ttl)
            && Kv.Deleted(Shadow(s), ShadowOf(s, Do(cmd, now))) == RemovedBy(s, Do(cmd, now), ttl)
  {
    ShadowPut(s, svc, now + ttl);
    ShadowChecks(s, svc.name, e);
  }

  lemma ShadowPut(s: State, svc: Service, e: int)
    ensures Shadow(Registered(s, svc, e)) == Kv.Put(Shadow(s), svc.name, "")
  {
  }

  lemma ShadowDrop(s: State, name: string)
    ensures Shadow(Dropped(s, name)) == Kv.Remove(Shadow(s), name)
  {
  }

  lemma ShadowExtend(s: State, name: string, e: int)
    ensures Shadow(Extended(s, name, e)) == Shadow(s)
  {
  }

  lemma ShadowChecks(s: State, name: string, e: nat)
    ensures CheckRegister(s, name, e).Some? <==> Kv.CheckSet(Shadow(s), name, e).Some?
    ensures CheckDeregister(s, name, e).Some? <==> Kv.CheckDelete(Shadow(s), name, e).Some?
  {
  }

  ghost function ShadowRun(start: State, run: seq<Event>, ttl: int, n: nat): (steps: seq<Kv.Step>)
    requires n <= |run|
    ensures |steps| == n
  {
    if n == 0 then []
    else ShadowRun(start, run, ttl, n - 1) + [ShadowOf(StateOf(start, run, ttl, n - 1), run[n - 1])]
  }

  lemma {:induction false} ShadowRunAt(start: State, run: seq<Event>, ttl: int, n: nat, i: nat)
    requires i < n <= |run|
    ensures ShadowRun(start, run, ttl, n)[i] == ShadowOf(StateOf(start, run, ttl, i), run[i])
    ensures Kv.ValidStep(ShadowRun(start, run, ttl, n)[i])
  {
    if i < n - 1 {
      ShadowRunAt(start, run, ttl, n - 1, i);
    } else {
      ShadowStep(StateOf(start, run, ttl, i), run[i], ttl);
    }
  }

  lemma ShadowRunValid(start: State, run: seq<Event>, ttl: int)
    ensures Kv.ValidRun(ShadowRun(start, run, ttl, |run|))
  {
    forall i | 0 <= i < |run| ensures Kv.ValidStep(ShadowRun(start, run, ttl, |run|)[i]) {
      ShadowRunAt(start, run, ttl, |run|, i);
    }
  }

  /** The refinement over runs: the versions of the registry go through the states of the shadow run. */
  lemma {:induction false} ShadowFollows(start: State, run: seq<Event>, ttl: int, n: nat)
    requires n <= |run|
    ensures Kv.ValidRun(ShadowRun(start, run, ttl, |run|))
    ensures Kv.StateAt(Shadow(start), ShadowRun(start, run, ttl, |run|), n) == Shadow(StateOf(start, run, ttl, n))
  {
    ShadowRunValid(start, run, ttl);
    if n > 0 {
      ShadowFollows(start, run, ttl, n - 1);
      ShadowRunAt(start, run, ttl, |run|, n - 1);
      ShadowMoves(Shadow(start), ShadowRun(start, run, ttl, |run|), StateOf(start, run, ttl, n - 1), run[n - 1], ttl,
                  n);
    }
  }

  lemma ShadowMoves(start: Kv.State, steps: seq<Kv.Step>, s: State, event: Event, ttl: int, n: nat)
    requires Kv.ValidRun(steps) && 0 < n <= |steps|
    requires Kv.StateAt(start, steps, n - 1) == Shadow(s) && steps[n - 1] == ShadowOf(s, event)
    ensures Kv.StateAt(start, steps, n) == Shadow(After(s, event, ttl).0)
  {
    ShadowStep(s, event, ttl);
  }

  // ---- Indices -------------------------------------------------------------------------------------------------

  /** In every run from the empty registry 1 <= create <= modify <= counter, and no two live services share an index. */
  lemma EveryRunIsWellIndexed(run: seq<Event>, ttl: int, n: nat)
    requires n <= |run|
    ensures KvRuns.WellIndexed(Shadow(StateOf(EMPTY, run, ttl, n)))
  {
    ShadowFollows(EMPTY, run, ttl, n);
    assert Shadow(EMPTY) == Kv.EMPTY;
    KvRuns.EveryRunIsWellIndexed(ShadowRun(EMPTY, run, ttl, |run|), n);
  }

  // ---- No ABA --------------------------------------------------------------------------------------------------

  /** Event `w` of the run registered `name` and gave it index `e`. */
  predicate Registers(run: seq<Event>, ttl: int, w: nat, name: string, e: nat) {
    && w < |run|
    && name in RegisteredBy(StateOf(EMPTY, run, ttl, w), run[w], ttl)
    && name in StateOf(EMPTY, run, ttl, w + 1).data
    && StateOf(EMPTY, run, ttl, w + 1).data[name].modifyIndex == e
  }

  predicate Touches(start: State, run: seq<Event>, ttl: int, i: nat, name: string)
    requires i < |run|
  {
    var s := StateOf(start, run, ttl, i);
    name in RegisteredBy(s, run[i], ttl) || name in RemovedBy(s, run[i], ttl)
  }

  /** No event from number `a` up to but excluding `b` registers or removes `name`. */
  predicate Untouched(start: State, run: seq<Event>, ttl: int, a: nat, b: nat, name: string)
    requires b <= |run|
  {
    forall i :: a <= i < b ==> !Touches(start, run, ttl, i, name)
  }

  /** Event `t` is a compare-and-swap on `name` guarded by index `e`, and it succeeds. */
  predicate GoesThrough(start: State, run: seq<Event>, ttl: int, t: nat, name: string, e: nat) {
    && t < |run| && run[t].Do? && !ReplyOf(start, run, ttl, t).Failed?
    && match run[t].cmd
       case CmdRegisterCAS(svc, expected) => svc.name == name && expected == e > 0
       case CmdDeregisterCAS(n, expected) => n == name && expected == e
       case _ => false
  }

  lemma ShadowGuard(start: State, run: seq<Event>, ttl: int, t: nat, name: string, e: nat)
    requires GoesThrough(start, run, ttl, t, name, e)
    ensures KvRestore.GoesThrough(Shadow(start), ShadowRun(start, run, ttl, |run|), t, name, e)
  {
    ShadowFollows(start, run, ttl, t);
    ShadowRunAt(start, run, ttl, |run|, t);
    match run[t].cmd {
      case CmdRegisterCAS(svc, expected) => ShadowChecks(StateOf(start, run, ttl, t), name, e);
      case CmdDeregisterCAS(_, expected) => ShadowChecks(StateOf(start, run, ttl, t), name, e);
    }
  }

  lemma ShadowWrite(run: seq<Event>, ttl: int, w: nat, name: string, e: nat)
    requires w < |run|
    ensures Kv.ValidRun(ShadowRun(EMPTY, run, ttl, |run|))
    ensures KvRuns.Writes(ShadowRun(EMPTY, run, ttl, |run|), w, name, e) <==> Registers(run, ttl, w, name, e)
  {
    ShadowFollows(EMPTY, run, ttl, w);
    ShadowFollows(EMPTY, run, ttl, w + 1);
    ShadowRunAt(EMPTY, run, ttl, |run|, w);
    ShadowStep(StateOf(EMPTY, run, ttl, w), run[w], ttl);
    assert Shadow(EMPTY) == Kv.EMPTY;
  }

  lemma ShadowTouch(start: State, run: seq<Event>, ttl: int, i: nat, name: string)
    requires i < |run|
    ensures Kv.ValidRun(ShadowRun(start, run, ttl, |run|))
    ensures KvRestore.TouchesFrom(Shadow(start), ShadowRun(start, run, ttl, |run|), i, name) <==>
            Touches(start, run, ttl, i, name)
  {
    ShadowFollows(start, run, ttl, i);
    ShadowRunAt(start, run, ttl, |run|, i);
    ShadowStep(StateOf(start, run, ttl, i), run[i], ttl);
  }

  /** When a guarded registration or deregistration expecting index `e` succeeds, an earlier event registered that very
      name and was given `e`, and nothing has registered, removed or cleaned the name since. */
  lemma NoAba(run: seq<Event>, ttl: int, t: nat, name: string, e: nat) returns (w: nat)
    requires GoesThrough(EMPTY, run, ttl, t, name, e)
    ensures w < t && Registers(run, ttl, w, name, e) && Untouched(EMPTY, run, ttl, w + 1, t, name)
  {
    var steps := ShadowRun(EMPTY, run, ttl, |run|);
    assert Shadow(EMPTY) == Kv.EMPTY;
    ShadowGuard(EMPTY, run, ttl, t, name, e);
    KvRuns.NoAba(steps, t, name, e);
    w :| 0 <= w < t && KvRuns.Writes(steps, w, name, e) && KvRuns.Untouched(steps, w + 1, t, name);
    ShadowWrite(run, ttl, w, name, e);
    forall i | w + 1 <= i < t ensures !Touches(EMPTY, run, ttl, i, name) {
      ShadowTouch(EMPTY, run, ttl, i, name);
      assert !KvRuns.Touches(steps, i, name);
    }
  }

  // ---- Across a restore ----------------------------------------------------------------------------------------

  ghost function Restored(s: State): State {
    s.(index := ServiceDurability.MaxModify(s.data))
  }

  /** A guard on an index that the run gave out, let through after the restore, still means what it meant. */
  ghost predicate GuardsHold(run: seq<Event>, restored: State, ttl: int) {
    forall suffix, t: nat, name, e: nat, w: nat, l :: GuardHoldsAt(run, restored, ttl, suffix, t, name, e, w, l)
  }

  predicate GuardHoldsAt(run: seq<Event>, restored: State, ttl: int, suffix: seq<Event>, t: nat, name: string, e: nat,
                         w: nat, l: string) {
    GoesThrough(restored, suffix, ttl, t, name, e) && Registers(run, ttl, w, l, e) ==>
    l == name && Untouched(EMPTY, run, ttl, w + 1, |run|, name) && Untouched(restored, suffix, ttl, 0, t, name)
  }

  lemma GuardHolds(run: seq<Event>, s: State, ttl: int, suffix: seq<Event>, t: nat, name: string, e: nat, w: nat,
                   l: string)
    requires s == StateOf(EMPTY, run, ttl, |run|)
    ensures GuardHoldsAt(run, s, ttl, suffix, t, name, e, w, l)
  {
    if GoesThrough(s, suffix, ttl, t, name, e) && Registers(run, ttl, w, l, e) {
      GuardStillMeans(run, s, ttl, suffix, t, name, e, w, l);
    }
  }

  lemma GuardStillMeans(run: seq<Event>, s: State, ttl: int, suffix: seq<Event>, t: nat, name: string, e: nat, w: nat,
                        l: string)
    requires s == StateOf(EMPTY, run, ttl, |run|)
    requires GoesThrough(s, suffix, ttl, t, name, e) && Registers(run, ttl, w, l, e)
    ensures l == name && Untouched(EMPTY, run, ttl, w + 1, |run|, name) && Untouched(s, suffix, ttl, 0, t, name)
  {
    var steps, more := ShadowRun(EMPTY, run, ttl, |run|), ShadowRun(s, suffix, ttl, |suffix|);
    assert Shadow(EMPTY) == Kv.EMPTY;
    ShadowFollows(EMPTY, run, ttl, |run|);
    ShadowGuard(s, suffix, ttl, t, name, e);
    ShadowWrite(run, ttl, w, l, e);
    KvRestore.NoAbaWithoutGap(steps, Shadow(s), more, t, name, e, w, l);
    forall i | w + 1 <= i < |run| ensures !Touches(EMPTY, run, ttl, i, name) {
      ShadowTouch(EMPTY, run, ttl, i, name);
      assert !KvRuns.Touches(steps, i, name);
    }
    forall i | 0 <= i < t ensures !Touches(s, suffix, ttl, i, name) {
      ShadowTouch(s, suffix, ttl, i, name);
    }
  }

  ghost function RepeatedRegisters(svc: Service, n: nat): (run: seq<Event>)
    ensures |run| == n
  {
    seq(n, i => Do(CmdRegister(svc), 0))
  }

  lemma {:induction false} RegistersCount(r: State, svc: Service, ttl: int, run: seq<Event>, n: nat)
    requires ValidService(svc) && n <= |run| && forall i :: 0 <= i < n ==> run[i] == Do(CmdRegister(svc), 0)
    ensures var u := StateOf(r, run, ttl, n);
            u.index == r.index + n && (n > 0 ==> svc.name in u.data && u.data[svc.name].modifyIndex == r.index + n)
  {
    if n > 0 {
      RegistersCount(r, svc, ttl, run, n - 1);
    }
  }

  /** Every index in the gap is given out again after the restore: the name that had it is registered anew, and the
      stale guard still goes through. */
  lemma AbaAfterRestore(run: seq<Event>, ttl: int, e: nat)
    returns (w: nat, name: string, suffix: seq<Event>, t: nat)
    requires var s := StateOf(EMPTY, run, ttl, |run|); ServiceDurability.MaxModify(s.data) < e <= s.index
    ensures Registers(run, ttl, w, name, e)
    ensures var restored := Restored(StateOf(EMPTY, run, ttl, |run|));
            && GoesThrough(restored, suffix, ttl, t, name, e)
            && t <= |suffix| && !Untouched(restored, suffix, ttl, 0, t, name)
  {
    var steps := ShadowRun(EMPTY, run, ttl, |run|);
    assert Shadow(EMPTY) == Kv.EMPTY;
    ShadowFollows(EMPTY, run, ttl, |run|);
    w, name := KvRestore.EveryIndexWasGiven(steps, |run|, e);
    ShadowWrite(run, ttl, w, name, e);
    var svc := run[w].cmd.svc;
    var r := Restored(StateOf(EMPTY, run, ttl, |run|));
    t := e - r.index;
    suffix := RepeatedRegisters(svc, t) + [Do(CmdRegisterCAS(svc, e), 0)];
    RegistersCount(r, svc, ttl, suffix, t);
    assert Touches(r, suffix, ttl, 0, name);
  }

  /** The guarantee carries across a restore of the run's end state exactly when some live service carries the
      counter, or nothing was ever registered. */
  lemma NoAbaAcrossRestoreIff(run: seq<Event>, ttl: int)
    ensures var s := StateOf(EMPTY, run, ttl, |run|);
            GuardsHold(run, Restored(s), ttl) <==>
            s.index == 0 || exists n :: n in s.data && s.data[n].modifyIndex == s.index
  {
    var s := StateOf(EMPTY, run, ttl, |run|);
    EveryRunIsWellIndexed(run, ttl, |run|);
    GapIsZeroIff(s);
    if Restored(s).index == s.index {
      SavedCounterKeepsGuards(run, s, ttl);
    } else {
      var w, name, suffix, t := AbaAfterRestore(run, ttl, s.index);
      assert !GuardHoldsAt(run, Restored(s), ttl, suffix, t, name, s.index, w, name);
    }
  }

  lemma GapIsZeroIff(s: State)
    requires KvRuns.WellIndexed(Shadow(s))
    ensures Restored(s).index <= s.index
    ensures Restored(s).index == s.index <==>
            s.index == 0 || exists n :: n in s.data && s.data[n].modifyIndex == s.index
  {
    KvReplication.GapIsZeroIff(Shadow(s));
    if n :| n in s.data && s.data[n].modifyIndex == s.index {
      assert Shadow(s).data[n].modifyIndex == s.index;
    }
    if n :| n in Shadow(s).data && Shadow(s).data[n].modifyIndex == s.index {
      assert s.data[n].modifyIndex == s.index;
    }
  }

  /** A snapshot that saves the counter beside the entries keeps every guard. */
  lemma SavedCounterKeepsGuards(run: seq<Event>, s: State, ttl: int)
    requires s == StateOf(EMPTY, run, ttl, |run|)
    ensures GuardsHold(run, s, ttl)
  {
    forall suffix, t: nat, name, e: nat, w: nat, l ensures GuardHoldsAt(run, s, ttl, suffix, t, name, e, w, l) {
      GuardHolds(run, s, ttl, suffix, t, name, e, w, l);
    }
  }

  /** A restored registry with a clock of its own follows the original through every log without compare-and-swap. */
  lemma RestoredRegistryFollows(s: State, a: seq<Step>, b: seq<Step>, ttl: int, n: nat)
    requires KvRuns.WellIndexed(Shadow(s))
    requires |a| == |b| && n <= |a| && forall i :: 0 <= i < |a| ==> a[i].cmd == b[i].cmd && !IsCas(a[i].cmd)
    ensures Restored(s).index <= s.index
    ensures Drifted(StateAt(s, a, ttl, n), StateAt(Restored(s), b, ttl, n), s.index, s.index - Restored(s).index)
  {
    GapIsZeroIff(s);
    forall x | x in s.data ensures s.data[x].modifyIndex <= s.index && s.data[x].createIndex <= s.index {
      assert Shadow(s).data[x] == Version(s.data[x]);
    }
    SnapshotPlusSuffix(s, Restored(s), a, b, s.index, s.index - Restored(s).index, ttl, n);
  }
}
