/** The service registry on values: entries, validation, and what each operation does to entries and counter. */
module ServiceModel {
  import opened Prelude
  import opened ServiceTypes

  /** Times are whole clock ticks. */
  datatype ServiceEntry = ServiceEntry(service: Service, expiresAt: int, modifyIndex: nat, createIndex: nat)

  datatype State = State(data: map<string, ServiceEntry>, index: nat)

  datatype Error = Invalid | CASConflict(key: string, expected: nat, current: nat) | NotFound(key: string)

  const EMPTY := State(map[], 0)

  // ---- Validation ----------------------------------------------------------------------------------------------

  predicate IsAlnum(c: char) {
    'a' <= c <= 'z' || 'A' <= c <= 'Z' || '0' <= c <= '9'
  }

  predicate IsTagChar(c: char) {
    IsAlnum(c) || c in "-_:./"
  }

  predicate IsKeyChar(c: char) {
    IsAlnum(c) || c in "-_"
  }

  predicate ValidTag(tag: string) {
    0 < |tag| <= 255 && forall i :: 0 <= i < |tag| ==> IsTagChar(tag[i])
  }

  predicate ValidTags(tags: seq<string>) {
    |tags| <= 64 && NoDup(tags) && forall i :: 0 <= i < |tags| ==> ValidTag(tags[i])
  }

  predicate ValidMetaKey(key: string) {
    0 < |key| <= 128 && (forall i :: 0 <= i < |key| ==> IsKeyChar(key[i]))
    && !StartsWith(key, "konsul_") && !StartsWith(key, "_")
  }

  predicate ValidMeta(meta: map<string, string>) {
    |meta| <= 64 && forall k :: k in meta ==> ValidMetaKey(k) && |meta[k]| <= 512
  }

  predicate ValidService(svc: Service) {
    svc.name != "" && svc.address != "" && 1 <= svc.port <= 65535 && ValidTags(svc.tags) && ValidMeta(svc.meta)
  }

  // ---- Operations ----------------------------------------------------------------------------------------------

  function Registered(s: State, svc: Service, expiresAt: int): State {
    var created := if svc.name in s.data then s.data[svc.name].createIndex else s.index + 1;
    State(s.data[svc.name := ServiceEntry(svc, expiresAt, s.index + 1, created)], s.index + 1)
  }

  function Dropped(s: State, name: string): State {
    s.(data := s.data - {name})
  }

  function Extended(s: State, name: string, expiresAt: int): State {
    if name in s.data then s.(data := s.data[name := s.data[name].(expiresAt := expiresAt)]) else s
  }

  /** Cleanup removes what expired strictly before now. */
  function Cleaned(s: State, now: int): State {
    s.(data := map n | n in s.data && s.data[n].expiresAt >= now :: s.data[n])
  }

  function CheckRegister(s: State, name: string, expected: nat): Option<Error> {
    if expected == 0 then
      if name in s.data then Some(CASConflict(name, 0, s.data[name].modifyIndex)) else None
    else if name !in s.data then Some(NotFound(name))
    else if s.data[name].modifyIndex != expected then Some(CASConflict(name, expected, s.data[name].modifyIndex))
    else None
  }

  function CheckDeregister(s: State, name: string, expected: nat): Option<Error> {
    if name !in s.data then Some(NotFound(name))
    else if s.data[name].modifyIndex != expected then Some(CASConflict(name, expected, s.data[name].modifyIndex))
    else None
  }

  // ---- Commands of the replicated log --------------------------------------------------------------------------

  datatype Command =
    | CmdRegister(svc: Service)
    | CmdRegisterCAS(svc: Service, expected: nat)
    | CmdDeregister(name: string)
    | CmdDeregisterCAS(name: string, expected: nat)
    | CmdHeartbeat(name: string)

  datatype Reply = Done | Indexed(newIndex: nat) | Failed(error: Error)

  /** `now` is the clock of the node that applies the command. */
  function Apply(s: State, cmd: Command, now: int, ttl: int): (State, Reply) {
    match cmd
    case CmdRegister(svc) =>
      if !ValidService(svc) then (s, Failed(Invalid)) else (Registered(s, svc, now + ttl), Done)
    case CmdRegisterCAS(svc, expected) =>
      if !ValidService(svc) then (s, Failed(Invalid))
      else
        var err := CheckRegister(s, svc.name, expected);
        if err.Some? then (s, Failed(err.value)) else (Registered(s, svc, now + ttl), Indexed(s.index + 1))
    case CmdDeregister(name) => (Dropped(s, name), Done)
    case CmdDeregisterCAS(name, expected) =>
      var err := CheckDeregister(s, name, expected);
      if err.Some? then (s, Failed(err.value)) else (Dropped(s, name), Done)
    case CmdHeartbeat(name) => (Extended(s, name, now + ttl), Done)
  }

  datatype Step = Step(cmd: Command, now: int)

  function StateAt(start: State, run: seq<Step>, ttl: int, n: nat): State
    requires n <= |run|
  {
    if n == 0 then start else Apply(StateAt(start, run, ttl, n - 1), run[n - 1].cmd, run[n - 1].now, ttl).0
  }

  // ---- Agreement -----------------------------------------------------------------------------------------------

  /** Everything but the expiry, which each node takes from its own clock. */
  function Undated(s: State): State {
    s.(data := map n | n in s.data :: s.data[n].(expiresAt := 0))
  }

  lemma StepAgrees(s: State, t: State, cmd: Command, now: int, later: int, ttl: int)
    requires Undated(s) == Undated(t)
    ensures Undated(Apply(s, cmd, now, ttl).0) == Undated(Apply(t, cmd, later, ttl).0)
    ensures Apply(s, cmd, now, ttl).1 == Apply(t, cmd, later, ttl).1
  {
    DatesDoNotMatter(s, cmd, now, ttl);
    DatesDoNotMatter(t, cmd, later, ttl);
  }

  /** What a command does beneath the dates, and its reply, are those of the undated state at time 0. */
  ghost predicate DatesDoNotMatterTo(s: State, cmd: Command, now: int, ttl: int) {
    && Undated(Apply(s, cmd, now, ttl).0) == Undated(Apply(Undated(s), cmd, 0, 0).0)
    && Apply(s, cmd, now, ttl).1 == Apply(Undated(s), cmd, 0, 0).1
  }

  lemma DatesDoNotMatter(s: State, cmd: Command, now: int, ttl: int)
    ensures DatesDoNotMatterTo(s, cmd, now, ttl)
  {
    match cmd {
      case CmdRegister(svc) => DatesOfRegister(s, svc, now, ttl);
      case CmdRegisterCAS(svc, expected) => DatesOfRegisterCAS(s, svc, expected, now, ttl);
      case CmdDeregister(name) => UndatedDropped(s, name);
      case CmdDeregisterCAS(name, expected) => DatesOfDeregisterCAS(s, name, expected, now, ttl);
      case CmdHeartbeat(name) => UndatedExtended(s, name, now + ttl);
    }
  }

  lemma DatesOfRegister(s: State, svc: Service, now: int, ttl: int)
    ensures DatesDoNotMatterTo(s, CmdRegister(svc), now, ttl)
  {
    UndatedTwice(s);
    UndatedRegistered(s, svc, now + ttl);
  }

  lemma DatesOfRegisterCAS(s: State, svc: Service, expected: nat, now: int, ttl: int)
    ensures DatesDoNotMatterTo(s, CmdRegisterCAS(svc, expected), now, ttl)
  {
    UndatedTwice(s);
    UndatedRegistered(s, svc, now + ttl);
    assert CheckRegister(s, svc.name, expected) == CheckRegister(Undated(s), svc.name, expected);
  }

  lemma DatesOfDeregisterCAS(s: State, name: string, expected: nat, now: int, ttl: int)
    ensures DatesDoNotMatterTo(s, CmdDeregisterCAS(name, expected), now, ttl)
  {
    UndatedTwice(s);
    UndatedDropped(s, name);
  }

  lemma UndatedTwice(s: State)
    ensures Undated(Undated(s)) == Undated(s)
  {
  }

  lemma UndatedRegistered(s: State, svc: Service, e: int)
    ensures Undated(Registered(s, svc, e)) == Undated(Registered(Undated(s), svc, 0))
  {
  }

  lemma UndatedDropped(s: State, name: string)
    ensures Undated(Dropped(s, name)) == Undated(Dropped(Undated(s), name))
  {
  }

  lemma UndatedExtended(s: State, name: string, e: int)
    ensures Undated(Extended(s, name, e)) == Undated(Extended(Undated(s), name, 0))
  {
  }

  /** Two replicas that apply one log of service commands, each by its own clock, differ in expiry times only, and
      give the same answers, compare-and-swap included. */
  lemma {:induction false} ReplicasAgree(a: seq<Step>, b: seq<Step>, ttl: int, n: nat)
    requires |a| == |b| && n <= |a| && forall i :: 0 <= i < |a| ==> a[i].cmd == b[i].cmd
    ensures Undated(StateAt(EMPTY, a, ttl, n)) == Undated(StateAt(EMPTY, b, ttl, n))
    ensures n < |a| ==> Apply(StateAt(EMPTY, a, ttl, n), a[n].cmd, a[n].now, ttl).1
                        == Apply(StateAt(EMPTY, b, ttl, n), b[n].cmd, b[n].now, ttl).1
  {
    if n > 0 {
      ReplicasAgree(a, b, ttl, n - 1);
      StepAgrees(StateAt(EMPTY, a, ttl, n - 1), StateAt(EMPTY, b, ttl, n - 1), a[n - 1].cmd, a[n - 1].now,
                 b[n - 1].now, ttl);
    }
    if n < |a| {
      StepAgrees(StateAt(EMPTY, a, ttl, n), StateAt(EMPTY, b, ttl, n), a[n].cmd, a[n].now, b[n].now, ttl);
    }
  }

  // ---- Names ---------------------------------------------------------------------------------------------------

  /** Every entry is stored under its service's own name. */
  predicate NamesMatch(data: map<string, ServiceEntry>) {
    forall n :: n in data ==> data[n].service.name == n
  }

  lemma {:induction false} RunsKeepNames(run: seq<Step>, ttl: int, n: nat)
    requires n <= |run|
    ensures NamesMatch(StateAt(EMPTY, run, ttl, n).data)
  {
    if n > 0 {
      RunsKeepNames(run, ttl, n - 1);
    }
  }

  // ---- Snapshots -----------------------------------------------------------------------------------------------

  /** `t` is `s` up to expiry, with every index given after `base`, and the counter, lower by `gap`. */
  ghost predicate Drifted(s: State, t: State, base: nat, gap: nat)
    requires gap <= base
  {
    && base <= s.index && t.index == s.index - gap && t.data.Keys == s.data.Keys
    && forall n :: n in s.data ==> DriftedEntry(s.data[n], t.data[n], base, gap)
  }

  predicate DriftedEntry(a: ServiceEntry, b: ServiceEntry, base: nat, gap: nat)
    requires gap <= base
  {
    && b.service == a.service
    && b.modifyIndex == ShiftIndex(a.modifyIndex, base, gap) && b.createIndex == ShiftIndex(a.createIndex, base, gap)
  }

  predicate IsCas(cmd: Command) {
    cmd.CmdRegisterCAS? || cmd.CmdDeregisterCAS?
  }

  lemma StepDrifts(s: State, t: State, base: nat, gap: nat, cmd: Command, now: int, later: int, ttl: int)
    requires gap <= base && Drifted(s, t, base, gap) && !IsCas(cmd)
    ensures Drifted(Apply(s, cmd, now, ttl).0, Apply(t, cmd, later, ttl).0, base, gap)
    ensures Apply(s, cmd, now, ttl).1 == Apply(t, cmd, later, ttl).1
  {
  }

  /** Snapshot plus suffix: the restored registry, with a clock of its own, has the same services; indices from before
      the snapshot are kept, later ones are lower by the gap. */
  lemma {:induction false} SnapshotPlusSuffix(s: State, r: State, a: seq<Step>, b: seq<Step>, base: nat, gap: nat,
                                              ttl: int, n: nat)
    requires gap <= base && Drifted(s, r, base, gap)
    requires |a| == |b| && n <= |a| && forall i :: 0 <= i < |a| ==> a[i].cmd == b[i].cmd && !IsCas(a[i].cmd)
    ensures Drifted(StateAt(s, a, ttl, n), StateAt(r, b, ttl, n), base, gap)
  {
    if n > 0 {
      SnapshotPlusSuffix(s, r, a, b, base, gap, ttl, n - 1);
      StepDrifts(StateAt(s, a, ttl, n - 1), StateAt(r, b, ttl, n - 1), base, gap, a[n - 1].cmd, a[n - 1].now,
                 b[n - 1].now, ttl);
    }
  }
}
