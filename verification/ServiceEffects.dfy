/** What each registry command does to the entries, in terms of the entries alone, and where a live entry comes from. */
module ServiceEffects {
  import opened Prelude
  import opened ServiceTypes
  import opened ServiceModel
  import opened ServiceRuns

  // ---- Single commands -----------------------------------------------------------------------------------------

  predicate IsRegister(cmd: Command) {
    cmd.CmdRegister? || cmd.CmdRegisterCAS?
  }

  /** A guarded registration wants the name to have the expected index, or to be absent when the expected index is 0. */
  predicate MayRegister(s: State, cmd: Command)
    requires IsRegister(cmd)
  {
    cmd.CmdRegisterCAS? ==>
      if cmd.expected == 0 then cmd.svc.name !in s.data
      else cmd.svc.name in s.data && s.data[cmd.svc.name].modifyIndex == cmd.expected
  }

  /** Every other name keeps its entry. */
  ghost predicate OthersStay(s: State, t: State, name: string) {
    forall n :: n != name ==> (n in t.data <==> n in s.data) && (n in s.data ==> t.data[n] == s.data[n])
  }

  predicate Refuses(s: State, name: string, expected: nat, reply: Reply) {
    reply == Failed(if name in s.data then CASConflict(name, expected, s.data[name].modifyIndex) else NotFound(name))
  }

  /** A registration that goes through stores exactly the registered service, new or not, until now + ttl, under the
      next index. */
  lemma RegisterStores(s: State, cmd: Command, now: int, ttl: int)
    requires IsRegister(cmd)
    ensures var (t, r) := Apply(s, cmd, now, ttl);
            var name := cmd.svc.name;
            if ValidService(cmd.svc) && MayRegister(s, cmd) then
              && name in t.data && t.data[name].service == cmd.svc && t.data[name].expiresAt == now + ttl
              && t.index == s.index + 1 && t.data[name].modifyIndex == t.index
              && t.data[name].createIndex == (if name in s.data then s.data[name].createIndex else t.index)
              && OthersStay(s, t, name) && r == (if cmd.CmdRegisterCAS? then Indexed(t.index) else Done)
            else t == s && r.Failed?
  {
  }

  lemma RegisterRefusals(s: State, cmd: Command, now: int, ttl: int)
    requires IsRegister(cmd)
    ensures !ValidService(cmd.svc) ==> Apply(s, cmd, now, ttl).1 == Failed(Invalid)
    ensures ValidService(cmd.svc) && !MayRegister(s, cmd) ==>
              Refuses(s, cmd.svc.name, cmd.expected, Apply(s, cmd, now, ttl).1)
  {
  }

  /** A removal takes the entry, whatever it is; a guarded one only at the expected index. */
  lemma DeregisterRemoves(s: State, cmd: Command, now: int, ttl: int)
    requires cmd.CmdDeregister? || cmd.CmdDeregisterCAS?
    ensures var (t, r) := Apply(s, cmd, now, ttl);
            if cmd.CmdDeregisterCAS? ==> cmd.name in s.data && s.data[cmd.name].modifyIndex == cmd.expected then
              cmd.name !in t.data && OthersStay(s, t, cmd.name) && t.index == s.index && r == Done
            else t == s && Refuses(s, cmd.name, cmd.expected, r)
  {
  }

  /** A heartbeat moves the expiry of a known name to now + ttl and changes nothing else. */
  lemma HeartbeatExtends(s: State, name: string, now: int, ttl: int)
    ensures var (t, r) := Apply(s, CmdHeartbeat(name), now, ttl);
            && OthersStay(s, t, name) && t.index == s.index && r == Done
            && (name in t.data <==> name in s.data)
            && (name in s.data ==>
                  && t.data[name].service == s.data[name].service && t.data[name].expiresAt == now + ttl
                  && t.data[name].modifyIndex == s.data[name].modifyIndex
                  && t.data[name].createIndex == s.data[name].createIndex)
  {
  }

  /** What makes a service invalid. */
  lemma InvalidIff(svc: Service)
    ensures !ValidService(svc) <==>
            || svc.name == "" || svc.address == "" || svc.port <= 0 || svc.port >= 65536
            || |svc.tags| > 64 || (exists i, j :: 0 <= i < j < |svc.tags| && svc.tags[i] == svc.tags[j])
            || (exists tag :: tag in svc.tags && BadTag(tag))
            || |svc.meta| > 64 || (exists k :: k in svc.meta && (BadMetaKey(k) || |svc.meta[k]| > 512))
  {
    forall i | 0 <= i < |svc.tags| ensures ValidTag(svc.tags[i]) <==> !BadTag(svc.tags[i]) {
      BadTagIff(svc.tags[i]);
    }
    forall k ensures ValidMetaKey(k) <==> !BadMetaKey(k) {
      BadMetaKeyIff(k);
    }
  }

  /** Empty, longer than 255, or with a character that is no ASCII letter, digit, dash, underscore, colon, dot or
      slash. */
  predicate BadTag(tag: string) {
    || tag == "" || |tag| >= 256
    || exists c :: c in tag && !IsPlain(c) && c != '-' && c != '_' && c != ':' && c != '.' && c != '/'
  }

  /** Empty, longer than 128, with another character, or with a reserved beginning. */
  predicate BadMetaKey(key: string) {
    || key == "" || |key| >= 129 || (exists c :: c in key && !IsPlain(c) && c != '-' && c != '_')
    || key[0] == '_' || (|key| >= 7 && key[..7] == "konsul_")
  }

  predicate IsPlain(c: char) {
    var n := c as int;
    48 <= n <= 57 || 65 <= n <= 90 || 97 <= n <= 122
  }

  lemma BadTagIff(tag: string)
    ensures BadTag(tag) <==> !ValidTag(tag)
  {
    forall c ensures IsPlain(c) <==> IsAlnum(c) {}
    forall i | 0 <= i < |tag|
      ensures IsTagChar(tag[i]) <==> IsPlain(tag[i]) || tag[i] == '-' || tag[i] == '_' || tag[i] == ':' || tag[i] == '.'
                                     || tag[i] == '/'
    {}
  }

  lemma BadMetaKeyIff(key: string)
    ensures BadMetaKey(key) <==> !ValidMetaKey(key)
  {
    forall c ensures IsPlain(c) <==> IsAlnum(c) {}
    forall i | 0 <= i < |key| ensures IsKeyChar(key[i]) <==> IsPlain(key[i]) || key[i] == '-' || key[i] == '_' {}
    if key != "" {
      assert key[..1] == [key[0]];
    }
  }

  // ---- Runs ----------------------------------------------------------------------------------------------------

  /** Event `w` is a registration of the name, and goes through. */
  predicate RegistersAt(run: seq<Event>, ttl: int, w: nat, name: string) {
    && w < |run| && run[w].Do? && IsRegister(run[w].cmd) && run[w].cmd.svc.name == name
    && !ReplyOf(EMPTY, run, ttl, w).Failed?
  }

  /** An event that is no registration of a live name leaves its service record as it is. */
  lemma RecordStays(s: State, event: Event, ttl: int, name: string)
    requires name in After(s, event, ttl).0.data
    requires event.Do? && IsRegister(event.cmd) && event.cmd.svc.name == name ==> After(s, event, ttl).1.Failed?
    ensures name in s.data && After(s, event, ttl).0.data[name].service == s.data[name].service
  {
  }

  /** In every run a live entry holds the very service that the last registration of its name brought, and has been
      there ever since. */
  lemma {:induction false} LastRegistration(run: seq<Event>, ttl: int, n: nat, name: string) returns (w: nat)
    requires n <= |run| && name in StateOf(EMPTY, run, ttl, n).data
    ensures w < n && RegistersAt(run, ttl, w, name)
    ensures StateOf(EMPTY, run, ttl, n).data[name].service == run[w].cmd.svc
    ensures forall i :: w < i < n ==> !RegistersAt(run, ttl, i, name) && name in StateOf(EMPTY, run, ttl, i).data
  {
    var s := StateOf(EMPTY, run, ttl, n - 1);
    if RegistersAt(run, ttl, n - 1, name) {
      w := n - 1;
      RegisterStores(s, run[w].cmd, run[w].now, ttl);
    } else {
      RecordStays(s, run[n - 1], ttl, name);
      w := LastRegistration(run, ttl, n - 1, name);
    }
  }

  /** Event `h` is a registration of the name that goes through, or a heartbeat of it. */
  predicate RefreshesAt(run: seq<Event>, ttl: int, h: nat, name: string) {
    RegistersAt(run, ttl, h, name) || (h < |run| && run[h].Do? && run[h].cmd == CmdHeartbeat(name))
  }

  lemma ExpiryStays(s: State, event: Event, ttl: int, name: string)
    requires name in After(s, event, ttl).0.data
    requires event.Do? && IsRegister(event.cmd) && event.cmd.svc.name == name ==> After(s, event, ttl).1.Failed?
    requires event.Do? ==> event.cmd != CmdHeartbeat(name)
    ensures name in s.data && After(s, event, ttl).0.data[name].expiresAt == s.data[name].expiresAt
  {
  }

  lemma RefreshedNow(s: State, event: Event, ttl: int, name: string)
    requires event.Do? && name in After(s, event, ttl).0.data
    requires (IsRegister(event.cmd) && event.cmd.svc.name == name && !After(s, event, ttl).1.Failed?)
             || event.cmd == CmdHeartbeat(name)
    ensures After(s, event, ttl).0.data[name].expiresAt == event.now + ttl
  {
    if IsRegister(event.cmd) {
      RegisterStores(s, event.cmd, event.now, ttl);
    } else {
      HeartbeatExtends(s, name, event.now, ttl);
    }
  }

  /** And it expires one ttl after the last registration or heartbeat of its name. */
  lemma {:induction false} LastRefresh(run: seq<Event>, ttl: int, n: nat, name: string) returns (h: nat)
    requires n <= |run| && name in StateOf(EMPTY, run, ttl, n).data
    ensures h < n && RefreshesAt(run, ttl, h, name)
    ensures StateOf(EMPTY, run, ttl, n).data[name].expiresAt == run[h].now + ttl
    ensures forall i :: h < i < n ==> !RefreshesAt(run, ttl, i, name)
  {
    var s := StateOf(EMPTY, run, ttl, n - 1);
    if RefreshesAt(run, ttl, n - 1, name) {
      h := n - 1;
      RefreshedNow(s, run[h], ttl, name);
    } else {
      ExpiryStays(s, run[n - 1], ttl, name);
      h := LastRefresh(run, ttl, n - 1, name);
    }
  }
}
