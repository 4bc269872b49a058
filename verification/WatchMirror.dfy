/**
 The store and the watch manager together: commands change the store and queue their events, the events are notified
 one by one, receivers drain their channels at any time, and other watchers come and go.
 */
module WatchMirror {
  import opened Prelude
  import Kv
  import opened KvEvents
  import Watch

  /** `pending` holds the events of the last command that are not yet notified; `received` is what the watched
      receiver has taken so far; `dropped` records whether its channel was ever full at a send. */
  datatype System = System(kv: Kv.State, pending: seq<Watch.Event>, reg: Watch.Registry,
                           received: seq<Watch.Event>, dropped: bool)

  datatype Action =
    | Command(step: Kv.Step, events: seq<Watch.Event>)
    | Deliver
    | Receive(id: string)
    | Add(id: string, watcher: Watch.Watcher)
    | Remove(id: string)

  datatype Config = Config(rules: Watch.Rules, bufferSize: nat, maxPerClient: int)

  /** Operations do not overlap: a command starts only when the events of the one before are out. */
  ghost predicate Enabled(sys: System, a: Action, me: string) {
    match a
    case Command(step, events) => sys.pending == [] && Kv.ValidStep(step) && Notifies(sys.kv, step, events)
    case Deliver => |sys.pending| > 0
    case Receive(_) => true
    case Add(id, _) => id !in sys.reg.channels
    case Remove(id) => id != me
  }

  ghost function Next(sys: System, a: Action, me: string, cfg: Config): System
    requires Enabled(sys, a, me)
  {
    match a
    case Command(step, events) => sys.(kv := Kv.Apply(sys.kv, step).0, pending := events)
    case Deliver =>
      var e := sys.pending[0];
      sys.(pending := sys.pending[1..],
           reg := Watch.Notified(sys.reg, cfg.rules, e),
           dropped := sys.dropped || (Watch.Concerns(sys.reg, cfg.rules, me, e.key) && me in sys.reg.channels
                                      && |sys.reg.channels[me].buf| >= sys.reg.channels[me].cap))
    case Receive(id) =>
      var (reg, event) := Watch.Received(sys.reg, id);
      sys.(reg := reg, received := if id == me && event.Some? then sys.received + [event.value] else sys.received)
    case Add(id, w) =>
      if Watch.LimitReached(sys.reg, w.userID, cfg.maxPerClient) then sys
      else sys.(reg := Watch.Added(sys.reg, id, w, cfg.bufferSize))
    case Remove(id) => sys.(reg := Watch.Removed(sys.reg, id))
  }

  ghost predicate ValidActions(start: System, actions: seq<Action>, n: nat, me: string, cfg: Config)
    requires n <= |actions|
    decreases n, 0
  {
    n == 0 || (ValidActions(start, actions, n - 1, me, cfg)
               && Enabled(At(start, actions, n - 1, me, cfg), actions[n - 1], me))
  }

  ghost function At(start: System, actions: seq<Action>, n: nat, me: string, cfg: Config): System
    requires n <= |actions| && ValidActions(start, actions, n, me, cfg)
    decreases n, 1
  {
    if n == 0 then start else Next(At(start, actions, n - 1, me, cfg), actions[n - 1], me, cfg)
  }

  // ---- What a watcher may see ----------------------------------------------------------------------------------

  /** A watcher under fixed rules. */
  datatype View = View(rules: Watch.Rules, watcher: Watch.Watcher)

  /** The key matches the watcher's pattern and its policies may read it. */
  predicate Sees(v: View, key: string) {
    Watch.MatchesPattern(v.rules, key, v.watcher.pattern) && v.rules.canRead(v.watcher.policies, key)
  }

  function Seen(v: View, values: Values): Values {
    map k | k in values && Sees(v, k) :: values[k]
  }

  function Relevant(v: View, events: seq<Watch.Event>): seq<Watch.Event> {
    if |events| == 0 then []
    else (if Sees(v, events[0].key) then [events[0]] else []) + Relevant(v, events[1..])
  }

  lemma FoldedFirst(m: Values, e: Watch.Event, rest: seq<Watch.Event>)
    ensures Folded(m, [e] + rest) == Folded(Folded1(m, e), rest)
  {
    assert [e][..0] == [];
    FoldedConcat(m, [e], rest);
  }

  lemma SeenFolded1(v: View, m: Values, e: Watch.Event)
    ensures Seen(v, Folded1(m, e)) == if Sees(v, e.key) then Folded1(Seen(v, m), e) else Seen(v, m)
  {
  }

  /** What the relevant events make of the seen values is what may be seen of what all events make of all values. */
  lemma {:induction false} SeenFolded(v: View, m: Values, events: seq<Watch.Event>)
    ensures Folded(Seen(v, m), Relevant(v, events)) == Seen(v, Folded(m, events))
    decreases |events|
  {
    if |events| > 0 {
      var e, rest := events[0], events[1..];
      assert events == [e] + rest;
      FoldedFirst(m, e, rest);
      SeenFolded1(v, m, e);
      SeenFolded(v, Folded1(m, e), rest);
      if Sees(v, e.key) {
        FoldedFirst(Seen(v, m), e, Relevant(v, rest));
      } else {
        assert Relevant(v, events) == Relevant(v, rest);
      }
    }
  }

  /** A pattern that ends in two stars shows exactly the readable keys that start with what precedes them. */
  lemma SeesPrefix(v: View, prefix: string, key: string)
    requires v.watcher.pattern == prefix + "**"
    ensures Sees(v, key) <==> StartsWith(key, prefix) && v.rules.canRead(v.watcher.policies, key)
  {
    Watch.TrailingDoubleStar(v.rules, key, prefix);
  }

  // ---- The mirror ----------------------------------------------------------------------------------------------

  /** The moment after `me` subscribed: an empty open channel, nothing pending, nothing received. */
  ghost predicate JustSubscribed(start: System, me: string, v: View) {
    && start.pending == [] && start.received == [] && !start.dropped
    && Watches(start.reg, me, v) && start.reg.channels[me].buf == []
  }

  ghost predicate Watches(reg: Watch.Registry, me: string, v: View) {
    me in reg.watchers && me in reg.channels && reg.watchers[me] == v.watcher
  }

  /** Everything on its way to the receiver: taken, buffered, and not yet notified. */
  function Stream(sys: System, me: string, v: View): seq<Watch.Event>
    requires me in sys.reg.channels
  {
    sys.received + sys.reg.channels[me].buf + Relevant(v, sys.pending)
  }

  lemma DeliveryMoves(sys: System, me: string, v: View, cfg: Config)
    requires Enabled(sys, Deliver, me) && Watches(sys.reg, me, v) && v.rules == cfg.rules
    requires !Next(sys, Deliver, me, cfg).dropped
    ensures var next := Next(sys, Deliver, me, cfg);
            Watches(next.reg, me, v) && Stream(next, me, v) == Stream(sys, me, v)
  {
    var next, e, rest := Next(sys, Deliver, me, cfg), sys.pending[0], sys.pending[1..];
    var buf := sys.reg.channels[me].buf;
    assert Watch.Concerns(sys.reg, cfg.rules, me, e.key) <==> Sees(v, e.key);
    if Sees(v, e.key) {
      assert next.reg.channels[me].buf == buf + [e];
      assert sys.received + (buf + [e]) + Relevant(v, rest) == sys.received + buf + ([e] + Relevant(v, rest));
    } else {
      assert next.reg.channels[me].buf == buf;
      assert [] + Relevant(v, rest) == Relevant(v, rest);
    }
  }

  /** Delivery and receiving only move events along the stream. */
  lemma StreamMoves(sys: System, a: Action, me: string, v: View, cfg: Config)
    requires Enabled(sys, a, me) && Watches(sys.reg, me, v) && v.rules == cfg.rules
    requires !a.Command? && !Next(sys, a, me, cfg).dropped
    ensures var next := Next(sys, a, me, cfg);
            Watches(next.reg, me, v) && !sys.dropped && next.kv == sys.kv && Stream(next, me, v) == Stream(sys, me, v)
  {
    match a {
      case Deliver => DeliveryMoves(sys, me, v, cfg);
      case Receive(id) =>
        if id == me && |sys.reg.channels[me].buf| > 0 {
          assert sys.reg.channels[me].buf == [sys.reg.channels[me].buf[0]] + sys.reg.channels[me].buf[1..];
        }
      case Add(_, _) =>
      case Remove(_) =>
    }
  }

  /** The stream, folded over what could be seen at subscription, gives what can be seen now. */
  ghost predicate Mirrors(start: System, sys: System, me: string, v: View) {
    Watches(sys.reg, me, v) && Folded(Seen(v, ValuesOf(start.kv)), Stream(sys, me, v)) == Seen(v, ValuesOf(sys.kv))
  }

  lemma CommandKeepsMirror(start: System, sys: System, a: Action, me: string, v: View, cfg: Config)
    requires Enabled(sys, a, me) && a.Command? && Mirrors(start, sys, me, v)
    ensures Mirrors(start, Next(sys, a, me, cfg), me, v)
  {
    StepMirrors(sys.kv, a.step, a.events);
    StreamGrows(sys, a, me, v, cfg);
    EventsKeepMirror(v, ValuesOf(start.kv), Stream(sys, me, v), ValuesOf(sys.kv), a.events);
  }

  lemma StreamGrows(sys: System, a: Action, me: string, v: View, cfg: Config)
    requires Enabled(sys, a, me) && a.Command? && Watches(sys.reg, me, v)
    ensures Watches(Next(sys, a, me, cfg).reg, me, v)
    ensures Stream(Next(sys, a, me, cfg), me, v) == Stream(sys, me, v) + Relevant(v, a.events)
  {
    assert Relevant(v, sys.pending) == [];
  }

  lemma EventsKeepMirror(v: View, first: Values, stream: seq<Watch.Event>, now: Values, events: seq<Watch.Event>)
    requires Folded(Seen(v, first), stream) == Seen(v, now)
    ensures Folded(Seen(v, first), stream + Relevant(v, events)) == Seen(v, Folded(now, events))
  {
    SeenFolded(v, now, events);
    FoldedConcat(Seen(v, first), stream, Relevant(v, events));
  }

  /** At every moment, for any pattern and any permissions: what the receiver took, what is buffered and what is
      pending, as far as it concerns the watcher, folded over what it could see at subscription, give what it can see
      now. */
  lemma {:induction false} StreamMirrorsStore(start: System, actions: seq<Action>, n: nat, me: string, v: View,
                                              cfg: Config)
    requires n <= |actions| && ValidActions(start, actions, n, me, cfg) && JustSubscribed(start, me, v)
    requires v.rules == cfg.rules && !At(start, actions, n, me, cfg).dropped
    ensures Mirrors(start, At(start, actions, n, me, cfg), me, v)
  {
    if n > 0 {
      var before, a := At(start, actions, n - 1, me, cfg), actions[n - 1];
      assert !before.dropped;
      StreamMirrorsStore(start, actions, n - 1, me, v, cfg);
      if a.Command? {
        CommandKeepsMirror(start, before, a, me, v, cfg);
      } else {
        StreamMoves(before, a, me, v, cfg);
      }
    }
  }

  /** Once the events are out and the channel is drained, what the receiver got reproduces all of the store it may
      see. */
  lemma DrainedReceiverHasTheStore(start: System, actions: seq<Action>, n: nat, me: string, v: View, cfg: Config)
    requires n <= |actions| && ValidActions(start, actions, n, me, cfg) && JustSubscribed(start, me, v)
    requires v.rules == cfg.rules
    requires var sys := At(start, actions, n, me, cfg);
             !sys.dropped && sys.pending == [] && me in sys.reg.channels && sys.reg.channels[me].buf == []
    ensures Folded(Seen(v, ValuesOf(start.kv)), At(start, actions, n, me, cfg).received) ==
            Seen(v, ValuesOf(At(start, actions, n, me, cfg).kv))
  {
    StreamMirrorsStore(start, actions, n, me, v, cfg);
    var sys := At(start, actions, n, me, cfg);
    assert Stream(sys, me, v) == sys.received;
  }
}
