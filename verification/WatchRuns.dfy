/** Whole runs of the watch manager, seen from one watcher: what its channel carries, and what happens once it is
    closed. */
module WatchRuns {
  import opened Prelude
  import opened Watch

  datatype Setting = Setting(rules: Rules, bufferSize: nat, maxPerClient: int)

  function At(ops: seq<Op>, n: nat, w: Setting): Registry
    requires n <= |ops|
  {
    AfterOps(ops, n, w.rules, w.bufferSize, w.maxPerClient)
  }

  lemma AddedIdIsFresh(ops: seq<Op>, n: nat, w: Setting)
    requires n < |ops| && FreshIds(ops) && ops[n].OpAdd?
    ensures ops[n].id !in At(ops, n, w).channels
  {
    if ops[n].id in At(ops, n, w).channels {
      ChannelsComeFromAdds(ops, n, w.rules, w.bufferSize, w.maxPerClient, ops[n].id);
    }
  }

  // ---- Closed channels -----------------------------------------------------------------------------------------

  ghost predicate IsClosed(reg: Registry, id: string) {
    id in reg.channels && reg.channels[id].closed && id !in reg.watchers
  }

  /** Once closed, for the rest of every run a channel stays closed and unregistered, and all that its buffer ever
      does is lose events from the front: nothing is sent to it, and nothing closes it again. */
  lemma {:induction false} ClosedForEver(ops: seq<Op>, a: nat, b: nat, w: Setting, id: string) returns (taken: nat)
    requires a <= b <= |ops| && FreshIds(ops)
    requires id in At(ops, a, w).channels && At(ops, a, w).channels[id].closed
    ensures IsClosed(At(ops, b, w), id)
    ensures taken <= |At(ops, a, w).channels[id].buf|
    ensures At(ops, b, w).channels[id].buf == At(ops, a, w).channels[id].buf[taken..]
  {
    if a == b {
      EveryInterleavingIsConsistent(ops, a, w.rules, w.bufferSize, w.maxPerClient);
      taken := 0;
    } else {
      taken := ClosedForEver(ops, a, b - 1, w, id);
      EveryInterleavingIsConsistent(ops, b - 1, w.rules, w.bufferSize, w.maxPerClient);
      if ops[b - 1].OpAdd? {
        AddedIdIsFresh(ops, b - 1, w);
      }
      ClosedChannelsOnlyDrain(At(ops, b - 1, w), ops[b - 1], w.rules, w.bufferSize, w.maxPerClient, id);
      var buf := At(ops, a, w).channels[id].buf;
      if At(ops, b, w).channels[id] != At(ops, b - 1, w).channels[id] {
        assert buf[taken..][1..] == buf[taken + 1..];
        taken := taken + 1;
      }
    }
  }

  // ---- What a channel carries ----------------------------------------------------------------------------------

  /** Operation `n` is a notification that concerns the watcher at that time. */
  predicate IsOffer(ops: seq<Op>, n: nat, w: Setting, id: string)
    requires n < |ops|
    ensures IsOffer(ops, n, w, id) ==> ops[n].OpNotify?
  {
    ops[n].OpNotify? && Concerns(At(ops, n, w), w.rules, id, ops[n].event.key)
  }

  predicate HasRoom(ops: seq<Op>, n: nat, w: Setting, id: string)
    requires n < |ops|
  {
    var reg := At(ops, n, w);
    id in reg.channels && |reg.channels[id].buf| < reg.channels[id].cap
  }

  /** The notifications that concern the watcher. */
  function Offered(ops: seq<Op>, n: nat, w: Setting, id: string): seq<Event>
    requires n <= |ops|
  {
    if n == 0 then []
    else Offered(ops, n - 1, w, id)
         + (if IsOffer(ops, n - 1, w, id) then [ops[n - 1].event] else [])
  }

  /** What the receiver has taken so far. */
  function Taken(ops: seq<Op>, n: nat, w: Setting, id: string): seq<Event>
    requires n <= |ops|
  {
    if n == 0 then []
    else
      var before := Taken(ops, n - 1, w, id);
      if ops[n - 1] == OpReceive(id) && Received(At(ops, n - 1, w), id).1.Some?
      then before + [Received(At(ops, n - 1, w), id).1.value] else before
  }

  function Buffered(reg: Registry, id: string): seq<Event> {
    if id in reg.channels then reg.channels[id].buf else []
  }

  /** Everything that ever went into the channel: what was taken out and what is still in it. */
  function Delivered(ops: seq<Op>, n: nat, w: Setting, id: string): seq<Event>
    requires n <= |ops|
  {
    Taken(ops, n, w, id) + Buffered(At(ops, n, w), id)
  }

  /** For each such notification, whether it found room in the channel. */
  function Room(ops: seq<Op>, n: nat, w: Setting, id: string): (room: seq<bool>)
    requires n <= |ops|
    ensures |room| == |Offered(ops, n, w, id)|
  {
    if n == 0 then []
    else Room(ops, n - 1, w, id) + (if IsOffer(ops, n - 1, w, id) then [HasRoom(ops, n - 1, w, id)] else [])
  }

  /** The marked events, in order. */
  function Marked(events: seq<Event>, marks: seq<bool>): seq<Event>
    requires |marks| == |events|
  {
    if |events| == 0 then []
    else
      var n := |events| - 1;
      Marked(events[..n], marks[..n]) + (if marks[n] then [events[n]] else [])
  }

  lemma MarkedOneMore(events: seq<Event>, marks: seq<bool>, e: Event, mark: bool)
    requires |marks| == |events|
    ensures Marked(events + [e], marks + [mark]) == Marked(events, marks) + (if mark then [e] else [])
  {
    assert (events + [e])[..|events|] == events && (marks + [mark])[..|marks|] == marks;
  }

  lemma {:induction false} AllMarkedIff(events: seq<Event>, marks: seq<bool>)
    requires |marks| == |events|
    ensures |Marked(events, marks)| <= |events|
    ensures Marked(events, marks) == events <==> forall i :: 0 <= i < |marks| ==> marks[i]
  {
    if |events| > 0 {
      var n := |events| - 1;
      AllMarkedIff(events[..n], marks[..n]);
      LastMarkedIff(events, Marked(events[..n], marks[..n]), marks[n]);
      AllButLast(marks, n);
    }
  }

  lemma LastMarkedIff(events: seq<Event>, marked: seq<Event>, mark: bool)
    requires |events| > 0 && |marked| < |events|
    ensures var n := |events| - 1;
            marked + (if mark then [events[n]] else []) == events <==> mark && marked == events[..n]
  {
    var n := |events| - 1;
    assert events == events[..n] + [events[n]];
    if mark && marked + [events[n]] == events {
      assert marked == (marked + [events[n]])[..n];
    }
  }

  lemma AllButLast(marks: seq<bool>, n: nat)
    requires |marks| == n + 1
    ensures (forall i :: 0 <= i < |marks| ==> marks[i]) <==> marks[n] && forall i :: 0 <= i < n ==> marks[..n][i]
  {
    assert forall i :: 0 <= i < n ==> marks[..n][i] == marks[i];
  }

  /** What one operation does to the stream of one watcher. */
  lemma StreamStep(ops: seq<Op>, n: nat, w: Setting, id: string)
    requires n < |ops| && FreshIds(ops)
    ensures Delivered(ops, n + 1, w, id) ==
            if IsOffer(ops, n, w, id) && HasRoom(ops, n, w, id) then Delivered(ops, n, w, id) + [ops[n].event]
            else Delivered(ops, n, w, id)
  {
    var reg, next := At(ops, n, w), At(ops, n + 1, w);
    EveryInterleavingIsConsistent(ops, n, w.rules, w.bufferSize, w.maxPerClient);
    match ops[n] {
      case OpNotify(event) =>
        if id in reg.channels {
          AtMostOneCopy(reg, w.rules, event, id);
        }
      case OpReceive(other) =>
        if other == id && id in reg.channels && |reg.channels[id].buf| > 0 {
          var buf := reg.channels[id].buf;
          assert Taken(ops, n, w, id) + buf == (Taken(ops, n, w, id) + [buf[0]]) + buf[1..];
        }
      case OpAdd(other, _) => AddedIdIsFresh(ops, n, w);
      case OpRemove(_) =>
      case OpClose =>
    }
  }

  lemma OfferStep(ops: seq<Op>, n: nat, w: Setting, id: string)
    requires n < |ops|
    ensures if IsOffer(ops, n, w, id)
            then Offered(ops, n + 1, w, id) == Offered(ops, n, w, id) + [ops[n].event]
                 && Room(ops, n + 1, w, id) == Room(ops, n, w, id) + [HasRoom(ops, n, w, id)]
            else Offered(ops, n + 1, w, id) == Offered(ops, n, w, id) && Room(ops, n + 1, w, id) == Room(ops, n, w, id)
  {
  }

  lemma CarriesNext(delivered: seq<Event>, offered: seq<Event>, room: seq<bool>, e: Event, mark: bool,
                    delivered': seq<Event>, offered': seq<Event>, room': seq<bool>)
    requires |room| == |offered| && |room'| == |offered'| && delivered == Marked(offered, room)
    requires offered' == offered + [e] && room' == room + [mark]
    requires delivered' == if mark then delivered + [e] else delivered
    ensures delivered' == Marked(offered', room')
  {
    MarkedOneMore(offered, room, e, mark);
  }

  /** At every moment of every run a watcher's channel has carried, in order and once each, exactly the notifications
      that concerned it and found room. */
  lemma {:induction false} ChannelCarriesOffers(ops: seq<Op>, n: nat, w: Setting, id: string)
    requires n <= |ops| && FreshIds(ops)
    ensures Delivered(ops, n, w, id) == Marked(Offered(ops, n, w, id), Room(ops, n, w, id))
  {
    if n > 0 {
      ChannelCarriesOffers(ops, n - 1, w, id);
      OneOpCarries(ops, n - 1, w, id);
    }
  }

  lemma OneOpCarries(ops: seq<Op>, n: nat, w: Setting, id: string)
    requires n < |ops| && FreshIds(ops)
    requires Delivered(ops, n, w, id) == Marked(Offered(ops, n, w, id), Room(ops, n, w, id))
    ensures Delivered(ops, n + 1, w, id) == Marked(Offered(ops, n + 1, w, id), Room(ops, n + 1, w, id))
  {
    StreamStep(ops, n, w, id);
    OfferStep(ops, n, w, id);
    if IsOffer(ops, n, w, id) {
      CarriesNext(Delivered(ops, n, w, id), Offered(ops, n, w, id), Room(ops, n, w, id), ops[n].event,
                  HasRoom(ops, n, w, id), Delivered(ops, n + 1, w, id), Offered(ops, n + 1, w, id),
                  Room(ops, n + 1, w, id));
    }
  }

  /** Nothing is lost exactly when no such notification met a full channel. */
  lemma NothingLostIff(ops: seq<Op>, n: nat, w: Setting, id: string)
    requires n <= |ops| && FreshIds(ops)
    ensures Delivered(ops, n, w, id) == Offered(ops, n, w, id) <==>
            forall i :: 0 <= i < |Room(ops, n, w, id)| ==> Room(ops, n, w, id)[i]
  {
    ChannelCarriesOffers(ops, n, w, id);
    AllMarkedIff(Offered(ops, n, w, id), Room(ops, n, w, id));
  }
}
