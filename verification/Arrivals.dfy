/** What becomes of each packet on a session's data path, over every run: which key opens it, whether it is new, and so
    whether it is queued, closes the session or is dropped; what Read hands over; and which ids sealing uses. */
module Arrivals {
  import opened Words
  import Replay
  import opened DataChannel
  import opened Delivery
  import opened DeliverySafety

  // ---- which wrapper opens a packet ----

  /** Under these slots wrapper i opens the packet: it authenticates, and i is the primary or a lame duck in its
      time. */
  predicate Opens(wrappers: seq<Wrapper>, slots: Slots, now: int, packet: Packet, i: nat) {
    && i < |wrappers| && Authenticates(wrappers[i], packet)
    && slots.primary.Some?
    && (slots.primary == Some(i) || (slots.lameDuck == Some(i) && now < slots.mustDie))
  }

  /** seen[i] are the ids wrapper i has accepted. */
  ghost predicate Remembers(wrappers: seq<Wrapper>, seen: seq<set<u32>>) {
    |seen| == |wrappers| && forall i :: 0 <= i < |seen| ==> Replay.Refines(wrappers[i].replay, seen[i])
  }

  /** The packet is opened, is new to the wrapper that opens it, and is no keepalive. */
  ghost predicate ComesThrough(
    wrappers: seq<Wrapper>, seen: seq<set<u32>>, slots: Slots, now: int, packet: Packet)
    requires |seen| == |wrappers|
  {
    exists i: nat ::
      Opens(wrappers, slots, now, packet, i) && Replay.New(seen[i], PacketId(packet)) && !IsPing(packet.box.plaintext)
  }

  /** What the wrappers have accepted once the packet has come. */
  ghost function SeenWith(
    wrappers: seq<Wrapper>, seen: seq<set<u32>>, slots: Slots, now: int, packet: Packet): seq<set<u32>>
    requires |seen| == |wrappers|
  {
    seq(|seen|, i requires 0 <= i < |seen| =>
      if Opens(wrappers, slots, now, packet, i) && Replay.New(seen[i], PacketId(packet))
      then seen[i] + {PacketId(packet)} else seen[i])
  }

  lemma OpenExactly(w: Wrapper, seen: set<u32>, packet: Packet)
    requires Replay.Refines(w.replay, seen)
    ensures var (w', result) := Open(w, packet);
            && Authenticates(w', packet) == Authenticates(w, packet)
            && if !Authenticates(w, packet) then w' == w && !result.Plain? && !result.Ping?
               else
                 && Replay.Refines(w'.replay,
                                   if Replay.New(seen, PacketId(packet)) then seen + {PacketId(packet)} else seen)
                 && (result.Ping? <==> Replay.New(seen, PacketId(packet)) && IsPing(packet.box.plaintext))
                 && (result.Plain? <==> Replay.New(seen, PacketId(packet)) && !IsPing(packet.box.plaintext))
                 && (result.Plain? ==> result.plaintext == packet.box.plaintext)
  {
    hide Replay.Accept, Replay.New, Replay.Refines;
    if Authenticates(w, packet) {
      Replay.AcceptRefines(w.replay, seen, PacketId(packet));
    }
  }

  /** Opening under a snapshot: the item comes out exactly if it comes through, and the windows go on standing for what
      they have accepted. */
  lemma OpenUnderExactly(wrappers: seq<Wrapper>, seen: seq<set<u32>>, slots: Slots, now: int, packet: Packet)
    requires SlotOk(slots, |wrappers|) && DistinctKeys(wrappers) && Remembers(wrappers, seen)
    ensures var attempt := OpenUnder(wrappers, slots, now, packet);
            && (attempt.plain <==> ComesThrough(wrappers, seen, slots, now, packet))
            && (attempt.plain ==> packet.Packet? && attempt.arrived == Some(ItemOf(packet)))
            && Remembers(attempt.wrappers, SeenWith(wrappers, seen, slots, now, packet))
  {
    hide Replay.Accept, Replay.New, Replay.Refines, Open, Authenticates, IsPing;
    if slots.primary.Some? {
      var i, live := slots.primary.value, LiveLameDuck(slots, now);
      OpenExactly(wrappers[i], seen[i], packet);
      if live.Some? {
        OpenExactly(wrappers[live.value], seen[live.value], packet);
        OnlyOneOpens(wrappers, packet, i, live.value);
      }
      OpensOnly(wrappers, slots, now, packet);
      if ComesThrough(wrappers, seen, slots, now, packet) {
        var j: nat :| Opens(wrappers, slots, now, packet, j) && Replay.New(seen[j], PacketId(packet)) &&
          !IsPing(packet.box.plaintext);
        assert j == i || Some(j) == live;
      }
      assert Authenticates(wrappers[i], packet) ==> Opens(wrappers, slots, now, packet, i);
      assert live.Some? && Authenticates(wrappers[live.value], packet) ==>
        Opens(wrappers, slots, now, packet, live.value);
    }
  }

  lemma OnlyOneOpens(wrappers: seq<Wrapper>, packet: Packet, i: nat, j: nat)
    requires DistinctKeys(wrappers) && i < |wrappers| && j < |wrappers| && i != j
    ensures !(Authenticates(wrappers[i], packet) && Authenticates(wrappers[j], packet))
    ensures Authenticates(wrappers[i], packet) || Authenticates(wrappers[j], packet) ==> packet.Packet?
  {
  }

  lemma OpensOnly(wrappers: seq<Wrapper>, slots: Slots, now: int, packet: Packet)
    requires slots.primary.Some?
    ensures forall j: nat :: Opens(wrappers, slots, now, packet, j) ==>
              packet.Packet? && (Some(j) == slots.primary || Some(j) == LiveLameDuck(slots, now))
  {
  }

  // ---- the fate of a packet ----

  /** An authentic, new packet that is no keepalive is queued, or closes the session if it is an exit notice, or finds
      the queue full or the session stopping; any other packet changes nothing that Read can see. */
  lemma ArriveExactly(s: State, seen: seq<set<u32>>, packet: Packet, snapshot: nat, now: int, stopFirst: bool)
    requires SlotsOk(s) && snapshot < |s.slots| && DistinctKeys(s.wrappers) && Remembers(s.wrappers, seen)
    ensures var s' := Step(s, Arrive(packet, snapshot, now, stopFirst));
            var through := ComesThrough(s.wrappers, seen, s.slots[snapshot], now, packet);
            var room := |s.inbox.queue| < s.inbox.capacity && !(s.inbox.closing && stopFirst);
            && (through ==> packet.Packet?)
            && Stream(s') == Stream(s) +
                 (if through && !IsExitNotify(packet.box.plaintext) && room then [ItemOf(packet)] else [])
            && (s'.inbox.closing <==> s.inbox.closing || (through && IsExitNotify(packet.box.plaintext)))
            && s'.returned == s.returned && s'.slots == s.slots
            && Remembers(s'.wrappers, SeenWith(s.wrappers, seen, s.slots[snapshot], now, packet))
  {
    hide OpenUnder, ComesThrough, Remembers, SeenWith;
    OpenUnderExactly(s.wrappers, seen, s.slots[snapshot], now, packet);
    var s' := Step(s, Arrive(packet, snapshot, now, stopFirst));
    assert Stream(s') == s.returned + Pending(s) + s'.inbox.queue;
    assert Stream(s) + [] == Stream(s);
    if |s'.inbox.queue| > |s.inbox.queue| {
      assert Stream(s') == Stream(s) + [ItemOf(packet)];
    }
  }

  // ---- every run ----

  /** The ids each wrapper has accepted after k events. */
  ghost function SeenIn(run: seq<State>, events: seq<Event>, k: nat): (seen: seq<set<u32>>)
    requires IsRun(run, events) && k < |run|
    ensures |seen| == |run[k].wrappers|
  {
    if k == 0 then []
    else
      var s, seen := run[k - 1], SeenIn(run, events, k - 1);
      SameWrappers(s, events[k - 1]);
      match events[k - 1]
      case Arrive(packet, snapshot, now, _) => SeenWith(s.wrappers, seen, s.slots[snapshot], now, packet)
      case Install(_, _) => seen + [{}]
      case _ => seen
  }

  lemma SameWrappers(s: State, e: Event)
    requires SlotsOk(s) && Enabled(s, e)
    ensures |Step(s, e).wrappers| == |s.wrappers| + if e.Install? then 1 else 0
  {
  }

  lemma {:induction false} RunRemembers(run: seq<State>, events: seq<Event>, k: nat)
    requires IsRun(run, events) && k < |run|
    ensures DistinctKeys(run[k].wrappers) && Remembers(run[k].wrappers, SeenIn(run, events, k))
  {
    hide Replay.Refines, Replay.Accept, OpenUnder, SeenWith, Handle;
    var accepted := RunKeeps(run, events, k);
    if k > 0 {
      RunRemembers(run, events, k - 1);
      var s, e, seen := run[k - 1], events[k - 1], SeenIn(run, events, k - 1);
      if e.Arrive? {
        ArriveExactly(s, seen, e.packet, e.snapshot, e.now, e.stopFirst);
      } else {
        OthersRemember(s, e, seen);
      }
    }
  }

  lemma OthersRemember(s: State, e: Event, seen: seq<set<u32>>)
    requires SlotsOk(s) && Enabled(s, e) && !e.Arrive? && Remembers(s.wrappers, seen)
    ensures Remembers(Step(s, e).wrappers, if e.Install? then seen + [{}] else seen)
  {
    hide Replay.Accept;
    if e.Install? {
      assert Replay.Refines(e.wrapper.replay, {});
    }
  }

  /** In every run and for every packet: it extends what Read hands over by exactly itself if it authenticates under
      the snapshot's primary or its lame duck in time, is new there, is neither keepalive nor exit notice, and finds
      room in a session that takes it; in every other case that stays. Only an exit notice that comes through closes. */
  lemma EveryPacketsFate(run: seq<State>, events: seq<Event>, k: nat)
    requires IsRun(run, events) && k < |events| && events[k].Arrive?
    ensures var s, s', e := run[k], run[k + 1], events[k];
            var through := ComesThrough(s.wrappers, SeenIn(run, events, k), s.slots[e.snapshot], e.now, e.packet);
            var room := |s.inbox.queue| < s.inbox.capacity && !(s.inbox.closing && e.stopFirst);
            && (through ==> e.packet.Packet?)
            && Stream(s') == Stream(s) +
                 (if through && !IsExitNotify(e.packet.box.plaintext) && room then [ItemOf(e.packet)] else [])
            && (s'.inbox.closing <==> s.inbox.closing || (through && IsExitNotify(e.packet.box.plaintext)))
  {
    hide SeenIn, ComesThrough, Step, Remembers;
    RunRemembers(run, events, k);
    var e := events[k];
    ArriveExactly(run[k], SeenIn(run, events, k), e.packet, e.snapshot, e.now, e.stopFirst);
  }

  /** A rollover makes the new key primary at once and leaves the old one open for exactly the transition window. */
  lemma RolloverOverlaps(s: State, w: Wrapper, now: int, packet: Packet, i: nat, later: int)
    requires SlotsOk(s) && Enabled(s, Install(w, now))
    ensures var s' := Step(s, Install(w, now));
            var slots := s'.slots[|s'.slots| - 1];
            && (Opens(s'.wrappers, slots, later, packet, |s.wrappers|) <==> Authenticates(w, packet))
            && (s.slots[|s.slots| - 1].primary == Some(i) ==>
                  (Opens(s'.wrappers, slots, later, packet, i) <==>
                     Authenticates(s.wrappers[i], packet) && later < now + TRANSITION_WINDOW))
  {
    hide Authenticates;
  }

  /** Once the lame duck is swept, only the primary opens under the slots published then. */
  lemma SweptIsShut(s: State, packet: Packet, i: nat, now: int)
    requires SlotsOk(s)
    ensures var s' := Step(s, SweepLameDuck);
            var slots := s'.slots[|s'.slots| - 1];
            Opens(s'.wrappers, slots, now, packet, i) <==>
              i < |s.wrappers| && s.slots[|s.slots| - 1].primary == Some(i) && Authenticates(s.wrappers[i], packet)
  {
    hide Authenticates;
  }

  // ---- Read ----

  /** Read hands over the first of what is waiting exactly if it fits and the session is not stopping first; either way
      the order stays. */
  lemma ReadExactly(s: State, room: nat, stopFirst: bool)
    ensures var s', waiting := ReadStep(s, room, stopFirst), Pending(s) + s.inbox.queue;
            && Stream(s') == Stream(s)
            && s'.returned == s.returned +
                 (if waiting != [] && |waiting[0].plaintext| <= room &&
                     (s.inbox.pending.Some? || !(s.inbox.closing && stopFirst))
                  then [waiting[0]] else [])
    ensures Take(s.inbox, Size, room, stopFirst).1.Eof? <==>
              s.inbox.pending.None? && s.inbox.closing && (stopFirst || s.inbox.queue == [])
  {
    ReadKeepsStream(s, room, stopFirst);
  }

  /** Once closed, by the application or by an exit notice, a session stays closing. */
  lemma {:induction false} ClosingStays(run: seq<State>, events: seq<Event>, j: nat, k: nat)
    requires IsRun(run, events) && j < k < |run| && (events[j].Close? || run[j].inbox.closing)
    ensures run[k].inbox.closing
  {
    hide OpenUnder;
    assert run[k] == Step(run[k - 1], events[k - 1]);
    if j < k - 1 {
      ClosingStays(run, events, j, k - 1);
    }
  }

  // ---- sealing ----

  /** Wrapper i has sealed under every id from 1 to its counter. */
  predicate SealedAll(s: State, i: nat)
    requires i < |s.wrappers|
  {
    forall id :: 1 <= id <= s.wrappers[i].sendSeq ==> SealedId(s, s.wrappers[i].encrypt.key, id)
  }

  predicate SealedId(s: State, key: nat, id: int) {
    exists j :: 0 <= j < |s.sealed| && s.sealed[j].key == key && s.sealed[j].id == id
  }

  lemma StepSeals(s: State, e: Event, i: nat)
    requires SlotsOk(s) && Enabled(s, e) && i < |Step(s, e).wrappers|
    requires i < |s.wrappers| ==> SealedAll(s, i)
    ensures SealedAll(Step(s, e), i)
  {
    hide Replay.Accept;
    var s' := Step(s, e);
    assert s.sealed <= s'.sealed;
    assert i < |s.wrappers| ==> s'.wrappers[i].encrypt == s.wrappers[i].encrypt;
    forall id | 1 <= id <= s'.wrappers[i].sendSeq ensures SealedId(s', s'.wrappers[i].encrypt.key, id) {
      if id <= s.wrappers[i].sendSeq {
        assert SealedId(s, s.wrappers[i].encrypt.key, id);
        var j :| 0 <= j < |s.sealed| && s.sealed[j].key == s.wrappers[i].encrypt.key && s.sealed[j].id == id;
        assert s'.sealed[j] == s.sealed[j];
      } else {
        assert s'.sealed[|s.sealed|] == Item(s.wrappers[i].encrypt.key, id, e.plaintext);
      }
    }
  }

  /** In every run, and until 2^32 - 1 ids are spent, each packet is sealed under the next id of its key: so far
      every id from 1 to the counter has been used, and by NoncesAreUnique only once. */
  lemma {:induction false} IdsAreConsecutive(run: seq<State>, events: seq<Event>, k: nat, i: nat)
    requires IsRun(run, events) && k < |run| && i < |run[k].wrappers|
    ensures SealedAll(run[k], i)
    ensures k < |events| && events[k].SealOn? && events[k].key == i && run[k].wrappers[i].sendSeq < LAST_PACKET_ID ==>
              run[k + 1].sealed == run[k].sealed + [Item(run[k].wrappers[i].encrypt.key,
                                                         run[k].wrappers[i].sendSeq + 1, events[k].plaintext)]
  {
    hide OpenUnder;
    if k > 0 {
      if i < |run[k - 1].wrappers| {
        IdsAreConsecutive(run, events, k - 1, i);
      }
      StepSeals(run[k - 1], events[k - 1], i);
    }
  }
}
