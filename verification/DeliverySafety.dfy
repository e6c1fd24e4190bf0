/** At-most-once, in-order delivery across key rollovers, and unique nonces, over every run of a session's data path. */
module DeliverySafety {
  import opened Words
  import Replay
  import opened DataChannel
  import opened Delivery

  // ---- subsequences ----

  lemma SubsequenceSkip(a: seq<Item>, b: seq<Item>, x: Item)
    requires Subsequence(a, b)
    ensures Subsequence(a, b + [x])
  {
    assert (b + [x])[..|b|] == b;
  }

  lemma SubsequenceKeep(a: seq<Item>, b: seq<Item>, x: Item)
    requires Subsequence(a, b)
    ensures Subsequence(a + [x], b + [x])
  {
    assert (b + [x])[..|b|] == b && (a + [x])[..|a|] == a;
  }

  lemma {:induction false} SubsequencePrefix(a: seq<Item>, b: seq<Item>, n: nat)
    requires Subsequence(a, b) && n <= |a|
    ensures Subsequence(a[..n], b)
    decreases |b|
  {
    if n == |a| {
      assert a[..n] == a;
    } else if b != [] {
      var a', b' := a[..|a| - 1], b[..|b| - 1];
      if Subsequence(a, b') {
        SubsequencePrefix(a, b', n);
      } else {
        SubsequencePrefix(a', b', n);
        assert a'[..n] == a[..n];
      }
    }
  }

  // ---- one Open ----

  function AcceptedAfter(w: Wrapper, accepted: set<u32>, packet: Packet): set<u32> {
    if Authenticates(w, packet) then
      Replay.With(accepted, PacketId(packet), Replay.Accept(w.replay, PacketId(packet)).1)
    else accepted
  }

  function ItemOf(packet: Packet): Item
    requires packet.Packet?
  {
    Item(packet.box.key, PacketId(packet), packet.box.plaintext)
  }

  lemma OpenKeeps(wrappers: seq<Wrapper>, accepted: seq<set<u32>>, stream: seq<Item>, i: nat, packet: Packet)
    requires i < |wrappers|
    requires DistinctKeys(wrappers) && Delivered(wrappers, accepted, stream)
    ensures DistinctKeys(wrappers[i := Open(wrappers[i], packet).0])
    ensures Delivered(wrappers[i := Open(wrappers[i], packet).0],
                      accepted[i := AcceptedAfter(wrappers[i], accepted[i], packet)], stream)
  {
    hide Subsequence, Replay.Accept, Replay.Refines, Replay.New;
    var w := Open(wrappers[i], packet).0;
    var wrappers', accepted' := wrappers[i := w], accepted[i := AcceptedAfter(wrappers[i], accepted[i], packet)];
    if packet.Packet? {
      Replay.AcceptRefines(wrappers[i].replay, accepted[i], PacketId(packet));
    }
    forall k | 0 <= k < |stream| ensures Known(wrappers', accepted', stream[k]) {
      assert Known(wrappers, accepted, stream[k]);
      var j :| 0 <= j < |wrappers| && stream[k].key == wrappers[j].decrypt.key && stream[k].id in accepted[j];
      assert stream[k].key == wrappers'[j].decrypt.key && stream[k].id in accepted'[j];
    }
  }

  /** A plaintext out of Open is one that nothing in the stream was before. */
  lemma OpenIsNew(wrappers: seq<Wrapper>, accepted: seq<set<u32>>, stream: seq<Item>, i: nat, packet: Packet)
    requires i < |wrappers|
    requires DistinctKeys(wrappers) && Delivered(wrappers, accepted, stream)
    requires Open(wrappers[i], packet).1.Plain?
    ensures Authenticates(wrappers[i], packet)
    ensures PacketId(packet) in AcceptedAfter(wrappers[i], accepted[i], packet)
    ensures forall k :: 0 <= k < |stream| ==> !SameKeyAndId(stream[k], ItemOf(packet))
  {
    hide Subsequence, Replay.Accept, Replay.Refines;
    Replay.AcceptRefines(wrappers[i].replay, accepted[i], PacketId(packet));
    forall k | 0 <= k < |stream| ensures !SameKeyAndId(stream[k], ItemOf(packet)) {
      assert Known(wrappers, accepted, stream[k]);
      var j :| 0 <= j < |wrappers| && stream[k].key == wrappers[j].decrypt.key && stream[k].id in accepted[j];
    }
  }

  /** Opening keeps what the windows stand for, changes no sending state, and yields only a plaintext that is new. */
  ghost predicate GoodAttempt(s: State, attempt: Attempt, accepted: seq<set<u32>>) {
    && |attempt.wrappers| == |s.wrappers|
    && (forall k :: 0 <= k < |s.wrappers| ==>
          attempt.wrappers[k].encrypt == s.wrappers[k].encrypt && attempt.wrappers[k].sendSeq == s.wrappers[k].sendSeq)
    && DistinctKeys(attempt.wrappers)
    && Delivered(attempt.wrappers, accepted, Stream(s))
    && (attempt.plain ==>
          && attempt.arrived.Some?
          && Known(attempt.wrappers, accepted, attempt.arrived.value)
          && forall k :: 0 <= k < |Stream(s)| ==> !SameKeyAndId(Stream(s)[k], attempt.arrived.value))
  }

  lemma OpenUnderIsGood(s: State, accepted: seq<set<u32>>, packet: Packet, slots: Slots, now: int)
    returns (accepted': seq<set<u32>>)
    requires Inv(s, accepted) && SlotOk(slots, |s.wrappers|)
    ensures GoodAttempt(s, OpenUnder(s.wrappers, slots, now, packet), accepted')
  {
    hide Subsequence, Replay.Accept, Replay.Refines, Replay.New, Stream, NoRepeats;
    accepted' := accepted;
    if slots.primary.Some? {
      var i, live := slots.primary.value, LiveLameDuck(slots, now);
      var first := Open(s.wrappers[i], packet);
      OpenKeeps(s.wrappers, accepted, Stream(s), i, packet);
      if first.1.Plain? {
        OpenIsNew(s.wrappers, accepted, Stream(s), i, packet);
      }
      var wrappers := s.wrappers[i := first.0];
      accepted' := accepted[i := AcceptedAfter(s.wrappers[i], accepted[i], packet)];
      if first.1.Plain? {
        assert ItemOf(packet).key == wrappers[i].decrypt.key && ItemOf(packet).id in accepted'[i];
      }
      if live.Some? && !first.1.Plain? && !first.1.Ping? {
        var j := live.value;
        OpenKeeps(wrappers, accepted', Stream(s), j, packet);
        var second := Open(wrappers[j], packet);
        if second.1.Plain? {
          OpenIsNew(wrappers, accepted', Stream(s), j, packet);
        }
        wrappers := wrappers[j := second.0];
        accepted' := accepted'[j := AcceptedAfter(s.wrappers[j], accepted'[j], packet)];
        if second.1.Plain? {
          assert ItemOf(packet).key == wrappers[j].decrypt.key && ItemOf(packet).id in accepted'[j];
        }
      } else if live.Some? {
        assert wrappers == wrappers[live.value := wrappers[live.value]];
      }
    }
  }

  lemma UsedStays(wrappers: seq<Wrapper>, wrappers': seq<Wrapper>, sealed: seq<Item>)
    requires |wrappers| <= |wrappers'|
    requires forall k :: 0 <= k < |wrappers| ==>
      wrappers'[k].encrypt.key == wrappers[k].encrypt.key && wrappers[k].sendSeq <= wrappers'[k].sendSeq
    requires forall k :: 0 <= k < |sealed| ==> Used(wrappers, sealed[k])
    ensures forall k :: 0 <= k < |sealed| ==> Used(wrappers', sealed[k])
  {
    forall k | 0 <= k < |sealed| ensures Used(wrappers', sealed[k]) {
      assert Used(wrappers, sealed[k]);
      var i :|
        0 <= i < |wrappers| && sealed[k].key == wrappers[i].encrypt.key && 1 <= sealed[k].id <= wrappers[i].sendSeq;
      assert sealed[k].key == wrappers'[i].encrypt.key;
    }
  }

  lemma HandleKeeps(s: State, accepted: seq<set<u32>>, attempt: Attempt, accepted': seq<set<u32>>, stopFirst: bool)
    requires Inv(s, accepted) && GoodAttempt(s, attempt, accepted')
    ensures Inv(Handle(s, attempt, stopFirst), accepted')
  {
    hide Delivered, Subsequence, Known, Used;
    var s' := Handle(s, attempt, stopFirst);
    UsedStays(s.wrappers, s'.wrappers, s.sealed);
    if attempt.arrived.Some? {
      SubsequenceSkip(Stream(s), s.arrivals, attempt.arrived.value);
    }
    if s'.inbox.queue == s.inbox.queue {
      assert Stream(s') == Stream(s);
    } else {
      assert Stream(s') == Stream(s) + [attempt.arrived.value];
      SubsequenceKeep(Stream(s), s.arrivals, attempt.arrived.value);
      DeliveredOne(s'.wrappers, accepted', Stream(s), attempt.arrived.value);
    }
  }

  lemma DeliveredOne(wrappers: seq<Wrapper>, accepted: seq<set<u32>>, stream: seq<Item>, item: Item)
    requires Delivered(wrappers, accepted, stream) && Known(wrappers, accepted, item)
    ensures Delivered(wrappers, accepted, stream + [item])
  {
  }

  lemma SealKeeps(s: State, accepted: seq<set<u32>>, i: nat, plaintext: seq<u8>)
    requires Inv(s, accepted) && i < |s.wrappers|
    ensures Inv(SealStep(s, i, plaintext), accepted)
  {
    hide Subsequence, Replay.Refines, Replay.Accept;
    var s' := SealStep(s, i, plaintext);
    assert Stream(s') == Stream(s);
    forall k | 0 <= k < |Stream(s)| ensures Known(s'.wrappers, accepted, Stream(s)[k]) {
      assert Known(s.wrappers, accepted, Stream(s)[k]);
      var j :| 0 <= j < |s.wrappers| && Stream(s)[k].key == s.wrappers[j].decrypt.key && Stream(s)[k].id in accepted[j];
      assert Stream(s)[k].key == s'.wrappers[j].decrypt.key;
    }
    UsedStays(s.wrappers, s'.wrappers, s.sealed);
    if s'.sealed != s.sealed {
      var item := Item(s.wrappers[i].encrypt.key, s.wrappers[i].sendSeq + 1, plaintext);
      assert s'.sealed == s.sealed + [item];
      assert item.key == s'.wrappers[i].encrypt.key;
      forall k | 0 <= k < |s.sealed| ensures !SameKeyAndId(s.sealed[k], item) {
        assert Used(s.wrappers, s.sealed[k]);
      }
    }
  }

  lemma InstallKeeps(s: State, accepted: seq<set<u32>>, w: Wrapper, now: int)
    requires Inv(s, accepted) && FreshKeys(s.wrappers, w)
    ensures Inv(Step(s, Install(w, now)), accepted + [{}])
  {
    hide Subsequence, Replay.Accept;
    var s' := Step(s, Install(w, now));
    assert Stream(s') == Stream(s);
    forall k | 0 <= k < |Stream(s)| ensures Known(s'.wrappers, accepted + [{}], Stream(s)[k]) {
      assert Known(s.wrappers, accepted, Stream(s)[k]);
      var j :| 0 <= j < |s.wrappers| && Stream(s)[k].key == s.wrappers[j].decrypt.key && Stream(s)[k].id in accepted[j];
      assert Stream(s)[k].key == s'.wrappers[j].decrypt.key;
    }
    UsedStays(s.wrappers, s'.wrappers, s.sealed);
  }

  /** Read moves the front of the stream and nothing else. */
  lemma ReadKeepsStream(s: State, room: nat, stopFirst: bool)
    ensures Stream(ReadStep(s, room, stopFirst)) == Stream(s)
  {
    if s.inbox.pending.None? && s.inbox.queue != [] {
      assert s.inbox.queue == [s.inbox.queue[0]] + s.inbox.queue[1..];
    }
  }

  lemma StepKeeps(s: State, accepted: seq<set<u32>>, e: Event) returns (accepted': seq<set<u32>>)
    requires Inv(s, accepted) && Enabled(s, e)
    ensures Inv(Step(s, e), accepted')
  {
    hide Delivered, Subsequence, OpenUnder, Handle, SealStep, NoRepeats, DistinctKeys, ReadStep;
    accepted' := accepted;
    match e
    case Arrive(packet, snapshot, now, stopFirst) =>
      accepted' := OpenUnderIsGood(s, accepted, packet, s.slots[snapshot], now);
      HandleKeeps(s, accepted, OpenUnder(s.wrappers, s.slots[snapshot], now, packet), accepted', stopFirst);
    case Read(room, stopFirst) =>
      ReadKeepsStream(s, room, stopFirst);
      ReadKeepsRest(s, room, stopFirst);
    case Install(w, now) =>
      InstallKeeps(s, accepted, w, now);
      accepted' := accepted + [{}];
    case SealOn(i, plaintext) => SealKeeps(s, accepted, i, plaintext);
    case SweepLameDuck => assert Stream(Step(s, e)) == Stream(s);
    case Close => assert Stream(Step(s, e)) == Stream(s);
  }

  lemma ReadKeepsRest(s: State, room: nat, stopFirst: bool)
    ensures var t := ReadStep(s, room, stopFirst);
            t.wrappers == s.wrappers && t.slots == s.slots && t.arrivals == s.arrivals && t.sealed == s.sealed
  {
  }

  // ---- every run ----

  /** The states of a run: run[0] is the start and events[k] leads from run[k] to run[k + 1]. */
  ghost predicate IsRun(run: seq<State>, events: seq<Event>) {
    && |run| == |events| + 1
    && (exists capacity :: run[0] == Start(capacity))
    && forall k :: 0 <= k < |events| ==>
         SlotsOk(run[k]) && Enabled(run[k], events[k]) && run[k + 1] == Step(run[k], events[k])
  }

  lemma {:induction false} RunKeeps(run: seq<State>, events: seq<Event>, k: nat) returns (accepted: seq<set<u32>>)
    requires IsRun(run, events) && k < |run|
    ensures Inv(run[k], accepted)
  {
    hide Step, Delivered;
    if k == 0 {
      accepted := [];
      StartIsGood(run[0]);
    } else {
      accepted := RunKeeps(run, events, k - 1);
      accepted := StepKeeps(run[k - 1], accepted, events[k - 1]);
    }
  }

  lemma StartIsGood(s: State)
    requires exists capacity :: s == Start(capacity)
    ensures Inv(s, [])
  {
  }

  /** What Read has returned is, at every moment of every run, an in-order selection of the authenticated arrivals in
      which no sealed packet (key and packet id) occurs twice: not within a key's life and not across rollovers. */
  lemma DeliveredAtMostOnceInOrder(run: seq<State>, events: seq<Event>, k: nat)
    requires IsRun(run, events) && k < |run|
    ensures NoRepeats(run[k].returned) && Subsequence(run[k].returned, run[k].arrivals)
    ensures NoRepeats(Stream(run[k])) && Subsequence(Stream(run[k]), run[k].arrivals)
    ensures run[k].returned <= Stream(run[k])
  {
    var accepted := RunKeeps(run, events, k);
    assert run[k].returned <= Stream(run[k]);
    assert Stream(run[k])[..|run[k].returned|] == run[k].returned;
    SubsequencePrefix(Stream(run[k]), run[k].arrivals, |run[k].returned|);
  }

  /** Nothing queued is ever dropped or overtaken: each step leaves the stream as it was or adds one packet at its end.
      */
  lemma StreamOnlyGrows(s: State, e: Event)
    requires SlotsOk(s) && Enabled(s, e)
    ensures Stream(s) <= Stream(Step(s, e)) && |Stream(Step(s, e))| <= |Stream(s)| + 1
  {
    hide OpenUnder;
    if e.Read? {
      ReadKeepsStream(s, e.room, e.stopFirst);
    }
  }

  /** No two packets sealed in a run share key and nonce. */
  lemma NoncesAreUnique(run: seq<State>, events: seq<Event>, k: nat, i: nat, j: nat, iv: seq<u8>)
    requires IsRun(run, events) && k < |run|
    requires i < j < |run[k].sealed| && run[k].sealed[i].key == run[k].sealed[j].key
    ensures Nonce(run[k].sealed[i].id, iv) != Nonce(run[k].sealed[j].id, iv)
  {
    var accepted := RunKeeps(run, events, k);
    assert !SameKeyAndId(run[k].sealed[i], run[k].sealed[j]);
    if Nonce(run[k].sealed[i].id, iv) == Nonce(run[k].sealed[j].id, iv) {
      NonceIsInjective(run[k].sealed[i].id, run[k].sealed[j].id, iv);
    }
  }
}
