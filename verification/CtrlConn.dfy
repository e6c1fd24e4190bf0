/** One end of the control channel as the program holds it (internal/ctrlconn): two windows, the pending
    acknowledgements and the read buffer, updated in place. Each method computes the corresponding
    function of module ControlChannel, so the theorems over its runs are about this object. */
module CtrlConn {
  import opened Words
  import opened Wire
  import opened Windows
  import opened SendWindow
  import opened Backoff
  import opened ControlChannel
  import Reliable

  /** Write's progress through p: n bytes gone out as the chunks done, rest to go. */
  predicate Split(p: seq<u8>, n: nat, done: seq<seq<u8>>, rest: seq<u8>) {
    n <= |p| && rest == p[n..] && done + Chunks(rest) == Chunks(p) && Concat(done) == p[..n]
  }

  function FirstChunk(rest: seq<u8>): seq<u8> {
    if |rest| > MAX_PAYLOAD then rest[..MAX_PAYLOAD] else rest
  }

  lemma SplitStart(p: seq<u8>)
    ensures Split(p, 0, [], p)
  {
    assert [] + Chunks(p) == Chunks(p);
  }

  lemma SplitStep(p: seq<u8>, n: nat, done: seq<seq<u8>>, rest: seq<u8>)
    requires Split(p, n, done, rest) && |rest| > 0
    ensures var chunk := FirstChunk(rest); Split(p, n + |chunk|, done + [chunk], rest[|chunk|..])
  {
    var chunk := FirstChunk(rest);
    assert Chunks(rest) == [chunk] + Chunks(rest[|chunk|..]);
    assert done + [chunk] + Chunks(rest[|chunk|..]) == done + Chunks(rest);
    assert (done + [chunk])[..|done|] == done;
    assert p[..n + |chunk|] == p[..n] + chunk;
  }

  lemma SplitPrefix(p: seq<u8>, n: nat, done: seq<seq<u8>>, rest: seq<u8>)
    requires Split(p, n, done, rest)
    ensures |done| <= |Chunks(p)| && done == Chunks(p)[..|done|] && Concat(Chunks(p)[..|done|]) == p[..n]
    ensures |rest| == |p| - n
  {
  }

  /** d is the datagram that carries chunk under id, with some acknowledgements. */
  ghost predicate Carries(e: Endpoint, d: seq<u8>, id: u32, chunk: seq<u8>) {
    exists acks: seq<u32> ::
      |acks| <= ACK_SIZE &&
      d == Encode(ControlPacket(OP_CONTROL_V1, e.keyId, e.localSid, acks, e.remoteSid, id, chunk))
  }

  /** d is kept for retransmission under id. */
  predicate Keeps(w: Window, id: u32, d: seq<u8>) {
    exists j :: 0 <= j < |w.entries| && w.entries[j].active && w.entries[j].packetId == id && w.entries[j].payload == d
  }

  /** A packet put into a free slot is kept, beside those that were. */
  lemma SendKeeps(w: Window, slot: nat, d: seq<u8>)
    requires slot < |w.entries| && !w.entries[slot].active
    ensures var w' := SetPayload(MarkActive(w, slot), slot, d);
            Keeps(w', w.packetId, d) && forall id, b :: Keeps(w, id, b) ==> Keeps(w', id, b)
  {
    var w' := SetPayload(MarkActive(w, slot), slot, d);
    assert w'.entries[slot].active && w'.entries[slot].packetId == w.packetId && w'.entries[slot].payload == d;
    forall id, b | Keeps(w, id, b) ensures Keeps(w', id, b) {
      var j :| 0 <= j < |w.entries| && w.entries[j].active && w.entries[j].packetId == id && w.entries[j].payload == b;
      assert w'.entries[j] == w.entries[j];
    }
  }

  /** A drain that started from t0 has visited slots and come to t, with ids and bytes as they were. */
  predicate Draining(t0: Tracked, now: nat, slots: seq<nat>, t: Tracked) {
    && TrackInv(t0) && CanEnd(t0, now) && TrackInv(t) && CanEnd(t, now)
    && slots + DrainDue(t, now).0 == DrainDue(t0, now).0
    && DrainDue(t, now).1 == DrainDue(t0, now).1
    && SameContents(t0.w, t.w)
  }

  predicate SameContents(w: Window, w': Window) {
    && |w'.entries| == |w.entries|
    && forall i :: 0 <= i < |w.entries| ==>
         w'.entries[i].packetId == w.entries[i].packetId && w'.entries[i].payload == w.entries[i].payload
  }

  lemma DrainingStep(t0: Tracked, now: nat, slots: seq<nat>, t: Tracked)
    requires Draining(t0, now, slots, t)
    ensures TrackInv(Polled(t, now))
    ensures DueSlot(t.w, now).None? ==> Polled(t, now) == t && (slots, t) == DrainDue(t0, now)
    ensures DueSlot(t.w, now).Some? ==>
              && DueSlot(t.w, now).value < |t0.w.entries| == |t.w.entries|
              && t.w.entries[DueSlot(t.w, now).value].packetId == t0.w.entries[DueSlot(t.w, now).value].packetId
              && t.w.entries[DueSlot(t.w, now).value].payload == t0.w.entries[DueSlot(t.w, now).value].payload
              && Draining(t0, now, slots + [DueSlot(t.w, now).value], Polled(t, now))
              && Budget(Polled(t, now), now, |t.resends|) < Budget(t, now, |t.resends|)
  {
    hide Budget, CanEnd, SendInv;
    if DueSlot(t.w, now).Some? {
      var b := DueSlot(t.w, now).value;
      DrainHead(t, now);
      ResentIsDueAgainIff(t, now);
      assert slots + ([b] + DrainDue(Polled(t, now), now).0) == slots + [b] + DrainDue(Polled(t, now), now).0;
    } else {
      assert slots + [] == slots;
    }
  }

  lemma DrainingStart(t: Tracked, now: nat)
    requires TrackInv(t) && CanEnd(t, now)
    ensures Draining(t, now, [], t)
    ensures AllLasting(t, now) ==> EachOnceOldestFirst(DrainDue(t, now).0, t, now)
  {
    if AllLasting(t, now) {
      DrainVisitsEachOnce(t, now);
    }
  }

  /** What a finished write sends and leaves. */
  lemma FinishedWrite(e: Endpoint, slot: nat, chunk: seq<u8>)
    requires slot < |e.send.entries| && !e.send.entries[slot].active
    ensures var began := BeginWriteAt(e, OP_CONTROL_V1, chunk, slot);
            var (e', d) := FinishWriteAt(began, began.pending.value);
            && e'.send == SetPayload(MarkActive(e.send, slot), slot, d)
            && e'.send.packetId == Add32(e.send.packetId, 1)
            && e'.written == e.written + [chunk]
            && Carries(e', d, e.send.packetId, chunk)
  {
    hide Encode;
    var began := BeginWriteAt(e, OP_CONTROL_V1, chunk, slot);
    var (e', d) := FinishWriteAt(began, began.pending.value);
    var acks := e.acks[..DrainCount(e.acks)];
    assert |acks| <= ACK_SIZE &&
           d == Encode(ControlPacket(OP_CONTROL_V1, e'.keyId, e'.localSid, acks, e'.remoteSid, e.send.packetId, chunk));
  }

  /** ids and sent are the packet ids and stored datagrams of slots. */
  predicate Visited(w: Window, slots: seq<nat>, ids: seq<u32>, sent: seq<seq<u8>>) {
    && |ids| == |sent| == |slots|
    && forall k :: 0 <= k < |slots| ==> VisitedAt(w, slots[k], ids[k], sent[k])
  }

  predicate VisitedAt(w: Window, slot: nat, id: u32, d: seq<u8>) {
    slot < |w.entries| && id == w.entries[slot].packetId && d == w.entries[slot].payload
  }

  lemma WrapOfWord(x: u32)
    ensures Wrap32(x) == x
  {
  }

  /** The datagrams sent so far carry the chunks done under the ids from base on, and all of them are kept. */
  ghost predicate Progress(e: Endpoint, base: u32, sent: seq<seq<u8>>, done: seq<seq<u8>>) {
    && |sent| == |done|
    && forall k :: 0 <= k < |sent| ==> SentAs(e, Wrap32(base + k), sent[k], done[k])
  }

  ghost predicate SentAs(e: Endpoint, id: u32, d: seq<u8>, chunk: seq<u8>) {
    Carries(e, d, id, chunk) && Keeps(e.send, id, d)
  }

  lemma NoProgress(e: Endpoint, base: u32)
    ensures Progress(e, base, [], [])
  {
  }

  lemma ProgressStays(e: Endpoint, e': Endpoint, base: u32, sent: seq<seq<u8>>, done: seq<seq<u8>>)
    requires Progress(e, base, sent, done)
    requires e'.keyId == e.keyId && e'.localSid == e.localSid && e'.remoteSid == e.remoteSid
    requires forall id, b :: Keeps(e.send, id, b) ==> Keeps(e'.send, id, b)
    ensures Progress(e', base, sent, done)
  {
    hide Keeps;
    forall k | 0 <= k < |sent| ensures SentAs(e', Wrap32(base + k), sent[k], done[k]) {
      assert SentAs(e, Wrap32(base + k), sent[k], done[k]);
    }
  }

  lemma ProgressGrows(e: Endpoint, base: u32, sent: seq<seq<u8>>, done: seq<seq<u8>>, d: seq<u8>, chunk: seq<u8>)
    requires Progress(e, base, sent, done) && SentAs(e, Wrap32(base + |sent|), d, chunk)
    ensures Progress(e, base, sent + [d], done + [chunk])
  {
    hide SentAs;
  }

  class Conn {
    const keyId: u8
    const localSid: SessionId
    const remoteSid: SessionId
    const sendRel: Reliable.Reliable
    const recvRel: Reliable.Reliable
    const acks: Reliable.AckSet
    var readBuf: seq<u8>

    /** What this end has written and returned so far. */
    ghost var written: seq<seq<u8>>
    ghost var read: seq<u8>

    /** How often each slot's packet has been resent. */
    ghost var resends: seq<nat>

    ghost predicate Valid()
      reads this, sendRel, recvRel
    {
      && sendRel.Valid() && recvRel.Valid()
      && sendRel.size == N_SEND_BUFFERS && recvRel.size == N_REC_BUFFERS
      && sendRel != recvRel && sendRel.entries != recvRel.entries
    }

    ghost function View(): Endpoint
      requires Valid()
      reads this, sendRel, recvRel, sendRel.entries, recvRel.entries, acks
    {
      Endpoint(keyId, localSid, remoteSid, sendRel.View(), recvRel.View(), acks.ids, [], readBuf, None, written, read)
    }

    ghost function Sending(): Tracked
      requires Valid()
      reads this, sendRel, recvRel, sendRel.entries
    {
      Tracked(sendRel.View(), resends)
    }

    constructor (keyId: u8, localSid: SessionId, remoteSid: SessionId)
      ensures Valid() && View() == NewEndpoint(keyId, localSid, remoteSid)
      ensures Sending() == Fresh(N_SEND_BUFFERS) && TrackInv(Sending())
    {
      this.keyId, this.localSid, this.remoteSid := keyId, localSid, remoteSid;
      var send := new Reliable.Reliable(N_SEND_BUFFERS);
      var recv := new Reliable.Reliable(N_REC_BUFFERS);
      var acks := new Reliable.AckSet();
      sendRel, recvRel, this.acks := send, recv, acks;
      readBuf, written, read := [], [], [];
      resends := Fresh(N_SEND_BUFFERS).resends;
    }

    /** Absorb an inbound packet: its acknowledgements, then its payload, then whatever is now in order. */
    method AbsorbPacket(cp: ControlPacket)
      requires Valid() && TrackInv(Sending())
      modifies this`readBuf, sendRel.entries, recvRel`packetId, recvRel.entries, acks
      ensures Valid() && View() == Absorb(old(View()), cp)
      ensures TrackInv(Sending()) && Sending() == Track(old(Sending()), Acked(cp.acks))
    {
      TrackKeeps(Sending(), Acked(cp.acks));
      sendRel.Ack(cp.acks);
      if cp.opcode != OP_ACK_V1 {
        var r := recvRel.Put(cp.packetId, cp.payload);
        if r == PutRejected {
          return;
        }
        acks.Add(cp.packetId);
      }
      DrainInOrder();
    }

    /** Move every in-order payload from the receive window to the read buffer. */
    method DrainInOrder()
      requires Valid()
      modifies this`readBuf, recvRel`packetId, recvRel.entries
      ensures Valid() && View() == Drained(old(View()))
    {
      ghost var (w', bytes) := DrainReady(recvRel.View());
      while true
        invariant Valid()
        invariant DrainReady(recvRel.View()).0 == w'
        invariant readBuf + DrainReady(recvRel.View()).1 == old(readBuf) + bytes
        decreases ActiveSlots(recvRel.View())
      {
        ghost var w := recvRel.View();
        var payload, ok := recvRel.Get();
        if !ok {
          assert readBuf + [] == readBuf;
          break;
        }
        GetShrinks(w);
        ghost var rest := DrainReady(recvRel.View()).1;
        assert readBuf + (payload + rest) == (readBuf + payload) + rest;
        if |payload| > 0 {
          readBuf := readBuf + payload;
        } else {
          assert readBuf + payload == readBuf;
        }
      }
    }

    method BuildControlPacket(opcode: u8, id: u32, payload: seq<u8>) returns (d: seq<u8>)
      requires Valid()
      modifies acks
      ensures Valid() && d == BuildPacket(old(View()), opcode, id, payload)
      ensures View() == old(View()).(acks := old(acks.ids)[DrainCount(old(acks.ids))..])
    {
      ghost var all := acks.ids;
      var drained := acks.Drain();
      assert drained == all[..DrainCount(all)] && acks.ids == all[DrainCount(all)..];
      var cp := ControlPacket(opcode, keyId, localSid, drained, remoteSid, id, payload);
      var header := [HeaderByte(opcode, keyId)] + localSid;
      d := AppendPlaintext(header, cp);
    }

    /** writeChunk once waitForSendSlot has answered; ok is false when it gave up. */
    method WriteChunk(opcode: u8, payload: seq<u8>) returns (d: seq<u8>, ok: bool)
      requires Valid() && TrackInv(Sending())
      modifies this`written, this`resends, sendRel`packetId, sendRel.entries, acks
      ensures Valid() && TrackInv(Sending())
      ensures ok == NextSlot(old(View()).send).Some?
      ensures !ok ==> View() == old(View()) && Sending() == old(Sending())
      ensures ok ==> Sending() == Track(old(Sending()), Send(d))
      ensures ok ==>
                var slot := NextSlot(old(View()).send).value;
                && slot < |old(View()).send.entries|
                && var began := BeginWriteAt(old(View()), opcode, payload, slot);
                   (View(), d) == FinishWriteAt(began, began.pending.value)
    {
      ghost var t := Sending();
      var idx: nat;
      idx, ok := sendRel.Next();
      if !ok {
        return [], false;
      }
      NextSlotExactly(t.w);
      var id := sendRel.MarkActive(idx);
      written := written + [payload];
      resends := resends[idx := 0];
      d := BuildControlPacket(opcode, id, payload);
      sendRel.SetPayload(idx, d);
      TrackKeeps(t, Send(d));
    }

    /** One chunk of Write: what WriteChunk means for the stream and for retransmission. */
    method WriteOne(chunk: seq<u8>) returns (d: seq<u8>, ok: bool)
      requires Valid() && TrackInv(Sending())
      modifies this`written, this`resends, sendRel`packetId, sendRel.entries, acks
      ensures Valid() && TrackInv(Sending())
      ensures !ok ==> NextSlot(sendRel.View()).None? && written == old(written) && Sending() == old(Sending())
      ensures ok ==> written == old(written) + [chunk] && sendRel.packetId == Add32(old(sendRel.packetId), 1)
      ensures ok ==> Carries(View(), d, old(sendRel.packetId), chunk)
      ensures ok ==> Keeps(sendRel.View(), old(sendRel.packetId), d)
      ensures forall id, b :: Keeps(old(sendRel.View()), id, b) ==> Keeps(sendRel.View(), id, b)
    {
      hide SendInv, NextSlot, BeginWriteAt, FinishWriteAt, Track, Carries, Keeps, SetPayload, MarkActive, Add32;
      ghost var e := View();
      NextSlotExactly(e.send);
      d, ok := WriteChunk(OP_CONTROL_V1, chunk);
      if ok {
        FinishedWrite(e, NextSlot(e.send).value, chunk);
        SendKeeps(e.send, NextSlot(e.send).value, d);
      }
    }

    /** Write, up to the first chunk for which no slot came free: what was sent are datagrams of p's first chunks, under
        successive ids, each kept for retransmission. */
    method Write(p: seq<u8>) returns (n: nat, sent: seq<seq<u8>>)
      requires Valid() && TrackInv(Sending())
      modifies this`written, this`resends, sendRel`packetId, sendRel.entries, acks
      ensures Valid() && TrackInv(Sending())
      ensures n <= |p| && |sent| <= |Chunks(p)|
      ensures written == old(written) + Chunks(p)[..|sent|]
      ensures Concat(Chunks(p)[..|sent|]) == p[..n]
      ensures n < |p| ==> NextSlot(sendRel.View()).None?
      ensures Progress(View(), old(sendRel.packetId), sent, Chunks(p)[..|sent|])
    {
      hide Split, Chunks, Concat, NextSlot, Carries, Keeps, Progress, TrackInv, Wrap32;
      var rest := p;
      n, sent := 0, [];
      SplitStart(p);
      ghost var done: seq<seq<u8>> := [];
      ghost var base := sendRel.packetId;
      WrapOfWord(base);
      NoProgress(View(), base);
      while |rest| > 0
        invariant Valid() && TrackInv(Sending())
        invariant |sent| == |done| && written == old(written) + done
        invariant Split(p, n, done, rest) && sendRel.packetId == Wrap32(base + |sent|)
        invariant Progress(View(), base, sent, done)
        decreases |rest|
      {
        var chunk := FirstChunk(rest);
        ghost var e := View();
        var d, ok := WriteOne(chunk);
        ProgressStays(e, View(), base, sent, done);
        if !ok {
          break;
        }
        SplitStep(p, n, done, rest);
        WrapAdd(base + |sent|, 1);
        ProgressGrows(View(), base, sent, done, d, chunk);
        done := done + [chunk];
        sent, n, rest := sent + [d], n + |chunk|, rest[|chunk|..];
      }
      SplitPrefix(p, n, done, rest);
    }

    /** One tick of the retransmit loop, for any window it can end on: the stored datagrams of the slots a drain
        visits, in its order; each due entry once, oldest first, if they have been resent a lasting number of times. */
    method RetransmitDue(now: nat) returns (ids: seq<u32>, sent: seq<seq<u8>>)
      requires Valid() && TrackInv(Sending()) && CanEnd(Sending(), now)
      modifies this`resends, sendRel.entries
      ensures Valid() && Sending() == DrainDue(old(Sending()), now).1
      ensures var t := old(Sending());
              var slots := DrainDue(t, now).0;
              Visited(t.w, slots, ids, sent) && (AllLasting(t, now) ==> EachOnceOldestFirst(slots, t, now))
    {
      hide Draining, SendInv, Doubled, CanEnd, DrainDue, Budget, AllLasting, EachOnceOldestFirst, DueSlot;
      ids, sent := [], [];
      ghost var t0 := Sending();
      ghost var slots: seq<nat> := [];
      DrainingStart(t0, now);
      while true
        invariant Valid() && TrackInv(Sending()) && Draining(t0, now, slots, Sending())
        invariant Visited(t0.w, slots, ids, sent)
        decreases Budget(Sending(), now, |resends|)
      {
        ghost var t := Sending();
        DrainingStep(t0, now, slots, t);
        var payload, id, ok := sendRel.Due(now);
        resends := Polled(t, now).resends;
        if !ok {
          break;
        }
        slots := slots + [DueSlot(t.w, now).value];
        ids, sent := ids + [id], sent + [payload];
      }
    }

    /** Read with bytes available: as many as fit, the rest kept. */
    method Read(capacity: nat) returns (out: seq<u8>)
      requires Valid()
      modifies this`readBuf, this`read
      ensures Valid() && |out| == (if |old(readBuf)| < capacity then |old(readBuf)| else capacity)
      ensures out == old(readBuf)[..|out|]
      ensures View() == old(View()).(read := old(read) + out, readBuf := old(readBuf)[|out|..])
      ensures Readable(View()) == Readable(old(View()))
    {
      var n := if |readBuf| < capacity then |readBuf| else capacity;
      out := readBuf[..n];
      read := read + out;
      readBuf := readBuf[n..];
    }
  }
}
