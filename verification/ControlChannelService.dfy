/** What the control channel does for its peer, in every run of fewer than 2^31 packets in each direction: a resent
    datagram is the packet it stands for, every packet taken is acknowledged or about to be, and a delivery makes
    everything readable that is in order. */
module ControlChannelService {
  import opened Words
  import opened Wire
  import opened Windows
  import opened SendWindow
  import opened ReceiveWindow
  import opened ControlChannel
  import opened ControlChannelSafety

  // ---- what is resent ----

  /** d is packet id as it was written. */
  predicate IsPacket(d: seq<u8>, id: u32, written: seq<seq<u8>>) {
    && Decode(d).Parsed? && Decode(d).packet.opcode != OP_ACK_V1 && Decode(d).packet.packetId == id
    && id < |written| && Decode(d).packet.payload == written[id]
  }

  /** The slot has its id and not yet its bytes. */
  predicate BytesToCome(e: Endpoint, i: nat) {
    e.pending.Some? && e.pending.value.slot == i
  }

  /** Every active slot holds the packet of its id, but for one whose bytes are still to come. */
  predicate Carried(e: Endpoint) {
    && (forall i: nat :: i < |e.send.entries| && e.send.entries[i].active && !BytesToCome(e, i) ==>
          IsPacket(e.send.entries[i].payload, e.send.entries[i].packetId, e.written))
    && (e.pending.Some? ==>
          var p := e.pending.value;
          p.slot < |e.send.entries| ==> e.send.entries[p.slot].packetId == p.id)
  }

  lemma IsPacketGrows(d: seq<u8>, id: u32, written: seq<seq<u8>>, more: seq<seq<u8>>)
    requires IsPacket(d, id, written)
    ensures IsPacket(d, id, written + more)
  {
    hide Decode;
  }

  lemma BeginWriteCarries(e: Endpoint, opcode: u8, payload: seq<u8>, slot: nat)
    requires Carried(e) && e.pending.None? && slot < |e.send.entries|
    ensures Carried(BeginWriteAt(e, opcode, payload, slot))
  {
    hide IsPacket;
    var e' := BeginWriteAt(e, opcode, payload, slot);
    forall i: nat | i < |e'.send.entries| && e'.send.entries[i].active && !BytesToCome(e', i)
      ensures IsPacket(e'.send.entries[i].payload, e'.send.entries[i].packetId, e'.written)
    {
      assert e'.send.entries[i] == e.send.entries[i] && !BytesToCome(e, i);
      IsPacketGrows(e.send.entries[i].payload, e.send.entries[i].packetId, e.written, [payload]);
    }
  }

  lemma BuiltIsPacket(e: Endpoint, p: Pending)
    requires e.keyId < 8 && ValidOpcode(p.opcode) && p.opcode != OP_ACK_V1
    requires p.id < |e.written| && p.payload == e.written[p.id]
    ensures IsPacket(BuildPacket(e, p.opcode, p.id, p.payload), p.id, e.written)
  {
    DecodeEncode(
      ControlPacket(p.opcode, e.keyId, e.localSid, e.acks[..DrainCount(e.acks)], e.remoteSid, p.id, p.payload));
  }

  lemma FinishWriteCarries(e: Endpoint, out: set<seq<u8>>, p: Pending)
    requires Carried(e) && Sender(e, out) && e.pending == Some(p) && p.slot < |e.send.entries|
    ensures Carried(FinishWriteAt(e, p).0)
  {
    hide IsPacket, Honest, BuildPacket;
    BuiltIsPacket(e, p);
    var e' := FinishWriteAt(e, p).0;
    forall i: nat | i < |e'.send.entries| && e'.send.entries[i].active
      ensures IsPacket(e'.send.entries[i].payload, e'.send.entries[i].packetId, e'.written)
    {
      if i != p.slot {
        assert e'.send.entries[i] == e.send.entries[i] && !BytesToCome(e, i);
      }
    }
  }

  /** Fewer active slots, with the same ids and bytes. */
  lemma CarriedStays(e: Endpoint, e': Endpoint)
    requires Carried(e) && e'.pending == e.pending && e'.written == e.written && |e'.send.entries| == |e.send.entries|
    requires forall i :: 0 <= i < |e.send.entries| ==>
      && (e'.send.entries[i].active ==> e.send.entries[i].active)
      && e'.send.entries[i].packetId == e.send.entries[i].packetId
      && e'.send.entries[i].payload == e.send.entries[i].payload
    ensures Carried(e')
  {
    hide IsPacket;
    assert forall i: nat :: BytesToCome(e', i) <==> BytesToCome(e, i);
  }

  lemma AckCarries(e: Endpoint, ids: seq<u32>)
    requires Carried(e)
    ensures Carried(e.(send := Ack(e.send, ids)))
  {
    hide IsPacket;
    forall i | 0 <= i < |e.send.entries|
      ensures var a := Ack(e.send, ids).entries[i];
              && (a.active ==> e.send.entries[i].active)
              && a.packetId == e.send.entries[i].packetId && a.payload == e.send.entries[i].payload
    {
      AckPurgesExactly(e.send.entries, ids, i);
    }
    CarriedStays(e, e.(send := Ack(e.send, ids)));
  }

  // ---- what is acknowledged ----

  /** d acknowledges k. */
  predicate Acknowledges(d: seq<u8>, k: u32) {
    Decode(d).Parsed? && k in Decode(d).packet.acks
  }

  /** The acknowledgement of k is to be queued, is queued, or has been sent. */
  ghost predicate Answered(e: Endpoint, out: set<seq<u8>>, k: u32) {
    k in e.toAck || k in e.acks || exists d :: d in out && Acknowledges(d, k)
  }

  ghost predicate AllAnswered(e: Endpoint, out: set<seq<u8>>) {
    forall k: u32 {:trigger Answered(e, out, k)} :: Accepted(e.recv, k) ==> Answered(e, out, k)
  }

  lemma AnsweredStays(e: Endpoint, e': Endpoint, out: set<seq<u8>>, out': set<seq<u8>>)
    requires AllAnswered(e, out) && e'.toAck == e.toAck && e'.acks == e.acks && out <= out'
    requires forall k: u32 :: Accepted(e'.recv, k) ==> Accepted(e.recv, k)
    ensures AllAnswered(e', out')
  {
    hide Accepted, Acknowledges;
    forall k: u32 | Accepted(e'.recv, k) ensures Answered(e', out', k) {
      assert Answered(e, out, k);
    }
  }

  lemma PayloadAnswered(s: Endpoint, r: Endpoint, out: set<seq<u8>>, sent: set<seq<u8>>, d: seq<u8>)
    requires Sender(s, out) && Link(s, r) && d in out && Decode(d).Parsed? && AllAnswered(r, sent)
    ensures AllAnswered(AbsorbPayload(r, Decode(d).packet), sent)
  {
    hide Sender, Decode, Holds, Acknowledges;
    var r', cp := AbsorbPayload(r, Decode(d).packet), Decode(d).packet;
    forall k: u32 | Accepted(r'.recv, k) ensures Answered(r', sent, k) {
      if Accepted(r.recv, k) {
        assert Answered(r, sent, k);
      } else {
        PutAccepts(r.recv, s.written, cp.packetId, cp.payload, k);
      }
    }
  }

  /** Put takes in the packet it is given and no other. */
  lemma PutAccepts(w: Window, written: seq<seq<u8>>, id: u32, payload: seq<u8>, k: u32)
    requires Stored(w, written)
    ensures Accepted(Put(w, id, payload).0, k) <==>
              Accepted(w, k) || (k == id && Put(w, id, payload).1 == PutAccepted)
  {
    StoredIsRecvInv(w, written);
    PutExactly(w, id, payload);
    var w' := Put(w, id, payload).0;
    if Put(w, id, payload).1 == PutAccepted {
      var i :| 0 <= i < |w.entries| && !w.entries[i].active &&
        w'.entries == w.entries[i := w.entries[i].(active := true, packetId := id, nAcks := 0, payload := payload)];
      assert w'.entries[i].active && w'.entries[i].packetId == id;
      if Holds(w.entries, k) {
        var j :| 0 <= j < |w.entries| && w.entries[j].active && w.entries[j].packetId == k;
        assert w'.entries[j] == w.entries[j];
      }
    }
  }

  lemma QueueAnswered(e: Endpoint, out: set<seq<u8>>, j: nat)
    requires AllAnswered(e, out) && j < |e.toAck|
    ensures AllAnswered(QueueAckAt(e, j), out)
  {
    hide Accepted, Acknowledges;
    var e' := QueueAckAt(e, j);
    forall k: u32 | Accepted(e'.recv, k) ensures Answered(e', out, k) {
      assert Answered(e, out, k);
      if k in e.toAck && k != e.toAck[j] {
        var i :| 0 <= i < |e.toAck| && e.toAck[i] == k;
        assert if i < j then k == e.toAck[..j][i] else k == e.toAck[j + 1..][i - j - 1];
      }
    }
  }

  /** What a packet drains from the pending acknowledgements it carries. */
  lemma DrainedAnswered(e: Endpoint, e': Endpoint, out: set<seq<u8>>, opcode: u8, id: u32, payload: seq<u8>)
    requires AllAnswered(e, out) && ValidOpcode(opcode) && e.keyId < 8
    requires e'.toAck == e.toAck && e'.acks == e.acks[DrainCount(e.acks)..] && e'.recv == e.recv
    ensures AllAnswered(e', out + {BuildPacket(e, opcode, id, payload)})
  {
    hide Accepted, Decode, Encode;
    var n := DrainCount(e.acks);
    var d := BuildPacket(e, opcode, id, payload);
    DecodeEncode(ControlPacket(opcode, e.keyId, e.localSid, e.acks[..n], e.remoteSid, id, payload));
    forall k: u32 | Accepted(e'.recv, k) ensures Answered(e', out + {d}, k) {
      assert Answered(e, out, k);
      if k in e.acks {
        var i :| 0 <= i < |e.acks| && e.acks[i] == k;
        if i < n {
          assert e.acks[..n][i] == k;
          assert d in out + {d} && Acknowledges(d, k);
        } else {
          assert e.acks[n..][i - n] == k;
        }
      } else if k !in e.toAck {
        var c :| c in out && Acknowledges(c, k);
        assert c in out + {d};
      }
    }
  }

  lemma GetAccepts(w: Window, written: seq<seq<u8>>, k: u32)
    requires Stored(w, written)
    ensures Accepted(Get(w).0, k) ==> Accepted(w, k)
  {
    var w' := Get(w).0;
    if Get(w).1.Some? {
      var i := FirstWhere(w.entries, Holding(w.packetId));
      assert Holding(w.packetId)(w.entries[i]);
      GetKeeps(w, written);
      if Holds(w'.entries, k) {
        var j :| 0 <= j < |w'.entries| && w'.entries[j].active && w'.entries[j].packetId == k;
        assert w.entries[j].active && w.entries[j].packetId == k;
      }
    }
  }

  // ---- every run ----

  ghost predicate Serves(e: Endpoint, out: set<seq<u8>>) {
    Carried(e) && AllAnswered(e, out)
  }

  ghost predicate BothServe(s: System)
    requires s.Shaped()
  {
    Serves(s.ep[0], s.sent[0]) && Serves(s.ep[1], s.sent[1])
  }

  lemma WriteServes(s: System, a: Action)
    requires Inv(s) && Enabled(s, a) && (a.BeginWrite? || a.FinishWrite?) && Serves(s.ep[a.i], s.sent[a.i])
    ensures Serves(Step(s, a).ep[a.i], Step(s, a).sent[a.i])
  {
    hide Carried, AllAnswered, NextSlot, Link, BuildPacket, MarkActive, SetPayload;
    var e, out := s.ep[a.i], s.sent[a.i];
    if a.BeginWrite? {
      BeginWriteCarries(e, a.opcode, a.payload, NextSlot(e.send).value);
      AnsweredStays(e, Step(s, a).ep[a.i], out, out);
    } else {
      var p := e.pending.value;
      FinishWriteCarries(e, out, p);
      DrainedAnswered(e, FinishWriteAt(e, p).0, out, p.opcode, p.id, p.payload);
    }
  }

  lemma RetransmitServes(s: System, a: Action)
    requires Inv(s) && Enabled(s, a) && a.Retransmit? && Serves(s.ep[a.i], s.sent[a.i])
    ensures Serves(Step(s, a).ep[a.i], Step(s, a).sent[a.i])
  {
    hide Carried, AllAnswered, Link, Sender, Oldest, Decode;
    CarriedStays(s.ep[a.i], Step(s, a).ep[a.i]);
    AnsweredStays(s.ep[a.i], Step(s, a).ep[a.i], s.sent[a.i], Step(s, a).sent[a.i]);
  }

  lemma DeliveryServes(s: System, a: Action)
    requires Inv(s) && Enabled(s, a) && Serves(s.ep[a.i], s.sent[a.i])
    requires a.DeliverAcks? || a.DeliverPayload? || a.QueueAck? || a.TakeOne?
    ensures Serves(Step(s, a).ep[a.i], Step(s, a).sent[a.i])
  {
    hide Carried, AllAnswered, Sender, Decode, Ack, Put, AddAck, Get;
    var e, e', out := s.ep[a.i], Step(s, a).ep[a.i], s.sent[a.i];
    if a.DeliverAcks? {
      AckCarries(e, Decode(a.datagram).packet.acks);
      AnsweredStays(e, e', out, out);
    } else {
      CarriedStays(e, e');
      if a.DeliverPayload? {
        PayloadAnswered(s.ep[1 - a.i], e, s.sent[1 - a.i], out, a.datagram);
      } else if a.QueueAck? {
        QueueAnswered(e, out, a.k);
      } else {
        forall k: u32 | Accepted(e'.recv, k) ensures Accepted(e.recv, k) {
          GetAccepts(e.recv, s.ep[1 - a.i].written, k);
        }
        AnsweredStays(e, e', out, out);
      }
    }
  }

  lemma FlushServes(s: System, a: Action)
    requires Inv(s) && Enabled(s, a) && (a.FlushAcks? || a.Read?) && Serves(s.ep[a.i], s.sent[a.i])
    ensures Serves(Step(s, a).ep[a.i], Step(s, a).sent[a.i])
  {
    hide Carried, AllAnswered, Link, Honest, Decode, BuildPacket;
    var e, e', out := s.ep[a.i], Step(s, a).ep[a.i], s.sent[a.i];
    CarriedStays(e, e');
    if a.FlushAcks? {
      DrainedAnswered(e, e', out, OP_ACK_V1, 0, []);
    } else {
      AnsweredStays(e, e', out, out);
    }
  }

  lemma OthersUntouched(s: System, a: Action, j: nat)
    requires s.Shaped() && j < 2 && (Enabled(s, a) ==> a.i != j)
    ensures Step(s, a).ep[j] == s.ep[j] && Step(s, a).sent[j] == s.sent[j]
  {
    hide Decode, NextSlot, Due, DueSlot, BuildPacket, Put, Get, AddAck, Ack;
  }

  lemma StepServes(s: System, a: Action)
    requires s.Shaped() && Inv(s) && BothServe(s)
    ensures BothServe(Step(s, a))
  {
    hide Serves, Step, Inv;
    if Enabled(s, a) {
      OthersUntouched(s, a, 1 - a.i);
      match a
      case BeginWrite(_, _, _) => WriteServes(s, a);
      case FinishWrite(_) => WriteServes(s, a);
      case Retransmit(_, _) => RetransmitServes(s, a);
      case FlushAcks(_) => FlushServes(s, a);
      case Read(_, _) => FlushServes(s, a);
      case _ => DeliveryServes(s, a);
    } else {
      OthersUntouched(s, a, 0);
      OthersUntouched(s, a, 1);
    }
  }

  lemma {:induction false} RunServes(s: System, actions: seq<Action>)
    requires s.Shaped() && Inv(s) && BothServe(s)
    ensures Inv(Run(s, actions)) && BothServe(Run(s, actions))
    decreases |actions|
  {
    hide Step, Inv, BothServe;
    if actions != [] {
      StepKeeps(s, actions[0]);
      StepServes(s, actions[0]);
      RunServes(Step(s, actions[0]), actions[1..]);
    }
  }

  lemma StartServes(keyId: u8, sid0: SessionId, sid1: SessionId)
    requires keyId < 8
    ensures Inv(Start(keyId, sid0, sid1)) && BothServe(Start(keyId, sid0, sid1))
  {
    StartInv(keyId, sid0, sid1);
  }

  /** In every run, what a retransmission puts on the wire is the packet of the id Due picks, with what was written
      under that id; but for an entry that has its id and not yet its bytes, whose slot still holds what was there
      before. */
  lemma ResentIsThePacket(keyId: u8, sid0: SessionId, sid1: SessionId, actions: seq<Action>, i: nat, now: nat)
    requires keyId < 8 && i < 2 && DueSlot(Run(Start(keyId, sid0, sid1), actions).ep[i].send, now).Some?
    ensures var s := Run(Start(keyId, sid0, sid1), actions);
            var e := s.ep[i];
            var slot := DueSlot(e.send, now).value;
            && slot < |e.send.entries|
            && Step(s, Retransmit(i, now)).sent[i] == s.sent[i] + {e.send.entries[slot].payload}
            && (!BytesToCome(e, slot) ==>
                  IsPacket(e.send.entries[slot].payload, e.send.entries[slot].packetId, e.written))
  {
    hide Run, Inv, AllAnswered, IsPacket;
    StartServes(keyId, sid0, sid1);
    RunServes(Start(keyId, sid0, sid1), actions);
    var e := Run(Start(keyId, sid0, sid1), actions).ep[i];
    assert DueAt(now)(e.send.entries[DueSlot(e.send, now).value]);
  }

  /** In every run, every packet an endpoint has taken, read out or not, has been acknowledged in some datagram sent, or
      its acknowledgement is queued or about to be. */
  lemma EveryPacketIsAnswered(keyId: u8, sid0: SessionId, sid1: SessionId, actions: seq<Action>, i: nat, k: u32)
    requires keyId < 8 && i < 2 && Accepted(Run(Start(keyId, sid0, sid1), actions).ep[i].recv, k)
    ensures var s := Run(Start(keyId, sid0, sid1), actions); Answered(s.ep[i], s.sent[i], k)
  {
    hide Run, Inv, Carried, Accepted;
    StartServes(keyId, sid0, sid1);
    RunServes(Start(keyId, sid0, sid1), actions);
  }

  /** Read hands over the front of what is readable, and what is left stays. */
  lemma ReadHandsOver(s: System, i: nat, n: nat)
    requires s.Shaped() && i < 2 && n <= |s.ep[i].readBuf|
    ensures var e, e' := s.ep[i], Step(s, Read(i, n)).ep[i];
            e'.read == e.read + e.readBuf[..n] && e'.read + e'.readBuf == e.read + e.readBuf
  {
    assert s.ep[i].readBuf == s.ep[i].readBuf[..n] + s.ep[i].readBuf[n..];
  }

  // ---- what a delivery makes readable ----

  lemma {:induction false} DrainAccepts(w: Window, written: seq<seq<u8>>, k: u32)
    requires Stored(w, written)
    ensures Accepted(DrainReady(w).0, k) <==> Accepted(w, k)
    decreases ActiveSlots(w)
  {
    hide Stored, Accepted, Get;
    GetKeeps(w, written);
    if Get(w).1.Some? {
      GetShrinks(w);
      GetAccepts(w, written, k);
      DrainAccepts(Get(w).0, written, k);
    }
  }

  /** In every run, delivering any datagram in flight: unless its payload is refused, the receiver then has exactly what
      it had and this packet, and has made readable exactly what was written up to the first packet it lacks. */
  lemma DeliveryReadsOut(keyId: u8, sid0: SessionId, sid1: SessionId, actions: seq<Action>, i: nat, d: seq<u8>)
    requires keyId < 8 && i < 2
    requires d in Run(Start(keyId, sid0, sid1), actions).sent[i]
    requires Decode(d).Parsed? && Decode(d).packet.opcode != OP_ACK_V1
    ensures var s := Run(Start(keyId, sid0, sid1), actions);
            var r, r', cp := s.ep[1 - i], Absorb(s.ep[1 - i], Decode(d).packet), Decode(d).packet;
            cp.packetId < r.recv.packetId + N_REC_BUFFERS && cp.packetId >= r.recv.packetId ==>
              && (forall k: u32 :: Accepted(r'.recv, k) <==> Accepted(r.recv, k) || k == cp.packetId)
              && !Accepted(r'.recv, r'.recv.packetId)
              && r'.recv.packetId <= |s.ep[i].written|
              && Readable(r') == Concat(s.ep[i].written[..r'.recv.packetId])
  {
    hide Run, Inv, Start;
    var s := Reached(keyId, sid0, sid1, actions);
    AbsorbReadsOut(s, i, d);
  }

  lemma AbsorbReadsOut(s: System, i: nat, d: seq<u8>)
    requires Inv(s) && i < 2 && d in s.sent[i] && Decode(d).Parsed? && Decode(d).packet.opcode != OP_ACK_V1
    ensures var r, r', cp := s.ep[1 - i], Absorb(s.ep[1 - i], Decode(d).packet), Decode(d).packet;
            cp.packetId < r.recv.packetId + N_REC_BUFFERS && cp.packetId >= r.recv.packetId ==>
              && (forall k: u32 :: Accepted(r'.recv, k) <==> Accepted(r.recv, k) || k == cp.packetId)
              && !Accepted(r'.recv, r'.recv.packetId)
              && r'.recv.packetId <= |s.ep[i].written|
              && Readable(r') == Concat(s.ep[i].written[..r'.recv.packetId])
  {
    hide Put, Ack, Decode, DrainReady, Sender, Stored, Holds, AddAck;
    var e, r, cp := s.ep[i], s.ep[1 - i], Decode(d).packet;
    PutOfHonest(e, r, s.sent[i], d);
    PayloadStores(e, r, s.sent[i], d);
    var w := Put(r.recv, cp.packetId, cp.payload).0;
    if r.recv.packetId <= cp.packetId < r.recv.packetId + N_REC_BUFFERS {
      DrainKeeps(w, e.written);
      forall k: u32 ensures Accepted(DrainReady(w).0, k) <==> Accepted(r.recv, k) || k == cp.packetId {
        DrainAccepts(w, e.written, k);
        PutAccepts(r.recv, e.written, cp.packetId, cp.payload, k);
      }
      var bytes := DrainReady(w).1;
      assert r.read + (r.readBuf + bytes) == Readable(r) + bytes;
    }
  }
}
