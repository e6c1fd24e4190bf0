/** Stream safety of the control channel, in every run of fewer than 2^31 packets in each direction and with any number
    of deliveries in progress at once: what a reader can see is always a prefix of what the peer wrote. And window
    compatibility state by state: in a state of such a run where at most six packets wait to be read out in order, the
    12-slot receiver refuses no undelivered packet of the 6-slot sender. Which runs stay in such states is for Pump. */
module ControlChannelSafety {
  import opened Words
  import opened Wire
  import opened Windows
  import opened SendWindow
  import opened ReceiveWindow
  import opened ControlChannel

  /** The receiver has packet k: consumed, or stored and waiting for its predecessors. */
  predicate Accepted(w: Window, k: u32) {
    k < w.packetId || Holds(w.entries, k)
  }

  /** Every stored payload is the one written under its id, and stored ids are distinct and within the window. */
  predicate Stored(w: Window, written: seq<seq<u8>>) {
    && |w.entries| == N_REC_BUFFERS
    && w.packetId <= |written| <= TWO31
    && (forall i :: 0 <= i < |w.entries| && w.entries[i].active ==>
          && w.packetId <= w.entries[i].packetId < w.packetId + N_REC_BUFFERS
          && w.entries[i].packetId < |written| && w.entries[i].payload == written[w.entries[i].packetId])
    && (forall i, j :: 0 <= i < j < |w.entries| && w.entries[i].active && w.entries[j].active ==>
          w.entries[i].packetId != w.entries[j].packetId)
  }

  /** What endpoint s may have put on the wire: acknowledgements of packets it has, and payloads it wrote.
      An entry retransmitted before its bytes were ever set is an empty datagram. */
  predicate Honest(s: Endpoint, d: seq<u8>) {
    d == [] ||
    (&& Decode(d).Parsed?
     && var cp := Decode(d).packet;
        && (forall k :: 0 <= k < |cp.acks| ==> Accepted(s.recv, cp.acks[k]))
        && (cp.opcode != OP_ACK_V1 ==> cp.packetId < |s.written| && cp.payload == s.written[cp.packetId]))
  }

  /** Only what the endpoint has is acknowledged, now or later. */
  predicate Queued(s: Endpoint) {
    && (forall k :: 0 <= k < |s.acks| ==> Accepted(s.recv, s.acks[k]))
    && (forall k :: 0 <= k < |s.toAck| ==> Accepted(s.recv, s.toAck[k]))
  }

  /** The sending half of s. */
  predicate Sender(s: Endpoint, out: set<seq<u8>>) {
    && s.keyId < 8
    && |s.send.entries| == N_SEND_BUFFERS
    && |s.written| <= TWO31 && s.send.packetId == |s.written|
    && SendInv(s.send)
    && (forall d :: d in out ==> Honest(s, d))
    && Queued(s)
    && (forall i :: 0 <= i < |s.send.entries| ==> s.send.entries[i].payload == [] || s.send.entries[i].payload in out)
    && (s.pending.Some? ==>
          var p := s.pending.value;
          && p.slot < N_SEND_BUFFERS && p.id < |s.written| && p.payload == s.written[p.id]
          && ValidOpcode(p.opcode) && p.opcode != OP_ACK_V1)
  }

  /** s to r: acknowledged implies accepted, r holds only what s wrote, and r has read exactly what lies below its
      floor. */
  predicate Link(s: Endpoint, r: Endpoint) {
    && Stored(r.recv, s.written)
    && (forall k: u32 :: k < |s.written| ==> Accepted(r.recv, k) || Holds(s.send.entries, k))
    && Readable(r) == Concat(s.written[..r.recv.packetId])
  }

  predicate Inv(s: System) {
    && s.Shaped()
    && Sender(s.ep[0], s.sent[0]) && Sender(s.ep[1], s.sent[1])
    && Link(s.ep[0], s.ep[1]) && Link(s.ep[1], s.ep[0])
  }

  // ---- the receive window ----

  /** Taking the packet at the floor moves the floor past it and leaves everything else stored. */
  lemma GetKeeps(w: Window, written: seq<seq<u8>>)
    requires Stored(w, written)
    ensures w.packetId <= |written|
    ensures var (w', payload) := Get(w);
            if payload.None? then w' == w && !Holds(w.entries, w.packetId)
            else
              && w.packetId < |written|
              && Stored(w', written) && w'.packetId == w.packetId + 1 && payload.value == written[w.packetId]
              && (forall k :: Accepted(w, k) ==> Accepted(w', k))
  {
    var (w', payload) := Get(w);
    var i := FirstWhere(w.entries, Holding(w.packetId));
    if payload.None? {
      assert forall j :: 0 <= j < |w.entries| ==> !Holding(w.packetId)(w.entries[j]);
    } else {
      assert Holding(w.packetId)(w.entries[i]);
      assert forall j :: 0 <= j < |w.entries| && j != i ==> w'.entries[j] == w.entries[j];
      forall k: u32 | Accepted(w, k) ensures Accepted(w', k) {
        if k >= w'.packetId {
          var j :| 0 <= j < |w.entries| && w.entries[j].active && w.entries[j].packetId == k;
          assert w'.entries[j] == w.entries[j];
        }
      }
    }
  }

  /** Draining consumes stored packets in order: the bytes it yields continue the stream from the floor. */
  lemma {:induction false} DrainKeeps(w: Window, written: seq<seq<u8>>)
    requires Stored(w, written)
    ensures var (w', bytes) := DrainReady(w);
            && Stored(w', written) && !Holds(w'.entries, w'.packetId)
            && (forall k :: Accepted(w, k) ==> Accepted(w', k))
            && w.packetId <= w'.packetId <= |written|
            && Concat(written[..w.packetId]) + bytes == Concat(written[..w'.packetId])
    decreases ActiveSlots(w)
  {
    hide Stored, Accepted, Holds, Get;
    GetKeeps(w, written);
    var (w1, payload) := Get(w);
    if payload.Some? {
      GetShrinks(w);
      DrainKeeps(w1, written);
      var f: nat := w.packetId;
      assert Concat(written[..f + 1]) == Concat(written[..f]) + written[f] by {
        assert written[..f + 1][..f] == written[..f];
      }
      var (w2, rest) := DrainReady(w1);
      assert Concat(written[..f]) + (payload.value + rest) == Concat(written[..f]) + payload.value + rest;
    }
  }

  lemma StoredIsRecvInv(w: Window, written: seq<seq<u8>>)
    requires Stored(w, written)
    ensures RecvInv(w)
  {
  }

  lemma AcceptedStays(w: Window, w': Window, i: nat)
    requires |w'.entries| == |w.entries| && w'.packetId == w.packetId && i < |w.entries| && !w.entries[i].active
    requires forall j :: 0 <= j < |w.entries| && j != i ==> w'.entries[j] == w.entries[j]
    ensures forall k :: Accepted(w, k) ==> Accepted(w', k)
  {
    forall k: u32 | Accepted(w, k) ensures Accepted(w', k) {
      if k >= w.packetId {
        var j :| 0 <= j < |w.entries| && w.entries[j].active && w.entries[j].packetId == k;
        assert w'.entries[j] == w.entries[j];
      }
    }
  }

  /** A free slot given to a packet that is not held. */
  lemma FillKeeps(w: Window, w': Window, written: seq<seq<u8>>, id: u32, i: nat)
    requires Stored(w, written) && !Holds(w.entries, id)
    requires w.packetId <= id < w.packetId + N_REC_BUFFERS && id < |written|
    requires i < |w.entries| && !w.entries[i].active && w'.packetId == w.packetId && |w'.entries| == |w.entries|
    requires w'.entries[i].active && w'.entries[i].packetId == id && w'.entries[i].payload == written[id]
    requires forall j :: 0 <= j < |w.entries| && j != i ==> w'.entries[j] == w.entries[j]
    ensures Stored(w', written) && Accepted(w', id)
    ensures forall k :: Accepted(w, k) ==> Accepted(w', k)
  {
    AcceptedStays(w, w', i);
  }

  lemma PutKeeps(w: Window, written: seq<seq<u8>>, id: u32)
    requires Stored(w, written) && id < |written|
    requires Put(w, id, written[id]).1 != PutRejected
    ensures Stored(Put(w, id, written[id]).0, written)
    ensures Accepted(Put(w, id, written[id]).0, id) && Put(w, id, written[id]).0.packetId == w.packetId
    ensures forall k :: Accepted(w, k) ==> Accepted(Put(w, id, written[id]).0, k)
  {
    hide Holds;
    StoredIsRecvInv(w, written);
    PutExactly(w, id, written[id]);
    var w' := Put(w, id, written[id]).0;
    if Put(w, id, written[id]).1 == PutAccepted {
      var i :| 0 <= i < |w.entries| && !w.entries[i].active &&
        w'.entries == w.entries[i := w.entries[i].(active := true, packetId := id, nAcks := 0, payload := written[id])];
      FillKeeps(w, w', written, id, i);
    }
  }

  // ---- window compatibility ----

  /** Where the floor would be if everything in order were taken. */
  function Reach(w: Window): u32 {
    DrainReady(w).0.packetId
  }

  /** That is at or above the sender's oldest unacknowledged id, so never a send window behind. */
  lemma ReachKeepsUp(s: Endpoint, r: Endpoint, out: set<seq<u8>>)
    requires Sender(s, out) && Link(s, r)
    ensures |s.written| - N_SEND_BUFFERS <= Reach(r.recv) <= |s.written|
  {
    DrainKeeps(r.recv, s.written);
    var w := DrainReady(r.recv).0;
    if w.packetId < |s.written| {
      assert !Accepted(w, w.packetId);
      assert !Accepted(r.recv, w.packetId);
      assert Holds(s.send.entries, w.packetId);
    }
  }

  /** What becomes of a packet on the wire: refused as delivered or as beyond the window, else stored or known. */
  lemma PutOfHonest(s: Endpoint, r: Endpoint, out: set<seq<u8>>, d: seq<u8>)
    requires Sender(s, out) && Link(s, r) && d in out
    requires Decode(d).Parsed? && Decode(d).packet.opcode != OP_ACK_V1
    ensures var cp := Decode(d).packet;
            Put(r.recv, cp.packetId, cp.payload).1 ==
              if !(r.recv.packetId <= cp.packetId < r.recv.packetId + N_REC_BUFFERS) then PutRejected
              else if Holds(r.recv.entries, cp.packetId) then PutDuplicate
              else PutAccepted
  {
    StoredIsRecvInv(r.recv, s.written);
    PutExactly(r.recv, Decode(d).packet.packetId, Decode(d).packet.payload);
  }

  /** While no more than six packets wait to be taken, an undelivered packet is not refused. */
  lemma NotYetDeliveredIsNeverRefused(s: Endpoint, r: Endpoint, out: set<seq<u8>>, d: seq<u8>)
    requires Sender(s, out) && Link(s, r) && d in out
    requires Decode(d).Parsed? && Decode(d).packet.opcode != OP_ACK_V1
    requires Reach(r.recv) - r.recv.packetId <= N_REC_BUFFERS - N_SEND_BUFFERS
    ensures var cp := Decode(d).packet;
            cp.packetId >= r.recv.packetId ==> Put(r.recv, cp.packetId, cp.payload).1 != PutRejected
  {
    assert Honest(s, d) && d != [];
    ReachKeepsUp(s, r, out);
    PutOfHonest(s, r, out, d);
  }

  /** A delivery that finds nothing waiting leaves no more than six packets waiting, whatever had come early. */
  lemma OneDeliveryLeavesSix(s: Endpoint, r: Endpoint, out: set<seq<u8>>, d: seq<u8>)
    requires Sender(s, out) && Link(s, r) && d in out && Decode(d).Parsed?
    requires Reach(r.recv) == r.recv.packetId
    ensures var r' := AbsorbPayload(r, Decode(d).packet);
            r'.recv.packetId <= Reach(r'.recv) <= r'.recv.packetId + (N_REC_BUFFERS - N_SEND_BUFFERS)
  {
    assert Honest(s, d) && d != [];
    ReachKeepsUp(s, r, out);
    PayloadStores(s, r, out, d);
    DrainKeeps(AbsorbPayload(r, Decode(d).packet).recv, s.written);
  }

  // ---- the parts of a delivery ----

  lemma PayloadStores(s: Endpoint, r: Endpoint, out: set<seq<u8>>, d: seq<u8>)
    requires Sender(s, out) && Link(s, r) && d in out && Decode(d).Parsed?
    ensures var r' := AbsorbPayload(r, Decode(d).packet);
            && Stored(r'.recv, s.written) && r'.recv.packetId == r.recv.packetId
            && (forall k :: Accepted(r.recv, k) ==> Accepted(r'.recv, k))
            && (r'.toAck == r.toAck || (r'.toAck == r.toAck + [Decode(d).packet.packetId] &&
                                        Accepted(r'.recv, Decode(d).packet.packetId)))
  {
    hide Put, Stored, Accepted;
    assert Honest(s, d) && d != [];
    var cp := Decode(d).packet;
    if cp.opcode != OP_ACK_V1 && Put(r.recv, cp.packetId, cp.payload).1 != PutRejected {
      PutKeeps(r.recv, s.written, cp.packetId);
    }
  }

  lemma DeliverPayloadKeeps(s: System, i: nat, d: seq<u8>)
    requires Inv(s) && i < 2 && d in s.sent[1 - i] && Decode(d).Parsed?
    ensures Inv(System(s.ep[i := AbsorbPayload(s.ep[i], Decode(d).packet)], s.sent[i := s.sent[i]]))
  {
    hide Put, Decode, Stored, Accepted, SendInv, Concat;
    var e, peer := s.ep[i], s.ep[1 - i];
    var e' := AbsorbPayload(e, Decode(d).packet);
    PayloadStores(peer, e, s.sent[1 - i], d);
    HonestGrows(e, e', s.sent[i]);
    ReplaceKeeps(s, i, e', s.sent[i]);
  }

  lemma QueueAckKeeps(s: System, i: nat, k: nat)
    requires Inv(s) && i < 2 && k < |s.ep[i].toAck|
    ensures Inv(System(s.ep[i := QueueAckAt(s.ep[i], k)], s.sent[i := s.sent[i]]))
  {
    hide Accepted, Stored, SendInv, Decode;
    var e, e' := s.ep[i], QueueAckAt(s.ep[i], k);
    HonestGrows(e, e', s.sent[i]);
    LinkUnchanged(e, e', s.ep[1 - i]);
    ReplaceKeeps(s, i, e', s.sent[i]);
  }

  lemma TakeNextReads(r: Endpoint, written: seq<seq<u8>>)
    requires Stored(r.recv, written) && Readable(r) == Concat(written[..r.recv.packetId])
    ensures var r' := TakeNext(r);
            && Stored(r'.recv, written) && Readable(r') == Concat(written[..r'.recv.packetId])
            && (forall k :: Accepted(r.recv, k) ==> Accepted(r'.recv, k))
  {
    GetKeeps(r.recv, written);
    var (w, payload) := Get(r.recv);
    if payload.Some? {
      var f: nat := r.recv.packetId;
      assert written[..f + 1][..f] == written[..f];
      assert Readable(TakeNext(r)) == Readable(r) + payload.value;
    }
  }

  lemma TakeOneKeeps(s: System, i: nat)
    requires Inv(s) && i < 2
    ensures Inv(System(s.ep[i := TakeNext(s.ep[i])], s.sent[i := s.sent[i]]))
  {
    hide Get, Accepted, Stored, SendInv, Decode, Concat, Readable;
    var e, peer := s.ep[i], s.ep[1 - i];
    var e' := TakeNext(e);
    TakeNextReads(e, peer.written);
    HonestGrows(e, e', s.sent[i]);
    ReplaceKeeps(s, i, e', s.sent[i]);
  }

  /** An entry leaves the window only if the peer has its packet. */
  lemma AbsorbPurges(s: Endpoint, r: Endpoint, outS: set<seq<u8>>, outR: set<seq<u8>>, d: seq<u8>)
    requires Sender(s, outS) && Sender(r, outR) && Link(s, r) && d in outR && Decode(d).Parsed?
    ensures var send := Ack(s.send, Decode(d).packet.acks);
            && SendInv(send) && send.packetId == s.send.packetId && |send.entries| == |s.send.entries|
            && (forall i :: 0 <= i < |send.entries| ==> send.entries[i].payload == s.send.entries[i].payload)
            && (forall k: u32 :: k < |s.written| ==> Accepted(r.recv, k) || Holds(send.entries, k))
  {
    var acks := Decode(d).packet.acks;
    var send := Ack(s.send, acks);
    assert Honest(r, d) && d != [];
    AckKeeps(s.send, acks);
    forall i | 0 <= i < |send.entries|
      ensures send.entries[i].packetId == s.send.entries[i].packetId
      ensures send.entries[i].payload == s.send.entries[i].payload
      ensures send.entries[i].active == (s.send.entries[i].active && s.send.entries[i].packetId !in acks)
    {
      AckPurgesExactly(s.send.entries, acks, i);
    }
    forall k: u32 | k < |s.written| && !Accepted(r.recv, k) ensures Holds(send.entries, k) {
      var i :| 0 <= i < |s.send.entries| && s.send.entries[i].active && s.send.entries[i].packetId == k;
      assert k !in acks;
      assert send.entries[i].active && send.entries[i].packetId == k;
    }
  }

  /** Honesty survives whatever only adds to what an endpoint has accepted and written. */
  lemma HonestGrows(s: Endpoint, s': Endpoint, out: set<seq<u8>>)
    requires forall d :: d in out ==> Honest(s, d)
    requires forall k :: Accepted(s.recv, k) ==> Accepted(s'.recv, k)
    requires s.written <= s'.written
    ensures forall d :: d in out ==> Honest(s', d)
  {
  }

  lemma DeliverAcksKeeps(s: System, i: nat, d: seq<u8>)
    requires Inv(s) && i < 2 && d in s.sent[1 - i] && Decode(d).Parsed?
    ensures Inv(System(s.ep[i := AbsorbAcks(s.ep[i], Decode(d).packet)], s.sent[i := s.sent[i]]))
  {
    hide Ack, Decode, Stored, Accepted, SendInv, Concat;
    var e, peer := s.ep[i], s.ep[1 - i];
    var e' := AbsorbAcks(e, Decode(d).packet);
    AbsorbPurges(e, peer, s.sent[i], s.sent[1 - i], d);
    HonestGrows(e, e', s.sent[i]);
    ReplaceKeeps(s, i, e', s.sent[i]);
  }

  // ---- transmitting ----

  lemma BuildIsHonest(e: Endpoint, opcode: u8, id: u32, payload: seq<u8>)
    requires ValidOpcode(opcode) && e.keyId < 8
    requires forall k :: 0 <= k < |e.acks| ==> Accepted(e.recv, e.acks[k])
    requires opcode != OP_ACK_V1 ==> id < |e.written| && payload == e.written[id]
    ensures Honest(e, BuildPacket(e, opcode, id, payload))
  {
    DecodeEncode(ControlPacket(opcode, e.keyId, e.localSid, e.acks[..DrainCount(e.acks)], e.remoteSid, id, payload));
  }

  lemma BeginWriteHolds(e: Endpoint, opcode: u8, payload: seq<u8>, slot: nat, k: u32)
    requires NextSlot(e.send) == Some(slot) && slot < |e.send.entries| && !e.send.entries[slot].active
    requires e.send.packetId == |e.written|
    requires k < |e.written| ==> Holds(e.send.entries, k)
    requires k <= |e.written|
    ensures Holds(BeginWriteAt(e, opcode, payload, slot).send.entries, k)
  {
    var es := BeginWriteAt(e, opcode, payload, slot).send.entries;
    if k < |e.written| {
      var i :| 0 <= i < |e.send.entries| && e.send.entries[i].active && e.send.entries[i].packetId == k;
      assert es[i] == e.send.entries[i];
    } else {
      assert es[slot].active && es[slot].packetId == k;
    }
  }

  lemma BeginWriteSends(e: Endpoint, out: set<seq<u8>>, opcode: u8, payload: seq<u8>, slot: nat)
    requires Sender(e, out) && NextSlot(e.send) == Some(slot) && |e.written| < TWO31
    requires ValidOpcode(opcode) && opcode != OP_ACK_V1
    ensures slot < |e.send.entries| && !e.send.entries[slot].active
    ensures Sender(BeginWriteAt(e, opcode, payload, slot), out)
  {
    MarkActiveKeeps(e.send, slot);
    NextSlotExactly(e.send);
    HonestGrows(e, BeginWriteAt(e, opcode, payload, slot), out);
  }

  lemma BeginWriteKeeps(s: System, i: nat, opcode: u8, payload: seq<u8>, slot: nat)
    requires Inv(s) && i < 2 && NextSlot(s.ep[i].send) == Some(slot) && slot < |s.ep[i].send.entries|
    requires ValidOpcode(opcode) && opcode != OP_ACK_V1 && |s.ep[i].written| < TWO31
    ensures Inv(System(s.ep[i := BeginWriteAt(s.ep[i], opcode, payload, slot)], s.sent[i := s.sent[i]]))
  {
    var e, peer := s.ep[i], s.ep[1 - i];
    BeginWriteSends(e, s.sent[i], opcode, payload, slot);
    BeginWriteLinks(e, peer, opcode, payload, slot);
    ReplaceKeeps(s, i, BeginWriteAt(e, opcode, payload, slot), s.sent[i]);
  }

  lemma BeginWriteLinks(e: Endpoint, peer: Endpoint, opcode: u8, payload: seq<u8>, slot: nat)
    requires Link(e, peer) && Link(peer, e) && |e.written| < TWO31 && e.send.packetId == |e.written|
    requires NextSlot(e.send) == Some(slot) && slot < |e.send.entries| && !e.send.entries[slot].active
    ensures var e' := BeginWriteAt(e, opcode, payload, slot); Link(e', peer) && Link(peer, e')
  {
    var e' := BeginWriteAt(e, opcode, payload, slot);
    assert e'.written[..peer.recv.packetId] == e.written[..peer.recv.packetId];
    forall k: u32 | k < |e'.written| && !Accepted(peer.recv, k) ensures Holds(e'.send.entries, k) {
      BeginWriteHolds(e, opcode, payload, slot, k);
    }
  }

  lemma FinishWriteSends(e: Endpoint, out: set<seq<u8>>, p: Pending)
    requires Sender(e, out) && e.pending == Some(p)
    ensures p.slot < |e.send.entries|
    ensures var (e', d) := FinishWriteAt(e, p);
            && Sender(e', out + {d}) && e'.recv == e.recv
            && forall k :: Holds(e.send.entries, k) ==> Holds(e'.send.entries, k)
  {
    BuildIsHonest(e, p.opcode, p.id, p.payload);
    var (e', d) := FinishWriteAt(e, p);
    assert forall i :: 0 <= i < |e.send.entries| && i != p.slot ==> e'.send.entries[i] == e.send.entries[i];
    HoldsSame(e.send.entries, e'.send.entries);
    HonestGrows(e, e', out + {d});
  }

  lemma FinishWriteKeeps(s: System, i: nat, p: Pending)
    requires Inv(s) && i < 2 && s.ep[i].pending == Some(p) && p.slot < |s.ep[i].send.entries|
    ensures var (e, d) := FinishWriteAt(s.ep[i], p); Inv(System(s.ep[i := e], s.sent[i := s.sent[i] + {d}]))
  {
    FinishWriteSends(s.ep[i], s.sent[i], p);
    var (e', d) := FinishWriteAt(s.ep[i], p);
    LinkUnchanged(s.ep[i], e', s.ep[1 - i]);
    ReplaceKeeps(s, i, e', s.sent[i] + {d});
  }

  /** An endpoint that sends differently but holds the same ids, and receives the same, is linked as before. */
  lemma LinkUnchanged(e: Endpoint, e': Endpoint, peer: Endpoint)
    requires Link(e, peer) && Link(peer, e)
    requires e'.written == e.written && e'.recv == e.recv && Readable(e') == Readable(e)
    requires forall k :: Holds(e.send.entries, k) ==> Holds(e'.send.entries, k)
    ensures Link(e', peer) && Link(peer, e')
  {
  }

  /** The invariant is about each endpoint and each direction, so one endpoint's action is judged on its own. */
  lemma ReplaceKeeps(s: System, i: nat, e: Endpoint, out: set<seq<u8>>)
    requires Inv(s) && i < 2
    requires Sender(e, out) && Link(e, s.ep[1 - i]) && Link(s.ep[1 - i], e)
    ensures Inv(System(s.ep[i := e], s.sent[i := out]))
  {
  }

  lemma HoldsSame(es: seq<Entry>, fs: seq<Entry>)
    requires |es| == |fs|
    requires forall i :: 0 <= i < |es| ==> es[i].active == fs[i].active && es[i].packetId == fs[i].packetId
    ensures forall k :: Holds(es, k) ==> Holds(fs, k)
  {
    forall k | Holds(es, k) ensures Holds(fs, k) {
      var i :| 0 <= i < |es| && es[i].active && es[i].packetId == k;
      assert fs[i].active && fs[i].packetId == k;
    }
  }

  lemma RetransmitKeeps(s: System, i: nat, now: nat)
    requires Inv(s) && i < 2 && DueSlot(s.ep[i].send, now).Some?
    ensures var e := s.ep[i];
            Inv(System(s.ep[i := e.(send := Due(e.send, now))],
                       s.sent[i := s.sent[i] + {e.send.entries[DueSlot(e.send, now).value].payload}]))
  {
    var e := s.ep[i];
    var e' := e.(send := Due(e.send, now));
    DueKeeps(e.send, now);
    HoldsSame(e.send.entries, e'.send.entries);
    var d := e.send.entries[DueSlot(e.send, now).value].payload;
    HonestGrows(e, e', s.sent[i] + {d});
    LinkUnchanged(e, e', s.ep[1 - i]);
    ReplaceKeeps(s, i, e', s.sent[i] + {d});
  }

  lemma FlushAcksKeeps(s: System, i: nat)
    requires Inv(s) && i < 2
    ensures var e := s.ep[i];
            Inv(System(s.ep[i := e.(acks := e.acks[DrainCount(e.acks)..])],
                       s.sent[i := s.sent[i] + {BuildPacket(e, OP_ACK_V1, 0, [])}]))
  {
    var e := s.ep[i];
    var e' := e.(acks := e.acks[DrainCount(e.acks)..]);
    var d := BuildPacket(e, OP_ACK_V1, 0, []);
    BuildIsHonest(e, OP_ACK_V1, 0, []);
    HonestGrows(e, e', s.sent[i] + {d});
    LinkUnchanged(e, e', s.ep[1 - i]);
    ReplaceKeeps(s, i, e', s.sent[i] + {d});
  }

  lemma ReadKeeps(s: System, i: nat, n: nat)
    requires Inv(s) && i < 2 && n <= |s.ep[i].readBuf|
    ensures var e := s.ep[i];
            Inv(System(s.ep[i := e.(read := e.read + e.readBuf[..n], readBuf := e.readBuf[n..])],
                       s.sent[i := s.sent[i]]))
  {
    var e := s.ep[i];
    var e' := e.(read := e.read + e.readBuf[..n], readBuf := e.readBuf[n..]);
    assert Readable(e') == Readable(e);
    LinkUnchanged(e, e', s.ep[1 - i]);
    ReplaceKeeps(s, i, e', s.sent[i]);
  }

  lemma StepKeeps(s: System, a: Action)
    requires Inv(s)
    ensures Inv(Step(s, a))
  {
    hide Sender, Link, Decode, AbsorbAcks, AbsorbPayload, QueueAckAt, TakeNext;
    hide BeginWriteAt, FinishWriteAt, BuildPacket;
    if Enabled(s, a) {
      assert s.sent[a.i := s.sent[a.i]] == s.sent;
      match a {
        case BeginWrite(i, opcode, payload) => BeginWriteKeeps(s, i, opcode, payload, NextSlot(s.ep[i].send).value);
        case FinishWrite(i) => FinishWriteKeeps(s, i, s.ep[i].pending.value);
        case Retransmit(i, now) => RetransmitKeeps(s, i, now);
        case FlushAcks(i) => FlushAcksKeeps(s, i);
        case DeliverAcks(i, d) => DeliverAcksKeeps(s, i, d);
        case DeliverPayload(i, d) => DeliverPayloadKeeps(s, i, d);
        case QueueAck(i, k) => QueueAckKeeps(s, i, k);
        case TakeOne(i) => TakeOneKeeps(s, i);
        case Read(i, n) => ReadKeeps(s, i, n);
      }
    }
  }

  lemma {:induction false} RunKeeps(s: System, actions: seq<Action>)
    requires Inv(s)
    ensures Inv(Run(s, actions))
    decreases |actions|
  {
    if actions != [] {
      StepKeeps(s, actions[0]);
      RunKeeps(Step(s, actions[0]), actions[1..]);
    }
  }

  lemma StartInv(keyId: u8, sid0: SessionId, sid1: SessionId)
    requires keyId < 8
    ensures Inv(Start(keyId, sid0, sid1))
  {
  }

  lemma Reached(keyId: u8, sid0: SessionId, sid1: SessionId, actions: seq<Action>) returns (s: System)
    requires keyId < 8
    ensures s == Run(Start(keyId, sid0, sid1), actions) && Inv(s)
  {
    StartInv(keyId, sid0, sid1);
    RunKeeps(Start(keyId, sid0, sid1), actions);
    s := Run(Start(keyId, sid0, sid1), actions);
  }

  // ---- the theorems ----

  /** In every run, in both directions, what is readable is a prefix of what was written. */
  lemma ReadableIsPrefixOfWritten(keyId: u8, sid0: SessionId, sid1: SessionId, actions: seq<Action>, i: nat)
    requires keyId < 8 && i < 2
    ensures var s := Run(Start(keyId, sid0, sid1), actions);
            Readable(s.ep[1 - i]) <= Concat(s.ep[i].written)
  {
    hide Run, Step, Sender, Accepted, Holds, Start;
    var s := Reached(keyId, sid0, sid1, actions);
    ConcatPrefix(s.ep[i].written, s.ep[1 - i].recv.packetId);
  }

  /** In every reachable state with at most six packets stored in order and waiting to be read out, a packet in flight
      that the receiver has not delivered is stored or already known when a delivery reaches Put. With nothing left for
      Get, nothing waits. */
  lemma WindowsAreCompatible(keyId: u8, sid0: SessionId, sid1: SessionId, actions: seq<Action>, i: nat, d: seq<u8>)
    requires keyId < 8 && i < 2
    requires d in Run(Start(keyId, sid0, sid1), actions).sent[i]
    requires Decode(d).Parsed? && Decode(d).packet.opcode != OP_ACK_V1
    ensures var r := Run(Start(keyId, sid0, sid1), actions).ep[1 - i];
            var cp := Decode(d).packet;
            && (Get(r.recv).1.None? ==> Reach(r.recv) == r.recv.packetId)
            && (Reach(r.recv) - r.recv.packetId <= N_REC_BUFFERS - N_SEND_BUFFERS &&
                cp.packetId >= r.recv.packetId ==>
                  Put(r.recv, cp.packetId, cp.payload).1 != PutRejected)
  {
    hide Run, Step, Sender, Link, Start, Put;
    var s := Reached(keyId, sid0, sid1, actions);
    if Reach(s.ep[1 - i].recv) - s.ep[1 - i].recv.packetId <= N_REC_BUFFERS - N_SEND_BUFFERS {
      NotYetDeliveredIsNeverRefused(s.ep[i], s.ep[1 - i], s.sent[i], d);
    }
  }

  /** In every reachable state where nothing waits, storing any datagram in flight leaves at most six packets
      waiting. */
  lemma SerialDeliveriesLeaveRoom(keyId: u8, sid0: SessionId, sid1: SessionId, actions: seq<Action>, i: nat, d: seq<u8>)
    requires keyId < 8 && i < 2
    requires d in Run(Start(keyId, sid0, sid1), actions).sent[i] && Decode(d).Parsed?
    ensures var r := Run(Start(keyId, sid0, sid1), actions).ep[1 - i];
            Reach(r.recv) == r.recv.packetId ==>
              Reach(AbsorbPayload(r, Decode(d).packet).recv) - r.recv.packetId <= N_REC_BUFFERS - N_SEND_BUFFERS
  {
    hide Run, Step, Sender, Link, Reach, Start, Put;
    var s := Reached(keyId, sid0, sid1, actions);
    if Reach(s.ep[1 - i].recv) == s.ep[1 - i].recv.packetId {
      OneDeliveryLeavesSix(s.ep[i], s.ep[1 - i], s.sent[i], d);
      PayloadStores(s.ep[i], s.ep[1 - i], s.sent[i], d);
    }
  }
}
