/** Two control-channel endpoints over a network that loses, duplicates and reorders.
    Each endpoint is one ctrlconn.Conn: both windows, the pending acknowledgements and the read buffer.
    Datagrams travel as bytes: serialised by the sender and re-parsed on delivery. tls-crypt is ideal,
    so the network can deliver only datagrams that were transmitted, any number of times and in any order. */
module ControlChannel {
  import opened Words
  import opened Wire
  import opened Windows

  const MAX_PAYLOAD := 1150

  /** A packet whose id is assigned and whose bytes are not yet built: between MarkActive and SetPayload. */
  datatype Pending = Pending(slot: nat, id: u32, opcode: u8, payload: seq<u8>)

  /** toAck are the ids stored by a delivery that has yet to queue their acknowledgement. written[k] is the payload
      given packet id k, and read all bytes Read has returned: what the endpoint has done so far. */
  datatype Endpoint = Endpoint(
    keyId: u8,
    localSid: SessionId,
    remoteSid: SessionId,
    send: Window,
    recv: Window,
    acks: seq<u32>,
    toAck: seq<u32>,
    readBuf: seq<u8>,
    pending: Option<Pending>,
    written: seq<seq<u8>>,
    read: seq<u8>)

  function NewEndpoint(keyId: u8, localSid: SessionId, remoteSid: SessionId): Endpoint {
    Endpoint(keyId, localSid, remoteSid, NewWindow(N_SEND_BUFFERS), NewWindow(N_REC_BUFFERS), [], [], [], None, [], [])
  }

  // ---- what an endpoint does ----

  /** buildControlPacket: drains up to one ack record into the packet. */
  function BuildPacket(e: Endpoint, opcode: u8, id: u32, payload: seq<u8>): seq<u8> {
    Encode(ControlPacket(opcode, e.keyId, e.localSid, e.acks[..DrainCount(e.acks)], e.remoteSid, id, payload))
  }

  function ActiveSlots(w: Window): set<nat> {
    set i | 0 <= i < |w.entries| && w.entries[i].active
  }

  /** Get until it has nothing: the in-order bytes now readable, and the window after them. */
  function DrainReady(w: Window): (Window, seq<u8>)
    decreases ActiveSlots(w)
  {
    var (w', payload) := Get(w);
    if payload.None? then (w, [])
    else
      GetShrinks(w);
      var (w'', rest) := DrainReady(w');
      (w'', payload.value + rest)
  }

  lemma GetShrinks(w: Window)
    requires Get(w).1.Some?
    ensures ActiveSlots(Get(w).0) < ActiveSlots(w)
  {
    var i := FirstWhere(w.entries, Holding(w.packetId));
    assert Holding(w.packetId)(w.entries[i]);
    assert i in ActiveSlots(w) && i !in ActiveSlots(Get(w).0);
  }

  function Drained(e: Endpoint): Endpoint {
    var (w, bytes) := DrainReady(e.recv);
    e.(recv := w, readBuf := e.readBuf + bytes)
  }

  /** absorb: purge what was acknowledged, store the payload, acknowledge it, and make the in-order bytes readable. */
  function Absorb(e: Endpoint, cp: ControlPacket): Endpoint {
    var e1 := e.(send := Ack(e.send, cp.acks));
    if cp.opcode == OP_ACK_V1 then Drained(e1)
    else
      var (w, r) := Put(e1.recv, cp.packetId, cp.payload);
      if r == PutRejected then e1
      else Drained(e1.(recv := w, acks := AddAck(e1.acks, cp.packetId)))
  }

  // ---- absorb by its locked parts ----

  function AbsorbAcks(e: Endpoint, cp: ControlPacket): Endpoint {
    e.(send := Ack(e.send, cp.acks))
  }

  function AbsorbPayload(e: Endpoint, cp: ControlPacket): Endpoint {
    var (w, r) := Put(e.recv, cp.packetId, cp.payload);
    if cp.opcode == OP_ACK_V1 || r == PutRejected then e else e.(recv := w, toAck := e.toAck + [cp.packetId])
  }

  function QueueAckAt(e: Endpoint, k: nat): Endpoint
    requires k < |e.toAck|
  {
    e.(acks := AddAck(e.acks, e.toAck[k]), toAck := e.toAck[..k] + e.toAck[k + 1..])
  }

  function TakeNext(e: Endpoint): Endpoint {
    var (w, payload) := Get(e.recv);
    if payload.None? then e else e.(recv := w, readBuf := e.readBuf + payload.value)
  }

  /** The chunks Write makes of its argument. */
  function Chunks(p: seq<u8>): seq<seq<u8>> {
    if |p| == 0 then []
    else if |p| <= MAX_PAYLOAD then [p]
    else [p[..MAX_PAYLOAD]] + Chunks(p[MAX_PAYLOAD..])
  }

  // ---- the two endpoints and the network ----

  /** sent[i] is every datagram endpoint i has transmitted. */
  datatype System = System(ep: seq<Endpoint>, sent: seq<set<seq<u8>>>)
  {
    predicate Shaped() { |ep| == 2 && |sent| == 2 }
  }

  /** The atomic actions, each under one lock. A write is two of them, so a retransmission can fall between the id and
      the bytes; a delivery is as many as it takes locks, so that any number of deliveries, and everything else, can
      fall between its parts. */
  datatype Action =
    | BeginWrite(i: nat, opcode: u8, payload: seq<u8>)
    | FinishWrite(i: nat)
    | Retransmit(i: nat, now: nat)
    | FlushAcks(i: nat)
    | DeliverAcks(i: nat, datagram: seq<u8>)
    | DeliverPayload(i: nat, datagram: seq<u8>)
    | QueueAck(i: nat, k: nat)
    | TakeOne(i: nat)
    | Read(i: nat, n: nat)

  predicate Enabled(s: System, a: Action)
    requires s.Shaped()
  {
    match a
    case BeginWrite(i, opcode, payload) =>
      && i < 2 && s.ep[i].pending.None? && |s.ep[i].written| < TWO31
      && ValidOpcode(opcode) && opcode != OP_ACK_V1
      && NextSlot(s.ep[i].send).Some? && NextSlot(s.ep[i].send).value < |s.ep[i].send.entries|
    case FinishWrite(i) => i < 2 && s.ep[i].pending.Some? && s.ep[i].pending.value.slot < |s.ep[i].send.entries|
    case Retransmit(i, now) => i < 2 && DueSlot(s.ep[i].send, now).Some?
    case FlushAcks(i) => i < 2 && s.ep[i].acks != []
    case DeliverAcks(i, d) => i < 2 && d in s.sent[1 - i] && Decode(d).Parsed?
    case DeliverPayload(i, d) => i < 2 && d in s.sent[1 - i] && Decode(d).Parsed?
    case QueueAck(i, k) => i < 2 && k < |s.ep[i].toAck|
    case TakeOne(i) => i < 2
    case Read(i, n) => i < 2 && n <= |s.ep[i].readBuf|
  }

  function BeginWriteAt(e: Endpoint, opcode: u8, payload: seq<u8>, slot: nat): Endpoint
    requires slot < |e.send.entries|
  {
    e.(send := MarkActive(e.send, slot),
       pending := Some(Pending(slot, e.send.packetId, opcode, payload)),
       written := e.written + [payload])
  }

  function FinishWriteAt(e: Endpoint, p: Pending): (Endpoint, seq<u8>)
    requires p.slot < |e.send.entries|
  {
    var d := BuildPacket(e, p.opcode, p.id, p.payload);
    (e.(send := SetPayload(e.send, p.slot, d), acks := e.acks[DrainCount(e.acks)..], pending := None), d)
  }

  function Step(s: System, a: Action): (s': System)
    requires s.Shaped()
    ensures s'.Shaped()
  {
    if !Enabled(s, a) then s
    else
      match a
      case BeginWrite(i, opcode, payload) =>
        s.(ep := s.ep[i := BeginWriteAt(s.ep[i], opcode, payload, NextSlot(s.ep[i].send).value)])
      case FinishWrite(i) =>
        var (e, d) := FinishWriteAt(s.ep[i], s.ep[i].pending.value);
        System(s.ep[i := e], s.sent[i := s.sent[i] + {d}])
      case Retransmit(i, now) =>
        var e := s.ep[i];
        System(s.ep[i := e.(send := Due(e.send, now))],
               s.sent[i := s.sent[i] + {e.send.entries[DueSlot(e.send, now).value].payload}])
      case FlushAcks(i) =>
        var e := s.ep[i];
        System(s.ep[i := e.(acks := e.acks[DrainCount(e.acks)..])],
               s.sent[i := s.sent[i] + {BuildPacket(e, OP_ACK_V1, 0, [])}])
      case DeliverAcks(i, d) => s.(ep := s.ep[i := AbsorbAcks(s.ep[i], Decode(d).packet)])
      case DeliverPayload(i, d) => s.(ep := s.ep[i := AbsorbPayload(s.ep[i], Decode(d).packet)])
      case QueueAck(i, k) => s.(ep := s.ep[i := QueueAckAt(s.ep[i], k)])
      case TakeOne(i) => s.(ep := s.ep[i := TakeNext(s.ep[i])])
      case Read(i, n) =>
        var e := s.ep[i];
        s.(ep := s.ep[i := e.(read := e.read + e.readBuf[..n], readBuf := e.readBuf[n..])])
  }

  function Run(s: System, actions: seq<Action>): (s': System)
    requires s.Shaped()
    ensures s'.Shaped()
    decreases |actions|
  {
    if actions == [] then s else Run(Step(s, actions[0]), actions[1..])
  }

  function Start(keyId: u8, sid0: SessionId, sid1: SessionId): (s: System)
    ensures s.Shaped()
  {
    System([NewEndpoint(keyId, sid0, sid1), NewEndpoint(keyId, sid1, sid0)], [{}, {}])
  }

  // ---- absorb is a run of its parts ----

  function TakeAll(w: Window, i: nat): seq<Action>
    decreases ActiveSlots(w)
  {
    if Get(w).1.None? then []
    else
      GetShrinks(w);
      [TakeOne(i)] + TakeAll(Get(w).0, i)
  }

  lemma {:induction false} TakeAllDrains(s: System, i: nat)
    requires s.Shaped() && i < 2
    ensures Run(s, TakeAll(s.ep[i].recv, i)) == At(s, i, Drained(s.ep[i]))
    decreases ActiveSlots(s.ep[i].recv)
  {
    var e := s.ep[i];
    var (w, payload) := Get(e.recv);
    if payload.None? {
      assert e.readBuf + [] == e.readBuf;
      assert s.ep[i := e] == s.ep;
    } else {
      GetShrinks(e.recv);
      var s1 := Step(s, TakeOne(i));
      TakeAllDrains(s1, i);
      var rest := DrainReady(w).1;
      assert e.readBuf + (payload.value + rest) == e.readBuf + payload.value + rest;
      assert s1.ep[i := Drained(s1.ep[i])] == s.ep[i := Drained(e)];
      assert TakeAll(e.recv, i)[1..] == TakeAll(w, i);
    }
  }

  /** The parts of one undisturbed delivery, in order. */
  function Parts(s: System, i: nat, d: seq<u8>): seq<Action>
    requires s.Shaped() && i < 2 && Decode(d).Parsed?
  {
    var cp, e := Decode(d).packet, AbsorbAcks(s.ep[i], Decode(d).packet);
    var (w, r) := Put(e.recv, cp.packetId, cp.payload);
    if cp.opcode == OP_ACK_V1 then [DeliverAcks(i, d)] + TakeAll(e.recv, i)
    else if r == PutRejected then [DeliverAcks(i, d), DeliverPayload(i, d)]
    else [DeliverAcks(i, d), DeliverPayload(i, d), QueueAck(i, |e.toAck|)] + TakeAll(w, i)
  }

  lemma RunCons(s: System, a: Action, rest: seq<Action>)
    requires s.Shaped()
    ensures Run(s, [a] + rest) == Run(Step(s, a), rest)
  {
    hide Step;
    assert ([a] + rest)[1..] == rest;
  }

  function At(s: System, i: nat, e: Endpoint): System
    requires s.Shaped() && i < 2
  {
    s.(ep := s.ep[i := e])
  }

  lemma AtAt(s: System, i: nat, e: Endpoint, e': Endpoint)
    requires s.Shaped() && i < 2
    ensures At(At(s, i, e), i, e') == At(s, i, e')
  {
    assert s.ep[i := e][i := e'] == s.ep[i := e'];
  }

  /** The acknowledgement of a stored packet, then the bytes. */
  lemma StoredIsAbsorbed(s: System, i: nat, cp: ControlPacket)
    requires s.Shaped() && i < 2 && cp.opcode != OP_ACK_V1
    requires Put(s.ep[i].recv, cp.packetId, cp.payload).1 != PutRejected
    ensures var e := s.ep[i];
            var (w, _) := Put(e.recv, cp.packetId, cp.payload);
            Run(At(s, i, AbsorbPayload(e, cp)), [QueueAck(i, |e.toAck|)] + TakeAll(w, i))
              == At(s, i, Drained(e.(recv := w, acks := AddAck(e.acks, cp.packetId))))
  {
    hide DrainReady, Put, AddAck;
    var e := s.ep[i];
    var w := Put(e.recv, cp.packetId, cp.payload).0;
    var e3 := e.(recv := w, acks := AddAck(e.acks, cp.packetId));
    var s2 := At(s, i, AbsorbPayload(e, cp));
    assert QueueAckAt(AbsorbPayload(e, cp), |e.toAck|) == e3 by {
      assert (e.toAck + [cp.packetId])[..|e.toAck|] + (e.toAck + [cp.packetId])[|e.toAck| + 1..] == e.toAck;
    }
    RunCons(s2, QueueAck(i, |e.toAck|), TakeAll(w, i));
    AtAt(s, i, AbsorbPayload(e, cp), e3);
    assert Step(s2, QueueAck(i, |e.toAck|)) == At(s, i, e3);
    TakeAllDrains(At(s, i, e3), i);
    AtAt(s, i, e3, Drained(e3));
  }

  /** Undisturbed, they are absorb. */
  lemma PartsAreAbsorb(s: System, i: nat, d: seq<u8>)
    requires s.Shaped() && i < 2 && d in s.sent[1 - i] && Decode(d).Parsed?
    ensures Run(s, Parts(s, i, d)) == At(s, i, Absorb(s.ep[i], Decode(d).packet))
  {
    hide Drained, Decode, Put, Ack, AddAck, Run, TakeAll, Step, At;
    var cp := Decode(d).packet;
    var e := AbsorbAcks(s.ep[i], cp);
    var s1 := At(s, i, e);
    AcksFirst(s, i, d);
    if cp.opcode == OP_ACK_V1 {
      RunCons(s, DeliverAcks(i, d), TakeAll(e.recv, i));
      TakeAllDrains(s1, i);
      AtAt(s, i, e, Drained(e));
    } else {
      PartsPastAcks(s1, i, d);
      var (w, r) := Put(e.recv, cp.packetId, cp.payload);
      if r == PutRejected {
        RunCons(s, DeliverAcks(i, d), [DeliverPayload(i, d)]);
        assert Parts(s, i, d) == [DeliverAcks(i, d)] + [DeliverPayload(i, d)];
      } else {
        var rest := [DeliverPayload(i, d)] + ([QueueAck(i, |e.toAck|)] + TakeAll(w, i));
        RunCons(s, DeliverAcks(i, d), rest);
        assert Parts(s, i, d) == [DeliverAcks(i, d)] + rest;
        AtAt(s, i, e, Drained(e.(recv := w, acks := AddAck(e.acks, cp.packetId))));
      }
    }
  }

  lemma AcksFirst(s: System, i: nat, d: seq<u8>)
    requires s.Shaped() && i < 2 && d in s.sent[1 - i] && Decode(d).Parsed?
    ensures var s1 := At(s, i, AbsorbAcks(s.ep[i], Decode(d).packet));
            && Step(s, DeliverAcks(i, d)) == s1
            && s1.Shaped() && s1.sent == s.sent && s1.ep[i] == AbsorbAcks(s.ep[i], Decode(d).packet)
  {
  }

  lemma PartsPastAcks(s: System, i: nat, d: seq<u8>)
    requires s.Shaped() && i < 2 && d in s.sent[1 - i] && Decode(d).Parsed? && Decode(d).packet.opcode != OP_ACK_V1
    ensures var cp, e := Decode(d).packet, s.ep[i];
            var (w, r) := Put(e.recv, cp.packetId, cp.payload);
            if r == PutRejected then Run(s, [DeliverPayload(i, d)]) == s
            else Run(s, [DeliverPayload(i, d)] + ([QueueAck(i, |e.toAck|)] + TakeAll(w, i)))
                   == At(s, i, Drained(e.(recv := w, acks := AddAck(e.acks, cp.packetId))))
  {
    hide Drained, Decode, Put, TakeAll;
    var cp, e := Decode(d).packet, s.ep[i];
    var (w, r) := Put(e.recv, cp.packetId, cp.payload);
    assert Step(s, DeliverPayload(i, d)) == At(s, i, AbsorbPayload(e, cp));
    if r == PutRejected {
      assert s.ep[i := e] == s.ep;
      assert [DeliverPayload(i, d)][1..] == [];
    } else {
      RunCons(s, DeliverPayload(i, d), [QueueAck(i, |e.toAck|)] + TakeAll(w, i));
      StoredIsAbsorbed(s, i, cp);
    }
  }

  // ---- streams ----

  function Concat(ps: seq<seq<u8>>): seq<u8> {
    if ps == [] then [] else Concat(ps[..|ps| - 1]) + ps[|ps| - 1]
  }

  /** Everything endpoint e has made readable, whether or not Read has returned it yet. */
  function Readable(e: Endpoint): seq<u8> {
    e.read + e.readBuf
  }

  lemma {:induction false} ConcatPrefix(ps: seq<seq<u8>>, f: nat)
    requires f <= |ps|
    ensures Concat(ps[..f]) <= Concat(ps)
  {
    if f < |ps| {
      assert ps[..|ps| - 1][..f] == ps[..f];
      ConcatPrefix(ps[..|ps| - 1], f);
    } else {
      assert ps[..f] == ps;
    }
  }

  /** Write loses and reorders nothing: its chunks concatenate to its argument, and each fits one packet. */
  lemma {:induction false} ChunksConcat(p: seq<u8>)
    ensures Concat(Chunks(p)) == p
    ensures forall k :: 0 <= k < |Chunks(p)| ==> 0 < |Chunks(p)[k]| <= MAX_PAYLOAD
  {
    if |p| > MAX_PAYLOAD {
      var rest := Chunks(p[MAX_PAYLOAD..]);
      ChunksConcat(p[MAX_PAYLOAD..]);
      ConcatCons(p[..MAX_PAYLOAD], rest);
    } else if |p| > 0 {
      ConcatCons(p, []);
      assert [p] + [] == [p];
    }
  }

  lemma {:induction false} ConcatCons(p: seq<u8>, ps: seq<seq<u8>>)
    ensures Concat([p] + ps) == p + Concat(ps)
  {
    var all := [p] + ps;
    if ps == [] {
      assert all[..0] == [];
    } else {
      assert all[..|all| - 1] == [p] + ps[..|ps| - 1];
      ConcatCons(p, ps[..|ps| - 1]);
    }
  }
}
