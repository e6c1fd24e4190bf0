/** How many deliveries may be under way on a connection at once (internal/ctrlconn, ovpn.go) before the receive window
    can refuse a packet it still needs: two, as when the session's pump runs beside a reset delivered from the receiving
    goroutine, and no more. A delivery is under way from its Put, if that takes the packet, until it has read out
    everything in order. */
module Pump {
  import opened Words
  import opened Wire
  import opened Windows
  import opened SendWindow
  import opened ReceiveWindow
  import opened ControlChannel
  import opened ControlChannelSafety

  /** open[i] counts the deliveries under way at endpoint i. */
  datatype Pumped = Pumped(s: System, open: seq<nat>)

  /** Any action of the channel, or the end of a delivery at endpoint i. */
  datatype Move = Act(a: Action) | End(i: nat)

  function Begin(keyId: u8, sid0: SessionId, sid1: SessionId): Pumped {
    Pumped(Start(keyId, sid0, sid1), [0, 0])
  }

  /** With at most limit deliveries at once, one more comes to Put only while fewer are under way; a delivery ends when
      Get has nothing more for it. */
  predicate Allowed(p: Pumped, mv: Move, limit: nat)
    requires p.s.Shaped() && |p.open| == 2
  {
    match mv
    case Act(a) => Enabled(p.s, a) && (a.DeliverPayload? ==> p.open[a.i] < limit)
    case End(i) => i < 2 && p.open[i] > 0 && Get(p.s.ep[i].recv).1.None?
  }

  /** The delivery's Put takes the packet: stored, or known already. */
  predicate Takes(s: System, a: Action)
    requires s.Shaped() && Enabled(s, a)
  {
    && a.DeliverPayload?
    && var cp := Decode(a.datagram).packet;
       cp.opcode != OP_ACK_V1 && Put(s.ep[a.i].recv, cp.packetId, cp.payload).1 != PutRejected
  }

  function PumpStep(p: Pumped, mv: Move, limit: nat): (p': Pumped)
    requires p.s.Shaped() && |p.open| == 2
    ensures p'.s.Shaped() && |p'.open| == 2
  {
    if !Allowed(p, mv, limit) then p
    else
      match mv
      case Act(a) => Pumped(Step(p.s, a), if Takes(p.s, a) then p.open[a.i := p.open[a.i] + 1] else p.open)
      case End(i) => p.(open := p.open[i := p.open[i] - 1])
  }

  function PumpRun(p: Pumped, moves: seq<Move>, limit: nat): (p': Pumped)
    requires p.s.Shaped() && |p.open| == 2
    ensures p'.s.Shaped() && |p'.open| == 2
  {
    if moves == [] then p
    else PumpStep(PumpRun(p, moves[..|moves| - 1], limit), moves[|moves| - 1], limit)
  }

  /** A packet in flight to endpoint i that i has not delivered, and that Put would refuse to a delivery allowed now. */
  predicate Refused(p: Pumped, i: nat, d: seq<u8>, limit: nat)
    requires p.s.Shaped() && |p.open| == 2
  {
    && i < 2 && p.open[i] < limit
    && d in p.s.sent[1 - i] && Decode(d).Parsed? && Decode(d).packet.opcode != OP_ACK_V1
    && Decode(d).packet.packetId >= p.s.ep[i].recv.packetId
    && Put(p.s.ep[i].recv, Decode(d).packet.packetId, Decode(d).packet.payload).1 == PutRejected
  }

  // ---- at most two at once: never ----

  /** With none under way nothing waits to be read out, with one at most six packets. */
  predicate Waiting(w: Window, open: nat) {
    && (open == 0 ==> Reach(w) == w.packetId)
    && (open == 1 ==> Reach(w) - w.packetId <= N_REC_BUFFERS - N_SEND_BUFFERS)
  }

  predicate PumpInv(p: Pumped) {
    && p.s.Shaped() && |p.open| == 2 && Inv(p.s)
    && Waiting(p.s.ep[0].recv, p.open[0]) && Waiting(p.s.ep[1].recv, p.open[1])
  }

  /** What other actions leave alone. */
  lemma ReceiversStay(s: System, a: Action, j: nat)
    requires s.Shaped() && j < 2
    requires (a.DeliverPayload? || a.TakeOne?) ==> a.i != j
    ensures Step(s, a).ep[j].recv == s.ep[j].recv
  {
    hide Decode, NextSlot, Due, DueSlot, BuildPacket, Put, Get;
  }

  lemma TakeOneWaits(w: Window, written: seq<seq<u8>>, open: nat)
    requires Stored(w, written) && Waiting(w, open)
    ensures Waiting(Get(w).0, open)
  {
    hide Stored, Accepted;
    GetKeeps(w, written);
    if Get(w).1.Some? {
      GetShrinks(w);
      GetStored(w, written);
      DrainKeeps(Get(w).0, written);
    }
  }

  lemma GetStored(w: Window, written: seq<seq<u8>>)
    requires Stored(w, written) && Get(w).1.Some?
    ensures Stored(Get(w).0, written) && Reach(Get(w).0) == Reach(w)
  {
    hide Stored, Accepted;
    GetKeeps(w, written);
    GetShrinks(w);
  }

  lemma PayloadWaits(s: System, i: nat, d: seq<u8>, open: nat)
    requires Inv(s) && Enabled(s, DeliverPayload(i, d)) && Waiting(s.ep[i].recv, open)
    ensures var s' := Step(s, DeliverPayload(i, d));
            Waiting(s'.ep[i].recv, if Takes(s, DeliverPayload(i, d)) then open + 1 else open)
  {
    hide Reach, Put, Decode, Link, Sender;
    if open == 0 {
      OneDeliveryLeavesSix(s.ep[1 - i], s.ep[i], s.sent[1 - i], d);
    }
  }

  lemma EndWaits(w: Window, open: nat)
    requires Get(w).1.None?
    ensures Waiting(w, open)
  {
  }

  lemma PumpStepKeeps(p: Pumped, mv: Move, limit: nat)
    requires PumpInv(p)
    ensures PumpInv(PumpStep(p, mv, limit))
  {
    hide Waiting, Inv, Step, Enabled, Takes;
    if Allowed(p, mv, limit) {
      match mv
      case End(i) => EndWaits(p.s.ep[i].recv, p.open[i] - 1);
      case Act(a) =>
        StepKeeps(p.s, a);
        MoveWaits(p, a, 0);
        MoveWaits(p, a, 1);
    }
  }

  lemma MoveWaits(p: Pumped, a: Action, j: nat)
    requires PumpInv(p) && Enabled(p.s, a) && j < 2
    ensures Waiting(Step(p.s, a).ep[j].recv, if Takes(p.s, a) && a.i == j then p.open[j] + 1 else p.open[j])
  {
    hide Waiting, Takes, Decode, Put, Sender;
    if (a.DeliverPayload? || a.TakeOne?) && a.i == j {
      if a.DeliverPayload? {
        PayloadWaits(p.s, j, a.datagram, p.open[j]);
      } else {
        assert !Takes(p.s, a) by { NotTaken(p.s, a); }
        TakeOneWaits(p.s.ep[j].recv, p.s.ep[1 - j].written, p.open[j]);
        assert TakeNext(p.s.ep[j]).recv == Get(p.s.ep[j].recv).0 by { TakeNextGets(p.s.ep[j]); }
      }
    } else {
      ReceiversStay(p.s, a, j);
      if a.i == j {
        NotTaken(p.s, a);
      }
    }
  }

  lemma NotTaken(s: System, a: Action)
    requires s.Shaped() && Enabled(s, a) && !a.DeliverPayload?
    ensures !Takes(s, a)
  {
  }

  lemma TakeNextGets(e: Endpoint)
    ensures TakeNext(e).recv == Get(e.recv).0
  {
  }

  lemma {:induction false} PumpRunKeeps(p: Pumped, moves: seq<Move>, limit: nat)
    requires PumpInv(p)
    ensures PumpInv(PumpRun(p, moves, limit))
  {
    hide PumpStep;
    if moves != [] {
      PumpRunKeeps(p, moves[..|moves| - 1], limit);
      PumpStepKeeps(PumpRun(p, moves[..|moves| - 1], limit), moves[|moves| - 1], limit);
    }
  }

  lemma BeginInv(keyId: u8, sid0: SessionId, sid1: SessionId)
    requires keyId < 8
    ensures PumpInv(Begin(keyId, sid0, sid1))
  {
    StartInv(keyId, sid0, sid1);
    var w := NewWindow(N_REC_BUFFERS);
    assert FirstWhere(w.entries, Holding(w.packetId)) == |w.entries|;
  }

  lemma InvNeverRefuses(p: Pumped, i: nat, d: seq<u8>)
    requires PumpInv(p)
    ensures !Refused(p, i, d, 2)
  {
    hide Reach, Put, Decode, Link, Sender;
    if Refused(p, i, d, 2) {
      NotYetDeliveredIsNeverRefused(p.s.ep[1 - i], p.s.ep[i], p.s.sent[1 - i], d);
    }
  }

  // ---- three at once: a run in which it happens ----

  /** Two endpoints and how many deliveries each may have under way. */
  datatype Setup = Setup(keyId: u8, sid0: SessionId, sid1: SessionId, limit: nat)

  function RunOf(c: Setup, moves: seq<Move>): (p: Pumped)
    ensures p.s.Shaped() && |p.open| == 2
  {
    PumpRun(Begin(c.keyId, c.sid0, c.sid1), moves, c.limit)
  }

  ghost predicate Reachable(c: Setup, p: Pumped) {
    exists moves :: p == RunOf(c, moves)
  }

  lemma ReachesNext(c: Setup, p: Pumped, mv: Move)
    requires p.s.Shaped() && |p.open| == 2 && Reachable(c, p)
    ensures Reachable(c, PumpStep(p, mv, c.limit))
  {
    hide PumpStep;
    var moves :| p == RunOf(c, moves);
    var moves' := moves + [mv];
    assert moves'[..|moves|] == moves && moves'[|moves'| - 1] == mv;
    assert PumpStep(p, mv, c.limit) == RunOf(c, moves');
  }

  /** A datagram that carries packet k. */
  predicate CarriesId(d: seq<u8>, k: u32) {
    Decode(d).Parsed? && Decode(d).packet.opcode != OP_ACK_V1 && Decode(d).packet.packetId == k
  }

  ghost predicate InFlight(out: set<seq<u8>>, k: u32) {
    exists d :: d in out && CarriesId(d, k)
  }

  /** Where the run has come: endpoint 0 has written n packets, all in flight, and has seen those below acked
      acknowledged; endpoint 1 has read none, holds exactly stored, and is about to acknowledge acks. */
  datatype Place = Place(n: nat, acked: nat, stored: set<u32>, acks: seq<u32>, open: nat)

  ghost predicate SenderAt(e: Endpoint, out: set<seq<u8>>, at: Place) {
    && e.pending.None? && |e.written| == at.n <= 13
    && (forall i :: 0 <= i < |e.send.entries| && e.send.entries[i].active ==>
          at.acked <= e.send.entries[i].packetId < at.n)
    && (forall k: u32 :: k < at.n ==> InFlight(out, k))
  }

  ghost predicate ReceiverAt(e: Endpoint, at: Place) {
    && e.recv.packetId == 0
    && (forall k: u32 :: Holds(e.recv.entries, k) <==> k in at.stored)
    && e.acks == at.acks && e.toAck == [] && |at.acks| <= ACK_SIZE
  }

  ghost predicate Stage(p: Pumped, at: Place) {
    && p.s.Shaped() && |p.open| == 2 && Inv(p.s)
    && SenderAt(p.s.ep[0], p.s.sent[0], at)
    && ReceiverAt(p.s.ep[1], at)
    && p.open[1] == at.open
  }

  // ---- a write ----

  lemma YoungEnough(e: Endpoint, out: set<seq<u8>>, at: Place)
    requires Sender(e, out) && SenderAt(e, out, at) && at.n - at.acked < N_SEND_BUFFERS
    ensures NextSlot(e.send).Some? && NextSlot(e.send).value < |e.send.entries|
    ensures !e.send.entries[NextSlot(e.send).value].active
  {
    forall i | 0 <= i < |e.send.entries| && e.send.entries[i].active
      ensures Age(e.send, e.send.entries[i]) < |e.send.entries|
    {
      assert at.acked <= e.send.entries[i].packetId < at.n;
    }
    NextSlotExactly(e.send);
  }

  /** Assigning the next id and sending, as one. */
  function Wrote(e: Endpoint): (Endpoint, seq<u8>)
    requires NextSlot(e.send).Some? && NextSlot(e.send).value < |e.send.entries|
  {
    var began := BeginWriteAt(e, OP_CONTROL_V1, [], NextSlot(e.send).value);
    FinishWriteAt(began, began.pending.value)
  }

  lemma WroteIsSent(e: Endpoint, out: set<seq<u8>>, at: Place)
    requires Sender(e, out) && SenderAt(e, out, at) && at.acked <= at.n < 13
    requires NextSlot(e.send).Some? && NextSlot(e.send).value < |e.send.entries|
    requires !e.send.entries[NextSlot(e.send).value].active
    ensures var (e', d) := Wrote(e);
            e'.recv == e.recv && SenderAt(e', out + {d}, at.(n := at.n + 1))
  {
    hide Decode, Encode, Honest, SendInv;
    var (e', d) := Wrote(e);
    var acks := e.acks[..DrainCount(e.acks)];
    DecodeEncode(ControlPacket(OP_CONTROL_V1, e.keyId, e.localSid, acks, e.remoteSid, at.n, []));
    assert CarriesId(d, at.n);
    forall k: u32 | k < at.n + 1 ensures InFlight(out + {d}, k) {
      if k < at.n {
        assert InFlight(out, k);
        var c :| c in out && CarriesId(c, k);
        assert c in out + {d};
      } else {
        assert d in out + {d};
      }
    }
  }

  lemma WriteSteps(p: Pumped, limit: nat)
    requires p.s.Shaped() && |p.open| == 2 && p.s.ep[0].pending.None? && |p.s.ep[0].written| < TWO31
    requires var w := p.s.ep[0].send; NextSlot(w).Some? && NextSlot(w).value < |w.entries|
    ensures var p' := PumpStep(PumpStep(p, Act(BeginWrite(0, OP_CONTROL_V1, [])), limit), Act(FinishWrite(0)), limit);
            var (e, d) := Wrote(p.s.ep[0]);
            p' == Pumped(System(p.s.ep[0 := e], p.s.sent[0 := p.s.sent[0] + {d}]), p.open)
  {
    hide NextSlot, MarkActive, SetPayload, BuildPacket;
    var p1 := PumpStep(p, Act(BeginWrite(0, OP_CONTROL_V1, [])), limit);
    var e := p.s.ep[0];
    var began := BeginWriteAt(e, OP_CONTROL_V1, [], NextSlot(e.send).value);
    assert p1 == p.(s := p.s.(ep := p.s.ep[0 := began]));
    assert |began.send.entries| == |e.send.entries| by { MarkActiveSize(e.send, NextSlot(e.send).value); }
    assert p1.s.ep[0 := Wrote(e).0] == p.s.ep[0 := Wrote(e).0];
  }

  lemma MarkActiveSize(w: Window, i: nat)
    requires i < |w.entries|
    ensures |MarkActive(w, i).entries| == |w.entries|
  {
  }

  lemma WriteMoves(c: Setup, p: Pumped, at: Place) returns (p': Pumped)
    requires Reachable(c, p) && Stage(p, at) && at.acked <= at.n < 13 && at.n - at.acked < N_SEND_BUFFERS
    ensures Reachable(c, p') && Stage(p', at.(n := at.n + 1))
  {
    hide SenderAt, Holds, Wrote, PumpStep, Step, NextSlot, Reachable;
    assert |p.s.ep[0].written| == at.n && p.s.ep[0].pending.None? by { PlaceOf(p.s.ep[0], p.s.sent[0], at); }
    assert Sender(p.s.ep[0], p.s.sent[0]);
    YoungEnough(p.s.ep[0], p.s.sent[0], at);
    WroteIsSent(p.s.ep[0], p.s.sent[0], at);
    WriteSteps(p, c.limit);
    var p1 := PumpStep(p, Act(BeginWrite(0, OP_CONTROL_V1, [])), c.limit);
    ReachesNext(c, p, Act(BeginWrite(0, OP_CONTROL_V1, [])));
    ReachesNext(c, p1, Act(FinishWrite(0)));
    p' := PumpStep(p1, Act(FinishWrite(0)), c.limit);
    InvStays(p, Act(BeginWrite(0, OP_CONTROL_V1, [])), c.limit);
    InvStays(p1, Act(FinishWrite(0)), c.limit);
  }

  lemma PlaceOf(e: Endpoint, out: set<seq<u8>>, at: Place)
    requires SenderAt(e, out, at)
    ensures |e.written| == at.n && e.pending.None?
  {
  }

  lemma InvStays(p: Pumped, mv: Move, limit: nat)
    requires p.s.Shaped() && |p.open| == 2 && Inv(p.s)
    ensures Inv(PumpStep(p, mv, limit).s)
  {
    hide Step, Inv;
    if mv.Act? {
      StepKeeps(p.s, mv.a);
    }
  }

  // ---- a delivery ----

  lemma PutHolds(w: Window, written: seq<seq<u8>>, id: u32, payload: seq<u8>)
    requires Stored(w, written) && Put(w, id, payload).1 == PutAccepted
    ensures forall k: u32 :: Holds(Put(w, id, payload).0.entries, k) <==> Holds(w.entries, k) || k == id
    ensures Put(w, id, payload).0.packetId == w.packetId
  {
    StoredIsRecvInv(w, written);
    PutExactly(w, id, payload);
    var w' := Put(w, id, payload).0;
    var i :| 0 <= i < |w.entries| && !w.entries[i].active &&
      w'.entries == w.entries[i := w.entries[i].(active := true, packetId := id, nAcks := 0, payload := payload)];
    forall k: u32 ensures Holds(w'.entries, k) <==> Holds(w.entries, k) || k == id {
      if Holds(w.entries, k) {
        var j :| 0 <= j < |w.entries| && w.entries[j].active && w.entries[j].packetId == k;
        assert w'.entries[j] == w.entries[j];
      }
      assert w'.entries[i].active && w'.entries[i].packetId == id;
    }
  }

  /** Storing packet id and queueing its acknowledgement, as one. */
  function Took(e: Endpoint, cp: ControlPacket): Endpoint {
    e.(recv := Put(e.recv, cp.packetId, cp.payload).0, acks := AddAck(e.acks, cp.packetId))
  }

  lemma TookIsStored(s: System, d: seq<u8>, id: u32, at: Place)
    requires Inv(s) && ReceiverAt(s.ep[1], at) && d in s.sent[0] && CarriesId(d, id)
    requires id < N_REC_BUFFERS && id !in at.stored && id !in at.acks && |at.acks| < ACK_SIZE
    ensures Put(s.ep[1].recv, id, Decode(d).packet.payload).1 == PutAccepted
    ensures ReceiverAt(Took(s.ep[1], Decode(d).packet), at.(stored := at.stored + {id}, acks := at.acks + [id]))
  {
    hide Put, Sender, Stored, Decode;
    PutOfHonest(s.ep[0], s.ep[1], s.sent[0], d);
    PutHolds(s.ep[1].recv, s.ep[0].written, id, Decode(d).packet.payload);
  }

  lemma DeliverSteps(p: Pumped, d: seq<u8>, limit: nat)
    requires p.s.Shaped() && |p.open| == 2 && p.open[1] < limit && p.s.ep[1].toAck == []
    requires d in p.s.sent[0] && Decode(d).Parsed? && Decode(d).packet.opcode != OP_ACK_V1
    requires Put(p.s.ep[1].recv, Decode(d).packet.packetId, Decode(d).packet.payload).1 != PutRejected
    ensures PumpStep(PumpStep(p, Act(DeliverPayload(1, d)), limit), Act(QueueAck(1, 0)), limit)
         == Pumped(p.s.(ep := p.s.ep[1 := Took(p.s.ep[1], Decode(d).packet)]), p.open[1 := p.open[1] + 1])
  {
    hide Put, Decode, AddAck;
    var e, cp := p.s.ep[1], Decode(d).packet;
    var p1 := PumpStep(p, Act(DeliverPayload(1, d)), limit);
    var e1 := AbsorbPayload(e, cp);
    assert p1 == Pumped(p.s.(ep := p.s.ep[1 := e1]), p.open[1 := p.open[1] + 1]);
    assert e1.toAck == [cp.packetId] && QueueAckAt(e1, 0) == Took(e, cp);
    assert p1.s.ep[1 := Took(e, cp)] == p.s.ep[1 := Took(e, cp)];
  }

  lemma DeliverMoves(c: Setup, p: Pumped, at: Place, id: u32) returns (p': Pumped)
    requires Reachable(c, p) && Stage(p, at) && id < at.n && id < N_REC_BUFFERS && at.open < c.limit
    requires id !in at.stored && id !in at.acks && |at.acks| < ACK_SIZE
    ensures Reachable(c, p')
    ensures Stage(p', at.(stored := at.stored + {id}, acks := at.acks + [id], open := at.open + 1))
  {
    hide PumpStep, Step, Reachable, Inv, Took, CarriesId, Holds;
    assert InFlight(p.s.sent[0], id);
    var d :| d in p.s.sent[0] && CarriesId(d, id);
    TookIsStored(p.s, d, id, at);
    CarriedIs(d, id);
    DeliverSteps(p, d, c.limit);
    var p1 := PumpStep(p, Act(DeliverPayload(1, d)), c.limit);
    ReachesNext(c, p, Act(DeliverPayload(1, d)));
    ReachesNext(c, p1, Act(QueueAck(1, 0)));
    p' := PumpStep(p1, Act(QueueAck(1, 0)), c.limit);
    InvStays(p, Act(DeliverPayload(1, d)), c.limit);
    InvStays(p1, Act(QueueAck(1, 0)), c.limit);
  }

  lemma CarriedIs(d: seq<u8>, k: u32)
    requires CarriesId(d, k)
    ensures Decode(d).Parsed? && Decode(d).packet.opcode != OP_ACK_V1 && Decode(d).packet.packetId == k
  {
  }

  lemma GetHolds(w: Window)
    requires Get(w).1.Some?
    ensures Holds(w.entries, w.packetId)
  {
    var i := FirstWhere(w.entries, Holding(w.packetId));
    assert Holding(w.packetId)(w.entries[i]);
  }

  /** A delivery that finds packet 0 missing has nothing to read out. */
  lemma EndMove(c: Setup, p: Pumped, at: Place) returns (p': Pumped)
    requires Reachable(c, p) && Stage(p, at) && at.open > 0 && 0 !in at.stored
    ensures Reachable(c, p') && Stage(p', at.(open := at.open - 1))
  {
    hide Inv, Reachable, InFlight, Holds, Get;
    assert Get(p.s.ep[1].recv).1.None? by {
      if Get(p.s.ep[1].recv).1.Some? {
        GetHolds(p.s.ep[1].recv);
      }
    }
    ReachesNext(c, p, End(1));
    p' := PumpStep(p, End(1), c.limit);
  }

  // ---- an acknowledgement ----

  lemma FlushCarries(e: Endpoint)
    requires e.keyId < 8 && |e.acks| <= ACK_SIZE
    ensures var d := BuildPacket(e, OP_ACK_V1, 0, []);
            Decode(d).Parsed? && Decode(d).packet.acks == e.acks && e.acks[DrainCount(e.acks)..] == []
  {
    assert e.acks[..DrainCount(e.acks)] == e.acks;
    DecodeEncode(ControlPacket(OP_ACK_V1, e.keyId, e.localSid, e.acks, e.remoteSid, 0, []));
  }

  lemma AckSteps(p: Pumped, limit: nat)
    requires p.s.Shaped() && |p.open| == 2 && p.s.ep[1].keyId < 8 && 0 < |p.s.ep[1].acks| <= ACK_SIZE
    ensures var e0, e1 := p.s.ep[0], p.s.ep[1];
            var d := BuildPacket(e1, OP_ACK_V1, 0, []);
            PumpStep(PumpStep(p, Act(FlushAcks(1)), limit), Act(DeliverAcks(0, d)), limit)
              == Pumped(System([e0.(send := Ack(e0.send, e1.acks)), e1.(acks := [])], [p.s.sent[0], p.s.sent[1] + {d}]),
                        p.open)
  {
    hide Decode, Encode, Ack, BuildPacket, DrainCount;
    var e0, e1 := p.s.ep[0], p.s.ep[1];
    FlushCarries(e1);
    var d := BuildPacket(e1, OP_ACK_V1, 0, []);
    var p1 := PumpStep(p, Act(FlushAcks(1)), limit);
    assert p1 == Pumped(System(p.s.ep[1 := e1.(acks := [])], p.s.sent[1 := p.s.sent[1] + {d}]), p.open);
    assert p1.s.ep[0 := e0.(send := Ack(e0.send, e1.acks))] == [e0.(send := Ack(e0.send, e1.acks)), e1.(acks := [])];
    assert p1.s.sent == [p.s.sent[0], p.s.sent[1] + {d}];
  }

  lemma AckPurges(e: Endpoint, out: set<seq<u8>>, acks: seq<u32>, at: Place)
    requires SenderAt(e, out, at) && forall k: u32 :: at.acked <= k < at.n ==> k in acks
    ensures SenderAt(e.(send := Ack(e.send, acks)), out, at.(acked := at.n, acks := []))
  {
    var send := Ack(e.send, acks);
    forall i | 0 <= i < |send.entries| && send.entries[i].active
      ensures at.acked <= send.entries[i].packetId < at.n && send.entries[i].packetId !in acks
    {
      AckPurgesExactly(e.send.entries, acks, i);
    }
  }

  lemma AckMoves(c: Setup, p: Pumped, at: Place) returns (p': Pumped)
    requires Reachable(c, p) && Stage(p, at) && at.acks != []
    requires forall k: u32 :: at.acked <= k < at.n ==> k in at.acks
    ensures Reachable(c, p') && Stage(p', at.(acked := at.n, acks := []))
  {
    hide PumpStep, Step, Reachable, SenderAt, Holds, Ack, BuildPacket;
    var d := BuildPacket(p.s.ep[1], OP_ACK_V1, 0, []);
    assert Sender(p.s.ep[1], p.s.sent[1]);
    AckSteps(p, c.limit);
    AckPurges(p.s.ep[0], p.s.sent[0], at.acks, at);
    var p1 := PumpStep(p, Act(FlushAcks(1)), c.limit);
    ReachesNext(c, p, Act(FlushAcks(1)));
    ReachesNext(c, p1, Act(DeliverAcks(0, d)));
    p' := PumpStep(p1, Act(DeliverAcks(0, d)), c.limit);
    InvStays(p, Act(FlushAcks(1)), c.limit);
    InvStays(p1, Act(DeliverAcks(0, d)), c.limit);
  }

  // ---- the run ----

  lemma FirstStage(c: Setup) returns (p: Pumped)
    requires c.keyId < 8
    ensures Reachable(c, p) && Stage(p, Place(0, 0, {}, [], 0))
  {
    p := Begin(c.keyId, c.sid0, c.sid1);
    StartInv(c.keyId, c.sid0, c.sid1);
    assert p == RunOf(c, []);
  }

  /** Writes packets at.n to n - 1. */
  lemma Writes(c: Setup, p: Pumped, at: Place, n: nat) returns (p': Pumped)
    requires Reachable(c, p) && Stage(p, at) && at.acked <= at.n <= n <= 13 && n - at.acked <= N_SEND_BUFFERS
    ensures Reachable(c, p') && Stage(p', at.(n := n))
  {
    hide Reachable, Stage;
    p' := p;
    var now := at;
    while now.n < n
      invariant at.n <= now.n <= n && now == at.(n := now.n)
      invariant Reachable(c, p') && Stage(p', now)
    {
      p' := WriteMoves(c, p', now);
      now := now.(n := now.n + 1);
    }
  }

  /** Packets 1 to 5 arrive, each delivery with nothing to read out. */
  lemma EarlyFive(c: Setup, p: Pumped) returns (p': Pumped)
    requires Reachable(c, p) && Stage(p, Place(6, 0, {}, [], 0)) && c.limit > 0
    ensures Reachable(c, p') && Stage(p', Place(6, 0, {1, 2, 3, 4, 5}, [1, 2, 3, 4, 5], 0))
  {
    hide Reachable, Stage;
    p' := p;
    var now, id := Place(6, 0, {}, [], 0), 1;
    while id < 6
      invariant 1 <= id <= 6 && now.n == 6 && now.acked == 0 && now.open == 0 && |now.acks| == id - 1
      invariant forall k :: 0 <= k < id - 1 ==> now.acks[k] == k + 1
      invariant forall k :: k in now.stored <==> 1 <= k < id
      invariant Reachable(c, p') && Stage(p', now)
    {
      p' := DeliverMoves(c, p', now, id);
      now := now.(stored := now.stored + {id}, acks := now.acks + [id], open := 1);
      p' := EndMove(c, p', now);
      now := now.(open := 0);
      id := id + 1;
    }
    assert now.stored == {1, 2, 3, 4, 5} && now.acks == [1, 2, 3, 4, 5];
  }

  /** The delivery of packet 0 and that of packet 6 stop before they read anything out, and packets 7 to 12 are written:
      packet 12 lies past the window. */
  lemma TwoUnfinished(c: Setup) returns (p: Pumped, at: Place)
    requires c.keyId < 8 && c.limit >= 3
    ensures Reachable(c, p) && Stage(p, at) && at.n == 13 && at.open == 2
  {
    hide Reachable, Stage;
    p := FirstStage(c);
    p := Writes(c, p, Place(0, 0, {}, [], 0), 6);
    p := EarlyFive(c, p);
    at := Place(6, 0, {1, 2, 3, 4, 5}, [1, 2, 3, 4, 5], 0);
    p := DeliverMoves(c, p, at, 0);
    at := at.(stored := at.stored + {0}, acks := at.acks + [0], open := 1);
    assert at.acks == [1, 2, 3, 4, 5, 0];
    p := AckMoves(c, p, at);
    at := at.(acked := 6, acks := []);
    p := Writes(c, p, at, 7);
    at := at.(n := 7);
    p := DeliverMoves(c, p, at, 6);
    at := at.(stored := at.stored + {6}, acks := at.acks + [6], open := 2);
    p := AckMoves(c, p, at);
    at := at.(acked := 7, acks := []);
    p := Writes(c, p, at, 13);
    at := at.(n := 13);
  }

  lemma TwelveRefused(p: Pumped, at: Place, limit: nat) returns (d: seq<u8>)
    requires Stage(p, at) && at.n == 13 && at.open < limit
    ensures Refused(p, 1, d, limit)
  {
    hide Decode, Put, Sender, Stored, Holds;
    assert InFlight(p.s.sent[0], 12);
    d :| d in p.s.sent[0] && CarriesId(d, 12);
    PutOfHonest(p.s.ep[0], p.s.ep[1], p.s.sent[0], d);
  }

  // ---- the bound ----

  ghost predicate NeverRefuses(c: Setup) {
    forall moves, i, d :: !Refused(RunOf(c, moves), i, d, c.limit)
  }

  /** In no run is a packet refused that its receiver still needs, exactly if no more than two deliveries may be under
      way at once. */
  lemma NeverRefusedIff(c: Setup)
    requires c.keyId < 8
    ensures NeverRefuses(c) <==> c.limit <= 2
  {
    if c.limit <= 2 {
      hide PumpInv, Refused, PumpRun;
      forall moves, i, d ensures !Refused(RunOf(c, moves), i, d, c.limit) {
        BeginInv(c.keyId, c.sid0, c.sid1);
        PumpRunKeeps(Begin(c.keyId, c.sid0, c.sid1), moves, c.limit);
        InvNeverRefuses(RunOf(c, moves), i, d);
        FewerRefuse(RunOf(c, moves), i, d, c.limit);
      }
    } else {
      hide Refused, Stage, RunOf;
      var p, at := TwoUnfinished(c);
      var d := TwelveRefused(p, at, c.limit);
      var moves :| p == RunOf(c, moves);
      assert Refused(RunOf(c, moves), 1, d, c.limit);
    }
  }

  lemma FewerRefuse(p: Pumped, i: nat, d: seq<u8>, limit: nat)
    requires p.s.Shaped() && |p.open| == 2 && limit <= 2 && !Refused(p, i, d, 2)
    ensures !Refused(p, i, d, limit)
  {
    hide Decode, Put;
  }
}
