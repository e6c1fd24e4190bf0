/** tcpConn in place: its locked operations with their loops, each proved to be the operation on values. */
module TcpConnection {
  import opened Words
  import T = Tcp
  import R = TcpReceive

  /** One turn of the sending loop, or its end. */
  lemma LoopTurn(s: T.Sender, limit: nat, probe: bool, stamp: T.Stamp)
    requires T.SenderOk(s)
    ensures var all := T.SendLoop(s, limit, probe, stamp);
            if s.sent < limit && s.sent < |s.out| && T.Chunk(s, limit) > 0 then
              var chunk := T.Chunk(s, limit);
              var s' := s.(sent := s.sent + chunk);
              var rest := if probe then (s', []) else T.SendLoop(s', limit, probe, stamp);
              all.0 == rest.0 && all.1 == [T.DataSegment(s, s.sent, chunk, stamp)] + rest.1
            else all == (s, [])
  {
  }

  class TcpConn {
    var phase: T.Phase
    var snd: T.Sender
    var rcv: T.Receiver
    var failed: bool
    var writeClosed: bool

    function View(): T.Conn
      reads this
    {
      T.Conn(phase, snd, rcv, failed, writeClosed)
    }

    predicate Valid()
      reads this
    {
      T.SenderOk(snd)
    }

    constructor (isn: u32, clientIsn: u32, window: u16, mss: u16)
      ensures Valid() && View() == T.NewConn(isn, clientIsn, window, mss)
    {
      phase, failed, writeClosed := T.SynRcvd, false, false;
      snd := T.Sender(isn, window, mss, [], 0, false, false, 0, true, true, 0, 0, T.INITIAL_RTO);
      rcv := T.Receiver(Add32(clientIsn, 1), [], map[], false, 0, false);
    }

    // ---- receiving ----

    method RecvWindowRemaining() returns (n: u16)
      ensures n == T.Remaining(rcv)
    {
      var used, rest := |rcv.buf|, rcv.reorder;
      while rest != map[]
        invariant used + T.Buffered(rest) == T.Used(rcv)
        decreases |rest|
      {
        var k :| k in rest;
        R.BufferedRemove(rest, k);
        used := used + |rest[k]|;
        rest := rest - {k};
      }
      if used >= T.RECEIVE_WINDOW {
        return 0;
      }
      return T.RECEIVE_WINDOW - used;
    }

    method BuildAck() returns (ack: T.Segment)
      requires Valid()
      ensures ack == T.AckOf(View())
    {
      var window := RecvWindowRemaining();
      return T.Segment(Add32(snd.una, snd.sent), rcv.nxt, T.ACK, window, []);
    }

    /** The drain loop of the in-order arm. */
    method DrainReorder()
      modifies this`rcv
      ensures rcv == T.Drain(old(rcv))
    {
      while true
        invariant T.Drain(rcv) == T.Drain(old(rcv))
        decreases |rcv.reorder|
      {
        if rcv.nxt !in rcv.reorder {
          return;
        }
        var data := rcv.reorder[rcv.nxt];
        var remaining := RecvWindowRemaining();
        if |data| > remaining {
          return;
        }
        rcv := rcv.(reorder := rcv.reorder - {rcv.nxt}, buf := rcv.buf + data, nxt := Add32(rcv.nxt, |data|));
      }
    }

    method TakeInOrder(seg: T.Segment) returns (fin: bool)
      modifies this`rcv
      ensures (rcv, fin) == T.TakeInOrder(old(rcv), seg)
    {
      fin := false;
      var n := |seg.payload|;
      var avail := RecvWindowRemaining();
      var accept := n;
      if accept > avail {
        accept := avail;
      }
      rcv := rcv.(buf := rcv.buf + seg.payload[..accept], nxt := Add32(rcv.nxt, accept));
      if accept < n {
        return;
      }
      DrainReorder();
      if seg.flags.fin && Add32(seg.seqNum, n) == rcv.nxt {
        rcv := rcv.(nxt := Add32(rcv.nxt, 1), closed := true);
        fin := true;
      } else if rcv.hasFin && rcv.nxt == rcv.finSeq {
        rcv := rcv.(nxt := Add32(rcv.nxt, 1), closed := true, hasFin := false);
        fin := true;
      }
    }

    method HandleEstablishedData(seg: T.Segment) returns (fin: bool, toSend: seq<T.Segment>)
      requires Valid()
      modifies this`rcv
      ensures Valid() && (View(), fin, toSend) == T.OnData(old(View()), seg)
    {
      fin := false;
      if seg.payload == [] && !seg.flags.fin {
        return false, [];
      }
      if seg.seqNum == rcv.nxt {
        fin := TakeInOrder(seg);
      } else if T.SeqGT(seg.seqNum, rcv.nxt) {
        if seg.seqNum !in rcv.reorder {
          var remaining := RecvWindowRemaining();
          if |rcv.reorder| < T.MAX_REORDER && |seg.payload| <= remaining {
            rcv := rcv.(reorder := rcv.reorder[seg.seqNum := seg.payload]);
            if seg.flags.fin {
              rcv := rcv.(hasFin := true, finSeq := Add32(seg.seqNum, |seg.payload|));
            }
          }
        }
      }
      var ack := BuildAck();
      toSend := [ack];
    }

    /** What Read does with the lock held. */
    method Read(room: nat) returns (bytes: seq<u8>, eof: bool)
      modifies this`rcv
      ensures (View(), bytes) == T.ReadSome(old(View()), room)
      ensures eof <==> T.ReadsEof(old(View()))
    {
      if |rcv.buf| > 0 {
        var n := T.Min(room, |rcv.buf|);
        bytes := rcv.buf[..n];
        rcv := rcv.(buf := rcv.buf[n..]);
        return bytes, false;
      }
      bytes := [];
      eof := !failed && rcv.closed;
    }

    // ---- sending ----

    /** The loop of sendPendingLocked. */
    method SendSegments(limit: nat, probe: bool, stamp: T.Stamp) returns (toSend: seq<T.Segment>)
      requires Valid()
      modifies this`snd
      ensures Valid() && snd == T.SendLoop(old(snd), limit, probe, stamp).0
      ensures toSend == T.SendLoop(old(snd), limit, probe, stamp).1
    {
      hide T.SendLoop;
      toSend := [];
      while snd.sent < limit && snd.sent < |snd.out|
        invariant Valid()
        invariant T.SendLoop(old(snd), limit, probe, stamp).0 == T.SendLoop(snd, limit, probe, stamp).0
        invariant T.SendLoop(old(snd), limit, probe, stamp).1 == toSend + T.SendLoop(snd, limit, probe, stamp).1
        decreases |snd.out| - snd.sent
      {
        LoopTurn(snd, limit, probe, stamp);
        var chunk := T.Min(T.Min(limit - snd.sent, |snd.out| - snd.sent), snd.mss);
        if chunk == 0 {
          return;
        }
        toSend := toSend + [T.Segment(Add32(snd.una, snd.sent), stamp.ackNum, T.ACK, stamp.window,
                                      snd.out[snd.sent..snd.sent + chunk])];
        snd := snd.(sent := snd.sent + chunk);
        if probe {
          return;
        }
      }
      LoopTurn(snd, limit, probe, stamp);
    }

    method SendPending(probe: bool) returns (toSend: seq<T.Segment>)
      requires Valid()
      modifies this`snd
      ensures Valid()
      ensures (snd, toSend) == T.SendPending(old(snd), probe, T.StampOf(old(View())))
    {
      hide T.SendLoop, T.Remaining;
      var limit := T.Min(snd.wnd, T.MAX_IN_FLIGHT);
      if limit == 0 {
        if !probe || snd.sent >= |snd.out| {
          if |snd.out| > snd.sent && !snd.armed {
            snd := snd.(armed := true, rto := T.INITIAL_RTO, running := true);
          }
          return [];
        }
        limit := snd.sent + 1;
      }
      var window := RecvWindowRemaining();
      toSend := SendSegments(limit, probe, T.Stamp(rcv.nxt, window));
      if toSend != [] && !probe {
        snd := snd.(rto := T.INITIAL_RTO, retransmits := 0, armed := true, running := true);
      }
    }

    /** The first part of handleAckLocked. */
    method DropAcked(ackNum: u32)
      requires Valid()
      modifies this`snd
      ensures Valid() && T.Acked(old(snd), ackNum) <= old(snd).sent
      ensures snd == T.DropAcked(old(snd), T.Acked(old(snd), ackNum))
    {
      T.AckedIsInFlight(snd, ackNum);
      if snd.sent > 0 && T.SeqGT(ackNum, snd.una) {
        var covered, maxCovered := ackNum, Add32(snd.una, snd.sent);
        if T.SeqGT(covered, maxCovered) {
          covered := maxCovered;
        }
        var amount := Sub32(covered, snd.una);
        if amount > 0 {
          snd := snd.(out := snd.out[amount..], sent := snd.sent - amount, una := covered);
          snd := snd.(retransmits := 0, rto := T.INITIAL_RTO);
          snd := snd.(armed := snd.sent > 0, running := snd.sent > 0);
        }
      }
    }

    method HandleAck(seg: T.Segment) returns (toSend: seq<T.Segment>)
      requires Valid()
      modifies this`snd
      ensures Valid()
      ensures (snd, toSend) == T.HandleAck(old(snd), seg, T.StampOf(old(View())))
    {
      hide T.SendPending, T.Acked, T.SeqGE, T.DropAcked, T.Remaining;
      if !seg.flags.ack {
        return [];
      }
      DropAcked(seg.ackNum);
      if snd.finSent && !snd.finAcked && T.SeqGE(seg.ackNum, Add32(snd.finSeq, 1)) {
        snd := snd.(finAcked := true);
        if snd.sent == 0 {
          snd := snd.(armed := false, running := false);
        }
      }
      if snd.wnd == 0 && seg.window > 0 {
        snd := snd.(probes := 0);
      }
      snd := snd.(wnd := seg.window);
      toSend := SendPending(false);
    }

    /** One locked round of Write. */
    method WriteRound(data: seq<u8>) returns (taken: nat, toSend: seq<T.Segment>)
      requires Valid()
      modifies this`snd
      ensures Valid() && (View(), toSend) == T.WriteSome(old(View()), data)
      ensures taken == T.Min(|data|, T.MAX_IN_FLIGHT - |old(snd).out|)
    {
      taken := T.MAX_IN_FLIGHT - |snd.out|;
      if taken > |data| {
        taken := |data|;
      }
      snd := snd.(out := snd.out + data[..taken]);
      toSend := SendPending(false);
    }

    method CloseWrite() returns (toSend: seq<T.Segment>)
      requires Valid()
      modifies this
      ensures Valid() && (View(), toSend) == T.CloseWrite(old(View()))
    {
      if writeClosed {
        return [];
      }
      writeClosed := true;
      if phase != T.Established && phase != T.CloseWait {
        return [];
      }
      var window := RecvWindowRemaining();
      var finSeq := Add32(snd.una, |snd.out|);
      snd := snd.(finSeq := finSeq, finSent := true);
      toSend := [T.Segment(finSeq, rcv.nxt, T.FIN_ACK, window, [])];
      snd := snd.(rto := T.INITIAL_RTO, retransmits := 0, armed := true, running := true);
      phase := if phase == T.Established then T.FinWait1 else T.LastAck;
    }

    // ---- segments and the timer ----

    method Shut(failed: bool)
      modifies this
      ensures View() == T.Shut(old(View()), failed)
    {
      phase, snd, this.failed := T.Closed, snd.(running := false), failed;
    }

    method StartTimeWait()
      modifies this
      ensures View() == T.StartTimeWait(old(View()))
    {
      phase, snd := T.TimeWait, snd.(armed := true, running := true);
    }

    method RstInWindow(seg: T.Segment) returns (ok: bool)
      ensures ok <==> T.RstInWindow(View(), seg)
    {
      var wnd := RecvWindowRemaining();
      if wnd == 0 {
        return seg.seqNum == rcv.nxt;
      }
      return T.SeqGE(seg.seqNum, rcv.nxt) && T.SeqGT(Add32(rcv.nxt, wnd), seg.seqNum);
    }

    method HandleHandshake(seg: T.Segment) returns (toSend: seq<T.Segment>)
      requires Valid()
      modifies this
      ensures Valid() && (View(), toSend) == T.OnHandshake(old(View()), seg)
    {
      if !seg.flags.ack || seg.ackNum != Add32(snd.una, 1) {
        Shut(failed);
        return [T.BuildRst(seg)];
      }
      phase, snd := T.Established, snd.(una := seg.ackNum, armed := false, running := false);
      var fin;
      fin, toSend := HandleEstablishedData(seg);
    }

    /** The phase change after a segment in a phase that takes acknowledgements. */
    method Advance(fin: bool)
      requires Valid()
      modifies this
      ensures Valid() && View() == T.Advance(old(View()), fin)
    {
      match phase
      case Established =>
        if fin {
          phase := T.CloseWait;
        }
      case FinWait1 =>
        if fin && snd.finAcked {
          StartTimeWait();
        } else if fin {
          phase := T.Closing;
        } else if snd.finAcked {
          phase := T.FinWait2;
        }
      case FinWait2 =>
        if fin {
          StartTimeWait();
        }
      case Closing =>
        if snd.finAcked {
          StartTimeWait();
        }
      case LastAck =>
        if snd.finAcked {
          Shut(failed);
        }
      case _ =>
    }

    method HandleSegment(seg: T.Segment) returns (toSend: seq<T.Segment>)
      requires Valid()
      modifies this
      ensures Valid() && (View(), toSend) == T.OnSegment(old(View()), seg)
    {
      toSend := [];
      if seg.flags.rst {
        var ok := RstInWindow(seg);
        if ok {
          Shut(true);
        }
        return;
      }
      if phase == T.SynRcvd {
        toSend := HandleHandshake(seg);
      } else if phase == T.TimeWait {
        if seg.flags.fin {
          var ack := BuildAck();
          toSend := [ack];
        }
      } else if phase != T.Closed {
        toSend := HandleAck(seg);
        if phase == T.Closing || phase == T.LastAck {
          Advance(false);
        } else if phase != T.CloseWait {
          var fin, acks := HandleEstablishedData(seg);
          Advance(fin);
          toSend := toSend + acks;
        }
      }
    }

    method GiveUp() returns (toSend: seq<T.Segment>)
      requires Valid()
      modifies this
      ensures Valid() && View() == T.Shut(old(View()), true) && toSend == [T.Rst(old(View()))]
    {
      toSend := [T.Segment(Add32(snd.una, snd.sent), rcv.nxt, T.RST_ACK, 0, [])];
      Shut(true);
    }

    method Retransmit(segment: T.Segment) returns (toSend: seq<T.Segment>)
      requires Valid()
      modifies this
      ensures Valid() && (View(), toSend) == T.Retransmit(old(View()), segment)
    {
      snd := snd.(retransmits := snd.retransmits + 1);
      if snd.retransmits > T.MAX_RETRANSMITS {
        toSend := GiveUp();
        return;
      }
      snd := snd.(rto := T.DoubleRto(snd.rto), running := true);
      toSend := [segment];
    }

    method OnRtoFired() returns (toSend: seq<T.Segment>)
      requires Valid()
      modifies this
      ensures Valid() && (View(), toSend) == T.OnTimer(old(View()))
    {
      toSend := [];
      if phase == T.Closed {
        return;
      }
      if phase == T.TimeWait {
        Shut(failed);
        return;
      }
      var window := RecvWindowRemaining();
      if phase == T.SynRcvd {
        toSend := Retransmit(T.Segment(snd.una, rcv.nxt, T.SYN_ACK, window, []));
      } else if snd.sent > 0 {
        var chunk := T.Min(snd.sent, snd.mss);
        toSend := Retransmit(T.DataSegment(snd, 0, chunk, T.Stamp(rcv.nxt, window)));
      } else if snd.finSent && !snd.finAcked {
        toSend := Retransmit(T.Segment(snd.finSeq, rcv.nxt, T.FIN_ACK, window, []));
      } else if snd.wnd == 0 && |snd.out| > snd.sent {
        snd := snd.(probes := snd.probes + 1);
        if snd.probes > T.MAX_PERSIST_PROBES {
          toSend := GiveUp();
          return;
        }
        toSend := SendPending(true);
        snd := snd.(running := true);
      } else {
        snd := snd.(armed := false);
      }
    }
  }
}
