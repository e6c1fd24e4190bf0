/** The phases of a connection over every run: which FINs each stands for, exactly, and what closes it. */
module TcpPhases {
  import opened Words
  import opened Tcp
  import opened TcpReceive
  import opened TcpSend
  import opened TcpTimer
  import opened TcpRun
  import opened TcpSafety
  import opened TcpRetire
  import opened TcpInflow
  import opened TcpOutflow

  // ---- what closes a connection ----

  /** The FIN is acknowledged once this segment has been seen. */
  predicate FinIsAcked(s: Sender, seg: Segment) {
    s.finAcked || (seg.flags.ack && s.finSent && SeqDiff(seg.ackNum, Add32(s.finSeq, 1)) >= 0)
  }

  /** A segment closes an open connection exactly if it is a reset whose number lies in the window, if it answers the
      SYN-ACK with anything but its acknowledgement, or if it acknowledges the FIN in LAST_ACK; a reset is an error, the
      other two are not; and only the refused handshake is answered with a reset. */
  lemma SegmentClosesIff(c: Conn, seg: Segment)
    requires ConnOk(c) && c.phase != Closed
    ensures var (c', segments) := OnSegment(c, seg);
            var width := if Remaining(c.rcv) == 0 then 1 else Remaining(c.rcv);
            var reset := seg.flags.rst && Sub32(seg.seqNum, c.rcv.nxt) < width;
            var refused := !seg.flags.rst && c.phase == SynRcvd && !Completes(c, seg);
            && (c'.phase == Closed <==>
                  reset || refused || (!seg.flags.rst && c.phase == LastAck && FinIsAcked(c.snd, seg)))
            && c'.failed == (c.failed || reset)
            && (refused ==> segments == [BuildRst(seg)])
            && (seg.flags.rst ==> segments == [])
  {
    hide OnAck, OnData, AckOf, RstInWindow, Remaining, Sub32, FinIsAcked, HandleAck;
    RstInWindowIff(c, seg);
    AfterAck(c, seg);
    AckOfFin(c, seg);
    AfterData(OnAck(c, seg).0, seg);
    if c.phase == SynRcvd {
      AfterData(c.(phase := Established, snd := c.snd.(una := seg.ackNum, armed := false, running := false)), seg);
    }
  }

  lemma AckOfFin(c: Conn, seg: Segment)
    requires ConnOk(c)
    ensures OnAck(c, seg).0.snd.finAcked <==> FinIsAcked(c.snd, seg)
  {
    hide HandleAck, Remaining;
    HandleAckExactly(c.snd, seg, StampOf(c));
  }

  /** The acknowledgement of the SYN-ACK establishes the connection, and nothing is left for the timer. */
  lemma HandshakeEstablishes(c: Conn, seg: Segment)
    requires ConnOk(c) && Completes(c, seg)
    ensures var c' := OnSegment(c, seg).0;
            && c'.phase == Established && c'.snd == c.snd.(una := seg.ackNum, armed := false, running := false)
            && c'.failed == c.failed && c'.writeClosed == c.writeClosed
  {
    hide TakeData, RstInWindow, Remaining, HandleAck, Add32;
  }

  /** A reset sent in answer is one its receiver obeys: to a segment that acknowledges it carries the number that was
      acknowledged, which is the next the receiver expects; to any other it acknowledges all of the segment. */
  lemma ResetIsObeyed(seg: Segment, peer: Conn)
    ensures BuildRst(seg).flags.rst && BuildRst(seg).payload == []
    ensures seg.flags.ack && seg.ackNum == peer.rcv.nxt ==> RstInWindow(peer, BuildRst(seg))
    ensures !seg.flags.ack ==>
              && BuildRst(seg).flags.ack
              && Sub32(BuildRst(seg).ackNum, seg.seqNum) ==
                   |seg.payload| + (if seg.flags.syn then 1 else 0) + (if seg.flags.fin then 1 else 0)
  {
    RstInWindowIff(peer, BuildRst(seg));
  }

  /** An aborted connection is closed in error with its timer stopped, and resets its peer once if asked to, under the
      next number it would have sent. */
  lemma AbortCloses(c: Conn, reset: bool)
    requires ConnOk(c)
    ensures var (c', segments) := Abort(c, reset);
            && c'.phase == Closed && (c.phase == Closed ==> c' == c)
            && (c.phase != Closed ==> c'.failed && !c'.snd.running)
            && (segments != [] <==> reset && c.phase != Closed)
            && (segments != [] ==>
                  |segments| == 1 && segments[0].flags.rst && segments[0].seqNum == Add32(c.snd.una, c.snd.sent))
  {
  }

  /** CloseWrite, on a connection that may still send: a FIN numbered after everything written, once. */
  lemma CloseWriteSendsFin(c: Conn, base: u32, written: seq<u8>)
    requires GoodSender(c, base, written)
    ensures var (c', segments) := CloseWrite(c);
            && c'.writeClosed
            && if !c.writeClosed && (c.phase == Established || c.phase == CloseWait) then
                 && c'.phase == (if c.phase == Established then FinWait1 else LastAck) && c'.snd.finSent
                 && c'.snd.finSeq == Wrap32(base + |written|) && c'.snd.armed && c'.snd.running
                 && |segments| == 1 && segments[0].flags == FIN_ACK && segments[0].payload == []
                 && segments[0].seqNum == Wrap32(base + |written|)
               else segments == [] && c' == c.(writeClosed := true)
  {
    hide Wrap32, Remaining;
    WrapAdd(base + (|written| - |c.snd.out|), |c.snd.out|);
  }

  // ---- what each phase stands for ----

  lemma SendPendingKeepsFin(s: Sender, probe: bool, stamp: Stamp)
    requires SenderOk(s)
    ensures var s' := SendPending(s, probe, stamp).0; s'.finSent == s.finSent && s'.finAcked == s.finAcked
  {
    hide SendLoop;
    SendLoopKeepsOk(s, if Allowed(s) == 0 then s.sent + 1 else Allowed(s), probe, stamp);
  }

  lemma {:induction false} DrainKeepsClosed(r: Receiver)
    ensures Drain(r).closed == r.closed
    decreases |r.reorder|
  {
    if r.nxt in r.reorder && |r.reorder[r.nxt]| <= Remaining(r) {
      var data := r.reorder[r.nxt];
      DrainKeepsClosed(r.(reorder := r.reorder - {r.nxt}, buf := r.buf + data, nxt := Add32(r.nxt, |data|)));
    }
  }

  lemma TakeDataClosesIff(r: Receiver, seg: Segment)
    ensures TakeData(r, seg).0.closed <==> r.closed || TakeData(r, seg).1
  {
    hide Drain, Remaining;
    var accept := Min(|seg.payload|, Remaining(r));
    DrainKeepsClosed(r.(buf := r.buf + seg.payload[..accept], nxt := Add32(r.nxt, accept)));
  }

  /** The phase is the one that this end's FIN, its acknowledgement and the peer's FIN call for. A peer's FIN that came
      with the handshake's acknowledgement (early) is taken in without a change of phase. */
  predicate PhaseOf(c: Conn, early: bool) {
    && (c.snd.finAcked ==> c.snd.finSent)
    && match c.phase
       case SynRcvd => !c.snd.finSent && !c.rcv.closed
       case Established => !c.snd.finSent && (c.rcv.closed ==> early)
       case CloseWait => !c.snd.finSent && c.rcv.closed
       case FinWait1 => c.snd.finSent && !c.snd.finAcked && (c.rcv.closed ==> early)
       case FinWait2 => c.snd.finAcked && (c.rcv.closed ==> early)
       case Closing => c.snd.finSent && !c.snd.finAcked && c.rcv.closed
       case LastAck => c.snd.finSent && !c.snd.finAcked && c.rcv.closed
       case TimeWait => c.snd.finAcked && c.rcv.closed
       case Closed => true
  }

  /** The handshake's acknowledgement brought the peer's FIN. */
  ghost predicate FinCameEarly(run: seq<Trace>, k: nat)
    requires k < |run|
  {
    exists j: nat :: EarlyAt(run, j) && j < k
  }

  predicate EarlyAt(run: seq<Trace>, j: nat) {
    && j + 1 < |run|
    && run[j].conn.phase == SynRcvd && run[j + 1].conn.phase == Established && run[j + 1].conn.rcv.closed
  }

  lemma HandshakePhase(c: Conn, seg: Segment, early: bool)
    requires ConnOk(c) && PhaseOf(c, early) && c.phase == SynRcvd
    requires OnSegment(c, seg).0.phase == Established && OnSegment(c, seg).0.rcv.closed ==> early
    ensures PhaseOf(OnSegment(c, seg).0, early)
  {
    hide TakeData, RstInWindow, Remaining, HandleAck, Add32;
  }

  lemma AfterAck(c: Conn, seg: Segment)
    requires ConnOk(c)
    ensures var c1 := OnAck(c, seg).0;
            && ConnOk(c1) && c1 == c.(snd := c1.snd) && c1.snd.finSent == c.snd.finSent
            && (c.snd.finAcked ==> c1.snd.finAcked) && (c1.snd.finAcked ==> c.snd.finAcked || c.snd.finSent)
  {
    hide HandleAck, Remaining;
    HandleAckKeepsOk(c.snd, seg, StampOf(c));
    HandleAckExactly(c.snd, seg, StampOf(c));
  }

  lemma AfterData(c: Conn, seg: Segment)
    requires ConnOk(c)
    ensures var (c1, fin, _) := OnData(c, seg);
            c1 == c.(rcv := c1.rcv) && (c1.rcv.closed <==> c.rcv.closed || fin)
  {
    hide TakeData, Remaining;
    TakeDataClosesIff(c.rcv, seg);
  }

  lemma SegmentPhase(c: Conn, seg: Segment, early: bool)
    requires ConnOk(c) && PhaseOf(c, early) && c.phase != SynRcvd
    ensures PhaseOf(OnSegment(c, seg).0, early)
  {
    hide OnAck, OnData, RstInWindow, AckOf, HandleAck;
    AfterAck(c, seg);
    AfterData(OnAck(c, seg).0, seg);
  }

  lemma OthersPhase(c: Conn, data: seq<u8>, reset: bool, early: bool)
    requires ConnOk(c) && PhaseOf(c, early)
    ensures PhaseOf(WriteSome(c, data).0, early)
    ensures PhaseOf(CloseWrite(c).0, early)
    ensures PhaseOf(Abort(c, reset).0, early)
  {
    hide SendPending, Remaining;
    SendPendingKeepsFin(c.snd.(out := c.snd.out + data[..Min(|data|, MAX_IN_FLIGHT - |c.snd.out|)]), false, StampOf(c));
  }

  /** Closed or as it was, with the same FINs. */
  predicate SameOrClosed(c: Conn, c': Conn) {
    && c'.rcv == c.rcv && c'.snd.finSent == c.snd.finSent && c'.snd.finAcked == c.snd.finAcked
    && (c'.phase == c.phase || c'.phase == Closed)
  }

  lemma RetransmitSame(c: Conn, segment: Segment)
    requires ConnOk(c)
    ensures SameOrClosed(c, Retransmit(c, segment).0)
  {
  }

  lemma ProbeSame(c: Conn)
    requires ConnOk(c)
    ensures SameOrClosed(c, Probe(c).0)
  {
    hide SendPending, Remaining;
    SendPendingKeepsFin(c.snd.(probes := c.snd.probes + 1), true, StampOf(c));
  }

  lemma TimerPhase(c: Conn, early: bool)
    requires ConnOk(c) && PhaseOf(c, early)
    ensures PhaseOf(OnTimer(c).0, early)
  {
    hide Retransmit, Probe, Unanswered;
    RetransmitSame(c, Unanswered(c));
    ProbeSame(c);
  }

  lemma StepPhase(t: Trace, e: Event, early: bool)
    requires ConnOk(t.conn) && PhaseOf(t.conn, early)
    requires var c := Step(t, e).conn;
             t.conn.phase == SynRcvd && c.phase == Established && c.rcv.closed ==> early
    ensures PhaseOf(Step(t, e).conn, early)
  {
    hide OnSegment, WriteSome, CloseWrite, OnTimer, Abort, PhaseOf;
    match e
    case Deliver(seg) =>
      if t.conn.phase == SynRcvd {
        HandshakePhase(t.conn, seg, early);
      } else {
        SegmentPhase(t.conn, seg, early);
      }
    case Write(data) => OthersPhase(t.conn, data, false, early);
    case Read(room) => ReadPhase(t.conn, room, early);
    case FinishWriting => OthersPhase(t.conn, [], false, early);
    case TimerFires(stale) =>
      NotRunningPhase(t.conn, early);
      TimerPhase(if stale then t.conn else t.conn.(snd := t.conn.snd.(running := false)), early);
    case Kill(reset) => OthersPhase(t.conn, [], reset, early);
  }

  lemma ReadPhase(c: Conn, room: nat, early: bool)
    requires PhaseOf(c, early)
    ensures PhaseOf(ReadSome(c, room).0, early)
  {
  }

  lemma NotRunningPhase(c: Conn, early: bool)
    requires PhaseOf(c, early)
    ensures PhaseOf(c.(snd := c.snd.(running := false)), early)
  {
  }

  lemma LaterPhase(c: Conn, early: bool, early': bool)
    requires PhaseOf(c, early) && (early ==> early')
    ensures PhaseOf(c, early')
  {
  }

  /** In every run the phase of an open connection is exactly the one the FINs call for: this end's sent or not, and
      acknowledged or not, the peer's taken in or not; but for a peer's FIN that came with the handshake's
      acknowledgement. */
  lemma {:induction false} PhasesAreExact(run: seq<Trace>, events: seq<Event>, k: nat)
    requires IsRun(run, events) && k < |run|
    ensures PhaseOf(run[k].conn, FinCameEarly(run, k))
  {
    hide Step, PhaseOf;
    if k > 0 {
      PhasesAreExact(run, events, k - 1);
      LaterPhase(run[k - 1].conn, FinCameEarly(run, k - 1), FinCameEarly(run, k));
      assert EarlyAt(run, k - 1) ==> FinCameEarly(run, k);
      assert ConnOk(run[k - 1].conn);
      StepPhase(run[k - 1], events[k - 1], FinCameEarly(run, k));
    } else {
      StartPhase(run[0]);
      LaterPhase(run[0].conn, false, FinCameEarly(run, 0));
    }
  }

  lemma StartPhase(t: Trace)
    requires exists isn: u32, clientIsn: u32, window: u16, mss: u16 :: t == Start(isn, clientIsn, window, mss)
    ensures PhaseOf(t.conn, false)
  {
  }

  /** The exception is real: after a FIN on the handshake's acknowledgement the connection stays ESTABLISHED with the
      peer's stream closed. */
  lemma EarlyFinStaysEstablished(isn: u32, clientIsn: u32, window: u16, mss: u16)
    ensures var t0 := Start(isn, clientIsn, window, mss);
            var fin := Deliver(Segment(Add32(clientIsn, 1), Add32(isn, 1), FIN_ACK, window, []));
            var t1 := Step(t0, fin);
            IsRun([t0, t1], [fin]) && FinCameEarly([t0, t1], 1) && t1.conn.phase == Established && t1.conn.rcv.closed
  {
    var t0 := Start(isn, clientIsn, window, mss);
    var fin := Deliver(Segment(Add32(clientIsn, 1), Add32(isn, 1), FIN_ACK, window, []));
    var t1 := Step(t0, fin);
    var run := [t0, t1];
    assert Buffered(map[]) == 0;
    assert t1.conn.phase == Established && t1.conn.rcv.closed;
    assert run[0] == Start(isn, clientIsn, window, mss);
    assert EarlyAt(run, 0);
  }
}
