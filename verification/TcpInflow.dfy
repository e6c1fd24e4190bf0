/** What a connection does with what arrives, over every run: it is taken in, nothing accepted is lost, and
    everything sent reports it. */
module TcpInflow {
  import opened Words
  import opened Tcp
  import opened TcpReceive
  import opened TcpSend
  import opened TcpTimer
  import opened TcpRun
  import opened TcpSafety
  import opened TcpTakeIn

  // ---- receiving ----

  /** A segment that completes the handshake. */
  predicate Completes(c: Conn, seg: Segment) {
    c.phase == SynRcvd && !seg.flags.rst && seg.flags.ack && seg.ackNum == Add32(c.snd.una, 1)
  }

  /** The phases in which the peer may still send data. */
  predicate TakesData(c: Conn, seg: Segment) {
    Completes(c, seg) || (!seg.flags.rst && (c.phase == Established || c.phase == FinWait1 || c.phase == FinWait2))
  }

  lemma SegmentTakesData(c: Conn, seg: Segment)
    requires ConnOk(c)
    ensures OnSegment(c, seg).0.rcv == if TakesData(c, seg) then TakeData(c.rcv, seg).0 else c.rcv
  {
    hide HandleAck, TakeData, RstInWindow, Remaining;
  }

  lemma TakeDataKeepsBytes(r: Receiver, seg: Segment, base: u32, peer: seq<u8>, read: seq<u8>, x: nat)
    requires StreamInv(r, base, peer, read) && FromPeer(seg, base, peer) && Has(r, base, read, x)
    ensures Has(TakeData(r, seg).0, base, read, x)
  {
    hide StreamInv, FromPeer, Has, TakeInOrder, KeepEarly;
    if ConsumesSeq(seg) && seg.seqNum == r.nxt {
      InOrderTakes(r, seg, base, peer, read);
    } else if ConsumesSeq(seg) && SeqGT(seg.seqNum, r.nxt) {
      EarlyIsKept(r, seg, base, peer, read);
    }
  }

  lemma ReadKeepsBytes(c: Conn, room: nat, base: u32, read: seq<u8>, x: nat)
    requires Has(c.rcv, base, read, x)
    ensures Has(ReadSome(c, room).0.rcv, base, read + ReadSome(c, room).1, x)
  {
    var r, r' := c.rcv, ReadSome(c, room).0.rcv;
    assert forall q :: KeptHolds(r', base, q, x) <==> KeptHolds(r, base, q, x);
  }

  /** In every run, a byte of the peer's stream once accepted, taken in or kept early, stays accepted. */
  lemma AcceptedStays(run: seq<Trace>, events: seq<Event>, peer: seq<u8>, k: nat, x: nat)
    requires IsRun(run, events) && k < |events| && |peer| < TWO31 && PeerSends(run, events, peer)
    requires Has(run[k].conn.rcv, run[0].peerBase, run[k].read, x)
    ensures Has(run[k + 1].conn.rcv, run[0].peerBase, run[k + 1].read, x)
  {
    hide OnSegment, WriteSome, CloseWrite, Fire, Abort, ReadSome, StreamInv, TakeData, Has, FromPeer;
    var t, base := run[k], run[0].peerBase;
    StreamHolds(run, events, peer, k);
    match events[k]
    case Deliver(seg) =>
      SegmentTakesData(t.conn, seg);
      TakeDataKeepsBytes(t.conn.rcv, seg, base, peer, t.read, x);
    case Read(room) => ReadKeepsBytes(t.conn, room, base, t.read, x);
    case Write(data) => OthersLeaveReceiver(t.conn, data, false, false);
    case FinishWriting => OthersLeaveReceiver(t.conn, [], false, false);
    case TimerFires(stale) => OthersLeaveReceiver(t.conn, [], stale, false);
    case Kill(reset) => OthersLeaveReceiver(t.conn, [], false, reset);
  }

  /** In every run against a peer that sends one stream, a segment in order: what fits the window is taken in; if
      that is all of it, so is everything kept early that follows on, and the peer's FIN exactly if the stream is
      complete and its FIN has come. */
  lemma InOrderIsTaken(run: seq<Trace>, events: seq<Event>, peer: seq<u8>, k: nat)
    requires IsRun(run, events) && k < |events| && |peer| < TWO31 && PeerSends(run, events, peer)
    requires events[k].Deliver? && TakesData(run[k].conn, events[k].seg) && ConsumesSeq(events[k].seg)
    requires events[k].seg.seqNum == run[k].conn.rcv.nxt
    ensures var seg, base, r, r' := events[k].seg, run[0].peerBase, run[k].conn.rcv, run[k + 1].conn.rcv;
            var read, accept := run[k].read, Min(|seg.payload|, Remaining(run[k].conn.rcv));
            && run[k + 1].read == read && read + r.buf + seg.payload[..accept] <= read + r'.buf <= peer
            && (accept == |seg.payload| ==>
                  && NothingFollows(r', Wrap32(base + Taken(r', read)))
                  && (r'.closed <==> read + r'.buf == peer && (seg.flags.fin || r.hasFin)))
  {
    hide OnSegment, StreamInv, TakeData, Has, FromPeer, NothingFollows, Remaining;
    var seg, base, t := events[k].seg, run[0].peerBase, run[k];
    StreamHolds(run, events, peer, k);
    ReadIsPrefixOfStream(run, events, peer, k + 1);
    SegmentTakesData(t.conn, seg);
    InOrderTakes(t.conn.rcv, seg, base, peer, t.read);
    var buf := t.conn.rcv.buf + seg.payload[..Min(|seg.payload|, Remaining(t.conn.rcv))];
    assert t.read + buf == t.read + t.conn.rcv.buf + seg.payload[..Min(|seg.payload|, Remaining(t.conn.rcv))];
    assert t.read + run[k + 1].conn.rcv.buf == (t.read + buf) + run[k + 1].conn.rcv.buf[|buf|..];
  }

  /** In every run, Read returns the next bytes of what has been taken in, as many as there are and as fit. */
  lemma ReadReturns(run: seq<Trace>, events: seq<Event>, k: nat)
    requires IsRun(run, events) && k < |events| && events[k].Read?
    ensures var n := Min(events[k].room, |run[k].conn.rcv.buf|);
            && run[k + 1].read == run[k].read + run[k].conn.rcv.buf[..n]
            && run[k + 1].conn.rcv.buf == run[k].conn.rcv.buf[n..]
  {
    assert run[k + 1] == Step(run[k], events[k]);
  }

  /** In every run against a peer that sends one stream, Read reports its end exactly once all of it has been read
      and its FIN taken in, on a connection that has not failed. */
  lemma EofIff(run: seq<Trace>, events: seq<Event>, peer: seq<u8>, k: nat)
    requires IsRun(run, events) && k < |run| && |peer| < TWO31 && PeerSends(run, events, peer)
    ensures ReadsEof(run[k].conn) <==> run[k].read == peer && run[k].conn.rcv.closed && !run[k].conn.failed
  {
    StreamHolds(run, events, peer, k);
    ReadIsPrefixOfStream(run, events, peer, k);
    if run[k].read == peer {
      assert |run[k].read + run[k].conn.rcv.buf| <= |peer|;
    }
  }

  // ---- acknowledging ----

  /** A segment that has to be answered with an acknowledgement: one that takes sequence space while the peer may send,
      or a FIN that comes again in TIME_WAIT. */
  predicate MustAck(c: Conn, seg: Segment) {
    || (TakesData(c, seg) && ConsumesSeq(seg))
    || (c.phase == TimeWait && !seg.flags.rst && seg.flags.fin)
  }

  /** The segment acknowledges what r has taken in and advertises what is left of its window. */
  ghost predicate Reports(seg: Segment, r: Receiver) {
    seg.flags.rst || (seg.flags.ack && seg.ackNum == r.nxt && seg.window == Remaining(r))
  }

  ghost predicate AllReport(segments: seq<Segment>, r: Receiver) {
    forall i :: 0 <= i < |segments| ==> Reports(segments[i], r)
  }

  lemma {:induction false} SendLoopReports(s: Sender, limit: nat, probe: bool, r: Receiver)
    requires SenderOk(s)
    ensures AllReport(SendLoop(s, limit, probe, Stamp(r.nxt, Remaining(r))).1, r)
    decreases |s.out| - s.sent
  {
    hide Remaining;
    if s.sent < limit && s.sent < |s.out| && Chunk(s, limit) > 0 && !probe {
      SendLoopReports(s.(sent := s.sent + Chunk(s, limit)), limit, probe, r);
    }
  }

  lemma SendPendingReports(s: Sender, probe: bool, r: Receiver)
    requires SenderOk(s)
    ensures AllReport(SendPending(s, probe, Stamp(r.nxt, Remaining(r))).1, r)
  {
    hide SendLoop, Remaining;
    SendLoopReports(s, if Allowed(s) == 0 then s.sent + 1 else Allowed(s), probe, r);
  }

  lemma HandleAckReports(s: Sender, seg: Segment, r: Receiver)
    requires SenderOk(s)
    ensures AllReport(HandleAck(s, seg, Stamp(r.nxt, Remaining(r))).1, r)
  {
    hide SendPending, Remaining, Acked;
    if seg.flags.ack {
      AckedIsInFlight(s, seg.ackNum);
      SendPendingReports(NoteFinAndWindow(DropAcked(s, Acked(s, seg.ackNum)), seg.ackNum, seg.window), false, r);
    }
  }

  lemma AckReports(c: Conn)
    requires ConnOk(c)
    ensures Reports(AckOf(c), c.rcv) && !AckOf(c).flags.rst && AckOf(c).payload == []
  {
    hide Remaining;
  }

  /** What a segment makes the connection send: first what its acknowledgement allows, reported as before it; then,
      if it takes sequence space, one acknowledgement of all that has been taken in. */
  lemma SegmentIsReported(c: Conn, seg: Segment)
    requires ConnOk(c)
    ensures var (c', segments) := OnSegment(c, seg);
            && (forall i :: 0 <= i < |segments| ==> Reports(segments[i], c.rcv) || Reports(segments[i], c'.rcv))
            && (MustAck(c, seg) ==>
                  && |segments| > 0
                  && var last := segments[|segments| - 1];
                     Reports(last, c'.rcv) && !last.flags.rst && last.payload == [])
  {
    hide HandleAck, TakeData, RstInWindow, Remaining, AckOf, Reports;
    HandleAckReports(c.snd, seg, c.rcv);
    HandleAckKeepsOk(c.snd, seg, StampOf(c));
    AckReports(OnSegment(c, seg).0);
    if TakesData(c, seg) {
      LastIsAck(c, seg);
    } else if seg.flags.rst || c.phase == SynRcvd {
      RstReports(seg, c.rcv);
    }
  }

  lemma RstReports(seg: Segment, r: Receiver)
    ensures Reports(BuildRst(seg), r)
  {
  }

  /** A segment in a phase that takes data: what its acknowledgement allows, and then the acknowledgement of its own. */
  lemma LastIsAck(c: Conn, seg: Segment)
    requires ConnOk(c) && TakesData(c, seg)
    ensures var (c', segments) := OnSegment(c, seg);
            var sent := if c.phase == SynRcvd then [] else HandleAck(c.snd, seg, StampOf(c)).1;
            && ConnOk(c')
            && segments == sent + if ConsumesSeq(seg) then [AckOf(c')] else []
  {
    hide HandleAck, TakeData, RstInWindow, Remaining;
    HandleAckKeepsOk(c.snd, seg, StampOf(c));
  }

  lemma OthersReport(c: Conn, data: seq<u8>, stale: bool, reset: bool)
    requires ConnOk(c)
    ensures AllReport(WriteSome(c, data).1, c.rcv) && AllReport(CloseWrite(c).1, c.rcv)
    ensures AllReport(Fire(c, stale).1, c.rcv) && AllReport(Abort(c, reset).1, c.rcv)
  {
    hide SendPending, Remaining, OnTimer;
    SendPendingReports(c.snd.(out := c.snd.out + data[..Min(|data|, MAX_IN_FLIGHT - |c.snd.out|)]), false, c.rcv);
    TimerReports(if stale then c else c.(snd := c.snd.(running := false)));
  }

  lemma TimerReports(c: Conn)
    requires ConnOk(c)
    ensures AllReport(OnTimer(c).1, c.rcv)
  {
    hide SendPending, Remaining;
    SendPendingReports(c.snd.(probes := c.snd.probes + 1), true, c.rcv);
  }

  /** What a step puts on the wire reports the receiver before it or after it. */
  ghost predicate StepReported(t: Trace, t': Trace) {
    && t.wire <= t'.wire
    && forall i :: |t.wire| <= i < |t'.wire| ==> Reports(t'.wire[i], t.conn.rcv) || Reports(t'.wire[i], t'.conn.rcv)
  }

  lemma StepReports(t: Trace, e: Event)
    requires ConnOk(t.conn)
    ensures StepReported(t, Step(t, e))
    ensures e.Deliver? && MustAck(t.conn, e.seg) ==>
              var t' := Step(t, e);
              && |t.wire| < |t'.wire|
              && Reports(t'.wire[|t'.wire| - 1], t'.conn.rcv) && !t'.wire[|t'.wire| - 1].flags.rst
  {
    hide OnSegment, WriteSome, CloseWrite, Fire, Abort, ReadSome, Reports;
    match e
    case Deliver(seg) => SegmentIsReported(t.conn, seg);
    case Read(room) =>
    case Write(data) => OthersReport(t.conn, data, false, false);
    case FinishWriting => OthersReport(t.conn, [], false, false);
    case TimerFires(stale) => OthersReport(t.conn, [], stale, false);
    case Kill(reset) => OthersReport(t.conn, [], false, reset);
  }

  /** In every run every segment sent, resets aside, acknowledges exactly the bytes and the FIN taken in and advertises
      exactly 65535 less what is buffered, just before or just after the event that made it; and what has to be
      acknowledged is so at once. */
  lemma EverySegmentReports(run: seq<Trace>, events: seq<Event>, k: nat)
    requires IsRun(run, events) && k < |events|
    ensures StepReported(run[k], run[k + 1])
    ensures Remaining(run[k].conn.rcv) == RECEIVE_WINDOW - Used(run[k].conn.rcv)
    ensures Remaining(run[k + 1].conn.rcv) == RECEIVE_WINDOW - Used(run[k + 1].conn.rcv)
    ensures events[k].Deliver? && MustAck(run[k].conn, events[k].seg) ==>
              && |run[k].wire| < |run[k + 1].wire|
              && Reports(run[k + 1].wire[|run[k + 1].wire| - 1], run[k + 1].conn.rcv)
              && !run[k + 1].wire[|run[k + 1].wire| - 1].flags.rst
  {
    hide Step, StepReported, Reports;
    BudgetsHold(run, events, k);
    BudgetsHold(run, events, k + 1);
    StepReports(run[k], events[k]);
  }
}
