/** What a connection does with what is written, over every run: every byte that counts as sent is on the wire, the
    window is used as far as it goes, and acknowledgements retire what they cover. */
module TcpOutflow {
  import opened Words
  import opened Tcp
  import opened TcpReceive
  import opened TcpSend
  import opened TcpTimer
  import opened TcpRun
  import opened TcpSafety
  import opened TcpRetire

  // ---- acknowledgements ----

  /** The phases in which acknowledgements are looked at. */
  predicate LooksAtAcks(c: Conn, seg: Segment) {
    && !seg.flags.rst
    && c.phase in {Established, FinWait1, FinWait2, Closing, CloseWait, LastAck}
  }

  lemma SegmentAcks(c: Conn, seg: Segment)
    requires ConnOk(c) && LooksAtAcks(c, seg)
    ensures var c' := OnSegment(c, seg).0;
            var s := HandleAck(c.snd, seg, StampOf(c)).0;
            SameStream(c'.snd, s) && c'.snd.finAcked == s.finAcked && c'.snd.finSent == s.finSent
  {
    hide HandleAck, TakeData, RstInWindow, Remaining;
    HandleAckKeepsOk(c.snd, seg, StampOf(c));
  }

  /** In every run, in every phase that looks at acknowledgements: one of stream offset j, acknowledged already or in
      flight, leaves exactly what was written from j on waiting; and the window is what the segment says. */
  lemma AckRetires(run: seq<Trace>, events: seq<Event>, k: nat, j: nat)
    requires IsRun(run, events) && k < |events| && events[k].Deliver?
    requires LooksAtAcks(run[k].conn, events[k].seg) && events[k].seg.flags.ack
    requires var acked := |run[k].written| - |run[k].conn.snd.out|; acked <= j <= acked + run[k].conn.snd.sent
    requires events[k].seg.ackNum == Wrap32(run[0].base + j)
    ensures j <= |run[k].written| && run[k + 1].conn.snd.out == run[k].written[j..]
    ensures run[k + 1].conn.snd.wnd == events[k].seg.window
  {
    hide OnSegment, HandleAck, AllHonest, Wrap32, Remaining;
    SendHolds(run, events, k);
    var t, seg := run[k], events[k].seg;
    var acked := |t.written| - |t.conn.snd.out|;
    SegmentAcks(t.conn, seg);
    AckOfOffset(t.conn.snd, seg, StampOf(t.conn), t.base, t.written, acked, j);
    HandleAckExactly(t.conn.snd, seg, StampOf(t.conn));
  }

  /** In every run, a round of Write takes what the 65535-byte buffer has room for and keeps it until acknowledged. */
  lemma WriteTakesWhatFits(run: seq<Trace>, events: seq<Event>, k: nat)
    requires IsRun(run, events) && k < |events| && events[k].Write?
    ensures var data, out := events[k].data, run[k].conn.snd.out;
            && |out| < MAX_IN_FLIGHT
            && run[k + 1].conn.snd.out == out + data[..Min(|data|, MAX_IN_FLIGHT - |out|)]
            && run[k + 1].written == run[k].written + data[..Min(|data|, MAX_IN_FLIGHT - |out|)]
  {
    hide SendPending, Remaining;
    var c, data := run[k].conn, events[k].data;
    assert run[k + 1] == Step(run[k], events[k]) && Enabled(run[k], events[k]);
    SendPendingKeepsStream(
      c.snd.(out := c.snd.out + data[..Min(|data|, MAX_IN_FLIGHT - |c.snd.out|)]), false, StampOf(c));
  }

  // ---- what counts as sent was sent ----

  /** The stream offset up to which bytes count as sent. */
  function SentUpTo(c: Conn, written: seq<u8>): int {
    |written| - |c.snd.out| + c.snd.sent
  }

  /** An operation sends what it lets count as sent. */
  ghost predicate SendsIt(c: Conn, outcome: (Conn, seq<Segment>), base: u32, written: seq<u8>, written': seq<u8>) {
    var from, to := SentUpTo(c, written), SentUpTo(outcome.0, written');
    0 <= from <= to && AllCarried(outcome.1, base, from, to)
  }

  lemma SegmentSends(c: Conn, seg: Segment, base: u32, written: seq<u8>)
    requires GoodSender(c, base, written)
    ensures SendsIt(c, OnSegment(c, seg), base, written, written)
  {
    hide OnSegment, HandleAck, AllCarried, Wrap32, Remaining;
    SegmentAndSender(c, seg);
    var (c', segments) := OnSegment(c, seg);
    var (s, sent) := HandleAck(c.snd, seg, StampOf(c));
    HandleAckCarries(c.snd, seg, StampOf(c), base, |written| - |c.snd.out|);
    if SameStream(c'.snd, c.snd) && NoPayload(segments) {
      NothingNew(segments, base, SentUpTo(c, written));
    } else {
      var acks :| segments == sent + acks && NoPayload(acks);
      CarriedBefore(sent, acks, base, SentUpTo(c, written), SentUpTo(c', written));
    }
  }

  lemma NothingNew(segments: seq<Segment>, base: u32, n: nat)
    ensures AllCarried(segments, base, n, n)
  {
  }

  lemma CarriedBefore(a: seq<Segment>, b: seq<Segment>, base: u32, from: nat, to: nat)
    requires AllCarried(a, base, from, to)
    ensures AllCarried(a + b, base, from, to)
  {
    hide CarriedBy;
    forall x: nat | from <= x < to ensures CarriedBy(a + b, base, x) {
      CarriedJoin(a, b, base, x);
    }
  }

  lemma WriteSends(c: Conn, data: seq<u8>, base: u32, written: seq<u8>)
    requires GoodSender(c, base, written)
    ensures var taken := data[..Min(|data|, MAX_IN_FLIGHT - |c.snd.out|)];
            SendsIt(c, WriteSome(c, data), base, written, written + taken)
  {
    hide SendPending, AllCarried, Wrap32, Remaining;
    var taken := data[..Min(|data|, MAX_IN_FLIGHT - |c.snd.out|)];
    var s := c.snd.(out := c.snd.out + taken);
    SendPendingKeepsStream(s, false, StampOf(c));
    SendPendingCarries(s, false, StampOf(c), base, |written| - |c.snd.out|);
  }

  lemma RetransmitStream(c: Conn, segment: Segment)
    requires ConnOk(c)
    ensures SameStream(Retransmit(c, segment).0.snd, c.snd)
  {
  }

  lemma ProbeStream(c: Conn, base: u32, acked: nat)
    requires ConnOk(c)
    ensures var (c', segments) := Probe(c);
            && c'.snd.out == c.snd.out && c'.snd.mss == c.snd.mss && c'.snd.wnd == c.snd.wnd
            && c.snd.sent <= c'.snd.sent
            && (c.snd.una == Wrap32(base + acked) ==>
                  AllCarried(segments, base, acked + c.snd.sent, acked + c'.snd.sent))
  {
    hide SendPending, AllCarried, Wrap32, Remaining;
    var d := c.(snd := c.snd.(probes := c.snd.probes + 1));
    SendPendingKeepsStream(d.snd, true, StampOf(d));
    if c.snd.una == Wrap32(base + acked) {
      SendPendingCarries(d.snd, true, StampOf(d), base, acked);
    }
    NothingNew(Probe(c).1, base, acked + c.snd.sent);
  }

  /** The timer leaves the stream alone but for what a probe sends. */
  lemma TimerStream(c: Conn, base: u32, acked: nat)
    requires ConnOk(c)
    ensures var (c', segments) := OnTimer(c);
            && c'.snd.out == c.snd.out && c'.snd.mss == c.snd.mss && c'.snd.wnd == c.snd.wnd
            && c.snd.sent <= c'.snd.sent
            && (c.snd.una == Wrap32(base + acked) ==>
                  AllCarried(segments, base, acked + c.snd.sent, acked + c'.snd.sent))
  {
    hide Retransmit, Probe, AllCarried, Wrap32, Unanswered;
    NothingNew(OnTimer(c).1, base, acked + c.snd.sent);
    if c.phase != Closed && c.phase != TimeWait {
      if AwaitsAck(c) {
        RetransmitStream(c, Unanswered(c));
      } else {
        ProbeStream(c, base, acked);
      }
    }
  }

  lemma OthersSend(c: Conn, stale: bool, reset: bool, base: u32, written: seq<u8>)
    requires GoodSender(c, base, written)
    ensures SendsIt(c, Fire(c, stale), base, written, written)
    ensures SendsIt(c, CloseWrite(c), base, written, written)
    ensures SendsIt(c, Abort(c, reset), base, written, written)
  {
    hide OnTimer, AllCarried, Wrap32, Remaining;
    TimerStream(if stale then c else c.(snd := c.snd.(running := false)), base, |written| - |c.snd.out|);
    NothingNew(CloseWrite(c).1, base, SentUpTo(c, written));
    NothingNew(Abort(c, reset).1, base, SentUpTo(c, written));
  }

  /** Everything that counts as sent is on the wire. */
  ghost predicate SentIsOnWire(t: Trace) {
    t.established ==> SentUpTo(t.conn, t.written) >= 0 && AllCarried(t.wire, t.base, 0, SentUpTo(t.conn, t.written))
  }

  lemma RecordSends(t: Trace, outcome: (Conn, seq<Segment>), more: seq<u8>)
    requires t.established && SentIsOnWire(t) && SendsIt(t.conn, outcome, t.base, t.written, t.written + more)
    ensures SentIsOnWire(Sent(t, outcome).(written := t.written + more))
  {
    hide CarriedBy;
    var t' := Sent(t, outcome).(written := t.written + more);
    forall x: nat | x < SentUpTo(t'.conn, t'.written) ensures CarriedBy(t'.wire, t'.base, x) {
      assert CarriedBy(t.wire, t.base, x) || CarriedBy(outcome.1, t.base, x);
      CarriedJoin(t.wire, outcome.1, t.base, x);
    }
  }

  lemma StepSends(t: Trace, e: Event)
    requires SendInv(t) && Enabled(t, e) && SentIsOnWire(t)
    ensures SentIsOnWire(Step(t, e))
  {
    hide OnSegment, WriteSome, CloseWrite, Fire, Abort, AllHonest, SenderInv, SendsIt;
    if !t.established {
      UnestablishedStep(t, e);
      if Step(t, e).established {
        assert Step(t, e).written == [];
        NothingNew(Step(t, e).wire, t.base, 0);
      }
      return;
    }
    assert GoodSender(t.conn, t.base, t.written);
    assert t.written + [] == t.written;
    match e
    case Deliver(seg) =>
      SegmentSends(t.conn, seg, t.base, t.written);
      RecordSends(t, OnSegment(t.conn, seg), []);
    case Write(data) =>
      WriteSends(t.conn, data, t.base, t.written);
      RecordSends(t, WriteSome(t.conn, data), data[..Min(|data|, MAX_IN_FLIGHT - |t.conn.snd.out|)]);
    case Read(room) =>
    case FinishWriting =>
      OthersSend(t.conn, false, false, t.base, t.written);
      RecordSends(t, CloseWrite(t.conn), []);
    case TimerFires(stale) =>
      OthersSend(t.conn, stale, false, t.base, t.written);
      RecordSends(t, Fire(t.conn, stale), []);
    case Kill(reset) =>
      OthersSend(t.conn, false, reset, t.base, t.written);
      RecordSends(t, Abort(t.conn, reset), []);
  }

  /** In every run, every byte that counts as sent, in flight or acknowledged, has been on the wire under its own
      number. */
  lemma {:induction false} EverySentByteIsOnWire(run: seq<Trace>, events: seq<Event>, k: nat)
    requires IsRun(run, events) && k < |run|
    ensures SentIsOnWire(run[k])
  {
    hide Step, SendInv, AllCarried;
    if k > 0 {
      EverySentByteIsOnWire(run, events, k - 1);
      SendHolds(run, events, k - 1);
      StepSends(run[k - 1], events[k - 1]);
    }
  }

  /** In every run, when the timer of a connection with data in flight fires and it has not given up: exactly one
      segment goes out, and it is the first that is unacknowledged, from its first byte on. */
  lemma TimerResendsOldest(run: seq<Trace>, events: seq<Event>, k: nat)
    requires IsRun(run, events) && k < |events| && events[k].TimerFires? && run[k].established
    requires run[k].conn.phase != Closed && run[k].conn.phase != TimeWait && run[k].conn.phase != SynRcvd
    requires run[k].conn.snd.sent > 0 && run[k].conn.snd.retransmits < MAX_RETRANSMITS
    ensures var s, written := run[k].conn.snd, run[k].written;
            var acked := |written| - |s.out|;
            && |run[k + 1].wire| == |run[k].wire| + 1 && run[k].wire <= run[k + 1].wire
            && var seg := run[k + 1].wire[|run[k].wire|];
               && acked >= 0 && acked + Min(s.sent, s.mss) <= |written|
               && seg.payload == written[acked..acked + Min(s.sent, s.mss)]
               && seg.seqNum == Wrap32(run[0].base + acked)
  {
    hide OnTimer, AllHonest, Wrap32;
    SendHolds(run, events, k);
    var c := run[k].conn;
    TimerResends(if events[k].stale then c else c.(snd := c.snd.(running := false)));
  }

  // ---- the window is used ----

  lemma StepUses(t: Trace, e: Event)
    requires SendInv(t) && Enabled(t, e) && WindowUsed(t.conn.snd)
    ensures WindowUsed(Step(t, e).conn.snd)
  {
    hide OnSegment, WriteSome, CloseWrite, Fire, Abort, AllHonest, SenderInv;
    if !t.established {
      UnestablishedStep(t, e);
      UnestablishedIsEmpty(t, e);
      return;
    }
    match e
    case Deliver(seg) => SegmentUses(t.conn, seg);
    case Write(data) => WriteUses(t.conn, data);
    case Read(room) =>
    case FinishWriting => OthersUse(t.conn, false, false);
    case TimerFires(stale) => OthersUse(t.conn, stale, false);
    case Kill(reset) => OthersUse(t.conn, false, reset);
  }

  lemma UnestablishedIsEmpty(t: Trace, e: Event)
    requires SendInv(t) && !t.established && Enabled(t, e) && SendInv(Step(t, e))
    ensures Step(t, e).conn.snd.out == []
  {
    hide OnSegment, Fire, Abort, AllHonest, SenderInv;
    assert t.conn.snd.out == [];
    assert Step(t, e).written == [];
  }

  lemma SegmentUses(c: Conn, seg: Segment)
    requires ConnOk(c) && c.phase != SynRcvd && WindowUsed(c.snd)
    ensures WindowUsed(OnSegment(c, seg).0.snd)
  {
    hide OnSegment, HandleAck, Remaining;
    SegmentAndSender(c, seg);
    HandleAckUses(c.snd, seg, StampOf(c));
  }

  lemma WriteUses(c: Conn, data: seq<u8>)
    requires ConnOk(c)
    ensures WindowUsed(WriteSome(c, data).0.snd)
  {
    hide SendPending, Remaining;
    SendPendingUses(c.snd.(out := c.snd.out + data[..Min(|data|, MAX_IN_FLIGHT - |c.snd.out|)]), StampOf(c));
  }

  lemma OthersUse(c: Conn, stale: bool, reset: bool)
    requires ConnOk(c) && WindowUsed(c.snd)
    ensures WindowUsed(Fire(c, stale).0.snd) && WindowUsed(CloseWrite(c).0.snd) && WindowUsed(Abort(c, reset).0.snd)
  {
    hide OnTimer, Remaining;
    TimerStream(if stale then c else c.(snd := c.snd.(running := false)), 0, 0);
  }

  /** In every run with a peer that takes data, everything written is in flight or acknowledged, as far as the peer's
      last window and the 65535-byte cap allow. */
  lemma {:induction false} WindowIsUsed(run: seq<Trace>, events: seq<Event>, k: nat)
    requires IsRun(run, events) && k < |run|
    ensures WindowUsed(run[k].conn.snd)
  {
    hide Step, SendInv;
    if k > 0 {
      WindowIsUsed(run, events, k - 1);
      SendHolds(run, events, k - 1);
      StepUses(run[k - 1], events[k - 1]);
    }
  }
}
