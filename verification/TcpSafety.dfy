/** The laws of the sending half, the receiving half and the timer, over every run. */
module TcpSafety {
  import opened Words
  import opened Tcp
  import opened TcpReceive
  import opened TcpSend
  import opened TcpTimer
  import opened TcpRun

  // ---- which half an operation touches ----

  /** Only the data half of a segment changes the receiver. */
  lemma SegmentAndReceiver(c: Conn, seg: Segment)
    requires ConnOk(c)
    ensures OnSegment(c, seg).0.rcv == c.rcv || OnSegment(c, seg).0.rcv == TakeData(c.rcv, seg).0
  {
    hide HandleAck, TakeData, RstInWindow, Remaining;
  }

  lemma OthersLeaveReceiver(c: Conn, data: seq<u8>, stale: bool, reset: bool)
    requires ConnOk(c)
    ensures WriteSome(c, data).0.rcv == c.rcv
    ensures CloseWrite(c).0.rcv == c.rcv
    ensures Abort(c, reset).0.rcv == c.rcv
    ensures Fire(c, stale).0.rcv == c.rcv
  {
    hide SendPending, Unanswered, Remaining, OnTimer;
    TimerLeavesReceiver(if stale then c else c.(snd := c.snd.(running := false)));
  }

  lemma TimerLeavesReceiver(c: Conn)
    requires ConnOk(c)
    ensures OnTimer(c).0.rcv == c.rcv
  {
    hide SendPending, Unanswered, Remaining;
  }

  // ---- receiving ----

  lemma StepKeepsBudget(t: Trace, e: Event)
    requires ConnOk(t.conn) && WithinBudget(t.conn.rcv)
    ensures WithinBudget(Step(t, e).conn.rcv)
  {
    hide OnSegment, WriteSome, CloseWrite, Fire, Abort, ReadSome, WithinBudget, TakeData;
    match e
    case Deliver(seg) =>
      SegmentAndReceiver(t.conn, seg);
      TakeDataKeepsBudget(t.conn.rcv, seg);
    case Read(room) => ReadKeeps(t.conn, room, 0, [], []);
    case Write(data) => OthersLeaveReceiver(t.conn, data, false, false);
    case FinishWriting => OthersLeaveReceiver(t.conn, [], false, false);
    case TimerFires(stale) => OthersLeaveReceiver(t.conn, [], stale, false);
    case Kill(reset) => OthersLeaveReceiver(t.conn, [], false, reset);
  }

  /** Whatever segments arrive: the buffers never pass 65535 bytes and 16 entries, so the window field is exact. */
  lemma {:induction false} BudgetsHold(run: seq<Trace>, events: seq<Event>, k: nat)
    requires IsRun(run, events) && k < |run|
    ensures Used(run[k].conn.rcv) <= RECEIVE_WINDOW && |run[k].conn.rcv.reorder| <= MAX_REORDER
    ensures Remaining(run[k].conn.rcv) == RECEIVE_WINDOW - Used(run[k].conn.rcv)
  {
    hide Step;
    if k > 0 {
      BudgetsHold(run, events, k - 1);
      StepKeepsBudget(run[k - 1], events[k - 1]);
    }
  }

  lemma StepKeepsStream(t: Trace, e: Event, peer: seq<u8>)
    requires ConnOk(t.conn) && StreamInv(t.conn.rcv, t.peerBase, peer, t.read)
    requires e.Deliver? ==> FromPeer(e.seg, t.peerBase, peer)
    ensures StreamInv(Step(t, e).conn.rcv, t.peerBase, peer, Step(t, e).read) && Step(t, e).peerBase == t.peerBase
  {
    hide OnSegment, WriteSome, CloseWrite, Fire, Abort, ReadSome, StreamInv, TakeData;
    match e
    case Deliver(seg) =>
      SegmentAndReceiver(t.conn, seg);
      TakeDataKeeps(t.conn.rcv, seg, t.peerBase, peer, t.read);
    case Read(room) => ReadKeeps(t.conn, room, t.peerBase, peer, t.read);
    case Write(data) => OthersLeaveReceiver(t.conn, data, false, false);
    case FinishWriting => OthersLeaveReceiver(t.conn, [], false, false);
    case TimerFires(stale) => OthersLeaveReceiver(t.conn, [], stale, false);
    case Kill(reset) => OthersLeaveReceiver(t.conn, [], false, reset);
  }

  /** Every segment that arrives is a slice of one stream. */
  ghost predicate PeerSends(run: seq<Trace>, events: seq<Event>, peer: seq<u8>)
    requires |run| > 0
  {
    forall k :: 0 <= k < |events| && events[k].Deliver? ==> FromPeer(events[k].seg, run[0].peerBase, peer)
  }

  lemma {:induction false} StreamHolds(run: seq<Trace>, events: seq<Event>, peer: seq<u8>, k: nat)
    requires IsRun(run, events) && k < |run| && |peer| < TWO31 && PeerSends(run, events, peer)
    ensures run[k].peerBase == run[0].peerBase
    ensures StreamInv(run[k].conn.rcv, run[0].peerBase, peer, run[k].read)
  {
    hide Step, FromPeer;
    if k > 0 {
      StreamHolds(run, events, peer, k - 1);
      StepKeepsStream(run[k - 1], events[k - 1], peer);
    } else {
      assert [] + [] <= peer;
    }
  }

  /** Against a peer that sends one stream of fewer than 2^31 bytes, lost, repeated and reordered at will: what Read has
      returned and what it could return next are a prefix of that stream, and the end is reported only at its end. */
  lemma ReadIsPrefixOfStream(run: seq<Trace>, events: seq<Event>, peer: seq<u8>, k: nat)
    requires IsRun(run, events) && k < |run| && |peer| < TWO31 && PeerSends(run, events, peer)
    ensures run[k].read + run[k].conn.rcv.buf <= peer
    ensures ReadsEof(run[k].conn) ==> run[k].read == peer
  {
    StreamHolds(run, events, peer, k);
    if ReadsEof(run[k].conn) {
      EofIsTheEnd(run[k].conn, run[0].peerBase, peer, run[k].read);
    }
  }

  // ---- sending ----

  ghost predicate SendInv(t: Trace) {
    && SenderOk(t.conn.snd)
    && |t.conn.snd.out| <= |t.written|
    && (t.established ==> SenderInv(t.conn.snd, t.base, t.written, |t.written| - |t.conn.snd.out|))
    && (!t.established ==> t.written == [] && Add32(t.conn.snd.una, 1) == t.base)
    && (t.conn.phase == SynRcvd ==> !t.established)
    && (t.conn.phase != SynRcvd && t.conn.phase != Closed ==> t.established)
    && AllHonest(t.wire, t.base, t.written, t.conn.snd.mss)
  }

  /** What an operation on an established connection does to the sender and puts on the wire. */
  ghost predicate GoodOutcome(c: Conn, outcome: (Conn, seq<Segment>), base: u32, written: seq<u8>) {
    && |outcome.0.snd.out| <= |written|
    && SenderInv(outcome.0.snd, base, written, |written| - |outcome.0.snd.out|)
    && outcome.0.snd.mss == c.snd.mss
    && outcome.0.phase != SynRcvd
    && AllHonest(outcome.1, base, written, c.snd.mss)
  }

  ghost predicate GoodSender(c: Conn, base: u32, written: seq<u8>) {
    && |c.snd.out| <= |written|
    && SenderInv(c.snd, base, written, |written| - |c.snd.out|)
    && c.phase != SynRcvd
  }

  predicate NoPayload(segments: seq<Segment>) {
    forall i :: 0 <= i < |segments| ==> segments[i].payload == []
  }

  lemma NoPayloadIsHonest(segments: seq<Segment>, base: u32, written: seq<u8>, mss: nat)
    requires NoPayload(segments)
    ensures AllHonest(segments, base, written, mss)
  {
  }

  lemma JoinHonest(a: seq<Segment>, b: seq<Segment>, base: u32, written: seq<u8>, mss: nat)
    requires AllHonest(a, base, written, mss) && AllHonest(b, base, written, mss)
    ensures AllHonest(a + b, base, written, mss)
  {
    hide Honest;
  }

  /** What a segment does to an established sender is what its acknowledgement does, if that; what else it makes the
      connection send is empty. */
  lemma SegmentAndSender(c: Conn, seg: Segment)
    requires ConnOk(c) && c.phase != SynRcvd
    ensures var (c', segments) := OnSegment(c, seg);
            var (s, sent) := HandleAck(c.snd, seg, StampOf(c));
            && c'.phase != SynRcvd
            && ((SameStream(c'.snd, c.snd) && NoPayload(segments)) ||
                (SameStream(c'.snd, s) && exists acks :: segments == sent + acks && NoPayload(acks)))
  {
    hide HandleAck, TakeData, RstInWindow, Remaining;
    var (s, sent) := HandleAck(c.snd, seg, StampOf(c));
    assert NoPayload([]) && sent == sent + [];
    HandleAckKeepsOk(c.snd, seg, StampOf(c));
    if c.phase == Established || c.phase == FinWait1 || c.phase == FinWait2 {
      var acks := OnData(OnAck(c, seg).0, seg).2;
      assert NoPayload(acks);
    }
  }

  /** Equal but for the timer. */
  predicate SameStream(a: Sender, b: Sender) {
    a.una == b.una && a.out == b.out && a.sent == b.sent && a.mss == b.mss && a.wnd == b.wnd
  }

  lemma SegmentSafe(c: Conn, seg: Segment, base: u32, written: seq<u8>)
    requires GoodSender(c, base, written)
    ensures GoodOutcome(c, OnSegment(c, seg), base, written)
    ensures OnSegment(c, seg).0.snd.sent <= Max(c.snd.sent, Allowed(OnSegment(c, seg).0.snd))
  {
    hide OnSegment, HandleAck, AllHonest, Wrap32, Remaining;
    SegmentAndSender(c, seg);
    var (c', segments) := OnSegment(c, seg);
    var (s, sent) := HandleAck(c.snd, seg, StampOf(c));
    HandleAckSafe(c.snd, seg, StampOf(c), base, written, |written| - |c.snd.out|);
    if SameStream(c'.snd, c.snd) && NoPayload(segments) {
      NoPayloadIsHonest(segments, base, written, c.snd.mss);
    } else {
      var acks :| segments == sent + acks && NoPayload(acks);
      NoPayloadIsHonest(acks, base, written, c.snd.mss);
      JoinHonest(sent, acks, base, written, c.snd.mss);
    }
  }

  lemma WriteSafe(c: Conn, data: seq<u8>, base: u32, written: seq<u8>)
    requires GoodSender(c, base, written)
    ensures var taken := data[..Min(|data|, MAX_IN_FLIGHT - |c.snd.out|)];
            GoodOutcome(c, WriteSome(c, data), base, written + taken)
    ensures WriteSome(c, data).0.snd.sent <= Max(c.snd.sent, Allowed(WriteSome(c, data).0.snd))
  {
    hide SendPending, AllHonest, Wrap32, Remaining;
    var taken := data[..Min(|data|, MAX_IN_FLIGHT - |c.snd.out|)];
    var s, acked := c.snd.(out := c.snd.out + taken), |written| - |c.snd.out|;
    assert (written + taken)[acked..] == s.out;
    SendPendingSafe(s, false, StampOf(c), base, written + taken, acked);
  }

  lemma CloseWriteSafe(c: Conn, base: u32, written: seq<u8>)
    requires GoodSender(c, base, written)
    ensures GoodOutcome(c, CloseWrite(c), base, written)
    ensures CloseWrite(c).0.snd.sent == c.snd.sent
  {
    hide AllHonest, Wrap32, Remaining;
    assert NoPayload(CloseWrite(c).1);
    NoPayloadIsHonest(CloseWrite(c).1, base, written, c.snd.mss);
  }

  lemma OneIsHonest(seg: Segment, base: u32, written: seq<u8>, mss: nat)
    requires Honest(seg, base, written) && Sized(seg, mss)
    ensures AllHonest([seg], base, written, mss)
  {
  }

  lemma RetransmitSafe(c: Conn, segment: Segment, base: u32, written: seq<u8>)
    requires GoodSender(c, base, written) && Honest(segment, base, written) && Sized(segment, c.snd.mss)
    ensures GoodOutcome(c, Retransmit(c, segment), base, written)
    ensures Retransmit(c, segment).0.snd.sent == c.snd.sent
  {
    hide AllHonest, Wrap32, DoubleRto;
    var c' := c.(snd := c.snd.(retransmits := c.snd.retransmits + 1));
    NoPayloadIsHonest([Rst(c')], base, written, c.snd.mss);
    OneIsHonest(segment, base, written, c.snd.mss);
  }

  lemma ProbeSafe(c: Conn, base: u32, written: seq<u8>)
    requires GoodSender(c, base, written) && c.snd.wnd == 0
    ensures GoodOutcome(c, Probe(c), base, written)
    ensures c.snd.sent <= Probe(c).0.snd.sent <= c.snd.sent + 1
  {
    hide SendPending, AllHonest, Wrap32, Remaining;
    var d := c.(snd := c.snd.(probes := c.snd.probes + 1));
    NoPayloadIsHonest([Rst(d)], base, written, c.snd.mss);
    SendPendingSafe(d.snd, true, StampOf(d), base, written, |written| - |c.snd.out|);
  }

  lemma UnansweredIsHonest(c: Conn, base: u32, written: seq<u8>)
    requires GoodSender(c, base, written)
    ensures Honest(Unanswered(c), base, written) && Sized(Unanswered(c), c.snd.mss)
  {
    hide Wrap32, Remaining, IsSomeSlice;
    if c.snd.sent > 0 {
      DataSegmentIsHonest(c.snd, 0, Min(c.snd.sent, c.snd.mss), StampOf(c), base, written, |written| - |c.snd.out|);
    }
  }

  /** The timer sends again what was sent before, or one byte into a closed window. */
  lemma TimerSafe(c: Conn, base: u32, written: seq<u8>)
    requires GoodSender(c, base, written)
    ensures GoodOutcome(c, OnTimer(c), base, written)
    ensures var s := OnTimer(c).0.snd; s.sent == c.snd.sent || (c.snd.sent == 0 && c.snd.wnd == 0 && s.sent == 1)
  {
    hide Retransmit, Probe, AllHonest, Wrap32, Honest, Unanswered;
    NoPayloadIsHonest([], base, written, c.snd.mss);
    if c.phase != Closed && c.phase != TimeWait {
      if AwaitsAck(c) {
        UnansweredIsHonest(c, base, written);
        RetransmitSafe(c, Unanswered(c), base, written);
      } else if c.snd.wnd == 0 && |c.snd.out| > c.snd.sent {
        ProbeSafe(c, base, written);
      }
    }
  }

  lemma FireSafe(c: Conn, stale: bool, base: u32, written: seq<u8>)
    requires GoodSender(c, base, written)
    ensures GoodOutcome(c, Fire(c, stale), base, written)
    ensures var s := Fire(c, stale).0.snd; s.sent == c.snd.sent || (c.snd.sent == 0 && c.snd.wnd == 0 && s.sent == 1)
  {
    hide OnTimer, AllHonest, Wrap32;
    TimerSafe(if stale then c else c.(snd := c.snd.(running := false)), base, written);
  }

  lemma AbortSafe(c: Conn, reset: bool, base: u32, written: seq<u8>)
    requires GoodSender(c, base, written)
    ensures GoodOutcome(c, Abort(c, reset), base, written)
    ensures Abort(c, reset).0.snd.sent == c.snd.sent
  {
    hide AllHonest, Wrap32;
    NoPayloadIsHonest(Abort(c, reset).1, base, written, c.snd.mss);
  }

  /** Before the handshake completes only empty segments leave. */
  ghost predicate QuietOutcome(c: Conn, outcome: (Conn, seq<Segment>)) {
    && outcome.0.snd.out == [] && outcome.0.snd.sent == 0 && outcome.0.snd.mss == c.snd.mss
    && NoPayload(outcome.1)
  }

  lemma HandshakeSafe(c: Conn, seg: Segment)
    requires ConnOk(c) && (c.phase == SynRcvd || c.phase == Closed) && c.snd.out == []
    ensures QuietOutcome(c, OnSegment(c, seg))
    ensures var c' := OnSegment(c, seg).0;
            if c.phase == SynRcvd && c'.phase == Established then c'.snd.una == Add32(c.snd.una, 1)
            else c'.snd.una == c.snd.una && (c'.phase == c.phase || c'.phase == Closed)
  {
    hide TakeData, RstInWindow, Remaining, HandleAck, Add32;
  }

  lemma UnestablishedTimer(c: Conn, stale: bool)
    requires ConnOk(c) && (c.phase == SynRcvd || c.phase == Closed) && c.snd.out == []
    ensures QuietOutcome(c, Fire(c, stale))
    ensures var c' := Fire(c, stale).0; c'.snd.una == c.snd.una && (c'.phase == c.phase || c'.phase == Closed)
  {
    hide Remaining, Add32;
  }

  lemma QuietRecordKeeps(t: Trace, outcome: (Conn, seq<Segment>), established: bool)
    requires SendInv(t) && !t.established && QuietOutcome(t.conn, outcome)
    requires if established then outcome.0.snd.una == t.base && outcome.0.phase == Established
             else outcome.0.snd.una == t.conn.snd.una && (outcome.0.phase == SynRcvd || outcome.0.phase == Closed)
    ensures SendInv(Sent(t, outcome).(established := established))
  {
    hide AllHonest, Add32;
    NoPayloadIsHonest(outcome.1, t.base, [], t.conn.snd.mss);
    JoinHonest(t.wire, outcome.1, t.base, [], t.conn.snd.mss);
    assert t.base == Wrap32(t.base);
  }

  lemma UnestablishedStep(t: Trace, e: Event)
    requires SendInv(t) && !t.established && Enabled(t, e)
    ensures SendInv(Step(t, e)) && Step(t, e).conn.snd.sent == 0 && Step(t, e).conn.snd.mss == t.conn.snd.mss
  {
    hide OnSegment, Fire, Abort, AllHonest, Add32, SenderInv;
    match e
    case Deliver(seg) =>
      HandshakeSafe(t.conn, seg);
      var outcome := OnSegment(t.conn, seg);
      QuietRecordKeeps(t, outcome, t.conn.phase == SynRcvd && outcome.0.phase == Established);
    case TimerFires(stale) =>
      UnestablishedTimer(t.conn, stale);
      QuietRecordKeeps(t, Fire(t.conn, stale), false);
    case Kill(reset) =>
      UnestablishedAbort(t.conn, reset);
      QuietRecordKeeps(t, Abort(t.conn, reset), false);
  }

  lemma UnestablishedAbort(c: Conn, reset: bool)
    requires ConnOk(c) && (c.phase == SynRcvd || c.phase == Closed) && c.snd.out == []
    ensures QuietOutcome(c, Abort(c, reset))
    ensures Abort(c, reset).0.snd.una == c.snd.una && Abort(c, reset).0.phase == Closed
  {
  }

  /** A good outcome extends the record of the run. */
  lemma RecordKeeps(t: Trace, outcome: (Conn, seq<Segment>), more: seq<u8>)
    requires SendInv(t) && t.established && GoodOutcome(t.conn, outcome, t.base, t.written + more)
    ensures SendInv(Sent(t, outcome).(written := t.written + more)) && outcome.0.snd.mss == t.conn.snd.mss
  {
    hide AllHonest, Wrap32;
    HonestGrows(t.wire, t.base, t.written, more, t.conn.snd.mss);
    JoinHonest(t.wire, outcome.1, t.base, t.written + more, t.conn.snd.mss);
  }

  lemma StepKeepsSend(t: Trace, e: Event)
    requires SendInv(t) && Enabled(t, e)
    ensures SendInv(Step(t, e))
    ensures Step(t, e).conn.snd.mss == t.conn.snd.mss && Step(t, e).base == t.base
  {
    hide OnSegment, WriteSome, CloseWrite, Fire, Abort, AllHonest, SenderInv, GoodOutcome;
    if !t.established {
      UnestablishedStep(t, e);
      return;
    }
    assert GoodSender(t.conn, t.base, t.written);
    assert t.written + [] == t.written;
    match e
    case Deliver(seg) =>
      SegmentSafe(t.conn, seg, t.base, t.written);
      RecordKeeps(t, OnSegment(t.conn, seg), []);
    case Write(data) =>
      WriteSafe(t.conn, data, t.base, t.written);
      RecordKeeps(t, WriteSome(t.conn, data), data[..Min(|data|, MAX_IN_FLIGHT - |t.conn.snd.out|)]);
    case Read(room) =>
    case FinishWriting =>
      CloseWriteSafe(t.conn, t.base, t.written);
      RecordKeeps(t, CloseWrite(t.conn), []);
    case TimerFires(stale) =>
      FireSafe(t.conn, stale, t.base, t.written);
      RecordKeeps(t, Fire(t.conn, stale), []);
    case Kill(reset) =>
      AbortSafe(t.conn, reset, t.base, t.written);
      RecordKeeps(t, Abort(t.conn, reset), []);
  }

  lemma {:induction false} SendHolds(run: seq<Trace>, events: seq<Event>, k: nat)
    requires IsRun(run, events) && k < |run|
    ensures SendInv(run[k]) && run[k].base == run[0].base && run[k].conn.snd.mss == run[0].conn.snd.mss
  {
    hide Step, AllHonest, SenderInv;
    if k > 0 {
      SendHolds(run, events, k - 1);
      StepKeepsSend(run[k - 1], events[k - 1]);
    } else {
      NoPayloadIsHonest([], run[0].base, [], run[0].conn.snd.mss);
    }
  }

  /** Every byte ever put on the wire under a sequence number, first time or again, is the byte written at that stream
      offset; in flight is at most the send buffer, which is at most 65535. */
  lemma SentBytesAreWritten(run: seq<Trace>, events: seq<Event>, k: nat)
    requires IsRun(run, events) && k < |run|
    ensures forall i :: 0 <= i < |run[k].wire| ==> Honest(run[k].wire[i], run[0].base, run[k].written)
    ensures run[k].conn.snd.sent <= |run[k].conn.snd.out| <= MAX_IN_FLIGHT
    ensures var out, written := run[k].conn.snd.out, run[k].written;
            |out| <= |written| && out == written[|written| - |out|..]
  {
    SendHolds(run, events, k);
  }

  /** The MSS of a new connection: the peer's, capped by what the MTU leaves, or the default. */
  function NegotiatedMss(mtu: u16, offered: Option<u16>): u16
    requires 576 <= mtu
  {
    if offered.None? then 536 else Min(offered.value, mtu - 40)
  }

  /** An IPv4 and a TCP header without options, except for the MSS option of a SYN. */
  function PacketLength(seg: Segment): nat {
    20 + 20 + (if seg.flags.syn then 4 else 0) + |seg.payload|
  }

  /** No packet of a connection exceeds the MTU: SYNs carry no data, and data fits the MSS. */
  lemma PacketsFitMtu(run: seq<Trace>, events: seq<Event>, k: nat, i: nat, mtu: u16, offered: Option<u16>)
    requires IsRun(run, events) && k < |run| && i < |run[k].wire|
    requires 576 <= mtu && run[0].conn.snd.mss == NegotiatedMss(mtu, offered)
    ensures PacketLength(run[k].wire[i]) <= mtu
  {
    SendHolds(run, events, k);
  }

  lemma StepRespectsWindow(t: Trace, e: Event)
    requires SendInv(t) && Enabled(t, e)
    ensures var before, after := t.conn.snd, Step(t, e).conn.snd;
            || after.sent <= Max(before.sent, Min(after.wnd, MAX_IN_FLIGHT))
            || (e.TimerFires? && before.wnd == 0 && before.sent == 0 && after.sent == 1)
  {
    hide OnSegment, WriteSome, CloseWrite, Fire, Abort, AllHonest, SenderInv, GoodOutcome;
    if !t.established {
      UnestablishedStep(t, e);
      return;
    }
    assert GoodSender(t.conn, t.base, t.written);
    match e
    case Deliver(seg) => SegmentSafe(t.conn, seg, t.base, t.written);
    case Write(data) => WriteSafe(t.conn, data, t.base, t.written);
    case Read(room) =>
    case FinishWriting => CloseWriteSafe(t.conn, t.base, t.written);
    case TimerFires(stale) => FireSafe(t.conn, stale, t.base, t.written);
    case Kill(reset) => AbortSafe(t.conn, reset, t.base, t.written);
  }

  /** No step of a run takes in flight past the peer's last window, except for the one byte that probes a closed one. */
  lemma InFlightRespectsWindow(run: seq<Trace>, events: seq<Event>, k: nat)
    requires IsRun(run, events) && k < |events|
    ensures var before, after := run[k].conn.snd, run[k + 1].conn.snd;
            || after.sent <= Max(before.sent, Min(after.wnd, MAX_IN_FLIGHT))
            || (events[k].TimerFires? && before.wnd == 0 && before.sent == 0 && after.sent == 1)
  {
    hide Step, SendInv;
    SendHolds(run, events, k);
    StepRespectsWindow(run[k], events[k]);
  }

  // ---- the timer ----

  lemma StepKeepsTimer(t: Trace, e: Event)
    requires TimerInv(t.conn) && SendInv(t) && Enabled(t, e)
    ensures TimerInv(Step(t, e).conn)
  {
    hide OnSegment, WriteSome, CloseWrite, Fire, AllHonest, SenderInv;
    match e
    case Deliver(seg) => OnSegmentKeepsTimer(t.conn, seg);
    case Write(data) => WriteKeepsTimer(t.conn, data);
    case Read(room) =>
    case FinishWriting => CloseWriteKeepsTimer(t.conn);
    case TimerFires(stale) => FireKeepsTimer(t.conn, stale);
    case Kill(reset) =>
  }

  lemma {:induction false} TimerHolds(run: seq<Trace>, events: seq<Event>, k: nat)
    requires IsRun(run, events) && k < |run|
    ensures TimerInv(run[k].conn)
  {
    hide Step, SendInv;
    if k > 0 {
      TimerHolds(run, events, k - 1);
      SendHolds(run, events, k - 1);
      StepKeepsTimer(run[k - 1], events[k - 1]);
    }
  }

  /** With a peer that takes data, unacknowledged data in an open connection always has a running timer behind it; and
      with nothing more arriving, that timer ends within eight firings in a closed connection or in one at rest with
      nothing unacknowledged. */
  lemma DataNeverWaitsForever(run: seq<Trace>, events: seq<Event>, k: nat)
    requires IsRun(run, events) && k < |run| && run[0].conn.snd.mss > 0
    ensures run[k].conn.phase != Closed && run[k].conn.snd.out != [] ==>
      run[k].conn.snd.armed && run[k].conn.snd.running
    ensures ConnOk(run[k].conn)
    ensures var c := FireTimes(run[k].conn, MAX_RETRANSMITS + 2);
            c.phase == Closed || (!c.snd.running && !c.snd.armed && c.snd.out == [])
  {
    hide FireTimes, AllHonest;
    TimerHolds(run, events, k);
    SendHolds(run, events, k);
    SettlesSoon(run[k].conn);
    FiringKeepsMss(run[k].conn, MAX_RETRANSMITS + 2);
  }

  lemma {:induction false} FiringKeepsMss(c: Conn, n: nat)
    requires ConnOk(c)
    ensures FireTimes(c, n).snd.mss == c.snd.mss
    decreases n
  {
    hide Fire;
    if n > 0 && c.phase != Closed && c.snd.running {
      FireKeepsMss(c);
      FiringKeepsMss(Fire(c, false).0, n - 1);
    }
  }

  lemma FireKeepsMss(c: Conn)
    requires ConnOk(c)
    ensures Fire(c, false).0.snd.mss == c.snd.mss
  {
    hide Unanswered, SendLoop;
    SendLoopKeepsOk(c.snd.(running := false, probes := c.snd.probes + 1), c.snd.sent + 1, true, StampOf(c));
  }

  /** For a peer that announced an MSS of 0 the promise fails in a run of two events: the handshake's ACK, then a write
      into an open window. The data waits in an established connection with no timer behind it. */
  lemma ZeroMssWaits(isn: u32, clientIsn: u32, window: u16, data: seq<u8>)
    requires window > 0 && data != []
    ensures var t0 := Start(isn, clientIsn, window, 0);
            var handshake := Deliver(Segment(Add32(clientIsn, 1), Add32(isn, 1), ACK, window, []));
            var t1 := Step(t0, handshake);
            && ConnOk(t1.conn)
            && var t2 := Step(t1, Write(data));
               && IsRun([t0, t1, t2], [handshake, Write(data)])
               && t2.conn.phase == Established && t2.conn.snd.out != [] && !t2.conn.snd.armed && !t2.conn.snd.running
  {
    hide Remaining, TakeData;
    var t0 := Start(isn, clientIsn, window, 0);
    var seg := Segment(Add32(clientIsn, 1), Add32(isn, 1), ACK, window, []);
    var t1 := Step(t0, Deliver(seg));
    assert !ConsumesSeq(seg);
    NoDataTaken(t0.conn.rcv, seg);
    ZeroMssSendsNothing(t1.conn, data);
    var t2 := Step(t1, Write(data));
    var run, events := [t0, t1, t2], [Deliver(seg), Write(data)];
    assert run[0] == Start(isn, clientIsn, window, 0);
    assert Enabled(run[0], events[0]) && Enabled(run[1], events[1]);
  }

  lemma NoDataTaken(r: Receiver, seg: Segment)
    requires !ConsumesSeq(seg)
    ensures TakeData(r, seg) == (r, false)
  {
  }

  lemma ZeroMssSendsNothing(c: Conn, data: seq<u8>)
    requires ConnOk(c) && c.snd.mss == 0 && c.snd.wnd > 0 && c.snd.out == [] && data != []
    ensures var c' := WriteSome(c, data).0;
            c'.phase == c.phase && c'.snd.out != [] && c'.snd.armed == c.snd.armed && c'.snd.running == c.snd.running
  {
    hide Remaining;
  }
}
