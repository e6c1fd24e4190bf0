/** One server-side TCP connection as values (netstack/tcp_state.go, tcp_conn.go, tcp_timer.go): the sending half, the
    receiving half, and the lock-held operations on both. */
module Tcp {
  import opened Words

  const RECEIVE_WINDOW := 65535
  const MAX_IN_FLIGHT := 65535
  const MAX_REORDER := 16
  const MAX_PERSIST_PROBES := 20
  const MAX_RETRANSMITS := 6
  const INITIAL_RTO := 300
  const MAX_RTO := 8000

  /** No longer than an IPv4 datagram. */
  type Payload = s: seq<u8> | |s| <= 65535

  datatype Flags = Flags(syn: bool, ack: bool, fin: bool, rst: bool)

  const ACK := Flags(false, true, false, false)
  const FIN_ACK := Flags(false, true, true, false)
  const SYN_ACK := Flags(true, true, false, false)
  const RST_ACK := Flags(false, true, false, true)

  datatype Segment = Segment(seqNum: u32, ackNum: u32, flags: Flags, window: u16, payload: Payload)

  // ---- sequence numbers ----

  /** int32(a - b) */
  function SeqDiff(a: u32, b: u32): int {
    var d := Sub32(a, b);
    if d < TWO31 then d else d - TWO32
  }

  predicate SeqGT(a: u32, b: u32) {
    SeqDiff(a, b) > 0
  }

  predicate SeqGE(a: u32, b: u32) {
    SeqDiff(a, b) >= 0
  }

  function Min(a: int, b: int): int {
    if a < b then a else b
  }

  // ---- the receiving half ----

  /** buf is what Read has not taken yet; reorder holds segments that arrived early, by sequence number. */
  datatype Receiver = Receiver(
    nxt: u32, buf: seq<u8>, reorder: map<u32, Payload>, hasFin: bool, finSeq: u32, closed: bool)

  ghost function Buffered(m: map<u32, Payload>): nat
    decreases |m|
  {
    if m == map[] then 0
    else
      var k :| k in m;
      |m[k]| + Buffered(m - {k})
  }

  ghost function Used(r: Receiver): nat {
    |r.buf| + Buffered(r.reorder)
  }

  ghost function Remaining(r: Receiver): u16 {
    if Used(r) >= RECEIVE_WINDOW then 0 else RECEIVE_WINDOW - Used(r)
  }

  /** Early segments that are now next, as far as they fit. */
  ghost function Drain(r: Receiver): Receiver
    decreases |r.reorder|
  {
    if r.nxt in r.reorder && |r.reorder[r.nxt]| <= Remaining(r) then
      var data := r.reorder[r.nxt];
      Drain(r.(reorder := r.reorder - {r.nxt}, buf := r.buf + data, nxt := Add32(r.nxt, |data|)))
    else r
  }

  /** The in-order arm: what fits of the payload and, if that is all of it, the early segments behind it and the FIN.
      The flag says that the peer's FIN was consumed. */
  ghost function TakeInOrder(r: Receiver, seg: Segment): (Receiver, bool) {
    var n := |seg.payload|;
    var accept := Min(n, Remaining(r));
    var r := r.(buf := r.buf + seg.payload[..accept], nxt := Add32(r.nxt, accept));
    if accept < n then (r, false)
    else
      var r := Drain(r);
      if seg.flags.fin && Add32(seg.seqNum, n) == r.nxt then (r.(nxt := Add32(r.nxt, 1), closed := true), true)
      else if r.hasFin && r.nxt == r.finSeq then (r.(nxt := Add32(r.nxt, 1), closed := true, hasFin := false), true)
      else (r, false)
  }

  /** The early arm: keep the segment if its number is not taken, there is an entry to spare and its payload fits. */
  ghost function KeepEarly(r: Receiver, seg: Segment): Receiver {
    if seg.seqNum in r.reorder || |r.reorder| >= MAX_REORDER || |seg.payload| > Remaining(r) then r
    else
      var r := r.(reorder := r.reorder[seg.seqNum := seg.payload]);
      if seg.flags.fin then r.(hasFin := true, finSeq := Add32(seg.seqNum, |seg.payload|)) else r
  }

  predicate ConsumesSeq(seg: Segment) {
    seg.payload != [] || seg.flags.fin
  }

  /** handleEstablishedDataLocked */
  ghost function TakeData(r: Receiver, seg: Segment): (Receiver, bool) {
    if !ConsumesSeq(seg) then (r, false)
    else if seg.seqNum == r.nxt then TakeInOrder(r, seg)
    else if SeqGT(seg.seqNum, r.nxt) then (KeepEarly(r, seg), false)
    else (r, false)
  }

  // ---- the sending half ----

  /** out is written and not acknowledged, its first sent bytes are in flight. armed is the connection's own note that
      the timer runs; running is the timer itself. */
  datatype Sender = Sender(
    una: u32, wnd: u16, mss: u16, out: seq<u8>, sent: nat,
    finSent: bool, finAcked: bool, finSeq: u32,
    armed: bool, running: bool, retransmits: nat, probes: nat, rto: nat)

  /** What the other half puts into every segment. */
  datatype Stamp = Stamp(ackNum: u32, window: u16)

  function Allowed(s: Sender): nat {
    Min(s.wnd, MAX_IN_FLIGHT)
  }

  function DataSegment(s: Sender, from: nat, n: nat, stamp: Stamp): Segment
    requires from + n <= |s.out| <= MAX_IN_FLIGHT
  {
    Segment(Add32(s.una, from), stamp.ackNum, ACK, stamp.window, s.out[from..from + n])
  }

  function Chunk(s: Sender, limit: nat): nat
    requires s.sent < limit && s.sent < |s.out|
  {
    Min(Min(limit - s.sent, |s.out| - s.sent), s.mss)
  }

  /** Segments out of the unsent bytes while the limit allows; a probe is one segment. */
  function SendLoop(s: Sender, limit: nat, probe: bool, stamp: Stamp): (Sender, seq<Segment>)
    requires |s.out| <= MAX_IN_FLIGHT
    decreases |s.out| - s.sent
  {
    if s.sent < limit && s.sent < |s.out| && Chunk(s, limit) > 0 then
      var chunk := Chunk(s, limit);
      var segment, s := DataSegment(s, s.sent, chunk, stamp), s.(sent := s.sent + chunk);
      if probe then (s, [segment])
      else
        var (s, rest) := SendLoop(s, limit, probe, stamp);
        (s, [segment] + rest)
    else (s, [])
  }

  function Rearmed(s: Sender): Sender {
    s.(armed := true, running := true, rto := INITIAL_RTO)
  }

  /** sendPendingLocked */
  function SendPending(s: Sender, probe: bool, stamp: Stamp): (Sender, seq<Segment>)
    requires |s.out| <= MAX_IN_FLIGHT
  {
    if Allowed(s) == 0 && (!probe || s.sent >= |s.out|) then
      (if |s.out| > s.sent && !s.armed then Rearmed(s) else s, [])
    else
      var limit := if Allowed(s) == 0 then s.sent + 1 else Allowed(s);
      var (s', segments) := SendLoop(s, limit, probe, stamp);
      (if segments != [] && !probe then Rearmed(s').(retransmits := 0) else s', segments)
  }

  /** How many bytes in flight an acknowledgement number covers. */
  function Acked(s: Sender, ackNum: u32): nat
    requires s.sent <= MAX_IN_FLIGHT
  {
    if s.sent == 0 || !SeqGT(ackNum, s.una) then 0
    else
      var maxCovered := Add32(s.una, s.sent);
      Sub32(if SeqGT(ackNum, maxCovered) then maxCovered else ackNum, s.una)
  }

  /** The first part of handleAckLocked: drop what is acknowledged. */
  function DropAcked(s: Sender, amount: nat): Sender
    requires amount <= s.sent <= |s.out| <= MAX_IN_FLIGHT
  {
    if amount == 0 then s
    else
      var s := s.(out := s.out[amount..], sent := s.sent - amount, una := Add32(s.una, amount),
                  retransmits := 0, rto := INITIAL_RTO);
      s.(armed := s.sent > 0, running := s.sent > 0)
  }

  /** The second part: the FIN, and the peer's window. */
  function NoteFinAndWindow(s: Sender, ackNum: u32, window: u16): Sender {
    var s := if s.finSent && !s.finAcked && SeqGE(ackNum, Add32(s.finSeq, 1)) then
               (if s.sent == 0 then s.(finAcked := true, armed := false, running := false) else s.(finAcked := true))
             else s;
    s.(probes := if s.wnd == 0 && window > 0 then 0 else s.probes, wnd := window)
  }

  predicate SenderOk(s: Sender) {
    s.sent <= |s.out| <= MAX_IN_FLIGHT
  }

  /** handleAckLocked */
  function HandleAck(s: Sender, seg: Segment, stamp: Stamp): (Sender, seq<Segment>)
    requires SenderOk(s)
  {
    if !seg.flags.ack then (s, [])
    else
      AckedIsInFlight(s, seg.ackNum);
      SendPending(NoteFinAndWindow(DropAcked(s, Acked(s, seg.ackNum)), seg.ackNum, seg.window), false, stamp)
  }

  /** An acknowledgement covers what lies between una and it, as far as that is in flight: one from the past nothing,
      one from beyond what was sent everything. */
  lemma AckedIsInFlight(s: Sender, ackNum: u32)
    requires s.sent <= MAX_IN_FLIGHT
    ensures Acked(s, ackNum) == if SeqDiff(ackNum, s.una) <= 0 then 0 else Min(SeqDiff(ackNum, s.una), s.sent)
  {
  }

  // ---- the connection ----

  datatype Phase = SynRcvd | Established | FinWait1 | FinWait2 | Closing | TimeWait | CloseWait | LastAck | Closed

  /** failed is err != nil; writeClosed that CloseWrite has run, which it does once. */
  datatype Conn = Conn(phase: Phase, snd: Sender, rcv: Receiver, failed: bool, writeClosed: bool)

  predicate ConnOk(c: Conn) {
    SenderOk(c.snd)
  }

  ghost function StampOf(c: Conn): Stamp {
    Stamp(c.rcv.nxt, Remaining(c.rcv))
  }

  ghost function AckOf(c: Conn): Segment
    requires ConnOk(c)
  {
    Segment(Add32(c.snd.una, c.snd.sent), c.rcv.nxt, ACK, Remaining(c.rcv), [])
  }

  /** A connection for a SYN: the answer is sent and the timer runs. */
  function NewConn(isn: u32, clientIsn: u32, window: u16, mss: u16): Conn {
    Conn(SynRcvd,
         Sender(isn, window, mss, [], 0, false, false, 0, true, true, 0, 0, INITIAL_RTO),
         Receiver(Add32(clientIsn, 1), [], map[], false, 0, false),
         false, false)
  }

  ghost predicate RstInWindow(c: Conn, seg: Segment) {
    var wnd := Remaining(c.rcv);
    if wnd == 0 then seg.seqNum == c.rcv.nxt
    else SeqGE(seg.seqNum, c.rcv.nxt) && SeqGT(Add32(c.rcv.nxt, wnd), seg.seqNum)
  }

  /** A reset counts exactly if its number lies in the receive window, or is the next one expected if that is closed. */
  lemma RstInWindowIff(c: Conn, seg: Segment)
    ensures var width := if Remaining(c.rcv) == 0 then 1 else Remaining(c.rcv);
            RstInWindow(c, seg) <==> Sub32(seg.seqNum, c.rcv.nxt) < width
  {
  }

  function BuildRst(offending: Segment): Segment {
    if offending.flags.ack then Segment(offending.ackNum, 0, Flags(false, false, false, true), 0, [])
    else
      var len := |offending.payload| + (if offending.flags.syn then 1 else 0) + (if offending.flags.fin then 1 else 0);
      Segment(0, Add32(offending.seqNum, len), RST_ACK, 0, [])
  }

  function StartTimeWait(c: Conn): Conn {
    c.(phase := TimeWait, snd := c.snd.(armed := true, running := true))
  }

  /** Closed: the timer stops, and whatever note armed holds is read no more. */
  function Shut(c: Conn, failed: bool): Conn {
    c.(phase := Closed, snd := c.snd.(running := false), failed := failed)
  }

  /** The acknowledgement half of a segment. */
  ghost function OnAck(c: Conn, seg: Segment): (Conn, seq<Segment>)
    requires ConnOk(c)
  {
    var (snd, segments) := HandleAck(c.snd, seg, StampOf(c));
    (c.(snd := snd), segments)
  }

  /** The data half, acknowledged whenever it takes sequence space. */
  ghost function OnData(c: Conn, seg: Segment): (Conn, bool, seq<Segment>)
    requires ConnOk(c)
  {
    var (rcv, fin) := TakeData(c.rcv, seg);
    var c := c.(rcv := rcv);
    (c, fin, if ConsumesSeq(seg) then [AckOf(c)] else [])
  }

  /** The next phase after a segment whose FIN was consumed or not. */
  function Advance(c: Conn, fin: bool): Conn {
    match c.phase
    case Established => if fin then c.(phase := CloseWait) else c
    case FinWait1 =>
      if fin && c.snd.finAcked then StartTimeWait(c)
      else if fin then c.(phase := Closing)
      else if c.snd.finAcked then c.(phase := FinWait2)
      else c
    case FinWait2 => if fin then StartTimeWait(c) else c
    case Closing => if c.snd.finAcked then StartTimeWait(c) else c
    case LastAck => if c.snd.finAcked then Shut(c, c.failed) else c
    case _ => c
  }

  /** handleSegment in SYN_RCVD. A FIN on the handshake's ACK is taken in but does not change the phase. */
  ghost function OnHandshake(c: Conn, seg: Segment): (Conn, seq<Segment>)
    requires ConnOk(c)
  {
    if !seg.flags.ack || seg.ackNum != Add32(c.snd.una, 1) then (Shut(c, c.failed), [BuildRst(seg)])
    else
      var c := c.(phase := Established, snd := c.snd.(una := seg.ackNum, armed := false, running := false));
      var (c, _, segments) := OnData(c, seg);
      (c, segments)
  }

  /** handleSegment */
  ghost function OnSegment(c: Conn, seg: Segment): (Conn, seq<Segment>)
    requires ConnOk(c)
    ensures ConnOk(OnSegment(c, seg).0)
  {
    HandleAckKeepsOk(c.snd, seg, StampOf(c));
    if seg.flags.rst then (if RstInWindow(c, seg) then Shut(c, true) else c, [])
    else
      match c.phase
      case SynRcvd => OnHandshake(c, seg)
      case TimeWait => (c, if seg.flags.fin then [AckOf(c)] else [])
      case Closed => (c, [])
      case Closing => var (c, sent) := OnAck(c, seg); (Advance(c, false), sent)
      case CloseWait => OnAck(c, seg)
      case LastAck => var (c, sent) := OnAck(c, seg); (Advance(c, false), sent)
      case _ =>
        var (c, sent) := OnAck(c, seg);
        var (c, fin, acks) := OnData(c, seg);
        (Advance(c, fin), sent + acks)
  }

  /** One locked round of Write: as much of data as the buffer holds. */
  ghost function WriteSome(c: Conn, data: seq<u8>): (Conn, seq<Segment>)
    requires ConnOk(c)
    ensures ConnOk(WriteSome(c, data).0)
  {
    var taken := data[..Min(|data|, MAX_IN_FLIGHT - |c.snd.out|)];
    var s := c.snd.(out := c.snd.out + taken);
    SendPendingKeepsOk(s, false, StampOf(c));
    var (snd, segments) := SendPending(s, false, StampOf(c));
    (c.(snd := snd), segments)
  }

  /** sendFINLocked */
  ghost function SendFin(c: Conn): (Conn, Segment)
    requires ConnOk(c)
  {
    var finSeq := Add32(c.snd.una, |c.snd.out|);
    (c.(snd := Rearmed(c.snd).(finSent := true, finSeq := finSeq, retransmits := 0)),
     Segment(finSeq, c.rcv.nxt, FIN_ACK, Remaining(c.rcv), []))
  }

  /** CloseWrite */
  ghost function CloseWrite(c: Conn): (Conn, seq<Segment>)
    requires ConnOk(c)
    ensures ConnOk(CloseWrite(c).0)
  {
    if c.writeClosed then (c, [])
    else
      var c := c.(writeClosed := true);
      if c.phase == Established || c.phase == CloseWait then
        var (c', fin) := SendFin(c);
        (c'.(phase := if c.phase == Established then FinWait1 else LastAck), [fin])
      else (c, [])
  }

  function DoubleRto(rto: nat): nat {
    Min(rto * 2, MAX_RTO)
  }

  function Rst(c: Conn): Segment
    requires ConnOk(c)
  {
    Segment(Add32(c.snd.una, c.snd.sent), c.rcv.nxt, RST_ACK, 0, [])
  }

  /** One more retransmission of segment, or the end if there have been enough. */
  function Retransmit(c: Conn, segment: Segment): (Conn, seq<Segment>)
    requires ConnOk(c)
    ensures ConnOk(Retransmit(c, segment).0)
  {
    var c := c.(snd := c.snd.(retransmits := c.snd.retransmits + 1));
    if c.snd.retransmits > MAX_RETRANSMITS then (Shut(c, true), [Rst(c)])
    else (c.(snd := c.snd.(rto := DoubleRto(c.snd.rto), running := true)), [segment])
  }

  /** One more zero-window probe, or the end if there have been enough. */
  ghost function Probe(c: Conn): (Conn, seq<Segment>)
    requires ConnOk(c)
    ensures ConnOk(Probe(c).0)
  {
    var c := c.(snd := c.snd.(probes := c.snd.probes + 1));
    if c.snd.probes > MAX_PERSIST_PROBES then (Shut(c, true), [Rst(c)])
    else
      SendPendingKeepsOk(c.snd, true, StampOf(c));
      var (snd, segments) := SendPending(c.snd, true, StampOf(c));
      (c.(snd := snd.(running := true)), segments)
  }

  /** Something sent has not been acknowledged: the SYN, data or the FIN. */
  predicate AwaitsAck(c: Conn) {
    c.phase == SynRcvd || c.snd.sent > 0 || (c.snd.finSent && !c.snd.finAcked)
  }

  /** The first of what has not been acknowledged, to be sent again. */
  ghost function Unanswered(c: Conn): Segment
    requires ConnOk(c)
  {
    if c.phase == SynRcvd then Segment(c.snd.una, c.rcv.nxt, SYN_ACK, Remaining(c.rcv), [])
    else if c.snd.sent > 0 then DataSegment(c.snd, 0, Min(c.snd.sent, c.snd.mss), StampOf(c))
    else Segment(c.snd.finSeq, c.rcv.nxt, FIN_ACK, Remaining(c.rcv), [])
  }

  /** onRTOFired */
  ghost function OnTimer(c: Conn): (Conn, seq<Segment>)
    requires ConnOk(c)
    ensures ConnOk(OnTimer(c).0)
  {
    if c.phase == Closed then (c, [])
    else if c.phase == TimeWait then (Shut(c, c.failed), [])
    else if AwaitsAck(c) then Retransmit(c, Unanswered(c))
    else if c.snd.wnd == 0 && |c.snd.out| > c.snd.sent then Probe(c)
    else (c.(snd := c.snd.(armed := false)), [])
  }

  /** abort, which also resets the peer, and onAttachmentDetached, which does not. */
  function Abort(c: Conn, reset: bool): (Conn, seq<Segment>)
    requires ConnOk(c)
  {
    if c.phase == Closed then (c, []) else (Shut(c, true), if reset then [Rst(c)] else [])
  }

  /** Read: up to room bytes of what has arrived. */
  function ReadSome(c: Conn, room: nat): (Conn, seq<u8>) {
    var n := Min(room, |c.rcv.buf|);
    (c.(rcv := c.rcv.(buf := c.rcv.buf[n..])), c.rcv.buf[..n])
  }

  /** Read reports the end of the stream. */
  predicate ReadsEof(c: Conn) {
    c.rcv.buf == [] && !c.failed && c.rcv.closed
  }

  // ---- the shape every operation keeps ----

  lemma {:induction false} SendLoopKeepsOk(s: Sender, limit: nat, probe: bool, stamp: Stamp)
    requires SenderOk(s)
    ensures var s' := SendLoop(s, limit, probe, stamp).0;
            SenderOk(s') && s' == s.(sent := s'.sent) && s.sent <= s'.sent
    decreases |s.out| - s.sent
  {
    if s.sent < limit && s.sent < |s.out| && Chunk(s, limit) > 0 && !probe {
      SendLoopKeepsOk(s.(sent := s.sent + Chunk(s, limit)), limit, probe, stamp);
    }
  }

  lemma SendPendingKeepsOk(s: Sender, probe: bool, stamp: Stamp)
    requires SenderOk(s)
    ensures SenderOk(SendPending(s, probe, stamp).0)
  {
    SendLoopKeepsOk(s, if Allowed(s) == 0 then s.sent + 1 else Allowed(s), probe, stamp);
  }

  lemma HandleAckKeepsOk(s: Sender, seg: Segment, stamp: Stamp)
    requires SenderOk(s)
    ensures SenderOk(HandleAck(s, seg, stamp).0)
  {
    hide SendPending;
    if seg.flags.ack {
      AckedIsInFlight(s, seg.ackNum);
      SendPendingKeepsOk(NoteFinAndWindow(DropAcked(s, Acked(s, seg.ackNum)), seg.ackNum, seg.window), false, stamp);
    }
  }
}
