/** What the sending half does: an acknowledgement retires exactly what it covers, the window is used as far as it goes,
    every byte counted as sent is on the wire, and the timer sends again what is still unacknowledged. */
module TcpRetire {
  import opened Words
  import opened Tcp
  import opened TcpReceive
  import opened TcpSend
  import opened TcpTimer

  // ---- acknowledgements ----

  lemma NothingToSend(s: Sender, limit: nat, probe: bool, stamp: Stamp)
    requires s.out == []
    ensures SendLoop(s, limit, probe, stamp) == (s, [])
  {
  }

  lemma SendPendingKeepsStream(s: Sender, probe: bool, stamp: Stamp)
    requires SenderOk(s)
    ensures var s' := SendPending(s, probe, stamp).0;
            && s'.out == s.out && s'.una == s.una && s'.wnd == s.wnd && s'.mss == s.mss && s.sent <= s'.sent
            && s'.finSent == s.finSent && s'.finAcked == s.finAcked && s'.finSeq == s.finSeq
            && s'.probes == s.probes
            && (s'.retransmits == s.retransmits || s'.retransmits == 0)
            && (s'.rto == s.rto || s'.rto == INITIAL_RTO)
            && (s'.out == [] ==> s'.armed == s.armed && s'.running == s.running)
  {
    hide SendLoop;
    var limit := if Allowed(s) == 0 then s.sent + 1 else Allowed(s);
    SendLoopKeepsOk(s, limit, probe, stamp);
    if s.out == [] {
      NothingToSend(s, limit, probe, stamp);
    }
  }

  /** An acknowledgement retires exactly the bytes it covers; progress starts the timeout and the retries afresh, and
      stops the timer once nothing is left; the FIN is acknowledged by a number past it; and the window is the
      segment's, a reopened one with all its probes to come. Without the flag nothing changes. */
  lemma HandleAckExactly(s: Sender, seg: Segment, stamp: Stamp)
    requires SenderOk(s)
    ensures var s' := HandleAck(s, seg, stamp).0;
            var n := Retired(s, seg.ackNum);
            if !seg.flags.ack then s' == s
            else
              && n <= s.sent && s'.out == s.out[n..] && s'.una == Add32(s.una, n) && s'.mss == s.mss
              && s.sent - n <= s'.sent
              && s'.wnd == seg.window
              && s'.probes == (if s.wnd == 0 && seg.window > 0 then 0 else s.probes)
              && (n > 0 ==> s'.retransmits == 0 && s'.rto == INITIAL_RTO)
              && (n > 0 && s'.out == [] ==> !s'.armed && !s'.running)
              && s'.finSent == s.finSent && s'.finSeq == s.finSeq
              && (s'.finAcked <==> s.finAcked || (s.finSent && SeqDiff(seg.ackNum, Add32(s.finSeq, 1)) >= 0))
              && (s'.finAcked && !s.finAcked && s'.out == [] ==> !s'.armed && !s'.running)
  {
    hide SendPending, Acked, Retired, SeqDiff;
    if seg.flags.ack {
      RetiredIsAcked(s, seg.ackNum);
      SendPendingKeepsStream(
        NoteFinAndWindow(DropAcked(s, Acked(s, seg.ackNum)), seg.ackNum, seg.window), false, stamp);
    }
  }

  /** The acknowledgement of stream offset k, in flight, leaves exactly what was written from k on. */
  lemma AckOfOffset(s: Sender, seg: Segment, stamp: Stamp, base: u32, written: seq<u8>, acked: nat, k: nat)
    requires SenderInv(s, base, written, acked) && seg.flags.ack
    requires acked <= k <= acked + s.sent && seg.ackNum == Wrap32(base + k)
    ensures HandleAck(s, seg, stamp).0.out == written[k..]
  {
    hide HandleAck, Wrap32;
    HandleAckExactly(s, seg, stamp);
    WrapAdd(base + acked, k - acked);
    assert SeqDiff(seg.ackNum, s.una) == k - acked;
    assert written[acked..][k - acked..] == written[k..];
  }

  // ---- the window is used ----

  /** With a peer that takes data, in flight is everything written or all the window allows. */
  predicate WindowUsed(s: Sender) {
    s.mss > 0 ==> s.sent >= Min(|s.out|, Min(s.wnd, MAX_IN_FLIGHT))
  }

  lemma SendPendingUses(s: Sender, stamp: Stamp)
    requires SenderOk(s)
    ensures WindowUsed(SendPending(s, false, stamp).0)
  {
    SendPendingKeepsStream(s, false, stamp);
    if Allowed(s) > 0 {
      SendLoopFillsWindow(s, Allowed(s), stamp);
    }
  }

  /** Sending anything new starts the timer, the timeout and the retries afresh. */
  lemma NewDataRearms(s: Sender, stamp: Stamp)
    requires SenderOk(s) && SendPending(s, false, stamp).0.sent > s.sent
    ensures var s' := SendPending(s, false, stamp).0;
            s'.armed && s'.running && s'.rto == INITIAL_RTO && s'.retransmits == 0
  {
    hide SendLoop;
    SendLoopKeepsOk(s, Allowed(s), false, stamp);
    SendLoopFillsWindow(s, Allowed(s), stamp);
  }

  lemma HandleAckUses(s: Sender, seg: Segment, stamp: Stamp)
    requires SenderOk(s) && WindowUsed(s)
    ensures WindowUsed(HandleAck(s, seg, stamp).0)
  {
    hide SendPending, Acked;
    if seg.flags.ack {
      AckedIsInFlight(s, seg.ackNum);
      SendPendingUses(NoteFinAndWindow(DropAcked(s, Acked(s, seg.ackNum)), seg.ackNum, seg.window), stamp);
    }
  }

  // ---- what counts as sent was sent ----

  predicate StartsAt(seg: Segment, base: u32, k: nat) {
    seg.seqNum == Wrap32(base + k)
  }

  /** The segment carries byte x of the stream. */
  ghost predicate Carries(seg: Segment, base: u32, x: nat) {
    exists k: nat :: StartsAt(seg, base, k) && k <= x < k + |seg.payload|
  }

  ghost predicate CarriedBy(segments: seq<Segment>, base: u32, x: nat) {
    exists i :: 0 <= i < |segments| && Carries(segments[i], base, x)
  }

  /** The bytes from one offset to another are all there. */
  ghost predicate AllCarried(segments: seq<Segment>, base: u32, from: nat, to: nat) {
    forall x: nat {:trigger CarriedBy(segments, base, x)} :: from <= x < to ==> CarriedBy(segments, base, x)
  }

  lemma CarriedJoin(a: seq<Segment>, b: seq<Segment>, base: u32, x: nat)
    requires CarriedBy(a, base, x) || CarriedBy(b, base, x)
    ensures CarriedBy(a + b, base, x)
  {
    hide Carries;
    if CarriedBy(a, base, x) {
      var i :| 0 <= i < |a| && Carries(a[i], base, x);
      assert (a + b)[i] == a[i];
    } else {
      var i :| 0 <= i < |b| && Carries(b[i], base, x);
      assert (a + b)[|a| + i] == b[i];
    }
  }

  lemma {:induction false} SendLoopCarries(s: Sender, limit: nat, probe: bool, stamp: Stamp, base: u32, acked: nat)
    requires SenderOk(s) && s.una == Wrap32(base + acked)
    ensures var (s', segments) := SendLoop(s, limit, probe, stamp);
            AllCarried(segments, base, acked + s.sent, acked + s'.sent)
    decreases |s.out| - s.sent
  {
    hide Wrap32, Add32, Carries;
    if s.sent < limit && s.sent < |s.out| && Chunk(s, limit) > 0 {
      var chunk := Chunk(s, limit);
      var first, s1 := DataSegment(s, s.sent, chunk, stamp), s.(sent := s.sent + chunk);
      FirstCarries(s, chunk, stamp, base, acked);
      if !probe {
        SendLoopCarries(s1, limit, probe, stamp, base, acked);
        var (s', rest) := SendLoop(s1, limit, probe, stamp);
        forall x: nat | acked + s.sent <= x < acked + s'.sent ensures CarriedBy([first] + rest, base, x) {
          CarriedJoin([first], rest, base, x);
        }
      }
    }
  }

  lemma FirstCarries(s: Sender, chunk: nat, stamp: Stamp, base: u32, acked: nat)
    requires SenderOk(s) && s.una == Wrap32(base + acked) && s.sent + chunk <= |s.out|
    ensures AllCarried([DataSegment(s, s.sent, chunk, stamp)], base, acked + s.sent, acked + s.sent + chunk)
  {
    hide Wrap32, Add32;
    var first := DataSegment(s, s.sent, chunk, stamp);
    WrapAdd(base + acked, s.sent);
    var k := acked + s.sent;
    assert StartsAt(first, base, k) && |first.payload| == chunk;
    forall x: nat | k <= x < k + chunk ensures CarriedBy([first], base, x) {
      assert [first][0] == first && Carries(first, base, x);
    }
  }

  lemma SendPendingCarries(s: Sender, probe: bool, stamp: Stamp, base: u32, acked: nat)
    requires SenderOk(s) && s.una == Wrap32(base + acked)
    ensures var (s', segments) := SendPending(s, probe, stamp);
            AllCarried(segments, base, acked + s.sent, acked + s'.sent)
  {
    hide SendLoop, CarriedBy;
    SendLoopCarries(s, if Allowed(s) == 0 then s.sent + 1 else Allowed(s), probe, stamp, base, acked);
  }

  lemma HandleAckCarries(s: Sender, seg: Segment, stamp: Stamp, base: u32, acked: nat)
    requires SenderOk(s) && s.una == Wrap32(base + acked)
    ensures var (s', segments) := HandleAck(s, seg, stamp);
            && |s'.out| <= |s.out|
            && var acked' := acked + |s.out| - |s'.out|;
               s'.una == Wrap32(base + acked') && acked + s.sent <= acked' + s'.sent &&
               AllCarried(segments, base, acked + s.sent, acked' + s'.sent)
  {
    hide SendPending, AllCarried, Acked, Wrap32;
    HandleAckExactly(s, seg, stamp);
    if seg.flags.ack {
      AckedIsInFlight(s, seg.ackNum);
      var n := Acked(s, seg.ackNum);
      WrapAdd(base + acked, n);
      var s1 := NoteFinAndWindow(DropAcked(s, n), seg.ackNum, seg.window);
      SendPendingCarries(s1, false, stamp, base, acked + n);
    } else {
      NothingCarried(base, acked + s.sent);
    }
  }

  lemma NothingCarried(base: u32, n: nat)
    ensures AllCarried([], base, n, n)
  {
  }

  // ---- the timer ----

  /** The timer of a connection with something unacknowledged sends the first of it again and waits twice as long, up to
      eight seconds; after six times it resets the peer and closes. */
  lemma TimerResends(c: Conn)
    requires ConnOk(c) && c.phase != Closed && c.phase != TimeWait && AwaitsAck(c)
    ensures var (c', segments) := OnTimer(c);
            if c.snd.retransmits < MAX_RETRANSMITS then
              && c' == c.(snd := c.snd.(retransmits := c.snd.retransmits + 1, rto := Min(2 * c.snd.rto, MAX_RTO),
                                        running := true))
              && |segments| == 1 && !segments[0].flags.rst
              && (c.phase == SynRcvd ==>
                    segments[0].flags.syn && segments[0].payload == [] && segments[0].seqNum == c.snd.una)
              && (c.phase != SynRcvd && c.snd.sent > 0 ==>
                    && segments[0].seqNum == c.snd.una
                    && segments[0].payload == c.snd.out[..Min(c.snd.sent, c.snd.mss)])
              && (c.phase != SynRcvd && c.snd.sent == 0 ==>
                    segments[0].flags.fin && segments[0].payload == [] && segments[0].seqNum == c.snd.finSeq)
            else
              && c'.phase == Closed && c'.failed && !c'.snd.running && c'.snd.out == c.snd.out
              && |segments| == 1 && segments[0].flags.rst && segments[0].seqNum == Add32(c.snd.una, c.snd.sent)
  {
    hide Remaining;
  }

  /** The timer of a connection that waits for a closed window sends one byte into it, the first waiting, if the peer
      takes any; after twenty times it resets the peer and closes. With nothing to wait for it only notes that it has
      run. */
  lemma TimerProbes(c: Conn)
    requires ConnOk(c) && c.phase != Closed && c.phase != TimeWait && !AwaitsAck(c)
    ensures var (c', segments) := OnTimer(c);
            if c.snd.wnd > 0 || c.snd.out == [] then c' == c.(snd := c.snd.(armed := false)) && segments == []
            else if c.snd.probes >= MAX_PERSIST_PROBES then
              && c'.phase == Closed && c'.failed && !c'.snd.running
              && |segments| == 1 && segments[0].flags.rst
            else
              && c' == c.(snd := c.snd.(probes := c.snd.probes + 1, running := true,
                                        sent := if c.snd.mss > 0 then 1 else 0))
              && |segments| == c'.snd.sent
              && (c.snd.mss > 0 ==> segments[0].seqNum == c.snd.una && segments[0].payload == c.snd.out[..1])
  {
    hide Remaining, SendPending;
    if c.snd.wnd == 0 && c.snd.out != [] {
      OneByteProbe(c.snd.(probes := c.snd.probes + 1), StampOf(c));
    }
  }

  lemma OneByteProbe(s: Sender, stamp: Stamp)
    requires SenderOk(s) && s.wnd == 0 && s.sent == 0 && s.out != []
    ensures var (s', segments) := SendPending(s, true, stamp);
            && s' == s.(sent := if s.mss > 0 then 1 else 0) && |segments| == s'.sent
            && (s.mss > 0 ==> segments[0].seqNum == s.una && segments[0].payload == s.out[..1])
  {
    assert s.out[0..1] == s.out[..1];
  }

  /** With nothing arriving: n firings are n resends, each waiting twice as long as the last, and the seventh gives
      up. */
  lemma {:induction false} GivesUpAfterSix(c: Conn, n: nat)
    requires ConnOk(c) && c.phase != Closed && c.phase != TimeWait && AwaitsAck(c) && c.snd.running
    requires c.snd.retransmits == 0 && c.snd.rto == INITIAL_RTO && n <= MAX_RETRANSMITS
    ensures var c' := FireTimes(c, n);
            && c'.snd.retransmits == n && c'.snd.rto == Min(INITIAL_RTO * Pow2(n), MAX_RTO) && c'.snd.running
            && c'.phase == c.phase && c'.snd.out == c.snd.out && c'.snd.sent == c.snd.sent && c'.snd.una == c.snd.una
    ensures FireTimes(c, MAX_RETRANSMITS + 1).phase == Closed && FireTimes(c, MAX_RETRANSMITS + 1).failed
  {
    ResendsRest(c, n);
    ResendsRest(c, MAX_RETRANSMITS);
    FireTimesSnoc(c, MAX_RETRANSMITS);
    hide Remaining, FireTimes;
    var last := FireTimes(c, MAX_RETRANSMITS);
    TimerResends(last.(snd := last.snd.(running := false)));
  }

  lemma ResendOnce(c: Conn)
    requires ConnOk(c) && c.phase != Closed && c.phase != TimeWait && AwaitsAck(c) && c.snd.running
    requires c.snd.retransmits < MAX_RETRANSMITS
    ensures Fire(c, false).0 ==
              c.(snd := c.snd.(retransmits := c.snd.retransmits + 1, rto := Min(2 * c.snd.rto, MAX_RTO)))
  {
    hide Unanswered;
  }

  lemma {:induction false} ResendsRest(c: Conn, n: nat)
    requires ConnOk(c) && c.phase != Closed && c.phase != TimeWait && AwaitsAck(c) && c.snd.running
    requires c.snd.retransmits == 0 && c.snd.rto == INITIAL_RTO && n <= MAX_RETRANSMITS
    ensures FireTimes(c, n) == c.(snd := c.snd.(retransmits := n, rto := Min(INITIAL_RTO * Pow2(n), MAX_RTO)))
  {
    hide Fire, FireTimes;
    if n > 0 {
      ResendsRest(c, n - 1);
      FireTimesSnoc(c, n - 1);
      ResendOnce(FireTimes(c, n - 1));
    } else {
      NoFiring(c);
    }
  }

  lemma NoFiring(c: Conn)
    requires ConnOk(c)
    ensures FireTimes(c, 0) == c
  {
  }

  lemma {:induction false} FireTimesSnoc(c: Conn, n: nat)
    requires ConnOk(c)
    ensures ConnOk(FireTimes(c, n))
    ensures var d := FireTimes(c, n);
            FireTimes(c, n + 1) == if d.phase == Closed || !d.snd.running then d else Fire(d, false).0
    decreases n
  {
    hide Fire;
    if n > 0 && c.phase != Closed && c.snd.running {
      FireTimesSnoc(Fire(c, false).0, n - 1);
    }
  }
}
