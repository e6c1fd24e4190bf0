/** The retransmission and persist timer: unacknowledged data never waits without it, and left alone it gives up. */
module TcpTimer {
  import opened Words
  import opened Tcp
  import opened TcpSend

  /** The timer goroutine takes a firing: the running timer's, or (stale) one from before the timer was last stopped or
      reset. */
  ghost function Fire(c: Conn, stale: bool): (Conn, seq<Segment>)
    requires ConnOk(c)
    ensures ConnOk(Fire(c, stale).0)
  {
    OnTimer(if stale then c else c.(snd := c.snd.(running := false)))
  }

  // ---- what holds in every open state ----

  /** The counters are within bounds, and a timer noted as armed does run. */
  predicate SenderTimed(s: Sender) {
    && (s.armed ==> s.running)
    && s.retransmits <= MAX_RETRANSMITS
    && s.probes <= MAX_PERSIST_PROBES
  }

  /** Data waits for an acknowledgement or for a closed window to open, never for nothing. */
  predicate SenderLive(s: Sender) {
    s.mss > 0 && s.out != [] ==> s.armed && (s.sent == 0 ==> s.wnd == 0)
  }

  predicate TimerInv(c: Conn) {
    && ConnOk(c)
    && (c.phase != Closed ==> SenderTimed(c.snd) && SenderLive(c.snd))
    && (c.phase == SynRcvd ==> c.snd.armed && c.snd.out == [] && !c.snd.finSent)
    && (c.phase == TimeWait ==> c.snd.armed)
  }

  // ---- the operations keep it ----

  /** Whatever was disarmed before, pending data leaves the timer armed. */
  lemma SendPendingArms(s: Sender, stamp: Stamp)
    requires SenderOk(s) && SenderTimed(s) && (s.mss > 0 && s.sent > 0 ==> s.armed)
    ensures var s' := SendPending(s, false, stamp).0;
            SenderOk(s') && SenderTimed(s') && SenderLive(s') && s'.finSent == s.finSent && (s.armed ==> s'.armed)
  {
    SendPendingKeepsOk(s, false, stamp);
    var limit := Allowed(s);
    if limit > 0 {
      SendLoopKeepsOk(s, limit, false, stamp);
      SendLoopFillsWindow(s, limit, stamp);
    }
  }

  lemma HandleAckKeepsTimer(s: Sender, seg: Segment, stamp: Stamp)
    requires SenderOk(s) && SenderTimed(s) && SenderLive(s)
    ensures var s' := HandleAck(s, seg, stamp).0;
            SenderOk(s') && SenderTimed(s') && SenderLive(s') && s'.finSent == s.finSent
  {
    hide SendPending, SeqGE, SeqGT, SeqDiff, Acked;
    if seg.flags.ack {
      AckedIsInFlight(s, seg.ackNum);
      var s1 := NoteFinAndWindow(DropAcked(s, Acked(s, seg.ackNum)), seg.ackNum, seg.window);
      SendPendingArms(s1, stamp);
    }
  }

  lemma OnSegmentKeepsTimer(c: Conn, seg: Segment)
    requires TimerInv(c)
    ensures TimerInv(OnSegment(c, seg).0)
  {
    hide HandleAck, TakeData, Remaining, RstInWindow;
    HandleAckKeepsOk(c.snd, seg, StampOf(c));
    if c.phase != Closed {
      HandleAckKeepsTimer(c.snd, seg, StampOf(c));
    }
  }

  lemma WriteKeepsTimer(c: Conn, data: seq<u8>)
    requires TimerInv(c) && c.phase != SynRcvd
    ensures TimerInv(WriteSome(c, data).0)
  {
    hide SendPending, Remaining;
    var s := c.snd.(out := c.snd.out + data[..Min(|data|, MAX_IN_FLIGHT - |c.snd.out|)]);
    SendPendingKeepsOk(s, false, StampOf(c));
    if c.phase != Closed {
      SendPendingArms(s, StampOf(c));
    }
  }

  lemma CloseWriteKeepsTimer(c: Conn)
    requires TimerInv(c)
    ensures TimerInv(CloseWrite(c).0)
  {
  }

  /** The probe of a closed window sends the first waiting byte, if the peer takes any. */
  lemma ProbeSendsOne(s: Sender, stamp: Stamp)
    requires SenderOk(s) && s.wnd == 0 && s.sent == 0 && s.out != []
    ensures SendPending(s, true, stamp).0 == s.(sent := if s.mss > 0 then 1 else 0)
  {
  }

  /** What the handler finds: as above, except that the timer need not be running any more. */
  predicate Fired(c: Conn) {
    && ConnOk(c)
    && c.snd.retransmits <= MAX_RETRANSMITS && c.snd.probes <= MAX_PERSIST_PROBES
    && SenderLive(c.snd)
    && (c.phase == SynRcvd ==> c.snd.armed && c.snd.out == [] && !c.snd.finSent)
    && c.phase != Closed && c.phase != TimeWait
  }

  lemma RetransmitKeepsTimer(c: Conn, segment: Segment)
    requires Fired(c)
    ensures TimerInv(Retransmit(c, segment).0)
  {
  }

  lemma ProbeKeepsTimer(c: Conn)
    requires Fired(c) && c.snd.wnd == 0 && c.snd.sent == 0 && c.snd.out != []
    ensures TimerInv(Probe(c).0)
  {
    hide SendPending, Remaining;
    ProbeSendsOne(c.snd.(probes := c.snd.probes + 1), StampOf(c));
  }

  lemma FireKeepsTimer(c: Conn, stale: bool)
    requires TimerInv(c)
    ensures TimerInv(Fire(c, stale).0)
  {
    hide Retransmit, Probe, Unanswered;
    var d := if stale then c else c.(snd := c.snd.(running := false));
    if c.phase != Closed && c.phase != TimeWait {
      assert Fired(d);
      if AwaitsAck(d) {
        RetransmitKeepsTimer(d, Unanswered(d));
      } else if d.snd.wnd == 0 && d.snd.out != [] {
        ProbeKeepsTimer(d);
      }
    }
  }

  // ---- left alone, it ends ----

  /** An upper bound on the firings still to come. */
  function Fuel(c: Conn): nat {
    if c.phase == Closed || !c.snd.running then 0
    else if c.phase == TimeWait then 1
    else if AwaitsAck(c) then
      Max(0, MAX_RETRANSMITS + 1 - c.snd.retransmits)
    else if c.snd.wnd == 0 && |c.snd.out| > c.snd.sent then
      if c.snd.mss > 0 then 1 + Max(0, MAX_RETRANSMITS + 1 - c.snd.retransmits)
      else Max(0, MAX_PERSIST_PROBES + 1 - c.snd.probes)
    else 1
  }

  lemma FireUsesFuel(c: Conn)
    requires TimerInv(c) && c.phase != Closed && c.snd.running
    ensures Fuel(Fire(c, false).0) < Fuel(c)
  {
    hide SendPending, Remaining, Unanswered;
    if c.snd.wnd == 0 && c.snd.sent == 0 && c.snd.out != [] {
      var d := c.(snd := c.snd.(running := false));
      ProbeSendsOne(d.snd.(probes := d.snd.probes + 1), StampOf(d));
    }
  }

  /** n firings, or fewer if the timer stops first. */
  ghost function FireTimes(c: Conn, n: nat): Conn
    requires ConnOk(c)
    decreases n
  {
    if n == 0 || c.phase == Closed || !c.snd.running then c else FireTimes(Fire(c, false).0, n - 1)
  }

  predicate Settled(c: Conn) {
    c.phase == Closed || (!c.snd.running && !c.snd.armed && (c.snd.mss > 0 ==> c.snd.out == []))
  }

  lemma {:induction false} FiringSettles(c: Conn, n: nat)
    requires TimerInv(c) && Fuel(c) <= n
    ensures Settled(FireTimes(c, n))
    decreases n
  {
    hide Fire;
    if c.phase != Closed && c.snd.running {
      FireUsesFuel(c);
      FireKeepsTimer(c, false);
      FiringSettles(Fire(c, false).0, n - 1);
    }
  }

  /** With nothing arriving, a connection is closed, or at rest with no unacknowledged data, after at most eight
      firings; one whose peer allows no data at all (MSS 0) after at most twenty-one. */
  lemma SettlesSoon(c: Conn)
    requires TimerInv(c)
    ensures Settled(FireTimes(c, if c.snd.mss > 0 then MAX_RETRANSMITS + 2 else MAX_PERSIST_PROBES + 1))
    ensures Settled(FireTimes(c, MAX_PERSIST_PROBES + MAX_RETRANSMITS + 2))
  {
    FiringSettles(c, if c.snd.mss > 0 then MAX_RETRANSMITS + 2 else MAX_PERSIST_PROBES + 1);
    FiringSettles(c, MAX_PERSIST_PROBES + MAX_RETRANSMITS + 2);
  }

  /** Why the peer's MSS matters: written into an idle connection, data is covered by the timer exactly if the peer
      takes data or its window is closed. */
  lemma IdleWriteArmsIff(c: Conn, data: seq<u8>)
    requires ConnOk(c) && c.snd.out == [] && !c.snd.armed && data != []
    ensures WriteSome(c, data).0.snd.armed <==> c.snd.mss > 0 || c.snd.wnd == 0
  {
    var s := c.snd.(out := data[..Min(|data|, MAX_IN_FLIGHT)]);
    assert c.snd.out + data[..Min(|data|, MAX_IN_FLIGHT)] == s.out;
    if s.wnd > 0 {
      SendLoopKeepsOk(s, Allowed(s), false, StampOf(c));
      SendLoopFillsWindow(s, Allowed(s), StampOf(c));
    }
  }
}
