/** The sending half: what goes on the wire under a sequence number is the written byte at that stream offset, for
    arbitrary acknowledgements and across wrap-around; and how much of it may be in flight. */
module TcpSend {
  import opened Words
  import opened Tcp
  import opened TcpReceive

  /** out is what was written from offset acked on; base is the number of offset 0. */
  predicate SenderInv(s: Sender, base: u32, written: seq<u8>, acked: nat) {
    && SenderOk(s)
    && acked <= |written|
    && s.out == written[acked..]
    && s.una == Wrap32(base + acked)
  }

  /** What a segment carries is the written stream at the offset its number stands for. */
  ghost predicate Honest(seg: Segment, base: u32, written: seq<u8>) {
    seg.payload != [] ==> IsSomeSlice(written, base, seg.seqNum, seg.payload)
  }

  ghost predicate AllHonest(segments: seq<Segment>, base: u32, written: seq<u8>, mss: nat) {
    forall i :: 0 <= i < |segments| ==> Honest(segments[i], base, written) && Sized(segments[i], mss)
  }

  /** Data fits the peer's MSS, and a SYN carries none. */
  predicate Sized(seg: Segment, mss: nat) {
    |seg.payload| <= mss && (seg.flags.syn ==> seg.payload == [])
  }

  /** Writing more changes nothing already said. */
  lemma HonestGrows(segments: seq<Segment>, base: u32, written: seq<u8>, more: seq<u8>, mss: nat)
    requires AllHonest(segments, base, written, mss)
    ensures AllHonest(segments, base, written + more, mss)
  {
    forall i | 0 <= i < |segments| ensures Honest(segments[i], base, written + more) {
      var seg := segments[i];
      if seg.payload != [] {
        assert Honest(seg, base, written);
        var k: nat :| IsSlice(written, base, k, seg.seqNum, seg.payload);
        assert (written + more)[k..k + |seg.payload|] == written[k..k + |seg.payload|];
        assert IsSlice(written + more, base, k, seg.seqNum, seg.payload);
      }
    }
  }

  lemma DataSegmentIsHonest(s: Sender, from: nat, n: nat, stamp: Stamp, base: u32, written: seq<u8>, acked: nat)
    requires SenderInv(s, base, written, acked) && from + n <= |s.out|
    ensures Honest(DataSegment(s, from, n, stamp), base, written)
  {
    WrapAdd(base + acked, from);
    assert IsSlice(written, base, acked + from, Add32(s.una, from), s.out[from..from + n]);
  }

  lemma {:induction false} SendLoopIsHonest(
    s: Sender, limit: nat, probe: bool, stamp: Stamp, base: u32, written: seq<u8>, acked: nat)
    requires SenderInv(s, base, written, acked)
    ensures AllHonest(SendLoop(s, limit, probe, stamp).1, base, written, s.mss)
    decreases |s.out| - s.sent
  {
    hide Honest;
    if s.sent < limit && s.sent < |s.out| && Chunk(s, limit) > 0 {
      DataSegmentIsHonest(s, s.sent, Chunk(s, limit), stamp, base, written, acked);
      if !probe {
        SendLoopIsHonest(s.(sent := s.sent + Chunk(s, limit)), limit, probe, stamp, base, written, acked);
      }
    }
  }

  /** The loop stops at the limit, and with a peer that takes any data at all it gets there. */
  lemma {:induction false} SendLoopFillsWindow(s: Sender, limit: nat, stamp: Stamp)
    requires SenderOk(s)
    ensures var s' := SendLoop(s, limit, false, stamp).0;
            && s'.sent <= Max(s.sent, limit)
            && (s.mss > 0 ==> s'.sent >= Min(limit, |s.out|))
            && (SendLoop(s, limit, false, stamp).1 != [] <==> s'.sent > s.sent)
    decreases |s.out| - s.sent
  {
    if s.sent < limit && s.sent < |s.out| && Chunk(s, limit) > 0 {
      SendLoopFillsWindow(s.(sent := s.sent + Chunk(s, limit)), limit, stamp);
    }
  }

  function Max(a: int, b: int): int {
    if a < b then b else a
  }

  /** Sending what is pending: all of it honest; the window filled and not passed, or exactly one probing byte into a
      closed one; and nothing else about the stream changed. */
  lemma SendPendingSafe(s: Sender, probe: bool, stamp: Stamp, base: u32, written: seq<u8>, acked: nat)
    requires SenderInv(s, base, written, acked) && (probe ==> Allowed(s) == 0)
    ensures var (s', segments) := SendPending(s, probe, stamp);
            && SenderInv(s', base, written, acked)
            && AllHonest(segments, base, written, s.mss)
            && s'.out == s.out && s'.mss == s.mss && s'.wnd == s.wnd
            && s.sent <= s'.sent <= (if probe then s.sent + 1 else Max(s.sent, Allowed(s)))
  {
    hide AllHonest;
    var limit := if Allowed(s) == 0 then s.sent + 1 else Allowed(s);
    if !(Allowed(s) == 0 && (!probe || s.sent >= |s.out|)) {
      SendLoopKeepsOk(s, limit, probe, stamp);
      SendLoopIsHonest(s, limit, probe, stamp, base, written, acked);
      if !probe {
        SendLoopFillsWindow(s, limit, stamp);
      }
    } else {
      assert AllHonest([], base, written, s.mss) by { NothingIsHonest(base, written, s.mss); }
    }
  }

  lemma NothingIsHonest(base: u32, written: seq<u8>, mss: nat)
    ensures AllHonest([], base, written, mss)
  {
  }

  lemma DropAckedKeeps(s: Sender, amount: nat, base: u32, written: seq<u8>, acked: nat)
    requires SenderInv(s, base, written, acked) && amount <= s.sent
    ensures SenderInv(DropAcked(s, amount), base, written, acked + amount)
  {
    WrapAdd(base + acked, amount);
  }

  /** How many bytes in flight ackNum covers: what lies between una and it. */
  function Retired(s: Sender, ackNum: u32): nat {
    if SeqDiff(ackNum, s.una) <= 0 then 0 else Min(SeqDiff(ackNum, s.una), s.sent)
  }

  lemma RetiredIsAcked(s: Sender, ackNum: u32)
    requires s.sent <= MAX_IN_FLIGHT
    ensures Acked(s, ackNum) == Retired(s, ackNum) <= s.sent
  {
    AckedIsInFlight(s, ackNum);
  }

  /** An acknowledgement moves the stream offset by what it covers, and in flight never passes the new window. */
  lemma HandleAckSafe(s: Sender, seg: Segment, stamp: Stamp, base: u32, written: seq<u8>, acked: nat)
    requires SenderInv(s, base, written, acked)
    ensures var (s', segments) := HandleAck(s, seg, stamp);
            var acked' := acked + if seg.flags.ack then Retired(s, seg.ackNum) else 0;
            && |s'.out| == |s.out| - (acked' - acked)
            && SenderInv(s', base, written, acked')
            && AllHonest(segments, base, written, s.mss)
            && s'.mss == s.mss
            && s'.sent <= Max(s.sent, Allowed(s'))
  {
    hide AllHonest, SendPending, Acked, Retired, Wrap32, SeqGE, SeqDiff, Add32;
    if seg.flags.ack {
      RetiredIsAcked(s, seg.ackNum);
      var amount := Acked(s, seg.ackNum);
      DropAckedKeeps(s, amount, base, written, acked);
      SendPendingSafe(NoteFinAndWindow(DropAcked(s, amount), seg.ackNum, seg.window), false, stamp,
                      base, written, acked + amount);
    } else {
      NothingIsHonest(base, written, s.mss);
    }
  }
}
