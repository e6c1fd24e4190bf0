/** What the receiving half takes in: an in-order segment whole as far as the window allows, the early segments that
    follow on, and the FIN at the end of the stream; and nothing once accepted is lost. */
module TcpTakeIn {
  import opened Words
  import opened Tcp
  import opened TcpReceive

  // ---- what has been accepted ----

  /** The stream offset a sequence number stands for. */
  function OffsetOf(base: u32, q: u32): nat {
    Sub32(q, base)
  }

  /** The early segment kept under q holds byte x of the stream. */
  predicate KeptHolds(r: Receiver, base: u32, q: u32, x: nat) {
    q in r.reorder && OffsetOf(base, q) <= x < OffsetOf(base, q) + |r.reorder[q]|
  }

  /** Byte x of the stream has been taken in or is kept for later. */
  ghost predicate Has(r: Receiver, base: u32, read: seq<u8>, x: nat) {
    x < Taken(r, read) || exists q :: KeptHolds(r, base, q, x)
  }

  lemma SliceOffset(peer: seq<u8>, base: u32, k: nat, q: u32, data: seq<u8>)
    requires IsSlice(peer, base, k, q, data) && |peer| < TWO31
    ensures OffsetOf(base, q) == k
  {
    WrapAdd(base, k);
    assert Wrap32(base) == base;
  }

  /** Once the early segment numbered nxt is moved into the buffer, the same bytes are accepted. */
  lemma MoveKeepsBytes(r: Receiver, r': Receiver, base: u32, peer: seq<u8>, read: seq<u8>, x: nat)
    requires StreamInv(r, base, peer, read) && !r.closed && r.nxt in r.reorder
    requires r' == r.(reorder := r.reorder - {r.nxt}, buf := r.buf + r.reorder[r.nxt],
                      nxt := Add32(r.nxt, |r.reorder[r.nxt]|))
    ensures Has(r', base, read, x) <==> Has(r, base, read, x)
  {
    var data := r.reorder[r.nxt];
    assert IsSomeSlice(peer, base, r.nxt, data);
    var k: nat :| IsSlice(peer, base, k, r.nxt, data);
    SliceOffset(peer, base, k, r.nxt, data);
    WrapIsInjective(base, k, Taken(r, read));
    if Has(r, base, read, x) && x >= Taken(r', read) {
      var q :| KeptHolds(r, base, q, x);
      assert KeptHolds(r', base, q, x);
    }
    if Has(r', base, read, x) && x >= Taken(r, read) {
      if x < Taken(r', read) {
        assert KeptHolds(r, base, r.nxt, x);
      } else {
        var q :| KeptHolds(r', base, q, x);
        assert KeptHolds(r, base, q, x);
      }
    }
  }

  /** Nothing kept follows on, or what does is longer than the rest of the window. */
  ghost predicate NothingFollows(r: Receiver, nxt: u32) {
    nxt !in r.reorder || |r.reorder[nxt]| > Remaining(r)
  }

  lemma {:induction false} DrainTakes(r: Receiver, base: u32, peer: seq<u8>, read: seq<u8>)
    requires StreamInv(r, base, peer, read) && !r.closed
    ensures var d := Drain(r);
            && (forall x: nat :: Has(d, base, read, x) <==> Has(r, base, read, x))
            && NothingFollows(d, d.nxt)
            && r.buf <= d.buf && d.hasFin == r.hasFin && d.finSeq == r.finSeq && d.closed == r.closed
    decreases |r.reorder|
  {
    hide StreamInv, Has;
    if r.nxt in r.reorder && |r.reorder[r.nxt]| <= Remaining(r) {
      var data := r.reorder[r.nxt];
      var r' := r.(reorder := r.reorder - {r.nxt}, buf := r.buf + data, nxt := Add32(r.nxt, |data|));
      DrainOnce(r, base, peer, read);
      DrainTakes(r', base, peer, read);
      forall x: nat ensures Has(r', base, read, x) <==> Has(r, base, read, x) {
        MoveKeepsBytes(r, r', base, peer, read, x);
      }
    }
  }

  lemma DrainOnce(r: Receiver, base: u32, peer: seq<u8>, read: seq<u8>)
    requires StreamInv(r, base, peer, read) && !r.closed && r.nxt in r.reorder
    ensures var data := r.reorder[r.nxt];
            StreamInv(r.(reorder := r.reorder - {r.nxt}, buf := r.buf + data, nxt := Add32(r.nxt, |data|)),
                      base, peer, read)
  {
    hide Wrap32, Add32;
    var data := r.reorder[r.nxt];
    assert IsSomeSlice(peer, base, r.nxt, data);
    var k: nat :| IsSlice(peer, base, k, r.nxt, data);
    WrapIsInjective(base, k, Taken(r, read));
    AppendKeeps(r, r.(reorder := r.reorder - {r.nxt}, buf := r.buf + data, nxt := Add32(r.nxt, |data|)),
                base, peer, read, data);
  }

  lemma {:induction false} DrainStops(r: Receiver)
    ensures NothingFollows(Drain(r), Drain(r).nxt) && r.buf <= Drain(r).buf
    ensures Drain(r).reorder.Keys <= r.reorder.Keys
    decreases |r.reorder|
  {
    if r.nxt in r.reorder && |r.reorder[r.nxt]| <= Remaining(r) {
      var data := r.reorder[r.nxt];
      DrainStops(r.(reorder := r.reorder - {r.nxt}, buf := r.buf + data, nxt := Add32(r.nxt, |data|)));
    }
  }

  /** Whatever the peer sends: an in-order segment adds what fits of it, and all the bytes it adds are its own or were
      kept; taken whole, it leaves nothing kept that follows on and fits. */
  lemma InOrderAdds(r: Receiver, seg: Segment)
    requires ConsumesSeq(seg) && seg.seqNum == r.nxt && WithinBudget(r)
    ensures var (r', fin) := TakeData(r, seg);
            var accept := Min(|seg.payload|, Remaining(r));
            && r.buf + seg.payload[..accept] <= r'.buf && Used(r') == Used(r) + accept
            && (accept < |seg.payload| ==>
                  !fin && r' == r.(buf := r.buf + seg.payload[..accept], nxt := Add32(r.nxt, accept)))
            && (accept == |seg.payload| ==> NothingFollows(r', if fin then Sub32(r'.nxt, 1) else r'.nxt))
  {
    hide Drain, Buffered;
    var accept := Min(|seg.payload|, Remaining(r));
    var r1 := r.(buf := r.buf + seg.payload[..accept], nxt := Add32(r.nxt, accept));
    DrainStops(r1);
    DrainKeepsBudget(r1);
  }

  /** Bytes appended in order are accepted, and nothing else changes. */
  lemma AppendBytes(r: Receiver, base: u32, read: seq<u8>, data: seq<u8>, nxt: u32, x: nat)
    ensures var r' := r.(buf := r.buf + data, nxt := nxt); var k := Taken(r, read);
            Has(r', base, read, x) <==> Has(r, base, read, x) || k <= x < k + |data|
  {
    var r' := r.(buf := r.buf + data, nxt := nxt);
    assert forall q :: KeptHolds(r', base, q, x) <==> KeptHolds(r, base, q, x);
  }

  /** An in-order segment of the stream: what fits of it is accepted. Taken whole, it brings in everything kept that
      follows on; and the peer's FIN is consumed exactly if the stream is then complete and its FIN has come. */
  lemma InOrderTakes(r: Receiver, seg: Segment, base: u32, peer: seq<u8>, read: seq<u8>)
    requires StreamInv(r, base, peer, read) && FromPeer(seg, base, peer) && ConsumesSeq(seg) && seg.seqNum == r.nxt
    ensures var (r', fin) := TakeData(r, seg);
            var k, n, accept := Taken(r, read), |seg.payload|, Min(|seg.payload|, Remaining(r));
            && !r.closed && r.buf + seg.payload[..accept] <= r'.buf
            && (forall x: nat :: Has(r', base, read, x) <==> Has(r, base, read, x) || k <= x < k + accept)
            && (accept < n ==> r'.buf == r.buf + seg.payload[..accept] && r'.reorder == r.reorder && !fin)
            && (accept == n ==> NothingFollows(r', Wrap32(base + Taken(r', read))))
            && (accept == n ==> (fin <==> Taken(r', read) == |peer| && (seg.flags.fin || r.hasFin)))
            && r'.closed == fin
  {
    hide StreamInv, FromPeer, Has, Drain, Buffered, Wrap32, Add32;
    InOrderIsNext(r, seg, base, peer, read);
    var k, n, accept := Taken(r, read), |seg.payload|, Min(|seg.payload|, Remaining(r));
    var r1 := r.(buf := r.buf + seg.payload[..accept], nxt := Add32(r.nxt, accept));
    assert seg.payload[..accept] == peer[k..k + accept];
    AppendKeeps(r, r1, base, peer, read, seg.payload[..accept]);
    forall x: nat ensures Has(r1, base, read, x) <==> Has(r, base, read, x) || k <= x < k + accept {
      AppendBytes(r, base, read, seg.payload[..accept], Add32(r.nxt, accept), x);
    }
    if accept == n {
      DrainTakes(r1, base, peer, read);
      DrainKeeps(r1, base, peer, read);
      FinExactly(r1, Drain(r1), seg, base, peer, read);
      CloseBytes(Drain(r1), base, read);
    }
  }

  /** Neither the FIN's sequence number nor the flags are bytes. */
  lemma CloseBytes(r: Receiver, base: u32, read: seq<u8>)
    ensures forall x: nat, nxt, closed, hasFin ::
              Has(r.(nxt := nxt, closed := closed, hasFin := hasFin), base, read, x) <==> Has(r, base, read, x)
  {
    forall x: nat, nxt, closed, hasFin
      ensures Has(r.(nxt := nxt, closed := closed, hasFin := hasFin), base, read, x) <==> Has(r, base, read, x)
    {
      var r' := r.(nxt := nxt, closed := closed, hasFin := hasFin);
      assert forall q :: KeptHolds(r', base, q, x) <==> KeptHolds(r, base, q, x);
    }
  }

  /** After draining, whether a FIN is consumed. */
  lemma FinExactly(r: Receiver, d: Receiver, seg: Segment, base: u32, peer: seq<u8>, read: seq<u8>)
    requires StreamInv(d, base, peer, read) && !d.closed && d.hasFin == r.hasFin && d.finSeq == r.finSeq
    requires seg.flags.fin ==> Add32(seg.seqNum, |seg.payload|) == Wrap32(base + |peer|)
    requires StreamInv(r, base, peer, read) && !r.closed && r.nxt == Add32(seg.seqNum, |seg.payload|) && r.buf <= d.buf
    ensures d.nxt == Wrap32(base + Taken(d, read))
    ensures (seg.flags.fin && Add32(seg.seqNum, |seg.payload|) == d.nxt) || (d.hasFin && d.nxt == d.finSeq) <==>
              Taken(d, read) == |peer| && (seg.flags.fin || r.hasFin)
  {
    hide IsSomeSlice;
    if seg.flags.fin {
      WrapIsInjective(base, Taken(r, read), |peer|);
    }
    if d.nxt == Wrap32(base + |peer|) {
      WrapIsInjective(base, Taken(d, read), |peer|);
    }
  }

  /** An early segment: kept, and so accepted, if its number is free, there is an entry to spare and it fits; and
      then its FIN is noted. Otherwise nothing changes. */
  lemma EarlyIsKept(r: Receiver, seg: Segment, base: u32, peer: seq<u8>, read: seq<u8>)
    requires StreamInv(r, base, peer, read) && FromPeer(seg, base, peer) && ConsumesSeq(seg) && SeqGT(seg.seqNum, r.nxt)
    ensures var (r', fin) := TakeData(r, seg);
            var k, n := OffsetOf(base, seg.seqNum), |seg.payload|;
            && !fin && r'.buf == r.buf && r'.nxt == r.nxt && r'.closed == r.closed
            && if seg.seqNum !in r.reorder && |r.reorder| < MAX_REORDER && n <= Remaining(r) then
                 && (forall x: nat :: Has(r', base, read, x) <==> Has(r, base, read, x) || k <= x < k + n)
                 && (r'.hasFin <==> r.hasFin || seg.flags.fin)
               else r' == r
  {
    hide StreamInv, FromPeer, Buffered;
    var r', k, n := TakeData(r, seg).0, OffsetOf(base, seg.seqNum), |seg.payload|;
    if seg.seqNum !in r.reorder && |r.reorder| < MAX_REORDER && n <= Remaining(r) {
      forall x: nat ensures Has(r', base, read, x) <==> Has(r, base, read, x) || k <= x < k + n {
        if exists q :: KeptHolds(r, base, q, x) {
          var q :| KeptHolds(r, base, q, x);
          assert KeptHolds(r', base, q, x);
        }
        if exists q :: KeptHolds(r', base, q, x) {
          var q :| KeptHolds(r', base, q, x);
          assert q == seg.seqNum || KeptHolds(r, base, q, x);
        }
        if k <= x < k + n {
          assert KeptHolds(r', base, seg.seqNum, x);
        }
      }
    }
  }

  // ---- the longest prefix ----

  /** What is taken in is as long a prefix of the stream as has been accepted. */
  ghost predicate TakenIsLongest(r: Receiver, base: u32, read: seq<u8>) {
    !Has(r, base, read, Taken(r, read))
  }

  /** A kept segment begins before byte x and goes on past it. */
  predicate Straddles(r: Receiver, base: u32, q: u32, x: nat) {
    q in r.reorder && OffsetOf(base, q) < x < OffsetOf(base, q) + |r.reorder[q]|
  }

  /** After an in-order segment taken whole, with room for what follows on: the bytes taken in are all that could be,
      exactly unless a kept segment overlaps their end. */
  lemma LongestIff(r: Receiver, seg: Segment, base: u32, peer: seq<u8>, read: seq<u8>)
    requires StreamInv(r, base, peer, read) && FromPeer(seg, base, peer) && ConsumesSeq(seg) && seg.seqNum == r.nxt
    requires |seg.payload| <= Remaining(r)
    requires var r' := TakeData(r, seg).0; Wrap32(base + Taken(r', read)) !in r'.reorder
    ensures var r' := TakeData(r, seg).0;
            TakenIsLongest(r', base, read) <==> forall q :: !Straddles(r', base, q, Taken(r', read))
  {
    hide TakeData, FromPeer;
    var r' := TakeData(r, seg).0;
    TakeDataKeeps(r, seg, base, peer, read);
    var x := Taken(r', read);
    forall q | KeptHolds(r', base, q, x) ensures Straddles(r', base, q, x) {
      assert IsSomeSlice(peer, base, q, r'.reorder[q]);
      var k: nat :| IsSlice(peer, base, k, q, r'.reorder[q]);
      SliceOffset(peer, base, k, q, r'.reorder[q]);
    }
    forall q | Straddles(r', base, q, x) ensures KeptHolds(r', base, q, x) {
    }
  }

  /** Segments that overlap without beginning at the same byte can leave accepted bytes waiting behind what is taken in:
      ten to thirty kept, nought to fifteen taken. */
  lemma OverlapWaits(data: Payload)
    requires |data| == 30
    ensures var r0 := Receiver(1000, [], map[], false, 0, false);
            var r1 := TakeData(r0, Segment(1010, 0, ACK, 0, data[10..])).0;
            var r2 := TakeData(r1, Segment(1000, 0, ACK, 0, data[..15])).0;
            && StreamInv(r2, 1000, data, []) && FromPeer(Segment(1000, 0, ACK, 0, data[..15]), 1000, data)
            && r2.buf == data[..15] && Has(r2, 1000, [], 15) && !TakenIsLongest(r2, 1000, [])
  {
    var early, first := Segment(1010, 0, ACK, 0, data[10..]), Segment(1000, 0, ACK, 0, data[..15]);
    var r0 := Receiver(1000, [], map[], false, 0, false);
    assert Buffered(map[]) == 0;
    var r1 := TakeData(r0, early).0;
    assert r1 == r0.(reorder := map[1010 := data[10..]]);
    BufferedRemove(r1.reorder, 1010);
    assert r1.reorder - {1010} == map[];
    var r2 := TakeData(r1, first).0;
    assert r2 == r1.(buf := [] + data[..15], nxt := 1015);
    assert KeptHolds(r2, 1000, 1010, 15);
    assert IsSlice(data, 1000, 10, 1010, data[10..]) && IsSlice(data, 1000, 0, 1000, data[..15]);
    assert IsSomeSlice(data, 1000, 1010, data[10..]);
    assert [] + r2.buf == data[..15];
  }

  /** One segment of a peer that cuts its stream at bounds. */
  predicate IsCut(bounds: set<nat>, k: nat, n: nat) {
    k in bounds && k + n in bounds && forall b :: b in bounds ==> !(k < b < k + n)
  }

  /** Everything kept is whole cuts, and what is taken in ends at one. */
  predicate AtCuts(r: Receiver, base: u32, read: seq<u8>, bounds: set<nat>) {
    && Taken(r, read) in bounds
    && forall q :: q in r.reorder ==> IsCut(bounds, OffsetOf(base, q), |r.reorder[q]|)
  }

  lemma NextKeptIsNext(r: Receiver, base: u32, peer: seq<u8>, read: seq<u8>)
    requires StreamInv(r, base, peer, read) && !r.closed && r.nxt in r.reorder
    ensures OffsetOf(base, r.nxt) == Taken(r, read)
  {
    var data := r.reorder[r.nxt];
    assert IsSomeSlice(peer, base, r.nxt, data);
    var k: nat :| IsSlice(peer, base, k, r.nxt, data);
    SliceOffset(peer, base, k, r.nxt, data);
    WrapIsInjective(base, k, Taken(r, read));
  }

  lemma {:induction false} DrainAtCuts(r: Receiver, base: u32, peer: seq<u8>, read: seq<u8>, bounds: set<nat>)
    requires StreamInv(r, base, peer, read) && !r.closed && AtCuts(r, base, read, bounds)
    ensures AtCuts(Drain(r), base, read, bounds)
    decreases |r.reorder|
  {
    hide StreamInv, Buffered, Add32, OffsetOf, IsCut;
    if r.nxt in r.reorder && |r.reorder[r.nxt]| <= Remaining(r) {
      var data := r.reorder[r.nxt];
      NextKeptIsNext(r, base, peer, read);
      CutEnds(bounds, Taken(r, read), |data|);
      DrainOnce(r, base, peer, read);
      DrainAtCuts(r.(reorder := r.reorder - {r.nxt}, buf := r.buf + data, nxt := Add32(r.nxt, |data|)),
                  base, peer, read, bounds);
    }
  }

  /** Against a peer that cuts its stream at fixed bounds and stays within the window, nothing overlaps: after every
      in-order segment the bytes taken in are the longest prefix accepted, or what follows on is longer than the rest of
      the window. */
  lemma CutsAreTaken(r: Receiver, seg: Segment, base: u32, peer: seq<u8>, read: seq<u8>, bounds: set<nat>)
    requires StreamInv(r, base, peer, read) && FromPeer(seg, base, peer) && ConsumesSeq(seg)
    requires AtCuts(r, base, read, bounds) && IsCut(bounds, OffsetOf(base, seg.seqNum), |seg.payload|)
    requires |seg.payload| <= Remaining(r)
    ensures var r' := TakeData(r, seg).0;
            && AtCuts(r', base, read, bounds)
            && (seg.seqNum == r.nxt ==>
                  TakenIsLongest(r', base, read) ||
                  var q := Wrap32(base + Taken(r', read)); q in r'.reorder && |r'.reorder[q]| > Remaining(r'))
  {
    hide StreamInv, FromPeer, IsCut, Drain, Buffered, Has, Add32, Wrap32, Sub32;
    var r' := TakeData(r, seg).0;
    if seg.seqNum == r.nxt {
      InOrderTakes(r, seg, base, peer, read);
      InOrderIsNext(r, seg, base, peer, read);
      var k := Taken(r, read);
      assert |peer| < TWO31 by { StreamIsShort(r, base, peer, read); }
      SliceOffset(peer, base, k, seg.seqNum, seg.payload);
      CutEnds(bounds, k, |seg.payload|);
      assert seg.payload[..|seg.payload|] == seg.payload == peer[k..k + |seg.payload|];
      var r1 := r.(buf := r.buf + seg.payload, nxt := Add32(r.nxt, |seg.payload|));
      AppendKeeps(r, r1, base, peer, read, seg.payload);
      DrainAtCuts(r1, base, peer, read, bounds);
      if Wrap32(base + Taken(r', read)) !in r'.reorder {
        LongestIff(r, seg, base, peer, read);
        forall q ensures !Straddles(r', base, q, Taken(r', read)) {
          if q in r'.reorder {
            NoBoundInside(bounds, OffsetOf(base, q), |r'.reorder[q]|, Taken(r', read));
          }
        }
      }
    }
  }

  lemma StreamIsShort(r: Receiver, base: u32, peer: seq<u8>, read: seq<u8>)
    requires StreamInv(r, base, peer, read)
    ensures |peer| < TWO31
  {
  }

  lemma CutEnds(bounds: set<nat>, k: nat, n: nat)
    requires IsCut(bounds, k, n)
    ensures k + n in bounds
  {
  }

  lemma NoBoundInside(bounds: set<nat>, k: nat, n: nat, b: nat)
    requires IsCut(bounds, k, n) && b in bounds
    ensures !(k < b < k + n)
  {
  }
}
