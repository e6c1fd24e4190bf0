/** The receiving half: budgets for arbitrary segments, and the stream law for the slices of one byte stream. */
module TcpReceive {
  import opened Words
  import opened Tcp

  // ---- budgets ----

  lemma {:induction false} BufferedRemove(m: map<u32, Payload>, k: u32)
    requires k in m
    ensures Buffered(m) == |m[k]| + Buffered(m - {k})
    decreases |m|
  {
    var k0 :| k0 in m && Buffered(m) == |m[k0]| + Buffered(m - {k0});
    if k0 != k {
      BufferedRemove(m - {k0}, k);
      BufferedRemove(m - {k}, k0);
      assert m - {k0} - {k} == m - {k} - {k0};
    }
  }

  lemma BufferedAdd(m: map<u32, Payload>, k: u32, p: Payload)
    requires k !in m
    ensures Buffered(m[k := p]) == Buffered(m) + |p|
  {
    BufferedRemove(m[k := p], k);
    assert m[k := p] - {k} == m;
  }

  /** The two buffers together fit the window, so the 16-bit field shows exactly what is left of it. */
  ghost predicate WithinBudget(r: Receiver) {
    Used(r) <= RECEIVE_WINDOW && |r.reorder| <= MAX_REORDER
  }

  lemma {:induction false} DrainKeepsBudget(r: Receiver)
    requires WithinBudget(r)
    ensures WithinBudget(Drain(r)) && Used(Drain(r)) == Used(r)
    decreases |r.reorder|
  {
    if r.nxt in r.reorder && |r.reorder[r.nxt]| <= Remaining(r) {
      BufferedRemove(r.reorder, r.nxt);
      var data := r.reorder[r.nxt];
      DrainKeepsBudget(r.(reorder := r.reorder - {r.nxt}, buf := r.buf + data, nxt := Add32(r.nxt, |data|)));
    }
  }

  /** Whatever arrives: one segment never breaks the budgets. */
  lemma TakeDataKeepsBudget(r: Receiver, seg: Segment)
    requires WithinBudget(r)
    ensures WithinBudget(TakeData(r, seg).0)
  {
    if ConsumesSeq(seg) && seg.seqNum == r.nxt {
      var accept := Min(|seg.payload|, Remaining(r));
      DrainKeepsBudget(r.(buf := r.buf + seg.payload[..accept], nxt := Add32(r.nxt, accept)));
    } else if seg.seqNum !in r.reorder {
      BufferedAdd(r.reorder, seg.seqNum, seg.payload);
    }
  }

  // ---- the peer's stream ----

  /** data is the peer's bytes from offset k, numbered seqNum; base is the number of offset 0. */
  predicate IsSlice(peer: seq<u8>, base: u32, k: nat, seqNum: u32, data: seq<u8>) {
    k + |data| <= |peer| && seqNum == Wrap32(base + k) && data == peer[k..k + |data|]
  }

  ghost predicate IsSomeSlice(peer: seq<u8>, base: u32, seqNum: u32, data: seq<u8>) {
    exists k: nat :: IsSlice(peer, base, k, seqNum, data)
  }

  /** A segment of a peer that sends one stream: a slice of it, with FIN only at its end. */
  ghost predicate FromPeer(seg: Segment, base: u32, peer: seq<u8>) {
    ConsumesSeq(seg) ==>
      exists k: nat ::
        IsSlice(peer, base, k, seg.seqNum, seg.payload) && (seg.flags.fin ==> k + |seg.payload| == |peer|)
  }

  /** Offsets less than 2^32 apart have different numbers. */
  lemma WrapIsInjective(base: u32, a: nat, b: nat)
    requires a < TWO32 && b < TWO32 && Wrap32(base + a) == Wrap32(base + b)
    ensures a == b
  {
    var x, y := base + a, base + b;
    assert x == TWO32 * (x / TWO32) + x % TWO32 && y == TWO32 * (y / TWO32) + y % TWO32;
    assert x / TWO32 in {0, 1} && y / TWO32 in {0, 1};
  }

  /** How many bytes of the stream have been taken in. */
  function Taken(r: Receiver, read: seq<u8>): nat {
    |read| + |r.buf|
  }

  ghost predicate StreamInv(r: Receiver, base: u32, peer: seq<u8>, read: seq<u8>) {
    && |peer| < TWO31
    && read + r.buf <= peer
    && (r.closed ==> Taken(r, read) == |peer|)
    && r.nxt == Wrap32(base + Taken(r, read) + (if r.closed then 1 else 0))
    && (r.hasFin ==> r.finSeq == Wrap32(base + |peer|))
    && forall q :: q in r.reorder ==> IsSomeSlice(peer, base, q, r.reorder[q])
  }

  /** The next bytes of the stream, appended in order. */
  lemma AppendKeeps(r: Receiver, r': Receiver, base: u32, peer: seq<u8>, read: seq<u8>, data: seq<u8>)
    requires StreamInv(r, base, peer, read) && !r.closed
    requires |data| < TWO16 && IsSlice(peer, base, Taken(r, read), r.nxt, data)
    requires r'.reorder.Keys <= r.reorder.Keys && forall q :: q in r'.reorder ==> r'.reorder[q] == r.reorder[q]
    requires r' == r.(buf := r.buf + data, nxt := Add32(r.nxt, |data|), reorder := r'.reorder)
    ensures StreamInv(r', base, peer, read)
  {
    hide IsSomeSlice;
    var n := Taken(r, read);
    assert read + r'.buf == (read + r.buf) + data;
    assert peer[..n + |data|] == peer[..n] + peer[n..n + |data|];
    WrapAdd(base + n, |data|);
  }

  lemma {:induction false} DrainKeeps(r: Receiver, base: u32, peer: seq<u8>, read: seq<u8>)
    requires StreamInv(r, base, peer, read) && !r.closed
    ensures StreamInv(Drain(r), base, peer, read) && !Drain(r).closed
    decreases |r.reorder|
  {
    if r.nxt in r.reorder && |r.reorder[r.nxt]| <= Remaining(r) {
      var data := r.reorder[r.nxt];
      assert IsSomeSlice(peer, base, r.nxt, data);
      var k: nat :| IsSlice(peer, base, k, r.nxt, data);
      WrapIsInjective(base, k, Taken(r, read));
      var r' := r.(reorder := r.reorder - {r.nxt}, buf := r.buf + data, nxt := Add32(r.nxt, |data|));
      AppendKeeps(r, r', base, peer, read, data);
      DrainKeeps(r', base, peer, read);
    }
  }

  /** A FIN at the end of what has been taken in, which is then the whole stream. */
  lemma CloseKeeps(r: Receiver, base: u32, peer: seq<u8>, read: seq<u8>, hasFin: bool)
    requires StreamInv(r, base, peer, read) && !r.closed
    requires r.nxt == Wrap32(base + |peer|) || (r.hasFin && r.nxt == r.finSeq)
    requires hasFin ==> r.hasFin
    ensures StreamInv(r.(nxt := Add32(r.nxt, 1), closed := true, hasFin := hasFin), base, peer, read)
  {
    hide IsSomeSlice;
    WrapIsInjective(base, Taken(r, read), |peer|);
    WrapAdd(base + |peer|, 1);
  }

  /** A segment numbered nxt begins where the bytes taken in end, and there is none once the FIN is taken in. */
  lemma InOrderIsNext(r: Receiver, seg: Segment, base: u32, peer: seq<u8>, read: seq<u8>)
    requires StreamInv(r, base, peer, read) && FromPeer(seg, base, peer) && ConsumesSeq(seg) && seg.seqNum == r.nxt
    ensures !r.closed
    ensures IsSlice(peer, base, Taken(r, read), seg.seqNum, seg.payload)
    ensures seg.flags.fin ==> Add32(seg.seqNum, |seg.payload|) == Wrap32(base + |peer|)
  {
    hide IsSomeSlice;
    var k: nat :| IsSlice(peer, base, k, seg.seqNum, seg.payload) && (seg.flags.fin ==> k + |seg.payload| == |peer|);
    WrapIsInjective(base, k, Taken(r, read) + if r.closed then 1 else 0);
    WrapAdd(base + k, |seg.payload|);
  }

  lemma TakeInOrderKeeps(r: Receiver, seg: Segment, base: u32, peer: seq<u8>, read: seq<u8>)
    requires StreamInv(r, base, peer, read) && FromPeer(seg, base, peer) && ConsumesSeq(seg) && seg.seqNum == r.nxt
    ensures StreamInv(TakeInOrder(r, seg).0, base, peer, read)
  {
    hide StreamInv, FromPeer, Add32, Wrap32, Remaining, Drain;
    InOrderIsNext(r, seg, base, peer, read);
    var k, n, accept := Taken(r, read), |seg.payload|, Min(|seg.payload|, Remaining(r));
    var r1 := r.(buf := r.buf + seg.payload[..accept], nxt := Add32(r.nxt, accept));
    assert seg.payload[..accept] == peer[k..k + accept];
    AppendKeeps(r, r1, base, peer, read, seg.payload[..accept]);
    if accept == n {
      DrainKeeps(r1, base, peer, read);
      var r2 := Drain(r1);
      if seg.flags.fin && Add32(seg.seqNum, n) == r2.nxt {
        CloseKeeps(r2, base, peer, read, r2.hasFin);
      } else if r2.hasFin && r2.nxt == r2.finSeq {
        CloseKeeps(r2, base, peer, read, false);
      }
    }
  }

  lemma KeepEarlyKeeps(r: Receiver, seg: Segment, base: u32, peer: seq<u8>, read: seq<u8>)
    requires StreamInv(r, base, peer, read) && FromPeer(seg, base, peer) && ConsumesSeq(seg)
    ensures StreamInv(KeepEarly(r, seg), base, peer, read)
  {
    var k: nat :| IsSlice(peer, base, k, seg.seqNum, seg.payload) && (seg.flags.fin ==> k + |seg.payload| == |peer|);
    assert IsSomeSlice(peer, base, seg.seqNum, seg.payload);
    WrapAdd(base + k, |seg.payload|);
  }

  /** Any slice of the stream, new or old, early or late, keeps what has been taken in a prefix of it. */
  lemma TakeDataKeeps(r: Receiver, seg: Segment, base: u32, peer: seq<u8>, read: seq<u8>)
    requires StreamInv(r, base, peer, read) && FromPeer(seg, base, peer)
    ensures StreamInv(TakeData(r, seg).0, base, peer, read)
  {
    hide TakeInOrder, KeepEarly, StreamInv;
    if ConsumesSeq(seg) && seg.seqNum == r.nxt {
      TakeInOrderKeeps(r, seg, base, peer, read);
    } else if ConsumesSeq(seg) {
      KeepEarlyKeeps(r, seg, base, peer, read);
    }
  }

  /** Read hands over the front of the buffer. */
  lemma ReadKeeps(c: Conn, room: nat, base: u32, peer: seq<u8>, read: seq<u8>)
    ensures StreamInv(c.rcv, base, peer, read) ==>
      StreamInv(ReadSome(c, room).0.rcv, base, peer, read + ReadSome(c, room).1)
    ensures WithinBudget(c.rcv) ==> WithinBudget(ReadSome(c, room).0.rcv)
  {
    var n := Min(room, |c.rcv.buf|);
    assert c.rcv.buf == c.rcv.buf[..n] + c.rcv.buf[n..];
    assert read + c.rcv.buf == read + c.rcv.buf[..n] + c.rcv.buf[n..];
  }

  /** The end of the stream is reported only when all of it has been read. */
  lemma EofIsTheEnd(c: Conn, base: u32, peer: seq<u8>, read: seq<u8>)
    requires StreamInv(c.rcv, base, peer, read) && ReadsEof(c)
    ensures read == peer
  {
    assert read + c.rcv.buf == read;
  }
}
