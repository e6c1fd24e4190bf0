/** One datagram under reassembly (netstack/reassembly.go), for arbitrary fragments of valid geometry,
    overlapping and contradictory ones included. The hole list refines the set of bytes not yet supplied. */
module Reassembly {
  import opened Words
  import opened IPv4
  import opened Holes

  const HOLE_OPEN_END := MAX_DATAGRAM - 1

  datatype Frag = Frag(first: nat, payload: seq<u8>, more: bool, header: seq<u8>)
  {
    function End(): nat { first + |payload| }

    /** What parseIPv4 has already checked. */
    predicate Valid() {
      && GoodGeometry(more, first, |payload|) && first % 8 == 0
      && MIN_HEADER <= |header|
    }

    predicate Covers(x: int) { first <= x < End() }
  }

  /** header is empty until the offset-0 fragment arrives; totalLen is -1 until a final fragment declares it. */
  datatype Buffer = Buffer(header: seq<u8>, data: seq<u8>, holes: seq<Hole>, totalLen: int, expires: int)

  function NewBuffer(expires: int): Buffer {
    Buffer([], [], [Hole(0, HOLE_OPEN_END)], -1, expires)
  }

  function Grown(data: seq<u8>, n: nat): (r: seq<u8>)
    ensures |r| == if n > |data| then n else |data|
    ensures forall i :: 0 <= i < |data| ==> r[i] == data[i]
  {
    if n > |data| then data + seq(n - |data|, _ => 0) else data
  }

  /** Newer bytes win. */
  function Overlay(data: seq<u8>, first: nat, payload: seq<u8>): (r: seq<u8>)
    ensures |r| == if first + |payload| > |data| then first + |payload| else |data|
    ensures forall i :: first <= i < first + |payload| ==> r[i] == payload[i - first]
    ensures forall i :: 0 <= i < |data| && !(first <= i < first + |payload|) ==> r[i] == data[i]
  {
    var g := Grown(data, first + |payload|);
    g[..first] + payload + g[first + |payload|..]
  }

  datatype Outcome = Buffered | Complete | Duplicate | Conflict | BoundExceeded | Closed

  /** What offering a fragment to a buffer does: the buffer kept (if any), the byte charge, and what add reports. */
  datatype Offered = Offered(kept: Option<Buffer>, bytes: int, out: Outcome, datagram: seq<u8>)

  predicate Conflicts(b: Buffer, f: Frag) {
    b.totalLen >= 0 && (f.End() > b.totalLen || (!f.more && b.totalLen != f.End()))
  }

  function Declared(b: Buffer, f: Frag): Buffer {
    if f.more then b else b.(totalLen := f.End())
  }

  function Growth(b: Buffer, f: Frag): nat {
    if f.End() > |b.data| then f.End() - |b.data| else 0
  }

  function Store(b: Buffer, f: Frag): Buffer
    requires |f.payload| > 0
  {
    Buffer(
      if f.first == 0 then f.header else b.header,
      Overlay(b.data, f.first, f.payload),
      Punch(b.holes, f.first, f.End() - 1, f.more),
      Declared(b, f).totalLen,
      b.expires)
  }

  predicate Ready(b: Buffer) {
    b.holes == [] && 0 <= b.totalLen <= |b.data| && b.header != []
  }

  /** The reassembled packet: the offset-0 header over the payload, not a fragment any more. */
  function Datagram(b: Buffer): seq<u8>
    requires MIN_HEADER <= |b.header| && 0 <= b.totalLen <= |b.data| && |b.header| + b.totalLen <= MAX_DATAGRAM
  {
    Assembled(b.header, b.data[..b.totalLen], Get16(b.header, 4), 0)
  }

  function Offer(b: Buffer, f: Frag, bytes: int, maxBytes: nat): Offered
    requires f.Valid() && (b.header == [] || MIN_HEADER <= |b.header|)
  {
    if Conflicts(b, f) then Offered(None, bytes - |b.data|, Conflict, [])
    else if bytes + Growth(b, f) > maxBytes then Offered(Some(Declared(b, f)), bytes, BoundExceeded, [])
    else
      var b' := Store(b, f);
      var bytes' := bytes + Growth(b, f);
      if !Fills(b.holes, f.first, f.End() - 1) then Offered(Some(b'), bytes', Duplicate, [])
      else if !Ready(b') then Offered(Some(b'), bytes', Buffered, [])
      else if |b'.header| + b'.totalLen > MAX_DATAGRAM then Offered(None, bytes' - |b'.data|, Conflict, [])
      else Offered(None, bytes' - |b'.data|, Complete, Datagram(b'))
  }

  // ---- what a buffer means: the fragments it has accepted, in order ----

  /** The byte the latest accepted fragment covering x supplies. */
  function Latest(hist: seq<Frag>, x: int): Option<u8> {
    if hist == [] then None
    else
      var f := hist[|hist| - 1];
      if f.Covers(x) then Some(f.payload[x - f.first]) else Latest(hist[..|hist| - 1], x)
  }

  /** The header of the latest accepted offset-0 fragment, or empty. */
  function LatestHeader(hist: seq<Frag>): seq<u8> {
    if hist == [] then []
    else if hist[|hist| - 1].first == 0 then hist[|hist| - 1].header
    else LatestHeader(hist[..|hist| - 1])
  }

  /** The end an accepted final fragment gives the datagram. */
  function EndOf(hist: seq<Frag>): Option<nat> {
    if hist == [] then None
    else if !hist[|hist| - 1].more then Some(hist[|hist| - 1].End())
    else EndOf(hist[..|hist| - 1])
  }

  /** One past the last byte that may still be missing. */
  function Limit(hist: seq<Frag>): nat {
    if EndOf(hist).Some? then EndOf(hist).value else MAX_DATAGRAM
  }

  /** The hole list is exactly the set of bytes below the limit that no accepted fragment supplied, in order;
      every supplied byte is held as the latest fragment gave it. */
  ghost predicate Refines(b: Buffer, hist: seq<Frag>) {
    && (forall i :: 0 <= i < |hist| ==> hist[i].Valid())
    && Sorted(b.holes)
    && (forall x :: Missing(b.holes, x) <==> 0 <= x < Limit(hist) && Latest(hist, x).None?)
    && (forall x :: Latest(hist, x).Some? ==> 0 <= x < |b.data| && b.data[x] == Latest(hist, x).value)
    && b.header == LatestHeader(hist)
    && (EndOf(hist).Some? ==> b.totalLen == EndOf(hist).value)
    && b.totalLen >= -1
  }

  lemma NewBufferRefines(expires: int)
    ensures Refines(NewBuffer(expires), [])
  {
    var holes := NewBuffer(expires).holes;
    forall x ensures Missing(holes, x) <==> 0 <= x < MAX_DATAGRAM {
      assert holes[0] == Hole(0, HOLE_OPEN_END);
    }
  }

  lemma HistorySnoc(hist: seq<Frag>, f: Frag, x: int)
    ensures Latest(hist + [f], x) == if f.Covers(x) then Some(f.payload[x - f.first]) else Latest(hist, x)
    ensures EndOf(hist + [f]) == if f.more then EndOf(hist) else Some(f.End())
    ensures LatestHeader(hist + [f]) == if f.first == 0 then f.header else LatestHeader(hist)
  {
    assert (hist + [f])[..|hist|] == hist;
  }

  lemma StoreMissing(b: Buffer, hist: seq<Frag>, f: Frag, x: int)
    requires Refines(b, hist) && f.Valid() && !Conflicts(b, f)
    ensures Missing(Store(b, f).holes, x) <==> 0 <= x < Limit(hist + [f]) && Latest(hist + [f], x).None?
  {
    hide Latest, LatestHeader, EndOf, Punch, Overlay, Missing, Sorted;
    HistorySnoc(hist, f, x);
    PunchMissing(b.holes, f.first, f.End() - 1, f.more, x);
  }

  lemma StoreBytes(b: Buffer, hist: seq<Frag>, f: Frag, x: int)
    requires Refines(b, hist) && f.Valid() && Latest(hist + [f], x).Some?
    ensures 0 <= x < |Store(b, f).data| && Store(b, f).data[x] == Latest(hist + [f], x).value
  {
    HistorySnoc(hist, f, x);
  }

  /** Storing a fragment keeps the refinement: no order, overlap or repetition of fragments breaks it. */
  lemma StoreRefines(b: Buffer, hist: seq<Frag>, f: Frag)
    requires Refines(b, hist) && f.Valid() && !Conflicts(b, f)
    ensures Refines(Store(b, f), hist + [f])
  {
    var b', h' := Store(b, f), hist + [f];
    forall x ensures Missing(b'.holes, x) <==> 0 <= x < Limit(h') && Latest(h', x).None? {
      StoreMissing(b, hist, f, x);
    }
    forall x | Latest(h', x).Some? ensures 0 <= x < |b'.data| && b'.data[x] == Latest(h', x).value {
      StoreBytes(b, hist, f, x);
    }
    hide Latest, Limit, Missing;
    HistorySnoc(hist, f, 0);
    StoreSorted(b, f);
  }

  lemma StoreSorted(b: Buffer, f: Frag)
    requires Sorted(b.holes) && f.Valid()
    ensures Sorted(Store(b, f).holes)
  {
    hide Overlay, Declared, Punch;
    var limit := if b.holes == [] then 0 else b.holes[|b.holes| - 1].last;
    assert Below(b.holes, limit);
    PunchSorted(b.holes, f.first, f.End() - 1, f.more, limit);
  }

  /** A final fragment refused for want of room still declares the end, and the refinement does not depend on it. */
  lemma DeclareRefines(b: Buffer, hist: seq<Frag>, f: Frag)
    requires Refines(b, hist) && f.Valid() && !Conflicts(b, f)
    ensures Refines(Declared(b, f), hist)
  {
  }

  // ---- soundness for arbitrary fragments ----

  /** Fragments with more to follow end on an 8-byte boundary, so without a final one the last byte cannot arrive. */
  lemma {:induction false} LastByteNeedsFinal(hist: seq<Frag>)
    requires forall i :: 0 <= i < |hist| ==> hist[i].Valid()
    requires EndOf(hist).None?
    ensures Latest(hist, HOLE_OPEN_END).None?
  {
    if hist != [] {
      LastByteNeedsFinal(hist[..|hist| - 1]);
      var f := hist[|hist| - 1];
      assert f.End() % 8 == 0;
    }
  }

  /** A completed datagram: every byte below the accepted end came from the latest fragment covering it. */
  lemma CompleteIsSound(b: Buffer, hist: seq<Frag>, f: Frag, bytes: int, maxBytes: nat)
    requires Refines(b, hist) && f.Valid() && (b.header == [] || MIN_HEADER <= |b.header|)
    requires Offer(b, f, bytes, maxBytes).out == Complete
    ensures var h' := hist + [f]; var b' := Store(b, f);
            && EndOf(h') == Some(b'.totalLen) && 0 < b'.totalLen <= |b'.data|
            && (forall x :: 0 <= x < b'.totalLen ==> Latest(h', x) == Some(b'.data[x]))
            && b'.header == LatestHeader(h') && MIN_HEADER <= |b'.header| && |b'.header| + b'.totalLen <= MAX_DATAGRAM
            && Offer(b, f, bytes, maxBytes).datagram == Datagram(b')
  {
    var h', b' := hist + [f], Store(b, f);
    StoreRefines(b, hist, f);
    assert forall x :: !Missing(b'.holes, x);
    if EndOf(h').None? {
      LastByteNeedsFinal(h');
      assert false;
    }
    forall x | 0 <= x < b'.totalLen ensures Latest(h', x) == Some(b'.data[x]) {
      assert !Missing(b'.holes, x);
    }
    EndIsPositive(h');
  }

  lemma {:induction false} EndIsPositive(hist: seq<Frag>)
    requires forall i :: 0 <= i < |hist| ==> hist[i].Valid()
    ensures EndOf(hist).Some? ==> 0 < EndOf(hist).value <= MAX_DATAGRAM
  {
    if hist != [] {
      EndIsPositive(hist[..|hist| - 1]);
    }
  }

  // ---- completeness for slices of one payload ----

  /** f is a piece of p, marked final exactly when it reaches the end. */
  predicate SliceOf(f: Frag, p: seq<u8>) {
    f.Valid() && f.End() <= |p| && f.payload == p[f.first..f.End()] && f.more == (f.End() < |p|)
  }

  predicate AllSlices(hist: seq<Frag>, p: seq<u8>) {
    forall i :: 0 <= i < |hist| ==> SliceOf(hist[i], p)
  }

  predicate Covered(hist: seq<Frag>, n: nat) {
    forall x :: 0 <= x < n ==> Latest(hist, x).Some?
  }

  lemma {:induction false} SlicesAgree(hist: seq<Frag>, p: seq<u8>, x: int)
    requires AllSlices(hist, p)
    ensures Latest(hist, x).Some? ==> 0 <= x < |p| && Latest(hist, x).value == p[x]
    ensures EndOf(hist).Some? ==> EndOf(hist).value == |p|
    ensures x == |p| - 1 && Latest(hist, x).Some? ==> EndOf(hist).Some?
    ensures Latest(hist, 0).Some? ==> |LatestHeader(hist)| >= MIN_HEADER
  {
    if hist != [] {
      SlicesAgree(hist[..|hist| - 1], p, x);
    }
  }

  /** The state of a buffer that has seen only slices of p. */
  ghost predicate Slicing(b: Buffer, hist: seq<Frag>, p: seq<u8>) {
    && Refines(b, hist) && AllSlices(hist, p)
    && b.totalLen == (if EndOf(hist).Some? then |p| else -1)
    && (forall i :: 0 <= i < |hist| ==> |hist[i].header| + |p| <= MAX_DATAGRAM)
  }

  lemma SlicingStores(b: Buffer, hist: seq<Frag>, f: Frag, p: seq<u8>)
    requires Slicing(b, hist, p) && SliceOf(f, p) && |f.header| + |p| <= MAX_DATAGRAM
    ensures !Conflicts(b, f) && Slicing(Store(b, f), hist + [f], p)
  {
    SlicesAgree(hist, p, 0);
    StoreRefines(b, hist, f);
    HistorySnoc(hist, f, 0);
  }

  /** A buffer of slices is ready exactly when every byte of p has come, and then holds p. */
  lemma SlicingReady(b: Buffer, hist: seq<Frag>, p: seq<u8>)
    requires Slicing(b, hist, p) && |p| > 0
    ensures Ready(b) <==> Covered(hist, |p|)
    ensures Ready(b) ==>
              && b.totalLen == |p| <= |b.data| && b.data[..|p|] == p
              && MIN_HEADER <= |b.header| && |b.header| + |p| <= MAX_DATAGRAM
  {
    HeaderIsOne(hist);
    SlicesAgree(hist, p, 0);
    SlicesAgree(hist, p, |p| - 1);
    if Covered(hist, |p|) {
      assert Latest(hist, |p| - 1).Some? && Latest(hist, 0).Some?;
      NoHoles(b.holes, hist, |p|);
    }
    if Ready(b) {
      forall x | 0 <= x < |p| ensures Latest(hist, x).Some? && b.data[x] == p[x] {
        assert !Missing(b.holes, x);
        SlicesAgree(hist, p, x);
      }
    }
  }

  /** Among slices of one payload a buffer never conflicts, and completes exactly when the last missing byte arrives. */
  lemma SlicesComplete(b: Buffer, hist: seq<Frag>, f: Frag, p: seq<u8>, bytes: int, maxBytes: nat)
    requires Slicing(b, hist, p) && !Covered(hist, |p|)
    requires SliceOf(f, p) && |f.header| + |p| <= MAX_DATAGRAM
    requires bytes + Growth(b, f) <= maxBytes
    ensures b.header == [] || MIN_HEADER <= |b.header|
    ensures var o := Offer(b, f, bytes, maxBytes); var b' := Store(b, f);
            && Slicing(b', hist + [f], p)
            && (o.out == Complete <==> Covered(hist + [f], |p|))
            && (o.out == Complete ==>
                  var h := LatestHeader(hist + [f]);
                  && o.kept.None? && MIN_HEADER <= |h| && |h| + |p| <= MAX_DATAGRAM
                  && o.datagram == Assembled(h, p, Get16(h, 4), 0))
            && (o.out != Complete ==> (o.out == Buffered || o.out == Duplicate) && o.kept == Some(b'))
  {
    HeaderIsOne(hist);
    SlicingStores(b, hist, f, p);
    SlicingReady(Store(b, f), hist + [f], p);
    if Covered(hist + [f], |p|) {
      CoverFills(b, hist, f, p);
    }
  }

  /** The latest header is one of the history's. */
  lemma {:induction false} HeaderIsOne(hist: seq<Frag>)
    requires forall i :: 0 <= i < |hist| ==> hist[i].Valid()
    ensures LatestHeader(hist) == [] || exists i :: 0 <= i < |hist| && hist[i].header == LatestHeader(hist)
    ensures LatestHeader(hist) == [] || MIN_HEADER <= |LatestHeader(hist)|
  {
    if hist != [] {
      var n := |hist| - 1;
      HeaderIsOne(hist[..n]);
      if hist[n].first == 0 {
        assert hist[n].header == LatestHeader(hist);
      } else if LatestHeader(hist[..n]) != [] {
        var i :| 0 <= i < n && hist[..n][i].header == LatestHeader(hist[..n]);
        assert hist[i].header == LatestHeader(hist);
      }
    }
  }

  lemma CoverFills(b: Buffer, hist: seq<Frag>, f: Frag, p: seq<u8>)
    requires Refines(b, hist) && AllSlices(hist, p) && SliceOf(f, p)
    requires !Covered(hist, |p|) && Covered(hist + [f], |p|)
    ensures Fills(b.holes, f.first, f.End() - 1)
  {
    var x :| 0 <= x < |p| && Latest(hist, x).None?;
    assert Latest(hist + [f], x).Some?;
    HistorySnoc(hist, f, x);
    SlicesAgree(hist, p, x);
    assert Missing(b.holes, x);
    FillsIff(b.holes, f.first, f.End() - 1);
  }

  lemma NoHoles(holes: seq<Hole>, hist: seq<Frag>, n: nat)
    requires Sorted(holes) && Covered(hist, n) && Limit(hist) == n
    requires forall x :: Missing(holes, x) <==> 0 <= x < Limit(hist) && Latest(hist, x).None?
    ensures holes == []
  {
    assert holes == [] || Missing(holes, holes[0].first);
  }
}
