/** Offering fragments to a reassembly table, those of one datagram among those of others: while its payload is not yet
    covered the table holds exactly what has come of it, and what comes of the others does not touch that. */
module Feeding {
  import opened Words
  import opened IPv4
  import opened Reassembly
  import opened ReassemblyTable
  import opened ReassemblySafety

  lemma AddHeaders(t: Table, lim: Limits, now: int, k: Key, f: Frag)
    requires f.Valid() && HeadersOk(t.bufs)
    ensures HeadersOk(Add(t, lim, now, k, f).0.bufs)
  {
    hide Offer, TotalData;
    var s := Swept(t, now);
    OfferChargesAny(BufferFor(s.bufs, k, now + lim.timeout), f, s.bytes, lim.maxBytes);
  }

  /** The table after the first n offers. */
  ghost function Fed(t: Table, lim: Limits, keys: seq<Key>, frs: seq<Frag>, times: seq<int>, n: nat): (r: Table)
    requires n <= |frs| == |times| == |keys| && HeadersOk(t.bufs) && forall i :: 0 <= i < |frs| ==> frs[i].Valid()
    ensures HeadersOk(r.bufs)
  {
    if n == 0 then t
    else
      var before := Fed(t, lim, keys, frs, times, n - 1);
      AddHeaders(before, lim, times[n - 1], keys[n - 1], frs[n - 1]);
      Add(before, lim, times[n - 1], keys[n - 1], frs[n - 1]).0
  }

  /** Those of the first n that came under k. */
  function Own<T>(xs: seq<T>, keys: seq<Key>, k: Key, n: nat): (r: seq<T>)
    requires n <= |xs| == |keys|
  {
    if n == 0 then []
    else if keys[n - 1] == k then Own(xs, keys, k, n - 1) + [xs[n - 1]]
    else Own(xs, keys, k, n - 1)
  }

  lemma {:induction false} OwnIn<T>(xs: seq<T>, keys: seq<Key>, k: Key, n: nat, x: T)
    requires n <= |xs| == |keys|
    ensures x in Own(xs, keys, k, n) <==> exists i :: 0 <= i < n && keys[i] == k && xs[i] == x
  {
    if n > 0 {
      OwnIn(xs, keys, k, n - 1, x);
    }
  }

  /** A table with room for one more buffer, and none for k yet. */
  ghost predicate Room(t: Table, lim: Limits, k: Key) {
    !t.closed && HeadersOk(t.bufs) && k !in t.bufs && |t.bufs| < lim.maxBufs && t.bytes == TotalData(t.bufs)
  }

  /** What other datagrams hold leaves room for n bytes of k's. */
  ghost predicate Fits(t: Table, lim: Limits, k: Key, n: nat) {
    TotalData(t.bufs - {k}) + n <= lim.maxBytes
  }

  /** A table that has stored only frs for k, all of them slices of p, from time start on. */
  ghost predicate Holding(t: Table, lim: Limits, k: Key, frs: seq<Frag>, p: seq<u8>, start: int) {
    && !t.closed && HeadersOk(t.bufs) && k in t.bufs && t.bytes == TotalData(t.bufs)
    && t.bufs[k].expires == start + lim.timeout
    && |t.bufs[k].data| <= |p|
    && Slicing(t.bufs[k], frs, p)
  }

  predicate InTime(times: seq<int>, timeout: nat) {
    forall i :: 0 <= i < |times| ==> times[0] <= times[i] < times[0] + timeout
  }

  lemma SweptFits(t: Table, lim: Limits, k: Key, n: nat, now: int)
    requires Fits(t, lim, k, n)
    ensures Fits(Swept(t, now), lim, k, n)
  {
    LiveIsSmaller(t.bufs - {k}, now);
    assert Live(t.bufs, now) - {k} == Live(t.bufs - {k}, now);
  }

  lemma SweptRoom(t: Table, lim: Limits, k: Key, now: int)
    requires Room(t, lim, k)
    ensures Room(Swept(t, now), lim, k)
  {
    LiveIsSmaller(t.bufs, now);
  }

  lemma SweptHolding(t: Table, lim: Limits, k: Key, frs: seq<Frag>, p: seq<u8>, start: int, now: int)
    requires Holding(t, lim, k, frs, p, start) && now < start + lim.timeout
    ensures Holding(Swept(t, now), lim, k, frs, p, start)
  {
    hide Slicing, TotalData;
  }

  /** A fragment of another datagram leaves k's alone, whatever becomes of it. */
  lemma AddOther(t: Table, lim: Limits, k: Key, frs: seq<Frag>, p: seq<u8>, start: int, now: int, other: Key, f: Frag)
    requires Holding(t, lim, k, frs, p, start) && now < start + lim.timeout && other != k && f.Valid()
    ensures Holding(Add(t, lim, now, other, f).0, lim, k, frs, p, start)
  {
    hide Slicing, Offer, Add, TotalData;
    SweptHolding(t, lim, k, frs, p, start, now);
    var s := Swept(t, now);
    if other in s.bufs || |s.bufs| < lim.maxBufs {
      AddIsOffer(t, lim, now, other, f);
      var b := BufferFor(s.bufs, other, now + lim.timeout);
      OfferChargesAny(b, f, s.bytes, lim.maxBytes);
      SettleCharges(s.bufs, other, b, s.bytes, Offer(b, f, s.bytes, lim.maxBytes));
    } else {
      AddUnchanged(t, lim, now, other, f);
    }
  }

  lemma FreshSlicing(p: seq<u8>, expires: int)
    ensures Slicing(NewBuffer(expires), [], p)
  {
    NewBufferRefines(expires);
  }

  /** One more slice: it completes the datagram exactly when nothing is missing any more, and is kept otherwise. */
  lemma OfferSlice(s: Table, lim: Limits, k: Key, b: Buffer, frs: seq<Frag>, f: Frag, p: seq<u8>, start: int)
    requires Slicing(b, frs, p) && !Covered(frs, |p|) && SliceOf(f, p) && |f.header| + |p| <= MAX_DATAGRAM
    requires HeadersOk(s.bufs) && s.bytes == TotalData(s.bufs) && b == BufferFor(s.bufs, k, b.expires)
    requires b.expires == start + lim.timeout && |b.data| <= |p|
    requires s.bytes - |b.data| + |p| <= lim.maxBytes
    ensures b.header == [] || MIN_HEADER <= |b.header|
    ensures var o := Offer(b, f, s.bytes, lim.maxBytes);
            && (o.out == Complete <==> Covered(frs + [f], |p|))
            && (o.out == Complete ==>
                  var h := LatestHeader(frs + [f]);
                  MIN_HEADER <= |h| && |h| + |p| <= MAX_DATAGRAM && o.datagram == Assembled(h, p, Get16(h, 4), 0))
            && (o.out != Complete ==>
                  && (o.out == Buffered || o.out == Duplicate)
                  && Holding(Settle(s.bufs, k, o), lim, k, frs + [f], p, start))
  {
    hide Offer, Slicing, TotalData, Assembled, LatestHeader, Covered;
    SlicesComplete(b, frs, f, p, s.bytes, lim.maxBytes);
    var o := Offer(b, f, s.bytes, lim.maxBytes);
    OfferChargesAny(b, f, s.bytes, lim.maxBytes);
    SettleCharges(s.bufs, k, b, s.bytes, o);
    assert |Store(b, f).data| <= |p|;
  }

  /** The charge follows the buffer, whatever else is charged. */
  lemma OfferChargesAny(b: Buffer, f: Frag, bytes: int, maxBytes: nat)
    requires f.Valid() && (b.header == [] || MIN_HEADER <= |b.header|)
    ensures var o := Offer(b, f, bytes, maxBytes);
            && o.bytes == bytes - |b.data| + (if o.kept.Some? then |o.kept.value.data| else 0)
            && (o.kept.Some? ==>
                  && o.kept.value.expires == b.expires
                  && (o.kept.value.header == [] || MIN_HEADER <= |o.kept.value.header|))
  {
  }

  /** The bytes already charged, apart from k's own. */
  lemma OthersCharge(bufs: map<Key, Buffer>, k: Key, deadline: int)
    ensures TotalData(bufs) - |BufferFor(bufs, k, deadline).data| == TotalData(bufs - {k})
  {
    if k in bufs {
      TotalRemove(bufs, k);
    } else {
      TotalAbsent(bufs, k);
    }
  }

  /** What one offer does to a table with room for p, or already holding part of it. */
  lemma AddSlice(t: Table, lim: Limits, k: Key, frs: seq<Frag>, f: Frag, p: seq<u8>, start: int, now: int)
    requires 0 < lim.timeout && SliceOf(f, p) && |f.header| + |p| <= MAX_DATAGRAM && !Covered(frs, |p|)
    requires if frs == [] then Room(t, lim, k) && now == start
             else Holding(t, lim, k, frs, p, start) && now < start + lim.timeout
    requires Fits(t, lim, k, |p|)
    ensures HeadersOk(t.bufs)
    ensures var (t', out, d) := Add(t, lim, now, k, f);
            && (out == Complete <==> Covered(frs + [f], |p|))
            && (out == Complete ==>
                  var h := LatestHeader(frs + [f]);
                  MIN_HEADER <= |h| && |h| + |p| <= MAX_DATAGRAM && d == Assembled(h, p, Get16(h, 4), 0))
            && (out != Complete ==> (out == Buffered || out == Duplicate) && Holding(t', lim, k, frs + [f], p, start))
  {
    hide Offer, Slicing, TotalData, Assembled, LatestHeader, Covered, Add;
    if frs == [] {
      SweptRoom(t, lim, k, now);
      FreshSlicing(p, now + lim.timeout);
    } else {
      SweptHolding(t, lim, k, frs, p, start, now);
    }
    SweptFits(t, lim, k, |p|, now);
    var s := Swept(t, now);
    OthersCharge(s.bufs, k, now + lim.timeout);
    AddIsOffer(t, lim, now, k, f);
    OfferSlice(s, lim, k, BufferFor(s.bufs, k, now + lim.timeout), frs, f, p, start);
  }

  /** Every offer before the payload is covered leaves the table holding exactly what has come for k. */
  lemma {:induction false} FedHolds(
    t: Table, lim: Limits, k: Key, keys: seq<Key>, frs: seq<Frag>, times: seq<int>, p: seq<u8>, n: nat)
    requires Feedable(t, lim, k, keys, frs, times, p) && 0 < n <= |frs| && !Covered(Own(frs, keys, k, n), |p|)
    ensures Own(frs, keys, k, n) != []
    ensures Holding(Fed(t, lim, keys, frs, times, n), lim, k, Own(frs, keys, k, n), p, times[0])
  {
    hide Slicing, Room, Fits, Holding, Add, Covered;
    var own := Own(frs, keys, k, n - 1);
    var r := Fed(t, lim, keys, frs, times, n - 1);
    CoveredGrows(own, frs[n - 1], |p|);
    if n > 1 {
      FedHolds(t, lim, k, keys, frs, times, p, n - 1);
    }
    if keys[n - 1] == k {
      AddSlice(r, lim, k, own, frs[n - 1], p, times[0], times[n - 1]);
    } else {
      AddOther(r, lim, k, own, p, times[0], times[n - 1], keys[n - 1], frs[n - 1]);
    }
  }

  lemma CoveredGrows(hist: seq<Frag>, f: Frag, n: nat)
    ensures Covered(hist, n) ==> Covered(hist + [f], n)
  {
    if Covered(hist, n) {
      forall x | 0 <= x < n ensures Latest(hist + [f], x).Some? {
        HistorySnoc(hist, f, x);
      }
    }
  }

  /** The first offer is under k and finds a free buffer; whatever comes under k is a slice of p, and finds room for p
      beside what other datagrams hold; everything comes within the timeout of the first offer. */
  ghost predicate Feedable(
    t: Table, lim: Limits, k: Key, keys: seq<Key>, frs: seq<Frag>, times: seq<int>, p: seq<u8>)
  {
    && 0 < |keys| == |frs| == |times| && keys[0] == k && Room(t, lim, k)
    && 0 < |p| && 0 < lim.timeout && InTime(times, lim.timeout)
    && (forall i :: 0 <= i < |frs| ==> frs[i].Valid())
    && (forall i :: 0 <= i < |frs| && keys[i] == k ==> SliceOf(frs[i], p) && |frs[i].header| + |p| <= MAX_DATAGRAM)
    && (forall i :: 0 <= i < |frs| && keys[i] == k ==> Fits(Fed(t, lim, keys, frs, times, i), lim, k, |p|))
  }

  /** An offer under k reports completion exactly when it supplies the last missing byte, and then returns p under the
      offset-0 header. */
  lemma FeedCompletes(
    t: Table, lim: Limits, k: Key, keys: seq<Key>, frs: seq<Frag>, times: seq<int>, p: seq<u8>, n: nat)
    requires Feedable(t, lim, k, keys, frs, times, p) && n < |frs| && keys[n] == k
    requires !Covered(Own(frs, keys, k, n), |p|)
    ensures var (_, out, d) := Add(Fed(t, lim, keys, frs, times, n), lim, times[n], k, frs[n]);
            && (out == Complete <==> Covered(Own(frs, keys, k, n + 1), |p|))
            && (out != Complete ==> out == Buffered || out == Duplicate)
            && (out == Complete ==>
                  var h := LatestHeader(Own(frs, keys, k, n + 1));
                  MIN_HEADER <= |h| && |h| + |p| <= MAX_DATAGRAM && d == Assembled(h, p, Get16(h, 4), 0))
  {
    hide Slicing, Room, Fits, Holding, Add, Assembled, LatestHeader;
    if n > 0 {
      FedHolds(t, lim, k, keys, frs, times, p, n);
    }
    AddSlice(Fed(t, lim, keys, frs, times, n), lim, k, Own(frs, keys, k, n), frs[n], p, times[0], times[n]);
  }
}
