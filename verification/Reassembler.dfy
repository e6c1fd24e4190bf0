/** The reassembler as the program holds it: a buffer table and a byte counter, updated in place. */
module Reassembler {
  import opened Words
  import opened Checksum
  import opened IPv4
  import opened Holes
  import opened Reassembly
  import opened ReassemblyTable
  import T = ReassemblyTable

  class Reassembler {
    const overrides: Limits
    var bufs: map<Key, Buffer>
    var bytes: int
    var closed: bool

    function View(): Table
      reads this
    {
      Table(bufs, bytes, closed)
    }

    constructor (overrides: Limits)
      ensures this.overrides == overrides && View() == Table(map[], 0, false)
    {
      this.overrides := overrides;
      bufs, bytes, closed := map[], 0, false;
    }

    method Drop(k: Key)
      requires k in bufs
      modifies this`bufs, this`bytes
      ensures bufs == old(bufs) - {k} && bytes == old(bytes) - |old(bufs)[k].data|
    {
      bytes := bytes - |bufs[k].data|;
      bufs := bufs - {k};
    }

    /** Lazy expiry: one pass over the buffers, whatever order the map gives them in. */
    method Sweep(now: int) returns (expired: nat)
      modifies this`bufs, this`bytes
      ensures View() == Swept(old(View()), now)
      ensures expired == |old(bufs)| - |bufs|
    {
      hide TotalData;
      expired := 0;
      var keys := bufs.Keys;
      ghost var all := bufs;
      while keys != {}
        invariant Sweeping(all, bufs, keys, now)
        invariant bytes == old(bytes) - TotalData(all) + TotalData(bufs)
        invariant expired == |all| - |bufs|
        decreases |keys|
      {
        var k :| k in keys;
        SweepingStep(all, bufs, keys, now, k);
        if now >= bufs[k].expires {
          Drop(k);
          expired := expired + 1;
        }
        keys := keys - {k};
      }
      assert bufs == Live(all, now);
    }

    /** The header rewrite of a completed datagram. */
    static method BuildDatagram(b: Buffer) returns (out: seq<u8>)
      requires MIN_HEADER <= |b.header| && 0 <= b.totalLen <= |b.data| && |b.header| + b.totalLen <= MAX_DATAGRAM
      ensures out == Datagram(b)
    {
      var body := b.data[..b.totalLen];
      out := Patch16(b.header + body, 2, |b.header| + b.totalLen);
      KeepsId(b.header, body);
      out := Patch16(out, 6, 0);
      out := Patch16(out, 10, 0);
      var c := InternetChecksum(out[..|b.header|]);
      out := Patch16(out, 10, c);
    }

    method Add(now: int, hdr: Header, pkt: seq<u8>) returns (datagram: seq<u8>, out: Outcome, expired: nat)
      requires Fragmentary(hdr, pkt) && HeadersOk(bufs)
      modifies this`bufs, this`bytes
      ensures hdr.ihl <= hdr.totalLen <= |pkt| && FragOf(hdr, pkt).Valid()
      ensures (View(), out, datagram) == T.Add(old(View()), Resolve(overrides), now, KeyOf(hdr), FragOf(hdr, pkt))
      ensures !closed ==> expired == |old(bufs)| - |Live(old(bufs), now)|
    {
      FragmentaryIsValid(hdr, pkt);
      datagram, out, expired := AddFragment(now, KeyOf(hdr), FragOf(hdr, pkt));
    }

    method AddFragment(now: int, key: Key, f: Frag) returns (datagram: seq<u8>, out: Outcome, expired: nat)
      requires f.Valid() && HeadersOk(bufs)
      modifies this`bufs, this`bytes
      ensures (View(), out, datagram) == T.Add(old(View()), Resolve(overrides), now, key, f)
      ensures !closed ==> expired == |old(bufs)| - |Live(old(bufs), now)|
    {
      hide Offer, TotalData;
      if closed {
        return [], Closed, 0;
      }
      var lim := Resolve(overrides);
      expired := Sweep(now);
      if key !in bufs {
        if |bufs| >= lim.maxBufs {
          return [], BoundExceeded, expired;
        }
      }
      var o := Take(if key in bufs then bufs[key] else NewBuffer(now + lim.timeout), f, bytes, lim.maxBytes);
      if o.kept.Some? {
        bufs := bufs[key := o.kept.value];
      } else {
        bufs := bufs - {key};
      }
      bytes := o.bytes;
      return o.datagram, o.out, expired;
    }

    /** What add does with a fragment once it has its buffer. */
    static method Take(buf: Buffer, f: Frag, used: int, maxBytes: nat) returns (o: Offered)
      requires f.Valid() && (buf.header == [] || MIN_HEADER <= |buf.header|)
      ensures o == Offer(buf, f, used, maxBytes)
    {
      hide Datagram, Overlay, Punch, Fills;
      var b := buf;
      var last := f.End() - 1;
      if b.totalLen >= 0 && last >= b.totalLen {
        return Offered(None, used - |b.data|, Conflict, []);
      }
      if !f.more {
        if b.totalLen >= 0 && b.totalLen != last + 1 {
          return Offered(None, used - |b.data|, Conflict, []);
        }
        b := b.(totalLen := last + 1);
      }
      var grow := last + 1 - |b.data|;
      if grow < 0 {
        grow := 0;
      }
      if used + grow > maxBytes {
        return Offered(Some(b), used, BoundExceeded, []);
      }
      var newHoles, intersects := RebuildHoles(b.holes, f.first, last, f.more);
      b := b.(holes := newHoles, data := Overlay(b.data, f.first, f.payload));
      if f.first == 0 {
        b := b.(header := f.header);
      }
      if !intersects {
        return Offered(Some(b), used + grow, Duplicate, []);
      }
      if |b.holes| != 0 || b.totalLen < 0 || b.header == [] || b.totalLen > |b.data| {
        return Offered(Some(b), used + grow, Buffered, []);
      }
      if |b.header| + b.totalLen > MAX_DATAGRAM {
        return Offered(None, used + grow - |b.data|, Conflict, []);
      }
      var datagram := BuildDatagram(b);
      return Offered(None, used + grow - |b.data|, Complete, datagram);
    }

    method DiscardAll()
      modifies this
      ensures View() == Discarded(old(View()))
    {
      bufs, bytes, closed := map[], 0, true;
    }
  }

  /** Writing back the identification a header already carries changes nothing. */
  lemma KeepsId(header: seq<u8>, body: seq<u8>)
    requires MIN_HEADER <= |header| && |header| + |body| <= MAX_DATAGRAM
    ensures var p := Patch16(header + body, 2, |header| + |body|); Patch16(p, 4, Get16(header, 4)) == p
  {
    var v := Get16(header, 4);
    assert v / 0x100 == header[4] && v % 0x100 == header[5];
  }

  /** Part-way through a sweep: the buffers not in keys have been dealt with. */
  ghost predicate Sweeping(all: map<Key, Buffer>, bufs: map<Key, Buffer>, keys: set<Key>, now: int) {
    && keys <= bufs.Keys <= all.Keys
    && (forall k :: k in bufs ==> bufs[k] == all[k])
    && (forall k :: k in all && k !in keys ==> (k in bufs <==> now < all[k].expires))
  }

  lemma SweepingStep(all: map<Key, Buffer>, bufs: map<Key, Buffer>, keys: set<Key>, now: int, k: Key)
    requires Sweeping(all, bufs, keys, now) && k in keys
    ensures now >= bufs[k].expires ==>
              && Sweeping(all, bufs - {k}, keys - {k}, now) && |bufs - {k}| == |bufs| - 1
              && TotalData(bufs) == |bufs[k].data| + TotalData(bufs - {k})
    ensures now < bufs[k].expires ==> Sweeping(all, bufs, keys - {k}, now)
  {
    TotalRemove(bufs, k);
    assert (bufs - {k}).Keys == bufs.Keys - {k};
  }
}
