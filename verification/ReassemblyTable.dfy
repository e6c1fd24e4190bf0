/** One session's reassembly state (netstack/reassembly.go): the buffers, the byte charge, the expiry sweep and add,
    with a record of what each buffer has stored. */
module ReassemblyTable {
  import opened Words
  import opened Checksum
  import opened IPv4
  import opened Reassembly

  const MAX_BUFFERS := 16
  const MAX_BYTES := 256 * 1024
  const TIMEOUT := 30_000_000_000

  /** RFC 791's reassembly identity. */
  datatype Key = Key(src: Addr, dst: Addr, protocol: u8, id: u16)

  datatype Limits = Limits(maxBufs: nat, maxBytes: nat, timeout: nat)

  /** Each override when non-zero, the default otherwise. */
  function Resolve(o: Limits): Limits {
    Limits(if o.maxBufs == 0 then MAX_BUFFERS else o.maxBufs,
           if o.maxBytes == 0 then MAX_BYTES else o.maxBytes,
           if o.timeout == 0 then TIMEOUT else o.timeout)
  }

  /** Overrides that are set are kept, and what is not set gets its default; so a resolved limit is never zero. */
  lemma ResolvedLimits(o: Limits)
    ensures Resolve(o).maxBufs > 0 && Resolve(o).maxBytes > 0 && Resolve(o).timeout > 0
    ensures o.maxBufs > 0 && o.maxBytes > 0 && o.timeout > 0 ==> Resolve(o) == o
    ensures Resolve(Limits(0, 0, 0)) == Limits(16, 262144, 30_000_000_000)
    ensures Resolve(Resolve(o)) == Resolve(o)
  {
  }

  datatype Table = Table(bufs: map<Key, Buffer>, bytes: int, closed: bool)

  function KeyOf(h: Header): Key {
    Key(h.src, h.dst, h.protocol, h.id)
  }

  /** The fragment a parsed packet carries. */
  function FragOf(h: Header, pkt: seq<u8>): Frag
    requires h.ihl <= h.totalLen <= |pkt|
  {
    Frag(h.fragOffset, pkt[h.ihl..h.totalLen], h.moreFragments, pkt[..h.ihl])
  }

  /** A packet add may be given: parsed, and a fragment. */
  predicate Fragmentary(h: Header, pkt: seq<u8>) {
    Parse(pkt) == Parsed(h) && h.IsFragment()
  }

  lemma SliceOfPrefix(s: seq<u8>, n: nat, a: nat, b: nat)
    requires a <= b <= n <= |s|
    ensures s[..n][a..b] == s[a..b]
  {
  }

  lemma FragmentaryIsValid(h: Header, pkt: seq<u8>)
    requires Fragmentary(h, pkt)
    ensures h.ihl <= h.totalLen <= |pkt| && FragOf(h, pkt).Valid() && Owns(KeyOf(h), FragOf(h, pkt).header)
  {
    ParsedHeaderIsWellFormed(pkt);
    hide Parse;
    SliceOfPrefix(pkt, h.ihl, 12, 16);
    SliceOfPrefix(pkt, h.ihl, 16, 20);
  }

  /** header is one a fragment of k's datagram may carry. */
  predicate Owns(k: Key, header: seq<u8>) {
    && WellFormed(header) && header[9] == k.protocol
    && header[12..16] == k.src && header[16..20] == k.dst && Get16(header, 4) == k.id
  }

  // ---- the byte charge ----

  ghost function TotalData(m: map<Key, Buffer>): nat
    decreases |m|
  {
    if m == map[] then 0
    else
      var k :| k in m;
      |m[k].data| + TotalData(m - {k})
  }

  lemma {:induction false} TotalRemove(m: map<Key, Buffer>, k: Key)
    requires k in m
    ensures TotalData(m) == |m[k].data| + TotalData(m - {k})
    decreases |m|
  {
    var k0 :| k0 in m && TotalData(m) == |m[k0].data| + TotalData(m - {k0});
    if k0 != k {
      TotalRemove(m - {k0}, k);
      TotalRemove(m - {k}, k0);
      assert m - {k0} - {k} == m - {k} - {k0};
    }
  }

  lemma TotalUpdate(m: map<Key, Buffer>, k: Key, b: Buffer)
    ensures TotalData(m[k := b]) == |b.data| + TotalData(m - {k})
  {
    TotalRemove(m[k := b], k);
    assert m[k := b] - {k} == m - {k};
  }

  lemma TotalAbsent(m: map<Key, Buffer>, k: Key)
    requires k !in m
    ensures m - {k} == m
  {
  }

  // ---- add ----

  function Live(bufs: map<Key, Buffer>, now: int): map<Key, Buffer> {
    map k | k in bufs && now < bufs[k].expires :: bufs[k]
  }

  /** The table once every buffer whose deadline has come is dropped and its bytes returned. */
  ghost function Swept(t: Table, now: int): Table {
    Table(Live(t.bufs, now), t.bytes - TotalData(t.bufs) + TotalData(Live(t.bufs, now)), t.closed)
  }

  function BufferFor(bufs: map<Key, Buffer>, k: Key, deadline: int): Buffer {
    if k in bufs then bufs[k] else NewBuffer(deadline)
  }

  /** Every buffer's header is absent or a real header. */
  predicate HeadersOk(bufs: map<Key, Buffer>) {
    forall k :: k in bufs ==> bufs[k].header == [] || MIN_HEADER <= |bufs[k].header|
  }

  function Settle(bufs: map<Key, Buffer>, k: Key, o: Offered): Table {
    Table(if o.kept.Some? then bufs[k := o.kept.value] else bufs - {k}, o.bytes, false)
  }

  ghost function Add(t: Table, lim: Limits, now: int, k: Key, f: Frag): (Table, Outcome, seq<u8>)
    requires f.Valid() && HeadersOk(t.bufs)
  {
    if t.closed then (t, Closed, [])
    else
      var s := Swept(t, now);
      if k !in s.bufs && |s.bufs| >= lim.maxBufs then (s, BoundExceeded, [])
      else
        var o := Offer(BufferFor(s.bufs, k, now + lim.timeout), f, s.bytes, lim.maxBytes);
        (Settle(s.bufs, k, o), o.out, o.datagram)
  }

  function Discarded(t: Table): Table {
    Table(map[], 0, true)
  }

  // ---- runs, with what each buffer has accepted ----

  datatype Arrival = Arrival(frag: Frag, at: int)

  function Frags(h: seq<Arrival>): (r: seq<Frag>)
    ensures |r| == |h| && forall i :: 0 <= i < |h| ==> r[i] == h[i].frag
  {
    seq(|h|, i requires 0 <= i < |h| => h[i].frag)
  }

  /** The table and, for each buffer, the fragments it has stored and when they came. */
  datatype Traced = Traced(table: Table, hist: map<Key, seq<Arrival>>)

  datatype Event = Arrives(now: int, hdr: Header, pkt: seq<u8>) | Discard

  predicate Wanted(e: Event, clock: int) {
    e.Arrives? ==> Fragmentary(e.hdr, e.pkt) && clock <= e.now
  }

  function HistFor(hist: map<Key, seq<Arrival>>, k: Key): seq<Arrival> {
    if k in hist then hist[k] else []
  }

  /** The histories of the buffers a sweep keeps. */
  function LiveHist(tr: Traced, now: int): map<Key, seq<Arrival>> {
    map j | j in tr.hist && j in Live(tr.table.bufs, now) :: tr.hist[j]
  }

  ghost function TraceAdd(tr: Traced, lim: Limits, now: int, k: Key, f: Frag): Traced
    requires f.Valid() && HeadersOk(tr.table.bufs)
  {
    var (t, out, _) := Add(tr.table, lim, now, k, f);
    var hist := LiveHist(tr, now);
    if tr.table.closed then tr
    else
      Traced(t,
             if k !in t.bufs then hist - {k}
             else if out == Buffered || out == Duplicate then hist[k := HistFor(hist, k) + [Arrival(f, now)]]
             else hist[k := HistFor(hist, k)])
  }

  /** A buffer of k: it refines its fragments, every one of them k's and within the timeout of the first. */
  ghost predicate BufferOk(k: Key, b: Buffer, h: seq<Arrival>, lim: Limits, clock: int) {
    && Refines(b, Frags(h))
    && b.expires - lim.timeout <= clock
    && (forall i :: 0 <= i < |h| ==>
          Owns(k, h[i].frag.header) && b.expires - lim.timeout <= h[i].at < b.expires && h[i].at <= clock)
  }

  ghost predicate Inv(tr: Traced, lim: Limits, clock: int) {
    var t := tr.table;
    && HeadersOk(t.bufs)
    && t.bytes == TotalData(t.bufs) <= lim.maxBytes && |t.bufs| <= lim.maxBufs
    && (t.closed ==> t.bufs == map[])
    && tr.hist.Keys == t.bufs.Keys
    && (forall k :: k in t.bufs ==> BufferOk(k, t.bufs[k], tr.hist[k], lim, clock))
  }

  // ---- what offering a fragment keeps ----

  /** The charge follows the buffer: whatever becomes of it, the bytes charged are the bytes held, within the cap. */
  lemma OfferCharges(b: Buffer, f: Frag, bytes: int, maxBytes: nat)
    requires f.Valid() && (b.header == [] || MIN_HEADER <= |b.header|) && |b.data| <= bytes <= maxBytes
    ensures var o := Offer(b, f, bytes, maxBytes);
            && o.bytes == bytes - |b.data| + (if o.kept.Some? then |o.kept.value.data| else 0)
            && o.bytes <= maxBytes
            && (o.kept.Some? ==>
                  && o.kept.value.expires == b.expires
                  && (o.kept.value.header == [] || MIN_HEADER <= |o.kept.value.header|))
  {
  }

  lemma SettleCharges(bufs: map<Key, Buffer>, k: Key, b: Buffer, bytes: int, o: Offered)
    requires bytes == TotalData(bufs) && b == BufferFor(bufs, k, b.expires)
    requires o.bytes == bytes - |b.data| + (if o.kept.Some? then |o.kept.value.data| else 0)
    ensures Settle(bufs, k, o).bytes == TotalData(Settle(bufs, k, o).bufs)
  {
    if k in bufs {
      TotalRemove(bufs, k);
    } else {
      TotalAbsent(bufs, k);
    }
    if o.kept.Some? {
      TotalUpdate(bufs, k, o.kept.value);
    }
  }

  lemma OfferRefines(b: Buffer, h: seq<Arrival>, f: Frag, now: int, bytes: int, maxBytes: nat)
    requires Refines(b, Frags(h)) && f.Valid() && (b.header == [] || MIN_HEADER <= |b.header|)
    ensures var o := Offer(b, f, bytes, maxBytes);
            && (o.out == Buffered || o.out == Duplicate ==>
                  o.kept.Some? && Refines(o.kept.value, Frags(h + [Arrival(f, now)])))
            && (o.kept.Some? && o.out != Buffered && o.out != Duplicate ==> Refines(o.kept.value, Frags(h)))
  {
    if !Conflicts(b, f) {
      StoreRefines(b, Frags(h), f);
      DeclareRefines(b, Frags(h), f);
      assert Frags(h + [Arrival(f, now)]) == Frags(h) + [f];
    }
  }
}
