/** What every run of add and discardAll keeps, under a clock that does not go back: budgets, isolation between
    datagrams and the time limit; and what a completed datagram is made of. */
module ReassemblySafety {
  import opened Words
  import opened IPv4
  import opened Reassembly
  import opened ReassemblyTable

  /** A buffer at the head of the sweep: within budget, and kept only before its deadline. */
  lemma SweptKeeps(tr: Traced, lim: Limits, clock: int, now: int)
    requires Inv(tr, lim, clock) && clock <= now
    ensures var s := Swept(tr.table, now);
            && HeadersOk(s.bufs) && s.bytes == TotalData(s.bufs) <= lim.maxBytes && |s.bufs| <= lim.maxBufs
            && s.bufs.Keys <= tr.table.bufs.Keys
  {
    var bufs, live := tr.table.bufs, Live(tr.table.bufs, now);
    LiveIsSmaller(bufs, now);
  }

  lemma {:induction false} LiveIsSmaller(bufs: map<Key, Buffer>, now: int)
    ensures TotalData(Live(bufs, now)) <= TotalData(bufs) && |Live(bufs, now)| <= |bufs|
    decreases |bufs|
  {
    if bufs != map[] {
      var k :| k in bufs;
      LiveIsSmaller(bufs - {k}, now);
      TotalRemove(bufs, k);
      var live := Live(bufs, now);
      assert live - {k} == Live(bufs - {k}, now);
      if k in live {
        TotalRemove(live, k);
      } else {
        assert live - {k} == live;
      }
      assert live.Keys <= bufs.Keys;
      SubsetSize(live.Keys, bufs.Keys);
    }
  }

  lemma SubsetSize(a: set<Key>, b: set<Key>)
    requires a <= b
    ensures |a| <= |b|
  {
    assert b == a + (b - a);
  }

  lemma AddIsOffer(t: Table, lim: Limits, now: int, k: Key, f: Frag)
    requires f.Valid() && HeadersOk(t.bufs) && !t.closed
    requires k in Live(t.bufs, now) || |Live(t.bufs, now)| < lim.maxBufs
    ensures var s := Swept(t, now);
            var b := BufferFor(s.bufs, k, now + lim.timeout);
            var o := Offer(b, f, s.bytes, lim.maxBytes);
            Add(t, lim, now, k, f) == (Settle(s.bufs, k, o), o.out, o.datagram)
  {
    hide Offer, TotalData;
  }

  lemma BufferOkLater(k: Key, b: Buffer, h: seq<Arrival>, lim: Limits, clock: int, now: int)
    requires BufferOk(k, b, h, lim, clock) && clock <= now
    ensures BufferOk(k, b, h, lim, now)
  {
    hide Refines, Owns;
  }

  lemma NewBufferOk(k: Key, lim: Limits, now: int)
    ensures BufferOk(k, NewBuffer(now + lim.timeout), [], lim, now)
  {
    NewBufferRefines(now + lim.timeout);
    assert Frags([]) == [];
  }

  /** The buffer a fragment goes to: its own, or a new one whose deadline starts now. */
  lemma BufferForOk(tr: Traced, lim: Limits, clock: int, now: int, k: Key)
    requires Inv(tr, lim, clock) && clock <= now && 0 < lim.timeout
    ensures var s := Swept(tr.table, now);
            var b := BufferFor(s.bufs, k, now + lim.timeout);
            var h := HistFor(LiveHist(tr, now), k);
            && BufferOk(k, b, h, lim, now) && now < b.expires
            && (b.header == [] || MIN_HEADER <= |b.header|)
            && |b.data| <= s.bytes
  {
    hide BufferOk, TotalData;
    var s := Swept(tr.table, now);
    SweptKeeps(tr, lim, clock, now);
    if k in s.bufs {
      TotalRemove(s.bufs, k);
      BufferOkLater(k, s.bufs[k], tr.hist[k], lim, clock, now);
    } else {
      NewBufferOk(k, lim, now);
    }
  }

  lemma SettleSize(bufs: map<Key, Buffer>, k: Key, o: Offered, maxBufs: nat)
    requires |bufs| <= maxBufs && (k in bufs || |bufs| < maxBufs)
    ensures |Settle(bufs, k, o).bufs| <= maxBufs
  {
    if o.kept.Some? {
      var m := bufs[k := o.kept.value];
      assert m.Keys == bufs.Keys + {k};
    } else {
      assert (bufs - {k}).Keys <= bufs.Keys;
      SubsetSize((bufs - {k}).Keys, bufs.Keys);
    }
  }

  /** The buffer kept after an offer is still good, with the fragment added to its history if it was stored. */
  lemma KeptIsOk(k: Key, b: Buffer, h: seq<Arrival>, f: Frag, lim: Limits, now: int, bytes: int)
    requires BufferOk(k, b, h, lim, now) && now < b.expires && f.Valid() && Owns(k, f.header)
    requires (b.header == [] || MIN_HEADER <= |b.header|) && |b.data| <= bytes <= lim.maxBytes
    ensures var o := Offer(b, f, bytes, lim.maxBytes);
            o.kept.Some? ==>
              BufferOk(k, o.kept.value, if o.out == Buffered || o.out == Duplicate then h + [Arrival(f, now)] else h,
                       lim, now)
  {
    hide Offer, Refines, Owns;
    OfferRefines(b, h, f, now, bytes, lim.maxBytes);
    OfferCharges(b, f, bytes, lim.maxBytes);
  }

  /** The table and histories after one offer, key by key. */
  lemma TracedBuffers(tr: Traced, lim: Limits, now: int, k: Key, f: Frag, o: Offered)
    requires f.Valid() && HeadersOk(tr.table.bufs) && tr.hist.Keys == tr.table.bufs.Keys && !tr.table.closed
    requires Add(tr.table, lim, now, k, f) == (Settle(Live(tr.table.bufs, now), k, o), o.out, o.datagram)
    ensures var tr' := TraceAdd(tr, lim, now, k, f);
            && tr'.table == Settle(Live(tr.table.bufs, now), k, o) && tr'.hist.Keys == tr'.table.bufs.Keys
            && (forall j :: j in tr'.table.bufs && j != k ==>
                  j in tr.table.bufs && tr'.table.bufs[j] == tr.table.bufs[j] && tr'.hist[j] == tr.hist[j])
            && (k in tr'.table.bufs ==>
                  var h := HistFor(LiveHist(tr, now), k);
                  tr'.hist[k] == if o.out == Buffered || o.out == Duplicate then h + [Arrival(f, now)] else h)
  {
    hide Add, HeadersOk;
  }

  ghost predicate InBudget(t: Table, lim: Limits) {
    HeadersOk(t.bufs) && t.bytes == TotalData(t.bufs) <= lim.maxBytes && |t.bufs| <= lim.maxBufs
  }

  /** Whatever becomes of the fragment, the settled table is within budget. */
  lemma SettleInBudget(s: Table, lim: Limits, k: Key, b: Buffer, f: Frag)
    requires InBudget(s, lim) && f.Valid() && b == BufferFor(s.bufs, k, b.expires)
    requires (b.header == [] || MIN_HEADER <= |b.header|) && |b.data| <= s.bytes
    requires k in s.bufs || |s.bufs| < lim.maxBufs
    ensures InBudget(Settle(s.bufs, k, Offer(b, f, s.bytes, lim.maxBytes)), lim)
  {
    hide Offer, TotalData;
    var o := Offer(b, f, s.bytes, lim.maxBytes);
    OfferCharges(b, f, s.bytes, lim.maxBytes);
    SettleCharges(s.bufs, k, b, s.bytes, o);
    SettleSize(s.bufs, k, o, lim.maxBufs);
  }

  lemma OfferedKeeps(tr: Traced, lim: Limits, clock: int, now: int, k: Key, f: Frag)
    requires Inv(tr, lim, clock) && clock <= now && 0 < lim.timeout && !tr.table.closed
    requires f.Valid() && Owns(k, f.header)
    requires k in Live(tr.table.bufs, now) || |Live(tr.table.bufs, now)| < lim.maxBufs
    ensures Inv(TraceAdd(tr, lim, now, k, f), lim, now)
  {
    hide Offer, BufferOk, TotalData, Owns, Add, TraceAdd, LiveHist;
    var s := Swept(tr.table, now);
    SweptKeeps(tr, lim, clock, now);
    AddIsOffer(tr.table, lim, now, k, f);
    BufferForOk(tr, lim, clock, now, k);
    var b := BufferFor(s.bufs, k, now + lim.timeout);
    var o := Offer(b, f, s.bytes, lim.maxBytes);
    SettleInBudget(s, lim, k, b, f);
    TracedBuffers(tr, lim, now, k, f, o);
    var tr' := TraceAdd(tr, lim, now, k, f);
    forall j | j in tr'.table.bufs ensures BufferOk(j, tr'.table.bufs[j], tr'.hist[j], lim, now) {
      if j != k {
        BufferOkLater(j, tr.table.bufs[j], tr.hist[j], lim, clock, now);
      } else {
        KeptIsOk(k, b, HistFor(LiveHist(tr, now), k), f, lim, now, s.bytes);
      }
    }
  }

  lemma AddKeeps(tr: Traced, lim: Limits, clock: int, now: int, k: Key, f: Frag)
    requires Inv(tr, lim, clock) && clock <= now && 0 < lim.timeout
    requires f.Valid() && Owns(k, f.header)
    ensures Inv(TraceAdd(tr, lim, now, k, f), lim, now)
  {
    hide Offer, BufferOk, TotalData, Owns, Add;
    AddUnchanged(tr.table, lim, now, k, f);
    if tr.table.closed {
    } else if k in Live(tr.table.bufs, now) || |Live(tr.table.bufs, now)| < lim.maxBufs {
      OfferedKeeps(tr, lim, clock, now, k, f);
    } else {
      SweptKeeps(tr, lim, clock, now);
      var tr' := TraceAdd(tr, lim, now, k, f);
      forall j | j in tr'.table.bufs ensures BufferOk(j, tr'.table.bufs[j], tr'.hist[j], lim, now) {
        BufferOkLater(j, tr.table.bufs[j], tr.hist[j], lim, clock, now);
      }
    }
  }

  /** The two ways add leaves without offering the fragment to a buffer. */
  lemma AddUnchanged(t: Table, lim: Limits, now: int, k: Key, f: Frag)
    requires f.Valid() && HeadersOk(t.bufs)
    ensures t.closed ==> Add(t, lim, now, k, f) == (t, Closed, [])
    ensures !t.closed && k !in Live(t.bufs, now) && |Live(t.bufs, now)| >= lim.maxBufs ==>
              Add(t, lim, now, k, f) == (Swept(t, now), BoundExceeded, [])
  {
    hide Offer, TotalData;
  }

  // ---- runs ----

  ghost function Step(tr: Traced, lim: Limits, e: Event): Traced
    requires HeadersOk(tr.table.bufs) && (e.Arrives? ==> Fragmentary(e.hdr, e.pkt))
  {
    match e
    case Arrives(now, hdr, pkt) =>
      FragmentaryIsValid(hdr, pkt);
      TraceAdd(tr, lim, now, KeyOf(hdr), FragOf(hdr, pkt))
    case Discard => Traced(Discarded(tr.table), map[])
  }

  function After(e: Event, clock: int): int {
    if e.Arrives? then e.now else clock
  }

  lemma StepKeeps(tr: Traced, lim: Limits, e: Event, clock: int)
    requires Inv(tr, lim, clock) && Wanted(e, clock) && 0 < lim.timeout
    ensures Inv(Step(tr, lim, e), lim, After(e, clock))
  {
    if e.Arrives? {
      FragmentaryIsValid(e.hdr, e.pkt);
      AddKeeps(tr, lim, clock, e.now, KeyOf(e.hdr), FragOf(e.hdr, e.pkt));
    }
  }

  /** A run: every event is a parsed fragment or a discard, and the clock never goes back. */
  ghost predicate IsRun(states: seq<Traced>, events: seq<Event>, lim: Limits, start: int) {
    && |states| == |events| + 1
    && states[0] == Traced(Table(map[], 0, false), map[])
    && (forall i :: 0 <= i < |events| ==>
          && Wanted(events[i], ClockAt(events, i, start))
          && HeadersOk(states[i].table.bufs)
          && states[i + 1] == Step(states[i], lim, events[i]))
  }

  /** The clock before event i. */
  function ClockAt(events: seq<Event>, i: nat, start: int): int
    requires i <= |events|
  {
    if i == 0 then start else After(events[i - 1], ClockAt(events, i - 1, start))
  }

  lemma EmptyInv(lim: Limits, clock: int)
    ensures Inv(Traced(Table(map[], 0, false), map[]), lim, clock)
  {
  }

  /** In every state of every run: the charge is the bytes held and within its cap, buffers are within theirs,
      and each buffer refines the fragments of its own datagram, all within the timeout of the first. */
  lemma {:induction false} RunKeeps(states: seq<Traced>, events: seq<Event>, o: Limits, start: int, i: nat)
    requires IsRun(states, events, Resolve(o), start) && i <= |events|
    ensures Inv(states[i], Resolve(o), ClockAt(events, i, start))
  {
    hide Inv, Step, Wanted, HeadersOk;
    if i == 0 {
      EmptyInv(Resolve(o), start);
    } else {
      RunKeeps(states, events, o, start, i - 1);
      StepKeeps(states[i - 1], Resolve(o), events[i - 1], ClockAt(events, i - 1, start));
    }
  }

  /** After discardAll nothing is held and nothing is ever accepted again. */
  lemma {:induction false} DiscardIsFinal(
    states: seq<Traced>, events: seq<Event>, lim: Limits, start: int, i: nat, j: nat)
    requires IsRun(states, events, lim, start) && i < j <= |events| && events[i].Discard?
    ensures states[j].table == Table(map[], 0, true)
    ensures j < |events| && events[j].Arrives? ==>
              Fragmentary(events[j].hdr, events[j].pkt) &&
              (FragmentaryIsValid(events[j].hdr, events[j].pkt);
               Add(states[j].table, lim, events[j].now, KeyOf(events[j].hdr), FragOf(events[j].hdr, events[j].pkt)).1
                 == Closed)
    decreases j
  {
    if i + 1 < j {
      DiscardIsFinal(states, events, lim, start, i, j - 1);
    }
    assert states[j] == Step(states[j - 1], lim, events[j - 1]);
    if j < |events| && events[j].Arrives? {
      FragmentaryIsValid(events[j].hdr, events[j].pkt);
    }
  }

  // ---- completed datagrams ----

  /** d is a whole packet of k's addresses and protocol, each payload byte from the latest fragment that covered it. */
  ghost predicate Whole(k: Key, d: seq<u8>, hist: seq<Frag>) {
    && Parse(d).Parsed?
    && !Parse(d).hdr.IsFragment() && Parse(d).hdr.totalLen == |d| && KeyOf(Parse(d).hdr) == k
    && var ihl := Parse(d).hdr.ihl;
       && ihl <= |d| && EndOf(hist) == Some(|d| - ihl)
       && forall x :: 0 <= x < |d| - ihl ==> Latest(hist, x) == Some(d[ihl + x])
  }

  /** Every fragment is k's own and any two came within the timeout of each other. */
  predicate Together(k: Key, h: seq<Arrival>, timeout: nat) {
    && (forall i, j :: 0 <= i < |h| && 0 <= j < |h| ==> h[j].at - h[i].at < timeout)
    && (forall i :: 0 <= i < |h| ==> Owns(k, h[i].frag.header))
  }

  /** What a completed datagram is. */
  ghost predicate Sound(k: Key, d: seq<u8>, h: seq<Arrival>, timeout: nat) {
    Whole(k, d, Frags(h)) && Together(k, h, timeout)
  }

  lemma DatagramParses(k: Key, b: Buffer, h: seq<Frag>)
    requires MIN_HEADER <= |b.header| && 0 <= b.totalLen <= |b.data| && |b.header| + b.totalLen <= MAX_DATAGRAM
    requires Owns(k, b.header)
    ensures var d := Datagram(b);
            && |d| == |b.header| + b.totalLen && d[|b.header|..] == b.data[..b.totalLen]
            && Parse(d) == Parsed(Header(|b.header|, |d|, k.protocol, k.src, k.dst, k.id, false, 0))
  {
    hide Parse, Assembled;
    AssembledBytes(b.header, b.data[..b.totalLen], Get16(b.header, 4), 0);
    ParseAssembled(b.header, b.data[..b.totalLen], Get16(b.header, 4), 0, false);
  }

  lemma RefinedAreValid(b: Buffer, hist: seq<Frag>)
    requires Refines(b, hist)
    ensures forall i :: 0 <= i < |hist| ==> hist[i].Valid()
  {
  }

  /** A ready buffer's datagram is whole. */
  lemma DatagramIsWhole(k: Key, b: Buffer, hist: seq<Frag>)
    requires MIN_HEADER <= |b.header| && 0 < b.totalLen <= |b.data| && |b.header| + b.totalLen <= MAX_DATAGRAM
    requires Owns(k, b.header) && EndOf(hist) == Some(b.totalLen)
    requires forall x :: 0 <= x < b.totalLen ==> Latest(hist, x) == Some(b.data[x])
    ensures Whole(k, Datagram(b), hist)
  {
    hide Parse, Assembled, Owns;
    DatagramParses(k, b, hist);
    var d := Datagram(b);
    forall x | 0 <= x < b.totalLen ensures d[|b.header| + x] == b.data[x] {
      assert d[|b.header|..][x] == b.data[..b.totalLen][x];
    }
  }

  lemma OfferCompletesSoundly(k: Key, b: Buffer, h: seq<Arrival>, f: Frag, lim: Limits, now: int, bytes: int)
    requires BufferOk(k, b, h, lim, now) && now < b.expires && f.Valid() && Owns(k, f.header)
    requires (b.header == [] || MIN_HEADER <= |b.header|)
    requires Offer(b, f, bytes, lim.maxBytes).out == Complete
    ensures Sound(k, Offer(b, f, bytes, lim.maxBytes).datagram, h + [Arrival(f, now)], lim.timeout)
  {
    hide Offer, Refines, Whole, Datagram, Owns, Store, Latest, EndOf, LatestHeader;
    var h' := h + [Arrival(f, now)];
    assert Frags(h') == Frags(h) + [f];
    CompleteIsSound(b, Frags(h), f, bytes, lim.maxBytes);
    var b' := Store(b, f);
    RefinedAreValid(b, Frags(h));
    HeaderIsOne(Frags(h'));
    var i :| 0 <= i < |h'| && Frags(h')[i].header == b'.header;
    assert Owns(k, h'[i].frag.header);
    DatagramIsWhole(k, b', Frags(h'));
  }

  /** A fragment that completes a datagram completes it soundly, from the fragments its buffer had stored and itself. */
  lemma AddCompletesSoundly(tr: Traced, lim: Limits, clock: int, now: int, k: Key, f: Frag)
    requires Inv(tr, lim, clock) && clock <= now && 0 < lim.timeout
    requires f.Valid() && Owns(k, f.header)
    requires Add(tr.table, lim, now, k, f).1 == Complete
    ensures Sound(k, Add(tr.table, lim, now, k, f).2, HistFor(LiveHist(tr, now), k) + [Arrival(f, now)], lim.timeout)
  {
    hide Offer, Add, Sound, BufferOk, TotalData, Owns;
    AddUnchanged(tr.table, lim, now, k, f);
    AddIsOffer(tr.table, lim, now, k, f);
    BufferForOk(tr, lim, clock, now, k);
    var s := Swept(tr.table, now);
    var b := BufferFor(s.bufs, k, now + lim.timeout);
    OfferCompletesSoundly(k, b, HistFor(LiveHist(tr, now), k), f, lim, now, s.bytes);
  }

  /** In every run, a fragment that completes a datagram completes it soundly. */
  lemma CompletedIsSound(states: seq<Traced>, events: seq<Event>, o: Limits, start: int, i: nat, k: Key, f: Frag)
    requires IsRun(states, events, Resolve(o), start) && i < |events| && events[i].Arrives?
    requires events[i].hdr.ihl <= events[i].hdr.totalLen <= |events[i].pkt|
    requires k == KeyOf(events[i].hdr) && f == FragOf(events[i].hdr, events[i].pkt) && f.Valid()
    requires Add(states[i].table, Resolve(o), events[i].now, k, f).1 == Complete
    ensures Sound(k, Add(states[i].table, Resolve(o), events[i].now, k, f).2,
                  HistFor(LiveHist(states[i], events[i].now), k) + [Arrival(f, events[i].now)], Resolve(o).timeout)
  {
    hide Add, Sound, Inv, Fragmentary, Owns, Step;
    RunKeeps(states, events, o, start, i);
    FragmentaryIsValid(events[i].hdr, events[i].pkt);
    AddCompletesSoundly(states[i], Resolve(o), ClockAt(events, i, start), events[i].now, k, f);
  }
}
