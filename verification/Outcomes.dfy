/** What add answers for any fragment (netstack/reassembly.go), told from the fragments offered and accepted under its
    identity since its buffer was made, and not from the buffer: over every run, and for contradictory fragments too. */
module Outcomes {
  import opened Words
  import opened IPv4
  import opened Holes
  import opened Reassembly
  import opened ReassemblyTable
  import opened ReassemblySafety

  // ---- contradictions ----

  /** f ends beyond the end that g, a final fragment, declared, or declares a different one. */
  predicate Contradicts(g: Frag, f: Frag) {
    !g.more && (f.End() > g.End() || (!f.more && f.End() != g.End()))
  }

  predicate ContradictsAny(offers: seq<Frag>, f: Frag) {
    exists i :: 0 <= i < |offers| && Contradicts(offers[i], f)
  }

  /** No fragment contradicts an earlier one. */
  predicate Agreed(offers: seq<Frag>) {
    forall i, j :: 0 <= i < j < |offers| ==> !Contradicts(offers[i], offers[j])
  }

  lemma {:induction false} AgreedEnd(offers: seq<Frag>)
    requires Agreed(offers)
    ensures forall i :: 0 <= i < |offers| && !offers[i].more ==> EndOf(offers) == Some(offers[i].End())
    ensures EndOf(offers).Some? ==> exists i :: 0 <= i < |offers| && !offers[i].more
  {
    if offers != [] {
      var n := |offers| - 1;
      AgreedEnd(offers[..n]);
      forall i | 0 <= i < |offers| && !offers[i].more ensures EndOf(offers) == Some(offers[i].End()) {
        if i < n {
          assert offers[..n][i] == offers[i];
          assert !Contradicts(offers[i], offers[n]);
        }
      }
      if !offers[n].more {
        assert 0 <= n < |offers| && !offers[n].more;
      } else if EndOf(offers[..n]).Some? {
        var i :| 0 <= i < n && !offers[..n][i].more;
        assert !offers[i].more;
      }
    }
  }

  /** Among fragments that agree, one contradiction is a contradiction of the one end declared. */
  lemma ContradictionIsOfEnd(offers: seq<Frag>, f: Frag)
    requires Agreed(offers)
    ensures ContradictsAny(offers, f) <==>
              EndOf(offers).Some? && (f.End() > EndOf(offers).value || (!f.more && f.End() != EndOf(offers).value))
  {
    AgreedEnd(offers);
    if EndOf(offers).Some? {
      var i :| 0 <= i < |offers| && !offers[i].more;
      if f.End() > EndOf(offers).value || (!f.more && f.End() != EndOf(offers).value) {
        assert Contradicts(offers[i], f);
      }
    }
  }

  lemma AgreedSnoc(offers: seq<Frag>, f: Frag)
    requires Agreed(offers)
    ensures Agreed(offers + [f]) <==> !ContradictsAny(offers, f)
  {
    var all := offers + [f];
    if ContradictsAny(offers, f) {
      var i :| 0 <= i < |offers| && Contradicts(offers[i], f);
      assert Contradicts(all[i], all[|offers|]);
    }
  }

  // ---- what add should answer ----

  /** How far the fragments reach: what the buffer is charged. */
  function Reached(hist: seq<Frag>): nat {
    if hist == [] then 0
    else
      var before, f := Reached(hist[..|hist| - 1]), hist[|hist| - 1];
      if f.End() > before then f.End() else before
  }

  /** f supplies a byte that nothing accepted has supplied. */
  ghost predicate BringsNew(hist: seq<Frag>, f: Frag) {
    exists x :: f.Covers(x) && Latest(hist, x).None?
  }

  /** A final fragment and every byte below its end have been accepted. */
  predicate Entire(hist: seq<Frag>) {
    EndOf(hist).Some? && Covered(hist, EndOf(hist).value)
  }

  /** The answer to f, with hist accepted and offers offered under its identity and bytes charged in all. */
  ghost function Verdict(hist: seq<Frag>, offers: seq<Frag>, f: Frag, bytes: int, maxBytes: nat): Outcome {
    var all := hist + [f];
    if ContradictsAny(offers, f) then Conflict
    else if bytes - Reached(hist) + Reached(all) > maxBytes then BoundExceeded
    else if !BringsNew(hist, f) then Duplicate
    else if !Entire(all) then Buffered
    else if |LatestHeader(all)| + EndOf(all).value > MAX_DATAGRAM then Conflict
    else Complete
  }

  /** What is accepted once f has been answered. */
  function AcceptedAfter(hist: seq<Frag>, f: Frag, out: Outcome): seq<Frag> {
    if out == Buffered || out == Duplicate then hist + [f] else hist
  }

  // ---- a buffer and what it stands for ----

  /** b stands for hist accepted out of offers: it knows the end they declare and is charged for how far it reaches. */
  ghost predicate StandsFor(b: Buffer, hist: seq<Frag>, offers: seq<Frag>) {
    && Refines(b, hist) && Agreed(offers)
    && b.totalLen == (if EndOf(offers).Some? then EndOf(offers).value else -1)
    && |b.data| == Reached(hist)
  }

  lemma NewStandsFor(expires: int)
    ensures StandsFor(NewBuffer(expires), [], [])
  {
    NewBufferRefines(expires);
  }

  lemma ReachedSnoc(hist: seq<Frag>, f: Frag)
    ensures Reached(hist + [f]) == if f.End() > Reached(hist) then f.End() else Reached(hist)
  {
    assert (hist + [f])[..|hist|] == hist;
  }

  lemma ConflictsIff(b: Buffer, hist: seq<Frag>, offers: seq<Frag>, f: Frag)
    requires StandsFor(b, hist, offers)
    ensures Conflicts(b, f) <==> ContradictsAny(offers, f)
  {
    hide Refines, ContradictsAny, Agreed;
    ContradictionIsOfEnd(offers, f);
  }

  lemma FillsIffNew(b: Buffer, hist: seq<Frag>, offers: seq<Frag>, f: Frag)
    requires StandsFor(b, hist, offers) && f.Valid() && !Conflicts(b, f)
    ensures Fills(b.holes, f.first, f.End() - 1) <==> BringsNew(hist, f)
  {
    hide Agreed, Latest, Missing, Sorted, Fills, EndOf;
    FillsIff(b.holes, f.first, f.End() - 1);
    assert forall x :: Missing(b.holes, x) ==> Latest(hist, x).None?;
    assert forall x :: f.Covers(x) && Latest(hist, x).None? ==> Missing(b.holes, x);
    if BringsNew(hist, f) {
      var x :| f.Covers(x) && Latest(hist, x).None?;
      assert Missing(b.holes, x);
    }
  }

  lemma {:induction false} ZeroNeedsHeader(hist: seq<Frag>)
    requires forall i :: 0 <= i < |hist| ==> hist[i].Valid()
    ensures Latest(hist, 0).Some? ==> MIN_HEADER <= |LatestHeader(hist)|
  {
    if hist != [] {
      ZeroNeedsHeader(hist[..|hist| - 1]);
    }
  }

  /** A buffer is ready exactly when its fragments are whole. */
  lemma ReadyIffEntire(b: Buffer, hist: seq<Frag>)
    requires Refines(b, hist)
    ensures Ready(b) <==> Entire(hist)
    ensures Entire(hist) ==> b.totalLen == EndOf(hist).value && MIN_HEADER <= |b.header|
  {
    EndIsPositive(hist);
    ZeroNeedsHeader(hist);
    if Ready(b) {
      assert forall x :: !Missing(b.holes, x);
      if EndOf(hist).None? {
        LastByteNeedsFinal(hist);
        assert false;
      }
    }
    if Entire(hist) {
      NoHoles(b.holes, hist, EndOf(hist).value);
      assert Latest(hist, EndOf(hist).value - 1).Some? && Latest(hist, 0).Some?;
    }
  }

  lemma StoreStandsFor(b: Buffer, hist: seq<Frag>, offers: seq<Frag>, f: Frag)
    requires StandsFor(b, hist, offers) && f.Valid() && !Conflicts(b, f)
    ensures StandsFor(Store(b, f), hist + [f], offers + [f])
  {
    hide Refines, Punch, Overlay;
    StoreRefines(b, hist, f);
    ReachedSnoc(hist, f);
    ConflictsIff(b, hist, offers, f);
    AgreedSnoc(offers, f);
    HistorySnoc(offers, f, 0);
  }

  lemma DeclareStandsFor(b: Buffer, hist: seq<Frag>, offers: seq<Frag>, f: Frag)
    requires StandsFor(b, hist, offers) && f.Valid() && !Conflicts(b, f)
    ensures StandsFor(Declared(b, f), hist, offers + [f])
  {
    hide Refines;
    DeclareRefines(b, hist, f);
    ConflictsIff(b, hist, offers, f);
    AgreedSnoc(offers, f);
    HistorySnoc(offers, f, 0);
  }

  /** The answer to a fragment, what becomes of its buffer, and the charge. */
  lemma OfferExactly(b: Buffer, hist: seq<Frag>, offers: seq<Frag>, f: Frag, bytes: int, maxBytes: nat)
    requires StandsFor(b, hist, offers) && f.Valid() && (b.header == [] || MIN_HEADER <= |b.header|)
    ensures var o := Offer(b, f, bytes, maxBytes);
            && o.out == Verdict(hist, offers, f, bytes, maxBytes)
            && (o.kept.None? <==> o.out == Conflict || o.out == Complete)
            && (o.kept.Some? ==>
                  && StandsFor(o.kept.value, AcceptedAfter(hist, f, o.out), offers + [f])
                  && o.bytes == bytes - Reached(hist) + Reached(AcceptedAfter(hist, f, o.out)))
            && (o.kept.None? ==> o.bytes == bytes - Reached(hist))
  {
    hide StandsFor, Refines, Fills, Latest, Punch, Overlay, ContradictsAny, BringsNew, Entire, Datagram;
    assert |b.data| == Reached(hist) by { Charged(b, hist, offers); }
    ConflictsIff(b, hist, offers, f);
    if !Conflicts(b, f) {
      ReachedSnoc(hist, f);
      if bytes + Growth(b, f) > maxBytes {
        DeclareStandsFor(b, hist, offers, f);
      } else {
        StoreStandsFor(b, hist, offers, f);
        FillsIffNew(b, hist, offers, f);
        StoreRefined(b, hist, offers, f);
      }
    }
  }

  lemma Charged(b: Buffer, hist: seq<Frag>, offers: seq<Frag>)
    requires StandsFor(b, hist, offers)
    ensures |b.data| == Reached(hist)
  {
  }

  lemma StoreRefined(b: Buffer, hist: seq<Frag>, offers: seq<Frag>, f: Frag)
    requires StandsFor(b, hist, offers) && f.Valid() && !Conflicts(b, f)
    ensures var b', all := Store(b, f), hist + [f];
            && b'.header == LatestHeader(all) && |b'.data| == Reached(all)
            && (Ready(b') <==> Entire(all))
            && (Entire(all) ==> EndOf(all).Some? && b'.totalLen == EndOf(all).value && MIN_HEADER <= |b'.header|)
  {
    hide Latest, Punch, Overlay;
    StoreRefines(b, hist, f);
    ReadyIffEntire(Store(b, f), hist + [f]);
    ReachedSnoc(hist, f);
  }

  // ---- one arrival ----

  /** What has been accepted under k and still counts at time now: nothing once the deadline has come. */
  function AcceptedAt(tr: Traced, k: Key, now: int): seq<Frag> {
    Frags(HistFor(LiveHist(tr, now), k))
  }

  /** The answer to a fragment f under k at time now, with offers offered before, and what it leaves: no buffer for k
      after a contradiction or a completion, its bytes returned; every other datagram as it was. */
  ghost predicate Answers(
    tr: Traced, tr': Traced, offers: seq<Frag>, lim: Limits, now: int, k: Key, f: Frag, out: Outcome)
  {
    var live, hist := Live(tr.table.bufs, now), AcceptedAt(tr, k, now);
    if tr.table.closed then out == Closed && tr' == tr
    else if k !in live && |live| >= lim.maxBufs then out == BoundExceeded && tr'.table.bufs == live
    else
      && out == Verdict(hist, offers, f, TotalData(live), lim.maxBytes)
      && (k in tr'.table.bufs <==> out != Conflict && out != Complete)
      && tr'.table.bytes ==
           TotalData(live) - Reached(hist) +
             (if out == Conflict || out == Complete then 0 else Reached(AcceptedAfter(hist, f, out)))
      && (k in tr'.hist ==> Frags(tr'.hist[k]) == AcceptedAfter(hist, f, out))
      && SameBut(live, tr'.table.bufs, k)
  }

  predicate SameBut(bufs: map<Key, Buffer>, bufs': map<Key, Buffer>, k: Key) {
    && (forall j :: j in bufs && j != k ==> j in bufs' && bufs'[j] == bufs[j])
    && (forall j :: j in bufs' && j != k ==> j in bufs)
  }

  lemma SettleOthers(bufs: map<Key, Buffer>, k: Key, o: Offered)
    ensures var t := Settle(bufs, k, o);
            && (k in t.bufs <==> o.kept.Some?) && (o.kept.Some? ==> t.bufs[k] == o.kept.value) && t.bytes == o.bytes
            && SameBut(bufs, t.bufs, k)
  {
  }

  /** The buffer for k, if it has one, stands for what was accepted and offered. */
  ghost predicate StandsAt(tr: Traced, k: Key, offers: seq<Frag>) {
    k in tr.table.bufs ==> k in tr.hist && StandsFor(tr.table.bufs[k], Frags(tr.hist[k]), offers)
  }

  /** The same of a buffer whose time has not come; with none, nothing that was offered counts. */
  ghost predicate StandsNow(tr: Traced, k: Key, offers: seq<Frag>, now: int) {
    if k in Live(tr.table.bufs, now) then StandsAt(tr, k, offers) else offers == []
  }

  /** So does the buffer a fragment goes to. */
  lemma BufferForStands(tr: Traced, k: Key, offers: seq<Frag>, now: int, deadline: int)
    requires StandsNow(tr, k, offers, now) && HeadersOk(tr.table.bufs) && tr.hist.Keys == tr.table.bufs.Keys
    ensures var b := BufferFor(Live(tr.table.bufs, now), k, deadline);
            && StandsFor(b, AcceptedAt(tr, k, now), offers)
            && (b.header == [] || MIN_HEADER <= |b.header|)
  {
    hide StandsFor;
    NewStandsFor(deadline);
    assert Frags([]) == [];
  }

  /** A fragment that gets a buffer. */
  lemma OfferedAnswers(tr: Traced, lim: Limits, clock: int, now: int, k: Key, f: Frag, offers: seq<Frag>)
    requires Inv(tr, lim, clock) && !tr.table.closed && clock <= now && f.Valid() && StandsNow(tr, k, offers, now)
    requires k in Live(tr.table.bufs, now) || |Live(tr.table.bufs, now)| < lim.maxBufs
    ensures Answers(tr, TraceAdd(tr, lim, now, k, f), offers, lim, now, k, f, Add(tr.table, lim, now, k, f).1)
    ensures StandsAt(TraceAdd(tr, lim, now, k, f), k, offers + [f])
  {
    hide Offer, TotalData, Add, TraceAdd, StandsFor, BufferOk, Verdict, LiveHist, Reached, SameBut;
    var live, hist := Live(tr.table.bufs, now), HistFor(LiveHist(tr, now), k);
    var bytes := Swept(tr.table, now).bytes;
    SweptKeeps(tr, lim, clock, now);
    AddIsOffer(tr.table, lim, now, k, f);
    BufferForStands(tr, k, offers, now, now + lim.timeout);
    var b := BufferFor(live, k, now + lim.timeout);
    var o := Offer(b, f, bytes, lim.maxBytes);
    OfferExactly(b, Frags(hist), offers, f, bytes, lim.maxBytes);
    TracedBuffers(tr, lim, now, k, f, o);
    SettleOthers(live, k, o);
    assert Frags(hist + [Arrival(f, now)]) == Frags(hist) + [f];
  }

  lemma AddAnswers(tr: Traced, lim: Limits, clock: int, now: int, k: Key, f: Frag, offers: seq<Frag>)
    requires Inv(tr, lim, clock) && clock <= now && f.Valid() && StandsNow(tr, k, offers, now)
    ensures Answers(tr, TraceAdd(tr, lim, now, k, f), offers, lim, now, k, f, Add(tr.table, lim, now, k, f).1)
    ensures StandsAt(TraceAdd(tr, lim, now, k, f), k, offers + [f])
  {
    hide Offer, BufferOk, TotalData, Add, StandsFor, Verdict, Reached, SameBut;
    AddUnchanged(tr.table, lim, now, k, f);
    if !tr.table.closed && (k in Live(tr.table.bufs, now) || |Live(tr.table.bufs, now)| < lim.maxBufs) {
      OfferedAnswers(tr, lim, clock, now, k, f, offers);
    }
  }

  /** What arrives for others leaves a buffer standing for the same. */
  lemma OthersStand(tr: Traced, lim: Limits, clock: int, now: int, k: Key, f: Frag, j: Key, offers: seq<Frag>)
    requires Inv(tr, lim, clock) && f.Valid() && j != k && StandsAt(tr, j, offers)
    ensures var tr' := TraceAdd(tr, lim, now, k, f);
            StandsAt(tr', j, offers) && (j in tr'.table.bufs ==> tr.table.closed || j in Live(tr.table.bufs, now))
  {
    hide Offer, BufferOk, TotalData, StandsFor;
  }

  // ---- runs ----

  /** The fragments offered under k since its buffer was made, up to state i. */
  ghost function Offers(
    states: seq<Traced>, events: seq<Event>, lim: Limits, start: int, i: nat, k: Key): seq<Frag>
    requires IsRun(states, events, lim, start) && i <= |events|
    decreases i, 0
  {
    if i == 0 || k !in states[i].table.bufs || events[i - 1].Discard? then []
    else
      var e := events[i - 1];
      FragmentaryIsValid(e.hdr, e.pkt);
      OffersAt(states, events, lim, start, i - 1, k, e.now)
      + (if KeyOf(e.hdr) == k then [FragOf(e.hdr, e.pkt)] else [])
  }

  /** Those of them that still count at time now. */
  ghost function OffersAt(
    states: seq<Traced>, events: seq<Event>, lim: Limits, start: int, i: nat, k: Key, now: int): seq<Frag>
    requires IsRun(states, events, lim, start) && i <= |events|
    decreases i, 1
  {
    if k in Live(states[i].table.bufs, now) then Offers(states, events, lim, start, i, k) else []
  }

  /** In every state of every run, every buffer stands for what was accepted and what was offered under its key. */
  lemma {:induction false} RunStands(
    states: seq<Traced>, events: seq<Event>, o: Limits, start: int, i: nat, k: Key)
    requires IsRun(states, events, Resolve(o), start) && i <= |events|
    ensures StandsAt(states[i], k, Offers(states, events, Resolve(o), start, i, k))
  {
    hide Inv, StandsAt, Resolve, Step, Live, HeadersOk, Fragmentary;
    if i == 0 || k !in states[i].table.bufs || events[i - 1].Discard? {
      NoBuffer(states, events, Resolve(o), start, i, k);
    } else {
      RunKeeps(states, events, o, start, i - 1);
      RunStands(states, events, o, start, i - 1, k);
      StepStands(states[i - 1], Resolve(o), ClockAt(events, i - 1, start), events[i - 1], k,
                 Offers(states, events, Resolve(o), start, i - 1, k));
      OffersGrow(states, events, Resolve(o), start, i, k);
    }
  }

  lemma OffersGrow(states: seq<Traced>, events: seq<Event>, lim: Limits, start: int, i: nat, k: Key)
    requires IsRun(states, events, lim, start) && 0 < i <= |events|
    requires k in states[i].table.bufs && events[i - 1].Arrives?
    ensures Fragmentary(events[i - 1].hdr, events[i - 1].pkt)
    ensures var e := events[i - 1];
            Offers(states, events, lim, start, i, k) ==
              (if k in Live(states[i - 1].table.bufs, e.now) then Offers(states, events, lim, start, i - 1, k) else [])
              + (if KeyOf(e.hdr) == k then [FragOfArrival(e)] else [])
  {
    hide Fragmentary, Live, Step;
  }

  lemma NoBuffer(states: seq<Traced>, events: seq<Event>, lim: Limits, start: int, i: nat, k: Key)
    requires IsRun(states, events, lim, start) && i <= |events|
    requires i == 0 || k !in states[i].table.bufs || events[i - 1].Discard?
    ensures StandsAt(states[i], k, [])
  {
    hide TraceAdd, StandsFor;
  }

  lemma StepStands(tr: Traced, lim: Limits, clock: int, e: Event, k: Key, offers: seq<Frag>)
    requires Inv(tr, lim, clock) && e.Arrives? && Wanted(e, clock) && StandsAt(tr, k, offers)
    requires k in Step(tr, lim, e).table.bufs
    ensures StandsAt(Step(tr, lim, e), k,
                     (if k in Live(tr.table.bufs, e.now) then offers else [])
                     + (if KeyOf(e.hdr) == k then [FragOfArrival(e)] else []))
  {
    hide TraceAdd, StandsFor, BufferOk, Fragmentary;
    var j, f := KeyOf(e.hdr), FragOfArrival(e);
    var now := if k in Live(tr.table.bufs, e.now) then offers else [];
    if j == k {
      AddAnswers(tr, lim, clock, e.now, k, f, now);
    } else {
      OthersStand(tr, lim, clock, e.now, j, f, k, offers);
      if tr.table.closed {
        ClosedHoldsNothing(tr, lim, clock, e.now, j, f);
      }
      assert now + [] == now;
    }
  }

  ghost function FragOfArrival(e: Event): (f: Frag)
    requires e.Arrives? && Fragmentary(e.hdr, e.pkt)
    ensures f.Valid() && Owns(KeyOf(e.hdr), f.header)
  {
    FragmentaryIsValid(e.hdr, e.pkt);
    FragOf(e.hdr, e.pkt)
  }

  lemma ClosedHoldsNothing(tr: Traced, lim: Limits, clock: int, now: int, k: Key, f: Frag)
    requires Inv(tr, lim, clock) && tr.table.closed && f.Valid()
    ensures TraceAdd(tr, lim, now, k, f).table.bufs == map[]
  {
  }

  /** In every run, every arrival is answered as the fragments offered and accepted under its identity call for. */
  lemma EveryAnswer(states: seq<Traced>, events: seq<Event>, o: Limits, start: int, i: nat)
    requires IsRun(states, events, Resolve(o), start) && i < |events| && events[i].Arrives?
    ensures Fragmentary(events[i].hdr, events[i].pkt) && HeadersOk(states[i].table.bufs)
    ensures var k, f, now := KeyOf(events[i].hdr), FragOfArrival(events[i]), events[i].now;
            var offers := OffersAt(states, events, Resolve(o), start, i, k, now);
            Answers(states[i], states[i + 1], offers, Resolve(o), now, k, f,
                    Add(states[i].table, Resolve(o), now, k, f).1)
  {
    hide Inv, StandsAt, Resolve, TraceAdd, Live, Answers, Add;
    var k, f := KeyOf(events[i].hdr), FragOfArrival(events[i]);
    RunKeeps(states, events, o, start, i);
    RunStands(states, events, o, start, i, k);
    AddAnswers(states[i], Resolve(o), ClockAt(events, i, start), events[i].now, k, f,
               OffersAt(states, events, Resolve(o), start, i, k, events[i].now));
  }

  /** In every run, a fragment that contradicts one offered since the buffer was made leaves no buffer and returns its
      bytes; so a completed datagram comes from fragments none of which, accepted or not, contradicted an earlier one,
      and every final one among them declared the same end. */
  lemma ContradictionsAreDropped(states: seq<Traced>, events: seq<Event>, o: Limits, start: int, i: nat)
    requires IsRun(states, events, Resolve(o), start) && i < |events| && events[i].Arrives? && !states[i].table.closed
    ensures Fragmentary(events[i].hdr, events[i].pkt) && HeadersOk(states[i].table.bufs)
    ensures var k, f, now := KeyOf(events[i].hdr), FragOfArrival(events[i]), events[i].now;
            var offers := OffersAt(states, events, Resolve(o), start, i, k, now);
            var out := Add(states[i].table, Resolve(o), now, k, f).1;
            && (ContradictsAny(offers, f) ==>
                  && out == Conflict && k !in states[i + 1].table.bufs
                  && states[i + 1].table.bytes == TotalData(Live(states[i].table.bufs, now) - {k}))
            && (out == Complete ==>
                  && Agreed(offers + [f])
                  && forall g :: g in offers + [f] && !g.more ==> EndOf(offers + [f]) == Some(g.End()))
  {
    hide Inv, StandsAt, Resolve, TraceAdd, Live, Add, Verdict, TotalData, SameBut;
    var k, f, now := KeyOf(events[i].hdr), FragOfArrival(events[i]), events[i].now;
    var offers := OffersAt(states, events, Resolve(o), start, i, k, now);
    EveryAnswer(states, events, o, start, i);
    RunStands(states, events, o, start, i, k);
    RunKeeps(states, events, o, start, i);
    OffersAgree(states[i], k, offers, now);
    BytesReturned(states[i], Resolve(o), ClockAt(events, i, start), k, offers, now);
    VerdictOnContradiction(AcceptedAt(states[i], k, now), offers, f, TotalData(Live(states[i].table.bufs, now)),
                           Resolve(o).maxBytes);
    AgreedSnoc(offers, f);
    if Agreed(offers + [f]) {
      AgreedEnd(offers + [f]);
    }
  }

  lemma OffersAgree(tr: Traced, k: Key, offers: seq<Frag>, now: int)
    requires StandsNow(tr, k, offers, now)
    ensures Agreed(offers)
    ensures k !in Live(tr.table.bufs, now) ==> offers == []
  {
  }

  lemma VerdictOnContradiction(hist: seq<Frag>, offers: seq<Frag>, f: Frag, bytes: int, maxBytes: nat)
    ensures ContradictsAny(offers, f) ==> Verdict(hist, offers, f, bytes, maxBytes) == Conflict
    ensures Verdict(hist, offers, f, bytes, maxBytes) == Complete ==> !ContradictsAny(offers, f)
  {
  }

  /** What is charged for a buffer is how far its fragments reach. */
  lemma BytesReturned(tr: Traced, lim: Limits, clock: int, k: Key, offers: seq<Frag>, now: int)
    requires Inv(tr, lim, clock) && StandsNow(tr, k, offers, now)
    ensures var live := Live(tr.table.bufs, now);
            TotalData(live) - Reached(AcceptedAt(tr, k, now)) == TotalData(live - {k})
  {
    hide TotalData, BufferOk, Refines, Agreed;
    var live := Live(tr.table.bufs, now);
    if k in live {
      TotalRemove(live, k);
    } else {
      TotalAbsent(live, k);
      assert Frags([]) == [];
    }
  }
}
