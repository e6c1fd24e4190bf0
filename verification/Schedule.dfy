/** When a packet in the send window is due (internal/reliable), told from what has happened to it: never returned by
    Due, returned a number of times and last at some reading, and how many acknowledgements of higher ids have come
    since. */
module Schedule {
  import opened Words
  import opened Windows
  import opened SendWindow
  import opened Backoff

  /** Beside the resend counts, for each slot: what was sent in it, the reading at which Due last returned it, and how
      many acknowledgements of higher ids have come since it was sent or last returned. */
  datatype Observed = Observed(t: Tracked, sent: seq<seq<u8>>, last: seq<nat>, hints: seq<nat>)

  /** How many of ids are above id. */
  function Above(ids: seq<u32>, id: u32): nat {
    if ids == [] then 0 else (if ids[0] > id then 1 else 0) + Above(ids[1..], id)
  }

  function Watch(size: nat): Observed
    requires 0 < size <= CAPACITY
  {
    Observed(Fresh(size), seq(size, i => []), seq(size, i => 0), seq(size, i => 0))
  }

  predicate Sized(o: Observed) {
    |o.sent| == |o.last| == |o.hints| == |o.t.resends| == |o.t.w.entries|
  }

  function Hinted(o: Observed, ids: seq<u32>): seq<nat>
    requires Sized(o)
  {
    seq(|o.hints|, i requires 0 <= i < |o.hints| => o.hints[i] + Above(ids, o.t.w.entries[i].packetId))
  }

  function Observe(o: Observed, ev: SendEvent): (o': Observed)
    requires Sized(o)
  {
    var t := Track(o.t, ev);
    match ev
    case Send(payload) =>
      var slot := NextSlot(o.t.w);
      if slot.None? || slot.value >= |o.last| then o.(t := t)
      else Observed(t, o.sent[slot.value := payload], o.last, o.hints[slot.value := 0])
    case Acked(ids) => o.(t := t, hints := Hinted(o, ids))
    case Poll(now) =>
      var slot := DueSlot(o.t.w, now);
      if slot.None? then o.(t := t)
      else o.(t := t, last := o.last[slot.value := now], hints := o.hints[slot.value := 0])
  }

  /** What the source promises of an entry's timer: at once the first time, then after the timeout doubled once for
      every return before the last one, or after three hints. */
  predicate ShouldSend(o: Observed, i: nat, now: nat)
    requires Sized(o) && i < |o.last|
  {
    || o.t.resends[i] == 0
    || o.hints[i] >= 3
    || now >= o.last[i] + Doubled(o.t.resends[i] - 1)
  }

  predicate Timely(e: Entry, resends: nat, last: nat, hints: nat, sent: seq<u8>) {
    && e.nAcks == hints && e.payload == sent
    && (resends == 0 ==> e.nextTry <= 0)
    && (resends > 0 ==> e.nextTry == last + Doubled(resends - 1))
  }

  predicate ObservedInv(o: Observed) {
    && Sized(o) && TrackInv(o.t)
    && forall i :: 0 <= i < |o.last| && o.t.w.entries[i].active ==>
         Timely(o.t.w.entries[i], o.t.resends[i], o.last[i], o.hints[i], o.sent[i])
  }

  lemma {:induction false} AckCounts(es: Slots, ids: seq<u32>, i: nat)
    requires i < |es| && es[i].active && es[i].packetId !in ids
    ensures AckEntries(es, ids)[i] == es[i].(nAcks := es[i].nAcks + Above(ids, es[i].packetId))
    decreases |ids|
  {
    if ids != [] {
      var es' := seq(|es|, j requires 0 <= j < |es| => AckEntry(es[j], ids[0]));
      AckCounts(es', ids[1..], i);
    }
  }

  lemma AckedObserved(o: Observed, ids: seq<u32>)
    requires ObservedInv(o)
    ensures ObservedInv(Observe(o, Acked(ids)))
  {
    hide TrackInv, Doubled;
    TrackKeeps(o.t, Acked(ids));
    forall i | 0 <= i < |o.last| && Ack(o.t.w, ids).entries[i].active
      ensures o.t.w.entries[i].active
      ensures Ack(o.t.w, ids).entries[i] ==
              o.t.w.entries[i].(nAcks := o.t.w.entries[i].nAcks + Above(ids, o.t.w.entries[i].packetId))
    {
      AckPurgesExactly(o.t.w.entries, ids, i);
      AckCounts(o.t.w.entries, ids, i);
    }
  }

  lemma SentObserved(o: Observed, payload: seq<u8>)
    requires ObservedInv(o)
    ensures ObservedInv(Observe(o, Send(payload)))
  {
    hide TrackInv, Doubled, NextSlot;
    TrackKeeps(o.t, Send(payload));
  }

  lemma PolledObserved(o: Observed, now: nat)
    requires ObservedInv(o)
    ensures ObservedInv(Observe(o, Poll(now)))
  {
    hide SendInv, Oldest, Doubled;
    TrackKeeps(o.t, Poll(now));
  }

  lemma ObserveKeeps(o: Observed, ev: SendEvent)
    requires ObservedInv(o)
    ensures ObservedInv(Observe(o, ev)) && Observe(o, ev).t == Track(o.t, ev)
  {
    hide ObservedInv, Track;
    assert Sized(o) by { IsSized(o); }
    match ev
    case Send(payload) => SentObserved(o, payload);
    case Acked(ids) => AckedObserved(o, ids);
    case Poll(now) => PolledObserved(o, now);
  }

  lemma IsSized(o: Observed)
    requires ObservedInv(o)
    ensures Sized(o)
  {
  }

  ghost function ObserveRun(o: Observed, evs: seq<SendEvent>): (o': Observed)
    requires ObservedInv(o)
    ensures ObservedInv(o')
    decreases |evs|
  {
    if evs == [] then o
    else
      ObserveKeeps(o, evs[0]);
      ObserveRun(Observe(o, evs[0]), evs[1..])
  }

  lemma {:induction false} ObservesTheRun(o: Observed, evs: seq<SendEvent>)
    requires ObservedInv(o)
    ensures ObserveRun(o, evs).t == TrackRun(o.t, evs)
    decreases |evs|
  {
    hide ObservedInv, Observe, Track;
    if evs != [] {
      IsSized(o);
      ObserveKeeps(o, evs[0]);
      ObservesTheRun(Observe(o, evs[0]), evs[1..]);
    }
  }

  lemma WatchIsObserved(size: nat)
    requires 0 < size <= CAPACITY
    ensures ObservedInv(Watch(size))
  {
    FreshIsTracked(size);
  }

  /** In every run of the send window from its creation, at every reading: a packet never returned by Due is due; one
      returned k times, last at reading t, is due exactly from t plus the timeout doubled k - 1 times on (exactly the
      initial timeout times 2^(k - 1) up to the 33rd return), or once three higher acknowledgements have come since. And
      what Due returns for it is what was sent. */
  lemma DueExactly(size: nat, evs: seq<SendEvent>, now: nat, i: nat)
    requires 0 < size <= CAPACITY && i < |SendRun(NewWindow(size), evs).entries|
    requires SendRun(NewWindow(size), evs).entries[i].active
    ensures ObservedInv(Watch(size))
    ensures var o := ObserveRun(Watch(size), evs);
            var e := SendRun(NewWindow(size), evs).entries[i];
            && Sized(o) && i < |o.last|
            && (e.IsDue(now) <==> ShouldSend(o, i, now))
            && e.payload == o.sent[i]
            && (o.t.resends[i] == 0 ==> e.IsDue(now))
            && (0 < o.t.resends[i] <= 33 ==>
                  (e.IsDue(now) <==>
                     now >= o.last[i] + TLS_TIMEOUT * Pow2(o.t.resends[i] - 1) || o.hints[i] >= N_ACK_RETRANSMIT))
  {
    hide ObservedInv, ObserveRun, SendRun, TrackRun, ShouldSend;
    WatchIsObserved(size);
    FreshIsTracked(size);
    ObservesTheRun(Watch(size), evs);
    TrackRunKeeps(Fresh(size), evs);
    DueRule(ObserveRun(Watch(size), evs), now, i);
  }

  lemma DueRule(o: Observed, now: nat, i: nat)
    requires ObservedInv(o) && i < |o.t.w.entries| && o.t.w.entries[i].active
    ensures var e := o.t.w.entries[i];
            && Sized(o)
            && (e.IsDue(now) <==> ShouldSend(o, i, now))
            && e.payload == o.sent[i]
            && (o.t.resends[i] == 0 ==> e.IsDue(now))
            && (0 < o.t.resends[i] <= 33 ==>
                  (e.IsDue(now) <==>
                     now >= o.last[i] + TLS_TIMEOUT * Pow2(o.t.resends[i] - 1) || o.hints[i] >= N_ACK_RETRANSMIT))
  {
    hide TrackInv, Doubled;
    if 0 < o.t.resends[i] <= 33 {
      BackoffIsExact(o.t.resends[i] - 1);
    }
  }
}
