/** What a send window keeps over runs of any length, through every wrap of the 32-bit packet id:
    the active ids are distinct and lie within one window of the next id, and a passing range check
    always finds a slot. */
module SendWindow {
  import opened Words
  import opened Windows

  /** How many ids ago e's id was assigned, modulo 2^32. */
  function Age(w: Window, e: Entry): u32 {
    Sub32(w.packetId, e.packetId)
  }

  /** Active ids are distinct and lie in the window-sized span that ends just below the next id. */
  predicate SendInv(w: Window) {
    && (forall i :: 0 <= i < |w.entries| && w.entries[i].active ==> 1 <= Age(w, w.entries[i]) <= |w.entries|)
    && (forall i, j :: 0 <= i < j < |w.entries| && w.entries[i].active && w.entries[j].active ==>
          w.entries[i].packetId != w.entries[j].packetId)
  }

  /** Below half the id space, PidMin is the order of ages whatever the base: no wrap misorders it. */
  lemma PidMinIsOlder(base: u32, p1: u32, p2: u32)
    requires Sub32(base, p1) < TWO31 && Sub32(base, p2) < TWO31
    ensures PidMin(p1, p2) <==> Sub32(base, p1) > Sub32(base, p2)
  {
  }

  /** The scan's answer among the first n entries, if none of them is half the id space old. */
  lemma {:induction false} OldestAmong(w: Window, n: nat, p: Entry -> bool)
    requires n <= |w.entries|
    requires forall j :: 0 <= j < n && p(w.entries[j]) ==> Age(w, w.entries[j]) < TWO31
    ensures var best := Oldest(w.entries[..n], p);
            if best.None? then forall j :: 0 <= j < n ==> !p(w.entries[j])
            else forall j :: 0 <= j < n && p(w.entries[j]) ==> Age(w, w.entries[j]) <= Age(w, w.entries[best.value])
  {
    hide PidMin;
    if n > 0 {
      OldestAmong(w, n - 1, p);
      var es := w.entries[..n];
      assert es[..n - 1] == w.entries[..n - 1] && es[n - 1] == w.entries[n - 1];
      var best := Oldest(es[..n - 1], p);
      if best.Some? && p(es[n - 1]) {
        PidMinIsOlder(w.packetId, es[n - 1].packetId, es[best.value].packetId);
      }
    }
  }

  /** The scan's answer is the oldest of the entries it looks at. */
  lemma OldestIsOldest(w: Window, n: nat, p: Entry -> bool)
    requires SendInv(w) && n <= |w.entries|
    requires forall e :: p(e) ==> e.active
    ensures var best := Oldest(w.entries[..n], p);
            if best.None? then forall j :: 0 <= j < n ==> !p(w.entries[j])
            else forall j :: 0 <= j < n && p(w.entries[j]) ==> Age(w, w.entries[j]) <= Age(w, w.entries[best.value])
  {
    hide Oldest;
    OldestAmong(w, n, p);
  }

  /** Ids of a run of slots, for counting. */
  function Ages(w: Window): (s: seq<int>)
    ensures |s| == |w.entries|
    ensures forall i :: 0 <= i < |s| ==> s[i] == Age(w, w.entries[i])
  {
    seq(|w.entries|, i requires 0 <= i < |w.entries| => Age(w, w.entries[i]))
  }

  predicate AllYoung(w: Window) {
    forall i :: 0 <= i < |w.entries| && w.entries[i].active ==> Age(w, w.entries[i]) < |w.entries|
  }

  /** Distinct ages below the window size leave a slot free. */
  lemma SomeSlotIsFree(w: Window)
    requires SendInv(w) && AllYoung(w)
    ensures FirstWhere(w.entries, Free) < |w.entries|
  {
    if FirstWhere(w.entries, Free) == |w.entries| {
      assert forall i :: 0 <= i < |w.entries| ==> !Free(w.entries[i]);
      assert forall i :: 0 <= i < |w.entries| ==> 1 <= Ages(w)[i] < |w.entries|;
      Pigeonhole(Ages(w), 1, |w.entries|);
    }
  }

  /** The range check looks at the oldest id, and so at all of them. */
  lemma RangeCheckIsForAll(w: Window)
    requires SendInv(w)
    ensures var oldest := Oldest(w.entries, Active);
            oldest.None? || InRange1(w.packetId, w.entries[oldest.value].packetId, |w.entries|) <==> AllYoung(w)
  {
    hide Oldest;
    OldestIsOldest(w, |w.entries|, Active);
    assert w.entries[..|w.entries|] == w.entries;
  }

  /** Next succeeds exactly when no active id is a whole window old: the slot scan never fails after the range check. */
  lemma NextSlotExactly(w: Window)
    requires SendInv(w)
    ensures NextSlot(w).Some? <==> AllYoung(w)
    ensures NextSlot(w).Some? ==> NextSlot(w).value < |w.entries| && !w.entries[NextSlot(w).value].active
  {
    hide SendInv, AllYoung, Oldest;
    RangeCheckIsForAll(w);
    if AllYoung(w) {
      SomeSlotIsFree(w);
      assert Free(w.entries[FirstWhere(w.entries, Free)]);
    }
  }

  lemma MarkActiveKeeps(w: Window, i: nat)
    requires SendInv(w) && NextSlot(w) == Some(i)
    ensures i < |w.entries| && SendInv(MarkActive(w, i))
    ensures forall j :: 0 <= j < |w.entries| && j != i ==> MarkActive(w, i).entries[j] == w.entries[j]
  {
    NextSlotExactly(w);
  }

  /** Ack clears exactly the named ids and touches nothing but the resend counters elsewhere. */
  lemma {:induction false} AckPurgesExactly(es: Slots, ids: seq<u32>, i: nat)
    requires i < |es|
    ensures var a := AckEntries(es, ids)[i];
            && a.active == (es[i].active && es[i].packetId !in ids)
            && a.packetId == es[i].packetId && a.payload == es[i].payload
            && a.timeout == es[i].timeout && a.nextTry == es[i].nextTry && a.nAcks >= es[i].nAcks
    decreases |ids|
  {
    if ids != [] {
      var es' := seq(|es|, j requires 0 <= j < |es| => AckEntry(es[j], ids[0]));
      AckPurgesExactly(es', ids[1..], i);
    }
  }

  lemma AckKeeps(w: Window, ids: seq<u32>)
    requires SendInv(w)
    ensures SendInv(Ack(w, ids))
  {
    forall i | 0 <= i < |w.entries|
      ensures var a := AckEntries(w.entries, ids)[i];
              a.packetId == w.entries[i].packetId && (a.active ==> w.entries[i].active)
    {
      AckPurgesExactly(w.entries, ids, i);
    }
  }

  lemma DueKeeps(w: Window, now: nat)
    requires SendInv(w)
    ensures SendInv(Due(w, now))
  {
  }

  // ---- runs ----

  datatype SendEvent = Send(payload: seq<u8>) | Acked(ids: seq<u32>) | Poll(now: nat)

  /** One operation on the send window, with Next, MarkActive and SetPayload in the order a single writer makes them. */
  function SendStep(w: Window, ev: SendEvent): Window {
    match ev
    case Send(payload) =>
      var slot := NextSlot(w);
      if slot.None? || slot.value >= |w.entries| then w
      else SetPayload(MarkActive(w, slot.value), slot.value, payload)
    case Acked(ids) => Ack(w, ids)
    case Poll(now) => Due(w, now)
  }

  function SendRun(w: Window, evs: seq<SendEvent>): Window
    decreases |evs|
  {
    if evs == [] then w else SendRun(SendStep(w, evs[0]), evs[1..])
  }

  /** However long the run, and wherever its ids start, the window stays within its span with distinct ids. */
  lemma {:induction false} SendRunKeeps(w: Window, evs: seq<SendEvent>)
    requires SendInv(w)
    ensures SendInv(SendRun(w, evs))
    decreases |evs|
  {
    if evs != [] {
      match evs[0] {
        case Send(payload) =>
          var slot := NextSlot(w);
          if slot.Some? && slot.value < |w.entries| {
            MarkActiveKeeps(w, slot.value);
          }
        case Acked(ids) => AckKeeps(w, ids);
        case Poll(now) => DueKeeps(w, now);
      }
      SendRunKeeps(SendStep(w, evs[0]), evs[1..]);
    }
  }

  // ---- which entry Due picks ----

  function DueIds(es: seq<Entry>, now: nat): set<u32> {
    set i | 0 <= i < |es| && es[i].IsDue(now) :: es[i].packetId
  }

  /** The entry Due picks is the oldest one due. */
  lemma DuePicksOldest(w: Window, now: nat)
    requires SendInv(w)
    ensures DueSlot(w, now).None? <==> DueIds(w.entries, now) == {}
    ensures DueSlot(w, now).Some? ==>
              forall id :: id in DueIds(w.entries, now) ==>
                Sub32(w.packetId, id) <= Age(w, w.entries[DueSlot(w, now).value])
  {
    OldestIsOldest(w, |w.entries|, DueAt(now));
    assert w.entries[..|w.entries|] == w.entries;
    forall i | 0 <= i < |w.entries| ensures DueAt(now)(w.entries[i]) == w.entries[i].IsDue(now) {
    }
    if DueSlot(w, now).Some? {
      assert w.entries[DueSlot(w, now).value].packetId in DueIds(w.entries, now);
    }
  }
}
