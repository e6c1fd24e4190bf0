/** The retransmit loop over a send window (internal/ctrlconn): how long the doubling of an int64 timeout lasts, and
    what draining Due at one clock reading does to entries that have been resent any number of times. */
module Backoff {
  import opened Words
  import opened Windows
  import opened SendWindow

  // ---- the timeout after k resends ----

  /** Doubling an int64 duration is exact, and so positive, exactly below 2^62 nanoseconds. */
  lemma DoublingIsExactIff(d: int)
    requires 0 < d < INT64_LIMIT
    ensures Double64(d) == 2 * d <==> 2 * d < INT64_LIMIT
    ensures Double64(d) > 0 <==> 2 * d < INT64_LIMIT
  {
  }

  lemma Double64Wraps(d: int)
    requires -INT64_LIMIT <= d < INT64_LIMIT
    ensures Double64(d) ==
      if 2 * d >= INT64_LIMIT then 2 * d - 2 * INT64_LIMIT
      else if 2 * d < -INT64_LIMIT then 2 * d + 2 * INT64_LIMIT
      else 2 * d
  {
  }

  function Doubled(k: nat): int {
    if k == 0 then TLS_TIMEOUT else Double64(Doubled(k - 1))
  }

  /** The resend counts at which the timeout is still, or by wrapping again, positive. */
  predicate Lasting(k: nat) {
    k <= 32 || k in {36, 40, 41, 44, 46, 49, 50, 52}
  }

  const LAST_LASTING := 52

  lemma {:induction false} BackoffIsExact(k: nat)
    requires k <= 32
    ensures Doubled(k) == TLS_TIMEOUT * Pow2(k) > 0
  {
    if k > 0 {
      BackoffIsExact(k - 1);
      Pow2Grows(k, 32);
      Pow2Concretely();
      DoublingIsExactIff(Doubled(k - 1));
    }
  }

  /** The timeout is exact through 32 resends, and positive exactly at the lasting counts; from the 54th on it is zero.
      */
  lemma BackoffLastsIff(k: nat)
    ensures Doubled(k) > 0 <==> Lasting(k)
    ensures k <= 32 ==> Doubled(k) == TLS_TIMEOUT * Pow2(k)
  {
    hide Doubled;
    if k <= 32 {
      BackoffIsExact(k);
    } else if k <= 54 {
      WrappedBackoff(k);
      WrappedSigns(k);
    } else {
      ZeroStaysZero(k);
    }
  }

  /** The timeouts after 32, 33, ... resends, as int64 doubling wraps them. */
  const WRAPPED: seq<int> := [
    8589934592000000000, -1266874889709551616, -2533749779419103232, -5067499558838206464,
    8311744956033138688, -1823254161643274240, -3646508323286548480, -7293016646573096960,
    3860710780563357696, 7721421561126715392, -3003900951456120832, -6007801902912241664,
    6431140267885068288, -5584463537939415040, 7277816997830721536, -3891110078048108544,
    -7782220156096217088, 2882303761517117440, 5764607523034234880, -6917529027641081856,
    4611686018427387904, -9223372036854775808, 0]

  lemma {:induction false} WrappedBackoff(k: nat)
    requires 32 <= k <= 54
    ensures Doubled(k) == WRAPPED[k - 32]
  {
    if k == 32 {
      BackoffIsExact(32);
      Pow2Concretely();
    } else {
      WrappedBackoff(k - 1);
      WrappedDoubles(k - 33);
    }
  }

  lemma WrappedSigns(k: nat)
    requires 32 < k <= 54
    ensures WRAPPED[k - 32] > 0 <==> Lasting(k)
  {
  }

  lemma WrappedDoubles(i: nat)
    requires i < 22
    ensures WRAPPED[i + 1] == Double64(WRAPPED[i])
  {
    hide Double64;
    Double64Wraps(WRAPPED[i]);
  }

  lemma {:induction false} ZeroStaysZero(k: nat)
    requires 54 <= k
    ensures Doubled(k) == 0
  {
    if k == 54 {
      WrappedBackoff(54);
    } else {
      ZeroStaysZero(k - 1);
    }
  }

  // ---- a window and how often each entry has been resent ----

  /** resends[i] counts how often Due has returned slot i since it was last given to a packet. */
  datatype Tracked = Tracked(w: Window, resends: seq<nat>)

  function Fresh(size: nat): Tracked
    requires 0 < size <= CAPACITY
  {
    Tracked(NewWindow(size), seq(size, i => 0))
  }

  /** Beside the window's own invariant: an active entry's timeout is the initial one doubled once per resend. */
  predicate TrackInv(t: Tracked) {
    && SendInv(t.w)
    && |t.resends| == |t.w.entries|
    && forall i :: 0 <= i < |t.w.entries| && t.w.entries[i].active ==> t.w.entries[i].timeout == Doubled(t.resends[i])
  }

  lemma FreshIsTracked(size: nat)
    requires 0 < size <= CAPACITY
    ensures TrackInv(Fresh(size))
  {
  }

  /** Due, counting the resend. */
  function Polled(t: Tracked, now: nat): Tracked {
    var slot := DueSlot(t.w, now);
    Tracked(Due(t.w, now),
            if slot.None? || slot.value >= |t.resends| then t.resends
            else t.resends[slot.value := t.resends[slot.value] + 1])
  }

  /** One operation on the send window, counting. */
  function Track(t: Tracked, ev: SendEvent): Tracked {
    match ev
    case Send(payload) =>
      var slot := NextSlot(t.w);
      Tracked(SendStep(t.w, ev),
              if slot.None? || slot.value >= |t.resends| then t.resends else t.resends[slot.value := 0])
    case Acked(ids) => t.(w := SendStep(t.w, ev))
    case Poll(now) => Polled(t, now)
  }

  function TrackRun(t: Tracked, evs: seq<SendEvent>): Tracked
    decreases |evs|
  {
    if evs == [] then t else TrackRun(Track(t, evs[0]), evs[1..])
  }

  lemma PolledKeeps(t: Tracked, now: nat)
    requires TrackInv(t)
    ensures TrackInv(Polled(t, now))
  {
    DueKeeps(t.w, now);
  }

  lemma SentKeeps(t: Tracked, payload: seq<u8>)
    requires TrackInv(t)
    ensures TrackInv(Track(t, Send(payload)))
  {
    var slot := NextSlot(t.w);
    if slot.Some? && slot.value < |t.w.entries| {
      MarkActiveKeeps(t.w, slot.value);
    }
  }

  lemma AckedKeeps(t: Tracked, ids: seq<u32>)
    requires TrackInv(t)
    ensures TrackInv(Track(t, Acked(ids)))
  {
    hide SendInv;
    AckKeeps(t.w, ids);
    forall i | 0 <= i < |t.w.entries| && Ack(t.w, ids).entries[i].active
      ensures t.w.entries[i].active && Ack(t.w, ids).entries[i].timeout == t.w.entries[i].timeout
    {
      AckPurgesExactly(t.w.entries, ids, i);
    }
  }

  lemma TrackKeeps(t: Tracked, ev: SendEvent)
    requires TrackInv(t)
    ensures TrackInv(Track(t, ev)) && Track(t, ev).w == SendStep(t.w, ev)
  {
    hide TrackInv;
    match ev
    case Send(payload) => SentKeeps(t, payload);
    case Acked(ids) => AckedKeeps(t, ids);
    case Poll(now) => PolledKeeps(t, now);
  }

  /** In every run the timeout of every active entry is what its resends make it, and the window is that of the run. */
  lemma {:induction false} TrackRunKeeps(t: Tracked, evs: seq<SendEvent>)
    requires TrackInv(t)
    ensures TrackInv(TrackRun(t, evs)) && TrackRun(t, evs).w == SendRun(t.w, evs)
    decreases |evs|
  {
    if evs != [] {
      TrackKeeps(t, evs[0]);
      TrackRunKeeps(Track(t, evs[0]), evs[1..]);
    }
  }

  // ---- draining Due at one clock reading ----

  predicate IsDueAt(t: Tracked, now: nat, i: nat) {
    i < |t.w.entries| && t.w.entries[i].IsDue(now)
  }

  /** No due entry is past the last count at which its timeout is positive. */
  predicate CanEnd(t: Tracked, now: nat)
    requires |t.resends| == |t.w.entries|
  {
    forall i :: 0 <= i < |t.resends| && IsDueAt(t, now, i) ==> t.resends[i] <= LAST_LASTING
  }

  /** Every due entry has been resent a lasting number of times; 32 or fewer, in particular. */
  predicate AllLasting(t: Tracked, now: nat)
    requires |t.resends| == |t.w.entries|
  {
    forall i :: 0 <= i < |t.resends| && IsDueAt(t, now, i) ==> Lasting(t.resends[i])
  }

  /** What Due does to the entry it returns, and to the others. A resent entry is due again at the same reading exactly
      when its count is not a lasting one: for the first time at 33 resends. */
  lemma ResentIsDueAgainIff(t: Tracked, now: nat)
    requires TrackInv(t) && DueSlot(t.w, now).Some?
    ensures var b, t' := DueSlot(t.w, now).value, Polled(t, now);
            && IsDueAt(t, now, b)
            && (IsDueAt(t', now, b) <==> !Lasting(t.resends[b]))
            && t'.resends == t.resends[b := t.resends[b] + 1]
            && |t'.w.entries| == |t.w.entries|
            && (forall i :: 0 <= i < |t.resends| && i != b ==> t'.w.entries[i] == t.w.entries[i])
            && (forall i :: 0 <= i < |t.resends| ==>
                  && t'.w.entries[i].active == t.w.entries[i].active
                  && t'.w.entries[i].packetId == t.w.entries[i].packetId
                  && t'.w.entries[i].payload == t.w.entries[i].payload)
  {
    var b := DueSlot(t.w, now).value;
    assert DueAt(now)(t.w.entries[b]);
    BackoffLastsIff(t.resends[b]);
  }

  /** The resends the due entries may still take before their timeout is zero for good. */
  function Budget(t: Tracked, now: nat, n: nat): nat
    requires n <= |t.resends| == |t.w.entries|
  {
    if n == 0 then 0
    else Budget(t, now, n - 1) + (if IsDueAt(t, now, n - 1) && t.resends[n - 1] <= 53 then 54 - t.resends[n - 1] else 0)
  }

  lemma {:induction false} BudgetShrinks(t: Tracked, t': Tracked, now: nat, b: nat, n: nat)
    requires n <= |t.resends| == |t.w.entries| == |t'.resends| == |t'.w.entries| && b < |t.resends|
    requires IsDueAt(t, now, b) && t.resends[b] <= LAST_LASTING && t'.resends == t.resends[b := t.resends[b] + 1]
    requires forall i :: 0 <= i < |t.resends| && i != b ==> t'.w.entries[i] == t.w.entries[i]
    ensures if b < n then Budget(t', now, n) < Budget(t, now, n) else Budget(t', now, n) == Budget(t, now, n)
  {
    if n > 0 {
      BudgetShrinks(t, t', now, b, n - 1);
    }
  }

  lemma PolledCanEnd(t: Tracked, now: nat)
    requires TrackInv(t) && CanEnd(t, now) && DueSlot(t.w, now).Some?
    ensures var t' := Polled(t, now);
            && TrackInv(t') && CanEnd(t', now)
            && Budget(t', now, |t'.resends|) < Budget(t, now, |t.resends|)
  {
    PolledKeeps(t, now);
    ResentIsDueAgainIff(t, now);
    BudgetShrinks(t, Polled(t, now), now, DueSlot(t.w, now).value, |t.resends|);
  }

  /** The retransmit loop's inner loop: the slots Due returns until it returns nothing, and the window then. */
  function DrainDue(t: Tracked, now: nat): (seq<nat>, Tracked)
    requires TrackInv(t) && CanEnd(t, now)
    decreases Budget(t, now, |t.resends|)
  {
    var best := DueSlot(t.w, now);
    if best.None? then ([], t)
    else
      PolledCanEnd(t, now);
      var (slots, t') := DrainDue(Polled(t, now), now);
      ([best.value] + slots, t')
  }

  lemma DrainHead(t: Tracked, now: nat)
    requires TrackInv(t) && CanEnd(t, now) && DueSlot(t.w, now).Some?
    ensures var t' := Polled(t, now);
            && TrackInv(t') && CanEnd(t', now) && Budget(t', now, |t'.resends|) < Budget(t, now, |t.resends|)
            && DrainDue(t, now).0 == [DueSlot(t.w, now).value] + DrainDue(t', now).0
  {
    PolledCanEnd(t, now);
  }

  /** Exactly the due slots, each once, the oldest id first. */
  ghost predicate EachOnceOldestFirst(slots: seq<nat>, t: Tracked, now: nat) {
    && (forall i :: i in slots <==> IsDueAt(t, now, i))
    && (forall k, l :: 0 <= k < l < |slots| ==> Older(t.w, slots[k], slots[l]))
  }

  predicate Older(w: Window, i: nat, j: nat) {
    i < |w.entries| && j < |w.entries| && Age(w, w.entries[i]) > Age(w, w.entries[j])
  }

  lemma DueIsOldest(t: Tracked, now: nat, i: nat)
    requires TrackInv(t) && IsDueAt(t, now, i)
    ensures DueSlot(t.w, now).Some?
    ensures var b := DueSlot(t.w, now).value; b != i ==> Older(t.w, b, i)
  {
    DuePicksOldest(t.w, now);
    assert t.w.entries[i].packetId in DueIds(t.w.entries, now);
    var b := DueSlot(t.w, now).value;
    assert DueAt(now)(t.w.entries[b]);
  }

  /** The drain ends with nothing due. */
  lemma {:induction false} DrainLeavesNothing(t: Tracked, now: nat)
    requires TrackInv(t) && CanEnd(t, now)
    ensures var t' := DrainDue(t, now).1;
            && TrackInv(t') && t'.w.packetId == t.w.packetId
            && DueSlot(t'.w, now).None? && forall i :: !IsDueAt(t', now, i)
    decreases Budget(t, now, |t.resends|)
  {
    if DueSlot(t.w, now).Some? {
      PolledCanEnd(t, now);
      DrainLeavesNothing(Polled(t, now), now);
    } else {
      forall i ensures !IsDueAt(t, now, i) {
        if IsDueAt(t, now, i) {
          DueIsOldest(t, now, i);
        }
      }
    }
  }

  /** The oldest due slot, then the others in order. */
  lemma OldestThenRest(t: Tracked, t': Tracked, b: nat, rest: seq<nat>, now: nat)
    requires EachOnceOldestFirst(rest, t', now) && IsDueAt(t, now, b)
    requires forall i: nat :: IsDueAt(t', now, i) <==> IsDueAt(t, now, i) && i != b
    requires forall i: nat :: IsDueAt(t, now, i) && i != b ==> Older(t.w, b, i)
    requires forall i, j :: Older(t'.w, i, j) ==> Older(t.w, i, j)
    ensures EachOnceOldestFirst([b] + rest, t, now)
  {
    hide IsDueAt, Older;
    forall l | 0 <= l < |rest| ensures Older(t.w, b, rest[l]) {
      assert rest[l] in rest;
    }
  }

  lemma AgesStay(w: Window, w': Window)
    requires |w'.entries| == |w.entries| && w'.packetId == w.packetId
    requires forall i :: 0 <= i < |w.entries| ==> w'.entries[i].packetId == w.entries[i].packetId
    ensures forall i, j :: Older(w', i, j) ==> Older(w, i, j)
  {
  }

  /** With lasting counts it visits each due entry once, oldest first. */
  lemma {:induction false} DrainVisitsEachOnce(t: Tracked, now: nat)
    requires TrackInv(t) && CanEnd(t, now) && AllLasting(t, now)
    ensures EachOnceOldestFirst(DrainDue(t, now).0, t, now)
    decreases Budget(t, now, |t.resends|)
  {
    hide EachOnceOldestFirst, Older, Budget, Lasting, SendInv, DueSlot;
    if DueSlot(t.w, now).Some? {
      var b, t' := DueSlot(t.w, now).value, Polled(t, now);
      DrainHead(t, now);
      ResentIsDueAgainIff(t, now);
      DrainVisitsEachOnce(t', now);
      AgesStay(t.w, t'.w);
      forall i: nat | IsDueAt(t, now, i) && i != b ensures Older(t.w, b, i) {
        DueIsOldest(t, now, i);
      }
      OldestThenRest(t, t', b, DrainDue(t', now).0, now);
    } else {
      NothingDue(t, now);
    }
  }

  lemma NothingDue(t: Tracked, now: nat)
    requires TrackInv(t) && CanEnd(t, now) && DueSlot(t.w, now).None?
    ensures EachOnceOldestFirst(DrainDue(t, now).0, t, now)
  {
    DrainLeavesNothing(t, now);
  }

  /** The scan looks at ids and at nothing else of the entries that satisfy its predicate. */
  lemma {:induction false} OldestSame(es: seq<Entry>, fs: seq<Entry>, p: Entry -> bool)
    requires |es| == |fs| && forall i :: 0 <= i < |es| ==> p(es[i]) == p(fs[i]) && es[i].packetId == fs[i].packetId
    ensures Oldest(es, p) == Oldest(fs, p)
  {
    if es != [] {
      OldestSame(es[..|es| - 1], fs[..|fs| - 1], p);
    }
  }

  /** An entry whose count is not lasting is picked twice in a row. */
  lemma PickedAgain(t: Tracked, now: nat)
    requires TrackInv(t) && DueSlot(t.w, now).Some? && !Lasting(t.resends[DueSlot(t.w, now).value])
    ensures DueSlot(Polled(t, now).w, now) == DueSlot(t.w, now)
  {
    ResentIsDueAgainIff(t, now);
    var t' := Polled(t, now);
    forall i | 0 <= i < |t.w.entries| ensures DueAt(now)(t.w.entries[i]) == DueAt(now)(t'.w.entries[i]) {
      assert IsDueAt(t, now, i) == IsDueAt(t', now, i);
    }
    OldestSame(t.w.entries, t'.w.entries, DueAt(now));
  }

  predicate Repeats(slots: seq<nat>) {
    exists k, l :: 0 <= k < l < |slots| && slots[k] == slots[l]
  }

  /** With some other count, an entry is visited more than once. */
  lemma {:induction false} DrainRepeats(t: Tracked, now: nat)
    requires TrackInv(t) && CanEnd(t, now) && !AllLasting(t, now)
    ensures Repeats(DrainDue(t, now).0)
    decreases Budget(t, now, |t.resends|)
  {
    hide DrainDue, Budget, CanEnd, Lasting, Polled, DueSlot, SendInv;
    var i :| 0 <= i < |t.resends| && IsDueAt(t, now, i) && !Lasting(t.resends[i]);
    DueIsOldest(t, now, i);
    var b, t' := DueSlot(t.w, now).value, Polled(t, now);
    DrainHead(t, now);
    ResentIsDueAgainIff(t, now);
    var slots, rest := DrainDue(t, now).0, DrainDue(t', now).0;
    if Lasting(t.resends[b]) {
      assert IsDueAt(t', now, i) && !Lasting(t'.resends[i]);
      DrainRepeats(t', now);
      var k, l :| 0 <= k < l < |rest| && rest[k] == rest[l];
      assert slots[k + 1] == slots[l + 1];
    } else {
      PickedAgain(t, now);
      DrainHead(t', now);
      assert slots[0] == slots[1];
    }
  }

  // ---- when it ends, and when it visits each once ----

  /** n calls of Due at one reading. */
  function PolledTimes(t: Tracked, now: nat, n: nat): Tracked
    decreases n
  {
    if n == 0 then t else PolledTimes(Polled(t, now), now, n - 1)
  }

  /** At 53 resends and beyond the timeout is never positive again: the entry stays due for good. */
  lemma {:induction false} StuckStaysDue(t: Tracked, now: nat, i: nat, n: nat)
    requires TrackInv(t) && IsDueAt(t, now, i) && t.resends[i] > LAST_LASTING
    ensures IsDueAt(PolledTimes(t, now, n), now, i) && DueSlot(PolledTimes(t, now, n).w, now).Some?
    decreases n
  {
    DueIsOldest(t, now, i);
    if n > 0 {
      PolledKeeps(t, now);
      ResentIsDueAgainIff(t, now);
      StuckStaysDue(Polled(t, now), now, i, n - 1);
    }
  }

  lemma {:induction false} DrainIsPolling(t: Tracked, now: nat)
    requires TrackInv(t) && CanEnd(t, now)
    ensures PolledTimes(t, now, |DrainDue(t, now).0|) == DrainDue(t, now).1
    decreases Budget(t, now, |t.resends|)
  {
    if DueSlot(t.w, now).Some? {
      PolledCanEnd(t, now);
      DrainIsPolling(Polled(t, now), now);
    }
  }

  /** Draining at one reading stops exactly when no due entry has been resent more than 52 times. */
  lemma DrainEndsIff(t: Tracked, now: nat)
    requires TrackInv(t)
    ensures (exists n :: DueSlot(PolledTimes(t, now, n).w, now).None?) <==> CanEnd(t, now)
  {
    if CanEnd(t, now) {
      DrainIsPolling(t, now);
      DrainLeavesNothing(t, now);
    } else {
      var i :| 0 <= i < |t.resends| && IsDueAt(t, now, i) && t.resends[i] > LAST_LASTING;
      forall n ensures DueSlot(PolledTimes(t, now, n).w, now).Some? {
        StuckStaysDue(t, now, i, n);
      }
    }
  }

  /** In every run of the send window from its creation, at every clock reading: draining stops and visits each due
      entry once, oldest first, exactly when every due entry has been resent a lasting number of times. Up to 32
      resends it always does; an entry due after 33 it visits again. */
  lemma DrainsOnceIff(size: nat, evs: seq<SendEvent>, now: nat)
    requires 0 < size <= CAPACITY
    ensures var t := TrackRun(Fresh(size), evs);
            && TrackInv(t) && t.w == SendRun(NewWindow(size), evs)
            && (CanEnd(t, now) && EachOnceOldestFirst(DrainDue(t, now).0, t, now) <==> AllLasting(t, now))
            && ((forall i :: 0 <= i < |t.resends| && IsDueAt(t, now, i) ==> t.resends[i] <= 32) ==> AllLasting(t, now))
            && ((exists i :: 0 <= i < |t.resends| && IsDueAt(t, now, i) && t.resends[i] == 33) ==> !AllLasting(t, now))
  {
    hide SendInv, Budget, Doubled, DrainDue, DueSlot;
    FreshIsTracked(size);
    TrackRunKeeps(Fresh(size), evs);
    var t := TrackRun(Fresh(size), evs);
    if AllLasting(t, now) {
      DrainVisitsEachOnce(t, now);
    } else if CanEnd(t, now) {
      DrainRepeats(t, now);
    }
  }

  // ---- the failing counts are reached ----

  /** Acknowledgements of an id that was never sent make the entry due at once, whatever its timeout. */
  function Provocation(k: nat): seq<SendEvent> {
    if k == 0 then [Acked([1, 1, 1])] else [Acked([1, 1, 1]), Poll(0)] + Provocation(k - 1)
  }

  predicate OnlyFirst(t: Tracked) {
    && TrackInv(t)
    && t.w.entries[0].active && t.w.entries[0].packetId == 0
    && forall i :: 0 < i < |t.w.entries| ==> !t.w.entries[i].active
  }

  lemma ProvokedOnce(t: Tracked)
    requires OnlyFirst(t)
    ensures var t' := Track(t, Acked([1, 1, 1]));
            OnlyFirst(t') && t'.resends == t.resends && IsDueAt(t', 0, 0) && DueSlot(t'.w, 0) == Some(0)
  {
    TrackKeeps(t, Acked([1, 1, 1]));
    var t' := Track(t, Acked([1, 1, 1]));
    forall i | 0 <= i < |t.w.entries| ensures t'.w.entries[i].active ==> t.w.entries[i].active {
      AckPurgesExactly(t.w.entries, [1, 1, 1], i);
    }
    ThreeAcks(t.w.entries);
    DueIsOldest(t', 0, 0);
    assert DueAt(0)(t'.w.entries[DueSlot(t'.w, 0).value]);
  }

  lemma ThreeAcks(es: Slots)
    requires es[0].active && es[0].packetId == 0
    ensures var e := AckEntries(es, [1, 1, 1])[0]; e.active && e.packetId == 0 && e.nAcks == es[0].nAcks + 3
  {
    var es1 := seq(|es|, i requires 0 <= i < |es| => AckEntry(es[i], 1));
    var es2 := seq(|es|, i requires 0 <= i < |es| => AckEntry(es1[i], 1));
    var es3 := seq(|es|, i requires 0 <= i < |es| => AckEntry(es2[i], 1));
    assert [1, 1, 1][1..] == [1, 1] && [1, 1][1..] == [1] && [1][1..] == [];
    assert AckEntries(es, [1, 1, 1]) == AckEntries(es1, [1, 1]) == AckEntries(es2, [1]) == AckEntries(es3, []) == es3;
  }

  lemma ProvokedAndPolled(t: Tracked)
    requires OnlyFirst(t)
    ensures var t' := Track(Track(t, Acked([1, 1, 1])), Poll(0));
            OnlyFirst(t') && |t'.resends| == |t.resends| && t'.resends[0] == t.resends[0] + 1
  {
    hide Polled, DueSlot, SendInv;
    ProvokedOnce(t);
    var t1 := Track(t, Acked([1, 1, 1]));
    PolledKeeps(t1, 0);
    ResentIsDueAgainIff(t1, 0);
  }

  lemma {:induction false} ProvokedTimes(t: Tracked, k: nat)
    requires OnlyFirst(t)
    ensures var t' := TrackRun(t, Provocation(k));
            OnlyFirst(t') && IsDueAt(t', 0, 0) && t'.resends[0] == t.resends[0] + k
    decreases k
  {
    hide Track, SendInv, IsDueAt;
    if k == 0 {
      ProvokedOnce(t);
      assert Provocation(0)[1..] == [];
    } else {
      ProvokedAndPolled(t);
      ProvokedTimes(Track(Track(t, Acked([1, 1, 1])), Poll(0)), k - 1);
      ProvocationHead(t, k);
    }
  }

  lemma ProvocationHead(t: Tracked, k: nat)
    requires k > 0
    ensures TrackRun(t, Provocation(k)) == TrackRun(Track(Track(t, Acked([1, 1, 1])), Poll(0)), Provocation(k - 1))
  {
    hide Track;
    var evs := Provocation(k);
    assert evs[0] == Acked([1, 1, 1]) && evs[1..][0] == Poll(0) && evs[1..][1..] == Provocation(k - 1);
  }

  /** Every count is reached, at a single clock reading, by a peer that keeps acknowledging a higher id. */
  lemma EveryCountIsReached(size: nat, k: nat)
    requires 0 < size <= CAPACITY
    ensures var t := TrackRun(Fresh(size), [Send([])] + Provocation(k));
            |t.resends| > 0 && IsDueAt(t, 0, 0) && t.resends[0] == k
  {
    var t := Fresh(size);
    TrackKeeps(t, Send([]));
    NextSlotExactly(t.w);
    assert NextSlot(t.w) == Some(0) by {
      assert Free(t.w.entries[0]);
    }
    ProvokedTimes(Track(t, Send([])), k);
    assert ([Send([])] + Provocation(k))[1..] == Provocation(k);
  }
}
