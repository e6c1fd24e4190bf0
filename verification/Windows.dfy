/** The control channel's reliability windows (internal/reliable): packet-id comparison under
    wrap-around, the slot array of one direction, and its send-side and receive-side operations.
    Each operation is a function on the window's value; class Reliable performs it in place. */
module Windows {
  import opened Words

  const ACK_SIZE := 8
  const CAPACITY := 12
  const N_SEND_BUFFERS := 6
  const N_REC_BUFFERS := 12
  const N_ACK_RETRANSMIT := 3

  /** --tls-timeout, in nanoseconds. */
  const TLS_TIMEOUT := 2_000_000_000

  const INT64_LIMIT := 0x8000_0000_0000_0000

  // ---- packet-id comparison ----

  predicate InRange1(test: u32, base: u32, extent: u32) {
    Sub32(test, base) < extent
  }

  predicate InRange2(test: u32, base: u32, extent: u32) {
    if Add32(base, extent) >= base then
      test < Add32(base, extent)
    else
      Add32(test, TWO31) < Add32(Add32(base, TWO31), extent)
  }

  predicate PidMin(p1: u32, p2: u32) {
    !InRange1(p1, p2, TWO31)
  }

  // ---- one window ----

  /** Times are clock readings in nanoseconds; the zero time.Time is 0. */
  datatype Entry = Entry(
    active: bool,
    timeout: int,
    nextTry: int,
    packetId: u32,
    nAcks: nat,
    payload: seq<u8>)
  {
    predicate IsDue(now: nat) {
      active && (nAcks >= N_ACK_RETRANSMIT || now >= nextTry)
    }
  }

  const EMPTY_ENTRY := Entry(false, 0, 0, 0, 0, [])

  type Slots = s: seq<Entry> | 0 < |s| <= CAPACITY witness [EMPTY_ENTRY]

  /** packetId is the next id to assign on the send side, and the lowest id not yet consumed on the receive side. */
  datatype Window = Window(packetId: u32, entries: Slots)

  function NewWindow(size: nat): Window
    requires 0 < size <= CAPACITY
  {
    Window(0, seq(size, i => EMPTY_ENTRY))
  }

  predicate Active(e: Entry) { e.active }

  predicate Free(e: Entry) { !e.active }

  function Holding(id: u32): Entry -> bool {
    (e: Entry) => e.active && e.packetId == id
  }

  function DueAt(now: nat): Entry -> bool {
    (e: Entry) => e.IsDue(now)
  }

  /** The first slot that satisfies p, or |es| if none does. */
  function FirstWhere(es: seq<Entry>, p: Entry -> bool): (i: nat)
    ensures i <= |es|
    ensures i < |es| ==> p(es[i])
    ensures forall j :: 0 <= j < i ==> !p(es[j])
  {
    if es == [] then 0
    else if p(es[0]) then 0
    else
      var k := FirstWhere(es[1..], p);
      assert forall j :: 1 <= j < k + 1 ==> es[j] == es[1..][j - 1];
      k + 1
  }

  /** The slot a scan keeping the smallest id (by PidMin) among those satisfying p ends on. */
  function Oldest(es: seq<Entry>, p: Entry -> bool): (best: Option<nat>)
    ensures best.Some? ==> best.value < |es| && p(es[best.value])
  {
    if es == [] then None
    else
      var n := |es| - 1;
      var best := Oldest(es[..n], p);
      if p(es[n]) && (best.None? || PidMin(es[n].packetId, es[best.value].packetId)) then Some(n)
      else best
  }

  /** Next: a free slot, provided the oldest active id is less than a window behind. */
  function NextSlot(w: Window): Option<nat> {
    var oldest := Oldest(w.entries, Active);
    if oldest.Some? && !InRange1(w.packetId, w.entries[oldest.value].packetId, |w.entries|) then None
    else
      var i := FirstWhere(w.entries, Free);
      if i < |w.entries| then Some(i) else None
  }

  function MarkActive(w: Window, i: nat): Window
    requires i < |w.entries|
  {
    var e := w.entries[i];
    Window(Add32(w.packetId, 1),
           w.entries[i := Entry(true, TLS_TIMEOUT, 0, w.packetId, 0, e.payload)])
  }

  function SetPayload(w: Window, i: nat, payload: seq<u8>): Window
    requires i < |w.entries|
  {
    w.(entries := w.entries[i := w.entries[i].(payload := payload)])
  }

  function AckEntry(e: Entry, pid: u32): Entry {
    if !e.active then e
    else if e.packetId == pid then e.(active := false)
    else if e.packetId < pid then e.(nAcks := e.nAcks + 1)
    else e
  }

  function AckEntries(es: Slots, ids: seq<u32>): (r: Slots)
    ensures |r| == |es|
    decreases |ids|
  {
    if ids == [] then es
    else AckEntries(seq(|es|, i requires 0 <= i < |es| => AckEntry(es[i], ids[0])), ids[1..])
  }

  function Ack(w: Window, ids: seq<u32>): Window {
    w.(entries := AckEntries(w.entries, ids))
  }

  /** Doubling a time.Duration: an int64 multiplication. */
  function Double64(d: int): int {
    (2 * d + INT64_LIMIT) % (2 * INT64_LIMIT) - INT64_LIMIT
  }

  function Resent(e: Entry, now: nat): Entry {
    e.(nextTry := now + e.timeout, timeout := Double64(e.timeout), nAcks := 0)
  }

  /** Due: the oldest entry ready for (re)send, if any, and the window once it is backed off. */
  function DueSlot(w: Window, now: nat): Option<nat> {
    Oldest(w.entries, DueAt(now))
  }

  function Due(w: Window, now: nat): Window {
    var best := DueSlot(w, now);
    if best.None? then w
    else w.(entries := w.entries[best.value := Resent(w.entries[best.value], now)])
  }

  datatype PutResult = PutRejected | PutAccepted | PutDuplicate

  function Put(w: Window, id: u32, payload: seq<u8>): (Window, PutResult) {
    if PidMin(id, w.packetId) then (w, PutRejected)
    else if FirstWhere(w.entries, Holding(id)) < |w.entries| then (w, PutDuplicate)
    else if !InRange2(id, w.packetId, |w.entries|) then (w, PutRejected)
    else
      var i := FirstWhere(w.entries, Free);
      if i < |w.entries| then
        (w.(entries := w.entries[i := w.entries[i].(active := true, packetId := id, nAcks := 0, payload := payload)]),
         PutAccepted)
      else (w, PutRejected)
  }

  function Get(w: Window): (Window, Option<seq<u8>>) {
    var i := FirstWhere(w.entries, Holding(w.packetId));
    if i < |w.entries| then
      (Window(Add32(w.packetId, 1), w.entries[i := w.entries[i].(active := false)]),
       Some(w.entries[i].payload))
    else (w, None)
  }

  /** Pending acknowledgements. */
  function AddAck(ids: seq<u32>, id: u32): seq<u32> {
    if id in ids then ids else ids + [id]
  }

  function DrainCount(ids: seq<u32>): nat {
    if |ids| > ACK_SIZE then ACK_SIZE else |ids|
  }
}
