/** One session's data path over its whole life (session.go): arrivals opened under the primary key and then the lame
    duck, a bounded queue, Read with its one-packet carry-over, and key rollovers in between. */
module Delivery {
  import opened Words
  import Replay
  import opened DataChannel

  const TRANSITION_WINDOW: int := 3600
  const OCC_MAGIC: seq<u8> := [
    0x28, 0x7f, 0x34, 0x6b, 0xd4, 0xef, 0x7a, 0x81, 0x2d, 0x56, 0xb8, 0xd3, 0xaf, 0xc5, 0x45, 0x9c]
  const OCC_EXIT: u8 := 0x06

  predicate IsExitNotify(plaintext: seq<u8>) {
    |plaintext| >= 17 && plaintext[..16] == OCC_MAGIC && plaintext[16] == OCC_EXIT
  }

  /** The plaintext to deliver, trying the primary key and then a lame duck that is present and not past its time. */
  function TryKeys(primary: Wrapper, lameDuck: Option<Wrapper>, packet: Packet)
    : (Wrapper, Option<Wrapper>, Option<seq<u8>>)
  {
    var (p, result) := Open(primary, packet);
    if result.Plain? then (p, lameDuck, Some(result.plaintext))
    else if result.Ping? || lameDuck.None? then (p, lameDuck, None)
    else
      var (l, second) := Open(lameDuck.value, packet);
      (p, Some(l), if second.Plain? then Some(second.plaintext) else None)
  }

  // ---- the inbound queue ----

  /** The bounded queue of decrypted packets, the packet a short buffer left behind, and whether the session is
      stopping. */
  datatype Inbox<T> = Inbox(capacity: nat, queue: seq<T>, pending: Option<T>, closing: bool)

  datatype Taken<T> = Got(item: T) | TooSmall | Eof | Blocks

  /** Queue an item if there is room, else drop it. Once the session is closing and there is room, either arm of
      the select may run; stopFirst says which. */
  function Offered<T>(inbox: Inbox<T>, item: T, stopFirst: bool): Inbox<T> {
    if |inbox.queue| < inbox.capacity && !(inbox.closing && stopFirst) then inbox.(queue := inbox.queue + [item])
    else inbox
  }

  /** Read into a buffer with the given room: the packet left behind first, else the front of the queue.
      A packet that does not fit is kept for a later Read. */
  function Take<T>(inbox: Inbox<T>, size: T -> nat, room: nat, stopFirst: bool): (Inbox<T>, Taken<T>) {
    if inbox.pending.Some? then
      if room < size(inbox.pending.value) then (inbox, TooSmall)
      else (inbox.(pending := None), Got(inbox.pending.value))
    else if inbox.closing && (stopFirst || inbox.queue == []) then (inbox, Eof)
    else if inbox.queue == [] then (inbox, Blocks)
    else
      var item := inbox.queue[0];
      if room < size(item) then (inbox.(queue := inbox.queue[1..], pending := Some(item)), TooSmall)
      else (inbox.(queue := inbox.queue[1..]), Got(item))
  }

  // ---- the session over time ----

  /** A plaintext and where it came from: the key that sealed it and its packet id. */
  datatype Item = Item(key: nat, id: u32, plaintext: seq<u8>)

  /** The key slots as one published pair; wrappers are named by their index in the order of creation. */
  datatype Slots = Slots(primary: Option<nat>, lameDuck: Option<nat>, mustDie: int)

  /** slots holds every pair ever published, the current one last: a receiver that has taken its snapshot may still be
      working with an older pair. returned, arrivals and sealed record what Read has returned, what has authenticated
      and what has been sealed. */
  datatype State = State(
    wrappers: seq<Wrapper>,
    slots: seq<Slots>,
    inbox: Inbox<Item>,
    returned: seq<Item>,
    arrivals: seq<Item>,
    sealed: seq<Item>)

  function Start(capacity: nat): State {
    State([], [Slots(None, None, 0)], Inbox(capacity, [], None, false), [], [], [])
  }

  datatype Event =
    | Arrive(packet: Packet, snapshot: nat, now: int, stopFirst: bool)
    | Read(room: nat, stopFirst: bool)
    | Install(wrapper: Wrapper, now: int)
    | SweepLameDuck
    | SealOn(key: nat, plaintext: seq<u8>)
    | Close

  /** The item a packet is, if it authenticates under one of the two wrappers. */
  function Authentic(primary: Wrapper, lameDuck: Option<Wrapper>, packet: Packet): Option<Item> {
    if Authenticates(primary, packet) || (lameDuck.Some? && Authenticates(lameDuck.value, packet)) then
      Some(Item(packet.box.key, PacketId(packet), packet.box.plaintext))
    else None
  }

  /** The lame duck to try, if it is there and its time has not come. */
  function LiveLameDuck(slots: Slots, now: int): Option<nat> {
    if now < slots.mustDie then slots.lameDuck else None
  }

  /** What opening a packet under a snapshot of the slots leaves: the wrappers, the item if it authenticated,
      and whether its plaintext came out. */
  datatype Attempt = Attempt(wrappers: seq<Wrapper>, arrived: Option<Item>, plain: bool)

  function OpenUnder(wrappers: seq<Wrapper>, slots: Slots, now: int, packet: Packet): Attempt
    requires SlotOk(slots, |wrappers|)
  {
    if slots.primary.None? then Attempt(wrappers, None, false)
    else
      var i, live := slots.primary.value, LiveLameDuck(slots, now);
      var duck := if live.None? then None else Some(wrappers[live.value]);
      var (p, l, plaintext) := TryKeys(wrappers[i], duck, packet);
      Attempt(
        if live.None? then wrappers[i := p] else wrappers[i := p][live.value := l.value],
        Authentic(wrappers[i], duck, packet),
        plaintext.Some?)
  }

  /** Past the keys: an exit notice closes the session, anything else is offered to the queue. */
  function Handle(s: State, attempt: Attempt, stopFirst: bool): State {
    var s := s.(
      wrappers := attempt.wrappers,
      arrivals := if attempt.arrived.None? then s.arrivals else s.arrivals + [attempt.arrived.value]);
    if !attempt.plain || attempt.arrived.None? then s
    else if IsExitNotify(attempt.arrived.value.plaintext) then s.(inbox := s.inbox.(closing := true))
    else s.(inbox := Offered(s.inbox, attempt.arrived.value, stopFirst))
  }

  function Size(item: Item): nat {
    |item.plaintext|
  }

  function ReadStep(s: State, room: nat, stopFirst: bool): State {
    var (inbox, taken) := Take(s.inbox, Size, room, stopFirst);
    s.(inbox := inbox, returned := if taken.Got? then s.returned + [taken.item] else s.returned)
  }

  function SealStep(s: State, i: nat, plaintext: seq<u8>): State
    requires i < |s.wrappers|
  {
    var (w, packet) := Seal(s.wrappers[i], plaintext);
    s.(wrappers := s.wrappers[i := w],
       sealed := if packet.None? then s.sealed else s.sealed + [Item(w.encrypt.key, w.sendSeq, plaintext)])
  }

  /** A freshly derived wrapper: nothing sent, nothing received, and (key derivation being ideal) keys of its own. */
  predicate FreshKeys(wrappers: seq<Wrapper>, w: Wrapper) {
    && w == NewWrapper(w.peerId, w.keyId, w.encrypt, w.decrypt)
    && forall i :: 0 <= i < |wrappers| ==>
         wrappers[i].encrypt.key != w.encrypt.key && wrappers[i].decrypt.key != w.decrypt.key
  }

  predicate Enabled(s: State, e: Event) {
    match e
    case Arrive(_, snapshot, _, _) => snapshot < |s.slots|
    case Install(w, _) => FreshKeys(s.wrappers, w)
    case SealOn(i, _) => i < |s.wrappers|
    case _ => true
  }

  function Step(s: State, e: Event): State
    requires SlotsOk(s) && Enabled(s, e)
  {
    match e
    case Arrive(packet, snapshot, now, stopFirst) =>
      Handle(s, OpenUnder(s.wrappers, s.slots[snapshot], now, packet), stopFirst)
    case Read(room, stopFirst) => ReadStep(s, room, stopFirst)
    case Install(w, now) =>
      var current := s.slots[|s.slots| - 1];
      s.(wrappers := s.wrappers + [w],
         slots := s.slots + [Slots(Some(|s.wrappers|), current.primary, now + TRANSITION_WINDOW)])
    case SweepLameDuck => s.(slots := s.slots + [s.slots[|s.slots| - 1].(lameDuck := None)])
    case SealOn(i, plaintext) => SealStep(s, i, plaintext)
    case Close => s.(inbox := s.inbox.(closing := true))
  }

  /** Slots name created wrappers, and never the same one twice. */
  predicate SlotsOk(s: State) {
    && s.slots != []
    && forall k :: 0 <= k < |s.slots| ==> SlotOk(s.slots[k], |s.wrappers|)
  }

  predicate SlotOk(slots: Slots, n: nat) {
    && (slots.primary.Some? ==> slots.primary.value < n)
    && (slots.lameDuck.Some? ==> slots.lameDuck.value < n)
    && (slots.primary.Some? ==> slots.lameDuck != slots.primary)
  }

  // ---- what holds ----

  function Pending(s: State): seq<Item> {
    if s.inbox.pending.None? then [] else [s.inbox.pending.value]
  }

  /** Everything handed over or still to be handed over by Read, in order. */
  function Stream(s: State): seq<Item> {
    s.returned + Pending(s) + s.inbox.queue
  }

  predicate SameKeyAndId(a: Item, b: Item) {
    a.key == b.key && a.id == b.id
  }

  predicate NoRepeats(items: seq<Item>) {
    forall i, j :: 0 <= i < j < |items| ==> !SameKeyAndId(items[i], items[j])
  }

  /** a is b with some elements left out. */
  predicate Subsequence(a: seq<Item>, b: seq<Item>)
    decreases |b|
  {
    if b == [] then a == []
    else
      || Subsequence(a, b[..|b| - 1])
      || (a != [] && a[|a| - 1] == b[|b| - 1] && Subsequence(a[..|a| - 1], b[..|b| - 1]))
  }

  predicate DistinctKeys(wrappers: seq<Wrapper>) {
    forall i, j :: 0 <= i < j < |wrappers| ==>
      wrappers[i].encrypt.key != wrappers[j].encrypt.key && wrappers[i].decrypt.key != wrappers[j].decrypt.key
  }

  /** accepted[i] is what wrapper i's replay window stands for, and covers everything delivered under its key. */
  ghost predicate Delivered(wrappers: seq<Wrapper>, accepted: seq<set<u32>>, stream: seq<Item>) {
    && |accepted| == |wrappers|
    && (forall i :: 0 <= i < |wrappers| ==> Replay.Refines(wrappers[i].replay, accepted[i]))
    && forall k :: 0 <= k < |stream| ==> Known(wrappers, accepted, stream[k])
  }

  predicate Known(wrappers: seq<Wrapper>, accepted: seq<set<u32>>, item: Item)
    requires |accepted| == |wrappers|
  {
    exists i :: 0 <= i < |wrappers| && item.key == wrappers[i].decrypt.key && item.id in accepted[i]
  }

  /** Every id sealed under wrapper i's key lies in 1..sendSeq. */
  predicate Used(wrappers: seq<Wrapper>, item: Item) {
    exists i :: 0 <= i < |wrappers| && item.key == wrappers[i].encrypt.key && 1 <= item.id <= wrappers[i].sendSeq
  }

  ghost predicate Inv(s: State, accepted: seq<set<u32>>) {
    && SlotsOk(s)
    && DistinctKeys(s.wrappers)
    && Delivered(s.wrappers, accepted, Stream(s))
    && NoRepeats(Stream(s))
    && Subsequence(Stream(s), s.arrivals)
    && (forall k :: 0 <= k < |s.sealed| ==> Used(s.wrappers, s.sealed[k]))
    && NoRepeats(s.sealed)
  }
}
