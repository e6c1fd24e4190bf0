/** The data-channel wrapper (internal/datachan/datachan.go): packet ids, nonces, sealing and opening.
    AEAD is ideal: a sealed box opens only under the key, nonce and additional data that sealed it. */
module DataChannel {
  import opened Words
  import opened Replay

  const OP_DATA_V2: u8 := 9
  const LAST_PACKET_ID: u32 := 0xFFFF_FFFF
  const PING_MAGIC: seq<u8> := [
    0x2a, 0x18, 0x7b, 0xf3, 0x64, 0x1e, 0xb4, 0xcb, 0x07, 0xed, 0x2d, 0x0a, 0x98, 0x1f, 0xc7, 0x48]

  type Header = h: seq<u8> | |h| == 8 witness [0, 0, 0, 0, 0, 0, 0, 0]

  /** One direction's key and implicit IV. */
  datatype Keys = Keys(key: nat, iv: seq<u8>)

  datatype Box = Box(key: nat, nonce: seq<u8>, aad: seq<u8>, plaintext: seq<u8>)

  /** A datagram too short to hold header and tag, or a header followed by tag and ciphertext. */
  datatype Packet = Runt | Packet(header: Header, box: Box)

  datatype Wrapper = Wrapper(peerId: u32, keyId: u8, encrypt: Keys, decrypt: Keys, sendSeq: u32, replay: Replay)

  datatype Opened = Short | AuthFailed | Replayed | Ping | Plain(plaintext: seq<u8>)

  function NewWrapper(peerId: u32, keyId: u8, encrypt: Keys, decrypt: Keys): Wrapper {
    Wrapper(peerId, keyId, encrypt, decrypt, 0, FRESH)
  }

  // ---- sealing ----

  /** The next packet id, or None once 2^32 - 1 have been used. */
  function NextPacketId(w: Wrapper): (Wrapper, Option<u32>) {
    if w.sendSeq == LAST_PACKET_ID then (w, None)
    else (w.(sendSeq := w.sendSeq + 1), Some(w.sendSeq + 1))
  }

  function HeaderOf(w: Wrapper, id: u32): Header {
    [OP_DATA_V2 * 8 + w.keyId % 8, w.peerId / 0x1_0000 % 0x100, w.peerId / 0x100 % 0x100, w.peerId % 0x100] + Put32(id)
  }

  function Nonce(id: u32, iv: seq<u8>): seq<u8> {
    Put32(id) + iv
  }

  function SealWithSeq(w: Wrapper, id: u32, plaintext: seq<u8>): Packet {
    Packet(HeaderOf(w, id), Box(w.encrypt.key, Nonce(id, w.encrypt.iv), HeaderOf(w, id), plaintext))
  }

  function Seal(w: Wrapper, plaintext: seq<u8>): (Wrapper, Option<Packet>) {
    var (w', id) := NextPacketId(w);
    (w', if id.None? then None else Some(SealWithSeq(w, id.value, plaintext)))
  }

  // ---- opening ----

  function PacketId(p: Packet): u32
    requires p.Packet?
  {
    Get32(p.header, 4)
  }

  predicate Authenticates(w: Wrapper, p: Packet) {
    && p.Packet?
    && p.box.key == w.decrypt.key
    && p.box.nonce == Nonce(PacketId(p), w.decrypt.iv)
    && p.box.aad == p.header
  }

  predicate IsPing(plaintext: seq<u8>) {
    plaintext == PING_MAGIC
  }

  /** Authenticate first, then the replay check, then the keepalive check. */
  function Open(w: Wrapper, p: Packet): (Wrapper, Opened) {
    if p.Runt? then (w, Short)
    else if !Authenticates(w, p) then (w, AuthFailed)
    else
      var (replay, isNew) := Accept(w.replay, PacketId(p));
      (w.(replay := replay),
       if !isNew then Replayed else if IsPing(p.box.plaintext) then Ping else Plain(p.box.plaintext))
  }

  // ---- what sealing and opening promise ----

  lemma HeaderCarriesId(w: Wrapper, id: u32)
    ensures Get32(HeaderOf(w, id), 4) == id
  {
    Get32Put32(id);
    var h := HeaderOf(w, id);
    assert h[4] == Put32(id)[0] && h[5] == Put32(id)[1] && h[6] == Put32(id)[2] && h[7] == Put32(id)[3];
  }

  /** The receiving side reads back from the first four bytes what was put in: opcode, key id and 24-bit peer-id. */
  lemma HeaderNamesSession(w: Wrapper, id: u32)
    requires w.keyId < 8 && w.peerId < 0x100_0000
    ensures var h := HeaderOf(w, id);
            && h[0] / 8 == OP_DATA_V2 && h[0] % 8 == w.keyId
            && (h[1] as int) * 0x1_0000 + (h[2] as int) * 0x100 + h[3] == w.peerId
  {
    assert w.peerId / 0x100 == w.peerId / 0x1_0000 * 0x100 + w.peerId / 0x100 % 0x100;
  }

  /** Distinct packet ids give distinct nonces. */
  lemma NonceIsInjective(a: u32, b: u32, iv: seq<u8>)
    requires Nonce(a, iv) == Nonce(b, iv)
    ensures a == b
  {
    assert Put32(a) == Nonce(a, iv)[..4] == Put32(b);
    Get32Put32(a);
    Get32Put32(b);
  }

  /** The keyed peer recovers exactly what was sealed, unless its window has seen the id (or it is a keepalive);
      any other key sees a failed authentication and keeps its state. */
  lemma OpenOfSealed(sender: Wrapper, receiver: Wrapper, id: u32, plaintext: seq<u8>, accepted: set<u32>)
    requires Refines(receiver.replay, accepted)
    ensures
      var packet := SealWithSeq(sender, id, plaintext);
      var (receiver', result) := Open(receiver, packet);
      if sender.encrypt == receiver.decrypt then
        result == if !New(accepted, id) then Replayed else if IsPing(plaintext) then Ping else Plain(plaintext)
      else
        result == AuthFailed && receiver' == receiver
  {
    assert Nonce(id, sender.encrypt.iv)[4..] == sender.encrypt.iv;
    assert Nonce(id, receiver.decrypt.iv)[4..] == receiver.decrypt.iv;
    HeaderCarriesId(sender, id);
    AcceptRefines(receiver.replay, accepted, id);
  }

  // ---- the wrapper in place ----

  class DataWrapper {
    const peerId: u32
    const keyId: u8
    const encrypt: Keys
    const decrypt: Keys
    var sendSeq: u32
    const window: ReplayWindow

    function View(): Wrapper
      reads this, window
    {
      Wrapper(peerId, keyId, encrypt, decrypt, sendSeq, window.View())
    }

    constructor (peerId: u32, keyId: u8, encrypt: Keys, decrypt: Keys)
      ensures fresh(window)
      ensures View() == NewWrapper(peerId, keyId, encrypt, decrypt)
    {
      this.peerId, this.keyId, this.encrypt, this.decrypt, sendSeq := peerId, keyId, encrypt, decrypt, 0;
      window := new ReplayWindow();
    }

    method NextId() returns (id: Option<u32>)
      modifies this
      ensures (View(), id) == NextPacketId(old(View()))
    {
      if sendSeq == LAST_PACKET_ID {
        return None;
      }
      sendSeq := sendSeq + 1;
      return Some(sendSeq);
    }

    method SealPacket(plaintext: seq<u8>) returns (packet: Option<Packet>)
      modifies this
      ensures (View(), packet) == Seal(old(View()), plaintext)
    {
      var id := NextId();
      if id.None? {
        return None;
      }
      return Some(SealWithSeq(View(), id.value, plaintext));
    }

    method OpenPacket(p: Packet) returns (result: Opened)
      modifies window
      ensures (View(), result) == Open(old(View()), p)
    {
      if p.Runt? {
        return Short;
      }
      if !Authenticates(View(), p) {
        return AuthFailed;
      }
      var ok := window.TryAccept(PacketId(p));
      if !ok {
        return Replayed;
      }
      if IsPing(p.box.plaintext) {
        return Ping;
      }
      return Plain(p.box.plaintext);
    }
  }
}
