/** The OpenVPN control-channel packet format: header byte packing, and the plaintext body
    (ack array, optional peer session id, optional own packet id, payload). */
module Wire {
  import opened Words

  const OP_SOFT_RESET_V1 := 3
  const OP_CONTROL_V1 := 4
  const OP_ACK_V1 := 5
  const FIRST_OPCODE := 3
  const LAST_OPCODE := 11
  const SESSION_ID_SIZE := 8
  const MAX_ACKS := 8

  type SessionId = s: seq<u8> | |s| == 8 witness [0, 0, 0, 0, 0, 0, 0, 0]

  const ZERO_SESSION_ID: SessionId := [0, 0, 0, 0, 0, 0, 0, 0]

  datatype Header = Header(opcode: u8, keyId: u8, sessionId: SessionId)

  datatype ControlPacket = ControlPacket(
    opcode: u8,
    keyId: u8,
    sessionId: SessionId,
    acks: seq<u32>,
    remoteSessionId: SessionId,
    packetId: u32,
    payload: seq<u8>)

  datatype ParseError = TooShort | TooManyAcks | BadOpcode

  datatype ParseResult = Parsed(packet: ControlPacket) | Rejected(error: ParseError)

  predicate ValidOpcode(op: u8) {
    FIRST_OPCODE <= op <= LAST_OPCODE
  }

  // ---- header byte: opcode << 3 | keyId & 7, in one byte ----

  function HeaderByte(opcode: u8, keyId: u8): u8 {
    opcode * 8 % 0x100 + keyId % 8
  }

  function ParseHeaderByte(b: u8): (u8, u8) {
    (b / 8, b % 8)
  }

  /** Every byte decodes to a pair that encodes back to it. */
  lemma HeaderByteOfParsed(b: u8)
    ensures HeaderByte(ParseHeaderByte(b).0, ParseHeaderByte(b).1) == b
  {
    var q: int := b / 8;
    assert 0 <= q * 8 < 0x100;
    assert q * 8 % 0x100 == q * 8;
  }

  /** Every opcode below 32 and 3-bit key id survives packing. */
  lemma ParseOfHeaderByte(opcode: u8, keyId: u8)
    requires opcode < 32 && keyId < 8
    ensures ParseHeaderByte(HeaderByte(opcode, keyId)) == (opcode, keyId)
  {
    var o: int := opcode;
    assert o * 8 % 0x100 == o * 8;
    assert HeaderByte(opcode, keyId) == o * 8 + keyId;
  }

  // ---- plaintext body ----

  function PutAcks(acks: seq<u32>): (s: seq<u8>)
    ensures |s| == 4 * |acks|
  {
    if acks == [] then [] else Put32(acks[0]) + PutAcks(acks[1..])
  }

  function GetAcks(buf: seq<u8>, n: nat): (acks: seq<u32>)
    requires 4 * n <= |buf|
    ensures |acks| == n
  {
    if n == 0 then [] else [Get32(buf, 0)] + GetAcks(buf[4..], n - 1)
  }

  /** The body p serialises to. */
  function Plaintext(p: ControlPacket): seq<u8>
    requires |p.acks| < 0x100
  {
    [|p.acks|] + PutAcks(p.acks)
    + (if |p.acks| > 0 then p.remoteSessionId else [])
    + (if p.opcode != OP_ACK_V1 then Put32(p.packetId) else [])
    + p.payload
  }

  /** What parsing a body under an already authenticated header gives. */
  function Parse(body: seq<u8>, hdr: Header): ParseResult {
    if !ValidOpcode(hdr.opcode) then Rejected(BadOpcode)
    else if |body| < 1 then Rejected(TooShort)
    else if body[0] > MAX_ACKS then Rejected(TooManyAcks)
    else
      var n: nat := body[0];
      var acksEnd := 1 + 4 * n;
      var sidEnd := if n > 0 then acksEnd + SESSION_ID_SIZE else acksEnd;
      var idEnd := if hdr.opcode != OP_ACK_V1 then sidEnd + 4 else sidEnd;
      if |body| < idEnd then Rejected(TooShort)
      else
        Parsed(ControlPacket(
          hdr.opcode, hdr.keyId, hdr.sessionId,
          GetAcks(body[1..], n),
          if n > 0 then body[acksEnd..sidEnd] else ZERO_SESSION_ID,
          if hdr.opcode != OP_ACK_V1 then Get32(body, sidEnd) else 0,
          body[idEnd..]))
  }

  /** The fields a body does not carry are absent after a trip over the wire. */
  function Normalized(p: ControlPacket): ControlPacket {
    p.(remoteSessionId := if |p.acks| > 0 then p.remoteSessionId else ZERO_SESSION_ID,
       packetId := if p.opcode != OP_ACK_V1 then p.packetId else 0)
  }

  function HeaderOf(p: ControlPacket): Header {
    Header(p.opcode, p.keyId, p.sessionId)
  }

  lemma {:induction false} GetAcksPutAcks(acks: seq<u32>, rest: seq<u8>)
    ensures GetAcks(PutAcks(acks) + rest, |acks|) == acks
  {
    if acks != [] {
      var buf := PutAcks(acks) + rest;
      assert buf[4..] == PutAcks(acks[1..]) + rest;
      GetAcksPutAcks(acks[1..], rest);
      Get32Put32(acks[0]);
      assert Get32(buf, 0) == Get32(Put32(acks[0]), 0);
    }
  }

  lemma {:induction false} PutAcksGetAcks(buf: seq<u8>, n: nat)
    requires 4 * n <= |buf|
    ensures PutAcks(GetAcks(buf, n)) == buf[..4 * n]
  {
    if n > 0 {
      PutAcksGetAcks(buf[4..], n - 1);
      Put32Get32(buf, 0);
      assert GetAcks(buf, n)[1..] == GetAcks(buf[4..], n - 1);
      assert buf[..4 * n] == buf[0..4] + buf[4..][..4 * (n - 1)];
    }
  }

  /** Serialise then parse is the identity, up to the fields the body does not carry. */
  lemma ParsePlaintext(p: ControlPacket)
    requires ValidOpcode(p.opcode) && |p.acks| <= MAX_ACKS
    ensures Parse(Plaintext(p), HeaderOf(p)) == Parsed(Normalized(p))
  {
    var body := Plaintext(p);
    var n := |p.acks|;
    var acks := PutAcks(p.acks);
    var sid: seq<u8> := if n > 0 then p.remoteSessionId else [];
    var id: seq<u8> := if p.opcode != OP_ACK_V1 then Put32(p.packetId) else [];
    JoinOfFive(n, acks, sid, id, p.payload);
    var sidEnd := 1 + 4 * n + |sid|;
    assert GetAcks(body[1..], n) == p.acks by {
      GetAcksPutAcks(p.acks, sid + id + p.payload);
    }
    if p.opcode != OP_ACK_V1 {
      Get32Put32(p.packetId);
      assert Get32(body, sidEnd) == Get32(body[sidEnd..sidEnd + 4], 0);
    }
  }

  lemma JoinOfFive(n: u8, a: seq<u8>, b: seq<u8>, c: seq<u8>, d: seq<u8>)
    ensures var s := [n] + a + b + c + d;
            && |s| == 1 + |a| + |b| + |c| + |d| && s[0] == n
            && s[1..] == a + (b + c + d)
            && s[1 + |a|..1 + |a| + |b|] == b
            && s[1 + |a| + |b|..1 + |a| + |b| + |c|] == c
            && s[1 + |a| + |b| + |c|..] == d
  {
  }

  /** Parse then serialise reproduces the bytes: no two bodies parse alike, and nothing is lost. */
  lemma PlaintextParse(body: seq<u8>, hdr: Header)
    requires Parse(body, hdr).Parsed?
    ensures |Parse(body, hdr).packet.acks| <= MAX_ACKS
    ensures Plaintext(Parse(body, hdr).packet) == body
  {
    var p := Parse(body, hdr).packet;
    var n: nat := body[0];
    var acksEnd := 1 + 4 * n;
    var sidEnd := if n > 0 then acksEnd + SESSION_ID_SIZE else acksEnd;
    var idEnd := if hdr.opcode != OP_ACK_V1 then sidEnd + 4 else sidEnd;
    var sid: seq<u8> := if n > 0 then p.remoteSessionId else [];
    var id: seq<u8> := if p.opcode != OP_ACK_V1 then Put32(p.packetId) else [];
    assert PutAcks(p.acks) == body[1..acksEnd] by {
      PutAcksGetAcks(body[1..], n);
      assert body[1..][..4 * n] == body[1..acksEnd];
    }
    assert sid == body[acksEnd..sidEnd];
    assert id == body[sidEnd..idEnd] by {
      if hdr.opcode != OP_ACK_V1 {
        Put32Get32(body, sidEnd);
      }
    }
    SplitInFive(body, acksEnd, sidEnd, idEnd);
  }

  lemma SplitInFive(s: seq<u8>, a: nat, b: nat, c: nat)
    requires 1 <= a <= b <= c <= |s|
    ensures [s[0]] + s[1..a] + s[a..b] + s[b..c] + s[c..] == s
  {
  }

  /** AppendPlaintext, with its loop over the ack array. */
  method AppendPlaintext(dst: seq<u8>, p: ControlPacket) returns (out: seq<u8>)
    requires |p.acks| < 0x100
    ensures out == dst + Plaintext(p)
  {
    out := dst + [|p.acks|];
    assert p.acks[0..] == p.acks;
    for i := 0 to |p.acks|
      invariant out + PutAcks(p.acks[i..]) == dst + [|p.acks|] + PutAcks(p.acks)
    {
      assert p.acks[i..][1..] == p.acks[i + 1..];
      assert out + Put32(p.acks[i]) + PutAcks(p.acks[i + 1..]) == out + PutAcks(p.acks[i..]);
      out := out + Put32(p.acks[i]);
    }
    assert p.acks[|p.acks|..] == [];
    assert out + [] == out;
    if |p.acks| > 0 {
      out := out + p.remoteSessionId;
    }
    if p.opcode != OP_ACK_V1 {
      out := out + Put32(p.packetId);
    }
    out := out + p.payload;
  }

  /** The loop over the ack array, checking length before each read. */
  method ParseAcks(buf: seq<u8>, ackCount: nat) returns (acks: seq<u32>, rest: seq<u8>, ok: bool)
    ensures ok <==> 4 * ackCount <= |buf|
    ensures ok ==> acks == GetAcks(buf, ackCount) && rest == buf[4 * ackCount..]
  {
    acks, rest := [], buf;
    for i := 0 to ackCount
      invariant 4 * i <= |buf| && rest == buf[4 * i..]
      invariant 4 * ackCount <= |buf| ==> acks + GetAcks(rest, ackCount - i) == GetAcks(buf, ackCount)
    {
      if |rest| < 4 {
        return [], [], false;
      }
      acks, rest := acks + [Get32(rest, 0)], rest[4..];
    }
    ok := true;
  }

  /** ParseControlPacket, consuming the buffer field by field. */
  method ParseControlPacket(plaintext: seq<u8>, hdr: Header) returns (r: ParseResult)
    ensures r == Parse(plaintext, hdr)
  {
    if !ValidOpcode(hdr.opcode) {
      return Rejected(BadOpcode);
    }
    if |plaintext| < 1 {
      return Rejected(TooShort);
    }
    var ackCount: nat := plaintext[0];
    if ackCount > MAX_ACKS {
      return Rejected(TooManyAcks);
    }
    var acks, buf, ok := ParseAcks(plaintext[1..], ackCount);
    if !ok {
      return Rejected(TooShort);
    }
    ghost var at := 1 + 4 * ackCount;
    assert buf == plaintext[at..];
    var remoteSid := ZERO_SESSION_ID;
    if ackCount > 0 {
      if |buf| < SESSION_ID_SIZE {
        return Rejected(TooShort);
      }
      remoteSid := buf[..SESSION_ID_SIZE];
      assert remoteSid == plaintext[at..at + SESSION_ID_SIZE];
      buf := buf[SESSION_ID_SIZE..];
      at := at + SESSION_ID_SIZE;
    }
    assert buf == plaintext[at..];
    var pid: u32 := 0;
    if hdr.opcode != OP_ACK_V1 {
      if |buf| < 4 {
        return Rejected(TooShort);
      }
      pid := Get32(buf, 0);
      assert pid == Get32(plaintext, at);
      buf := buf[4..];
      at := at + 4;
    }
    assert buf == plaintext[at..];
    return Parsed(ControlPacket(hdr.opcode, hdr.keyId, hdr.sessionId, acks, remoteSid, pid, buf));
  }

  // ---- whole datagrams: cleartext header followed by the body ----

  /** A datagram as the peer's authenticated channel hands it over: header byte, session id, body. */
  function Framed(hdr: Header, body: seq<u8>): seq<u8> {
    [HeaderByte(hdr.opcode, hdr.keyId)] + hdr.sessionId + body
  }

  function Encode(p: ControlPacket): seq<u8>
    requires |p.acks| < 0x100
  {
    Framed(HeaderOf(p), Plaintext(p))
  }

  function Deframed(d: seq<u8>): (Header, seq<u8>)
    requires 1 + SESSION_ID_SIZE <= |d|
  {
    var (opcode, keyId) := ParseHeaderByte(d[0]);
    (Header(opcode, keyId, d[1..9]), d[9..])
  }

  function Decode(d: seq<u8>): ParseResult {
    if |d| < 1 + SESSION_ID_SIZE then Rejected(TooShort)
    else Parse(Deframed(d).1, Deframed(d).0)
  }

  lemma SplitDatagram(first: u8, sid: SessionId, body: seq<u8>)
    ensures var d := [first] + sid + body;
            |d| == 9 + |body| && d[0] == first && d[1..9] == sid && d[9..] == body
  {
  }

  lemma DeframedFramed(hdr: Header, body: seq<u8>)
    requires hdr.opcode < 32 && hdr.keyId < 8
    ensures Deframed(Framed(hdr, body)) == (hdr, body)
  {
    var first := HeaderByte(hdr.opcode, hdr.keyId);
    SplitDatagram(first, hdr.sessionId, body);
    assert ParseHeaderByte(first) == (hdr.opcode, hdr.keyId) by {
      ParseOfHeaderByte(hdr.opcode, hdr.keyId);
    }
  }

  lemma DecodeEncode(p: ControlPacket)
    requires ValidOpcode(p.opcode) && p.keyId < 8 && |p.acks| <= MAX_ACKS
    ensures Decode(Encode(p)) == Parsed(Normalized(p))
  {
    DeframedFramed(HeaderOf(p), Plaintext(p));
    ParsePlaintext(p);
  }

  /** The byte order, on one packet: opcode above key id, then big-endian fields in the order of the format. */
  lemma SampleDatagram()
    ensures Encode(ControlPacket(OP_CONTROL_V1, 1, [1, 2, 3, 4, 5, 6, 7, 8], [0x11121314],
                                 [9, 10, 11, 12, 13, 14, 15, 16], 0x21222324, [0xFF]))
            == [0x21] + [1, 2, 3, 4, 5, 6, 7, 8] +
               ([1] + [0x11, 0x12, 0x13, 0x14] + [9, 10, 11, 12, 13, 14, 15, 16] + [0x21, 0x22, 0x23, 0x24] + [0xFF])
  {
    hide Put32, HeaderByte;
    SampleWords();
    assert PutAcks([0x11121314]) == Put32(0x11121314) by {
      assert [0x11121314][1..] == [] && Put32(0x11121314) + [] == Put32(0x11121314);
    }
  }

  lemma SampleWords()
    ensures Put32(0x11121314) == [0x11, 0x12, 0x13, 0x14] && Put32(0x21222324) == [0x21, 0x22, 0x23, 0x24]
    ensures HeaderByte(OP_CONTROL_V1, 1) == 0x21
  {
  }
}
