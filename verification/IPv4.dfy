/** IPv4 header parsing and fragmentation (netstack/ipv4.go), byte for byte: RFC 791 sections 3.1 and 3.2. */
module IPv4 {
  import opened Words
  import opened Checksum

  const MIN_HEADER := 20
  const MAX_DATAGRAM := 65535
  const MIN_MTU := 576
  const MORE_FRAGMENTS := 0x2000

  datatype Header = Header(
    ihl: nat,
    totalLen: nat,
    protocol: u8,
    src: Addr,
    dst: Addr,
    id: u16,
    moreFragments: bool,
    fragOffset: nat)
  {
    predicate IsFragment() { moreFragments || fragOffset != 0 }
  }

  datatype ParseError = TooShort | NotIPv4 | BadIhl | BadTotalLength | BadFragment

  datatype ParseResult = Parsed(hdr: Header) | Failed(error: ParseError)

  /** The geometry demanded of a fragment: some payload, whole 8-byte units unless it is the last, and an end within a
      datagram. */
  predicate GoodGeometry(moreFragments: bool, fragOffset: nat, payloadLen: nat) {
    payloadLen != 0 && (moreFragments ==> payloadLen % 8 == 0) && fragOffset + payloadLen <= MAX_DATAGRAM
  }

  function Parse(pkt: seq<u8>): ParseResult {
    if |pkt| < MIN_HEADER then Failed(TooShort)
    else if pkt[0] / 16 != 4 then Failed(NotIPv4)
    else
      var ihl: nat := (pkt[0] as int) % 16 * 4;
      if ihl < MIN_HEADER || ihl > |pkt| then Failed(BadIhl)
      else
        var totalLen: nat := Get16(pkt, 2);
        if totalLen < ihl || totalLen > |pkt| then Failed(BadTotalLength)
        else
          var word: int := Get16(pkt, 6);
          var more := word / MORE_FRAGMENTS % 2 == 1;
          var offset: nat := word % MORE_FRAGMENTS * 8;
          if (more || offset != 0) && !GoodGeometry(more, offset, totalLen - ihl) then Failed(BadFragment)
          else
            Parsed(Header(ihl, totalLen, pkt[9], pkt[12..16], pkt[16..20], Get16(pkt, 4), more, offset))
  }

  /** A header with its checksum field recomputed over its first ihl bytes. */
  function WithChecksum(pkt: seq<u8>, ihl: nat): (r: seq<u8>)
    requires MIN_HEADER <= ihl <= |pkt|
    ensures |r| == |pkt|
    ensures forall i :: 0 <= i < |pkt| && i != 10 && i != 11 ==> r[i] == pkt[i]
  {
    var zeroed := Patch16(pkt, 10, 0);
    Patch16(zeroed, 10, Complement(WordSum(zeroed[..ihl])))
  }

  /** The packet carrying body under header, with its length, identification and fragment word written in. */
  function Assembled(header: seq<u8>, body: seq<u8>, id: u16, word: u16): (r: seq<u8>)
    requires MIN_HEADER <= |header| && |header| + |body| <= MAX_DATAGRAM
    ensures |r| == |header| + |body|
  {
    var pkt := header + body;
    WithChecksum(Patch16(Patch16(Patch16(pkt, 2, |pkt|), 4, id), 6, word), |header|)
  }

  /** The bytes Assembled leaves alone, and those it sets. */
  lemma AssembledBytes(header: seq<u8>, body: seq<u8>, id: u16, word: u16)
    requires MIN_HEADER <= |header| && |header| + |body| <= MAX_DATAGRAM
    ensures var r := Assembled(header, body, id, word);
            && (forall i :: 0 <= i < |header| && !(2 <= i < 8) && i != 10 && i != 11 ==> r[i] == header[i])
            && r[|header|..] == body
            && Get16(r, 2) == |header| + |body| && Get16(r, 4) == id && Get16(r, 6) == word
  {
    var pkt := header + body;
    var a := Patch16(pkt, 2, |pkt|);
    var b := Patch16(a, 4, id);
    var c := Patch16(b, 6, word);
    var r := Assembled(header, body, id, word);
    assert r[2] == a[2] && r[3] == a[3] && r[4] == b[4] && r[5] == b[5] && r[6] == c[6] && r[7] == c[7];
    forall i | |header| <= i < |pkt| ensures r[i] == pkt[i] {
    }
    assert pkt[|header|..] == body;
    assert r[|header|..] == pkt[|header|..];
  }

  /** The stored header checksum of an assembled packet verifies. */
  lemma AssembledChecksum(header: seq<u8>, body: seq<u8>, id: u16, word: u16)
    requires MIN_HEADER <= |header| && |header| + |body| <= MAX_DATAGRAM
    ensures Complement(WordSum(Assembled(header, body, id, word)[..|header|])) == 0
  {
    var pkt := header + body;
    var c := Patch16(Patch16(Patch16(pkt, 2, |pkt|), 4, id), 6, word);
    var zeroed := Patch16(c, 10, 0);
    var h := zeroed[..|header|];
    assert Assembled(header, body, id, word)[..|header|] == Patch16(h, 10, Complement(WordSum(h)));
    HeaderVerifies(h, 10);
  }

  /** A header good for assembling: version 4 and an IHL that is its own length. */
  predicate WellFormed(header: seq<u8>) {
    MIN_HEADER <= |header| <= 60 && header[0] / 16 == 4 && (header[0] as int) % 16 * 4 == |header|
  }

  lemma ParsedHeaderIsWellFormed(pkt: seq<u8>)
    requires Parse(pkt).Parsed?
    ensures var h := Parse(pkt).hdr;
            && MIN_HEADER <= h.ihl <= h.totalLen <= |pkt| && h.totalLen <= MAX_DATAGRAM && WellFormed(pkt[..h.ihl])
            && h.protocol == pkt[9] && h.src == pkt[12..16] && h.dst == pkt[16..20] && h.id == Get16(pkt, 4)
            && h.fragOffset % 8 == 0
            && (h.IsFragment() ==> GoodGeometry(h.moreFragments, h.fragOffset, h.totalLen - h.ihl))
  {
  }

  /** How bytes with these fields parse. */
  lemma ParsesAs(r: seq<u8>, header: seq<u8>, id: u16, offset: nat, more: bool)
    requires WellFormed(header) && |header| <= |r| <= MAX_DATAGRAM
    requires r[0] == header[0] && r[9] == header[9] && r[12..20] == header[12..20]
    requires Get16(r, 2) == |r| && Get16(r, 4) == id
    requires offset % 8 == 0 && offset / 8 < MORE_FRAGMENTS
    requires Get16(r, 6) == offset / 8 + if more then MORE_FRAGMENTS else 0
    requires more || offset != 0 ==> GoodGeometry(more, offset, |r| - |header|)
    ensures Parse(r) == Parsed(Header(|header|, |r|, header[9], header[12..16], header[16..20], id, more, offset))
  {
    assert r[12..16] == r[12..20][..4] == header[12..16];
    assert r[16..20] == r[12..20][4..] == header[16..20];
    var word: int := Get16(r, 6);
    assert word % MORE_FRAGMENTS == offset / 8 && (word / MORE_FRAGMENTS % 2 == 1) == more;
  }

  /** How an assembled packet parses: the header's own addresses and protocol, and the fragment fields written in. */
  lemma ParseAssembled(header: seq<u8>, body: seq<u8>, id: u16, offset: nat, more: bool)
    requires WellFormed(header) && |header| + |body| <= MAX_DATAGRAM
    requires offset % 8 == 0 && offset / 8 < MORE_FRAGMENTS
    requires more || offset != 0 ==> GoodGeometry(more, offset, |body|)
    ensures Parse(Assembled(header, body, id, offset / 8 + if more then MORE_FRAGMENTS else 0)) ==
            Parsed(Header(|header|, |header| + |body|, header[9], header[12..16], header[16..20], id, more, offset))
  {
    hide Parse, Assembled;
    var word: u16 := offset / 8 + if more then MORE_FRAGMENTS else 0;
    AssembledBytes(header, body, id, word);
    var r := Assembled(header, body, id, word);
    assert r[12..20] == header[12..20];
    ParsesAs(r, header, id, offset, more);
  }

  // ---- fragmentation ----

  /** One piece of a payload: the bytes [first, end). */
  datatype Cut = Cut(first: nat, end: nat)

  /** The largest payload chunk that fits, rounded down to whole 8-byte units. */
  function MaxData(mtu: nat, ihl: nat): nat {
    if mtu < ihl then 0 else (mtu - ihl) / 8 * 8
  }

  lemma MaxDataFits(mtu: nat, ihl: nat)
    requires MIN_MTU <= mtu && ihl <= 60
    ensures 0 < MaxData(mtu, ihl) <= mtu - ihl && MaxData(mtu, ihl) % 8 == 0
  {
  }

  function Min(a: nat, b: nat): nat {
    if a <= b then a else b
  }

  function CutsFrom(off: nat, len: nat, maxData: nat): seq<Cut>
    requires 0 < maxData
    decreases len - off
  {
    if off >= len then []
    else [Cut(off, Min(off + maxData, len))] + CutsFrom(off + maxData, len, maxData)
  }

  /** fragmentIPv4's fragment for one cut. */
  function Fragment(hdr: Header, pkt: seq<u8>, c: Cut, id: u16): seq<u8>
    requires MIN_HEADER <= hdr.ihl <= hdr.totalLen <= |pkt| && hdr.totalLen <= MAX_DATAGRAM
    requires c.first < c.end <= hdr.totalLen - hdr.ihl
  {
    var len := hdr.totalLen - hdr.ihl;
    Assembled(pkt[..hdr.ihl], pkt[hdr.ihl + c.first..hdr.ihl + c.end], id,
              c.first / 8 + if c.end < len then MORE_FRAGMENTS else 0)
  }

  /** Pieces are in order, adjoining and non-empty; all but the last are whole 8-byte units; none is larger than
      maxData. */
  predicate Tiling(cuts: seq<Cut>, off: nat, len: nat, maxData: nat) {
    if off >= len then cuts == []
    else
      && |cuts| > 0 && cuts[0].first == off
      && off < cuts[0].end <= len && cuts[0].end - off <= maxData && off % 8 == 0
      && (cuts[0].end < len ==> (cuts[0].end - off) % 8 == 0)
      && Tiling(cuts[1..], cuts[0].end, len, maxData)
  }

  lemma {:induction false} CutsTile(off: nat, len: nat, maxData: nat)
    requires 0 < maxData && maxData % 8 == 0 && off % 8 == 0
    ensures Tiling(CutsFrom(off, len, maxData), off, len, maxData)
    decreases len - off
  {
    if off < len {
      var cuts := CutsFrom(off, len, maxData);
      assert cuts[1..] == CutsFrom(off + maxData, len, maxData);
      if off + maxData < len {
        CutsTile(off + maxData, len, maxData);
      }
    }
  }

  /** Every piece of a tiling is one of its cuts, and every byte lies in exactly one piece. */
  lemma {:induction false} TilingMember(cuts: seq<Cut>, off: nat, len: nat, maxData: nat, k: nat)
    requires Tiling(cuts, off, len, maxData) && k < |cuts|
    ensures off <= cuts[k].first < cuts[k].end <= len
    ensures cuts[k].end - cuts[k].first <= maxData && cuts[k].first % 8 == 0
    ensures cuts[k].end < len ==> (cuts[k].end - cuts[k].first) % 8 == 0
    decreases |cuts|
  {
    if k > 0 {
      TilingMember(cuts[1..], cuts[0].end, len, maxData, k - 1);
    }
  }

  lemma {:induction false} TilingDisjoint(cuts: seq<Cut>, off: nat, len: nat, maxData: nat, j: nat, k: nat)
    requires Tiling(cuts, off, len, maxData) && j < k < |cuts|
    ensures cuts[j].end <= cuts[k].first
    decreases |cuts|
  {
    if j > 0 {
      TilingDisjoint(cuts[1..], cuts[0].end, len, maxData, j - 1, k - 1);
    } else {
      TilingMember(cuts[1..], cuts[0].end, len, maxData, k - 1);
    }
  }

  lemma {:induction false} TilingCovers(cuts: seq<Cut>, off: nat, len: nat, maxData: nat, x: nat) returns (k: nat)
    requires Tiling(cuts, off, len, maxData) && off <= x < len
    ensures k < |cuts| && cuts[k].first <= x < cuts[k].end
    decreases |cuts|
  {
    if x < cuts[0].end {
      k := 0;
    } else {
      var j := TilingCovers(cuts[1..], cuts[0].end, len, maxData, x);
      k := j + 1;
    }
  }

  /** The fragments of a datagram, in order. */
  function Fragments(hdr: Header, pkt: seq<u8>, cuts: seq<Cut>, id: u16): seq<seq<u8>>
    requires MIN_HEADER <= hdr.ihl <= hdr.totalLen <= |pkt| && hdr.totalLen <= MAX_DATAGRAM
    requires forall k :: 0 <= k < |cuts| ==> cuts[k].first < cuts[k].end <= hdr.totalLen - hdr.ihl
  {
    seq(|cuts|, k requires 0 <= k < |cuts| => Fragment(hdr, pkt, cuts[k], id))
  }

  /** What the pieces of a payload may be: each fits the MTU and parses as the fragment it is. */
  lemma FragmentParses(hdr: Header, pkt: seq<u8>, mtu: nat, id: u16, c: Cut)
    requires Parse(pkt) == Parsed(hdr) && !hdr.IsFragment() && MIN_MTU <= mtu
    requires c.first < c.end <= hdr.totalLen - hdr.ihl && c.first % 8 == 0
    requires c.end - c.first <= MaxData(mtu, hdr.ihl)
    requires c.end < hdr.totalLen - hdr.ihl ==> (c.end - c.first) % 8 == 0
    ensures MIN_HEADER <= hdr.ihl <= hdr.totalLen <= |pkt| && hdr.totalLen <= MAX_DATAGRAM
    ensures var f := Fragment(hdr, pkt, c, id);
            && |f| <= mtu && |f| == hdr.ihl + (c.end - c.first)
            && f[hdr.ihl..] == pkt[hdr.ihl + c.first..hdr.ihl + c.end]
            && (c.end < hdr.totalLen - hdr.ihl || c.first != 0 ==>
                  Parse(f) == Parsed(Header(hdr.ihl, |f|, hdr.protocol, hdr.src, hdr.dst, id,
                                            c.end < hdr.totalLen - hdr.ihl, c.first)))
  {
    hide Parse, Assembled;
    ParsedHeaderIsWellFormed(pkt);
    var header, body := pkt[..hdr.ihl], pkt[hdr.ihl + c.first..hdr.ihl + c.end];
    var more := c.end < hdr.totalLen - hdr.ihl;
    AssembledBytes(header, body, id, c.first / 8 + if more then MORE_FRAGMENTS else 0);
    assert header[12..16] == pkt[12..16] && header[16..20] == pkt[16..20];
    if more || c.first != 0 {
      ParseAssembled(header, body, id, c.first, more);
    }
  }

  lemma CutsFit(mtu: nat, ihl: nat, len: nat)
    requires MIN_MTU <= mtu && ihl <= 60
    ensures var maxData := MaxData(mtu, ihl);
            0 < maxData && forall k :: 0 <= k < |CutsFrom(0, len, maxData)| ==>
              CutsFrom(0, len, maxData)[k].first < CutsFrom(0, len, maxData)[k].end <= len
  {
    MaxDataFits(mtu, ihl);
    var maxData := MaxData(mtu, ihl);
    CutsTile(0, len, maxData);
    forall k | 0 <= k < |CutsFrom(0, len, maxData)|
      ensures CutsFrom(0, len, maxData)[k].first < CutsFrom(0, len, maxData)[k].end <= len
    {
      TilingMember(CutsFrom(0, len, maxData), 0, len, maxData, k);
    }
  }

  /** The loop body: copy the header and the chunk, then write length, identification, fragment word and checksum. */
  method BuildFragment(hdr: Header, pkt: seq<u8>, off: nat, end: nat, id: u16) returns (frag: seq<u8>)
    requires MIN_HEADER <= hdr.ihl <= hdr.totalLen <= |pkt| && hdr.totalLen <= MAX_DATAGRAM
    requires off < end <= hdr.totalLen - hdr.ihl
    ensures frag == Fragment(hdr, pkt, Cut(off, end), id)
  {
    hide Patch16, WordSum, Complement;
    frag := pkt[..hdr.ihl] + pkt[hdr.ihl + off..hdr.ihl + end];
    frag := Patch16(frag, 2, hdr.ihl + (end - off));
    frag := Patch16(frag, 4, id);
    var flagsFragOffset := off / 8;
    if end < hdr.totalLen - hdr.ihl {
      flagsFragOffset := flagsFragOffset + MORE_FRAGMENTS;
    }
    frag := Patch16(frag, 6, flagsFragOffset);
    frag := Patch16(frag, 10, 0);
    var c := InternetChecksum(frag[..hdr.ihl]);
    frag := Patch16(frag, 10, c);
  }

  /** fragmentIPv4's loop. */
  method FragmentIPv4(hdr: Header, pkt: seq<u8>, mtu: nat, id: u16) returns (frags: seq<seq<u8>>)
    requires Parse(pkt) == Parsed(hdr) && MIN_MTU <= mtu
    ensures MIN_HEADER <= hdr.ihl <= hdr.totalLen <= |pkt| && hdr.totalLen <= MAX_DATAGRAM && MaxData(mtu, hdr.ihl) > 0
    ensures var cuts := CutsFrom(0, hdr.totalLen - hdr.ihl, MaxData(mtu, hdr.ihl));
            && (forall k :: 0 <= k < |cuts| ==> cuts[k].first < cuts[k].end <= hdr.totalLen - hdr.ihl)
            && frags == Fragments(hdr, pkt, cuts, id)
  {
    hide Parse, Assembled, MaxData, Fragment;
    ParsedHeaderIsWellFormed(pkt);
    var maxData := MaxData(mtu, hdr.ihl);
    var len := hdr.totalLen - hdr.ihl;
    CutsFit(mtu, hdr.ihl, len);
    ghost var cuts := CutsFrom(0, len, maxData);
    frags := [];
    var off := 0;
    while off < len
      invariant |frags| <= |cuts| && CutsFrom(off, len, maxData) == cuts[|frags|..]
      invariant forall k :: 0 <= k < |frags| ==> frags[k] == Fragment(hdr, pkt, cuts[k], id)
      decreases len - off
    {
      var end := off + maxData;
      if end > len {
        end := len;
      }
      ghost var c := cuts[|frags|];
      assert c == cuts[|frags|..][0] == Cut(off, end);
      assert cuts[|frags| + 1..] == cuts[|frags|..][1..];
      var frag := BuildFragment(hdr, pkt, off, end, id);
      frags := frags + [frag];
      off := off + maxData;
    }
  }
}
