/** Fragment then reassemble: the fragments of any datagram too large for the MTU, offered in any order with any
    repetitions and with any fragments of other datagrams in between, give the datagram back exactly when the last
    missing one arrives. */
module RoundTrip {
  import opened Words
  import opened IPv4
  import opened Reassembly
  import opened ReassemblyTable
  import opened Feeding

  // ---- the fragments of one datagram ----

  /** A whole datagram that does not fit the MTU. */
  predicate TooLarge(hdr: Header, pkt: seq<u8>, mtu: nat) {
    Parse(pkt) == Parsed(hdr) && !hdr.IsFragment() && MIN_MTU <= mtu < hdr.totalLen
  }

  function Payload(hdr: Header, pkt: seq<u8>): seq<u8>
    requires hdr.ihl <= hdr.totalLen <= |pkt|
  {
    pkt[hdr.ihl..hdr.totalLen]
  }

  /** The pieces fragmentIPv4 cuts, which tile the payload. */
  lemma CutsOf(hdr: Header, pkt: seq<u8>, mtu: nat) returns (cuts: seq<Cut>)
    requires TooLarge(hdr, pkt, mtu)
    ensures MIN_HEADER <= hdr.ihl <= hdr.totalLen <= |pkt| && hdr.totalLen <= MAX_DATAGRAM
    ensures 0 < MaxData(mtu, hdr.ihl) <= mtu - hdr.ihl
    ensures cuts == CutsFrom(0, hdr.totalLen - hdr.ihl, MaxData(mtu, hdr.ihl))
    ensures Tiling(cuts, 0, hdr.totalLen - hdr.ihl, MaxData(mtu, hdr.ihl))
  {
    hide Parse;
    ParsedHeaderIsWellFormed(pkt);
    MaxDataFits(mtu, hdr.ihl);
    cuts := CutsFrom(0, hdr.totalLen - hdr.ihl, MaxData(mtu, hdr.ihl));
    CutsTile(0, hdr.totalLen - hdr.ihl, MaxData(mtu, hdr.ihl));
  }

  /** One fragment of pkt, as the receiving side sees it. */
  predicate IsPiece(f: Frag, hdr: Header, pkt: seq<u8>, c: Cut, id: u16)
    requires MIN_HEADER <= hdr.ihl <= hdr.totalLen <= |pkt| && hdr.totalLen <= MAX_DATAGRAM
  {
    && c.first < c.end <= hdr.totalLen - hdr.ihl
    && var frag := Fragment(hdr, pkt, c, id);
       f == Frag(c.first, pkt[hdr.ihl + c.first..hdr.ihl + c.end], c.end < hdr.totalLen - hdr.ihl, frag[..hdr.ihl])
  }

  lemma SliceOfSlice(s: seq<u8>, a: nat, b: nat, i: nat, j: nat)
    requires a <= b <= |s| && i <= j <= b - a
    ensures s[a..b][i..j] == s[a + i..a + j]
  {
    forall x | 0 <= x < j - i ensures s[a..b][i..j][x] == s[a + i..a + j][x] {
      assert s[a..b][i + x] == s[a + i + x];
    }
  }

  /** Each fragment fits the MTU, is accepted by the parser under one identity, and carries its slice of the payload. */
  lemma PieceIsSlice(hdr: Header, pkt: seq<u8>, mtu: nat, id: u16, c: Cut)
    requires TooLarge(hdr, pkt, mtu)
    requires c.first < c.end <= hdr.totalLen - hdr.ihl && c.first % 8 == 0 && c.end - c.first <= MaxData(mtu, hdr.ihl)
    requires c.end < hdr.totalLen - hdr.ihl ==> (c.end - c.first) % 8 == 0
    ensures MIN_HEADER <= hdr.ihl <= hdr.totalLen <= |pkt| && hdr.totalLen <= MAX_DATAGRAM
    ensures var frag := Fragment(hdr, pkt, c, id);
            && hdr.ihl <= |frag| <= mtu && Parse(frag).Parsed? && Fragmentary(Parse(frag).hdr, frag)
            && KeyOf(Parse(frag).hdr) == Key(hdr.src, hdr.dst, hdr.protocol, id)
            && Parse(frag).hdr.ihl == hdr.ihl && Parse(frag).hdr.totalLen == |frag|
            && IsPiece(FragOf(Parse(frag).hdr, frag), hdr, pkt, c, id)
            && SliceOf(FragOf(Parse(frag).hdr, frag), Payload(hdr, pkt))
  {
    hide Parse, Fragment, MaxData;
    ParsedHeaderIsWellFormed(pkt);
    MaxDataFits(mtu, hdr.ihl);
    FragmentParses(hdr, pkt, mtu, id, c);
    var frag := Fragment(hdr, pkt, c, id);
    FragmentaryIsValid(Parse(frag).hdr, frag);
    assert frag[hdr.ihl..|frag|] == frag[hdr.ihl..];
    SliceOfSlice(pkt, hdr.ihl, hdr.totalLen, c.first, c.end);
  }

  lemma {:induction false} LatestIff(hist: seq<Frag>, x: int)
    ensures Latest(hist, x).Some? <==> exists j :: 0 <= j < |hist| && hist[j].Covers(x)
  {
    if hist != [] {
      var n := |hist| - 1;
      LatestIff(hist[..n], x);
      if Latest(hist[..n], x).Some? {
        var j :| 0 <= j < n && hist[..n][j].Covers(x);
        assert hist[j].Covers(x);
      }
      if exists j :: 0 <= j < |hist| && hist[j].Covers(x) {
        var j :| 0 <= j < |hist| && hist[j].Covers(x);
        assert j < n ==> hist[..n][j].Covers(x);
      }
    }
  }

  /** frs are the pieces named by order. */
  predicate Named(frs: seq<Frag>, order: seq<nat>, cuts: seq<Cut>) {
    && |frs| == |order|
    && forall i :: 0 <= i < |order| ==>
         order[i] < |cuts| && frs[i].first == cuts[order[i]].first && frs[i].End() == cuts[order[i]].end
  }

  /** The payload is covered exactly when every piece has come. */
  lemma CoveredIffAllCame(frs: seq<Frag>, order: seq<nat>, cuts: seq<Cut>, len: nat, maxData: nat)
    requires Named(frs, order, cuts) && Tiling(cuts, 0, len, maxData)
    ensures Covered(frs, len) <==> forall k :: 0 <= k < |cuts| ==> k in order
  {
    if forall k :: 0 <= k < |cuts| ==> k in order {
      forall x | 0 <= x < len ensures Latest(frs, x).Some? {
        var k := TilingCovers(cuts, 0, len, maxData, x);
        assert k in order;
        var i :| 0 <= i < |order| && order[i] == k;
        assert frs[i].Covers(x);
        LatestIff(frs, x);
      }
    }
    if Covered(frs, len) {
      forall k | 0 <= k < |cuts| ensures k in order {
        TilingMember(cuts, 0, len, maxData, k);
        var x := cuts[k].first;
        assert Latest(frs, x).Some?;
        LatestIff(frs, x);
        var i :| 0 <= i < |frs| && frs[i].Covers(x);
        if order[i] < k {
          TilingDisjoint(cuts, 0, len, maxData, order[i], k);
        } else if order[i] > k {
          TilingDisjoint(cuts, 0, len, maxData, k, order[i]);
        }
        assert order[i] == k;
      }
    }
  }

  // ---- what comes back ----

  /** d is pkt's datagram again: the same bytes but for identification, fragment word and checksum. */
  predicate Restores(d: seq<u8>, hdr: Header, pkt: seq<u8>, id: u16) {
    && |d| == hdr.totalLen <= |pkt|
    && (forall i :: 0 <= i < |d| && !(4 <= i < 8) && !(10 <= i < 12) ==> d[i] == pkt[i])
    && Parse(d) == Parsed(hdr.(id := id))
  }

  /** A fragment's header differs from pkt's only in length, identification, fragment word and checksum. */
  lemma PieceHeader(hdr: Header, pkt: seq<u8>, c: Cut, id: u16)
    requires Parse(pkt) == Parsed(hdr)
    requires MIN_HEADER <= hdr.ihl <= hdr.totalLen <= |pkt| && hdr.totalLen <= MAX_DATAGRAM
    requires c.first < c.end <= hdr.totalLen - hdr.ihl
    ensures var h := Fragment(hdr, pkt, c, id)[..hdr.ihl];
            && |h| == hdr.ihl && WellFormed(h) && Get16(h, 4) == id
            && forall i :: 0 <= i < hdr.ihl && !(2 <= i < 8) && !(10 <= i < 12) ==> h[i] == pkt[i]
  {
    hide Parse, Assembled;
    ParsedHeaderIsWellFormed(pkt);
    AssembledBytes(pkt[..hdr.ihl], pkt[hdr.ihl + c.first..hdr.ihl + c.end], id,
                   c.first / 8 + if c.end < hdr.totalLen - hdr.ihl then MORE_FRAGMENTS else 0);
  }

  lemma AssembledRestores(hdr: Header, pkt: seq<u8>, h: seq<u8>, id: u16)
    requires Parse(pkt) == Parsed(hdr) && !hdr.IsFragment()
    requires MIN_HEADER <= hdr.ihl <= hdr.totalLen <= |pkt| && hdr.totalLen <= MAX_DATAGRAM
    requires |h| == hdr.ihl && WellFormed(h) && Get16(h, 4) == id
    requires forall i :: 0 <= i < hdr.ihl && !(2 <= i < 8) && !(10 <= i < 12) ==> h[i] == pkt[i]
    ensures Restores(Assembled(h, Payload(hdr, pkt), Get16(h, 4), 0), hdr, pkt, id)
  {
    hide Assembled;
    var d := Assembled(h, Payload(hdr, pkt), id, 0);
    AssembledBytes(h, Payload(hdr, pkt), id, 0);
    assert Get16(d, 2) == Get16(pkt, 2);
    forall i | 0 <= i < |d| && !(4 <= i < 8) && !(10 <= i < 12) ensures d[i] == pkt[i] {
      if i >= hdr.ihl {
        assert d[i] == d[hdr.ihl..][i - hdr.ihl];
      }
    }
    assert h[12..16] == pkt[12..16] && h[16..20] == pkt[16..20];
    ParseAssembled(h, Payload(hdr, pkt), id, 0, false);
  }

  /** The identity every fragment of pkt carries. */
  function IdentityOf(hdr: Header, id: u16): Key {
    Key(hdr.src, hdr.dst, hdr.protocol, id)
  }

  /** What arrives: under the identity of pkt's fragments, the fragments that order names; under others, anything valid;
      all within the timeout. */
  predicate Arriving(hdr: Header, pkt: seq<u8>, id: u16, cuts: seq<Cut>, keys: seq<Key>, frs: seq<Frag>,
                     order: seq<nat>)
    requires MIN_HEADER <= hdr.ihl <= hdr.totalLen <= |pkt| && hdr.totalLen <= MAX_DATAGRAM
  {
    && |frs| == |order| == |keys|
    && (forall i :: 0 <= i < |order| ==> frs[i].Valid())
    && (forall i :: 0 <= i < |order| && keys[i] == IdentityOf(hdr, id) ==>
          order[i] < |cuts| && IsPiece(frs[i], hdr, pkt, cuts[order[i]], id))
  }

  lemma ArrivingSlices(hdr: Header, pkt: seq<u8>, mtu: nat, id: u16, keys: seq<Key>, frs: seq<Frag>, order: seq<nat>,
                       i: nat)
    requires TooLarge(hdr, pkt, mtu)
    requires MIN_HEADER <= hdr.ihl <= hdr.totalLen <= |pkt| && hdr.totalLen <= MAX_DATAGRAM && 0 < MaxData(mtu, hdr.ihl)
    requires Arriving(hdr, pkt, id, CutsFrom(0, hdr.totalLen - hdr.ihl, MaxData(mtu, hdr.ihl)), keys, frs, order)
    requires i < |frs| && keys[i] == IdentityOf(hdr, id)
    ensures SliceOf(frs[i], Payload(hdr, pkt)) && |frs[i].header| == hdr.ihl
    ensures var cuts := CutsFrom(0, hdr.totalLen - hdr.ihl, MaxData(mtu, hdr.ihl));
            order[i] < |cuts| && frs[i].first == cuts[order[i]].first && frs[i].End() == cuts[order[i]].end
  {
    hide Parse, Fragment, MaxData;
    var cuts := CutsOf(hdr, pkt, mtu);
    TilingMember(cuts, 0, hdr.totalLen - hdr.ihl, MaxData(mtu, hdr.ihl), order[i]);
    PieceIsSlice(hdr, pkt, mtu, id, cuts[order[i]]);
  }

  /** The header a completed feed ends up under is some fragment's. */
  lemma ArrivingHeader(hdr: Header, pkt: seq<u8>, id: u16, cuts: seq<Cut>, keys: seq<Key>, frs: seq<Frag>,
                       order: seq<nat>, n: nat)
    requires Parse(pkt) == Parsed(hdr) && !hdr.IsFragment()
    requires MIN_HEADER <= hdr.ihl <= hdr.totalLen <= |pkt| && hdr.totalLen <= MAX_DATAGRAM
    requires Arriving(hdr, pkt, id, cuts, keys, frs, order) && n <= |frs|
    requires LatestHeader(Own(frs, keys, IdentityOf(hdr, id), n)) != []
    ensures var h := LatestHeader(Own(frs, keys, IdentityOf(hdr, id), n));
            |h| == hdr.ihl && Restores(Assembled(h, Payload(hdr, pkt), Get16(h, 4), 0), hdr, pkt, id)
  {
    hide Parse, Fragment, Assembled;
    var k := IdentityOf(hdr, id);
    var own := Own(frs, keys, k, n);
    forall j | 0 <= j < |own| ensures own[j].Valid() {
      OwnIn(frs, keys, k, n, own[j]);
    }
    HeaderIsOne(own);
    var j :| 0 <= j < |own| && own[j].header == LatestHeader(own);
    OwnIn(frs, keys, k, n, own[j]);
    var i :| 0 <= i < n && keys[i] == k && frs[i] == own[j];
    PieceHeader(hdr, pkt, cuts[order[i]], id);
    AssembledRestores(hdr, pkt, LatestHeader(own), id);
  }

  /** Taking what came under k takes a fragment and its name together. */
  lemma {:induction false} OwnNamed(frs: seq<Frag>, order: seq<nat>, keys: seq<Key>, k: Key, cuts: seq<Cut>, n: nat)
    requires n <= |frs| == |order| == |keys|
    requires forall i :: 0 <= i < |frs| && keys[i] == k ==>
      order[i] < |cuts| && frs[i].first == cuts[order[i]].first && frs[i].End() == cuts[order[i]].end
    ensures Named(Own(frs, keys, k, n), Own(order, keys, k, n), cuts)
  {
    if n > 0 {
      OwnNamed(frs, order, keys, k, cuts, n - 1);
    }
  }

  predicate AllIn(order: seq<nat>, count: nat) {
    forall k :: 0 <= k < count ==> k in order
  }

  /** The round trip. An offer of one of pkt's fragments, before which some fragment had not come: it completes the
      datagram exactly if every fragment has now come, and what it returns is the datagram; otherwise it is buffered
      or a duplicate. */
  lemma FragmentsReassemble(t: Table, lim: Limits, hdr: Header, pkt: seq<u8>, mtu: nat, id: u16,
                            keys: seq<Key>, frs: seq<Frag>, order: seq<nat>, times: seq<int>, n: nat)
    requires TooLarge(hdr, pkt, mtu)
    requires MIN_HEADER <= hdr.ihl <= hdr.totalLen <= |pkt| && hdr.totalLen <= MAX_DATAGRAM && 0 < MaxData(mtu, hdr.ihl)
    requires Arriving(hdr, pkt, id, CutsFrom(0, hdr.totalLen - hdr.ihl, MaxData(mtu, hdr.ihl)), keys, frs, order)
    requires Room(t, lim, IdentityOf(hdr, id)) && |times| == |frs| && 0 < lim.timeout && InTime(times, lim.timeout)
    requires n < |frs| && keys[0] == keys[n] == IdentityOf(hdr, id)
    requires forall i :: 0 <= i < |frs| && keys[i] == IdentityOf(hdr, id) ==>
      Fits(Fed(t, lim, keys, frs, times, i), lim, IdentityOf(hdr, id), hdr.totalLen - hdr.ihl)
    requires !AllIn(Own(order, keys, IdentityOf(hdr, id), n),
                    |CutsFrom(0, hdr.totalLen - hdr.ihl, MaxData(mtu, hdr.ihl))|)
    ensures var (_, out, d) := Add(Fed(t, lim, keys, frs, times, n), lim, times[n], keys[n], frs[n]);
            && (out == Complete <==>
                  AllIn(Own(order, keys, IdentityOf(hdr, id), n + 1),
                        |CutsFrom(0, hdr.totalLen - hdr.ihl, MaxData(mtu, hdr.ihl))|))
            && (out == Complete ==> Restores(d, hdr, pkt, id))
            && (out != Complete ==> out == Buffered || out == Duplicate)
  {
    hide Parse, Fragment, Assembled, MaxData, Add, Room, Fits, Restores, LatestHeader, Fed, Own, IsPiece;
    var len, maxData, k := hdr.totalLen - hdr.ihl, MaxData(mtu, hdr.ihl), IdentityOf(hdr, id);
    var cuts := CutsOf(hdr, pkt, mtu);
    var p := Payload(hdr, pkt);
    forall i | 0 <= i < |frs| && keys[i] == k
      ensures SliceOf(frs[i], p) && |frs[i].header| == hdr.ihl
      ensures order[i] < |cuts| && frs[i].first == cuts[order[i]].first && frs[i].End() == cuts[order[i]].end
    {
      ArrivingSlices(hdr, pkt, mtu, id, keys, frs, order, i);
    }
    OwnNamed(frs, order, keys, k, cuts, n);
    OwnNamed(frs, order, keys, k, cuts, n + 1);
    CoveredIffAllCame(Own(frs, keys, k, n), Own(order, keys, k, n), cuts, len, maxData);
    CoveredIffAllCame(Own(frs, keys, k, n + 1), Own(order, keys, k, n + 1), cuts, len, maxData);
    FeedCompletes(t, lim, k, keys, frs, times, p, n);
    if Covered(Own(frs, keys, k, n + 1), len) {
      ArrivingHeader(hdr, pkt, id, cuts, keys, frs, order, n + 1);
    }
  }

  // ---- from packet bytes to packet bytes ----

  /** What fragmentIPv4 returns for a datagram that does not fit. */
  predicate AreFragments(frags: seq<seq<u8>>, hdr: Header, pkt: seq<u8>, mtu: nat, id: u16) {
    && TooLarge(hdr, pkt, mtu)
    && MIN_HEADER <= hdr.ihl <= hdr.totalLen <= |pkt| && hdr.totalLen <= MAX_DATAGRAM && 0 < MaxData(mtu, hdr.ihl)
    && var cuts := CutsFrom(0, hdr.totalLen - hdr.ihl, MaxData(mtu, hdr.ihl));
       && (forall k :: 0 <= k < |cuts| ==> cuts[k].first < cuts[k].end <= hdr.totalLen - hdr.ihl)
       && frags == Fragments(hdr, pkt, cuts, id)
  }

  /** The parser takes the packet for a fragment. */
  predicate TakenAsFragment(pkt: seq<u8>) {
    Parse(pkt).Parsed? && Parse(pkt).hdr.IsFragment()
  }

  /** deliver: parse the packet and offer it under the identity in its header. */
  ghost function AddPacket(t: Table, lim: Limits, now: int, pkt: seq<u8>): (Table, Outcome, seq<u8>)
    requires TakenAsFragment(pkt) && HeadersOk(t.bufs)
  {
    FragmentaryIsValid(Parse(pkt).hdr, pkt);
    Add(t, lim, now, KeyOf(Parse(pkt).hdr), FragOf(Parse(pkt).hdr, pkt))
  }

  /** The table after the first n packets. */
  ghost function FedPackets(t: Table, lim: Limits, packets: seq<seq<u8>>, times: seq<int>, n: nat): (r: Table)
    requires n <= |packets| == |times| && HeadersOk(t.bufs)
    requires forall i :: 0 <= i < |packets| ==> TakenAsFragment(packets[i])
    ensures HeadersOk(r.bufs)
  {
    if n == 0 then t
    else
      var before := FedPackets(t, lim, packets, times, n - 1);
      var pkt := packets[n - 1];
      FragmentaryIsValid(Parse(pkt).hdr, pkt);
      AddHeaders(before, lim, times[n - 1], KeyOf(Parse(pkt).hdr), FragOf(Parse(pkt).hdr, pkt));
      AddPacket(before, lim, times[n - 1], pkt).0
  }

  /** One packet, re-read: it fits the MTU and is the fragment it should be. */
  lemma PacketIsPiece(frags: seq<seq<u8>>, hdr: Header, pkt: seq<u8>, mtu: nat, id: u16, j: nat)
    requires AreFragments(frags, hdr, pkt, mtu, id) && j < |frags|
    ensures |frags[j]| <= mtu && TakenAsFragment(frags[j])
    ensures Parse(frags[j]).hdr.ihl <= Parse(frags[j]).hdr.totalLen <= |frags[j]|
    ensures KeyOf(Parse(frags[j]).hdr) == IdentityOf(hdr, id)
    ensures var cuts := CutsFrom(0, hdr.totalLen - hdr.ihl, MaxData(mtu, hdr.ihl));
            && j < |cuts| == |frags|
            && IsPiece(FragOf(Parse(frags[j]).hdr, frags[j]), hdr, pkt, cuts[j], id)
            && FragOf(Parse(frags[j]).hdr, frags[j]).Valid()
  {
    hide Parse, Fragment, MaxData, CutsFrom;
    var cuts := CutsOf(hdr, pkt, mtu);
    TilingMember(cuts, 0, hdr.totalLen - hdr.ihl, MaxData(mtu, hdr.ihl), j);
    PieceIsSlice(hdr, pkt, mtu, id, cuts[j]);
    FragmentaryIsValid(Parse(frags[j]).hdr, frags[j]);
  }

  /** No two fragments of a datagram are the same bytes. */
  lemma FragmentsDiffer(frags: seq<seq<u8>>, hdr: Header, pkt: seq<u8>, mtu: nat, id: u16, i: nat, j: nat)
    requires AreFragments(frags, hdr, pkt, mtu, id) && i < j < |frags|
    ensures frags[i] != frags[j]
  {
    hide Parse, Fragment, MaxData, CutsFrom;
    PacketIsPiece(frags, hdr, pkt, mtu, id, i);
    PacketIsPiece(frags, hdr, pkt, mtu, id, j);
    var cuts := CutsOf(hdr, pkt, mtu);
    TilingDisjoint(cuts, 0, hdr.totalLen - hdr.ihl, MaxData(mtu, hdr.ihl), i, j);
  }

  /** What packets parse to. */
  predicate ParsesTo(packets: seq<seq<u8>>, keys: seq<Key>, frs: seq<Frag>) {
    && |packets| == |keys| == |frs|
    && forall i :: 0 <= i < |packets| ==>
         && TakenAsFragment(packets[i]) && frs[i].Valid()
         && Parse(packets[i]).hdr.ihl <= Parse(packets[i]).hdr.totalLen <= |packets[i]|
         && frs[i] == FragOf(Parse(packets[i]).hdr, packets[i]) && KeyOf(Parse(packets[i]).hdr) == keys[i]
  }

  /** Feeding the packets is feeding what they parse to. */
  lemma {:induction false} FedPacketsIsFed(
    t: Table, lim: Limits, packets: seq<seq<u8>>, keys: seq<Key>, frs: seq<Frag>, times: seq<int>, n: nat)
    requires ParsesTo(packets, keys, frs) && n <= |packets| == |times| && HeadersOk(t.bufs)
    ensures FedPackets(t, lim, packets, times, n) == Fed(t, lim, keys, frs, times, n)
  {
    hide Parse, Add;
    if n > 0 {
      FedPacketsIsFed(t, lim, packets, keys, frs, times, n - 1);
    }
  }

  /** Every one of frags is among packets. */
  predicate AllCame(frags: seq<seq<u8>>, packets: seq<seq<u8>>) {
    forall j :: 0 <= j < |frags| ==> frags[j] in packets
  }

  /** Fragments as the receiving side takes them: every packet parses as one, and under this datagram's identity come
      only fragments of this datagram. */
  predicate Mixed(packets: seq<seq<u8>>, frags: seq<seq<u8>>, k: Key) {
    forall i :: 0 <= i < |packets| ==>
      TakenAsFragment(packets[i]) && (KeyOf(Parse(packets[i]).hdr) == k ==> packets[i] in frags)
  }

  /** Where in frags the packets under k are found; anything for the rest. */
  predicate Placed(packets: seq<seq<u8>>, frags: seq<seq<u8>>, keys: seq<Key>, k: Key, order: seq<nat>) {
    && |order| == |packets| == |keys|
    && forall i :: 0 <= i < |order| && keys[i] == k ==> order[i] < |frags| && packets[i] == frags[order[i]]
  }

  function IndexIn(frags: seq<seq<u8>>, pkt: seq<u8>): (j: nat)
    ensures pkt in frags ==> j < |frags| && frags[j] == pkt
  {
    if frags == [] then 0
    else if frags[|frags| - 1] == pkt then |frags| - 1
    else IndexIn(frags[..|frags| - 1], pkt)
  }

  lemma MixedParses(packets: seq<seq<u8>>, frags: seq<seq<u8>>, k: Key)
    returns (keys: seq<Key>, frs: seq<Frag>, order: seq<nat>)
    requires Mixed(packets, frags, k)
    ensures ParsesTo(packets, keys, frs) && Placed(packets, frags, keys, k, order)
  {
    hide Parse;
    forall i | 0 <= i < |packets|
      ensures Parse(packets[i]).hdr.ihl <= Parse(packets[i]).hdr.totalLen <= |packets[i]|
      ensures FragOf(Parse(packets[i]).hdr, packets[i]).Valid()
    {
      FragmentaryIsValid(Parse(packets[i]).hdr, packets[i]);
    }
    keys := seq(|packets|, i requires 0 <= i < |packets| => KeyOf(Parse(packets[i]).hdr));
    frs := seq(|packets|, i requires 0 <= i < |packets| => FragOf(Parse(packets[i]).hdr, packets[i]));
    order := seq(|packets|, i requires 0 <= i < |packets| => IndexIn(frags, packets[i]));
  }

  /** A fragment that has come as bytes has come under its number. */
  lemma {:induction false} CameByNumber(
    frags: seq<seq<u8>>, hdr: Header, pkt: seq<u8>, mtu: nat, id: u16, packets: seq<seq<u8>>,
    keys: seq<Key>, frs: seq<Frag>, order: seq<nat>, n: nat, i: nat, j: nat)
    requires AreFragments(frags, hdr, pkt, mtu, id) && ParsesTo(packets, keys, frs) && i < n <= |packets|
    requires Placed(packets, frags, keys, IdentityOf(hdr, id), order)
    requires j < |frags| && packets[i] == frags[j]
    ensures j in Own(order, keys, IdentityOf(hdr, id), n)
  {
    hide Parse, AreFragments, IsPiece, MaxData;
    PacketIsPiece(frags, hdr, pkt, mtu, id, j);
    if order[i] < j {
      FragmentsDiffer(frags, hdr, pkt, mtu, id, order[i], j);
    } else if j < order[i] {
      FragmentsDiffer(frags, hdr, pkt, mtu, id, j, order[i]);
    }
    OwnIn(order, keys, IdentityOf(hdr, id), n, j);
  }

  /** A fragment has come as bytes exactly if its number has come. */
  lemma {:induction false} CameIff(
    frags: seq<seq<u8>>, hdr: Header, pkt: seq<u8>, mtu: nat, id: u16, packets: seq<seq<u8>>,
    keys: seq<Key>, frs: seq<Frag>, order: seq<nat>, n: nat)
    requires AreFragments(frags, hdr, pkt, mtu, id) && ParsesTo(packets, keys, frs) && n <= |packets|
    requires Placed(packets, frags, keys, IdentityOf(hdr, id), order)
    ensures AllCame(frags, packets[..n]) <==> AllIn(Own(order, keys, IdentityOf(hdr, id), n), |frags|)
  {
    hide Parse, AreFragments, ParsesTo, Own;
    var k := IdentityOf(hdr, id);
    forall j: nat | j < |frags| ensures frags[j] in packets[..n] <==> j in Own(order, keys, k, n) {
      if frags[j] in packets[..n] {
        var i :| 0 <= i < n && packets[..n][i] == frags[j];
        CameByNumber(frags, hdr, pkt, mtu, id, packets, keys, frs, order, n, i, j);
      }
      if j in Own(order, keys, k, n) {
        OwnIn(order, keys, k, n, j);
        var i :| 0 <= i < n && keys[i] == k && order[i] == j;
        assert packets[..n][i] == frags[j];
      }
    }
  }

  /** A packet under the datagram's identity is one of its fragments, and only such a packet is. */
  lemma PlacedIsPiece(frags: seq<seq<u8>>, hdr: Header, pkt: seq<u8>, mtu: nat, id: u16, packets: seq<seq<u8>>,
                      keys: seq<Key>, frs: seq<Frag>, order: seq<nat>, i: nat)
    requires AreFragments(frags, hdr, pkt, mtu, id) && ParsesTo(packets, keys, frs) && i < |packets|
    requires Placed(packets, frags, keys, IdentityOf(hdr, id), order)
    ensures packets[i] in frags <==> keys[i] == IdentityOf(hdr, id)
    ensures var cuts := CutsFrom(0, hdr.totalLen - hdr.ihl, MaxData(mtu, hdr.ihl));
            keys[i] == IdentityOf(hdr, id) ==>
              order[i] < |cuts| == |frags| && IsPiece(frs[i], hdr, pkt, cuts[order[i]], id)
  {
    hide Parse, AreFragments, MaxData, CutsFrom, IsPiece, Fragments;
    if packets[i] in frags {
      var j :| 0 <= j < |frags| && frags[j] == packets[i];
      PacketIsPiece(frags, hdr, pkt, mtu, id, j);
    }
    if keys[i] == IdentityOf(hdr, id) {
      PacketIsPiece(frags, hdr, pkt, mtu, id, order[i]);
    }
  }

  lemma {:induction false} ArrivingPackets(
    frags: seq<seq<u8>>, hdr: Header, pkt: seq<u8>, mtu: nat, id: u16, packets: seq<seq<u8>>,
    keys: seq<Key>, frs: seq<Frag>, order: seq<nat>)
    requires AreFragments(frags, hdr, pkt, mtu, id) && ParsesTo(packets, keys, frs)
    requires Placed(packets, frags, keys, IdentityOf(hdr, id), order)
    ensures var cuts := CutsFrom(0, hdr.totalLen - hdr.ihl, MaxData(mtu, hdr.ihl));
            |cuts| == |frags| && Arriving(hdr, pkt, id, cuts, keys, frs, order)
    ensures forall i :: 0 <= i < |packets| ==> (packets[i] in frags <==> keys[i] == IdentityOf(hdr, id))
  {
    hide Parse, MaxData, CutsFrom, IsPiece, TooLarge;
    forall i | 0 <= i < |packets|
      ensures packets[i] in frags <==> keys[i] == IdentityOf(hdr, id)
      ensures var cuts := CutsFrom(0, hdr.totalLen - hdr.ihl, MaxData(mtu, hdr.ihl));
              keys[i] == IdentityOf(hdr, id) ==>
                order[i] < |cuts| && IsPiece(frs[i], hdr, pkt, cuts[order[i]], id)
    {
      PlacedIsPiece(frags, hdr, pkt, mtu, id, packets, keys, frs, order, i);
    }
  }

  /** The same, of what the packets parse to. */
  lemma {:induction false} ParsedReassemble(
    t: Table, lim: Limits, hdr: Header, pkt: seq<u8>, mtu: nat, id: u16, frags: seq<seq<u8>>,
    packets: seq<seq<u8>>, keys: seq<Key>, frs: seq<Frag>, order: seq<nat>, times: seq<int>, n: nat)
    requires AreFragments(frags, hdr, pkt, mtu, id) && ParsesTo(packets, keys, frs)
    requires Placed(packets, frags, keys, IdentityOf(hdr, id), order)
    requires |times| == |packets| == n + 1 && 0 < lim.timeout && InTime(times, lim.timeout)
    requires packets[0] in frags && packets[n] in frags && !AllCame(frags, packets[..n])
    requires Room(t, lim, IdentityOf(hdr, id))
    requires forall i :: 0 <= i <= n && packets[i] in frags ==>
      Fits(FedPackets(t, lim, packets, times, i), lim, IdentityOf(hdr, id), hdr.totalLen - hdr.ihl)
    ensures var (_, out, d) := Add(Fed(t, lim, keys, frs, times, n), lim, times[n], keys[n], frs[n]);
            && (out == Complete <==> AllCame(frags, packets))
            && (out == Complete ==> Restores(d, hdr, pkt, id))
            && (out != Complete ==> out == Buffered || out == Duplicate)
  {
    hide Parse, MaxData, CutsFrom, Add, Fits, Restores, Fed, FedPackets, TooLarge, AllIn, AllCame, Arriving, Own;
    ArrivingPackets(frags, hdr, pkt, mtu, id, packets, keys, frs, order);
    CameIff(frags, hdr, pkt, mtu, id, packets, keys, frs, order, n);
    CameIff(frags, hdr, pkt, mtu, id, packets, keys, frs, order, n + 1);
    assert packets[..n + 1] == packets;
    forall i | 0 <= i <= n ensures FedPackets(t, lim, packets, times, i) == Fed(t, lim, keys, frs, times, i) {
      FedPacketsIsFed(t, lim, packets, keys, frs, times, i);
    }
    FragmentsReassemble(t, lim, hdr, pkt, mtu, id, keys, frs, order, times, n);
  }

  /** The round trip on bytes. Packets that hold the fragments of a datagram, in any order with any repetitions and with
      fragments of other datagrams in between, are parsed and offered within the timeout to a table that has a free
      buffer at the first of them and, at each of them, room for the payload beside what the other datagrams hold. Every
      fragment fits the MTU and is taken as one; the packet that brings the last missing fragment, and no earlier one,
      yields the datagram, the same bytes but for identification, fragment word and checksum. */
  lemma {:induction false} PacketsReassemble(
    t: Table, lim: Limits, hdr: Header, pkt: seq<u8>, mtu: nat, id: u16, frags: seq<seq<u8>>,
    packets: seq<seq<u8>>, times: seq<int>, n: nat)
    requires AreFragments(frags, hdr, pkt, mtu, id) && Mixed(packets, frags, IdentityOf(hdr, id))
    requires |times| == |packets| == n + 1 && 0 < lim.timeout && InTime(times, lim.timeout)
    requires packets[0] in frags && packets[n] in frags && !AllCame(frags, packets[..n])
    requires Room(t, lim, IdentityOf(hdr, id))
    requires forall i :: 0 <= i <= n && packets[i] in frags ==>
      Fits(FedPackets(t, lim, packets, times, i), lim, IdentityOf(hdr, id), hdr.totalLen - hdr.ihl)
    ensures forall j :: 0 <= j < |frags| ==> |frags[j]| <= mtu && TakenAsFragment(frags[j])
    ensures var (_, out, d) := AddPacket(FedPackets(t, lim, packets, times, n), lim, times[n], packets[n]);
            && (out == Complete <==> AllCame(frags, packets))
            && (out == Complete ==> Restores(d, hdr, pkt, id))
            && (out != Complete ==> out == Buffered || out == Duplicate)
  {
    hide Parse, MaxData, CutsFrom, Add, Fits, Restores, Fed, FedPackets, TooLarge, AllIn, AllCame, Arriving, Mixed,
      Placed, Own, AreFragments;
    var k := IdentityOf(hdr, id);
    var keys, frs, order := MixedParses(packets, frags, k);
    forall j | 0 <= j < |frags| ensures |frags[j]| <= mtu && TakenAsFragment(frags[j]) {
      PacketIsPiece(frags, hdr, pkt, mtu, id, j);
    }
    FedPacketsIsFed(t, lim, packets, keys, frs, times, n);
    ParsedReassemble(t, lim, hdr, pkt, mtu, id, frags, packets, keys, frs, order, times, n);
  }
}
