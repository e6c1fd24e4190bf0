/** The Internet checksum (RFC 1071) and its transport use with the IPv4 pseudo-header (RFC 768, RFC 9293):
    the 32-bit accumulator never overflows, folding stops with the sum modulo 65535, and a stored checksum
    always verifies, for data of even or odd length. */
module Checksum {
  import opened Words

  const MAX_LEN := 65535

  type Addr = s: seq<u8> | |s| == 4 witness [0, 0, 0, 0]

  /** The sum of b's big-endian 16-bit words, a trailing odd byte being the high byte of the last. */
  function WordSum(b: seq<u8>): nat {
    if |b| == 0 then 0
    else if |b| == 1 then (b[0] as int) * 0x100
    else Get16(b, 0) + WordSum(b[2..])
  }

  /** One's-complement folding: the value a folding loop ends on. */
  function Folded(sum: nat): (r: u16)
  {
    if sum < TWO16 then sum else Folded(sum % TWO16 + sum / TWO16)
  }

  /** The complemented fold: what goes in a checksum field. */
  function Complement(sum: nat): u16 {
    0xFFFF - Folded(sum)
  }

  function PseudoHeaderSum(src: Addr, dst: Addr, protocol: u8, length: u16): nat {
    Get16(src, 0) + Get16(src, 2) + Get16(dst, 0) + Get16(dst, 2) + protocol + length
  }

  /** The pseudo-header's bytes: both addresses, a zero, the protocol and the length. */
  function PseudoHeader(src: Addr, dst: Addr, protocol: u8, length: u16): seq<u8> {
    src + dst + [0, protocol] + Put16(length)
  }

  /** What a transport checksum covers: the pseudo-header and the segment. */
  function CoveredSum(src: Addr, dst: Addr, protocol: u8, segment: seq<u8>): nat
    requires |segment| <= MAX_LEN
  {
    WordSum(PseudoHeader(src, dst, protocol, |segment|) + segment)
  }

  /** b with the 16-bit field at o set to v. */
  function Patch16(b: seq<u8>, o: nat, v: u16): (r: seq<u8>)
    requires o + 2 <= |b|
    ensures |r| == |b|
  {
    b[o := v / 0x100][o + 1 := v % 0x100]
  }

  // ---- folding ----

  /** Folding is reduction modulo 65535, with 65535 itself standing for the non-zero multiples. */
  lemma {:induction false} FoldedIsModulo(sum: nat)
    ensures Folded(sum) == if sum == 0 then 0 else (sum - 1) % 0xFFFF + 1
  {
    if sum >= TWO16 {
      var hi, lo := sum / TWO16, sum % TWO16;
      FoldedIsModulo(lo + hi);
      assert sum - 1 == hi * 0xFFFF + (lo + hi - 1);
      ModuloOfMultiplePlus(hi, lo + hi - 1);
    }
  }

  lemma ModuloOfMultiplePlus(q: nat, x: nat)
    ensures (q * 0xFFFF + x) % 0xFFFF == x % 0xFFFF
  {
    assert q * 0xFFFF + x == (q + x / 0xFFFF) * 0xFFFF + x % 0xFFFF;
  }

  /** Adding a sum's own checksum to it makes it verify. */
  lemma StoredChecksumVerifies(sum: nat)
    ensures Complement(sum + Complement(sum)) == 0
  {
    FoldedIsModulo(sum);
    var total := sum + Complement(sum);
    FoldedIsModulo(total);
    if sum > 0 {
      var q := (sum - 1) / 0xFFFF;
      assert total - 1 == q * 0xFFFF + 0xFFFE;
      ModuloOfMultiplePlus(q, 0xFFFE);
    }
  }

  /** A sum whose checksum comes out 0 verifies with 0xFFFF stored instead. */
  lemma AllOnesVerifies(sum: nat)
    requires Complement(sum) == 0
    ensures Complement(sum + 0xFFFF) == 0
  {
    FoldedIsModulo(sum);
    FoldedIsModulo(sum + 0xFFFF);
    var q := (sum - 1) / 0xFFFF;
    assert sum + 0xFFFF - 1 == (q + 1) * 0xFFFF + 0xFFFE;
    ModuloOfMultiplePlus(q + 1, 0xFFFE);
  }

  // ---- words ----

  lemma {:induction false} WordSumBound(b: seq<u8>)
    ensures WordSum(b) <= 0xFFFF * ((|b| + 1) / 2)
  {
    if |b| >= 2 {
      WordSumBound(b[2..]);
    }
  }

  /** Storing v in a zeroed, even-aligned field adds v to the sum. */
  lemma {:induction false} WordSumPatch(b: seq<u8>, o: nat, v: u16)
    requires o + 2 <= |b| && o % 2 == 0 && b[o] == 0 && b[o + 1] == 0
    ensures WordSum(Patch16(b, o, v)) == WordSum(b) + v
  {
    var p := Patch16(b, o, v);
    if o == 0 {
      assert p[2..] == b[2..];
    } else {
      assert p[2..] == Patch16(b[2..], o - 2, v);
      WordSumPatch(b[2..], o - 2, v);
    }
  }

  /** An IPv4 header or ICMP message with its own checksum stored sums to zero, whatever it carries. */
  lemma HeaderVerifies(b: seq<u8>, o: nat)
    requires o + 2 <= |b| && o % 2 == 0 && b[o] == 0 && b[o + 1] == 0
    ensures Complement(WordSum(Patch16(b, o, Complement(WordSum(b))))) == 0
  {
    WordSumPatch(b, o, Complement(WordSum(b)));
    StoredChecksumVerifies(WordSum(b));
  }

  lemma {:induction false} WordSumAppend(a: seq<u8>, b: seq<u8>)
    requires |a| % 2 == 0
    ensures WordSum(a + b) == WordSum(a) + WordSum(b)
  {
    if a == [] {
      assert a + b == b;
    } else {
      assert (a + b)[2..] == a[2..] + b;
      WordSumAppend(a[2..], b);
    }
  }

  lemma FourBytes(a: Addr)
    ensures WordSum(a) == Get16(a, 0) + Get16(a, 2)
  {
    var b := a[2..];
    assert WordSum(b) == Get16(b, 0) + WordSum(b[2..]);
    assert b[2..] == [] && Get16(b, 0) == Get16(a, 2);
  }

  lemma TailWords(protocol: u8, length: u16)
    ensures WordSum([0, protocol] + Put16(length)) == protocol + length
  {
    var tail := [0, protocol] + Put16(length);
    FourBytes(tail);
    assert Get16(tail, 0) == protocol && Get16(tail, 2) == length;
  }

  lemma ThreeParts(a: seq<u8>, b: seq<u8>, c: seq<u8>, d: seq<u8>)
    requires |a| % 2 == 0 && |b| % 2 == 0 && |c| % 2 == 0
    ensures WordSum(a + b + c + d) == WordSum(a) + WordSum(b) + WordSum(c) + WordSum(d)
  {
    hide WordSum;
    WordSumAppend(a, b);
    WordSumAppend(a + b, c);
    WordSumAppend(a + b + c, d);
  }

  /** The partial sum is that of the pseudo-header's twelve bytes. */
  lemma PseudoHeaderIsSummed(src: Addr, dst: Addr, protocol: u8, segment: seq<u8>)
    requires |segment| <= MAX_LEN
    ensures PseudoHeaderSum(src, dst, protocol, |segment|) + WordSum(segment) == CoveredSum(src, dst, protocol, segment)
  {
    hide WordSum, Get16, Put16;
    FourBytes(src);
    FourBytes(dst);
    TailWords(protocol, |segment|);
    var tail := [0, protocol] + Put16(|segment|);
    ThreeParts(src, dst, tail, segment);
    assert PseudoHeader(src, dst, protocol, |segment|) == src + dst + tail;
  }

  // ---- the program's loops ----

  /** Adds what is above the low 16 bits back in until nothing is. */
  method Fold(start: u32) returns (sum: u16)
    ensures sum == Folded(start)
  {
    var x: u32 := start;
    while x >= TWO16
      invariant Folded(x) == Folded(start)
    {
      x := x % TWO16 + x / TWO16;
    }
    sum := x;
  }

  /** Accumulates b's words onto a partial sum; the u32 accumulator cannot overflow. */
  method AddWords(start: u32, b: seq<u8>) returns (sum: u32)
    requires start <= 6 * 0xFFFF && |b| <= MAX_LEN
    ensures sum == start + WordSum(b)
  {
    WordSumBound(b);
    sum := start;
    var i := 0;
    while i + 1 < |b|
      invariant 0 <= i <= |b| && i % 2 == 0
      invariant sum + WordSum(b[i..]) == start + WordSum(b)
    {
      assert b[i..][2..] == b[i + 2..];
      sum := sum + Get16(b, i);
      i := i + 2;
    }
    if |b| % 2 == 1 {
      sum := sum + (b[|b| - 1] as int) * 0x100;
    }
  }

  method InternetChecksum(b: seq<u8>) returns (c: u16)
    requires |b| <= MAX_LEN
    ensures c == Complement(WordSum(b))
  {
    var sum := AddWords(0, b);
    var folded := Fold(sum);
    c := 0xFFFF - folded;
  }

  method TransportChecksum(src: Addr, dst: Addr, protocol: u8, segment: seq<u8>) returns (c: u16)
    requires |segment| <= MAX_LEN
    ensures c == Complement(CoveredSum(src, dst, protocol, segment))
  {
    PseudoHeaderIsSummed(src, dst, protocol, segment);
    var sum := AddWords(PseudoHeaderSum(src, dst, protocol, |segment|), segment);
    var folded := Fold(sum);
    c := 0xFFFF - folded;
  }

  // ---- UDP ----

  const PROTOCOL_UDP := 17
  const UDP_HEADER_LEN := 8

  function UdpUnsigned(srcPort: u16, dstPort: u16, payload: seq<u8>): (s: seq<u8>)
    requires UDP_HEADER_LEN + |payload| <= MAX_LEN
    ensures |s| == UDP_HEADER_LEN + |payload| && s[6] == 0 && s[7] == 0
  {
    Put16(srcPort) + Put16(dstPort) + Put16(UDP_HEADER_LEN + |payload|) + [0, 0] + payload
  }

  method BuildUdp(src: Addr, dst: Addr, srcPort: u16, dstPort: u16, payload: seq<u8>) returns (segment: seq<u8>)
    requires UDP_HEADER_LEN + |payload| <= MAX_LEN
    ensures |segment| == UDP_HEADER_LEN + |payload|
    ensures Get16(segment, 0) == srcPort && Get16(segment, 2) == dstPort && Get16(segment, 4) == |segment|
    ensures segment[8..] == payload
    ensures Get16(segment, 6) != 0
    ensures UdpAccepts(src, dst, segment)
    ensures Complement(CoveredSum(src, dst, PROTOCOL_UDP, segment)) == 0
  {
    var unsigned := UdpUnsigned(srcPort, dstPort, payload);
    var c := TransportChecksum(src, dst, PROTOCOL_UDP, unsigned);
    ghost var sum := PseudoHeaderSum(src, dst, PROTOCOL_UDP, |unsigned|) + WordSum(unsigned);
    PseudoHeaderIsSummed(src, dst, PROTOCOL_UDP, unsigned);
    if c == 0 {
      AllOnesVerifies(sum);
      c := 0xFFFF;
    } else {
      StoredChecksumVerifies(sum);
    }
    segment := Patch16(unsigned, 6, c);
    WordSumPatch(unsigned, 6, c);
    PseudoHeaderIsSummed(src, dst, PROTOCOL_UDP, segment);
    assert Get16(segment, 6) == c;
    assert Patch16(segment, 6, 0) == unsigned;
    assert segment[8..] == payload;
  }

  /** The receive check: recompute over the segment with its checksum zeroed, with the same substitution. */
  predicate UdpAccepts(src: Addr, dst: Addr, segment: seq<u8>)
    requires UDP_HEADER_LEN <= |segment| <= MAX_LEN
  {
    var wire := Get16(segment, 6);
    wire == 0 ||
    var zeroed := Patch16(segment, 6, 0);
    var computed := Complement(PseudoHeaderSum(src, dst, PROTOCOL_UDP, |segment|) + WordSum(zeroed));
    (if computed == 0 then 0xFFFF else computed) == wire
  }

  /** A field zeroed and set back to what it was leaves the bytes as they were. */
  lemma PatchBack(b: seq<u8>, o: nat)
    requires o + 2 <= |b|
    ensures Patch16(Patch16(b, o, 0), o, Get16(b, o)) == b
  {
    var v := Get16(b, o);
    assert v / 0x100 == b[o] && v % 0x100 == b[o + 1];
  }

  /** The receive check accepts exactly the segments whose full sum, checksum included, verifies, and those sent
      without one. */
  lemma UdpAcceptsIff(src: Addr, dst: Addr, segment: seq<u8>)
    requires UDP_HEADER_LEN <= |segment| <= MAX_LEN
    ensures UdpAccepts(src, dst, segment) <==>
            Get16(segment, 6) == 0 || Complement(CoveredSum(src, dst, PROTOCOL_UDP, segment)) == 0
  {
    PseudoHeaderIsSummed(src, dst, PROTOCOL_UDP, segment);
    var wire := Get16(segment, 6);
    var zeroed := Patch16(segment, 6, 0);
    var sum := PseudoHeaderSum(src, dst, PROTOCOL_UDP, |segment|) + WordSum(zeroed);
    assert WordSum(segment) == WordSum(zeroed) + wire by {
      PatchBack(segment, 6);
      WordSumPatch(zeroed, 6, wire);
    }
    if wire != 0 {
      OnlyChecksumVerifies(sum, wire);
    }
  }

  lemma OnlyChecksumVerifies(sum: nat, c: u16)
    requires 0 < c && 0 < sum
    ensures Complement(sum + c) == 0 <==> c == (if Complement(sum) == 0 then 0xFFFF else Complement(sum))
  {
    hide Folded;
    FoldedIsModulo(sum);
    FoldedIsModulo(sum + c);
    var q, r := (sum - 1) / 0xFFFF, (sum - 1) % 0xFFFF;
    assert sum + c - 1 == q * 0xFFFF + (r + c);
    ModuloOfMultiplePlus(q, r + c);
    OneAddendReaches(r, c);
  }

  /** Only one non-zero 16-bit addend brings r to the top of the residues. */
  lemma OneAddendReaches(r: nat, c: u16)
    requires r < 0xFFFF && 0 < c
    ensures (r + c) % 0xFFFF == 0xFFFE <==> c == if r == 0xFFFE then 0xFFFF else 0xFFFE - r
  {
    if r + c >= 0xFFFF {
      ModuloOfMultiplePlus(1, r + c - 0xFFFF);
    }
  }
}
