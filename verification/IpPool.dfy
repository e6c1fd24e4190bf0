/** Tunnel addresses and peer-ids (ippool.go): the lowest free host offset and the lowest free 24-bit peer-id. */
module IpPool {
  import opened Words

  const MAX_PEER_ID: u32 := 0xFF_FFFF

  /** ips holds the offsets from base that are in use. */
  datatype Pool = Pool(base: u32, size: u32, ips: set<u32>, peers: set<u32>)

  datatype Lease = Lease(ip: u32, peer: u32)

  datatype Error = NotIPv4 | OutsideNetwork | Reserved | InUse | Exhausted

  datatype Result<T> = Ok(value: T) | Err(error: Error)

  /** A network needs an address, a server, a client and a broadcast address. */
  predicate Usable(p: Pool) {
    p.size >= 4
  }

  /** uint32(1) << (32 - ones): nothing is left of the bit for a prefix of length 0. */
  function SizeOf(ones: nat): u32
    requires ones <= 32
  {
    Pow2(32 - ones) % TWO32
  }

  /** newIPPool: a network too small for one client, or so large that its size does not fit, is refused. */
  function NewPool(base: u32, ones: nat): Option<Pool>
    requires ones <= 32
  {
    if SizeOf(ones) < 4 then None else Some(Pool(base, SizeOf(ones), {}, {}))
  }

  /** Exactly the prefixes /1 to /30 make a pool; /0 is refused because its size wraps to zero. */
  lemma NewPoolIff(base: u32, ones: nat)
    requires ones <= 32
    ensures NewPool(base, ones).Some? <==> 1 <= ones <= 30
    ensures NewPool(base, ones).Some? ==>
      Usable(NewPool(base, ones).value) && NewPool(base, ones).value.size == Pow2(32 - ones)
  {
    Pow2Concretely();
    if ones > 0 {
      Pow2Grows(32 - ones, 31);
    }
    if ones <= 30 {
      Pow2Grows(2, 32 - ones);
    } else {
      Pow2Grows(32 - ones, 1);
    }
  }

  // ---- the operations on values ----

  function FirstFree(used: set<u32>, lo: u32, hi: u32): Option<u32>
    decreases hi - lo
  {
    if lo >= hi then None else if lo !in used then Some(lo) else FirstFree(used, lo + 1, hi)
  }

  function NextFreeOffset(p: Pool): Option<u32>
    requires Usable(p)
  {
    FirstFree(p.ips, 2, p.size - 1)
  }

  function NextFreePeerId(p: Pool): Option<u32> {
    FirstFree(p.peers, 0, MAX_PEER_ID + 1)
  }

  function Taken(p: Pool, offset: u32, peer: u32): Pool {
    p.(ips := p.ips + {offset}, peers := p.peers + {peer})
  }

  function Allocate(p: Pool): (Pool, Result<Lease>)
    requires Usable(p)
  {
    var offset, peer := NextFreeOffset(p), NextFreePeerId(p);
    if offset.None? || peer.None? then (p, Err(Exhausted))
    else (Taken(p, offset.value, peer.value), Ok(Lease(Add32(p.base, offset.value), peer.value)))
  }

  /** ip is None for an address that is not IPv4. */
  function Reserve(p: Pool, ip: Option<u32>): (Pool, Result<Lease>)
    requires Usable(p)
  {
    if ip.None? then (p, Err(NotIPv4))
    else if ip.value < p.base || ip.value - p.base >= p.size then (p, Err(OutsideNetwork))
    else
      var offset := ip.value - p.base;
      if offset == 0 || offset == 1 || offset == p.size - 1 then (p, Err(Reserved))
      else if offset in p.ips then (p, Err(InUse))
      else
        var peer := NextFreePeerId(p);
        if peer.None? then (p, Err(Exhausted))
        else (Taken(p, offset, peer.value), Ok(Lease(ip.value, peer.value)))
  }

  function Release(p: Pool, l: Lease): Pool {
    p.(ips := p.ips - {Sub32(l.ip, p.base)}, peers := p.peers - {l.peer})
  }

  // ---- what they promise ----

  /** The scan finds the least free number, and fails exactly when there is none. */
  lemma {:induction false} FirstFreeIsLeast(used: set<u32>, lo: u32, hi: u32)
    ensures match FirstFree(used, lo, hi)
            case None => forall x: u32 :: lo <= x < hi ==> x in used
            case Some(f) => lo <= f < hi && f !in used && forall x: u32 :: lo <= x < f ==> x in used
    decreases hi - lo
  {
    if lo < hi && lo in used {
      FirstFreeIsLeast(used, lo + 1, hi);
    }
  }

  /** What a new lease is: a host address of the network that no one held, a peer-id that no one held, and no other
      change. The release of that lease undoes it. */
  predicate Grants(p: Pool, p': Pool, l: Lease) {
    var offset := Sub32(l.ip, p.base);
    && 2 <= offset < p.size - 1
    && l.peer <= MAX_PEER_ID
    && offset !in p.ips
    && l.peer !in p.peers
    && p' == p.(ips := p.ips + {offset}, peers := p.peers + {l.peer})
    && Release(p', l) == p
  }

  /** allocate succeeds exactly when a host address and a peer-id are free, and changes nothing when it fails. */
  lemma AllocateExactly(p: Pool)
    requires Usable(p)
    ensures
      var (p', r) := Allocate(p);
      var ipFree := exists o: u32 :: 2 <= o < p.size - 1 && o !in p.ips;
      var peerFree := exists q: u32 :: q <= MAX_PEER_ID && q !in p.peers;
      && (r.Ok? <==> ipFree && peerFree)
      && (if r.Ok? then Grants(p, p', r.value) else p' == p && r == Err(Exhausted))
  {
    FirstFreeIsLeast(p.ips, 2, p.size - 1);
    FirstFreeIsLeast(p.peers, 0, MAX_PEER_ID + 1);
    var (p', r) := Allocate(p);
    if r.Ok? {
      var offset, peer := NextFreeOffset(p).value, NextFreePeerId(p).value;
      assert Sub32(Add32(p.base, offset), p.base) == offset;
      assert offset !in p.ips && peer !in p.peers;
      assert p.ips + {offset} - {offset} == p.ips && p.peers + {peer} - {peer} == p.peers;
    }
  }

  /** The address can be given out by name: an IPv4 host address of the network. */
  predicate Assignable(p: Pool, ip: Option<u32>) {
    ip.Some? && p.base + 2 <= ip.value < p.base + p.size - 1
  }

  predicate InNetwork(p: Pool, ip: Option<u32>) {
    ip.Some? && p.base <= ip.value < p.base + p.size
  }

  /** reserve succeeds exactly for a free host address while a peer-id is free, every error is given exactly for its
      cause, and a failure changes nothing. */
  lemma ReserveExactly(p: Pool, ip: Option<u32>)
    requires Usable(p)
    ensures
      var (p', r) := Reserve(p, ip);
      var peerFree := exists q: u32 :: q <= MAX_PEER_ID && q !in p.peers;
      && (r.Ok? <==> Assignable(p, ip) && ip.value - p.base !in p.ips && peerFree)
      && (r == Err(NotIPv4) <==> ip.None?)
      && (r == Err(OutsideNetwork) <==> ip.Some? && !InNetwork(p, ip))
      && (r == Err(Reserved) <==> InNetwork(p, ip) && ip.value in {p.base, p.base + 1, p.base + p.size - 1})
      && (r == Err(InUse) <==> Assignable(p, ip) && ip.value - p.base in p.ips)
      && (r == Err(Exhausted) <==> Assignable(p, ip) && ip.value - p.base !in p.ips && !peerFree)
      && (if r.Ok? then r.value.ip == ip.value && Grants(p, p', r.value) else p' == p)
  {
    FirstFreeIsLeast(p.peers, 0, MAX_PEER_ID + 1);
    var (p', r) := Reserve(p, ip);
    if r.Ok? {
      var offset, peer := ip.value - p.base, NextFreePeerId(p).value;
      assert offset !in p.ips && peer !in p.peers;
      assert p.ips + {offset} - {offset} == p.ips && p.peers + {peer} - {peer} == p.peers;
    }
  }

  // ---- the pool in place ----

  class AddressPool {
    const base: u32
    const size: u32
    var usedIPs: map<u32, bool>
    var usedPeerIDs: map<u32, bool>

    predicate Valid() {
      size >= 4
    }

    ghost function View(): Pool
      reads this
    {
      Pool(base, size, usedIPs.Keys, usedPeerIDs.Keys)
    }

    constructor (base: u32, size: u32)
      requires size >= 4
      ensures Valid() && View() == Pool(base, size, {}, {})
    {
      this.base, this.size, usedIPs, usedPeerIDs := base, size, map[], map[];
    }

    method NextOffset() returns (offset: Option<u32>)
      requires Valid()
      ensures offset == NextFreeOffset(View())
    {
      var o := 2;
      while o < size - 1
        invariant 2 <= o <= size - 1
        invariant FirstFree(usedIPs.Keys, 2, size - 1) == FirstFree(usedIPs.Keys, o, size - 1)
      {
        if o !in usedIPs {
          return Some(o);
        }
        o := o + 1;
      }
      return None;
    }

    method NextPeerId() returns (peer: Option<u32>)
      ensures peer == NextFreePeerId(View())
    {
      var id := 0;
      while id <= MAX_PEER_ID
        invariant 0 <= id <= MAX_PEER_ID + 1
        invariant FirstFree(usedPeerIDs.Keys, 0, MAX_PEER_ID + 1) == FirstFree(usedPeerIDs.Keys, id, MAX_PEER_ID + 1)
      {
        if id !in usedPeerIDs {
          return Some(id);
        }
        id := id + 1;
      }
      return None;
    }

    method AllocateLease() returns (r: Result<Lease>)
      requires Valid()
      modifies this
      ensures (View(), r) == Allocate(old(View()))
    {
      var offset := NextOffset();
      if offset.None? {
        return Err(Exhausted);
      }
      var peer := NextPeerId();
      if peer.None? {
        return Err(Exhausted);
      }
      usedIPs, usedPeerIDs := usedIPs[offset.value := true], usedPeerIDs[peer.value := true];
      assert View() == Taken(old(View()), offset.value, peer.value);
      return Ok(Lease(Add32(base, offset.value), peer.value));
    }

    method ReserveLease(ip: Option<u32>) returns (r: Result<Lease>)
      requires Valid()
      modifies this
      ensures (View(), r) == Reserve(old(View()), ip)
    {
      if ip.None? {
        return Err(NotIPv4);
      }
      if ip.value < base {
        return Err(OutsideNetwork);
      }
      var offset := ip.value - base;
      if offset >= size {
        return Err(OutsideNetwork);
      }
      if offset == 0 || offset == 1 || offset == size - 1 {
        return Err(Reserved);
      }
      if offset in usedIPs {
        return Err(InUse);
      }
      var peer := NextPeerId();
      if peer.None? {
        return Err(Exhausted);
      }
      usedIPs, usedPeerIDs := usedIPs[offset := true], usedPeerIDs[peer.value := true];
      assert View() == Taken(old(View()), offset, peer.value);
      return Ok(Lease(ip.value, peer.value));
    }

    method ReleaseLease(l: Lease)
      modifies this
      ensures View() == Release(old(View()), l)
    {
      usedIPs := usedIPs - {Sub32(l.ip, base)};
      usedPeerIDs := usedPeerIDs - {l.peer};
    }
  }
}
