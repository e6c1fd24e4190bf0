/** The key slots of a session (ovpn.go, session.go): primary, lame duck and pending renegotiation, as changed by the
    blocks that hold the session's lock. Control connections are named by number; 0 is the one the session began with.
    */
module KeySlots {
  import opened Words

  const TRANSITION_WINDOW: int := 3600

  datatype Slot = Slot(keyId: u8, conn: nat)

  datatype Keys = Keys(
    primary: Option<Slot>,
    lameDuck: Option<Slot>,
    mustDie: int,
    pending: Option<nat>,
    pendingKeyId: u8,
    lastAccepted: Option<int>,
    renegotiations: nat)

  const UNKEYED := Keys(None, None, 0, None, 0, None, 0)

  /** Key ids run 0, 1, ..., 7, 1, ..., 7: zero is for the first key only. */
  function NextKeyId(current: u8): u8 {
    var next := (current + 1) % 8;
    if next == 0 then 1 else next
  }

  /** The bring-up's publication of the first key. */
  function Published(k: Keys): Keys {
    k.(primary := Some(Slot(0, 0)))
  }

  /** startRenegotiation goes ahead: the session is not closing, has a key, has no attempt in flight, is not
      rate-limited, and the peer's key id (if the peer started it) is the expected one. */
  predicate MayStart(k: Keys, closing: bool, now: int, minInterval: int, want: Option<u8>) {
    && !closing
    && k.primary.Some?
    && k.pending.None?
    && (k.lastAccepted.None? || now - k.lastAccepted.value >= minInterval)
    && (want.None? || want.value == NextKeyId(k.primary.value.keyId))
  }

  function Started(k: Keys, conn: nat, now: int): Keys
    requires k.primary.Some?
  {
    k.(pending := Some(conn), pendingKeyId := NextKeyId(k.primary.value.keyId), lastAccepted := Some(now))
  }

  /** Forget the attempt over conn, if that is the one pending. */
  function Cleared(k: Keys, conn: nat): Keys {
    if k.pending == Some(conn) then k.(pending := None) else k
  }

  /** The new key becomes primary and the primary lame duck. */
  function Installed(k: Keys, conn: nat, keyId: u8, now: int): Keys {
    Cleared(k.(lameDuck := k.primary, mustDie := now + TRANSITION_WINDOW, primary := Some(Slot(keyId, conn)),
               renegotiations := k.renegotiations + 1), conn)
  }

  predicate Expired(k: Keys, now: int) {
    k.lameDuck.Some? && now >= k.mustDie
  }

  /** routeControlPacket: the connection that takes the control packets of a key id. */
  function Route(k: Keys, keyId: u8): Option<nat> {
    if k.primary.None? then (if keyId == 0 then Some(0) else None)
    else if keyId == k.primary.value.keyId then Some(k.primary.value.conn)
    else if k.lameDuck.Some? && keyId == k.lameDuck.value.keyId then Some(k.lameDuck.value.conn)
    else if k.pending.Some? && keyId == k.pendingKeyId then k.pending
    else None
  }

  // ---- the key-id discipline ----

  /** The primary key id after n renegotiations. */
  function KeyIdAfter(n: nat): u8 {
    if n == 0 then 0 else (n - 1) % 7 + 1
  }

  /** The closed form is what stepping gives. */
  lemma KeyIdAfterSteps(n: nat)
    ensures KeyIdAfter(n + 1) == NextKeyId(KeyIdAfter(n))
    ensures NextKeyId(NextKeyId(KeyIdAfter(n))) != KeyIdAfter(n)
  {
    if n > 0 {
      var q, r := (n - 1) / 7, (n - 1) % 7;
      assert n == 7 * q + (r + 1);
      if r == 6 {
        assert n == 7 * (q + 1);
      }
    }
  }

  /** Pending follows primary and primary follows the lame duck. */
  predicate InSequence(k: Keys) {
    && (k.primary.None? ==> k.lameDuck.None? && k.pending.None? && k.renegotiations == 0)
    && (k.primary.Some? ==> k.primary.value.keyId == KeyIdAfter(k.renegotiations))
    && (k.lameDuck.Some? ==> k.renegotiations > 0 && k.lameDuck.value.keyId == KeyIdAfter(k.renegotiations - 1))
    && (k.pending.Some? ==> k.pendingKeyId == KeyIdAfter(k.renegotiations + 1))
  }

  /** The three ids are pairwise distinct, so at most one connection answers for a key id. */
  lemma IdsAreDistinct(k: Keys)
    requires InSequence(k)
    ensures k.lameDuck.Some? ==>
      k.lameDuck.value.keyId != k.primary.value.keyId && NextKeyId(k.lameDuck.value.keyId) == k.primary.value.keyId
    ensures k.pending.Some? ==>
      k.pendingKeyId != k.primary.value.keyId && k.pendingKeyId == NextKeyId(k.primary.value.keyId)
    ensures k.pending.Some? && k.lameDuck.Some? ==> k.pendingKeyId != k.lameDuck.value.keyId
  {
    KeyIdAfterSteps(k.renegotiations);
    if k.renegotiations > 0 {
      KeyIdAfterSteps(k.renegotiations - 1);
    }
  }

  // ---- the slots in place ----

  class KeyTable {
    var keys: Keys

    constructor ()
      ensures keys == UNKEYED
    {
      keys := UNKEYED;
    }

    method StartRenegotiation(closing: bool, now: int, minInterval: int, want: Option<u8>, newConn: nat)
      returns (keyId: Option<u8>)
      modifies this
      ensures keyId.Some? <==> MayStart(old(keys), closing, now, minInterval, want)
      ensures keyId.Some? ==> keys == Started(old(keys), newConn, now) && keyId.value == keys.pendingKeyId
      ensures keyId.None? ==> keys == old(keys)
    {
      if closing {
        return None;
      }
      if keys.primary.None? {
        return None;
      }
      if keys.pending.Some? {
        return None;
      }
      if keys.lastAccepted.Some? && now - keys.lastAccepted.value < minInterval {
        return None;
      }
      var next := NextKeyId(keys.primary.value.keyId);
      if want.Some? && want.value != next {
        return None;
      }
      keys := keys.(pending := Some(newConn));
      keys := keys.(pendingKeyId := next);
      keys := keys.(lastAccepted := Some(now));
      return Some(next);
    }

    /** The end of runRenegotiation; toClose is the connection it must close, inside or after the lock. */
    method Finish(closing: bool, newConn: nat, keyId: u8, wrapperOk: bool, now: int)
      returns (installed: bool, toClose: Option<nat>)
      modifies this
      ensures installed <==> !closing && old(keys).pending == Some(newConn) && wrapperOk
      ensures if installed then keys == Installed(old(keys), newConn, keyId, now)
              else keys == if closing || old(keys).pending != Some(newConn) then old(keys)
                           else Cleared(old(keys), newConn)
      ensures toClose == if !installed then Some(newConn)
                         else if old(keys).lameDuck.Some? then Some(old(keys).lameDuck.value.conn) else None
    {
      if closing || keys.pending != Some(newConn) {
        return false, Some(newConn);
      }
      if !wrapperOk {
        keys := keys.(pending := None);
        return false, Some(newConn);
      }
      toClose := if keys.lameDuck.Some? then Some(keys.lameDuck.value.conn) else None;
      keys := keys.(lameDuck := keys.primary);
      keys := keys.(mustDie := now + TRANSITION_WINDOW);
      keys := keys.(primary := Some(Slot(keyId, newConn)));
      keys := keys.(renegotiations := keys.renegotiations + 1);
      keys := keys.(pending := None);
      installed := true;
    }

    method SweepLameDuck(now: int) returns (toClose: Option<nat>)
      modifies this
      ensures if Expired(old(keys), now) then
                keys == old(keys).(lameDuck := None) && toClose == Some(old(keys).lameDuck.value.conn)
              else keys == old(keys) && toClose == None
    {
      toClose := None;
      if keys.lameDuck.Some? && now >= keys.mustDie {
        toClose := Some(keys.lameDuck.value.conn);
        keys := keys.(lameDuck := None);
      }
    }
  }
}
