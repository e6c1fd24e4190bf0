/** Session bring-up and teardown as interleaved lock-held steps (ovpn.go, session.go): the address pool, the data
    routing table and the session table under any number of sessions coming up and going down at once. */
module Lifecycle {
  import opened Words
  import opened IpPool

  /** Remote address and client session id. */
  type Key = nat

  /** The handshake goroutine: nothing assigned yet, a lease assigned but not published, a lease about to be given back,
      published, or returned. */
  datatype BringUp = Waiting | Assigned(lease: Lease) | RollingBack(lease: Lease) | Published | Returned

  /** closeWithReason, which runs once: stopCh closed, snapshot taken and routing entry removed, lease released,
      session removed. */
  datatype Teardown = Running | Stopped | Unrouted(snapshot: Option<Lease>) | Released | Closed

  /** published is assignedIP, peerID and the primary data wrapper, which are set together. */
  datatype Session = Session(key: Key, bringUp: BringUp, teardown: Teardown, published: Option<Lease>)

  /** Every session ever created, named by its place in all. */
  datatype Server = Server(pool: Pool, all: seq<Session>, sessions: map<Key, nat>, dataSessions: map<u32, nat>)

  function Start(base: u32, size: u32): Server {
    Server(Pool(base, size, {}, {}), [], map[], map[])
  }

  datatype Action =
    | Create(key: Key)                          // first authenticated packet of a new client
    | Allocate(i: nat)                          // assignTunnelIP from the pool
    | Reserve(i: nat, ip: Option<u32>)          // assignTunnelIP by address; also its retry after an eviction
    | GiveUp(i: nat)                            // bring-up fails with nothing assigned
    | WrapperFails(i: nat)                      // no data wrapper for the assigned lease
    | Publish(i: nat)                           // under both locks: publish, or find the session closing
    | RollBack(i: nat)                          // give the unpublished lease back
    | Return(i: nat)                            // bring-up returns after publication
    | Stop(i: nat)                              // close stopCh
    | Unroute(i: nat)                           // under both locks: snapshot the lease, remove the routing entry
    | Release(i: nat)                           // give the snapshotted lease back
    | Remove(i: nat)                            // removeSession

  predicate Enabled(s: Server, a: Action) {
    match a
    case Create(_) => true
    case Allocate(i) => i < |s.all| && s.all[i].bringUp.Waiting?
    case Reserve(i, _) => i < |s.all| && s.all[i].bringUp.Waiting?
    case GiveUp(i) => i < |s.all| && s.all[i].bringUp.Waiting?
    case WrapperFails(i) => i < |s.all| && s.all[i].bringUp.Assigned?
    case Publish(i) => i < |s.all| && s.all[i].bringUp.Assigned?
    case RollBack(i) => i < |s.all| && s.all[i].bringUp.RollingBack?
    case Return(i) => i < |s.all| && s.all[i].bringUp.Published?
    case Stop(i) => i < |s.all| && s.all[i].teardown.Running?
    case Unroute(i) => i < |s.all| && s.all[i].teardown.Stopped?
    case Release(i) => i < |s.all| && s.all[i].teardown.Unrouted?
    case Remove(i) => i < |s.all| && s.all[i].teardown.Released?
  }

  /** Session i goes to x; nothing else changes. */
  function With(s: Server, i: nat, x: Session): Server
    requires i < |s.all|
  {
    s.(all := s.all[i := x])
  }

  /** The outcome of an assignment: on success the lease is held, on failure nothing has changed. */
  function Granted(s: Server, i: nat, outcome: (Pool, Result<Lease>)): Server
    requires i < |s.all|
  {
    if outcome.1.Err? then s
    else With(s.(pool := outcome.0), i, s.all[i].(bringUp := Assigned(outcome.1.value)))
  }

  function Step(s: Server, a: Action): Server
    requires Usable(s.pool) && Enabled(s, a)
  {
    match a
    case Create(key) =>
      if key in s.sessions then s
      else s.(all := s.all + [Session(key, Waiting, Running, None)], sessions := s.sessions[key := |s.all|])
    case Allocate(i) => Granted(s, i, IpPool.Allocate(s.pool))
    case Reserve(i, ip) => Granted(s, i, IpPool.Reserve(s.pool, ip))
    case GiveUp(i) => With(s, i, s.all[i].(bringUp := Returned))
    case WrapperFails(i) => With(s, i, s.all[i].(bringUp := RollingBack(s.all[i].bringUp.lease)))
    case Publish(i) =>
      var l := s.all[i].bringUp.lease;
      if !s.all[i].teardown.Running? then With(s, i, s.all[i].(bringUp := RollingBack(l)))
      else With(s.(dataSessions := s.dataSessions[l.peer := i]), i,
                s.all[i].(bringUp := Published, published := Some(l)))
    case RollBack(i) =>
      With(s.(pool := IpPool.Release(s.pool, s.all[i].bringUp.lease)), i, s.all[i].(bringUp := Returned))
    case Return(i) => With(s, i, s.all[i].(bringUp := Returned))
    case Stop(i) => With(s, i, s.all[i].(teardown := Stopped))
    case Unroute(i) =>
      var held := s.all[i].published;
      var routes := if held.Some? && held.value.peer in s.dataSessions && s.dataSessions[held.value.peer] == i
                    then s.dataSessions - {held.value.peer} else s.dataSessions;
      With(s.(dataSessions := routes), i, s.all[i].(teardown := Unrouted(held)))
    case Release(i) =>
      var held := s.all[i].teardown.snapshot;
      With(if held.None? then s else s.(pool := IpPool.Release(s.pool, held.value)), i, s.all[i].(teardown := Released))
    case Remove(i) =>
      var key := s.all[i].key;
      var table := if key in s.sessions && s.sessions[key] == i then s.sessions - {key} else s.sessions;
      With(s.(sessions := table), i, s.all[i].(teardown := Closed))
  }

  // ---- what holds in every reachable state ----

  /** The lease a session holds: before publication in its bring-up, after it until its teardown has given it back. */
  function Held(x: Session): Option<Lease> {
    if x.bringUp.Assigned? || x.bringUp.RollingBack? then Some(x.bringUp.lease)
    else if x.teardown.Released? || x.teardown.Closed? then None
    else x.published
  }

  /** Traffic for the session's peer-id is routed to it. */
  predicate Routed(x: Session) {
    x.published.Some? && (x.teardown.Running? || x.teardown.Stopped?)
  }

  function Offset(s: Server, l: Lease): u32 {
    Sub32(l.ip, s.pool.base)
  }

  predicate Consistent(x: Session) {
    && (x.published.Some? ==> x.bringUp.Published? || x.bringUp.Returned?)
    && (x.teardown.Unrouted? ==> x.teardown.snapshot == x.published)
  }

  /** No two sessions hold the same address or the same peer-id. */
  predicate OneHolder(all: seq<Session>) {
    forall i, j :: 0 <= i < j < |all| && Held(all[i]).Some? && Held(all[j]).Some? ==>
      Held(all[i]).value.ip != Held(all[j]).value.ip && Held(all[i]).value.peer != Held(all[j]).value.peer
  }

  predicate LeasesAreInUse(s: Server) {
    forall i :: 0 <= i < |s.all| && Held(s.all[i]).Some? ==>
      Offset(s, Held(s.all[i]).value) in s.pool.ips && Held(s.all[i]).value.peer in s.pool.peers
  }

  /** In use is exactly what some session holds. */
  ghost predicate PoolIsHeld(s: Server) {
    && LeasesAreInUse(s)
    && (forall o {:trigger OffsetIsHeld(s, o)} :: o in s.pool.ips ==> OffsetIsHeld(s, o))
    && (forall q {:trigger PeerIsHeld(s, q)} :: q in s.pool.peers ==> PeerIsHeld(s, q))
  }

  ghost predicate OffsetIsHeld(s: Server, o: u32) {
    exists i :: HoldsOffset(s, i, o)
  }

  ghost predicate PeerIsHeld(s: Server, q: u32) {
    exists i :: HoldsPeer(s, i, q)
  }

  predicate HoldsOffset(s: Server, i: nat, o: u32) {
    i < |s.all| && Held(s.all[i]).Some? && Offset(s, Held(s.all[i]).value) == o
  }

  predicate HoldsPeer(s: Server, i: nat, q: u32) {
    i < |s.all| && Held(s.all[i]).Some? && Held(s.all[i]).value.peer == q
  }

  /** The routing table names exactly the routed sessions, each under the peer-id it holds. */
  predicate RoutesAreHeld(s: Server) {
    && (forall q :: q in s.dataSessions ==>
          && s.dataSessions[q] < |s.all|
          && Routed(s.all[s.dataSessions[q]])
          && s.all[s.dataSessions[q]].published.value.peer == q)
    && (forall i :: 0 <= i < |s.all| && Routed(s.all[i]) ==>
          s.all[i].published.value.peer in s.dataSessions && s.dataSessions[s.all[i].published.value.peer] == i)
  }

  /** The session table names exactly the sessions not yet removed. */
  predicate TableIsLive(s: Server) {
    && (forall k :: k in s.sessions ==>
          s.sessions[k] < |s.all| && s.all[s.sessions[k]].key == k && !s.all[s.sessions[k]].teardown.Closed?)
    && (forall i :: 0 <= i < |s.all| && !s.all[i].teardown.Closed? ==>
          s.all[i].key in s.sessions && s.sessions[s.all[i].key] == i)
  }

  ghost predicate Inv(s: Server) {
    && Usable(s.pool)
    && (forall i :: 0 <= i < |s.all| ==> Consistent(s.all[i]))
    && OneHolder(s.all)
    && PoolIsHeld(s)
    && RoutesAreHeld(s)
    && TableIsLive(s)
  }
}
