/** Over every interleaving of bring-up and teardown: one holder per address and peer-id, routing that names the holder,
    and nothing left behind when all sessions are gone. */
module LifecycleSafety {
  import opened Words
  import opened IpPool
  import opened Lifecycle

  // ---- the parts of the invariant a step leaves alone ----

  lemma HoldersStay(s: Server, s': Server)
    requires OneHolder(s.all) && PoolIsHeld(s) && s'.pool == s.pool && |s.all| <= |s'.all|
    requires forall j :: 0 <= j < |s.all| ==> Held(s'.all[j]) == Held(s.all[j])
    requires forall j :: |s.all| <= j < |s'.all| ==> Held(s'.all[j]).None?
    ensures OneHolder(s'.all) && PoolIsHeld(s')
  {
    hide Held;
    forall o | o in s'.pool.ips ensures OffsetIsHeld(s', o) {
      assert OffsetIsHeld(s, o);
      var j :| HoldsOffset(s, j, o);
      assert HoldsOffset(s', j, o);
    }
    forall q | q in s'.pool.peers ensures PeerIsHeld(s', q) {
      assert PeerIsHeld(s, q);
      var j :| HoldsPeer(s, j, q);
      assert HoldsPeer(s', j, q);
    }
  }

  lemma RoutesStay(s: Server, s': Server)
    requires RoutesAreHeld(s) && s'.dataSessions == s.dataSessions && |s.all| <= |s'.all|
    requires forall j :: 0 <= j < |s.all| ==>
      Routed(s'.all[j]) == Routed(s.all[j]) && (Routed(s.all[j]) ==> s'.all[j].published == s.all[j].published)
    requires forall j :: |s.all| <= j < |s'.all| ==> !Routed(s'.all[j])
    ensures RoutesAreHeld(s')
  {
  }

  lemma TableStays(s: Server, s': Server)
    requires TableIsLive(s) && s'.sessions == s.sessions && |s.all| == |s'.all|
    requires forall j :: 0 <= j < |s.all| ==>
      s'.all[j].key == s.all[j].key && s'.all[j].teardown.Closed? == s.all[j].teardown.Closed?
    ensures TableIsLive(s')
  {
  }

  // ---- the steps ----

  /** A change of phase that changes neither what is held, nor what is routed, nor whether the session is in the table.
      */
  lemma PhaseKeeps(s: Server, i: nat, x: Session)
    requires Inv(s) && i < |s.all|
    requires Consistent(x) && Held(x) == Held(s.all[i])
    requires x.key == s.all[i].key && x.published == s.all[i].published && Routed(x) == Routed(s.all[i])
    requires x.teardown.Closed? == s.all[i].teardown.Closed?
    ensures Inv(With(s, i, x))
  {
    hide Held, Routed, Consistent, OneHolder, PoolIsHeld, RoutesAreHeld, TableIsLive;
    var s' := With(s, i, x);
    HoldersStay(s, s');
    RoutesStay(s, s');
    TableStays(s, s');
  }

  lemma GrantKeeps(s: Server, i: nat, pool: Pool, l: Lease)
    requires Inv(s) && i < |s.all| && s.all[i].bringUp.Waiting?
    requires Grants(s.pool, pool, l)
    ensures Inv(With(s.(pool := pool), i, s.all[i].(bringUp := Assigned(l))))
  {
    hide OneHolder, PoolIsHeld, RoutesAreHeld, TableIsLive;
    var x := s.all[i].(bringUp := Assigned(l));
    var s' := With(s.(pool := pool), i, x);
    assert Held(s.all[i]).None? && Held(x) == Some(l);
    GrantHolds(s, s', i, l);
    RoutesStay(s, s');
    TableStays(s, s');
  }

  lemma GrantHolds(s: Server, s': Server, i: nat, l: Lease)
    requires OneHolder(s.all) && PoolIsHeld(s) && i < |s.all| == |s'.all|
    requires Grants(s.pool, s'.pool, l) && Held(s.all[i]).None? && Held(s'.all[i]) == Some(l)
    requires forall j :: 0 <= j < |s.all| && j != i ==> Held(s'.all[j]) == Held(s.all[j])
    ensures OneHolder(s'.all) && PoolIsHeld(s')
  {
    hide Held;
    assert HoldsOffset(s', i, Offset(s, l)) && HoldsPeer(s', i, l.peer);
    forall o | o in s.pool.ips ensures OffsetIsHeld(s', o) {
      assert OffsetIsHeld(s, o);
      var j :| HoldsOffset(s, j, o);
      assert HoldsOffset(s', j, o);
    }
    forall q | q in s.pool.peers ensures PeerIsHeld(s', q) {
      assert PeerIsHeld(s, q);
      var j :| HoldsPeer(s, j, q);
      assert HoldsPeer(s', j, q);
    }
  }

  /** Session i gives its lease back and holds nothing any more. */
  lemma GiveBackKeeps(s: Server, i: nat, x: Session, l: Lease)
    requires Inv(s) && i < |s.all| && Held(s.all[i]) == Some(l) && !Routed(s.all[i])
    requires Consistent(x) && Held(x).None? && !Routed(x)
    requires x.key == s.all[i].key && x.teardown.Closed? == s.all[i].teardown.Closed?
    ensures Inv(With(s.(pool := IpPool.Release(s.pool, l)), i, x))
  {
    hide Held, Routed, Consistent, OneHolder, PoolIsHeld, RoutesAreHeld, TableIsLive;
    var s' := With(s.(pool := IpPool.Release(s.pool, l)), i, x);
    GiveBackHolds(s, s', i, l);
    RoutesStay(s, s');
    TableStays(s, s');
  }

  lemma GiveBackHolds(s: Server, s': Server, i: nat, l: Lease)
    requires OneHolder(s.all) && PoolIsHeld(s) && i < |s.all| == |s'.all|
    requires s'.pool == IpPool.Release(s.pool, l) && Held(s.all[i]) == Some(l) && Held(s'.all[i]).None?
    requires forall j :: 0 <= j < |s.all| && j != i ==> Held(s'.all[j]) == Held(s.all[j])
    ensures OneHolder(s'.all) && PoolIsHeld(s')
  {
    hide Held, Sub32;
    forall j | 0 <= j < |s'.all| && Held(s'.all[j]).Some?
      ensures Offset(s', Held(s'.all[j]).value) in s'.pool.ips && Held(s'.all[j]).value.peer in s'.pool.peers
    {
      OtherLeaseStays(s, i, j, l);
    }
    GiveBackCovers(s, s', i, l);
  }

  lemma OtherLeaseStays(s: Server, i: nat, j: nat, l: Lease)
    requires OneHolder(s.all) && LeasesAreInUse(s) && i < |s.all| && j < |s.all| && i != j
    requires Held(s.all[i]) == Some(l) && Held(s.all[j]).Some?
    ensures var m := Held(s.all[j]).value;
            Offset(s, m) in IpPool.Release(s.pool, l).ips && m.peer in IpPool.Release(s.pool, l).peers
  {
    hide Held, Sub32;
    var m := Held(s.all[j]).value;
    assert m.ip != l.ip && m.peer != l.peer;
    SubIsInjective(m.ip, l.ip, s.pool.base);
  }

  lemma GiveBackCovers(s: Server, s': Server, i: nat, l: Lease)
    requires PoolIsHeld(s) && i < |s.all| == |s'.all|
    requires s'.pool == IpPool.Release(s.pool, l) && Held(s.all[i]) == Some(l)
    requires forall j :: 0 <= j < |s.all| && j != i ==> Held(s'.all[j]) == Held(s.all[j])
    ensures forall o :: o in s'.pool.ips ==> OffsetIsHeld(s', o)
    ensures forall q :: q in s'.pool.peers ==> PeerIsHeld(s', q)
  {
    hide Held, Sub32;
    forall o | o in s'.pool.ips ensures OffsetIsHeld(s', o) {
      assert OffsetIsHeld(s, o);
      var j :| HoldsOffset(s, j, o);
      assert HoldsOffset(s', j, o);
    }
    forall q | q in s'.pool.peers ensures PeerIsHeld(s', q) {
      assert PeerIsHeld(s, q);
      var j :| HoldsPeer(s, j, q);
      assert HoldsPeer(s', j, q);
    }
  }

  lemma SubIsInjective(a: u32, b: u32, base: u32)
    requires a != b
    ensures Sub32(a, base) != Sub32(b, base)
  {
  }

  lemma PublishKeeps(s: Server, i: nat)
    requires Inv(s) && i < |s.all| && s.all[i].bringUp.Assigned? && s.all[i].teardown.Running?
    ensures Inv(Step(s, Publish(i)))
  {
    hide OneHolder, PoolIsHeld, RoutesAreHeld, TableIsLive;
    var s' := Step(s, Publish(i));
    HoldersStay(s, s');
    TableStays(s, s');
    PublishRoutes(s, i);
  }

  lemma PublishRoutes(s: Server, i: nat)
    requires Inv(s) && i < |s.all| && s.all[i].bringUp.Assigned? && s.all[i].teardown.Running?
    ensures RoutesAreHeld(Step(s, Publish(i)))
  {
    hide PoolIsHeld, TableIsLive;
    var l := s.all[i].bringUp.lease;
    assert Held(s.all[i]) == Some(l) && Consistent(s.all[i]);
    forall q | q in s.dataSessions ensures q != l.peer && s.dataSessions[q] != i {
      var j := s.dataSessions[q];
      assert Consistent(s.all[j]) && Held(s.all[j]) == s.all[j].published;
    }
  }

  lemma UnrouteKeeps(s: Server, i: nat)
    requires Inv(s) && i < |s.all| && s.all[i].teardown.Stopped?
    ensures Inv(Step(s, Unroute(i)))
  {
    hide OneHolder, PoolIsHeld, RoutesAreHeld, TableIsLive;
    var s' := Step(s, Unroute(i));
    HoldersStay(s, s');
    TableStays(s, s');
    UnrouteRoutes(s, i);
  }

  lemma UnrouteRoutes(s: Server, i: nat)
    requires Usable(s.pool) && RoutesAreHeld(s) && i < |s.all| && s.all[i].teardown.Stopped?
    ensures RoutesAreHeld(Step(s, Unroute(i)))
  {
    var s' := Step(s, Unroute(i));
    forall q | q in s'.dataSessions ensures s'.dataSessions[q] != i {
      assert Routed(s.all[s.dataSessions[q]]);
    }
  }

  lemma RemoveKeeps(s: Server, i: nat)
    requires Inv(s) && i < |s.all| && s.all[i].teardown.Released?
    ensures Inv(Step(s, Remove(i)))
  {
    hide OneHolder, PoolIsHeld, RoutesAreHeld, TableIsLive;
    var s' := Step(s, Remove(i));
    HoldersStay(s, s');
    RoutesStay(s, s');
    RemoveTable(s, i);
  }

  lemma RemoveTable(s: Server, i: nat)
    requires Usable(s.pool) && TableIsLive(s) && i < |s.all| && s.all[i].teardown.Released?
    ensures TableIsLive(Step(s, Remove(i)))
  {
  }

  lemma CreateKeeps(s: Server, key: Key)
    requires Inv(s)
    ensures Inv(Step(s, Create(key)))
  {
    hide OneHolder, PoolIsHeld, RoutesAreHeld;
    var s' := Step(s, Create(key));
    HoldersStay(s, s');
    RoutesStay(s, s');
  }

  lemma StepKeeps(s: Server, a: Action)
    requires Inv(s) && Enabled(s, a)
    ensures Inv(Step(s, a))
  {
    hide OneHolder, PoolIsHeld, RoutesAreHeld, TableIsLive, IpPool.Allocate, IpPool.Reserve;
    match a
    case Create(key) => CreateKeeps(s, key);
    case Allocate(i) =>
      AllocateExactly(s.pool);
      var (pool, r) := IpPool.Allocate(s.pool);
      if r.Ok? {
        GrantKeeps(s, i, pool, r.value);
      }
    case Reserve(i, ip) =>
      ReserveExactly(s.pool, ip);
      var (pool, r) := IpPool.Reserve(s.pool, ip);
      if r.Ok? {
        GrantKeeps(s, i, pool, r.value);
      }
    case GiveUp(i) => PhaseKeeps(s, i, s.all[i].(bringUp := Returned));
    case WrapperFails(i) => PhaseKeeps(s, i, s.all[i].(bringUp := RollingBack(s.all[i].bringUp.lease)));
    case Publish(i) =>
      if s.all[i].teardown.Running? {
        PublishKeeps(s, i);
      } else {
        PhaseKeeps(s, i, s.all[i].(bringUp := RollingBack(s.all[i].bringUp.lease)));
      }
    case RollBack(i) => GiveBackKeeps(s, i, s.all[i].(bringUp := Returned), s.all[i].bringUp.lease);
    case Return(i) => PhaseKeeps(s, i, s.all[i].(bringUp := Returned));
    case Stop(i) => PhaseKeeps(s, i, s.all[i].(teardown := Stopped));
    case Unroute(i) => UnrouteKeeps(s, i);
    case Release(i) =>
      if s.all[i].teardown.snapshot.None? {
        PhaseKeeps(s, i, s.all[i].(teardown := Released));
      } else {
        GiveBackKeeps(s, i, s.all[i].(teardown := Released), s.all[i].teardown.snapshot.value);
      }
    case Remove(i) => RemoveKeeps(s, i);
  }

  // ---- every run ----

  ghost predicate IsRun(run: seq<Server>, actions: seq<Action>) {
    && |run| == |actions| + 1
    && (exists base: u32, size: u32 :: size >= 4 && run[0] == Start(base, size))
    && forall k :: 0 <= k < |actions| ==>
         Usable(run[k].pool) && Enabled(run[k], actions[k]) && run[k + 1] == Step(run[k], actions[k])
  }

  lemma {:induction false} RunKeeps(run: seq<Server>, actions: seq<Action>, k: nat)
    requires IsRun(run, actions) && k < |run|
    ensures Inv(run[k])
  {
    hide Step;
    if k > 0 {
      RunKeeps(run, actions, k - 1);
      StepKeeps(run[k - 1], actions[k - 1]);
    }
  }

  /** In every reachable state no address and no peer-id has two holders, and a routing entry names the session that
      holds that peer-id. */
  lemma HoldersAreUnique(run: seq<Server>, actions: seq<Action>, k: nat)
    requires IsRun(run, actions) && k < |run|
    ensures OneHolder(run[k].all)
    ensures forall q :: q in run[k].dataSessions ==> HoldsPeer(run[k], run[k].dataSessions[q], q)
  {
    RunKeeps(run, actions, k);
    forall q | q in run[k].dataSessions ensures HoldsPeer(run[k], run[k].dataSessions[q], q) {
      var i := run[k].dataSessions[q];
      assert Consistent(run[k].all[i]);
    }
  }

  /** Once every session is closed and its bring-up has returned, the pool, the routing table and the session table are
      empty again. */
  lemma NothingLeaks(run: seq<Server>, actions: seq<Action>, k: nat)
    requires IsRun(run, actions) && k < |run|
    requires forall i :: 0 <= i < |run[k].all| ==> run[k].all[i].teardown.Closed? && run[k].all[i].bringUp.Returned?
    ensures run[k].pool.ips == {} && run[k].pool.peers == {}
    ensures run[k].dataSessions == map[] && run[k].sessions == map[]
  {
    RunKeeps(run, actions, k);
    var s := run[k];
    forall o ensures o !in s.pool.ips {
      assert !OffsetIsHeld(s, o);
    }
    forall q ensures q !in s.pool.peers {
      assert !PeerIsHeld(s, q);
    }
    assert forall q :: q !in s.dataSessions;
    assert forall key :: key !in s.sessions;
  }

  // ---- what a session can count on ----

  /** Publishing a running session makes the lease it was assigned its own and routes its peer-id to it; publishing one
      that is closing gives the lease back instead. */
  lemma PublishExactly(s: Server, i: nat)
    requires Inv(s) && Enabled(s, Publish(i))
    ensures var s', l := Step(s, Publish(i)), s.all[i].bringUp.lease;
            if s.all[i].teardown.Running? then
              s'.all[i].published == Some(l) && l.peer in s'.dataSessions && s'.dataSessions[l.peer] == i
            else s'.all[i].bringUp == RollingBack(l) && s'.dataSessions == s.dataSessions
  {
  }

  /** From its publication until its teardown removes the entry, and whatever happens to other sessions in between, a
      session's peer-id is routed to it and its lease is its own. */
  lemma {:induction false} PublishedStaysRouted(run: seq<Server>, actions: seq<Action>, j: nat, k: nat, i: nat)
    requires IsRun(run, actions) && j < k < |run| && actions[j] == Publish(i)
    requires i < |run[j].all| && run[j].all[i].bringUp.Assigned? && run[j].all[i].teardown.Running?
    requires forall m :: j < m < k ==> actions[m] != Unroute(i)
    ensures var l := run[j].all[i].bringUp.lease;
            && i < |run[k].all| && run[k].all[i].published == Some(l) && Routed(run[k].all[i])
            && l.peer in run[k].dataSessions && run[k].dataSessions[l.peer] == i
            && Offset(run[k], l) in run[k].pool.ips && l.peer in run[k].pool.peers
            && !run[k].all[i].bringUp.Assigned?
    decreases k
  {
    hide Step, Inv, Routed;
    if j < k - 1 {
      PublishedStaysRouted(run, actions, j, k - 1, i);
      RoutedStays(run[k - 1], actions[k - 1], i);
    } else {
      RunKeeps(run, actions, j);
      PublishRoutesOne(run[j], i);
    }
    RunKeeps(run, actions, k);
    RoutedIsServed(run[k], i);
  }

  lemma PublishRoutesOne(s: Server, i: nat)
    requires Inv(s) && Enabled(s, Publish(i)) && s.all[i].teardown.Running?
    ensures var s' := Step(s, Publish(i));
            i < |s'.all| && s'.all[i].published == Some(s.all[i].bringUp.lease) && Routed(s'.all[i])
  {
  }

  lemma RoutedStays(s: Server, a: Action, i: nat)
    requires Usable(s.pool) && Enabled(s, a) && i < |s.all| && Routed(s.all[i]) && a != Unroute(i)
    requires a == Publish(i) ==> !s.all[i].bringUp.Assigned?
    ensures i < |Step(s, a).all| && Step(s, a).all[i].published == s.all[i].published && Routed(Step(s, a).all[i])
  {
    hide IpPool.Allocate, IpPool.Reserve, IpPool.Release;
  }

  lemma RoutedIsServed(s: Server, i: nat)
    requires Inv(s) && i < |s.all| && Routed(s.all[i])
    ensures var l := s.all[i].published.value;
            && l.peer in s.dataSessions && s.dataSessions[l.peer] == i
            && Offset(s, l) in s.pool.ips && l.peer in s.pool.peers
            && !s.all[i].bringUp.Assigned?
  {
    hide TableIsLive, OneHolder;
    assert Consistent(s.all[i]) && Held(s.all[i]) == s.all[i].published;
  }

  /** A client's first packet under a key not in the table makes a session, which the table names until it is
      removed. */
  lemma {:induction false} CreatedStaysInTable(run: seq<Server>, actions: seq<Action>, j: nat, k: nat, key: Key)
    requires IsRun(run, actions) && j < k < |run| && actions[j] == Create(key) && key !in run[j].sessions
    requires forall m :: j < m < k ==> actions[m] != Remove(|run[j].all|)
    ensures var i := |run[j].all|;
            && i < |run[k].all| && run[k].all[i].key == key && !run[k].all[i].teardown.Closed?
            && key in run[k].sessions && run[k].sessions[key] == i
    decreases k
  {
    hide Step, Inv;
    var i := |run[j].all|;
    if j < k - 1 {
      CreatedStaysInTable(run, actions, j, k - 1, key);
      OpenStays(run[k - 1], actions[k - 1], i);
    } else {
      CreateAdds(run[j], key);
    }
    RunKeeps(run, actions, k);
    OpenIsInTable(run[k], i);
  }

  lemma CreateAdds(s: Server, key: Key)
    requires Usable(s.pool) && key !in s.sessions
    ensures Step(s, Create(key)).all == s.all + [Session(key, Waiting, Running, None)]
  {
  }

  lemma OpenStays(s: Server, a: Action, i: nat)
    requires Usable(s.pool) && Enabled(s, a) && i < |s.all| && !s.all[i].teardown.Closed? && a != Remove(i)
    ensures var s' := Step(s, a); i < |s'.all| && s'.all[i].key == s.all[i].key && !s'.all[i].teardown.Closed?
  {
    hide IpPool.Allocate, IpPool.Reserve, IpPool.Release;
  }

  lemma OpenIsInTable(s: Server, i: nat)
    requires Inv(s) && i < |s.all| && !s.all[i].teardown.Closed?
    ensures s.all[i].key in s.sessions && s.sessions[s.all[i].key] == i
  {
    hide OneHolder, PoolIsHeld, RoutesAreHeld;
  }

  /** The four steps of a teardown, in a row. */
  function TornDown(s: Server, i: nat): Server
    requires Usable(s.pool) && i < |s.all| && s.all[i].teardown.Running?
  {
    var s1 := Step(s, Stop(i));
    var s2 := Step(s1, Unroute(i));
    var s3 := Step(s2, Release(i));
    Step(s3, Remove(i))
  }

  /** Each step of a teardown enables the next; at the end a published session has given its lease back, and neither
      routing nor session table names it. */
  lemma TeardownFrees(s: Server, i: nat)
    requires Inv(s) && i < |s.all| && s.all[i].teardown.Running? && s.all[i].published.Some?
    ensures var s', l := TornDown(s, i), s.all[i].published.value;
            && i < |s'.all| && s'.all[i].teardown.Closed?
            && Offset(s, l) !in s'.pool.ips && l.peer !in s'.pool.peers
            && l.peer !in s'.dataSessions && s.all[i].key !in s'.sessions
  {
    assert Routed(s.all[i]);
    RoutedIsServed(s, i);
    OpenIsInTable(s, i);
  }

  /** A bring-up that asks for any address gets a free lease exactly if an address and a peer-id are free; one that
      asks by name exactly if that address is a free host address and a peer-id is free. Otherwise nothing changes. */
  lemma AssignsIff(s: Server, i: nat, ip: Option<u32>)
    requires Inv(s) && Enabled(s, Allocate(i))
    ensures var s1, s2 := Step(s, Allocate(i)), Step(s, Reserve(i, ip));
            var peerFree := exists q: u32 :: q <= MAX_PEER_ID && q !in s.pool.peers;
            && (if (exists o: u32 :: 2 <= o < s.pool.size - 1 && o !in s.pool.ips) && peerFree then
                  s1.all[i].bringUp.Assigned? && Grants(s.pool, s1.pool, s1.all[i].bringUp.lease)
                else s1 == s)
            && (if Assignable(s.pool, ip) && ip.value - s.pool.base !in s.pool.ips && peerFree then
                  && s2.all[i].bringUp.Assigned? && s2.all[i].bringUp.lease.ip == ip.value
                  && Grants(s.pool, s2.pool, s2.all[i].bringUp.lease)
                else s2 == s)
  {
    hide IpPool.Allocate, IpPool.Reserve, Grants, Assignable, PoolIsHeld, RoutesAreHeld, TableIsLive, OneHolder;
    AllocateExactly(s.pool);
    ReserveExactly(s.pool, ip);
  }
}
