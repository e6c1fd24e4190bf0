/** Over every interleaving: each connection gives each budget back exactly once, the counters are exact when no release
    is under way, the caps hold at all times, and a closed listener keeps no connection. */
module TcpDemuxSafety {
  import Words
  import opened TcpDemux

  // ---- counting ----

  lemma {:induction false} CountSame(a: seq<Conn>, b: seq<Conn>, p: Conn -> bool)
    requires |a| == |b| && forall i :: 0 <= i < |a| ==> p(a[i]) == p(b[i])
    ensures Count(a, p) == Count(b, p)
  {
    if a != [] {
      CountSame(a[..|a| - 1], b[..|b| - 1], p);
    }
  }

  lemma {:induction false} CountUpdate(a: seq<Conn>, i: nat, x: Conn, p: Conn -> bool)
    requires i < |a|
    ensures Count(a[i := x], p) + (if p(a[i]) then 1 else 0) == Count(a, p) + (if p(x) then 1 else 0)
  {
    var n := |a| - 1;
    if i == n {
      assert a[i := x][..n] == a[..n];
    } else {
      CountUpdate(a[..n], i, x, p);
      assert a[i := x][..n] == a[..n][i := x];
    }
  }

  lemma CountAppend(a: seq<Conn>, x: Conn, p: Conn -> bool)
    ensures Count(a + [x], p) == Count(a, p) + (if p(x) then 1 else 0)
  {
    assert (a + [x])[..|a|] == a;
  }

  lemma {:induction false} CountImplies(a: seq<Conn>, p: Conn -> bool, q: Conn -> bool)
    requires forall i :: 0 <= i < |a| && p(a[i]) ==> q(a[i])
    ensures Count(a, p) <= Count(a, q)
  {
    if a != [] {
      CountImplies(a[..|a| - 1], p, q);
    }
  }

  // ---- the counters ----

  /** Neither flags nor counting tasks change. */
  lemma CountersStay(s: Demux, s': Demux)
    requires CountersOk(s) && s'.halfOpen == s.halfOpen && s'.liveConns == s.liveConns && |s'.conns| == |s.conns|
    requires forall c :: 0 <= c < |s.conns| ==>
      s'.conns[c].ip == s.conns[c].ip && s'.conns[c].half == s.conns[c].half && s'.conns[c].live == s.conns[c].live
    requires forall ip: nat ::
      && s'.tasks[DropHalf(ip)] == s.tasks[DropHalf(ip)] && s'.tasks[DropLive(ip)] == s.tasks[DropLive(ip)]
      && s'.tasks[Create(ip)] == s.tasks[Create(ip)]
    ensures CountersOk(s')
  {
    forall ip: nat
      ensures Count(s'.conns, CountsHalf(ip)) == Count(s.conns, CountsHalf(ip))
      ensures Count(s'.conns, CountsLive(ip)) == Count(s.conns, CountsLive(ip))
    {
      CountSame(s.conns, s'.conns, CountsHalf(ip));
      CountSame(s.conns, s'.conns, CountsLive(ip));
    }
  }

  /** Connections as they were, and the same removal tasks for them. */
  lemma ConnsStay(s: Demux, s': Demux)
    requires ConnsOk(s) && s'.conns == s.conns
    requires forall c: nat ::
      (TakeHalf(c) in s'.tasks <==> TakeHalf(c) in s.tasks) && (TakeLive(c) in s'.tasks <==> TakeLive(c) in s.tasks)
    ensures ConnsOk(s')
  {
  }

  lemma TableStays(s: Demux, s': Demux)
    requires TableOk(s) && s'.table == s.table && |s.conns| <= |s'.conns|
    requires forall c :: 0 <= c < |s.conns| ==>
      && s'.conns[c].key == s.conns[c].key
      && (s'.conns[c].phase.Closed? ==> s.conns[c].phase.Closed? || Unmap(c) in s'.tasks)
    requires forall c: nat :: Unmap(c) in s.tasks ==> Unmap(c) in s'.tasks
    ensures TableOk(s')
  {
  }

  lemma TasksStay(s: Demux, s': Demux)
    requires TasksOk(s) && |s.conns| == |s'.conns| && s'.listeners == s.listeners
    requires forall c :: 0 <= c < |s.conns| ==> s'.conns[c].listener == s.conns[c].listener
    requires forall task :: task in s'.tasks ==>
      task in s.tasks || ConnOf(task).None? || ConnOf(task).value < |s.conns|
    ensures TasksOk(s')
  {
  }

  // ---- SYNs and new connections ----

  lemma SynCounts(s: Demux, s': Demux, ip: nat)
    requires CountersOk(s) && Get(s.halfOpen, ip) < MAX_HALF_OPEN && Get(s.liveConns, ip) < MAX_LIVE
    requires s' == s.(halfOpen := s.halfOpen[ip := Get(s.halfOpen, ip) + 1],
                      liveConns := s.liveConns[ip := Get(s.liveConns, ip) + 1],
                      tasks := s.tasks + multiset{Create(ip)})
    ensures CountersOk(s')
  {
    hide Count;
  }

  lemma SynKeeps(s: Demux, s': Demux, ip: nat)
    requires Inv(s) && Get(s.halfOpen, ip) < MAX_HALF_OPEN && Get(s.liveConns, ip) < MAX_LIVE
    requires s' == s.(halfOpen := s.halfOpen[ip := Get(s.halfOpen, ip) + 1],
                      liveConns := s.liveConns[ip := Get(s.liveConns, ip) + 1],
                      tasks := s.tasks + multiset{Create(ip)})
    ensures Inv(s')
  {
    hide ConnsOk, TableOk, TasksOk, CountersOk;
    SynCounts(s, s', ip);
    TasksStay(s, s');
    ConnsStay(s, s');
    TableStays(s, s');
  }

  lemma MakeConnCounts(s: Demux, s': Demux, x: Conn)
    requires CountersOk(s) && Create(x.ip) in s.tasks && x.half && x.live
    requires s' == s.(conns := s.conns + [x], table := s'.table, tasks := s.tasks - multiset{Create(x.ip)})
    ensures CountersOk(s')
  {
    forall p: nat
      ensures Count(s'.conns, CountsHalf(p)) == Count(s.conns, CountsHalf(p)) + (if p == x.ip then 1 else 0)
      ensures Count(s'.conns, CountsLive(p)) == Count(s.conns, CountsLive(p)) + (if p == x.ip then 1 else 0)
    {
      CountAppend(s.conns, x, CountsHalf(p));
      CountAppend(s.conns, x, CountsLive(p));
    }
  }

  lemma MakeConnRest(s: Demux, s': Demux, x: Conn)
    requires TasksOk(s) && ConnsOk(s) && x.listener < |s.listeners|
    requires x == Conn(x.ip, x.key, x.listener, HalfOpen, true, true, 0, 0)
    requires s' == s.(conns := s.conns + [x], table := s'.table, tasks := s.tasks - multiset{Create(x.ip)})
    ensures TasksOk(s') && ConnsOk(s')
  {
    forall i | 0 <= i < |s.conns| ensures ConnOk(s', i, s'.conns[i]) {
      assert ConnOk(s, i, s.conns[i]);
    }
  }

  lemma MakeConnTable(s: Demux, s': Demux, x: Conn)
    requires TableOk(s) && !x.phase.Closed?
    requires s' == s.(conns := s.conns + [x],
                      table := s.table[x.key := |s.conns|],
                      tasks := s.tasks - multiset{Create(x.ip)})
    ensures TableOk(s')
  {
  }

  lemma MakeConnKeeps(s: Demux, ip: nat, key: nat, l: nat)
    requires Inv(s) && Create(ip) in s.tasks && l < |s.listeners|
    ensures Inv(s.(conns := s.conns + [Conn(ip, key, l, HalfOpen, true, true, 0, 0)],
                   table := s.table[key := |s.conns|],
                   tasks := s.tasks - multiset{Create(ip)}))
  {
    hide CountersOk, TasksOk, ConnsOk, TableOk;
    var x := Conn(ip, key, l, HalfOpen, true, true, 0, 0);
    var s' := s.(conns := s.conns + [x], table := s.table[key := |s.conns|], tasks := s.tasks - multiset{Create(ip)});
    MakeConnCounts(s, s', x);
    MakeConnRest(s, s', x);
    MakeConnTable(s, s', x);
  }

  // ---- phase changes ----

  /** A later phase, with the releases it calls for. */
  lemma PhaseConns(s: Demux, s': Demux, c: nat, phase: Phase)
    requires ConnsOk(s) && c < |s.conns| && s'.conns == s.conns[c := s.conns[c].(phase := phase)]
    requires phase == Closed || (phase == Open && s.conns[c].phase.HalfOpen?)
    requires forall i: nat :: i != c ==>
      (TakeHalf(i) in s'.tasks <==> TakeHalf(i) in s.tasks) && (TakeLive(i) in s'.tasks <==> TakeLive(i) in s.tasks)
    requires TakeHalf(c) in s'.tasks && (TakeLive(c) in s'.tasks <==> phase == Closed || TakeLive(c) in s.tasks)
    ensures ConnsOk(s')
  {
    forall i | 0 <= i < |s'.conns| ensures ConnOk(s', i, s'.conns[i]) {
      assert ConnOk(s, i, s.conns[i]);
    }
  }

  lemma EstablishKeeps(s: Demux, c: nat)
    requires Inv(s) && c < |s.conns| && s.conns[c].phase.HalfOpen?
    ensures Inv(WithConn(s, c, s.conns[c].(phase := Open)).(tasks := s.tasks + multiset{TakeHalf(c), Enqueue(c)}))
  {
    hide CountersOk, TasksOk, ConnsOk, TableOk;
    var s' := WithConn(s, c, s.conns[c].(phase := Open)).(tasks := s.tasks + multiset{TakeHalf(c), Enqueue(c)});
    CountersStay(s, s');
    TasksStay(s, s');
    PhaseConns(s, s', c, Open);
    TableStays(s, s');
  }

  lemma ShutKeeps(s: Demux, c: nat)
    requires Inv(s) && c < |s.conns|
    ensures Inv(Shut(s, c))
  {
    hide CountersOk, TasksOk, ConnsOk, TableOk;
    CountersStay(s, Shut(s, c));
    TasksStay(s, Shut(s, c));
    PhaseConns(s, Shut(s, c), c, Closed);
    TableStays(s, Shut(s, c));
  }

  // ---- releases ----

  lemma TakeHalfCounts(s: Demux, c: nat)
    requires CountersOk(s) && c < |s.conns| && s.conns[c].half
    ensures CountersOk(WithConn(s, c, s.conns[c].(half := false, halfReleases := 1))
                       .(tasks := s.tasks - multiset{TakeHalf(c)} + multiset{DropHalf(s.conns[c].ip)}))
  {
    var x, ip := s.conns[c].(half := false, halfReleases := 1), s.conns[c].ip;
    forall p: nat
      ensures Count(s.conns[c := x], CountsHalf(p)) == Count(s.conns, CountsHalf(p)) - (if p == ip then 1 else 0)
      ensures Count(s.conns[c := x], CountsLive(p)) == Count(s.conns, CountsLive(p))
    {
      CountUpdate(s.conns, c, x, CountsHalf(p));
      CountUpdate(s.conns, c, x, CountsLive(p));
    }
  }

  lemma TakeLiveCounts(s: Demux, c: nat)
    requires CountersOk(s) && c < |s.conns| && s.conns[c].live
    ensures CountersOk(WithConn(s, c, s.conns[c].(live := false, liveReleases := 1))
                       .(tasks := s.tasks - multiset{TakeLive(c)} + multiset{DropLive(s.conns[c].ip)}))
  {
    var x, ip := s.conns[c].(live := false, liveReleases := 1), s.conns[c].ip;
    forall p: nat
      ensures Count(s.conns[c := x], CountsHalf(p)) == Count(s.conns, CountsHalf(p))
      ensures Count(s.conns[c := x], CountsLive(p)) == Count(s.conns, CountsLive(p)) - (if p == ip then 1 else 0)
    {
      CountUpdate(s.conns, c, x, CountsHalf(p));
      CountUpdate(s.conns, c, x, CountsLive(p));
    }
  }

  lemma ReleaseFacts(s: Demux, task: Task, c: nat)
    requires TasksOk(s) && ConnsOk(s) && task in s.tasks && ConnOf(task) == Words.Some(c)
    ensures c < |s.conns|
    ensures s.conns[c].half ==> s.conns[c].halfReleases == 0
    ensures s.conns[c].live ==> s.conns[c].liveReleases == 0
  {
    assert ConnOk(s, c, s.conns[c]);
  }

  lemma TakeHalfConns(s: Demux, c: nat)
    requires Inv(s) && TakeHalf(c) in s.tasks
    ensures ConnsOk(RunTask(s, TakeHalf(c)))
  {
    hide CountersOk, TableOk;
    var s' := RunTask(s, TakeHalf(c));
    forall i | 0 <= i < |s'.conns| ensures ConnOk(s', i, s'.conns[i]) {
      assert ConnOk(s, i, s.conns[i]);
    }
  }

  lemma TakeHalfIs(s: Demux, c: nat)
    requires TasksOk(s) && TakeHalf(c) in s.tasks
    ensures c < |s.conns|
    ensures RunTask(s, TakeHalf(c)) ==
      if !s.conns[c].half then s.(tasks := s.tasks - multiset{TakeHalf(c)})
      else WithConn(s, c, s.conns[c].(half := false, halfReleases := s.conns[c].halfReleases + 1))
           .(tasks := s.tasks - multiset{TakeHalf(c)} + multiset{DropHalf(s.conns[c].ip)})
  {
  }

  lemma TakeHalfKeeps(s: Demux, c: nat)
    requires Inv(s) && TakeHalf(c) in s.tasks
    ensures Inv(RunTask(s, TakeHalf(c)))
  {
    hide CountersOk, TasksOk, ConnsOk, TableOk, RunTask;
    ReleaseFacts(s, TakeHalf(c), c);
    TakeHalfIs(s, c);
    var s' := RunTask(s, TakeHalf(c));
    TakeHalfConns(s, c);
    TasksStay(s, s');
    TableStays(s, s');
    if s.conns[c].half {
      TakeHalfCounts(s, c);
    } else {
      CountersStay(s, s');
    }
  }

  lemma TakeLiveConns(s: Demux, c: nat)
    requires Inv(s) && TakeLive(c) in s.tasks
    ensures ConnsOk(RunTask(s, TakeLive(c)))
  {
    hide CountersOk, TableOk;
    var s' := RunTask(s, TakeLive(c));
    forall i | 0 <= i < |s'.conns| ensures ConnOk(s', i, s'.conns[i]) {
      assert ConnOk(s, i, s.conns[i]);
    }
  }

  lemma TakeLiveIs(s: Demux, c: nat)
    requires TasksOk(s) && TakeLive(c) in s.tasks
    ensures c < |s.conns|
    ensures RunTask(s, TakeLive(c)) ==
      if !s.conns[c].live then s.(tasks := s.tasks - multiset{TakeLive(c)})
      else WithConn(s, c, s.conns[c].(live := false, liveReleases := s.conns[c].liveReleases + 1))
           .(tasks := s.tasks - multiset{TakeLive(c)} + multiset{DropLive(s.conns[c].ip)})
  {
  }

  lemma TakeLiveKeeps(s: Demux, c: nat)
    requires Inv(s) && TakeLive(c) in s.tasks
    ensures Inv(RunTask(s, TakeLive(c)))
  {
    hide CountersOk, TasksOk, ConnsOk, TableOk, RunTask;
    ReleaseFacts(s, TakeLive(c), c);
    TakeLiveIs(s, c);
    var s' := RunTask(s, TakeLive(c));
    TakeLiveConns(s, c);
    TasksStay(s, s');
    TableStays(s, s');
    if s.conns[c].live {
      TakeLiveCounts(s, c);
    } else {
      CountersStay(s, s');
    }
  }

  lemma DropHalfCounts(s: Demux, s': Demux, ip: nat)
    requires CountersOk(s) && DropHalf(ip) in s.tasks
    requires s' == s.(halfOpen := Decremented(s.halfOpen, ip), tasks := s.tasks - multiset{DropHalf(ip)})
    ensures CountersOk(s')
  {
    hide Count;
  }

  lemma DropLiveCounts(s: Demux, s': Demux, ip: nat)
    requires CountersOk(s) && DropLive(ip) in s.tasks
    requires s' == s.(liveConns := Decremented(s.liveConns, ip), tasks := s.tasks - multiset{DropLive(ip)})
    ensures CountersOk(s')
  {
    hide Count;
  }

  lemma DropKeeps(s: Demux, task: Task)
    requires Inv(s) && task in s.tasks && (task.DropHalf? || task.DropLive?)
    ensures Inv(RunTask(s, task))
  {
    hide CountersOk, TasksOk, ConnsOk, TableOk, Decremented;
    var s' := RunTask(s, task);
    if task.DropHalf? {
      DropHalfCounts(s, s', task.ip);
    } else {
      DropLiveCounts(s, s', task.ip);
    }
    TasksStay(s, s');
    ConnsStay(s, s');
    TableStays(s, s');
  }

  lemma UnmapTable(s: Demux, c: nat)
    requires TasksOk(s) && TableOk(s) && Unmap(c) in s.tasks
    ensures TableOk(RunTask(s, Unmap(c)))
  {
  }

  lemma UnmapKeeps(s: Demux, c: nat)
    requires Inv(s) && Unmap(c) in s.tasks
    ensures Inv(RunTask(s, Unmap(c)))
  {
    hide CountersOk, TasksOk, ConnsOk, TableOk;
    var s' := RunTask(s, Unmap(c));
    CountersStay(s, s');
    TasksStay(s, s');
    ConnsStay(s, s');
    UnmapTable(s, c);
  }

  // ---- listeners ----

  /** Listeners may change, and tasks that no connection waits for may come and go. */
  lemma ListenersKeep(s: Demux, s': Demux)
    requires Inv(s) && TasksOk(s') && s' == s.(listeners := s'.listeners, tasks := s'.tasks)
    requires forall task: Task :: !task.Enqueue? && !task.Abort? ==> s'.tasks[task] == s.tasks[task]
    ensures Inv(s')
  {
    hide CountersOk, ConnsOk, TableOk, TasksOk;
    CountersStay(s, s');
    ConnsStay(s, s');
    TableStays(s, s');
  }

  lemma EnqueueTasks(s: Demux, c: nat)
    requires TasksOk(s) && Enqueue(c) in s.tasks
    ensures TasksOk(RunTask(s, Enqueue(c)))
  {
  }

  lemma EnqueueKeeps(s: Demux, c: nat)
    requires Inv(s) && Enqueue(c) in s.tasks
    ensures Inv(RunTask(s, Enqueue(c)))
  {
    hide CountersOk, ConnsOk, TableOk, TasksOk;
    EnqueueTasks(s, c);
    ListenersKeep(s, RunTask(s, Enqueue(c)));
  }

  lemma AbortKeeps(s: Demux, c: nat)
    requires Inv(s) && Abort(c) in s.tasks
    ensures Inv(RunTask(s, Abort(c)))
  {
    hide CountersOk, ConnsOk, TableOk;
    var s1 := s.(tasks := s.tasks - multiset{Abort(c)});
    ListenersKeep(s, s1);
    ShutKeeps(s1, c);
  }

  lemma ListenerActionTasks(s: Demux, a: Action)
    requires TasksOk(s) && Enabled(s, a) && (a.Listen? || a.Accept? || a.CloseListener? || a.DrainBacklog?)
    ensures TasksOk(Step(s, a))
  {
  }

  lemma ListenerActionKeeps(s: Demux, a: Action)
    requires Inv(s) && Enabled(s, a) && (a.Listen? || a.Accept? || a.CloseListener? || a.DrainBacklog?)
    ensures Inv(Step(s, a))
  {
    hide CountersOk, ConnsOk, TableOk, TasksOk;
    ListenerActionTasks(s, a);
    ListenersKeep(s, Step(s, a));
  }

  // ---- every step and every run ----

  lemma RunKeeps(s: Demux, task: Task)
    requires Inv(s) && task in s.tasks && !task.Create?
    ensures Inv(RunTask(s, task))
  {
    hide Inv, RunTask;
    match task
    case Enqueue(c) => EnqueueKeeps(s, c);
    case Abort(c) => AbortKeeps(s, c);
    case Unmap(c) => UnmapKeeps(s, c);
    case TakeHalf(c) => TakeHalfKeeps(s, c);
    case TakeLive(c) => TakeLiveKeeps(s, c);
    case DropHalf(ip) => DropKeeps(s, task);
    case DropLive(ip) => DropKeeps(s, task);
  }

  lemma StepKeeps(s: Demux, a: Action)
    requires Inv(s) && Enabled(s, a)
    ensures Inv(Step(s, a))
  {
    hide CountersOk, ConnsOk, TableOk, TasksOk;
    match a
    case Syn(ip) =>
      if Get(s.halfOpen, ip) < MAX_HALF_OPEN && Get(s.liveConns, ip) < MAX_LIVE {
        SynKeeps(s, Step(s, a), ip);
      }
    case MakeConn(ip, key, l) => MakeConnKeeps(s, ip, key, l);
    case Establish(c) => EstablishKeeps(s, c);
    case CloseConn(c) => ShutKeeps(s, c);
    case Run(task) => RunKeeps(s, task);
    case _ => ListenerActionKeeps(s, a);
  }

  ghost predicate IsRun(run: seq<Demux>, actions: seq<Action>) {
    && |run| == |actions| + 1
    && run[0] == EMPTY
    && forall k :: 0 <= k < |actions| ==>
         TasksOk(run[k]) && Enabled(run[k], actions[k]) && run[k + 1] == Step(run[k], actions[k])
  }

  lemma {:induction false} InvHolds(run: seq<Demux>, actions: seq<Action>, k: nat)
    requires IsRun(run, actions) && k < |run|
    ensures Inv(run[k])
  {
    hide Step, Enabled;
    if k > 0 {
      InvHolds(run, actions, k - 1);
      StepKeeps(run[k - 1], actions[k - 1]);
    }
  }

  function IsHalfOpen(ip: nat): Conn -> bool {
    (c: Conn) => c.ip == ip && c.phase.HalfOpen?
  }

  function IsLive(ip: nat): Conn -> bool {
    (c: Conn) => c.ip == ip && !c.phase.Closed?
  }

  /** At every moment a client has at most 8 half-open and 64 live connections. */
  lemma CapsHold(run: seq<Demux>, actions: seq<Action>, k: nat, ip: nat)
    requires IsRun(run, actions) && k < |run|
    ensures Count(run[k].conns, IsHalfOpen(ip)) <= MAX_HALF_OPEN
    ensures Count(run[k].conns, IsLive(ip)) <= MAX_LIVE
  {
    InvHolds(run, actions, k);
    var s := run[k];
    assert forall c :: 0 <= c < |s.conns| ==> ConnOk(s, c, s.conns[c]);
    CountImplies(s.conns, IsHalfOpen(ip), CountsHalf(ip));
    CountImplies(s.conns, IsLive(ip), CountsLive(ip));
  }

  /** With nothing under way: the counters are the half-open and the live connections, every other connection has given
      back each budget exactly once, and the table holds no closed one. */
  lemma QuietCountersAreExact(run: seq<Demux>, actions: seq<Action>, k: nat, ip: nat)
    requires IsRun(run, actions) && k < |run| && run[k].tasks == multiset{}
    ensures Get(run[k].halfOpen, ip) == Count(run[k].conns, IsHalfOpen(ip))
    ensures Get(run[k].liveConns, ip) == Count(run[k].conns, IsLive(ip))
    ensures forall c :: 0 <= c < |run[k].conns| ==>
      && run[k].conns[c].halfReleases == (if run[k].conns[c].phase.HalfOpen? then 0 else 1)
      && run[k].conns[c].liveReleases == (if run[k].conns[c].phase.Closed? then 1 else 0)
    ensures forall key :: key in run[k].table ==>
      run[k].table[key] < |run[k].conns| && !run[k].conns[run[k].table[key]].phase.Closed?
  {
    InvHolds(run, actions, k);
    var s := run[k];
    assert forall c :: 0 <= c < |s.conns| ==> ConnOk(s, c, s.conns[c]);
    CountImplies(s.conns, IsHalfOpen(ip), CountsHalf(ip));
    CountImplies(s.conns, CountsHalf(ip), IsHalfOpen(ip));
    CountImplies(s.conns, IsLive(ip), CountsLive(ip));
    CountImplies(s.conns, CountsLive(ip), IsLive(ip));
  }

  lemma ReturnedIsEmpty(s: Demux, l: nat)
    requires Inv(s) && l < |s.listeners| && s.listeners[l].returned
    ensures s.listeners[l].backlog == []
  {
    hide CountersOk, ConnsOk, TableOk;
    assert BacklogOk(s.listeners[l], |s.conns|);
  }

  /** A listener whose Close has returned holds no connection, and never takes another. */
  lemma {:induction false} ClosedBacklogStaysEmpty(run: seq<Demux>, actions: seq<Action>, j: nat, k: nat, l: nat)
    requires IsRun(run, actions) && j <= k < |run| && l < |run[j].listeners| && run[j].listeners[l].returned
    ensures l < |run[k].listeners| && run[k].listeners[l].returned && run[k].listeners[l].backlog == []
    decreases k - j
  {
    hide Step, Enabled, Inv, TasksOk;
    if j < k {
      ClosedBacklogStaysEmpty(run, actions, j, k - 1, l);
      ReturnedStays(run[k - 1], actions[k - 1], l);
    }
    InvHolds(run, actions, k);
    ReturnedIsEmpty(run[k], l);
  }

  lemma ReturnedStays(s: Demux, a: Action, l: nat)
    requires TasksOk(s) && Enabled(s, a) && l < |s.listeners| && s.listeners[l].returned
    ensures l < |Step(s, a).listeners| && Step(s, a).listeners[l].returned
  {
    hide RunTask;
    if a.Run? {
      ReturnedStaysInTask(s, a.task, l);
    }
  }

  lemma ReturnedStaysInTask(s: Demux, task: Task, l: nat)
    requires TasksOk(s) && task in s.tasks && !task.Create? && l < |s.listeners| && s.listeners[l].returned
    ensures l < |RunTask(s, task).listeners| && RunTask(s, task).listeners[l].returned
  {
  }
}
