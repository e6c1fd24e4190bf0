/** What becomes of a connection on its way to the application (netstack/tcp_listener.go), over every interleaving: a
    SYN is refused only at a cap, segments find the connection until it is closed, and once established it is queued,
    then accepted exactly once, or aborted. */
module TcpHandover {
  import opened Words
  import opened TcpDemux
  import opened TcpDemuxSafety

  // ---- admission ----

  /** A SYN is counted exactly if the client has fewer than 8 connections counted half-open and fewer than 64 counted
      live, those about to be made and those being released included; and then it is going to become a connection. */
  lemma SynIsRefusedIff(run: seq<Demux>, actions: seq<Action>, k: nat)
    requires IsRun(run, actions) && k < |actions| && actions[k].Syn?
    ensures var s, s', ip := run[k], run[k + 1], actions[k].ip;
            if Count(s.conns, CountsHalf(ip)) + s.tasks[DropHalf(ip)] + s.tasks[Create(ip)] < MAX_HALF_OPEN &&
               Count(s.conns, CountsLive(ip)) + s.tasks[DropLive(ip)] + s.tasks[Create(ip)] < MAX_LIVE
            then s'.tasks == s.tasks + multiset{Create(ip)} else s' == s
  {
    InvHolds(run, actions, k);
    assert run[k + 1] == Step(run[k], actions[k]);
  }

  // ---- the way to the application ----

  /** The connections Accept has returned, in order. */
  function Accepted(run: seq<Demux>, actions: seq<Action>, k: nat): seq<nat>
    requires k <= |actions| < |run|
  {
    if k == 0 then []
    else
      var before := Accepted(run, actions, k - 1);
      match actions[k - 1]
      case Accept(l) =>
        if l < |run[k - 1].listeners| && run[k - 1].listeners[l].backlog != []
        then before + [run[k - 1].listeners[l].backlog[0]] else before
      case _ => before
  }

  /** How often c is waiting to be queued, in its listener's backlog, or accepted. */
  function Places(s: Demux, accepted: seq<nat>, c: nat): nat
    requires c < |s.conns| && s.conns[c].listener < |s.listeners|
  {
    s.tasks[Enqueue(c)] + multiset(s.listeners[s.conns[c].listener].backlog)[c] + multiset(accepted)[c]
  }

  predicate PlaceOk(s: Demux, accepted: seq<nat>, c: nat)
    requires c < |s.conns| && s.conns[c].listener < |s.listeners|
  {
    && Places(s, accepted, c) <= 1
    && (s.conns[c].phase.HalfOpen? ==> Places(s, accepted, c) == 0)
    && (s.conns[c].phase.Open? ==> Places(s, accepted, c) == 1 || Abort(c) in s.tasks)
  }

  /** Backlogs hold their own listener's connections. */
  predicate OwnBacklogs(s: Demux) {
    forall l, c :: 0 <= l < |s.listeners| && c in s.listeners[l].backlog ==> c < |s.conns| && s.conns[c].listener == l
  }

  predicate HandInv(s: Demux, accepted: seq<nat>) {
    && TasksOk(s) && OwnBacklogs(s)
    && (forall c :: c in accepted ==> c < |s.conns|)
    && (forall c :: 0 <= c < |s.conns| ==> PlaceOk(s, accepted, c))
    && (forall c: nat :: Unmap(c) in s.tasks && c < |s.conns| ==> s.conns[c].phase.Closed?)
  }

  /** Nothing that concerns the handing over changes but phases going to Closed and abort tasks coming. */
  lemma HandStays(s: Demux, s': Demux, accepted: seq<nat>)
    requires HandInv(s, accepted) && TasksOk(s') && s'.listeners == s.listeners && |s'.conns| == |s.conns|
    requires forall c :: 0 <= c < |s.conns| ==>
      && s'.conns[c].listener == s.conns[c].listener
      && (s'.conns[c].phase == s.conns[c].phase || s'.conns[c].phase.Closed?)
    requires forall c: nat :: s'.tasks[Enqueue(c)] == s.tasks[Enqueue(c)]
    requires forall c: nat :: Abort(c) in s.tasks && c < |s.conns| && s'.conns[c].phase.Open? ==> Abort(c) in s'.tasks
    requires forall c: nat :: Unmap(c) in s'.tasks && c < |s.conns| ==> Unmap(c) in s.tasks || s'.conns[c].phase.Closed?
    ensures HandInv(s', accepted)
  {
    forall c | 0 <= c < |s'.conns| ensures PlaceOk(s', accepted, c) {
      assert PlaceOk(s, accepted, c);
    }
  }

  lemma FrontGone(q: seq<nat>)
    requires q != []
    ensures multiset(q) == multiset{q[0]} + multiset(q[1..])
  {
    assert q == [q[0]] + q[1..];
  }

  lemma AcceptHands(s: Demux, accepted: seq<nat>, l: nat)
    requires HandInv(s, accepted) && Enabled(s, Accept(l))
    ensures HandInv(Step(s, Accept(l)), accepted + [s.listeners[l].backlog[0]])
  {
    var s', q := Step(s, Accept(l)), s.listeners[l].backlog;
    FrontGone(q);
    assert q[0] in q;
    ListenerActionTasks(s, Accept(l));
    forall c | c in q[1..] ensures c in q {
    }
    forall c | 0 <= c < |s'.conns| ensures PlaceOk(s', accepted + [q[0]], c) {
      assert PlaceOk(s, accepted, c);
    }
  }

  /** The first of a backlog goes, to be aborted. */
  lemma DrainPlace(s: Demux, s': Demux, accepted: seq<nat>, l: nat, c: nat)
    requires c < |s.conns| && s.conns[c].listener < |s.listeners| && PlaceOk(s, accepted, c)
    requires l < |s.listeners| && s.listeners[l].backlog != []
    requires s' == s.(listeners := s.listeners[l := s.listeners[l].(backlog := s.listeners[l].backlog[1..])],
                      tasks := s.tasks + multiset{Abort(s.listeners[l].backlog[0])})
    ensures PlaceOk(s', accepted, c)
  {
    FrontGone(s.listeners[l].backlog);
  }

  lemma DrainHands(s: Demux, accepted: seq<nat>, l: nat)
    requires HandInv(s, accepted) && Enabled(s, DrainBacklog(l))
    ensures HandInv(Step(s, DrainBacklog(l)), accepted)
  {
    hide PlaceOk;
    var s', q := Step(s, DrainBacklog(l)), s.listeners[l].backlog;
    ListenerActionTasks(s, DrainBacklog(l));
    if q != [] {
      forall c | c in q[1..] ensures c in q {
      }
      forall c | 0 <= c < |s'.conns| ensures PlaceOk(s', accepted, c) {
        DrainPlace(s, s', accepted, l, c);
      }
    } else {
      forall c | 0 <= c < |s'.conns| ensures PlaceOk(s', accepted, c) {
        SamePlace(s, s', accepted, c);
      }
    }
  }

  /** Same backlogs, same tasks. */
  lemma SamePlace(s: Demux, s': Demux, accepted: seq<nat>, c: nat)
    requires c < |s.conns| && s.conns[c].listener < |s.listeners| && PlaceOk(s, accepted, c)
    requires s'.conns == s.conns && s'.tasks == s.tasks && |s.listeners| <= |s'.listeners|
    requires forall l :: 0 <= l < |s.listeners| ==> s'.listeners[l].backlog == s.listeners[l].backlog
    ensures PlaceOk(s', accepted, c)
  {
  }

  lemma ListenHands(s: Demux, accepted: seq<nat>, a: Action)
    requires HandInv(s, accepted) && Enabled(s, a) && (a.Listen? || a.CloseListener?)
    ensures HandInv(Step(s, a), accepted)
  {
    var s' := Step(s, a);
    ListenerActionTasks(s, a);
    forall c | 0 <= c < |s'.conns| ensures PlaceOk(s', accepted, c) {
      assert PlaceOk(s, accepted, c);
    }
  }

  lemma MakeConnHands(s: Demux, accepted: seq<nat>, ip: nat, key: nat, l: nat)
    requires HandInv(s, accepted) && Enabled(s, MakeConn(ip, key, l)) && ConnsOk(s)
    ensures HandInv(Step(s, MakeConn(ip, key, l)), accepted)
  {
    var s' := Step(s, MakeConn(ip, key, l));
    MakeConnRest(s, s', Conn(ip, key, l, HalfOpen, true, true, 0, 0));
    forall c | 0 <= c < |s'.conns| ensures PlaceOk(s', accepted, c) {
      if c < |s.conns| {
        assert PlaceOk(s, accepted, c);
      } else {
        assert Enqueue(c) !in s.tasks && c !in accepted;
        assert c !in s.listeners[l].backlog;
      }
    }
  }

  lemma EstablishHands(s: Demux, accepted: seq<nat>, c: nat)
    requires HandInv(s, accepted) && Enabled(s, Establish(c))
    ensures HandInv(Step(s, Establish(c)), accepted)
  {
    var s' := Step(s, Establish(c));
    TasksStay(s, s');
    forall i | 0 <= i < |s'.conns| ensures PlaceOk(s', accepted, i) {
      assert PlaceOk(s, accepted, i);
    }
  }

  /** Running the task that queues c. */
  lemma EnqueueIs(s: Demux, c: nat)
    requires TasksOk(s) && Enqueue(c) in s.tasks
    ensures c < |s.conns| && s.conns[c].listener < |s.listeners|
    ensures var l, tasks := s.conns[c].listener, s.tasks - multiset{Enqueue(c)};
            var x := s.listeners[l];
            RunTask(s, Enqueue(c)) ==
              if x.closed || |x.backlog| >= BACKLOG then s.(tasks := tasks + multiset{Abort(c)})
              else s.(tasks := tasks, listeners := s.listeners[l := x.(backlog := x.backlog + [c])])
  {
    hide BacklogOk;
  }

  /** A connection waiting to be queued goes into its backlog, or is going to be aborted. */
  lemma EnqueuePlace(s: Demux, accepted: seq<nat>, c: nat, i: nat)
    requires TasksOk(s) && Enqueue(c) in s.tasks && i < |s.conns| && PlaceOk(s, accepted, i)
    ensures var s' := RunTask(s, Enqueue(c));
            s'.conns == s.conns && |s'.listeners| == |s.listeners| && PlaceOk(s', accepted, i)
  {
    hide BacklogOk, RunTask;
    EnqueueIs(s, c);
  }

  lemma EnqueueBacklogs(s: Demux, c: nat)
    requires TasksOk(s) && OwnBacklogs(s) && Enqueue(c) in s.tasks
    ensures OwnBacklogs(RunTask(s, Enqueue(c)))
  {
    var s', l := RunTask(s, Enqueue(c)), s.conns[c].listener;
    forall m, i | 0 <= m < |s'.listeners| && i in s'.listeners[m].backlog
      ensures i < |s'.conns| && s'.conns[i].listener == m
    {
      assert i in s.listeners[m].backlog || (m == l && i == c);
    }
  }

  lemma EnqueueHands(s: Demux, accepted: seq<nat>, c: nat)
    requires HandInv(s, accepted) && Enqueue(c) in s.tasks
    ensures HandInv(RunTask(s, Enqueue(c)), accepted)
  {
    hide PlaceOk, OwnBacklogs;
    var s' := RunTask(s, Enqueue(c));
    EnqueueTasks(s, c);
    EnqueueBacklogs(s, c);
    forall i | 0 <= i < |s'.conns| ensures PlaceOk(s', accepted, i) {
      EnqueuePlace(s, accepted, c, i);
    }
  }

  /** What other tasks do to one connection. */
  lemma TaskAndConn(s: Demux, task: Task, c: nat)
    requires TasksOk(s) && task in s.tasks && !task.Create? && c < |s.conns|
    ensures var s' := RunTask(s, task);
            && |s'.conns| == |s.conns| && s'.conns[c].key == s.conns[c].key
            && s'.conns[c].listener == s.conns[c].listener
            && (s'.conns[c].phase == s.conns[c].phase || s'.conns[c].phase.Closed?)
            && (task == Abort(c) ==> s'.conns[c].phase.Closed?)
  {
    hide BacklogOk;
  }

  /** What other tasks do to the tasks and the backlogs. */
  lemma TaskAndTasks(s: Demux, task: Task, c: nat)
    requires TasksOk(s) && task in s.tasks && !task.Create? && !task.Enqueue?
    ensures var s' := RunTask(s, task);
            && s'.listeners == s.listeners
            && s'.tasks[Enqueue(c)] == s.tasks[Enqueue(c)]
            && (Abort(c) in s.tasks && task != Abort(c) ==> Abort(c) in s'.tasks)
            && (Unmap(c) in s'.tasks ==> Unmap(c) in s.tasks || task == Abort(c))
  {
    hide BacklogOk;
    if task.Abort? {
      AbortAndTasks(s, task.c, c);
    }
  }

  lemma AbortAndTasks(s: Demux, a: nat, c: nat)
    requires TasksOk(s) && Abort(a) in s.tasks
    ensures var s' := RunTask(s, Abort(a));
            && s'.listeners == s.listeners
            && s'.tasks[Enqueue(c)] == s.tasks[Enqueue(c)]
            && (Abort(c) in s.tasks && a != c ==> Abort(c) in s'.tasks)
            && (Unmap(c) in s'.tasks ==> Unmap(c) in s.tasks || a == c)
  {
    hide BacklogOk;
  }

  lemma ShutTasks(s: Demux, c: nat)
    requires TasksOk(s) && c < |s.conns|
    ensures TasksOk(Shut(s, c))
  {
    TasksStay(s, Shut(s, c));
  }

  lemma TaskHands(s: Demux, accepted: seq<nat>, task: Task)
    requires HandInv(s, accepted) && Inv(s) && task in s.tasks && !task.Create?
    ensures HandInv(RunTask(s, task), accepted)
  {
    hide HandInv, Inv, RunTask;
    HandTasks(s, accepted);
    if task.Enqueue? {
      EnqueueHands(s, accepted, task.c);
    } else {
      var s' := RunTask(s, task);
      RunKeeps(s, task);
      InvTasks(s');
      TaskAndTasks(s, task, 0);
      TaskLength(s, task);
      forall c: nat | c < |s.conns|
        ensures s'.conns[c].listener == s.conns[c].listener
        ensures s'.conns[c].phase == s.conns[c].phase || s'.conns[c].phase.Closed?
        ensures task == Abort(c) ==> s'.conns[c].phase.Closed?
      {
        TaskAndConn(s, task, c);
      }
      forall c: nat
        ensures s'.tasks[Enqueue(c)] == s.tasks[Enqueue(c)]
        ensures Abort(c) in s.tasks && task != Abort(c) ==> Abort(c) in s'.tasks
        ensures Unmap(c) in s'.tasks ==> Unmap(c) in s.tasks || task == Abort(c)
      {
        TaskAndTasks(s, task, c);
      }
      HandStays(s, s', accepted);
    }
  }

  lemma TaskLength(s: Demux, task: Task)
    requires TasksOk(s) && task in s.tasks && !task.Create?
    ensures |RunTask(s, task).conns| == |s.conns|
  {
    hide BacklogOk;
  }

  lemma InvTasks(s: Demux)
    requires Inv(s)
    ensures TasksOk(s)
  {
  }

  lemma StepHands(s: Demux, accepted: seq<nat>, a: Action)
    requires HandInv(s, accepted) && Inv(s) && Enabled(s, a)
    ensures HandInv(Step(s, a), if a.Accept? then accepted + [s.listeners[a.l].backlog[0]] else accepted)
  {
    hide HandInv, Inv, Step, RunTask;
    assert TasksOk(s) by { HandTasks(s, accepted); }
    match a
    case Accept(l) => AcceptHands(s, accepted, l);
    case DrainBacklog(l) => DrainHands(s, accepted, l);
    case Establish(c) => EstablishHands(s, accepted, c);
    case MakeConn(ip, key, l) =>
      InvConns(s);
      MakeConnHands(s, accepted, ip, key, l);
    case Run(task) =>
      TaskHands(s, accepted, task);
      RunIs(s, task);
    case Syn(ip) => QuietHands(s, accepted, a);
    case CloseConn(c) => QuietHands(s, accepted, a);
    case _ => ListenHands(s, accepted, a);
  }

  lemma HandTasks(s: Demux, accepted: seq<nat>)
    requires HandInv(s, accepted)
    ensures TasksOk(s)
  {
  }

  lemma InvConns(s: Demux)
    requires Inv(s)
    ensures ConnsOk(s)
  {
  }

  lemma RunIs(s: Demux, task: Task)
    requires TasksOk(s) && Enabled(s, Run(task))
    ensures Step(s, Run(task)) == RunTask(s, task)
  {
  }

  lemma QuietHands(s: Demux, accepted: seq<nat>, a: Action)
    requires HandInv(s, accepted) && Inv(s) && Enabled(s, a) && (a.Syn? || a.CloseConn?)
    ensures HandInv(Step(s, a), accepted)
  {
    hide OwnBacklogs, PlaceOk, CountersOk, ConnsOk, TableOk;
    if a.CloseConn? {
      ShutTasks(s, a.c);
    } else {
      TasksStay(s, Step(s, a));
    }
    HandStays(s, Step(s, a), accepted);
  }

  lemma {:induction false} RunHands(run: seq<Demux>, actions: seq<Action>, k: nat)
    requires IsRun(run, actions) && k < |run|
    ensures HandInv(run[k], Accepted(run, actions, k))
  {
    hide Step, HandInv, Inv;
    if k > 0 {
      RunHands(run, actions, k - 1);
      InvHolds(run, actions, k - 1);
      StepHands(run[k - 1], Accepted(run, actions, k - 1), actions[k - 1]);
    } else {
      EmptyHands();
    }
  }

  lemma EmptyHands()
    ensures HandInv(EMPTY, [])
  {
  }

  /** In every run: no connection is accepted twice; and an established one that has not been closed is waiting to be
      queued, in its own listener's backlog or accepted, just one of these and once, or is going to be aborted. */
  lemma EstablishedIsHandedOver(run: seq<Demux>, actions: seq<Action>, k: nat, c: nat)
    requires IsRun(run, actions) && k < |run| && c < |run[k].conns|
    ensures run[k].conns[c].listener < |run[k].listeners|
    ensures multiset(Accepted(run, actions, k))[c] <= 1
    ensures run[k].conns[c].phase.Open? ==>
              Places(run[k], Accepted(run, actions, k), c) == 1 || Abort(c) in run[k].tasks
    ensures run[k].conns[c].phase.HalfOpen? ==> c !in Accepted(run, actions, k)
  {
    RunHands(run, actions, k);
    assert PlaceOk(run[k], Accepted(run, actions, k), c);
  }

  /** In every run, an established connection goes into its listener's backlog, behind those that came before, unless
      the listener is closed or sixteen are waiting; only then is it aborted. */
  lemma QueuedUnlessFull(run: seq<Demux>, actions: seq<Action>, k: nat, c: nat)
    requires IsRun(run, actions) && k < |actions| && actions[k] == Run(Enqueue(c))
    ensures c < |run[k].conns| && run[k].conns[c].listener < |run[k].listeners|
    ensures var l := run[k].conns[c].listener;
            var x := run[k].listeners[l];
            if x.closed || |x.backlog| == BACKLOG then
              run[k + 1].listeners == run[k].listeners && run[k + 1].tasks[Abort(c)] == run[k].tasks[Abort(c)] + 1
            else run[k + 1].listeners == run[k].listeners[l := x.(backlog := x.backlog + [c])]
  {
    assert run[k + 1] == Step(run[k], actions[k]) && Enabled(run[k], actions[k]);
    assert BacklogOk(run[k].listeners[run[k].conns[c].listener], |run[k].conns|);
  }

  /** Once Close has begun, a listener stays closed: from then on what is established for it is aborted. */
  lemma {:induction false} ClosedStaysClosed(run: seq<Demux>, actions: seq<Action>, j: nat, k: nat, l: nat)
    requires IsRun(run, actions) && j < k < |run| && l < |run[j].listeners|
    requires actions[j] == CloseListener(l) || run[j].listeners[l].closed
    ensures l < |run[k].listeners| && run[k].listeners[l].closed
    decreases k
  {
    hide Step, TasksOk, Enabled;
    if j < k - 1 {
      ClosedStaysClosed(run, actions, j, k - 1, l);
    }
    ClosedByStep(run[k - 1], actions[k - 1], l);
  }

  lemma ClosedByStep(s: Demux, a: Action, l: nat)
    requires TasksOk(s) && Enabled(s, a) && l < |s.listeners| && (s.listeners[l].closed || a == CloseListener(l))
    ensures l < |Step(s, a).listeners| && Step(s, a).listeners[l].closed
  {
    hide BacklogOk, RunTask;
    if a.Run? {
      ClosedByTask(s, a.task, l);
    }
  }

  lemma ClosedByTask(s: Demux, task: Task, l: nat)
    requires TasksOk(s) && task in s.tasks && !task.Create? && l < |s.listeners| && s.listeners[l].closed
    ensures l < |RunTask(s, task).listeners| && RunTask(s, task).listeners[l].closed
  {
    hide BacklogOk;
  }

  // ---- the table ----

  lemma TaskAndTable(s: Demux, task: Task, key: nat)
    requires TasksOk(s) && task in s.tasks && !task.Create? && key in s.table && task != Unmap(s.table[key])
    ensures key in RunTask(s, task).table && RunTask(s, task).table[key] == s.table[key]
  {
    hide BacklogOk;
  }

  lemma FoundStays(s: Demux, a: Action, c: nat, key: nat)
    requires TasksOk(s) && Enabled(s, a) && c < |s.conns| && s.conns[c].key == key
    requires key in s.table && s.table[key] == c && Unmap(c) !in s.tasks
    requires a.MakeConn? ==> a.key != key
    ensures var s' := Step(s, a);
            && c < |s'.conns| && s'.conns[c].key == key && key in s'.table && s'.table[key] == c
  {
    hide RunTask, BacklogOk;
    if a.Run? {
      TaskAndConn(s, a.task, c);
      TaskAndTable(s, a.task, key);
    }
  }

  lemma ClosedStays(s: Demux, a: Action, c: nat)
    requires TasksOk(s) && Enabled(s, a) && c < |s.conns|
    ensures c < |Step(s, a).conns| && (s.conns[c].phase.Closed? ==> Step(s, a).conns[c].phase.Closed?)
  {
    hide RunTask, BacklogOk;
    if a.Run? {
      TaskAndConn(s, a.task, c);
    }
  }

  lemma {:induction false} StillThere(run: seq<Demux>, actions: seq<Action>, j: nat, k: nat)
    requires IsRun(run, actions) && j < k < |run| && actions[j].MakeConn?
    ensures |run[j].conns| < |run[k].conns|
    decreases k
  {
    hide Step, TasksOk, Enabled;
    if j < k - 1 {
      StillThere(run, actions, j, k - 1);
      ClosedStays(run[k - 1], actions[k - 1], |run[j].conns|);
    } else {
      MadeIsFound(run[j], actions[j]);
    }
  }

  lemma MadeIsFound(s: Demux, a: Action)
    requires TasksOk(s) && Enabled(s, a) && a.MakeConn?
    ensures var s', c := Step(s, a), |s.conns|;
            c < |s'.conns| && s'.conns[c].key == a.key && a.key in s'.table && s'.table[a.key] == c
  {
  }

  lemma NotUnmapped(s: Demux, accepted: seq<nat>, c: nat)
    requires HandInv(s, accepted) && c < |s.conns| && !s.conns[c].phase.Closed?
    ensures Unmap(c) !in s.tasks
  {
  }

  /** In every run: segments of a connection find it from when it is made until it is closed, or until a new connection
      takes its place under the same addresses and ports. */
  lemma {:induction false} FoundUntilClosed(run: seq<Demux>, actions: seq<Action>, j: nat, k: nat)
    requires IsRun(run, actions) && j < k < |run| && actions[j].MakeConn?
    requires |run[j].conns| < |run[k].conns| ==> !run[k].conns[|run[j].conns|].phase.Closed?
    requires forall m :: j < m < k && actions[m].MakeConn? ==> actions[m].key != actions[j].key
    ensures var c, key := |run[j].conns|, actions[j].key;
            && c < |run[k].conns| && run[k].conns[c].key == key
            && key in run[k].table && run[k].table[key] == c
    decreases k
  {
    hide Step, TasksOk, Enabled, HandInv;
    var c, key, s := |run[j].conns|, actions[j].key, run[k - 1];
    if j < k - 1 {
      RunHands(run, actions, k - 1);
      StillThere(run, actions, j, k);
      StillThere(run, actions, j, k - 1);
      ClosedStays(s, actions[k - 1], c);
      FoundUntilClosed(run, actions, j, k - 1);
      NotUnmapped(s, Accepted(run, actions, k - 1), c);
      FoundStays(s, actions[k - 1], c, key);
    } else {
      MadeIsFound(run[j], actions[j]);
    }
  }
}
