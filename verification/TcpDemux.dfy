/** Connection accounting (netstack/tcp_listener.go): per-client half-open and live counters, the connection table and
    the listeners' backlogs, under SYNs, phase changes and releases interleaved lock-held step by lock-held step. */
module TcpDemux {
  import opened Words

  const BACKLOG := 16
  const MAX_HALF_OPEN := 8
  const MAX_LIVE := 64

  datatype Phase = HalfOpen | Open | Closed

  /** half and live are halfOpenCounted and liveCounted; the release counts record how often each was given back. */
  datatype Conn = Conn(
    ip: nat, key: nat, listener: nat, phase: Phase, half: bool, live: bool, halfReleases: nat, liveReleases: nat)

  /** closed: Close has begun; returned: it has emptied the backlog and returned. */
  datatype Listener = Listener(closed: bool, returned: bool, backlog: seq<nat>)

  /** What some goroutine still has to do, outside any lock it has held so far. */
  datatype Task =
    | Create(ip: nat)          // handleSYN has counted a connection and not yet made it
    | Enqueue(c: nat)          // hand an established connection to its listener
    | Abort(c: nat)
    | Unmap(c: nat)            // removeConn: out of the table ...
    | TakeHalf(c: nat)         // ... releaseHalfOpen, under the connection's lock ...
    | DropHalf(ip: nat)        // ... and under the table's
    | TakeLive(c: nat)         // ... releaseLiveConn, likewise
    | DropLive(ip: nat)

  datatype Demux = Demux(
    conns: seq<Conn>,
    table: map<nat, nat>,
    halfOpen: map<nat, nat>,
    liveConns: map<nat, nat>,
    listeners: seq<Listener>,
    tasks: multiset<Task>)

  const EMPTY := Demux([], map[], map[], map[], [], multiset{})

  datatype Action =
    | Listen
    | Syn(ip: nat)                               // a SYN that found its listener open: count it, or refuse it at a cap
    | MakeConn(ip: nat, key: nat, l: nat)
    | Establish(c: nat)                          // the handshake's ACK
    | CloseConn(c: nat)                          // reset, refused handshake, time-out, last ACK, abort or detach
    | Accept(l: nat)
    | CloseListener(l: nat)
    | DrainBacklog(l: nat)
    | Run(task: Task)

  function Get(m: map<nat, nat>, ip: nat): nat {
    if ip in m then m[ip] else 0
  }

  /** One less, and no entry for none. */
  function Decremented(m: map<nat, nat>, ip: nat): map<nat, nat> {
    if ip !in m then m else if m[ip] <= 1 then m - {ip} else m[ip := m[ip] - 1]
  }

  predicate Enabled(s: Demux, a: Action) {
    match a
    case Listen => true
    case Syn(_) => true
    case MakeConn(ip, _, l) => Create(ip) in s.tasks && l < |s.listeners|
    case Establish(c) => c < |s.conns| && s.conns[c].phase.HalfOpen?
    case CloseConn(c) => c < |s.conns|
    case Accept(l) => l < |s.listeners| && s.listeners[l].backlog != []
    case CloseListener(l) => l < |s.listeners| && !s.listeners[l].closed
    case DrainBacklog(l) => l < |s.listeners| && s.listeners[l].closed && !s.listeners[l].returned
    case Run(task) => task in s.tasks && !task.Create?
  }

  /** The tasks of removeConn. */
  function Removal(c: nat): multiset<Task> {
    multiset{Unmap(c), TakeHalf(c), TakeLive(c)}
  }

  function WithConn(s: Demux, c: nat, x: Conn): Demux
    requires c < |s.conns|
  {
    s.(conns := s.conns[c := x])
  }

  /** The connection becomes closed; whoever closed it (again) removes it. */
  function Shut(s: Demux, c: nat): Demux
    requires c < |s.conns|
  {
    WithConn(s, c, s.conns[c].(phase := Closed)).(tasks := s.tasks + Removal(c))
  }

  function RunTask(s: Demux, task: Task): Demux
    requires task in s.tasks && !task.Create? && TasksOk(s)
  {
    var s := s.(tasks := s.tasks - multiset{task});
    match task
    case Enqueue(c) =>
      var l := s.conns[c].listener;
      if s.listeners[l].closed || |s.listeners[l].backlog| >= BACKLOG then s.(tasks := s.tasks + multiset{Abort(c)})
      else s.(listeners := s.listeners[l := s.listeners[l].(backlog := s.listeners[l].backlog + [c])])
    case Abort(c) => if s.conns[c].phase.Closed? then s else Shut(s, c)
    case Unmap(c) =>
      var key := s.conns[c].key;
      if key in s.table && s.table[key] == c then s.(table := s.table - {key}) else s
    case TakeHalf(c) =>
      if !s.conns[c].half then s
      else WithConn(s, c, s.conns[c].(half := false, halfReleases := s.conns[c].halfReleases + 1))
           .(tasks := s.tasks + multiset{DropHalf(s.conns[c].ip)})
    case TakeLive(c) =>
      if !s.conns[c].live then s
      else WithConn(s, c, s.conns[c].(live := false, liveReleases := s.conns[c].liveReleases + 1))
           .(tasks := s.tasks + multiset{DropLive(s.conns[c].ip)})
    case DropHalf(ip) => s.(halfOpen := Decremented(s.halfOpen, ip))
    case DropLive(ip) => s.(liveConns := Decremented(s.liveConns, ip))
  }

  function Step(s: Demux, a: Action): Demux
    requires TasksOk(s) && Enabled(s, a)
  {
    match a
    case Listen => s.(listeners := s.listeners + [Listener(false, false, [])])
    case Syn(ip) =>
      if Get(s.halfOpen, ip) >= MAX_HALF_OPEN || Get(s.liveConns, ip) >= MAX_LIVE then s
      else s.(halfOpen := s.halfOpen[ip := Get(s.halfOpen, ip) + 1],
              liveConns := s.liveConns[ip := Get(s.liveConns, ip) + 1],
              tasks := s.tasks + multiset{Create(ip)})
    case MakeConn(ip, key, l) =>
      s.(conns := s.conns + [Conn(ip, key, l, HalfOpen, true, true, 0, 0)],
         table := s.table[key := |s.conns|],
         tasks := s.tasks - multiset{Create(ip)})
    case Establish(c) =>
      WithConn(s, c, s.conns[c].(phase := Open)).(tasks := s.tasks + multiset{TakeHalf(c), Enqueue(c)})
    case CloseConn(c) => Shut(s, c)
    case Accept(l) => s.(listeners := s.listeners[l := s.listeners[l].(backlog := s.listeners[l].backlog[1..])])
    case CloseListener(l) => s.(listeners := s.listeners[l := s.listeners[l].(closed := true)])
    case DrainBacklog(l) =>
      var x := s.listeners[l];
      if x.backlog == [] then s.(listeners := s.listeners[l := x.(returned := true)])
      else s.(listeners := s.listeners[l := x.(backlog := x.backlog[1..])],
              tasks := s.tasks + multiset{Abort(x.backlog[0])})
    case Run(task) => RunTask(s, task)
  }

  // ---- what holds in every reachable state ----

  function ConnOf(task: Task): Option<nat> {
    match task
    case Enqueue(c) => Some(c)
    case Abort(c) => Some(c)
    case Unmap(c) => Some(c)
    case TakeHalf(c) => Some(c)
    case TakeLive(c) => Some(c)
    case _ => None
  }

  /** Tasks, backlogs and connections name what exists. */
  predicate TasksOk(s: Demux) {
    && (forall task :: task in s.tasks && ConnOf(task).Some? ==> ConnOf(task).value < |s.conns|)
    && (forall c :: 0 <= c < |s.conns| ==> s.conns[c].listener < |s.listeners|)
    && (forall l :: 0 <= l < |s.listeners| ==> BacklogOk(s.listeners[l], |s.conns|))
  }

  /** A backlog is bounded, and empty once Close has returned. */
  predicate BacklogOk(x: Listener, n: nat) {
    && |x.backlog| <= BACKLOG
    && (forall i :: 0 <= i < |x.backlog| ==> x.backlog[i] < n)
    && (x.returned ==> x.closed && x.backlog == [])
  }

  /** A budget is given back at most once, and while it is not, either the connection still uses it or a release is
      due. */
  predicate ConnOk(s: Demux, c: nat, x: Conn) {
    && x.halfReleases == (if x.half then 0 else 1)
    && x.liveReleases == (if x.live then 0 else 1)
    && (x.phase.HalfOpen? ==> x.half)
    && (!x.phase.Closed? ==> x.live)
    && (TakeHalf(c) in s.tasks ==> !x.phase.HalfOpen?)
    && (TakeLive(c) in s.tasks ==> x.phase.Closed?)
    && (x.half && !x.phase.HalfOpen? ==> TakeHalf(c) in s.tasks)
    && (x.live && x.phase.Closed? ==> TakeLive(c) in s.tasks)
  }

  predicate ConnsOk(s: Demux) {
    forall c :: 0 <= c < |s.conns| ==> ConnOk(s, c, s.conns[c])
  }

  function Count(conns: seq<Conn>, p: Conn -> bool): nat {
    if conns == [] then 0
    else Count(conns[..|conns| - 1], p) + (if p(conns[|conns| - 1]) then 1 else 0)
  }

  function CountsHalf(ip: nat): Conn -> bool {
    (c: Conn) => c.ip == ip && c.half
  }

  function CountsLive(ip: nat): Conn -> bool {
    (c: Conn) => c.ip == ip && c.live
  }

  /** The counters are the flagged connections, the connections about to be made and the releases under way. */
  ghost predicate CountersOk(s: Demux) {
    forall ip: nat ::
      && Get(s.halfOpen, ip) == Count(s.conns, CountsHalf(ip)) + s.tasks[DropHalf(ip)] + s.tasks[Create(ip)]
      && Get(s.liveConns, ip) == Count(s.conns, CountsLive(ip)) + s.tasks[DropLive(ip)] + s.tasks[Create(ip)]
      && Get(s.halfOpen, ip) <= MAX_HALF_OPEN && Get(s.liveConns, ip) <= MAX_LIVE
  }

  /** The table names open connections, but for those about to be taken out. */
  predicate TableOk(s: Demux) {
    forall key :: key in s.table ==>
      && s.table[key] < |s.conns|
      && s.conns[s.table[key]].key == key
      && (s.conns[s.table[key]].phase.Closed? ==> Unmap(s.table[key]) in s.tasks)
  }

  ghost predicate Inv(s: Demux) {
    TasksOk(s) && ConnsOk(s) && CountersOk(s) && TableOk(s)
  }

  // ---- the locked blocks in place ----

  /** The demux's counters. */
  class Counters {
    var halfOpen: map<nat, nat>
    var liveConns: map<nat, nat>

    constructor ()
      ensures halfOpen == map[] && liveConns == map[]
    {
      halfOpen, liveConns := map[], map[];
    }

    /** The locked part of handleSYN: both caps, then both counts, or neither. */
    method Admit(ip: nat) returns (ok: bool)
      modifies this
      ensures ok <==> Get(old(halfOpen), ip) < MAX_HALF_OPEN && Get(old(liveConns), ip) < MAX_LIVE
      ensures !ok ==> halfOpen == old(halfOpen) && liveConns == old(liveConns)
      ensures ok ==> forall j: nat ::
        && Get(halfOpen, j) == Get(old(halfOpen), j) + (if j == ip then 1 else 0)
        && Get(liveConns, j) == Get(old(liveConns), j) + (if j == ip then 1 else 0)
    {
      if Get(halfOpen, ip) >= MAX_HALF_OPEN {
        return false;
      }
      if Get(liveConns, ip) >= MAX_LIVE {
        return false;
      }
      halfOpen := halfOpen[ip := Get(halfOpen, ip) + 1];
      liveConns := liveConns[ip := Get(liveConns, ip) + 1];
      return true;
    }

    /** The locked part of releaseHalfOpen: the client's count is one less if it was positive, no other count changes,
        and no entry is kept for a client that has none. */
    method ReleaseHalfOpen(ip: nat)
      modifies this`halfOpen
      ensures halfOpen == Decremented(old(halfOpen), ip)
      ensures forall j: nat ::
        Get(halfOpen, j) == Get(old(halfOpen), j) - if j == ip && Get(old(halfOpen), j) > 0 then 1 else 0
    {
      if ip in halfOpen {
        if halfOpen[ip] <= 1 {
          halfOpen := halfOpen - {ip};
        } else {
          halfOpen := halfOpen[ip := halfOpen[ip] - 1];
        }
      }
    }
  }

  /** A listener's backlog. */
  class Backlog {
    var closed: bool
    var queue: seq<nat>

    predicate Valid()
      reads this
    {
      |queue| <= BACKLOG
    }

    constructor ()
      ensures Valid() && !closed && queue == []
    {
      closed, queue := false, [];
    }

    /** enqueue: into the backlog, or back to the caller to be aborted. */
    method Enqueue(c: nat) returns (abort: bool)
      requires Valid()
      modifies this`queue
      ensures Valid()
      ensures abort <==> closed || |old(queue)| == BACKLOG
      ensures queue == if abort then old(queue) else old(queue) + [c]
    {
      if closed {
        return true;
      }
      if |queue| >= BACKLOG {
        return true;
      }
      queue := queue + [c];
      return false;
    }

    /** Close: every connection still waiting is to be aborted, in order, and none stays. */
    method Close() returns (aborted: seq<nat>)
      requires Valid()
      modifies this
      ensures Valid() && closed
      ensures if old(closed) then aborted == [] && queue == old(queue) else aborted == old(queue) && queue == []
    {
      aborted := [];
      if closed {
        return;
      }
      closed := true;
      while queue != []
        invariant Valid() && closed && aborted + queue == old(queue)
        decreases |queue|
      {
        aborted := aborted + [queue[0]];
        queue := queue[1..];
      }
    }
  }
}
