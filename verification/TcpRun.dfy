/** Runs of one connection: segments arriving, the application reading, writing and closing, and the timer, in any
    order. */
module TcpRun {
  import opened Words
  import opened Tcp
  import opened TcpTimer

  /** base and peerBase are the numbers of the first byte of each direction. established is set when the handshake
      completes, which is when the application first gets the connection. written, read and wire record what Write has
      taken, what Read has returned and every segment sent. */
  datatype Trace = Trace(
    base: u32, peerBase: u32, conn: Conn, established: bool, written: seq<u8>, read: seq<u8>, wire: seq<Segment>)

  datatype Event =
    | Deliver(seg: Segment)
    | Write(data: seq<u8>)
    | Read(room: nat)
    | FinishWriting
    | TimerFires(stale: bool)
    | Kill(reset: bool)

  function Start(isn: u32, clientIsn: u32, window: u16, mss: u16): Trace {
    Trace(Add32(isn, 1), Add32(clientIsn, 1), NewConn(isn, clientIsn, window, mss), false, [], [], [])
  }

  /** A round of Write runs with room in the buffer, on a connection the application has and that has not failed. */
  predicate Enabled(t: Trace, e: Event) {
    match e
    case Write(data) => t.established && !t.conn.failed && |t.conn.snd.out| < MAX_IN_FLIGHT
    case Read(_) => t.established
    case FinishWriting => t.established
    case TimerFires(stale) => stale || t.conn.snd.running
    case _ => true
  }

  ghost function Sent(t: Trace, outcome: (Conn, seq<Segment>)): Trace {
    t.(conn := outcome.0, wire := t.wire + outcome.1)
  }

  ghost function Step(t: Trace, e: Event): Trace
    requires ConnOk(t.conn)
  {
    match e
    case Deliver(seg) =>
      var outcome := OnSegment(t.conn, seg);
      Sent(t, outcome).(established := t.established || (t.conn.phase == SynRcvd && outcome.0.phase == Established))
    case Write(data) =>
      var taken := data[..Min(|data|, MAX_IN_FLIGHT - |t.conn.snd.out|)];
      Sent(t, WriteSome(t.conn, data)).(written := t.written + taken)
    case Read(room) => var (c, bytes) := ReadSome(t.conn, room); t.(conn := c, read := t.read + bytes)
    case FinishWriting => Sent(t, CloseWrite(t.conn))
    case TimerFires(stale) => Sent(t, Fire(t.conn, stale))
    case Kill(reset) => Sent(t, Abort(t.conn, reset))
  }

  ghost predicate IsRun(run: seq<Trace>, events: seq<Event>) {
    && |run| == |events| + 1
    && (exists isn: u32, clientIsn: u32, window: u16, mss: u16 :: run[0] == Start(isn, clientIsn, window, mss))
    && forall k :: 0 <= k < |events| ==>
         ConnOk(run[k].conn) && Enabled(run[k], events[k]) && run[k + 1] == Step(run[k], events[k])
  }
}
