/** Renegotiation as interleaved lock-held steps (ovpn.go, session.go): for each attempt the handshake goroutine and
    its watchdog, beside the lame-duck sweep and the one teardown of the session. */
module KeyRollover {
  import opened Words
  import opened KeySlots

  /** runRenegotiation: at work, about to close its connection (abandoned, superseded or failed), or returned. */
  datatype Handshake = Negotiating | MustClose | Done

  /** enforceRenegotiationWindow: waiting, about to close the connection it found still pending, or returned. */
  datatype Watchdog = Waiting | Firing | Ended

  /** One control connection and the two goroutines behind it; connection 0 has none. */
  datatype Attempt = Attempt(keyId: u8, handshake: Handshake, watchdog: Watchdog)

  /** closeWithReason: stopCh closed, slots snapshotted with toClose still to close, all closed. */
  datatype Teardown = Open | Stopped | Snapshotted(toClose: set<nat>) | Finished

  /** sweeping is the connection the lame-duck sweep has unhooked and not yet closed. closed are all closed
      connections; watchdogClosed and attemptClosed those closed by their own watchdog or handshake goroutine;
      installed all ever primary. */
  datatype State = State(
    keys: Keys,
    conns: seq<Attempt>,
    teardown: Teardown,
    sweeping: Option<nat>,
    closed: set<nat>,
    watchdogClosed: set<nat>,
    attemptClosed: set<nat>,
    installed: set<nat>)

  const START := State(UNKEYED, [Attempt(0, Done, Ended)], Open, None, {}, {}, {}, {})

  datatype Action =
    | Publish                                                    // the bring-up publishes the first key
    | Start(now: int, minInterval: int, want: Option<u8>)        // startRenegotiation, by peer or by timer
    | Abandon(c: nat)                                            // the handshake fails: forget the attempt
    | Finish(c: nat, wrapperOk: bool, now: int)                  // the handshake is done: install or not
    | CloseAttempt(c: nat)                                       // the handshake goroutine closes and returns
    | WatchdogFires(c: nat)                                      // the window is over: unhook if still pending
    | WatchdogCloses(c: nat)
    | WatchdogEnds(c: nat)                                       // the attempt is over first
    | Sweep(now: int)
    | SweepCloses
    | Stop
    | Snapshot
    | TeardownCloses(c: nat)
    | TeardownEnds                                               // last, the session's first connection

  predicate Enabled(s: State, a: Action) {
    match a
    case Publish => s.keys.primary.None? && s.teardown.Open?
    case Start(_, _, _) => true
    case Abandon(c) => 0 < c < |s.conns| && s.conns[c].handshake.Negotiating?
    case Finish(c, _, _) => 0 < c < |s.conns| && s.conns[c].handshake.Negotiating?
    case CloseAttempt(c) => 0 < c < |s.conns| && s.conns[c].handshake.MustClose?
    case WatchdogFires(c) => 0 < c < |s.conns| && s.conns[c].watchdog.Waiting?
    case WatchdogCloses(c) => 0 < c < |s.conns| && s.conns[c].watchdog.Firing?
    case WatchdogEnds(c) => 0 < c < |s.conns| && s.conns[c].watchdog.Waiting? && s.conns[c].handshake.Done?
    case Sweep(_) => s.sweeping.None?
    case SweepCloses => s.sweeping.Some?
    case Stop => s.teardown.Open?
    case Snapshot => s.teardown.Stopped?
    case TeardownCloses(c) => s.teardown.Snapshotted? && c in s.teardown.toClose
    case TeardownEnds => s.teardown.Snapshotted? && s.teardown.toClose == {}
  }

  function SetOf(slot: Option<Slot>): set<nat> {
    if slot.None? then {} else {slot.value.conn}
  }

  /** The connections the session still refers to. */
  function Hooked(k: Keys): set<nat> {
    SetOf(k.primary) + SetOf(k.lameDuck) + (if k.pending.None? then {} else {k.pending.value})
  }

  function With(s: State, c: nat, x: Attempt): State
    requires c < |s.conns|
  {
    s.(conns := s.conns[c := x])
  }

  function Step(s: State, a: Action): State
    requires Enabled(s, a)
  {
    match a
    case Publish => s.(keys := Published(s.keys), installed := s.installed + {0})
    case Start(now, minInterval, want) =>
      if !MayStart(s.keys, !s.teardown.Open?, now, minInterval, want) then s
      else
        var keys := Started(s.keys, |s.conns|, now);
        s.(keys := keys, conns := s.conns + [Attempt(keys.pendingKeyId, Negotiating, Waiting)])
    case Abandon(c) => With(s.(keys := Cleared(s.keys, c)), c, s.conns[c].(handshake := MustClose))
    case Finish(c, wrapperOk, now) =>
      if !s.teardown.Open? || s.keys.pending != Some(c) then With(s, c, s.conns[c].(handshake := MustClose))
      else if !wrapperOk then With(s.(keys := Cleared(s.keys, c)), c, s.conns[c].(handshake := MustClose))
      else
        With(s.(keys := Installed(s.keys, c, s.conns[c].keyId, now),
                closed := s.closed + SetOf(s.keys.lameDuck),
                installed := s.installed + {c}),
             c, s.conns[c].(handshake := Done))
    case CloseAttempt(c) =>
      With(s.(closed := s.closed + {c}, attemptClosed := s.attemptClosed + {c}), c, s.conns[c].(handshake := Done))
    case WatchdogFires(c) =>
      if s.keys.pending == Some(c) then With(s.(keys := Cleared(s.keys, c)), c, s.conns[c].(watchdog := Firing))
      else With(s, c, s.conns[c].(watchdog := Ended))
    case WatchdogCloses(c) =>
      With(s.(closed := s.closed + {c}, watchdogClosed := s.watchdogClosed + {c}), c, s.conns[c].(watchdog := Ended))
    case WatchdogEnds(c) => With(s, c, s.conns[c].(watchdog := Ended))
    case Sweep(now) =>
      if !Expired(s.keys, now) then s
      else s.(keys := s.keys.(lameDuck := None), sweeping := Some(s.keys.lameDuck.value.conn))
    case SweepCloses => s.(closed := s.closed + {s.sweeping.value}, sweeping := None)
    case Stop => s.(teardown := Stopped)
    case Snapshot => s.(teardown := Snapshotted(Hooked(s.keys)))
    case TeardownCloses(c) => s.(closed := s.closed + {c}, teardown := Snapshotted(s.teardown.toClose - {c}))
    case TeardownEnds => s.(closed := s.closed + {0}, teardown := Finished)
  }

  // ---- what holds in every reachable state ----

  /** Someone is still going to close the connection. */
  predicate Attended(s: State, c: nat)
    requires c < |s.conns|
  {
    || c in Hooked(s.keys)
    || s.conns[c].handshake.MustClose?
    || s.conns[c].watchdog.Firing?
    || s.sweeping == Some(c)
    || (s.teardown.Snapshotted? && c in s.teardown.toClose)
    || (c == 0 && !s.teardown.Finished?)
  }

  /** Who closed a connection has returned, and none that was installed has been closed, or will be, by its own
      attempt. */
  predicate ConnOk(s: State, c: nat, x: Attempt) {
    && (c in s.watchdogClosed ==> x.watchdog.Ended?)
    && (c in s.attemptClosed ==> x.handshake.Done?)
    && (c in s.installed ==>
          x.handshake.Done? && !x.watchdog.Firing? && c !in s.watchdogClosed && c !in s.attemptClosed)
  }

  predicate SlotOk(s: State, slot: Option<Slot>) {
    slot.Some? ==>
      && slot.value.conn < |s.conns|
      && slot.value.conn in s.installed
      && s.conns[slot.value.conn].keyId == slot.value.keyId
  }

  /** While the session is open, both goroutines of the pending attempt are at work. */
  predicate PendingOk(s: State) {
    s.keys.pending.Some? ==>
      var c := s.keys.pending.value;
      && 0 < c < |s.conns|
      && s.conns[c].keyId == s.keys.pendingKeyId
      && c !in s.installed
      && (s.teardown.Open? ==> s.conns[c].handshake.Negotiating? && s.conns[c].watchdog.Waiting?)
  }

  /** Once the slots have been snapshotted, every connection they still name is closed or on the list. */
  predicate TeardownOk(s: State) {
    && (s.teardown.Snapshotted? ==> Hooked(s.keys) <= s.teardown.toClose + s.closed)
    && (s.teardown.Finished? ==> Hooked(s.keys) <= s.closed)
  }

  predicate Below(cs: set<nat>, n: nat) {
    forall c :: c in cs ==> c < n
  }

  predicate ConnsOk(s: State) {
    forall c :: 0 <= c < |s.conns| ==> ConnOk(s, c, s.conns[c])
  }

  predicate NoneForgotten(s: State) {
    forall c :: 0 <= c < |s.conns| ==> c in s.closed || Attended(s, c)
  }

  predicate Inv(s: State) {
    && s.conns != []
    && InSequence(s.keys)
    && PendingOk(s)
    && SlotOk(s, s.keys.primary) && SlotOk(s, s.keys.lameDuck)
    && s.conns[0] == Attempt(0, Done, Ended) && 0 !in s.watchdogClosed && 0 !in s.attemptClosed
    && ConnsOk(s)
    && Below(s.installed, |s.conns|) && Below(s.watchdogClosed, |s.conns|) && Below(s.attemptClosed, |s.conns|)
    && NoneForgotten(s)
    && TeardownOk(s)
  }
}
