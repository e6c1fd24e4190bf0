/** Over every interleaving of handshakes, watchdogs, sweep and teardown: no connection is both installed and closed by
    its own attempt, no attempt clears another's, key ids stay in sequence, and every connection ends up closed. */
module KeyRolloverSafety {
  import opened Words
  import opened KeySlots
  import opened KeyRollover

  lemma StartKeeps(s: State, now: int, minInterval: int, want: Option<u8>)
    requires Inv(s)
    ensures Inv(Step(s, Start(now, minInterval, want)))
  {
    if s.keys.primary.Some? {
      KeyIdAfterSteps(s.keys.renegotiations);
    }
  }

  lemma HandshakeEndsKeeps(s: State, a: Action)
    requires Inv(s) && Enabled(s, a)
    requires a.Abandon? || (a.Finish? && !(s.teardown.Open? && s.keys.pending == Some(a.c) && a.wrapperOk))
    ensures Inv(Step(s, a))
  {
  }

  lemma InstallKeeps(s: State, c: nat, now: int)
    requires Inv(s) && Enabled(s, Finish(c, true, now)) && s.teardown.Open? && s.keys.pending == Some(c)
    ensures Inv(Step(s, Finish(c, true, now)))
  {
  }

  lemma CloseAttemptKeeps(s: State, c: nat)
    requires Inv(s) && Enabled(s, CloseAttempt(c))
    ensures Inv(Step(s, CloseAttempt(c)))
  {
  }

  lemma WatchdogKeeps(s: State, a: Action)
    requires Inv(s) && Enabled(s, a)
    requires a.WatchdogFires? || a.WatchdogCloses? || a.WatchdogEnds?
    ensures Inv(Step(s, a))
  {
  }

  lemma OthersKeep(s: State, a: Action)
    requires Inv(s) && Enabled(s, a)
    requires a.Publish? || a.Sweep? || a.SweepCloses? || a.Stop? || a.Snapshot? || a.TeardownCloses? || a.TeardownEnds?
    ensures Inv(Step(s, a))
  {
  }

  lemma StepKeeps(s: State, a: Action)
    requires Inv(s) && Enabled(s, a)
    ensures Inv(Step(s, a))
  {
    hide Inv, Step;
    match a
    case Start(now, minInterval, want) => StartKeeps(s, now, minInterval, want);
    case Finish(c, wrapperOk, now) =>
      if s.teardown.Open? && s.keys.pending == Some(c) && wrapperOk {
        InstallKeeps(s, c, now);
      } else {
        HandshakeEndsKeeps(s, a);
      }
    case Abandon(_) => HandshakeEndsKeeps(s, a);
    case CloseAttempt(c) => CloseAttemptKeeps(s, c);
    case WatchdogFires(_) => WatchdogKeeps(s, a);
    case WatchdogCloses(_) => WatchdogKeeps(s, a);
    case WatchdogEnds(_) => WatchdogKeeps(s, a);
    case _ => OthersKeep(s, a);
  }

  // ---- every run ----

  ghost predicate IsRun(run: seq<State>, actions: seq<Action>) {
    && |run| == |actions| + 1
    && run[0] == START
    && forall k :: 0 <= k < |actions| ==> Enabled(run[k], actions[k]) && run[k + 1] == Step(run[k], actions[k])
  }

  lemma {:induction false} RunKeeps(run: seq<State>, actions: seq<Action>, k: nat)
    requires IsRun(run, actions) && k < |run|
    ensures Inv(run[k])
  {
    hide Step;
    if k > 0 {
      RunKeeps(run, actions, k - 1);
      StepKeeps(run[k - 1], actions[k - 1]);
    }
  }

  /** A connection closed by its watchdog, or by its handshake goroutine giving up, is never installed, before or after;
      so neither does the watchdog of an installed connection ever close it. */
  lemma ClosedIsNeverInstalled(run: seq<State>, actions: seq<Action>, k: nat, j: nat)
    requires IsRun(run, actions) && k < |run| && j < |run|
    ensures run[k].installed !! run[j].watchdogClosed && run[k].installed !! run[j].attemptClosed
  {
    var last := if k < j then j else k;
    SetsGrow(run, actions, k, last);
    SetsGrow(run, actions, j, last);
    RunKeeps(run, actions, last);
    assert forall c :: c in run[last].installed ==> c < |run[last].conns| && ConnOk(run[last], c, run[last].conns[c]);
  }

  lemma {:induction false} SetsGrow(run: seq<State>, actions: seq<Action>, k: nat, j: nat)
    requires IsRun(run, actions) && k <= j < |run|
    ensures run[k].installed <= run[j].installed
    ensures run[k].watchdogClosed <= run[j].watchdogClosed
    ensures run[k].attemptClosed <= run[j].attemptClosed
    decreases j - k
  {
    if k < j {
      SetsGrow(run, actions, k, j - 1);
      assert run[j] == Step(run[j - 1], actions[j - 1]);
    }
  }

  /** An attempt stops being the pending one only by its own goroutines: an older attempt never clears a newer one. */
  lemma OnlyOwnerClears(s: State, a: Action, c: nat)
    requires Inv(s) && Enabled(s, a)
    requires s.keys.pending == Some(c) && Step(s, a).keys.pending != Some(c)
    ensures a == Abandon(c) || a == WatchdogFires(c) || (a.Finish? && a.c == c)
    ensures Step(s, a).keys.pending == None
  {
  }

  /** A connection becomes primary only as the pending attempt of a session that is not closing, and its own goroutines
      have not closed it. */
  lemma InstalledWasPending(s: State, a: Action)
    requires Inv(s) && Enabled(s, a) && !a.Publish?
    requires Step(s, a).keys.primary != s.keys.primary
    ensures Step(s, a).keys.primary.Some?
    ensures s.keys.pending == Some(Step(s, a).keys.primary.value.conn) && s.teardown.Open?
    ensures Step(s, a).keys.primary.value.conn !in s.watchdogClosed + s.attemptClosed
    ensures Step(s, a).keys.lameDuck == s.keys.primary
  {
  }

  /** In every reachable state the ids follow the closed form, and control packets go to a connection of their own key
      id, every hooked one of which can be reached. */
  lemma RoutingIsUnambiguous(run: seq<State>, actions: seq<Action>, k: nat, keyId: u8)
    requires IsRun(run, actions) && k < |run|
    ensures run[k].keys.primary.Some? ==> run[k].keys.primary.value.keyId == KeyIdAfter(run[k].keys.renegotiations)
    ensures Route(run[k].keys, keyId).Some? ==>
      Route(run[k].keys, keyId).value < |run[k].conns| && run[k].conns[Route(run[k].keys, keyId).value].keyId == keyId
    ensures forall c :: c in Hooked(run[k].keys) ==>
      c < |run[k].conns| && Route(run[k].keys, run[k].conns[c].keyId) == Some(c)
  {
    RunKeeps(run, actions, k);
    IdsAreDistinct(run[k].keys);
  }

  /** Once the session is closed and every goroutine has returned, every connection ever made is closed. */
  lemma EveryConnIsClosed(run: seq<State>, actions: seq<Action>, k: nat)
    requires IsRun(run, actions) && k < |run|
    requires run[k].teardown.Finished? && run[k].sweeping.None?
    requires forall c :: 0 <= c < |run[k].conns| ==> run[k].conns[c].handshake.Done? && run[k].conns[c].watchdog.Ended?
    ensures forall c :: 0 <= c < |run[k].conns| ==> c in run[k].closed
  {
    RunKeeps(run, actions, k);
  }
}
