/** When renegotiations start, install and expire, over every interleaving: a start goes ahead exactly if nothing stands
    against it, starts keep their distance, a finished attempt is installed, and the old key lives for an hour. */
module KeyRolloverTiming {
  import opened Words
  import opened KeySlots
  import opened KeyRollover
  import opened KeyRolloverSafety

  // ---- starting ----

  /** Action k made a new attempt. */
  predicate StartedAt(run: seq<State>, actions: seq<Action>, k: nat) {
    k < |actions| && k + 1 < |run| && actions[k].Start? && |run[k + 1].conns| > |run[k].conns|
  }

  /** When the last attempt before action k was made. */
  function LastStart(run: seq<State>, actions: seq<Action>, k: nat): Option<int>
    requires k <= |actions|
  {
    if k == 0 then None
    else if StartedAt(run, actions, k - 1) then Some(actions[k - 1].now)
    else LastStart(run, actions, k - 1)
  }

  lemma {:induction false} LastStartIsKept(run: seq<State>, actions: seq<Action>, k: nat)
    requires IsRun(run, actions) && k < |run|
    ensures run[k].keys.lastAccepted == LastStart(run, actions, k)
  {
    if k > 0 {
      LastStartIsKept(run, actions, k - 1);
      assert run[k] == Step(run[k - 1], actions[k - 1]);
    }
  }

  /** In every run, a start makes an attempt exactly if the session is open and keyed, has none in flight, was last
      granted one at least minInterval ago, and the peer, if it asked, names the key id that is next. The attempt is
      under that id, with its handshake and its watchdog at work. */
  lemma StartsIff(run: seq<State>, actions: seq<Action>, k: nat)
    requires IsRun(run, actions) && k < |actions| && actions[k].Start?
    ensures var s, s', a, last := run[k], run[k + 1], actions[k], LastStart(run, actions, k);
            var next := KeyIdAfter(s.keys.renegotiations + 1);
            && (StartedAt(run, actions, k) <==>
                  && s.teardown.Open? && s.keys.primary.Some? && s.keys.pending.None?
                  && (last.None? || a.now - last.value >= a.minInterval)
                  && (a.want.None? || a.want.value == next))
            && (if StartedAt(run, actions, k) then
                  s'.conns == s.conns + [Attempt(next, Negotiating, Waiting)] && s'.keys.pending == Some(|s.conns|)
                else s' == s)
  {
    RunKeeps(run, actions, k);
    LastStartIsKept(run, actions, k);
    KeyIdAfterSteps(run[k].keys.renegotiations);
    assert run[k + 1] == Step(run[k], actions[k]);
  }

  /** No start between two that made an attempt brings them closer than the second's interval. */
  lemma StartsKeepDistance(run: seq<State>, actions: seq<Action>, j: nat, k: nat)
    requires IsRun(run, actions) && j < k && StartedAt(run, actions, j) && StartedAt(run, actions, k)
    requires forall i :: j < i < k ==> !StartedAt(run, actions, i)
    ensures actions[k].now - actions[j].now >= actions[k].minInterval
  {
    StartsIff(run, actions, k);
    LastStartSince(run, actions, j, k);
  }

  lemma {:induction false} LastStartSince(run: seq<State>, actions: seq<Action>, j: nat, k: nat)
    requires j < k <= |actions| && StartedAt(run, actions, j)
    requires forall i :: j < i < k ==> !StartedAt(run, actions, i)
    ensures LastStart(run, actions, k) == Some(actions[j].now)
  {
    if j < k - 1 {
      LastStartSince(run, actions, j, k - 1);
    }
  }

  // ---- installing and expiring ----

  /** Action k put a renegotiated key in place. */
  predicate InstalledAt(run: seq<State>, actions: seq<Action>, k: nat) {
    k < |actions| && k + 1 < |run| && actions[k].Finish? && run[k + 1].keys.primary != run[k].keys.primary
  }

  function LastInstall(run: seq<State>, actions: seq<Action>, k: nat): Option<int>
    requires k <= |actions|
  {
    if k == 0 then None
    else if InstalledAt(run, actions, k - 1) then Some(actions[k - 1].now)
    else LastInstall(run, actions, k - 1)
  }

  /** In every run, a handshake that is done installs its key exactly if its attempt is still the pending one of an open
      session and a wrapper could be made: under the next key id, with the old primary as lame duck and the lame duck
      before that closed. If not, its connection is about to be closed and the keys in place stay. */
  lemma FinishInstallsIff(run: seq<State>, actions: seq<Action>, k: nat)
    requires IsRun(run, actions) && k < |actions| && actions[k].Finish?
    ensures var s, s', a := run[k], run[k + 1], actions[k];
            && (InstalledAt(run, actions, k) <==> s.teardown.Open? && s.keys.pending == Some(a.c) && a.wrapperOk)
            && (s.teardown.Open? ==> s'.keys.pending != Some(a.c))
            && if InstalledAt(run, actions, k) then
                 && s'.keys.primary == Some(Slot(KeyIdAfter(s.keys.renegotiations + 1), a.c))
                 && s'.keys.lameDuck == s.keys.primary && s'.keys.pending.None?
                 && s'.keys.renegotiations == s.keys.renegotiations + 1
                 && s'.closed == s.closed + SetOf(s.keys.lameDuck)
               else
                 && s'.keys.primary == s.keys.primary && s'.keys.lameDuck == s.keys.lameDuck
                 && 0 < a.c < |s'.conns| && s'.conns[a.c].handshake.MustClose?
  {
    hide ConnsOk, NoneForgotten;
    RunKeeps(run, actions, k);
    assert run[k + 1] == Step(run[k], actions[k]);
    assert Enabled(run[k], actions[k]);
  }

  lemma {:induction false} LameDuckTime(run: seq<State>, actions: seq<Action>, k: nat)
    requires IsRun(run, actions) && k < |run|
    ensures run[k].keys.lameDuck.Some? ==>
              LastInstall(run, actions, k).Some? && run[k].keys.mustDie == LastInstall(run, actions, k).value + 3600
  {
    if k > 0 {
      LameDuckTime(run, actions, k - 1);
      RunKeeps(run, actions, k - 1);
      assert run[k] == Step(run[k - 1], actions[k - 1]);
    }
  }

  /** In every run, the sweep lets go of a lame duck, to be closed next, exactly from 3600 seconds after the key that
      replaced it was installed. */
  lemma SweptIff(run: seq<State>, actions: seq<Action>, k: nat)
    requires IsRun(run, actions) && k < |actions| && actions[k].Sweep? && run[k].keys.lameDuck.Some?
    ensures LastInstall(run, actions, k).Some?
    ensures var duck, due := run[k].keys.lameDuck.value.conn, LastInstall(run, actions, k).value + 3600;
            if actions[k].now >= due then run[k + 1].keys.lameDuck.None? && run[k + 1].sweeping == Some(duck)
            else run[k + 1] == run[k]
  {
    LameDuckTime(run, actions, k);
    assert run[k + 1] == Step(run[k], actions[k]);
  }

  /** Once the first key is published the session has one for good. */
  lemma {:induction false} KeyedForGood(run: seq<State>, actions: seq<Action>, j: nat, k: nat)
    requires IsRun(run, actions) && j < k < |run| && actions[j].Publish?
    ensures run[k].keys.primary.Some?
  {
    assert run[k] == Step(run[k - 1], actions[k - 1]);
    if j < k - 1 {
      KeyedForGood(run, actions, j, k - 1);
    }
  }

  // ---- tearing down ----

  /** Closing the listed connections one by one and then the first. */
  function Closings(s: State, todo: seq<nat>): State
    requires s.teardown.Snapshotted? && (forall c :: c in s.teardown.toClose <==> c in todo)
    requires forall i, j :: 0 <= i < j < |todo| ==> todo[i] != todo[j]
    decreases |todo|
  {
    if todo == [] then
      assert s.teardown.toClose == {};
      Step(s, TeardownEnds)
    else
      assert todo[0] in todo;
      Closings(Step(s, TeardownCloses(todo[0])), todo[1..])
  }

  /** A teardown takes the session's connections as they are when it comes to them, and ends with all of them and the
      first one closed. */
  lemma TeardownTakesAll(s: State)
    requires Enabled(s, Stop)
    ensures Enabled(Step(s, Stop), Snapshot)
    ensures Step(Step(s, Stop), Snapshot) == s.(teardown := Snapshotted(Hooked(s.keys)))
  {
  }

  lemma {:induction false} ClosingsClose(s: State, todo: seq<nat>)
    requires s.teardown.Snapshotted? && (forall c :: c in s.teardown.toClose <==> c in todo)
    requires forall i, j :: 0 <= i < j < |todo| ==> todo[i] != todo[j]
    ensures var s' := Closings(s, todo);
            s'.teardown.Finished? && s'.closed == s.closed + s.teardown.toClose + {0} && s'.keys == s.keys
    decreases |todo|
  {
    if todo == [] {
      assert s.teardown.toClose == {};
    } else {
      assert todo[0] in todo;
      ClosingsClose(Step(s, TeardownCloses(todo[0])), todo[1..]);
    }
  }
}
