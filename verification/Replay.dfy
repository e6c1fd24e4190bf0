/** The 64-wide anti-replay window (internal/datachan/replay.go, and its twin in internal/tlscrypt): a shifting
    64-bit word that answers exactly as an unbounded set of accepted ids would. */
module Replay {
  import opened Words

  const WINDOW := 64

  // ---- a uint64 as its bits, bit i at index i ----

  type Word64 = w: seq<bool> | |w| == 64 witness Zero()

  function Zero(): seq<bool> {
    seq(64, i => false)
  }

  function One(): Word64 {
    seq(64, i => i == 0)
  }

  /** w << n: bits move up, zeros come in below, and what passes bit 63 is lost. */
  function Shl(w: Word64, n: nat): Word64 {
    seq(64, i requires 0 <= i < 64 => i >= n && w[i - n])
  }

  function Or(a: Word64, b: Word64): Word64 {
    seq(64, i requires 0 <= i < 64 => a[i] || b[i])
  }

  /** a & b != 0 */
  predicate Meets(a: Word64, b: Word64) {
    exists i :: 0 <= i < 64 && a[i] && b[i]
  }

  // ---- the window ----

  /** Bit i of seen set means highest - i has been accepted. */
  datatype Replay = Replay(init: bool, highest: u32, seen: Word64)

  const FRESH := Replay(false, 0, Zero())

  function Accept(r: Replay, id: u32): (Replay, bool) {
    if !r.init then (Replay(true, id, One()), true)
    else if id > r.highest then
      var shift := id - r.highest;
      (Replay(true, id, if shift >= WINDOW then One() else Or(Shl(r.seen, shift), One())), true)
    else
      var diff := r.highest - id;
      if diff >= WINDOW then (r, false)
      else
        var bit := Shl(One(), diff);
        if Meets(r.seen, bit) then (r, false)
        else (r.(seen := Or(r.seen, bit)), true)
  }

  // ---- what the word stands for ----

  predicate IsMax(m: u32, s: set<u32>) {
    m in s && forall a :: a in s ==> a <= m
  }

  /** The answer of a window with unlimited memory: yes to an id above every accepted one (so to the first), and to a
      new id less than 64 below the highest. */
  predicate New(accepted: set<u32>, id: u32) {
    || (forall a :: a in accepted ==> a < id)
    || (id !in accepted && exists m :: m in accepted && IsMax(m, accepted) && 0 < m - id < WINDOW)
  }

  /** The word records, for the last 64 ids, exactly which were accepted. */
  ghost predicate Refines(r: Replay, accepted: set<u32>) {
    if !r.init then accepted == {}
    else
      && IsMax(r.highest, accepted)
      && forall id: u32 :: 0 <= r.highest - id < WINDOW ==> (id in accepted <==> r.seen[r.highest - id])
  }

  function With(accepted: set<u32>, id: u32, ok: bool): set<u32> {
    if ok then accepted + {id} else accepted
  }

  /** The bit the test looks at. */
  lemma MeetsBit(seen: Word64, diff: nat)
    requires diff < WINDOW
    ensures Meets(seen, Shl(One(), diff)) <==> seen[diff]
  {
    assert Shl(One(), diff)[diff];
  }

  /** One id: the window answers as the set does, and goes on refining it. */
  lemma AcceptRefines(r: Replay, accepted: set<u32>, id: u32)
    requires Refines(r, accepted)
    ensures Accept(r, id).1 <==> New(accepted, id)
    ensures Refines(Accept(r, id).0, With(accepted, id, Accept(r, id).1))
  {
    if r.init {
      assert IsMax(r.highest, accepted);
      if 0 <= r.highest - id < WINDOW {
        MeetsBit(r.seen, r.highest - id);
      }
    }
  }

  // ---- every sequence of ids ----

  function AcceptAll(r: Replay, ids: seq<u32>): Replay {
    if ids == [] then r else Accept(AcceptAll(r, ids[..|ids| - 1]), ids[|ids| - 1]).0
  }

  /** The ids a fresh window accepts out of a sequence. */
  function Accepted(ids: seq<u32>): set<u32> {
    if ids == [] then {}
    else
      var before, id := ids[..|ids| - 1], ids[|ids| - 1];
      With(Accepted(before), id, Accept(AcceptAll(FRESH, before), id).1)
  }

  lemma {:induction false} WindowRefinesSet(ids: seq<u32>)
    ensures Refines(AcceptAll(FRESH, ids), Accepted(ids))
  {
    if ids != [] {
      WindowRefinesSet(ids[..|ids| - 1]);
      AcceptRefines(AcceptAll(FRESH, ids[..|ids| - 1]), Accepted(ids[..|ids| - 1]), ids[|ids| - 1]);
    }
  }

  /** After any sequence of ids, the answer to the next is exact, and no id is ever accepted twice. */
  lemma AcceptIsExact(ids: seq<u32>, id: u32)
    ensures Accept(AcceptAll(FRESH, ids), id).1 <==> New(Accepted(ids), id)
    ensures id in Accepted(ids) ==> !Accept(AcceptAll(FRESH, ids), id).1
  {
    WindowRefinesSet(ids);
    AcceptRefines(AcceptAll(FRESH, ids), Accepted(ids), id);
  }

  // ---- the window in place ----

  class ReplayWindow {
    var init: bool
    var highest: u32
    var seen: Word64

    function View(): Replay
      reads this
    {
      Replay(init, highest, seen)
    }

    constructor ()
      ensures View() == FRESH
    {
      init, highest, seen := false, 0, Zero();
    }

    method TryAccept(id: u32) returns (ok: bool)
      modifies this
      ensures (View(), ok) == Accept(old(View()), id)
    {
      if !init {
        init, highest, seen := true, id, One();
        return true;
      }
      if id > highest {
        var shift := id - highest;
        if shift >= WINDOW {
          seen := One();
        } else {
          seen := Or(Shl(seen, shift), One());
        }
        highest := id;
        return true;
      }
      var diff := highest - id;
      if diff >= WINDOW {
        return false;
      }
      var bit := Shl(One(), diff);
      if Meets(seen, bit) {
        return false;
      }
      seen := Or(seen, bit);
      return true;
    }
  }
}
