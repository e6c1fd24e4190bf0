/** What the receive window admits. Its replay and range checks are exact for every id while the floor
    is at most 2^31; beyond that the range check also admits ids from the far half of the id space. */
module ReceiveWindow {
  import opened Words
  import opened Windows

  /** The two checks Put makes before it looks for a slot. */
  predicate Admits(floor: u32, size: u32, id: u32) {
    !PidMin(id, floor) && InRange2(id, floor, size)
  }

  /** Ids within one window of the floor always pass, through every wrap of the id. */
  lemma WindowIsAdmitted(floor: u32, size: u32, id: u32)
    requires 0 < size <= CAPACITY && Sub32(id, floor) < size
    ensures Admits(floor, size, id)
  {
  }

  /** A far-future id is kept out exactly while the floor is at most 2^31, or within one window of the wrap. */
  lemma FarIdsAreRejectedIff(floor: u32, size: u32)
    requires 0 < size <= CAPACITY
    ensures (forall id: u32 :: Admits(floor, size, id) ==> Sub32(id, floor) < size)
            <==> floor <= TWO31 || floor + size >= TWO32
  {
    if !(floor <= TWO31 || floor + size >= TWO32) {
      FarIdAdmitted(floor, size);
    }
  }

  /** The failing family: any floor in the upper half that is more than a window short of the wrap admits id 0. */
  lemma FarIdAdmitted(floor: u32, size: u32)
    requires 0 < size <= CAPACITY && TWO31 < floor && floor + size < TWO32
    ensures Admits(floor, size, 0) && Sub32(0, floor) >= size
  {
  }

  predicate Holds(es: seq<Entry>, id: u32) {
    exists i :: 0 <= i < |es| && es[i].active && es[i].packetId == id
  }

  /** Stored ids are distinct and lie in the window above the floor. */
  predicate RecvInv(w: Window) {
    && w.packetId <= TWO31
    && (forall i :: 0 <= i < |w.entries| && w.entries[i].active ==>
          w.packetId <= w.entries[i].packetId < w.packetId + |w.entries|)
    && (forall i, j :: 0 <= i < j < |w.entries| && w.entries[i].active && w.entries[j].active ==>
          w.entries[i].packetId != w.entries[j].packetId)
  }

  function Ids(es: seq<Entry>, extra: u32): (s: seq<int>)
    ensures |s| == |es| + 1 && s[|es|] == extra
    ensures forall i :: 0 <= i < |es| ==> s[i] == es[i].packetId
  {
    seq(|es|, i requires 0 <= i < |es| => es[i].packetId) + [extra]
  }

  /** Put answers by the id alone, for every id: the slot scan never fails once the checks have passed. */
  lemma PutExactly(w: Window, id: u32, payload: seq<u8>)
    requires RecvInv(w)
    ensures Put(w, id, payload).1 ==
            if !(w.packetId <= id < w.packetId + |w.entries|) then PutRejected
            else if Holds(w.entries, id) then PutDuplicate
            else PutAccepted
    ensures Put(w, id, payload).1 != PutAccepted ==> Put(w, id, payload).0 == w
    ensures Put(w, id, payload).1 == PutAccepted ==>
              exists i :: 0 <= i < |w.entries| && !w.entries[i].active &&
                Put(w, id, payload).0.entries
                  == w.entries[i := w.entries[i].(active := true, packetId := id, nAcks := 0, payload := payload)]
  {
    var h := FirstWhere(w.entries, Holding(id));
    if h < |w.entries| {
      assert Holding(id)(w.entries[h]);
      assert Holds(w.entries, id);
    } else {
      assert forall i :: 0 <= i < |w.entries| ==> !Holding(id)(w.entries[i]);
      assert !Holds(w.entries, id);
    }
    if w.packetId <= id < w.packetId + |w.entries| && h == |w.entries| {
      var f := FirstWhere(w.entries, Free);
      if f == |w.entries| {
        assert forall i :: 0 <= i < |w.entries| ==> !Free(w.entries[i]) && !Holding(id)(w.entries[i]);
        Pigeonhole(Ids(w.entries, id), w.packetId, w.packetId + |w.entries|);
      }
    }
  }
}
