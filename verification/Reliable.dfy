/** The reliability window as the program holds it: a fixed slot array scanned and updated in place.
    Every method is proved to compute the corresponding function of module Windows. */
module Reliable {
  import opened Words
  import opened Windows
  import W = Windows

  class Reliable {
    const size: nat
    const entries: array<Entry>
    var packetId: u32

    ghost predicate Valid()
      reads this
    {
      entries.Length == CAPACITY && 0 < size <= CAPACITY
    }

    ghost function View(): Window
      requires Valid()
      reads this, entries
    {
      Window(packetId, entries[..size])
    }

    constructor (size: nat)
      requires 0 < size <= CAPACITY
      ensures Valid() && fresh(entries) && this.size == size
      ensures View() == NewWindow(size)
    {
      this.size := size;
      this.packetId := 0;
      this.entries := new Entry[CAPACITY](_ => EMPTY_ENTRY);
    }

    method Next() returns (idx: nat, ok: bool)
      requires Valid()
      ensures (if ok then Some(idx) else None) == NextSlot(View())
    {
      ghost var es := View().entries;
      var best: Option<nat> := None;
      for i := 0 to size
        invariant best == Oldest(es[..i], Active)
      {
        assert es[..i + 1][..i] == es[..i];
        if entries[i].active {
          if best.None? || PidMin(entries[i].packetId, entries[best.value].packetId) {
            best := Some(i);
          }
        }
      }
      assert es[..size] == es;
      if best.Some? && !InRange1(packetId, entries[best.value].packetId, size) {
        return 0, false;
      }
      idx, ok := FreeSlot();
    }

    /** The scan for a free slot that Next and Put share. */
    method FreeSlot() returns (idx: nat, ok: bool)
      requires Valid()
      ensures ok <==> FirstWhere(View().entries, Free) < size
      ensures ok ==> idx == FirstWhere(View().entries, Free)
    {
      ghost var es := View().entries;
      for i := 0 to size
        invariant forall j :: 0 <= j < i ==> !Free(es[j])
      {
        assert entries[i] == es[i];
        if !entries[i].active {
          return i, true;
        }
      }
      return 0, false;
    }

    /** The scan for the slot holding id that Put and Get share. */
    method SlotHolding(id: u32) returns (idx: nat, ok: bool)
      requires Valid()
      ensures ok <==> FirstWhere(View().entries, Holding(id)) < size
      ensures ok ==> idx == FirstWhere(View().entries, Holding(id))
    {
      ghost var es := View().entries;
      for i := 0 to size
        invariant forall j :: 0 <= j < i ==> !Holding(id)(es[j])
      {
        assert entries[i] == es[i];
        if entries[i].active && entries[i].packetId == id {
          return i, true;
        }
      }
      return 0, false;
    }

    method MarkActive(idx: nat) returns (id: u32)
      requires Valid() && idx < size
      modifies this`packetId, entries
      ensures Valid() && id == old(packetId)
      ensures View() == W.MarkActive(old(View()), idx)
    {
      id := packetId;
      entries[idx] := Entry(true, TLS_TIMEOUT, 0, packetId, 0, entries[idx].payload);
      packetId := Add32(packetId, 1);
    }

    method SetPayload(idx: nat, payload: seq<u8>)
      requires Valid() && idx < size
      modifies entries
      ensures Valid() && View() == W.SetPayload(old(View()), idx, payload)
    {
      entries[idx] := entries[idx].(payload := payload);
    }

    method Ack(ids: seq<u32>)
      requires Valid()
      modifies entries
      ensures Valid() && View() == W.Ack(old(View()), ids)
    {
      for k := 0 to |ids|
        invariant AckEntries(entries[..size], ids[k..]) == AckEntries(old(entries[..size]), ids)
      {
        ghost var before: Slots := entries[..size];
        for i := 0 to size
          invariant forall j :: 0 <= j < i ==> entries[j] == AckEntry(before[j], ids[k])
          invariant forall j :: i <= j < size ==> entries[j] == before[j]
        {
          if entries[i].active {
            if entries[i].packetId == ids[k] {
              entries[i] := entries[i].(active := false);
            } else if entries[i].packetId < ids[k] {
              entries[i] := entries[i].(nAcks := entries[i].nAcks + 1);
            }
          }
        }
        assert entries[..size] == seq(|before|, i requires 0 <= i < |before| => AckEntry(before[i], ids[k..][0]));
        assert ids[k..][1..] == ids[k + 1..];
      }
    }

    method Due(now: nat) returns (payload: seq<u8>, id: u32, ok: bool)
      requires Valid()
      modifies entries
      ensures Valid() && View() == W.Due(old(View()), now)
      ensures var slot := DueSlot(old(View()), now);
              ok == slot.Some? &&
              (ok ==>
                && payload == old(View()).entries[slot.value].payload
                && id == old(View()).entries[slot.value].packetId)
    {
      ghost var es := View().entries;
      var best: Option<nat> := None;
      for i := 0 to size
        invariant best == Oldest(es[..i], DueAt(now))
      {
        assert es[..i + 1][..i] == es[..i];
        if entries[i].IsDue(now) && (best.None? || PidMin(entries[i].packetId, entries[best.value].packetId)) {
          best := Some(i);
        }
      }
      assert es[..size] == es;
      if best.None? {
        return [], 0, false;
      }
      var b := best.value;
      payload, id, ok := entries[b].payload, entries[b].packetId, true;
      entries[b] := Resent(entries[b], now);
    }

    method Empty() returns (empty: bool)
      requires Valid()
      ensures empty <==> forall i :: 0 <= i < size ==> Free(View().entries[i])
    {
      for i := 0 to size
        invariant forall j :: 0 <= j < i ==> !entries[j].active
      {
        if entries[i].active {
          assert View().entries[i] == entries[i];
          return false;
        }
      }
      return true;
    }

    method Put(id: u32, payload: seq<u8>) returns (r: PutResult)
      requires Valid()
      modifies entries
      ensures Valid() && (View(), r) == W.Put(old(View()), id, payload)
    {
      if PidMin(id, packetId) {
        return PutRejected;
      }
      var _, dup := SlotHolding(id);
      if dup {
        return PutDuplicate;
      }
      if !InRange2(id, packetId, size) {
        return PutRejected;
      }
      var i, ok := FreeSlot();
      if ok {
        entries[i] := entries[i].(active := true, packetId := id, nAcks := 0, payload := payload);
        return PutAccepted;
      }
      return PutRejected;
    }

    method Get() returns (payload: seq<u8>, ok: bool)
      requires Valid()
      modifies this`packetId, entries
      ensures Valid()
      ensures (View(), if ok then Some(payload) else None) == W.Get(old(View()))
    {
      var i, found := SlotHolding(packetId);
      if found {
        payload := entries[i].payload;
        packetId := Add32(entries[i].packetId, 1);
        entries[i] := entries[i].(active := false);
        return payload, true;
      }
      return [], false;
    }
  }

  class AckSet {
    var ids: seq<u32>

    constructor ()
      ensures ids == []
    {
      ids := [];
    }

    method Add(id: u32)
      modifies this
      ensures ids == AddAck(old(ids), id)
    {
      for k := 0 to |ids|
        invariant ids == old(ids) && id !in ids[..k]
      {
        if ids[k] == id {
          return;
        }
      }
      assert ids[..|ids|] == ids;
      ids := ids + [id];
    }

    /** Hands out at most one ack record and keeps the rest, in order. */
    method Drain() returns (out: seq<u32>)
      modifies this
      ensures |out| <= ACK_SIZE && out + ids == old(ids)
      ensures |out| == DrainCount(old(ids))
    {
      var n := DrainCount(ids);
      out := ids[..n];
      ids := ids[n..];
    }
  }
}
