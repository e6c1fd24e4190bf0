/** The RFC 815 hole list: an ordered list of missing byte ranges, and what a fragment does to it. */
module Holes {

  /** An inclusive range of missing bytes. */
  datatype Hole = Hole(first: int, last: int)

  predicate Intersects(h: Hole, first: int, last: int) {
    h.first <= last && first <= h.last
  }

  /** Byte x lies in some hole. */
  predicate Missing(holes: seq<Hole>, x: int) {
    exists i :: 0 <= i < |holes| && holes[i].first <= x <= holes[i].last
  }

  /** In order, apart from each other, and none empty. */
  predicate Sorted(holes: seq<Hole>) {
    && (forall i :: 0 <= i < |holes| ==> holes[i].first <= holes[i].last)
    && (forall i, j :: 0 <= i < j < |holes| ==> holes[i].last < holes[j].first)
  }

  /** What is left of one hole once a fragment covering [first, last] has arrived. */
  function Remnant(h: Hole, first: int, last: int, more: bool): seq<Hole> {
    if !more && h.first > last then []
    else if !Intersects(h, first, last) then [h]
    else
      (if first > h.first then [Hole(h.first, first - 1)] else [])
      + (if last < h.last && more then [Hole(last + 1, h.last)] else [])
  }

  function Punch(holes: seq<Hole>, first: int, last: int, more: bool): seq<Hole> {
    if holes == [] then []
    else Punch(holes[..|holes| - 1], first, last, more) + Remnant(holes[|holes| - 1], first, last, more)
  }

  /** The fragment covers some missing byte. */
  predicate Fills(holes: seq<Hole>, first: int, last: int) {
    exists i :: 0 <= i < |holes| && Intersects(holes[i], first, last)
  }

  lemma MissingAppend(a: seq<Hole>, b: seq<Hole>, x: int)
    ensures Missing(a + b, x) <==> Missing(a, x) || Missing(b, x)
  {
    if Missing(a, x) {
      var i :| 0 <= i < |a| && a[i].first <= x <= a[i].last;
      assert (a + b)[i] == a[i];
    }
    if Missing(b, x) {
      var i :| 0 <= i < |b| && b[i].first <= x <= b[i].last;
      assert (a + b)[|a| + i] == b[i];
    }
  }

  lemma RemnantMissing(h: Hole, first: int, last: int, more: bool, x: int)
    requires first <= last
    ensures Missing(Remnant(h, first, last, more), x) <==>
            h.first <= x <= h.last && !(first <= x <= last) && (more || x <= last)
  {
    var r := Remnant(h, first, last, more);
    if h.first <= x <= h.last && !(first <= x <= last) && (more || x <= last) {
      assert r[if x < first then 0 else |r| - 1].first <= x <= r[if x < first then 0 else |r| - 1].last;
    }
  }

  /** The list loses exactly the bytes the fragment supplies, and those beyond the end a final fragment declares. */
  lemma {:induction false} PunchMissing(holes: seq<Hole>, first: int, last: int, more: bool, x: int)
    requires first <= last
    ensures Missing(Punch(holes, first, last, more), x) <==>
            Missing(holes, x) && !(first <= x <= last) && (more || x <= last)
  {
    if holes != [] {
      var n := |holes| - 1;
      PunchMissing(holes[..n], first, last, more, x);
      RemnantMissing(holes[n], first, last, more, x);
      MissingAppend(Punch(holes[..n], first, last, more), Remnant(holes[n], first, last, more), x);
      MissingAppend(holes[..n], [holes[n]], x);
      assert holes == holes[..n] + [holes[n]];
      assert Missing([holes[n]], x) <==> holes[n].first <= x <= holes[n].last by {
        assert [holes[n]][0] == holes[n];
      }
    }
  }

  /** Every hole of the list ends at or below limit. */
  predicate Below(holes: seq<Hole>, limit: int) {
    forall i :: 0 <= i < |holes| ==> holes[i].last <= limit
  }

  lemma SortedAppend(a: seq<Hole>, b: seq<Hole>, limit: int)
    requires Sorted(a) && Sorted(b) && Below(a, limit)
    requires forall i :: 0 <= i < |b| ==> limit < b[i].first
    ensures Sorted(a + b)
  {
  }

  /** The list stays in order, and no hole reaches further than before. */
  lemma {:induction false} PunchSorted(holes: seq<Hole>, first: int, last: int, more: bool, limit: int)
    requires Sorted(holes) && Below(holes, limit) && first <= last
    ensures Sorted(Punch(holes, first, last, more)) && Below(Punch(holes, first, last, more), limit)
  {
    if holes != [] {
      var n := |holes| - 1;
      var r := Remnant(holes[n], first, last, more);
      PunchSorted(holes[..n], first, last, more, holes[n].first - 1);
      assert Sorted(r) && forall i :: 0 <= i < |r| ==> holes[n].first <= r[i].first <= r[i].last <= holes[n].last;
      SortedAppend(Punch(holes[..n], first, last, more), r, holes[n].first - 1);
    }
  }

  /** The fragment counts as filling a hole exactly when it supplies a missing byte. */
  lemma FillsIff(holes: seq<Hole>, first: int, last: int)
    requires Sorted(holes) && first <= last
    ensures Fills(holes, first, last) <==> exists x :: first <= x <= last && Missing(holes, x)
  {
    if Fills(holes, first, last) {
      var i :| 0 <= i < |holes| && Intersects(holes[i], first, last);
      var x := if first >= holes[i].first then first else holes[i].first;
      assert Missing(holes, x);
    }
  }

  lemma FillsSnoc(holes: seq<Hole>, i: nat, first: int, last: int)
    requires i < |holes|
    ensures Fills(holes[..i + 1], first, last) <==> Fills(holes[..i], first, last) || Intersects(holes[i], first, last)
  {
    if Fills(holes[..i], first, last) {
      var j :| 0 <= j < i && Intersects(holes[..i][j], first, last);
      assert holes[..i + 1][j] == holes[..i][j];
    }
    assert holes[..i + 1][i] == holes[i];
  }

  lemma PunchSnoc(holes: seq<Hole>, i: nat, first: int, last: int, more: bool)
    requires i < |holes|
    ensures Punch(holes[..i + 1], first, last, more)
         == Punch(holes[..i], first, last, more) + Remnant(holes[i], first, last, more)
  {
    assert holes[..i + 1][..i] == holes[..i];
  }

  /** The program's rebuilding loop: one pass over the list, carrying whether anything was filled. */
  method RebuildHoles(holes: seq<Hole>, first: int, last: int, more: bool)
    returns (newHoles: seq<Hole>, intersects: bool)
    requires first <= last
    ensures newHoles == Punch(holes, first, last, more)
    ensures intersects <==> Fills(holes, first, last)
  {
    newHoles, intersects := [], false;
    for i := 0 to |holes|
      invariant newHoles == Punch(holes[..i], first, last, more)
      invariant intersects <==> Fills(holes[..i], first, last)
    {
      hide Fills, Punch;
      var h := holes[i];
      FillsSnoc(holes, i, first, last);
      PunchSnoc(holes, i, first, last, more);
      if !more && h.first > last {
        continue;
      }
      if last < h.first || first > h.last {
        newHoles := newHoles + [h];
        continue;
      }
      intersects := true;
      if first > h.first {
        newHoles := newHoles + [Hole(h.first, first - 1)];
      }
      if last < h.last && more {
        newHoles := newHoles + [Hole(last + 1, h.last)];
      }
    }
    assert holes[..|holes|] == holes;
  }
}
