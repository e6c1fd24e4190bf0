/** Fixed-width machine words as bounded integers, with wrap-around written out,
    and the big-endian encodings shared by every wire format in this project. */
module Words {

  const TWO16 := 0x1_0000
  const TWO31 := 0x8000_0000
  const TWO32 := 0x1_0000_0000

  type u8 = x: int | 0 <= x < 0x100
  type u16 = x: int | 0 <= x < 0x1_0000
  type u32 = x: int | 0 <= x < 0x1_0000_0000

  datatype Option<+T> = None | Some(value: T)

  /** uint32 addition. */
  function Add32(a: u32, b: u32): u32 {
    if a + b < TWO32 then a + b else a + b - TWO32
  }

  /** uint32 subtraction. */
  function Sub32(a: u32, b: u32): u32 {
    if a >= b then a - b else a - b + TWO32
  }

  /** The uint32 that an unbounded counter value becomes. */
  function Wrap32(x: nat): u32 {
    x % TWO32
  }

  /** Counting modulo 2^32 commutes with counting. */
  lemma WrapAdd(x: nat, d: u32)
    ensures Wrap32(x + d) == Add32(Wrap32(x), d)
  {
    assert x == TWO32 * (x / TWO32) + Wrap32(x);
    if Wrap32(x) + d < TWO32 {
      assert x + d == TWO32 * (x / TWO32) + (Wrap32(x) + d);
    } else {
      assert x + d == TWO32 * (x / TWO32 + 1) + (Wrap32(x) + d - TWO32);
    }
  }

  function Pow2(n: nat): nat {
    if n == 0 then 1 else 2 * Pow2(n - 1)
  }

  lemma {:induction false} Pow2Grows(m: nat, n: nat)
    requires m <= n
    ensures 0 < Pow2(m) <= Pow2(n)
    decreases n
  {
    if n > 0 {
      Pow2Grows(if m < n then m else m - 1, n - 1);
    }
  }

  lemma {:induction false} Pow2Concretely()
    ensures Pow2(1) == 2 && Pow2(2) == 4 && Pow2(31) == TWO31 && Pow2(32) == TWO32
  {
    assert Pow2(8) == 0x100;
    assert Pow2(16) == 0x1_0000;
    assert Pow2(24) == 0x100_0000;
    assert Pow2(31) == TWO31;
  }

  // ---- big-endian ----

  function Put16(v: u16): (s: seq<u8>)
    ensures |s| == 2
  {
    [v / 0x100, v % 0x100]
  }

  function Get16(s: seq<u8>, i: nat): u16
    requires i + 2 <= |s|
  {
    (s[i] as int) * 0x100 + s[i + 1]
  }

  function Put32(v: u32): (s: seq<u8>)
    ensures |s| == 4
  {
    [v / 0x100_0000, v / 0x1_0000 % 0x100, v / 0x100 % 0x100, v % 0x100]
  }

  function Get32(s: seq<u8>, i: nat): u32
    requires i + 4 <= |s|
  {
    (s[i] as int) * 0x100_0000 + (s[i + 1] as int) * 0x1_0000 + (s[i + 2] as int) * 0x100 + s[i + 3]
  }

  lemma Get32Put32(v: u32)
    ensures Get32(Put32(v), 0) == v
  {
    assert v / 0x1_0000 == v / 0x100_0000 * 0x100 + v / 0x1_0000 % 0x100;
    assert v / 0x100 == v / 0x1_0000 * 0x100 + v / 0x100 % 0x100;
  }

  lemma Put32Get32(s: seq<u8>, i: nat)
    requires i + 4 <= |s|
    ensures Put32(Get32(s, i)) == s[i..i + 4]
  {
    var v := Get32(s, i);
    var a: int, b: int, c: int := s[i], s[i + 1], s[i + 2];
    assert v / 0x100 == a * 0x1_0000 + b * 0x100 + c;
    assert v / 0x1_0000 == a * 0x100 + b;
  }

  /** A sequence of distinct integers drawn from [lo, hi) is no longer than the interval. */
  lemma {:induction false} Pigeonhole(s: seq<int>, lo: int, hi: int)
    requires lo <= hi
    requires forall i :: 0 <= i < |s| ==> lo <= s[i] < hi
    requires forall i, j :: 0 <= i < j < |s| ==> s[i] != s[j]
    ensures |s| <= hi - lo
    decreases hi - lo
  {
    if |s| == 0 {
      return;
    }
    assert lo <= s[0] < hi;
    if hi - 1 in s {
      var k :| 0 <= k < |s| && s[k] == hi - 1;
      var t := s[..k] + s[k + 1..];
      forall i | 0 <= i < |t| ensures lo <= t[i] < hi - 1 {
        assert t[i] == if i < k then s[i] else s[i + 1];
      }
      forall i, j | 0 <= i < j < |t| ensures t[i] != t[j] {
        assert t[i] == if i < k then s[i] else s[i + 1];
        assert t[j] == if j < k then s[j] else s[j + 1];
      }
      Pigeonhole(t, lo, hi - 1);
    } else {
      Pigeonhole(s, lo, hi - 1);
    }
  }
}
