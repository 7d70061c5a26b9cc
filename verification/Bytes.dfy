/** Octets and big-endian 16-bit fields. */
module Bytes {
  type byte = x: int | 0 <= x < 0x100
  type u16 = x: int | 0 <= x < 0x1_0000

  /** The 16-bit field at offset `i`. */
  function U16(b: seq<byte>, i: nat): u16
    requires i + 2 <= |b|
  {
    (b[i] as int) * 0x100 + b[i + 1] as int
  }

  function PutU16(v: u16): (r: seq<byte>)
    ensures |r| == 2 && U16(r, 0) == v
  {
    [v / 0x100, v % 0x100]
  }

  lemma Assoc<T>(a: seq<T>, b: seq<T>, c: seq<T>)
    ensures a + (b + c) == (a + b) + c
  {}

  /** The four pieces of a concatenation, recovered by slicing. */
  lemma Pieces<T>(a: seq<T>, b: seq<T>, c: seq<T>, d: seq<T>)
    ensures var s := a + b + c + d;
            && s[..|a|] == a
            && s[|a|..|a| + |b|] == b
            && s[|a| + |b|..|a| + |b| + |c|] == c
            && s[|a| + |b| + |c|..] == d
  {}

  lemma U16At(b: seq<byte>, i: nat)
    requires i + 2 <= |b|
    ensures U16(b, i) == U16(b[i..i + 2], 0)
  {}

  /** The buffer with the 16-bit field at `k` overwritten. */
  function SetU16(b: seq<byte>, k: nat, v: u16): (r: seq<byte>)
    requires k + 2 <= |b|
    ensures |r| == |b| && U16(r, k) == v
    ensures forall i :: 0 <= i < |b| && i != k && i != k + 1 ==> r[i] == b[i]
  {
    b[k := v / 0x100][k + 1 := v % 0x100]
  }

  lemma SliceOfSlice<T>(s: seq<T>, a: nat, b: nat, i: nat, j: nat)
    requires a <= b <= |s| && i <= j <= b - a
    ensures s[a..b][i..j] == s[a + i..a + j]
  {
    assert |s[a..b][i..j]| == |s[a + i..a + j]|;
    forall k | 0 <= k < j - i ensures s[a..b][i..j][k] == s[a + i..a + j][k] {
      assert s[a..b][i..j][k] == s[a..b][i + k] == s[a + i + k];
    }
  }

  // ---------------------------------------------------------------- bytes laid out one after the other

  ghost predicate Holds(msg: seq<byte>, off: nat, bs: seq<byte>) {
    off + |bs| <= |msg| && msg[off..off + |bs|] == bs
  }

  lemma HoldsParts(msg: seq<byte>, off: nat, a: seq<byte>, b: seq<byte>)
    requires Holds(msg, off, a + b)
    ensures Holds(msg, off, a) && Holds(msg, off + |a|, b)
  {
    var all := a + b;
    SliceOfSlice(msg, off, off + |all|, 0, |a|);
    SliceOfSlice(msg, off, off + |all|, |a|, |all|);
    assert all[0..|a|] == a && all[|a|..|all|] == b;
  }

  lemma HoldsTwo(msg: seq<byte>, off: nat, all: seq<byte>, a: seq<byte>, b: seq<byte>)
    requires Holds(msg, off, all) && all == a + b
    ensures Holds(msg, off, a) && Holds(msg, off + |a|, b) && |all| == |a| + |b|
  {
    HoldsParts(msg, off, a, b);
  }

  lemma HoldsAt(msg: seq<byte>, off: nat, bs: seq<byte>, i: nat)
    requires Holds(msg, off, bs) && i < |bs|
    ensures msg[off + i] == bs[i]
  {
    assert msg[off..off + |bs|][i] == msg[off + i];
  }

  lemma HoldsU16(msg: seq<byte>, off: nat, v: u16)
    requires Holds(msg, off, PutU16(v))
    ensures U16(msg, off) == v
  {
    U16At(msg, off);
  }

  lemma InFront(msg: seq<byte>, a: seq<byte>, b: seq<byte>, c: seq<byte>)
    requires msg == a + (b + c)
    ensures Holds(msg, |a|, b) && Holds(msg, 0, a)
  {
    HoldsTwo(msg, 0, msg, a, b + c);
    HoldsTwo(msg, |a|, b + c, b, c);
  }
}
