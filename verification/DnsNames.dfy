/**
 * Reading DNS names, and joining and splitting them (internal/dns/wire.go).
 *
 * A name is the byte string of its labels joined with dots, as in the source: a label may itself
 * contain a dot. Following compression pointers has no hop bound, so reading may never end; the
 * model says exactly when it does not.
 */
module DnsNames {
  import opened Common
  import opened Bytes

  type Label = seq<byte>
  const DOT: byte := 0x2E

  datatype Read<+T> = Done(value: T) | Short | Diverges

  // ---------------------------------------------------------------- one step of the cursor

  function Pointer(b: seq<byte>, off: nat): nat
    requires off + 1 < |b|
  {
    (b[off] % 0x40) as int * 0x100 + b[off + 1]
  }

  /** Where the cursor goes next; `None` when reading stops, at the end or at an error. */
  function Next(b: seq<byte>, off: nat): Option<nat> {
    if off >= |b| || b[off] == 0 then None
    else if b[off] >= 0xC0 then (if off + 1 >= |b| then None else Some(Pointer(b, off)))
    else if off + 1 + b[off] > |b| then None
    else Some(off + 1 + b[off])
  }

  /** The labels read from `off`, giving up after `fuel` steps. */
  function Walk(b: seq<byte>, off: nat, fuel: nat): Read<seq<Label>>
    decreases fuel
  {
    if fuel == 0 then Diverges
    else if off >= |b| then Short
    else if b[off] == 0 then Done([])
    else if b[off] >= 0xC0 then
      (if off + 1 >= |b| then Short else Walk(b, Pointer(b, off), fuel - 1))
    else if off + 1 + b[off] > |b| then Short
    else Prepend([b[off + 1..off + 1 + b[off]]], Walk(b, off + 1 + b[off], fuel - 1))
  }

  function Prepend(ls: seq<Label>, r: Read<seq<Label>>): Read<seq<Label>> {
    if r.Done? then Done(ls + r.value) else r
  }

  /** More steps than the message has bytes visit some offset twice. */
  function Labels(b: seq<byte>, off: nat): Read<seq<Label>> {
    Walk(b, off, |b| + 1)
  }

  /** The offset just after the uncompressed part: past the zero byte or the first pointer. */
  function RunEnd(b: seq<byte>, off: nat): (e: nat)
    ensures e >= off
    decreases |b| - off
  {
    if off >= |b| then off
    else if b[off] == 0 then off + 1
    else if b[off] >= 0xC0 then off + 2
    else RunEnd(b, off + 1 + b[off])
  }

  // ---------------------------------------------------------------- termination, exactly

  function Position(b: seq<byte>, off: nat, k: nat): Option<nat>
    decreases k
  {
    if k == 0 then Some(off)
    else match Next(b, off) case None => None case Some(o) => Position(b, o, k - 1)
  }

  lemma {:induction false} WalkPosition(b: seq<byte>, off: nat, fuel: nat)
    ensures Walk(b, off, fuel) == Diverges <==> Position(b, off, fuel).Some?
    decreases fuel
  {
    if fuel > 0 && Next(b, off).Some? { WalkPosition(b, Next(b, off).value, fuel - 1); }
  }

  lemma {:induction false} PositionAdd(b: seq<byte>, off: nat, i: nat, j: nat)
    ensures Position(b, off, i + j) ==
            match Position(b, off, i) case None => None case Some(o) => Position(b, o, j)
    decreases i
  {
    if i > 0 && Next(b, off).Some? { PositionAdd(b, Next(b, off).value, i - 1, j); }
  }

  lemma {:induction false} Pigeonhole(p: seq<nat>, n: nat) returns (i: nat, j: nat)
    requires |p| > n && forall k :: 0 <= k < |p| ==> p[k] < n
    ensures i < j < |p| && p[i] == p[j]
    decreases n
  {
    if k :| 0 <= k < |p| && p[k] == n - 1 {
      if m :| 0 <= m < |p| && m != k && p[m] == n - 1 {
        return (if k < m then k else m), (if k < m then m else k);
      }
      var q := p[..k] + p[k + 1..];
      i, j := Pigeonhole(q, n - 1);
      i, j := (if i < k then i else i + 1), (if j < k then j else j + 1);
    } else {
      assert n > 0 by { assert p[0] < n; }
      i, j := Pigeonhole(p, n - 1);
    }
  }

  lemma {:induction false} PositionRepeats(b: seq<byte>, o: nat, period: nat, times: nat)
    requires period > 0 && Position(b, o, period) == Some(o)
    ensures Position(b, o, period * times) == Some(o)
  {
    if times > 0 {
      PositionRepeats(b, o, period, times - 1);
      PositionAdd(b, o, period * (times - 1), period);
      assert period * (times - 1) + period == period * times;
    }
  }

  lemma Revisits(b: seq<byte>, off: nat) returns (i: nat, j: nat, o: nat)
    requires Labels(b, off) == Diverges
    ensures i < j && Position(b, off, i) == Position(b, off, j) == Some(o)
  {
    var n := |b|;
    WalkPosition(b, off, n + 1);
    forall k | 0 <= k <= n ensures Position(b, off, k).Some? && Position(b, off, k).value < n {
      PositionAdd(b, off, k, n + 1 - k);
    }
    var p := seq(n + 1, k requires 0 <= k <= n => Position(b, off, k).value);
    i, j := Pigeonhole(p, n);
    o := p[i];
  }

  lemma MulAtLeast(a: nat, k: nat)
    requires a > 0
    ensures a * k >= k
  {
    assert a * k == (a - 1) * k + k;
  }

  lemma CycleRunsOn(b: seq<byte>, off: nat, i: nat, period: nat, o: nat, k: nat)
    requires period > 0 && Position(b, off, i) == Some(o) && Position(b, o, period) == Some(o)
    ensures Position(b, off, k).Some?
  {
    PositionRepeats(b, o, period, k);
    var lap: nat := period * k;
    MulAtLeast(period, k);
    PositionAdd(b, off, i, lap);
    PositionAdd(b, off, k, i + lap - k);
  }

  /** Running out of `|b| + 1` steps is genuine: reading then never ends. */
  lemma DivergesForever(b: seq<byte>, off: nat, fuel: nat)
    requires Labels(b, off) == Diverges
    ensures Walk(b, off, fuel) == Diverges
  {
    var i, j, o := Revisits(b, off);
    PositionAdd(b, off, i, j - i);
    CycleRunsOn(b, off, i, j - i, o, fuel);
    WalkPosition(b, off, fuel);
  }

  /** Two different moments of the walk at the same offset. */
  ghost predicate Repeats(b: seq<byte>, off: nat, i: nat, j: nat) {
    i < j && Position(b, off, i).Some? && Position(b, off, i) == Position(b, off, j)
  }

  /** A name is never read to its end exactly when the cursor comes back to an offset it has left. */
  lemma DivergesIff(b: seq<byte>, off: nat)
    ensures Labels(b, off) == Diverges <==> exists i: nat, j: nat :: Repeats(b, off, i, j)
  {
    var all: nat := |b| + 1;
    WalkPosition(b, off, all);
    if Labels(b, off) == Diverges {
      var i, j, o := Revisits(b, off);
      assert Repeats(b, off, i, j);
    }
    if i: nat, j: nat :| Repeats(b, off, i, j) {
      PositionAdd(b, off, i, j - i);
      CycleRunsOn(b, off, i, j - i, Position(b, off, i).value, all);
    }
  }

  /** Reading ends exactly when it ends within one step per byte of the message, plus one. */
  lemma TerminatesIff(b: seq<byte>, off: nat)
    ensures Labels(b, off) != Diverges <==> exists fuel: nat :: Walk(b, off, fuel) != Diverges
  {
    var all: nat := |b| + 1;
    assert Labels(b, off) == Walk(b, off, all);
    if fuel: nat :| Walk(b, off, fuel) != Diverges {
      if Labels(b, off) == Diverges { DivergesForever(b, off, fuel); }
    }
  }

  lemma {:induction false} MoreFuel(b: seq<byte>, off: nat, fuel: nat, more: nat)
    requires Walk(b, off, fuel) != Diverges && fuel <= more
    ensures Walk(b, off, more) == Walk(b, off, fuel)
    decreases fuel
  {
    if Next(b, off).Some? { MoreFuel(b, Next(b, off).value, fuel - 1, more - 1); }
  }

  /** Any fuel that suffices gives the name. */
  lemma LabelsFrom(b: seq<byte>, off: nat, fuel: nat)
    requires Walk(b, off, fuel) != Diverges
    ensures Labels(b, off) == Walk(b, off, fuel)
  {
    TerminatesIff(b, off);
    if fuel <= |b| + 1 { MoreFuel(b, off, fuel, |b| + 1); } else { MoreFuel(b, off, |b| + 1, fuel); }
  }

  /** Every pointer met goes strictly below the start of the run it was found in. */
  predicate Descending(b: seq<byte>, start: nat, off: nat)
    requires start <= off
    decreases start, |b| - off
  {
    if off >= |b| || b[off] == 0 then true
    else if b[off] >= 0xC0 then
      off + 1 >= |b| || (Pointer(b, off) < start && Descending(b, Pointer(b, off), Pointer(b, off)))
    else Descending(b, start, off + 1 + b[off])
  }

  lemma {:induction false} DescendingTerminates(b: seq<byte>, start: nat, off: nat) returns (fuel: nat)
    requires start <= off && Descending(b, start, off)
    ensures Walk(b, off, fuel) != Diverges
    decreases start, |b| - off
  {
    fuel := 0;
    if Next(b, off).Some? {
      if b[off] >= 0xC0 {
        fuel := DescendingTerminates(b, Pointer(b, off), Pointer(b, off));
      } else {
        fuel := DescendingTerminates(b, start, off + 1 + b[off]);
      }
    }
    fuel := fuel + 1;
  }

  lemma DescendingReads(b: seq<byte>, off: nat)
    requires Descending(b, off, off)
    ensures Labels(b, off) != Diverges
  {
    var fuel := DescendingTerminates(b, off, off);
    LabelsFrom(b, off, fuel);
  }

  /** A pointer to itself is the smallest message whose name is never read to the end. */
  lemma SelfPointerDiverges()
    ensures Labels([0xC0, 0x00], 0) == Diverges
  {
    var b: seq<byte> := [0xC0, 0x00];
    assert Pointer(b, 0) == 0 && Next(b, 0) == Some(0);
    PositionRepeats(b, 0, 1, 3);
    WalkPosition(b, 0, 3);
  }

  // ---------------------------------------------------------------- joining and splitting

  function Join(ls: seq<Label>): seq<byte> {
    if |ls| == 0 then []
    else if |ls| == 1 then ls[0]
    else ls[0] + [DOT] + Join(ls[1..])
  }

  function Split(s: seq<byte>): (ps: seq<seq<byte>>)
    ensures |ps| >= 1
  {
    if s == [] then [[]]
    else if s[0] == DOT then [[]] + Split(s[1..])
    else
      var rest := Split(s[1..]);
      [[s[0]] + rest[0]] + rest[1..]
  }

  function NonEmpty(ps: seq<seq<byte>>): (r: seq<seq<byte>>)
    ensures forall p :: p in r <==> p in ps && p != []
    ensures |r| <= |ps|
  {
    if ps == [] then [] else (if ps[0] == [] then [] else [ps[0]]) + NonEmpty(ps[1..])
  }

  lemma {:induction false} JoinSplit(s: seq<byte>)
    ensures Join(Split(s)) == s
  {
    if s != [] {
      JoinSplit(s[1..]);
      var rest := Split(s[1..]);
      if s[0] == DOT {
        assert Split(s)[1..] == rest;
        assert Join(Split(s)) == [] + [DOT] + Join(rest);
      } else {
        JoinHead(s[0], rest);
      }
    }
  }

  lemma JoinHead(c: byte, ps: seq<seq<byte>>)
    requires ps != []
    ensures Join([[c] + ps[0]] + ps[1..]) == [c] + Join(ps)
  {
    var qs := [[c] + ps[0]] + ps[1..];
    assert qs[1..] == ps[1..];
    if |ps| > 1 {
      assert Join(qs) == ([c] + ps[0]) + [DOT] + Join(ps[1..]);
      assert ([c] + ps[0]) + [DOT] == [c] + (ps[0] + [DOT]);
      Assoc([c], ps[0] + [DOT], Join(ps[1..]));
    }
  }

  lemma {:induction false} JoinLength(ps: seq<seq<byte>>)
    ensures |Join(NonEmpty(ps))| <= |Join(ps)|
    ensures ps != [] && |Join(NonEmpty(ps))| == |Join(ps)| ==> NonEmpty(ps) == ps || ps == [[]]
    ensures NonEmpty(ps) != [] ==> Join(NonEmpty(ps)) != []
  {
    if ps != [] {
      JoinLength(ps[1..]);
      var rest := NonEmpty(ps[1..]);
      if ps[0] == [] {
        assert NonEmpty(ps) == rest;
      } else {
        assert NonEmpty(ps) == [ps[0]] + rest;
        assert ([ps[0]] + rest)[1..] == rest;
        assert [ps[0]] + ps[1..] == ps;
      }
    }
  }

  /** Dropping empty pieces keeps the name exactly when there are none, or the name is the root. */
  lemma RejoinIff(name: seq<byte>)
    ensures Join(NonEmpty(Split(name))) == name <==> name == [] || [] !in Split(name)
  {
    var ps := Split(name);
    JoinSplit(name);
    JoinLength(ps);
    if name != [] && [] !in ps { KeepsAll(ps); }
    if name == [] { assert NonEmpty([[]]) == []; }
  }

  lemma {:induction false} KeepsAll(ps: seq<seq<byte>>)
    requires [] !in ps
    ensures NonEmpty(ps) == ps
  {
    if ps != [] {
      assert [] !in ps[1..];
      KeepsAll(ps[1..]);
      assert [ps[0]] + ps[1..] == ps;
    }
  }
}
