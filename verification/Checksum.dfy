/**
 * The Internet checksums of the synthesised reply (internal/terminator/wg_device.go).
 *
 * The sender adds 16-bit words in a 32-bit accumulator and folds the carries at the end; the
 * reference is the receiver of section 1 of RFC 1071, who adds with an end-around carry after every
 * word and accepts when the result is all ones.
 */
module Checksum {
  import opened Bytes

  /** The accumulator's type: Dafny checks that no addition leaves it. */
  newtype u32 = x: int | 0 <= x < 0x1_0000_0000

  // ---------------------------------------------------------------- the receiver

  function AddOnes(a: u16, b: u16): u16 {
    if a + b < 0x1_0000 then a + b else a + b - 0xFFFF
  }

  /** An odd last byte counts as the high half of a word. */
  function High(x: byte): u16 { x as int * 0x100 }

  /** One's-complement sum of the big-endian words of `b`; a trailing odd byte is a high byte. */
  function OnesSum(acc: u16, b: seq<byte>): u16
    decreases |b|
  {
    if |b| == 0 then acc
    else if |b| == 1 then AddOnes(acc, High(b[0]))
    else OnesSum(AddOnes(acc, U16(b, 0)), b[2..])
  }

  predicate Accepts(b: seq<byte>) { OnesSum(0, b) == 0xFFFF }

  // ---------------------------------------------------------------- plain sums and their residue

  function Sum(b: seq<byte>): nat {
    if |b| == 0 then 0
    else if |b| == 1 then High(b[0])
    else U16(b, 0) + Sum(b[2..])
  }

  /** The 16-bit one's-complement representative: 0 only for 0, otherwise 1..65535. */
  function Residue(x: nat): u16 {
    if x == 0 then 0 else (x - 1) % 0xFFFF + 1
  }

  lemma ResidueStep(x: nat, w: u16)
    ensures AddOnes(Residue(x), w) == Residue(x + w)
  {}

  lemma ResidueOnce(x: nat)
    requires x > 0
    ensures Residue(x + 0xFFFF) == Residue(x)
  {}

  /** The key fact: folding preserves the value modulo 65535, and zero only comes from zero. */
  lemma {:induction false} ResiduePeriod(x: nat, q: nat)
    requires x > 0
    ensures Residue(x + 0xFFFF * q) == Residue(x)
    decreases q
  {
    if q > 0 {
      ResiduePeriod(x, q - 1);
      assert x + 0xFFFF * q == x + 0xFFFF * (q - 1) + 0xFFFF;
      ResidueOnce(x + 0xFFFF * (q - 1));
    }
  }

  lemma FoldStep(sum: nat)
    ensures Residue(sum % 0x1_0000 + sum / 0x1_0000) == Residue(sum)
  {
    if sum > 0 { ResiduePeriod(sum % 0x1_0000 + sum / 0x1_0000, sum / 0x1_0000); }
  }

  lemma {:induction false} OnesSumIsResidue(x: nat, b: seq<byte>)
    ensures OnesSum(Residue(x), b) == Residue(x + Sum(b))
    decreases |b|
  {
    if |b| == 1 {
      ResidueStep(x, High(b[0]));
    } else if |b| > 1 {
      ResidueStep(x, U16(b, 0));
      OnesSumIsResidue(x + U16(b, 0), b[2..]);
    }
  }

  /** Exactly which byte strings a receiver accepts. */
  lemma AcceptsIff(b: seq<byte>)
    ensures Accepts(b) <==> Sum(b) > 0 && Sum(b) % 0xFFFF == 0
  {
    OnesSumIsResidue(0, b);
    ResidueQuotient(Sum(b));
  }

  /** What the residue leaves out is a multiple of 65535. */
  lemma ResidueQuotient(x: nat)
    ensures Residue(x) == 0 <==> x == 0
    ensures Residue(x) == 0xFFFF <==> x > 0 && x % 0xFFFF == 0
  {}

  lemma {:induction false} SumConcat(a: seq<byte>, b: seq<byte>)
    requires |a| % 2 == 0
    ensures Sum(a + b) == Sum(a) + Sum(b)
  {
    if |a| == 0 {
      assert a + b == b;
    } else {
      assert (a + b)[2..] == a[2..] + b;
      SumConcat(a[2..], b);
    }
  }

  lemma {:induction false} SumReplaced(b: seq<byte>, k: nat, v: u16)
    requires k % 2 == 0 && k + 2 <= |b|
    ensures Sum(SetU16(b, k, v)) == Sum(b) - U16(b, k) + v
  {
    if k == 0 {
      assert SetU16(b, k, v)[2..] == b[2..];
    } else {
      assert SetU16(b, k, v)[2..] == SetU16(b[2..], k - 2, v);
      assert U16(b[2..], k - 2) == U16(b, k);
      SumReplaced(b[2..], k - 2, v);
    }
  }

  /** A corrupted word is noticed, unless it turned one representation of zero into the other. */
  lemma CorruptionDetected(b: seq<byte>, k: nat, v: u16)
    requires Accepts(b) && k % 2 == 0 && k + 2 <= |b|
    ensures Accepts(SetU16(b, k, v)) <==>
            v == U16(b, k) || ({v, U16(b, k)} == {0, 0xFFFF} && Sum(SetU16(b, k, v)) > 0)
  {
    SumReplaced(b, k, v);
    AcceptsIff(b);
    AcceptsIff(SetU16(b, k, v));
    ShiftedMultiple(Sum(b), v - U16(b, k));
  }

  lemma ShiftedMultiple(x: int, d: int)
    requires x % 0xFFFF == 0 && -0xFFFF <= d <= 0xFFFF
    ensures (x + d) % 0xFFFF == 0 <==> d == 0 || d == 0xFFFF || d == -0xFFFF
  {}

  // ---------------------------------------------------------------- the sender

  /** Writing the complemented residue into a zeroed word makes the receiver accept. */
  lemma ComplementAccepted(b: seq<byte>, k: nat, csum: u16)
    requires k % 2 == 0 && k + 2 <= |b| && U16(b, k) == 0
    requires csum == 0xFFFF - Residue(Sum(b)) || (Residue(Sum(b)) == 0xFFFF && csum == 0xFFFF)
    ensures Accepts(SetU16(b, k, csum))
  {
    SumReplaced(b, k, csum);
    AcceptsIff(SetU16(b, k, csum));
    ComplementDivides(Sum(b), csum);
  }

  lemma ComplementDivides(x: nat, csum: u16)
    requires csum == 0xFFFF - Residue(x) || (Residue(x) == 0xFFFF && csum == 0xFFFF)
    ensures x + csum > 0 && (x + csum) % 0xFFFF == 0
  {
    ResidueQuotient(x);
  }

  /** The carry-folding loop shared by both checksums; it ends with the residue. */
  method Fold(start: u32) returns (sum: u32)
    ensures sum as int == Residue(start as int)
  {
    sum := start;
    while sum / 0x1_0000 != 0
      invariant Residue(sum as int) == Residue(start as int)
      decreases sum
    {
      FoldStep(sum as int);
      sum := sum % 0x1_0000 + sum / 0x1_0000;
    }
  }

  /** Adds the words of `buf[from..to]`, stopping before an odd last byte. */
  method AddWords(buf: array<byte>, from: nat, to: nat, start: u32) returns (sum: u32)
    requires from <= to <= buf.Length && to - from <= 0x1_0000 && start <= 0x8_0000
    ensures sum as int == start as int + Sum(buf[from..to - (to - from) % 2])
    ensures sum as int <= start as int + 0xFFFF * ((to - from) / 2)
  {
    ghost var even := to - (to - from) % 2;
    sum := start;
    var i := from;
    while i + 1 < to
      invariant from <= i <= even && (i - from) % 2 == 0
      invariant sum as int <= start as int + 0xFFFF * ((i - from) / 2)
      invariant sum as int + Sum(buf[i..even]) == start as int + Sum(buf[from..even])
    {
      assert buf[i..even][2..] == buf[i + 2..even];
      sum := sum + (buf[i] as int * 0x100 + buf[i + 1]) as u32;
      i := i + 2;
    }
  }

  /** The first `len` bytes of `buf` are an IPv4 header whose checksum field is still zero. */
  method IpChecksum(buf: array<byte>, len: nat)
    requires 12 <= len <= buf.Length && len % 2 == 0 && len <= 0x1_0000
    requires buf[10] == 0 && buf[11] == 0
    modifies buf
    ensures buf[..] == SetU16(old(buf[..]), 10, U16(buf[..], 10))
    ensures Accepts(buf[..len])
  {
    ghost var hdr := buf[..len];
    assert buf[0..len] == hdr;
    var sum := AddWords(buf, 0, len, 0);
    sum := Fold(sum);
    var csum: u16 := 0xFFFF - sum as int;
    ComplementAccepted(hdr, 10, csum);
    buf[10], buf[11] := csum / 0x100, csum % 0x100;
    assert buf[..] == SetU16(old(buf[..]), 10, csum);
    assert buf[..len] == SetU16(hdr, 10, csum);
  }

  /** The IPv4 pseudo-header of RFC 768 followed by the datagram. */
  function Pseudo(packet: seq<byte>): seq<byte>
    requires |packet| >= 28
  {
    packet[12..20] + [0, packet[9]] + packet[24..26] + packet[20..]
  }

  lemma PseudoSum(packet: seq<byte>)
    requires |packet| >= 28
    ensures Sum(Pseudo(packet)) == Sum(packet[12..20]) + packet[9] + U16(packet, 24) + Sum(packet[20..])
  {
    var a, b, c := packet[12..20], [0, packet[9]], packet[24..26];
    SumConcat(a + b + c, packet[20..]);
    SumConcat(a + b, c);
    SumConcat(a, b);
    assert b[2..] == [] && c[2..] == [];
    assert Sum(b) == packet[9] && Sum(c) == U16(packet, 24);
  }

  lemma SumOddTail(b: seq<byte>)
    requires |b| % 2 == 1
    ensures Sum(b) == Sum(b[..|b| - 1]) + High(b[|b| - 1])
  {
    SumConcat(b[..|b| - 1], [b[|b| - 1]]);
    assert b[..|b| - 1] + [b[|b| - 1]] == b;
  }

  /** Every byte at an even offset counts 256 times, every byte at an odd one once. */
  ghost function Weighed(b: seq<byte>): nat {
    if b == [] then 0
    else Weighed(b[..|b| - 1]) + if |b| % 2 == 1 then 0x100 * b[|b| - 1] as int else b[|b| - 1]
  }

  lemma {:induction false} SumWeighs(b: seq<byte>)
    ensures Sum(b) == Weighed(b)
  {
    if b != [] {
      var front := b[..|b| - 1];
      SumWeighs(front);
      if |b| % 2 == 1 {
        SumOddTail(b);
      } else {
        SumOddTail(front);
        SumLastWord(b, front[..|b| - 2]);
      }
    }
  }

  lemma SumLastWord(b: seq<byte>, head: seq<byte>)
    requires |b| >= 2 && |b| % 2 == 0 && head == b[..|b| - 2]
    ensures Sum(b) == Sum(head) + 0x100 * b[|b| - 2] as int + b[|b| - 1]
  {
    var last := [b[|b| - 2], b[|b| - 1]];
    SumConcat(head, last);
    assert head + last == b && last[2..] == [];
  }

  /** A receiver accepts exactly the non-zero strings whose weighed bytes add up to a multiple of 65535. */
  lemma AcceptsWeighed(b: seq<byte>)
    ensures Accepts(b) <==> Weighed(b) > 0 && Weighed(b) % 0xFFFF == 0
  {
    AcceptsIff(b);
    SumWeighs(b);
  }

  /** The unfolded sum: pseudo-header, datagram words, odd last byte. */
  method UdpSum(buf: array<byte>) returns (sum: u32)
    requires 28 <= buf.Length <= 20 + 0xFFFF
    ensures sum as int == Sum(Pseudo(buf[..]))
  {
    PseudoSum(buf[..]);
    assert buf[12..20] == buf[..][12..20] && buf[20..buf.Length] == buf[..][20..];
    sum := AddWords(buf, 12, 20, 0);
    sum := sum + buf[9] as u32;
    sum := sum + (buf[24] as int * 0x100 + buf[25]) as u32;
    sum := AddWords(buf, 20, buf.Length, sum);
    if (buf.Length - 20) % 2 == 1 {
      SumOddTail(buf[20..]);
      assert buf[20..buf.Length - 1] == buf[20..][..buf.Length - 21];
      sum := sum + High(buf[buf.Length - 1]) as u32;
    }
  }

  /** `buf` is a plain 20-byte IPv4 header and a UDP datagram whose checksum field is still zero. */
  method UdpChecksum(buf: array<byte>)
    requires 28 <= buf.Length <= 20 + 0xFFFF
    requires buf[26] == 0 && buf[27] == 0
    modifies buf
    ensures buf[..] == SetU16(old(buf[..]), 26, U16(buf[..], 26))
    ensures Accepts(Pseudo(buf[..]))
    ensures U16(buf[..], 26) != 0
  {
    var sum := UdpSum(buf);
    sum := Fold(sum);
    var csum: u16 := 0xFFFF - sum as int;
    if csum == 0 { csum := 0xFFFF; }
    SetUdpChecksum(buf[..], csum);
    buf[26], buf[27] := csum / 0x100, csum % 0x100;
    assert buf[..] == SetU16(old(buf[..]), 26, csum);
  }

  lemma SetUdpChecksum(packet: seq<byte>, csum: u16)
    requires |packet| >= 28 && U16(packet, 26) == 0
    requires var r := Residue(Sum(Pseudo(packet)));
             csum == 0xFFFF - r || (r == 0xFFFF && csum == 0xFFFF)
    ensures Accepts(Pseudo(SetU16(packet, 26, csum)))
  {
    // The checksum word sits at an even offset of the pseudo-header and datagram together.
    var p, packet' := Pseudo(packet), SetU16(packet, 26, csum);
    assert U16(p, 18) == U16(packet, 26);
    assert Pseudo(packet') == SetU16(p, 18, csum);
    ComplementAccepted(p, 18, csum);
  }
}
