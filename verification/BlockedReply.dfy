/**
 * Filtering DNS queries inside the relay's tunnel terminator and answering blocked ones
 * (internal/terminator/wg_device.go). A packet is a full IPv4 + UDP + DNS byte string.
 */
module BlockedReply {
  import opened Common
  import opened Bytes
  import opened Checksum
  import opened DnsNames
  import opened DnsMessages

  const UDP: byte := 17

  function HeaderLength(pkt: seq<byte>): nat
    requires pkt != []
  {
    pkt[0] % 0x10 * 4
  }

  predicate IsDnsQuery(pkt: seq<byte>) {
    && |pkt| >= 28 && pkt[0] / 0x10 == 4
    && HeaderLength(pkt) >= 20 && |pkt| >= HeaderLength(pkt) + 8
    && pkt[9] == UDP && U16(pkt, HeaderLength(pkt) + 2) == 53
  }

  /** The checks of the reply builder: everything but the port, plus the UDP length. */
  predicate Replyable(pkt: seq<byte>) {
    && |pkt| >= 28 && pkt[0] / 0x10 == 4
    && HeaderLength(pkt) >= 20 && |pkt| >= HeaderLength(pkt) + 8
    && pkt[9] == UDP
    && 8 <= U16(pkt, HeaderLength(pkt) + 4)
    && HeaderLength(pkt) + U16(pkt, HeaderLength(pkt) + 4) <= |pkt|
  }

  function Payload(pkt: seq<byte>): seq<byte>
    requires Replyable(pkt)
  {
    var udp := HeaderLength(pkt);
    pkt[udp + 8..udp + U16(pkt, udp + 4)]
  }

  // ---------------------------------------------------------------- the name that is filtered

  /** The labels from `pos`; `count` were read before. A missing root label is not an error here. */
  function PlainLabels(pkt: seq<byte>, pos: nat, count: nat): Option<seq<Label>>
    decreases |pkt| - pos
  {
    if pos >= |pkt| || pkt[pos] == 0 then Some([])
    else if pkt[pos] >= 0x40 || pos + 1 + pkt[pos] > |pkt| || count >= 127 then None
    else After([pkt[pos + 1..pos + 1 + pkt[pos]]], PlainLabels(pkt, pos + 1 + pkt[pos], count + 1))
  }

  function After(ls: seq<Label>, rest: Option<seq<Label>>): Option<seq<Label>> {
    if rest.Some? then Some(ls + rest.value) else None
  }

  lemma AfterNext(ls: seq<Label>, l: Label, rest: Option<seq<Label>>)
    ensures After(ls, After([l], rest)) == After(ls + [l], rest)
    ensures After([], rest) == rest
    ensures After(ls, Some([])) == Some(ls)
  {
    if rest.Some? {
      Assoc(ls, [l], rest.value);
      assert [] + rest.value == rest.value;
    }
    assert ls + [] == ls;
  }

  function ExtractName(pkt: seq<byte>): Option<seq<byte>> {
    if |pkt| < 28 || |pkt| < HeaderLength(pkt) + 20 then None
    else Joined(PlainLabels(pkt, HeaderLength(pkt) + 20, 0))
  }

  function Joined(r: Option<seq<Label>>): Option<seq<byte>> {
    if r.Some? then Some(Join(r.value)) else None
  }

  method ExtractDnsQName(pkt: seq<byte>) returns (name: Option<seq<byte>>)
    ensures name == ExtractName(pkt)
  {
    if |pkt| < 28 { return None; }
    var dnsStart := HeaderLength(pkt) + 8;
    if |pkt| < dnsStart + 12 { return None; }
    var pos := dnsStart + 12;
    var labels: seq<Label> := [];
    ghost var start := pos;
    AfterNext([], [], PlainLabels(pkt, start, 0));
    while pos < |pkt|
      invariant start <= pos && |labels| <= 127
      invariant PlainLabels(pkt, start, 0) == After(labels, PlainLabels(pkt, pos, |labels|))
      decreases |pkt| - pos
    {
      var l := pkt[pos];
      if l == 0 { break; }
      if l >= 0x40 { return None; }
      pos := pos + 1;
      if pos + l > |pkt| { return None; }
      AfterNext(labels, pkt[pos..pos + l], PlainLabels(pkt, pos + l, |labels| + 1));
      if |labels| + 1 > 127 { return None; }
      labels := labels + [pkt[pos..pos + l]];
      pos := pos + l;
    }
    AfterNext(labels, [], None);
    return Some(Join(labels));
  }

  /** Two readers of the same bytes: `b` is the stretch of `pkt` starting at `base`. */
  ghost predicate Window(pkt: seq<byte>, base: nat, b: seq<byte>) {
    base + |b| <= |pkt| && forall i :: 0 <= i < |b| ==> b[i] == pkt[base + i]
  }

  lemma {:induction false} SameLabels(pkt: seq<byte>, base: nat, b: seq<byte>, off: nat, count: nat, fuel: nat)
    requires Window(pkt, base, b) && PlainLabels(pkt, base + off, count).Some? && Walk(b, off, fuel).Done?
    ensures Walk(b, off, fuel) == Done(PlainLabels(pkt, base + off, count).value)
    decreases fuel
  {
    if b[off] != 0 {
      var l := b[off];
      assert b[off + 1..off + 1 + l] == pkt[base + off + 1..base + off + 1 + l];
      SameLabels(pkt, base, b, off + 1 + l, count + 1, fuel - 1);
    }
  }

  /**
   * The name checked against the blocklist is the name the reply builder reads, whenever both
   * succeed: a packet cannot show one name to the filter and another to the resolver.
   */
  lemma FilterSeesTheName(pkt: seq<byte>)
    requires Replyable(pkt) && ExtractName(pkt).Some?
    requires ParseQuery(Payload(pkt)).Done? && ParseQuery(Payload(pkt)).value.questions != []
    ensures ParseQuery(Payload(pkt)).value.questions[0].name == ExtractName(pkt).value
  {
    var b := Payload(pkt);
    SameLabels(pkt, HeaderLength(pkt) + 8, b, 12, 0, |b| + 1);
  }

  /** Labels of the lengths RFC 1035 allows. */
  ghost predicate LabelSized(ps: seq<seq<byte>>) {
    forall p :: p in ps ==> 1 <= |p| < 0x40
  }

  lemma ShortTail(ps: seq<seq<byte>>)
    requires LabelSized(ps) && ps != []
    ensures 1 <= |ps[0]| < 0x40 && LabelSized(ps[1..]) && After([ps[0]], Some(ps[1..])) == Some(ps)
  {
    assert ps[0] in ps && [ps[0]] + ps[1..] == ps;
  }

  lemma {:induction false} EncodedIsPlain(pkt: seq<byte>, pos: nat, ps: seq<seq<byte>>, count: nat)
    requires HoldsName(pkt, pos, ps) && |ps| + count <= 127 && LabelSized(ps)
    ensures PlainLabels(pkt, pos, count) == Some(ps)
    decreases |ps|
  {
    if ps == [] {
      assert EncodeLabels(ps) == [];
    } else {
      ShortTail(ps);
      PlainStep(pkt, pos, ps, count);
      EncodedIsPlain(pkt, pos + 1 + |ps[0]|, ps[1..], count + 1);
    }
  }

  lemma PlainStep(pkt: seq<byte>, pos: nat, ps: seq<seq<byte>>, count: nat)
    requires HoldsName(pkt, pos, ps) && ps != [] && 1 <= |ps[0]| < 0x40 && count < 127
    ensures HoldsName(pkt, pos + 1 + |ps[0]|, ps[1..])
    ensures PlainLabels(pkt, pos, count) == After([ps[0]], PlainLabels(pkt, pos + 1 + |ps[0]|, count + 1))
  {
    FirstLabel(pkt, pos, ps);
  }

  lemma HoldsInPacket(pkt: seq<byte>, base: nat, b: seq<byte>, off: nat, ps: seq<seq<byte>>)
    requires Window(pkt, base, b) && HoldsName(b, off, ps)
    ensures HoldsName(pkt, base + off, ps)
  {
    var n := |EncodeLabels(ps)|;
    assert b[off..off + n] == pkt[base + off..base + off + n];
  }

  /** A well-formed uncompressed name of up to 127 labels is always extracted, and is the name read. */
  lemma WellFormedExtracted(pkt: seq<byte>, ps: seq<seq<byte>>)
    requires Replyable(pkt) && |Payload(pkt)| >= 12 && U16(Payload(pkt), 4) >= 1
    requires HoldsName(Payload(pkt), 12, ps) && |ps| <= 127
    requires LabelSized(ps)
    ensures ExtractName(pkt) == Some(Join(ps))
    ensures ReadName(Payload(pkt), 12) == Done(NameAt(Join(ps), |EncodeLabels(ps)| + 1))
  {
    var base, b := HeaderLength(pkt) + 8, Payload(pkt);
    assert Window(pkt, base, b);
    HoldsInPacket(pkt, base, b, 12, ps);
    EncodedExtracted(pkt, base + 12, ps);
    PayloadReads(b, ps);
  }

  lemma EncodedExtracted(pkt: seq<byte>, pos: nat, ps: seq<seq<byte>>)
    requires 28 <= |pkt| && pos == HeaderLength(pkt) + 20
    requires HoldsName(pkt, pos, ps) && |ps| <= 127
    requires LabelSized(ps)
    ensures ExtractName(pkt) == Some(Join(ps))
  {
    EncodedIsPlain(pkt, pos, ps, 0);
    PlainExtracted(pkt, pos, ps);
  }

  lemma PayloadReads(b: seq<byte>, ps: seq<seq<byte>>)
    requires HoldsName(b, 12, ps) && LabelSized(ps)
    ensures ReadName(b, 12) == Done(NameAt(Join(ps), |EncodeLabels(ps)| + 1))
  {
    EncodedReads(b, 12, ps);
  }

  // ---------------------------------------------------------------- names the filter cannot read

  /** After `k` steps of the walk the cursor stands on a pointer, or on a length above 63. */
  ghost predicate IrregularAt(b: seq<byte>, off: nat, k: nat) {
    var p := Position(b, off, k);
    p.Some? && p.value < |b| && b[p.value] >= 0x40
  }

  ghost predicate Irregular(b: seq<byte>, off: nat) { exists k: nat :: IrregularAt(b, off, k) }

  lemma IrregularStep(b: seq<byte>, off: nat)
    requires off < |b|
    ensures b[off] >= 0x40 ==> Irregular(b, off)
    ensures b[off] == 0 ==> !Irregular(b, off)
    ensures 0 < b[off] < 0x40 && off + 1 + b[off] <= |b| ==> (Irregular(b, off) <==> Irregular(b, off + 1 + b[off]))
  {
    if b[off] >= 0x40 {
      assert IrregularAt(b, off, 0);
    } else if 0 < b[off] && off + 1 + b[off] <= |b| {
      var next := off + 1 + b[off];
      if k: nat :| IrregularAt(b, off, k) {
        assert k > 0 && IrregularAt(b, next, k - 1);
      }
      if k: nat :| IrregularAt(b, next, k) {
        assert IrregularAt(b, off, k + 1);
      }
    }
  }

  lemma {:induction false} PlainFailsIff(pkt: seq<byte>, base: nat, b: seq<byte>, off: nat, count: nat, fuel: nat)
    requires Window(pkt, base, b) && Walk(b, off, fuel).Done? && count <= 127
    ensures PlainLabels(pkt, base + off, count).None? <==> Irregular(b, off) || count + |Walk(b, off, fuel).value| > 127
    decreases fuel
  {
    IrregularStep(b, off);
    assert b[off] == pkt[base + off];
    if 0 < b[off] < 0x40 && count < 127 {
      PlainFailsIff(pkt, base, b, off + 1 + b[off], count + 1, fuel - 1);
    }
  }

  /**
   * Of a query that the reply builder can read, the filter fails to extract the name exactly when that
   * name meets a compression pointer or a length above 63, or has more than 127 labels.
   */
  lemma ExtractFailsIff(pkt: seq<byte>)
    requires Replyable(pkt) && ParseQuery(Payload(pkt)).Done? && ParseQuery(Payload(pkt)).value.questions != []
    ensures ExtractName(pkt).None? <==> Irregular(Payload(pkt), 12) || |Labels(Payload(pkt), 12).value| > 127
  {
    var b := Payload(pkt);
    var base := HeaderLength(pkt) + 8;
    FirstNameRead(b);
    assert Window(pkt, base, b);
    PlainFailsIff(pkt, base, b, 12, 0, |b| + 1);
  }

  lemma FirstNameRead(b: seq<byte>)
    requires ParseQuery(b).Done? && ParseQuery(b).value.questions != []
    ensures Labels(b, 12).Done?
  {}

  lemma PlainExtracted(pkt: seq<byte>, pos: nat, ls: seq<Label>)
    requires 28 <= |pkt| && pos == HeaderLength(pkt) + 20 && pos <= |pkt|
    requires PlainLabels(pkt, pos, 0) == Some(ls)
    ensures ExtractName(pkt) == Some(Join(ls))
  {}

  // ---------------------------------------------------------------- the reply always fits

  lemma {:induction false} PlainLength(pkt: seq<byte>, pos: nat, count: nat)
    requires count <= 127 && PlainLabels(pkt, pos, count).Some?
    ensures var ls := PlainLabels(pkt, pos, count).value;
            |ls| <= 127 - count && |Join(ls)| <= 64 * (127 - count)
    decreases |pkt| - pos
  {
    if pos < |pkt| && pkt[pos] != 0 {
      PlainLength(pkt, pos + 1 + pkt[pos], count + 1);
      var ls := PlainLabels(pkt, pos, count).value;
      assert ls[1..] == PlainLabels(pkt, pos + 1 + pkt[pos], count + 1).value;
    }
  }

  lemma {:induction false} EncodedLength(ps: seq<seq<byte>>)
    ensures |EncodeLabels(NonEmpty(ps))| <= |Join(ps)| + 1
  {
    if |ps| == 1 {
      assert NonEmpty(ps[1..]) == [];
      assert NonEmpty(ps) == if ps[0] == [] then [] else [ps[0]];
    } else if |ps| > 1 {
      EncodedLength(ps[1..]);
      var tail := NonEmpty(ps[1..]);
      if ps[0] != [] {
        assert NonEmpty(ps) == [ps[0]] + tail;
        assert ([ps[0]] + tail)[1..] == tail;
      } else {
        assert NonEmpty(ps) == tail;
      }
    }
  }

  /**
   * Once a name has been extracted, the reply to it cannot overflow the 16-bit length fields,
   * for any packet an IPv4 header can describe.
   */
  lemma ReplyFits(pkt: seq<byte>, ip: seq<byte>)
    requires |ip| == 4 && Replyable(pkt) && |pkt| <= 0xFFFF && ExtractName(pkt).Some?
    ensures |SinkholeOrNx(Payload(pkt), ip)| + 28 <= 0xFFFF
  {
    var b := Payload(pkt);
    var m := ParseQuery(b);
    if m.Done? && m.value.questions != [] {
      FilterSeesTheName(pkt);
      PlainLength(pkt, HeaderLength(pkt) + 20, 0);
      var name := m.value.questions[0].name;
      JoinSplit(name);
      EncodedLength(Split(name));
    }
  }

  // ---------------------------------------------------------------- the reply packet

  /** What the tunnel client receives for `query`, with DNS message `dns` inside. */
  ghost predicate RepliesTo(out: seq<byte>, query: seq<byte>, dns: seq<byte>)
    requires Replyable(query)
  {
    var udp := HeaderLength(query);
    // a plain IPv4 header, unfragmented UDP, its length the packet's
    && |out| == 28 + |dns| && out[0] == 0x45 && out[1] == query[1]
    && U16(out, 2) == |out| && U16(out, 4) == 0 && U16(out, 6) == 0x4000
    && out[8] == 64 && out[9] == UDP
    // addresses and ports exchanged
    && out[12..16] == query[16..20] && out[16..20] == query[12..16]
    && out[20..22] == query[udp + 2..udp + 4] && out[22..24] == query[udp..udp + 2]
    // the datagram carries the DNS reply
    && U16(out, 24) == |dns| + 8 && out[28..] == dns
    // both checksums satisfy the receiver, and the UDP one is never the "unchecked" zero
    && Accepts(out[..20]) && Accepts(Pseudo(out)) && U16(out, 26) != 0
  }

  /** Copies `data` into the buffer, which is filled from left to right. */
  method PutAt(buf: array<byte>, at: nat, data: seq<byte>)
    requires at + |data| <= buf.Length
    modifies buf
    ensures buf[..at + |data|] == old(buf[..at]) + data
  {
    forall i | 0 <= i < |data| { buf[at + i] := data[i]; }
  }

  /** The IPv4 header of the reply before its checksum. */
  function IpHeader(query: seq<byte>, length: u16): (h: seq<byte>)
    requires |query| >= 20
    ensures |h| == 20
  {
    [0x45, query[1]] + PutU16(length) + [0, 0, 0x40, 0, 64, UDP, 0, 0] + query[16..20] + query[12..16]
  }

  /** Both headers and the payload, with the two checksum fields still zero. */
  function Unchecked(query: seq<byte>, dns: seq<byte>): (r: seq<byte>)
    requires Replyable(query) && |dns| + 28 <= 0xFFFF
    ensures |r| == 28 + |dns|
  {
    var udp := HeaderLength(query);
    IpHeader(query, 28 + |dns|)
    + query[udp + 2..udp + 4] + query[udp..udp + 2] + PutU16(|dns| + 8) + [0, 0]
    + dns
  }

  lemma UncheckedFields(query: seq<byte>, dns: seq<byte>)
    requires Replyable(query) && |dns| + 28 <= 0xFFFF
    ensures var out := Unchecked(query, dns); var udp := HeaderLength(query);
            && out[0] == 0x45 && out[1] == query[1] && U16(out, 2) == |out| && U16(out, 4) == 0
            && U16(out, 6) == 0x4000 && out[8] == 64 && out[9] == UDP && U16(out, 10) == 0
            && out[12..16] == query[16..20] && out[16..20] == query[12..16]
            && out[20..22] == query[udp + 2..udp + 4] && out[22..24] == query[udp..udp + 2]
            && U16(out, 24) == |dns| + 8 && U16(out, 26) == 0 && out[28..] == dns
  {}

  /** Filling in the two checksum words disturbs nothing else. */
  lemma CheckedFields(query: seq<byte>, dns: seq<byte>, a: u16, b: u16, out: seq<byte>)
    requires Replyable(query) && |dns| + 28 <= 0xFFFF
    requires out == SetU16(SetU16(Unchecked(query, dns), 10, a), 26, b) && b != 0
    requires Accepts(SetU16(Unchecked(query, dns), 10, a)[..20]) && Accepts(Pseudo(out))
    ensures RepliesTo(out, query, dns)
  {
    UncheckedFields(query, dns);
    var u := Unchecked(query, dns);
    assert out[12..16] == u[12..16] && out[16..20] == u[16..20];
    assert out[20..22] == u[20..22] && out[22..24] == u[22..24] && out[28..] == u[28..];
    assert out[..20] == SetU16(u, 10, a)[..20];
  }

  method BuildBlockedDnsReply(query: seq<byte>, ip: seq<byte>) returns (reply: Option<array<byte>>)
    requires |ip| == 4
    requires Replyable(query) ==>
      ParseQuery(Payload(query)) != Diverges && |SinkholeOrNx(Payload(query), ip)| + 28 <= 0xFFFF
    ensures reply.Some? <==> Replyable(query) && |Payload(query)| >= 12
    ensures reply.Some? ==> fresh(reply.value)
    ensures reply.Some? ==> RepliesTo(reply.value[..], query, SinkholeOrNx(Payload(query), ip))
  {
    if !Replyable(query) { return None; }
    var dns := BuildSinkholeA(Payload(query), ip);
    NonEmptyReply(Payload(query), ip);
    if |dns| == 0 { return None; }
    var out := Compose(query, dns);
    Seal(out, query, dns);
    return Some(out);
  }

  /** Fills in both checksums, the IPv4 one first: the UDP one does not cover it. */
  method Seal(out: array<byte>, ghost query: seq<byte>, ghost dns: seq<byte>)
    requires Replyable(query) && |dns| + 28 <= 0xFFFF && out[..] == Unchecked(query, dns)
    modifies out
    ensures RepliesTo(out[..], query, dns)
  {
    UncheckedFields(query, dns);
    FieldZero(out[..], 10);
    FieldZero(out[..], 26);
    IpChecksum(out, 20);
    UdpChecksum(out);
    CheckedFields(query, dns, U16(out[..], 10), U16(out[..], 26), out[..]);
  }

  lemma FieldZero(b: seq<byte>, k: nat)
    requires k + 2 <= |b| && U16(b, k) == 0
    ensures b[k] == 0 && b[k + 1] == 0
  {}

  method Compose(query: seq<byte>, dns: seq<byte>) returns (out: array<byte>)
    requires Replyable(query) && |dns| + 28 <= 0xFFFF
    ensures fresh(out) && out[..] == Unchecked(query, dns)
  {
    var udpStart := HeaderLength(query);
    out := new byte[28 + |dns|](i => 0);
    ComposeIp(out, query);
    PutAt(out, 20, query[udpStart + 2..udpStart + 4]);
    PutAt(out, 22, query[udpStart..udpStart + 2]);
    PutAt(out, 24, PutU16(|dns| + 8));
    PutAt(out, 26, [0, 0]);
    PutAt(out, 28, dns);
    assert out[..out.Length] == out[..];
  }

  /** A fresh option-less header for the whole buffer, the addresses exchanged. */
  method ComposeIp(out: array<byte>, query: seq<byte>)
    requires |query| >= 20 && 28 <= out.Length <= 0xFFFF
    modifies out
    ensures out[..20] == IpHeader(query, out.Length)
  {
    PutAt(out, 0, [0x45, query[1]] + PutU16(out.Length) + [0, 0, 0x40, 0, 64, UDP, 0, 0]);
    PutAt(out, 12, query[16..20]);
    PutAt(out, 16, query[12..16]);
  }

  lemma NonEmptyReply(payload: seq<byte>, ip: seq<byte>)
    requires |ip| == 4
    ensures SinkholeOrNx(payload, ip) == [] <==> |payload| < 12
  {}

  /**
   * End to end: the name the filter extracted is the name in the reply (up to empty pieces), under
   * the query's own DNS identifier.
   */
  lemma BlockedReplyNames(query: seq<byte>, out: seq<byte>, ip: seq<byte>)
    requires |ip| == 4 && Replyable(query) && ExtractName(query).Some?
    requires ParseQuery(Payload(query)).Done? && ParseQuery(Payload(query)).value.questions != []
    requires RepliesTo(out, query, SinkholeOrNx(Payload(query), ip))
    ensures var name := ExtractName(query).value;
            var back := Join(NonEmpty(Split(name)));
            && ReadsAs(out[28..], Payload(query), back, ip, 12 + |QuestionSection(name)|)
            && U16(out, 28) == U16(Payload(query), 0)
            && (back == name <==> name == [] || [] !in Split(name))
  {
    FilterSeesTheName(query);
    SinkholeRoundTrip(Payload(query), ip);
    var dns := out[28..];
    assert U16(dns, 0) == U16(out, 28);
    assert ParseQuery(dns).Done?;
  }
}
