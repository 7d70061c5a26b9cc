/**
 * DNS queries as they arrive in the tunnel, laid out byte by byte (RFC 791, RFC 768 and section 4.1 of
 * RFC 1035), which of them are held back, and the bytes of the answer (internal/terminator/wg_device.go).
 */
module PacketLayout {
  import opened Common
  import opened Bytes
  import opened Checksum
  import opened DnsNames
  import opened DnsMessages
  import opened DnsLayout
  import opened DomainNames
  import opened Blocklist
  import opened BlockedReply
  import opened TunnelFilter

  type Two = s: seq<byte> | |s| == 2 witness [0, 0]
  type Four = s: seq<byte> | |s| == 4 witness [0, 0, 0, 0]

  /** An IPv4 packet: a header of any length, a UDP header, a DNS query with one question, and what comes after. */
  datatype Datagram = Datagram(header: seq<byte>, sport: Two, dport: Two, checksum: Two, id: Two, flags: Two,
                               counts: seq<byte>, labels: seq<seq<byte>>, typeAndClass: Four, extra: seq<byte>,
                               padding: seq<byte>)

  function Dns(d: Datagram): seq<byte> {
    (d.id + d.flags + [0, 1] + d.counts) + (EncodeLabels(d.labels) + ([0] + d.typeAndClass + d.extra))
  }

  function Packet(d: Datagram): seq<byte>
    requires 8 + |Dns(d)| < 0x1_0000
  {
    d.header + ((d.sport + d.dport + [(8 + |Dns(d)|) / 0x100, (8 + |Dns(d)|) % 0x100] + d.checksum)
      + (Dns(d) + d.padding))
  }

  /** A header of `4 * n` bytes that says so, announcing UDP; labels of the lengths RFC 1035 allows. */
  ghost predicate WellFormed(d: Datagram, n: nat) {
    && 5 <= n <= 15 && |d.header| == 4 * n && d.header[0] == 0x40 + n && d.header[9] == 17
    && |d.counts| == 6 && |d.labels| <= 127 && LabelSized(d.labels)
    && 8 + |Dns(d)| < 0x1_0000
  }

  // ---------------------------------------------------------------- the parts of the packet

  lemma UdpFields(pkt: seq<byte>, at: nat, sport: Two, dport: Two, length: u16, checksum: Two)
    requires Holds(pkt, at, sport + dport + [length / 0x100, length % 0x100] + checksum)
    ensures pkt[at..at + 2] == sport && pkt[at + 2..at + 4] == dport && U16(pkt, at + 4) == length
  {
    var udp := sport + dport + [length / 0x100, length % 0x100] + checksum;
    assert forall i :: 0 <= i < 8 ==> udp[i] == pkt[at..at + 8][i] == pkt[at + i];
    assert udp[0] == sport[0] && udp[1] == sport[1] && udp[2] == dport[0] && udp[3] == dport[1];
    assert udp[4] == length / 0x100 && udp[5] == length % 0x100;
  }

  lemma HeaderFields4(pkt: seq<byte>, header: seq<byte>, n: nat)
    requires Holds(pkt, 0, header) && 5 <= n <= 15 && |header| == 4 * n && header[0] == 0x40 + n && header[9] == 17
    ensures HeaderLength(pkt) == 4 * n && pkt[0] / 0x10 == 4 && pkt[9] == 17 && pkt[1] == header[1]
    ensures pkt[12..20] == header[12..20]
  {
    HoldsAt(pkt, 0, header, 0);
    HoldsAt(pkt, 0, header, 1);
    HoldsAt(pkt, 0, header, 9);
    SliceOfSlice(pkt, 0, 4 * n, 12, 20);
  }

  lemma Sections(d: Datagram, n: nat, pkt: seq<byte>, udp: nat)
    requires WellFormed(d, n) && pkt == Packet(d) && udp == 4 * n
    ensures |pkt| >= udp + 8 + |Dns(d)| && HeaderLength(pkt) == udp && pkt[0] / 0x10 == 4 && pkt[9] == 17
    ensures pkt[1] == d.header[1] && pkt[12..20] == d.header[12..20]
    ensures pkt[udp..udp + 2] == d.sport && pkt[udp + 2..udp + 4] == d.dport && U16(pkt, udp + 4) == 8 + |Dns(d)|
    ensures Holds(pkt, udp + 8, Dns(d))
  {
    var length := 8 + |Dns(d)|;
    var ports := d.sport + d.dport + [length / 0x100, length % 0x100] + d.checksum;
    InFront(pkt, d.header, ports, Dns(d) + d.padding);
    Assoc(d.header, ports, Dns(d) + d.padding);
    InFront(pkt, d.header + ports, Dns(d), d.padding);
    UdpFields(pkt, udp, d.sport, d.dport, length, d.checksum);
    HeaderFields4(pkt, d.header, n);
  }

  /** The builder accepts the packet and takes the DNS message out of it. */
  lemma DnsInside(d: Datagram, n: nat)
    requires WellFormed(d, n)
    ensures Replyable(Packet(d)) && Payload(Packet(d)) == Dns(d) && |Dns(d)| >= 17
    ensures IsDnsQuery(Packet(d)) <==> d.dport == [0, 53]
  {
    var pkt, udp := Packet(d), 4 * n;
    Sections(d, n, pkt, udp);
    PortIs(pkt, udp, d.dport);
  }

  lemma PortIs(pkt: seq<byte>, udp: nat, dport: Two)
    requires udp + 4 <= |pkt| && pkt[udp + 2..udp + 4] == dport
    ensures U16(pkt, udp + 2) == 53 <==> dport == [0, 53]
  {
    U16At(pkt, udp + 2);
  }

  lemma NameInside(d: Datagram, dns: seq<byte>)
    requires dns == Dns(d) && |d.counts| == 6
    ensures |dns| >= 17 && HoldsName(dns, 12, d.labels) && U16(dns, 4) == 1
    ensures dns[..2] == d.id && dns[2..4] == d.flags
    ensures 12 + |EncodeLabels(d.labels)| + 5 <= |dns|
  {
    var head, name, rest := d.id + d.flags + [0, 1] + d.counts, EncodeLabels(d.labels), [0] + d.typeAndClass + d.extra;
    InFront(dns, head, name, rest);
    Assoc(head, name, rest);
    assert dns[12 + |name|] == rest[0];
    assert head[4] == 0 && head[5] == 1 && dns[4] == head[4] && dns[5] == head[5];
    assert dns[..2] == head[..2] && dns[2..4] == head[2..4];
  }

  /** The one question of the message is read, and asks for the name as it was written. */
  lemma QuestionInside(d: Datagram, dns: seq<byte>)
    requires dns == Dns(d) && |d.counts| == 6 && LabelSized(d.labels)
    ensures Asks(dns) && ParseQuery(dns).value.questions[0].name == Join(d.labels)
  {
    NameInside(d, dns);
    PayloadReads(dns, d.labels);
    OnlyQuestion(dns, Join(d.labels), 12 + |EncodeLabels(d.labels)| + 1);
  }

  lemma OnlyQuestion(dns: seq<byte>, name: seq<byte>, end: nat)
    requires 12 <= end && end + 4 <= |dns| && U16(dns, 4) == 1 && ReadName(dns, 12) == Done(NameAt(name, end - 12))
    ensures Asks(dns) && ParseQuery(dns).value.questions[0].name == name
  {
    NextQuestion(dns, 12, name, end, end + 4, 1);
    assert ReadQuestions(dns, end + 4, 0) == Done([]);
  }

  lemma NameExtracted(d: Datagram, n: nat)
    requires WellFormed(d, n)
    ensures ExtractName(Packet(d)) == Some(Join(d.labels))
  {
    DnsInside(d, n);
    NameInside(d, Dns(d));
    WellFormedExtracted(Packet(d), d.labels);
  }

  // ---------------------------------------------------------------- what is held back

  /**
   * A well-formed query is held back exactly when it goes to port 53 and its name is covered, whatever the
   * length of the IPv4 header and whatever follows the question.
   */
  lemma HeldBackIff(rows: seq<Row>, cats: seq<string>, d: Datagram, n: nat)
    requires WellFormed(d, n)
    ensures var name := LookedUp(Join(d.labels));
            Filtered(rows, cats, Packet(d)) <==>
              d.dport == [0, 53] && name != "" && BlockedByCategories(rows, LowerSet(cats), name)
  {
    DnsInside(d, n);
    NameExtracted(d, n);
  }

  // ---------------------------------------------------------------- the bytes of the answer

  lemma {:induction false} SplitLabel(l: seq<byte>)
    requires DOT !in l
    ensures Split(l) == [l]
  {
    if l != [] {
      SplitLabel(l[1..]);
      assert [l[0]] + l[1..] == l && Split(l) == [[l[0]] + l[1..]] + [];
    }
  }

  /** Labels without dots are the pieces of the name they make up. */
  lemma {:induction false} PiecesAreLabels(ps: seq<seq<byte>>)
    requires ps != [] && forall p :: p in ps ==> 0x2E !in p
    ensures Split(Join(ps)) == ps
  {
    assert ps[0] in ps;
    SplitLabel(ps[0]);
    if |ps| > 1 {
      SplitAppend(ps[0], Join(ps[1..]));
      PiecesAreLabels(ps[1..]);
      assert [ps[0]] + ps[1..] == ps;
    } else {
      assert [ps[0]] == ps;
    }
  }

  lemma NamePieces(ps: seq<seq<byte>>)
    requires LabelSized(ps) && forall p :: p in ps ==> 0x2E !in p
    ensures NonEmpty(Split(Join(ps))) == ps
  {
    if ps == [] {
      assert NonEmpty([[]]) == [];
    } else {
      PiecesAreLabels(ps);
      KeepsAll(ps);
    }
  }

  /** The answer to a question: the header, the question, and one A record naming 10.10.0.254. */
  function Answered(id: Two, flags: Two, labels: seq<seq<byte>>): seq<byte> {
    id + [0x80 + flags[0] % 0x80, 0x80 + flags[1] / 0x10 % 8 * 0x10, 0, 1, 0, 1, 0, 0, 0, 0]
    + (EncodeLabels(labels) + [0, 0, 1, 0, 1])
    + [0xC0, 0x0C, 0, 1, 0, 1, 0, 0, 0, 5, 0, 4, 10, 10, 0, 254]
  }

  lemma AnswerBytes(d: Datagram, dns: seq<byte>)
    requires dns == Dns(d) && |d.counts| == 6 && LabelSized(d.labels)
    ensures SinkholeOrNx(dns, SINKHOLE_IP) == Answered(d.id, d.flags, NonEmpty(Split(Join(d.labels))))
  {
    QuestionInside(d, dns);
    NameInside(d, dns);
    ReplyIs(dns, d.id, d.flags, Join(d.labels), NonEmpty(Split(Join(d.labels))));
  }

  lemma ReplyIs(dns: seq<byte>, id: Two, flags: Two, name: seq<byte>, labels: seq<seq<byte>>)
    requires |dns| >= 12 && dns[..2] == id && dns[2..4] == flags && NonEmpty(Split(name)) == labels
    requires Asks(dns) && ParseQuery(dns).value.questions[0].name == name
    ensures SinkholeOrNx(dns, SINKHOLE_IP) == Answered(id, flags, labels)
  {
    ReplyHeaderIs(dns, id, flags);
    RecordIs();
    SinkholeIs(dns, name);
  }

  lemma SinkholeIs(dns: seq<byte>, name: seq<byte>)
    requires |dns| >= 12 && Asks(dns) && ParseQuery(dns).value.questions[0].name == name
    ensures SinkholeOrNx(dns, SINKHOLE_IP)
         == ReplyHeader(dns, SinkholeFlags(U16(dns, 2))) + QuestionSection(name) + AnswerRecord(SINKHOLE_IP)
  {}

  lemma RecordIs()
    ensures AnswerRecord(SINKHOLE_IP) == [0xC0, 0x0C, 0, 1, 0, 1, 0, 0, 0, 5, 0, 4, 10, 10, 0, 254]
  {}

  lemma ReplyHeaderIs(dns: seq<byte>, id: Two, flags: Two)
    requires |dns| >= 12 && dns[..2] == id && dns[2..4] == flags
    ensures ReplyHeader(dns, SinkholeFlags(U16(dns, 2)))
         == id + [0x80 + flags[0] % 0x80, 0x80 + flags[1] / 0x10 % 8 * 0x10, 0, 1, 0, 1, 0, 0, 0, 0]
  {
    assert dns[2] == flags[0] && dns[3] == flags[1];
    SinkholeBitsReply(dns[2], dns[3]);
    TwoBytes(0x80 + dns[2] % 0x80, 0x80 + dns[3] / 0x10 % 8 * 0x10, SinkholeFlags(U16(dns, 2)));
  }

  /** `out` carries `dns` back to the sender of `d`. */
  ghost predicate CarriesBack(out: seq<byte>, d: Datagram, dns: seq<byte>)
    requires |d.header| >= 20
  {
    // a plain IPv4 header of 20 bytes, unfragmented, carrying UDP
    && |out| == 28 + |dns| && out[0] == 0x45 && out[1] == d.header[1] && out[2] as int * 0x100 + out[3] == |out|
    && out[4..10] == [0, 0, 0x40, 0, 64, 17]
    // addresses and ports exchanged
    && out[12..16] == d.header[16..20] && out[16..20] == d.header[12..16]
    && out[20..22] == d.dport && out[22..24] == d.sport
    && out[24] as int * 0x100 + out[25] == 8 + |dns| && out[28..] == dns
    // the IPv4 header, and the datagram behind the pseudo-header of RFC 768, pass the receiver's checks
    && Accepts(out[..20]) && Accepts(out[12..20] + [0, 17] + out[24..26] + out[20..])
    && (out[26] != 0 || out[27] != 0)
  }

  /**
   * The answer to a well-formed query, byte by byte: back to where the query came from, from the port it
   * went to, with the query's identifier and name and the address of the block page. The name is written
   * as the query wrote it, unless a label of it holds a dot.
   */
  lemma AnswerCarriedBack(d: Datagram, n: nat, out: seq<byte>, name: seq<byte>)
    requires WellFormed(d, n) && Replyable(Packet(d)) && Answers(out, Packet(d), name)
    ensures name == Join(d.labels)
    ensures CarriesBack(out, d, Answered(d.id, d.flags, NonEmpty(Split(name))))
    ensures (forall p :: p in d.labels ==> 0x2E !in p) ==> CarriesBack(out, d, Answered(d.id, d.flags, d.labels))
  {
    CarriedBack(d, n, out, name, NonEmpty(Split(Join(d.labels))));
    if forall p :: p in d.labels ==> 0x2E !in p {
      NamePieces(d.labels);
      CarriedBack(d, n, out, name, d.labels);
    }
  }

  lemma CarriedBack(d: Datagram, n: nat, out: seq<byte>, name: seq<byte>, pieces: seq<seq<byte>>)
    requires WellFormed(d, n) && Replyable(Packet(d)) && Answers(out, Packet(d), name)
    requires pieces == NonEmpty(Split(Join(d.labels)))
    ensures name == Join(d.labels) && CarriesBack(out, d, Answered(d.id, d.flags, pieces))
  {
    var pkt, dns := Packet(d), Dns(d);
    DnsInside(d, n);
    Sections(d, n, pkt, 4 * n);
    QuestionInside(d, dns);
    AnswerBytes(d, dns);
    RepliesRaw(out, d, pkt, Answered(d.id, d.flags, pieces), 4 * n);
  }

  lemma RepliesRaw(out: seq<byte>, d: Datagram, pkt: seq<byte>, dns: seq<byte>, udp: nat)
    requires |d.header| >= 20 && Replyable(pkt) && RepliesTo(out, pkt, dns) && HeaderLength(pkt) == udp
    requires pkt[1] == d.header[1] && pkt[12..20] == d.header[12..20]
    requires pkt[udp..udp + 2] == d.sport && pkt[udp + 2..udp + 4] == d.dport
    ensures CarriesBack(out, d, dns)
  {
    SliceOfSlice(pkt, 12, 20, 0, 4);
    SliceOfSlice(pkt, 12, 20, 4, 8);
    SliceOfSlice(d.header, 12, 20, 0, 4);
    SliceOfSlice(d.header, 12, 20, 4, 8);
    assert out[4..10] == [out[4], out[5], out[6], out[7], out[8], out[9]];
  }
}
