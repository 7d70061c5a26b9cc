/**
 * What happens to each decrypted packet of a family in fallback (internal/terminator/wg_device.go):
 * blocked DNS queries are answered on the spot, everything else goes out.
 */
module TunnelFilter {
  import opened Common
  import opened Bytes
  import opened DomainNames
  import opened Blocklist
  import opened DnsNames
  import opened DnsMessages
  import opened BlockedReply

  /** The address of the block page. */
  const SINKHOLE_IP: seq<byte> := [10, 10, 0, 254]

  /** Host names compare byte for byte; a byte is the character of the same code. */
  function AsString(name: seq<byte>): string {
    seq(|name|, i requires 0 <= i < |name| => name[i] as char)
  }

  /** The name as it reaches the list's index. */
  function LookedUp(name: seq<byte>): string { Norm(TrimDot(Lower(AsString(name)))) }

  /** Byte for character, capitals made small, up to two closing dots dropped. */
  lemma LookedUpIs(name: seq<byte>)
    requires name == [] || name[|name| - 1] != 0x2E
    ensures LookedUp(name) == LookedUp(name + [0x2E]) == LookedUp(name + [0x2E, 0x2E])
    ensures |LookedUp(name)| == |name|
    ensures forall i :: 0 <= i < |name| ==>
              LookedUp(name)[i] as int == if 65 <= name[i] <= 90 then name[i] + 32 else name[i]
  {
    OneMoreDot(name);
    OneMoreDot(name + [0x2E]);
    assert name + [0x2E] + [0x2E] == name + [0x2E, 0x2E];
    var l := Lower(AsString(name));
    assert l + "." + "." == l + "..";
    ClosingDots(l);
  }

  lemma OneMoreDot(name: seq<byte>)
    ensures Lower(AsString(name + [0x2E])) == Lower(AsString(name)) + "."
  {}

  lemma ClosingDots(l: string)
    requires l == "" || l[|l| - 1] != '.'
    ensures TrimDot(l) == l && TrimDot(l + ".") == l && TrimDot(l + "..") == l + "."
    ensures Norm(l + ".") == Norm(l)
  {}

  /** A DNS query for a name that a row of one of the family's categories covers. */
  ghost predicate Filtered(rows: seq<Row>, cats: seq<string>, pkt: seq<byte>) {
    && IsDnsQuery(pkt) && ExtractName(pkt).Some?
    && LookedUp(ExtractName(pkt).value) != ""
    && BlockedByCategories(rows, LowerSet(cats), LookedUp(ExtractName(pkt).value))
  }

  /**
   * Of the queries that can be read, exactly those for a covered name are held back whose name is written
   * without pointers, with labels of at most 63 bytes and no more than 127 of them. A covered name written
   * otherwise is forwarded.
   */
  lemma FilteredIff(rows: seq<Row>, cats: seq<string>, pkt: seq<byte>)
    requires IsDnsQuery(pkt) && Replyable(pkt) && Asks(Payload(pkt))
    ensures var d := LookedUp(ParseQuery(Payload(pkt)).value.questions[0].name);
            Labels(Payload(pkt), 12).Done? &&
            (Filtered(rows, cats, pkt) <==>
              && d != "" && BlockedByCategories(rows, LowerSet(cats), d)
              && !Irregular(Payload(pkt), 12) && |Labels(Payload(pkt), 12).value| <= 127)
  {
    ExtractFailsIff(pkt);
    if ExtractName(pkt).Some? { FilterSeesTheName(pkt); }
  }

  /** The reply is complete, comes from the DNS port and answers the very name that was looked up. */
  ghost predicate Answers(out: seq<byte>, pkt: seq<byte>, name: seq<byte>)
    requires Replyable(pkt)
  {
    && RepliesTo(out, pkt, SinkholeOrNx(Payload(pkt), SINKHOLE_IP)) && U16(out, 20) == 53
    && (Asks(Payload(pkt)) ==>
          && ParseQuery(Payload(pkt)).value.questions[0].name == name
          && ReadsAs(out[28..], Payload(pkt), Join(NonEmpty(Split(name))), SINKHOLE_IP, 12 + |QuestionSection(name)|))
  }

  /** The message can be read and has a question. */
  predicate Asks(dns: seq<byte>) {
    ParseQuery(dns).Done? && ParseQuery(dns).value.questions != []
  }

  /**
   * `forward` says the packet goes out; neither `forward` nor a reply means it is dropped with an error.
   * The one input left out is that on which the source itself never returns: a filtered query with a
   * later question whose name is a pointer loop.
   */
  method OnPlaintextOutbound(list: Blocklist, cats: seq<string>, pkt: seq<byte>)
    returns (forward: bool, reply: Option<array<byte>>)
    requires list.Valid() && |pkt| <= 0xFFFF
    requires Filtered(list.rows, cats, pkt) && Replyable(pkt) ==> ParseQuery(Payload(pkt)) != Diverges
    ensures forward <==> !Filtered(list.rows, cats, pkt)
    ensures reply.Some? <==> Filtered(list.rows, cats, pkt) && Replyable(pkt) && |Payload(pkt)| >= 12
    ensures reply.Some? ==> fresh(reply.value) && Answers(reply.value[..], pkt, ExtractName(pkt).value)
  {
    forward, reply := true, None;
    if !IsDnsQuery(pkt) { return; }
    var domain := ExtractDnsQName(pkt);
    if domain.None? || domain.value == [] {
      EmptyNameNotLookedUp();
      return;
    }
    var blocked := list.IsBlockedForCategories(TrimDot(Lower(AsString(domain.value))), cats);
    if !blocked { return; }
    forward := false;
    if Replyable(pkt) { ReplyFits(pkt, SINKHOLE_IP); }
    reply := BuildBlockedDnsReply(pkt, SINKHOLE_IP);
    if reply.Some? { ReplyAnswers(pkt, reply.value[..]); }
  }

  lemma EmptyNameNotLookedUp()
    ensures LookedUp([]) == ""
  {}

  lemma ReplyAnswers(pkt: seq<byte>, out: seq<byte>)
    requires IsDnsQuery(pkt) && Replyable(pkt) && ExtractName(pkt).Some?
    requires RepliesTo(out, pkt, SinkholeOrNx(Payload(pkt), SINKHOLE_IP))
    ensures Answers(out, pkt, ExtractName(pkt).value)
  {
    FromDnsPort(pkt, out, SinkholeOrNx(Payload(pkt), SINKHOLE_IP));
    if Asks(Payload(pkt)) { ReadsBack(pkt, out); }
  }

  lemma FromDnsPort(pkt: seq<byte>, out: seq<byte>, dns: seq<byte>)
    requires IsDnsQuery(pkt) && Replyable(pkt) && RepliesTo(out, pkt, dns)
    ensures U16(out, 20) == 53
  {
    U16At(out, 20);
    U16At(pkt, HeaderLength(pkt) + 2);
  }

  lemma ReadsBack(pkt: seq<byte>, out: seq<byte>)
    requires Replyable(pkt) && ExtractName(pkt).Some? && Asks(Payload(pkt))
    requires RepliesTo(out, pkt, SinkholeOrNx(Payload(pkt), SINKHOLE_IP))
    ensures var name := ExtractName(pkt).value;
            && ParseQuery(Payload(pkt)).value.questions[0].name == name
            && ReadsAs(out[28..], Payload(pkt), Join(NonEmpty(Split(name))), SINKHOLE_IP, 12 + |QuestionSection(name)|)
  {
    FilterSeesTheName(pkt);
    BlockedReplyNames(pkt, out, SINKHOLE_IP);
  }
}
