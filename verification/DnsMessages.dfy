/**
 * Questions and synthesised replies (internal/dns/wire.go; sections 4.1.1, 4.1.2 and 4.1.4 of
 * RFC 1035).
 */
module DnsMessages {
  import opened Common
  import opened Bytes
  import opened DnsNames

  datatype Question = Question(name: seq<byte>, qtype: u16, qclass: u16)
  datatype Query = Query(id: u16, flags: u16, qdCount: u16, questions: seq<Question>)
  datatype NameAt = NameAt(name: seq<byte>, consumed: nat)

  // ---------------------------------------------------------------- reading

  function ReadName(b: seq<byte>, off: nat): Read<NameAt> {
    match Labels(b, off)
    case Done(ls) => Done(NameAt(Join(ls), RunEnd(b, off) - off))
    case Short => Short
    case Diverges => Diverges
  }

  lemma PrependTwice(ls: seq<Label>, l: Label, r: Read<seq<Label>>)
    ensures Prepend(ls, Prepend([l], r)) == Prepend(ls + [l], r)
  {
    if r.Done? { Assoc(ls, [l], r.value); }
  }

  /** The cursor loop. Without a bound on pointer hops it ends only if the name does. */
  method ReadNameLoop(b: seq<byte>, start: nat) returns (r: Read<NameAt>)
    requires Labels(b, start) != Diverges
    ensures r == ReadName(b, start)
  {
    var labels: seq<Label> := [];
    var offset: nat, visited: nat := start, 0;
    ghost var fuel: nat := |b| + 1;
    PrependNone(Labels(b, start));
    while true
      invariant Labels(b, start) == Prepend(labels, Walk(b, offset, fuel))
      invariant fuel > 0 || Walk(b, offset, fuel) == Diverges
      invariant visited == 0 ==> start <= offset && RunEnd(b, start) == RunEnd(b, offset)
      invariant visited > 0 ==> RunEnd(b, start) == start + visited
      decreases fuel
    {
      if offset >= |b| { return Short; }
      var length := b[offset];
      if length == 0 {
        offset := offset + 1;
        break;
      }
      if length >= 0xC0 {
        if offset + 1 >= |b| { return Short; }
        var ptr := Pointer(b, offset);
        offset := offset + 2;
        if visited == 0 { visited := offset - start; }
        offset := ptr;
      } else {
        offset := offset + 1;
        if offset + length > |b| { return Short; }
        PrependTwice(labels, b[offset..offset + length], Walk(b, offset + length, fuel - 1));
        labels := labels + [b[offset..offset + length]];
        offset := offset + length;
      }
      fuel := fuel - 1;
    }
    PrependNone(Done(labels));
    return Done(NameAt(Join(labels), if visited > 0 then visited else offset - start));
  }

  lemma PrependNone(r: Read<seq<Label>>)
    ensures Prepend([], r) == r
    ensures r.Done? ==> Prepend(r.value, Done([])) == r
  {
    if r.Done? { assert [] + r.value == r.value && r.value + [] == r.value; }
  }

  function ReadQuestions(b: seq<byte>, off: nat, n: nat): Read<seq<Question>>
    decreases n
  {
    if n == 0 then Done([])
    else
      match ReadName(b, off)
      case Short => Short
      case Diverges => Diverges
      case Done(at) =>
        var next := off + at.consumed;
        if next + 4 > |b| then Short
        else
          AddQuestions([Question(at.name, U16(b, next), U16(b, next + 2))], ReadQuestions(b, next + 4, n - 1))
  }

  function AddQuestions(qs: seq<Question>, r: Read<seq<Question>>): Read<seq<Question>> {
    if r.Done? then Done(qs + r.value) else r
  }

  function ParseQuery(b: seq<byte>): Read<Query> {
    if |b| < 12 then Short
    else
      match ReadQuestions(b, 12, U16(b, 4))
      case Done(qs) => Done(Query(U16(b, 0), U16(b, 2), U16(b, 4), qs))
      case Short => Short
      case Diverges => Diverges
  }

  lemma AddQuestion(qs: seq<Question>, q: Question, r: Read<seq<Question>>)
    ensures AddQuestions(qs, AddQuestions([q], r)) == AddQuestions(qs + [q], r)
    ensures AddQuestions([], r) == r
    ensures AddQuestions(qs, Done([])) == Done(qs)
  {
    if r.Done? {
      Assoc(qs, [q], r.value);
      assert [] + r.value == r.value;
    }
    assert qs + [] == qs;
  }

  method ParseQueryLoop(b: seq<byte>) returns (r: Read<Query>)
    requires ParseQuery(b) != Diverges
    ensures r == ParseQuery(b)
  {
    if |b| < 12 { return Short; }
    var qdCount := U16(b, 4);
    var questions: seq<Question> := [];
    var offset: nat := 12;
    var i := 0;
    AddQuestion([], Question([], 0, 0), ReadQuestions(b, 12, qdCount));
    while i < qdCount
      invariant 0 <= i <= qdCount
      invariant ReadQuestions(b, 12, qdCount) ==
                AddQuestions(questions, ReadQuestions(b, offset, qdCount - i))
    {
      assert ReadName(b, offset) != Diverges;
      var name := ReadNameLoop(b, offset);
      if name.Short? { return Short; }
      offset := offset + name.value.consumed;
      if offset + 4 > |b| { return Short; }
      var q := Question(name.value.name, U16(b, offset), U16(b, offset + 2));
      AddQuestion(questions, q, ReadQuestions(b, offset + 4, qdCount - i - 1));
      questions := questions + [q];
      offset := offset + 4;
      i := i + 1;
    }
    AddQuestion(questions, Question([], 0, 0), Done([]));
    return Done(Query(U16(b, 0), U16(b, 2), qdCount, questions));
  }

  // ---------------------------------------------------------------- header flags

  /** Bitwise or with a mask of one bit. */
  function Or(x: u16, bit: nat): (r: u16)
    requires bit in {0x0001, 0x0002, 0x0080, 0x8000}
  {
    if x / bit % 2 == 1 then x else x + bit
  }

  /** Bitwise and with 0xFFF0. */
  function WithoutRcode(x: u16): u16 { x - x % 0x10 }

  /** `(f | 0x8000 | 0x0080) &^ 0x000F` */
  function SinkholeFlags(f: u16): u16 { WithoutRcode(Or(Or(f, 0x8000), 0x0080)) }

  /** `f | 0x8000 | 0x0080 | 0x0003` */
  function NxDomainFlags(f: u16): u16 { Or(Or(Or(Or(f, 0x8000), 0x0080), 0x0002), 0x0001) }

  /** `((f | 0x8000) & 0xFFF0) | 0x0002` */
  function ServFailFlags(f: u16): u16 { Or(WithoutRcode(Or(f, 0x8000)), 0x0002) }

  lemma OrHigh(hi: byte, lo: byte)
    ensures Or(hi as int * 0x100 + lo, 0x8000) == (0x80 + hi % 0x80) as int * 0x100 + lo
  {}

  lemma OrMiddle(hi: byte, lo: byte)
    ensures Or(hi as int * 0x100 + lo, 0x0080) == hi as int * 0x100 + 0x80 + lo % 0x80
  {}

  lemma OrLow(x: u16)
    ensures Or(Or(x, 0x0002), 0x0001) == x - x % 4 + 3
    ensures x % 0x10 == 0 ==> Or(x, 0x0002) == x + 2
  {}

  /**
   * Byte by byte: QR is set and the opcode, AA, TC and RD are the query's; RA is set, Z, AD and CD are the
   * query's, and the RCODE is 0.
   */
  lemma SinkholeBitsReply(hi: byte, lo: byte)
    ensures SinkholeFlags(hi as int * 0x100 + lo) == (0x80 + hi % 0x80) as int * 0x100 + 0x80 + lo / 0x10 % 8 * 0x10
  {
    OrHigh(hi, lo);
    OrMiddle(0x80 + hi % 0x80, lo);
  }

  /** QR is set and the RCODE is 2; every other bit is the query's. */
  lemma ServFailBitsReply(hi: byte, lo: byte)
    ensures ServFailFlags(hi as int * 0x100 + lo) == (0x80 + hi % 0x80) as int * 0x100 + lo / 0x10 * 0x10 + 2
  {
    OrHigh(hi, lo);
    OrLow(WithoutRcode(Or(hi as int * 0x100 + lo, 0x8000)));
  }

  /** QR and RA are set and the two low bits of the RCODE; every other bit is the query's. */
  lemma NxDomainBitsReply(hi: byte, lo: byte)
    ensures NxDomainFlags(hi as int * 0x100 + lo) ==
              (0x80 + hi % 0x80) as int * 0x100 + 0x80 + lo % 0x80 - lo % 4 + 3
  {
    var high, low := 0x80 + hi % 0x80, 0x80 + lo % 0x80;
    OrHigh(hi, lo);
    OrMiddle(high, lo);
    OrLow(high * 0x100 + low);
    Mod4(high * 0x40 + 0x20 - lo / 0x80 * 0x20, lo);
  }

  lemma Mod4(k: int, y: int)
    ensures (4 * k + y) % 4 == y % 4
  {}

  lemma Mod16(k: int, y: int)
    requires 0 <= y < 0x10
    ensures (0x10 * k + y) % 0x10 == y
  {}

  /** RCODE 3 is only ORed in: the reply says NXDOMAIN exactly when the query's own RCODE was below 4. */
  lemma NxDomainRcodeIff(hi: byte, lo: byte)
    ensures NxDomainFlags(hi as int * 0x100 + lo) % 0x10 == lo % 0x10 - lo % 4 + 3
    ensures NxDomainFlags(hi as int * 0x100 + lo) % 0x10 == 3 <==> lo % 0x10 < 4
  {
    var q, r := lo / 0x10, lo % 0x10;
    NxDomainBitsReply(hi, lo);
    Mod4(4 * q, r);
    Mod16((0x80 + hi % 0x80) * 0x10 + 8 - lo / 0x80 * 8 + q, r - r % 4 + 3);
  }

  /** A query carrying RCODE 4 is answered with RCODE 7. */
  lemma NxDomainRcodeWrong()
    ensures NxDomainFlags(0x0104) % 0x10 == 7
  {
    NxDomainRcodeIff(0x01, 0x04);
  }

  // ---------------------------------------------------------------- building

  function EncodeLabels(ps: seq<seq<byte>>): seq<byte> {
    if ps == [] then [] else [|ps[0]| % 0x100] + ps[0] + EncodeLabels(ps[1..])
  }

  /** A stretch of `b` holding `ps` as labels, closed by the root label. */
  ghost predicate HoldsName(b: seq<byte>, off: nat, ps: seq<seq<byte>>) {
    var n := |EncodeLabels(ps)|;
    off + n + 1 <= |b| && b[off..off + n] == EncodeLabels(ps) && b[off + n] == 0
  }

  ghost predicate Readable(ps: seq<seq<byte>>) {
    forall p :: p in ps ==> 1 <= |p| < 0xC0
  }

  lemma EncodedReads(b: seq<byte>, off: nat, ps: seq<seq<byte>>)
    requires HoldsName(b, off, ps) && Readable(ps)
    ensures Labels(b, off) == Done(ps)
    ensures RunEnd(b, off) == off + |EncodeLabels(ps)| + 1
  {
    EncodedWalk(b, off, ps);
    LabelsFrom(b, off, |ps| + 1);
  }

  lemma {:induction false} EncodedWalk(b: seq<byte>, off: nat, ps: seq<seq<byte>>)
    requires HoldsName(b, off, ps) && Readable(ps)
    ensures Walk(b, off, |ps| + 1) == Done(ps)
    ensures RunEnd(b, off) == off + |EncodeLabels(ps)| + 1
    decreases |ps|
  {
    if ps == [] {
      assert EncodeLabels(ps) == [] && b[off] == 0;
    } else {
      ReadableTail(ps);
      WalkStep(b, off, ps);
      EncodedWalk(b, off + 1 + |ps[0]|, ps[1..]);
    }
  }

  lemma ReadableTail(ps: seq<seq<byte>>)
    requires Readable(ps) && ps != []
    ensures 1 <= |ps[0]| < 0xC0 && Readable(ps[1..]) && Prepend([ps[0]], Done(ps[1..])) == Done(ps)
  {
    assert ps[0] in ps && [ps[0]] + ps[1..] == ps;
  }

  lemma WalkStep(b: seq<byte>, off: nat, ps: seq<seq<byte>>)
    requires HoldsName(b, off, ps) && ps != [] && 1 <= |ps[0]| < 0xC0
    ensures var next := off + 1 + |ps[0]|;
            && HoldsName(b, next, ps[1..])
            && next + |EncodeLabels(ps[1..])| == off + |EncodeLabels(ps)|
            && Walk(b, off, |ps| + 1) == Prepend([ps[0]], Walk(b, next, |ps|))
            && RunEnd(b, off) == RunEnd(b, next)
  {
    FirstLabel(b, off, ps);
  }

  lemma FirstLabel(b: seq<byte>, off: nat, ps: seq<seq<byte>>)
    requires HoldsName(b, off, ps) && ps != [] && 1 <= |ps[0]| < 0xC0
    ensures off + 1 + |ps[0]| <= |b| && b[off] == |ps[0]| && b[off + 1..off + 1 + |ps[0]|] == ps[0]
    ensures HoldsName(b, off + 1 + |ps[0]|, ps[1..])
  {
    var e, t := EncodeLabels(ps), EncodeLabels(ps[1..]);
    var k := |ps[0]|;
    assert e == [k] + ps[0] + t;
    assert e[0] == k && e[1..1 + k] == ps[0] && e[1 + k..] == t;
    assert b[off] == b[off..off + |e|][0];
    SliceOfSlice(b, off, off + |e|, 1, 1 + k);
    SliceOfSlice(b, off, off + |e|, 1 + k, |e|);
    assert e[1 + k..|e|] == t;
  }

  function ReplyHeader(query: seq<byte>, flags: u16): (h: seq<byte>)
    requires |query| >= 12
    ensures |h| == 12 && h[..2] == query[..2]
    ensures U16(h, 0) == U16(query, 0) && U16(h, 2) == flags && U16(h, 4) == 1 && U16(h, 6) == 1
    ensures U16(h, 8) == 0 && U16(h, 10) == 0
  {
    query[..2] + PutU16(flags) + [0, 1, 0, 1, 0, 0, 0, 0]
  }

  /** One A/IN record for the name at offset 12, with TTL 5. */
  function AnswerRecord(ip: seq<byte>): (a: seq<byte>)
    requires |ip| == 4
    ensures |a| == 16 && a[..2] == [0xC0, 0x0C] && U16(a, 2) == 1 && U16(a, 4) == 1 && U16(a, 10) == 4
    ensures U16(a, 6) == 0 && U16(a, 8) == 5 && a[12..] == ip
  {
    [0xC0, 0x0C, 0, 1, 0, 1, 0, 0, 0, 5, 0, 4] + ip
  }

  function QuestionSection(name: seq<byte>): seq<byte> {
    EncodeLabels(NonEmpty(Split(name))) + [0, 0, 1, 0, 1]
  }

  function SinkholeReply(query: seq<byte>, name: seq<byte>, ip: seq<byte>): seq<byte>
    requires |query| >= 12 && |ip| == 4
  {
    ReplyHeader(query, SinkholeFlags(U16(query, 2))) + QuestionSection(name) + AnswerRecord(ip)
  }

  function NxDomainReply(query: seq<byte>): (r: seq<byte>)
    ensures |query| < 12 ==> r == []
    ensures |query| >= 12 ==> |r| == |query| && r[..2] == query[..2] && r[12..] == query[12..]
  {
    if |query| < 12 then []
    else SetU16(SetU16(SetU16(SetU16(query, 2, NxDomainFlags(U16(query, 2))), 6, 0), 8, 0), 10, 0)
  }

  function ServFailReply(query: seq<byte>): seq<byte> {
    if |query| < 12 then []
    else query[..2] + PutU16(ServFailFlags(U16(query, 2))) + [0, 0, 0, 0, 0, 0, 0, 0]
  }

  /** The reply buildSinkholeA owes for a query: an A record, or the NXDOMAIN fallback. */
  function SinkholeOrNx(query: seq<byte>, ip: seq<byte>): seq<byte>
    requires |ip| == 4
  {
    var m := ParseQuery(query);
    if m.Done? && m.value.questions != [] then SinkholeReply(query, m.value.questions[0].name, ip)
    else NxDomainReply(query)
  }

  method BuildServFail(query: seq<byte>) returns (resp: seq<byte>)
    ensures resp == ServFailReply(query)
  {
    if |query| < 12 { return []; }
    resp := SetU16(query[..12], 2, ServFailFlags(U16(query, 2)));
    var i := 4;
    while i < 12
      invariant 4 <= i <= 12 && |resp| == 12
      invariant resp[..4] == query[..2] + PutU16(ServFailFlags(U16(query, 2)))
      invariant forall k :: 4 <= k < i ==> resp[k] == 0
    {
      resp := resp[i := 0];
      i := i + 1;
    }
    assert resp == resp[..4] + resp[4..];
    assert resp[4..] == [0, 0, 0, 0, 0, 0, 0, 0];
  }

  /** SERVFAIL answers under the query's identifier and repeats no question. */
  lemma ServFailParses(query: seq<byte>)
    requires |query| >= 12
    ensures ParseQuery(ServFailReply(query)) == Done(Query(U16(query, 0), ServFailFlags(U16(query, 2)), 0, []))
    ensures U16(ServFailReply(query), 6) == 0 && U16(ServFailReply(query), 8) == 0
  {
    var r := ServFailReply(query);
    assert r[0] == query[0] && r[1] == query[1];
    assert U16(r, 2) == U16(PutU16(ServFailFlags(U16(query, 2))), 0) && U16(r, 4) == 0;
    assert ReadQuestions(r, 12, 0) == Done([]);
  }

  method BuildQuestion(name: seq<byte>) returns (q: seq<byte>)
    ensures q == QuestionSection(name)
  {
    var pieces := Split(name);
    q := [];
    var i := 0;
    while i < |pieces|
      invariant 0 <= i <= |pieces|
      invariant q + EncodeLabels(NonEmpty(pieces[i..])) == EncodeLabels(NonEmpty(pieces))
    {
      var piece := pieces[i];
      assert pieces[i..][1..] == pieces[i + 1..];
      if piece != [] {
        ghost var tail := NonEmpty(pieces[i + 1..]);
        assert NonEmpty(pieces[i..]) == [piece] + tail;
        assert ([piece] + tail)[1..] == tail;
        Assoc(q, [|piece| % 0x100] + piece, EncodeLabels(tail));
        Assoc(q, [|piece| % 0x100], piece);
        q := q + [|piece| % 0x100] + piece;
      } else {
        assert NonEmpty(pieces[i..]) == NonEmpty(pieces[i + 1..]);
      }
      i := i + 1;
    }
    assert pieces[i..] == [];
    assert q + EncodeLabels(NonEmpty([])) == q;
    q := q + [0, 0, 1, 0, 1];
  }

  method BuildSinkholeA(query: seq<byte>, ip: seq<byte>) returns (resp: seq<byte>)
    requires |ip| == 4 && ParseQuery(query) != Diverges
    ensures resp == SinkholeOrNx(query, ip)
  {
    if |query| < 12 { return NxDomainReply(query); }
    var m := ParseQueryLoop(query);
    if m.Short? || |m.value.questions| == 0 { return NxDomainReply(query); }
    var qSection := BuildQuestion(m.value.questions[0].name);
    var hdr := SetU16(query[..12], 2, SinkholeFlags(U16(query, 2)));
    hdr := SetU16(SetU16(SetU16(SetU16(hdr, 4, 1), 6, 1), 8, 0), 10, 0);
    assert hdr == ReplyHeader(query, SinkholeFlags(U16(query, 2)));
    resp := hdr + qSection + AnswerRecord(ip);
  }

  // ---------------------------------------------------------------- the round trip

  lemma {:induction false} LabelsBounded(b: seq<byte>, off: nat, fuel: nat)
    requires Walk(b, off, fuel).Done?
    ensures Readable(Walk(b, off, fuel).value)
    decreases fuel
  {
    if Next(b, off).Some? { LabelsBounded(b, Next(b, off).value, fuel - 1); }
  }

  lemma {:induction false} SplitAppend(a: seq<byte>, b: seq<byte>)
    ensures Split(a + [DOT] + b) == Split(a) + Split(b)
  {
    var s := a + [DOT] + b;
    if a == [] {
      assert s[1..] == b;
    } else {
      assert s[1..] == a[1..] + [DOT] + b;
      SplitAppend(a[1..], b);
    }
  }

  lemma {:induction false} SplitBound(a: seq<byte>)
    ensures forall p :: p in Split(a) ==> |p| <= |a|
  {
    if a != [] { SplitBound(a[1..]); }
  }

  lemma {:induction false} PiecesBounded(ls: seq<Label>)
    requires Readable(ls)
    ensures forall p :: p in Split(Join(ls)) ==> |p| < 0xC0
  {
    if |ls| == 1 {
      SplitBound(ls[0]);
    } else if |ls| > 1 {
      PiecesBounded(ls[1..]);
      SplitBound(ls[0]);
      SplitAppend(ls[0], Join(ls[1..]));
    }
  }

  /** The header of a successful reply: the identifier kept, the flags of section 4.1.1 of RFC 1035, one answer. */
  predicate AnswersQuery(resp: seq<byte>, query: seq<byte>)
    requires |query| >= 12
  {
    && |resp| >= 12 && resp[0] == query[0] && resp[1] == query[1]
    // QR set; opcode, AA, TC and RD kept
    && resp[2] == 0x80 + query[2] % 0x80
    // RA set; Z, AD and CD kept; RCODE 0
    && resp[3] == 0x80 + query[3] / 0x10 % 8 * 0x10
    && resp[4..12] == [0, 1, 0, 1, 0, 0, 0, 0]
  }

  lemma ReplyHeaderAnswers(query: seq<byte>, resp: seq<byte>)
    requires |query| >= 12 && |resp| >= 12 && resp[..12] == ReplyHeader(query, SinkholeFlags(U16(query, 2)))
    ensures AnswersQuery(resp, query)
  {
    var flags := SinkholeFlags(U16(query, 2));
    SinkholeBitsReply(query[2], query[3]);
    TwoBytes(0x80 + query[2] % 0x80, 0x80 + query[3] / 0x10 % 8 * 0x10, flags);
    HeaderBytes(query, flags, resp);
  }

  lemma TwoBytes(hi: byte, lo: byte, v: u16)
    requires v == hi as int * 0x100 + lo
    ensures v / 0x100 == hi && v % 0x100 == lo
  {}

  lemma HeaderBytes(query: seq<byte>, flags: u16, resp: seq<byte>)
    requires |query| >= 12 && |resp| >= 12 && resp[..12] == ReplyHeader(query, flags)
    ensures resp[0] == query[0] && resp[1] == query[1] && resp[2] == flags / 0x100 && resp[3] == flags % 0x100
    ensures resp[4..12] == [0, 1, 0, 1, 0, 0, 0, 0]
  {
    var h := ReplyHeader(query, flags);
    assert h[0] == query[0] && h[1] == query[1] && h[2] == flags / 0x100 && h[3] == flags % 0x100;
    assert h[4..12] == [0, 1, 0, 1, 0, 0, 0, 0];
    assert resp[4..12] == resp[..12][4..12];
    assert resp[0] == resp[..12][0] && resp[1] == resp[..12][1] && resp[2] == resp[..12][2] && resp[3] == resp[..12][3];
  }

  predicate DeniesQuery(resp: seq<byte>, query: seq<byte>)
    requires |query| >= 12
  {
    && |resp| == |query| && resp[..2] == query[..2] && resp[12..] == query[12..]
    // QR set; opcode, AA, TC and RD kept
    && resp[2] == 0x80 + query[2] % 0x80
    // RA and the two low bits of the RCODE set, everything else kept
    && resp[3] as int == 0x80 + query[3] % 0x80 - query[3] % 4 + 3
    && resp[4..6] == query[4..6] && resp[6..12] == [0, 0, 0, 0, 0, 0]
  }

  /** NXDOMAIN keeps the query and its question count, and announces no records. */
  lemma NxDomainBytes(query: seq<byte>)
    requires |query| >= 12
    ensures DeniesQuery(NxDomainReply(query), query)
  {
    var flags := NxDomainFlags(U16(query, 2));
    NxDomainBitsReply(query[2], query[3]);
    TwoBytes(0x80 + query[2] % 0x80, 0x80 + query[3] % 0x80 - query[3] % 4 + 3, flags);
    NxDomainFields(query, flags);
    NxDomainKeeps(query, NxDomainReply(query));
  }

  lemma NxDomainKeeps(query: seq<byte>, resp: seq<byte>)
    requires |query| >= 12 && resp == NxDomainReply(query)
    ensures |resp| == |query| && resp[..2] == query[..2] && resp[12..] == query[12..]
  {}

  lemma NxDomainFields(query: seq<byte>, flags: u16)
    requires |query| >= 12 && flags == NxDomainFlags(U16(query, 2))
    ensures var resp := NxDomainReply(query);
            && resp[2] == flags / 0x100 && resp[3] == flags % 0x100
            && resp[4..6] == query[4..6] && resp[6..12] == [0, 0, 0, 0, 0, 0]
  {
    var r1 := SetU16(query, 2, flags);
    var r2 := SetU16(r1, 6, 0);
    var r3 := SetU16(r2, 8, 0);
    var resp := SetU16(r3, 10, 0);
    assert resp[2] == r1[2] && resp[3] == r1[3] && resp[4] == query[4] && resp[5] == query[5];
    assert resp[6] == 0 && resp[7] == 0 && resp[8] == 0 && resp[9] == 0 && resp[10] == 0 && resp[11] == 0;
  }

  /** SERVFAIL keeps the identifier and every flag but QR and the RCODE, which is 2; all counts are zero. */
  lemma ServFailBytes(query: seq<byte>)
    requires |query| >= 12
    ensures var resp := ServFailReply(query);
            && |resp| == 12 && resp[..2] == query[..2]
            && resp[2] == 0x80 + query[2] % 0x80
            && resp[3] == query[3] / 0x10 * 0x10 + 2
            && resp[4..] == [0, 0, 0, 0, 0, 0, 0, 0]
  {
    var flags := ServFailFlags(U16(query, 2));
    ServFailBitsReply(query[2], query[3]);
    TwoBytes(0x80 + query[2] % 0x80, query[3] / 0x10 * 0x10 + 2, flags);
    var resp := ServFailReply(query);
    assert resp[2] == flags / 0x100 && resp[3] == flags % 0x100;
  }

  /** What a reader of the sinkhole reply finds; `answer` is the offset of the answer record. */
  ghost predicate ReadsAs(resp: seq<byte>, query: seq<byte>, name: seq<byte>, ip: seq<byte>, answer: nat)
    requires |query| >= 12
  {
    && AnswersQuery(resp, query)
    && ParseQuery(resp) == Done(Query(U16(query, 0), U16(resp, 2), 1, [Question(name, 1, 1)]))
    && U16(resp, 6) == 1 && U16(resp, 8) == 0 && U16(resp, 10) == 0
    && answer + 16 == |resp|
    && ReadName(resp, answer) == Done(NameAt(name, 2))
    && U16(resp, answer + 2) == 1 && U16(resp, answer + 4) == 1
    && U16(resp, answer + 10) == 4 && resp[answer + 12..] == ip
  }

  lemma NameOfReadable(query: seq<byte>)
    requires ParseQuery(query).Done? && ParseQuery(query).value.questions != []
    ensures Readable(NonEmpty(Split(ParseQuery(query).value.questions[0].name)))
  {
    LabelsBounded(query, 12, |query| + 1);
    PiecesBounded(Labels(query, 12).value);
  }

  /**
   * The reply parses back to one A/IN question and an answer record owned by the same name, whose
   * pieces are those of the queried name without the empty ones. It is the queried name itself
   * exactly when that name has no empty piece (or is the root).
   */
  lemma SinkholeRoundTrip(query: seq<byte>, ip: seq<byte>)
    requires |ip| == 4 && ParseQuery(query).Done? && ParseQuery(query).value.questions != []
    ensures var name := ParseQuery(query).value.questions[0].name;
            var resp := SinkholeOrNx(query, ip);
            var back := Join(NonEmpty(Split(name)));
            && ReadsAs(resp, query, back, ip, 12 + |QuestionSection(name)|)
            && (back == name <==> name == [] || [] !in Split(name))
  {
    var name := ParseQuery(query).value.questions[0].name;
    var ps := NonEmpty(Split(name));
    NameOfReadable(query);
    RejoinIff(name);
    ReplyReads(query, name, ps, ip);
  }

  lemma ReplyReads(query: seq<byte>, name: seq<byte>, ps: seq<seq<byte>>, ip: seq<byte>)
    requires |query| >= 12 && |ip| == 4 && ps == NonEmpty(Split(name)) && Readable(ps)
    ensures ReadsAs(SinkholeReply(query, name, ip), query, Join(ps), ip, 12 + |QuestionSection(name)|)
  {
    var resp := SinkholeReply(query, name, ip);
    var h, q, a := ReplyHeader(query, SinkholeFlags(U16(query, 2))), QuestionSection(name), AnswerRecord(ip);
    Pieces(h, q, a, []);
    assert resp == h + q + a + [];
    HeaderFields(resp, h);
    ReplyHeaderAnswers(query, resp);
    QuestionReads(resp, ps);
    AnswerReads(resp, 12 + |q|, a, ps);
  }

  lemma HeaderFields(resp: seq<byte>, h: seq<byte>)
    requires |h| == 12 <= |resp| && resp[..12] == h
    ensures forall i :: 0 <= i <= 10 ==> U16(resp, i) == U16(h, i)
  {
    forall i | 0 <= i <= 10 ensures U16(resp, i) == U16(h, i) {
      assert resp[i] == resp[..12][i] && resp[i + 1] == resp[..12][i + 1];
    }
  }

  lemma QuestionReads(resp: seq<byte>, ps: seq<seq<byte>>)
    requires |resp| >= 12 && U16(resp, 4) == 1 && Readable(ps)
    requires var q := EncodeLabels(ps) + [0, 0, 1, 0, 1];
             12 + |q| <= |resp| && resp[12..12 + |q|] == q
    ensures HoldsName(resp, 12, ps)
    ensures ParseQuery(resp) == Done(Query(U16(resp, 0), U16(resp, 2), 1, [Question(Join(ps), 1, 1)]))
  {
    QuestionBytes(resp, EncodeLabels(ps));
    EncodedReads(resp, 12, ps);
    OneQuestion(resp, Join(ps), 12 + |EncodeLabels(ps)| + 1);
  }

  lemma QuestionBytes(resp: seq<byte>, e: seq<byte>)
    requires 17 + |e| <= |resp| && resp[12..17 + |e|] == e + [0, 0, 1, 0, 1]
    ensures var end := 12 + |e|;
            resp[12..end] == e && resp[end] == 0 && U16(resp, end + 1) == 1 && U16(resp, end + 3) == 1
  {
    var q := e + [0, 0, 1, 0, 1];
    var end := 12 + |e|;
    SliceOfSlice(resp, 12, end + 5, 0, |e|);
    assert q[0..|e|] == e;
    forall k | end <= k < end + 5 ensures resp[k] == q[k - 12] {
      assert resp[k] == resp[12..end + 5][k - 12];
    }
  }

  lemma OneQuestion(resp: seq<byte>, name: seq<byte>, end: nat)
    requires 12 <= end && end + 4 <= |resp| && U16(resp, 4) == 1
    requires ReadName(resp, 12) == Done(NameAt(name, end - 12))
    requires U16(resp, end) == 1 && U16(resp, end + 2) == 1
    ensures ParseQuery(resp) == Done(Query(U16(resp, 0), U16(resp, 2), 1, [Question(name, 1, 1)]))
  {
    var q := Question(name, 1, 1);
    AddQuestion([q], q, Done([]));
    assert ReadQuestions(resp, end + 4, 0) == Done([]);
    assert ReadQuestions(resp, 12, 1) == AddQuestions([q], Done([]));
  }

  lemma AnswerReads(resp: seq<byte>, at: nat, a: seq<byte>, ps: seq<seq<byte>>)
    requires |a| == 16 && at + 16 == |resp| && resp[at..] == a && a[..2] == [0xC0, 0x0C]
    requires HoldsName(resp, 12, ps) && Readable(ps)
    ensures ReadName(resp, at) == Done(NameAt(Join(ps), 2))
    ensures forall i :: 0 <= i <= 14 ==> U16(resp, at + i) == U16(a, i)
    ensures resp[at + 12..] == a[12..]
  {
    assert forall i :: 0 <= i < 16 ==> resp[at + i] == resp[at..][i];
    assert a[0] == a[..2][0] && a[1] == a[..2][1];
    assert Pointer(resp, at) == 12;
    EncodedWalk(resp, 12, ps);
    assert Walk(resp, at, |ps| + 2) == Done(ps);
    LabelsFrom(resp, at, |ps| + 2);
  }
}
