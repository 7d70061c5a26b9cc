/**
 * What the reader (internal/dns/wire.go) finds in questions and names laid out as sections 4.1.2 and 4.1.4
 * of RFC 1035 prescribe.
 */
module DnsLayout {
  import opened Common
  import opened Bytes
  import opened DnsNames
  import opened DnsMessages
  import EcsLayout

  /** A question as it is asked: its labels, type and class. */
  datatype Asked = Asked(labels: seq<seq<byte>>, qtype: u16, qclass: u16)

  function AskedBytes(q: Asked): seq<byte> {
    EncodeLabels(q.labels) + [0, q.qtype / 0x100, q.qtype % 0x100, q.qclass / 0x100, q.qclass % 0x100]
  }

  function AllAsked(qs: seq<Asked>): seq<byte> {
    if qs == [] then [] else AskedBytes(qs[0]) + AllAsked(qs[1..])
  }

  ghost predicate AllReadable(qs: seq<Asked>) {
    forall i :: 0 <= i < |qs| ==> Readable(qs[i].labels)
  }

  /** The questions to be found, in the same order. */
  ghost predicate Found(found: seq<Question>, qs: seq<Asked>) {
    && |found| == |qs|
    && forall i :: 0 <= i < |qs| ==> found[i] == Question(Join(qs[i].labels), qs[i].qtype, qs[i].qclass)
  }

  // ---------------------------------------------------------------- names

  /** The encoder writes what the client-subnet theorem lays out. */
  lemma {:induction false} SameSpelling(ls: seq<EcsLayout.Label>)
    ensures EncodeLabels(ls) + [0] == EcsLayout.NameBytes(EcsLayout.WireName(ls, None))
  {
    if ls != [] {
      SameSpelling(ls[1..]);
      Assoc([|ls[0]|] + ls[0], EncodeLabels(ls[1..]), [0]);
    }
  }

  lemma PrependJoined(a: seq<Label>, b: seq<Label>, r: Read<seq<Label>>)
    ensures Prepend(a, Prepend(b, r)) == Prepend(a + b, r)
  {
    if r.Done? { Assoc(a, b, r.value); }
  }

  /** Labels are read one after the other, whatever follows them. */
  lemma {:induction false} LabelsThen(b: seq<byte>, off: nat, ps: seq<seq<byte>>, end: nat, fuel: nat, total: nat)
    requires Holds(b, off, EncodeLabels(ps)) && Readable(ps)
    requires end == off + |EncodeLabels(ps)| && total == |ps| + fuel
    ensures Walk(b, off, total) == Prepend(ps, Walk(b, end, fuel)) && RunEnd(b, off) == RunEnd(b, end)
    decreases |ps|
  {
    if ps == [] {
      assert end == off;
      PrependNone(Walk(b, end, fuel));
    } else {
      var next := FirstLabelThen(b, off, ps, end, total);
      LabelsThen(b, next, ps[1..], end, fuel, total - 1);
      Rejoined(ps, Walk(b, off, total), Walk(b, next, total - 1), Walk(b, end, fuel));
    }
  }

  lemma Rejoined(ps: seq<seq<byte>>, all: Read<seq<Label>>, rest: Read<seq<Label>>, last: Read<seq<Label>>)
    requires ps != [] && all == Prepend([ps[0]], rest) && rest == Prepend(ps[1..], last)
    ensures all == Prepend(ps, last)
  {
    PrependJoined([ps[0]], ps[1..], last);
    assert [ps[0]] + ps[1..] == ps;
  }

  lemma FirstLabelThen(b: seq<byte>, off: nat, ps: seq<seq<byte>>, end: nat, total: nat) returns (next: nat)
    requires ps != [] && Holds(b, off, EncodeLabels(ps)) && Readable(ps) && end == off + |EncodeLabels(ps)| && total > 0
    ensures Readable(ps[1..]) && Holds(b, next, EncodeLabels(ps[1..])) && end == next + |EncodeLabels(ps[1..])|
    ensures Walk(b, off, total) == Prepend([ps[0]], Walk(b, next, total - 1)) && RunEnd(b, off) == RunEnd(b, next)
  {
    ReadableTail(ps);
    assert EncodeLabels(ps) == [|ps[0]|] + ps[0] + EncodeLabels(ps[1..]);
    LabelThen(b, off, ps[0], EncodeLabels(ps[1..]), total);
    next := off + 1 + |ps[0]|;
  }

  lemma LabelThen(b: seq<byte>, off: nat, l: seq<byte>, rest: seq<byte>, fuel: nat)
    requires 1 <= |l| < 0xC0 && fuel > 0 && Holds(b, off, [|l|] + l + rest)
    ensures Holds(b, off + 1 + |l|, rest)
    ensures Walk(b, off, fuel) == Prepend([l], Walk(b, off + 1 + |l|, fuel - 1))
    ensures RunEnd(b, off) == RunEnd(b, off + 1 + |l|)
  {
    HoldsParts(b, off, [|l|] + l, rest);
    HoldsParts(b, off, [|l|], l);
    HoldsAt(b, off, [|l|], 0);
  }

  /** A compression pointer continues the name at the offset in its low fourteen bits. */
  lemma CompressedRead(b: seq<byte>, off: nat, ps: seq<seq<byte>>, end: nat, p: nat, qs: seq<seq<byte>>)
    requires Holds(b, off, EncodeLabels(ps)) && Readable(ps) && HoldsName(b, p, qs) && Readable(qs)
    requires end == off + |EncodeLabels(ps)| && end + 2 <= |b|
    requires p < 0x4000 && b[end] == 0xC0 + p / 0x100 && b[end + 1] == p % 0x100
    ensures ReadName(b, off) == Done(NameAt(Join(ps + qs), end - off + 2))
  {
    AfterPointer(b, end, p, qs, |qs| + 2);
    LabelsThenPointer(b, off, ps, end, qs, |qs| + 2, end - off + 2);
  }

  lemma AfterPointer(b: seq<byte>, end: nat, p: nat, qs: seq<seq<byte>>, more: nat)
    requires end + 2 <= |b| && p < 0x4000 && b[end] == 0xC0 + p / 0x100 && b[end + 1] == p % 0x100
    requires HoldsName(b, p, qs) && Readable(qs) && more == |qs| + 2
    ensures Walk(b, end, more) == Done(qs) && RunEnd(b, end) == end + 2
  {
    EncodedWalk(b, p, qs);
    PointerStep(b, end, p, more);
  }

  lemma LabelsThenPointer(b: seq<byte>, off: nat, ps: seq<seq<byte>>, end: nat, qs: seq<seq<byte>>, more: nat,
                          consumed: nat)
    requires Holds(b, off, EncodeLabels(ps)) && Readable(ps) && end == off + |EncodeLabels(ps)|
    requires Walk(b, end, more) == Done(qs) && RunEnd(b, end) == end + 2 && off + consumed == end + 2
    ensures ReadName(b, off) == Done(NameAt(Join(ps + qs), consumed))
  {
    var total := |ps| + more;
    LabelsThen(b, off, ps, end, more, total);
    JoinedRead(b, off, ps, end, qs, more, total, consumed);
  }

  lemma JoinedRead(b: seq<byte>, off: nat, ps: seq<seq<byte>>, end: nat, qs: seq<seq<byte>>, more: nat, total: nat,
                   consumed: nat)
    requires Walk(b, off, total) == Prepend(ps, Walk(b, end, more)) && RunEnd(b, off) == RunEnd(b, end)
    requires Walk(b, end, more) == Done(qs) && RunEnd(b, end) == end + 2 && off + consumed == end + 2
    ensures ReadName(b, off) == Done(NameAt(Join(ps + qs), consumed))
  {
    NameIs(b, off, ps + qs, consumed, total);
  }

  lemma NameIs(b: seq<byte>, off: nat, ls: seq<Label>, consumed: nat, total: nat)
    requires Walk(b, off, total) == Done(ls) && RunEnd(b, off) == off + consumed
    ensures ReadName(b, off) == Done(NameAt(Join(ls), consumed))
  {
    LabelsFrom(b, off, total);
  }

  lemma PointerStep(b: seq<byte>, end: nat, p: nat, fuel: nat)
    requires end + 2 <= |b| && p < 0x4000 && b[end] == 0xC0 + p / 0x100 && b[end + 1] == p % 0x100 && fuel > 0
    ensures Walk(b, end, fuel) == Walk(b, p, fuel - 1) && RunEnd(b, end) == end + 2
  {
    assert Pointer(b, end) == p;
  }

  // ---------------------------------------------------------------- questions

  /** One question: its name, and the end of it. */
  lemma NameRead(b: seq<byte>, off: nat, q: Asked, end: nat)
    requires Holds(b, off, AskedBytes(q)) && Readable(q.labels) && end == off + |EncodeLabels(q.labels)| + 1
    ensures end + 4 <= |b| && U16(b, end) == q.qtype && U16(b, end + 2) == q.qclass
    ensures ReadName(b, off) == Done(NameAt(Join(q.labels), end - off))
  {
    var tail := [0, q.qtype / 0x100, q.qtype % 0x100, q.qclass / 0x100, q.qclass % 0x100];
    HoldsParts(b, off, EncodeLabels(q.labels), tail);
    TypeAndClass(b, end - 1, q.qtype, q.qclass);
    EncodedReads(b, off, q.labels);
  }

  lemma TypeAndClass(b: seq<byte>, at: nat, t: u16, c: u16)
    requires Holds(b, at, [0, t / 0x100, t % 0x100, c / 0x100, c % 0x100])
    ensures b[at] == 0 && U16(b, at + 1) == t && U16(b, at + 3) == c
  {
    var tail := [0, t / 0x100, t % 0x100, c / 0x100, c % 0x100];
    HoldsAt(b, at, tail, 0);
    HoldsAt(b, at, tail, 1);
    HoldsAt(b, at, tail, 2);
    HoldsAt(b, at, tail, 3);
    HoldsAt(b, at, tail, 4);
  }

  lemma NextQuestion(b: seq<byte>, off: nat, name: seq<byte>, end: nat, next: nat, n: nat)
    requires off <= end && next == end + 4 <= |b| && ReadName(b, off) == Done(NameAt(name, end - off)) && n > 0
    ensures ReadQuestions(b, off, n)
         == AddQuestions([Question(name, U16(b, end), U16(b, end + 2))], ReadQuestions(b, next, n - 1))
  {}

  lemma QuestionRead(b: seq<byte>, off: nat, q: Asked, next: nat, n: nat)
    requires Holds(b, off, AskedBytes(q)) && Readable(q.labels) && next == off + |AskedBytes(q)| && n > 0
    ensures ReadQuestions(b, off, n)
         == AddQuestions([Question(Join(q.labels), q.qtype, q.qclass)], ReadQuestions(b, next, n - 1))
  {
    var end := off + |EncodeLabels(q.labels)| + 1;
    NameRead(b, off, q, end);
    NextQuestion(b, off, Join(q.labels), end, next, n);
  }

  lemma {:induction false} QuestionsRead(b: seq<byte>, off: nat, qs: seq<Asked>, n: nat) returns (found: seq<Question>)
    requires Holds(b, off, AllAsked(qs)) && AllReadable(qs) && n == |qs|
    ensures ReadQuestions(b, off, n) == Done(found) && Found(found, qs)
    decreases n
  {
    if qs == [] {
      found := [];
    } else {
      var next := off + |AskedBytes(qs[0])|;
      HoldsTwo(b, off, AllAsked(qs), AskedBytes(qs[0]), AllAsked(qs[1..]));
      QuestionRead(b, off, qs[0], next, n);
      var others := QuestionsRead(b, next, qs[1..], n - 1);
      found := [Question(Join(qs[0].labels), qs[0].qtype, qs[0].qclass)] + others;
      OneMoreFound(found, others, qs);
    }
  }

  lemma OneMoreFound(found: seq<Question>, others: seq<Question>, qs: seq<Asked>)
    requires qs != [] && Found(others, qs[1..])
    requires found == [Question(Join(qs[0].labels), qs[0].qtype, qs[0].qclass)] + others
    ensures Found(found, qs)
  {
    forall i | 0 < i < |qs| ensures found[i] == Question(Join(qs[i].labels), qs[i].qtype, qs[i].qclass) {
      assert found[i] == others[i - 1] && qs[1..][i - 1] == qs[i];
    }
  }

  /**
   * A message of a header, any number of questions with any types and classes, and whatever follows them is
   * read as exactly those questions.
   */
  lemma MessageRead(h: seq<byte>, qs: seq<Asked>, rest: seq<byte>)
    requires |h| == 12 && h[4] as int * 0x100 + h[5] == |qs| && AllReadable(qs)
    ensures var m := ParseQuery(h + (AllAsked(qs) + rest));
            && m.Done? && Found(m.value.questions, qs) && m.value.qdCount == |qs|
            && m.value.id == h[0] as int * 0x100 + h[1] && m.value.flags == h[2] as int * 0x100 + h[3]
  {
    var b := h + (AllAsked(qs) + rest);
    InFront(b, h, AllAsked(qs), rest);
    var found := QuestionsRead(b, 12, qs, |qs|);
    assert b[0] == h[0] && b[1] == h[1] && b[2] == h[2] && b[3] == h[3] && b[4] == h[4] && b[5] == h[5];
  }
}
