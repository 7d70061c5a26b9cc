/**
 * DNS messages as they are laid out on the wire (sections 4.1.1 to 4.1.4 of RFC 1035, section 6.1.2 of
 * RFC 6891), and what stripping the client subnet (internal/dns/ecs_strip.go) does to the bytes.
 */
module EcsLayout {
  import opened Common
  import opened Bytes
  import opened EcsStrip

  type Label = l: seq<byte> | 1 <= |l| < 64 witness [0]
  type Offset14 = x: int | 0 <= x < 0x4000
  type Four = s: seq<byte> | |s| == 4 witness [0, 0, 0, 0]
  type Six = s: seq<byte> | |s| == 6 witness [0, 0, 0, 0, 0, 0]
  type Twelve = s: seq<byte> | |s| == 12 witness [0, 0, 0, 0, 0, 0, 0, 0, 0, 0, 0, 0]
  type Data = s: seq<byte> | |s| < 0x1_0000

  /** Labels, closed by the root or by a compression pointer. */
  datatype WireName = WireName(labels: seq<Label>, pointer: Option<Offset14>)
  datatype Question = Question(name: WireName, typeAndClass: Four)
  datatype Record = Record(owner: WireName, rrtype: u16, classAndTtl: Six, rdata: Data)

  /**
   * `records` are the answers and authorities, `additional` what precedes the OPT record in its section,
   * `tail` whatever follows it.
   */
  datatype Layout = Layout(header: Twelve, questions: seq<Question>, records: seq<Record>, additional: seq<Record>,
                           owner: WireName, classAndTtl: Six, options: seq<EdnsOption>, tail: seq<byte>)

  function NameBytes(n: WireName): (r: seq<byte>)
    ensures r != []
    decreases |n.labels|
  {
    if n.labels == [] then
      match n.pointer
      case None => [0]
      case Some(p) => [0xC0 + p / 0x100, p % 0x100]
    else [|n.labels[0]|] + n.labels[0] + NameBytes(WireName(n.labels[1..], n.pointer))
  }

  function QuestionBytes(q: Question): seq<byte> { NameBytes(q.name) + q.typeAndClass }

  function RecordHead(owner: WireName, rrtype: u16, classAndTtl: Six): seq<byte> {
    NameBytes(owner) + PutU16(rrtype) + classAndTtl
  }

  function RecordBytes(r: Record): seq<byte> {
    RecordHead(r.owner, r.rrtype, r.classAndTtl) + (PutU16(|r.rdata|) + r.rdata)
  }

  function AllQuestions(qs: seq<Question>): seq<byte> {
    if qs == [] then [] else QuestionBytes(qs[0]) + AllQuestions(qs[1..])
  }

  function AllRecords(rs: seq<Record>): seq<byte> {
    if rs == [] then [] else RecordBytes(rs[0]) + AllRecords(rs[1..])
  }

  /** Everything up to the RDLENGTH of the OPT record, whose type is 41. */
  function Front(m: Layout): seq<byte> {
    m.header + (AllQuestions(m.questions) + (AllRecords(m.records) + (AllRecords(m.additional)
      + RecordHead(m.owner, 41, m.classAndTtl))))
  }

  ghost function Message(m: Layout): seq<byte>
    requires |Encode(m.options)| < 0x1_0000
  {
    Front(m) + PutU16(|Encode(m.options)|) + Encode(m.options) + m.tail
  }

  /** The header announces what follows, and the OPT record is the first of its kind. */
  ghost predicate Announced(m: Layout) {
    && U16(m.header, 4) == |m.questions|
    && U16(m.header, 6) + U16(m.header, 8) == |m.records| < 0x1_0000
    && U16(m.header, 10) > |m.additional|
    && (forall i :: 0 <= i < |m.additional| ==> m.additional[i].rrtype != 41)
    && |Encode(m.options)| < 0x1_0000
  }

  // ---------------------------------------------------------------- walking what has been laid out

  lemma {:induction false} SkipsName(msg: seq<byte>, off: nat, n: WireName)
    requires Holds(msg, off, NameBytes(n))
    ensures SkipName(msg, off) == Some(off + |NameBytes(n)|)
    decreases |n.labels|
  {
    HoldsAt(msg, off, NameBytes(n), 0);
    if n.labels != [] {
      var rest := WireName(n.labels[1..], n.pointer);
      HoldsParts(msg, off, [|n.labels[0]|] + n.labels[0], NameBytes(rest));
      SkipsName(msg, off + 1 + |n.labels[0]|, rest);
    }
  }

  /** Where the parts of a record lie, and that the skipper steps over all of it. */
  lemma SkipsRecord(msg: seq<byte>, off: nat, r: Record)
    requires Holds(msg, off, RecordBytes(r))
    ensures var name := off + |NameBytes(r.owner)|; var start := off + |RecordHead(r.owner, r.rrtype, r.classAndTtl)| + 2;
            && start == name + 10 && start + |r.rdata| == off + |RecordBytes(r)| <= |msg|
            && SkipName(msg, off) == Some(name) && U16(msg, name) == r.rrtype && U16(msg, name + 8) == |r.rdata|
            && SkipRecord(msg, off) == Some(start + |r.rdata|)
  {
    var head, name := RecordHead(r.owner, r.rrtype, r.classAndTtl), off + |NameBytes(r.owner)|;
    HoldsParts(msg, off, head, PutU16(|r.rdata|) + r.rdata);
    HoldsParts(msg, off + |head|, PutU16(|r.rdata|), r.rdata);
    HoldsParts(msg, off, NameBytes(r.owner) + PutU16(r.rrtype), r.classAndTtl);
    HoldsParts(msg, off, NameBytes(r.owner), PutU16(r.rrtype));
    SkipsName(msg, off, r.owner);
    HoldsU16(msg, name, r.rrtype);
    HoldsU16(msg, name + 8, |r.rdata|);
  }

  /** What a string of bytes does to the walk, wherever in a message it lies. */
  datatype Part = Questions(n: nat) | Records(n: nat) | One | Other | UpTo(opt: seq<byte>, d: nat, n: nat)

  ghost predicate Walks(part: Part, bs: seq<byte>) {
    match part
    case Questions(n) =>
      forall msg: seq<byte>, off: nat :: Holds(msg, off, bs) ==> SkipQuestions(msg, off, n) == Some(off + |bs|)
    case Records(n) =>
      forall msg: seq<byte>, off: nat :: Holds(msg, off, bs) ==> SkipRecords(msg, off, n) == Some(off + |bs|)
    case One =>
      forall msg: seq<byte>, off: nat :: Holds(msg, off, bs) ==> SkipRecord(msg, off) == Some(off + |bs|)
    case Other =>
      forall msg: seq<byte>, off: nat :: Holds(msg, off, bs) ==> IsOther(msg, off)
    case UpTo(opt, d, n) =>
      forall msg: seq<byte>, off: nat :: Holds(msg, off, bs) ==> FoundAfter(msg, off, off + |bs|, opt, d, n)
  }

  /** A record of a type other than 41 begins here. */
  ghost predicate IsOther(msg: seq<byte>, off: nat) {
    var name := SkipName(msg, off);
    name.Some? && name.value + 2 <= |msg| && U16(msg, name.value) != 41
  }

  /** The record `opt` at `at`, whose data begins `d` bytes into it, is the one found from `off`. */
  ghost predicate FoundAfter(msg: seq<byte>, off: nat, at: nat, opt: seq<byte>, d: nat, n: nat) {
    Holds(msg, at, opt) && d <= |opt| ==> FindOpt(msg, off, n) == Some(Span(at + d, at + |opt|))
  }

  lemma ConsQuestion(a: seq<byte>, name: seq<byte>, b: seq<byte>, n: nat)
    requires forall msg: seq<byte>, off: nat :: Holds(msg, off, name) ==> SkipName(msg, off) == Some(off + |name|)
    requires |a| == |name| + 4 && a[..|name|] == name && Walks(Questions(n), b)
    ensures Walks(Questions(n + 1), a + b)
  {
    forall msg: seq<byte>, off: nat | Holds(msg, off, a + b)
      ensures SkipQuestions(msg, off, n + 1) == Some(off + |a + b|)
    {
      HoldsTwo(msg, off, a + b, a, b);
      HoldsTwo(msg, off, a, name, a[|name|..]);
      QuestionThenRest(msg, off, off + |name|, n, off + |a + b|);
    }
  }

  lemma QuestionThenRest(msg: seq<byte>, off: nat, name: nat, n: nat, end: nat)
    requires SkipName(msg, off) == Some(name) && name + 4 <= |msg| && SkipQuestions(msg, name + 4, n) == Some(end)
    ensures SkipQuestions(msg, off, n + 1) == Some(end)
  {}

  lemma ConsRecord(a: seq<byte>, b: seq<byte>, n: nat)
    requires Walks(One, a) && Walks(Records(n), b)
    ensures Walks(Records(n + 1), a + b)
  {
    forall msg: seq<byte>, off: nat | Holds(msg, off, a + b)
      ensures SkipRecords(msg, off, n + 1) == Some(off + |a + b|)
    {
      HoldsTwo(msg, off, a + b, a, b);
      OneThenRest(msg, off, a, off + |a|, b, off + |a + b|, n);
    }
  }

  lemma OneThenRest(msg: seq<byte>, off: nat, a: seq<byte>, next: nat, b: seq<byte>, end: nat, n: nat)
    requires Walks(One, a) && Walks(Records(n), b) && Holds(msg, off, a) && Holds(msg, next, b)
    requires next == off + |a| && end == next + |b|
    ensures SkipRecords(msg, off, n + 1) == Some(end)
  {
    OneAt(msg, off, a, next);
    RecordsAt(msg, next, b, n, end);
    RecordThenRest(msg, off, next, n, end);
  }

  lemma RecordThenRest(msg: seq<byte>, off: nat, next: nat, n: nat, end: nat)
    requires SkipRecord(msg, off) == Some(next) && SkipRecords(msg, next, n) == Some(end)
    ensures SkipRecords(msg, off, n + 1) == Some(end)
  {}

  lemma ConsOther(a: seq<byte>, xs: seq<byte>, opt: seq<byte>, d: nat, n: nat)
    requires Walks(One, a) && Walks(Other, a) && Walks(UpTo(opt, d, n), xs)
    ensures Walks(UpTo(opt, d, n + 1), a + xs)
  {
    forall msg: seq<byte>, off: nat | Holds(msg, off, a + xs)
      ensures FoundAfter(msg, off, off + |a + xs|, opt, d, n + 1)
    {
      SplitOther(msg, off, a + xs, a, xs, off + |a + xs|, opt, d, n);
    }
  }

  lemma SplitOther(msg: seq<byte>, off: nat, all: seq<byte>, a: seq<byte>, xs: seq<byte>, at: nat, opt: seq<byte>,
                   d: nat, n: nat)
    requires Walks(One, a) && Walks(Other, a) && Walks(UpTo(opt, d, n), xs)
    requires Holds(msg, off, all) && all == a + xs && at == off + |all|
    ensures FoundAfter(msg, off, at, opt, d, n + 1)
  {
    HoldsTwo(msg, off, all, a, xs);
    OtherThenOpt(msg, off, a, off + |a|, xs, at, opt, d, n);
  }

  lemma OtherThenOpt(msg: seq<byte>, off: nat, a: seq<byte>, next: nat, xs: seq<byte>, at: nat, opt: seq<byte>, d: nat,
                     n: nat)
    requires Walks(One, a) && Walks(Other, a) && Holds(msg, off, a) && next == off + |a|
    requires Walks(UpTo(opt, d, n), xs) && Holds(msg, next, xs) && at == next + |xs|
    ensures FoundAfter(msg, off, at, opt, d, n + 1)
  {
    OneAt(msg, off, a, next);
    OtherAt(msg, off, a);
    FoundAt(msg, next, xs, opt, d, n, at);
    PassesOver(msg, off, n + 1, next, at, opt, d);
  }

  lemma OneAt(msg: seq<byte>, off: nat, a: seq<byte>, next: nat)
    requires Walks(One, a) && Holds(msg, off, a) && next == off + |a|
    ensures SkipRecord(msg, off) == Some(next)
  {}

  lemma OtherAt(msg: seq<byte>, off: nat, a: seq<byte>)
    requires Walks(Other, a) && Holds(msg, off, a)
    ensures IsOther(msg, off)
  {}

  lemma FoundAt(msg: seq<byte>, off: nat, xs: seq<byte>, opt: seq<byte>, d: nat, n: nat, at: nat)
    requires Walks(UpTo(opt, d, n), xs) && Holds(msg, off, xs) && at == off + |xs|
    ensures FoundAfter(msg, off, at, opt, d, n)
  {}

  lemma PassesOver(msg: seq<byte>, off: nat, n: nat, next: nat, at: nat, opt: seq<byte>, d: nat)
    requires n > 0 && SkipRecord(msg, off) == Some(next) && IsOther(msg, off) && FoundAfter(msg, next, at, opt, d, n - 1)
    ensures FoundAfter(msg, off, at, opt, d, n)
  {}

  lemma NameWalks(n: WireName)
    ensures var bs := NameBytes(n);
            forall msg: seq<byte>, off: nat :: Holds(msg, off, bs) ==> SkipName(msg, off) == Some(off + |bs|)
  {
    forall msg: seq<byte>, off: nat | Holds(msg, off, NameBytes(n))
      ensures SkipName(msg, off) == Some(off + |NameBytes(n)|)
    {
      SkipsName(msg, off, n);
    }
  }

  lemma RecordWalks(r: Record)
    ensures Walks(One, RecordBytes(r)) && (r.rrtype != 41 ==> Walks(Other, RecordBytes(r)))
  {
    forall msg: seq<byte>, off: nat | Holds(msg, off, RecordBytes(r))
      ensures SkipRecord(msg, off) == Some(off + |RecordBytes(r)|) && (r.rrtype != 41 ==> IsOther(msg, off))
    {
      SkipsRecord(msg, off, r);
    }
  }

  lemma {:induction false} QuestionsWalk(qs: seq<Question>)
    ensures Walks(Questions(|qs|), AllQuestions(qs))
  {
    if qs != [] {
      var name := NameBytes(qs[0].name);
      NameWalks(qs[0].name);
      QuestionsWalk(qs[1..]);
      ConsQuestion(QuestionBytes(qs[0]), name, AllQuestions(qs[1..]), |qs| - 1);
    }
  }

  lemma {:induction false} RecordsWalk(rs: seq<Record>)
    ensures Walks(Records(|rs|), AllRecords(rs))
  {
    if rs != [] {
      RecordWalks(rs[0]);
      RecordsWalk(rs[1..]);
      ConsRecord(RecordBytes(rs[0]), AllRecords(rs[1..]), |rs| - 1);
    }
  }

  /** `opt` is an OPT record whose data begins `d` bytes into it. */
  ghost predicate StandsFirst(opt: seq<byte>, d: nat) {
    forall msg: seq<byte>, off: nat, n: nat :: n > 0 ==> FoundAfter(msg, off, off, opt, d, n)
  }

  lemma {:induction false} AdditionalWalks(xs: seq<Record>, opt: seq<byte>, d: nat, n: nat)
    requires (forall i :: 0 <= i < |xs| ==> xs[i].rrtype != 41) && StandsFirst(opt, d) && n > |xs|
    ensures Walks(UpTo(opt, d, n), AllRecords(xs))
    decreases |xs|
  {
    if xs == [] {
      NothingBefore(opt, d, n);
    } else {
      var rest := xs[1..];
      forall i | 0 <= i < |rest| ensures rest[i].rrtype != 41 { assert rest[i] == xs[i + 1]; }
      assert AllRecords(xs) == RecordBytes(xs[0]) + AllRecords(rest);
      AdditionalWalks(rest, opt, d, n - 1);
      OneMoreBefore(xs[0], AllRecords(rest), opt, d, n - 1);
    }
  }

  lemma OneMoreBefore(r: Record, xs: seq<byte>, opt: seq<byte>, d: nat, n: nat)
    requires r.rrtype != 41 && Walks(UpTo(opt, d, n), xs)
    ensures Walks(UpTo(opt, d, n + 1), RecordBytes(r) + xs)
  {
    RecordWalks(r);
    ConsOther(RecordBytes(r), xs, opt, d, n);
  }

  lemma NothingBefore(opt: seq<byte>, d: nat, n: nat)
    requires StandsFirst(opt, d) && n > 0
    ensures Walks(UpTo(opt, d, n), [])
  {
    forall msg: seq<byte>, off: nat | Holds(msg, off, []) ensures FoundAfter(msg, off, off, opt, d, n) {
      assert FoundAfter(msg, off, off, opt, d, n);
    }
  }

  lemma OptStandsFirst(opt: Record)
    requires opt.rrtype == 41
    ensures StandsFirst(RecordBytes(opt), |RecordHead(opt.owner, 41, opt.classAndTtl)| + 2)
  {
    var d := |RecordHead(opt.owner, 41, opt.classAndTtl)| + 2;
    forall msg: seq<byte>, off: nat, n: nat | n > 0 ensures FoundAfter(msg, off, off, RecordBytes(opt), d, n) {
      if Holds(msg, off, RecordBytes(opt)) { StopsAtOpt(msg, off, opt, n); }
    }
  }

  lemma StopsAtOpt(msg: seq<byte>, off: nat, opt: Record, n: nat)
    requires Holds(msg, off, RecordBytes(opt)) && opt.rrtype == 41 && n > 0
    ensures FindOpt(msg, off, n)
         == Some(Span(off + |RecordHead(opt.owner, 41, opt.classAndTtl)| + 2, off + |RecordBytes(opt)|))
  {
    SkipsRecord(msg, off, opt);
    OptHere(msg, off, n, off + |NameBytes(opt.owner)|);
  }

  // ---------------------------------------------------------------- the theorem

  lemma CounterKept(msg: seq<byte>, h: Twelve, i: nat)
    requires Holds(msg, 0, h) && i <= 10
    ensures U16(msg, i) == U16(h, i)
  {
    HoldsAt(msg, 0, h, i);
    HoldsAt(msg, 0, h, i + 1);
  }

  lemma CountersKept(msg: seq<byte>, h: Twelve)
    requires Holds(msg, 0, h)
    ensures |msg| >= 12 && Count(msg, 4) == U16(h, 4) && Count(msg, 10) == U16(h, 10)
    ensures U16(h, 6) + U16(h, 8) < 0x1_0000 ==> SkippedRecords(msg) == U16(h, 6) + U16(h, 8)
  {
    CounterKept(msg, h, 4);
    CounterKept(msg, h, 6);
    CounterKept(msg, h, 8);
    CounterKept(msg, h, 10);
  }

  lemma QuestionsAt(msg: seq<byte>, off: nat, bs: seq<byte>, n: nat, end: nat)
    requires Walks(Questions(n), bs) && Holds(msg, off, bs) && end == off + |bs|
    ensures SkipQuestions(msg, off, n) == Some(end)
  {}

  lemma RecordsAt(msg: seq<byte>, off: nat, bs: seq<byte>, n: nat, end: nat)
    requires Walks(Records(n), bs) && Holds(msg, off, bs) && end == off + |bs|
    ensures SkipRecords(msg, off, n) == Some(end)
  {}

  lemma OptAt(msg: seq<byte>, off: nat, xs: seq<byte>, opt: seq<byte>, d: nat, n: nat, at: nat, start: nat, end: nat)
    requires Walks(UpTo(opt, d, n), xs) && Holds(msg, off, xs) && at == off + |xs| && Holds(msg, at, opt) && d <= |opt|
    requires start == at + d && end == at + |opt|
    ensures FindOpt(msg, off, n) == Some(Span(start, end))
  {
    FoundAt(msg, off, xs, opt, d, n, at);
    FoundThere(msg, off, at, opt, d, n, start, end);
  }

  lemma FoundThere(msg: seq<byte>, off: nat, at: nat, opt: seq<byte>, d: nat, n: nat, start: nat, end: nat)
    requires FoundAfter(msg, off, at, opt, d, n) && Holds(msg, at, opt) && d <= |opt|
    requires start == at + d && end == at + |opt|
    ensures FindOpt(msg, off, n) == Some(Span(start, end))
  {}

  lemma Regroup(a: seq<byte>, b: seq<byte>, c: seq<byte>, d: seq<byte>)
    ensures a + (b + c) + d == (a + b) + (c + d)
    ensures a + ((b + c) + d) == (a + b) + (c + d)
  {}

  /** The sections one after the other, as the walk meets them. */
  lemma SectionsWalked(msg: seq<byte>, h: Twelve, qs: seq<byte>, rs: seq<byte>, rest: seq<byte>, k: nat, i: nat, j: nat)
    requires msg == h + (qs + (rs + rest)) && Walks(Questions(U16(h, 4)), qs) && Walks(Records(k), rs)
    requires i == 12 + |qs| && j == i + |rs|
    ensures |msg| >= 12 && Additional(msg, k) == Some(j)
  {
    InFront(msg, h, qs, rs + rest);
    CountersKept(msg, h);
    QuestionsAt(msg, 12, qs, U16(h, 4), i);
    Regroup(h, qs, rs, rest);
    Assoc(h, qs, rs + rest);
    InFront(msg, h + qs, rs, rest);
    RecordsAt(msg, i, rs, k, j);
    AdditionalAt(msg, k, i);
  }

  lemma AdditionalAt(msg: seq<byte>, k: nat, i: nat)
    requires |msg| >= 12 && SkipQuestions(msg, 12, Count(msg, 4)) == Some(i)
    ensures Additional(msg, k) == SkipRecords(msg, i, k)
  {}

  /** The additional section after `before`, whose first `|xs|` bytes come before the record `opt`. */
  lemma OptWalked(msg: seq<byte>, before: seq<byte>, xs: seq<byte>, opt: seq<byte>, tail: seq<byte>, d: nat, n: nat,
                  off: nat, start: nat, end: nat)
    requires msg == before + (xs + (opt + tail)) && Walks(UpTo(opt, d, n), xs) && d <= |opt|
    requires off == |before| && start == off + |xs| + d && end == off + |xs| + |opt|
    ensures FindOpt(msg, off, n) == Some(Span(start, end))
  {
    InFront(msg, before, xs, opt + tail);
    Assoc(before, xs, opt + tail);
    InFront(msg, before + xs, opt, tail);
    OptAt(msg, off, xs, opt, d, n, off + |xs|, start, end);
  }

  /** The same bytes grouped by section and grouped around the options. */
  lemma Grouped(h: seq<byte>, qs: seq<byte>, rs: seq<byte>, xs: seq<byte>, head: seq<byte>, len: seq<byte>, rd: seq<byte>,
                tail: seq<byte>)
    ensures (h + (qs + (rs + (xs + head)))) + len + rd + tail == h + (qs + (rs + (xs + ((head + (len + rd)) + tail))))
  {}

  lemma AdditionalBegins(msg: seq<byte>, h: Twelve, questions: seq<Question>, records: seq<Record>, rest: seq<byte>,
                         off: nat)
    requires msg == h + (AllQuestions(questions) + (AllRecords(records) + rest)) && U16(h, 4) == |questions|
    requires off == 12 + |AllQuestions(questions)| + |AllRecords(records)|
    ensures |msg| >= 12 && Additional(msg, |records|) == Some(off)
  {
    QuestionsWalk(questions);
    RecordsWalk(records);
    SectionsWalked(msg, h, AllQuestions(questions), AllRecords(records), rest, |records|, 12 + |AllQuestions(questions)|,
                   off);
  }

  lemma OptFollows(msg: seq<byte>, before: seq<byte>, xs: seq<Record>, opt: Record, tail: seq<byte>, n: nat, off: nat,
                   start: nat, end: nat)
    requires msg == before + (AllRecords(xs) + (RecordBytes(opt) + tail))
    requires (forall i :: 0 <= i < |xs| ==> xs[i].rrtype != 41) && opt.rrtype == 41 && n > |xs|
    requires off == |before| && start == off + |AllRecords(xs)| + |RecordHead(opt.owner, 41, opt.classAndTtl)| + 2
    requires end == off + |AllRecords(xs)| + |RecordBytes(opt)|
    ensures FindOpt(msg, off, n) == Some(Span(start, end))
  {
    var d := |RecordHead(opt.owner, 41, opt.classAndTtl)| + 2;
    OptStandsFirst(opt);
    AdditionalWalks(xs, RecordBytes(opt), d, n);
    OptWalked(msg, before, AllRecords(xs), RecordBytes(opt), tail, d, n, off, start, end);
  }

  lemma HeaderSays(msg: seq<byte>, h: Twelve, rest: seq<byte>)
    requires msg == h + rest
    ensures |msg| >= 12 && Count(msg, 10) == U16(h, 10)
    ensures U16(h, 6) + U16(h, 8) < 0x1_0000 ==> SkippedRecords(msg) == U16(h, 6) + U16(h, 8)
  {
    HoldsTwo(msg, 0, msg, h, rest);
    CountersKept(msg, h);
  }

  lemma OptLocated(msg: seq<byte>, k: nat, off: nat, span: Span)
    requires Additional(msg, k) == Some(off) && Count(msg, 10) > 0 && FindOpt(msg, off, Count(msg, 10)) == Some(span)
    ensures LocateOpt(msg, k) == Some(span)
  {}

  lemma Before(a: seq<byte>, b: seq<byte>, c: seq<byte>, d: seq<byte>)
    ensures a + (b + (c + d)) == (a + b + c) + d
  {}

  /** The same message, cut before the additional section. */
  lemma Resectioned(m: Layout, opt: Record, msg: seq<byte>) returns (before: seq<byte>, rest: seq<byte>)
    requires msg == Front(m) + PutU16(|opt.rdata|) + opt.rdata + m.tail
    requires opt == Record(m.owner, 41, m.classAndTtl, opt.rdata)
    ensures msg == m.header + (AllQuestions(m.questions) + (AllRecords(m.records) + rest))
    ensures msg == before + (AllRecords(m.additional) + (RecordBytes(opt) + m.tail))
    ensures |before| == 12 + |AllQuestions(m.questions)| + |AllRecords(m.records)|
    ensures |Front(m)| == |before| + |AllRecords(m.additional)| + |RecordHead(m.owner, 41, m.classAndTtl)|
  {
    var qs, rs, xs := AllQuestions(m.questions), AllRecords(m.records), AllRecords(m.additional);
    before := m.header + qs + rs;
    rest := xs + (RecordBytes(opt) + m.tail);
    Grouped(m.header, qs, rs, xs, RecordHead(m.owner, 41, m.classAndTtl), PutU16(|opt.rdata|), opt.rdata, m.tail);
    Before(m.header, qs, rs, rest);
  }

  /** The options of a laid out message are found where they were put. */
  lemma LocatesOptions(m: Layout, rd: Data, msg: seq<byte>, start: nat, end: nat)
    requires Announced(m) && msg == Front(m) + PutU16(|rd|) + rd + m.tail
    requires start == |Front(m)| + 2 && end == start + |rd|
    ensures SkippedRecords(msg) == |m.records| && LocateOpt(msg, |m.records|) == Some(Span(start, end))
  {
    var opt := Record(m.owner, 41, m.classAndTtl, rd);
    var before, rest := Resectioned(m, opt, msg);
    HeaderSays(msg, m.header, AllQuestions(m.questions) + (AllRecords(m.records) + rest));
    AdditionalBegins(msg, m.header, m.questions, m.records, rest, |before|);
    OptFollows(msg, before, m.additional, opt, m.tail, Count(msg, 10), |before|, start, end);
    OptLocated(msg, |m.records|, |before|, Span(start, end));
  }

  /** One more option is kept unless its code is 8. */
  lemma KeptStep(os: seq<EdnsOption>, o: EdnsOption)
    ensures WithoutEcs([]) == []
    ensures WithoutEcs(os + [o]) == WithoutEcs(os) + if o.code == 8 then [] else [o]
  {
    WithoutEcsAppend(os, [o]);
    assert [o][1..] == [];
    if o.code == 8 {
      assert WithoutEcs([o]) == [];
    } else {
      assert WithoutEcs([o]) == [o];
    }
  }

  /** The wire form of one more option: code, length and data. */
  lemma OptionBytes(os: seq<EdnsOption>, o: EdnsOption)
    ensures Encode([]) == []
    ensures Encode(os + [o])
         == Encode(os) + ([o.code / 0x100, o.code % 0x100, |o.data| / 0x100, |o.data| % 0x100] + o.data)
  {
    EncodeAppend(os, [o]);
    assert [o][1..] == [];
    assert Encode([o]) == EncodeOne(o) + [] == EncodeOne(o);
  }

  /**
   * Of a message laid out with any number of questions and records, stripping is reported exactly when the
   * OPT record holds an option of code 8, and the result is the same layout with exactly those left out.
   */
  lemma LayoutStrips(m: Layout)
    requires Announced(m)
    ensures var msg := Message(m);
            && (Strips(msg, SkippedRecords(msg)) <==> exists o :: o in m.options && o.code == 8)
            && |Encode(WithoutEcs(m.options))| < 0x1_0000
            && StripResult(msg, SkippedRecords(msg)) == Message(m.(options := WithoutEcs(m.options)))
  {
    var rd := Encode(m.options);
    var start, end := |Front(m)| + 2, |Front(m)| + 2 + |rd|;
    LocatesOptions(m, rd, Message(m), start, end);
    Rebuilt(Message(m), Front(m), rd, m.tail, Span(start, end), Encode(WithoutEcs(m.options)));
    WithoutEcsExact(m.options);
    FilterShrinks(m.options);
    StripsAt(Message(m), |m.records|, Span(start, end), m.options);
    assert Front(m.(options := WithoutEcs(m.options))) == Front(m);
    if !HasEcs(m.options) { NothingKeptOut(m.options); }
  }

  /** Stripping, once the options are located and spelled out. */
  lemma StripsAt(msg: seq<byte>, k: nat, span: Span, os: seq<EdnsOption>)
    requires LocateOpt(msg, k) == Some(span) && msg[span.start..span.end] == Encode(os)
    ensures Strips(msg, k) <==> HasEcs(os)
    ensures HasEcs(os) ==>
              && |Encode(WithoutEcs(os))| < 0x1_0000
              && StripResult(msg, k) == Replaced(msg, span, Encode(WithoutEcs(os)))
    ensures !HasEcs(os) ==> StripResult(msg, k) == msg
  {
    ParseInverts(os);
    if HasEcs(os) { StripReplaces(msg, k, span, os); }
  }

  lemma Rebuilt(msg: seq<byte>, front: seq<byte>, rd: Data, tail: seq<byte>, span: Span, kept: seq<byte>)
    requires msg == front + PutU16(|rd|) + rd + tail && span == Span(|front| + 2, |front| + 2 + |rd|)
    ensures span.end <= |msg| && msg[span.start..span.end] == rd
    ensures |kept| < 0x1_0000 ==> Replaced(msg, span, kept) == front + PutU16(|kept|) + kept + tail
  {
    Pieces(front, PutU16(|rd|), rd, tail);
  }

  lemma {:induction false} NothingKeptOut(os: seq<EdnsOption>)
    requires !HasEcs(os)
    ensures WithoutEcs(os) == os
  {
    if os != [] {
      NothingKeptOut(os[1..]);
      assert [os[0]] + os[1..] == os;
    }
  }
}
