/**
 * Removing the EDNS client-subnet option from an outgoing query (internal/dns/ecs_strip.go).
 *
 * The reference is a parser: where the first OPT record of the additional section lies, and the
 * option list its RDATA encodes (section 6.1.2 of RFC 6891). The message produced by the in-place
 * surgery must parse to the filtered list.
 */
module EcsStrip {
  import opened Common
  import opened Bytes

  const OPT: u16 := 41
  const ECS: u16 := 8

  datatype Span = Span(start: nat, end: nat)
  type OptionData = d: seq<byte> | |d| < 0x1_0000
  datatype EdnsOption = EdnsOption(code: u16, data: OptionData)

  // ---------------------------------------------------------------- walking the message

  /** End of the possibly compressed name at `off`; `None` is either source error. */
  function SkipName(msg: seq<byte>, off: nat): (r: Option<nat>)
    ensures r.Some? ==> off < r.value <= |msg|
    decreases |msg| - off
  {
    if off >= |msg| then None
    else if msg[off] == 0 then Some(off + 1)
    else if msg[off] >= 0xC0 then (if off + 2 > |msg| then None else Some(off + 2))
    else if msg[off] >= 0x40 then None
    else SkipName(msg, off + 1 + msg[off])
  }

  function SkipRecord(msg: seq<byte>, off: nat): (r: Option<nat>)
    ensures r.Some? ==> off + 11 <= r.value <= |msg|
  {
    var name := SkipName(msg, off);
    if name.None? || name.value + 10 > |msg| then None
    else
      var next := name.value + 10 + U16(msg, name.value + 8);
      if next > |msg| then None else Some(next)
  }

  function SkipQuestions(msg: seq<byte>, off: nat, n: nat): (r: Option<nat>)
    ensures r.Some? ==> off <= r.value && (n > 0 ==> r.value <= |msg|)
    decreases n
  {
    if n == 0 then Some(off)
    else
      var name := SkipName(msg, off);
      if name.None? || name.value + 4 > |msg| then None
      else SkipQuestions(msg, name.value + 4, n - 1)
  }

  function SkipRecords(msg: seq<byte>, off: nat, n: nat): (r: Option<nat>)
    ensures r.Some? ==> off + 11 * n <= r.value && (n > 0 ==> r.value <= |msg|)
    decreases n
  {
    if n == 0 then Some(off)
    else
      var next := SkipRecord(msg, off);
      if next.None? then None else SkipRecords(msg, next.value, n - 1)
  }

  /** RDATA of the first OPT record among the `n` records at `off`. */
  function FindOpt(msg: seq<byte>, off: nat, n: nat): (r: Option<Span>)
    ensures r.Some? ==> off + 11 <= r.value.start <= r.value.end <= |msg|
    ensures r.Some? ==> r.value.end - r.value.start == U16(msg, r.value.start - 2)
    decreases n
  {
    if n == 0 then None
    else
      var name := SkipName(msg, off);
      var next := SkipRecord(msg, off);
      if next.None? then None
      else if U16(msg, name.value) == OPT then Some(Span(name.value + 10, next.value))
      else FindOpt(msg, next.value, n - 1)
  }

  function Count(msg: seq<byte>, field: nat): u16
    requires field <= 10 && 12 <= |msg|
  {
    U16(msg, field)
  }

  /** The OPT RDATA when `records` answer and authority records precede the additional section. */
  function LocateOpt(msg: seq<byte>, records: nat): (r: Option<Span>)
    ensures r.Some? ==> 23 <= r.value.start <= r.value.end <= |msg|
    ensures r.Some? ==> r.value.end - r.value.start == U16(msg, r.value.start - 2)
  {
    var additional := Additional(msg, records);
    if additional.None? || Count(msg, 10) == 0 then None
    else FindOpt(msg, additional.value, Count(msg, 10))
  }

  /** Where the additional section begins. */
  function Additional(msg: seq<byte>, records: nat): (r: Option<nat>)
    ensures r.Some? ==> |msg| >= 12 && r.value >= 12
  {
    if |msg| < 12 then None
    else
      var questions := SkipQuestions(msg, 12, Count(msg, 4));
      if questions.None? then None else SkipRecords(msg, questions.value, records)
  }

  // ---------------------------------------------------------------- option lists

  ghost function EncodeOne(o: EdnsOption): (r: seq<byte>)
    ensures |r| == 4 + |o.data| && U16(r, 0) == o.code && U16(r, 2) == |o.data|
    ensures r[4..] == o.data
  {
    PutU16(o.code) + PutU16(|o.data|) + o.data
  }

  ghost function Encode(os: seq<EdnsOption>): seq<byte> {
    if os == [] then [] else EncodeOne(os[0]) + Encode(os[1..])
  }

  ghost function ParseOptions(rd: seq<byte>): Option<seq<EdnsOption>> {
    if rd == [] then Some([])
    else if |rd| < 4 || 4 + U16(rd, 2) > |rd| then None
    else
      var rest := ParseOptions(rd[4 + U16(rd, 2)..]);
      if rest.None? then None
      else Some([EdnsOption(U16(rd, 0), rd[4..4 + U16(rd, 2)])] + rest.value)
  }

  ghost function WithoutEcs(os: seq<EdnsOption>): seq<EdnsOption> {
    if os == [] then []
    else (if os[0].code == ECS then [] else [os[0]]) + WithoutEcs(os[1..])
  }

  ghost predicate HasEcs(os: seq<EdnsOption>) {
    os != [] && (os[0].code == ECS || HasEcs(os[1..]))
  }

  /** The filter drops exactly the client-subnet options. */
  lemma {:induction false} WithoutEcsExact(os: seq<EdnsOption>)
    ensures forall o :: o in WithoutEcs(os) <==> o in os && o.code != ECS
    ensures HasEcs(os) <==> exists o :: o in os && o.code == ECS
    ensures !HasEcs(WithoutEcs(os))
  {
    if os != [] {
      WithoutEcsExact(os[1..]);
      var rest := WithoutEcs(os[1..]);
      assert forall o :: o in os <==> o == os[0] || o in os[1..];
      if os[0].code != ECS {
        assert WithoutEcs(os) == [os[0]] + rest && ([os[0]] + rest)[1..] == rest;
      } else {
        assert WithoutEcs(os) == rest;
      }
    }
  }

  lemma EncodeOneAt(rd: seq<byte>)
    requires |rd| >= 4 && 4 + U16(rd, 2) <= |rd|
    ensures EncodeOne(EdnsOption(U16(rd, 0), rd[4..4 + U16(rd, 2)])) == rd[..4 + U16(rd, 2)]
  {}

  lemma {:induction false} EncodeInverts(rd: seq<byte>)
    requires ParseOptions(rd).Some?
    ensures Encode(ParseOptions(rd).value) == rd
  {
    if rd != [] {
      var cut := 4 + U16(rd, 2);
      EncodeInverts(rd[cut..]);
      var os := ParseOptions(rd).value;
      assert os[1..] == ParseOptions(rd[cut..]).value;
      EncodeOneAt(rd);
      assert rd[..cut] + rd[cut..] == rd;
    }
  }

  lemma {:induction false} ParseInverts(os: seq<EdnsOption>)
    ensures ParseOptions(Encode(os)) == Some(os)
  {
    if os != [] {
      ParseInverts(os[1..]);
      ParseFirst(os[0], Encode(os[1..]));
      assert [os[0]] + os[1..] == os;
    }
  }

  lemma ParseFirst(o: EdnsOption, rest: seq<byte>)
    ensures ParseOptions(EncodeOne(o) + rest) ==
            match ParseOptions(rest) case None => None case Some(os) => Some([o] + os)
  {
    var rd := EncodeOne(o) + rest;
    assert U16(rd, 0) == o.code && U16(rd, 2) == |o.data|;
    assert rd[4..4 + |o.data|] == o.data && rd[4 + |o.data|..] == rest;
  }

  lemma {:induction false} EncodeAppend(a: seq<EdnsOption>, b: seq<EdnsOption>)
    ensures Encode(a + b) == Encode(a) + Encode(b)
  {
    if a == [] {
      assert a + b == b;
    } else {
      EncodeAppend(a[1..], b);
      assert (a + b)[1..] == a[1..] + b;
      Assoc(EncodeOne(a[0]), Encode(a[1..]), Encode(b));
    }
  }

  lemma {:induction false} WithoutEcsAppend(a: seq<EdnsOption>, b: seq<EdnsOption>)
    ensures WithoutEcs(a + b) == WithoutEcs(a) + WithoutEcs(b)
    ensures HasEcs(a + b) <==> HasEcs(a) || HasEcs(b)
  {
    if a == [] {
      assert a + b == b;
    } else {
      WithoutEcsAppend(a[1..], b);
      assert (a + b)[1..] == a[1..] + b;
      Assoc(if a[0].code == ECS then [] else [a[0]], WithoutEcs(a[1..]), WithoutEcs(b));
    }
  }

  lemma {:induction false} FilterShrinks(os: seq<EdnsOption>)
    ensures |Encode(WithoutEcs(os))| <= |Encode(os)|
    ensures HasEcs(os) ==> |Encode(WithoutEcs(os))| < |Encode(os)|
    ensures WithoutEcs(WithoutEcs(os)) == WithoutEcs(os)
  {
    if os != [] {
      FilterShrinks(os[1..]);
      assert os == [os[0]] + os[1..];
      EncodeAppend([os[0]], os[1..]);
      var kept := WithoutEcs(os[1..]);
      if os[0].code != ECS {
        assert WithoutEcs(os)[1..] == kept;
      } else {
        assert WithoutEcs(os) == kept;
      }
    }
  }

  // ---------------------------------------------------------------- what stripping means

  /** The message with the option bytes replaced and RDLENGTH rewritten; nothing else moves. */
  ghost function Replaced(msg: seq<byte>, span: Span, kept: seq<byte>): seq<byte>
    requires 2 <= span.start <= span.end <= |msg| && |kept| < 0x1_0000
  {
    msg[..span.start - 2] + PutU16(|kept|) + kept + msg[span.end..]
  }

  lemma ReplacedPieces(msg: seq<byte>, span: Span, kept: seq<byte>)
    requires 2 <= span.start <= span.end <= |msg| && |kept| < 0x1_0000
    ensures var out := Replaced(msg, span, kept);
            && span.start + |kept| <= |out| && U16(out, span.start - 2) == |kept|
            && out[..span.start - 2] == msg[..span.start - 2]
            && out[span.start..span.start + |kept|] == kept
            && out[span.start + |kept|..] == msg[span.end..]
  {
    Pieces(msg[..span.start - 2], PutU16(|kept|), kept, msg[span.end..]);
    U16At(Replaced(msg, span, kept), span.start - 2);
  }

  ghost predicate Strips(msg: seq<byte>, records: nat) {
    var span := LocateOpt(msg, records);
    && span.Some?
    && var os := ParseOptions(msg[span.value.start..span.value.end]);
    os.Some? && HasEcs(os.value)
  }

  lemma KeptLength(msg: seq<byte>, span: Span)
    requires 2 <= span.start <= span.end <= |msg| && span.end - span.start < 0x1_0000
    requires ParseOptions(msg[span.start..span.end]).Some?
    ensures |Encode(WithoutEcs(ParseOptions(msg[span.start..span.end]).value))| <= span.end - span.start
  {
    EncodeInverts(msg[span.start..span.end]);
    FilterShrinks(ParseOptions(msg[span.start..span.end]).value);
  }

  ghost function StripResult(msg: seq<byte>, records: nat): seq<byte> {
    if !Strips(msg, records) then msg
    else
      var span := LocateOpt(msg, records).value;
      KeptLength(msg, span);
      Replaced(msg, span, Encode(WithoutEcs(ParseOptions(msg[span.start..span.end]).value)))
  }

  // The walk up to the OPT record reads only the bytes before its RDLENGTH.

  lemma {:induction false} SkipNamePrefix(a: seq<byte>, b: seq<byte>, p: nat, off: nat)
    requires p <= |a| && p <= |b| && a[..p] == b[..p]
    requires SkipName(a, off).Some? && SkipName(a, off).value <= p
    ensures SkipName(b, off) == SkipName(a, off)
    decreases |a| - off
  {
    assert a[off] == a[..p][off] == b[..p][off] == b[off];
    if 0 < a[off] < 0x40 { SkipNamePrefix(a, b, p, off + 1 + a[off]); }
  }

  lemma U16Prefix(a: seq<byte>, b: seq<byte>, p: nat, i: nat)
    requires p <= |a| && p <= |b| && a[..p] == b[..p] && i + 2 <= p
    ensures U16(a, i) == U16(b, i)
  {
    assert a[i] == a[..p][i] == b[..p][i] == b[i];
    assert a[i + 1] == a[..p][i + 1] == b[..p][i + 1] == b[i + 1];
  }

  lemma SkipRecordPrefix(a: seq<byte>, b: seq<byte>, p: nat, off: nat)
    requires p <= |a| && p <= |b| && a[..p] == b[..p]
    requires SkipRecord(a, off).Some? && SkipRecord(a, off).value <= p
    ensures SkipRecord(b, off) == SkipRecord(a, off)
  {
    SkipNamePrefix(a, b, p, off);
    U16Prefix(a, b, p, SkipName(a, off).value + 8);
  }

  lemma {:induction false} SkipQuestionsPrefix(a: seq<byte>, b: seq<byte>, p: nat, off: nat, n: nat)
    requires p <= |a| && p <= |b| && a[..p] == b[..p]
    requires SkipQuestions(a, off, n).Some? && SkipQuestions(a, off, n).value <= p
    ensures SkipQuestions(b, off, n) == SkipQuestions(a, off, n)
    decreases n
  {
    if n > 0 {
      SkipNamePrefix(a, b, p, off);
      SkipQuestionsPrefix(a, b, p, SkipName(a, off).value + 4, n - 1);
    }
  }

  lemma {:induction false} SkipRecordsPrefix(a: seq<byte>, b: seq<byte>, p: nat, off: nat, n: nat)
    requires p <= |a| && p <= |b| && a[..p] == b[..p]
    requires SkipRecords(a, off, n).Some? && SkipRecords(a, off, n).value <= p
    ensures SkipRecords(b, off, n) == SkipRecords(a, off, n)
    decreases n
  {
    if n > 0 {
      SkipRecordPrefix(a, b, p, off);
      SkipRecordsPrefix(a, b, p, SkipRecord(a, off).value, n - 1);
    }
  }

  lemma {:induction false} FindOptPrefix(a: seq<byte>, b: seq<byte>, off: nat, n: nat)
    requires FindOpt(a, off, n).Some?
    requires var start := FindOpt(a, off, n).value.start;
             start <= |b| && a[..start - 2] == b[..start - 2] && start + U16(b, start - 2) <= |b|
    ensures var start := FindOpt(a, off, n).value.start;
            FindOpt(b, off, n) == Some(Span(start, start + U16(b, start - 2)))
    decreases n
  {
    var p := FindOpt(a, off, n).value.start - 2;
    var name := SkipName(a, off).value;
    assert SkipName(b, off) == Some(name) by { SkipNamePrefix(a, b, p, off); }
    assert U16(b, name) == U16(a, name) by { U16Prefix(a, b, p, name); }
    if U16(a, name) == OPT {
      OptHere(b, off, n, name);
    } else {
      var next := SkipRecord(a, off).value;
      assert SkipRecord(b, off) == Some(next) by { SkipRecordPrefix(a, b, p, off); }
      FindOptPrefix(a, b, next, n - 1);
    }
  }

  lemma OptHere(msg: seq<byte>, off: nat, n: nat, name: nat)
    requires n > 0 && SkipName(msg, off) == Some(name) && name + 10 <= |msg| && U16(msg, name) == OPT
    requires name + 10 + U16(msg, name + 8) <= |msg|
    ensures FindOpt(msg, off, n) == Some(Span(name + 10, name + 10 + U16(msg, name + 8)))
  {}

  lemma LocateOptPrefix(a: seq<byte>, b: seq<byte>, records: nat)
    requires LocateOpt(a, records).Some?
    requires var start := LocateOpt(a, records).value.start;
             start <= |b| && a[..start - 2] == b[..start - 2] && start + U16(b, start - 2) <= |b|
    ensures var start := LocateOpt(a, records).value.start;
            LocateOpt(b, records) == Some(Span(start, start + U16(b, start - 2)))
  {
    var p := LocateOpt(a, records).value.start - 2;
    var additional := Additional(a, records).value;
    assert Count(b, 10) == Count(a, 10) by { U16Prefix(a, b, p, 10); }
    assert Additional(b, records) == Some(additional) by { AdditionalPrefix(a, b, p, records); }
    FindOptPrefix(a, b, additional, Count(a, 10));
  }

  lemma AdditionalPrefix(a: seq<byte>, b: seq<byte>, p: nat, records: nat)
    requires 12 <= p <= |a| && p <= |b| && a[..p] == b[..p]
    requires Additional(a, records).Some? && Additional(a, records).value <= p
    ensures Additional(b, records) == Additional(a, records)
  {
    U16Prefix(a, b, p, 4);
    SkipQuestionsPrefix(a, b, p, 12, Count(a, 4));
    SkipRecordsPrefix(a, b, p, SkipQuestions(a, 12, Count(a, 4)).value, records);
  }

  /**
   * A stripped message parses to the original option list without the client-subnet options,
   * under a consistent RDLENGTH, with every byte outside the record's length and data kept.
   */
  lemma StrippedParses(msg: seq<byte>, records: nat)
    requires Strips(msg, records)
    ensures var out := StripResult(msg, records);
            var span := LocateOpt(msg, records).value;
            var os := ParseOptions(msg[span.start..span.end]).value;
            && LocateOpt(out, records).Some?
            && var span' := LocateOpt(out, records).value;
            && ParseOptions(out[span'.start..span'.end]) == Some(WithoutEcs(os))
            && span'.start == span.start && span'.end < span.end
            && out[..span.start - 2] == msg[..span.start - 2]
            && out[span'.end..] == msg[span.end..]
  {
    var span := LocateOpt(msg, records).value;
    var os := ParseOptions(msg[span.start..span.end]).value;
    var kept := KeptBytesOf(msg, records, span, os);
    ReplacedParses(msg, span, kept, WithoutEcs(os), records);
  }

  /** The bytes that take the place of the option list. */
  lemma KeptBytesOf(msg: seq<byte>, records: nat, span: Span, os: seq<EdnsOption>) returns (kept: seq<byte>)
    requires LocateOpt(msg, records) == Some(span) && ParseOptions(msg[span.start..span.end]) == Some(os) && HasEcs(os)
    ensures |kept| < span.end - span.start < 0x1_0000 && ParseOptions(kept) == Some(WithoutEcs(os))
    ensures StripResult(msg, records) == Replaced(msg, span, kept)
  {
    kept := Encode(WithoutEcs(os));
    StripReplaces(msg, records, span, os);
    ParseInverts(WithoutEcs(os));
  }

  /** Whatever shorter option list is put in place of the old one is the one that is read back. */
  lemma ReplacedParses(msg: seq<byte>, span: Span, kept: seq<byte>, os: seq<EdnsOption>, records: nat)
    requires LocateOpt(msg, records) == Some(span) && |kept| < span.end - span.start < 0x1_0000
    requires ParseOptions(kept) == Some(os)
    ensures var out := Replaced(msg, span, kept); var end := span.start + |kept|;
            && LocateOpt(out, records) == Some(Span(span.start, end))
            && ParseOptions(out[span.start..end]) == Some(os)
            && out[..span.start - 2] == msg[..span.start - 2]
            && out[end..] == msg[span.end..]
  {
    ReplacedLocates(msg, span, kept, records);
  }

  lemma StripReplaces(msg: seq<byte>, records: nat, span: Span, os: seq<EdnsOption>)
    requires LocateOpt(msg, records) == Some(span) && ParseOptions(msg[span.start..span.end]) == Some(os) && HasEcs(os)
    ensures |Encode(WithoutEcs(os))| < span.end - span.start < 0x1_0000
    ensures StripResult(msg, records) == Replaced(msg, span, Encode(WithoutEcs(os)))
  {
    KeptLength(msg, span);
    KeptShrinks(msg[span.start..span.end], os);
  }

  lemma KeptShrinks(rd: seq<byte>, os: seq<EdnsOption>)
    requires ParseOptions(rd) == Some(os) && HasEcs(os)
    ensures |Encode(WithoutEcs(os))| < |rd|
  {
    EncodeInverts(rd);
    FilterShrinks(os);
  }

  /** In the rebuilt message the first OPT record still starts there and holds the kept bytes. */
  lemma ReplacedLocates(msg: seq<byte>, span: Span, kept: seq<byte>, records: nat)
    requires LocateOpt(msg, records) == Some(span) && |kept| < 0x1_0000
    ensures var out := Replaced(msg, span, kept);
            && span.start + |kept| <= |out|
            && LocateOpt(out, records) == Some(Span(span.start, span.start + |kept|))
            && out[span.start..span.start + |kept|] == kept
            && out[..span.start - 2] == msg[..span.start - 2]
            && out[span.start + |kept|..] == msg[span.end..]
  {
    ReplacedPieces(msg, span, kept);
    LocatesAlike(msg, Replaced(msg, span, kept), span, |kept|, records);
  }

  lemma LocatesAlike(a: seq<byte>, b: seq<byte>, span: Span, length: nat, records: nat)
    requires LocateOpt(a, records) == Some(span) && span.start + length <= |b|
    requires a[..span.start - 2] == b[..span.start - 2] && U16(b, span.start - 2) == length
    ensures LocateOpt(b, records) == Some(Span(span.start, span.start + length))
  {
    LocateOptPrefix(a, b, records);
  }

  /** With the same record count the result carries no client-subnet option any more. */
  lemma StripAgain(msg: seq<byte>, records: nat)
    ensures !Strips(StripResult(msg, records), records)
    ensures StripResult(StripResult(msg, records), records) == StripResult(msg, records)
  {
    if Strips(msg, records) {
      StrippedParses(msg, records);
      var span := LocateOpt(msg, records).value;
      WithoutEcsExact(ParseOptions(msg[span.start..span.end]).value);
    }
  }

  // ---------------------------------------------------------------- the imperative code

  ghost predicate InBounds(msg: seq<byte>, ranges: seq<Span>) {
    forall r :: r in ranges ==> r.start <= r.end <= |msg|
  }

  ghost function Concat(msg: seq<byte>, ranges: seq<Span>): seq<byte>
    requires InBounds(msg, ranges)
  {
    if ranges == [] then []
    else Concat(msg, ranges[..|ranges| - 1]) + msg[ranges[|ranges| - 1].start..ranges[|ranges| - 1].end]
  }

  /** `ParseOptions` of a range, in terms of the options already seen and the bytes still ahead. */
  ghost predicate Walked(rd: seq<byte>, seen: seq<EdnsOption>, rest: seq<byte>) {
    ParseOptions(rd) == AddOptions(seen, ParseOptions(rest))
  }

  ghost function AddOptions(seen: seq<EdnsOption>, r: Option<seq<EdnsOption>>): Option<seq<EdnsOption>> {
    if r.Some? then Some(seen + r.value) else None
  }

  lemma StartWalk(rd: seq<byte>)
    ensures Walked(rd, [], rd)
  {
    var os := ParseOptions(rd);
    if os.Some? { assert [] + os.value == os.value; }
  }

  lemma EndWalk(rd: seq<byte>, seen: seq<EdnsOption>)
    requires Walked(rd, seen, [])
    ensures ParseOptions(rd) == Some(seen)
  {
    assert seen + [] == seen;
  }

  lemma WalkOne(rd: seq<byte>, seen: seq<EdnsOption>, rest: seq<byte>)
    requires Walked(rd, seen, rest) && |rest| >= 4 && 4 + U16(rest, 2) <= |rest|
    ensures var o := EdnsOption(U16(rest, 0), rest[4..4 + U16(rest, 2)]);
            && Walked(rd, seen + [o], rest[4 + U16(rest, 2)..])
            && Encode(WithoutEcs(seen + [o])) ==
               Encode(WithoutEcs(seen)) + (if o.code == ECS then [] else rest[..4 + U16(rest, 2)])
            && (HasEcs(seen + [o]) <==> HasEcs(seen) || o.code == ECS)
  {
    var o := EdnsOption(U16(rest, 0), rest[4..4 + U16(rest, 2)]);
    var tail := ParseOptions(rest[4 + U16(rest, 2)..]);
    if tail.Some? { assert seen + ([o] + tail.value) == (seen + [o]) + tail.value; }
    KeepOne(seen, o);
    EncodeOneAt(rest);
  }

  lemma KeepOne(seen: seq<EdnsOption>, o: EdnsOption)
    ensures HasEcs(seen + [o]) <==> HasEcs(seen) || o.code == ECS
    ensures Encode(WithoutEcs(seen + [o])) ==
            Encode(WithoutEcs(seen)) + (if o.code == ECS then [] else EncodeOne(o))
  {
    WithoutEcsAppend(seen, [o]);
    assert [o][1..] == [];
    if o.code == ECS {
      assert WithoutEcs([o]) == [];
      assert WithoutEcs(seen) + [] == WithoutEcs(seen);
      assert Encode(WithoutEcs(seen)) + [] == Encode(WithoutEcs(seen));
    } else {
      assert WithoutEcs([o]) == [o];
      EncodeAppend(WithoutEcs(seen), [o]);
      assert Encode([o]) == EncodeOne(o) + Encode([]) == EncodeOne(o);
    }
  }

  /** The scan has reached `pos`, with `seen` behind it. */
  ghost predicate Scanned(msg: seq<byte>, rdStart: nat, rdEnd: nat, pos: nat, ranges: seq<Span>, stripped: bool,
                          seen: seq<EdnsOption>)
    requires rdStart <= pos <= rdEnd <= |msg|
  {
    && Walked(msg[rdStart..rdEnd], seen, msg[pos..rdEnd])
    && InBounds(msg, ranges)
    && Concat(msg, ranges) == Encode(WithoutEcs(seen))
    && (stripped <==> HasEcs(seen))
  }

  lemma ScanStep(msg: seq<byte>, rdStart: nat, rdEnd: nat, pos: nat, ranges: seq<Span>, stripped: bool,
                 seen: seq<EdnsOption>, next: nat)
    requires rdStart <= pos && pos + 4 <= next <= rdEnd <= |msg| && next == pos + 4 + U16(msg, pos + 2)
    requires Scanned(msg, rdStart, rdEnd, pos, ranges, stripped, seen)
    ensures var o := EdnsOption(U16(msg, pos), msg[pos + 4..next]);
            var ecs := U16(msg, pos) == ECS;
            Scanned(msg, rdStart, rdEnd, next, if ecs then ranges else ranges + [Span(pos, next)], stripped || ecs,
                    seen + [o])
  {
    var rest := msg[pos..rdEnd];
    assert U16(rest, 0) == U16(msg, pos) && U16(rest, 2) == U16(msg, pos + 2);
    Slices(msg, pos, next, rdEnd);
    SliceOfSlice(msg, pos, rdEnd, 4, next - pos);
    var o := EdnsOption(U16(msg, pos), msg[pos + 4..next]);
    assert rest[4..4 + U16(rest, 2)] == msg[pos + 4..next];
    WalkOne(msg[rdStart..rdEnd], seen, rest);
    assert Walked(msg[rdStart..rdEnd], seen + [o], msg[next..rdEnd]);
    if U16(msg, pos) == ECS {
      assert Encode(WithoutEcs(seen + [o])) == Encode(WithoutEcs(seen)) + [] == Encode(WithoutEcs(seen));
    } else {
      AddRange(msg, ranges, Span(pos, next));
    }
  }

  /** An option that overruns the RDATA makes the whole list unreadable. */
  lemma ScanStuck(msg: seq<byte>, rdStart: nat, rdEnd: nat, pos: nat, ranges: seq<Span>, stripped: bool,
                  seen: seq<EdnsOption>)
    requires rdStart <= pos < rdEnd <= |msg| && Scanned(msg, rdStart, rdEnd, pos, ranges, stripped, seen)
    requires pos + 4 > rdEnd || pos + 4 + U16(msg, pos + 2) > rdEnd
    ensures ParseOptions(msg[rdStart..rdEnd]).None?
  {
    var rest := msg[pos..rdEnd];
    if pos + 4 <= rdEnd { assert U16(rest, 2) == U16(msg, pos + 2); }
  }

  /** The option walk: the byte ranges to keep, or `None` when an option overruns the RDATA. */
  method ScanOptions(msg: seq<byte>, rdStart: nat, rdEnd: nat) returns (r: Option<(seq<Span>, bool)>)
    requires rdStart <= rdEnd <= |msg|
    ensures r.Some? <==> ParseOptions(msg[rdStart..rdEnd]).Some?
    ensures r.Some? ==>
              var os := ParseOptions(msg[rdStart..rdEnd]).value;
              && InBounds(msg, r.value.0)
              && Concat(msg, r.value.0) == Encode(WithoutEcs(os))
              && (r.value.1 <==> HasEcs(os))
  {
    var pos: nat := rdStart;
    var ranges: seq<Span> := [];
    var stripped := false;
    ghost var seen: seq<EdnsOption> := [];
    StartWalk(msg[rdStart..rdEnd]);
    while pos < rdEnd
      invariant rdStart <= pos <= rdEnd
      invariant Scanned(msg, rdStart, rdEnd, pos, ranges, stripped, seen)
    {
      if pos + 4 > rdEnd {
        ScanStuck(msg, rdStart, rdEnd, pos, ranges, stripped, seen);
        return None;
      }
      var code := U16(msg, pos);
      var nextPos := pos + 4 + U16(msg, pos + 2);
      if nextPos > rdEnd {
        ScanStuck(msg, rdStart, rdEnd, pos, ranges, stripped, seen);
        return None;
      }
      ScanStep(msg, rdStart, rdEnd, pos, ranges, stripped, seen, nextPos);
      seen := seen + [EdnsOption(code, msg[pos + 4..nextPos])];
      if code == ECS {
        stripped := true;
      } else {
        ranges := ranges + [Span(pos, nextPos)];
      }
      pos := nextPos;
    }
    assert msg[pos..rdEnd] == [];
    EndWalk(msg[rdStart..rdEnd], seen);
    return Some((ranges, stripped));
  }

  lemma Slices<T>(s: seq<T>, a: nat, b: nat, c: nat)
    requires a <= b <= c <= |s|
    ensures s[a..c][..b - a] == s[a..b] && s[a..c][b - a..] == s[b..c]
  {}

  lemma AddRange(msg: seq<byte>, ranges: seq<Span>, r: Span)
    requires InBounds(msg, ranges) && r.start <= r.end <= |msg|
    ensures InBounds(msg, ranges + [r])
    ensures Concat(msg, ranges + [r]) == Concat(msg, ranges) + msg[r.start..r.end]
  {
    assert (ranges + [r])[..|ranges|] == ranges;
  }

  /** Overwriting the two length bytes of the rebuilt message. */
  lemma Patched(msg: seq<byte>, span: Span, kept: seq<byte>)
    requires 2 <= span.start <= span.end <= |msg| && |kept| < 0x1_0000
    ensures (msg[..span.start] + kept + msg[span.end..])
              [span.start - 2 := |kept| / 0x100][span.start - 1 := |kept| % 0x100]
            == Replaced(msg, span, kept)
  {}

  method StripOptOption(msg: seq<byte>, rdStart: nat, rdEnd: nat) returns (out: seq<byte>, stripped: bool)
    requires 2 <= rdStart <= rdEnd <= |msg| && rdEnd - rdStart < 0x1_0000
    ensures var os := ParseOptions(msg[rdStart..rdEnd]);
            stripped <==> os.Some? && HasEcs(os.value)
    ensures !stripped ==> out == msg
    ensures stripped ==>
              var os := WithoutEcs(ParseOptions(msg[rdStart..rdEnd]).value);
              |Encode(os)| < 0x1_0000 && out == Replaced(msg, Span(rdStart, rdEnd), Encode(os))
  {
    var scan := ScanOptions(msg, rdStart, rdEnd);
    if scan.None? || !scan.value.1 { return msg, false; }
    KeptLength(msg, Span(rdStart, rdEnd));
    var kept := KeptBytes(msg, scan.value.0);
    Patched(msg, Span(rdStart, rdEnd), kept);
    out := msg[..rdStart] + kept + msg[rdEnd..];
    out := out[rdStart - 2 := |kept| / 0x100][rdStart - 1 := |kept| % 0x100];
    stripped := true;
  }

  method KeptBytes(msg: seq<byte>, ranges: seq<Span>) returns (kept: seq<byte>)
    requires InBounds(msg, ranges)
    ensures kept == Concat(msg, ranges)
  {
    kept := [];
    var i := 0;
    while i < |ranges|
      invariant 0 <= i <= |ranges|
      invariant kept == Concat(msg, ranges[..i])
    {
      AddRange(msg, ranges[..i], ranges[i]);
      assert ranges[..i + 1] == ranges[..i] + [ranges[i]];
      kept := kept + msg[ranges[i].start..ranges[i].end];
      i := i + 1;
    }
    assert ranges[..i] == ranges;
  }

  method SkipNameLoop(msg: seq<byte>, start: nat) returns (r: Option<nat>)
    ensures r == SkipName(msg, start)
  {
    var offset := start;
    while true
      invariant SkipName(msg, offset) == SkipName(msg, start)
      decreases |msg| - offset
    {
      if offset >= |msg| { return None; }
      var l := msg[offset];
      if l == 0 { return Some(offset + 1); }
      if l >= 0xC0 {
        if offset + 2 > |msg| { return None; }
        return Some(offset + 2);
      }
      if l >= 0x40 { return None; }
      offset := offset + 1 + l;
    }
  }

  /** The record count actually skipped: the sum of two 16-bit counters, in 16 bits. */
  function SkippedRecords(msg: seq<byte>): nat {
    if |msg| < 12 then 0 else (Count(msg, 6) + Count(msg, 8)) % 0x1_0000
  }

  /** The counters lie before the OPT record and survive, so the code recounts the same. */
  lemma SameCount(msg: seq<byte>)
    ensures SkippedRecords(StripResult(msg, SkippedRecords(msg))) == SkippedRecords(msg)
  {
    var records := SkippedRecords(msg);
    if Strips(msg, records) {
      HeaderKept(msg, records);
      HeaderCounted(msg, StripResult(msg, records));
    }
  }

  lemma HeaderCounted(a: seq<byte>, b: seq<byte>)
    requires 12 <= |a| && 12 <= |b| && a[..12] == b[..12]
    ensures SkippedRecords(a) == SkippedRecords(b)
  {
    U16Prefix(a, b, 12, 6);
    U16Prefix(a, b, 12, 8);
  }

  lemma HeaderKept(msg: seq<byte>, records: nat)
    requires Strips(msg, records)
    ensures 12 <= |msg| && 12 <= |StripResult(msg, records)| && StripResult(msg, records)[..12] == msg[..12]
  {
    var span := LocateOpt(msg, records).value;
    KeptLength(msg, span);
    ReplacedHeader(msg, span, Encode(WithoutEcs(ParseOptions(msg[span.start..span.end]).value)));
  }

  lemma ReplacedHeader(msg: seq<byte>, span: Span, kept: seq<byte>)
    requires 23 <= span.start <= span.end <= |msg| && |kept| < 0x1_0000
    ensures 12 <= |Replaced(msg, span, kept)| && Replaced(msg, span, kept)[..12] == msg[..12]
  {
    ReplacedPieces(msg, span, kept);
    SliceOfSlice(msg, 0, span.start - 2, 0, 12);
    SliceOfSlice(Replaced(msg, span, kept), 0, span.start - 2, 0, 12);
  }

  /** The code run on its own output finds nothing left to strip and returns it unchanged. */
  lemma StripIdempotent(msg: seq<byte>)
    ensures var once := StripResult(msg, SkippedRecords(msg));
            !Strips(once, SkippedRecords(once)) && StripResult(once, SkippedRecords(once)) == once
  {
    SameCount(msg);
    StripAgain(msg, SkippedRecords(msg));
  }

  method StripEcs(msg: seq<byte>) returns (out: seq<byte>, stripped: bool)
    ensures stripped <==> Strips(msg, SkippedRecords(msg))
    ensures out == StripResult(msg, SkippedRecords(msg))
  {
    if |msg| < 12 || Count(msg, 10) == 0 { return msg, false; }
    var questions := SkipQuestionsLoop(msg, Count(msg, 4));
    if questions.None? { return msg, false; }
    var answers := SkipRecordsLoop(msg, questions.value, SkippedRecords(msg));
    if answers.None? { return msg, false; }
    var span := FindOptLoop(msg, answers.value, Count(msg, 10));
    if span.None? { return msg, false; }
    assert LocateOpt(msg, SkippedRecords(msg)) == span;
    out, stripped := StripOptOption(msg, span.value.start, span.value.end);
  }

  method SkipQuestionsLoop(msg: seq<byte>, qdCount: nat) returns (r: Option<nat>)
    requires |msg| >= 12
    ensures r == SkipQuestions(msg, 12, qdCount)
  {
    var offset: nat := 12;
    var i := 0;
    while i < qdCount
      invariant 0 <= i <= qdCount
      invariant SkipQuestions(msg, offset, qdCount - i) == SkipQuestions(msg, 12, qdCount)
    {
      var nameEnd := SkipNameLoop(msg, offset);
      if nameEnd.None? { return None; }
      offset := nameEnd.value + 4;
      if offset > |msg| { return None; }
      i := i + 1;
    }
    return Some(offset);
  }

  method SkipRecordsLoop(msg: seq<byte>, start: nat, records: nat) returns (r: Option<nat>)
    ensures r == SkipRecords(msg, start, records)
  {
    var offset: nat := start;
    var i := 0;
    while i < records
      invariant 0 <= i <= records
      invariant SkipRecords(msg, offset, records - i) == SkipRecords(msg, start, records)
    {
      var nameEnd := SkipNameLoop(msg, offset);
      if nameEnd.None? || nameEnd.value + 10 > |msg| { return None; }
      var next := nameEnd.value + 10 + U16(msg, nameEnd.value + 8);
      if next > |msg| { return None; }
      offset := next;
      i := i + 1;
    }
    return Some(offset);
  }

  method FindOptLoop(msg: seq<byte>, start: nat, arCount: nat) returns (r: Option<Span>)
    ensures r == FindOpt(msg, start, arCount)
  {
    var offset: nat := start;
    var i := 0;
    while i < arCount
      invariant 0 <= i <= arCount
      invariant FindOpt(msg, offset, arCount - i) == FindOpt(msg, start, arCount)
    {
      var nameEnd := SkipNameLoop(msg, offset);
      if nameEnd.None? || nameEnd.value + 10 > |msg| { return None; }
      var rdStart := nameEnd.value + 10;
      var rdEnd := rdStart + U16(msg, nameEnd.value + 8);
      if rdEnd > |msg| { return None; }
      if U16(msg, nameEnd.value) == OPT { return Some(Span(rdStart, rdEnd)); }
      offset := rdEnd;
      i := i + 1;
    }
    return None;
  }

  // ---------------------------------------------------------------- the 16-bit record count

  /** A header announcing `an` answers, `ns` authorities and one additional record. */
  ghost function Header(an: u16, ns: u16): (h: seq<byte>)
    ensures |h| == 12 && Count(h, 4) == 0 && Count(h, 6) == an && Count(h, 8) == ns && Count(h, 10) == 1
  {
    [0, 0, 0, 0, 0, 0] + PutU16(an) + PutU16(ns) + [0, 1]
  }

  /** An OPT record holding one empty client-subnet option. */
  ghost const EcsRecord: seq<byte> := [0, 0, 41, 0, 0, 0, 0, 0, 0, 0, 4, 0, 8, 0, 0]

  ghost function Filler(n: nat): (z: seq<byte>)
    ensures |z| == 11 * n && forall i :: 0 <= i < |z| ==> z[i] == 0
  {
    seq(11 * n, i => 0)
  }

  lemma {:induction false} SkipFiller(msg: seq<byte>, off: nat, n: nat)
    requires off + 11 * n <= |msg| && forall i :: off <= i < off + 11 * n ==> msg[i] == 0
    ensures SkipRecords(msg, off, n) == Some(off + 11 * n)
    decreases n
  {
    if n > 0 {
      assert SkipName(msg, off) == Some(off + 1);
      assert U16(msg, off + 9) == 0;
      SkipFiller(msg, off + 11, n - 1);
    }
  }

  lemma EcsRecordParses(msg: seq<byte>, at: nat)
    requires at + 15 == |msg| && msg[at..] == EcsRecord
    ensures FindOpt(msg, at, 1) == Some(Span(at + 11, at + 15))
    ensures ParseOptions(msg[at + 11..at + 15]) == Some([EdnsOption(ECS, [])])
  {
    RecordBytes(msg, at);
    assert SkipName(msg, at) == Some(at + 1);
    assert U16(msg, at + 1) == OPT && U16(msg, at + 9) == 4;
    EmptyEcsParses(msg[at + 11..at + 15]);
  }

  lemma RecordBytes(msg: seq<byte>, at: nat)
    requires at + 15 == |msg| && msg[at..] == EcsRecord
    ensures msg[at] == 0 && msg[at + 1] == 0 && msg[at + 2] == 41 && msg[at + 9] == 0 && msg[at + 10] == 4
    ensures msg[at + 11..at + 15] == [0, 8, 0, 0]
  {
    var r := msg[at..];
    assert |r| == 15 && r[0] == 0 && r[1] == 0 && r[2] == 41 && r[9] == 0 && r[10] == 4;
    assert r[11] == 0 && r[12] == 8 && r[13] == 0 && r[14] == 0;
    forall i | 0 <= i < 15 ensures msg[at + i] == r[i] {}
    assert msg[at + 11] == 0 && msg[at + 12] == 8 && msg[at + 13] == 0 && msg[at + 14] == 0;
  }

  lemma EmptyEcsParses(rd: seq<byte>)
    requires rd == [0, 8, 0, 0]
    ensures ParseOptions(rd) == Some([EdnsOption(ECS, [])])
  {
    assert U16(rd, 0) == 8 && U16(rd, 2) == 0;
    assert rd[4..] == [] && rd[4..4] == [];
    assert ParseOptions(rd[4..]) == Some([]);
    var one := [EdnsOption(U16(rd, 0), rd[4..4])];
    assert one + [] == one;
  }

  lemma OneOptStrips(msg: seq<byte>, n: nat, at: nat)
    requires |msg| == at + 15 && 12 <= at && Count(msg, 4) == 0 && Count(msg, 10) == 1
    requires SkipRecords(msg, 12, n) == Some(at)
    requires FindOpt(msg, at, 1) == Some(Span(at + 11, at + 15))
    requires ParseOptions(msg[at + 11..at + 15]) == Some([EdnsOption(ECS, [])])
    ensures Strips(msg, n)
  {
    assert SkipQuestions(msg, 12, 0) == Some(12);
  }

  /** The announced header, as many empty records as the wrapped count skips, and the OPT record. */
  ghost function PaddedMessage(header: seq<byte>, n: nat): (msg: seq<byte>)
    requires |header| == 12
    ensures |msg| == 12 + 11 * n + 15 && msg[..12] == header && msg[12 + 11 * n..] == EcsRecord
    ensures forall i :: 12 <= i < 12 + 11 * n ==> msg[i] == 0
  {
    Joined(header, Filler(n), EcsRecord)
  }

  /** When the count wraps, a message that ends early is stripped although it has no OPT record. */
  lemma WrappedCountStrips(an: u16, ns: u16) returns (msg: seq<byte>)
    requires an + ns >= 0x1_0000
    ensures |msg| >= 12 && Count(msg, 6) == an && Count(msg, 8) == ns
    ensures Strips(msg, SkippedRecords(msg)) && !Strips(msg, an + ns)
  {
    var n := an + ns - 0x1_0000;
    msg := PaddedMessage(Header(an, ns), n);
    HeaderCounts(msg, an, ns);
    assert SkippedRecords(msg) == n;
    PaddedOptStrips(msg, n, 12 + 11 * n);
    TooManyRecords(msg, an + ns);
  }

  lemma PaddedOptStrips(msg: seq<byte>, n: nat, at: nat)
    requires at == 12 + 11 * n && |msg| == at + 15 && Count(msg, 4) == 0 && Count(msg, 10) == 1
    requires msg[at..] == EcsRecord && forall i :: 12 <= i < at ==> msg[i] == 0
    ensures Strips(msg, n)
  {
    SkipFiller(msg, 12, n);
    EcsRecordParses(msg, at);
    OneOptStrips(msg, n, at);
  }

  lemma TooManyRecords(msg: seq<byte>, n: nat)
    requires |msg| < 12 + 11 * n
    ensures !Strips(msg, n)
  {}

  ghost function Joined(a: seq<byte>, b: seq<byte>, c: seq<byte>): (r: seq<byte>)
    ensures |r| == |a| + |b| + |c| && r[..|a|] == a && r[|a| + |b|..] == c
    ensures forall i :: 0 <= i < |b| ==> r[|a| + i] == b[i]
    ensures forall i :: |a| <= i < |a| + |b| ==> r[i] == b[i - |a|]
  {
    a + b + c
  }

  lemma HeaderCounts(msg: seq<byte>, an: u16, ns: u16)
    requires |msg| >= 12 && msg[..12] == Header(an, ns)
    ensures Count(msg, 4) == 0 && Count(msg, 6) == an && Count(msg, 8) == ns && Count(msg, 10) == 1
  {
    var h := Header(an, ns);
    assert forall i :: 0 <= i < 12 ==> msg[i] == h[i];
    assert Count(h, 4) == Count(msg, 4) && Count(h, 6) == Count(msg, 6);
    assert Count(h, 8) == Count(msg, 8) && Count(h, 10) == Count(msg, 10);
  }

  ghost predicate CountedAlike(an: u16, ns: u16, msg: seq<byte>) {
    |msg| >= 12 && Count(msg, 6) == an && Count(msg, 8) == ns ==>
      (Strips(msg, SkippedRecords(msg)) <==> Strips(msg, an + ns))
  }

  lemma SmallCounts(an: u16, ns: u16, msg: seq<byte>)
    requires an + ns < 0x1_0000
    ensures CountedAlike(an, ns, msg)
  {
    if |msg| >= 12 && Count(msg, 6) == an && Count(msg, 8) == ns { assert SkippedRecords(msg) == an + ns; }
  }

  /**
   * The code agrees with the parser that counts records without wrapping, on all messages with the
   * given header counters, exactly when the counters add up to less than 65536.
   */
  lemma CountsExact(an: u16, ns: u16)
    ensures (forall msg :: CountedAlike(an, ns, msg)) <==> an + ns < 0x1_0000
  {
    if an + ns >= 0x1_0000 {
      var msg := WrappedCountStrips(an, ns);
      assert !CountedAlike(an, ns, msg);
    } else {
      forall msg ensures CountedAlike(an, ns, msg) { SmallCounts(an, ns, msg); }
    }
  }
}

/** The two walks over a name in the source. */
module NameEnds {
  import opened Bytes
  import opened DnsNames
  import opened EcsStrip

  /**
   * The name parser of the resolver and the skipper here agree on where a name ends: the skipper accepts
   * a name that can be read exactly when its uncompressed part has no length byte from 0x40 to 0xBF.
   */
  lemma {:induction false} SkipNameAgrees(msg: seq<byte>, off: nat, fuel: nat)
    requires Walk(msg, off, fuel).Done?
    ensures SkipName(msg, off).Some? <==> !ReservedLength(msg, off)
    ensures SkipName(msg, off).Some? ==> SkipName(msg, off).value == RunEnd(msg, off)
    decreases fuel
  {
    if 0 < msg[off] < 0x40 { SkipNameAgrees(msg, off + 1 + msg[off], fuel - 1); }
  }

  /** Some label before the zero byte or first pointer has one of the two reserved high bits alone. */
  predicate ReservedLength(msg: seq<byte>, off: nat)
    decreases |msg| - off
  {
    off < |msg| && 0 < msg[off] < 0xC0 && (msg[off] >= 0x40 || ReservedLength(msg, off + 1 + msg[off]))
  }
}
