/**
 * The filter in front of the blocklist (internal/dns/blocklist.go): double hashing over a packed
 * bit array.
 */
module Bloom {
  const TWO64: nat := 0x1_0000_0000_0000_0000
  type u64 = x: int | 0 <= x < TWO64

  /** The pair of hashes of a string. The model holds for every such function. */
  type Hashes = string -> (u64, u64)

  /** The i-th probe, in wrapping 64-bit arithmetic. */
  function Probe(h: (u64, u64), i: nat, m: nat): (idx: nat)
    requires m > 0
    ensures idx < m
  {
    (h.0 + i * h.1) % TWO64 % m
  }

  /** Double hashing: starting from the first hash, the second is added again and again, modulo 2^64. */
  function Advanced(h: (u64, u64), i: nat): u64 {
    if i == 0 then h.0 else (Advanced(h, i - 1) + h.1) % 0x1_0000_0000_0000_0000
  }

  lemma {:induction false} ProbeAdvances(h: (u64, u64), i: nat, m: nat)
    requires m > 0
    ensures Advanced(h, i) == (h.0 + i * h.1) % TWO64
    ensures Probe(h, i, m) == Advanced(h, i) % m
  {
    if i > 0 {
      ProbeAdvances(h, i - 1, m);
      var before := h.0 + (i - 1) * h.1;
      assert h.0 + i * h.1 == before + h.1;
      AddWraps(before, h.1);
    }
  }

  lemma AddWraps(x: nat, y: nat)
    ensures (x % TWO64 + y) % TWO64 == (x + y) % TWO64
  {
    var q := x / TWO64;
    assert x == q * TWO64 + x % TWO64;
    WrapsOff(x % TWO64 + y, q);
  }

  lemma {:induction false} WrapsOff(z: nat, q: nat)
    ensures (z + q * TWO64) % TWO64 == z % TWO64
    decreases q
  {
    if q > 0 {
      WrapsOff(z, q - 1);
      WrapsOnce(z + (q - 1) * TWO64);
    }
  }

  lemma WrapsOnce(z: nat)
    ensures (z + TWO64) % TWO64 == z % TWO64
  {}

  function Mask(idx: nat): bv64 { 1 << (idx % 64) }

  predicate HasBit(w: bv64, idx: nat) { w & Mask(idx) != 0 }

  function WithBit(w: bv64, idx: nat): bv64 { w | Mask(idx) }

  lemma BitsKept(w: bv64, idx: nat)
    ensures HasBit(WithBit(w, idx), idx)
    ensures forall j: nat :: HasBit(w, j) ==> HasBit(WithBit(w, idx), j)
  {
    MaskNonZero(idx);
    OrKeepsBits(w, Mask(idx), Mask(idx));
    forall j: nat | HasBit(w, j) ensures HasBit(WithBit(w, idx), j) { OrKeepsBits(w, Mask(idx), Mask(j)); }
  }

  lemma MaskNonZero(idx: nat)
    ensures Mask(idx) != 0
  {}

  lemma OrKeepsBits(w: bv64, a: bv64, b: bv64)
    ensures w & b != 0 ==> (w | a) & b != 0
    ensures a != 0 ==> (w | a) & a != 0
  {}

  class BloomFilter {
    const bits: array<bv64>
    const m: nat
    const k: nat
    const hash: Hashes

    predicate Valid() {
      m > 0 && bits.Length == (m + 63) / 64
    }

    predicate IsSet(idx: nat)
      requires Valid() && idx < m
      reads bits
    {
      HasBit(bits[idx / 64], idx)
    }

    /** Every probe of `s` hits a set bit. */
    ghost predicate Has(s: string)
      requires Valid()
      reads bits
    {
      forall i {:trigger Probe(hash(s), i, m)} :: 0 <= i < k ==> IsSet(Probe(hash(s), i, m))
    }

    constructor (bitCount: nat, k: nat, hash: Hashes)
      requires bitCount > 0
      ensures Valid() && fresh(bits)
    {
      this.m, this.k, this.hash := bitCount, k, hash;
      bits := new bv64[(bitCount + 63) / 64](i => 0);
    }

    /** Nothing already present is ever lost, so a negative answer is always right. */
    method Add(s: string)
      requires Valid()
      modifies bits
      ensures Has(s)
      ensures forall t :: old(Has(t)) ==> Has(t)
    {
      var h := hash(s);
      var i := 0;
      while i < k
        invariant 0 <= i <= k
        invariant forall j {:trigger Probe(h, j, m)} :: 0 <= j < i ==> IsSet(Probe(h, j, m))
        invariant forall idx :: 0 <= idx < m && old(IsSet(idx)) ==> IsSet(idx)
      {
        SetBit(Probe(h, i, m));
        i := i + 1;
      }
    }

    method SetBit(idx: nat)
      requires Valid() && idx < m
      modifies bits
      ensures IsSet(idx)
      ensures forall j :: 0 <= j < m && old(IsSet(j)) ==> IsSet(j)
    {
      var w := bits[idx / 64];
      BitsKept(w, idx);
      bits[idx / 64] := WithBit(w, idx);
    }

    method MaybeContains(s: string) returns (r: bool)
      requires Valid()
      ensures r <==> Has(s)
    {
      var h := hash(s);
      var i := 0;
      while i < k
        invariant 0 <= i <= k
        invariant forall j {:trigger Probe(h, j, m)} :: 0 <= j < i ==> IsSet(Probe(h, j, m))
      {
        if !IsSet(Probe(h, i, m)) { return false; }
        i := i + 1;
      }
      return true;
    }
  }
}

/** Names, suffixes and category priorities. */
module DomainNames {
  import opened Common

  function LowerChar(c: char): char {
    if 'A' <= c <= 'Z' then c - 'A' + 'a' else c
  }

  function Lower(s: string): (r: string)
    ensures |r| == |s| && forall i :: 0 <= i < |s| ==> r[i] == LowerChar(s[i])
  {
    seq(|s|, i requires 0 <= i < |s| => LowerChar(s[i]))
  }

  function TrimDot(s: string): string {
    if s != "" && s[|s| - 1] == '.' then s[..|s| - 1] else s
  }

  /** The form in which names are stored and looked up. */
  function Norm(s: string): string { Lower(TrimDot(s)) }

  lemma NormLower(s: string)
    ensures Norm(Lower(s)) == Norm(s) && Lower(Lower(s)) == Lower(s)
  {
    assert Lower(Lower(s)) == Lower(s);
    assert TrimDot(Lower(s)) == Lower(TrimDot(s));
    assert Lower(Lower(TrimDot(s))) == Lower(TrimDot(s));
  }

  /** The same character, or the same letter in the other case. */
  predicate SameUpToCase(a: char, b: char) {
    || a == b
    || (65 <= a as int <= 90 && b as int == a as int + 32)
    || (65 <= b as int <= 90 && a as int == b as int + 32)
  }

  predicate SameName(u: string, v: string) {
    |u| == |v| && forall i :: 0 <= i < |u| ==> SameUpToCase(u[i], v[i])
  }

  /**
   * Names are stored and looked up without their case and without one closing dot: two names come to the
   * same exactly when they spell the same letters, and what is stored holds no capital.
   */
  lemma NormIff(u: string, v: string)
    requires u == "" || u[|u| - 1] != '.'
    requires v == "" || v[|v| - 1] != '.'
    ensures Norm(u + ".") == Norm(u) && (Norm(u) == "" <==> u == "")
    ensures Norm(u) == Norm(v) <==> SameName(u, v)
    ensures SameName(u, Norm(u)) && forall c :: c in Norm(u) ==> !('A' <= c <= 'Z')
  {
    assert TrimDot(u + ".") == u;
    forall i | 0 <= i < |u| && i < |v| ensures Norm(u)[i] == Norm(v)[i] <==> SameUpToCase(u[i], v[i]) {
      LowerCharIff(u[i], v[i]);
    }
    forall i | 0 <= i < |u| ensures SameUpToCase(u[i], Norm(u)[i]) { LowerCharIff(u[i], Norm(u)[i]); }
    if SameName(u, v) { assert Norm(u) == Norm(v); }
  }

  /** Lower case is the one spelling without capitals. */
  lemma LowerIs(u: string, l: string)
    ensures Lower(u) == l <==> SameName(u, l) && forall c :: c in l ==> !('A' <= c <= 'Z')
  {
    forall i | 0 <= i < |u| && i < |l|
      ensures Lower(u)[i] == l[i] <==> SameUpToCase(u[i], l[i]) && !('A' <= l[i] <= 'Z')
    {
      LowerCharIff(u[i], l[i]);
    }
    if Lower(u) == l { forall c | c in l ensures !('A' <= c <= 'Z') { var i :| 0 <= i < |l| && l[i] == c; } }
    if SameName(u, l) && forall c :: c in l ==> !('A' <= c <= 'Z') {
      forall i | 0 <= i < |u| ensures Lower(u)[i] == l[i] { assert l[i] in l; }
    }
  }

  lemma LowerCharIff(a: char, b: char)
    ensures LowerChar(a) == LowerChar(b) <==> SameUpToCase(a, b)
    ensures SameUpToCase(a, LowerChar(a)) && !('A' <= LowerChar(a) <= 'Z')
  {}

  /** The position of the first dot, or -1. */
  function IndexDot(d: string): (i: int)
    ensures -1 <= i < |d|
    ensures i >= 0 ==> d[i] == '.' && '.' !in d[..i]
    ensures i < 0 ==> '.' !in d
  {
    if d == "" then -1
    else if d[0] == '.' then 0
    else
      var j := IndexDot(d[1..]);
      assert d == [d[0]] + d[1..];
      if j < 0 then -1
      else
        assert d[..j + 1] == [d[0]] + d[1..][..j];
        j + 1
  }

  /** The next name up: what follows the first dot. */
  function Up(d: string): (p: Option<string>)
    ensures p.Some? ==> |p.value| < |d|
  {
    var dot := IndexDot(d);
    if dot < 0 then None else Some(d[dot + 1..])
  }

  /** `s` is the domain `d` or one of its parents: what is left of `d` from a label boundary on. */
  predicate IsSuffix(s: string, d: string) {
    && |s| <= |d| && s == d[|d| - |s|..]
    && (|s| == |d| || d[|d| - |s| - 1] == '.')
  }

  /** Parents are what follows a dot. */
  lemma SuffixIff(s: string, d: string)
    ensures IsSuffix(s, d) <==> s == d || exists p :: d == p + "." + s
  {
    if IsSuffix(s, d) && s != d {
      var p := d[..|d| - |s| - 1];
      assert d == p + "." + s;
    }
    if p :| d == p + "." + s {
      assert d[|d| - |s|..] == s && d[|p|] == '.';
    }
  }

  lemma SuffixBelowDot(s: string, d: string, dot: nat)
    requires dot < |d| && d[dot] == '.' && '.' !in d[..dot]
    ensures IsSuffix(s, d) <==> s == d || IsSuffix(s, d[dot + 1..])
  {
    var p := d[dot + 1..];
    if |s| <= |p| {
      DropDrop(d, dot + 1, |p| - |s|);
    } else if |s| < |d| {
      assert d[|d| - |s| - 1] == d[..dot][|d| - |s| - 1];
    }
  }

  lemma DropDrop(d: string, i: nat, j: nat)
    requires i + j <= |d|
    ensures d[i..][j..] == d[i + j..]
  {}

  /** Walking up: the suffixes of a name are the name and the suffixes of its parent. */
  lemma SuffixStep(s: string, d: string)
    ensures IsSuffix(s, d) <==> s == d || (Up(d).Some? && IsSuffix(s, Up(d).value))
  {
    var dot := IndexDot(d);
    if dot >= 0 { SuffixBelowDot(s, d, dot); } else { SuffixWithoutDot(s, d); }
  }

  lemma SuffixWithoutDot(s: string, d: string)
    requires '.' !in d
    ensures IsSuffix(s, d) <==> s == d
  {
    if |s| < |d| { assert d[|d| - |s| - 1] in d; }
  }

  /** Some listed domain is `d` or a parent of it. */
  ghost predicate Listed(domains: set<string>, d: string) {
    exists s :: s in domains && IsSuffix(s, d)
  }

  lemma ListedStep(domains: set<string>, d: string)
    ensures Listed(domains, d) <==> d in domains || (Up(d).Some? && Listed(domains, Up(d).value))
  {
    var dot := IndexDot(d);
    if dot >= 0 { ListedBelowDot(domains, d, dot); } else { ListedWithoutDot(domains, d); }
  }

  lemma ListedBelowDot(domains: set<string>, d: string, dot: nat)
    requires dot < |d| && d[dot] == '.' && '.' !in d[..dot]
    ensures Listed(domains, d) <==> d in domains || Listed(domains, d[dot + 1..])
  {
    assert IsSuffix(d, d);
    if s :| s in domains && IsSuffix(s, d) { SuffixBelowDot(s, d, dot); }
    if s :| s in domains && IsSuffix(s, d[dot + 1..]) { SuffixBelowDot(s, d, dot); }
  }

  lemma ListedWithoutDot(domains: set<string>, d: string)
    requires '.' !in d
    ensures Listed(domains, d) <==> d in domains
  {
    assert IsSuffix(d, d);
    if s :| s in domains && IsSuffix(s, d) { SuffixWithoutDot(s, d); }
  }

  // ---------------------------------------------------------------- category priorities

  const UNKNOWN: nat := 0x4000_0000

  /** Lower is more protective; a category outside the table sorts last. */
  function PriorityOf(cat: string): nat {
    if cat == "malware" then 1 else if cat == "phishing" then 2 else if cat == "scam" then 3
    else if cat == "ransomware" then 4 else if cat == "cryptojacking" then 5
    else if cat == "fake_banking" then 6 else if cat == "newly_registered" then 7
    else if cat == "gambling" then 20 else if cat == "adult" then 21
    else if cat == "social_media" then 22 else if cat == "games" then 23
    else if cat == "entertainment" then 24 else if cat == "browsing" then 25
    else if cat == "ads" then 50 else if cat == "tracking" then 51
    else if cat == "telemetry" then 52 else if cat == "doh_bypass" then 53
    else UNKNOWN
  }

  /** The table read backwards. */
  function CategoryAt(priority: nat): string {
    match priority
    case 1 => "malware" case 2 => "phishing" case 3 => "scam" case 4 => "ransomware" case 5 => "cryptojacking"
    case 6 => "fake_banking" case 7 => "newly_registered"
    case 20 => "gambling" case 21 => "adult" case 22 => "social_media" case 23 => "games"
    case 24 => "entertainment" case 25 => "browsing"
    case 50 => "ads" case 51 => "tracking" case 52 => "telemetry" case 53 => "doh_bypass"
    case _ => ""
  }

  lemma CategoryAtPriority(cat: string)
    requires PriorityOf(cat) != UNKNOWN
    ensures CategoryAt(PriorityOf(cat)) == cat
  {}

  /** The two tables are inverse to each other: no category is ranked that is not listed. */
  lemma PriorityIff(cat: string, priority: nat)
    requires 1 <= priority <= 7 || 20 <= priority <= 25 || 50 <= priority <= 53
    ensures PriorityOf(cat) == priority <==> cat == CategoryAt(priority)
  {
    if PriorityOf(cat) == priority {
      CategoryAtPriority(cat);
    } else if cat == CategoryAt(priority) {
      Ranked(priority);
    }
  }

  lemma Ranked(priority: nat)
    requires 1 <= priority <= 7 || 20 <= priority <= 25 || 50 <= priority <= 53
    ensures PriorityOf(CategoryAt(priority)) == priority
  {}

  /** Categories in the table never tie. */
  lemma PriorityInjective(a: string, b: string)
    requires PriorityOf(a) == PriorityOf(b) != UNKNOWN
    ensures a == b
  {
    CategoryAtPriority(a);
    CategoryAtPriority(b);
  }
}

/** The blocklist proper. */
module Blocklist {
  import opened Common
  import opened Bloom
  import opened DomainNames

  datatype Row = Row(domain: string, category: string)

  const BLOOM_BITS: nat := 28_755_176
  const BLOOM_HASHES: nat := 10

  /** Rows that failed to scan or have no domain are skipped; the rest are normalised. */
  ghost function Usable(scans: seq<Option<Row>>): seq<Row> {
    if scans == [] then []
    else Usable(scans[..|scans| - 1]) + Kept(scans[|scans| - 1])
  }

  ghost function Kept(scan: Option<Row>): seq<Row> {
    if scan.None? || Norm(scan.value.domain) == "" then []
    else [Row(Norm(scan.value.domain), Lower(scan.value.category))]
  }

  /** A readable row with a name, normalised. */
  ghost predicate Stores(scan: Option<Row>, r: Row) {
    && scan.Some? && Norm(scan.value.domain) != ""
    && r.domain == Norm(scan.value.domain) && r.category == Lower(scan.value.category)
  }

  lemma KeptIff(scan: Option<Row>, r: Row)
    ensures r in Kept(scan) <==> Stores(scan, r)
  {}

  /** The rows that count. */
  lemma {:induction false} UsableIff(scans: seq<Option<Row>>, r: Row)
    ensures r in Usable(scans) <==> exists i :: 0 <= i < |scans| && Stores(scans[i], r)
  {
    if scans != [] {
      var front := scans[..|scans| - 1];
      UsableIff(front, r);
      KeptIff(scans[|scans| - 1], r);
      assert r in Usable(scans) <==> r in Usable(front) || r in Kept(scans[|scans| - 1]);
      StoredLast(scans, front, r);
    }
  }

  lemma StoredLast(scans: seq<Option<Row>>, front: seq<Option<Row>>, r: Row)
    requires scans != [] && front == scans[..|scans| - 1]
    ensures (exists i :: 0 <= i < |scans| && Stores(scans[i], r)) <==>
              (exists i :: 0 <= i < |front| && Stores(front[i], r)) || Stores(scans[|scans| - 1], r)
  {
    forall i | 0 <= i < |front| ensures front[i] == scans[i] {}
  }

  /** Names that spell the same letters get the same answers, with or without a closing dot. */
  lemma SpellingIgnored(rows: seq<Row>, cats: set<string>, u: string, v: string)
    requires SameName(u, v) && (u == "" || u[|u| - 1] != '.')
    ensures Norm(u) == Norm(v) == Norm(u + ".") == Norm(v + ".")
    ensures BlockedBy(rows, Norm(u)) <==> BlockedBy(rows, Norm(v + "."))
    ensures BlockedByCategories(rows, cats, Norm(u)) <==> BlockedByCategories(rows, cats, Norm(v + "."))
  {
    assert v != "" ==> SameUpToCase(u[|u| - 1], v[|u| - 1]);
    NormIff(u, v);
    NormIff(v, u);
  }

  ghost function DomainsOf(rows: seq<Row>): set<string> { set r | r in rows :: r.domain }

  /** Row `i` is the first row of the domain with a category that no other row of it beats. */
  ghost predicate FirstBest(rows: seq<Row>, d: string, cat: string, i: nat) {
    && i < |rows| && rows[i] == Row(d, cat)
    && (forall j :: 0 <= j < i && rows[j].domain == d ==> PriorityOf(cat) < PriorityOf(rows[j].category))
    && (forall j :: i < j < |rows| && rows[j].domain == d ==> PriorityOf(cat) <= PriorityOf(rows[j].category))
  }

  /** The category of the domain that no other row of it beats, the earliest of several. */
  ghost predicate BestCategory(rows: seq<Row>, d: string, cat: string) {
    exists i: nat :: FirstBest(rows, d, cat, i)
  }

  lemma BestIs(rows: seq<Row>, d: string, cat: string)
    requires BestCategory(rows, d, cat)
    ensures Row(d, cat) in rows
    ensures forall r :: r in rows && r.domain == d ==> PriorityOf(cat) <= PriorityOf(r.category)
  {
    var i: nat :| FirstBest(rows, d, cat, i);
    forall r | r in rows && r.domain == d ensures PriorityOf(cat) <= PriorityOf(r.category) {
      var j :| 0 <= j < |rows| && rows[j] == r;
      assert j < i || j == i || j > i;
    }
  }

  /** One listing of the rows determines the category. */
  lemma BestUnique(rows: seq<Row>, d: string, cat: string, cat': string)
    requires BestCategory(rows, d, cat) && BestCategory(rows, d, cat')
    ensures cat == cat'
  {
    var i: nat :| FirstBest(rows, d, cat, i);
    var j: nat :| FirstBest(rows, d, cat', j);
    assert i == j by {
      assert rows[i].domain == d && rows[j].domain == d;
    }
  }

  /** Whatever the order of the rows, a category of the table is determined by their set. */
  lemma BestCategoryOrderFree(rows: seq<Row>, rows': seq<Row>, d: string, cat: string, cat': string)
    requires forall r :: r in rows <==> r in rows'
    requires BestCategory(rows, d, cat) && BestCategory(rows', d, cat')
    ensures PriorityOf(cat) == PriorityOf(cat')
    ensures PriorityOf(cat) != UNKNOWN ==> cat == cat'
  {
    BestIs(rows, d, cat);
    BestIs(rows', d, cat');
    assert Row(d, cat) in rows' && Row(d, cat') in rows;
    if PriorityOf(cat) != UNKNOWN { PriorityInjective(cat, cat'); }
  }

  ghost predicate BlockedBy(rows: seq<Row>, d: string) {
    exists r :: r in rows && IsSuffix(r.domain, d)
  }

  /** Some row of one of the categories lists the domain or a parent. */
  ghost predicate BlockedByCategories(rows: seq<Row>, cats: set<string>, d: string) {
    exists r :: r in rows && r.category in cats && IsSuffix(r.domain, d)
  }

  /** No row lists a suffix of `top` longer than `d`. */
  ghost predicate Outranks(rows: seq<Row>, d: string, top: string) {
    forall r :: r in rows && IsSuffix(r.domain, top) ==> IsSuffix(r.domain, d)
  }

  ghost predicate ReportedBy(rows: seq<Row>, d: string, s: string, cat: string) {
    IsSuffix(s, d) && BestCategory(rows, s, cat) && Outranks(rows, s, d)
  }

  /** The longest listed suffix of the name decides the reported category. */
  ghost predicate ReportedCategory(rows: seq<Row>, d: string, cat: string) {
    exists s :: ReportedBy(rows, d, s, cat)
  }

  /** So there is one category a name can be reported under. */
  lemma ReportedUnique(rows: seq<Row>, d: string, cat: string, cat': string)
    requires ReportedCategory(rows, d, cat) && ReportedCategory(rows, d, cat')
    ensures cat == cat'
  {
    var s :| ReportedBy(rows, d, s, cat);
    var s' :| ReportedBy(rows, d, s', cat');
    BestIs(rows, s, cat);
    BestIs(rows, s', cat');
    assert IsSuffix(Row(s, cat).domain, s') && IsSuffix(Row(s', cat').domain, s);
    assert s == s';
    BestUnique(rows, s, cat, cat');
  }

  lemma UnlistedStep(rows: seq<Row>, d: string, top: string)
    requires d !in DomainsOf(rows) && Outranks(rows, d, top)
    ensures if Up(d).None? then !BlockedBy(rows, top) else Outranks(rows, Up(d).value, top)
  {
    forall r | r in rows && IsSuffix(r.domain, top)
      ensures Up(d).Some? && IsSuffix(r.domain, Up(d).value)
    {
      assert r.domain in DomainsOf(rows);
      SuffixStep(r.domain, d);
    }
  }

  ghost function LowerSet(cats: seq<string>): set<string> { set c | c in cats :: Lower(c) }

  /** The wanted categories are the given ones without capitals. */
  lemma LowerSetIff(cats: seq<string>, l: string)
    ensures l in LowerSet(cats) <==>
              (exists i :: 0 <= i < |cats| && SameName(cats[i], l)) && forall c :: c in l ==> !('A' <= c <= 'Z')
  {
    if i :| 0 <= i < |cats| && SameName(cats[i], l) && forall c :: c in l ==> !('A' <= c <= 'Z') {
      LowerIs(cats[i], l);
      assert cats[i] in cats;
    }
    if l in LowerSet(cats) {
      var c :| c in cats && Lower(c) == l;
      var i :| 0 <= i < |cats| && cats[i] == c;
      LowerIs(c, l);
      assert SameName(cats[i], l);
    }
  }

  datatype Index = Index(domains: set<string>, catDomains: map<string, set<string>>,
                         domainCategory: map<string, string>)

  const EMPTY: Index := Index({}, map[], map[])

  /** Recording one row; a later row only wins the reverse index with a strictly better category. */
  function Insert(ix: Index, d: string, cat: string): Index {
    Index(ix.domains + {d},
          ix.catDomains[cat := (if cat in ix.catDomains then ix.catDomains[cat] else {}) + {d}],
          if d !in ix.domainCategory || PriorityOf(cat) < PriorityOf(ix.domainCategory[d])
          then ix.domainCategory[d := cat] else ix.domainCategory)
  }

  ghost predicate CategoryMaps(rows: seq<Row>, catDomains: map<string, set<string>>) {
    && (forall c :: c in catDomains ==> exists r :: r in rows && r.category == c)
    && (forall r :: r in rows ==> r.category in catDomains)
    && (forall c, d :: c in catDomains ==> (d in catDomains[c] <==> Row(d, c) in rows))
  }

  ghost predicate ReverseMap(rows: seq<Row>, domainCategory: map<string, string>) {
    && domainCategory.Keys == DomainsOf(rows)
    && (forall d :: d in domainCategory ==> BestCategory(rows, d, domainCategory[d]))
  }

  /** The three indexes describe the rows. */
  ghost predicate Describes(ix: Index, rows: seq<Row>) {
    && ix.domains == DomainsOf(rows)
    && CategoryMaps(rows, ix.catDomains)
    && ReverseMap(rows, ix.domainCategory)
  }

  lemma InsertCategory(ix: Index, rows: seq<Row>, r: Row)
    requires CategoryMaps(rows, ix.catDomains)
    ensures CategoryMaps(rows + [r], Insert(ix, r.domain, r.category).catDomains)
  {
    assert forall q :: q in rows + [r] <==> q in rows || q == r;
  }

  lemma InsertReverse(ix: Index, rows: seq<Row>, r: Row)
    requires ReverseMap(rows, ix.domainCategory)
    ensures ReverseMap(rows + [r], Insert(ix, r.domain, r.category).domainCategory)
  {
    var rows' := rows + [r];
    var before, after := ix.domainCategory, Insert(ix, r.domain, r.category).domainCategory;
    assert forall q :: q in rows' <==> q in rows || q == r;
    forall d | d in after ensures BestCategory(rows', d, after[d]) {
      if d in before { assert BestCategory(rows, d, before[d]); }
      if d != r.domain || (d in before && PriorityOf(r.category) >= PriorityOf(before[d])) {
        StillBest(rows, r, d, before[d]);
      } else {
        NowBest(rows, r, if d in before then Some(before[d]) else None);
      }
    }
  }

  lemma StillBest(rows: seq<Row>, r: Row, d: string, cat: string)
    requires BestCategory(rows, d, cat) && (r.domain == d ==> PriorityOf(cat) <= PriorityOf(r.category))
    ensures BestCategory(rows + [r], d, cat)
  {
    var i: nat :| FirstBest(rows, d, cat, i);
    assert FirstBest(rows + [r], d, cat, i);
  }

  lemma NowBest(rows: seq<Row>, r: Row, was: Option<string>)
    requires if was.None? then forall q :: q in rows ==> q.domain != r.domain
             else BestCategory(rows, r.domain, was.value) && PriorityOf(r.category) < PriorityOf(was.value)
    ensures BestCategory(rows + [r], r.domain, r.category)
  {
    if was.Some? { BestIs(rows, r.domain, was.value); }
    forall j | 0 <= j < |rows| && rows[j].domain == r.domain
      ensures PriorityOf(r.category) < PriorityOf(rows[j].category)
    {
      assert rows[j] in rows;
    }
    assert FirstBest(rows + [r], r.domain, r.category, |rows|);
  }

  lemma EmptyDescribes()
    ensures Describes(EMPTY, [])
  {}

  lemma InsertDescribes(ix: Index, rows: seq<Row>, r: Row)
    requires Describes(ix, rows)
    ensures Describes(Insert(ix, r.domain, r.category), rows + [r])
  {
    InsertCategory(ix, rows, r);
    InsertReverse(ix, rows, r);
  }

  class Blocklist {
    const hash: Hashes
    var index: Index
    var bloom: BloomFilter
    ghost var rows: seq<Row>

    ghost predicate Valid()
      reads this, bloom, bloom.bits
    {
      && Describes(index, rows)
      && bloom.Valid()
      && forall d :: d in index.domains ==> bloom.Has(d)
    }

    constructor (hash: Hashes)
      ensures Valid() && rows == [] && this.hash == hash
    {
      this.hash := hash;
      index, rows := EMPTY, [];
      bloom := new BloomFilter(BLOOM_BITS, BLOOM_HASHES, hash);
    }

    /** A failed load, whether at the query or after the last row, changes nothing. */
    method Load(scans: seq<Option<Row>>, queryOk: bool, rowsOk: bool) returns (ok: bool)
      requires Valid()
      modifies this
      ensures Valid()
      ensures ok <==> queryOk && rowsOk
      ensures rows == if ok then Usable(scans) else old(rows)
    {
      if !queryOk { return false; }
      var pending, freshBloom := Scan(scans);
      if !rowsOk { return false; }
      index, bloom, rows := pending, freshBloom, Usable(scans);
      return true;
    }

    /** Builds fresh indexes and a fresh filter; the published ones stay untouched meanwhile. */
    method Scan(scans: seq<Option<Row>>) returns (pending: Index, freshBloom: BloomFilter)
      ensures fresh(freshBloom) && fresh(freshBloom.bits) && freshBloom.Valid()
      ensures Describes(pending, Usable(scans))
      ensures forall d :: d in pending.domains ==> freshBloom.Has(d)
    {
      pending := EMPTY;
      freshBloom := new BloomFilter(BLOOM_BITS, BLOOM_HASHES, hash);
      var i := 0;
      EmptyDescribes();
      while i < |scans|
        invariant 0 <= i <= |scans|
        invariant freshBloom.Valid() && fresh(freshBloom.bits)
        invariant Describes(pending, Usable(scans[..i]))
        invariant forall d :: d in pending.domains ==> freshBloom.Has(d)
      {
        assert scans[..i + 1][..i] == scans[..i];
        pending := AddScan(freshBloom, pending, scans[i], Usable(scans[..i]));
        i := i + 1;
      }
      assert scans[..i] == scans;
    }

    method AddScan(filter: BloomFilter, pending: Index, scan: Option<Row>, ghost seen: seq<Row>)
      returns (pending': Index)
      requires filter.Valid() && Describes(pending, seen)
      requires forall d :: d in pending.domains ==> filter.Has(d)
      modifies filter.bits
      ensures Describes(pending', seen + Kept(scan))
      ensures forall d :: d in pending'.domains ==> filter.Has(d)
    {
      assert seen + [] == seen;
      if scan.None? { return pending; }
      var d, cat := Norm(scan.value.domain), Lower(scan.value.category);
      if d == "" { return pending; }
      InsertDescribes(pending, seen, Row(d, cat));
      filter.Add(d);
      pending' := Insert(pending, d, cat);
    }

    /** The filter first, the exact set only if the filter does not rule the name out. */
    method InDomains(d: string) returns (hit: bool)
      requires Valid()
      ensures hit <==> d in DomainsOf(rows)
    {
      hit := bloom.MaybeContains(d);
      return hit && d in index.domains;
    }

    method IsBlocked(domain: string) returns (blocked: bool)
      requires Valid()
      ensures blocked <==> Norm(domain) != "" && BlockedBy(rows, Norm(domain))
    {
      var d := Norm(domain);
      if d == "" { return false; }
      RowsListed(rows, d);
      blocked := AnyParent(d);
    }

    /** The walk over a name and its parents. */
    method AnyParent(name: string) returns (found: bool)
      requires Valid()
      ensures found <==> Listed(DomainsOf(rows), name)
    {
      var d := name;
      ghost var listed := DomainsOf(rows);
      while true
        invariant Listed(listed, d) <==> Listed(listed, name)
        decreases |d|
      {
        ListedStep(listed, d);
        var hit := InDomains(d);
        if hit { return true; }
        var parent := Up(d);
        if parent.None? { return false; }
        d := parent.value;
      }
    }

    method IsBlockedForCategories(domain: string, cats: seq<string>) returns (blocked: bool)
      requires Valid()
      ensures blocked <==> Norm(domain) != "" && BlockedByCategories(rows, LowerSet(cats), Norm(domain))
    {
      if |cats| == 0 { return false; }
      var d := Norm(domain);
      if d == "" { return false; }
      var catSet: set<string> := set c | c in cats :: Lower(c);
      ghost var wanted := set r | r in rows && r.category in catSet :: r.domain;
      RowsListed(rows, d);
      assert Listed(wanted, d) <==> BlockedByCategories(rows, catSet, d);
      while true
        invariant Listed(wanted, d) <==> BlockedByCategories(rows, catSet, Norm(domain))
        decreases |d|
      {
        ListedStep(wanted, d);
        InWanted(catSet, d);
        var maybe := bloom.MaybeContains(d);
        if maybe && exists cat :: cat in index.catDomains.Keys && cat in catSet && d in index.catDomains[cat] {
          return true;
        }
        var parent := Up(d);
        if parent.None? { return false; }
        d := parent.value;
      }
    }

    /** The category maps hold a name exactly when a row of a wanted category does. */
    lemma InWanted(catSet: set<string>, d: string)
      requires Valid()
      ensures d in (set r | r in rows && r.category in catSet :: r.domain) <==>
              exists cat :: cat in index.catDomains.Keys && cat in catSet && d in index.catDomains[cat]
      ensures d in (set r | r in rows && r.category in catSet :: r.domain) ==> bloom.Has(d)
    {
      if r :| r in rows && r.category in catSet && r.domain == d {
        assert r.category in index.catDomains && Row(d, r.category) in rows;
        assert d in index.catDomains[r.category] && d in index.domains;
      }
      if cat :| cat in index.catDomains.Keys && cat in catSet && d in index.catDomains[cat] {
        assert Row(d, cat) in rows && Row(d, cat).category in catSet;
      }
    }

    /** The empty string means "not blocked"; otherwise the longest listed suffix's best category. */
    method CategoryFor(domain: string) returns (cat: string)
      requires Valid()
      ensures Norm(domain) == "" || !BlockedBy(rows, Norm(domain)) ==> cat == ""
      ensures Norm(domain) != "" && BlockedBy(rows, Norm(domain)) ==> ReportedCategory(rows, Norm(domain), cat)
    {
      var d := Norm(domain);
      if d == "" { return ""; }
      while true
        invariant IsSuffix(d, Norm(domain)) && Outranks(rows, d, Norm(domain))
        decreases |d|
      {
        var maybe := bloom.MaybeContains(d);
        if maybe && d in index.domainCategory {
          BestReported(rows, Norm(domain), d, index.domainCategory[d]);
          return index.domainCategory[d];
        }
        UnlistedStep(rows, d, Norm(domain));
        var parent := Up(d);
        if parent.None? { return ""; }
        ParentIsSuffix(d, Norm(domain));
        d := parent.value;
      }
    }
  }

  lemma BestReported(rows: seq<Row>, top: string, d: string, cat: string)
    requires IsSuffix(d, top) && Outranks(rows, d, top) && BestCategory(rows, d, cat)
    ensures BlockedBy(rows, top) && ReportedCategory(rows, top, cat)
  {
    BestIs(rows, d, cat);
    assert Row(d, cat) in rows && IsSuffix(Row(d, cat).domain, top);
    assert ReportedBy(rows, top, d, cat);
  }

  lemma ParentIsSuffix(d: string, top: string)
    requires IsSuffix(d, top) && Up(d).Some?
    ensures IsSuffix(Up(d).value, top)
  {
    var p := Up(d).value;
    assert p == top[|top| - |p|..];
    assert top[|top| - |p| - 1] == d[IndexDot(d)];
  }

  lemma RowsListed(rows: seq<Row>, d: string)
    ensures Listed(DomainsOf(rows), d) <==> BlockedBy(rows, d)
  {
    if s :| s in DomainsOf(rows) && IsSuffix(s, d) {
      var r :| r in rows && r.domain == s;
    }
    if r :| r in rows && IsSuffix(r.domain, d) { assert r.domain in DomainsOf(rows); }
  }

  /** Membership in any set of categories implies membership in the whole list. */
  lemma CategoriesWithinList(rows: seq<Row>, cats: set<string>, d: string)
    requires BlockedByCategories(rows, cats, d)
    ensures BlockedBy(rows, d)
  {}
}

/** The newly-registered-domain list (internal/dns/nrd_blocklist.go). */
module Nrd {
  import opened DomainNames

  /**
   * Despite the comment in the source, the walk does look at the bare top-level domain, so the
   * answer is the same plain suffix test as for the blocklist.
   */
  method IsNrd(listed: set<string>, domain: string) returns (r: bool)
    ensures r <==> Norm(domain) != "" && Listed(listed, Norm(domain))
  {
    var current := Norm(domain);
    if current == "" || listed == {} { return false; }
    while true
      invariant Listed(listed, current) <==> Listed(listed, Norm(domain))
      decreases |current|
    {
      ListedStep(listed, current);
      if current in listed { return true; }
      var parent := Up(current);
      if parent.None? { return false; }
      var next := parent.value;
      if Up(next).None? {
        ListedStep(listed, next);
        return next in listed;
      }
      current := next;
    }
  }

  /** A list containing just "com" blocks every name under it. */
  lemma TopLevelIsBlocked()
    ensures Listed({"com"}, "example.com")
  {
    var d := "example.com";
    assert d[7] == '.' && d[8..] == "com";
    assert IsSuffix("com", d);
  }
}
