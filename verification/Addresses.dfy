/** Tunnel address normalisation (internal/tunnel/manager.go). */
module Addresses {

  /** White space as the Unicode-aware trimming of the source understands it. */
  predicate IsSpace(c: char) {
    || c in "\t\n\r " || c == '\U{0B}' || c == '\U{0C}' || c == '\U{85}' || c == '\U{A0}'
    || c == '\U{1680}' || '\U{2000}' <= c <= '\U{200A}' || c == '\U{2028}' || c == '\U{2029}'
    || c == '\U{202F}' || c == '\U{205F}' || c == '\U{3000}'
  }

  function TrimLeft(s: string): (r: string)
    ensures r == [] || !IsSpace(r[0])
    ensures s == [] || IsSpace(s[0]) || r == s
    ensures s != [] && !IsSpace(s[|s| - 1]) ==> r != [] && r[|r| - 1] == s[|s| - 1]
  {
    if s != [] && IsSpace(s[0]) then TrimLeft(s[1..]) else s
  }

  function TrimRight(s: string): (r: string)
    ensures r == [] || !IsSpace(r[|r| - 1])
    ensures s == [] || IsSpace(s[|s| - 1]) || r == s
    ensures s != [] && !IsSpace(s[0]) ==> r != [] && r[0] == s[0]
  {
    if s != [] && IsSpace(s[|s| - 1]) then TrimRight(s[..|s| - 1]) else s
  }

  function TrimSpace(s: string): (r: string)
    ensures r == [] || (!IsSpace(r[0]) && !IsSpace(r[|r| - 1]))
  {
    TrimRight(TrimLeft(s))
  }

  /** A bare address becomes a host route; anything with a prefix length is kept. */
  function NormalizeAllowedIp(v: string): string {
    var t := TrimSpace(v);
    if t == "" || '/' in t then t else t + "/32"
  }

  /**
   * The address is normalised again by every layer it passes through (bundle, table, wg0);
   * only the first application may change it.
   */
  lemma NormalizeIdempotent(v: string)
    ensures NormalizeAllowedIp(NormalizeAllowedIp(v)) == NormalizeAllowedIp(v)
  {
    var t := TrimSpace(v);
    var n := NormalizeAllowedIp(v);
    if t != "" && '/' !in t {
      assert n[0] == t[0] && n[|n| - 1] == '2' && n[|t|] == '/';
    }
    assert n == [] || (!IsSpace(n[0]) && !IsSpace(n[|n| - 1]));
    assert TrimLeft(n) == n;
    assert TrimSpace(n) == n;
  }

  // ---------------------------------------------------------------- what normalising computes

  ghost predicate AllSpace(s: string) { forall c :: c in s ==> IsSpace(c) }

  ghost predicate NoSpaceAtEnds(s: string) { s == "" || (!IsSpace(s[0]) && !IsSpace(s[|s| - 1])) }

  /** Among the ASCII characters, white space is what the Go library says. */
  lemma AsciiSpace(c: char)
    requires c < 128 as char
    ensures IsSpace(c) <==> c == ' ' || '\t' <= c <= '\r'
  {}

  lemma {:induction false} TrimLeftSpace(a: string, s: string)
    requires AllSpace(a) && (s == "" || !IsSpace(s[0]))
    ensures TrimLeft(a + s) == s
  {
    if a == "" {
      assert a + s == s;
    } else {
      assert a[0] in a && (a + s)[1..] == a[1..] + s;
      TrimLeftSpace(a[1..], s);
    }
  }

  lemma {:induction false} TrimRightSpace(s: string, b: string)
    requires AllSpace(b) && (s == "" || !IsSpace(s[|s| - 1]))
    ensures TrimRight(s + b) == s
  {
    if b == "" {
      assert s + b == s;
    } else {
      var n := |b| - 1;
      assert b[n] in b && (s + b)[..|s + b| - 1] == s + b[..n];
      TrimRightSpace(s, b[..n]);
    }
  }

  lemma TrimSpaceIs(a: string, s: string, b: string)
    requires AllSpace(a) && AllSpace(b) && NoSpaceAtEnds(s)
    ensures TrimSpace(a + s + b) == s
  {
    if s == "" {
      assert a + s + b == (a + b) + "";
      TrimLeftSpace(a + b, "");
    } else {
      assert a + s + b == a + (s + b);
      TrimLeftSpace(a, s + b);
      TrimRightSpace(s, b);
    }
  }

  /** Surrounding white space goes, and a bare address gets the host prefix length. */
  lemma NormalizesTo(a: string, s: string, b: string)
    requires AllSpace(a) && AllSpace(b) && NoSpaceAtEnds(s)
    ensures NormalizeAllowedIp(a + s + b) == if s == "" || '/' in s then s else s + "/32"
  {
    TrimSpaceIs(a, s, b);
  }

  /** A bare address: not empty, no white space at its ends and no prefix length. */
  ghost predicate Bare(s: string) { s != "" && NoSpaceAtEnds(s) && '/' !in s }

  lemma BareNormalizes(s: string)
    requires Bare(s)
    ensures NormalizeAllowedIp(s) == s + "/32"
  {
    NormalizesTo("", s, "");
    assert "" + s + "" == s;
  }
}
