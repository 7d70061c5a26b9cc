/**
 * The peer table and its reconciliation with the policy bundle (internal/tunnel/manager.go).
 *
 * The table has a unique key column and a unique address column. Reading the whole table and
 * writing single rows are assumed to succeed; commands to wg0 may fail.
 */
module TunnelTable {
  import opened Common
  import opened Addresses
  import opened WgSync

  datatype Row = Row(allowedIp: Addr, deviceMac: string, comment: string)
  type Table = map<Key, Row>

  datatype Child = Child(publicKey: Key, wireguardIp: string, deviceMac: string, childId: string)
  datatype Bundle = Bundle(signature: string, version: string, children: seq<Child>)

  /** The host address of a CIDR string, `None` if it does not parse. */
  type CidrParser = string -> Option<string>

  // ---------------------------------------------------------------- rows

  ghost predicate UniqueAddresses(t: Table) {
    forall a, b :: a in t && b in t && t[a].allowedIp == t[b].allowedIp ==> a == b
  }

  ghost predicate NormalAddresses(t: Table) {
    forall k :: k in t ==> NormalizeAllowedIp(t[k].allowedIp) == t[k].allowedIp
  }

  /** INSERT OR REPLACE: the row conflicting on the key and the one conflicting on the address go. */
  function Replace(t: Table, key: Key, row: Row): Table {
    (map k | k in t && k != key && t[k].allowedIp != row.allowedIp :: t[k])[key := row]
  }

  predicate ValidKey(key: Key) { |TrimSpace(key)| == 44 }

  // ---------------------------------------------------------------- bundles

  predicate Usable(c: Child) { c.publicKey != "" && c.wireguardIp != "" }

  function RowOf(c: Child): Row {
    Row(NormalizeAllowedIp(c.wireguardIp), c.deviceMac, c.childId)
  }

  predicate Accepted(parse: CidrParser, c: Child) {
    ValidKey(c.publicKey) && parse(NormalizeAllowedIp(c.wireguardIp)).Some?
  }

  /** Usable children have valid, pairwise distinct keys and addresses. */
  ghost predicate Consistent(parse: CidrParser, children: seq<Child>) {
    && (forall c :: c in children && Usable(c) ==> Accepted(parse, c))
    && (forall i, j :: 0 <= i < j < |children| && Usable(children[i]) && Usable(children[j]) ==>
          && children[i].publicKey != children[j].publicKey
          && NormalizeAllowedIp(children[i].wireguardIp) != NormalizeAllowedIp(children[j].wireguardIp))
  }

  ghost predicate Mentions(children: seq<Child>, key: Key) {
    exists c :: c in children && Usable(c) && c.publicKey == key
  }

  /** The table holds exactly the bundle's children. */
  ghost predicate Mirrors(t: Table, children: seq<Child>) {
    && (forall k :: k in t <==> Mentions(children, k))
    && (forall c :: c in children && Usable(c) ==> c.publicKey in t && t[c.publicKey] == RowOf(c))
  }

  lemma MirrorUnique(t: Table, t': Table, children: seq<Child>)
    requires Mirrors(t, children) && Mirrors(t', children)
    ensures t == t'
  {
    forall k | k in t ensures k in t' && t[k] == t'[k] {
      var c :| c in children && Usable(c) && c.publicKey == k;
    }
  }

  predicate Bootstrap(b: Bundle) { b.signature == "bootstrap-local" || b.version == "" }

  // ---------------------------------------------------------------- address allocation

  function Digits(n: nat): (s: string)
    ensures s != ""
  {
    if n < 10 then [('0' as int + n) as char] else Digits(n / 10) + [('0' as int + n % 10) as char]
  }

  function Candidate(i: nat): (s: string)
    ensures s != "" && s[0] == '1'
  {
    "10.10.0." + Digits(i)
  }

  /** The only facts about CIDR parsing that allocation needs. */
  ghost predicate ParsesHosts(parse: CidrParser) {
    && parse("").None?
    && forall i {:trigger Candidate(i)} :: 2 <= i <= 253 ==> parse(Candidate(i) + "/32") == Some(Candidate(i))
  }

  predicate Taken(parse: CidrParser, t: Table, ip: string) {
    ip == "10.10.0.1" || ip == "10.10.0.254" || exists k :: k in t.Keys && parse(t[k].allowedIp) == Some(ip)
  }

  /** The i-th host is the lowest one nobody uses. */
  ghost predicate FreeAt(parse: CidrParser, t: Table, i: nat) {
    2 <= i <= 253 && !Taken(parse, t, Candidate(i)) && forall j :: 2 <= j < i ==> Taken(parse, t, Candidate(j))
  }

  ghost predicate FirstFree(parse: CidrParser, t: Table, route: string) {
    exists i :: FreeAt(parse, t, i) && route == Candidate(i) + "/32"
  }

  ghost predicate Exhausted(parse: CidrParser, t: Table) {
    forall i :: 2 <= i <= 253 ==> Taken(parse, t, Candidate(i))
  }

  /** A free host's route is accepted as it is and collides with no row. */
  lemma FreeHost(parse: CidrParser, t: Table, ip: string)
    requires ParsesHosts(parse) && FirstFree(parse, t, ip + "/32")
    ensures NormalizeAllowedIp(ip + "/32") == ip + "/32" && parse(ip + "/32").Some?
    ensures forall k :: k in t ==> t[k].allowedIp != ip + "/32"
  {
    var i :| FreeAt(parse, t, i) && ip + "/32" == Candidate(i) + "/32";
    HostRouteIsNormal(i);
    assert parse(Candidate(i) + "/32") == Some(Candidate(i));
    assert forall k :: k in t.Keys ==> parse(t[k].allowedIp) != Some(Candidate(i));
  }

  lemma NewRowFits(t: Table, key: Key, row: Row)
    requires key !in t && forall k :: k in t ==> t[k].allowedIp != row.allowedIp
    ensures Replace(t, key, row) == t[key := row]
  {}

  lemma HostRouteIsNormal(i: nat)
    ensures NormalizeAllowedIp(Candidate(i) + "/32") == Candidate(i) + "/32"
  {
    var s := Candidate(i) + "/32";
    assert s[0] == '1' && s[|s| - 1] == '2' && s[|Candidate(i)|] == '/';
    assert TrimLeft(s) == s && TrimRight(s) == s;
  }

  class Manager {
    const parse: CidrParser
    const wg: Interface
    var table: Table

    ghost predicate Valid()
      reads this, wg
    {
      && UniqueAddresses(table) && NormalAddresses(table) && Routable(wg.dev)
      && forall k :: k in table ==> parse(table[k].allowedIp).Some?
    }

    constructor (parse: CidrParser, wg: Interface)
      requires Routable(wg.dev)
      ensures Valid() && table == map[] && this.parse == parse && this.wg == wg
    {
      this.parse, this.wg, table := parse, wg, map[];
    }

    method UpsertPeer(key: Key, allowedIp: string, deviceMac: string, comment: string) returns (ok: bool)
      requires Valid()
      modifies this
      ensures Valid()
      ensures ok <==> ValidKey(key) && parse(NormalizeAllowedIp(allowedIp)).Some?
      ensures table == if ok then Replace(old(table), key, Row(NormalizeAllowedIp(allowedIp), deviceMac, comment))
                       else old(table)
    {
      if !ValidKey(key) { return false; }
      var ip := NormalizeAllowedIp(allowedIp);
      if parse(ip).None? { return false; }
      NormalizeIdempotent(allowedIp);
      table := Replace(table, key, Row(ip, deviceMac, comment));
      return true;
    }

    /** The bundle half of `sync`: upsert every usable child, then drop every key not mentioned. */
    method Reconcile(children: seq<Child>)
      requires Valid()
      modifies this
      ensures Valid()
      ensures table == Reconciled(parse, old(table), children)
      ensures forall k :: k in table ==> Mentions(children, k)
      ensures Consistent(parse, children) ==> Mirrors(table, children)
    {
      ReconciledFacts(parse, table, children);
      var bundleKeys := UpsertAll(children);
      RemoveOrphans(bundleKeys);
    }

    method UpsertAll(children: seq<Child>) returns (bundleKeys: set<Key>)
      requires Valid()
      modifies this
      ensures Valid()
      ensures bundleKeys == KeysOf(children, |children|)
      ensures table == Written(old(table), Writes(parse, children, |children|))
    {
      bundleKeys := {};
      var i := 0;
      while i < |children|
        invariant 0 <= i <= |children|
        invariant Valid()
        invariant bundleKeys == KeysOf(children, i)
        invariant table == Written(old(table), Writes(parse, children, i))
      {
        OneMoreWrite(parse, old(table), children, i);
        var key := UpsertChild(children[i]);
        bundleKeys := bundleKeys + key;
        i := i + 1;
      }
    }

    /** A child without key or address is passed over; one the table refuses is logged, its key still counted. */
    method UpsertChild(child: Child) returns (key: set<Key>)
      requires Valid()
      modifies this
      ensures Valid()
      ensures key == if Usable(child) then {child.publicKey} else {}
      ensures table == WithChild(parse, old(table), child)
    {
      if !Usable(child) { return {}; }
      key := {child.publicKey};
      var allowedIp := NormalizeAllowedIp(child.wireguardIp);
      NormalizeIdempotent(child.wireguardIp);
      var _ := UpsertPeer(child.publicKey, allowedIp, child.deviceMac, child.childId);
    }

    method RemoveOrphans(bundleKeys: set<Key>)
      requires Valid()
      modifies this
      ensures Valid()
      ensures table == map k | k in old(table) && k in bundleKeys :: old(table)[k]
    {
      var toRemove := table.Keys - bundleKeys;
      while toRemove != {}
        invariant toRemove <= old(table).Keys - bundleKeys
        invariant table == map k | k in old(table) && (k in bundleKeys || k in toRemove) :: old(table)[k]
        decreases toRemove
      {
        var key :| key in toRemove;
        toRemove := toRemove - {key};
        table := table - {key};
      }
    }

    /** All rows, in whatever order the query returns them. */
    method LoadPeers() returns (peers: seq<Peer>)
      requires Valid()
      ensures Distinct(peers) && Normalized(peers) == peers
      ensures forall k, ip :: Peer(k, ip) in peers <==> k in table && table[k].allowedIp == ip
    {
      peers := [];
      var rest := table.Keys;
      while rest != {}
        invariant rest <= table.Keys
        invariant Distinct(peers)
        invariant forall p :: p in peers <==>
          p.publicKey in table && p.publicKey !in rest && table[p.publicKey].allowedIp == p.allowedIp
        decreases rest
      {
        var k :| k in rest;
        rest := rest - {k};
        AppendDistinct(peers, Peer(k, table[k].allowedIp));
        peers := peers + [Peer(k, table[k].allowedIp)];
      }
      assert forall i :: 0 <= i < |peers| ==> peers[i] in peers;
      assert Normalized(peers) == peers;
    }

    /** `None` is "no bundle yet". The result is false exactly when a wg0 command failed. */
    method Sync(bundle: Option<Bundle>) returns (ok: bool)
      requires Valid()
      modifies this, wg
      ensures Valid()
      ensures bundle.None? ==> table == old(table) && wg.dev == old(wg.dev) && ok
      ensures bundle.Some? && (bundle.value.signature == "bootstrap-local" || bundle.value.version == "") ==>
                table == old(table)
      ensures bundle.Some? && bundle.value.signature != "bootstrap-local" && bundle.value.version != "" ==>
                && table == Reconciled(parse, old(table), bundle.value.children)
                && (forall k :: k in table ==> Mentions(bundle.value.children, k))
                && (Consistent(parse, bundle.value.children) ==> Mirrors(table, bundle.value.children))
      ensures ok && bundle.Some? ==> exists peers :: Lists(peers, table) && PassResult(old(wg.dev), peers, wg.dev)
    {
      if bundle.None? { return true; }
      if !Bootstrap(bundle.value) {
        Reconcile(bundle.value.children);
      }
      var peers := LoadPeers();
      ok := wg.SyncPeersDiff(peers);
      assert ok ==> Lists(peers, table) && PassResult(old(wg.dev), peers, wg.dev);
    }

    /** Two successful rounds with one consistent bundle make the live peers equal the bundle. */
    method SyncTwice(bundle: Bundle) returns (ok: bool)
      requires Valid() && !Bootstrap(bundle) && Consistent(parse, bundle.children)
      modifies this, wg
      ensures Valid() && Mirrors(table, bundle.children)
      ensures ok ==> LiveMirrors(Live(wg.dev), bundle.children)
    {
      ghost var dev0 := wg.dev;
      ok := Sync(Some(bundle));
      ghost var dev1, table1 := wg.dev, table;
      var ok2 := Sync(Some(bundle));
      ok := ok && ok2;
      if ok {
        MirrorUnique(table1, table, bundle.children);
        ghost var p1 :| Lists(p1, table) && PassResult(dev0, p1, dev1);
        ghost var p2 :| Lists(p2, table) && PassResult(dev1, p2, wg.dev);
        TwoListingsConverge(dev0, p1, dev1, p2, wg.dev, table);
      }
    }

    method AllocateIp() returns (ip: Option<string>)
      ensures ip.Some? ==> FirstFree(parse, table, ip.value + "/32")
      ensures ip.None? ==> Exhausted(parse, table)
    {
      var i: nat := 2;
      while i <= 253
        invariant 2 <= i <= 254
        invariant forall j :: 2 <= j < i ==> Taken(parse, table, Candidate(j))
      {
        if !Taken(parse, table, Candidate(i)) {
          assert FreeAt(parse, table, i);
          return Some(Candidate(i));
        }
        i := i + 1;
      }
      return None;
    }

    /** The insertion half of `AddPeer` for a key without a row: it disturbs no other row. */
    method InsertPeer(key: Key, deviceMac: string, comment: string) returns (allowedIp: Option<string>)
      requires Valid() && ParsesHosts(parse) && ValidKey(key) && !KnownKey(table, key)
      modifies this
      ensures Valid()
      ensures allowedIp.Some? ==>
                && FirstFree(parse, old(table), allowedIp.value) && key !in old(table)
                && table == old(table)[key := Row(allowedIp.value, deviceMac, comment)]
      ensures allowedIp.None? ==> table == old(table) && Exhausted(parse, table)
    {
      var ip := AllocateIp();
      if ip.None? { return None; }
      allowedIp := Some(ip.value + "/32");
      FreeHost(parse, table, ip.value);
      NewRowFits(table, key, Row(allowedIp.value, deviceMac, comment));
      var _ := UpsertPeer(key, allowedIp.value, deviceMac, comment);
    }

    /**
     * A key that already has a row is answered with its address and nothing else happens. A new peer
     * is reported as added, but the sync it triggers then reconciles the table with the active bundle:
     * `AddedSurvivesIff` says when the peer is still there afterwards.
     */
    method AddPeer(key: Key, deviceMac: string, comment: string, bundle: Option<Bundle>) returns (allowedIp: Option<string>)
      requires Valid() && ParsesHosts(parse)
      modifies this, wg
      ensures Valid()
      ensures allowedIp.None? <==> !ValidKey(key) || (!KnownKey(old(table), key) && Exhausted(parse, old(table)))
      ensures allowedIp.None? || KnownKey(old(table), key) ==> table == old(table) && wg.dev == old(wg.dev)
      ensures allowedIp.Some? && KnownKey(old(table), key) ==> allowedIp.value == old(table)[key].allowedIp
      ensures allowedIp.Some? && !KnownKey(old(table), key) ==> FirstFree(parse, old(table), allowedIp.value)
      ensures allowedIp.Some? && !KnownKey(old(table), key) && (bundle.None? || Bootstrap(bundle.value)) ==>
                table == old(table)[key := Row(allowedIp.value, deviceMac, comment)]
      ensures allowedIp.Some? && !KnownKey(old(table), key) && bundle.Some? && !Bootstrap(bundle.value) ==>
                && table == Reconciled(parse, old(table)[key := Row(allowedIp.value, deviceMac, comment)],
                                       bundle.value.children)
                && (forall k :: k in table ==> Mentions(bundle.value.children, k))
                && (Consistent(parse, bundle.value.children) ==> Mirrors(table, bundle.value.children))
    {
      if !ValidKey(key) { return None; }
      if KnownKey(table, key) { return Some(table[key].allowedIp); }
      allowedIp := InsertPeer(key, deviceMac, comment);
      if allowedIp.None? { return; }
      var _ := Sync(bundle);
    }

    /** Likewise removing a peer that the active bundle still mentions brings it straight back. */
    method RemovePeer(key: Key, bundle: Option<Bundle>)
      requires Valid()
      modifies this, wg
      ensures Valid()
      ensures bundle.None? || Bootstrap(bundle.value) ==> table == old(table) - {key}
      ensures bundle.Some? && !Bootstrap(bundle.value) ==>
                && table == Reconciled(parse, old(table) - {key}, bundle.value.children)
                && (forall k :: k in table ==> Mentions(bundle.value.children, k))
                && (Consistent(parse, bundle.value.children) ==> Mirrors(table, bundle.value.children))
    {
      table := table - {key};
      var _ := Sync(bundle);
    }
  }

  /** A row with an empty address would count as absent; none is ever written. */
  predicate KnownKey(t: Table, key: Key) { key in t && t[key].allowedIp != "" }

  ghost predicate Lists(peers: seq<Peer>, t: Table) {
    && Distinct(peers)
    && forall k, ip :: Peer(k, ip) in peers <==> k in t && t[k].allowedIp == ip
  }

  function KeysOf(children: seq<Child>, n: nat): set<Key>
    requires n <= |children|
  {
    if n == 0 then {}
    else KeysOf(children, n - 1) + if Usable(children[n - 1]) then {children[n - 1].publicKey} else {}
  }

  lemma {:induction false} KeysAreMentions(children: seq<Child>, n: nat)
    requires n <= |children|
    ensures forall k :: k in KeysOf(children, n) <==> Mentions(children[..n], k)
  {
    if n > 0 {
      KeysAreMentions(children, n - 1);
      var c := children[n - 1];
      assert children[..n] == children[..n - 1] + [c];
      forall k ensures Mentions(children[..n], k) <==> Mentions(children[..n - 1], k) || (Usable(c) && c.publicKey == k) {
        if Usable(c) && c.publicKey == k { assert c in children[..n]; }
      }
    }
  }

  // ---------------------------------------------------------------- the reconciled table

  /** One accepted upsert. */
  datatype Write = Write(key: Key, row: Row)

  function WriteOf(parse: CidrParser, c: Child): (own: seq<Write>)
    ensures |own| <= 1
  {
    if Usable(c) && Accepted(parse, c) then [Write(c.publicKey, RowOf(c))] else []
  }

  function WithChild(parse: CidrParser, t: Table, c: Child): Table {
    var own := WriteOf(parse, c);
    if own == [] then t else Replace(t, own[0].key, own[0].row)
  }

  /** The first `n` parts, end to end. */
  function Flat<T>(parts: seq<seq<T>>, n: nat): seq<T>
    requires n <= |parts|
  {
    if n == 0 then [] else Flat(parts, n - 1) + parts[n - 1]
  }

  function Parts(parse: CidrParser, children: seq<Child>): (parts: seq<seq<Write>>)
    ensures |parts| == |children| && forall i :: 0 <= i < |children| ==> parts[i] == WriteOf(parse, children[i])
  {
    seq(|children|, i requires 0 <= i < |children| => WriteOf(parse, children[i]))
  }

  /** The upserts that the first `n` children cause, in order. */
  function Writes(parse: CidrParser, children: seq<Child>, n: nat): seq<Write>
    requires n <= |children|
  {
    Flat(Parts(parse, children), n)
  }

  function Written(t: Table, ws: seq<Write>): Table {
    if ws == [] then t else Replace(Written(t, ws[..|ws| - 1]), ws[|ws| - 1].key, ws[|ws| - 1].row)
  }

  lemma WrittenMore(t: Table, ws: seq<Write>, own: seq<Write>)
    requires |own| <= 1
    ensures Written(t, ws + own) ==
      if own == [] then Written(t, ws) else Replace(Written(t, ws), own[0].key, own[0].row)
  {
    if own == [] {
      assert ws + own == ws;
    } else {
      assert (ws + own)[..|ws|] == ws;
    }
  }

  lemma OneMoreWrite(parse: CidrParser, t: Table, children: seq<Child>, n: nat)
    requires n < |children|
    ensures Written(t, Writes(parse, children, n + 1)) ==
              WithChild(parse, Written(t, Writes(parse, children, n)), children[n])
  {
    WrittenMore(t, Writes(parse, children, n), Parts(parse, children)[n]);
  }

  /** What reconciling leaves of the table `t`. */
  function Reconciled(parse: CidrParser, t: Table, children: seq<Child>): Table {
    var all := Written(t, Writes(parse, children, |children|));
    map k | k in all && k in KeysOf(children, |children|) :: all[k]
  }

  /** Write `i` is the last one to the key. */
  ghost predicate LastTo(ws: seq<Write>, k: Key, i: nat) {
    i < |ws| && ws[i].key == k && forall j :: i < j < |ws| ==> ws[j].key != k
  }

  ghost predicate NoneTo(ws: seq<Write>, k: Key) { forall j :: 0 <= j < |ws| ==> ws[j].key != k }

  /** Some write from number `from` on takes the address. */
  ghost predicate Displaced(ws: seq<Write>, from: nat, ip: Addr) {
    exists j :: from <= j < |ws| && ws[j].row.allowedIp == ip
  }

  /** A row lives on until a write to another key takes its address. */
  lemma RowStep(t: Table, ws: seq<Write>, from: nat, k: Key, row: Row)
    requires from < |ws| && ws[|ws| - 1].key != k
    requires Get(t, k) == if Displaced(ws[..|ws| - 1], from, row.allowedIp) then None else Some(row)
    ensures var w := ws[|ws| - 1];
            Get(Replace(t, w.key, w.row), k) == if Displaced(ws, from, row.allowedIp) then None else Some(row)
  {
    var n := |ws| - 1;
    assert Displaced(ws, from, row.allowedIp) <==>
      Displaced(ws[..n], from, row.allowedIp) || ws[n].row.allowedIp == row.allowedIp by {
      if j :| from <= j < n && ws[j].row.allowedIp == row.allowedIp { assert ws[..n][j] == ws[j]; }
    }
  }

  lemma {:induction false} WrittenLast(t: Table, ws: seq<Write>, k: Key, i: nat)
    requires LastTo(ws, k, i)
    ensures Get(Written(t, ws), k) == if Displaced(ws, i + 1, ws[i].row.allowedIp) then None else Some(ws[i].row)
    decreases |ws|
  {
    var n := |ws| - 1;
    if i < n {
      WrittenLast(t, ws[..n], k, i);
      RowStep(Written(t, ws[..n]), ws, i + 1, k, ws[i].row);
    }
  }

  lemma {:induction false} WrittenNone(t: Table, ws: seq<Write>, k: Key)
    requires NoneTo(ws, k)
    ensures Get(Written(t, ws), k) == if k in t && !Displaced(ws, 0, t[k].allowedIp) then Some(t[k]) else None
  {
    if ws != [] {
      WrittenNone(t, ws[..|ws| - 1], k);
      if k in t { RowStep(Written(t, ws[..|ws| - 1]), ws, 0, k, t[k]); }
    }
  }

  lemma {:induction false} LastFrom(ws: seq<Write>, k: Key, j: nat) returns (i: nat)
    requires j < |ws| && ws[j].key == k
    ensures LastTo(ws, k, i)
    decreases |ws| - j
  {
    i := j;
    if m :| j < m < |ws| && ws[m].key == k { i := LastFrom(ws, k, m); }
  }

  lemma {:induction false} PartOf<T>(parts: seq<seq<T>>, n: nat, x: T) returns (j: nat)
    requires n <= |parts| && x in Flat(parts, n)
    ensures j < n && x in parts[j]
  {
    if x in Flat(parts, n - 1) {
      j := PartOf(parts, n - 1, x);
    } else {
      j := n - 1;
    }
  }

  lemma {:induction false} InFlat<T>(parts: seq<seq<T>>, n: nat, j: nat, x: T)
    requires j < n <= |parts| && x in parts[j]
    ensures x in Flat(parts, n)
  {
    if j < n - 1 { InFlat(parts, n - 1, j, x); }
  }

  lemma {:induction false} KeyOf(children: seq<Child>, n: nat, j: nat)
    requires j < n <= |children| && Usable(children[j])
    ensures children[j].publicKey in KeysOf(children, n)
  {
    if j < n - 1 { KeyOf(children, n - 1, j); }
  }

  /** Only keys of the bundle are written. */
  lemma WrittenKey(parse: CidrParser, children: seq<Child>, w: Write)
    requires w in Writes(parse, children, |children|)
    ensures w.key in KeysOf(children, |children|)
  {
    var j := PartOf(Parts(parse, children), |children|, w);
    KeyOf(children, |children|, j);
  }

  /**
   * The reconciled table, row by row, for every bundle. A key that was written has the row of its last
   * write, unless a later write takes the address; a key of the bundle whose children were all refused
   * keeps its old row, unless a write takes its address; no other key has a row.
   */
  lemma ReconciledRow(parse: CidrParser, t: Table, children: seq<Child>, k: Key)
    ensures var ws := Writes(parse, children, |children|);
            var row := Get(Reconciled(parse, t, children), k);
            && (forall i: nat :: LastTo(ws, k, i) ==>
                  row == if Displaced(ws, i + 1, ws[i].row.allowedIp) then None else Some(ws[i].row))
            && (NoneTo(ws, k) ==>
                  row == if Mentions(children, k) && k in t && !Displaced(ws, 0, t[k].allowedIp) then Some(t[k]) else None)
            && (NoneTo(ws, k) || exists i: nat :: LastTo(ws, k, i))
  {
    var ws := Writes(parse, children, |children|);
    KeysAreMentions(children, |children|);
    assert children[..|children|] == children;
    forall i: nat | LastTo(ws, k, i)
      ensures Get(Reconciled(parse, t, children), k) ==
        if Displaced(ws, i + 1, ws[i].row.allowedIp) then None else Some(ws[i].row)
    {
      WrittenLast(t, ws, k, i);
      WrittenKey(parse, children, ws[i]);
    }
    if NoneTo(ws, k) {
      WrittenNone(t, ws, k);
    } else {
      var j: nat :| j < |ws| && ws[j].key == k;
      var i := LastFrom(ws, k, j);
    }
  }

  /** When the peer that `AddPeer` has just inserted is still in the table after the sync. */
  lemma AddedSurvivesIff(parse: CidrParser, t: Table, key: Key, row: Row, children: seq<Child>)
    ensures var ws := Writes(parse, children, |children|);
            key in Reconciled(parse, t[key := row], children) <==>
              if NoneTo(ws, key) then Mentions(children, key) && !Displaced(ws, 0, row.allowedIp)
              else exists i: nat :: LastTo(ws, key, i) && !Displaced(ws, i + 1, ws[i].row.allowedIp)
  {
    ReconciledRow(parse, t[key := row], children, key);
  }

  // ---------------------------------------------------------------- consistent bundles

  lemma PairDistinct(parse: CidrParser, children: seq<Child>, j: nat, i: nat)
    requires Consistent(parse, children) && j < i < |children| && Usable(children[j]) && Usable(children[i])
    ensures children[j].publicKey != children[i].publicKey
    ensures RowOf(children[j]).allowedIp != RowOf(children[i]).allowedIp
  {}

  ghost predicate DistinctWrites(ws: seq<Write>) {
    forall i, j :: 0 <= i < j < |ws| ==> ws[i].key != ws[j].key && ws[i].row.allowedIp != ws[j].row.allowedIp
  }

  ghost predicate Differ(v: Write, w: Write) { v.key != w.key && v.row.allowedIp != w.row.allowedIp }

  ghost predicate PartsDiffer(parts: seq<seq<Write>>) {
    && (forall i :: 0 <= i < |parts| ==> |parts[i]| <= 1)
    && forall j, i :: 0 <= j < i < |parts| && parts[j] != [] && parts[i] != [] ==> Differ(parts[j][0], parts[i][0])
  }

  lemma {:induction false} FlatDistinct(parts: seq<seq<Write>>, n: nat)
    requires PartsDiffer(parts) && n <= |parts|
    ensures DistinctWrites(Flat(parts, n))
  {
    if n > 0 {
      FlatDistinct(parts, n - 1);
      var before, own := Flat(parts, n - 1), parts[n - 1];
      if own != [] {
        forall i | 0 <= i < |before| ensures Differ(before[i], own[0]) {
          var j := PartOf(parts, n - 1, before[i]);
          assert parts[j] == [before[i]];
        }
      }
    }
  }

  lemma ConsistentWrites(parse: CidrParser, children: seq<Child>)
    requires Consistent(parse, children)
    ensures DistinctWrites(Writes(parse, children, |children|))
  {
    var parts := Parts(parse, children);
    forall j, i | 0 <= j < i < |parts| && parts[j] != [] && parts[i] != [] ensures Differ(parts[j][0], parts[i][0]) {
      PairDistinct(parse, children, j, i);
    }
    FlatDistinct(parts, |children|);
  }

  lemma DistinctRow(ws: seq<Write>, w: Write)
    requires DistinctWrites(ws) && w in ws
    ensures exists i: nat :: LastTo(ws, w.key, i) && ws[i] == w && !Displaced(ws, i + 1, w.row.allowedIp)
  {
    var i: nat :| i < |ws| && ws[i] == w;
    assert LastTo(ws, w.key, i);
  }

  lemma ConsistentRow(parse: CidrParser, t: Table, children: seq<Child>, j: nat)
    requires Consistent(parse, children) && j < |children| && Usable(children[j])
    ensures Get(Reconciled(parse, t, children), children[j].publicKey) == Some(RowOf(children[j]))
  {
    var w := Write(children[j].publicKey, RowOf(children[j]));
    assert Accepted(parse, children[j]) by { assert children[j] in children; }
    InFlat(Parts(parse, children), |children|, j, w);
    ConsistentWrites(parse, children);
    DistinctRow(Writes(parse, children, |children|), w);
    ReconciledRow(parse, t, children, w.key);
  }

  /** Only mentioned keys are left, and a consistent bundle is mirrored, whatever the table held. */
  lemma ReconciledFacts(parse: CidrParser, t: Table, children: seq<Child>)
    ensures forall k :: k in Reconciled(parse, t, children) ==> Mentions(children, k)
    ensures Consistent(parse, children) ==> Mirrors(Reconciled(parse, t, children), children)
  {
    var r := Reconciled(parse, t, children);
    KeysAreMentions(children, |children|);
    assert children[..|children|] == children;
    if Consistent(parse, children) {
      forall c | c in children && Usable(c) ensures Get(r, c.publicKey) == Some(RowOf(c)) {
        var j: nat :| j < |children| && children[j] == c;
        ConsistentRow(parse, t, children, j);
      }
      RowsMirror(r, children);
    }
  }

  lemma RowsMirror(r: Table, children: seq<Child>)
    requires forall c :: c in children && Usable(c) ==> Get(r, c.publicKey) == Some(RowOf(c))
    requires forall k :: k in r ==> Mentions(children, k)
    ensures Mirrors(r, children)
  {}

  // ---------------------------------------------------------------- in the bundle's own fields

  /** A child with a bare address is written with "/32", if its key has 44 characters and the CIDR parses. */
  lemma BareChildWrites(parse: CidrParser, c: Child, key: string, a: string, b: string)
    requires AllSpace(a) && AllSpace(b) && NoSpaceAtEnds(key) && c.publicKey == a + key + b && c.publicKey != ""
    requires Bare(c.wireguardIp)
    ensures WriteOf(parse, c) ==
      if |key| == 44 && parse(c.wireguardIp + "/32").Some?
      then [Write(c.publicKey, Row(c.wireguardIp + "/32", c.deviceMac, c.childId))] else []
  {
    BareNormalizes(c.wireguardIp);
    TrimSpaceIs(a, key, b);
  }

  /** What mirroring says of such a child's row, field by field. */
  lemma MirroredFields(t: Table, children: seq<Child>, c: Child)
    requires Mirrors(t, children) && c in children && c.publicKey != "" && Bare(c.wireguardIp)
    ensures c.publicKey in t
    ensures t[c.publicKey].allowedIp == c.wireguardIp + "/32"
    ensures t[c.publicKey].deviceMac == c.deviceMac && t[c.publicKey].comment == c.childId
  {
    BareNormalizes(c.wireguardIp);
  }

  /** Children without a key or an address are passed over altogether. */
  lemma IncompleteChildIgnored(parse: CidrParser, c: Child)
    ensures c.publicKey == "" || c.wireguardIp == "" ==> WriteOf(parse, c) == []
  {}

  /** A key is taken if it is 44 characters long between the white space around it. */
  lemma ValidKeyIff(a: string, key: Key, b: string)
    requires AllSpace(a) && AllSpace(b) && NoSpaceAtEnds(key)
    ensures ValidKey(a + key + b) <==> |key| == 44
  {
    TrimSpaceIs(a, key, b);
  }

  /** The decimal digits read back as the number. */
  function Value(s: string): nat {
    if s == "" then 0
    else Value(s[..|s| - 1]) * 10 + if '0' <= s[|s| - 1] <= '9' then s[|s| - 1] as int - '0' as int else 0
  }

  lemma {:induction false} DigitsValue(n: nat)
    ensures Value(Digits(n)) == n && forall c :: c in Digits(n) ==> '0' <= c <= '9'
    ensures Digits(n)[0] == '0' ==> n == 0
  {
    if n >= 10 {
      DigitsValue(n / 10);
      var d := Digits(n / 10);
      assert Digits(n)[..|Digits(n)| - 1] == d;
    } else {
      assert Digits(n)[..0] == "";
    }
  }

  /** Host number i is offered as "10.10.0.i", and different hosts have different addresses. */
  lemma CandidateIs(i: nat, j: nat)
    ensures |Candidate(i)| > 8 && Candidate(i)[..8] == "10.10.0." && Value(Candidate(i)[8..]) == i
    ensures Candidate(i)[8] == '0' ==> i == 0
    ensures Candidate(i) == Candidate(j) ==> i == j
  {
    DigitsValue(i);
    DigitsValue(j);
    assert Candidate(i)[8..] == Digits(i) && Candidate(j)[8..] == Digits(j);
  }

  // ---------------------------------------------------------------- listings

  lemma AppendDistinct(peers: seq<Peer>, p: Peer)
    requires Distinct(peers)
    requires forall q :: q in peers ==> q.publicKey != p.publicKey && q.allowedIp != p.allowedIp
    ensures Distinct(peers + [p])
  {
    assert forall i :: 0 <= i < |peers| ==> peers[i] in peers;
  }

  lemma ListingAsMap(peers: seq<Peer>, t: Table)
    requires Lists(peers, t)
    ensures AsMap(peers) == map k | k in t :: t[k].allowedIp
  {
    forall k | k in t ensures k in AsMap(peers) {
      assert Peer(k, t[k].allowedIp) in peers;
      var i :| 0 <= i < |peers| && peers[i] == Peer(k, t[k].allowedIp);
      assert peers[i].publicKey == k;
    }
    forall k | k in AsMap(peers) ensures k in t && AsMap(peers)[k] == t[k].allowedIp {
      assert Peer(k, AsMap(peers)[k]) in peers;
    }
  }

  /** The two passes may list the table in different orders. */
  lemma TwoListingsConverge(dev0: Device, p1: seq<Peer>, dev1: Device, p2: seq<Peer>, dev2: Device, t: Table)
    requires Lists(p1, t) && Lists(p2, t) && PassResult(dev0, p1, dev1) && PassResult(dev1, p2, dev2)
    ensures Live(dev2) == map k | k in t :: t[k].allowedIp
  {
    forall i | 0 <= i < |p2| ensures !Evicted(Live(dev1), p2, i) {
      NothingMisplaced(dev0, p1, dev1, p2, t, i);
    }
    OnePassExact(dev1, p2, dev2);
    ListingAsMap(p2, t);
  }

  lemma NothingMisplaced(dev0: Device, p1: seq<Peer>, dev1: Device, p2: seq<Peer>, t: Table, i: nat)
    requires Lists(p1, t) && Lists(p2, t) && PassResult(dev0, p1, dev1) && i < |p2|
    ensures p2[i].publicKey in Live(dev1) ==> Live(dev1)[p2[i].publicKey] == p2[i].allowedIp
  {
    var p := p2[i];
    assert p == Peer(p.publicKey, p.allowedIp) && p in p2;
    assert p in p1;
    var j :| 0 <= j < |p1| && p1[j] == p;
  }

  /** The interface routes exactly the bundle's addresses to exactly the bundle's keys. */
  ghost predicate LiveMirrors(live: map<Key, Addr>, children: seq<Child>) {
    && (forall k :: k in live <==> Mentions(children, k))
    && (forall c :: c in children && Usable(c) ==>
          c.publicKey in live && live[c.publicKey] == NormalizeAllowedIp(c.wireguardIp))
  }
}
