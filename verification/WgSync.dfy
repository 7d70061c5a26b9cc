/**
 * Driving the live wg0 interface to a desired peer list (internal/tunnel/wgconf.go).
 *
 * The diff is computed against `liveByKey`, a snapshot read once and never refreshed after a
 * `wg set`. A pass may therefore remove a peer it has itself just configured; the lemmas below
 * say exactly which ones, and that a second pass always repairs it.
 */
module WgSync {
  import opened Common
  import opened Addresses

  type Key = string
  type Addr = string

  datatype Peer = Peer(publicKey: Key, allowedIp: Addr)
  datatype Command = SetPeer(key: Key, addr: Addr) | RemovePeer(key: Key)

  /** The kernel's peers. `None` is a peer without allowed addresses, shown as "(none)". */
  type Device = map<Key, Option<Addr>>

  /** Cryptokey routing: an address belongs to at most one peer. */
  ghost predicate Routable(dev: Device) {
    forall a, b :: a in dev && b in dev && dev[a].Some? && dev[a] == dev[b] ==> a == b
  }

  /** What `readLivePeers` sees: peers without an address are invisible. */
  function Live(dev: Device): map<Key, Addr> {
    map k | k in dev && dev[k].Some? :: dev[k].value
  }

  /** The kernel's reaction: configuring an address takes it away from any other holder. */
  function Apply(dev: Device, c: Command): Device {
    match c
    case RemovePeer(k) => dev - {k}
    case SetPeer(k, a) => (map j | j in dev :: if dev[j] == Some(a) then None else dev[j])[k := Some(a)]
  }

  lemma ApplyKeepsRoutable(dev: Device, c: Command)
    requires Routable(dev)
    ensures Routable(Apply(dev, c))
  {}

  function Normalized(desired: seq<Peer>): (w: seq<Peer>)
    ensures |w| == |desired|
    ensures forall i :: 0 <= i < |w| ==>
      w[i] == Peer(desired[i].publicKey, NormalizeAllowedIp(desired[i].allowedIp))
  {
    seq(|desired|, i requires 0 <= i < |desired| =>
      Peer(desired[i].publicKey, NormalizeAllowedIp(desired[i].allowedIp)))
  }

  /** Both columns of the peer table are unique. */
  ghost predicate Distinct(w: seq<Peer>) {
    forall i, j :: 0 <= i < j < |w| ==>
      w[i].publicKey != w[j].publicKey && w[i].allowedIp != w[j].allowedIp
  }

  ghost predicate Wants(w: seq<Peer>, k: Key) {
    exists i :: 0 <= i < |w| && w[i].publicKey == k
  }

  function AsMap(w: seq<Peer>): (m: map<Key, Addr>)
    ensures forall k :: k in m ==> Peer(k, m[k]) in w
    ensures forall i :: 0 <= i < |w| ==> w[i].publicKey in m
  {
    if w == [] then map[]
    else
      var m := AsMap(w[..|w| - 1]);
      assert forall i :: 0 <= i < |w| - 1 ==> w[..|w| - 1][i] == w[i];
      m[w[|w| - 1].publicKey := w[|w| - 1].allowedIp]
  }

  /** Peer i held, before the pass, the address of a peer listed after it and before `n`. */
  ghost predicate EvictedUpTo(live: map<Key, Addr>, w: seq<Peer>, n: nat, i: nat)
    requires i < n <= |w|
  {
    w[i].publicKey in live && exists j :: i < j < n && live[w[i].publicKey] == w[j].allowedIp
  }

  ghost predicate Evicted(live: map<Key, Addr>, w: seq<Peer>, i: nat)
    requires i < |w|
  {
    EvictedUpTo(live, w, |w|, i)
  }

  /** The exact effect of one successful pass; it determines `after` completely. */
  ghost predicate PassResult(before: Device, w: seq<Peer>, after: Device) {
    && (forall i :: 0 <= i < |w| ==>
          (w[i].publicKey in after <==> !Evicted(Live(before), w, i)))
    && (forall i :: 0 <= i < |w| && w[i].publicKey in after ==>
          after[w[i].publicKey] == Some(w[i].allowedIp))
    && (forall k :: !Wants(w, k) ==>
          (k in after <==> k in before && before[k].None?))
    && (forall k :: k in after && !Wants(w, k) ==> after[k].None?)
  }

  /** A command that the documented diff allows: never one for a peer that is already right. */
  ghost predicate Warranted(live: map<Key, Addr>, w: seq<Peer>, c: Command) {
    && (c.key in live ==> Peer(c.key, live[c.key]) !in w)
    && (c.SetPeer? ==> Peer(c.key, c.addr) in w)
    && (c.RemovePeer? ==> c.key in live)
  }

  /** The address the first `n` entries configure for `k`. */
  ghost function Configured(w: seq<Peer>, n: nat, k: Key): Option<Addr>
    requires n <= |w|
  {
    if n == 0 then None
    else if w[n - 1].publicKey == k then Some(w[n - 1].allowedIp)
    else Configured(w, n - 1, k)
  }

  /** One of the first `n` entries removed `k` to free its old address, and none set it again. */
  ghost predicate Gone(live: map<Key, Addr>, w: seq<Peer>, n: nat, k: Key)
    requires n <= |w|
  {
    n > 0 && w[n - 1].publicKey != k
    && (Gone(live, w, n - 1, k) || Get(live, k) == Some(w[n - 1].allowedIp))
  }

  /** `liveByKey` after the first `n` entries. */
  ghost function Snapshot(live: map<Key, Addr>, w: seq<Peer>, n: nat, k: Key): Option<Addr>
    requires n <= |w|
  {
    if n == 0 then Get(live, k)
    else if Get(live, k) == Some(w[n - 1].allowedIp) && w[n - 1].publicKey != k then None
    else Snapshot(live, w, n - 1, k)
  }

  /** The kernel's entry for `k` after the first `n` entries. */
  ghost function Entry(dev0: Device, w: seq<Peer>, n: nat, k: Key): Option<Option<Addr>>
    requires n <= |w|
  {
    if Gone(Live(dev0), w, n, k) then None
    else if Configured(w, n, k).Some? then Some(Configured(w, n, k))
    else Get(dev0, k)
  }

  ghost predicate Progress(dev0: Device, w: seq<Peer>, n: nat, dev: Device, snapshot: map<Key, Addr>)
    requires n <= |w|
  {
    && (forall k :: Get(dev, k) == Entry(dev0, w, n, k))
    && (forall k :: Get(snapshot, k) == Snapshot(Live(dev0), w, n, k))
  }

  lemma {:induction false} ConfiguredFrom(w: seq<Peer>, n: nat, k: Key)
    requires n <= |w|
    ensures Configured(w, n, k).Some? ==>
      exists m :: 0 <= m < n && w[m] == Peer(k, Configured(w, n, k).value)
    ensures Configured(w, n, k).None? ==> forall m :: 0 <= m < n ==> w[m].publicKey != k
  {
    if n > 0 { ConfiguredFrom(w, n - 1, k); }
  }

  lemma {:induction false} SnapshotFacts(live: map<Key, Addr>, w: seq<Peer>, n: nat, k: Key)
    requires n <= |w|
    ensures Snapshot(live, w, n, k).Some? ==> Snapshot(live, w, n, k) == Get(live, k)
    ensures Snapshot(live, w, n, k).None? && k in live ==> exists m :: 0 <= m < n && w[m].allowedIp == live[k]
    ensures Gone(live, w, n, k) ==> k in live && Snapshot(live, w, n, k).None?
    ensures Configured(w, n, k).None? && k in live && Snapshot(live, w, n, k).None? ==> Gone(live, w, n, k)
  {
    if n > 0 {
      SnapshotFacts(live, w, n - 1, k);
      if Get(live, k) == Some(w[n - 1].allowedIp) { assert w[n - 1].allowedIp == live[k]; }
    }
  }

  lemma SkipKeepsProgress(dev0: Device, w: seq<Peer>, n: nat, dev: Device, snapshot: map<Key, Addr>)
    requires Routable(dev0) && Distinct(w) && n < |w| && Progress(dev0, w, n, dev, snapshot)
    requires Get(snapshot, w[n].publicKey) == Some(w[n].allowedIp)
    ensures Progress(dev0, w, n + 1, dev, snapshot)
  {
    var live := Live(dev0);
    var p := w[n];
    assert Get(snapshot, p.publicKey) == Snapshot(live, w, n, p.publicKey);
    SnapshotFacts(live, w, n, p.publicKey);
    ConfiguredFrom(w, n, p.publicKey);
    forall k ensures Get(dev, k) == Entry(dev0, w, n + 1, k) {
      assert Get(dev, k) == Entry(dev0, w, n, k);
    }
    forall k ensures Get(snapshot, k) == Snapshot(live, w, n + 1, k) {
      assert Get(snapshot, k) == Snapshot(live, w, n, k);
    }
  }

  /** The key other than the entry's own that the snapshot shows at the entry's address. */
  ghost predicate Holder(snapshot: map<Key, Addr>, p: Peer, k: Key) {
    Get(snapshot, k) == Some(p.allowedIp) && k != p.publicKey
  }

  /** Any peer at the address is the holder in the snapshot: the kernel steals from nobody else. */
  lemma HolderInSnapshot(dev0: Device, w: seq<Peer>, n: nat, dev: Device, snapshot: map<Key, Addr>, k: Key)
    requires Routable(dev0) && Distinct(w) && n < |w| && Progress(dev0, w, n, dev, snapshot)
    requires k != w[n].publicKey
    requires Get(dev, k) == Some(Some(w[n].allowedIp)) || Get(Live(dev0), k) == Some(w[n].allowedIp)
    ensures Holder(snapshot, w[n], k)
  {
    assert Get(dev, k) == Entry(dev0, w, n, k);
    assert Get(snapshot, k) == Snapshot(Live(dev0), w, n, k);
    ConfiguredFrom(w, n, k);
    SnapshotFacts(Live(dev0), w, n, k);
  }

  /** The iteration that does send commands: the holder, if any, is removed, then the peer is set. */
  lemma SetKeepsProgress(dev0: Device, w: seq<Peer>, n: nat, dev: Device, snapshot: map<Key, Addr>,
                         removed: set<Key>, dev': Device)
    requires Routable(dev0) && Distinct(w) && n < |w| && Progress(dev0, w, n, dev, snapshot)
    requires Get(snapshot, w[n].publicKey) != Some(w[n].allowedIp)
    requires forall k :: k in removed <==> Holder(snapshot, w[n], k)
    requires dev' == Apply(dev - removed, SetPeer(w[n].publicKey, w[n].allowedIp))
    ensures Progress(dev0, w, n + 1, dev', snapshot - removed)
  {
    var p := w[n];
    forall k ensures Get(dev', k) == Entry(dev0, w, n + 1, k) {
      assert Get(dev, k) == Entry(dev0, w, n, k);
      if k != p.publicKey && (Get(dev, k) == Some(Some(p.allowedIp)) || Get(Live(dev0), k) == Some(p.allowedIp)) {
        HolderInSnapshot(dev0, w, n, dev, snapshot, k);
      }
      assert Get(snapshot, k) == Snapshot(Live(dev0), w, n, k);
      SnapshotFacts(Live(dev0), w, n, k);
    }
    forall k ensures Get(snapshot - removed, k) == Snapshot(Live(dev0), w, n + 1, k) {
      assert Get(snapshot, k) == Snapshot(Live(dev0), w, n, k);
      SnapshotFacts(Live(dev0), w, n, k);
      if k != p.publicKey && Get(Live(dev0), k) == Some(p.allowedIp) {
        HolderInSnapshot(dev0, w, n, dev, snapshot, k);
      }
    }
  }

  lemma HolderUnique(dev0: Device, w: seq<Peer>, n: nat, dev: Device, snapshot: map<Key, Addr>, k: Key, j: Key)
    requires Routable(dev0) && n < |w| && Progress(dev0, w, n, dev, snapshot)
    requires Holder(snapshot, w[n], k) && Holder(snapshot, w[n], j)
    ensures j == k
  {
    assert Get(snapshot, k) == Snapshot(Live(dev0), w, n, k);
    assert Get(snapshot, j) == Snapshot(Live(dev0), w, n, j);
    SnapshotFacts(Live(dev0), w, n, k);
    SnapshotFacts(Live(dev0), w, n, j);
    assert dev0[j] == dev0[k];
  }

  lemma {:induction false} GoneIsEvicted(live: map<Key, Addr>, w: seq<Peer>, n: nat, i: nat)
    requires Distinct(w) && i < n <= |w|
    ensures Configured(w, n, w[i].publicKey) == Some(w[i].allowedIp)
    ensures Gone(live, w, n, w[i].publicKey) <==> EvictedUpTo(live, w, n, i)
  {
    if n > i + 1 {
      GoneIsEvicted(live, w, n - 1, i);
      assert EvictedUpTo(live, w, n, i) <==>
        EvictedUpTo(live, w, n - 1, i) || Get(live, w[i].publicKey) == Some(w[n - 1].allowedIp);
    }
  }

  /** The add/update loop is complete and the unwanted keys of the snapshot are gone. */
  lemma PassComplete(dev0: Device, w: seq<Peer>, dev: Device, snapshot: map<Key, Addr>, after: Device)
    requires Distinct(w) && Progress(dev0, w, |w|, dev, snapshot)
    requires forall k :: Get(after, k) == if Wants(w, k) || k !in snapshot then Get(dev, k) else None
    ensures PassResult(dev0, w, after)
  {
    var live := Live(dev0);
    forall i | 0 <= i < |w|
      ensures w[i].publicKey in after <==> !Evicted(live, w, i)
      ensures w[i].publicKey in after ==> after[w[i].publicKey] == Some(w[i].allowedIp)
    {
      GoneIsEvicted(live, w, |w|, i);
      var k := w[i].publicKey;
      assert Wants(w, k);
      assert Get(after, k) == Get(dev, k) == Entry(dev0, w, |w|, k);
    }
    forall k | !Wants(w, k)
      ensures k in after <==> k in dev0 && dev0[k].None?
      ensures k in after ==> after[k].None?
    {
      ConfiguredFrom(w, |w|, k);
      SnapshotFacts(live, w, |w|, k);
      assert Get(snapshot, k) == Snapshot(live, w, |w|, k);
      assert Get(dev, k) == Entry(dev0, w, |w|, k);
      assert Get(after, k) == if k in snapshot then None else Get(dev, k);
    }
  }

  class Interface {
    var dev: Device
    var sent: seq<Command>

    /** `wg set`: any invocation may fail, and then changes nothing. */
    method Run(c: Command) returns (ok: bool)
      modifies this
      ensures ok ==> dev == Apply(old(dev), c) && sent == old(sent) + [c]
      ensures !ok ==> dev == old(dev) && sent == old(sent)
    {
      if * {
        return false;
      }
      dev, sent := Apply(dev, c), sent + [c];
      return true;
    }

    method SyncPeersDiff(desired: seq<Peer>) returns (ok: bool)
      requires Routable(dev) && Distinct(Normalized(desired))
      modifies this
      ensures Routable(dev)
      ensures ok ==> PassResult(old(dev), Normalized(desired), dev)
      ensures old(sent) <= sent
      ensures forall c :: c in sent[|old(sent)|..] ==> Warranted(Live(old(dev)), Normalized(desired), c)
    {
      ghost var w := Normalized(desired);
      ghost var dev0 := dev;
      var desiredKeys: set<Key> := set p | p in desired :: p.publicKey;
      var liveByKey := Live(dev);
      NothingDone(dev, w);
      KeysAreWanted(desired);
      var n := 0;
      while n < |desired|
        invariant 0 <= n <= |desired|
        invariant Routable(dev)
        invariant Progress(dev0, w, n, dev, liveByKey)
        invariant old(sent) <= sent
        invariant forall c :: c in sent[|old(sent)|..] ==> Warranted(Live(dev0), w, c)
      {
        var done;
        liveByKey, done := AddOrUpdate(desired[n], liveByKey, dev0, w, n);
        if !done { return false; }
        n := n + 1;
      }
      ok := RemoveOrphans(liveByKey, desiredKeys, dev0, w);
    }

    /** One iteration of the add/update loop: a peer already right is left alone. */
    method AddOrUpdate(p: Peer, liveByKey: map<Key, Addr>, ghost dev0: Device, ghost w: seq<Peer>, ghost n: nat)
      returns (liveByKey': map<Key, Addr>, ok: bool)
      requires Routable(dev) && Routable(dev0) && Distinct(w)
      requires n < |w| && w[n] == Peer(p.publicKey, NormalizeAllowedIp(p.allowedIp))
      requires Progress(dev0, w, n, dev, liveByKey)
      modifies this
      ensures Routable(dev)
      ensures ok ==> Progress(dev0, w, n + 1, dev, liveByKey')
      ensures old(sent) <= sent
      ensures forall c :: c in sent[|old(sent)|..] ==> Warranted(Live(dev0), w, c)
    {
      var allowedIp := NormalizeAllowedIp(p.allowedIp);
      if p.publicKey in liveByKey && liveByKey[p.publicKey] == allowedIp {
        SkipKeepsProgress(dev0, w, n, dev, liveByKey);
        return liveByKey, true;
      }
      liveByKey', ok := Configure(p.publicKey, allowedIp, liveByKey, dev0, w, n);
    }

    /** One add or update: free the address in the snapshot's eyes, then set the peer. */
    method Configure(key: Key, allowedIp: Addr, liveByKey: map<Key, Addr>,
                     ghost dev0: Device, ghost w: seq<Peer>, ghost n: nat)
      returns (liveByKey': map<Key, Addr>, ok: bool)
      requires Routable(dev) && Routable(dev0) && Distinct(w)
      requires n < |w| && w[n] == Peer(key, allowedIp) && Progress(dev0, w, n, dev, liveByKey)
      requires Get(liveByKey, key) != Some(allowedIp)
      modifies this
      ensures Routable(dev)
      ensures ok ==> Progress(dev0, w, n + 1, dev, liveByKey')
      ensures old(sent) <= sent
      ensures forall c :: c in sent[|old(sent)|..] ==> Warranted(Live(dev0), w, c)
    {
      liveByKey' := liveByKey;
      NotYetRight(dev0, w, n, dev, liveByKey);
      ghost var removed: set<Key> := {};
      if k :| k in liveByKey && liveByKey[k] == allowedIp && k != key {
        forall j | Holder(liveByKey, w[n], j) ensures j == k {
          HolderUnique(dev0, w, n, dev, liveByKey, k, j);
        }
        HolderIsWrong(dev0, w, n, dev, liveByKey, k);
        ApplyKeepsRoutable(dev, RemovePeer(k));
        ok := Run(RemovePeer(k));
        if !ok { return; }
        liveByKey', removed := liveByKey - {k}, {k};
      }
      assert dev == old(dev) - removed;
      assert liveByKey' == liveByKey - removed;
      ApplyKeepsRoutable(dev, SetPeer(key, allowedIp));
      ok := Run(SetPeer(key, allowedIp));
      if !ok { return; }
      SetKeepsProgress(dev0, w, n, old(dev), liveByKey, removed, dev);
    }

    /** The closing loop: every key left in the snapshot that nobody wants is removed. */
    method RemoveOrphans(liveByKey: map<Key, Addr>, desiredKeys: set<Key>,
                         ghost dev0: Device, ghost w: seq<Peer>) returns (ok: bool)
      requires Routable(dev) && Distinct(w) && Progress(dev0, w, |w|, dev, liveByKey)
      requires forall k :: k in desiredKeys <==> Wants(w, k)
      modifies this
      ensures Routable(dev)
      ensures ok ==> PassResult(dev0, w, dev)
      ensures old(sent) <= sent
      ensures forall c :: c in sent[|old(sent)|..] ==> Warranted(Live(dev0), w, c)
    {
      var pending := liveByKey.Keys;
      while pending != {}
        invariant pending <= liveByKey.Keys
        invariant Routable(dev)
        invariant forall k :: Get(dev, k) ==
                    (if k in desiredKeys || k in pending || k !in liveByKey then Get(old(dev), k) else None)
        invariant old(sent) <= sent
        invariant forall c :: c in sent[|old(sent)|..] ==> Warranted(Live(dev0), w, c)
        decreases pending
      {
        var k :| k in pending;
        pending := pending - {k};
        if k !in desiredKeys {
          OrphanIsWarranted(dev0, w, old(dev), liveByKey, k);
          ApplyKeepsRoutable(dev, RemovePeer(k));
          var removed := Run(RemovePeer(k));
          if !removed { return false; }
        }
      }
      PassComplete(dev0, w, old(dev), liveByKey, dev);
      return true;
    }
  }

  lemma NothingDone(dev: Device, w: seq<Peer>)
    ensures Progress(dev, w, 0, dev, Live(dev))
  {}

  lemma KeysAreWanted(desired: seq<Peer>)
    ensures forall k :: k in (set p | p in desired :: p.publicKey) <==> Wants(Normalized(desired), k)
  {
    forall k | k in (set p | p in desired :: p.publicKey) ensures Wants(Normalized(desired), k) {
      var p :| p in desired && p.publicKey == k;
      var i :| 0 <= i < |desired| && desired[i] == p;
      assert Normalized(desired)[i].publicKey == k;
    }
    forall k | Wants(Normalized(desired), k) ensures k in (set p | p in desired :: p.publicKey) {
      var i :| 0 <= i < |desired| && Normalized(desired)[i].publicKey == k;
      assert desired[i] in desired;
    }
  }

  lemma NotYetRight(dev0: Device, w: seq<Peer>, n: nat, dev: Device, snapshot: map<Key, Addr>)
    requires Distinct(w) && n < |w| && Progress(dev0, w, n, dev, snapshot)
    requires Get(snapshot, w[n].publicKey) != Some(w[n].allowedIp)
    ensures Warranted(Live(dev0), w, SetPeer(w[n].publicKey, w[n].allowedIp))
  {
    assert Get(snapshot, w[n].publicKey) == Snapshot(Live(dev0), w, n, w[n].publicKey);
    SnapshotFacts(Live(dev0), w, n, w[n].publicKey);
  }

  lemma HolderIsWrong(dev0: Device, w: seq<Peer>, n: nat, dev: Device, snapshot: map<Key, Addr>, k: Key)
    requires Distinct(w) && n < |w| && Progress(dev0, w, n, dev, snapshot) && Holder(snapshot, w[n], k)
    ensures Warranted(Live(dev0), w, RemovePeer(k))
  {
    assert Get(snapshot, k) == Snapshot(Live(dev0), w, n, k);
    SnapshotFacts(Live(dev0), w, n, k);
  }

  lemma OrphanIsWarranted(dev0: Device, w: seq<Peer>, dev: Device, snapshot: map<Key, Addr>, k: Key)
    requires Progress(dev0, w, |w|, dev, snapshot) && k in snapshot && !Wants(w, k)
    ensures Warranted(Live(dev0), w, RemovePeer(k))
  {
    assert Get(snapshot, k) == Snapshot(Live(dev0), w, |w|, k);
    SnapshotFacts(Live(dev0), w, |w|, k);
  }

  /** One pass suffices exactly when it evicts nobody. */
  lemma OnePassExact(before: Device, w: seq<Peer>, after: Device)
    requires Distinct(w) && PassResult(before, w, after)
    ensures Live(after) == AsMap(w) <==> forall i :: 0 <= i < |w| ==> !Evicted(Live(before), w, i)
  {
    if i :| 0 <= i < |w| && Evicted(Live(before), w, i) {
      assert w[i].publicKey in AsMap(w) && w[i].publicKey !in Live(after);
    } else {
      NobodyEvicted(before, w, after);
    }
  }

  lemma NobodyEvicted(before: Device, w: seq<Peer>, after: Device)
    requires Distinct(w) && PassResult(before, w, after)
    requires forall i :: 0 <= i < |w| ==> !Evicted(Live(before), w, i)
    ensures Live(after) == AsMap(w)
  {
    var live, wanted := Live(after), AsMap(w);
    forall k ensures Get(live, k) == Get(wanted, k) {
      if k in wanted {
        KeptKey(before, w, after, k);
      } else if k in live {
        LiveIsWanted(before, w, after, k);
      }
    }
    SameMap(live, wanted);
  }

  lemma SameMap(a: map<Key, Addr>, b: map<Key, Addr>)
    requires forall k :: Get(a, k) == Get(b, k)
    ensures a == b
  {
    forall k | k in a ensures k in b && a[k] == b[k] { assert Get(a, k) == Get(b, k); }
    forall k | k in b ensures k in a { assert Get(a, k) == Get(b, k); }
  }

  lemma KeptKey(before: Device, w: seq<Peer>, after: Device, k: Key)
    requires PassResult(before, w, after) && k in AsMap(w)
    requires forall i :: 0 <= i < |w| ==> !Evicted(Live(before), w, i)
    ensures Get(Live(after), k) == Some(AsMap(w)[k])
  {
    var i :| 0 <= i < |w| && w[i] == Peer(k, AsMap(w)[k]);
    KeptPeer(before, w, after, i);
  }

  lemma KeptPeer(before: Device, w: seq<Peer>, after: Device, i: nat)
    requires PassResult(before, w, after) && i < |w| && !Evicted(Live(before), w, i)
    ensures Get(Live(after), w[i].publicKey) == Some(w[i].allowedIp)
  {}

  lemma LiveIsWanted(before: Device, w: seq<Peer>, after: Device, k: Key)
    requires PassResult(before, w, after) && k in Live(after)
    ensures Wants(w, k)
  {}

  /** Whatever the interface held, two successful passes make it hold the desired peers. */
  lemma TwoPassesConverge(dev0: Device, w: seq<Peer>, dev1: Device, dev2: Device)
    requires Distinct(w) && PassResult(dev0, w, dev1) && PassResult(dev1, w, dev2)
    ensures Live(dev2) == AsMap(w)
  {
    forall i | 0 <= i < |w| ensures !Evicted(Live(dev1), w, i) {}
    OnePassExact(dev1, w, dev2);
  }

  /** A desired peer with a bare address: unless evicted it ends with "/32", and live with it, it is left alone. */
  lemma BarePeer(before: Device, desired: seq<Peer>, after: Device, i: nat, c: Command)
    requires PassResult(before, Normalized(desired), after) && i < |desired| && Bare(desired[i].allowedIp)
    ensures desired[i].publicKey in after ==> after[desired[i].publicKey] == Some(desired[i].allowedIp + "/32")
    ensures c.key == desired[i].publicKey && Get(Live(before), c.key) == Some(desired[i].allowedIp + "/32") ==>
              !Warranted(Live(before), Normalized(desired), c)
  {
    BareNormalizes(desired[i].allowedIp);
    assert Normalized(desired)[i] == Peer(desired[i].publicKey, desired[i].allowedIp + "/32");
  }

  /** Once converged, a pass sends nothing: no handshake is ever disturbed again. */
  lemma ConvergedIsQuiet(dev: Device, w: seq<Peer>, c: Command)
    requires Distinct(w) && Live(dev) == AsMap(w)
    ensures !Warranted(Live(dev), w, c)
  {
    if c.key in Live(dev) {
      assert Peer(c.key, Live(dev)[c.key]) in w;
    } else if c.SetPeer? {
      assert forall i :: 0 <= i < |w| ==> w[i].publicKey != c.key;
    }
  }

  /** Two peers swapping addresses: the first pass loses one of them. */
  lemma SwapNeedsTwoPasses(a: Key, b: Key, x: Addr, y: Addr, after: Device)
    requires a != b && x != y
    requires PassResult(map[a := Some(x), b := Some(y)], [Peer(a, y), Peer(b, x)], after)
    ensures a !in after && after == map[b := Some(x)]
  {
    var w := [Peer(a, y), Peer(b, x)];
    var live := Live(map[a := Some(x), b := Some(y)]);
    assert live[w[0].publicKey] == w[1].allowedIp;
    assert Evicted(live, w, 0) && !Evicted(live, w, 1);
    assert w[0].publicKey == a && w[1].publicKey == b;
    forall k | k in after ensures k == b {
      if !Wants(w, k) {}
    }
  }
}
