/**
 * The bounded cache of per-host leaf certificates (internal/sinkhole/sinkhole_tls.go): a linked
 * list in recency order plus a map into it, refining a pure history of requested hosts.
 */
module LeafCache {
  import opened Common

  /** Minting is abstract; a certificate only remembers the host it was issued for. */
  datatype Cert = Cert(host: string, serial: nat)

  // ---------------------------------------------------------------- the history specification

  function Remove<T(==)>(s: seq<T>, x: T): (r: seq<T>)
    ensures forall y :: y in r ==> y in s && y != x
    ensures forall y :: y in s && y != x ==> y in r
  {
    if s == [] then [] else (if s[0] == x then [] else [s[0]]) + Remove(s[1..], x)
  }

  function Take<T>(s: seq<T>, n: nat): seq<T> {
    if |s| <= n then s else s[..n]
  }

  /** The distinct hosts of a history, most recently requested first. */
  function Recent(history: seq<string>): seq<string> {
    if history == [] then []
    else
      var h := history[|history| - 1];
      [h] + Remove(Recent(history[..|history| - 1]), h)
  }

  /** When `h` was last requested, or -1. */
  function LastRequest(history: seq<string>, h: string): (i: int)
    ensures -1 <= i < |history|
    ensures i >= 0 <==> h in history
    ensures i >= 0 ==> history[i] == h
  {
    if history == [] then -1
    else if history[|history| - 1] == h then |history| - 1
    else
      assert history == history[..|history| - 1] + [history[|history| - 1]];
      LastRequest(history[..|history| - 1], h)
  }

  ghost predicate Descending(history: seq<string>, s: seq<string>) {
    forall i, j :: 0 <= i < j < |s| ==> LastRequest(history, s[i]) > LastRequest(history, s[j])
  }

  /** The hosts of the history, each once, the later last request first. */
  ghost predicate RecencyOrder(history: seq<string>, s: seq<string>) {
    (forall h :: h in s <==> h in history) && Descending(history, s)
  }

  lemma {:induction false} RemoveDescending(history: seq<string>, s: seq<string>, x: string)
    requires Descending(history, s)
    ensures Descending(history, Remove(s, x))
  {
    if s != [] {
      var tail := s[1..];
      assert Descending(history, tail);
      RemoveDescending(history, tail, x);
      PrependDescending(history, s[0], Remove(tail, x), tail);
    }
  }

  lemma PrependDescending(history: seq<string>, h: string, rest: seq<string>, tail: seq<string>)
    requires Descending(history, rest) && Descending(history, [h] + tail) && forall y :: y in rest ==> y in tail
    ensures Descending(history, [h] + rest)
  {
    var s, t := [h] + rest, [h] + tail;
    forall j | 0 <= j < |rest| ensures LastRequest(history, h) > LastRequest(history, rest[j]) {
      assert rest[j] in tail;
      var m :| 0 <= m < |tail| && tail[m] == rest[j];
      assert t[0] == h && t[m + 1] == rest[j];
    }
    assert forall j :: 0 < j < |s| ==> s[j] == rest[j - 1];
  }

  lemma RequestKeepsOrder(history: seq<string>, s: seq<string>, h: string)
    requires RecencyOrder(history, s)
    ensures RecencyOrder(history + [h], [h] + Remove(s, h))
  {
    var rest := Remove(s, h);
    RemoveDescending(history, s, h);
    var s' := [h] + rest;
    assert (history + [h])[..|history|] == history;
    assert LastRequest(history + [h], h) == |history|;
    forall i | 0 <= i < |rest| ensures LastRequest(history + [h], rest[i]) == LastRequest(history, rest[i]) {
      assert rest[i] in rest;
    }
    forall i, j | 0 <= i < j < |s'|
      ensures LastRequest(history + [h], s'[i]) > LastRequest(history + [h], s'[j])
    {
      assert s'[j] == rest[j - 1];
      if i > 0 { assert s'[i] == rest[i - 1]; }
    }
  }

  lemma {:induction false} RecentIsRecencyOrder(history: seq<string>)
    ensures RecencyOrder(history, Recent(history)) && NoDup(Recent(history))
  {
    if history != [] {
      var n := |history| - 1;
      RecentIsRecencyOrder(history[..n]);
      RequestKeepsOrder(history[..n], Recent(history[..n]), history[n]);
      assert history[..n] + [history[n]] == history;
    }
  }

  lemma {:induction false} TakeRemove(s: seq<string>, x: string, n: nat)
    requires NoDup(s) && n > 0
    ensures x in Take(s, n) ==> Take(Remove(s, x), n - 1) == Remove(Take(s, n), x)
    ensures x !in Take(s, n) ==> Take(Remove(s, x), n - 1) == Take(s, n - 1)
    decreases s
  {
    if s != [] {
      var tail := s[1..];
      TakeCons(s, n);
      if s[0] == x {
        TakeRemoveFirst(x, tail, n);
      } else if n > 1 {
        TakeRemove(tail, x, n - 1);
        TakeCons(s, n - 1);
        TakePushed(s[0], Remove(tail, x), n - 1);
        RemovePushed(s[0], Take(tail, n - 1), x);
      }
    }
  }

  lemma RemovePushed(h: string, s: seq<string>, x: string)
    ensures Remove([h] + s, x) == (if h == x then [] else [h]) + Remove(s, x)
  {
    assert ([h] + s)[1..] == s;
  }

  lemma TakeRemoveFirst(x: string, tail: seq<string>, n: nat)
    requires x !in tail && n > 0
    ensures Take(Remove([x] + tail, x), n - 1) == Remove([x] + Take(tail, n - 1), x)
  {
    RemovePushed(x, tail, x);
    RemovePushed(x, Take(tail, n - 1), x);
    RemoveAbsent(tail, x);
    RemoveAbsent(Take(tail, n - 1), x);
  }

  lemma TakeCons<T>(s: seq<T>, n: nat)
    requires s != [] && n > 0
    ensures Take(s, n) == [s[0]] + Take(s[1..], n - 1)
  {}

  lemma {:induction false} RemoveAbsent<T>(s: seq<T>, x: T)
    requires x !in s
    ensures Remove(s, x) == s
  {
    if s != [] { RemoveAbsent(s[1..], x); }
  }

  /** One more request, seen through the window of the `max` most recent hosts. */
  lemma RequestMovesToFront(history: seq<string>, h: string, max: nat)
    ensures var before := Take(Recent(history), max);
            Take(Recent(history + [h]), max) ==
            if h in before then [h] + Remove(before, h) else Take([h] + before, max)
  {
    var all := Recent(history);
    assert (history + [h])[..|history|] == history;
    assert Recent(history + [h]) == [h] + Remove(all, h);
    RecentIsRecencyOrder(history);
    WindowMoves(all, h, max);
  }

  lemma WindowMoves(all: seq<string>, h: string, max: nat)
    requires NoDup(all)
    ensures Take([h] + Remove(all, h), max) ==
            if h in Take(all, max) then [h] + Remove(Take(all, max), h) else Take([h] + Take(all, max), max)
  {
    if max > 0 {
      TakeRemove(all, h, max);
      TakePushed(h, Remove(all, h), max);
      TakePushed(h, Take(all, max), max);
      assert Take(Take(all, max), max - 1) == Take(all, max - 1);
    }
  }

  lemma TakePushed(h: string, s: seq<string>, n: nat)
    requires n > 0
    ensures Take([h] + s, n) == [h] + Take(s, n - 1)
  {
    TakeCons([h] + s, n);
    assert ([h] + s)[1..] == s;
  }

  // ---------------------------------------------------------------- the cache

  class Entry {
    const host: string
    var cert: Cert

    constructor (host: string, cert: Cert)
      ensures this.host == host && this.cert == cert
    {
      this.host, this.cert := host, cert;
    }
  }

  function Hosts(ll: seq<Entry>): (hs: seq<string>)
    ensures |hs| == |ll| && forall i :: 0 <= i < |ll| ==> hs[i] == ll[i].host
  {
    seq(|ll|, i requires 0 <= i < |ll| => ll[i].host)
  }

  lemma {:induction false} HostsRemove(ll: seq<Entry>, e: Entry)
    requires forall d :: d in ll && d.host == e.host ==> d == e
    ensures Hosts(Remove(ll, e)) == Remove(Hosts(ll), e.host)
  {
    if ll != [] {
      HostsRemove(ll[1..], e);
      assert Hosts(ll)[1..] == Hosts(ll[1..]);
      assert ll[0] in ll;
      if ll[0] == e {
        assert Remove(ll, e) == Remove(ll[1..], e);
        assert Remove(Hosts(ll), e.host) == Remove(Hosts(ll[1..]), e.host);
      } else {
        assert Hosts([ll[0]] + Remove(ll[1..], e)) == [ll[0].host] + Hosts(Remove(ll[1..], e));
      }
    }
  }

  /** The map's values are exactly the listed entries, each under its own host. */
  ghost predicate Agree(ll: seq<Entry>, items: map<string, Entry>) {
    && (forall e :: e in ll ==> e.host in items && items[e.host] == e)
    && (forall h :: h in items ==> items[h] in ll && items[h].host == h)
  }

  lemma FrontAgrees(ll: seq<Entry>, items: map<string, Entry>, el: Entry)
    requires Agree(ll, items) && el in ll
    ensures Agree([el] + Remove(ll, el), items)
    ensures el.host in Hosts(ll)
    ensures Hosts([el] + Remove(ll, el)) == [el.host] + Remove(Hosts(ll), el.host)
  {
    assert Hosts(Remove(ll, el)) == Remove(Hosts(ll), el.host) by { HostsRemove(ll, el); }
    assert el.host in Hosts(ll) by {
      var i :| 0 <= i < |ll| && ll[i] == el;
      assert Hosts(ll)[i] == el.host;
    }
    HostsPushed(Remove(ll, el), el);
    PushBackAgrees(ll, items, el);
  }

  lemma HostsPushed(ll: seq<Entry>, el: Entry)
    ensures Hosts([el] + ll) == [el.host] + Hosts(ll)
  {}

  lemma PushBackAgrees(ll: seq<Entry>, items: map<string, Entry>, el: Entry)
    requires Agree(ll, items) && el in ll
    ensures Agree([el] + Remove(ll, el), items)
  {
    var front := [el] + Remove(ll, el);
    assert forall e :: e in front <==> e == el || e in Remove(ll, el);
  }

  class LeafCache {
    const max: nat
    var ll: seq<Entry>
    var items: map<string, Entry>
    ghost var history: seq<string>

    /** List and map agree, and together they are the recent part of the history. */
    ghost predicate Valid()
      reads this, ll
    {
      && Agree(ll, items)
      && Hosts(ll) == Take(Recent(history), max)
      && (forall e :: e in ll ==> e.cert.host == e.host)
    }

    constructor (max: nat)
      ensures Valid() && history == [] && this.max == max && ll == []
    {
      this.max, ll, items, history := max, [], map[], [];
    }

    method Get(host: string) returns (cert: Option<Cert>)
      requires Valid()
      modifies this
      ensures Valid()
      ensures cert.Some? <==> host in old(Hosts(ll))
      ensures cert.Some? ==> host in items && cert.value == items[host].cert && cert.value.host == host
      ensures cert.Some? ==> history == old(history) + [host] && items == old(items)
      ensures cert.None? ==> history == old(history) && ll == old(ll) && items == old(items)
      ensures forall e :: e in ll <==> e in old(ll)
    {
      if host !in items {
        NotListed(host);
        return None;
      }
      var el := items[host];
      MoveToFront(el);
      return Some(el.cert);
    }

    lemma NotListed(host: string)
      requires Valid() && host !in items
      ensures host !in Hosts(ll)
    {
      forall i | 0 <= i < |ll| ensures Hosts(ll)[i] != host { assert ll[i] in ll; }
    }

    method MoveToFront(el: Entry)
      requires Valid() && el in ll
      modifies this
      ensures Valid()
      ensures history == old(history) + [el.host]
      ensures items == old(items) && ll == [el] + Remove(old(ll), el)
    {
      FrontAgrees(ll, items, el);
      RequestMovesToFront(history, el.host, max);
      history := history + [el.host];
      ll := [el] + Remove(ll, el);
    }

    method Put(host: string, cert: Cert)
      requires Valid() && cert.host == host
      modifies this, ll
      ensures Valid()
      ensures history == old(history) + [host]
      ensures max > 0 ==> host in items && items[host].cert == cert
      ensures forall e :: e in ll && e.host != host ==> e in old(ll) && e.cert == old(e.cert)
    {
      if host in items {
        var el := items[host];
        el.cert := cert;
        MoveToFront(el);
        return;
      }
      NotListed(host);
      RequestMovesToFront(history, host, max);
      var el := new Entry(host, cert);
      assert el !in ll;
      PushFront(el);
    }

    method PushFront(el: Entry)
      requires Valid() && el !in ll && el.host !in items && el.cert.host == el.host
      requires Take(Recent(history + [el.host]), max) == Take([el.host] + Hosts(ll), max)
      modifies this
      ensures Valid()
      ensures history == old(history) + [el.host]
      ensures max > 0 ==> el.host in items && items[el.host] == el
      ensures forall e :: e in ll ==> e == el || e in old(ll)
    {
      RecentIsRecencyOrder(history);
      ll, items := Pushed(ll, items, el, max);
      history := history + [el.host];
    }
  }

  /** The list and map after inserting at the front and dropping the tail beyond `max`. */
  method Pushed(ll: seq<Entry>, items: map<string, Entry>, el: Entry, max: nat)
    returns (ll': seq<Entry>, items': map<string, Entry>)
    requires Agree(ll, items) && NoDup(Hosts(ll)) && |ll| <= max && el.host !in items
    ensures Agree(ll', items') && Hosts(ll') == Take([el.host] + Hosts(ll), max)
    ensures forall e :: e in ll' ==> e == el || e in ll
    ensures max > 0 ==> el.host in items' && items'[el.host] == el
  {
    PushEvicts(ll, items, el, max);
    ll' := [el] + ll;
    items' := items[el.host := el];
    if |ll'| > max {
      var tail := ll'[|ll'| - 1];
      items' := items' - {tail.host};
      ll' := ll'[..|ll'| - 1];
    }
  }

  lemma PushEvicts(ll: seq<Entry>, items: map<string, Entry>, el: Entry, max: nat)
    requires Agree(ll, items) && NoDup(Hosts(ll)) && |ll| <= max
    requires el.host !in items
    ensures var pushed, known := [el] + ll, items[el.host := el];
            if |pushed| > max then
              && Agree(pushed[..|ll|], known - {pushed[|ll|].host})
              && Hosts(pushed[..|ll|]) == Take([el.host] + Hosts(ll), max)
              && (max > 0 ==> el.host != pushed[|ll|].host)
            else Agree(pushed, known) && Hosts(pushed) == Take([el.host] + Hosts(ll), max)
  {
    var pushed, known := [el] + ll, items[el.host := el];
    PushAgrees(ll, items, el);
    assert Hosts(pushed) == [el.host] + Hosts(ll);
    if |pushed| > max {
      DropAgrees(pushed, known);
      DropHosts(pushed, max);
      if max > 0 { assert pushed[|ll|] in ll; }
    }
  }

  lemma PushAgrees(ll: seq<Entry>, items: map<string, Entry>, el: Entry)
    requires Agree(ll, items) && el.host !in items && NoDup(Hosts(ll))
    ensures Agree([el] + ll, items[el.host := el]) && NoDup(Hosts([el] + ll))
  {
    assert forall i :: 0 <= i < |ll| ==> ll[i] in ll && Hosts(ll)[i] == ll[i].host;
    var hs := Hosts([el] + ll);
    assert hs == [el.host] + Hosts(ll);
  }

  lemma DropHosts(ll: seq<Entry>, max: nat)
    requires |ll| == max + 1
    ensures Hosts(ll[..max]) == Take(Hosts(ll), max)
  {}

  lemma DropAgrees(ll: seq<Entry>, items: map<string, Entry>)
    requires Agree(ll, items) && NoDup(Hosts(ll)) && ll != []
    ensures Agree(ll[..|ll| - 1], items - {ll[|ll| - 1].host})
  {
    var n := |ll| - 1;
    forall e | e in ll[..n] ensures e.host != ll[n].host {
      var i :| 0 <= i < n && ll[i] == e;
      assert Hosts(ll)[i] == e.host && Hosts(ll)[n] == ll[n].host;
    }
    assert forall e :: e in ll ==> e in ll[..n] || e == ll[n];
  }

  const DEFAULT_HOST: string := "safeswitch-block.local"

  class LeafMinter {
    const cache: LeafCache

    constructor (cache: LeafCache)
      ensures this.cache == cache
    {
      this.cache := cache;
    }

    function Served(serverName: string): string {
      if serverName == "" then DEFAULT_HOST else serverName
    }

    /** `minted` is what minting would give this time, `None` if it fails. */
    method GetCertificate(serverName: string, minted: Option<Cert>) returns (cert: Option<Cert>)
      requires cache.Valid()
      requires minted.Some? ==> minted.value.host == Served(serverName)
      modifies cache, cache.ll
      ensures cache.Valid()
      ensures cert.Some? ==> cert.value.host == if serverName != "" then serverName else "safeswitch-block.local"
      ensures cache.history == old(cache.history) + (if cert.Some? then [Served(serverName)] else [])
      ensures cert.None? <==> Served(serverName) !in old(Hosts(cache.ll)) && minted.None?
      ensures Served(serverName) !in old(cache.items) ==> cert == minted
      ensures Served(serverName) in old(cache.items) ==> cert == Some(old(cache.items[Served(serverName)].cert))
    {
      var host := Served(serverName);
      cert := cache.Get(host);
      if cert.Some? { return; }
      if minted.None? { return None; }
      cache.Put(host, minted.value);
      return minted;
    }
  }

  /**
   * At every point of every run of requests the cached hosts are the `max` most recently requested
   * distinct ones, most recent first.
   */
  lemma CacheIsRecentWindow(cache: LeafCache)
    requires cache.Valid()
    ensures exists all :: RecencyOrder(cache.history, all) &&
              Hosts(cache.ll) == if |all| <= cache.max then all else all[..cache.max]
    ensures cache.items.Keys == set h | h in Hosts(cache.ll)
  {
    RecentIsRecencyOrder(cache.history);
    var hosts := Hosts(cache.ll);
    forall h | h in hosts ensures h in cache.items {
      var i :| 0 <= i < |hosts| && hosts[i] == h;
      assert cache.ll[i] in cache.ll;
    }
    forall h | h in cache.items ensures h in hosts {
      var i :| 0 <= i < |hosts| && cache.ll[i] == cache.items[h];
      assert hosts[i] == h;
    }
  }
}
