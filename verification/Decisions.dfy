/**
 * The two consumers of the blocklist: the DNS resolver (internal/dns/resolver.go) and the SNI proxy
 * (internal/sniproxy/sniproxy.go), as decisions about one name on one snapshot of list and policy.
 */
module Decisions {
  import opened Common
  import opened DomainNames
  import opened Blocklist

  /** What the policy reader says about a source address; `None` when no reader is wired. */
  datatype Policy = Policy(paused: bool, categories: seq<string>)

  datatype Verdict = Paused | Listed(category: string) | PerChild(category: string) | Pass

  /** The resolver's reply; a blocked A query gets the sinkhole address, any other NXDOMAIN. */
  datatype Answer = ServFail | Sinkhole | NxDomain | Upstream

  datatype Question = Question(name: string, isA: bool)

  predicate IsPaused(policy: Option<Policy>) { policy.Some? && policy.value.paused }

  function CategoriesOf(policy: Option<Policy>): seq<string> {
    if policy.None? then [] else policy.value.categories
  }

  predicate IsProtective(category: string) {
    Lower(category) in {"phishing", "malware", "scam", "ransomware", "cryptojacking", "newly_registered"}
  }

  /** The proxy's own list is the most protective stretch of the priority table, but for one category. */
  lemma ProtectiveIff(category: string)
    ensures IsProtective(category) <==>
              Lower(category) != "fake_banking" && PriorityOf(Lower(category)) <= PriorityOf("newly_registered")
  {}

  // ---------------------------------------------------------------- what each consumer decides

  ghost predicate NameBlocked(rows: seq<Row>, name: string) {
    Norm(name) != "" && BlockedBy(rows, Norm(name))
  }

  ghost predicate NameReported(rows: seq<Row>, name: string, category: string) {
    if NameBlocked(rows, name) then ReportedCategory(rows, Norm(name), category) else category == ""
  }

  method ResolverVerdict(list: Blocklist, policy: Option<Policy>, name: string) returns (v: Verdict)
    requires list.Valid()
    ensures v == Paused <==> policy.Some? && policy.value.paused
    ensures v.Listed? <==> !(policy.Some? && policy.value.paused) && NameBlocked(list.rows, name)
    ensures v.Listed? ==> NameReported(list.rows, name, v.category)
    ensures !v.PerChild?
  {
    if IsPaused(policy) { return Paused; }
    var blocked := list.IsBlocked(name);
    if blocked {
      var category := list.CategoryFor(name);
      return Listed(category);
    }
    if |CategoriesOf(policy)| > 0 {
      var perChild := list.IsBlockedForCategories(name, CategoriesOf(policy));
      if perChild {
        CategoriesWithinList(list.rows, LowerSet(CategoriesOf(policy)), Norm(name));
        assert false;
      }
    }
    return Pass;
  }

  /** The ladder as it answers a query; only the first question matters. */
  method Resolve(list: Blocklist, policy: Option<Policy>, questions: Option<seq<Question>>, upstreamOk: bool)
    returns (a: Answer)
    requires list.Valid()
    ensures questions.None? || questions.value == [] ==> a == ServFail
    ensures questions.Some? && questions.value != [] ==>
              var q := questions.value[0];
              var blocked := IsPaused(policy) || NameBlocked(list.rows, q.name);
              && (a == Sinkhole <==> blocked && q.isA)
              && (a == NxDomain <==> blocked && !q.isA)
              && (a == Upstream <==> !blocked && upstreamOk)
  {
    if questions.None? || questions.value == [] { return ServFail; }
    var q := questions.value[0];
    var v := ResolverVerdict(list, policy, q.name);
    if v != Pass { return if q.isA then Sinkhole else NxDomain; }
    return if upstreamOk then Upstream else ServFail;
  }

  /** Would the proxy let this listed name through for a device without category policy? */
  ghost predicate Excused(policy: Option<Policy>, category: string) {
    CategoriesOf(policy) == [] && !IsProtective(category)
  }

  /** A connection that names no server is passed through before anything is looked up. */
  method SniVerdict(list: Blocklist, policy: Option<Policy>, serverName: string) returns (v: Verdict, category: string)
    requires list.Valid()
    ensures v == Paused <==> policy.Some? && policy.value.paused && serverName != ""
    ensures !IsPaused(policy) ==> NameReported(list.rows, serverName, category)
    // a device with categories of its own has every listed name blocked, any other the protective ones
    ensures v.Listed? <==>
              && (policy.Some? ==> !policy.value.paused) && NameBlocked(list.rows, serverName)
              && ((policy.Some? && policy.value.categories != []) || IsProtective(category))
    ensures v.Listed? ==> v.category == category
    ensures !v.PerChild?
  {
    var sni := Lower(serverName);
    NormLower(serverName);
    category := "";
    if serverName == "" { return Pass, ""; }
    if IsPaused(policy) { return Paused, ""; }
    var blocked := list.IsBlocked(sni);
    if blocked {
      category := list.CategoryFor(sni);
      if |CategoriesOf(policy)| == 0 && !IsProtective(category) { return Pass, category; }
      return Listed(category), category;
    }
    if |CategoriesOf(policy)| > 0 {
      var perChild := list.IsBlockedForCategories(sni, CategoriesOf(policy));
      if perChild {
        CategoriesWithinList(list.rows, LowerSet(CategoriesOf(policy)), Norm(sni));
        assert false;
      }
    }
    return Pass, category;
  }

  // ---------------------------------------------------------------- agreement

  /**
   * Both consumers side by side: whatever the proxy blocks the resolver blocks too, and they differ
   * exactly when a listed name is excused, that is when the device has no category policy and the
   * reported category is not protective, or when a paused device names no server at all.
   */
  method Compare(list: Blocklist, policy: Option<Policy>, name: string)
    returns (dns: Verdict, sni: Verdict, category: string)
    requires list.Valid()
    ensures sni != Pass ==> dns != Pass
    ensures (dns != Pass && sni == Pass) <==>
              if IsPaused(policy) then name == "" else NameBlocked(list.rows, name) && Excused(policy, category)
    ensures CategoriesOf(policy) != [] && name != "" ==> (dns == Pass <==> sni == Pass)
    ensures !IsPaused(policy) ==> NameReported(list.rows, name, category)
    ensures !dns.PerChild? && !sni.PerChild?
  {
    dns := ResolverVerdict(list, policy, name);
    sni, category := SniVerdict(list, policy, name);
  }

  /**
   * The categories a parent selects never change what the resolver blocks: its global step already
   * covers the union of all categories.
   */
  lemma SelectionIsIrrelevant(rows: seq<Row>, cats: seq<string>, name: string)
    ensures Norm(name) != "" && BlockedByCategories(rows, LowerSet(cats), Norm(name)) ==> NameBlocked(rows, name)
    ensures NameBlocked(rows, name) ==>
              exists c :: BlockedByCategories(rows, {c}, Norm(name))
  {
    if NameBlocked(rows, name) {
      var r :| r in rows && IsSuffix(r.domain, Norm(name));
      assert BlockedByCategories(rows, {r.category}, Norm(name));
    }
  }

  /** "fake_banking" ranks as protective in the priority table but not in the proxy's own list. */
  lemma FakeBankingIsExcused(policy: Option<Policy>)
    requires CategoriesOf(policy) == []
    ensures PriorityOf("fake_banking") < PriorityOf("newly_registered") && IsProtective("newly_registered")
    ensures Excused(policy, "fake_banking")
  {
    assert Lower("fake_banking") == "fake_banking";
    assert Lower("newly_registered") == "newly_registered";
  }
}
