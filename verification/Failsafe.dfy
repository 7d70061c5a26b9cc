/**
 * The fail-safe state machine (internal/enforcer/failsafe_enforcer.go), against the history of its
 * periodic checks.
 */
module Failsafe {
  import opened DomainNames

  /** 0 is the zero time. */
  type Time = int

  /** "", "no_bundle_cloud_unreachable", "bundle_expired_cloud_unreachable" and "recovered". */
  datatype Reason = Unset | NoBundle | BundleExpired | Recovered

  datatype Check = Check(now: Time, bundleExpiresAt: Time, reachable: bool, grace: int)
  datatype Report = Report(entry: bool, reason: Reason, bundleExpiredAt: Time, offlineSince: Time)

  // ---------------------------------------------------------------- what the history demands

  /** No bundle was ever received, or it is expired past the grace period; and nobody to ask. */
  predicate Demanded(c: Check) {
    (c.bundleExpiresAt == 0 || c.now > c.bundleExpiresAt + c.grace) && !c.reachable
  }

  predicate ActiveAfter(checks: seq<Check>) {
    checks != [] && Demanded(checks[|checks| - 1])
  }

  /** The run of unreachable checks is broken at `k`: the cloud answered, or a fail-safe ended. */
  predicate Breaks(checks: seq<Check>, k: nat)
    requires k < |checks|
  {
    checks[k].reachable || (!Demanded(checks[k]) && k > 0 && Demanded(checks[k - 1]))
  }

  /** The first check of the unbroken run of unreachable checks that reaches the present, or -1. */
  function OfflineStart(checks: seq<Check>): (i: int)
    ensures -1 <= i < |checks|
  {
    if checks == [] || Breaks(checks, |checks| - 1) then -1
    else
      var i := OfflineStart(checks[..|checks| - 1]);
      if i >= 0 then i else |checks| - 1
  }

  /** The check that entered the present fail-safe, or -1. */
  function EntryCheck(checks: seq<Check>): (i: int)
    ensures -1 <= i < |checks|
    ensures i >= 0 <==> ActiveAfter(checks)
  {
    if !ActiveAfter(checks) then -1
    else
      var i := EntryCheck(checks[..|checks| - 1]);
      if i >= 0 then i else |checks| - 1
  }

  lemma {:induction false} OfflineStartIs(checks: seq<Check>)
    requires OfflineStart(checks) >= 0
    ensures var i := OfflineStart(checks);
            && (forall k :: i <= k < |checks| ==> !checks[k].reachable && !Breaks(checks, k))
            && (i > 0 ==> Breaks(checks, i - 1))
  {
    var init := checks[..|checks| - 1];
    assert forall k :: 0 <= k < |init| ==> Breaks(init, k) == Breaks(checks, k);
    if OfflineStart(init) >= 0 {
      OfflineStartIs(init);
    } else if init != [] {
      assert Breaks(init, |init| - 1);
    }
  }

  lemma {:induction false} EntryCheckIs(checks: seq<Check>)
    requires EntryCheck(checks) >= 0
    ensures var i := EntryCheck(checks);
            && (forall k :: i <= k < |checks| ==> Demanded(checks[k]))
            && (i > 0 ==> !Demanded(checks[i - 1]))
            && 0 <= OfflineStart(checks) <= i
  {
    var init := checks[..|checks| - 1];
    if EntryCheck(init) >= 0 { EntryCheckIs(init); }
  }

  predicate Alternating(reports: seq<Report>) {
    reports == [] ||
    (Alternating(reports[..|reports| - 1]) && (reports[|reports| - 1].entry <==> (|reports| - 1) % 2 == 0))
  }

  lemma {:induction false} AlternatingAt(reports: seq<Report>, k: nat)
    requires Alternating(reports) && k < |reports|
    ensures reports[k].entry <==> k % 2 == 0
  {
    if k < |reports| - 1 { AlternatingAt(reports[..|reports| - 1], k); }
  }

  ghost predicate Monotone(checks: seq<Check>) {
    && (forall k :: 0 <= k < |checks| ==> checks[k].now > 0)
    && (forall j, k :: 0 <= j < k < |checks| ==> checks[j].now <= checks[k].now)
  }

  lemma OneMoreCheck(checks: seq<Check>, c: Check)
    ensures var after := checks + [c];
            && ActiveAfter(after) == Demanded(c)
            && OfflineStart(after) ==
                 (if c.reachable || (!Demanded(c) && ActiveAfter(checks)) then -1
                  else if OfflineStart(checks) >= 0 then OfflineStart(checks) else |checks|)
            && EntryCheck(after) ==
                 (if !Demanded(c) then -1 else if EntryCheck(checks) >= 0 then EntryCheck(checks) else |checks|)
  {
    assert (checks + [c])[..|checks|] == checks;
  }

  lemma OneMoreMonotone(checks: seq<Check>, c: Check)
    requires Monotone(checks) && c.now > 0 && (checks != [] ==> checks[|checks| - 1].now <= c.now)
    ensures Monotone(checks + [c])
  {}

  lemma OneMoreReport(reports: seq<Report>, r: Report)
    requires Alternating(reports)
    ensures Alternating(reports + [r]) <==> (r.entry <==> |reports| % 2 == 0)
    ensures |reports + [r]| % 2 == 1 <==> |reports| % 2 == 0
  {
    assert (reports + [r])[..|reports|] == reports;
  }

  /** What the fields of the state record say about the history. */
  ghost predicate Tells(checks: seq<Check>, active: bool, triggeredAt: Time, bundleExpiredAt: Time, offlineSince: Time) {
    && active == ActiveAfter(checks)
    && offlineSince == (if OfflineStart(checks) >= 0 then checks[OfflineStart(checks)].now else 0)
    && (active ==> triggeredAt == checks[EntryCheck(checks)].now
                   && bundleExpiredAt == checks[EntryCheck(checks)].bundleExpiresAt)
  }

  /** The effect of one check on the fields: entering, leaving, or just watching the cloud. */
  lemma OneMoreTells(checks: seq<Check>, c: Check, active: bool, triggeredAt: Time, bundleExpiredAt: Time,
                     offlineSince: Time)
    requires Monotone(checks) && Tells(checks, active, triggeredAt, bundleExpiredAt, offlineSince) && c.now > 0
    ensures var since := if offlineSince == 0 then c.now else offlineSince;
            if Demanded(c) && !active then Tells(checks + [c], true, c.now, c.bundleExpiresAt, since)
            else if !Demanded(c) && active then Tells(checks + [c], false, triggeredAt, bundleExpiredAt, 0)
            else Tells(checks + [c], active, triggeredAt, bundleExpiredAt, if c.reachable then 0 else since)
  {
    OneMoreCheck(checks, c);
    assert forall k :: 0 <= k < |checks| ==> (checks + [c])[k] == checks[k];
  }

  class FailsafeState {
    var active: bool
    var triggeredAt: Time
    var triggerReason: Reason
    var bundleExpiredAt: Time
    var offlineSince: Time
    var reports: seq<Report>
    ghost var checks: seq<Check>

    /** The fields say about the history exactly what their names promise. */
    ghost predicate Valid()
      reads this
    {
      && Monotone(checks)
      && Tells(checks, active, triggeredAt, bundleExpiredAt, offlineSince)
      && Alternating(reports) && (active <==> |reports| % 2 == 1)
    }

    constructor ()
      ensures Valid() && checks == [] && !active
    {
      active, triggeredAt, triggerReason, bundleExpiredAt, offlineSince := false, 0, Unset, 0, 0;
      reports, checks := [], [];
    }

    /** The next check does not run the clock backwards. */
    ghost predicate InOrder(c: Check)
      reads this
    {
      c.now > 0 && (checks != [] ==> checks[|checks| - 1].now <= c.now)
    }

    method CheckAndEnterFailsafe(now: Time, bundleExpiresAt: Time, cloudReachable: bool, gracePeriod: int)
      requires Valid() && InOrder(Check(now, bundleExpiresAt, cloudReachable, gracePeriod))
      modifies this
      ensures Valid()
      ensures checks == old(checks) + [Check(now, bundleExpiresAt, cloudReachable, gracePeriod)]
      ensures reports == old(reports) +
                (if active && !old(active) then
                   [Report(true, BundleExpired, bundleExpiresAt, offlineSince)]
                 else if !active && old(active) then [Report(false, Recovered, 0, 0)]
                 else [])
      ensures active <==> (bundleExpiresAt == 0 || now > bundleExpiresAt + gracePeriod) && !cloudReachable
      ensures active && !old(active) ==>
                triggerReason == if bundleExpiresAt == 0 then NoBundle
                                 else BundleExpired
    {
      ghost var c := Check(now, bundleExpiresAt, cloudReachable, gracePeriod);
      var noBundleEver := bundleExpiresAt == 0;
      var bundleExpired := noBundleEver || now > bundleExpiresAt + gracePeriod;
      var shouldBeActive := bundleExpired && !cloudReachable;
      if shouldBeActive && !active {
        EnterFailsafe(now, bundleExpiresAt, c);
      } else if !shouldBeActive && active {
        ExitFailsafe(c);
      } else {
        WatchCloud(now, cloudReachable, c);
      }
    }

    method EnterFailsafe(now: Time, bundleExpiresAt: Time, ghost c: Check)
      requires Valid() && InOrder(c) && !active && Demanded(c) && c.now == now && c.bundleExpiresAt == bundleExpiresAt
      modifies this
      ensures Valid() && active && checks == old(checks) + [c]
      ensures reports == old(reports) + [Report(true, BundleExpired, bundleExpiresAt, offlineSince)]
      ensures triggerReason == if bundleExpiresAt == 0 then NoBundle
                               else BundleExpired
    {
      OneMoreTells(checks, c, active, triggeredAt, bundleExpiredAt, offlineSince);
      OneMoreMonotone(checks, c);
      var since := if offlineSince == 0 then now else offlineSince;
      var report := Report(true, BundleExpired, bundleExpiresAt, since);
      OneMoreReport(reports, report);
      active, triggeredAt, bundleExpiredAt, offlineSince := true, now, bundleExpiresAt, since;
      triggerReason := if bundleExpiresAt == 0 then NoBundle else BundleExpired;
      reports, checks := reports + [report], checks + [c];
    }

    method ExitFailsafe(ghost c: Check)
      requires Valid() && InOrder(c) && active && !Demanded(c)
      modifies this
      ensures Valid() && !active && checks == old(checks) + [c]
      ensures reports == old(reports) + [Report(false, Recovered, 0, 0)]
    {
      OneMoreTells(checks, c, active, triggeredAt, bundleExpiredAt, offlineSince);
      OneMoreMonotone(checks, c);
      active := false;
      offlineSince := 0;
      OneMoreReport(reports, Report(false, Recovered, 0, 0));
      reports := reports + [Report(false, Recovered, 0, 0)];
      checks := checks + [c];
    }

    method WatchCloud(now: Time, cloudReachable: bool, ghost c: Check)
      requires Valid() && InOrder(c) && active == Demanded(c) && c.now == now && c.reachable == cloudReachable
      modifies this
      ensures Valid() && active == old(active) && checks == old(checks) + [c] && reports == old(reports)
    {
      OneMoreTells(checks, c, active, triggeredAt, bundleExpiredAt, offlineSince);
      OneMoreMonotone(checks, c);
      var since := offlineSince;
      if !cloudReachable && since == 0 {
        since := now;
      } else if cloudReachable {
        since := 0;
      }
      offlineSince := since;
      checks := checks + [c];
    }

    predicate IsDenyAll()
      reads this
    {
      active && bundleExpiredAt == 0
    }
  }

  /**
   * In every reachable state the fail-safe is on exactly when the last check demanded it; while it is
   * on, the offline time is known and not later than the trigger, which is the time of the check that
   * started the present run of demanding checks.
   */
  lemma ActiveHistory(f: FailsafeState)
    requires f.Valid() && f.checks != []
    ensures f.active <==> Demanded(f.checks[|f.checks| - 1])
    ensures f.active ==>
              && 0 < f.offlineSince <= f.triggeredAt <= f.checks[|f.checks| - 1].now
              && exists e: nat :: EnteredAt(f.checks, e) && f.checks[e].now == f.triggeredAt
  {
    if f.active {
      EntryCheckIs(f.checks);
      assert EnteredAt(f.checks, EntryCheck(f.checks));
    }
  }

  /** A known offline time names the check that started the present run of unreachable checks. */
  lemma OfflineHistory(f: FailsafeState)
    requires f.Valid() && f.offlineSince != 0
    ensures exists i :: 0 <= i < |f.checks| && f.checks[i].now == f.offlineSince
              && (forall k :: i <= k < |f.checks| ==> !f.checks[k].reachable)
              && (i > 0 ==> Breaks(f.checks, i - 1))
  {
    OfflineStartIs(f.checks);
  }

  /** Entry and exit reports alternate, starting with an entry; the last one tells the present state. */
  lemma ReportsAlternate(f: FailsafeState, k: nat)
    requires f.Valid() && k < |f.reports|
    ensures f.reports[k].entry <==> k % 2 == 0
    ensures f.reports[|f.reports| - 1].entry <==> f.active
  {
    AlternatingAt(f.reports, k);
    AlternatingAt(f.reports, |f.reports| - 1);
  }

  /** `e` is the check that started the present run of demanding checks. */
  ghost predicate EnteredAt(checks: seq<Check>, e: nat) {
    && e < |checks| && (forall k :: e <= k < |checks| ==> Demanded(checks[k]))
    && (e > 0 ==> !Demanded(checks[e - 1]))
  }

  lemma {:induction false} EntryUnique(checks: seq<Check>, e: nat)
    requires EnteredAt(checks, e)
    ensures e == EntryCheck(checks)
  {
    var init := checks[..|checks| - 1];
    if e < |init| { EntryUnique(init, e); }
  }

  /** Deny-all is on exactly while a fail-safe is on that was entered without any bundle. */
  lemma DenyAllIff(f: FailsafeState)
    requires f.Valid()
    ensures f.IsDenyAll() <==> exists e: nat :: EnteredAt(f.checks, e) && f.checks[e].bundleExpiresAt == 0
  {
    if f.active {
      EntryCheckIs(f.checks);
      assert EnteredAt(f.checks, EntryCheck(f.checks));
    }
    forall e: nat | EnteredAt(f.checks, e) ensures e == EntryCheck(f.checks) { EntryUnique(f.checks, e); }
  }

  /** The emergency list matches whole labels, like the blocklist; case is not folded. */
  method IsAllowedInFailsafe(domain: string, emergency: seq<string>) returns (allowed: bool)
    ensures allowed <==> exists a :: a in emergency && IsSuffix(a, TrimDot(domain))
  {
    var d := TrimDot(domain);
    var i := 0;
    while i < |emergency|
      invariant 0 <= i <= |emergency|
      invariant forall j :: 0 <= j < i ==> !IsSuffix(emergency[j], d)
    {
      var a := emergency[i];
      DottedSuffix(d, a);
      if d == a || HasSuffix(d, "." + a) { return true; }
      i := i + 1;
    }
    return false;
  }

  predicate HasSuffix(s: string, suffix: string) {
    |s| >= |suffix| && s[|s| - |suffix|..] == suffix
  }

  lemma DottedSuffix(d: string, a: string)
    ensures d == a || HasSuffix(d, "." + a) <==> IsSuffix(a, d)
  {
    var dotted := "." + a;
    if |d| > |a| {
      var k := |d| - |dotted|;
      if HasSuffix(d, dotted) {
        assert d[k] == d[k..][0] == '.' && d[k + 1..] == d[k..][1..] == a;
      }
      if IsSuffix(a, d) {
        assert d[k..] == [d[k]] + d[k + 1..];
      }
    } else if |d| == |a| {
      assert d[0..] == d;
    }
  }
}
