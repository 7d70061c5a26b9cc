/**
 * Degraded-mode routing: the fallback resolver (internal/relay/fallback.go), the bridge's packet loop
 * (internal/relay/relay_udp_bridge.go) and the janitor's sweep (internal/relay/broker.go).
 */
module Fallback {
  import opened Common
  import opened Registry
  import opened Runs

  type Family = string

  // ---------------------------------------------------------------- the resolver object

  class FallbackResolver {
    const endpoint: string
    var active: map<Family, Time>
    var packetsForwarded: nat
    var packetsDropped: nat
    var familiesDegraded: int
    ghost var s: State
    ghost var trace: seq<Step>

    /** The gauge is the number of families in fallback. */
    ghost predicate Counted()
      reads this
    {
      familiesDegraded == |active|
    }

    /** Between two packets the fields are those of a state of the interleaved protocol below. */
    ghost predicate Valid()
      reads this
    {
      Counted() && Tracked() && !s.inTransit
    }

    /** The fields show the state a run of the protocol has led to. */
    ghost predicate Tracked()
      reads this
    {
      && Run(Next, INIT, trace) == Some(s) && Shows(s, active, familiesDegraded)
      && packetsForwarded == s.forwarded && packetsDropped == s.dropped
    }

    constructor (endpoint: string)
      ensures Valid() && active == map[] && this.endpoint == endpoint && trace == []
      ensures packetsForwarded == packetsDropped == 0
    {
      this.endpoint, active := endpoint, map[];
      packetsForwarded, packetsDropped, familiesDegraded := 0, 0, 0;
      s, trace := INIT, [];
    }

    ghost method Advance(step: Step, after: State)
      requires Run(Next, INIT, trace) == Some(s) && Next(s, step) == Some(after)
      modifies this`s, this`trace
      ensures trace == old(trace) + [step] && Run(Next, INIT, trace) == Some(s) && s == after
    {
      assert (trace + [step])[..|trace|] == trace;
      trace, s := trace + [step], after;
    }

    /** A notification handed to a goroutine earlier reaches the cloud, or is given up. */
    ghost method Settled(f: Family, entered: bool, arrives: bool)
      requires Valid() && s.owed[(f, entered)] > 0
      modifies this`s, this`trace
      ensures Valid() && trace == old(trace) + [if arrives then Deliver(f, entered) else Lose(f, entered)]
    {
      var step := if arrives then Deliver(f, entered) else Lose(f, entered);
      Advance(step, Next(s, step).value);
    }

    /** True exactly on the transition into fallback; the first entry time is kept. */
    method EnterFallback(f: Family, now: Time) returns (transition: bool)
      requires Counted()
      modifies this`active, this`familiesDegraded
      ensures Counted()
      ensures transition <==> f !in old(active)
      ensures active == if transition then old(active)[f := now] else old(active)
    {
      if f in active { return false; }
      active := active[f := now];
      familiesDegraded := familiesDegraded + 1;
      return true;
    }

    method ExitFallback(f: Family) returns (transition: bool)
      requires Counted()
      modifies this`active, this`familiesDegraded
      ensures Counted()
      ensures transition <==> f in old(active)
      ensures active == old(active) - {f}
    {
      if f !in active { return false; }
      active := active - {f};
      familiesDegraded := familiesDegraded - 1;
      return true;
    }

    /**
     * The bridge's decision for one packet of a configured family, as steps of the protocol. Afterwards
     * the family is in fallback exactly if it has no healthy node, and every packet that took the
     * fallback path is counted once. `terminator` says whether an endpoint resolver is wired, `sent`
     * whether the local forward succeeds.
     */
    method RoutePacket(registry: NodeRegistry, f: Family, now: Time, terminator: bool, sent: bool)
      returns (node: Option<NodeHealth>, entered: bool)
      requires Valid() && registry.Valid()
      modifies this
      ensures Valid()
      ensures trace == old(trace) + PacketSteps(f, node.Some?, sent && !(endpoint == "" && !terminator))
      ensures registry.BestPick(f, now, node)
      ensures f in active <==> node.None?
      ensures entered <==> f in active && f !in old(active)
      ensures forall g :: g != f ==> (g in active <==> g in old(active))
      ensures forall g :: g in active ==> active[g] == if g in old(active) then old(active)[g] else now
      ensures packetsForwarded + packetsDropped ==
              old(packetsForwarded + packetsDropped) + (if node.None? then 1 else 0)
      ensures packetsForwarded == old(packetsForwarded) +
                (if node.None? && sent && !(endpoint == "" && !terminator) then 1 else 0)
    {
      node := registry.PickHealthyNode(f, now);
      ghost var picked := registry.BestPick(f, now, node);
      assert this !in registry.Footprint();
      entered := Account(f, now, node.Some?, sent && !(endpoint == "" && !terminator));
      assert registry.BestPick(f, now, node) == picked;
    }

    /** The resolver's part of a packet, once it is known whether the family has a healthy node. */
    method Account(f: Family, now: Time, healthy: bool, forwarded: bool) returns (entered: bool)
      requires Valid()
      modifies this
      ensures Valid() && trace == old(trace) + PacketSteps(f, healthy, forwarded)
      ensures entered <==> !healthy && f !in old(active)
      ensures active == if healthy then old(active) - {f} else if entered then old(active)[f := now] else old(active)
      ensures packetsForwarded == old(packetsForwarded) + if !healthy && forwarded then 1 else 0
      ensures packetsDropped == old(packetsDropped) + if !healthy && !forwarded then 1 else 0
    {
      if healthy {
        var _ := Recover(f, Bridge);
        return false;
      }
      entered := CountedFallback(f, now, forwarded);
    }

    /** A transition out of fallback, if any, by the bridge or the janitor. */
    method Recover(f: Family, ghost actor: Actor) returns (left: bool)
      requires Valid()
      modifies this`active, this`familiesDegraded, this`s, this`trace
      ensures Valid() && trace == old(trace) + [LeaveStep(f, actor)]
      ensures left <==> f in old(active)
      ensures active == old(active) - {f}
      ensures s == Leave(old(s), f, actor)
    {
      LeaveShows(s, active, familiesDegraded, f, actor);
      LeaveStepIs(s, f, actor);
      left := ExitFallback(f);
      Advance(LeaveStep(f, actor), Leave(s, f, actor));
    }

    /** The fallback path of one packet; `forwarded` says how it ends. */
    method CountedFallback(f: Family, now: Time, forwarded: bool) returns (entered: bool)
      requires Valid()
      modifies this
      ensures Valid() && trace == old(trace) + [FallbackPacket(f), CountPacket(forwarded)]
      ensures entered <==> f !in old(active)
      ensures active == if entered then old(active)[f := now] else old(active)
      ensures packetsForwarded == old(packetsForwarded) + if forwarded then 1 else 0
      ensures packetsDropped == old(packetsDropped) + if forwarded then 0 else 1
    {
      ghost var after := Enter(s, f, Bridge).(inTransit := true, routed := s.routed + 1);
      EnterShows(s, active, familiesDegraded, f, now, Bridge);
      entered := EnterFallback(f, now);
      Advance(FallbackPacket(f), after);
      Count(forwarded);
    }

    method Count(forwarded: bool)
      requires Counted() && Tracked() && s.inTransit
      modifies this`packetsForwarded, this`packetsDropped, this`s, this`trace
      ensures Valid() && trace == old(trace) + [CountPacket(forwarded)]
      ensures packetsForwarded == old(packetsForwarded) + if forwarded then 1 else 0
      ensures packetsDropped == old(packetsDropped) + if forwarded then 0 else 1
    {
      if forwarded { packetsForwarded := packetsForwarded + 1; } else { packetsDropped := packetsDropped + 1; }
      CountIs(s, forwarded);
      Advance(CountPacket(forwarded), Ended(s, forwarded));
    }

    method Degrade(f: Family, now: Time) returns (entered: bool)
      requires Valid()
      modifies this`active, this`familiesDegraded, this`s, this`trace
      ensures Valid() && trace == old(trace) + [SweepDegraded(f)]
      ensures entered <==> f !in old(active)
      ensures active == if entered then old(active)[f := now] else old(active)
      ensures s == Enter(old(s), f, Janitor)
    {
      EnterShows(s, active, familiesDegraded, f, now, Janitor);
      entered := EnterFallback(f, now);
      Advance(SweepDegraded(f), Enter(s, f, Janitor));
    }

    /**
     * The janitor's sweep of one family, as a step of the protocol; a family without registered nodes is
     * left as it is. A notification is handed out exactly on a transition.
     */
    method SweepFamily(registry: NodeRegistry, f: Family, now: Time) returns (notify: Option<bool>)
      requires Valid() && registry.Valid()
      modifies this`active, this`familiesDegraded, this`s, this`trace
      ensures Valid()
      ensures old(registry.Serves(f)) ==>
                && (f in active <==> old(registry.HealthyIds(f, now)) == {})
                && trace == old(trace) + [if f in active then SweepDegraded(f) else SweepHealthy(f)]
      ensures !old(registry.Serves(f)) ==> active == old(active) && trace == old(trace)
      ensures forall g :: g != f ==> (g in active <==> g in old(active))
      ensures notify == if (f in active) == (f in old(active)) then None else Some(f in active)
      ensures s.owed == old(s.owed) + if notify.Some? then multiset{(f, notify.value)} else multiset{}
    {
      var status := registry.FamilyStatus(f, now);
      NoneHealthy(registry.HealthyIds(f, now));
      notify := Settle(f, now, status.healthyCount, status.hasFallback);
    }

    /** The resolver's part of a sweep, from the family's status. */
    method Settle(f: Family, now: Time, healthyCount: nat, hasFallback: bool) returns (notify: Option<bool>)
      requires Valid() && (healthyCount > 0 ==> hasFallback)
      modifies this`active, this`familiesDegraded, this`s, this`trace
      ensures Valid()
      ensures trace == old(trace) + (if !hasFallback then []
                                     else [if healthyCount == 0 then SweepDegraded(f) else SweepHealthy(f)])
      ensures active == if !hasFallback then old(active)
                        else if healthyCount > 0 then old(active) - {f}
                        else if f in old(active) then old(active) else old(active)[f := now]
      ensures notify == if (f in active) == (f in old(active)) then None else Some(f in active)
      ensures s.owed == old(s.owed) + if notify.Some? then multiset{(f, notify.value)} else multiset{}
    {
      notify := None;
      JanitorOwes(s, f);
      if healthyCount == 0 && hasFallback {
        var entered := Degrade(f, now);
        if entered { notify := Some(true); }
      }
      if healthyCount > 0 {
        var left := Recover(f, Janitor);
        if left { notify := Some(false); }
      }
    }
  }

  /** The map of entry times and the gauge belong to the state. */
  ghost predicate Shows(s: State, active: map<Family, Time>, degraded: int) {
    active.Keys == s.active && degraded == s.degraded
  }

  lemma EnterShows(s: State, active: map<Family, Time>, degraded: int, f: Family, now: Time, actor: Actor)
    requires Shows(s, active, degraded)
    ensures if f in active then Enter(s, f, actor) == s else Shows(Enter(s, f, actor), active[f := now], degraded + 1)
  {}

  lemma LeaveShows(s: State, active: map<Family, Time>, degraded: int, f: Family, actor: Actor)
    requires Shows(s, active, degraded)
    ensures if f in active then Shows(Leave(s, f, actor), active - {f}, degraded - 1) else Leave(s, f, actor) == s
  {}

  function LeaveStep(f: Family, actor: Actor): Step {
    if actor.Bridge? then HealthyPacket(f) else SweepHealthy(f)
  }

  lemma LeaveStepIs(s: State, f: Family, actor: Actor)
    requires !s.inTransit
    ensures Next(s, LeaveStep(f, actor)) == Some(Leave(s, f, actor))
    ensures Leave(s, f, actor).forwarded == s.forwarded && Leave(s, f, actor).dropped == s.dropped
    ensures !Leave(s, f, actor).inTransit
  {}

  lemma JanitorOwes(s: State, f: Family)
    ensures Leave(s, f, Janitor).owed == s.owed + if f in s.active then multiset{(f, false)} else multiset{}
    ensures Enter(s, f, Janitor).owed == s.owed + if f in s.active then multiset{} else multiset{(f, true)}
  {}

  lemma CountIs(s: State, sent: bool)
    requires s.inTransit
    ensures Next(s, CountPacket(sent)) == Some(Ended(s, sent))
    ensures Ended(s, sent).active == s.active && Ended(s, sent).degraded == s.degraded && !Ended(s, sent).inTransit
    ensures Ended(s, sent).forwarded == s.forwarded + if sent then 1 else 0
    ensures Ended(s, sent).dropped == s.dropped + if sent then 0 else 1
  {}

  /** The protocol steps of one packet. */
  function PacketSteps(f: Family, healthy: bool, sent: bool): seq<Step> {
    if healthy then [HealthyPacket(f)] else [FallbackPacket(f), CountPacket(sent)]
  }

  lemma NoneHealthy(ids: set<string>)
    ensures |ids| == 0 <==> ids == {}
  {}

  // ---------------------------------------------------------------- bridge and janitor interleaved

  datatype Actor = Bridge | Janitor

  datatype Event = Entered(family: Family, actor: Actor) | Left(family: Family, actor: Actor)

  /**
   * `owed` are notifications handed to goroutines that are still on their way, `lost` those given up
   * after a failure or the timeout, and `told` are the families the cloud believes to be in fallback, by
   * the last notification it received; `inTransit` is the packet
   * the bridge has routed to fallback but not yet counted. `events` records every transition.
   */
  datatype State = State(
    active: set<Family>, degraded: int,
    inTransit: bool, routed: nat, forwarded: nat, dropped: nat,
    owed: multiset<(Family, bool)>, delivered: multiset<(Family, bool)>,
    lost: multiset<(Family, bool)>,
    told: set<Family>, events: seq<Event>)

  const INIT: State := State({}, 0, false, 0, 0, 0, multiset{}, multiset{}, multiset{}, {}, [])

  datatype Step =
    | HealthyPacket(family: Family)
    | FallbackPacket(family: Family)
    | CountPacket(sent: bool)
    | SweepDegraded(family: Family)
    | SweepHealthy(family: Family)
    | Deliver(family: Family, entered: bool)
    | Lose(family: Family, entered: bool)

  function Enter(s: State, f: Family, actor: Actor): State {
    if f in s.active then s
    else s.(active := s.active + {f}, degraded := s.degraded + 1,
            owed := s.owed + multiset{(f, true)}, events := s.events + [Entered(f, actor)])
  }

  /** Only the janitor tells the cloud that a family has recovered. */
  function Leave(s: State, f: Family, actor: Actor): State {
    if f !in s.active then s
    else s.(active := s.active - {f}, degraded := s.degraded - 1,
            owed := if actor.Janitor? then s.owed + multiset{(f, false)} else s.owed,
            events := s.events + [Left(f, actor)])
  }

  /** The packet in transit has been forwarded or dropped. */
  function Ended(s: State, sent: bool): State {
    s.(inTransit := false,
       forwarded := if sent then s.forwarded + 1 else s.forwarded,
       dropped := if sent then s.dropped else s.dropped + 1)
  }

  /** The bridge handles one packet at a time; the janitor and deliveries happen in between. */
  function Next(s: State, step: Step): Option<State> {
    match step
    case HealthyPacket(f) => if s.inTransit then None else Some(Leave(s, f, Bridge))
    case FallbackPacket(f) =>
      if s.inTransit then None else Some(Enter(s, f, Bridge).(inTransit := true, routed := s.routed + 1))
    case CountPacket(sent) =>
      if !s.inTransit then None
      else Some(Ended(s, sent))
    case SweepDegraded(f) => Some(Enter(s, f, Janitor))
    case SweepHealthy(f) => Some(Leave(s, f, Janitor))
    case Deliver(f, entered) =>
      if s.owed[(f, entered)] == 0 then None
      else Some(s.(owed := s.owed - multiset{(f, entered)}, delivered := s.delivered + multiset{(f, entered)},
                   told := if entered then s.told + {f} else s.told - {f}))
    case Lose(f, entered) =>
      if s.owed[(f, entered)] == 0 then None
      else Some(s.(owed := s.owed - multiset{(f, entered)}, lost := s.lost + multiset{(f, entered)}))
  }

  /** The transitions of one family, in order. */
  function Of(events: seq<Event>, f: Family): seq<Event> {
    if events == [] then []
    else
      var e := events[|events| - 1];
      Of(events[..|events| - 1], f) + (if e.family == f then [e] else [])
  }

  function Entries(events: seq<Event>): nat {
    if events == [] then 0
    else Entries(events[..|events| - 1]) + (if events[|events| - 1].Entered? then 1 else 0)
  }

  function JanitorExits(events: seq<Event>): nat {
    if events == [] then 0
    else
      var e := events[|events| - 1];
      JanitorExits(events[..|events| - 1]) + (if e == Left(e.family, Janitor) then 1 else 0)
  }

  /** Entering and leaving alternate, starting with entering. */
  predicate Alternates(ts: seq<Event>) {
    ts == [] || (Alternates(ts[..|ts| - 1]) && (ts[|ts| - 1].Entered? <==> (|ts| - 1) % 2 == 0))
  }

  lemma {:induction false} AlternatesAt(ts: seq<Event>, k: nat)
    requires Alternates(ts) && k < |ts|
    ensures ts[k].Entered? <==> k % 2 == 0
  {
    if k < |ts| - 1 { AlternatesAt(ts[..|ts| - 1], k); }
  }

  /** What the last notification issued for the family says, whether or not it has arrived. */
  function LastIssued(ts: seq<Event>): bool {
    if ts == [] then false
    else
      match ts[|ts| - 1]
      case Entered(_, _) => true
      case Left(_, Janitor) => false
      case Left(_, Bridge) => LastIssued(ts[..|ts| - 1])
  }

  /** The transitions of a family against its flag and the notifications issued for it. */
  ghost predicate Accounts(ts: seq<Event>, active: bool, entryNotes: nat, exitNotes: nat) {
    && Alternates(ts)
    && (active <==> |ts| % 2 == 1)
    && entryNotes == Entries(ts)
    && exitNotes == JanitorExits(ts)
  }

  function Issued(s: State, f: Family, entered: bool): nat {
    s.owed[(f, entered)] + s.delivered[(f, entered)] + s.lost[(f, entered)]
  }

  ghost predicate FamilyFits(s: State, f: Family) {
    Accounts(Of(s.events, f), f in s.active, Issued(s, f, true), Issued(s, f, false))
  }

  lemma EntryAccounted(ts: seq<Event>, e: Event, entryNotes: nat, exitNotes: nat)
    requires Accounts(ts, false, entryNotes, exitNotes) && e.Entered?
    ensures Accounts(ts + [e], true, entryNotes + 1, exitNotes)
  {
    OneMoreTransition(ts, e);
  }

  lemma ExitAccounted(ts: seq<Event>, e: Event, entryNotes: nat, exitNotes: nat)
    requires Accounts(ts, true, entryNotes, exitNotes) && e.Left?
    ensures Accounts(ts + [e], false, entryNotes, exitNotes + (if e.actor.Janitor? then 1 else 0))
  {
    OneMoreTransition(ts, e);
  }

  ghost predicate Inv(s: State) {
    && s.degraded == |s.active|
    && s.routed == s.forwarded + s.dropped + (if s.inTransit then 1 else 0)
    && forall f :: FamilyFits(s, f)
  }

  lemma OneMoreEvent(events: seq<Event>, e: Event, f: Family)
    ensures Of(events + [e], f) == Of(events, f) + (if e.family == f then [e] else [])
    ensures e.family != f ==> Of(events + [e], f) == Of(events, f)
  {
    assert (events + [e])[..|events|] == events;
    assert Of(events, f) + [] == Of(events, f);
  }

  lemma OneMoreTransition(ts: seq<Event>, e: Event)
    ensures Entries(ts + [e]) == Entries(ts) + (if e.Entered? then 1 else 0)
    ensures JanitorExits(ts + [e]) == JanitorExits(ts) + (if e == Left(e.family, Janitor) then 1 else 0)
    ensures Alternates(ts + [e]) <==> Alternates(ts) && (e.Entered? <==> |ts| % 2 == 0)
  {
    assert (ts + [e])[..|ts|] == ts;
  }

  lemma EnterKeepsFamily(s: State, g: Family, actor: Actor, f: Family)
    requires FamilyFits(s, f)
    ensures FamilyFits(Enter(s, g, actor), f)
  {
    if g !in s.active {
      OneMoreEvent(s.events, Entered(g, actor), f);
      if g == f { EntryAccounted(Of(s.events, f), Entered(g, actor), Issued(s, f, true), Issued(s, f, false)); }
    }
  }

  lemma LeaveKeepsFamily(s: State, g: Family, actor: Actor, f: Family)
    requires FamilyFits(s, f)
    ensures FamilyFits(Leave(s, g, actor), f)
  {
    if g in s.active {
      OneMoreEvent(s.events, Left(g, actor), f);
      if g == f { ExitAccounted(Of(s.events, f), Left(g, actor), Issued(s, f, true), Issued(s, f, false)); }
    }
  }

  lemma StepKeepsFamily(s: State, step: Step, f: Family)
    requires FamilyFits(s, f) && Next(s, step).Some?
    ensures FamilyFits(Next(s, step).value, f)
  {
    match step
    case HealthyPacket(g) => LeaveKeepsFamily(s, g, Bridge, f);
    case FallbackPacket(g) => EnterKeepsFamily(s, g, Bridge, f);
    case CountPacket(_) =>
    case SweepDegraded(g) => EnterKeepsFamily(s, g, Janitor, f);
    case SweepHealthy(g) => LeaveKeepsFamily(s, g, Janitor, f);
    case Deliver(_, _) => NotifyKeepsFamily(s, step, f);
    case Lose(_, _) => NotifyKeepsFamily(s, step, f);
  }

  /** A notification that arrives or is given up has still been issued once. */
  lemma NotifyKeepsFamily(s: State, step: Step, f: Family)
    requires FamilyFits(s, f) && Next(s, step).Some? && (step.Deliver? || step.Lose?)
    ensures FamilyFits(Next(s, step).value, f)
  {
    var s' := Next(s, step).value;
    assert Issued(s', f, true) == Issued(s, f, true) && Issued(s', f, false) == Issued(s, f, false);
  }

  lemma StepKeepsCounts(s: State, step: Step)
    requires s.degraded == |s.active| && s.routed == s.forwarded + s.dropped + (if s.inTransit then 1 else 0)
    requires Next(s, step).Some?
    ensures var s' := Next(s, step).value;
            s'.degraded == |s'.active| && s'.routed == s'.forwarded + s'.dropped + (if s'.inTransit then 1 else 0)
  {}

  lemma StepKeepsInv(s: State, step: Step)
    requires Inv(s) && Next(s, step).Some?
    ensures Inv(Next(s, step).value)
  {
    StepKeepsCounts(s, step);
    forall f ensures FamilyFits(Next(s, step).value, f) { StepKeepsFamily(s, step, f); }
  }

  lemma {:induction false} RunKeepsInv(s: State, steps: seq<Step>)
    requires Inv(s) && Run(Next, s, steps).Some?
    ensures Inv(Run(Next, s, steps).value)
  {
    if steps != [] {
      var n := |steps| - 1;
      RunKeepsInv(s, steps[..n]);
      StepKeepsInv(Run(Next, s, steps[..n]).value, steps[n]);
    }
  }

  /**
   * Over every interleaving: the gauge counts the active families, each family's transitions strictly
   * alternate starting with an entry, every entry issues exactly one notify(true), notify(false) comes
   * only from janitor exits, and every packet routed to fallback is counted once.
   */
  lemma FallbackAccounts(steps: seq<Step>, f: Family)
    requires Run(Next, INIT, steps).Some?
    ensures var s := Run(Next, INIT, steps).value; var ts := Of(s.events, f);
            && s.degraded == |s.active|
            && Alternates(ts) && (f in s.active <==> ts != [] && ts[|ts| - 1].Entered?)
            && Issued(s, f, true) == Entries(ts)
            && Issued(s, f, false) == JanitorExits(ts)
            && s.forwarded + s.dropped == s.routed - (if s.inTransit then 1 else 0)
  {
    RunKeepsInv(INIT, steps);
    var s := Run(Next, INIT, steps).value;
    assert FamilyFits(s, f);
    LastTransition(Of(s.events, f));
  }

  lemma LastTransition(ts: seq<Event>)
    requires Alternates(ts)
    ensures |ts| % 2 == 1 <==> ts != [] && ts[|ts| - 1].Entered?
  {
    if ts != [] { AlternatesAt(ts, |ts| - 1); }
  }

  // ---------------------------------------------------------------- what the cloud believes

  predicate Outstanding(s: State, f: Family) { s.owed[(f, true)] + s.owed[(f, false)] > 0 }

  /** The cloud believes `v`, and nothing outstanding could still change its mind. */
  predicate Settles(s: State, f: Family, v: bool) {
    s.owed[(f, !v)] == 0 && (f in s.told <==> v)
  }

  /** Notifications of the family arriving or being given up. */
  ghost predicate Deliveries(more: seq<Step>, f: Family) {
    forall x :: x in more ==> (x.Deliver? || x.Lose?) && x.family == f
  }

  /**
   * Whichever outstanding notifications of the family arrive, and in whatever order, the cloud is right
   * about it: at every moment, or, judged patiently, whenever none is outstanding.
   */
  ghost predicate EndsRight(s: State, f: Family, patient: bool) {
    forall more :: Run(Next, s, more).Some? && Deliveries(more, f) ==>
      var s' := Run(Next, s, more).value;
      (patient && Outstanding(s', f)) || (f in s'.told <==> f in s'.active)
  }

  lemma {:induction false} DeliveriesSettle(s: State, more: seq<Step>, f: Family, v: bool)
    requires Settles(s, f, v) && Run(Next, s, more).Some? && Deliveries(more, f)
    ensures Settles(Run(Next, s, more).value, f, v) && Run(Next, s, more).value.active == s.active
  {
    if more != [] {
      var n := |more| - 1;
      assert more[n] in more;
      DeliveriesSettle(s, more[..n], f, v);
    }
  }

  lemma OneCleared(s: State, f: Family, v: bool, arrive: bool)
    requires s.owed[(f, v)] > 0
    ensures var next := Next(s, if arrive then Deliver(f, v) else Lose(f, v));
            && next.Some? && next.value.active == s.active
            && next.value.owed[(f, v)] == s.owed[(f, v)] - 1 && next.value.owed[(f, !v)] == s.owed[(f, !v)]
            && (f in next.value.told <==> if arrive then v else f in s.told)
  {}

  /** Delivers, or gives up, all outstanding notifications of the family that say `v`. */
  lemma {:induction false} Clear(init: State, more: seq<Step>, s: State, f: Family, v: bool, arrive: bool)
    returns (more': seq<Step>, s': State)
    requires Run(Next, init, more) == Some(s) && Deliveries(more, f)
    ensures Run(Next, init, more') == Some(s') && Deliveries(more', f)
    ensures s'.owed[(f, v)] == 0 && s'.owed[(f, !v)] == s.owed[(f, !v)] && s'.active == s.active
    ensures f in s'.told <==> if arrive && s.owed[(f, v)] > 0 then v else f in s.told
    decreases s.owed[(f, v)]
  {
    more', s' := more, s;
    if s.owed[(f, v)] > 0 {
      OneCleared(s, f, v, arrive);
      more', s' := Extend(Next, init, more, s, if arrive then Deliver(f, v) else Lose(f, v));
      more', s' := Clear(init, more', s', f, v, arrive);
    }
  }

  /** Unless the cloud's belief has settled on `v`, it can end up with the opposite. */
  lemma Unsettled(s: State, f: Family, v: bool) returns (more: seq<Step>, s': State)
    requires !Settles(s, f, v)
    ensures Run(Next, s, more) == Some(s') && Deliveries(more, f)
    ensures !Outstanding(s', f) && (f in s'.told <==> !v) && s'.active == s.active
  {
    more, s' := Clear(s, [], s, f, v, false);
    more, s' := Clear(s, more, s', f, !v, true);
  }

  /**
   * Notifications are sent by independent goroutines, best effort: any may be given up, and they arrive
   * in any order. The cloud is sure to be right about a family, at every moment or only in the end,
   * exactly when it is right now and nothing outstanding says otherwise.
   */
  lemma EndsRightIff(s: State, f: Family, patient: bool)
    ensures EndsRight(s, f, patient) <==> Settles(s, f, f in s.active)
  {
    var v := f in s.active;
    if Settles(s, f, v) {
      forall more | Run(Next, s, more).Some? && Deliveries(more, f)
        ensures var s' := Run(Next, s, more).value; f in s'.told <==> f in s'.active
      {
        DeliveriesSettle(s, more, f, v);
      }
    } else {
      var more, s' := Unsettled(s, f, v);
      assert Run(Next, s, more).Some?;
    }
  }

  /** None of the family's notifications is lost or overtaken: each arrives before the next is issued. */
  ghost predicate Orderly(steps: seq<Step>, f: Family)
    requires Run(Next, INIT, steps).Some?
  {
    steps == [] ||
    var n := |steps| - 1;
    && Orderly(steps[..n], f)
    && InTurn(Run(Next, INIT, steps[..n]).value, steps[n], f)
  }

  predicate InTurn(s: State, step: Step, f: Family) {
    && (step.Deliver? && step.family == f ==> s.owed[(f, true)] + s.owed[(f, false)] == 1)
    && !(step.Lose? && step.family == f)
  }

  /** With order kept, the last notification issued is outstanding, or what the cloud believes. */
  ghost predicate InStep(s: State, f: Family) {
    var v := LastIssued(Of(s.events, f));
    if Outstanding(s, f) then s.owed[(f, v)] > 0 else f in s.told <==> v
  }

  lemma InStepNext(s: State, step: Step, f: Family)
    requires InStep(s, f) && FamilyFits(s, f) && Next(s, step).Some?
    requires InTurn(s, step, f)
    ensures InStep(Next(s, step).value, f)
  {
    match step
    case HealthyPacket(g) => LeaveInStep(s, g, Bridge, f);
    case FallbackPacket(g) => EnterInStep(s, g, Bridge, f);
    case CountPacket(_) =>
    case SweepDegraded(g) => EnterInStep(s, g, Janitor, f);
    case SweepHealthy(g) => LeaveInStep(s, g, Janitor, f);
    case Deliver(_, _) =>
    case Lose(_, _) =>
  }

  lemma EnterInStep(s: State, g: Family, actor: Actor, f: Family)
    requires InStep(s, f)
    ensures InStep(Enter(s, g, actor), f)
  {
    OneMoreEvent(s.events, Entered(g, actor), f);
    if g == f { OneMoreIssued(Of(s.events, f), Entered(g, actor)); }
  }

  lemma LeaveInStep(s: State, g: Family, actor: Actor, f: Family)
    requires InStep(s, f)
    ensures InStep(Leave(s, g, actor), f)
  {
    OneMoreEvent(s.events, Left(g, actor), f);
    if g == f { OneMoreIssued(Of(s.events, f), Left(g, actor)); }
  }

  lemma OneMoreIssued(ts: seq<Event>, e: Event)
    ensures LastIssued(ts + [e]) == (e.Entered? || (e.actor.Bridge? && LastIssued(ts)))
  {
    assert (ts + [e])[..|ts|] == ts;
  }

  lemma {:induction false} OrderlyInStep(steps: seq<Step>, f: Family)
    requires Run(Next, INIT, steps).Some? && Orderly(steps, f)
    ensures InStep(Run(Next, INIT, steps).value, f)
  {
    if steps != [] {
      var n := |steps| - 1;
      OrderlyInStep(steps[..n], f);
      RunKeepsInv(INIT, steps[..n]);
      assert FamilyFits(Run(Next, INIT, steps[..n]).value, f);
      InStepNext(Run(Next, INIT, steps[..n]).value, steps[n], f);
    }
  }

  /** The issued notifications have it right unless the last transition was never reported. */
  lemma LastIssuedIff(ts: seq<Event>, f: Family)
    requires Alternates(ts) && forall e :: e in ts ==> e.family == f
    ensures LastIssued(ts) == (|ts| % 2 == 1) <==> ts == [] || ts[|ts| - 1] != Left(f, Bridge)
    ensures ts != [] && ts[|ts| - 1] == Left(f, Bridge) ==> LastIssued(ts)
  {
    LastTransition(ts);
    if ts != [] {
      assert ts[|ts| - 1] in ts;
      if ts[|ts| - 1].Left? {
        LastTransition(ts[..|ts| - 1]);
      }
    }
  }

  lemma {:induction false} OfFamily(events: seq<Event>, f: Family)
    ensures forall e :: e in Of(events, f) ==> e.family == f
  {
    if events != [] { OfFamily(events[..|events| - 1], f); }
  }

  lemma LastIssuedReached(steps: seq<Step>, f: Family)
    requires Run(Next, INIT, steps).Some?
    ensures var s := Run(Next, INIT, steps).value; var ts := Of(s.events, f);
            && (LastIssued(ts) == (f in s.active) <==> !MissedRecovery(s, f))
            && (MissedRecovery(s, f) ==> LastIssued(ts) && f !in s.active)
  {
    RunKeepsInv(INIT, steps);
    var s := Run(Next, INIT, steps).value;
    assert FamilyFits(s, f);
    OfFamily(s.events, f);
    LastIssuedIff(Of(s.events, f), f);
  }

  /** The family's last transition was a recovery seen by the bridge. */
  predicate MissedRecovery(s: State, f: Family) {
    var ts := Of(s.events, f);
    ts != [] && ts[|ts| - 1] == Left(f, Bridge)
  }

  /**
   * When no notification is lost or overtaken and none is outstanding, the cloud believes the right thing
   * about a family exactly when its last transition was not a recovery seen by the bridge, which is
   * never reported.
   */
  lemma CloudToldIff(steps: seq<Step>, f: Family)
    requires Run(Next, INIT, steps).Some? && Orderly(steps, f) && !Outstanding(Run(Next, INIT, steps).value, f)
    ensures var s := Run(Next, INIT, steps).value;
            (f in s.told <==> f in s.active) <==> !MissedRecovery(s, f)
  {
    OrderlyInStep(steps, f);
    LastIssuedReached(steps, f);
  }

  /** Without that order the reported recovery itself can be overtaken and leave the cloud wrong. */
  lemma OvertakenRecovery(f: Family) returns (steps: seq<Step>)
    ensures Run(Next, INIT, steps).Some?
    ensures var s := Run(Next, INIT, steps).value;
            && !Outstanding(s, f) && Of(s.events, f) == [Entered(f, Bridge), Left(f, Janitor)]
            && f in s.told && f !in s.active
  {
    var s;
    steps, s := EntersAndLeaves(f);
    steps, s := Extend(Next, INIT, steps, s, Deliver(f, false));
    steps, s := Extend(Next, INIT, steps, s, Deliver(f, true));
  }

  lemma EntersAndLeaves(f: Family) returns (steps: seq<Step>, s: State)
    ensures Run(Next, INIT, steps) == Some(s) && f !in s.active
    ensures Of(s.events, f) == [Entered(f, Bridge), Left(f, Janitor)]
    ensures s.owed[(f, true)] == s.owed[(f, false)] == 1
  {
    steps, s := Extend(Next, INIT, [], INIT, FallbackPacket(f));
    OneMoreEvent([], Entered(f, Bridge), f);
    steps, s := Extend(Next, INIT, steps, s, SweepHealthy(f));
    OneMoreEvent([Entered(f, Bridge)], Left(f, Janitor), f);
  }

  // ---------------------------------------------------------------- an unreported recovery

  ghost predicate NoEntry(more: seq<Step>, f: Family) {
    forall x :: x in more ==> x != FallbackPacket(f) && x != SweepDegraded(f)
  }

  /**
   * Short of the family entering fallback again, the cloud goes on believing it is in fallback: at every
   * moment, or, judged patiently, whenever no notification of the family is outstanding.
   */
  ghost predicate WrongUntilEntry(s: State, f: Family, patient: bool) {
    forall more :: Run(Next, s, more).Some? && NoEntry(more, f) ==>
      var s' := Run(Next, s, more).value;
      f !in s'.active && ((patient && Outstanding(s', f)) || f in s'.told)
  }

  lemma {:induction false} InactiveRun(s: State, more: seq<Step>, f: Family)
    requires f !in s.active && Run(Next, s, more).Some? && NoEntry(more, f)
    ensures var s' := Run(Next, s, more).value;
            f !in s'.active && Of(s'.events, f) == Of(s.events, f) && (Settles(s, f, true) ==> Settles(s', f, true))
  {
    if more != [] {
      var n := |more| - 1;
      assert more[n] in more && forall x :: x in more[..n] ==> x in more;
      InactiveRun(s, more[..n], f);
      InactiveStep(Run(Next, s, more[..n]).value, more[n], f);
    }
  }

  lemma InactiveStep(s: State, step: Step, f: Family)
    requires f !in s.active && Next(s, step).Some? && step != FallbackPacket(f) && step != SweepDegraded(f)
    ensures var s' := Next(s, step).value;
            f !in s'.active && Of(s'.events, f) == Of(s.events, f) && (Settles(s, f, true) ==> Settles(s', f, true))
  {
    match step
    case HealthyPacket(g) => LeaveElsewhere(s, g, Bridge, f);
    case FallbackPacket(g) => EnterElsewhere(s, g, Bridge, f);
    case SweepDegraded(g) => EnterElsewhere(s, g, Janitor, f);
    case SweepHealthy(g) => LeaveElsewhere(s, g, Janitor, f);
    case CountPacket(_) =>
    case Deliver(_, _) =>
    case Lose(_, _) =>
  }

  lemma EnterElsewhere(s: State, g: Family, actor: Actor, f: Family)
    requires f !in s.active && g != f
    ensures var s' := Enter(s, g, actor);
            f !in s'.active && Of(s'.events, f) == Of(s.events, f) && (Settles(s, f, true) ==> Settles(s', f, true))
  {
    OneMoreEvent(s.events, Entered(g, actor), f);
  }

  lemma LeaveElsewhere(s: State, g: Family, actor: Actor, f: Family)
    requires f !in s.active
    ensures var s' := Leave(s, g, actor);
            f !in s'.active && Of(s'.events, f) == Of(s.events, f) && (Settles(s, f, true) ==> Settles(s', f, true))
  {
    OneMoreEvent(s.events, Left(g, actor), f);
  }

  /**
   * After a recovery seen by the bridge no sweep, packet, delivery or loss repairs the cloud's belief
   * until the family enters fallback again, exactly when the cloud believes the family to be in fallback
   * and nothing outstanding says "recovered". That holds for every run so far.
   */
  lemma WrongUntilEntryIff(steps: seq<Step>, f: Family, patient: bool)
    requires Run(Next, INIT, steps).Some? && MissedRecovery(Run(Next, INIT, steps).value, f)
    ensures var s := Run(Next, INIT, steps).value; WrongUntilEntry(s, f, patient) <==> Settles(s, f, true)
  {
    var s := Run(Next, INIT, steps).value;
    LastIssuedReached(steps, f);
    if Settles(s, f, true) {
      forall more | Run(Next, s, more).Some? && NoEntry(more, f)
        ensures var s' := Run(Next, s, more).value; f !in s'.active && f in s'.told
      {
        InactiveRun(s, more, f);
      }
    } else {
      var more, s' := Unsettled(s, f, true);
      assert NoEntry(more, f) && Run(Next, s, more).Some?;
    }
  }

  /**
   * If so far no notification was lost or overtaken and at most one is outstanding, the cloud stays wrong
   * exactly when it has been told of the entry; otherwise the loss of that notification would help.
   */
  lemma UnreportedRecoveryStays(steps: seq<Step>, f: Family, patient: bool)
    requires Run(Next, INIT, steps).Some? && Orderly(steps, f)
    requires var s := Run(Next, INIT, steps).value;
             MissedRecovery(s, f) && s.owed[(f, true)] + s.owed[(f, false)] <= 1
    ensures var s := Run(Next, INIT, steps).value; WrongUntilEntry(s, f, patient) <==> f in s.told
  {
    OrderlyInStep(steps, f);
    LastIssuedReached(steps, f);
    WrongUntilEntryIff(steps, f, patient);
  }
}
