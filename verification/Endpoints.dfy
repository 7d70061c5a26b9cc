/**
 * Ownership of per-family terminator endpoints (internal/terminator/service.go): EnsureFamily calls,
 * idle sweeps and Stop, interleaved at their critical sections.
 */
module Endpoints {
  import opened Common
  import opened Runs

  type Family = string
  type Call = nat

  /** One running endpoint: socket, device and goroutines together. */
  datatype Endpoint = Endpoint(id: nat, family: Family)

  datatype Phase =
    | Looking
    | Fetching                 // missed; fetching the config and bringing the endpoint up
    | Holding(ep: Endpoint)    // endpoint up, before the race check
    | Losing(ep: Endpoint)     // lost the race, before tearing its own endpoint down
    | Returned

  datatype Caller = Caller(family: Family, phase: Phase)

  /**
   * The sweeper may still be at work for a while after Stop has cancelled it; `closed` counts teardowns;
   * identifiers below `next` have been used.
   */
  datatype State = State(
    families: map<Family, Endpoint>,
    callers: map<Call, Caller>,
    cancelled: bool, sweeping: bool,
    launched: set<Endpoint>, closed: multiset<Endpoint>, next: nat)

  const INIT: State := State(map[], map[], false, true, {}, multiset{}, 0)

  datatype Step =
    | Ensure(c: Call, family: Family)
    | Look(c: Call)
    | Fail(c: Call)
    | BringUp(c: Call)
    | RaceCheck(c: Call)
    | TearDown(c: Call)
    | Sweep(idle: set<Family>)
    | Stop
    | SweeperExits

  function PhaseOf(s: State, c: Call): Option<Phase> {
    if c in s.callers then Some(s.callers[c].phase) else None
  }

  function Move(s: State, c: Call, phase: Phase): State
    requires c in s.callers
  {
    s.(callers := s.callers[c := s.callers[c].(phase := phase)])
  }

  /** Closing the entries of some families under the lock. */
  function CloseEntries(s: State, which: set<Family>): State {
    var gone := set f | f in s.families && f in which :: s.families[f];
    s.(families := s.families - which, closed := s.closed + multiset(gone))
  }

  function Next(s: State, step: Step): Option<State> {
    match step
    case Ensure(c, f) =>
      if c in s.callers then None else Some(s.(callers := s.callers[c := Caller(f, Looking)]))
    case Look(c) =>
      if PhaseOf(s, c) != Some(Looking) then None
      else Some(Move(s, c, if s.callers[c].family in s.families then Returned else Fetching))
    case Fail(c) =>
      if PhaseOf(s, c) != Some(Fetching) then None else Some(Move(s, c, Returned))
    case BringUp(c) =>
      if PhaseOf(s, c) != Some(Fetching) then None
      else
        var ep := Endpoint(s.next, s.callers[c].family);
        Some(Move(s, c, Holding(ep)).(launched := s.launched + {ep}, next := s.next + 1))
    case RaceCheck(c) =>
      if c !in s.callers || !s.callers[c].phase.Holding? then None
      else
        var f, ep := s.callers[c].family, s.callers[c].phase.ep;
        if f in s.families then Some(Move(s, c, Losing(ep)))
        else Some(Move(s, c, Returned).(families := s.families[f := ep]))
    case TearDown(c) =>
      if c !in s.callers || !s.callers[c].phase.Losing? then None
      else Some(Move(s, c, Returned).(closed := s.closed + multiset{s.callers[c].phase.ep}))
    case Sweep(idle) => if s.sweeping then Some(CloseEntries(s, idle)) else None
    case Stop => Some(CloseEntries(s, s.families.Keys).(cancelled := true))
    case SweeperExits => if s.cancelled then Some(s.(sweeping := false)) else None
  }

  // ---------------------------------------------------------------- ownership

  predicate InTable(s: State, ep: Endpoint) {
    ep.family in s.families && s.families[ep.family] == ep
  }

  predicate Holds(s: State, c: Call, ep: Endpoint) {
    PhaseOf(s, c) == Some(Holding(ep)) || PhaseOf(s, c) == Some(Losing(ep))
  }

  predicate Open(s: State, ep: Endpoint) { ep in s.launched && s.closed[ep] == 0 }

  ghost predicate EndpointFits(s: State, ep: Endpoint) {
    && (ep in s.launched ==> ep.id < s.next)
    && (ep !in s.launched ==> s.closed[ep] == 0)
    && s.closed[ep] <= 1
    && (InTable(s, ep) ==> Open(s, ep) && forall c :: !Holds(s, c, ep))
    && (forall c :: Holds(s, c, ep) ==> Open(s, ep) && s.callers[c].family == ep.family)
    && (forall c, d :: Holds(s, c, ep) && Holds(s, d, ep) ==> c == d)
    && (Open(s, ep) ==> InTable(s, ep) || exists c :: Holds(s, c, ep))
  }

  ghost predicate Inv(s: State) {
    && (forall f :: f in s.families ==> s.families[f].family == f)
    && (forall ep :: EndpointFits(s, ep))
  }

  lemma MoveHolds(s: State, c: Call, phase: Phase, d: Call, ep: Endpoint)
    requires c in s.callers
    ensures Holds(Move(s, c, phase), d, ep) <==>
              if d == c then phase == Holding(ep) || phase == Losing(ep) else Holds(s, d, ep)
  {}

  lemma CloseEntriesKeeps(s: State, which: set<Family>, ep: Endpoint)
    requires Inv(s)
    ensures EndpointFits(CloseEntries(s, which), ep)
  {
    var s' := CloseEntries(s, which);
    assert EndpointFits(s, ep);
    assert forall c :: Holds(s', c, ep) <==> Holds(s, c, ep);
    assert InTable(s', ep) <==> InTable(s, ep) && ep.family !in which;
    assert s'.closed[ep] == s.closed[ep] + if InTable(s, ep) && ep.family in which then 1 else 0;
  }

  lemma BringUpKeeps(s: State, c: Call, ep: Endpoint)
    requires Inv(s) && PhaseOf(s, c) == Some(Fetching)
    ensures EndpointFits(Next(s, BringUp(c)).value, ep)
  {
    var s' := Next(s, BringUp(c)).value;
    var mine := Endpoint(s.next, s.callers[c].family);
    assert EndpointFits(s, ep);
    assert mine !in s.launched by { assert EndpointFits(s, mine); }
    forall d ensures Holds(s', d, ep) <==> (d == c && ep == mine) || Holds(s, d, ep) {
      MoveHolds(s, c, Holding(mine), d, ep);
    }
    if ep == mine { assert Holds(s', c, ep); }
  }

  /** The call hands its endpoint to the table, or keeps it as a loser. */
  lemma RaceCheckKeeps(s: State, c: Call, ep: Endpoint)
    requires Inv(s) && Next(s, RaceCheck(c)).Some?
    ensures EndpointFits(Next(s, RaceCheck(c)).value, ep)
  {
    var s' := Next(s, RaceCheck(c)).value;
    var mine := s.callers[c].phase.ep;
    assert Holds(s, c, mine);
    assert EndpointFits(s, ep) && EndpointFits(s, mine);
    if s.callers[c].family in s.families {
      forall d ensures Holds(s', d, ep) <==> Holds(s, d, ep) { MoveHolds(s, c, Losing(mine), d, ep); }
      SameOwners(s, s', ep);
    } else {
      forall d ensures Holds(s', d, ep) <==> Holds(s, d, ep) && d != c { MoveHolds(s, c, Returned, d, ep); }
    }
  }

  lemma TearDownKeeps(s: State, c: Call, ep: Endpoint)
    requires Inv(s) && Next(s, TearDown(c)).Some?
    ensures EndpointFits(Next(s, TearDown(c)).value, ep)
  {
    var s' := Next(s, TearDown(c)).value;
    var mine := s.callers[c].phase.ep;
    assert Holds(s, c, mine);
    assert EndpointFits(s, ep) && EndpointFits(s, mine);
    forall d ensures Holds(s', d, ep) <==> Holds(s, d, ep) && d != c { MoveHolds(s, c, Returned, d, ep); }
  }

  lemma StepKeepsEndpoint(s: State, step: Step, ep: Endpoint)
    requires Inv(s) && Next(s, step).Some?
    ensures EndpointFits(Next(s, step).value, ep)
  {
    match step
    case BringUp(c) => BringUpKeeps(s, c, ep);
    case RaceCheck(c) => RaceCheckKeeps(s, c, ep);
    case TearDown(c) => TearDownKeeps(s, c, ep);
    case Sweep(idle) => CloseEntriesKeeps(s, idle, ep);
    case Stop => StopKeeps(s, ep);
    case SweeperExits => SweeperExitKeeps(s, ep);
    case Ensure(_, _) => BystanderKeeps(s, step, ep);
    case Look(_) => BystanderKeeps(s, step, ep);
    case Fail(_) => BystanderKeeps(s, step, ep);
  }

  lemma StopKeeps(s: State, ep: Endpoint)
    requires Inv(s)
    ensures EndpointFits(Next(s, Stop).value, ep)
  {
    var closed := CloseEntries(s, s.families.Keys);
    CloseEntriesKeeps(s, s.families.Keys, ep);
    SameOwners(closed, closed.(cancelled := true), ep);
  }

  lemma SweeperExitKeeps(s: State, ep: Endpoint)
    requires Inv(s)
    ensures EndpointFits(s.(sweeping := false), ep)
  {
    assert EndpointFits(s, ep);
    SameOwners(s, s.(sweeping := false), ep);
  }

  /** Steps of calls that hold nothing. */
  lemma BystanderKeeps(s: State, step: Step, ep: Endpoint)
    requires Inv(s) && Next(s, step).Some? && (step.Ensure? || step.Look? || step.Fail?)
    ensures EndpointFits(Next(s, step).value, ep)
  {
    var s' := Next(s, step).value;
    assert EndpointFits(s, ep);
    forall d ensures Holds(s', d, ep) <==> Holds(s, d, ep) {
      if d != step.c { assert PhaseOf(s', d) == PhaseOf(s, d); }
    }
    SameOwners(s, s', ep);
  }

  lemma SameOwners(s: State, s': State, ep: Endpoint)
    requires EndpointFits(s, ep)
    requires s'.families == s.families && s'.launched == s.launched
    requires s'.closed == s.closed && s'.next == s.next
    requires forall d :: Holds(s', d, ep) <==> Holds(s, d, ep)
    requires forall d :: Holds(s, d, ep) && Holds(s', d, ep) ==> s'.callers[d].family == s.callers[d].family
    ensures EndpointFits(s', ep)
  {}

  lemma StepKeepsInv(s: State, step: Step)
    requires Inv(s) && Next(s, step).Some?
    ensures Inv(Next(s, step).value)
  {
    forall ep ensures EndpointFits(Next(s, step).value, ep) { StepKeepsEndpoint(s, step, ep); }
    if step.RaceCheck? {
      assert Holds(s, step.c, s.callers[step.c].phase.ep);
      assert EndpointFits(s, s.callers[step.c].phase.ep);
    }
  }

  lemma {:induction false} RunKeepsInv(s: State, steps: seq<Step>)
    requires Inv(s) && Run(Next, s, steps).Some?
    ensures Inv(Run(Next, s, steps).value)
  {
    if steps != [] {
      RunKeepsInv(s, steps[..|steps| - 1]);
      StepKeepsInv(Run(Next, s, steps[..|steps| - 1]).value, steps[|steps| - 1]);
    }
  }

  /**
   * In every interleaving each open endpoint has exactly one owner, the table entry of its family or
   * one call that has not finished with it, owners only own open endpoints, and nothing is torn down
   * twice.
   */
  lemma OneOwner(steps: seq<Step>, ep: Endpoint, c: Call, d: Call)
    requires Run(Next, INIT, steps).Some?
    ensures var s := Run(Next, INIT, steps).value;
            && s.closed[ep] <= 1
            && (Open(s, ep) <==> InTable(s, ep) || exists k :: Holds(s, k, ep))
            && !(InTable(s, ep) && Holds(s, c, ep))
            && (Holds(s, c, ep) && Holds(s, d, ep) ==> c == d)
  {
    RunKeepsInv(INIT, steps);
    assert EndpointFits(Run(Next, INIT, steps).value, ep);
  }

  // ---------------------------------------------------------------- what Stop and a sweep close

  /** Exactly the entries of the families in `which` have gone from the table, each torn down once. */
  ghost predicate Closes(s: State, s': State, which: set<Family>) {
    && (forall f :: f in s'.families <==> f in s.families && f !in which)
    && (forall f :: f in s'.families ==> s'.families[f] == s.families[f])
    && (forall ep :: InTable(s, ep) && ep.family in which ==>
          Open(s, ep) && !Open(s', ep) && s.closed[ep] == 0 && s'.closed[ep] == 1)
    && (forall ep :: !(InTable(s, ep) && ep.family in which) ==>
          s'.closed[ep] == s.closed[ep] && (Open(s', ep) <==> Open(s, ep)))
    && s'.callers == s.callers
  }

  lemma CloseEntriesCloses(s: State, which: set<Family>)
    requires Inv(s)
    ensures Closes(s, CloseEntries(s, which), which)
  {
    var s' := CloseEntries(s, which);
    forall ep ensures s'.closed[ep] == s.closed[ep] + if InTable(s, ep) && ep.family in which then 1 else 0 {
      assert EndpointFits(s, ep);
    }
    forall ep | InTable(s, ep) && ep.family in which ensures Open(s, ep) { assert EndpointFits(s, ep); }
  }

  /** From every reachable state Stop empties the table and tears down each entry exactly once, and nothing else. */
  lemma StopCloses(steps: seq<Step>)
    requires Run(Next, INIT, steps).Some?
    ensures var s := Run(Next, INIT, steps).value;
            && Next(s, Stop).Some? && Next(s, Stop).value.families == map[] && Next(s, Stop).value.cancelled
            && Closes(s, Next(s, Stop).value, s.families.Keys)
  {
    RunKeepsInv(INIT, steps);
    StopStep(Run(Next, INIT, steps).value);
  }

  lemma StopStep(s: State)
    requires Inv(s)
    ensures Next(s, Stop).Some? && Next(s, Stop).value.families == map[] && Next(s, Stop).value.cancelled
    ensures Closes(s, Next(s, Stop).value, s.families.Keys)
  {
    var closed := CloseEntries(s, s.families.Keys);
    CloseEntriesCloses(s, s.families.Keys);
    assert closed.families == map[];
    CancelKeepsClosed(s, closed, s.families.Keys);
  }

  lemma CancelKeepsClosed(s: State, s': State, which: set<Family>)
    requires Closes(s, s', which)
    ensures Closes(s, s'.(cancelled := true), which)
  {
    var s'' := s'.(cancelled := true);
    assert forall ep :: Open(s'', ep) <==> Open(s', ep);
  }

  /** From every reachable state a sweep does the same to exactly the idle families' entries. */
  lemma SweepCloses(steps: seq<Step>, idle: set<Family>)
    requires Run(Next, INIT, steps).Some? && Run(Next, INIT, steps).value.sweeping
    ensures var s := Run(Next, INIT, steps).value;
            Next(s, Sweep(idle)).Some? && Closes(s, Next(s, Sweep(idle)).value, idle)
  {
    RunKeepsInv(INIT, steps);
    CloseEntriesCloses(Run(Next, INIT, steps).value, idle);
  }

  /** A call whose family already has an endpoint returns at once, without touching anything. */
  lemma KnownFamilyReturns(s: State, c: Call)
    requires PhaseOf(s, c) == Some(Looking) && s.callers[c].family in s.families
    ensures Next(s, Look(c)) == Some(s.(callers := s.callers[c := Caller(s.callers[c].family, Returned)]))
  {}

  // ---------------------------------------------------------------- when Stop is final

  /** A call that may still install an endpoint. */
  predicate Underway(s: State, c: Call) {
    c in s.callers && (s.callers[c].phase.Looking? || s.callers[c].phase.Fetching? || s.callers[c].phase.Holding?)
  }

  ghost predicate Quiet(s: State) { s.families == map[] && forall c :: !Underway(s, c) }

  ghost predicate NoEnsure(steps: seq<Step>) { forall x :: x in steps ==> !x.Ensure? }

  /** The table stays empty whatever happens, as long as nobody asks for a family again. */
  ghost predicate StaysEmpty(s: State) {
    forall more :: Run(Next, s, more).Some? && NoEnsure(more) ==> Run(Next, s, more).value.families == map[]
  }

  lemma QuietStep(s: State, step: Step)
    requires Quiet(s) && Next(s, step).Some? && !step.Ensure?
    ensures Quiet(Next(s, step).value)
  {
    var s' := Next(s, step).value;
    forall c ensures !Underway(s', c) { assert !Underway(s, c); }
    if step.RaceCheck? { assert Underway(s, step.c); }
  }

  lemma {:induction false} QuietRun(s: State, more: seq<Step>)
    requires Quiet(s) && Run(Next, s, more).Some? && NoEnsure(more)
    ensures Quiet(Run(Next, s, more).value)
  {
    if more != [] {
      var n := |more| - 1;
      assert more[n] in more;
      QuietRun(s, more[..n]);
      QuietStep(Run(Next, s, more[..n]).value, more[n]);
    }
  }

  /** A call that is underway, left to itself, puts an endpoint of its family into the table. */
  lemma Installs(s: State, c: Call) returns (more: seq<Step>, s': State)
    requires Underway(s, c) && s.callers[c].family !in s.families
    ensures Run(Next, s, more) == Some(s')
    ensures forall x :: x in more ==> x in {Look(c), BringUp(c), RaceCheck(c)}
    ensures s.callers[c].family in s'.families && s'.sweeping == s.sweeping
  {
    more, s' := [], s;
    if s'.callers[c].phase.Looking? { more, s' := Extend(Next, s, more, s', Look(c)); }
    if s'.callers[c].phase.Fetching? { more, s' := Extend(Next, s, more, s', BringUp(c)); }
    more, s' := Extend(Next, s, more, s', RaceCheck(c));
  }

  /**
   * With the table empty, as Stop leaves it, it stays empty for ever, short of new requests, exactly
   * when no call is looking, fetching or holding an endpoint.
   */
  lemma StopIsFinalIff(s: State)
    requires s.families == map[]
    ensures StaysEmpty(s) <==> forall c :: !Underway(s, c)
  {
    if c :| Underway(s, c) {
      var more, s' := Installs(s, c);
      assert NoEnsure(more) && s'.families != map[];
      assert !StaysEmpty(s);
    } else {
      forall more | Run(Next, s, more).Some? && NoEnsure(more)
        ensures Run(Next, s, more).value.families == map[]
      {
        QuietRun(s, more);
      }
    }
  }

  lemma TableKept(s: State, step: Step, ep: Endpoint)
    requires Inv(s) && !s.sweeping && InTable(s, ep) && Next(s, step).Some? && step != Stop
    ensures InTable(Next(s, step).value, ep) && !Next(s, step).value.sweeping
  {}

  /** Once the sweeper is gone, an endpoint in the table stays open through every run without another Stop. */
  lemma {:induction false} NothingElseCloses(s: State, more: seq<Step>, ep: Endpoint)
    requires Inv(s) && !s.sweeping && InTable(s, ep) && Run(Next, s, more).Some? && Stop !in more
    ensures var s' := Run(Next, s, more).value; InTable(s', ep) && Open(s', ep) && !s'.sweeping
  {
    if more != [] {
      var n := |more| - 1;
      assert more[n] in more;
      NothingElseCloses(s, more[..n], ep);
      RunKeepsInv(s, more[..n]);
      TableKept(Run(Next, s, more[..n]).value, more[n], ep);
    }
    RunKeepsInv(s, more);
    assert EndpointFits(Run(Next, s, more).value, ep);
  }

  /**
   * Stop called while any call is underway is not final: that call can install its endpoint after the
   * sweeper has gone, and by the lemma above only another Stop closes it.
   */
  lemma InstalledAfterStop(s: State, c: Call) returns (more: seq<Step>, ep: Endpoint)
    requires Inv(s) && Underway(s, c)
    ensures Run(Next, Next(s, Stop).value, more).Some? && NoEnsure(more) && Stop !in more
    ensures var s' := Run(Next, Next(s, Stop).value, more).value;
            !s'.sweeping && InTable(s', ep) && Open(s', ep) && ep.family == s.callers[c].family
  {
    var stopped := Next(s, Stop).value;
    var first, gone := Extend(Next, stopped, [], stopped, SweeperExits);
    var rest, s' := Installs(gone, c);
    Concatenate(Next, stopped, first, gone, rest);
    more, ep := first + rest, s'.families[s.callers[c].family];
    StepKeepsInv(s, Stop);
    RunKeepsInv(stopped, more);
    assert EndpointFits(s', ep);
  }
}
