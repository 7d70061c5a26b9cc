/**
 * The deduplicated fetch of per-family relay configuration (internal/controlsync/family_config.go):
 * every caller's critical sections as atomic steps, interleaved arbitrarily.
 */
module FamilyConfig {
  import opened Common
  import opened Runs

  type Family = string
  type Call = nat

  /** Where one call of FetchFamilyConfig stands. A call that fetches owns one channel, named after it. */
  datatype Phase =
    | Start                // before the first look at the cache
    | Missed               // before taking the lock
    | Waiting(chan: Call)  // selecting on another call's channel
    | Woken                // channel closed, before the second look
    | Retry                // second miss, before taking the lock again
    | Fetching             // own channel registered
    | Storing              // fetch succeeded, before caching it
    | Leaving              // before deleting the registration
    | Closing              // before closing the own channel
    | Returned

  datatype Caller = Caller(family: Family, phase: Phase)

  /**
   * `closed` counts closings; `retried` are the families of which some call has ever missed a second
   * time, `tainted` those of which a fetch failed or an entry vanished that a waiter still needed.
   */
  datatype State = State(
    callers: map<Call, Caller>,
    entries: set<Family>,
    inflight: map<Family, Call>,
    closed: multiset<Call>,
    retried: set<Family>,
    tainted: set<Family>)

  const INIT: State := State(map[], {}, map[], multiset{}, {}, {})

  datatype Step =
    | Begin(c: Call, family: Family)
    | Look(c: Call)
    | Lock(c: Call)
    | Wake(c: Call)
    | Cancel(c: Call)
    | LookAgain(c: Call)
    | Install(c: Call)
    | FetchEnds(c: Call, ok: bool)
    | Store(c: Call)
    | Unregister(c: Call)
    | Close(c: Call)
    | Expire(family: Family)

  function PhaseOf(s: State, c: Call): Option<Phase> {
    if c in s.callers then Some(s.callers[c].phase) else None
  }

  function Move(s: State, c: Call, phase: Phase): State
    requires c in s.callers
  {
    s.(callers := s.callers[c := s.callers[c].(phase := phase)])
  }

  /** The call registers its own channel, over whatever was registered before. */
  function Register(s: State, c: Call): State
    requires c in s.callers
  {
    Move(s, c, Fetching).(inflight := s.inflight[s.callers[c].family := c])
  }

  /** A finished fetch whose result `c` still depends on finding in the cache. */
  ghost predicate Relies(s: State, c: Call) {
    match PhaseOf(s, c)
    case Some(Waiting(ch)) => PhaseOf(s, ch) != Some(Fetching) && PhaseOf(s, ch) != Some(Storing)
    case Some(Woken) => true
    case Some(Leaving) => true
    case _ => false
  }

  /** An entry is needed while a waiter of its fetch has yet to look again. */
  ghost predicate Needed(s: State, family: Family) {
    exists c :: c in s.callers && s.callers[c].family == family && Relies(s, c)
  }

  ghost function Next(s: State, step: Step): Option<State> {
    match step
    case Begin(c, family) =>
      if c in s.callers then None else Some(s.(callers := s.callers[c := Caller(family, Start)]))
    case Look(c) =>
      if PhaseOf(s, c) != Some(Start) then None
      else Some(Move(s, c, if s.callers[c].family in s.entries then Returned else Missed))
    case Lock(c) =>
      if PhaseOf(s, c) != Some(Missed) then None
      else if s.callers[c].family in s.inflight then Some(Move(s, c, Waiting(s.inflight[s.callers[c].family])))
      else Some(Register(s, c))
    case Wake(c) =>
      if c in s.callers && s.callers[c].phase.Waiting? && s.closed[s.callers[c].phase.chan] > 0
      then Some(Move(s, c, Woken)) else None
    case Cancel(c) =>
      if c in s.callers && s.callers[c].phase.Waiting? then Some(Move(s, c, Returned)) else None
    case LookAgain(c) =>
      if PhaseOf(s, c) != Some(Woken) then None
      else if s.callers[c].family in s.entries then Some(Move(s, c, Returned))
      else Some(Move(s, c, Retry).(retried := s.retried + {s.callers[c].family}))
    case Install(c) =>
      if PhaseOf(s, c) != Some(Retry) then None else Some(Register(s, c))
    case FetchEnds(c, ok) =>
      if PhaseOf(s, c) != Some(Fetching) then None
      else if ok then Some(Move(s, c, Storing))
      else Some(Move(s, c, Leaving).(tainted := s.tainted + {s.callers[c].family}))
    case Store(c) =>
      if PhaseOf(s, c) != Some(Storing) then None
      else Some(Move(s, c, Leaving).(entries := s.entries + {s.callers[c].family}))
    case Unregister(c) =>
      // deletes the family's registration, whoever owns it
      if PhaseOf(s, c) != Some(Leaving) then None
      else Some(Move(s, c, Closing).(inflight := s.inflight - {s.callers[c].family}))
    case Close(c) =>
      if PhaseOf(s, c) != Some(Closing) then None
      else Some(Move(s, c, Returned).(closed := s.closed + multiset{c}))
    case Expire(family) =>
      // a TTL running out, or an invalidation
      Some(s.(entries := s.entries - {family},
              tainted := if Needed(s, family) then s.tainted + {family} else s.tainted))
  }

  // ---------------------------------------------------------------- channels

  /** The call has registered its channel and has not closed it yet. */
  predicate Owns(s: State, c: Call) {
    PhaseOf(s, c) in {Some(Fetching), Some(Storing), Some(Leaving), Some(Closing)}
  }

  predicate Registered(s: State, c: Call) {
    PhaseOf(s, c) in {Some(Fetching), Some(Storing), Some(Leaving)}
  }

  ghost predicate CallerFits(s: State, c: Call) {
    && s.closed[c] <= 1
    && (s.closed[c] == 1 ==> PhaseOf(s, c) == Some(Returned))
    && (c in s.callers && s.callers[c].phase.Waiting? ==>
          var ch := s.callers[c].phase.chan;
          ch in s.callers && s.callers[ch].family == s.callers[c].family
          && (Owns(s, ch) || s.closed[ch] == 1))
  }

  ghost predicate RegistrationFits(s: State, family: Family) {
    family in s.inflight ==>
      var c := s.inflight[family];
      Registered(s, c) && s.callers[c].family == family
  }

  // ---------------------------------------------------------------- at most one fetch

  /** While no call of the family has retried, every registered fetch is the one in the table. */
  ghost predicate SoleFetch(s: State, c: Call) {
    c in s.callers && s.callers[c].family !in s.retried ==>
      && (Registered(s, c) ==> Get(s.inflight, s.callers[c].family) == Some(c))
      && !s.callers[c].phase.Retry?
  }

  /** In an untainted family nobody relies in vain on a finished fetch. */
  ghost predicate Served(s: State, c: Call) {
    c in s.callers && s.callers[c].family !in s.tainted && Relies(s, c) ==> s.callers[c].family in s.entries
  }

  ghost predicate Inv(s: State) {
    && (forall c :: CallerFits(s, c))
    && (forall family :: RegistrationFits(s, family))
    && (forall c :: SoleFetch(s, c))
    && (forall c :: Served(s, c))
    && s.retried <= s.tainted
  }

  lemma StepKeepsCaller(s: State, step: Step, c: Call)
    requires Inv(s) && Next(s, step).Some?
    ensures CallerFits(Next(s, step).value, c)
  {
    assert CallerFits(s, c);
    if c in s.callers && s.callers[c].phase.Waiting? { assert CallerFits(s, s.callers[c].phase.chan); }
    match step
    case Begin(_, _) =>
    case Expire(_) =>
    case Lock(_) => LockKeepsCaller(s, step.c, c);
    case Install(_) => LockKeepsCaller(s, step.c, c);
    case _ => MoveKeepsCaller(s, step, c);
  }

  /** Registering a channel, or waiting on the one registered. */
  lemma LockKeepsCaller(s: State, a: Call, c: Call)
    requires Inv(s) && (PhaseOf(s, a) == Some(Missed) || PhaseOf(s, a) == Some(Retry))
    ensures Next(s, Lock(a)).Some? ==> CallerFits(Next(s, Lock(a)).value, c)
    ensures Next(s, Install(a)).Some? ==> CallerFits(Next(s, Install(a)).value, c)
  {
    assert CallerFits(s, c) && CallerFits(s, a) && RegistrationFits(s, s.callers[a].family);
    if c in s.callers && s.callers[c].phase.Waiting? { assert CallerFits(s, s.callers[c].phase.chan); }
  }

  lemma MoveKeepsCaller(s: State, step: Step, c: Call)
    requires Inv(s) && Next(s, step).Some?
    requires !step.Begin? && !step.Expire? && !step.Lock? && !step.Install?
    ensures CallerFits(Next(s, step).value, c)
  {
    assert CallerFits(s, c) && CallerFits(s, step.c);
    if c in s.callers && s.callers[c].phase.Waiting? { assert CallerFits(s, s.callers[c].phase.chan); }
  }

  lemma StepKeepsRegistration(s: State, step: Step, family: Family)
    requires Inv(s) && Next(s, step).Some?
    ensures RegistrationFits(Next(s, step).value, family)
  {
    assert RegistrationFits(s, family);
    if family in s.inflight {
      assert CallerFits(s, s.inflight[family]);
    }
  }

  lemma StepKeepsSole(s: State, step: Step, c: Call)
    requires Inv(s) && Next(s, step).Some?
    ensures SoleFetch(Next(s, step).value, c)
  {
    assert SoleFetch(s, c);
    match step
    case Begin(_, _) =>
    case Expire(_) =>
    case Lock(a) => RegisterKeepsSole(s, step, c);
    case Install(a) => RegisterKeepsSole(s, step, c);
    case Unregister(a) => assert SoleFetch(s, a);
    case _ => MoveKeepsSole(s, step, c);
  }

  lemma RegisterKeepsSole(s: State, step: Step, c: Call)
    requires Inv(s) && Next(s, step).Some? && (step.Lock? || step.Install?)
    ensures SoleFetch(Next(s, step).value, c)
  {
    assert SoleFetch(s, c) && SoleFetch(s, step.c);
  }

  lemma MoveKeepsSole(s: State, step: Step, c: Call)
    requires Inv(s) && Next(s, step).Some?
    requires !step.Begin? && !step.Expire? && !step.Lock? && !step.Install? && !step.Unregister?
    ensures SoleFetch(Next(s, step).value, c)
  {
    assert SoleFetch(s, c);
  }

  lemma StepKeepsServed(s: State, step: Step, c: Call)
    requires Inv(s) && Next(s, step).Some?
    ensures Served(Next(s, step).value, c)
  {
    assert Served(s, c) && CallerFits(s, c);
    match step
    case Begin(_, _) =>
    case Expire(_) =>
    case Wake(a) => WakeKeepsServed(s, a, c);
    case Lock(a) => LockKeepsServed(s, a, c);
    case FetchEnds(_, _) => FetchKeepsServed(s, step, c);
    case Store(_) => FetchKeepsServed(s, step, c);
    case Unregister(_) => FetchKeepsServed(s, step, c);
    case _ => MoveKeepsServed(s, step, c);
  }

  /** Steps of a call on which nobody waits, or that has long finished fetching. */
  lemma MoveKeepsServed(s: State, step: Step, c: Call)
    requires Inv(s) && Next(s, step).Some?
    requires step.Look? || step.Cancel? || step.Close? || step.LookAgain? || step.Install?
    ensures Served(Next(s, step).value, c)
  {
    assert Served(s, c) && CallerFits(s, c);
  }

  lemma WakeKeepsServed(s: State, a: Call, c: Call)
    requires Inv(s) && Next(s, Wake(a)).Some?
    ensures Served(Next(s, Wake(a)).value, c)
  {
    assert Served(s, c) && CallerFits(s, c) && CallerFits(s, a) && CallerFits(s, s.callers[a].phase.chan);
  }

  lemma LockKeepsServed(s: State, a: Call, c: Call)
    requires Inv(s) && Next(s, Lock(a)).Some?
    ensures Served(Next(s, Lock(a)).value, c)
  {
    assert Served(s, c) && CallerFits(s, c);
    var family := s.callers[a].family;
    assert RegistrationFits(s, family);
    if family in s.inflight { assert Served(s, s.inflight[family]); }
  }

  lemma FetchKeepsServed(s: State, step: Step, c: Call)
    requires Inv(s) && Next(s, step).Some?
    requires step.FetchEnds? || step.Store? || step.Unregister?
    ensures Served(Next(s, step).value, c)
  {
    assert Served(s, c) && CallerFits(s, c);
  }

  /** Whoever misses a second time had relied on an entry: its absence is somebody's failure or loss. */
  lemma RetriedIsTainted(s: State, step: Step)
    requires Inv(s) && Next(s, step).Some?
    ensures Next(s, step).value.retried <= Next(s, step).value.tainted
  {
    if step.LookAgain? { assert Served(s, step.c); }
  }

  lemma StepKeepsInv(s: State, step: Step)
    requires Inv(s) && Next(s, step).Some?
    ensures Inv(Next(s, step).value)
  {
    forall c ensures CallerFits(Next(s, step).value, c) { StepKeepsCaller(s, step, c); }
    forall f ensures RegistrationFits(Next(s, step).value, f) { StepKeepsRegistration(s, step, f); }
    forall c ensures SoleFetch(Next(s, step).value, c) { StepKeepsSole(s, step, c); }
    forall c ensures Served(Next(s, step).value, c) { StepKeepsServed(s, step, c); }
    RetriedIsTainted(s, step);
  }

  lemma {:induction false} RunKeepsInv(s: State, steps: seq<Step>)
    requires Inv(s) && Run(Next, s, steps).Some?
    ensures Inv(Run(Next, s, steps).value)
  {
    if steps != [] {
      var n := |steps| - 1;
      RunKeepsInv(s, steps[..n]);
      StepKeepsInv(Run(Next, s, steps[..n]).value, steps[n]);
    }
  }

  // ---------------------------------------------------------------- the promises

  /**
   * In every interleaving no channel is closed twice, and nobody waits for nothing: a waiter's channel
   * is closed already, or belongs to a call that is still on its way to closing it.
   */
  lemma ChannelsSafe(steps: seq<Step>, c: Call)
    requires Run(Next, INIT, steps).Some?
    ensures var s := Run(Next, INIT, steps).value;
            && s.closed[c] <= 1
            && (c in s.callers && s.callers[c].phase.Waiting? ==>
                  var ch := s.callers[c].phase.chan;
                  s.closed[ch] == 1 || (Owns(s, ch) && s.callers[ch].family == s.callers[c].family))
  {
    RunKeepsInv(INIT, steps);
    assert CallerFits(Run(Next, INIT, steps).value, c);
  }

  /** The call's own next step, one of which is always enabled: nobody is ever stuck for good. */
  function OwnStep(s: State, c: Call): Option<Step> {
    match PhaseOf(s, c)
    case Some(Start) => Some(Look(c))
    case Some(Missed) => Some(Lock(c))
    case Some(Waiting(ch)) => if s.closed[ch] > 0 then Some(Wake(c)) else None
    case Some(Woken) => Some(LookAgain(c))
    case Some(Retry) => Some(Install(c))
    case Some(Fetching) => Some(FetchEnds(c, true))
    case Some(Storing) => Some(Store(c))
    case Some(Leaving) => Some(Unregister(c))
    case Some(Closing) => Some(Close(c))
    case _ => None
  }

  lemma WaitersProgress(steps: seq<Step>, c: Call)
    requires Run(Next, INIT, steps).Some?
    requires var s := Run(Next, INIT, steps).value;
             c in s.callers && !s.callers[c].phase.Returned?
    ensures var s := Run(Next, INIT, steps).value;
            exists d :: d in s.callers && s.callers[d].family == s.callers[c].family
              && OwnStep(s, d).Some? && Next(s, OwnStep(s, d).value).Some?
  {
    var s := Run(Next, INIT, steps).value;
    RunKeepsInv(INIT, steps);
    assert CallerFits(s, c);
    var d := if OwnStep(s, c).Some? then c else s.callers[c].phase.chan;
    assert OwnStep(s, d).Some? && Next(s, OwnStep(s, d).value).Some?;
  }

  /** While no call of the family has missed a second time, at most one fetch of it is in flight. */
  lemma AtMostOneFetch(steps: seq<Step>, c: Call, d: Call)
    requires Run(Next, INIT, steps).Some?
    requires var s := Run(Next, INIT, steps).value;
             && Registered(s, c) && Registered(s, d)
             && s.callers[c].family == s.callers[d].family && s.callers[c].family !in s.retried
    ensures c == d
  {
    RunKeepsInv(INIT, steps);
    var s := Run(Next, INIT, steps).value;
    assert SoleFetch(s, c) && SoleFetch(s, d);
  }

  /** A second miss takes a failed fetch, or an entry that vanished before its waiters looked again. */
  lemma SecondMissNeedsLoss(steps: seq<Step>)
    requires Run(Next, INIT, steps).Some?
    ensures Run(Next, INIT, steps).value.retried <= Run(Next, INIT, steps).value.tainted
  {
    RunKeepsInv(INIT, steps);
  }

  /** A call whose family is cached returns at once: no fetch starts and nobody is waited for. */
  lemma CachedFamilyReturns(s: State, c: Call)
    requires PhaseOf(s, c) == Some(Start) && s.callers[c].family in s.entries
    ensures Next(s, Look(c)) == Some(s.(callers := s.callers[c := Caller(s.callers[c].family, Returned)]))
  {}

  /** So does a waiter that finds the entry when its channel is closed. */
  lemma WaiterServed(s: State, c: Call)
    requires PhaseOf(s, c) == Some(Woken) && s.callers[c].family in s.entries
    ensures Next(s, LookAgain(c)) == Some(s.(callers := s.callers[c := Caller(s.callers[c].family, Returned)]))
  {}

  /** And a call that misses while its family is being fetched waits for that very fetch. */
  lemma BusyFamilyWaits(s: State, c: Call)
    requires PhaseOf(s, c) == Some(Missed) && s.callers[c].family in s.inflight
    ensures Next(s, Lock(c)) ==
              Some(s.(callers := s.callers[c := Caller(s.callers[c].family, Waiting(s.inflight[s.callers[c].family]))]))
  {}

  // ---------------------------------------------------------------- after a second miss

  lemma {:induction false} Fresh(used: set<Call>) returns (c: Call)
    ensures forall x :: x in used ==> x < c
    decreases |used|
  {
    c := 0;
    if x :| x in used {
      c := Fresh(used - {x});
      c := if c > x then c else x + 1;
      assert forall y :: y in used ==> y == x || y in used - {x};
    }
  }

  ghost predicate NoFailure(more: seq<Step>) { forall x :: x in more ==> !(x.FetchEnds? && !x.ok) }

  /**
   * A call that has missed a second time can always end up fetching beside another call of its family,
   * without any further failure or second miss.
   */
  lemma SecondMissBreaks(s: State, c: Call) returns (more: seq<Step>, s': State, d: Call)
    requires PhaseOf(s, c) == Some(Retry) && RegistrationFits(s, s.callers[c].family)
    ensures Run(Next, s, more) == Some(s') && NoFailure(more) && s'.retried == s.retried
    ensures c != d && Registered(s', c) && Registered(s', d)
    ensures s'.callers[c].family == s'.callers[d].family == s.callers[c].family
  {
    var family := s.callers[c].family;
    more, s' := [], s;
    if family in s.inflight {
      d := s.inflight[family];
    } else {
      d := Fresh(s.callers.Keys);
      more, s' := NewFetch(s, d, family);
    }
    more, s' := Extend(Next, s, more, s', Install(c));
  }

  /** A new call of a family that nobody is fetching starts a fetch, once any entry has expired. */
  lemma NewFetch(s: State, d: Call, family: Family) returns (more: seq<Step>, s': State)
    requires d !in s.callers && family !in s.inflight
    ensures Run(Next, s, more) == Some(s') && NoFailure(more) && s'.retried == s.retried
    ensures s'.callers == s.callers[d := Caller(family, Fetching)]
  {
    more, s' := Extend(Next, s, [], s, Expire(family));
    more, s' := Extend(Next, s, more, s', Begin(d, family));
    more, s' := Extend(Next, s, more, s', Look(d));
    more, s' := Extend(Next, s, more, s', Lock(d));
  }

  // ---------------------------------------------------------------- deduplication, exactly

  /** At most one fetch of the family is in flight. */
  ghost predicate Single(s: State, family: Family) {
    forall c, d :: Registered(s, c) && Registered(s, d) && s.callers[c].family == s.callers[d].family == family ==> c == d
  }

  /** The state with the family's second misses so far forgotten. */
  function Forget(s: State, family: Family): State { s.(retried := s.retried - {family}) }

  lemma ForgetStep(s: State, s0: State, step: Step, family: Family)
    requires s.(retried := s0.retried) == s0 && s.retried - {family} == s0.retried - {family}
    ensures Next(s0, step).Some? <==> Next(s, step).Some?
    ensures Next(s, step).Some? ==>
              var s', s0' := Next(s, step).value, Next(s0, step).value;
              s'.(retried := s0'.retried) == s0' && s'.retried - {family} == s0'.retried - {family}
  {
    if step.LookAgain? && step.c in s.callers {
      var f := s.callers[step.c].family;
      assert (s.retried + {f}) - {family} == (s.retried - {family}) + ({f} - {family});
      assert (s0.retried + {f}) - {family} == (s0.retried - {family}) + ({f} - {family});
    }
  }

  /** Nothing depends on what is forgotten: the continuations are the same, state for state. */
  lemma {:induction false} ForgetRun(s: State, more: seq<Step>, family: Family)
    ensures var r, r0 := Run(Next, s, more), Run(Next, Forget(s, family), more);
            && (r.Some? <==> r0.Some?)
            && (r.Some? ==> r.value.(retried := r0.value.retried) == r0.value
                            && r.value.retried - {family} == r0.value.retried - {family})
  {
    if more != [] {
      var n := |more| - 1;
      ForgetRun(s, more[..n], family);
      if Run(Next, s, more[..n]).Some? {
        ForgetStep(Run(Next, s, more[..n]).value, Run(Next, Forget(s, family), more[..n]).value, more[n], family);
      }
    }
  }

  /** In every continuation without a new second miss of the family, it has at most one fetch in flight. */
  ghost predicate StaysSingle(s: State, family: Family) {
    forall more :: Run(Next, Forget(s, family), more).Some? ==>
      var s' := Run(Next, Forget(s, family), more).value;
      family in s'.retried || Single(s', family)
  }

  /** No call of the family is about to retry, and its only fetch is the one in the table. */
  ghost predicate Deduplicated(s: State, family: Family) {
    forall c :: c in s.callers && s.callers[c].family == family ==>
      PhaseOf(s, c) != Some(Retry) && (Registered(s, c) ==> Get(s.inflight, family) == Some(c))
  }

  lemma ForgetKeepsInv(s: State, family: Family)
    requires Inv(s) && Deduplicated(s, family)
    ensures Inv(Forget(s, family))
  {
    var s0 := Forget(s, family);
    forall c ensures CallerFits(s0, c) { assert CallerFits(s, c); }
    forall f ensures RegistrationFits(s0, f) { assert RegistrationFits(s, f); }
    forall c ensures SoleFetch(s0, c) { assert SoleFetch(s, c); }
    forall c ensures Served(s0, c) { assert Served(s, c); }
  }

  lemma SingleFromInv(s: State, family: Family)
    requires Inv(s) && family !in s.retried
    ensures Single(s, family)
  {
    forall c, d | Registered(s, c) && Registered(s, d) && s.callers[c].family == s.callers[d].family == family
      ensures c == d
    {
      assert SoleFetch(s, c) && SoleFetch(s, d);
    }
  }

  /** A fetch that is not the registered one stands, or can come to stand, beside another. */
  lemma StrayFetchBreaks(s: State, c: Call) returns (more: seq<Step>, s': State)
    requires Registered(s, c) && RegistrationFits(s, s.callers[c].family)
    requires Get(s.inflight, s.callers[c].family) != Some(c)
    ensures Run(Next, s, more) == Some(s') && s'.retried == s.retried && !Single(s', s.callers[c].family)
  {
    var family := s.callers[c].family;
    more, s' := [], s;
    if family in s.inflight {
      assert Registered(s, s.inflight[family]);
    } else {
      var d := Fresh(s.callers.Keys);
      more, s' := NewFetch(s, d, family);
      assert Registered(s', d) && Registered(s', c);
    }
  }

  /**
   * From every reachable state: short of a new second miss the code goes on, or goes back to, fetching the
   * family at most once at a time exactly when no call of it is about to retry and every fetch of it in
   * flight is the one in the table. Past failures do not matter once their calls are done.
   */
  lemma StaysSingleIff(steps: seq<Step>, family: Family)
    requires Run(Next, INIT, steps).Some?
    ensures var s := Run(Next, INIT, steps).value; StaysSingle(s, family) <==> Deduplicated(s, family)
  {
    RunKeepsInv(INIT, steps);
    var s := Run(Next, INIT, steps).value;
    var s0 := Forget(s, family);
    if Deduplicated(s, family) {
      ForgetKeepsInv(s, family);
      forall more | Run(Next, s0, more).Some? && family !in Run(Next, s0, more).value.retried
        ensures Single(Run(Next, s0, more).value, family)
      {
        RunKeepsInv(s0, more);
        SingleFromInv(Run(Next, s0, more).value, family);
      }
    } else {
      var c :| c in s.callers && s.callers[c].family == family
        && (PhaseOf(s, c) == Some(Retry) || (Registered(s, c) && Get(s.inflight, family) != Some(c)));
      assert RegistrationFits(s, family) && RegistrationFits(s0, family);
      var more, s';
      if PhaseOf(s, c) == Some(Retry) {
        var d;
        more, s', d := SecondMissBreaks(s0, c);
      } else {
        more, s' := StrayFetchBreaks(s0, c);
      }
      assert Run(Next, s0, more).Some? && !Single(s', family);
    }
  }

  ghost predicate NoExpiry(more: seq<Step>) { forall x :: x in more ==> !x.Expire? }

  /**
   * One failed fetch undoes the deduplication altogether: however many calls wait for it, all of them
   * can end up fetching at the same time. Only an entry already in the cache would have to expire.
   */
  lemma FailureUndoesDeduplication(s: State, owner: Call, waiters: set<Call>)
    returns (more: seq<Step>, s': State)
    requires Inv(s) && PhaseOf(s, owner) == Some(Fetching)
    requires forall w :: w in waiters ==> PhaseOf(s, w) == Some(Waiting(owner))
    ensures Run(Next, s, more) == Some(s')
    ensures s.callers[owner].family !in s.entries ==> NoExpiry(more)
    ensures forall w :: w in waiters ==> PhaseOf(s', w) == Some(Fetching)
  {
    var family := s.callers[owner].family;
    more, s' := [], s;
    if family in s.entries { more, s' := Extend(Next, s, more, s', Expire(family)); }
    more, s' := FailedFetch(s, more, s', owner);
    forall w | w in waiters ensures s'.callers[w] == Caller(family, Waiting(owner)) { assert CallerFits(s, w); }
    more, s' := RetryAll(s, more, s', owner, family, waiters);
  }

  lemma FailedFetch(init: State, more: seq<Step>, s: State, c: Call) returns (more': seq<Step>, s': State)
    requires Run(Next, init, more) == Some(s) && PhaseOf(s, c) == Some(Fetching)
    ensures Run(Next, init, more') == Some(s') && (NoExpiry(more) ==> NoExpiry(more'))
    ensures s'.callers == s.callers[c := Caller(s.callers[c].family, Returned)]
    ensures s'.closed == s.closed + multiset{c} && s'.entries == s.entries
  {
    more', s' := Extend(Next, init, more, s, FetchEnds(c, false));
    more', s' := Extend(Next, init, more', s', Unregister(c));
    more', s' := Extend(Next, init, more', s', Close(c));
  }

  lemma {:induction false} RetryAll(init: State, more: seq<Step>, s: State, owner: Call, family: Family, waiters: set<Call>)
    returns (more': seq<Step>, s': State)
    requires Run(Next, init, more) == Some(s) && s.closed[owner] > 0 && family !in s.entries
    requires forall w :: w in waiters ==> w in s.callers && s.callers[w] == Caller(family, Waiting(owner))
    ensures Run(Next, init, more') == Some(s') && (NoExpiry(more) ==> NoExpiry(more'))
    ensures forall w :: w in waiters ==> PhaseOf(s', w) == Some(Fetching)
    ensures forall c :: c !in waiters ==> PhaseOf(s', c) == PhaseOf(s, c)
    decreases |waiters|
  {
    more', s' := more, s;
    if w :| w in waiters {
      more', s' := RetryOne(init, more, s, w, owner, family);
      more', s' := RetryAll(init, more', s', owner, family, waiters - {w});
    }
  }

  lemma RetryOne(init: State, more: seq<Step>, s: State, w: Call, owner: Call, family: Family)
    returns (more': seq<Step>, s': State)
    requires Run(Next, init, more) == Some(s) && w in s.callers && s.callers[w] == Caller(family, Waiting(owner))
    requires s.closed[owner] > 0 && family !in s.entries
    ensures Run(Next, init, more') == Some(s') && (NoExpiry(more) ==> NoExpiry(more'))
    ensures s'.callers == s.callers[w := Caller(family, Fetching)] && s'.closed == s.closed && s'.entries == s.entries
  {
    more', s' := Extend(Next, init, more, s, Wake(w));
    more', s' := Extend(Next, init, more', s', LookAgain(w));
    more', s' := Extend(Next, init, more', s', Install(w));
  }
}
