/**
 * Remote commands: the ledger's life cycle (internal/commands/executor.go) and the polling loop
 * around it (internal/controlsync/commandpoll.go), as interleaved atomic steps. Every ledger read
 * or write may fail, the process may crash between any two steps, and the ledger survives.
 */
module CommandLedger {
  import opened Common
  import opened Runs

  type Id = string

  datatype Status = Pending | Acked | Executing | Done | Failed | Expired

  predicate Terminal(s: Status) { s.Done? || s.Failed? || s.Expired? }

  /** Where the goroutine of one drained command stands. */
  datatype Pc =
    | Queued             // before the idempotency check
    | Checked            // before writing "acked"
    | AckWritten         // before writing "executing"
    | ExecWritten        // before looking up the handler
    | Unhandled          // no handler: before writing "failed"
    | Running            // inside the handler
    | Returned(ok: bool) // before writing "done" or "failed"
    | Finished           // Execute has returned: before reading back and reporting

  /** `runs`, `succeeded` and `reports` record history; the program state is the first two fields. */
  datatype State = State(
    ledger: map<Id, Status>,
    workers: map<Id, Pc>,
    runs: multiset<Id>,
    succeeded: set<Id>,
    reports: set<(Id, bool)>)

  const INIT: State := State(map[], map[], multiset{}, {}, {})

  /** An update that fails may nevertheless have been applied. */
  datatype Write = Applied | Lost | AppliedButErred

  datatype Step =
    | Enqueue(id: Id)
    | Drain
    | Check(id: Id, readable: bool)
    | WriteAcked(id: Id, w: Write)
    | WriteExecuting(id: Id, w: Write)
    | Dispatch(id: Id, handled: bool)
    | Return(id: Id, ok: bool)
    | WriteOutcome(id: Id, w: Write)
    | Report(id: Id, readable: bool)
    | Crash

  function At(s: State, id: Id): Option<Pc> {
    if id in s.workers then Some(s.workers[id]) else None
  }

  function Move(s: State, id: Id, pc: Pc): State {
    s.(workers := s.workers[id := pc])
  }

  /** UPDATE … WHERE id: a missing row stays missing. */
  function Updated(ledger: map<Id, Status>, id: Id, status: Status, w: Write): map<Id, Status> {
    if w.Lost? || id !in ledger then ledger else ledger[id := status]
  }

  /** A status update by the worker of `id`; on an error the worker is done with Execute. */
  function SetStatus(s: State, id: Id, status: Status, w: Write, next: Pc): State {
    Move(s.(ledger := Updated(s.ledger, id, status, w)), id, if w.Applied? then next else Finished)
  }

  function StatusOf(s: State, id: Id): Option<Status> {
    if id in s.ledger then Some(s.ledger[id]) else None
  }

  /** What the cloud is told: success only if "done" is read back. */
  function Told(s: State, id: Id, readable: bool): bool { readable && StatusOf(s, id) == Some(Done) }

  /** `None` when the step is not enabled. */
  function Next(s: State, step: Step): Option<State> {
    match step
    case Enqueue(id) =>
      // ON CONFLICT DO NOTHING
      Some(if id in s.ledger then s else s.(ledger := s.ledger[id := Pending]))
    case Drain =>
      // wg.Wait(): the previous batch has ended
      if s.workers != map[] then None
      else Some(s.(workers := map id | id in s.ledger && s.ledger[id].Pending? :: Queued))
    case Check(id, readable) =>
      if At(s, id) != Some(Queued) then None
      else if readable && id in s.ledger && Terminal(s.ledger[id]) then Some(Move(s, id, Finished))
      else Some(Move(s, id, Checked))
    case WriteAcked(id, w) =>
      if At(s, id) != Some(Checked) then None else Some(SetStatus(s, id, Acked, w, AckWritten))
    case WriteExecuting(id, w) =>
      if At(s, id) != Some(AckWritten) then None else Some(SetStatus(s, id, Executing, w, ExecWritten))
    case Dispatch(id, handled) =>
      if At(s, id) != Some(ExecWritten) then None
      else if !handled then Some(Move(s, id, Unhandled))
      else Some(Move(s, id, Running).(runs := s.runs + multiset{id}))
    case Return(id, ok) =>
      if At(s, id) != Some(Running) then None
      else Some(Move(s, id, Returned(ok)).(succeeded := if ok then s.succeeded + {id} else s.succeeded))
    case WriteOutcome(id, w) =>
      if At(s, id) == Some(Unhandled) || At(s, id) == Some(Returned(false)) then
        Some(SetStatus(s, id, Failed, w, Finished))
      else if At(s, id) == Some(Returned(true)) then Some(SetStatus(s, id, Done, w, Finished))
      else None
    case Report(id, readable) =>
      if At(s, id) != Some(Finished) then None
      else Some(s.(workers := s.workers - {id},
                   reports := s.reports + {(id, Told(s, id, readable))}))
    case Crash => Some(s.(workers := map[]))
  }

  // ---------------------------------------------------------------- the invariant

  /** What a worker's position says about its row and its history. */
  ghost predicate PcFits(s: State, id: Id, pc: Pc)
    requires id in s.ledger
  {
    var st, n := s.ledger[id], s.runs[id];
    match pc
    case Queued => st == Pending && n == 0
    case Checked => st == Pending && n == 0
    case AckWritten => st == Acked && n == 0
    case ExecWritten => st == Executing && n == 0
    case Unhandled => st == Executing && n == 0
    case Running => st == Executing && n == 1
    case Returned(ok) => st == Executing && n == 1 && (ok ==> id in s.succeeded)
    case Finished => true
  }

  ghost predicate RowFits(s: State, id: Id) {
    && s.runs[id] <= 1
    && (id !in s.ledger ==> s.runs[id] == 0 && id !in s.workers)
    && (id in s.ledger && s.ledger[id].Pending? ==> s.runs[id] == 0)
    && (id in s.ledger && s.ledger[id].Acked? ==> s.runs[id] == 0)
    && (id in s.ledger && s.ledger[id].Done? ==> id in s.succeeded)
    && (id in s.succeeded ==> s.runs[id] == 1)
    && ((id, true) in s.reports ==> id in s.succeeded)
    && (id in s.ledger && id in s.workers ==> PcFits(s, id, s.workers[id]))
  }

  ghost predicate Inv(s: State) { forall id :: RowFits(s, id) }

  lemma StepKeepsRow(s: State, step: Step, id: Id)
    requires RowFits(s, id) && Next(s, step).Some?
    ensures RowFits(Next(s, step).value, id)
  {
    match step
    case Enqueue(_) =>
    case Drain =>
    case Crash =>
    case Check(_, _) => ReadKeepsRow(s, step, id);
    case Dispatch(_, _) => ReadKeepsRow(s, step, id);
    case Return(_, _) => ReadKeepsRow(s, step, id);
    case Report(_, _) => ReadKeepsRow(s, step, id);
    case WriteAcked(_, _) => WriteKeepsRow(s, step, id);
    case WriteExecuting(_, _) => WriteKeepsRow(s, step, id);
    case WriteOutcome(worker, w) => OutcomeKeepsRow(s, worker, w, id);
  }

  /** A worker's steps that leave the ledger alone. */
  lemma ReadKeepsRow(s: State, step: Step, id: Id)
    requires RowFits(s, id) && Next(s, step).Some?
    requires step.Check? || step.Dispatch? || step.Return? || step.Report?
    ensures RowFits(Next(s, step).value, id)
  {}

  lemma WriteKeepsRow(s: State, step: Step, id: Id)
    requires RowFits(s, id) && Next(s, step).Some?
    requires step.WriteAcked? || step.WriteExecuting?
    ensures RowFits(Next(s, step).value, id)
  {}

  lemma OutcomeKeepsRow(s: State, worker: Id, w: Write, id: Id)
    requires RowFits(s, id) && Next(s, WriteOutcome(worker, w)).Some?
    ensures RowFits(Next(s, WriteOutcome(worker, w)).value, id)
  {}

  lemma StepKeepsInv(s: State, step: Step)
    requires Inv(s) && Next(s, step).Some?
    ensures Inv(Next(s, step).value)
  {
    forall id ensures RowFits(Next(s, step).value, id) { StepKeepsRow(s, step, id); }
  }

  lemma {:induction false} RunKeepsInv(s: State, steps: seq<Step>)
    requires Inv(s) && Run(Next, s, steps).Some?
    ensures Inv(Run(Next, s, steps).value)
  {
    if steps != [] {
      var n := |steps| - 1;
      RunKeepsInv(s, steps[..n]);
      StepKeepsInv(Run(Next, s, steps[..n]).value, steps[n]);
    }
  }

  // ---------------------------------------------------------------- the executor

  /** What the environment decides during one Execute: the read, the writes, the handler. */
  datatype Luck = Luck(readable: bool, acked: Write, executing: Write, handlerOk: bool, outcome: Write)

  /** Does one Execute of a row in this status reach the handler? */
  predicate Reaches(status: Option<Status>, luck: Luck, handled: bool) {
    && !(luck.readable && status.Some? && Terminal(status.value))
    && luck.acked.Applied? && luck.executing.Applied? && handled
  }

  class Executor {
    var ledger: map<Id, Status>
    var handlers: set<string>
    ghost var s: State
    ghost var trace: seq<Step>

    /** The ledger is the protocol's, and the protocol state is that of a run. */
    ghost predicate Valid()
      reads this
    {
      ledger == s.ledger && Run(Next, INIT, trace) == Some(s)
    }

    constructor ()
      ensures Valid() && trace == [] && handlers == {}
    {
      ledger, handlers, s, trace := map[], {}, INIT, [];
    }

    ghost method Advance(step: Step)
      requires Run(Next, INIT, trace) == Some(s) && Next(s, step).Some?
      modifies this`s, this`trace
      ensures trace == old(trace) + [step] && Run(Next, INIT, trace) == Some(s) == Next(old(s), step)
    {
      assert (trace + [step])[..|trace|] == trace;
      trace, s := trace + [step], Next(s, step).value;
    }

    method Register(commandType: string)
      modifies this`handlers
      ensures handlers == old(handlers) + {commandType}
    {
      handlers := handlers + {commandType};
    }

    method Enqueue(id: Id)
      requires Valid()
      modifies this
      ensures Valid() && handlers == old(handlers)
      ensures ledger == if id in old(ledger) then old(ledger) else old(ledger)[id := Pending]
    {
      Advance(Step.Enqueue(id));
      if id !in ledger { ledger := ledger[id := Pending]; }
    }

    method UpdateRow(id: Id, status: Status, w: Write) returns (ok: bool)
      modifies this`ledger
      ensures ok <==> w.Applied?
      ensures ledger == Updated(old(ledger), id, status, w)
    {
      if !w.Lost? && id in ledger { ledger := ledger[id := status]; }
      return w.Applied?;
    }

    /** One ledger update together with the protocol step it is. */
    method Record(id: Id, status: Status, step: Step, w: Write, ghost next: Pc) returns (ok: bool)
      requires Valid() && Next(s, step) == Some(SetStatus(s, id, status, w, next))
      modifies this`ledger, this`s, this`trace
      ensures Valid() && old(trace) <= trace
      ensures ok <==> w.Applied?
      ensures ledger == Updated(old(ledger), id, status, w)
      ensures Touches(old(s), s, id, if ok then next else Finished)
      ensures s.runs == old(s).runs && s.succeeded == old(s).succeeded
    {
      ok := UpdateRow(id, status, w);
      Advance(step);
    }

    /** The idempotency check; a row that cannot be read counts as open. */
    method IsTerminal(id: Id, readable: bool) returns (terminal: bool)
      requires Valid() && At(s, id) == Some(Queued)
      modifies this`s, this`trace
      ensures Valid() && old(trace) <= trace
      ensures terminal <==> readable && id in ledger && ledger[id] in {Done, Failed, Expired}
      ensures s == Move(old(s), id, if terminal then Finished else Checked)
    {
      terminal := readable && id in ledger && Terminal(ledger[id]);
      Advance(Check(id, readable));
    }

    /** Up to the point where the row says "executing"; false if Execute gives up before. */
    method Claim(id: Id, luck: Luck) returns (ok: bool)
      requires Valid() && At(s, id) == Some(Queued)
      modifies this`ledger, this`s, this`trace
      ensures Valid() && old(trace) <= trace
      ensures ok <==> Reaches(StatusOf(old(s), id), luck, true)
      ensures ledger.Keys == old(ledger).Keys
      ensures Touches(old(s), s, id, if ok then ExecWritten else Finished)
      ensures s.runs == old(s).runs && s.succeeded == old(s).succeeded
    {
      var terminal := IsTerminal(id, luck.readable);
      if terminal { return false; }
      ok := Record(id, Acked, WriteAcked(id, luck.acked), luck.acked, AckWritten);
      if !ok { return; }
      ok := Record(id, Executing, WriteExecuting(id, luck.executing), luck.executing, ExecWritten);
    }

    /** The handler's run and the final status. */
    method RunHandler(id: Id, luck: Luck)
      requires Valid() && At(s, id) == Some(ExecWritten)
      modifies this`ledger, this`s, this`trace
      ensures Valid() && old(trace) <= trace
      ensures s.runs == old(s).runs + multiset{id}
      ensures ledger == Updated(old(ledger), id, if luck.handlerOk then Done else Failed, luck.outcome)
      ensures s.succeeded == old(s).succeeded + (if luck.handlerOk then {id} else {})
      ensures Touches(old(s), s, id, Finished)
    {
      Advance(Dispatch(id, true));
      Advance(Step.Return(id, luck.handlerOk));
      var _ := Record(id, if luck.handlerOk then Done else Failed, WriteOutcome(id, luck.outcome), luck.outcome, Finished);
    }

    /**
     * One whole Execute is a stretch of a protocol run, up to the point of reporting; it starts the
     * handler exactly when both writes before it were acknowledged and a handler is registered.
     */
    method Execute(id: Id, commandType: string, luck: Luck) returns (ran: bool)
      requires Valid() && At(s, id) == Some(Queued)
      modifies this`ledger, this`s, this`trace
      ensures Valid() && old(trace) <= trace
      ensures ran <==>
                && !(luck.readable && id in old(ledger) && old(ledger)[id] in {Done, Failed, Expired})
                && luck.acked.Applied? && luck.executing.Applied? && commandType in handlers
      ensures s.runs == old(s).runs + (if ran then multiset{id} else multiset{})
      ensures ran && id in old(ledger) && !luck.outcome.Lost? ==>
                StatusOf(s, id) == Some(if luck.handlerOk then Done else Failed)
      // a command nobody handles fails
      ensures Reaches(StatusOf(old(s), id), luck, true) && commandType !in handlers && !luck.outcome.Lost? ==>
                id in old(ledger) ==> StatusOf(s, id) == Some(Failed)
      ensures s.succeeded == old(s).succeeded + (if ran && luck.handlerOk then {id} else {})
      ensures Touches(old(s), s, id, Finished)
    {
      ran := Claim(id, luck);
      if !ran { return; }
      ran := commandType in handlers;
      if ran {
        RunHandler(id, luck);
      } else {
        Advance(Dispatch(id, false));
        var _ := Record(id, Failed, WriteOutcome(id, luck.outcome), luck.outcome, Finished);
      }
    }
  }

  /** Only the row and the worker of `id` differ, and the worker stands at `pc`. */
  ghost predicate Touches(before: State, after: State, id: Id, pc: Pc) {
    && after.workers == before.workers[id := pc] && after.reports == before.reports
    && forall j :: j != id ==> StatusOf(after, j) == StatusOf(before, j)
  }

  // ---------------------------------------------------------------- the promises

  /** Over every run a handler starts at most once per command, and "done" is only claimed of success. */
  lemma AtMostOnce(steps: seq<Step>, id: Id)
    requires Run(Next, INIT, steps).Some?
    ensures var s := Run(Next, INIT, steps).value;
            && s.runs[id] <= 1
            && ((id, true) in s.reports ==> id in s.succeeded)
            && (StatusOf(s, id) == Some(Done) ==> id in s.succeeded)
            && (id in s.succeeded ==> s.runs[id] == 1)
  {
    RunKeepsInv(INIT, steps);
    assert RowFits(Run(Next, INIT, steps).value, id);
  }

  lemma TerminalStep(s: State, step: Step, id: Id)
    requires Inv(s) && id in s.ledger && Next(s, step).Some?
    ensures id in Next(s, step).value.ledger
    ensures Terminal(s.ledger[id]) ==> Next(s, step).value.ledger[id] == s.ledger[id]
  {
    assert RowFits(s, id);
  }

  /** A row never disappears, and once terminal its status never changes again. */
  lemma {:induction false} TerminalForever(s: State, more: seq<Step>, id: Id)
    requires Inv(s) && id in s.ledger && Run(Next, s, more).Some?
    ensures var s' := Run(Next, s, more).value;
            id in s'.ledger && (s.ledger[id] in {Done, Failed, Expired} ==> s'.ledger[id] == s.ledger[id])
  {
    if more != [] {
      var n := |more| - 1;
      TerminalForever(s, more[..n], id);
      RunKeepsInv(s, more[..n]);
      TerminalStep(Run(Next, s, more[..n]).value, more[n], id);
    }
  }

  /** Out of reach: the row has left "pending" and nothing is left to do but report. */
  ghost predicate Abandoned(s: State, id: Id) {
    id in s.ledger && !s.ledger[id].Pending? && (id in s.workers ==> s.workers[id].Finished?)
  }

  lemma AbandonedStep(s: State, step: Step, id: Id)
    requires Inv(s) && Abandoned(s, id) && Next(s, step).Some?
    ensures var s' := Next(s, step).value;
            && Abandoned(s', id) && s'.ledger[id] == s.ledger[id] && s'.runs[id] == s.runs[id]
            && (id in s'.succeeded <==> id in s.succeeded)
  {
    assert RowFits(s, id);
  }

  /**
   * The price of at-most-once: a command interrupted after its row left "pending" is never resumed,
   * whatever happens later. Its status, its number of runs and its success are frozen.
   */
  lemma {:induction false} NeverResumed(s: State, more: seq<Step>, id: Id)
    requires Inv(s) && Abandoned(s, id) && Run(Next, s, more).Some?
    ensures var s' := Run(Next, s, more).value;
            && Abandoned(s', id) && s'.ledger[id] == s.ledger[id] && s'.runs[id] == s.runs[id]
            && (id in s'.succeeded <==> id in s.succeeded)
  {
    if more != [] {
      var n := |more| - 1;
      NeverResumed(s, more[..n], id);
      RunKeepsInv(s, more[..n]);
      AbandonedStep(Run(Next, s, more[..n]).value, more[n], id);
    }
  }

  // ---------------------------------------------------------------- failure first, success later

  /** The worst next step of a worker: unreadable row, lost write, no handler, failure. */
  function Abort(s: State, id: Id): Step
    requires id in s.workers
  {
    match s.workers[id]
    case Queued => Check(id, false)
    case Checked => WriteAcked(id, Lost)
    case AckWritten => WriteExecuting(id, Lost)
    case ExecWritten => Dispatch(id, false)
    case Unhandled => WriteOutcome(id, Lost)
    case Running => Return(id, false)
    case Returned(_) => WriteOutcome(id, Lost)
    case Finished => Report(id, false)
  }

  function Rank(pc: Pc): nat {
    match pc
    case Queued => 5
    case Checked => 4
    case AckWritten => 3
    case ExecWritten => 2
    case Running => 2
    case Unhandled => 1
    case Returned(_) => 1
    case Finished => 0
  }

  lemma AbortStep(s: State, j: Id, id: Id)
    requires j in s.workers && j != id
    ensures Next(s, Abort(s, j)).Some?
    ensures var s' := Next(s, Abort(s, j)).value;
            && StatusOf(s', id) == StatusOf(s, id) && s.reports <= s'.reports
            && s'.workers - {j} == s.workers - {j}
            && (j in s'.workers ==> Rank(s'.workers[j]) < Rank(s.workers[j]))
  {
    match s.workers[j]
    case Finished =>
    case Queued => assert s.workers[j := Checked] - {j} == s.workers - {j};
    case ExecWritten => assert s.workers[j := Unhandled] - {j} == s.workers - {j};
    case Running => assert s.workers[j := Returned(false)] - {j} == s.workers - {j};
    case _ => assert s.workers[j := Finished] - {j} == s.workers - {j};
  }

  /** Any worker can be seen through to its report without touching another row. */
  lemma {:induction false} Retire(init: State, more: seq<Step>, s: State, j: Id, id: Id)
    returns (more': seq<Step>, s': State)
    requires Run(Next, init, more) == Some(s) && Crash !in more && j in s.workers && j != id
    ensures Run(Next, init, more') == Some(s') && Crash !in more'
    ensures s'.workers == s.workers - {j} && StatusOf(s', id) == StatusOf(s, id) && s.reports <= s'.reports
    decreases Rank(s.workers[j])
  {
    AbortStep(s, j, id);
    more', s' := Extend(Next, init, more, s, Abort(s, j));
    if j in s'.workers {
      more', s' := Retire(init, more', s', j, id);
    } else {
      assert s'.workers == s'.workers - {j};
    }
  }

  lemma {:induction false} RetireAll(init: State, more: seq<Step>, s: State, id: Id)
    returns (more': seq<Step>, s': State)
    requires Run(Next, init, more) == Some(s) && Crash !in more && id !in s.workers
    ensures Run(Next, init, more') == Some(s') && Crash !in more'
    ensures s'.workers == map[] && StatusOf(s', id) == StatusOf(s, id) && s.reports <= s'.reports
    decreases |s.workers|
  {
    more', s' := more, s;
    if s.workers != map[] {
      var j :| j in s.workers;
      more', s' := Retire(init, more, s, j, id);
      assert s.workers.Keys == s'.workers.Keys + {j};
      more', s' := RetireAll(init, more', s', id);
    }
  }

  /** A row still pending can be drained again, and its handler can succeed. */
  lemma SucceedsLater(s: State, id: Id) returns (more: seq<Step>, s': State)
    requires StatusOf(s, id) == Some(Pending) && id !in s.workers
    ensures Run(Next, s, more) == Some(s') && Crash !in more
    ensures At(s', id) == Some(Returned(true)) && id in s'.succeeded && id in s'.ledger && s.reports <= s'.reports
  {
    more, s' := RetireAll(s, [], s, id);
    more, s' := Extend(Next, s, more, s', Drain);
    more, s' := Extend(Next, s, more, s', Check(id, true));
    more, s' := RunsThrough(s, more, s', id);
  }

  lemma RunsThrough(init: State, more: seq<Step>, s: State, id: Id) returns (more': seq<Step>, s': State)
    requires Run(Next, init, more) == Some(s) && Crash !in more && At(s, id) == Some(Checked) && id in s.ledger
    ensures Run(Next, init, more') == Some(s') && Crash !in more'
    ensures At(s', id) == Some(Returned(true)) && id in s'.succeeded && id in s'.ledger && s'.reports == s.reports
  {
    more', s' := Extend(Next, init, more, s, WriteAcked(id, Applied));
    more', s' := Extend(Next, init, more', s', WriteExecuting(id, Applied));
    more', s' := Extend(Next, init, more', s', Dispatch(id, true));
    more', s' := Extend(Next, init, more', s', Return(id, true));
  }

  /** Some continuation, with or without crashes, makes the command's handler succeed. */
  ghost predicate CanSucceed(s: State, id: Id, crashes: bool) {
    exists more :: Run(Next, s, more).Some? && (crashes || Crash !in more) && id in Run(Next, s, more).value.succeeded
  }

  /**
   * A command that has not succeeded is reported as failed. That report is premature, in that the
   * command can still succeed, exactly when its row is still pending: an acknowledgement was lost.
   */
  lemma LaterSuccessIff(steps: seq<Step>, id: Id, readable: bool, crashes: bool)
    requires Run(Next, INIT, steps).Some?
    requires var s := Run(Next, INIT, steps).value; At(s, id) == Some(Finished) && id !in s.succeeded
    ensures var s := Run(Next, INIT, steps).value; var s' := Next(s, Report(id, readable)).value;
            && (id, false) in s'.reports
            && (CanSucceed(s', id, crashes) <==> StatusOf(s, id) == Some(Pending))
  {
    var s := Run(Next, INIT, steps).value;
    var s' := Next(s, Report(id, readable)).value;
    RunKeepsInv(INIT, steps);
    StepKeepsInv(s, Report(id, readable));
    assert RowFits(s, id);
    if StatusOf(s, id) == Some(Pending) {
      var more, end := SucceedsLater(s', id);
      assert Run(Next, s', more).Some? && id in Run(Next, s', more).value.succeeded;
    } else {
      forall more | Run(Next, s', more).Some? ensures id !in Run(Next, s', more).value.succeeded {
        NeverResumed(s', more, id);
      }
    }
  }

  /** A lost acknowledgement: the cloud is told of a failure and later of a success. */
  lemma FailureThenSuccess(id: Id) returns (steps: seq<Step>)
    ensures Run(Next, INIT, steps).Some?
    ensures var s := Run(Next, INIT, steps).value;
            StatusOf(s, id) == Some(Done) && id in s.succeeded && (id, false) in s.reports && (id, true) in s.reports
  {
    var s, s';
    steps, s := Drained(id);
    steps, s := Extend(Next, INIT, steps, s, WriteAcked(id, Lost));
    steps, s := Extend(Next, INIT, steps, s, Report(id, true));
    var more;
    more, s' := SucceedsLater(s, id);
    Concatenate(Next, INIT, steps, s, more);
    steps, s' := Extend(Next, INIT, steps + more, s', WriteOutcome(id, Applied));
    steps, s' := Extend(Next, INIT, steps, s', Report(id, true));
  }

  lemma Drained(id: Id) returns (steps: seq<Step>, s: State)
    ensures Run(Next, INIT, steps) == Some(s) && Crash !in steps
    ensures At(s, id) == Some(Checked) && StatusOf(s, id) == Some(Pending)
  {
    steps, s := Extend(Next, INIT, [], INIT, Enqueue(id));
    steps, s := Extend(Next, INIT, steps, s, Drain);
    steps, s := Extend(Next, INIT, steps, s, Check(id, true));
  }

  // ---------------------------------------------------------------- success reported as failure

  /** `lost`: some write of the command's outcome was lost. */
  ghost predicate OutcomeFits(s: State, id: Id, lost: bool) {
    && (id in s.succeeded && id in s.workers ==>
          s.workers[id] == Returned(true) || (s.workers[id].Finished? && (StatusOf(s, id) == Some(Done) <==> !lost)))
    && (lost ==> StatusOf(s, id) == Some(Executing) && (id in s.workers ==> s.workers[id].Finished?))
  }

  lemma OutcomeStep(s: State, step: Step, id: Id, lost: bool)
    requires RowFits(s, id) && OutcomeFits(s, id, lost) && Next(s, step).Some?
    ensures OutcomeFits(Next(s, step).value, id, lost || step == WriteOutcome(id, Lost))
  {}

  lemma {:induction false} RunKeepsOutcome(steps: seq<Step>, id: Id)
    requires Run(Next, INIT, steps).Some?
    ensures OutcomeFits(Run(Next, INIT, steps).value, id, WriteOutcome(id, Lost) in steps)
  {
    if steps != [] {
      var n := |steps| - 1;
      RunKeepsOutcome(steps[..n], id);
      RunKeepsInv(INIT, steps[..n]);
      assert steps == steps[..n] + [steps[n]];
      OutcomeStep(Run(Next, INIT, steps[..n]).value, steps[n], id, WriteOutcome(id, Lost) in steps[..n]);
    }
  }

  /**
   * The report on a command whose handler has succeeded is wrong exactly when the one write of its
   * outcome was lost at some point of the run, or the row cannot be read back now.
   */
  lemma MisreportedIff(steps: seq<Step>, id: Id, readable: bool)
    requires Run(Next, INIT, steps).Some?
    requires var s := Run(Next, INIT, steps).value; At(s, id) == Some(Finished) && id in s.succeeded
    ensures !Told(Run(Next, INIT, steps).value, id, readable) <==> !readable || WriteOutcome(id, Lost) in steps
  {
    RunKeepsOutcome(steps, id);
  }

  /** Step `k` reports the command too early, blindly, or after its outcome was lost. */
  ghost predicate BadReport(steps: seq<Step>, k: nat, id: Id)
    requires Run(Next, INIT, steps).Some? && k < |steps|
  {
    Prefix(Next, INIT, steps, k);
    steps[k].Report? && steps[k].id == id
    && (!steps[k].readable
        || StatusOf(Run(Next, INIT, steps[..k]).value, id) == Some(Pending)
        || WriteOutcome(id, Lost) in steps[..k])
  }

  /** Step `k` tells the cloud that the command failed. */
  ghost predicate TellsFailure(steps: seq<Step>, k: nat, id: Id)
    requires Run(Next, INIT, steps).Some? && k < |steps|
  {
    Prefix(Next, INIT, steps, k);
    steps[k].Report? && steps[k].id == id && !Told(Run(Next, INIT, steps[..k]).value, id, steps[k].readable)
  }

  lemma {:induction false} FailureReports(steps: seq<Step>, id: Id)
    requires Run(Next, INIT, steps).Some?
    ensures (id, false) in Run(Next, INIT, steps).value.reports <==>
              exists k :: 0 <= k < |steps| && TellsFailure(steps, k, id)
  {
    if steps != [] {
      var n := |steps| - 1;
      FailureReports(steps[..n], id);
      forall k | 0 <= k < n ensures TellsFailure(steps, k, id) <==> TellsFailure(steps[..n], k, id) {
        assert steps[..n][..k] == steps[..k];
      }
      var s := Run(Next, INIT, steps[..n]).value;
      ReportTells(s, steps[n], id);
      assert TellsFailure(steps, n, id) <==>
        steps[n].Report? && steps[n].id == id && !Told(s, id, steps[n].readable);
      if k: nat :| k < n && TellsFailure(steps[..n], k, id) { assert TellsFailure(steps, k, id); }
    }
  }

  lemma ReportTells(s: State, step: Step, id: Id)
    requires Next(s, step).Some?
    ensures (id, false) in Next(s, step).value.reports <==>
              (id, false) in s.reports || (step.Report? && step.id == id && !Told(s, id, step.readable))
  {}

  lemma BadReportIff(steps: seq<Step>, k: nat, id: Id)
    requires Run(Next, INIT, steps).Some? && id in Run(Next, INIT, steps).value.succeeded && k < |steps|
    ensures BadReport(steps, k, id) <==> TellsFailure(steps, k, id)
  {
    Suffix(Next, INIT, steps, k);
    var s := Run(Next, INIT, steps[..k]).value;
    RunKeepsInv(INIT, steps[..k]);
    assert RowFits(s, id);
    if steps[k].Report? && steps[k].id == id {
      assert steps[k..][..1] == [steps[k]];
      EnabledFirst(s, steps[k..]);
      if id in s.succeeded {
        MisreportedIff(steps[..k], id, steps[k].readable);
      } else {
        RunKeepsOutcome(steps[..k], id);
        if StatusOf(s, id) != Some(Pending) { NeverResumed(s, steps[k..], id); }
      }
    }
  }

  lemma EnabledFirst(s: State, more: seq<Step>)
    requires more != [] && Run(Next, s, more).Some?
    ensures Next(s, more[0]).Some?
  {
    Prefix(Next, s, more, 1);
    assert more[..1][..0] == [];
  }

  /**
   * Over every run: the cloud was told of a failure of a command that succeeded exactly if one of its
   * reports was sent while the row was still pending, without reading the row, or after the write of
   * its outcome was lost.
   */
  lemma FalseFailureIff(steps: seq<Step>, id: Id)
    requires Run(Next, INIT, steps).Some? && id in Run(Next, INIT, steps).value.succeeded
    ensures (id, false) in Run(Next, INIT, steps).value.reports <==>
              exists k :: 0 <= k < |steps| && BadReport(steps, k, id)
  {
    FailureReports(steps, id);
    forall k | 0 <= k < |steps| ensures BadReport(steps, k, id) <==> TellsFailure(steps, k, id) {
      BadReportIff(steps, k, id);
    }
  }

  /** A lost final write: the handler succeeds and the cloud is told it failed, for good. */
  lemma SuccessReportedAsFailure(id: Id) returns (steps: seq<Step>)
    ensures Run(Next, INIT, steps).Some?
    ensures var s := Run(Next, INIT, steps).value;
            id in s.succeeded && (id, false) in s.reports && Abandoned(s, id) && id !in s.workers
  {
    var s;
    steps, s := Drained(id);
    steps, s := RunsThrough(INIT, steps, s, id);
    RunKeepsInv(INIT, steps);
    assert RowFits(s, id);
    steps, s := Extend(Next, INIT, steps, s, WriteOutcome(id, Lost));
    steps, s := Extend(Next, INIT, steps, s, Report(id, true));
  }
}
