/**
 The action runtime of a device: one task at a time, critical sections that queue
 cancel, suspend and resume, and the idle sources that deliver them.

 The main loop dispatches an armed source as a step of its own.  The flush source
 has a higher priority than the source that returns the task, so a task is not
 returned while a flush is pending.
 */
module DeviceRuntimeSpec {
  /** Actions by how suspend treats them; clearing the storage starts under weaker guards. */
  datatype Action = NoAction | Interactive | Short | ClearStorage

  /**
   `id` numbers the tasks; `idleCancel` is the armed source that forwards a cancellation, and
   `idleFor` the task during which it was armed.
   */
  datatype Task = Task(action: Action, id: nat, returning: bool, cancelled: bool, idleCancel: bool, idleFor: nat)

  /** `cancelFor` is the task during which the queued cancellation was raised. */
  datatype Critical = Critical(
    depth: nat, flush: bool, cancelQueued: bool, cancelFor: nat, suspendQueued: bool, resumeQueued: bool)

  datatype PowerTask = NoPower | Suspending | Resuming

  /** What will answer the power task once the current task has completed. */
  datatype Waiting = NotWaiting | ShortTaskDone | CancelledTaskDone

  /** `suspendOwed` and `resumeOwed`: the vfunc was called and has not answered. */
  datatype Power = Power(
    task: PowerTask, suspended: bool, error: bool, suspendOwed: bool, resumeOwed: bool, waiting: Waiting)

  /** A vfunc call, with the nesting depth of critical sections at that moment. */
  datatype Call =
    | CancelCall(depth: nat, running: bool, id: nat, raisedFor: nat)
    | SuspendCall(depth: nat)
    | ResumeCall(depth: nat)

  datatype Runtime = Runtime(
    task: Task, crit: Critical, power: Power, removed: bool, calls: seq<Call>, aborted: bool)

  /** Which optional vfuncs the driver class provides. */
  datatype Driver = Driver(cancel: bool, suspend: bool, resume: bool)

  const INITIAL: Runtime := Runtime(
    Task(NoAction, 0, false, false, false, 0),
    Critical(0, false, false, 0, false, false),
    Power(NoPower, false, false, false, false, NotWaiting), false, [], false)

  predicate Running(t: Task) {
    t.action != NoAction && !t.returning
  }

  // ---------------------------------------------------------------- cancel

  /** Cancel the internal cancellable; its handler arms an idle source the first time. */
  function CancelTask(t: Task, d: Driver): Task {
    var arms := d.cancel && !t.cancelled && !t.returning;
    t.(cancelled := true, idleCancel := t.idleCancel || arms, idleFor := if arms then t.id else t.idleFor)
  }

  function CallCancel(s: Runtime, raisedFor: nat): Runtime {
    s.(calls := s.calls + [CancelCall(s.crit.depth, Running(s.task), s.task.id, raisedFor)])
  }

  function CancelInIdle(s0: Runtime): Runtime {
    var s := s0.(task := s0.task.(idleCancel := false));
    if s.task.action == NoAction then s.(aborted := true)
    else if s.crit.depth > 0 then s.(crit := s.crit.(cancelQueued := true, cancelFor := s.task.idleFor))
    else CallCancel(s, s.task.idleFor)
  }

  // ---------------------------------------------------------------- suspend and resume

  /** Answer the pending power task; there has to be one. */
  function AnswerPower(s: Runtime): Runtime {
    if s.power.task == NoPower then s.(aborted := true)
    else s.(power := s.power.(task := NoPower, error := false, waiting := NotWaiting))
  }

  function MarkSuspended(s: Runtime, error: bool): Runtime {
    s.(power := s.power.(error := error, suspended := true, suspendOwed := false))
  }

  function SuspendComplete(s0: Runtime, error: bool, d: Driver): Runtime {
    if s0.power.task == NoPower || s0.power.error then s0
    else
      var s := MarkSuspended(s0, error);
      if !error || s.task.action == NoAction then AnswerPower(s)
      else s.(power := s.power.(waiting := CancelledTaskDone), task := CancelTask(s.task, d))
  }

  function ResumeComplete(s: Runtime): Runtime {
    if s.power.task == NoPower then s
    else AnswerPower(s.(power := s.power.(suspended := false, resumeOwed := false)))
  }

  function DeviceSuspend(s: Runtime, d: Driver): Runtime {
    match s.task.action
    case NoAction => SuspendComplete(s, false, d)
    case Interactive =>
      if !d.suspend then SuspendComplete(s, true, d)
      else if s.crit.depth > 0 then s.(crit := s.crit.(suspendQueued := true))
      else s.(power := s.power.(suspendOwed := true), calls := s.calls + [SuspendCall(s.crit.depth)])
    case _ => s.(power := s.power.(waiting := ShortTaskDone))
  }

  function DeviceResume(s: Runtime, d: Driver): Runtime {
    match s.task.action
    case NoAction => ResumeComplete(s)
    case Interactive =>
      if !d.resume then ResumeComplete(s)
      else if s.crit.depth > 0 then s.(crit := s.crit.(resumeQueued := true))
      else s.(power := s.power.(resumeOwed := true), calls := s.calls + [ResumeCall(s.crit.depth)])
    case _ => s.(aborted := true)
  }

  /** The public calls; a request that is refused, as busy or removed, changes nothing. */
  function RequestSuspend(s: Runtime, d: Driver): Runtime {
    if s.power.task != NoPower || s.power.suspended || s.removed then s
    else DeviceSuspend(s.(power := s.power.(task := Suspending)), d)
  }

  function RequestResume(s: Runtime, d: Driver): Runtime {
    if s.power.task != NoPower || !s.power.suspended || s.removed then s
    else DeviceResume(s.(power := s.power.(task := Resuming)), d)
  }

  // ---------------------------------------------------------------- critical sections

  function CriticalEnter(s: Runtime): Runtime {
    if s.task.action == NoAction then s
    else s.(crit := s.crit.(depth := s.crit.depth + 1, flush := false))
  }

  function CriticalLeave(s: Runtime): Runtime {
    if s.task.action == NoAction || s.crit.depth == 0 then s
    else s.(crit := s.crit.(depth := s.crit.depth - 1, flush := s.crit.flush || s.crit.depth == 1))
  }

  function ServeCancel(s: Runtime): Runtime {
    var t := s.(crit := s.crit.(cancelQueued := false));
    if Running(s.task) then CallCancel(t, s.crit.cancelFor) else t
  }

  function ServeSuspend(s: Runtime, d: Driver): Runtime {
    DeviceSuspend(s.(crit := s.crit.(suspendQueued := false)), d)
  }

  function ServeResume(s: Runtime, d: Driver): Runtime {
    DeviceResume(s.(crit := s.crit.(resumeQueued := false)), d)
  }

  /** One dispatch of the flush source: one request, or the end of the flush. */
  function Flush(s: Runtime, d: Driver): Runtime {
    if s.crit.cancelQueued then ServeCancel(s)
    else if s.crit.suspendQueued then ServeSuspend(s, d)
    else if s.crit.resumeQueued then ServeResume(s, d)
    else s.(crit := s.crit.(flush := false))
  }

  // ---------------------------------------------------------------- tasks

  function NewTask(t: Task, a: Action): Task {
    t.(action := a, id := t.id + 1, returning := false, cancelled := false)
  }

  /**
   The start guards: busy while a task runs or, but for clearing the storage, while suspended.
   `admitted` is what the remaining guards say, on the device, its features, its temperature
   and the arguments. The new task gets a new cancellable; an armed source is left armed.
   */
  function StartTask(s: Runtime, a: Action, admitted: bool): Runtime {
    if !admitted || s.task.action != NoAction || (s.power.suspended && a != ClearStorage) then s
    else s.(task := NewTask(s.task, a))
  }

  /** The driver completes its action: drop the cancel handlers, schedule the return. */
  function CompleteTask(s: Runtime): Runtime {
    s.(task := s.task.(returning := true, idleCancel := false))
  }

  /** The idle return: the task is over, and whatever waited for it is answered. */
  function ReturnTask(s0: Runtime): Runtime {
    var s := s0.(task := s0.task.(action := NoAction, returning := false, cancelled := false));
    if s.power.waiting == NotWaiting then s else AnswerPower(s)
  }

  datatype Event =
    | Start(action: Action, admitted: bool)
    | Complete
    | Return
    | Cancel
    | IdleCancel
    | Enter
    | Leave
    | FlushIdle
    | Suspend
    | Resume
    | SuspendAnswer(error: bool)
    | ResumeAnswer
    | Remove

  function Step(s: Runtime, ev: Event, d: Driver): Runtime {
    if s.aborted then s
    else match ev
      case Start(a, admitted) => StartTask(s, a, admitted)
      case Complete => CompleteTask(s)
      case Return => ReturnTask(s)
      case Cancel => s.(task := CancelTask(s.task, d))
      case IdleCancel => CancelInIdle(s)
      case Enter => CriticalEnter(s)
      case Leave => CriticalLeave(s)
      case FlushIdle => Flush(s, d)
      case Suspend => RequestSuspend(s, d)
      case Resume => RequestResume(s, d)
      case SuspendAnswer(e) => SuspendComplete(s, e, d)
      case ResumeAnswer => ResumeComplete(s)
      case Remove => s.(removed := true)
  }

  /** Armed sources fire, drivers answer what they were asked and leave sections before completing. */
  predicate MayHappen(s: Runtime, ev: Event) {
    match ev
    case Start(a, _) => a != NoAction
    case Complete => Running(s.task) && s.crit.depth == 0
    case Return => s.task.returning && !s.crit.flush
    case Cancel => s.task.action != NoAction
    case IdleCancel => s.task.idleCancel
    case Enter => !s.task.returning
    case Leave => true
    case FlushIdle => s.crit.flush
    case Suspend => true
    case Resume => true
    case SuspendAnswer(_) => s.power.suspendOwed
    case ResumeAnswer => s.power.resumeOwed
    case Remove => true
  }

  /** A driver that answers no suspend request during a later short task, and no clearing while suspended. */
  predicate Disciplined(s: Runtime, ev: Event) {
    && MayHappen(s, ev)
    && (ev.SuspendAnswer? ==> s.task.action == NoAction || s.task.action == Interactive)
    && (ev.Start? && ev.action == ClearStorage ==> !s.power.suspended)
  }

  function Run(s: Runtime, evs: seq<Event>, d: Driver): Runtime
    decreases |evs|
  {
    if evs == [] then s else Run(Step(s, evs[0], d), evs[1..], d)
  }

  ghost predicate PossibleRun(s: Runtime, evs: seq<Event>, d: Driver)
    decreases |evs|
  {
    evs != [] ==> MayHappen(s, evs[0]) && PossibleRun(Step(s, evs[0], d), evs[1..], d)
  }

  ghost predicate DisciplinedRun(s: Runtime, evs: seq<Event>, d: Driver)
    decreases |evs|
  {
    evs != [] ==> Disciplined(s, evs[0]) && DisciplinedRun(Step(s, evs[0], d), evs[1..], d)
  }

  // ---------------------------------------------------------------- invariants

  predicate Queued(c: Critical) {
    c.cancelQueued || c.suspendQueued || c.resumeQueued
  }

  predicate SectionsInv(s: Runtime) {
    && (s.crit.flush ==> s.crit.depth == 0 && s.task.action != NoAction)
    && (s.crit.depth > 0 ==> Running(s.task))
    && (Queued(s.crit) ==> s.crit.depth > 0 || s.crit.flush)
    && (s.task.returning ==> s.task.action != NoAction)
    && (s.task.idleCancel ==>
          Running(s.task) && s.task.cancelled && s.task.idleFor == s.task.id && !s.crit.cancelQueued)
    && (s.crit.cancelQueued ==> s.crit.cancelFor == s.task.id && s.task.cancelled)
  }

  function B(b: bool): nat {
    if b then 1 else 0
  }

  /** Exactly one thing is due to answer a pending power task, and none without it. */
  predicate PowerInv(s: Runtime) {
    && B(s.crit.suspendQueued) + B(s.power.suspendOwed) + B(s.power.waiting != NotWaiting)
         == B(s.power.task == Suspending)
    && B(s.crit.resumeQueued) + B(s.power.resumeOwed) == B(s.power.task == Resuming)
    && (s.power.waiting != NotWaiting ==> s.task.action != NoAction)
    && (s.power.error ==> s.power.waiting == CancelledTaskDone)
    && (s.power.task == Suspending ==> (s.power.suspended <==> s.power.waiting == CancelledTaskDone))
    && (s.power.task == Resuming ==> s.power.suspended)
    && (s.crit.suspendQueued || s.crit.resumeQueued ==> s.task.action == Interactive)
  }

  predicate GoodCall(c: Call) {
    c.depth == 0 && (c.CancelCall? ==> c.running && c.id == c.raisedFor)
  }

  ghost predicate CallsInv(s: Runtime) {
    && (forall i :: 0 <= i < |s.calls| ==> GoodCall(s.calls[i]))
    && (forall i :: 0 <= i < |s.calls| && s.calls[i].CancelCall? ==>
          && s.calls[i].id <= s.task.id
          && (s.calls[i].id == s.task.id && s.task.action != NoAction ==>
                s.task.cancelled && !s.task.idleCancel && !s.crit.cancelQueued))
    && (forall i, j :: 0 <= i < j < |s.calls| && s.calls[i].CancelCall? && s.calls[j].CancelCall? ==>
          s.calls[i].id < s.calls[j].id)
  }

  ghost predicate Inv(s: Runtime) {
    CallsInv(s) && (!s.aborted ==> SectionsInv(s) && PowerInv(s))
  }

  lemma CancelCallKeepsCalls(s: Runtime, raisedFor: nat)
    requires CallsInv(s)
    requires Running(s.task) && s.crit.depth == 0 && raisedFor == s.task.id
    requires s.task.cancelled && !s.task.idleCancel && !s.crit.cancelQueued
    requires forall i :: 0 <= i < |s.calls| && s.calls[i].CancelCall? ==> s.calls[i].id < s.task.id
    ensures CallsInv(CallCancel(s, raisedFor))
  {
  }

  lemma DeviceSuspendKeeps(s: Runtime, d: Driver)
    requires SectionsInv(s) && CallsInv(s) && !s.aborted
    requires s.power.task == Suspending && !s.power.suspended && !s.power.error
    requires PowerInv(s.(power := s.power.(task := NoPower)))
    ensures Inv(DeviceSuspend(s, d)) && !DeviceSuspend(s, d).aborted
    ensures s.task.action != NoAction ==> DeviceSuspend(s, d).crit.flush == s.crit.flush
  {
  }

  lemma DeviceResumeKeeps(s: Runtime, d: Driver)
    requires SectionsInv(s) && CallsInv(s) && !s.aborted
    requires s.power.task == Resuming && s.power.suspended && !s.power.error
    requires PowerInv(s.(power := s.power.(task := NoPower)))
    ensures Inv(DeviceResume(s, d))
    ensures s.task.action != NoAction ==> DeviceResume(s, d).crit.flush == s.crit.flush
    ensures DeviceResume(s, d).aborted <==> s.task.action != NoAction && s.task.action != Interactive
  {
  }

  function QueueLength(c: Critical): nat {
    B(c.cancelQueued) + B(c.suspendQueued) + B(c.resumeQueued)
  }

  /** A flush step either serves one queued request or, with none left, ends the flush. */
  lemma FlushKeepsInv(s: Runtime, d: Driver)
    requires Inv(s) && !s.aborted && s.crit.flush
    ensures var t := Flush(s, d);
            && Inv(t) && !t.aborted
            && (if QueueLength(s.crit) == 0 then !t.crit.flush && QueueLength(t.crit) == 0
                else t.crit.flush && QueueLength(t.crit) == QueueLength(s.crit) - 1)
  {
    if s.crit.cancelQueued {
      var t := s.(crit := s.crit.(cancelQueued := false));
      if Running(s.task) {
        CancelCallKeepsCalls(t, s.crit.cancelFor);
      }
    } else if s.crit.suspendQueued {
      DeviceSuspendKeeps(s.(crit := s.crit.(suspendQueued := false)), d);
    } else if s.crit.resumeQueued {
      DeviceResumeKeeps(s.(crit := s.crit.(resumeQueued := false)), d);
    }
  }

  lemma IdleCancelKeepsInv(s: Runtime)
    requires Inv(s) && !s.aborted && s.task.idleCancel
    ensures Inv(CancelInIdle(s)) && !CancelInIdle(s).aborted
  {
    if s.crit.depth == 0 {
      CancelCallKeepsCalls(s.(task := s.task.(idleCancel := false)), s.task.idleFor);
    }
  }

  /** Resuming while a short task runs: the only place where an assertion can fail. */
  predicate ResumesShortTask(s: Runtime, ev: Event) {
    && ev.Resume?
    && s.power.task == NoPower && s.power.suspended && !s.removed
    && (s.task.action == Short || s.task.action == ClearStorage)
  }

  lemma PowerStepKeepsInv(s: Runtime, ev: Event, d: Driver)
    requires Inv(s) && !s.aborted
    requires ev.Suspend? || ev.Resume?
    ensures Inv(Step(s, ev, d))
    ensures Step(s, ev, d).aborted <==> ResumesShortTask(s, ev)
  {
    if ev.Suspend? && s.power.task == NoPower && !s.power.suspended && !s.removed {
      DeviceSuspendKeeps(s.(power := s.power.(task := Suspending)), d);
    }
    if ev.Resume? && s.power.task == NoPower && s.power.suspended && !s.removed {
      DeviceResumeKeeps(s.(power := s.power.(task := Resuming)), d);
    }
  }

  lemma AnswerStepKeepsInv(s: Runtime, ev: Event, d: Driver)
    requires Inv(s) && !s.aborted && MayHappen(s, ev)
    requires ev.SuspendAnswer? || ev.ResumeAnswer? || ev.Return?
    ensures Inv(Step(s, ev, d)) && !Step(s, ev, d).aborted
  {
  }

  lemma StepKeepsInv(s: Runtime, ev: Event, d: Driver)
    requires Inv(s) && !s.aborted && MayHappen(s, ev)
    ensures Inv(Step(s, ev, d))
    ensures Step(s, ev, d).aborted <==> ResumesShortTask(s, ev)
  {
    match ev {
      case FlushIdle => FlushKeepsInv(s, d);
      case IdleCancel => IdleCancelKeepsInv(s);
      case Suspend => PowerStepKeepsInv(s, ev, d);
      case Resume => PowerStepKeepsInv(s, ev, d);
      case SuspendAnswer(_) => AnswerStepKeepsInv(s, ev, d);
      case ResumeAnswer => AnswerStepKeepsInv(s, ev, d);
      case Return => AnswerStepKeepsInv(s, ev, d);
      case _ =>
    }
  }

  lemma {:induction false} RunKeepsInv(s: Runtime, evs: seq<Event>, d: Driver)
    requires Inv(s) && PossibleRun(s, evs, d)
    ensures Inv(Run(s, evs, d))
    decreases |evs|
  {
    if evs != [] {
      if !s.aborted {
        StepKeepsInv(s, evs[0], d);
      }
      RunKeepsInv(Step(s, evs[0], d), evs[1..], d);
    }
  }

  // ---------------------------------------------------------------- main results

  /**
   In every run no vfunc is called inside a critical section, and a cancellation reaches
   the driver at most once per task, while that task runs, and never a later task.
   */
  lemma VfuncCalls(evs: seq<Event>, d: Driver)
    requires PossibleRun(INITIAL, evs, d)
    ensures var calls := Run(INITIAL, evs, d).calls;
            && (forall i :: 0 <= i < |calls| ==> calls[i].depth == 0)
            && (forall i :: 0 <= i < |calls| && calls[i].CancelCall? ==>
                  calls[i].running && calls[i].id == calls[i].raisedFor)
            && (forall i, j :: 0 <= i < j < |calls| && calls[i].CancelCall? && calls[j].CancelCall? ==>
                  calls[i].id != calls[j].id)
  {
    RunKeepsInv(INITIAL, evs, d);
    var calls := Run(INITIAL, evs, d).calls;
    forall i | 0 <= i < |calls|
      ensures calls[i].depth == 0
      ensures calls[i].CancelCall? ==> calls[i].running && calls[i].id == calls[i].raisedFor
    {
      assert GoodCall(calls[i]);
    }
  }

  /**
   A queued request always has an open section or an armed flush behind it, suspend and
   resume are never both queued, and a queued cancellation belongs to the current task.
   */
  lemma QueuedRequestsAreServed(evs: seq<Event>, d: Driver)
    requires PossibleRun(INITIAL, evs, d)
    ensures var s := Run(INITIAL, evs, d);
            !s.aborted ==>
              && (Queued(s.crit) ==> s.task.action != NoAction && (s.crit.depth > 0 || s.crit.flush))
              && !(s.crit.suspendQueued && s.crit.resumeQueued)
              && (s.crit.cancelQueued ==> s.crit.cancelFor == s.task.id)
  {
    RunKeepsInv(INITIAL, evs, d);
  }

  /** A pending suspend or resume is always due to be answered by exactly one party. */
  lemma PowerTaskIsAnswered(evs: seq<Event>, d: Driver)
    requires PossibleRun(INITIAL, evs, d)
    ensures var s := Run(INITIAL, evs, d);
            !s.aborted ==>
              B(s.power.task != NoPower)
                == B(s.crit.suspendQueued) + B(s.power.suspendOwed) + B(s.power.waiting != NotWaiting)
                   + B(s.crit.resumeQueued) + B(s.power.resumeOwed)
  {
    RunKeepsInv(INITIAL, evs, d);
  }

  function Flushes(n: nat): seq<Event> {
    seq(n, i => FlushIdle)
  }

  /** Once armed, the flush serves everything queued and stops; only then may the task return. */
  lemma {:induction false} FlushDrains(s: Runtime, d: Driver)
    requires Inv(s) && !s.aborted && s.crit.flush
    ensures var n := QueueLength(s.crit) + 1;
            && PossibleRun(s, Flushes(n), d)
            && Inv(Run(s, Flushes(n), d))
            && !Run(s, Flushes(n), d).crit.flush
            && !Queued(Run(s, Flushes(n), d).crit)
    decreases QueueLength(s.crit)
  {
    var n := QueueLength(s.crit) + 1;
    FlushKeepsInv(s, d);
    assert Flushes(n)[1..] == Flushes(n - 1);
    if n > 1 {
      FlushDrains(Flush(s, d), d);
    } else {
      assert Run(s, Flushes(n), d) == Flush(s, d);
    }
  }

  // ---------------------------------------------------------------- resuming a short task

  /** While suspended only interactive actions, started before, still run. */
  predicate SuspendedQuietly(s: Runtime) {
    s.power.suspended ==> s.task.action == NoAction || s.task.action == Interactive
  }

  lemma DisciplinedStep(s: Runtime, ev: Event, d: Driver)
    requires Inv(s) && SuspendedQuietly(s) && !s.aborted
    requires Disciplined(s, ev)
    ensures SuspendedQuietly(Step(s, ev, d)) && !Step(s, ev, d).aborted
  {
    StepKeepsInv(s, ev, d);
  }

  lemma {:induction false} DisciplinedRunStaysQuiet(s: Runtime, evs: seq<Event>, d: Driver)
    requires Inv(s) && SuspendedQuietly(s) && !s.aborted
    requires DisciplinedRun(s, evs, d)
    ensures !Run(s, evs, d).aborted && SuspendedQuietly(Run(s, evs, d))
    decreases |evs|
  {
    if evs != [] {
      StepKeepsInv(s, evs[0], d);
      DisciplinedStep(s, evs[0], d);
      DisciplinedRunStaysQuiet(Step(s, evs[0], d), evs[1..], d);
    }
  }

  /** The branch of resume that "cannot happen" is not reached in a disciplined run. */
  lemma ResumeAssertionHolds(evs: seq<Event>, d: Driver)
    requires DisciplinedRun(INITIAL, evs, d)
    ensures !Run(INITIAL, evs, d).aborted
  {
    DisciplinedRunStaysQuiet(INITIAL, evs, d);
  }

  /**
   Clearing the storage tests only for a running task: on a suspended idle device the next
   resume meets a short task exactly if that is the action that was started.
   */
  lemma ClearStorageWhileSuspended(s: Runtime, a: Action, d: Driver)
    requires Inv(s) && !s.aborted && a != NoAction && !s.removed
    requires s.task.action == NoAction && s.power.suspended && s.power.task == NoPower
    ensures Run(s, [Start(a, true), Resume], d).aborted <==> a == ClearStorage
  {
    var t := Step(s, Start(a, true), d);
    StepKeepsInv(s, Start(a, true), d);
    StepKeepsInv(t, Resume, d);
    assert Run(s, [Start(a, true), Resume], d) == Run(t, [Resume], d) == Step(t, Resume, d);
  }

  /** A suspend answered only after the next task has started leads to the same place. */
  lemma SuspendAnsweredLate(s: Runtime, a: Action, d: Driver)
    requires Inv(s) && !s.aborted && a != NoAction && !s.removed
    requires s.task.action == NoAction && s.power.suspendOwed
    ensures Run(s, [Start(a, true), SuspendAnswer(false), Resume], d).aborted <==> a != Interactive
  {
    var t := Step(s, Start(a, true), d);
    StepKeepsInv(s, Start(a, true), d);
    var u := Step(t, SuspendAnswer(false), d);
    StepKeepsInv(t, SuspendAnswer(false), d);
    StepKeepsInv(u, Resume, d);
    assert Run(s, [Start(a, true), SuspendAnswer(false), Resume], d)
        == Run(t, [SuspendAnswer(false), Resume], d) == Run(u, [Resume], d) == Step(u, Resume, d);
  }
}
