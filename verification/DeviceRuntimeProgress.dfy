/** What reaches the driver and the caller: cancellations, power requests and their answers. */
module DeviceRuntimeProgress {
  import opened DeviceRuntimeSpec

  // ---------------------------------------------------------------- cancellations

  predicate Cancelled(calls: seq<Call>, id: nat) {
    exists i :: 0 <= i < |calls| && calls[i].CancelCall? && calls[i].id == id
  }

  /** A cancellation of the running task is on its way to the driver, or has reached it. */
  predicate OnItsWay(s: Runtime, d: Driver) {
    Running(s.task) && s.task.cancelled && d.cancel ==>
      s.task.idleCancel || s.crit.cancelQueued || Cancelled(s.calls, s.task.id)
  }

  lemma CallRecorded(calls: seq<Call>, c: Call, id: nat)
    ensures Cancelled(calls, id) ==> Cancelled(calls + [c], id)
    ensures c.CancelCall? ==> Cancelled(calls + [c], c.id)
  {
    var more := calls + [c];
    assert more[|calls|] == c;
    if Cancelled(calls, id) {
      var i :| 0 <= i < |calls| && calls[i].CancelCall? && calls[i].id == id;
      assert more[i] == calls[i];
    }
  }

  lemma CallsGrow(calls: seq<Call>, more: seq<Call>, id: nat)
    requires Cancelled(calls, id) && calls <= more
    ensures Cancelled(more, id)
  {
    var i :| 0 <= i < |calls| && calls[i].CancelCall? && calls[i].id == id;
    assert more[i] == calls[i];
  }

  lemma CallsAreKept(s: Runtime, ev: Event, d: Driver)
    ensures s.calls <= Step(s, ev, d).calls
  {
  }

  /** Dispatching the idle source, or the flush, passes a cancellation on. */
  lemma DispatchPassesOn(s: Runtime, ev: Event, d: Driver)
    requires Inv(s) && !s.aborted && MayHappen(s, ev) && Running(s.task)
    requires ev.IdleCancel? || (ev.FlushIdle? && s.crit.cancelQueued)
    ensures var t := Step(s, ev, d); t.crit.cancelQueued || Cancelled(t.calls, s.task.id)
  {
    if ev.FlushIdle? || s.crit.depth == 0 {
      CallRecorded(s.calls, CancelCall(s.crit.depth, true, s.task.id,
                                       if ev.FlushIdle? then s.crit.cancelFor else s.task.idleFor), s.task.id);
    }
  }

  /** Every other step leaves the source and the queue as they are, or arms the source for a new cancellation. */
  lemma OthersLeaveAlone(s: Runtime, ev: Event, d: Driver)
    requires Inv(s) && !s.aborted && MayHappen(s, ev) && Running(s.task)
    requires !ev.IdleCancel? && !(ev.FlushIdle? && s.crit.cancelQueued)
    ensures var t := Step(s, ev, d);
            Running(t.task) ==>
              && t.task.id == s.task.id
              && (s.task.idleCancel ==> t.task.idleCancel)
              && (s.crit.cancelQueued ==> t.crit.cancelQueued)
              && (t.task.cancelled && !s.task.cancelled && d.cancel ==> t.task.idleCancel)
  {
  }

  lemma StartedFresh(s: Runtime, ev: Event, d: Driver)
    requires Inv(s) && !s.aborted && MayHappen(s, ev) && !Running(s.task)
    ensures var t := Step(s, ev, d); Running(t.task) ==> !t.task.cancelled
  {
  }

  lemma OnItsWayStep(s: Runtime, ev: Event, d: Driver)
    requires Inv(s) && !s.aborted && MayHappen(s, ev) && OnItsWay(s, d)
    ensures OnItsWay(Step(s, ev, d), d)
  {
    CallsAreKept(s, ev, d);
    if !Running(s.task) {
      StartedFresh(s, ev, d);
    } else if ev.IdleCancel? || (ev.FlushIdle? && s.crit.cancelQueued) {
      DispatchPassesOn(s, ev, d);
      SameTask(s, ev, d);
    } else {
      OthersLeaveAlone(s, ev, d);
      if Cancelled(s.calls, s.task.id) {
        CallsGrow(s.calls, Step(s, ev, d).calls, s.task.id);
      }
    }
  }

  lemma SameTask(s: Runtime, ev: Event, d: Driver)
    requires ev.IdleCancel? || (ev.FlushIdle? && s.crit.cancelQueued)
    ensures Step(s, ev, d).task.id == s.task.id
  {
  }

  lemma {:induction false} OnItsWayRun(s: Runtime, evs: seq<Event>, d: Driver)
    requires PossibleRun(s, evs, d) && (!s.aborted ==> Inv(s) && OnItsWay(s, d))
    ensures !Run(s, evs, d).aborted ==> OnItsWay(Run(s, evs, d), d)
    decreases |evs|
  {
    if evs != [] {
      if !s.aborted {
        StepKeepsInv(s, evs[0], d);
        OnItsWayStep(s, evs[0], d);
      }
      OnItsWayRun(Step(s, evs[0], d), evs[1..], d);
    }
  }

  /**
   Over every run: a cancellation of the running task has armed the idle source, or is queued
   behind a critical section, or has reached the driver.
   */
  lemma CancellationArrives(evs: seq<Event>, d: Driver)
    requires PossibleRun(INITIAL, evs, d)
    ensures var s := Run(INITIAL, evs, d);
            !s.aborted && Running(s.task) && s.task.cancelled && d.cancel ==>
              s.task.idleCancel || s.crit.cancelQueued || Cancelled(s.calls, s.task.id)
  {
    OnItsWayRun(INITIAL, evs, d);
  }

  // ---------------------------------------------------------------- power requests

  function SuspendCalls(calls: seq<Call>): nat {
    if calls == [] then 0 else SuspendCalls(calls[..|calls| - 1]) + B(calls[|calls| - 1].SuspendCall?)
  }

  function ResumeCalls(calls: seq<Call>): nat {
    if calls == [] then 0 else ResumeCalls(calls[..|calls| - 1]) + B(calls[|calls| - 1].ResumeCall?)
  }

  lemma CountCall(calls: seq<Call>, c: Call)
    ensures SuspendCalls(calls + [c]) == SuspendCalls(calls) + B(c.SuspendCall?)
    ensures ResumeCalls(calls + [c]) == ResumeCalls(calls) + B(c.ResumeCall?)
  {
    assert (calls + [c])[..|calls|] == calls;
  }

  /** Calls and debts before and after a step: a debt is made by a call, and paid by an answer. */
  predicate Balanced(calls: seq<Call>, more: seq<Call>, p: Power, q: Power, ev: Event) {
    && !(p.suspendOwed && p.resumeOwed) && !(q.suspendOwed && q.resumeOwed)
    && (if !p.suspendOwed && q.suspendOwed then more == calls + [SuspendCall(0)]
        else if !p.resumeOwed && q.resumeOwed then more == calls + [ResumeCall(0)]
        else more == calls
             || (|more| == |calls| + 1 && more == calls + [more[|calls|]] && more[|calls|].CancelCall?))
    && (ev.SuspendAnswer? <==> p.suspendOwed && !q.suspendOwed)
    && (ev.ResumeAnswer? <==> p.resumeOwed && !q.resumeOwed)
  }

  lemma StepBalances(s: Runtime, ev: Event, d: Driver)
    requires Inv(s) && !s.aborted && MayHappen(s, ev)
    ensures var t := Step(s, ev, d); Balanced(s.calls, t.calls, s.power, t.power, ev)
  {
    OweOneAtATime(s, ev, d);
  }

  lemma BalancedCounts(calls: seq<Call>, more: seq<Call>, p: Power, q: Power, ev: Event)
    requires Balanced(calls, more, p, q, ev)
    ensures SuspendCalls(more) + B(p.suspendOwed) == SuspendCalls(calls) + B(q.suspendOwed) + B(ev.SuspendAnswer?)
    ensures ResumeCalls(more) + B(p.resumeOwed) == ResumeCalls(calls) + B(q.resumeOwed) + B(ev.ResumeAnswer?)
  {
    CountCall(calls, SuspendCall(0));
    CountCall(calls, ResumeCall(0));
    if |more| == |calls| + 1 {
      CountCall(calls, more[|calls|]);
    }
  }

  lemma CountsOfStep(s: Runtime, ev: Event, d: Driver)
    requires Inv(s) && !s.aborted && MayHappen(s, ev)
    ensures var t := Step(s, ev, d);
            && SuspendCalls(t.calls) + B(s.power.suspendOwed)
               == SuspendCalls(s.calls) + B(t.power.suspendOwed) + B(ev.SuspendAnswer?)
            && ResumeCalls(t.calls) + B(s.power.resumeOwed)
               == ResumeCalls(s.calls) + B(t.power.resumeOwed) + B(ev.ResumeAnswer?)
  {
    var t := Step(s, ev, d);
    StepBalances(s, ev, d);
    BalancedCounts(s.calls, t.calls, s.power, t.power, ev);
  }

  lemma OweOneAtATime(s: Runtime, ev: Event, d: Driver)
    requires Inv(s) && !s.aborted && MayHappen(s, ev)
    ensures var t := Step(s, ev, d); !(t.power.suspendOwed && t.power.resumeOwed)
    ensures !(s.power.suspendOwed && s.power.resumeOwed)
  {
    StepKeepsInv(s, ev, d);
  }

  function SuspendAnswers(evs: seq<Event>): nat {
    if evs == [] then 0 else B(evs[0].SuspendAnswer?) + SuspendAnswers(evs[1..])
  }

  function ResumeAnswers(evs: seq<Event>): nat {
    if evs == [] then 0 else B(evs[0].ResumeAnswer?) + ResumeAnswers(evs[1..])
  }

  lemma {:induction false} AbortedStays(s: Runtime, evs: seq<Event>, d: Driver)
    requires s.aborted
    ensures Run(s, evs, d) == s
    decreases |evs|
  {
    if evs != [] {
      AbortedStays(s, evs[1..], d);
    }
  }

  lemma {:induction false} CountsOfRun(s: Runtime, evs: seq<Event>, d: Driver)
    requires PossibleRun(s, evs, d) && Inv(s) && !s.aborted && !Run(s, evs, d).aborted
    ensures var t := Run(s, evs, d);
            && SuspendCalls(t.calls) + B(s.power.suspendOwed)
               == SuspendCalls(s.calls) + B(t.power.suspendOwed) + SuspendAnswers(evs)
            && ResumeCalls(t.calls) + B(s.power.resumeOwed)
               == ResumeCalls(s.calls) + B(t.power.resumeOwed) + ResumeAnswers(evs)
    decreases |evs|
  {
    if evs != [] {
      var t := Step(s, evs[0], d);
      if t.aborted {
        AbortedStays(t, evs[1..], d);
      }
      StepKeepsInv(s, evs[0], d);
      CountsOfStep(s, evs[0], d);
      CountsOfRun(t, evs[1..], d);
    }
  }

  /**
   Over every run the suspend vfunc was called once for every answer the driver gave and once
   more while an answer is owed, and so was resume.
   */
  lemma PowerCallsAreAnswered(evs: seq<Event>, d: Driver)
    requires PossibleRun(INITIAL, evs, d)
    ensures var s := Run(INITIAL, evs, d);
            !s.aborted ==>
              && SuspendCalls(s.calls) == SuspendAnswers(evs) + B(s.power.suspendOwed)
              && ResumeCalls(s.calls) == ResumeAnswers(evs) + B(s.power.resumeOwed)
  {
    if !Run(INITIAL, evs, d).aborted {
      CountsOfRun(INITIAL, evs, d);
    }
  }

  /**
   An answered request has taken effect: the device is suspended, but where the request waited
   for a short task, and is not suspended after a resume.
   */
  lemma RequestsTakeEffect(s: Runtime, ev: Event, d: Driver)
    requires Inv(s) && !s.aborted && MayHappen(s, ev) && !Step(s, ev, d).aborted
    ensures var t := Step(s, ev, d);
            && (s.power.task == Suspending && t.power.task == NoPower ==>
                  (t.power.suspended <==> s.power.waiting != ShortTaskDone))
            && (s.power.task == Resuming && t.power.task == NoPower ==> !t.power.suspended)
            && (ev.Suspend? && s.power.task == NoPower && !s.power.suspended && !s.removed ==>
                  if t.power.task == NoPower then t.power.suspended else t.power.task == Suspending)
            && (ev.Resume? && s.power.task == NoPower && s.power.suspended && !s.removed ==>
                  if t.power.task == NoPower then !t.power.suspended else t.power.task == Resuming)
  {
  }

  // ---------------------------------------------------------------- sections and the flush

  /** What is queued is queued for a driver that has the vfunc. */
  predicate QueuedForDriver(s: Runtime, d: Driver) {
    (s.crit.suspendQueued ==> d.suspend) && (s.crit.resumeQueued ==> d.resume)
  }

  lemma QueuedForDriverStep(s: Runtime, ev: Event, d: Driver)
    requires QueuedForDriver(s, d)
    ensures QueuedForDriver(Step(s, ev, d), d)
  {
  }

  lemma {:induction false} QueuedForDriverRun(s: Runtime, evs: seq<Event>, d: Driver)
    requires QueuedForDriver(s, d)
    ensures QueuedForDriver(Run(s, evs, d), d)
    decreases |evs|
  {
    if evs != [] {
      QueuedForDriverStep(s, evs[0], d);
      QueuedForDriverRun(Step(s, evs[0], d), evs[1..], d);
    }
  }

  /** The vfunc calls that the queue stands for, in the order it is served. */
  function Due(s: Runtime): seq<Call> {
    (if s.crit.cancelQueued && Running(s.task) then [CancelCall(0, true, s.task.id, s.crit.cancelFor)] else [])
    + (if s.crit.suspendQueued then [SuspendCall(0)] else [])
    + (if s.crit.resumeQueued then [ResumeCall(0)] else [])
  }

  lemma FlushMakesDueCalls(s: Runtime, d: Driver)
    requires Inv(s) && !s.aborted && s.crit.flush && QueuedForDriver(s, d)
    ensures Flush(s, d).calls + Due(Flush(s, d)) == s.calls + Due(s)
  {
  }

  /** Draining the flush calls the driver once for everything queued, in order, and for nothing else. */
  lemma {:induction false} FlushServes(s: Runtime, d: Driver)
    requires Inv(s) && !s.aborted && s.crit.flush && QueuedForDriver(s, d)
    ensures Run(s, Flushes(QueueLength(s.crit) + 1), d).calls == s.calls + Due(s)
    decreases QueueLength(s.crit)
  {
    var n := QueueLength(s.crit) + 1;
    var t := Flush(s, d);
    FlushKeepsInv(s, d);
    FlushMakesDueCalls(s, d);
    QueuedForDriverStep(s, FlushIdle, d);
    assert Flushes(n)[1..] == Flushes(n - 1) && Flushes(n)[0] == FlushIdle;
    if n > 1 {
      FlushServes(t, d);
    } else {
      assert Run(t, Flushes(0), d) == t;
    }
  }

  lemma RunFacts(s: Runtime, evs: seq<Event>, d: Driver)
    requires PossibleRun(s, evs, d) && Inv(s) && !s.aborted && QueuedForDriver(s, d)
    ensures QueuedForDriver(Run(s, evs, d), d)
    ensures !Run(s, evs, d).aborted ==> Inv(Run(s, evs, d))
  {
    RunKeepsInv(s, evs, d);
    QueuedForDriverRun(s, evs, d);
  }

  /** Over every run: whatever is queued when the flush is armed reaches the driver. */
  lemma QueueReachesDriver(evs: seq<Event>, d: Driver, s: Runtime)
    requires PossibleRun(INITIAL, evs, d) && s == Run(INITIAL, evs, d)
    requires !s.aborted && s.crit.flush
    ensures Run(s, Flushes(QueueLength(s.crit) + 1), d).calls == s.calls + Due(s)
  {
    RunFacts(INITIAL, evs, d);
    FlushServes(s, d);
  }

  function Times(ev: Event, n: nat): seq<Event> {
    if n == 0 then [] else [ev] + Times(ev, n - 1)
  }

  lemma {:induction false} Entering(s: Runtime, n: nat, d: Driver)
    requires s.task.action != NoAction && !s.aborted
    ensures var c := s.crit.(depth := s.crit.depth + n, flush := s.crit.flush && n == 0);
            Run(s, Times(Enter, n), d) == s.(crit := c)
    decreases n
  {
    if n > 0 {
      Entering(Step(s, Enter, d), n - 1, d);
      assert Times(Enter, n)[1..] == Times(Enter, n - 1);
    }
  }

  lemma {:induction false} Leaving(s: Runtime, n: nat, d: Driver)
    requires s.task.action != NoAction && !s.aborted && n <= s.crit.depth
    ensures var c := s.crit.(depth := s.crit.depth - n, flush := s.crit.flush || (0 < n == s.crit.depth));
            Run(s, Times(Leave, n), d) == s.(crit := c)
    decreases n
  {
    if n > 0 {
      Leaving(Step(s, Leave, d), n - 1, d);
      assert Times(Leave, n)[1..] == Times(Leave, n - 1);
    }
  }

  lemma {:induction false} RunJoin(s: Runtime, a: seq<Event>, b: seq<Event>, d: Driver)
    ensures Run(s, a + b, d) == Run(Run(s, a, d), b, d)
    decreases |a|
  {
    if a == [] {
      assert a + b == b;
    } else {
      RunJoin(Step(s, a[0], d), a[1..], b, d);
      assert (a + b)[1..] == a[1..] + b;
    }
  }

  /** Sections nest: as many leaves as enters change nothing but that the flush is armed at the outermost. */
  lemma SectionsNest(s: Runtime, n: nat, d: Driver)
    requires Inv(s) && !s.aborted && s.task.action != NoAction && n > 0
    ensures Run(s, Times(Enter, n) + Times(Leave, n), d) == s.(crit := s.crit.(flush := s.crit.depth == 0))
  {
    Entering(s, n, d);
    Leaving(Run(s, Times(Enter, n), d), n, d);
    RunJoin(s, Times(Enter, n), Times(Leave, n), d);
  }

  // ---------------------------------------------------------------- a request can always be answered

  /** What the main loop or the driver does next on the way to the answer. */
  function Towards(s: Runtime): Event {
    if s.power.suspendOwed then SuspendAnswer(false)
    else if s.power.resumeOwed then ResumeAnswer
    else if s.crit.depth > 0 then Leave
    else if s.crit.flush then FlushIdle
    else if s.task.returning then Return
    else Complete
  }

  function Distance(s: Runtime): nat {
    if s.power.suspendOwed || s.power.resumeOwed then 1
    else if s.crit.depth > 0 then 10 + s.crit.depth
    else (if s.task.returning then 2 else 3) + (if s.crit.flush then 1 + QueueLength(s.crit) else 0)
  }

  lemma TowardsAdvances(s: Runtime, d: Driver)
    requires Inv(s) && !s.aborted && s.power.task != NoPower && QueuedForDriver(s, d)
    ensures MayHappen(s, Towards(s)) && !ResumesShortTask(s, Towards(s))
    ensures var t := Step(s, Towards(s), d); t.power.task != NoPower ==> Distance(t) < Distance(s)
  {
    if s.crit.flush {
      FlushKeepsInv(s, d);
    }
  }

  function Way(s: Runtime, d: Driver, n: nat): seq<Event>
    decreases n
  {
    if n == 0 || s.power.task == NoPower then [] else [Towards(s)] + Way(Step(s, Towards(s), d), d, n - 1)
  }

  lemma {:induction false} WayAnswers(s: Runtime, d: Driver, n: nat)
    requires Inv(s) && !s.aborted && QueuedForDriver(s, d)
    requires s.power.task != NoPower ==> Distance(s) <= n
    ensures var evs := Way(s, d, n); var t := Run(s, evs, d);
            PossibleRun(s, evs, d) && !t.aborted && t.power.task == NoPower
    decreases n
  {
    if s.power.task != NoPower {
      TowardsAdvances(s, d);
      StepKeepsInv(s, Towards(s), d);
      QueuedForDriverStep(s, Towards(s), d);
      WayAnswers(Step(s, Towards(s), d), d, n - 1);
    }
  }

  /**
   Over every run a pending suspend or resume can be answered: by leaving the sections that are
   open, the dispatches of the main loop, and the driver's answer or the end of its task.
   */
  lemma PowerRequestCanBeAnswered(evs: seq<Event>, d: Driver)
    requires PossibleRun(INITIAL, evs, d)
    ensures var s := Run(INITIAL, evs, d); var way := Way(s, d, Distance(s));
            !s.aborted ==>
              PossibleRun(s, way, d) && !Run(s, way, d).aborted && Run(s, way, d).power.task == NoPower
  {
    RunKeepsInv(INITIAL, evs, d);
    QueuedForDriverRun(INITIAL, evs, d);
    if !Run(INITIAL, evs, d).aborted {
      WayAnswers(Run(INITIAL, evs, d), d, Distance(Run(INITIAL, evs, d)));
    }
  }
}
