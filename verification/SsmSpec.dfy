/**
 Sequential state machines and their nesting.

 A nest is the stack of running machines, root first; calls go to the innermost one.
 A machine that completes is popped and reports to its parent, which fails with the
 child's error or moves to its next state.  Handlers are called in tail position, so
 what a handler does is the next event of the run.
 */
module SsmSpec {
  import opened Common

  type Error = nat

  datatype Op = Next | Completed | Jump(state: int)

  /** `handled` records the states whose handler was called. */
  datatype Machine = Machine(
    nrStates: int, startCleanup: int, curState: int, error: Option<Error>, timeout: Option<Op>, handled: seq<int>)

  /** `reported` is the first error any machine reported, `finished` the machines that completed. */
  datatype Nest = Nest(
    machines: seq<Machine>, reported: Option<Error>, finished: seq<Machine>, callbacks: seq<Option<Error>>)

  predicate Sized(nrStates: int, startCleanup: int) {
    1 <= startCleanup <= nrStates
  }

  function Fresh(nrStates: int, startCleanup: int): Machine {
    Machine(nrStates, startCleanup, 0, None, None, [0])
  }

  function Enter(m: Machine, state: int): Machine {
    m.(curState := state, handled := m.handled + [state])
  }

  function Last(n: Nest): Machine
    requires n.machines != []
  {
    n.machines[|n.machines| - 1]
  }

  function Below(n: Nest): seq<Machine>
    requires n.machines != []
  {
    n.machines[..|n.machines| - 1]
  }

  function WithLast(n: Nest, m: Machine): Nest
    requires n.machines != []
  {
    n.(machines := Below(n) + [m])
  }

  function MarkCompleted(n: Nest): Nest
    requires n.machines != []
    decreases |n.machines|, 1
  {
    var m := Last(n);
    var next := if m.curState < m.startCleanup then m.startCleanup else m.curState + 1;
    if next < m.nrStates then WithLast(n, Enter(m, next))
    else Finish(n)
  }

  /** Pop the innermost machine and run its callback: the parent's, or the one of the root. */
  function Finish(n: Nest): Nest
    requires n.machines != []
    decreases |n.machines|, 0
  {
    var m := Last(n);
    var p := n.(machines := Below(n), finished := n.finished + [m]);
    if p.machines == [] then p.(callbacks := p.callbacks + [m.error])
    else if m.error.Some? then MarkFailed(p, m.error.value)
    else NextState(p)
  }

  function MarkFailed(n: Nest, e: Error): Nest
    requires n.machines != []
    decreases |n.machines|, 2
  {
    var m := Last(n);
    if m.error.Some? && m.curState < m.startCleanup then n
    else MarkCompleted(WithLast(n, m.(error := if m.error.None? then Some(e) else m.error)))
  }

  function NextState(n: Nest): Nest
    requires n.machines != []
    decreases |n.machines|, 2
  {
    JumpToState(n, Last(n).curState + 1)
  }

  function JumpToState(n: Nest, state: int): Nest
    requires n.machines != []
    decreases |n.machines|, 2, 0
  {
    var m := Last(n);
    if state == m.nrStates then MarkCompleted(WithLast(n, m.(curState := state)))
    else WithLast(n, Enter(m, state))
  }

  function Perform(n: Nest, op: Op): Nest
    requires n.machines != []
  {
    match op
    case Next => NextState(n)
    case Completed => MarkCompleted(n)
    case Jump(state) => JumpToState(n, state)
  }

  datatype Event =
    | Do(op: Op)
    | Fail(error: Error)
    | StartSub(nrStates: int, startCleanup: int)
    | Delay(op: Op)
    | Timeout
    | CancelDelay

  function Step(n: Nest, ev: Event): Nest
    requires n.machines != []
  {
    match ev
    case Do(op) => Perform(n, op)
    case Fail(e) => MarkFailed(n.(reported := if n.reported.None? then Some(e) else n.reported), e)
    case StartSub(nr, cleanup) => n.(machines := n.machines + [Fresh(nr, cleanup)])
    case Delay(op) => WithLast(n, Last(n).(timeout := Some(op)))
    case Timeout =>
      var m := Last(n);
      if m.timeout.None? then n else Perform(WithLast(n, m.(timeout := None)), m.timeout.value)
    case CancelDelay => WithLast(n, Last(n).(timeout := None))
  }

  predicate OpAllowed(m: Machine, op: Op) {
    op.Jump? ==> 0 <= op.state <= m.nrStates
  }

  /** What the BUG_ON checks ask of the caller. */
  predicate MayHappen(n: Nest, ev: Event) {
    && n.machines != []
    && match ev
       case Do(op) => Last(n).timeout.None? && OpAllowed(Last(n), op)
       case Fail(_) => Last(n).timeout.None?
       case StartSub(nr, cleanup) => Last(n).timeout.None? && Sized(nr, cleanup)
       case Delay(op) => Last(n).timeout.None? && OpAllowed(Last(n), op)
       case Timeout => Last(n).timeout.Some?
       case CancelDelay => Last(n).timeout.Some?
  }

  predicate JumpFree(ev: Event) {
    (ev.Do? || ev.Delay?) ==> !ev.op.Jump?
  }

  function Start(nrStates: int, startCleanup: int): Nest {
    Nest([Fresh(nrStates, startCleanup)], None, [], [])
  }

  function Run(n: Nest, evs: seq<Event>): Nest
    requires PossibleRun(n, evs)
    decreases |evs|
  {
    if evs == [] then n else Run(Step(n, evs[0]), evs[1..])
  }

  predicate PossibleRun(n: Nest, evs: seq<Event>)
    decreases |evs|
  {
    evs != [] ==> MayHappen(n, evs[0]) && PossibleRun(Step(n, evs[0]), evs[1..])
  }

  // ---------------------------------------------------------------- errors

  /** The error of the outermost machine that has one. */
  function Outermost(ms: seq<Machine>): Option<Error> {
    if ms == [] then None
    else if ms[0].error.Some? then ms[0].error
    else Outermost(ms[1..])
  }

  function OrElse(a: Option<Error>, b: Option<Error>): Option<Error> {
    if a.Some? then a else b
  }

  lemma {:induction false} OutermostOfAppend(ms: seq<Machine>, m: Machine)
    ensures Outermost(ms + [m]) == OrElse(Outermost(ms), m.error)
  {
    if ms == [] {
      assert ms + [m] == [m];
    } else {
      assert (ms + [m])[1..] == ms[1..] + [m];
      OutermostOfAppend(ms[1..], m);
    }
  }

  /** While the root runs, the outermost error is the first one reported; then it is called back. */
  predicate ErrorsInv(n: Nest) {
    if n.machines == [] then n.callbacks == [n.reported]
    else n.callbacks == [] && Outermost(n.machines) == n.reported
  }

  lemma SplitLast(n: Nest)
    requires n.machines != []
    ensures n.machines == Below(n) + [Last(n)]
    ensures Outermost(n.machines) == OrElse(Outermost(Below(n)), Last(n).error)
  {
    assert n.machines == Below(n) + [Last(n)];
    OutermostOfAppend(Below(n), Last(n));
  }

  lemma {:induction false} MarkCompletedErrors(n: Nest)
    requires n.machines != [] && ErrorsInv(n)
    ensures ErrorsInv(MarkCompleted(n)) && MarkCompleted(n).reported == n.reported
    decreases |n.machines|, 1
  {
    SplitLast(n);
    var m := Last(n);
    var next := if m.curState < m.startCleanup then m.startCleanup else m.curState + 1;
    if next < m.nrStates {
      OutermostOfAppend(Below(n), Enter(m, next));
    } else {
      var p := n.(machines := Below(n), finished := n.finished + [m]);
      if p.machines != [] {
        if m.error.Some? {
          MarkFailedErrors(p, m.error.value);
        } else {
          NextStateErrors(p, Last(p).curState + 1);
          assert MarkCompleted(n) == Finish(n) == NextState(p);
        }
      }
    }
  }

  /** An error is on its way from above: with it the outermost error is the first reported. */
  lemma {:induction false} MarkFailedErrors(n: Nest, e: Error)
    requires n.machines != [] && n.callbacks == []
    requires OrElse(Outermost(n.machines), Some(e)) == n.reported
    ensures ErrorsInv(MarkFailed(n, e)) && MarkFailed(n, e).reported == n.reported
    decreases |n.machines|, 2
  {
    SplitLast(n);
    var m := Last(n);
    if !(m.error.Some? && m.curState < m.startCleanup) {
      var failed := m.(error := if m.error.None? then Some(e) else m.error);
      OutermostOfAppend(Below(n), failed);
      MarkCompletedErrors(WithLast(n, failed));
    }
  }

  lemma {:induction false} NextStateErrors(n: Nest, state: int)
    requires n.machines != [] && ErrorsInv(n)
    ensures ErrorsInv(JumpToState(n, state)) && JumpToState(n, state).reported == n.reported
    decreases |n.machines|, 2
  {
    SplitLast(n);
    var m := Last(n);
    if state == m.nrStates {
      OutermostOfAppend(Below(n), m.(curState := state));
      MarkCompletedErrors(WithLast(n, m.(curState := state)));
    } else {
      OutermostOfAppend(Below(n), Enter(m, state));
    }
  }

  lemma PerformErrors(n: Nest, op: Op)
    requires n.machines != [] && ErrorsInv(n)
    ensures ErrorsInv(Perform(n, op)) && Perform(n, op).reported == n.reported
  {
    match op {
      case Next => NextStateErrors(n, Last(n).curState + 1);
      case Completed => MarkCompletedErrors(n);
      case Jump(state) => NextStateErrors(n, state);
    }
  }

  lemma StepErrors(n: Nest, ev: Event)
    requires MayHappen(n, ev) && ErrorsInv(n)
    ensures ErrorsInv(Step(n, ev))
    ensures Step(n, ev).reported == if ev.Fail? && n.reported.None? then Some(ev.error) else n.reported
  {
    SplitLast(n);
    match ev {
      case Do(op) => PerformErrors(n, op);
      case Fail(e) => MarkFailedErrors(n.(reported := if n.reported.None? then Some(e) else n.reported), e);
      case StartSub(nr, cleanup) => OutermostOfAppend(n.machines, Fresh(nr, cleanup));
      case Delay(op) => OutermostOfAppend(Below(n), Last(n).(timeout := Some(op)));
      case Timeout =>
        OutermostOfAppend(Below(n), Last(n).(timeout := None));
        PerformErrors(WithLast(n, Last(n).(timeout := None)), Last(n).timeout.value);
      case CancelDelay => OutermostOfAppend(Below(n), Last(n).(timeout := None));
    }
  }

  /** The first error in the events, which is all a caller sees. */
  function FirstFailure(evs: seq<Event>): Option<Error> {
    if evs == [] then None
    else if evs[0].Fail? then Some(evs[0].error)
    else FirstFailure(evs[1..])
  }

  lemma {:induction false} RunErrors(n: Nest, evs: seq<Event>)
    requires PossibleRun(n, evs) && ErrorsInv(n)
    ensures ErrorsInv(Run(n, evs))
    ensures Run(n, evs).reported == OrElse(n.reported, FirstFailure(evs))
    decreases |evs|
  {
    if evs != [] {
      StepErrors(n, evs[0]);
      RunErrors(Step(n, evs[0]), evs[1..]);
    }
  }

  /**
   Over every run, with or without jumps, the root's callback is called once, when the
   root ends, with the first error any machine of the nest reported.
   */
  lemma NestReportsFirstError(nrStates: int, startCleanup: int, evs: seq<Event>)
    requires Sized(nrStates, startCleanup) && PossibleRun(Start(nrStates, startCleanup), evs)
    ensures var n := Run(Start(nrStates, startCleanup), evs);
            n.callbacks == if n.machines == [] then [FirstFailure(evs)] else []
  {
    var s := Start(nrStates, startCleanup);
    assert s.machines[1..] == [];
    RunErrors(s, evs);
  }

  // ---------------------------------------------------------------- states

  predicate Increasing(s: seq<int>) {
    forall i, j :: 0 <= i < j < |s| ==> s[i] < s[j]
  }

  /** The states a machine has handled so far; a failed machine is in cleanup. */
  predicate Progress(m: Machine) {
    && Sized(m.nrStates, m.startCleanup)
    && 0 <= m.curState < m.nrStates
    && |m.handled| > 0 && m.handled[|m.handled| - 1] == m.curState
    && m.handled[0] == 0
    && Increasing(m.handled)
    && (forall c :: m.startCleanup <= c <= m.curState ==> c in m.handled)
  }

  /** A machine about to complete: its state may already be past the last one. */
  predicate Ending(m: Machine) {
    && Sized(m.nrStates, m.startCleanup)
    && 0 <= m.curState <= m.nrStates
    && |m.handled| > 0 && m.handled[|m.handled| - 1] <= m.curState
    && m.handled[|m.handled| - 1] < m.nrStates
    && m.handled[0] == 0
    && Increasing(m.handled)
    && (forall c :: m.startCleanup <= c <= m.curState && c < m.nrStates ==> c in m.handled)
  }

  predicate Running(m: Machine) {
    Progress(m) && (m.error.Some? ==> m.curState >= m.startCleanup)
  }

  /** A finished machine handled its states in ascending order, every cleanup state among them. */
  predicate CleanedUp(m: Machine) {
    && m.handled != [] && m.handled[0] == 0
    && Increasing(m.handled)
    && (forall i :: 0 <= i < |m.handled| ==> 0 <= m.handled[i] < m.nrStates)
    && (forall c :: m.startCleanup <= c < m.nrStates ==> c in m.handled)
    && |m.handled| <= m.nrStates
  }

  /** Jump-free: only the innermost machine may wait for a timer, which is not a jump. */
  predicate StatesInv(n: Nest) {
    && (forall i :: 0 <= i < |n.machines| ==> Running(n.machines[i]))
    && (forall i :: 0 <= i < |n.machines| && n.machines[i].timeout.Some? ==>
          i == |n.machines| - 1 && !n.machines[i].timeout.value.Jump?)
    && (forall i :: 0 <= i < |n.finished| ==> CleanedUp(n.finished[i]))
  }

  lemma EnterProgress(m: Machine, state: int)
    requires Ending(m)
    requires m.handled[|m.handled| - 1] < state < m.nrStates
    requires state == m.curState + 1 || (m.curState < m.startCleanup && state == m.startCleanup)
    ensures Progress(Enter(m, state))
  {
    var h := m.handled + [state];
    forall c | m.startCleanup <= c <= state
      ensures c in h
    {
      assert c == state ==> h[|m.handled|] == c;
    }
  }

  lemma {:induction false} IncreasingBounds(s: seq<int>, lo: int, k: nat)
    requires Increasing(s) && k < |s| && s[0] >= lo
    ensures s[k] >= lo + k
  {
    if k > 0 {
      IncreasingBounds(s, lo, k - 1);
    }
  }

  lemma EndingIsCleanedUp(m: Machine)
    requires Ending(m)
    requires m.startCleanup == m.nrStates || (m.curState + 1 >= m.nrStates && m.curState >= m.startCleanup)
    ensures CleanedUp(m)
  {
    var k := |m.handled| - 1;
    IncreasingBounds(m.handled, 0, k);
    forall i | 0 <= i < |m.handled|
      ensures 0 <= m.handled[i] < m.nrStates
    {
      IncreasingBounds(m.handled, 0, i);
      assert i < k ==> m.handled[i] < m.handled[k];
    }
  }

  /** The innermost machine is about to complete, all others are running. */
  predicate AboutToComplete(n: Nest) {
    && n.machines != []
    && Ending(Last(n)) && Last(n).timeout.None?
    && StatesInv(n.(machines := Below(n)))
    && (|n.machines| > 1 ==> Last(n.(machines := Below(n))).timeout.None?)
  }

  lemma {:induction false} MarkCompletedStates(n: Nest)
    requires AboutToComplete(n)
    ensures StatesInv(MarkCompleted(n))
    decreases |n.machines|, 1
  {
    var m := Last(n);
    var next := if m.curState < m.startCleanup then m.startCleanup else m.curState + 1;
    if next < m.nrStates {
      EnterProgress(m, next);
    } else {
      EndingIsCleanedUp(m);
      var p := n.(machines := Below(n), finished := n.finished + [m]);
      if p.machines != [] {
        assert Running(Last(p)) && StatesInv(p);
        if m.error.Some? {
          MarkFailedStates(p, m.error.value);
        } else {
          NextStateStates(p);
        }
      }
    }
  }

  lemma {:induction false} MarkFailedStates(n: Nest, e: Error)
    requires n.machines != [] && StatesInv(n) && Last(n).timeout.None?
    ensures StatesInv(MarkFailed(n, e))
    decreases |n.machines|, 2
  {
    var m := Last(n);
    assert Running(m);
    MarkCompletedStates(WithLast(n, m.(error := if m.error.None? then Some(e) else m.error)));
  }

  lemma {:induction false} NextStateStates(n: Nest)
    requires n.machines != [] && StatesInv(n) && Last(n).timeout.None?
    ensures StatesInv(NextState(n))
    decreases |n.machines|, 2
  {
    var m := Last(n);
    assert Running(m);
    if m.curState + 1 == m.nrStates {
      MarkCompletedStates(WithLast(n, m.(curState := m.curState + 1)));
    } else {
      EnterProgress(m, m.curState + 1);
    }
  }

  lemma StepStates(n: Nest, ev: Event)
    requires MayHappen(n, ev) && JumpFree(ev) && StatesInv(n)
    ensures StatesInv(Step(n, ev))
  {
    var m := Last(n);
    assert Running(m);
    match ev {
      case Do(op) => PerformStates(n, op);
      case Fail(e) => MarkFailedStates(n.(reported := if n.reported.None? then Some(e) else n.reported), e);
      case StartSub(nr, cleanup) =>
      case Delay(op) =>
      case Timeout => PerformStates(WithLast(n, m.(timeout := None)), m.timeout.value);
      case CancelDelay =>
    }
  }

  lemma PerformStates(n: Nest, op: Op)
    requires n.machines != [] && StatesInv(n) && Last(n).timeout.None? && !op.Jump?
    ensures StatesInv(Perform(n, op))
  {
    match op {
      case Next => NextStateStates(n);
      case Completed =>
        assert Running(Last(n));
        assert WithLast(n, Last(n)) == n;
        MarkCompletedStates(n);
    }
  }

  predicate JumpFreeRun(evs: seq<Event>) {
    forall i :: 0 <= i < |evs| ==> JumpFree(evs[i])
  }

  lemma {:induction false} RunStates(n: Nest, evs: seq<Event>)
    requires PossibleRun(n, evs) && JumpFreeRun(evs) && StatesInv(n)
    ensures StatesInv(Run(n, evs))
    decreases |evs|
  {
    if evs != [] {
      assert JumpFree(evs[0]);
      StepStates(n, evs[0]);
      assert forall i :: 0 <= i < |evs[1..]| ==> evs[1..][i] == evs[i + 1];
      RunStates(Step(n, evs[0]), evs[1..]);
    }
  }

  /**
   In every jump-free run each finished machine of the nest handled strictly increasing
   states, every one of its cleanup states among them, in at most as many handler calls as
   it has states; and an unfinished machine that failed is already cleaning up.
   */
  lemma CleanupAlwaysRuns(nrStates: int, startCleanup: int, evs: seq<Event>)
    requires Sized(nrStates, startCleanup)
    requires PossibleRun(Start(nrStates, startCleanup), evs) && JumpFreeRun(evs)
    ensures var n := Run(Start(nrStates, startCleanup), evs);
            && (forall i :: 0 <= i < |n.finished| ==> CleanedUp(n.finished[i]))
            && (forall i :: 0 <= i < |n.machines| ==>
                  && Increasing(n.machines[i].handled)
                  && (n.machines[i].error.Some? ==> n.machines[i].curState >= n.machines[i].startCleanup))
  {
    var s := Start(nrStates, startCleanup);
    assert Running(s.machines[0]);
    RunStates(s, evs);
    var n := Run(s, evs);
    forall i | 0 <= i < |n.machines|
      ensures Increasing(n.machines[i].handled)
      ensures n.machines[i].error.Some? ==> n.machines[i].curState >= n.machines[i].startCleanup
    {
      assert Running(n.machines[i]);
    }
  }
}
