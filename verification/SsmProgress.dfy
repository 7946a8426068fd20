/** What the calls of a driver lead to: which states are handled, in which order, and how a machine ends. */
module SsmProgress {
  import opened Common
  import opened SsmSpec

  function Range(lo: int, hi: int): seq<int> {
    if lo >= hi then [] else seq(hi - lo, (i: int) => lo + i)
  }

  function Times(ev: Event, k: nat): seq<Event>
    decreases k
  {
    if k == 0 then [] else [ev] + Times(ev, k - 1)
  }

  /** No timer is pending, so that the driver may move the innermost machine. */
  predicate Ready(n: Nest) {
    n.machines != [] && Last(n).timeout.None?
  }

  lemma {:induction false} RunJoin(n: Nest, a: seq<Event>, b: seq<Event>)
    requires PossibleRun(n, a) && PossibleRun(Run(n, a), b)
    ensures PossibleRun(n, a + b) && Run(n, a + b) == Run(Run(n, a), b)
    decreases |a|
  {
    if a == [] {
      assert a + b == b;
    } else {
      RunJoin(Step(n, a[0]), a[1..], b);
      assert (a + b)[1..] == a[1..] + b;
    }
  }

  lemma RunOne(n: Nest, ev: Event)
    requires MayHappen(n, ev)
    ensures PossibleRun(n, [ev]) && Run(n, [ev]) == Step(n, ev)
  {
    var t := Step(n, ev);
    assert PossibleRun(t, []) && Run(t, []) == t;
    assert [ev][1..] == [];
  }

  // ---------------------------------------------------------------- advancing

  /** The innermost machine after calling the handlers of the given states; nothing else has changed. */
  predicate Handled(n: Nest, t: Nest, states: seq<int>)
    requires n.machines != []
  {
    && t.machines != [] && Below(t) == Below(n)
    && t.finished == n.finished && t.callbacks == n.callbacks && t.reported == n.reported
    && Last(t).handled == Last(n).handled + states
    && Last(t).curState == (if states == [] then Last(n).curState else states[|states| - 1])
    && Last(t).nrStates == Last(n).nrStates && Last(t).startCleanup == Last(n).startCleanup
    && Last(t).error == Last(n).error && Last(t).timeout == Last(n).timeout
  }

  lemma HandledOne(n: Nest, op: Op)
    requires Ready(n) && !op.Jump?
    requires Last(n).curState + 1 < Last(n).nrStates
    requires op.Completed? ==> Last(n).curState >= Last(n).startCleanup
    ensures MayHappen(n, Do(op)) && Handled(n, Step(n, Do(op)), [Last(n).curState + 1])
  {
    var t := WithLast(n, Enter(Last(n), Last(n).curState + 1));
    assert Below(t) == Below(n);
    match op {
      case Next => assert Perform(n, Next) == NextState(n) == JumpToState(n, Last(n).curState + 1);
      case Completed => assert Perform(n, Completed) == t;
    }
  }

  lemma RangeGrows(lo: int, hi: int)
    requires lo < hi
    ensures Range(lo, hi) == [lo] + Range(lo + 1, hi)
    ensures Range(lo, hi) == Range(lo, hi - 1) + [hi - 1]
  {
  }

  lemma HandledThen(n: Nest, t: Nest, u: Nest, a: seq<int>, b: seq<int>)
    requires n.machines != [] && Handled(n, t, a) && Handled(t, u, b) && a != []
    ensures Handled(n, u, a + b)
  {
    assert Last(n).handled + (a + b) == Last(n).handled + a + b;
  }

  lemma HandledFrom(n: Nest, t: Nest, u: Nest, lo: int, hi: int)
    requires n.machines != [] && lo < hi && Handled(n, t, [lo]) && Handled(t, u, Range(lo + 1, hi))
    ensures Handled(n, u, Range(lo, hi))
  {
    RangeGrows(lo, hi);
    HandledThen(n, t, u, [lo], Range(lo + 1, hi));
  }

  lemma RunFrom(n: Nest, ev: Event, evs: seq<Event>)
    requires MayHappen(n, ev) && PossibleRun(Step(n, ev), evs)
    ensures PossibleRun(n, [ev] + evs) && Run(n, [ev] + evs) == Run(Step(n, ev), evs)
  {
    assert ([ev] + evs)[1..] == evs;
  }

  /**
   k calls of next_state, or of mark_completed once in cleanup, handle the next k states, as
   long as there are as many, and change nothing else, whatever the nest.
   */
  lemma {:induction false} AdvancingHandlesEveryState(n: Nest, op: Op, k: nat)
    requires Ready(n) && !op.Jump?
    requires Last(n).curState + k < Last(n).nrStates
    requires op.Completed? ==> Last(n).curState >= Last(n).startCleanup
    ensures var cur := Last(n).curState;
            && PossibleRun(n, Times(Do(op), k))
            && Handled(n, Run(n, Times(Do(op), k)), Range(cur + 1, cur + k + 1))
    decreases k
  {
    if k == 0 {
      assert Last(n).handled + [] == Last(n).handled;
    } else {
      var t := Step(n, Do(op));
      HandledOne(n, op);
      AdvancingHandlesEveryState(t, op, k - 1);
      RunFrom(n, Do(op), Times(Do(op), k - 1));
      HandledFrom(n, t, Run(t, Times(Do(op), k - 1)), Last(n).curState + 1, Last(n).curState + k + 1);
    }
  }

  /** The only machine of a nest has ended: it is called back with its error. */
  predicate Ended(n: Nest, t: Nest, handled: seq<int>, error: Option<Error>) {
    && t.machines == []
    && t.callbacks == n.callbacks + [error]
    && |t.finished| == |n.finished| + 1 && t.finished[..|n.finished|] == n.finished
    && t.finished[|n.finished|].handled == handled
    && t.finished[|n.finished|].error == error
  }

  lemma EndsAfterLast(n: Nest, op: Op)
    requires Ready(n) && |n.machines| == 1 && !op.Jump?
    requires Sized(Last(n).nrStates, Last(n).startCleanup)
    requires Last(n).curState == Last(n).nrStates - 1
    ensures MayHappen(n, Do(op)) && Ended(n, Step(n, Do(op)), Last(n).handled, Last(n).error)
  {
    var m := Last(n).(curState := Last(n).nrStates);
    match op {
      case Next =>
        var w := WithLast(n, m);
        assert Perform(n, Next) == NextState(n) == JumpToState(n, m.nrStates) == MarkCompleted(w);
        assert w.machines == [m] && MarkCompleted(w) == Finish(w);
      case Completed =>
        assert n.machines == [Last(n)] && Perform(n, Completed) == MarkCompleted(n) == Finish(n);
    }
  }

  /** Next states to the end of a root machine: all of them are handled, then it is called back. */
  lemma AdvancingEnds(n: Nest, op: Op)
    requires Ready(n) && |n.machines| == 1 && !op.Jump?
    requires Sized(Last(n).nrStates, Last(n).startCleanup)
    requires Last(n).curState < Last(n).nrStates
    requires op.Completed? ==> Last(n).curState >= Last(n).startCleanup
    ensures var m := Last(n); var evs := Times(Do(op), m.nrStates - m.curState);
            && PossibleRun(n, evs)
            && Ended(n, Run(n, evs), m.handled + Range(m.curState + 1, m.nrStates), m.error)
  {
    var m := Last(n);
    var k := m.nrStates - m.curState - 1;
    AdvancingHandlesEveryState(n, op, k);
    var t := Run(n, Times(Do(op), k));
    assert |t.machines| == 1;
    assert Last(t).curState == m.nrStates - 1;
    EndsAfterLast(t, op);
    RunOne(t, Do(op));
    RunJoin(n, Times(Do(op), k), [Do(op)]);
    TimesAppend(Do(op), k);
  }

  lemma TimesFrom(ev: Event, k: nat)
    ensures Times(ev, k + 1) == [ev] + Times(ev, k)
  {
  }

  lemma {:induction false} TimesAppend(ev: Event, k: nat)
    ensures Times(ev, k) + [ev] == Times(ev, k + 1)
    decreases k
  {
    if k > 0 {
      TimesAppend(ev, k - 1);
    }
  }

  /** A fresh machine: k < nrStates calls of next_state handle 0, .., k and end nothing. */
  lemma NextHandlesInOrder(nrStates: int, startCleanup: int, k: nat)
    requires Sized(nrStates, startCleanup) && k < nrStates
    ensures var s := Start(nrStates, startCleanup);
            && PossibleRun(s, Times(Do(Next), k))
            && var n := Run(s, Times(Do(Next), k));
            && |n.machines| == 1 && n.machines[0].curState == k && n.machines[0].handled == Range(0, k + 1)
            && n.finished == [] && n.callbacks == [] && n.machines[0].error == None
  {
    var s := Start(nrStates, startCleanup);
    AdvancingHandlesEveryState(s, Next, k);
    RangeGrows(0, k + 1);
    var n := Run(s, Times(Do(Next), k));
    assert Below(n) == [];
  }

  /** The nrStates-th ends it, with every state handled once and in order, and without an error. */
  lemma NextCompletes(nrStates: int, startCleanup: int)
    requires Sized(nrStates, startCleanup)
    ensures var s := Start(nrStates, startCleanup);
            && PossibleRun(s, Times(Do(Next), nrStates))
            && var n := Run(s, Times(Do(Next), nrStates));
            && n.machines == [] && n.callbacks == [None]
            && |n.finished| == 1 && n.finished[0].handled == Range(0, nrStates)
  {
    AdvancingEnds(Start(nrStates, startCleanup), Next);
    RangeGrows(0, nrStates);
  }

  // ---------------------------------------------------------------- jumps, completion, failure

  /** A jump enters the state it names, skipping none of the states after it. */
  lemma JumpHandlesFrom(n: Nest, state: int, k: nat)
    requires Ready(n) && 0 <= state && state + k < Last(n).nrStates
    ensures var evs := [Do(Jump(state))] + Times(Do(Next), k);
            && PossibleRun(n, evs)
            && Handled(n, Run(n, evs), Range(state, state + k + 1))
  {
    var t := Step(n, Do(Jump(state)));
    assert Handled(n, t, [state]);
    AdvancingHandlesEveryState(t, Next, k);
    RunFrom(n, Do(Jump(state)), Times(Do(Next), k));
    HandledFrom(n, t, Run(t, Times(Do(Next), k)), state, state + k + 1);
  }

  /** The root machine is in a state before its cleanup states, or it has failed there. */
  predicate BeforeCleanup(n: Nest) {
    && Ready(n) && |n.machines| == 1
    && Sized(Last(n).nrStates, Last(n).startCleanup)
    && Last(n).curState < Last(n).startCleanup
  }

  lemma CompletedEntersCleanup(n: Nest)
    requires BeforeCleanup(n)
    ensures var m := Last(n); var t := Step(n, Do(Completed));
            if m.startCleanup < m.nrStates then Handled(n, t, [m.startCleanup])
            else Ended(n, t, m.handled, m.error)
  {
    assert Perform(n, Completed) == MarkCompleted(n);
    if Last(n).startCleanup < Last(n).nrStates {
      assert Below(WithLast(n, Enter(Last(n), Last(n).startCleanup))) == Below(n);
    } else {
      assert n.machines == [Last(n)] && MarkCompleted(n) == Finish(n);
    }
  }

  /**
   A machine completed before its cleanup handles the cleanup states, from the first to the
   last, and then ends with the error it has.
   */
  lemma CompletingCleansUp(n: Nest, op: Op)
    requires BeforeCleanup(n) && !op.Jump?
    ensures var m := Last(n); var evs := [Do(Completed)] + Times(Do(op), m.nrStates - m.startCleanup);
            && PossibleRun(n, evs)
            && Ended(n, Run(n, evs), m.handled + Range(m.startCleanup, m.nrStates), m.error)
  {
    var m := Last(n);
    var t := Step(n, Do(Completed));
    RunOne(n, Do(Completed));
    CompletedEntersCleanup(n);
    if m.startCleanup < m.nrStates {
      AdvancingEnds(t, op);
      RangeGrows(m.startCleanup, m.nrStates);
      assert m.handled + [m.startCleanup] + Range(m.startCleanup + 1, m.nrStates)
          == m.handled + Range(m.startCleanup, m.nrStates);
    } else {
      assert m.handled + [] == m.handled;
      assert PossibleRun(t, []) && Run(t, []) == t;
    }
    RunJoin(n, [Do(Completed)], Times(Do(op), m.nrStates - m.startCleanup));
  }

  /** The only machine of a nest with an error noted, unless there is an earlier one. */
  function Noted(n: Nest, e: Error): Nest
    requires n.machines != []
  {
    Nest([Last(n).(error := OrElse(Last(n).error, Some(e)))], OrElse(n.reported, Some(e)), n.finished, n.callbacks)
  }

  lemma FailsLikeCompleted(n: Nest, e: Error)
    requires Ready(n) && |n.machines| == 1
    requires Last(n).startCleanup <= Last(n).curState || Last(n).error.None?
    ensures Ready(Noted(n, e)) && |Noted(n, e).machines| == 1
    ensures Last(Noted(n, e)) == Last(n).(error := OrElse(Last(n).error, Some(e)))
    ensures Step(n, Fail(e)) == Step(Noted(n, e), Do(Completed))
  {
    var m := Last(n);
    var r := n.(reported := OrElse(n.reported, Some(e)));
    var f := Noted(n, e);
    assert WithLast(r, m.(error := OrElse(m.error, Some(e)))) == f;
    assert Step(n, Fail(e)) == MarkFailed(r, e) == MarkCompleted(f);
  }

  /** The first event of a run may be replaced by one with the same effect. */
  lemma SameStart(n: Nest, f: Nest, a: Event, b: Event, evs: seq<Event>)
    requires MayHappen(n, a) && MayHappen(f, b) && Step(n, a) == Step(f, b)
    requires PossibleRun(f, [b] + evs)
    ensures PossibleRun(n, [a] + evs) && Run(n, [a] + evs) == Run(f, [b] + evs)
  {
    assert ([a] + evs)[1..] == evs && ([b] + evs)[1..] == evs;
  }

  /** A failure leads to the cleanup states, and is what the machine ends with. */
  lemma FailingCleansUp(n: Nest, e: Error, op: Op)
    requires BeforeCleanup(n) && !op.Jump? && Last(n).error.None?
    ensures var m := Last(n); var evs := [Fail(e)] + Times(Do(op), m.nrStates - m.startCleanup);
            && PossibleRun(n, evs)
            && Ended(n, Run(n, evs), m.handled + Range(m.startCleanup, m.nrStates), Some(e))
  {
    var m := Last(n);
    var f := Noted(n, e);
    FailsLikeCompleted(n, e);
    CompletingCleansUp(f, op);
    SameStart(n, f, Fail(e), Do(Completed), Times(Do(op), m.nrStates - m.startCleanup));
  }

  lemma EndedLike(n: Nest, f: Nest, t: Nest, handled: seq<int>, error: Option<Error>)
    requires Ended(f, t, handled, error) && f.finished == n.finished && f.callbacks == n.callbacks
    ensures Ended(n, t, handled, error)
  {
  }

  lemma CompletingInCleanupEnds(n: Nest, k: nat)
    requires Ready(n) && |n.machines| == 1
    requires Sized(Last(n).nrStates, Last(n).startCleanup)
    requires Last(n).startCleanup <= Last(n).curState < Last(n).nrStates
    requires k == Last(n).nrStates - Last(n).curState - 1
    ensures var m := Last(n); var evs := [Do(Completed)] + Times(Do(Completed), k);
            PossibleRun(n, evs) && Ended(n, Run(n, evs), m.handled + Range(m.curState + 1, m.nrStates), m.error)
  {
    AdvancingEnds(n, Completed);
    TimesFrom(Do(Completed), k);
  }

  lemma SameEnd(n: Nest, f: Nest, a: Event, b: Event, evs: seq<Event>, handled: seq<int>, error: Option<Error>)
    requires MayHappen(n, a) && MayHappen(f, b) && Step(n, a) == Step(f, b)
    requires PossibleRun(f, [b] + evs) && Ended(f, Run(f, [b] + evs), handled, error)
    requires f.finished == n.finished && f.callbacks == n.callbacks
    ensures PossibleRun(n, [a] + evs) && Ended(n, Run(n, [a] + evs), handled, error)
  {
    SameStart(n, f, a, b, evs);
    EndedLike(n, f, Run(n, [a] + evs), handled, error);
  }

  /** A failure while cleaning up does not cut the cleanup short, and replaces no earlier error. */
  lemma FailingInCleanupGoesOn(n: Nest, e: Error, k: nat)
    requires Ready(n) && |n.machines| == 1
    requires Sized(Last(n).nrStates, Last(n).startCleanup)
    requires Last(n).startCleanup <= Last(n).curState && k == Last(n).nrStates - Last(n).curState - 1
    ensures var m := Last(n); var evs := [Fail(e)] + Times(Do(Completed), k);
            && PossibleRun(n, evs)
            && Ended(n, Run(n, evs), m.handled + Range(m.curState + 1, m.nrStates), OrElse(m.error, Some(e)))
  {
    var m := Last(n);
    FailsLikeCompleted(n, e);
    CompletingInCleanupEnds(Noted(n, e), k);
    SameEnd(n, Noted(n, e), Fail(e), Do(Completed), Times(Do(Completed), k),
            m.handled + Range(m.curState + 1, m.nrStates), OrElse(m.error, Some(e)));
  }

  /** A delayed call is the call itself once the timer is up, and nothing at all if it is cancelled. */
  lemma DelayOnlyDelays(n: Nest, op: Op)
    requires Ready(n) && OpAllowed(Last(n), op)
    ensures PossibleRun(n, [Delay(op), Timeout]) && Run(n, [Delay(op), Timeout]) == Step(n, Do(op))
    ensures PossibleRun(n, [Delay(op), CancelDelay]) && Run(n, [Delay(op), CancelDelay]) == n
  {
    var t := Step(n, Delay(op));
    assert Below(t) == Below(n) && WithLast(t, Last(t).(timeout := None)) == n;
    RunOne(n, Delay(op));
    RunOne(t, Timeout);
    RunOne(t, CancelDelay);
    RunJoin(n, [Delay(op)], [Timeout]);
    RunJoin(n, [Delay(op)], [CancelDelay]);
    assert [Delay(op)] + [Timeout] == [Delay(op), Timeout];
    assert [Delay(op)] + [CancelDelay] == [Delay(op), CancelDelay];
  }

  // ---------------------------------------------------------------- a machine inside a machine

  /** The nest `sub` on top of the nest `n`. */
  function On(n: Nest, sub: Nest): Nest {
    Nest(n.machines + sub.machines, OrElse(n.reported, sub.reported), n.finished + sub.finished, n.callbacks)
  }

  /** The callback of the root of `sub` moves the innermost machine of `n`, or fails it. */
  function Outcome(n: Nest, sub: Nest): Nest
    requires n.machines != [] && (sub.machines == [] ==> sub.callbacks != [])
  {
    if sub.machines != [] then On(n, sub)
    else match sub.callbacks[|sub.callbacks| - 1]
         case None => Step(On(n, sub), Do(Next))
         case Some(e) => MarkFailed(On(n, sub), e)
  }

  lemma OnLast(n: Nest, sub: Nest)
    requires n.machines != [] && sub.machines != []
    ensures Last(On(n, sub)) == Last(sub)
    ensures Below(On(n, sub)) == n.machines + Below(sub)
  {
  }

  lemma OnWithLast(n: Nest, sub: Nest, m: Machine)
    requires n.machines != [] && sub.machines != []
    ensures WithLast(On(n, sub), m) == On(n, WithLast(sub, m))
  {
    OnLast(n, sub);
    assert n.machines + (Below(sub) + [m]) == n.machines + Below(sub) + [m];
  }

  /** Whether a nest that has emptied has called its root back. */
  predicate CalledBack(n: Nest) {
    n.machines == [] ==> n.callbacks != []
  }

  lemma {:induction false} MarkCompletedOn(n: Nest, sub: Nest)
    requires n.machines != [] && sub.machines != []
    ensures CalledBack(MarkCompleted(sub))
    ensures MarkCompleted(On(n, sub)) == Outcome(n, MarkCompleted(sub))
    decreases |sub.machines|, 1
  {
    var m := Last(sub);
    var next := if m.curState < m.startCleanup then m.startCleanup else m.curState + 1;
    OnLast(n, sub);
    if next < m.nrStates {
      OnWithLast(n, sub, Enter(m, next));
    } else {
      var p := sub.(machines := Below(sub), finished := sub.finished + [m]);
      var q := On(n, sub).(machines := n.machines + Below(sub), finished := n.finished + sub.finished + [m]);
      assert n.finished + (sub.finished + [m]) == n.finished + sub.finished + [m];
      assert On(n, p) == q;
      if p.machines == [] {
        assert On(n, p.(callbacks := p.callbacks + [m.error])) == q;
      } else if m.error.Some? {
        MarkFailedOn(n, p, m.error.value);
      } else {
        JumpOn(n, p, Last(p).curState + 1);
        OnLast(n, p);
        assert MarkCompleted(sub) == NextState(p);
        assert MarkCompleted(On(n, sub)) == NextState(q);
      }
    }
  }

  lemma {:induction false} MarkFailedOn(n: Nest, sub: Nest, e: Error)
    requires n.machines != [] && sub.machines != []
    ensures CalledBack(MarkFailed(sub, e))
    ensures MarkFailed(On(n, sub), e) == Outcome(n, MarkFailed(sub, e))
    decreases |sub.machines|, 2
  {
    var m := Last(sub);
    OnLast(n, sub);
    if !(m.error.Some? && m.curState < m.startCleanup) {
      var failed := m.(error := if m.error.None? then Some(e) else m.error);
      OnWithLast(n, sub, failed);
      MarkCompletedOn(n, WithLast(sub, failed));
    }
  }

  lemma {:induction false} JumpOn(n: Nest, sub: Nest, state: int)
    requires n.machines != [] && sub.machines != []
    ensures CalledBack(JumpToState(sub, state))
    ensures JumpToState(On(n, sub), state) == Outcome(n, JumpToState(sub, state))
    decreases |sub.machines|, 2
  {
    var m := Last(sub);
    OnLast(n, sub);
    if state == m.nrStates {
      OnWithLast(n, sub, m.(curState := state));
      MarkCompletedOn(n, WithLast(sub, m.(curState := state)));
    } else {
      OnWithLast(n, sub, Enter(m, state));
    }
  }

  lemma PerformOn(n: Nest, sub: Nest, op: Op)
    requires n.machines != [] && sub.machines != []
    ensures CalledBack(Perform(sub, op))
    ensures Perform(On(n, sub), op) == Outcome(n, Perform(sub, op))
  {
    OnLast(n, sub);
    match op {
      case Next => JumpOn(n, sub, Last(sub).curState + 1);
      case Completed => MarkCompletedOn(n, sub);
      case Jump(state) => JumpOn(n, sub, state);
    }
  }

  lemma StepOn(n: Nest, sub: Nest, ev: Event)
    requires n.machines != [] && MayHappen(sub, ev)
    ensures MayHappen(On(n, sub), ev) && CalledBack(Step(sub, ev))
    ensures Step(On(n, sub), ev) == Outcome(n, Step(sub, ev))
  {
    OnLast(n, sub);
    var m := Last(sub);
    match ev {
      case Do(op) => PerformOn(n, sub, op);
      case Fail(e) =>
        var failed := sub.(reported := if sub.reported.None? then Some(e) else sub.reported);
        MarkFailedOn(n, failed, e);
        assert On(n, failed)
            == On(n, sub).(reported := if On(n, sub).reported.None? then Some(e) else On(n, sub).reported);
      case StartSub(nr, cleanup) =>
        assert n.machines + (sub.machines + [Fresh(nr, cleanup)]) == n.machines + sub.machines + [Fresh(nr, cleanup)];
      case Delay(op) => OnWithLast(n, sub, m.(timeout := Some(op)));
      case Timeout =>
        OnWithLast(n, sub, m.(timeout := None));
        PerformOn(n, WithLast(sub, m.(timeout := None)), m.timeout.value);
      case CancelDelay => OnWithLast(n, sub, m.(timeout := None));
    }
  }

  lemma {:induction false} RunOn(n: Nest, sub: Nest, evs: seq<Event>)
    requires n.machines != [] && sub.machines != [] && PossibleRun(sub, evs)
    ensures PossibleRun(On(n, sub), evs) && CalledBack(Run(sub, evs))
    ensures Run(On(n, sub), evs) == Outcome(n, Run(sub, evs))
    decreases |evs|
  {
    if evs != [] {
      StepOn(n, sub, evs[0]);
      var t := Step(sub, evs[0]);
      if t.machines == [] {
        assert evs[1..] == [];
      } else {
        RunOn(n, t, evs[1..]);
      }
    }
  }

  lemma StartedOn(n: Nest, nrStates: int, startCleanup: int, evs: seq<Event>)
    requires Ready(n) && Sized(nrStates, startCleanup)
    requires PossibleRun(Start(nrStates, startCleanup), evs)
    ensures var sub := Run(Start(nrStates, startCleanup), evs);
            var run := [StartSub(nrStates, startCleanup)] + evs;
            CalledBack(sub) && PossibleRun(n, run) && Run(n, run) == Outcome(n, sub)
  {
    var s := Start(nrStates, startCleanup);
    var run := [StartSub(nrStates, startCleanup)] + evs;
    RunOn(n, s, evs);
    assert Step(n, run[0]) == On(n, s);
    assert run[1..] == evs;
  }

  lemma SubReported(nrStates: int, startCleanup: int, evs: seq<Event>)
    requires Sized(nrStates, startCleanup) && PossibleRun(Start(nrStates, startCleanup), evs)
    ensures var sub := Run(Start(nrStates, startCleanup), evs);
            && sub.reported == FirstFailure(evs)
            && sub.callbacks == if sub.machines == [] then [FirstFailure(evs)] else []
  {
    var s := Start(nrStates, startCleanup);
    assert s.machines[1..] == [];
    RunErrors(s, evs);
  }

  /** What one call does to the parent, after the given machines have finished. */
  lemma OutcomeIsCall(n: Nest, sub: Nest)
    requires Ready(n) && n.reported.None? && sub.machines == [] && sub.callbacks == [sub.reported]
    ensures var p := n.(finished := n.finished + sub.finished);
            Outcome(n, sub) == Step(p, match sub.reported case None => Do(Next) case Some(e) => Fail(e))
  {
    var p := n.(finished := n.finished + sub.finished);
    assert n.machines + [] == n.machines;
    assert On(n, sub) == p.(reported := sub.reported);
  }

  /**
   A submachine, and whatever it starts in turn, is to its parent one call: of next_state if
   it ends without an error, of mark_failed with its first error otherwise.  Until then the
   parent does not change.
   */
  lemma SubmachineIsOneCall(n: Nest, nrStates: int, startCleanup: int, evs: seq<Event>)
    requires Ready(n) && Sized(nrStates, startCleanup)
    requires n.reported.None? && PossibleRun(Start(nrStates, startCleanup), evs)
    ensures var sub := Run(Start(nrStates, startCleanup), evs);
            var run := [StartSub(nrStates, startCleanup)] + evs;
            && PossibleRun(n, run)
            && (if sub.machines != [] then Run(n, run).machines == n.machines + sub.machines
                else var call := match FirstFailure(evs) case None => Do(Next) case Some(e) => Fail(e);
                     Run(n, run) == Step(n.(finished := n.finished + sub.finished), call))
  {
    StartedOn(n, nrStates, startCleanup, evs);
    SubReported(nrStates, startCleanup, evs);
    var sub := Run(Start(nrStates, startCleanup), evs);
    if sub.machines == [] {
      OutcomeIsCall(n, sub);
    }
  }

  lemma OutcomeHandles(n: Nest, sub: Nest)
    requires Ready(n) && n.reported.None? && sub.machines == [] && sub.callbacks == [None] && sub.reported == None
    requires Last(n).curState + 1 < Last(n).nrStates
    ensures Handled(n.(finished := n.finished + sub.finished), Outcome(n, sub), [Last(n).curState + 1])
  {
    OutcomeIsCall(n, sub);
    HandledOne(n.(finished := n.finished + sub.finished), Next);
  }

  /** A child that ends well leaves its parent in the state after the one that started it. */
  lemma ParentGoesOn(n: Nest, nrStates: int, startCleanup: int, evs: seq<Event>, sub: Nest)
    requires Ready(n) && Sized(nrStates, startCleanup)
    requires n.reported.None? && PossibleRun(Start(nrStates, startCleanup), evs)
    requires sub == Run(Start(nrStates, startCleanup), evs) && sub.callbacks == [None]
    requires Last(n).curState + 1 < Last(n).nrStates
    ensures var run := [StartSub(nrStates, startCleanup)] + evs;
            && PossibleRun(n, run)
            && Handled(n.(finished := n.finished + sub.finished), Run(n, run), [Last(n).curState + 1])
  {
    StartedOn(n, nrStates, startCleanup, evs);
    SubReported(nrStates, startCleanup, evs);
    OutcomeHandles(n, sub);
  }

  // ---------------------------------------------------------------- no state is skipped

  /** A machine that neither failed nor was completed early has handled all states up to its own. */
  predicate NoGap(m: Machine) {
    && Sized(m.nrStates, m.startCleanup)
    && 0 <= m.curState < m.nrStates
    && (m.error.None? ==> m.handled == Range(0, m.curState + 1))
  }

  predicate NoGapInv(n: Nest) {
    && (forall i :: 0 <= i < |n.machines| ==> NoGap(n.machines[i]) && !Completes(n.machines[i].timeout))
    && (forall i :: 0 <= i < |n.finished| && n.finished[i].error.None? ==>
          n.finished[i].handled == Range(0, n.finished[i].nrStates))
  }

  predicate Completes(op: Option<Op>) {
    op.Some? && op.value != Next
  }

  /** Neither a jump nor an explicit completion. */
  predicate Plain(ev: Event) {
    (ev.Do? || ev.Delay?) ==> ev.op == Next
  }

  /** The innermost machine is at its end, or has failed. */
  predicate MayComplete(n: Nest) {
    && n.machines != [] && NoGapInv(n.(machines := Below(n)))
    && !Completes(Last(n).timeout)
    && Sized(Last(n).nrStates, Last(n).startCleanup)
    && 0 <= Last(n).curState <= Last(n).nrStates
    && (Last(n).error.None? ==> Last(n).curState == Last(n).nrStates && Last(n).handled == Range(0, Last(n).nrStates))
  }

  lemma {:induction false} CompletedNoGap(n: Nest)
    requires MayComplete(n)
    ensures NoGapInv(MarkCompleted(n))
    decreases |n.machines|, 1
  {
    var m := Last(n);
    var next := if m.curState < m.startCleanup then m.startCleanup else m.curState + 1;
    if next >= m.nrStates {
      var p := n.(machines := Below(n), finished := n.finished + [m]);
      if p.machines != [] {
        if m.error.Some? {
          FailedNoGap(p, m.error.value);
        } else {
          NextNoGap(p);
        }
      }
    }
  }

  lemma {:induction false} FailedNoGap(n: Nest, e: Error)
    requires n.machines != [] && NoGapInv(n)
    ensures NoGapInv(MarkFailed(n, e))
    decreases |n.machines|, 2
  {
    var m := Last(n);
    var failed := m.(error := if m.error.None? then Some(e) else m.error);
    CompletedNoGap(WithLast(n, failed));
  }

  lemma {:induction false} NextNoGap(n: Nest)
    requires n.machines != [] && NoGapInv(n)
    ensures NoGapInv(NextState(n))
    decreases |n.machines|, 2
  {
    var m := Last(n);
    RangeGrows(0, m.curState + 2);
    if m.curState + 1 == m.nrStates {
      CompletedNoGap(WithLast(n, m.(curState := m.curState + 1)));
    }
  }

  lemma StepNoGap(n: Nest, ev: Event)
    requires MayHappen(n, ev) && Plain(ev) && NoGapInv(n)
    ensures NoGapInv(Step(n, ev))
  {
    match ev {
      case Do(op) => NextNoGap(n);
      case Fail(e) => FailedNoGap(n.(reported := if n.reported.None? then Some(e) else n.reported), e);
      case StartSub(nr, cleanup) => assert Range(0, 1) == [0];
      case Delay(op) =>
      case Timeout => NextNoGap(WithLast(n, Last(n).(timeout := None)));
      case CancelDelay =>
    }
  }

  lemma {:induction false} RunNoGap(n: Nest, evs: seq<Event>)
    requires PossibleRun(n, evs) && NoGapInv(n)
    requires forall i :: 0 <= i < |evs| ==> Plain(evs[i])
    ensures NoGapInv(Run(n, evs))
    decreases |evs|
  {
    if evs != [] {
      StepNoGap(n, evs[0]);
      assert forall i :: 0 <= i < |evs[1..]| ==> evs[1..][i] == evs[i + 1];
      RunNoGap(Step(n, evs[0]), evs[1..]);
    }
  }

  /**
   Over every run without jumps and explicit completions, a machine without an error has
   handled every state up to its own exactly once and in order, and all of them if it ended.
   */
  lemma NoStateIsSkipped(nrStates: int, startCleanup: int, evs: seq<Event>)
    requires Sized(nrStates, startCleanup) && PossibleRun(Start(nrStates, startCleanup), evs)
    requires forall i :: 0 <= i < |evs| ==> Plain(evs[i])
    ensures var n := Run(Start(nrStates, startCleanup), evs);
            && (forall i :: 0 <= i < |n.machines| && n.machines[i].error.None? ==>
                  n.machines[i].handled == Range(0, n.machines[i].curState + 1))
            && (forall i :: 0 <= i < |n.finished| && n.finished[i].error.None? ==>
                  n.finished[i].handled == Range(0, n.finished[i].nrStates))
  {
    assert Range(0, 1) == [0];
    RunNoGap(Start(nrStates, startCleanup), evs);
    var n := Run(Start(nrStates, startCleanup), evs);
    assert forall i :: 0 <= i < |n.machines| ==> NoGap(n.machines[i]);
  }
}
