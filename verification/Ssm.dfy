/** State machines as objects linked to their parents; `below` is the chain of a machine's parents, root first. */
module Ssm {
  import opened Common
  import Spec = SsmSpec

  /** What the outside sees of a nest: root callbacks, and the history of errors and finished machines. */
  class Outcome {
    ghost var reported: Option<Spec.Error>
    ghost var finished: seq<Spec.Machine>
    var callbacks: seq<Option<Spec.Error>>

    constructor ()
      ensures reported == None && finished == [] && callbacks == []
    {
      reported, finished, callbacks := None, [], [];
    }
  }

  ghost function Values(stack: seq<FpiSsm>): (v: seq<Spec.Machine>)
    reads stack
    ensures |v| == |stack|
  {
    if stack == [] then [] else Values(stack[..|stack| - 1]) + [stack[|stack| - 1].Value()]
  }

  /** `below` is the chain of the parents of `m`, all of them distinct. */
  ghost predicate Attached(below: seq<FpiSsm>, m: FpiSsm)
    reads below, m
    decreases |below|
  {
    && m !in below
    && m.parentsm == (if below == [] then null else below[|below| - 1])
    && Linked(below)
  }

  ghost predicate Linked(stack: seq<FpiSsm>)
    reads stack
    decreases |stack|, 0
  {
    stack != [] ==> Attached(stack[..|stack| - 1], stack[|stack| - 1])
  }

  ghost function NestOf(stack: seq<FpiSsm>, o: Outcome): Spec.Nest
    reads stack, o
  {
    Spec.Nest(Values(stack), o.reported, o.finished, o.callbacks)
  }

  class FpiSsm {
    const nrStates: int
    const startCleanup: int
    var curState: int
    var completed: bool
    var error: Option<Spec.Error>
    var timeout: Option<Spec.Op>
    var parentsm: FpiSsm?
    ghost var handled: seq<int>

    ghost function Value(): Spec.Machine
      reads this
    {
      Spec.Machine(nrStates, startCleanup, curState, error, timeout, handled)
    }

    constructor (nrStates: int, startCleanup: int)
      requires Spec.Sized(nrStates, startCleanup)
      ensures this.nrStates == nrStates && this.startCleanup == startCleanup
      ensures completed && parentsm == null && timeout == None
    {
      this.nrStates, this.startCleanup := nrStates, startCleanup;
      curState, completed, error, timeout, parentsm, handled := 0, true, None, None, null, [];
    }

    method CallHandler()
      modifies this`handled
      ensures handled == old(handled) + [curState]
    {
      handled := handled + [curState];
    }

    method Start()
      requires completed && timeout == None
      modifies this
      ensures Value() == Spec.Fresh(nrStates, startCleanup) && !completed && parentsm == old(parentsm)
    {
      curState, completed, error, handled := 0, false, None, [];
      CallHandler();
    }

    /** A machine without a parent starts a nest of its own. */
    method StartRoot(o: Outcome)
      requires completed && timeout == None && parentsm == null
      requires o.reported == None && o.finished == [] && o.callbacks == []
      modifies this
      ensures Attached([], this) && NestOf([] + [this], o) == Spec.Start(nrStates, startCleanup)
    {
      Start();
      assert ([] + [this])[..0] == [];
    }

    method StartSubsm(child: FpiSsm, ghost below: seq<FpiSsm>, o: Outcome)
      requires Attached(below, this) && timeout == None
      requires child !in below + [this] && child.completed && child.timeout == None
      modifies child
      ensures Attached(below + [this], child)
      ensures NestOf(below + [this, child], o)
           == Spec.Step(old(NestOf(below + [this], o)), Spec.StartSub(child.nrStates, child.startCleanup))
    {
      assert (below + [this])[..|below|] == below;
      child.parentsm := this;
      child.Start();
      assert (below + [this, child])[..|below| + 1] == below + [this];
    }

    method MarkCompleted(ghost below: seq<FpiSsm>, o: Outcome) returns (ghost left: seq<FpiSsm>)
      requires Attached(below, this)
      modifies below, this, o
      ensures left <= below + [this] && Linked(left)
      ensures NestOf(left, o) == Spec.MarkCompleted(old(NestOf(below + [this], o)))
      decreases |below|, 1
    {
      ghost var stack := below + [this];
      ghost var n := NestOf(stack, o);
      assert stack[..|below|] == below;
      assert Spec.Below(n) == Values(below) && Spec.Last(n) == Value();
      var nextState := if curState < startCleanup then startCleanup else curState + 1;
      if nextState < nrStates {
        curState := nextState;
        CallHandler();
        return stack;
      }
      completed := true;
      o.finished := o.finished + [Value()];
      left := Callback(below, o);
    }

    /** The completion callback: __subsm_complete for a child, the driver's for the root. */
    method Callback(ghost below: seq<FpiSsm>, o: Outcome) returns (ghost left: seq<FpiSsm>)
      requires Attached(below, this)
      modifies below, o
      ensures left <= below && Linked(left)
      ensures var p := old(NestOf(below, o));
              NestOf(left, o) == if below == [] then p.(callbacks := p.callbacks + [error])
                                 else if error.Some? then Spec.MarkFailed(p, error.value)
                                 else Spec.NextState(p)
      decreases |below|, 0
    {
      if parentsm == null {
        o.callbacks := o.callbacks + [error];
        return [];
      }
      ghost var above := below[..|below| - 1];
      assert below == above + [parentsm];
      if error.Some? {
        left := parentsm.MarkFailed(error.value, above, o);
      } else {
        left := parentsm.NextState(above, o);
      }
    }

    method MarkFailed(e: Spec.Error, ghost below: seq<FpiSsm>, o: Outcome) returns (ghost left: seq<FpiSsm>)
      requires Attached(below, this)
      modifies below, this, o
      ensures left <= below + [this] && Linked(left)
      ensures NestOf(left, o) == Spec.MarkFailed(old(NestOf(below + [this], o)), e)
      decreases |below|, 2
    {
      ghost var n := NestOf(below + [this], o);
      assert (below + [this])[..|below|] == below;
      assert Spec.Below(n) == Values(below) && Spec.Last(n) == Value();
      if error.Some? && curState < startCleanup {
        return below + [this];
      }
      if error.None? {
        error := Some(e);
      }
      assert NestOf(below + [this], o) == Spec.WithLast(n, Value());
      left := MarkCompleted(below, o);
    }

    method NextState(ghost below: seq<FpiSsm>, o: Outcome) returns (ghost left: seq<FpiSsm>)
      requires Attached(below, this)
      modifies below, this, o
      ensures left <= below + [this] && Linked(left)
      ensures NestOf(left, o) == Spec.NextState(old(NestOf(below + [this], o)))
      decreases |below|, 2
    {
      ghost var n := NestOf(below + [this], o);
      assert (below + [this])[..|below|] == below;
      assert Spec.Below(n) == Values(below) && Spec.Last(n) == Value();
      curState := curState + 1;
      if curState == nrStates {
        assert NestOf(below + [this], o) == Spec.WithLast(n, Value());
        left := MarkCompleted(below, o);
      } else {
        CallHandler();
        left := below + [this];
      }
    }

    method JumpToState(state: int, ghost below: seq<FpiSsm>, o: Outcome) returns (ghost left: seq<FpiSsm>)
      requires Attached(below, this)
      modifies below, this, o
      ensures left <= below + [this] && Linked(left)
      ensures NestOf(left, o) == Spec.JumpToState(old(NestOf(below + [this], o)), state)
    {
      ghost var n := NestOf(below + [this], o);
      assert (below + [this])[..|below|] == below;
      assert Spec.Below(n) == Values(below) && Spec.Last(n) == Value();
      curState := state;
      if curState == nrStates {
        assert NestOf(below + [this], o) == Spec.WithLast(n, Value());
        left := MarkCompleted(below, o);
      } else {
        CallHandler();
        left := below + [this];
      }
    }

    /** The delayed variants only arm the timer. */
    method Delay(op: Spec.Op, ghost below: seq<FpiSsm>, o: Outcome)
      requires Attached(below, this) && timeout == None
      modifies this`timeout
      ensures Attached(below, this)
      ensures NestOf(below + [this], o) == Spec.Step(old(NestOf(below + [this], o)), Spec.Delay(op))
    {
      ghost var n := NestOf(below + [this], o);
      assert (below + [this])[..|below|] == below;
      assert Spec.Below(n) == Values(below) && Spec.Last(n) == Value();
      timeout := Some(op);
    }

    method CancelDelayedStateChange(ghost below: seq<FpiSsm>, o: Outcome)
      requires Attached(below, this) && timeout.Some?
      modifies this`timeout
      ensures Attached(below, this)
      ensures NestOf(below + [this], o) == Spec.Step(old(NestOf(below + [this], o)), Spec.CancelDelay)
    {
      ghost var n := NestOf(below + [this], o);
      assert (below + [this])[..|below|] == below;
      assert Spec.Below(n) == Values(below) && Spec.Last(n) == Value();
      timeout := None;
    }

    method Perform(op: Spec.Op, ghost below: seq<FpiSsm>, o: Outcome) returns (ghost left: seq<FpiSsm>)
      requires Attached(below, this)
      modifies below, this, o
      ensures left <= below + [this] && Linked(left)
      ensures NestOf(left, o) == Spec.Perform(old(NestOf(below + [this], o)), op)
    {
      match op {
        case Next => left := NextState(below, o);
        case Completed => left := MarkCompleted(below, o);
        case Jump(state) => left := JumpToState(state, below, o);
      }
    }

    method OnTimeout(ghost below: seq<FpiSsm>, o: Outcome) returns (ghost left: seq<FpiSsm>)
      requires Attached(below, this) && timeout.Some?
      modifies below, this, o
      ensures left <= below + [this] && Linked(left)
      ensures NestOf(left, o) == Spec.Step(old(NestOf(below + [this], o)), Spec.Timeout)
    {
      ghost var n := NestOf(below + [this], o);
      assert (below + [this])[..|below|] == below;
      assert Spec.Below(n) == Values(below) && Spec.Last(n) == Value();
      var op := timeout.value;
      timeout := None;
      assert NestOf(below + [this], o) == Spec.WithLast(n, Value());
      left := Perform(op, below, o);
    }

    /** A failure reported from outside: the first one of the nest is kept on record. */
    method Fail(e: Spec.Error, ghost below: seq<FpiSsm>, o: Outcome) returns (ghost left: seq<FpiSsm>)
      requires Attached(below, this)
      modifies below, this, o
      ensures left <= below + [this] && Linked(left)
      ensures NestOf(left, o) == Spec.Step(old(NestOf(below + [this], o)), Spec.Fail(e))
    {
      assert (below + [this])[..|below|] == below;
      if o.reported.None? {
        o.reported := Some(e);
      }
      left := MarkFailed(e, below, o);
    }

    /** Any event on the innermost machine: the linked machines stay a nest that keeps its first error. */
    method Handle(ev: Spec.Event, ghost below: seq<FpiSsm>, o: Outcome) returns (ghost left: seq<FpiSsm>)
      requires Attached(below, this)
      requires Spec.MayHappen(NestOf(below + [this], o), ev) && Spec.ErrorsInv(NestOf(below + [this], o))
      modifies below, this, o
      ensures Linked(left) && NestOf(left, o) == Spec.Step(old(NestOf(below + [this], o)), ev)
      ensures Spec.ErrorsInv(NestOf(left, o))
    {
      ghost var n := NestOf(below + [this], o);
      Spec.StepErrors(n, ev);
      assert (below + [this])[..|below|] == below && Spec.Last(n) == Value();
      match ev {
        case Do(op) => left := Perform(op, below, o);
        case Fail(e) => left := Fail(e, below, o);
        case StartSub(nr, cleanup) =>
          var child := new FpiSsm(nr, cleanup);
          StartSubsm(child, below, o);
          left := below + [this, child];
          assert left == below + [this] + [child];
        case Delay(op) =>
          Delay(op, below, o);
          left := below + [this];
        case Timeout => left := OnTimeout(below, o);
        case CancelDelay =>
          CancelDelayedStateChange(below, o);
          left := below + [this];
      }
    }
  }
}
