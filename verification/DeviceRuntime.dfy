/** The action runtime of a device as an object; each call is a step of the specification. */
module DeviceRuntime {
  import opened DeviceRuntimeSpec

  class FpDevice {
    const driver: Driver
    // the current task
    var currentAction: Action
    ghost var taskId: nat
    var returnSource: bool
    var cancelled: bool
    var idleCancelSource: bool
    ghost var idleFor: nat
    // critical sections
    var criticalSection: nat
    var flushSource: bool
    var cancelQueued: bool
    ghost var cancelFor: nat
    var suspendQueued: bool
    var resumeQueued: bool
    // suspend and resume
    var suspendResumeTask: PowerTask
    var isSuspended: bool
    var suspendError: bool
    ghost var suspendOwed: bool
    ghost var resumeOwed: bool
    var completedHandler: Waiting
    ghost var calls: seq<Call>
    var isRemoved: bool
    var aborted: bool

    ghost function TaskState(): Task
      reads this`currentAction, this`taskId, this`returnSource, this`cancelled, this`idleCancelSource, this`idleFor
    {
      Task(currentAction, taskId, returnSource, cancelled, idleCancelSource, idleFor)
    }

    ghost function CriticalState(): Critical
      reads this`criticalSection, this`flushSource, this`cancelQueued, this`cancelFor
      reads this`suspendQueued, this`resumeQueued
    {
      Critical(criticalSection, flushSource, cancelQueued, cancelFor, suspendQueued, resumeQueued)
    }

    ghost function PowerState(): Power
      reads this`suspendResumeTask, this`isSuspended, this`suspendError
      reads this`suspendOwed, this`resumeOwed, this`completedHandler
    {
      Power(suspendResumeTask, isSuspended, suspendError, suspendOwed, resumeOwed, completedHandler)
    }

    ghost function State(): Runtime
      reads this
    {
      Runtime(TaskState(), CriticalState(), PowerState(), isRemoved, calls, aborted)
    }

    constructor (d: Driver)
      ensures State() == INITIAL && driver == d
    {
      driver := d;
      currentAction, taskId, returnSource, cancelled, idleCancelSource, idleFor := NoAction, 0, false, false, false, 0;
      isRemoved := false;
      criticalSection, flushSource, cancelQueued, cancelFor := 0, false, false, 0;
      suspendQueued, resumeQueued := false, false;
      suspendResumeTask, isSuspended, suspendError := NoPower, false, false;
      suspendOwed, resumeOwed, completedHandler, calls, aborted := false, false, NotWaiting, [], false;
    }

    /** Calls of the driver's vfuncs, recorded with the section depth at that moment. */
    ghost method CancelVfunc(raisedFor: nat)
      modifies this`calls
      ensures State() == CallCancel(old(State()), raisedFor)
    {
      calls := calls + [CancelCall(criticalSection, currentAction != NoAction && !returnSource, taskId, raisedFor)];
    }

    method CancelCancellable()
      modifies this`cancelled, this`idleCancelSource, this`idleFor
      ensures State() == old(State()).(task := CancelTask(old(State()).task, driver))
    {
      if !cancelled {
        cancelled := true;
        if driver.cancel && !returnSource {
          idleCancelSource, idleFor := true, taskId;
        }
      }
    }

    method CancelInIdleCallback()
      modifies this`idleCancelSource, this`cancelQueued, this`cancelFor, this`calls, this`aborted
      ensures State() == CancelInIdle(old(State()))
    {
      idleCancelSource := false;
      if currentAction == NoAction {
        aborted := true;
      } else if criticalSection > 0 {
        cancelQueued := true;
        cancelFor := idleFor;
      } else {
        CancelVfunc(idleFor);
      }
    }

    method CompleteSuspendResumeTask()
      modifies this`suspendResumeTask, this`suspendError, this`completedHandler, this`aborted
      ensures State() == AnswerPower(old(State()))
    {
      if suspendResumeTask == NoPower {
        aborted := true;
      } else {
        suspendResumeTask, suspendError, completedHandler := NoPower, false, NotWaiting;
      }
    }

    method MarkSuspended(error: bool)
      modifies this`suspendError, this`isSuspended, this`suspendOwed
      ensures State() == DeviceRuntimeSpec.MarkSuspended(old(State()), error)
    {
      suspendError, isSuspended, suspendOwed := error, true, false;
    }

    method SuspendComplete(error: bool)
      modifies this
      ensures State() == DeviceRuntimeSpec.SuspendComplete(old(State()), error, driver)
    {
      if suspendResumeTask == NoPower || suspendError {
        return;
      }
      MarkSuspended(error);
      if !suspendError || currentAction == NoAction {
        CompleteSuspendResumeTask();
        return;
      }
      completedHandler := CancelledTaskDone;
      CancelCancellable();
    }

    method ResumeComplete()
      modifies this
      ensures State() == DeviceRuntimeSpec.ResumeComplete(old(State()))
    {
      if suspendResumeTask == NoPower {
        return;
      }
      isSuspended, resumeOwed := false, false;
      CompleteSuspendResumeTask();
    }

    method DeviceSuspend()
      modifies this
      ensures State() == DeviceRuntimeSpec.DeviceSuspend(old(State()), driver)
    {
      match currentAction {
        case NoAction => SuspendComplete(false);
        case Interactive =>
          if !driver.suspend {
            SuspendComplete(true);
          } else if criticalSection > 0 {
            suspendQueued := true;
          } else {
            suspendOwed := true;
            calls := calls + [SuspendCall(criticalSection)];
          }
        case _ => completedHandler := ShortTaskDone;
      }
    }

    method DeviceResume()
      modifies this
      ensures State() == DeviceRuntimeSpec.DeviceResume(old(State()), driver)
    {
      match currentAction {
        case NoAction => ResumeComplete();
        case Interactive =>
          if !driver.resume {
            ResumeComplete();
          } else if criticalSection > 0 {
            resumeQueued := true;
          } else {
            resumeOwed := true;
            calls := calls + [ResumeCall(criticalSection)];
          }
        case _ => aborted := true;
      }
    }

    method Suspend()
      modifies this
      ensures State() == RequestSuspend(old(State()), driver)
    {
      if suspendResumeTask != NoPower || isSuspended {
        return;
      }
      if isRemoved {
        return;
      }
      suspendResumeTask := Suspending;
      DeviceSuspend();
    }

    method Resume()
      modifies this
      ensures State() == RequestResume(old(State()), driver)
    {
      if suspendResumeTask != NoPower || !isSuspended {
        return;
      }
      if isRemoved {
        return;
      }
      suspendResumeTask := Resuming;
      DeviceResume();
    }

    method CriticalEnter()
      modifies this`criticalSection, this`flushSource
      ensures State() == DeviceRuntimeSpec.CriticalEnter(old(State()))
    {
      if currentAction == NoAction {
        return;
      }
      criticalSection := criticalSection + 1;
      flushSource := false;
    }

    method CriticalLeave()
      modifies this`criticalSection, this`flushSource
      ensures State() == DeviceRuntimeSpec.CriticalLeave(old(State()))
    {
      if currentAction == NoAction || criticalSection == 0 {
        return;
      }
      criticalSection := criticalSection - 1;
      if criticalSection > 0 {
        return;
      }
      flushSource := true;
    }

    method ServeCancel()
      requires cancelQueued
      modifies this`cancelQueued, this`calls
      ensures State() == DeviceRuntimeSpec.ServeCancel(old(State()))
    {
      if currentAction != NoAction && !returnSource {
        CancelVfunc(cancelFor);
      }
      cancelQueued := false;
    }

    method ServeSuspend()
      requires suspendQueued
      modifies this
      ensures State() == DeviceRuntimeSpec.ServeSuspend(old(State()), driver)
    {
      suspendQueued := false;
      DeviceSuspend();
    }

    method ServeResume()
      requires resumeQueued
      modifies this
      ensures State() == DeviceRuntimeSpec.ServeResume(old(State()), driver)
    {
      resumeQueued := false;
      DeviceResume();
    }

    /** One dispatch of the flush source; it stays armed while the result is true. */
    method FlushIdleCallback() returns (again: bool)
      modifies this
      ensures State() == Flush(old(State()), driver)
      ensures again <==> Queued(old(State()).crit)
    {
      again := true;
      if cancelQueued {
        ServeCancel();
      } else if suspendQueued {
        ServeSuspend();
      } else if resumeQueued {
        ServeResume();
      } else {
        flushSource := false;
        again := false;
      }
    }

    /** Start an action, or refuse it as busy; `admitted` is what the other guards say. */
    method StartTask(a: Action, admitted: bool) returns (started: bool)
      modifies this`currentAction, this`taskId, this`returnSource, this`cancelled
      ensures State() == DeviceRuntimeSpec.StartTask(old(State()), a, admitted)
      ensures started ==> old(currentAction) == NoAction && currentAction == a
    {
      if !admitted || currentAction != NoAction || (a != ClearStorage && isSuspended) {
        return false;
      }
      BeginTask(a);
      return true;
    }

    method BeginTask(a: Action)
      modifies this`currentAction, this`taskId, this`returnSource, this`cancelled
      ensures TaskState() == NewTask(old(TaskState()), a)
    {
      currentAction, taskId, returnSource, cancelled := a, taskId + 1, false, false;
    }

    method CompleteTask()
      modifies this`idleCancelSource, this`returnSource
      ensures State() == DeviceRuntimeSpec.CompleteTask(old(State()))
    {
      idleCancelSource := false;
      returnSource := true;
    }

    method ReturnTaskInIdle()
      modifies this
      ensures State() == ReturnTask(old(State()))
    {
      currentAction, returnSource, cancelled := NoAction, false, false;
      if completedHandler != NotWaiting {
        CompleteSuspendResumeTask();
      }
    }

    /** Any event of a run: the object keeps the invariant and fails its one assertion exactly when the step does. */
    method Handle(ev: Event)
      requires Inv(State()) && !aborted && MayHappen(State(), ev)
      modifies this
      ensures State() == Step(old(State()), ev, driver) && Inv(State())
      ensures aborted <==> ResumesShortTask(old(State()), ev)
    {
      StepKeepsInv(State(), ev, driver);
      match ev {
        case Start(a, admitted) => var _ := StartTask(a, admitted);
        case Complete => CompleteTask();
        case Return => ReturnTaskInIdle();
        case Cancel => CancelCancellable();
        case IdleCancel => CancelInIdleCallback();
        case Enter => CriticalEnter();
        case Leave => CriticalLeave();
        case FlushIdle => var _ := FlushIdleCallback();
        case Suspend => this.Suspend();
        case Resume => this.Resume();
        case SuspendAnswer(e) => SuspendComplete(e);
        case ResumeAnswer => ResumeComplete();
        case Remove => isRemoved := true;
      }
    }
  }
}
