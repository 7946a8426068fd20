/** The image device as an object: each call updates its fields as the step of the specification says. */
module ImageDevice {
  import opened Common
  import opened ImageDeviceSpec

  class FpImageDevice {
    const nrEnrollStages: nat
    // private state of the image device
    var state: ImageState
    var active: bool
    var fingerPresent: bool
    var enrollStage: int
    var minutiaeScanActive: bool
    var actionError: Option<Error>
    var captureImage: bool
    // the part of the base class that decides what a call may do
    var currentAction: Action
    var returning: bool
    var cancelled: bool
    var resultReported: bool
    // history
    ghost var owes: Owes
    ghost var errors: seq<Error>
    ghost var completions: seq<Completion>
    var aborted: bool

    ghost function State(): (s: Device)
      reads this
    {
      Device(state, active, fingerPresent, enrollStage, minutiaeScanActive, owes,
             Task(currentAction, returning, cancelled, resultReported),
             Gathered(actionError, captureImage, errors, completions), aborted)
    }

    constructor (stages: nat)
      ensures State() == INITIAL && nrEnrollStages == stages
    {
      nrEnrollStages := stages;
      state, active, fingerPresent, enrollStage, minutiaeScanActive := Inactive, false, false, 0, false;
      actionError, captureImage := None, false;
      currentAction, returning, cancelled, resultReported := NoAction, false, false, false;
      owes, errors, completions, aborted := Owes(false, false), [], [], false;
    }

    method ChangeState(to: ImageState)
      modifies this`state
      ensures State() == old(State()).(state := to)
    {
      state := to;
    }

    method Activate()
      modifies this
      ensures State() == ImageDeviceSpec.Activate(old(State()))
    {
      if active {
        aborted := true;
      } else {
        ChangeState(Activating);
        owes := owes.(activation := true);
      }
    }

    method Deactivate()
      modifies this
      ensures State() == ImageDeviceSpec.Deactivate(old(State()))
    {
      if !active || state == Deactivating {
        return;
      }
      ChangeState(Deactivating);
      owes := owes.(deactivation := true);
    }

    method CompleteTask(error: Option<Error>)
      modifies this
      ensures State() == Complete(old(State()), error)
    {
      completions := completions + [Completion(error, cancelled, resultReported, captureImage, enrollStage)];
      returning := true;
    }

    method MaybeComplete(error: Option<Error>)
      modifies this
      ensures State() == ImageDeviceSpec.MaybeComplete(old(State()), error)
    {
      if error.Some? {
        if actionError.None? || actionError.value.Retry? {
          actionError := error;
        }
        errors := errors + [error.value];
      }
      if active || minutiaeScanActive {
        return;
      }
      if actionError.None? && cancelled {
        actionError := Some(Cancelled);
      }
      if actionError.Some? {
        if currentAction != NoAction {
          CompleteTask(actionError);
        }
        actionError, captureImage := None, false;
      } else if IsCapture(currentAction) {
        CompleteTask(None);
        if currentAction == Capture {
          captureImage := false;
        }
      } else {
        aborted := true;
      }
    }

    method EnrollMaybeAwaitFingerOn()
      modifies this
      ensures State() == MaybeAwaitFingerOn(old(State()))
    {
      if minutiaeScanActive || fingerPresent {
        return;
      }
      ChangeState(AwaitFingerOn);
    }

    method MinutiaeDetected(o: ScanOutcome)
      modifies this
      ensures State() == ImageDeviceSpec.MinutiaeDetected(old(State()), o, nrEnrollStages)
    {
      minutiaeScanActive := false;
      if o.ScanCancelled? {
        MaybeComplete(Some(Cancelled));
        Deactivate();
        return;
      }
      var error := if o.ScanFailed? then Some(RETRY_GENERAL) else None;
      if currentAction == Capture {
        captureImage := true;
        MaybeComplete(error);
        return;
      }
      if o.Scanned? {
        error := o.addError;
        if IsFatal(error) {
          MaybeComplete(error);
          Deactivate();
          return;
        }
      }
      if currentAction == Enroll {
        FinishEnrollStage(error);
      } else if currentAction == Verify || currentAction == Identify {
        if error.None? && o.Scanned? {
          error := o.matchError;
        }
        if !IsFatal(error) {
          resultReported := true;
          error := None;
        }
        MaybeComplete(error);
      } else {
        aborted := true;
      }
    }

    method FinishEnrollStage(error: Option<Error>)
      modifies this
      ensures State() == EnrollScanned(old(State()), error, nrEnrollStages)
    {
      if error.None? {
        enrollStage := enrollStage + 1;
      }
      if enrollStage == nrEnrollStages {
        MaybeComplete(error);
        Deactivate();
      } else {
        EnrollMaybeAwaitFingerOn();
      }
    }

    method ReportFingerStatus(present: bool)
      modifies this
      ensures State() == ReportFinger(old(State()), present)
    {
      if state == Inactive {
        return;
      }
      if currentAction == Open || currentAction == Close {
        aborted := true;
        return;
      }
      fingerPresent := present;
      if present && state == AwaitFingerOn {
        ChangeState(Capturing);
      } else if !present && state == AwaitFingerOff {
        ChangeState(Idle);
        if currentAction != Enroll {
          Deactivate();
        } else {
          EnrollMaybeAwaitFingerOn();
        }
      }
    }

    method ImageCaptured()
      modifies this
      ensures State() == ImageDeviceSpec.ImageCaptured(old(State()))
    {
      if state != Capturing || !IsCapture(currentAction) {
        return;
      }
      minutiaeScanActive := true;
      ChangeState(AwaitFingerOff);
    }

    method RetryScan(code: nat)
      modifies this
      ensures State() == ImageDeviceSpec.RetryScan(old(State()), code)
    {
      if state == Inactive || !IsCapture(currentAction) {
        return;
      }
      if currentAction == Enroll {
        ChangeState(AwaitFingerOff);
      } else if currentAction == Capture {
        MaybeComplete(Some(Retry(code)));
        Deactivate();
      } else {
        resultReported := true;
        MaybeComplete(None);
        Deactivate();
      }
    }

    method SessionError(error: Option<Error>)
      modifies this
      ensures State() == ImageDeviceSpec.SessionError(old(State()), error)
    {
      var e := if error.None? then ERROR_GENERAL else error.value;
      if !active {
        if currentAction != NoAction {
          ActivateComplete(Some(e));
          return;
        }
      } else if e == Cancelled && cancelled {
        return;
      } else if state == Inactive {
        return;
      }
      MaybeComplete(Some(e));
      Deactivate();
    }

    method ActivateComplete(error: Option<Error>)
      modifies this
      ensures State() == ImageDeviceSpec.ActivateComplete(old(State()), error)
    {
      if active || state != Activating || !IsCapture(currentAction) {
        return;
      }
      owes := owes.(activation := false);
      if error.Some? {
        errors := errors + [error.value];
        CompleteTask(error);
        return;
      }
      active := true;
      ChangeState(Idle);
      ChangeState(AwaitFingerOn);
    }

    method DeactivateComplete(error: Option<Error>)
      modifies this
      ensures State() == ImageDeviceSpec.DeactivateComplete(old(State()), error)
    {
      if !active || state != Deactivating {
        return;
      }
      owes := owes.(deactivation := false);
      active := false;
      fingerPresent := false;
      ChangeState(Inactive);
      assert State() == Deactivated(old(State()));
      MaybeComplete(error);
    }

    method OpenComplete(error: Option<Error>)
      modifies this
      ensures State() == ImageDeviceSpec.OpenComplete(old(State()), error)
    {
      if active || currentAction != Open {
        return;
      }
      state := Inactive;
      CompleteTask(error);
    }

    method CloseComplete(error: Option<Error>)
      modifies this
      ensures State() == ImageDeviceSpec.CloseComplete(old(State()), error)
    {
      if active || currentAction != Close {
        return;
      }
      state := Inactive;
      CompleteTask(error);
    }

    method StartCaptureAction(waitForFinger: bool)
      modifies this
      ensures State() == StartCapture(old(State()), waitForFinger)
    {
      if currentAction == Capture && !waitForFinger {
        errors := [ERROR_NOT_SUPPORTED];
        CompleteTask(Some(ERROR_NOT_SUPPORTED));
        return;
      }
      enrollStage := 0;
      if fingerPresent || minutiaeScanActive {
        aborted := true;
        return;
      }
      Activate();
    }

    method BeginTask(a: Action)
      modifies this
      ensures State() == ClearedFor(old(State()), a)
    {
      currentAction, returning, cancelled, resultReported := a, false, false, false;
      errors, completions := [], [];
    }

    /** The base class starts a task whose guards have passed and calls the vfunc. */
    method StartTask(a: Action, waitForFinger: bool)
      modifies this
      ensures State() == StartAction(old(State()), a, waitForFinger)
    {
      BeginTask(a);
      if IsCapture(a) {
        StartCaptureAction(waitForFinger);
      } else if a == Close && active {
        aborted := true;
      }
    }

    /** The base class returns the completed task from its idle source. */
    method ReturnTask()
      modifies this
      ensures State() == TaskReturn(old(State()))
    {
      currentAction, returning, cancelled := NoAction, false, false;
    }

    method CancelAction()
      modifies this
      ensures State() == CancelVfunc(old(State()))
    {
      if IsCapture(currentAction) {
        Deactivate();
      }
    }

    /** Any event of a run: the object keeps the invariant, but for the two assertions that can fail. */
    method Handle(ev: Event)
      requires nrEnrollStages > 0 && Inv(State(), nrEnrollStages) && OnTrack(State(), ev, nrEnrollStages)
      modifies this
      ensures State() == Step(old(State()), ev, nrEnrollStages)
      ensures aborted <==> AssertionFails(old(State()), ev)
      ensures !aborted ==> Inv(State(), nrEnrollStages)
    {
      StepKeepsInv(State(), ev, nrEnrollStages);
      match ev {
        case Start(a, w) => StartTask(a, w);
        case OpenDone(e) => OpenComplete(e);
        case CloseDone(e) => CloseComplete(e);
        case ActivateDone(e) => ActivateComplete(e);
        case DeactivateDone(e) => DeactivateComplete(e);
        case Finger(p) => ReportFingerStatus(p);
        case Captured => ImageCaptured();
        case Retried(c) => RetryScan(c);
        case SessionFailed(e) => SessionError(e);
        case ScanDone(o) => MinutiaeDetected(o);
        case CancelRequested => cancelled := true;
        case CancelCalled => CancelAction();
        case Returned => ReturnTask();
      }
    }
  }
}
