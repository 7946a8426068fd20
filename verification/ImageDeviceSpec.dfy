/**
 The life of an image based device as a transition system.

 A capture-like action (enrol, verify, identify, capture) runs two independent
 activities: the device is activated and later deactivated, and a captured image
 is scanned for minutiae in the background.  The action may complete only once
 both have ended.  Every driver vfunc is called in tail position, so a driver
 that answers synchronously is a run in which the answer is the next event.
 */
module ImageDeviceSpec {
  import opened Common

  datatype ImageState =
    Inactive | Activating | Idle | AwaitFingerOn | Capturing | AwaitFingerOff | Deactivating

  datatype Action = NoAction | Open | Close | Enroll | Verify | Identify | Capture

  /** Errors by domain: the retry domain, a cancellation, everything else. */
  datatype Error = Retry(code: nat) | Cancelled | Fatal(code: nat)

  const RETRY_GENERAL: Error := Retry(0)
  const ERROR_GENERAL: Error := Fatal(0)
  const ERROR_NOT_SUPPORTED: Error := Fatal(1)

  /** What the background scan hands to its callback. */
  datatype ScanOutcome =
    | ScanCancelled
    | ScanFailed
    | Scanned(addError: Option<Error>, matchError: Option<Error>)

  /** What was known when the action was completed. */
  datatype Completion =
    Completion(error: Option<Error>, cancelled: bool, reported: bool, image: bool, stage: int)

  /** Vfuncs that were called and not yet answered. */
  datatype Owes = Owes(activation: bool, deactivation: bool)

  /** The task of the base class that is running, and its return source. */
  datatype Task = Task(action: Action, returning: bool, cancelled: bool, reported: bool)

  /** What the action has gathered; `errors` and `completions` are its history. */
  datatype Gathered =
    Gathered(actionError: Option<Error>, image: bool, errors: seq<Error>, completions: seq<Completion>)

  /** `aborted` is set where an assertion of the library would fail. */
  datatype Device = Device(
    state: ImageState,
    active: bool,
    fingerPresent: bool,
    stage: int,
    scanActive: bool,
    owes: Owes,
    task: Task,
    got: Gathered,
    aborted: bool)

  const INITIAL: Device :=
    Device(Inactive, false, false, 0, false, Owes(false, false),
           Task(NoAction, false, false, false), Gathered(None, false, [], []), false)

  predicate IsCapture(a: Action) {
    (a == Enroll || a == Verify || a == Identify || a == Capture)
  }

  // ---------------------------------------------------------------- steps

  function Activate(s: Device): Device {
    if s.active then s.(aborted := true)
    else s.(state := Activating, owes := s.owes.(activation := true))
  }

  function Deactivate(s: Device): Device {
    if !s.active || s.state == Deactivating then s
    else s.(state := Deactivating, owes := s.owes.(deactivation := true))
  }

  /** The fpi_device_*_complete call: record the result and schedule the return. */
  function Complete(s: Device, error: Option<Error>): Device {
    var c := Completion(error, s.task.cancelled, s.task.reported, s.got.image, s.stage);
    s.(got := s.got.(completions := s.got.completions + [c]), task := s.task.(returning := true))
  }

  /** The error an action keeps: the first one that is not a retry error. */
  function KeepError(kept: Option<Error>, e: Error): Option<Error> {
    if kept.Some? && !kept.value.Retry? then kept else Some(e)
  }

  function NoteError(s: Device, error: Option<Error>): Device {
    if error.None? then s
    else
      s.(got := s.got.(actionError := KeepError(s.got.actionError, error.value),
                       errors := s.got.errors + [error.value]))
  }

  function FinalError(s: Device): Option<Error> {
    if s.got.actionError.None? && s.task.cancelled then Some(Cancelled) else s.got.actionError
  }

  /** The part of maybe_complete that runs once both activities have ended. */
  function Finish(s: Device): Device {
    if FinalError(s).None? && !IsCapture(s.task.action) then s.(aborted := true)
    else if s.task.action == NoAction then s.(got := s.got.(actionError := None, image := false))
    else
      var handedOver := FinalError(s).Some? || s.task.action == Capture;
      var t := Complete(s, FinalError(s));
      t.(got := t.got.(actionError := None, image := if handedOver then false else s.got.image))
  }

  function MaybeComplete(s0: Device, error: Option<Error>): Device {
    var s := NoteError(s0, error);
    if s.active || s.scanActive then s else Finish(s)
  }

  function MaybeAwaitFingerOn(s: Device): Device {
    if s.scanActive || s.fingerPresent then s else s.(state := AwaitFingerOn)
  }

  function ActivateComplete(s: Device, error: Option<Error>): Device {
    if s.active || s.state != Activating || !IsCapture(s.task.action) then s
    else if error.Some? then
      Complete(s.(owes := s.owes.(activation := false),
                  got := s.got.(errors := s.got.errors + [error.value])), error)
    else s.(owes := s.owes.(activation := false), active := true, state := AwaitFingerOn)
  }

  function Deactivated(s: Device): Device {
    s.(active := false, fingerPresent := false, state := Inactive, owes := s.owes.(deactivation := false))
  }

  function DeactivateComplete(s: Device, error: Option<Error>): Device {
    if !s.active || s.state != Deactivating then s
    else
      MaybeComplete(Deactivated(s), error)
  }

  function StartCapture(s: Device, waitForFinger: bool): Device {
    if s.task.action == Capture && !waitForFinger then
      Complete(s.(got := s.got.(errors := [ERROR_NOT_SUPPORTED])), Some(ERROR_NOT_SUPPORTED))
    else if s.fingerPresent || s.scanActive then s.(stage := 0, aborted := true)
    else Activate(s.(stage := 0))
  }

  function ClearedFor(s: Device, a: Action): Device {
    s.(task := Task(a, false, false, false), got := s.got.(errors := [], completions := []))
  }

  /** A task starts: the start guards have accepted it and cleared the task state. */
  function StartAction(s0: Device, a: Action, waitForFinger: bool): Device {
    var s := ClearedFor(s0, a);
    if IsCapture(a) then StartCapture(s, waitForFinger)
    else if a == Close && s.active then s.(aborted := true)
    else s
  }

  function OpenComplete(s: Device, error: Option<Error>): Device {
    if s.active || s.task.action != Open then s else Complete(s.(state := Inactive), error)
  }

  function CloseComplete(s: Device, error: Option<Error>): Device {
    if s.active || s.task.action != Close then s else Complete(s.(state := Inactive), error)
  }

  function ReportFinger(s: Device, present: bool): Device {
    if s.state == Inactive then s
    else if (s.task.action == Open || s.task.action == Close) then s.(aborted := true)
    else
      var t := s.(fingerPresent := present);
      if present && s.state == AwaitFingerOn then t.(state := Capturing)
      else if !present && s.state == AwaitFingerOff then
        var u := t.(state := Idle);
        if s.task.action != Enroll then Deactivate(u) else MaybeAwaitFingerOn(u)
      else t
  }

  function ImageCaptured(s: Device): Device {
    if s.state != Capturing || !IsCapture(s.task.action) then s
    else s.(scanActive := true, state := AwaitFingerOff)
  }

  /** A verify or identify result has been reported to the application. */
  function Reported(s: Device): Device {
    s.(task := s.task.(reported := true))
  }

  function RetryScan(s: Device, code: nat): Device {
    if s.state == Inactive || !IsCapture(s.task.action) then s
    else if s.task.action == Enroll then s.(state := AwaitFingerOff)
    else if s.task.action == Capture then Deactivate(MaybeComplete(s, Some(Retry(code))))
    else Deactivate(MaybeComplete(Reported(s), None))
  }

  function SessionError(s: Device, error: Option<Error>): Device {
    var e := if error.None? then ERROR_GENERAL else error.value;
    if !s.active && s.task.action != NoAction then ActivateComplete(s, Some(e))
    else if s.active && e == Cancelled && s.task.cancelled then s
    else if s.active && s.state == Inactive then s
    else Deactivate(MaybeComplete(s, Some(e)))
  }

  /** The error left once the scanned image has been turned into a print. */
  function ScanError(o: ScanOutcome): Option<Error>
    requires !o.ScanCancelled?
  {
    if o.ScanFailed? then Some(RETRY_GENERAL) else o.addError
  }

  predicate IsFatal(e: Option<Error>) {
    e.Some? && !e.value.Retry?
  }

  function EnrollScanned(s: Device, error: Option<Error>, stages: nat): Device {
    var t := if error.None? then s.(stage := s.stage + 1) else s;
    if t.stage == stages then Deactivate(MaybeComplete(t, error)) else MaybeAwaitFingerOn(t)
  }

  function MatchScanned(s: Device, error: Option<Error>): Device {
    if IsFatal(error) then MaybeComplete(s, error)
    else MaybeComplete(Reported(s), None)
  }

  function MinutiaeDetected(s0: Device, o: ScanOutcome, stages: nat): Device {
    var s := s0.(scanActive := false);
    if o.ScanCancelled? then Deactivate(MaybeComplete(s, Some(Cancelled)))
    else if s.task.action == Capture then
      MaybeComplete(s.(got := s.got.(image := true)), if o.ScanFailed? then Some(RETRY_GENERAL) else None)
    else
      var error := ScanError(o);
      if IsFatal(error) then Deactivate(MaybeComplete(s, error))
      else if s.task.action == Enroll then EnrollScanned(s, error, stages)
      else if (s.task.action == Verify || s.task.action == Identify) then
        MatchScanned(s, if error.None? && o.Scanned? then o.matchError else error)
      else s.(aborted := true)
  }

  function CancelVfunc(s: Device): Device {
    if IsCapture(s.task.action) then Deactivate(s) else s
  }

  function TaskReturn(s: Device): Device {
    s.(task := s.task.(action := NoAction, returning := false, cancelled := false))
  }

  // ---------------------------------------------------------------- events

  datatype Event =
    | Start(action: Action, waitForFinger: bool)
    | OpenDone(error: Option<Error>)
    | CloseDone(error: Option<Error>)
    | ActivateDone(error: Option<Error>)
    | DeactivateDone(error: Option<Error>)
    | Finger(present: bool)
    | Captured
    | Retried(code: nat)
    | SessionFailed(error: Option<Error>)
    | ScanDone(outcome: ScanOutcome)
    | CancelRequested
    | CancelCalled
    | Returned

  /** One event; an aborted process takes no further step. */
  function Step(s: Device, ev: Event, stages: nat): Device {
    if s.aborted then s
    else match ev
      case Start(a, w) => StartAction(s, a, w)
      case OpenDone(e) => OpenComplete(s, e)
      case CloseDone(e) => CloseComplete(s, e)
      case ActivateDone(e) => ActivateComplete(s, e)
      case DeactivateDone(e) => DeactivateComplete(s, e)
      case Finger(p) => ReportFinger(s, p)
      case Captured => ImageCaptured(s)
      case Retried(c) => RetryScan(s, c)
      case SessionFailed(e) => SessionError(s, e)
      case ScanDone(o) => MinutiaeDetected(s, o, stages)
      case CancelRequested => s.(task := s.task.(cancelled := true))
      case CancelCalled => CancelVfunc(s)
      case Returned => TaskReturn(s)
  }

  /**
   The scan callback of an enrolment that is being torn down, and which would wait
   for the next finger instead of letting the enrolment finish.
   */
  predicate Derails(s: Device, o: ScanOutcome, stages: nat) {
    && s.task.action == Enroll
    && (s.state == Deactivating || s.state == Inactive)
    && !s.fingerPresent
    && !o.ScanCancelled?
    && !IsFatal(ScanError(o))
    && (if ScanError(o).None? then s.stage + 1 else s.stage) != stages
  }

  /** When the main loop or a well behaved driver may produce an event. */
  predicate MayHappen(s: Device, ev: Event, stages: nat) {
    match ev
      case Start(a, _) => s.task.action == NoAction && a != NoAction
      case OpenDone(_) => s.task.action == Open ==> !s.task.returning
      case CloseDone(_) => s.task.action == Close ==> !s.task.returning
      case ActivateDone(_) => s.owes.activation
      case DeactivateDone(_) => true
      case Finger(_) => true
      case Captured => true
      case Retried(_) => s.state != Activating && (s.task.action == Enroll ==> s.state != Deactivating)
      case SessionFailed(_) =>
        (!s.active && s.state == Activating && IsCapture(s.task.action)) ==> s.owes.activation
      // A GTask reports a cancellation exactly if its cancellable is cancelled.
      case ScanDone(o) => s.scanActive && (o.ScanCancelled? <==> s.task.cancelled)
      case CancelRequested => s.task.action != NoAction
      case CancelCalled => s.task.cancelled && s.task.action != NoAction && !s.task.returning
      case Returned => s.task.returning
  }

  /** A possible event other than a scan callback that derails an enrolment. */
  predicate OnTrack(s: Device, ev: Event, stages: nat) {
    && MayHappen(s, ev, stages)
    && (ev.ScanDone? ==> !Derails(s, ev.outcome, stages))
  }

  /** The guards of the two assertions that can fail: a start under a finger, a finger while opening or closing. */
  predicate AssertionFails(s: Device, ev: Event) {
    match ev
      case Start(a, w) => IsCapture(a) && !(a == Capture && !w) && s.fingerPresent
      case Finger(_) => s.state != Inactive && (s.task.action == Open || s.task.action == Close)
      case _ => false
  }

  /** The driver reports that the activation it was asked for failed. */
  predicate ActivationFails(s: Device, ev: Event) {
    || (ev.ActivateDone? && ev.error.Some?)
    || (ev.SessionFailed? && s.owes.activation)
  }

  function Run(s: Device, evs: seq<Event>, stages: nat): Device
    decreases |evs|
  {
    if evs == [] then s else Run(Step(s, evs[0], stages), evs[1..], stages)
  }

  ghost predicate RunOnTrack(s: Device, evs: seq<Event>, stages: nat)
    decreases |evs|
  {
    evs != [] ==>
      OnTrack(s, evs[0], stages) && RunOnTrack(Step(s, evs[0], stages), evs[1..], stages)
  }

  ghost predicate NoActivationFails(s: Device, evs: seq<Event>, stages: nat)
    decreases |evs|
  {
    evs != [] ==>
      !ActivationFails(s, evs[0]) && NoActivationFails(Step(s, evs[0], stages), evs[1..], stages)
  }

  ghost predicate PossibleRun(s: Device, evs: seq<Event>, stages: nat)
    decreases |evs|
  {
    evs != [] ==>
      MayHappen(s, evs[0], stages) && PossibleRun(Step(s, evs[0], stages), evs[1..], stages)
  }

  // ---------------------------------------------------------------- which error is kept

  /** Declarative choice: the first error that is not a retry, else the last one. */
  ghost predicate Chosen(errors: seq<Error>, e: Option<Error>) {
    if errors == [] then e == None
    else if forall i :: 0 <= i < |errors| ==> errors[i].Retry? then e == Some(errors[|errors| - 1])
    else exists i :: 0 <= i < |errors| && !errors[i].Retry? && e == Some(errors[i])
                     && forall j :: 0 <= j < i ==> errors[j].Retry?
  }

  lemma ChosenStep(errors: seq<Error>, kept: Option<Error>, e: Error)
    requires Chosen(errors, kept)
    ensures Chosen(errors + [e], KeepError(kept, e))
  {
    var all := errors + [e];
    if forall i :: 0 <= i < |errors| ==> errors[i].Retry? {
      assert forall i :: 0 <= i < |errors| ==> all[i] == errors[i];
      if !e.Retry? {
        assert !all[|errors|].Retry?;
      }
    } else {
      var i :| 0 <= i < |errors| && !errors[i].Retry? && kept == Some(errors[i])
               && forall j :: 0 <= j < i ==> errors[j].Retry?;
      assert all[i] == errors[i] && forall j :: 0 <= j < i ==> all[j] == errors[j];
    }
  }

  // ---------------------------------------------------------------- invariant

  /** Two activities: which states have the device active, which exclude a scan. */
  predicate Activities(s: Device) {
    && !s.aborted
    && (s.active <==> (s.state != Inactive && s.state != Activating))
    && ((s.state == Activating || s.state == AwaitFingerOn || s.state == Capturing) ==> !s.scanActive)
    && (s.owes.deactivation <==> s.state == Deactivating)
    && (s.owes.activation ==> s.state == Activating)
    && (s.fingerPresent ==> s.active || !s.scanActive)
    && (s.active || s.scanActive || s.owes.activation ==> IsCapture(s.task.action))
    && (s.state == Idle ==> s.task.action == Enroll)
  }

  /** A capture-like action is completed once, exactly when every activity has ended. */
  predicate CompletedOnce(s: Device) {
    && |s.got.completions| <= 1
    && (s.task.action != NoAction ==> (s.task.returning <==> |s.got.completions| == 1))
    && (s.task.action == NoAction ==> !s.task.returning)
    && (IsCapture(s.task.action) ==>
          (|s.got.completions| == 1 <==> !s.owes.activation && !s.active && !s.scanActive))
  }

  /** Before completion the kept error is the chosen one; afterwards nothing is left over. */
  ghost predicate ErrorsKept(s: Device) {
    && (IsCapture(s.task.action) && s.got.completions == [] ==> Chosen(s.got.errors, s.got.actionError))
    && (!IsCapture(s.task.action) || s.got.completions != [] ==> s.got.actionError.None? && !s.got.image)
    && (s.owes.activation ==> s.got.errors == [] && !s.got.image)
    && (s.got.image ==> s.task.action == Capture)
    && ((s.task.action == Open || s.task.action == Close) ==> s.got.errors == [])
  }

  /** An action being torn down has an error, was cancelled, or produced its result. */
  predicate HasReason(s: Device, stages: nat) {
    || (s.scanActive && s.task.action != Enroll)
    || s.got.errors != []
    || s.task.cancelled
    || ((s.task.action == Verify || s.task.action == Identify) && s.task.reported)
    || (s.task.action == Capture && s.got.image)
    || (s.task.action == Enroll && s.stage == stages)
  }

  predicate EndingOrScanned(s: Device) {
    || s.state == Deactivating
    || (s.scanActive && s.state == Inactive)
    || (s.state == AwaitFingerOff && s.task.action != Enroll)
  }

  predicate Reasons(s: Device, stages: nat) {
    && (IsCapture(s.task.action) && EndingOrScanned(s) ==> HasReason(s, stages))
    && (s.task.action == Enroll && s.got.completions == [] ==> 0 <= s.stage <= stages)
    && (s.task.action == Enroll && (s.scanActive || (s.active && s.state != Deactivating)) ==> s.stage < stages)
    && (s.owes.activation ==> s.stage == 0)
  }

  /** What the recorded completion says about the action it ended. */
  ghost predicate CompletionSound(s: Device, stages: nat) {
    IsCapture(s.task.action) && s.got.completions != [] ==>
      var c := s.got.completions[0];
      && (s.got.errors != [] ==> Chosen(s.got.errors, c.error))
      && (s.got.errors == [] ==> c.error == if c.cancelled then Some(Cancelled) else None)
      && (c.error.None? ==>
            && ((s.task.action == Verify || s.task.action == Identify) ==> c.reported)
            && (s.task.action == Capture ==> c.image)
            && (s.task.action == Enroll ==> c.stage == stages))
  }

  ghost predicate Inv(s: Device, stages: nat) {
    Activities(s) && CompletedOnce(s) && ErrorsKept(s) && Reasons(s, stages) && CompletionSound(s, stages)
  }

  lemma NoteErrorKeeps(s: Device, error: Option<Error>)
    requires Chosen(s.got.errors, s.got.actionError)
    ensures Chosen(NoteError(s, error).got.errors, NoteError(s, error).got.actionError)
  {
    if error.Some? {
      ChosenStep(s.got.errors, s.got.actionError, error.value);
    }
  }

  /** The state in which maybe_complete is called: an activity may just have ended. */
  ghost predicate Completable(s: Device, error: Option<Error>, stages: nat) {
    && Activities(s)
    && IsCapture(s.task.action)
    && s.got.completions == []
    && !s.task.returning
    && !s.owes.activation
    && Chosen(s.got.errors, s.got.actionError)
    && (s.got.image ==> s.task.action == Capture)
    && (s.task.action == Enroll ==> 0 <= s.stage <= stages)
    && (s.task.action == Enroll && s.scanActive ==> s.stage < stages)
    && (error.None? ==> HasReason(s, stages))
  }

  lemma StillPending(s: Device, error: Option<Error>, stages: nat)
    requires Completable(s, error, stages)
    requires s.active || s.scanActive
    requires s.task.action == Enroll && s.active && s.state != Deactivating ==> s.stage < stages
    ensures Inv(NoteError(s, error), stages)
  {
    NoteErrorKeeps(s, error);
  }

  lemma FinishEstablishes(s: Device, stages: nat)
    requires Completable(s, None, stages)
    requires !s.active && !s.scanActive
    ensures Inv(Finish(s), stages)
  {
    assert Finish(s).got.completions == [Completion(FinalError(s), s.task.cancelled, s.task.reported, s.got.image, s.stage)];
    if s.got.errors != [] {
      assert s.got.actionError.Some?;
    }
  }

  lemma LastActivityEnded(s: Device, error: Option<Error>, stages: nat)
    requires Completable(s, error, stages)
    requires !s.active && !s.scanActive
    ensures Inv(MaybeComplete(s, error), stages)
  {
    NoteErrorKeeps(s, error);
    FinishEstablishes(NoteError(s, error), stages);
  }

  lemma MaybeCompleteEstablishes(s: Device, error: Option<Error>, stages: nat)
    requires Completable(s, error, stages)
    requires s.task.action == Enroll && s.active && s.state != Deactivating ==> s.stage < stages
    ensures Inv(MaybeComplete(s, error), stages)
  {
    if s.active || s.scanActive {
      StillPending(s, error, stages);
    } else {
      LastActivityEnded(s, error, stages);
    }
  }

  lemma MaybeCompleteKeepsActivity(s: Device, error: Option<Error>)
    ensures MaybeComplete(s, error).active == s.active && MaybeComplete(s, error).state == s.state
  {
    assert Finish(NoteError(s, error)).active == s.active;
  }

  /** A request to deactivate may be made before or after maybe_complete. */
  lemma DeactivateCommutes(s: Device, error: Option<Error>)
    ensures Deactivate(MaybeComplete(s, error)) == MaybeComplete(Deactivate(s), error)
  {
    MaybeCompleteKeepsActivity(s, error);
    if s.active && s.state != Deactivating {
      assert MaybeComplete(s, error) == NoteError(s, error);
    }
  }

  /** maybe_complete followed by a deactivation request. */
  lemma CompleteAndDeactivate(s: Device, error: Option<Error>, stages: nat)
    requires Completable(s, error, stages)
    ensures Inv(Deactivate(MaybeComplete(s, error)), stages)
  {
    DeactivateCommutes(s, error);
    MaybeCompleteEstablishes(Deactivate(s), error, stages);
  }

  lemma StartKeepsInv(s: Device, a: Action, w: bool, stages: nat)
    requires stages > 0 && Inv(s, stages)
    requires s.task.action == NoAction && a != NoAction
    ensures StartAction(s, a, w).aborted <==> AssertionFails(s, Start(a, w))
    ensures !StartAction(s, a, w).aborted ==> Inv(StartAction(s, a, w), stages)
  {
  }

  lemma ActivateDoneKeepsInv(s: Device, e: Option<Error>, stages: nat)
    requires stages > 0 && Inv(s, stages)
    requires s.owes.activation
    ensures Inv(ActivateComplete(s, e), stages)
  {
  }

  lemma DeactivateDoneKeepsInv(s: Device, e: Option<Error>, stages: nat)
    requires stages > 0 && Inv(s, stages)
    ensures Inv(DeactivateComplete(s, e), stages)
  {
    if s.active && s.state == Deactivating {
      MaybeCompleteEstablishes(Deactivated(s), e, stages);
    }
  }

  lemma FingerOffEnrolKeepsInv(s: Device, stages: nat)
    requires stages > 0 && Inv(s, stages)
    requires s.state == AwaitFingerOff && s.task.action == Enroll
    ensures Inv(ReportFinger(s, false), stages)
  {
    var t := s.(fingerPresent := false, state := if s.scanActive then Idle else AwaitFingerOn);
    assert ReportFinger(s, false) == t;
  }

  lemma FingerKeepsInv(s: Device, p: bool, stages: nat)
    requires stages > 0 && Inv(s, stages)
    ensures ReportFinger(s, p).aborted <==> AssertionFails(s, Finger(p))
    ensures !ReportFinger(s, p).aborted ==> Inv(ReportFinger(s, p), stages)
  {
    if s.state == AwaitFingerOff && !p {
      if s.task.action == Enroll {
        FingerOffEnrolKeepsInv(s, stages);
      }
    }
  }

  lemma CapturedKeepsInv(s: Device, stages: nat)
    requires stages > 0 && Inv(s, stages)
    ensures Inv(ImageCaptured(s), stages)
  {
  }

  lemma RetryKeepsInv(s: Device, c: nat, stages: nat)
    requires stages > 0 && Inv(s, stages)
    requires OnTrack(s, Retried(c), stages)
    ensures Inv(RetryScan(s, c), stages)
  {
    if s.state != Inactive && IsCapture(s.task.action) && s.task.action != Enroll {
      if s.task.action == Capture {
        CompleteAndDeactivate(s, Some(Retry(c)), stages);
      } else {
        CompleteAndDeactivate(Reported(s), None, stages);
      }
    }
  }

  lemma SessionErrorKeepsInv(s: Device, e: Option<Error>, stages: nat)
    requires stages > 0 && Inv(s, stages)
    requires OnTrack(s, SessionFailed(e), stages)
    ensures Inv(SessionError(s, e), stages)
  {
    if s.active {
      CompleteAndDeactivate(s, Some(if e.None? then ERROR_GENERAL else e.value), stages);
    } else if s.task.action != NoAction && s.owes.activation {
      ActivateDoneKeepsInv(s, Some(if e.None? then ERROR_GENERAL else e.value), stages);
    }
  }

  lemma ScanDoneKeepsInv(s: Device, o: ScanOutcome, stages: nat)
    requires stages > 0 && Inv(s, stages)
    requires OnTrack(s, ScanDone(o), stages)
    ensures Inv(MinutiaeDetected(s, o, stages), stages)
  {
    var t := s.(scanActive := false);
    if o.ScanCancelled? {
      CompleteAndDeactivate(t, Some(Cancelled), stages);
    } else if s.task.action == Capture {
      MaybeCompleteEstablishes(t.(got := t.got.(image := true)), if o.ScanFailed? then Some(RETRY_GENERAL) else None, stages);
    } else if IsFatal(ScanError(o)) {
      CompleteAndDeactivate(t, ScanError(o), stages);
    } else if s.task.action == Enroll {
      if ScanError(o).None? && s.stage + 1 == stages {
        CompleteAndDeactivate(t.(stage := s.stage + 1), None, stages);
      }
    } else {
      var e := if ScanError(o).None? && o.Scanned? then o.matchError else ScanError(o);
      if IsFatal(e) {
        MaybeCompleteEstablishes(t, e, stages);
      } else {
        MaybeCompleteEstablishes(Reported(t), None, stages);
      }
    }
  }

  /** Every step keeps the invariant, but for the two assertions that can fail. */
  lemma StepKeepsInv(s: Device, ev: Event, stages: nat)
    requires stages > 0
    requires Inv(s, stages)
    requires OnTrack(s, ev, stages)
    ensures Step(s, ev, stages).aborted <==> AssertionFails(s, ev)
    ensures !AssertionFails(s, ev) ==> Inv(Step(s, ev, stages), stages)
  {
    match ev {
      case Start(a, w) => StartKeepsInv(s, a, w, stages);
      case OpenDone(e) =>
      case CloseDone(e) =>
      case ActivateDone(e) => ActivateDoneKeepsInv(s, e, stages);
      case DeactivateDone(e) => DeactivateDoneKeepsInv(s, e, stages);
      case Finger(p) => FingerKeepsInv(s, p, stages);
      case Captured => CapturedKeepsInv(s, stages);
      case Retried(c) => RetryKeepsInv(s, c, stages);
      case SessionFailed(e) => SessionErrorKeepsInv(s, e, stages);
      case ScanDone(o) => ScanDoneKeepsInv(s, o, stages);
      case CancelRequested =>
      case CancelCalled =>
      case Returned =>
    }
  }

  // ---------------------------------------------------------------- runs

  lemma {:induction false} RunKeepsInv(s: Device, evs: seq<Event>, stages: nat)
    requires stages > 0 && (!s.aborted ==> Inv(s, stages))
    requires RunOnTrack(s, evs, stages)
    ensures !Run(s, evs, stages).aborted ==> Inv(Run(s, evs, stages), stages)
    decreases |evs|
  {
    if evs != [] {
      if !s.aborted {
        StepKeepsInv(s, evs[0], stages);
      }
      RunKeepsInv(Step(s, evs[0], stages), evs[1..], stages);
    }
  }

  /**
   In every run an action is completed at most once, and it is completed exactly
   when it is neither activating, nor active, nor scanning.
   */
  lemma CompletionExactlyOnce(evs: seq<Event>, stages: nat)
    requires stages > 0 && RunOnTrack(INITIAL, evs, stages)
    ensures var s := Run(INITIAL, evs, stages);
            !s.aborted && IsCapture(s.task.action) ==>
              && |s.got.completions| <= 1
              && (|s.got.completions| == 1 <==> !s.owes.activation && !s.active && !s.scanActive)
  {
    RunKeepsInv(INITIAL, evs, stages);
  }

  /**
   The error delivered is the first one that is not a retry, else the last retry;
   without any error it is the cancellation, if there was one by then.
   */
  lemma DeliveredError(evs: seq<Event>, stages: nat)
    requires stages > 0 && RunOnTrack(INITIAL, evs, stages)
    ensures var s := Run(INITIAL, evs, stages);
            !s.aborted && IsCapture(s.task.action) && s.got.completions != [] ==>
              var c := s.got.completions[0];
              if s.got.errors != [] then Chosen(s.got.errors, c.error)
              else c.error == if c.cancelled then Some(Cancelled) else None
  {
    RunKeepsInv(INITIAL, evs, stages);
  }

  /** A success is never empty: a match was reported, an image kept, every stage done. */
  lemma SuccessHasResult(evs: seq<Event>, stages: nat)
    requires stages > 0 && RunOnTrack(INITIAL, evs, stages)
    ensures var s := Run(INITIAL, evs, stages);
            !s.aborted && IsCapture(s.task.action)
            && s.got.completions != [] && s.got.completions[0].error.None? ==>
              match s.task.action
              case Enroll => s.got.completions[0].stage == stages
              case Capture => s.got.completions[0].image
              case _ => s.got.completions[0].reported
  {
    RunKeepsInv(INITIAL, evs, stages);
  }

  /**
   No scan is pending in the states that lead to an image, and the action stays until the
   pending scan is over.
   */
  lemma SingleScanInFlight(evs: seq<Event>, stages: nat)
    requires stages > 0 && RunOnTrack(INITIAL, evs, stages)
    ensures var s := Run(INITIAL, evs, stages);
            !s.aborted ==>
              && (s.state == Activating || s.state == AwaitFingerOn || s.state == Capturing ==> !s.scanActive)
              && (s.scanActive ==> IsCapture(s.task.action) && !s.task.returning)
  {
    RunKeepsInv(INITIAL, evs, stages);
  }

  /**
   After every run the next event meets a failing assertion exactly under the two guards;
   the start's assertion about the scan, the one of closing and the branch of the scan
   callback that should not be reached never fail.
   */
  lemma AssertionsThatCanFail(evs: seq<Event>, ev: Event, stages: nat)
    requires stages > 0 && RunOnTrack(INITIAL, evs, stages)
    requires !Run(INITIAL, evs, stages).aborted && OnTrack(Run(INITIAL, evs, stages), ev, stages)
    ensures var s := Run(INITIAL, evs, stages);
            Step(s, ev, stages).aborted <==> AssertionFails(s, ev)
  {
    RunKeepsInv(INITIAL, evs, stages);
    StepKeepsInv(Run(INITIAL, evs, stages), ev, stages);
  }

  // ---------------------------------------------------------------- where the promises end

  /** Activating only while an answer is owed, and a finger only while active or activating. */
  predicate Calm(s: Device) {
    && (s.state == Activating ==> s.owes.activation)
    && (s.fingerPresent ==> s.active || s.owes.activation)
  }

  /** Completing an action does not touch what being calm is about. */
  lemma CalmCompletion(s: Device, error: Option<Error>)
    ensures var t := MaybeComplete(s, error);
            t.state == s.state && t.owes == s.owes && t.active == s.active && t.fingerPresent == s.fingerPresent
  {
    var t := NoteError(s, error);
    assert Finish(t).state == t.state && Finish(t).owes == t.owes;
  }

  lemma CalmScan(s: Device, o: ScanOutcome, stages: nat)
    requires stages > 0 && Inv(s, stages) && Calm(s)
    requires OnTrack(s, ScanDone(o), stages)
    ensures Calm(MinutiaeDetected(s, o, stages))
  {
    ScanDoneKeepsInv(s, o, stages);
  }

  lemma CalmStep(s: Device, ev: Event, stages: nat)
    requires stages > 0 && Inv(s, stages) && Calm(s)
    requires OnTrack(s, ev, stages) && !ActivationFails(s, ev)
    ensures !Step(s, ev, stages).aborted && Calm(Step(s, ev, stages))
  {
    StepKeepsInv(s, ev, stages);
    match ev {
      case ScanDone(o) => CalmScan(s, o, stages);
      case DeactivateDone(e) => CalmCompletion(Deactivated(s), e);
      case _ =>
    }
  }

  lemma {:induction false} CalmRun(s: Device, evs: seq<Event>, stages: nat)
    requires stages > 0 && Inv(s, stages) && Calm(s)
    requires RunOnTrack(s, evs, stages) && NoActivationFails(s, evs, stages)
    ensures !Run(s, evs, stages).aborted
    decreases |evs|
  {
    if evs != [] {
      CalmStep(s, evs[0], stages);
      StepKeepsInv(s, evs[0], stages);
      CalmRun(Step(s, evs[0], stages), evs[1..], stages);
    }
  }

  /** The state machine guarantees the assertions of the start as long as no activation fails. */
  lemma GuaranteeWithoutFailure(evs: seq<Event>, stages: nat)
    requires stages > 0 && RunOnTrack(INITIAL, evs, stages) && NoActivationFails(INITIAL, evs, stages)
    ensures !Run(INITIAL, evs, stages).aborted
  {
    CalmRun(INITIAL, evs, stages);
  }

  /** The action can still end: it ended with its activities, and an owed answer is accepted. */
  predicate CanEnd(s: Device) {
    CompletedOnce(s) && (s.owes.deactivation ==> s.active && s.state == Deactivating)
  }

  /** A scan callback leaves the action able to end exactly if it does not derail it. */
  lemma ScanCallbackCanEnd(s: Device, o: ScanOutcome, stages: nat)
    requires stages > 0 && Inv(s, stages)
    requires MayHappen(s, ScanDone(o), stages)
    ensures CanEnd(MinutiaeDetected(s, o, stages)) <==> !Derails(s, o, stages)
  {
    if Derails(s, o, stages) {
      var t := s.(scanActive := false, stage := if ScanError(o).None? then s.stage + 1 else s.stage);
      assert MinutiaeDetected(s, o, stages) == t.(state := AwaitFingerOn);
    } else {
      ScanDoneKeepsInv(s, o, stages);
    }
  }

  /** An enrolment whose device fails while the captured image is being scanned. */
  const ENROLMENT_FAILURE: seq<Event> :=
    [Start(Enroll, true), ActivateDone(None)]
    + ([Finger(true), Captured]
       + ([SessionFailed(Some(Fatal(7))), DeactivateDone(None)] + [ScanDone(Scanned(None, None))]))

  /** Enrolling, at three moments: the finger awaited, the image being scanned, the scan outliving the device. */
  const ENROLLING: Task := Task(Enroll, false, false, false)
  const AWAITING: Device := INITIAL.(state := AwaitFingerOn, active := true, task := ENROLLING)
  const SCANNING: Device :=
    AWAITING.(state := AwaitFingerOff, fingerPresent := true, scanActive := true)
  const ORPHANED: Device :=
    INITIAL.(scanActive := true, task := ENROLLING, got := Gathered(Some(Fatal(7)), false, [Fatal(7)], []))

  lemma EnrolmentStarts(rest: seq<Event>)
    requires PossibleRun(AWAITING, rest, 5)
    ensures var evs := [Start(Enroll, true), ActivateDone(None)] + rest;
            Run(INITIAL, evs, 5) == Run(AWAITING, rest, 5) && PossibleRun(INITIAL, evs, 5)
  {
    var s1 := INITIAL.(state := Activating, owes := Owes(true, false), task := ENROLLING);
    var r1 := [ActivateDone(None)] + rest;
    RunStep(s1, ActivateDone(None), rest, AWAITING, 5);
    RunStep(INITIAL, Start(Enroll, true), r1, s1, 5);
    assert [Start(Enroll, true), ActivateDone(None)] + rest == [Start(Enroll, true)] + r1;
  }

  lemma EnrolmentCaptures(rest: seq<Event>)
    requires PossibleRun(SCANNING, rest, 5)
    ensures var evs := [Finger(true), Captured] + rest;
            Run(AWAITING, evs, 5) == Run(SCANNING, rest, 5) && PossibleRun(AWAITING, evs, 5)
  {
    var s3 := AWAITING.(state := Capturing, fingerPresent := true);
    var r3 := [Captured] + rest;
    RunStep(s3, Captured, rest, SCANNING, 5);
    RunStep(AWAITING, Finger(true), r3, s3, 5);
    assert [Finger(true), Captured] + rest == [Finger(true)] + r3;
  }

  lemma EnrolmentFails(rest: seq<Event>)
    requires PossibleRun(ORPHANED, rest, 5)
    ensures var evs := [SessionFailed(Some(Fatal(7))), DeactivateDone(None)] + rest;
            Run(SCANNING, evs, 5) == Run(ORPHANED, rest, 5) && PossibleRun(SCANNING, evs, 5)
  {
    var s5 := SCANNING.(state := Deactivating, owes := Owes(false, true), got := ORPHANED.got);
    var r5 := [DeactivateDone(None)] + rest;
    RunStep(s5, DeactivateDone(None), rest, ORPHANED, 5);
    RunStep(SCANNING, SessionFailed(Some(Fatal(7))), r5, s5, 5);
    assert [SessionFailed(Some(Fatal(7))), DeactivateDone(None)] + rest == [SessionFailed(Some(Fatal(7)))] + r5;
  }

  lemma ScanDerails()
    ensures var last := [ScanDone(Scanned(None, None))];
            && PossibleRun(ORPHANED, last, 5)
            && Run(ORPHANED, last, 5) == ORPHANED.(state := AwaitFingerOn, stage := 1, scanActive := false)
  {
    var last := ScanDone(Scanned(None, None));
    RunStep(ORPHANED, last, [], ORPHANED.(state := AwaitFingerOn, stage := 1, scanActive := false), 5);
    assert [last] + [] == [last];
  }

  /** That enrolment hangs: a possible run ends every activity and completes nothing. */
  lemma EnrolmentCanHang()
    ensures PossibleRun(INITIAL, ENROLMENT_FAILURE, 5)
    ensures var s := Run(INITIAL, ENROLMENT_FAILURE, 5);
            !s.active && !s.scanActive && !s.owes.activation && s.got.completions == []
  {
    var r6 := [ScanDone(Scanned(None, None))];
    var r4 := [SessionFailed(Some(Fatal(7))), DeactivateDone(None)] + r6;
    ScanDerails();
    EnrolmentFails(r6);
    EnrolmentCaptures(r4);
    EnrolmentStarts([Finger(true), Captured] + r4);
  }

  lemma RunStep(s: Device, ev: Event, rest: seq<Event>, t: Device, stages: nat)
    requires Step(s, ev, stages) == t
    ensures Run(s, [ev] + rest, stages) == Run(t, rest, stages)
    ensures PossibleRun(s, [ev] + rest, stages) <==> MayHappen(s, ev, stages) && PossibleRun(t, rest, stages)
  {
    assert ([ev] + rest)[1..] == rest;
  }

  /** A finger reported after an activation failed, and another action. */
  const FINGER_AFTER_FAILURE: seq<Event> :=
    [Start(Verify, true), ActivateDone(Some(Fatal(1))), Returned] + ([Finger(true)] + [Start(Verify, true)])

  lemma TrackStep(s: Device, ev: Event, rest: seq<Event>, t: Device, stages: nat)
    requires OnTrack(s, ev, stages) && Step(s, ev, stages) == t
    ensures Run(s, [ev] + rest, stages) == Run(t, rest, stages)
    ensures RunOnTrack(t, rest, stages) ==> RunOnTrack(s, [ev] + rest, stages)
  {
    assert ([ev] + rest)[1..] == rest;
  }

  /** The state a failed activation leaves behind. */
  const AFTER_FAILURE: Device :=
    INITIAL.(state := Activating, got := Gathered(None, false, [Fatal(1)], [Completion(Some(Fatal(1)), false, false, false, 0)]))

  lemma FailedActivation(rest: seq<Event>)
    requires RunOnTrack(AFTER_FAILURE, rest, 5)
    ensures var evs := [Start(Verify, true), ActivateDone(Some(Fatal(1))), Returned] + rest;
            RunOnTrack(INITIAL, evs, 5) && Run(INITIAL, evs, 5) == Run(AFTER_FAILURE, rest, 5)
  {
    var s1 := INITIAL.(state := Activating, owes := Owes(true, false), task := Task(Verify, false, false, false));
    var s2 := AFTER_FAILURE.(task := Task(Verify, true, false, false));
    var r2 := [Returned] + rest;
    var r1 := [ActivateDone(Some(Fatal(1)))] + r2;
    TrackStep(s2, Returned, rest, AFTER_FAILURE, 5);
    TrackStep(s1, ActivateDone(Some(Fatal(1))), r2, s2, 5);
    TrackStep(INITIAL, Start(Verify, true), r1, s1, 5);
    assert [Start(Verify, true), ActivateDone(Some(Fatal(1))), Returned] + rest == [Start(Verify, true)] + r1;
  }

  /** The report is kept, because a failed activation leaves the state behind, and fails the assertion. */
  lemma FingerAfterFailedActivation()
    ensures RunOnTrack(INITIAL, FINGER_AFTER_FAILURE, 5)
    ensures Run(INITIAL, FINGER_AFTER_FAILURE, 5).aborted
  {
    var s4 := AFTER_FAILURE.(fingerPresent := true);
    var r4 := [Start(Verify, true)];
    assert r4[1..] == [] && RunOnTrack(s4, r4, 5) && Run(s4, r4, 5) == Step(s4, r4[0], 5);
    TrackStep(AFTER_FAILURE, Finger(true), r4, s4, 5);
    FailedActivation([Finger(true)] + r4);
  }
}
