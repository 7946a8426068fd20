# Verified models of libfprint's driver runtime and the GXFP sensor stack

These Dafny files model the parts of the repository whose behaviour is hardest to see by
reading, and prove what they are for:

- `ImageDeviceSpec`, `ImageDeviceProgress`, `ImageDevice`: the state machine of image devices, from activation over
  the asynchronous minutiae scan to deactivation and completion.
- `DeviceRuntimeSpec`, `DeviceRuntimeProgress`, `DeviceRuntime`: tasks, critical sections, cancellation, suspend and resume.
- `Temperature`: the temperature model with its hysteresis and timers.
- `SsmSpec`, `SsmProgress`, `Ssm`: sequential state machines, nested to any depth, with cleanup states.
- `Raster`, `FrameAssembly`, `Overlap`, `MedianFilter`, `LineAssembly`, `LineMeaning`: building an image
  from the stripes or lines of a swipe sensor.
- `ByteScan`, `ByteCodec`, `ByteStream`: the byte reader and writer.
- `RxQueueSpec`, `RxQueueProgress`, `RxQueue`: the receive queue of the kernel driver under all its threads.
- `Framing`, `FrameMeaning`, `Reassembly`: the layers of framing between host and sensor.
- `OtpCheck`, `OtpMeaning`, `ConfigBlob`, `ConfigMeaning`: the sensor's one-time-programmable memory and
  configuration blob.
- `SpiTransfer`: SPI transfers cut into pieces.
- `Common`: integer conversions, and products and quotients of unknowns.

A file named `...Spec` holds a transition system: a state, a `Step`, and theorems over every
run. The class in the file beside it has the source's fields and methods, and each method is
proved to perform exactly the step of the specification; its method `Handle` takes any event
of a run and keeps the invariant behind the theorems.
A file named `...Progress` says what runs lead to: which answers complete an action, when a
cancellation or a power request arrives, which states are handled, which records are delivered.
A file named `...Meaning` says the same of data, in terms that do not use the functions of the
model: a checksum as a sum, a cyclic code as a division, a position as a prefix sum.
Algorithms over buffers are methods with loops over arrays, proved against functions or
predicates that say what the result means.

What is taken as given, because the code leaves it to its callers or its platform:

- Image devices: each activation, opening and closing is reported once; a retry is not reported
  while activating nor, in an enrolment, while deactivating; the scan is reported as cancelled
  exactly if the action's cancellable was cancelled. The vfunc calls are the last thing their
  callers do, so an answer given inside a vfunc is the next event; the notification of the
  passing change to IDLE, before the finger is awaited or the device deactivated, is taken not
  to call back. No report of a finger is excluded. The run theorems say what holds as long as
  no scan callback derails an enrolment (`Derails`, see below), and until an assertion fails,
  which is the end of the process and happens exactly under the guards of `AssertionFails`.
- Tasks: critical sections are left before the action is completed, and the main loop
  prefers the flush source to the source that returns the task, by its priority.
- State machines: calls go to the innermost running machine (what the `BUG_ON` checks report).
- Temperature: the exponential is any function with `decay(0) = 1`, `decay(x + y) = decay(x) decay(y)`
  and the right monotonicity, and the logarithm is its inverse; arithmetic is over the reals.
- Assembly: the sizes are those for which the source's 32-bit arithmetic does not overflow.
- Queue: what one thread does under the spin lock is one step; an enabled interrupt is one-shot.
- SPI: the block size is between 1 and 65535, as its initialisation makes it.
- Allocation succeeds.

Where comments promise more than the code keeps, the code is modelled and the exact condition
is proved:

- The comment at the two assertions of `fp_image_device_start_capture_action` says that the
  internal state machine guarantees them. The one about the scan never fails. The one about
  the finger fails exactly when a finger is recorded as present (`AssertionsThatCanFail`). That
  cannot be as long as every activation succeeds (`GuaranteeWithoutFailure`); after a failed
  one the state stays ACTIVATING, so that a finger reported before or after the failure is kept
  (`FingerAfterFailedActivation`).
- The branch of `fpi_device_resume` that "cannot happen" is reached when the storage is cleared
  on a suspended device, or when a suspend is answered after the next short task has started
  (`ClearStorageWhileSuspended`, `SuspendAnsweredLate`).
- An enrolment whose device fails during a scan can end all its activities without being
  completed: the scan callback then waits for the next finger. It does so exactly under
  `Derails`: enrolling, deactivating or inactive, no finger, no fatal error of the scan, and
  stages left (`ScanCallbackCanEnd`, `EnrolmentCanHang`).
- An enrolment in which the finger comes back before the scan is over, and is lifted after it,
  is left in IDLE: nothing is pending, no error occurred, and no further answer of the driver
  completes it. Only a retry, an error or a cancellation ends it (`EnrolmentCanStall`). That is
  the only such state (`AnswersSufficeUnlessStalled`).
- The state changes outside the table of valid transitions, about which the source warns, are
  exactly those of a retry of an enrolment that is not capturing and of a scan that ends with
  the finger gone in AWAIT_FINGER_OFF (`ChangesFollowTable`).
- A delta above 255 is written to its register modulo 256 (`FdtDeltaFits`, `AcceptedDeltaCanOverflow`).
- A frame whose first record is shorter than its header is not reassembled (`FrameRoundTrip`).

## Model

| member | source | states |
|---|---|---|
| ImageDeviceSpec.CompletionExactlyOnce | libfprint/libfprint/fpi-image-device.c:172-234 | over every run in which no scan callback derails an enrolment, up to a failing assertion: a capture-like action is completed at most once, and is completed exactly when it is neither activating, nor active, nor scanning |
| ImageDeviceSpec.DeliveredError | libfprint/libfprint/fpi-image-device.c:172-234 | over every run in which no scan callback derails an enrolment, up to a failing assertion: the error delivered is the first non-retry error of the action, else its last retry error; without any error it is the cancellation, if there was one by then |
| ImageDeviceSpec.SuccessHasResult | libfprint/libfprint/fpi-image-device.c:236-386 | over every run in which no scan callback derails an enrolment, up to a failing assertion: a success of verify or identify has reported its result, one of capture has an image, one of enrol has all its stages |
| ImageDeviceSpec.SingleScanInFlight | libfprint/libfprint/fpi-image-device.c:497-532 | over every run in which no scan callback derails an enrolment, up to a failing assertion: no scan is pending in ACTIVATING, AWAIT_FINGER_ON and CAPTURE, and the action does not change under a pending scan |
| ImageDeviceSpec.AssertionsThatCanFail | libfprint/libfprint/fp-image-device.c:96-138 | after every run in which no scan callback derails an enrolment, the next event meets a failing assertion if and only if it starts a capture-like action that is not refused while a finger is recorded as present, or reports a finger outside INACTIVE during open or close; the other assertions and the unreachable branch of the scan callback never fail |
| ImageDeviceSpec.GuaranteeWithoutFailure | libfprint/libfprint/fp-image-device.c:131-133 | over every such run in which no activation fails, no assertion fails: what the comment at the start says holds as long as every activation succeeds |
| ImageDeviceSpec.FingerAfterFailedActivation | libfprint/libfprint/fp-image-device.c:131-133 | a concrete run: a finger reported after a failed activation fails the assertion of the next start |
| ImageDeviceSpec.StepKeepsInv | libfprint/libfprint/fpi-image-device.c:50-768 | every event but a derailing scan callback keeps the joint invariant of activities, completion, errors and results, or fails an assertion, and the latter exactly under the two guards |
| ImageDeviceSpec.LastActivityEnded | libfprint/libfprint/fpi-image-device.c:173-234 | when the last of the two activities has ended, completing the action establishes the whole invariant, whichever ended last |
| ImageDeviceSpec.DeactivateCommutes | libfprint/libfprint/fpi-image-device.c:63-83 | asking for a deactivation before or after the completion test makes no difference |
| ImageDeviceSpec.ChosenStep | libfprint/libfprint/fpi-image-device.c:187-211 | the rule that keeps or replaces the action error maintains "first non-retry error, else last retry error" over the history of errors |
| ImageDeviceSpec.ScanCallbackCanEnd | libfprint/libfprint/fpi-image-device.c:309-318 | a scan callback leaves the action able to end if and only if it does not find an enrolment whose device is already deactivating or inactive without a fatal error of its own |
| ImageDeviceSpec.EnrolmentCanHang | libfprint/libfprint/fpi-image-device.c:309-318 | a concrete possible run in which an enrolment loses its device during a scan, every activity ends, and nothing is ever completed |
| ImageDevice.FpImageDevice.Activate | libfprint/libfprint/fpi-image-device.c:50-61 | the whole new state: ACTIVATING, an activation owed; equal to the step of the transition system the run theorems are about |
| ImageDevice.FpImageDevice.Deactivate | libfprint/libfprint/fpi-image-device.c:63-83 | the whole new state: DEACTIVATING and a deactivation owed, or nothing if inactive or already on the way; equal to the step of the transition system the run theorems are about |
| ImageDevice.FpImageDevice.EnrollMaybeAwaitFingerOn | libfprint/libfprint/fpi-image-device.c:159-170 | idle while a scan is pending or a finger is present, else awaiting the finger; equal to the step of the transition system the run theorems are about |
| ImageDevice.FpImageDevice.MaybeComplete | libfprint/libfprint/fpi-image-device.c:172-234 | the whole new state: the error is noted, and the action completed only if nothing is pending; equal to the step of the transition system the run theorems are about |
| ImageDevice.FpImageDevice.MinutiaeDetected | libfprint/libfprint/fpi-image-device.c:236-386 | the whole new state for every scan outcome and action; equal to the step of the transition system the run theorems are about |
| ImageDevice.FpImageDevice.ReportFingerStatus | libfprint/libfprint/fpi-image-device.c:421-480 | the whole new state for both finger reports in every state and action; equal to the step of the transition system the run theorems are about; what it leads to is `ImageDeviceProgress.OneImageDelivers` |
| ImageDevice.FpImageDevice.ImageCaptured | libfprint/libfprint/fpi-image-device.c:496-532 | a scan is started and the finger awaited off, only in CAPTURE; equal to the step of the transition system the run theorems are about |
| ImageDevice.FpImageDevice.RetryScan | libfprint/libfprint/fpi-image-device.c:543-589 | the whole new state for enrol, capture, verify and identify; equal to the step of the transition system the run theorems are about |
| ImageDevice.FpImageDevice.SessionError | libfprint/libfprint/fpi-image-device.c:601-648 | the whole new state whether active, activating or idle; equal to the step of the transition system the run theorems are about |
| ImageDevice.FpImageDevice.ActivateComplete | libfprint/libfprint/fpi-image-device.c:657-687 | the whole new state; a failed activation completes the action; equal to the step of the transition system the run theorems are about |
| ImageDevice.FpImageDevice.DeactivateComplete | libfprint/libfprint/fpi-image-device.c:696-714 | inactive again, then the completion test; equal to the step of the transition system the run theorems are about |
| ImageDevice.FpImageDevice.OpenComplete | libfprint/libfprint/fpi-image-device.c:723-742 | inactive again, and an open completed; any other action is refused; equal to the step of the transition system the run theorems are about |
| ImageDevice.FpImageDevice.CloseComplete | libfprint/libfprint/fpi-image-device.c:751-768 | inactive again, and a close completed; any other action is refused; equal to the step of the transition system the run theorems are about |
| ImageDevice.FpImageDevice.ChangeState | libfprint/libfprint/fpi-image-device.c:88-157 | the state is replaced and nothing else of the modelled state changes |
| ImageDevice.FpImageDevice.Handle | libfprint/libfprint/fpi-image-device.c:50-768 | any event on the object performs the step of the transition system and keeps its invariant, or fails an assertion exactly under the two guards |
| ImageDevice.FpImageDevice.StartCaptureAction | libfprint/libfprint/fp-image-device.c:96-138 | refuses a capture that does not wait for a finger, fails its assertions, or activates; the step of the transition system |
| ImageDevice.FpImageDevice.CancelAction | libfprint/libfprint/fp-image-device.c:79-94 | a cancelled capture-like action asks for deactivation; the step of the transition system |
| ImageDeviceProgress.ActionCanBeCompleted | libfprint/libfprint/fpi-image-device.c:50-768 | after every run on track an uncompleted action, unless it is a stalled enrolment, has an explicit continuation of driver answers (activation, finger on, image, finger off, scan, deactivation, as the state needs), at most 8 of them and 10 more per stage of an enrolment, after which it is completed exactly once |
| ImageDeviceProgress.AnswersSufficeUnlessStalled | libfprint/libfprint/fpi-image-device.c:50-768 | some sequence of answers completes an action if and only if it is not an enrolment that sits in IDLE with no scan under way |
| ImageDeviceProgress.EnrolmentCanStall | libfprint/libfprint/fpi-image-device.c:462-479 | a concrete continuation after which it does: the finger comes back before the scan is over and is lifted after it |
| ImageDeviceProgress.StalledStays | libfprint/libfprint/fpi-image-device.c:50-768 | no sequence of answers leads out of that state |
| ImageDeviceProgress.OneImageDelivers | libfprint/libfprint/fpi-image-device.c:422-532 | from every idle state a run reaches without a finger on record: activation, finger, image, finger off, scan and deactivation, the last three in each of the three orders, complete a verify, identify or capture once, without an error, with the match reported or the image handed over, and leave the device inactive |
| ImageDeviceProgress.EnrolmentDelivers | libfprint/libfprint/fpi-image-device.c:159-386 | the same for an enrolment: as many images as it has stages, the finger lifted before or after each scan, complete it once with all its stages |
| ImageDeviceProgress.StagesEnrol | libfprint/libfprint/fpi-image-device.c:159-386 | from any stage on, the remaining stages |
| ImageDeviceProgress.RetryRepeatsStage | libfprint/libfprint/fpi-image-device.c:544-586 | a retry in an enrolment, followed by the lifted finger, awaits the finger for the same stage |
| ImageDeviceProgress.RetryEnds | libfprint/libfprint/fpi-image-device.c:544-586 | a retry ends a verify or identify with the retry reported, and a capture with the retry as its error |
| ImageDeviceProgress.SessionErrorEnds | libfprint/libfprint/fpi-image-device.c:602-645 | a session error, or the general one in its place, ends any capture-like action with exactly that error |
| ImageDeviceProgress.CancellationEnds | libfprint/libfprint/fp-image-device.c:79-94 | a cancellation deactivates the device, and the action ends with it |
| ImageDeviceProgress.DeliveredErrorWasRaised | libfprint/libfprint/fpi-image-device.c:172-234 | the errors among which the delivered one is chosen are exactly those the events of the action raised, in order |
| ImageDeviceProgress.ChangesFollowTable | libfprint/libfprint/fpi-image-device.c:88-157 | every event moves the state along the valid transitions of the source, or through IDLE by two of them, if and only if it is neither a retry of an enrolment that is not capturing nor a scan that ends in AWAIT_FINGER_OFF with the finger gone |
| DeviceRuntimeSpec.VfuncCalls | libfprint/libfprint/fpi-device.c:819-909 | over every run: cancel, suspend and resume vfuncs are never called inside a critical section, cancel at most once per task, only while that task runs, and never for a cancellation whose source was armed during an earlier task |
| DeviceRuntimeSpec.QueuedRequestsAreServed | libfprint/libfprint/fpi-device.c:834-875 | over every run: a queued request has an open section or an armed flush behind it, suspend and resume are never both queued, and a queued cancellation belongs to the current task |
| DeviceRuntimeSpec.PowerTaskIsAnswered | libfprint/libfprint/fpi-device.c:1586-1687 | over every run: a pending suspend or resume is due to be answered by exactly one of the queue, the driver, or the end of the current task |
| DeviceRuntimeSpec.FlushDrains | libfprint/libfprint/fpi-device.c:834-875 | an armed flush serves everything queued in one dispatch each and then disarms itself |
| DeviceRuntimeSpec.FlushKeepsInv | libfprint/libfprint/fpi-device.c:834-875 | one dispatch of the flush serves exactly one request, or ends the flush, and keeps the invariant |
| DeviceRuntimeSpec.StepKeepsInv | libfprint/libfprint/fpi-device.c:819-1860 | every step keeps the invariant, and an assertion fails in a step if and only if it resumes a suspended device during a short task |
| DeviceRuntimeSpec.ResumeAssertionHolds | libfprint/libfprint/fpi-device.c:1647-1687 | the branch of resume that "cannot happen" is never reached in runs that answer no suspend during a later short task and do not clear the storage while suspended |
| DeviceRuntimeSpec.ClearStorageWhileSuspended | libfprint/libfprint/fp-device.c:1803-1850 | on an idle suspended device that is not removed, starting an action and resuming fails the assertion if and only if the action is clearing the storage, the one start that does not test for suspension |
| DeviceRuntimeSpec.SuspendAnsweredLate | libfprint/libfprint/fpi-device.c:1793-1827 | on a device that is not removed, if a suspend is answered only after the next task has started, the next resume fails the assertion if and only if that task is a short one |
| DeviceRuntime.FpDevice.CancelCancellable | libfprint/libfprint/fp-device.c:111-124 | the cancellable is cancelled once and arms the idle source; the whole new state is the step of the transition system |
| DeviceRuntime.FpDevice.CancelInIdleCallback | libfprint/libfprint/fp-device.c:84-106 | cancel is called, or queued inside a critical section; the whole new state is the step of the transition system; that it gets there is `DeviceRuntimeProgress.CancellationArrives` |
| DeviceRuntime.FpDevice.CriticalEnter | libfprint/libfprint/fpi-device.c:819-832 | the section deepens and an armed flush is dropped; the whole new state is the step of the transition system |
| DeviceRuntime.FpDevice.CriticalLeave | libfprint/libfprint/fpi-device.c:882-909 | the last leave arms the flush; the whole new state is the step of the transition system |
| DeviceRuntime.FpDevice.FlushIdleCallback | libfprint/libfprint/fpi-device.c:834-875 | serves cancel, then suspend, then resume, one per dispatch, and stays armed exactly while something was queued; the whole new state is the step of the transition system |
| DeviceRuntime.FpDevice.DeviceSuspend | libfprint/libfprint/fpi-device.c:1598-1645 | answers at once, waits for a short task, queues, or calls the driver; the whole new state is the step of the transition system |
| DeviceRuntime.FpDevice.DeviceResume | libfprint/libfprint/fpi-device.c:1647-1687 | answers at once, queues, calls the driver, or fails its assertion; the whole new state is the step of the transition system |
| DeviceRuntime.FpDevice.SuspendComplete | libfprint/libfprint/fpi-device.c:1793-1827 | an unsuccessful suspend cancels the task and waits for it; anything else is answered; the whole new state is the step of the transition system |
| DeviceRuntime.FpDevice.ResumeComplete | libfprint/libfprint/fpi-device.c:1836-1858 | no longer suspended, the request answered; the whole new state is the step of the transition system |
| DeviceRuntime.FpDevice.CompleteSuspendResumeTask | libfprint/libfprint/fpi-device.c:1586-1596 | the pending request is answered; there has to be one; the whole new state is the step of the transition system |
| DeviceRuntime.FpDevice.Suspend | libfprint/libfprint/fp-device.c:1005-1033 | refused while a request is pending, when suspended already, or when removed; the whole new state is the step of the transition system |
| DeviceRuntime.FpDevice.Resume | libfprint/libfprint/fp-device.c:1070-1098 | refused while a request is pending, when not suspended, or when removed; the whole new state is the step of the transition system |
| DeviceRuntime.FpDevice.StartTask | libfprint/libfprint/fp-device.c:1160-1230 | starts only when no task runs, the device is not suspended (but for clearing the storage), and the other guards admit it; an armed cancel source stays armed; the whole new state is the step of the transition system |
| DeviceRuntime.FpDevice.Handle | libfprint/libfprint/fpi-device.c:819-1860 | any event on the object keeps the invariant, and its assertion fails exactly when a short task meets a resume; the whole new state is the step of the transition system |
| DeviceRuntime.FpDevice.ReturnTaskInIdle | libfprint/libfprint/fpi-device.c:948-1041 | the task is over and whoever waited for it is answered; the whole new state is the step of the transition system |
| DeviceRuntimeProgress.CancellationArrives | libfprint/libfprint/fp-device.c:84-124 | over every run: a cancellation of the running task has armed the idle source, or is queued behind a section, or a cancel call with the id of that task was made |
| DeviceRuntimeProgress.PowerCallsAreAnswered | libfprint/libfprint/fpi-device.c:1599-1860 | over every run: the suspend vfunc was called once per answer of the driver and once more while an answer is owed, and so was resume |
| DeviceRuntimeProgress.RequestsTakeEffect | libfprint/libfprint/fpi-device.c:1599-1860 | a request that is accepted leaves the device suspended, or resumed, once it is answered, except where the suspend waited for a short task |
| DeviceRuntimeProgress.QueueReachesDriver | libfprint/libfprint/fpi-device.c:834-875 | over every run: draining an armed flush appends to the calls exactly one vfunc call per queued request, cancel before suspend before resume |
| DeviceRuntimeProgress.FlushServes | libfprint/libfprint/fpi-device.c:834-875 | the same from any state that keeps the invariant |
| DeviceRuntimeProgress.SectionsNest | libfprint/libfprint/fpi-device.c:819-909 | as many leaves as enters change nothing but that the outermost leave arms the flush |
| DeviceRuntimeProgress.PowerRequestCanBeAnswered | libfprint/libfprint/fpi-device.c:1599-1860 | over every run: leaving the open sections, the dispatches of the main loop and the answers of the driver or the end of its task answer a pending suspend or resume |
| Temperature.RatioStaysInRange | libfprint/libfprint/fpi-device.c:2169-2276 | for every decay function with the laws of the exponential, an update keeps the ratio in [0, 1) |
| Temperature.RatioSplits | libfprint/libfprint/fpi-device.c:2169-2276 | two updates with the same activity amount to one over the sum of the intervals |
| Temperature.UpdatesCompose | libfprint/libfprint/fpi-device.c:2169-2276 | however an interval of unchanged activity is cut into updates, the ratio is that of a single update |
| Temperature.ColdToHotInOneTimeConstant | libfprint/libfprint/fp-device-private.h:22-31 | with the constant the comment gives as a formula, one time constant of activity leads from the top of COLD exactly to the HOT threshold |
| Temperature.ColdThresholdLiteral | libfprint/libfprint/fp-device-private.h:29-30 | the literal in the source is within 10^-16 of that formula, and one time constant of activity leads from it to within 10^-16 of the HOT threshold, where decay(1) is 1/e to 17 digits |
| Temperature.TimerCrossesThreshold | libfprint/libfprint/fpi-device.c:2222-2270 | every armed timer runs at least 0.1 s, and when it expires the ratio has crossed the threshold it was armed for |
| Temperature.UpdateKeepsInv | libfprint/libfprint/fpi-device.c:2169-2276 | an update keeps the ratio, temperature and timer consistent: HOT is entered only at or above the upper threshold and left only below one half |
| Temperature.ModelOverRuns | libfprint/libfprint/fpi-device.c:2153-2276 | over every run of interactive starts, returns of tasks of any kind, and timers: the invariant, the hysteresis, and no interactive action starting while HOT |
| Temperature.ExpiryChangesBand | libfprint/libfprint/fpi-device.c:2222-2276 | over every run: an expiring timer finds the ratio in a hotter band if active, in a colder one at rest, so it is never armed in vain |
| Temperature.TemperatureModel.UpdateTemp | libfprint/libfprint/fpi-device.c:2169-2276 | advances the ratio, reclassifies and re-arms the timer; the whole new state is the step of the model |
| Temperature.TemperatureModel.UpdateTempTimeout | libfprint/libfprint/fpi-device.c:2153-2161 | repeats the last activity; the whole new state is the step of the model |
| Temperature.TemperatureModel.Finish | libfprint/libfprint/fpi-device.c:970-970 | the update when a task of any kind returns; the whole new state is the step of the model |
| Temperature.TemperatureModel.Handle | libfprint/libfprint/fpi-device.c:2153-2276 | any event on the object performs the step of the model, leaves the timer as it has to be, and respects the hysteresis |
| Temperature.TemperatureModel.Start | libfprint/libfprint/fp-device.c:1214-1230 | an interactive action is refused while HOT and otherwise marks the device active |
| Temperature.DistanceDecays | libfprint/libfprint/fpi-device.c:2191-2200 | the distance of the ratio from 1 while active, from 0 at rest, is multiplied by the decay over the elapsed time in units of the time constant |
| Temperature.EventsAccountForTime | libfprint/libfprint/fpi-device.c:2169-2276 | every event accounts for exactly the time since the last one, with the activity of that time; a start succeeds exactly if the device is then not HOT, and only then is it active |
| Temperature.TimersCompose | libfprint/libfprint/fpi-device.c:2153-2276 | over every run of timers the ratio is that of one update over the whole time since the last action |
| Temperature.NearestBoundary | libfprint/libfprint/fpi-device.c:2206-2228 | no timer is armed exactly if no boundary lies ahead of the ratio; otherwise it is for the nearest |
| Temperature.ClassStaysUntilTimer | libfprint/libfprint/fpi-device.c:2205-2228 | on the way to the threshold, or for good if there is none, the class does not change |
| Temperature.ClassChangesAtTimer | libfprint/libfprint/fpi-device.c:2205-2228 | past the threshold the class has changed, unless and only unless the ratio started between the two upper thresholds with the class it is heading for |
| Temperature.TimerIsTight | libfprint/libfprint/fpi-device.c:2261-2276 | the timer is set for the moment the ratio meets the threshold, a tenth of a second later, truncated to milliseconds |
| SsmSpec.NestReportsFirstError | libfprint/libfprint/fpi-ssm.c:283-319 | over every run of arbitrarily nested machines, with or without jumps: the callback of the root runs once, when the nest is empty, with the first error any machine reported, or none |
| SsmSpec.CleanupAlwaysRuns | libfprint/libfprint/fpi-ssm.c:330-466 | over every jump-free run: each finished machine handled strictly increasing states, every cleanup state among them exactly once, within its number of states |
| SsmSpec.MarkCompletedErrors | libfprint/libfprint/fpi-ssm.c:330-370 | completing the innermost machine hands its error to the parent, or to the callback, without losing or replacing the first one |
| SsmSpec.MarkFailedErrors | libfprint/libfprint/fpi-ssm.c:416-441 | a failure is kept only if no earlier one is, and goes to cleanup or to completion |
| SsmSpec.NextStateErrors | libfprint/libfprint/fpi-ssm.c:451-466 | advancing, with completion past the last state, keeps the first error |
| SsmSpec.StepErrors | libfprint/libfprint/fpi-ssm.c:248-559 | every call and every timeout keeps the first error |
| SsmSpec.MarkCompletedStates | libfprint/libfprint/fpi-ssm.c:330-370 | a machine that completes first runs the cleanup states it has not reached |
| SsmSpec.MarkFailedStates | libfprint/libfprint/fpi-ssm.c:416-441 | a failing machine jumps forward to its cleanup states, or completes from within them |
| SsmSpec.StepStates | libfprint/libfprint/fpi-ssm.c:270-466 | every jump-free step keeps the order of handled states in all machines of the nest |
| Ssm.FpiSsm.StartRoot | libfprint/libfprint/fpi-ssm.c:270-281 | a machine without a parent starts a nest of its own, in state 0 with its handler called; the linked machines are left as the nest of the specification |
| Ssm.FpiSsm.StartSubsm | libfprint/libfprint/fpi-ssm.c:306-319 | the child becomes the innermost machine of the nest; the linked machines are left as the nest of the specification |
| Ssm.FpiSsm.MarkCompleted | libfprint/libfprint/fpi-ssm.c:330-370 | cleanup first, then free the machine and run its callback; the linked machines are left as the nest of the specification |
| Ssm.FpiSsm.MarkFailed | libfprint/libfprint/fpi-ssm.c:416-441 | first error kept, then cleanup or completion; the linked machines are left as the nest of the specification |
| Ssm.FpiSsm.NextState | libfprint/libfprint/fpi-ssm.c:451-466 | advance or complete; the linked machines are left as the nest of the specification; which states that handles is `SsmProgress.AdvancingHandlesEveryState` |
| Ssm.FpiSsm.JumpToState | libfprint/libfprint/fpi-ssm.c:527-543 | jump, or complete from the state past the last; the linked machines are left as the nest of the specification |
| Ssm.FpiSsm.Delay | libfprint/libfprint/fpi-ssm.c:391-407 | a delayed call replaces what the timer would do; the linked machines are left as the nest of the specification |
| Ssm.FpiSsm.CancelDelayedStateChange | libfprint/libfprint/fpi-ssm.c:468-479 | the timer is dropped; the linked machines are left as the nest of the specification |
| Ssm.FpiSsm.OnTimeout | libfprint/libfprint/fpi-ssm.c:372-380 | the delayed call is made; the linked machines are left as the nest of the specification |
| Ssm.FpiSsm.Fail | libfprint/libfprint/fpi-ssm.c:416-441 | a failure reported from outside, the first one kept on record; the linked machines are left as the nest of the specification |
| Ssm.FpiSsm.Handle | libfprint/libfprint/fpi-ssm.c:270-559 | any event on the innermost machine, with the first error of the nest kept; the linked machines are left as the nest of the specification |
| Ssm.FpiSsm.Start | libfprint/libfprint/fpi-ssm.c:270-281 | a fresh machine in state 0 with its handler called; its parent is unchanged |
| SsmProgress.NextHandlesInOrder | libfprint/libfprint/fpi-ssm.c:249-281 | k calls of next_state on a fresh machine, k less than its states, leave the handlers of 0, .., k called, no callback and no error |
| SsmProgress.NextCompletes | libfprint/libfprint/fpi-ssm.c:452-466 | the last one ends it with every state handled once and in order, and no error |
| SsmProgress.AdvancingHandlesEveryState | libfprint/libfprint/fpi-ssm.c:331-466 | in any nest k calls of next_state, or of mark_completed within cleanup, handle the next k states of the innermost machine and change nothing else |
| SsmProgress.AdvancingEnds | libfprint/libfprint/fpi-ssm.c:331-466 | to the end of a root machine: all its remaining states are handled, and its callback gets the error it has |
| SsmProgress.CompletingCleansUp | libfprint/libfprint/fpi-ssm.c:331-365 | a machine completed before its cleanup handles the cleanup states from the first to the last, then ends with the error it has |
| SsmProgress.FailingCleansUp | libfprint/libfprint/fpi-ssm.c:417-440 | a failure leads to the cleanup states, all of them handled, and is the error of the callback |
| SsmProgress.FailingInCleanupGoesOn | libfprint/libfprint/fpi-ssm.c:417-440 | a failure during cleanup handles the remaining states and replaces no earlier error |
| SsmProgress.JumpHandlesFrom | libfprint/libfprint/fpi-ssm.c:528-548 | a jump handles the state it names, and next_state goes on from there |
| SsmProgress.DelayOnlyDelays | libfprint/libfprint/fpi-ssm.c:199-230 | a delayed call is the call itself when the timer is up, and nothing at all when it is cancelled |
| SsmProgress.SubmachineIsOneCall | libfprint/libfprint/fpi-ssm.c:284-319 | a submachine, and whatever it starts in turn, over every run of it: to its parent it is one call of next_state if no failure was reported, of mark_failed with the first one otherwise; until then the parent does not change |
| SsmProgress.ParentGoesOn | libfprint/libfprint/fpi-ssm.c:284-293 | a child that ends without an error leaves its parent in the state after the one that started it, with its handler called |
| SsmProgress.NoStateIsSkipped | libfprint/libfprint/fpi-ssm.c:331-466 | over every run without jumps and explicit completions: a machine without an error has handled every state up to its own once and in order, and all of them if it ended |
| Raster.AtIsFlatIndex | libfprint/libfprint/fpi-assembling.c:242-242 | the index of a pixel is its column plus its row times the width, as the source computes it |
| Raster.AtInjective | libfprint/libfprint/fpi-assembling.c:242-242 | different pixels of an image have different indices |
| FrameAssembly.BlitStripe | libfprint/libfprint/fpi-assembling.c:207-243 | every write is in bounds; exactly the pixels the stripe covers after clipping become the stripe's |
| FrameAssembly.AssembleFrames | libfprint/libfprint/fpi-assembling.c:256-313 | each pixel is that of the last stripe covering it at its prefix-sum position, or 0; height and width of the image; nothing for no stripes |
| FrameAssembly.PixelIsLastStripe | libfprint/libfprint/fpi-assembling.c:299-309 | drawing stripe after stripe shows at each pixel the last stripe that covers it |
| FrameAssembly.StripesInsideHeight | libfprint/libfprint/fpi-assembling.c:268-296 | when all vertical movements share a sign every stripe lies fully inside the height |
| FrameAssembly.FirstStripeCentred | libfprint/libfprint/fpi-assembling.c:299-300 | the margins left and right of the first stripe differ by at most one and add up to the rest |
| FrameAssembly.StripePositions | libfprint/libfprint/fpi-assembling.c:268-309 | the first stripe is centred, and at the top or, for a negative total, at the bottom; each next one is its own movement away from the one before |
| FrameAssembly.HeightSpansSwipe | libfprint/libfprint/fpi-assembling.c:268-296 | the height is that of a frame and the vertical way from the first stripe to the last |
| Overlap.CalcError | libfprint/libfprint/fpi-assembling.c:42-93 | the error for every movement, INT_MAX for an empty overlap, with no unsigned step wrapping |
| Overlap.ErrorInRange | libfprint/libfprint/fpi-assembling.c:42-93 | no intermediate value reaches 2^32 and the error is at most 255 times the frame area |
| Overlap.ErrorIsScaledDifference | libfprint/libfprint/fpi-assembling.c:88-92 | the error is the sum of absolute differences, times the frame area, divided by the overlap area |
| Overlap.FindOverlap | libfprint/libfprint/fpi-assembling.c:98-130 | the first minimiser in scan order among the candidates below the start value, and the inputs unchanged when there is none |
| Overlap.FirstBestUnique | libfprint/libfprint/fpi-assembling.c:98-130 | there is at most one such minimiser |
| Overlap.DoMovementEstimation | libfprint/libfprint/fpi-assembling.c:132-180 | one pass over the swipe sets each stripe to the minimiser against its predecessor and averages the errors |
| Overlap.EstimateMovement | libfprint/libfprint/fpi-assembling.c:194-205 | forward, reverse, and forward again if its average error was smaller |
| Overlap.MovementSettles | libfprint/libfprint/fpi-assembling.c:194-205 | for every swipe: the direction with the smaller average error wins, reverse on a tie, and each stripe is left with the movement found in that direction, else the one found in the other as seen in this one, else the one it came with, turned around |
| Overlap.BetterDirectionWins | libfprint/libfprint/fpi-assembling.c:194-205 | for swipes whose neighbours all have a candidate below the start value in both directions: the three passes leave exactly what a single pass in the winning direction gives |
| Overlap.DifferenceIsPixelSum | libfprint/libfprint/fpi-assembling.c:42-93 | the difference is the sum, over all pixels of the sensor, of the distance of (c, r) from (c - dx, r + dy) wherever both lie on the sensor |
| MedianFilter.Filter | libfprint/libfprint/fpi-assembling.c:329-351 | in place: every element becomes the element of middle rank of its clipped window of original values |
| MedianFilter.SortedElementHasRank | libfprint/libfprint/fpi-assembling.c:342-345 | the element picked from the sorted copy has the rank of its index |
| MedianFilter.RankUnique | libfprint/libfprint/fpi-assembling.c:345-345 | the rank determines the value, so the result does not depend on the sort |
| MedianFilter.MedianInBounds | libfprint/libfprint/fpi-assembling.c:329-351 | bounds of a window are bounds of its median |
| MedianFilter.WindowIsNeighbourhood | libfprint/libfprint/fpi-assembling.c:329-342 | the window holds, in order, the entries at most half a filter size away, and no others |
| LineAssembly.SearchOffsets | libfprint/libfprint/fpi-assembling.c:408-428 | for each pair of lines the first least difference within the search range |
| LineAssembly.FilteredOffsetsInRange | libfprint/libfprint/fpi-assembling.c:408-431 | the filtered offsets the output uses lie in [1, max_search_offset] |
| LineAssembly.UniqueRow | libfprint/libfprint/fpi-assembling.c:433-466 | every output row below the end lies between exactly one pair of lines |
| LineAssembly.InterpolateLines | libfprint/libfprint/fpi-assembling.c:353-375 | one output row in place, each pixel the weighted mean; nothing else changes and no product overflows |
| LineAssembly.Interpolated | libfprint/libfprint/fpi-assembling.c:353-375 | an interpolated pixel lies between its two source pixels |
| LineAssembly.InterpolatedIsMean | libfprint/libfprint/fpi-assembling.c:363-371 | it is the mean weighted by the distances, in the operators of the source |
| LineAssembly.EmitRows | libfprint/libfprint/fpi-assembling.c:440-466 | all rows between two lines, stopping at the height |
| LineAssembly.AssembleLines | libfprint/libfprint/fpi-assembling.c:391-482 | the image has min(max_height, ceil(end)) rows, each interpolated between the two lines around it at its 16.16 position; nothing for fewer than two lines; positions and pixels in the operators of the source are `LineMeaning.PositionsAdvance` and `LineMeaning.PixelMeans` |
| LineMeaning.PositionsAdvance | libfprint/libfprint/fpi-assembling.c:451-472 | in the operators of the source: the first line lies at 0, and each next one (resolution * 0x10000) / offset further where its offset is positive |
| LineMeaning.PixelMeans | libfprint/libfprint/fpi-assembling.c:451-472 | for the positions the source adds up, a pixel of row k is the mean of the two pixels on the lines around k * 0x10000, weighted by their distances |
| LineMeaning.HeightMeans | libfprint/libfprint/fpi-assembling.c:451-476 | a row is in the image, as far as the height allows, exactly if it starts before the last position |
| LineMeaning.OffsetMeans | libfprint/libfprint/fpi-assembling.c:416-438 | of the lines within reach after a line, its offset names the first that deviates least |
| ByteScan.ScanForStartCode | libfprint/libfprint/fpi-byte-reader.c:824-844 | the skipping scan returns the first start code prefix, or -1 |
| ByteScan.ScanWithRegister | libfprint/libfprint/fpi-byte-reader.c:872-896 | the shift-register loop returns the first big-endian window matching under the mask, and its value |
| ByteScan.StartCodeScanRefines | libfprint/libfprint/fpi-byte-reader.c:847-872 | for the start code mask and pattern of Annex B of ITU-T H.264 both scans mean the same first match |
| ByteScan.FirstMatchUnique | libfprint/libfprint/fpi-byte-reader.c:847-897 | the first match is unique |
| ByteScan.MaskedScan | libfprint/libfprint/fpi-byte-reader.c:846-897 | both branches: the offset and value of the first match |
| ByteCodec.Joins24 | libfprint/libfprint/fpi-byte-utils.h:117-136 | 24 bits come back exactly if they held the value, unsigned or, after sign extension, signed |
| ByteCodec.IntegerRoundTrip | libfprint/libfprint/fpi-byte-reader.h:292-342 | every typed get undoes the typed put of the same width and endianness if and only if the width can hold the value |
| ByteCodec.ScanFindsTerminator | libfprint/libfprint/fpi-byte-reader.c:981-1005 | scanning a terminated string finds exactly its terminator |
| ByteCodec.StringRoundTrip | libfprint/libfprint/fpi-byte-reader.c:981-1187 | a NUL-terminated string of 1, 2 or 4 byte units is read back, whatever follows |
| ByteCodec.RoundTrip | libfprint/libfprint/fpi-byte-reader.h:404-431 | a representable item followed by anything is read back and just its bytes are consumed |
| ByteCodec.SequenceRoundTrip | libfprint/libfprint/fpi-byte-reader.h:404-431 | any sequence of representable items is returned by the matching gets |
| ByteCodec.ByteOrder | libfprint/libfprint/fpi-byte-utils.h:190-313 | for each width, a value with distinct bytes in both byte orders |
| ByteStream.NextPow2 | libfprint/libfprint/fpi-byte-writer.h:221-232 | terminates for every 32-bit n with a result of at least n: the least allocation size, or n itself when the doubling overflows |
| ByteStream.ByteWriter.EnsureFreeSpace | libfprint/libfprint/fpi-byte-writer.h:234-254 | succeeds exactly when there is room or the writer may grow; contents kept |
| ByteStream.ByteWriter.Put | libfprint/libfprint/fpi-byte-writer.h:256-302 | all or nothing: the item's bytes overwrite at the position, which advances |
| ByteStream.ByteWriter.Fill | libfprint/libfprint/fpi-byte-writer.h:318-333 | all or nothing: copies of one byte |
| ByteStream.ByteWriter.PutAll | libfprint/libfprint/fpi-byte-writer.h:256-302 | any sequence of puts appends its encoding; on an owned growable writer it succeeds below 2^32 bytes |
| ByteStream.ByteWriter.SetPos | libfprint/libfprint/fpi-byte-reader.c:163-174 | moves within the written size only |
| ByteStream.ByteReader.Scan | libfprint/libfprint/fpi-byte-reader.c:981-1005 | the string scan loop: size with terminator, or 0 |
| ByteStream.ByteReader.Get | libfprint/libfprint/fpi-byte-reader.h:404-431 | the item at the position, consumed, or nothing moved |
| ByteStream.ByteReader.Skip | libfprint/libfprint/fpi-byte-reader.c:230-234 | moves forward exactly if enough bytes remain |
| ByteStream.ByteReader.GetSubReader | libfprint/libfprint/fpi-byte-reader.c:121-151 | a reader over the next bytes, which are consumed |
| ByteStream.WriteThenRead | libfprint/libfprint/fpi-byte-writer.h:221-348 | whatever is written to a fresh growable writer is returned by the matching gets of a reader over its contents |
| RxQueueSpec.WholeRecords | kernel/gxfp.c:477-560 | over every interleaving of interrupt, read, flush (its test and its effect apart), suspend, resume and remove: the FIFO holds exactly its count of whole records and the short-read -EIO branch is unreachable |
| RxQueueSpec.NoSilentLoss | kernel/gxfp.c:334-560 | over every interleaving: two records taken with no overflow report, fault, flush or suspend between them are consecutive interrupt records, and a reader copies exactly the record it took |
| RxQueueSpec.SleepAndPollAgree | kernel/gxfp.c:562-586 | over every interleaving: a reader would sleep exactly when poll reports nothing |
| RxQueueSpec.FlattenHead | kernel/gxfp.c:518-530 | the first record of the FIFO comes out whole and the rest is left |
| RxQueueSpec.EnqueueKeepsInv | kernel/gxfp.c:334-373 | the interrupt thread keeps the invariant whether it appends, drops everything, or was told not to queue |
| RxQueueSpec.ReadKeepsInv | kernel/gxfp.c:498-545 | a pass of the read loop keeps the invariant and is never short |
| RxQueueSpec.StepKeepsInv | kernel/gxfp.c:334-822 | every step of every thread keeps the invariant |
| RxQueueProgress.RecordIsStoredWhileRoom | kernel/gxfp.c:334-373 | over every run: an interrupt record goes to the end of the queue as long as fewer than 72 wait; otherwise all are dropped and the overflow is marked; one that was not to be queued changes nothing |
| RxQueueProgress.InterruptsAreQueued | kernel/gxfp.c:334-373 | as many interrupts as there is room for leave their records in the queue in order |
| RxQueueProgress.ReadGetsOldest | kernel/gxfp.c:498-545 | a read that finds a record copies the oldest, whole, and leaves the others |
| RxQueueProgress.ReadsTakeInOrder | kernel/gxfp.c:477-560 | successive reads take the waiting records, oldest first, with no mark between them |
| RxQueueProgress.SleeperGetsRecord | kernel/gxfp.c:334-560 | a sleeping reader is woken by the next interrupt and copies its record |
| RxQueueProgress.OverflowReportedOnce | kernel/gxfp.c:498-545 | an overflow is what the next read reports, once, and the records stored since are still there |
| RxQueueProgress.NothingIsLeft | kernel/gxfp.c:588-822 | a flush, and the end of a suspend or removal, leave no record and no overflow |
| RxQueueProgress.SuspendThenResume | kernel/gxfp.c:755-822 | a suspend and a resume leave an empty queue and everything else as it was |
| RxQueue.Gxfp.IrqThreadBegin | kernel/gxfp.c:334-350 | samples the flags; the step of the transition system |
| RxQueue.Gxfp.IrqThreadEnd | kernel/gxfp.c:351-373 | appends a record, or drops all and marks the overflow; the step of the transition system |
| RxQueue.Gxfp.ReadLocked | kernel/gxfp.c:498-545 | one pass of the read loop; the step of the transition system |
| RxQueue.Gxfp.PollLocked | kernel/gxfp.c:562-586 | the poll mask; the step of the transition system |
| RxQueue.Gxfp.FlushTest | kernel/gxfp.c:601-602 | refused exactly when removed; the step of the transition system |
| RxQueue.Gxfp.FlushLocked | kernel/gxfp.c:603-609 | empties the queue, whatever happened since the test; the step of the transition system |
| RxQueue.Gxfp.SuspendBegin | kernel/gxfp.c:773-785 | marks the device suspended; the step of the transition system |
| RxQueue.Gxfp.SuspendIrqOff | kernel/gxfp.c:787-788 | waits for the interrupt thread; the step of the transition system |
| RxQueue.Gxfp.SuspendEnd | kernel/gxfp.c:790-802 | empties the queue; the step of the transition system |
| RxQueue.Gxfp.Resume | kernel/gxfp.c:804-822 | accepts interrupts again; the step of the transition system |
| RxQueue.Gxfp.RemoveBegin | kernel/gxfp.c:741-752 | marks the device removed; the step of the transition system |
| RxQueue.Gxfp.RemoveIrqOff | kernel/gxfp.c:755-757 | waits for the interrupt thread; the step of the transition system |
| RxQueue.Gxfp.RemoveEnd | kernel/gxfp.c:759-771 | releases the queue; the step of the transition system |
| RxQueue.Gxfp.Handle | kernel/gxfp.c:334-822 | any event by any thread keeps the invariant; the step of the transition system |
| RxQueue.Lifetime.Open | kernel/gxfp.c:379-401 | needs the capability, exclusive, none after removal; one more reference |
| RxQueue.Lifetime.Release | kernel/gxfp.c:427-442 | one reference less |
| RxQueue.Lifetime.Put | kernel/gxfp.c:403-420 | freed exactly when the last reference goes |
| Framing.CheckHeadAccepts | src/proto/mp_proto.c:15-44 | a head is accepted exactly if it is a built header of a valid type and length, up to the unused half byte |
| Framing.BuiltHeadIsAccepted | src/proto/mp_proto.c:15-72 | every built frame, whatever follows, is accepted with its length and type |
| Framing.MpBuild | src/proto/mp_proto.c:46-72 | header and payload, or the error of the first failing test |
| Framing.MpWrap | src/proto/mp_proto.c:82-108 | magic, length, sum, sequence number, frame and zero padding; the sequence number advances only on success |
| Framing.WrappedLenBounds | src/proto/mp_proto.c:74-80 | a multiple of 8, less than 8 bytes of padding, within the buffer exactly up to 504 bytes |
| Framing.WrapInjective | src/proto/mp_proto.c:82-108 | a wrapped frame determines the frame and the sequence number |
| Framing.ComputeChecksum | src/proto/goodix_proto.c:8-14 | the loop computes the checksum with no 32-bit overflow |
| Framing.GoodixBuild | src/proto/goodix_proto.c:16-45 | command, length, payload and checksum, or the error |
| Framing.GoodixRoundTrip | src/proto/goodix_proto.c:16-81 | parsing undoes building, with a good checksum, whatever follows |
| Framing.OneByteCorruptionIsSeen | src/proto/goodix_proto.c:8-81 | a change of one byte outside the length field is reported by the checksum if and only if it is a change |
| Framing.SendPacket | src/io/dev.c:225-258 | the bytes handed to the device, the error of the packet or of the write, a short write included, and the sequence number, which a built packet uses up even if its write fails |
| Framing.CommandRoundTrip | src/io/dev.c:225-258 | a command fits exactly up to 496 bytes of payload, and then survives build, frame and wrap, in at most 512 bytes, followed by unwrapping by the length field, the head check and parse |
| FrameMeaning.FrameLayout | src/proto/goodix_proto.c:16-45 | a string is the frame of a command if and only if it has its first byte, its length low byte first, its payload, and all bytes add up to 0xAA modulo 256 |
| FrameMeaning.MpFrameLayout | src/proto/mp_proto.c:46-72 | the same for a message frame, whose fourth byte is the sum of the first three |
| FrameMeaning.ParseAccepts | src/proto/goodix_proto.c:47-81 | a buffer parses if and only if its length field is positive and fits; the checksum is good if and only if the frame adds up to 0xAA |
| FrameMeaning.CommandOnTheWire | src/proto/goodix_proto.c:16-45 | a concrete command, byte by byte |
| Reassembly.RxAssemble | src/io/dev.c:37-108 | terminates, stays inside the caller's buffer, and yields the assembled frame or the first error |
| Reassembly.CollectTakesPrefix | src/io/dev.c:70-92 | collecting takes exactly the first bytes of the concatenated records, however they are cut |
| Reassembly.FrameRoundTrip | src/io/dev.c:37-108 | any cut of a built frame into records is reassembled to its type and payload if and only if the first record holds the four header bytes |
| Reassembly.CollectStopsAt | src/io/dev.c:70-92 | collecting stops at the first read that fails, with its error, unless it was done before |
| Reassembly.CutShort | src/io/dev.c:37-108 | a built frame cut short by a failing read ends in the error of that read |
| OtpCheck.ComputeCrc8 | src/algo/sensor_cfg.c:124-140 | the nested loops compute the division remainder, complemented; that it is one is `OtpMeaning.CodeDividesByPoly` |
| OtpCheck.BitStepInjective | src/algo/sensor_cfg.c:134-136 | a step of the division loses nothing |
| OtpCheck.CrcSeesOneByte | src/algo/sensor_cfg.c:124-140 | strings that differ in at most one byte have the same code if and only if they are equal |
| OtpCheck.VoteIsMajority | src/algo/sensor_cfg.c:181-204 | the vote yields a value if and only if the value is nonzero and held by at least two of the three copies |
| OtpCheck.CheckOtp | src/algo/sensor_cfg.c:142-208 | accepted exactly with a good sum, code and both votes, and with the voted values |
| OtpCheck.OneFault | src/algo/sensor_cfg.c:142-208 | one changed byte of an accepted memory with agreeing copies never changes the outcome to other values: it is rejected if and only if it is the code or covered by it |
| OtpCheck.CoveredFaultRejected | src/algo/sensor_cfg.c:161-172 | a change confined to one covered byte of an accepted memory is always rejected |
| OtpCheck.ParseOtp | src/algo/sensor_cfg.c:210-242 | the parameters in exact arithmetic: none of the 16-bit truncations loses anything |
| OtpCheck.ComputeFdtDelta | src/algo/sensor_cfg.c:233-236 | two truncating divisions and a shift equal one division by 48 times tcode |
| OtpCheck.FdtDeltaFits | src/algo/sensor_cfg.c:233-237 | the delta fits the one register byte it is later written to if and only if 25 (low + 2) < 12 tcode |
| OtpCheck.AcceptedDeltaCanOverflow | src/algo/sensor_cfg.c:233-237 | a concrete accepted memory whose delta is 566 |
| OtpCheck.ParameterBounds | src/algo/sensor_cfg.c:226-240 | ranges of the three parameters |
| OtpMeaning.CodeDividesByPoly | src/algo/sensor_cfg.c:124-140 | for every string: the complement of its code is the one and only byte that completes the string times x^8 to a multiple, without carries, of x^8 + x^2 + x + 1 |
| OtpMeaning.XorAddsDigits | src/algo/sensor_cfg.c:132-136 | exclusive or adds the binary digits modulo 2 |
| OtpMeaning.CodeOfOne | src/algo/sensor_cfg.c:124-140 | the codes of the empty string and of the byte 1 |
| OtpMeaning.AcceptedMeans | src/algo/sensor_cfg.c:142-208 | byte by byte: which memories are accepted, and with which values |
| ConfigBlob.RecalcChecksum | src/algo/sensor_cfg.c:33-52 | in signed 16-bit steps: the last word is replaced, everything before it kept |
| ConfigBlob.ChecksumCloses | src/algo/sensor_cfg.c:33-52 | seed and all 0x70 words then add up to zero modulo 2^16 |
| ConfigBlob.FindIsFirst | src/algo/sensor_cfg.c:78-88 | the search finds exactly the first entry of the section that names the register |
| ConfigBlob.FindEntry | src/algo/sensor_cfg.c:78-88 | the search with its eight-bit counter terminates and equals the search without one |
| ConfigBlob.CounterNeverWraps | src/algo/sensor_cfg.c:78-79 | the counter never wraps if and only if the section is at most 252 bytes long, which the bounds test before implies |
| ConfigBlob.PatchReg | src/algo/sensor_cfg.c:54-105 | the blob after the call and the error, for all inputs |
| ConfigBlob.PatchFrame | src/algo/sensor_cfg.c:54-105 | a failed call leaves the blob alone, a successful one leaves it adding up |
| ConfigBlob.PatchWrites | src/algo/sensor_cfg.c:91-101 | a successful patch changes the chosen half or halves of one value, and no other byte before the checksum |
| ConfigBlob.PatchKeepsEntries | src/algo/sensor_cfg.c:70-105 | after a patch every register of the same or a disjoint section is found where it was |
| ConfigBlob.PatchKeepsTable | src/algo/sensor_cfg.c:70-105 | a patch leaves the section table alone |
| ConfigBlob.PatchReadsBack | src/algo/sensor_cfg.c:54-105 | the patched register reads back the value and no other register of the same or a disjoint section changes |
| ConfigBlob.ApplyOtpPatch | src/algo/sensor_cfg.c:260-301 | three patches in turn, ended by the first error |
| ConfigBlob.TemplateHasLayout | src/algo/sensor_cfg.c:107-122 | the shipped template has the sections and registers the patches look for |
| ConfigBlob.AcceptedMemoryPatchesTemplate | src/algo/sensor_cfg.c:210-301 | for every accepted memory, patching the template succeeds, the three registers read back the parameters (the delta modulo 256), no other byte before the checksum changes, and the blob adds up |
| ConfigMeaning.ChecksumIsUnique | src/algo/sensor_cfg.c:33-52 | of all blobs with the same bytes before the checksum, recomputing yields exactly the one whose bytes, those at odd offsets 256 times, and 0xa5a5 add up to 0 modulo 2^16 |
| ConfigMeaning.PatchSucceedsIf | src/algo/sensor_cfg.c:54-105 | when patching succeeds and which error it returns, for all inputs, by the bytes of the blob |
| ConfigMeaning.ApplyStopsAtError | src/algo/sensor_cfg.c:260-301 | the first patch that fails ends the call and leaves the earlier ones in place |
| ConfigMeaning.PatchedTemplate | src/algo/sensor_cfg.c:210-301 | for every accepted memory the patched template is known byte by byte |
| ConfigMeaning.ParametersMean | src/algo/sensor_cfg.c:226-240 | the three parameters by the two bytes of the memory |
| SpiTransfer.FpiSpiTransfer.NextMessage | libfprint/libfprint/fpi-spi-transfer.c:313-358 | the next ioctl continues both directions, moves something, and the wrapped unsigned skip lets no read begin before the write is done |
| SpiTransfer.FpiSpiTransfer.TransferChunk | libfprint/libfprint/fpi-spi-transfer.c:313-383 | a successful ioctl advances, a failing one leaves the position |
| SpiTransfer.FpiSpiTransfer.Run | libfprint/libfprint/fpi-spi-transfer.c:385-426 | terminates; when every ioctl succeeds the peripheral was sent exactly the write buffer and then its answers fill the read buffer, in messages that tile both buffers in order within the block size; ends with the first failing ioctl |
| SpiTransfer.ProgressStep | libfprint/libfprint/fpi-spi-transfer.c:313-358 | the message that continues a transfer keeps the log a gapless, ordered tiling and moves at least one byte |
| SpiTransfer.TilesPartition | libfprint/libfprint/fpi-spi-transfer.c:319-332 | a log of such messages sends each byte of the write buffer exactly once and in order |
| SpiTransfer.NoWriteAfterRead | libfprint/libfprint/fpi-spi-transfer.c:336-349 | once a message has read, the whole buffer is written and every later message only reads |
| SpiTransfer.UnsignedDifference | libfprint/libfprint/fpi-spi-transfer.c:334-334 | a negative size difference wraps beyond every signed length |
| SpiTransfer.NoShortPieces | libfprint/libfprint/fpi-spi-transfer.c:313-358 | a write piece below the block size ends the write, a read piece below it ends the read, and nothing is left waiting behind a short piece |

## Left out

- Logging, GObject properties and signals, reference counts of GObjects, USB, udev and sysfs.
- Minutiae detection, template matching, OpenCV, TLS: their results are arbitrary parameters.
- The loop of identify over its templates: only its outcome is a parameter of the scan callback.
- The translation of verify and identify results by the base class, and its warnings about states.
- What removal does in libfprint beyond refusing suspend and resume.
- DeviceRuntime.FpDevice.StartTask: what the guards on the open device, its features, its temperature and the arguments say is the parameter `admitted`, because they do not touch the runtime.
- ImageDevice.FpImageDevice.ChangeState: the warning about a change outside the table, the notifications and the finger status are left out, because nothing depends on them.
- The finger-needed and finger-present status flags of the base class.
- `notify::completed` handlers run as part of returning the task.
- Devices that may run continuously: their temperature is never updated.
- Image flips and resizing, timestamps, the TLS receive queue, FDT table updates, user ids.
- Floating point puts and gets: they move the same bits as the integers of their width.
- Strings of 4 GiB or more, and positions beyond 32 bits, in the byte reader and writer.
- The shift and bit operations on bytes of the sensor configuration appear as the arithmetic they amount to.
- Null pointer arguments of the GXFP functions, refused with EINVAL before anything else.
- `apply_default_patch` and `prepare_cfg_blob`: a fixed set of parameters, and a copy.
- Hardware timing, GPIO pulses, register access, ACPI, and the write path of the kernel driver.
- Failing allocations; the byte writer records its new size before it reallocates.
- The `cs_change` flag of an SPI message: its test can never be true.
- Aliasing of the write and read buffers of one SPI transfer: the write buffer is a value.
- SpiTransfer.Spidev.Ioctl: an ioctl that fails is taken to move nothing, because the kernel gives no count.
- MedianFilter.Filter: sorting is a function that sorts and permutes, because the library's sort is not shown.
- Framing.CommandRoundTrip: the unwrapping is that of the model, by the length field, because the receiver of the wrapped frames is not in the repository.
- RxQueueSpec.NoSilentLoss: reads are ordered by when they take their record under the lock, because a flush may overlap a copy to the user.
- SsmSpec.CleanupAlwaysRuns: stated for runs without jumps, because a jump may leave the cleanup states again.
