/**
 Where the runs of an image device lead: which answers end an action, what an action without
 errors delivers, which errors count, and which changes of state leave the table of the source.
 */
module ImageDeviceProgress {
  import opened Common
  import opened ImageDeviceSpec

  // ---------------------------------------------------------------- answers that end an action

  predicate Uncompleted(s: Device) {
    IsCapture(s.task.action) && s.got.completions == []
  }

  /** Idle with nothing under way: the finger was put back before the scan was over. */
  predicate Stalled(s: Device) {
    s.task.action == Enroll && s.state == Idle && !s.scanActive
  }

  /** A scan result that is good, unless the action was cancelled or the device is going away. */
  function ScanAnswer(s: Device): ScanOutcome {
    if s.task.cancelled then ScanCancelled
    else if s.task.action == Enroll && (s.state == Deactivating || s.state == Inactive)
    then Scanned(Some(ERROR_GENERAL), None)
    else Scanned(None, None)
  }

  /** What the driver or the scan says next when all goes well. */
  function Answer(s: Device): Event {
    if s.owes.activation then ActivateDone(None)
    else if s.state == Idle && s.fingerPresent then Finger(false)
    else if s.scanActive then ScanDone(ScanAnswer(s))
    else match s.state
      case AwaitFingerOn => Finger(true)
      case Capturing => Captured
      case AwaitFingerOff => Finger(false)
      case _ => DeactivateDone(None)
  }

  /** Reports of the driver about its device, and the result of a scan. */
  predicate IsAnswer(ev: Event) {
    || ev.ActivateDone? || ev.DeactivateDone? || ev.Finger? || ev.Captured? || ev.ScanDone?
  }

  /** At most `n` answers, each to the state the ones before it lead to, until the action is completed. */
  function Answers(s: Device, stages: nat, n: nat): seq<Event>
    decreases n
  {
    if n == 0 || s.got.completions != [] then []
    else [Answer(s)] + Answers(Step(s, Answer(s), stages), stages, n - 1)
  }

  /** How far an action is from its end within one stage. */
  function Phase(s: Device): nat {
    if s.owes.activation then 8
    else match s.state
      case AwaitFingerOn => 6
      case Capturing => 5
      case AwaitFingerOff => if s.scanActive then 4 else if s.task.action == Enroll then 7 else 2
      case Idle => if s.fingerPresent then 3 else 2
      case Deactivating => if s.scanActive then 2 else 1
      case _ => 1
  }

  function Distance(s: Device, stages: nat): nat {
    Phase(s) + if s.task.action == Enroll && s.stage < stages then 10 * (stages - s.stage) else 0
  }

  lemma AnswerAdvances(s: Device, stages: nat)
    requires stages > 0 && Inv(s, stages) && Uncompleted(s) && !Stalled(s)
    ensures OnTrack(s, Answer(s), stages) && !AssertionFails(s, Answer(s))
    ensures var t := Step(s, Answer(s), stages);
            && t.task.action == s.task.action
            && (t.got.completions == [] ==> !Stalled(t) && Distance(t, stages) < Distance(s, stages))
  {
  }

  lemma {:induction false} AnswersAreAnswers(s: Device, stages: nat, n: nat)
    ensures |Answers(s, stages, n)| <= n
    ensures forall i :: 0 <= i < |Answers(s, stages, n)| ==> IsAnswer(Answers(s, stages, n)[i])
    decreases n
  {
    if n > 0 && s.got.completions == [] {
      AnswersAreAnswers(Step(s, Answer(s), stages), stages, n - 1);
    }
  }

  lemma {:induction false} AnswersComplete(s: Device, stages: nat, n: nat)
    requires stages > 0 && Inv(s, stages) && IsCapture(s.task.action)
    requires s.got.completions == [] ==> !Stalled(s) && Distance(s, stages) <= n
    ensures var evs := Answers(s, stages, n); var t := Run(s, evs, stages);
            && RunOnTrack(s, evs, stages) && !t.aborted
            && t.task.action == s.task.action && |t.got.completions| == 1
    decreases n
  {
    if s.got.completions == [] {
      AnswerAdvances(s, stages);
      StepKeepsInv(s, Answer(s), stages);
      AnswersComplete(Step(s, Answer(s), stages), stages, n - 1);
    }
  }

  lemma DistanceBound(s: Device, stages: nat)
    requires Inv(s, stages) && Uncompleted(s)
    ensures Distance(s, stages) <= 8 + if s.task.action == Enroll then 10 * stages else 0
  {
  }

  /**
   After every run on track an action that is not completed, and not a stalled enrolment, can
   still be ended by answers alone: the listed ones, each possible in its turn, complete it
   exactly once, at most eight of them but for an enrolment.
   */
  lemma ActionCanBeCompleted(evs: seq<Event>, stages: nat)
    requires stages > 0 && RunOnTrack(INITIAL, evs, stages)
    ensures var s := Run(INITIAL, evs, stages); var answers := Answers(s, stages, Distance(s, stages));
            !s.aborted && Uncompleted(s) && !Stalled(s) ==>
              && RunOnTrack(s, answers, stages)
              && (forall i :: 0 <= i < |answers| ==> IsAnswer(answers[i]))
              && |answers| <= 8 + (if s.task.action == Enroll then 10 * stages else 0)
              && !Run(s, answers, stages).aborted
              && Run(s, answers, stages).task.action == s.task.action
              && |Run(s, answers, stages).got.completions| == 1
  {
    RunKeepsInv(INITIAL, evs, stages);
    var s := Run(INITIAL, evs, stages);
    if !s.aborted && Uncompleted(s) && !Stalled(s) {
      AnswersComplete(s, stages, Distance(s, stages));
      AnswersAreAnswers(s, stages, Distance(s, stages));
      DistanceBound(s, stages);
    }
  }

  // ---------------------------------------------------------------- the stalled enrolment

  predicate AllAnswers(evs: seq<Event>) {
    forall i :: 0 <= i < |evs| ==> IsAnswer(evs[i])
  }

  lemma {:induction false} StalledStays(s: Device, evs: seq<Event>, stages: nat)
    requires stages > 0 && Inv(s, stages) && Uncompleted(s) && Stalled(s)
    requires AllAnswers(evs) && RunOnTrack(s, evs, stages)
    ensures Uncompleted(Run(s, evs, stages)) && Stalled(Run(s, evs, stages))
    decreases |evs|
  {
    if evs != [] {
      assert IsAnswer(evs[0]);
      StepKeepsInv(s, evs[0], stages);
      assert forall i :: 0 <= i < |evs[1..]| ==> evs[1..][i] == evs[i + 1];
      StalledStays(Step(s, evs[0], stages), evs[1..], stages);
    }
  }

  /** Answers alone can complete an action if and only if it is not a stalled enrolment. */
  lemma AnswersSufficeUnlessStalled(s: Device, stages: nat)
    requires stages > 0 && Inv(s, stages) && Uncompleted(s)
    ensures (exists evs :: AllAnswers(evs) && RunOnTrack(s, evs, stages) && !Uncompleted(Run(s, evs, stages)))
            <==> !Stalled(s)
  {
    if Stalled(s) {
      forall evs | AllAnswers(evs) && RunOnTrack(s, evs, stages)
        ensures Uncompleted(Run(s, evs, stages))
      {
        StalledStays(s, evs, stages);
      }
    } else {
      var evs := Answers(s, stages, Distance(s, stages));
      AnswersComplete(s, stages, Distance(s, stages));
      AnswersAreAnswers(s, stages, Distance(s, stages));
      assert AllAnswers(evs) && !Uncompleted(Run(s, evs, stages));
    }
  }

  // ---------------------------------------------------------------- what an action without errors delivers

  /** The state right after the start of an action, whatever went before. */
  function Started(a: Action): Device {
    INITIAL.(state := Activating, owes := Owes(true, false), task := Task(a, false, false, false))
  }

  function Awaiting(a: Action, stage: int): Device {
    INITIAL.(state := AwaitFingerOn, active := true, stage := stage, task := Task(a, false, false, false))
  }

  lemma StartsClean(s: Device, a: Action, stages: nat)
    requires Inv(s, stages) && s.task.action == NoAction && !s.fingerPresent && IsCapture(a)
    ensures OnTrack(s, Start(a, true), stages)
    ensures Step(s, Start(a, true), stages) == Started(a)
    ensures OnTrack(Started(a), ActivateDone(None), stages)
    ensures Step(Started(a), ActivateDone(None), stages) == Awaiting(a, 0)
  {
  }

  /** A run on track from one state to another. */
  ghost predicate Leads(s: Device, evs: seq<Event>, t: Device, stages: nat) {
    RunOnTrack(s, evs, stages) && Run(s, evs, stages) == t
  }

  lemma First(s: Device, ev: Event, t: Device, rest: seq<Event>, u: Device, stages: nat)
    requires OnTrack(s, ev, stages) && Step(s, ev, stages) == t && Leads(t, rest, u, stages)
    ensures Leads(s, [ev] + rest, u, stages)
  {
    assert ([ev] + rest)[1..] == rest;
  }

  lemma {:induction false} Join(s: Device, first: seq<Event>, t: Device, rest: seq<Event>, u: Device, stages: nat)
    requires Leads(s, first, t, stages) && Leads(t, rest, u, stages)
    ensures Leads(s, first + rest, u, stages)
    decreases |first|
  {
    if first == [] {
      assert first + rest == rest;
    } else {
      Join(Step(s, first[0], stages), first[1..], t, rest, u, stages);
      First(s, first[0], Step(s, first[0], stages), first[1..] + rest, u, stages);
      assert first + rest == [first[0]] + (first[1..] + rest);
    }
  }

  lemma Nowhere(s: Device, stages: nat)
    ensures Leads(s, [], s, stages)
  {
  }

  lemma One(s: Device, ev: Event, t: Device, stages: nat)
    requires OnTrack(s, ev, stages) && Step(s, ev, stages) == t
    ensures Leads(s, [ev], t, stages)
  {
    Nowhere(t, stages);
    First(s, ev, t, [], t, stages);
    assert [ev] + [] == [ev];
  }

  const GOOD: Event := ScanDone(Scanned(None, None))

  /** The finger was seen, an image captured, and its scan is under way. */
  function Scanning(a: Action, stage: int): Device {
    Awaiting(a, stage).(state := AwaitFingerOff, fingerPresent := true, scanActive := true)
  }

  const IMAGE: seq<Event> := [Finger(true)] + [Captured]

  lemma ImageTaken(a: Action, stage: int, stages: nat)
    requires IsCapture(a)
    ensures Leads(Awaiting(a, stage), IMAGE, Scanning(a, stage), stages)
  {
    var t := Awaiting(a, stage).(state := Capturing, fingerPresent := true);
    One(t, Captured, Scanning(a, stage), stages);
    First(Awaiting(a, stage), Finger(true), t, [Captured], Scanning(a, stage), stages);
  }

  const BEGINNING: seq<Event> := [ActivateDone(None)]

  lemma ActionBegins(s: Device, a: Action, stages: nat)
    requires Inv(s, stages) && s.task.action == NoAction && !s.fingerPresent && IsCapture(a)
    ensures Leads(s, [Start(a, true)] + BEGINNING, Awaiting(a, 0), stages)
  {
    StartsClean(s, a, stages);
    One(Started(a), ActivateDone(None), Awaiting(a, 0), stages);
    First(s, Start(a, true), Started(a), BEGINNING, Awaiting(a, 0), stages);
  }

  /** The three orders in which scan, finger and device can end. */
  datatype Order = FingerScanDevice | ScanFingerDevice | FingerDeviceScan

  function Ending(o: Order): seq<Event> {
    match o
    case FingerScanDevice => [Finger(false)] + ([GOOD] + [DeactivateDone(None)])
    case ScanFingerDevice => [GOOD] + ([Finger(false)] + [DeactivateDone(None)])
    case FingerDeviceScan => [Finger(false)] + ([DeactivateDone(None)] + [GOOD])
  }

  function OneImage(a: Action, o: Order): seq<Event> {
    ([Start(a, true)] + BEGINNING) + (IMAGE + Ending(o))
  }

  /** The device with its only completion: no error, and a match reported or an image handed over. */
  function Delivered(a: Action): Device {
    INITIAL.(task := Task(a, true, false, a != Capture),
             got := Gathered(None, false, [], [Completion(None, false, a != Capture, a == Capture, 0)]))
  }

  /** The action after its scan, and with its device going away. */
  function AfterScan(s: Device): Device {
    s.(scanActive := false, task := s.task.(reported := s.task.action != Capture),
       got := s.got.(image := s.task.action == Capture))
  }

  function Leaving(s: Device): Device {
    s.(state := Deactivating, fingerPresent := false, owes := Owes(false, true))
  }

  lemma FingerScanDeviceDelivers(a: Action, stages: nat)
    requires a == Verify || a == Identify || a == Capture
    ensures Leads(Scanning(a, 0), Ending(FingerScanDevice), Delivered(a), stages)
  {
    var s := Scanning(a, 0);
    var t := AfterScan(Leaving(s));
    One(t, DeactivateDone(None), Delivered(a), stages);
    First(Leaving(s), GOOD, t, [DeactivateDone(None)], Delivered(a), stages);
    First(s, Finger(false), Leaving(s), [GOOD] + [DeactivateDone(None)], Delivered(a), stages);
  }

  lemma ScanFingerDeviceDelivers(a: Action, stages: nat)
    requires a == Verify || a == Identify || a == Capture
    ensures Leads(Scanning(a, 0), Ending(ScanFingerDevice), Delivered(a), stages)
  {
    var s := Scanning(a, 0);
    var t := Leaving(AfterScan(s));
    One(t, DeactivateDone(None), Delivered(a), stages);
    First(AfterScan(s), Finger(false), t, [DeactivateDone(None)], Delivered(a), stages);
    First(s, GOOD, AfterScan(s), [Finger(false)] + [DeactivateDone(None)], Delivered(a), stages);
  }

  lemma FingerDeviceScanDelivers(a: Action, stages: nat)
    requires a == Verify || a == Identify || a == Capture
    ensures Leads(Scanning(a, 0), Ending(FingerDeviceScan), Delivered(a), stages)
  {
    var s := Scanning(a, 0);
    var t := INITIAL.(scanActive := true, task := s.task);
    One(t, GOOD, Delivered(a), stages);
    First(Leaving(s), DeactivateDone(None), t, [GOOD], Delivered(a), stages);
    First(s, Finger(false), Leaving(s), [DeactivateDone(None)] + [GOOD], Delivered(a), stages);
  }

  lemma EndingDelivers(a: Action, o: Order, stages: nat)
    requires a == Verify || a == Identify || a == Capture
    ensures Leads(Scanning(a, 0), Ending(o), Delivered(a), stages)
  {
    match o {
      case FingerScanDevice => FingerScanDeviceDelivers(a, stages);
      case ScanFingerDevice => ScanFingerDeviceDelivers(a, stages);
      case FingerDeviceScan => FingerDeviceScanDelivers(a, stages);
    }
  }

  /**
   From every idle state that a run reaches, without a finger on record, a verify, identify or
   capture that meets no error is completed once with its result, in whichever order its scan,
   its finger and its device end.
   */
  lemma OneImageDelivers(evs: seq<Event>, a: Action, o: Order, stages: nat)
    requires stages > 0 && RunOnTrack(INITIAL, evs, stages)
    requires a == Verify || a == Identify || a == Capture
    ensures var s := Run(INITIAL, evs, stages);
            !s.aborted && s.task.action == NoAction && !s.fingerPresent ==>
              Leads(s, OneImage(a, o), Delivered(a), stages)
  {
    RunKeepsInv(INITIAL, evs, stages);
    var s := Run(INITIAL, evs, stages);
    if !s.aborted && s.task.action == NoAction && !s.fingerPresent {
      ActionBegins(s, a, stages);
      ImageTaken(a, 0, stages);
      EndingDelivers(a, o, stages);
      Join(Awaiting(a, 0), IMAGE, Scanning(a, 0), Ending(o), Delivered(a), stages);
      Join(s, [Start(a, true)] + BEGINNING, Awaiting(a, 0), IMAGE + Ending(o), Delivered(a), stages);
    }
  }

  // ---------------------------------------------------------------- an enrolment without errors

  /** One stage: an image, the finger lifted before or after the scan is over. */
  function Stage(scanFirst: bool): seq<Event> {
    IMAGE + if scanFirst then [GOOD] + [Finger(false)] else [Finger(false)] + [GOOD]
  }

  lemma StageAdvances(stage: nat, scanFirst: bool, stages: nat)
    requires stage + 1 < stages
    ensures Leads(Awaiting(Enroll, stage), Stage(scanFirst), Awaiting(Enroll, stage + 1), stages)
  {
    var s := Scanning(Enroll, stage);
    var u := Awaiting(Enroll, stage + 1);
    ImageTaken(Enroll, stage, stages);
    if scanFirst {
      var t := s.(scanActive := false, stage := stage + 1);
      One(t, Finger(false), u, stages);
      First(s, GOOD, t, [Finger(false)], u, stages);
      Join(Awaiting(Enroll, stage), IMAGE, s, [GOOD] + [Finger(false)], u, stages);
    } else {
      var t := s.(state := Idle, fingerPresent := false);
      One(t, GOOD, u, stages);
      First(s, Finger(false), t, [GOOD], u, stages);
      Join(Awaiting(Enroll, stage), IMAGE, s, [Finger(false)] + [GOOD], u, stages);
    }
  }

  function Enrolled(stages: nat): Device {
    INITIAL.(stage := stages, task := Task(Enroll, true, false, false),
             got := Gathered(None, false, [], [Completion(None, false, false, false, stages)]))
  }

  lemma LastStageEnrols(scanFirst: bool, stages: nat)
    requires stages > 0
    ensures Leads(Awaiting(Enroll, stages - 1), Stage(scanFirst) + [DeactivateDone(None)], Enrolled(stages), stages)
  {
    var s := Scanning(Enroll, stages - 1);
    var v := INITIAL.(state := Deactivating, active := true, stage := stages,
                      owes := Owes(false, true), task := s.task);
    ImageTaken(Enroll, stages - 1, stages);
    One(v, DeactivateDone(None), Enrolled(stages), stages);
    if scanFirst {
      var t := v.(fingerPresent := true);
      One(t, Finger(false), v, stages);
      First(s, GOOD, t, [Finger(false)], v, stages);
      Join(Awaiting(Enroll, stages - 1), IMAGE, s, [GOOD] + [Finger(false)], v, stages);
    } else {
      var t := s.(state := Idle, fingerPresent := false);
      One(t, GOOD, v, stages);
      First(s, Finger(false), t, [GOOD], v, stages);
      Join(Awaiting(Enroll, stages - 1), IMAGE, s, [Finger(false)] + [GOOD], v, stages);
    }
    Join(Awaiting(Enroll, stages - 1), Stage(scanFirst), v, [DeactivateDone(None)], Enrolled(stages), stages);
  }

  /** The remaining stages, each with its own order, and the end of the device. */
  function Stages(orders: seq<bool>): seq<Event> {
    if orders == [] then [DeactivateDone(None)] else Stage(orders[0]) + Stages(orders[1..])
  }

  lemma {:induction false} StagesEnrol(stage: nat, orders: seq<bool>, stages: nat)
    requires orders != [] && stage + |orders| == stages
    ensures Leads(Awaiting(Enroll, stage), Stages(orders), Enrolled(stages), stages)
    decreases |orders|
  {
    if |orders| == 1 {
      LastStageEnrols(orders[0], stages);
      assert orders[1..] == [];
    } else {
      StageAdvances(stage, orders[0], stages);
      StagesEnrol(stage + 1, orders[1..], stages);
      Join(Awaiting(Enroll, stage), Stage(orders[0]), Awaiting(Enroll, stage + 1), Stages(orders[1..]),
           Enrolled(stages), stages);
    }
  }

  /** The same for an enrolment: after as many good stages as it has, it is completed once with all of them. */
  lemma EnrolmentDelivers(evs: seq<Event>, orders: seq<bool>, stages: nat)
    requires stages > 0 && RunOnTrack(INITIAL, evs, stages) && |orders| == stages
    ensures var s := Run(INITIAL, evs, stages);
            !s.aborted && s.task.action == NoAction && !s.fingerPresent ==>
              Leads(s, ([Start(Enroll, true)] + BEGINNING) + Stages(orders), Enrolled(stages), stages)
  {
    RunKeepsInv(INITIAL, evs, stages);
    var s := Run(INITIAL, evs, stages);
    if !s.aborted && s.task.action == NoAction && !s.fingerPresent {
      ActionBegins(s, Enroll, stages);
      StagesEnrol(0, orders, stages);
      Join(s, [Start(Enroll, true)] + BEGINNING, Awaiting(Enroll, 0), Stages(orders), Enrolled(stages), stages);
    }
  }

  // ---------------------------------------------------------------- other ways to end

  function Listed(e: Option<Error>): seq<Error> {
    if e.Some? then [e.value] else []
  }

  /** A retry in an enrolment repeats the stage once the finger is lifted. */
  lemma RetryRepeatsStage(stage: nat, code: nat, stages: nat)
    requires stage < stages
    ensures Leads(Awaiting(Enroll, stage), [Finger(true)] + ([Retried(code)] + [Finger(false)]),
                  Awaiting(Enroll, stage), stages)
  {
    var s := Awaiting(Enroll, stage);
    var t := s.(state := Capturing, fingerPresent := true);
    var u := t.(state := AwaitFingerOff);
    One(u, Finger(false), s, stages);
    First(t, Retried(code), u, [Finger(false)], s, stages);
    First(s, Finger(true), t, [Retried(code)] + [Finger(false)], s, stages);
  }

  /** The device with its only completion after an error or, for `None`, a retry that was reported at once. */
  function Ended(a: Action, error: Option<Error>, cancelled: bool, errors: seq<Error>): Device {
    INITIAL.(task := Task(a, true, cancelled, error.None?),
             got := Gathered(None, false, errors, [Completion(error, cancelled, error.None?, false, 0)]))
  }

  function Failing(a: Action, error: Error): Device {
    Awaiting(a, 0).(state := Deactivating, owes := Owes(false, true), got := Gathered(Some(error), false, [error], []))
  }

  /** A retry ends a verify or identify, which report it, and a capture, which fails with it. */
  lemma RetryEnds(a: Action, code: nat, stages: nat)
    requires a == Verify || a == Identify || a == Capture
    ensures var error := if a == Capture then Some(Retry(code)) else None;
            Leads(Awaiting(a, 0), [Retried(code)] + [DeactivateDone(None)],
                  Ended(a, error, false, Listed(error)), stages)
  {
    var error := if a == Capture then Some(Retry(code)) else None;
    var t := if a == Capture then Failing(a, Retry(code))
             else Awaiting(a, 0).(state := Deactivating, owes := Owes(false, true), task := Task(a, false, false, true));
    One(t, DeactivateDone(None), Ended(a, error, false, Listed(error)), stages);
    First(Awaiting(a, 0), Retried(code), t, [DeactivateDone(None)], Ended(a, error, false, Listed(error)), stages);
  }

  /** A session error, or a general one in its place, ends any action with that error. */
  lemma SessionErrorEnds(a: Action, e: Option<Error>, stages: nat)
    requires IsCapture(a)
    ensures var x := if e.Some? then e.value else ERROR_GENERAL;
            Leads(Awaiting(a, 0), [SessionFailed(e)] + [DeactivateDone(None)], Ended(a, Some(x), false, [x]), stages)
  {
    var x := if e.Some? then e.value else ERROR_GENERAL;
    One(Failing(a, x), DeactivateDone(None), Ended(a, Some(x), false, [x]), stages);
    First(Awaiting(a, 0), SessionFailed(e), Failing(a, x), [DeactivateDone(None)], Ended(a, Some(x), false, [x]), stages);
  }

  /** A cancellation deactivates the device and is what the action ends with. */
  lemma CancellationEnds(a: Action, stages: nat)
    requires IsCapture(a)
    ensures Leads(Awaiting(a, 0), [CancelRequested] + ([CancelCalled] + [DeactivateDone(None)]),
                  Ended(a, Some(Cancelled), true, []), stages)
  {
    var s := Awaiting(a, 0).(task := Task(a, false, true, false));
    var t := s.(state := Deactivating, owes := Owes(false, true));
    One(t, DeactivateDone(None), Ended(a, Some(Cancelled), true, []), stages);
    First(s, CancelCalled, t, [DeactivateDone(None)], Ended(a, Some(Cancelled), true, []), stages);
    First(Awaiting(a, 0), CancelRequested, s, [CancelCalled] + [DeactivateDone(None)],
          Ended(a, Some(Cancelled), true, []), stages);
  }

  // ---------------------------------------------------------------- a stall

  /** The finger comes back before the scan of the first image is over, and is lifted after it. */
  const FINGER_BACK_EARLY: seq<Event> :=
    IMAGE + ([Finger(false)] + ([Finger(true)] + ([GOOD] + [Finger(false)])))

  /** An enrolment of two stages or more then waits for nothing, although no finger is there and no error occurred. */
  lemma EnrolmentCanStall(evs: seq<Event>, stages: nat)
    requires stages > 1 && RunOnTrack(INITIAL, evs, stages)
    ensures var s := Run(INITIAL, evs, stages);
            !s.aborted && s.task.action == NoAction && !s.fingerPresent ==>
              Leads(s, ([Start(Enroll, true)] + BEGINNING) + FINGER_BACK_EARLY,
                    Awaiting(Enroll, 1).(state := Idle), stages)
  {
    RunKeepsInv(INITIAL, evs, stages);
    var s := Run(INITIAL, evs, stages);
    if !s.aborted && s.task.action == NoAction && !s.fingerPresent {
      var e := Awaiting(Enroll, 1).(state := Idle);
      var c := Scanning(Enroll, 0);
      var t := c.(state := Idle, fingerPresent := false);
      var u := c.(state := Idle);
      var v := e.(fingerPresent := true);
      ActionBegins(s, Enroll, stages);
      ImageTaken(Enroll, 0, stages);
      One(v, Finger(false), e, stages);
      First(u, GOOD, v, [Finger(false)], e, stages);
      First(t, Finger(true), u, [GOOD] + [Finger(false)], e, stages);
      First(c, Finger(false), t, [Finger(true)] + ([GOOD] + [Finger(false)]), e, stages);
      Join(Awaiting(Enroll, 0), IMAGE, c, [Finger(false)] + ([Finger(true)] + ([GOOD] + [Finger(false)])), e, stages);
      Join(s, [Start(Enroll, true)] + BEGINNING, Awaiting(Enroll, 0), FINGER_BACK_EARLY, e, stages);
    }
  }

  // ---------------------------------------------------------------- which errors count

  /** The error of a scan result, for the actions that do not hand it to the application at once. */
  function RaisedByScan(a: Action, o: ScanOutcome): seq<Error> {
    match o
    case ScanCancelled => [Cancelled]
    case ScanFailed => if a == Capture then [RETRY_GENERAL] else []
    case Scanned(addError, matchError) =>
      if a == Capture then []
      else if IsFatal(addError) then [addError.value]
      else if a != Enroll && addError.None? && IsFatal(matchError) then [matchError.value]
      else []
  }

  /**
   The error an event makes the action's own: retries only of a capture, others where the driver
   or the scan reports them; not a cancellation the driver confirms, and nothing that comes when
   the device is neither active nor activating.
   */
  function Raised(s: Device, ev: Event): seq<Error> {
    match ev
    case ActivateDone(e) => if s.state == Activating then Listed(e) else []
    case DeactivateDone(e) => if s.state == Deactivating then Listed(e) else []
    case Retried(c) => if s.task.action == Capture && s.state != Inactive then [Retry(c)] else []
    case SessionFailed(e) =>
      var x := if e.None? then ERROR_GENERAL else e.value;
      if s.active && x == Cancelled && s.task.cancelled then []
      else if s.active || s.owes.activation then [x]
      else []
    case ScanDone(o) => RaisedByScan(s.task.action, o)
    case _ => []
  }

  lemma MaybeCompleteErrors(s: Device, error: Option<Error>)
    ensures MaybeComplete(s, error).got.errors == s.got.errors + Listed(error)
    ensures Deactivate(MaybeComplete(s, error)).got.errors == s.got.errors + Listed(error)
    ensures MaybeComplete(s, error).task.action == s.task.action
    ensures Deactivate(MaybeComplete(s, error)).task.action == s.task.action
  {
    var t := NoteError(s, error);
    assert t.got.errors == s.got.errors + Listed(error);
    assert Finish(t).got.errors == t.got.errors && Finish(t).task.action == t.task.action;
  }

  lemma ScanErrorsAreRaised(s: Device, o: ScanOutcome, stages: nat)
    requires stages > 0 && Inv(s, stages) && OnTrack(s, ScanDone(o), stages) && IsCapture(s.task.action)
    ensures var t := MinutiaeDetected(s, o, stages);
            t.got.errors == s.got.errors + RaisedByScan(s.task.action, o) && t.task.action == s.task.action
  {
    var t := s.(scanActive := false);
    if o.ScanCancelled? {
      MaybeCompleteErrors(t, Some(Cancelled));
    } else if s.task.action == Capture {
      MaybeCompleteErrors(t.(got := t.got.(image := true)), if o.ScanFailed? then Some(RETRY_GENERAL) else None);
    } else if IsFatal(ScanError(o)) {
      MaybeCompleteErrors(t, ScanError(o));
    } else if s.task.action == Enroll {
      MaybeCompleteErrors(t.(stage := t.stage + 1), ScanError(o));
    } else {
      MaybeCompleteErrors(t, if ScanError(o).None? && o.Scanned? then o.matchError else ScanError(o));
      MaybeCompleteErrors(Reported(t), None);
    }
  }

  lemma RetryErrorIsRaised(s: Device, c: nat, stages: nat)
    requires Inv(s, stages) && IsCapture(s.task.action)
    ensures var t := RetryScan(s, c);
            t.got.errors == s.got.errors + Raised(s, Retried(c)) && t.task.action == s.task.action
  {
    MaybeCompleteErrors(s, Some(Retry(c)));
    MaybeCompleteErrors(Reported(s), None);
  }

  lemma SessionErrorIsRaised(s: Device, e: Option<Error>, stages: nat)
    requires Inv(s, stages) && OnTrack(s, SessionFailed(e), stages) && IsCapture(s.task.action)
    ensures var t := SessionError(s, e);
            t.got.errors == s.got.errors + Raised(s, SessionFailed(e)) && t.task.action == s.task.action
  {
    MaybeCompleteErrors(s, Some(if e.None? then ERROR_GENERAL else e.value));
  }

  lemma ErrorsAreRaised(s: Device, ev: Event, stages: nat)
    requires stages > 0 && Inv(s, stages) && OnTrack(s, ev, stages) && IsCapture(s.task.action) && !ev.Returned?
    ensures Step(s, ev, stages).got.errors == s.got.errors + Raised(s, ev)
    ensures Step(s, ev, stages).task.action == s.task.action
  {
    match ev {
      case ScanDone(o) => ScanErrorsAreRaised(s, o, stages);
      case DeactivateDone(e) => MaybeCompleteErrors(Deactivated(s), e);
      case Retried(c) => RetryErrorIsRaised(s, c, stages);
      case SessionFailed(e) => SessionErrorIsRaised(s, e, stages);
      case _ =>
    }
  }

  function AllRaised(s: Device, evs: seq<Event>, stages: nat): seq<Error>
    decreases |evs|
  {
    if evs == [] then [] else Raised(s, evs[0]) + AllRaised(Step(s, evs[0], stages), evs[1..], stages)
  }

  /** The action is not returned in the course of these events. */
  predicate NotReturned(evs: seq<Event>) {
    evs != [] ==> !evs[0].Returned? && NotReturned(evs[1..])
  }

  lemma StepOfAction(s: Device, ev: Event, stages: nat)
    requires stages > 0 && Inv(s, stages) && OnTrack(s, ev, stages) && IsCapture(s.task.action) && !ev.Returned?
    ensures var t := Step(s, ev, stages);
            && Inv(t, stages) && t.task.action == s.task.action
            && t.got.errors == s.got.errors + Raised(s, ev)
  {
    ErrorsAreRaised(s, ev, stages);
    StepKeepsInv(s, ev, stages);
  }

  lemma Associative(a: seq<Error>, b: seq<Error>, c: seq<Error>)
    ensures (a + b) + c == a + (b + c)
  {
  }

  lemma {:induction false} ErrorsOfRun(s: Device, evs: seq<Event>, stages: nat)
    requires stages > 0 && Inv(s, stages) && RunOnTrack(s, evs, stages) && IsCapture(s.task.action)
    requires NotReturned(evs)
    ensures Inv(Run(s, evs, stages), stages) && Run(s, evs, stages).task.action == s.task.action
    ensures Run(s, evs, stages).got.errors == s.got.errors + AllRaised(s, evs, stages)
    decreases |evs|
  {
    if evs != [] {
      StepOfAction(s, evs[0], stages);
      ErrorsOfRun(Step(s, evs[0], stages), evs[1..], stages);
      Associative(s.got.errors, Raised(s, evs[0]), AllRaised(Step(s, evs[0], stages), evs[1..], stages));
    }
  }

  /**
   From a start on, the errors among which the delivered one is chosen are those that the events
   raised, in their order.
   */
  lemma DeliveredErrorWasRaised(s: Device, a: Action, evs: seq<Event>, stages: nat)
    requires stages > 0 && Inv(s, stages) && s.task.action == NoAction && !s.fingerPresent && IsCapture(a)
    requires RunOnTrack(Started(a), evs, stages) && NotReturned(evs)
    ensures var t := Run(s, [Start(a, true)] + evs, stages);
            && t.got.errors == AllRaised(Started(a), evs, stages)
            && (t.got.completions != [] && t.got.errors != [] ==>
                  Chosen(AllRaised(Started(a), evs, stages), t.got.completions[0].error))
  {
    StartsClean(s, a, stages);
    StepKeepsInv(s, Start(a, true), stages);
    ErrorsOfRun(Started(a), evs, stages);
    assert ([Start(a, true)] + evs)[1..] == evs;
  }

  // ---------------------------------------------------------------- the table of changes of state

  /** The changes the source lists as valid. */
  predicate Valid(from: ImageState, to: ImageState) {
    match from
    case Inactive => to == Activating
    case Activating => to == Idle || to == Inactive
    case Idle => to == AwaitFingerOn || to == Capturing || to == Deactivating
    case AwaitFingerOn => to == Capturing || to == Deactivating
    case Capturing => to == AwaitFingerOff || to == Idle || to == Deactivating
    case AwaitFingerOff => to == Idle || to == Deactivating
    case Deactivating => to == Inactive
  }

  /** What an event does to the state is a listed change, or two of them by way of IDLE where the event passes there. */
  predicate ByTable(s: Device, ev: Event, t: Device) {
    || s.state == t.state
    || Valid(s.state, t.state)
    || ((ev.ActivateDone? || ev.Finger?) && Valid(s.state, Idle) && Valid(Idle, t.state))
  }

  /** A retry of an enrolment that is not capturing, and a scan that ends with the finger gone unnoticed. */
  predicate LeavesTable(s: Device, ev: Event, stages: nat) {
    && s.task.action == Enroll
    && ((ev.Retried? && (s.state == AwaitFingerOn || s.state == Idle))
        || (ev.ScanDone? && s.state == AwaitFingerOff && !s.fingerPresent
            && !ev.outcome.ScanCancelled? && !IsFatal(ScanError(ev.outcome))
            && (ScanError(ev.outcome).Some? || s.stage + 1 < stages)))
  }

  lemma ScanFollowsTable(s: Device, o: ScanOutcome, stages: nat)
    requires stages > 0 && Inv(s, stages) && OnTrack(s, ScanDone(o), stages)
    ensures !ByTable(s, ScanDone(o), MinutiaeDetected(s, o, stages)) <==> LeavesTable(s, ScanDone(o), stages)
  {
  }

  /** The state leaves the table exactly there; everywhere else the warning of the source is not given for a change. */
  lemma ChangesFollowTable(s: Device, ev: Event, stages: nat)
    requires stages > 0 && Inv(s, stages) && OnTrack(s, ev, stages)
    ensures !ByTable(s, ev, Step(s, ev, stages)) <==> LeavesTable(s, ev, stages)
  {
    if ev.ScanDone? {
      ScanFollowsTable(s, ev.outcome, stages);
    }
  }
}
