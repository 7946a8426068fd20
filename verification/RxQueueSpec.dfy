/**
 The receive queue of the mailbox driver.  The interrupt thread, readers, flush, suspend,
 resume and remove interleave; what one of them does under the spin lock is one step, and
 a wait for the interrupt thread to finish is a step enabled only when it has.
 */
module RxQueueSpec {
  import opened Common

  type Record = r: seq<byte> | |r| == RECORD_SIZE witness seq(RECORD_SIZE, _ => 0)

  const RX_MAX: int := 0xE00
  const HEADER_SIZE: int := 16
  const RECORD_SIZE: int := HEADER_SIZE + RX_MAX
  const FIFO_SIZE: int := 0x4_0000

  /** The interrupt thread: idle, or past its look at the flags. */
  datatype Irq = NoIrq | Sampled(queue: bool)

  /** The holder of the read lock: in its loop, asleep, or copying record `n` to the user. */
  datatype Reader = NoReader | Looping | Asleep | Copying(n: nat, data: seq<byte>)

  /** Suspend and remove under the transmit lock: waiting for the interrupt, then flushing. */
  datatype Pm = NoPm | SuspendWaits | SuspendFlushes | RemoveFlushes

  datatype Fifo = Fifo(bytes: seq<byte>, queued: int, ready: bool, overflow: bool)

  datatype Flags = Flags(removed: bool, suspended: bool, irqEnabled: bool)

  /** What happened to records, in the order of the lock: taken by a reader, or a gap. */
  datatype Mark = Taken(n: nat) | Overflowed | Faulted | Flushed | SuspendedMark | RemovedMark

  /** `produced` numbers the interrupt records; those from `base` on are in the queue. */
  datatype History = History(produced: seq<Record>, base: nat, log: seq<Mark>)

  /** `flushers` counts the flush requests that have passed their test and not taken the lock yet. */
  datatype Queue = Queue(
    fifo: Fifo, flags: Flags, irq: Irq, reader: Reader, pm: Pm, flushers: nat, hist: History)

  const INITIAL: Queue := Queue(
    Fifo([], 0, true, false), Flags(false, false, true), NoIrq, NoReader, NoPm, 0, History([], 0, []))

  datatype ReadResult = Sleeps | NoDevice | HostDown | NoBufs | IoError | Got(data: seq<byte>)

  // ---------------------------------------------------------------- the queue

  function Reset(f: Fifo): Fifo {
    f.(bytes := [], queued := 0)
  }

  function Drop(s: Queue, m: Mark): Queue {
    s.(hist := s.hist.(base := |s.hist.produced|, log := s.hist.log + [m]))
  }

  /** The interrupt thread under the lock: append the record, or drop everything. */
  function Enqueue(s0: Queue, r: Record): Queue {
    var queue := s0.irq.Sampled? && s0.irq.queue;
    var s := s0.(irq := NoIrq, hist := s0.hist.(produced := s0.hist.produced + [r]));
    if !queue then s
    else if s.fifo.ready && FIFO_SIZE - |s.fifo.bytes| >= RECORD_SIZE then
      s.(fifo := s.fifo.(bytes := s.fifo.bytes + r, queued := s.fifo.queued + 1))
    else
      s.(fifo := Reset(s.fifo).(overflow := true), hist := s.hist.(base := |s.hist.produced|))
  }

  /** One pass of the read loop under the lock. */
  function ReadOutcome(f: Fifo, flags: Flags): ReadResult {
    if flags.removed then NoDevice
    else if flags.suspended then HostDown
    else if !f.ready then NoDevice
    else if f.overflow then NoBufs
    else if f.queued > 0 then (if |f.bytes| < RECORD_SIZE then IoError else Got(f.bytes[..RECORD_SIZE]))
    else Sleeps
  }

  function ReadPass(s: Queue): Queue {
    match ReadOutcome(s.fifo, s.flags)
    case NoDevice => s.(reader := NoReader)
    case HostDown => s.(reader := NoReader)
    case NoBufs =>
      s.(reader := NoReader, fifo := s.fifo.(overflow := false), hist := s.hist.(log := s.hist.log + [Overflowed]))
    case IoError => Drop(s.(reader := NoReader, fifo := Reset(s.fifo)), Faulted)
    case Got(data) =>
      s.(reader := Copying(s.hist.base, data),
         fifo := s.fifo.(bytes := s.fifo.bytes[RECORD_SIZE..], queued := s.fifo.queued - 1),
         hist := s.hist.(base := s.hist.base + 1, log := s.hist.log + [Taken(s.hist.base)]))
    case Sleeps => s.(reader := Asleep)
  }

  /** The condition a sleeping reader waits for. */
  predicate WakesUp(f: Fifo, flags: Flags) {
    f.queued > 0 || !f.ready || f.overflow || flags.removed || flags.suspended
  }

  datatype PollMask = Nothing | Readable | ReadableError | Error | ErrorHangup

  function Poll(f: Fifo, flags: Flags): PollMask {
    if flags.removed then ErrorHangup
    else if flags.suspended then Error
    else if f.overflow then ReadableError
    else if f.ready && f.queued > 0 then Readable
    else Nothing
  }

  datatype Event =
    | IrqStart
    | IrqFinish(r: Record)
    | ReadEnter
    | ReadLoop
    | WakeUp
    | Interrupt
    | CopyDone(ok: bool)
    | FlushTest
    | FlushLocked
    | SuspendBegin
    | SuspendIrqOff
    | SuspendEnd
    | Resume
    | RemoveBegin
    | RemoveIrqOff
    | RemoveEnd

  function Step(s: Queue, ev: Event): Queue {
    match ev
    case IrqStart => s.(irq := Sampled(!s.flags.removed && !s.flags.suspended))
    case IrqFinish(r) => Enqueue(s, r)
    case ReadEnter => s.(reader := Looping)
    case ReadLoop => ReadPass(s)
    case WakeUp => s.(reader := Looping)
    case Interrupt => s.(reader := NoReader)
    case CopyDone(ok) =>
      if ok then s.(reader := NoReader)
      else s.(reader := NoReader, hist := s.hist.(log := s.hist.log + [Faulted]))
    case FlushTest => if s.flags.removed then s else s.(flushers := s.flushers + 1)
    case FlushLocked =>
      var f := (if s.fifo.ready then Reset(s.fifo) else s.fifo).(queued := 0, overflow := false);
      Drop(s.(fifo := f, flushers := if s.flushers > 0 then s.flushers - 1 else 0), Flushed)
    case SuspendBegin => if s.flags.removed then s else s.(flags := s.flags.(suspended := true), pm := SuspendWaits)
    case SuspendIrqOff => s.(flags := s.flags.(irqEnabled := false), pm := SuspendFlushes)
    case SuspendEnd => Drop(s.(fifo := Reset(s.fifo).(overflow := false), pm := NoPm), SuspendedMark)
    case Resume => if s.flags.removed then s else s.(flags := s.flags.(suspended := false, irqEnabled := true))
    case RemoveBegin => s.(flags := s.flags.(removed := true))
    case RemoveIrqOff => s.(flags := s.flags.(irqEnabled := false), pm := RemoveFlushes)
    case RemoveEnd => Drop(s.(fifo := Reset(s.fifo).(ready := false, overflow := false), pm := NoPm), RemovedMark)
  }

  /** Locks, the one-shot interrupt, and the pairing of suspend with resume by the PM core. */
  predicate MayHappen(s: Queue, ev: Event) {
    match ev
    case IrqStart => s.flags.irqEnabled && s.irq == NoIrq
    case IrqFinish(_) => s.irq.Sampled?
    case ReadEnter => s.reader == NoReader
    case ReadLoop => s.reader == Looping
    case WakeUp => s.reader == Asleep && WakesUp(s.fifo, s.flags)
    case Interrupt => s.reader == Asleep
    case CopyDone(_) => s.reader.Copying?
    case FlushTest => true
    case FlushLocked => s.flushers > 0
    case SuspendBegin => s.pm == NoPm && !s.flags.suspended
    case SuspendIrqOff => s.pm == SuspendWaits && s.irq == NoIrq
    case SuspendEnd => s.pm == SuspendFlushes
    case Resume => s.pm == NoPm && s.flags.suspended
    case RemoveBegin => !s.flags.removed
    case RemoveIrqOff => s.pm == NoPm && s.flags.removed && s.fifo.ready && (!s.flags.suspended ==> s.irq == NoIrq)
    case RemoveEnd => s.pm == RemoveFlushes
  }

  function Run(s: Queue, evs: seq<Event>): Queue
    decreases |evs|
  {
    if evs == [] then s else Run(Step(s, evs[0]), evs[1..])
  }

  ghost predicate PossibleRun(s: Queue, evs: seq<Event>)
    decreases |evs|
  {
    evs != [] ==> MayHappen(s, evs[0]) && PossibleRun(Step(s, evs[0]), evs[1..])
  }

  // ---------------------------------------------------------------- invariant

  /** The bytes of records one after the other. */
  function Flatten(rs: seq<Record>): (b: seq<byte>)
    ensures |b| == Mul(|rs|, RECORD_SIZE)
  {
    if rs == [] then [] else
      MulSucc(|rs|);
      Flatten(rs[..|rs| - 1]) + rs[|rs| - 1]
  }

  lemma MulSucc(n: nat)
    requires n > 0
    ensures Mul(n, RECORD_SIZE) == Mul(n - 1, RECORD_SIZE) + RECORD_SIZE
  {
  }

  lemma CutInFirst(x: seq<byte>, y: seq<byte>, k: nat)
    requires k <= |x|
    ensures (x + y)[..k] == x[..k] && (x + y)[k..] == x[k..] + y
  {
  }

  lemma FlattenAppend(rs: seq<Record>, r: Record)
    ensures Flatten(rs + [r]) == Flatten(rs) + r
  {
    assert (rs + [r])[..|rs|] == rs;
  }

  lemma {:induction false} FlattenHead(rs: seq<Record>)
    requires rs != []
    ensures |Flatten(rs)| >= RECORD_SIZE
    ensures Flatten(rs)[..RECORD_SIZE] == rs[0] && Flatten(rs)[RECORD_SIZE..] == Flatten(rs[1..])
    decreases |rs|
  {
    var n := |rs| - 1;
    if n == 0 {
      assert rs == [] + [rs[0]] && rs[1..] == [];
      FlattenAppend([], rs[0]);
    } else {
      FlattenHead(rs[..n]);
      assert rs == rs[..n] + [rs[n]] && rs[1..] == rs[..n][1..] + [rs[n]];
      FlattenAppend(rs[..n], rs[n]);
      FlattenAppend(rs[..n][1..], rs[n]);
      CutInFirst(Flatten(rs[..n]), rs[n], RECORD_SIZE);
    }
  }

  /** The records that are in the queue. */
  function Queued(s: Queue): seq<Record>
    requires 0 <= s.fifo.queued && s.hist.base + s.fifo.queued <= |s.hist.produced|
  {
    s.hist.produced[s.hist.base..s.hist.base + s.fifo.queued]
  }

  ghost predicate FifoInv(s: Queue) {
    && 0 <= s.fifo.queued && s.hist.base + s.fifo.queued <= |s.hist.produced|
    && s.fifo.bytes == Flatten(Queued(s))
    && |s.fifo.bytes| <= FIFO_SIZE
    && (s.fifo.overflow ==> s.fifo.ready)
    && (!s.fifo.ready ==> s.fifo.queued == 0 && s.flags.removed && !s.flags.irqEnabled)
    && (s.reader.Copying? ==> s.reader.n < |s.hist.produced| && s.reader.data == s.hist.produced[s.reader.n])
  }

  /** How the interrupt, the flags and the power transitions fit together. */
  predicate PhaseInv(s: Queue) {
    && (s.irq.Sampled? ==> s.flags.irqEnabled)
    && (s.irq.Sampled? && !s.irq.queue ==> s.flags.removed || s.pm == SuspendWaits)
    && (s.pm == SuspendWaits ==> s.flags.suspended)
    && (s.pm == SuspendFlushes ==> s.flags.suspended && !s.flags.irqEnabled)
    && (s.pm == RemoveFlushes ==> s.flags.removed && !s.flags.irqEnabled && s.fifo.ready)
    && (s.pm == NoPm && s.flags.suspended ==> !s.flags.irqEnabled)
  }

  predicate InStep(s: Queue) {
    s.hist.base + s.fifo.queued == |s.hist.produced|
  }

  /** Only while a suspend is under way, or after removal, can a record miss the queue. */
  predicate MissInv(s: Queue) {
    && (InStep(s) || s.pm == SuspendWaits || s.pm == SuspendFlushes || s.flags.removed)
    && (s.irq.Sampled? && s.irq.queue ==> InStep(s))
  }

  /** Records taken one right after the other are neighbours. */
  predicate LogChain(h: History) {
    && (forall i :: 0 <= i < |h.log| && h.log[i].Taken? ==> h.log[i].n < h.base)
    && (forall i :: 0 < i < |h.log| && h.log[i - 1].Taken? && h.log[i].Taken? ==> h.log[i].n == h.log[i - 1].n + 1)
  }

  /** So is the next record to be taken, unless an overflow will be reported first. */
  predicate LogInv(s: Queue) {
    var log := s.hist.log;
    && LogChain(s.hist)
    && (log != [] && log[|log| - 1].Taken? && !s.fifo.overflow ==> s.hist.base == log[|log| - 1].n + 1)
  }

  ghost predicate Inv(s: Queue) {
    FifoInv(s) && PhaseInv(s) && MissInv(s) && LogInv(s)
  }

  lemma DropKeepsInv(s: Queue, m: Mark)
    requires PhaseInv(s) && LogChain(s.hist) && !m.Taken?
    requires s.hist.base <= |s.hist.produced| && s.fifo.queued == 0 && s.fifo.bytes == []
    requires !s.fifo.overflow
    requires !s.fifo.ready ==> s.flags.removed && !s.flags.irqEnabled
    requires s.reader.Copying? ==> s.reader.n < |s.hist.produced| && s.reader.data == s.hist.produced[s.reader.n]
    ensures Inv(Drop(s, m))
  {
  }

  lemma WindowOfAppend(p: seq<Record>, r: Record, b: nat, n: nat)
    requires b + n <= |p|
    ensures (p + [r])[b..b + n] == p[b..b + n]
    ensures b + n == |p| ==> (p + [r])[b..b + n + 1] == p[b..b + n] + [r]
  {
  }

  lemma OverflowKeepsInv(s: Queue, r: Record)
    requires Inv(s) && s.irq.Sampled? && s.irq.queue && FIFO_SIZE - |s.fifo.bytes| < RECORD_SIZE
    ensures Inv(Enqueue(s, r))
  {
    assert Queued(Enqueue(s, r)) == [];
  }

  lemma StoredKeepsFifo(s: Queue, r: Record)
    requires FifoInv(s) && InStep(s) && s.irq.Sampled? && s.irq.queue && s.fifo.ready
    requires FIFO_SIZE - |s.fifo.bytes| >= RECORD_SIZE
    ensures FifoInv(Enqueue(s, r))
  {
    WindowOfAppend(s.hist.produced, r, s.hist.base, s.fifo.queued);
    FlattenAppend(Queued(s), r);
    assert Queued(Enqueue(s, r)) == Queued(s) + [r];
  }

  lemma StoredKeepsInv(s: Queue, r: Record)
    requires Inv(s) && s.irq.Sampled? && s.irq.queue && FIFO_SIZE - |s.fifo.bytes| >= RECORD_SIZE
    ensures Inv(Enqueue(s, r))
  {
    StoredKeepsFifo(s, r);
  }

  lemma EnqueueKeepsInv(s: Queue, r: Record)
    requires Inv(s) && s.irq.Sampled?
    ensures Inv(Enqueue(s, r))
  {
    if s.irq.queue && FIFO_SIZE - |s.fifo.bytes| < RECORD_SIZE {
      OverflowKeepsInv(s, r);
    } else if s.irq.queue {
      StoredKeepsInv(s, r);
    } else {
      WindowOfAppend(s.hist.produced, r, s.hist.base, s.fifo.queued);
    }
  }

  lemma TakeKeepsInv(s: Queue)
    requires Inv(s) && s.reader == Looping
    requires !s.flags.removed && !s.flags.suspended && s.fifo.ready && !s.fifo.overflow && s.fifo.queued > 0
    ensures ReadOutcome(s.fifo, s.flags).Got?
    ensures Inv(ReadPass(s))
  {
    FlattenHead(Queued(s));
    var t := ReadPass(s);
    assert Queued(s)[0] == s.hist.produced[s.hist.base];
    assert Queued(t) == Queued(s)[1..];
  }

  /** The short read never happens. */
  lemma ReadKeepsInv(s: Queue)
    requires Inv(s) && s.reader == Looping
    ensures ReadOutcome(s.fifo, s.flags) != IoError
    ensures Inv(ReadPass(s))
  {
    if !s.flags.removed && !s.flags.suspended && s.fifo.ready && !s.fifo.overflow && s.fifo.queued > 0 {
      TakeKeepsInv(s);
    } else {
      assert Queued(ReadPass(s)) == Queued(s);
    }
  }

  lemma FlushKeepsInv(s: Queue, ev: Event)
    requires Inv(s) && MayHappen(s, ev)
    requires ev.FlushLocked? || ev.SuspendEnd? || ev.RemoveEnd?
    ensures Inv(Step(s, ev))
  {
    if ev.FlushLocked? {
      DropKeepsInv(s.(fifo := Fifo([], 0, s.fifo.ready, false), flushers := s.flushers - 1), Flushed);
    } else {
      var ready := if ev.RemoveEnd? then false else s.fifo.ready;
      DropKeepsInv(s.(fifo := Fifo([], 0, ready, false), pm := NoPm),
                   if ev.RemoveEnd? then RemovedMark else SuspendedMark);
    }
  }

  predicate ReaderOrIrqStep(ev: Event) {
    ev.IrqStart? || ev.ReadEnter? || ev.WakeUp? || ev.Interrupt? || ev.FlushTest?
  }

  predicate PowerStep(ev: Event) {
    ev.SuspendBegin? || ev.SuspendIrqOff? || ev.Resume? || ev.RemoveBegin? || ev.RemoveIrqOff?
  }

  /** Steps that leave the queue and the records alone. */
  lemma ReaderStepKeepsInv(s: Queue, ev: Event)
    requires Inv(s) && MayHappen(s, ev) && ReaderOrIrqStep(ev)
    ensures Inv(Step(s, ev))
  {
    assert Queued(Step(s, ev)) == Queued(s);
  }

  lemma CopyDoneKeepsInv(s: Queue, ok: bool)
    requires Inv(s) && s.reader.Copying?
    ensures Inv(Step(s, CopyDone(ok)))
  {
    var t := Step(s, CopyDone(ok));
    assert Queued(t) == Queued(s);
    if !ok {
      assert t.hist.log == s.hist.log + [Faulted];
    }
  }

  lemma PowerStepKeepsInv(s: Queue, ev: Event)
    requires Inv(s) && MayHappen(s, ev) && PowerStep(ev)
    ensures Inv(Step(s, ev))
  {
    assert Queued(Step(s, ev)) == Queued(s);
  }

  lemma StepKeepsInv(s: Queue, ev: Event)
    requires Inv(s) && MayHappen(s, ev)
    ensures Inv(Step(s, ev))
  {
    match ev {
      case IrqFinish(r) => EnqueueKeepsInv(s, r);
      case ReadLoop => ReadKeepsInv(s);
      case FlushLocked => FlushKeepsInv(s, ev);
      case SuspendEnd => FlushKeepsInv(s, ev);
      case RemoveEnd => FlushKeepsInv(s, ev);
      case CopyDone(ok) => CopyDoneKeepsInv(s, ok);
      case _ =>
        if PowerStep(ev) {
          PowerStepKeepsInv(s, ev);
        } else {
          ReaderStepKeepsInv(s, ev);
        }
    }
  }

  lemma {:induction false} RunKeepsInv(s: Queue, evs: seq<Event>)
    requires Inv(s) && PossibleRun(s, evs)
    ensures Inv(Run(s, evs))
    decreases |evs|
  {
    if evs != [] {
      StepKeepsInv(s, evs[0]);
      RunKeepsInv(Step(s, evs[0]), evs[1..]);
    }
  }

  // ---------------------------------------------------------------- main results

  /** In every run the queue holds exactly its count of whole records, and no read is short. */
  lemma WholeRecords(evs: seq<Event>)
    requires PossibleRun(INITIAL, evs)
    ensures var s := Run(INITIAL, evs);
            && FifoInv(s)
            && |s.fifo.bytes| == s.fifo.queued * RECORD_SIZE
            && ReadOutcome(s.fifo, s.flags) != IoError
  {
    RunKeepsInv(INITIAL, evs);
    var s := Run(INITIAL, evs);
    MulIsProduct(s.fifo.queued, RECORD_SIZE);
    if s.fifo.queued > 0 {
      FlattenHead(Queued(s));
    }
  }

  /**
   In every run two records taken with no overflow report, fault, flush or suspend between
   them are consecutive interrupt records, and a reader copies exactly the record it took.
   */
  lemma NoSilentLoss(evs: seq<Event>)
    requires PossibleRun(INITIAL, evs)
    ensures var s := Run(INITIAL, evs); var log := s.hist.log;
            && (forall i :: 0 < i < |log| && log[i - 1].Taken? && log[i].Taken? ==> log[i].n == log[i - 1].n + 1)
            && (s.reader.Copying? ==>
                  s.reader.n < |s.hist.produced| && s.reader.data == s.hist.produced[s.reader.n])
  {
    RunKeepsInv(INITIAL, evs);
  }

  /** A reader sleeps exactly if its wake-up condition does not hold, and poll says the same. */
  lemma SleepAndPollAgree(evs: seq<Event>)
    requires PossibleRun(INITIAL, evs)
    ensures var s := Run(INITIAL, evs);
            && (ReadOutcome(s.fifo, s.flags) == Sleeps <==> !WakesUp(s.fifo, s.flags))
            && (ReadOutcome(s.fifo, s.flags) == Sleeps <==> Poll(s.fifo, s.flags) == Nothing)
            && (Poll(s.fifo, s.flags) == Readable <==> ReadOutcome(s.fifo, s.flags).Got?)
  {
    RunKeepsInv(INITIAL, evs);
    WholeRecords(evs);
  }
}
