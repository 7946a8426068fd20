/** What becomes of the records: stored while there is room, and delivered in order. */
module RxQueueProgress {
  import opened Common
  import opened RxQueueSpec

  /** As many records as fit the FIFO: 72 times 3600 bytes in 262144. */
  const CAPACITY: nat := 72

  /** Neither removed nor suspended, and no power transition under way. */
  predicate Up(s: Queue) {
    !s.flags.removed && !s.flags.suspended && s.pm == NoPm && s.flags.irqEnabled
  }

  lemma {:induction false} BytesOfRecords(n: nat)
    ensures Mul(n, RECORD_SIZE) == n * 3600
  {
    MulIsProduct(n, RECORD_SIZE);
  }

  /** Room for one more record, by the number of records. */
  lemma RoomByCount(s: Queue)
    requires Inv(s)
    ensures s.fifo.queued <= CAPACITY
    ensures FIFO_SIZE - |s.fifo.bytes| >= RECORD_SIZE <==> s.fifo.queued < CAPACITY
  {
    BytesOfRecords(s.fifo.queued);
    assert |Queued(s)| == s.fifo.queued;
  }

  /** Everything but the queue and the records. */
  predicate SameButQueue(s: Queue, t: Queue) {
    t.flags == s.flags && t.pm == s.pm && t.flushers == s.flushers && t.fifo.ready == s.fifo.ready
  }

  lemma StoredIsQueued(s: Queue, r: Record)
    requires Inv(s) && s.irq == Sampled(true) && s.fifo.queued < CAPACITY
    ensures var t := Step(s, IrqFinish(r));
            && Inv(t) && Queued(t) == Queued(s) + [r] && t.fifo.overflow == s.fifo.overflow
            && t.hist.base == s.hist.base && t.hist.log == s.hist.log
            && SameButQueue(s, t) && t.reader == s.reader && t.irq == NoIrq
  {
    RoomByCount(s);
    StoredKeepsInv(s, r);
    WindowOfAppend(s.hist.produced, r, s.hist.base, s.fifo.queued);
  }

  lemma FullQueueIsDropped(s: Queue, r: Record)
    requires Inv(s) && s.irq == Sampled(true) && s.fifo.queued >= CAPACITY
    ensures var t := Step(s, IrqFinish(r));
            Inv(t) && Queued(t) == [] && t.fifo.overflow && SameButQueue(s, t) && t.reader == s.reader
  {
    RoomByCount(s);
    OverflowKeepsInv(s, r);
  }

  lemma UnqueuedIsIgnored(s: Queue, r: Record)
    requires Inv(s) && s.irq == Sampled(false)
    ensures var t := Step(s, IrqFinish(r));
            Inv(t) && Queued(t) == Queued(s) && t.fifo == s.fifo && SameButQueue(s, t)
  {
    EnqueueKeepsInv(s, r);
    WindowOfAppend(s.hist.produced, r, s.hist.base, s.fifo.queued);
  }

  /**
   Over every run, what one interrupt does: its record goes to the end of the queue as long as
   fewer than 72 records wait; otherwise all of them are dropped and the overflow is marked.
   A thread that found the device removed or suspended leaves the queue alone.
   */
  lemma RecordIsStoredWhileRoom(evs: seq<Event>, r: Record, s: Queue)
    requires PossibleRun(INITIAL, evs) && s == Run(INITIAL, evs) && MayHappen(s, IrqFinish(r))
    ensures Inv(s)
    ensures var t := Step(s, IrqFinish(r));
            Inv(t) &&
            if !s.irq.queue then Queued(t) == Queued(s) && t.fifo.overflow == s.fifo.overflow
            else if s.fifo.queued < CAPACITY then Queued(t) == Queued(s) + [r] && t.fifo.overflow == s.fifo.overflow
            else Queued(t) == [] && t.fifo.overflow
  {
    RunKeepsInv(INITIAL, evs);
    if !s.irq.queue {
      UnqueuedIsIgnored(s, r);
    } else if s.fifo.queued < CAPACITY {
      StoredIsQueued(s, r);
    } else {
      FullQueueIsDropped(s, r);
    }
  }

  // ---------------------------------------------------------------- a burst of interrupts

  function Interrupts(rs: seq<Record>): seq<Event>
    decreases |rs|
  {
    if rs == [] then [] else [IrqStart] + ([IrqFinish(rs[0])] + Interrupts(rs[1..]))
  }

  lemma RunFirst(s: Queue, ev: Event, evs: seq<Event>)
    requires MayHappen(s, ev) && PossibleRun(Step(s, ev), evs)
    ensures PossibleRun(s, [ev] + evs) && Run(s, [ev] + evs) == Run(Step(s, ev), evs)
  {
    assert ([ev] + evs)[1..] == evs;
  }

  lemma SamplesWhenUp(s: Queue)
    requires Inv(s) && Up(s) && s.irq == NoIrq
    ensures var t := Step(s, IrqStart);
            && MayHappen(s, IrqStart) && t == s.(irq := Sampled(true))
            && Inv(t) && Queued(t) == Queued(s)
  {
  }

  /** The records `rs` have joined the end of the queue; no reader has noticed. */
  ghost predicate Joined(s: Queue, t: Queue, rs: seq<Record>) {
    && Inv(s) && Inv(t) && Up(t) && t.irq == NoIrq && t.reader == s.reader
    && Queued(t) == Queued(s) + rs
    && t.fifo.overflow == s.fifo.overflow && t.hist.base == s.hist.base && t.hist.log == s.hist.log
  }

  function Interrupted(s: Queue, r: Record): Queue {
    Step(Step(s, IrqStart), IrqFinish(r))
  }

  lemma OneInterrupt(s: Queue, r: Record)
    requires Inv(s) && Up(s) && s.irq == NoIrq && s.fifo.queued < CAPACITY
    ensures MayHappen(s, IrqStart) && MayHappen(Step(s, IrqStart), IrqFinish(r))
    ensures Joined(s, Interrupted(s, r), [r]) && Interrupted(s, r).fifo.queued == s.fifo.queued + 1
  {
    SamplesWhenUp(s);
    StoredIsQueued(Step(s, IrqStart), r);
    assert |Queued(Interrupted(s, r))| == |Queued(s)| + 1;
  }

  lemma JoinedThen(s: Queue, t: Queue, u: Queue, r: Record, rs: seq<Record>)
    requires Joined(s, t, [r]) && Joined(t, u, rs)
    ensures Joined(s, u, [r] + rs)
  {
    assert Queued(s) + [r] + rs == Queued(s) + ([r] + rs);
  }

  lemma RunTwo(s: Queue, a: Event, b: Event, evs: seq<Event>)
    requires MayHappen(s, a) && MayHappen(Step(s, a), b) && PossibleRun(Step(Step(s, a), b), evs)
    ensures PossibleRun(s, [a] + ([b] + evs)) && Run(s, [a] + ([b] + evs)) == Run(Step(Step(s, a), b), evs)
  {
    RunFirst(Step(s, a), b, evs);
    RunFirst(s, a, [b] + evs);
  }

  lemma NothingJoined(s: Queue)
    requires Inv(s) && Up(s) && s.irq == NoIrq
    ensures Joined(s, s, [])
  {
    assert Queued(s) + [] == Queued(s);
  }

  function InterruptedBy(s: Queue, rs: seq<Record>): Queue
    decreases |rs|
  {
    if rs == [] then s else InterruptedBy(Interrupted(s, rs[0]), rs[1..])
  }

  lemma {:induction false} AllJoin(s: Queue, rs: seq<Record>)
    requires Inv(s) && Up(s) && s.irq == NoIrq && s.fifo.queued + |rs| <= CAPACITY
    ensures Joined(s, InterruptedBy(s, rs), rs)
    decreases |rs|
  {
    if rs == [] {
      NothingJoined(s);
    } else {
      var t := Interrupted(s, rs[0]);
      OneInterrupt(s, rs[0]);
      AllJoin(t, rs[1..]);
      JoinedThen(s, t, InterruptedBy(t, rs[1..]), rs[0], rs[1..]);
      assert [rs[0]] + rs[1..] == rs;
    }
  }

  lemma {:induction false} InterruptsRun(s: Queue, rs: seq<Record>)
    requires Inv(s) && Up(s) && s.irq == NoIrq && s.fifo.queued + |rs| <= CAPACITY
    ensures PossibleRun(s, Interrupts(rs)) && Run(s, Interrupts(rs)) == InterruptedBy(s, rs)
    decreases |rs|
  {
    if rs != [] {
      OneInterrupt(s, rs[0]);
      InterruptsRun(Interrupted(s, rs[0]), rs[1..]);
      RunTwo(s, IrqStart, IrqFinish(rs[0]), Interrupts(rs[1..]));
    }
  }

  /** While the device is up, as many interrupts as there is room for leave their records in order. */
  lemma InterruptsAreQueued(s: Queue, rs: seq<Record>)
    requires Inv(s) && Up(s) && s.irq == NoIrq && s.fifo.queued + |rs| <= CAPACITY
    ensures PossibleRun(s, Interrupts(rs)) && Joined(s, Run(s, Interrupts(rs)), rs)
  {
    AllJoin(s, rs);
    InterruptsRun(s, rs);
  }

  // ---------------------------------------------------------------- reading

  /** A read that finds a record is given the oldest one, whole, and leaves the others. */
  lemma ReadGetsOldest(s: Queue)
    requires Inv(s) && Up(s) && s.reader == Looping && !s.fifo.overflow && s.fifo.queued > 0
    ensures var t := Step(s, ReadLoop);
            && Inv(t) && Up(t) && t.reader == Copying(s.hist.base, Queued(s)[0])
            && Queued(t) == Queued(s)[1..] && !t.fifo.overflow && t.irq == s.irq
            && t.hist.base == s.hist.base + 1 && t.hist.log == s.hist.log + [Taken(s.hist.base)]
  {
    TakeKeepsInv(s);
    FlattenHead(Queued(s));
    var t := ReadPass(s);
    assert Queued(t) == Queued(s)[1..];
  }


  function Reads(n: nat): seq<Event> {
    if n == 0 then [] else [ReadEnter] + ([ReadLoop] + ([CopyDone(true)] + Reads(n - 1)))
  }

  /** The marks of `n` records taken from number `base` on. */
  function TakenFrom(base: nat, n: nat): seq<Mark>
    decreases n
  {
    if n == 0 then [] else [Taken(base)] + TakenFrom(base + 1, n - 1)
  }

  /** The first `n` records that waited have been taken, and nothing else has been marked. */
  ghost predicate TookFirst(s: Queue, t: Queue, n: nat) {
    && Inv(s) && Inv(t) && Up(t) && t.reader == NoReader && !t.fifo.overflow
    && n <= s.fifo.queued && Queued(t) == Queued(s)[n..]
    && t.hist.base == s.hist.base + n && t.hist.log == s.hist.log + TakenFrom(s.hist.base, n)
  }

  function ReadOne(s: Queue): Queue {
    Step(Step(Step(s, ReadEnter), ReadLoop), CopyDone(true))
  }

  lemma OneRead(s: Queue)
    requires Inv(s) && Up(s) && s.reader == NoReader && !s.fifo.overflow && 0 < s.fifo.queued
    ensures MayHappen(s, ReadEnter) && MayHappen(Step(s, ReadEnter), ReadLoop)
    ensures MayHappen(Step(Step(s, ReadEnter), ReadLoop), CopyDone(true))
    ensures TookFirst(s, ReadOne(s), 1) && ReadOne(s).fifo.queued == s.fifo.queued - 1
  {
    var t := Step(s, ReadEnter);
    ReaderStepKeepsInv(s, ReadEnter);
    assert Queued(t) == Queued(s);
    ReadGetsOldest(t);
    var u := Step(t, ReadLoop);
    CopyDoneKeepsInv(u, true);
    assert Queued(Step(u, CopyDone(true))) == Queued(u);
    assert TakenFrom(s.hist.base, 1) == [Taken(s.hist.base)] + TakenFrom(s.hist.base + 1, 0);
  }

  lemma TookThen(s: Queue, t: Queue, u: Queue, n: nat)
    requires TookFirst(s, t, 1) && TookFirst(t, u, n) && n + 1 <= s.fifo.queued
    ensures TookFirst(s, u, n + 1)
  {
    assert Queued(s)[1..][n..] == Queued(s)[n + 1..];
    assert TakenFrom(s.hist.base, 1) == [Taken(s.hist.base)] + TakenFrom(s.hist.base + 1, 0);
    LogJoin(s.hist.log, s.hist.base, n + 1);
  }

  lemma NothingTook(s: Queue)
    requires Inv(s) && Up(s) && s.reader == NoReader && !s.fifo.overflow
    ensures TookFirst(s, s, 0)
  {
  }

  lemma RunThree(s: Queue, a: Event, b: Event, c: Event, evs: seq<Event>)
    requires MayHappen(s, a) && MayHappen(Step(s, a), b) && MayHappen(Step(Step(s, a), b), c)
    requires PossibleRun(Step(Step(Step(s, a), b), c), evs)
    ensures PossibleRun(s, [a] + ([b] + ([c] + evs)))
    ensures Run(s, [a] + ([b] + ([c] + evs))) == Run(Step(Step(Step(s, a), b), c), evs)
  {
    RunTwo(Step(s, a), b, c, evs);
    RunFirst(s, a, [b] + ([c] + evs));
  }

  function ReadMany(s: Queue, n: nat): Queue
    decreases n
  {
    if n == 0 then s else ReadMany(ReadOne(s), n - 1)
  }

  lemma {:induction false} AllTaken(s: Queue, n: nat)
    requires Inv(s) && Up(s) && s.reader == NoReader && !s.fifo.overflow && n <= s.fifo.queued
    ensures TookFirst(s, ReadMany(s, n), n)
    decreases n
  {
    if n == 0 {
      NothingTook(s);
    } else {
      NextReadable(s);
      AllTaken(ReadOne(s), n - 1);
      TookOneMore(s, ReadMany(ReadOne(s), n - 1), n - 1);
    }
  }

  /** After a read the queue can be read again, as long as it holds a record. */
  lemma NextReadable(s: Queue)
    requires Inv(s) && Up(s) && s.reader == NoReader && !s.fifo.overflow && 0 < s.fifo.queued
    ensures var t := ReadOne(s);
            Inv(t) && Up(t) && t.reader == NoReader && !t.fifo.overflow && t.fifo.queued == s.fifo.queued - 1
  {
    OneRead(s);
  }

  lemma TookOneMore(s: Queue, u: Queue, n: nat)
    requires Inv(s) && Up(s) && s.reader == NoReader && !s.fifo.overflow && n < s.fifo.queued
    requires TookFirst(ReadOne(s), u, n)
    ensures TookFirst(s, u, n + 1)
  {
    OneRead(s);
    TookThen(s, ReadOne(s), u, n);
  }

  lemma {:induction false} ReadsRun(s: Queue, n: nat)
    requires Inv(s) && Up(s) && s.reader == NoReader && !s.fifo.overflow && n <= s.fifo.queued
    ensures PossibleRun(s, Reads(n)) && Run(s, Reads(n)) == ReadMany(s, n)
    decreases n
  {
    if n > 0 {
      OneRead(s);
      NextReadable(s);
      ReadsRun(ReadOne(s), n - 1);
      RunThree(s, ReadEnter, ReadLoop, CopyDone(true), Reads(n - 1));
    }
  }

  /** Successive reads take the records that wait, the oldest first, and no mark comes between. */
  lemma ReadsTakeInOrder(s: Queue, n: nat)
    requires Inv(s) && Up(s) && s.reader == NoReader && !s.fifo.overflow && n <= s.fifo.queued
    ensures PossibleRun(s, Reads(n)) && TookFirst(s, Run(s, Reads(n)), n)
  {
    AllTaken(s, n);
    ReadsRun(s, n);
  }

  lemma LogJoin(log: seq<Mark>, base: nat, n: nat)
    requires n > 0
    ensures log + [Taken(base)] + TakenFrom(base + 1, n - 1) == log + TakenFrom(base, n)
  {
  }

  /** A reader that found nothing is woken by the next interrupt and copies its record. */
  lemma SleeperGetsRecord(s: Queue, r: Record)
    requires Inv(s) && Up(s) && s.irq == NoIrq && s.reader == Asleep && s.fifo.queued == 0 && !s.fifo.overflow
    ensures var evs := [IrqStart] + ([IrqFinish(r)] + ([WakeUp] + ([ReadLoop] + [])));
            && PossibleRun(s, evs)
            && Run(s, evs).reader == Copying(s.hist.base, r) && Run(s, evs).fifo.queued == 0
  {
    var t := Step(s, IrqStart);
    SamplesWhenUp(s);
    StoredIsQueued(t, r);
    var u := Step(t, IrqFinish(r));
    assert Queued(u) == [r] && |Queued(u)| == u.fifo.queued;
    ReaderStepKeepsInv(u, WakeUp);
    var v := Step(u, WakeUp);
    assert Queued(v) == Queued(u);
    ReadGetsOldest(v);
    RunFirst(v, ReadLoop, []);
    RunFirst(u, WakeUp, [ReadLoop] + []);
    RunFirst(t, IrqFinish(r), [WakeUp] + ([ReadLoop] + []));
    RunFirst(s, IrqStart, [IrqFinish(r)] + ([WakeUp] + ([ReadLoop] + [])));
  }

  /** An overflow is what the next read reports, once; the records stored since are still there. */
  lemma OverflowReportedOnce(s: Queue)
    requires Inv(s) && Up(s) && s.reader == Looping && s.fifo.overflow
    ensures var t := Step(s, ReadLoop);
            && ReadOutcome(s.fifo, s.flags) == NoBufs
            && Inv(t) && t.reader == NoReader && !t.fifo.overflow && Queued(t) == Queued(s)
            && t.hist.log == s.hist.log + [Overflowed]
  {
    ReadKeepsInv(s);
  }

  // ---------------------------------------------------------------- flush, suspend, remove

  /** A flush, and the end of a suspend or a removal, leave no record and no overflow behind. */
  lemma NothingIsLeft(s: Queue, ev: Event)
    requires Inv(s) && MayHappen(s, ev) && (ev.FlushLocked? || ev.SuspendEnd? || ev.RemoveEnd?)
    ensures var t := Step(s, ev);
            && Inv(t) && Queued(t) == [] && t.fifo.bytes == [] && !t.fifo.overflow
            && t.hist.base == |t.hist.produced|
            && (t.fifo.ready <==> s.fifo.ready && !ev.RemoveEnd?)
  {
    FlushKeepsInv(s, ev);
  }

  /** A suspend and a resume with no interrupt under way: an empty queue, and all else as before. */
  lemma SuspendThenResume(s: Queue)
    requires Inv(s) && Up(s) && s.irq == NoIrq
    ensures var evs := [SuspendBegin] + ([SuspendIrqOff] + ([SuspendEnd] + ([Resume] + [])));
            && PossibleRun(s, evs)
            && var t := Run(s, evs);
            && Inv(t) && Queued(t) == [] && !t.fifo.overflow && t.flags == s.flags && t.pm == NoPm
            && t.reader == s.reader && t.hist.produced == s.hist.produced
  {
    var t := Step(s, SuspendBegin);
    PowerStepKeepsInv(s, SuspendBegin);
    var u := Step(t, SuspendIrqOff);
    PowerStepKeepsInv(t, SuspendIrqOff);
    var v := Step(u, SuspendEnd);
    NothingIsLeft(u, SuspendEnd);
    PowerStepKeepsInv(v, Resume);
    RunFirst(v, Resume, []);
    RunFirst(u, SuspendEnd, [Resume] + []);
    RunFirst(t, SuspendIrqOff, [SuspendEnd] + ([Resume] + []));
    RunFirst(s, SuspendBegin, [SuspendIrqOff] + ([SuspendEnd] + ([Resume] + [])));
  }

  /** No record is handed out while the device is suspended, or once it is removed. */
  lemma NothingTakenWhenDown(s: Queue)
    requires Inv(s) && s.reader == Looping && (s.flags.suspended || s.flags.removed)
    ensures var t := Step(s, ReadLoop);
            t.reader == NoReader && t.hist == s.hist && t.fifo == s.fifo
            && ReadOutcome(s.fifo, s.flags) == if s.flags.removed then NoDevice else HostDown
  {
  }
}
