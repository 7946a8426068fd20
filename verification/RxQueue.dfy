/** The driver's receive side as an object; each method is one step of the specification. */
module RxQueue {
  import opened Common
  import Spec = RxQueueSpec

  class Gxfp {
    var rxFifo: seq<byte>
    var queuedRecords: int
    var rxFifoReady: bool
    var rxOverflow: bool
    var removed: bool
    var suspended: bool
    var irqEnabled: bool
    var irq: Spec.Irq
    ghost var reader: Spec.Reader
    ghost var pm: Spec.Pm
    ghost var flushers: nat
    ghost var hist: Spec.History

    ghost function State(): Spec.Queue
      reads this
    {
      Spec.Queue(Spec.Fifo(rxFifo, queuedRecords, rxFifoReady, rxOverflow),
                 Spec.Flags(removed, suspended, irqEnabled), irq, reader, pm, flushers, hist)
    }

    constructor ()
      ensures State() == Spec.INITIAL
    {
      rxFifo, queuedRecords, rxFifoReady, rxOverflow := [], 0, true, false;
      removed, suspended, irqEnabled := false, false, true;
      irq, reader, pm, flushers := Spec.NoIrq, Spec.NoReader, Spec.NoPm, 0;
      hist := Spec.History([], 0, []);
    }

    method ResetFifo()
      modifies this`rxFifo, this`queuedRecords
      ensures rxFifo == [] && queuedRecords == 0
    {
      rxFifo, queuedRecords := [], 0;
    }

    /** The interrupt thread looks at the flags before it reads the mailbox. */
    method IrqThreadBegin() returns (queue: bool)
      modifies this`irq
      ensures State() == Spec.Step(old(State()), Spec.IrqStart)
      ensures irq == Spec.Sampled(queue)
    {
      queue := !removed && !suspended;
      irq := Spec.Sampled(queue);
    }

    method IrqThreadEnd(queue: bool, header: seq<byte>, data: seq<byte>)
      requires |header| == Spec.HEADER_SIZE && |data| == Spec.RX_MAX
      requires irq == Spec.Sampled(queue)
      modifies this
      ensures State() == Spec.Step(old(State()), Spec.IrqFinish(header + data))
    {
      irq := Spec.NoIrq;
      hist := hist.(produced := hist.produced + [header + data]);
      if !queue {
        return;
      }
      if rxFifoReady && Spec.FIFO_SIZE - |rxFifo| >= Spec.RECORD_SIZE {
        rxFifo := rxFifo + header;
        rxFifo := rxFifo + data;
        assert rxFifo == old(rxFifo) + (header + data);
        queuedRecords := queuedRecords + 1;
      } else {
        rxOverflow := true;
        ResetFifo();
        hist := hist.(base := |hist.produced|);
      }
    }

    /** One pass of the read loop while the spin lock is held. */
    method ReadLocked() returns (r: Spec.ReadResult)
      requires Spec.Inv(State()) && reader == Spec.Looping
      modifies this
      ensures r == Spec.ReadOutcome(old(State()).fifo, old(State()).flags)
      ensures State() == Spec.ReadPass(old(State()))
    {
      Spec.ReadKeepsInv(State());
      reader := Spec.NoReader;
      if removed {
        return Spec.NoDevice;
      }
      if suspended {
        return Spec.HostDown;
      }
      if !rxFifoReady {
        return Spec.NoDevice;
      }
      if rxOverflow {
        rxOverflow := false;
        hist := hist.(log := hist.log + [Spec.Overflowed]);
        return Spec.NoBufs;
      }
      if queuedRecords > 0 {
        if |rxFifo| < Spec.RECORD_SIZE {
          assert false;
        }
        var data := rxFifo[..Spec.RECORD_SIZE];
        rxFifo := rxFifo[Spec.RECORD_SIZE..];
        queuedRecords := queuedRecords - 1;
        reader := Spec.Copying(hist.base, data);
        hist := hist.(base := hist.base + 1, log := hist.log + [Spec.Taken(hist.base)]);
        return Spec.Got(data);
      }
      reader := Spec.Asleep;
      return Spec.Sleeps;
    }

    method PollLocked() returns (mask: Spec.PollMask)
      ensures mask == Spec.Poll(State().fifo, State().flags)
    {
      if removed {
        mask := Spec.ErrorHangup;
      } else if suspended {
        mask := Spec.Error;
      } else if rxOverflow {
        mask := Spec.ReadableError;
      } else if rxFifoReady && queuedRecords > 0 {
        mask := Spec.Readable;
      } else {
        mask := Spec.Nothing;
      }
    }

    /** The test of a flush request, before it takes the lock. */
    method FlushTest() returns (ok: bool)
      modifies this`flushers
      ensures State() == Spec.Step(old(State()), Spec.FlushTest)
      ensures ok <==> !removed
    {
      if removed {
        return false;
      }
      flushers := flushers + 1;
      return true;
    }

    /** The rest of it under the lock, whatever happened in between. */
    method FlushLocked()
      requires flushers > 0
      modifies this
      ensures State() == Spec.Step(old(State()), Spec.FlushLocked)
    {
      if rxFifoReady {
        ResetFifo();
      }
      queuedRecords, rxOverflow := 0, false;
      flushers := flushers - 1;
      hist := hist.(base := |hist.produced|, log := hist.log + [Spec.Flushed]);
    }

    method SuspendBegin()
      requires Spec.MayHappen(State(), Spec.SuspendBegin)
      modifies this
      ensures State() == Spec.Step(old(State()), Spec.SuspendBegin)
    {
      if removed {
        return;
      }
      suspended := true;
      pm := Spec.SuspendWaits;
    }

    /** No interrupt thread is left once this returns. */
    method SuspendIrqOff()
      requires Spec.MayHappen(State(), Spec.SuspendIrqOff)
      modifies this`irqEnabled, this`pm
      ensures State() == Spec.Step(old(State()), Spec.SuspendIrqOff)
    {
      irqEnabled := false;
      pm := Spec.SuspendFlushes;
    }

    method SuspendEnd()
      requires Spec.Inv(State()) && Spec.MayHappen(State(), Spec.SuspendEnd)
      modifies this
      ensures State() == Spec.Step(old(State()), Spec.SuspendEnd)
    {
      if rxFifoReady {
        ResetFifo();
      }
      queuedRecords, rxOverflow := 0, false;
      pm := Spec.NoPm;
      hist := hist.(base := |hist.produced|, log := hist.log + [Spec.SuspendedMark]);
    }

    method Resume()
      requires Spec.MayHappen(State(), Spec.Resume)
      modifies this
      ensures State() == Spec.Step(old(State()), Spec.Resume)
    {
      if removed {
        return;
      }
      suspended, irqEnabled := false, true;
    }

    method RemoveBegin()
      modifies this`removed
      ensures State() == Spec.Step(old(State()), Spec.RemoveBegin)
    {
      removed := true;
    }

    method RemoveIrqOff()
      requires Spec.Inv(State()) && Spec.MayHappen(State(), Spec.RemoveIrqOff)
      modifies this`irqEnabled, this`pm
      ensures State() == Spec.Step(old(State()), Spec.RemoveIrqOff)
    {
      if !suspended {
        irqEnabled := false;
      }
      pm := Spec.RemoveFlushes;
    }

    method RemoveEnd()
      requires Spec.Inv(State()) && Spec.MayHappen(State(), Spec.RemoveEnd)
      modifies this
      ensures State() == Spec.Step(old(State()), Spec.RemoveEnd)
    {
      if rxFifoReady {
        ResetFifo();
      }
      queuedRecords, rxFifoReady, rxOverflow := 0, false, false;
      pm := Spec.NoPm;
      hist := hist.(base := |hist.produced|, log := hist.log + [Spec.RemovedMark]);
    }

    /** Where the reader is between its turns with the lock. */
    ghost method ReaderStep(ev: Spec.Event)
      requires ev.ReadEnter? || ev.WakeUp? || ev.Interrupt? || ev.CopyDone?
      modifies this`reader, this`hist
      ensures State() == Spec.Step(old(State()), ev)
    {
      reader := if ev.ReadEnter? || ev.WakeUp? then Spec.Looping else Spec.NoReader;
      if ev.CopyDone? && !ev.ok {
        hist := hist.(log := hist.log + [Spec.Faulted]);
      }
    }

    method IrqThreadFinish(r: Spec.Record)
      requires irq.Sampled?
      modifies this
      ensures State() == Spec.Step(old(State()), Spec.IrqFinish(r))
    {
      assert r[..Spec.HEADER_SIZE] + r[Spec.HEADER_SIZE..] == r;
      IrqThreadEnd(irq.queue, r[..Spec.HEADER_SIZE], r[Spec.HEADER_SIZE..]);
    }

    method PowerStep(ev: Spec.Event)
      requires Spec.Inv(State()) && Spec.MayHappen(State(), ev)
      requires Spec.PowerStep(ev) || ev.SuspendEnd? || ev.RemoveEnd?
      modifies this
      ensures State() == Spec.Step(old(State()), ev)
    {
      match ev {
        case SuspendBegin => SuspendBegin();
        case SuspendIrqOff => SuspendIrqOff();
        case SuspendEnd => SuspendEnd();
        case Resume => Resume();
        case RemoveBegin => RemoveBegin();
        case RemoveIrqOff => RemoveIrqOff();
        case RemoveEnd => RemoveEnd();
      }
    }

    /** Any event of a run, by whichever thread: the object keeps the invariant. */
    method Handle(ev: Spec.Event)
      requires Spec.Inv(State()) && Spec.MayHappen(State(), ev)
      modifies this
      ensures State() == Spec.Step(old(State()), ev) && Spec.Inv(State())
    {
      Spec.StepKeepsInv(State(), ev);
      match ev {
        case IrqStart => var _ := IrqThreadBegin();
        case IrqFinish(r) => IrqThreadFinish(r);
        case ReadLoop => var _ := ReadLocked();
        case FlushTest => var _ := FlushTest();
        case FlushLocked => FlushLocked();
        case ReadEnter => ReaderStep(ev);
        case WakeUp => ReaderStep(ev);
        case Interrupt => ReaderStep(ev);
        case CopyDone(_) => ReaderStep(ev);
        case SuspendBegin => PowerStep(ev);
        case SuspendIrqOff => PowerStep(ev);
        case SuspendEnd => PowerStep(ev);
        case Resume => PowerStep(ev);
        case RemoveBegin => PowerStep(ev);
        case RemoveIrqOff => PowerStep(ev);
        case RemoveEnd => PowerStep(ev);
      }
    }
  }

  /** Open files and the binding of the driver each hold one reference; the last one frees. */
  class Lifetime {
    var fileOpen: bool
    var removed: bool
    var bound: bool
    var refs: int
    var freed: bool

    ghost predicate Valid()
      reads this
    {
      && refs == (if fileOpen then 1 else 0) + (if bound then 1 else 0)
      && (freed <==> refs == 0)
      && (!bound ==> removed)
    }

    constructor ()
      ensures Valid() && bound && !fileOpen && !removed && !freed
    {
      fileOpen, removed, bound, refs, freed := false, false, true, 1, false;
    }

    /** At most one file is open, none is opened after removal, and only with the capability for raw I/O. */
    method Open(capable: bool) returns (ok: bool)
      requires Valid() && !freed
      modifies this
      ensures Valid() && !freed
      ensures ok == (capable && !old(removed) && !old(fileOpen))
      ensures fileOpen == (old(fileOpen) || ok) && removed == old(removed) && bound == old(bound)
    {
      if !capable || removed || fileOpen {
        return false;
      }
      fileOpen, refs := true, refs + 1;
      return true;
    }

    method Remove()
      requires Valid()
      modifies this`removed
      ensures Valid() && removed
    {
      removed := true;
    }

    method Put()
      requires refs > 0
      modifies this`refs, this`freed
      ensures refs == old(refs) - 1 && freed == (old(freed) || refs == 0)
    {
      refs := refs - 1;
      if refs == 0 {
        freed := true;
      }
    }

    /** Closing frees the device exactly if the driver has already let go. */
    method Release()
      requires Valid() && fileOpen
      modifies this
      ensures Valid() && !fileOpen && bound == old(bound) && removed == old(removed)
      ensures freed == !bound
    {
      fileOpen := false;
      Put();
    }

    /** Unbinding after removal frees the device exactly if no file is open. */
    method Unbind()
      requires Valid() && bound && removed
      modifies this
      ensures Valid() && !bound && fileOpen == old(fileOpen) && removed
      ensures freed == !fileOpen
    {
      bound := false;
      Put();
    }
  }
}
