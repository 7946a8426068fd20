/** SPI transfers that are cut into pieces no longer than the kernel's buffer. */
module SpiTransfer {
  import opened Common

  type Bytes = seq<byte>

  /** The block size is read from the kernel and capped, and is never zero. */
  const MAX_BLOCK: int := 0xFFFF
  const TWO_63: int := 0x8000_0000_0000_0000

  datatype Segment = Segment(offset: nat, length: nat)

  /** One ioctl: an optional write, then an optional read, by position in the buffers. */
  datatype Message = Message(tx: Option<Segment>, rx: Option<Segment>)

  datatype Outcome = Done | InvalidArgument | IoctlFailed

  function Length(s: Option<Segment>): nat {
    if s.Some? then s.value.length else 0
  }

  function TxTotal(log: seq<Message>): nat {
    if log == [] then 0 else TxTotal(log[..|log| - 1]) + Length(log[|log| - 1].tx)
  }

  function RxTotal(log: seq<Message>): nat {
    if log == [] then 0 else RxTotal(log[..|log| - 1]) + Length(log[|log| - 1].rx)
  }

  /** A segment continues where the earlier ones of its direction stopped. */
  predicate Continues(s: Option<Segment>, at: nat, block: nat) {
    s.Some? ==> s.value.offset == at && 0 < s.value.length <= block
  }

  /**
   Every message moves something, continues both directions without gap or overlap, respects
   the block size in each direction, and reads only once all `lengthWr` bytes are written.
   */
  predicate Tiles(log: seq<Message>, block: nat, lengthWr: nat) {
    log == [] ||
    var before, m := log[..|log| - 1], log[|log| - 1];
    && Tiles(before, block, lengthWr)
    && Follows(m, TxTotal(before), RxTotal(before), block, lengthWr)
  }

  predicate Follows(m: Message, tx: nat, rx: nat, block: nat, lengthWr: nat) {
    && (m.tx.Some? || m.rx.Some?)
    && Continues(m.tx, tx, block)
    && Continues(m.rx, rx, block)
    && (m.rx.Some? ==> tx + Length(m.tx) == lengthWr)
  }

  lemma TilesExtend(log: seq<Message>, m: Message, block: nat, lengthWr: nat)
    requires Tiles(log, block, lengthWr) && Follows(m, TxTotal(log), RxTotal(log), block, lengthWr)
    ensures Tiles(log + [m], block, lengthWr)
    ensures TxTotal(log + [m]) == TxTotal(log) + Length(m.tx)
    ensures RxTotal(log + [m]) == RxTotal(log) + Length(m.rx)
  {
    assert (log + [m])[..|log|] == log;
  }

  /** The log of a transfer that has moved `done` of its bytes. */
  predicate Progress(log: seq<Message>, done: nat, block: nat, lengthWr: nat) {
    && TxTotal(log) == Min(done, lengthWr)
    && RxTotal(log) == Max(done - lengthWr, 0)
    && Tiles(log, block, lengthWr)
  }

  /** The message that continues a transfer at byte `done`. */
  predicate IsNext(m: Message, done: nat, block: nat, lengthWr: nat, lengthRd: nat) {
    && m.tx == (if done < lengthWr then Some(Segment(done, Min(block, lengthWr - done))) else None)
    && m.rx == (if lengthWr <= done + Length(m.tx) < lengthWr + lengthRd && Length(m.tx) < block
                then var at := done + Length(m.tx) - lengthWr; Some(Segment(at, Min(block, lengthRd - at)))
                else None)
  }

  lemma ProgressStep(log: seq<Message>, m: Message, done: nat, block: nat, lengthWr: nat, lengthRd: nat)
    requires 0 < block && done < lengthWr + lengthRd
    requires Progress(log, done, block, lengthWr) && IsNext(m, done, block, lengthWr, lengthRd)
    ensures m.tx.Some? || m.rx.Some?
    ensures m.tx.Some? ==> m.tx.value.offset == TxTotal(log) && TxTotal(log) + m.tx.value.length <= lengthWr
    ensures m.rx.Some? ==> m.rx.value.offset == RxTotal(log) && RxTotal(log) + m.rx.value.length <= lengthRd
    ensures done < done + Length(m.tx) + Length(m.rx) <= lengthWr + lengthRd
    ensures Progress(log + [m], done + Length(m.tx) + Length(m.rx), block, lengthWr)
    ensures TxTotal(log + [m]) == TxTotal(log) + Length(m.tx)
    ensures RxTotal(log + [m]) == RxTotal(log) + Length(m.rx)
  {
    TilesExtend(log, m, block, lengthWr);
  }

  /** An unsigned difference that is negative wraps beyond every signed length. */
  lemma UnsignedDifference(x: nat, y: nat)
    requires x < TWO_64 && y < TWO_63
    ensures x >= y ==> U64(x - y) == x - y
    ensures x < y ==> U64(x - y) >= TWO_63
  {
  }

  /** Size arithmetic of the source; sums that fit are exact. */
  method AddSize(x: nat, y: nat) returns (r: nat)
    ensures x + y < TWO_64 ==> r == x + y
  {
    r := U64(x + y);
  }

  function Zeros(n: nat): (r: Bytes)
    ensures |r| == n
  {
    if n == 0 then [] else Zeros(n - 1) + [0]
  }

  /** The bytes of the write buffer that a segment names. */
  function Part(wr: Bytes, s: Option<Segment>): Bytes
    requires s.Some? ==> s.value.offset + s.value.length <= |wr|
  {
    if s.None? then [] else wr[s.value.offset..s.value.offset + s.value.length]
  }

  /** What a log of writes sends, message after message. */
  function Sends(wr: Bytes, log: seq<Message>, block: nat, lengthWr: nat): Bytes
    requires Tiles(log, block, lengthWr) && TxTotal(log) <= |wr|
  {
    if log == [] then []
    else Sends(wr, log[..|log| - 1], block, lengthWr) + Part(wr, log[|log| - 1].tx)
  }

  /** A tiling log sends each byte of the buffer once and in order. */
  lemma {:induction false} TilesPartition(wr: Bytes, log: seq<Message>, block: nat, lengthWr: nat)
    requires Tiles(log, block, lengthWr) && TxTotal(log) <= |wr|
    ensures Sends(wr, log, block, lengthWr) == wr[..TxTotal(log)]
    decreases |log|
  {
    if log != [] {
      TilesPartition(wr, log[..|log| - 1], block, lengthWr);
    }
  }

  /** Once a message has read, every later message only reads. */
  lemma {:induction false} NoWriteAfterRead(log: seq<Message>, block: nat, lengthWr: nat, k: nat)
    requires Tiles(log, block, lengthWr) && TxTotal(log) <= lengthWr
    requires k < |log| && log[k].rx.Some?
    ensures TxTotal(log) == lengthWr
    ensures forall j :: k < j < |log| ==> log[j].tx.None?
    decreases |log|
  {
    var n := |log| - 1;
    if k < n {
      NoWriteAfterRead(log[..n], block, lengthWr, k);
      forall j | k < j < |log|
        ensures log[j].tx.None?
      {
        assert j < n ==> log[j] == log[..n][j];
      }
    }
  }

  /** A stream that held `base` has since been extended by the first `n` bytes of a buffer. */
  predicate Moved(stream: Bytes, base: Bytes, buffer: Bytes, n: nat) {
    n <= |buffer| && stream == base + buffer[..n]
  }

  lemma MovedOn(stream: Bytes, more: Bytes, base: Bytes, was: Bytes, now: Bytes, n: nat, k: nat)
    requires Moved(stream, base, was, n) && n + k <= |now| && was[..n] == now[..n]
    requires more == stream + now[n..n + k]
    ensures Moved(more, base, now, n + k)
  {
    assert now[..n] + now[n..n + k] == now[..n + k];
  }

  /** After `done` bytes, both directions are exactly where that count says. */
  ghost predicate Reached(log: seq<Message>, done: nat, block: nat, wr: Bytes, rd: Bytes,
                          sent: Bytes, answered: Bytes, sent0: Bytes, answered0: Bytes) {
    && done <= |wr| + |rd|
    && Progress(log, done, block, |wr|)
    && Moved(sent, sent0, wr, TxTotal(log))
    && Moved(answered, answered0, rd, RxTotal(log))
  }

  lemma NextInBounds(log: seq<Message>, m: Message, done: nat, block: nat, wr: Bytes, rd: Bytes,
                     sent: Bytes, answered: Bytes, sent0: Bytes, answered0: Bytes)
    requires Reached(log, done, block, wr, rd, sent, answered, sent0, answered0)
    requires 0 < block && done < |wr| + |rd| && IsNext(m, done, block, |wr|, |rd|)
    ensures m.tx.Some? ==> m.tx.value.offset == TxTotal(log)
    ensures m.rx.Some? ==> m.rx.value.offset == RxTotal(log)
    ensures TxTotal(log) + Length(m.tx) <= |wr| && RxTotal(log) + Length(m.rx) <= |rd|
    ensures done < done + Length(m.tx) + Length(m.rx) <= |wr| + |rd|
  {
    ProgressStep(log, m, done, block, |wr|, |rd|);
  }

  lemma ReachedNext(log: seq<Message>, m: Message, done: nat, block: nat, wr: Bytes, was: Bytes, now: Bytes,
                    sent: Bytes, answered: Bytes, more: Bytes, moreAnswered: Bytes, sent0: Bytes, answered0: Bytes)
    requires Reached(log, done, block, wr, was, sent, answered, sent0, answered0)
    requires 0 < block && done < |wr| + |was| && |now| == |was| && IsNext(m, done, block, |wr|, |was|)
    requires TxTotal(log) + Length(m.tx) <= |wr| && RxTotal(log) + Length(m.rx) <= |was|
    requires now[..RxTotal(log)] == was[..RxTotal(log)]
    requires more == sent + wr[TxTotal(log)..TxTotal(log) + Length(m.tx)]
    requires moreAnswered == answered + now[RxTotal(log)..RxTotal(log) + Length(m.rx)]
    ensures Reached(log + [m], done + Length(m.tx) + Length(m.rx), block, wr, now,
                    more, moreAnswered, sent0, answered0)
  {
    ProgressStep(log, m, done, block, |wr|, |was|);
    MovedOn(sent, more, sent0, wr, wr, TxTotal(log), Length(m.tx));
    MovedOn(answered, moreAnswered, answered0, was, now, RxTotal(log), Length(m.rx));
  }

  /**
   The spidev node: what the peripheral was sent, what it answered, the ioctls that succeeded.
   The kernel and the peripheral decide the status and the answers; an ioctl that fails moves
   nothing, and none may follow it.
   */
  class Spidev {
    var sent: Bytes
    var answered: Bytes
    var log: seq<Message>
    var failed: bool

    constructor ()
      ensures sent == [] && answered == [] && log == [] && !failed
    {
      sent, answered, log, failed := [], [], [], false;
    }

    method Ioctl(wr: Bytes, rd: array<byte>, m: Message) returns (r: int)
      requires !failed
      requires m.tx.Some? ==> m.tx.value.offset + m.tx.value.length <= |wr|
      requires m.rx.Some? ==> m.rx.value.offset + m.rx.value.length <= rd.Length
      modifies this, rd
      ensures failed == (r < 0)
      ensures r < 0 ==>
                && sent == old(sent) && answered == old(answered) && log == old(log)
                && rd[..] == old(rd[..])
      ensures r >= 0 ==> sent == old(sent) + Part(wr, m.tx) && log == old(log) + [m]
      ensures r >= 0 && m.rx.None? ==> answered == old(answered) && rd[..] == old(rd[..])
      ensures r >= 0 && m.rx.Some? ==>
                var s := m.rx.value;
                && rd[..s.offset] == old(rd[..s.offset])
                && answered == old(answered) + rd[s.offset..s.offset + s.length]
                && rd[s.offset + s.length..] == old(rd[s.offset + s.length..])
    {
      r := *;
      failed := r < 0;
      if !failed {
        sent, log := sent + Part(wr, m.tx), log + [m];
        if m.rx.Some? {
          var s := m.rx.value;
          assert |Zeros(s.length)| == s.length;
          var answer: Bytes :| |answer| == s.length;
          forall i | 0 <= i < s.length {
            rd[s.offset + i] := answer[i];
          }
          answered := answered + answer;
        }
      }
    }
  }

  class FpiSpiTransfer {
    const blockSize: nat
    const bufferWr: Option<Bytes>
    const bufferRd: array?<byte>

    constructor (blockSize: nat, bufferWr: Option<Bytes>, bufferRd: array?<byte>)
      ensures this.blockSize == blockSize && this.bufferWr == bufferWr && this.bufferRd == bufferRd
    {
      this.blockSize, this.bufferWr, this.bufferRd := blockSize, bufferWr, bufferRd;
    }

    /** Both lengths are signed in the source, so their sum stays below 2^64. */
    ghost predicate Valid() {
      0 < blockSize <= MAX_BLOCK && LengthWr() < TWO_63 && LengthRd() < TWO_63
    }

    function Payload(): Bytes {
      if bufferWr.Some? then bufferWr.value else []
    }

    function LengthWr(): nat {
      |Payload()|
    }

    ghost function ReadBack(): Bytes
      reads bufferRd
    {
      if bufferRd != null then bufferRd[..] else []
    }

    function LengthRd(): nat {
      if bufferRd != null then bufferRd.Length else 0
    }

    ghost predicate At(dev: Spidev, done: nat, sent0: Bytes, answered0: Bytes)
      reads dev, bufferRd
    {
      Reached(dev.log, done, blockSize, Payload(), ReadBack(), dev.sent, dev.answered, sent0, answered0)
    }

    /** One ioctl on the transfer's buffers; a missing read buffer is never named by a segment. */
    method Submit(dev: Spidev, m: Message, ghost tx: nat, ghost rx: nat) returns (r: int)
      requires !dev.failed && tx <= LengthWr() && rx <= LengthRd()
      requires m.tx.Some? ==> m.tx.value.offset == tx && tx + m.tx.value.length <= LengthWr()
      requires m.rx.Some? ==> m.rx.value.offset == rx && rx + m.rx.value.length <= LengthRd()
      modifies dev, bufferRd
      ensures dev.failed == (r < 0)
      ensures r < 0 ==>
                && dev.sent == old(dev.sent) && dev.answered == old(dev.answered) && dev.log == old(dev.log)
                && ReadBack() == old(ReadBack())
      ensures r >= 0 ==>
                && dev.sent == old(dev.sent) + Payload()[tx..tx + Length(m.tx)]
                && dev.log == old(dev.log) + [m]
                && ReadBack()[..rx] == old(ReadBack()[..rx])
                && dev.answered == old(dev.answered) + ReadBack()[rx..rx + Length(m.rx)]
    {
      if bufferRd == null {
        var none := new byte[0];
        r := dev.Ioctl(Payload(), none, m);
      } else {
        r := dev.Ioctl(Payload(), bufferRd, m);
        if r >= 0 && m.rx.None? {
          assert bufferRd[..rx] == bufferRd[..][..rx];
        }
      }
    }

    /**
     The segments of the next ioctl, with the source's unsigned arithmetic: after an unfinished
     write, `skip` wraps to a value no read length reaches.
     */
    method NextMessage(transferred: nat) returns (m: Message, moved: nat)
      requires Valid() && transferred < LengthWr() + LengthRd()
      ensures IsNext(m, transferred, blockSize, LengthWr(), LengthRd())
      ensures m.tx.Some? || m.rx.Some?
      ensures moved == Length(m.tx) + Length(m.rx)
    {
      m := Message(None, None);
      var skip, len := transferred, 0;
      var transfers := 0;
      if bufferWr.Some? {
        if skip < |bufferWr.value| && len < blockSize {
          m := m.(tx := Some(Segment(skip, Min(blockSize, |bufferWr.value| - skip))));
          len := AddSize(len, m.tx.value.length);
          skip := AddSize(skip, m.tx.value.length);
          transfers := transfers + 1;
        }
        UnsignedDifference(skip, |bufferWr.value|);
        skip := U64(skip - |bufferWr.value|);
      }
      if bufferRd != null {
        if skip < bufferRd.Length && len < blockSize {
          m := m.(rx := Some(Segment(skip, Min(blockSize, bufferRd.Length - skip))));
          len := AddSize(len, m.rx.value.length);
          transfers := transfers + 1;
        }
      }
      assert transfers > 0;
      moved := len;
    }

    method TransferChunk(dev: Spidev, transferred: nat, ghost sent0: Bytes, ghost answered0: Bytes)
      returns (status: int, transferred': nat)
      requires Valid() && transferred < LengthWr() + LengthRd()
      requires !dev.failed && At(dev, transferred, sent0, answered0)
      modifies dev, bufferRd
      ensures At(dev, transferred', sent0, answered0)
      ensures dev.failed == (status < 0)
      ensures if status >= 0 then transferred < transferred' else transferred' == transferred
    {
      var m, moved := NextMessage(transferred);
      ghost var log, sent, answered, was := dev.log, dev.sent, dev.answered, ReadBack();
      NextInBounds(log, m, transferred, blockSize, Payload(), was, sent, answered, sent0, answered0);
      var next := AddSize(transferred, moved);
      status := Submit(dev, m, TxTotal(log), RxTotal(log));
      if status < 0 {
        return status, transferred;
      }
      transferred' := next;
      ReachedNext(log, m, transferred, blockSize, Payload(), was, ReadBack(),
                  sent, answered, dev.sent, dev.answered, sent0, answered0);
    }

    /**
     The transfer thread. When every ioctl succeeds it has sent exactly the write buffer and
     filled the read buffer with the peripheral's next bytes, as one unlimited transfer would;
     it ends with the first ioctl that fails.
     */
    method Run(dev: Spidev) returns (r: Outcome)
      requires Valid() && dev.log == [] && !dev.failed
      modifies dev, bufferRd
      ensures Tiles(dev.log, blockSize, LengthWr())
      ensures r == InvalidArgument <==> bufferWr.None? && bufferRd == null
      ensures r == IoctlFailed <==> dev.failed
      ensures r == Done ==> dev.sent == old(dev.sent) + Payload()
      ensures r == Done ==> dev.answered == old(dev.answered) + ReadBack()
      ensures r == Done ==> TxTotal(dev.log) == LengthWr() && RxTotal(dev.log) == LengthRd()
    {
      if bufferWr.None? && bufferRd == null {
        return InvalidArgument;
      }
      ghost var sent0, answered0 := dev.sent, dev.answered;
      var fullLength := 0;
      if bufferWr.Some? {
        fullLength := AddSize(fullLength, LengthWr());
      }
      if bufferRd != null {
        fullLength := AddSize(fullLength, LengthRd());
      }
      var transferred, status := 0, 0;
      while transferred < fullLength && status >= 0
        invariant At(dev, transferred, sent0, answered0)
        invariant dev.failed == (status < 0)
        decreases fullLength - transferred, if status >= 0 then 1 else 0
      {
        status, transferred := TransferChunk(dev, transferred, sent0, answered0);
      }
      assert status >= 0 ==> Payload()[..LengthWr()] == Payload() && ReadBack()[..LengthRd()] == ReadBack();
      r := if status < 0 then IoctlFailed else Done;
    }
  }

  // ---------------------------------------------------------------- the pieces

  /**
   No piece is shorter than need be: a write piece below the block size ends the write, a read
   piece below it ends the read, and the read begins at once where the last write piece is short.
   */
  lemma NoShortPieces(m: Message, done: nat, block: nat, lengthWr: nat, lengthRd: nat)
    requires 0 < block && done < lengthWr + lengthRd && IsNext(m, done, block, lengthWr, lengthRd)
    ensures m.tx.Some? <==> done < lengthWr
    ensures m.tx.Some? && m.tx.value.length < block ==> done + m.tx.value.length == lengthWr
    ensures m.rx.Some? && m.rx.value.length < block ==> done + Length(m.tx) + m.rx.value.length == lengthWr + lengthRd
    ensures m.rx.None? ==> Length(m.tx) == block || done + Length(m.tx) == lengthWr + lengthRd
  {
  }
}
