/** Reassembling a message-protocol frame from the records the kernel queue delivers. */
module Reassembly {
  import opened Common
  import opened Framing

  const CHUNK_MAX: int := 0xE00
  const TAP_HEADER_SIZE: int := 40

  /** A record as read from the device; `data` holds its `len` valid bytes. */
  datatype Record = Record(reserved: nat, data: Bytes)

  /** What one read of the device yields. */
  datatype ReadEvent = Timeout | Failed(error: Errno) | Read(record: Record)

  datatype Frame = Frame(frameType: int, payload: Bytes, head16: Bytes)

  predicate GoodRecord(r: Record) {
    r.reserved == 0 && 0 < |r.data| <= CHUNK_MAX
  }

  function RxChunk(remain: nat): nat {
    if remain < CHUNK_MAX then remain else CHUNK_MAX
  }

  // ---------------------------------------------------------------- what reassembly means

  /** The outcome of asking for one record. */
  function Chunk(e: ReadEvent): Result<Record> {
    match e
    case Timeout => Err(TryAgain)
    case Failed(error) => Err(error)
    case Read(r) => if GoodRecord(r) then Ok(r) else Err(BadMessage)
  }

  /** The bytes collected from records until there are `total`, starting with `got`. */
  function Collect(got: Bytes, total: nat, events: seq<ReadEvent>): Result<Bytes>
    requires |got| <= total
    decreases |events|
  {
    if |got| == total then Ok(got)
    else if events == [] then Err(TryAgain)
    else
      var c := Chunk(events[0]);
      if c.Err? then Err(c.error)
      else Collect(got + c.value.data[..Min(total - |got|, |c.value.data|)], total, events[1..])
  }

  function FrameOf(frame: Bytes): Frame
    requires |frame| >= 4
  {
    var payload := frame[4..];
    Frame(frame[0] / 16, payload, payload[..Min(|payload|, 16)])
  }

  /** The result of one reassembly over the events that follow. */
  function Assembled(events: seq<ReadEvent>, bufCap: nat): Result<Frame> {
    if bufCap < TAP_HEADER_SIZE + CHUNK_MAX then Err(MessageSize)
    else if events == [] then Err(TryAgain)
    else
      var c := Chunk(events[0]);
      if c.Err? then Err(c.error)
      else
        var n := CheckHead(c.value.data);
        if n.None? then Err(TryAgain)
        else if 4 + n.value > bufCap - TAP_HEADER_SIZE then Err(MessageSize)
        else
          var total := 4 + n.value;
          var bytes := Collect(c.value.data[..Min(total, |c.value.data|)], total, events[1..]);
          CollectLength(c.value.data[..Min(total, |c.value.data|)], total, events[1..]);
          if bytes.Err? then Err(bytes.error) else Ok(FrameOf(bytes.value))
  }

  lemma {:induction false} CollectLength(got: Bytes, total: nat, events: seq<ReadEvent>)
    requires |got| <= total
    ensures Collect(got, total, events).Ok? ==> |Collect(got, total, events).value| == total
    decreases |events|
  {
    if |got| < total && events != [] && Chunk(events[0]).Ok? {
      var data := Chunk(events[0]).value.data;
      CollectLength(got + data[..Min(total - |got|, |data|)], total, events[1..]);
    }
  }

  // ---------------------------------------------------------------- the method

  method Store(frame: array<byte>, at: nat, b: Bytes)
    requires at + |b| <= frame.Length
    modifies frame
    ensures frame[..at + |b|] == old(frame[..at]) + b
  {
    forall i | 0 <= i < |b| {
      frame[at + i] := b[i];
    }
    assert frame[..at] == old(frame[..at]) && frame[at..at + |b|] == b;
  }

  method ReadChunk(e: ReadEvent) returns (r: Result<Record>)
    ensures r == Chunk(e)
  {
    match e {
      case Timeout => return Err(TryAgain);
      case Failed(error) => return Err(error);
      case Read(record) =>
        if record.reserved != 0 || |record.data| == 0 || |record.data| > CHUNK_MAX {
          return Err(BadMessage);
        }
        return Ok(record);
    }
  }

  /** The loop that copies records behind what has been collected. */
  method CollectChunks(frame: array<byte>, copied0: nat, total: nat, events: seq<ReadEvent>)
    returns (r: Result<nat>)
    requires copied0 <= total <= frame.Length
    modifies frame
    ensures var spec := Collect(old(frame[..copied0]), total, events);
            if spec.Err? then r == Err(spec.error) else r == Ok(total) && frame[..total] == spec.value
  {
    var copied, k := copied0, 0;
    ghost var spec := Collect(frame[..copied0], total, events);
    assert events[0..] == events;
    while copied < total
      invariant 0 <= copied <= total && 0 <= k <= |events|
      invariant spec == Collect(frame[..copied], total, events[k..])
      decreases |events| - k
    {
      var chunk := RxChunk(total - copied);
      if k == |events| {
        return Err(TryAgain);
      }
      assert events[k..][0] == events[k] && events[k..][1..] == events[k + 1..];
      var c := ReadChunk(events[k]);
      if c.Err? {
        return Err(c.error);
      }
      if chunk > |c.value.data| {
        chunk := |c.value.data|;
      }
      Store(frame, copied, c.value.data[..chunk]);
      copied, k := copied + chunk, k + 1;
    }
    return Ok(total);
  }

  /** The first record, cut to what the frame needs. */
  method CopyFirst(frame: array<byte>, data: Bytes, total: nat) returns (copied: nat)
    requires |data| <= CHUNK_MAX && total <= frame.Length
    modifies frame
    ensures copied == Min(total, |data|) && frame[..copied] == data[..copied]
  {
    copied := RxChunk(total);
    if copied > |data| {
      copied := |data|;
    }
    Store(frame, 0, data[..copied]);
  }

  /** gxfp_rx_assemble: everything is copied inside a buffer of the caller's capacity. */
  method RxAssemble(events: seq<ReadEvent>, bufCap: nat) returns (r: Result<Frame>)
    ensures r == Assembled(events, bufCap)
  {
    if bufCap < TAP_HEADER_SIZE + CHUNK_MAX {
      return Err(MessageSize);
    }
    if events == [] {
      return Err(TryAgain);
    }
    var frame := new byte[bufCap - TAP_HEADER_SIZE](_ => 0);
    var c := ReadChunk(events[0]);
    if c.Err? {
      return Err(c.error);
    }
    var data := c.value.data;
    var n := CheckHead(data);
    if n.None? {
      return Err(TryAgain);
    }
    var total := 4 + n.value;
    if total > bufCap - TAP_HEADER_SIZE {
      return Err(MessageSize);
    }
    var copied := CopyFirst(frame, data, total);
    var rest := CollectChunks(frame, copied, total, events[1..]);
    if rest.Err? {
      return Err(rest.error);
    }
    return Ok(FrameOf(frame[..total]));
  }

  // ---------------------------------------------------------------- round trip

  /** Good records, one read each. */
  predicate Delivered(events: seq<ReadEvent>) {
    forall i :: 0 <= i < |events| ==> events[i].Read? && GoodRecord(events[i].record)
  }

  function Concat(events: seq<ReadEvent>): Bytes
    requires Delivered(events)
  {
    if events == [] then [] else events[0].record.data + Concat(events[1..])
  }

  /** Collecting takes the first bytes of the stream, however it is cut. */
  lemma {:induction false} CollectTakesPrefix(got: Bytes, total: nat, events: seq<ReadEvent>)
    requires |got| <= total && Delivered(events)
    ensures Collect(got, total, events)
         == if |got| + |Concat(events)| >= total then Ok((got + Concat(events))[..total]) else Err(TryAgain)
    decreases |events|
  {
    if |got| == total {
      assert (got + Concat(events))[..total] == got;
    } else if events != [] {
      var data := events[0].record.data;
      var others := Concat(events[1..]);
      var take := Min(total - |got|, |data|);
      assert Chunk(events[0]) == Ok(events[0].record);
      CollectTakesPrefix(got + data[..take], total, events[1..]);
      assert got + (data + others) == (got + data) + others;
      if take == |data| {
        assert data[..take] == data;
      } else {
        assert (got + data[..take] + others)[..total] == got + data[..take];
        assert (got + (data + others))[..total] == got + data[..take];
      }
    }
  }

  /** The first `total` bytes of a stream that opens with a frame are the frame. */
  lemma CollectsTheFrame(frame: Bytes, events: seq<ReadEvent>)
    requires Delivered(events) && events != [] && frame <= Concat(events)
    ensures var data := events[0].record.data;
            Collect(data[..Min(|frame|, |data|)], |frame|, events[1..]) == Ok(frame)
  {
    var data := events[0].record.data;
    var take := Min(|frame|, |data|);
    var others := Concat(events[1..]);
    CollectTakesPrefix(data[..take], |frame|, events[1..]);
    assert frame == Concat(events)[..|frame|] == (data + others)[..|frame|];
    if take == |data| {
      assert data[..take] == data;
    } else {
      assert data[..take] == (data + others)[..take];
      assert (data[..take] + others)[..|frame|] == frame;
    }
  }

  lemma HeadOfStream(frame: Bytes, events: seq<ReadEvent>)
    requires Delivered(events) && events != [] && frame <= Concat(events)
    requires |frame| >= 4 && |events[0].record.data| >= 4
    ensures CheckHead(events[0].record.data) == CheckHead(frame)
  {
    var data := events[0].record.data;
    assert data[..4] == (data + Concat(events[1..]))[..4] == Concat(events)[..4] == frame[..4];
    SameHead(data, frame);
  }

  lemma FrameOfBuilt(mpType: int, payload: Bytes)
    requires TypeValid(mpType) && |payload| < MP_LEN_MAX
    ensures CheckHead(MpFrame(mpType, payload)) == Some(|payload|)
    ensures FrameOf(MpFrame(mpType, payload)) == Frame(mpType, payload, payload[..Min(|payload|, 16)])
  {
    var frame := MpFrame(mpType, payload);
    BuiltHeadIsAccepted(mpType, payload, []);
    assert frame + [] == frame;
    assert frame[4..] == payload;
  }

  /**
   However a built frame, and whatever follows it, is cut into records, its type and payload
   come back exactly if the first record holds the whole head.
   */
  lemma FrameRoundTrip(mpType: int, payload: Bytes, events: seq<ReadEvent>, bufCap: nat)
    requires TypeValid(mpType) && |payload| < MP_LEN_MAX
    requires Delivered(events) && events != []
    requires MpFrame(mpType, payload) <= Concat(events)
    requires bufCap >= TAP_HEADER_SIZE + CHUNK_MAX && bufCap >= TAP_HEADER_SIZE + 4 + |payload|
    ensures Assembled(events, bufCap)
         == if |events[0].record.data| >= 4 then Ok(Frame(mpType, payload, payload[..Min(|payload|, 16)]))
            else Err(TryAgain)
  {
    var frame := MpFrame(mpType, payload);
    assert Chunk(events[0]) == Ok(events[0].record);
    FrameOfBuilt(mpType, payload);
    CollectsTheFrame(frame, events);
    if |events[0].record.data| >= 4 {
      HeadOfStream(frame, events);
    }
  }

  lemma SameHead(a: Bytes, b: Bytes)
    requires |a| >= 4 && |b| >= 4 && a[..4] == b[..4]
    ensures CheckHead(a) == CheckHead(b)
  {
    assert forall i :: 0 <= i < 4 ==> a[i] == a[..4][i] && b[i] == b[..4][i];
  }

  // ---------------------------------------------------------------- errors

  /** A read that yields no good record, and the error that ends the reassembly. */
  predicate FailsWith(e: ReadEvent, error: Errno) {
    match e
    case Timeout => error == TryAgain
    case Failed(cause) => error == cause
    case Read(r) => error == BadMessage && (r.reserved != 0 || r.data == [] || |r.data| > 0xE00)
  }

  /** Collecting stops at the first read that fails, with its error, unless it was done before. */
  lemma {:induction false} CollectStopsAt(got: Bytes, total: nat, good: seq<ReadEvent>, bad: ReadEvent,
                                          rest: seq<ReadEvent>, error: Errno)
    requires Delivered(good) && |got| + |Concat(good)| < total && FailsWith(bad, error)
    ensures Collect(got, total, good + [bad] + rest) == Err(error)
    decreases |good|
  {
    var all := good + [bad] + rest;
    if good == [] {
      assert all[0] == bad;
    } else {
      var data := good[0].record.data;
      assert all[0] == good[0] && Chunk(all[0]) == Ok(good[0].record);
      assert all[1..] == good[1..] + [bad] + rest;
      assert data[..|data|] == data;
      CollectStopsAt(got + data, total, good[1..], bad, rest, error);
    }
  }

  /**
   How a reassembly ends without a frame: a buffer that cannot hold a record, a failing first
   read, a head that is not accepted, a frame that does not fit, or the first failing read
   after it.
   */
  lemma ReassemblyErrors(events: seq<ReadEvent>, bufCap: nat, error: Errno)
    ensures bufCap < 40 + 0xE00 ==> Assembled(events, bufCap) == Err(MessageSize)
    ensures bufCap >= 40 + 0xE00 && events == [] ==> Assembled(events, bufCap) == Err(TryAgain)
    ensures bufCap >= 40 + 0xE00 && events != [] && FailsWith(events[0], error) ==>
              Assembled(events, bufCap) == Err(error)
    ensures bufCap >= 40 + 0xE00 && events != [] && events[0].Read? && GoodRecord(events[0].record) ==>
              var n := CheckHead(events[0].record.data);
              && (n.None? ==> Assembled(events, bufCap) == Err(TryAgain))
              && (n.Some? && 44 + n.value > bufCap ==> Assembled(events, bufCap) == Err(MessageSize))
  {
  }

  /** A frame cut short by a failing read: its error is the outcome. */
  lemma CutShort(mpType: int, payload: Bytes, good: seq<ReadEvent>, bad: ReadEvent, rest: seq<ReadEvent>,
                 bufCap: nat, error: Errno)
    requires TypeValid(mpType) && |payload| < MP_LEN_MAX
    requires Delivered(good) && good != [] && |good[0].record.data| >= 4
    requires Concat(good) < MpFrame(mpType, payload) && FailsWith(bad, error)
    requires bufCap >= TAP_HEADER_SIZE + CHUNK_MAX && bufCap >= TAP_HEADER_SIZE + 4 + |payload|
    ensures Assembled(good + [bad] + rest, bufCap) == Err(error)
  {
    var frame := MpFrame(mpType, payload);
    var data := good[0].record.data;
    var all := good + [bad] + rest;
    FrameOfBuilt(mpType, payload);
    assert Concat(good) == data + Concat(good[1..]);
    assert data[..4] == frame[..4] by { assert data <= frame; }
    SameHead(data, frame);
    assert all[0] == good[0] && Chunk(all[0]) == Ok(good[0].record);
    assert all[1..] == good[1..] + [bad] + rest;
    assert data[..|data|] == data;
    CollectStopsAt(data, |frame|, good[1..], bad, rest, error);
  }
}
