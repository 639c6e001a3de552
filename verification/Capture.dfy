/** The capture loops of the passive monitor: a byte buffer and a table of waiting requests, both
    updated in place by the drains. */
module Capture {
  import opened Words
  import opened Models
  import opened Frames
  import opened Scanner
  import opened Chunking
  import opened Pairing

  function AnyFrame(bytes: seq<byte>): Option<Frame> {
    match Parse(bytes)
    case Ok(frame) => Some(frame)
    case Err(_) => None
  }

  function ResponseFrame(bytes: seq<byte>): Option<Frame> {
    match Parse(bytes)
    case Ok(frame) => if IsReadResponse(frame) then Some(frame) else None
    case Err(_) => None
  }

  lemma MonitorFramesAreShort()
    ensures ShortFrames(AnyFrame) && ShortFrames(ResponseFrame)
  {
    forall bytes: seq<byte> | Parse(bytes).Ok?
      ensures |bytes| <= MAX_FRAME
    {
      FrameLength(bytes);
    }
  }

  lemma MonitorFramesAreMeasured()
    ensures Measured(AnyFrame) && Measured(ResponseFrame)
  {
    forall x: seq<byte>, y: seq<byte> | Parse(x).Ok? && Parse(x) == Parse(y)
      ensures |x| == |y|
    {
      EncodeParse(x);
      EncodeParse(y);
    }
  }

  /** For the monitor's own frames: the way in which reads cut the stream never shows, exactly if no frame that a drain
      of the whole stream takes has another frame inside. */
  lemma MonitorCutsMatterExactly(data: seq<byte>)
    ensures Clean(AnyFrame, data)
       <==> forall chunks :: Joined(chunks) == data ==>
         RunTrimmed(AnyFrame, [], chunks).frames == Drain(AnyFrame, data).frames
    ensures Clean(ResponseFrame, data)
       <==> forall chunks :: Joined(chunks) == data ==>
         RunTrimmed(ResponseFrame, [], chunks).frames == Drain(ResponseFrame, data).frames
  {
    MonitorFramesAreShort();
    MonitorFramesAreMeasured();
    CutsMatterExactly(AnyFrame, data);
    CutsMatterExactly(ResponseFrame, data);
  }

  function SlaveId(frame: Frame): nat {
    Count(frame.slave)
  }

  /** The last response of each slave. */
  function LastBySlave(responses: map<nat, Frame>, frames: seq<Frame>): map<nat, Frame>
    decreases frames
  {
    if frames == [] then responses
    else LastBySlave(responses[SlaveId(frames[0]) := frames[0]], frames[1..])
  }

  lemma {:induction false} LastBySlaveAppend(responses: map<nat, Frame>, a: seq<Frame>, b: seq<Frame>)
    ensures LastBySlave(responses, a + b) == LastBySlave(LastBySlave(responses, a), b)
    decreases a
  {
    if a == [] {
      assert a + b == b;
    } else {
      assert (a + b)[0] == a[0] && (a + b)[1..] == a[1..] + b;
      LastBySlaveAppend(responses[SlaveId(a[0]) := a[0]], a[1..], b);
    }
  }

  /** The entry of a slave is its last frame. */
  lemma {:induction false} LastBySlaveIsLast(responses: map<nat, Frame>, frames: seq<Frame>, slave: nat, last: nat)
    requires last < |frames| && SlaveId(frames[last]) == slave
    requires forall k :: last < k < |frames| ==> SlaveId(frames[k]) != slave
    ensures slave in LastBySlave(responses, frames) && LastBySlave(responses, frames)[slave] == frames[last]
    decreases frames
  {
    var next := responses[SlaveId(frames[0]) := frames[0]];
    if last == 0 {
      assert next[slave] == frames[0];
      assert forall k :: 0 <= k < |frames[1..]| ==> frames[1..][k] == frames[k + 1];
      LastBySlaveKeeps(next, frames[1..], slave);
    } else {
      LastBySlaveIsLast(next, frames[1..], slave, last - 1);
    }
  }

  lemma {:induction false} LastBySlaveKeeps(responses: map<nat, Frame>, frames: seq<Frame>, slave: nat)
    requires forall k :: 0 <= k < |frames| ==> SlaveId(frames[k]) != slave
    ensures slave in LastBySlave(responses, frames) <==> slave in responses
    ensures slave in responses ==> LastBySlave(responses, frames)[slave] == responses[slave]
    decreases frames
  {
    if frames != [] {
      var next := responses[SlaveId(frames[0]) := frames[0]];
      assert SlaveId(frames[0]) != slave;
      assert slave in next <==> slave in responses;
      assert slave in next ==> next[slave] == responses[slave];
      LastBySlaveKeeps(next, frames[1..], slave);
    }
  }

  class ByteBuffer {
    var data: seq<byte>

    constructor ()
      ensures data == []
    {
      data := [];
    }
  }

  class RequestTable {
    var waiting: map<Key, Frame>

    constructor ()
      ensures waiting == map[]
    {
      waiting := map[];
    }
  }

  /** One frame against the table of waiting requests. */
  method TakeFrame(frame: Frame, pending: RequestTable, pairs: seq<Pair>) returns (more: seq<Pair>)
    modifies pending
    ensures Matching(pending.waiting, more) == Observe(Matching(old(pending.waiting), pairs), frame)
  {
    more := pairs;
    var key := KeyOf(frame);
    if IsReadRequest(frame) {
      pending.waiting := pending.waiting[key := frame];
    } else if IsReadResponse(frame) {
      if key in pending.waiting {
        more := pairs + [Pair(pending.waiting[key], frame)];
        pending.waiting := pending.waiting - {key};
      }
    }
  }

  /** Keep the last 512 bytes of a buffer in which nothing parses. */
  method TrimBuffer(buffer: ByteBuffer)
    modifies buffer
    ensures var before := old(buffer.data);
      buffer.data == if |before| > 512 then before[|before| - 512..] else before
    ensures buffer.data == Trim(old(buffer.data))
  {
    if |buffer.data| > 512 {
      buffer.data := buffer.data[|buffer.data| - 512..];
    }
  }

  lemma DrainOne<F>(parse: seq<byte> -> Option<F>, data: seq<byte>, span: Span)
    requires FirstSpan(parse, data) == Some(span)
    ensures Parseable(parse, data, span)
    ensures Drain(parse, data).frames
         == [parse(data[span.start..span.end]).value] + Drain(parse, data[span.end..]).frames
    ensures Drain(parse, data).rest == Drain(parse, data[span.end..]).rest
  {
    FirstSpanIsFirst(parse, data);
    DrainStep(parse, data, span, data[span.start..span.end], data[span.end..]);
  }

  method DrainRequestResponsePairs(buffer: ByteBuffer, pending: RequestTable) returns (pairs: seq<Pair>)
    modifies buffer, pending
    ensures buffer.data == Trim(Drain(AnyFrame, old(buffer.data)).rest)
    ensures Matching(pending.waiting, pairs)
         == ObserveAll(Matching(old(pending.waiting), []), Drain(AnyFrame, old(buffer.data)).frames)
  {
    pairs := [];
    while |buffer.data| > 0
      invariant Drain(AnyFrame, buffer.data).rest == Drain(AnyFrame, old(buffer.data)).rest
      invariant ObserveAll(Matching(pending.waiting, pairs), Drain(AnyFrame, buffer.data).frames)
             == ObserveAll(Matching(old(pending.waiting), []), Drain(AnyFrame, old(buffer.data)).frames)
      decreases |buffer.data|
    {
      var found := FindFirst(AnyFrame, buffer.data);
      if found.None? {
        TrimBuffer(buffer);
        return;
      }
      DrainOne(AnyFrame, buffer.data, found.value);
      var frame := AnyFrame(buffer.data[found.value.start..found.value.end]).value;
      pairs := TakeFrame(frame, pending, pairs);
      buffer.data := buffer.data[found.value.end..];
    }
    FirstSpanIsFirst(AnyFrame, buffer.data);
  }

  method DrainResponseFrames(buffer: ByteBuffer) returns (responses: map<nat, Frame>)
    modifies buffer
    ensures buffer.data == Trim(Drain(ResponseFrame, old(buffer.data)).rest)
    ensures responses == LastBySlave(map[], Drain(ResponseFrame, old(buffer.data)).frames)
  {
    responses := map[];
    while |buffer.data| > 0
      invariant Drain(ResponseFrame, buffer.data).rest == Drain(ResponseFrame, old(buffer.data)).rest
      invariant LastBySlave(responses, Drain(ResponseFrame, buffer.data).frames)
             == LastBySlave(map[], Drain(ResponseFrame, old(buffer.data)).frames)
      decreases |buffer.data|
    {
      var found := FindFirst(ResponseFrame, buffer.data);
      if found.None? {
        TrimBuffer(buffer);
        return;
      }
      DrainOne(ResponseFrame, buffer.data, found.value);
      var frame := ResponseFrame(buffer.data[found.value.start..found.value.end]).value;
      responses := responses[SlaveId(frame) := frame];
      buffer.data := buffer.data[found.value.end..];
    }
    FirstSpanIsFirst(ResponseFrame, buffer.data);
  }

  // ----- Whole captures: a list of reads takes the place of port and clock -----

  /** The pairs that a list of frames contains, by the declarative reading. */
  function PairsIn(frames: seq<Frame>): seq<Pair> {
    AnsweredPairs(frames, |frames|)
  }

  /** A read returns at most 256 bytes. */
  predicate Reads(chunks: seq<seq<byte>>) {
    forall i :: 0 <= i < |chunks| ==> |chunks[i]| <= 256
  }

  lemma DrainThenObserve(start: Matching, pairs: seq<Pair>, drained: Matching, frames: seq<Frame>, more: seq<Frame>)
    requires drained == ObserveAll(Matching(start.pending, []), frames) && start.pairs == pairs
    ensures ObserveAll(Matching(drained.pending, pairs + drained.pairs), more) == ObserveAll(start, frames + more)
  {
    EarlierPairsStay(start, frames);
    var now := Matching(drained.pending, pairs + drained.pairs);
    assert ObserveAll(start, frames) == now;
    ObserveAllAppend(start, frames, more);
  }

  /** The pairs captured are those of the frames in the whole stream; neither the trimming nor the
      many drains show.  The peak is the most bytes that the buffer holds after any read. */
  method CaptureRequestResponsePairs(chunks: seq<seq<byte>>) returns (pairs: seq<Pair>, ghost peak: nat)
    requires Reads(chunks)
    ensures pairs == PairsIn(RunUntrimmed(AnyFrame, [], chunks).frames)
    ensures peak == Peak(AnyFrame, [], chunks) <= 768
  {
    hide Drain, RunTrimmed, RunUntrimmed, Peak, ObserveAll, Trim, ShortFrames, AnyFrame;
    var buffer := new ByteBuffer();
    var pending := new RequestTable();
    pairs := [];
    peak := 0;
    ghost var all := RunTrimmed(AnyFrame, [], chunks).frames;
    assert chunks[0..] == chunks;
    for i := 0 to |chunks|
      invariant fresh(buffer) && fresh(pending)
      invariant |buffer.data| <= 512
      invariant Larger(peak, Peak(AnyFrame, buffer.data, chunks[i..])) == Peak(AnyFrame, [], chunks)
      invariant ObserveAll(Matching(pending.waiting, pairs), RunTrimmed(AnyFrame, buffer.data, chunks[i..]).frames)
             == ObserveAll(Matching(map[], []), all)
    {
      ghost var start := Matching(pending.waiting, pairs);
      ghost var d := Drain(AnyFrame, buffer.data + chunks[i]);
      ghost var more := RunTrimmed(AnyFrame, Trim(d.rest), chunks[i + 1..]).frames;
      ReadStep(AnyFrame, buffer.data, chunks, i);
      buffer.data := buffer.data + chunks[i];
      peak := Larger(peak, |buffer.data|);
      assert |buffer.data| <= 768;
      var found := DrainRequestResponsePairs(buffer, pending);
      DrainThenObserve(start, pairs, Matching(pending.waiting, found), d.frames, more);
      pairs := pairs + found;
    }
    NothingRead(AnyFrame, buffer.data, chunks);
    PeakBound(AnyFrame, [], chunks, 256);
    MonitorFramesAreShort();
    TrimmingLosesNothing(AnyFrame, chunks);
    PairingMeetsSpec(all);
    NothingToObserve(Matching(pending.waiting, pairs));
  }

  lemma NothingToObserve(m: Matching)
    ensures ObserveAll(m, []) == m
  {}

  lemma NothingToKeep(responses: map<nat, Frame>)
    ensures LastBySlave(responses, []) == responses
  {}

  lemma {:induction false} UpdateIsFold(responses: map<nat, Frame>, frames: seq<Frame>)
    ensures responses + LastBySlave(map[], frames) == LastBySlave(responses, frames)
    decreases frames
  {
    if frames != [] {
      var f, rest := frames[0], frames[1..];
      UpdateIsFold(map[SlaveId(f) := f], rest);
      UpdateIsFold(responses[SlaveId(f) := f], rest);
      assert responses + (map[SlaveId(f) := f] + LastBySlave(map[], rest))
          == responses[SlaveId(f) := f] + LastBySlave(map[], rest);
    } else {
      assert responses + map[] == responses;
    }
  }

  /** The probe keeps the last response of each slave in the whole stream. */
  method ProbeResponses(chunks: seq<seq<byte>>) returns (responses: map<nat, Frame>, ghost peak: nat)
    requires Reads(chunks)
    ensures responses == LastBySlave(map[], RunUntrimmed(ResponseFrame, [], chunks).frames)
    ensures peak == Peak(ResponseFrame, [], chunks) <= 768
  {
    hide Drain, RunTrimmed, RunUntrimmed, Peak, LastBySlave, Trim, ShortFrames, ResponseFrame;
    var buffer := new ByteBuffer();
    responses := map[];
    peak := 0;
    ghost var all := RunTrimmed(ResponseFrame, [], chunks).frames;
    assert chunks[0..] == chunks;
    for i := 0 to |chunks|
      invariant fresh(buffer)
      invariant |buffer.data| <= 512
      invariant Larger(peak, Peak(ResponseFrame, buffer.data, chunks[i..])) == Peak(ResponseFrame, [], chunks)
      invariant LastBySlave(responses, RunTrimmed(ResponseFrame, buffer.data, chunks[i..]).frames)
             == LastBySlave(map[], all)
    {
      ghost var d := Drain(ResponseFrame, buffer.data + chunks[i]);
      ghost var more := RunTrimmed(ResponseFrame, Trim(d.rest), chunks[i + 1..]).frames;
      ReadStep(ResponseFrame, buffer.data, chunks, i);
      buffer.data := buffer.data + chunks[i];
      peak := Larger(peak, |buffer.data|);
      assert |buffer.data| <= 768;
      var found := DrainResponseFrames(buffer);
      UpdateIsFold(responses, d.frames);
      LastBySlaveAppend(responses, d.frames, more);
      responses := responses + found;
    }
    NothingRead(ResponseFrame, buffer.data, chunks);
    PeakBound(ResponseFrame, [], chunks, 256);
    MonitorFramesAreShort();
    TrimmingLosesNothing(ResponseFrame, chunks);
    NothingToKeep(responses);
  }
}
