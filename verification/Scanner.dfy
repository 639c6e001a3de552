/** Finding frames in a byte stream that arrives in pieces.  Everything here holds for any parser
    of byte strings; the monitor uses it with two. */
module Scanner {
  import opened Models

  const MIN_FRAME := 4
  const MAX_FRAME := 260
  const KEEP := 512

  datatype Span = Span(start: nat, end: nat)

  datatype Drained<B, F> = Drained(frames: seq<F>, rest: seq<B>)

  predicate Parseable<B, F>(parse: seq<B> -> Option<F>, data: seq<B>, span: Span) {
    span.start + MIN_FRAME <= span.end <= |data| && parse(data[span.start..span.end]).Some?
  }

  ghost predicate NoFrame<B, F>(parse: seq<B> -> Option<F>, data: seq<B>) {
    forall span :: !Parseable(parse, data, span)
  }

  /** Earlier start first; among equal starts, earlier end. */
  predicate Before(a: Span, b: Span) {
    a.start < b.start || (a.start == b.start && a.end < b.end)
  }

  ghost predicate IsFirst<B, F>(parse: seq<B> -> Option<F>, data: seq<B>, span: Span) {
    Parseable(parse, data, span) && forall other :: Before(other, span) ==> !Parseable(parse, data, other)
  }

  /** The frame that the search finds when it goes on from a given start and end. */
  function FirstFrom<B, F>(parse: seq<B> -> Option<F>, data: seq<B>, start: nat, end: nat): Option<Span>
    requires start + MIN_FRAME <= end
    decreases |data| - start, |data| + MIN_FRAME + 1 - end
  {
    if start >= |data| then None
    else if end > |data| then FirstFrom(parse, data, start + 1, start + 1 + MIN_FRAME)
    else if parse(data[start..end]).Some? then Some(Span(start, end))
    else FirstFrom(parse, data, start, end + 1)
  }

  function FirstSpan<B, F>(parse: seq<B> -> Option<F>, data: seq<B>): Option<Span> {
    FirstFrom(parse, data, 0, MIN_FRAME)
  }

  lemma {:induction false} FirstFromIsFirst<B, F>(parse: seq<B> -> Option<F>, data: seq<B>, start: nat, end: nat)
    requires start + MIN_FRAME <= end
    requires forall s :: Before(s, Span(start, end)) ==> !Parseable(parse, data, s)
    ensures match FirstFrom(parse, data, start, end)
            case None => NoFrame(parse, data)
            case Some(span) => IsFirst(parse, data, span)
    decreases |data| - start, |data| + MIN_FRAME + 1 - end
  {
    if start >= |data| {
    } else if end > |data| {
      FirstFromIsFirst(parse, data, start + 1, start + 1 + MIN_FRAME);
    } else if parse(data[start..end]).None? {
      FirstFromIsFirst(parse, data, start, end + 1);
    }
  }

  /** The search finds a frame exactly when there is one, and then the first. */
  lemma FirstSpanIsFirst<B, F>(parse: seq<B> -> Option<F>, data: seq<B>)
    ensures match FirstSpan(parse, data)
            case None => NoFrame(parse, data)
            case Some(span) => IsFirst(parse, data, span)
  {
    FirstFromIsFirst(parse, data, 0, MIN_FRAME);
  }

  lemma FirstIsUnique<B, F>(parse: seq<B> -> Option<F>, data: seq<B>, span: Span)
    requires IsFirst(parse, data, span)
    ensures FirstSpan(parse, data) == Some(span)
  {
    FirstSpanIsFirst(parse, data);
    var r := FirstSpan(parse, data);
    assert r.Some?;
    assert !Before(r.value, span) && !Before(span, r.value);
  }

  /** The two nested loops of the search. */
  method FindFirst<B, F>(parse: seq<B> -> Option<F>, data: seq<B>) returns (r: Option<Span>)
    ensures r == FirstSpan(parse, data)
  {
    for start := 0 to |data|
      invariant forall s :: Before(s, Span(start, start + MIN_FRAME)) ==> !Parseable(parse, data, s)
    {
      var end := start + MIN_FRAME;
      while end < |data| + 1
        invariant start + MIN_FRAME <= end
        invariant forall s :: Before(s, Span(start, end)) ==> !Parseable(parse, data, s)
        decreases |data| + 1 - end
      {
        if parse(data[start..end]).Some? {
          FirstIsUnique(parse, data, Span(start, end));
          return Some(Span(start, end));
        }
        end := end + 1;
      }
    }
    assert NoFrame(parse, data);
    FirstSpanIsFirst(parse, data);
    return None;
  }

  // ----- Draining -----

  /** Take frames off the front, with the noise before them, until none is left. */
  function Drain<B, F>(parse: seq<B> -> Option<F>, data: seq<B>): Drained<B, F>
    decreases |data|
  {
    FirstSpanIsFirst(parse, data);
    match FirstSpan(parse, data)
    case None => Drained([], data)
    case Some(span) =>
      var more := Drain(parse, data[span.end..]);
      Drained([parse(data[span.start..span.end]).value] + more.frames, more.rest)
  }

  lemma {:induction false} DrainLeavesNoFrame<B, F>(parse: seq<B> -> Option<F>, data: seq<B>)
    ensures NoFrame(parse, Drain(parse, data).rest)
    decreases |data|
  {
    FirstSpanIsFirst(parse, data);
    var found := FirstSpan(parse, data);
    if found.Some? { DrainLeavesNoFrame(parse, data[found.value.end..]); }
  }

  /** Only the last 512 bytes are kept when nothing more parses. */
  function Trim<B>(data: seq<B>): (r: seq<B>)
    ensures |r| <= KEEP
  {
    if |data| > KEEP then data[|data| - KEEP..] else data
  }

  /** A run of the capture loop: each chunk is appended and the buffer drained. */
  function RunUntrimmed<B, F>(parse: seq<B> -> Option<F>, buffer: seq<B>, chunks: seq<seq<B>>): Drained<B, F>
    decreases chunks
  {
    if chunks == [] then Drained([], buffer)
    else
      var d := Drain(parse, buffer + chunks[0]);
      var more := RunUntrimmed(parse, d.rest, chunks[1..]);
      Drained(d.frames + more.frames, more.rest)
  }

  function RunTrimmed<B, F>(parse: seq<B> -> Option<F>, buffer: seq<B>, chunks: seq<seq<B>>): Drained<B, F>
    decreases chunks
  {
    if chunks == [] then Drained([], buffer)
    else
      var d := Drain(parse, buffer + chunks[0]);
      var more := RunTrimmed(parse, Trim(d.rest), chunks[1..]);
      Drained(d.frames + more.frames, more.rest)
  }

  // ----- Trimming loses no frame -----

  ghost predicate ShortFrames<B(!new), F>(parse: seq<B> -> Option<F>) {
    forall bytes :: parse(bytes).Some? ==> |bytes| <= MAX_FRAME
  }

  /** A dropped prefix in which no frame can start any more, whatever arrives later. */
  ghost predicate Dead<B, F>(parse: seq<B> -> Option<F>, dropped: seq<B>, kept: seq<B>) {
    dropped == [] || (|kept| >= MAX_FRAME - 1 && NoFrame(parse, dropped + kept))
  }

  lemma SuffixSpan<B, F>(parse: seq<B> -> Option<F>, prefix: seq<B>, data: seq<B>, span: Span)
    ensures Parseable(parse, prefix + data, Span(|prefix| + span.start, |prefix| + span.end)) <==>
      Parseable(parse, data, span)
  {
    if span.start <= span.end <= |data| {
      assert (prefix + data)[|prefix| + span.start..|prefix| + span.end] == data[span.start..span.end];
    }
  }

  lemma PrefixSpan<B, F>(parse: seq<B> -> Option<F>, data: seq<B>, more: seq<B>, span: Span)
    requires span.end <= |data|
    ensures Parseable(parse, data + more, span) <==> Parseable(parse, data, span)
  {
    if span.start <= span.end {
      assert (data + more)[span.start..span.end] == data[span.start..span.end];
    }
  }

  lemma NoFrameInSuffix<B, F>(parse: seq<B> -> Option<F>, prefix: seq<B>, data: seq<B>)
    requires NoFrame(parse, prefix + data)
    ensures NoFrame(parse, data)
  {
    forall span
      ensures !Parseable(parse, data, span)
    {
      SuffixSpan(parse, prefix, data, span);
    }
  }

  lemma DeadStaysDead<B(!new), F>(parse: seq<B> -> Option<F>, dropped: seq<B>, kept: seq<B>, more: seq<B>, span: Span)
    requires ShortFrames(parse) && Dead(parse, dropped, kept)
    requires Parseable(parse, dropped + (kept + more), span)
    ensures span.start >= |dropped|
  {
    if span.start < |dropped| {
      var all := dropped + (kept + more);
      assert |all[span.start..span.end]| == span.end - span.start;
      assert all == (dropped + kept) + more;
      PrefixSpan(parse, dropped + kept, more, span);
    }
  }

  lemma AliveSpan<B(!new), F>(parse: seq<B> -> Option<F>, dropped: seq<B>, kept: seq<B>, more: seq<B>, span: Span)
    returns (inner: Span)
    requires ShortFrames(parse) && Dead(parse, dropped, kept)
    requires Parseable(parse, dropped + (kept + more), span)
    ensures Parseable(parse, kept + more, inner)
    ensures span == Span(|dropped| + inner.start, |dropped| + inner.end)
  {
    DeadStaysDead(parse, dropped, kept, more, span);
    inner := Span(span.start - |dropped|, span.end - |dropped|);
    SuffixSpan(parse, dropped, kept + more, inner);
  }

  function Moved(span: Span, n: nat): Span {
    Span(span.start + n, span.end + n)
  }

  lemma FirstOfTwo<B, F>(parse: seq<B> -> Option<F>, data: seq<B>, a: Span, b: Span)
    requires IsFirst(parse, data, a) && Parseable(parse, data, b)
    ensures a == b || Before(a, b)
  {
    assert !Before(b, a);
  }

  /** The searches with and without the dropped prefix find the same frame. */
  lemma SameFirst<B(!new), F>(parse: seq<B> -> Option<F>, dropped: seq<B>, kept: seq<B>, more: seq<B>)
    requires ShortFrames(parse) && Dead(parse, dropped, kept)
    ensures var long, short := FirstSpan(parse, dropped + (kept + more)), FirstSpan(parse, kept + more);
      (short.None? ==> long.None?) && (short.Some? ==> long == Some(Moved(short.value, |dropped|)))
  {
    var long := FirstSpan(parse, dropped + (kept + more));
    var short := FirstSpan(parse, kept + more);
    FirstSpanIsFirst(parse, dropped + (kept + more));
    FirstSpanIsFirst(parse, kept + more);
    if long.Some? {
      var inner := AliveSpan(parse, dropped, kept, more, long.value);
      FirstOfTwo(parse, kept + more, short.value, inner);
      SuffixFirst(parse, dropped, kept + more, inner, short.value);
    } else if short.Some? {
      SuffixSpan(parse, dropped, kept + more, short.value);
    }
  }

  lemma SuffixFirst<B, F>(parse: seq<B> -> Option<F>, prefix: seq<B>, data: seq<B>, inner: Span, first: Span)
    requires IsFirst(parse, prefix + data, Moved(inner, |prefix|))
    requires Parseable(parse, data, first) && (first == inner || Before(first, inner))
    ensures first == inner
  {
    SuffixSpan(parse, prefix, data, first);
    FirstOfTwo(parse, prefix + data, Moved(inner, |prefix|), Moved(first, |prefix|));
  }

  lemma TrimIsDead<B, F>(parse: seq<B> -> Option<F>, dropped: seq<B>, rest: seq<B>) returns (gone: seq<B>)
    requires dropped == [] || |rest| >= MAX_FRAME - 1
    requires NoFrame(parse, dropped + rest)
    ensures dropped + rest == gone + Trim(rest) && Dead(parse, gone, Trim(rest))
  {
    if |rest| > KEEP {
      gone := dropped + rest[..|rest| - KEEP];
      assert rest == rest[..|rest| - KEEP] + Trim(rest);
      assert dropped + rest == gone + Trim(rest);
    } else {
      gone := dropped;
    }
  }

  /** Draining with and without the dropped prefix: the same frames, and the same rest but for a
      prefix that is still dropped. */
  lemma DrainDropped<B(!new), F>(parse: seq<B> -> Option<F>, dropped: seq<B>, kept: seq<B>, chunk: seq<B>)
    returns (before: seq<B>)
    requires ShortFrames(parse) && Dead(parse, dropped, kept)
    ensures Drain(parse, dropped + (kept + chunk)).frames == Drain(parse, kept + chunk).frames
    ensures Drain(parse, dropped + (kept + chunk)).rest == before + Drain(parse, kept + chunk).rest
    ensures before == [] || |Drain(parse, kept + chunk).rest| >= MAX_FRAME - 1
  {
    SameFirst(parse, dropped, kept, chunk);
    var data := kept + chunk;
    var all := dropped + data;
    var short := FirstSpan(parse, data);
    if short.None? {
      before := dropped;
    } else {
      DrainMoved(parse, dropped, data, short.value);
      before := [];
      assert before + Drain(parse, data).rest == Drain(parse, data).rest;
    }
  }

  lemma DrainStep<B, F>(parse: seq<B> -> Option<F>, data: seq<B>, span: Span, bytes: seq<B>, tail: seq<B>)
    requires FirstSpan(parse, data) == Some(span) && Parseable(parse, data, span)
    requires bytes == data[span.start..span.end] && tail == data[span.end..]
    ensures Drain(parse, data) == Drained([parse(bytes).value] + Drain(parse, tail).frames, Drain(parse, tail).rest)
  {}

  lemma MovedSlices<B>(prefix: seq<B>, data: seq<B>, span: Span)
    requires span.start <= span.end <= |data|
    ensures (prefix + data)[|prefix| + span.start..|prefix| + span.end] == data[span.start..span.end]
    ensures (prefix + data)[|prefix| + span.end..] == data[span.end..]
  {}

  lemma DrainMoved<B, F>(parse: seq<B> -> Option<F>, dropped: seq<B>, data: seq<B>, span: Span)
    requires FirstSpan(parse, data) == Some(span)
    requires FirstSpan(parse, dropped + data) == Some(Moved(span, |dropped|))
    ensures Drain(parse, dropped + data) == Drain(parse, data)
  {
    FirstSpanIsFirst(parse, data);
    SuffixSpan(parse, dropped, data, span);
    var bytes, tail := data[span.start..span.end], data[span.end..];
    MovedSlices(dropped, data, span);
    DrainStep(parse, data, span, bytes, tail);
    DrainStep(parse, dropped + data, Moved(span, |dropped|), bytes, tail);
  }

  lemma DrainPastDead<B(!new), F>(parse: seq<B> -> Option<F>, dropped: seq<B>, kept: seq<B>, chunk: seq<B>)
    returns (gone: seq<B>)
    requires ShortFrames(parse) && Dead(parse, dropped, kept)
    ensures var long, short := Drain(parse, dropped + (kept + chunk)), Drain(parse, kept + chunk);
      long.frames == short.frames && long.rest == gone + Trim(short.rest) && Dead(parse, gone, Trim(short.rest))
  {
    var before := DrainDropped(parse, dropped, kept, chunk);
    DrainLeavesNoFrame(parse, dropped + (kept + chunk));
    gone := TrimIsDead(parse, before, Drain(parse, kept + chunk).rest);
  }

  lemma {:induction false} TrimmedRun<B(!new), F>(parse: seq<B> -> Option<F>, dropped: seq<B>, kept: seq<B>,
                                                  chunks: seq<seq<B>>)
    requires ShortFrames(parse) && Dead(parse, dropped, kept)
    ensures RunTrimmed(parse, kept, chunks).frames == RunUntrimmed(parse, dropped + kept, chunks).frames
    decreases chunks
  {
    if chunks != [] {
      assert (dropped + kept) + chunks[0] == dropped + (kept + chunks[0]);
      var gone := DrainPastDead(parse, dropped, kept, chunks[0]);
      TrimmedRun(parse, gone, Trim(Drain(parse, kept + chunks[0]).rest), chunks[1..]);
    }
  }

  /** The bounded buffer emits exactly the frames that an unbounded one would. */
  lemma TrimmingLosesNothing<B(!new), F>(parse: seq<B> -> Option<F>, chunks: seq<seq<B>>)
    requires ShortFrames(parse)
    ensures RunTrimmed(parse, [], chunks).frames == RunUntrimmed(parse, [], chunks).frames
  {
    var nothing: seq<B> := [];
    assert nothing + nothing == nothing;
    TrimmedRun(parse, [], [], chunks);
  }

  /** Between drains the buffer holds at most 512 bytes and nothing that parses. */
  lemma {:induction false} BufferBound<B, F>(parse: seq<B> -> Option<F>, buffer: seq<B>, chunks: seq<seq<B>>)
    requires |buffer| <= KEEP && NoFrame(parse, buffer)
    ensures |RunTrimmed(parse, buffer, chunks).rest| <= KEEP
    ensures NoFrame(parse, RunTrimmed(parse, buffer, chunks).rest)
    decreases chunks
  {
    if chunks != [] {
      var rest := Drain(parse, buffer + chunks[0]).rest;
      DrainLeavesNoFrame(parse, buffer + chunks[0]);
      assert rest == rest[..|rest| - |Trim(rest)|] + Trim(rest);
      NoFrameInSuffix(parse, rest[..|rest| - |Trim(rest)|], Trim(rest));
      BufferBound(parse, Trim(rest), chunks[1..]);
    }
  }

  /** The most bytes that the buffer holds after any read of the capture loop. */
  function Peak<B, F>(parse: seq<B> -> Option<F>, buffer: seq<B>, chunks: seq<seq<B>>): nat
    decreases chunks
  {
    if chunks == [] then 0
    else
      var filled := buffer + chunks[0];
      Larger(|filled|, Peak(parse, Trim(Drain(parse, filled).rest), chunks[1..]))
  }

  function Larger(a: nat, b: nat): nat { if a < b then b else a }

  lemma {:induction false} PeakBound<B, F>(parse: seq<B> -> Option<F>, buffer: seq<B>, chunks: seq<seq<B>>, size: nat)
    requires |buffer| <= KEEP && forall i :: 0 <= i < |chunks| ==> |chunks[i]| <= size
    ensures Peak(parse, buffer, chunks) <= KEEP + size
    decreases chunks
  {
    if chunks != [] { PeakBound(parse, Trim(Drain(parse, buffer + chunks[0]).rest), chunks[1..], size); }
  }

  /** One read of the loop, as the frames and the peak see it. */
  lemma ReadStep<B, F>(parse: seq<B> -> Option<F>, buffer: seq<B>, chunks: seq<seq<B>>, i: nat)
    requires i < |chunks|
    ensures var filled := buffer + chunks[i];
      var d := Drain(parse, filled);
      RunTrimmed(parse, buffer, chunks[i..]).frames ==
        d.frames + RunTrimmed(parse, Trim(d.rest), chunks[i + 1..]).frames &&
      Peak(parse, buffer, chunks[i..]) == Larger(|filled|, Peak(parse, Trim(d.rest), chunks[i + 1..]))
  {
    assert chunks[i..][1..] == chunks[i + 1..];
  }

  lemma NothingRead<B, F>(parse: seq<B> -> Option<F>, buffer: seq<B>, chunks: seq<seq<B>>)
    ensures RunTrimmed(parse, buffer, chunks[|chunks|..]).frames == [] && Peak(parse, buffer, chunks[|chunks|..]) == 0
  {}
}
