/** When the cuts of the stream into chunks do not matter. */
module Chunking {
  import opened Models
  import opened Scanner

  function Joined<B>(chunks: seq<seq<B>>): seq<B> {
    if chunks == [] then [] else chunks[0] + Joined(chunks[1..])
  }

  /** No frame that is drained has another one inside that ends earlier. */
  ghost predicate Clean<B, F>(parse: seq<B> -> Option<F>, data: seq<B>)
    decreases |data|
  {
    FirstSpanIsFirst(parse, data);
    match FirstSpan(parse, data)
    case None => true
    case Some(first) => Hollow(parse, data, first) && Clean(parse, data[first.end..])
  }

  predicate Inside(inner: Span, outer: Span) {
    outer.start < inner.start && inner.end < outer.end
  }

  ghost predicate Hollow<B, F>(parse: seq<B> -> Option<F>, data: seq<B>, span: Span) {
    forall inner :: Parseable(parse, data, inner) ==> !Inside(inner, span)
  }

  /** What is found first before more arrives is inside what is found first then, or the same. */
  lemma FirstOfPrefix<B, F>(parse: seq<B> -> Option<F>, data: seq<B>, more: seq<B>, early: Span, late: Span)
    requires IsFirst(parse, data, early) && IsFirst(parse, data + more, late)
    ensures early == late || Inside(early, late)
  {
    PrefixSpan(parse, data, more, early);
    assert !Before(early, late);
    if late.end <= |data| { PrefixSpan(parse, data, more, late); }
  }

  /** What is found first is still first when more arrives. */
  lemma FirstStaysFirst<B, F>(parse: seq<B> -> Option<F>, data: seq<B>, more: seq<B>, first: Span)
    requires Clean(parse, data + more) && IsFirst(parse, data, first)
    ensures IsFirst(parse, data + more, first)
  {
    FirstSpanIsFirst(parse, data + more);
    PrefixSpan(parse, data, more, first);
    FirstOfPrefix(parse, data, more, first, FirstSpan(parse, data + more).value);
  }

  lemma SlicesOfLonger<B>(data: seq<B>, more: seq<B>, span: Span)
    requires span.start <= span.end <= |data|
    ensures (data + more)[span.start..span.end] == data[span.start..span.end]
    ensures (data + more)[span.end..] == data[span.end..] + more
    ensures data + more == data[..span.end] + (data[span.end..] + more)
  {}

  /** Both drains take the same first frame. */
  lemma OneFrameOfBoth<B, F>(parse: seq<B> -> Option<F>, data: seq<B>, more: seq<B>) returns (frame: F, tail: seq<B>)
    requires Clean(parse, data + more) && FirstSpan(parse, data).Some?
    ensures Drain(parse, data) == Drained([frame] + Drain(parse, tail).frames, Drain(parse, tail).rest)
    ensures Drain(parse, data + more)
         == Drained([frame] + Drain(parse, tail + more).frames, Drain(parse, tail + more).rest)
    ensures Clean(parse, tail + more) && |tail| < |data|
  {
    FirstSpanIsFirst(parse, data);
    var first := FirstSpan(parse, data).value;
    var bytes := data[first.start..first.end];
    tail := data[first.end..];
    frame := parse(bytes).value;
    FirstStaysFirst(parse, data, more, first);
    FirstIsUnique(parse, data + more, first);
    SlicesOfLonger(data, more, first);
    DrainStep(parse, data, first, bytes, tail);
    DrainStep(parse, data + more, first, bytes, tail + more);
  }

  /** Draining early and then again, or once at the end: the same frames and the same rest. */
  lemma {:induction false} DrainInTwo<B, F>(parse: seq<B> -> Option<F>, data: seq<B>, more: seq<B>)
    requires Clean(parse, data + more)
    ensures Clean(parse, Drain(parse, data).rest + more)
    ensures Drain(parse, data + more) == Then(Drain(parse, data), Drain(parse, Drain(parse, data).rest + more))
    decreases |data|
  {
    if FirstSpan(parse, data).Some? {
      var frame, tail := OneFrameOfBoth(parse, data, more);
      DrainInTwo(parse, tail, more);
      ThenCons(frame, Drain(parse, tail), Drain(parse, Drain(parse, tail).rest + more));
    } else {
      assert Drain(parse, data) == Drained([], data);
      ThenNothing(data, Drain(parse, data + more));
    }
  }

  /** The frames of one drain and then of another; the rest of the later. */
  function Then<B, F>(early: Drained<B, F>, late: Drained<B, F>): Drained<B, F> {
    Drained(early.frames + late.frames, late.rest)
  }

  lemma ThenCons<B, F>(frame: F, early: Drained<B, F>, late: Drained<B, F>)
    ensures Then(Drained([frame] + early.frames, early.rest), late)
         == Drained([frame] + Then(early, late).frames, Then(early, late).rest)
  {
    assert ([frame] + early.frames) + late.frames == [frame] + (early.frames + late.frames);
  }

  lemma ThenNothing<B, F>(data: seq<B>, late: Drained<B, F>)
    ensures Then(Drained([], data), late) == late
  {}

  lemma {:induction false} RunIsOneDrain<B, F>(parse: seq<B> -> Option<F>, buffer: seq<B>, chunks: seq<seq<B>>)
    requires Clean(parse, buffer + Joined(chunks)) && NoFrame(parse, buffer)
    ensures RunUntrimmed(parse, buffer, chunks).frames == Drain(parse, buffer + Joined(chunks)).frames
    decreases chunks
  {
    if chunks == [] {
      assert buffer + Joined(chunks) == buffer;
      FirstSpanIsFirst(parse, buffer);
    } else {
      var now, later := buffer + chunks[0], Joined(chunks[1..]);
      assert buffer + Joined(chunks) == now + later;
      DrainInTwo(parse, now, later);
      DrainLeavesNoFrame(parse, now);
      RunIsOneDrain(parse, Drain(parse, now).rest, chunks[1..]);
    }
  }

  /** A stream in which no drained frame has another inside yields the same frames however it is cut, also through
      the bounded buffer. */
  lemma ChunksDoNotMatter<B(!new), F>(parse: seq<B> -> Option<F>, chunks: seq<seq<B>>)
    requires ShortFrames(parse) && Clean(parse, Joined(chunks))
    ensures RunTrimmed(parse, [], chunks).frames == Drain(parse, Joined(chunks)).frames
  {
    var nothing: seq<B> := [];
    assert nothing + Joined(chunks) == Joined(chunks);
    TrimmingLosesNothing(parse, chunks);
    RunIsOneDrain(parse, nothing, chunks);
  }

  // ----- Otherwise the cuts matter -----

  function Singles<B>(data: seq<B>): seq<seq<B>> {
    if data == [] then [] else [[data[0]]] + Singles(data[1..])
  }

  lemma {:induction false} SinglesJoined<B>(data: seq<B>)
    ensures Joined(Singles(data)) == data
    decreases data
  {
    if data != [] { SinglesJoined(data[1..]); }
  }

  /** Equal frames are parsed from equally many bytes. */
  ghost predicate Measured<B(!new), F(!new)>(parse: seq<B> -> Option<F>) {
    forall x, y :: parse(x).Some? && parse(x) == parse(y) ==> |x| == |y|
  }

  /** With one more byte, only a frame that ends there can have been completed. */
  lemma OneByteMore<B, F>(parse: seq<B> -> Option<F>, buffer: seq<B>, b: B, span: Span)
    requires NoFrame(parse, buffer) && Parseable(parse, buffer + [b], span)
    ensures span.end == |buffer| + 1
  {
    if span.end <= |buffer| { PrefixSpan(parse, buffer, [b], span); }
  }

  lemma RunSingle<B, F>(parse: seq<B> -> Option<F>, buffer: seq<B>, b: B, rest: seq<B>)
    ensures var d := Drain(parse, buffer + [b]);
      RunUntrimmed(parse, buffer, Singles([b] + rest)).frames ==
        d.frames + RunUntrimmed(parse, d.rest, Singles(rest)).frames
  {
    assert ([b] + rest)[1..] == rest;
    assert Singles([b] + rest)[1..] == Singles(rest);
  }

  lemma DrainNothing<B, F>(parse: seq<B> -> Option<F>)
    ensures Drain(parse, []) == Drained([], [])
  {}

  /** A byte that completes a frame: what is drained now, and what draining the whole stream starts with. */
  lemma Completes<B, F>(parse: seq<B> -> Option<F>, buffer: seq<B>, b: B,
                        rest: seq<B>) returns (early: Span, late: Span)
    requires NoFrame(parse, buffer) && FirstSpan(parse, buffer + [b]).Some?
    ensures var now, all := buffer + [b], (buffer + [b]) + rest;
      && Parseable(parse, now, early) && early.end == |now|
      && FirstSpan(parse, all) == Some(late) && Parseable(parse, all, late)
      && Drain(parse, now) == Drained([FrameAt(parse, now, early)], [])
      && Drain(parse, all).frames == [FrameAt(parse, all, late)] + Drain(parse, all[late.end..]).frames
      && (early == late || Inside(early, late))
  {
    var now, all := buffer + [b], (buffer + [b]) + rest;
    FirstSpanIsFirst(parse, now);
    early := FirstSpan(parse, now).value;
    OneByteMore(parse, buffer, b, early);
    assert now[early.end..] == [];
    DrainStep(parse, now, early, now[early.start..early.end], []);
    DrainNothing(parse);
    PrefixSpan(parse, now, rest, early);
    FirstSpanIsFirst(parse, all);
    late := FirstSpan(parse, all).value;
    FirstOfPrefix(parse, now, rest, early, late);
    DrainStep(parse, all, late, all[late.start..late.end], all[late.end..]);
  }

  /** Nothing is inside a frame that the latest byte completes. */
  lemma JustCompletedIsHollow<B, F>(parse: seq<B> -> Option<F>, buffer: seq<B>, b: B, rest: seq<B>, span: Span)
    requires NoFrame(parse, buffer) && span.end == |buffer| + 1
    ensures Hollow(parse, (buffer + [b]) + rest, span)
  {
    forall inner | Parseable(parse, (buffer + [b]) + rest, inner)
      ensures !Inside(inner, span)
    {
      if inner.end <= |buffer| {
        assert (buffer + [b]) + rest == buffer + ([b] + rest);
        PrefixSpan(parse, buffer, [b] + rest, inner);
      }
    }
  }

  lemma CleanStep<B, F>(parse: seq<B> -> Option<F>, data: seq<B>, first: Span, tail: seq<B>)
    requires FirstSpan(parse, data) == Some(first) && Parseable(parse, data, first) && tail == data[first.end..]
    ensures Clean(parse, data) <==> Hollow(parse, data, first) && Clean(parse, tail)
  {}

  lemma NothingFoundIsClean<B, F>(parse: seq<B> -> Option<F>, buffer: seq<B>)
    requires FirstSpan(parse, buffer).None?
    ensures Clean(parse, buffer) && Drain(parse, buffer) == Drained([], buffer)
  {}

  /** The byte completes the frame that the whole stream starts with: what follows decides. */
  lemma SameStart<B, F>(parse: seq<B> -> Option<F>, buffer: seq<B>, b: B, tail: seq<B>, first: Span)
    requires NoFrame(parse, buffer) && first.end == |buffer| + 1
    requires FirstSpan(parse, (buffer + [b]) + tail) == Some(first) && Parseable(parse, (buffer + [b]) + tail, first)
    ensures ((buffer + [b]) + tail)[first.end..] == tail
    ensures Parseable(parse, buffer + [b], first)
    ensures FrameAt(parse, (buffer + [b]) + tail, first) == FrameAt(parse, buffer + [b], first)
    ensures Clean(parse, (buffer + [b]) + tail) <==> Clean(parse, tail)
  {
    var now := buffer + [b];
    assert (now + tail)[first.end..] == tail;
    assert (now + tail)[first.start..first.end] == now[first.start..first.end];
    JustCompletedIsHollow(parse, buffer, b, tail, first);
    CleanStep(parse, now + tail, first, tail);
  }

  lemma HeadCancels<F>(f: F, xs: seq<F>, ys: seq<F>)
    requires xs != ys
    ensures [f] + xs != [f] + ys
  {
    assert ([f] + xs)[1..] == xs && ([f] + ys)[1..] == ys;
  }

  lemma HeadsDiffer<F>(f: F, xs: seq<F>, g: F, ys: seq<F>)
    requires f != g
    ensures [f] + xs != [g] + ys
  {
    assert ([f] + xs)[0] == f && ([g] + ys)[0] == g;
  }

  lemma {:induction false} SinglesDiffer<B(!new), F(!new)>(parse: seq<B> -> Option<F>, buffer: seq<B>, rest: seq<B>)
    requires Measured(parse) && NoFrame(parse, buffer) && !Clean(parse, buffer + rest)
    ensures RunUntrimmed(parse, buffer, Singles(rest)).frames != Drain(parse, buffer + rest).frames
    decreases |rest|
  {
    hide Drain, Clean, Hollow, RunUntrimmed, Singles, Measured, FirstSpan;
    FirstSpanIsFirst(parse, buffer);
    if rest == [] {
      assert buffer + rest == buffer;
      NothingFoundIsClean(parse, buffer);
    } else {
      var b, tail := rest[0], rest[1..];
      var now := buffer + [b];
      assert [b] + tail == rest && now + tail == buffer + rest;
      RunSingle(parse, buffer, b, tail);
      FirstSpanIsFirst(parse, now);
      if FirstSpan(parse, now).None? {
        NothingFoundIsClean(parse, now);
        SinglesDiffer(parse, now, tail);
      } else {
        var early, late := Completes(parse, buffer, b, tail);
        if early == late {
          SameStart(parse, buffer, b, tail, early);
          assert [] + tail == tail;
          NothingParses(parse);
          SinglesDiffer(parse, [], tail);
          HeadCancels(FrameAt(parse, now, early), RunUntrimmed(parse, [], Singles(tail)).frames,
            Drain(parse, tail).frames);
        } else {
          ShorterFrame(parse, now, now + tail, early, late);
          HeadsDiffer(FrameAt(parse, now, early), RunUntrimmed(parse, [], Singles(tail)).frames,
                      FrameAt(parse, now + tail, late), Drain(parse, (now + tail)[late.end..]).frames);
        }
      }
    }
  }

  lemma NothingParses<B, F>(parse: seq<B> -> Option<F>)
    ensures NoFrame(parse, [])
  {}

  lemma ShorterFrame<B(!new), F(!new)>(parse: seq<B> -> Option<F>, a: seq<B>, b: seq<B>, early: Span, late: Span)
    requires Measured(parse) && Parseable(parse, a, early) && Parseable(parse, b, late) && Inside(early, late)
    ensures FrameAt(parse, a, early) != FrameAt(parse, b, late)
  {
    var x, y := a[early.start..early.end], b[late.start..late.end];
    assert |x| < |y|;
  }

  /** Exactly when no drained frame has another inside, all ways of cutting the stream yield the same frames. */
  lemma CutsMatterExactly<B(!new), F(!new)>(parse: seq<B> -> Option<F>, data: seq<B>)
    requires ShortFrames(parse) && Measured(parse)
    ensures Clean(parse, data)
       <==> forall chunks :: Joined(chunks) == data ==>
         RunTrimmed(parse, [], chunks).frames == Drain(parse, data).frames
  {
    if Clean(parse, data) {
      forall chunks | Joined(chunks) == data
        ensures RunTrimmed(parse, [], chunks).frames == Drain(parse, data).frames
      {
        ChunksDoNotMatter(parse, chunks);
      }
    } else {
      var nothing: seq<B> := [];
      assert nothing + data == data;
      NothingParses(parse);
      SinglesJoined(data);
      SinglesDiffer(parse, nothing, data);
      TrimmingLosesNothing(parse, Singles(data));
    }
  }

  // ----- Resynchronisation -----

  /** A stretch that parses but is never looked at: it begins inside a listed frame and does not end before it, or
      begins with it and ends later. */
  predicate Hides(frame: Span, s: Span) {
    || (s.start == frame.start && frame.end < s.end)
    || (frame.start < s.start < frame.end && frame.end <= s.end)
  }

  ghost predicate Hidden(spans: seq<Span>, s: Span) {
    exists i :: 0 <= i < |spans| && Hides(spans[i], s)
  }

  /** The spans listed are in order and without overlap, and whatever else parses is hidden by one of them. */
  ghost predicate FramesAt<B, F>(parse: seq<B> -> Option<F>, data: seq<B>, from: nat, spans: seq<Span>) {
    && (forall i :: 0 <= i < |spans| ==> Parseable(parse, data, spans[i]) && from <= spans[i].start)
    && (forall i, j :: 0 <= i < j < |spans| ==> spans[i].end <= spans[j].start)
    && (forall s :: Parseable(parse, data, s) && from <= s.start ==> s in spans || Hidden(spans, s))
  }

  function FrameAt<B, F>(parse: seq<B> -> Option<F>, data: seq<B>, span: Span): F
    requires Parseable(parse, data, span)
  {
    parse(data[span.start..span.end]).value
  }

  function FramesOf<B, F>(parse: seq<B> -> Option<F>, data: seq<B>, spans: seq<Span>): (frames: seq<F>)
    requires forall i :: 0 <= i < |spans| ==> Parseable(parse, data, spans[i])
    ensures |frames| == |spans|
    ensures forall i :: 0 <= i < |spans| ==> frames[i] == FrameAt(parse, data, spans[i])
  {
    if spans == [] then [] else [FrameAt(parse, data, spans[0])] + FramesOf(parse, data, spans[1..])
  }

  /** The search that goes on from a position finds the first listed span. */
  lemma NextListed<B, F>(parse: seq<B> -> Option<F>, data: seq<B>, from: nat, spans: seq<Span>)
    requires from <= |data| && FramesAt(parse, data, from, spans)
    ensures match FirstSpan(parse, data[from..])
            case None => spans == []
            case Some(found) => spans != [] && spans[0] == Moved(found, from)
  {
    var suffix := data[from..];
    assert data == data[..from] + suffix;
    FirstSpanIsFirst(parse, suffix);
    match FirstSpan(parse, suffix)
    case None =>
      if spans != [] {
        SuffixSpan(parse, data[..from], suffix, Span(spans[0].start - from, spans[0].end - from));
      }
    case Some(found) =>
      SuffixSpan(parse, data[..from], suffix, found);
      FirstListed(parse, data, from, spans, found);
  }

  lemma DrainListed<B, F>(parse: seq<B> -> Option<F>, data: seq<B>, from: nat, span: Span)
    requires from <= span.start && Parseable(parse, data, span)
    requires FirstSpan(parse, data[from..]) == Some(Span(span.start - from, span.end - from))
    ensures Drain(parse, data[from..]).frames
         == [FrameAt(parse, data, span)] + Drain(parse, data[span.end..]).frames
  {
    var suffix, inner := data[from..], Span(span.start - from, span.end - from);
    assert data == data[..from] + suffix;
    SuffixSpan(parse, data[..from], suffix, inner);
    MovedSlices(data[..from], suffix, inner);
    DrainStep(parse, suffix, inner, data[span.start..span.end], data[span.end..]);
  }

  lemma {:induction false} DrainFromFindsAll<B, F>(parse: seq<B> -> Option<F>, data: seq<B>, from: nat,
                                                   spans: seq<Span>)
    requires from <= |data| && FramesAt(parse, data, from, spans)
    ensures Drain(parse, data[from..]).frames == FramesOf(parse, data, spans)
    decreases spans
  {
    NextListed(parse, data, from, spans);
    if spans != [] {
      RestListed(parse, data, from, spans);
      DrainListed(parse, data, from, spans[0]);
      DrainFromFindsAll(parse, data, spans[0].end, spans[1..]);
    }
  }

  ghost predicate Ordered(spans: seq<Span>) {
    && (forall i :: 0 <= i < |spans| ==> spans[i].start < spans[i].end)
    && (forall i, j :: 0 <= i < j < |spans| ==> spans[i].end <= spans[j].start)
  }

  /** Nothing listed or hidden comes before the first listed span. */
  lemma NothingBeforeFirst(spans: seq<Span>, s: Span)
    requires Ordered(spans) && spans != [] && (s in spans || Hidden(spans, s))
    ensures !Before(s, spans[0])
  {
    if s in spans {
      var i :| 0 <= i < |spans| && spans[i] == s;
    } else {
      var i :| 0 <= i < |spans| && Hides(spans[i], s);
      assert i > 0 ==> spans[0].end <= spans[i].start;
    }
  }

  lemma FirstListed<B, F>(parse: seq<B> -> Option<F>, data: seq<B>, from: nat, spans: seq<Span>, found: Span)
    requires from <= |data| && FramesAt(parse, data, from, spans) && IsFirst(parse, data[from..], found)
    ensures spans != [] && spans[0] == Moved(found, from)
  {
    hide Hides;
    var moved := Moved(found, from);
    assert data == data[..from] + data[from..];
    SuffixSpan(parse, data[..from], data[from..], found);
    assert Parseable(parse, data, moved);
    NothingBeforeFirst(spans, moved);
    var inner := Span(spans[0].start - from, spans[0].end - from);
    SuffixSpan(parse, data[..from], data[from..], inner);
    FirstOfTwo(parse, data[from..], found, inner);
  }

  lemma RestListed<B, F>(parse: seq<B> -> Option<F>, data: seq<B>, from: nat, spans: seq<Span>)
    requires FramesAt(parse, data, from, spans) && spans != []
    ensures FramesAt(parse, data, spans[0].end, spans[1..])
  {
    forall s | Parseable(parse, data, s) && spans[0].end <= s.start
      ensures s in spans[1..] || Hidden(spans[1..], s)
    {
      if s in spans {
        assert s != spans[0];
      } else {
        var i :| 0 <= i < |spans| && Hides(spans[i], s);
        assert i > 0 && spans[1..][i - 1] == spans[i];
      }
    }
  }

  lemma NothingInsideFirst(spans: seq<Span>, s: Span)
    requires Ordered(spans) && spans != [] && s.start < s.end && (s in spans || Hidden(spans, s))
    ensures !Inside(s, spans[0])
  {
    if s in spans {
      var i :| 0 <= i < |spans| && spans[i] == s;
    } else {
      var i :| 0 <= i < |spans| && Hides(spans[i], s);
      assert i > 0 ==> spans[0].end <= spans[i].start;
    }
  }

  lemma ListedIsHollow<B, F>(parse: seq<B> -> Option<F>, data: seq<B>, from: nat, spans: seq<Span>, first: Span)
    requires from <= |data| && FramesAt(parse, data, from, spans) && spans != [] && spans[0] == Moved(first, from)
    ensures Hollow(parse, data[from..], first)
  {
    hide Hides;
    assert data == data[..from] + data[from..];
    forall inner | Parseable(parse, data[from..], inner)
      ensures !Inside(inner, first)
    {
      var moved := Moved(inner, from);
      SuffixSpan(parse, data[..from], data[from..], inner);
      assert Parseable(parse, data, moved);
      NothingInsideFirst(spans, moved);
    }
  }

  lemma {:induction false} ListedIsClean<B, F>(parse: seq<B> -> Option<F>, data: seq<B>, from: nat, spans: seq<Span>)
    requires from <= |data| && FramesAt(parse, data, from, spans)
    ensures Clean(parse, data[from..])
    decreases spans
  {
    hide FramesAt, Clean, Hollow;
    var suffix := data[from..];
    NextListed(parse, data, from, spans);
    FirstSpanIsFirst(parse, suffix);
    if spans == [] {
      NothingFoundIsClean(parse, suffix);
    } else {
      var first := FirstSpan(parse, suffix).value;
      RestListed(parse, data, from, spans);
      ListedIsHollow(parse, data, from, spans, first);
      assert suffix[first.end..] == data[spans[0].end..];
      CleanStep(parse, suffix, first, data[spans[0].end..]);
      ListedIsClean(parse, data, spans[0].end, spans[1..]);
    }
  }

  lemma NothingListed<B, F>(parse: seq<B> -> Option<F>, data: seq<B>, from: nat)
    requires from <= |data| && NoFrame(parse, data[from..])
    ensures FramesAt(parse, data, from, [])
  {
    assert data == data[..from] + data[from..];
    forall s | Parseable(parse, data, s) && from <= s.start
      ensures false
    {
      SuffixSpan(parse, data[..from], data[from..], Span(s.start - from, s.end - from));
    }
  }

  lemma ListedLonger<B, F>(parse: seq<B> -> Option<F>, data: seq<B>, from: nat, first: Span, rest: seq<Span>)
    requires from <= |data| && IsFirst(parse, data[from..], first) && Hollow(parse, data[from..], first)
    requires FramesAt(parse, data, Moved(first, from).end, rest)
    ensures FramesAt(parse, data, from, [Moved(first, from)] + rest)
  {
    hide Hides;
    var moved := Moved(first, from);
    assert data == data[..from] + data[from..];
    SuffixSpan(parse, data[..from], data[from..], first);
    forall s | Parseable(parse, data, s) && from <= s.start
      ensures s in [moved] + rest || Hidden([moved] + rest, s)
    {
      var inner := Span(s.start - from, s.end - from);
      SuffixSpan(parse, data[..from], data[from..], inner);
      assert !Before(inner, first) && !Inside(inner, first);
      assert moved.end <= s.start ==> s in rest || Hidden(rest, s);
      OneOfMore(moved, rest, s);
    }
  }

  lemma OneOfMore(first: Span, rest: seq<Span>, s: Span)
    requires !Before(s, first) && !Inside(s, first)
    requires first.end <= s.start ==> s in rest || Hidden(rest, s)
    ensures s in [first] + rest || Hidden([first] + rest, s)
  {
    var spans := [first] + rest;
    if s.start < first.end {
      assert s == first || Hides(spans[0], s);
    } else if s !in rest {
      var i :| 0 <= i < |rest| && Hides(rest[i], s);
      assert spans[i + 1] == rest[i];
    }
  }

  /** Every clean stream can be listed like that, so that listing asks no more than that no frame has another inside. */
  lemma {:induction false} CleanIsListed<B, F>(parse: seq<B> -> Option<F>, data: seq<B>, from: nat)
    returns (spans: seq<Span>)
    requires from <= |data| && Clean(parse, data[from..])
    ensures FramesAt(parse, data, from, spans)
    decreases |data| - from
  {
    hide FramesAt, Hollow;
    var suffix := data[from..];
    FirstSpanIsFirst(parse, suffix);
    match FirstSpan(parse, suffix)
    case None =>
      NothingListed(parse, data, from);
      spans := [];
    case Some(first) =>
      assert suffix[first.end..] == data[Moved(first, from).end..];
      var rest := CleanIsListed(parse, data, Moved(first, from).end);
      ListedLonger(parse, data, from, first, rest);
      spans := [Moved(first, from)] + rest;
  }

  /** Noise before, between and after the frames is skipped: exactly the frames come out, in order,
      whatever the cuts. */
  lemma Resynchronises<B(!new), F>(parse: seq<B> -> Option<F>, chunks: seq<seq<B>>, spans: seq<Span>)
    requires ShortFrames(parse) && FramesAt(parse, Joined(chunks), 0, spans)
    ensures RunTrimmed(parse, [], chunks).frames == FramesOf(parse, Joined(chunks), spans)
  {
    assert Joined(chunks)[0..] == Joined(chunks);
    ListedIsClean(parse, Joined(chunks), 0, spans);
    ChunksDoNotMatter(parse, chunks);
    DrainFromFindsAll(parse, Joined(chunks), 0, spans);
  }
}
