/** What the passive monitor makes of the traffic between a master and its slaves. */
module Traffic {
  import opened Words
  import opened Models
  import opened Frames
  import opened Scanner
  import opened Chunking
  import opened Pairing
  import opened Capture
  import Lists

  // ----- Frames on the wire -----

  /** What a frame on the wire is taken for: a response with three data bytes, for a request. */
  function Seen(frame: Frame): Frame {
    if frame.DataResponse? && |frame.data| == 3 then
      ReadRequest(frame.slave, frame.fn, Word(frame.data[0], 3), Word(frame.data[2], frame.data[1]))
    else frame
  }

  predicate Sendable(frame: Frame) {
    WellFormed(frame) || (frame.DataResponse? && IsRead(frame.fn) && frame.byteCount == 3 && |frame.data| == 3)
  }

  lemma SentIsSeen(frame: Frame)
    requires Sendable(frame)
    ensures Parse(Encode(frame)) == Ok(Seen(frame))
  {
    hide Parse, Encode;
    if WellFormed(frame) {
      ParseEncode(frame);
    } else {
      ThreeByteResponseIsARequest(frame.slave, frame.fn, frame.data);
    }
  }

  function SeenAll(frames: seq<Frame>): (seen: seq<Frame>)
    ensures |seen| == |frames|
    ensures forall i :: 0 <= i < |frames| ==> seen[i] == Seen(frames[i])
  {
    if frames == [] then [] else [Seen(frames[0])] + SeenAll(frames[1..])
  }

  lemma {:induction false} SeenAllJoined(a: seq<Frame>, b: seq<Frame>)
    ensures SeenAll(a + b) == SeenAll(a) + SeenAll(b)
    decreases a
  {
    if a == [] {
      assert a + b == b;
    } else {
      assert (a + b)[1..] == a[1..] + b;
      SeenAllJoined(a[1..], b);
    }
  }

  /** The listed spans hold the encodings of the listed frames. */
  ghost predicate OnTheWire(stream: seq<byte>, spans: seq<Span>, frames: seq<Frame>) {
    && |spans| == |frames|
    && (forall i :: 0 <= i < |frames| ==>
      Sendable(frames[i]) && spans[i].start <= spans[i].end <= |stream| &&
      stream[spans[i].start..spans[i].end] == Encode(frames[i]))
  }

  lemma WireYieldsSeen(stream: seq<byte>, from: nat, spans: seq<Span>, frames: seq<Frame>)
    requires OnTheWire(stream, spans, frames) && FramesAt(AnyFrame, stream, from, spans)
    ensures FramesOf(AnyFrame, stream, spans) == SeenAll(frames)
  {
    hide Seen, Sendable, Encode, Parse;
    var found := FramesOf(AnyFrame, stream, spans);
    forall i | 0 <= i < |frames|
      ensures found[i] == Seen(frames[i])
    {
      SentIsSeen(frames[i]);
    }
  }

  // ----- Turns -----

  /** A read request and its answer; or a frame by itself: a request that stays unanswered, an exception, a write, or an
      answer whose request was not heard. */
  datatype Turn = Asked(request: Frame, answer: Frame) | Lone(frame: Frame)

  predicate IsTurn(t: Turn) {
    t.Asked? ==> t.request.ReadRequest? && IsReadResponse(t.answer) && KeyOf(t.request) == KeyOf(t.answer)
  }

  predicate AreTurns(turns: seq<Turn>) {
    forall i :: 0 <= i < |turns| ==> IsTurn(turns[i])
  }

  function FramesOfTurn(t: Turn): seq<Frame> {
    match t
    case Asked(request, answer) => [request, answer]
    case Lone(frame) => [frame]
  }

  function Sent(turns: seq<Turn>): seq<Frame>
    decreases turns
  {
    if turns == [] then [] else Sent(turns[..|turns| - 1]) + FramesOfTurn(turns[|turns| - 1])
  }

  /** An answer that is taken for a request is lost to the monitor. */
  function PairsOfTurn(t: Turn): seq<Pair> {
    if t.Asked? && IsReadResponse(Seen(t.answer)) then [Pair(t.request, t.answer)] else []
  }

  /** The exchanges that took place and could be understood. */
  function PairsOf(turns: seq<Turn>): seq<Pair>
    decreases turns
  {
    if turns == [] then [] else PairsOf(turns[..|turns| - 1]) + PairsOfTurn(turns[|turns| - 1])
  }

  function LastFrame(t: Turn): Frame {
    match t
    case Asked(_, answer) => Seen(answer)
    case Lone(frame) => Seen(frame)
  }

  /** An answer that comes by itself. */
  predicate Stray(t: Turn) {
    t.Lone? && IsReadResponse(Seen(t.frame))
  }

  /** The request that the latest of the turns about a key has left open. */
  function OpenRequest(turns: seq<Turn>, key: Key): Option<Frame>
    decreases turns
  {
    if turns == [] then None
    else
      var frame := LastFrame(turns[|turns| - 1]);
      if KeyOf(frame) == key && IsReadRequest(frame) then Some(frame)
      else if KeyOf(frame) == key && IsReadResponse(frame) then None
      else OpenRequest(turns[..|turns| - 1], key)
  }

  /** Turn j ends with a request of the key, and no later turn ends with a request or a response of it. */
  ghost predicate LeavesOpen(turns: seq<Turn>, key: Key, j: nat)
    requires j < |turns|
  {
    KeyOf(LastFrame(turns[j])) == key && IsReadRequest(LastFrame(turns[j])) &&
    forall m :: j < m < |turns| ==> !IsReadEvent(LastFrame(turns[m]), key)
  }

  lemma {:induction false} OpenRequestIsLatest(turns: seq<Turn>, key: Key)
    ensures OpenRequest(turns, key).Some? <==> exists j :: 0 <= j < |turns| && LeavesOpen(turns, key, j)
    ensures forall j :: 0 <= j < |turns| && LeavesOpen(turns, key, j) ==>
      OpenRequest(turns, key) == Some(LastFrame(turns[j]))
    decreases turns
  {
    hide LastFrame;
    if turns != [] {
      var n := |turns| - 1;
      var front := turns[..n];
      OpenRequestIsLatest(front, key);
      if IsReadEvent(LastFrame(turns[n]), key) {
        assert IsReadRequest(LastFrame(turns[n])) ==> LeavesOpen(turns, key, n);
      } else {
        assert forall j :: 0 <= j < n ==> (LeavesOpen(turns, key, j) <==> LeavesOpen(front, key, j));
      }
    }
  }

  /** What the next turn makes the monitor pair up: its own exchange; or a stray answer with a request that an earlier
      turn has left open. */
  function Formed(before: seq<Turn>, t: Turn): seq<Pair> {
    if !Stray(t) then PairsOfTurn(t)
    else
      match OpenRequest(before, KeyOf(t.frame))
      case None => []
      case Some(request) => [Pair(request, t.frame)]
  }

  function AllFormed(turns: seq<Turn>): seq<Pair>
    decreases turns
  {
    if turns == [] then []
    else AllFormed(turns[..|turns| - 1]) + Formed(turns[..|turns| - 1], turns[|turns| - 1])
  }

  lemma ObserveOne(m: Matching, frame: Frame)
    ensures ObserveAll(m, [frame]) == Observe(m, frame)
  {
    assert [frame][1..] == [];
  }

  lemma ObserveTwo(m: Matching, a: Frame, b: Frame)
    ensures ObserveAll(m, [a, b]) == Observe(Observe(m, a), b)
  {
    assert [a, b] == [a] + [b];
    ObserveAllAppend(m, [a], [b]);
    ObserveOne(m, a);
    ObserveOne(Observe(m, a), b);
  }

  /** The table of waiting requests holds what the turns have left open. */
  ghost predicate Tracks(m: Matching, turns: seq<Turn>) {
    m.pairs == AllFormed(turns) &&
    forall key :: (if key in m.pending then Some(m.pending[key]) else None) == OpenRequest(turns, key)
  }

  lemma LoneIsTracked(m: Matching, before: seq<Turn>, frame: Frame)
    requires Tracks(m, before)
    ensures Tracks(Observe(m, Seen(frame)), before + [Lone(frame)])
  {
    hide Seen;
    var turns := before + [Lone(frame)];
    SeenKeepsKey(frame);
    assert turns[..|before|] == before;
    assert OpenRequest(before, KeyOf(frame))
        == if KeyOf(frame) in m.pending then Some(m.pending[KeyOf(frame)]) else None;
  }

  lemma SeenKeepsKey(frame: Frame)
    ensures KeyOf(Seen(frame)) == KeyOf(frame)
    ensures IsReadResponse(Seen(frame)) ==> Seen(frame) == frame
  {}

  /** An exchange leaves the pairs and the table as the last of its frames does. */
  lemma AskedIsTracked(m: Matching, before: seq<Turn>, request: Frame, answer: Frame)
    requires IsTurn(Asked(request, answer)) && Tracks(m, before)
    ensures Tracks(Observe(Observe(m, request), Seen(answer)), before + [Asked(request, answer)])
  {
    hide Seen;
    SeenKeepsKey(answer);
    SeenAnswer(answer);
    assert (before + [Asked(request, answer)])[..|before|] == before;
  }

  lemma SeenAnswer(answer: Frame)
    requires IsReadResponse(answer)
    ensures IsReadResponse(Seen(answer)) || IsReadRequest(Seen(answer))
  {}

  lemma TurnIsTracked(m: Matching, before: seq<Turn>, t: Turn)
    requires IsTurn(t) && Tracks(m, before)
    ensures Tracks(ObserveAll(m, SeenAll(FramesOfTurn(t))), before + [t])
  {
    hide Tracks, Observe, ObserveAll;
    match t
    case Asked(request, answer) =>
      assert Seen(request) == request;
      assert SeenAll([request, answer]) == [request, Seen(answer)];
      ObserveTwo(m, request, Seen(answer));
      AskedIsTracked(m, before, request, answer);
    case Lone(frame) =>
      assert SeenAll([frame]) == [Seen(frame)];
      ObserveOne(m, Seen(frame));
      LoneIsTracked(m, before, frame);
  }

  const NOTHING := Matching(map[], [])

  lemma NothingIsTracked()
    ensures Tracks(ObserveAll(NOTHING, SeenAll(Sent([]))), [])
  {}

  lemma SentLonger(front: seq<Turn>, t: Turn)
    ensures Sent(front + [t]) == Sent(front) + FramesOfTurn(t)
  {
    assert (front + [t])[..|front|] == front;
  }

  lemma {:induction false} TurnsAreTracked(turns: seq<Turn>)
    requires AreTurns(turns)
    ensures Tracks(ObserveAll(NOTHING, SeenAll(Sent(turns))), turns)
    decreases turns
  {
    hide ObserveAll, SeenAll, IsTurn, FramesOfTurn, Tracks, Sent;
    if turns == [] {
      NothingIsTracked();
    } else {
      var front, t := turns[..|turns| - 1], turns[|turns| - 1];
      TurnsAreTracked(front);
      SentLonger(front, t);
      SeenAllJoined(Sent(front), FramesOfTurn(t));
      ObserveAllAppend(NOTHING, SeenAll(Sent(front)), SeenAll(FramesOfTurn(t)));
      TurnIsTracked(ObserveAll(NOTHING, SeenAll(Sent(front))), front, t);
      assert turns == front + [t];
    }
  }

  /** Whatever turns the traffic takes, these are the pairs that the monitor forms. */
  lemma TrafficPairsUp(turns: seq<Turn>)
    requires AreTurns(turns)
    ensures PairsIn(SeenAll(Sent(turns))) == AllFormed(turns)
  {
    hide ObserveAll, SeenAll, AnsweredPairs, Sent;
    TurnsAreTracked(turns);
    PairingMeetsSpec(SeenAll(Sent(turns)));
  }

  // ----- When these are the exchanges that took place -----

  /** The turn is a stray answer about certain keys, and it is taken for the answer to an earlier request. */
  predicate Mistaken(before: seq<Turn>, t: Turn, about: Key -> bool) {
    Stray(t) && about(KeyOf(t.frame)) && OpenRequest(before, KeyOf(t.frame)).Some?
  }

  /** No stray answer about the keys comes while a request of its key is open. */
  predicate NoneMistaken(turns: seq<Turn>, about: Key -> bool) {
    forall k :: 0 <= k < |turns| ==> !Mistaken(turns[..k], turns[k], about)
  }

  function About(about: Key -> bool): Pair -> bool {
    (x: Pair) => about(KeyOf(x.request))
  }

  lemma {:induction false} OpenRequestHasKey(turns: seq<Turn>, key: Key)
    ensures OpenRequest(turns, key).Some? ==>
      IsReadRequest(OpenRequest(turns, key).value) && KeyOf(OpenRequest(turns, key).value) == key
    decreases turns
  {
    hide LastFrame;
    if turns != [] { OpenRequestHasKey(turns[..|turns| - 1], key); }
  }

  lemma NextFormed(before: seq<Turn>, t: Turn, about: Key -> bool)
    ensures var made, own := Lists.Filter(Formed(before, t), About(about)),
        Lists.Filter(PairsOfTurn(t), About(about));
      if Mistaken(before, t, about) then |own| == 0 && |made| == 1 else made == own
  {
    if t.Lone? {
      OpenRequestHasKey(before, KeyOf(t.frame));
      var x := Formed(before, t);
      if x != [] { assert x[..0] == []; }
    }
  }

  lemma NoneMistakenLonger(front: seq<Turn>, t: Turn, about: Key -> bool)
    ensures NoneMistaken(front + [t], about) <==> (NoneMistaken(front, about) && !Mistaken(front, t, about))
  {
    hide Mistaken;
    var n, turns := |front|, front + [t];
    assert forall k :: 0 <= k <= n ==> turns[..k] == front[..k];
    assert front[..n] == front && turns[n] == t;
    assert forall k :: 0 <= k < n ==> turns[k] == front[k];
  }

  /** The pairs about the keys that the monitor forms, and those of the exchanges. */
  function Made(turns: seq<Turn>, about: Key -> bool): seq<Pair> {
    Lists.Filter(AllFormed(turns), About(about))
  }

  function Held(turns: seq<Turn>, about: Key -> bool): seq<Pair> {
    Lists.Filter(PairsOf(turns), About(about))
  }

  lemma MadeLonger(front: seq<Turn>, t: Turn, about: Key -> bool)
    ensures Made(front + [t], about) == Made(front, about) + Lists.Filter(Formed(front, t), About(about))
    ensures Held(front + [t], about) == Held(front, about) + Lists.Filter(PairsOfTurn(t), About(about))
  {
    hide Lists.Filter, Formed, PairsOfTurn, About;
    assert (front + [t])[..|front|] == front;
    Lists.FilterJoined(AllFormed(front), Formed(front, t), About(about));
    Lists.FilterJoined(PairsOf(front), PairsOfTurn(t), About(about));
  }

  lemma {:induction false} FormedExactly(turns: seq<Turn>, about: Key -> bool)
    ensures |Made(turns, about)| >= |Held(turns, about)|
    ensures if NoneMistaken(turns, about) then Made(turns, about) == Held(turns, about)
      else |Made(turns, about)| > |Held(turns, about)|
    decreases turns
  {
    if turns != [] {
      hide Mistaken, NoneMistaken, Made, Held;
      var n := |turns| - 1;
      FormedExactly(turns[..n], about);
      assert turns == turns[..n] + [turns[n]];
      NextFormed(turns[..n], turns[n], about);
      MadeLonger(turns[..n], turns[n], about);
      NoneMistakenLonger(turns[..n], turns[n], about);
    }
  }

  /** Of certain keys, the pairs that the monitor forms are the exchanges that took place, exactly if no stray answer of
      such a key meets an open request.  What happens under other keys does not matter. */
  lemma PairsAreExchangesExactly(turns: seq<Turn>, about: Key -> bool)
    requires AreTurns(turns)
    ensures Lists.Filter(PairsIn(SeenAll(Sent(turns))), About(about)) == Lists.Filter(PairsOf(turns), About(about))
       <==> NoneMistaken(turns, about)
  {
    hide SeenAll, Sent, AreTurns, AllFormed, PairsOf, NoneMistaken, PairsIn, About, Lists.Filter;
    TrafficPairsUp(turns);
    FormedExactly(turns, about);
  }

  // ----- From the bytes -----

  /** From a stream that carries turns, with noise around its frames and cut in any way, the capture forms these
      pairs. */
  lemma CaptureRecoversTurns(chunks: seq<seq<byte>>, spans: seq<Span>, turns: seq<Turn>)
    requires AreTurns(turns)
    requires FramesAt(AnyFrame, Joined(chunks), 0, spans) && OnTheWire(Joined(chunks), spans, Sent(turns))
    ensures PairsIn(RunUntrimmed(AnyFrame, [], chunks).frames) == AllFormed(turns)
    ensures forall about :: NoneMistaken(turns, about) <==>
      Lists.Filter(PairsIn(RunUntrimmed(AnyFrame, [], chunks).frames), About(about)) ==
        Lists.Filter(PairsOf(turns), About(about))
  {
    hide PairsIn, OnTheWire, FramesAt, RunUntrimmed, RunTrimmed, SeenAll, AnyFrame, NoneMistaken, Lists.Filter, About,
      AreTurns, AllFormed, PairsOf;
    MonitorFramesAreShort();
    Resynchronises(AnyFrame, chunks, spans);
    TrimmingLosesNothing(AnyFrame, chunks);
    WireYieldsSeen(Joined(chunks), 0, spans, Sent(turns));
    TrafficPairsUp(turns);
    forall about
      ensures NoneMistaken(turns, about) <==>
        Lists.Filter(PairsIn(SeenAll(Sent(turns))), About(about)) == Lists.Filter(PairsOf(turns), About(about))
    {
      PairsAreExchangesExactly(turns, about);
    }
  }

  function Lones(frames: seq<Frame>): (turns: seq<Turn>)
    ensures |turns| == |frames|
    decreases frames
  {
    if frames == [] then [] else Lones(frames[..|frames| - 1]) + [Lone(frames[|frames| - 1])]
  }

  ghost predicate Carry(turns: seq<Turn>, frames: seq<Frame>) {
    Sent(turns) == frames && AreTurns(turns)
  }

  lemma OneMoreLone(turns: seq<Turn>, frames: seq<Frame>, frame: Frame)
    requires Carry(turns, frames)
    ensures Carry(turns + [Lone(frame)], frames + [frame])
  {
    hide Sent;
    SentLonger(turns, Lone(frame));
  }

  lemma {:induction false} LonesSend(frames: seq<Frame>)
    ensures Carry(Lones(frames), frames)
    decreases frames
  {
    if frames != [] {
      hide Carry;
      var front, frame := frames[..|frames| - 1], frames[|frames| - 1];
      LonesSend(front);
      OneMoreLone(Lones(front), front, frame);
      assert frames == front + [frame];
    }
  }

  lemma ListedAreSent(stream: seq<byte>, spans: seq<Span>)
    requires forall i :: 0 <= i < |spans| ==> Parseable(AnyFrame, stream, spans[i])
    ensures OnTheWire(stream, spans, FramesOf(AnyFrame, stream, spans))
  {
    hide Parse, Encode, WellFormed;
    var frames := FramesOf(AnyFrame, stream, spans);
    forall i | 0 <= i < |frames|
      ensures Sendable(frames[i]) && stream[spans[i].start..spans[i].end] == Encode(frames[i])
    {
      EncodeParse(stream[spans[i].start..spans[i].end]);
    }
  }

  /** Every stream in which no frame has another inside carries some turns; noise that parses is a frame too. */
  lemma CleanStreamsCarryTurns(stream: seq<byte>) returns (spans: seq<Span>, turns: seq<Turn>)
    requires Clean(AnyFrame, stream)
    ensures AreTurns(turns) && FramesAt(AnyFrame, stream, 0, spans) && OnTheWire(stream, spans, Sent(turns))
  {
    hide OnTheWire, Sent, AreTurns, Clean;
    assert stream[0..] == stream;
    spans := CleanIsListed(AnyFrame, stream, 0);
    var frames := FramesOf(AnyFrame, stream, spans);
    ListedAreSent(stream, spans);
    LonesSend(frames);
    turns := Lones(frames);
  }
}
