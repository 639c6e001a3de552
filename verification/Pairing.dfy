/** Matching responses with the requests they answer. */
module Pairing {
  import opened Words
  import opened Models
  import opened Frames

  /** Slave and function: what a response has in common with its request. */
  type Key = (byte, byte)

  datatype Pair = Pair(request: Frame, response: Frame)

  datatype Matching = Matching(pending: map<Key, Frame>, pairs: seq<Pair>)

  function KeyOf(frame: Frame): Key {
    (frame.slave, frame.fn)
  }

  predicate IsReadEvent(frame: Frame, key: Key) {
    KeyOf(frame) == key && (IsReadRequest(frame) || IsReadResponse(frame))
  }

  /** What one frame does to the requests waiting for an answer. */
  function Observe(m: Matching, frame: Frame): Matching {
    var key := KeyOf(frame);
    if IsReadRequest(frame) then m.(pending := m.pending[key := frame])
    else if IsReadResponse(frame) && key in m.pending then
      Matching(m.pending - {key}, m.pairs + [Pair(m.pending[key], frame)])
    else m
  }

  function ObserveAll(m: Matching, frames: seq<Frame>): Matching
    decreases frames
  {
    if frames == [] then m else ObserveAll(Observe(m, frames[0]), frames[1..])
  }

  lemma {:induction false} ObserveAllAppend(m: Matching, a: seq<Frame>, b: seq<Frame>)
    ensures ObserveAll(m, a + b) == ObserveAll(ObserveAll(m, a), b)
    decreases a
  {
    if a == [] {
      assert a + b == b;
    } else {
      assert (a + b)[0] == a[0] && (a + b)[1..] == a[1..] + b;
      ObserveAllAppend(Observe(m, a[0]), a[1..], b);
    }
  }

  lemma {:induction false} EarlierPairsStay(m: Matching, frames: seq<Frame>)
    ensures ObserveAll(m, frames)
         == Matching(ObserveAll(Matching(m.pending, []), frames).pending,
                     m.pairs + ObserveAll(Matching(m.pending, []), frames).pairs)
    decreases frames
  {
    if frames != [] {
      var alone := Observe(Matching(m.pending, []), frames[0]);
      EarlierPairsStay(Observe(m, frames[0]), frames[1..]);
      EarlierPairsStay(alone, frames[1..]);
    }
  }

  // ----- The declarative meaning -----

  /** Frame i is the request that frame j answers: same slave and function, and no other read
      request or response of that slave and function in between. */
  ghost predicate Answers(frames: seq<Frame>, i: nat, j: nat)
    requires j < |frames|
  {
    i < j && IsReadRequest(frames[i]) && IsReadResponse(frames[j]) && KeyOf(frames[i]) == KeyOf(frames[j]) &&
    forall k :: i < k < j ==> !IsReadEvent(frames[k], KeyOf(frames[j]))
  }

  /** The latest read event of a key among the first n frames. */
  function LatestEvent(frames: seq<Frame>, n: nat, key: Key): Option<nat>
    requires n <= |frames|
  {
    if n == 0 then None
    else if IsReadEvent(frames[n - 1], key) then Some(n - 1)
    else LatestEvent(frames, n - 1, key)
  }

  lemma {:induction false} LatestEventIsLatest(frames: seq<Frame>, n: nat, key: Key)
    requires n <= |frames|
    ensures match LatestEvent(frames, n, key)
            case None => forall k :: 0 <= k < n ==> !IsReadEvent(frames[k], key)
            case Some(i) => i < n && IsReadEvent(frames[i], key) && forall k :: i < k < n ==>
              !IsReadEvent(frames[k], key)
  {
    if n > 0 && !IsReadEvent(frames[n - 1], key) { LatestEventIsLatest(frames, n - 1, key); }
  }

  /** The request that a frame answers, if it is a response and answers one. */
  function Partner(frames: seq<Frame>, j: nat): Option<nat>
    requires j < |frames|
  {
    if !IsReadResponse(frames[j]) then None
    else
      LatestEventIsLatest(frames, j, KeyOf(frames[j]));
      match LatestEvent(frames, j, KeyOf(frames[j]))
      case None => None
      case Some(i) => if IsReadRequest(frames[i]) then Some(i) else None
  }

  lemma PartnerIsAnswered(frames: seq<Frame>, i: nat, j: nat)
    requires j < |frames|
    ensures Partner(frames, j) == Some(i) <==> Answers(frames, i, j)
  {
    LatestEventIsLatest(frames, j, KeyOf(frames[j]));
    if Answers(frames, i, j) { assert IsReadEvent(frames[i], KeyOf(frames[j])); }
  }

  /** A request answers for one response only, and a response for one request. */
  lemma AnsweredOnce(frames: seq<Frame>, i: nat, j: nat, i': nat, j': nat)
    requires j < |frames| && j' < |frames|
    requires Answers(frames, i, j) && Answers(frames, i', j')
    ensures i == i' <==> j == j'
  {
    if i == i' && j != j' {
      var early := if j < j' then j else j';
      assert IsReadEvent(frames[early], KeyOf(frames[i]));
    }
    if j == j' && i != i' {
      var late := if i < i' then i' else i;
      assert IsReadEvent(frames[late], KeyOf(frames[j]));
    }
  }

  /** The pairs in the order of their responses. */
  function AnsweredPairs(frames: seq<Frame>, n: nat): seq<Pair>
    requires n <= |frames|
  {
    if n == 0 then []
    else
      AnsweredPairs(frames, n - 1) +
      match Partner(frames, n - 1)
      case None => []
      case Some(i) =>
        LatestEventIsLatest(frames, n - 1, KeyOf(frames[n - 1]));
        [Pair(frames[i], frames[n - 1])]
  }

  /** The table of waiting requests holds, for each key, its latest read event if that is a request. */
  ghost predicate PendingIsLatest(frames: seq<Frame>, n: nat, pending: map<Key, Frame>)
    requires n <= |frames|
  {
    forall key :: Waiting(frames, n, key) == (if key in pending then Some(pending[key]) else None)
  }

  function Waiting(frames: seq<Frame>, n: nat, key: Key): Option<Frame>
    requires n <= |frames|
  {
    LatestEventIsLatest(frames, n, key);
    match LatestEvent(frames, n, key)
    case None => None
    case Some(i) => if IsReadRequest(frames[i]) then Some(frames[i]) else None
  }

  lemma ObserveNext(frames: seq<Frame>, n: nat, m: Matching)
    requires n < |frames| && PendingIsLatest(frames, n, m.pending) && m.pairs == AnsweredPairs(frames, n)
    ensures PendingIsLatest(frames, n + 1, Observe(m, frames[n]).pending)
    ensures Observe(m, frames[n]).pairs == AnsweredPairs(frames, n + 1)
  {
    forall k: Key
      ensures Waiting(frames, n + 1, k)
           == (if k in Observe(m, frames[n]).pending then Some(Observe(m, frames[n]).pending[k]) else None)
    {
      assert Waiting(frames, n, k) == (if k in m.pending then Some(m.pending[k]) else None);
    }
  }

  lemma {:induction false} ObserveFirst(frames: seq<Frame>, n: nat)
    requires n <= |frames|
    ensures PendingIsLatest(frames, n, ObserveAll(Matching(map[], []), frames[..n]).pending)
    ensures ObserveAll(Matching(map[], []), frames[..n]).pairs == AnsweredPairs(frames, n)
  {
    if n > 0 {
      ObserveFirst(frames, n - 1);
      assert frames[..n] == frames[..n - 1] + [frames[n - 1]];
      ObserveAllAppend(Matching(map[], []), frames[..n - 1], [frames[n - 1]]);
      ObserveNext(frames, n - 1, ObserveAll(Matching(map[], []), frames[..n - 1]));
    }
  }

  /** The pairs formed are exactly those of the declarative reading. */
  lemma PairingMeetsSpec(frames: seq<Frame>)
    ensures ObserveAll(Matching(map[], []), frames).pairs == AnsweredPairs(frames, |frames|)
  {
    ObserveFirst(frames, |frames|);
    assert frames[..|frames|] == frames;
  }
}
