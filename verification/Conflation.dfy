/** A queue that holds at most one entry per key, ordered by last update. */
module Conflation {
  import opened Models
  import opened Dict
  import opened Lists

  /** A put replaces the waiting entry of the same key and goes to the end. */
  function PutEntry<K(==), V>(queue: seq<Entry<K, V>>, e: Entry<K, V>): seq<Entry<K, V>> {
    Delete(queue, e.key) + [e]
  }

  function PutAll<K(==), V>(queue: seq<Entry<K, V>>, entries: seq<Entry<K, V>>): seq<Entry<K, V>>
    decreases entries
  {
    if entries == [] then queue else PutEntry(PutAll(queue, entries[..|entries| - 1]), entries[|entries| - 1])
  }

  // ----- Runs -----

  datatype Op<K, V> = Put(entry: Entry<K, V>) | Get

  /** What waits in the queue, and what the consumer has taken. */
  datatype Queue<K, V> = Queue(waiting: seq<Entry<K, V>>, taken: seq<Entry<K, V>>)

  function Apply<K(==), V>(q: Queue<K, V>, op: Op<K, V>): Queue<K, V> {
    match op
    case Put(e) => q.(waiting := PutEntry(q.waiting, e))
    case Get => if q.waiting == [] then q else Queue(q.waiting[1..], q.taken + [q.waiting[0]])
  }

  function Run<K(==), V>(ops: seq<Op<K, V>>): Queue<K, V>
    decreases ops
  {
    if ops == [] then Queue([], []) else Apply(Run(ops[..|ops| - 1]), ops[|ops| - 1])
  }

  /** Everything put, as a plain first-in first-out queue would deliver it. */
  function Puts<K, V>(ops: seq<Op<K, V>>): seq<Entry<K, V>>
    decreases ops
  {
    if ops == [] then []
    else
      var op := ops[|ops| - 1];
      Puts(ops[..|ops| - 1]) + if op.Put? then [op.entry] else []
  }

  /** What the consumer has taken once it has drained the queue. */
  function Drained<K(==), V>(ops: seq<Op<K, V>>): seq<Entry<K, V>> {
    Run(ops).taken + Run(ops).waiting
  }

  lemma RunLonger<K, V>(ops: seq<Op<K, V>>, op: Op<K, V>)
    ensures Run(ops + [op]) == Apply(Run(ops), op)
    ensures Puts(ops + [op]) == Puts(ops) + if op.Put? then [op.entry] else []
  {
    assert (ops + [op])[..|ops|] == ops;
  }

  // ----- Deleting -----

  lemma {:induction false} DeleteMembers<K, V>(d: seq<Entry<K, V>>, key: K, e: Entry<K, V>)
    requires UniqueKeys(d)
    ensures e in Delete(d, key) <==> e in d && e.key != key
    decreases d
  {
    if d != [] {
      if d[0].key == key {
        assert forall i :: 0 <= i < |d[1..]| ==> d[1..][i] == d[i + 1];
      } else {
        DeleteMembers(d[1..], key, e);
      }
    }
  }

  lemma {:induction false} DeleteUnique<K, V>(d: seq<Entry<K, V>>, key: K)
    requires UniqueKeys(d)
    ensures UniqueKeys(Delete(d, key))
    decreases d
  {
    if d != [] && d[0].key != key {
      var tail := Delete(d[1..], key);
      DeleteUnique(d[1..], key);
      forall j | 0 <= j < |tail|
        ensures tail[j].key != d[0].key
      {
        DeleteMembers(d[1..], key, tail[j]);
        var k :| 0 <= k < |d[1..]| && d[1..][k] == tail[j];
        assert d[k + 1] == tail[j];
      }
    }
  }

  lemma PutUnique<K, V>(queue: seq<Entry<K, V>>, e: Entry<K, V>)
    requires UniqueKeys(queue)
    ensures UniqueKeys(PutEntry(queue, e))
  {
    DeleteUnique(queue, e.key);
    var rest := Delete(queue, e.key);
    forall j | 0 <= j < |rest|
      ensures rest[j].key != e.key
    {
      DeleteMembers(queue, e.key, rest[j]);
    }
  }

  // ----- What waits -----

  ghost predicate FromPuts<K, V>(q: Queue<K, V>, puts: seq<Entry<K, V>>) {
    && UniqueKeys(q.waiting)
    && forall e :: e in q.waiting ==> e in puts
  }

  lemma PutKeepsFromPuts<K, V>(q: Queue<K, V>, puts: seq<Entry<K, V>>, e: Entry<K, V>)
    requires FromPuts(q, puts)
    ensures FromPuts(Apply(q, Put(e)), puts + [e])
  {
    PutUnique(q.waiting, e);
    forall x | x in PutEntry(q.waiting, e)
      ensures x in puts + [e]
    {
      if x != e { DeleteMembers(q.waiting, e.key, x); }
    }
  }

  lemma {:induction false} RunFromPuts<K, V>(ops: seq<Op<K, V>>)
    ensures FromPuts(Run(ops), Puts(ops))
    decreases ops
  {
    if ops != [] {
      var front, op := ops[..|ops| - 1], ops[|ops| - 1];
      RunFromPuts(front);
      match op
      case Put(e) => PutKeepsFromPuts(Run(front), Puts(front), e);
      case Get =>
    }
  }

  lemma {:induction false} DeleteKeepsFilter<K, V>(d: seq<Entry<K, V>>, key: K, p: Entry<K, V> -> bool)
    requires forall e :: e in d && e.key == key ==> !p(e)
    ensures Filter(Delete(d, key), p) == Filter(d, p)
    decreases d
  {
    if d != [] {
      assert d == [d[0]] + d[1..];
      FilterJoined([d[0]], d[1..], p);
      if d[0].key != key {
        DeleteKeepsFilter(d[1..], key, p);
        FilterJoined([d[0]], Delete(d[1..], key), p);
      }
    }
  }

  /** Entries of a kind whose keys are never put again. */
  ghost predicate Unrepeated<K, V>(puts: seq<Entry<K, V>>, p: Entry<K, V> -> bool) {
    forall i, j :: 0 <= i < j < |puts| && puts[i].key == puts[j].key ==> !p(puts[i]) && !p(puts[j])
  }

  lemma ReplacedHasNot<K, V>(q: Queue<K, V>, puts: seq<Entry<K, V>>, e: Entry<K, V>, p: Entry<K, V> -> bool)
    requires FromPuts(q, puts) && Unrepeated(puts + [e], p)
    ensures forall x :: x in q.waiting && x.key == e.key ==> !p(x)
  {
    forall x | x in q.waiting && x.key == e.key
      ensures !p(x)
    {
      var i :| 0 <= i < |puts| && puts[i] == x;
      assert (puts + [e])[i] == x && (puts + [e])[|puts|] == e;
    }
  }

  lemma PutKeepsFilter<K, V>(q: Queue<K, V>, puts: seq<Entry<K, V>>, e: Entry<K, V>, p: Entry<K, V> -> bool)
    requires FromPuts(q, puts) && Unrepeated(puts + [e], p)
    requires Filter(q.taken + q.waiting, p) == Filter(puts, p)
    ensures Filter(q.taken + PutEntry(q.waiting, e), p) == Filter(puts + [e], p)
  {
    ReplacedHasNot(q, puts, e, p);
    hide Filter, Delete, FromPuts, Unrepeated;
    DeleteKeepsFilter(q.waiting, e.key, p);
    FilterJoined(q.taken, q.waiting, p);
    FilterThrough(q.taken, q.waiting, Delete(q.waiting, e.key), e, p);
    FilterJoined(puts, [e], p);
  }

  /** Entries that no other put shares a key with are all delivered, in the order in which they were put. */
  lemma {:induction false} UnrepeatedAreDelivered<K, V>(ops: seq<Op<K, V>>, p: Entry<K, V> -> bool)
    requires Unrepeated(Puts(ops), p)
    ensures Filter(Drained(ops), p) == Filter(Puts(ops), p)
    decreases ops
  {
    if ops != [] {
      var front, op := ops[..|ops| - 1], ops[|ops| - 1];
      var q, puts := Run(front), Puts(front);
      var more := if op.Put? then [op.entry] else [];
      assert forall i :: 0 <= i < |puts| ==> (puts + more)[i] == puts[i];
      UnrepeatedAreDelivered(front, p);
      RunFromPuts(front);
      match op
      case Put(e) =>
        PutKeepsFilter(q, puts, e, p);
        assert Drained(ops) == q.taken + PutEntry(q.waiting, e) && Puts(ops) == puts + [e];
      case Get =>
        assert Puts(ops) == puts;
        if q.waiting != [] {
          assert (q.taken + [q.waiting[0]]) + q.waiting[1..] == q.taken + q.waiting;
        }
    }
  }

  // ----- The order of delivery -----

  /** The consumer sees entries in the order of the puts they stem from. */
  ghost predicate InOrder<K, V>(drained: seq<Entry<K, V>>, puts: seq<Entry<K, V>>, at: seq<nat>) {
    && |at| == |drained|
    && (forall i :: 0 <= i < |at| ==> at[i] < |puts| && puts[at[i]] == drained[i])
    && (forall i, j :: 0 <= i < j < |at| ==> at[i] < at[j])
  }

  /** Every put is delivered, or a later put of its key is. */
  ghost predicate Represents<K, V>(drained: seq<Entry<K, V>>, puts: seq<Entry<K, V>>, at: seq<nat>)
    requires |at| == |drained|
  {
    forall j :: 0 <= j < |puts| ==> StandsFor(drained, at, puts[j].key, j)
  }

  ghost predicate StandsFor<K, V>(drained: seq<Entry<K, V>>, at: seq<nat>, key: K, j: nat)
    requires |at| == |drained|
  {
    exists i :: 0 <= i < |at| && j <= at[i] && drained[i].key == key
  }

  /** What deleting takes away: one entry, or none. */
  lemma {:induction false} DeletePosition<K, V>(d: seq<Entry<K, V>>, key: K) returns (k: nat)
    ensures k <= |d| && (k < |d| ==> d[k].key == key)
    ensures Delete(d, key) == if k < |d| then Without(d, k) else d
    decreases d
  {
    if d == [] {
      k := 0;
    } else if d[0].key == key {
      k := 0;
      assert Without(d, 0) == d[1..];
    } else {
      k := DeletePosition(d[1..], key);
      assert d == [d[0]] + d[1..];
      if k < |d| - 1 { assert Without(d, k + 1) == [d[0]] + Without(d[1..], k); }
      k := k + 1;
    }
  }

  function Without<T>(s: seq<T>, k: nat): (r: seq<T>)
    requires k < |s|
    ensures |r| == |s| - 1
  {
    s[..k] + s[k + 1..]
  }

  lemma WithoutAt<T>(s: seq<T>, k: nat, i: nat)
    requires k < |s| && i < |s| - 1
    ensures Without(s, k)[i] == s[if i < k then i else i + 1]
  {}

  lemma WithoutInOrder<K, V>(drained: seq<Entry<K, V>>, puts: seq<Entry<K, V>>, at: seq<nat>, k: nat)
    requires InOrder(drained, puts, at) && k < |drained|
    ensures InOrder(Without(drained, k), puts, Without(at, k))
  {
    hide Without;
    forall i | 0 <= i < |at| - 1
      ensures Without(at, k)[i] == at[if i < k then i else i + 1]
      ensures Without(drained, k)[i] == drained[if i < k then i else i + 1]
    {
      WithoutAt(at, k, i);
      WithoutAt(drained, k, i);
    }
  }

  lemma StillStands<K, V>(drained: seq<Entry<K, V>>, at: seq<nat>, k: nat, key: K, j: nat)
    requires |at| == |drained| && k < |drained| && drained[k].key != key && StandsFor(drained, at, key, j)
    ensures StandsFor(Without(drained, k), Without(at, k), key, j)
  {
    hide Without;
    var i :| 0 <= i < |at| && j <= at[i] && drained[i].key == key;
    var m := if i < k then i else i - 1;
    WithoutAt(at, k, m);
    WithoutAt(drained, k, m);
  }

  lemma OneMoreInOrder<K, V>(drained: seq<Entry<K, V>>, puts: seq<Entry<K, V>>, at: seq<nat>, e: Entry<K, V>)
    requires InOrder(drained, puts, at)
    ensures InOrder(drained + [e], puts + [e], at + [|puts|])
  {
    assert forall i :: 0 <= i < |puts| ==> (puts + [e])[i] == puts[i];
  }

  lemma StandsLonger<K, V>(drained: seq<Entry<K, V>>, at: seq<nat>, key: K, j: nat, e: Entry<K, V>, n: nat)
    requires |at| == |drained|
    requires StandsFor(drained, at, key, j) || (key == e.key && j <= n)
    ensures StandsFor(drained + [e], at + [n], key, j)
  {
    if StandsFor(drained, at, key, j) {
      var i :| 0 <= i < |at| && j <= at[i] && drained[i].key == key;
      assert (at + [n])[i] == at[i] && (drained + [e])[i] == drained[i];
    } else {
      assert (at + [n])[|at|] == n && (drained + [e])[|at|] == e;
    }
  }

  /** A put may take away an entry of its own key; it stands for all earlier ones. */
  lemma PutRepresents<K, V>(drained: seq<Entry<K, V>>, puts: seq<Entry<K, V>>, at: seq<nat>, e: Entry<K, V>,
                            kept: seq<Entry<K, V>>, keptAt: seq<nat>)
    requires |at| == |drained| && |keptAt| == |kept| && Represents(drained, puts, at)
    requires (kept == drained && keptAt == at) ||
             exists k :: 0 <= k < |drained| && drained[k].key == e.key && kept == Without(drained, k) &&
               keptAt == Without(at, k)
    ensures Represents(kept + [e], puts + [e], keptAt + [|puts|])
  {
    hide StandsFor, Without;
    forall j | 0 <= j < |puts + [e]|
      ensures StandsFor(kept + [e], keptAt + [|puts|], (puts + [e])[j].key, j)
    {
      var key := (puts + [e])[j].key;
      if key != e.key {
        assert StandsFor(drained, at, puts[j].key, j);
        if kept != drained || keptAt != at {
          var k :| 0 <= k < |drained| && drained[k].key == e.key && kept == Without(drained, k) &&
            keptAt == Without(at, k);
          StillStands(drained, at, k, key, j);
        }
      }
      StandsLonger(kept, keptAt, key, j, e, |puts|);
    }
  }

  lemma WithoutSecond<T>(a: seq<T>, b: seq<T>, k: nat)
    requires k < |b|
    ensures a + Without(b, k) == Without(a + b, |a| + k)
  {}

  lemma PutInOrder<K, V>(q: Queue<K, V>, puts: seq<Entry<K, V>>, at: seq<nat>, e: Entry<K, V>) returns (at': seq<nat>)
    requires InOrder(q.taken + q.waiting, puts, at) && Represents(q.taken + q.waiting, puts, at)
    ensures var drained := q.taken + PutEntry(q.waiting, e);
      InOrder(drained, puts + [e], at') && Represents(drained, puts + [e], at')
  {
    hide Represents, Without, Delete;
    var all := q.taken + q.waiting;
    var k := DeletePosition(q.waiting, e.key);
    var kept, keptAt := q.taken + Delete(q.waiting, e.key), at;
    if k < |q.waiting| {
      WithoutSecond(q.taken, q.waiting, k);
      WithoutInOrder(all, puts, at, |q.taken| + k);
      keptAt := Without(at, |q.taken| + k);
      assert all[|q.taken| + k] == q.waiting[k];
    }
    OneMoreInOrder(kept, puts, keptAt, e);
    PutRepresents(all, puts, at, e, kept, keptAt);
    at' := keptAt + [|puts|];
    assert q.taken + PutEntry(q.waiting, e) == kept + [e];
  }

  /** Draining delivers puts in order, and every put or a later one of its key; so the last put of each key is
      delivered. */
  lemma {:induction false} DrainIsInOrder<K, V>(ops: seq<Op<K, V>>) returns (at: seq<nat>)
    ensures InOrder(Drained(ops), Puts(ops), at) && Represents(Drained(ops), Puts(ops), at)
    decreases ops
  {
    if ops == [] {
      at := [];
    } else {
      hide InOrder, Represents, PutEntry;
      var front, op := ops[..|ops| - 1], ops[|ops| - 1];
      var q, puts := Run(front), Puts(front);
      at := DrainIsInOrder(front);
      match op
      case Put(e) =>
        at := PutInOrder(q, puts, at, e);
        assert Puts(ops) == puts + [e] && Drained(ops) == q.taken + PutEntry(q.waiting, e);
      case Get =>
        if q.waiting != [] {
          assert (q.taken + [q.waiting[0]]) + q.waiting[1..] == q.taken + q.waiting;
        }
        assert Puts(ops) == puts;
    }
  }

  /** A put that no later one replaces is delivered as such. */
  lemma LastPutIsDelivered<K, V>(drained: seq<Entry<K, V>>, puts: seq<Entry<K, V>>, at: seq<nat>, k: nat)
    returns (i: nat)
    requires InOrder(drained, puts, at) && Represents(drained, puts, at)
    requires k < |puts| && forall j :: k < j < |puts| ==> puts[j].key != puts[k].key
    ensures i < |at| && at[i] == k
  {
    assert StandsFor(drained, at, puts[k].key, k);
    i :| 0 <= i < |at| && k <= at[i] && drained[i].key == puts[k].key;
    assert puts[at[i]] == drained[i];
  }

  // ----- What a full drain ends with -----

  /** A put of the kind that is replaced under its key is followed by another put of the kind. */
  ghost predicate Spared<K, V>(puts: seq<Entry<K, V>>, p: Entry<K, V> -> bool) {
    forall i, j :: 0 <= i < j < |puts| && puts[i].key == puts[j].key && p(puts[i]) ==>
      exists m :: i < m < |puts| && p(puts[m])
  }

  lemma SparedEndsAlike<K, V>(ops: seq<Op<K, V>>, p: Entry<K, V> -> bool)
    requires Spared(Puts(ops), p)
    ensures Last(Drained(ops), p) == Last(Puts(ops), p)
  {
    hide Run, Puts, Last, Drained, Represents;
    var drained, puts := Drained(ops), Puts(ops);
    var at := DrainIsInOrder(ops);
    if Last(puts, p).None? {
      LastIsMember(puts, p);
      LastIsMember(drained, p);
      assert forall i :: 0 <= i < |drained| ==> drained[i] == puts[at[i]] && puts[at[i]] in puts;
    } else {
      var k := LastIndex(puts, p);
      var i := LastPutIsDelivered(drained, puts, at, k);
      forall m | i < m < |drained|
        ensures !p(drained[m])
      {
        assert drained[m] == puts[at[m]];
      }
      LastAt(drained, p, i);
    }
  }

  /** What has a property is replaced, under its key, only by what has it too. */
  ghost predicate Stable<K, V>(puts: seq<Entry<K, V>>, p: Entry<K, V> -> bool) {
    forall i, j :: 0 <= i < j < |puts| && puts[i].key == puts[j].key && p(puts[i]) ==> p(puts[j])
  }

  /** For every interleaving of puts and gets, a full drain ends with the same last entry of every stable kind
      as taking every single put would. */
  lemma DrainEndsAlike<K, V>(ops: seq<Op<K, V>>, p: Entry<K, V> -> bool)
    requires Stable(Puts(ops), p)
    ensures Last(Drained(ops), p) == Last(Puts(ops), p)
  {
    hide Puts, Drained, Last;
    SparedEndsAlike(ops, p);
  }

  /** What waits under a key is the newest put of that key. */
  lemma WaitingIsNewest<K, V>(ops: seq<Op<K, V>>, e: Entry<K, V>)
    requires e in Run(ops).waiting
    ensures Last(Puts(ops), (x: Entry<K, V>) => x.key == e.key) == Some(e)
  {
    var p := (x: Entry<K, V>) => x.key == e.key;
    var q := Run(ops);
    DrainEndsAlike(ops, p);
    RunFromPuts(ops);
    LastJoined(q.taken, q.waiting, p);
    LastIsMember(q.waiting, p);
  }

  function PutsOnly<K, V>(entries: seq<Entry<K, V>>): seq<Op<K, V>>
    decreases entries
  {
    if entries == [] then [] else PutsOnly(entries[..|entries| - 1]) + [Put(entries[|entries| - 1])]
  }

  lemma {:induction false} PutsOnlyRun<K, V>(entries: seq<Entry<K, V>>)
    ensures Puts(PutsOnly(entries)) == entries && Run(PutsOnly(entries)).taken == []
    decreases entries
  {
    if entries != [] {
      var n := |entries| - 1;
      PutsOnlyRun(entries[..n]);
      RunLonger(PutsOnly(entries[..n]), Put(entries[n]));
    }
  }

  /** With no get in between, a last put of the kind that is replaced is lost. */
  lemma ReplacedIsLost<K, V>(puts: seq<Entry<K, V>>, p: Entry<K, V> -> bool)
    requires !Spared(puts, p)
    ensures Last(Drained(PutsOnly(puts)), p) != Last(puts, p)
  {
    hide Run, Puts, Last, PutsOnly;
    var i, j :| 0 <= i < j < |puts| && puts[i].key == puts[j].key && p(puts[i]) &&
      forall m :: i < m < |puts| ==> !p(puts[m]);
    var drained := Drained(PutsOnly(puts));
    LastAt(puts, p, i);
    PutsOnlyRun(puts);
    LastIsMember(drained, p);
    if Last(drained, p) == Some(puts[i]) { OthersWait(puts, p, i, j, puts[i]); }
  }

  /** After puts alone, nothing of the kind waits under the key of its last put if that was replaced. */
  lemma OthersWait<K, V>(puts: seq<Entry<K, V>>, p: Entry<K, V> -> bool, i: nat, j: nat, e: Entry<K, V>)
    requires i < j < |puts| && puts[i].key == puts[j].key && p(puts[i]) && forall m :: i < m < |puts| ==> !p(puts[m])
    requires e in Drained(PutsOnly(puts)) && p(e)
    ensures e in puts && e.key != puts[i].key
  {
    hide Run, Puts, PutsOnly, Last, UniqueKeys;
    PutsOnlyRun(puts);
    assert Drained(PutsOnly(puts)) == Run(PutsOnly(puts)).waiting;
    WaitingIsNewest(PutsOnly(puts), e);
    var same := (x: Entry<K, V>) => x.key == e.key;
    LastIsMember(puts, same);
    var k := LastIndex(puts, same);
    assert same(puts[j]) || e.key != puts[j].key;
  }

  /** All interleavings of some puts with gets end with the last put of a kind, exactly if every put of the kind that is
      replaced is followed by another. */
  lemma InterleavingsAgreeExactly<K(!new), V(!new)>(puts: seq<Entry<K, V>>, p: Entry<K, V> -> bool)
    ensures Spared(puts, p) <==> forall ops :: Puts(ops) == puts ==> Last(Drained(ops), p) == Last(puts, p)
  {
    hide Puts, Last, Drained, Spared;
    if Spared(puts, p) {
      forall ops | Puts(ops) == puts
        ensures Last(Drained(ops), p) == Last(puts, p)
      {
        SparedEndsAlike(ops, p);
      }
    } else {
      PutsOnlyRun(puts);
      ReplacedIsLost(puts, p);
    }
  }
}
