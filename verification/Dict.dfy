/** Dictionaries that remember the order in which keys were first stored. */
module Dict {
  import opened Models

  datatype Entry<K, V> = Entry(key: K, value: V)

  /** A stored key keeps its place; a new one goes to the end. */
  function Store<K(==), V>(d: seq<Entry<K, V>>, key: K, value: V): seq<Entry<K, V>> {
    if d == [] then [Entry(key, value)]
    else if d[0].key == key then [Entry(key, value)] + d[1..]
    else [d[0]] + Store(d[1..], key, value)
  }

  function Lookup<K(==), V>(d: seq<Entry<K, V>>, key: K): Option<V> {
    if d == [] then None
    else if d[0].key == key then Some(d[0].value)
    else Lookup(d[1..], key)
  }

  function Delete<K(==), V>(d: seq<Entry<K, V>>, key: K): seq<Entry<K, V>> {
    if d == [] then []
    else if d[0].key == key then d[1..]
    else [d[0]] + Delete(d[1..], key)
  }

  ghost predicate UniqueKeys<K, V>(d: seq<Entry<K, V>>) {
    forall i, j :: 0 <= i < j < |d| ==> d[i].key != d[j].key
  }

  lemma {:induction false} LookupStore<K, V>(d: seq<Entry<K, V>>, key: K, value: V, other: K)
    ensures Lookup(Store(d, key, value), other) == if other == key then Some(value) else Lookup(d, other)
    decreases d
  {
    if d != [] && d[0].key != key {
      assert ([d[0]] + Store(d[1..], key, value))[1..] == Store(d[1..], key, value);
      LookupStore(d[1..], key, value, other);
    } else if d != [] {
      assert ([Entry(key, value)] + d[1..])[1..] == d[1..];
    }
  }

  /** Storing touches one entry: every entry afterwards is the new one or was there before. */
  lemma {:induction false} StoreMembers<K, V>(d: seq<Entry<K, V>>, key: K, value: V, e: Entry<K, V>)
    requires e in Store(d, key, value)
    ensures e == Entry(key, value) || e in d
    decreases d
  {
    if d != [] && d[0].key != key && e != d[0] {
      StoreMembers(d[1..], key, value, e);
    }
  }

  lemma {:induction false} StoreUnique<K, V>(d: seq<Entry<K, V>>, key: K, value: V)
    requires UniqueKeys(d)
    ensures UniqueKeys(Store(d, key, value))
    decreases d
  {
    if d != [] && d[0].key != key {
      var tail := Store(d[1..], key, value);
      StoreUnique(d[1..], key, value);
      forall j | 0 <= j < |tail|
        ensures tail[j].key != d[0].key
      {
        StoreMembers(d[1..], key, value, tail[j]);
        if tail[j] in d[1..] {
          var k :| 0 <= k < |d[1..]| && d[1..][k] == tail[j];
          assert d[k + 1] == tail[j];
        }
      }
    }
  }

  lemma {:induction false} LookupMember<K, V>(d: seq<Entry<K, V>>, e: Entry<K, V>)
    requires UniqueKeys(d) && e in d
    ensures Lookup(d, e.key) == Some(e.value)
    decreases d
  {
    if d[0] != e {
      assert d[0].key != e.key by {
        var k :| 0 <= k < |d| && d[k] == e;
      }
      LookupMember(d[1..], e);
    }
  }

  lemma {:induction false} LookupFound<K, V>(d: seq<Entry<K, V>>, key: K)
    requires Lookup(d, key).Some?
    ensures Entry(key, Lookup(d, key).value) in d
    decreases d
  {
    if d[0].key != key { LookupFound(d[1..], key); }
  }

  lemma {:induction false} LookupLonger<K, V>(front: seq<Entry<K, V>>, last: Entry<K, V>, key: K)
    ensures Lookup(front + [last], key)
         == if Lookup(front, key).Some? then Lookup(front, key) else if last.key == key then Some(last.value) else None
    decreases front
  {
    if front != [] && front[0].key != key {
      assert (front + [last])[1..] == front[1..] + [last];
      LookupLonger(front[1..], last, key);
    }
  }

  lemma {:induction false} LookupAbsent<K, V>(d: seq<Entry<K, V>>, key: K)
    requires forall i :: 0 <= i < |d| ==> d[i].key != key
    ensures Lookup(d, key).None?
    decreases d
  {
    if d != [] { LookupAbsent(d[1..], key); }
  }

  lemma LookupLastUnique<K, V>(front: seq<Entry<K, V>>, last: Entry<K, V>)
    requires UniqueKeys(front + [last])
    ensures UniqueKeys(front) && Lookup(front, last.key).None?
  {
    assert forall i :: 0 <= i < |front| ==> (front + [last])[i] == front[i];
    forall i | 0 <= i < |front|
      ensures front[i].key != last.key
    {
      assert (front + [last])[|front|] == last;
    }
    LookupAbsent(front, last.key);
  }
}
