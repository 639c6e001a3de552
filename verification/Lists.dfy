/** The last element with a property, and all elements with one. */
module Lists {
  import opened Models

  function Last<T>(s: seq<T>, p: T -> bool): Option<T>
    decreases s
  {
    if s == [] then None
    else if p(s[|s| - 1]) then Some(s[|s| - 1])
    else Last(s[..|s| - 1], p)
  }

  lemma {:induction false} LastJoined<T>(a: seq<T>, b: seq<T>, p: T -> bool)
    ensures Last(a + b, p) == if Last(b, p).Some? then Last(b, p) else Last(a, p)
    decreases b
  {
    if b == [] {
      assert a + b == a;
    } else {
      var n := |b| - 1;
      assert (a + b)[..|a + b| - 1] == a + b[..n];
      if !p(b[n]) { LastJoined(a, b[..n], p); }
    }
  }

  lemma {:induction false} LastIsMember<T>(s: seq<T>, p: T -> bool)
    ensures Last(s, p).Some? ==> Last(s, p).value in s && p(Last(s, p).value)
    ensures Last(s, p).None? ==> forall e :: e in s ==> !p(e)
    decreases s
  {
    if s != [] {
      var n := |s| - 1;
      assert s == s[..n] + [s[n]];
      LastIsMember(s[..n], p);
    }
  }

  lemma {:induction false} LastIndex<T>(s: seq<T>, p: T -> bool) returns (k: nat)
    requires Last(s, p).Some?
    ensures k < |s| && s[k] == Last(s, p).value && p(s[k]) && forall m :: k < m < |s| ==> !p(s[m])
    decreases s
  {
    var n := |s| - 1;
    if p(s[n]) { k := n; } else { k := LastIndex(s[..n], p); }
  }

  lemma {:induction false} LastAt<T>(s: seq<T>, p: T -> bool, k: nat)
    requires k < |s| && p(s[k]) && forall m :: k < m < |s| ==> !p(s[m])
    ensures Last(s, p) == Some(s[k])
    decreases s
  {
    if k < |s| - 1 { LastAt(s[..|s| - 1], p, k); }
  }

  function Filter<T>(s: seq<T>, p: T -> bool): seq<T>
    decreases s
  {
    if s == [] then []
    else Filter(s[..|s| - 1], p) + if p(s[|s| - 1]) then [s[|s| - 1]] else []
  }

  lemma {:induction false} FilterJoined<T>(a: seq<T>, b: seq<T>, p: T -> bool)
    ensures Filter(a + b, p) == Filter(a, p) + Filter(b, p)
    decreases b
  {
    if b == [] {
      assert a + b == a;
    } else {
      var n := |b| - 1;
      assert (a + b)[..|a + b| - 1] == a + b[..n];
      FilterJoined(a, b[..n], p);
    }
  }

  lemma FilterThrough<T>(a: seq<T>, b: seq<T>, b': seq<T>, e: T, p: T -> bool)
    requires Filter(b, p) == Filter(b', p)
    ensures Filter(a + (b' + [e]), p) == Filter(a + b, p) + Filter([e], p)
  {
    hide Filter;
    FilterJoined(a, b, p);
    FilterJoined(a, b', p);
    FilterJoined(a + b', [e], p);
    assert a + (b' + [e]) == (a + b') + [e];
  }

  lemma FilterFirst<T>(s: seq<T>, p: T -> bool)
    requires s != []
    ensures Filter(s, p) == (if p(s[0]) then [s[0]] else []) + Filter(s[1..], p)
  {
    assert s == [s[0]] + s[1..];
    assert [s[0]][..0] == [];
    FilterJoined([s[0]], s[1..], p);
  }
}
