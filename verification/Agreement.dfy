/** The passive monitor and the active reader see the same values. */
module Agreement {
  import opened Models
  import opened Decode
  import opened Frames
  import opened Pairing
  import opened Dict
  import opened Monitor
  import Planner
  import Lists
  import R = Reader
  import P = ReaderProperties

  /** The pair is what a register memory answers to the request. */
  ghost predicate FromMemory(pair: Pair, mem: P.Memory) {
    && pair.request.ReadRequest?
    && (pair.response.RegisterResponse? ==>
      RangeOf(pair).Some? &&
      Values(pair.response.registers)
        == P.Registers(mem, Planner.GroupKey(RangeOf(pair).value.area, RangeOf(pair).value.unit),
                       RangeOf(pair).value.start, Number(pair.request.quantity)))
  }

  /** Every remembered range is that of one of the pairs. */
  lemma {:induction false} RangesComeFromPairs(pairs: seq<Pair>, e: Entry<RangeKey, Pair>)
    requires Requests(pairs) && e in LatestPairs(pairs)
    ensures e.value in pairs && RangeOf(e.value) == Some(e.key)
    decreases pairs
  {
    var n := |pairs| - 1;
    assert pairs == pairs[..n] + [pairs[n]];
    var key := RangeOf(pairs[n]);
    if key.Some? && e != Entry(key.value, pairs[n]) {
      StoreMembers(LatestPairs(pairs[..n]), key.value, pairs[n], e);
    }
    if key.None? || e != Entry(key.value, pairs[n]) {
      RangesComeFromPairs(pairs[..n], e);
    }
  }

  // ----- What is remembered, and in which order -----

  function Covers(key: RangeKey): Pair -> bool {
    (pair: Pair) => pair.request.ReadRequest? && RangeOf(pair) == Some(key)
  }

  /** A range is remembered with the latest pair that covers it. */
  lemma {:induction false} LatestPairIsRemembered(pairs: seq<Pair>, key: RangeKey)
    requires Requests(pairs)
    ensures Lookup(LatestPairs(pairs), key) == Lists.Last(pairs, Covers(key))
    decreases pairs
  {
    if pairs != [] {
      hide Lookup, Store;
      var n := |pairs| - 1;
      LatestPairIsRemembered(pairs[..n], key);
      var range := RangeOf(pairs[n]);
      if range.Some? { LookupStore(LatestPairs(pairs[..n]), range.value, pairs[n], key); }
    }
  }

  /** Ranges are tried in the order in which they were first observed: the one taken for a tag is the first that
      fits. */
  lemma {:induction false} FirstRangeIsFirst(ranges: Ranges, tag: TagSpec, unit: int) returns (k: nat)
    requires FirstRange(ranges, tag, unit).Some?
    ensures k < |ranges| && ranges[k] == FirstRange(ranges, tag, unit).value
    ensures forall j :: 0 <= j < k ==> !HoldsFirst(ranges[j], tag, unit)
    decreases ranges
  {
    if HoldsFirst(ranges[0], tag, unit) {
      k := 0;
    } else {
      k := FirstRangeIsFirst(ranges[1..], tag, unit);
      k := k + 1;
    }
  }

  function Keys(ranges: Ranges): (keys: seq<RangeKey>)
    ensures |keys| == |ranges|
  {
    if ranges == [] then [] else [ranges[0].key] + Keys(ranges[1..])
  }

  lemma {:induction false} StoreKeys(ranges: Ranges, key: RangeKey, pair: Pair)
    ensures Keys(Store(ranges, key, pair)) == if key in Keys(ranges) then Keys(ranges) else Keys(ranges) + [key]
    decreases ranges
  {
    if ranges != [] {
      if ranges[0].key == key {
        assert ([Entry(key, pair)] + ranges[1..])[1..] == ranges[1..];
      } else {
        StoreKeys(ranges[1..], key, pair);
        assert ([ranges[0]] + Store(ranges[1..], key, pair))[1..] == Store(ranges[1..], key, pair);
        assert key in Keys(ranges) <==> key in Keys(ranges[1..]);
      }
    }
  }

  /** The ranges of a list of pairs, each at its first observation. */
  function FirstSeen(pairs: seq<Pair>): seq<RangeKey>
    requires Requests(pairs)
    decreases pairs
  {
    if pairs == [] then []
    else
      var seen, range := FirstSeen(pairs[..|pairs| - 1]), RangeOf(pairs[|pairs| - 1]);
      if range.Some? && range.value !in seen then seen + [range.value] else seen
  }

  lemma {:induction false} RangesInFirstSeenOrder(pairs: seq<Pair>)
    requires Requests(pairs)
    ensures Keys(LatestPairs(pairs)) == FirstSeen(pairs)
    decreases pairs
  {
    if pairs != [] {
      hide Keys, Store;
      var n := |pairs| - 1;
      RangesInFirstSeenOrder(pairs[..n]);
      var range := RangeOf(pairs[n]);
      if range.Some? { StoreKeys(LatestPairs(pairs[..n]), range.value, pairs[n]); }
    } else {
      assert Keys([]) == [];
    }
  }

  function EndOfRange(e: Entry<RangeKey, Pair>): int
    requires e.value.request.ReadRequest?
  {
    e.key.start + Number(e.value.request.quantity)
  }

  lemma WholeTag(mem: P.Memory, key: Planner.GroupKey, start: int, quantity: nat, tag: TagSpec, s: R.Settings,
                 now: real)
    requires ValidTag(tag) && Planner.IsRegisterTag(tag) && key == Planner.KeyOf(tag, s.defaultUnit)
    requires start <= tag.address && Planner.EndOf(tag) <= start + quantity
    ensures TagFromRegisters(P.Registers(mem, key, start, quantity), tag.address - start, tag, now)
         == P.TagFromMemory(mem, tag, s, now)
  {
    hide P.Registers, P.BitsAt, Slice, DecodeRegisters;
    P.RegistersInside(mem, key, start, quantity, tag.address, RegisterCount(tag));
  }

  lemma CutTag(mem: P.Memory, key: Planner.GroupKey, start: int, quantity: nat, tag: TagSpec, now: real)
    requires ValidTag(tag) && Planner.IsRegisterTag(tag)
    requires start <= tag.address < start + quantity < Planner.EndOf(tag)
    ensures TagFromRegisters(P.Registers(mem, key, start, quantity), tag.address - start, tag, now)
         == BadResult(tag, now, "not enough registers for " + tag.name)
  {
    assert |Slice(P.Registers(mem, key, start, quantity), tag.address - start,
      RegisterCount(tag))| < RegisterCount(tag);
  }

  /** What a remembered range says about a tag whose first address it holds: the tag's own cells, if
      it holds them all, and otherwise that registers are missing. */
  lemma RangeDecides(mem: P.Memory, e: Entry<RangeKey, Pair>, tag: TagSpec, s: R.Settings, now: real)
    requires HoldsFirst(e, tag, Planner.UnitOf(tag, s.defaultUnit)) && RangeOf(e.value) == Some(e.key)
    requires FromMemory(e.value, mem) && ValidTag(tag) && Planner.IsRegisterTag(tag)
    ensures var r := TagFromRegisters(Values(e.value.response.registers), tag.address - e.key.start, tag, now);
      if Planner.EndOf(tag) <= EndOfRange(e) then r == P.TagFromMemory(mem, tag, s, now)
      else r == BadResult(tag, now, "not enough registers for " + tag.name)
  {
    hide TagFromRegisters, P.TagFromMemory, P.Registers, Planner.EndOf, Values;
    var key := Planner.KeyOf(tag, s.defaultUnit);
    var quantity := Number(e.value.request.quantity);
    assert Values(e.value.response.registers) == P.Registers(mem, key, e.key.start, quantity);
    if Planner.EndOf(tag) <= EndOfRange(e) {
      WholeTag(mem, key, e.key.start, quantity, tag, s, now);
    } else {
      CutTag(mem, key, e.key.start, quantity, tag, now);
    }
  }

  // ----- Which exchange a tag's result stems from -----

  /** The exchange read registers of the tag's unit and area, its first address among them. */
  predicate Holds(x: Pair, tag: TagSpec, unit: int) {
    x.request.ReadRequest? && RangeOf(x).Some? && HoldsFirst(Entry(RangeOf(x).value, x), tag, unit)
  }

  /** No later exchange has the same range. */
  ghost predicate Settled(xs: seq<Pair>, i: nat)
    requires Requests(xs) && i < |xs|
  {
    RangeOf(xs[i]).Some? && forall j :: i < j < |xs| ==> RangeOf(xs[j]) != RangeOf(xs[i])
  }

  lemma {:induction false} RangesAreUnique(xs: seq<Pair>)
    requires Requests(xs)
    ensures UniqueKeys(LatestPairs(xs))
    decreases xs
  {
    hide UniqueKeys;
    if xs == [] {
      NoRangeTwice();
    } else {
      var n := |xs| - 1;
      RangesAreUnique(xs[..n]);
      if RangeOf(xs[n]).Some? { StoreUnique(LatestPairs(xs[..n]), RangeOf(xs[n]).value, xs[n]); }
    }
  }

  lemma NoRangeTwice()
    ensures UniqueKeys<RangeKey, Pair>([])
  {}

  lemma RememberedIsSettled(xs: seq<Pair>, e: Entry<RangeKey, Pair>) returns (i: nat)
    requires Requests(xs) && e in LatestPairs(xs)
    ensures i < |xs| && Settled(xs, i) && RangeOf(xs[i]) == Some(e.key) && e.value == xs[i]
  {
    hide LatestPairs, Lists.Last, Lookup;
    RangesAreUnique(xs);
    LookupMember(LatestPairs(xs), e);
    LatestPairIsRemembered(xs, e.key);
    i := Lists.LastIndex(xs, Covers(e.key));
    assert forall j :: i < j < |xs| ==> !Covers(e.key)(xs[j]);
  }

  lemma SettledIsRemembered(xs: seq<Pair>, i: nat)
    requires Requests(xs) && i < |xs| && Settled(xs, i)
    ensures Entry(RangeOf(xs[i]).value, xs[i]) in LatestPairs(xs)
  {
    hide LatestPairs, Lists.Last, Lookup;
    var range := RangeOf(xs[i]).value;
    Lists.LastAt(xs, Covers(range), i);
    LatestPairIsRemembered(xs, range);
    LookupFound(LatestPairs(xs), range);
  }

  /** The range of exchange i was first seen no later than that of exchange j. */
  ghost predicate SeenNoLater(xs: seq<Pair>, i: nat, j: nat)
    requires Requests(xs) && i < |xs| && j < |xs|
  {
    exists m :: 0 <= m < |xs| && RangeOf(xs[m]) == RangeOf(xs[i]) &&
      forall n :: 0 <= n < m ==> RangeOf(xs[n]) != RangeOf(xs[j])
  }

  /** The exchange is the latest of its range; and of all ranges whose latest exchange holds the tag's first address,
      its range was the first to be seen. */
  ghost predicate Reported(xs: seq<Pair>, tag: TagSpec, unit: int, i: nat)
    requires Requests(xs) && i < |xs|
  {
    Settled(xs, i) && Holds(xs[i], tag, unit) &&
    forall j: nat :: j < |xs| && Settled(xs, j) && Holds(xs[j], tag, unit) ==> SeenNoLater(xs, i, j)
  }

  /** Some exchange holds the tag's first address, and no later one of the same range misses it. */
  ghost predicate Heard(xs: seq<Pair>, tag: TagSpec, unit: int)
    requires Requests(xs)
  {
    exists i: nat :: i < |xs| && Settled(xs, i) && Holds(xs[i], tag, unit)
  }

  lemma ReportedIsUnique(xs: seq<Pair>, tag: TagSpec, unit: int, i: nat, j: nat)
    requires Requests(xs) && i < |xs| && j < |xs|
    requires Reported(xs, tag, unit, i) && Reported(xs, tag, unit, j)
    ensures i == j
  {
    hide HoldsFirst;
    assert SeenNoLater(xs, i, j) && SeenNoLater(xs, j, i);
  }

  lemma {:induction false} KeysAt(ranges: Ranges, k: nat)
    requires k < |ranges|
    ensures Keys(ranges)[k] == ranges[k].key
  {
    if k > 0 { KeysAt(ranges[1..], k - 1); }
  }

  lemma {:induction false} FirstSeenMembers(xs: seq<Pair>, range: RangeKey)
    requires Requests(xs)
    ensures range in FirstSeen(xs) <==> exists m :: 0 <= m < |xs| && RangeOf(xs[m]) == Some(range)
    decreases xs
  {
    if xs != [] {
      hide RangeOf;
      var n := |xs| - 1;
      FirstSeenMembers(xs[..n], range);
      assert forall m :: 0 <= m < n ==> xs[..n][m] == xs[m];
    }
  }

  lemma {:induction false} FirstSeenOrder(xs: seq<Pair>, a: nat, b: nat) returns (m: nat)
    requires Requests(xs) && a <= b < |FirstSeen(xs)|
    ensures m < |xs| && RangeOf(xs[m]) == Some(FirstSeen(xs)[a])
    ensures forall n :: 0 <= n < m ==> RangeOf(xs[n]) != Some(FirstSeen(xs)[b])
    decreases xs
  {
    hide RangeOf;
    var front := xs[..|xs| - 1];
    if b < |FirstSeen(front)| {
      m := FirstSeenOrder(front, a, b);
    } else {
      m := |front|;
      FirstSeenMembers(front, FirstSeen(xs)[b]);
      assert forall n :: 0 <= n < |front| ==> front[n] == xs[n];
      if a < b {
        m := FirstSeenOrder(front, a, a);
      }
    }
  }

  /** The range that is taken for a tag is that of the exchange reported. */
  lemma ReportedExchange(xs: seq<Pair>, tag: TagSpec, unit: int) returns (i: nat)
    requires Requests(xs) && FirstRange(LatestPairs(xs), tag, unit).Some?
    ensures i < |xs| && Reported(xs, tag, unit, i)
    ensures FirstRange(LatestPairs(xs), tag, unit) == Some(Entry(RangeOf(xs[i]).value, xs[i]))
  {
    hide LatestPairs, FirstRange, HoldsFirst, RangeOf, FirstSeen, Keys;
    var ranges := LatestPairs(xs);
    FirstRangeHolds(ranges, tag, unit);
    var k := FirstRangeIsFirst(ranges, tag, unit);
    i := RememberedIsSettled(xs, ranges[k]);
    RangesInFirstSeenOrder(xs);
    KeysAt(ranges, k);
    forall j: nat | j < |xs| && Settled(xs, j) && Holds(xs[j], tag, unit)
      ensures SeenNoLater(xs, i, j)
    {
      SettledIsRemembered(xs, j);
      var e := Entry(RangeOf(xs[j]).value, xs[j]);
      var b :| 0 <= b < |ranges| && ranges[b] == e;
      KeysAt(ranges, b);
      var m := FirstSeenOrder(xs, k, b);
    }
  }

  lemma FirstRangeHolds(ranges: Ranges, tag: TagSpec, unit: int)
    ensures var first := FirstRange(ranges, tag, unit);
      first.Some? ==> first.value in ranges && HoldsFirst(first.value, tag, unit)
    ensures FirstRange(ranges, tag, unit).None? ==> forall e :: e in ranges ==> !HoldsFirst(e, tag, unit)
  {}

  lemma HeardExactly(xs: seq<Pair>, tag: TagSpec, unit: int)
    requires Requests(xs)
    ensures Heard(xs, tag, unit) <==> FirstRange(LatestPairs(xs), tag, unit).Some?
  {
    hide LatestPairs, FirstRange, HoldsFirst, RangeOf;
    FirstRangeHolds(LatestPairs(xs), tag, unit);
    if FirstRange(LatestPairs(xs), tag, unit).Some? {
      var i := ReportedExchange(xs, tag, unit);
    }
    if Heard(xs, tag, unit) {
      var i: nat :| i < |xs| && Settled(xs, i) && Holds(xs[i], tag, unit);
      SettledIsRemembered(xs, i);
    }
  }

  /** What an exchange that holds a tag's first address says about the tag. */
  function Told(x: Pair, tag: TagSpec, now: real): TagResult
    requires ValidTag(tag) && x.request.ReadRequest? && x.response.RegisterResponse?
    requires RangeOf(x).Some? && RangeOf(x).value.start <= tag.address
  {
    TagFromRegisters(Values(x.response.registers), tag.address - RangeOf(x).value.start, tag, now)
  }

  /** The monitor says of a tag what the exchange reported says, and that is one exchange exactly if the tag was
      heard. */
  lemma MonitorTellsReported(xs: seq<Pair>, tag: TagSpec, defaultUnit: int, now: real) returns (i: nat)
    requires Requests(xs) && ValidTag(tag)
    ensures var unit, result := Planner.UnitOf(tag, defaultUnit), MonitorResult(LatestPairs(xs), tag, defaultUnit, now);
      if Heard(xs, tag, unit) then i < |xs| && Reported(xs, tag, unit, i) && result == Told(xs[i], tag, now)
      else result == BadResult(tag, now, NOT_OBSERVED)
  {
    hide LatestPairs, FirstRange, TagFromRegisters, Heard, Settled, SeenNoLater;
    i := 0;
    var unit := Planner.UnitOf(tag, defaultUnit);
    HeardExactly(xs, tag, unit);
    if Heard(xs, tag, unit) { i := ReportedExchange(xs, tag, unit); }
  }

  // ----- Against the cells -----

  /** Whatever exchange holds the tag's first address is from the memory. */
  ghost predicate HeardFromMemory(xs: seq<Pair>, tag: TagSpec, unit: int, mem: P.Memory) {
    forall x :: x in xs && Holds(x, tag, unit) ==> FromMemory(x, mem)
  }

  predicate Whole(x: Pair, tag: TagSpec)
    requires ValidTag(tag) && x.request.ReadRequest? && RangeOf(x).Some?
  {
    Planner.EndOf(tag) <= RangeOf(x).value.start + Number(x.request.quantity)
  }

  lemma ToldFromMemory(x: Pair, mem: P.Memory, tag: TagSpec, s: R.Settings, now: real)
    requires ValidTag(tag) && Planner.IsRegisterTag(tag) && Holds(x, tag, Planner.UnitOf(tag, s.defaultUnit))
    requires FromMemory(x, mem)
    ensures Told(x, tag, now) ==
      if Whole(x, tag) then P.TagFromMemory(mem, tag, s, now)
      else BadResult(tag, now, "not enough registers for " + tag.name)
  {
    hide TagFromRegisters, P.TagFromMemory, Planner.EndOf, Values, FromMemory;
    RangeDecides(mem, Entry(RangeOf(x).value, x), tag, s, now);
  }

  /** For a register tag whose cells decode, the monitor reports what the cells hold exactly when the exchange reported
      holds the whole tag. */
  lemma MonitorSeesMemoryExactly(xs: seq<Pair>, mem: P.Memory, tag: TagSpec, s: R.Settings, now: real)
    requires Requests(xs) && ValidTag(tag) && Planner.IsRegisterTag(tag)
    requires HeardFromMemory(xs, tag, Planner.UnitOf(tag, s.defaultUnit), mem)
    requires P.TagFromMemory(mem, tag, s, now).quality == Good
    ensures MonitorResult(LatestPairs(xs), tag, s.defaultUnit, now) == P.TagFromMemory(mem, tag, s, now)
       <==> exists i: nat :: i < |xs| && Reported(xs, tag, Planner.UnitOf(tag, s.defaultUnit), i) && Whole(xs[i], tag)
  {
    hide P.TagFromMemory, Planner.EndOf, LatestPairs, MonitorResult, Told, FromMemory, Whole, Settled, SeenNoLater;
    var unit := Planner.UnitOf(tag, s.defaultUnit);
    var i := MonitorTellsReported(xs, tag, s.defaultUnit, now);
    if Heard(xs, tag, unit) {
      assert xs[i] in xs;
      ToldFromMemory(xs[i], mem, tag, s, now);
      forall j: nat | j < |xs| && Reported(xs, tag, unit, j)
        ensures i == j
      {
        ReportedIsUnique(xs, tag, unit, i, j);
      }
    }
  }

  lemma RegistersMeanRegisterArea(pair: Pair)
    requires pair.request.ReadRequest? && RangeOf(pair).Some?
    requires Pairing.KeyOf(pair.request) == Pairing.KeyOf(pair.response) && WellFormed(pair.response)
    ensures pair.response.RegisterResponse? ==> IsRegisterArea(RangeOf(pair).value.area)
  {}

  /** Bit tags are never resolved: no response to a bit read carries registers. */
  lemma BitTagsAreNeverObserved(pairs: seq<Pair>, tag: TagSpec, defaultUnit: int, now: real)
    requires Requests(pairs) && ValidTag(tag) && !Planner.IsRegisterTag(tag)
    requires forall i :: 0 <= i < |pairs| ==>
      Pairing.KeyOf(pairs[i].request) == Pairing.KeyOf(pairs[i].response) && WellFormed(pairs[i].response)
    ensures MonitorResult(LatestPairs(pairs), tag, defaultUnit, now) == BadResult(tag, now, NOT_OBSERVED)
  {
    var unit := Planner.UnitOf(tag, defaultUnit);
    forall e | e in LatestPairs(pairs)
      ensures !HoldsFirst(e, tag, unit)
    {
      RangesComeFromPairs(pairs, e);
      RegistersMeanRegisterArea(e.value);
    }
  }

  /** Whatever exchange holds the tag's first address is from the memory and holds the whole tag. */
  ghost predicate WholeOrMissed(xs: seq<Pair>, tag: TagSpec, unit: int, mem: P.Memory)
    requires ValidTag(tag)
  {
    forall x :: x in xs && Holds(x, tag, unit) ==> FromMemory(x, mem) && Whole(x, tag)
  }

  lemma MonitorTellsMemory(xs: seq<Pair>, mem: P.Memory, tag: TagSpec, s: R.Settings, now: real)
    requires Requests(xs) && ValidTag(tag) && Planner.IsRegisterTag(tag)
    requires WholeOrMissed(xs, tag, Planner.UnitOf(tag, s.defaultUnit), mem)
    ensures MonitorResult(LatestPairs(xs), tag, s.defaultUnit, now) ==
      if Heard(xs, tag, Planner.UnitOf(tag, s.defaultUnit)) then P.TagFromMemory(mem, tag, s, now)
      else BadResult(tag, now, NOT_OBSERVED)
  {
    hide P.TagFromMemory, LatestPairs, MonitorResult, Told, FromMemory, Whole, Settled, SeenNoLater;
    var i := MonitorTellsReported(xs, tag, s.defaultUnit, now);
    if Heard(xs, tag, Planner.UnitOf(tag, s.defaultUnit)) {
      assert xs[i] in xs;
      ToldFromMemory(xs[i], mem, tag, s, now);
    }
  }

  /** Over one unchanging memory, the monitor and the grouped read agree on a tag up to error texts, exactly if the
      tag's cells do not decode, or the tag was heard if and only if the addresses of its block exist.  If it was heard
      and they exist, the results are equal. */
  lemma MonitorAgreesWithReader(xs: seq<Pair>, client: R.Client, device: R.Request -> R.Response, mem: P.Memory,
                                tags: seq<TagSpec>, s: R.Settings, now: real, i: nat) returns (k: nat)
    requires Requests(xs) && Planner.AllValid(tags) && P.DistinctNames(tags) && i < |tags|
    requires Planner.IsRegisterTag(tags[i]) && ItemCount(tags[i]) <= Planner.LimitOf(s.limits, tags[i].area)
    requires P.Steady(client, device, mem, s.limits)
    requires WholeOrMissed(xs, tags[i], Planner.UnitOf(tags[i], s.defaultUnit), mem)
    ensures P.InBlock(R.PlanFor(tags, s), k, tags[i])
    ensures var monitor, reader := MonitorResults(xs, tags, s.defaultUnit, now)[i],
        R.ReadGrouped(Some(client), tags, s, now)[i];
      var heard := Heard(xs, tags[i], Planner.UnitOf(tags[i], s.defaultUnit));
      var mapped := P.Mapped(mem, R.RequestOf(R.PlanFor(tags, s)[k]));
      var useless := P.TagFromMemory(mem, tags[i], s, now).quality == Bad;
      (heard && mapped ==> monitor == reader) &&
      (P.SameUpToError(monitor, reader) <==> (useless || (heard <==> mapped)))
  {
    hide P.TagFromMemory, LatestPairs, MonitorResult, R.ReadGrouped, R.PlanFor, P.Steady, P.Mapped, P.Harmless,
      P.SameUpToError, P.IsBad, WholeOrMissed, Heard;
    var tag := tags[i];
    k := P.GroupedReadsRefineSingleReads(client, device, mem, tags, s, now, i);
    MonitorTellsMemory(xs, mem, tag, s, now);
    var own, reader := P.TagFromMemory(mem, tag, s, now), R.ReadGrouped(Some(client), tags, s, now)[i];
    P.SameAsItself(own);
    P.MemoryResultsAreAlike(mem, tag, s, now, NOT_OBSERVED);
    if P.IsBad(reader, tag, now) {
      P.BadIsLikeBad(reader, tag, now, NOT_OBSERVED);
      P.BadAgainst(own, reader, tag, now);
      P.MemoryResultsAreAlike(mem, tag, s, now, "");
    }
  }
}
