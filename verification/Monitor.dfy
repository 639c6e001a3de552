/** From captured request/response pairs to tag results. */
module Monitor {
  import opened Words
  import opened Models
  import opened Decode
  import opened Pairing
  import opened Dict
  import Planner

  /** An observed range: who was asked, for which area, from which address. */
  datatype RangeKey = RangeKey(unit: int, area: Area, start: int)

  type Ranges = seq<Entry<RangeKey, Pair>>

  function AreaOf(fn: byte): Option<Area> {
    if fn == 1 then Some(Coil)
    else if fn == 2 then Some(DiscreteInput)
    else if fn == 3 then Some(HoldingRegister)
    else if fn == 4 then Some(InputRegister)
    else None
  }

  function Number(w: word): u16 {
    w as int
  }

  function Values(registers: seq<word>): (r: seq<u16>)
    ensures |r| == |registers|
  {
    if registers == [] then [] else [Number(registers[0])] + Values(registers[1..])
  }

  function RangeOf(pair: Pair): Option<RangeKey>
    requires pair.request.ReadRequest?
  {
    match AreaOf(pair.request.fn)
    case None => None
    case Some(area) => Some(RangeKey(Count(pair.request.slave), area, Number(pair.request.start)))
  }

  predicate Requests(pairs: seq<Pair>) {
    forall i :: 0 <= i < |pairs| ==> pairs[i].request.ReadRequest?
  }

  function Remember(ranges: Ranges, pair: Pair): Ranges
    requires pair.request.ReadRequest?
  {
    match RangeOf(pair)
    case None => ranges
    case Some(key) => Store(ranges, key, pair)
  }

  /** The latest pair of each range, in the order in which the ranges were first observed. */
  function LatestPairs(pairs: seq<Pair>): Ranges
    requires Requests(pairs)
    decreases pairs
  {
    if pairs == [] then [] else Remember(LatestPairs(pairs[..|pairs| - 1]), pairs[|pairs| - 1])
  }

  /** The range was read as registers and holds the tag's first address. */
  predicate HoldsFirst(e: Entry<RangeKey, Pair>, tag: TagSpec, unit: int) {
    && e.key.unit == unit && e.key.area == tag.area
    && e.value.response.RegisterResponse? && e.value.request.ReadRequest?
    && e.key.start <= tag.address < e.key.start + Number(e.value.request.quantity)
  }

  /** The first observed range that holds the tag's first address. */
  function FirstRange(ranges: Ranges, tag: TagSpec, unit: int): (r: Option<Entry<RangeKey, Pair>>)
    ensures r.Some? ==> r.value in ranges && HoldsFirst(r.value, tag, unit)
    ensures r.None? ==> forall e :: e in ranges ==> !HoldsFirst(e, tag, unit)
    decreases ranges
  {
    if ranges == [] then None
    else if HoldsFirst(ranges[0], tag, unit) then Some(ranges[0])
    else FirstRange(ranges[1..], tag, unit)
  }

  const NOT_OBSERVED := "tag was not observed in captured Modbus RTU traffic"

  function TagResultFromRanges(ranges: Ranges, tag: TagSpec, unit: int, now: real): Option<TagResult>
    requires ValidTag(tag)
  {
    match FirstRange(ranges, tag, unit)
    case None => None
    case Some(e) => Some(TagFromRegisters(Values(e.value.response.registers), tag.address - e.key.start, tag, now))
  }

  function MonitorResult(ranges: Ranges, tag: TagSpec, defaultUnit: int, now: real): TagResult
    requires ValidTag(tag)
  {
    match TagResultFromRanges(ranges, tag, Planner.UnitOf(tag, defaultUnit), now)
    case Some(r) => r
    case None => BadResult(tag, now, NOT_OBSERVED)
  }

  function MonitorResults(pairs: seq<Pair>, tags: seq<TagSpec>, defaultUnit: int, now: real): (r: seq<TagResult>)
    requires Requests(pairs) && Planner.AllValid(tags)
    ensures |r| == |tags|
    ensures forall i :: 0 <= i < |tags| ==> r[i] == MonitorResult(LatestPairs(pairs), tags[i], defaultUnit, now)
  {
    seq(|tags|, i requires 0 <= i < |tags| => MonitorResult(LatestPairs(pairs), tags[i], defaultUnit, now))
  }

  // ----- The loops -----

  method TagResultFromPairs(ranges: Ranges, tag: TagSpec, unit: int, now: real) returns (r: Option<TagResult>)
    requires ValidTag(tag)
    ensures r == TagResultFromRanges(ranges, tag, unit, now)
  {
    hide TagFromRegisters;
    for k := 0 to |ranges|
      invariant FirstRange(ranges, tag, unit) == FirstRange(ranges[k..], tag, unit)
    {
      var e := ranges[k];
      assert ranges[k..][0] == e && ranges[k..][1..] == ranges[k + 1..];
      if e.key.unit == unit && e.key.area == tag.area && e.value.response.RegisterResponse? &&
        e.value.request.ReadRequest? {
        if e.key.start <= tag.address < e.key.start + Number(e.value.request.quantity) {
          return Some(TagFromRegisters(Values(e.value.response.registers), tag.address - e.key.start, tag, now));
        }
      }
    }
    return None;
  }

  method RememberPairs(pairs: seq<Pair>) returns (ranges: Ranges)
    requires Requests(pairs)
    ensures ranges == LatestPairs(pairs)
  {
    hide Store;
    ranges := [];
    for k := 0 to |pairs|
      invariant ranges == LatestPairs(pairs[..k])
    {
      assert pairs[..k + 1][..k] == pairs[..k];
      var key := RangeOf(pairs[k]);
      if key.Some? {
        ranges := Store(ranges, key.value, pairs[k]);
      }
    }
    assert pairs[..|pairs|] == pairs;
  }

  method TagResultsFromPairs(pairs: seq<Pair>, tags: seq<TagSpec>, defaultUnit: int, now: real)
    returns (results: seq<TagResult>)
    requires Requests(pairs) && Planner.AllValid(tags)
    ensures results == MonitorResults(pairs, tags, defaultUnit, now)
  {
    hide MonitorResult, TagResultFromRanges, LatestPairs, Planner.UnitOf;
    var ranges := RememberPairs(pairs);
    results := [];
    for i := 0 to |tags|
      invariant |results| == i
      invariant forall m :: 0 <= m < i ==> results[m] == MonitorResult(ranges, tags[m], defaultUnit, now)
    {
      var found := TagResultFromPairs(ranges, tags[i], Planner.UnitOf(tags[i], defaultUnit), now);
      var result := if found.Some? then found.value else BadResult(tags[i], now, NOT_OBSERVED);
      FoundOrNot(ranges, tags[i], defaultUnit, now);
      results := results + [result];
    }
  }

  lemma FoundOrNot(ranges: Ranges, tag: TagSpec, defaultUnit: int, now: real)
    requires ValidTag(tag)
    ensures MonitorResult(ranges, tag, defaultUnit, now) ==
      var found := TagResultFromRanges(ranges, tag, Planner.UnitOf(tag, defaultUnit), now);
      if found.Some? then found.value else BadResult(tag, now, NOT_OBSERVED)
  {}
}
