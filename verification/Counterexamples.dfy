/** Inputs at which the conditions of the exact theorems fail, and what the code then does. */
module Counterexamples {
  import opened Words
  import opened Models
  import opened Decode
  import opened Frames
  import opened Pairing
  import opened Capture
  import opened Traffic
  import opened Dict
  import opened Monitor
  import Agreement
  import Pl = Planner
  import PlanOverall
  import R = Reader
  import P = ReaderProperties
  import M = PublisherModel
  import Runs = PublisherRuns
  import Theorems = PublisherTheorems
  import Lists
  import C = Conflation
  import Q = ResultQueue
  import ConfiguredQueue
  import StatusQueue

  /** A tag of one register, or of two. */
  function Register(name: string, address: nat, dataType: DataType, tagGroup: string): TagSpec {
    TagSpec(name, address, HoldingRegister, dataType, tagGroup, 1.0, 0.0, None, None, Big, Big)
  }

  lemma OneWord(registers: seq<u16>, from: nat, name: string, address: nat, tagGroup: string, now: real)
    requires from < |registers|
    ensures var tag := Register(name, address, Uint16, tagGroup);
      TagFromRegisters(registers, from, tag, now) == GoodResult(tag, now, RealValue(registers[from] as real))
  {
    var word := Slice(registers, from, 1);
    assert word == [registers[from]];
    assert RegistersToInt([]) == 0 && word[..0] == [];
  }

  // ----- The monitor -----

  function Request(start: word, quantity: word): Frame {
    ReadRequest(1, 3, start, quantity)
  }

  function Answer(registers: seq<word>): Frame {
    RegisterResponse(1, 3, 2, registers)
  }

  lemma OneRange(x: Pair)
    requires x.request.ReadRequest? && RangeOf(x).Some?
    ensures Requests([x]) && LatestPairs([x]) == [Entry(RangeOf(x).value, x)]
  {
    assert [x][..0] == [];
  }

  lemma TwoRanges(x: Pair, y: Pair)
    requires x.request.ReadRequest? && RangeOf(x).Some? && y.request.ReadRequest? && RangeOf(y).Some?
    requires RangeOf(x) != RangeOf(y)
    ensures Requests([x, y]) && LatestPairs([x, y]) == [Entry(RangeOf(x).value, x), Entry(RangeOf(y).value, y)]
  {
    OneRange(x);
    assert [x, y][..1] == [x];
    var first := Entry(RangeOf(x).value, x);
    assert [first][1..] == [];
    assert Store([first], RangeOf(y).value, y) == [first] + Store([], RangeOf(y).value, y);
  }

  lemma RangeOfRequest(x: Pair, start: word, quantity: word)
    requires x.request == Request(start, quantity)
    ensures RangeOf(x) == Some(RangeKey(1, HoldingRegister, Number(start)))
  {
    assert Count(x.request.slave) == 1;
  }

  /** A request for register 0 stays unanswered; then the request for register 100 is lost and only its answer is heard.
      The monitor takes it for the answer to the open request. */
  lemma LostRequestMisleads()
    ensures var turns := [Lone(Request(0, 1)), Lone(Answer([99]))];
      AreTurns(turns) && PairsOf(turns) == [] && !NoneMistaken(turns, key => true) &&
      PairsIn(SeenAll(Sent(turns))) == [Pair(Request(0, 1), Answer([99]))]
  {
    hide SeenAll, PairsIn, Sent;
    var asked, stray := Lone(Request(0, 1)), Lone(Answer([99]));
    var turns := [asked, stray];
    assert turns[..1] == [asked] && [asked][..0] == [];
    TrafficPairsUp(turns);
    assert OpenRequest([asked], KeyOf(Answer([99]))) == Some(Request(0, 1));
    assert Mistaken(turns[..1], turns[1], key => true);
  }

  /** So register 100 is reported as register 0, in good quality. */
  lemma WrongRegisterIsReported(now: real)
    ensures var tag, xs := Register("t", 0, Uint16, ""), [Pair(Request(0, 1), Answer([99]))];
      Requests(xs) && MonitorResult(LatestPairs(xs), tag, 1, now) == GoodResult(tag, now, RealValue(99.0))
  {
    hide TagFromRegisters, Count;
    var x := Pair(Request(0, 1), Answer([99]));
    RangeOfRequest(x, 0, 1);
    OneRange(x);
    assert Number(0) == 0 && Number(1) == 1 && Values([99]) == [99];
    OneWord([99], 0, "t", 0, "", now);
  }

  /** Two masters: the first range heard cuts the tag, the other holds it whole.  The monitor reports an error. */
  lemma FirstRangeCutsTag(now: real)
    ensures var tag := Register("t", 1, Uint32, "");
      var xs := [Pair(Request(0, 2), Answer([7, 0])), Pair(Request(1, 2), Answer([0, 9]))];
      Requests(xs) && Agreement.Holds(xs[1], tag, 1) && Agreement.Whole(xs[1], tag) && !Agreement.Whole(xs[0], tag) &&
      MonitorResult(LatestPairs(xs), tag, 1, now) == BadResult(tag, now, "not enough registers for " + tag.name)
  {
    hide Count;
    var tag := Register("t", 1, Uint32, "");
    var x, y := Pair(Request(0, 2), Answer([7, 0])), Pair(Request(1, 2), Answer([0, 9]));
    RangeOfRequest(x, 0, 2);
    RangeOfRequest(y, 1, 2);
    assert Number(0) == 0 && Number(1) == 1 && Number(2) == 2;
    TwoRanges(x, y);
    assert |Slice(Values(x.response.registers), 1, 2)| == 1;
  }

  /** Two masters: both ranges hold the tag, and the one heard first goes on being reported although the other was heard
      later. */
  lemma OlderRangeIsReported(now: real)
    ensures var tag := Register("t", 1, Uint16, "");
      var xs := [Pair(Request(0, 2), Answer([7, 5])), Pair(Request(1, 1), Answer([6]))];
      Requests(xs) && Agreement.Holds(xs[1], tag, 1) &&
      MonitorResult(LatestPairs(xs), tag, 1, now) == GoodResult(tag, now, RealValue(5.0))
  {
    hide Count, TagFromRegisters;
    var tag := Register("t", 1, Uint16, "");
    var x, y := Pair(Request(0, 2), Answer([7, 5])), Pair(Request(1, 1), Answer([6]));
    RangeOfRequest(x, 0, 2);
    RangeOfRequest(y, 1, 1);
    assert Number(0) == 0 && Number(1) == 1 && Number(2) == 2;
    TwoRanges(x, y);
    assert Values([7, 5])[1] == 5 by { TwoValues(7, 5); }
    OneWord(Values([7, 5]), 1, "t", 1, "", now);
  }

  lemma TwoValues(a: word, b: word)
    ensures Values([a, b]) == [Number(a), Number(b)]
  {
    assert [a, b][1..] == [b] && [b][1..] == [];
  }

  // ----- The reader -----

  const SETTINGS := R.Settings(1, 4, Pl.Limits(125, 2000))

  /** A device in which every register holds 5, and all addresses exist but 1. */
  const HOLED: P.Memory := P.Memory((key, address) => 5, (key, address) => false, (key, address) => address != 1)

  function Reply(r: R.Request): R.Response {
    if r.count <= Pl.LimitOf(SETTINGS.limits, r.key.area) && !P.Mapped(HOLED, r) then R.Raised("illegal data address")
    else P.FromMemory(HOLED, r)
  }

  const REPLY: R.Client := (k, r) => Reply(r)

  lemma HoledIsSteady()
    ensures P.Steady(REPLY, r => Reply(r), HOLED, SETTINGS.limits)
  {
    hide P.Mapped, P.FromMemory;
  }

  const LEFT := Register("left", 0, Uint16, "")
  const RIGHT := Register("right", 2, Uint16, "")

  /** Two tags of one group, the second close enough to join the first, are read as one block. */
  lemma TwoInOneBlock(t: TagSpec, u: TagSpec, s: R.Settings)
    requires ValidTag(t) && ValidTag(u) && t.address <= u.address
    requires Pl.KeyOf(t, s.defaultUnit) == Pl.KeyOf(u, s.defaultUnit)
    requires Pl.Joins(u, t.address, Pl.EndOf(t), Pl.Bounds(s.gap, Pl.LimitOf(s.limits, t.area)))
    ensures Pl.AllValid([t, u])
    ensures R.PlanFor([t, u], s) == [Pl.ReadBlock(Pl.KeyOf(t, s.defaultUnit), t.address,
      Pl.Max(Pl.EndOf(t), Pl.EndOf(u)) - t.address, [t, u])]
  {
    hide Pl.EndOf, ValidTag;
    var tags, key, unit := [t, u], Pl.KeyOf(t, s.defaultUnit), s.defaultUnit;
    P.GroupOfOne(t, unit);
    assert tags[..1] == [t] && [t] + [u] == tags && tags[1..] == [u] && [u][1..] == [];
    assert Pl.TagsOf(tags, key, unit) == tags && Pl.SortByAddress(tags) == tags;
    var b := Pl.Bounds(s.gap, Pl.LimitOf(s.limits, key.area));
    assert Pl.Greedy([u], [t], t.address, Pl.EndOf(t), key, b)
        == Pl.Greedy([], tags, t.address, Pl.Max(Pl.EndOf(t), Pl.EndOf(u)), key, b);
    assert Pl.GroupKeys(tags, unit) == [key] && [key][..0] == [];
    assert Pl.PlanGroups(tags, [], unit, s.gap, s.limits) == [];
  }

  /** The two tags on both sides of the hole are read as one block, which the device refuses although it would answer
      for each of them alone. */
  lemma GapIsHarmful(now: real)
    ensures Pl.AllValid([LEFT, RIGHT]) && P.DistinctNames([LEFT, RIGHT])
    ensures !P.NoHarm(HOLED, [LEFT, RIGHT], SETTINGS, now)
  {
    hide R.PlanFor, P.TagFromMemory;
    var tags := [LEFT, RIGHT];
    TwoInOneBlock(LEFT, RIGHT, SETTINGS);
    var block := R.PlanFor(tags, SETTINGS)[0];
    assert !HOLED.mapped(block.key, 1);
    assert P.Mapped(HOLED, P.OwnRequest(LEFT, SETTINGS));
    OwnCellsDecode(now);
    assert tags[0] == LEFT && P.InBlock(R.PlanFor(tags, SETTINGS), 0, tags[0]);
  }

  lemma OwnCellsDecode(now: real)
    ensures P.TagFromMemory(HOLED, LEFT, SETTINGS, now).quality == Good
  {
    hide TagFromRegisters;
    var key := Pl.KeyOf(LEFT, 1);
    OneWord(P.Registers(HOLED, key, 0, 1), 0, "left", 0, "", now);
  }

  /** The store accepts one name in two groups; the reader then gives both tags the result of one. */
  lemma OneNameInTwoGroups(client: R.Client, s: R.Settings, now: real)
    ensures var tags := [Register("t", 0, Uint16, "a"), Register("t", 1, Uint16, "b")];
      Pl.AllValid(tags) && P.NamesUniquePerGroup(tags) && !P.DistinctNames(tags) &&
      R.ReadGrouped(Some(client), tags, s, now)[0] == R.ReadGrouped(Some(client), tags, s, now)[1]
  {
    var tags := [Register("t", 0, Uint16, "a"), Register("t", 1, Uint16, "b")];
    hide R.ReadGrouped;
    P.SameNameSameResult(client, tags, s, now, 0, 1);
  }

  /** A text of 200 registers is read in one request of 200. */
  lemma OversizedRead(s: R.Settings)
    requires s.limits == Pl.Limits(125, 2000)
    ensures var tag := Register("t", 0, Text, "").(wordCount := Some(200));
      Pl.AllValid([tag]) && !PlanOverall.WithinLimits(Pl.Plan([tag], s.defaultUnit, s.gap, s.limits), s.limits)
  {
    hide Pl.Plan, PlanOverall.WithinLimits;
    var tag := Register("t", 0, Text, "").(wordCount := Some(200));
    PlanOverall.LimitsHoldExactly([tag], s.defaultUnit, s.gap, s.limits);
    assert tag in [tag] && ItemCount(tag) == 200;
  }

  // ----- The queues -----

  const DEVICE := DeviceSpec(None, "plc", "")

  /** A name that is also the node id of another tag: one read of both tags costs the first. */
  lemma NodeIdTakenForName(c: M.Config, config: ConfiguredQueue.Configuration)
    requires config(DEVICE) == [ConfiguredQueue.TagId("b", None, 0, ""), ConfiguredQueue.TagId("a", Some("b"), 0, "")]
    ensures ConfiguredQueue.UniqueNames(config(DEVICE)) && !ConfiguredQueue.Unmistakable(config(DEVICE))
  {
    var ids := config(DEVICE);
    assert ConfiguredQueue.MixedUp(ids[0], ids[1]) && ids[0] in ids && ids[1] in ids;
    assert "a" != "b";
    ConfiguredQueue.UnmistakableExactly(ids);
  }

  const EMPTY_READ := ReadResult(DEVICE, 0.0, [], None)

  const PROMPT := [M.Received(EMPTY_READ, 0.0), M.Ticked(6.0)]
  const SLOW := [M.Ticked(6.0), M.Received(EMPTY_READ, 6.0)]

  /** Of one put, a prompt consumer and a slow one. */
  lemma BothConsume()
    ensures var ops := C.PutsOnly(Q.Split(EMPTY_READ));
      Q.Delivers(SLOW, C.Drained(ops)) && Q.Delivers(PROMPT, C.Puts(ops))
  {
    hide C.Run, C.Puts, C.PutsOnly;
    var e := Q.Split(EMPTY_READ)[0];
    assert Q.Split(EMPTY_READ) == [e];
    OnePut(e);
    TwoArrivals(PROMPT[0], PROMPT[1]);
    TwoArrivals(SLOW[0], SLOW[1]);
  }

  lemma TwoArrivals(e: M.Event, f: M.Event)
    ensures Q.Arrivals([e, f]) == (if e.Received? then [e] else []) + (if f.Received? then [f] else [])
  {
    assert [e, f][..1] == [e] && [e][..0] == [];
    assert Q.Arrivals([e]) == if e.Received? then [e] else [];
  }

  /** The slow one sees no timeout where the prompt one does. */
  lemma TimeoutDependsOnConsumer(c: M.Config)
    requires c.staleTimeout == 5.0
    ensures Q.StatusAfter(c, PROMPT, M.KeyOf(DEVICE)) == Some(M.Stale)
    ensures Q.StatusAfter(c, SLOW, M.KeyOf(DEVICE)) == Some(M.GoodStatus)
  {
    hide Q.StatusAfter;
    var key := M.KeyOf(DEVICE);
    assert Runs.LastResult(PROMPT, 0, key) && Runs.LastResult(SLOW, 1, key);
    assert PROMPT[1] == M.Ticked(6.0);
    assert Runs.TimedOut(c, PROMPT, 0) && !Runs.TimedOut(c, SLOW, 1);
    Q.LastResultDecides(c, PROMPT, key, 0);
    Q.LastResultDecides(c, SLOW, key, 1);
  }

  lemma OnePut<K, V>(e: Entry<K, V>)
    ensures C.Puts(C.PutsOnly([e])) == [e] && C.Drained(C.PutsOnly([e])) == [e]
  {
    assert [e][..0] == [];
    C.PutsOnlyRun([e]);
  }

  function Reading(tagGroup: string, quality: Quality): TagResult {
    TagResult("t", 0, None, quality, None, 0.0, None, tagGroup)
  }

  /** Two results under one cache key, as of one name and address in two groups: only the second is published. */
  lemma OneKeyInTwoGroups(c: M.Config)
    ensures var a, b := Reading("a", Good), Reading("b", Good);
      var events := [M.Received(ReadResult(DEVICE, 0.0, [a, b], None), 0.0)];
      var sent := Theorems.SentAbout(c, events, M.Ticked(0.0), M.KeyOf(DEVICE));
      a != b && !Theorems.GoesOut(c, sent, a) && Theorems.GoesOut(c, sent, b)
  {
    hide Theorems.SentAbout, Theorems.GoesOut, M.Run, M.TagKey, M.MemoryOf, M.StatusOf;
    var key, a, b, tick := M.KeyOf(DEVICE), Reading("a", Good), Reading("b", Good), M.Ticked(0.0);
    var received := M.Received(ReadResult(DEVICE, 0.0, [a, b], None), 0.0);
    var events := [received];
    assert "a" != "b" && events + [tick] == [received, tick] && events[..0] == [];
    assert Runs.Delivered(events, key) == [a, b];
    SameCacheKey();
    assert Lists.Last([a, b], Theorems.WithKey(M.TagKey(a))) == Some(b);
    var longer := events + [tick];
    assert longer[0] == received && longer[1] == tick;
    assert Runs.LastResult(longer, 0, key) && !Runs.TimedOut(c, longer, 0);
    assert !Runs.AllFaulty([a, b]) by { assert a in [a, b] && M.Usable(a); }
    Runs.StatusMeetsHistory(c, longer, key);
    Theorems.DeliveredTagsGoOutExactly(c, events, 0.0, key, a);
    Theorems.DeliveredTagsGoOutExactly(c, events, 0.0, key, b);
  }

  lemma SameCacheKey()
    ensures M.TagKey(Reading("a", Good)) == M.TagKey(Reading("b", Good))
  {}

  /** Split into single tags, a batch with a good tag and a faulty last one leaves the device bad instead of good. */
  lemma BatchEndsFaulty(c: M.Config)
    ensures var batch := M.Received(ReadResult(DEVICE, 0.0, [Reading("a", Good), Reading("b", Bad)], None), 0.0);
      M.StatusOf(M.MemoryOf(M.Run(c, [batch]), M.KeyOf(DEVICE)))
        != M.StatusOf(M.MemoryOf(M.Run(c, Q.Events(Q.Split(batch.result))), M.KeyOf(DEVICE)))
  {
    hide M.Run, M.MemoryOf, M.StatusOf, Q.Split;
    var batch := M.Received(ReadResult(DEVICE, 0.0, [Reading("a", Good), Reading("b", Bad)], None), 0.0);
    var parts := Q.Events(Q.Split(batch.result));
    assert !M.Faulty(batch.result.tags[0]);
    Q.SplitKeepsStatusExactly(c, [], batch, parts);
    assert [] + [batch] == [batch] && [] + parts == parts;
  }

  /** An update of a tag that brings an error without a value takes the value along when it replaces another. */
  lemma ReplacedUpdateLosesField()
    ensures var value := StatusQueue.TagUpdate(map["device" := "plc", "tag" := "t", "value" := "5"]);
      var error := StatusQueue.TagUpdate(map["device" := "plc", "tag" := "t", "error" := "timeout"]);
      var key := StatusQueue.KeyFor(value, 0);
      var puts := [Entry(key, value), Entry(StatusQueue.KeyFor(error, 0), error)];
      StatusQueue.Numbered(puts, 0) && !StatusQueue.Complete(puts) &&
      StatusQueue.RecordAll(StatusQueue.Board(map[], map[]), C.Drained(C.PutsOnly(puts)))
        != StatusQueue.RecordAll(StatusQueue.Board(map[], map[]), puts)
  {
    hide StatusQueue.RecordAll, C.Run, C.PutsOnly;
    var value := StatusQueue.TagUpdate(map["device" := "plc", "tag" := "t", "value" := "5"]);
    var error := StatusQueue.TagUpdate(map["device" := "plc", "tag" := "t", "error" := "timeout"]);
    var key := StatusQueue.KeyFor(value, 0);
    var puts := [Entry(key, value), Entry(StatusQueue.KeyFor(error, 0), error)];
    DifferentNames();
    assert StatusQueue.HasField(puts[0], puts[1].key, "value");
    assert !StatusQueue.HasField(puts[1], puts[1].key, "value");
    StatusQueue.ReplacedFieldIsLost(puts, 0);
  }

  lemma DifferentNames()
    ensures "value" != "device" && "value" != "tag" && "value" != "error"
    ensures "node_id" != "device" && "node_id" != "tag" && "node_id" != "error" && "node_id" != "value"
    ensures "tag" != "device" && "tag" != "error"
  {
    assert "value"[0] != "tag"[0];
    assert |"value"| != |"device"| && "value"[0] != "error"[0];
    assert |"node_id"| == 7;
  }
}
