/** What each step of the publisher does to its caches and what it sends, device by device. */
module PublisherModel {
  import opened Models
  import opened Dict

  datatype DeviceKey = ById(id: int) | ByName(name: string)

  datatype Status = GoodStatus | BadStatus | Stale | Disconnected

  datatype Snapshot = Snapshot(device: DeviceSpec, tags: seq<Entry<string, TagResult>>, lastReceived: real,
    lastSource: real)

  datatype DeviceState = DeviceState(
    device: DeviceSpec,
    status: Status,
    reason: string,
    changedAt: real,
    lastPublished: Option<real>,
    lastReceived: Option<real>,
    lastSource: Option<real>)

  /** One sensor of a status message. */
  datatype Sensor = Sensor(code: string, on: bool, healthy: bool, lastSeen: real, error: Option<string>)

  /** Which of the three callers sends a status message; not part of the message itself. */
  datatype Origin = WithData | OnChange | OnInterval

  datatype Message =
    | Measurement(device: DeviceSpec, group: Option<string>, tags: seq<TagResult>, at: real)
    | StatusReport(device: DeviceSpec, group: Option<string>, sensors: seq<Sensor>, at: real, origin: Origin)

  /** A publication of a device's status: one report per tag group. */
  datatype Publication = Publication(key: DeviceKey, status: Status, at: real, origin: Origin)

  type Grouping = TagResult -> Option<string>

  datatype Config = Config(staleTimeout: real, interval: real, grouping: Grouping)

  function KeyOf(device: DeviceSpec): DeviceKey {
    if device.id.Some? then ById(device.id.value) else ByName(device.name)
  }

  function Digits(n: nat): string {
    if n < 10 then [('0' as int + n) as char] else Digits(n / 10) + [('0' as int + n % 10) as char]
  }

  function Decimal(n: int): string {
    if n < 0 then "-" + Digits(-n) else Digits(n)
  }

  function TagKey(tag: TagResult): string {
    if Present(tag.nodeId) then tag.nodeId.value else tag.name + ":" + Decimal(tag.address)
  }

  /** A tag whose value may be published. */
  predicate Usable(tag: TagResult) {
    tag.quality == Good && !Present(tag.error)
  }

  predicate Faulty(tag: TagResult) {
    tag.quality == Bad || Present(tag.error)
  }

  // ----- Groups of cached tags -----

  type Groups = seq<Entry<Option<string>, seq<TagResult>>>

  function AddToGroup(groups: Groups, grouping: Grouping, tag: TagResult): Groups {
    var group := grouping(tag);
    match Lookup(groups, group)
    case None => Store(groups, group, [tag])
    case Some(tags) => Store(groups, group, tags + [tag])
  }

  /** The cached tags by group, groups and tags in the order in which they were first stored. */
  function GroupTags(tags: seq<Entry<string, TagResult>>, grouping: Grouping): Groups
    decreases tags
  {
    if tags == [] then []
    else AddToGroup(GroupTags(tags[..|tags| - 1], grouping), grouping, tags[|tags| - 1].value)
  }

  // ----- Status messages -----

  function SensorOf(tag: TagResult, on: bool, error: Option<string>): Sensor {
    Sensor(tag.name, on && Usable(tag), on && Usable(tag), tag.timestamp, if Present(tag.error) then tag.error
      else error)
  }

  function Sensors(tags: seq<TagResult>, on: bool, error: Option<string>): seq<Sensor> {
    if tags == [] then [] else Sensors(tags[..|tags| - 1], on, error) + [SensorOf(tags[|tags| - 1], on, error)]
  }

  function GroupReport(device: DeviceSpec, group: Entry<Option<string>, seq<TagResult>>, on: bool,
                       error: Option<string>, now: real, origin: Origin): Message {
    StatusReport(device, group.key, Sensors(group.value, on, error), now, origin)
  }

  /** One report per group. */
  function Reports(device: DeviceSpec, groups: Groups, on: bool, error: Option<string>, now: real,
                   origin: Origin): seq<Message> {
    if groups == [] then []
    else
      var n := |groups| - 1;
      Reports(device, groups[..n], on, error, now, origin) + [GroupReport(device, groups[n], on, error, now, origin)]
  }

  // ----- One device -----

  /** What the two caches hold about one device. */
  datatype Memory = Memory(snapshot: Option<Snapshot>, state: Option<DeviceState>)

  /** What a step makes of a device's memory, what it hands to the sink, and which publications these are. */
  datatype Effect = Effect(memory: Memory, sent: seq<Message>, log: seq<Publication>)

  function Silent(m: Memory): Effect {
    Effect(m, [], [])
  }

  function CachedTags(m: Memory): seq<Entry<string, TagResult>> {
    match m.snapshot
    case None => []
    case Some(snapshot) => snapshot.tags
  }

  /** The label of a device; none is the source's "unknown". */
  function StatusOf(m: Memory): Option<Status> {
    match m.state
    case None => None
    case Some(state) => Some(state.status)
  }

  function Announce(m: Memory, c: Config, device: DeviceSpec, now: real, origin: Origin): Effect {
    match m.state
    case None => Silent(m)
    case Some(state) =>
      var on := state.status == GoodStatus;
      Effect(m.(state := Some(state.(lastPublished := Some(now)))),
             if m.snapshot.None? then []
             else Reports(device, GroupTags(m.snapshot.value.tags, c.grouping), on, if on then None
               else Some(state.reason), now, origin),
             [Publication(KeyOf(device), state.status, now, origin)])
  }

  function IntervalStart(state: DeviceState): real {
    if state.lastPublished.Some? then state.lastPublished.value else state.changedAt
  }

  predicate Due(state: DeviceState, c: Config, now: real) {
    c.interval > 0.0 && now - IntervalStart(state) >= c.interval
  }

  function AnnounceIfDue(m: Memory, c: Config, device: DeviceSpec, now: real): Effect {
    if m.state.Some? && Due(m.state.value, c, now) then Announce(m, c, device, now, OnInterval) else Silent(m)
  }

  function SetStatus(m: Memory, c: Config, device: DeviceSpec, status: Status, reason: string, now: real,
                     received: Option<real>, source: Option<real>): Effect {
    if StatusOf(m) == Some(status) then
      var kept := m.state.value.(reason := reason, lastReceived := received, lastSource := source);
      AnnounceIfDue(m.(state := Some(kept)), c, device, now)
    else
      var changed := m.(state := Some(DeviceState(device, status, reason, now, None, received, source)));
      if m.state.Some? || status != GoodStatus then Announce(changed, c, device, now, OnChange) else Silent(changed)
  }

  // ----- Results -----

  function StoreTags(d: seq<Entry<string, TagResult>>, tags: seq<TagResult>): seq<Entry<string, TagResult>>
    decreases tags
  {
    if tags == [] then d
    else Store(StoreTags(d, tags[..|tags| - 1]), TagKey(tags[|tags| - 1]), tags[|tags| - 1])
  }

  predicate SomeUsable(tags: seq<TagResult>) {
    exists i :: 0 <= i < |tags| && !Faulty(tags[i])
  }

  /** A result is good if any tag is, or if there is none. */
  function ResultStatus(tags: seq<TagResult>): Status {
    if tags == [] || SomeUsable(tags) then GoodStatus else BadStatus
  }

  function ReasonOf(status: Status): string {
    if status == GoodStatus then "data received" else "tag read failed"
  }

  function CacheResult(m: Memory, c: Config, result: ReadResult, now: real): Effect {
    var snapshot := Snapshot(result.device, StoreTags(CachedTags(m), result.tags), now, result.timestamp);
    var status := ResultStatus(result.tags);
    SetStatus(m.(snapshot := Some(snapshot)), c, result.device, status, ReasonOf(status), now, Some(now),
      Some(result.timestamp))
  }

  function Receive(m: Memory, c: Config, result: ReadResult, now: real): Effect {
    if Present(result.error) then SetStatus(m, c, result.device, Disconnected, result.error.value, now, None, None)
    else CacheResult(m, c, result, now)
  }

  // ----- Ticks -----

  /** The device has been silent for too long. */
  predicate Expired(c: Config, snapshot: Snapshot, now: real) {
    now - snapshot.lastReceived >= c.staleTimeout
  }

  function Refresh(m: Memory, c: Config, now: real): Effect {
    match m.snapshot
    case None => Silent(m)
    case Some(snapshot) =>
      if Expired(c, snapshot, now) && StatusOf(m) == Some(GoodStatus) then
        SetStatus(m, c, snapshot.device, Stale, "message timeout", now, Some(snapshot.lastReceived),
          Some(snapshot.lastSource))
      else if StatusOf(m) != Some(GoodStatus) then AnnounceIfDue(m, c, snapshot.device, now)
      else Silent(m)
  }

  function UsableTags(tags: seq<TagResult>): seq<TagResult> {
    if tags == [] then []
    else
      var n := |tags| - 1;
      UsableTags(tags[..n]) + if Usable(tags[n]) then [tags[n]] else []
  }

  /** The measurement and the accompanying status message of one group, if any tag is usable. */
  function GroupMessages(device: DeviceSpec, group: Entry<Option<string>, seq<TagResult>>, now: real): seq<Message> {
    if UsableTags(group.value) == [] then []
    else [Measurement(device, group.key, UsableTags(group.value), now),
          GroupReport(device, group, true, None, now, WithData)]
  }

  function GroupsMessages(device: DeviceSpec, groups: Groups, now: real): seq<Message> {
    if groups == [] then []
    else
      var n := |groups| - 1;
      GroupsMessages(device, groups[..n], now) + GroupMessages(device, groups[n], now)
  }

  /** What the cached data of a device in good status amounts to. */
  function DataMessages(m: Memory, c: Config, now: real): seq<Message> {
    if m.snapshot.Some? && StatusOf(m) == Some(GoodStatus)
    then GroupsMessages(m.snapshot.value.device, GroupTags(m.snapshot.value.tags, c.grouping), now)
    else []
  }

  // ----- The publisher -----

  /** The caches, everything handed to the sink so far, and the history of status publications. */
  datatype State = State(
    latest: seq<Entry<DeviceKey, Snapshot>>,
    statuses: map<DeviceKey, DeviceState>,
    sent: seq<Message>,
    log: seq<Publication>)

  const EMPTY := State([], map[], [], [])

  function MemoryOf(st: State, key: DeviceKey): Memory {
    Memory(Lookup(st.latest, key), if key in st.statuses then Some(st.statuses[key]) else None)
  }

  /** Writes a device's memory back and appends what was sent. */
  function Apply(st: State, key: DeviceKey, effect: Effect): State {
    State(if effect.memory.snapshot.Some? then Store(st.latest, key, effect.memory.snapshot.value) else st.latest,
          if effect.memory.state.Some? then st.statuses[key := effect.memory.state.value] else st.statuses,
          st.sent + effect.sent,
          st.log + effect.log)
  }

  function ReceiveResult(st: State, c: Config, result: ReadResult, now: real): State {
    var key := KeyOf(result.device);
    Apply(st, key, Receive(MemoryOf(st, key), c, result, now))
  }

  function RefreshAll(st: State, c: Config, snapshots: seq<Entry<DeviceKey, Snapshot>>, now: real): State
    decreases snapshots
  {
    if snapshots == [] then st
    else
      var before, key := RefreshAll(st, c, snapshots[..|snapshots| - 1], now), snapshots[|snapshots| - 1].key;
      Apply(before, key, Refresh(MemoryOf(before, key), c, now))
  }

  function RefreshStale(st: State, c: Config, now: real): State {
    if c.staleTimeout <= 0.0 then st else RefreshAll(st, c, st.latest, now)
  }

  function CachedMessages(st: State, c: Config, snapshots: seq<Entry<DeviceKey, Snapshot>>, now: real): seq<Message>
    decreases snapshots
  {
    if snapshots == [] then []
    else
      CachedMessages(st, c, snapshots[..|snapshots| - 1], now) +
      DataMessages(MemoryOf(st, snapshots[|snapshots| - 1].key), c, now)
  }

  function PublishCached(st: State, c: Config, now: real): State {
    var refreshed := RefreshStale(st, c, now);
    refreshed.(sent := refreshed.sent + CachedMessages(refreshed, c, refreshed.latest, now))
  }

  // ----- Runs -----

  datatype Event = Received(result: ReadResult, at: real) | Ticked(at: real)

  function Step(st: State, c: Config, e: Event): State {
    match e
    case Received(result, at) => ReceiveResult(st, c, result, at)
    case Ticked(at) => PublishCached(st, c, at)
  }

  function Run(c: Config, events: seq<Event>): State
    decreases events
  {
    if events == [] then EMPTY else Step(Run(c, events[..|events| - 1]), c, events[|events| - 1])
  }
}
