/** The queue of status items towards the user interface, and the tables they end up in. */
module StatusQueue {
  import opened Models
  import opened Dict
  import C = Conflation
  import Lists

  /** An item's named fields, as text. */
  type Fields = map<string, string>

  datatype StatusItem = TagUpdate(fields: Fields) | ServerStatus(fields: Fields) | Plain(message: string)

  datatype StatusKey =
    | TagUpdateKey(device: Option<string>, tag: Option<string>)
    | ServerKey(name: Option<string>)
    | EventKey(number: nat)

  type Item = Entry<StatusKey, StatusItem>

  function Field(fields: Fields, name: string): Option<string> {
    if name in fields then Some(fields[name]) else None
  }

  /** The node of an item, or else its tag. */
  function Node(fields: Fields): Option<string> {
    if Present(Field(fields, "node_id")) then Field(fields, "node_id") else Field(fields, "tag")
  }

  /** An item without a type of its own gets a key that nothing else has. */
  function KeyFor(item: StatusItem, sequence: nat): StatusKey {
    match item
    case TagUpdate(fields) => TagUpdateKey(Field(fields, "device"), Node(fields))
    case ServerStatus(fields) => ServerKey(Field(fields, "device"))
    case Plain(_) => EventKey(sequence + 1)
  }

  // ----- Which items share a key or a row, by their fields -----

  /** A field as text; one that is missing counts as empty. */
  function TextOf(fields: Fields, name: string): string {
    if name in fields then fields[name] else ""
  }

  /** What tells the tags of a device apart: the node id, or the tag's name if there is none. */
  predicate SameTag(f: Fields, g: Fields) {
    (if TextOf(f, "node_id") != "" then TextOf(f, "node_id") else TextOf(f, "tag"))
      == if TextOf(g, "node_id") != "" then TextOf(g, "node_id") else TextOf(g, "tag")
  }

  /** Updates share a row of the table exactly if device and tag are the same. */
  lemma SameRowByFields(f: Fields, g: Fields)
    ensures RowOf(f) == RowOf(g) <==> TextOf(f, "device") == TextOf(g, "device") && SameTag(f, g)
  {}

  /** They share a key of the queue exactly then too, if each has the fields for it; so do server statuses of a device.
      Items of different kinds never do, and plain ones only with themselves. */
  lemma SameKeyByFields(a: StatusItem, b: StatusItem, m: nat, n: nat)
    requires forall item :: item in [a, b] && !item.Plain? ==> "device" in item.fields
    requires forall item :: item in [a, b] && item.TagUpdate? ==> "tag" in item.fields
    ensures KeyFor(a, m) == KeyFor(b, n) <==>
      match (a, b)
      case (TagUpdate(f), TagUpdate(g)) => f["device"] == g["device"] && SameTag(f, g)
      case (ServerStatus(f), ServerStatus(g)) => f["device"] == g["device"]
      case (Plain(_), Plain(_)) => m == n
      case _ => false
  {
    assert a in [a, b] && b in [a, b];
  }

  // ----- The tables -----

  type RowKey = (string, string)

  datatype Board = Board(tags: map<RowKey, Fields>, servers: map<string, Fields>)

  function OrEmpty(text: Option<string>): string {
    if text.Some? then text.value else ""
  }

  function RowOf(fields: Fields): RowKey {
    (OrEmpty(Field(fields, "device")), OrEmpty(Node(fields)))
  }

  /** A tag update is merged into its row; a server status replaces the one before. */
  function Record(board: Board, item: StatusItem): Board {
    match item
    case TagUpdate(fields) =>
      var row := RowOf(fields);
      board.(tags := board.tags[row := (if row in board.tags then board.tags[row] else map[]) + fields])
    case ServerStatus(fields) => board.(servers := board.servers[OrEmpty(Field(fields, "device")) := fields])
    case Plain(_) => board
  }

  /** What the recorded item shows: a tag update, its whole merged row. */
  function Shown(board: Board, item: StatusItem): StatusItem {
    match item
    case TagUpdate(fields) => TagUpdate(Record(board, item).tags[RowOf(fields)])
    case _ => item
  }

  function RecordAll(board: Board, items: seq<Item>): Board
    decreases items
  {
    if items == [] then board else Record(RecordAll(board, items[..|items| - 1]), items[|items| - 1].value)
  }

  function Events(board: Board, items: seq<Item>): seq<StatusItem>
    decreases items
  {
    if items == [] then []
    else
      var n := |items| - 1;
      Events(board, items[..n]) + [Shown(RecordAll(board, items[..n]), items[n].value)]
  }

  // ----- What the tables hold is decided by the last item of each kind -----

  predicate Updates(e: Item, row: RowKey) {
    e.value.TagUpdate? && RowOf(e.value.fields) == row
  }

  function UpdatesRow(row: RowKey): Item -> bool {
    (e: Item) => Updates(e, row)
  }

  function UpdatesField(row: RowKey, name: string): Item -> bool {
    (e: Item) => Updates(e, row) && name in e.value.fields
  }

  function Reports(server: string): Item -> bool {
    (e: Item) => e.value.ServerStatus? && OrEmpty(Field(e.value.fields, "device")) == server
  }

  function Cell(board: Board, row: RowKey, name: string): Option<string> {
    if row in board.tags then Field(board.tags[row], name) else None
  }

  function Server(board: Board, name: string): Option<Fields> {
    if name in board.servers then Some(board.servers[name]) else None
  }

  lemma {:induction false} RowsByLast(board: Board, items: seq<Item>, row: RowKey)
    ensures row in RecordAll(board, items).tags <==> row in board.tags || Lists.Last(items, UpdatesRow(row)).Some?
    decreases items
  {
    if items != [] { RowsByLast(board, items[..|items| - 1], row); }
  }

  lemma {:induction false} CellsByLast(board: Board, items: seq<Item>, row: RowKey, name: string)
    ensures var last := Lists.Last(items, UpdatesField(row, name));
      (last.Some? ==> !last.value.value.Plain?) &&
      Cell(RecordAll(board, items), row, name) == if last.Some? then Field(last.value.value.fields, name)
        else Cell(board, row, name)
    decreases items
  {
    if items != [] { CellsByLast(board, items[..|items| - 1], row, name); }
  }

  lemma {:induction false} ServersByLast(board: Board, items: seq<Item>, server: string)
    ensures var last := Lists.Last(items, Reports(server));
      (last.Some? ==> last.value.value.ServerStatus?) &&
      Server(RecordAll(board, items), server) == if last.Some? then Some(last.value.value.fields)
        else Server(board, server)
    decreases items
  {
    if items != [] { ServersByLast(board, items[..|items| - 1], server); }
  }

  lemma SameBoards(a: Board, b: Board)
    requires forall row :: row in a.tags <==> row in b.tags
    requires forall row, name :: Cell(a, row, name) == Cell(b, row, name)
    requires forall server :: Server(a, server) == Server(b, server)
    ensures a == b
  {
    forall row | row in a.tags
      ensures a.tags[row] == b.tags[row]
    {
      forall name
        ensures Field(a.tags[row], name) == Field(b.tags[row], name)
      {
        assert Cell(a, row, name) == Cell(b, row, name);
      }
      assert forall name :: name in a.tags[row] <==> Field(a.tags[row], name).Some?;
      assert forall name :: name in b.tags[row] <==> Field(b.tags[row], name).Some?;
      assert forall name :: name in a.tags[row] ==> Field(a.tags[row], name) == Some(a.tags[row][name]);
    }
    assert a.tags == b.tags;
    assert forall server :: server in a.servers <==> Server(a, server).Some?;
    assert forall server :: server in b.servers <==> Server(b, server).Some?;
    assert forall server :: server in a.servers ==> Server(a, server) == Some(a.servers[server]);
    assert a.servers == b.servers;
  }

  // ----- The queue against a plain one -----

  /** Keys are those the queue assigns; plain items are numbered in order, up to a number. */
  ghost predicate Numbered(puts: seq<Item>, sequence: nat) {
    && (forall e :: e in puts ==>
      if e.value.Plain? then e.key.EventKey? && e.key.number <= sequence else e.key == KeyFor(e.value, 0))
    && (forall i, j :: 0 <= i < j < |puts| && puts[i].value.Plain? && puts[j].value.Plain? ==>
      puts[i].key.number < puts[j].key.number)
  }

  predicate HasField(e: Item, key: StatusKey, name: string) {
    e.key == key && e.value.TagUpdate? && name in e.value.fields
  }

  /** Every field of an update that is replaced is in some later update of its key; so the latest update of a key has
      all fields that any had. */
  ghost predicate Complete(puts: seq<Item>) {
    forall i, j, name :: 0 <= i < j < |puts| && HasField(puts[i], puts[j].key, name) ==>
      ComesAgain(puts, i, puts[j].key, name)
  }

  ghost predicate ComesAgain(puts: seq<Item>, i: nat, key: StatusKey, name: string) {
    exists m :: i < m < |puts| && HasField(puts[m], key, name)
  }

  lemma SameKeySameKind(puts: seq<Item>, sequence: nat, i: nat, j: nat)
    requires Numbered(puts, sequence) && i < j < |puts| && puts[i].key == puts[j].key
    ensures !puts[i].value.Plain? && !puts[j].value.Plain?
    ensures puts[i].value.TagUpdate? <==> puts[j].value.TagUpdate?
    ensures RowOf(puts[i].value.fields) == RowOf(puts[j].value.fields) || puts[i].value.ServerStatus?
    ensures Field(puts[i].value.fields, "device") == Field(puts[j].value.fields, "device")
  {
    assert puts[i] in puts && puts[j] in puts;
  }

  lemma KindsAreStable(puts: seq<Item>, sequence: nat, row: RowKey, server: string)
    requires Numbered(puts, sequence)
    ensures C.Stable(puts, UpdatesRow(row)) && C.Stable(puts, Reports(server))
  {
    hide Numbered, RowOf;
    forall i, j | 0 <= i < j < |puts| && puts[i].key == puts[j].key
      ensures UpdatesRow(row)(puts[i]) ==> UpdatesRow(row)(puts[j])
      ensures Reports(server)(puts[i]) ==> Reports(server)(puts[j])
    {
      SameKeySameKind(puts, sequence, i, j);
    }
  }

  lemma Again(puts: seq<Item>, i: nat, key: StatusKey, name: string) returns (m: nat)
    requires ComesAgain(puts, i, key, name)
    ensures i < m < |puts| && HasField(puts[m], key, name)
  {
    m :| i < m < |puts| && HasField(puts[m], key, name);
  }

  lemma FieldsAreSpared(puts: seq<Item>, sequence: nat, row: RowKey, name: string)
    requires Numbered(puts, sequence) && Complete(puts)
    ensures C.Spared(puts, UpdatesField(row, name))
  {
    hide Numbered, RowOf, ComesAgain;
    var p := UpdatesField(row, name);
    forall i, j | 0 <= i < j < |puts| && puts[i].key == puts[j].key && p(puts[i])
      ensures exists m :: i < m < |puts| && p(puts[m])
    {
      assert HasField(puts[i], puts[j].key, name);
      var m := Again(puts, i, puts[j].key, name);
      SameKeySameKind(puts, sequence, i, m);
      assert p(puts[m]);
    }
  }

  /** However puts and gets interleave, a full drain leaves the tables as if every item had been recorded. */
  lemma BoardMeetsFifo(board: Board, ops: seq<C.Op<StatusKey, StatusItem>>, sequence: nat)
    requires Numbered(C.Puts(ops), sequence) && Complete(C.Puts(ops))
    ensures RecordAll(board, C.Drained(ops)) == RecordAll(board, C.Puts(ops))
  {
    hide RecordAll, C.Drained, C.Puts, Lists.Last, C.Stable, Numbered, Complete, Cell, Server, UpdatesRow, UpdatesField,
      Reports, C.Spared;
    var seen, every := C.Drained(ops), C.Puts(ops);
    forall row
      ensures row in RecordAll(board, seen).tags <==> row in RecordAll(board, every).tags
    {
      KindsAreStable(every, sequence, row, "");
      C.DrainEndsAlike(ops, UpdatesRow(row));
      RowsByLast(board, seen, row);
      RowsByLast(board, every, row);
    }
    forall row, name
      ensures Cell(RecordAll(board, seen), row, name) == Cell(RecordAll(board, every), row, name)
    {
      FieldsAreSpared(every, sequence, row, name);
      C.SparedEndsAlike(ops, UpdatesField(row, name));
      CellsByLast(board, seen, row, name);
      CellsByLast(board, every, row, name);
    }
    forall server
      ensures Server(RecordAll(board, seen), server) == Server(RecordAll(board, every), server)
    {
      KindsAreStable(every, sequence, ("", ""), server);
      C.DrainEndsAlike(ops, Reports(server));
      ServersByLast(board, seen, server);
      ServersByLast(board, every, server);
    }
    SameBoards(RecordAll(board, seen), RecordAll(board, every));
  }

  /** Every update names its device and its tag, as all updates that the gateway makes do. */
  ghost predicate Named(puts: seq<Item>) {
    forall e :: e in puts && e.value.TagUpdate? ==>
      Field(e.value.fields, "device").Some? && Node(e.value.fields).Some?
  }

  lemma SameRowSameKey(puts: seq<Item>, sequence: nat, e: Item, f: Item)
    requires Numbered(puts, sequence) && Named(puts) && e in puts && f in puts
    requires e.value.TagUpdate? && f.value.TagUpdate? && RowOf(e.value.fields) == RowOf(f.value.fields)
    ensures e.key == f.key
  {}

  /** Updates that are not complete lose a field if all are put before the first is taken. */
  lemma ReplacedFieldIsLost(puts: seq<Item>, sequence: nat)
    requires Numbered(puts, sequence) && Named(puts) && !Complete(puts)
    ensures RecordAll(Board(map[], map[]), C.Drained(C.PutsOnly(puts))) != RecordAll(Board(map[], map[]), puts)
  {
    hide Lists.Last, Numbered, Named, RowOf, RecordAll, C.Run, C.PutsOnly;
    var i, j, name :| 0 <= i < j < |puts| && HasField(puts[i], puts[j].key, name) &&
      !ComesAgain(puts, i, puts[j].key, name);
    var row, board, seen := RowOf(puts[i].value.fields), Board(map[], map[]), C.Drained(C.PutsOnly(puts));
    var p := UpdatesField(row, name);
    forall m | i < m < |puts|
      ensures !p(puts[m])
    {
      assert !HasField(puts[m], puts[j].key, name);
      if p(puts[m]) { SameRowSameKey(puts, sequence, puts[i], puts[m]); }
    }
    Lists.LastAt(puts, p, i);
    CellsByLast(board, puts, row, name);
    CellsByLast(board, seen, row, name);
    Lists.LastIsMember(seen, p);
    if Lists.Last(seen, p).Some? {
      var e := Lists.Last(seen, p).value;
      C.OthersWait(puts, p, i, j, e);
      SameRowSameKey(puts, sequence, puts[i], e);
    }
    assert Cell(RecordAll(board, seen), row, name) == None;
    assert Cell(RecordAll(board, puts), row, name).Some?;
  }

  /** All interleavings of some puts with gets leave the tables as if every item had been recorded, whatever these held
      before, exactly if the updates are complete. */
  lemma BoardMeetsFifoExactly(puts: seq<Item>, sequence: nat)
    requires Numbered(puts, sequence) && Named(puts)
    ensures Complete(puts)
       <==> forall board, ops :: C.Puts(ops) == puts ==>
              RecordAll(board, C.Drained(ops)) == RecordAll(board, puts)
  {
    hide Numbered, Named, Complete, RecordAll, C.Puts, C.Drained, C.PutsOnly;
    if Complete(puts) {
      forall board, ops | C.Puts(ops) == puts
        ensures RecordAll(board, C.Drained(ops)) == RecordAll(board, puts)
      {
        BoardMeetsFifo(board, ops, sequence);
      }
    } else {
      C.PutsOnlyRun(puts);
      ReplacedFieldIsLost(puts, sequence);
    }
  }

  /** Plain items are never conflated: each is delivered once, in order. */
  lemma PlainItemsAreKept(ops: seq<C.Op<StatusKey, StatusItem>>, sequence: nat)
    requires Numbered(C.Puts(ops), sequence)
    ensures Lists.Filter(C.Drained(ops), (e: Item) => e.value.Plain?)
      == Lists.Filter(C.Puts(ops), (e: Item) => e.value.Plain?)
  {
    var p := (e: Item) => e.value.Plain?;
    var puts := C.Puts(ops);
    forall i, j | 0 <= i < j < |puts| && puts[i].key == puts[j].key
      ensures !p(puts[i]) && !p(puts[j])
    {
      SameKeySameKind(puts, sequence, i, j);
    }
    C.UnrepeatedAreDelivered(ops, p);
  }

  // ----- The objects -----

  class LatestStatusQueue {
    var items: seq<Item>
    var sequence: nat
    ghost var ops: seq<C.Op<StatusKey, StatusItem>>

    ghost predicate Valid()
      reads this
    {
      items == C.Run(ops).waiting && UniqueKeys(items) && Numbered(C.Puts(ops), sequence)
    }

    constructor ()
      ensures Valid() && items == [] && ops == []
    {
      items, sequence, ops := [], 0, [];
    }

    method Put(item: StatusItem)
      requires Valid()
      modifies this
      ensures Valid()
      ensures items == C.PutEntry(old(items), Entry(KeyFor(item, old(sequence)), item))
      ensures ops == old(ops) + [C.Put(Entry(KeyFor(item, old(sequence)), item))]
      ensures C.Run(ops).taken == old(C.Run(ops).taken)
      ensures C.Puts(ops) == old(C.Puts(ops)) + [Entry(KeyFor(item, old(sequence)), item)]
    {
      var e := Entry(KeyFor(item, sequence), item);
      items := Delete(items, e.key) + [e];
      ghost var puts := C.Puts(ops);
      ops := ops + [C.Put(e)];
      assert ops[..|ops| - 1] == old(ops);
      assert C.Puts(ops) == puts + [e];
      C.RunFromPuts(ops);
      PutStaysNumbered(puts, sequence, item);
      if item.Plain? { sequence := sequence + 1; }
    }

    method GetNoWait() returns (item: Option<StatusItem>)
      requires Valid()
      modifies `items, `ops
      ensures Valid() && ops == old(ops) + [C.Get]
      ensures item == if old(items) == [] then None else Some(old(items)[0].value)
      ensures items == if old(items) == [] then [] else old(items)[1..]
    {
      ops := ops + [C.Get];
      assert ops[..|ops| - 1] == old(ops);
      assert C.Puts(ops) == C.Puts(old(ops));
      C.RunFromPuts(ops);
      if items == [] { return None; }
      item := Some(items[0].value);
      items := items[1..];
    }
  }

  lemma PutStaysNumbered(puts: seq<Item>, sequence: nat, item: StatusItem)
    requires Numbered(puts, sequence)
    ensures Numbered(puts + [Entry(KeyFor(item, sequence), item)], if item.Plain? then sequence + 1 else sequence)
  {
    var e := Entry(KeyFor(item, sequence), item);
    var longer := puts + [e];
    assert forall i :: 0 <= i < |puts| ==> longer[i] == puts[i] && longer[i] in puts;
    assert longer[|puts|] == e;
  }

  lemma GetTakesFirst(ops: seq<C.Op<StatusKey, StatusItem>>)
    ensures var q, after := C.Run(ops), C.Run(ops + [C.Get]);
      after == (if q.waiting == [] then q else C.Queue(q.waiting[1..], q.taken + [q.waiting[0]])) &&
      C.Puts(ops + [C.Get]) == C.Puts(ops)
  {
    C.RunLonger(ops, C.Get);
    assert C.Puts(ops) + [] == C.Puts(ops);
  }

  lemma RecordNext(board: Board, taken: seq<Item>, e: Item)
    ensures RecordAll(board, taken + [e]) == Record(RecordAll(board, taken), e.value)
  {
    assert (taken + [e])[..|taken|] == taken;
  }

  /** Once nothing waits, what has been taken is what a full drain delivers. */
  lemma TakenIsDrained(ops: seq<C.Op<StatusKey, StatusItem>>)
    requires C.Run(ops).waiting == []
    ensures C.Run(ops).taken == C.Drained(ops)
  {
    assert C.Run(ops).taken + [] == C.Run(ops).taken;
  }

  class RuntimeManager {
    const queue: LatestStatusQueue
    const rows: map<RowKey, Fields>
    var runtimeTags: map<RowKey, Fields>
    var serverStatuses: map<string, Fields>

    ghost function Tables(): Board
      reads this
    {
      Board(runtimeTags, serverStatuses)
    }

    /** The tables hold what has been taken from the queue since the start.  Puts by others keep this. */
    ghost predicate Tracks()
      reads this, queue
    {
      queue.Valid() && Tables() == RecordAll(Board(rows, map[]), C.Run(queue.ops).taken)
    }

    constructor (queue: LatestStatusQueue, rows: map<RowKey, Fields>)
      requires queue.Valid() && queue.ops == []
      ensures this.queue == queue && this.rows == rows && Tracks()
    {
      this.queue, this.rows := queue, rows;
      runtimeTags, serverStatuses := rows, map[];
    }

    method RecordStatus(item: StatusItem) returns (event: StatusItem)
      modifies this
      ensures Tables() == Record(old(Tables()), item)
      ensures event == Shown(old(Tables()), item)
      // What is returned shows the whole row that an update went into, and any other item as it is.
      ensures item.TagUpdate? ==>
        RowOf(item.fields) in runtimeTags && event == TagUpdate(runtimeTags[RowOf(item.fields)])
      ensures !item.TagUpdate? ==> event == item
    {
      event := item;
      match item
      case TagUpdate(fields) =>
        var key := RowOf(fields);
        var existing := if key in runtimeTags then runtimeTags[key] else map[];
        var merged := existing + fields;
        runtimeTags := runtimeTags[key := merged];
        event := TagUpdate(merged);
      case ServerStatus(fields) =>
        serverStatuses := serverStatuses[OrEmpty(Field(fields, "device")) := fields];
      case Plain(_) =>
    }

    /** Records the oldest item, if there is one. */
    method DrainOne() returns (event: Option<StatusItem>)
      requires Tracks()
      modifies this, queue
      ensures Tracks() && C.Puts(queue.ops) == old(C.Puts(queue.ops)) && queue.sequence == old(queue.sequence)
      ensures queue.items == if old(queue.items) == [] then [] else old(queue.items)[1..]
      ensures event == if old(queue.items) == [] then None else Some(Shown(old(Tables()), old(queue.items)[0].value))
      ensures Tables() == if old(queue.items) == [] then old(Tables())
        else Record(old(Tables()), old(queue.items)[0].value)
    {
      hide UniqueKeys, Numbered, Record, Shown, C.Run, C.Puts, RecordAll;
      GetTakesFirst(queue.ops);
      if queue.items != [] { RecordNext(Board(rows, map[]), C.Run(queue.ops).taken, queue.items[0]); }
      var item := queue.GetNoWait();
      if item.None? { return None; }
      var shown := RecordStatus(item.value);
      event := Some(shown);
    }

    /** Records the oldest items, at most as many as the limit says, and leaves the rest waiting. */
    method DrainEvents(limit: nat) returns (events: seq<StatusItem>)
      requires Tracks()
      modifies this, queue
      ensures Tracks() && C.Puts(queue.ops) == old(C.Puts(queue.ops)) && queue.sequence == old(queue.sequence)
      ensures |events| == if limit < |old(queue.items)| then limit else |old(queue.items)|
      ensures queue.items == old(queue.items)[|events|..]
      ensures Tables() == RecordAll(old(Tables()), old(queue.items)[..|events|])
      ensures events == Events(old(Tables()), old(queue.items)[..|events|])
      // Whatever was put and drained before: once nothing waits, the tables are as if every item had been recorded.
      ensures queue.items == [] && Complete(C.Puts(queue.ops)) ==>
        Tables() == RecordAll(Board(rows, map[]), C.Puts(queue.ops))
    {
      hide UniqueKeys, Record, Shown, C.Run, C.Puts, Complete;
      events := [];
      ghost var before := queue.items;
      for i := 0 to limit
        invariant Tracks() && |events| == i <= |before|
        invariant C.Puts(queue.ops) == old(C.Puts(queue.ops)) && queue.sequence == old(queue.sequence)
        invariant queue.items == before[i..]
        invariant Tables() == RecordAll(old(Tables()), before[..i])
        invariant events == Events(old(Tables()), before[..i])
      {
        var event := DrainOne();
        if event.None? { break; }
        assert before[..i + 1][..i] == before[..i];
        events := events + [event.value];
      }
      if queue.items == [] && Complete(C.Puts(queue.ops)) {
        TakenIsDrained(queue.ops);
        BoardMeetsFifo(Board(rows, map[]), queue.ops, queue.sequence);
      }
    }
  }
}
