// The checkpoint of the controller's pending work: every table flattened into
// lists of integers, and read back through the same bounds checks.
module PendingCheckpoints {
  import opened Bytes
  import opened SlotMaps
  import C = Controllers

  // A controller slot's native state.
  datatype Slot = Slot(unit: int, printer: bool, active: bool, configured: bool, internalRenderer: bool,
                       transferRenderer: bool)

  // Sets are kept as ascending lists, the order they are written out in.
  datatype Pending = Pending(
    inputs: Slots<int, C.PendingRead>, staging: Slots<int, int>, status: Slots<int, C.Status>,
    waits: Slots<int, C.Waiting>, puts: Slots<int, C.Waiting>,
    screenSaves: seq<int>, deferred: Option<C.Deferred>,
    invites: seq<int>, printerOutputs: seq<int>, activations: seq<int>, activated: seq<int>,
    slots: seq<Slot>)

  datatype Checkpoint = Checkpoint(
    inputs: seq<int>, staging: seq<int>, status: seq<int>, waits: seq<int>, puts: seq<int>,
    invites: seq<int>, printerOutputs: seq<int>, activations: seq<int>, activated: seq<int>,
    active: seq<int>, configured: seq<int>, internalRenderers: seq<int>, transferRenderers: seq<int>)

  datatype Failure =
    | Fine | TruncatedRead | InvalidBuffer | AbsentReadUnit | InvalidStaging | InvalidStatus | InvalidWait | InvalidPut
    | AbsentPutUnit

  // ---- writing ----------------------------------------------------------------

  datatype Item<V> = Item(key: int, value: V)

  // The live entries, in table order.
  function Live<V>(entries: seq<Entry<int, V>>): seq<Item<V>> {
    if entries == [] then []
    else (if entries[0].live then [Item(entries[0].key, entries[0].value)] else []) + Live(entries[1..])
  }

  function ReadRow(e: Item<C.PendingRead>): seq<int> {
    [e.key, e.value.unit, e.value.block, e.value.command, e.value.field, e.value.capacity, e.value.staging,
     |e.value.destination|] + e.value.destination
  }

  function PairRow(e: Item<int>): seq<int> {
    [e.key, e.value]
  }

  function Ints(bytes: seq<byte>): (r: seq<int>)
    ensures |r| == |bytes| && forall i | 0 <= i < |bytes| :: r[i] == bytes[i]
  {
    seq(|bytes|, i requires 0 <= i < |bytes| => bytes[i])
  }

  function StatusRow(e: Item<C.Status>): seq<int> {
    [e.key, e.value.block, |e.value.bytes|] + Ints(e.value.bytes)
  }

  function WaitRow(e: Item<C.Waiting>): seq<int> {
    [e.key, e.value.unit, e.value.block]
  }

  function ReadRows(items: seq<Item<C.PendingRead>>): seq<int> {
    if items == [] then [] else ReadRow(items[0]) + ReadRows(items[1..])
  }

  function PairRows(items: seq<Item<int>>): seq<int> {
    if items == [] then [] else PairRow(items[0]) + PairRows(items[1..])
  }

  function StatusRows(items: seq<Item<C.Status>>): seq<int> {
    if items == [] then [] else StatusRow(items[0]) + StatusRows(items[1..])
  }

  function WaitRows(items: seq<Item<C.Waiting>>): seq<int> {
    if items == [] then [] else WaitRow(items[0]) + WaitRows(items[1..])
  }

  // ---- the rows by position -----------------------------------------------------

  // Row i of the reads begins after eight numbers and the buffer of each row
  // before it.
  function ReadAt(items: seq<Item<C.PendingRead>>, i: nat): nat
    requires i <= |items|
  {
    if i == 0 then 0 else ReadAt(items, i - 1) + 8 + |items[i - 1].value.destination|
  }

  lemma {:induction false} ReadRowsSplit(items: seq<Item<C.PendingRead>>, i: nat)
    requires i <= |items|
    ensures |ReadRows(items[..i])| == ReadAt(items, i)
    ensures ReadRows(items) == ReadRows(items[..i]) + ReadRows(items[i..])
  {
    hide ReadRow;
    assert items == items[..i] + items[i..];
    ReadRowsJoin(items[..i], items[i..]);
    if i == 0 {
      assert items[..0] == [];
    } else {
      ReadRowsSplit(items, i - 1);
      var last := [items[i - 1]];
      assert items[..i] == items[..i - 1] + last && last[1..] == [];
      ReadRowsJoin(items[..i - 1], last);
      ReadRowSize(items[i - 1]);
    }
  }

  lemma ReadRowSize(e: Item<C.PendingRead>)
    ensures |ReadRow(e)| == 8 + |e.value.destination|
  {
  }

  lemma {:induction false} ReadRowsJoin(a: seq<Item<C.PendingRead>>, b: seq<Item<C.PendingRead>>)
    ensures ReadRows(a + b) == ReadRows(a) + ReadRows(b)
  {
    hide ReadRow;
    if a == [] {
      assert a + b == b;
    } else {
      assert (a + b)[1..] == a[1..] + b;
      ReadRowsJoin(a[1..], b);
    }
  }

  // A read goes out as its request, unit, unit block, command, buffer field,
  // length, work-space displacement, and the buffer behind its size.
  lemma ReadLaidOut(items: seq<Item<C.PendingRead>>, i: nat)
    requires i < |items|
    ensures var list, at, p, n := ReadRows(items), ReadAt(items, i), items[i].value, |items[i].value.destination|;
            && at + 8 + n <= |list| && list[at] == items[i].key && list[at + 1] == p.unit && list[at + 2] == p.block
            && list[at + 3] == p.command && list[at + 4] == p.field && list[at + 5] == p.capacity
            && list[at + 6] == p.staging && list[at + 7] == n && list[at + 8..at + 8 + n] == p.destination
  {
    ReadRowsSplit(items, i);
    ReadRowLies(items[i]);
    var row, rest := ReadRow(items[i]), ReadRows(items[i..][1..]);
    assert ReadRows(items[i..]) == row + rest;
    hide ReadRow, ReadRows, ReadAt;
    RowLies(ReadRows(items[..i]), row, rest);
    assert ReadRows(items) == ReadRows(items[..i]) + (row + rest);
  }

  lemma ReadRowLies(e: Item<C.PendingRead>)
    ensures var row, p := ReadRow(e), e.value;
            && |row| == 8 + |p.destination| && row[0] == e.key && row[1] == p.unit && row[2] == p.block
            && row[3] == p.command && row[4] == p.field && row[5] == p.capacity && row[6] == p.staging
            && row[7] == |p.destination| && row[8..] == p.destination
  {
  }

  lemma RowLies(before: seq<int>, row: seq<int>, rest: seq<int>)
    requires |row| >= 8
    ensures var list, at := before + (row + rest), |before|;
            && |list| >= at + |row| && list[at] == row[0] && list[at + 1] == row[1] && list[at + 2] == row[2]
            && list[at + 3] == row[3] && list[at + 4] == row[4] && list[at + 5] == row[5] && list[at + 6] == row[6]
            && list[at + 7] == row[7] && list[at + 8..at + |row|] == row[8..]
  {
  }

  // A status goes out as its unit, its block, and twelve bytes behind their
  // count; a wait and a PUT-with-invite as request, unit, unit block; a work
  // page as unit and page.
  lemma {:induction false} StatusLaidOut(items: seq<Item<C.Status>>, i: nat)
    requires i < |items| && forall j | 0 <= j < |items| :: |items[j].value.bytes| == 12
    ensures var list, at, s := StatusRows(items), 15 * i, items[i].value;
            |list| == 15 * |items| && list[at..at + 15] == [items[i].key, s.block, 12] + Ints(s.bytes)
    decreases |items|
  {
    var row, rest := StatusRow(items[0]), StatusRows(items[1..]);
    assert |row| == 15 && row == [items[0].key, items[0].value.block, 12] + Ints(items[0].value.bytes);
    hide StatusRow;
    if |items| == 1 {
      assert rest == [] && (row + rest)[..15] == row;
    } else if i == 0 {
      StatusLaidOut(items[1..], 0);
      assert (row + rest)[..15] == row;
    } else {
      StatusLaidOut(items[1..], i - 1);
      RowShifted(row, rest, 15 * (i - 1));
      assert 15 * i == 15 + 15 * (i - 1);
    }
  }

  lemma RowShifted(row: seq<int>, rest: seq<int>, at: nat)
    requires at + 15 <= |rest| && |row| == 15
    ensures (row + rest)[15 + at..15 + at + 15] == rest[at..at + 15]
  {
  }

  lemma {:induction false} WaitLaidOut(items: seq<Item<C.Waiting>>, i: nat)
    requires i < |items|
    ensures var list, at := WaitRows(items), 3 * i;
            && |list| == 3 * |items| && list[at] == items[i].key
            && list[at + 1] == items[i].value.unit && list[at + 2] == items[i].value.block
    decreases |items|
  {
    var row, rest := WaitRow(items[0]), WaitRows(items[1..]);
    if |items| == 1 {
      assert rest == [];
    } else {
      WaitLaidOut(items[1..], if i > 0 then i - 1 else 0);
      assert forall k | 0 <= k < |rest| :: (row + rest)[3 + k] == rest[k];
    }
  }

  lemma {:induction false} PageLaidOut(items: seq<Item<int>>, i: nat)
    requires i < |items|
    ensures var list := PairRows(items);
            |list| == 2 * |items| && list[2 * i] == items[i].key && list[2 * i + 1] == items[i].value
    decreases |items|
  {
    var row, rest := PairRow(items[0]), PairRows(items[1..]);
    if |items| == 1 {
      assert rest == [];
    } else {
      PageLaidOut(items[1..], if i > 0 then i - 1 else 0);
      assert forall k | 0 <= k < |rest| :: (row + rest)[2 + k] == rest[k];
    }
  }

  datatype Flag = ACTIVE | CONFIGURED | INTERNAL | TRANSFER

  predicate HasFlag(s: Slot, f: Flag) {
    match f
    case ACTIVE => s.active
    case CONFIGURED => s.configured
    case INTERNAL => s.internalRenderer
    case TRANSFER => s.transferRenderer
  }

  function UnitsWith(slots: seq<Slot>, f: Flag): seq<int> {
    if slots == [] then [] else (if HasFlag(slots[0], f) then [slots[0].unit] else []) + UnitsWith(slots[1..], f)
  }

  function Capture(p: Pending): Checkpoint {
    Checkpoint(ReadRows(Live(p.inputs.entries)), PairRows(Live(p.staging.entries)), StatusRows(Live(p.status.entries)),
               WaitRows(Live(p.waits.entries)), WaitRows(Live(p.puts.entries)),
               p.invites, p.printerOutputs, p.activations, p.activated,
               UnitsWith(p.slots, ACTIVE), UnitsWith(p.slots, CONFIGURED),
               UnitsWith(p.slots, INTERNAL), UnitsWith(p.slots, TRANSFER))
  }

  // ---- reading ------------------------------------------------------------------

  datatype Parsed<V> = Parsed(table: Slots<int, V>, failure: Failure)

  predicate Present(slots: seq<Slot>, unit: int) {
    exists i | 0 <= i < |slots| :: slots[i].unit == unit
  }

  // What a list is read into stays read when a later row is refused.
  function ParseReads(list: seq<int>, slots: seq<Slot>, table: Slots<int, C.PendingRead>): (r: Parsed<C.PendingRead>)
    requires Valid(table)
    ensures Valid(r.table)
  {
    if list == [] then Parsed(table, Fine)
    else if |list| < 8 then Parsed(table, TruncatedRead)
    else
      var count := list[7];
      if count < 0 || 8 + count > |list| then Parsed(table, InvalidBuffer)
      else if !Present(slots, list[1]) then Parsed(table, AbsentReadUnit)
      else
        var p := C.PendingRead(list[1], list[2], list[3] % 0x100, list[4], list[8..8 + count], list[5], list[6]);
        SetValid(table, list[0], p);
        ParseReads(list[8 + count..], slots, Set(table, list[0], p))
  }

  lemma EmptyValid<K, V>()
    ensures Valid<K, V>(Clear())
  {
  }

  lemma ReadStep(list: seq<int>, slots: seq<Slot>, table: Slots<int, C.PendingRead>)
    requires Valid(table)
    ensures list == [] ==> ParseReads(list, slots, table) == Parsed(table, Fine)
    ensures 0 < |list| < 8 ==> ParseReads(list, slots, table) == Parsed(table, TruncatedRead)
    ensures |list| >= 8 ==>
              var count := list[7];
              if count < 0 || 8 + count > |list| then ParseReads(list, slots, table) == Parsed(table, InvalidBuffer)
              else if !Present(slots, list[1]) then ParseReads(list, slots, table) == Parsed(table, AbsentReadUnit)
              else
                var p := C.PendingRead(list[1], list[2], list[3] % 0x100, list[4], list[8..8 + count], list[5],
                                       list[6]);
                && Valid(Set(table, list[0], p))
                && ParseReads(list, slots, table) == ParseReads(list[8 + count..], slots, Set(table, list[0], p))
  {
    hide Present, Set, Valid;
    if |list| >= 8 && 0 <= list[7] && 8 + list[7] <= |list| {
      SetValid(table, list[0], C.PendingRead(list[1], list[2], list[3] % 0x100, list[4], list[8..8 + list[7]], list[5],
                                             list[6]));
    }
  }

  function ParsePairs(list: seq<int>, table: Slots<int, int>): (r: Parsed<int>)
    requires Valid(table) && |list| % 2 == 0
    ensures Valid(r.table) && r.failure == Fine
  {
    if list == [] then Parsed(table, Fine)
    else
      SetValid(table, list[0], list[1]);
      ParsePairs(list[2..], Set(table, list[0], list[1]))
  }

  function AsBytes(list: seq<int>): (r: seq<byte>)
    ensures |r| == |list| && forall i | 0 <= i < |list| :: r[i] == list[i] % 0x100
  {
    seq(|list|, i requires 0 <= i < |list| => list[i] % 0x100)
  }

  function ParseStatus(list: seq<int>, table: Slots<int, C.Status>): (r: Parsed<C.Status>)
    requires Valid(table)
    ensures Valid(r.table)
  {
    if list == [] then Parsed(table, Fine)
    else if |list| < 3 || list[2] != 12 || |list| < 15 then Parsed(table, InvalidStatus)
    else
      var s := C.Status(list[1], AsBytes(list[3..15]));
      SetValid(table, list[0], s);
      ParseStatus(list[15..], Set(table, list[0], s))
  }

  function ParseWaits(list: seq<int>, table: Slots<int, C.Waiting>): (r: Parsed<C.Waiting>)
    requires Valid(table) && |list| % 3 == 0
    ensures Valid(r.table) && r.failure == Fine
  {
    if list == [] then Parsed(table, Fine)
    else
      SetValid(table, list[0], C.Waiting(list[1], list[2]));
      ParseWaits(list[3..], Set(table, list[0], C.Waiting(list[1], list[2])))
  }

  function ParsePuts(list: seq<int>, slots: seq<Slot>, table: Slots<int, C.Waiting>): (r: Parsed<C.Waiting>)
    requires Valid(table) && |list| % 3 == 0
    ensures Valid(r.table)
  {
    if list == [] then Parsed(table, Fine)
    else if !Present(slots, list[1]) then Parsed(table, AbsentPutUnit)
    else
      SetValid(table, list[0], C.Waiting(list[1], list[2]));
      ParsePuts(list[3..], slots, Set(table, list[0], C.Waiting(list[1], list[2])))
  }

  function Insert(s: seq<int>, x: int): seq<int> {
    if s == [] then [x] else if x < s[0] then [x] + s else if x == s[0] then s else [s[0]] + Insert(s[1..], x)
  }

  function InsertAll(s: seq<int>, list: seq<int>): seq<int>
    decreases |list|
  {
    if list == [] then s else InsertAll(Insert(s, list[0]), list[1..])
  }

  function RestoreSlot(s: Slot, c: Checkpoint): Slot {
    Slot(s.unit, s.printer, s.unit in c.active, s.unit in c.configured,
         !s.printer && s.unit in c.internalRenderers, !s.printer && s.unit in c.transferRenderers)
  }

  function RestoreSlots(slots: seq<Slot>, c: Checkpoint): (r: seq<Slot>)
    ensures |r| == |slots| && forall i | 0 <= i < |slots| :: r[i] == RestoreSlot(slots[i], c)
  {
    seq(|slots|, i requires 0 <= i < |slots| => RestoreSlot(slots[i], c))
  }

  function Reset(slots: seq<Slot>): Pending {
    Pending(Clear(), Clear(), Clear(), Clear(), Clear(), [], None, [], [], [], [], slots)
  }

  datatype Restored = Restored(pending: Pending, failure: Failure)

  // Each list in turn; the first refusal stops the restore where it stands.
  function Restore(slots: seq<Slot>, c: Checkpoint): Restored {
    var p0 := Reset(slots);
    var inputs := ParseReads(c.inputs, slots, Clear());
    var p1 := p0.(inputs := inputs.table);
    if inputs.failure != Fine then Restored(p1, inputs.failure)
    else if |c.staging| % 2 != 0 then Restored(p1, InvalidStaging)
    else
      var p2 := p1.(staging := ParsePairs(c.staging, Clear()).table);
      var status := ParseStatus(c.status, Clear());
      var p3 := p2.(status := status.table);
      if status.failure != Fine then Restored(p3, status.failure)
      else if |c.waits| % 3 != 0 then Restored(p3, InvalidWait)
      else
        var p4 := p3.(waits := ParseWaits(c.waits, Clear()).table);
        if |c.puts| % 3 != 0 then Restored(p4, InvalidPut)
        else
          var puts := ParsePuts(c.puts, slots, Clear());
          var p5 := p4.(puts := puts.table);
          if puts.failure != Fine then Restored(p5, puts.failure)
          else
            Restored(p5.(invites := InsertAll([], c.invites), printerOutputs := c.printerOutputs,
                         activations := InsertAll([], c.activations), activated := InsertAll([], c.activated),
                         slots := RestoreSlots(slots, c)),
                     Fine)
  }

  // ---- the round trip ---------------------------------------------------------------

  // A table filled from empty with these rows.
  function Fresh<V>(items: seq<Item<V>>): (r: Slots<int, V>)
    ensures |r.entries| == |items| && r.free == []
    ensures forall i | 0 <= i < |items| :: r.entries[i] == Entry(items[i].key, items[i].value, true)
  {
    Slots(seq(|items|, i requires 0 <= i < |items| => Entry(items[i].key, items[i].value, true)), [])
  }

  ghost predicate KeysDistinct<V>(items: seq<Item<V>>) {
    forall i, j | 0 <= i < j < |items| :: items[i].key != items[j].key
  }

  lemma FreshValid<V>(items: seq<Item<V>>)
    requires KeysDistinct(items)
    ensures Valid(Fresh(items))
  {
  }

  // Setting the next row of a list with distinct keys appends it.
  lemma FreshGrows<V>(items: seq<Item<V>>, n: nat)
    requires KeysDistinct(items) && n < |items|
    ensures Valid(Fresh(items[..n]))
    ensures Set(Fresh(items[..n]), items[n].key, items[n].value) == Fresh(items[..n + 1])
  {
    FreshValid(items[..n]);
    var s := Fresh(items[..n]);
    forall i | 0 <= i < |s.entries|
      ensures s.entries[i].key != items[n].key
    {
    }
    assert Find(s.entries, items[n].key) == |s.entries|;
    assert Set(s, items[n].key, items[n].value).entries == Fresh(items[..n + 1]).entries;
  }

  lemma {:induction false} FreshLives<V>(items: seq<Item<V>>)
    ensures Live(Fresh(items).entries) == items
  {
    if items != [] {
      FreshLives(items[1..]);
      assert Fresh(items).entries[1..] == Fresh(items[1..]).entries;
    }
  }

  lemma {:induction false} LiveOccurs<V>(entries: seq<Entry<int, V>>, n: nat)
    requires n < |Live(entries)|
    ensures exists i | 0 <= i < |entries| ::
              entries[i].live && Item(entries[i].key, entries[i].value) == Live(entries)[n]
  {
    var first := if entries[0].live then 1 else 0;
    if n < first {
      assert entries[0].live && Item(entries[0].key, entries[0].value) == Live(entries)[n];
    } else {
      LiveOccurs(entries[1..], n - first);
      var i :| 0 <= i < |entries[1..]| && entries[1..][i].live
            && Item(entries[1..][i].key, entries[1..][i].value) == Live(entries[1..])[n - first];
      assert entries[i + 1].live;
    }
  }

  lemma {:induction false} LiveDistinct<V>(entries: seq<Entry<int, V>>)
    requires Unique(entries)
    ensures KeysDistinct(Live(entries))
  {
    if entries != [] {
      LiveDistinct(entries[1..]);
      if entries[0].live {
        var rest := Live(entries[1..]);
        forall j | 0 <= j < |rest|
          ensures rest[j].key != entries[0].key
        {
          LiveOccurs(entries[1..], j);
        }
      }
    }
  }

  lemma {:induction false} ReadsReadBack(items: seq<Item<C.PendingRead>>, slots: seq<Slot>, n: nat)
    requires KeysDistinct(items) && n <= |items|
    requires forall i | 0 <= i < |items| :: Present(slots, items[i].value.unit)
    ensures Valid(Fresh(items[..n]))
    ensures ParseReads(ReadRows(items[n..]), slots, Fresh(items[..n])) == Parsed(Fresh(items), Fine)
    decreases |items| - n
  {
    hide ParseReads, Set, Valid, Fresh, ReadRow;
    FreshValid(items[..n]);
    if n < |items| {
      FreshGrows(items, n);
      ReadsReadBack(items, slots, n + 1);
      assert items[n..][1..] == items[n + 1..];
      ReadRowParsed(items[n], ReadRows(items[n + 1..]), slots, Fresh(items[..n]));
    } else {
      assert items[..n] == items && items[n..] == [];
      ReadsEnd(slots, Fresh(items));
    }
  }

  lemma ReadsEnd(slots: seq<Slot>, table: Slots<int, C.PendingRead>)
    requires Valid(table)
    ensures ParseReads([], slots, table) == Parsed(table, Fine)
  {
  }

  lemma ReadRowParsed(e: Item<C.PendingRead>, rest: seq<int>, slots: seq<Slot>, table: Slots<int, C.PendingRead>)
    requires Valid(table) && Present(slots, e.value.unit)
    ensures Valid(Set(table, e.key, e.value))
    ensures ParseReads(ReadRow(e) + rest, slots, table) == ParseReads(rest, slots, Set(table, e.key, e.value))
  {
    hide Set, Valid;
    SetValid(table, e.key, e.value);
    var list, n := ReadRow(e) + rest, |e.value.destination|;
    assert list[8..8 + n] == e.value.destination && list[8 + n..] == rest;
    assert list[3] % 0x100 == e.value.command;
    assert C.PendingRead(list[1], list[2], list[3] % 0x100, list[4], list[8..8 + n], list[5], list[6]) == e.value;
  }

  lemma StatusEnd(table: Slots<int, C.Status>)
    requires Valid(table)
    ensures ParseStatus([], table) == Parsed(table, Fine)
  {
  }

  lemma StatusRowParsed(e: Item<C.Status>, rest: seq<int>, table: Slots<int, C.Status>)
    requires Valid(table) && |e.value.bytes| == 12
    ensures Valid(Set(table, e.key, e.value))
    ensures ParseStatus(StatusRow(e) + rest, table) == ParseStatus(rest, Set(table, e.key, e.value))
  {
    hide Set, Valid;
    SetValid(table, e.key, e.value);
    var list := StatusRow(e) + rest;
    assert list[3..15] == Ints(e.value.bytes) && list[15..] == rest;
    assert AsBytes(list[3..15]) == e.value.bytes;
  }

  lemma {:induction false} PairsReadBack(items: seq<Item<int>>, n: nat)
    requires KeysDistinct(items) && n <= |items|
    ensures Valid(Fresh(items[..n])) && |PairRows(items[n..])| % 2 == 0
    ensures ParsePairs(PairRows(items[n..]), Fresh(items[..n])) == Parsed(Fresh(items), Fine)
    decreases |items| - n
  {
    FreshValid(items[..n]);
    if n < |items| {
      FreshGrows(items, n);
      PairsReadBack(items, n + 1);
      assert items[n..][1..] == items[n + 1..];
      assert PairRows(items[n..])[2..] == PairRows(items[n + 1..]);
    } else {
      assert items[..n] == items && items[n..] == [];
    }
  }

  lemma {:induction false} StatusReadBack(items: seq<Item<C.Status>>, n: nat)
    requires KeysDistinct(items) && n <= |items|
    requires forall i | 0 <= i < |items| :: |items[i].value.bytes| == 12
    ensures Valid(Fresh(items[..n]))
    ensures ParseStatus(StatusRows(items[n..]), Fresh(items[..n])) == Parsed(Fresh(items), Fine)
    decreases |items| - n
  {
    hide ParseStatus, Set, Valid, Fresh, StatusRow;
    FreshValid(items[..n]);
    if n < |items| {
      FreshGrows(items, n);
      StatusReadBack(items, n + 1);
      assert items[n..][1..] == items[n + 1..];
      StatusRowParsed(items[n], StatusRows(items[n + 1..]), Fresh(items[..n]));
    } else {
      assert items[..n] == items && items[n..] == [];
      StatusEnd(Fresh(items));
    }
  }

  lemma {:induction false} WaitsReadBack(items: seq<Item<C.Waiting>>, n: nat)
    requires KeysDistinct(items) && n <= |items|
    ensures Valid(Fresh(items[..n])) && |WaitRows(items[n..])| % 3 == 0
    ensures ParseWaits(WaitRows(items[n..]), Fresh(items[..n])) == Parsed(Fresh(items), Fine)
    decreases |items| - n
  {
    hide ParseWaits, Set, Valid, Fresh;
    FreshValid(items[..n]);
    if n < |items| {
      FreshGrows(items, n);
      WaitsReadBack(items, n + 1);
      assert items[n..][1..] == items[n + 1..];
      WaitRowParsed(items[n], WaitRows(items[n + 1..]), Fresh(items[..n]));
    } else {
      assert items[..n] == items && items[n..] == [];
      WaitsEnd(Fresh(items));
    }
  }

  lemma WaitsEnd(table: Slots<int, C.Waiting>)
    requires Valid(table)
    ensures ParseWaits([], table) == Parsed(table, Fine)
  {
  }

  lemma WaitRowParsed(e: Item<C.Waiting>, rest: seq<int>, table: Slots<int, C.Waiting>)
    requires Valid(table) && |rest| % 3 == 0
    ensures Valid(Set(table, e.key, e.value))
    ensures ParseWaits(WaitRow(e) + rest, table) == ParseWaits(rest, Set(table, e.key, e.value))
  {
    hide Set, Valid;
    SetValid(table, e.key, e.value);
    var list := WaitRow(e) + rest;
    assert list[3..] == rest && C.Waiting(list[1], list[2]) == e.value;
  }

  lemma {:induction false} PutsReadBack(items: seq<Item<C.Waiting>>, slots: seq<Slot>, n: nat)
    requires KeysDistinct(items) && n <= |items|
    requires forall i | 0 <= i < |items| :: Present(slots, items[i].value.unit)
    ensures Valid(Fresh(items[..n])) && |WaitRows(items[n..])| % 3 == 0
    ensures ParsePuts(WaitRows(items[n..]), slots, Fresh(items[..n])) == Parsed(Fresh(items), Fine)
    decreases |items| - n
  {
    hide ParsePuts, Set, Valid, Fresh;
    FreshValid(items[..n]);
    if n < |items| {
      FreshGrows(items, n);
      PutsReadBack(items, slots, n + 1);
      assert items[n..][1..] == items[n + 1..];
      PutRowParsed(items[n], WaitRows(items[n + 1..]), slots, Fresh(items[..n]));
    } else {
      assert items[..n] == items && items[n..] == [];
      PutsEnd(slots, Fresh(items));
    }
  }

  lemma PutsEnd(slots: seq<Slot>, table: Slots<int, C.Waiting>)
    requires Valid(table)
    ensures ParsePuts([], slots, table) == Parsed(table, Fine)
  {
  }

  lemma PutRowParsed(e: Item<C.Waiting>, rest: seq<int>, slots: seq<Slot>, table: Slots<int, C.Waiting>)
    requires Valid(table) && Present(slots, e.value.unit) && |rest| % 3 == 0
    ensures Valid(Set(table, e.key, e.value))
    ensures ParsePuts(WaitRow(e) + rest, slots, table) == ParsePuts(rest, slots, Set(table, e.key, e.value))
  {
    hide Set, Valid;
    SetValid(table, e.key, e.value);
    var list := WaitRow(e) + rest;
    assert list[3..] == rest && C.Waiting(list[1], list[2]) == e.value;
  }

  ghost predicate Ascending(s: seq<int>) {
    forall i, j | 0 <= i < j < |s| :: s[i] < s[j]
  }

  lemma {:induction false} InsertAppends(s: seq<int>, x: int)
    requires forall i | 0 <= i < |s| :: s[i] < x
    ensures Insert(s, x) == s + [x]
  {
    if s != [] {
      InsertAppends(s[1..], x);
    }
  }

  lemma {:induction false} InsertRestores(s: seq<int>, n: nat)
    requires Ascending(s) && n <= |s|
    ensures InsertAll(s[..n], s[n..]) == s
    decreases |s| - n
  {
    if n < |s| {
      InsertAppends(s[..n], s[n]);
      InsertRestores(s, n + 1);
      assert s[..n] + [s[n]] == s[..n + 1] && s[n..][1..] == s[n + 1..];
    } else {
      assert s[..n] == s;
    }
  }

  lemma {:induction false} UnitListed(slots: seq<Slot>, f: Flag, unit: int)
    ensures unit in UnitsWith(slots, f) <==> exists i | 0 <= i < |slots| ::
              slots[i].unit == unit && HasFlag(slots[i], f)
  {
    if slots != [] {
      UnitListed(slots[1..], f, unit);
      if exists i | 0 <= i < |slots| :: slots[i].unit == unit && HasFlag(slots[i], f) {
        var i :| 0 <= i < |slots| && slots[i].unit == unit && HasFlag(slots[i], f);
        if i > 0 {
          assert slots[1..][i - 1] == slots[i];
        }
      }
      if unit in UnitsWith(slots[1..], f) {
        var i :| 0 <= i < |slots[1..]| && slots[1..][i].unit == unit && HasFlag(slots[1..][i], f);
        assert slots[i + 1] == slots[1..][i];
      }
    }
  }

  ghost predicate UnitsDistinct(slots: seq<Slot>) {
    forall i, j | 0 <= i < j < |slots| :: slots[i].unit != slots[j].unit
  }

  lemma FlagListed(slots: seq<Slot>, f: Flag, i: nat)
    requires UnitsDistinct(slots) && i < |slots|
    ensures slots[i].unit in UnitsWith(slots, f) <==> HasFlag(slots[i], f)
  {
    UnitListed(slots, f, slots[i].unit);
  }

  // The same controller: one slot per unit, of the same kind, in the same
  // places.
  ghost predicate SameSlots(a: seq<Slot>, b: seq<Slot>) {
    |a| == |b| && forall i | 0 <= i < |a| :: a[i].unit == b[i].unit && a[i].printer == b[i].printer
  }

  lemma SlotsRestored(p: Pending, slots: seq<Slot>)
    requires UnitsDistinct(p.slots) && SameSlots(p.slots, slots)
    requires forall i | 0 <= i < |p.slots| && p.slots[i].printer ::
               !p.slots[i].internalRenderer && !p.slots[i].transferRenderer
    ensures RestoreSlots(slots, Capture(p)) == p.slots
  {
    hide Live, ReadRows, PairRows, StatusRows, WaitRows;
    forall i | 0 <= i < |slots|
      ensures RestoreSlot(slots[i], Capture(p)) == p.slots[i]
    {
      FlagListed(p.slots, ACTIVE, i);
      FlagListed(p.slots, CONFIGURED, i);
      FlagListed(p.slots, INTERNAL, i);
      FlagListed(p.slots, TRANSFER, i);
    }
  }

  // What the controller keeps of its own accord: valid tables, twelve status
  // bytes, requests only for slots it has, and no renderer on a printer.
  ghost predicate Kept(p: Pending) {
    && Valid(p.inputs) && Valid(p.staging) && Valid(p.status) && Valid(p.waits) && Valid(p.puts)
    && (forall i | 0 <= i < |p.inputs.entries| && p.inputs.entries[i].live ::
          Present(p.slots, p.inputs.entries[i].value.unit))
    && (forall i | 0 <= i < |p.puts.entries| && p.puts.entries[i].live ::
          Present(p.slots, p.puts.entries[i].value.unit))
    && (forall i | 0 <= i < |p.status.entries| && p.status.entries[i].live :: |p.status.entries[i].value.bytes| == 12)
    && Ascending(p.invites) && Ascending(p.activations) && Ascending(p.activated)
    && UnitsDistinct(p.slots)
    && forall i | 0 <= i < |p.slots| && p.slots[i].printer ::
         !p.slots[i].internalRenderer && !p.slots[i].transferRenderer
  }

  // The same pending work: equal keys, values and walking order throughout.
  ghost predicate SamePending(p: Pending, q: Pending) {
    && Live(q.inputs.entries) == Live(p.inputs.entries) && Live(q.staging.entries) == Live(p.staging.entries)
    && Live(q.status.entries) == Live(p.status.entries)
    && Live(q.waits.entries) == Live(p.waits.entries) && Live(q.puts.entries) == Live(p.puts.entries)
    && q.screenSaves == p.screenSaves && q.deferred == p.deferred
    && q.invites == p.invites && q.printerOutputs == p.printerOutputs
    && q.activations == p.activations && q.activated == p.activated && q.slots == p.slots
  }

  lemma ReadsRestored(p: Pending, slots: seq<Slot>)
    requires Kept(p) && SameSlots(p.slots, slots)
    ensures var items := Live(p.inputs.entries);
            ParseReads(ReadRows(items), slots, Clear()) == Parsed(Fresh(items), Fine)
                && Live(Fresh(items).entries) == items
  {
    hide Live;
    var items := Live(p.inputs.entries);
    LiveDistinct(p.inputs.entries);
    forall n | 0 <= n < |items|
      ensures Present(slots, items[n].value.unit)
    {
      LiveOccurs(p.inputs.entries, n);
      assert Present(p.slots, items[n].value.unit);
    }
    ReadsReadBack(items, slots, 0);
    FreshLives(items);
    assert items[0..] == items && Fresh(items[..0]) == Clear();
  }

  lemma PutsRestored(p: Pending, slots: seq<Slot>)
    requires Kept(p) && SameSlots(p.slots, slots)
    ensures var items := Live(p.puts.entries);
            && |WaitRows(items)| % 3 == 0
            && ParsePuts(WaitRows(items), slots, Clear()) == Parsed(Fresh(items), Fine)
               && Live(Fresh(items).entries) == items
  {
    hide Live;
    var items := Live(p.puts.entries);
    LiveDistinct(p.puts.entries);
    forall n | 0 <= n < |items|
      ensures Present(slots, items[n].value.unit)
    {
      LiveOccurs(p.puts.entries, n);
      assert Present(p.slots, items[n].value.unit);
    }
    PutsReadBack(items, slots, 0);
    FreshLives(items);
    assert items[0..] == items && Fresh(items[..0]) == Clear();
  }

  lemma StatusRestored(p: Pending)
    requires Kept(p)
    ensures var items := Live(p.status.entries);
            ParseStatus(StatusRows(items), Clear()) == Parsed(Fresh(items), Fine) && Live(Fresh(items).entries) == items
  {
    hide Live;
    var items := Live(p.status.entries);
    LiveDistinct(p.status.entries);
    forall n | 0 <= n < |items|
      ensures |items[n].value.bytes| == 12
    {
      LiveOccurs(p.status.entries, n);
    }
    StatusReadBack(items, 0);
    FreshLives(items);
    assert items[0..] == items && Fresh(items[..0]) == Clear();
  }

  lemma PairsRestored(p: Pending)
    requires Kept(p)
    ensures var items := Live(p.staging.entries);
            && |PairRows(items)| % 2 == 0
            && ParsePairs(PairRows(items), Clear()) == Parsed(Fresh(items), Fine) && Live(Fresh(items).entries) == items
  {
    hide Live;
    var items := Live(p.staging.entries);
    LiveDistinct(p.staging.entries);
    PairsReadBack(items, 0);
    FreshLives(items);
    assert items[0..] == items && Fresh(items[..0]) == Clear();
  }

  lemma WaitsRestored(p: Pending)
    requires Kept(p)
    ensures var items := Live(p.waits.entries);
            && |WaitRows(items)| % 3 == 0
            && ParseWaits(WaitRows(items), Clear()) == Parsed(Fresh(items), Fine) && Live(Fresh(items).entries) == items
  {
    hide Live;
    var items := Live(p.waits.entries);
    LiveDistinct(p.waits.entries);
    WaitsReadBack(items, 0);
    FreshLives(items);
    assert items[0..] == items && Fresh(items[..0]) == Clear();
  }

  // Restoring a capture on a controller with the same slots always succeeds,
  // and gives back the same pending work exactly when no screen save and no
  // deferred input was outstanding: those two are not in the checkpoint.
  lemma CheckpointRoundTrip(p: Pending, slots: seq<Slot>)
    requires Kept(p) && SameSlots(p.slots, slots)
    ensures Restore(slots, Capture(p)).failure == Fine
    ensures SamePending(p, Restore(slots, Capture(p)).pending) <==> p.screenSaves == [] && p.deferred == None
    ensures Capture(Restore(slots, Capture(p)).pending) == Capture(p)
  {
    hide Live, ReadRows, PairRows, StatusRows, WaitRows, ParseReads, ParsePairs, ParseStatus, ParseWaits, ParsePuts,
         Kept;
    ReadsRestored(p, slots);
    PairsRestored(p);
    StatusRestored(p);
    WaitsRestored(p);
    PutsRestored(p, slots);
    assert RestoreSlots(slots, Capture(p)) == p.slots && InsertAll([], p.invites) == p.invites
        && InsertAll([], p.activations) == p.activations && InsertAll([], p.activated) == p.activated by {
      KeptLists(p, slots);
    }
  }

  lemma KeptLists(p: Pending, slots: seq<Slot>)
    requires Kept(p) && SameSlots(p.slots, slots)
    ensures RestoreSlots(slots, Capture(p)) == p.slots && InsertAll([], p.invites) == p.invites
    ensures InsertAll([], p.activations) == p.activations && InsertAll([], p.activated) == p.activated
  {
    SlotsRestored(p, slots);
    InsertRestores(p.invites, 0);
    InsertRestores(p.activations, 0);
    InsertRestores(p.activated, 0);
    assert p.invites[0..] == p.invites && p.activations[0..] == p.activations && p.activated[0..] == p.activated;
    assert p.invites[..0] == [] && p.activations[..0] == [] && p.activated[..0] == [];
  }

  // ---- what a refused restore leaves behind -----------------------------------------

  // The first row of a list is there in full and would be taken.
  predicate TakesRead(list: seq<int>, slots: seq<Slot>) {
    |list| >= 8 && 0 <= list[7] <= |list| - 8 && Present(slots, list[1])
  }

  predicate TakesStatus(list: seq<int>) {
    |list| >= 15 && list[2] == 12
  }

  predicate TakesPut(list: seq<int>, slots: seq<Slot>) {
    |list| >= 3 && Present(slots, list[1])
  }

  // Nothing is taken before the list that is refused, nor from it.
  predicate NothingTaken(slots: seq<Slot>, c: Checkpoint) {
    if c.inputs != [] then !TakesRead(c.inputs, slots)
    else if |c.staging| % 2 != 0 then true
    else if c.staging != [] then false
    else if c.status != [] then !TakesStatus(c.status)
    else if |c.waits| % 3 != 0 then true
    else if c.waits != [] then false
    else |c.puts| % 3 != 0 || !TakesPut(c.puts, slots)
  }

  // Tables only grow while they are read.
  lemma SetGrows<V>(s: Slots<int, V>, key: int, value: V)
    requires Valid(s)
    ensures |s.entries| <= |Set(s, key, value).entries| && Set(s, key, value).entries != []
  {
    SetWrites(s, key, value);
  }

  lemma {:induction false} ReadsGrow(list: seq<int>, slots: seq<Slot>, table: Slots<int, C.PendingRead>)
    requires Valid(table)
    ensures |table.entries| <= |ParseReads(list, slots, table).table.entries|
    ensures TakesRead(list, slots) ==> ParseReads(list, slots, table).table.entries != []
    ensures !TakesRead(list, slots) ==> ParseReads(list, slots, table).table == table
    ensures !TakesRead(list, slots) && list != [] ==> ParseReads(list, slots, table).failure != Fine
    decreases |list|
  {
    hide Set, Valid, Present;
    if TakesRead(list, slots) {
      var n := list[7];
      var p := C.PendingRead(list[1], list[2], list[3] % 0x100, list[4], list[8..8 + n], list[5], list[6]);
      SetValid(table, list[0], p);
      SetGrows(table, list[0], p);
      ReadsGrow(list[8 + n..], slots, Set(table, list[0], p));
    }
  }

  lemma {:induction false} PairsGrow(list: seq<int>, table: Slots<int, int>)
    requires Valid(table) && |list| % 2 == 0
    ensures |table.entries| <= |ParsePairs(list, table).table.entries|
    ensures list != [] ==> ParsePairs(list, table).table.entries != []
    decreases |list|
  {
    hide Set, Valid;
    if list != [] {
      SetValid(table, list[0], list[1]);
      SetGrows(table, list[0], list[1]);
      PairsGrow(list[2..], Set(table, list[0], list[1]));
    }
  }

  lemma {:induction false} StatusGrows(list: seq<int>, table: Slots<int, C.Status>)
    requires Valid(table)
    ensures |table.entries| <= |ParseStatus(list, table).table.entries|
    ensures TakesStatus(list) ==> ParseStatus(list, table).table.entries != []
    ensures !TakesStatus(list) ==> ParseStatus(list, table).table == table
    ensures !TakesStatus(list) && list != [] ==> ParseStatus(list, table).failure != Fine
    decreases |list|
  {
    hide Set, Valid;
    if TakesStatus(list) {
      var s := C.Status(list[1], AsBytes(list[3..15]));
      SetValid(table, list[0], s);
      SetGrows(table, list[0], s);
      StatusGrows(list[15..], Set(table, list[0], s));
    }
  }

  lemma {:induction false} WaitsGrow(list: seq<int>, table: Slots<int, C.Waiting>)
    requires Valid(table) && |list| % 3 == 0
    ensures |table.entries| <= |ParseWaits(list, table).table.entries|
    ensures list != [] ==> ParseWaits(list, table).table.entries != []
    decreases |list|
  {
    hide Set, Valid;
    if list != [] {
      SetValid(table, list[0], C.Waiting(list[1], list[2]));
      SetGrows(table, list[0], C.Waiting(list[1], list[2]));
      WaitsGrow(list[3..], Set(table, list[0], C.Waiting(list[1], list[2])));
    }
  }

  lemma {:induction false} PutsGrow(list: seq<int>, slots: seq<Slot>, table: Slots<int, C.Waiting>)
    requires Valid(table) && |list| % 3 == 0
    ensures |table.entries| <= |ParsePuts(list, slots, table).table.entries|
    ensures TakesPut(list, slots) ==> ParsePuts(list, slots, table).table.entries != []
    ensures !TakesPut(list, slots) ==> ParsePuts(list, slots, table).table == table
    decreases |list|
  {
    hide Set, Valid, Present;
    if TakesPut(list, slots) {
      SetValid(table, list[0], C.Waiting(list[1], list[2]));
      SetGrows(table, list[0], C.Waiting(list[1], list[2]));
      PutsGrow(list[3..], slots, Set(table, list[0], C.Waiting(list[1], list[2])));
    }
  }

  // A refused restore leaves the reset state exactly when no row was taken
  // before the refusal: every list before the refused one was empty, and the
  // refused one fails at its first row.
  lemma RefusalResetsIff(slots: seq<Slot>, c: Checkpoint)
    requires Restore(slots, c).failure != Fine
    ensures Restore(slots, c).pending == Reset(slots) <==> NothingTaken(slots, c)
  {
    hide ParseReads, ParsePairs, ParseStatus, ParseWaits, ParsePuts, TakesRead, TakesStatus, TakesPut;
    ReadsGrow(c.inputs, slots, Clear());
    if c.inputs == [] {
      ReadsEnd(slots, Clear());
    }
    StatusGrows(c.status, Clear());
    if c.status == [] {
      StatusEnd(Clear());
    }
    if |c.staging| % 2 == 0 {
      PairsGrow(c.staging, Clear());
    }
    if |c.waits| % 3 == 0 {
      WaitsGrow(c.waits, Clear());
    }
    if |c.puts| % 3 == 0 {
      PutsGrow(c.puts, slots, Clear());
    }
    EmptyTakesNothing(slots);
  }

  lemma EmptyTakesNothing(slots: seq<Slot>)
    ensures !TakesRead([], slots) && !TakesStatus([]) && !TakesPut([], slots)
    ensures ParsePairs([], Clear()).table == Clear() && ParseWaits([], Clear()).table == Clear()
  {
  }

  // So a refusal can leave work behind: every read of a good capture stays
  // when its staging list is cut to an odd length.
  lemma RefusalKeepsReads(p: Pending, slots: seq<Slot>, odd: seq<int>)
    requires Kept(p) && SameSlots(p.slots, slots) && |odd| % 2 == 1
    ensures var r := Restore(slots, Capture(p).(staging := odd));
            r.failure == InvalidStaging && Live(r.pending.inputs.entries) == Live(p.inputs.entries)
  {
    hide Live, ReadRows, PairRows, StatusRows, WaitRows, ParseReads, Kept;
    ReadsRestored(p, slots);
  }

  lemma LiveStep<V>(entries: seq<Entry<int, V>>, i: nat)
    requires i < |entries|
    ensures var e := entries[i];
            Live(entries[i..]) == (if e.live then [Item(e.key, e.value)] else []) + Live(entries[i + 1..])
  {
    assert entries[i..][1..] == entries[i + 1..];
  }

  lemma LiveEnd<V>(entries: seq<Entry<int, V>>)
    ensures Live(entries[|entries|..]) == []
  {
  }

  // The tables in place: written out by walking them, read back by advancing
  // through the flat lists.
  class PendingIo {
    var inputs: Slots<int, C.PendingRead>
    var staging: Slots<int, int>
    var status: Slots<int, C.Status>
    var waits: Slots<int, C.Waiting>
    var puts: Slots<int, C.Waiting>
    var screenSaves: seq<int>
    var deferred: Option<C.Deferred>
    var invites: seq<int>
    var printerOutputs: seq<int>
    var activations: seq<int>
    var activated: seq<int>
    var slots: seq<Slot>

    ghost function View(): Pending
      reads this
    {
      Pending(inputs, staging, status, waits, puts, screenSaves, deferred, invites, printerOutputs, activations,
              activated, slots)
    }

    constructor (slots: seq<Slot>)
      ensures View() == Reset(slots)
    {
      inputs, staging, status, waits, puts := Clear(), Clear(), Clear(), Clear(), Clear();
      screenSaves, deferred, invites, printerOutputs := [], None, [], [];
      activations, activated := [], [];
      this.slots := slots;
    }

    method CaptureReads() returns (list: seq<int>)
      ensures list == ReadRows(Live(inputs.entries))
    {
      list := [];
      for i := 0 to |inputs.entries|
        invariant list + ReadRows(Live(inputs.entries[i..])) == ReadRows(Live(inputs.entries))
      {
        LiveStep(inputs.entries, i);
        var e := inputs.entries[i];
        if e.live {
          var row := ReadRow(Item(e.key, e.value));
          assert Live(inputs.entries[i..])[1..] == Live(inputs.entries[i + 1..]);
          list := list + row;
        } else {
          assert Live(inputs.entries[i..]) == Live(inputs.entries[i + 1..]);
        }
      }
      LiveEnd(inputs.entries);
    }

    method CaptureStaging() returns (list: seq<int>)
      ensures list == PairRows(Live(staging.entries))
    {
      list := [];
      for i := 0 to |staging.entries|
        invariant list + PairRows(Live(staging.entries[i..])) == PairRows(Live(staging.entries))
      {
        LiveStep(staging.entries, i);
        var e := staging.entries[i];
        if e.live {
          assert Live(staging.entries[i..])[1..] == Live(staging.entries[i + 1..]);
          list := list + [e.key, e.value];
        } else {
          assert Live(staging.entries[i..]) == Live(staging.entries[i + 1..]);
        }
      }
      LiveEnd(staging.entries);
    }

    method CaptureWaits(table: Slots<int, C.Waiting>) returns (list: seq<int>)
      ensures list == WaitRows(Live(table.entries))
    {
      list := [];
      for i := 0 to |table.entries|
        invariant list + WaitRows(Live(table.entries[i..])) == WaitRows(Live(table.entries))
      {
        LiveStep(table.entries, i);
        var e := table.entries[i];
        if e.live {
          assert Live(table.entries[i..])[1..] == Live(table.entries[i + 1..]);
          list := list + [e.key, e.value.unit, e.value.block];
        } else {
          assert Live(table.entries[i..]) == Live(table.entries[i + 1..]);
        }
      }
      LiveEnd(table.entries);
    }

    method CaptureUnits(f: Flag) returns (units: seq<int>)
      ensures units == UnitsWith(slots, f)
    {
      units := [];
      for i := 0 to |slots|
        invariant units + UnitsWith(slots[i..], f) == UnitsWith(slots, f)
      {
        assert slots[i..][1..] == slots[i + 1..];
        if HasFlag(slots[i], f) {
          units := units + [slots[i].unit];
        }
      }
    }

    method CaptureCheckpoint() returns (c: Checkpoint)
      ensures c == Capture(View())
    {
      hide ReadRows, PairRows, StatusRows, WaitRows, Live, UnitsWith;
      var reads_ := CaptureReads();
      var pairs := CaptureStaging();
      var statuses := CaptureStatus();
      var c1 := CaptureWaits(waits);
      var invited := CaptureWaits(puts);
      var active := CaptureUnits(ACTIVE);
      var configured := CaptureUnits(CONFIGURED);
      var internal := CaptureUnits(INTERNAL);
      var transfer := CaptureUnits(TRANSFER);
      c := Checkpoint(reads_, pairs, statuses, c1, invited, invites, printerOutputs, activations, activated,
                      active, configured, internal, transfer);
    }

    method CaptureStatus() returns (list: seq<int>)
      ensures list == StatusRows(Live(status.entries))
    {
      list := [];
      for i := 0 to |status.entries|
        invariant list + StatusRows(Live(status.entries[i..])) == StatusRows(Live(status.entries))
      {
        LiveStep(status.entries, i);
        var e := status.entries[i];
        if e.live {
          var row := StatusRow(Item(e.key, e.value));
          assert Live(status.entries[i..])[1..] == Live(status.entries[i + 1..]);
          list := list + row;
        } else {
          assert Live(status.entries[i..]) == Live(status.entries[i + 1..]);
        }
      }
      LiveEnd(status.entries);
    }

    method RestoreReads(list: seq<int>) returns (failure: Failure)
      requires inputs == Clear()
      modifies this`inputs
      ensures Parsed(inputs, failure) == ParseReads(list, slots, Clear())
    {
      hide Set, Present, ParseReads, Valid;
      EmptyValid<int, C.PendingRead>();
      var i := 0;
      assert list[0..] == list;
      while i < |list|
        invariant i <= |list| && Valid(inputs)
        invariant ParseReads(list[i..], slots, inputs) == ParseReads(list, slots, Clear())
      {
        var rest := list[i..];
        ReadStep(rest, slots, inputs);
        if |rest| < 8 {
          return TruncatedRead;
        }
        var count := rest[7];
        if count < 0 || 8 + count > |rest| {
          return InvalidBuffer;
        }
        var found := FindSlot(rest[1]);
        if !found {
          return AbsentReadUnit;
        }
        var p := C.PendingRead(rest[1], rest[2], rest[3] % 0x100, rest[4], rest[8..8 + count], rest[5], rest[6]);
        SetValid(inputs, rest[0], p);
        inputs := Set(inputs, rest[0], p);
        assert rest[8 + count..] == list[i + 8 + count..];
        i := i + 8 + count;
      }
      ReadStep(list[i..], slots, inputs);
      return Fine;
    }

    method FindSlot(unit: int) returns (found: bool)
      ensures found == Present(slots, unit)
    {
      for i := 0 to |slots|
        invariant forall k | 0 <= k < i :: slots[k].unit != unit
      {
        if slots[i].unit == unit {
          return true;
        }
      }
      return false;
    }

    method RestoreStaging(list: seq<int>)
      requires staging == Clear() && |list| % 2 == 0
      modifies this`staging
      ensures staging == ParsePairs(list, Clear()).table
    {
      hide Set, Present;
      var i := 0;
      while i < |list|
        invariant i <= |list| && i % 2 == 0 && Valid(staging)
        invariant ParsePairs(list[i..], staging) == ParsePairs(list, Clear())
      {
        SetValid(staging, list[i], list[i + 1]);
        staging := Set(staging, list[i], list[i + 1]);
        assert list[i..][2..] == list[i + 2..];
        i := i + 2;
      }
    }

    method RestoreStatus(list: seq<int>) returns (failure: Failure)
      requires status == Clear()
      modifies this`status
      ensures Parsed(status, failure) == ParseStatus(list, Clear())
    {
      hide Set, Present;
      var i := 0;
      while i < |list|
        invariant i <= |list| && Valid(status)
        invariant ParseStatus(list[i..], status) == ParseStatus(list, Clear())
      {
        var rest := list[i..];
        if |rest| < 3 || rest[2] != 12 || |rest| < 15 {
          return InvalidStatus;
        }
        var s := C.Status(rest[1], AsBytes(rest[3..15]));
        SetValid(status, rest[0], s);
        status := Set(status, rest[0], s);
        assert rest[15..] == list[i + 15..];
        i := i + 15;
      }
      return Fine;
    }

    method RestoreWaits(list: seq<int>)
      requires waits == Clear() && |list| % 3 == 0
      modifies this`waits
      ensures waits == ParseWaits(list, Clear()).table
    {
      hide Set, Present;
      var i := 0;
      while i < |list|
        invariant i <= |list| && i % 3 == 0 && Valid(waits)
        invariant ParseWaits(list[i..], waits) == ParseWaits(list, Clear())
      {
        var w := C.Waiting(list[i + 1], list[i + 2]);
        SetValid(waits, list[i], w);
        waits := Set(waits, list[i], w);
        assert list[i..][3..] == list[i + 3..];
        i := i + 3;
      }
    }

    method RestorePuts(list: seq<int>) returns (failure: Failure)
      requires puts == Clear() && |list| % 3 == 0
      modifies this`puts
      ensures Parsed(puts, failure) == ParsePuts(list, slots, Clear())
    {
      hide Set, Present;
      var i := 0;
      while i < |list|
        invariant i <= |list| && i % 3 == 0 && Valid(puts)
        invariant ParsePuts(list[i..], slots, puts) == ParsePuts(list, slots, Clear())
      {
        var found := FindSlot(list[i + 1]);
        if !found {
          return AbsentPutUnit;
        }
        var w := C.Waiting(list[i + 1], list[i + 2]);
        SetValid(puts, list[i], w);
        puts := Set(puts, list[i], w);
        assert list[i..][3..] == list[i + 3..];
        i := i + 3;
      }
      return Fine;
    }

    method ResetPendingIo()
      modifies this
      ensures View() == Reset(old(slots))
    {
      inputs, staging, status, waits, puts := Clear(), Clear(), Clear(), Clear(), Clear();
      screenSaves, deferred, invites, printerOutputs := [], None, [], [];
      activations, activated := [], [];
    }

    method RestoreCheckpoint(c: Checkpoint) returns (failure: Failure)
      modifies this
      ensures Restored(View(), failure) == Restore(old(slots), c)
    {
      hide ParseReads, ParsePairs, ParseStatus, ParseWaits, ParsePuts, InsertAll, RestoreSlots, Valid;
      ResetPendingIo();
      failure := RestoreReads(c.inputs);
      if failure != Fine {
        return;
      }
      if |c.staging| % 2 != 0 {
        return InvalidStaging;
      }
      RestoreStaging(c.staging);
      failure := RestoreStatus(c.status);
      if failure != Fine {
        return;
      }
      if |c.waits| % 3 != 0 {
        return InvalidWait;
      }
      RestoreWaits(c.waits);
      if |c.puts| % 3 != 0 {
        return InvalidPut;
      }
      failure := RestorePuts(c.puts);
      if failure != Fine {
        return;
      }
      invites, printerOutputs := InsertAll([], c.invites), c.printerOutputs;
      activations, activated := InsertAll([], c.activations), InsertAll([], c.activated);
      slots := RestoreSlots(slots, c);
    }
  }
}
