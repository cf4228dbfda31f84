// Reading a volume back: the search finds the wanted data set, command 22
// delivers its blocks one by one, and the trailer check closes it.
module TapeReadBack {
  import opened Bytes
  import opened GuestStorage
  import opened TapeMedium
  import opened TapeCommands
  import opened TapeSessions

  // ---- where a data set lies on the volume ------------------------------------

  ghost function Start(sets: seq<DataSet>, k: nat): nat
    requires AllStandard(sets) && k <= |sets|
  {
    2 + |EncodeAll(sets[..k])|
  }

  lemma {:induction false} EncodeAllPrefix(sets: seq<DataSet>, k: nat)
    requires AllStandard(sets) && k <= |sets|
    ensures EncodeAll(sets[..k]) <= EncodeAll(sets)
    decreases |sets|
  {
    hide Encode;
    var n := |sets|;
    if k == n {
      assert sets[..k] == sets;
    } else {
      EncodeAllPrefix(sets[..n - 1], k);
      assert sets[..n - 1][..k] == sets[..k];
    }
  }

  lemma Located(vol: seq<byte>, sets: seq<DataSet>, k: nat)
    requires AllStandard(sets) && k < |sets|
    ensures Start(sets, k + 1) == Start(sets, k) + |Encode(sets[k])| < |Volume(vol, sets)|
    ensures Volume(vol, sets)[Start(sets, k)..Start(sets, k + 1)] == Encode(sets[k])
  {
    hide Encode;
    EncodeAllPrefix(sets, k + 1);
    assert sets[..k + 1][..k] == sets[..k];
    var all, upTo := EncodeAll(sets), EncodeAll(sets[..k + 1]);
    assert all[..|upTo|] == upTo == EncodeAll(sets[..k]) + Encode(sets[k]);
    assert Volume(vol, sets)[2..2 + |upTo|] == upTo;
  }

  // The pieces of one data set, by position.
  ghost predicate Lies(items: seq<Item>, s: nat, ds: DataSet)
    requires Standard(ds)
  {
    var n := |ds.blocks|;
    && s + n + 11 <= |items|
    && (forall j | s <= j < s + 4 :: items[j] == Good(Label(ds.labels, j - s)))
    && items[s + 4] == Mark
    && (forall j | s + 5 <= j < s + n + 5 :: items[j] == Good(ds.blocks[j - s - 5]))
    && items[s + n + 5] == Mark
    && (forall j | s + n + 6 <= j < s + n + 10 :: items[j] == Good(Label(Trailers(ds.labels), j - s - n - 6)))
    && items[s + n + 10] == Mark
  }

  lemma EncodedLies(ds: DataSet)
    requires Standard(ds)
    ensures Lies(Encode(ds), 0, ds)
  {
    hide Trailers, Label;
    var e, n := Encode(ds), |ds.blocks|;
    assert e[..4] == LabelItems(ds.labels);
    assert e[n + 6..n + 10] == LabelItems(Trailers(ds.labels));
    forall j | 0 <= j < 4
      ensures e[j] == Good(Label(ds.labels, j))
    {
      assert e[j] == e[..4][j];
    }
    forall j | n + 6 <= j < n + 10
      ensures e[j] == Good(Label(Trailers(ds.labels), j - n - 6))
    {
      assert e[j] == e[n + 6..n + 10][j - n - 6];
    }
  }

  lemma LiesWithin(items: seq<Item>, s: nat, e: seq<Item>, ds: DataSet)
    requires Standard(ds) && Lies(e, 0, ds) && s + |e| <= |items| && items[s..s + |e|] == e
    ensures Lies(items, s, ds)
  {
    hide Trailers, Label, Standard;
    forall j | s <= j < s + |e|
      ensures items[j] == e[j - s]
    {
      assert items[s..s + |e|][j - s] == items[j];
    }
  }

  lemma SetLies(vol: seq<byte>, sets: seq<DataSet>, k: nat)
    requires AllStandard(sets) && k < |sets|
    ensures Lies(Volume(vol, sets), Start(sets, k), sets[k])
    ensures Start(sets, k + 1) == Start(sets, k) + |sets[k].blocks| + 11
  {
    hide Trailers, Label, EncodeAll, Encode, Start, Lies, Volume;
    Located(vol, sets, k);
    EncodedLies(sets[k]);
    LiesWithin(Volume(vol, sets), Start(sets, k), Encode(sets[k]), sets[k]);
  }

  // ---- find ---------------------------------------------------------------------

  ghost predicate Unnamed(item: Item, wanted: seq<byte>)
    requires |wanted| == 17
  {
    item == Mark || (!item.error && !NamesDataSet(item.bytes, wanted))
  }

  // Neither the data set's own HDR1 nor a data block that imitates one.
  ghost predicate Elsewhere(ds: DataSet, wanted: seq<byte>)
    requires Standard(ds) && |wanted| == 17
  {
    && !NamesDataSet(Label(ds.labels, 0), wanted)
    && forall i | 0 <= i < |ds.blocks| :: !NamesDataSet(ds.blocks[i], wanted)
  }

  lemma LabelsUnnamed(labels: seq<byte>, wanted: seq<byte>)
    requires StandardHeaders(labels) && |wanted| == 17
    ensures forall i | 0 < i < 4 :: !NamesDataSet(Label(labels, i), wanted)
    ensures forall i | 0 <= i < 4 :: !NamesDataSet(Label(Trailers(labels), i), wanted)
  {
    forall i | 0 < i < 4
      ensures !NamesDataSet(Label(labels, i), wanted)
    {
      assert HasId(Label(labels, i), HeaderId(i));
      assert Label(labels, i)[..4] == HeaderId(i);
      assert HeaderId(i)[0] != HDR1[0] || HeaderId(i)[3] != HDR1[3];
    }
    forall i | 0 <= i < 4
      ensures !NamesDataSet(Label(Trailers(labels), i), wanted)
    {
      TrailerStarts(labels, i);
      assert Label(Trailers(labels), i)[..4][0] != HDR1[0];
    }
  }

  lemma TrailerStarts(labels: seq<byte>, i: nat)
    requires |labels| == 320 && i < 4
    ensures Label(Trailers(labels), i)[0] == if i < 2 then 0xC5 else 0xE4
  {
    assert Label(Trailers(labels), i)[0] == Trailers(labels)[i * 80];
  }

  lemma {:induction false} BeforeUnnamed(vol: seq<byte>, sets: seq<DataSet>, k: nat, wanted: seq<byte>)
    requires VolumeLabel(vol) && AllStandard(sets) && k <= |sets| && |wanted| == 17
    requires forall j | 0 <= j < k :: Elsewhere(sets[j], wanted)
    ensures Start(sets, k) <= |Volume(vol, sets)|
    ensures forall i | 0 <= i < Start(sets, k) :: Unnamed(Volume(vol, sets)[i], wanted)
  {
    var items := Volume(vol, sets);
    if k == 0 {
      assert vol[..4] == VOL1 && VOL1[0] != HDR1[0];
      assert EncodeAll(sets[..0]) == [];
    } else {
      BeforeUnnamed(vol, sets, k - 1, wanted);
      SetLies(vol, sets, k - 1);
      LyingUnnamed(items, Start(sets, k - 1), sets[k - 1], wanted);
    }
  }

  lemma LyingUnnamed(items: seq<Item>, s: nat, ds: DataSet, wanted: seq<byte>)
    requires Standard(ds) && |wanted| == 17 && Elsewhere(ds, wanted) && Lies(items, s, ds)
    ensures forall i | s <= i < s + |ds.blocks| + 11 :: Unnamed(items[i], wanted)
  {
    LabelsUnnamed(ds.labels, wanted);
    hide Trailers, Label, NamesDataSet;
  }

  lemma {:induction false} SearchSkips(d: Drive, wanted: seq<byte>, n: nat) returns (last: seq<byte>)
    requires d.tape.Valid() && d.tape.loaded && |wanted| == 17
    requires d.tape.cursor <= n <= |d.tape.items|
    requires forall i | d.tape.cursor <= i < n :: Unnamed(d.tape.items[i], wanted)
    ensures SearchDataSet(d, wanted, false, [])
         == SearchDataSet(d.(tape := d.tape.(cursor := n), lastRead := last), wanted, false, [])
    decreases n - d.tape.cursor
  {
    if d.tape.cursor == n {
      last := d.lastRead;
    } else {
      assert Unnamed(d.tape.items[d.tape.cursor], wanted);
      var b := NextBlock(d.tape);
      if b.result == Ok {
        last := SearchSkips(d.(tape := b.tape, lastRead := b.data), wanted, n);
      } else {
        last := SearchSkips(WithTape(d, b.tape), wanted, n);
      }
    }
  }

  // From a matched HDR1 the rest of the label file is gathered.
  lemma SearchGathers(d: Drive, wanted: seq<byte>, labels: seq<byte>)
    requires d.tape.Valid() && d.tape.loaded && |wanted| == 17 && |labels| == 320
    requires d.tape.cursor + 5 <= |d.tape.items|
    requires forall j | d.tape.cursor <= j < d.tape.cursor + 4 ::
               d.tape.items[j] == Good(Label(labels, j - d.tape.cursor))
    requires d.tape.items[d.tape.cursor + 4] == Mark
    requires NamesDataSet(Label(labels, 0), wanted)
    ensures SearchDataSet(d, wanted, false, [])
         == Search(true, labels, TapeMark,
                   d.(tape := d.tape.(cursor := d.tape.cursor + 5), lastRead := Label(labels, 3)))
  {
    hide NamesDataSet, Label;
    var c, items := d.tape.cursor, d.tape.items;
    assert items[c] == Good(Label(labels, 0)) && items[c + 1] == Good(Label(labels, 1));
    assert items[c + 2] == Good(Label(labels, 2)) && items[c + 3] == Good(Label(labels, 3));
    var d1 := d.(tape := d.tape.(cursor := c + 1), lastRead := Label(labels, 0));
    var d2 := d.(tape := d.tape.(cursor := c + 2), lastRead := Label(labels, 1));
    var d3 := d.(tape := d.tape.(cursor := c + 3), lastRead := Label(labels, 2));
    var d4 := d.(tape := d.tape.(cursor := c + 4), lastRead := Label(labels, 3));
    var l1 := [] + Label(labels, 0);
    var l2 := l1 + Label(labels, 1);
    var l3 := l2 + Label(labels, 2);
    var l4 := l3 + Label(labels, 3);
    assert SearchDataSet(d, wanted, false, []) == SearchDataSet(d1, wanted, true, l1);
    assert SearchDataSet(d1, wanted, true, l1) == SearchDataSet(d2, wanted, true, l2);
    assert SearchDataSet(d2, wanted, true, l2) == SearchDataSet(d3, wanted, true, l3);
    assert SearchDataSet(d3, wanted, true, l3) == SearchDataSet(d4, wanted, true, l4);
    FourLabels(labels);
  }

  lemma FourLabels(labels: seq<byte>)
    requires |labels| == 320
    ensures [] + Label(labels, 0) + Label(labels, 1) + Label(labels, 2) + Label(labels, 3) == labels
  {
  }

  // The 17-byte identifier command 16 compares with HDR1.
  function Identifier(ds: DataSet): (r: seq<byte>)
    requires |ds.labels| == 320
    ensures |r| == 17
  {
    ds.labels[4..21]
  }

  lemma OwnHeaderNames(ds: DataSet)
    requires Standard(ds)
    ensures NamesDataSet(Label(ds.labels, 0), Identifier(ds))
  {
    assert HasId(Label(ds.labels, 0), HeaderId(0));
    assert Label(ds.labels, 0)[4..21] == ds.labels[4..21];
  }

  // Searching a volume from load point finds the first data set so named and
  // leaves the head on its first data block.
  lemma SearchFinds(d: Drive, vol: seq<byte>, sets: seq<DataSet>, k: nat)
    requires d.tape.Valid() && d.tape.loaded && d.tape.cursor == 0
    requires VolumeLabel(vol) && AllStandard(sets) && d.tape.items == Volume(vol, sets) && k < |sets|
    requires forall j | 0 <= j < k :: Elsewhere(sets[j], Identifier(sets[k]))
    ensures SearchDataSet(d, Identifier(sets[k]), false, [])
         == Search(true, sets[k].labels, TapeMark,
                   d.(tape := d.tape.(cursor := Start(sets, k) + 5), lastRead := Label(sets[k].labels, 3)))
  {
    hide NamesDataSet, SearchDataSet, Label, Trailers, Volume, EncodeAll, Start, Unnamed, Lies, Elsewhere;
    OwnHeaderNames(sets[k]);
    BeforeUnnamed(vol, sets, k, Identifier(sets[k]));
    SetLies(vol, sets, k);
    SearchFindsAt(d, Identifier(sets[k]), Start(sets, k), sets[k]);
  }

  lemma SearchFindsAt(d: Drive, wanted: seq<byte>, s: nat, ds: DataSet)
    requires d.tape.Valid() && d.tape.loaded && d.tape.cursor == 0 && s <= |d.tape.items| && |wanted| == 17
    requires forall i | 0 <= i < s :: Unnamed(d.tape.items[i], wanted)
    requires Standard(ds) && Lies(d.tape.items, s, ds) && NamesDataSet(Label(ds.labels, 0), wanted)
    ensures SearchDataSet(d, wanted, false, [])
         == Search(true, ds.labels, TapeMark, d.(tape := d.tape.(cursor := s + 5), lastRead := Label(ds.labels, 3)))
  {
    hide NamesDataSet, SearchDataSet, Label, Trailers, Unnamed, HasId;
    var last := SearchSkips(d, wanted, s);
    SearchGathers(d.(tape := d.tape.(cursor := s), lastRead := last), wanted, ds.labels);
  }

  // ---- the trailer check ----------------------------------------------------------

  lemma {:induction false} TrailersPass(d: Drive, labels: seq<byte>, first: nat, record: nat)
    requires d.tape.Valid() && d.tape.loaded && |labels| == 320 && record < 4
    requires d.tape.cursor == first + record && first + 4 <= |d.tape.items|
    requires forall j | first <= j < first + 4 :: d.tape.items[j] == Good(Label(Trailers(labels), j - first))
    ensures ReadTrailers(d, Trailers(labels), record)
         == Proceed(d.(tape := d.tape.(cursor := first + 4), lastRead := Label(Trailers(labels), 3)))
    decreases 4 - record
  {
    hide Trailers;
    var actual := Label(Trailers(labels), record);
    assert d.tape.items[first + record] == Good(actual);
    assert TrailerMatches(Trailers(labels), record, actual);
    var next := d.(tape := d.tape.(cursor := first + record + 1), lastRead := actual);
    if record < 3 {
      TrailersPass(next, labels, first, record + 1);
    }
  }

  // ---- what lands in guest storage ---------------------------------------------

  ghost function BufferAddresses(c: Call, n: nat): seq<int>
    requires c.Valid() && Usable(c.guest, Field(c), n)
  {
    GuestAddresses(c.guest, Field(c), n).value
  }

  // A buffer a record can be delivered to: mapped, in storage, not aliased and
  // clear of the request block itself.
  ghost predicate Receives(c: Call, n: nat) {
    && c.Valid() && Usable(c.guest, Field(c), n)
    && Distinct(BufferAddresses(c, n))
    && forall i | 0 <= i < n :: !(c.iob <= BufferAddresses(c, n)[i] < c.iob + 0x22)
  }

  // The guest's view afterwards: the record in its buffer, its length in the
  // request block, and no other byte outside the block touched.
  ghost predicate Delivered(c: Call, g: Guest, data: seq<byte>)
    requires Receives(c, |data|)
  {
    && |g.mem| == |c.guest.mem|
    && Gather(g.mem, BufferAddresses(c, |data|)) == data
    && HalfAt(g, c.iob + OFF_RETURNED_LENGTH) == |data|
    && forall x | 0 <= x < |g.mem| && Untouched(BufferAddresses(c, |data|), x) && !(c.iob <= x < c.iob + 0x22) ::
         g.mem[x] == c.guest.mem[x]
  }

  // Storage after a record, its length and a completion have been posted.
  ghost function Landed(c: Call, data: seq<byte>, code: nat): Guest
    requires c.Valid() && |data| < 0x1_0000
  {
    Complete(WriteHalf(WriteRange(c.guest, Field(c), data).guest, c.iob + OFF_RETURNED_LENGTH, |data|), c.iob, code)
  }

  lemma DeliveredAfter(c: Call, data: seq<byte>, code: nat)
    requires Receives(c, |data|) && |data| < 0x1_0000 && code < 0x10
    ensures WriteRange(c.guest, Field(c), data).ok && Delivered(c, Landed(c, data, code), data)
  {
    hide WriteRange, Delivered, PokeAll, GuestAddresses;
    UsableWrite(c.guest, Field(c), data);
    var w := WriteRange(c.guest, Field(c), data);
    BlockOnly(w.guest, c.iob, |data|, code);
    hide Complete, WriteHalf;
    DeliveredByPoke(c, data, w.guest.mem, Landed(c, data, code));
  }

  lemma DeliveredByPoke(c: Call, data: seq<byte>, mem: seq<byte>, g: Guest)
    requires Receives(c, |data|) && |g.mem| == |mem| == |c.guest.mem|
    requires mem == PokeAll(c.guest.mem, BufferAddresses(c, |data|), data)
    requires HalfAt(g, c.iob + OFF_RETURNED_LENGTH) == |data|
    requires forall x | 0 <= x < |mem| && !(c.iob <= x < c.iob + 0x22) :: g.mem[x] == mem[x]
    ensures Delivered(c, g, data)
  {
    hide PokeAll, HalfAt, Gather;
    PokeSurvives(c.guest.mem, BufferAddresses(c, |data|), data, g.mem, c.iob, c.iob + 0x22);
  }

  // A record stored clear of a window is still there after changes inside it.
  lemma PokeSurvives(before: seq<byte>, addresses: seq<int>, data: seq<byte>, after: seq<byte>, lo: int, hi: int)
    requires |addresses| == |data| && Inside(|before|, addresses) && Distinct(addresses) && |after| == |before|
    requires forall i | 0 <= i < |addresses| :: !(lo <= addresses[i] < hi)
    requires forall x | 0 <= x < |after| && !(lo <= x < hi) :: after[x] == PokeAll(before, addresses, data)[x]
    ensures Gather(after, addresses) == data
    ensures forall x | 0 <= x < |after| && Untouched(addresses, x) && !(lo <= x < hi) :: after[x] == before[x]
  {
    DistinctReadBack(before, addresses, data);
    assert Gather(after, addresses) == Gather(PokeAll(before, addresses, data), addresses);
  }

  // Posting a length and a completion stays inside the request block.
  lemma BlockOnly(g: Guest, iob: int, n: halfword, code: nat)
    requires InRange(|g.mem|, iob, 0x22)
    ensures var r := Complete(WriteHalf(g, iob + OFF_RETURNED_LENGTH, n), iob, code);
              && |r.mem| == |g.mem| && r.faulted == g.faulted
              && HalfAt(r, iob + OFF_RETURNED_LENGTH) == n
              && forall x | 0 <= x < |g.mem| && !(iob <= x < iob + 0x22) :: r.mem[x] == g.mem[x]
  {
  }

  lemma UsablePrefix(g: Guest, field: addr24, m: nat, n: nat)
    requires m <= n && Usable(g, field, n)
    ensures Usable(g, field, m)
    ensures GuestAddresses(g, field, m).value == GuestAddresses(g, field, n).value[..m]
  {
    var a := GuestAddresses(g, field, n).value;
    if field >= TRANSLATED_BIT {
      assert AllTranslate(g.atr, TASK_GROUP_0, field % 0x1_0000, m);
      var b := GuestAddresses(g, field, m).value;
      forall i | 0 <= i < m
        ensures b[i] == a[i]
      {
        assert ByteAddress(g.atr, TASK_GROUP_0, field % 0x1_0000, i) == Some(a[i]);
      }
    }
  }

  ghost predicate Holds(d: Drive, vol: seq<byte>, sets: seq<DataSet>) {
    && d.tape.Valid() && d.tape.loaded
    && VolumeLabel(vol) && AllStandard(sets) && d.tape.items == Volume(vol, sets)
  }

  // A find for data set k that no earlier label or data block can shadow.
  ghost predicate Seeks(c: Call, sets: seq<DataSet>, k: nat)
    requires AllStandard(sets)
  {
    && k < |sets|
    && (forall j | 0 <= j < k :: Elsewhere(sets[j], Identifier(sets[k])))
    && Receives(c, 320) && Command(c) == 0x16 && Modifier(c) == 3 && Length(c) == 0x1E0
    && Gather(c.guest.mem, BufferAddresses(c, 320)[..17]) == Identifier(sets[k])
  }

  // ---- the commands ---------------------------------------------------------------

  lemma FindDelivers(d: Drive, c: Call, vol: seq<byte>, sets: seq<DataSet>, k: nat)
    requires Holds(d, vol, sets) && Seeks(c, sets, k)
    ensures Posts(d, c, 0x16, 0) && Delivered(c, Issue(d, c).world.guest, sets[k].labels)
    ensures Issue(d, c).world.drive
         == Drive(d.tape.(cursor := Start(sets, k) + 5), sets[k].labels, Label(sets[k].labels, 3), false)
  {
    assert d.tape.Valid() && d.tape.loaded && c.Valid();
    hide Issue, FindDataSet, Landed, Delivered, Holds;
    Dispatched(d, c);
    FoundReply(World(d, c.guest), c, vol, sets, k);
    DeliveredAfter(c, sets[k].labels, COMPLETION_OK);
    LandedPosts(c, sets[k].labels, COMPLETION_OK);
  }

  lemma FoundUnfolds(w: World, iob: int, field: addr24, wanted: seq<byte>, labels: seq<byte>, found: Drive)
    requires w.Valid() && |wanted| == 17 && |labels| == 320 && found.tape.Valid()
    requires ReadRange(w.guest, field, 17) == Transfer(true, w.guest, wanted)
    requires SearchDataSet(w.drive.(tape := w.drive.tape.(cursor := 0), reload := false), wanted, false, [])
          == Search(true, labels, TapeMark, found)
    requires WriteRange(w.guest, field, labels).ok
    ensures FindDataSet(w, iob, 3, 0x1E0, field)
         == Accept(World(found.(active := labels),
                         WriteHalf(WriteRange(w.guest, field, labels).guest, iob + OFF_RETURNED_LENGTH, 320)),
                   iob, COMPLETION_OK)
  {
    hide SearchDataSet, ReadRange, WriteRange, WriteHalf, Accept;
  }

  lemma FoundReply(w: World, c: Call, vol: seq<byte>, sets: seq<DataSet>, k: nat)
    requires w.Valid() && w.guest == c.guest && Holds(w.drive, vol, sets) && Seeks(c, sets, k)
    ensures var r := FindDataSet(w, c.iob, 3, 0x1E0, Field(c)).world;
              && r.guest == Landed(c, sets[k].labels, COMPLETION_OK)
              && r.drive == Drive(w.drive.tape.(cursor := Start(sets, k) + 5), sets[k].labels,
                                  Label(sets[k].labels, 3), false)
  {
    hide SearchDataSet, ReadRange, WriteRange, Volume, Label, Elsewhere, Start, FindDataSet, Delivered;
    UsablePrefix(c.guest, Field(c), 17, 320);
    UsableRead(c.guest, Field(c), 17);
    var start := w.drive.(tape := w.drive.tape.(cursor := 0), reload := false);
    SearchFinds(start, vol, sets, k);
    DeliveredAfter(c, sets[k].labels, COMPLETION_OK);
    hide Holds, Seeks;
    FoundUnfolds(w, c.iob, Field(c), Identifier(sets[k]), sets[k].labels,
                 SearchDataSet(start, Identifier(sets[k]), false, []).drive);
  }

  // A call of command 22 with room for a record of n bytes.
  ghost predicate Asks(c: Call, n: nat) {
    Receives(c, n) && Command(c) == 0x22 && ValidLength(Length(c)) && n <= Length(c)
  }

  lemma ReadUnfolds(w: World, iob: int, length: halfword, field: addr24, data: seq<byte>)
    requires w.Valid() && w.drive.tape.loaded && ValidLength(length) && |data| <= length
    requires w.drive.tape.cursor < |w.drive.tape.items| && w.drive.tape.items[w.drive.tape.cursor] == Good(data)
    requires GuestAddresses(w.guest, field, |data|).Some? && WriteRange(w.guest, field, data).ok
    ensures ReadData(w, iob, true, length, field)
         == Accept(World(w.drive.(tape := w.drive.tape.(cursor := w.drive.tape.cursor + 1), lastRead := data),
                         WriteHalf(WriteRange(w.guest, field, data).guest, iob + OFF_RETURNED_LENGTH, |data|)),
                   iob, COMPLETION_OK)
  {
    hide WriteRange, GuestAddresses, WriteHalf, Accept;
  }

  lemma ReadReply(w: World, c: Call, data: seq<byte>)
    requires w.Valid() && w.guest == c.guest && w.drive.tape.loaded && Asks(c, |data|)
    requires w.drive.tape.cursor < |w.drive.tape.items| && w.drive.tape.items[w.drive.tape.cursor] == Good(data)
    ensures var r := ReadData(w, c.iob, true, Length(c), Field(c)).world;
              && r.guest == Landed(c, data, COMPLETION_OK)
              && r.drive == w.drive.(tape := w.drive.tape.(cursor := w.drive.tape.cursor + 1), lastRead := data)
  {
    DeliveredAfter(c, data, COMPLETION_OK);
    hide WriteRange, ReadData;
    ReadUnfolds(w, c.iob, Length(c), Field(c), data);
  }

  // What command completion leaves for the caller to see.
  lemma LandedPosts(c: Call, data: seq<byte>, code: nat)
    requires c.Valid() && |data| < 0x1_0000 && code < 0x10
    ensures |Landed(c, data, code).mem| == |c.guest.mem| && Landed(c, data, code).mem[c.iob + 6] == 0x40 + code
  {
    hide WriteRange;
  }

  lemma ReadDelivers(d: Drive, c: Call, data: seq<byte>)
    requires d.tape.Valid() && d.tape.loaded && Asks(c, |data|)
    requires d.tape.cursor < |d.tape.items| && d.tape.items[d.tape.cursor] == Good(data)
    ensures Posts(d, c, 0x22, 0) && Delivered(c, Issue(d, c).world.guest, data)
    ensures Issue(d, c).world.drive
         == d.(tape := d.tape.(cursor := d.tape.cursor + 1), lastRead := data)
  {
    hide Issue, ReadData, Landed, Delivered;
    Dispatched(d, c);
    ReadReply(World(d, c.guest), c, data);
    DeliveredAfter(c, data, COMPLETION_OK);
    LandedPosts(c, data, COMPLETION_OK);
  }

  // At the mark that ends the data: the trailer group and its mark follow.
  ghost predicate Closing(t: Tape, labels: seq<byte>)
    requires |labels| == 320
  {
    && t.cursor + 6 <= |t.items| && t.items[t.cursor] == Mark == t.items[t.cursor + 5]
    && forall j | t.cursor + 1 <= j < t.cursor + 5 :: t.items[j] == Good(Label(Trailers(labels), j - t.cursor - 1))
  }

  // At the first of the blocks.
  ghost predicate Holding(t: Tape, blocks: seq<seq<byte>>) {
    && t.cursor + |blocks| <= |t.items|
    && forall j | t.cursor <= j < t.cursor + |blocks| :: t.items[j] == Good(blocks[j - t.cursor])
  }

  lemma LyingHolds(t: Tape, s: nat, ds: DataSet)
    requires Standard(ds) && Lies(t.items, s, ds)
    ensures Holding(t.(cursor := s + 5), ds.blocks)
    ensures Closing(t.(cursor := s + 5 + |ds.blocks|), ds.labels)
  {
    hide Trailers, Label;
  }

  lemma EndReply(w: World, c: Call, labels: seq<byte>)
    requires w.Valid() && w.guest == c.guest && c.Valid() && w.drive.tape.loaded
    requires ValidLength(Length(c)) && |labels| == 320 && w.drive.active == labels
    requires Closing(w.drive.tape, labels)
    ensures var r := ReadData(w, c.iob, true, Length(c), Field(c)).world;
              && |r.guest.mem| == |c.guest.mem| && r.guest.mem[c.iob + 6] == 0x42
              && r.drive.tape == w.drive.tape.(cursor := w.drive.tape.cursor + 6) && r.drive.active == []
  {
    hide Trailers, Label, Complete, Write;
    var next := WithTape(w.drive, w.drive.tape.(cursor := w.drive.tape.cursor + 1));
    TrailersPass(next, labels, w.drive.tape.cursor + 1, 0);
    hide ReadTrailers;
    assert ReadData(w, c.iob, true, Length(c), Field(c))
        == FinishReadDataSet(w.(drive := next), c.iob, COMPLETION_END_OF_DATA_SET);
  }

  lemma EndOfDataSet(d: Drive, c: Call, labels: seq<byte>)
    requires d.tape.Valid() && d.tape.loaded && c.Valid() && Command(c) == 0x22
    requires ValidLength(Length(c)) && |labels| == 320 && d.active == labels
    requires Closing(d.tape, labels)
    ensures Posts(d, c, 0x22, 2)
    ensures Issue(d, c).world.drive.tape == d.tape.(cursor := d.tape.cursor + 6)
    ensures Issue(d, c).world.drive.active == []
  {
    hide Issue, ReadData, Closing, Label, Trailers, Dispatch, Execute;
    EndReply(World(d, c.guest), c, labels);
    Dispatched(d, c);
  }

  // ---- export, then read back -------------------------------------------------------

  ghost predicate AllAsk(gets: seq<Call>, blocks: seq<seq<byte>>) {
    && |gets| <= |blocks|
    && (forall i | 0 <= i < |gets| :: gets[i].Valid())
    && (forall i | 0 <= i < |gets| :: Asks(gets[i], |blocks[i]|))
  }

  // Read i posts success and delivers exactly its own block.
  ghost predicate DeliverAt(d: Drive, gets: seq<Call>, blocks: seq<seq<byte>>, i: nat)
    requires d.tape.Valid() && AllAsk(gets, blocks) && i < |gets|
  {
    && Posts(After(d, gets[..i]), gets[i], 0x22, 0)
    && Delivered(gets[i], Issue(After(d, gets[..i]), gets[i]).world.guest, blocks[i])
  }

  ghost predicate AllDeliver(d: Drive, gets: seq<Call>, blocks: seq<seq<byte>>)
    requires d.tape.Valid() && AllAsk(gets, blocks)
  {
    forall i | 0 <= i < |gets| :: DeliverAt(d, gets, blocks, i)
  }

  lemma {:induction false} BlocksDeliver(d: Drive, gets: seq<Call>, blocks: seq<seq<byte>>)
    requires d.tape.Valid() && d.tape.loaded && AllAsk(gets, blocks) && Holding(d.tape, blocks)
    ensures AllDeliver(d, gets, blocks)
    ensures After(d, gets).tape == d.tape.(cursor := d.tape.cursor + |gets|)
    ensures After(d, gets).active == d.active
  {
    hide Issue, DeliverAt, Asks, Holding;
    if gets != [] {
      var n := |gets| - 1;
      BlocksDeliver(d, gets[..n], blocks);
      LastDelivers(d, gets, blocks);
      AllDeliverStep(d, gets, blocks);
    }
  }

  lemma LastDelivers(d: Drive, gets: seq<Call>, blocks: seq<seq<byte>>)
    requires d.tape.Valid() && d.tape.loaded && AllAsk(gets, blocks) && Holding(d.tape, blocks) && gets != []
    requires var before := After(d, gets[..|gets| - 1]);
             before.tape == d.tape.(cursor := d.tape.cursor + |gets| - 1) && before.active == d.active
    ensures DeliverAt(d, gets, blocks, |gets| - 1)
    ensures After(d, gets).tape == d.tape.(cursor := d.tape.cursor + |gets|) && After(d, gets).active == d.active
  {
    var n := |gets| - 1;
    AfterStep(d, gets);
    hide Issue, Posts, Delivered, Asks, After;
    assert d.tape.items[d.tape.cursor + n] == Good(blocks[n]);
    hide Holding;
    ReadDelivers(After(d, gets[..n]), gets[n], blocks[n]);
  }

  lemma AllDeliverStep(d: Drive, gets: seq<Call>, blocks: seq<seq<byte>>)
    requires d.tape.Valid() && AllAsk(gets, blocks) && gets != []
    requires AllDeliver(d, gets[..|gets| - 1], blocks) && DeliverAt(d, gets, blocks, |gets| - 1)
    ensures AllDeliver(d, gets, blocks)
  {
    hide Issue, Posts, Delivered, Asks, After;
    var n := |gets| - 1;
    forall i | 0 <= i < n
      ensures DeliverAt(d, gets, blocks, i)
    {
      assert DeliverAt(d, gets[..n], blocks, i);
      assert gets[..n][..i] == gets[..i] && gets[..n][i] == gets[i];
    }
  }

  lemma AfterStep(d: Drive, calls: seq<Call>)
    requires d.tape.Valid() && calls != [] && forall i | 0 <= i < |calls| :: calls[i].Valid()
    ensures After(d, calls) == Issue(After(d, calls[..|calls| - 1]), calls[|calls| - 1]).world.drive
  {
    hide Issue;
  }

  // From just past the header group: one read a block, and one more.
  lemma ReadsFollow(at: Drive, ds: DataSet, gets: seq<Call>, last: Call)
    requires at.tape.Valid() && at.tape.loaded && at.active == ds.labels && |ds.labels| == 320
    requires Holding(at.tape, ds.blocks) && Closing(at.tape.(cursor := at.tape.cursor + |ds.blocks|), ds.labels)
    requires |gets| == |ds.blocks| && AllAsk(gets, ds.blocks)
    requires last.Valid() && Command(last) == 0x22 && ValidLength(Length(last))
    ensures AllDeliver(at, gets, ds.blocks) && Posts(After(at, gets), last, 0x22, 2)
    ensures Issue(After(at, gets), last).world.drive.tape == at.tape.(cursor := at.tape.cursor + |ds.blocks| + 6)
    ensures Issue(After(at, gets), last).world.drive.active == []
  {
    hide Issue, Posts, Closing, Holding, AllDeliver, After;
    BlocksDeliver(at, gets, ds.blocks);
    EndOfDataSet(After(at, gets), last, ds.labels);
  }

  // Command 16 for a data set of the volume, then one command 22 a block and
  // one more: exactly the written blocks come back, in order and at their own
  // lengths, and the last read posts completion 2 with the head past the
  // trailer file's closing mark.
  lemma DataSetReadsBack(d: Drive, vol: seq<byte>, sets: seq<DataSet>, k: nat,
                         find: Call, gets: seq<Call>, last: Call)
    requires Holds(d, vol, sets) && Seeks(find, sets, k)
    requires |gets| == |sets[k].blocks| && AllAsk(gets, sets[k].blocks)
    requires last.Valid() && Command(last) == 0x22 && ValidLength(Length(last))
    ensures Posts(d, find, 0x16, 0) && Delivered(find, Issue(d, find).world.guest, sets[k].labels)
    ensures var at := Issue(d, find).world.drive;
              && AllDeliver(at, gets, sets[k].blocks)
              && Posts(After(at, gets), last, 0x22, 2)
              && Issue(After(at, gets), last).world.drive.tape == d.tape.(cursor := Start(sets, k + 1))
              && Issue(After(at, gets), last).world.drive.active == []
  {
    hide Issue, Posts, Delivered, Volume, EncodeAll, Elsewhere, Start, Label, Trailers, Asks, AllDeliver, After;
    FindDelivers(d, find, vol, sets, k);
    SetLies(vol, sets, k);
    LyingHolds(d.tape, Start(sets, k), sets[k]);
    hide Holding, Closing, Lies, AllAsk;
    ReadsFollow(Issue(d, find).world.drive, sets[k], gets, last);
  }

  // End to end: command 12, any number of exports, then reading export k back.
  // What comes back is what session k's header and data buffers held, block
  // for block, when it was written.
  lemma ExportsReadBack(d: Drive, init: Call, sessions: seq<Session>, k: nat, find: Call, gets: seq<Call>, last: Call)
    requires Posts(d, init, 0x12, 0)
    requires AllValid(sessions) && SessionsPost(Issue(d, init).world.drive, sessions) && k < |sessions|
    requires AllStandard(AllExported(sessions)) ==> Seeks(find, AllExported(sessions), k)
    requires |gets| == |sessions[k].writes| && AllAsk(gets, Payloads(sessions[k].writes))
    requires last.Valid() && Command(last) == 0x22 && ValidLength(Length(last))
    ensures var written := AfterSessions(Issue(d, init).world.drive, sessions);
            && Posts(written, find, 0x16, 0)
            && Receives(find, 320) && |Payload(sessions[k].header, 320)| == 320
            && Delivered(find, Issue(written, find).world.guest, Payload(sessions[k].header, 320))
            && var at := Issue(written, find).world.drive;
            && AllDeliver(at, gets, Payloads(sessions[k].writes))
            && Posts(After(at, gets), last, 0x22, 2)
            && AllStandard(AllExported(sessions))
            && Issue(After(at, gets), last).world.drive.tape
               == written.tape.(cursor := Start(AllExported(sessions), k + 1))
            && Issue(After(at, gets), last).world.drive.active == []
  {
    assert d.tape.Valid() && init.Valid();
    hide Issue, Posts, Delivered, Volume, EncodeAll, Elsewhere, Start, Label, Trailers, Asks, AllDeliver, After,
         Payload;
    hide SessionsPost, AfterSessions, AllExported, AllAsk;
    VolumeHistory(d, init, sessions);
    ExportedAt(sessions, k);
    var written, sets := AfterSessions(Issue(d, init).world.drive, sessions), AllExported(sessions);
    DataSetReadsBack(written, Payload(init, 80), sets, k, find, gets, last);
  }
}
