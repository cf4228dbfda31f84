// What whole tape sessions do: an export session appends exactly one data set
// to a standard-label volume, and reading a data set back gives the blocks
// that were written.
module TapeSessions {
  import opened Bytes
  import opened GuestStorage
  import opened TapeMedium
  import opened TapeCommands

  // ---- the standard-label volume --------------------------------------------

  datatype DataSet = DataSet(labels: seq<byte>, blocks: seq<seq<byte>>)

  ghost predicate GoodBlocks(blocks: seq<seq<byte>>) {
    forall i | 0 <= i < |blocks| :: ValidLength(|blocks[i]|)
  }

  ghost predicate Standard(ds: DataSet) {
    StandardHeaders(ds.labels) && GoodBlocks(ds.blocks)
  }

  ghost predicate AllStandard(sets: seq<DataSet>) {
    forall i | 0 <= i < |sets| :: Standard(sets[i])
  }

  ghost predicate VolumeLabel(vol: seq<byte>) {
    |vol| == 80 && HasId(vol, VOL1)
  }

  function Good(bytes: seq<byte>): Item {
    Record(bytes, false)
  }

  ghost function LabelItems(labels: seq<byte>): (r: seq<Item>)
    requires |labels| == 320
    ensures |r| == 4 && forall k | 0 <= k < 4 :: r[k] == Good(Label(labels, k))
  {
    [Good(Label(labels, 0)), Good(Label(labels, 1)), Good(Label(labels, 2)), Good(Label(labels, 3))]
  }

  ghost function BlockItems(blocks: seq<seq<byte>>): (r: seq<Item>)
    ensures |r| == |blocks|
    ensures forall i | 0 <= i < |blocks| :: r[i] == Good(blocks[i])
  {
    seq(|blocks|, i requires 0 <= i < |blocks| => Good(blocks[i]))
  }

  // HDR1 HDR2 UHL1 UHL2 M data* M EOF1 EOF2 UTL1 UTL2 M
  ghost function Encode(ds: DataSet): (r: seq<Item>)
    requires Standard(ds)
    ensures |r| == |ds.blocks| + 11
  {
    LabelItems(ds.labels) + [Mark] + BlockItems(ds.blocks) + [Mark] + LabelItems(Trailers(ds.labels)) + [Mark]
  }

  ghost function EncodeAll(sets: seq<DataSet>): seq<Item>
    requires AllStandard(sets)
  {
    if sets == [] then [] else EncodeAll(sets[..|sets| - 1]) + Encode(sets[|sets| - 1])
  }

  // VOL1 M (data set)* M
  ghost function Volume(vol: seq<byte>, sets: seq<DataSet>): seq<Item>
    requires AllStandard(sets)
  {
    [Good(vol), Mark] + EncodeAll(sets) + [Mark]
  }

  ghost predicate NoErrors(items: seq<Item>) {
    forall i | 0 <= i < |items| :: items[i] == Mark || !items[i].error
  }

  lemma EncodeHasNoErrors(ds: DataSet)
    requires Standard(ds)
    ensures NoErrors(Encode(ds))
  {
    assert NoErrors(LabelItems(ds.labels)) && NoErrors(LabelItems(Trailers(ds.labels)));
    assert NoErrors(BlockItems(ds.blocks));
  }

  lemma {:induction false} EncodeAllHasNoErrors(sets: seq<DataSet>)
    requires AllStandard(sets)
    ensures NoErrors(EncodeAll(sets))
  {
    if sets != [] {
      EncodeAllHasNoErrors(sets[..|sets| - 1]);
      EncodeHasNoErrors(sets[|sets| - 1]);
    }
  }

  // ---- one supervisor call ----------------------------------------------------

  // The guest program changes its storage freely between calls, so a call
  // carries the storage it finds and the address of its block.
  datatype Call = Call(guest: Guest, iob: int) {
    ghost predicate Valid() {
      guest.Valid() && InRange(|guest.mem|, iob, 0x22)
    }
  }

  function Command(c: Call): byte {
    ByteAt(c.guest, c.iob + OFF_COMMAND)
  }

  function Length(c: Call): halfword {
    HalfAt(c.guest, c.iob + OFF_BLOCK_LENGTH)
  }

  function Field(c: Call): addr24 {
    Addr24At(c.guest, c.iob + OFF_DATA_BUFFER)
  }

  ghost function Issue(d: Drive, c: Call): (r: Reply)
    requires d.tape.Valid() && c.Valid()
    ensures r.world.Valid()
  {
    Execute(World(d, c.guest), c.iob)
  }

  // The completion byte the guest finds after the call.
  ghost predicate Posts(d: Drive, c: Call, command: byte, code: byte) {
    && d.tape.Valid() && d.tape.loaded && c.Valid() && Command(c) == command
    && c.iob + 6 < |Issue(d, c).world.guest.mem|
    && Issue(d, c).world.guest.mem[c.iob + 6] == 0x40 + code
  }

  // What a call's buffer holds when it is read.
  ghost function Payload(c: Call, length: nat): seq<byte>
    requires c.Valid()
  {
    ReadRange(c.guest, Field(c), length).data
  }

  // The drive after a list of calls.
  ghost function After(d: Drive, calls: seq<Call>): (r: Drive)
    requires d.tape.Valid() && forall i | 0 <= i < |calls| :: calls[i].Valid()
    ensures r.tape.Valid()
  {
    if calls == [] then d
    else Issue(After(d, calls[..|calls| - 1]), calls[|calls| - 1]).world.drive
  }

  lemma FieldsInStorage(c: Call)
    requires c.Valid()
    ensures ReadFields(c.guest, c.iob) == c.guest
  {
  }

  function Modifier(c: Call): byte {
    ByteAt(c.guest, c.iob + OFF_MODIFIER)
  }

  // Which command a call reaches.
  lemma Dispatched(d: Drive, c: Call)
    requires d.tape.Valid() && c.Valid() && d.tape.loaded
    ensures var w := World(d, c.guest);
              && (Command(c) == 0x12 ==> Issue(d, c) == InitializeStandard(w, c.iob, Modifier(c), Length(c), Field(c)))
              && (Command(c) == 0x14 ==> Issue(d, c) == WriteHeaderLabels(w, c.iob, Modifier(c), Length(c), Field(c)))
              && (Command(c) == 0x16 ==> Issue(d, c) == FindDataSet(w, c.iob, Modifier(c), Length(c), Field(c)))
              && (Command(c) == 0x22 ==> Issue(d, c) == ReadData(w, c.iob, true, Length(c), Field(c)))
              && (Command(c) in {0x18, 0x21} ==> Issue(d, c) == WriteData(w, c.iob, Length(c), Field(c)))
              && (Command(c) == 0x19 ==> Issue(d, c) == FinishDataSet(w, c.iob, Modifier(c)))
              && (Command(c) == 0x1B ==> Issue(d, c) == FinalizeVolume(w, c.iob, Modifier(c)))
  {
    hide InitializeStandard, ReadVolumeLabels, WriteHeaderLabels, FindDataSet, ReadData, WriteData;
    hide FinishDataSet, FinalizeVolume, Unload, Activate, SetSession, Control, Refuse, AnswerNotReady;
    FieldsInStorage(c);
  }

  // ---- the write side, one command at a time ----------------------------------

  lemma {:induction false} SearchMisses(d: Drive, wanted: seq<byte>, matched: bool, labels: seq<byte>)
    requires d.tape.Valid() && |wanted| == 17 && d.tape.loaded && NoErrors(d.tape.items)
    ensures var s := SearchDataSet(d, wanted, matched, labels);
            !s.found ==> s.result == EndOfData && s.drive.tape == d.tape.(cursor := |d.tape.items|)
    decreases |d.tape.items| - d.tape.cursor
  {
    var b := NextBlock(d.tape);
    if b.result == Ok {
      var hit := matched || NamesDataSet(b.data, wanted);
      SearchMisses(d.(tape := b.tape, lastRead := b.data), wanted, hit, if hit then labels + b.data else labels);
    } else if b.result == TapeMark && !matched {
      SearchMisses(WithTape(d, b.tape), wanted, matched, labels);
    }
  }

  // Find posts "not found" only with the head past everything recorded.
  lemma FindMissed(d: Drive, c: Call)
    requires Posts(d, c, 0x16, 5) && NoErrors(d.tape.items)
    ensures Issue(d, c).world.drive.tape == d.tape.(cursor := |d.tape.items|)
  {
    Dispatched(d, c);
    var start := d.(tape := d.tape.(cursor := 0), reload := false);
    var wanted := Payload(c, 17);
    if |wanted| == 17 {
      SearchMisses(start, wanted, false, []);
    }
  }

  lemma {:induction false} LabelsAppend(t: Tape, labels: seq<byte>, record: nat)
    requires t.Valid() && t.loaded && !t.readOnly && |labels| == 320 && record < 4
    ensures WriteLabels(t, labels, record)
         == MediumReply(Ok, Tape(t.items[..t.cursor] + LabelItems(labels)[record..], t.cursor + 4 - record, true,
                                 false))
    decreases 4 - record
  {
    var m := AppendBlock(t, Label(labels, record));
    if record == 3 {
      assert LabelItems(labels)[3..] == [Good(Label(labels, 3))];
    } else {
      LabelsAppend(m.tape, labels, record + 1);
      assert LabelItems(labels)[record..] == [Good(Label(labels, record))] + LabelItems(labels)[record + 1..];
      assert m.tape.items[..m.tape.cursor] == t.items[..t.cursor] + [Good(Label(labels, record))];
    }
  }

  lemma HeadersPlaced(w: World, iob: int, labels: seq<byte>, body: seq<Item>)
    requires w.Valid() && w.drive.tape.loaded && !w.drive.tape.readOnly && |labels| == 320
    requires w.drive.tape.items == body + [Mark] && w.drive.tape.cursor == |w.drive.tape.items|
    requires |body| > 0 && body[|body| - 1] == Mark
    ensures var items := body + LabelItems(labels) + [Mark];
              PlaceHeaders(w, iob, labels).world.drive
              == w.drive.(tape := Tape(items, |items|, true, false), active := labels, reload := false)
  {
    var t := BackFile(w.drive.tape).tape;
    assert t.cursor == |body| && t.items[..t.cursor] == body;
    LabelsAppend(t, labels, 0);
    assert LabelItems(labels)[0..] == LabelItems(labels);
    var m := WriteLabels(t, labels, 0).tape;
    assert m.items[..m.cursor] == m.items;
  }

  lemma HeaderAccepted(w: World, iob: int, modifier: byte, length: halfword, field: addr24)
    requires w.Valid() && InRange(|w.guest.mem|, iob, 0x22)
    requires WriteHeaderLabels(w, iob, modifier, length, field).world.guest.mem[iob + 6] == 0x40
    ensures var t := ReadRange(w.guest, field, 320);
              StandardHeaders(t.data) && !w.drive.tape.readOnly
              && WriteHeaderLabels(w, iob, modifier, length, field)
              == PlaceHeaders(w.(guest := t.guest), iob, t.data)
  {
  }

  lemma HeaderWritten(d: Drive, c: Call, body: seq<Item>)
    requires Posts(d, c, 0x14, 0)
    requires d.tape.items == body + [Mark] && d.tape.cursor == |d.tape.items| && |body| > 0 && body[|body| - 1] == Mark
    ensures StandardHeaders(Payload(c, 320)) && !d.tape.readOnly
    ensures var items := body + LabelItems(Payload(c, 320)) + [Mark];
              Issue(d, c).world.drive
              == d.(tape := Tape(items, |items|, true, false), active := Payload(c, 320), reload := false)
  {
    hide Issue, WriteHeaderLabels, PlaceHeaders;
    Dispatched(d, c);
    HeaderAccepted(World(d, c.guest), c.iob, Modifier(c), Length(c), Field(c));
    HeadersPlaced(World(d, ReadRange(c.guest, Field(c), 320).guest), c.iob, Payload(c, 320), body);
  }

  lemma WriteAccepted(w: World, iob: int, length: halfword, field: addr24)
    requires w.Valid() && InRange(|w.guest.mem|, iob, 0x22) && w.drive.tape.loaded
    requires w.drive.tape.cursor == |w.drive.tape.items| && !w.drive.tape.readOnly
    requires WriteData(w, iob, length, field).world.guest.mem[iob + 6] == 0x40
    ensures ValidLength(length) && |ReadRange(w.guest, field, length).data| == length
    ensures var items := w.drive.tape.items + [Good(ReadRange(w.guest, field, length).data)];
              WriteData(w, iob, length, field).world.drive == w.drive.(tape := Tape(items, |items|, true, false))
  {
    assert w.drive.tape.items[..w.drive.tape.cursor] == w.drive.tape.items;
  }

  lemma BlockWritten(d: Drive, c: Call)
    requires Posts(d, c, 0x21, 0) || Posts(d, c, 0x18, 0)
    requires d.tape.cursor == |d.tape.items| && !d.tape.readOnly
    ensures ValidLength(Length(c)) && |Payload(c, Length(c))| == Length(c)
    ensures var items := d.tape.items + [Good(Payload(c, Length(c)))];
              Issue(d, c).world.drive == d.(tape := Tape(items, |items|, true, false))
  {
    hide Issue, WriteData;
    Dispatched(d, c);
    WriteAccepted(World(d, c.guest), c.iob, Length(c), Field(c));
  }

  lemma FinishAccepted(w: World, iob: int, modifier: byte)
    requires w.Valid() && InRange(|w.guest.mem|, iob, 0x22)
    requires w.drive.tape.loaded && w.drive.tape.cursor == |w.drive.tape.items| && |w.drive.active| == 320
    requires FinishDataSet(w, iob, modifier).world.guest.mem[iob + 6] == 0x40
    ensures var items := w.drive.tape.items + [Mark] + LabelItems(Trailers(w.drive.active)) + [Mark];
              FinishDataSet(w, iob, modifier).world.drive == w.drive.(tape := Tape(items, |items|, true, false))
  {
    var t, labels := w.drive.tape, Trailers(w.drive.active);
    assert t.items[..t.cursor] == t.items && !t.readOnly;
    hide Trailers;
    var k := AppendMark(t).tape;
    LabelsAppend(k, labels, 0);
    assert k.items[..k.cursor] == k.items && LabelItems(labels)[0..] == LabelItems(labels);
    var m := WriteLabels(k, labels, 0).tape;
    assert m.items[..m.cursor] == m.items;
  }

  lemma DataSetFinished(d: Drive, c: Call)
    requires Posts(d, c, 0x19, 0)
    requires |d.active| == 320 && d.tape.cursor == |d.tape.items|
    ensures var items := d.tape.items + [Mark] + LabelItems(Trailers(d.active)) + [Mark];
              Issue(d, c).world.drive == d.(tape := Tape(items, |items|, true, false))
  {
    hide Issue, FinishDataSet, Trailers;
    Dispatched(d, c);
    FinishAccepted(World(d, c.guest), c.iob, Modifier(c));
  }

  lemma FinalizeAccepted(w: World, iob: int, modifier: byte)
    requires w.Valid() && InRange(|w.guest.mem|, iob, 0x22)
    requires w.drive.tape.loaded && w.drive.tape.cursor == |w.drive.tape.items|
    requires FinalizeVolume(w, iob, modifier).world.guest.mem[iob + 6] == 0x40
    ensures var items := w.drive.tape.items + [Mark];
              FinalizeVolume(w, iob, modifier).world.drive
              == w.drive.(tape := Tape(items, |items|, true, false), active := [], reload := false)
  {
    assert w.drive.tape.items[..w.drive.tape.cursor] == w.drive.tape.items;
  }

  lemma VolumeFinalized(d: Drive, c: Call)
    requires Posts(d, c, 0x1B, 0) && d.tape.cursor == |d.tape.items|
    ensures var items := d.tape.items + [Mark];
              Issue(d, c).world.drive == d.(tape := Tape(items, |items|, true, false), active := [], reload := false)
  {
    hide Issue, FinalizeVolume;
    Dispatched(d, c);
    FinalizeAccepted(World(d, c.guest), c.iob, Modifier(c));
  }

  lemma InitAccepted(w: World, iob: int, modifier: byte, length: halfword, field: addr24)
    requires w.Valid() && InRange(|w.guest.mem|, iob, 0x22) && w.drive.tape.loaded
    requires InitializeStandard(w, iob, modifier, length, field).world.guest.mem[iob + 6] == 0x40
    ensures var vol := ReadRange(w.guest, field, 80).data;
              VolumeLabel(vol)
              && InitializeStandard(w, iob, modifier, length, field).world.drive
              == Drive(Tape(Volume(vol, []), 0, true, false), [], w.drive.lastRead, false)
  {
    var vol := ReadRange(w.guest, field, 80).data;
    assert VolumeLabel(vol) && !w.drive.tape.readOnly;
    hide ReadRange, HasId;
    var a := AppendBlock(w.drive.tape.(cursor := 0), vol).tape;
    assert a.items == [Good(vol)];
    var b := AppendMark(a).tape;
    assert b.items == [Good(vol), Mark];
    assert AppendMark(b).tape.items == [Good(vol), Mark, Mark] == Volume(vol, []);
  }

  lemma VolumeInitialized(d: Drive, c: Call)
    requires Posts(d, c, 0x12, 0)
    ensures VolumeLabel(Payload(c, 80))
    ensures Issue(d, c).world.drive == Drive(Tape(Volume(Payload(c, 80), []), 0, true, false), [], d.lastRead, false)
  {
    hide Issue, InitializeStandard;
    Dispatched(d, c);
    InitAccepted(World(d, c.guest), c.iob, Modifier(c), Length(c), Field(c));
  }

  // ---- export sessions ----------------------------------------------------------

  datatype Session = Session(find: Call, header: Call, writes: seq<Call>, finish: Call, finalize: Call) {
    ghost predicate Valid() {
      find.Valid() && header.Valid() && finish.Valid() && finalize.Valid()
      && forall i | 0 <= i < |writes| :: writes[i].Valid()
    }
  }

  ghost predicate WritesPost(d: Drive, writes: seq<Call>)
    requires d.tape.Valid() && forall i | 0 <= i < |writes| :: writes[i].Valid()
  {
    forall i | 0 <= i < |writes| ::
      Posts(After(d, writes[..i]), writes[i], 0x21, 0) || Posts(After(d, writes[..i]), writes[i], 0x18, 0)
  }

  // The completions an export that succeeds shows its caller: not found, then
  // four successes around the data.
  ghost predicate SessionPosts(d: Drive, s: Session)
    requires d.tape.Valid() && s.Valid()
  {
    && Posts(d, s.find, 0x16, 5)
    && var positioned := Issue(d, s.find).world.drive;
    && Posts(positioned, s.header, 0x14, 0)
    && var labelled := Issue(positioned, s.header).world.drive;
    && WritesPost(labelled, s.writes)
    && var filled := After(labelled, s.writes);
    && Posts(filled, s.finish, 0x19, 0)
    && Posts(Issue(filled, s.finish).world.drive, s.finalize, 0x1B, 0)
  }

  ghost function AfterSession(d: Drive, s: Session): (r: Drive)
    requires d.tape.Valid() && s.Valid()
    ensures r.tape.Valid()
  {
    var labelled := Issue(Issue(d, s.find).world.drive, s.header).world.drive;
    Issue(Issue(After(labelled, s.writes), s.finish).world.drive, s.finalize).world.drive
  }

  ghost function Payloads(writes: seq<Call>): (r: seq<seq<byte>>)
    requires forall i | 0 <= i < |writes| :: writes[i].Valid()
    ensures |r| == |writes|
  {
    seq(|writes|, i requires 0 <= i < |writes| => Payload(writes[i], Length(writes[i])))
  }

  // The data set a session's buffers describe.
  ghost function Exported(s: Session): DataSet
    requires s.Valid()
  {
    DataSet(Payload(s.header, 320), Payloads(s.writes))
  }

  lemma {:induction false} BlocksWritten(d: Drive, writes: seq<Call>)
    requires d.tape.Valid() && d.tape.cursor == |d.tape.items| && !d.tape.readOnly && d.tape.loaded
    requires forall i | 0 <= i < |writes| :: writes[i].Valid()
    requires WritesPost(d, writes)
    ensures GoodBlocks(Payloads(writes))
    ensures var items := d.tape.items + BlockItems(Payloads(writes));
            After(d, writes) == d.(tape := Tape(items, |items|, true, false))
  {
    hide Issue, Posts, Payload;
    if writes == [] {
      assert d.tape.items + BlockItems(Payloads(writes)) == d.tape.items;
    } else {
      var n := |writes| - 1;
      forall i | 0 <= i < n
        ensures writes[..n][..i] == writes[..i]
      {
      }
      BlocksWritten(d, writes[..n]);
      BlockWritten(After(d, writes[..n]), writes[n]);
      OneMoreBlock(writes, d.tape.items);
    }
  }

  lemma OneMoreBlock(writes: seq<Call>, items: seq<Item>)
    requires writes != [] && forall i | 0 <= i < |writes| :: writes[i].Valid()
    ensures var n := |writes| - 1;
            var some, last := Payloads(writes[..n]), Payload(writes[n], Length(writes[n]));
            && Payloads(writes) == some + [last]
            && items + BlockItems(Payloads(writes)) == items + BlockItems(some) + [Good(last)]
  {
    hide Payload;
    var n := |writes| - 1;
    var some, last := Payloads(writes[..n]), Payload(writes[n], Length(writes[n]));
    assert Payloads(writes) == some + [last];
    assert BlockItems(some + [last]) == BlockItems(some) + [Good(last)];
  }

  // One export appends exactly the data set its buffers describe and leaves
  // everything before it byte for byte as it was.
  lemma SessionAppends(d: Drive, s: Session, vol: seq<byte>, sets: seq<DataSet>)
    requires d.tape.Valid() && s.Valid() && SessionPosts(d, s)
    requires AllStandard(sets) && d.tape.items == Volume(vol, sets)
    ensures AllStandard(sets + [Exported(s)])
    ensures var items := Volume(vol, sets + [Exported(s)]);
              AfterSession(d, s).tape == Tape(items, |items|, true, false) && AfterSession(d, s).active == []
  {
    hide Issue, Posts, Payload, Trailers;
    EncodeAllHasNoErrors(sets);
    FindMissed(d, s.find);
    var positioned := Issue(d, s.find).world.drive;
    var body := [Good(vol), Mark] + EncodeAll(sets);
    EncodeAllEndsInMark(sets);
    HeaderWritten(positioned, s.header, body);
    var labelled := Issue(positioned, s.header).world.drive;
    var labels := Payload(s.header, 320);
    BlocksWritten(labelled, s.writes);
    var filled := After(labelled, s.writes);
    DataSetFinished(filled, s.finish);
    var closed := Issue(filled, s.finish).world.drive;
    VolumeFinalized(closed, s.finalize);
    VolumeGrows(vol, sets, Exported(s));
  }

  lemma VolumeGrows(vol: seq<byte>, sets: seq<DataSet>, ds: DataSet)
    requires AllStandard(sets) && Standard(ds)
    ensures AllStandard(sets + [ds])
    ensures Volume(vol, sets + [ds])
         == [Good(vol), Mark] + EncodeAll(sets) + LabelItems(ds.labels) + [Mark] + BlockItems(ds.blocks) + [Mark]
            + LabelItems(Trailers(ds.labels)) + [Mark] + [Mark]
  {
    hide Trailers;
    assert (sets + [ds])[..|sets|] == sets;
    var head := [Good(vol), Mark];
    assert Volume(vol, sets + [ds]) == head + (EncodeAll(sets) + Encode(ds)) + [Mark];
    assert head + (EncodeAll(sets) + Encode(ds)) == head + EncodeAll(sets) + Encode(ds);
    hide EncodeAll, Volume;
    Regroup(head + EncodeAll(sets), LabelItems(ds.labels), [Mark], BlockItems(ds.blocks), [Mark],
            LabelItems(Trailers(ds.labels)), [Mark]);
  }

  lemma Regroup<T>(p: seq<T>, a: seq<T>, b: seq<T>, c: seq<T>, d: seq<T>, e: seq<T>, f: seq<T>)
    ensures p + (a + b + c + d + e + f) == p + a + b + c + d + e + f
  {
  }

  lemma EncodeAllEndsInMark(sets: seq<DataSet>)
    requires AllStandard(sets)
    ensures sets != [] ==> EncodeAll(sets) != [] && EncodeAll(sets)[|EncodeAll(sets)| - 1] == Mark
  {
  }

  ghost predicate AllValid(sessions: seq<Session>) {
    forall i | 0 <= i < |sessions| :: sessions[i].Valid()
  }

  ghost function AfterSessions(d: Drive, sessions: seq<Session>): (r: Drive)
    requires d.tape.Valid() && AllValid(sessions)
    ensures r.tape.Valid()
  {
    if sessions == [] then d
    else AfterSession(AfterSessions(d, sessions[..|sessions| - 1]), sessions[|sessions| - 1])
  }

  ghost predicate SessionsPost(d: Drive, sessions: seq<Session>)
    requires d.tape.Valid() && AllValid(sessions)
  {
    sessions == [] ||
    var n := |sessions| - 1;
    SessionsPost(d, sessions[..n]) && SessionPosts(AfterSessions(d, sessions[..n]), sessions[n])
  }

  ghost function AllExported(sessions: seq<Session>): (r: seq<DataSet>)
    requires AllValid(sessions)
    ensures |r| == |sessions|
  {
    if sessions == [] then []
    else AllExported(sessions[..|sessions| - 1]) + [Exported(sessions[|sessions| - 1])]
  }

  lemma {:induction false} ExportedAt(sessions: seq<Session>, k: nat)
    requires AllValid(sessions) && k < |sessions|
    ensures AllExported(sessions)[k] == Exported(sessions[k])
    decreases |sessions|
  {
    if k < |sessions| - 1 {
      ExportedAt(sessions[..|sessions| - 1], k);
    }
  }

  // The whole history of a volume: after command 12 and any number of
  // completed exports it is VOL1 and exactly the exported data sets in order.
  lemma {:induction false} VolumeHistory(d: Drive, init: Call, sessions: seq<Session>)
    requires Posts(d, init, 0x12, 0)
    requires AllValid(sessions) && SessionsPost(Issue(d, init).world.drive, sessions)
    ensures var start := Issue(d, init).world.drive;
            && VolumeLabel(Payload(init, 80))
            && AllStandard(AllExported(sessions))
            && AfterSessions(start, sessions).tape.items == Volume(Payload(init, 80), AllExported(sessions))
            && AfterSessions(start, sessions).tape.loaded && AfterSessions(start, sessions).active == []
    decreases |sessions|
  {
    hide Issue, Payload, SessionPosts, AfterSession, Exported;
    VolumeInitialized(d, init);
    if sessions == [] {
      assert AllExported(sessions) == [];
    } else {
      var n := |sessions| - 1;
      var start := Issue(d, init).world.drive;
      VolumeHistory(d, init, sessions[..n]);
      SessionAppends(AfterSessions(start, sessions[..n]), sessions[n], Payload(init, 80), AllExported(sessions[..n]));
    }
  }
}
