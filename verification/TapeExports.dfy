// Which calls of an export complete: on a standard volume the five
// completions an export shows its caller come out for exactly the calls whose
// blocks and buffers say so.
module TapeExports {
  import opened Bytes
  import opened GuestStorage
  import opened TapeMedium
  import opened TapeCommands
  import opened TapeSessions
  import opened StandardVolumes

  // The call's block names this command and modifier.
  ghost predicate Asks(c: Call, command: byte, modifier: byte) {
    c.Valid() && c.guest.mem[c.iob + 10] == command && c.guest.mem[c.iob + 11] == modifier
  }

  // The buffer is there, no fault is latched, and it holds the record.
  ghost predicate Supplies(c: Call, record: seq<byte>) {
    c.Valid() && !c.guest.faulted && Buffered(c, record)
  }

  ghost predicate Supplied(c: Call, n: nat) {
    exists record: seq<byte> | |record| == n :: Supplies(c, record)
  }

  // Some good record of the medium is an HDR1 with this 17-byte identifier.
  ghost predicate Recorded(items: seq<Item>, wanted: seq<byte>) {
    exists i | 0 <= i < |items| :: NamedAs(items[i], wanted)
  }

  ghost predicate NamedAs(item: Item, wanted: seq<byte>) {
    item.Record? && Begins(item.bytes, [0xC8, 0xC4, 0xD9, 0xF1]) && item.bytes[4..21] == wanted
  }

  ghost predicate FourHeaders(labels: seq<byte>) {
    && |labels| == 320
    && Begins(labels[..80], [0xC8, 0xC4, 0xD9, 0xF1]) && Begins(labels[80..160], [0xC8, 0xC4, 0xD9, 0xF2])
    && Begins(labels[160..240], [0xE4, 0xC8, 0xD3, 0xF1]) && Begins(labels[240..], [0xE4, 0xC8, 0xD3, 0xF2])
  }

  ghost predicate FindAsks(items: seq<Item>, c: Call) {
    && Asks(c, 0x16, 3) && BlockLength(c) == 480
    && exists wanted: seq<byte> | |wanted| == 17 :: Supplies(c, wanted) && !Recorded(items, wanted)
  }

  ghost predicate HeaderAsks(c: Call) {
    && Asks(c, 0x14, 3) && BlockLength(c) == 320
    && exists labels: seq<byte> :: Supplies(c, labels) && FourHeaders(labels)
  }

  ghost predicate WriteAsks(c: Call) {
    && c.Valid() && c.guest.mem[c.iob + 10] in {0x18, 0x21}
    && 1 <= BlockLength(c) <= 0x7FFF && Supplied(c, BlockLength(c))
  }

  ghost predicate ExportAsks(items: seq<Item>, s: Session) {
    && FindAsks(items, s.find) && HeaderAsks(s.header)
    && (forall i | 0 <= i < |s.writes| :: WriteAsks(s.writes[i]))
    && Asks(s.finish, 0x19, 0) && Asks(s.finalize, 0x1B, 0)
  }

  // ---- buffers ------------------------------------------------------------------

  lemma SuppliedIs(c: Call, record: seq<byte>)
    requires Supplies(c, record) && record != []
    ensures ReadRange(c.guest, Field(c), |record|) == Transfer(true, c.guest, record)
  {
    hide ReadRange, BufferAt, Number;
    BlockFields(c);
    var a: seq<int> :| |a| == |record| && BufferAt(c.guest, Number(c.guest.mem, c.iob + 13), a)
                       && Inside(|c.guest.mem|, a) && Gather(c.guest.mem, a) == record;
    BufferReads(c.guest, Field(c), a);
  }

  lemma ReadSupplied(c: Call, n: nat)
    requires c.Valid() && n > 0
    ensures ReadRange(c.guest, Field(c), n).ok <==> Supplied(c, n)
    ensures ReadRange(c.guest, Field(c), n).ok ==> |Payload(c, n)| == n && Supplies(c, Payload(c, n))
  {
    hide ReadRange, Buffered;
    if ReadRange(c.guest, Field(c), n).ok {
      PayloadBuffered(c, n);
      ReadIsBuffer(c.guest, Field(c), n);
    }
    if Supplied(c, n) {
      var record: seq<byte> :| |record| == n && Supplies(c, record);
      SuppliedIs(c, record);
    }
  }

  // ---- command 16 -----------------------------------------------------------------

  lemma {:induction false} SearchFound(d: Drive, wanted: seq<byte>, matched: bool, labels: seq<byte>)
    requires d.tape.Valid() && |wanted| == 17 && d.tape.loaded && NoErrors(d.tape.items)
    requires d.tape.cursor < |d.tape.items| || !matched
    requires d.tape.items != [] && d.tape.items[|d.tape.items| - 1] == Mark
    ensures SearchDataSet(d, wanted, matched, labels).found
       <==> matched || Recorded(d.tape.items[d.tape.cursor..], wanted)
    decreases |d.tape.items| - d.tape.cursor
  {
    var t, b := d.tape, NextBlock(d.tape);
    if t.cursor < |t.items| {
      var rest := t.items[t.cursor..];
      assert rest == [t.items[t.cursor]] + t.items[t.cursor + 1..];
      RecordedFirst(t.items[t.cursor], t.items[t.cursor + 1..], wanted);
      if b.result == Ok {
        var hit := matched || NamesDataSet(b.data, wanted);
        SearchFound(d.(tape := b.tape, lastRead := b.data), wanted, hit, if hit then labels + b.data else labels);
      } else if b.result == TapeMark && !matched {
        SearchFound(WithTape(d, b.tape), wanted, matched, labels);
      }
    }
  }

  lemma RecordedFirst(item: Item, rest: seq<Item>, wanted: seq<byte>)
    ensures Recorded([item] + rest, wanted) <==> NamedAs(item, wanted) || Recorded(rest, wanted)
  {
    hide NamedAs;
    var all := [item] + rest;
    if NamedAs(item, wanted) {
      assert NamedAs(all[0], wanted);
    }
    if Recorded(rest, wanted) {
      var i :| 0 <= i < |rest| && NamedAs(rest[i], wanted);
      assert NamedAs(all[i + 1], wanted);
    }
  }

  lemma FindPosts(w: World, iob: int, modifier: byte, length: halfword, field: addr24)
    requires w.Valid() && InRange(|w.guest.mem|, iob, 0x22) && w.drive.tape.loaded && NoErrors(w.drive.tape.items)
    requires w.drive.tape.items != [] && w.drive.tape.items[|w.drive.tape.items| - 1] == Mark
    ensures iob + 6 < |FindDataSet(w, iob, modifier, length, field).world.guest.mem|
    ensures FindDataSet(w, iob, modifier, length, field).world.guest.mem[iob + 6] == 0x45
       <==> && modifier == 3 && length == 480 && ReadRange(w.guest, field, 17).ok
            && !Recorded(w.drive.tape.items, ReadRange(w.guest, field, 17).data)
  {
    hide SearchDataSet, Recorded, ReadRange, Complete, WriteRange, NoErrors;
    var t := ReadRange(w.guest, field, 17);
    if modifier == 3 && length == 480 && t.ok {
      var start := w.drive.(tape := w.drive.tape.(cursor := 0), reload := false);
      SearchFound(start, t.data, false, []);
      SearchMisses(start, t.data, false, []);
      assert w.drive.tape.items[0..] == w.drive.tape.items;
    }
  }

  lemma FindPostsIff(d: Drive, c: Call)
    requires d.tape.Valid() && d.tape.loaded && NoErrors(d.tape.items)
    requires d.tape.items != [] && d.tape.items[|d.tape.items| - 1] == Mark
    ensures Posts(d, c, 0x16, 5) <==> FindAsks(d.tape.items, c)
  {
    hide Issue, FindDataSet, ReadRange, Supplies, Recorded, NoErrors, BlockLength;
    if c.Valid() {
      BlockFields(c);
      Dispatched(d, c);
      FindPosts(World(d, c.guest), c.iob, Modifier(c), Length(c), Field(c));
      ReadSupplied(c, 17);
      forall wanted: seq<byte> | |wanted| == 17 && Supplies(c, wanted)
        ensures ReadRange(c.guest, Field(c), 17) == Transfer(true, c.guest, wanted)
      {
        SuppliedIs(c, wanted);
      }
    }
  }

  // ---- command 14 -----------------------------------------------------------------

  lemma HeadersAreFour(labels: seq<byte>)
    ensures StandardHeaders(labels) <==> FourHeaders(labels)
  {
    if |labels| == 320 {
      assert Label(labels, 0) == labels[..80] && Label(labels, 3) == labels[240..];
      assert (forall k | 0 <= k < 4 :: HasId(Label(labels, k), HeaderId(k)))
        <==> && HasId(Label(labels, 0), HeaderId(0)) && HasId(Label(labels, 1), HeaderId(1))
             && HasId(Label(labels, 2), HeaderId(2)) && HasId(Label(labels, 3), HeaderId(3));
    }
  }

  lemma PlacementPosts(w: World, iob: int, labels: seq<byte>, body: seq<Item>)
    requires w.Valid() && InRange(|w.guest.mem|, iob, 0x22) && |labels| == 320
    requires w.drive.tape.loaded && !w.drive.tape.readOnly
    requires w.drive.tape.items == body + [Mark] && w.drive.tape.cursor == |w.drive.tape.items|
    requires |body| > 0 && body[|body| - 1] == Mark
    ensures iob + 6 < |PlaceHeaders(w, iob, labels).world.guest.mem|
    ensures PlaceHeaders(w, iob, labels).world.guest.mem[iob + 6] == 0x40
  {
    hide WriteLabels, Label, Complete;
    var t := BackFile(w.drive.tape).tape;
    LabelsAppend(t, labels, 0);
  }

  lemma HeaderPosts(w: World, iob: int, modifier: byte, length: halfword, field: addr24, body: seq<Item>)
    requires w.Valid() && InRange(|w.guest.mem|, iob, 0x22) && w.drive.tape.loaded
    requires w.drive.tape.items == body + [Mark] && w.drive.tape.cursor == |w.drive.tape.items|
    requires |body| > 0 && body[|body| - 1] == Mark
    ensures iob + 6 < |WriteHeaderLabels(w, iob, modifier, length, field).world.guest.mem|
    ensures WriteHeaderLabels(w, iob, modifier, length, field).world.guest.mem[iob + 6] == 0x40
       <==> && modifier == 3 && length == 320 && !w.drive.tape.readOnly && ReadRange(w.guest, field, 320).ok
            && StandardHeaders(ReadRange(w.guest, field, 320).data)
  {
    hide PlaceHeaders, Complete, ReadRange, StandardHeaders;
    var t := ReadRange(w.guest, field, 320);
    if !w.drive.tape.readOnly && t.ok && StandardHeaders(t.data) {
      assert |t.data| == 320;
      PlacementPosts(w.(guest := t.guest), iob, t.data, body);
    }
  }

  lemma HeaderPostsIff(d: Drive, c: Call, body: seq<Item>)
    requires d.tape.Valid() && d.tape.loaded && d.tape.items == body + [Mark] && d.tape.cursor == |d.tape.items|
    requires |body| > 0 && body[|body| - 1] == Mark
    ensures Posts(d, c, 0x14, 0) <==> HeaderAsks(c) && !d.tape.readOnly
  {
    hide Issue, WriteHeaderLabels, ReadRange, Supplies, StandardHeaders, FourHeaders, BlockLength;
    if c.Valid() {
      BlockFields(c);
      Dispatched(d, c);
      HeaderPosts(World(d, c.guest), c.iob, Modifier(c), Length(c), Field(c), body);
      ReadSupplied(c, 320);
      HeadersAreFour(Payload(c, 320));
      forall labels: seq<byte> | Supplies(c, labels) && FourHeaders(labels)
        ensures ReadRange(c.guest, Field(c), 320) == Transfer(true, c.guest, labels)
      {
        FourLong(labels);
        SuppliedIs(c, labels);
      }
    }
  }

  lemma FourLong(labels: seq<byte>)
    requires FourHeaders(labels)
    ensures |labels| == 320
  {
  }

  // ---- commands 18 and 21, 19 and 1B ------------------------------------------------

  lemma WritePostsIff(d: Drive, c: Call)
    requires d.tape.Valid() && d.tape.loaded && !d.tape.readOnly
    ensures Posts(d, c, 0x21, 0) || Posts(d, c, 0x18, 0) <==> WriteAsks(c)
  {
    hide Issue, WriteData, ReadRange, Supplied, BlockLength;
    if c.Valid() {
      BlockFields(c);
      Dispatched(d, c);
      WritePosts(World(d, c.guest), c.iob, Length(c), Field(c));
      if Length(c) > 0 {
        ReadSupplied(c, Length(c));
      }
    }
  }

  lemma WritePosts(w: World, iob: int, length: halfword, field: addr24)
    requires w.Valid() && InRange(|w.guest.mem|, iob, 0x22) && w.drive.tape.loaded && !w.drive.tape.readOnly
    ensures iob + 6 < |WriteData(w, iob, length, field).world.guest.mem|
    ensures WriteData(w, iob, length, field).world.guest.mem[iob + 6] == 0x40
       <==> 1 <= length <= 0x7FFF && ReadRange(w.guest, field, length).ok
  {
    hide Complete;
  }

  lemma FinishPostsIff(d: Drive, c: Call)
    requires d.tape.Valid() && d.tape.loaded && !d.tape.readOnly && |d.active| == 320
    ensures Posts(d, c, 0x19, 0) <==> Asks(c, 0x19, 0)
  {
    hide Issue, FinishDataSet;
    if c.Valid() {
      BlockFields(c);
      Dispatched(d, c);
      FinishPosts(World(d, c.guest), c.iob, Modifier(c));
    }
  }

  lemma FinishPosts(w: World, iob: int, modifier: byte)
    requires w.Valid() && InRange(|w.guest.mem|, iob, 0x22) && |w.drive.active| == 320
    requires w.drive.tape.loaded && !w.drive.tape.readOnly
    ensures iob + 6 < |FinishDataSet(w, iob, modifier).world.guest.mem|
    ensures FinishDataSet(w, iob, modifier).world.guest.mem[iob + 6] == 0x40 <==> modifier == 0
  {
    hide Complete, Trailers, WriteLabels, Label;
    var k := AppendMark(w.drive.tape).tape;
    LabelsAppend(k, Trailers(w.drive.active), 0);
  }

  lemma FinalizePostsIff(d: Drive, c: Call)
    requires d.tape.Valid() && d.tape.loaded && !d.tape.readOnly && |d.active| == 320
    ensures Posts(d, c, 0x1B, 0) <==> Asks(c, 0x1B, 0)
  {
    hide Issue, FinalizeVolume;
    if c.Valid() {
      BlockFields(c);
      Dispatched(d, c);
      FinalizePosts(World(d, c.guest), c.iob, Modifier(c));
    }
  }

  lemma FinalizePosts(w: World, iob: int, modifier: byte)
    requires w.Valid() && InRange(|w.guest.mem|, iob, 0x22) && |w.drive.active| == 320
    requires w.drive.tape.loaded && !w.drive.tape.readOnly
    ensures iob + 6 < |FinalizeVolume(w, iob, modifier).world.guest.mem|
    ensures FinalizeVolume(w, iob, modifier).world.guest.mem[iob + 6] == 0x40 <==> modifier == 0
  {
    hide Complete;
  }

  // ---- the whole export ----------------------------------------------------------------

  lemma {:induction false} WritesPostIff(d: Drive, writes: seq<Call>)
    requires d.tape.Valid() && d.tape.cursor == |d.tape.items| && !d.tape.readOnly && d.tape.loaded
    requires forall i | 0 <= i < |writes| :: writes[i].Valid()
    ensures WritesPost(d, writes) <==> forall i | 0 <= i < |writes| :: WriteAsks(writes[i])
  {
    hide Issue, Posts, WriteAsks, WritesPost, After;
    if writes == [] {
      NothingToWrite(d);
    } else {
      var n := |writes| - 1;
      WritesPostIff(d, writes[..n]);
      LastWritePosts(d, writes);
      if WritesPost(d, writes[..n]) {
        BlocksWritten(d, writes[..n]);
        WritePostsIff(After(d, writes[..n]), writes[n]);
      }
      assert (forall i | 0 <= i < |writes| :: WriteAsks(writes[i]))
        <==> (forall i | 0 <= i < n :: WriteAsks(writes[..n][i])) && WriteAsks(writes[n]);
    }
  }

  lemma NothingToWrite(d: Drive)
    requires d.tape.Valid()
    ensures WritesPost(d, [])
  {
  }

  lemma LastWritePosts(d: Drive, writes: seq<Call>)
    requires d.tape.Valid() && writes != [] && forall i | 0 <= i < |writes| :: writes[i].Valid()
    ensures WritesPost(d, writes)
       <==> && WritesPost(d, writes[..|writes| - 1])
            && (Posts(After(d, writes[..|writes| - 1]), writes[|writes| - 1], 0x21, 0) ||
                Posts(After(d, writes[..|writes| - 1]), writes[|writes| - 1], 0x18, 0))
  {
    hide Issue, Posts, After;
    var n := |writes| - 1;
    forall i | 0 <= i < n
      ensures writes[..n][..i] == writes[..i] && writes[..n][i] == writes[i]
    {
    }
  }

  // On a loaded standard volume an export completes exactly when its blocks
  // name the five steps, its buffers are there, its labels are standard, its
  // data set is not on the volume yet and the cartridge can be written.
  lemma ExportPostsIff(d: Drive, s: Session, vol: seq<byte>, sets: seq<DataSet>)
    requires d.tape.Valid() && d.tape.loaded && s.Valid()
    requires AllStandard(sets) && d.tape.items == Volume(vol, sets)
    ensures SessionPosts(d, s) <==> ExportAsks(d.tape.items, s) && !d.tape.readOnly
  {
    hide Issue, Posts, Payload, Trailers, FindAsks, HeaderAsks, WriteAsks, Asks, NoErrors, AllStandard;
    assert NoErrors(d.tape.items) by {
      VolumeHasNoErrors(vol, sets);
    }
    FindPostsIff(d, s.find);
    if Posts(d, s.find, 0x16, 5) {
      FindMissed(d, s.find);
      var positioned := Issue(d, s.find).world.drive;
      var body := [Good(vol), Mark] + EncodeAll(sets);
      EncodeAllEndsInMark(sets);
      HeaderPostsIff(positioned, s.header, body);
      if Posts(positioned, s.header, 0x14, 0) {
        HeaderWritten(positioned, s.header, body);
        AfterHeaderIff(Issue(positioned, s.header).world.drive, s);
      }
    }
  }

  lemma VolumeHasNoErrors(vol: seq<byte>, sets: seq<DataSet>)
    requires AllStandard(sets)
    ensures NoErrors(Volume(vol, sets))
  {
    EncodeAllHasNoErrors(sets);
  }

  lemma AfterHeaderIff(labelled: Drive, s: Session)
    requires labelled.tape.Valid() && labelled.tape.loaded && !labelled.tape.readOnly && s.Valid()
    requires labelled.tape.cursor == |labelled.tape.items| && |labelled.active| == 320
    ensures (&& WritesPost(labelled, s.writes) && Posts(After(labelled, s.writes), s.finish, 0x19, 0)
             && Posts(Issue(After(labelled, s.writes), s.finish).world.drive, s.finalize, 0x1B, 0))
       <==> && (forall i | 0 <= i < |s.writes| :: WriteAsks(s.writes[i]))
            && Asks(s.finish, 0x19, 0) && Asks(s.finalize, 0x1B, 0)
  {
    hide Issue, Posts, Payload, Trailers, WriteAsks, Asks;
    WritesPostIff(labelled, s.writes);
    if WritesPost(labelled, s.writes) {
      BlocksWritten(labelled, s.writes);
      var filled := After(labelled, s.writes);
      FinishPostsIff(filled, s.finish);
      if Posts(filled, s.finish, 0x19, 0) {
        DataSetFinished(filled, s.finish);
        FinalizePostsIff(Issue(filled, s.finish).world.drive, s.finalize);
      }
    }
  }

  // ---- what a call that does not go through says ------------------------------------

  // 44, with sense 000A or 0025 at 1E.
  ghost predicate Refused(g: Guest, iob: int) {
    && InRange(|g.mem|, iob, 0x22) && g.mem[iob + 6] == 0x44
    && g.mem[iob + 0x1E] == 0 && g.mem[iob + 0x1F] in {0x0A, 0x25}
  }

  lemma RefuseSays(w: World, iob: int, mic: halfword)
    requires InRange(|w.guest.mem|, iob, 0x22) && mic in {0x000A, 0x0025}
    ensures Refused(Refuse(w, iob, mic).world.guest, iob)
  {
  }

  // Accepted, or refused so.
  ghost predicate Clear(r: Reply, iob: int) {
    r.accepted || Refused(r.world.guest, iob)
  }

  lemma LabelCommandsClear(w: World, iob: int, modifier: byte, length: halfword, field: addr24)
    requires w.Valid() && InRange(|w.guest.mem|, iob, 0x22)
    ensures Clear(InitializeStandard(w, iob, modifier, length, field), iob)
    ensures Clear(WriteHeaderLabels(w, iob, modifier, length, field), iob)
    ensures Clear(FindDataSet(w, iob, modifier, length, field), iob)
  {
    hide Complete, WriteHalf, Refused, SearchDataSet, ReadRange, WriteRange, HasId, StandardHeaders, PlaceHeaders;
    forall v: World, mic: halfword | InRange(|v.guest.mem|, iob, 0x22) && mic in {0x000A, 0x0025}
      ensures Refused(Refuse(v, iob, mic).world.guest, iob)
    {
      RefuseSays(v, iob, mic);
    }
    forall v: World, labels: seq<byte> | v.Valid() && InRange(|v.guest.mem|, iob, 0x22) && |labels| == 320
      ensures Clear(PlaceHeaders(v, iob, labels), iob)
    {
      PlacementClear(v, iob, labels);
    }
    hide Refuse;
  }

  lemma PlacementClear(w: World, iob: int, labels: seq<byte>)
    requires w.Valid() && InRange(|w.guest.mem|, iob, 0x22) && |labels| == 320
    ensures Clear(PlaceHeaders(w, iob, labels), iob)
  {
    hide Complete, WriteHalf, Refused, WriteLabels, Label;
    forall v: World, mic: halfword | InRange(|v.guest.mem|, iob, 0x22) && mic in {0x000A, 0x0025}
      ensures Refused(Refuse(v, iob, mic).world.guest, iob)
    {
      RefuseSays(v, iob, mic);
    }
    hide Refuse;
  }

  lemma SessionCommandsClear(w: World, iob: int, modifier: byte)
    requires w.Valid() && InRange(|w.guest.mem|, iob, 0x22)
    ensures Clear(Activate(w, iob, modifier), iob) && Clear(SetSession(w, iob, modifier), iob)
    ensures Clear(Control(w, iob, modifier), iob) && Clear(Unload(w, iob, modifier), iob)
    ensures Clear(FinishDataSet(w, iob, modifier), iob) && Clear(FinalizeVolume(w, iob, modifier), iob)
  {
    hide Complete, WriteHalf, Refused, WriteLabels, Label, Trailers, ReadHeaderGroup, HasId;
    forall v: World, mic: halfword | InRange(|v.guest.mem|, iob, 0x22) && mic in {0x000A, 0x0025}
      ensures Refused(Refuse(v, iob, mic).world.guest, iob)
    {
      RefuseSays(v, iob, mic);
    }
    hide Refuse;
  }

  lemma DataCommandsClear(w: World, iob: int, labelled: bool, length: halfword, field: addr24)
    requires w.Valid() && InRange(|w.guest.mem|, iob, 0x22)
    ensures Clear(ReadData(w, iob, labelled, length, field), iob) && Clear(WriteData(w, iob, length, field), iob)
    ensures forall code: nat :: Clear(FinishReadDataSet(w, iob, code), iob)
  {
    hide Complete, WriteHalf, Refused, ReadTrailers, Trailers, ReadRange, WriteRange, GuestAddresses;
    forall v: World, mic: halfword | InRange(|v.guest.mem|, iob, 0x22) && mic in {0x000A, 0x0025}
      ensures Refused(Refuse(v, iob, mic).world.guest, iob)
    {
      RefuseSays(v, iob, mic);
    }
    hide Refuse;
  }

  lemma VolumeCommandClear(w: World, iob: int, modifier: byte, length: halfword, field: addr24)
    requires w.Valid() && InRange(|w.guest.mem|, iob, 0x22)
    ensures Clear(ReadVolumeLabels(w, iob, modifier, length, field), iob)
  {
    hide Complete, WriteHalf, Refused, FinishReadDataSet, LayBelow, ScanFile, ReadRange, WriteRange, GuestAddresses,
         HasId;
    DataCommandsClear(w, iob, true, length, field);
    var f := ScanFile(w.drive.tape);
    var moved := w.(drive := w.drive.(tape := f.tape, lastRead := LastOr(f.blocks, w.drive.lastRead)));
    LayClear(moved, iob, field, f.blocks);
    forall v: World, mic: halfword | InRange(|v.guest.mem|, iob, 0x22) && mic in {0x000A, 0x0025}
      ensures Refused(Refuse(v, iob, mic).world.guest, iob)
    {
      RefuseSays(v, iob, mic);
    }
    hide Refuse;
  }

  lemma LayClear(w: World, iob: int, field: addr24, blocks: seq<seq<byte>>)
    requires w.Valid() && InRange(|w.guest.mem|, iob, 0x22)
    ensures Clear(LayBelow(w, iob, field, blocks), iob)
  {
    hide Complete, WriteHalf, Refused, Total;
    var total, work := Total(blocks), field % 0x80_0000;
    if 0 < total <= work {
      CopyKeepsSize(w.guest, field - work + (work - total), blocks);
    }
    forall v: World, mic: halfword | InRange(|v.guest.mem|, iob, 0x22) && mic in {0x000A, 0x0025}
      ensures Refused(Refuse(v, iob, mic).world.guest, iob)
    {
      RefuseSays(v, iob, mic);
    }
    hide Refuse, StoreBlocks;
  }

  lemma {:induction false} CopyKeepsSize(g: Guest, at: nat, blocks: seq<seq<byte>>)
    requires g.Valid() && at + Total(blocks) <= 0xFF_FFFF
    ensures |StoreBlocks(g, at, blocks).1.mem| == |g.mem|
    decreases |blocks|
  {
    if blocks != [] {
      var t := WriteRange(g, at, blocks[0]);
      if t.ok {
        CopyKeepsSize(t.guest, at + |blocks[0]|, blocks[1..]);
      }
    }
  }

  // Whatever the call, it is accepted or it posts 44 and says why.
  lemma EveryCallAnswered(d: Drive, c: Call)
    requires d.tape.Valid() && c.Valid()
    ensures Clear(Issue(d, c), c.iob)
  {
    hide Dispatch, Clear;
    FieldsInStorage(c);
    DispatchClear(World(d, c.guest), c.iob, Command(c), Modifier(c), Length(c), Field(c));
  }

  lemma DispatchClear(w: World, iob: int, command: byte, modifier: byte, length: halfword, field: addr24)
    requires w.Valid() && InRange(|w.guest.mem|, iob, 0x22)
    ensures Clear(Dispatch(w, iob, command, modifier, length, field), iob)
  {
    hide InitializeStandard, ReadVolumeLabels, WriteHeaderLabels, FindDataSet, ReadData, WriteData, FinishDataSet,
         FinalizeVolume, Unload, Activate, SetSession, Control, Clear, Refuse, AnswerNotReady;
    SessionCommandsClear(w, iob, modifier);
    LabelCommandsClear(w, iob, modifier, length, field);
    VolumeCommandClear(w, iob, modifier, length, field);
    DataCommandsClear(w, iob, command == 0x22, length, field);
    UnknownClear(w, iob);
    NotReadySays(w, iob);
  }

  // A drive with no cartridge ready answers 44 with 20 at 0C, touches nothing
  // else and moves no tape.
  lemma EmptyDriveAnswers(d: Drive, c: Call)
    requires d.tape.Valid() && c.Valid() && !d.tape.loaded
    ensures Issue(d, c).accepted && Issue(d, c).world.drive == d
    ensures NotReadyTold(c.guest.mem, Issue(d, c).world.guest.mem, c.iob)
  {
    hide AnswerNotReady, NotReadyTold;
    FieldsInStorage(c);
    NotReadySays(World(d, c.guest), c.iob);
  }

  ghost predicate NotReadyTold(m: seq<byte>, n: seq<byte>, iob: int) {
    && |n| == |m| && InRange(|m|, iob, 0x22) && n[iob + 6] == 0x44 && n[iob + 0x0C] == 0x20
    && forall x | 0 <= x < |m| && !(iob + 2 <= x < iob + 7) && x != iob + 0x0C :: n[x] == m[x]
  }

  lemma UnknownClear(w: World, iob: int)
    requires InRange(|w.guest.mem|, iob, 0x22)
    ensures Clear(Refuse(w, iob, 0x000A), iob)
  {
    hide Refuse;
    RefuseSays(w, iob, 0x000A);
  }

  lemma NotReadySays(w: World, iob: int)
    requires InRange(|w.guest.mem|, iob, 0x22)
    ensures var r := AnswerNotReady(w, iob);
            Clear(r, iob) && r.accepted && r.world.drive == w.drive && NotReadyTold(w.guest.mem, r.world.guest.mem, iob)
  {
  }

  // A search that finds nothing says so with 45 and 7462 1B36 at 1C.
  ghost predicate MissTold(g: Guest, iob: int) {
    InRange(|g.mem|, iob, 0x22) && g.mem[iob + 0x1C..iob + 0x20] == [0x74, 0x62, 0x1B, 0x36]
  }

  lemma FindMissedSays(d: Drive, c: Call)
    requires Posts(d, c, 0x16, 5)
    ensures MissTold(Issue(d, c).world.guest, c.iob)
  {
    hide Issue, FindDataSet, MissTold;
    Dispatched(d, c);
    MissSays(World(d, c.guest), c.iob, Modifier(c), Length(c), Field(c));
  }

  lemma MissSays(w: World, iob: int, modifier: byte, length: halfword, field: addr24)
    requires w.Valid() && InRange(|w.guest.mem|, iob, 0x22)
    ensures var g := FindDataSet(w, iob, modifier, length, field).world.guest;
            iob + 6 < |g.mem| && (g.mem[iob + 6] == 0x45 ==> MissTold(g, iob))
  {
    hide SearchDataSet, WriteRange, MissTold;
    var t := ReadRange(w.guest, field, 17);
    hide ReadRange;
    SenseOf(t.guest, iob);
    hide WriteHalf, Complete;
  }

  lemma SenseOf(g: Guest, iob: int)
    requires InRange(|g.mem|, iob, 0x22)
    ensures MissTold(Complete(WriteHalf(WriteHalf(g, iob + 0x1C, 0x7462), iob + 0x1E, 0x1B36), iob, 5), iob)
  {
  }
}
