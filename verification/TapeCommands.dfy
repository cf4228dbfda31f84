// SVC 46, the labelled-tape device: what each command does to the drive, the
// cartridge and guest storage, as functions of their joint state.
module TapeCommands {
  import opened Bytes
  import opened GuestStorage
  import opened TapeMedium

  // ---- the tape input/output block ------------------------------------------

  const OFF_COMMAND := 0x0A
  const OFF_MODIFIER := 0x0B
  const OFF_DEVICE_STATUS := 0x0C
  const OFF_DATA_BUFFER := 0x0D
  const OFF_BLOCK_LENGTH := 0x10
  const OFF_RETURNED_LENGTH := 0x12
  const OFF_MIC_SOURCE := 0x1C
  const OFF_MIC := 0x1E

  const COMPLETION_OK: nat := 0
  const COMPLETION_END_OF_DATA_SET: nat := 2
  const COMPLETION_ERROR: nat := 4
  const COMPLETION_END_OF_FILE: nat := 5

  const MIC_INVALID_COMMAND: halfword := 0x000A
  const MIC_LENGTH: halfword := 0x0025
  const MIC_TAPE_MARK: halfword := 0x0025
  const MIC_WRITE_PROTECTED: halfword := 0x000A

  // ---- standard labels, in EBCDIC -------------------------------------------

  const VOL1: seq<byte> := [0xE5, 0xD6, 0xD3, 0xF1]
  const HDR1: seq<byte> := [0xC8, 0xC4, 0xD9, 0xF1]
  const HDR2: seq<byte> := [0xC8, 0xC4, 0xD9, 0xF2]
  const UHL1: seq<byte> := [0xE4, 0xC8, 0xD3, 0xF1]
  const UHL2: seq<byte> := [0xE4, 0xC8, 0xD3, 0xF2]
  const EOF: seq<byte> := [0xC5, 0xD6, 0xC6]
  const UTL: seq<byte> := [0xE4, 0xE3, 0xD3]

  function HeaderId(record: nat): (id: seq<byte>)
    ensures |id| == 4
  {
    if record == 0 then HDR1 else if record == 1 then HDR2 else if record == 2 then UHL1 else UHL2
  }

  predicate HasId(record: seq<byte>, id: seq<byte>) {
    |id| <= |record| && record[..|id|] == id
  }

  function Label(labels: seq<byte>, record: nat): (r: seq<byte>)
    requires record * 80 + 80 <= |labels|
    ensures |r| == 80
  {
    labels[record * 80..record * 80 + 80]
  }

  // The trailer group: the header group with HDR and UHL become EOF and UTL,
  // everything else kept.
  function Trailers(labels: seq<byte>): (r: seq<byte>)
    requires |labels| == 160 || |labels| == 320
    ensures |r| == |labels|
  {
    var two := EOF + labels[3..80] + EOF + labels[83..160];
    if |labels| == 160 then two
    else two + UTL + labels[163..240] + UTL + labels[243..320]
  }

  // ---- the joint state ------------------------------------------------------

  datatype Drive = Drive(tape: Tape, active: seq<byte>, lastRead: seq<byte>, reload: bool)

  datatype World = World(drive: Drive, guest: Guest) {
    ghost predicate Valid() {
      drive.tape.Valid() && guest.Valid()
    }
  }

  datatype Reply = Reply(world: World, accepted: bool)

  function WithTape(d: Drive, t: Tape): Drive {
    d.(tape := t)
  }

  // The completion byte a guest finds at byte 6 of a block lying in storage.
  ghost predicate Posted(g: Guest, h: Guest, iob: int, code: nat) {
    |h.mem| == |g.mem| && (InRange(|g.mem|, iob, 0x22) ==> h.mem[iob + 6] == 0x40 + code)
  }

  function Accept(w: World, iob: int, code: nat): (r: Reply)
    ensures code < 0x10 ==> Posted(w.guest, r.world.guest, iob, code)
  {
    Reply(w.(guest := Complete(w.guest, iob, code)), true)
  }

  function PostError(g: Guest, iob: int, code: nat, mic: halfword): (r: Guest)
    ensures code < 0x10 ==> Posted(g, r, iob, code)
  {
    Complete(WriteHalf(g, iob + OFF_MIC, mic), iob, code)
  }

  function Refuse(w: World, iob: int, mic: halfword): (r: Reply)
    ensures Posted(w.guest, r.world.guest, iob, COMPLETION_ERROR)
  {
    Reply(w.(guest := PostError(w.guest, iob, COMPLETION_ERROR, mic)), false)
  }

  // A drive that is not ready answers; it does not refuse.
  function AnswerNotReady(w: World, iob: int): (r: Reply)
    ensures Posted(w.guest, r.world.guest, iob, COMPLETION_ERROR)
  {
    Reply(w.(guest := Complete(WriteByte(w.guest, iob + OFF_DEVICE_STATUS, 0x20), iob, COMPLETION_ERROR)), true)
  }

  function WriteMic(result: TapeResult): halfword {
    if result == WriteProtected then MIC_WRITE_PROTECTED else MIC_INVALID_COMMAND
  }

  // ---- loops over the medium ------------------------------------------------

  // The records up to the next mark, or up to the first thing that is not a
  // good non-empty record.
  datatype FileScan = FileScan(blocks: seq<seq<byte>>, stop: TapeResult, tape: Tape)

  function ScanFile(t: Tape): (r: FileScan)
    requires t.Valid()
    ensures r.tape.Valid()
    ensures r.stop == NotReady ==> r.blocks == []
    decreases |t.items| - t.cursor
  {
    var b := NextBlock(t);
    if b.result != Ok || b.data == [] then FileScan([], b.result, b.tape)
    else
      var rest := ScanFile(b.tape);
      FileScan([b.data] + rest.blocks, rest.stop, rest.tape)
  }

  function Total(blocks: seq<seq<byte>>): nat {
    if blocks == [] then 0 else |blocks[0]| + Total(blocks[1..])
  }

  function LastOr(blocks: seq<seq<byte>>, default: seq<byte>): seq<byte> {
    if blocks == [] then default else blocks[|blocks| - 1]
  }

  // The reload copy: block after block, stopping at the first buffer that
  // cannot take one.
  ghost function StoreBlocks(g: Guest, destination: nat, blocks: seq<seq<byte>>): (r: (bool, Guest))
    requires g.Valid() && destination + Total(blocks) <= 0xFF_FFFF
    ensures r.1.Valid()
    decreases |blocks|
  {
    if blocks == [] then (true, g)
    else
      var t := WriteRange(g, destination, blocks[0]);
      if !t.ok then (false, t.guest) else StoreBlocks(t.guest, destination + |blocks[0]|, blocks[1..])
  }

  // Consecutive 80-byte records of a label group, until the medium balks.
  function WriteLabels(t: Tape, labels: seq<byte>, record: nat): (r: MediumReply)
    requires t.Valid() && |labels| == 320 && record <= 4
    ensures r.tape.Valid()
    decreases 4 - record
  {
    if record == 4 then MediumReply(Ok, t)
    else
      var m := AppendBlock(t, Label(labels, record));
      if m.result != Ok then m else WriteLabels(m.tape, labels, record + 1)
  }

  datatype Phase = Proceed(drive: Drive) | Stopped(drive: Drive, result: TapeResult)

  // Read-side command 19: HDR2, then UHL1 and UHL2 if they are there, up to
  // the mark.
  function ReadHeaderGroup(d: Drive, remaining: nat): (r: Phase)
    requires d.tape.Valid()
    ensures r.drive.tape.Valid()
    decreases |d.tape.items| - d.tape.cursor
  {
    var b := NextBlock(d.tape);
    if b.result == TapeMark then Proceed(WithTape(d, b.tape))
    else if b.result != Ok || |b.data| != 80 || remaining >= 3 || !HasId(b.data, HeaderId(remaining + 1)) then
      Stopped(WithTape(d, b.tape), b.result)
    else ReadHeaderGroup(d.(tape := b.tape, active := d.active + b.data, lastRead := b.data), remaining + 1)
  }

  // A trailer record against the header group that was kept: EOF1 may differ
  // in its block count at +54..+59, the user trailers only share their name.
  predicate TrailerMatches(expected: seq<byte>, record: nat, actual: seq<byte>)
    requires record * 80 + 80 <= |expected|
  {
    && |actual| == 80
    && var e := Label(expected, record);
       && actual[..4] == e[..4]
       && (record == 0 ==> actual[4..54] == e[4..54] && actual[60..] == e[60..])
       && (record == 1 ==> actual[4..] == e[4..])
  }

  function ReadTrailers(d: Drive, expected: seq<byte>, record: nat): (r: Phase)
    requires d.tape.Valid() && |expected| % 80 == 0 && record <= |expected| / 80
    ensures r.drive.tape.Valid()
    decreases |expected| / 80 - record
  {
    if record == |expected| / 80 then Proceed(d)
    else
      var b := NextBlock(d.tape);
      if b.result != Ok || !TrailerMatches(expected, record, b.data) then Stopped(WithTape(d, b.tape), b.result)
      else ReadTrailers(d.(tape := b.tape, lastRead := b.data), expected, record + 1)
  }

  // Find: records are read until a mark follows a matched HDR1, or until
  // something other than a record or mark turns up.
  datatype Search = Search(found: bool, labels: seq<byte>, result: TapeResult, drive: Drive)

  predicate NamesDataSet(block: seq<byte>, wanted: seq<byte>)
    requires |wanted| == 17
  {
    |block| == 80 && HasId(block, HDR1) && block[4..21] == wanted
  }

  function SearchDataSet(d: Drive, wanted: seq<byte>, matched: bool, labels: seq<byte>): (r: Search)
    requires d.tape.Valid() && |wanted| == 17
    ensures r.drive.tape.Valid()
    decreases |d.tape.items| - d.tape.cursor
  {
    var b := NextBlock(d.tape);
    if b.result == Ok then
      var hit := matched || NamesDataSet(b.data, wanted);
      SearchDataSet(d.(tape := b.tape, lastRead := b.data), wanted, hit, if hit then labels + b.data else labels)
    else if b.result == TapeMark && !matched then SearchDataSet(WithTape(d, b.tape), wanted, matched, labels)
    else Search(b.result == TapeMark, labels, b.result, WithTape(d, b.tape))
  }

  // ---- the commands -----------------------------------------------------------

  function Activate(w: World, iob: int, modifier: byte): Reply {
    if modifier != 0 then Refuse(w, iob, MIC_INVALID_COMMAND) else Accept(w, iob, COMPLETION_OK)
  }

  function SetSession(w: World, iob: int, modifier: byte): Reply {
    if modifier != 0 && modifier != 1 && modifier != 3 then Refuse(w, iob, MIC_INVALID_COMMAND)
    else Accept(w, iob, COMPLETION_OK)
  }

  ghost function InitializeStandard(w: World, iob: int, modifier: byte, length: halfword, field: addr24): (r: Reply)
    requires w.Valid()
    ensures r.world.Valid()
  {
    if modifier != 0 || length != 80 then Refuse(w, iob, MIC_LENGTH)
    else
      var t := ReadRange(w.guest, field, 80);
      var w := w.(guest := t.guest);
      if !t.ok || !HasId(t.data, VOL1) then Refuse(w, iob, MIC_INVALID_COMMAND)
      else
        var d := Drive(w.drive.tape.(cursor := 0), [], w.drive.lastRead, false);
        var vol := AppendBlock(d.tape, t.data);
        if vol.result == NotReady then AnswerNotReady(w.(drive := d), iob)
        else if vol.result != Ok then Refuse(w.(drive := d), iob, WriteMic(vol.result))
        else
          var one := AppendMark(vol.tape);
          if one.result != Ok then Refuse(w.(drive := WithTape(d, one.tape)), iob, MIC_INVALID_COMMAND)
          else
            var two := AppendMark(one.tape);
            if two.result != Ok then Refuse(w.(drive := WithTape(d, two.tape)), iob, MIC_INVALID_COMMAND)
            else Accept(w.(drive := WithTape(d, two.tape.(cursor := 0))), iob, COMPLETION_OK)
  }

  // The retained header group becomes the expected trailer group; after it a
  // mark must close the trailer file.
  function FinishReadDataSet(w: World, iob: int, code: nat): (r: Reply)
    requires w.Valid()
    ensures r.world.Valid()
  {
    if |w.drive.active| != 160 && |w.drive.active| != 320 then Refuse(w, iob, MIC_INVALID_COMMAND)
    else
      match ReadTrailers(w.drive, Trailers(w.drive.active), 0)
      case Stopped(d, result) =>
        if result == NotReady then AnswerNotReady(w.(drive := d), iob)
        else Refuse(w.(drive := d), iob, MIC_INVALID_COMMAND)
      case Proceed(d) =>
        var b := NextBlock(d.tape);
        if b.result != TapeMark then Refuse(w.(drive := WithTape(d, b.tape)), iob, MIC_INVALID_COMMAND)
        else
          Accept(World(d.(tape := b.tape, active := [], reload := false),
                       WriteHalf(w.guest, iob + OFF_RETURNED_LENGTH, 0)), iob, code)
  }

  // Command 13/00 with a two-label group retained: every data block, laid end
  // to end so that the last byte is just below the work area.
  ghost function ReloadData(w: World, iob: int, field: addr24): (r: Reply)
    requires w.Valid()
    ensures r.world.Valid()
  {
    var f := ScanFile(w.drive.tape);
    var w := w.(drive := w.drive.(tape := f.tape, lastRead := LastOr(f.blocks, w.drive.lastRead)));
    if f.stop == NotReady then AnswerNotReady(w, iob)
    else if f.stop != TapeMark then Refuse(w, iob, MIC_LENGTH)
    else LayBelow(w, iob, field, f.blocks)
  }

  ghost function LayBelow(w: World, iob: int, field: addr24, blocks: seq<seq<byte>>): (r: Reply)
    requires w.Valid()
    ensures r.world.Valid()
  {
    var total, bits, work := Total(blocks), field - field % 0x80_0000, field % 0x80_0000;
    if total <= 0 || total > work then Refuse(w, iob, MIC_LENGTH)
    else
      var s := StoreBlocks(w.guest, bits + (work - total), blocks);
      if !s.0 then Refuse(w.(guest := s.1), iob, MIC_LENGTH)
      else
        Accept(World(w.drive.(reload := true), WriteHalf(s.1, iob + OFF_RETURNED_LENGTH, 0)), iob, COMPLETION_OK)
  }

  ghost function ReadVolumeLabels(w: World, iob: int, modifier: byte, length: halfword, field: addr24): (r: Reply)
    requires w.Valid()
    ensures r.world.Valid()
  {
    if modifier == 0 && length == 0x370 && |w.drive.active| == 160 then
      if w.drive.reload then FinishReadDataSet(w, iob, COMPLETION_OK) else ReloadData(w, iob, field)
    else if modifier != 3 || length != 0x370 then Refuse(w, iob, MIC_LENGTH)
    else if GuestAddresses(w.guest, field, 80) == None then Refuse(w, iob, MIC_INVALID_COMMAND)
    else
      var b := NextBlock(w.drive.tape.(cursor := 0));
      var d := Drive(b.tape, [], w.drive.lastRead, false);
      if b.result != Ok || |b.data| != 80 || !HasId(b.data, VOL1) then Refuse(w.(drive := d), iob, MIC_TAPE_MARK)
      else
        var t := WriteRange(w.guest, field, b.data);
        if !t.ok then Refuse(World(d, t.guest), iob, MIC_LENGTH)
        else Accept(World(d.(lastRead := b.data), t.guest), iob, COMPLETION_OK)
  }

  predicate StandardHeaders(labels: seq<byte>) {
    |labels| == 320 && forall k | 0 <= k < 4 :: HasId(Label(labels, k), HeaderId(k))
  }

  ghost function WriteHeaderLabels(w: World, iob: int, modifier: byte, length: halfword, field: addr24): (r: Reply)
    requires w.Valid()
    ensures r.world.Valid()
  {
    if modifier != 3 || length != 320 then Refuse(w, iob, MIC_LENGTH)
    else if w.drive.tape.readOnly then Refuse(w, iob, MIC_WRITE_PROTECTED)
    else
      var t := ReadRange(w.guest, field, 320);
      var w := w.(guest := t.guest);
      if !t.ok || !StandardHeaders(t.data) then Refuse(w, iob, MIC_INVALID_COMMAND)
      else
        PlaceHeaders(w, iob, t.data)
  }

  // Back over the terminal mark, then the four labels and the mark closing them.
  function PlaceHeaders(w: World, iob: int, labels: seq<byte>): (r: Reply)
    requires w.Valid() && |labels| == 320
    ensures r.world.Valid()
  {
    var s := BackFile(w.drive.tape);
    if s.result !in {Ok, TapeMark} || s.spaced != 1 then
      Refuse(w.(drive := WithTape(w.drive, s.tape)), iob, MIC_INVALID_COMMAND)
    else
      var m := WriteLabels(s.tape, labels, 0);
      if m.result != Ok then Refuse(w.(drive := WithTape(w.drive, m.tape)), iob, WriteMic(m.result))
      else
        var k := AppendMark(m.tape);
        if k.result != Ok then Refuse(w.(drive := WithTape(w.drive, k.tape)), iob, WriteMic(k.result))
        else Accept(w.(drive := w.drive.(tape := k.tape, active := labels, reload := false)), iob, COMPLETION_OK)
  }

  ghost function FindDataSet(w: World, iob: int, modifier: byte, length: halfword, field: addr24): (r: Reply)
    requires w.Valid()
    ensures r.world.Valid()
  {
    if modifier != 3 || length != 0x1E0 then Refuse(w, iob, MIC_LENGTH)
    else
      var t := ReadRange(w.guest, field, 17);
      if !t.ok then Refuse(w.(guest := t.guest), iob, MIC_INVALID_COMMAND)
      else
        var s := SearchDataSet(w.drive.(tape := w.drive.tape.(cursor := 0), reload := false), t.data, false, []);
        var w := World(s.drive, t.guest);
        if s.found then
          if |s.labels| > 0x1E0 then Refuse(w, iob, MIC_LENGTH)
          else
            var o := WriteRange(w.guest, field, s.labels);
            if !o.ok then Refuse(w.(guest := o.guest), iob, MIC_LENGTH)
            else
              Accept(World(w.drive.(active := s.labels), WriteHalf(o.guest, iob + OFF_RETURNED_LENGTH, |s.labels|)),
                     iob, COMPLETION_OK)
        else if s.result == NotReady then AnswerNotReady(w, iob)
        else
          Accept(w.(guest := WriteHalf(WriteHalf(w.guest, iob + OFF_MIC_SOURCE, 0x7462), iob + OFF_MIC, 0x1B36)),
                 iob, COMPLETION_END_OF_FILE)
  }

  function FinishDataSet(w: World, iob: int, modifier: byte): (r: Reply)
    requires w.Valid()
    ensures r.world.Valid()
  {
    var d := w.drive;
    if modifier != 0 then Refuse(w, iob, MIC_LENGTH)
    else if d.active == [] && |d.lastRead| == 80 && HasId(d.lastRead, HDR1) then
      match ReadHeaderGroup(d.(active := d.lastRead), 0)
      case Stopped(d, result) =>
        if result == NotReady then AnswerNotReady(w.(drive := d), iob)
        else Refuse(w.(drive := d.(active := [])), iob, MIC_INVALID_COMMAND)
      case Proceed(d) =>
        if |d.active| != 160 && |d.active| != 320 then
          Refuse(w.(drive := d.(active := [])), iob, MIC_INVALID_COMMAND)
        else Accept(w.(drive := d), iob, COMPLETION_OK)
    else if |d.active| != 320 then Refuse(w, iob, MIC_LENGTH)
    else if d.tape.readOnly then Refuse(w, iob, MIC_WRITE_PROTECTED)
    else
      var k := AppendMark(d.tape);
      if k.result != Ok then Refuse(w.(drive := WithTape(d, k.tape)), iob, WriteMic(k.result))
      else
        var m := WriteLabels(k.tape, Trailers(d.active), 0);
        if m.result != Ok then Refuse(w.(drive := WithTape(d, m.tape)), iob, WriteMic(m.result))
        else
          var e := AppendMark(m.tape);
          if e.result != Ok then Refuse(w.(drive := WithTape(d, e.tape)), iob, WriteMic(e.result))
          else Accept(w.(drive := WithTape(d, e.tape)), iob, COMPLETION_OK)
  }

  function FinalizeVolume(w: World, iob: int, modifier: byte): (r: Reply)
    requires w.Valid()
    ensures r.world.Valid()
  {
    if modifier != 0 || |w.drive.active| != 320 then Refuse(w, iob, MIC_LENGTH)
    else
      var k := AppendMark(w.drive.tape);
      if k.result != Ok then Refuse(w.(drive := WithTape(w.drive, k.tape)), iob, WriteMic(k.result))
      else Accept(w.(drive := w.drive.(tape := k.tape, active := [], reload := false)), iob, COMPLETION_OK)
  }

  function Unload(w: World, iob: int, modifier: byte): (r: Reply)
    requires w.Valid()
    ensures r.world.Valid()
  {
    if modifier != 0 then Refuse(w, iob, MIC_LENGTH)
    else Accept(w.(drive := Drive(w.drive.tape.(loaded := false), [], w.drive.lastRead, false)), iob, COMPLETION_OK)
  }

  function Control(w: World, iob: int, modifier: byte): Reply {
    if modifier != 0x10 then Refuse(w, iob, MIC_INVALID_COMMAND) else Accept(w, iob, COMPLETION_OK)
  }

  predicate ValidLength(length: int) {
    1 <= length <= 0x7FFF
  }

  // Commands 17 and 22.  Only 22 reports a length and treats a mark as the end
  // of a labelled data set.
  ghost function ReadData(w: World, iob: int, labelled: bool, length: halfword, field: addr24): (r: Reply)
    requires w.Valid()
    ensures r.world.Valid()
  {
    if !ValidLength(length) then Refuse(w, iob, MIC_LENGTH)
    else
      var b := NextBlock(w.drive.tape);
      var w := w.(drive := WithTape(w.drive, b.tape));
      if b.result == NotReady then AnswerNotReady(w, iob)
      else if b.result == TapeMark && labelled then FinishReadDataSet(w, iob, COMPLETION_END_OF_DATA_SET)
      else if b.result != Ok then
        Reply(w.(guest := PostError(w.guest, iob, COMPLETION_END_OF_FILE, MIC_TAPE_MARK)), true)
      else if |b.data| > length then
        Refuse(w.(drive := WithTape(w.drive, BackRecord(b.tape).tape)), iob, MIC_LENGTH)
      else if GuestAddresses(w.guest, field, |b.data|) == None then Refuse(w, iob, MIC_INVALID_COMMAND)
      else
        var t := WriteRange(w.guest, field, b.data);
        if !t.ok then Refuse(w.(guest := t.guest), iob, MIC_LENGTH)
        else
          var g := if labelled then WriteHalf(t.guest, iob + OFF_RETURNED_LENGTH, |b.data|) else t.guest;
          Accept(World(w.drive.(lastRead := b.data), g), iob, COMPLETION_OK)
  }

  // Commands 18 and 21.
  ghost function WriteData(w: World, iob: int, length: halfword, field: addr24): (r: Reply)
    requires w.Valid()
    ensures r.world.Valid()
  {
    if !ValidLength(length) then Refuse(w, iob, MIC_LENGTH)
    else if GuestAddresses(w.guest, field, length) == None then Refuse(w, iob, MIC_INVALID_COMMAND)
    else
      var t := ReadRange(w.guest, field, length);
      var w := w.(guest := t.guest);
      if !t.ok then Refuse(w, iob, MIC_LENGTH)
      else
        var m := AppendBlock(w.drive.tape, t.data);
        var w := w.(drive := WithTape(w.drive, m.tape));
        if m.result == NotReady then AnswerNotReady(w, iob)
        else if m.result == WriteProtected then Refuse(w, iob, MIC_WRITE_PROTECTED)
        else Accept(w, iob, COMPLETION_OK)
  }

  // Reading the block's five fields latches a fault when any lies outside
  // storage.
  function ReadFields(g: Guest, iob: int): Guest {
    Touch(Touch(Touch(Touch(Touch(g, iob + OFF_COMMAND, 1), iob + OFF_MODIFIER, 1),
                      iob + OFF_BLOCK_LENGTH, 2), iob + OFF_DATA_BUFFER, 3), iob, 2)
  }

  ghost function Dispatch(w: World, iob: int, command: byte, modifier: byte, length: halfword,
                          field: addr24): (r: Reply)
    requires w.Valid()
    ensures r.world.Valid()
  {
    if !w.drive.tape.loaded then AnswerNotReady(w, iob)
    else if command == 0x01 then Activate(w, iob, modifier)
    else if command == 0x02 then SetSession(w, iob, modifier)
    else if command == 0x10 then Control(w, iob, modifier)
    else if command == 0x12 then InitializeStandard(w, iob, modifier, length, field)
    else if command == 0x13 then ReadVolumeLabels(w, iob, modifier, length, field)
    else if command == 0x14 then WriteHeaderLabels(w, iob, modifier, length, field)
    else if command == 0x16 then FindDataSet(w, iob, modifier, length, field)
    else if command == 0x17 || command == 0x22 then ReadData(w, iob, command == 0x22, length, field)
    else if command == 0x18 || command == 0x21 then WriteData(w, iob, length, field)
    else if command == 0x19 then FinishDataSet(w, iob, modifier)
    else if command == 0x1B then FinalizeVolume(w, iob, modifier)
    else if command == 0x27 then Unload(w, iob, modifier)
    else Refuse(w, iob, MIC_INVALID_COMMAND)
  }

  ghost function Execute(w: World, iob: int): (r: Reply)
    requires w.Valid()
    ensures r.world.Valid()
  {
    Dispatch(w.(guest := ReadFields(w.guest, iob)), iob,
             ByteAt(w.guest, iob + OFF_COMMAND), ByteAt(w.guest, iob + OFF_MODIFIER),
             HalfAt(w.guest, iob + OFF_BLOCK_LENGTH), Addr24At(w.guest, iob + OFF_DATA_BUFFER))
  }
}
