// The tape drive as the supervisor calls it: fields updated in place, loops
// over the medium, and every command proved to be the function of the joint
// state that `TapeCommands` gives.
module VirtualTapes {
  import opened Bytes
  import opened GuestStorage
  import opened MachineStates
  import opened TapeMedium
  import T = TapeCommands

  method StoreBlocks(m: MachineState, destination: nat, blocks: seq<seq<byte>>) returns (ok: bool)
    requires m.Valid() && destination + T.Total(blocks) <= 0xFF_FFFF
    modifies m`faulted, m.mainStorage
    ensures (ok, m.View()) == T.StoreBlocks(old(m.View()), destination, blocks)
  {
    var at, i := destination, 0;
    while i < |blocks|
      invariant 0 <= i <= |blocks| && 0 <= at && at + T.Total(blocks[i..]) <= 0xFF_FFFF
      invariant T.StoreBlocks(m.View(), at, blocks[i..]) == T.StoreBlocks(old(m.View()), destination, blocks)
    {
      assert blocks[i..][1..] == blocks[i + 1..];
      ok := m.WriteGuest24Range(at, blocks[i]);
      if !ok {
        return;
      }
      at, i := at + |blocks[i]|, i + 1;
    }
    ok := true;
  }

  method PostError(m: MachineState, iob: int, code: nat, mic: halfword)
    requires m.Valid()
    modifies m`faulted, m.mainStorage
    ensures m.View() == T.PostError(old(m.View()), iob, code, mic)
  {
    m.WriteBytes(iob + T.OFF_MIC, [High(mic), Low(mic)]);
    m.Post(iob, code);
  }

  class VirtualTape {
    const m: MachineState
    const medium: SimhTape
    var activeHeaderLabels: seq<byte>
    var lastRead: seq<byte>
    var reloadDataRead: bool

    ghost predicate Valid()
      reads medium
    {
      m.Valid() && medium.Valid()
    }

    ghost function Drive(): T.Drive
      reads this, medium
    {
      T.Drive(medium.View(), activeHeaderLabels, lastRead, reloadDataRead)
    }

    ghost function View(): (w: T.World)
      requires Valid()
      reads this, medium, m, m.mainStorage, m.atr
      ensures w.Valid()
    {
      T.World(Drive(), m.View())
    }

    constructor (m: MachineState, medium: SimhTape)
      requires m.Valid() && medium.Valid()
      ensures Valid() && this.m == m && this.medium == medium
      ensures Drive() == T.Drive(medium.View(), [], [], false)
    {
      this.m, this.medium := m, medium;
      activeHeaderLabels, lastRead, reloadDataRead := [], [], false;
    }

    // Spin up the cartridge at load point.
    method Load()
      requires Valid()
      modifies this, medium
      ensures Valid() && Drive() == T.Drive(old(medium.View()).(cursor := 0, loaded := true), [], old(lastRead), false)
    {
      activeHeaderLabels, reloadDataRead := [], false;
      medium.Load();
    }

    method Refuse(iob: int, mic: halfword) returns (ok: bool)
      requires Valid()
      modifies m`faulted, m.mainStorage
      ensures Valid() && T.Reply(View(), ok) == T.Refuse(old(View()), iob, mic)
    {
      PostError(m, iob, T.COMPLETION_ERROR, mic);
      ok := false;
    }

    method Accept(iob: int, code: nat) returns (ok: bool)
      requires Valid()
      modifies m`faulted, m.mainStorage
      ensures Valid() && T.Reply(View(), ok) == T.Accept(old(View()), iob, code)
    {
      m.Post(iob, code);
      ok := true;
    }

    method AnswerNotReady(iob: int) returns (ok: bool)
      requires Valid()
      modifies m`faulted, m.mainStorage
      ensures Valid() && T.Reply(View(), ok) == T.AnswerNotReady(old(View()), iob)
    {
      hide GuestStorage.Complete, GuestStorage.Write;
      m.WriteBytes(iob + T.OFF_DEVICE_STATUS, [0x20]);
      m.Post(iob, T.COMPLETION_ERROR);
      ok := true;
    }

    method Activate(iob: int, modifier: byte) returns (ok: bool)
      requires Valid()
      modifies m`faulted, m.mainStorage
      ensures Valid() && T.Reply(View(), ok) == T.Activate(old(View()), iob, modifier)
    {
      if modifier != 0 {
        ok := Refuse(iob, T.MIC_INVALID_COMMAND);
      } else {
        ok := Accept(iob, T.COMPLETION_OK);
      }
    }

    method SetSession(iob: int, modifier: byte) returns (ok: bool)
      requires Valid()
      modifies m`faulted, m.mainStorage
      ensures Valid() && T.Reply(View(), ok) == T.SetSession(old(View()), iob, modifier)
    {
      if modifier != 0 && modifier != 1 && modifier != 3 {
        ok := Refuse(iob, T.MIC_INVALID_COMMAND);
      } else {
        ok := Accept(iob, T.COMPLETION_OK);
      }
    }

    method Control(iob: int, modifier: byte) returns (ok: bool)
      requires Valid()
      modifies m`faulted, m.mainStorage
      ensures Valid() && T.Reply(View(), ok) == T.Control(old(View()), iob, modifier)
    {
      if modifier != 0x10 {
        ok := Refuse(iob, T.MIC_INVALID_COMMAND);
      } else {
        ok := Accept(iob, T.COMPLETION_OK);
      }
    }

    method InitializeStandard(iob: int, modifier: byte, length: halfword, field: addr24) returns (ok: bool)
      requires Valid()
      modifies this, medium, m`faulted, m.mainStorage
      ensures Valid() && T.Reply(View(), ok) == T.InitializeStandard(old(View()), iob, modifier, length, field)
    {
      if modifier != 0 || length != 80 {
        ok := Refuse(iob, T.MIC_LENGTH);
        return;
      }
      var read, volume := m.ReadGuest24Range(field, 80);
      if !read || !T.HasId(volume, T.VOL1) {
        ok := Refuse(iob, T.MIC_INVALID_COMMAND);
        return;
      }
      medium.Rewind();
      activeHeaderLabels, reloadDataRead := [], false;
      var r := medium.WriteBlock(volume);
      if r == NotReady {
        ok := AnswerNotReady(iob);
        return;
      }
      if r == Ok {
        r := medium.WriteTapeMark();
        if r == Ok {
          r := medium.WriteTapeMark();
        }
      }
      if r != Ok {
        ok := Refuse(iob, if r == WriteProtected then T.MIC_WRITE_PROTECTED else T.MIC_INVALID_COMMAND);
        return;
      }
      medium.Rewind();
      ok := Accept(iob, T.COMPLETION_OK);
    }

    method ReadTrailers(expected: seq<byte>) returns (ok: bool, r: TapeResult)
      requires Valid() && |expected| % 80 == 0
      modifies this, medium
      ensures Valid()
      ensures T.ReadTrailers(old(Drive()), expected, 0) == if ok then T.Proceed(Drive()) else T.Stopped(Drive(), r)
    {
      var labelCount := |expected| / 80;
      var record := 0;
      r := Ok;
      while record < labelCount
        invariant 0 <= record <= labelCount && Valid()
        invariant T.ReadTrailers(Drive(), expected, record) == T.ReadTrailers(old(Drive()), expected, 0)
      {
        var actual;
        r, actual := medium.ReadBlock();
        if r != Ok || !T.TrailerMatches(expected, record, actual) {
          return false, r;
        }
        lastRead := actual;
        record := record + 1;
      }
      return true, r;
    }

    method FinishReadDataSet(iob: int, code: nat) returns (ok: bool)
      requires Valid()
      modifies this, medium, m`faulted, m.mainStorage
      ensures Valid() && T.Reply(View(), ok) == T.FinishReadDataSet(old(View()), iob, code)
    {
      if |activeHeaderLabels| != 160 && |activeHeaderLabels| != 320 {
        ok := Refuse(iob, T.MIC_INVALID_COMMAND);
        return;
      }
      var matched, r := ReadTrailers(T.Trailers(activeHeaderLabels));
      if !matched {
        if r == NotReady {
          ok := AnswerNotReady(iob);
        } else {
          ok := Refuse(iob, T.MIC_INVALID_COMMAND);
        }
        return;
      }
      var ignored;
      r, ignored := medium.ReadBlock();
      if r != TapeMark {
        ok := Refuse(iob, T.MIC_INVALID_COMMAND);
        return;
      }
      m.WriteBytes(iob + T.OFF_RETURNED_LENGTH, [0, 0]);
      activeHeaderLabels, reloadDataRead := [], false;
      ok := Accept(iob, code);
    }

    // The blocks of the current file, gathered until something else is read.
    method GatherFile() returns (stop: TapeResult, blocks: seq<seq<byte>>)
      requires Valid()
      modifies this, medium
      ensures Valid() && T.FileScan(blocks, stop, medium.View()) == T.ScanFile(old(medium.View()))
      ensures Drive() == old(Drive()).(tape := medium.View(), lastRead := T.LastOr(blocks, old(lastRead)))
    {
      hide NextBlock;
      blocks, stop := [], Ok;
      while true
        invariant Valid()
        invariant var whole, rest := T.ScanFile(old(medium.View())), T.ScanFile(medium.View());
                  whole == T.FileScan(blocks + rest.blocks, rest.stop, rest.tape)
        invariant Drive() == old(Drive()).(tape := medium.View(), lastRead := T.LastOr(blocks, old(lastRead)))
        decreases |medium.items| - medium.cursor
      {
        var block;
        stop, block := medium.ReadBlock();
        if stop != Ok || block == [] {
          return;
        }
        lastRead := block;
        blocks := blocks + [block];
      }
    }

    method ReloadData(iob: int, field: addr24) returns (ok: bool)
      requires Valid()
      modifies this, medium, m`faulted, m.mainStorage
      ensures Valid() && T.Reply(View(), ok) == T.ReloadData(old(View()), iob, field)
    {
      var stop, blocks := GatherFile();
      if stop == NotReady {
        ok := AnswerNotReady(iob);
        return;
      }
      if stop != TapeMark {
        ok := Refuse(iob, T.MIC_LENGTH);
        return;
      }
      ok := LayBelow(iob, field, blocks);
    }

    method LayBelow(iob: int, field: addr24, blocks: seq<seq<byte>>) returns (ok: bool)
      requires Valid()
      modifies this, m`faulted, m.mainStorage
      ensures Valid() && T.Reply(View(), ok) == T.LayBelow(old(View()), iob, field, blocks)
    {
      hide T.StoreBlocks, T.Refuse, T.Accept;
      var total := T.Total(blocks);
      var addressBits, workAddress := field - field % 0x80_0000, field % 0x80_0000;
      if total <= 0 || total > workAddress {
        ok := Refuse(iob, T.MIC_LENGTH);
        return;
      }
      var stored := StoreBlocks(m, addressBits + (workAddress - total), blocks);
      if !stored {
        ok := Refuse(iob, T.MIC_LENGTH);
        return;
      }
      m.WriteBytes(iob + T.OFF_RETURNED_LENGTH, [0, 0]);
      reloadDataRead := true;
      ok := Accept(iob, T.COMPLETION_OK);
    }

    method ReadVolumeLabels(iob: int, modifier: byte, length: halfword, field: addr24) returns (ok: bool)
      requires Valid()
      modifies this, medium, m`faulted, m.mainStorage
      ensures Valid() && T.Reply(View(), ok) == T.ReadVolumeLabels(old(View()), iob, modifier, length, field)
    {
      if modifier == 0 && length == 0x370 && |activeHeaderLabels| == 160 {
        if reloadDataRead {
          ok := FinishReadDataSet(iob, T.COMPLETION_OK);
        } else {
          ok := ReloadData(iob, field);
        }
        return;
      }
      if modifier != 3 || length != 0x370 {
        ok := Refuse(iob, T.MIC_LENGTH);
        return;
      }
      var mapped, extents := m.Guest24Extents(field, 80);
      if !mapped {
        ok := Refuse(iob, T.MIC_INVALID_COMMAND);
        return;
      }
      medium.Rewind();
      activeHeaderLabels, reloadDataRead := [], false;
      var r, volume := medium.ReadBlock();
      if r != Ok || |volume| != 80 || !T.HasId(volume, T.VOL1) {
        ok := Refuse(iob, T.MIC_TAPE_MARK);
        return;
      }
      var written := m.WriteGuest24Range(field, volume);
      if !written {
        ok := Refuse(iob, T.MIC_LENGTH);
        return;
      }
      lastRead := volume;
      ok := Accept(iob, T.COMPLETION_OK);
    }

    // The four 80-byte records of a label group, until the medium balks.
    method WriteLabels(labels: seq<byte>) returns (r: TapeResult)
      requires Valid() && |labels| == 320
      modifies medium
      ensures Valid() && MediumReply(r, medium.View()) == T.WriteLabels(old(medium.View()), labels, 0)
    {
      var record := 0;
      while record < 4
        invariant 0 <= record <= 4 && Valid()
        invariant T.WriteLabels(medium.View(), labels, record) == T.WriteLabels(old(medium.View()), labels, 0)
      {
        r := medium.WriteBlock(labels[record * 80..record * 80 + 80]);
        if r != Ok {
          return;
        }
        record := record + 1;
      }
      r := Ok;
    }

    method AreStandardHeaders(labels: seq<byte>) returns (ok: bool)
      requires |labels| == 320
      ensures ok <==> T.StandardHeaders(labels)
    {
      for record := 0 to 4
        invariant forall k | 0 <= k < record :: T.HasId(T.Label(labels, k), T.HeaderId(k))
      {
        if !T.HasId(T.Label(labels, record), T.HeaderId(record)) {
          return false;
        }
      }
      return true;
    }

    method WriteHeaderLabels(iob: int, modifier: byte, length: halfword, field: addr24) returns (ok: bool)
      requires Valid()
      modifies this, medium, m`faulted, m.mainStorage
      ensures Valid() && T.Reply(View(), ok) == T.WriteHeaderLabels(old(View()), iob, modifier, length, field)
    {
      if modifier != 3 || length != 320 {
        ok := Refuse(iob, T.MIC_LENGTH);
        return;
      }
      if medium.readOnly {
        ok := Refuse(iob, T.MIC_WRITE_PROTECTED);
        return;
      }
      var read, labels := m.ReadGuest24Range(field, length);
      var standard := false;
      if read {
        standard := AreStandardHeaders(labels);
      }
      if !standard {
        ok := Refuse(iob, T.MIC_INVALID_COMMAND);
        return;
      }
      ok := PlaceHeaders(iob, labels);
    }

    method PlaceHeaders(iob: int, labels: seq<byte>) returns (ok: bool)
      requires Valid() && |labels| == 320
      modifies this, medium, m`faulted, m.mainStorage
      ensures Valid() && T.Reply(View(), ok) == T.PlaceHeaders(old(View()), iob, labels)
    {
      var r, spaced := medium.SpaceFileBackward();
      if (r != Ok && r != TapeMark) || spaced != 1 {
        ok := Refuse(iob, T.MIC_INVALID_COMMAND);
        return;
      }
      r := WriteLabels(labels);
      if r == Ok {
        r := medium.WriteTapeMark();
      }
      if r != Ok {
        ok := Refuse(iob, if r == WriteProtected then T.MIC_WRITE_PROTECTED else T.MIC_INVALID_COMMAND);
        return;
      }
      activeHeaderLabels, reloadDataRead := labels, false;
      ok := Accept(iob, T.COMPLETION_OK);
    }

    // Read-side command 19: the rest of the header-label file and its mark.
    method ReadHeaderGroup(iob: int) returns (ok: bool)
      requires Valid() && activeHeaderLabels == [] && |lastRead| == 80 && T.HasId(lastRead, T.HDR1)
      modifies this, medium, m`faulted, m.mainStorage
      ensures Valid() && T.Reply(View(), ok) == T.FinishDataSet(old(View()), iob, 0)
    {
      hide NextBlock, T.AnswerNotReady, T.Refuse, T.HeaderId;
      activeHeaderLabels := lastRead;
      ghost var start := Drive();
      var remaining := 0;
      while true
        invariant Valid() && m.View() == old(m.View()) && 0 <= remaining
        invariant T.ReadHeaderGroup(Drive(), remaining) == T.ReadHeaderGroup(start, 0)
        decreases |medium.items| - medium.cursor
      {
        var r, record := medium.ReadBlock();
        if r == TapeMark {
          break;
        }
        if r == NotReady {
          ok := AnswerNotReady(iob);
          return;
        }
        if r != Ok || |record| != 80 || remaining >= 3 || !T.HasId(record, T.HeaderId(remaining + 1)) {
          activeHeaderLabels := [];
          ok := Refuse(iob, T.MIC_INVALID_COMMAND);
          return;
        }
        activeHeaderLabels := activeHeaderLabels + record;
        lastRead := record;
        remaining := remaining + 1;
      }
      if |activeHeaderLabels| != 160 && |activeHeaderLabels| != 320 {
        activeHeaderLabels := [];
        ok := Refuse(iob, T.MIC_INVALID_COMMAND);
        return;
      }
      ok := Accept(iob, T.COMPLETION_OK);
    }

    method FinishDataSet(iob: int, modifier: byte) returns (ok: bool)
      requires Valid()
      modifies this, medium, m`faulted, m.mainStorage
      ensures Valid() && T.Reply(View(), ok) == T.FinishDataSet(old(View()), iob, modifier)
    {
      if modifier != 0 {
        ok := Refuse(iob, T.MIC_LENGTH);
        return;
      }
      if activeHeaderLabels == [] && |lastRead| == 80 && T.HasId(lastRead, T.HDR1) {
        ok := ReadHeaderGroup(iob);
        return;
      }
      if |activeHeaderLabels| != 320 {
        ok := Refuse(iob, T.MIC_LENGTH);
        return;
      }
      if medium.readOnly {
        ok := Refuse(iob, T.MIC_WRITE_PROTECTED);
        return;
      }
      var r := medium.WriteTapeMark();
      if r == Ok {
        r := WriteLabels(T.Trailers(activeHeaderLabels));
        if r == Ok {
          r := medium.WriteTapeMark();
        }
      }
      if r != Ok {
        ok := Refuse(iob, if r == WriteProtected then T.MIC_WRITE_PROTECTED else T.MIC_INVALID_COMMAND);
        return;
      }
      ok := Accept(iob, T.COMPLETION_OK);
    }

    method FinalizeVolume(iob: int, modifier: byte) returns (ok: bool)
      requires Valid()
      modifies this, medium, m`faulted, m.mainStorage
      ensures Valid() && T.Reply(View(), ok) == T.FinalizeVolume(old(View()), iob, modifier)
    {
      if modifier != 0 || |activeHeaderLabels| != 320 {
        ok := Refuse(iob, T.MIC_LENGTH);
        return;
      }
      var r := medium.WriteTapeMark();
      if r != Ok {
        ok := Refuse(iob, if r == WriteProtected then T.MIC_WRITE_PROTECTED else T.MIC_INVALID_COMMAND);
        return;
      }
      activeHeaderLabels, reloadDataRead := [], false;
      ok := Accept(iob, T.COMPLETION_OK);
    }

    method Unload(iob: int, modifier: byte) returns (ok: bool)
      requires Valid()
      modifies this, medium, m`faulted, m.mainStorage
      ensures Valid() && T.Reply(View(), ok) == T.Unload(old(View()), iob, modifier)
    {
      if modifier != 0 {
        ok := Refuse(iob, T.MIC_LENGTH);
        return;
      }
      medium.Unload();
      activeHeaderLabels, reloadDataRead := [], false;
      ok := Accept(iob, T.COMPLETION_OK);
    }

    // Rewind and read until a mark follows the wanted HDR1, or the medium
    // has nothing more to give.
    method Search(wanted: seq<byte>) returns (found: bool, labels: seq<byte>, r: TapeResult)
      requires Valid() && |wanted| == 17
      modifies this, medium
      ensures Valid() && activeHeaderLabels == old(activeHeaderLabels)
      ensures T.Search(found, labels, r, Drive())
           == T.SearchDataSet(old(Drive()).(tape := old(medium.View()).(cursor := 0), reload := false), wanted, false,
                              [])
    {
      medium.Rewind();
      reloadDataRead := false;
      ghost var start := Drive();
      var matched := false;
      labels := [];
      while true
        invariant Valid() && activeHeaderLabels == old(activeHeaderLabels)
        invariant T.SearchDataSet(Drive(), wanted, matched, labels) == T.SearchDataSet(start, wanted, false, [])
        decreases |medium.items| - medium.cursor
      {
        var block;
        r, block := medium.ReadBlock();
        if r == Ok {
          lastRead := block;
          if !matched && T.NamesDataSet(block, wanted) {
            matched := true;
          }
          if matched {
            labels := labels + block;
          }
        } else if r == TapeMark {
          if matched {
            found := true;
            return;
          }
        } else {
          found := false;
          return;
        }
      }
    }

    method FindDataSet(iob: int, modifier: byte, length: halfword, field: addr24) returns (ok: bool)
      requires Valid()
      modifies this, medium, m`faulted, m.mainStorage
      ensures Valid() && T.Reply(View(), ok) == T.FindDataSet(old(View()), iob, modifier, length, field)
    {
      if modifier != 3 || length != 0x1E0 {
        ok := Refuse(iob, T.MIC_LENGTH);
        return;
      }
      var read, wanted := m.ReadGuest24Range(field, 17);
      if !read {
        ok := Refuse(iob, T.MIC_INVALID_COMMAND);
        return;
      }
      var found, labels, r := Search(wanted);
      if found {
        var written := false;
        if |labels| <= 0x1E0 {
          written := m.WriteGuest24Range(field, labels);
        }
        if !written {
          ok := Refuse(iob, T.MIC_LENGTH);
          return;
        }
        m.WriteBytes(iob + T.OFF_RETURNED_LENGTH, [High(|labels|), Low(|labels|)]);
        activeHeaderLabels := labels;
        ok := Accept(iob, T.COMPLETION_OK);
        return;
      }
      if r == NotReady {
        ok := AnswerNotReady(iob);
        return;
      }
      m.WriteBytes(iob + T.OFF_MIC_SOURCE, [High(0x7462), Low(0x7462)]);
      m.WriteBytes(iob + T.OFF_MIC, [High(0x1B36), Low(0x1B36)]);
      ok := Accept(iob, T.COMPLETION_END_OF_FILE);
    }

    method ReadData(iob: int, command: byte, length: halfword, field: addr24) returns (ok: bool)
      requires Valid()
      modifies this, medium, m`faulted, m.mainStorage
      ensures Valid() && T.Reply(View(), ok) == T.ReadData(old(View()), iob, command == 0x22, length, field)
    {
      if !T.ValidLength(length) {
        ok := Refuse(iob, T.MIC_LENGTH);
        return;
      }
      var r, block := medium.ReadBlock();
      if r == NotReady {
        ok := AnswerNotReady(iob);
        return;
      }
      if r == TapeMark && command == 0x22 {
        ok := FinishReadDataSet(iob, T.COMPLETION_END_OF_DATA_SET);
        return;
      }
      if r != Ok {
        PostError(m, iob, T.COMPLETION_END_OF_FILE, T.MIC_TAPE_MARK);
        return true;
      }
      if |block| > length {
        var back, spaced := medium.SpaceRecordBackward();
        ok := Refuse(iob, T.MIC_LENGTH);
        return;
      }
      var mapped, extents := m.Guest24Extents(field, |block|);
      if !mapped {
        ok := Refuse(iob, T.MIC_INVALID_COMMAND);
        return;
      }
      var written := m.WriteGuest24Range(field, block);
      if !written {
        ok := Refuse(iob, T.MIC_LENGTH);
        return;
      }
      lastRead := block;
      if command == 0x22 {
        m.WriteBytes(iob + T.OFF_RETURNED_LENGTH, [High(|block|), Low(|block|)]);
      }
      ok := Accept(iob, T.COMPLETION_OK);
    }

    method WriteData(iob: int, length: halfword, field: addr24) returns (ok: bool)
      requires Valid()
      modifies this, medium, m`faulted, m.mainStorage
      ensures Valid() && T.Reply(View(), ok) == T.WriteData(old(View()), iob, length, field)
    {
      if !T.ValidLength(length) {
        ok := Refuse(iob, T.MIC_LENGTH);
        return;
      }
      var mapped, extents := m.Guest24Extents(field, length);
      if !mapped {
        ok := Refuse(iob, T.MIC_INVALID_COMMAND);
        return;
      }
      var read, data := m.ReadGuest24Range(field, length);
      if !read {
        ok := Refuse(iob, T.MIC_LENGTH);
        return;
      }
      var r := medium.WriteBlock(data);
      if r == NotReady {
        ok := AnswerNotReady(iob);
        return;
      }
      if r == WriteProtected {
        ok := Refuse(iob, T.MIC_WRITE_PROTECTED);
        return;
      }
      ok := Accept(iob, T.COMPLETION_OK);
    }

    method Dispatch(iob: int, command: byte, modifier: byte, length: halfword, field: addr24) returns (ok: bool)
      requires Valid()
      modifies this, medium, m`faulted, m.mainStorage
      ensures Valid() && T.Reply(View(), ok) == T.Dispatch(old(View()), iob, command, modifier, length, field)
    {
      if !medium.loaded {
        ok := AnswerNotReady(iob);
        return;
      }
      match command {
        case 0x01 => ok := Activate(iob, modifier);
        case 0x02 => ok := SetSession(iob, modifier);
        case 0x10 => ok := Control(iob, modifier);
        case 0x12 => ok := InitializeStandard(iob, modifier, length, field);
        case 0x13 => ok := ReadVolumeLabels(iob, modifier, length, field);
        case 0x14 => ok := WriteHeaderLabels(iob, modifier, length, field);
        case 0x16 => ok := FindDataSet(iob, modifier, length, field);
        case 0x17 => ok := ReadData(iob, command, length, field);
        case 0x22 => ok := ReadData(iob, command, length, field);
        case 0x18 => ok := WriteData(iob, length, field);
        case 0x21 => ok := WriteData(iob, length, field);
        case 0x19 => ok := FinishDataSet(iob, modifier);
        case 0x1B => ok := FinalizeVolume(iob, modifier);
        case 0x27 => ok := Unload(iob, modifier);
        case _ => ok := Refuse(iob, T.MIC_INVALID_COMMAND);
      }
    }

    method ReadFields(iob: int) returns (command: byte, modifier: byte, length: halfword, field: addr24)
      requires Valid()
      modifies m`faulted
      ensures m.View() == T.ReadFields(old(m.View()), iob)
      ensures command == ByteAt(old(m.View()), iob + T.OFF_COMMAND)
      ensures modifier == ByteAt(old(m.View()), iob + T.OFF_MODIFIER)
      ensures length == HalfAt(old(m.View()), iob + T.OFF_BLOCK_LENGTH)
      ensures field == Addr24At(old(m.View()), iob + T.OFF_DATA_BUFFER)
    {
      command := m.ReadByte(iob + T.OFF_COMMAND);
      modifier := m.ReadByte(iob + T.OFF_MODIFIER);
      length := m.ReadHalf(iob + T.OFF_BLOCK_LENGTH);
      field := m.ReadAddr24(iob + T.OFF_DATA_BUFFER);
      var eye := m.ReadHalf(iob);
    }

    method Execute(iob: int) returns (ok: bool)
      requires Valid()
      modifies this, medium, m`faulted, m.mainStorage
      ensures Valid() && T.Reply(View(), ok) == T.Execute(old(View()), iob)
    {
      var command, modifier, length, field := ReadFields(iob);
      ok := Dispatch(iob, command, modifier, length, field);
    }
  }
}
