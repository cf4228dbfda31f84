// The cartridge behind the tape drive: a line of records and tape marks under
// a head.  This is the SIMH container's behaviour once its index is loaded.
module TapeMedium {
  import opened Bytes

  datatype Item = Mark | Record(bytes: seq<byte>, error: bool)

  datatype TapeResult =
    | Ok | TapeMark | EndOfData | BeginningOfTape | WriteProtected | NotReady | RecordError | InvalidArgument

  datatype Tape = Tape(items: seq<Item>, cursor: nat, loaded: bool, readOnly: bool) {
    ghost predicate Valid() {
      cursor <= |items|
    }
  }

  datatype ReadReply = ReadReply(result: TapeResult, data: seq<byte>, tape: Tape)
  datatype MediumReply = MediumReply(result: TapeResult, tape: Tape)

  // The head crosses exactly one item, whatever it is.
  function NextBlock(t: Tape): (r: ReadReply)
    requires t.Valid()
    ensures r.tape.Valid() && r.tape.items == t.items
    ensures r.tape.loaded == t.loaded && r.tape.readOnly == t.readOnly
    ensures r.result in {Ok, TapeMark} ==> r.tape.cursor == t.cursor + 1
  {
    if !t.loaded then ReadReply(NotReady, [], t)
    else if t.cursor >= |t.items| then ReadReply(EndOfData, [], t)
    else
      var next := t.(cursor := t.cursor + 1);
      match t.items[t.cursor]
      case Mark => ReadReply(TapeMark, [], next)
      case Record(bytes, error) => ReadReply(if error then RecordError else Ok, bytes, next)
  }

  // Append-forward: whatever lay ahead of the head is gone.
  function Append(t: Tape, item: Item): (r: Tape)
    requires t.Valid()
    ensures r.Valid()
  {
    t.(items := t.items[..t.cursor] + [item], cursor := t.cursor + 1)
  }

  function AppendBlock(t: Tape, data: seq<byte>): (r: MediumReply)
    requires t.Valid()
    ensures r.tape.Valid()
  {
    if !t.loaded then MediumReply(NotReady, t)
    else if t.readOnly then MediumReply(WriteProtected, t)
    else if |data| < 1 || |data| > 0xFF_FFFF then MediumReply(InvalidArgument, t)
    else MediumReply(Ok, Append(t, Record(data, false)))
  }

  function AppendMark(t: Tape): (r: MediumReply)
    requires t.Valid()
    ensures r.tape.Valid()
  {
    if !t.loaded then MediumReply(NotReady, t)
    else if t.readOnly then MediumReply(WriteProtected, t)
    else MediumReply(Ok, Append(t, Mark))
  }

  function StartOfFile(items: seq<Item>, cursor: nat): (r: nat)
    requires cursor <= |items|
    ensures r <= cursor
    ensures forall i | r <= i < cursor :: items[i] != Mark
    ensures r == 0 || items[r - 1] == Mark
  {
    if cursor > 0 && items[cursor - 1] != Mark then StartOfFile(items, cursor - 1) else cursor
  }

  datatype SpaceReply = SpaceReply(result: TapeResult, spaced: nat, tape: Tape)

  // Space one file backward: over the mark just behind the head, if there is
  // one, and then to the start of the file before it.
  function BackFile(t: Tape): (r: SpaceReply)
    requires t.Valid()
    ensures r.tape.Valid() && r.tape.items == t.items
  {
    if !t.loaded then SpaceReply(NotReady, 0, t)
    else if t.cursor == 0 then SpaceReply(BeginningOfTape, 0, t)
    else
      var c := if t.items[t.cursor - 1] == Mark then t.cursor - 1 else t.cursor;
      SpaceReply(Ok, 1, t.(cursor := StartOfFile(t.items, c)))
  }

  // The head stops just before the mark it crossed exactly when nothing was
  // recorded between that mark and the one before it, or the load point.
  lemma BackFileMeetsMark(t: Tape)
    requires t.Valid() && t.loaded && t.cursor > 0
    ensures var r := BackFile(t).tape.cursor;
            && (r < t.cursor && t.items[r] == Mark
                <==> t.items[t.cursor - 1] == Mark && (t.cursor == 1 || t.items[t.cursor - 2] == Mark))
            && ((exists i | r <= i < t.cursor :: t.items[i] == Mark) <==> t.items[t.cursor - 1] == Mark)
  {
    var c := if t.items[t.cursor - 1] == Mark then t.cursor - 1 else t.cursor;
    var r := StartOfFile(t.items, c);
    if r < c {
      assert t.items[r] != Mark && t.items[c - 1] != Mark;
    }
  }

  // Behind one record and its mark the head goes back over both, to the load
  // point, where no mark is ahead of it.
  lemma BackFileOvershoots(bytes: seq<byte>, readOnly: bool)
    ensures var t := Tape([Record(bytes, false), Mark], 2, true, readOnly);
            BackFile(t) == SpaceReply(Ok, 1, t.(cursor := 0)) && t.items[0] != Mark
  {
    var items := [Record(bytes, false), Mark];
    assert StartOfFile(items, 1) == StartOfFile(items, 0) == 0;
  }

  function BackRecord(t: Tape): (r: SpaceReply)
    requires t.Valid()
    ensures r.tape.Valid() && r.tape.items == t.items
  {
    if !t.loaded then SpaceReply(NotReady, 0, t)
    else if t.cursor == 0 then SpaceReply(BeginningOfTape, 0, t)
    else if t.items[t.cursor - 1] == Mark then SpaceReply(TapeMark, 0, t)
    else SpaceReply(Ok, 1, t.(cursor := t.cursor - 1))
  }

  class SimhTape {
    var items: seq<Item>
    var cursor: nat
    var loaded: bool
    const readOnly: bool

    ghost predicate Valid()
      reads this
    {
      cursor <= |items|
    }

    ghost function View(): (t: Tape)
      reads this
      ensures Valid() <==> t.Valid()
    {
      Tape(items, cursor, loaded, readOnly)
    }

    constructor (items: seq<Item>, readOnly: bool)
      ensures Valid() && View() == Tape(items, 0, false, readOnly)
    {
      this.items, this.cursor, this.loaded, this.readOnly := items, 0, false, readOnly;
    }

    method Load()
      modifies this
      ensures Valid() && View() == old(View()).(cursor := 0, loaded := true)
    {
      cursor, loaded := 0, true;
    }

    method Unload()
      modifies this
      ensures View() == old(View()).(loaded := false)
    {
      loaded := false;
    }

    method Rewind()
      modifies this
      ensures Valid() && View() == old(View()).(cursor := 0)
    {
      cursor := 0;
    }

    method ReadBlock() returns (result: TapeResult, data: seq<byte>)
      requires Valid()
      modifies this
      ensures Valid() && ReadReply(result, data, View()) == NextBlock(old(View()))
    {
      if !loaded {
        return NotReady, [];
      }
      if cursor >= |items| {
        return EndOfData, [];
      }
      var item := items[cursor];
      cursor := cursor + 1;
      if item == Mark {
        return TapeMark, [];
      }
      return if item.error then RecordError else Ok, item.bytes;
    }

    method WriteBlock(data: seq<byte>) returns (result: TapeResult)
      requires Valid()
      modifies this
      ensures Valid() && MediumReply(result, View()) == AppendBlock(old(View()), data)
    {
      if !loaded {
        return NotReady;
      }
      if readOnly {
        return WriteProtected;
      }
      if |data| < 1 || |data| > 0xFF_FFFF {
        return InvalidArgument;
      }
      TruncateForward();
      items := items + [Record(data, false)];
      cursor := |items|;
      return Ok;
    }

    method WriteTapeMark() returns (result: TapeResult)
      requires Valid()
      modifies this
      ensures Valid() && MediumReply(result, View()) == AppendMark(old(View()))
    {
      if !loaded {
        return NotReady;
      }
      if readOnly {
        return WriteProtected;
      }
      TruncateForward();
      items := items + [Mark];
      cursor := |items|;
      return Ok;
    }

    method TruncateForward()
      requires Valid()
      modifies this
      ensures Valid() && View() == old(View()).(items := old(items)[..old(cursor)])
    {
      if cursor < |items| {
        items := items[..cursor];
      }
    }

    method SpaceFileBackward() returns (result: TapeResult, spaced: nat)
      requires Valid()
      modifies this
      ensures Valid() && SpaceReply(result, spaced, View()) == BackFile(old(View()))
    {
      if !loaded {
        return NotReady, 0;
      }
      if cursor == 0 {
        return BeginningOfTape, 0;
      }
      if items[cursor - 1] == Mark {
        cursor := cursor - 1;
      }
      ghost var start := cursor;
      while cursor > 0 && items[cursor - 1] != Mark
        invariant loaded == old(loaded) && items == old(items)
        invariant cursor <= start <= |items|
        invariant StartOfFile(items, cursor) == StartOfFile(items, start)
      {
        cursor := cursor - 1;
      }
      return Ok, 1;
    }

    method SpaceRecordBackward() returns (result: TapeResult, spaced: nat)
      requires Valid()
      modifies this
      ensures Valid() && SpaceReply(result, spaced, View()) == BackRecord(old(View()))
    {
      if !loaded {
        return NotReady, 0;
      }
      if cursor == 0 {
        return BeginningOfTape, 0;
      }
      if items[cursor - 1] == Mark {
        return TapeMark, 0;
      }
      cursor := cursor - 1;
      return Ok, 1;
    }
  }
}
