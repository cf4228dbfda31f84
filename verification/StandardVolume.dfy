// The cartridge a string of exports leaves, told from the bytes of the
// callers' blocks and buffers alone: which bytes stand at which position, and
// which calls the drive completes on the way.
module StandardVolumes {
  import opened Bytes
  import opened GuestStorage
  import opened TapeMedium
  import opened TapeCommands
  import opened TapeSessions
  import opened TapeReadBack

  // ---- what a call asks for -----------------------------------------------------

  ghost function BlockLength(c: Call): nat
    requires c.Valid()
  {
    (c.guest.mem[c.iob + 16] as int) * 0x100 + c.guest.mem[c.iob + 17]
  }

  // The record is what the call's buffer holds.
  ghost predicate Buffered(c: Call, record: seq<byte>)
    requires c.Valid()
  {
    exists a: seq<int> | |a| == |record| ::
      && BufferAt(c.guest, Number(c.guest.mem, c.iob + 13), a) && Inside(|c.guest.mem|, a)
      && Gather(c.guest.mem, a) == record
  }

  ghost predicate Begins(record: seq<byte>, id: seq<byte>) {
    |record| == 80 && |id| == 4 && record[..4] == id
  }

  // The good record at a position, nothing at a mark or past the end.
  ghost function RecordAt(items: seq<Item>, at: nat): seq<byte> {
    if at < |items| && items[at].Record? && !items[at].error then items[at].bytes else []
  }

  // ---- where a data set lies -------------------------------------------------------

  // The k-th data set begins after the volume label, its mark, and the eleven
  // labels and marks and the blocks of each data set before it.
  ghost function SetStart(sessions: seq<Session>, k: nat): nat
    requires k <= |sessions|
  {
    if k == 0 then 2 else SetStart(sessions, k - 1) + |sessions[k - 1].writes| + 11
  }

  // Header labels, a mark, the blocks, a mark, trailer labels, a mark.
  ghost predicate SetAt(items: seq<Item>, at: nat, s: Session)
    requires s.Valid()
  {
    var n := |s.writes|;
    && at + n + 11 <= |items|
    && Begins(RecordAt(items, at), [0xC8, 0xC4, 0xD9, 0xF1])
    && Begins(RecordAt(items, at + 1), [0xC8, 0xC4, 0xD9, 0xF2])
    && Begins(RecordAt(items, at + 2), [0xE4, 0xC8, 0xD3, 0xF1])
    && Begins(RecordAt(items, at + 3), [0xE4, 0xC8, 0xD3, 0xF2])
    && Buffered(s.header, RecordAt(items, at) + RecordAt(items, at + 1) + RecordAt(items, at + 2)
                          + RecordAt(items, at + 3))
    && items[at + 4] == Mark
    && (forall i | 0 <= i < n :: BlockAt(items, at + 5 + i, s.writes[i]))
    && items[at + n + 5] == Mark
    && Begins(RecordAt(items, at + n + 6), [0xC5, 0xD6, 0xC6, 0xF1])
    && Begins(RecordAt(items, at + n + 7), [0xC5, 0xD6, 0xC6, 0xF2])
    && Begins(RecordAt(items, at + n + 8), [0xE4, 0xE3, 0xD3, 0xF1])
    && Begins(RecordAt(items, at + n + 9), [0xE4, 0xE3, 0xD3, 0xF2])
    && SameFrom3(RecordAt(items, at + n + 6), RecordAt(items, at))
    && SameFrom3(RecordAt(items, at + n + 7), RecordAt(items, at + 1))
    && SameFrom3(RecordAt(items, at + n + 8), RecordAt(items, at + 2))
    && SameFrom3(RecordAt(items, at + n + 9), RecordAt(items, at + 3))
    && items[at + n + 10] == Mark
  }

  ghost predicate SameFrom3(trailer: seq<byte>, header: seq<byte>) {
    |trailer| == 80 && |header| == 80 && trailer[3..] == header[3..]
  }

  ghost predicate BlockAt(items: seq<Item>, at: nat, c: Call)
    requires c.Valid()
  {
    && |RecordAt(items, at)| == BlockLength(c) && 1 <= BlockLength(c) <= 0x7FFF && Buffered(c, RecordAt(items, at))
  }

  // ---- calls, read back from their blocks ------------------------------------------

  lemma BlockFields(c: Call)
    requires c.Valid()
    ensures Command(c) == c.guest.mem[c.iob + 10] && Modifier(c) == c.guest.mem[c.iob + 11]
    ensures Length(c) == BlockLength(c) && Field(c) == Number(c.guest.mem, c.iob + 13)
  {
    NumberAt(c.guest, c.iob + 13);
    assert c.guest.mem[c.iob + 16..c.iob + 18] == [c.guest.mem[c.iob + 16], c.guest.mem[c.iob + 17]];
  }

  lemma PayloadBuffered(c: Call, length: nat)
    requires c.Valid() && length > 0 && ReadRange(c.guest, Field(c), length).ok
    ensures Buffered(c, Payload(c, length))
  {
    hide ReadRange, BufferAt, Gather, Inside, Number;
    BlockFields(c);
    ReadIsBuffer(c.guest, Field(c), length);
  }

  // ---- the calls that write ----------------------------------------------------------

  lemma HeaderBuffered(d: Drive, c: Call)
    requires Posts(d, c, 0x14, 0)
    ensures Buffered(c, Payload(c, 320)) && |Payload(c, 320)| == 320
  {
    hide Buffered, ReadRange, PlaceHeaders, Issue;
    Dispatched(d, c);
    assert ReadRange(c.guest, Field(c), 320).ok by {
      HeaderRead(World(d, c.guest), c.iob, Modifier(c), Length(c), Field(c));
    }
    PayloadBuffered(c, 320);
  }

  lemma HeaderRead(w: World, iob: int, modifier: byte, length: halfword, field: addr24)
    requires w.Valid() && InRange(|w.guest.mem|, iob, 0x22)
    requires WriteHeaderLabels(w, iob, modifier, length, field).world.guest.mem[iob + 6] == 0x40
    ensures ReadRange(w.guest, field, 320).ok
  {
    hide PlaceHeaders;
  }

  lemma BlockBuffered(d: Drive, c: Call)
    requires Posts(d, c, 0x21, 0) || Posts(d, c, 0x18, 0)
    ensures 1 <= BlockLength(c) <= 0x7FFF && Length(c) == BlockLength(c)
    ensures |Payload(c, Length(c))| == BlockLength(c) && Buffered(c, Payload(c, Length(c)))
  {
    hide Buffered, ReadRange, Issue;
    Dispatched(d, c);
    BlockFields(c);
    assert ValidLength(Length(c)) && ReadRange(c.guest, Field(c), Length(c)).ok by {
      BlockRead(World(d, c.guest), c.iob, Length(c), Field(c));
    }
    PayloadBuffered(c, Length(c));
  }

  lemma BlockRead(w: World, iob: int, length: halfword, field: addr24)
    requires w.Valid() && InRange(|w.guest.mem|, iob, 0x22)
    requires WriteData(w, iob, length, field).world.guest.mem[iob + 6] == 0x40
    ensures ValidLength(length) && ReadRange(w.guest, field, length).ok
  {
  }

  lemma VolumeBuffered(d: Drive, c: Call)
    requires Posts(d, c, 0x12, 0)
    ensures Buffered(c, Payload(c, 80))
  {
    hide Buffered, ReadRange, Issue;
    Dispatched(d, c);
    assert ReadRange(c.guest, Field(c), 80).ok by {
      VolumeRead(World(d, c.guest), c.iob, Modifier(c), Length(c), Field(c));
    }
    PayloadBuffered(c, 80);
  }

  lemma VolumeRead(w: World, iob: int, modifier: byte, length: halfword, field: addr24)
    requires w.Valid() && InRange(|w.guest.mem|, iob, 0x22)
    requires InitializeStandard(w, iob, modifier, length, field).world.guest.mem[iob + 6] == 0x40
    ensures ReadRange(w.guest, field, 80).ok
  {
    hide HasId;
  }

  // ---- the labels, byte by byte --------------------------------------------------------

  lemma HeaderBytes(labels: seq<byte>)
    requires StandardHeaders(labels)
    ensures Begins(Label(labels, 0), [0xC8, 0xC4, 0xD9, 0xF1]) && Begins(Label(labels, 1), [0xC8, 0xC4, 0xD9, 0xF2])
    ensures Begins(Label(labels, 2), [0xE4, 0xC8, 0xD3, 0xF1]) && Begins(Label(labels, 3), [0xE4, 0xC8, 0xD3, 0xF2])
    ensures Label(labels, 0) + Label(labels, 1) + Label(labels, 2) + Label(labels, 3) == labels
  {
    assert HasId(Label(labels, 0), HeaderId(0)) && HasId(Label(labels, 1), HeaderId(1));
    assert HasId(Label(labels, 2), HeaderId(2)) && HasId(Label(labels, 3), HeaderId(3));
  }

  lemma TrailerBytes(labels: seq<byte>)
    requires StandardHeaders(labels)
    ensures var t := Trailers(labels);
            && Begins(Label(t, 0), [0xC5, 0xD6, 0xC6, 0xF1]) && Begins(Label(t, 1), [0xC5, 0xD6, 0xC6, 0xF2])
            && Begins(Label(t, 2), [0xE4, 0xE3, 0xD3, 0xF1]) && Begins(Label(t, 3), [0xE4, 0xE3, 0xD3, 0xF2])
            && SameFrom3(Label(t, 0), Label(labels, 0)) && SameFrom3(Label(t, 1), Label(labels, 1))
            && SameFrom3(Label(t, 2), Label(labels, 2)) && SameFrom3(Label(t, 3), Label(labels, 3))
  {
    HeaderBytes(labels);
    TrailerGroups(labels);
    hide Trailers, StandardHeaders, Label;
    FourthByte(Label(labels, 0), Label(Trailers(labels), 0), [0xC5, 0xD6, 0xC6]);
    FourthByte(Label(labels, 1), Label(Trailers(labels), 1), [0xC5, 0xD6, 0xC6]);
    FourthByte(Label(labels, 2), Label(Trailers(labels), 2), [0xE4, 0xE3, 0xD3]);
    FourthByte(Label(labels, 3), Label(Trailers(labels), 3), [0xE4, 0xE3, 0xD3]);
  }

  lemma TrailerGroups(labels: seq<byte>)
    requires |labels| == 320
    ensures Label(Trailers(labels), 0) == [0xC5, 0xD6, 0xC6] + Label(labels, 0)[3..]
    ensures Label(Trailers(labels), 1) == [0xC5, 0xD6, 0xC6] + Label(labels, 1)[3..]
    ensures Label(Trailers(labels), 2) == [0xE4, 0xE3, 0xD3] + Label(labels, 2)[3..]
    ensures Label(Trailers(labels), 3) == [0xE4, 0xE3, 0xD3] + Label(labels, 3)[3..]
  {
    var e: seq<byte>, u: seq<byte> := [0xC5, 0xD6, 0xC6], [0xE4, 0xE3, 0xD3];
    TwoByTwo(e, labels[3..80], labels[83..160], u, labels[163..240], labels[243..320]);
    hide Label;
    FourGroups(e + labels[3..80], e + labels[83..160], u + labels[163..240], u + labels[243..320]);
    LabelTail(labels, 0);
    LabelTail(labels, 1);
    LabelTail(labels, 2);
    LabelTail(labels, 3);
  }

  lemma TwoByTwo<T>(e: seq<T>, p: seq<T>, q: seq<T>, u: seq<T>, r: seq<T>, s: seq<T>)
    ensures e + p + e + q + u + r + u + s == (e + p) + (e + q) + (u + r) + (u + s)
  {
  }

  lemma LabelTail(labels: seq<byte>, j: nat)
    requires |labels| == 320 && j < 4
    ensures Label(labels, j)[3..] == labels[j * 80 + 3..j * 80 + 80]
  {
  }

  lemma FourGroups(a: seq<byte>, b: seq<byte>, c: seq<byte>, d: seq<byte>)
    requires |a| == |b| == |c| == |d| == 80
    ensures Label(a + b + c + d, 0) == a && Label(a + b + c + d, 1) == b
    ensures Label(a + b + c + d, 2) == c && Label(a + b + c + d, 3) == d
  {
  }

  lemma FourthByte(header: seq<byte>, trailer: seq<byte>, id: seq<byte>)
    requires |header| == 80 && |id| == 3 && trailer == id + header[3..]
    ensures SameFrom3(trailer, header) && trailer[..4] == id + [header[3]]
  {
  }

  // ---- the whole volume --------------------------------------------------------------

  // A data set that lies on the volume as its session wrote it.
  lemma SetIsLiteral(items: seq<Item>, at: nat, s: Session)
    requires s.Valid() && Standard(Exported(s)) && Lies(items, at, Exported(s))
    requires Buffered(s.header, Payload(s.header, 320))
    requires forall i | 0 <= i < |s.writes| ::
               && 1 <= BlockLength(s.writes[i]) <= 0x7FFF
               && |Payload(s.writes[i], Length(s.writes[i]))| == BlockLength(s.writes[i])
               && Buffered(s.writes[i], Payload(s.writes[i], Length(s.writes[i])))
    ensures SetAt(items, at, s)
  {
    hide Buffered, Payload, Trailers, StandardHeaders, Label, SameFrom3, Begins;
    var labels, n := Payload(s.header, 320), |s.writes|;
    HeaderBytes(labels);
    TrailerBytes(labels);
    LabelsAt(items, at, labels);
    LabelsAt(items, at + n + 6, Trailers(labels));
    forall i | 0 <= i < n
      ensures BlockAt(items, at + 5 + i, s.writes[i])
    {
      assert items[at + 5 + i] == Good(Payload(s.writes[i], Length(s.writes[i])));
    }
  }

  lemma LabelsAt(items: seq<Item>, at: nat, labels: seq<byte>)
    requires |labels| == 320 && at + 4 <= |items|
    requires forall j | at <= j < at + 4 :: items[j] == Good(Label(labels, j - at))
    ensures RecordAt(items, at) == Label(labels, 0) && RecordAt(items, at + 1) == Label(labels, 1)
    ensures RecordAt(items, at + 2) == Label(labels, 2) && RecordAt(items, at + 3) == Label(labels, 3)
  {
    hide Label;
    assert items[at] == Good(Label(labels, 0)) && items[at + 1] == Good(Label(labels, 1));
  }

  lemma ExportedCount(s: Session)
    requires s.Valid()
    ensures |Exported(s).blocks| == |s.writes|
  {
  }

  lemma {:induction false} StartsAgree(sessions: seq<Session>, k: nat)
    requires AllValid(sessions) && AllStandard(AllExported(sessions)) && k <= |sessions|
    ensures Start(AllExported(sessions), k) == SetStart(sessions, k)
  {
    if k == 0 {
      assert Start(AllExported(sessions), 0) == 2;
    } else {
      hide Start, Exported, AllExported, AllStandard, Lies, Volume;
      StartsAgree(sessions, k - 1);
      ExportedCount(sessions[k - 1]);
      SetLies([], AllExported(sessions), k - 1);
      ExportedAt(sessions, k - 1);
    }
  }

  // Every session of a posted history was posted where it stood.
  lemma {:induction false} SessionPosted(d: Drive, sessions: seq<Session>, k: nat)
    requires d.tape.Valid() && AllValid(sessions) && SessionsPost(d, sessions) && k < |sessions|
    ensures exists e: Drive :: e.tape.Valid() && SessionPosts(e, sessions[k])
    decreases |sessions|
  {
    hide SessionPosts, AfterSession;
    var n := |sessions| - 1;
    if k < n {
      SessionPosted(d, sessions[..n], k);
      assert sessions[..n][k] == sessions[k];
    }
  }

  lemma SessionBuffered(d: Drive, s: Session)
    requires d.tape.Valid() && s.Valid() && SessionPosts(d, s)
    ensures Buffered(s.header, Payload(s.header, 320))
    ensures forall i | 0 <= i < |s.writes| ::
              && 1 <= BlockLength(s.writes[i]) <= 0x7FFF
              && |Payload(s.writes[i], Length(s.writes[i]))| == BlockLength(s.writes[i])
              && Buffered(s.writes[i], Payload(s.writes[i], Length(s.writes[i])))
  {
    hide Posts, Buffered, Payload, Issue, BlockLength;
    var positioned := Issue(d, s.find).world.drive;
    HeaderBuffered(positioned, s.header);
    var labelled := Issue(positioned, s.header).world.drive;
    forall i | 0 <= i < |s.writes|
      ensures && 1 <= BlockLength(s.writes[i]) <= 0x7FFF
              && |Payload(s.writes[i], Length(s.writes[i]))| == BlockLength(s.writes[i])
              && Buffered(s.writes[i], Payload(s.writes[i], Length(s.writes[i])))
    {
      BlockBuffered(After(labelled, s.writes[..i]), s.writes[i]);
    }
  }

  // After command 12 and any number of completed exports: the VOL1 record and
  // a mark, then every data set where the lengths of those before it put it,
  // and one closing mark.
  lemma VolumeIsStandard(d: Drive, init: Call, sessions: seq<Session>)
    requires Posts(d, init, 0x12, 0)
    requires AllValid(sessions) && SessionsPost(Issue(d, init).world.drive, sessions)
    ensures var items := AfterSessions(Issue(d, init).world.drive, sessions).tape.items;
            && |items| == SetStart(sessions, |sessions|) + 1
            && Begins(RecordAt(items, 0), [0xE5, 0xD6, 0xD3, 0xF1]) && Buffered(init, RecordAt(items, 0))
            && items[1] == Mark && items[|items| - 1] == Mark
            && forall k | 0 <= k < |sessions| :: SetAt(items, SetStart(sessions, k), sessions[k])
  {
    hide Issue, Payload, SessionPosts, AfterSession, Exported, Buffered, SetAt, SetStart, EncodeAll, Lies,
         SessionsPost;
    var start, vol, sets := Issue(d, init).world.drive, Payload(init, 80), AllExported(sessions);
    VolumeHistory(d, init, sessions);
    VolumeBuffered(d, init);
    var items := AfterSessions(start, sessions).tape.items;
    assert items == Volume(vol, sets);
    StartsAgree(sessions, |sessions|);
    assert sets[..|sets|] == sets;
    forall k | 0 <= k < |sessions|
      ensures SetAt(items, SetStart(sessions, k), sessions[k])
    {
      ExportedAt(sessions, k);
      StartsAgree(sessions, k);
      SetLies(vol, sets, k);
      SessionPosted(start, sessions, k);
      var e: Drive :| e.tape.Valid() && SessionPosts(e, sessions[k]);
      SessionBuffered(e, sessions[k]);
      SetIsLiteral(items, SetStart(sessions, k), sessions[k]);
    }
  }

  // ---- the trailers a read accepts ------------------------------------------------------

  // The trailer group a retained header group expects: the same record from
  // its fourth byte on, but for the block count at 54 of the first, and any
  // user trailers of the right name.
  ghost predicate GroupAt(items: seq<Item>, at: nat, labels: seq<byte>)
    requires |labels| == 320
  {
    && Begins(RecordAt(items, at), [0xC5, 0xD6, 0xC6, 0xF1])
    && RecordAt(items, at)[4..54] == labels[4..54] && RecordAt(items, at)[60..] == labels[60..80]
    && Begins(RecordAt(items, at + 1), [0xC5, 0xD6, 0xC6, 0xF2]) && RecordAt(items, at + 1)[4..] == labels[84..160]
    && Begins(RecordAt(items, at + 2), [0xE4, 0xE3, 0xD3, 0xF1])
    && Begins(RecordAt(items, at + 3), [0xE4, 0xE3, 0xD3, 0xF2])
  }

  ghost predicate TrailerAt(items: seq<Item>, at: nat, labels: seq<byte>, record: nat)
    requires |labels| == 320 && record < 4
  {
    at < |items| && items[at].Record? && !items[at].error && TrailerMatches(labels, record, items[at].bytes)
  }

  ghost predicate TrailersFrom(items: seq<Item>, at: nat, labels: seq<byte>, record: nat)
    requires |labels| == 320 && record <= 4
    decreases 4 - record
  {
    record == 4 || (TrailerAt(items, at, labels, record) && TrailersFrom(items, at + 1, labels, record + 1))
  }

  lemma {:induction false} TrailersReadIff(d: Drive, expected: seq<byte>, record: nat)
    requires d.tape.Valid() && d.tape.loaded && |expected| == 320 && record <= 4
    ensures ReadTrailers(d, expected, record).Proceed?
       <==> TrailersFrom(d.tape.items, d.tape.cursor, expected, record)
    ensures var r := ReadTrailers(d, expected, record);
            r.Proceed? ==> r.drive.tape == d.tape.(cursor := d.tape.cursor + 4 - record) && r.drive.active == d.active
    decreases 4 - record
  {
    hide TrailerMatches;
    if record < 4 {
      var b := NextBlock(d.tape);
      assert TrailerAt(d.tape.items, d.tape.cursor, expected, record)
        <==> b.result == Ok && TrailerMatches(expected, record, b.data);
      if b.result == Ok && TrailerMatches(expected, record, b.data) {
        TrailersReadIff(d.(tape := b.tape, lastRead := b.data), expected, record + 1);
      }
    }
  }

  lemma TrailerIs(items: seq<Item>, at: nat, labels: seq<byte>, record: nat)
    requires StandardHeaders(labels) && record < 4
    ensures TrailerAt(items, at, Trailers(labels), record)
       <==> var r := RecordAt(items, at);
            if record == 0 then
              Begins(r, [0xC5, 0xD6, 0xC6, 0xF1]) && r[4..54] == labels[4..54] && r[60..] == labels[60..80]
            else if record == 1 then Begins(r, [0xC5, 0xD6, 0xC6, 0xF2]) && r[4..] == labels[84..160]
            else Begins(r, [0xE4, 0xE3, 0xD3, if record == 2 then 0xF1 else 0xF2])
  {
    TrailerBytes(labels);
    var e, h := Label(Trailers(labels), record), Label(labels, record);
    assert SameFrom3(e, h);
    hide Trailers, StandardHeaders;
    assert e[4..] == e[3..][1..] && h[4..] == h[3..][1..];
    assert e[4..54] == e[4..][..50] && h[4..54] == h[4..][..50] && e[60..] == e[4..][56..] && h[60..] == h[4..][56..];
    if record == 0 {
      assert h[4..54] == labels[4..54] && h[60..] == labels[60..80];
    } else if record == 1 {
      assert h[4..] == labels[84..160];
    }
  }

  // At the mark after its data a labelled read ends the data set exactly when
  // such a group follows and a mark closes it.
  lemma EndPostsIff(d: Drive, c: Call)
    requires d.tape.Valid() && d.tape.loaded && StandardHeaders(d.active)
    requires c.Valid() && c.guest.mem[c.iob + 10] == 0x22 && 1 <= BlockLength(c) <= 0x7FFF
    requires d.tape.cursor < |d.tape.items| && d.tape.items[d.tape.cursor] == Mark
    ensures Posts(d, c, 0x22, 2)
       <==> && GroupAt(d.tape.items, d.tape.cursor + 1, d.active)
            && d.tape.cursor + 5 < |d.tape.items| && d.tape.items[d.tape.cursor + 5] == Mark
  {
    hide Issue, Trailers, ReadTrailers, TrailerAt, Begins, StandardHeaders, FinishReadDataSet;
    BlockFields(c);
    Dispatched(d, c);
    assert |d.active| == 320 by {
      HeadersLong(d.active);
    }
    var next := WithTape(d, d.tape.(cursor := d.tape.cursor + 1));
    TrailersReadIff(next, Trailers(d.active), 0);
    var items, at := d.tape.items, d.tape.cursor + 1;
    TrailerIs(items, at, d.active, 0);
    TrailerIs(items, at + 1, d.active, 1);
    TrailerIs(items, at + 2, d.active, 2);
    TrailerIs(items, at + 3, d.active, 3);
    FourTrailers(items, at, Trailers(d.active));
    assert Issue(d, c) == FinishReadDataSet(World(next, c.guest), c.iob, 2) by {
      ReadsMark(d, c);
    }
    ClosingMark(World(next, c.guest), c.iob);
  }

  lemma HeadersLong(labels: seq<byte>)
    requires StandardHeaders(labels)
    ensures |labels| == 320
  {
  }

  lemma FourTrailers(items: seq<Item>, at: nat, expected: seq<byte>)
    requires |expected| == 320
    ensures TrailersFrom(items, at, expected, 0)
       <==> && TrailerAt(items, at, expected, 0) && TrailerAt(items, at + 1, expected, 1)
            && TrailerAt(items, at + 2, expected, 2) && TrailerAt(items, at + 3, expected, 3)
  {
    hide TrailerAt;
    assert TrailersFrom(items, at + 2, expected, 2)
      <==> TrailerAt(items, at + 2, expected, 2) && TrailerAt(items, at + 3, expected, 3);
  }

  lemma ReadsMark(d: Drive, c: Call)
    requires d.tape.Valid() && d.tape.loaded && c.Valid() && Command(c) == 0x22 && ValidLength(Length(c))
    requires d.tape.cursor < |d.tape.items| && d.tape.items[d.tape.cursor] == Mark
    ensures Issue(d, c)
         == FinishReadDataSet(World(WithTape(d, d.tape.(cursor := d.tape.cursor + 1)), c.guest), c.iob, 2)
  {
    hide Issue, FinishReadDataSet;
    Dispatched(d, c);
  }

  lemma ClosingMark(w: World, iob: int)
    requires w.Valid() && w.drive.tape.loaded && InRange(|w.guest.mem|, iob, 0x22) && |w.drive.active| == 320
    ensures var r, p := FinishReadDataSet(w, iob, 2), ReadTrailers(w.drive, Trailers(w.drive.active), 0);
            && iob + 6 < |r.world.guest.mem|
            && (r.world.guest.mem[iob + 6] == 0x42
                <==> && p.Proceed? && p.drive.tape.loaded && p.drive.tape.cursor < |p.drive.tape.items|
                     && p.drive.tape.items[p.drive.tape.cursor] == Mark)
  {
    hide ReadTrailers, Trailers, Complete;
  }
}
