// What a retained request is answered with: every way an event mask turns to 40,
// every way a request leaves its table, and what becomes of the status.
module Completions {
  import opened Bytes
  import opened GuestStorage
  import opened SlotMaps
  import opened Terminals
  import opened Controllers
  import opened RetainedIo
  import B = BufferCapture

  // ---- what the guest sees in its event mask ----------------------------------------------------

  lemma PostedByte(g: Guest, iob: int, code: nat)
    requires InRange(|g.mem|, iob, 0x13) && code < 0x10
    ensures GuestStorage.Complete(g, iob, code).mem[iob + OFF_COMPLETION] == 0x40 + code
  {
  }

  lemma ArmedByte(g: Guest, iob: int)
    requires InRange(|g.mem|, iob, 0x13)
    ensures Arm(g, iob).mem[iob + OFF_COMPLETION] < 0x10
  {
  }

  // A class-C1 request posts 40 exactly when a status is there for its unit
  // and unit block; otherwise it is armed and kept.
  lemma ResponsePostsIff(c: Controller, iob: int, unit: int)
    requires Inv(c) && unit in c.stations && InRange(|c.guest.mem|, iob, 0x13)
    ensures var d := Respond(c, iob, unit);
            && (d.guest.mem[iob + OFF_COMPLETION] == 0x40 <==> StatusFor(c, unit, UnitBlock(c.guest, iob)))
            && (d.guest.mem[iob + OFF_COMPLETION] != 0x40 ==>
                  d.log == c.log && Lookup(d.waits, iob) == Some(Waiting(unit, UnitBlock(c.guest, iob))))
  {
    hide Set, Erase, Arm, UnitBlock, Valid, Lookup, ImportStatus, GuestStorage.Complete, Linear, Causal;
    var block := UnitBlock(c.guest, iob);
    if StatusFor(c, unit, block) {
      var bytes := Lookup(c.status, unit).value.bytes;
      ImportSize(c.guest, iob, bytes);
      PostedByte(ImportStatus(c.guest, iob, bytes), iob, 0);
    } else {
      ArmedByte(c.guest, iob);
      SetLookup(c.waits, iob, Waiting(unit, block), iob);
    }
  }

  lemma ImportSize(g: Guest, iob: int, bytes: seq<byte>)
    ensures |ImportStatus(g, iob, bytes).mem| == |g.mem|
  {
  }

  // A new PUT-with-invite with a usable buffer posts 40 at once exactly when
  // the transport refused the record: the one answer no AID stands behind.
  lemma UnsentPutPosts(c: Controller, iob: int, unit: int, net: Transport)
    requires Inv(c) && unit in c.stations && InRange(|c.guest.mem|, iob, 0x13)
    requires var field, length := Addr24At(c.guest, iob + OFF_BUFFER), HalfAt(c.guest, iob + OFF_LENGTH);
             length > 0 && B.CaptureAddresses(c.guest, field, length).Some?
    ensures var d := OutputData(c, iob, unit, true, net);
            && (d.guest.mem[iob + OFF_COMPLETION] == 0x40 <==> !net.sent)
            && (net.sent ==> Lookup(d.puts, iob) == Some(Waiting(unit, UnitBlock(Arm(c.guest, iob), iob))))
            && d.log == c.log
  {
    hide Set, Arm, UnitBlock, Valid, Lookup, GuestStorage.Complete, Transmit, Gather, Linear, Causal;
    var field, length := Addr24At(c.guest, iob + OFF_BUFFER), HalfAt(c.guest, iob + OFF_LENGTH);
    var source := B.CaptureAddresses(c.guest, field, length).value;
    B.CapturedInside(c.guest, field, length);
    TransmitKeeps(c.stations[unit].terminal, Gather(c.guest.mem, source), true, net);
    PostedByte(c.guest, iob, 0);
    ArmedByte(c.guest, iob);
    SetLookup(c.puts, iob, Waiting(unit, UnitBlock(Arm(c.guest, iob), iob)), iob);
  }

  // Issuing a read posts nothing unless its buffer is refused.
  lemma ReadIssuePosts(c: Controller, iob: int, unit: int)
    requires Inv(c) && unit in c.stations && InRange(|c.guest.mem|, iob, 0x13)
    ensures var d := RequestFields(c, iob, unit);
            && d.log == c.log
            && (d.guest == c.guest || d.guest.mem[iob + OFF_COMPLETION] == 0x44)
            && (d.guest == c.guest ==> Lookup(d.inputs, iob).Some? || d == Controllers.Complete(c, iob, 4))
  {
    hide Set, UnitBlock, Valid, Lookup, GuestStorage.Complete, Displacement, Linear, Causal;
    PostedByte(c.guest, iob, 4);
    var field, capacity := Addr24At(c.guest, iob + OFF_BUFFER), HalfAt(c.guest, iob + OFF_LENGTH);
    var destination := B.CaptureAddresses(c.guest, field, capacity);
    if Lookup(c.inputs, iob).None? && destination.Some? {
      SetLookup(c.inputs, iob, PendingRead(unit, UnitBlock(c.guest, iob), ByteAt(c.guest, iob + OFF_COMMAND), field,
                                           destination.value, capacity, Displacement(c, iob, unit)), iob);
    }
  }

  lemma StatusSize(g: Guest, iob: int, raw: seq<byte>)
    requires |raw| >= 3
    ensures |ReadStatus(g, iob, raw).mem| == |g.mem|
  {
  }

  // ---- which bytes a step can write ---------------------------------------------------------------

  // The event mask and the unit block's address lie in these bytes of a request.
  const IOB_SIZE := 0x18

  predicate Outside(x: int, at: int, n: int) {
    x < at || at + n <= x
  }

  // The bytes of a unit block that a status, a failure or a delivery writes.
  predicate BlockByte(block: int, x: int) {
    x == block + OFF_CLASS || !Outside(x, block + 0x12, 13) || x == block + OFF_INPUT_READ || x == block + OFF_AID
  }

  ghost predicate Keeps(g: Guest, h: Guest, x: int) {
    |h.mem| == |g.mem| && (0 <= x < |g.mem| ==> h.mem[x] == g.mem[x])
  }

  lemma {:induction false} StoreEachKeeps(g: Guest, addresses: seq<int>, data: seq<byte>, x: int)
    requires |data| <= |addresses| && forall i | 0 <= i < |data| :: addresses[i] != x
    ensures Keeps(g, StoreEach(g, addresses, data), x)
  {
    if data != [] {
      StoreEachKeeps(g, addresses, data[..|data| - 1], x);
    }
  }

  lemma StoreAtKeeps(g: Guest, at: int, data: seq<byte>, x: int)
    requires Outside(x, at, |data|)
    ensures Keeps(g, StoreAt(g, at, data), x)
  {
    StoreEachKeeps(g, Range(at, |data|), data, x);
  }

  lemma CompleteKeeps(g: Guest, iob: int, code: nat, x: int)
    requires x != iob + OFF_COMPLETION && Outside(x, iob + 2, 3)
    ensures Keeps(g, GuestStorage.Complete(g, iob, code), x)
  {
  }

  lemma ImportKeeps(g: Guest, iob: int, bytes: seq<byte>, x: int)
    requires !BlockByte(UnitBlock(g, iob), x)
    ensures Keeps(g, ImportStatus(g, iob, bytes), x)
  {
    hide StoreAt;
    var block := UnitBlock(g, iob);
    if block > 0 && IsUnitBlock(g, block) && |bytes| == 12 {
      StoreAtKeeps(g, block + OFF_STATUS, bytes, x);
    }
  }

  lemma ReportKeeps(g: Guest, block: int, data: seq<byte>, x: int)
    requires |data| >= 3 && !BlockByte(block, x)
    ensures Keeps(g, ReportToGuest(g, block, data), x)
  {
    hide StoreAt;
    StoreAtKeeps(g, block + OFF_STATUS, StatusBytes(data), x);
  }

  lemma FailedKeeps(g: Guest, iob: int, sense: seq<byte>, x: int)
    requires |sense| == 12 && !BlockByte(UnitBlock(g, iob), x)
    requires x != iob + OFF_COMPLETION && Outside(x, iob + 2, 3)
    ensures Keeps(g, Failed(g, iob, sense), x)
  {
    hide StoreAt, GuestStorage.Complete;
    var block := UnitBlock(g, iob);
    if block <= 0 || !IsUnitBlock(g, block) {
      CompleteKeeps(g, iob, 1, x);
    } else {
      var echoed := WriteByte(g, block + 0x12, ByteAt(g, block + OFF_COMMAND));
      StoreAtKeeps(echoed, block + OFF_STATUS, sense, x);
      CompleteKeeps(WriteByte(StoreAt(echoed, block + OFF_STATUS, sense), block + OFF_CLASS, CLASS_STATION), iob, 1, x);
    }
  }

  lemma ReadStatusKeeps(g: Guest, iob: int, raw: seq<byte>, x: int)
    requires |raw| >= 3 && !BlockByte(UnitBlock(g, iob), x)
    ensures Keeps(g, ReadStatus(g, iob, raw), x)
  {
    hide StoreAt;
    var block := UnitBlock(g, iob);
    if block > 0 && IsUnitBlock(g, block) {
      var flag: byte := if |raw| > 3 then 0xC0 else 0x80;
      StoreAtKeeps(g, block + OFF_STATUS, [flag, 0, raw[0], raw[1], 0, 0, 0, 0, 0, 0, 0, 0], x);
    }
  }

  predicate Avoids(p: PendingRead, at: int, n: int) {
    forall i | 0 <= i < |p.destination| :: Outside(p.destination[i], at, n)
  }

  lemma PlacedKeeps(g: Guest, p: PendingRead, raw: seq<byte>, x: int)
    requires |raw| >= 3 && p.capacity <= |p.destination| && Avoids(p, x, 1)
    ensures Keeps(g, Placed(g, p, raw), x)
  {
    hide StoreEach;
    var fields := raw[3..];
    if !CountedForm(p) {
      StoreEachKeeps(g, p.destination, fields[..Fit(|fields|, p.capacity)], x);
    } else if p.capacity >= 8 {
      var prefix := Repeat(0xEE as byte, 6) + [|fields| / 0x100 % 0x100, |fields| % 0x100];
      StoreEachKeeps(g, p.destination, prefix + fields[..Min(|fields|, p.capacity - 8)], x);
    }
  }

  // A request whose bytes the fields do not land on keeps naming its block.
  lemma PlacedKeepsBlock(g: Guest, p: PendingRead, raw: seq<byte>, iob: int)
    requires |raw| >= 3 && p.capacity <= |p.destination| && Avoids(p, iob, IOB_SIZE)
    ensures UnitBlock(Placed(g, p, raw), iob) == UnitBlock(g, iob)
  {
    hide Placed;
    forall x | iob <= x < iob + IOB_SIZE
      ensures Keeps(g, Placed(g, p, raw), x)
    {
      PlacedKeeps(g, p, raw, x);
    }
    FetchKeeps(g, Placed(g, p, raw), iob, 2);
    FetchKeeps(g, Placed(g, p, raw), iob + OFF_UNIT_BLOCK, 3);
  }

  lemma FetchKeeps(g: Guest, h: Guest, at: int, n: nat)
    requires |h.mem| == |g.mem| && forall x | at <= x < at + n :: Keeps(g, h, x)
    ensures Fetch(h, at, n) == Fetch(g, at, n)
  {
    if InRange(|g.mem|, at, n) {
      forall i | 0 <= i < n
        ensures Fetch(h, at, n)[i] == Fetch(g, at, n)[i]
      {
        assert Keeps(g, h, at + i);
      }
    }
  }

  // ---- a retained request and its answer --------------------------------------------------------------

  datatype Table = WAITS | PUTS | INPUTS

  predicate Owns(c: Controller, t: Table, iob: int) {
    match t
    case WAITS => Lookup(c.waits, iob).Some?
    case PUTS => Lookup(c.puts, iob).Some?
    case INPUTS => Lookup(c.inputs, iob).Some?
  }

  // The unit and the unit block the request was retained for.
  function Asked(c: Controller, t: Table, iob: int): Waiting
    requires Owns(c, t, iob)
  {
    match t
    case WAITS => Lookup(c.waits, iob).value
    case PUTS => Lookup(c.puts, iob).value
    case INPUTS => var p := Lookup(c.inputs, iob).value; Waiting(p.unit, p.block)
  }

  // The event that answers a request of this table.
  predicate AnswerTo(t: Table, e: Event, asked: Waiting, iob: int) {
    match t
    case WAITS => e == Waited(asked.unit, asked.block, iob)
    case PUTS => e.Claimed? && e == Claimed(asked.unit, e.serial, asked.block, iob)
    case INPUTS => e.FieldsRead? && e == FieldsRead(asked.unit, e.serial, asked.block, iob)
  }

  // A status was reported to this unit and block, and nothing consumed or
  // replaced it since.
  ghost predicate Delivered(log: seq<Event>, w: Waiting) {
    exists s: nat, j: nat :: ReportedAt(log, w.unit, Seen(w.block, s), j)
  }

  function Mask(c: Controller, iob: int): byte {
    ByteAt(c.guest, iob + OFF_COMPLETION)
  }

  // From c to d the request left its table: answered by a delivered status,
  // with its own event logged last and 40 in its mask.
  ghost predicate Answered(c: Controller, d: Controller, t: Table, iob: int) {
    && Owns(c, t, iob) && !Owns(d, t, iob)
    && (InRange(|c.guest.mem|, iob, IOB_SIZE) ==> Mask(d, iob) == 0x40)
    && |d.log| > |c.log| && AnswerTo(t, d.log[|d.log| - 1], Asked(c, t, iob), iob)
    && Delivered(c.log, Asked(c, t, iob))
  }

  // What a pass does to the status of the unit it answered: a class-C1 wait
  // and a read retire it, a PUT-with-invite keeps it; no other unit's changes.
  ghost predicate StatusKept(c: Controller, d: Controller, e: Event) {
    && (forall u | u != e.unit :: Lookup(d.status, u) == Lookup(c.status, u))
    && (if e.Waited? || e.FieldsRead? then Lookup(d.status, e.unit) == None
        else Lookup(d.status, e.unit) == Lookup(c.status, e.unit))
  }

  // Only the request in this slot of this table may leave.
  ghost predicate OthersStay(c: Controller, d: Controller, t: Table, iob: int) {
    && (t != WAITS ==> d.waits == c.waits) && (t != PUTS ==> d.puts == c.puts) && (t != INPUTS ==> d.inputs == c.inputs)
    && forall j | j != iob ::
         && Lookup(d.waits, j) == Lookup(c.waits, j) && Lookup(d.puts, j) == Lookup(c.puts, j)
         && Lookup(d.inputs, j) == Lookup(c.inputs, j)
  }

  lemma LiveIsLookup<V>(s: Slots<int, V>, i: nat)
    requires Valid(s) && i < |s.entries| && s.entries[i].live
    ensures Lookup(s, s.entries[i].key) == Some(s.entries[i].value)
  {
  }

  lemma StatusDelivered(c: Controller, w: Waiting)
    requires Inv(c) && StatusFor(c, w.unit, w.block)
    ensures Delivered(c.log, w)
  {
    hide Linear, Lookup;
    StatusIsCurrent(c, w.unit, w.block);
    CurrentWasReported(c.log, w.unit);
    var seen := Current(c.log, w.unit).value;
    var j: nat :| ReportedAt(c.log, w.unit, seen, j);
    assert ReportedAt(c.log, w.unit, Seen(w.block, seen.serial), j);
  }

  lemma MaskPosted(g: Guest, iob: int, code: nat)
    requires InRange(|g.mem|, iob, IOB_SIZE) && code < 0x10
    ensures ByteAt(GuestStorage.Complete(g, iob, code), iob + OFF_COMPLETION) == 0x40 + code
  {
    PostedByte(g, iob, code);
  }

  lemma WaitAnswers(c: Controller, iob: int, w: Waiting)
    requires Inv(c) && WaitReady(c, w) && Lookup(c.waits, iob) == Some(w)
    ensures var d := FinishWait(c, iob, w);
            && Answered(c, d, WAITS, iob) && OthersStay(c, d, WAITS, iob)
            && d.log[|d.log| - 1] == Waited(w.unit, w.block, iob) && StatusKept(c, d, d.log[|d.log| - 1])
  {
    hide ImportStatus, GuestStorage.Complete, Erase, Valid, Lookup, Linear, Causal, Delivered;
    var d, bytes := FinishWait(c, iob, w), Lookup(c.status, w.unit).value.bytes;
    StatusDelivered(c, w);
    ImportSize(c.guest, iob, bytes);
    if InRange(|c.guest.mem|, iob, IOB_SIZE) {
      MaskPosted(ImportStatus(c.guest, iob, bytes), iob, 0);
    }
    forall j
      ensures Lookup(d.waits, j) == if j == iob then None else Lookup(c.waits, j)
      ensures Lookup(d.status, j) == if j == w.unit then None else Lookup(c.status, j)
    {
      EraseLookup(c.waits, iob, NO_WAIT, j);
      EraseLookup(c.status, w.unit, NO_STATUS, j);
    }
  }

  lemma PutAnswers(c: Controller, iob: int, w: Waiting)
    requires Inv(c) && PutReady(c, w) && Lookup(c.puts, iob) == Some(w)
    ensures var d := FinishPut(c, iob, w);
            && Answered(c, d, PUTS, iob) && OthersStay(c, d, PUTS, iob)
            && d.log[|d.log| - 1].Claimed? && StatusKept(c, d, d.log[|d.log| - 1])
  {
    hide GuestStorage.Complete, Erase, Valid, Lookup, Linear, Causal, Delivered;
    var d := FinishPut(c, iob, w);
    StatusDelivered(c, w);
    if InRange(|c.guest.mem|, iob, IOB_SIZE) {
      MaskPosted(c.guest, iob, 0);
    }
    forall j
      ensures Lookup(d.puts, j) == if j == iob then None else Lookup(c.puts, j)
    {
      EraseLookup(c.puts, iob, NO_WAIT, j);
    }
  }

  // A read that is not answered took a record it could not use: too short,
  // and the read stays; or for a destination that was never captured, and the
  // read is refused with 44.
  ghost predicate ReadWasted(c: Controller, d: Controller, iob: int) {
    && Owns(c, INPUTS, iob) && |d.log| > |c.log| && d.log[|d.log| - 1].Lost? && d.status == c.status
    && (if Owns(d, INPUTS, iob) then d.guest == c.guest
        else InRange(|c.guest.mem|, iob, IOB_SIZE) ==> Mask(d, iob) == 0x44)
  }

  lemma ReadAnswers(c: Controller, iob: int, p: PendingRead, expand: Expand)
    requires Inv(c) && ReadReady(c, p) && Lookup(c.inputs, iob) == Some(p)
    ensures var d := FinishRead(c, iob, p, expand);
            && OthersStay(c, d, INPUTS, iob)
            && (ReadWasted(c, d, iob)
                || (Answered(c, d, INPUTS, iob) && d.log[|d.log| - 1].FieldsRead?
                    && StatusKept(c, d, d.log[|d.log| - 1])))
  {
    hide GuestStorage.Complete, Placed, ReadStatus, Held, FieldBytes, Erase, Valid, Lookup, TakeFields, NextInput;
    hide Linear, Causal, Delivered;
    var d, raw := FinishRead(c, iob, p, expand), FieldBytes(c.stations[p.unit].terminal, p.command, expand);
    forall j
      ensures Lookup(Erase(c.inputs, iob, NO_READ), j) == if j == iob then None else Lookup(c.inputs, j)
      ensures Lookup(Erase(c.status, p.unit, NO_STATUS), j) == if j == p.unit then None else Lookup(c.status, j)
    {
      EraseLookup(c.inputs, iob, NO_READ, j);
      EraseLookup(c.status, p.unit, NO_STATUS, j);
    }
    StatusDelivered(c, Waiting(p.unit, p.block));
    if |raw| >= 3 && InRange(|c.guest.mem|, iob, IOB_SIZE) {
      MaskPosted(c.guest, iob, 4);
      if p.capacity <= |p.destination| {
        StatusSize(Placed(c.guest, p, raw), iob, raw);
        MaskPosted(ReadStatus(Placed(c.guest, p, raw), iob, raw), iob, 0);
      }
    }
  }

  // What one pass did: it answered this request, or wasted a record on it.
  ghost predicate Acted(c: Controller, d: Controller, t: Table, iob: int) {
    && OthersStay(c, d, t, iob)
    && ((Answered(c, d, t, iob) && StatusKept(c, d, d.log[|d.log| - 1])) || (t == INPUTS && ReadWasted(c, d, iob)))
  }

  lemma WaitActs(c: Controller, w: nat)
    requires Inv(c) && w < |c.waits.entries| && c.waits.entries[w].live && WaitReady(c, c.waits.entries[w].value)
    ensures Acted(c, FinishWait(c, c.waits.entries[w].key, c.waits.entries[w].value), WAITS, c.waits.entries[w].key)
  {
    hide FinishWait, Linear, Causal, Lookup, Answered, OthersStay, StatusKept;
    LiveIsLookup(c.waits, w);
    WaitAnswers(c, c.waits.entries[w].key, c.waits.entries[w].value);
  }

  lemma PutActs(c: Controller, p: nat)
    requires Inv(c) && p < |c.puts.entries| && c.puts.entries[p].live && PutReady(c, c.puts.entries[p].value)
    ensures Acted(c, FinishPut(c, c.puts.entries[p].key, c.puts.entries[p].value), PUTS, c.puts.entries[p].key)
  {
    hide FinishPut, Linear, Causal, Lookup, Answered, OthersStay, StatusKept;
    LiveIsLookup(c.puts, p);
    PutAnswers(c, c.puts.entries[p].key, c.puts.entries[p].value);
  }

  lemma ReadActs(c: Controller, r: nat, expand: Expand)
    requires Inv(c) && r < |c.inputs.entries| && c.inputs.entries[r].live && ReadReady(c, c.inputs.entries[r].value)
    ensures Acted(c, FinishRead(c, c.inputs.entries[r].key, c.inputs.entries[r].value, expand), INPUTS,
                  c.inputs.entries[r].key)
  {
    hide FinishRead, Linear, Causal, Lookup, Answered, OthersStay, StatusKept, ReadWasted;
    LiveIsLookup(c.inputs, r);
    ReadAnswers(c, c.inputs.entries[r].key, c.inputs.entries[r].value, expand);
  }

  // A pass that does anything acts on one retained request.  If it posts 40,
  // a status was delivered for that request's unit and unit block; a class-C1
  // wait and a read then retire the status and a PUT-with-invite keeps it.
  lemma PassAnswers(c: Controller, expand: Expand)
    requires Inv(c)
    ensures var d := Pass(c, expand); d == c || exists t, iob :: Acted(c, d, t, iob)
  {
    hide FinishWait, FinishPut, FinishRead, Linear, Causal, Lookup, Acted;
    var w, p, r := FirstWait(c, 0), FirstPut(c, 0), FirstRead(c, 0);
    if w < |c.waits.entries| {
      WaitActs(c, w);
    } else if p < |c.puts.entries| {
      PutActs(c, p);
    } else if r < |c.inputs.entries| {
      ReadActs(c, r, expand);
    }
  }

  // ---- failing, terminating, asking again ------------------------------------------------------------------

  // The request failed with 41, and the status of its unit was dropped.
  ghost predicate FailedAt(c: Controller, d: Controller, t: Table, iob: int, unit: int) {
    && Owns(c, t, iob) && Asked(c, t, iob).unit == unit && !Owns(d, t, iob) && OthersStay(c, d, t, iob)
    && (InRange(|c.guest.mem|, iob, IOB_SIZE) ==> Mask(d, iob) == 0x41)
    && Lookup(d.status, unit) == None && forall u | u != unit :: Lookup(d.status, u) == Lookup(c.status, u)
  }

  lemma FailPosts(c: Controller, less: Controller, unit: int, iob: int)
    requires c.Shaped() && less.guest == c.guest && less.status == c.status
    ensures var d := FailAt(less, unit, iob);
            && d.waits == less.waits && d.puts == less.puts && d.inputs == less.inputs
            && (InRange(|c.guest.mem|, iob, IOB_SIZE) ==> Mask(d, iob) == 0x41)
            && Lookup(d.status, unit) == None && forall u | u != unit :: Lookup(d.status, u) == Lookup(c.status, u)
  {
    hide GuestStorage.Complete, StoreAt, Erase, Lookup, Valid;
    forall u
      ensures Lookup(Erase(c.status, unit, NO_STATUS), u) == if u == unit then None else Lookup(c.status, u)
    {
      EraseLookup(c.status, unit, NO_STATUS, u);
    }
    FailedPosts(c.guest, iob, [0x22, 0, 0, 0, 0, 0, 0, 0x80, 0, 0, 0, 0]);
  }

  lemma FailedPosts(g: Guest, iob: int, sense: seq<byte>)
    requires |sense| == 12
    ensures InRange(|g.mem|, iob, IOB_SIZE) ==> ByteAt(Failed(g, iob, sense), iob + OFF_COMPLETION) == 0x41
  {
    hide GuestStorage.Complete;
    var block := UnitBlock(g, iob);
    if InRange(|g.mem|, iob, IOB_SIZE) {
      if block <= 0 || !IsUnitBlock(g, block) {
        MaskPosted(g, iob, 1);
      } else {
        var echoed := WriteByte(g, block + 0x12, ByteAt(g, block + OFF_COMMAND));
        var told := WriteByte(StoreAt(echoed, block + OFF_STATUS, sense), block + OFF_CLASS, CLASS_STATION);
        assert |told.mem| == |g.mem|;
        MaskPosted(told, iob, 1);
      }
    }
  }

  lemma FailOneFails(c: Controller, unit: int)
    requires c.Shaped()
    ensures var d := FailOne(c, unit); d == c || exists t, iob :: FailedAt(c, d, t, iob, unit)
  {
    hide FailAt, Erase, Lookup;
    var p, r, w := FirstWaitOf(c.puts.entries, unit, 0), FirstReadOf(c.inputs.entries, unit, 0),
                   FirstWaitOf(c.waits.entries, unit, 0);
    if p < |c.puts.entries| {
      PutFails(c, unit, p);
    } else if r < |c.inputs.entries| {
      ReadFails(c, unit, r);
    } else if w < |c.waits.entries| {
      WaitFails(c, unit, w);
    }
  }

  lemma PutFails(c: Controller, unit: int, p: nat)
    requires c.Shaped() && p < |c.puts.entries| && c.puts.entries[p].live && c.puts.entries[p].value.unit == unit
    ensures var iob := c.puts.entries[p].key;
            FailedAt(c, FailAt(c.(puts := Erase(c.puts, iob, NO_WAIT)), unit, iob), PUTS, iob, unit)
  {
    hide FailAt, Erase, Lookup, Valid;
    var iob := c.puts.entries[p].key;
    LiveIsLookup(c.puts, p);
    FailPosts(c, c.(puts := Erase(c.puts, iob, NO_WAIT)), unit, iob);
    forall j
      ensures Lookup(Erase(c.puts, iob, NO_WAIT), j) == if j == iob then None else Lookup(c.puts, j)
    {
      EraseLookup(c.puts, iob, NO_WAIT, j);
    }
  }

  lemma ReadFails(c: Controller, unit: int, r: nat)
    requires c.Shaped() && r < |c.inputs.entries| && c.inputs.entries[r].live && c.inputs.entries[r].value.unit == unit
    ensures var iob := c.inputs.entries[r].key;
            FailedAt(c, FailAt(c.(inputs := Erase(c.inputs, iob, NO_READ)), unit, iob), INPUTS, iob, unit)
  {
    hide FailAt, Erase, Lookup, Valid;
    var iob := c.inputs.entries[r].key;
    LiveIsLookup(c.inputs, r);
    FailPosts(c, c.(inputs := Erase(c.inputs, iob, NO_READ)), unit, iob);
    forall j
      ensures Lookup(Erase(c.inputs, iob, NO_READ), j) == if j == iob then None else Lookup(c.inputs, j)
    {
      EraseLookup(c.inputs, iob, NO_READ, j);
    }
  }

  lemma WaitFails(c: Controller, unit: int, w: nat)
    requires c.Shaped() && w < |c.waits.entries| && c.waits.entries[w].live && c.waits.entries[w].value.unit == unit
    ensures var iob := c.waits.entries[w].key;
            FailedAt(c, FailAt(c.(waits := Erase(c.waits, iob, NO_WAIT)), unit, iob), WAITS, iob, unit)
  {
    hide FailAt, Erase, Lookup, Valid;
    var iob := c.waits.entries[w].key;
    LiveIsLookup(c.waits, w);
    FailPosts(c, c.(waits := Erase(c.waits, iob, NO_WAIT)), unit, iob);
    forall j
      ensures Lookup(Erase(c.waits, iob, NO_WAIT), j) == if j == iob then None else Lookup(c.waits, j)
    {
      EraseLookup(c.waits, iob, NO_WAIT, j);
    }
  }

  // A terminating task's request goes from every table and nothing is posted.
  lemma CancelDrops(c: Controller, iob: int)
    requires c.Shaped()
    ensures var d := Cancel(c, iob);
            && d.guest == c.guest && d.status == c.status && d.log == c.log && d.stations == c.stations
            && Lookup(d.waits, iob) == None && Lookup(d.puts, iob) == None && Lookup(d.inputs, iob) == None
            && forall j | j != iob ::
                 && Lookup(d.waits, j) == Lookup(c.waits, j) && Lookup(d.puts, j) == Lookup(c.puts, j)
                 && Lookup(d.inputs, j) == Lookup(c.inputs, j)
  {
    hide Erase, Lookup, Valid;
    forall j
      ensures Lookup(Erase(c.waits, iob, NO_WAIT), j) == if j == iob then None else Lookup(c.waits, j)
      ensures Lookup(Erase(c.puts, iob, NO_WAIT), j) == if j == iob then None else Lookup(c.puts, j)
      ensures Lookup(Erase(c.inputs, iob, NO_READ), j) == if j == iob then None else Lookup(c.inputs, j)
    {
      EraseLookup(c.waits, iob, NO_WAIT, j);
      EraseLookup(c.puts, iob, NO_WAIT, j);
      EraseLookup(c.inputs, iob, NO_READ, j);
    }
  }

  // What asking again leaves of the retained requests: every one, and one
  // that is already reading is not touched at all.
  ghost predicate StillRetained(c: Controller, d: Controller, iob: int) {
    && (forall j | j != iob ::
          && Lookup(d.waits, j) == Lookup(c.waits, j) && Lookup(d.puts, j) == Lookup(c.puts, j)
          && Lookup(d.inputs, j) == Lookup(c.inputs, j))
    && (Owns(c, WAITS, iob) ==> Owns(d, WAITS, iob)) && (Owns(c, PUTS, iob) ==> Owns(d, PUTS, iob))
    && (Owns(c, INPUTS, iob) ==> Lookup(d.inputs, iob) == Lookup(c.inputs, iob))
  }

  lemma OutputRetains(c: Controller, iob: int, unit: int, withInvite: bool, net: Transport)
    requires c.Shaped() && unit in c.stations
    ensures StillRetained(c, OutputData(c, iob, unit, withInvite, net), iob)
    ensures OutputData(c, iob, unit, withInvite, net).log == c.log
  {
    hide GuestStorage.Complete, Transmit, Gather, Arm, UnitBlock, Set, Lookup, Valid;
    var field, length := Addr24At(c.guest, iob + OFF_BUFFER), HalfAt(c.guest, iob + OFF_LENGTH);
    if length != 0 && B.CaptureAddresses(c.guest, field, length).Some? {
      B.CapturedInside(c.guest, field, length);
      var asked := Waiting(unit, UnitBlock(Arm(c.guest, iob), iob));
      forall j
        ensures Lookup(Set(c.puts, iob, asked), j) == if j == iob then Some(asked) else Lookup(c.puts, j)
      {
        SetLookup(c.puts, iob, asked, j);
      }
    }
  }

  lemma RespondRetains(c: Controller, iob: int, unit: int)
    requires c.Shaped() && unit in c.stations
    ensures StillRetained(c, Respond(c, iob, unit), iob)
    ensures Respond(c, iob, unit).log != c.log ==> Respond(c, iob, unit).waits == c.waits
  {
    hide GuestStorage.Complete, ImportStatus, Arm, UnitBlock, Set, Erase, Lookup, Valid;
    var asked := Waiting(unit, UnitBlock(c.guest, iob));
    forall j
      ensures Lookup(Set(c.waits, iob, asked), j) == if j == iob then Some(asked) else Lookup(c.waits, j)
    {
      SetLookup(c.waits, iob, asked, j);
    }
  }

  lemma FieldsRetain(c: Controller, iob: int, unit: int)
    requires c.Shaped() && unit in c.stations
    ensures StillRetained(c, RequestFields(c, iob, unit), iob)
    ensures Owns(c, INPUTS, iob) ==> RequestFields(c, iob, unit) == c
    ensures RequestFields(c, iob, unit).log == c.log
  {
    hide GuestStorage.Complete, UnitBlock, Set, Lookup, Valid, Displacement;
    var field, capacity := Addr24At(c.guest, iob + OFF_BUFFER), HalfAt(c.guest, iob + OFF_LENGTH);
    if Lookup(c.inputs, iob).None? && B.CaptureAddresses(c.guest, field, capacity).Some? {
      var p := PendingRead(unit, UnitBlock(c.guest, iob), ByteAt(c.guest, iob + OFF_COMMAND), field,
                           B.CaptureAddresses(c.guest, field, capacity).value, capacity, Displacement(c, iob, unit));
      forall j
        ensures Lookup(Set(c.inputs, iob, p), j) == if j == iob then Some(p) else Lookup(c.inputs, j)
      {
        SetLookup(c.inputs, iob, p, j);
      }
    }
  }

  lemma PutRetains(c: Controller, iob: int, unit: int, withInvite: bool, net: Transport)
    requires Inv(c) && unit in c.stations && unit == ByteAt(c.guest, iob + OFF_UNIT)
    ensures StillRetained(c, Put(c, iob, unit, withInvite, net), iob)
  {
    hide Linear, Causal, GuestStorage.Complete, OutputData, Respond, Erase, Lookup, Valid;
    RespondRetains(c, iob, unit);
    var open := Open(c, iob, withInvite);
    OpenInv(c, iob, withInvite);
    assert open.waits == c.waits && open.puts == c.puts && open.inputs == c.inputs;
    OutputRetains(open, iob, unit, withInvite, net);
  }

  // A guest that asks again with a request block the controller still holds
  // gives up nothing: no request leaves its table, another request's entry
  // does not change, and a read asked for twice is one read.
  lemma ReissueKeeps(c: Controller, iob: int, net: Transport)
    requires Inv(c)
    ensures StillRetained(c, Request(c, iob, net), iob)
  {
    hide Linear, Causal, GuestStorage.Complete, Put, RequestFields, Failed, Lookup, Valid;
    var unit := ByteAt(c.guest, iob + OFF_UNIT);
    if unit in c.stations {
      PutRetains(c, iob, unit, false, net);
      PutRetains(c, iob, unit, true, net);
      FieldsRetain(c, iob, unit);
    }
  }

  // ---- every step -------------------------------------------------------------------------------------

  // How a retained request may leave its table.
  ghost predicate Released(c: Controller, step: Step, d: Controller, t: Table, iob: int) {
    match step
    case ControllerPass => Answered(c, d, t, iob) || (t == INPUTS && ReadWasted(c, d, iob))
    case FailRequest(unit) => FailedAt(c, d, t, iob, unit)
    case Terminate(i) => i == iob && d.guest == c.guest && d.status == c.status && d.log == c.log
    case _ => false
  }

  // Whatever happens, a retained request stays in its table, or left it
  // answered by a delivered status with 40, refused with 44, failed with 41 or
  // dropped with its task.
  lemma LeavesOnlyReleased(c: Controller, step: Step, expand: Expand, t: Table, iob: int)
    requires Inv(c) && Owns(c, t, iob)
    ensures var d := Apply(c, step, expand); Owns(d, t, iob) || Released(c, step, d, t, iob)
  {
    hide Linear, Causal, Lookup, Arrive, Deliver, Request, Pass, SwitchOff, FailOne, Cancel, Answered, ReadWasted,
         StatusKept;
    match step {
      case ControllerPass =>
        PassAnswers(c, expand);
      case FailRequest(unit) => FailOneFails(c, unit);
      case Terminate(i) => CancelDrops(c, i);
      case GuestRequest(j, net) => ReissueKeeps(c, j, net);
      case TerminalRecord(unit, keys, saveReply, data) => ArriveKeepsTables(c, unit, keys, saveReply, data);
      case StatusPoll(block) => DeliverKeepsTables(c, block);
      case PowerSwitch(unit) => OffKeepsTables(c, unit);
      case _ =>
    }
  }

  ghost predicate SameTables(c: Controller, d: Controller) {
    d.waits == c.waits && d.puts == c.puts && d.inputs == c.inputs
  }

  lemma ArriveKeepsTables(c: Controller, unit: int, keys: Attention, saveReply: bool, data: seq<byte>)
    ensures unit in c.stations ==> SameTables(c, Arrive(c, unit, keys, saveReply, data))
    ensures unit in c.stations ==> Arrive(c, unit, keys, saveReply, data).guest == c.guest
  {
  }

  lemma DeliverKeepsTables(c: Controller, block: int)
    requires c.Shaped()
    ensures SameTables(c, Deliver(c, block))
  {
    hide Valid, Set, ReportToGuest;
  }

  lemma OffKeepsTables(c: Controller, unit: int)
    ensures unit in c.stations ==> SameTables(c, SwitchOff(c, unit)) && SwitchOff(c, unit).guest == c.guest
  {
  }

  // A request block apart from what this step may write for others: other
  // retained request blocks, their unit blocks and their read buffers.
  ghost predicate Apart(c: Controller, step: Step, iob: int) {
    match step
    case ControllerPass =>
      forall t, j | j != iob && Owns(c, t, j) ::
        && ClearOf(c, j, iob)
        && (t == INPUTS ==> Avoids(Lookup(c.inputs, j).value, iob + OFF_COMPLETION, 1)
                            && Avoids(Lookup(c.inputs, j).value, j, IOB_SIZE))
    case FailRequest(_) => forall t, j | j != iob && Owns(c, t, j) :: ClearOf(c, j, iob)
    case StatusPoll(block) => !BlockByte(block, iob + OFF_COMPLETION)
    case GuestRequest(j, _) => j != iob ==> ClearOf(c, j, iob)
    case GuestRuns(mem, _) => ByteAt(Guest(mem, c.guest.atr, false), iob + OFF_COMPLETION) == Mask(c, iob)
    case _ => true
  }

  ghost predicate ClearOf(c: Controller, j: int, iob: int) {
    Outside(iob + OFF_COMPLETION, j, IOB_SIZE) && !BlockByte(UnitBlock(c.guest, j), iob + OFF_COMPLETION)
  }

  lemma KeptMask(c: Controller, d: Controller, iob: int)
    requires Keeps(c.guest, d.guest, iob + OFF_COMPLETION)
    ensures Mask(d, iob) == Mask(c, iob)
  {
  }

  lemma WaitSpares(c: Controller, j: int, w: Waiting, iob: int)
    requires WaitReady(c, w) && ClearOf(c, j, iob)
    ensures Mask(FinishWait(c, j, w), iob) == Mask(c, iob)
  {
    hide ImportStatus, GuestStorage.Complete, Erase, Lookup;
    var bytes := Lookup(c.status, w.unit).value.bytes;
    ImportKeeps(c.guest, j, bytes, iob + OFF_COMPLETION);
    CompleteKeeps(ImportStatus(c.guest, j, bytes), j, 0, iob + OFF_COMPLETION);
    KeptMask(c, FinishWait(c, j, w), iob);
  }

  lemma PutSpares(c: Controller, j: int, w: Waiting, iob: int)
    requires PutReady(c, w) && ClearOf(c, j, iob)
    ensures Mask(FinishPut(c, j, w), iob) == Mask(c, iob)
  {
    hide GuestStorage.Complete, Erase, Lookup;
    CompleteKeeps(c.guest, j, 0, iob + OFF_COMPLETION);
    KeptMask(c, FinishPut(c, j, w), iob);
  }

  lemma ReadSpares(c: Controller, j: int, p: PendingRead, expand: Expand, iob: int)
    requires ReadReady(c, p) && ClearOf(c, j, iob)
    requires Avoids(p, iob + OFF_COMPLETION, 1) && Avoids(p, j, IOB_SIZE)
    ensures Mask(FinishRead(c, j, p, expand), iob) == Mask(c, iob)
  {
    hide GuestStorage.Complete, Placed, ReadStatus, Held, FieldBytes, Erase, Lookup, TakeFields, NextInput, UnitBlock,
         Avoids;
    var raw, x := FieldBytes(c.stations[p.unit].terminal, p.command, expand), iob + OFF_COMPLETION;
    CompleteKeeps(c.guest, j, 4, x);
    if |raw| >= 3 && p.capacity <= |p.destination| {
      PlacedKeeps(c.guest, p, raw, x);
      PlacedKeepsBlock(c.guest, p, raw, j);
      ReadStatusKeeps(Placed(c.guest, p, raw), j, raw, x);
      CompleteKeeps(ReadStatus(Placed(c.guest, p, raw), j, raw), j, 0, x);
    }
    KeptMask(c, FinishRead(c, j, p, expand), iob);
  }

  // A pass leaves the mask of every request but the one it acts on.
  lemma PassSpares(c: Controller, expand: Expand, iob: int)
    requires Inv(c) && Apart(c, ControllerPass, iob)
    ensures var d := Pass(c, expand); Mask(d, iob) == Mask(c, iob) || exists t :: Acted(c, d, t, iob)
  {
    hide FinishWait, FinishPut, FinishRead, Linear, Causal, Lookup, Acted, ClearOf, Mask;
    var w, p, r := FirstWait(c, 0), FirstPut(c, 0), FirstRead(c, 0);
    if w < |c.waits.entries| {
      var e := c.waits.entries[w];
      LiveIsLookup(c.waits, w);
      WaitActs(c, w);
      if e.key != iob {
        assert Owns(c, WAITS, e.key);
        WaitSpares(c, e.key, e.value, iob);
      }
    } else if p < |c.puts.entries| {
      var e := c.puts.entries[p];
      LiveIsLookup(c.puts, p);
      PutActs(c, p);
      if e.key != iob {
        assert Owns(c, PUTS, e.key);
        PutSpares(c, e.key, e.value, iob);
      }
    } else if r < |c.inputs.entries| {
      var e := c.inputs.entries[r];
      LiveIsLookup(c.inputs, r);
      ReadActs(c, r, expand);
      if e.key != iob {
        assert Owns(c, INPUTS, e.key);
        ReadSpares(c, e.key, e.value, expand, iob);
      }
    }
  }

  lemma FailSpares(c: Controller, less: Controller, unit: int, j: int, iob: int)
    requires less.guest == c.guest && ClearOf(c, j, iob)
    ensures Mask(FailAt(less, unit, j), iob) == Mask(c, iob)
  {
    hide Failed, Erase;
    FailedKeeps(c.guest, j, [0x22, 0, 0, 0, 0, 0, 0, 0x80, 0, 0, 0, 0], iob + OFF_COMPLETION);
    KeptMask(c, FailAt(less, unit, j), iob);
  }

  lemma FailOneSpares(c: Controller, unit: int, iob: int)
    requires c.Shaped() && Apart(c, FailRequest(unit), iob)
    ensures var d := FailOne(c, unit); Mask(d, iob) == Mask(c, iob) || exists t :: FailedAt(c, d, t, iob, unit)
  {
    hide FailAt, Erase, Lookup, ClearOf, Mask, FailedAt, Valid;
    var p, r, w := FirstWaitOf(c.puts.entries, unit, 0), FirstReadOf(c.inputs.entries, unit, 0),
                   FirstWaitOf(c.waits.entries, unit, 0);
    if p < |c.puts.entries| {
      var j := c.puts.entries[p].key;
      LiveIsLookup(c.puts, p);
      PutFails(c, unit, p);
      if j != iob {
        assert Owns(c, PUTS, j);
        FailSpares(c, c.(puts := Erase(c.puts, j, NO_WAIT)), unit, j, iob);
      }
    } else if r < |c.inputs.entries| {
      var j := c.inputs.entries[r].key;
      LiveIsLookup(c.inputs, r);
      ReadFails(c, unit, r);
      if j != iob {
        assert Owns(c, INPUTS, j);
        FailSpares(c, c.(inputs := Erase(c.inputs, j, NO_READ)), unit, j, iob);
      }
    } else if w < |c.waits.entries| {
      var j := c.waits.entries[w].key;
      LiveIsLookup(c.waits, w);
      WaitFails(c, unit, w);
      if j != iob {
        assert Owns(c, WAITS, j);
        FailSpares(c, c.(waits := Erase(c.waits, j, NO_WAIT)), unit, j, iob);
      }
    }
  }

  lemma ArmKeeps(g: Guest, iob: int, x: int)
    requires x != iob + OFF_COMPLETION
    ensures Keeps(g, Arm(g, iob), x)
  {
  }

  lemma OpenKeeps(c: Controller, iob: int, withInvite: bool, x: int)
    requires Outside(x, iob, IOB_SIZE)
    ensures Keeps(c.guest, Open(c, iob, withInvite).guest, x)
  {
    hide Erase;
  }

  lemma OutputSpares(c: Controller, j: int, unit: int, withInvite: bool, net: Transport, x: int)
    requires c.Shaped() && unit in c.stations && Outside(x, j, IOB_SIZE)
    ensures Keeps(c.guest, OutputData(c, j, unit, withInvite, net).guest, x)
  {
    hide GuestStorage.Complete, Transmit, Gather, Arm, UnitBlock, Set, Valid;
    CompleteKeeps(c.guest, j, 0, x);
    CompleteKeeps(c.guest, j, 4, x);
    ArmKeeps(c.guest, j, x);
    var field, length := Addr24At(c.guest, j + OFF_BUFFER), HalfAt(c.guest, j + OFF_LENGTH);
    if length != 0 && B.CaptureAddresses(c.guest, field, length).Some? {
      B.CapturedInside(c.guest, field, length);
    }
  }

  lemma RespondSpares(c: Controller, j: int, unit: int, iob: int)
    requires c.Shaped() && unit in c.stations && ClearOf(c, j, iob)
    ensures Keeps(c.guest, Respond(c, j, unit).guest, iob + OFF_COMPLETION)
  {
    hide GuestStorage.Complete, ImportStatus, Arm, UnitBlock, Set, Erase, Lookup, Valid;
    ArmKeeps(c.guest, j, iob + OFF_COMPLETION);
    if StatusFor(c, unit, UnitBlock(c.guest, j)) {
      var bytes := Lookup(c.status, unit).value.bytes;
      ImportKeeps(c.guest, j, bytes, iob + OFF_COMPLETION);
      CompleteKeeps(ImportStatus(c.guest, j, bytes), j, 0, iob + OFF_COMPLETION);
    }
  }

  lemma PutSparesOthers(c: Controller, j: int, unit: int, withInvite: bool, net: Transport, iob: int)
    requires Inv(c) && unit in c.stations && unit == ByteAt(c.guest, j + OFF_UNIT) && ClearOf(c, j, iob)
    ensures Keeps(c.guest, Put(c, j, unit, withInvite, net).guest, iob + OFF_COMPLETION)
  {
    hide Linear, Causal, GuestStorage.Complete, OutputData, Respond, Open, Valid;
    var x := iob + OFF_COMPLETION;
    OpenInv(c, j, withInvite);
    OpenKeeps(c, j, withInvite, x);
    OutputSpares(Open(c, j, withInvite), j, unit, withInvite, net, x);
    RespondSpares(c, j, unit, iob);
    CompleteKeeps(c.guest, j, 4, x);
  }

  lemma RequestSpares(c: Controller, j: int, net: Transport, iob: int)
    requires Inv(c) && ClearOf(c, j, iob)
    ensures Mask(Request(c, j, net), iob) == Mask(c, iob)
  {
    hide Linear, Causal, GuestStorage.Complete, Put, Failed, InviteAll, Valid, Lookup, Mask, Set, Displacement,
         UnitBlock;
    var unit, x := ByteAt(c.guest, j + OFF_UNIT), iob + OFF_COMPLETION;
    CompleteKeeps(c.guest, j, 0, x);
    CompleteKeeps(c.guest, j, 4, x);
    FailedKeeps(c.guest, j, [0x28, 0, 0, 0, 0x02, 0x03, 0, 0, 0, 0, 0, 0], x);
    assert InviteAll(c, j).guest == c.guest by {
      hide *;
      InviteKeepsGuest(c, j);
    }
    if unit in c.stations {
      PutSparesOthers(c, j, unit, false, net, iob);
      PutSparesOthers(c, j, unit, true, net, iob);
    }
    KeptMask(c, Request(c, j, net), iob);
  }

  lemma InviteKeepsGuest(c: Controller, j: int)
    ensures InviteAll(c, j).guest == c.guest
  {
  }

  lemma DeliverSpares(c: Controller, block: int, iob: int)
    requires c.Shaped() && !BlockByte(block, iob + OFF_COMPLETION)
    ensures Mask(Deliver(c, block), iob) == Mask(c, iob)
  {
    hide Set, ReportToGuest, Valid;
    if Deliverable(c, block) {
      var data := c.stations[ByteAt(c.guest, block + OFF_UNIT)].terminal.inbound[0].data;
      ReportKeeps(c.guest, block, data, iob + OFF_COMPLETION);
    }
    KeptMask(c, Deliver(c, block), iob);
  }

  // ---- what one request posts itself -------------------------------------------------------------------

  ghost predicate Buffered(c: Controller, iob: int) {
    c.guest.Valid()
    && B.CaptureAddresses(c.guest, Addr24At(c.guest, iob + OFF_BUFFER), HalfAt(c.guest, iob + OFF_LENGTH)).Some?
  }

  predicate Dispatched(c: Controller, iob: int) {
    && ByteAt(c.guest, iob + OFF_CLASS) / 0x10 == 0xC && ByteAt(c.guest, iob + OFF_UNIT) != 0xFF
    && ByteAt(c.guest, iob + OFF_UNIT) in c.stations && !c.stations[ByteAt(c.guest, iob + OFF_UNIT)].detached
  }

  // Completion 40 at once: a cancelled invite; a plain PUT with a usable
  // buffer; a PUT-with-invite whose record the transport refused; and a
  // class-C1 pass that finds the status of its own unit and unit block.
  ghost predicate PostsAtOnce(c: Controller, iob: int, net: Transport) {
    var class_, command := ByteAt(c.guest, iob + OFF_CLASS), ByteAt(c.guest, iob + OFF_COMMAND);
    && Dispatched(c, iob)
    && (command == 0xC3
        || (command == 0x27 && class_ == CLASS_STATION && HalfAt(c.guest, iob + OFF_LENGTH) > 0 && Buffered(c, iob))
        || (command == 0xA7 && class_ == CLASS_STATION && HalfAt(c.guest, iob + OFF_LENGTH) > 0 && Buffered(c, iob)
            && !net.sent)
        || ((command == 0x27 || command == 0xA7) && class_ == CLASS_RESPONSE
            && StatusFor(c, ByteAt(c.guest, iob + OFF_UNIT), UnitBlock(c.guest, iob))))
  }

  // The mask is not written: an all-stations invite, and a read that is
  // retained or already was.
  ghost predicate LeavesMask(c: Controller, iob: int) {
    var command, unit := ByteAt(c.guest, iob + OFF_COMMAND), ByteAt(c.guest, iob + OFF_UNIT);
    if ByteAt(c.guest, iob + OFF_CLASS) / 0x10 == 0xC && unit == 0xFF then true
    else
      && Dispatched(c, iob) && (command == 0x22 || command == 0x32 || command == 0x42)
      && (Lookup(c.inputs, iob).Some? || Buffered(c, iob))
  }

  lemma MaskArmed(g: Guest, iob: int)
    requires InRange(|g.mem|, iob, IOB_SIZE)
    ensures ByteAt(Arm(g, iob), iob + OFF_COMPLETION) < 0x10
  {
    ArmedByte(g, iob);
  }

  lemma OutputPosts(c: Controller, iob: int, unit: int, withInvite: bool, net: Transport)
    requires c.Shaped() && unit in c.stations && InRange(|c.guest.mem|, iob, IOB_SIZE)
    ensures Mask(OutputData(c, iob, unit, withInvite, net), iob) == 0x40
       <==> HalfAt(c.guest, iob + OFF_LENGTH) > 0 && Buffered(c, iob) && (withInvite ==> !net.sent)
  {
    hide GuestStorage.Complete, Transmit, Gather, Arm, UnitBlock, Set, Valid;
    MaskPosted(c.guest, iob, 0);
    MaskPosted(c.guest, iob, 4);
    MaskArmed(c.guest, iob);
    var field, length := Addr24At(c.guest, iob + OFF_BUFFER), HalfAt(c.guest, iob + OFF_LENGTH);
    if length != 0 && Buffered(c, iob) {
      B.CapturedInside(c.guest, field, length);
      TransmitKeeps(c.stations[unit].terminal, Gather(c.guest.mem, B.CaptureAddresses(c.guest, field, length).value),
                    withInvite, net);
    }
  }

  lemma FetchPast(g: Guest, addr: int, v: byte, at: int, n: nat)
    requires Outside(addr, at, n)
    ensures |WriteByte(g, addr, v).mem| == |g.mem| && WriteByte(g, addr, v).atr == g.atr
    ensures Fetch(WriteByte(g, addr, v), at, n) == Fetch(g, at, n)
  {
    forall x | at <= x < at + n
      ensures Keeps(g, WriteByte(g, addr, v), x)
    {
    }
    FetchKeeps(g, WriteByte(g, addr, v), at, n);
  }

  lemma OpenKeepsField(c: Controller, iob: int, withInvite: bool, at: int, n: nat)
    requires iob + OFF_CLASS < at || at + n <= iob + OFF_COMPLETION
    ensures var d := Open(c, iob, withInvite);
            |d.guest.mem| == |c.guest.mem| && d.guest.atr == c.guest.atr
            && Fetch(d.guest, at, n) == Fetch(c.guest, at, n)
  {
    hide Erase, ByteAt, Without, Fetch, WriteByte;
    var g1 := WriteByte(c.guest, iob + 6, Without(ByteAt(c.guest, iob + 6), 0x04));
    var g2 := WriteByte(g1, iob + 6, Without(ByteAt(g1, iob + 6), 0x80));
    var g3 := WriteByte(g2, iob + 9, Without(ByteAt(g2, iob + 9), 0x80));
    FetchPast(c.guest, iob + 6, Without(ByteAt(c.guest, iob + 6), 0x04), at, n);
    FetchPast(g1, iob + 6, Without(ByteAt(g1, iob + 6), 0x80), at, n);
    FetchPast(g2, iob + 9, Without(ByteAt(g2, iob + 9), 0x80), at, n);
    FetchPast(g3, iob + OFF_CLASS, CLASS_RESPONSE, at, n);
  }

  lemma OpenKeepsFields(c: Controller, iob: int, withInvite: bool)
    requires c.Shaped()
    ensures var d := Open(c, iob, withInvite);
            && |d.guest.mem| == |c.guest.mem| && d.guest.atr == c.guest.atr
            && Fetch(d.guest, iob + OFF_BUFFER, 3) == Fetch(c.guest, iob + OFF_BUFFER, 3)
            && Fetch(d.guest, iob + OFF_LENGTH, 2) == Fetch(c.guest, iob + OFF_LENGTH, 2)
  {
    hide Open, Valid, Fetch;
    OpenKeepsField(c, iob, withInvite, iob + OFF_BUFFER, 3);
    OpenKeepsField(c, iob, withInvite, iob + OFF_LENGTH, 2);
  }

  // Opening an action changes nothing its buffer depends on.
  lemma OpenKeepsBuffer(c: Controller, iob: int, withInvite: bool)
    requires c.Shaped()
    ensures var d := Open(c, iob, withInvite);
            && |d.guest.mem| == |c.guest.mem|
            && HalfAt(d.guest, iob + OFF_LENGTH) == HalfAt(c.guest, iob + OFF_LENGTH)
            && (Buffered(d, iob) <==> Buffered(c, iob))
  {
    hide Erase, Valid, B.CaptureAddresses, Open;
    var d := Open(c, iob, withInvite);
    OpenKeepsFields(c, iob, withInvite);
    B.SameCapture(c.guest, d.guest, Addr24At(c.guest, iob + OFF_BUFFER), HalfAt(c.guest, iob + OFF_LENGTH));
  }

  lemma RespondPosts(c: Controller, iob: int, unit: int)
    requires c.Shaped() && unit in c.stations && InRange(|c.guest.mem|, iob, IOB_SIZE)
    ensures Mask(Respond(c, iob, unit), iob) == 0x40 <==> StatusFor(c, unit, UnitBlock(c.guest, iob))
  {
    hide GuestStorage.Complete, ImportStatus, Arm, UnitBlock, Set, Erase, Lookup, Valid;
    MaskArmed(c.guest, iob);
    if StatusFor(c, unit, UnitBlock(c.guest, iob)) {
      var bytes := Lookup(c.status, unit).value.bytes;
      ImportSize(c.guest, iob, bytes);
      MaskPosted(ImportStatus(c.guest, iob, bytes), iob, 0);
    }
  }

  lemma PutPostsIff(c: Controller, iob: int, unit: int, withInvite: bool, net: Transport)
    requires Inv(c) && unit in c.stations && unit == ByteAt(c.guest, iob + OFF_UNIT)
    requires InRange(|c.guest.mem|, iob, IOB_SIZE)
    ensures var class_ := ByteAt(c.guest, iob + OFF_CLASS);
            (Mask(Put(c, iob, unit, withInvite, net), iob) == 0x40
             <==> (class_ == CLASS_STATION && HalfAt(c.guest, iob + OFF_LENGTH) > 0 && Buffered(c, iob)
                   && (withInvite ==> !net.sent))
                  || (class_ == CLASS_RESPONSE && StatusFor(c, unit, UnitBlock(c.guest, iob))))
  {
    hide Linear, Causal, GuestStorage.Complete, OutputData, Respond, Open, Valid, Buffered, Mask;
    OpenInv(c, iob, withInvite);
    OpenKeepsBuffer(c, iob, withInvite);
    OutputPosts(Open(c, iob, withInvite), iob, unit, withInvite, net);
    RespondPosts(c, iob, unit);
    MaskPosted(c.guest, iob, 4);
    assert Mask(Controllers.Complete(c, iob, 4), iob) == 0x44 by {
      hide *;
      CompletedMask(c, iob, 4);
    }
  }

  lemma CompletedMask(c: Controller, iob: int, code: nat)
    requires InRange(|c.guest.mem|, iob, IOB_SIZE) && code < 0x10
    ensures Mask(Controllers.Complete(c, iob, code), iob) == 0x40 + code
  {
    hide GuestStorage.Complete;
    MaskPosted(c.guest, iob, code);
  }

  // After any one request its mask is 40 exactly when it was posted so at
  // once, or was 40 already and is not written.
  lemma RequestPostsIff(c: Controller, iob: int, net: Transport)
    requires Inv(c) && InRange(|c.guest.mem|, iob, IOB_SIZE)
    ensures Mask(Request(c, iob, net), iob) == 0x40
       <==> PostsAtOnce(c, iob, net) || (LeavesMask(c, iob) && Mask(c, iob) == 0x40)
  {
    hide Linear, Causal, GuestStorage.Complete, Put, Failed, InviteAll, Valid, Lookup, Set, Displacement, UnitBlock;
    hide B.CaptureAddresses, StatusFor;
    var unit := ByteAt(c.guest, iob + OFF_UNIT);
    CompletedMask(c, iob, 4);
    FailedPosts(c.guest, iob, [0x28, 0, 0, 0, 0x02, 0x03, 0, 0, 0, 0, 0, 0]);
    assert InviteAll(c, iob).guest == c.guest by {
      hide *;
      InviteKeepsGuest(c, iob);
    }
    if unit in c.stations {
      CompletedMask(WithTerminal(c, unit, CancelInvite(c.stations[unit].terminal)), iob, 0);
      PutPostsIff(c, iob, unit, false, net);
      PutPostsIff(c, iob, unit, true, net);
    }
  }

  // ---- only an answer posts 40 -------------------------------------------------------------------------

  // In every state of a run, for every step: the event mask of a retained
  // request turns to 40 only when a pass answers that very request on a status
  // delivered for its unit and unit block, or when the guest asks again with
  // the same request block and that request is posted at once.
  lemma MaskTurnsOnlyAnswered(c: Controller, step: Step, expand: Expand, t: Table, iob: int)
    requires Inv(c) && Owns(c, t, iob) && InRange(|c.guest.mem|, iob, IOB_SIZE) && Apart(c, step, iob)
    ensures var d := Apply(c, step, expand);
            Mask(c, iob) != 0x40 && Mask(d, iob) == 0x40 ==>
              || (step.ControllerPass? && exists u :: Answered(c, d, u, iob))
              || (step.GuestRequest? && step.iob == iob && PostsAtOnce(c, iob, step.net))
  {
    hide Linear, Causal, Lookup, Arrive, Deliver, Request, Pass, SwitchOff, FailOne, Cancel, Answered, StatusKept,
         Mask, UnitBlock;
    hide PostsAtOnce;
    var d := Apply(c, step, expand);
    match step {
      case ControllerPass =>
        PassSpares(c, expand, iob);
        if Mask(c, iob) != 0x40 && ReadWasted(c, d, iob) {
          WastedMask(c, d, iob);
        }
      case FailRequest(unit) => FailOneSpares(c, unit, iob);
      case Terminate(i) =>
        CancelDrops(c, i);
        SameMask(c, d, iob);
      case GuestRequest(j, net) =>
        if j == iob {
          RequestPostsIff(c, iob, net);
        } else {
          RequestSpares(c, j, net, iob);
        }
      case TerminalRecord(unit, keys, saveReply, data) =>
        ArriveKeepsTables(c, unit, keys, saveReply, data);
        SameMask(c, d, iob);
      case StatusPoll(block) => DeliverSpares(c, block, iob);
      case PowerSwitch(unit) =>
        OffKeepsTables(c, unit);
        SameMask(c, d, iob);
      case Bind(unit, detached) => SameMask(c, d, iob);
      case GuestRuns(mem, atr) => RunMask(c, step, expand, iob);
    }
  }

  lemma WastedMask(c: Controller, d: Controller, iob: int)
    requires ReadWasted(c, d, iob) && InRange(|c.guest.mem|, iob, IOB_SIZE) && Mask(c, iob) != 0x40
    ensures Mask(d, iob) != 0x40
  {
    hide Mask, Lookup;
    if Owns(d, INPUTS, iob) {
      SameMask(c, d, iob);
    }
  }

  lemma SameMask(c: Controller, d: Controller, iob: int)
    requires d.guest == c.guest
    ensures Mask(d, iob) == Mask(c, iob)
  {
  }

  lemma RunMask(c: Controller, step: Step, expand: Expand, iob: int)
    requires c.Shaped() && step.GuestRuns? && Apart(c, step, iob)
    ensures Mask(Apply(c, step, expand), iob) == Mask(c, iob)
  {
  }

  // The same at every step of every run.
  lemma RunTurnsOnlyAnswered(start: Controller, steps: seq<Step>, expand: Expand, k: nat, t: Table, iob: int)
    requires Started(start) && k < |steps|
    requires var c := RetainedIo.Run(start, steps[..k], expand);
             Owns(c, t, iob) && InRange(|c.guest.mem|, iob, IOB_SIZE) && Apart(c, steps[k], iob)
    ensures var c, d := RetainedIo.Run(start, steps[..k], expand), RetainedIo.Run(start, steps[..k + 1], expand);
            && (Owns(d, t, iob) || Released(c, steps[k], d, t, iob))
            && (Mask(c, iob) != 0x40 && Mask(d, iob) == 0x40 ==>
                  || (steps[k].ControllerPass? && exists u :: Answered(c, d, u, iob))
                  || (steps[k].GuestRequest? && steps[k].iob == iob && PostsAtOnce(c, iob, steps[k].net)))
  {
    hide Linear, Causal, Lookup, Apply, Apart, Released, Answered, PostsAtOnce, Mask, Started;
    var c := RetainedIo.Run(start, steps[..k], expand);
    assert steps[..k + 1][..k] == steps[..k];
    LeavesOnlyReleased(c, steps[k], expand, t, iob);
    MaskTurnsOnlyAnswered(c, steps[k], expand, t, iob);
  }

  // ---- a claim that was never reported -----------------------------------------------------------------

  // A request block that asks unit `unit` for a PUT-with-invite, and is its own
  // unit block.
  ghost predicate AsksInvite(c: Controller, iob: int, unit: int) {
    && iob > 0 && IsUnitBlock(c.guest, iob) && Dispatched(c, iob) && unit == ByteAt(c.guest, iob + OFF_UNIT)
    && ByteAt(c.guest, iob + OFF_CLASS) == CLASS_STATION && ByteAt(c.guest, iob + OFF_COMMAND) == 0xA7
    && HalfAt(c.guest, iob + OFF_LENGTH) > 0 && Buffered(c, iob)
  }

  // The request is retained and the block still names the unit.
  ghost predicate Invited(c: Controller, iob: int, unit: int) {
    && iob > 0 && IsUnitBlock(c.guest, iob) && unit == ByteAt(c.guest, iob + OFF_UNIT) && unit in c.stations
    && c.puts == Slots([Entry(iob, Waiting(unit, iob), true)], []) && c.waits == Clear()
  }

  lemma InviteRetained(c: Controller, iob: int, unit: int, resumed: bool)
    requires Inv(c) && AsksInvite(c, iob, unit) && c.waits == Clear() && c.puts == Clear()
    ensures var d := Request(c, iob, Transport(true, resumed));
            && Invited(d, iob, unit) && unit in d.stations && d.log == c.log + [Retired(unit)] && d.next == c.next
            && d.stations[unit].terminal.inbound == c.stations[unit].terminal.inbound
            && d.stations[unit].terminal.headTaken == c.stations[unit].terminal.headTaken
            && d.stations[unit].terminal.retained == c.stations[unit].terminal.retained
  {
    hide Linear, Causal, Erase, Transmit, Gather, B.CaptureAddresses, Arm, Open, Fetch;
    var net, open := Transport(true, resumed), Open(c, iob, true);
    OpenInv(c, iob, true);
    OpenNotes(c, iob, unit);
    OpenKeepsBuffer(c, iob, true);
    OpenKeepsField(c, iob, true, iob, 2);
    OpenKeepsField(c, iob, true, iob + OFF_UNIT, 1);
    var field, length := Addr24At(open.guest, iob + OFF_BUFFER), HalfAt(open.guest, iob + OFF_LENGTH);
    B.CapturedInside(open.guest, field, length);
    var source := B.CaptureAddresses(open.guest, field, length).value;
    TransmitKeeps(c.stations[unit].terminal, Gather(open.guest.mem, source), true, net);
    ArmFetches(open.guest, iob);
  }

  lemma OpenNotes(c: Controller, iob: int, unit: int)
    requires c.Shaped() && unit == ByteAt(c.guest, iob + OFF_UNIT)
    ensures var d := Open(c, iob, true);
            && d.log == c.log + [Retired(unit)] && d.puts == c.puts && d.waits == c.waits && d.next == c.next
            && d.stations == c.stations
  {
    hide Erase, Without, Fetch, WriteByte, Valid;
    var g1 := WriteByte(c.guest, iob + 6, Without(ByteAt(c.guest, iob + 6), 0x04));
    var g2 := WriteByte(g1, iob + 6, Without(ByteAt(g1, iob + 6), 0x80));
    FetchPast(c.guest, iob + 6, Without(ByteAt(c.guest, iob + 6), 0x04), iob + OFF_UNIT, 1);
    FetchPast(g1, iob + 6, Without(ByteAt(g1, iob + 6), 0x80), iob + OFF_UNIT, 1);
    FetchPast(g2, iob + 9, Without(ByteAt(g2, iob + 9), 0x80), iob + OFF_UNIT, 1);
  }

  lemma ArmFetches(g: Guest, iob: int)
    ensures Fetch(Arm(g, iob), iob, 2) == Fetch(g, iob, 2)
    ensures Fetch(Arm(g, iob), iob + OFF_UNIT, 1) == Fetch(g, iob + OFF_UNIT, 1)
  {
    hide Fetch, ArmByte;
    var v := ArmByte(ByteAt(g, iob + OFF_COMPLETION));
    FetchPast(g, iob + OFF_COMPLETION, v, iob, 2);
    FetchPast(g, iob + OFF_COMPLETION, v, iob + OFF_UNIT, 1);
  }

  function Overtaking(iob: int, unit: int, resumed: bool, first: seq<byte>, second: seq<byte>): seq<Step> {
    [GuestRequest(iob, Transport(true, resumed)), TerminalRecord(unit, Attention(false, false), false, first),
     StatusPoll(iob), TerminalRecord(unit, Attention(false, false), false, second), ControllerPass]
  }

  // From every start where the guest asks a unit for a PUT-with-invite, this
  // run completes it with the second of two records: its status was never
  // reported, and the record whose status was reported is lost.
  lemma OvertakenRun(start: Controller, iob: int, unit: int, resumed: bool, first: seq<byte>, second: seq<byte>,
                     expand: Expand)
    requires Started(start) && AsksInvite(start, iob, unit) && |first| >= 3
    ensures RetainedIo.Run(start, Overtaking(iob, unit, resumed, first, second), expand).log
         == [Retired(unit), Accepted(unit, start.next), Reported(unit, start.next, iob), Lost(unit, start.next),
             Accepted(unit, start.next + 1), Claimed(unit, start.next + 1, iob, iob)]
  {
    hide *;
    var steps := Overtaking(iob, unit, resumed, first, second);
    OvertakenChain(start, iob, unit, resumed, first, second, expand);
    FiveSteps(start, iob, unit, resumed, first, second, expand);
  }

  lemma RunStep(start: Controller, steps: seq<Step>, expand: Expand, k: nat)
    requires Started(start) && k < |steps|
    ensures RetainedIo.Run(start, steps[..k + 1], expand)
         == Apply(RetainedIo.Run(start, steps[..k], expand), steps[k], expand)
  {
    hide Started, Apply, Linear, Causal;
    assert steps[..k + 1][..k] == steps[..k];
  }

  ghost function Chain(start: Controller, steps: seq<Step>, expand: Expand): Controller
    requires Started(start) && |steps| == 5
  {
    StartInv(start);
    StepInv(start, steps[0], expand);
    var c1 := Apply(start, steps[0], expand);
    StepInv(c1, steps[1], expand);
    var c2 := Apply(c1, steps[1], expand);
    StepInv(c2, steps[2], expand);
    var c3 := Apply(c2, steps[2], expand);
    StepInv(c3, steps[3], expand);
    Apply(Apply(c3, steps[3], expand), steps[4], expand)
  }

  lemma FiveSteps(start: Controller, iob: int, unit: int, resumed: bool, first: seq<byte>, second: seq<byte>,
                  expand: Expand)
    requires Started(start)
    ensures var steps := Overtaking(iob, unit, resumed, first, second);
            RetainedIo.Run(start, steps, expand) == Chain(start, steps, expand)
  {
    hide RetainedIo.Run, Started, Apply, Inv;
    var steps := Overtaking(iob, unit, resumed, first, second);
    assert steps[..5] == steps && steps[..0] == [];
    RunStep(start, steps, expand, 0);
    RunStep(start, steps, expand, 1);
    RunStep(start, steps, expand, 2);
    RunStep(start, steps, expand, 3);
    RunStep(start, steps, expand, 4);
    RunNothing(start, expand);
  }

  lemma RunNothing(start: Controller, expand: Expand)
    requires Started(start)
    ensures RetainedIo.Run(start, [], expand) == start
  {
  }

  // The first three steps leave the request retained with its status reported.
  lemma ReportedChain(start: Controller, iob: int, unit: int, resumed: bool, first: seq<byte>, expand: Expand)
    requires Started(start) && AsksInvite(start, iob, unit) && |first| >= 3
    ensures var n := start.next;
            var c1 := Request(start, iob, Transport(true, resumed));
            Inv(c1) && unit in c1.stations &&
            var c2 := Arrive(c1, unit, Attention(false, false), false, first);
            Inv(c2) &&
            var d := Deliver(c2, iob);
            && Inv(d) && unit in d.stations && d.next == n + 1 && StatusFor(d, unit, iob)
            && d.waits == Clear() && d.puts == Slots([Entry(iob, Waiting(unit, iob), true)], [])
            && |d.stations[unit].terminal.inbound| == 1 && d.stations[unit].terminal.inbound[0].serial == n
            && d.stations[unit].terminal.retained == None
            && d.log == [Retired(unit), Accepted(unit, n), Reported(unit, n, iob)]
  {
    hide Linear, Causal, Request, Arrive, Deliver, Pass, Started, AsksInvite, Invited, Apply, Inv, Lookup;
    var n := start.next;
    StartInv(start);
    StartEmpty(start, iob, unit);
    RequestInv(start, iob, Transport(true, resumed));
    var c1 := Request(start, iob, Transport(true, resumed));
    InviteRetained(start, iob, unit, resumed);
    var c2 := Arrive(c1, unit, Attention(false, false), false, first);
    ArriveInv(c1, unit, first, expand);
    FirstArrives(c1, iob, unit, first, n);
    DeliverInv(c2, iob, expand);
    StillInvited(c2, iob, unit);
    StatusGoes(c2, iob, unit, n);
  }

  lemma StillInvited(c: Controller, iob: int, unit: int)
    requires Inv(c) && Invited(c, iob, unit)
    ensures c.Shaped() && iob > 0 && c.waits == Clear() && c.puts == Slots([Entry(iob, Waiting(unit, iob), true)], [])
  {
    hide Linear, Causal;
  }

  lemma ArriveInv(c: Controller, unit: int, data: seq<byte>, expand: Expand)
    requires Inv(c) && unit in c.stations
    ensures Inv(Arrive(c, unit, Attention(false, false), false, data))
  {
    hide Arrive, Inv;
    InvShaped(c);
    StepInv(c, TerminalRecord(unit, Attention(false, false), false, data), expand);
  }

  lemma DeliverInv(c: Controller, block: int, expand: Expand)
    requires Inv(c)
    ensures c.Shaped() && Inv(Deliver(c, block))
  {
    hide Deliver, Inv;
    InvShaped(c);
    StepInv(c, StatusPoll(block), expand);
  }

  lemma InvShaped(c: Controller)
    requires Inv(c)
    ensures c.Shaped()
  {
    hide Linear, Causal;
  }

  lemma OvertakenChain(start: Controller, iob: int, unit: int, resumed: bool, first: seq<byte>, second: seq<byte>,
                       expand: Expand)
    requires Started(start) && AsksInvite(start, iob, unit) && |first| >= 3
    ensures Chain(start, Overtaking(iob, unit, resumed, first, second), expand).log
         == [Retired(unit), Accepted(unit, start.next), Reported(unit, start.next, iob), Lost(unit, start.next),
             Accepted(unit, start.next + 1), Claimed(unit, start.next + 1, iob, iob)]
  {
    hide Linear, Causal, Request, Arrive, Deliver, Pass, Started, AsksInvite, Lookup, Inv;
    ReportedChain(start, iob, unit, resumed, first, expand);
    InvShaped(start) by {
      StartInv(start);
    }
    var c1 := Request(start, iob, Transport(true, resumed));
    InvShaped(c1);
    var c2 := Arrive(c1, unit, Attention(false, false), false, first);
    InvShaped(c2);
    var c3 := Deliver(c2, iob);
    SecondArrives(c3, iob, unit, second, start.next);
    SecondClaimed(Arrive(c3, unit, Attention(false, false), false, second), iob, unit, start.next, expand);
  }

  lemma StartEmpty(start: Controller, iob: int, unit: int)
    requires Started(start) && AsksInvite(start, iob, unit)
    ensures iob > 0 && start.waits == Clear() && start.puts == Clear() && start.log == [] && unit in start.stations
    ensures start.stations[unit].terminal == IDLE
  {
  }

  lemma FirstArrives(c: Controller, iob: int, unit: int, data: seq<byte>, n: nat)
    requires Invited(c, iob, unit) && c.next == n
    requires c.stations[unit].terminal.inbound == [] && !c.stations[unit].terminal.headTaken
    ensures var d := Arrive(c, unit, Attention(false, false), false, data);
            && Invited(d, iob, unit) && unit in d.stations && d.next == n + 1 && d.log == c.log + [Accepted(unit, n)]
            && d.stations[unit].terminal.inbound == [Record(n, data)] && !d.stations[unit].terminal.headTaken
            && d.stations[unit].terminal.retained == c.stations[unit].terminal.retained
  {
  }

  lemma StatusGoes(c: Controller, iob: int, unit: int, n: nat)
    requires c.Shaped() && Invited(c, iob, unit) && iob > 0 && StatusReady(c.stations[unit].terminal)
    requires c.stations[unit].terminal.inbound[0].serial == n && |c.stations[unit].terminal.inbound| == 1
    ensures var d := Deliver(c, iob);
            && unit in d.stations && d.puts == c.puts && d.waits == c.waits && d.next == c.next
            && d.log == c.log + [Reported(unit, n, iob)] && StatusFor(d, unit, iob)
            && d.stations[unit].terminal == TakeStatus(c.stations[unit].terminal)
  {
    hide ReportToGuest, Set;
    var r := c.stations[unit].terminal.inbound[0];
    SetLookup(c.status, unit, Status(iob, StatusBytes(r.data)), unit);
  }

  lemma SecondArrives(c: Controller, iob: int, unit: int, data: seq<byte>, n: nat)
    requires unit in c.stations && c.next == n + 1 && StatusFor(c, unit, iob)
    requires |c.stations[unit].terminal.inbound| == 1 && c.stations[unit].terminal.inbound[0].serial == n
    ensures var d := Arrive(c, unit, Attention(false, false), false, data);
            && unit in d.stations && d.puts == c.puts && d.waits == c.waits && StatusFor(d, unit, iob)
            && d.stations[unit].terminal.inbound == [Record(n + 1, data)]
            && d.stations[unit].terminal.retained == c.stations[unit].terminal.retained
            && d.log == c.log + [Lost(unit, n), Accepted(unit, n + 1)]
  {
    hide Lookup;
  }

  lemma SecondClaimed(c: Controller, iob: int, unit: int, n: nat, expand: Expand)
    requires unit in c.stations && StatusFor(c, unit, iob) && c.stations[unit].terminal.retained == None
    requires c.waits == Clear() && c.puts == Slots([Entry(iob, Waiting(unit, iob), true)], [])
    requires c.stations[unit].terminal.inbound != [] && c.stations[unit].terminal.inbound[0].serial == n + 1
    ensures Pass(c, expand).log == c.log + [Claimed(unit, n + 1, iob, iob)]
  {
    hide Lookup, GuestStorage.Complete, Erase, FinishWait, FinishRead;
  }

  // Such a start: one display at unit 11, and a unit block at 100 asking it.
  ghost function AskingStart(): Controller {
    var block: seq<byte> := [0xE3, 0xE4, 0, 0, 0, 0, 0, 0, 0, 0, 0xC0, 0xA7, 0x11, 0, 0, 0, 0, 1];
    Controller(Guest(Repeat(0, 0x100) + block + Repeat(0, 0x100), Repeat(0, ATR_COUNT), false),
               map[0x11 := Station(IDLE, false)], Clear(), Clear(), Clear(), Clear(), Clear(), None, {}, 0, [])
  }

  lemma AskingStartAsks()
    ensures Started(AskingStart()) && AsksInvite(AskingStart(), 0x100, 0x11)
  {
    hide Fetch, B.CaptureAddresses, HalfAt, Addr24At, ByteAt;
    var c := AskingStart();
    AskingBytes(c.guest);
    FirstByteCaptured(c.guest);
  }

  lemma FirstByteCaptured(g: Guest)
    requires g.Valid() && |g.mem| > 0
    ensures B.CaptureAddresses(g, 0, 1).Some?
  {
    assert forall n: nat | n < 1 :: B.Captured(g, 0, n);
  }

  lemma AskingBytes(g: Guest)
    requires g == AskingStart().guest
    ensures IsUnitBlock(g, 0x100) && ByteAt(g, 0x10A) == 0xC0 && ByteAt(g, 0x10B) == 0xA7 && ByteAt(g, 0x10C) == 0x11
    ensures Addr24At(g, 0x10D) == 0 && HalfAt(g, 0x110) == 1
  {
    var block: seq<byte> := [0xE3, 0xE4, 0, 0, 0, 0, 0, 0, 0, 0, 0xC0, 0xA7, 0x11, 0, 0, 0, 0, 1];
    assert forall i | 0 <= i < 0x12 :: g.mem[0x100 + i] == block[i];
    assert g.mem[0x100] == block[0] && g.mem[0x101] == block[1] && g.mem[0x10A] == block[0xA]
           && g.mem[0x10B] == block[0xB];
    assert g.mem[0x10C] == block[0xC] && g.mem[0x10D] == block[0xD] && g.mem[0x10E] == block[0xE];
    assert g.mem[0x10F] == block[0xF] && g.mem[0x110] == block[0x10] && g.mem[0x111] == block[0x11];
  }
}
