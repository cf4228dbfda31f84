// One work station request, told from the bytes of its block: what it posts,
// and what the controller keeps of it.
module RequestOutcomes {
  import opened Bytes
  import opened GuestStorage
  import opened SlotMaps
  import opened Terminals
  import opened Controllers
  import opened RetainedIo
  import opened FieldReads
  import Completions
  import B = BufferCapture

  ghost predicate InBlock(c: Controller, iob: int) {
    c.guest.Valid() && InRange(|c.guest.mem|, iob, 0x18)
  }

  ghost function Class(c: Controller, iob: int): byte
    requires InBlock(c, iob)
  {
    c.guest.mem[iob + 10]
  }

  ghost function Command(c: Controller, iob: int): byte
    requires InBlock(c, iob)
  {
    c.guest.mem[iob + 11]
  }

  ghost function Unit(c: Controller, iob: int): byte
    requires InBlock(c, iob)
  {
    c.guest.mem[iob + 12]
  }

  ghost function Length(c: Controller, iob: int): nat
    requires InBlock(c, iob)
  {
    (c.guest.mem[iob + 16] as int) * 0x100 + c.guest.mem[iob + 17]
  }

  // Every byte of the buffer is mapped and in storage.
  ghost predicate BufferThere(c: Controller, iob: int)
    requires InBlock(c, iob)
  {
    AllReachable(c.guest, Number(c.guest.mem, iob + 13), Length(c, iob))
  }

  ghost predicate AllReachable(g: Guest, field: addr24, length: nat)
    requires g.Valid()
  {
    forall n: nat | n < length :: B.Reachable(g, field, n)
  }

  // The request comes to a display that is there to take it.
  ghost predicate Reaches(c: Controller, iob: int)
    requires InBlock(c, iob)
  {
    && Class(c, iob) / 0x10 == 0xC && Unit(c, iob) != 0xFF && Unit(c, iob) as int in c.stations
    && !c.stations[Unit(c, iob) as int].detached
  }

  // A status was reported for the unit and the unit block the request names.
  ghost predicate Answerable(c: Controller, iob: int)
    requires InBlock(c, iob)
  {
    var s := Lookup(c.status, Unit(c, iob));
    s.Some? && s.value.block == NamedBlock(c.guest.mem, iob)
  }

  // The output requests 27 and, with an invitation, A7.
  ghost predicate Outputs(c: Controller, iob: int, class_: byte)
    requires InBlock(c, iob)
  {
    Reaches(c, iob) && Command(c, iob) in {0x27, 0xA7} && Class(c, iob) == class_
  }

  // Completed with 40 before the request returns.
  ghost predicate DoneAtOnce(c: Controller, iob: int, net: Transport)
    requires InBlock(c, iob)
  {
    || (Reaches(c, iob) && Command(c, iob) == 0xC3)
    || (Outputs(c, iob, 0xC0) && Length(c, iob) > 0 && BufferThere(c, iob) && (Command(c, iob) == 0xA7 ==> !net.sent))
    || (Outputs(c, iob, 0xC1) && Answerable(c, iob))
  }

  // The event mask left alone: an invitation to all, and a read kept.
  ghost predicate MaskLeft(c: Controller, iob: int)
    requires InBlock(c, iob)
  {
    || (Class(c, iob) / 0x10 == 0xC && Unit(c, iob) == 0xFF)
    || (&& Reaches(c, iob) && Command(c, iob) in {0x22, 0x32, 0x42}
        && (Lookup(c.inputs, iob).Some? || BufferThere(c, iob)))
  }

  lemma BytesOf(c: Controller, iob: int)
    requires InBlock(c, iob)
    ensures ByteAt(c.guest, iob + OFF_CLASS) == Class(c, iob) && ByteAt(c.guest, iob + OFF_COMMAND) == Command(c, iob)
    ensures ByteAt(c.guest, iob + OFF_UNIT) == Unit(c, iob) && HalfAt(c.guest, iob + OFF_LENGTH) == Length(c, iob)
    ensures Addr24At(c.guest, iob + OFF_BUFFER) == Number(c.guest.mem, iob + 13)
    ensures UnitBlock(c.guest, iob) == NamedBlock(c.guest.mem, iob)
    ensures B.CaptureAddresses(c.guest, Number(c.guest.mem, iob + 13), Length(c, iob)).Some? <==> BufferThere(c, iob)
  {
    hide B.Reachable, B.CaptureAddresses;
    HalfLies(c.guest, iob + 16);
    NumberAt(c.guest, iob + 13);
    BlockLies(c.guest, iob);
    B.CaptureLies(c.guest, Number(c.guest.mem, iob + 13), Length(c, iob));
  }

  // After a request its completion byte is 40 exactly when it was done at
  // once, or when it held 40 and was left alone.
  lemma RequestPosts(c: Controller, iob: int, net: Transport)
    requires Inv(c) && InBlock(c, iob)
    ensures ByteAt(Request(c, iob, net).guest, iob + 6) == 0x40
       <==> DoneAtOnce(c, iob, net) || (MaskLeft(c, iob) && c.guest.mem[iob + 6] == 0x40)
  {
    hide Linear, Causal, Request, NamedBlock, BufferThere, Class, Command, Unit, Length, Lookup, Number, UnitBlock,
         B.CaptureAddresses;
    BytesOf(c, iob);
    Completions.RequestPostsIff(c, iob, net);
  }

  // What the controller keeps of a request, and which table it is in: an
  // accepted PUT-with-invite, a class-C1 request with no status to answer it, a
  // read with its buffer, an invitation to all; every other request leaves the
  // tables as they are.
  lemma RequestRetains(c: Controller, iob: int, net: Transport)
    requires Inv(c) && InBlock(c, iob)
    ensures var d, w := Request(c, iob, net), Waiting(Unit(c, iob), NamedBlock(c.guest.mem, iob));
            && d.puts == (if Outputs(c, iob, 0xC0) && Command(c, iob) == 0xA7 && Length(c, iob) > 0
                          && BufferThere(c, iob)
                             && net.sent
                          then Set(c.puts, iob, w) else c.puts)
            && d.waits == (if Outputs(c, iob, 0xC1) && !Answerable(c, iob) then Set(c.waits, iob, w) else c.waits)
            && d.invites == (if Class(c, iob) / 0x10 == 0xC && Unit(c, iob) == 0xFF then c.invites + {iob}
                             else c.invites)
            && (if Reaches(c, iob) && Command(c, iob) in {0x22, 0x32, 0x42} && BufferThere(c, iob)
                   && Lookup(c.inputs, iob).None?
                then Lookup(d.inputs, iob).Some? && IssuedBy(c.guest, iob, Lookup(d.inputs, iob).value)
                else d.inputs == c.inputs)
  {
    hide Put, RequestFields, GuestStorage.Complete, Failed, NotAttached, CancelInvite, Valid, Lookup, Inv, IssuedBy,
         NamedBlock, BufferThere, Class, Command, Unit, Length, Set, UnitBlock;
    BytesOf(c, iob);
    assert c.Shaped() by {
      InvShape(c);
    }
    var unit: int := Unit(c, iob);
    if unit in c.stations {
      PutRetains(c, iob, unit, false, net);
      PutRetains(c, iob, unit, true, net);
      FieldsRetain(c, iob, unit);
    }
  }

  lemma InvShape(c: Controller)
    requires Inv(c)
    ensures c.Shaped()
  {
    hide Linear, Causal;
  }

  lemma FieldsRetain(c: Controller, iob: int, unit: int)
    requires c.Shaped() && InBlock(c, iob) && unit in c.stations && unit == ByteAt(c.guest, iob + OFF_UNIT)
    ensures var d := RequestFields(c, iob, unit);
            && d.puts == c.puts && d.waits == c.waits && d.invites == c.invites
            && (if BufferThere(c, iob) && Lookup(c.inputs, iob).None?
                then Lookup(d.inputs, iob).Some? && IssuedBy(c.guest, iob, Lookup(d.inputs, iob).value)
                else d.inputs == c.inputs)
  {
    hide Set, UnitBlock, Valid, GuestStorage.Complete, Displacement, Lookup, NamedBlock, BufferThere, Length, IssuedBy,
         Number;
    BytesOf(c, iob);
    var d := RequestFields(c, iob, unit);
    if BufferThere(c, iob) && Lookup(c.inputs, iob).None? {
      var field, capacity := Addr24At(c.guest, iob + OFF_BUFFER), HalfAt(c.guest, iob + OFF_LENGTH);
      var p := PendingRead(unit, UnitBlock(c.guest, iob), ByteAt(c.guest, iob + OFF_COMMAND), field,
                           B.CaptureAddresses(c.guest, field, capacity).value, capacity, Displacement(c, iob, unit));
      SetLookup(c.inputs, iob, p, iob);
      FieldsIssue(c, iob, unit, p);
    }
  }

  lemma PutRetains(c: Controller, iob: int, unit: int, withInvite: bool, net: Transport)
    requires c.Shaped() && InBlock(c, iob) && unit in c.stations && unit == ByteAt(c.guest, iob + OFF_UNIT)
    ensures var d, w := Put(c, iob, unit, withInvite, net), Waiting(unit, NamedBlock(c.guest.mem, iob));
            && d.inputs == c.inputs && d.invites == c.invites
            && d.puts == (if Class(c, iob) == 0xC0 && withInvite && Length(c, iob) > 0 && BufferThere(c, iob)
                          && net.sent
                          then Set(c.puts, iob, w) else c.puts)
            && d.waits == (if Class(c, iob) == 0xC1 && !Answerable(c, iob) then Set(c.waits, iob, w) else c.waits)
  {
    hide OutputData, Open, Respond, Set, Erase, UnitBlock, Valid, GuestStorage.Complete, Lookup, NamedBlock,
         BufferThere,
         Number, Class, Length, Unit;
    BytesOf(c, iob);
    OpenMovesNothing(c, iob, withInvite);
    OpenRetains(c, iob, withInvite);
    EraseValid(c.status, ByteAt(c.guest, iob + OFF_UNIT), NO_STATUS);
    OutputRetains(Open(c, iob, withInvite), iob, unit, withInvite, net);
    RespondRetains(c, iob, unit);
  }

  lemma RespondRetains(c: Controller, iob: int, unit: int)
    requires c.Shaped() && unit in c.stations
    ensures var d, block := Respond(c, iob, unit), UnitBlock(c.guest, iob);
            && d.inputs == c.inputs && d.invites == c.invites && d.puts == c.puts
            && d.waits == (if StatusFor(c, unit, block) then c.waits else Set(c.waits, iob, Waiting(unit, block)))
  {
    hide Set, Erase, Arm, UnitBlock, Valid, Lookup, ImportStatus, GuestStorage.Complete, Invite;
  }

  // Opening the action leaves the block's buffer and unit block where they
  // were.
  lemma OpenRetains(c: Controller, iob: int, withInvite: bool)
    requires c.Shaped() && InBlock(c, iob)
    ensures var d := Open(c, iob, withInvite);
            && InBlock(d, iob) && d.inputs == c.inputs && d.invites == c.invites && d.waits == c.waits
            && Length(d, iob) == Length(c, iob) && (BufferThere(d, iob) <==> BufferThere(c, iob))
            && NamedBlock(d.guest.mem, iob) == NamedBlock(c.guest.mem, iob)
  {
    OpenTables(c, iob, withInvite);
    Completions.OpenKeepsField(c, iob, withInvite, iob, 2);
    Completions.OpenKeepsField(c, iob, withInvite, iob + 0x0D, 0x0B);
    hide Open, NamedBlock, Length, BufferThere;
    SameBytes(c, Open(c, iob, withInvite), iob);
  }

  lemma OpenTables(c: Controller, iob: int, withInvite: bool)
    ensures var d := Open(c, iob, withInvite); d.inputs == c.inputs && d.invites == c.invites && d.waits == c.waits
  {
    hide Erase, ByteAt, Without, WriteByte;
  }

  lemma SameBytes(c: Controller, d: Controller, iob: int)
    requires InBlock(c, iob) && d.guest.Valid() && |d.guest.mem| == |c.guest.mem| && d.guest.atr == c.guest.atr
    requires Fetch(d.guest, iob, 2) == Fetch(c.guest, iob, 2)
    requires Fetch(d.guest, iob + 0x0D, 0x0B) == Fetch(c.guest, iob + 0x0D, 0x0B)
    ensures Length(d, iob) == Length(c, iob) && (BufferThere(d, iob) <==> BufferThere(c, iob))
    ensures NamedBlock(d.guest.mem, iob) == NamedBlock(c.guest.mem, iob)
  {
    hide B.Reachable;
    var m, n := c.guest.mem, d.guest.mem;
    assert m[iob..iob + 2] == n[iob..iob + 2] && m[iob + 0x0D..iob + 0x18] == n[iob + 0x0D..iob + 0x18];
    assert m[iob] == m[iob..iob + 2][0] && m[iob + 1] == m[iob..iob + 2][1];
    assert n[iob] == n[iob..iob + 2][0] && n[iob + 1] == n[iob..iob + 2][1];
    forall x | iob + 0x0D <= x < iob + 0x18
      ensures m[x] == n[x]
    {
      assert m[x] == m[iob + 0x0D..iob + 0x18][x - iob - 0x0D] && n[x] == n[iob + 0x0D..iob + 0x18][x - iob - 0x0D];
    }
    SameReach(c.guest, d.guest, Number(m, iob + 13), Length(c, iob));
  }

  lemma SameReach(g: Guest, h: Guest, field: addr24, length: nat)
    requires g.Valid() && h.Valid() && h.atr == g.atr && |h.mem| == |g.mem|
    ensures AllReachable(h, field, length) <==> AllReachable(g, field, length)
  {
    forall n: nat
      ensures B.Reachable(h, field, n) <==> B.Reachable(g, field, n)
    {
    }
  }

  lemma OutputRetains(c: Controller, iob: int, unit: int, withInvite: bool, net: Transport)
    requires InBlock(c, iob) && unit in c.stations && Valid(c.staging) && Valid(c.puts)
    ensures var d := OutputData(c, iob, unit, withInvite, net);
            && d.inputs == c.inputs && d.invites == c.invites && d.waits == c.waits
            && d.puts == (if withInvite && Length(c, iob) > 0 && BufferThere(c, iob) && net.sent
                          then Set(c.puts, iob, Waiting(unit, NamedBlock(c.guest.mem, iob))) else c.puts)
  {
    hide GuestStorage.Complete, Transmit, Set, Arm, Gather, Valid, UnitBlock, BufferThere, NamedBlock, Number, Length;
    BytesOf(c, iob);
    ArmedBlock(c, iob);
    var field, length := Number(c.guest.mem, iob + 13), Length(c, iob);
    if length != 0 && BufferThere(c, iob) {
      B.CapturedInside(c.guest, field, length);
      var data := Gather(c.guest.mem, B.CaptureAddresses(c.guest, field, length).value);
      TransmitKeeps(c.stations[unit].terminal, data, withInvite, net);
    }
  }

  lemma ArmedBlock(c: Controller, iob: int)
    requires InBlock(c, iob)
    ensures UnitBlock(Arm(c.guest, iob), iob) == NamedBlock(c.guest.mem, iob)
  {
    var g := Arm(c.guest, iob);
    assert |g.mem| == |c.guest.mem| && forall x | iob <= x < iob + 0x18 && x != iob + 6 :: g.mem[x] == c.guest.mem[x];
    BlockLies(g, iob);
  }

  // ---- a request failed ------------------------------------------------------------------

  // The command echoed at 12, the sense bytes, the class back to C0 in the unit
  // block if there is one, and 41.
  ghost predicate FailureLeft(m: seq<byte>, n: seq<byte>, iob: int, sense: seq<byte>)
    requires Spread(m, iob, []) && |sense| == 12
  {
    var block := NamedBlock(m, iob);
    && |n| == |m| && n[iob + 6] == 0x41 && n[iob + 2..iob + 5] == [0, 0, 0]
    && (Carries(m, block) ==>
          n[block + 0x13..block + 0x1F] == sense && n[block + 0x0A] == 0xC0 && n[block + 0x12] == m[block + 0x0B])
    && forall x | 0 <= x < |m| && !(iob + 2 <= x < iob + 7)
                  && !(Carries(m, block) && (x == block + 0x0A || block + 0x12 <= x < block + 0x1F)) ::
         n[x] == m[x]
  }

  lemma FailedLeaves(g: Guest, iob: int, sense: seq<byte>)
    requires Spread(g.mem, iob, []) && |sense| == 12
    ensures FailureLeft(g.mem, Failed(g, iob, sense).mem, iob, sense)
  {
    hide NamedBlock, UnitBlock, IsUnitBlock, GuestStorage.Complete, StoreAt;
    PokeNone(g.mem);
    UnitBlockOf(g.mem, g, iob, [], []);
    var block := NamedBlock(g.mem, iob);
    if Carries(g.mem, block) {
      SenseStored(g, block, sense);
      var told := WriteByte(StoreAt(WriteByte(g, block + 0x12, ByteAt(g, block + 0x0B)), block + 0x13, sense),
                            block + 0x0A, 0xC0);
      MaskSet(told, iob);
      var n := GuestStorage.Complete(told, iob, 1).mem;
      assert n[block + 0x13..block + 0x1F] == told.mem[block + 0x13..block + 0x1F];
    } else {
      MaskSet(g, iob);
    }
  }

  lemma MaskSet(g: Guest, iob: int)
    requires InRange(|g.mem|, iob, 0x18)
    ensures var h := GuestStorage.Complete(g, iob, 1);
            && |h.mem| == |g.mem| && h.mem[iob + 6] == 0x41 && h.mem[iob + 2..iob + 5] == [0, 0, 0]
            && forall x | 0 <= x < |g.mem| && !(iob + 2 <= x < iob + 7) :: h.mem[x] == g.mem[x]
  {
    assert Addr24Bytes(0) == [0, 0, 0];
  }

  lemma SenseStored(g: Guest, block: int, sense: seq<byte>)
    requires InRange(|g.mem|, block, 0x8E) && |sense| == 12
    ensures var h := WriteByte(StoreAt(WriteByte(g, block + 0x12, ByteAt(g, block + 0x0B)), block + 0x13, sense),
                               block + 0x0A, 0xC0);
            && |h.mem| == |g.mem| && h.mem[block + 0x13..block + 0x1F] == sense && h.mem[block + 0x0A] == 0xC0
            && h.mem[block + 0x12] == g.mem[block + 0x0B]
            && forall x | 0 <= x < |g.mem| && x != block + 0x0A && !(block + 0x12 <= x < block + 0x1F) ::
                 h.mem[x] == g.mem[x]
  {
    hide StoreAt;
    var echoed := WriteByte(g, block + 0x12, ByteAt(g, block + 0x0B));
    StoredAt(echoed, block + 0x13, sense);
    var saved := StoreAt(echoed, block + 0x13, sense);
    assert saved.mem[block + 0x13..block + 0x1F] == sense;
    var h := WriteByte(saved, block + 0x0A, 0xC0);
    assert h.mem[block + 0x13..block + 0x1F] == saved.mem[block + 0x13..block + 0x1F];
  }

  // A switched-off station fails its requests with sense 22 and 80, one at a
  // time; a request to a display that was switched off since it was bound
  // fails with 28, 02 and 03.
  lemma PowerOffSense(c: Controller, unit: int)
    requires c.Shaped() && FailOne(c, unit) != c
    ensures exists iob: int :: OwnedBy(c, unit, iob) && FailedWith22(c.guest.mem, FailOne(c, unit).guest.mem, iob)
  {
    hide Failed, Erase, Lookup, Valid, OwnedBy, FailedWith22;
    var p, r, w := FirstWaitOf(c.puts.entries, unit, 0), FirstReadOf(c.inputs.entries, unit, 0),
                   FirstWaitOf(c.waits.entries, unit, 0);
    var iob := if p < |c.puts.entries| then c.puts.entries[p].key
               else if r < |c.inputs.entries| then c.inputs.entries[r].key
               else c.waits.entries[w].key;
    assert FailOne(c, unit).guest == PoweredOff(c.guest, iob);
    OwnsFirst(c, unit, iob, p, r, w);
    PoweredOffLeaves(c.guest, iob);
  }

  ghost predicate OwnedBy(c: Controller, unit: int, iob: int) {
    || (Lookup(c.puts, iob).Some? && Lookup(c.puts, iob).value.unit == unit)
    || (Lookup(c.inputs, iob).Some? && Lookup(c.inputs, iob).value.unit == unit)
    || (Lookup(c.waits, iob).Some? && Lookup(c.waits, iob).value.unit == unit)
  }

  ghost predicate FailedWith22(m: seq<byte>, n: seq<byte>, iob: int) {
    Spread(m, iob, []) ==> FailureLeft(m, n, iob, [0x22, 0, 0, 0, 0, 0, 0, 0x80, 0, 0, 0, 0])
  }

  lemma PoweredOffLeaves(g: Guest, iob: int)
    ensures FailedWith22(g.mem, PoweredOff(g, iob).mem, iob)
  {
    hide Failed, FailureLeft, Spread;
    if Spread(g.mem, iob, []) {
      FailedLeaves(g, iob, [0x22, 0, 0, 0, 0, 0, 0, 0x80, 0, 0, 0, 0]);
    }
  }

  lemma OwnsFirst(c: Controller, unit: int, iob: int, p: nat, r: nat, w: nat)
    requires c.Shaped() && p == FirstWaitOf(c.puts.entries, unit, 0) && r == FirstReadOf(c.inputs.entries, unit, 0)
    requires w == FirstWaitOf(c.waits.entries, unit, 0)
    requires p < |c.puts.entries| || r < |c.inputs.entries| || w < |c.waits.entries|
    requires iob == if p < |c.puts.entries| then c.puts.entries[p].key
                    else if r < |c.inputs.entries| then c.inputs.entries[r].key
                    else c.waits.entries[w].key
    ensures OwnedBy(c, unit, iob)
  {
    hide Lookup;
    if p < |c.puts.entries| {
      Completions.LiveIsLookup(c.puts, p);
    } else if r < |c.inputs.entries| {
      Completions.LiveIsLookup(c.inputs, r);
    } else {
      Completions.LiveIsLookup(c.waits, w);
    }
  }

  lemma DetachedSense(c: Controller, iob: int, net: Transport)
    requires c.Shaped() && InBlock(c, iob) && Spread(c.guest.mem, iob, [])
    requires Class(c, iob) / 0x10 == 0xC && Unit(c, iob) != 0xFF && Unit(c, iob) as int in c.stations
    requires c.stations[Unit(c, iob) as int].detached
    ensures FailureLeft(c.guest.mem, Request(c, iob, net).guest.mem, iob, [0x28, 0, 0, 0, 0x02, 0x03, 0, 0, 0, 0, 0, 0])
  {
    hide Put, RequestFields, GuestStorage.Complete, Failed, CancelInvite, NamedBlock, FailureLeft, Spread;
    BytesOf(c, iob);
    FailedLeaves(c.guest, iob, [0x28, 0, 0, 0, 0x02, 0x03, 0, 0, 0, 0, 0, 0]);
  }

  // ---- which request a pass answers --------------------------------------------------------

  // A status stands for this unit and this unit block.
  ghost predicate Stands(c: Controller, unit: int, block: int) {
    Lookup(c.status, unit).Some? && Lookup(c.status, unit).value.block == block
  }

  ghost predicate WaitStands(c: Controller, i: nat) {
    && i < |c.waits.entries| && c.waits.entries[i].live
    && Stands(c, c.waits.entries[i].value.unit, c.waits.entries[i].value.block)
  }

  // A PUT-with-invite also needs a parked record.
  ghost predicate PutStands(c: Controller, i: nat) {
    && i < |c.puts.entries| && c.puts.entries[i].live
    && var w := c.puts.entries[i].value;
    && Stands(c, w.unit, w.block) && w.unit in c.stations && c.stations[w.unit].terminal.inbound != []
  }

  // A read needs a record, retained or parked, and only commands 32 and 42 are
  // ever answered.
  ghost predicate ReadStands(c: Controller, i: nat) {
    && i < |c.inputs.entries| && c.inputs.entries[i].live
    && var p := c.inputs.entries[i].value;
    && Stands(c, p.unit, p.block) && p.unit in c.stations && p.command in {0x32, 0x42}
    && (c.stations[p.unit].terminal.retained.Some? || c.stations[p.unit].terminal.inbound != [])
  }

  // One pass answers the first class-C1 request in table order whose status
  // stands; if there is none, the first such PUT-with-invite; if there is none,
  // it turns to the first such read; and else it does nothing.
  lemma PassTakesFirst(c: Controller, expand: Expand)
    requires Inv(c)
    ensures forall i: nat | WaitStands(c, i) && (forall j: nat | j < i :: !WaitStands(c, j)) ::
              var e := c.waits.entries[i];
              Pass(c, expand).log == c.log + [Waited(e.value.unit, e.value.block, e.key)]
    ensures (forall i: nat :: !WaitStands(c, i)) ==>
              forall i: nat | PutStands(c, i) && (forall j: nat | j < i :: !PutStands(c, j)) ::
                Pass(c, expand) == FinishPut(c, c.puts.entries[i].key, c.puts.entries[i].value)
    ensures (forall i: nat :: !WaitStands(c, i) && !PutStands(c, i)) ==>
              forall i: nat | ReadStands(c, i) && (forall j: nat | j < i :: !ReadStands(c, j)) ::
                Pass(c, expand) == FinishRead(c, c.inputs.entries[i].key, c.inputs.entries[i].value, expand)
    ensures (forall i: nat :: !WaitStands(c, i) && !PutStands(c, i) && !ReadStands(c, i)) ==> Pass(c, expand) == c
  {
    hide Linear, Causal, FinishWait, FinishPut, FinishRead, Lookup;
    var w, p, r := FirstWait(c, 0), FirstPut(c, 0), FirstRead(c, 0);
    if w < |c.waits.entries| {
      assert WaitStands(c, w) && forall j: nat | j < w :: !WaitStands(c, j);
      WaitQuiet(c, c.waits.entries[w].key, c.waits.entries[w].value);
    } else {
      assert forall i: nat :: !WaitStands(c, i);
      if p < |c.puts.entries| {
        assert PutStands(c, p) && forall j: nat | j < p :: !PutStands(c, j);
      } else {
        assert forall i: nat :: !PutStands(c, i);
        if r < |c.inputs.entries| {
          assert ReadStands(c, r) && forall j: nat | j < r :: !ReadStands(c, j);
        }
      }
    }
  }

  // A terminal that went away fails its requests one at a time: the first
  // PUT-with-invite of its unit, else the first read, else the first class-C1
  // request, and the other two tables stay.
  lemma FailureOrder(c: Controller, unit: int)
    ensures forall i: nat | Mine(c.puts.entries, unit, i)
                            && (forall j: nat | j < i :: !Mine(c.puts.entries, unit, j)) ::
              var d := FailOne(c, unit);
              d.puts == Erase(c.puts, c.puts.entries[i].key, NO_WAIT) && d.inputs == c.inputs && d.waits == c.waits
    ensures (forall i: nat :: !Mine(c.puts.entries, unit, i)) ==>
              forall i: nat | MyRead(c.inputs.entries, unit, i)
                              && (forall j: nat | j < i :: !MyRead(c.inputs.entries, unit, j)) ::
                var d := FailOne(c, unit);
                d.inputs == Erase(c.inputs, c.inputs.entries[i].key, NO_READ) && d.puts == c.puts && d.waits == c.waits
    ensures (forall i: nat :: !Mine(c.puts.entries, unit, i) && !MyRead(c.inputs.entries, unit, i)) ==>
              forall i: nat | Mine(c.waits.entries, unit, i)
                              && (forall j: nat | j < i :: !Mine(c.waits.entries, unit, j)) ::
                var d := FailOne(c, unit);
                d.waits == Erase(c.waits, c.waits.entries[i].key, NO_WAIT) && d.puts == c.puts && d.inputs == c.inputs
  {
    hide Erase, Failed;
    var p, r, w := FirstWaitOf(c.puts.entries, unit, 0), FirstReadOf(c.inputs.entries, unit, 0),
                   FirstWaitOf(c.waits.entries, unit, 0);
    if p < |c.puts.entries| {
      assert Mine(c.puts.entries, unit, p) && forall j: nat | j < p :: !Mine(c.puts.entries, unit, j);
    } else {
      assert forall i: nat :: !Mine(c.puts.entries, unit, i);
      if r < |c.inputs.entries| {
        assert MyRead(c.inputs.entries, unit, r) && forall j: nat | j < r :: !MyRead(c.inputs.entries, unit, j);
      } else {
        assert forall i: nat :: !MyRead(c.inputs.entries, unit, i);
        if w < |c.waits.entries| {
          assert Mine(c.waits.entries, unit, w) && forall j: nat | j < w :: !Mine(c.waits.entries, unit, j);
        }
      }
    }
  }

  ghost predicate Mine(entries: seq<Entry<int, Waiting>>, unit: int, i: nat) {
    i < |entries| && entries[i].live && entries[i].value.unit == unit
  }

  ghost predicate MyRead(entries: seq<Entry<int, PendingRead>>, unit: int, i: nat) {
    i < |entries| && entries[i].live && entries[i].value.unit == unit
  }

  // ---- polling a unit block -------------------------------------------------------------------

  // A record waits on the unit's line, long enough to carry cursor and AID, and
  // its status has not been given out.
  ghost predicate Waits(c: Controller, unit: int) {
    && unit in c.stations && c.stations[unit].terminal.inbound != [] && !c.stations[unit].terminal.headTaken
    && |c.stations[unit].terminal.inbound[0].data| >= 3
  }

  // A poll reports exactly for an eyecatcher and a unit with a record waiting,
  // and the status then stands for that unit and that block.
  lemma PollReports(c: Controller, block: int)
    requires c.Shaped() && InRange(|c.guest.mem|, block, 0x0D)
    ensures var m, d := c.guest.mem, Deliver(c, block);
            var unit: int := m[block + 12];
            if block != 0 && m[block] == 0xE3 && m[block + 1] == 0xE4 && Waits(c, unit) then
              && d.log == c.log + [Reported(unit, c.stations[unit].terminal.inbound[0].serial, block)]
              && Stands(d, unit, block) && d.stations[unit].terminal.headTaken
            else d == c
  {
    hide ReportToGuest, Set, Valid, Lookup;
    HalfLies(c.guest, block);
    var unit: int := c.guest.mem[block + 12];
    assert ByteAt(c.guest, block + OFF_UNIT) == unit;
    if Deliverable(c, block) {
      var data := c.stations[unit].terminal.inbound[0].data;
      SetLookup(c.status, unit, Status(block, StatusBytes(data)), unit);
    }
  }

  // ---- opening an output action ------------------------------------------------------------------

  ghost function BitOff(b: byte, bit: byte): byte
    requires bit > 0
  {
    if b / bit % 2 == 1 then b - bit else b
  }

  // Bits 4 and 80 of the completion byte and bit 80 of byte 9 go off; a
  // PUT-with-invite moves to class C1; no other byte changes.
  lemma OpenLeaves(c: Controller, iob: int, withInvite: bool)
    requires InBlock(c, iob)
    ensures var m, n := c.guest.mem, Open(c, iob, withInvite).guest.mem;
            && |n| == |m| && n[iob + 6] == BitOff(BitOff(m[iob + 6], 4), 0x80) && n[iob + 9] == BitOff(m[iob + 9], 0x80)
            && n[iob + 10] == (if withInvite then 0xC1 else m[iob + 10])
            && forall x | 0 <= x < |m| && x != iob + 6 && x != iob + 9 && x != iob + 10 :: n[x] == m[x]
  {
    hide WriteByte, Retire, ByteAt, Without, BitOff;
    var g3 := Opened(c.guest, iob);
    OpenBytes(c.guest, iob);
    WriteByteLands(g3, iob + 10, 0xC1);
  }

  // A PUT-with-invite drops the status of its unit and says so in the log.
  lemma OpenRetires(c: Controller, iob: int, withInvite: bool)
    requires c.Shaped() && InBlock(c, iob)
    ensures var d := Open(c, iob, withInvite);
            if withInvite then Lookup(d.status, Unit(c, iob)) == None && d.log == c.log + [Retired(Unit(c, iob))]
            else d.status == c.status && d.log == c.log
  {
    hide Erase, Valid, Lookup, WriteByte, Without, BitOff;
    EraseLookup(c.status, Unit(c, iob), NO_STATUS, Unit(c, iob));
    OpenBytes(c.guest, iob);
    assert ByteAt(Opened(c.guest, iob), iob + OFF_UNIT) == Unit(c, iob);
  }

  function Opened(g: Guest, iob: int): Guest {
    var g1 := WriteByte(g, iob + 6, Without(ByteAt(g, iob + 6), 0x04));
    var g2 := WriteByte(g1, iob + 6, Without(ByteAt(g1, iob + 6), 0x80));
    WriteByte(g2, iob + 9, Without(ByteAt(g2, iob + 9), 0x80))
  }

  lemma OpenBytes(g: Guest, iob: int)
    requires InRange(|g.mem|, iob, 0x18)
    ensures var n := Opened(g, iob).mem;
            && |n| == |g.mem| && n[iob + 6] == BitOff(BitOff(g.mem[iob + 6], 4), 0x80)
            && n[iob + 9] == BitOff(g.mem[iob + 9], 0x80)
            && forall x | 0 <= x < |g.mem| && x != iob + 6 && x != iob + 9 :: n[x] == g.mem[x]
  {
  }

  lemma WriteByteLands(g: Guest, addr: int, v: byte)
    requires InRange(|g.mem|, addr, 1)
    ensures WriteByte(g, addr, v).mem == g.mem[addr := v]
  {
  }
}
