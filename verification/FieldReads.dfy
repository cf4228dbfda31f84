// What a Read Input Fields hands the guest, over every run of the controller:
// the bytes of one terminal record, as they came in, expanded to full-width
// fields or not by the request's command and the read the record answered.
module FieldReads {
  import opened Bytes
  import opened GuestStorage
  import opened SlotMaps
  import opened Terminals
  import opened Controllers
  import opened RetainedIo
  import B = BufferCapture
  import Completions

  // ---- the line ----------------------------------------------------------------

  // Read Text Screen, the structured-field read; Read MDT Fields is
  // 04 52 00 00.
  predicate TextRead(read: seq<byte>) {
    read == [0x04, 0xF3, 0x00, 0x08, 0xD9, 0x32, 0x00, 0x80, 0x00, 0x00]
  }

  // The read a response would answer: the last read command on the line, with
  // no response, withdrawal or power-off after it.
  ghost function ReadInForce(line: seq<Line>): seq<byte> {
    if line == [] then []
    else
      match line[|line| - 1]
      case Asked(command) => command
      case Wrote(_) => ReadInForce(line[..|line| - 1])
      case _ => []
  }

  // The read a response did answer: the one in force when it was taken off
  // the line, and none if the guest has withdrawn its invitation since.
  ghost function ReadAnswered(line: seq<Line>, serial: nat): seq<byte> {
    if line == [] then []
    else
      match line[|line| - 1]
      case Answered(s) => if s == serial then ReadInForce(line[..|line| - 1])
          else ReadAnswered(line[..|line| - 1], serial)
      case Withdrawn => []
      case _ => ReadAnswered(line[..|line| - 1], serial)
  }

  lemma LineGrows(line: seq<Line>, e: Line, serial: nat)
    ensures ReadInForce(line + [e]) == if e.Asked? then e.command else if e.Wrote? then ReadInForce(line) else []
    ensures ReadAnswered(line + [e], serial)
         == if e == Answered(serial) then ReadInForce(line) else if e == Withdrawn then []
             else ReadAnswered(line, serial)
  {
    assert (line + [e])[..|line|] == line;
  }

  // The modes a display keeps are what its line says.
  ghost predicate InStep(t: Terminal) {
    && (t.activeMode == 0x21 <==> TextRead(ReadInForce(t.line)))
    && (t.retained.Some? ==>
          (t.retainedMode == 0x21 <==> TextRead(ReadAnswered(t.line, t.retained.value.serial))))
  }

  ghost predicate Holds(t: Terminal, r: Record) {
    r in t.inbound || t.retained == Some(r)
  }

  // What a step that parks nothing can do to a terminal.
  ghost predicate Moves(s: Terminal, t: Terminal) {
    || t == s || (StatusReady(s) && t == TakeStatus(s)) || (s.inbound != [] && t == ClaimResponse(s))
    || (HasInput(s) && t == TakeFields(s)) || t == PowerOff(s) || t == Invite(s) || t == CancelInvite(s)
    || (exists data: seq<byte>, withInvite: bool, net: Transport :: t == Transmit(s, data, withInvite, net).terminal)
    || (exists keys: Attention, saveReply: bool, r: Record ::
          (keys.attn || keys.sysreq || saveReply) && t == Enqueue(s, keys, saveReply, r))
  }

  lemma CommandsAreReads(mode: byte)
    ensures TextRead(ReadCommand(mode)) <==> mode == 0x21
  {
    assert mode != 0x21 ==> |ReadCommand(mode)| == 4;
  }

  lemma InvitedInStep(t: Terminal)
    requires InStep(t)
    ensures InStep(Invite(t))
  {
    hide ReadInForce, ReadAnswered, TextRead, ReadCommand;
    var mode := if t.inviteMode == READ_TEXT then READ_TEXT else READ_MDT;
    CommandsAreReads(mode);
    LineGrows(t.line, Asked(ReadCommand(mode)), if t.retained.Some? then t.retained.value.serial else 0);
  }

  lemma ResumedInStep(t: Terminal, mode: byte)
    requires InStep(t)
    ensures InStep(Resume(t, mode))
  {
    hide ReadInForce, ReadAnswered, TextRead, ReadCommand;
    CommandsAreReads(mode);
    LineGrows(t.line, Asked(ReadCommand(mode)), if t.retained.Some? then t.retained.value.serial else 0);
  }

  lemma TransmittedInStep(t: Terminal, data: seq<byte>, withInvite: bool, net: Transport)
    requires InStep(t)
    ensures InStep(Transmit(t, data, withInvite, net).terminal)
  {
    hide ReadInForce, ReadAnswered, TextRead, Invite, Resume, ModeAfter, DecodeSaved;
    var mode := ModeAfter(t.inviteMode, data);
    var wrote := t.(inviteMode := mode, line := t.line + [Wrote(data)]);
    LineGrows(t.line, Wrote(data), if t.retained.Some? then t.retained.value.serial else 0);
    assert InStep(wrote);
    InvitedInStep(wrote);
    var saved := if withInvite then None else DecodeSaved(data);
    if saved.Some? {
      ResumedInStep(t, saved.value.mode);
    }
  }

  lemma TakenInStep(t: Terminal)
    requires InStep(t)
    ensures t.inbound != [] ==> InStep(ClaimResponse(t))
    ensures HasInput(t) ==> InStep(TakeFields(t))
    ensures InStep(PowerOff(t)) && InStep(CancelInvite(t))
  {
    hide ReadInForce, ReadAnswered;
    var serial := if t.retained.Some? then t.retained.value.serial else 0;
    if t.inbound != [] {
      LineGrows(t.line, Answered(t.inbound[0].serial), t.inbound[0].serial);
    }
    LineGrows(t.line, Off, serial);
    LineGrows(t.line, Withdrawn, serial);
  }

  lemma MovesInStep(s: Terminal, t: Terminal)
    requires InStep(s) && Moves(s, t)
    ensures InStep(t)
  {
    hide Transmit, Invite, ClaimResponse, TakeFields, PowerOff, CancelInvite, ReadInForce, ReadAnswered, TextRead;
    TakenInStep(s);
    InvitedInStep(s);
    if exists data: seq<byte>, withInvite: bool, net: Transport :: t == Transmit(s, data, withInvite, net).terminal {
      var data: seq<byte>, withInvite: bool, net: Transport :| t == Transmit(s, data, withInvite, net).terminal;
      TransmittedInStep(s, data, withInvite, net);
    }
  }

  // No step but a parking brings a terminal a record it did not hold.
  lemma MovesBringNothing(s: Terminal, t: Terminal, r: Record)
    requires Moves(s, t) && Holds(t, r)
    ensures Holds(s, r)
  {
    hide Transmit, Trim;
    if exists data: seq<byte>, withInvite: bool, net: Transport :: t == Transmit(s, data, withInvite, net).terminal {
      var data: seq<byte>, withInvite: bool, net: Transport :| t == Transmit(s, data, withInvite, net).terminal;
      TransmitKeeps(s, data, withInvite, net);
    }
  }

  // ---- what each step does to each terminal ----------------------------------------

  predicate Parking(step: Step, units: set<int>) {
    step.TerminalRecord? && step.unit in units && !step.keys.attn && !step.keys.sysreq && !step.saveReply
  }

  ghost predicate AllMove(c: Controller, d: Controller) {
    && d.next == c.next && d.stations.Keys == c.stations.Keys
    && forall u | u in c.stations :: Moves(c.stations[u].terminal, d.stations[u].terminal)
  }

  lemma OneMoves(c: Controller, d: Controller, unit: int, t: Terminal)
    requires unit in c.stations && Moves(c.stations[unit].terminal, t)
    requires d.stations == WithTerminal(c, unit, t).stations && d.next == c.next
    ensures AllMove(c, d)
  {
    hide Moves;
    forall u | u in c.stations
      ensures u in d.stations && Moves(c.stations[u].terminal, d.stations[u].terminal)
    {
      if u != unit {
        StaysPut(c.stations[u].terminal);
      }
    }
    assert d.stations.Keys == c.stations.Keys;
  }

  lemma StaysPut(t: Terminal)
    ensures Moves(t, t)
  {
  }

  lemma NoneMove(c: Controller, d: Controller)
    requires d.stations == c.stations && d.next == c.next
    ensures AllMove(c, d)
  {
    hide Moves;
    forall u | u in c.stations
      ensures Moves(c.stations[u].terminal, d.stations[u].terminal)
    {
      StaysPut(c.stations[u].terminal);
    }
  }

  lemma PassMoves(c: Controller, expand: Expand)
    requires c.Shaped()
    ensures AllMove(c, Pass(c, expand))
  {
    hide FinishWait, FinishPut, FinishRead, AllMove, Lookup;
    var w, p, r := FirstWait(c, 0), FirstPut(c, 0), FirstRead(c, 0);
    if w < |c.waits.entries| {
      WaitQuiet(c, c.waits.entries[w].key, c.waits.entries[w].value);
      NoneMove(c, FinishWait(c, c.waits.entries[w].key, c.waits.entries[w].value));
    } else if p < |c.puts.entries| {
      PutMoves(c, c.puts.entries[p].key, c.puts.entries[p].value);
    } else if r < |c.inputs.entries| {
      ReadMoves(c, c.inputs.entries[r].key, c.inputs.entries[r].value, expand);
    } else {
      NoneMove(c, c);
    }
  }

  lemma PutMoves(c: Controller, iob: int, w: Waiting)
    requires PutReady(c, w)
    ensures AllMove(c, FinishPut(c, iob, w))
  {
    hide GuestStorage.Complete, Erase, AllMove, ClaimResponse;
    OneMoves(c, FinishPut(c, iob, w), w.unit, ClaimResponse(c.stations[w.unit].terminal));
  }

  lemma ReadMoves(c: Controller, iob: int, p: PendingRead, expand: Expand)
    requires p.unit in c.stations && HasInput(c.stations[p.unit].terminal)
    ensures AllMove(c, FinishRead(c, iob, p, expand))
  {
    hide FinishRead, AllMove, TakeFields;
    ReadTakes(c, iob, p, expand);
    OneMoves(c, FinishRead(c, iob, p, expand), p.unit, TakeFields(c.stations[p.unit].terminal));
  }

  lemma RequestMoves(c: Controller, iob: int, net: Transport)
    requires c.Shaped()
    ensures AllMove(c, Request(c, iob, net))
  {
    hide Put, RequestFields, GuestStorage.Complete, Failed, InviteAll, NotAttached, CancelInvite, AllMove;
    var unit := ByteAt(c.guest, iob + OFF_UNIT);
    NoneMove(c, Controllers.Complete(c, iob, 4));
    NoneMove(c, c.(guest := NotAttached(c.guest, iob)));
    InviteMoves(c, iob);
    if unit in c.stations {
      PutStepMoves(c, iob, unit, false, net);
      PutStepMoves(c, iob, unit, true, net);
      FieldsMoves(c, iob, unit);
      var t := CancelInvite(c.stations[unit].terminal);
      OneMoves(c, Controllers.Complete(WithTerminal(c, unit, t), iob, 0), unit, t);
    }
  }

  lemma InviteMoves(c: Controller, iob: int)
    ensures AllMove(c, InviteAll(c, iob))
  {
    hide Invite;
    var d := InviteAll(c, iob);
    assert d.stations.Keys == c.stations.Keys;
  }

  lemma FieldsMoves(c: Controller, iob: int, unit: int)
    requires c.Shaped() && unit in c.stations
    ensures AllMove(c, RequestFields(c, iob, unit))
  {
    hide Set, UnitBlock, Valid, Lookup, GuestStorage.Complete, Displacement, AllMove;
    NoneMove(c, RequestFields(c, iob, unit));
  }

  lemma PutStepMoves(c: Controller, iob: int, unit: int, withInvite: bool, net: Transport)
    requires c.Shaped() && unit in c.stations && unit == ByteAt(c.guest, iob + OFF_UNIT)
    ensures AllMove(c, Put(c, iob, unit, withInvite, net))
  {
    hide Open, OutputData, Respond, GuestStorage.Complete, AllMove;
    OpenMovesNothing(c, iob, withInvite);
    EraseValid(c.status, ByteAt(c.guest, iob + OFF_UNIT), NO_STATUS);
    NoneMove(c, Controllers.Complete(c, iob, 4));
    RespondMoves(c, iob, unit);
    OutputMoves(Open(c, iob, withInvite), iob, unit, withInvite, net);
    OpenThenMoves(c, Open(c, iob, withInvite), OutputData(Open(c, iob, withInvite), iob, unit, withInvite, net));
  }

  lemma OpenThenMoves(c: Controller, d: Controller, e: Controller)
    requires d.stations == c.stations && d.next == c.next && AllMove(d, e)
    ensures AllMove(c, e)
  {
  }

  lemma OpenMovesNothing(c: Controller, iob: int, withInvite: bool)
    requires c.Shaped()
    ensures var d := Open(c, iob, withInvite);
            && d.stations == c.stations && d.next == c.next && d.guest.Valid() && d.staging == c.staging
            && d.puts == c.puts
  {
    hide Erase;
  }

  lemma RespondMoves(c: Controller, iob: int, unit: int)
    requires c.Shaped() && unit in c.stations
    ensures AllMove(c, Respond(c, iob, unit))
  {
    hide Set, Erase, Arm, UnitBlock, Valid, Lookup, ImportStatus, GuestStorage.Complete, AllMove, Invite;
    if StatusFor(c, unit, UnitBlock(c.guest, iob)) {
      NoneMove(c, Respond(c, iob, unit));
    } else {
      OneMoves(c, Respond(c, iob, unit), unit, Invite(c.stations[unit].terminal));
    }
  }

  lemma OutputMoves(c: Controller, iob: int, unit: int, withInvite: bool, net: Transport)
    requires c.guest.Valid() && unit in c.stations && Valid(c.staging) && Valid(c.puts)
    ensures AllMove(c, OutputData(c, iob, unit, withInvite, net))
  {
    hide GuestStorage.Complete, Transmit, Set, Arm, Gather, Valid, AllMove, UnitBlock;
    var field, length := Addr24At(c.guest, iob + OFF_BUFFER), HalfAt(c.guest, iob + OFF_LENGTH);
    var source := B.CaptureAddresses(c.guest, field, length);
    if length != 0 && source.Some? {
      B.CapturedInside(c.guest, field, length);
      var t := Transmit(c.stations[unit].terminal, Gather(c.guest.mem, source.value), withInvite, net).terminal;
      OneMoves(c, OutputData(c, iob, unit, withInvite, net), unit, t);
    } else {
      NoneMove(c, OutputData(c, iob, unit, withInvite, net));
    }
  }

  lemma FailMoves(c: Controller, unit: int)
    ensures AllMove(c, FailOne(c, unit))
  {
    hide Erase, Failed, AllMove;
    NoneMove(c, FailOne(c, unit));
  }

  lemma OffMoves(c: Controller, unit: int)
    requires unit in c.stations
    ensures AllMove(c, SwitchOff(c, unit))
  {
    hide PowerOff, AllMove;
    OneMoves(c, SwitchOff(c, unit), unit, PowerOff(c.stations[unit].terminal));
  }

  lemma DeliverMoves(c: Controller, block: int)
    requires c.Shaped()
    ensures AllMove(c, Deliver(c, block))
  {
    hide ReportToGuest, Set, Valid, AllMove, TakeStatus;
    if Deliverable(c, block) {
      var unit := ByteAt(c.guest, block + OFF_UNIT);
      OneMoves(c, Deliver(c, block), unit, TakeStatus(c.stations[unit].terminal));
    } else {
      NoneMove(c, c);
    }
  }

  lemma BindMoves(c: Controller, unit: int, detached: bool)
    requires unit in c.stations
    ensures AllMove(c, c.(stations := c.stations[unit := c.stations[unit].(detached := detached)]))
  {
    var d := c.(stations := c.stations[unit := c.stations[unit].(detached := detached)]);
    OneMoves(c, WithTerminal(c, unit, c.stations[unit].terminal), unit, c.stations[unit].terminal);
    assert d.stations.Keys == c.stations.Keys;
  }

  // A step that is no parking moves records from place to place at most.
  lemma StepMoves(c: Controller, step: Step, expand: Expand)
    requires c.Shaped() && !Parking(step, c.stations.Keys)
    ensures AllMove(c, Apply(c, step, expand))
  {
    hide Arrive, Deliver, Request, Pass, SwitchOff, FailOne, Cancel, AllMove;
    NoneMove(c, c);
    match step {
      case TerminalRecord(unit, keys, saveReply, data) =>
        if unit in c.stations {
          ControlMoves(c, unit, keys, saveReply, data);
        }
      case StatusPoll(block) => DeliverMoves(c, block);
      case GuestRequest(iob, net) => RequestMoves(c, iob, net);
      case ControllerPass => PassMoves(c, expand);
      case PowerSwitch(unit) =>
        if unit in c.stations {
          OffMoves(c, unit);
        }
      case FailRequest(unit) => FailMoves(c, unit);
      case Terminate(iob) => CancelMoves(c, iob);
      case Bind(unit, detached) =>
        if unit in c.stations {
          BindMoves(c, unit, detached);
        }
      case GuestRuns(mem, atr) => NoneMove(c, Apply(c, step, expand));
    }
  }

  lemma CancelMoves(c: Controller, iob: int)
    ensures AllMove(c, Cancel(c, iob))
  {
    hide Erase, AllMove;
    NoneMove(c, Cancel(c, iob));
  }

  lemma ControlMoves(c: Controller, unit: int, keys: Attention, saveReply: bool, data: seq<byte>)
    requires unit in c.stations && (keys.attn || keys.sysreq || saveReply)
    ensures AllMove(c, Arrive(c, unit, keys, saveReply, data))
  {
    hide AllMove, Enqueue;
    var t := Enqueue(c.stations[unit].terminal, keys, saveReply, Record(c.next, data));
    OneMoves(c, Arrive(c, unit, keys, saveReply, data), unit, t);
  }

  // ---- every record held is one that came in --------------------------------------------

  datatype Arrival = Arrival(unit: int, data: seq<byte>)

  // The records the terminals sent, in order: the controller numbers them.
  ghost function Arrivals(steps: seq<Step>, units: set<int>): seq<Arrival> {
    if steps == [] then []
    else
      var last := steps[|steps| - 1];
      Arrivals(steps[..|steps| - 1], units) + if Parking(last, units) then [Arrival(last.unit, last.data)] else []
  }

  ghost predicate Numbered(arrivals: seq<Arrival>, base: nat, u: int, r: Record) {
    base <= r.serial < base + |arrivals| && arrivals[r.serial - base] == Arrival(u, r.data)
  }

  ghost predicate FromLine(c: Controller, units: set<int>, base: nat, arrivals: seq<Arrival>) {
    && c.stations.Keys == units && c.next == base + |arrivals|
    && (forall u | u in c.stations :: InStep(c.stations[u].terminal))
    && forall u, r | u in c.stations && Holds(c.stations[u].terminal, r) :: Numbered(arrivals, base, u, r)
  }

  lemma ParkFromLine(c: Controller, step: Step, expand: Expand, base: nat, arrivals: seq<Arrival>)
    requires c.Shaped() && Parking(step, c.stations.Keys) && FromLine(c, c.stations.Keys, base, arrivals)
    ensures FromLine(Apply(c, step, expand), c.stations.Keys, base, arrivals + [Arrival(step.unit, step.data)])
  {
    hide InStep;
    var d, all := Apply(c, step, expand), arrivals + [Arrival(step.unit, step.data)];
    assert d.stations.Keys == c.stations.Keys;
    forall u | u in d.stations
      ensures InStep(d.stations[u].terminal)
    {
      ParkedInStep(c.stations[u].terminal, step.keys, Record(c.next, step.data));
    }
    forall u, r | u in d.stations && Holds(d.stations[u].terminal, r)
      ensures Numbered(all, base, u, r)
    {
      if u == step.unit && r == Record(c.next, step.data) {
      } else {
        assert Holds(c.stations[u].terminal, r);
        assert Numbered(arrivals, base, u, r);
      }
    }
  }

  lemma ParkedInStep(t: Terminal, keys: Attention, r: Record)
    requires InStep(t)
    ensures InStep(Enqueue(t, keys, false, r))
  {
  }

  lemma MoveFromLine(c: Controller, d: Controller, base: nat, arrivals: seq<Arrival>)
    requires AllMove(c, d) && FromLine(c, c.stations.Keys, base, arrivals)
    ensures FromLine(d, c.stations.Keys, base, arrivals)
  {
    hide InStep, Moves;
    forall u | u in d.stations
      ensures InStep(d.stations[u].terminal)
    {
      MovesInStep(c.stations[u].terminal, d.stations[u].terminal);
    }
    forall u, r | u in d.stations && Holds(d.stations[u].terminal, r)
      ensures Numbered(arrivals, base, u, r)
    {
      MovesBringNothing(c.stations[u].terminal, d.stations[u].terminal, r);
    }
  }

  lemma {:induction false} RunFromLine(start: Controller, steps: seq<Step>, expand: Expand)
    requires Started(start)
    ensures FromLine(RetainedIo.Run(start, steps, expand), start.stations.Keys, start.next,
                     Arrivals(steps, start.stations.Keys))
  {
    hide FromLine, Apply, Linear, Causal;
    var units := start.stations.Keys;
    if steps == [] {
      StartFromLine(start);
    } else {
      var n := |steps| - 1;
      var c := RetainedIo.Run(start, steps[..n], expand);
      RunFromLine(start, steps[..n], expand);
      assert c.stations.Keys == units by {
        FromLineUnits(c, units, start.next, Arrivals(steps[..n], units));
      }
      var arrivals := Arrivals(steps[..n], units);
      if Parking(steps[n], units) {
        ParkFromLine(c, steps[n], expand, start.next, arrivals);
      } else {
        StepMoves(c, steps[n], expand);
        MoveFromLine(c, Apply(c, steps[n], expand), start.next, arrivals);
        assert arrivals + [] == arrivals;
      }
    }
  }

  lemma StartFromLine(start: Controller)
    requires Started(start)
    ensures FromLine(start, start.stations.Keys, start.next, [])
  {
    forall u | u in start.stations
      ensures InStep(start.stations[u].terminal)
    {
      assert start.stations[u].terminal == IDLE;
    }
  }

  lemma FromLineUnits(c: Controller, units: set<int>, base: nat, arrivals: seq<Arrival>)
    requires FromLine(c, units, base, arrivals)
    ensures c.stations.Keys == units
  {
  }

  // ---- statuses and retained reads only go -----------------------------------------------

  // Nothing is reported, no status is entered or changed, and no read is
  // retained except for this request.
  ghost predicate Fades(c: Controller, d: Controller, except: Option<int>) {
    && (forall u :: Lookup(d.status, u).Some? ==> Lookup(d.status, u) == Lookup(c.status, u))
    && (forall iob | Some(iob) != except :: Lookup(d.inputs, iob).Some? ==>
        Lookup(d.inputs, iob) == Lookup(c.inputs, iob))
    && |c.log| <= |d.log| && d.log[..|c.log|] == c.log
    && forall i | |c.log| <= i < |d.log| :: !d.log[i].Reported?
  }

  lemma Fading(c: Controller, d: Controller, unit: int, iob: int)
    requires c.Shaped()
    requires d.status == c.status || d.status == Erase(c.status, unit, NO_STATUS)
    requires d.inputs == c.inputs || d.inputs == Erase(c.inputs, iob, NO_READ)
    requires |c.log| <= |d.log| && d.log[..|c.log|] == c.log && forall i | |c.log| <= i < |d.log| :: !d.log[i].Reported?
    ensures Fades(c, d, None)
  {
    hide Lookup, Erase;
    forall u
      ensures Lookup(d.status, u).Some? ==> Lookup(d.status, u) == Lookup(c.status, u)
    {
      EraseLookup(c.status, unit, NO_STATUS, u);
    }
    forall i
      ensures Lookup(d.inputs, i).Some? ==> Lookup(d.inputs, i) == Lookup(c.inputs, i)
    {
      EraseLookup(c.inputs, iob, NO_READ, i);
    }
  }

  lemma PassFades(c: Controller, expand: Expand)
    requires c.Shaped()
    ensures Fades(c, Pass(c, expand), None)
  {
    hide GuestStorage.Complete, ImportStatus, Placed, ReadStatus, Held, FieldBytes, Erase, Lookup, Fades, ClaimResponse,
         TakeFields, NextInput, Valid, FinishRead;
    var w, p, r := FirstWait(c, 0), FirstPut(c, 0), FirstRead(c, 0);
    if w < |c.waits.entries| {
      Fading(c, Pass(c, expand), c.waits.entries[w].value.unit, 0);
    } else if p < |c.puts.entries| {
      Fading(c, Pass(c, expand), 0, 0);
    } else if r < |c.inputs.entries| {
      ReadFades(c, c.inputs.entries[r].key, c.inputs.entries[r].value, expand);
    } else {
      Fading(c, c, 0, 0);
    }
  }

  lemma ReadFades(c: Controller, iob: int, p: PendingRead, expand: Expand)
    requires c.Shaped() && p.unit in c.stations && HasInput(c.stations[p.unit].terminal)
    ensures Fades(c, FinishRead(c, iob, p, expand), None)
  {
    hide GuestStorage.Complete, Placed, ReadStatus, Held, FieldBytes, Erase, Fades, TakeFields, NextInput, Valid;
    Fading(c, FinishRead(c, iob, p, expand), p.unit, iob);
  }

  lemma FailFades(c: Controller, unit: int)
    requires c.Shaped()
    ensures Fades(c, FailOne(c, unit), None)
  {
    hide Erase, Failed, Fades, Valid;
    var r := FirstReadOf(c.inputs.entries, unit, 0);
    var d := FailOne(c, unit);
    Fading(c, d, unit, if d.inputs != c.inputs then c.inputs.entries[r].key else 0);
  }

  lemma RequestFades(c: Controller, iob: int, net: Transport)
    requires c.Shaped()
    ensures Fades(c, Request(c, iob, net), Some(iob))
  {
    hide Put, RequestFields, GuestStorage.Complete, Failed, NotAttached, CancelInvite, Fades, Valid;
    var unit := ByteAt(c.guest, iob + OFF_UNIT);
    forall d: Controller | d.status == c.status && d.inputs == c.inputs && d.log == c.log
      ensures Fades(c, d, Some(iob))
    {
      Fading(c, d, 0, 0);
      FadesLess(c, d, iob);
    }
    if unit in c.stations {
      PutFades(c, iob, unit, false, net);
      PutFades(c, iob, unit, true, net);
      FieldsFade(c, iob, unit);
    }
  }

  lemma FadesLess(c: Controller, d: Controller, iob: int)
    requires Fades(c, d, None)
    ensures Fades(c, d, Some(iob))
  {
  }

  lemma FieldsFade(c: Controller, iob: int, unit: int)
    requires c.Shaped() && unit in c.stations
    ensures Fades(c, RequestFields(c, iob, unit), Some(iob))
  {
    hide Set, UnitBlock, Valid, GuestStorage.Complete, Displacement, Lookup;
    var d := RequestFields(c, iob, unit);
    forall i | i != iob
      ensures Lookup(d.inputs, i) == Lookup(c.inputs, i)
    {
      if d.inputs != c.inputs {
        var field, capacity := Addr24At(c.guest, iob + OFF_BUFFER), HalfAt(c.guest, iob + OFF_LENGTH);
        var destination := B.CaptureAddresses(c.guest, field, capacity).value;
        SetLookup(c.inputs, iob, PendingRead(unit, UnitBlock(c.guest, iob), ByteAt(c.guest, iob + OFF_COMMAND), field,
                                             destination, capacity, Displacement(c, iob, unit)), i);
      }
    }
  }

  lemma PutFades(c: Controller, iob: int, unit: int, withInvite: bool, net: Transport)
    requires c.Shaped() && unit in c.stations && unit == ByteAt(c.guest, iob + OFF_UNIT)
    ensures Fades(c, Put(c, iob, unit, withInvite, net), Some(iob))
  {
    hide Open, OutputData, Respond, GuestStorage.Complete, Fades, Valid, Erase;
    OpenMovesNothing(c, iob, withInvite);
    EraseValid(c.status, ByteAt(c.guest, iob + OFF_UNIT), NO_STATUS);
    Fading(c, Controllers.Complete(c, iob, 4), 0, 0);
    RespondFades(c, iob, unit);
    var d := Open(c, iob, withInvite);
    OpenFades(c, iob, withInvite);
    OutputKeeps(d, iob, unit, withInvite, net);
    var gone := if d.status == c.status then 0 else var u: int :| d.status == Erase(c.status, u, NO_STATUS); u;
    Fading(c, OutputData(d, iob, unit, withInvite, net), gone, 0);
    FadesLess(c, Put(c, iob, unit, withInvite, net), iob);
  }

  lemma RespondFades(c: Controller, iob: int, unit: int)
    requires c.Shaped() && unit in c.stations
    ensures Fades(c, Respond(c, iob, unit), None)
  {
    hide Set, Erase, Arm, UnitBlock, Valid, Lookup, ImportStatus, GuestStorage.Complete, Fades, Invite;
    Fading(c, Respond(c, iob, unit), unit, 0);
  }

  lemma OutputKeeps(c: Controller, iob: int, unit: int, withInvite: bool, net: Transport)
    requires c.guest.Valid() && unit in c.stations && Valid(c.staging) && Valid(c.puts)
    ensures var d := OutputData(c, iob, unit, withInvite, net);
            d.status == c.status && d.inputs == c.inputs && d.log == c.log
  {
    hide GuestStorage.Complete, Transmit, Set, Arm, Gather, Valid, UnitBlock;
    B.CapturedInside(c.guest, Addr24At(c.guest, iob + OFF_BUFFER), HalfAt(c.guest, iob + OFF_LENGTH));
  }

  lemma OpenFades(c: Controller, iob: int, withInvite: bool)
    requires c.Shaped()
    ensures var d := Open(c, iob, withInvite);
            && d.inputs == c.inputs && |c.log| <= |d.log| && d.log[..|c.log|] == c.log
            && (forall i | |c.log| <= i < |d.log| :: !d.log[i].Reported?)
            && (d.status == c.status || exists unit: int :: d.status == Erase(c.status, unit, NO_STATUS))
  {
    hide Erase;
  }

  // The step that puts a status in the table.
  predicate Reporting(c: Controller, step: Step) {
    step.StatusPoll? && Deliverable(c, step.block)
  }

  lemma StepFades(c: Controller, step: Step, expand: Expand)
    requires c.Shaped() && !Reporting(c, step)
    ensures Fades(c, Apply(c, step, expand), if step.GuestRequest? then Some(step.iob) else None)
  {
    hide Deliver, Request, Pass, FailOne, Fades, Valid, Erase, Lookup, PowerOff, Enqueue;
    match step {
      case StatusPoll(block) =>
        assert Deliver(c, block) == c by {
          NotDelivered(c, block);
        }
        Fading(c, c, 0, 0);
      case GuestRequest(iob, net) => RequestFades(c, iob, net);
      case ControllerPass => PassFades(c, expand);
      case FailRequest(unit) => FailFades(c, unit);
      case Terminate(iob) => Fading(c, Cancel(c, iob), 0, iob);
      case _ => Fading(c, Apply(c, step, expand), 0, 0);
    }
  }

  lemma NotDelivered(c: Controller, block: int)
    requires c.Shaped() && !Deliverable(c, block)
    ensures Deliver(c, block) == c
  {
  }

  // ---- a retained read is what its request asked for ---------------------------------------

  // The unit block: the request's own when it carries the eyecatcher, else the
  // one it names.
  ghost function NamedBlock(mem: seq<byte>, iob: int): int
    requires InRange(|mem|, iob, 0x18)
  {
    if mem[iob] == 0xE3 && mem[iob + 1] == 0xE4 then iob else Number(mem, iob + 0x15)
  }

  // The block's bytes when the read was issued: the unit, the command, the
  // length, the unit block, and the buffer byte by byte.
  ghost predicate IssuedBy(g: Guest, iob: int, p: PendingRead)
    requires g.Valid()
  {
    && |p.destination| == p.capacity
    && (InRange(|g.mem|, iob, 0x18) ==>
          && g.mem[iob + 12] == p.unit && g.mem[iob + 11] == p.command && p.block == NamedBlock(g.mem, iob)
          && p.capacity == (g.mem[iob + 16] as int) * 0x100 + g.mem[iob + 17]
          && forall n: nat | n < p.capacity :: B.CapturedAt(g, Number(g.mem, iob + 13), n, p.destination[n]))
  }

  lemma HalfLies(g: Guest, at: int)
    requires InRange(|g.mem|, at, 2)
    ensures HalfAt(g, at) == (g.mem[at] as int) * 0x100 + g.mem[at + 1]
    ensures HalfAt(g, at) == 0xE3E4 <==> g.mem[at] == 0xE3 && g.mem[at + 1] == 0xE4
  {
    assert g.mem[at..at + 2] == [g.mem[at], g.mem[at + 1]];
  }

  lemma BlockLies(g: Guest, iob: int)
    requires InRange(|g.mem|, iob, 0x18)
    ensures UnitBlock(g, iob) == NamedBlock(g.mem, iob)
  {
    HalfLies(g, iob);
    NumberAt(g, iob + 0x15);
  }

  lemma FieldsIssue(c: Controller, iob: int, unit: int, p: PendingRead)
    requires c.Shaped() && unit in c.stations && unit == ByteAt(c.guest, iob + OFF_UNIT)
    requires Lookup(RequestFields(c, iob, unit).inputs, iob) == Some(p)
    ensures Lookup(c.inputs, iob) == Some(p) || IssuedBy(c.guest, iob, p)
  {
    hide Set, UnitBlock, Valid, GuestStorage.Complete, Displacement, Lookup, Number, NamedBlock, B.CapturedAt,
         B.Reachable, B.CaptureAddresses;
    var field, capacity := Addr24At(c.guest, iob + OFF_BUFFER), HalfAt(c.guest, iob + OFF_LENGTH);
    var destination := B.CaptureAddresses(c.guest, field, capacity);
    if Lookup(c.inputs, iob).None? && destination.Some? {
      var q := PendingRead(unit, UnitBlock(c.guest, iob), ByteAt(c.guest, iob + OFF_COMMAND), field, destination.value,
                           capacity, Displacement(c, iob, unit));
      SetLookup(c.inputs, iob, q, iob);
      assert p == q;
      B.CaptureLies(c.guest, field, capacity);
      if InRange(|c.guest.mem|, iob, 0x18) {
        BlockLies(c.guest, iob);
        HalfLies(c.guest, iob + 16);
        NumberAt(c.guest, iob + 13);
      }
    }
  }

  lemma RequestIssues(c: Controller, iob: int, net: Transport, p: PendingRead)
    requires c.Shaped() && Lookup(Request(c, iob, net).inputs, iob) == Some(p)
    ensures Lookup(c.inputs, iob) == Some(p) || IssuedBy(c.guest, iob, p)
  {
    hide Put, RequestFields, GuestStorage.Complete, Failed, NotAttached, CancelInvite, Valid, Lookup, IssuedBy;
    var unit := ByteAt(c.guest, iob + OFF_UNIT);
    if unit in c.stations {
      PutKeepsReads(c, iob, unit, false, net);
      PutKeepsReads(c, iob, unit, true, net);
      if Lookup(RequestFields(c, iob, unit).inputs, iob) == Some(p) {
        FieldsIssue(c, iob, unit, p);
      }
    }
  }

  lemma PutKeepsReads(c: Controller, iob: int, unit: int, withInvite: bool, net: Transport)
    requires c.Shaped() && unit in c.stations && unit == ByteAt(c.guest, iob + OFF_UNIT)
    ensures Put(c, iob, unit, withInvite, net).inputs == c.inputs
  {
    hide OutputData, GuestStorage.Complete, Valid, Erase, Set, Arm, UnitBlock, Lookup, ImportStatus, Invite;
    OpenMovesNothing(c, iob, withInvite);
    EraseValid(c.status, ByteAt(c.guest, iob + OFF_UNIT), NO_STATUS);
    OutputKeeps(Open(c, iob, withInvite), iob, unit, withInvite, net);
  }

  // The step that retained a read, still in the table after these steps.
  ghost predicate AskedAt(start: Controller, steps: seq<Step>, expand: Expand, m: nat, iob: int, p: PendingRead)
    requires Started(start)
  {
    && m < |steps| && steps[m].GuestRequest? && steps[m].iob == iob
    && IssuedBy(RetainedIo.Run(start, steps[..m], expand).guest, iob, p)
  }

  lemma {:induction false} ReadWasAsked(start: Controller, steps: seq<Step>, expand: Expand, iob: int, p: PendingRead)
    returns (m: nat)
    requires Started(start) && Lookup(RetainedIo.Run(start, steps, expand).inputs, iob) == Some(p)
    ensures AskedAt(start, steps, expand, m, iob, p)
    decreases |steps|
  {
    hide RetainedIo.Run, Apply, IssuedBy, Lookup, AskedAt, Started, Inv;
    if steps == [] {
      StartsEmpty(start, expand, iob);
      assert false;
    } else {
      var n := |steps| - 1;
      RunStep(start, steps, expand);
      var c := RetainedIo.Run(start, steps[..n], expand);
      StepKeepsRead(c, steps[n], expand, iob, p);
      if Lookup(c.inputs, iob) == Some(p) {
        m := ReadWasAsked(start, steps[..n], expand, iob, p);
        StillAsked(start, steps, expand, m, iob, p);
      } else {
        m := n;
        AskedLast(start, steps, expand, iob, p);
      }
    }
  }

  lemma RunStep(start: Controller, steps: seq<Step>, expand: Expand)
    requires Started(start) && steps != []
    ensures var c := RetainedIo.Run(start, steps[..|steps| - 1], expand);
            && Inv(c) && c.Shaped() && RetainedIo.Run(start, steps, expand) == Apply(c, steps[|steps| - 1], expand)
  {
    hide Apply, Linear, Causal;
  }

  lemma StillAsked(start: Controller, steps: seq<Step>, expand: Expand, m: nat, iob: int, p: PendingRead)
    requires Started(start) && steps != [] && AskedAt(start, steps[..|steps| - 1], expand, m, iob, p)
    ensures AskedAt(start, steps, expand, m, iob, p)
  {
    hide RetainedIo.Run, IssuedBy, Started;
    assert steps[..|steps| - 1][..m] == steps[..m];
  }

  lemma AskedLast(start: Controller, steps: seq<Step>, expand: Expand, iob: int, p: PendingRead)
    requires Started(start) && steps != []
    requires var last := steps[|steps| - 1];
             && last.GuestRequest? && last.iob == iob
             && IssuedBy(RetainedIo.Run(start, steps[..|steps| - 1], expand).guest, iob, p)
    ensures AskedAt(start, steps, expand, |steps| - 1, iob, p)
  {
  }

  lemma StartsEmpty(start: Controller, expand: Expand, iob: int)
    requires Started(start)
    ensures Lookup(RetainedIo.Run(start, [], expand).inputs, iob) == None
  {
  }

  lemma StepKeepsRead(c: Controller, step: Step, expand: Expand, iob: int, p: PendingRead)
    requires c.Shaped() && Lookup(Apply(c, step, expand).inputs, iob) == Some(p)
    ensures Lookup(c.inputs, iob) == Some(p) || (step.GuestRequest? && step.iob == iob && IssuedBy(c.guest, iob, p))
  {
    hide Deliver, Request, Pass, FailOne, Lookup, IssuedBy, Arrive, SwitchOff, Cancel;
    if Reporting(c, step) {
      DeliverKeepsReads(c, step.block);
    } else {
      StepFades(c, step, expand);
      if step.GuestRequest? && step.iob == iob {
        RequestIssues(c, iob, step.net, p);
      }
    }
  }

  lemma DeliverKeepsReads(c: Controller, block: int)
    requires c.Shaped()
    ensures Deliver(c, block).inputs == c.inputs
  {
    hide Set, ReportToGuest;
  }

  // ---- a status is the report of one record ------------------------------------------------

  // A status entry carries the AID and cursor of the record last reported for
  // the unit.
  ghost predicate StatusOf(bytes: seq<byte>, data: seq<byte>) {
    |data| >= 3 && bytes == [0x10, data[2], data[0], data[1], 0, 0, 0, 0, 0, 0, 0, 0]
  }

  ghost predicate Says(c: Controller, base: nat, arrivals: seq<Arrival>, u: int) {
    Lookup(c.status, u).Some? ==>
      && Current(c.log, u).Some?
      && var s := Current(c.log, u).value.serial;
      && base <= s < base + |arrivals| && arrivals[s - base].unit == u
      && StatusOf(Lookup(c.status, u).value.bytes, arrivals[s - base].data)
  }

  lemma {:induction false} CurrentStays(before: seq<Event>, after: seq<Event>, u: int)
    requires |before| <= |after| && after[..|before|] == before
    requires forall i | |before| <= i < |after| :: !after[i].Reported?
    ensures Current(after, u).Some? ==> Current(after, u) == Current(before, u)
    decreases |after|
  {
    if |after| == |before| {
      assert after == before;
    } else {
      var n := |after| - 1;
      assert after[..n][..|before|] == before;
      CurrentStays(before, after[..n], u);
    }
  }

  lemma FadedSays(c: Controller, d: Controller, except: Option<int>, base: nat, arrivals: seq<Arrival>,
                  more: seq<Arrival>, u: int)
    requires Inv(c) && Inv(d) && Fades(c, d, except) && Says(c, base, arrivals, u) && arrivals <= more
    ensures Says(d, base, more, u)
  {
    hide Linear, Lookup, Current;
    CurrentStays(c.log, d.log, u);
    assert Agrees(d, u);
  }

  lemma DeliveredSays(c: Controller, block: int, base: nat, arrivals: seq<Arrival>, u: int)
    requires c.Shaped() && Deliverable(c, block) && FromLine(c, c.stations.Keys, base, arrivals)
    requires Says(c, base, arrivals, u)
    ensures Says(Deliver(c, block), base, arrivals, u)
  {
    hide Lookup, Current, ReportToGuest, Set, InStep, Valid, Numbered;
    var unit := ByteAt(c.guest, block + OFF_UNIT);
    var r := c.stations[unit].terminal.inbound[0];
    assert Holds(c.stations[unit].terminal, r);
    assert Numbered(arrivals, base, unit, r);
    SetLookup(c.status, unit, Status(block, StatusBytes(r.data)), u);
    CurrentNote(c.log, Reported(unit, r.serial, block), u);
    NumberedIs(arrivals, base, unit, r);
  }

  lemma NumberedIs(arrivals: seq<Arrival>, base: nat, u: int, r: Record)
    requires Numbered(arrivals, base, u, r)
    ensures base <= r.serial < base + |arrivals| && arrivals[r.serial - base] == Arrival(u, r.data)
  {
  }

  lemma {:induction false} RunSays(start: Controller, steps: seq<Step>, expand: Expand, u: int)
    requires Started(start)
    ensures Says(RetainedIo.Run(start, steps, expand), start.next, Arrivals(steps, start.stations.Keys), u)
    decreases |steps|
  {
    hide RetainedIo.Run, Apply, Says, Inv, Arrivals;
    if steps == [] {
      NothingSaid(start, expand, u);
    } else {
      var n := |steps| - 1;
      var c := RetainedIo.Run(start, steps[..n], expand);
      RunStep(start, steps, expand);
      RunSays(start, steps[..n], expand, u);
      StepSays(start, steps, expand, u);
    }
  }

  lemma NothingSaid(start: Controller, expand: Expand, u: int)
    requires Started(start)
    ensures Says(RetainedIo.Run(start, [], expand), start.next, Arrivals([], start.stations.Keys), u)
  {
  }

  lemma StepSays(start: Controller, steps: seq<Step>, expand: Expand, u: int)
    requires Started(start) && steps != []
    requires Says(RetainedIo.Run(start, steps[..|steps| - 1], expand), start.next,
                  Arrivals(steps[..|steps| - 1], start.stations.Keys), u)
    ensures Says(RetainedIo.Run(start, steps, expand), start.next, Arrivals(steps, start.stations.Keys), u)
  {
    hide RetainedIo.Run, Apply, Says, FromLine, Inv, Started, Arrivals, Reporting;
    var n, units := |steps| - 1, start.stations.Keys;
    var c := RetainedIo.Run(start, steps[..n], expand);
    RunStep(start, steps, expand);
    RunFromLine(start, steps[..n], expand);
    FromLineUnits(c, units, start.next, Arrivals(steps[..n], units));
    OneMoreArrival(steps, units);
    ApplySays(c, steps[n], expand, start.next, Arrivals(steps[..n], units), Arrivals(steps, units), u);
  }

  lemma OneMoreArrival(steps: seq<Step>, units: set<int>)
    requires steps != []
    ensures Arrivals(steps[..|steps| - 1], units) <= Arrivals(steps, units)
    ensures steps[|steps| - 1].StatusPoll? ==> Arrivals(steps, units) == Arrivals(steps[..|steps| - 1], units)
  {
  }

  lemma ApplySays(c: Controller, step: Step, expand: Expand, base: nat, arrivals: seq<Arrival>, more: seq<Arrival>,
                  u: int)
    requires Inv(c) && FromLine(c, c.stations.Keys, base, arrivals) && Says(c, base, arrivals, u) && arrivals <= more
    requires step.StatusPoll? ==> more == arrivals
    ensures Says(Apply(c, step, expand), base, more, u)
  {
    hide Says, FromLine, Linear, Causal, Apply, Fades, Deliver, Deliverable;
    if Reporting(c, step) {
      DeliveredSays(c, step.block, base, arrivals, u);
      PollApplies(c, step.block, expand);
    } else {
      StepFades(c, step, expand);
      StepInv(c, step, expand);
      FadedSays(c, Apply(c, step, expand), if step.GuestRequest? then Some(step.iob) else None, base, arrivals, more,
                u);
    }
  }

  lemma PollApplies(c: Controller, block: int, expand: Expand)
    requires c.Shaped()
    ensures Apply(c, StatusPoll(block), expand) == Deliver(c, block)
  {
  }

  // ---- what the guest finds ------------------------------------------------------------------

  // There is a unit block at this address.
  ghost predicate Carries(mem: seq<byte>, block: int) {
    block > 0 && InRange(|mem|, block, 2) && mem[block] == 0xE3 && mem[block + 1] == 0xE4
  }

  // The request block and the unit block lie in storage, apart unless they are
  // one, and the bytes stored lie in neither.
  ghost predicate Spread(mem: seq<byte>, iob: int, a: seq<int>) {
    && InRange(|mem|, iob, 0x18) && Inside(|mem|, a)
    && (forall i | 0 <= i < |a| :: !(iob <= a[i] < iob + 0x18))
    && var block := NamedBlock(mem, iob);
       && (forall i | 0 <= i < |a| :: !(block <= a[i] < block + 2))
       && (Carries(mem, block) ==>
         && InRange(|mem|, block, 0x8E) && (block == iob || block + 0x8E <= iob || iob + 0x18 <= block)
         && forall i | 0 <= i < |a| :: !(block <= a[i] < block + 0x8E))
  }

  // The bytes stored, 40 posted, twelve status bytes and one more byte in the
  // unit block if there is one, and nothing else changed.
  ghost predicate Posted(m: seq<byte>, n: seq<byte>, iob: int, a: seq<int>, data: seq<byte>, status: seq<byte>,
                         at: nat, last: byte)
    requires |a| == |data| && Spread(m, iob, a) && |status| == 12 && at < 0x8E
  {
    var block := NamedBlock(m, iob);
    && |n| == |m| && n[iob + 6] == 0x40 && n[iob + 2..iob + 5] == [0, 0, 0]
    && (forall k | 0 <= k < |a| && LastUse(a, k) :: n[a[k]] == data[k])
    && (Carries(m, block) ==> n[block + 0x13..block + 0x1F] == status && n[block + at] == last)
    && forall x | 0 <= x < |m| && !(iob + 2 <= x < iob + 7) && Untouched(a, x)
                  && !(Carries(m, block) && (block + 0x13 <= x < block + 0x1F || x == block + at)) ::
         n[x] == m[x]
  }

  // The bytes stored, clear of both blocks.
  lemma StoredClear(m: seq<byte>, iob: int, a: seq<int>, data: seq<byte>)
    requires |a| == |data| && Spread(m, iob, a)
    ensures var n, block := PokeAll(m, a, data), NamedBlock(m, iob);
            && (forall x | iob <= x < iob + 0x18 :: n[x] == m[x])
            && (Carries(m, block) ==> forall x | block <= x < block + 0x8E :: n[x] == m[x])
            && (forall x | block <= x < block + 2 && 0 <= x < |m| :: n[x] == m[x])
            && (forall k | 0 <= k < |a| && LastUse(a, k) :: n[a[k]] == data[k])
            && forall x | 0 <= x < |m| && Untouched(a, x) :: n[x] == m[x]
  {
    hide PokeAll, NamedBlock;
    PokeAllBytes(m, a, data);
    var n, block := PokeAll(m, a, data), NamedBlock(m, iob);
    forall x | iob <= x < iob + 0x18
      ensures n[x] == m[x]
    {
      assert Untouched(a, x);
    }
    forall x | block <= x < block + 2 && 0 <= x < |m|
      ensures n[x] == m[x]
    {
      assert Untouched(a, x);
    }
    if Carries(m, block) {
      forall x | block <= x < block + 0x8E
        ensures n[x] == m[x]
      {
        assert Untouched(a, x);
      }
    }
  }

  lemma SameBlock(m: seq<byte>, n: seq<byte>, iob: int)
    requires InRange(|m|, iob, 0x18) && |n| == |m| && forall x | iob <= x < iob + 0x18 :: n[x] == m[x]
    ensures NamedBlock(n, iob) == NamedBlock(m, iob)
  {
  }

  lemma BlockTold(g: Guest, block: int, status: seq<byte>, at: nat, last: byte)
    requires InRange(|g.mem|, block, 0x8E) && |status| == 12 && 0x1F <= at < 0x8E
    ensures var h := WriteByte(StoreAt(g, block + 0x13, status), block + at, last);
            && |h.mem| == |g.mem| && h.mem[block + 0x13..block + 0x1F] == status && h.mem[block + at] == last
            && forall x | 0 <= x < |g.mem| && !(block + 0x13 <= x < block + 0x1F)
               && x != block + at :: h.mem[x] == g.mem[x]
  {
    hide StoreAt;
    StoredAt(g, block + 0x13, status);
    var saved := StoreAt(g, block + 0x13, status);
    assert saved.mem[block + 0x13..block + 0x1F] == status;
    var h := WriteByte(saved, block + at, last);
    assert h.mem[block + 0x13..block + 0x1F] == saved.mem[block + 0x13..block + 0x1F];
  }

  lemma MaskPosted(g: Guest, iob: int)
    requires InRange(|g.mem|, iob, 0x18)
    ensures var h := GuestStorage.Complete(g, iob, 0);
            && |h.mem| == |g.mem| && h.mem[iob + 6] == 0x40 && h.mem[iob + 2..iob + 5] == [0, 0, 0]
            && forall x | 0 <= x < |g.mem| && !(iob + 2 <= x < iob + 7) :: h.mem[x] == g.mem[x]
  {
    assert Addr24Bytes(0) == [0, 0, 0];
  }

  ghost function ToldIf(h: Guest, m: seq<byte>, block: int, status: seq<byte>, at: nat, last: byte): Guest {
    if Carries(m, block) then WriteByte(StoreAt(h, block + 0x13, status), block + at, last) else h
  }

  // Twelve status bytes and one more in the unit block, then 40.
  lemma ToldAndPosted(m: seq<byte>, h: Guest, iob: int, a: seq<int>, data: seq<byte>, status: seq<byte>, at: nat,
                      last: byte)
    requires |a| == |data| && Spread(m, iob, a) && |status| == 12 && 0x1F <= at < 0x8E && h.mem == PokeAll(m, a, data)
    ensures Posted(m, GuestStorage.Complete(ToldIf(h, m, NamedBlock(m, iob), status, at, last), iob, 0).mem, iob, a,
                   data,
                   status, at, last)
  {
    hide PokeAll, NamedBlock, GuestStorage.Complete, LastUse;
    StoredClear(m, iob, a, data);
    var block := NamedBlock(m, iob);
    var told := ToldIf(h, m, block, status, at, last);
    if Carries(m, block) {
      BlockTold(h, block, status, at, last);
    }
    hide ToldIf;
    MaskPosted(told, iob);
    var n := GuestStorage.Complete(told, iob, 0).mem;
    if Carries(m, block) {
      assert n[block + 0x13..block + 0x1F] == told.mem[block + 0x13..block + 0x1F];
    }
  }

  // ---- the read ------------------------------------------------------------------------------

  // What a read stores: the fields of the response from its fourth byte on, as
  // far as the length goes; command 32 with a length of 18xx puts six EE bytes
  // and the true count before them.
  ghost function Fields(command: byte, capacity: nat, raw: seq<byte>): (r: seq<byte>)
    requires |raw| >= 3
    ensures |r| <= capacity
  {
    var n := |raw| - 3;
    if command == 0x32 && capacity / 0x100 % 0x100 == 0x18 then
      if capacity < 8 then []
      else [0xEE, 0xEE, 0xEE, 0xEE, 0xEE, 0xEE, n / 0x100 % 0x100, n % 0x100]
           + raw[3..3 + if n < capacity - 8 then n else capacity - 8]
    else raw[3..3 + if n < capacity then n else capacity]
  }

  lemma PlacedFields(g: Guest, p: PendingRead, raw: seq<byte>)
    requires |raw| >= 3 && 0 <= p.capacity <= |p.destination|
    requires Inside(|g.mem|, p.destination[..|Fields(p.command, p.capacity, raw)|])
    ensures var data := Fields(p.command, p.capacity, raw);
            Placed(g, p, raw) == g.(mem := PokeAll(g.mem, p.destination[..|data|], data))
  {
    hide PokeAll, StoreEach;
    var data := Fields(p.command, p.capacity, raw);
    PlacedIsStore(g, p, raw);
    StoreEachHead(g, p.destination, data);
    StoreEachPokes(g, p.destination[..|data|], data);
    assert p.destination[..|data|][..|data|] == p.destination[..|data|];
  }

  lemma PlacedIsStore(g: Guest, p: PendingRead, raw: seq<byte>)
    requires |raw| >= 3 && 0 <= p.capacity <= |p.destination|
    ensures Placed(g, p, raw) == StoreEach(g, p.destination, Fields(p.command, p.capacity, raw))
  {
    hide StoreEach;
    var n := |raw| - 3;
    if CountedForm(p) && p.capacity < 8 {
      StoreNothing(g, p.destination);
    } else if CountedForm(p) {
      CountedPrefix(raw, p.capacity - 8);
    } else {
      assert raw[3..][..Fit(n, p.capacity)] == raw[3..3 + Fit(n, p.capacity)];
    }
  }

  lemma StoreNothing(g: Guest, a: seq<int>)
    ensures StoreEach(g, a, []) == g
  {
  }

  lemma CountedPrefix(raw: seq<byte>, room: nat)
    requires |raw| >= 3
    ensures var n := |raw| - 3;
            Repeat(0xEE as byte, 6) + [n / 0x100 % 0x100, n % 0x100] + raw[3..][..Min(n, room)]
            == [0xEE, 0xEE, 0xEE, 0xEE, 0xEE, 0xEE, n / 0x100 % 0x100, n % 0x100]
               + raw[3..3 + if n < room then n else room]
  {
    var n := |raw| - 3;
    assert raw[3..][..Min(n, room)] == raw[3..3 + Min(n, room)];
    assert Repeat(0xEE as byte, 6) == [0xEE, 0xEE, 0xEE, 0xEE, 0xEE, 0xEE];
  }

  lemma {:induction false} StoreEachHead(g: Guest, a: seq<int>, data: seq<byte>)
    requires |data| <= |a|
    ensures StoreEach(g, a, data) == StoreEach(g, a[..|data|], data)
    decreases |data|
  {
    if data != [] {
      var n := |data| - 1;
      StoreEachHead(g, a, data[..n]);
      StoreEachHead(g, a[..|data|], data[..n]);
      assert a[..|data|][..n] == a[..n];
    }
  }

  // Byte 7C without its bit 10.
  ghost function GateShut(b: byte): byte {
    if b / 0x10 % 2 == 1 then b - 0x10 else b
  }

  ghost function InputGate(m: seq<byte>, iob: int): byte
    requires InRange(|m|, iob, 0x18)
  {
    var block := NamedBlock(m, iob);
    if Carries(m, block) && InRange(|m|, block, 0x8E) then GateShut(m[block + 0x7C]) else 0
  }

  // What a completed read leaves in storage.
  ghost predicate ReadLeft(m: seq<byte>, n: seq<byte>, iob: int, p: PendingRead, raw: seq<byte>)
    requires |raw| >= 3 && 0 <= p.capacity <= |p.destination|
    requires Spread(m, iob, p.destination[..|Fields(p.command, p.capacity, raw)|])
  {
    var data := Fields(p.command, p.capacity, raw);
    Posted(m, n, iob, p.destination[..|data|], data,
           [if |raw| > 3 then 0xC0 else 0x80, 0, raw[0], raw[1], 0, 0, 0, 0, 0, 0, 0, 0], 0x7C, InputGate(m, iob))
  }

  lemma UnitBlockOf(m: seq<byte>, h: Guest, iob: int, a: seq<int>, data: seq<byte>)
    requires |a| == |data| && Spread(m, iob, a) && h.mem == PokeAll(m, a, data)
    ensures UnitBlock(h, iob) == NamedBlock(m, iob)
    ensures UnitBlock(h, iob) > 0 && IsUnitBlock(h, UnitBlock(h, iob)) <==> Carries(m, NamedBlock(m, iob))
    ensures Carries(m, NamedBlock(m, iob)) ==>
              forall x | NamedBlock(m, iob) <= x < NamedBlock(m, iob) + 0x8E :: h.mem[x] == m[x]
  {
    hide PokeAll;
    StoredClear(m, iob, a, data);
    SameBlock(m, h.mem, iob);
    BlockLies(h, iob);
    var block := NamedBlock(m, iob);
    if InRange(|m|, block, 2) {
      HalfLies(h, block);
    } else {
      assert HalfAt(h, block) == 0;
    }
  }

  lemma ReadLeaves(g: Guest, iob: int, p: PendingRead, raw: seq<byte>)
    requires |raw| >= 3 && 0 <= p.capacity <= |p.destination|
    requires Spread(g.mem, iob, p.destination[..|Fields(p.command, p.capacity, raw)|])
    ensures ReadLeft(g.mem, GuestStorage.Complete(ReadStatus(Placed(g, p, raw), iob, raw), iob, 0).mem, iob, p, raw)
  {
    hide PokeAll, Placed, NamedBlock, GuestStorage.Complete, Fields, StoreAt, Spread, UnitBlock, IsUnitBlock, Carries,
         Posted;
    var data := Fields(p.command, p.capacity, raw);
    var a := p.destination[..|data|];
    SpreadInside(g.mem, iob, a);
    PlacedFields(g, p, raw);
    var h := Placed(g, p, raw);
    UnitBlockOf(g.mem, h, iob, a, data);
    var status: seq<byte> := [if |raw| > 3 then 0xC0 else 0x80, 0, raw[0], raw[1], 0, 0, 0, 0, 0, 0, 0, 0];
    ToldAndPosted(g.mem, h, iob, a, data, status, 0x7C, InputGate(g.mem, iob));
    ReadStatusTold(g.mem, h, iob, a, raw);
  }

  lemma SpreadInside(m: seq<byte>, iob: int, a: seq<int>)
    requires Spread(m, iob, a)
    ensures InRange(|m|, iob, 0x18) && Inside(|m|, a)
    ensures Carries(m, NamedBlock(m, iob)) ==> InRange(|m|, NamedBlock(m, iob), 0x8E)
  {
  }

  lemma ReadStatusTold(m: seq<byte>, h: Guest, iob: int, a: seq<int>, raw: seq<byte>)
    requires |raw| >= 3 && Spread(m, iob, a) && |h.mem| == |m|
    requires UnitBlock(h, iob) == NamedBlock(m, iob)
    requires UnitBlock(h, iob) > 0 && IsUnitBlock(h, UnitBlock(h, iob)) <==> Carries(m, NamedBlock(m, iob))
    requires Carries(m, NamedBlock(m, iob)) ==>
               forall x | NamedBlock(m, iob) <= x < NamedBlock(m, iob) + 0x8E :: h.mem[x] == m[x]
    ensures ReadStatus(h, iob, raw)
         == ToldIf(h, m, NamedBlock(m, iob),
                   [if |raw| > 3 then 0xC0 else 0x80, 0, raw[0], raw[1], 0, 0, 0, 0, 0, 0, 0, 0], 0x7C,
                   InputGate(m, iob))
  {
    hide StoreAt, NamedBlock, UnitBlock, IsUnitBlock;
    var block := NamedBlock(m, iob);
    if Carries(m, block) {
      SpreadInside(m, iob, a);
      var status: seq<byte> := [if |raw| > 3 then 0xC0 else 0x80, 0, raw[0], raw[1], 0, 0, 0, 0, 0, 0, 0, 0];
      StoredAt(h, block + 0x13, status);
      var saved := StoreAt(h, block + 0x13, status);
      assert saved.mem[block + 0x7C] == m[block + 0x7C];
      assert ByteAt(saved, block + 0x7C) == m[block + 0x7C];
    }
  }

  // ---- every read of every run -----------------------------------------------------------------

  // What a pass that read a record did to the controller.
  lemma PassReads(c: Controller, expand: Expand, e: Event) returns (p: PendingRead)
    requires Inv(c) && e.FieldsRead? && Pass(c, expand).log == c.log + [e]
    ensures Lookup(c.inputs, e.iob) == Some(p) && p.unit == e.unit && p.block == e.block && e.unit in c.stations
    ensures var t := c.stations[e.unit].terminal;
            && HasInput(t) && e.serial == NextInput(t).serial && |FieldBytes(t, p.command, expand)| >= 3
            && p.capacity <= |p.destination| && Pass(c, expand) == FinishRead(c, e.iob, p, expand)
  {
    hide FinishWait, FinishPut, FinishRead, Linear, Causal, Lookup;
    var w, q, r := FirstWait(c, 0), FirstPut(c, 0), FirstRead(c, 0);
    if w < |c.waits.entries| {
      WaitQuiet(c, c.waits.entries[w].key, c.waits.entries[w].value);
      LastEvent(c.log, e, Waited(c.waits.entries[w].value.unit, c.waits.entries[w].value.block,
                                 c.waits.entries[w].key));
    } else if q < |c.puts.entries| {
      PutEvent(c, c.puts.entries[q].key, c.puts.entries[q].value, e);
    } else if r < |c.inputs.entries| {
      p := c.inputs.entries[r].value;
      Completions.LiveIsLookup(c.inputs, r);
      ReadEvent(c, c.inputs.entries[r].key, p, expand, e);
    } else {
      LogGrew(c.log, e);
    }
  }

  lemma LogGrew(log: seq<Event>, e: Event)
    ensures log != log + [e]
  {
    assert |log + [e]| == |log| + 1;
  }

  lemma LastEvent(log: seq<Event>, e: Event, f: Event)
    requires log + [e] == log + [f]
    ensures e == f
  {
    assert (log + [e])[|log|] == e && (log + [f])[|log|] == f;
  }

  lemma PutEvent(c: Controller, iob: int, w: Waiting, e: Event)
    requires PutReady(c, w) && FinishPut(c, iob, w).log == c.log + [e]
    ensures e.Claimed?
  {
    hide GuestStorage.Complete, Erase, ClaimResponse;
    var log := FinishPut(c, iob, w).log;
    assert log[|log| - 1].Claimed? && log[|log| - 1] == e;
  }

  lemma ReadEvent(c: Controller, iob: int, p: PendingRead, expand: Expand, e: Event)
    requires p.unit in c.stations && HasInput(c.stations[p.unit].terminal)
    requires e.FieldsRead? && FinishRead(c, iob, p, expand).log == c.log + [e]
    ensures e == FieldsRead(p.unit, NextInput(c.stations[p.unit].terminal).serial, p.block, iob)
    ensures |FieldBytes(c.stations[p.unit].terminal, p.command, expand)| >= 3 && p.capacity <= |p.destination|
  {
    hide GuestStorage.Complete, Placed, ReadStatus, Held, FieldBytes, Erase, TakeFields, NextInput;
    var log := FinishRead(c, iob, p, expand).log;
    assert log == c.log + [log[|log| - 1]];
    LastEvent(c.log, e, log[|log| - 1]);
  }

  // The bytes of a response, given what its terminal's line says of it.
  ghost function Response(data: seq<byte>, command: byte, read: seq<byte>, expand: Expand): seq<byte> {
    if command == 0x42 && !TextRead(read) then expand(data) else data
  }

  lemma TakenResponse(t: Terminal, command: byte, expand: Expand, u: int, base: nat, arrivals: seq<Arrival>)
    requires HasInput(t) && InStep(t) && forall r | Holds(t, r) :: Numbered(arrivals, base, u, r)
    ensures var s := NextInput(t).serial;
            && base <= s < base + |arrivals| && arrivals[s - base].unit == u
            && FieldBytes(t, command, expand)
               == Response(arrivals[s - base].data, command, ReadAnswered(TakeFields(t).line, s), expand)
  {
    hide TextRead, ReadInForce, ReadAnswered;
    var r := NextInput(t);
    assert Holds(t, r);
    NumberedIs(arrivals, base, u, r);
    if t.retained.None? {
      LineGrows(t.line, Answered(r.serial), r.serial);
    }
  }

  // Withdrawing the invitation after the response forgets what it answered: a
  // Read Text Screen reply, which command 42 hands over as it came, is then
  // expanded like any other.
  lemma WithdrawnExpands(t: Terminal, r: Record, expand: Expand)
    requires InStep(t) && t.retained == Some(r) && TextRead(ReadAnswered(t.line, r.serial))
    ensures FieldBytes(t, 0x42, expand) == r.data && FieldBytes(CancelInvite(t), 0x42, expand) == expand(r.data)
  {
  }

  // Over every run, what a Read Input Fields leaves in storage is made of the
  // one record its event names: the serial is the record's place in the order
  // the terminals sent them, the bytes are that record's, and they are expanded
  // exactly for command 42 and a record that did not answer a Read Text Screen
  // still standing.  The read itself is the one a guest request asked for.
  lemma ReadsDeliver(start: Controller, steps: seq<Step>, expand: Expand, e: Event)
    returns (p: PendingRead, m: nat)
    requires Started(start) && e.FieldsRead?
    requires var c := RetainedIo.Run(start, steps, expand); Pass(c, expand).log == c.log + [e]
    ensures AskedAt(start, steps, expand, m, e.iob, p) && p.unit == e.unit && p.block == e.block
    ensures |p.destination| == p.capacity
    ensures var c := RetainedIo.Run(start, steps, expand);
            var d, arrivals := Pass(c, expand), Arrivals(steps, start.stations.Keys);
            && start.next <= e.serial < start.next + |arrivals| && arrivals[e.serial - start.next].unit == e.unit
            && e.unit in d.stations
            && var raw := Response(arrivals[e.serial - start.next].data, p.command,
                                   ReadAnswered(d.stations[e.unit].terminal.line, e.serial), expand);
               && |raw| >= 3
               && (Spread(c.guest.mem, e.iob, p.destination[..|Fields(p.command, p.capacity, raw)|]) ==>
                     ReadLeft(c.guest.mem, d.guest.mem, e.iob, p, raw))
  {
    hide RetainedIo.Run, Arrivals, AskedAt, FinishRead, Pass, Lookup, FromLine, Inv, Spread, ReadLeft, Fields, Response,
         FieldBytes, TakeFields, NextInput, IssuedBy, Started;
    var c := RetainedIo.Run(start, steps, expand);
    p := PassReads(c, expand, e);
    m := ReadWasAsked(start, steps, expand, e.iob, p);
    AskedIsIssued(start, steps, expand, m, e.iob, p);
    RunFromLine(start, steps, expand);
    var arrivals := Arrivals(steps, start.stations.Keys);
    FromLineAt(c, start.stations.Keys, start.next, arrivals, e.unit);
    TakenResponse(c.stations[e.unit].terminal, p.command, expand, e.unit, start.next, arrivals);
    ReadFinished(c, e.iob, p, expand);
    var raw := FieldBytes(c.stations[e.unit].terminal, p.command, expand);
    if Spread(c.guest.mem, e.iob, p.destination[..|Fields(p.command, p.capacity, raw)|]) {
      ReadLeaves(c.guest, e.iob, p, raw);
    }
  }

  lemma AskedIsIssued(start: Controller, steps: seq<Step>, expand: Expand, m: nat, iob: int, p: PendingRead)
    requires Started(start) && AskedAt(start, steps, expand, m, iob, p)
    ensures |p.destination| == p.capacity
  {
    hide RetainedIo.Run;
  }

  lemma FromLineAt(c: Controller, units: set<int>, base: nat, arrivals: seq<Arrival>, u: int)
    requires FromLine(c, units, base, arrivals) && u in c.stations
    ensures InStep(c.stations[u].terminal)
    ensures forall r | Holds(c.stations[u].terminal, r) :: Numbered(arrivals, base, u, r)
  {
  }

  lemma ReadFinished(c: Controller, iob: int, p: PendingRead, expand: Expand)
    requires p.unit in c.stations && HasInput(c.stations[p.unit].terminal)
    requires var raw := FieldBytes(c.stations[p.unit].terminal, p.command, expand);
             |raw| >= 3 && p.capacity <= |p.destination|
    ensures var d, t := FinishRead(c, iob, p, expand), c.stations[p.unit].terminal;
            && p.unit in d.stations && d.stations[p.unit].terminal == TakeFields(t)
            && d.guest == GuestStorage.Complete(ReadStatus(Placed(c.guest, p, FieldBytes(t, p.command, expand)), iob,
                                                           FieldBytes(t, p.command, expand)), iob, 0)
  {
    hide GuestStorage.Complete, Placed, ReadStatus, Held, FieldBytes, Erase, TakeFields;
  }

  // ---- only a pass reads ---------------------------------------------------------------------

  ghost predicate ReadsNothing(c: Controller, d: Controller) {
    && |c.log| <= |d.log| && d.log[..|c.log|] == c.log
    && forall i | |c.log| <= i < |d.log| :: !d.log[i].FieldsRead?
  }

  lemma StepReadsNothing(c: Controller, step: Step, expand: Expand)
    requires c.Shaped() && !step.ControllerPass?
    ensures ReadsNothing(c, Apply(c, step, expand))
  {
    hide Deliver, Request, Pass, FailOne, Valid, Erase, Lookup, PowerOff, Enqueue;
    match step {
      case StatusPoll(block) => PollReadsNothing(c, block);
      case GuestRequest(iob, net) => RequestReadsNothing(c, iob, net);
      case FailRequest(unit) => FailReadsNothing(c, unit);
      case _ =>
    }
  }

  lemma PollReadsNothing(c: Controller, block: int)
    requires c.Shaped()
    ensures ReadsNothing(c, Deliver(c, block))
  {
    hide ReportToGuest, Set, Valid, TakeStatus;
  }

  lemma FailReadsNothing(c: Controller, unit: int)
    ensures ReadsNothing(c, FailOne(c, unit))
  {
    hide Erase, Failed;
  }

  lemma RequestReadsNothing(c: Controller, iob: int, net: Transport)
    requires c.Shaped()
    ensures ReadsNothing(c, Request(c, iob, net))
  {
    hide Put, RequestFields, GuestStorage.Complete, Failed, NotAttached, CancelInvite, Valid;
    var unit := ByteAt(c.guest, iob + OFF_UNIT);
    if unit in c.stations {
      PutReadsNothing(c, iob, unit, false, net);
      PutReadsNothing(c, iob, unit, true, net);
      FieldsKeepLog(c, iob, unit);
    }
  }

  lemma FieldsKeepLog(c: Controller, iob: int, unit: int)
    requires c.Shaped() && unit in c.stations
    ensures RequestFields(c, iob, unit).log == c.log
  {
    hide Set, UnitBlock, Valid, GuestStorage.Complete, Displacement, Lookup;
  }

  lemma PutReadsNothing(c: Controller, iob: int, unit: int, withInvite: bool, net: Transport)
    requires c.Shaped() && unit in c.stations && unit == ByteAt(c.guest, iob + OFF_UNIT)
    ensures ReadsNothing(c, Put(c, iob, unit, withInvite, net))
  {
    hide OutputData, Open, Respond, Erase, Valid, GuestStorage.Complete;
    OpenMovesNothing(c, iob, withInvite);
    OpenReadsNothing(c, iob, withInvite);
    EraseValid(c.status, ByteAt(c.guest, iob + OFF_UNIT), NO_STATUS);
    OutputKeeps(Open(c, iob, withInvite), iob, unit, withInvite, net);
    RespondReadsNothing(c, iob, unit);
  }

  lemma OpenReadsNothing(c: Controller, iob: int, withInvite: bool)
    ensures ReadsNothing(c, Open(c, iob, withInvite))
  {
    hide Erase, ByteAt, Without, WriteByte;
  }

  lemma RespondReadsNothing(c: Controller, iob: int, unit: int)
    requires c.Shaped() && unit in c.stations
    ensures ReadsNothing(c, Respond(c, iob, unit))
  {
    hide Set, Erase, Arm, UnitBlock, Valid, Lookup, ImportStatus, GuestStorage.Complete, Invite;
  }

  lemma PassReadsOne(c: Controller, expand: Expand, i: nat)
    requires Inv(c) && |c.log| <= i < |Pass(c, expand).log| && Pass(c, expand).log[i].FieldsRead?
    ensures i == |c.log| && Pass(c, expand).log == c.log + [Pass(c, expand).log[i]]
  {
    hide FinishWait, FinishRead, Linear, Causal, Lookup, GuestStorage.Complete, Erase, ClaimResponse;
    var w, q, r := FirstWait(c, 0), FirstPut(c, 0), FirstRead(c, 0);
    if w < |c.waits.entries| {
      WaitQuiet(c, c.waits.entries[w].key, c.waits.entries[w].value);
    } else if q < |c.puts.entries| {
    } else if r < |c.inputs.entries| {
      ReadTakes(c, c.inputs.entries[r].key, c.inputs.entries[r].value, expand);
    }
  }

  // Every read in the log of a run was a pass of the controller.
  lemma {:induction false} ReadWasPass(start: Controller, steps: seq<Step>, expand: Expand, i: nat) returns (k: nat)
    requires Started(start) && i < |RetainedIo.Run(start, steps, expand).log|
    requires RetainedIo.Run(start, steps, expand).log[i].FieldsRead?
    ensures k < |steps| && steps[k].ControllerPass?
    ensures var c := RetainedIo.Run(start, steps[..k], expand);
            Pass(c, expand).log == c.log + [RetainedIo.Run(start, steps, expand).log[i]]
    decreases |steps|
  {
    hide RetainedIo.Run, Apply, Pass, Inv, Started;
    if steps == [] {
      NothingLogged(start, expand);
      assert false;
    } else {
      var n := |steps| - 1;
      var c := RetainedIo.Run(start, steps[..n], expand);
      RunStep(start, steps, expand);
      if steps[n].ControllerPass? {
        PassApplies(c, expand);
        PassGrows(c, expand);
      } else {
        StepReadsNothing(c, steps[n], expand);
      }
      if i < |c.log| {
        assert RetainedIo.Run(start, steps, expand).log[..|c.log|][i] == c.log[i];
        k := ReadWasPass(start, steps[..n], expand, i);
        assert steps[..n][..k] == steps[..k];
      } else {
        k := n;
        PassReadsOne(c, expand, i);
      }
    }
  }

  lemma NothingLogged(start: Controller, expand: Expand)
    requires Started(start)
    ensures RetainedIo.Run(start, [], expand).log == []
  {
  }

  lemma PassApplies(c: Controller, expand: Expand)
    requires c.Shaped()
    ensures Apply(c, ControllerPass, expand) == Pass(c, expand)
  {
  }

  lemma PassGrows(c: Controller, expand: Expand)
    requires c.Shaped()
    ensures |c.log| <= |Pass(c, expand).log| && Pass(c, expand).log[..|c.log|] == c.log
  {
    hide Pass, Lookup;
    PassFades(c, expand);
  }

  // ---- a class-C1 completion ---------------------------------------------------------------------

  // What an answered wait leaves: the report of a record in the unit block,
  // its AID once more at 8D, and 40.
  ghost predicate WaitLeft(m: seq<byte>, n: seq<byte>, iob: int, data: seq<byte>) {
    && |data| >= 3 && Spread(m, iob, [])
    && Posted(m, n, iob, [], [], [0x10, data[2], data[0], data[1], 0, 0, 0, 0, 0, 0, 0, 0], 0x8D, data[2])
  }

  lemma ImportLeaves(g: Guest, iob: int, bytes: seq<byte>, data: seq<byte>)
    requires StatusOf(bytes, data) && Spread(g.mem, iob, [])
    ensures WaitLeft(g.mem, GuestStorage.Complete(ImportStatus(g, iob, bytes), iob, 0).mem, iob, data)
  {
    hide NamedBlock, GuestStorage.Complete, StoreAt, UnitBlock, IsUnitBlock, Posted;
    PokeNone(g.mem);
    UnitBlockOf(g.mem, g, iob, [], []);
    ToldAndPosted(g.mem, g, iob, [], [], bytes, 0x8D, data[2]);
    assert ImportStatus(g, iob, bytes) == ToldIf(g, g.mem, NamedBlock(g.mem, iob), bytes, 0x8D, data[2]);
  }

  // The record a unit's standing status reports.
  ghost predicate Reports(log: seq<Event>, base: nat, arrivals: seq<Arrival>, u: int, block: int, data: seq<byte>) {
    exists s: nat, j: nat ::
      && ReportedAt(log, u, Seen(block, s), j)
      && base <= s < base + |arrivals| && arrivals[s - base] == Arrival(u, data)
  }

  lemma StandingReport(c: Controller, base: nat, arrivals: seq<Arrival>, u: int, block: int) returns (data: seq<byte>)
    requires Inv(c) && Says(c, base, arrivals, u) && StatusFor(c, u, block)
    ensures StatusOf(Lookup(c.status, u).value.bytes, data) && Reports(c.log, base, arrivals, u, block, data)
  {
    hide Linear, Lookup, Current, ReportedAt;
    assert Agrees(c, u);
    CurrentWasReported(c.log, u);
    var seen := Current(c.log, u).value;
    var j: nat :| ReportedAt(c.log, u, seen, j);
    data := arrivals[seen.serial - base].data;
    assert ReportedAt(c.log, u, Seen(block, seen.serial), j);
  }

  // Over every run, a class-C1 request, answered by a pass or at once, finds
  // the report of the very record whose status answered it.
  lemma WaitsTell(start: Controller, steps: seq<Step>, expand: Expand, e: Event) returns (data: seq<byte>)
    requires Started(start) && e.Waited?
    requires var c := RetainedIo.Run(start, steps, expand); Pass(c, expand).log == c.log + [e]
    ensures var c := RetainedIo.Run(start, steps, expand);
            && Reports(c.log, start.next, Arrivals(steps, start.stations.Keys), e.unit, e.block, data)
            && (Spread(c.guest.mem, e.iob, []) ==>
                  WaitLeft(c.guest.mem, Pass(c, expand).guest.mem, e.iob, data))
  {
    hide RetainedIo.Run, Arrivals, Says, Pass, FinishWait, Lookup, Inv, Spread, WaitLeft, StatusOf, Reports, Started;
    var c := RetainedIo.Run(start, steps, expand);
    var w := PassWaits(c, expand, e);
    RunSays(start, steps, expand, e.unit);
    data := StandingReport(c, start.next, Arrivals(steps, start.stations.Keys), e.unit, e.block);
    if Spread(c.guest.mem, e.iob, []) {
      ImportLeaves(c.guest, e.iob, Lookup(c.status, e.unit).value.bytes, data);
      WaitFinished(c, e.iob, w);
    }
  }

  lemma WaitFinished(c: Controller, iob: int, w: Waiting)
    requires StatusFor(c, w.unit, w.block)
    ensures FinishWait(c, iob, w).guest
         == GuestStorage.Complete(ImportStatus(c.guest, iob, Lookup(c.status, w.unit).value.bytes), iob, 0)
  {
    hide GuestStorage.Complete, ImportStatus, Lookup, Erase;
  }

  lemma PassWaits(c: Controller, expand: Expand, e: Event) returns (w: Waiting)
    requires Inv(c) && e.Waited? && Pass(c, expand).log == c.log + [e]
    ensures w.unit == e.unit && w.block == e.block && StatusFor(c, w.unit, w.block)
    ensures Pass(c, expand) == FinishWait(c, e.iob, w)
  {
    hide FinishWait, FinishPut, FinishRead, Linear, Causal, Lookup;
    var i, q, r := FirstWait(c, 0), FirstPut(c, 0), FirstRead(c, 0);
    if i < |c.waits.entries| {
      w := c.waits.entries[i].value;
      WaitQuiet(c, c.waits.entries[i].key, w);
      LastEvent(c.log, e, Waited(w.unit, w.block, c.waits.entries[i].key));
    } else if q < |c.puts.entries| {
      PutEvent(c, c.puts.entries[q].key, c.puts.entries[q].value, e);
    } else if r < |c.inputs.entries| {
      ReadTakes(c, c.inputs.entries[r].key, c.inputs.entries[r].value, expand);
      LastRead(c, c.inputs.entries[r].key, c.inputs.entries[r].value, expand, e);
    } else {
      LogGrew(c.log, e);
    }
  }

  lemma LastRead(c: Controller, iob: int, p: PendingRead, expand: Expand, e: Event)
    requires p.unit in c.stations && HasInput(c.stations[p.unit].terminal)
    requires FinishRead(c, iob, p, expand).log == c.log + [e]
    ensures e.Lost? || e.FieldsRead?
  {
    hide FinishRead;
    ReadTakes(c, iob, p, expand);
    var log := FinishRead(c, iob, p, expand).log;
    assert log[|log| - 1] == e;
  }

  lemma ResponseTells(start: Controller, steps: seq<Step>, expand: Expand, iob: int, unit: int)
    returns (data: seq<byte>)
    requires Started(start) && unit in RetainedIo.Run(start, steps, expand).stations
    requires var c := RetainedIo.Run(start, steps, expand); StatusFor(c, unit, UnitBlock(c.guest, iob))
    ensures var c := RetainedIo.Run(start, steps, expand);
            && Reports(c.log, start.next, Arrivals(steps, start.stations.Keys), unit, UnitBlock(c.guest, iob), data)
            && (Spread(c.guest.mem, iob, []) ==>
                  WaitLeft(c.guest.mem, Respond(c, iob, unit).guest.mem, iob, data))
  {
    hide RetainedIo.Run, Arrivals, Says, Respond, Lookup, Linear, Causal, Spread, WaitLeft, StatusOf, Reports,
         Started, UnitBlock;
    var c := RetainedIo.Run(start, steps, expand);
    RunSays(start, steps, expand, unit);
    data := StandingReport(c, start.next, Arrivals(steps, start.stations.Keys), unit, UnitBlock(c.guest, iob));
    if Spread(c.guest.mem, iob, []) {
      ImportLeaves(c.guest, iob, Lookup(c.status, unit).value.bytes, data);
      ResponseFinished(c, iob, unit);
    }
  }

  lemma ResponseFinished(c: Controller, iob: int, unit: int)
    requires c.Shaped() && unit in c.stations && StatusFor(c, unit, UnitBlock(c.guest, iob))
    ensures Respond(c, iob, unit).guest
         == GuestStorage.Complete(ImportStatus(c.guest, iob, Lookup(c.status, unit).value.bytes), iob, 0)
  {
    hide GuestStorage.Complete, ImportStatus, Lookup, Erase, UnitBlock;
  }
}
