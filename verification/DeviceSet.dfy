// The device set as the supervisor calls it: the pending tables, the displays
// and guest storage, each an object updated in place.  The ghost field `state`
// is the value they make up together, and every operation is proved to change
// it as the function in `Controllers` says.
module DeviceSets {
  import opened Bytes
  import opened GuestStorage
  import opened MachineStates
  import opened SlotMaps
  import opened Terminals
  import B = BufferCapture
  import C = Controllers

  ghost predicate AllDifferent(a: object, b: object, c: object, d: object, e: object) {
    a != b && a != c && a != d && a != e && b != c && b != d && b != e && c != d && c != e && d != e
  }

  ghost function Idle(g: Guest, units: seq<int>): (r: C.Controller)
    requires g.Valid()
    ensures r.Shaped()
  {
    C.Controller(g, map u | u in units :: C.Station(IDLE, false), Clear(), Clear(), Clear(), Clear(), Clear(), None,
                 {}, 0, [])
  }

  // No two stations of a configuration share an address.
  ghost predicate OnceEach(units: seq<int>) {
    forall i, j | 0 <= i < j < |units| :: units[i] != units[j]
  }

  class DeviceSet {
    const m: MachineState
    // The display units in slot order, and the display of each.
    const units: seq<int>
    const stations: map<int, Workstation>
    const pendingInputReads: SlotMap<int, C.PendingRead>
    const inputStagingPages: SlotMap<int, int>
    const inputResponseStatus: SlotMap<int, C.Status>
    const pendingC1Completions: SlotMap<int, C.Waiting>
    const pendingPutWithInvites: SlotMap<int, C.Waiting>
    // Units whose display was switched off since it was last bound.
    var displaysDetached: set<int>
    var lastDeferredInput: Option<C.Deferred>
    var pendingControllerInvites: set<int>
    // Terminal records parked so far, over all stations.
    var recordsReceived: nat

    // The fault a read outside storage latches in the machine is not part of it.
    ghost var state: C.Controller

    // Every table is an object of its own, with its own released value.
    ghost predicate Tabled() {
      && AllDifferent(pendingInputReads, inputStagingPages, inputResponseStatus, pendingC1Completions,
                      pendingPutWithInvites)
      && pendingInputReads.blank == C.NO_READ && inputStagingPages.blank == 0
         && inputResponseStatus.blank == C.NO_STATUS
      && pendingC1Completions.blank == C.NO_WAIT && pendingPutWithInvites.blank == C.NO_WAIT
    }

    // So is every display.
    ghost predicate Wired() {
      && (forall i | 0 <= i < |units| :: units[i] in stations) && (forall u | u in stations :: u in units)
      && OnceEach(units)
      && forall u, v | u in stations && v in stations && stations[u] == stations[v] :: u == v
    }

    ghost function Stations(): map<int, C.Station>
      reads this`displaysDetached, stations.Values
    {
      map u | u in stations :: C.Station(stations[u].View(), u in displaysDetached)
    }

    ghost predicate Valid()
      reads this, m.mainStorage, m.atr, pendingInputReads, inputStagingPages, inputResponseStatus, pendingC1Completions,
            pendingPutWithInvites, stations.Values
    {
      && m.Valid() && Wired() && Tabled() && state.Shaped()
      && state.guest.mem == m.mainStorage[..] && state.guest.atr == m.atr[..]
      && state.stations == Stations()
      && state.inputs == pendingInputReads.View() && state.staging == inputStagingPages.View()
      && state.status == inputResponseStatus.View() && state.waits == pendingC1Completions.View()
      && state.puts == pendingPutWithInvites.View() && state.deferred == lastDeferredInput
      && state.invites == pendingControllerInvites && state.next == recordsReceived
    }

    // A controller with the given display units, nothing pending.
    constructor (m: MachineState, units: seq<int>)
      requires m.Valid() && OnceEach(units)
      ensures Valid() && this.m == m && fresh(pendingInputReads) && fresh(inputStagingPages)
              && fresh(inputResponseStatus)
      ensures fresh(pendingC1Completions) && fresh(pendingPutWithInvites)
      ensures forall u | u in stations :: fresh(stations[u])
      ensures state == Idle(m.View(), units)
    {
      var displays := Displays(units);
      this.m, this.units, stations, displaysDetached := m, units, displays, {};
      pendingInputReads := new SlotMap(C.NO_READ);
      inputStagingPages := new SlotMap(0);
      inputResponseStatus := new SlotMap(C.NO_STATUS);
      pendingC1Completions := new SlotMap(C.NO_WAIT);
      pendingPutWithInvites := new SlotMap(C.NO_WAIT);
      lastDeferredInput, pendingControllerInvites, recordsReceived := None, {}, 0;
      state := Idle(m.View(), units);
      new;
      assert Wired() && Tabled();
      assert Stations() == state.stations by {
        SameStations(Stations(), state.stations);
      }
      hide Stations, SlotMaps.Valid, Wired, Tabled, AllDifferent, OnceEach;
    }

    static method Displays(units: seq<int>) returns (displays: map<int, Workstation>)
      ensures (forall i | 0 <= i < |units| :: units[i] in displays) && forall u | u in displays :: u in units
      ensures forall u | u in displays :: fresh(displays[u]) && displays[u].View() == IDLE
      ensures forall u, v | u in displays && v in displays && displays[u] == displays[v] :: u == v
    {
      displays := map[];
      for i := 0 to |units|
        invariant (forall k | 0 <= k < i :: units[k] in displays) && forall u | u in displays :: u in units
        invariant forall u | u in displays :: fresh(displays[u]) && displays[u].View() == IDLE
        invariant forall u, v | u in displays && v in displays && displays[u] == displays[v] :: u == v
      {
        var w := new Workstation();
        displays := displays[units[i] := w];
      }
    }

    // ---- guest bytes -------------------------------------------------------------

    method Peek(addr: int) returns (v: byte)
      requires Valid()
      modifies m`faulted
      ensures Valid() && v == ByteAt(state.guest, addr)
    {
      hide SlotMaps.Valid, Stations, Wired;
      v := m.ReadByte(addr);
    }

    method PeekHalf(addr: int) returns (v: halfword)
      requires Valid()
      modifies m`faulted
      ensures Valid() && v == HalfAt(state.guest, addr)
    {
      hide SlotMaps.Valid, Stations, Wired;
      v := m.ReadHalf(addr);
    }

    method PeekAddr24(addr: int) returns (v: addr24)
      requires Valid()
      modifies m`faulted
      ensures Valid() && v == Addr24At(state.guest, addr)
    {
      hide SlotMaps.Valid, Stations, Wired;
      v := m.ReadAddr24(addr);
    }

    method Poke(addr: int, v: byte)
      requires Valid()
      modifies this`state, m`faulted, m.mainStorage
      ensures Valid() && state == old(state).(guest := WriteByte(old(state).guest, addr, v))
    {
      hide SlotMaps.Valid, Stations, Wired;
      m.WriteBytes(addr, [v]);
      state := state.(guest := WriteByte(state.guest, addr, v));
    }

    method Complete(iob: int, code: nat)
      requires Valid()
      modifies this`state, m`faulted, m.mainStorage
      ensures Valid() && state == C.Complete(old(state), iob, code)
    {
      hide SlotMaps.Valid, Stations, Wired;
      m.Post(iob, code);
      state := C.Complete(state, iob, code);
    }

    method WriteCaptured(addresses: seq<int>, data: seq<byte>)
      requires Valid() && |data| <= |addresses|
      modifies this`state, m`faulted, m.mainStorage
      ensures Valid() && state == old(state).(guest := C.StoreEach(old(state).guest, addresses, data))
    {
      hide Valid;
      for n := 0 to |data|
        invariant Valid() && state == old(state).(guest := C.StoreEach(old(state).guest, addresses, data[..n]))
      {
        Poke(addresses[n], data[n]);
        assert data[..n + 1][..n] == data[..n];
      }
      assert data[..|data|] == data;
    }

    method ResolveUnitBlock(iob: int) returns (block: int)
      requires Valid()
      modifies m`faulted
      ensures Valid() && block == C.UnitBlock(state.guest, iob)
    {
      hide Valid;
      var eye := PeekHalf(iob);
      if eye == C.EYECATCHER {
        return iob;
      }
      block := PeekAddr24(iob + C.OFF_UNIT_BLOCK);
    }

    method ArmCompletion(iob: int)
      requires Valid()
      modifies this`state, m`faulted, m.mainStorage
      ensures Valid() && state == old(state).(guest := C.Arm(old(state).guest, iob))
    {
      hide Valid;
      var completion := Peek(iob + C.OFF_COMPLETION);
      Poke(iob + C.OFF_COMPLETION, C.ArmByte(completion));
    }

    // What happened, for the record only.
    ghost method Note(e: C.Event)
      requires Valid()
      modifies this`state
      ensures Valid() && state == C.Note(old(state), e)
    {
      hide SlotMaps.Valid, Stations, Wired;
      state := C.Note(state, e);
    }

    // ---- the tables ----------------------------------------------------------------

    method GetStatus(unit: int) returns (status: Option<C.Status>)
      requires Valid()
      ensures status == Lookup(state.status, unit)
    {
      hide Stations, Wired, Lookup;
      status := inputResponseStatus.Get(unit);
    }

    method SetStatus(unit: int, status: C.Status)
      requires Valid()
      modifies this`state, inputResponseStatus
      ensures Valid() && SlotMaps.Valid(old(state).status)
      ensures state == old(state).(status := Set(old(state).status, unit, status))
    {
      hide Stations, Wired, Set, SlotMaps.Valid;
      inputResponseStatus.Put(unit, status);
      state := state.(status := inputResponseStatus.View());
    }

    method EraseStatus(unit: int)
      requires Valid()
      modifies this`state, inputResponseStatus
      ensures Valid() && state == old(state).(status := Erase(old(state).status, unit, C.NO_STATUS))
    {
      hide Stations, Wired, Erase, SlotMaps.Valid;
      var erased := inputResponseStatus.Remove(unit);
      state := state.(status := inputResponseStatus.View());
    }

    method SetStaging(unit: int, page: int)
      requires Valid()
      modifies this`state, inputStagingPages
      ensures Valid() && SlotMaps.Valid(old(state).staging)
      ensures state == old(state).(staging := Set(old(state).staging, unit, page))
    {
      hide Stations, Wired, Set, SlotMaps.Valid;
      inputStagingPages.Put(unit, page);
      state := state.(staging := inputStagingPages.View());
    }

    method EraseStaging(unit: int)
      requires Valid()
      modifies this`state, inputStagingPages
      ensures Valid() && state == old(state).(staging := Erase(old(state).staging, unit, 0))
    {
      hide Stations, Wired, Erase, SlotMaps.Valid;
      var erased := inputStagingPages.Remove(unit);
      state := state.(staging := inputStagingPages.View());
    }

    method SetRead(iob: int, p: C.PendingRead)
      requires Valid()
      modifies this`state, pendingInputReads
      ensures Valid() && SlotMaps.Valid(old(state).inputs)
      ensures state == old(state).(inputs := Set(old(state).inputs, iob, p))
    {
      hide Stations, Wired, Set, SlotMaps.Valid;
      pendingInputReads.Put(iob, p);
      state := state.(inputs := pendingInputReads.View());
    }

    method EraseRead(iob: int)
      requires Valid()
      modifies this`state, pendingInputReads
      ensures Valid() && state == old(state).(inputs := Erase(old(state).inputs, iob, C.NO_READ))
    {
      hide Stations, Wired, Erase, SlotMaps.Valid;
      var erased := pendingInputReads.Remove(iob);
      state := state.(inputs := pendingInputReads.View());
    }

    method SetWait(iob: int, w: C.Waiting)
      requires Valid()
      modifies this`state, pendingC1Completions
      ensures Valid() && SlotMaps.Valid(old(state).waits)
      ensures state == old(state).(waits := Set(old(state).waits, iob, w))
    {
      hide Stations, Wired, Set, SlotMaps.Valid;
      pendingC1Completions.Put(iob, w);
      state := state.(waits := pendingC1Completions.View());
    }

    method EraseWait(iob: int)
      requires Valid()
      modifies this`state, pendingC1Completions
      ensures Valid() && state == old(state).(waits := Erase(old(state).waits, iob, C.NO_WAIT))
    {
      hide Stations, Wired, Erase, SlotMaps.Valid;
      var erased := pendingC1Completions.Remove(iob);
      state := state.(waits := pendingC1Completions.View());
    }

    method SetPut(iob: int, w: C.Waiting)
      requires Valid()
      modifies this`state, pendingPutWithInvites
      ensures Valid() && SlotMaps.Valid(old(state).puts)
      ensures state == old(state).(puts := Set(old(state).puts, iob, w))
    {
      hide Stations, Wired, Set, SlotMaps.Valid;
      pendingPutWithInvites.Put(iob, w);
      state := state.(puts := pendingPutWithInvites.View());
    }

    method ErasePut(iob: int)
      requires Valid()
      modifies this`state, pendingPutWithInvites
      ensures Valid() && state == old(state).(puts := Erase(old(state).puts, iob, C.NO_WAIT))
    {
      hide Stations, Wired, Erase, SlotMaps.Valid;
      var erased := pendingPutWithInvites.Remove(iob);
      state := state.(puts := pendingPutWithInvites.View());
    }

    method Defer(deferred: Option<C.Deferred>)
      requires Valid()
      modifies this`state, this`lastDeferredInput
      ensures Valid() && state == old(state).(deferred := deferred)
    {
      hide Stations, Wired, SlotMaps.Valid;
      lastDeferredInput := deferred;
      state := state.(deferred := deferred);
    }

    // ---- one display ---------------------------------------------------------------

    lemma StationAt(unit: int)
      requires Valid()
      ensures state.Shaped() && (unit in state.stations <==> unit in stations)
      ensures unit in stations ==> state.stations[unit] == C.Station(stations[unit].View(), unit in displaysDetached)
    {
      hide SlotMaps.Valid, Wired;
    }

    // One display changed, and no other.
    twostate lemma StationChanged(unit: int)
      requires Wired() && unit in stations && displaysDetached == old(displaysDetached)
      requires forall u | u in stations && u != unit :: unchanged(stations[u])
      ensures Stations() == old(Stations())[unit := C.Station(stations[unit].View(), unit in displaysDetached)]
    {
      forall u | u in stations && u != unit
        ensures stations[u].View() == old(stations[u].View())
      {
      }
    }

    method Accept(unit: int, keys: Attention, saveReply: bool, r: Record)
      requires Valid() && unit in stations
      modifies stations[unit], this`state
      ensures Valid() && unit in old(state).stations
      ensures state == C.WithTerminal(old(state), unit, Enqueue(old(state).stations[unit].terminal, keys, saveReply, r))
    {
      hide SlotMaps.Valid, Enqueue;
      stations[unit].Accept(keys, saveReply, r);
      StationChanged(unit);
      state := C.WithTerminal(state, unit, stations[unit].View());
    }

    method TakeStatus(unit: int) returns (taken: bool, cursor: halfword, aid: byte)
      requires Valid() && unit in stations
      modifies stations[unit], this`state
      ensures Valid() && unit in old(state).stations
      ensures var t := old(state).stations[unit].terminal;
              && (taken <==> StatusReady(t))
              && (taken ==> state == C.WithTerminal(old(state), unit, Terminals.TakeStatus(t))
                            && cursor == Half(t.inbound[0].data[0], t.inbound[0].data[1])
                               && aid == t.inbound[0].data[2])
              && (!taken ==> state == old(state))
    {
      hide SlotMaps.Valid, Half;
      taken, cursor, aid := stations[unit].TryTakeInputStatus();
      StationChanged(unit);
      state := if taken then C.WithTerminal(state, unit, stations[unit].View()) else state;
    }

    method StartInvite(unit: int)
      requires Valid() && unit in stations
      modifies stations[unit], this`state
      ensures Valid() && unit in old(state).stations
      ensures state == C.WithTerminal(old(state), unit, Invite(old(state).stations[unit].terminal))
    {
      hide SlotMaps.Valid, Invite;
      var wire := stations[unit].StartInvite();
      StationChanged(unit);
      state := C.WithTerminal(state, unit, stations[unit].View());
    }

    method WithdrawInvite(unit: int)
      requires Valid() && unit in stations
      modifies stations[unit], this`state
      ensures Valid() && unit in old(state).stations
      ensures state == C.WithTerminal(old(state), unit, CancelInvite(old(state).stations[unit].terminal))
    {
      hide SlotMaps.Valid, CancelInvite;
      stations[unit].WithdrawInvite();
      StationChanged(unit);
      state := C.WithTerminal(state, unit, stations[unit].View());
    }

    method Transmit(unit: int, data: seq<byte>, withInvite: bool, net: C.Transport) returns (sent: bool)
      requires Valid() && unit in stations
      modifies stations[unit], this`state
      ensures Valid() && unit in old(state).stations
      ensures var issued := C.Transmit(old(state).stations[unit].terminal, data, withInvite, net);
              sent == issued.sent && state == C.WithTerminal(old(state), unit, issued.terminal)
    {
      hide SlotMaps.Valid, C.Transmit;
      sent := TransmitOn(stations[unit], data, withInvite, net);
      StationChanged(unit);
      state := C.WithTerminal(state, unit, stations[unit].View());
    }

    method ClaimResponse(unit: int)
      requires Valid() && unit in stations && stations[unit].inbound != []
      modifies stations[unit], this`state
      ensures Valid() && unit in old(state).stations && old(state).stations[unit].terminal.inbound != []
      ensures state == C.WithTerminal(old(state), unit, Terminals.ClaimResponse(old(state).stations[unit].terminal))
    {
      hide SlotMaps.Valid, Terminals.ClaimResponse;
      var claimed := stations[unit].CompleteInviteResponse();
      StationChanged(unit);
      state := C.WithTerminal(state, unit, stations[unit].View());
    }

    method TakeFields(unit: int, command: byte, expand: seq<byte> -> seq<byte>) returns (stream: seq<byte>)
      requires Valid() && unit in stations && HasInput(stations[unit].View())
      modifies stations[unit], this`state
      ensures Valid() && unit in old(state).stations && HasInput(old(state).stations[unit].terminal)
      ensures stream == FieldBytes(old(state).stations[unit].terminal, command, expand)
      ensures state == C.WithTerminal(old(state), unit, Terminals.TakeFields(old(state).stations[unit].terminal))
    {
      hide SlotMaps.Valid, Terminals.TakeFields, FieldBytes;
      var taken := stations[unit].TryTakeInputFields(command, expand);
      StationChanged(unit);
      state := C.WithTerminal(state, unit, stations[unit].View());
      stream := taken.value;
    }

    method SwitchOff(unit: int)
      requires Valid() && unit in stations
      modifies stations[unit], this`state
      ensures Valid() && unit in old(state).stations
      ensures state == C.WithTerminal(old(state), unit, PowerOff(old(state).stations[unit].terminal))
    {
      hide SlotMaps.Valid, PowerOff;
      stations[unit].SwitchOff();
      StationChanged(unit);
      state := C.WithTerminal(state, unit, stations[unit].View());
    }

    // ---- terminal records --------------------------------------------------------

    method TerminalRecord(unit: int, keys: Attention, saveReply: bool, data: seq<byte>)
      requires Valid() && unit in stations
      modifies stations[unit], this`state, this`recordsReceived
      ensures Valid() && unit in old(state).stations && state == C.Arrive(old(state), unit, keys, saveReply, data)
    {
      hide Valid, Enqueue;
      StationAt(unit);
      var serial := recordsReceived;
      NextSerial();
      ghost var t := state.stations[unit].terminal;
      Accept(unit, keys, saveReply, Record(serial, data));
      if !(keys.attn || keys.sysreq || saveReply) {
        if t.inbound != [] {
          Note(C.Lost(unit, t.inbound[0].serial));
        }
        CountRecord();
        Note(C.Accepted(unit, serial));
      }
    }

    lemma NextSerial()
      requires Valid()
      ensures state.next == recordsReceived
    {
    }

    method CountRecord()
      requires Valid()
      modifies this`state, this`recordsReceived
      ensures Valid() && state == old(state).(next := old(state).next + 1)
    {
      hide SlotMaps.Valid, Stations, Wired;
      recordsReceived := recordsReceived + 1;
      state := state.(next := state.next + 1);
    }

    // ---- the status half ---------------------------------------------------------

    method TryDeliverInputStatus(block: int) returns (delivered: bool)
      requires Valid()
      modifies stations.Values, inputResponseStatus, this`state, m`faulted, m.mainStorage
      ensures Valid() && SlotMaps.Valid(old(state).status) && state == C.Deliver(old(state), block)
      ensures delivered <==> C.Deliverable(old(state), block)
    {
      hide Valid, C.StoreEach, C.ReportToGuest, Set, GuestStorage.Write, SlotMaps.Valid;
      StationAt(0);
      if block == 0 {
        return false;
      }
      var eye := PeekHalf(block);
      if eye != C.EYECATCHER {
        return false;
      }
      var unit := Peek(block + C.OFF_UNIT);
      StationAt(unit);
      if unit !in stations {
        return false;
      }
      ghost var t := state.stations[unit].terminal;
      var cursor, aid;
      delivered, cursor, aid := TakeStatus(unit);
      if !delivered {
        return;
      }
      var status: seq<byte> := [0x10, aid, High(cursor), Low(cursor), 0, 0, 0, 0, 0, 0, 0, 0];
      assert status == C.StatusBytes(t.inbound[0].data);
      SetStatus(unit, C.Status(block, status));
      ReportToGuest(block, aid, status, t.inbound[0].data);
      Note(C.Reported(unit, t.inbound[0].serial, block));
    }

    method ReportToGuest(block: int, aid: byte, status: seq<byte>, ghost data: seq<byte>)
      requires Valid() && |data| >= 3 && aid == data[2] && status == C.StatusBytes(data)
      modifies this`state, m`faulted, m.mainStorage
      ensures Valid() && state == old(state).(guest := C.ReportToGuest(old(state).guest, block, data))
    {
      hide Valid, C.StoreEach, GuestStorage.Write;
      WriteCaptured(Range(block + C.OFF_STATUS, 12), status);
      var class_ := Peek(block + C.OFF_CLASS);
      if class_ != C.CLASS_STATION {
        Poke(block + C.OFF_AID, aid);
        var available := Peek(block + C.OFF_INPUT_READ);
        Poke(block + C.OFF_INPUT_READ, C.InputAvailable(available));
      }
    }

    // ---- output requests ------------------------------------------------------------

    method ApplyC1Response(iob: int, bytes: seq<byte>)
      requires Valid()
      modifies this`state, m`faulted, m.mainStorage
      ensures Valid() && state == old(state).(guest := C.ImportStatus(old(state).guest, iob, bytes))
    {
      hide Valid, C.StoreEach, GuestStorage.Write;
      var block := ResolveUnitBlock(iob);
      if block <= 0 {
        return;
      }
      var eye := PeekHalf(block);
      if eye != C.EYECATCHER || |bytes| != 12 {
        return;
      }
      WriteCaptured(Range(block + C.OFF_STATUS, 12), bytes);
      Poke(block + C.OFF_AID, bytes[1]);
    }

    // The class-C0 opening.
    method OpenOutput(iob: int, withInvite: bool)
      requires Valid()
      modifies inputResponseStatus, this`state, m`faulted, m.mainStorage
      ensures Valid() && state == C.Open(old(state), iob, withInvite)
    {
      hide Valid, GuestStorage.Write, Erase;
      var six := Peek(iob + 6);
      Poke(iob + 6, C.Without(six, 0x04));
      six := Peek(iob + 6);
      Poke(iob + 6, C.Without(six, 0x80));
      var nine := Peek(iob + 9);
      Poke(iob + 9, C.Without(nine, 0x80));
      if withInvite {
        var unit := Peek(iob + C.OFF_UNIT);
        EraseStatus(unit);
        Note(C.Retired(unit));
        Poke(iob + C.OFF_CLASS, C.CLASS_RESPONSE);
      }
    }

    // The class-C1 pass.
    method RespondOutput(iob: int, unit: int)
      requires Valid() && unit in stations
      modifies stations[unit], inputResponseStatus, pendingC1Completions, this`state, m`faulted, m.mainStorage
      ensures Valid() && SlotMaps.Valid(old(state).waits) && unit in old(state).stations
      ensures state == C.Respond(old(state), iob, unit)
    {
      hide Valid, C.ImportStatus, C.Arm, GuestStorage.Complete, Erase, Set, SlotMaps.Valid, Lookup;
      StationAt(unit);
      var block := ResolveUnitBlock(iob);
      var status := GetStatus(unit);
      if status.Some? && status.value.block == block {
        ApplyC1Response(iob, status.value.bytes);
        EraseStatus(unit);
        Complete(iob, 0);
        Note(C.Waited(unit, block, iob));
        return;
      }
      ArmCompletion(iob);
      SetWait(iob, C.Waiting(unit, block));
      StartInvite(unit);
    }

    method OutputData(iob: int, unit: int, withInvite: bool, net: C.Transport)
      requires Valid() && unit in stations
      modifies stations[unit], inputStagingPages, pendingPutWithInvites, this`state, m`faulted, m.mainStorage
      ensures Valid() && old(state).Shaped() && unit in old(state).stations
      ensures state == C.OutputData(old(state), iob, unit, withInvite, net)
    {
      hide Valid, C.Retain, C.Transmit, GuestStorage.Complete, SlotMaps.Valid, Gather, B.CaptureAddresses;
      StationAt(unit);
      var field := PeekAddr24(iob + C.OFF_BUFFER);
      var length := PeekHalf(iob + C.OFF_LENGTH);
      if length == 0 {
        Complete(iob, 4);
        return;
      }
      var captured, source := Capture(field, length);
      if !captured {
        Complete(iob, 4);
        return;
      }
      B.CapturedInside(state.guest, field, length);
      var data := ReadCaptured(source);
      var sent := Transmit(unit, data, withInvite, net);
      if withInvite && sent {
        RetainPut(iob, unit, field, source[0]);
      } else {
        Complete(iob, 0);
      }
    }

    method Capture(field: addr24, length: nat) returns (ok: bool, addresses: seq<int>)
      requires Valid()
      ensures state.guest.Valid()
      ensures B.CaptureAddresses(state.guest, field, length) == if ok then Some(addresses) else None
    {
      hide SlotMaps.Valid, Stations, Wired, Tabled;
      var boundaries;
      ok, addresses, boundaries := B.CaptureBuffer(m, field, length);
      B.SameCapture(state.guest, m.View(), field, length);
    }

    method ReadCaptured(source: seq<int>) returns (data: seq<byte>)
      requires Valid() && Inside(|state.guest.mem|, source)
      modifies m`faulted
      ensures Valid() && data == Gather(state.guest.mem, source)
    {
      hide Valid;
      data := [];
      for n := 0 to |source|
        invariant Valid() && |data| == n && forall k | 0 <= k < n :: data[k] == state.guest.mem[source[k]]
      {
        var b := Peek(source[n]);
        data := data + [b];
      }
    }

    method RetainPut(iob: int, unit: int, field: addr24, first: int)
      requires Valid()
      modifies inputStagingPages, pendingPutWithInvites, this`state, m`faulted, m.mainStorage
      ensures Valid() && old(state).Shaped() && state == C.Retain(old(state), iob, unit, field, first)
    {
      hide Valid, C.Arm, Set, SlotMaps.Valid;
      StationAt(unit);
      if field >= TRANSLATED_BIT {
        SetStaging(unit, first - field % 0x800);
      }
      ArmCompletion(iob);
      var block := ResolveUnitBlock(iob);
      SetPut(iob, C.Waiting(unit, block));
    }

    method Put(iob: int, unit: int, withInvite: bool, net: C.Transport)
      requires Valid() && unit in stations && unit == ByteAt(state.guest, iob + C.OFF_UNIT)
      modifies stations[unit], inputStagingPages, inputResponseStatus, pendingC1Completions, pendingPutWithInvites,
               this`state, m`faulted, m.mainStorage
      ensures Valid() && old(state).Shaped() && unit in old(state).stations
      ensures state == C.Put(old(state), iob, unit, withInvite, net)
    {
      hide Valid, C.Open, C.OutputData, C.Respond, GuestStorage.Complete, SlotMaps.Valid;
      StationAt(unit);
      var class_ := Peek(iob + C.OFF_CLASS);
      if class_ == C.CLASS_STATION {
        OpenOutput(iob, withInvite);
        OutputData(iob, unit, withInvite, net);
      } else if class_ == C.CLASS_RESPONSE {
        RespondOutput(iob, unit);
      } else {
        Complete(iob, 4);
      }
    }

    // ---- Read Input Fields ----------------------------------------------------------

    method Displacement(iob: int, unit: int) returns (d: int)
      requires Valid()
      modifies m`faulted
      ensures Valid() && d == C.Displacement(state, iob, unit)
    {
      hide Valid, Lookup;
      var staged := GetStaging(unit);
      var command := Peek(iob + C.OFF_COMMAND);
      if command != 0x42 || staged == None || staged.value < 0 {
        return -1;
      }
      var block := ResolveUnitBlock(iob);
      var workspace: int := 0;
      if block > 0 {
        workspace := PeekAddr24(block + C.OFF_WORKSPACE);
      }
      return if workspace >= TRANSLATED_BIT then workspace - TRANSLATED_BIT else -1;
    }

    method GetStaging(unit: int) returns (page: Option<int>)
      requires Valid()
      ensures page == Lookup(state.staging, unit)
    {
      hide Stations, Wired, Lookup;
      page := inputStagingPages.Get(unit);
    }

    method IsReading(iob: int) returns (reading: bool)
      requires Valid()
      ensures reading <==> Lookup(state.inputs, iob).Some?
    {
      hide Stations, Wired, Lookup;
      var pending := pendingInputReads.Get(iob);
      reading := pending.Some?;
    }

    method ReadInputFields(iob: int, unit: int)
      requires Valid() && unit in stations
      modifies pendingInputReads, this`state, m`faulted, m.mainStorage
      ensures Valid() && old(state).Shaped() && unit in old(state).stations
      ensures state == C.RequestFields(old(state), iob, unit)
    {
      hide Valid, GuestStorage.Complete, SlotMaps.Valid, Set, C.Displacement, B.CaptureAddresses, Lookup;
      StationAt(unit);
      var reading := IsReading(iob);
      if reading {
        return;
      }
      var field := PeekAddr24(iob + C.OFF_BUFFER);
      var capacity := PeekHalf(iob + C.OFF_LENGTH);
      var captured, destination := Capture(field, capacity);
      if !captured {
        Complete(iob, 4);
        return;
      }
      var staging := Displacement(iob, unit);
      var block := ResolveUnitBlock(iob);
      var command := Peek(iob + C.OFF_COMMAND);
      SetRead(iob, C.PendingRead(unit, block, command, field, destination, capacity, staging));
    }

    method PlaceFields(p: C.PendingRead, raw: seq<byte>)
      requires Valid() && |raw| >= 3 && p.capacity <= |p.destination|
      modifies this`state, m`faulted, m.mainStorage
      ensures Valid() && state == old(state).(guest := C.Placed(old(state).guest, p, raw))
    {
      hide Valid, C.StoreEach;
      var available := |raw| - 3;
      if C.CountedForm(p) {
        if p.capacity < 8 {
          return;
        }
        var copied := Min(available, p.capacity - 8);
        var prefix: seq<byte> := Repeat(0xEE as byte, 6) + [available / 0x100 % 0x100, available % 0x100];
        WriteCaptured(p.destination, prefix + raw[3..][..copied]);
      } else {
        var copied := C.Fit(available, p.capacity);
        WriteCaptured(p.destination, raw[3..][..copied]);
      }
    }

    method WriteReadStatus(iob: int, raw: seq<byte>)
      requires Valid() && |raw| >= 3
      modifies this`state, m`faulted, m.mainStorage
      ensures Valid() && state == old(state).(guest := C.ReadStatus(old(state).guest, iob, raw))
    {
      hide Valid, C.StoreEach, GuestStorage.Write;
      var block := ResolveUnitBlock(iob);
      if block <= 0 {
        return;
      }
      var eye := PeekHalf(block);
      if eye != C.EYECATCHER {
        return;
      }
      var flag: byte := if |raw| > 3 then 0xC0 else 0x80;
      var status: seq<byte> := [flag, 0, raw[0], raw[1], 0, 0, 0, 0, 0, 0, 0, 0];
      WriteCaptured(Range(block + C.OFF_STATUS, 12), status);
      var available := Peek(block + C.OFF_INPUT_READ);
      Poke(block + C.OFF_INPUT_READ, C.Without(available, 0x10));
    }

    method FinishRead(iob: int, p: C.PendingRead, expand: seq<byte> -> seq<byte>) returns (completed: bool)
      requires Valid() && p.unit in stations && HasInput(stations[p.unit].View())
      modifies stations[p.unit], pendingInputReads, inputResponseStatus, this`lastDeferredInput, this`state, m`faulted,
               m.mainStorage
      ensures Valid() && p.unit in old(state).stations && HasInput(old(state).stations[p.unit].terminal)
      ensures state == C.FinishRead(old(state), iob, p, expand)
    {
      hide Valid, Erase, GuestStorage.Complete, C.Placed, C.ReadStatus, FieldBytes, Terminals.TakeFields, NextInput;
      StationAt(p.unit);
      ghost var serial := NextInput(state.stations[p.unit].terminal).serial;
      var raw := TakeFields(p.unit, p.command, expand);
      if |raw| < 3 {
        Note(C.Lost(p.unit, serial));
        return false;
      }
      if |p.destination| < p.capacity {
        Complete(iob, 4);
        EraseRead(iob);
        Note(C.Lost(p.unit, serial));
        return true;
      }
      DeferredIs();
      Defer(C.Held(lastDeferredInput, p, raw));
      PlaceFields(p, raw);
      EraseStatus(p.unit);
      WriteReadStatus(iob, raw);
      Complete(iob, 0);
      EraseRead(iob);
      Note(C.FieldsRead(p.unit, serial, p.block, iob));
      return true;
    }

    lemma DeferredIs()
      requires Valid()
      ensures state.deferred == lastDeferredInput
    {
    }

    // ---- one controller pass ----------------------------------------------------------

    method FinishWait(iob: int, w: C.Waiting)
      requires Valid() && C.WaitReady(state, w)
      modifies inputResponseStatus, pendingC1Completions, this`state, m`faulted, m.mainStorage
      ensures Valid() && state == C.FinishWait(old(state), iob, w)
    {
      hide Valid, Erase, Lookup, GuestStorage.Complete, C.ImportStatus;
      var status := GetStatus(w.unit);
      ApplyC1Response(iob, status.value.bytes);
      EraseStatus(w.unit);
      EraseWait(iob);
      Complete(iob, 0);
      Note(C.Waited(w.unit, w.block, iob));
    }

    method FinishPut(iob: int, w: C.Waiting)
      requires Valid() && C.PutReady(state, w)
      modifies stations.Values, pendingPutWithInvites, this`state, m`faulted, m.mainStorage
      ensures Valid() && state == C.FinishPut(old(state), iob, w)
    {
      hide Valid, Erase, Lookup, GuestStorage.Complete, Terminals.ClaimResponse;
      StationAt(w.unit);
      ghost var t := state.stations[w.unit].terminal;
      ClaimResponse(w.unit);
      if t.retained.Some? {
        Note(C.Lost(w.unit, t.retained.value.serial));
      }
      Complete(iob, 0);
      ErasePut(iob);
      Note(C.Claimed(w.unit, t.inbound[0].serial, w.block, iob));
    }

    // A status is there for this unit and unit block.
    method HasStatus(unit: int, block: int) returns (there: bool)
      requires Valid()
      ensures there <==> C.StatusFor(state, unit, block)
    {
      hide Valid, Lookup;
      var status := GetStatus(unit);
      there := status.Some? && status.value.block == block;
    }

    method SelectWait() returns (i: nat)
      requires Valid()
      ensures i == C.FirstWait(state, 0)
    {
      hide Stations, Wired, SlotMaps.Valid, C.StatusFor;
      i := 0;
      while i < |pendingC1Completions.entries|
        invariant i <= |pendingC1Completions.entries| && C.FirstWait(state, 0) == C.FirstWait(state, i)
      {
        var e := pendingC1Completions.entries[i];
        if e.live {
          var there := HasStatus(e.value.unit, e.value.block);
          if there {
            return;
          }
        }
        i := i + 1;
      }
    }

    method SelectPut() returns (i: nat)
      requires Valid()
      ensures i == C.FirstPut(state, 0)
    {
      hide Stations, Wired, SlotMaps.Valid, C.StatusFor;
      i := 0;
      while i < |pendingPutWithInvites.entries|
        invariant i <= |pendingPutWithInvites.entries| && C.FirstPut(state, 0) == C.FirstPut(state, i)
      {
        var e := pendingPutWithInvites.entries[i];
        if e.live {
          StationAt(e.value.unit);
          var there := HasStatus(e.value.unit, e.value.block);
          if there && e.value.unit in stations && stations[e.value.unit].inbound != [] {
            return;
          }
        }
        i := i + 1;
      }
    }

    method SelectRead() returns (i: nat)
      requires Valid()
      ensures i == C.FirstRead(state, 0)
    {
      hide Stations, Wired, SlotMaps.Valid, C.StatusFor;
      i := 0;
      while i < |pendingInputReads.entries|
        invariant i <= |pendingInputReads.entries| && C.FirstRead(state, 0) == C.FirstRead(state, i)
      {
        var e := pendingInputReads.entries[i];
        if e.live {
          StationAt(e.value.unit);
          var there := HasStatus(e.value.unit, e.value.block);
          if there && e.value.unit in stations
             && (stations[e.value.unit].retained.Some? || stations[e.value.unit].inbound != [])
             && (e.value.command == 0x32 || e.value.command == 0x42) {
            return;
          }
        }
        i := i + 1;
      }
    }

    lemma TablesShown()
      requires Valid()
      ensures state.waits == pendingC1Completions.View() && state.puts == pendingPutWithInvites.View()
      ensures state.inputs == pendingInputReads.View()
    {
    }

    method TryCompletePendingInput(expand: seq<byte> -> seq<byte>) returns (completed: bool)
      requires Valid()
      modifies stations.Values, pendingInputReads, pendingC1Completions, pendingPutWithInvites, inputResponseStatus,
               this`lastDeferredInput, this`state, m`faulted, m.mainStorage
      ensures Valid() && state == C.Pass(old(state), expand)
    {
      hide Valid, C.FinishWait, C.FinishPut, C.FinishRead, Lookup;
      TablesShown();
      var w := SelectWait();
      if w < |pendingC1Completions.entries| {
        FinishWait(pendingC1Completions.entries[w].key, pendingC1Completions.entries[w].value);
        return true;
      }
      var p := SelectPut();
      if p < |pendingPutWithInvites.entries| {
        FinishPut(pendingPutWithInvites.entries[p].key, pendingPutWithInvites.entries[p].value);
        return true;
      }
      var r := SelectRead();
      if r == |pendingInputReads.entries| {
        return false;
      }
      StationAt(pendingInputReads.entries[r].value.unit);
      completed := FinishRead(pendingInputReads.entries[r].key, pendingInputReads.entries[r].value, expand);
    }

    // ---- the terminal goes away ---------------------------------------------------------

    method PowerOffStation(unit: int)
      requires Valid() && unit in stations
      modifies stations[unit], this`state
      ensures Valid() && unit in old(state).stations && state == C.SwitchOff(old(state), unit)
    {
      hide Valid, PowerOff;
      StationAt(unit);
      ghost var t := state.stations[unit].terminal;
      SwitchOff(unit);
      if t.inbound != [] {
        Note(C.Lost(unit, t.inbound[0].serial));
      }
      if t.retained.Some? {
        Note(C.Lost(unit, t.retained.value.serial));
      }
    }

    method WriteFailure(iob: int, sense: seq<byte>)
      requires Valid() && |sense| == 12
      modifies this`state, m`faulted, m.mainStorage
      ensures Valid() && state == old(state).(guest := C.Failed(old(state).guest, iob, sense))
    {
      hide Valid, C.StoreEach, GuestStorage.Write;
      var block := ResolveUnitBlock(iob);
      if block > 0 {
        var eye := PeekHalf(block);
        if eye == C.EYECATCHER {
          var command := Peek(block + C.OFF_COMMAND);
          Poke(block + 0x12, command);
          WriteCaptured(Range(block + C.OFF_STATUS, 12), sense);
          Poke(block + C.OFF_CLASS, C.CLASS_STATION);
        }
      }
      Complete(iob, 1);
    }

    method FailAt(unit: int, iob: int)
      requires Valid()
      modifies inputStagingPages, inputResponseStatus, this`state, m`faulted, m.mainStorage
      ensures Valid() && state == C.FailAt(old(state), unit, iob)
    {
      hide Valid, Erase, C.Failed;
      EraseStatus(unit);
      EraseStaging(unit);
      Note(C.Retired(unit));
      WriteFailure(iob, [0x22, 0, 0, 0, 0, 0, 0, 0x80, 0, 0, 0, 0]);
    }

    method TryFailPendingOperationForUnit(unit: int) returns (failed: bool)
      requires Valid()
      modifies pendingInputReads, pendingC1Completions, pendingPutWithInvites, inputStagingPages, inputResponseStatus,
               this`state, m`faulted, m.mainStorage
      ensures Valid() && state == C.FailOne(old(state), unit)
    {
      hide Valid, Erase, C.FailAt;
      TablesShown();
      var p := WaitOf(pendingPutWithInvites.entries, unit);
      if p < |pendingPutWithInvites.entries| {
        var iob := pendingPutWithInvites.entries[p].key;
        ErasePut(iob);
        FailAt(unit, iob);
        return true;
      }
      var r := ReadOf(pendingInputReads.entries, unit);
      if r < |pendingInputReads.entries| {
        var iob := pendingInputReads.entries[r].key;
        EraseRead(iob);
        FailAt(unit, iob);
        return true;
      }
      var w := WaitOf(pendingC1Completions.entries, unit);
      if w < |pendingC1Completions.entries| {
        var iob := pendingC1Completions.entries[w].key;
        EraseWait(iob);
        FailAt(unit, iob);
        return true;
      }
      return false;
    }

    method CancelPendingOperation(iob: int)
      requires Valid()
      modifies pendingInputReads, pendingC1Completions, pendingPutWithInvites, this`pendingControllerInvites, this`state
      ensures Valid() && state == C.Cancel(old(state), iob)
    {
      DropInvite(iob);
      hide Valid, Erase;
      EraseRead(iob);
      EraseWait(iob);
      ErasePut(iob);
    }

    method DropInvite(iob: int)
      requires Valid()
      modifies this`pendingControllerInvites, this`state
      ensures Valid() && state == old(state).(invites := old(state).invites - {iob})
    {
      hide SlotMaps.Valid, Stations, Wired;
      pendingControllerInvites := pendingControllerInvites - {iob};
      state := state.(invites := pendingControllerInvites);
    }

    method InviteAll(iob: int)
      requires Valid()
      modifies stations.Values, this`pendingControllerInvites, this`state
      ensures Valid() && state == C.InviteAll(old(state), iob)
    {
      hide Valid, Invite;
      var owned := OwnsInvite(iob);
      if owned {
        return;
      }
      InviteDisplays();
      KeepInvite(iob);
    }

    method OwnsInvite(iob: int) returns (owned: bool)
      requires Valid()
      ensures owned <==> iob in state.invites
    {
      hide SlotMaps.Valid, Stations, Wired, Tabled;
      owned := iob in pendingControllerInvites;
    }

    method KeepInvite(iob: int)
      requires Valid()
      modifies this`pendingControllerInvites, this`state
      ensures Valid() && state == old(state).(invites := old(state).invites + {iob})
    {
      hide SlotMaps.Valid, Stations, Wired;
      pendingControllerInvites := pendingControllerInvites + {iob};
      state := state.(invites := pendingControllerInvites);
    }

    method InviteDisplays()
      requires Valid()
      modifies stations.Values, this`state
      ensures Valid() && state == old(state).(stations := AllInvited(old(state).stations))
    {
      hide SlotMaps.Valid, Invite;
      InviteEach();
      SameStations(Stations(), AllInvited(state.stations));
      state := state.(stations := Stations());
    }

    method InviteEach()
      requires Wired()
      modifies stations.Values
      ensures forall u | u in stations :: stations[u].View() == Invite(old(stations[u].View()))
    {
      hide Invite;
      for i := 0 to |units|
        invariant forall u | u in stations :: stations[u].View() ==
                    if u in units[..i] then Invite(old(stations[u].View())) else old(stations[u].View())
      {
        InviteOnly(units[i]);
        assert units[..i + 1] == units[..i] + [units[i]];
      }
      assert units[..|units|] == units;
    }

    method InviteOnly(unit: int)
      requires Wired() && unit in stations
      modifies stations[unit]
      ensures forall u | u in stations ::
                stations[u].View() == if u == unit then Invite(old(stations[u].View())) else old(stations[u].View())
    {
      hide Invite;
      var wire := stations[unit].StartInvite();
    }

    method Request(iob: int, net: C.Transport)
      requires Valid()
      modifies stations.Values, pendingInputReads, inputStagingPages, inputResponseStatus, pendingC1Completions,
               pendingPutWithInvites, this`pendingControllerInvites, this`state, m`faulted, m.mainStorage
      ensures Valid() && old(state).Shaped() && state == C.Request(old(state), iob, net)
    {
      hide Valid, C.Put, C.RequestFields, C.InviteAll, C.Failed, GuestStorage.Complete, SlotMaps.Valid, CancelInvite;
      StationAt(0);
      var class_ := Peek(iob + C.OFF_CLASS);
      if class_ / 0x10 != 0xC {
        Complete(iob, 4);
        return;
      }
      var unit := Peek(iob + C.OFF_UNIT);
      StationAt(unit);
      if unit == 0xFF {
        InviteAll(iob);
        return;
      }
      if unit !in stations {
        Complete(iob, 4);
        return;
      }
      if unit in displaysDetached {
        WriteFailure(iob, [0x28, 0, 0, 0, 0x02, 0x03, 0, 0, 0, 0, 0, 0]);
        return;
      }
      var command := Peek(iob + C.OFF_COMMAND);
      match command {
        case 0x27 => Put(iob, unit, false, net);
        case 0xA7 => Put(iob, unit, true, net);
        case 0x22 => ReadInputFields(iob, unit);
        case 0x32 => ReadInputFields(iob, unit);
        case 0x42 => ReadInputFields(iob, unit);
        case 0xC3 =>
          WithdrawInvite(unit);
          Complete(iob, 0);
        case _ => Complete(iob, 4);
      }
    }
  }

  // A saved screen goes out whole and resumes the read it was saved under;
  // anything else is an output operation of the display.
  method TransmitOn(display: Workstation, data: seq<byte>, withInvite: bool, net: C.Transport) returns (sent: bool)
    modifies display
    ensures C.Issued(display.View(), sent) == C.Transmit(old(display.View()), data, withInvite, net)
  {
    hide C.DecodeSaved, ModeAfter, Invite;
    var saved := if withInvite then None else C.DecodeSaved(data);
    if saved == None {
      var wire := display.OutputOperation(data, withInvite);
      return net.sent;
    }
    if !net.sent || saved.value.mode == 0 {
      return net.sent;
    }
    SavedMode(data);
    if net.resumed {
      var wire := display.ResumeRead(saved.value.mode);
    }
    return net.resumed;
  }

  ghost function AllInvited(stations: map<int, C.Station>): map<int, C.Station> {
    map u | u in stations :: stations[u].(terminal := Invite(stations[u].terminal))
  }

  lemma SameStations(a: map<int, C.Station>, b: map<int, C.Station>)
    requires (forall u | u in a :: u in b && a[u] == b[u]) && forall u | u in b :: u in a
    ensures a == b
  {
    forall u | u in a
      ensures u in b && a[u] == b[u]
    {
    }
    forall u | u in b
      ensures u in a
    {
    }
    assert a.Keys == b.Keys;
  }

  lemma SavedMode(data: seq<byte>)
    requires C.DecodeSaved(data).Some?
    ensures C.DecodeSaved(data).value.mode == 0 || ResumableMode(C.DecodeSaved(data).value.mode)
  {
  }

  method WaitOf(entries: seq<Entry<int, C.Waiting>>, unit: int) returns (i: nat)
    ensures i == C.FirstWaitOf(entries, unit, 0)
  {
    i := 0;
    while i < |entries| && !(entries[i].live && entries[i].value.unit == unit)
      invariant i <= |entries| && C.FirstWaitOf(entries, unit, 0) == C.FirstWaitOf(entries, unit, i)
    {
      i := i + 1;
    }
  }

  method ReadOf(entries: seq<Entry<int, C.PendingRead>>, unit: int) returns (i: nat)
    ensures i == C.FirstReadOf(entries, unit, 0)
  {
    i := 0;
    while i < |entries| && !(entries[i].live && entries[i].value.unit == unit)
      invariant i <= |entries| && C.FirstReadOf(entries, unit, 0) == C.FirstReadOf(entries, unit, i)
    {
      i := i + 1;
    }
  }
}
