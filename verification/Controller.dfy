// The work station controller's retained requests: what each guest request,
// terminal record and controller pass does, as functions of one state.
module Controllers {
  import opened Bytes
  import opened GuestStorage
  import opened SlotMaps
  import opened Terminals
  import B = BufferCapture

  const OFF_COMPLETION := 0x06
  const OFF_CLASS := 0x0A
  const OFF_COMMAND := 0x0B
  const OFF_UNIT := 0x0C
  const OFF_BUFFER := 0x0D
  const OFF_LENGTH := 0x10
  const OFF_STATUS := 0x13
  const OFF_UNIT_BLOCK := 0x15
  const OFF_WORKSPACE := 0x43
  const OFF_INPUT_READ := 0x7C
  const OFF_AID := 0x8D
  const EYECATCHER: halfword := 0xE3E4
  const CLASS_STATION: byte := 0xC0
  const CLASS_RESPONSE: byte := 0xC1

  datatype PendingRead = PendingRead(unit: int, block: int, command: byte, field: int, destination: seq<int>,
                                     capacity: int, staging: int)
  datatype Waiting = Waiting(unit: int, block: int)
  datatype Status = Status(block: int, bytes: seq<byte>)
  datatype Deferred = Deferred(bytes: seq<byte>, displacement: int)

  const NO_READ := PendingRead(0, 0, 0, 0, [], 0, -1)
  const NO_WAIT := Waiting(0, 0)
  const NO_STATUS := Status(0, [])

  // A display slot: its terminal, and whether the display was switched off
  // since it was last bound.
  datatype Station = Station(terminal: Terminal, detached: bool)

  // What happened, in order.  `serial` numbers terminal records.
  datatype Event =
    | Accepted(unit: int, serial: nat)                                  // parked
    | Lost(unit: int, serial: nat)                                      // overwritten, superseded or discarded
    | Reported(unit: int, serial: nat, block: int)                      // its AID status reached a unit block
    | Claimed(unit: int, serial: nat, block: int, iob: int)             // it completed a PUT-with-invite
    | FieldsRead(unit: int, serial: nat, block: int, iob: int)          // it completed a Read Input Fields
    | Waited(unit: int, block: int, iob: int)                           // a class-C1 pass completed on a status
    | Retired(unit: int)                                                // the unit's status was dropped

  datatype Controller = Controller(
    guest: Guest, stations: map<int, Station>,
    inputs: Slots<int, PendingRead>, staging: Slots<int, int>, status: Slots<int, Status>,
    waits: Slots<int, Waiting>, puts: Slots<int, Waiting>, deferred: Option<Deferred>,
    invites: set<int>, next: nat, log: seq<Event>)
  {
    ghost predicate Shaped() {
      && guest.Valid()
      && Valid(inputs) && Valid(staging) && Valid(status) && Valid(waits) && Valid(puts)
    }
  }

  function WithTerminal(c: Controller, unit: int, t: Terminal): Controller
    requires unit in c.stations
  {
    c.(stations := c.stations[unit := c.stations[unit].(terminal := t)])
  }

  // ---- guest bytes ---------------------------------------------------------------

  function StoreEach(g: Guest, addresses: seq<int>, data: seq<byte>): (r: Guest)
    requires |data| <= |addresses|
    ensures |r.mem| == |g.mem| && r.atr == g.atr
  {
    if data == [] then g
    else
      var n := |data| - 1;
      WriteByte(StoreEach(g, addresses, data[..n]), addresses[n], data[n])
  }

  function StoreAt(g: Guest, at: int, data: seq<byte>): Guest {
    StoreEach(g, Range(at, |data|), data)
  }

  function Without(b: byte, bit: byte): byte
    requires bit > 0
  {
    if b / bit % 2 == 1 then b - bit else b
  }

  // Input fields are there to be read.
  function InputAvailable(b: byte): byte {
    if b / 0x10 % 2 == 1 then b else b + 0x10
  }

  function ArmByte(completion: byte): byte {
    Without(completion % 0x10, 2)
  }

  function Arm(g: Guest, iob: int): Guest {
    WriteByte(g, iob + OFF_COMPLETION, ArmByte(ByteAt(g, iob + OFF_COMPLETION)))
  }

  predicate IsUnitBlock(g: Guest, block: int) {
    HalfAt(g, block) == EYECATCHER
  }

  // The block itself when it carries the eyecatcher, else the one it names.
  function UnitBlock(g: Guest, iob: int): int {
    if IsUnitBlock(g, iob) then iob else Addr24At(g, iob + OFF_UNIT_BLOCK)
  }

  function Complete(c: Controller, iob: int, code: nat): Controller {
    c.(guest := GuestStorage.Complete(c.guest, iob, code))
  }

  function Note(c: Controller, e: Event): Controller {
    c.(log := c.log + [e])
  }

  // ---- a terminal record arrives ---------------------------------------------------

  function Arrive(c: Controller, unit: int, keys: Attention, saveReply: bool, data: seq<byte>): Controller
    requires unit in c.stations
  {
    var t := c.stations[unit].terminal;
    var after := Enqueue(t, keys, saveReply, Record(c.next, data));
    if keys.attn || keys.sysreq || saveReply then WithTerminal(c, unit, after)
    else
      var arrived := WithTerminal(c, unit, after).(next := c.next + 1);
      if t.inbound != [] then
        Note(Note(arrived, Lost(unit, t.inbound[0].serial)), Accepted(unit, c.next))
      else Note(arrived, Accepted(unit, c.next))
  }

  // ---- the status half -------------------------------------------------------------

  function StatusBytes(data: seq<byte>): (r: seq<byte>)
    requires |data| >= 3
    ensures |r| == 12
  {
    [0x10, data[2], data[0], data[1], 0, 0, 0, 0, 0, 0, 0, 0]
  }

  function ReportToGuest(g: Guest, block: int, data: seq<byte>): Guest
    requires |data| >= 3
  {
    var saved := StoreAt(g, block + OFF_STATUS, StatusBytes(data));
    if ByteAt(saved, block + OFF_CLASS) == CLASS_STATION then saved
    else
      var aid := WriteByte(saved, block + OFF_AID, data[2]);
      WriteByte(aid, block + OFF_INPUT_READ, InputAvailable(ByteAt(aid, block + OFF_INPUT_READ)))
  }

  predicate Deliverable(c: Controller, block: int) {
    && block != 0 && IsUnitBlock(c.guest, block)
    && var unit := ByteAt(c.guest, block + OFF_UNIT);
    && unit in c.stations && StatusReady(c.stations[unit].terminal)
  }

  function Deliver(c: Controller, block: int): Controller
    requires Valid(c.status)
  {
    if !Deliverable(c, block) then c
    else
      var unit := ByteAt(c.guest, block + OFF_UNIT);
      var t := c.stations[unit].terminal;
      var r := t.inbound[0];
      var taken := WithTerminal(c, unit, TakeStatus(t));
      Note(taken.(guest := ReportToGuest(c.guest, block, r.data),
                  status := Set(c.status, unit, Status(block, StatusBytes(r.data)))),
           Reported(unit, r.serial, block))
  }

  // ---- output requests -----------------------------------------------------------------

  function ImportStatus(g: Guest, iob: int, bytes: seq<byte>): Guest {
    var block := UnitBlock(g, iob);
    if block <= 0 || !IsUnitBlock(g, block) || |bytes| != 12 then g
    else WriteByte(StoreAt(g, block + OFF_STATUS, bytes), block + OFF_AID, bytes[1])
  }

  // A status the guest may consume for this unit and unit block.
  predicate StatusFor(c: Controller, unit: int, block: int) {
    var s := Lookup(c.status, unit); s.Some? && s.value.block == block
  }

  function Retire(c: Controller, unit: int): Controller {
    Note(c.(status := Erase(c.status, unit, NO_STATUS)), Retired(unit))
  }

  // Opening an output action at class C0 clears three unit-block bits; only a
  // PUT-with-invite drops the old status and moves to class C1.
  function Open(c: Controller, iob: int, withInvite: bool): Controller {
    var g1 := WriteByte(c.guest, iob + 6, Without(ByteAt(c.guest, iob + 6), 0x04));
    var g2 := WriteByte(g1, iob + 6, Without(ByteAt(g1, iob + 6), 0x80));
    var g3 := WriteByte(g2, iob + 9, Without(ByteAt(g2, iob + 9), 0x80));
    if !withInvite then c.(guest := g3)
    else Retire(c, ByteAt(g3, iob + OFF_UNIT)).(guest := WriteByte(g3, iob + OFF_CLASS, CLASS_RESPONSE))
  }

  // A class-C1 pass completes at once on a delivered status, or waits with
  // the terminal invited.
  function Respond(c: Controller, iob: int, unit: int): Controller
    requires Valid(c.waits) && unit in c.stations
  {
    var block := UnitBlock(c.guest, iob);
    if StatusFor(c, unit, block) then
      var imported := c.(guest := ImportStatus(c.guest, iob, Lookup(c.status, unit).value.bytes),
                         status := Erase(c.status, unit, NO_STATUS));
      Note(Complete(imported, iob, 0), Waited(unit, block, iob))
    else
      WithTerminal(c, unit, Invite(c.stations[unit].terminal))
        .(guest := Arm(c.guest, iob), waits := Set(c.waits, iob, Waiting(unit, block)))
  }

  // An SSP save record: a 22-byte prefix naming its allocation, image length
  // and read mode, then the terminal's own 04 12 image.
  datatype SavedScreen = SavedScreen(body: seq<byte>, mode: byte)

  function DecodeSaved(data: seq<byte>): Option<SavedScreen> {
    if |data| < 24 || data[0] != 0x04 || data[1] != 0x12 then None
    else
      var allocation, length := Half(data[2], data[3]), Half(data[20], data[21]) + 2;
      var mode := data[18];
      if allocation > |data| || 22 + length > allocation || (mode != 0 && !ResumableMode(mode))
         || data[22] != 0x04 || data[23] != 0x12 then None
      else Some(SavedScreen(data[22..22 + length], mode))
  }

  // What the transport did with a record: the data record, and the read
  // command that may follow a restored screen.
  datatype Transport = Transport(sent: bool, resumed: bool)

  datatype Issued = Issued(terminal: Terminal, sent: bool)

  function Transmit(t: Terminal, data: seq<byte>, withInvite: bool, net: Transport): Issued {
    var saved := if withInvite then None else DecodeSaved(data);
    match saved
    case None => Issued(Output(t, data, withInvite).terminal, net.sent)
    case Some(s) =>
      if !net.sent then Issued(t, false)
      else if s.mode == 0 then Issued(t, true)
      else if net.resumed then Issued(Resume(t, s.mode), true) else Issued(t, false)
  }

  // A refused record still completes at once; so does every plain PUT.
  ghost function OutputData(c: Controller, iob: int, unit: int, withInvite: bool, net: Transport): Controller
    requires c.guest.Valid() && unit in c.stations && Valid(c.staging) && Valid(c.puts)
  {
    var field, length := Addr24At(c.guest, iob + OFF_BUFFER), HalfAt(c.guest, iob + OFF_LENGTH);
    if length == 0 then Complete(c, iob, 4)
    else
      match B.CaptureAddresses(c.guest, field, length)
      case None => Complete(c, iob, 4)
      case Some(source) =>
        B.CapturedInside(c.guest, field, length);
        var issued := Transmit(c.stations[unit].terminal, Gather(c.guest.mem, source), withInvite, net);
        var put := WithTerminal(c, unit, issued.terminal);
        if withInvite && issued.sent then Retain(put, iob, unit, field, source[0]) else Complete(put, iob, 0)
  }

  // The action stays with the controller: the completion byte is armed, the
  // work page is remembered for a translated buffer, and nothing is posted.
  function Retain(c: Controller, iob: int, unit: int, field: addr24, first: int): Controller
    requires Valid(c.staging) && Valid(c.puts)
  {
    var staged := if field >= TRANSLATED_BIT then c.(staging := Set(c.staging, unit, first - field % 0x800)) else c;
    staged.(guest := Arm(c.guest, iob), puts := Set(c.puts, iob, Waiting(unit, UnitBlock(Arm(c.guest, iob), iob))))
  }

  ghost function Put(c: Controller, iob: int, unit: int, withInvite: bool, net: Transport): Controller
    requires c.Shaped() && unit in c.stations && unit == ByteAt(c.guest, iob + OFF_UNIT)
  {
    var class_ := ByteAt(c.guest, iob + OFF_CLASS);
    if class_ == CLASS_STATION then
      EraseValid(c.status, ByteAt(c.guest, iob + OFF_UNIT), NO_STATUS);
      OutputData(Open(c, iob, withInvite), iob, unit, withInvite, net)
    else if class_ == CLASS_RESPONSE then Respond(c, iob, unit)
    else Complete(c, iob, 4)
  }

  // ---- Read Input Fields -----------------------------------------------------------------

  // A read whose reply is also due on the work-space block carries that
  // block's displacement, from the pointer in the unit block.
  function Displacement(c: Controller, iob: int, unit: int): int {
    var staged := Lookup(c.staging, unit);
    if ByteAt(c.guest, iob + OFF_COMMAND) != 0x42 || staged == None || staged.value < 0 then -1
    else
      var block := UnitBlock(c.guest, iob);
      var workspace := if block > 0 then Addr24At(c.guest, block + OFF_WORKSPACE) else 0;
      if workspace >= TRANSLATED_BIT then workspace - TRANSLATED_BIT else -1
  }

  ghost function RequestFields(c: Controller, iob: int, unit: int): Controller
    requires c.Shaped() && unit in c.stations
  {
    if Lookup(c.inputs, iob).Some? then c
    else
      var field, capacity := Addr24At(c.guest, iob + OFF_BUFFER), HalfAt(c.guest, iob + OFF_LENGTH);
      match B.CaptureAddresses(c.guest, field, capacity)
      case None => Complete(c, iob, 4)
      case Some(destination) =>
        c.(inputs := Set(c.inputs, iob, PendingRead(unit, UnitBlock(c.guest, iob), ByteAt(c.guest, iob + OFF_COMMAND),
                                                    field, destination, capacity, Displacement(c, iob, unit))))
  }

  predicate CountedForm(p: PendingRead) {
    p.command == 0x32 && p.capacity / 0x100 % 0x100 == 0x18
  }

  function Fit(available: nat, capacity: int): nat {
    Max(0, Min(available, capacity))
  }

  // Where the field bytes of a response land: behind a six-EE and length
  // prefix for the 18xx form of command 32, else from the first byte.
  function Placed(g: Guest, p: PendingRead, raw: seq<byte>): (r: Guest)
    requires |raw| >= 3 && p.capacity <= |p.destination|
    ensures |r.mem| == |g.mem| && r.atr == g.atr
  {
    var fields := raw[3..];
    if CountedForm(p) && p.capacity < 8 then g
    else if CountedForm(p) then
      var prefix := Repeat(0xEE as byte, 6) + [|fields| / 0x100 % 0x100, |fields| % 0x100];
      StoreEach(g, p.destination, prefix + fields[..Min(|fields|, p.capacity - 8)])
    else StoreEach(g, p.destination, fields[..Fit(|fields|, p.capacity)])
  }

  function ReadStatus(g: Guest, iob: int, raw: seq<byte>): Guest
    requires |raw| >= 3
  {
    var block := UnitBlock(g, iob);
    if block <= 0 || !IsUnitBlock(g, block) then g
    else
      var flag: byte := if |raw| > 3 then 0xC0 else 0x80;
      var saved := StoreAt(g, block + OFF_STATUS, [flag, 0, raw[0], raw[1], 0, 0, 0, 0, 0, 0, 0, 0]);
      WriteByte(saved, block + OFF_INPUT_READ, Without(ByteAt(saved, block + OFF_INPUT_READ), 0x10))
  }

  function Held(deferred: Option<Deferred>, p: PendingRead, raw: seq<byte>): Option<Deferred>
    requires |raw| >= 3
  {
    var copied := Fit(|raw| - 3, p.capacity);
    if CountedForm(p) then deferred
    else if p.staging >= 0 && copied > 0 then Some(Deferred(raw[3..3 + copied], p.staging)) else deferred
  }

  // The response is consumed whether or not it proves long enough.
  function FinishRead(c: Controller, iob: int, p: PendingRead, expand: seq<byte> -> seq<byte>): Controller
    requires p.unit in c.stations && HasInput(c.stations[p.unit].terminal)
  {
    var t := c.stations[p.unit].terminal;
    var r, raw := NextInput(t), FieldBytes(t, p.command, expand);
    var taken := WithTerminal(c, p.unit, TakeFields(t));
    if |raw| < 3 then Note(taken, Lost(p.unit, r.serial))
    else if |p.destination| < p.capacity then
      Note(Complete(taken, iob, 4).(inputs := Erase(c.inputs, iob, NO_READ)), Lost(p.unit, r.serial))
    else
      var answered := taken.(guest := ReadStatus(Placed(c.guest, p, raw), iob, raw),
                             deferred := Held(c.deferred, p, raw),
                             status := Erase(c.status, p.unit, NO_STATUS), inputs := Erase(c.inputs, iob, NO_READ));
      Note(Complete(answered, iob, 0), FieldsRead(p.unit, r.serial, p.block, iob))
  }

  // ---- one controller pass ---------------------------------------------------------------

  predicate WaitReady(c: Controller, w: Waiting) {
    StatusFor(c, w.unit, w.block)
  }

  predicate PutReady(c: Controller, w: Waiting) {
    StatusFor(c, w.unit, w.block) && w.unit in c.stations && c.stations[w.unit].terminal.inbound != []
  }

  predicate ReadReady(c: Controller, p: PendingRead) {
    && StatusFor(c, p.unit, p.block) && p.unit in c.stations && HasInput(c.stations[p.unit].terminal)
    && (p.command == 0x32 || p.command == 0x42)
  }

  // The first live entry, in table order, that is ready; the number of slots
  // when none is.
  function FirstWait(c: Controller, i: nat): (r: nat)
    requires i <= |c.waits.entries|
    ensures i <= r <= |c.waits.entries|
    ensures r < |c.waits.entries| ==> c.waits.entries[r].live && WaitReady(c, c.waits.entries[r].value)
    ensures forall j | i <= j < r :: !(c.waits.entries[j].live && WaitReady(c, c.waits.entries[j].value))
    decreases |c.waits.entries| - i
  {
    if i == |c.waits.entries| || (c.waits.entries[i].live && WaitReady(c, c.waits.entries[i].value)) then i
    else FirstWait(c, i + 1)
  }

  function FirstPut(c: Controller, i: nat): (r: nat)
    requires i <= |c.puts.entries|
    ensures i <= r <= |c.puts.entries|
    ensures r < |c.puts.entries| ==> c.puts.entries[r].live && PutReady(c, c.puts.entries[r].value)
    ensures forall j | i <= j < r :: !(c.puts.entries[j].live && PutReady(c, c.puts.entries[j].value))
    decreases |c.puts.entries| - i
  {
    if i == |c.puts.entries| || (c.puts.entries[i].live && PutReady(c, c.puts.entries[i].value)) then i
    else FirstPut(c, i + 1)
  }

  function FirstRead(c: Controller, i: nat): (r: nat)
    requires i <= |c.inputs.entries|
    ensures i <= r <= |c.inputs.entries|
    ensures r < |c.inputs.entries| ==> c.inputs.entries[r].live && ReadReady(c, c.inputs.entries[r].value)
    ensures forall j | i <= j < r :: !(c.inputs.entries[j].live && ReadReady(c, c.inputs.entries[j].value))
    decreases |c.inputs.entries| - i
  {
    if i == |c.inputs.entries| || (c.inputs.entries[i].live && ReadReady(c, c.inputs.entries[i].value)) then i
    else FirstRead(c, i + 1)
  }

  function FinishWait(c: Controller, iob: int, w: Waiting): Controller
    requires StatusFor(c, w.unit, w.block)
  {
    var imported := c.(guest := ImportStatus(c.guest, iob, Lookup(c.status, w.unit).value.bytes),
                       status := Erase(c.status, w.unit, NO_STATUS), waits := Erase(c.waits, iob, NO_WAIT));
    Note(Complete(imported, iob, 0), Waited(w.unit, w.block, iob))
  }

  // The status stays for the class-C1 pass that follows this completion.
  function FinishPut(c: Controller, iob: int, w: Waiting): Controller
    requires PutReady(c, w)
  {
    var t := c.stations[w.unit].terminal;
    var claimed := WithTerminal(c, w.unit, ClaimResponse(t));
    var superseded := if t.retained.Some? then Note(claimed, Lost(w.unit, t.retained.value.serial)) else claimed;
    Note(Complete(superseded, iob, 0).(puts := Erase(c.puts, iob, NO_WAIT)),
         Claimed(w.unit, t.inbound[0].serial, w.block, iob))
  }

  // Complete at most one retained operation: class-C1 waits first, then
  // PUT-with-invites, then reads.
  function Pass(c: Controller, expand: seq<byte> -> seq<byte>): Controller {
    var w, p, r := FirstWait(c, 0), FirstPut(c, 0), FirstRead(c, 0);
    if w < |c.waits.entries| then FinishWait(c, c.waits.entries[w].key, c.waits.entries[w].value)
    else if p < |c.puts.entries| then FinishPut(c, c.puts.entries[p].key, c.puts.entries[p].value)
    else if r < |c.inputs.entries| then FinishRead(c, c.inputs.entries[r].key, c.inputs.entries[r].value, expand)
    else c
  }

  // ---- the terminal goes away ----------------------------------------------------------------

  // Everything the station held is gone; retained guest requests are not.
  function SwitchOff(c: Controller, unit: int): Controller
    requires unit in c.stations
  {
    var t := c.stations[unit].terminal;
    var off := WithTerminal(c, unit, PowerOff(t));
    var parked := if t.inbound != [] then Note(off, Lost(unit, t.inbound[0].serial)) else off;
    if t.retained.Some? then Note(parked, Lost(unit, t.retained.value.serial)) else parked
  }

  function PoweredOff(g: Guest, iob: int): Guest {
    Failed(g, iob, [0x22, 0, 0, 0, 0, 0, 0, 0x80, 0, 0, 0, 0])
  }

  function NotAttached(g: Guest, iob: int): Guest {
    Failed(g, iob, [0x28, 0, 0, 0, 0x02, 0x03, 0, 0, 0, 0, 0, 0])
  }

  // Echo the command, store the sense, fall back to class C0, post 41.
  function Failed(g: Guest, iob: int, sense: seq<byte>): Guest
    requires |sense| == 12
  {
    var block := UnitBlock(g, iob);
    var told := if block <= 0 || !IsUnitBlock(g, block) then g
                else WriteByte(StoreAt(WriteByte(g, block + 0x12, ByteAt(g, block + OFF_COMMAND)), block + OFF_STATUS,
                                       sense), block + OFF_CLASS, CLASS_STATION);
    GuestStorage.Complete(told, iob, 1)
  }

  function FirstWaitOf(entries: seq<Entry<int, Waiting>>, unit: int, i: nat): (r: nat)
    requires i <= |entries|
    ensures i <= r <= |entries|
    ensures r < |entries| ==> entries[r].live && entries[r].value.unit == unit
    ensures forall j | i <= j < r :: !(entries[j].live && entries[j].value.unit == unit)
    decreases |entries| - i
  {
    if i == |entries| || (entries[i].live && entries[i].value.unit == unit) then i
    else FirstWaitOf(entries, unit, i + 1)
  }

  function FirstReadOf(entries: seq<Entry<int, PendingRead>>, unit: int, i: nat): (r: nat)
    requires i <= |entries|
    ensures i <= r <= |entries|
    ensures r < |entries| ==> entries[r].live && entries[r].value.unit == unit
    ensures forall j | i <= j < r :: !(entries[j].live && entries[j].value.unit == unit)
    decreases |entries| - i
  {
    if i == |entries| || (entries[i].live && entries[i].value.unit == unit) then i
    else FirstReadOf(entries, unit, i + 1)
  }

  // Fail one retained request of this unit: PUT-with-invites first, then
  // reads, then class-C1 waits.
  function FailOne(c: Controller, unit: int): Controller {
    var p, r, w := FirstWaitOf(c.puts.entries, unit, 0), FirstReadOf(c.inputs.entries, unit, 0),
                   FirstWaitOf(c.waits.entries, unit, 0);
    if p < |c.puts.entries| then
      FailAt(c.(puts := Erase(c.puts, c.puts.entries[p].key, NO_WAIT)), unit, c.puts.entries[p].key)
    else if r < |c.inputs.entries| then
      FailAt(c.(inputs := Erase(c.inputs, c.inputs.entries[r].key, NO_READ)), unit, c.inputs.entries[r].key)
    else if w < |c.waits.entries| then
      FailAt(c.(waits := Erase(c.waits, c.waits.entries[w].key, NO_WAIT)), unit, c.waits.entries[w].key)
    else c
  }

  function FailAt(c: Controller, unit: int, iob: int): Controller {
    Retire(c, unit).(staging := Erase(c.staging, unit, 0), guest := PoweredOff(c.guest, iob))
  }

  // A terminating task's request is dropped without a completion.
  function Cancel(c: Controller, iob: int): Controller {
    c.(inputs := Erase(c.inputs, iob, NO_READ), waits := Erase(c.waits, iob, NO_WAIT),
       puts := Erase(c.puts, iob, NO_WAIT), invites := c.invites - {iob})
  }

  // Unit FF conditions every display to talk, and its request stays owned.
  function InviteAll(c: Controller, iob: int): Controller {
    if iob in c.invites then c
    else
      c.(stations := map u | u in c.stations :: c.stations[u].(terminal := Invite(c.stations[u].terminal)),
         invites := c.invites + {iob})
  }

  // ---- the request switch --------------------------------------------------------------------

  // The display arms of one request, after the controller found the unit.
  ghost function Request(c: Controller, iob: int, net: Transport): Controller
    requires c.Shaped()
  {
    var command, unit := ByteAt(c.guest, iob + OFF_COMMAND), ByteAt(c.guest, iob + OFF_UNIT);
    if ByteAt(c.guest, iob + OFF_CLASS) / 0x10 != 0xC then Complete(c, iob, 4)
    else if unit == 0xFF then InviteAll(c, iob)
    else if unit !in c.stations then Complete(c, iob, 4)
    else if c.stations[unit].detached then c.(guest := NotAttached(c.guest, iob))
    else if command == 0x27 then Put(c, iob, unit, false, net)
    else if command == 0xA7 then Put(c, iob, unit, true, net)
    else if command == 0x22 || command == 0x32 || command == 0x42 then RequestFields(c, iob, unit)
    else if command == 0xC3 then Complete(WithTerminal(c, unit, CancelInvite(c.stations[unit].terminal)), iob, 0)
    else Complete(c, iob, 4)
  }
}
