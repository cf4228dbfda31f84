// One display station: the host backend's park slot and status latch, and the
// display's retained-input slot and read modes, as one value.
module Terminals {
  import opened Bytes

  const PARK_LIMIT := 1
  const SAVE_LIMIT := 8

  // The read command a terminal is owed: 20 for Read MDT, 21 for the
  // structured-field Read Text Screen, 1 after a restore, 0 for none.
  const READ_MDT: byte := 0x20
  const READ_TEXT: byte := 0x21

  // `serial` is the record's number in the order records were accepted.
  datatype Record = Record(serial: nat, data: seq<byte>)

  datatype Attention = Attention(attn: bool, sysreq: bool)

  // What the display has put on its line and heard back, kept for the laws
  // about reads: a record written, the read command a record ends with or
  // carries alone, the withdrawal of one, a response taken off the line by its
  // serial, and the display going off.
  datatype Line = Wrote(data: seq<byte>) | Asked(command: seq<byte>) | Withdrawn | Answered(serial: nat) | Off

  datatype Terminal = Terminal(
    inbound: seq<Record>, headTaken: bool, saves: seq<seq<byte>>, control: Option<Attention>,
    retained: Option<Record>, retainedMode: byte,
    outstanding: bool, activeMode: byte, inviteMode: byte, line: seq<Line>)

  const IDLE: Terminal := Terminal([], false, [], None, None, 0, false, 0, READ_MDT, [])

  // ---- the host backend -------------------------------------------------------

  // Make room in a queue of at most `limit`: the oldest go first.
  function Trim<T>(queue: seq<T>, limit: nat): seq<T>
    requires 0 < limit
  {
    if |queue| < limit then queue else queue[|queue| - limit + 1..]
  }

  // A record arriving from the terminal: an attention overwrites the control
  // slot, a Save Screen reply joins its queue, and anything else takes the
  // park slot from whatever was there.
  function Enqueue(t: Terminal, keys: Attention, saveReply: bool, r: Record): Terminal {
    if keys.attn || keys.sysreq then t.(control := Some(keys))
    else if saveReply then t.(saves := Trim(t.saves, SAVE_LIMIT) + [r.data])
    else t.(inbound := Trim(t.inbound, PARK_LIMIT) + [r], headTaken := t.headTaken && |t.inbound| < PARK_LIMIT)
  }

  predicate StatusReady(t: Terminal) {
    !t.headTaken && t.inbound != [] && |t.inbound[0].data| >= 3
  }

  function TakeStatus(t: Terminal): Terminal
    requires StatusReady(t)
  {
    t.(headTaken := true)
  }

  function Receive(t: Terminal): Terminal
    requires t.inbound != []
  {
    t.(inbound := t.inbound[1..], headTaken := false)
  }

  // ---- the display ---------------------------------------------------------------

  // The response to a PUT-with-invite moves from the wire into the retained
  // slot, superseding unread input.
  function ClaimResponse(t: Terminal): Terminal
    requires t.inbound != []
  {
    Receive(t).(retained := Some(t.inbound[0]), retainedMode := t.activeMode, outstanding := false, activeMode := 0,
                line := t.line + [Answered(t.inbound[0].serial)])
  }

  predicate HasInput(t: Terminal) {
    t.retained.Some? || t.inbound != []
  }

  function NextInput(t: Terminal): Record
    requires HasInput(t)
  {
    if t.retained.Some? then t.retained.value else t.inbound[0]
  }

  function TakeInput(t: Terminal): Terminal
    requires HasInput(t)
  {
    if t.retained.Some? then t.(retained := None, retainedMode := 0)
    else Receive(t).(outstanding := false, activeMode := 0, line := t.line + [Answered(t.inbound[0].serial)])
  }

  // Command 42 expands a field-format response to full-width fields; a
  // structured-field response, and command 32, pass through.
  predicate Expands(t: Terminal, command: byte) {
    command == 0x42 && (if t.retained.Some? then t.retainedMode else t.activeMode) != READ_TEXT
  }

  function TakeFields(t: Terminal): Terminal
    requires HasInput(t)
  {
    TakeInput(t).(retainedMode := 0)
  }

  function FieldBytes(t: Terminal, command: byte, expand: seq<byte> -> seq<byte>): seq<byte>
    requires HasInput(t)
  {
    if Expands(t, command) then expand(NextInput(t).data) else NextInput(t).data
  }

  function PowerOff(t: Terminal): Terminal {
    IDLE.(inviteMode := t.inviteMode, line := t.line + [Off])
  }

  // Read Immediate, Read MDT Fields or Read Text Screen.
  function ReadCommand(mode: byte): seq<byte> {
    if mode == READ_TEXT then [0x04, 0xF3, 0x00, 0x08, 0xD9, 0x32, 0x00, 0x80, 0x00, 0x00]
    else if mode == 1 then [0x04, 0x42, 0x00, 0x00]
    else [0x04, 0x52, 0x00, 0x00]
  }

  // The invitation is a read command alone on the line.
  function Invite(t: Terminal): Terminal {
    var mode := if t.inviteMode == READ_TEXT then READ_TEXT else READ_MDT;
    t.(outstanding := true, activeMode := mode, line := t.line + [Asked(ReadCommand(mode))])
  }

  function CancelInvite(t: Terminal): Terminal {
    t.(outstanding := false, activeMode := 0, retainedMode := 0, line := t.line + [Withdrawn])
  }

  predicate ResumableMode(mode: byte) {
    mode == 1 || mode == READ_MDT || mode == READ_TEXT
  }

  function Resume(t: Terminal, mode: byte): Terminal {
    t.(outstanding := true, activeMode := mode, line := t.line + [Asked(ReadCommand(mode))])
  }

  // ---- output and the read mode it selects -----------------------------------------

  // A structured-field list: LL, class, type, and LL - 4 bytes, over and over.
  predicate DefinesTextFormat(data: seq<byte>, p: nat)
    decreases |data| - p
  {
    if p + 4 > |data| then false
    else
      var length := Half(data[p], data[p + 1]);
      if length < 4 || p + length > |data| then false
      else (data[p + 2] == 0xD9 && data[p + 3] == 0x34) || DefinesTextFormat(data, p + length)
  }

  predicate ContainsTextFormat(data: seq<byte>, i: nat)
    decreases |data| - i
  {
    if i + 1 >= |data| then false
    else if data[i] == 0x04 && data[i + 1] == 0xF3 then DefinesTextFormat(data, i + 2)
    else ContainsTextFormat(data, i + 1)
  }

  // Nothing after a Write Structured Field command is scanned for commands.
  predicate ContainsWriteToDisplay(data: seq<byte>, i: nat)
    decreases |data| - i
  {
    if i + 1 >= |data| then false
    else if data[i] == 0x04 && data[i + 1] == 0x11 then true
    else if data[i] == 0x04 && data[i + 1] == 0xF3 then false
    else ContainsWriteToDisplay(data, i + 1)
  }

  function ModeAfter(mode: byte, data: seq<byte>): byte {
    if ContainsTextFormat(data, 0) then READ_TEXT
    else if ContainsWriteToDisplay(data, 0) then READ_MDT
    else mode
  }

  datatype Sent = Sent(terminal: Terminal, wire: seq<byte>)

  // PUT, or PUT-with-invite: one wire record of the data and, with invite,
  // the matching read command.
  function Output(t: Terminal, data: seq<byte>, withInvite: bool): Sent {
    var mode := ModeAfter(t.inviteMode, data);
    var wrote := t.(inviteMode := mode, line := t.line + [Wrote(data)]);
    if !withInvite then Sent(wrote, data)
    else Sent(Invite(wrote), data + ReadCommand(if mode == READ_TEXT then READ_TEXT else READ_MDT))
  }

  // ---- which read the data selects --------------------------------------------------

  ghost predicate At(data: seq<byte>, i: int, first: byte, second: byte) {
    0 <= i && i + 1 < |data| && data[i] == first && data[i + 1] == second
  }

  // The structured fields that follow one another from p: each has a length of
  // its own, at least 4, and lies in the data.
  ghost predicate FieldChain(data: seq<byte>, p: int, starts: seq<int>) {
    && starts != [] && starts[0] == p
    && (forall k | 0 <= k < |starts| :: FieldAt(data, starts[k]))
    && forall k | 0 < k < |starts| :: starts[k] == starts[k - 1] + FieldLength(data, starts[k - 1])
  }

  ghost function FieldLength(data: seq<byte>, p: int): int {
    if 0 <= p && p + 1 < |data| then (data[p] as int) * 0x100 + data[p + 1] else 0
  }

  ghost predicate FieldAt(data: seq<byte>, p: int) {
    0 <= p && p + 4 <= |data| && FieldLength(data, p) >= 4 && p + FieldLength(data, p) <= |data|
  }

  // The first Write Structured Field has a Define Text Screen Format among its
  // fields.
  ghost predicate SelectsText(data: seq<byte>) {
    exists i, starts: seq<int> ::
      && At(data, i, 0x04, 0xF3) && (forall j | 0 <= j < i :: !At(data, j, 0x04, 0xF3))
      && FieldChain(data, i + 2, starts) && At(data, starts[|starts| - 1] + 2, 0xD9, 0x34)
  }

  // A Write to Display stands before any Write Structured Field.
  ghost predicate SelectsFields(data: seq<byte>) {
    exists i :: At(data, i, 0x04, 0x11) && forall j | 0 <= j < i :: !At(data, j, 0x04, 0xF3)
  }

  lemma {:induction false} FieldsChained(data: seq<byte>, p: nat) returns (starts: seq<int>)
    requires DefinesTextFormat(data, p)
    ensures FieldChain(data, p, starts) && At(data, starts[|starts| - 1] + 2, 0xD9, 0x34)
    decreases |data| - p
  {
    starts := [p];
    if !(data[p + 2] == 0xD9 && data[p + 3] == 0x34) {
      var rest := FieldsChained(data, p + FieldLength(data, p));
      starts := [p] + rest;
    }
  }

  lemma {:induction false} ChainDefines(data: seq<byte>, p: nat, starts: seq<int>)
    requires FieldChain(data, p, starts) && At(data, starts[|starts| - 1] + 2, 0xD9, 0x34)
    ensures DefinesTextFormat(data, p)
    decreases |starts|
  {
    assert FieldAt(data, starts[0]);
    if |starts| > 1 {
      assert FieldAt(data, starts[1]);
      ChainDefines(data, starts[1], starts[1..]);
    }
  }

  lemma {:induction false} FirstStructured(data: seq<byte>, i: nat, at: nat)
    requires i <= at && At(data, at, 0x04, 0xF3) && forall j | i <= j < at :: !At(data, j, 0x04, 0xF3)
    ensures ContainsTextFormat(data, i) == DefinesTextFormat(data, at + 2)
    decreases at - i
  {
    if i < at {
      assert !At(data, i, 0x04, 0xF3);
      FirstStructured(data, i + 1, at);
    }
  }

  lemma {:induction false} NoStructured(data: seq<byte>, i: nat)
    ensures ContainsTextFormat(data, i) ==>
              exists at :: i <= at && At(data, at, 0x04, 0xF3) && forall j | i <= j < at :: !At(data, j, 0x04, 0xF3)
    decreases |data| - i
  {
    if i + 1 < |data| {
      if At(data, i, 0x04, 0xF3) {
      } else if ContainsTextFormat(data, i) {
        NoStructured(data, i + 1);
      }
    }
  }

  lemma TextFormatIs(data: seq<byte>)
    ensures ContainsTextFormat(data, 0) <==> SelectsText(data)
  {
    NoStructured(data, 0);
    if ContainsTextFormat(data, 0) {
      var i :| 0 <= i && At(data, i, 0x04, 0xF3) && forall j | 0 <= j < i :: !At(data, j, 0x04, 0xF3);
      FirstStructured(data, 0, i);
      var starts := FieldsChained(data, i + 2);
    }
    if SelectsText(data) {
      var i, starts: seq<int> :| && At(data, i, 0x04, 0xF3) && (forall j | 0 <= j < i :: !At(data, j, 0x04, 0xF3))
                                 && FieldChain(data, i + 2, starts) && At(data, starts[|starts| - 1] + 2, 0xD9, 0x34);
      FirstStructured(data, 0, i);
      ChainDefines(data, i + 2, starts);
    }
  }

  ghost predicate DisplayFirst(data: seq<byte>, i: int, at: int) {
    i <= at && At(data, at, 0x04, 0x11) && forall j | i <= j < at :: !At(data, j, 0x04, 0xF3)
  }

  lemma {:induction false} DisplayFrom(data: seq<byte>, i: nat)
    ensures ContainsWriteToDisplay(data, i) <==> exists at :: DisplayFirst(data, i, at)
    decreases |data| - i
  {
    if i + 1 < |data| {
      DisplayFrom(data, i + 1);
      if At(data, i, 0x04, 0x11) {
        assert DisplayFirst(data, i, i);
      } else {
        if ContainsWriteToDisplay(data, i) {
          var at :| DisplayFirst(data, i + 1, at);
          assert DisplayFirst(data, i, at);
        }
        if exists at :: DisplayFirst(data, i, at) {
          var at :| DisplayFirst(data, i, at);
          assert i < at && !At(data, i, 0x04, 0xF3);
          assert DisplayFirst(data, i + 1, at);
        }
      }
    }
  }

  // The read a PUT-with-invite ends in: Read Text Screen when its data defines
  // a text screen, Read MDT Fields when it only writes to the display, and
  // otherwise what the last PUT to say so selected.
  lemma PutSelectsRead(t: Terminal, data: seq<byte>)
    ensures var read := Output(t, data, true).wire[|data|..];
            && read in {[0x04, 0xF3, 0x00, 0x08, 0xD9, 0x32, 0, 0x80, 0, 0], [0x04, 0x52, 0, 0]}
            && (SelectsText(data) ==> read == [0x04, 0xF3, 0x00, 0x08, 0xD9, 0x32, 0, 0x80, 0, 0])
            && (!SelectsText(data) && SelectsFields(data) ==> read == [0x04, 0x52, 0, 0])
            && (!SelectsText(data) && !SelectsFields(data) ==> read == Invite(t).line[|t.line|].command)
    ensures forall more: seq<byte> | SelectsText(data) && !SelectsText(more) && !SelectsFields(more) ::
              Output(Output(t, data, false).terminal, more, true).wire[|more|..]
              == [0x04, 0xF3, 0x00, 0x08, 0xD9, 0x32, 0, 0x80, 0, 0]
  {
    hide ContainsTextFormat, ContainsWriteToDisplay, SelectsText, SelectsFields;
    forall more: seq<byte>
      ensures ContainsTextFormat(more, 0) <==> SelectsText(more)
      ensures ContainsWriteToDisplay(more, 0) <==> SelectsFields(more)
    {
      TextFormatIs(more);
      WriteToDisplayIs(more);
    }
  }

  lemma WriteToDisplayIs(data: seq<byte>)
    ensures ContainsWriteToDisplay(data, 0) <==> SelectsFields(data)
  {
    DisplayFrom(data, 0);
    if SelectsFields(data) {
      var i :| At(data, i, 0x04, 0x11) && forall j | 0 <= j < i :: !At(data, j, 0x04, 0xF3);
      assert DisplayFirst(data, 0, i);
    }
    if ContainsWriteToDisplay(data, 0) {
      var i :| DisplayFirst(data, 0, i);
      assert At(data, i, 0x04, 0x11);
    }
  }

  // A display that has put out nothing yet invites with Read MDT Fields.
  lemma FirstInvite()
    ensures Invite(IDLE).line == [Asked([0x04, 0x52, 0, 0])]
  {
  }

  // The last eight Save Screen replies wait, oldest first.
  lemma RepliesWait(t: Terminal, keys: Attention, r: Record)
    requires |t.saves| <= 8 && !keys.attn && !keys.sysreq
    ensures var all, after := t.saves + [r.data], Enqueue(t, keys, true, r);
            after == t.(saves := if |all| <= 8 then all else all[|all| - 8..])
  {
  }

  // The read command on the wire is the one the response will be read under.
  lemma InviteMatchesWire(t: Terminal, data: seq<byte>)
    ensures var s := Output(t, data, true);
            && s.terminal.outstanding
            && (s.terminal.activeMode == 0x21 <==> s.wire == data + [0x04, 0xF3, 0x00, 0x08, 0xD9, 0x32, 0, 0x80, 0, 0])
            && (s.terminal.activeMode == 0x20 <==> s.wire == data + [0x04, 0x52, 0, 0])
            && s.terminal.activeMode in {0x20, 0x21}
            && s.terminal.line == t.line + [Wrote(data), Asked(s.wire[|data|..])]
  {
    hide ModeAfter;
    var s := Output(t, data, true);
    assert s.wire[|data|..] == ReadCommand(s.terminal.activeMode);
    assert t.line + [Wrote(data)] + [Asked(s.wire[|data|..])] == t.line + [Wrote(data), Asked(s.wire[|data|..])];
    assert s.wire == data + [0x04, 0x52, 0, 0] ==> s.wire[|data|..] == [0x04, 0x52, 0, 0];
  }

  // ---- the linear part -----------------------------------------------------------

  // One record in the park at most, and a status taken only from a record
  // that is still there.
  ghost predicate Parks(t: Terminal) {
    |t.inbound| <= PARK_LIMIT && (t.headTaken ==> t.inbound != [])
  }

  class Workstation {
    var inbound: seq<Record>
    var headStatusTaken: bool
    var saveResponses: seq<seq<byte>>
    var unsolicitedRequest: Option<Attention>
    var retained: Option<Record>
    var retainedReadMode: byte
    var inviteOutstanding: bool
    var activeReadMode: byte
    var inviteReadMode: byte
    ghost var line: seq<Line>

    ghost function View(): Terminal
      reads this
    {
      Terminal(inbound, headStatusTaken, saveResponses, unsolicitedRequest, retained, retainedReadMode,
               inviteOutstanding, activeReadMode, inviteReadMode, line)
    }

    constructor ()
      ensures View() == IDLE
    {
      inbound, headStatusTaken, saveResponses, unsolicitedRequest := [], false, [], None;
      retained, retainedReadMode := None, 0;
      inviteOutstanding, activeReadMode, inviteReadMode := false, 0, READ_MDT;
      line := [];
    }

    method Accept(keys: Attention, saveReply: bool, r: Record)
      modifies this
      ensures View() == Enqueue(old(View()), keys, saveReply, r)
      ensures old(Parks(View())) ==> Parks(View())
    {
      if keys.attn || keys.sysreq {
        unsolicitedRequest := Some(keys);
        return;
      }
      if saveReply {
        while |saveResponses| >= SAVE_LIMIT
          invariant Trim(saveResponses, SAVE_LIMIT) == Trim(old(saveResponses), SAVE_LIMIT)
          invariant View() == old(View()).(saves := saveResponses)
          decreases |saveResponses|
        {
          saveResponses := saveResponses[1..];
        }
        saveResponses := saveResponses + [r.data];
        return;
      }
      while |inbound| >= PARK_LIMIT
        invariant Trim(inbound, PARK_LIMIT) == Trim(old(inbound), PARK_LIMIT)
        invariant headStatusTaken == (old(headStatusTaken) && inbound == old(inbound))
        invariant |inbound| == |old(inbound)| || |old(inbound)| >= PARK_LIMIT
        invariant View() == old(View()).(inbound := inbound, headTaken := headStatusTaken)
        decreases |inbound|
      {
        inbound := inbound[1..];
        headStatusTaken := false;
      }
      inbound := inbound + [r];
    }

    // Cursor and AID of the parked record, once.
    method TryTakeInputStatus() returns (taken: bool, cursor: halfword, aid: byte)
      modifies this
      ensures taken <==> StatusReady(old(View()))
      ensures taken ==> View() == TakeStatus(old(View()))
      ensures taken ==> cursor == Half(inbound[0].data[0], inbound[0].data[1]) && aid == inbound[0].data[2]
      ensures !taken ==> View() == old(View()) && cursor == 0 && aid == 0
    {
      if headStatusTaken || inbound == [] || |inbound[0].data| < 3 {
        return false, 0, 0;
      }
      headStatusTaken := true;
      return true, Half(inbound[0].data[0], inbound[0].data[1]), inbound[0].data[2];
    }

    method TryReceive() returns (r: Option<Record>)
      modifies this
      ensures r == if old(inbound) == [] then None else Some(old(inbound)[0])
      ensures View() == if old(inbound) == [] then old(View()) else Receive(old(View()))
    {
      if inbound == [] {
        return None;
      }
      r := Some(inbound[0]);
      inbound, headStatusTaken := inbound[1..], false;
    }

    method CompleteInviteResponse() returns (claimed: bool)
      modifies this
      ensures claimed <==> old(inbound) != []
      ensures View() == if claimed then ClaimResponse(old(View())) else old(View())
    {
      var r := TryReceive();
      if r == None {
        return false;
      }
      retained, retainedReadMode := r, activeReadMode;
      inviteOutstanding, activeReadMode := false, 0;
      line := line + [Answered(r.value.serial)];
      return true;
    }

    method TryTakeInput() returns (r: Option<Record>)
      modifies this
      ensures r == if HasInput(old(View())) then Some(NextInput(old(View()))) else None
      ensures View() == if HasInput(old(View())) then TakeInput(old(View())) else old(View())
    {
      if retained.Some? {
        r := retained;
        retained, retainedReadMode := None, 0;
        return;
      }
      r := TryReceive();
      if r.Some? {
        inviteOutstanding, activeReadMode := false, 0;
        line := line + [Answered(r.value.serial)];
      }
    }

    method TryTakeInputFields(command: byte, expand: seq<byte> -> seq<byte>) returns (stream: Option<seq<byte>>)
      modifies this
      ensures stream == if HasInput(old(View())) then Some(FieldBytes(old(View()), command, expand)) else None
      ensures View() == if HasInput(old(View())) then TakeFields(old(View())) else old(View())
    {
      var responseMode := if retained.Some? then retainedReadMode else activeReadMode;
      var r := TryTakeInput();
      if r == None {
        return None;
      }
      retainedReadMode := 0;
      return Some(if command == 0x42 && responseMode != READ_TEXT then expand(r.value.data) else r.value.data);
    }

    method SwitchOff()
      modifies this
      ensures View() == PowerOff(old(View()))
    {
      inviteOutstanding, activeReadMode := false, 0;
      retained, retainedReadMode := None, 0;
      inbound, saveResponses, unsolicitedRequest, headStatusTaken := [], [], None, false;
      line := line + [Off];
    }

    method OutputOperation(data: seq<byte>, withInvite: bool) returns (wire: seq<byte>)
      modifies this
      ensures Sent(View(), wire) == Output(old(View()), data, withInvite)
    {
      var text := ScanTextFormat(data);
      if text {
        inviteReadMode := READ_TEXT;
      } else {
        var display := ScanWriteToDisplay(data);
        if display {
          inviteReadMode := READ_MDT;
        }
      }
      wire := data;
      line := line + [Wrote(data)];
      if withInvite {
        var structured := inviteReadMode == READ_TEXT;
        var suffix: seq<byte> := if structured then [0x04, 0xF3, 0x00, 0x08, 0xD9, 0x32, 0x00, 0x80, 0x00, 0x00]
                                 else [0x04, 0x52, 0x00, 0x00];
        wire := wire + suffix;
        line := line + [Asked(suffix)];
        inviteOutstanding := true;
        activeReadMode := if structured then READ_TEXT else READ_MDT;
      }
    }

    // The read command that invites, alone on the line.
    method StartInvite() returns (wire: seq<byte>)
      modifies this
      ensures View() == Invite(old(View())) && line == old(line) + [Asked(wire)]
    {
      inviteOutstanding := true;
      if inviteReadMode == READ_TEXT {
        activeReadMode := READ_TEXT;
        wire := SavedReadMode(0x21);
      } else {
        activeReadMode := READ_MDT;
        wire := SavedReadMode(0x20);
      }
      line := line + [Asked(wire)];
    }

    // A restored screen resumes the read it was saved under.
    method ResumeRead(mode: byte) returns (wire: seq<byte>)
      requires ResumableMode(mode)
      modifies this
      ensures View() == Resume(old(View()), mode) && line == old(line) + [Asked(wire)]
    {
      inviteOutstanding, activeReadMode := true, mode;
      wire := SavedReadMode(mode);
      line := line + [Asked(wire)];
    }

    method WithdrawInvite()
      modifies this
      ensures View() == CancelInvite(old(View()))
    {
      inviteOutstanding, activeReadMode, retainedReadMode := false, 0, 0;
      line := line + [Withdrawn];
    }
  }

  method SavedReadMode(mode: byte) returns (suffix: seq<byte>)
    requires ResumableMode(mode)
    ensures suffix == ReadCommand(mode)
  {
    if mode == 1 {
      return [0x04, 0x42, 0x00, 0x00];
    } else if mode == 0x20 {
      return [0x04, 0x52, 0x00, 0x00];
    }
    return [0x04, 0xF3, 0x00, 0x08, 0xD9, 0x32, 0x00, 0x80, 0x00, 0x00];
  }

  method ScanTextFormat(data: seq<byte>) returns (found: bool)
    ensures found == ContainsTextFormat(data, 0)
  {
    var i := 0;
    while i + 1 < |data|
      invariant i <= |data| && ContainsTextFormat(data, 0) == ContainsTextFormat(data, i)
    {
      if data[i] == 0x04 && data[i + 1] == 0xF3 {
        var p := i + 2;
        while p + 4 <= |data|
          invariant i + 2 <= p <= |data| && DefinesTextFormat(data, i + 2) == DefinesTextFormat(data, p)
        {
          var length := Half(data[p], data[p + 1]);
          if length < 4 || p + length > |data| {
            break;
          }
          if data[p + 2] == 0xD9 && data[p + 3] == 0x34 {
            return true;
          }
          p := p + length;
        }
        return false;
      }
      i := i + 1;
    }
    return false;
  }

  method ScanWriteToDisplay(data: seq<byte>) returns (found: bool)
    ensures found == ContainsWriteToDisplay(data, 0)
  {
    var i := 0;
    while i + 1 < |data|
      invariant i <= |data| && ContainsWriteToDisplay(data, 0) == ContainsWriteToDisplay(data, i)
    {
      if data[i] == 0x04 {
        if data[i + 1] == 0x11 {
          return true;
        }
        if data[i + 1] == 0xF3 {
          return false;
        }
      }
      i := i + 1;
    }
    return false;
  }
}
