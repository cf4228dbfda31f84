// What holds over every run of the work station controller: terminal records
// are used linearly, and a retained request is answered only by a status that
// was delivered for it.
module RetainedIo {
  import opened Bytes
  import opened GuestStorage
  import opened SlotMaps
  import opened Terminals
  import opened Controllers

  type Expand = seq<byte> -> seq<byte>

  // ---- runs ---------------------------------------------------------------------

  datatype Step =
    | TerminalRecord(unit: int, keys: Attention, saveReply: bool, data: seq<byte>)
    | StatusPoll(block: int)
    | GuestRequest(iob: int, net: Transport)
    | ControllerPass
    | PowerSwitch(unit: int)
    | FailRequest(unit: int)
    | Terminate(iob: int)
    | Bind(unit: int, detached: bool)
    | GuestRuns(mem: seq<byte>, atr: seq<halfword>)

  ghost function Apply(c: Controller, step: Step, expand: Expand): Controller
    requires c.Shaped()
  {
    match step
    case TerminalRecord(unit, keys, saveReply, data) =>
      if unit in c.stations then Arrive(c, unit, keys, saveReply, data) else c
    case StatusPoll(block) => Deliver(c, block)
    case GuestRequest(iob, net) => Request(c, iob, net)
    case ControllerPass => Pass(c, expand)
    case PowerSwitch(unit) => if unit in c.stations then SwitchOff(c, unit) else c
    case FailRequest(unit) => FailOne(c, unit)
    case Terminate(iob) => Cancel(c, iob)
    case Bind(unit, detached) =>
      if unit in c.stations then c.(stations := c.stations[unit := c.stations[unit].(detached := detached)]) else c
    case GuestRuns(mem, atr) => if |atr| == ATR_COUNT then c.(guest := Guest(mem, atr, c.guest.faulted)) else c
  }

  ghost predicate Started(c: Controller) {
    && c.guest.Valid() && c.log == []
    && c.inputs == Clear() && c.staging == Clear() && c.status == Clear() && c.waits == Clear() && c.puts == Clear()
    && forall u | u in c.stations :: c.stations[u].terminal == IDLE
  }

  // ---- counting events -------------------------------------------------------------

  datatype Kind = ACCEPTED | LOST | REPORTED | CLAIMED | READ

  predicate Is(e: Event, k: Kind, u: int, s: nat) {
    match k
    case ACCEPTED => e == Accepted(u, s)
    case LOST => e == Lost(u, s)
    case REPORTED => e.Reported? && e.unit == u && e.serial == s
    case CLAIMED => e.Claimed? && e.unit == u && e.serial == s
    case READ => e.FieldsRead? && e.unit == u && e.serial == s
  }

  function Count(log: seq<Event>, k: Kind, u: int, s: nat): nat {
    if log == [] then 0 else Count(log[..|log| - 1], k, u, s) + if Is(log[|log| - 1], k, u, s) then 1 else 0
  }

  lemma CountNote(log: seq<Event>, e: Event, u: int, s: nat)
    ensures forall k :: Count(log + [e], k, u, s) == Count(log, k, u, s) + if Is(e, k, u, s) then 1 else 0
  {
    assert (log + [e])[..|log|] == log;
  }

  // ---- records are linear -------------------------------------------------------------

  predicate Parked(c: Controller, u: int, s: nat) {
    u in c.stations && c.stations[u].terminal.inbound != [] && c.stations[u].terminal.inbound[0].serial == s
  }

  predicate Retained(c: Controller, u: int, s: nat) {
    u in c.stations && c.stations[u].terminal.retained.Some? && c.stations[u].terminal.retained.value.serial == s
  }

  function One(b: bool): nat {
    if b then 1 else 0
  }

  // An accepted record is in exactly one place; its status was reported at
  // most once, it completed at most one PUT-with-invite, and it was read at
  // most once.
  ghost predicate Balanced(c: Controller, u: int, s: nat) {
    && Count(c.log, ACCEPTED, u, s)
       == One(Parked(c, u, s)) + One(Retained(c, u, s)) + Count(c.log, READ, u, s) + Count(c.log, LOST, u, s)
    && Count(c.log, ACCEPTED, u, s) <= 1
    && Count(c.log, REPORTED, u, s) <= Count(c.log, ACCEPTED, u, s)
    && Count(c.log, CLAIMED, u, s) <= Count(c.log, ACCEPTED, u, s)
    && (Parked(c, u, s) ==> Count(c.log, CLAIMED, u, s) == 0
                            && Count(c.log, REPORTED, u, s) == One(c.stations[u].terminal.headTaken))
    && (Retained(c, u, s) ==> Count(c.log, CLAIMED, u, s) == 1)
    && (s >= c.next ==> Count(c.log, ACCEPTED, u, s) == 0)
  }

  ghost predicate Linear(c: Controller) {
    && (forall u | u in c.stations :: Parks(c.stations[u].terminal))
    && forall u, s :: Balanced(c, u, s)
  }

  // ---- statuses are delivered before they are used --------------------------------------

  datatype Seen = Seen(block: int, serial: nat)

  // The status of this unit that was reported and has not been consumed.
  function Current(log: seq<Event>, u: int): Option<Seen> {
    if log == [] then None
    else
      match log[|log| - 1]
      case Reported(unit, serial, block) =>
        if unit == u then Some(Seen(block, serial)) else Current(log[..|log| - 1], u)
      case FieldsRead(unit, _, _, _) => if unit == u then None else Current(log[..|log| - 1], u)
      case Waited(unit, _, _) => if unit == u then None else Current(log[..|log| - 1], u)
      case Retired(unit) => if unit == u then None else Current(log[..|log| - 1], u)
      case _ => Current(log[..|log| - 1], u)
  }

  predicate Ends(e: Event, u: int) {
    e.unit == u && (e.FieldsRead? || e.Waited? || e.Retired? || e.Reported?)
  }

  // Reported at j for this block, and neither consumed nor reported over since.
  predicate ReportedAt(log: seq<Event>, u: int, seen: Seen, j: nat) {
    && j < |log| && log[j] == Reported(u, seen.serial, seen.block)
    && forall i | j < i < |log| :: !Ends(log[i], u)
  }

  lemma {:induction false} CurrentWasReported(log: seq<Event>, u: int)
    ensures Current(log, u).Some? ==> exists j: nat :: ReportedAt(log, u, Current(log, u).value, j)
    ensures Current(log, u).Some? ==> Count(log, REPORTED, u, Current(log, u).value.serial) > 0
  {
    if log != [] && Current(log, u).Some? {
      var n := |log| - 1;
      if log[n].Reported? && log[n].unit == u {
        assert ReportedAt(log, u, Current(log, u).value, n);
      } else {
        CurrentWasReported(log[..n], u);
        var j: nat :| ReportedAt(log[..n], u, Current(log, u).value, j);
        assert ReportedAt(log, u, Current(log, u).value, j) by {
          assert log[..n][j] == log[j];
          forall i | j < i < |log|
            ensures !Ends(log[i], u)
          {
            if i < n {
              assert log[..n][i] == log[i];
            }
          }
        }
      }
    }
  }

  lemma CurrentNote(log: seq<Event>, e: Event, u: int)
    ensures Current(log + [e], u)
         == if e.unit != u then Current(log, u)
            else if e.Reported? then Some(Seen(e.block, e.serial))
            else if Ends(e, u) then None else Current(log, u)
  {
    assert (log + [e])[..|log|] == log;
  }

  // The status table holds exactly the reported and unconsumed statuses, and
  // a status taken from the park is still the one in the table.
  ghost predicate Agrees(c: Controller, u: int) {
    && Lookup(c.status, u).Some? == Current(c.log, u).Some?
    && (Current(c.log, u).Some? ==> Lookup(c.status, u).value.block == Current(c.log, u).value.block)
    && (Current(c.log, u).Some? && u in c.stations && c.stations[u].terminal.headTaken
        && c.stations[u].terminal.inbound != [] ==>
          Current(c.log, u).value.serial == c.stations[u].terminal.inbound[0].serial)
  }

  // Events that post completion 40 for a request that was retained, or
  // retried at class C1.
  predicate Answers(e: Event) {
    e.Claimed? || e.FieldsRead? || e.Waited?
  }

  ghost predicate JustifiedAt(log: seq<Event>, i: nat) {
    i < |log| && Answers(log[i]) ==>
      Current(log[..i], log[i].unit).Some? && Current(log[..i], log[i].unit).value.block == log[i].block
  }

  ghost predicate Causal(c: Controller) {
    (forall u :: Agrees(c, u)) && (forall i :: JustifiedAt(c.log, i))
  }

  ghost predicate Inv(c: Controller) {
    c.Shaped() && Linear(c) && Causal(c)
  }

  // ---- keeping the record ledger ----------------------------------------------------------

  // Nothing about the park or the retained slot differs.
  ghost predicate SamePlaces(c: Controller, d: Controller) {
    && d.next == c.next && d.stations.Keys == c.stations.Keys
    && forall u | u in c.stations ::
         var s, t := c.stations[u].terminal, d.stations[u].terminal;
         t.inbound == s.inbound && t.headTaken == s.headTaken && t.retained == s.retained
  }

  predicate Quiet(e: Event) {
    e.Retired? || e.Waited?
  }

  lemma QuietLinear(c: Controller, d: Controller)
    requires Linear(c) && SamePlaces(c, d)
    requires d.log == c.log || (d.log != [] && d.log[..|d.log| - 1] == c.log && Quiet(d.log[|d.log| - 1]))
    ensures Linear(d)
  {
    forall u, s
      ensures Balanced(d, u, s)
    {
      assert Balanced(c, u, s);
      if d.log != c.log {
        assert d.log == c.log + [d.log[|d.log| - 1]];
        CountNote(c.log, d.log[|d.log| - 1], u, s);
      }
    }
  }

  lemma ArriveLinear(c: Controller, unit: int, keys: Attention, saveReply: bool, data: seq<byte>)
    requires Linear(c) && unit in c.stations
    ensures Linear(Arrive(c, unit, keys, saveReply, data))
  {
    hide Balanced;
    var d := Arrive(c, unit, keys, saveReply, data);
    if keys.attn || keys.sysreq || saveReply {
      QuietLinear(c, d);
    } else {
      forall u, s
        ensures Balanced(d, u, s)
      {
        ParkBalanced(c, unit, keys, data, u, s);
      }
    }
  }

  lemma ParkBalanced(c: Controller, unit: int, keys: Attention, data: seq<byte>, u: int, s: nat)
    requires unit in c.stations && Parks(c.stations[unit].terminal) && !keys.attn && !keys.sysreq
    requires Balanced(c, u, s)
    requires var t := c.stations[unit].terminal; t.inbound != [] ==> Balanced(c, unit, t.inbound[0].serial)
    ensures Balanced(Arrive(c, unit, keys, false, data), u, s)
  {
    hide Count;
    var t := c.stations[unit].terminal;
    if t.inbound != [] {
      CountNote(c.log, Lost(unit, t.inbound[0].serial), u, s);
      CountNote(c.log + [Lost(unit, t.inbound[0].serial)], Accepted(unit, c.next), u, s);
    } else {
      CountNote(c.log, Accepted(unit, c.next), u, s);
    }
  }

  lemma DeliverLinear(c: Controller, block: int)
    requires c.Shaped() && Linear(c)
    ensures Linear(Deliver(c, block))
  {
    hide Balanced, ReportToGuest, Set;
    var d := Deliver(c, block);
    if Deliverable(c, block) {
      var unit := ByteAt(c.guest, block + OFF_UNIT);
      forall u, s
        ensures Balanced(d, u, s)
      {
        ReportBalanced(c, d, unit, block, u, s);
      }
    }
  }

  lemma ReportBalanced(c: Controller, d: Controller, unit: int, block: int, u: int, s: nat)
    requires Linear(c) && unit in c.stations && StatusReady(c.stations[unit].terminal) && d.next == c.next
    requires d.stations == WithTerminal(c, unit, TakeStatus(c.stations[unit].terminal)).stations
    requires d.log == c.log + [Reported(unit, c.stations[unit].terminal.inbound[0].serial, block)]
    ensures Balanced(d, u, s)
  {
    hide Count;
    assert Balanced(c, u, s);
    CountNote(c.log, Reported(unit, c.stations[unit].terminal.inbound[0].serial, block), u, s);
  }

  lemma ClaimLinear(c: Controller, iob: int, w: Waiting)
    requires Linear(c) && PutReady(c, w)
    ensures Linear(FinishPut(c, iob, w))
  {
    hide Balanced;
    forall u, s
      ensures Balanced(FinishPut(c, iob, w), u, s)
    {
      ClaimBalanced(c, iob, w, u, s);
    }
  }

  lemma ClaimBalanced(c: Controller, iob: int, w: Waiting, u: int, s: nat)
    requires PutReady(c, w) && Parks(c.stations[w.unit].terminal) && Balanced(c, u, s)
    requires var t := c.stations[w.unit].terminal;
             && Balanced(c, w.unit, t.inbound[0].serial)
             && (t.retained.Some? ==> Balanced(c, w.unit, t.retained.value.serial))
    ensures Balanced(FinishPut(c, iob, w), u, s)
  {
    hide Count, GuestStorage.Complete, Erase;
    var t := c.stations[w.unit].terminal;
    var claim := Claimed(w.unit, t.inbound[0].serial, w.block, iob);
    if t.retained.Some? {
      var lost := Lost(w.unit, t.retained.value.serial);
      CountNote(c.log, lost, u, s);
      CountNote(c.log + [lost], claim, u, s);
    } else {
      CountNote(c.log, claim, u, s);
    }
  }

  // A read takes one record, and the log says whether it was used or lost.
  lemma ReadTakes(c: Controller, iob: int, p: PendingRead, expand: Expand)
    requires p.unit in c.stations && HasInput(c.stations[p.unit].terminal)
    ensures var d, t := FinishRead(c, iob, p, expand), c.stations[p.unit].terminal;
            && d.stations == WithTerminal(c, p.unit, TakeFields(t)).stations && d.next == c.next
            && (d.log == c.log + [Lost(p.unit, NextInput(t).serial)]
                || d.log == c.log + [FieldsRead(p.unit, NextInput(t).serial, p.block, iob)])
  {
    hide GuestStorage.Complete, Placed, ReadStatus, Held, FieldBytes, Erase, TakeFields, NextInput;
  }

  lemma ReadLinear(c: Controller, iob: int, p: PendingRead, expand: Expand)
    requires Linear(c) && p.unit in c.stations && HasInput(c.stations[p.unit].terminal)
    ensures Linear(FinishRead(c, iob, p, expand))
  {
    hide Balanced, FinishRead;
    var d, t := FinishRead(c, iob, p, expand), c.stations[p.unit].terminal;
    ReadTakes(c, iob, p, expand);
    forall u, s
      ensures Balanced(d, u, s)
    {
      TakeBalanced(c, d, p.unit, d.log[|d.log| - 1], u, s);
    }
  }

  lemma TakeBalanced(c: Controller, d: Controller, unit: int, e: Event, u: int, s: nat)
    requires unit in c.stations && Parks(c.stations[unit].terminal) && HasInput(c.stations[unit].terminal)
    requires Balanced(c, u, s) && Balanced(c, unit, NextInput(c.stations[unit].terminal).serial)
    requires d.stations == WithTerminal(c, unit, TakeFields(c.stations[unit].terminal)).stations && d.next == c.next
    requires d.log == c.log + [e] && (e.Lost? || e.FieldsRead?)
    requires e.unit == unit && e.serial == NextInput(c.stations[unit].terminal).serial
    ensures Balanced(d, u, s)
  {
    hide Count;
    CountNote(c.log, e, u, s);
  }

  lemma OffLinear(c: Controller, unit: int)
    requires Linear(c) && unit in c.stations
    ensures Linear(SwitchOff(c, unit))
  {
    hide Balanced;
    forall u, s
      ensures Balanced(SwitchOff(c, unit), u, s)
    {
      OffBalanced(c, unit, u, s);
    }
  }

  lemma OffBalanced(c: Controller, unit: int, u: int, s: nat)
    requires unit in c.stations && Parks(c.stations[unit].terminal) && Balanced(c, u, s)
    requires var t := c.stations[unit].terminal;
             && (t.inbound != [] ==> Balanced(c, unit, t.inbound[0].serial))
             && (t.retained.Some? ==> Balanced(c, unit, t.retained.value.serial))
    ensures Balanced(SwitchOff(c, unit), u, s)
  {
    hide Count;
    var t := c.stations[unit].terminal;
    var first := if t.inbound != [] then c.log + [Lost(unit, t.inbound[0].serial)] else c.log;
    if t.inbound != [] {
      CountNote(c.log, Lost(unit, t.inbound[0].serial), u, s);
    }
    if t.retained.Some? {
      CountNote(first, Lost(unit, t.retained.value.serial), u, s);
    }
  }

  lemma PassLinear(c: Controller, expand: Expand)
    requires c.Shaped() && Linear(c)
    ensures Linear(Pass(c, expand))
  {
    hide FinishWait, FinishPut, FinishRead, Linear;
    var w, p, r := FirstWait(c, 0), FirstPut(c, 0), FirstRead(c, 0);
    if w < |c.waits.entries| {
      WaitQuiet(c, c.waits.entries[w].key, c.waits.entries[w].value);
      QuietLinear(c, FinishWait(c, c.waits.entries[w].key, c.waits.entries[w].value));
    } else if p < |c.puts.entries| {
      ClaimLinear(c, c.puts.entries[p].key, c.puts.entries[p].value);
    } else if r < |c.inputs.entries| {
      ReadLinear(c, c.inputs.entries[r].key, c.inputs.entries[r].value, expand);
    }
  }

  lemma WaitQuiet(c: Controller, iob: int, w: Waiting)
    requires StatusFor(c, w.unit, w.block)
    ensures var d := FinishWait(c, iob, w);
            SamePlaces(c, d) && d.log == c.log + [Waited(w.unit, w.block, iob)] && d.stations == c.stations
  {
    hide ImportStatus, GuestStorage.Complete;
  }

  // ---- keeping the status table and the log in step -----------------------------------------

  // A status taken from the park in d was taken from the same record in c.
  ghost predicate HeadsKept(c: Controller, d: Controller, except: Option<int>) {
    forall u | u in d.stations && Some(u) != except ::
      var t := d.stations[u].terminal;
      t.headTaken && t.inbound != [] ==>
        && u in c.stations && c.stations[u].terminal.headTaken && c.stations[u].terminal.inbound != []
        && c.stations[u].terminal.inbound[0].serial == t.inbound[0].serial
  }

  ghost predicate StatusAfter(c: Controller, d: Controller, e: Event, u: int) {
    if u == e.unit && e.Reported? then Lookup(d.status, u).Some? && Lookup(d.status, u).value.block == e.block
    else if Ends(e, u) then Lookup(d.status, u) == None
    else Lookup(d.status, u) == Lookup(c.status, u)
  }

  lemma CausalSame(c: Controller, d: Controller)
    requires Causal(c) && d.log == c.log && d.status == c.status && HeadsKept(c, d, None)
    ensures Causal(d)
  {
    hide Lookup, Current;
    forall u
      ensures Agrees(d, u)
    {
      assert Agrees(c, u);
    }
  }

  lemma CausalNote(c: Controller, d: Controller, e: Event)
    requires Causal(c) && d.log == c.log + [e]
    requires Answers(e) ==> Current(c.log, e.unit).Some? && Current(c.log, e.unit).value.block == e.block
    requires forall u :: StatusAfter(c, d, e, u)
    requires HeadsKept(c, d, if e.Reported? then Some(e.unit) else None)
    requires e.Reported? && e.unit in d.stations && d.stations[e.unit].terminal.inbound != [] ==>
               d.stations[e.unit].terminal.inbound[0].serial == e.serial
    ensures Causal(d)
  {
    hide Lookup, Current;
    forall u
      ensures Agrees(d, u)
    {
      assert Agrees(c, u) && StatusAfter(c, d, e, u);
      CurrentNote(c.log, e, u);
    }
    forall i: nat
      ensures JustifiedAt(d.log, i)
    {
      assert JustifiedAt(c.log, i);
      if i < |c.log| {
        assert d.log[..i] == c.log[..i];
      } else if i == |c.log| {
        assert d.log[..i] == c.log;
      }
    }
  }

  lemma LostCausal(c: Controller, unit: int, serial: nat)
    requires Causal(c)
    ensures Causal(Note(c, Lost(unit, serial)))
  {
    CausalNote(c, Note(c, Lost(unit, serial)), Lost(unit, serial));
  }

  lemma ArriveCausal(c: Controller, unit: int, keys: Attention, saveReply: bool, data: seq<byte>)
    requires Causal(c) && unit in c.stations && Parks(c.stations[unit].terminal)
    ensures Causal(Arrive(c, unit, keys, saveReply, data))
  {
    hide Causal;
    var d, t := Arrive(c, unit, keys, saveReply, data), c.stations[unit].terminal;
    if keys.attn || keys.sysreq || saveReply {
      CausalSame(c, d);
    } else if t.inbound != [] {
      LostCausal(c, unit, t.inbound[0].serial);
      CausalNote(Note(c, Lost(unit, t.inbound[0].serial)), d, Accepted(unit, c.next));
    } else {
      CausalNote(c, d, Accepted(unit, c.next));
    }
  }

  lemma DeliverCausal(c: Controller, block: int)
    requires c.Shaped() && Causal(c)
    ensures Causal(Deliver(c, block)) && Deliver(c, block).Shaped()
  {
    hide Causal, Set, ReportToGuest;
    var d := Deliver(c, block);
    if Deliverable(c, block) {
      var unit := ByteAt(c.guest, block + OFF_UNIT);
      var r := c.stations[unit].terminal.inbound[0];
      ReportShape(c.guest, block, r.data);
      var saved := Status(block, StatusBytes(r.data));
      SetValid(c.status, unit, saved);
      forall u
        ensures StatusAfter(c, d, Reported(unit, r.serial, block), u)
      {
        SetLookup(c.status, unit, saved, u);
      }
      CausalNote(c, d, Reported(unit, r.serial, block));
    }
  }

  lemma ReportShape(g: Guest, block: int, data: seq<byte>)
    requires g.Valid() && |data| >= 3
    ensures ReportToGuest(g, block, data).Valid()
  {
  }

  lemma ClaimCausal(c: Controller, iob: int, w: Waiting)
    requires c.Shaped() && Causal(c) && PutReady(c, w)
    ensures Causal(FinishPut(c, iob, w)) && FinishPut(c, iob, w).Shaped()
  {
    hide Causal, GuestStorage.Complete, Erase;
    var d, t := FinishPut(c, iob, w), c.stations[w.unit].terminal;
    CompleteShape(c.guest, iob, 0);
    EraseValid(c.puts, iob, NO_WAIT);
    StatusIsCurrent(c, w.unit, w.block);
    if t.retained.Some? {
      LostCausal(c, w.unit, t.retained.value.serial);
      CurrentNote(c.log, Lost(w.unit, t.retained.value.serial), w.unit);
      CausalNote(Note(c, Lost(w.unit, t.retained.value.serial)), d, Claimed(w.unit, t.inbound[0].serial, w.block, iob));
    } else {
      CausalNote(c, d, Claimed(w.unit, t.inbound[0].serial, w.block, iob));
    }
  }

  lemma CompleteShape(g: Guest, iob: int, code: nat)
    requires g.Valid()
    ensures GuestStorage.Complete(g, iob, code).Valid() && |GuestStorage.Complete(g, iob, code).mem| == |g.mem|
  {
  }

  lemma StatusIsCurrent(c: Controller, unit: int, block: int)
    requires Causal(c) && StatusFor(c, unit, block)
    ensures Current(c.log, unit).Some? && Current(c.log, unit).value.block == block
  {
    assert Agrees(c, unit);
  }

  // Dropping a unit's status and logging why.
  lemma EraseCausal(c: Controller, d: Controller, unit: int, e: Event)
    requires c.Shaped() && Causal(c) && e.unit == unit && Ends(e, unit) && !e.Reported?
    requires d.log == c.log + [e] && d.status == Erase(c.status, unit, NO_STATUS) && HeadsKept(c, d, None)
    requires Answers(e) ==> StatusFor(c, unit, e.block)
    ensures Causal(d) && Valid(d.status)
  {
    hide Causal, Lookup, Erase;
    EraseValid(c.status, unit, NO_STATUS);
    if Answers(e) {
      StatusIsCurrent(c, unit, e.block);
    }
    forall u
      ensures StatusAfter(c, d, e, u)
    {
      EraseLookup(c.status, unit, NO_STATUS, u);
    }
    CausalNote(c, d, e);
  }

  lemma ReadCausal(c: Controller, iob: int, p: PendingRead, expand: Expand)
    requires c.Shaped() && Causal(c) && ReadReady(c, p) && Parks(c.stations[p.unit].terminal)
    ensures Causal(FinishRead(c, iob, p, expand)) && FinishRead(c, iob, p, expand).Shaped()
  {
    hide Causal, GuestStorage.Complete, Placed, ReadStatus, Held, FieldBytes, Erase;
    var d, t := FinishRead(c, iob, p, expand), c.stations[p.unit].terminal;
    var r, raw := NextInput(t), FieldBytes(t, p.command, expand);
    EraseValid(c.inputs, iob, NO_READ);
    if |raw| < 3 {
      CausalNote(c, d, Lost(p.unit, r.serial));
    } else if |p.destination| < p.capacity {
      CompleteShape(c.guest, iob, 4);
      CausalNote(c, d, Lost(p.unit, r.serial));
    } else {
      var told := ReadStatus(Placed(c.guest, p, raw), iob, raw);
      StatusShape(Placed(c.guest, p, raw), iob, raw);
      CompleteShape(told, iob, 0);
      EraseCausal(c, d, p.unit, FieldsRead(p.unit, r.serial, p.block, iob));
    }
  }

  lemma StatusShape(g: Guest, iob: int, raw: seq<byte>)
    requires g.Valid() && |raw| >= 3
    ensures ReadStatus(g, iob, raw).Valid()
  {
  }

  lemma ImportShape(g: Guest, iob: int, bytes: seq<byte>)
    requires g.Valid()
    ensures ImportStatus(g, iob, bytes).Valid()
  {
  }

  lemma WaitCausal(c: Controller, iob: int, w: Waiting)
    requires c.Shaped() && Causal(c) && WaitReady(c, w)
    ensures Causal(FinishWait(c, iob, w)) && FinishWait(c, iob, w).Shaped()
  {
    hide Causal, GuestStorage.Complete, ImportStatus, Erase, Lookup;
    var bytes := Lookup(c.status, w.unit).value.bytes;
    EraseValid(c.waits, iob, NO_WAIT);
    ImportShape(c.guest, iob, bytes);
    CompleteShape(ImportStatus(c.guest, iob, bytes), iob, 0);
    EraseCausal(c, FinishWait(c, iob, w), w.unit, Waited(w.unit, w.block, iob));
  }

  lemma PassCausal(c: Controller, expand: Expand)
    requires Inv(c)
    ensures Causal(Pass(c, expand)) && Pass(c, expand).Shaped()
  {
    hide FinishWait, FinishPut, FinishRead, Causal, Lookup;
    var w, p, r := FirstWait(c, 0), FirstPut(c, 0), FirstRead(c, 0);
    if w < |c.waits.entries| {
      WaitCausal(c, c.waits.entries[w].key, c.waits.entries[w].value);
    } else if p < |c.puts.entries| {
      ClaimCausal(c, c.puts.entries[p].key, c.puts.entries[p].value);
    } else if r < |c.inputs.entries| {
      ReadCausal(c, c.inputs.entries[r].key, c.inputs.entries[r].value, expand);
    }
  }

  lemma OffCausal(c: Controller, unit: int)
    requires Causal(c) && unit in c.stations
    ensures Causal(SwitchOff(c, unit))
  {
    hide Causal;
    var t := c.stations[unit].terminal;
    var off := WithTerminal(c, unit, PowerOff(t));
    CausalSame(c, off);
    if t.inbound != [] {
      LostCausal(off, unit, t.inbound[0].serial);
    }
    if t.retained.Some? {
      LostCausal(if t.inbound != [] then Note(off, Lost(unit, t.inbound[0].serial)) else off, unit,
                 t.retained.value.serial);
    }
  }

  // ---- guest requests move no record ----------------------------------------------------------

  lemma CalmInv(c: Controller, d: Controller)
    requires Inv(c) && d.Shaped() && SamePlaces(c, d) && d.log == c.log && d.status == c.status
    ensures Inv(d)
  {
    QuietLinear(c, d);
    CausalSame(c, d);
  }

  lemma EndedInv(c: Controller, d: Controller, unit: int, e: Event)
    requires Inv(c) && d.Shaped() && SamePlaces(c, d) && Quiet(e) && e.unit == unit
    requires d.log == c.log + [e] && d.status == Erase(c.status, unit, NO_STATUS)
    requires Answers(e) ==> StatusFor(c, unit, e.block)
    ensures Inv(d)
  {
    hide Linear, Causal, Erase;
    assert d.log[..|d.log| - 1] == c.log;
    QuietLinear(c, d);
    EraseCausal(c, d, unit, e);
  }

  lemma ShapeOf(c: Controller, d: Controller)
    requires c.Shaped() && d.guest.Valid()
    requires d.inputs == c.inputs && d.staging == c.staging && d.status == c.status && d.waits == c.waits
             && d.puts == c.puts
    ensures d.Shaped()
  {
  }

  lemma CompleteInv(c: Controller, iob: int, code: nat)
    requires Inv(c)
    ensures Inv(Controllers.Complete(c, iob, code))
  {
    hide Linear, Causal, GuestStorage.Complete;
    CompleteShape(c.guest, iob, code);
    CalmInv(c, Controllers.Complete(c, iob, code));
  }

  lemma OpenInv(c: Controller, iob: int, withInvite: bool)
    requires Inv(c)
    ensures Inv(Open(c, iob, withInvite)) && Open(c, iob, withInvite).stations == c.stations
  {
    hide Linear, Causal, Erase, Valid;
    var d := Open(c, iob, withInvite);
    assert d.guest.Valid() && d.stations == c.stations;
    if withInvite {
      var e := d.log[|d.log| - 1];
      EraseValid(c.status, e.unit, NO_STATUS);
      EndedInv(c, d, e.unit, e);
    } else {
      CalmInv(c, d);
    }
  }

  lemma TransmitKeeps(t: Terminal, data: seq<byte>, withInvite: bool, net: Transport)
    ensures var r := Transmit(t, data, withInvite, net).terminal;
            r.inbound == t.inbound && r.headTaken == t.headTaken && r.retained == t.retained
    ensures withInvite ==> Transmit(t, data, withInvite, net).sent == net.sent
  {
    hide DecodeSaved, ModeAfter;
  }

  lemma OutputInv(c: Controller, iob: int, unit: int, withInvite: bool, net: Transport)
    requires Inv(c) && unit in c.stations
    ensures Inv(OutputData(c, iob, unit, withInvite, net))
  {
    hide Linear, Causal, GuestStorage.Complete, Transmit, Set, Arm, Gather, Retain, Valid;
    var field, length := Addr24At(c.guest, iob + OFF_BUFFER), HalfAt(c.guest, iob + OFF_LENGTH);
    CompleteInv(c, iob, 4);
    var source := B.CaptureAddresses(c.guest, field, length);
    if length != 0 && source.Some? {
      B.CapturedInside(c.guest, field, length);
      var data := Gather(c.guest.mem, source.value);
      var issued := Transmit(c.stations[unit].terminal, data, withInvite, net);
      TransmitKeeps(c.stations[unit].terminal, data, withInvite, net);
      var put := WithTerminal(c, unit, issued.terminal);
      assert Inv(put) by {
        hide *;
        TerminalInv(c, unit, issued.terminal);
      }
      CompleteInv(put, iob, 0);
      RetainInv(put, iob, unit, field, source.value[0]);
    }
  }

  lemma TerminalInv(c: Controller, unit: int, t: Terminal)
    requires Inv(c) && unit in c.stations
    requires var old_ := c.stations[unit].terminal;
             t.inbound == old_.inbound && t.headTaken == old_.headTaken && t.retained == old_.retained
    ensures Inv(WithTerminal(c, unit, t))
  {
    hide Linear, Causal;
    CalmInv(c, WithTerminal(c, unit, t));
  }

  lemma ArmShape(g: Guest, iob: int)
    requires g.Valid()
    ensures Arm(g, iob).Valid() && |Arm(g, iob).mem| == |g.mem|
  {
  }

  lemma RetainInv(c: Controller, iob: int, unit: int, field: addr24, first: int)
    requires Inv(c)
    ensures Inv(Retain(c, iob, unit, field, first))
  {
    hide Linear, Causal, Set, Arm, UnitBlock, Valid;
    SetValid(c.staging, unit, first - field % 0x800);
    SetValid(c.puts, iob, Waiting(unit, UnitBlock(Arm(c.guest, iob), iob)));
    ArmShape(c.guest, iob);
    CalmInv(c, Retain(c, iob, unit, field, first));
  }

  lemma RespondInv(c: Controller, iob: int, unit: int)
    requires Inv(c) && unit in c.stations
    ensures Inv(Respond(c, iob, unit))
  {
    hide Linear, Causal, Set, Erase, Arm, UnitBlock, Valid, Lookup, ImportStatus, GuestStorage.Complete;
    var d, block := Respond(c, iob, unit), UnitBlock(c.guest, iob);
    if StatusFor(c, unit, block) {
      var bytes := Lookup(c.status, unit).value.bytes;
      ImportShape(c.guest, iob, bytes);
      CompleteShape(ImportStatus(c.guest, iob, bytes), iob, 0);
      EraseValid(c.status, unit, NO_STATUS);
      EndedInv(c, d, unit, Waited(unit, block, iob));
    } else {
      ArmShape(c.guest, iob);
      SetValid(c.waits, iob, Waiting(unit, block));
      CalmInv(c, d);
    }
  }

  lemma FieldsInv(c: Controller, iob: int, unit: int)
    requires Inv(c) && unit in c.stations
    ensures Inv(RequestFields(c, iob, unit))
  {
    hide Linear, Causal, Set, UnitBlock, Valid, Lookup, GuestStorage.Complete, Displacement;
    CompleteInv(c, iob, 4);
    var d := RequestFields(c, iob, unit);
    var field, capacity := Addr24At(c.guest, iob + OFF_BUFFER), HalfAt(c.guest, iob + OFF_LENGTH);
    var destination := B.CaptureAddresses(c.guest, field, capacity);
    if Lookup(c.inputs, iob).None? && destination.Some? {
      SetValid(c.inputs, iob, PendingRead(unit, UnitBlock(c.guest, iob), ByteAt(c.guest, iob + OFF_COMMAND), field,
                                          destination.value, capacity, Displacement(c, iob, unit)));
      CalmInv(c, d);
    }
  }

  lemma FailedShape(g: Guest, iob: int, sense: seq<byte>)
    requires g.Valid() && |sense| == 12
    ensures Failed(g, iob, sense).Valid()
  {
  }

  lemma PutInv(c: Controller, iob: int, unit: int, withInvite: bool, net: Transport)
    requires Inv(c) && unit in c.stations && unit == ByteAt(c.guest, iob + OFF_UNIT)
    ensures Inv(Put(c, iob, unit, withInvite, net))
  {
    hide Linear, Causal, Open, OutputData, Respond, GuestStorage.Complete, Inv;
    OpenInv(c, iob, withInvite);
    OutputInv(Open(c, iob, withInvite), iob, unit, withInvite, net);
    RespondInv(c, iob, unit);
    CompleteInv(c, iob, 4);
  }

  lemma RequestInv(c: Controller, iob: int, net: Transport)
    requires Inv(c)
    ensures Inv(Request(c, iob, net))
  {
    hide Linear, Causal, Put, RequestFields, GuestStorage.Complete, Failed, InviteAll, NotAttached, CancelInvite;
    var unit := ByteAt(c.guest, iob + OFF_UNIT);
    CompleteInv(c, iob, 4);
    InviteInv(c, iob);
    if unit in c.stations {
      DisplayInv(c, iob, unit);
      PutInv(c, iob, unit, false, net);
      PutInv(c, iob, unit, true, net);
      FieldsInv(c, iob, unit);
    }
  }

  lemma InviteInv(c: Controller, iob: int)
    requires Inv(c)
    ensures Inv(InviteAll(c, iob))
  {
    hide Linear, Causal;
    CalmInv(c, InviteAll(c, iob));
  }

  lemma DisplayInv(c: Controller, iob: int, unit: int)
    requires Inv(c) && unit in c.stations
    ensures Inv(c.(guest := NotAttached(c.guest, iob)))
    ensures Inv(Controllers.Complete(WithTerminal(c, unit, CancelInvite(c.stations[unit].terminal)), iob, 0))
  {
    hide Linear, Causal, Failed, GuestStorage.Complete;
    FailedShape(c.guest, iob, [0x28, 0, 0, 0, 0x02, 0x03, 0, 0, 0, 0, 0, 0]);
    CalmInv(c, c.(guest := NotAttached(c.guest, iob)));
    TerminalInv(c, unit, CancelInvite(c.stations[unit].terminal));
    CompleteInv(WithTerminal(c, unit, CancelInvite(c.stations[unit].terminal)), iob, 0);
  }

  lemma FailInv(c: Controller, unit: int)
    requires Inv(c)
    ensures Inv(FailOne(c, unit))
  {
    hide Linear, Causal, Erase, Valid, FailAt;
    var p, r, w := FirstWaitOf(c.puts.entries, unit, 0), FirstReadOf(c.inputs.entries, unit, 0),
                   FirstWaitOf(c.waits.entries, unit, 0);
    if p < |c.puts.entries| {
      EraseValid(c.puts, c.puts.entries[p].key, NO_WAIT);
      FailAtInv(c, c.(puts := Erase(c.puts, c.puts.entries[p].key, NO_WAIT)), unit, c.puts.entries[p].key);
    } else if r < |c.inputs.entries| {
      EraseValid(c.inputs, c.inputs.entries[r].key, NO_READ);
      FailAtInv(c, c.(inputs := Erase(c.inputs, c.inputs.entries[r].key, NO_READ)), unit, c.inputs.entries[r].key);
    } else if w < |c.waits.entries| {
      EraseValid(c.waits, c.waits.entries[w].key, NO_WAIT);
      FailAtInv(c, c.(waits := Erase(c.waits, c.waits.entries[w].key, NO_WAIT)), unit, c.waits.entries[w].key);
    }
  }

  lemma FailAtInv(c: Controller, less: Controller, unit: int, iob: int)
    requires Inv(c) && Valid(less.inputs) && Valid(less.waits) && Valid(less.puts)
    requires less == c.(inputs := less.inputs, waits := less.waits, puts := less.puts)
    ensures Inv(FailAt(less, unit, iob))
  {
    hide Linear, Causal, Erase, Valid, Failed;
    EraseValid(c.staging, unit, 0);
    EraseValid(c.status, unit, NO_STATUS);
    FailedShape(c.guest, iob, [0x22, 0, 0, 0, 0, 0, 0, 0x80, 0, 0, 0, 0]);
    EndedInv(c, FailAt(less, unit, iob), unit, Retired(unit));
  }

  lemma CancelInv(c: Controller, iob: int)
    requires Inv(c)
    ensures Inv(Cancel(c, iob))
  {
    hide Linear, Causal, Erase, Valid;
    EraseValid(c.inputs, iob, NO_READ);
    EraseValid(c.waits, iob, NO_WAIT);
    EraseValid(c.puts, iob, NO_WAIT);
    CalmInv(c, Cancel(c, iob));
  }

  // ---- every run ----------------------------------------------------------------------------------

  lemma StartInv(c: Controller)
    requires Started(c)
    ensures Inv(c)
  {
    forall u
      ensures Agrees(c, u)
    {
    }
  }

  lemma StepInv(c: Controller, step: Step, expand: Expand)
    requires Inv(c)
    ensures Inv(Apply(c, step, expand))
  {
    hide Linear, Causal, Arrive, Deliver, Request, Pass, SwitchOff, FailOne, Cancel;
    match step {
      case TerminalRecord(unit, keys, saveReply, data) =>
        if unit in c.stations {
          ParksAt(c, unit);
          ArriveLinear(c, unit, keys, saveReply, data);
          ArriveCausal(c, unit, keys, saveReply, data);
          ArriveShape(c, unit, keys, saveReply, data);
        }
      case StatusPoll(block) =>
        DeliverLinear(c, block);
        DeliverCausal(c, block);
      case GuestRequest(iob, net) => RequestInv(c, iob, net);
      case ControllerPass =>
        PassLinear(c, expand);
        PassCausal(c, expand);
      case PowerSwitch(unit) =>
        if unit in c.stations {
          OffLinear(c, unit);
          OffCausal(c, unit);
          OffShape(c, unit);
        }
      case FailRequest(unit) => FailInv(c, unit);
      case Terminate(iob) => CancelInv(c, iob);
      case Bind(unit, detached) => CalmInv(c, Apply(c, step, expand));
      case GuestRuns(mem, atr) => CalmInv(c, Apply(c, step, expand));
    }
  }

  lemma ParksAt(c: Controller, unit: int)
    requires Linear(c) && unit in c.stations
    ensures Parks(c.stations[unit].terminal)
  {
  }

  lemma ArriveShape(c: Controller, unit: int, keys: Attention, saveReply: bool, data: seq<byte>)
    requires c.Shaped() && unit in c.stations
    ensures Arrive(c, unit, keys, saveReply, data).Shaped()
  {
    ShapeOf(c, Arrive(c, unit, keys, saveReply, data));
  }

  lemma OffShape(c: Controller, unit: int)
    requires c.Shaped() && unit in c.stations
    ensures SwitchOff(c, unit).Shaped()
  {
    ShapeOf(c, SwitchOff(c, unit));
  }

  ghost function Run(start: Controller, steps: seq<Step>, expand: Expand): (c: Controller)
    requires Started(start)
    ensures Inv(c)
  {
    if steps == [] then StartInv(start); start
    else
      var before := Run(start, steps[..|steps| - 1], expand);
      StepInv(before, steps[|steps| - 1], expand);
      Apply(before, steps[|steps| - 1], expand)
  }

  // Over every run a terminal record is linear.
  lemma RecordsAreLinear(start: Controller, steps: seq<Step>, expand: Expand, u: int, s: nat)
    requires Started(start)
    ensures var c := Run(start, steps, expand);
            && Count(c.log, ACCEPTED, u, s)
               == One(Parked(c, u, s)) + One(Retained(c, u, s)) + Count(c.log, READ, u, s) + Count(c.log, LOST, u, s)
            && Count(c.log, ACCEPTED, u, s) <= 1
            && Count(c.log, REPORTED, u, s) <= 1 && Count(c.log, CLAIMED, u, s) <= 1 && Count(c.log, READ, u, s) <= 1
            && (u in c.stations ==> Parks(c.stations[u].terminal))
  {
    assert Balanced(Run(start, steps, expand), u, s);
  }

  // Over every run a class-C1 wait, a retained PUT-with-invite or a Read Input
  // Fields is answered only after an AID status was reported to the same unit
  // block of the same unit, and before anything consumed or replaced it.
  lemma AnswersFollowStatus(start: Controller, steps: seq<Step>, expand: Expand, i: nat)
    requires Started(start)
    ensures var log := Run(start, steps, expand).log;
            i < |log| && Answers(log[i]) ==>
              exists s: nat, j: nat :: ReportedAt(log[..i], log[i].unit, Seen(log[i].block, s), j)
  {
    var log := Run(start, steps, expand).log;
    if i < |log| && Answers(log[i]) {
      assert JustifiedAt(log, i);
      CurrentWasReported(log[..i], log[i].unit);
      var seen := Current(log[..i], log[i].unit).value;
      var j: nat :| ReportedAt(log[..i], log[i].unit, seen, j);
      assert ReportedAt(log[..i], log[i].unit, Seen(log[i].block, seen.serial), j);
    }
  }

  // A retained PUT-with-invite claims the very record whose status answered it
  // exactly when no later record has taken the park since.
  lemma ClaimMatchesReport(c: Controller, w: Waiting)
    requires Inv(c) && PutReady(c, w)
    ensures Current(c.log, w.unit).Some?
    ensures Current(c.log, w.unit).value.serial == c.stations[w.unit].terminal.inbound[0].serial
       <==> c.stations[w.unit].terminal.headTaken
  {
    var s := c.stations[w.unit].terminal.inbound[0].serial;
    assert Agrees(c, w.unit) && Balanced(c, w.unit, s);
    CurrentWasReported(c.log, w.unit);
  }

  // And another record may arrive in between: the request then claims that
  // one, on the status of a record already lost.
  lemma OvertakenStatus(c: Controller, w: Waiting, iob: int, data: seq<byte>)
    requires Inv(c) && PutReady(c, w)
    ensures var d := Arrive(c, w.unit, Attention(false, false), false, data);
            && PutReady(d, w)
            && Current(d.log, w.unit) == Current(c.log, w.unit) && Current(d.log, w.unit).Some?
            && FinishPut(d, iob, w).log[|FinishPut(d, iob, w).log| - 1] == Claimed(w.unit, c.next, w.block, iob)
            && Current(d.log, w.unit).value.serial != c.next
  {
    hide Lookup, GuestStorage.Complete, Erase;
    var lost := Lost(w.unit, c.stations[w.unit].terminal.inbound[0].serial);
    CurrentNote(c.log, lost, w.unit);
    CurrentNote(c.log + [lost], Accepted(w.unit, c.next), w.unit);
    assert Agrees(c, w.unit) && Balanced(c, w.unit, c.next);
    CurrentWasReported(c.log, w.unit);
  }

  // ---- what reaches guest storage ---------------------------------------------------------------

  lemma {:induction false} StoreEachPokes(g: Guest, addresses: seq<int>, data: seq<byte>)
    requires |data| <= |addresses| && Inside(|g.mem|, addresses)
    ensures StoreEach(g, addresses, data) == g.(mem := PokeAll(g.mem, addresses[..|data|], data))
  {
    if data != [] {
      var n := |data| - 1;
      StoreEachPokes(g, addresses, data[..n]);
      assert addresses[..|data|][..n] == addresses[..n];
    }
  }

  lemma StoredAt(g: Guest, at: int, data: seq<byte>)
    requires InRange(|g.mem|, at, |data|)
    ensures StoreAt(g, at, data) == GuestStorage.Write(g, at, data)
  {
    StoreEachPokes(g, Range(at, |data|), data);
    assert Range(at, |data|)[..|data|] == Range(at, |data|);
    PokeAllAppend(g.mem, [], [], at, data);
    assert [] + Range(at, |data|) == Range(at, |data|) && [] + data == data;
  }

  // Polling a unit block moves the parked record's AID and cursor there, opens
  // the input gate unless the block is in class C0, and touches nothing else.
  ghost predicate Told(m: seq<byte>, n: seq<byte>, block: int, data: seq<byte>)
    requires |data| >= 3 && InRange(|m|, block, 0x8E) && |n| == |m|
  {
    && n[block + 0x13..block + 0x1F] == [0x10, data[2], data[0], data[1], 0, 0, 0, 0, 0, 0, 0, 0]
    && (m[block + 0x0A] != 0xC0 ==>
          && n[block + 0x8D] == data[2]
          && n[block + 0x7C] == if m[block + 0x7C] / 0x10 % 2 == 1 then m[block + 0x7C] else m[block + 0x7C] + 0x10)
    && forall x | 0 <= x < |m| && !(block + 0x13 <= x < block + 0x1F)
                  && (m[block + 0x0A] == 0xC0 || (x != block + 0x8D && x != block + 0x7C)) ::
         n[x] == m[x]
  }

  lemma DeliverTells(c: Controller, block: int)
    requires c.Shaped() && Deliverable(c, block) && InRange(|c.guest.mem|, block, 0x8E)
    ensures var data, n := c.stations[ByteAt(c.guest, block + OFF_UNIT)].terminal.inbound[0].data,
                        Deliver(c, block).guest.mem;
            |n| == |c.guest.mem| && Told(c.guest.mem, n, block, data)
  {
    hide Told, ReportToGuest, Set, Valid;
    ReportTells(c.guest, block, c.stations[ByteAt(c.guest, block + OFF_UNIT)].terminal.inbound[0].data);
  }

  lemma ReportTells(g: Guest, block: int, data: seq<byte>)
    requires |data| >= 3 && InRange(|g.mem|, block, 0x8E)
    ensures var n := ReportToGuest(g, block, data).mem; |n| == |g.mem| && Told(g.mem, n, block, data)
  {
    hide StoreAt;
    StoredAt(g, block + OFF_STATUS, StatusBytes(data));
    var saved := StoreAt(g, block + OFF_STATUS, StatusBytes(data));
    assert saved.mem[block + 0x13..block + 0x1F] == StatusBytes(data);
    var n := ReportToGuest(g, block, data).mem;
    assert n[block + 0x13..block + 0x1F] == saved.mem[block + 0x13..block + 0x1F];
  }

  // A completed read puts the response's field bytes, as many as fit, at the
  // captured destination in order.
  lemma ReadPlaces(g: Guest, p: PendingRead, raw: seq<byte>)
    requires |raw| >= 3 && p.capacity <= |p.destination|
    requires Inside(|g.mem|, p.destination) && Distinct(p.destination)
    requires !CountedForm(p)
    ensures var n := Fit(|raw| - 3, p.capacity);
            && Gather(Placed(g, p, raw).mem, p.destination[..n]) == raw[3..3 + n]
            && forall x | 0 <= x < |g.mem| && Untouched(p.destination[..n], x) :: Placed(g, p, raw).mem[x] == g.mem[x]
  {
    hide Gather, PokeAll, StoreEach;
    var n := Fit(|raw| - 3, p.capacity);
    assert raw[3..][..n] == raw[3..3 + n];
    StoreEachPokes(g, p.destination, raw[3..][..n]);
    DistinctReadBack(g.mem, p.destination[..n], raw[3..][..n]);
  }

  // The 18xx form of command 32 says how much there was before giving it.
  lemma CountedReadPlaces(g: Guest, p: PendingRead, raw: seq<byte>)
    requires 3 <= |raw| < 0x1_0003 && p.capacity <= |p.destination|
    requires Inside(|g.mem|, p.destination) && Distinct(p.destination)
    requires CountedForm(p) && p.capacity > 0
    ensures var n, out := Min(|raw| - 3, p.capacity - 8), Placed(g, p, raw).mem;
            && Gather(out, p.destination[..6]) == Repeat(0xEE, 6)
            && Half(out[p.destination[6]], out[p.destination[7]]) == |raw| - 3
            && Gather(out, p.destination[8..8 + n]) == raw[3..3 + n]
  {
    hide Gather, Distinct, StoreEach;
    var n := Min(|raw| - 3, p.capacity - 8);
    var data := Repeat(0xEE as byte, 6) + [(|raw| - 3) / 0x100 % 0x100, (|raw| - 3) % 0x100] + raw[3..][..n];
    var out := Placed(g, p, raw).mem;
    assert out == StoreEach(g, p.destination, data).mem;
    GatheredBack(g, p.destination, data);
    GatherSlice(out, p.destination, data, 0, 6);
    GatherSlice(out, p.destination, data, 8, 8 + n);
    assert raw[3..][..n] == raw[3..3 + n] && data[8..8 + n] == raw[3..][..n];
    assert data[..6] == Repeat(0xEE, 6);
    assert out[p.destination[6]] == data[6] && out[p.destination[7]] == data[7];
  }

  lemma GatherSlice(mem: seq<byte>, destination: seq<int>, data: seq<byte>, lo: nat, hi: nat)
    requires Inside(|mem|, destination) && lo <= hi <= |data| <= |destination|
    requires forall i | 0 <= i < |data| :: mem[destination[i]] == data[i]
    ensures Gather(mem, destination[lo..hi]) == data[lo..hi]
  {
    var part := destination[lo..hi];
    forall i | 0 <= i < hi - lo
      ensures Gather(mem, part)[i] == data[lo..hi][i]
    {
      assert part[i] == destination[lo + i];
    }
  }

  lemma GatheredBack(g: Guest, destination: seq<int>, data: seq<byte>)
    requires |data| <= |destination| && Inside(|g.mem|, destination) && Distinct(destination)
    ensures var out := StoreEach(g, destination, data).mem;
            Gather(out, destination[..|data|]) == data && forall i | 0 <= i < |data| :: out[destination[i]] == data[i]
  {
    var a := destination[..|data|];
    StoreEachPokes(g, destination, data);
    DistinctReadBack(g.mem, a, data);
    var out := StoreEach(g, destination, data).mem;
    forall i | 0 <= i < |data|
      ensures out[destination[i]] == data[i]
    {
      assert Gather(out, a)[i] == data[i];
    }
  }
}
