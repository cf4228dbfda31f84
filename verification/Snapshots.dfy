// The machine definition and the volatile state as the checkpoint writes them,
// field by field, and the reader that takes them back.
module Snapshots {
  import opened Bytes
  import opened SnapshotCodec

  const MAX_OUTPUT: nat := 0x100_0000
  const MAX_STATIONS: nat := 1024

  // Bounds and shapes hold of a stream's parts exactly when of the whole.
  lemma SplitStream(a: seq<Value>, b: seq<Value>, rest: seq<byte>)
    ensures EncodeAll(a + b) + rest == EncodeAll(a) + (EncodeAll(b) + rest)
    ensures AllReadable(a + b) <==> AllReadable(a) && AllReadable(b)
    ensures AllCountable(a + b) <==> AllCountable(a) && AllCountable(b)
  {
    hide EncodeAll;
    EncodeAppend(a, b);
    assert (forall i | 0 <= i < |a| :: (a + b)[i] == a[i]) && forall i | 0 <= i < |b| :: (a + b)[|a| + i] == b[i];
    assert EncodeAll(a) + EncodeAll(b) + rest == EncodeAll(a) + (EncodeAll(b) + rest);
  }

  // The value at a place in a list that was read; each is asked only of its own
  // kind, and an absent one is the kind's default.
  function ByteAt(v: seq<Value>, i: nat): byte {
    if i < |v| && v[i].Byte? then v[i].b else 0
  }

  function FlagAt(v: seq<Value>, i: nat): bool {
    if i < |v| && v[i].Flag? then v[i].f else false
  }

  function WordAt(v: seq<Value>, i: nat): halfword {
    if i < |v| && v[i].Word? then v[i].h else 0
  }

  function IntAt(v: seq<Value>, i: nat): i32 {
    if i < |v| && v[i].Int? then v[i].i else 0
  }

  function LongAt(v: seq<Value>, i: nat): i64 {
    if i < |v| && v[i].Long? then v[i].l else 0
  }

  function UnsignedAt(v: seq<Value>, i: nat): u64 {
    if i < |v| && v[i].Unsigned? then v[i].u else 0
  }

  function TextAt(v: seq<Value>, i: nat): seq<byte> {
    if i < |v| && v[i].Text? then v[i].s else []
  }

  function IntsAt(v: seq<Value>, i: nat): seq<i32> {
    if i < |v| && v[i].Ints? then v[i].list else []
  }

  function TextsAt(v: seq<Value>, i: nat): seq<seq<byte>> {
    if i < |v| && v[i].Texts? then v[i].texts else []
  }

  function BlobAt(v: seq<Value>, i: nat): Option<seq<byte>> {
    if i < |v| && v[i].Blob? then v[i].data else None
  }

  lemma NothingWritten(rest: seq<byte>)
    ensures EncodeAll([]) + rest == rest && AllReadable([])
  {
    assert [] + rest == rest;
  }

  // ---- records ---------------------------------------------------------------------

  // A kind of record: the calls that write one, the calls that read one, and
  // how the values read make it again.
  datatype Form<!T> = Form(write: T -> seq<Value>, calls: seq<Shape>, make: seq<Value> -> T)

  // Writer and reader agree on x, call by call and field by field.
  ghost predicate Fits<T>(f: Form<T>, x: T) {
    Shapes(f.write(x)) == f.calls && f.make(f.write(x)) == x
  }

  function ReadRecord<T>(f: Form<T>, s: seq<byte>): Option<Got<T>> {
    match TakeAll(f.calls, s)
    case None => None
    case Some(g) => Some(Got(f.make(g.value), g.rest))
  }

  lemma RecordReadsBack<T>(f: Form<T>, x: T, rest: seq<byte>)
    requires Fits(f, x) && AllCountable(f.write(x))
    ensures ReadRecord(f, EncodeAll(f.write(x)) + rest) == if AllReadable(f.write(x)) then Some(Got(x, rest)) else None
  {
    AllReadBack(f.write(x), rest);
  }

  // Any number of them, one after another.
  function WriteList<T>(f: Form<T>, list: seq<T>): seq<Value> {
    if list == [] then [] else f.write(list[0]) + WriteList(f, list[1..])
  }

  function ReadList<T>(f: Form<T>, s: seq<byte>, n: nat): Option<Got<seq<T>>>
    decreases n
  {
    if n == 0 then Some(Got([], s))
    else
      match ReadRecord(f, s)
      case None => None
      case Some(g) =>
        match ReadList(f, g.rest, n - 1)
        case None => None
        case Some(more) => Some(Got([g.value] + more.value, more.rest))
  }

  lemma {:induction false} ListReadsBack<T>(f: Form<T>, list: seq<T>, rest: seq<byte>)
    requires (forall i | 0 <= i < |list| :: Fits(f, list[i])) && AllCountable(WriteList(f, list))
    ensures ReadList(f, EncodeAll(WriteList(f, list)) + rest, |list|)
         == if AllReadable(WriteList(f, list)) then Some(Got(list, rest)) else None
  {
    hide ReadRecord, EncodeAll, AllReadable, AllCountable, Fits;
    if list == [] {
      NothingWritten(rest);
    } else {
      var first, tail := f.write(list[0]), WriteList(f, list[1..]);
      SplitStream(first, tail, rest);
      RecordReadsBack(f, list[0], EncodeAll(tail) + rest);
      ListReadsBack(f, list[1..], rest);
      assert [list[0]] + list[1..] == list;
    }
  }

  // A count, then that many records.
  function WriteCounted<T>(f: Form<T>, list: seq<T>): seq<Value> {
    [Int(Narrow(|list|))] + WriteList(f, list)
  }

  function ReadCounted<T>(f: Form<T>, s: seq<byte>): Option<Got<seq<T>>> {
    match TakeCount(s, MAX_STATIONS)
    case None => None
    case Some(n) => ReadList(f, n.rest, n.value)
  }

  lemma CountedReadsBack<T>(f: Form<T>, list: seq<T>, rest: seq<byte>)
    requires forall i | 0 <= i < |list| :: Fits(f, list[i])
    requires AllCountable(WriteCounted(f, list)) && |list| < 0x8000_0000
    ensures ReadCounted(f, EncodeAll(WriteCounted(f, list)) + rest)
         == if AllReadable(WriteCounted(f, list)) && |list| <= MAX_STATIONS then Some(Got(list, rest)) else None
  {
    hide EncodeAll, AllReadable, AllCountable, TakeCount, Narrow, WriteList, ReadList, Fits;
    SplitStream([Int(Narrow(|list|))], WriteList(f, list), rest);
    CountWritten(|list|, MAX_STATIONS, EncodeAll(WriteList(f, list)) + rest);
    if |list| <= MAX_STATIONS {
      ListReadsBack(f, list, rest);
    }
  }

  lemma OneValue(v: Value)
    ensures EncodeAll([v]) == Encode(v)
  {
    assert [v][1..] == [] && Encode(v) + [] == Encode(v);
  }

  // A count of records, written by a 32-bit cast and read within a limit.
  lemma CountWritten(n: nat, max: nat, rest: seq<byte>)
    requires n < 0x8000_0000
    ensures TakeCount(EncodeAll([Int(Narrow(n))]) + rest, max) == if n <= max then Some(Got(n, rest)) else None
    ensures AllReadable([Int(Narrow(n))])
  {
    OneValue(Int(Narrow(n)));
    CountReadsBack(n, max, rest);
  }

  // ---- the records of the checkpoint -------------------------------------------------

  // One configured station.
  datatype StationConfig = StationConfig(
    port: i32, address: i32, role: seq<byte>, deviceCode: seq<byte>, deviceCodeGiven: bool, listenHost: seq<byte>,
    listenPort: i32, signOnAtIpl: bool, printerOutput: seq<byte>, printerOutputPath: seq<byte>,
    printerPaper: seq<byte>)

  function WriteStationConfig(x: StationConfig): seq<Value> {
    [Int(x.port), Int(x.address), Text(x.role), Text(x.deviceCode), Flag(x.deviceCodeGiven), Text(x.listenHost),
     Int(x.listenPort), Flag(x.signOnAtIpl), Text(x.printerOutput), Text(x.printerOutputPath), Text(x.printerPaper)]
  }

  function StationConfigOf(v: seq<Value>): StationConfig {
    StationConfig(IntAt(v, 0), IntAt(v, 1), TextAt(v, 2), TextAt(v, 3), FlagAt(v, 4), TextAt(v, 5), IntAt(v, 6),
                  FlagAt(v, 7), TextAt(v, 8), TextAt(v, 9), TextAt(v, 10))
  }

  const STATION_CONFIG :=
    Form(WriteStationConfig, [INT, INT, TEXT, TEXT, FLAG, TEXT, INT, FLAG, TEXT, TEXT, TEXT], StationConfigOf)

  lemma StationConfigFits(x: StationConfig)
    ensures Fits(STATION_CONFIG, x)
  {
  }

  // The machine the definition names.
  datatype Definition = Definition(
    model: seq<byte>, cspType: seq<byte>, taskWorkAreaSectors: i32, hostModel: seq<byte>, hostProcessorFeature: i32,
    hostProcessorModel: seq<byte>, iplType: seq<byte>, iplSourceName: seq<byte>)

  function WriteDefinition(x: Definition): seq<Value> {
    [Text(x.model), Text(x.cspType), Int(x.taskWorkAreaSectors), Text(x.hostModel), Int(x.hostProcessorFeature),
     Text(x.hostProcessorModel), Text(x.iplType), Text(x.iplSourceName)]
  }

  function DefinitionOf(v: seq<Value>): Definition {
    Definition(TextAt(v, 0), TextAt(v, 1), IntAt(v, 2), TextAt(v, 3), IntAt(v, 4), TextAt(v, 5), TextAt(v, 6),
               TextAt(v, 7))
  }

  const DEFINITION :=
    Form(WriteDefinition, [TEXT, TEXT, INT, TEXT, INT, TEXT, TEXT, TEXT], DefinitionOf)

  lemma DefinitionFits(x: Definition)
    ensures Fits(DEFINITION, x)
  {
  }

  // Its switches.
  datatype Switches = Switches(
    listenerAutoSignOn: bool, consoleSignOnUseRouter: bool, consoleSignOnStatement: bool,
    consoleSignOnRequest: bool, consoleSignOnRouterKey: i32, wsInteractive: bool, volumeReadOnly: bool,
    disketteReadOnly: bool)

  function WriteSwitches(x: Switches): seq<Value> {
    [Flag(x.listenerAutoSignOn), Flag(x.consoleSignOnUseRouter), Flag(x.consoleSignOnStatement),
     Flag(x.consoleSignOnRequest), Int(x.consoleSignOnRouterKey), Flag(x.wsInteractive), Flag(x.volumeReadOnly),
     Flag(x.disketteReadOnly)]
  }

  function SwitchesOf(v: seq<Value>): Switches {
    Switches(FlagAt(v, 0), FlagAt(v, 1), FlagAt(v, 2), FlagAt(v, 3), IntAt(v, 4), FlagAt(v, 5), FlagAt(v, 6),
             FlagAt(v, 7))
  }

  const SWITCHES :=
    Form(WriteSwitches, [FLAG, FLAG, FLAG, FLAG, INT, FLAG, FLAG, FLAG], SwitchesOf)

  lemma SwitchesFits(x: Switches)
    ensures Fits(SWITCHES, x)
  {
  }

  // The main storage processor's registers.
  datatype Registers = Registers(
    cycles: i64, m36Src: i32, iar: halfword, arr: halfword, xr1: halfword, xr2: halfword, wr0: halfword,
    wr1: halfword, wr2: halfword, wr3: halfword, wr4: halfword, wr5: halfword, wr6: halfword, wr7: halfword)

  function WriteRegisters(x: Registers): seq<Value> {
    [Long(x.cycles), Int(x.m36Src), Word(x.iar), Word(x.arr), Word(x.xr1), Word(x.xr2), Word(x.wr0), Word(x.wr1),
     Word(x.wr2), Word(x.wr3), Word(x.wr4), Word(x.wr5), Word(x.wr6), Word(x.wr7)]
  }

  function RegistersOf(v: seq<Value>): Registers {
    Registers(LongAt(v, 0), IntAt(v, 1), WordAt(v, 2), WordAt(v, 3), WordAt(v, 4), WordAt(v, 5), WordAt(v, 6),
              WordAt(v, 7), WordAt(v, 8), WordAt(v, 9), WordAt(v, 10), WordAt(v, 11), WordAt(v, 12), WordAt(v, 13))
  }

  const REGISTERS :=
    Form(WriteRegisters, [LONG, INT, WORD, WORD, WORD, WORD, WORD, WORD, WORD, WORD, WORD, WORD, WORD,
                          WORD], RegistersOf)

  lemma RegistersFits(x: Registers)
    ensures Fits(REGISTERS, x)
  {
  }

  // Its status and action registers.
  datatype StatusRegisters = StatusRegisters(
    psr: byte, pactDir: byte, pactXr1: byte, pactXr2: byte, pactIar: byte, pactReg: byte, pactAtr: byte,
    pactCsp: byte, pmr: byte, cmr: byte)

  function WriteStatusRegisters(x: StatusRegisters): seq<Value> {
    [Byte(x.psr), Byte(x.pactDir), Byte(x.pactXr1), Byte(x.pactXr2), Byte(x.pactIar), Byte(x.pactReg),
     Byte(x.pactAtr), Byte(x.pactCsp), Byte(x.pmr), Byte(x.cmr)]
  }

  function StatusRegistersOf(v: seq<Value>): StatusRegisters {
    StatusRegisters(ByteAt(v, 0), ByteAt(v, 1), ByteAt(v, 2), ByteAt(v, 3), ByteAt(v, 4), ByteAt(v, 5), ByteAt(v, 6),
                    ByteAt(v, 7), ByteAt(v, 8), ByteAt(v, 9))
  }

  const STATUS_REGISTERS :=
    Form(WriteStatusRegisters, [BYTE, BYTE, BYTE, BYTE, BYTE, BYTE, BYTE, BYTE, BYTE, BYTE], StatusRegistersOf)

  lemma StatusRegistersFits(x: StatusRegisters)
    ensures Fits(STATUS_REGISTERS, x)
  {
  }

  // Where execution stood.
  datatype Progress = Progress(
    stopped: bool, stopReason: seq<byte>, instructions: i64, atPreemptionPoint: bool, schedulerNow: i64,
    currentTaskBlock: i32, currentRequestBlock: i32)

  function WriteProgress(x: Progress): seq<Value> {
    [Flag(x.stopped), Text(x.stopReason), Long(x.instructions), Flag(x.atPreemptionPoint), Long(x.schedulerNow),
     Int(x.currentTaskBlock), Int(x.currentRequestBlock)]
  }

  function ProgressOf(v: seq<Value>): Progress {
    Progress(FlagAt(v, 0), TextAt(v, 1), LongAt(v, 2), FlagAt(v, 3), LongAt(v, 4), IntAt(v, 5), IntAt(v, 6))
  }

  const PROGRESS :=
    Form(WriteProgress, [FLAG, TEXT, LONG, FLAG, LONG, INT, INT], ProgressOf)

  lemma ProgressFits(x: Progress)
    ensures Fits(PROGRESS, x)
  {
  }

  // The control storage processor's dispatching state.
  datatype Dispatch = Dispatch(
    pendingDeviceAcePairs: seq<i32>, pendingAsyncChildren: seq<i32>, nativeTransferContinuations: seq<i32>,
    redispatch: bool, phase2SvatJobTask: i32, phase2SvatDispatched: bool, taskIdCounter: i32,
    requestBlockBeforeAttach: i32, systemMeasurementEnabled: bool)

  function WriteDispatch(x: Dispatch): seq<Value> {
    [Ints(x.pendingDeviceAcePairs), Ints(x.pendingAsyncChildren), Ints(x.nativeTransferContinuations),
     Flag(x.redispatch), Int(x.phase2SvatJobTask), Flag(x.phase2SvatDispatched), Int(x.taskIdCounter),
     Int(x.requestBlockBeforeAttach), Flag(x.systemMeasurementEnabled)]
  }

  function DispatchOf(v: seq<Value>): Dispatch {
    Dispatch(IntsAt(v, 0), IntsAt(v, 1), IntsAt(v, 2), FlagAt(v, 3), IntAt(v, 4), FlagAt(v, 5), IntAt(v, 6),
             IntAt(v, 7), FlagAt(v, 8))
  }

  const DISPATCH :=
    Form(WriteDispatch, [INTS, INTS, INTS, FLAG, INT, FLAG, INT, INT, FLAG], DispatchOf)

  lemma DispatchFits(x: Dispatch)
    ensures Fits(DISPATCH, x)
  {
  }

  // Terminals being transferred, and what they are owed.
  datatype Transfers = Transfers(
    transferredTub: i32, pendingTransferredTub: i32, transferredAutoSignOn: bool, pendingTransferAutoSignOn: bool,
    lastTransferPostedGuestWork: bool, wsDeviceStatusPending: i32, wsDeviceStatusDelivered: i32,
    wsPresentPairs: seq<i32>, deferredWsInput: seq<i32>)

  function WriteTransfers(x: Transfers): seq<Value> {
    [Int(x.transferredTub), Int(x.pendingTransferredTub), Flag(x.transferredAutoSignOn),
     Flag(x.pendingTransferAutoSignOn), Flag(x.lastTransferPostedGuestWork), Int(x.wsDeviceStatusPending),
     Int(x.wsDeviceStatusDelivered), Ints(x.wsPresentPairs), Ints(x.deferredWsInput)]
  }

  function TransfersOf(v: seq<Value>): Transfers {
    Transfers(IntAt(v, 0), IntAt(v, 1), FlagAt(v, 2), FlagAt(v, 3), FlagAt(v, 4), IntAt(v, 5), IntAt(v, 6),
              IntsAt(v, 7), IntsAt(v, 8))
  }

  const TRANSFERS :=
    Form(WriteTransfers, [INT, INT, FLAG, FLAG, FLAG, INT, INT, INTS, INTS], TransfersOf)

  lemma TransfersFits(x: Transfers)
    ensures Fits(TRANSFERS, x)
  {
  }

  // Its action status.
  datatype Actions = Actions(
    actionStatusLow: u64, actionStatusHigh: u64, actionCoverage: seq<i32>, sessionContentPopulated: i32,
    clssMapGateSet: i32, wddqWriteForced: i32, expAutoMapped: i32, expGrounded: i32)

  function WriteActions(x: Actions): seq<Value> {
    [Unsigned(x.actionStatusLow), Unsigned(x.actionStatusHigh), Ints(x.actionCoverage),
     Int(x.sessionContentPopulated), Int(x.clssMapGateSet), Int(x.wddqWriteForced), Int(x.expAutoMapped),
     Int(x.expGrounded)]
  }

  function ActionsOf(v: seq<Value>): Actions {
    Actions(UnsignedAt(v, 0), UnsignedAt(v, 1), IntsAt(v, 2), IntAt(v, 3), IntAt(v, 4), IntAt(v, 5), IntAt(v, 6),
            IntAt(v, 7))
  }

  const ACTIONS :=
    Form(WriteActions, [UNSIGNED, UNSIGNED, INTS, INT, INT, INT, INT, INT], ActionsOf)

  lemma ActionsFits(x: Actions)
    ensures Fits(ACTIONS, x)
  {
  }

  // Its storage maps.
  datatype Storage = Storage(
    directAreaWords: seq<i32>, taskWorkAreaFree: seq<i32>, workSpaces: seq<i32>, heap: seq<i32>, ptt: seq<i32>,
    moduleStorageNext: i32, moduleStoragePairs: seq<i32>, workSpaceStoragePairs: seq<i32>,
    workSpaceStoragePages: seq<i32>, moduleStorageSizePairs: seq<i32>, moduleStorageFree: seq<i32>,
    loadedMemberData: seq<i32>, loadedMemberNames: seq<seq<byte>>)

  function WriteStorage(x: Storage): seq<Value> {
    [Ints(x.directAreaWords), Ints(x.taskWorkAreaFree), Ints(x.workSpaces), Ints(x.heap), Ints(x.ptt),
     Int(x.moduleStorageNext), Ints(x.moduleStoragePairs), Ints(x.workSpaceStoragePairs),
     Ints(x.workSpaceStoragePages), Ints(x.moduleStorageSizePairs), Ints(x.moduleStorageFree),
     Ints(x.loadedMemberData), Texts(x.loadedMemberNames)]
  }

  function StorageOf(v: seq<Value>): Storage {
    Storage(IntsAt(v, 0), IntsAt(v, 1), IntsAt(v, 2), IntsAt(v, 3), IntsAt(v, 4), IntAt(v, 5), IntsAt(v, 6),
            IntsAt(v, 7), IntsAt(v, 8), IntsAt(v, 9), IntsAt(v, 10), IntsAt(v, 11), TextsAt(v, 12))
  }

  const STORAGE :=
    Form(WriteStorage, [INTS, INTS, INTS, INTS, INTS, INT, INTS, INTS, INTS, INTS, INTS, INTS, TEXTS], StorageOf)

  lemma StorageFits(x: Storage)
    ensures Fits(STORAGE, x)
  {
  }

  // Its action control elements.
  datatype AceTable = AceTable(
    next: i32, free: seq<i32>, inUse: seq<i32>, realEcmRecords: seq<i32>)

  function WriteAceTable(x: AceTable): seq<Value> {
    [Int(x.next), Ints(x.free), Ints(x.inUse), Ints(x.realEcmRecords)]
  }

  function AceTableOf(v: seq<Value>): AceTable {
    AceTable(IntAt(v, 0), IntsAt(v, 1), IntsAt(v, 2), IntsAt(v, 3))
  }

  const ACE_TABLE :=
    Form(WriteAceTable, [INT, INTS, INTS, INTS], AceTableOf)

  lemma AceTableFits(x: AceTable)
    ensures Fits(ACE_TABLE, x)
  {
  }

  // The pending work of the device set.
  datatype DeviceState = DeviceState(
    inputReadPairs: seq<i32>, inputStagingPairs: seq<i32>, inputResponseStatus: seq<i32>, pendingC1Pairs: seq<i32>,
    pendingPutWithInviteTriples: seq<i32>, controllerInvites: seq<i32>, printerOutputs: seq<i32>,
    pendingActivationUnits: seq<i32>, activatedUnits: seq<i32>, nativeActiveUnits: seq<i32>,
    configuredUnits: seq<i32>, internalRendererUnits: seq<i32>, transferRendererUnits: seq<i32>)

  function WriteDeviceState(x: DeviceState): seq<Value> {
    [Ints(x.inputReadPairs), Ints(x.inputStagingPairs), Ints(x.inputResponseStatus), Ints(x.pendingC1Pairs),
     Ints(x.pendingPutWithInviteTriples), Ints(x.controllerInvites), Ints(x.printerOutputs),
     Ints(x.pendingActivationUnits), Ints(x.activatedUnits), Ints(x.nativeActiveUnits), Ints(x.configuredUnits),
     Ints(x.internalRendererUnits), Ints(x.transferRendererUnits)]
  }

  function DeviceStateOf(v: seq<Value>): DeviceState {
    DeviceState(IntsAt(v, 0), IntsAt(v, 1), IntsAt(v, 2), IntsAt(v, 3), IntsAt(v, 4), IntsAt(v, 5), IntsAt(v, 6),
                IntsAt(v, 7), IntsAt(v, 8), IntsAt(v, 9), IntsAt(v, 10), IntsAt(v, 11), IntsAt(v, 12))
  }

  const DEVICE_STATE :=
    Form(WriteDeviceState, [INTS, INTS, INTS, INTS, INTS, INTS, INTS, INTS, INTS, INTS, INTS, INTS,
                            INTS], DeviceStateOf)

  lemma DeviceStateFits(x: DeviceState)
    ensures Fits(DEVICE_STATE, x)
  {
  }

  // Where the tape stood.
  datatype TapePosition = TapePosition(
    fileNumber: i32, blockNumber: i32, atTapeMark: bool, beginningOfTape: bool, endOfData: bool)

  function WriteTapePosition(x: TapePosition): seq<Value> {
    [Int(x.fileNumber), Int(x.blockNumber), Flag(x.atTapeMark), Flag(x.beginningOfTape), Flag(x.endOfData)]
  }

  function TapePositionOf(v: seq<Value>): TapePosition {
    TapePosition(IntAt(v, 0), IntAt(v, 1), FlagAt(v, 2), FlagAt(v, 3), FlagAt(v, 4))
  }

  const TAPE_POSITION :=
    Form(WriteTapePosition, [INT, INT, FLAG, FLAG, FLAG], TapePositionOf)

  lemma TapePositionFits(x: TapePosition)
    ensures Fits(TAPE_POSITION, x)
  {
  }

  // One station's counters and last output.
  datatype StationState = StationState(
    id: seq<byte>, tubAddress: i32, outputMode: i32, inviteReadMode: i32, inviteOutstanding: bool,
    activeReadMode: byte, outputStreams: i64, outputBytes: i64, inputRecords: i64, lastOutput: Option<seq<byte>>)

  function WriteStationState(x: StationState): seq<Value> {
    [Text(x.id), Int(x.tubAddress), Int(x.outputMode), Int(x.inviteReadMode), Flag(x.inviteOutstanding),
     Byte(x.activeReadMode), Long(x.outputStreams), Long(x.outputBytes), Long(x.inputRecords),
     Blob(MAX_OUTPUT, x.lastOutput)]
  }

  function StationStateOf(v: seq<Value>): StationState {
    StationState(TextAt(v, 0), IntAt(v, 1), IntAt(v, 2), IntAt(v, 3), FlagAt(v, 4), ByteAt(v, 5), LongAt(v, 6),
                 LongAt(v, 7), LongAt(v, 8), BlobAt(v, 9))
  }

  const STATION_STATE :=
    Form(WriteStationState, [TEXT, INT, INT, INT, FLAG, BYTE, LONG, LONG, LONG, BLOB(MAX_OUTPUT)], StationStateOf)

  lemma StationStateFits(x: StationState)
    ensures Fits(STATION_STATE, x)
  {
  }

  // One printer's.
  datatype PrinterState = PrinterState(
    id: seq<byte>, pubAddress: i32, outputStreams: i64, outputBytes: i64, lastOutput: Option<seq<byte>>)

  function WritePrinterState(x: PrinterState): seq<Value> {
    [Text(x.id), Int(x.pubAddress), Long(x.outputStreams), Long(x.outputBytes), Blob(MAX_OUTPUT, x.lastOutput)]
  }

  function PrinterStateOf(v: seq<Value>): PrinterState {
    PrinterState(TextAt(v, 0), IntAt(v, 1), LongAt(v, 2), LongAt(v, 3), BlobAt(v, 4))
  }

  const PRINTER_STATE :=
    Form(WritePrinterState, [TEXT, INT, LONG, LONG, BLOB(MAX_OUTPUT)], PrinterStateOf)

  lemma PrinterStateFits(x: PrinterState)
    ensures Fits(PRINTER_STATE, x)
  {
  }
  // ---- the machine definition ------------------------------------------------------

  datatype Config = Config(
    definition: Definition, switches: Switches, tapeReadOnly: Option<bool>, stations: seq<StationConfig>)

  function WriteTape(tape: Option<bool>): seq<Value> {
    match tape
    case None => [Flag(false)]
    case Some(readOnly) => [Flag(true), Flag(readOnly)]
  }

  function ReadTape(s: seq<byte>): Option<Got<Option<bool>>> {
    match Take(FLAG, s)
    case None => None
    case Some(g) =>
      if !g.value.f then Some(Got(None, g.rest))
      else
        match Take(FLAG, g.rest)
        case None => None
        case Some(r) => Some(Got(Some(r.value.f), r.rest))
  }

  function WriteConfig(c: Config): seq<Value> {
    WriteDefinition(c.definition)
    + (WriteSwitches(c.switches) + (WriteTape(c.tapeReadOnly) + WriteCounted(STATION_CONFIG, c.stations)))
  }

  function ReadConfig(s: seq<byte>): Option<Got<Config>> {
    match ReadRecord(DEFINITION, s)
    case None => None
    case Some(d) =>
      match ReadRecord(SWITCHES, d.rest)
      case None => None
      case Some(w) =>
        match ReadTape(w.rest)
        case None => None
        case Some(t) =>
          match ReadCounted(STATION_CONFIG, t.rest)
          case None => None
          case Some(list) => Some(Got(Config(d.value, w.value, t.value, list.value), list.rest))
  }

  lemma TapeReadsBack(tape: Option<bool>, rest: seq<byte>)
    ensures ReadTape(EncodeAll(WriteTape(tape)) + rest) == Some(Got(tape, rest))
    ensures AllReadable(WriteTape(tape))
  {
    hide Take, Encode;
    var v := WriteTape(tape);
    OneValue(v[0]);
    if tape.Some? {
      OneValue(v[1]);
      SplitStream([v[0]], [v[1]], rest);
      assert v == [v[0]] + [v[1]];
      ValueReadsBack(v[1], rest);
      ValueReadsBack(v[0], EncodeAll([v[1]]) + rest);
    } else {
      assert v == [v[0]];
      ValueReadsBack(v[0], rest);
    }
  }

  ghost predicate ReadableConfig(c: Config) {
    AllReadable(WriteConfig(c)) && |c.stations| <= MAX_STATIONS
  }

  // A definition comes back whole, leaving exactly what followed it, when its
  // strings and station count are within the reader's bounds; else the reader
  // refuses the checkpoint.
  lemma ConfigRoundTrip(c: Config, rest: seq<byte>)
    requires AllCountable(WriteConfig(c)) && |c.stations| < 0x8000_0000
    ensures ReadConfig(EncodeAll(WriteConfig(c)) + rest) == if ReadableConfig(c) then Some(Got(c, rest)) else None
  {
    hide WriteDefinition, WriteSwitches, WriteTape, ReadTape, EncodeAll, AllReadable, AllCountable, TakeCount, Narrow;
    hide WriteCounted, ReadCounted, ReadRecord, Fits;
    var d, w, t := WriteDefinition(c.definition), WriteSwitches(c.switches), WriteTape(c.tapeReadOnly);
    var list := WriteCounted(STATION_CONFIG, c.stations);
    SplitStream(d, w + (t + list), rest);
    SplitStream(w, t + list, rest);
    SplitStream(t, list, rest);
    DefinitionFits(c.definition);
    RecordReadsBack(DEFINITION, c.definition, EncodeAll(w + (t + list)) + rest);
    SwitchesFits(c.switches);
    RecordReadsBack(SWITCHES, c.switches, EncodeAll(t + list) + rest);
    TapeReadsBack(c.tapeReadOnly, EncodeAll(list) + rest);
    forall i | 0 <= i < |c.stations|
      ensures Fits(STATION_CONFIG, c.stations[i])
    {
      StationConfigFits(c.stations[i]);
    }
    CountedReadsBack(STATION_CONFIG, c.stations, rest);
  }

  // ---- the volatile state -------------------------------------------------------------

  datatype Runtime = Runtime(
    main: seq<byte>, atr: seq<halfword>, registers: Registers, status: StatusRegisters, progress: Progress,
    dispatch: Dispatch, transfers: Transfers, actions: Actions, storage: Storage, aces: AceTable,
    devices: DeviceState, tape: Option<TapePosition>, stations: seq<StationState>, printers: seq<PrinterState>)

  const MAX_MAIN: nat := 0x100_0000

  function Words(atr: seq<halfword>): (r: seq<Value>)
    ensures |r| == |atr| && forall i | 0 <= i < |atr| :: r[i] == Word(atr[i])
  {
    seq(|atr|, i requires 0 <= i < |atr| => Word(atr[i]))
  }

  function WriteMemory(main: seq<byte>, atr: seq<halfword>): seq<Value> {
    [Blob(MAX_MAIN, Some(main)), Int(128)] + Words(atr)
  }

  function ReadMemory(s: seq<byte>): Option<Got<(seq<byte>, seq<halfword>)>> {
    match Take(BLOB(MAX_MAIN), s)
    case None => None
    case Some(g) =>
      if g.value.data == None then None
      else
        match Take(INT, g.rest)
        case None => None
        case Some(n) =>
          if n.value.i != 128 then None
          else
            match TakeAll(Repeat(WORD, 128), n.rest)
            case None => None
            case Some(w) =>
              Some(Got((g.value.data.value, seq(128, i requires 0 <= i < 128 => WordAt(w.value, i))), w.rest))
  }

  function WritePosition(p: Option<TapePosition>): seq<Value> {
    match p
    case None => [Flag(false)]
    case Some(position) => [Flag(true)] + WriteTapePosition(position)
  }

  function ReadPosition(s: seq<byte>): Option<Got<Option<TapePosition>>> {
    match Take(FLAG, s)
    case None => None
    case Some(g) =>
      if !g.value.f then Some(Got(None, g.rest))
      else
        match ReadRecord(TAPE_POSITION, g.rest)
        case None => None
        case Some(p) => Some(Got(Some(p.value), p.rest))
  }

  function WriteUnits(stations: seq<StationState>, printers: seq<PrinterState>): seq<Value> {
    WriteCounted(STATION_STATE, stations) + WriteCounted(PRINTER_STATE, printers)
  }

  function ReadUnits(s: seq<byte>): Option<Got<(seq<StationState>, seq<PrinterState>)>> {
    match ReadCounted(STATION_STATE, s)
    case None => None
    case Some(stations) =>
      match ReadCounted(PRINTER_STATE, stations.rest)
      case None => None
      case Some(printers) => Some(Got((stations.value, printers.value), printers.rest))
  }

  // The control storage processor's part.
  function WriteControl(x: Runtime): seq<Value> {
    WriteDispatch(x.dispatch) + (WriteTransfers(x.transfers)
    + (WriteActions(x.actions) + (WriteStorage(x.storage) + WriteAceTable(x.aces))))
  }

  datatype Control = Control(
    dispatch: Dispatch, transfers: Transfers, actions: Actions, storage: Storage, aces: AceTable)

  function ReadControl(s: seq<byte>): Option<Got<Control>> {
    match ReadRecord(DISPATCH, s)
    case None => None
    case Some(d) =>
      match ReadRecord(TRANSFERS, d.rest)
      case None => None
      case Some(t) =>
        match ReadRecord(ACTIONS, t.rest)
        case None => None
        case Some(a) =>
          match ReadRecord(STORAGE, a.rest)
          case None => None
          case Some(m) =>
            match ReadRecord(ACE_TABLE, m.rest)
            case None => None
            case Some(e) => Some(Got(Control(d.value, t.value, a.value, m.value, e.value), e.rest))
  }

  function WriteRuntime(x: Runtime): seq<Value> {
    WriteMemory(x.main, x.atr) + (WriteRegisters(x.registers) + (WriteStatusRegisters(x.status)
    + (WriteProgress(x.progress) + (WriteControl(x) + (WriteDeviceState(x.devices) + (WritePosition(x.tape)
    + WriteUnits(x.stations, x.printers)))))))
  }

  function ReadRuntime(s: seq<byte>): Option<Got<Runtime>> {
    match ReadMemory(s)
    case None => None
    case Some(m) =>
      match ReadRecord(REGISTERS, m.rest)
      case None => None
      case Some(r) =>
        match ReadRecord(STATUS_REGISTERS, r.rest)
      case None => None
      case Some(b) =>
        match ReadRecord(PROGRESS, b.rest)
        case None => None
        case Some(p) =>
          match ReadControl(p.rest)
          case None => None
          case Some(c) =>
            match ReadRecord(DEVICE_STATE, c.rest)
            case None => None
            case Some(d) =>
              match ReadPosition(d.rest)
              case None => None
              case Some(t) =>
                match ReadUnits(t.rest)
                case None => None
                case Some(u) =>
                  Some(Got(Runtime(m.value.0, m.value.1, r.value, b.value, p.value, c.value.dispatch, c.value.transfers,
                                   c.value.actions, c.value.storage, c.value.aces, d.value, t.value, u.value.0,
                                   u.value.1),
                           u.rest))
  }

  lemma MemoryReadsBack(main: seq<byte>, atr: seq<halfword>, rest: seq<byte>)
    requires |main| < 0x8000_0000 && |atr| == 128
    ensures ReadMemory(EncodeAll(WriteMemory(main, atr)) + rest)
         == if |main| <= MAX_MAIN then Some(Got((main, atr), rest)) else None
    ensures AllReadable(WriteMemory(main, atr)) <==> |main| <= MAX_MAIN
    ensures AllCountable(WriteMemory(main, atr))
  {
    hide Take, Encode, TakeAll, EncodeAll;
    var blob, count, words := Blob(MAX_MAIN, Some(main)), Int(128), Words(atr);
    assert [blob, count] == [blob] + [count];
    SplitStream([blob, count], words, rest);
    SplitStream([blob], [count], EncodeAll(words) + rest);
    OneValue(blob);
    OneValue(count);
    ValueReadsBack(blob, Encode(count) + (EncodeAll(words) + rest));
    ValueReadsBack(count, EncodeAll(words) + rest);
    AllReadBack(words, rest);
    assert Shapes(words) == Repeat(WORD, 128);
    assert seq(128, i requires 0 <= i < 128 => WordAt(words, i)) == atr;
    assert AllReadable([blob]) <==> |main| <= MAX_MAIN by {
      assert [blob][0] == blob;
    }
    assert AllReadable([count]) && AllReadable(words);
    assert WriteMemory(main, atr) == [blob, count] + words;
  }

  lemma PositionReadsBack(p: Option<TapePosition>, rest: seq<byte>)
    requires AllCountable(WritePosition(p))
    ensures ReadPosition(EncodeAll(WritePosition(p)) + rest)
         == if AllReadable(WritePosition(p)) then Some(Got(p, rest)) else None
  {
    hide Take, Encode, WriteTapePosition, ReadRecord, Fits, EncodeAll;
    OneValue(Flag(p.Some?));
    match p {
      case None => ValueReadsBack(Flag(false), rest);
      case Some(position) =>
        var v := WriteTapePosition(position);
        SplitStream([Flag(true)], v, rest);
        ValueReadsBack(Flag(true), EncodeAll(v) + rest);
        TapePositionFits(position);
        RecordReadsBack(TAPE_POSITION, position, rest);
    }
  }

  lemma UnitsReadBack(stations: seq<StationState>, printers: seq<PrinterState>, rest: seq<byte>)
    requires AllCountable(WriteUnits(stations, printers)) && |stations| < 0x8000_0000 && |printers| < 0x8000_0000
    ensures ReadUnits(EncodeAll(WriteUnits(stations, printers)) + rest)
         == if AllReadable(WriteUnits(stations, printers)) && |stations| <= MAX_STATIONS && |printers| <= MAX_STATIONS
            then Some(Got((stations, printers), rest)) else None
  {
    hide EncodeAll, AllReadable, AllCountable, TakeCount, Narrow;
    hide WriteCounted, ReadCounted, Fits;
    var more := WriteCounted(PRINTER_STATE, printers);
    SplitStream(WriteCounted(STATION_STATE, stations), more, rest);
    forall i | 0 <= i < |stations|
      ensures Fits(STATION_STATE, stations[i])
    {
      StationStateFits(stations[i]);
    }
    forall i | 0 <= i < |printers|
      ensures Fits(PRINTER_STATE, printers[i])
    {
      PrinterStateFits(printers[i]);
    }
    CountedReadsBack(STATION_STATE, stations, EncodeAll(more) + rest);
    CountedReadsBack(PRINTER_STATE, printers, rest);
  }

  lemma ControlReadsBack(x: Runtime, rest: seq<byte>)
    requires AllCountable(WriteControl(x))
    ensures ReadControl(EncodeAll(WriteControl(x)) + rest)
         == if AllReadable(WriteControl(x))
            then Some(Got(Control(x.dispatch, x.transfers, x.actions, x.storage, x.aces), rest)) else None
  {
    hide EncodeAll, AllReadable, AllCountable;
    hide WriteDispatch, WriteTransfers, WriteActions, WriteStorage, WriteAceTable, ReadRecord, Fits;
    var d, t, a := WriteDispatch(x.dispatch), WriteTransfers(x.transfers), WriteActions(x.actions);
    var m, e := WriteStorage(x.storage), WriteAceTable(x.aces);
    SplitStream(d, t + (a + (m + e)), rest);
    SplitStream(t, a + (m + e), rest);
    SplitStream(a, m + e, rest);
    SplitStream(m, e, rest);
    DispatchFits(x.dispatch);
    RecordReadsBack(DISPATCH, x.dispatch, EncodeAll(t + (a + (m + e))) + rest);
    TransfersFits(x.transfers);
    RecordReadsBack(TRANSFERS, x.transfers, EncodeAll(a + (m + e)) + rest);
    ActionsFits(x.actions);
    RecordReadsBack(ACTIONS, x.actions, EncodeAll(m + e) + rest);
    StorageFits(x.storage);
    RecordReadsBack(STORAGE, x.storage, EncodeAll(e) + rest);
    AceTableFits(x.aces);
    RecordReadsBack(ACE_TABLE, x.aces, rest);
  }

  ghost predicate ReadableRuntime(x: Runtime) {
    AllReadable(WriteRuntime(x)) && |x.stations| <= MAX_STATIONS && |x.printers| <= MAX_STATIONS
  }

  // The whole volatile state comes back, leaving exactly what followed it,
  // when it is within the reader's bounds; else the reader refuses it.
  lemma RuntimeRoundTrip(x: Runtime, rest: seq<byte>)
    requires |x.atr| == 128 && AllCountable(WriteRuntime(x))
    requires |x.main| < 0x8000_0000 && |x.stations| < 0x8000_0000 && |x.printers| < 0x8000_0000
    ensures ReadRuntime(EncodeAll(WriteRuntime(x)) + rest) == if ReadableRuntime(x) then Some(Got(x, rest)) else None
  {
    hide EncodeAll, AllReadable, AllCountable, WriteMemory, ReadMemory, WriteRegisters, WriteStatusRegisters;
    hide WriteProgress, WriteControl, ReadControl, WriteDeviceState, ReadRecord, Fits;
    hide WritePosition, ReadPosition, WriteUnits, ReadUnits;
    var m, r, b := WriteMemory(x.main, x.atr), WriteRegisters(x.registers), WriteStatusRegisters(x.status);
    var p, c := WriteProgress(x.progress), WriteControl(x);
    var d, t, u := WriteDeviceState(x.devices), WritePosition(x.tape), WriteUnits(x.stations, x.printers);
    SplitStream(m, r + (b + (p + (c + (d + (t + u))))), rest);
    SplitStream(r, b + (p + (c + (d + (t + u)))), rest);
    SplitStream(b, p + (c + (d + (t + u))), rest);
    SplitStream(p, c + (d + (t + u)), rest);
    SplitStream(c, d + (t + u), rest);
    SplitStream(d, t + u, rest);
    SplitStream(t, u, rest);
    MemoryReadsBack(x.main, x.atr, EncodeAll(r + (b + (p + (c + (d + (t + u)))))) + rest);
    RegistersFits(x.registers);
    RecordReadsBack(REGISTERS, x.registers, EncodeAll(b + (p + (c + (d + (t + u))))) + rest);
    StatusRegistersFits(x.status);
    RecordReadsBack(STATUS_REGISTERS, x.status, EncodeAll(p + (c + (d + (t + u)))) + rest);
    ProgressFits(x.progress);
    RecordReadsBack(PROGRESS, x.progress, EncodeAll(c + (d + (t + u))) + rest);
    ControlReadsBack(x, EncodeAll(d + (t + u)) + rest);
    DeviceStateFits(x.devices);
    RecordReadsBack(DEVICE_STATE, x.devices, EncodeAll(t + u) + rest);
    PositionReadsBack(x.tape, EncodeAll(u) + rest);
    UnitsReadBack(x.stations, x.printers, rest);
  }
}
