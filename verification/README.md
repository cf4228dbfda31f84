# SIM/36 device model

A model of the parts of the SIM/36 System/36 emulator where state is shared between a
guest program, a device and an outside medium, with proofs of what those parts
promise: the labelled tape, paged guest storage, the fixed disk, the retained
work-station requests, the terminal and printer streams, the checkpoint format, the
command-line quoter and the scheduler.

Each component has a pure description of its state and of what every operation does
to it, and, where the program works in place, a class whose methods are proved to
follow that description. The theorems are about the description, over every input,
every run or every reachable state.

| files | component |
|---|---|
| `Bytes`, `GuestStorage`, `MachineState`, `BufferCapture` | main storage, 2 KB address translation, coalesced extents, page frames |
| `TapeMedium`, `TapeCommands`, `VirtualTape`, `TapeSessions`, `TapeReadBack`, `StandardVolume`, `TapeExports`, `TapeReload` | the SIMH cartridge and SVC 46, exports over any number of sessions, their octets on the medium, when each command posts, reading back, the data-set reload |
| `FixedDisk`, `VirtualFixedDisk`, `DiskRequests` | SVC 40: reads, three writes, the key scan, and what a request block asks of them |
| `SlotMap`, `Terminals`, `Controller`, `DeviceSet`, `RetainedIo`, `Completions`, `FieldReads`, `RequestOutcome`, `PendingCheckpoint` | the work station controller: parked, retained and one-shot responses, what answers a request and what it finds in storage, and their checkpoint |
| `ScsRenderer`, `PrintedPage`, `Telnet`, `TelnetOctets`, `ConsoleDisplay`, `FieldLaws` | the printer stream and the page it prints, RFC 1205 framing and negotiation, the 24 x 80 display |
| `SnapshotCodec`, `Snapshots`, `SnapshotStream` | the checkpoint stream |
| `CommandLine`, `Scheduler`, `SchedulerRun` | lexer and quoter, discrete events |

## Where the program does not do what it says

Some properties one would expect do not hold of the code. The model keeps the code,
and a lemma gives the exact condition:

- `src/Storage/TapeBackend.h:124-128` says spacing one file backward stops just before the mark it crosses; the SIMH
  backend goes on to the start of that file, so it does exactly when that file is empty (`BackFileMeetsMark`,
  `BackFileOvershoots`).
- A capture of a real buffer starts to translate once its address counts past 7FFFFF; the extents of the same buffer do not
  (`RealCaptureAgreesIff`, `CaptureRefusesAcross`).
- A PUT-with-invite whose record the transport refused posts 40 although no terminal answered (`UnsentPutPosts`).
- A PUT-with-invite may claim a record other than the one whose status answered it (`ClaimMatchesReport`,
  `OvertakenRun`).
- A Read Text Screen reply is handed over as it came, but not once its invitation was withdrawn: command 42 then expands
  it like a field reply (`WithdrawnExpands`).
- A restore that is refused may leave rows it had already read (`RefusalResetsIff`, `RefusalKeepsReads`), and a capture
  does not hold screen saves or deferred input (`CheckpointRoundTrip`).
- A verb that changes no option state is answered when it asks for a refused option, and when it is a WILL for the
  terminal type or the environment, whose value is asked for again (`UnchangedIsAnsweredIff`, `EchoIsRefusedEachTime`,
  `TypeIsAskedEachTime`).
- A first argument beginning with `#` is written bare and then lost as a comment (`QuotedLineRoundTrips`,
  `HashArgumentIsLost`).
- A string longer than a megabyte is written and cannot be read back (`TextReadsBack`).

## Model

| member | source | states |
|---|---|---|
| TapeMedium.SimhTape.ReadBlock | src/Storage/SimhTapeBackend.cpp:236-246 | Reading consumes exactly one item of the container, and says whether it was a record, a bad record, a mark or the end of the data |
| TapeMedium.SimhTape.WriteBlock | src/Storage/SimhTapeBackend.cpp:248-259 | A write drops everything after the head, appends one record and leaves the head after it; a protected or unloaded cartridge is left as it was |
| TapeMedium.SimhTape.WriteTapeMark | src/Storage/SimhTapeBackend.cpp:261-270 | The same for a tape mark |
| TapeMedium.SimhTape.SpaceFileBackward | src/Storage/SimhTapeBackend.cpp:299-332 | Spacing one file backward steps over the mark just behind the head, if there is one, and then back to the start of the file before it |
| TapeMedium.BackFileMeetsMark | src/Storage/SimhTapeBackend.cpp:326-332 | The head stops just before the mark it crossed exactly when nothing was recorded between that mark and the one before it or the load point; and it crosses a mark exactly when it stood behind one |
| TapeMedium.BackFileOvershoots | src/Storage/SimhTapeBackend.cpp:326-332 | Behind one record and its mark the head goes back over both, and no mark is ahead of it |
| TapeMedium.StartOfFile | src/Storage/SimhTapeBackend.cpp:326-332 | The start of the file is the position after the nearest earlier mark: nothing between it and the head is a mark |
| TapeMedium.SimhTape.SpaceRecordBackward | src/Storage/SimhTapeBackend.cpp:277-297 | Spacing one record backward crosses one record or stops at a mark or at the beginning |
| VirtualTapes.VirtualTape.Execute | src/Devices/VirtualTape.cpp:55-119 | SVC 46 changes the drive, the cartridge and guest storage exactly as the joint state function says, on every command, modifier and not-ready path |
| VirtualTapes.VirtualTape.InitializeStandard | src/Devices/VirtualTape.cpp:150-193 | Command 12: one VOL1 record from an 80-byte guest buffer, two marks, rewind; a bad label, modifier or write posts an error |
| VirtualTapes.VirtualTape.WriteHeaderLabels | src/Devices/VirtualTape.cpp:284-353 | Command 14: four standard labels written over the last of the closing marks, kept as the active labels |
| VirtualTapes.VirtualTape.WriteData | src/Devices/VirtualTape.cpp:751-786 | Commands 18 and 21: one block of the guest buffer, after its length and mapping are checked |
| VirtualTapes.VirtualTape.FinishDataSet | src/Devices/VirtualTape.cpp:355-467 | Command 19: a mark, the trailer labels made from the active headers, a mark |
| VirtualTapes.VirtualTape.FinalizeVolume | src/Devices/VirtualTape.cpp:469-497 | Command 1B: the closing mark, and the session state cleared |
| VirtualTapes.VirtualTape.FindDataSet | src/Devices/VirtualTape.cpp:524-597 | Command 16: search from load point for an HDR1 naming the data set, gather its labels, deliver them |
| VirtualTapes.VirtualTape.ReadData | src/Devices/VirtualTape.cpp:676-749 | Commands 17 and 22: one block to the guest, the returned length, and the end of the data set at a mark |
| VirtualTapes.VirtualTape.ReadVolumeLabels | src/Devices/VirtualTape.cpp:195-282 | Command 13: the volume label, the data-set reload into the work area, or the end of a reload |
| VirtualTapes.VirtualTape.FinishReadDataSet | src/Devices/VirtualTape.cpp:599-674 | The mark that ends the data must be followed by the trailer group that matches the active labels and by one more mark |
| TapeSessions.VolumeInitialized | src/Devices/VirtualTape.cpp:150-193 | A command 12 that posts success leaves VOL1 and two marks, which is the volume with no data sets, rewound |
| TapeSessions.FindMissed | src/Devices/VirtualTape.cpp:524-597 | A find that posts "not found" leaves the head past everything recorded, whatever is on the tape |
| TapeSessions.HeaderWritten | src/Devices/VirtualTape.cpp:284-353 | A header command that posts success after a missed find replaces the last mark by the label group and its mark |
| TapeSessions.BlockWritten | src/Devices/VirtualTape.cpp:751-786 | Each data command that posts success appends exactly the bytes of its own guest buffer as one block |
| TapeSessions.BlocksWritten | src/Devices/VirtualTape.cpp:751-786 | Any number of them append exactly those blocks in order |
| TapeSessions.DataSetFinished | src/Devices/VirtualTape.cpp:355-467 | A finish that posts success appends a mark, the trailers of the labels written, and a mark |
| TapeSessions.VolumeFinalized | src/Devices/VirtualTape.cpp:469-497 | A finalize that posts success appends the mark that closes the volume |
| TapeSessions.SessionAppends | src/Devices/VirtualTape.cpp:284-597 | One completed export appends exactly the data set its buffers describe to a volume of any data sets, and leaves every earlier item as it was |
| TapeSessions.VolumeHistory | src/Devices/VirtualTape.cpp:150-597 | After command 12 and any number of completed exports the cartridge is loaded and the medium is VOL1 and exactly the exported data sets in the labelled grammar |
| TapeReadBack.SetLies | src/Devices/VirtualTape.cpp:284-497 | Where data set k of a volume lies: its labels, blocks and trailers at computed positions |
| TapeReadBack.SearchFinds | src/Devices/VirtualTape.cpp:524-597 | The search stops at the wanted data set when no earlier header carries its name and no data block imitates a header, and gathers its four labels |
| TapeReadBack.TrailersPass | src/Devices/VirtualTape.cpp:599-674 | The trailer check accepts the trailers the export wrote for the same labels |
| TapeReadBack.FindDelivers | src/Devices/VirtualTape.cpp:524-597 | A command 16 for data set k posts success, delivers its 320 label bytes and leaves the head at its first block |
| TapeReadBack.ReadDelivers | src/Devices/VirtualTape.cpp:676-749 | A command 22 at a block posts success and delivers that block and its length |
| TapeReadBack.BlocksDeliver | src/Devices/VirtualTape.cpp:676-749 | One command 22 a block delivers every block in order, each to its own buffer at its own length |
| TapeReadBack.EndOfDataSet | src/Devices/VirtualTape.cpp:599-749 | The next command 22 posts completion 2 with the head past the trailer file's closing mark |
| TapeReadBack.DataSetReadsBack | src/Devices/VirtualTape.cpp:284-746 | Export then read-back is the identity: find, one read a block and one more return exactly the written labels and blocks and end with completion 2 |
| TapeReadBack.ExportsReadBack | src/Devices/VirtualTape.cpp:150-746 | End to end: after command 12 and any number of exports, finding and reading export k returns the header and, block for block, the data its own buffers held when it was written |
| StandardVolumes.VolumeIsStandard | src/Devices/VirtualTape.cpp:150-467 | After command 12 and any number of completed exports, at computed positions: VOL1 from its buffer, then for every data set HDR1, HDR2, UHL1, UHL2 from its buffer, its blocks, and EOF1, EOF2, UTL1, UTL2 of 80 bytes equal to those headers from the fourth byte on; every identifier in its octets |
| StandardVolumes.TrailersReadIff | src/Devices/VirtualTape.cpp:606-662 | The trailer records are read exactly when each of those ahead answers its header, and the head is then past them |
| StandardVolumes.EndPostsIff | src/Devices/VirtualTape.cpp:599-674 | At the mark after its data a labelled read posts 2 exactly when two or four headers are retained, such a group follows and a mark closes it |
| TapeExports.ExportPostsIff | src/Devices/VirtualTape.cpp:284-597 | On a standard volume an export completes exactly when its five commands are named, its buffers are mapped, its labels standard, its data set new and the cartridge writable |
| TapeExports.FindPostsIff | src/Devices/VirtualTape.cpp:524-597 | When a find finds, and when it posts "not found" |
| TapeExports.HeaderPostsIff | src/Devices/VirtualTape.cpp:284-353 | When a header command posts success |
| TapeExports.WritePostsIff | src/Devices/VirtualTape.cpp:751-786 | When a data command posts success |
| TapeExports.FinishPostsIff | src/Devices/VirtualTape.cpp:355-467 | When a finish posts success |
| TapeExports.FinalizePostsIff | src/Devices/VirtualTape.cpp:469-497 | When a finalize posts success |
| TapeExports.EveryCallAnswered | src/Devices/VirtualTape.cpp:55-119 | Every call, whatever it asks, is accepted or answered 44 with a sense |
| TapeExports.EmptyDriveAnswers | src/Devices/VirtualTape.cpp:816-831 | With no cartridge ready the answer is 44 with 20 at 0C, nothing else in storage changes and no tape moves |
| TapeExports.FindMissedSays | src/Devices/VirtualTape.cpp:524-597 | What the block holds after a find that missed |
| TapeReloads.ReloadPostsIff | src/Devices/VirtualTape.cpp:207-253 | Command 13/00 completes exactly when the file ahead holds blocks, they fit below the work area, and storage is mapped behind all of them |
| TapeReloads.ReloadLands | src/Devices/VirtualTape.cpp:207-253 | It then leaves, in storage clear of its own block, the blocks end to end just below the work area, their start in the block, every other byte as it was, and the head past the file |
| GuestStorage.CoalesceIsExact | src/Machine/MachineState.cpp:156-188 | Grouping a list of byte addresses into runs loses nothing and leaves no two neighbours that could be merged |
| GuestStorage.MaximalIsCoalesced | src/Machine/MachineState.cpp:156-188 | Runs that cannot be merged are determined by the bytes they cover |
| GuestStorage.CoalesceChunk | src/Machine/MachineState.cpp:156-175 | Adding a page-sized run to the extents is the same as adding its bytes one at a time |
| GuestStorage.SpansCountExtents | src/Devices/DeviceSet.cpp:1583-1590 | The span count of a byte list is the number of extents it groups into |
| GuestStorage.ReadBackIffDistinct | src/Machine/MachineState.cpp:225-247 | Writing through a list of addresses and reading back is the identity for every record exactly when no address repeats |
| GuestStorage.PokeAllBytes | src/Machine/MachineState.cpp:79-91 | Every stored byte is the last one sent to its address, and all other bytes keep their value |
| GuestStorage.GuestRoundTrip | src/Machine/MachineState.cpp:225-247 | Write then read through one field is the identity, with nothing else changed, when the addresses are in range and distinct |
| GuestStorage.TransferIsMapped | src/Machine/MachineState.cpp:129-175 | Byte i of a transfer lies in the frame that register x / 800 names, at offset x % 800, for x the wrapped logical address; the transfer translates exactly when no register it uses is protected |
| GuestStorage.OtherRegisters | src/Machine/MachineState.cpp:129-141 | Changing any other register changes no address |
| GuestStorage.GuestAddressesLie | src/Machine/MachineState.cpp:177-188 | The same for a 24-bit device address |
| GuestStorage.BufferReads | src/Machine/MachineState.cpp:225-235 | Reading a buffer gives the bytes at those addresses, when all of them are there |
| GuestStorage.BufferWrites | src/Machine/MachineState.cpp:237-247 | Writing one stores them there and changes no other byte |
| MachineStates.MachineState.constructor | src/Machine/MachineState.cpp:18-25 | The installed size it keeps and the backing it allocates, with the fallbacks for sizes out of range |
| MachineStates.MachineState.TranslatedExtents | src/Machine/MachineState.cpp:156-175 | Succeeds exactly when no register of the wrapped transfer is protected; byte i of the extents is then frame atr[base + x / 800] at offset x % 800; neighbours are grouped; a refusal names the first protected byte |
| MachineStates.MachineState.Guest24Extents | src/Machine/MachineState.cpp:177-188 | The same for a 24-bit device address, real or translated, byte by byte |
| MachineStates.MachineState.ReadGuest24Range | src/Machine/MachineState.cpp:225-235 | Reads the mapped bytes and reports failure after any latched fault |
| MachineStates.MachineState.WriteGuest24Range | src/Machine/MachineState.cpp:237-247 | Writes the mapped bytes in order; a fault latches and is reported |
| MachineStates.MachineState.WritePageFrames | src/Machine/MachineState.cpp:190-223 | All or nothing: refused exactly when some byte has no resident frame in storage, and then nothing moved; else the bytes are stored in order, and in disjoint frames byte i is at its own frame address and nothing else changed |
| MachineStates.MachineState.FramesValidated | src/Machine/MachineState.cpp:190-223 | The page-by-page validation agrees with the byte-by-byte condition |
| MachineStates.FramesLand | src/Machine/MachineState.cpp:208-222 | In frames that share no byte, byte i of the record is stored at its own frame address and no other byte changes |
| BufferCapture.CaptureBuffer | src/Devices/DeviceSet.cpp:1569-1593 | Succeeds exactly when every byte is unprotected and inside storage; each captured address is its frame and offset by its own register; and the number of physical spans |
| BufferCapture.CaptureLies | src/Devices/DeviceSet.cpp:1569-1593 | A capture exists exactly when every byte can be reached, and byte n is then where the registers put it at issue time |
| BufferCapture.TranslatedCaptureAgrees | src/Devices/DeviceSet.cpp:1569-1593 | A translated buffer is captured exactly when its extents exist inside storage, as the same addresses, with as many spans as extents |
| BufferCapture.RealCaptureAgreesIff | src/Devices/DeviceSet.cpp:1569-1593 | For an in-range real buffer the capture and the extents agree under every register file exactly when the buffer ends at or below 800000 |
| BufferCapture.CaptureRefusesAcross | src/Devices/DeviceSet.cpp:1569-1593 | Two bytes across that line with every page protected: the extents take them, the capture refuses them |
| FixedDisk.CompareIsLexicographic | src/Devices/VirtualFixedDisk.cpp:235-242 | The key comparison is unsigned lexicographic order, in all three outcomes |
| FixedDisk.SearchIsFirst | src/Devices/VirtualFixedDisk.cpp:188-225 | The scan's answer is the first hit in (sector, key position) order, and no other answer is; none means no key of any sector satisfies the relation |
| FixedDisk.VolumeRoundTrip | src/Devices/VirtualFixedDisk.cpp:244-297 | Sectors written read back as the same bytes, and the sectors around them are untouched |
| FixedDisk.WriteRefused | src/Devices/VirtualFixedDisk.cpp:244-297 | A read-only volume refuses every write; a refused write changes only the event mask |
| FixedDisk.RefusalMovesNothing | src/Devices/VirtualFixedDisk.cpp:32-122 | A refused request leaves the volume alone, and guest storage too except for the event mask and the seeded work sector |
| DiskRequests.RequestServedIff | src/Devices/VirtualFixedDisk.cpp:32-122 | From the bytes of the block alone: exactly which requests are served; every other posts 44 and leaves the volume and all but the mask and the work sector as they were |
| DiskRequests.ImmediateRequest | src/Devices/VirtualFixedDisk.cpp:32-79 | Commands 00, A0, A4 and a read of sector 0 complete without moving a byte |
| DiskRequests.WriteRequest | src/Devices/VirtualFixedDisk.cpp:244-297 | An accepted write, plain, wrapped or fill, puts every byte of every sector where the block says, leaves the other sectors, and posts 40 with the work sector past them |
| DiskRequests.ReadRequest | src/Devices/VirtualFixedDisk.cpp:81-122 | An accepted read into a buffer clear of its block puts the bytes of the named sectors there in order and changes nothing else but the mask and the work sector |
| DiskRequests.WrittenIsRead | src/Devices/VirtualFixedDisk.cpp:81-122 | Two requests on one stretch: what a write took from its buffer is what a later read delivers to its own, whatever storage and the registers hold by then |
| DiskRequests.ScanRequest | src/Devices/VirtualFixedDisk.cpp:136-225 | A scan posts 42 exactly when no key of any sector answers, where key j is the bytes at first + j * (length + gap), and relation 0, 1, 2 is equal, low or equal, high or equal in the order of bytes; else it names the first that does, its sector, its bytes and 44 or 40 |
| VirtualFixedDisks.VirtualFixedDisk.Execute | src/Devices/VirtualFixedDisk.cpp:32-122 | SVC 40 does exactly what the joint function of storage and volume says, on every branch |
| VirtualFixedDisks.VirtualFixedDisk.Scan | src/Devices/VirtualFixedDisk.cpp:136-225 | The nested scan loops compute the specified answer and leave the specified bytes |
| VirtualFixedDisks.VirtualFixedDisk.Write | src/Devices/VirtualFixedDisk.cpp:244-297 | Fill, wrap and plain writes store the specified sectors |
| VirtualFixedDisks.VirtualFixedDisk.ArgumentExtents | src/Devices/VirtualFixedDisk.cpp:350-361 | The head of an extent list covers exactly the first bytes of the buffer |
| VirtualFixedDisks.FirstHit | src/Devices/VirtualFixedDisk.cpp:188-216 | The loop over sectors and key positions stops at the specified hit |
| VirtualFixedDisks.CompareKey | src/Devices/VirtualFixedDisk.cpp:235-242 | The comparison loop returns the first difference |
| SlotMaps.SetRefines | src/Devices/DeviceSet.h:60-73 | Adding or replacing is map update, and keeps live keys distinct and the free list exactly the dead slots, each once |
| SlotMaps.EraseRefines | src/Devices/DeviceSet.h:74-84 | Erasing is map removal, and keeps the same |
| SlotMaps.FindReads | src/Devices/DeviceSet.h:46-58 | A lookup sees exactly the map |
| SlotMaps.SetOrder | src/Devices/DeviceSet.h:60-73 | Replacing keeps the walk; a new key takes the slot freed last, or the end |
| SlotMaps.EraseThenSetKeepsPlace | src/Devices/DeviceSet.h:60-84 | A key erased and set again straight away is walked where it was |
| SlotMaps.SetLookup | src/Devices/DeviceSet.h:60-73 | After a set, every other key reads as before |
| SlotMaps.EraseLookup | src/Devices/DeviceSet.h:74-84 | After an erase, every other key reads as before |
| SlotMaps.RunRefinesMap | src/Devices/DeviceSet.h:36-117 | Under every run of set, erase and clear the table is the finite map |
| SlotMaps.SlotMap.Put | src/Devices/DeviceSet.h:60-73 | The add-or-replace in place |
| SlotMaps.SlotMap.Remove | src/Devices/DeviceSet.h:74-84 | The removal in place, reporting whether the key was there |
| SlotMaps.SlotMap.Size | src/Devices/DeviceSet.h:90-96 | The number of live keys |
| SlotMaps.SlotMap.LiveKeys | src/Devices/DeviceSet.h:106-112 | The live keys in slot order |
| Terminals.Workstation.Accept | src/Host/StationBackend.cpp:455-509 | A record takes the park slot from whatever was there and withdraws a taken status with it; attentions and save replies go elsewhere |
| Terminals.Workstation.TryTakeInputStatus | src/Host/StationBackend.cpp:662-675 | Cursor and AID of the parked record are given out once |
| Terminals.Workstation.TryReceive | src/Host/StationBackend.cpp:677-685 | The parked record leaves the wire queue and with it its taken status |
| Terminals.Workstation.CompleteInviteResponse | src/Devices/VirtualWorkstation.cpp:329-343 | One response moves from the wire to the retained slot, with the read mode it answers |
| Terminals.Workstation.TryTakeInputFields | src/Devices/VirtualWorkstation.cpp:281-316 | The retained record is taken before the parked one, and expanded only for a field-format command 42 |
| Terminals.Workstation.SwitchOff | src/Devices/VirtualWorkstation.cpp:73-84 | Powering off forgets the invite, the read mode, the retained and the parked input |
| Terminals.Workstation.OutputOperation | src/Devices/VirtualWorkstation.cpp:105-170 | What a put sends and which read mode it selects |
| Terminals.InviteMatchesWire | src/Devices/VirtualWorkstation.cpp:105-170 | The read command on the wire of a PUT-with-invite is the one its response will be read under, and no other |
| Terminals.PutSelectsRead | src/Devices/VirtualWorkstation.cpp:105-170 | The read a PUT-with-invite puts on the wire, in octets: Read Text Screen for a text format, Read Input Fields for fields, else what was selected before |
| Terminals.FirstInvite | src/Devices/VirtualWorkstation.cpp:251-265 | The first invitation of a terminal is 04 52 00 00 |
| Terminals.TextFormatIs | src/Devices/VirtualWorkstation.cpp:192-208 | A text format is found exactly when the chain of structured fields reaches one |
| Terminals.WriteToDisplayIs | src/Devices/VirtualWorkstation.cpp:210-222 | A Write to Display is found exactly when no structured field comes before it |
| Terminals.SavedReadMode | src/Host/StationBackend.cpp:563-576 | A saved screen that is put back selects the read it was saved under |
| Terminals.RepliesWait | src/Host/StationBackend.cpp:455-509 | Of the save replies the last eight wait, in order |
| Terminals.ScanTextFormat | src/Devices/VirtualWorkstation.cpp:192-208 | The scan respects structured-field lengths |
| Terminals.ScanWriteToDisplay | src/Devices/VirtualWorkstation.cpp:210-222 | The scan stops at a structured-field command |
| DeviceSets.DeviceSet.TerminalRecord | src/Host/StationBackend.cpp:455-509 | A record's arrival is entered in the ledger with the record it displaced |
| DeviceSets.DeviceSet.TryDeliverInputStatus | src/Devices/DeviceSet.cpp:398-456 | The status half: taken once, stored in the unit block and in the one-shot table |
| DeviceSets.DeviceSet.OpenOutput | src/Devices/DeviceSet.cpp:1022-1049 | The class-C0 opening: three unit-block bits cleared, and for A7 the old status dropped and class C1 |
| DeviceSets.DeviceSet.RespondOutput | src/Devices/DeviceSet.cpp:1051-1083 | The class-C1 pass completes on a matching status or arms, invites and waits |
| DeviceSets.DeviceSet.OutputData | src/Devices/DeviceSet.cpp:1372-1482 | A put completes at once; a PUT-with-invite the transport took is retained |
| DeviceSets.DeviceSet.ReadInputFields | src/Devices/DeviceSet.cpp:1155-1224 | A read captures its buffer at issue time and waits; a repeated one changes nothing |
| DeviceSets.DeviceSet.FinishRead | src/Devices/DeviceSet.cpp:602-708 | A read consumes one record, places its field bytes and retires the status; a short one is consumed and the read stays |
| DeviceSets.DeviceSet.TryCompletePendingInput | src/Devices/DeviceSet.cpp:554-709 | One pass completes the first ready class-C1 wait, else the first ready PUT-with-invite, else the first ready read, in table order |
| DeviceSets.DeviceSet.TryFailPendingOperationForUnit | src/Devices/DeviceSet.cpp:465-533 | One retained request of a unit whose terminal was switched off is failed with 41, in the same order of tables |
| DeviceSets.DeviceSet.CancelPendingOperation | src/Devices/DeviceSet.cpp:92-107 | A terminating task's request leaves every table without a completion |
| DeviceSets.DeviceSet.InviteAll | src/Devices/DeviceSet.cpp:1094-1111 | A unit-FF request invites every display once and stays owned |
| DeviceSets.DeviceSet.Request | src/Devices/DeviceSet.cpp:905-1016 | The display arms of the request switch, with the class, unit and detached checks before them |
| DeviceSets.DeviceSet.PowerOffStation | src/Devices/VirtualWorkstation.cpp:73-84 | Powering a station off loses its parked and retained records, and the ledger says so |
| RetainedIo.RecordsAreLinear | src/Devices/DeviceSet.cpp:554-709 | Over every run an accepted record is in exactly one place, has its status reported at most once, completes at most one PUT-with-invite and is read at most once; the park holds at most one, and a taken status implies one is there |
| RetainedIo.AnswersFollowStatus | src/Devices/DeviceSet.cpp:398-709 | Over every run a class-C1 wait, a retained PUT-with-invite or a read is answered only after a status was reported to the same unit block of the same unit and before anything consumed or replaced it |
| RetainedIo.StepInv | src/Devices/DeviceSet.cpp:398-1482 | Every step, the guest running included, keeps the ledger balanced and the status table in step with the log |
| RetainedIo.ClaimMatchesReport | src/Devices/DeviceSet.cpp:584-601 | A PUT-with-invite claims the record whose status answered it exactly when no later record has taken the park |
| RetainedIo.OvertakenStatus | src/Devices/DeviceSet.cpp:584-601 | From any state where a PUT-with-invite is ready, one more arrival makes it claim a record whose status was never reported |
| Completions.PassAnswers | src/Devices/DeviceSet.cpp:554-709 | A pass that does anything acts on one retained request: it answers it with 40 on a status delivered for its own unit and unit block, or wastes a record on a read. A class-C1 wait and a read then leave no status for the unit, a PUT-with-invite leaves it, and no other unit changes |
| Completions.LeavesOnlyReleased | src/Devices/DeviceSet.cpp:92-1482 | Whatever step is taken, a retained request stays in its table or left it answered so, refused with 44, failed with 41, or dropped with its task and nothing posted |
| Completions.MaskTurnsOnlyAnswered | src/Devices/DeviceSet.cpp:398-1482 | In every state of a run, for request blocks kept apart from the unit blocks and buffers of others, the event mask of a retained request turns to 40 only when a pass answers that request, or when the guest asks again with the same block and is posted at once |
| Completions.RunTurnsOnlyAnswered | src/Devices/DeviceSet.cpp:398-1482 | The two together at every step of every run |
| Completions.RequestPostsIff | src/Devices/DeviceSet.cpp:905-1482 | After any one request its mask is 40 exactly when it was a cancelled invite, a plain PUT with a usable buffer, an unsent PUT-with-invite or a class-C1 pass with its own status there, or when it was 40 and is not written |
| Completions.ReissueKeeps | src/Devices/DeviceSet.cpp:905-1224 | Asking again with a request block that is still retained takes no request out of its table, changes no other request, and leaves a retained read as it was |
| Completions.FailOneFails | src/Devices/DeviceSet.cpp:465-533 | Failing a unit fails one retained request of that unit with 41 and drops its status, and changes no other request |
| Completions.CancelDrops | src/Devices/DeviceSet.cpp:92-107 | A terminating task's request is in no table afterwards, every other is as before, and nothing is posted |
| Completions.OvertakenRun | src/Devices/DeviceSet.cpp:398-601 | From every start where a guest asks for a PUT-with-invite: a run that completes it with a record whose status was never reported, the reported one being lost |
| Completions.AskingStartAsks | src/Devices/DeviceSet.cpp:1022-1482 | Such a start |
| Completions.ResponsePostsIff | src/Devices/DeviceSet.cpp:1051-1083 | A class-C1 request posts 40 exactly when a status is there for its unit and unit block; else it is armed and retained |
| Completions.UnsentPutPosts | src/Devices/DeviceSet.cpp:1433-1482 | A new PUT-with-invite posts 40 at once exactly when the transport refused its record |
| RequestOutcomes.RequestPosts | src/Devices/DeviceSet.cpp:905-1016 | From the bytes of the block: a request leaves 40 exactly when it is done at once, or when it held 40 and was left alone |
| RequestOutcomes.RequestRetains | src/Devices/DeviceSet.cpp:905-1224 | Exactly which request joins which table, and with what; every other leaves the tables as they are |
| RequestOutcomes.PassTakesFirst | src/Devices/DeviceSet.cpp:554-709 | Which request a pass answers: the first class-C1 one in table order whose status stands, else the first such PUT-with-invite, else the first such read |
| RequestOutcomes.FailureOrder | src/Devices/DeviceSet.cpp:465-533 | Which request a switched-off terminal fails first |
| RequestOutcomes.FailedLeaves | src/Devices/DeviceSet.cpp:519-548 | What a failure leaves: twelve sense bytes and the bits of the unit block, 41 in the mask, and no other byte |
| RequestOutcomes.PowerOffSense | src/Devices/DeviceSet.cpp:465-533 | The sense of a power-off is 22 at its first byte and 80 at its fourth |
| RequestOutcomes.DetachedSense | src/Devices/DeviceSet.cpp:535-548 | A request to a display switched off since it was bound fails with 28, 02 and 03 |
| RequestOutcomes.PollReports | src/Devices/DeviceSet.cpp:398-456 | A poll reports exactly for an eyecatcher and a unit with an untaken record, and the status then stands for that unit and block |
| RequestOutcomes.OpenLeaves | src/Devices/DeviceSet.cpp:1022-1049 | Opening an output action turns three bits of the block off, moves an A7 to class C1, and changes no other byte |
| RequestOutcomes.OpenRetires | src/Devices/DeviceSet.cpp:1022-1049 | An A7 drops the status of its unit; another leaves it |
| Completions.ReadIssuePosts | src/Devices/DeviceSet.cpp:1155-1224 | Issuing a read never posts 40 |
| RetainedIo.DeliverTells | src/Devices/DeviceSet.cpp:398-456 | The unit block gets exactly the flag, AID and cursor of the parked record, and outside class C0 the AID copy and the input gate; no other byte changes |
| RetainedIo.ReadPlaces | src/Devices/DeviceSet.cpp:636-662 | Field bytes land at the captured destination in order, as many as fit, and nothing else changes |
| RetainedIo.CountedReadPlaces | src/Devices/DeviceSet.cpp:638-647 | The 18xx form of command 32: six EE bytes, the true count, then the fields |
| FieldReads.ReadsDeliver | src/Devices/DeviceSet.cpp:602-708 | Over every run, what a read leaves in storage is made of the one record its event names, by its place in the order of arrival: from the fourth byte, expanded exactly for command 42 and a record that did not answer a Read Text Screen still standing; at the addresses a guest request named when it was issued; and when that buffer is clear of both blocks, with the status, the mask and nothing else |
| FieldReads.ReadWasPass | src/Devices/DeviceSet.cpp:554-709 | Every read in the log of a run is such a pass |
| FieldReads.ReadWasAsked | src/Devices/DeviceSet.cpp:1155-1224 | Every read kept is one a guest request asked for, with the command, length and addresses its block held then |
| FieldReads.RunFromLine | src/Host/StationBackend.cpp:455-509 | Every record a terminal holds, over every run, is the one that arrived under that serial on its own line |
| FieldReads.WaitsTell | src/Devices/DeviceSet.cpp:554-600 | Over every run, a class-C1 request answered by a pass finds in its block the cursor and AID of the very record whose status answered it, and 40; when the two blocks are apart no other byte changes |
| FieldReads.ResponseTells | src/Devices/DeviceSet.cpp:1051-1083 | The same for one answered at once |
| FieldReads.WithdrawnExpands | src/Devices/VirtualWorkstation.cpp:281-316 | Withdrawing the invitation after the response makes command 42 expand a Read Text Screen reply |
| PendingCheckpoints.CheckpointRoundTrip | src/Devices/DeviceSet.cpp:132-264 | Restoring a capture on the same slots always succeeds, and gives back every table with its keys, values and order exactly when no screen save and no deferred input was outstanding; capturing again gives the same lists |
| PendingCheckpoints.ReadsReadBack | src/Devices/DeviceSet.cpp:135-146 | The variable-length read rows parse back row by row |
| PendingCheckpoints.StatusReadBack | src/Devices/DeviceSet.cpp:151-157 | The status rows parse back row by row |
| PendingCheckpoints.ReadLaidOut | src/Devices/DeviceSet.cpp:132-181 | Where each field of each retained read stands in the checkpoint, at computed positions |
| PendingCheckpoints.StatusLaidOut | src/Devices/DeviceSet.cpp:132-181 | The same for status rows |
| PendingCheckpoints.WaitLaidOut | src/Devices/DeviceSet.cpp:132-181 | The same for class-C1 requests and PUT-with-invites |
| PendingCheckpoints.PageLaidOut | src/Devices/DeviceSet.cpp:132-181 | The same for pairs |
| PendingCheckpoints.SlotsRestored | src/Devices/DeviceSet.cpp:169-174 | The native state of every slot comes back, for printers too |
| PendingCheckpoints.RefusalResetsIff | src/Devices/DeviceSet.cpp:183-264 | For every slot list and checkpoint, a refused restore leaves the reset state exactly when every list before the refused one is empty and the refused one fails at its first row |
| PendingCheckpoints.RefusalKeepsReads | src/Devices/DeviceSet.cpp:183-225 | A restore refused at a later list leaves the reads of the earlier one in place |
| PendingCheckpoints.PendingIo.CaptureCheckpoint | src/Devices/DeviceSet.cpp:132-181 | The capture loops write the specified lists |
| PendingCheckpoints.PendingIo.RestoreCheckpoint | src/Devices/DeviceSet.cpp:183-264 | The restore loops accept and refuse exactly the specified lists and leave the specified tables, on refusal too |
| ScsRenderer.ChunkingIsInvisible | src/Host/StationBackend.cpp:734-866 | However a job is cut into records, its console lines are those of the whole stream, and nothing stays carried |
| ScsRenderer.AnyTwoCutsAgree | src/Host/StationBackend.cpp:734-866 | Two ways of cutting one stream print the same |
| ScsRenderer.JobIsWhole | src/Host/StationBackend.cpp:734-866 | The same from any carried line and pending bytes |
| ScsRenderer.RenderSplits | src/Host/StationBackend.cpp:734-866 | Rendering a stream in two parts, with what the first left pending, is rendering it whole |
| ScsRenderer.CommandIsPrefix | src/Host/StationBackend.cpp:768-857 | Later bytes never change what a complete command is |
| ScsRenderer.SpoolPrintsPieces | src/Host/StationBackend.cpp:968-1086 | A text or PDF printer, over every run of records and job ends, whichever ends fail to write: its files are the renderings of the bytes between the ends that were written, and the rest is held for the next |
| ScsRenderer.PiecesConserve | src/Host/StationBackend.cpp:968-1086 | Those pieces together are every byte sent, once and in order |
| ScsRenderer.TextJobIsWhole | src/Host/StationBackend.cpp:868-881 | One job's file is the rendering of all its records together |
| ScsRenderer.SpoolCutsAgree | src/Host/StationBackend.cpp:968-1086 | So the files do not depend on how the bytes are cut into records |
| ScsRenderer.PrinterSpool.SendDataStream | src/Host/StationBackend.cpp:968-973 | A record is appended to the job |
| ScsRenderer.PrinterSpool.EndJob | src/Host/StationBackend.cpp:989-1086 | The job is rendered and published, or stays held when its file cannot be written |
| ScsRenderer.PrinterSpool.RenderText | src/Host/StationBackend.cpp:868-881 | The text of a job, line by line |
| ScsRenderer.PrinterConsole.RenderBytes | src/Host/StationBackend.cpp:734-866 | The renderer loop is the command-by-command rendering |
| ScsRenderer.PrinterConsole.SendDataStream | src/Host/StationBackend.cpp:940-949 | One output record on a console printer |
| ScsRenderer.PrinterConsole.EndJob | src/Host/StationBackend.cpp:1066-1076 | The final flush |
| PrintedPages.EveryStream | src/Host/StationBackend.cpp:734-866 | Every byte stream is a job of complete commands and at most one cut-off command at its end |
| PrintedPages.FilePrintsPages | src/Host/StationBackend.cpp:734-883 | The text file of any job is its pages, row by row: each row the text between two line ends with its blanks, a form feed a new page |
| PrintedPages.TextLies | src/Host/StationBackend.cpp:734-866 | Every piece of text stands whole on its own row of its own page: CR ends a line with text and adds none, the text after 34 C4 n is on row max(n, 1) unless the page is past it, and all other rows are blank |
| PrintedPages.ConsoleShows | src/Host/StationBackend.cpp:734-866 | The console of any job, however cut into records: every piece of text and every remark in stream order, and nothing else |
| Telnet.FramingRoundTrip | src/Host/Telnet5250Session.cpp:213-382 | Records sent one after another, with any complete Telnet commands between any of their octets, arrive exactly as sent and in order, and the machine ends in its data state with nothing half-read |
| Telnet.WireIsPieces | src/Host/Telnet5250Session.cpp:213-264 | The octets a record is sent as: the escaped frame and the end-of-record command |
| Telnet.FeedAppend | src/Host/Telnet5250Session.cpp:283-360 | How the socket cuts the stream makes no difference |
| Telnet.SubArrives | src/Host/Telnet5250Session.cpp:334-356 | A sub-negotiation is handled with exactly the octets it was sent with |
| Telnet.NegotiationHolds | src/Host/Telnet5250Session.cpp:186-209 | After any octets, what the peer performs was asked for and what it lets us perform was offered, both within the options served; ready means both directions agreed; the ready callback ran at most once |
| Telnet.UnchangedIsAnsweredIff | src/Host/Telnet5250Session.cpp:384-460 | In every reachable session, a verb changes no option state exactly when this side refuses what it asks or the option already stands so; the session then writes something exactly when the verb is refused or is WILL TERMINAL-TYPE or WILL NEW-ENVIRON, and what it writes is the opposite verb or the request for the value |
| Telnet.EchoIsRefusedEachTime | src/Host/Telnet5250Session.cpp:391-401 | In every reachable session WILL ECHO changes no option state and is answered DONT |
| Telnet.TypeIsAskedEachTime | src/Host/Telnet5250Session.cpp:384-437 | From the start, a second WILL TERMINAL-TYPE changes no option state and draws the request for the type again |
| Telnet.RepeatDrawsAskOnly | src/Host/Telnet5250Session.cpp:384-460 | A verb that is not refused, heard twice in a row, draws no second verb and changes nothing more: only the request for a value goes out again |
| TelnetOctets.SentOctets | src/Host/Telnet5250Session.cpp:213-264 | A record goes out as its length, 12 A0 00 00, 04, flags, opcode and data, every 255 doubled, closed by 255 239, and in no other way |
| TelnetOctets.ReceivedOctets | src/Host/Telnet5250Session.cpp:362-382 | Any octets so closed are handed up with their own opcode, flags and data, or dropped when shorter than the header |
| TelnetOctets.WillOctets | src/Host/Telnet5250Session.cpp:384-437 | What each WILL writes and changes, in octets |
| TelnetOctets.WontOctets | src/Host/Telnet5250Session.cpp:384-460 | What each WONT does |
| TelnetOctets.DoOctets | src/Host/Telnet5250Session.cpp:384-460 | What each DO writes and changes |
| TelnetOctets.DontOctets | src/Host/Telnet5250Session.cpp:384-460 | What each DONT does |
| TelnetOctets.TypeOctets | src/Host/Telnet5250Session.cpp:468-526 | What goes out for a terminal type this endpoint serves, and that nothing does for another |
| TelnetOctets.HistoryDecides | src/Host/Telnet5250Session.cpp:186-209 | After any complete exchange the session knows the last type named and what the peer last said of each option; it is ready exactly when a type is named and the four agreements stand; and the ready callback ran once exactly if they stood when it looked |
| TelnetOctets.AgreementMakesReady | src/Host/Telnet5250Session.cpp:186-209 | A served terminal type, then the four agreements in any order with no withdrawal between, make the session ready and call back once |
| Telnet.Telnet5250Session.Send | src/Host/Telnet5250Session.cpp:213-244 | One record framed, escaped and ended on the wire |
| Telnet.Telnet5250Session.ReadBuffer | src/Host/Telnet5250Session.cpp:283-360 | The read loop over one buffer |
| Telnet.Telnet5250Session.OnVerb | src/Host/Telnet5250Session.cpp:384-460 | The answer, the invitation that follows a WILL, and the ready signal |
| Telnet.Telnet5250Session.OnSubnegotiation | src/Host/Telnet5250Session.cpp:468-526 | The terminal type opens both directions of BINARY and END-OF-RECORD, each asked once |
| ConsoleDisplays.ReplyExpands | src/Host/ConsoleDisplay.cpp:378-452 | A reply of SBA groups over input fields that do not overlap gives cursor and AID, then every input field in return order at full width, holding exactly what the last group said about it or else the screen with nulls as blanks |
| ConsoleDisplays.MergeGives | src/Host/ConsoleDisplay.cpp:384-428 | One group changes the field it names, to its data cut or blank-padded or to blanks, and no other |
| ConsoleDisplays.ValuesWidth | src/Host/ConsoleDisplay.cpp:446-452 | The record has the width of every field whatever the reply left out |
| ConsoleDisplays.ResequencedOrder | src/Host/ConsoleDisplay.cpp:313-339 | With resequencing on, fields come back from the first named, each linked to the next, none twice, whatever loop the chain makes |
| ConsoleDisplays.ScreenOrderSorts | src/Host/ConsoleDisplay.cpp:313-320 | Without it, a stable sort of the input fields by position |
| ConsoleDisplays.CoversIsCell | src/Host/ConsoleDisplay.cpp:12-19 | A field covers exactly its own cells, across the end of the screen |
| ConsoleDisplays.TableStaysUnique | src/Host/ConsoleDisplay.cpp:232-239 | The format table never holds two fields for one first cell; a new one replaces the old and joins the end |
| FieldLaws.OrderReads | src/Host/ConsoleDisplay.cpp:191-231 | A Start of Field order spelled out, with any format word and control words, reads back whatever follows it |
| FieldLaws.FieldDefined | src/Host/ConsoleDisplay.cpp:191-255 | The attribute takes the cell at the buffer address, the field begins at the next, an input field is closed by a 20 after its last cell, and no other cell changes |
| FieldLaws.FieldJoins | src/Host/ConsoleDisplay.cpp:232-239 | The field defined replaces the one of its first cell and joins the end; the others keep their order |
| FieldLaws.RecordBytes | src/Host/ConsoleDisplay.cpp:378-452 | The record byte by byte: cursor and AID, then the fields side by side in return order, each byte as the reply or the screen has it |
| FieldLaws.PositionalReply | src/Host/ConsoleDisplay.cpp:378-384 | A reply not laid out by buffer addresses goes through as it is |
| ConsoleDisplays.ConsoleDisplay.ExpandModifiedInput | src/Host/ConsoleDisplay.cpp:378-452 | The expansion in place |
| ConsoleDisplays.ConsoleDisplay.ReturnOrder | src/Host/ConsoleDisplay.cpp:313-339 | The sort and the bounded walk of the chain |
| ConsoleDisplays.ConsoleDisplay.FindField | src/Host/ConsoleDisplay.cpp:306-311 | The first input field of the table that covers a position |
| ConsoleDisplays.ConsoleDisplay.ScreenContent | src/Host/ConsoleDisplay.cpp:361-376 | A field's bytes with nulls as blanks, wrapping |
| ConsoleDisplays.ConsoleDisplay.StartOfField | src/Host/ConsoleDisplay.cpp:191-255 | The Start of Field order: its operands, the attribute cell, the table entry and the closing attribute |
| SnapshotCodec.ValueReadsBack | src/Monitor/MachineSnapshot.cpp:58-348 | Every value the writer puts out comes back, leaving exactly what followed it, when it is within the reader's bounds; else the reader refuses it |
| SnapshotCodec.TextReadsBack | src/Monitor/MachineSnapshot.cpp:113-132 | A string comes back exactly when it is no longer than a megabyte |
| SnapshotCodec.Length7ReadsBack | src/Monitor/MachineSnapshot.cpp:113-123 | A 7-bit length comes back when it takes no more groups than the reader allows, and is refused otherwise |
| SnapshotCodec.IntReadsBack | src/Monitor/MachineSnapshot.cpp:97-103 | Two's-complement integers come back |
| SnapshotCodec.AllReadBack | src/Monitor/MachineSnapshot.cpp:58-348 | So does any sequence of values read by their own kinds |
| SnapshotCodec.ValueOctets | src/Monitor/MachineSnapshot.cpp:90-147 | The octets of every kind of value the writer puts out |
| SnapshotCodec.IntsFlat | src/Monitor/MachineSnapshot.cpp:132-136 | A counted list is four octets an integer, in order |
| Snapshots.ConfigRoundTrip | src/Monitor/MachineSnapshot.cpp:485-561 | The machine definition comes back whole, leaving exactly what followed, or is refused when a string or the station count is out of bounds |
| Snapshots.RuntimeRoundTrip | src/Monitor/MachineSnapshot.cpp:563-817 | The same for the volatile state: storage, registers, the control storage processor, the pending work, the tape, the stations and the printers |
| Snapshots.MemoryReadsBack | src/Monitor/MachineSnapshot.cpp:691-698 | Main storage is refused beyond 16 MB, and the registers must number 128 |
| Snapshots.RecordReadsBack | src/Monitor/MachineSnapshot.cpp:485-817 | Any record whose reader makes the calls its writer made, kind by kind, comes back or is refused out of bounds |
| Snapshots.CountedReadsBack | src/Monitor/MachineSnapshot.cpp:791-805 | A counted list of records comes back in order, and is refused past the reader's count |
| SnapshotStreams.Writer.WriteConfig | src/Monitor/MachineSnapshot.cpp:485-519 | The writer's calls put out the specified values in order |
| SnapshotStreams.Writer.DotnetString | src/Monitor/MachineSnapshot.cpp:113-123 | The 7-bit length loop |
| SnapshotStreams.Writer.Integer | src/Monitor/MachineSnapshot.cpp:97-103 | Four bytes, low first |
| SnapshotStreams.Reader.Length | src/Monitor/MachineSnapshot.cpp:257-272 | The length loop, up to six groups |
| SnapshotStreams.Reader.String | src/Monitor/MachineSnapshot.cpp:257-277 | Presence, length, bound, bytes |
| SnapshotStreams.Reader.Ints | src/Monitor/MachineSnapshot.cpp:278-284 | The counted list loop |
| CommandLines.QuotedLineRoundTrips | src/Monitor/CommandLine.cpp:7-62 | Quoting an argument list and lexing the line gives the list back for every list except exactly those whose line reads as a comment |
| CommandLines.HashArgumentIsLost | src/Monitor/CommandLine.cpp:7-20 | A first argument "#1" is written without quotes and lost |
| CommandLines.SemicolonEnds | src/Monitor/CommandLine.cpp:7-62 | Outside quotes a semicolon ends what the lexer reads |
| CommandLines.QuotedIsOneWord | src/Monitor/CommandLine.cpp:7-62 | Anything quoted is one word, blanks and comment signs included |
| CommandLines.QuoteKeeps | src/Monitor/CommandLine.cpp:7-62 | Inside one kind of quote the other is a character |
| CommandLines.BackslashKeeps | src/Monitor/CommandLine.cpp:7-62 | A backslash keeps the character after it |
| CommandLines.Tokenize | src/Monitor/CommandLine.cpp:7-62 | The lexer loop is the character-by-character machine |
| CommandLines.QuoteArgument | src/Monitor/ConfigurationRenderer.cpp:169-187 | The quoter writes a bare word or a quoted one with its escapes |
| Schedulers.HistoryOrdered | src/Machine/Scheduler.cpp:7-34 | Over every history, with actions that change the machine and schedule more events, clearing and restores: in each stretch between restores dispatch order is strictly increasing in (time, insertion sequence), and every event asked for ran, is pending or was cleared |
| Schedulers.PerformKeeps | src/Machine/Scheduler.cpp:7-34 | Only a restore sets the clock back or starts a new log |
| Schedulers.RunComplete | src/Machine/Scheduler.cpp:17-26 | When a run returns, every event due by then has run, all pending ones are later, none is lost but those cleared before, and the clock stands at the limit or where it was |
| SchedulerRuns.RunAccounts | src/Machine/Scheduler.cpp:17-26 | However long a run is followed: the machine is the fold of the actions that ran, every event that ran or is pending was there before or was asked for by one of them at the later of its time and the asker's, numbered in the order of asking, and the clock is at the limit, or past it if it was, or at the last event while it goes on |
| SchedulerRuns.AtAdds | src/Machine/Scheduler.cpp:7-15 | An event from outside joins the queue with the next number, and nothing else changes |
| Schedulers.DrainKeeps | src/Machine/Scheduler.cpp:17-26 | However far a drain is followed, the clock never goes back and what ran stays in the log |
| Schedulers.ScheduleKeeps | src/Machine/Scheduler.cpp:7-15 | An event asked for in the past happens now, behind those already due |
| Schedulers.Scheduler.At | src/Machine/Scheduler.cpp:7-15 | The insertion in place |
| Schedulers.LaterRunsEnd | src/Machine/Scheduler.cpp:17-26 | If no action schedules at or before its own instant, every run ends |
| Schedulers.Scheduler.RunUntil | src/Machine/Scheduler.cpp:17-26 | The drain loop in place, and whether it ended |
| Schedulers.Scheduler.RestoreClock | src/Machine/Scheduler.cpp:28-34 | A clock is admitted only with an empty queue, and the sequence numbers start again |
| Schedulers.Scheduler.Clear | src/Machine/Scheduler.h:37-37 | The queue is emptied |

## Left out

- Tracing, counters kept only for display, the last-read and last-output copies, diagnostic histories, write
  watchpoints and the address of a fault: none of them feeds back into the behaviour modelled.
- Sockets, threads, locks, listeners and handover: every backend call is one step; writes to a socket succeed.
- The SIMH container file itself and its flushing, the folder tape backend, and the disk image and its overlay: media
  are sequences of items and of sectors. An unreadable sector is not modelled.
- The diskette, the control storage processor, MSP instructions, printers on the controller (their slots, puts and
  Clear), Read Current Configuration and Configure New Work Stations.
- The fault a read outside storage latches inside the work station controller and the disk's guest reads beyond what
  the tape, disk and range transfers observe; the controller is modelled on the bytes it reads and writes.
- IOB address zero, which the controller uses as "none".
- Save Screen and Restore Screen requests, except a PUT that carries a saved screen: a pass that completes a screen save
  does nothing else, and is not part of a run here.
- The SLIC and WSDM output adapters, the record a console attachment shows locally, and `detach`.
- Printer files and sockets: raw file output, the PDF drawing, the file names of a job and the print records sent to a
  client; a job is the text it renders to.
- EBCDIC tables: the renderer takes any mapping from bytes to text; the controller takes any expansion of field data.
- The NEW-ENVIRON variables, the published terminal-type lists (a session takes any test of a type) and a closed session.
- The other orders of `ConsoleDisplay::apply` beside Start of Field, and typing into fields.
- Schedulers.Scheduler.RunUntil: follows the run for a given number of events and says whether it ended, because a run
  need not end: an action may schedule itself at the same instant for ever.
- Schedulers.RunComplete: stated for runs that end, for the same reason; `LaterRunsEnd` says when they do.
- Schedulers.HistoryOrdered: an action does not clear the queue or restore the clock while a run is under way.
- Snapshots.RuntimeRoundTrip: counts that do not fit 32 bits are excluded; the writer's cast would change them.
- SnapshotStreams.Writer.WriteConfig: the definition is written in place; reading it back, and the volatile state both
  ways, are functions over the same stream. Files and directories inside the checkpoint, its header and gzip are not
  modelled.
- Terminals.Workstation.SwitchOff: the display's saved-screen state is not kept, because screen saves are left out.
- Terminals.Workstation.OutputOperation: the SLIC and WSDM adapters and the result of the send are not in it.
- DeviceSets.DeviceSet.OutputData: a put to a printer is not in it; nor is a printer's slot in `Request`.
- DeviceSets.DeviceSet.Request: Save Screen, Restore Screen and Clear are not among its arms.
- DeviceSets.DeviceSet.TryCompletePendingInput: a pass in which a save reply is waiting completes a screen save first.
- DeviceSets.DeviceSet.TryFailPendingOperationForUnit: a retained screen save is not among what it may fail.
- DeviceSets.DeviceSet.CancelPendingOperation: screen saves and printer outputs are not among what it drops.
- ScsRenderer.PrinterConsole.SendDataStream: the console printer only; `PrinterSpool` has the text and PDF ones.
- ScsRenderer.PrinterConsole.EndJob: the same, without the end-of-job line a console prints.
- Telnet.Telnet5250Session.OnSubnegotiation: the NEW-ENVIRON arm is not in it.
- Integer overflow of the program's 64-bit counters and of the clock.
