# A Dafny model of the Basic Four 2000 emulator's controllers

The emulator imitates a MAI Basic Four 2000. Its processor is Musashi; what is its own, and
modelled here, are the device controllers and a few small languages around them. Each
component is a specification on values, with theorems about it, and a class that keeps the
fields and loops of the source and is proved against that specification.

| component | source | modules |
|---|---|---|
| Winchester controller: phase ladder, interrupt arbiter | src/wd.c | WdController, WdControl, WdTranscript, WdHostData, WdInterrupts, WdWaits, WinchesterRegisters |
| its DMA engine and command blocks | src/wd.c, src/memory.c, eagletests/eagletest/wd.c | Memory, WdDma, WdTransfers, WdWraps, WdOutcomes, WdCdb, WdPolled |
| 4-Way boards | src/fourway.c | FourWay, FourWayDelivery, FourWayOrder, FourWayHandshake, FourWayStatus, FourWayBoards |
| expression parser | eagletests/eagletest/exprparse.c | ExprGrammar, ExprRoundTrip, ExprStreams, ExprMeaning, ExprPartial, ExprLexer, ExprScan, ExprParser |
| memory management unit | src/mmu.c, src/sim.c | Mmu, MmuUnit |
| cartridge tape | src/cs.c | Tape, TapeDrive, Bus |
| S-record loader | src/load.c | SRecord, SRecordDamage, SRecordLoader, Bus |
| configuration record | tools/configrec.py | Rotations, ConfigRecord, ConfigEdit, ConfigBytes |
| ring buffer | src/charringbuffer.c | RingBuffer |
| timer and host clock | src/pit.c, src/sim.c | Pit, PitInterrupt, IrqDevices |
| serial chip, interrupts of floppy and tape, interrupt lines | src/scc.c, src/fd.c, src/cs.c, src/sim.c, src/Musashi/m68kcpu.c | Scc, SccInterrupt, Floppy, FloppyInterrupt, IrqLines, IrqFabric, IrqDevices |
| terminal translator | src/esc_sequences.c | EscSequences, Terminal, Translator |

`Words` holds bytes and C's 32 bit arithmetic: wrap-around, truncating division, bitwise
operations on unbounded numbers. Signed overflow is taken to wrap. `Options` holds a value that
may be missing, `Registers` the registers that are written byte by byte.

## How to read it

- **Winchester controller.** What a command does to disk, memory and reply enters the ladder as
  an arbitrary `Outcome`, so the results about sessions hold for whatever the command switch
  computes. A session is any interleaving of device time and of a host that sends one command
  block, takes input only while the status byte it reads shows INPFULL and otherwise waits.
  `EndsIffCompletes` gives the exact condition under which a command ends. In `WdHostData` the host
  goes on with data bytes, each sent when the status byte shows the register empty. `WdDma` has
  READ and WRITE twice, chunk by chunk as they run and in closed form, `ReadEffect` and
  `WriteEffect`; `ReadCloses` and `WriteCloses` say where the two are one. `WdTransfers` is about
  the closed form, `WdWraps` about the ranges that leave 32 bits, and `ReadCommandEndToEnd` and
  `WriteCommandEndToEnd` join encoder, ladder and copy.
- **4-Way boards.** A tally of multisets follows every request through line, slots and
  acknowledge. A second request of a port that is still waiting replaces the first; it is
  counted as overwritten.
- **Expressions.** `ExprGrammar` is the recursive descent over a token stream; `ExprLexer` makes
  the stream and adds the layout of tokens as text; the class `ExprParser.Parser` does both over
  a cursor. `Trap` stands for what C leaves undefined or never finishes: division by zero, the
  least integer divided by -1, a negative exponent. `ExprStreams` walks over the tokens with a
  stack of open parentheses, once strictly and once as laxly as the parser: the first walk
  decides which streams are expressions, the second for which an error is recorded.
- **Registers by their bits.** The operations of a device and the statements about it often share
  predicates such as `Granted` or `Want`. `GrantedByBits`, `HandshakeStores`, `StatusIff`, `AsksIff`,
  `TransmitIff`, `BitwiseOps` and `OperationsMean` say what those come to in the bits the host wrote or
  in plain integers; `WdOutcomes`, `WdControl`, `ConfigBytes` and `ExprScan` do so for whole
  components.
- **Terminals.** `Terminal` reads the stream of the host as an EVDT and its translation as a VT100,
  each by its own table.
- **Interrupt fabric.** A board is the machines of timer, serial chip, disk, 4-Way, floppy and the
  tape's interrupt beside the CPU's lines; its events are theirs, the CPU's acknowledge cycle
  and the system reset. The classes of these devices hold the CPU and drive its lines the same way.
- **Tape.** The reference is a flat stream: a file's whole blocks, then a mark, the last of them
  the end of the tape. READ is a step of a reader of that stream.
- **Bus.** The tape reader and the loader write to bus addresses; `bus` maps each address to the
  byte last written to it.

## Where code and documentation disagree

The model follows the code.

- src/esc_sequences.h gives the home sequence three characters, the table completes it after
  two: `EscSequences.HomeLeavesALetter`. The attribute `ESC g 3` lacks an `m` in the table, so it is
  not underlined: `Terminal.ShownAsAskedIff`.
- src/mmu.c says that the descriptor windows read back what was written. The limit window reads
  the segment status in all its addresses, whatever the limit: `MmuUnit.Unit.ReadWord`.
- tools/configrec.py skips stored checksums of zero because an empty region is said to checksum
  to zero. It checksums to 10: `ConfigRecord.EmptyChecksum`. What the rule does exclude is a sound
  record whose checksum happens to be zero; such a record exists for every content of its other
  fields: `ConfigEdit.FoundAgain`, `ConfigEdit.SomeMemoryHidesIt`.
- The header of eagletests/eagletest/exprparse.c shows arithmetic with the usual look; `&` and `|`
  in fact sit with `+` and `-` but take a power on their right.

## Where a promise fails

Where a condition separates the cases in which the promise holds, it is proved in both
directions.

- A command block ends on its own exactly for class 0 or 1, no outstanding host data, and a host
  that does not hold the reset bit, which hides INPFULL: `WdTranscript.EndsIffCompletes`,
  `WdTranscript.HeldResetNeverEnds`.
- A host that sends data bytes without looking at the status loses some, and the command waits for
  them for ever: `WdHostData.BurstLosesBytes`. One that looks loses none: `WdHostData.EndsIffFed`.
- Flags are delivered in priority order, and a host can set a bus error over and over: the wait of
  one flag is bounded by the flags preferred to it that get set on the way, and in ticks alone for
  the bus error only: `WdWaits.WaitIsBounded`, `WdWaits.FlagMayStarve`,
  `WdWaits.OnlyBusErrorsHaveABound`. What is bounded in any case is the number of ticks that find
  any flag pending: `WdInterrupts.AttentiveHostDrains`.
- The bound check of the image wraps at 2^32 blocks. A WRITE beyond the image is refused exactly
  unless its range reaches 2^32 and gets across, and then the image file grows:
  `WdWraps.WriteSucceedsIff`, `WdWraps.WriteGrowsIff`, `WdWraps.LastBlockGrows`.
- A success of the expression parser means that no error was recorded, and for every stream of
  tokens `ExprStreams.ErrorRecordedIff` says when one is. Recorded are a name that is too long or
  unknown, a function name that something other than `(` follows, an operand inside parentheses
  that is neither continued nor closed by what follows it, and a tenth argument. Silent are a
  stray operator, comma or closing parenthesis where an operand belongs, the end of the input or
  an unknown character anywhere but in a tenth argument, whatever else stands behind a complete
  expression, and a call without arguments. Every expression succeeds, but not every success was
  an expression: `ExprStreams.StrayOperatorPasses`, `ExprStreams.UnknownCharacterPasses`,
  `ExprStreams.EmptyCallPasses`, `ExprRoundTrip.UnclosedValueIsLost`,
  `ExprRoundTrip.SecondNumberWins`.
- A record that was set is found again exactly if its new checksum is not zero, by one search as by
  the two of the command: `ConfigEdit.FoundAgain`, `ConfigEdit.LocatedAgain`.
- A 4-Way port has room for one waiting request. A further one replaces it exactly if the port is
  commanded with the line taken: `FourWayDelivery.OverwritesIff`,
  `FourWayDelivery.ThirdCommandOverwrites`.
- SKIP of no files in mid-file goes back to the start of the file: `Tape.SkipLandsIff`.
- The 4-Way reset leaves the table of waiting requests, so its books balance afterwards only if
  nothing waited: `FourWayDelivery.ResetIsCleanIff`, `FourWayDelivery.ResetLosesARequest`.
- The system reset clears the CPU's lines but not the floppy's record of its own, which silences
  the floppy until a command forces an interrupt: `IrqFabric.FloppyIsHeardIff`,
  `IrqFabric.ResetSilencesFloppy`, `IrqFabric.ForcedInterruptRecovers`. The
  serial chip's record goes stale in the same way but is put right before it can matter:
  `Scc.AccessesAgree`.
- With a file loaded for port B of the serial chip, a status read of that port sends the next command
  to register 1: `Scc.PointerClearsIff`, `Scc.ClearIsMisdirected`.
- The power loop of the expression parser ends only for exponents that are not negative:
  `ExprParser.PowerEndsIff`.
- Data records are guarded by their checksums, the last record never is:
  `SRecordDamage.DamagedImageLoads`, `SRecord.EndIsNotGuarded`.

## Model

| member | source | states |
|---|---|---|
| `WdTranscript.TranscriptIsExact` | src/wd.c:522-596 | However host and device time interleave, what a host has read that reads only while the status byte shows INPFULL is a prefix of reply, status, 0x00; the bus is free again exactly when it is all of it, and then the controller is idle and deselected with status register 0 |
| `WdTranscript.PhaseStatusValues` | src/wd.c:1268-1290 | In data-in, status and message phase the status byte the host reads is 0x48, 0xcc or 0xe8, less INPFULL while the next byte is on its way, and before them it does not show INPFULL; with the reset bit held it is 0x10 or 0x11 throughout |
| `WdTranscript.CommandEnds` | src/wd.c:1031-1075 | At most 29 + 3 * reply length moves of any session do anything; unless the reset bit is held, some allowed move does until the bus is free |
| `WdTranscript.SomeScheduleFinishes` | src/wd.c:1031-1075 | Unless the reset bit is held, from every state of a session there is a schedule that frees the bus |
| `WdTranscript.EndsIffCompletes` | src/wd.c:1138-1184 | A command block leads back to the free bus if and only if its class is 0 or 1, it wants no more data from the host, and the host does not hold the reset bit |
| `WdTranscript.HeldResetNeverEnds` | src/wd.c:1268-1273 | After power-on and a write of 0x01 to the control register the block of six zeros runs, but no session of any length frees the bus |
| `WdTranscript.StaysOnTrack` | src/wd.c:522-596 | Every move of a session keeps the ladder at a stage of its command, with exactly the bytes handed over so far |
| `WdTranscript.SessionInvariant` | src/wd.c:522-596 | The same over any run of moves |
| `WdTranscript.StalledForever` | src/wd.c:1079-1125 | A command block that the controller does not run leaves it selected after every session |
| `WdTranscript.CommandAsksForItsInterrupts` | src/wd.c:492-519 | A finished session has added to the pending flags the completion of its unit if interrupts were on, its seek flag if it was an enabled SEEK, and nothing else |
| `WdInterrupts.LineAndFlagsAgree` | src/wd.c:402-517 | In every state reachable from power-on an asserted line means the next acknowledge claims a pending flag, a pending completion or seek keeps the re-arm counter nonzero, and a pending bus error holds the line |
| `WdInterrupts.ReachableStatesAreArbitrated` | src/wd.c:402-517 | The same from every state that satisfies it, over any events |
| `WdInterrupts.FlagsLeaveOnce` | src/wd.c:1494-1533 | Apart from a reset a flag leaves only by the acknowledge that claims it, alone and in priority order, which frees the line; with the line up an acknowledge at the level always claims one |
| `WdInterrupts.EachFlagDeliveredOnce` | src/wd.c:1494-1533 | Over any run, flag by flag: those pending at first and each time one gets set make up those acknowledged, those a reset discarded and those pending at the end |
| `WdInterrupts.RoundIsTickThenAck` | src/wd.c:1069-1075 | A round of the drain is a regular call and an acknowledge of the machine |
| `WdInterrupts.AcknowledgingDrains` | src/wd.c:437-490 | With no new flags, a host that always acknowledges gets one vector for each pending flag and has none left within counter + 2 * pending rounds, 16 at most |
| `WdInterrupts.AttentiveHostDrains` | src/wd.c:437-519 | In any run of the whole machine without a reset in which every tick that leaves the line up is followed by its acknowledge, the ticks that find a flag pending number at most 16 and 8 more for each flag raised on the way |
| `WdInterrupts.EveryFlagIsClaimed` | src/wd.c:437-519 | So a longer run passes a state in which every flag has been claimed |
| `WdWaits.RankIsPreference` | src/wd.c:1494-1533 | The rank of a flag is its place in the order in which the arbiter prefers flags |
| `WdWaits.WaitIsBounded` | src/wd.c:437-519 | While one flag stays pending in such a run there pass at most 6 ticks, 2 for each flag there is to prefer to it and 2 more for each time a preferred flag gets set on the way; a bus error waits for no tick |
| `WdWaits.FlagIsClaimed` | src/wd.c:437-519 | So in a longer run that flag has been claimed |
| `WdWaits.FlagMayStarve` | src/wd.c:1411-1417 | 24 given events from power-on, and then toggling the interrupt enable under a bus error, keep any flag but the bus error waiting for any number of ticks, one bus error being set in each |
| `WdWaits.OnlyBusErrorsHaveABound` | src/wd.c:437-519 | A number of ticks that bounds every wait of a flag exists if and only if the flag is the bus error |
| `WinchesterRegisters.InterruptArbiter.SetRaiseFlags` | src/wd.c:492-519 | Sets the flags the finished command asks for and arms the counter if it was 0 |
| `WinchesterRegisters.InterruptArbiter.BusErrorInterrupt` | src/wd.c:432-435 | Flags the bus error and drives the CPU's line 2 |
| `WinchesterRegisters.InterruptArbiter.ClearOutstanding` | src/wd.c:418-430 | Drops every flag and the CPU's line |
| `WinchesterRegisters.InterruptArbiter.ProcessPendingInterrupts` | src/wd.c:437-490 | One arbitration: re-arm while the line is up, else drive it for the first flag |
| `WinchesterRegisters.InterruptArbiter.IrqAck` | src/wd.c:1494-1533 | Claims the first pending flag at the level and drops the CPU's line |
| `WinchesterRegisters.InterruptArbiter.Continue` | src/wd.c:1069-1075 | The countdown of the re-arm counter |
| `WinchesterRegisters.InterruptArbiter.UpdateIrq` | src/wd.c:402-415 | Drives the CPU's line 2 and keeps the record of it |
| `WinchesterRegisters.Winchester.NextPhase` | src/wd.c:522-596 | One rung of the ladder with the flags it raises, as WdController.NextPhase |
| `WinchesterRegisters.Winchester.ProcessScsiCommand` | src/wd.c:1138-1184 | Whether the block and its data are complete, and if so the message phase |
| `WinchesterRegisters.Winchester.ProcessCommand` | src/wd.c:1031-1066 | The pending register command |
| `WinchesterRegisters.Winchester.ProcessContinue` | src/wd.c:1069-1075 | Both countdowns and the arbiter, as one tick of WdController |
| `WinchesterRegisters.Winchester.WriteSelect` | src/wd.c:1454-1461 | Selection |
| `WinchesterRegisters.Winchester.WriteHost` | src/wd.c:1419-1451 | A byte of command or data from the host, or the probe of memory on the free bus |
| `WinchesterRegisters.Winchester.ReadInputRegister` | src/wd.c:1293-1332 | The byte handed over, of a reply, of a probe or the loopback, and the ladder moved on by taking it |
| `WinchesterRegisters.Winchester.ForgetProbe` | src/wd.c:1367-1383 | A write to the DMA address forgets the probe |
| `WdController.ProbeReadsBack` | src/wd.c:1294-1305 | On the free bus with DMA on the host reads back the probed word, high byte first, and then the byte it wrote; an invalid address shows as a bus error |
| `WinchesterRegisters.Winchester.WriteControlRegister` | src/wd.c:1391-1418 | Reset and interrupt enable, with the bus error that was waiting for it |
| `WinchesterRegisters.Winchester.ReadControlRegister` | src/wd.c:1258-1265 | The control bits and the seek flags |
| `WinchesterRegisters.Winchester.ReadStatusRegister` | src/wd.c:1268-1290 | Bit by bit what the host sees: BUSERR always, bit 4 exactly while the reset bit is held, every other flag exactly while it is not; the byte that WdTranscript lets the host act on |
| `WdController.StatusIsShown` | src/wd.c:1268-1290 | The eight bits of the status byte for every state of the controller |
| `WinchesterRegisters.Winchester.WriteClearBusError` | src/wd.c:1464-1469 | Clears the bus error bit alone |
| `WinchesterRegisters.Winchester.IrqAck` | src/wd.c:1494-1533 | Hands back the vector when a flag was claimed |
| `WinchesterRegisters.Winchester.PulseReset` | src/wd.c:1480-1491 | The CPU's reset: power-on again but for the units' last commands and the re-arm counter, with the line dropped |
| `WdWraps.ReadSucceedsIff` | src/wd.c:287-296 | A READ of any range succeeds if and only if the range is let through by the 32 bit check, the file reaches that far and the memory is there |
| `WdWraps.WriteSucceedsIff` | src/wd.c:298-312 | A WRITE of any range succeeds if and only if the image is writable, the range is let through and the memory can be read; let through are the ranges on the image and those that wrap from a chunk whose end falls on it |
| `WdWraps.WriteGrowsIff` | src/wd.c:298-312 | A WRITE changes the size of the image file if and only if its range reaches 2^32 and gets across; the file then grows to the end of the crossing chunk |
| `WdWraps.LastBlockGrows` | src/wd.c:298-312 | On every writable image a WRITE of the one block 0xffffffff is reported as good and grows the file to 2^41 bytes |
| `WdTransfers.ReadIsOneCopy` | src/wd.c:683-722 | A successful READ of any range below 2^32 is one block copy from the image to the DMA address; the register drops by 256 a block and nothing else changes but the ROM overlay |
| `WdTransfers.WriteIsOneCopy` | src/wd.c:723-747 | A successful WRITE is one block copy from memory to the image and changes nothing else |
| `WdTransfers.WriteThenReadRestores` | src/wd.c:683-747 | A WRITE and then a READ of the same blocks to any valid memory puts there exactly the bytes of the source |
| `WdTransfers.ReadSplitsAnywhere` | src/wd.c:683-722 | A READ may be cut in two at any block without a difference |
| `WdTransfers.ReadStopsAtBadAddress` | src/wd.c:249-265 | A READ that meets an invalid address has moved exactly the words before it, the register designates it, BUSERR, status and sense report it |
| `WdTransfers.WriteStopsAtBadAddress` | src/wd.c:267-285 | The same for WRITE, with only the whole chunks before the fault on the image |
| `WdDma.AdvanceWalksUp` | src/wd.c:244-247 | n words on, the complemented and shifted register designates the address 2n higher |
| `WdDma.WordsWritableIsExact` | src/wd.c:249-265 | The closed form counts exactly the words before the first invalid address |
| `WdDma.WordsReadableIsExact` | src/wd.c:267-285 | The same for reading |
| `WdDma.ReadComposes` | src/wd.c:683-722 | Reading on from a trouble-free READ is one longer READ and the first chunk to fail ends it |
| `WdDma.ReadCloses` | src/wd.c:683-722 | The 18 sector chunks cannot be observed: the loop over them is the closed form of one transfer, unless the range wraps on a file grown to 2^41 bytes |
| `WdDma.WriteComposes` | src/wd.c:723-747 | The same for WRITE |
| `WdDma.WriteCloses` | src/wd.c:723-747 | The same for a WRITE, unless its range wraps |
| `WdDma.DmaEngine.DmaToMem` | src/wd.c:249-265 | Stores words until the buffer is done or an address is invalid, and says which |
| `WdDma.DmaEngine.DmaFromMem` | src/wd.c:267-285 | Fetches words until the buffer is full or an address is invalid |
| `WdDma.DmaEngine.ImgRead` | src/wd.c:287-296 | Reads whole sectors exactly when the 32 bit check lets them through and the file has them |
| `WdDma.DmaEngine.ImgWrite` | src/wd.c:298-312 | Writes whole sectors exactly when the image is writable and the 32 bit check lets them through; the file takes them wherever they lie, and a gap reads as zeros |
| `WdDma.DmaEngine.DmaTest` | src/wd.c:1436-1449 | The probe: the word at the DMA address, and the register moved on |
| `WdDma.DmaEngine.ReadBlocks` | src/wd.c:683-722 | The loop over chunks with block numbers that wrap, for every range, and the closed form where it applies |
| `WdDma.DmaEngine.WriteBlocks` | src/wd.c:723-747 | The same for WRITE |
| `Memory.Memory.ReadWord` | src/memory.c:56-72 | The two bytes the bus sees, with the ROM everywhere until the first write; later a bus error and all ones outside RAM and ROM |
| `Memory.Memory.WriteWord` | src/memory.c:93-111 | Writes two bytes, or reports a bus error outside RAM; the ROM overlay is gone either way |
| `WdCdb.BlockNumbersSurvive` | src/wd.c:369-383 | What the driver encodes the controller decodes: all 21 bits in class 0, with the unit bits intact and a count byte of 0 meaning 256, all 32 bits in class 1; both sides agree on the length |
| `WdCdb.CommandBlock.AddByte` | eagletests/eagletest/wd.c:209-216 | Appends a byte if there is room |
| `WdCdb.CommandBlock.AddBlock` | eagletests/eagletest/wd.c:222-238 | Appends the block number in the form of the class, as far as it fits, keeping the unit bits |
| `WdCdb.CommandBlock.Sendable` | eagletests/eagletest/wd.c:261-275 | The block is sent if and only if its length is the one its class asks for |
| `WdCdb.ExecuteTransfer` | src/wd.c:683-747 | Dispatch of the transfer commands, with their state and outcome |
| `WdCdb.ProbeMemory` | src/wd.c:1433-1449 | From probe to input register: the two bytes the host reads back are those the bus shows at the DMA address |
| `WdCdb.OnImageMeans` | src/wd.c:287-296 | On a file below 2^41 bytes a READ finds its blocks exactly if they are among those the image had when it was attached |
| `WdCdb.TransfersComplete` | src/wd.c:1079-1125 | With DMA on the controller runs every transfer command on its own, and it ends unless the reset bit is held |
| `WdCdb.ReadOutcome` | src/wd.c:683-722 | What a READ block does to memory and status, for every block number and count |
| `WdCdb.TransferTranscript` | src/wd.c:522-596 | A transfer command hands the host its status and the message byte |
| `WdCdb.ReadCommandEndToEnd` | eagletests/eagletest/wd.c:222-275 | From the driver's encoder to its input register: status 0 if and only if the image hands out the blocks and the memory exists; memory then holds exactly those blocks if they were on the image |
| `WdCdb.WriteOutcome` | src/wd.c:723-747 | What a WRITE block does to image and status, for every block number and count |
| `WdCdb.WriteCommandEndToEnd` | eagletests/eagletest/wd.c:222-275 | From the driver's encoder to its input register: status 0 if and only if the image takes the blocks and the memory exists; blocks on the image then hold exactly the bytes of that memory, and memory is as it was |
| `WdPolled.ReadPolled` | src/wd.c:683-721 | READ without DMA: the blocks become the reply, all of them or none |
| `WdPolled.ReadsComplete` | src/wd.c:1079-1125 | The controller runs a READ on its own without DMA too |
| `WdPolled.PolledReadEndToEnd` | src/wd.c:683-721 | From the driver's encoder to its input register without DMA: the host reads exactly the blocks it asked for, 0 and 0, if the image hands them out and they fit the buffer, and 2 and 0 otherwise |
| `FourWayDelivery.EveryRequestIsAccountedFor` | src/fourway.c:166-269 | In every state reachable from power-on, requests equal those acknowledged, on the line, waiting, inhibited and overwritten; numPendingComplete counts the waiting; the vector is base + 4 * port + condition |
| `FourWayDelivery.RequestsAreConserved` | src/fourway.c:166-269 | The same over any run from any state that balances |
| `FourWayDelivery.VectorIsStable` | src/fourway.c:185-211 | While a request is on the line only its own acknowledge changes it or its vector, and hands back that vector |
| `FourWayDelivery.ResetIsCleanIff` | src/fourway.c:581-598 | A reset keeps the books if and only if nothing waits and nothing is on the line |
| `FourWayDelivery.ResetLosesARequest` | src/fourway.c:581-598 | A run from power-on to a reset after which the books do not balance: initialise, one command, reset |
| `FourWayDelivery.OverwrittenExactly` | src/fourway.c:166-183 | What a step overwrites: nothing, unless ports of an uninhibited board are commanded, and then exactly the requests waiting for those whose turn comes with the line taken |
| `FourWayDelivery.OverwritesIff` | src/fourway.c:166-183 | A request is overwritten exactly by a command of a port that has one waiting, with the line taken before or by a port before it |
| `FourWayDelivery.NothingOverwrittenIff` | src/fourway.c:166-183 | In a run from power-on no request is overwritten if and only if no step is such a command |
| `FourWayDelivery.ThirdCommandOverwrites` | src/fourway.c:166-183 | A run from power-on that overwrites one: the handshake and three commands of the same port |
| `FourWayDelivery.CharacterWaits` | src/fourway.c:214-238 | A received character is kept for the host: no event but its own read takes or replaces it |
| `FourWayOrder.DeliveredInOrder` | src/fourway.c:214-269 | However acknowledges and regular calls interleave, delivered vectors and those outstanding make up one fixed sequence |
| `FourWayOrder.RoundsDrain` | src/fourway.c:214-269 | As many rounds as there are outstanding vectors deliver them all |
| `FourWayOrder.CommandsCompleteInOrder` | src/fourway.c:476-490 | An instruction write naming ready ports on a quiet uninhibited board delivers base + 4p + 3 for each, in ascending port order, and no more |
| `FourWayBoards.Boards.AddPendingComplete` | src/fourway.c:166-183 | Queues a request in its port's slot, over one that waits there |
| `FourWayBoards.Boards.CompleteCommand` | src/fourway.c:185-211 | Drops, queues or raises a request, and drives the CPU's line 4 for one that is raised |
| `FourWayBoards.Boards.InstructionWrite` | src/fourway.c:443-490 | The handshake steps with busy bit and command block address, then a completion for each named port |
| `FourWayBoards.Boards.ProcessPendingCompletes` | src/fourway.c:214-254 | Polls for received characters when nothing waits and takes the first waiting request |
| `FourWayBoards.Boards.AckInterrupt` | src/fourway.c:257-269 | Frees the CPU's line and hands back the vector |
| `FourWayBoards.Boards.ReadStatus` | src/fourway.c:526-537 | The status shows what of the handshake is missing and whether something was handed over since the last read |
| `FourWayBoards.Boards.ReadReceived` | src/fourway.c:507-516 | Hands over the received character and makes room for the next |
| `FourWayBoards.Boards.PulseReset` | src/fourway.c:581-598 | The reset, which drops the line and leaves the table of waiting requests |
| `ExprLexer.PrintedTextParsesBack` | eagletests/eagletest/exprparse.c:277-614 | Any expression of known functions with one to nine arguments each, printed with the parentheses this grammar needs and any others, in any spelling of its numbers and names and with any blanks, is read to its end without an error to its value modulo 2^32, or traps exactly if it has none |
| `ExprRoundTrip.PrintedTreesParseBack` | eagletests/eagletest/exprparse.c:467-614 | The same on tokens |
| `ExprRoundTrip.ParsesIn` | eagletests/eagletest/exprparse.c:467-614 | A tree printed for any grammar level and followed by any token that cannot continue it is parsed at that level to its value, leaving what follows, or traps |
| `ExprRoundTrip.UnclosedValueIsLost` | eagletests/eagletest/exprparse.c:530-533 | A parenthesis left open at the end gives 0 for every expression inside it, and no error |
| `ExprRoundTrip.SecondNumberWins` | eagletests/eagletest/exprparse.c:535-538 | Of two numbers side by side the second is the value, and no error is recorded |
| `ExprStreams.ExpressionIffPrinted` | eagletests/eagletest/exprparse.c:467-614 | A stream passes the walk over balanced parentheses, operands and operators in turn, called functions and one to nine arguments, if and only if it prints some expression |
| `ExprStreams.ExpressionsParse` | eagletests/eagletest/exprparse.c:467-639 | Every such stream is parsed to its end to the value of the expression it prints, or traps exactly if that has none |
| `ExprStreams.ErrorRecordedIff` | eagletests/eagletest/exprparse.c:439-639 | For every stream of tokens whatever, if the parse ends, an error has been recorded if and only if the lax walk meets one: a name too long or unknown, a function name without its parenthesis, an operand in parentheses that is neither continued nor closed, or a tenth argument |
| `ExprStreams.ExpressionsRecordNothing` | eagletests/eagletest/exprparse.c:439-639 | No expression meets one |
| `ExprStreams.StrayOperatorPasses` | eagletests/eagletest/exprparse.c:535-538 | + in front of a number is forgotten: success, though no expression |
| `ExprStreams.UnknownCharacterPasses` | eagletests/eagletest/exprparse.c:405-409 | An unknown character ends the input: success, though no expression |
| `ExprStreams.EmptyCallPasses` | eagletests/eagletest/exprparse.c:525-527 | A call without arguments leaves its parenthesis unread: success, though no expression |
| `ExprLexer.LayoutScans` | eagletests/eagletest/exprparse.c:277-412 | A text of spelled tokens with any blanks between them scans to exactly those tokens, as long as no two words touch |
| `ExprLexer.NumeralsSpell` | eagletests/eagletest/exprparse.c:314-333 | The hexadecimal numeral of any natural number behind a zero, and the decimal one behind #, read as that number modulo 2^32 |
| `ExprLexer.TokensApart` | eagletests/eagletest/exprparse.c:467-614 | Printed expressions never have two words side by side |
| `ExprParser.IpowLoop` | eagletests/eagletest/exprparse.c:564-576 | Square and multiply equals repeated multiplication modulo 2^32 for every nonnegative exponent |
| `ExprParser.IpowSquares` | eagletests/eagletest/exprparse.c:564-576 | Squaring the base halves the exponent |
| `ExprParser.PowerEndsIff` | eagletests/eagletest/exprparse.c:564-576 | The power loop reaches a zero exponent if and only if the exponent is not negative |
| `ExprParser.Parser.GetToken` | eagletests/eagletest/exprparse.c:277-412 | Moves the cursor one token on; the error position is where a bad name was met |
| `ExprParser.Parser.Classify` | eagletests/eagletest/exprparse.c:282-411 | Names, numerals and operators; too long and unknown names are recorded at the current position |
| `ExprParser.Parser.ReadName` | eagletests/eagletest/exprparse.c:282-294 | The longest run of name characters, or an error over 20 |
| `ExprParser.Parser.ReadDigits` | eagletests/eagletest/exprparse.c:314-333 | The longest run of digits folded modulo 2^32 |
| `ExprParser.Parser.Match` | eagletests/eagletest/exprparse.c:439-461 | Steps over the expected token, or records an error unless at the end |
| `ExprParser.Parser.Expr` | eagletests/eagletest/exprparse.c:467-487 | Moves the cursor and returns the value as the grammar says |
| `ExprParser.Parser.Term` | eagletests/eagletest/exprparse.c:597-614 | The same for products |
| `ExprParser.Parser.Power` | eagletests/eagletest/exprparse.c:580-593 | The same for powers, which associate to the right |
| `ExprParser.Parser.Factor` | eagletests/eagletest/exprparse.c:545-560 | The same for unary minus |
| `ExprParser.Parser.Factor1` | eagletests/eagletest/exprparse.c:492-541 | The same for numbers, parentheses and calls |
| `ExprParser.Parser.CallArguments` | eagletests/eagletest/exprparse.c:507-524 | The argument loop, with the limit of ten |
| `ExprParser.Parser.Parse` | eagletests/eagletest/exprparse.c:633-639 | The whole parse ends for every text, and success means no error was recorded |
| `Mmu.TranslationInverts` | src/mmu.c:154-233 | Within a segment every physical address comes from one logical address, which is computed back |
| `Mmu.SegmentsAreInjective` | src/mmu.c:131-152 | Distinct logical addresses through one segment reach distinct physical addresses |
| `Mmu.ReachesIff` | src/mmu.c:131-152 | A segment of any policy reaches a physical byte if and only if the page's distance from its base, around the ring of pages, is allowed |
| `Mmu.SegmentsShareIffOverlap` | src/mmu.c:131-233 | Two limit type segments that do not wrap share a physical byte if and only if their page ranges overlap |
| `Mmu.WrittenIff` | src/mmu.c:58-76 | Over any history the written bit is set if and only if a write was let through since the base was last written |
| `Mmu.ErrorsDescribeLatest` | src/mmu.c:154-233 | Over any history the error bits are exactly the rules broken by the latest translation since the base was last written, or clear |
| `Mmu.FlagIff` | src/mmu.c:191-225 | Either of the board's flags is up if and only if it was raised since the flags were last read: the error flag by any refusal, the overflow flag by a stack segment that ran out |
| `Mmu.OverflowIsError` | src/mmu.c:191-225 | The error flag is up whenever the overflow flag is |
| `Mmu.BytesMakeWord` | src/mmu.c:78-88 | A descriptor written as two bytes translates like one written as a word |
| `MmuUnit.Unit.WriteWord` | src/mmu.c:58-76 | A descriptor write; a base write clears the segment's status |
| `MmuUnit.Unit.WriteByte` | src/mmu.c:78-88 | Half a descriptor write |
| `MmuUnit.Unit.ReadWord` | src/mmu.c:95-111 | A base reads back as written; the limit window reads the status of the segment |
| `MmuUnit.Unit.PeekTranslate` | src/mmu.c:131-152 | Changes nothing, fails exactly on absent and limit violations, and otherwise gives the address; with the two access rules it decides exactly what the real translation decides |
| `MmuUnit.Unit.RecordErrors` | src/mmu.c:184-220 | Sets exactly the error bits of the rules the access breaks and counts them |
| `MmuUnit.Unit.TranslateAddress` | src/mmu.c:154-233 | Grants or refuses by all three rules, with the status, counters and flags of the specification |
| `MmuUnit.Unit.ReadFlags` | src/cmb.c:59-78 | The status as a byte or a word reads it, with the two flags among the bits that are always set, and the flags cleared |
| `MmuUnit.Unit.CpuXlate` | src/sim.c:456-460 | Supervisor addresses, and all before the first base write, pass unchanged and leave no trace; others are translated |
| `Tape.ReadTakes` | src/cs.c:183-232 | A READ consumes what a reader of the flat stream of blocks and marks would take, and leaves the rest ahead |
| `Tape.ReadsConcatenate` | src/cs.c:419-449 | Over any READs, what they delivered and what lies ahead make up the stream: no block skipped or repeated, every mark once and in place |
| `Tape.ReadsFinish` | src/cs.c:419-449 | READs of at least a block reach the end within as many as the stream has items |
| `Tape.DeliveredIsPrefix` | src/cs.c:419-449 | From a rewound tape the data delivered is a prefix of the files' whole blocks joined |
| `Tape.MarksCountFiles` | src/cs.c:217-229 | Filemarks reported since the rewind number exactly the files behind the drive that have a successor, empty ones included |
| `Tape.SkipLandsIff` | src/cs.c:376-391 | SKIP of n lands behind the n-th mark ahead, except a SKIP of none in mid-file, which goes back to the file's start |
| `Bus.PutIsOneCopy` | src/cs.c:200-204 | Bytes put on the bus one by one lie at consecutive 32 bit addresses and nothing else moved |
| `TapeDrive.Streamer.OpenFileR` | src/cs.c:165-180 | Opens a file that exists and counts its whole blocks |
| `TapeDrive.Streamer.CopyBlock` | src/cs.c:193-204 | Moves one block from file to bus |
| `TapeDrive.Streamer.TapeRead` | src/cs.c:183-232 | Moves whole blocks while buffer and file last, never meets a short read, and reports the mark it reached |
| `TapeDrive.Streamer.Read` | src/cs.c:419-449 | The stream reader's step, with the status for each of its ends; refuses lengths that are not whole blocks |
| `TapeDrive.Streamer.Skip` | src/cs.c:376-391 | Moves past files and reports the end of the data exactly when none is left |
| `TapeDrive.Streamer.Rewind` | src/cs.c:392-399 | Back to the start, with its status bits |
| `SRecord.ImageLoads` | src/load.c:69-227 | A printed image loads with an error for exactly the data records whose checksum is wrong, memory is the records applied in order at address plus offset, and the start address is the last record's |
| `SRecord.LinesLoad` | src/load.c:103-227 | The same for any records in front of any rest of the file |
| `SRecord.NoBadLines` | src/load.c:58-63 | An image printed with its own checksums has no error |
| `SRecord.DamageIsCounted` | src/load.c:58-63 | Changing any single data byte of a good record makes it one that is counted |
| `SRecord.OneBadLine` | src/load.c:58-63 | One bad record among good ones is counted once |
| `SRecord.EndIsNotGuarded` | src/load.c:163-222 | A last record is taken whatever its checksum |
| `SRecordDamage.DamagedImageLoads` | src/load.c:42-64 | In the text of an image of good records replace the two digits of any one byte behind the length of a data record, address, data or checksum: it loads with exactly one error, to the memory of the records as they now read, with the start address unharmed |
| `SRecordLoader.Loader.NextByte` | src/load.c:28-39 | Two digits, where anything illegal and the end of the file count as zero |
| `SRecordLoader.Loader.ReadAddress` | src/load.c:116-141 | A big endian address, each byte in the sum |
| `SRecordLoader.Loader.SaveData` | src/load.c:42-64 | Stores bytes at consecutive addresses and says whether the sum is good |
| `SRecordLoader.Loader.DataRecord` | src/load.c:116-141 | Address and data of a record |
| `SRecordLoader.Loader.LoadFile` | src/load.c:69-227 | The whole load as specified, for every text |
| `ConfigRecord.ChecksumCombines` | tools/configrec.py:72-79 | The checksum is the rotated seed combined with each long rotated by its index plus one |
| `ConfigRecord.EveryLongMatters` | tools/configrec.py:72-79 | Changing any single long changes the checksum |
| `ConfigRecord.LongsDiffer` | tools/configrec.py:72-79 | So does changing any single byte |
| `ConfigRecord.EmptyChecksum` | tools/configrec.py:118-119 | An empty region checksums to 10, not to zero |
| `ConfigRecord.AnyChecksum` | tools/configrec.py:72-79 | Whatever the rest of a unit holds, some value of any one long gives any checksum |
| `ConfigRecord.OverlapChecksum` | tools/configrec.py:72-79 | The checksum of a unit that starts in the middle of a sound one does not depend on the half they share |
| `Rotations.WholeTurns` | tools/configrec.py:67-69 | 32 rotations by one are none |
| `Rotations.RolOverXor` | tools/configrec.py:67-69 | Rotation distributes over exclusive or |
| `ConfigEdit.PackingRoundTrips` | tools/configrec.py:82-91 | Packing and unpacking drive words undo each other, on all values that fit and all words |
| `ConfigEdit.Checksum` | tools/configrec.py:72-79 | The loop computes the fold |
| `ConfigEdit.FindRecord` | tools/configrec.py:105-122 | Finds the greatest block accepted, or reports that there is none |
| `ConfigEdit.EditDrives` | tools/configrec.py:154-169 | What is not named keeps its unpacked value; fails exactly on a value that does not fit |
| `ConfigEdit.EditName` | tools/configrec.py:179-184 | The padded name, or a failure if it is too long or not latin1 |
| `ConfigEdit.Edit` | tools/configrec.py:149-185 | Fails exactly on an argument that does not fit; otherwise the fields read back as requested and every byte of other fields is kept |
| `ConfigEdit.SetRecord` | tools/configrec.py:220-237 | Goes through exactly on a sound unit with arguments that fit and name something; then the unit is sound, the fields are as requested and nothing else in the image changed; otherwise the image is untouched |
| `ConfigEdit.FoundAgain` | tools/configrec.py:105-122 | After a set one search finds the record again if and only if its new checksum is not zero, and never a block behind it |
| `ConfigEdit.LocatedAgain` | tools/configrec.py:199-211 | So do the two searches of the command, the quick one and the one of every block |
| `ConfigEdit.Locate` | tools/configrec.py:199-211 | The quick search, and if it finds nothing the search of every block |
| `ConfigEdit.AcceptedElsewhere` | tools/configrec.py:105-122 | But for the record itself the search accepts after a set exactly what it accepted before |
| `ConfigEdit.SomeMemoryHidesIt` | tools/configrec.py:105-122 | For every unit some memory size makes the new checksum zero, after which the sound record can no longer be found |
| `RingBuffer.MaskIsRemainder` | src/charringbuffer.h:118-138 | Masking with 2^k - 1 is the remainder modulo 2^k, for every k and number |
| `RingBuffer.MaskGoesAround` | src/charringbuffer.h:118-138 | In size_t arithmetic the mask brings an index or a negative difference back around the array |
| `RingBuffer.NothingInvented` | src/charringbuffer.c:16-61 | Over any run what is held is the last part of all that was put in, and every byte was handed out, is held or was overwritten |
| `RingBuffer.LosslessIsFifo` | src/charringbuffer.c:16-61 | While nothing was overwritten, bytes handed out and held are those put in, in order |
| `RingBuffer.Ring.Queue` | src/charringbuffer.c:16-27 | Keeps the newest size - 1 of the old contents and the byte |
| `RingBuffer.Ring.QueueArr` | src/charringbuffer.c:29-35 | The same for an array of bytes |
| `RingBuffer.Ring.Dequeue` | src/charringbuffer.c:37-46 | Takes the oldest byte if there is one |
| `RingBuffer.Ring.DequeueArr` | src/charringbuffer.c:48-61 | Takes as many of the oldest as there are and fit, and leaves the rest of the target |
| `RingBuffer.Ring.Peek` | src/charringbuffer.c:63-75 | The byte at an index, if it is held |
| `RingBuffer.Ring.NumItems` | src/charringbuffer.h:136-138 | The number of bytes held |
| `Pit.ZeroDetects` | src/pit.c:283-293 | Exactly how many zeros k counts reach and where they leave the counter, from any count, in either mode, preload zero included |
| `Pit.ReloadDetects` | src/pit.c:111-127 | After enabling in reload mode with preload N, k counts reach zero k / N times |
| `Pit.PreloadAssembles` | src/pit.c:131-133 | The three preload registers together hold the preload, in whatever order they are written |
| `Pit.PollIsBounded` | src/sim.c:1177-1184 | No look at the clock issues more than 40001 counts |
| `Pit.OnTimeIsExact` | src/sim.c:1177-1184 | While looks are at most 20 ms late, counts are one per 500 ns since the first look and one at the start, however spaced |
| `Pit.NeverFast` | src/sim.c:1177-1184 | With any spacing the counts never exceed that |
| `Pit.TicksFollowHostTime` | src/sim.c:1148-1184 | Zero detects follow host time: one per N * 500 ns |
| `IrqDevices.PitTimer.UpdateIrq` | src/pit.c:231-246 | Drives line 6 when what the timer wants changes |
| `IrqDevices.PitTimer.CheckInterrupt` | src/pit.c:265-279 | Records a zero where it may interrupt |
| `IrqDevices.PitTimer.SetReg` | src/pit.c:111-139 | Register writes as specified, enabling loads the counter |
| `IrqDevices.PitTimer.PulseCounter` | src/pit.c:283-293 | One count |
| `IrqDevices.PitTimer.PulseReset` | src/pit.c:177-185 | Reset |
| `IrqDevices.PitTimer.IrqAck` | src/pit.c:248-263 | Answers level 6 exactly while the CPU's line is set, and then the timer is enabled with a zero detected and goes on wanting it |
| `IrqDevices.HostClock.DeviceTick` | src/sim.c:1161-1184 | Looks while idle or every 64th turn, and issues exactly the counts that have come due |
| `IrqLines.Cpu.SetVirq` | src/Musashi/m68kcpu.c:1072-1087 | Sets one line; the level is the highest line set |
| `IrqLines.Cpu.SetIrq` | src/Musashi/m68kcpu.c:1061-1070 | The level, and a non-maskable request on the way to 7 |
| `IrqFabric.LinesFollowDevices` | src/pit.c:231-246 | In every state reachable from power-on, with all devices running and through any resets, line 6 is set exactly if ZDS, bit 0 of the control byte and 5 or 7 in its upper three bits are, line 5 exactly if bit 3 of register 9 and one of the four pending bits are, lines 4 and 2 exactly for a request of 4-Way and disk, line 3 only for the floppy; the level is the highest of them |
| `IrqFabric.FloppyIsHeardIff` | src/fd.c:176-196 | Line 3 says what the floppy asks for if and only if the latest system reset or forced interrupt, if any, was a forced interrupt or found the floppy not interrupting |
| `IrqFabric.AcknowledgeAnswers` | src/sim.c:632-656 | On every reachable board the acknowledge of the current level gets the vector of disk or 4-Way and frees its line, or the autovector: the floppy's line is freed, those of timer and serial chip stay set |
| `IrqFabric.TapeTakesItsOwn` | src/cs.c:512-518 | The pulse of the tape is answered on the spot with the vector it was told last or 0xC0 and takes nothing back from anybody; a CPU halted since the latest reset leaves it counted |
| `IrqFabric.ResetLeaves` | src/sim.c:1838-1850 | What power-on and the system reset leave beside the devices |
| `IrqFabric.ResetIsCleanIff` | src/sim.c:1838-1850 | A system reset leaves the lines right if and only if the floppy was not interrupting |
| `IrqFabric.ResetSilencesFloppy` | src/fd.c:176-196 | Otherwise no interrupt of the floppy reaches the CPU over any run, further resets included, until a command forces one |
| `IrqFabric.ForcedInterruptRecovers` | src/fd.c:360-368 | The forced interrupt takes the record back, and line and record agree again |
| `IrqFabric.FloppyCanBeSilenced` | src/fd.c:505-530 | A run from power-on to a silenced floppy: one finished command, then the reset |
| `Scc.AccessesAgree` | src/scc.c:81-93 | Every access leaves the driven line as enable and pending bits say; the record a reset leaves stale is put right before it can matter |
| `Scc.VectorNamesWhatIsReset` | src/scc.c:109-122 | The modified vector names the very interrupt that resetting the highest one clears |
| `Scc.PointerClearsIff` | src/scc.c:95-135 | A read of the command port points the next access at register 0, unless it is a status read of port B with a file left to read, after which it goes to register 1 |
| `Scc.ClearIsMisdirected` | src/scc.c:130-132 | Then the command that clears the transmit interrupt is stored in register 1 and the interrupt stays |
| `IrqDevices.SerialChip.UpdateIrq` | src/scc.c:81-93 | Drives line 5 when what the chip wants changes |
| `IrqDevices.SerialChip.CmdWrite` | src/scc.c:195-226 | Register pointer, commands and the shared register 9 |
| `IrqDevices.SerialChip.Command` | src/scc.c:202-217 | Reset of the transmit or the highest pending interrupt |
| `IrqDevices.SerialChip.MasterWrite` | src/scc.c:220-225 | Master enable and channel resets |
| `IrqDevices.SerialChip.DataWrite` | src/scc.c:229-270 | Loopback, or a transmit interrupt if enabled |
| `IrqDevices.SerialChip.DataRead` | src/scc.c:138-161 | Takes the received character, on port B the next one of a loaded file, and its interrupt |
| `IrqDevices.SerialChip.Receive` | src/scc.c:303-346 | A character from the line, with an interrupt if enabled |
| `IrqDevices.SerialChip.CmdRead` | src/scc.c:95-135 | Pending bits, modified vector and register 0; the other read registers say nothing; the pointer is reset, or misdirected |
| `IrqDevices.SerialChip.PulseReset` | src/scc.c:610-624 | Reset |
| `IrqDevices.FloppyIrq.UpdateIrq` | src/fd.c:178-186 | Drives line 3 when what the controller wants changes |
| `IrqDevices.FloppyIrq.GenInterrupt` | src/fd.c:512-547 | Raises the request if the condition is enabled |
| `IrqDevices.FloppyIrq.ForceInterrupt` | src/fd.c:360-368 | Takes the request back, and raises it again if asked for |
| `IrqDevices.FloppyIrq.WriteOption` | src/fd.c:428-456 | The interrupt enable, and the restore command when the reset bit is released |
| `IrqDevices.FloppyIrq.IrqAck` | src/fd.c:188-194 | Autovectored at its own level, which takes the request back |
| `IrqDevices.FloppyIrq.PulseReset` | src/fd.c:505-509 | Reset, which leaves the record of the line |
| `EscSequences.StreamsTranslate` | src/esc_sequences.c:227-329 | For every stream, what the translator puts out character by character is the translation of the whole by a grammar, and what it holds is the unfinished sequence |
| `EscSequences.SequencesClose` | src/esc_sequences.c:252-329 | A sequence closes within three more characters, so the five character buffer is never exhausted |
| `EscSequences.OutputFits` | src/esc_sequences.c:37-55 | No character puts out more than 25 |
| `EscSequences.PositionRoundTrips` | src/esc_sequences.c:303-311 | Reading the position sent gives row and column asked for plus one |
| `EscSequences.HomeLeavesALetter` | src/esc_sequences.c:123-123 | The described home sequence leaves its last letter on the screen |
| `Translator.AddChar` | src/esc_sequences.c:201-209 | Appends a character behind the terminator if there is room |
| `Translator.AddStr` | src/esc_sequences.c:211-218 | Copies what fits |
| `Translator.BfTranslator.ProcessChar` | src/esc_sequences.c:227-329 | The buffer holds the translation as far as it fits; the count is its full length; the state moves on |
| `Translator.BfTranslator.ProcessFully` | src/esc_sequences.c:227-329 | With room for the longest entry the bytes in the buffer are the translation, and the count their number |
| `WdHostData.HostDataTranscript` | src/wd.c:1138-1184 | A class 0 or 1 block that is owed N > 0 bytes without DMA (N told from the block: byte 4 of a MODE SELECT, 1024 for WRITE BUFFER, and so on) stays idle while one of them is missing; from the N-th byte on the host reads a prefix of the transcript, and all of it by the time the bus is free |
| `WdHostData.StartsWithLastByte` | src/wd.c:1149-1160 | Two turns after the N-th byte was sent the controller is in the message phase of the command |
| `WdHostData.HostDataEnds` | src/wd.c:1031-1075 | Only so many moves of such a session act, and without a held reset one does until the bus is free |
| `WdHostData.EndsIffFed` | src/wd.c:1149-1160 | A block and some bytes lead back to the free bus if and only if the bytes are as many as it is owed and the reset bit is not held |
| `WdHostData.RunsIffNothingOwed` | src/wd.c:1079-1125 | Which blocks run as they are, by the bytes of the block and the DMA bit |
| `WdHostData.HeldResetStarves` | src/wd.c:1268-1273 | Under a held reset the host never sees that a byte was taken |
| `WdHostData.BurstLosesBytes` | src/wd.c:1149-1160 | A host that sends two data bytes right behind the block loses one, and the command waits for it for ever |
| `Words.BitwiseOps` | eagletests/eagletest/exprparse.c:479-483 | Bit i of an and, an or and an exclusive or is the and, the or and the exclusive or of the bits i |
| `Words.DivisionMeans` | eagletests/eagletest/exprparse.c:602-611 | Division cuts towards zero; the remainder is smaller than the divisor and has the sign of the dividend |
| `Words.WrapMeans` | eagletests/eagletest/exprparse.c:474-479 | What wraps differs by a multiple of 2^32, and so does the signed reading of a word |
| `ExprMeaning.OperationsMean` | eagletests/eagletest/exprparse.c:474-483 | Each operation of the parser against the integers its operands stand for: sum, difference, product and power modulo 2^32, quotient and remainder cut towards zero, and and or bit by bit, and exactly where there is no value |
| `ExprMeaning.ValueIsExact` | eagletests/eagletest/exprparse.c:466-614 | An arithmetic expression whose parts all stay within 32 bits has the value it denotes among the integers |
| `FourWayHandshake.HandshakeStores` | src/fourway.c:443-475 | After the reset the three writes x, y, v give a board the command block x % 2^16 + 2^16 * (y % 256) and the vector base v % 256 |
| `FourWayHandshake.ResetAsksForHandshake` | src/fourway.c:581-600 | A reset asks for the handshake of every board again |
| `FourWayHandshake.InitialisedBoardCompletes` | src/fourway.c:185-211 | From a quiet state a further write naming ports hands the host v + 3, v + 7, v + 11, v + 15 modulo 256 for the ports named by bits 0 to 3, in that order and nothing else |
| `FourWayHandshake.CharacterIsAnnounced` | src/fourway.c:214-269 | A character for port p is announced with v + 4p + 1 modulo 256, and is the one the host then reads |
| `Mmu.GrantedByBits` | src/mmu.c:131-152 | An access is granted exactly as bits 12 to 15 of the base, the low 12 bits of the limit and the page offset say, and leads to the page at base plus offset |
| `Mmu.ErrorsByBits` | src/mmu.c:154-233 | Each bit of the segment status tells of its own rule, by the bits of base and limit |
| `Mmu.DescriptorsByBits` | src/mmu.c:58-88 | Which register a write reaches and what it leaves there, by the bits of the address |
| `Mmu.ResetRefuses` | src/mmu.c:40-47 | After a reset every register is zero and nothing is let through |
| `Mmu.CountersCount` | src/mmu.c:154-233 | Over any history the two counters count the translations let through and the rules broken, modulo 2^32 |
| `PitInterrupt.StatusIff` | src/pit.c:265-279 | Over any history of writes, counts and resets ZDS is set if and only if a count or the enabling write met a zero while bits 0 and 7 to 5 of the control byte let it interrupt, and no odd value was written to register 26 since |
| `PitInterrupt.ControlIsLast` | src/pit.c:111-127 | The enable, mode and interrupt bits are those of the byte last written to register 16 |
| `PitInterrupt.InterruptsIff` | src/pit.c:231-246 | The line is asserted if and only if the last control byte enables the timer in an interrupt mode and some event met a zero since the status was last cleared |
| `PitInterrupt.WithdrawnUntilZero` | src/pit.c:128-130 | After an odd write to the status register the line is down until an event meets a zero |
| `Pit.CounterAssembles` | src/pit.c:134-136 | The three counter registers together hold the counter, in whatever order they are written |
| `Pit.DisabledHolds` | src/pit.c:283-293 | A timer that is not enabled does not count, and after a reset it is not, with everything in it zero |
| `Pit.LooksCatchUp` | src/sim.c:1177-1184 | A look issues the counts due by now, one every 500 ns; the first and one more than 20 ms late start over with one |
| `FloppyInterrupt.AsksIff` | src/fd.c:512-547 | Over any history of conditions, commands, option writes, acknowledges and resets the floppy asks for its interrupt if and only if an event asked for it, by the bytes last written, and no forced interrupt or acknowledge of level 3 took it back since |
| `SccInterrupt.TransmitIff` | src/scc.c:229-270 | Over any history a channel's transmit interrupt is pending if and only if some data byte was written with bit 4 of register 14 clear and bit 1 of register 1 set, and no command or channel reset cleared it since |
| `SccInterrupt.ReceiveIff` | src/scc.c:303-346 | Its receive interrupt likewise, for characters with bit 3 or 4 of register 1 set, and cleared by reading them as well |
| `SccInterrupt.RegisterIsWritten` | src/scc.c:195-226 | Number and value written to the command port put the value into that register and change no other |
| `SccInterrupt.ResetDisables` | src/scc.c:187-193 | A channel reset clears both interrupts and leaves of register 1 bits 2 and 5 alone |
| `SccInterrupt.ResetClears` | src/scc.c:610-624 | After the hardware reset every register is zero and nothing is pending |
| `SccInterrupt.LoopbackIsReceived` | src/scc.c:232-240 | A looped back byte is received cut to 5, 7, 6 or 8 bits, once |
| `SccInterrupt.CharacterIsTaken` | src/scc.c:138-161 | A character from the line is handed over as it came, once |
| `SccInterrupt.FileIsRead` | src/scc.c:138-161 | A file loaded for the second channel is handed over byte by byte, one for each character that comes in |
| `SccInterrupt.StatusReads` | src/scc.c:95-135 | What reads of the command port show, bit by bit |
| `Terminal.StreamsShow` | src/esc_sequences.c:29-182 | For every stream in which no ESC stands in front of a control character, a VT100 does with the translation what an EVDT does with the stream: the same characters with the same renditions at the same places, attribute 3 apart |
| `Terminal.ShownAsAskedIff` | src/esc_sequences.c:29-48 | The 16 attributes read back as the bits for underline, blink, reverse and dim exactly apart from attribute 3, which is not underlined |
| `IrqLines.NmiIff` | src/Musashi/m68kcpu.c:1061-1070 | A non-maskable interrupt is requested exactly on the way to level 7 |
| `FourWayStatus.StatusShows` | src/fourway.c:506-524 | Over any history after a reset the status byte shows in bit 0 whether a step of the handshake was handed over since the last look, in bits 2 and 3 whether fewer than two or three writes have come |
| `FourWayStatus.BusyIff` | src/fourway.c:443-475 | A board is busy if and only if one of its first three instruction writes came after the last look at its status |
| `FourWayStatus.HandshakeCounts` | src/fourway.c:443-475 | How far the handshake of a board has got is how often its instruction register was written |
| `FourWayStatus.ResetsAreFresh` | src/fourway.c:581-600 | What a reset leaves: boards as out of power-on, a free line, no count, and the waiting table as it was |
| `SRecord.DigitsAre` | src/load.c:29-36 | The sixteen digits stand for their places, every other character for zero; line ends are CR and LF |
| `SRecord.HeaderAlone` | src/load.c:93-103 | A file that ends within its header: one error if it has less than four characters, otherwise nothing |
| `SRecord.EndTooShort` | src/load.c:159-220 | A last record too short for its checksum is one error and gives no start address |
| `ConfigBytes.NumbersByBytes` | tools/configrec.py:149-178 | After a set the numbers at bytes 796, 804, 780, 812 and 820 to 822 of the unit are the ones asked for, or as they were where nothing was asked, drive words half by half |
| `ConfigBytes.NameByBytes` | tools/configrec.py:179-184 | The 32 bytes from 848 hold the name asked for and zeros behind it |
| `ConfigBytes.RestByBytes` | tools/configrec.py:149-185 | Every other byte of the image is as it was, the checksum apart |
| `ConfigBytes.ChecksumByBytes` | tools/configrec.py:72-79 | The last four bytes of the unit are its checksum |
| `ConfigBytes.ArgumentsAccepted` | tools/configrec.py:149-185 | Which arguments are accepted, by their bounds |
| `ConfigBytes.AcceptedByBytes` | tools/configrec.py:94-122 | What the search accepts, by the bytes of the unit |
| `EscSequences.ControlsPassOn` | src/esc_sequences.c:252-262 | A control character behind ESC is passed on with it |
| `RingBuffer.LevelIsHeld` | src/charringbuffer.c:16-61 | The ring holds as many bytes as counting says: what fits of what is put in, less what is asked for as long as there is some |
| `ExprPartial.MissingOperand` | eagletests/eagletest/exprparse.c:466-614 | An expression with an operator behind it and nothing more has the value of that operation with zero, and no error is recorded |
| `ExprPartial.UnfinishedIsZero` | eagletests/eagletest/exprparse.c:492-556 | A minus sign, an open parenthesis, a function name or an open call with nothing behind it is zero and no error |
| `ExprPartial.NameAlone` | eagletests/eagletest/exprparse.c:502-507 | A function name that something other than a parenthesis follows is an error and zero |
| `ExprPartial.TooManyArguments` | eagletests/eagletest/exprparse.c:508-522 | A call takes up to nine arguments; the tenth ends it with an error and zero |
| `ExprScan.Classes` | eagletests/eagletest/exprparse.c:262-268 | Which characters begin a name, continue one, and are digits, by their codes |
| `ExprScan.DigitsCount` | eagletests/eagletest/exprparse.c:314-337 | A digit counts for its place among the sixteen, in either case |
| `ExprScan.NumeralsDenote` | eagletests/eagletest/exprparse.c:314-337 | A numeral stands for the number its digits denote, modulo 2^32 |
| `ExprScan.NamesMean` | eagletests/eagletest/exprparse.c:281-311 | A name is a function as written, otherwise a symbol in small letters with its value, and an error where there is none or it is negative |
| `ExprScan.NamesAreShort` | eagletests/eagletest/exprparse.c:281-292 | Names have up to 20 characters; a longer one is an error |
| `Memory.MemoryMap` | src/memory.c:25-111 | What each address shows and which can be written, while the ROM covers everything and later |
| `WdOutcomes.ReadByNumbers` | src/wd.c:683-722 | Status, sense, BUSERR, register and overlay after a READ in numbers: 0x11 for a word without RAM, 0x21 for a block the image lacks, whole chunks of 18 blocks before that |
| `WdOutcomes.ReadBytes` | src/wd.c:683-722 | Every byte of RAM after a READ |
| `WdOutcomes.WriteByNumbers` | src/wd.c:723-748 | The same for WRITE: 0x11 for a word that cannot be read, 0x14 for a block the image does not take, and the chunk fetched for it in vain |
| `WdOutcomes.WriteBytes` | src/wd.c:723-748 | Every byte of the image after a WRITE |
| `WdDma.WordIsDesignated` | src/wd.c:1367-1383 | A host that writes the complements of the three bytes of a word address, in whatever order, makes the engine start at that word |
| `WdDma.DmaEngine.WriteDmaHigh` | src/wd.c:1367-1372 | Replaces what is above the low 16 bits of the address register |
| `WdDma.DmaEngine.WriteDmaMiddle` | src/wd.c:1373-1378 | Replaces the middle byte of the address register |
| `WdDma.DmaEngine.WriteDmaLow` | src/wd.c:1379-1383 | Replaces the low byte of the address register |
| `WdCdb.DecodesByBytes` | src/wd.c:683-700 | Which bytes of a block are its number and its count |
| `WdCdb.FittingKeeps` | eagletests/eagletest/wd.c:208-215 | Of a command that outgrows its buffer the first 64 bytes are left |
| `WdPolled.PolledByNumbers` | src/wd.c:683-722 | Status, sense and reply of a READ without DMA in numbers |
| `WdControl.ControlReadsBack` | src/wd.c:1258-1265 | The six low bits of the control register read back as written, the two others show the pending seeks |
| `WdControl.ControlInterrupts` | src/wd.c:1391-1418 | Bit 0 drops flags and line; a bus error that waited is reported by the write that sets bit 2 where it was clear |
| `WdControl.ResetFreesBus` | src/wd.c:1391-1410 | Two turns after a reset, and with bit 0 clear again, the status byte is 0 and nothing is selected, whatever went on before |
| `ExprPartial.NineAreSensible` | eagletests/eagletest/exprparse.c:508-522 | Calls of a known function with one to nine expressions are among the expressions that parse back |
| `Memory.WordsWithin` | src/memory.c:56-73 | Words at even addresses lie within RAM or one copy of the ROM, and which odd ones do not |
| `SRecord.NothingLoads` | src/load.c:104-106 | A file that begins with no record loads nothing, without an error, and has no start address |
| `WdControl.StartShows` | src/wd.c:1149-1184 | A command that starts sets bit 5 of the status byte at once and is run five turns later |
| `WdControl.RunShows` | src/wd.c:600-657 | When it is run its reply and status byte are kept and an invalid address shows in bit 0 until the next phase |
| `WdControl.OverwrittenIsNotRun` | src/wd.c:600-630 | A block overwritten with an opcode of another class meanwhile is not run; the status phase hands over the status byte before |
| `WdControl.EarlyReadIsIdle` | src/wd.c:1052-1066 | A read of the input register with nothing to read, before or while a command runs, changes nothing |
| `WdControl.ArbiterTurn` | src/wd.c:437-490 | One turn of the re-arm counter: down, at rest, two turns more while the line is up, or the line up for what waits |
| `WdControl.ReadStartsAfresh` | src/wd.c:1293-1332 | A read by the host starts the counts of block and data afresh and asks for the next byte in two turns |
| `WdControl.BusErrorIsCleared` | src/wd.c:1464-1470 | A write to the register for it clears bit 0 of the status byte and no other |
| `WdControl.BytesAreStored` | src/wd.c:1419-1437 | While it is selected the controller stores each byte in turn, up to 9226 of them |
| `WdControl.StatusPhaseFlags` | src/wd.c:492-519 | What the status phase flags, by opcode and control bits, and from where the counter starts |
| `IrqFabric.CountedPulseAnswers` | src/sim.c:632-656 | A pulse of the tape that was counted is answered by the next acknowledge of level 4, before the 4-Way, and by no other |
| `TapeDrive.ReportsAre` | src/cs.c:205-230 | Status and second status of a READ in numbers, by what it met last |
| `WdControl.RegistersAreLast` | src/wd.c:1384-1418 | Over any run from power-on the machine goes by the bits of the byte written last to the control register, whose six low bits read back, and by the vector written last |
| `WdControl.ResetsLeave` | src/wd.c:1454-1491 | Selection and power-on show 0xc2; the reset of the CPU leaves what power-on does, the last commands and the re-arm counter apart |
| `WdControl.FreeBusReads` | src/wd.c:1293-1300 | On the free bus the host reads what it wrote last; with DMA the probed word comes first, unless the DMA address was written in between |

## Left out

- WinchesterRegisters.Winchester.WriteHost: requires a unit number below 2 in the second command byte; for higher ones the source indexes past its units.
- WdDma.DmaEngine.ImgWrite: the file takes what is written to it: no full disk, and a file offset of 64 bits.
- Memory.Memory.ReadWord: the word lies within RAM or one copy of the ROM, as every even one does; past an end the source reads beyond its arrays. The same for WriteWord.
- IrqDevices.SerialChip.DataRead: past the end of a loaded file the source hands out what lies behind its buffer; the value is left open.
- IrqFabric.AcknowledgeAnswers: a halted CPU acknowledges nothing until the next reset.
- FourWayBoards.Boards.PulseReset: the defaults of the port registers are not kept.
- WdTranscript.TranscriptIsExact: assumes unit numbers 0 and 1; for higher ones the source indexes past its units.
- WdInterrupts.EachFlagDeliveredOnce: one installed controller; with two the line is shared and a second controller's flags are claimed by the first.
- WdInterrupts.FlagsLeaveOnce: a bus error flag is cleared without an acknowledge where the arbiter finds it with the line down; in reachable states the line is up whenever the flag is set, so that branch is never taken.
- FourWayDelivery.RequestsAreConserved: runs after power-on; a later reset is covered by ResetIsCleanIff only.
- ExprParser.Parser.Factor1: functions are tables of values without side effects; a call with ten arguments reports an error, where the source also prints the name of whatever function was scanned last, which may be none.
- ExprLexer.HeadOfSpelled: names are ASCII; a symbol with a negative value scans as an error, as in the source.
- SRecordLoader.Loader.NextByte: the two digits of a byte are read left to right; C leaves the order open.
- TapeDrive.Streamer.Read: the tape does not change; WRITE, APPEND and ERASE are not modelled, nor are block copies that overlap the parameter block itself.
- Translator.BfTranslator.ProcessFully: 7 bit characters; for others the source indexes outside its tables.
- RingBuffer.Ring.constructor: sizes are powers of two from 1 to 2^63; the source's own test also lets 0 pass.
- Pit.OnTimeIsExact: the host clock is a sequence of increasing readings above zero.
- Winchester command switch: arms other than READ and WRITE enter as outcomes, among them READ CAPACITY, MODE SENSE and the formatting commands.
- Winchester WRITE without DMA: the source refuses it.
- Winchester data from the host that is not DMA: counted, but its bytes are not kept.
- Winchester image attachment and write protection switches.
- 4-Way commands: what a port command transfers to and from memory and sockets; only its completion is modelled.
- Serial chip: baud latches and the console echo; the socket and keyboard polls enter as received characters.
- Timer registers other than control, status, counter and preload; port interrupts.
- Floppy controller: everything but its interrupt; whether a transfer command starts or completes enters as an event.
- Memory management unit: byte reads of its windows are left out; counters are kept modulo 2^32, the debugger's listing is left out; the long write of src/sim.c, which goes through the unit again, is left out.
- Loader: bytes go to the addresses given; in user mode the emulator would translate them first.
- Loader: the range of addresses and the byte count it prints, and the read-back of every byte, which only prints.
- Configuration record: argument parsing and the show command; a negative block number.
- Musashi's execution and its own memory management, the floating point unit, sockets, telnet, state save and load, the debugger: plumbing or easy members.
- Terminal.StreamsShow: streams in which no ESC stands in front of a control character; such a pair is passed on as it is, and what a VT100 makes of it is not modelled.
