# A verified model of the Tech2 emulator's stateful kernels

The repository emulates a Tech2 diagnostic tool: a 68k guest on a bus of
memories and devices, live adapters, a scripted harness and a report service.
This project models the parts of it whose correctness is a statement about
unbounded runs, and proves those statements. There is one module a component.

* **Timers.** `TpuRegisters` is the in-place countdown pass over the 4 KiB
  register image and the interrupt arbitration. `TpuClocks` is the arithmetic of
  the instruction clock, the live clock, the periodic timer and checkpoints.
  `TpuUart` is the idle timeout of channel 5, refined to an absolute deadline.
  `Tpu` is the `Countdown` object that ties the three to its own fields. `Bits`
  holds the bit operators as integer functions.
* **Devices.** `SsaFlash` is the bounded NOR view of the card's SSA region,
  `WideBus` the byte bus with its fast wide paths and EPROM decoder, `Keypad` the
  key encoder.
* **Protocols and sessions.** `DemandInit` is the deferred CANdi start that
  borrows the guest CPU, `BcmPolicy` the guard on the BCM reminder write,
  `Harness` the screen-driven stage machine, `DtcReport` and `IbusLog` the
  trouble-code report and the transcript that must prove it.
* **Bounded stores.** `Trace` is the rolling trace over a disk that may fail,
  `Logger` the rings and the wrapped console view, `ReceiveStaging` the receive
  queues, `RomModules` the ROM restoration, `RateLimits` the submission limiter.
  `Text` holds the number formats of the records.

Objects that the program updates in place are classes. Each method is proved
equal to a step function on values, or to a statement about a ghost history of
the whole run, and the theorems are about those functions and histories.

Where the code differs from what its documentation or a natural reading says,
the model follows the code and a theorem says exactly when the reading holds:

* The instruction clock is exact except at the last 64-bit instant with a
  saturated deadline (`TpuClocks.ExactExceptAtSaturation`).
* A checkpoint keeps a countdown's delay, up to the last 64-bit instants, exactly
  when it was not already overdue (`TpuClocks.RebaseKeepsDelay`). It keeps the
  UART timeout for every later schedule exactly when it was taken at the last UART
  poll or the next poll does not count from that one anyway
  (`TpuUart.RebaseKeepsTimeout`).
* A record the trace has taken is lost exactly when a rotation's flush breaks
  before the writer's buffer is empty (`Trace.LostIffRotationBroke`;
  `Trace.FirstRecordIsLost` is such a run). No other failure loses one.
* Restored ROM modules verify in the final flash with no assumption that the
  reported modules are disjoint: the header constants already keep them apart
  (`RomModules.BodiesDisjoint`).
* A fifth request line whose payload reads INVALID passes the request check of
  the transcript parser; the transcript is then rejected for its stage
  (`IbusLog.AcceptedIffProven` covers it).

## Model

| member | source | states |
|---|---|---|
| TpuRegisters.PutAt | src/tpu.rs:22-24 | a 16-bit store writes big-endian and touches two bytes only |
| TpuRegisters.Decrement | src/tpu.rs:158-195 | the in-place pass leaves the register-by-register result and reports exactly the channels with a register that reached zero |
| TpuRegisters.DecrementChannel | src/tpu.rs:164-192 | one turn of the channel loop: idle channels unchanged, counting channels updated, both masks extended by this channel's mark |
| TpuRegisters.DecrementRegister | src/tpu.rs:178-191 | one turn of the register loop: a nonzero register saturates at zero and marks its channel when it gets there |
| TpuRegisters.ReadConfiguration | src/tpu.rs:165-175 | function, priority and sequence decode to whether a channel is counting |
| TpuRegisters.WordAfter | src/tpu.rs:176-181 | what every one of the 128 channel registers holds after a pass |
| TpuRegisters.PassKeepsConfiguration | src/tpu.rs:158-195 | a pass changes neither STOP, TPUMCR nor any channel's configuration |
| TpuRegisters.PassFrame | src/tpu.rs:158-195 | outside the channel registers from 0xf00 a pass writes the two bytes of CISR at 0xe20 and nothing else |
| TpuRegisters.RegistersCompose | src/tpu.rs:176-183 | every register after passes of a and b ticks is what one pass of a + b leaves, wrapping or saturating |
| TpuRegisters.HitsCompose | src/tpu.rs:184-189 | a channel expires in one of two passes exactly when it expires in the joined pass |
| TpuRegisters.StatusComposes | src/tpu.rs:193-194 | CISR after two passes is CISR after the joined pass |
| TpuRegisters.PassesCompose | src/tpu.rs:158-195 | passes of a and b ticks are a pass of a + b ticks: same image, union of the expired channels |
| TpuRegisters.EmptyPass | src/tpu.rs:158-195 | a pass of no ticks changes nothing and expires nothing |
| TpuRegisters.Interrupt | src/tpu.rs:201-218 | the answer is the lowest channel that is enabled in 0xe0a, pending in 0xe20 and has a priority, with the level from the low three bits of the byte at 0xe08 and the vector's high digit from that of the byte at 0xe09; there is one whenever the level is nonzero and some channel requests |
| TpuClocks.CarriedRemainder | src/tpu.rs:151-154 | quotients with a carried remainder add up to the quotient of the sum |
| TpuClocks.WallPollsMerge | src/tpu.rs:137-156 | two live polls are one poll at the later time |
| TpuClocks.WallScheduleIsOnePoll | src/tpu.rs:137-156 | any nondecreasing schedule of live polls ends in the clock, image and expired channels of one poll at its last time |
| TpuClocks.LiveTimerIsPollRateIndependent | src/tpu.rs:134-156 | from the first sample on, the total is the floor of elapsed nanoseconds scaled to ticks, whatever the schedule; `LiveTotalFromBytes` gives the scale |
| TpuClocks.PrescaleSteps | src/tpu.rs:140-140 | setting PSCK makes the prescaled clock eight times as fast and each TCR1P step halves it |
| TpuClocks.DividerOfBytes | src/tpu.rs:138-140 | the divider is 4 or 32 by bit 6 of the byte at 0xe01, doubled as often as bits 5 and 6 of the byte at 0xe00 say |
| TpuClocks.LiveTotalFromBytes | src/tpu.rs:134-156 | for every image and schedule the live total is elapsed * 16,777,216 / (1,000,000,000 * 4194 * k), with k read from the bytes of TPUMCR |
| TpuClocks.RegisterReachesZero | src/tpu.rs:178-189 | a register of 2500 on channel 3 holds 2500 less the passes, and at 2500 passes expires the channel |
| TpuClocks.GuestTimerExpires | src/tpu.rs:134-195 | with the guest's TPUMCR 0x1ccc a register of 2500 reaches zero and expires channel 3 by the poll at 2.5 s, however often it was polled before, and not by any poll up to 2.499 s |
| TpuClocks.WallArithmeticFits | src/tpu.rs:151-154 | no intermediate value of a live poll exceeds 128 bits for any representable duration |
| TpuClocks.LatticeStep | src/tpu.rs:126-131 | the next deadline is the first lattice point after now, and counts before and after a poll add up |
| TpuClocks.InstructionScheduleIsExact | src/tpu.rs:121-133 | every schedule of polls counts each lattice point once and leaves the first one after the last poll |
| TpuClocks.InstructionClockIsExact | src/tpu.rs:121-133 | armed at n0, the total at any later poll is the floor of (now - n0) / 10000, with the next deadline just after now |
| TpuClocks.ExactExceptAtSaturation | src/tpu.rs:125-131 | the count is exact if and only if the poll is before the last 64-bit instant or the deadline was representable |
| TpuClocks.RebaseKeepsDelay | src/tpu.rs:52-55 | a restored countdown agrees at every later 64-bit distance if and only if it was not overdue and its moved deadline is representable, or it was overdue by less than a quantum with no whole quantum of instants left |
| TpuClocks.OverdueCheckpointDiffers | src/tpu.rs:53-55 | a countdown overdue by five at the checkpoint counts a tick less 9,995 instructions later |
| TpuClocks.RestoredRunsAgree | src/bus.rs:413-416 | after a restore of a countdown that was not overdue every shifted schedule of polls below the last 64-bit instant gives the same image and the same expiries, whatever saturates |
| TpuClocks.LastInstantCountsAgain | src/tpu.rs:126-132 | the exception: with a deadline saturated at the last 64-bit instant each of any number of polls there counts one more tick |
| TpuClocks.RestoreForgetsHostTime | src/tpu.rs:57-59 | the first live poll after a restore counts nothing and carries no remainder |
| TpuClocks.RestoredPitAgrees | src/bus.rs:417-419 | the periodic timer fires at the same polls of every shifted schedule below the last 64-bit instant, overdue or not, whatever saturates |
| TpuUart.CountdownRefinesDeadline | src/tpu.rs:62-118 | for every interleaving of services and idle or busy polls the countdown fires exactly where a deadline measured from the last reload does |
| TpuUart.DeadlineFiresOnce | src/tpu.rs:101-113 | on the idle line the deadline fires at the first poll an interval or more after the reload and at no other |
| TpuUart.TimeoutFiresOncePerReload | src/tpu.rs:68-118 | the same for the countdown itself, from any state that reloads |
| TpuUart.EnabledIsConfigured | src/tpu.rs:71-77 | the channel counts exactly when the bytes at 0xe00, 0xe11 and 0xe1e say TPU running, function 13 and a priority |
| TpuUart.IntervalShown | src/tpu.rs:79-90 | the interval is what the four bytes from 0xf50 show: periods of two half periods, or a 32-bit number, a zero counting as one |
| TpuUart.ServicedTimeoutFires | src/tpu.rs:62-118 | a host service of code 1 makes the next poll reload, and from there the timeout fires at the first idle poll that comes the shown interval later and at no other, all read from the bytes |
| TpuUart.PollKeepsSetup | src/tpu.rs:68-118 | a poll changes none of the words later polls decide by |
| TpuUart.IntervalPositive | src/tpu.rs:79-90 | intervals are positive, fit 64 bits and bound the half periods they hold |
| TpuUart.PollKeepsBound | src/tpu.rs:79-103 | the remaining count never exceeds what the registers can show |
| TpuUart.RegistersDecode | src/tpu.rs:95-100 | the two registers of a half-period timer decode to the half periods left, rounded up, and the 16-bit count is never truncated |
| TpuUart.ExpirySetsStatus | src/tpu.rs:104-111 | a poll that fires leaves bit 5 of the word at 0xe20 set |
| TpuUart.RebaseKeepsTimeout | src/tpu.rs:52-60 | a restore fires at the same events of every later interleaving of services and polls if and only if the checkpoint was taken at the last poll, or the next poll does not count from it: a service is pending, the line was busy, nothing is running, or the channel is stopped or not configured |
| TpuUart.ShiftedFires | src/tpu.rs:68-118 | two timeouts that differ by a shift of the clock fire at the same events of every shifted schedule |
| TpuUart.RebaseLosesElapsed | src/tpu.rs:56-56 | otherwise the time since the last poll is lost: at one idle poll the original times out and the restored one does not |
| TpuUart.RebaseLosesTwoTicks | src/tpu.rs:56-56 | the same at a concrete checkpoint, two instructions after the last poll |
| TpuUart.PollKeepsRunning | src/tpu.rs:95-114 | a running timeout always has something left |
| Tpu.Countdown.constructor | src/tpu.rs:26-33 | a new countdown is unarmed on every clock |
| Tpu.Countdown.Rebase | src/tpu.rs:52-60 | the object's rebase is the rebase of both models |
| Tpu.Countdown.UartHostService | src/tpu.rs:62-64 | only a service code of 1 requests a reload, and requests stick |
| Tpu.Countdown.Advance | src/tpu.rs:121-133 | the object's instruction poll is the modelled one, in place |
| Tpu.Countdown.AdvanceWall | src/tpu.rs:137-156 | the object's live poll is the modelled one, in place; `TpuClocks.LiveTotalFromBytes` says in the register bytes how many ticks a run of them counts |
| Tpu.Countdown.AdvanceUart | src/tpu.rs:68-118 | the object's UART poll is the modelled one, in place |
| Tpu.Countdown.ReloadUart | src/tpu.rs:78-94 | a reload takes the interval from the parameters and shows it in the registers |
| Tpu.CountUart | src/tpu.rs:97-103 | the register update of a counting poll |
| Tpu.ExpireUart | src/tpu.rs:104-108 | the register update of an expiring poll |
| SsaFlash.SsaFlash.constructor | src/ssa_flash.rs:9-17 | an idle device with no status and zero counters |
| SsaFlash.SsaFlash.WriteByte | src/ssa_flash.rs:28-44 | a lane write is the byte device's step on state and card, and never fails for any card length |
| SsaFlash.SsaFlash.WriteWord | src/ssa_flash.rs:46-94 | a word write is the NOR device's step on state and card |
| SsaFlash.FillRegion | src/ssa_flash.rs:72-73 | an erase sets the 714 region bytes and no other |
| SsaFlash.PairedLanesAreWords | src/ssa_flash.rs:28-33 | high and low lanes at even offsets are exactly a fold of word writes, leaving no lane pending |
| SsaFlash.WordWriteEffect | src/ssa_flash.rs:46-94 | a word write erases, or programs exactly the word sent with the count up by 2, or changes neither card nor counters; which of them is decided by the armed command |
| SsaFlash.StreamStaysInRegion | src/ssa_flash.rs:28-94 | for every byte stream and card length nothing outside the 714 bytes from 0xfe0000 changes, and while no erase is accepted bits only fall |
| SsaFlash.ProgrammedCountsAccepted | src/ssa_flash.rs:47-66 | `programmed_bytes` is twice the number of accepted words of any stream |
| SsaFlash.StoredWord | src/ssa_flash.rs:62-63 | storing distinct words leaves each where it was addressed |
| SsaFlash.StoredElsewhere | src/ssa_flash.rs:62-63 | storing words leaves every other cell alone |
| SsaFlash.SaveReadsBack | src/ssa_flash.rs:28-94 | erase and program of any distinct words at even offsets from 0xfe0000 to 0xfe02c8, each behind either command and command-shaped or not, leaves exactly those words high byte first, 0xff elsewhere in the 714 bytes, the rest of the card untouched and the counters up by 1 and 2n |
| WideBus.PlainReadAgrees | src/bus.rs:1085-1102 | whenever the fast read answers, byte reads give those bytes and change no state |
| WideBus.PlainWord | src/bus.rs:2263-2273 | a fast word is the big-endian join of two byte reads, with no state change |
| WideBus.PlainLong | src/bus.rs:2275-2281 | a fast long is the big-endian join of the word reads, with no state change |
| WideBus.ByteReadInLiterals | src/bus.rs:1802-1872 | the low 24 bits of an address select switches, ROM, RAM or a device; only a device sees the read, and without overlays and status ROM and RAM answer their bytes |
| WideBus.ByteWriteInLiterals | src/bus.rs:2089-2103 | a store to 0x100000-0x1fffff changes one RAM byte, one to 0x2-0x7fff nothing, the rest of the ROM range is a lane of the EPROM, anything else reaches a device |
| WideBus.WideInBytes | src/bus.rs:2263-2300 | a word outside the switches is the two byte accesses in ascending 32-bit addresses, high byte first |
| WideBus.RamWord | src/bus.rs:2291-2299 | a fast RAM word store leaves the state of two byte stores, at any 32-bit address |
| WideBus.RamLong | src/bus.rs:2302-2313 | a fast RAM long store leaves the state of four byte stores, at any 32-bit address |
| WideBus.LongReadsBack | src/bus.rs:2275-2313 | a long stored in RAM reads back if and only if no research overlay would show a byte of the value as another, which is decided before the store from the address, the value and the RAM byte before it |
| WideBus.OverlaidLongDiffers | src/bus.rs:1830-1841 | a zero long stored over an overlaid pair reads back as 0x4E71 in research mode |
| WideBus.StoresKeepBoot | src/bus.rs:488-515 | no stream of byte stores, aligned or not, changes the ROM below 0x8018, nor anything of a ROM that is not writable |
| WideBus.AlignedStoreIsCommand | src/bus.rs:523-541 | an aligned word store to the command range is one word of the EPROM decoder |
| WideBus.ProgramStoresWord | src/bus.rs:479-516 | a program command and a word of any value, command-shaped or not, leave exactly that word in a writable ROM and count two bytes |
| WideBus.Tech2Bus.constructor | src/bus.rs:543-603 | the image padded with 0xff, zeroed RAM, an idle EPROM and no device access made |
| WideBus.Tech2Bus.WriteEpromWord | src/bus.rs:463-521 | a word of the EPROM is data when a program command came before it and else a command, whatever its value |
| WideBus.Tech2Bus.ProgramWord | src/bus.rs:481-494 | the word after a program command sets the status, counts two bytes, and reaches a writable ROM above the boot block |
| WideBus.Tech2Bus.EraseBlock | src/bus.rs:504-514 | an erase fills the 64 KiB block of its address, less the boot block |
| WideBus.Tech2Bus.WriteEpromByte | src/bus.rs:523-541 | lanes pair into words; a lane without its partner counts on both lanes |
| WideBus.Tech2Bus.ReadByte | src/bus.rs:1802-1872 | the byte read with its overlays and flash status; other addresses reach a device |
| WideBus.Tech2Bus.WriteByte | src/bus.rs:2089-2103 | the byte store: RAM takes it, the protected ROM range drops it, the rest of the ROM range is an EPROM lane, other addresses reach a device |
| WideBus.Tech2Bus.LoadTestPlainRead | src/bus.rs:1085-1102 | the fast read answers exactly when its bytes lie in one memory clear of status and overlays |
| WideBus.Tech2Bus.ReadWord | src/bus.rs:2263-2273 | a word read, fast or not, is two byte reads high first |
| WideBus.Tech2Bus.ReadLong | src/bus.rs:2275-2281 | a long read, fast or not, is two word reads high first |
| WideBus.Tech2Bus.WriteWord | src/bus.rs:2283-2300 | a word store, fast or not, is two byte stores, or one switch store at an even switch address |
| WideBus.Tech2Bus.WriteLong | src/bus.rs:2302-2313 | a long store, fast or not, is two word stores |
| Keypad.Encoder.constructor | src/bus.rs:1604-1608 | an idle encoder |
| Keypad.Encoder.PressKey | src/bus.rs:1239-1263 | a press queues its two edges behind everything queued, and starts them if the encoder is idle |
| Keypad.Encoder.LatchNextKey | src/bus.rs:1604-1608 | the next edge becomes active for six reads with the interrupt up, or the encoder falls idle |
| Keypad.Encoder.KeypadRead | src/bus.rs:1612-1641 | a read gives the active edge or the idle byte and keeps the encoder on its history |
| Keypad.PressTracks | src/bus.rs:1239-1263 | a press keeps queue, counters and read history in agreement |
| Keypad.ReadTracks | src/bus.rs:1612-1641 | a read keeps queue, counters and read history in agreement |
| Keypad.ObservedIsHeldEdges | src/bus.rs:1239-1263 | reads are the queued edges each six times, a prefix always and all of them when idle; the interrupt is up iff an edge is active; 2 * events = consumed + queued + active |
| Keypad.OnePressIsTwelveReads | src/bus.rs:1610-1641 | one press alone is read as six press bytes and six release bytes |
| DemandInit.Guest.constructor | src/candi/demand.rs:30-44 | a machine whose secondary CPU has not been started |
| DemandInit.Guest.Call | src/candi/demand.rs:156-183 | the CPU is pointed at the next routine with its frame; `BorrowInBytes` says which routine and which bytes |
| DemandInit.Guest.GuestDependency | src/candi/demand.rs:185-278 | the dependency check is its step on state and log, whose start, waiting and loader outcome `StartInLiterals`, `WaitInLiterals` and `LoaderOutcome` state in literals |
| DemandInit.Guest.FinishCall | src/candi/demand.rs:195-219 | a returned routine is followed by the next, a restoration or a failure; which of the last two, `LoaderOutcome` says in bytes |
| DemandInit.Guest.StepGuest | src/main.rs:82-145 | a step runs nothing once a failure is recorded, stops at the guest's assertion before anything is borrowed, and keeps state and log in agreement |
| DemandInit.Guest.GuestInstruction | src/main.rs:146-239 | a guest instruction may change anything but the outstanding call, and leaves a pending start alone or takes it |
| DemandInit.FrameReads | src/candi/demand.rs:168-174 | a frame writes only the eight bytes below the stack pointer, and on a stack that takes stores it holds return address and arguments |
| DemandInit.BorrowFrame | src/candi/demand.rs:156-183 | a borrowed call returns to the entry with the stack pointer where the return is recognised |
| DemandInit.FrameInBytes | src/candi/demand.rs:168-174 | every byte of a frame, on a stack that takes stores: the return address big-endian and the argument 8 or 1 above it |
| DemandInit.BorrowInBytes | src/candi/demand.rs:156-183 | by bit 1 of the byte at 0x1fbc11 and the mark: wait at 0x126f6, mark at 0x1d68c6 or loader at 0x1d8f46, eight, six or four bytes below the saved stack pointer, every other register as it was |
| DemandInit.StartInLiterals | src/candi/demand.rs:224-278 | the CPU is borrowed exactly at 0x1ee5a6 or 0x1dbb96 with its signature, booted, pending and no assertion, if loader, helpers, start and the eight bytes below the stack pointer are there; otherwise a due start fails and nothing runs |
| DemandInit.WaitInLiterals | src/candi/demand.rs:185-196 | an outstanding call is given up after 60,000 ms; a return is recognised by pc and stack pointer alone; until then the guest runs; the assertion halt stops everything first |
| DemandInit.LoaderOutcome | src/candi/demand.rs:204-216 | the step that sees the loader return in time hands the CPU back iff one of bits 12 to 15 at 0x1fbc10 is set and the low byte of D0 is 0 or 2; otherwise it fails and nothing runs in any continuation |
| DemandInit.RestoredNeedsSuccess | src/candi/demand.rs:204-216 | a step logs a restoration only where a loader returns with that success |
| DemandInit.DependencyFrame | src/candi/demand.rs:185-278 | the whole check writes no byte outside the eight below the saved stack pointer |
| DemandInit.EntryWaits | src/candi/demand.rs:193-223 | while a call is outstanding the entry instruction never runs from its return stack |
| DemandInit.EntryRunsElsewhere | src/candi/demand.rs:194-223 | the converse: in a calm step the entry instruction is what runs if and only if the stack pointer is another, and the call stays outstanding |
| DemandInit.CalmStep | src/candi/demand.rs:185-223 | a calm step of an outstanding call restores the CPU, or brings the restoration one return nearer, or leaves it as far as it was |
| DemandInit.CooperationRestores | src/candi/demand.rs:185-223 | completion: if the routines return as often as needed with the inventory flag up, in time and with a good loader result, the run restores the borrowed CPU, whatever the guest does in between and however many waits return early |
| DemandInit.StartBorrows | src/candi/demand.rs:224-278 | a communication entry with everything in order is borrowed, needing at most three returns |
| DemandInit.StartedRunRestores | src/candi/demand.rs:185-278 | completion from the entry to the restoration |
| DemandInit.RestorationIsReached | src/candi/demand.rs:185-278 | any CPU at an entry with a backed stack has such a run |
| DemandInit.RunHappens | src/main.rs:82-145 | a run from a machine not yet started is what its steps let happen |
| DemandInit.PhaseIsPattern | src/candi/demand.rs:140-144 | an accepted call sequence is an initial part of wait* mark wait* loader |
| DemandInit.StepConsistent | src/candi/demand.rs:185-278 | every step, whatever the guest and the host do, keeps the log ordered and the state in agreement with it |
| DemandInit.RunConsistent | src/candi/demand.rs:185-278 | the same for whole runs |
| DemandInit.CallsFollowPattern | src/candi/demand.rs:140-144 | in every run the calls are an initial part of wait* mark wait* loader, so mark runs once before the loader |
| DemandInit.RestoredIsOriginal | src/candi/demand.rs:197-216 | the CPU is borrowed at most once, handed back with every register, SR and pc as found, after the whole sequence, and the held instruction runs next |
| DemandInit.RestorationsAreEarned | src/candi/demand.rs:197-216 | over whole runs every restoration in the log was logged by a step in whose state the loader returned with that success |
| DemandInit.FailureIsFinal | src/main.rs:82-83 | after a failure nothing runs in any continuation |
| BcmPolicy.Policy.constructor | src/seatbelt.rs:30-51 | a policy with nothing shown, for either setting |
| BcmPolicy.Policy.Create | src/seatbelt.rs:26-51 | authority with an unfilled seed or key is refused, any other accepted, and the policy holds the seed, key and setting given |
| BcmPolicy.Policy.AllowsPasses | src/seatbelt.rs:128-143 | the guard allows exactly the policed frames whose step the flags let pass |
| BcmPolicy.Policy.Before | src/seatbelt.rs:144-165 | a frame to 0x242 on controller 2 with second byte 0x27 or 0x3b passes iff it is allowed, every other frame passes, what passes fits the run so far and joins the frames, and a refusal records nothing |
| BcmPolicy.Policy.RecordSent | src/seatbelt.rs:153-163 | a frame that passes goes into the flags, the run and the frames |
| BcmPolicy.Policy.FlagSent | src/seatbelt.rs:153-163 | a passing frame sets exactly its flag |
| BcmPolicy.Policy.Observe | src/seatbelt.rs:166-210 | frames of other senders are ignored; the others are steps of the run or errors; a response-pending leaves every flag as it was; rejection and both readback flags are set by the frames with those bytes alone |
| BcmPolicy.Policy.ObserveStep | src/seatbelt.rs:170-208 | a reply out of order is an error and records nothing |
| BcmPolicy.Policy.UpdateFlags | src/seatbelt.rs:178-206 | a reply sets and clears exactly its flags |
| BcmPolicy.Policy.TakeReadReply | src/seatbelt.rs:186-191 | the reply to a pending read decides baseline and both readback flags |
| BcmPolicy.StepFits | src/seatbelt.rs:128-210 | the flags let a step pass iff it fits the history, and then still track it |
| BcmPolicy.SentReads | src/seatbelt.rs:132-163 | a frame towards the module is each step exactly when it has that step's eight literal bytes |
| BcmPolicy.ReceivedReads | src/seatbelt.rs:170-208 | a frame from the module is a seed reply, grant, read reply, acknowledgment or rejection exactly when it has those bytes |
| BcmPolicy.FlagsOfFrames | src/seatbelt.rs:144-210 | each flag says which frames the policy has seen, in bytes |
| BcmPolicy.RejectionOfFrames | src/seatbelt.rs:198-206 | the run holds a rejection iff some observed frame was 03 7F 27 or 03 7F 3B with a fourth byte other than 0x78 |
| BcmPolicy.PendingMeansUnanswered | src/seatbelt.rs:161-187 | a read is pending iff some request has no reply after it |
| BcmPolicy.WriteAllowedIffDue | src/seatbelt.rs:139-142 | the write is allowed iff granted, then read back at the baseline with no later correlated read, nothing rejected and nothing written |
| BcmPolicy.BaselineHasItsRead | src/seatbelt.rs:161-188 | a standing baseline is a reply after the grant to a read request, which may be older than the grant, and no later reply answered another |
| BcmPolicy.SeedExchangePasses | src/seatbelt.rs:128-185 | from the start, seed request, expected reply, key and grant pass in that order |
| BcmPolicy.ReadBackLetsWritePass | src/seatbelt.rs:139-197 | from any granted run with no write or rejection, a baseline read-back lets the one write and its acknowledgment pass |
| BcmPolicy.GrantHasItsHistory | src/seatbelt.rs:171-185 | a grant has seed request, expected reply and key before it, in that order |
| BcmPolicy.WriteHasItsBaseline | src/seatbelt.rs:139-142 | an accepted write is the only one and follows a correlated baseline reply after the grant, with no later correlated reply and no rejection |
| BcmPolicy.WriteHasItsHistory | src/seatbelt.rs:128-210 | the whole ordered history of an accepted write |
| BcmPolicy.WriteHasItsFrames | src/seatbelt.rs:128-210 | the history of an accepted write in the frames themselves: 27 01, 67 01 with the seed, 27 02 with the key, 67 02, and a 5A 01 reply with 99 and the other setting that answers a 1A 01 request; no rejection before it and no second write |
| BcmPolicy.WriteFrameAllowed | src/seatbelt.rs:139-142 | the literal write frame is allowed exactly when the run makes the write due |
| BcmPolicy.AcknowledgedImpliesWritten | src/seatbelt.rs:192-197 | an acknowledgment was of a write |
| BcmPolicy.RejectionIsFinal | src/seatbelt.rs:198-206 | after a rejection nothing policed is allowed and none passes for the rest of the run |
| Harness.Harness.constructor | src/harness.rs:54-68 | a harness at its first stage |
| Harness.Harness.OperatorInput | src/harness.rs:76-85 | operator input ends the manual bootstrap and does nothing else |
| Harness.Harness.ObserveVerified | src/harness.rs:97-480 | an observation is the modelled step and outcome; `RunFollowsStory`, `RunShowsItsScreens` and `DeadlinesInLiterals` state runs of them in literals |
| Harness.Harness.CaptureScreen | src/harness.rs:128-145 | a screen is captured once after it has been stable |
| Harness.Harness.CapturePrompt | src/harness.rs:160-176 | a prompt is captured once in a row after it has been stable |
| Harness.Harness.CaptureMilestone | src/harness.rs:193-210 | a milestone is captured once after it has been stable |
| Harness.Harness.FollowScript | src/harness.rs:286-479 | a scripted stage advances after its screen has settled, or reports the wrong year; keys, captures and stages are the literal story of the target |
| Harness.ObservationMovesForward | src/harness.rs:299-475 | an observation stays in its stage or moves strictly ahead by stage rank, then model-year row |
| Harness.OperatorMovesForward | src/harness.rs:76-85 | operator input never moves back |
| Harness.RunSpendsBudget | src/harness.rs:106-127 | along every run, operator input included, time of entry plus the deadlines still ahead never exceeds the initial sum |
| Harness.ScriptedRunIsBounded | src/harness.rs:106-127 | a scripted target accepts no observation at or beyond its literal bound, the sum of its stage deadlines, unless complete, whatever the operator presses |
| Harness.BudgetIsBound | src/harness.rs:106-117 | the deadlines of the eight scripted targets add up to 120 to 930 million instructions, each row scrolled past taking one |
| Harness.DeadlinesInLiterals | src/harness.rs:106-127 | an observation is too late exactly 750, 80, 40, 2 or 10 million instructions after its stage was entered, never for a complete run nor for one the operator has taken over |
| Harness.StableMeansMatch | src/harness.rs:286-290 | over every interleaving of observations and operator input the stable instant is the start of an unbroken match in the current stage |
| Harness.TransitionNeedsUnbrokenMatch | src/harness.rs:286-298 | over every interleaving of observations and operator input each scripted transition follows an unbroken matching run of 200,000 instructions, 500,000 for the checking screen |
| Harness.SettledMatchAdvances | src/harness.rs:286-298 | the converse: in an accepted run an unbroken match that lasts the settle time does advance the script, operator input or not |
| Harness.StoryPlays | src/harness.rs:299-475 | the script plays each target's literal list of shots (stage, row, capture, key, exit) one after the other, from the splash screen to its end stage |
| Harness.RunFollowsStory | src/harness.rs:97-480 | whatever screens and operator inputs come, a scripted run has emitted exactly the target's literal list as far as it has got, sits at the next shot's stage and row, and after the last shot only captures screens |
| Harness.KeysOfStory | src/harness.rs:299-469 | the keys of each story are the target's literal key list |
| Harness.RunPressesItsKeys | src/harness.rs:299-475 | the keys a scripted run has pressed are a beginning of its literal list, e.g. 0E 18 0C 0C 0C 0C 10 0C 10 03 18 for trouble codes; it waits or completes only when all are pressed and only as its target does; no trouble-code run ever awaits security access and no security run trouble codes |
| Harness.MatchesIffPictured | src/harness.rs:249-285 | a scripted stage waits for exactly the screen its shot is taken of |
| Harness.RunShowsItsScreens | src/harness.rs:146-475 | over whole runs every capture is of the screen its name says, milestones and prompts included, a confirmed year is the selected one, and a run stops for a wrong year only where another is selected |
| Harness.ManualRunPressesOnce | src/harness.rs:300-314 | a manual run presses at most one key, ENTER at the welcome screen, whatever screens and operator inputs come |
| DtcReport.Report.constructor | src/t8_dtc.rs:10-14 | an empty open report of no frames |
| DtcReport.Report.ReceiveForIds | src/t8_dtc.rs:26-78 | a frame adds a record, closes the report, is ignored or is an error that changes nothing, and the report stays the meaning of all frames taken |
| DtcReport.Report.TakeFrame | src/t8_dtc.rs:33-77 | the field updates of one frame |
| DtcReport.Report.Finish | src/t8_dtc.rs:80-85 | a report is given exactly when the frames taken are a whole report ending in its end marker, and it is their records in arrival order, at most 128 |
| DtcReport.RunMeansReport | src/t8_dtc.rs:26-85 | a run of frames is accepted iff it has only records and ignored frames, at most 128 records, and nothing after an end marker; the result is the records in arrival order |
| DtcReport.CodeReads | src/t8_dtc.rs:67-73 | a printed code reads back: its letter says the top two bits and its four digits are the other 14 in hexadecimal |
| DtcReport.CodesAreDistinct | src/t8_dtc.rs:67-73 | different code bytes print as different codes |
| IbusLog.ParseLog | src/ibus_dtc.rs:67-148 | the parser's answer is the machine's final report, or an error; a report implies a line with the 17 bytes of YS3FH46U681000002 |
| IbusLog.TakeLine | src/ibus_dtc.rs:70-142 | one line advances the machine or stops the parse |
| IbusLog.TakeReception | src/ibus_dtc.rs:86-142 | one reception sets a guard, feeds the report or stops the parse |
| IbusLog.TrimmedMeansPadded | src/ibus_dtc.rs:131-131 | trimming leaves a name exactly when the text is that name between white-space characters, in their UTF-8 encodings |
| IbusLog.NameReplyIffPadded | src/ibus_dtc.rs:130-135 | the name guard passes exactly such a text of the module's own name and otherwise stops the parse |
| IbusLog.SpacesAreWhiteSpace | src/ibus_dtc.rs:131-131 | the bytes trimmed away are the UTF-8 encodings of the code points with the White_Space property |
| IbusLog.VinReplyIffVin | src/ibus_dtc.rs:124-129 | at stage 1 a whole message of the module starting 5A 90 passes exactly with the 17 bytes of this number and otherwise stops the parse |
| IbusLog.RepliesInBytes | src/ibus_dtc.rs:117-139 | each of the three replies is exactly a whole message on protocol 0x8007 from CAN id 0x642 or 0x641 with those bytes, at its stage |
| IbusLog.ReportFrameInBytes | src/ibus_dtc.rs:140-142 | a report frame is exactly a whole message on protocol 0x8008 at stage 4 |
| IbusLog.ErrorsInBytes | src/ibus_dtc.rs:90-135 | a reception stops the parse exactly when its status is no number, or it was delivered and is unreadable or truncated, a rejection by the module other than pending, or the due reply with another number or name |
| IbusLog.WantedIsAsked | src/ibus_dtc.rs:69-77 | the requests that are due name the module, its CAN id and the literal payloads |
| IbusLog.RunReflects | src/ibus_dtc.rs:70-143 | the machine runs to the end iff no line is an error and every request was due, and its state then says what was seen |
| IbusLog.RepliesSeen | src/ibus_dtc.rs:78-83 | four requests in order imply all three replies |
| IbusLog.AcceptedIffProven | src/ibus_dtc.rs:67-148 | a transcript is accepted iff it proves its report, ending in an end marker with no later report frame; the result is its records in order, at most 128 |
| IbusLog.AcceptedShowsVin | src/ibus_dtc.rs:67-148 | an accepted transcript holds a line with the bytes of the guarded number |
| IbusLog.ProvenHasNoRejection | src/ibus_dtc.rs:117-123 | a transcript that proves its report holds no rejection by the module anywhere |
| IbusLog.ProvenTranscriptIsOrdered | src/ibus_dtc.rs:67-148 | an accepted transcript shows, in order and in literal requests and bytes: VIN request, a message with the 17 bytes of the number, name request, a message with the padded name, normal-mode request, its reply 60, trouble-code request, and only then report frames |
| Trace.Trace.constructor | src/trace.rs:57-69 | an empty trace in a fresh directory |
| Trace.Trace.Attempt | src/trace.rs:114-155 | an I/O operation does what the oracle says |
| Trace.Trace.Event | src/trace.rs:83-113 | an enabled event takes the next sequence number and is written whole or as the mark of its omission; after an error the trace does not change at all; it loses exactly what a broken flush of its rotation leaves in the buffer; without I/O errors there is none; the text read back shows this number, these instructions, pc and navigation |
| Trace.Trace.Compose | src/trace.rs:96-109 | the record to write always fits its segment and 65,536 bytes |
| Trace.Trace.Commit | src/trace.rs:110-112 | a failed write is sticky and takes no record; what is lost is what a broken flush of its rotation leaves |
| Trace.Trace.Flush | src/trace.rs:131-133 | a flush moves the buffered records to the current segment in order, all of them or, when it fails, exactly as many as the operation did |
| Trace.Trace.Put | src/trace.rs:118-121 | the buffered write takes a record behind all earlier ones, on disk or in the buffer, or fails and takes nothing |
| Trace.Trace.WriteRecord | src/trace.rs:114-123 | a record goes behind all earlier ones, after a rotation exactly when it would not fit |
| Trace.Trace.Rotate | src/trace.rs:129-155 | a rotation flushes and makes every segment one place older; one that fails leaves consecutive records on disk, and loses records if and only if its flush broke before the buffer was empty |
| Trace.Trace.ShiftSegments | src/trace.rs:134-151 | renaming keeps what is retained at every step, and ends with an empty current segment |
| Trace.Trace.Check | src/trace.rs:186-198 | a check fails once anything has failed; after one that succeeds every record is on disk |
| Trace.OmissionIsShort | src/trace.rs:104-109 | the omission record is at most 256 bytes, whatever it stands for |
| Trace.EncodedReads | src/trace.rs:96-98 | a reader finds in a record's text its own sequence number, instructions, eight digits of pc, navigation, kind and detail |
| Trace.FittedReads | src/trace.rs:99-109 | the same for the record that is written, whether it is the event's or the mark of its omission; it is the mark exactly when the event is too long |
| Trace.OmissionReads | src/trace.rs:104-109 | the mark says the limit and the length that exceeded it |
| Trace.FittedFits | src/trace.rs:99-109 | every record fits its limit for every segment limit the constructor accepts |
| Trace.RotatedFiles | src/trace.rs:134-151 | after a rotation file i + 1 is what file i was, and the current file is empty |
| Trace.StoredIsPacked | src/trace.rs:114-155 | without failures nothing is missing before the last backup exists, and each segment was closed only because the next record did not fit |
| Trace.RetainedIsContiguous | src/trace.rs:83-155 | whatever fails, the numbers a reader finds in the texts of the segments, oldest first, are consecutive, each segment within its limit, and the records taken after the last one on disk fit the writer's buffer; without failures segments and buffer end at the latest event and are packed |
| Trace.LostIffRotationBroke | src/trace.rs:129-133 | over whole runs records are lost if and only if a rotation's flush broke before the buffer was empty; they are the last records taken, as many as that flush left, and the trace has failed |
| Trace.FirstRecordIsLost | src/trace.rs:114-133 | a concrete run: the first of two records is in no file |
| Text.WordDigits | src/trace.rs:106-108 | a 64-bit number prints in at most 20 digits |
| Text.DecimalReads | src/trace.rs:96-108 | a printed number reads back, up to the first character that is no digit |
| Text.HexReads | src/trace.rs:97-97 | k printed hexadecimal digits read back as the number's last k |
| Text.Pad2Reads | src/logger.rs:168-171 | a number padded to two digits reads back |
| Logger.Tech2Logger.constructor | src/logger.rs:73-86 | an empty logger |
| Logger.Tech2Logger.Log | src/logger.rs:88-115 | the rings are the last 512 entries and the last 128 CANDI entries of the whole history, with saturating counts |
| Logger.Tech2Logger.Tally | src/logger.rs:91-96 | a level counts in its own counter only |
| Logger.Tech2Logger.GetConsoleLines | src/logger.rs:149-151 | the console view of the ring |
| Logger.Tech2Logger.GetLinkConsoleLines | src/logger.rs:153-155 | the console view of the link ring |
| Logger.EntryTracks | src/logger.rs:88-115 | pushing and popping keeps both rings suffixes of the history |
| Logger.ConsoleLines | src/logger.rs:157-207 | the view is exactly the last lines of all wrapped entries, for every width and height, zero included |
| Logger.WrapText | src/logger.rs:179-192 | the wrapping loop ends with the wrapped lines |
| Logger.PushLines | src/logger.rs:194-199 | lines pushed backwards until the view is full |
| Logger.WrapJoins | src/logger.rs:179-192 | the lines of a message join back to it, none empty, none too long |
| Logger.WrapBreaksAtSpaces | src/logger.rs:186-190 | a line that is continued ends with the last space that fits, or fills the width without one |
| Logger.RenderReads | src/logger.rs:167-173 | a message reads back: seconds, two digits of hundredths, subsystem and text |
| Logger.LinesArePainted | src/logger.rs:174-190 | every line of an entry has its level's color |
| Logger.ViewFits | src/logger.rs:157-207 | the view has at most the asked number of lines, each within the width |
| ReceiveStaging.Staging.constructor | src/can_adapter.rs:11-14 | empty queues |
| ReceiveStaging.Staging.Push | src/can_adapter.rs:26-36 | a frame is staged last on its bus iff well formed, mapped and within the shared 4096; a refusal changes nothing |
| ReceiveStaging.Staging.Drain | src/can_adapter.rs:39-54 | frames move in order from the front of each bus; `Ok(n)` means n buses are still staged and each of them was refused, so no refusal blocks another bus; an error keeps the frame it was about |
| ReceiveStaging.Staging.DrainBus | src/can_adapter.rs:45-51 | one bus empties, or stops at the frame refused or failed, which stays |
| ReceiveStaging.FramesAreConserved | src/can_adapter.rs:26-54 | on each bus pushed = delivered ++ staged in order, and the total never exceeds 4096 |
| ReceiveStaging.NothingDeferredMeansEmpty | src/can_adapter.rs:17-22 | no bus deferred iff nothing staged |
| RomModules.FindTargets | src/load_binary.rs:111-127 | the scan finds exactly the blank modules |
| RomModules.ReadTarget | src/load_binary.rs:114-125 | one position is a blank module or not |
| RomModules.AllZero | src/load_binary.rs:120-120 | a body is blank iff every byte is zero |
| RomModules.FindSources | src/load_binary.rs:128-145 | the scan finds exactly the modules whose body has the header's checksum |
| RomModules.ReadSource | src/load_binary.rs:131-143 | one position is a verified module or not |
| RomModules.TargetsAre | src/load_binary.rs:111-127 | listed modules are blank modules, in ascending order at even distances |
| RomModules.MatchIsListed | src/load_binary.rs:148-148 | a match has the wanted checksum and length, and none is missed |
| RomModules.MatchIsFirst | src/load_binary.rs:128-148 | the match is the first even position of the download image with a verified module of that checksum and length |
| RomModules.TargetInBytes | src/load_binary.rs:113-126 | a blank module is exactly these header bytes, a length of at least 32 that fits and zeros behind the header |
| RomModules.SourceInBytes | src/load_binary.rs:130-143 | a verified module is exactly these header bytes, an even length over 32 that fits and the word sum of its body mod 2^32 in its header |
| RomModules.RestorationInBytes | src/load_binary.rs:110-158 | a blank module at an even address from 0x8018 on is restored iff the first verified module with its checksum and length has its 32-byte header, and nothing else is |
| RomModules.NearTargetsClash | src/load_binary.rs:113-126 | blank modules 12 bytes apart or less contradict the header constants, but for one odd length |
| RomModules.BodiesDisjoint | src/load_binary.rs:111-127 | the bodies of two blank modules of even length never overlap |
| RomModules.CopyStep | src/load_binary.rs:151-155 | a copy keeps every earlier restoration and decision |
| RomModules.SkipStep | src/load_binary.rs:148-153 | a module without a usable source is left alone |
| RomModules.CopyModule | src/load_binary.rs:154-154 | the in-place copy |
| RomModules.RestoreRomModules | src/load_binary.rs:110-158 | only bytes behind the 32-byte headers of reported modules change; every reported module was blank, now equals its verified source and lies apart from the others; which modules are reported is decided in the bytes of both images, as `RestorationInBytes` states |
| RomModules.RestoredModuleVerifies | src/load_binary.rs:99-158 | every reported module was blank, and in the final flash its own header vouches for its body, both in bytes |
| RomModules.ChecksumIsWordSum | src/load_binary.rs:101-105 | the wrapping checksum is the plain word sum mod 2^32 |
| RateLimits.Limits.constructor | service/support_reports_api.py:239-243 | nothing accepted yet |
| RateLimits.Limits.Prune | service/support_reports_api.py:247-249 | pruning forgets nothing recent and leaves at most one client per recent acceptance |
| RateLimits.Limits.Accept | service/support_reports_api.py:244-256 | a submission is accepted iff a full rescan of the history would allow it; the table has at most len(total) + 1 clients after every call |
| RateLimits.Limits.Admit | service/support_reports_api.py:255-256 | an admitted submission goes behind the recent ones of its client and of all |
| RateLimits.Pruned | service/support_reports_api.py:247-252 | dropping from the front keeps exactly the entries in the window |
| RateLimits.EveryWindowIsLimited | service/support_reports_api.py:244-256 | no closed window of 3600 seconds, wherever it starts, holds more than 100 acceptances or 10 from one address |
| RateLimits.AcceptancesAreSpread | service/support_reports_api.py:244-256 | of any 101 acceptances in a row, and of any 11 of one address, the last came more than 3600 seconds after the first |
| RateLimits.RecentIsFew | service/support_reports_api.py:247-256 | there are at most as many recent clients as recent acceptances |
| RateLimits.TableBound | service/support_reports_api.py:249-249 | a table of recent clients is no larger than the recent acceptances |
| RateLimits.RejectionsExpire | service/support_reports_api.py:244-256 | once the window has passed since the last acceptance everyone is accepted |

## Left out

- The m68k CPU core and the firmware: a guest instruction is an arbitrary step, and the firmware signatures of the deferred start are parameters.
- DemandInit.FrameReads: frames are written to plain memory; a stack in ROM, which the program accepts, would send EPROM commands, and here ROM just takes no store.
- Checkpoint restores of the keypad counters and of the pending start: a restore keeps the host's counters and brings saved state back, so the keypad and no-retrigger theorems are about runs without one.
- DemandInit.EntryWaits: the guest may still reach the entry from another stack while a call is outstanding, which the program does not prevent.
- WideBus.Tech2Bus.WriteByte: other bus devices are one device that may answer from the whole access history; their own behaviour, trace side effects and the per-sector program counters are not modelled.
- WideBus.Tech2Bus.constructor: edits the research modes make to the image at construction are part of the given image.
- The research menu UI behind a key press, keyboard polling and drawing.
- SsaFlash.ProgrammedCountsAccepted: the counters are unbounded, the program's are 64-bit.
- BcmPolicy.Policy.Before: electrical routing is a boolean parameter; loading authority from a file and its expiry are not modelled.
- Harness.Harness.ObserveVerified: screen text is reduced to what the text predicates find in it, except where the text itself is compared.
- IbusLog.ParseLog: text parsing of a line, the size limit and the required bridge lines are inputs; a name is compared in its UTF-8 bytes.
- The T8 transcript parser (src/t8_dtc.rs:89-166) is a second, shorter machine over the same report.
- Trace.Trace.Put: the torn tail of a record that a failed write may leave behind the last whole one, and the console summary, are not modelled; the writer's buffer size is a parameter.
- Trace.Trace.Event: kind and detail come already quoted, and a character is one byte; the open call has succeeded.
- Logger.Tech2Logger.Log: the log file, the terminal output and the level tags; a character is a code point.
- RateLimits.Limits.Accept: the clock is a real number, and calls come with nondecreasing readings. The clock is read before the lock is taken, so what guarantees this is the one caller (service/support_reports_api.py:285-292): an `async` handler of a single event loop that calls without awaiting. The rest of the report service is long lists of single-branch checks.
- Adapter wire protocols, J2534, option and configuration parsing, the MCP bridge, GUI and build scripts: plumbing.
