# Verified model of the Tensor-seL4 trace pipeline and the protocols around it

Tensor-seL4 runs a guest under a Microkit VMM and records what the guest does. This project models the parts of it
whose promises range over every interleaving, every run or every input, and proves those promises in Dafny.

| module | what it models |
|---|---|
| `TraceTypes` | machine integers, trace constants, the trace record |
| `TracePipeline` | `trace_emit` on any number of producers, and the tracer that drains the ring into the archive, one atomic operation at a time; storing and copying a record have a begin and an end, so that a torn record can be expressed |
| `TraceProgress`, `TraceGroups` | what the tracer and the lock holder need to get on, in every schedule; which records of one producer get consecutive numbers |
| `TraceCodec`, `TraceLayout`, `Decimal`, `TraceDump` | packing records and headers, where every byte of them lies, hex, decimal numerals, and the lines of a dump |
| `TraceDecode`, `TraceErrors`, `TraceRoundTrip` | the host decoder, what it makes of any log, damaged or not, and the way of a record from the ring through a noisy serial log to the decoder |
| `GuestLifecycle`, `GuestTrace`, `VmmProjection` | starting, stopping and faulting guests, the SMC policy, and the grammar of the records that this emits, as they are emitted and as the decoder reads them |
| `GuestLaws` | the same operations in numbers: which calls are emulated, forwarded or refused, what their records hold, when a guest goes on |
| `CommandRing`, `RingIndex` | the command ring between `uartrx` and the VMM with its wrapping counters, and what wrapping does to each ring |
| `GuestCommands` | the commands of the ring as the events that start and stop guests |
| `CommandLine` | the scanners and parsers of `guest-start`, against a grammar of words |
| `GuestConsole` | the line buffer of the emulated UART, against the lines the decoder rebuilds from the trace |
| `ConsoleRoundTrip` | the guest's console from the UART through ring, dump and decoder to the lines the host rebuilds |
| `Mirror` | the tracer's lossy copy of the console for the framebuffer |
| `LineBuffer`, `TypedText`, `TextPieces`, `Font`, `Fbcon` | an unbounded terminal and what a typed stream looks like on it; cutting text into pieces; glyph packing; the framebuffer console with its grid, its dirty rows and its pixels |
| `Panel` | the mirror and the framebuffer console together |
| `FreezeWatch` | the latched stall detector, over infinite sequences of polls |
| `Bits`, `Memcpy` | bitwise operations; the loader's word-wise `memcpy` |

Protocols are step systems: a run is any list of steps, a step that is not enabled changes nothing, and a theorem about
"every run" quantifies over all lists. Code that updates fields or buffers is a class or a method with loops, tied by
its contract to a function; the theorems are about those functions. Where the source prints or signals, the text or
the signal is part of the state.

Readings and assumptions:

- Atomic operations are read as sequentially consistent.
- Fewer than 2^64 trace records and console bytes are ever produced. `RingIndex.TraceSlotExact` and
  `RingIndex.ConsoleSlotExact` show that this is needed: the capacities 1023 and 16368 do not divide 2^64. The order,
  wholeness and execution of commands need no such assumption, however often head, tail and ids wrap; what an answer
  to the sender means does depend on the ids (below).
- A fault arrives only from the vCPU that is on, and libvmm's PSCI powers no other vCPU.
- The counter that `freezewatch` reads is positive and never runs backwards.
- At least one row and one column of text fit on the panel, which `read_geometry` does not check.

Where the documentation and the code differ, the model follows the code:

- `docs/trace-format.md` describes format version 3; the code is at version 9, with the same layout.
- `docs/trace-format.md:77` says that the records of one SMC have consecutive sequence numbers. That fails when
  `uartrx` publishes a record in between (`TraceGroups.GroupCanBeSplit`), and only then
  (`TraceGroups.ConsecutiveExactly`, `VmmProjection.SmcConsecutiveExactly`). It holds when everybody else is outside
  `trace_emit` meanwhile (`VmmProjection.SmcUndisturbed`), and of the VMM's own records in any case
  (`VmmProjection.ProjectionIsRuns`).

Two laws hold only on a condition:

- A `memcpy` whose destination starts inside its source does not copy faithfully (`Memcpy.OverlapAboveFails`), and
  `Memcpy.FaithfulExactly` says exactly when it does.
- Ids are 64-bit numbers, and `wait_for_vmm` compares them. After 2^64 lines it can report a command as finished that
  has not run (`CommandRing.WrappedLineFails`). `CommandRing.EveryAnswerExactly` gives the exact condition, on numbers
  that the sender can read when it enqueues; `CommandRing.EveryAnswerIsTrue` is the case of fewer than 2^64 lines.

## Model

| member | source | states |
|---|---|---|
| TracePipeline.StepKeepsInv | vmm/trace_producer.c:23-57 | every step of every thread keeps the invariant: one lock holder, whole records in the window, gapless numbering, archive a prefix, calls conserved, no lost wake-up |
| TracePipeline.RunKeepsInv | vmm/trace_producer.c:23-57 | so does every run of fewer than 2^64 records |
| TracePipeline.ReaderUndisturbed | vmm/trace_producer.c:53-54 | no operation of a producer touches the slot that the tracer is copying |
| TracePipeline.EveryRunAccounted | docs/trace-format.md:13 | in every interleaving the archive, the count of records that did not fit and the ring window are together the publication order; record i has number i, none is torn, times never decrease |
| TracePipeline.EveryRunFillsArchive | tracer/tracer.c:177-186 | in every run a record is left out of the archive only when it holds 131071, and the ring never holds more than 1023 |
| TracePipeline.EveryRunKeepsCalls | docs/trace-format.md:121 | nothing is dropped or reordered: a producer's published records are its calls in call order, except at most one in flight |
| TracePipeline.EveryRunReadsWhole | tracer/tracer.c:194-198 | while the tracer copies a record out, a producer that is storing stores into another slot |
| TracePipeline.EveryRunWakes | tracer/tracer.c:249-260 | a blocked tracer with a non-empty ring has a notification pending, or a producer stands between its head store and its notify |
| TraceProgress.TracerDrains | tracer/tracer.c:188-199 | the tracer alone, without the lock and without waiting, drains a record within nine operations |
| TraceProgress.HolderReleases | vmm/trace_producer.c:23-29 | from every state of the invariant some nineteen operations of the lock holder and the tracer publish its record and free the lock, full ring or not |
| TraceProgress.OthersKeep | vmm/trace_producer.c:31-57 | while one producer holds the lock, no step of anybody else publishes, moves the holder or takes away room |
| TraceProgress.TracerCloser | tracer/tracer.c:188-199 | with records announced, every enabled operation of the tracer drains a record or brings it closer to draining one |
| TraceProgress.ScheduleFrees | vmm/trace_producer.c:23-57 | the for-all form, from every state of the invariant |
| TraceProgress.EveryRunReleases | vmm/trace_producer.c:23-57 | no deadlock: after every run, in every schedule, whatever the other producers do in it, the holder has published and freed the lock once it has moved three times, the tracer nine times where it could, and the holder eight times more |
| TraceGroups.GroupCanBeSplit | docs/trace-format.md:77 | for any three bodies there is a run in which another producer's record gets the number between two records of the first |
| TraceGroups.ConsecutiveExactly | docs/trace-format.md:77 | in every run, between two publications of one producer, its records, however many, have consecutive numbers if and only if no step of the schedule publishes for another producer |
| TraceGroups.UndisturbedGroup | docs/trace-format.md:77 | if every other producer is outside `trace_emit` when one begins and none calls it until that one has finished, its records are the next ones of the trace, under the next numbers |
| TraceGroups.EveryStampIsOfItsTime | docs/trace-format.md:123 | in every run a record is stamped not before its call and not after its publication |
| RingIndex.TraceSlotExact | include/trace/trace.h:15 | the trace ring's wrapped index is the right slot exactly when the number of wraps is a multiple of 1023 |
| RingIndex.ConsoleSlotExact | include/trace/console_ring.h:7-8 | the same for the console rings of 16368 bytes |
| RingIndex.CommandSlotExact | include/trace/cmd_ring.h:8 | the command ring's wrapped index is always the right slot |
| TraceCodec.LERoundTrip | tools/trace-decode.py:10-11 | little-endian bytes of a number that fits read back as that number |
| TraceCodec.SplitJoin | tools/trace-decode.py:64 | cutting joined fields at their widths gives the fields back |
| TraceCodec.RecordRoundTrip | include/trace/trace.h:55-71 | every record is 64 bytes, and unpacking them gives every field back |
| TraceCodec.FieldRoundTrip | tools/trace-decode.py:56-57 | stripping the NULs of a padded field gives the text, cut to the field |
| TraceCodec.HeaderRoundTrip | include/trace/trace.h:73-87 | the 336 header bytes unpack to version 9, the counter frequency and the seven stamps, cut to their fields |
| TraceCodec.HexRoundTrip | tracer/tracer.c:58-74 | lower-case hex of any bytes is hex text that parses back to them |
| TraceLayout.LEByte | tools/trace-decode.py:10-11 | byte k of a number is its digit in base 256 |
| TraceLayout.RecordLayout | include/trace/trace.h:55-71 | every field of a record lies at its absolute offset in the 64 bytes, and the reserved bytes are zero |
| TraceLayout.HeaderLayout | include/trace/trace.h:73-87 | magic, version 9, record size 64, frequency and the seven stamps lie at their absolute offsets in the 336 bytes |
| TraceLayout.RecordReads | tools/trace-decode.py:76-82 | the decoder reads every field from its absolute offset |
| TraceLayout.HeaderReads | tools/trace-decode.py:60-73 | a header is accepted exactly when it has 336 bytes, the magic, a version up to 9, record size 64 and seven ASCII stamps; then these are read from their offsets |
| TraceLayout.HexDigits | tracer/tracer.c:58-74 | byte k is printed as its two lower-case digits, high half first, at places 2k and 2k + 1 |
| TraceLayout.HexReads | tools/trace-decode.py:60-61 | text of hex digits is read exactly when their number is even, as the bytes it spells |
| TraceCodec.StripNulsExactly | tools/trace-decode.py:56-57 | stripping takes away the zero bytes at the end and only those |
| Decimal.ValueOfDigits | tracer/tracer.c:201-212 | the numeral of every number denotes that number |
| Decimal.PutDecimal | uartrx/uartrx.c:86-97 | the backwards digit loop stays inside its 21 bytes and produces the numeral |
| Decimal.ParseDecimal | uartrx/uartrx.c:374-389 | accepts exactly the non-empty digit strings and returns their value modulo 2^64 |
| Decimal.PrintedNumberParses | uartrx/uartrx.c:374-389 | the numeral of every 64-bit number is accepted and read back as that number |
| Decimal.DigitsAre | uartrx/uartrx.c:91-95 | the numeral grows by one digit of code 48 + d for each factor of ten |
| TraceDump.CopyField | tracer/tracer.c:46-56 | the field of the structure holds the text cut at its width and padded with NULs, and nothing else of the structure changes |
| TraceDump.EmitLine | tracer/tracer.c:58-74 | the line is the prefix, the hex of the data and a newline, inside the line buffer |
| TraceDump.SendHeader | tracer/tracer.c:76-92 | fills the header structure field by field and prints the header line of the stamp |
| TraceDump.DumpArchive | tracer/tracer.c:214-232 | prints every record in order, a header before records 0, 64, 128, ..., and then the summary |
| TraceDump.Summarise | tracer/tracer.c:227-231 | prints both counts in decimal |
| TraceDump.SummaryReads | tracer/tracer.c:227-231 | both counts can be read back from the summary, each at its place |
| TraceDump.DumpPositions | tracer/tracer.c:214-226 | record i of a dump is line i + i / 64 + 1, every 64th right behind a header, and n records make n + (n + 63) / 64 lines |
| TraceDecode.FindTag | tools/trace-decode.py:46-47 | finds the first place where a prefix stands, or there is none |
| TraceDecode.HexRun | tools/trace-decode.py:46-47 | takes the longest run of lower-case hex digits that starts at a place of the line |
| TraceDecode.Decode | tools/trace-decode.py:157-231 | the decoding loop, with its pending records and its error count, computes the decoder function on every log; `TraceErrors.EveryLogCounted` says what that is |
| TraceDecode.Flush | tools/trace-decode.py:214-216 | the pending records are decoded as if the header had come before them |
| TraceDecode.FeedAllIsCanonical | tools/trace-decode.py:193-226 | when the header copies agree, the decoder's state is that of reading the first header and then the record lines |
| TraceDecode.DisagreementIsAnError | tools/trace-decode.py:197-208 | a bad or different header copy leaves an error that nothing takes back |
| TraceDecode.TakeRecordsExact | tools/trace-decode.py:171-187 | record lines leave no error exactly when each has the version's digit, parses, has a defined kind and carries its own position as number |
| TraceDecode.DecoderIsExact | docs/trace-format.md:122 | zero errors if and only if there is a header, all copies are valid and identical and the record lines are good and numbered 0, 1, 2, ...; then every record line is decoded, in order |
| TraceDecode.HeaderPositionIsIrrelevant | tools/trace-decode.py:205-217 | the same records with agreeing headers anywhere between them decode alike |
| TraceErrors.EveryLogCounted | tools/trace-decode.py:157-231 | on any log: with a good header every record line that carries its digit and parses is decoded, in order, gaps or not; the errors are the bad and differing headers, the unreadable record lines, the undefined kinds and the decoded records whose number is not one more than the one before; without a header nothing is decoded |
| TraceErrors.RecordsCounted | tools/trace-decode.py:171-187 | the same for record lines, after any number of earlier errors |
| TraceErrors.KindTable | tools/trace-decode.py:19-30 | which kinds are defined in which version, as numbers |
| TraceErrors.ClassifyExactly | tools/trace-decode.py:193-222 | a line with a header tag is a header line; otherwise one with a record tag is a record line |
| TraceErrors.RecordTextExactly | tools/trace-decode.py:76-82 | exactly texts of 128 digits are records |
| TraceErrors.HeaderTextExactly | tools/trace-decode.py:60-73 | exactly the texts that spell acceptable header bytes are headers |
| TraceRoundTrip.OnlyTag | tools/trace-decode.py:46-47 | behind text without a prefix, the only prefix in a dump line is its own |
| TraceRoundTrip.SearchFinds | tools/trace-decode.py:46-47 | the decoder finds exactly the digit and the hex that were printed |
| TraceRoundTrip.NoisyDumpSeen | docs/trace-format.md:25 | however a dump is mixed with other output, the decoder sees its headers and records in order |
| TraceRoundTrip.PrintedDumpIsNoisy | tracer/tracer.c:214-232 | what a dump prints, with its summary, is such a log |
| TraceRoundTrip.DumpRoundTrip | tools/trace-decode.py:157-231 | one dump of a non-empty archive in a noisy log decodes to exactly the archive and the stamp with zero errors |
| TraceRoundTrip.EveryDumpDecodesToAPrefix | docs/trace-format.md:13 | whenever the tracer dumps, in any interleaving, the decoded records are a gapless prefix of the publication order |
| GuestLifecycle.Vmm.TraceEnter | vmm/smc_trace.c:31-35 | appends the four records of an SMC entry |
| GuestLifecycle.Vmm.TraceExit | vmm/smc_trace.c:37-41 | appends the four records of an SMC exit |
| GuestLifecycle.Vmm.BootFresh | vmm/guest_control.c:54-98 | the new state and trace are those of the start function; it succeeds exactly when the guest then runs |
| GuestLifecycle.Vmm.ControlStart | vmm/guest_control.c:100-109 | a start while running changes nothing; otherwise it is a fresh boot |
| GuestLifecycle.Vmm.ControlStop | vmm/guest_control.c:111-123 | a stop while not running changes nothing; otherwise the vCPU goes off and STOPPED is traced |
| GuestLifecycle.Vmm.FaultStopped | vmm/guest_control.c:182-199 | the faulting vCPU goes off and STOPPED_BY_FAULT of this run is traced |
| GuestLifecycle.Vmm.SmcPolicyHandle | vmm/smc_policy.c:68-121 | emits exactly the records of the SMC's outcome, which `GuestLaws.SmcExactly` describes, the exit of a forwarded call before the attempt to resume |
| GuestLifecycle.Vmm.GuestFaultHandle | vmm/vmm.c:168-180 | emits what the handlers traced and, for a memory fault nobody handled, an UNHANDLED record |
| GuestLifecycle.Vmm.HandleFault | vmm/vmm.c:182-203 | the new state is that of the fault function; the guest is resumed exactly when it still runs |
| GuestTrace.PolicyOfVersion | vmm/smc_policy.c:27-36 | exactly SMCCC_VERSION is forwarded |
| GuestLaws.PolicyExactly | vmm/smc_policy.c:27-36 | emulated exactly when bits 24 to 29 of the id are 4 and the low 16 bits are below 0x1f, forwarded exactly when the id is 0x80000000, otherwise refused |
| GuestLaws.PsciRange | vmm/smc_policy.c:29-31 | the ids 0x84000000 to 0x8400001e and 0xc4000000 to 0xc400001e are emulated |
| GuestLaws.SmcExactly | vmm/smc_policy.c:68-121 | the guest goes on exactly when it asked for PSCI, that was handled and its registers were read again, or it asked for SMCCC_VERSION and could be resumed; the exit group holds the registers read again, or the firmware's answer |
| GuestLaws.SmcRefusedExactly | vmm/smc_trace.c:43-46 | otherwise, if its registers could be read, the last record is an UNHANDLED exit of the call without values |
| GuestLaws.FaultExactly | vmm/vmm.c:182-203 | after a fault the guest runs on unchanged exactly when it was handled; else it is stopped, its vCPU is off, and the last record gives pc, run and vCPU |
| GuestLaws.RefusedAccessRecorded | vmm/vmm.c:176-178 | an access nobody handled leaves its pc, address, width and direction in the trace, and then the stop |
| GuestLaws.StartExactly | vmm/guest_control.c:71-98 | what starting changes, in each of its cases, with the STARTED record in full |
| GuestLaws.StopExactly | vmm/guest_control.c:111-123 | what stopping changes, with the STOPPED record in full |
| GuestLaws.TypedVcpuRuns | vmm/guest_control.c:74-80 | the guest that starts runs on the vCPU that was typed |
| GuestLaws.EveryRunOnOwnVcpu | vmm/guest_control.c:76-80 | after every sequence of events a running guest is on a vCPU that the VMM has |
| GuestTrace.CallGood | vmm/smc_trace.c:23-41 | a handled SMC emits one whole entry group and one whole exit group of the same call |
| GuestTrace.GroupHoldsRegisters | docs/trace-format.md:79-83 | every register x0 to x7 of a call can be read back from the record of its group that names it, and every record names the call |
| GuestTrace.SmcCauseGood | vmm/smc_policy.c:79-121 | an unhandled SMC emits an entry group, possibly a forwarded exit group, and one refusal of the same call |
| GuestTrace.StepGood | vmm/vmm.c:182-203 | every command and fault extends the parse of the trace |
| GuestTrace.EveryTraceIsRuns | vmm/guest_control.c:71-123 | after every sequence of commands and faults the VMM's records are runs 1, 2, 3, ...: STARTED(n), whole accesses and whole SMC groups, at most one STOPPED(n), after its cause; only the last can be open, exactly while the guest runs |
| GuestTrace.AddedGood | vmm/smc_trace.c:43-46 | what one event adds refuses nothing without stopping the guest right after it |
| GuestTrace.RunNumber | vmm/guest_control.c:85-90 | the run number goes up by one with each STARTED record and never otherwise |
| GuestTrace.EveryRunConsistent | vmm/guest_control.c:54-123 | after every sequence of events the guest runs exactly when its vCPU is on, no other vCPU is on, the run number counts the STARTED records, and every UNHANDLED record is immediately followed by the fault stop of its own run on the same vCPU |
| GuestTrace.RefusalsChangeNothing | vmm/guest_control.c:100-123 | a refused command changes nothing; a start that is not refused runs or fails, and traces exactly when it takes a run number |
| VmmProjection.ProjectionIsRuns | docs/trace-format.md:77 | in every interleaving the VMM's published records and the one in flight are the grammar's text, cut off where the VMM is |
| VmmProjection.DecodedProjectionIsRuns | docs/trace-format.md:121-123 | what any dump, decoded, says about producer 0 is a prefix of runs 1, 2, 3, ... of the grammar, without error |
| VmmProjection.SmcConsecutiveExactly | docs/trace-format.md:77 | the five, eight or nine records of one SMC have consecutive numbers if and only if nobody else publishes between the first and the last |
| VmmProjection.SmcUndisturbed | docs/trace-format.md:77 | if everybody else stays outside `trace_emit` meanwhile, the records of one SMC are the next ones of the trace |
| CommandRing.WrapDifference | uartrx/uartrx.c:244 | so does the difference of head and tail |
| CommandRing.StepKeepsInv | uartrx/uartrx.c:227-257 | every step of the sender and of the VMM keeps the invariant of the ring, with wrapping head, tail and ids |
| CommandRing.EveryRunExecutesInOrder | vmm/vmm.c:89-101 | in every run, with any timeouts, drops and wraps of head, tail and ids, the executed commands are the first ones enqueued, each once and whole, in the order of their lines; every command taken up is enqueued, dropped or still in hand |
| CommandRing.EveryDropIsNeeded | uartrx/uartrx.c:244-247 | in every run a command is dropped only when all 64 cells hold commands that have not completed |
| CommandRing.EveryRoomIsUsed | uartrx/uartrx.c:239-250 | after every run, when a cell is free as the sender looks, every schedule with four of its operations enqueues its command behind the others |
| CommandRing.EveryRunKeepsEntries | uartrx/uartrx.c:239-250 | an entry that has not completed is still whole in its cell |
| CommandRing.EveryScheduleCompletes | vmm/vmm.c:89-101 | whatever the sender does meanwhile, timeouts included, every schedule with enough operations of the VMM completes a given command of the ring |
| CommandRing.EveryQueuedCommandRuns | vmm/vmm.c:89-101 | after every run, unless the sender is just about to notify, every schedule with 257 operations of the VMM runs and completes every command in the ring |
| CommandRing.EveryWaitIsAnswered | uartrx/uartrx.c:227-237 | a wait that does not time out is then answered at the sender's next look |
| CommandRing.EveryAnswerExactly | uartrx/uartrx.c:227-257 | when a command is about to be enqueued, its answer can never come before it has run if and only if its 64-bit id is above the completed id and above every id in the ring; with an empty ring, above the completed id |
| CommandRing.NotAheadFails | uartrx/uartrx.c:227-237 | otherwise there is a continuation in which the sender is told that the command has finished before it has run |
| CommandRing.WrappedLineFails | uartrx/uartrx.c:490 | line 2^64 has id 0, and its sender is answered while the VMM has not moved |
| CommandRing.EveryAnswerIsTrue | uartrx/uartrx.c:227-237 | in every run of fewer than 2^64 lines every answer is true and commands run in the order of their ids |
| CommandRing.EveryRunWakesVmm | uartrx/uartrx.c:249-250 | a blocked VMM with commands queued has a notification coming |
| GuestCommands.EveryRunIsCommanded | vmm/vmm.c:68-101 | in every run of the ring, however faults come between its commands, the VMM records runs 1, 2, 3, ..., at most as many as `guest-start` lines among the executed ones |
| CommandLine.WordIs | uartrx/uartrx.c:132-142 | says whether the slice is exactly the word |
| CommandLine.TokenLen | uartrx/uartrx.c:144-152 | the length of the first word |
| CommandLine.SkipSpaces | uartrx/uartrx.c:364-372 | the number of spaces at the front |
| CommandLine.TrimSpaces | uartrx/uartrx.c:436-442 | cuts off all trailing spaces and keeps the words |
| CommandLine.FindWord | uartrx/uartrx.c:421-434 | ends on every string, at the first word equal to the given one or else at the end |
| CommandLine.WordsOfParts | uartrx/uartrx.c:421-434 | the words of a string are those of its parts when no word is cut |
| CommandLine.Unambiguous | uartrx/uartrx.c:456-466 | a list of words denotes at most one request |
| CommandLine.Defaults | uartrx/uartrx.c:402-466 | no words mean the default guest, no number mode 0 and no `vcpu` vCPU 0; `linux` and `harness` come first and mean themselves |
| CommandLine.SpellingDenotes | uartrx/uartrx.c:456-466 | every kind, mode and vCPU can be asked for |
| CommandLine.SelectRoundTrip | include/trace/cmd_ring.h:10-17 | the accessors recover kind, mode and vCPU from the selection word |
| CommandLine.SelectNumbers | include/trace/cmd_ring.h:10-17 | the selection words, as numbers |
| CommandLine.ParseHarnessMode | uartrx/uartrx.c:391-400 | nothing is mode 0; otherwise a decimal that is at most 255 modulo 2^64 |
| CommandLine.ParseGuestKind | uartrx/uartrx.c:402-419 | accepts exactly nothing, `linux`, `harness` or `harness N`, without a leading space |
| CommandLine.ParseVcpu | uartrx/uartrx.c:444-454 | accepts exactly nothing or `vcpu K`, without a trailing space |
| CommandLine.ParseGuestSelect | uartrx/uartrx.c:456-466 | on every string: accepts exactly the words of a kind followed by those of a vCPU, with spaces at the ends only where they do no harm, and returns the selection word of what they denote |
| CommandLine.TrimmedEndsOk | uartrx/uartrx.c:477-488 | on the trimmed strings that `run_line` passes, the ends are no condition |
| GuestConsole.HostConsole.Feed | tools/trace-decode.py:139-154 | keeps the unfinished line and returns the line that a record finishes |
| GuestConsole.LinesAreStream | tools/trace-decode.py:144-154 | the host's lines, put together with line feeds, are exactly the bytes of the handled writes to the transmit register, and are broken nowhere else |
| GuestConsole.ChunksHoldTheLine | vmm/exynos_uart_emul.c:27-40 | the printed pieces of a line are the line, in order, each but the last 255 characters long |
| GuestConsole.StepOfByte | vmm/exynos_uart_emul.c:27-40 | what one byte does to the printed lines and the buffer, given what it does to the decoder's lines |
| GuestConsole.VisibleIsPrefix | vmm/exynos_uart_emul.c:20-25 | what is printed of a line is its text up to the first NUL |
| GuestConsole.RegistersRead | vmm/exynos_uart_emul.c:42-65 | the values that the guest reads from the three registers |
| GuestConsole.GuestUart.Flush | vmm/exynos_uart_emul.c:20-25 | prints the buffered line up to its first NUL and empties the buffer |
| GuestConsole.GuestUart.Putc | vmm/exynos_uart_emul.c:27-40 | printed lines and buffer stay those that follow from the decoder's lines; the index stays inside the buffer |
| GuestConsole.GuestUart.UartFault | vmm/exynos_uart_emul.c:42-91 | after every access, what was printed is the decoder's lines without CRs in pieces of 255; handled accesses are traced, others change nothing |
| GuestConsole.LinePrintedExactly | vmm/exynos_uart_emul.c:20-40 | a line is printed as the decoder rebuilds it if and only if it has at most 255 characters and no CR and no NUL |
| GuestConsole.PlainLinesPrinted | vmm/exynos_uart_emul.c:20-40 | a console of such lines is printed exactly as the decoder rebuilds it |
| ConsoleRoundTrip.RebuiltConsoleIsPrinted | tools/trace-decode.py:189-191 | in every interleaving and for every dump, what the host rebuilds from the decoded records, without CRs and in pieces of 255, is a prefix of what the VMM printed, and all of it when the dump has all of the VMM's records |
| ConsoleRoundTrip.PlainRebuiltIsPrinted | vmm/exynos_uart_emul.c:20-40 | rebuilt lines that are short and hold no CR and no NUL are lines that the VMM printed, as they are |
| Mirror.BytesConserved | tracer/tracer.c:123-142 | every console byte is either shown or counted in a notice |
| Mirror.NoticeFits | tracer/tracer.c:128 | 64 bytes are always enough for a notice and the next byte |
| Mirror.NoticeReads | tracer/tracer.c:106-121 | the number of dropped bytes can be read back from the notice |
| Mirror.Ring.Store | tracer/tracer.c:99-104 | appends text without touching an undrained byte |
| Mirror.Ring.ReportDropped | tracer/tracer.c:106-121 | appends the notice with the exact number, and leaves room for one byte |
| Mirror.Ring.Putc | tracer/tracer.c:123-142 | the ring is never overrun, and replacing each notice by the run of bytes it counts gives the console stream up to the unreported tail |
| Mirror.Ring.NotifyReader | tracer/tracer.c:157-163 | afterwards every byte in the ring has been announced to the reader |
| Mirror.Ring.Drain | fbcon/fbcon.c:276-291 | the reader gets the text, in order |
| Font.Place | tools/bdf2c.py:47-60 | refuses exactly the glyphs that do not fit, and otherwise has ink exactly where the BDF bitmap, moved to its place, has ink |
| Font.PlacedOnBaseline | tools/bdf2c.py:47-60 | counted from the origin on the baseline, the cell has ink exactly where the glyph has |
| Font.FitsExactly | tools/bdf2c.py:50-53 | a glyph fits exactly when its box lies inside the box of the cell and it has one row of bits for each row |
| Fbcon.PixelAddresses | fbcon/fbcon.c:95-123 | in an accepted geometry pixels are aligned words inside the buffer that do not overlap |
| Fbcon.TextAreaInside | fbcon/fbcon.c:107-116 | the text ends before the right and the bottom margin, and no further column or row would fit |
| Fbcon.CellInside | fbcon/fbcon.c:132-138 | every cell lies inside the text area |
| Fbcon.DrawnBdf | fbcon/fbcon.c:132-147 | pixel (x, y) of a cell is 0xffffffff exactly where the BDF bitmap has ink at (x / scale - left, y / scale - top), and 0xff000000 elsewhere |
| Fbcon.GlyphIs | fbcon/fbcon.c:125-130 | characters 0x20 to 0x7e have their own glyphs in order, all others that of the space |
| Fbcon.Console.ScrollGrid | fbcon/fbcon.c:202-213 | every row moves up one and the last becomes blank |
| Fbcon.Console.NewLine | fbcon/fbcon.c:215-223 | keeps the grid the end of the line buffer; clean rows are kept |
| Fbcon.Console.PutPrintable | fbcon/fbcon.c:225-232 | the same for a character, with wrapping only when the next one comes |
| Fbcon.Console.Put | fbcon/fbcon.c:234-254 | after any byte the grid and the cursor are the last rows of the unbounded line buffer, which the rows of `TypedText` describe |
| TypedText.LinesTyped | fbcon/fbcon.c:225-254 | a stream of codes 0x20 to 0x7e and line feeds gives its lines, each wrapped at the width, with the cursor behind the last character |
| TypedText.ShortText | fbcon/fbcon.c:225-254 | a text that fits on a line is that line |
| TypedText.TextKept | fbcon/fbcon.c:225-254 | the lines put together are the stream without its line feeds, and none is wider than the terminal |
| TypedText.TextTyped | fbcon/fbcon.c:225-232 | a character replaces the one at the cursor, or begins a new line when the line is full, and changes nothing else |
| TypedText.ReturnTyped | fbcon/fbcon.c:240-242 | a carriage return goes to the first column and keeps the text |
| TypedText.ReturnOverwrites | fbcon/fbcon.c:225-242 | the next character replaces the first one of the line |
| TypedText.TabTyped | fbcon/fbcon.c:243-247 | a tab is four spaces |
| TypedText.NewLineTyped | fbcon/fbcon.c:215-223 | a line feed opens a line |
| TypedText.OtherTyped | fbcon/fbcon.c:248-252 | any other byte changes nothing |
| Fbcon.Console.DrawGlyph | fbcon/fbcon.c:132-147 | the cell shows the character, and no other pixel changes |
| Fbcon.Console.DrawRow | fbcon/fbcon.c:256-262 | the row is on the screen, and nothing outside its band changes |
| Fbcon.Console.Render | fbcon/fbcon.c:264-274 | if every clean row is on the screen, then afterwards every pixel is that of a full redraw, and no row is stale |
| Fbcon.Console.RowsMakeScreen | fbcon/fbcon.c:256-274 | when every row is drawn and the margins are blank, every pixel is that of a full redraw |
| Fbcon.Console.FreshKept | fbcon/fbcon.c:225-232 | typing keeps every clean row on the screen |
| Fbcon.Console.ClearScreen | fbcon/fbcon.c:186-200 | with a blank space glyph the cleared screen is a drawing of the blank grid |
| Fbcon.Console.BlankSpaceNeeded | fbcon/fbcon.c:186-200 | and only then |
| Fbcon.Console.Notified | fbcon/fbcon.c:276-316 | whatever was typed before, after each wake-up the grid is the end of the line buffer of the whole stream and the screen is a full redraw of it |
| Panel.Display.Print | tracer/tracer.c:123-148 | printing a byte extends the mirrored stream and leaves the screen a full redraw of what was typed |
| Panel.Display.Wake | fbcon/fbcon.c:276-316 | what the console reads from the mirror is what it types and draws |
| Panel.Display.CaughtUpShowsStream | tracer/tracer.c:94-142 | when the console has caught up, grid and screen are those of the mirror's text, whose notices stand for the missing bytes of the console stream; with nothing lost, those of the stream itself |
| Memcpy.CopyWidthAligned | patches/microkit/0008-loader-copy-regions-a-word-at-a-time.patch:41-52 | the width is the largest of 8, 4 and 1 modulo which the two addresses agree |
| Memcpy.WordIsBytes | patches/microkit/0008-loader-copy-regions-a-word-at-a-time.patch:64-76 | copying an aligned word is copying its bytes one by one, even when source and destination overlap |
| Memcpy.CopyBytes | patches/microkit/0008-loader-copy-regions-a-word-at-a-time.patch:54-62 | memory is left as copying bytes 0, 1, 2, ... one after the other leaves it |
| Memcpy.CopyWords64 | patches/microkit/0008-loader-copy-regions-a-word-at-a-time.patch:64-69 | equals the byte loop over the same range, with aligned accesses only |
| Memcpy.CopyWords32 | patches/microkit/0008-loader-copy-regions-a-word-at-a-time.patch:71-76 | the same for 4-byte words |
| Memcpy.Copy | patches/microkit/0008-loader-copy-regions-a-word-at-a-time.patch:78-105 | for all addresses and sizes, overlapping or not, memory is left as the byte loop leaves it, and every wide access is aligned on both sides |
| Memcpy.ByteCopyIsReplace | patches/microkit/0008-loader-copy-regions-a-word-at-a-time.patch:54-62 | when the destination does not start inside the source, the byte loop is a simultaneous copy |
| Memcpy.ByteCopyFrame | patches/microkit/0008-loader-copy-regions-a-word-at-a-time.patch:54-62 | nothing outside the destination is written |
| Memcpy.OverlapAboveFails | patches/microkit/0008-loader-copy-regions-a-word-at-a-time.patch:54-62 | for every destination that starts inside the source there is a memory that is not copied faithfully |
| Memcpy.FaithfulExactly | patches/microkit/0008-loader-copy-regions-a-word-at-a-time.patch:78-105 | every memory is copied faithfully if and only if the destination does not start inside the source |
| FreezeWatch.Stall.Stalled | freezewatch/freezewatch.c:87-97 | fires exactly when every poll of some window at least the limit long, ending now, found the line stuck |
| FreezeWatch.Watch.Poll | freezewatch/freezewatch.c:108-128 | reports exactly when a line is frozen and the console has been clear since every earlier report, and names a frozen line |
| FreezeWatch.WatchFor | freezewatch/freezewatch.c:108-128 | over the first n polls of any infinite sequence: every report names a frozen line, no freeze goes unreported, and some poll saw the console clear between any two reports |
| FreezeWatch.LimitSeconds | freezewatch/freezewatch.c:12-13 | the limits are three seconds for output and four for input |
| FreezeWatch.ClearBetweenReports | freezewatch/freezewatch.c:120-126 | between two of its reports some poll saw the output drained and the receiver empty |
| FreezeWatch.FreezeIsReported | freezewatch/freezewatch.c:120-126 | at a frozen poll there is one of its reports, now or since the console was last clear |
| FreezeWatch.ReportsDetermined | freezewatch/freezewatch.c:108-128 | these three properties determine at which polls there is a report |

## Left out

- libvmm, Microkit and seL4: `fault_handle`, `smc_handle`, register access and the image loader are parameters that may answer anything, within the assumptions above; `PSCI_MAX` is 0x1f, as docs/trace-format.md:115 says.
- Weak memory: acquire and release pairs are read as sequentially consistent.
- The tracer's work between two drains (consoles, dump request, mirror) is one step of `TracePipeline`; its effects are modelled in `TraceDump` and `Mirror`.
- Several dumps in one log: a second dump starts again at 0, which the decoder reports; the round trip is for one dump of a non-empty archive.
- The text that the decoder prints for each record, the `last_fault` summary and `status`: formatting only.
- The line editor and command table of `uartrx` (`rx_byte`, `lookup`, `run_line`): only the trimmed arguments of `guest-start` are parsed here.
- The 2 s timeout of `wait_for_vmm` and the fairness of `seL4_Yield`: the timeout may happen at any time, and progress is stated as a bounded number of steps of named threads.
- The framebuffer's memory: pixels are elements of a two-dimensional array, and `Fbcon.PixelAddresses` relates them to addresses; cache maintenance, `present` and the display registers are not modelled.
- The mirror's two loads of the tail inside one `mirror_putc` may find different tails in `Mirror.Ring.Putc`; in `Panel` whole calls of the tracer and of the framebuffer console alternate.
- Endless loops (`watch_forever`, `rx_poll_forever`): `FreezeWatch.WatchFor` makes any number of polls.
- CoreSight sampling, the guests, the other patches, and the host tools for images and serial ports: hardware effects, or formats without a reader in the repository.
