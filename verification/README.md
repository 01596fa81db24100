# Linecard protocol core: model and proofs

A Dafny model of the protocol core of an ESP32 avionics linecard: the wire protocol of its
control plane, its network log, its firmware loader, and the controller of its RS-485 relay
modules. Each module pairs a specification (functions on values) with the code in its own
form (classes and methods with the source's fields and loops), proved to do exactly what the
specification says; the properties are proved about the specification, for all inputs, all
runs and all interleavings.

| part | specification and properties | code |
|---|---|---|
| relay controller | Rs485, Rs485Safety, Rs485Intent, Rs485Inputs, Rs485Convergence, Rs485Stuck, Rs485Liveness, Rs485Bus | Rs485Task, over Rtu |
| Modbus RTU transactions and CRC | Rtu, ModbusCrc, CrcCode | methods in the same modules |
| discrete data plane | Discrete, DiscreteTiming | DiscreteGlue |
| framing | Framing | methods in the same module |
| dispatcher and channel tables | Comm, CommStatus, Channels | CommCode, ChannelCode |
| control connection and whole card | CommSession, CommWire, CommNumbers, CommFailure | CommCode.CommTask |
| network log | LogQueue | LogRing |
| firmware upload | FwUpdate, FwStatus, FwPack, Cbc, Fletcher32 | FwUpdater, Fletcher32 |
| capability descriptor | Capabilities | CapsBuild |

How the world enters: a bus transaction's bytes, the calls other tasks make between two lock
sections, the clock, the outcome of every esp_ota, AES and socket call are inputs, quantified
over everywhere. One lock section is one atomic step. A clock value is read once per handler.
AES is any pair of block functions of which one undoes the other; the library's CBC call is
`Cbc.Decrypt`.

Integers: `uint8_t`, `uint16_t` and `uint32_t` of the Ethernet side are subset types of `int`
with every wrap written out (module Bytes). The 16-, 32- and 64-bit words of the relay
controller and of the Modbus CRC are their bits, lowest first (module Words), where a shift
that C leaves undefined is not allowed.

How the parts meet: the dispatcher's discrete commands act on the same shared intent the
relay task reads. `Discrete.SetReachesOneCoil` follows a SET from its bytes to one coil,
`CommSession.OnlySetupEnables` says what can turn relays on at all, `CommSession.LostClientFailSafe`
what the loss of the control client does to the coils, and `Rs485Task.PassIsRun` and
`Rs485Task.FramesAreCoilWrites` that the worker's code, with arbitrary calls in its gaps, is a
run of the step system the safety theorems are about and puts exactly its coil writes on the bus.
`Rs485Bus` carries that to the coils of modules that read the frames as the Modbus standard says,
and `Rs485Intent.OnlyAskedOn` says that no coil is switched on unless somebody asked for it.

Found not to hold in general:

- Losing the control client is meant to leave everything disabled (main/comm_task.c:235), but
  a send that fails while a receive buffer is being parsed does not stop the parsing, and
  packets behind it can enable the card again with no client.
  `CommFailure.RearmedWithoutClient` is such a buffer; `CommFailure.FailedSendDisablesIff`
  says for every buffer, and in both builds, whether the promise holds.
- A coil that acknowledges every write and never moves is retried for ever and starves
  polling. `Rs485Stuck.SettlesIffNoStuckCoilDiffers` says exactly when repeated passes still
  settle, `Rs485Liveness.ReachedIffNoStuckCoil` the same of the real coils and with the polls.
- Answers on the control connection are not numbered one after the other: the frames for both
  transports share one counter, and a HID_SETUP that disables the joystick spends a number
  before its answer (`CommWire.HidDisableSkipsNumber`). `CommNumbers.AnswersConsecutiveIff`
  says for every buffer, in both builds and wherever sends fail, from the packets alone, when
  they are; `CommWire.RepliesOnTheWire` gives every answer's number.

Check it with `dafny verify dfyconfig.toml`.

## Model

| member | source | states |
|---|---|---|
| Rs485Safety.StepKeepsInv | main/rs485_discrete.c:361-482 | every atomic step of comm task or worker keeps: widths and link counters in range, a write under way goes to an online unblocked module and to a coil that differs, and between passes the published state is the worker's view |
| Rs485Safety.RunKeepsInv | main/rs485_discrete.c:361-482 | the same over every interleaving of any length |
| Rs485Safety.BootOk | main/rs485_discrete.c:439-459 | the state after discovery satisfies the invariant, so every run from boot does |
| Rs485Safety.FailSafe | main/rs485_discrete.c:224-257 | after set_enabled(false) and until the next set_enabled(true), whatever the modules answer, at most one coil-ON write goes out: the first one, whose target had already been read |
| Rs485Safety.DisabledWritesOff | main/rs485_discrete.c:326-359 | once disabled with no ON write under way, every later write is OFF |
| Rs485Safety.NoStaleReplay | main/rs485_discrete.c:234-245 | when the combined link falls while enabled, the intent becomes the readback published at that moment and stays so until the link rises or set_enabled is called |
| Rs485Safety.NoWriteWhileBlocked | main/rs485_discrete.c:326-437 | after a failed transaction a module gets no FC05 until one of its own polls succeeds |
| Rs485Safety.LinkFollowsOutcomes | main/rs485_discrete.c:292-311 | in every run a module's link is a function of the outcomes of its own transactions alone |
| Rs485Safety.LinkHysteresis | main/rs485_discrete.c:292-311 | online if and only if it has ever answered and fewer than three transactions in a row failed since; the counter saturates at three |
| Rs485Safety.BlockFollowsOutcomes | main/rs485_discrete.c:347-416 | in every run a module is blocked for writes if and only if the last transaction with it, write or poll of its outputs, failed |
| Rs485Safety.NextPoll | main/rs485_discrete.c:392-481 | with nothing to write a pass polls the next of Waveshare, M31 and M31 inputs that there is to poll; after the round it does nothing until the poll timer starts the next |
| Rs485Safety.NextWrite | main/rs485_discrete.c:326-390 | a pending write goes before every poll, the Waveshare module's before the M31's, and is of the lowest coil that differs |
| Rs485Intent.EnableAsksNothing | main/rs485_discrete.c:247-257 | after set_enabled with either flag every bit of the intent is off |
| Rs485Intent.IntentIsLastWord | main/rs485_discrete.c:234-274 | over every run a bit of the intent is on if and only if it was asked for (a set_outputs heard while enabled and linked names it on, or a falling link reads its coil on) and not asked against since, or was on before and never asked against |
| Rs485Intent.OnlyAskedOn | main/rs485_discrete.c:234-390 | from any call of set_enabled on, in every interleaving, every coil-ON write but one already under way goes to a channel that was asked for since the call, and not against when the write was chosen |
| Rs485Inputs.InputsFollowReads | main/rs485_discrete.c:418-437 | over every run the inputs are those of the last good FC02 read of the M31, and count as good until a read fails or a round passes them by |
| Rs485Inputs.PublishedInputs | main/rs485_discrete.c:313-324 | what is published shows that read, nothing above bit 31, valid exactly when the M31 has inputs, is online and the read still counts; the link is up exactly when a module with outputs is online |
| Rs485Inputs.RoundReadsInputs | main/rs485_discrete.c:418-437 | a polling round ends with a read of the inputs unless there are none or the M31 is offline |
| Rs485Safety.UnreadModuleShowsZero | main/rs485_discrete.c:439-445 | a module that never answered contributes zeros, not a readback, to the bitmap |
| Rs485Convergence.RoutedBits | main/rs485_discrete.c:361-390 | channel c of the target is Waveshare coil c below W and M31 coil c - W from W to W + M, for all widths up to 32 |
| Rs485Convergence.MergeInvertsSplit | main/rs485_discrete.c:313-316 | merging the two module targets gives the masked target back, W = 32 and M = 32 included |
| Rs485Convergence.SplitInvertsMerge | main/rs485_discrete.c:361-388 | splitting a published bitmap gives each module's relays back |
| Rs485Convergence.SnapshotWritesIffMismatch | main/rs485_discrete.c:361-390 | apply_pending_output finds something to write if and only if an available module differs from its target |
| Rs485Convergence.RoundProgress | main/rs485_discrete.c:326-390 | with a module that does what it acknowledges, one call lowers the number of wrong channels over both modules by exactly one and disturbs neither intent nor poll phase |
| Rs485Convergence.SettledIffPublished | main/rs485_discrete.c:361-390 | with every module available, nothing is left to write if and only if the published bitmap equals the masked target |
| Rs485Convergence.Converges | main/rs485_discrete.c:361-390 | from any state between passes, exactly as many writes as there are wrong channels bring the published bitmap to the target, and then no more are made |
| Rs485Convergence.DisabledConvergesToOff | main/rs485_discrete.c:247-257 | disabled, the modules end with every relay read back off |
| Rs485Convergence.ProgressIffObeyed | main/rs485_discrete.c:335-346 | one acknowledged write makes progress if and only if the coil now reads as written |
| Rs485Stuck.OneWrite | main/rs485_discrete.c:326-356 | an acknowledged write of a module with stuck coils: progress exactly when the coil is not stuck, and no stuck coil changes |
| Rs485Stuck.SettlesIffNoStuckCoilDiffers | main/rs485_discrete.c:326-390 | with any set of stuck coils on both modules, from any state and for any sufficient number of passes: nothing is left to write if and only if no stuck coil of an available module differs from its target; otherwise every pass is a write and the poll phase never moves |
| Rs485Stuck.StuckCoilStarves | main/rs485_discrete.c:461-464 | a stuck coil that differs, on either module, is retried for ever with the poll phase where it was; one on the Waveshare module keeps the M31 module untouched |
| Rs485Liveness.PassLowers | main/rs485_discrete.c:461-481 | while no stuck coil is wrong, a pass over modules that answer, a write or a poll or the timer, lowers the work to do (wrong coils, and passes until an unknown module is polled) by at least one, or leaves it at zero; in every case it keeps whether a stuck coil is wrong |
| Rs485Liveness.ReachedIffNoStuckCoil | main/rs485_discrete.c:461-481 | from every state between passes, with any view the worker may have of the real coils: after enough passes every module is online and unblocked and every coil as wanted, if and only if no stuck coil is otherwise |
| Rs485Liveness.EnoughPasses | main/rs485_discrete.c:461-481 | enough is the number of output channels and eight |
| Rs485Liveness.ObedientModulesReachTarget | main/rs485_discrete.c:439-481 | with modules that answer and obey, from any state, boot included, 72 passes bring every module online and the published bitmap to the target, and there it stays |
| Rs485Task.Bus.SetEnabled | main/rs485_discrete.c:247-257 | the flag is set and every bit of the intent cleared, whichever the flag; nothing else changes |
| Rs485Task.Bus.SetOutputs | main/rs485_discrete.c:259-274 | while enabled and linked each masked bit of the intent becomes its value; every other bit stays |
| Rs485Task.Bus.SharedTarget | main/rs485_discrete.c:224-232 | bit c of the target is the intent's while enabled and below the width, else off |
| Rs485Task.Bus.SharedPublish | main/rs485_discrete.c:234-245 | publish, with the intent replaced by the readback on a falling link |
| Rs485Task.Module.UpdateLink | main/rs485_discrete.c:292-311 | failure counter and online flag after one transaction |
| Rs485Task.Module.Write | main/rs485_discrete.c:326-356 | FC05 then FC01, readback, block and link as in the step system, and the frames that went out |
| Rs485Task.Module.Poll | main/rs485_discrete.c:401-416 | FC01 poll of one module: relays, block and link |
| Rs485Task.Task.WorkerPublish | main/rs485_discrete.c:313-324 | publishes the merged view of the two modules |
| Rs485Task.Task.ApplyPendingOutput | main/rs485_discrete.c:361-390 | one call is target snapshot, transaction and publish of the step system, with other tasks' calls in the gaps, or no step at all |
| Rs485Task.Task.PollWorker | main/rs485_discrete.c:392-437 | one call is one poll transaction and publish, skipped phases included |
| Rs485Task.Task.Pass | main/rs485_discrete.c:461-481 | one pass of the endless loop: a pending write, else the next poll, else the poll timer; and the frames it put on the bus |
| Rs485Task.FramesAreCoilWrites | main/rs485_discrete.c:461-481 | over any list of passes, with any calls in the gaps and any bytes coming back, the FC05 frames on the bus are exactly those of the coil writes the safety theorems speak of |
| Rs485Task.PassIsRun | main/rs485_discrete.c:461-481 | a pass, for every interleaving of comm-task calls and every reply bytes, is a run of the step system over exactly that interleaving |
| Rs485Bus.PollShowsCoils | main/rs485_discrete.c:401-416 | over a module that follows the standard a poll of the outputs reads exactly the coils it holds, and changes none |
| Rs485Bus.PollShowsInputs | main/rs485_discrete.c:418-430 | and the poll of the inputs its discrete inputs |
| Rs485Bus.WriteSwitchesCoil | main/rs485_discrete.c:335-346 | a write sends two requests: the first switches exactly the chosen coil of the module, the second reads the coils as they then are, so it is acknowledged and seen |
| ModbusCrc.ModbusCrc16 | main/rs485_discrete.c:92-102 | the loop computes the CRC register of section 6.2.2 of MODBUS over Serial Line V1.02 |
| ModbusCrc.AppendCrc | main/rs485_discrete.c:104-108 | the frame is its body followed by the CRC, low byte first |
| ModbusCrc.AppendedCrcPasses | main/rs485_discrete.c:104-108 | every body with its CRC appended passes the receive check |
| ModbusCrc.PassesIffResidueZero | main/rs485_discrete.c:134-139 | the receive check passes if and only if the CRC register over the whole frame is zero |
| ModbusCrc.RegisterLinear | main/rs485_discrete.c:92-102 | the register is linear over exclusive or |
| ModbusCrc.CorruptionPassesIff | main/rs485_discrete.c:134-139 | a corrupted good frame passes if and only if the register over the error pattern alone is zero |
| ModbusCrc.RegisterIsSerial | main/rs485_discrete.c:92-102 | the byte-wise loop is the bit-serial division of the whole bit stream |
| ModbusCrc.OddErrorsDetected | main/rs485_discrete.c:134-139 | every odd number of bit errors makes the receive check fail |
| ModbusCrc.BurstErrorsDetected | main/rs485_discrete.c:134-139 | every non-zero error within sixteen consecutive bits makes the receive check fail |
| CrcCode.UndetectedIffMultiple | main/rs485_discrete.c:134-139 | the receive check lets a corruption through if and only if its bits, in the order sent, are a multiple of x^16 + x^15 + x^2 + 1 |
| CrcCode.StartsFull | main/rs485_discrete.c:92-93 | the register starts with all sixteen bits set |
| Rtu.BuildRequest | main/rs485_discrete.c:145-151 | the frame passes the receive check, and read byte by byte holds unit, function, address and operand, each field high byte first |
| Rtu.RequestFields | main/rs485_discrete.c:145-151 | the same for the request as a value |
| Rtu.WriteReachesCoil | main/rs485_discrete.c:174-188 | a slave that reads the frame by itself, as section 6.5 of MODBUS Application Protocol V1.1b3 says, switches exactly coil `address` to `on`, and its answer confirms the write |
| Rtu.ReadReachesBits | main/rs485_discrete.c:143-172 | a slave that reads the frame by itself, as sections 6.1 and 6.2 say, answers with its bits from `address`, read back one for one, and changes nothing |
| Rtu.ReadAcceptedIff | main/rs485_discrete.c:129-171 | bits are read if and only if the request went out and what arrives first is a well-formed reply of the unit, function and length asked for, and then they are its data bits below the count |
| Rtu.ProbedIffPresent | main/rs485_discrete.c:190-217 | a slave answers the discovery's one-bit read if and only if it has that address; its refusal is not taken for data |
| Rtu.SlavePopulation | main/rs485_discrete.c:190-217 | so ProbeCount finds how many coils or inputs a slave has |
| Rtu.ReadBits | main/rs485_discrete.c:143-172 | what read_bits returns for any bytes on the line, and that its request draws the bits asked for from every slave of that unit |
| Rtu.WriteCoil | main/rs485_discrete.c:174-188 | true if and only if the slave echoed the request, which switches the coil asked for on every slave of that unit |
| Rtu.ProbeCount | main/rs485_discrete.c:190-217 | zero if address 0 does not answer; otherwise, when exactly the addresses below some n answer, that n |
| Rtu.ReadWithinCount | main/rs485_discrete.c:163-170 | no bit at or above the requested count is ever reported |
| Rtu.HonestReadBack | main/rs485_discrete.c:143-172 | for a standard reply read_bits returns exactly the coils the slave packed, for every count up to 32 |
| Rtu.DamagedReplyRejected | main/rs485_discrete.c:129-162 | a standard reply hit by an odd number of bit errors or one burst of at most sixteen bits is never taken for data |
| Rtu.EchoConfirms | main/rs485_discrete.c:184-187 | a write is confirmed if and only if the request went out and the first eight bytes back are its echo |
| Discrete.SetRoundTrip | components/lccore/comm_core.c:643-673 | bit i of a gateway's SET bitmaps arrives at channel base + i and nowhere else, for every base and count the range check admits |
| Discrete.BitmapRoundTrip | components/lccore/discrete_glue.c:94-105 | a bitmap of n bytes reads back as the low 8 n bits of the word |
| Discrete.StateRoundTrip | components/lccore/discrete_glue.c:78-116 | every STATE payload decodes to the snapshot, maps cut to the reported width in whole bytes, with link bit and number |
| Discrete.TelemetryComplete | components/lccore/discrete_glue.c:54-116 | in every run, while the plane is on, the width is non-zero and nothing is pending, the last STATE sent decodes to the current snapshot; STATEs are numbered without a gap |
| Discrete.LoopMakesFresh | components/lccore/discrete_glue.c:208-236 | after any run, a loop call with UDP working leaves nothing pending: while the plane is on, the last STATE decodes to what the backend answered in that very call |
| DiscreteTiming.SetupOn | components/lccore/discrete_glue.c:144-158 | SETUP with a non-zero flag: on, nothing wanted, backend enabled, a STATE due, and the report period the one sent, 500 ms for 0 |
| DiscreteTiming.SetupOff | components/lccore/discrete_glue.c:159-175 | SETUP with flag 0: backend disabled; a plane that was on stays on to confirm it, from now on the clock, with a STATE due; the period stays |
| DiscreteTiming.ResetEffect | components/lccore/discrete_glue.c:126-142 | a reset disables the backend, wants nothing, has nothing due and goes back to 500 ms |
| DiscreteTiming.SetReachesBackend | components/lccore/discrete_glue.c:177-206 | a SET reaches the backend if and only if the plane is on, not shutting down, the link up and a channel below the output count addressed; with exactly those channels |
| DiscreteTiming.LoopSendsIff | components/lccore/discrete_glue.c:208-236 | a loop call sends one STATE if and only if the plane is on, has channels, UDP works, and one is pending, the hardware changed, the disable is over, or the last went out the period or more ago |
| DiscreteTiming.Heartbeat | components/lccore/discrete_glue.c:231-235 | over any number of loop calls in which nothing changes, the next one sends if and only if the last STATE went out the report period or more before, across tick wrap |
| DiscreteTiming.SetHeader | components/lccore/comm_core.c:640-650 | base channel and count of a SET, lowest byte first |
| DiscreteTiming.SetBytes | components/lccore/comm_core.c:640-672 | then the two bitmaps; channel c is written if and only if its apply bit is set, with its value bit |
| DiscreteTiming.BitmapBit | components/lccore/comm_core.c:660-670 | bit i of a bitmap is bit i mod 8, counted from the lowest, of byte i div 8 |
| DiscreteTiming.StateHeader | components/lccore/discrete_glue.c:87-92 | byte for byte: four zeros, the width low byte first, link, number |
| DiscreteTiming.StateMaps | components/lccore/discrete_glue.c:94-107 | then the maps of relays, inputs and input validity, in that order |
| Discrete.StepConsistent | components/lccore/discrete_glue.c:54-236 | what TelemetryComplete rests on is kept by setup, set, loop and reset, whether or not UDP works |
| Discrete.NumberWraps | components/lccore/discrete_glue.c:112 | the n-th STATE carries n mod 256 |
| Discrete.DisableEndsAtFirst | components/lccore/discrete_glue.c:208-236 | a disable ends at, and only at, the first loop call that sees all relays off on a live link or comes 2000 ms or more later, also across tick wrap |
| Discrete.LateWritesDropped | components/lccore/discrete_glue.c:177-206 | a SET while off, disabling or without link reaches no one |
| Discrete.SetReachesOneCoil | components/lccore/comm_core.c:643-673 | an accepted SET sets the target of each addressed channel below W + M on exactly one coil and of no other channel |
| Discrete.StateShowsCoils | main/rs485_discrete.c:313-323 | bit c of the relay map decoded from a STATE is what was last read of Waveshare coil c below W, of M31 coil c - W from W to W + M, and zero above |
| Discrete.StateShowsInputs | main/rs485_discrete.c:313-324 | the input map decoded from a STATE is the M31 inputs as last read, and the validity map has exactly its lowest bit for all of them |
| DiscreteGlue.DecodeMasks | components/lccore/comm_core.c:640-672 | the payload checks and the decode loop compute the decode the round trip is about |
| DiscreteGlue.DecodeBits | components/lccore/comm_core.c:660-670 | the bit loop moves bit i to channel base + i, drops channels from 64 on and values outside apply |
| DiscreteGlue.DiscretePlane.RefreshHardware | components/lccore/discrete_glue.c:54-76 | snapshot, invalid inputs without link, and a STATE pending on change |
| DiscreteGlue.DiscretePlane.BuildState | components/lccore/discrete_glue.c:78-107 | the nested loops write exactly the STATE payload |
| DiscreteGlue.DiscretePlane.EmitState | components/lccore/discrete_glue.c:78-116 | number, pending mark and heartbeat move only when the datagram went out |
| DiscreteGlue.DiscretePlane.SetupPlane | components/lccore/discrete_glue.c:144-175 | new plane state and the backend calls, in order |
| DiscreteGlue.DiscretePlane.SetOutputs | components/lccore/discrete_glue.c:177-206 | new plane state and the backend call, masked to the discovered outputs |
| DiscreteGlue.DiscretePlane.ResetPlane | components/lccore/discrete_glue.c:126-142 | the fail-safe reset of plane and backend |
| DiscreteGlue.DiscretePlane.LoopPlane | components/lccore/discrete_glue.c:208-236 | disable confirmation or timeout, pending STATE, heartbeat |
| Framing.ScanSplit | components/lccore/comm_core.c:851-891 | scanning a prefix and then its residue with the rest is scanning everything at once |
| Framing.ChunkInvariance | main/comm_task.c:225-254 | however TCP cuts a stream into receives, parse-and-compact dispatches the packets of the whole stream in order and keeps its residue, at most 254 bytes |
| Framing.ResidueBound | main/comm_task.c:226-232 | what a scan leaves is at most 254 bytes, so the 1024-byte buffer is never full |
| Framing.ResidueIsInert | components/lccore/comm_core.c:851-891 | a scan leaves nothing a second scan could use |
| Framing.ScanInvertsEmit | components/lccore/comm_core.c:85-107 | scanning any list of built frames, with garbage that holds no head pair before, between and after them, dispatches exactly that list |
| Framing.ScanIsSound | components/lccore/comm_core.c:851-891 | the consumed bytes are the frames of the dispatched packets, in order and disjoint, with the skipped bytes between them |
| Framing.FrameBytes | components/lccore/comm_core.c:91-104 | byte for byte: BB AA, number, length, command, payload, and the sum from the number on modulo 256 |
| Framing.JudgedIff | components/lccore/comm_core.c:854-884 | a packet is found if and only if its frame is at the front; the scanner waits if and only if head and a legal length are there but not all bytes |
| Framing.Checksum | components/lccore/comm_core.c:877-880 | the checksum loop adds the covered bytes modulo 256 |
| Framing.FillFrame | components/lccore/comm_core.c:91-104 | head, id, length, command, payload and checksum as one frame |
| Framing.Front | components/lccore/comm_core.c:854-884 | the tests on the bytes at the front: skip, wait, or a packet |
| Framing.NextPacket | components/lccore/comm_core.c:854-888 | one turn of the scan loop in terms of the scan of what is unread |
| Framing.IsValidPing | main/comm_task.c:258-279 | true if and only if the scanner would dispatch a PING at offset 0 |
| Channels.SetupTakesEffect | components/lccore/comm_core.c:326-356 | a SETUP record is accepted if and only if all fields are in range; its channel then has the fields sent in both tables, disabled, timetable empty, and no other channel changes |
| Channels.EnableTakesEffect | components/lccore/comm_core.c:358-379 | an ENABLE record is accepted if and only if its channel is in range and set up; it then changes that flag in both tables and nothing else |
| Channels.AddThenUpdate | components/lccore/arinc_glue.c:61-133 | a word for a label just added, when no earlier label answers to it, lands in that label and no other |
| Channels.AddressedIff | components/lccore/arinc_glue.c:106-120 | a word addresses a label by its low byte and, unless the SDI bits are data, by the two bits above it |
| Channels.UpdateTakesEffect | components/lccore/comm_core.c:551-583 | channel, SDI flag and send flag are where the record format says; accepted if and only if the channel exists and is set up; then only the first addressed label changes, to that word and flag |
| Channels.AddTakesEffect | components/lccore/comm_core.c:515-544 | accepted if and only if the channel exists, is set up and has room for one of 128; the label goes to the end and the table needs a new build |
| Channels.ManualAcceptedIff | components/lccore/comm_core.c:465-498 | accepted if and only if the channel exists and is set up |
| Channels.BuildTakesEffect | components/lccore/comm_core.c:592-613 | a build of an existing channel that is set up marks its table built and changes nothing else; a refused one nothing at all |
| Channels.SetupRefusal | components/lccore/comm_core.c:326-356 | which status a refused SETUP record gets: direction, channel, speed, mode, in that order |
| Channels.EnableRefusal | components/lccore/comm_core.c:358-379 | which status a refused ENABLE record gets |
| Channels.AnswerNamesRecord | components/lccore/comm_core.c:403-460 | the answer to a batch names channel and direction of the first record refused, or else of the last whole one |
| Channels.RecordKeepsMirror | components/lccore/comm_core.c:326-379 | every record keeps the two tables in agreement (setup, enabled, speed, mode, delay; enabled, labels or built only when set up; at most 128 labels), and one that fails changes nothing |
| Channels.BatchAppliesPrefix | components/lccore/comm_core.c:403-460 | a multi-record payload applies exactly the records before the first failing one and answers with its status; OK if and only if no whole record fails |
| Channels.CommandFlag | components/lccore/comm_core.c:406-460 | after a batch command a channel is enabled as the last record applied to it says, a SETUP disabling it |
| Channels.CommandKeepsMirror | components/lccore/comm_core.c:406-587 | so do the five batch commands on any payload |
| Channels.BuildKeepsMirror | components/lccore/comm_core.c:592-613 | and TT_BUILD, which changes nothing when it fails |
| Channels.ResetMirror | components/lccore/comm_core.c:61-68 | the tables agree after channels_reset |
| Channels.FindLabel | components/lccore/arinc_glue.c:108-121 | the first label with the addressed byte and, unless SDI is data, the addressed SDI |
| ChannelCode.ChannelTables.SetLabel | components/lccore/arinc_glue.c:99-133 | the search loop updates exactly the first addressed label |
| ChannelCode.ChannelTables.AddLabel | components/lccore/arinc_glue.c:61-76 | a label is appended and the table unbuilt, up to 128 |
| ChannelCode.ChannelTables.Build | components/lccore/arinc_glue.c:78-86 | the table is marked built if the channel is set up |
| ChannelCode.ChannelTables.SetupRecord | components/lccore/comm_core.c:326-356 | keeps the class invariant that the two tables agree; validation order, both tables, and the engine cleared; nothing changed on error |
| ChannelCode.ChannelTables.EnableRecord | components/lccore/comm_core.c:358-379 | keeps the class invariant; validation order and both flags; the engine's own check cannot fail |
| ChannelCode.ChannelTables.Batch | components/lccore/comm_core.c:406-432 | the record loop computes status, tables and the extra bytes of the ACK |
| ChannelCode.ChannelTables.BuildTable | components/lccore/comm_core.c:592-613 | TT_BUILD: status, tables and the extra byte |
| Comm.OneReplyOnTcp | components/lccore/comm_core.c:729-849 | every TCP packet, whatever its command, payload and the state, gets exactly one answer, with its command and (GET_UID excepted) its id |
| CommStatus.StatusDecided | components/lccore/comm_core.c:729-849 | for every TCP packet in both builds that neither tables nor loader decide: OK if and only if acceptable (PING always, FIND_ME from 4 bytes, JUMP and REBOOT with the UID, SETUPs and SETs well formed, a log level in range, a readable descriptor offset); too short, wrong version and plain error each exactly when due; unknown commands always an error |
| CommStatus.ChannelStatus | components/lccore/comm_core.c:406-587 | a batch command is answered OK if and only if it has a whole record and every whole record is accepted |
| CommStatus.BuildStatus | components/lccore/comm_core.c:592-613 | a build is answered OK if and only if its channel exists and is set up; which status otherwise, and the channel it names |
| CommStatus.LoaderStatus | components/lccore/comm_core.c:791-814 | the loader's status goes out as its code, and an accepted START is told 240 bytes |
| CommStatus.ExtraDecided | components/lccore/comm_core.c:178-208 | the firmware block, the hardware block, the bare UID, and the log level now in force; every other such answer carries its status alone |
| CommStatus.CapabilitiesExtra | components/lccore/comm_core.c:240-256 | a served read carries the total length and 240 bytes from the offset, or all that are left |
| CommStatus.RestartsIff | components/lccore/comm_core.c:275-298 | the card restarts behind exactly a REBOOT, or a JUMP_TO_BOOTLOADER to the application, over TCP with its UID |
| CommStatus.OwnPartOnly | components/lccore/comm_core.c:729-849 | each command changes its own part of the card, on its own transport and build, and nothing else |
| CommStatus.SetsAlikeOnBoth | components/lccore/comm_core.c:637-721 | a SET over UDP does what the same SET over TCP does |
| CommStatus.DiscreteSetupEffect | components/lccore/comm_core.c:621-634 | which bytes of a DISCRETE_SETUP switch the plane and set the period, and the relay intent switched with it |
| CommStatus.DiscreteSetEffect | components/lccore/comm_core.c:637-678 | a well-formed DISCRETE_SET sets the relay intent of exactly the addressed channels below the output count while the plane is on and linked, and of none otherwise |
| CommStatus.JoystickEffects | components/lccore/hid_glue.c:83-135 | a HID_SETUP switches the joystick and sets its period; a SET is kept only while it is on |
| Comm.StreamsAndRestarts | components/lccore/comm_core.c:288-298 | a handler builds a frame besides its answer exactly when a HID_SETUP disables an enabled joystick, and nothing more is handled exactly after a REBOOT, or outside the recovery build a JUMP_TO_BOOTLOADER, with the right key |
| Comm.SilentOnUdp | components/lccore/comm_core.c:737-752 | a UDP packet gets no answer and changes no table, enable flag, report period, log level or upload; all it can do is write outputs, on the application |
| Comm.ErrorAckChangesNothing | components/lccore/comm_core.c:729-849 | an error ACK means the card is as it was, except for the batch commands and FW_UPDATE, whose effect is stated separately |
| Comm.ManualChangesNothing | components/lccore/comm_core.c:465-503 | SEND_LABEL_MANUAL, the one batch command allowed on UDP, changes no table |
| CommWire.OneReplyEach | components/lccore/comm_core.c:851-891 | every packet dispatched, all of them or those up to the first restart, is answered exactly once, in order, wherever sends fail; frames of both transports are numbered without a gap |
| CommWire.NumberedIs | components/lccore/comm_core.c:93 | the i-th number is the first plus i, modulo 256 |
| CommWire.RepliesOnTheWire | components/lccore/comm_core.c:85-128 | what the gateway reads: exactly the frames sent whole, the i-th numbered first + i + the UDP frames built before it, the answers among them one for one with the requests up to the first failed send, and nothing left over while the client is there |
| CommNumbers.AnswersConsecutiveIff | components/lccore/comm_core.c:85-128 | the answers the gateway reads carry consecutive numbers if and only if no well-formed HID_SETUP, up to the first restart and before the first failed send, switches off a joystick that is on at that point, by the last switch before it or from the start |
| CommNumbers.SkipsFirst | components/lccore/hid_glue.c:83-104 | that condition can be decided packet by packet, with the joystick flag carried along |
| CommWire.HidDisableSkipsNumber | components/lccore/hid_glue.c:83-104 | enabling and disabling the joystick in one receive: the second answer skips the number of the STATE built in between |
| CommWire.DatagramHarmless | main/comm_task.c:305-307 | a UDP datagram of any packets builds no frame, ends nothing and changes no configuration |
| CommWire.ServeConcat | components/lccore/comm_core.c:851-891 | serving a list is serving its parts one after the other |
| CommWire.ServicedSound | main/comm_task.c:435-443 | whatever a service sends between two receives fits the numbered stream and answers nothing |
| CommWire.OneAnswerPerPacket | main/comm_task.c:407-444 | over a whole connection, with any services between the receives, however the stream is cut and wherever sends fail: the packets of the stream are answered one for one, in order, all of them if client and card are still there; the gateway reads those answers in order with only DEVICE_STATUS in between; no number is used twice or left out |
| CommWire.StreamCutsInvisible | main/comm_task.c:225-254 | when no service runs in between and the client stays: same frames, same state, same residue as for the whole stream in one receive |
| CommSession.SessionEndDisables | components/lccore/comm_core.c:902-917 | both session edges leave no channel, plane, relay intent or upload enabled and keep the invariant |
| CommSession.DispatchKeepsInv | components/lccore/comm_core.c:729-849 | any packet, on either transport and in either personality, keeps the card invariant |
| CommSession.ServeKeepsInv | components/lccore/comm_core.c:851-891 | so does any list of packets, with sends failing anywhere |
| CommFailure.RearmedWithoutClient | main/comm_task.c:98-111 | a DISCRETE_SETUP behind a failed send leaves plane and relay intent enabled with no client |
| CommFailure.PlanesBehind | components/lccore/comm_core.c:621-701 | behind a lost client, for every list of packets: the relay intent and the joystick are as the last well-formed switch says, the discrete plane is on if any says on |
| CommFailure.ChannelsBehind | components/lccore/comm_core.c:406-460 | behind a lost client a channel is enabled exactly if the last record applied to it enables it |
| CommFailure.UploadBehind | components/lccore/comm_core.c:791-814 | behind a lost client, in the recovery build, an upload is open exactly as the guards of START and STEP say |
| CommFailure.FailedSendDisablesIff | main/comm_task.c:225-254 | a lost client leaves nothing enabled, for every buffer and in both builds, if and only if among the packets behind the failed send no discrete switch says on, the last joystick switch does not, no last applied record enables a channel, and (recovery) the FW_UPDATE packets do not end in an upload that met an idle loader: an admissible START and consecutive admissible STEPs |
| CommSession.RunKeepsInv | main/comm_task.c:407-444 | the card invariant over every run of packets, session edges, periodic services and relay-task publishes |
| CommSession.CardSafety | main/comm_task.c:407-444 | in every run: the channel tables agree, the loader is safe, the relay task is asked for an ON only while the plane is on and not shutting down, and telemetry is complete |
| CommSession.OnlySetupEnables | components/lccore/comm_core.c:621-634 | the relay intent is turned on by a well-formed DISCRETE_SETUP(enable) over TCP to the application, and by nothing else |
| CommSession.LostClientFailSafe | main/comm_task.c:89-96 | losing the client is one set_enabled(false) for the relay task, hence at most one ON write afterwards |
| CommSession.FetchIsDescriptor | components/lccore/comm_core.c:210-256 | chunked GET_CAPABILITIES reads give the descriptor back byte for byte, for every length |
| CommCode.CommTask.BuildFrame | components/lccore/comm_core.c:85-107 | zero and no number used for a null or oversized request; otherwise the frame with the next number |
| CommCode.CommTask.SocketSend | main/comm_task.c:98-111 | all bytes, or a part of them and the client dropped with its session |
| CommCode.CommTask.Session | components/lccore/comm_core.c:902-917 | the state of the session edge |
| CommCode.CommTask.SendAck | components/lccore/comm_core.c:139-154 | the ACK envelope with a little-endian status and its extra bytes, sent |
| CommCode.CommTask.HandleGetCapabilities | components/lccore/comm_core.c:210-257 | length, availability, version and offset checks in order, then total length and chunk |
| CommCode.CommTask.HandleFwUpdate | components/lccore/comm_core.c:791-814 | the loader's answer, with the chunk size on an accepted START; nothing behind the packet is overwritten |
| CommCode.CommTask.Dispatch | components/lccore/comm_core.c:729-849 | state, answer and wire bytes of the dispatcher, for every command |
| CommCode.CommTask.Input | components/lccore/comm_core.c:851-891 | serves exactly the packets of the scan, in order and up to a restart, returns how far it got and leaves the bytes behind it alone |
| CommCode.CommTask.ClientService | main/comm_task.c:225-254 | one receive: append, serve, compact; the buffer holds the residue, at most 254 bytes, and the full-buffer reset is unreachable |
| LogRing.Ring.Put | components/lccore/lc_log.c:46-50 | appends one byte to the ring contents |
| LogRing.Ring.Get | components/lccore/lc_log.c:52-57 | removes the oldest byte |
| LogRing.Ring.DropOldest | components/lccore/lc_log.c:60-73 | removes exactly the oldest record and counts it; the corruption branch is unreachable |
| LogRing.Ring.Push | components/lccore/lc_log.c:75-89 | the circular bytes go from the layout of one queue to the layout of the queue after the push |
| LogRing.Ring.LogEmit | components/lccore/lc_log.c:93-121 | which lines enter the ring, and as what record: exactly the clauses of EmittedIff, in the contract itself |
| LogQueue.EmittedIff | components/lccore/lc_log.c:93-121 | a line is recorded if and only if no flush is building, its level, at most INFO, is at or above the threshold, and a byte is left without the line ends; with the first 122 bytes, the clock, the level in the low bits, and 0x80 exactly when the formatter or the cap cut it |
| LogRing.Ring.SetLevel | components/lccore/lc_log.c:137-142 | the threshold, clamped; the dispatcher sets it on SET_LOG_LEVEL and at the end of a session |
| LogRing.Ring.DrainSection | components/lccore/lc_log.c:196-217 | one lock section: the oldest record goes to the packet if it fits |
| LogRing.Ring.BuildPacket | components/lccore/lc_log.c:173-229 | the packet is the number, the drop counter and the drained records, with other tasks pushing at every lock boundary; numbers advance only for packets |
| LogQueue.ParseStoredInverse | components/lccore/lc_log.c:80-88 | the ring layout parses back to the records |
| LogQueue.ParseStoredSound | components/lccore/lc_log.c:80-88 | and no other bytes do |
| LogQueue.ParseWireInverse | components/lccore/lc_log.c:206-216 | the records of a datagram parse back |
| LogQueue.WireBytes | components/lccore/lc_log.c:206-216 | byte for byte: flags, tick, text length, text |
| LogQueue.PushKeepsLongestSuffix | components/lccore/lc_log.c:75-89 | after a push the queue is the longest suffix of old plus new that fits 4096 bytes, and the drop count grows by the number removed |
| LogQueue.KeepIsLongestSuffix | components/lccore/lc_log.c:75-79 | independent meaning of that suffix: it fits, and one record more would not |
| LogQueue.DropCounterCounts | components/lccore/lc_log.c:72 | the 16-bit drop counter is the number of dropped records modulo 65536 |
| LogQueue.DrainedInPushOrder | components/lccore/lc_log.c:173-229 | drained records are pushed records, in push order, none twice |
| LogQueue.Conservation | components/lccore/lc_log.c:75-121 | in every history of the ring the pushed records are the drained, the dropped and the queued ones together |
| LogQueue.RunKeepsPushed | components/lccore/lc_log.c:75-229 | over any run the pushed records are those of before and then, in order, every line of the run and every line that arrives at a lock boundary of one of its flushes |
| LogQueue.RunConserves | components/lccore/lc_log.c:75-229 | over every run from boot, with pushes at every lock boundary, the records that came in number those in all packets, those dropped and those still queued; and the packets carry them in order, none twice |
| LogQueue.DrainConserves | components/lccore/lc_log.c:195-218 | a drain, with any pushes between its sections, records as drained exactly what the packet carries, and the packet fits |
| LogQueue.DrainKeepsPushed | components/lccore/lc_log.c:195-218 | a drain forgets no pushed record, those pushed meanwhile included |
| LogQueue.PacketsCarryTheDrainedRecords | components/lccore/lc_log.c:173-229 | over every run of lines and flushes, decoding all packets gives exactly the drained records |
| LogQueue.QuietDrainIsLongestPrefix | components/lccore/lc_log.c:195-218 | with nobody pushing, the packet is the longest prefix of the queue that fits |
| LogQueue.QuietDrainProgress | components/lccore/lc_log.c:195-224 | with room for 132 bytes a non-empty ring gives a non-empty packet |
| LogQueue.FlushesIff | components/lccore/lc_log.c:173-229 | with nobody pushing, a flush gives a packet if and only if there is a record and the oldest fits behind the four bytes of header |
| LogQueue.DrainAllEmptiesTheRing | components/lccore/lc_log.c:173-229 | repeated calls end and send the whole queue in order, no packet empty or too long |
| LogQueue.PushKeepsCapped | components/lccore/lc_log.c:100-103 | texts in the ring stay within 122 bytes |
| FwUpdate.Safety | components/lccore/fwupdate_core.c:68-95 | over every run of packets, ticks, session edges and port failures: each set_boot call is on a validated image of exactly the announced length and Fletcher32, at most one per START; an open upload has its handle open, status OK and at most size + 224 bytes written |
| FwUpdate.HandleKeepsInv | components/lccore/fwupdate_core.c:97-222 | any packet keeps that invariant |
| FwUpdate.StartAcceptedIff | components/lccore/fwupdate_core.c:108-150 | exact condition for a START to be accepted |
| FwUpdate.StepAcceptedIff | components/lccore/fwupdate_core.c:180-214 | exact condition for a STEP to be accepted |
| FwUpdate.FinishAcceptedIff | components/lccore/fwupdate_core.c:68-95 | a FINISH is accepted if and only if the flashed bytes have the announced length and checksum and the platform agrees |
| FwUpdate.OpenFollowsGuards | components/lccore/fwupdate_core.c:97-222 | whether an upload is open is decided by the guards alone: an admissible START opens, the next admissible STEP goes on, everything else that carries an index closes |
| FwUpdate.OpenIffUploadAtEnd | components/lccore/fwupdate_core.c:97-222 | over any list of index-carrying packets from idle, an upload is open if and only if the list ends in an admissible START, met by an idle loader, and consecutive admissible STEPs |
| FwUpdate.StartMeetsOpenUpload | components/lccore/fwupdate_core.c:152-174 | an admissible START that meets an open upload closes it, so ending in one upload is not enough |
| FwUpdate.ErrorsWriteNothing | components/lccore/fwupdate_core.c:97-222 | any other answer writes nothing to flash and ends the upload, except that packets too short for an index change nothing |
| FwStatus.WatchdogFires | components/lccore/fwupdate_core.c:224-233 | over any list of ticks an open upload stays open, untouched, if and only if every tick comes within 2000 ms of the last accepted packet, modulo 2^32; else it is closed and the timeout kept |
| FwStatus.AfterTimeout | components/lccore/fwupdate_core.c:104-150 | behind a timeout a packet with a non-zero index is answered Timeout and changes nothing, and an admissible START is accepted |
| FwStatus.AcceptedRestartsWatchdog | components/lccore/fwupdate_core.c:146-213 | every packet that leaves the upload open starts the 2000 ms anew |
| FwStatus.StepStatus | components/lccore/fwupdate_core.c:152-214 | each status of a STEP if and only if its own cause: index, room, length, whole blocks, cipher, flash, in that order |
| FwStatus.FinishStatus | components/lccore/fwupdate_core.c:68-95 | each status of a FINISH if and only if its own cause: length, checksum, image, boot partition |
| FwStatus.IdleStatus | components/lccore/fwupdate_core.c:104-150 | each status of a packet that meets an idle loader, the latched error included |
| FwStatus.StartEffect | components/lccore/fwupdate_core.c:119-150 | an accepted START takes size, checksum and vector from the bytes the format says, and begins an empty image |
| FwStatus.StepEffect | components/lccore/fwupdate_core.c:180-213 | an accepted STEP appends its data, decrypted with the vector carried over |
| FwStatus.RefusedStep | components/lccore/fwupdate_core.c:152-214 | a refused STEP ends the upload, latches no error and flashes nothing; only too many bytes clear the counters |
| FwStatus.RefusedStart | components/lccore/fwupdate_core.c:119-150 | a refused START leaves no upload and no error; the port is closed when it could not be opened for the new image |
| FwStatus.FinishEffect | components/lccore/fwupdate_core.c:68-95 | a FINISH ends the upload; the port is closed and the boot partition set exactly as far as the checks got |
| FwStatus.SessionResetEffect | components/lccore/fwupdate_core.c:56-66 | a session edge ends the upload, clears the loader and closes the port; what is flashed stays |
| FwPack.UploadRoundTrip | tools/fwpack.py:43-49 | what was packed is what is flashed: every packet of every legal division is answered OK, flash holds the 0xFF-padded image, set_boot is called once, on it |
| FwPack.PackBytes | tools/fwpack.py:43-49 | byte for byte: length and checksum of the padded image, vector, ciphertext; padding of 0xFF to the next whole block |
| FwPack.RestOfUpload | components/lccore/fwupdate_core.c:152-214 | the same from any point of an upload under way |
| FwPack.TicksHarmless | components/lccore/fwupdate_core.c:224-233 | watchdog ticks within 2000 ms of the last packet change nothing |
| FwUpdater.FlashPort.Decrypt | main/fwup_port.c:120-124 | in-place decryption of a slice with the chained IV, nothing else overwritten |
| FwUpdater.Updater.SessionReset | components/lccore/fwupdate_core.c:56-66 | port aborted and every field reset |
| FwUpdater.Updater.Finish | components/lccore/fwupdate_core.c:68-95 | length, checksum, end and set_boot in that order |
| FwUpdater.Updater.HandleIdle | components/lccore/fwupdate_core.c:108-150 | START validation order and the new upload |
| FwUpdater.Updater.HandleUpload | components/lccore/fwupdate_core.c:152-214 | STEP and FINISH in the order of the source's checks |
| FwUpdater.Updater.Handle | components/lccore/fwupdate_core.c:97-222 | answer and new state for any packet; only the packet's own bytes may be overwritten |
| FwUpdater.Updater.Tick | components/lccore/fwupdate_core.c:224-233 | an upload stays open if and only if the last accepted packet is at most 2000 ms old, modulo 2^32; else it is idle with the timeout kept |
| Cbc.RoundTrip | main/fwup_port.c:120-124 | CBC decryption undoes encryption for any invertible block cipher |
| Cbc.DecryptBlock | main/fwup_port.c:120-124 | each plaintext block is the deciphered block, exclusive-or the ciphertext block before it, or the vector for the first |
| Cbc.DecryptInPieces | main/fwup_port.c:120-124 | decrypting in pieces with the carried IV is decrypting at once |
| Fletcher32.SplitInvariance | components/lccore/fletcher32.c:22-36 | however the stream is cut into updates, odd and empty pieces included, the context is that of the whole stream |
| Fletcher32.ClosedForm | components/lccore/fletcher32.c:17-50 | the sums are the plain and the weighted word sum modulo 65535 |
| Fletcher32.ChecksumValue | components/lccore/fletcher32.c:17-50 | the checksum of every stream: weighted word sum modulo 65535 in the high half, plain one in the low |
| Fletcher32.WordAt | components/lccore/fletcher32.c:22-36 | the words are two bytes each, low one first |
| Fletcher32.GoldenEight | host_tests/tests/test_fletcher32.c:22 | the value the repository's test expects for eight letters |
| Fletcher32.GoldenFive | host_tests/tests/test_fletcher32.c:18 | and for five, the last one dropped |
| Fletcher32.OneWordChange | components/lccore/fletcher32.c:17-50 | a change of one word goes unnoticed if and only if old and new are congruent modulo 65535 |
| Fletcher32.Context.Feed | components/lccore/fletcher32.c:17-20 | both sums stay below 65535 and the 32-bit arithmetic never wraps |
| Fletcher32.Context.Update | components/lccore/fletcher32.c:22-36 | the update loop with its buffered half word absorbs the bytes |
| Fletcher32.OneShot | components/lccore/fletcher32.c:44-49 | the one-shot form is the streamed one |
| Fletcher32.PackerChecksum | tools/fwpack.py:34-40 | the packer's loop computes the same checksum for every data |
| Capabilities.EmitAppends | components/lccore/capabilities.c:89-115 | any TLV tree emitted with matched begin and end: the result is its encoding appended if and only if it fits 256 bytes, earlier bytes are untouched, and a failure stays |
| Capabilities.ParseInvertsEncode | components/lccore/capabilities.c:89-127 | parsing the bytes returns the same tree |
| Capabilities.EncodeInvertsParse | components/lccore/capabilities.c:89-127 | and no two descriptors parse to the same tree |
| Capabilities.TreeReads | components/lccore/capabilities.c:130-173 | the card's tree fits and reports its counts |
| Capabilities.HeadBytes | components/lccore/capabilities.c:117-126 | byte for byte: kind, zero, inputs, outputs, channel count zero |
| Bytes.Le32 | components/lccore/lc_log.c:82-85 | the lowest byte first, for every value |
| Bytes.Le16 | components/lccore/lc_log.c:186-189 | the low byte first, for every value |
| Capabilities.BuildSucceeds | components/lccore/capabilities.c:130-184 | for all 16-bit counts the builder succeeds and a reader finds exactly the counts, the discrete group only when there are any |
| Capabilities.GatewayReadsCounts | components/lccore/comm_core.c:210-256 | what chunked requests bring back over the wire reads as the counts the card was built with |
| CapsBuild.CapsBuilder.PutU8 | components/lccore/capabilities.c:60-66 | one byte, or a sticky failure at 256 |
| CapsBuild.CapsBuilder.PutBytes | components/lccore/capabilities.c:80-87 | all bytes or none |
| CapsBuild.CapsBuilder.BeginTlv | components/lccore/capabilities.c:90-94 | tag and a zero length; the value offset |
| CapsBuild.CapsBuilder.EndTlv | components/lccore/capabilities.c:96-104 | the length is patched in place |
| CapsBuild.CapsBuilder.BeginGroup | components/lccore/capabilities.c:117-127 | the group header up to and including the label |
| CapsBuild.Init | components/lccore/capabilities.c:130-184 | the calls build exactly the descriptor, for all counts |

## Left out

- Locks: one lock section is one step; the wake-up notifications of the relay task and its `s_bus.lock == NULL` case are not modelled.
- Rs485Task.Task.Pass: the poll timer is an input (did it run out), so nothing is said about how often polls happen.
- FreeRTOS, UART, sockets, select, keepalives, SSDP, HTTP, USB: network and device I/O; UART transfers appear as the bytes received.
- A STATE goes out when the UDP send is said to succeed; latching the UDP host is not modelled beyond `Framing.IsValidPing`.
- HID: its axes and buttons are opaque data (the last accepted SET); the merge under masks, STATE and USB reports are left out, as a simpler copy of the discrete plane; of its STATE frames only the numbers they take are modelled.
- The info blocks, the UID and the floats of ADD_LABEL are opaque bytes; a run of the card goes from a boot to the next JUMP_TO_BOOTLOADER or REBOOT, which boot partition follows is not modelled, nor the blinking behind FIND_ME.
- CommWire.StreamCutsInvisible: assumes that no service runs between the receives and no send fails; without that, CommWire.OneAnswerPerPacket says what remains.
- CommWire.OneAnswerPerPacket: the frames of a log flush and of the joystick loop are any number of UDP frames, and no state of the joystick plane changes in its loop.
- CommCode.CommTask: the null checks on the operations table, the DEVICE_STATUS timer and the accept path are left out; a restart, which does not return, is a flag that ends the input.
- Framing.ChunkInvariance: stated for one connection; a reconnect starts with an empty buffer.
- LogRing.Ring.LogEmit: lines logged while a flush is building its packet skip the ring and are not counted as dropped; conservation is over pushes. Formatting and the console copy are not modelled.
- LogRing.Ring.BuildPacket: the pushes of other tasks come in lists between lock sections.
- FwUpdate.Safety: does not say that the platform boots the image; set_boot is the call, and rollback is the platform's.
- FwUpdater.FlashPort: the flash is the list of bytes accepted since the last begin; erase and sectors are not modelled. AES itself is not modelled.
- FwPack.UploadRoundTrip: a division into empty STEPs is legal for the loader but not covered; the packer's random IV is any block.
- Capabilities.EncodeInvertsParse: the parser is this project's reading of the format, the gateway's own is not part of the repository.
- Rtu.Serve: the slave is one of the standard's public functions 1, 2 and 5; broadcasts, and a slave that is busy or silent, are covered by the arbitrary bytes of the other results.
- Rs485Liveness.ObedientModulesReachTarget: assumes a fixed intent and that the poll timer has always run out; the passes that only wait for it do nothing.
- Fletcher32.PackerStep: one turn of the packer's loop, split off.
- Build tooling, version strings, boot partition handling and identity: string formatting and platform calls.
