# Verified model of the Telink Zigbee firmware's protocol and driver logic

The project models the parts of the firmware that hold real state and arithmetic, and proves what
they are for. Each subsystem has specification functions (one step of the code as a function of the
old state), theorems about them over every input and every run, and classes whose methods follow the
code's loops and assignments and are proved to take exactly those steps.

| subsystem | files |
|---|---|
| firmware update session over UART, A/B boot switch | `OtaSession`, `OtaInvariant`, `OtaSteps`, `OtaRuns`, `OtaProgress`, `OtaStray`, `OtaBoot`, `OtaBootRuns`, `OtaUpdate`, `OtaLate`, `OtaDevice` |
| flash programming in pages | `Flash` |
| Modbus RTU master | `ModbusCrc`, `CrcAlgebra`, `ModbusFrames`, `ModbusPoll` |
| NEC infrared receiver | `NecReceiver` |
| bit-banged I2C transmitter | `I2cMaster` |
| JUNTEK battery monitor input and filter | `JuntekStream`, `BmsFilter` |
| five-channel dimmer and fade engine | `Dimmer`, `DimmerEffects`, `DimmerDevice`, `FadeEngine` |
| trimmed ADC mean | `AdcTrim` |
| bytes, words and lists of bits | `Words` |

`dafny verify dfyconfig.toml` checks everything.

How the pieces are modelled:

- Flash is a sequence of bytes; programming ANDs, erasing sets a sector to 0xFF, one page command
  wraps inside its 256-byte page. Sector size, slot size and addresses, the flag offset and the per-byte
  step of `xcrc32` are parameters (`OtaSession.Layout`); its `Valid` asks for aligned, disjoint slots, a
  flag word inside the first 40 bytes, and flash behind the second slot.
- `mcuBootAddrGet`, `ota_newImageValid` and `xcrc32` are modelled after the SDK sources in the repository
  (`zigbee/ota/ota.c`, `proj/common/utility.c`).
- The handler of block responses does not look at `otaProcessStart`, so the runs have them at any time, in
  a session or not.
- The Modbus checksum register is the list of its 16 bits, so the bytes travel least significant bit first
  as on the wire (MODBUS over Serial Line V1.02, section 6.2.2). Measured values are the raw register
  integers.
- The NEC word is 32 bits, least significant first; the clock is a 32-bit counter of 16 ticks per
  microsecond. The announcement and delivery lists of `NecReceiver.State` are history variables.
- The I2C slave acknowledges each byte or not as a function of its index, and reacts to clock edges only.
- The JUNTEK values and the filter are over exact real numbers.
- Timers are armed or not, with their callback; scheduling succeeds.

Where the code does something other than its comments or callers suggest:

- A firmware block that overshoots the file far enough makes the failing end erase into the next slot
  (zbhci/zbhciCmdProcess.c:1070-1074). `OtaBootRuns.OvershootDecides` gives the exact condition; blocks of
  the requested length never meet it, and no block does where the slots are a block apart
  (`OtaBootRuns.GapSpares`).
- A block response that comes after its session has ended is taken all the same (zbhci/zbhciCmdProcess.c:1196-1275):
  the zero record points at address 0. On a device that runs from the first slot an error response, or a
  late repeat of the first block, erases the running image; `OtaLate.StrayDecides` is the exact condition. It
  also cancels a reboot that is due (`OtaLate.LateRepeatUndoes`).
- A start request refused as too large leaves its size in the record, so that a block for offset 0 then starts
  the retry timer for a session that is not open (`OtaStray.RefusedStartArms`).
- The SDK's image check accepts headers whose size puts the checksum word outside the slot or over the flag
  byte (zigbee/ota/ota.c:151-191). Exactly these images do not survive a change of that byte or of the rest
  of the chip (`OtaBoot.SurvivalIsExact`); the reboot handler switches to one all the same
  (`OtaBoot.RebootDecides`).
- An empty block at the current offset counts as progress, so a host that sends nothing else is asked for
  ever (`OtaProgress.StallsForEver`); what an empty block buys is five more events
  (`OtaProgress.EventsAreBounded`).
- If a local block ends exactly at the flag offset, the code compares and patches the byte behind the block
  in the receive buffer; the model does the same.
- The NEC check accepts a frame when the address half or the command half passes, not only when both do
  (`NecReceiver.AcceptedBits`).
- A tick that finds the poll idle does not empty the receive buffer, so an answer from before the request is
  taken for the first one (`ModbusPoll.OnlyFirstIsEarly`).
- The rate limits compare with the last output, which a rejected sample does not move: a lasting jump is never
  followed (`BmsFilter.JumpSilences`).
- The time-out poll of the Modbus master ignores a request sent at clock value zero
  (`ModbusPoll.SilenceTimesOut`).

## Model

| member | source | states |
|---|---|---|
| OtaDevice.Device.BlockResponse | zbhci/zbhciCmdProcess.c:1196-1278 | the block handler, with the receive buffer patched in place, takes exactly the step `BlockStep` that the session theorems are about |
| OtaDevice.Device.LocalBlockResponse | zbhci/zbhciCmdProcess.c:1212-1235 | the local branch: checksum over the right part of the block, flag byte looked at and erased in the buffer |
| OtaDevice.Device.ScanBootFlag | zbhci/zbhciCmdProcess.c:1236-1255 | the byte loop over a remote block leaves the start-up word's known bytes and stops with a match exactly when the word is complete and equal |
| OtaDevice.Device.StoreBlock | zbhci/zbhciCmdProcess.c:1257-1275 | storing a block and choosing between next block, end and failure |
| OtaDevice.Device.FinalTest | zbhci/zbhciCmdProcess.c:1262-1272 | the last word read back equals the running checksum and the flag word is the start-up word with its first byte erased; only then the reboot is scheduled |
| OtaDevice.Device.StartRequest | zbhci/zbhciCmdProcess.c:1153-1194 | every branch of the start request: in progress, no boot address, oversize, opened |
| OtaDevice.Device.OpenSession | zbhci/zbhciCmdProcess.c:1167-1186 | opening a session erases file size / sector size + 1 sectors and fills in the record |
| OtaDevice.Device.SendOtaEnd | zbhci/zbhciCmdProcess.c:1058-1084 | the end message is sent, the written sectors are erased unless all went well, the record is all zero; the image-info reload after a remote file is left out |
| OtaDevice.Device.EraseFor | zbhci/zbhciCmdProcess.c:1071-1074 | the erase loop is `EraseRun` over offset / sector size + 1 sectors |
| OtaDevice.Device.BlockTimer | zbhci/zbhciCmdProcess.c:1086-1096 | the retry callback asks again or gives up, and reschedules itself exactly while fewer than five requests were counted |
| OtaDevice.Device.RebootDelay | zbhci/zbhciCmdProcess.c:1098-1137 | the reboot callback: the new flag is written and read back before the old one is cleared; a reset happens only then |
| OtaDevice.Device.Crc32 | proj/common/utility.c:82-90 | the checksum loop is the fold of the per-byte step over the first `len` bytes |
| OtaSteps.BlockFollows | zbhci/zbhciCmdProcess.c:1196-1278 | whatever block response arrives, in any state of an open session, what follows is decided by the bytes the host has sent so far: stored and carried on, refused, ended well or ended clean, with the right status |
| OtaSteps.CrcAdvances | zbhci/zbhciCmdProcess.c:1213-1222 | the running checksum is the fold over the first min(offset, total - 4) bytes received, whatever the block lengths |
| OtaSteps.RemoteLearns | zbhci/zbhciCmdProcess.c:1237-1256 | the remote branch refuses exactly when the four bytes at the flag offset are the start-up word, even if they come in several blocks |
| OtaSteps.BlockIsStored | zbhci/zbhciCmdProcess.c:1257-1258 | a block lands behind what is stored, with the flag byte of a local file left erased |
| OtaSteps.FinalTestIsExact | zbhci/zbhciCmdProcess.c:1139-1145 | the device's final test on flash holds exactly for files that carry the start-up word and whose last word is the checksum of the rest |
| OtaSteps.AcceptFinishes | zbhci/zbhciCmdProcess.c:1262-1272 | the last block: success exactly for a sound local file, otherwise the slot is swept |
| OtaSteps.AcceptOvershoots | zbhci/zbhciCmdProcess.c:1273-1275 | a block that runs over the end: failure, and every byte erased or written reads 0xFF |
| OtaSteps.FailureSweeps | zbhci/zbhciCmdProcess.c:1058-1084 | any bad end leaves the region erased, the record zero, no timer |
| OtaSteps.StartOpens | zbhci/zbhciCmdProcess.c:1156-1189 | a start request opens a session on the other slot with nothing stored, and the invariant holds |
| OtaSteps.StartAnswers | zbhci/zbhciCmdProcess.c:1153-1194 | each of the four answers to a start request with its exact condition, in the bytes of the flag words, and everything it leaves: in progress, no boot address, oversize with start and size kept, or opened with the whole new record |
| OtaSteps.BootAddrIs | zigbee/ota/ota.c:118-149 | which slot boots, in the four bytes at each flag offset |
| OtaSteps.RetryFollows | zbhci/zbhciCmdProcess.c:1042-1056 | a retry tick asks for the block at the current offset, 40 bytes or what is left, or ends the session clean after five requests |
| OtaInvariant.EndSweeps | zbhci/zbhciCmdProcess.c:1070-1074 | which bytes a failing end erases, byte by byte, and that it touches no others |
| OtaInvariant.EndErases | zbhci/zbhciCmdProcess.c:1070-1074 | after a bad end the whole erased-or-written region reads 0xFF |
| OtaStray.StrayArms | zbhci/zbhciCmdProcess.c:1196-1278 | a block with no session open opens none, and it arms the retry timer if and only if the record still holds the size of a start request refused as too large and the block is a good one for offset 0, shorter than that size and without the start-up word in its place; every other block leaves the record zero and no timer, or is ignored |
| OtaStray.RefusedStartArms | zbhci/zbhciCmdProcess.c:1153-1278 | from the refused start request to that block: requests then go out for a session that is not open, under exactly this condition |
| OtaStray.StraySweeps | zbhci/zbhciCmdProcess.c:1196-1278 | with a zero record a block that is refused or stored erases the sectors it reaches from address 0 and nothing else, byte by byte |
| OtaRuns.RunKeeps | zbhci/zbhciCmdProcess.c:1042-1278 | the session invariant holds after every run of starts, blocks and ticks, with blocks at any time, in a session or not, up to one that `OtaStray.Arms` describes |
| OtaRuns.TimerTellsSession | zbhci/zbhciCmdProcess.c:1086-1137 | after every run a session is open exactly while the retry timer is armed, and the next event, whatever it is, keeps it so if and only if it is not a block that `OtaStray.Arms` describes |
| OtaRuns.StopAndWait | zbhci/zbhciCmdProcess.c:1042-1278 | over a channel that drops, repeats, delays and reorders answers, flash holds at every moment exactly the prefix of the file with the flag byte replaced by 0xFF |
| OtaRuns.ServingStep | zbhci/zbhciCmdProcess.c:1196-1278 | such a session reports success only with the whole file stored and sound |
| OtaRuns.SoundFileArrives | zbhci/zbhciCmdProcess.c:1042-1278 | if every request is answered a sound file is delivered after exactly as many rounds as it has 40-byte blocks |
| OtaProgress.EffectiveEventsDecrease | zbhci/zbhciCmdProcess.c:1086-1096 | bytes left, then requests left, decrease lexicographically on every accepted non-empty block and every retry tick |
| OtaProgress.EventsAreBounded | zbhci/zbhciCmdProcess.c:1042-1278 | every run, empty blocks included: a session that stays open has seen at most as many non-empty blocks and retry ticks as its budget (six per missing byte and the requests left), and five more for every empty block it has taken |
| OtaProgress.SessionsTerminate | zbhci/zbhciCmdProcess.c:1042-1278 | so without empty blocks no run keeps a session open for ever |
| OtaProgress.StallsForEver | zbhci/zbhciCmdProcess.c:1257-1261 | and with them there is one of every length: after any number of requests answered with an empty block the session is open at the same offset, flash as it was, every tick counted |
| OtaProgress.SilentHostTimesOut | zbhci/zbhciCmdProcess.c:1086-1096 | a silent host is asked for the same block exactly until five requests have gone out, and then the session ends with the time-out status |
| OtaProgress.AtMostFiveRequests | zbhci/zbhciCmdProcess.c:1086-1096 | over every run in which no block for the current offset arrives, whatever stale or repeated blocks and start requests do, the requests sent are exactly the growth of the request count, which is at most five |
| OtaProgress.EmptyBlocksStall | zbhci/zbhciCmdProcess.c:1257-1261 | an empty block at the current offset, local or remote file, only restarts the request count; it ends the session exactly where a local file's flag byte is looked at and the byte behind the block is another one |
| OtaProgress.PartitionDoesNotMatter | zbhci/zbhciCmdProcess.c:1213-1222 | two ways of cutting the same bytes into blocks, of a local or a remote file, give the same bytes in the slot, the same offset, and the same checksum or recognition of the start-up word |
| OtaBoot.SurvivalIsExact | zigbee/ota/ota.c:151-191 | an image the device's check accepts stays accepted under every change of its flag byte and of the rest of the chip if and only if its checksum word lies in the slot and does not contain the flag byte |
| OtaBoot.OpenIsSafe | zbhci/zbhciCmdProcess.c:1042-1278 | through every event of an open session, refused blocks of any length included, and in the middle of every flash operation, the running slot boots |
| OtaBoot.StrayIsSafe | zbhci/zbhciCmdProcess.c:1196-1278 | a block with no session open keeps the chip bootable, in the middle of every flash operation too, if it touches nothing, or the record does not point at the running slot and the block neither reaches it nor makes a start-up word of what slot 0 holds |
| OtaBoot.StartIsSafe | zbhci/zbhciCmdProcess.c:1153-1194 | opening a session erases only the other slot |
| OtaBoot.RebootIsSafe | zbhci/zbhciCmdProcess.c:1098-1137 | the reboot keeps a bootable image throughout; when the switch completes only the new slot carries the start-up word |
| OtaBoot.ImageValidIs | zigbee/ota/ota.c:151-191 | what the SDK check accepts, in slices of the slot: size, three flag bytes, checksum from 0xFFFFFFFF on over all but the last four bytes with the flag byte taken as 0x4B, against those four |
| OtaBoot.RebootIs | zbhci/zbhciCmdProcess.c:1098-1137 | the reboot handler in full, in three cases: nothing changes; only the new flag byte does and nothing else happens; or it becomes 0x4B, the old one is cleared and the record is zero |
| OtaBoot.FlagBytesDecide | zigbee/ota/ota.c:151-191 | with the two flag bytes changed at most, an accepted image of any size stays accepted if and only if every flag byte its checksum word contains is as it was |
| OtaBoot.RebootDecides | zbhci/zbhciCmdProcess.c:1098-1137 | for every checksum function and every image the reboot switches to: what boots then is a valid image if and only if its checksum word is clear of its flag byte or that byte was set already |
| OtaBootRuns.AlwaysBoots | zbhci/zbhciCmdProcess.c:1042-1278 | over whole runs of sessions, blocks outside sessions and reboots there is always a slot that boots and holds a complete image, even if power fails during any flash operation; each kind of block and the image switched to meet the condition under Left out |
| OtaBootRuns.BootStep | zbhci/zbhciCmdProcess.c:1042-1278 | one event keeps the chip bootable, under the same conditions, and no event but the reboot changes the slot it boots from |
| OtaBootRuns.RunningSlotUntouched | zbhci/zbhciCmdProcess.c:1042-1278 | no event of an open session changes a byte of the running slot, unless it stores a block that reaches it |
| OtaBootRuns.OpenOutside | zbhci/zbhciCmdProcess.c:1070-1074 | an event of an open session changes no byte outside the sectors of what it stores |
| OtaBootRuns.RequestedBlocksSpare | zbhci/zbhciCmdProcess.c:1042-1056 | blocks of the requested length never reach the running slot |
| OtaBootRuns.GapSpares | proj/drivers/drv_nv.h:218-228 | no block at all reaches it if the slots are 255 bytes further apart than an image can be long, as in the 512k flash map (images up to 0x34000, second slot at 0x40000); in the 1M map they touch |
| OtaBootRuns.OvershootDecides | zbhci/zbhciCmdProcess.c:1273-1275 | while slot 0 is written, a block at the current offset leaves a bootable chip if and only if it is refused or ends before the running slot |
| OtaBootRuns.OvershootCanBrick | zbhci/zbhciCmdProcess.c:1070-1074 | a 128-byte block for a 127-byte file, on a concrete layout and chip, after which no slot boots |
| OtaBootRuns.ChecksumOverFlagBricks | zbhci/zbhciCmdProcess.c:1098-1137 | a witness for `OtaBoot.RebootDecides`, with a constant checksum function: the reboot handler accepts an image of 12 bytes and switches, and what boots then is no valid image |
| OtaBootRuns.NewImageTakesOver | zbhci/zbhciCmdProcess.c:1098-1137 | after the last block of a sound image the next timer tick makes it the one that boots and the old one loses its flag |
| OtaBootRuns.StoredImageIsValid | zigbee/ota/ota.c:151-191 | a delivered image with its length in the header passes the SDK's own image check, and its flag byte can still be set |
| OtaUpdate.UpdateInstalls | zbhci/zbhciCmdProcess.c:1042-1278 | end to end: from any bootable device without an open session, with a host that answers every request, an image is delivered in exactly ceil(size / 40) rounds, and at the next tick of the reboot timer the device boots it from the other slot and the old slot no longer carries the start-up word |
| OtaUpdate.RoundBoots | zbhci/zbhciCmdProcess.c:1042-1278 | one round of asking and answering either moves on by 40 bytes, with the chip bootable throughout, or completes the update |
| OtaUpdate.SmallUpdate | zbhci/zbhciCmdProcess.c:1098-1137 | a concrete chip and image for which all of this happens: it runs from its second slot and ends up running from its first |
| OtaLate.StrayDecides | zbhci/zbhciCmdProcess.c:1196-1278 | with a zero record a block response leaves a chip that boots if and only if it touches nothing, or the second slot can boot and is not reached: harmless to a device that runs from the second slot, and otherwise an error response, or any block for offset 0, erases the running image |
| OtaLate.LateRepeatUndoes | zbhci/zbhciCmdProcess.c:1196-1278 | a late repeat of the host's own first block, after a file has been delivered and reported as a success, cancels the reboot and erases the start of slot 0: the new image if it was there, and otherwise the running one, after which nothing boots |
| OtaLate.UpdateUndone | zbhci/zbhciCmdProcess.c:1042-1278 | end to end on a device that runs from its first slot: the same update, and a repeat of its first answer before the reboot tick |
| OtaLate.SmallUpdateUndone | zbhci/zbhciCmdProcess.c:1042-1278 | a concrete chip and image for which this happens |
| Flash.FlashDevice.WritePage | platform/chip_8258/flash.c:240-255 | the page-splitting loop programs exactly the bytes [addr, addr + len); if the voltage before one of its commands aborts it, exactly a prefix that ends at a page boundary |
| Flash.FlashDevice.MspiWrite | platform/chip_8258/flash.c:144-177 | one page command: on the guarded chips refused without effect unless the voltage is above the working one and its fluctuation below 500 mV, otherwise programmed with the address wrapping inside the page |
| Flash.ProgrammingClears | platform/chip_8258/flash.c:240-255 | bit by bit: programming clears the bits written as zeros and nothing else |
| Flash.PageCommandWrites | platform/chip_8258/flash.c:144-177 | which byte of the page the d-th byte of a command goes to, and that nothing else changes |
| Flash.WithinPageIsFlat | platform/chip_8258/flash.c:144-177 | a command that stays in its page programs byte for byte |
| Flash.CrossingWraps | platform/chip_8258/flash.c:240-255 | a single command across a page boundary damages the start of the page instead: splitting is needed |
| Flash.FlashDevice.WriteWithCheck | proj/drivers/drv_flash.c:195-227 | on a low battery nothing is written and failure reported; otherwise the read-back loop in pieces of 48 bytes reports success exactly if flash equals the data |
| ModbusCrc.Crc16 | apps/epeverMonitor/epeverMonitor.c:126-139 | the byte-and-bit loop computes the bit-serial shift register over the frame |
| CrcAlgebra.CrcIsRemainder | apps/epeverMonitor/epeverMonitor.c:126-139 | the register is the remainder of a polynomial division over GF(2), with an explicit quotient |
| CrcAlgebra.RemainderIsUnique | apps/epeverMonitor/epeverMonitor.c:126-139 | no other value of the register's size is a remainder |
| CrcAlgebra.PassesIffZeroResidue | apps/epeverMonitor/epeverMonitor.c:165-226 | the validators' test holds exactly when running over the frame with its checksum leaves the zero register |
| CrcAlgebra.BurstIsCaught | apps/epeverMonitor/epeverMonitor.c:126-139 | two different frames that agree outside sixteen consecutive bits of the wire never both pass |
| CrcAlgebra.AdjacentBytesAreCaught | apps/epeverMonitor/epeverMonitor.c:165-226 | in particular two frames that differ only within two adjacent bytes, checksum included |
| CrcAlgebra.PassingIsEven | apps/epeverMonitor/epeverMonitor.c:165-226 | every frame that passes has an even number of ones on the wire |
| CrcAlgebra.OddErrorsAreCaught | apps/epeverMonitor/epeverMonitor.c:165-226 | two frames whose wires differ in an odd number of bits, wherever, never both pass |
| ModbusFrames.BuildRequest | apps/epeverMonitor/epeverMonitor.c:145-157 | the request buffer holds id, function, address and count big-endian and the checksum low byte first, and nothing else is written |
| ModbusFrames.SealedPasses | apps/epeverMonitor/epeverMonitor.c:145-157 | every frame built passes the receiver's test and has residue zero |
| ModbusFrames.RequestLayout | apps/epeverMonitor/epeverMonitor.c:145-157 | where id, function, address and count are, high bytes first |
| ModbusFrames.ResponseLayout | apps/epeverMonitor/epeverMonitor.c:162-226 | where everything is in an answer, registers high byte first |
| ModbusFrames.SegmentsShow | apps/epeverMonitor/epeverMonitor.c:165-226 | which register becomes which field: solar voltage, current and power from 0x3100, battery voltage, current and charging power from 0x3104, the load from 0x310C, the temperatures from 0x3110, the state of charge from 0x311A, powers low word first; each segment leaves the other fields alone |
| ModbusFrames.RequestsAreDistinct | apps/epeverMonitor/epeverMonitor.c:145-157 | different requests are different frames |
| ModbusFrames.AcceptedIsResponse | apps/epeverMonitor/epeverMonitor.c:165-226 | a parser accepts a buffer if and only if it starts with the protocol's answer that carries exactly the registers read from it |
| ModbusFrames.ResponseReads | apps/epeverMonitor/epeverMonitor.c:162-226 | the registers of an answer are read back as sent, whatever follows in the buffer |
| ModbusFrames.CheckResponse | apps/epeverMonitor/epeverMonitor.c:165-175 | the shared tests of the parsers |
| ModbusFrames.ParseRsp1 | apps/epeverMonitor/epeverMonitor.c:165-186 | segment 1 fills its six fields from eight registers, or changes nothing |
| ModbusFrames.ParseRsp2 | apps/epeverMonitor/epeverMonitor.c:189-208 | segment 2 fills its five fields from six registers, or changes nothing |
| ModbusFrames.ParseRsp3 | apps/epeverMonitor/epeverMonitor.c:211-226 | segment 3 sets the charge and marks the record valid, or changes nothing |
| ModbusPoll.ConsistentSnapshots | apps/epeverMonitor/epeverMonitor.c:392-586 | in every interleaving after start-up: idle and three waiting states only, at most three requests in order and one record per tick, and a record is published only from exactly three frames taken since the tick, each in time and valid, and shows register by register what their bytes say |
| ModbusPoll.StepKeeps | apps/epeverMonitor/epeverMonitor.c:392-586 | one event keeps the poll invariant and publishes nothing but such a snapshot |
| ModbusPoll.RequestsAre | apps/epeverMonitor/epeverMonitor.c:392-427 | the three requests, byte by byte |
| ModbusPoll.TickStarts | apps/epeverMonitor/epeverMonitor.c:411-427 | what a tick does in any state |
| ModbusPoll.OtherFrames | apps/epeverMonitor/epeverMonitor.c:440-586 | what becomes of any frame that is polled, by its true age: dropped when idle; dropped and the cycle given up from 501 ms on, with a bad length or as no valid answer; otherwise on to the next request or the record |
| ModbusPoll.OnlyFirstIsEarly | apps/epeverMonitor/epeverMonitor.c:411-530 | in every interleaving: a frame taken in a cycle arrived before its request if and only if it is the first of the cycle, the tick found the poll idle with it in the buffer, and no other frame came in its place |
| ModbusPoll.EarlyAnswerIsPublished | apps/epeverMonitor/epeverMonitor.c:411-530 | and then its registers are published with those of the two answers that follow |
| ModbusPoll.CycleCompletes | apps/epeverMonitor/epeverMonitor.c:411-427 | from any state a tick and three good answers in time publish exactly the slave's registers, each in its field |
| ModbusPoll.GoodAnswer | apps/epeverMonitor/epeverMonitor.c:532-586 | a good answer in time moves each waiting state on |
| ModbusPoll.SilenceTimesOut | apps/epeverMonitor/epeverMonitor.c:690-717 | with true times less than one clock turn apart, silence is given up exactly from 501 ms on, and never if the request left at clock zero |
| ModbusPoll.Monitor.UartRxPoll | apps/epeverMonitor/epeverMonitor.c:440-530 | the receive poll up to the frame: time-out, idle, taken |
| ModbusPoll.Monitor.TakeAnswer | apps/epeverMonitor/epeverMonitor.c:503-586 | length, error reply, parse, next request, publish |
| ModbusPoll.Monitor.PollTimer | apps/epeverMonitor/epeverMonitor.c:411-427 | the poll tick forces idle and starts a cycle with an empty record |
| ModbusPoll.Monitor.SendReq | apps/epeverMonitor/epeverMonitor.c:392-406 | a request frame goes out and the time is taken |
| ModbusPoll.Monitor.ModbusTimeoutPoll | apps/epeverMonitor/epeverMonitor.c:690-717 | the time-out poll |
| NecReceiver.FrameRoundTrip | apps/pwm5ch/ir_recv.c:93-196 | every 32-bit word sent with any pulse widths inside the windows, at any time of the wrapping clock and with any polls in between, is received LSB first; it is announced exactly when the complement check holds, and the receiver is idle again |
| NecReceiver.OnlyFramesAreAnnounced | apps/pwm5ch/ir_recv.c:93-196 | after start-up nothing is announced but at the edge that completes a frame with all widths in their windows, or a repeat |
| NecReceiver.AnnouncementsAreJustified | apps/pwm5ch/ir_recv.c:109-195 | the same for one event, with what an observer of the widths knows |
| NecReceiver.ByteIs | apps/pwm5ch/ir_recv.c:168-171 | the bytes of the word, least significant bit first |
| NecReceiver.PollTimesOut | apps/pwm5ch/ir_recv.c:223-238 | a poll at a true distance of at least 30001 microseconds, and less than a turn of the clock, from the last edge leaves the receiver idle and armed for a falling edge in any phase; an earlier one leaves the frame alone; either way what is pending is delivered once |
| NecReceiver.GetCmdDelivers | apps/pwm5ch/ir_recv.c:243-248 | a call for the command takes what is pending, once, and changes nothing else |
| NecReceiver.NextFrameIsReceived | apps/pwm5ch/ir_recv.c:93-238 | after any run of edges and any broken-off frame, such a poll and then a frame: the frame is received as from rest |
| NecReceiver.BadPulseResets | apps/pwm5ch/ir_recv.c:93-196 | a pulse outside its windows ends the frame at once |
| NecReceiver.RepeatRoundTrip | apps/pwm5ch/ir_recv.c:131-141 | a repeat frame announces the last command again exactly if there was one |
| NecReceiver.DeliveriesAreAnnounced | apps/pwm5ch/ir_recv.c:201-248 | over every run: deliveries are a subsequence of announcements, every repeat repeats the announcement before it, the armed edge is the one waited for, no bit at or above the count is set |
| NecReceiver.StepKeeps | apps/pwm5ch/ir_recv.c:93-248 | one event keeps these invariants |
| NecReceiver.ClockWraps | apps/pwm5ch/ir_recv.c:104-107 | the two-branch difference is the true distance however often the clock has wrapped |
| NecReceiver.PollsOnlyDeliver | apps/pwm5ch/ir_recv.c:223-238 | a poll inside a pulse delivers what is pending and disturbs nothing |
| NecReceiver.AcceptedBits | apps/pwm5ch/ir_recv.c:173-178 | the check holds exactly if no address bit is repeated uninverted or all command bits are inverted: either half is enough |
| NecReceiver.Receiver.GpioIrq | apps/pwm5ch/ir_recv.c:93-196 | the interrupt handler |
| NecReceiver.Receiver.EndOfBit | apps/pwm5ch/ir_recv.c:161-193 | the bit decision and the end of the frame |
| NecReceiver.Receiver.Poll | apps/pwm5ch/ir_recv.c:223-238 | the poll: time-out, and at most one delivery |
| NecReceiver.Receiver.TakeCmd | apps/pwm5ch/ir_recv.c:243-248 | the polled form of delivery |
| I2cMaster.TransferHeard | apps/pwm5ch/i2c_sw.c:69-78 | for every address, buffer and pattern of acknowledgements a listener on the lines hears START, the address byte, the bytes up to and including the first one not acknowledged, STOP, and nothing else; the master itself changes SDA under a high clock only for those two, even where the slave hides it; the bus ends idle; the result is success exactly if all was acknowledged |
| I2cMaster.ByteHeard | apps/pwm5ch/i2c_sw.c:51-66 | one byte and its acknowledgement, as heard and as read by the master |
| Words.ByteIsItsBits | apps/pwm5ch/i2c_sw.c:53-54 | a byte is the sum of the powers of two its bits stand for |
| I2cMaster.StartHeard | apps/pwm5ch/i2c_sw.c:35-41 | START is heard once |
| I2cMaster.StopHeard | apps/pwm5ch/i2c_sw.c:43-48 | STOP is heard once and the half-clocked bit before it is dropped |
| I2cMaster.OutgoingEndsAtNack | apps/pwm5ch/i2c_sw.c:69-78 | which byte is the last to go out |
| I2cMaster.Master.Write | apps/pwm5ch/i2c_sw.c:69-78 | the byte loop with its early exits |
| I2cMaster.Master.Byte | apps/pwm5ch/i2c_sw.c:51-66 | the bit loop, most significant bit first, and the acknowledgement |
| JuntekStream.StreamIsRead | apps/juntekBMS/juntekMonitor.c:369-418 | lines of at least thirteen numbers cut into packets of 1 to 124 bytes in any way give exactly their records in order, each field by field what its line says |
| JuntekStream.LinesAreFed | apps/juntekBMS/juntekMonitor.c:384-414 | any lines, long or short, valid or not, are parsed one after the other |
| JuntekStream.LineIsKept | apps/juntekBMS/juntekMonitor.c:408-413 | up to 199 characters nothing is lost; from then on each 200 characters are dropped |
| JuntekStream.PacketTaken | apps/juntekBMS/juntekMonitor.c:369-382 | a packet is taken if its length is 1 to 124 and ignored otherwise |
| JuntekStream.PacketsDoNotMatter | apps/juntekBMS/juntekMonitor.c:369-418 | packet boundaries do not matter |
| JuntekStream.LineIsParsed | apps/juntekBMS/juntekMonitor.c:147-214 | every line with a colon, an equals sign behind it and fields is read if and only if the command starts with :r50 once slashes are dropped and there are at least thirteen fields, as what the first 19 characters of each field stand for |
| JuntekStream.HeadlessIsIgnored | apps/juntekBMS/juntekMonitor.c:150-160 | without a colon, or an equals sign behind it, nothing is read |
| JuntekStream.SlashesGo | apps/juntekBMS/juntekMonitor.c:162-168 | slashes in the command are dropped wherever they are |
| JuntekStream.NumberIsRead | apps/juntekBMS/juntekMonitor.c:110-129 | what the number reader makes of blanks, a sign or none, digits and anything behind them, cut off at the 32-bit limits |
| JuntekStream.LineIsRead | apps/juntekBMS/juntekMonitor.c:147-214 | a line of thirteen or more numbers is read back field by field: voltage and current in hundredths, the current negative unless the relay is at least 1, charge in thousandths, temperature less 100, minutes, and the power |
| JuntekStream.JoinedAreTokens | apps/juntekBMS/juntekMonitor.c:174-198 | the tokens are the fields, each cut to 19 characters, the first seventeen |
| JuntekStream.FieldIsRead | apps/juntekBMS/juntekMonitor.c:110-129 | every decimal number within 32 bits, signed or not, is read as its value |
| JuntekStream.DecimalIsField | apps/juntekBMS/juntekMonitor.c:110-129 | every such value can be written as a field |
| JuntekStream.ParseInt | apps/juntekBMS/juntekMonitor.c:110-129 | the hand-written number reader |
| JuntekStream.SplitTokens | apps/juntekBMS/juntekMonitor.c:174-198 | the token loop with its limits of 17 tokens and 19 characters |
| JuntekStream.CopyCommand | apps/juntekBMS/juntekMonitor.c:162-172 | the command without slashes |
| JuntekStream.ParseR50 | apps/juntekBMS/juntekMonitor.c:147-214 | the line parser |
| JuntekStream.LineReader.PutByte | apps/juntekBMS/juntekMonitor.c:387-414 | one byte into the line buffer |
| JuntekStream.LineReader.Poll | apps/juntekBMS/juntekMonitor.c:369-423 | one packet |
| BmsFilter.RunIsWindow | apps/juntekBMS/juntekMonitor.c:266-339 | over any run with a fixed configuration the four rings stay in lockstep and the k-th published record is the mean of the last min(k, 4) accepted samples |
| BmsFilter.StreamIsSmoothed | apps/juntekBMS/juntekMonitor.c:344-418 | from packets on the serial line to published records: what is smoothed is exactly the records of the lines, in order |
| BmsFilter.SampleFollows | apps/juntekBMS/juntekMonitor.c:282-339 | a rejected sample changes nothing; an accepted one publishes the mean |
| BmsFilter.SilentIff | apps/juntekBMS/juntekMonitor.c:282-339 | after any run, further samples publish nothing, however many there are, if and only if none of them would be accepted as the next one |
| BmsFilter.JumpSilences | apps/juntekBMS/juntekMonitor.c:305-318 | so a lasting jump of the voltage by more than its rate limit silences the filter for good |
| BmsFilter.AverageIsMean | apps/juntekBMS/juntekMonitor.c:266-276 | the ring and its average refine a window over all samples |
| BmsFilter.PublishedInRange | apps/juntekBMS/juntekMonitor.c:286-303 | the voltage, current and temperature of everything ever published lie between their configured limits, the charge between zero and its own |
| BmsFilter.PublishedIff | apps/juntekBMS/juntekMonitor.c:282-339 | a sample is published if and only if its four values lie in their ranges and, once something has been published, three of them within their rates of the last published record |
| BmsFilter.SmoothedIs | apps/juntekBMS/juntekMonitor.c:318-337 | the published record in numbers: the averages of one, two, three or the last four samples, the power of the averages, relay and minutes of the last sample |
| BmsFilter.FillMovesSlowly | apps/juntekBMS/juntekMonitor.c:305-318 | the k-th accepted sample during fill moves a rate-limited output by at most rate/k |
| BmsFilter.MeanMoves | apps/juntekBMS/juntekMonitor.c:266-276 | how far a sample moves the mean, during fill and after |
| BmsFilter.FullWindowMoves | apps/juntekBMS/juntekMonitor.c:266-318 | once the window is full a rate-limited output moves by at most rate/4 if and only if the new sample lies within the rate of the one that leaves the window |
| BmsFilter.FullWindowMovesFaster | apps/juntekBMS/juntekMonitor.c:282-339 | which the rate limit does not ask for: of five readings, all accepted, the fifth moves the published voltage by half the rate |
| BmsFilter.MovingAverage.Average | apps/juntekBMS/juntekMonitor.c:266-276 | the ring update and the summing loop |
| BmsFilter.Bms.ApplyFilter | apps/juntekBMS/juntekMonitor.c:282-339 | all checks in order, then the four averages |
| Dimmer.LevelsStayInRange | apps/pwm5ch/zcl_pwm5chCb.c:140-422 | over all runs of commands, timers, infrared keys and power cycles no level exceeds 254, no duty the period, and a stopped fade timer means all channels have arrived |
| Dimmer.StepKeeps | apps/pwm5ch/zcl_pwm5chCb.c:140-422 | one event keeps these bounds, in RAM and in storage |
| Dimmer.MoveToLevelArrives | apps/pwm5ch/zcl_pwm5chCb.c:286-373 | from the command to the arrival: the clamped level is reached with exactly as many callbacks as there are levels between, one level with each, and the last of them comes within (T - diff, T] after the command if 10 ms per level and 16 bits are enough, at 10 ms per level if T is shorter |
| Dimmer.RampArrives | apps/pwm5ch/zcl_pwm5chCb.c:286-309 | the same for a ramp already running: one level per callback straight to its target and stops after exactly as many callbacks as there are levels between |
| Dimmer.RampTime | apps/pwm5ch/zcl_pwm5chCb.c:330-333 | the step time a command sets, and so the total |
| Dimmer.MoveArrives | apps/pwm5ch/zcl_pwm5chCb.c:204-243 | an undisturbed Move stops at 254 or at 1, and downward with On/Off switches off there |
| Dimmer.MoveEnds | apps/pwm5ch/zcl_pwm5chCb.c:204-243 | from any level to the stop: armed until then, one callback per level or a single one if the Move begins at its end; off after a downward Move with On/Off, on after an upward one that has moved |
| Dimmer.CombinedInRange | apps/pwm5ch/pwm5ch_ctrl.c:97-98 | a channel dimmed by the master stays in range and never brighter than its own level |
| DimmerEffects.OnOffCommands | apps/pwm5ch/zcl_pwm5chCb.c:140-181 | what Off, On and Toggle make of onOff and the level, what they store, what they show, and that nothing else changes |
| DimmerEffects.OffDarkens | apps/pwm5ch/zcl_pwm5chCb.c:140-181 | after Off the channel's target is zero at once and its duty after at most a hundred undisturbed callbacks; the other outputs keep their targets |
| DimmerEffects.OnLights | apps/pwm5ch/zcl_pwm5chCb.c:140-181 | after On target and duty are within half a tick of level * 2000 / 254 |
| DimmerEffects.MasterCommands | apps/pwm5ch/pwm5ch_ctrl.c:83-103 | after Off, On and Toggle for the master every output is dark if its channel or the master is off, and otherwise goes to the product of the levels |
| DimmerEffects.LitIsOne | apps/pwm5ch/pwm5ch_ctrl.c:83-103 | a level leaves only one duty |
| DimmerEffects.ApplyDisplays | apps/pwm5ch/pwm5ch_ctrl.c:83-103 | what pwm_hw_apply sets, as nearest ticks |
| DimmerEffects.FadeTickMoves | apps/pwm5ch/pwm5ch_ctrl.c:45-71 | one callback moves every duty by up to 20 ticks, and the timer stops exactly if all had arrived |
| DimmerEffects.LevelCommands | apps/pwm5ch/zcl_pwm5chCb.c:311-411 | the targets of Move to Level and Step, with their step time, and the On level |
| DimmerEffects.MoveCommands | apps/pwm5ch/zcl_pwm5chCb.c:245-276 | Move and Stop with the interval of 1000 ms over the rate |
| DimmerEffects.RampTickMoves | apps/pwm5ch/zcl_pwm5chCb.c:286-309 | one callback of a Move to Level in full |
| DimmerEffects.MoveTickMoves | apps/pwm5ch/zcl_pwm5chCb.c:204-243 | one callback of a Move in full |
| DimmerEffects.SwitchKeys | apps/pwm5ch/ir_recv_cmd.c:33-44 | infrared on, off and toggle, and what they decide for a restart |
| DimmerEffects.DimKeys | apps/pwm5ch/ir_recv_cmd.c:46-77 | infrared brighter and darker: the share of 254 cut towards zero, 13 to 254 |
| DimmerEffects.PowerCycles | apps/pwm5ch/pwm5ch_epCfg.c:286-328 | what every endpoint is after a restart, by its start-up settings, and what the outputs go to |
| DimmerDevice.Device.Apply | apps/pwm5ch/pwm5ch_ctrl.c:83-103 | the targets of one channel, or of all under the master; carries the bounds of `Dimmer.Inv` |
| DimmerDevice.Device.OnOff | apps/pwm5ch/zcl_pwm5chCb.c:140-181 | Off, On and Toggle with the On level; carries the bounds of `Dimmer.Inv` |
| DimmerDevice.Device.MoveCallback | apps/pwm5ch/zcl_pwm5chCb.c:204-243 | the Move timer; carries the bounds of `Dimmer.Inv` |
| DimmerDevice.Device.StartMove | apps/pwm5ch/zcl_pwm5chCb.c:254-276 | starting a Move; carries the bounds of `Dimmer.Inv` |
| DimmerDevice.Device.StopMove | apps/pwm5ch/zcl_pwm5chCb.c:245-252 | stopping a Move; carries the bounds of `Dimmer.Inv` |
| DimmerDevice.Device.StartRamp | apps/pwm5ch/zcl_pwm5chCb.c:311-345 | starting a Move to Level; carries the bounds for the targets the commands give |
| DimmerDevice.Device.RampCallback | apps/pwm5ch/zcl_pwm5chCb.c:286-309 | the Move to Level timer; carries the bounds of `Dimmer.Inv` |
| DimmerDevice.Device.MoveToLevelCommand | apps/pwm5ch/zcl_pwm5chCb.c:356-373 | the level clamped to 1..254; carries the bounds of `Dimmer.Inv` |
| DimmerDevice.Device.StepCommand | apps/pwm5ch/zcl_pwm5chCb.c:388-411 | the target of a Step; carries the bounds of `Dimmer.Inv` |
| DimmerDevice.Device.IrAdjustLevel | apps/pwm5ch/ir_recv_cmd.c:46-77 | an infrared key moves a level by truncated percent, within 13..254; carries the bounds |
| DimmerDevice.Device.IrSetOnOff | apps/pwm5ch/ir_recv_cmd.c:33-39 | an infrared key switches and remembers for start-up; carries the bounds of `Dimmer.Inv` |
| DimmerDevice.Device.PowerUp | apps/pwm5ch/pwm5ch_epCfg.c:286-328 | attributes come back from storage and are applied endpoint by endpoint; carries the bounds |
| FadeEngine.StopsInTime | apps/pwm5ch/pwm5ch_ctrl.c:45-71 | after the last retarget the timer runs exactly one callback more than the farthest channel needs, and then all are at target |
| FadeEngine.AtMostHundred | apps/pwm5ch/pwm5ch_ctrl.c:45-71 | that is at most 101 callbacks |
| FadeEngine.NeverOvershoots | apps/pwm5ch/pwm5ch_ctrl.c:51-61 | every channel stays between where it was and its target |
| FadeEngine.TicksAreFaithful | apps/pwm5ch/pwm5ch_ep.h:40-43 | level to tick is strictly increasing on 0..254, within half a tick of exact scaling, and ends at the period |
| FadeEngine.FadeKeeps | apps/pwm5ch/pwm5ch_ctrl.c:45-71 | a callback keeps duties in range and stops only when all have arrived |
| FadeEngine.Engine.FadeCallback | apps/pwm5ch/pwm5ch_ctrl.c:45-71 | the callback's loop over the channels |
| DimmerDevice.Device.FadeTimer | apps/pwm5ch/pwm5ch_ctrl.c:45-71 | the fade timer as an event of the device: it runs on exactly until a callback finds all channels at their targets; carries the bounds |
| AdcTrim.SampleAndAverage | platform/chip_8258/adc.c:453-493 | the sampling loop and the average of the middle four |
| AdcTrim.ShiftIn | platform/chip_8258/adc.c:473-483 | the in-place shift of the insertion |
| AdcTrim.Insert | platform/chip_8258/adc.c:472-483 | one insertion into the samples before it |
| AdcTrim.SortIsPermutation | platform/chip_8258/adc.c:472-483 | the samples so far are sorted and a permutation of the readings |
| AdcTrim.ResultIs | platform/chip_8258/adc.c:453-493 | the result is a quarter, rounded down, of the sum of the four in the middle of the sorted readings |
| AdcTrim.CodeIs | platform/chip_8258/adc.c:465-470 | a reading with bit 13 set counts as zero, any other for its bits 0 to 12 |
| AdcTrim.TrimmedMeanIsRobust | platform/chip_8258/adc.c:453-493 | if at least six of eight readings lie in a range, so does the result |
| AdcTrim.ThreeBadReadingsShow | platform/chip_8258/adc.c:490-493 | with five of eight it need not |

## Left out

- OtaBootRuns.AlwaysBoots: has three conditions. (1) A block stored in a session ends before the running slot; needed, by `OtaBootRuns.OvershootDecides`. (2) A block outside a session is one that `OtaBoot.StraySpares` allows. With a zero record `OtaLate.StrayDecides` says exactly which blocks leave a chip that boots; (2) asks in addition that a power failure in the middle of the write does not make slot 0 boot, and does not count on a second slot that could step in. (3) The checksum word of an image the SDK check accepts at the reboot lies in the slot and is clear of the flag byte; exact by `OtaBoot.SurvivalIsExact` and `OtaBoot.RebootDecides`.
- OtaRuns.RunKeeps: a run goes up to a block that arms the retry timer with no session open. What such a block starts (requests, and blocks stored in a slot that has not been erased, at offsets up to the refused size and beyond the chip) is left out; `OtaRuns.TimerTellsSession` and `OtaStray.RefusedStartArms` say exactly when it does.
- OtaBootRuns.BootStep: the same conditions as `OtaBootRuns.AlwaysBoots`.
- OtaBoot.RebootIsSafe: the condition on the checksum word, which `OtaBoot.RebootDecides` makes exact for the image switched to; a torn write is a prefix of the bytes, a torn erase is not modelled beyond before and after.
- OtaProgress.SessionsTerminate: asks for non-empty blocks, because with empty ones it is false (`OtaProgress.StallsForEver`); `OtaProgress.EventsAreBounded` is the bound for all runs.
- OtaDevice.Device.SendOtaEnd: `ota_loadImageInfo` after a remote file is left out; it reads the new image's header for later requests of other nodes and touches neither the record nor flash.
- OtaDevice.Device.StoreBlock: the flash calls of a session run on a supply in order (`flash_write` returns silently otherwise); `Flash.FlashDevice` has the voltage tests.
- ModbusFrames.ParseRsp1: the raw register integers; the division into floating point is left out.
- ModbusFrames.ParseRsp2: the raw register integers; the division into floating point is left out.
- JuntekStream.ParseInt: reads the overflow tests as comparing unbounded numbers; with a 32-bit `long` the accumulator overflows, which C leaves undefined, before they can act, so values out of range are not covered.
- JuntekStream.ParseR50: exact reals instead of single precision.
- BmsFilter.MovingAverage.Average: exact reals instead of single precision.
- BmsFilter.Bms.ApplyFilter: exact reals instead of single precision; the configuration is a parameter.
- ModbusPoll.Monitor.UartRxPoll: the rated-datum states are kept with their transitions only; they are unreachable after start-up and their parser prints only.
- Dimmer.MoveToLevelArrives: one transition in isolation, like `Dimmer.RampArrives`; Move and Move to Level run on independent timers, and Stop stops only the Move.
- I2cMaster.TransferHeard: no clock stretching and no other master, because the code looks at neither.
- Low supply voltage in `flash_erase` and `flash_write`, where the driver returns without doing anything.
- `flash_lock` and `flash_unlock`, the watchdog, and the boot-loader build.
- The 16-bit sector counter of the erase loops, which real sector sizes never overflow.
- Decoding of UART messages into offset, length and status, and encoding of what is sent.
- DMA or an interrupt changing a buffer while a poll is reading it: handlers and polls are atomic steps.
- Scaling of Modbus registers to ZCL attributes, and printed messages.
- Infrared key table and debouncing, endpoint numbers, Identify, and attribute times the dimmer does not read.
- ADC conversion to millivolts, waiting for the hardware, and the four-sample build.
- The Zigbee stack, ZCL, BDB and NV libraries, register access, OLED, LEDs, buttons and the host-side converter.
