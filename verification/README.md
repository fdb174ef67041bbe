# Verified model of the drivers and test programs

This project models the five programs of the repository that carry state or arithmetic:
the polled I2C driver for U-Boot, the IPMB-like responder, the two ADC drivers and the
bit printer. Code that works step by step is a class whose methods do the same register
accesses, loops and branches; each method is tied to a function of the old state, and
the properties are proved about those functions, for every environment and every run.

## How the model is built

**I2C driver.** `AstI2c` holds the file-scope variables and the history of all register
accesses. The hardware is an arbitrary function from that history to the value of the
next register read, so every statement holds for every controller, slave and timing.
`Watch` is an independent reference: a bus monitor that sees only register accesses and
turns the command register writes back into bus commands, recording for each how often
it was polled, which status was read, how often the status was cleared and which byte
was fetched. Transfers are stated as what that monitor sees. A memory device (`Step`)
reacts to the monitored commands; `Attached` is the class of all environments that carry
such a device, with a delay of its own for every answer and arbitrary contents in every
other register. It refuses bytes for its locked cells, and its controller then reports
bit 1 without bit 0. `OnBoard` puts any number of such devices on different buses; the
controllers of the remaining buses answer commands as they like, except that they report
no acknowledged address. An answer that is not there when the driver gives up is dropped
with the clear that follows.
Words are natural numbers here: `>> k` halves k times, `& 0xff` is the remainder by 256.
`AST_SCU_BASE` is defined in a platform header that is not part of this model; its value
is that of the SCU registers in the ADC headers. `InitWords` and `UnlockedFirst` write it
out; no other result depends on it beyond its being below the I2C registers.

**Responder.** `Node` is one thread with its register number and the messages it has
handed to the bus ioctl, which is an arbitrary function of those. `ResponderNetwork` is a step system in
which any frame in flight may be delivered next, to any node but its sender, or lost, and
any frame may be injected from outside. `reg` is the value that the comparison with a
received byte sees: where plain `char` is signed, numbers above 127 are negative there.

**ADC drivers.** Registers are 32-bit vectors by address. The rewritten driver is shown
to refine a plain record. The original driver's `write_register_and` puts `~` in front
of an argument without parentheses; both what this expands to and what was meant are
modelled. `~0x01 << n` is taken as two's complement arithmetic, as the compiler does it.

**Bit printer.** Text goes to a string. Rows are compared column by column, and the
value is read back from its row.

## Findings

| source | what the code does | theorem | at an input |
|---|---|---|---|
| linux_app/uboot_i2c_codes/ast_i2c.c:168, linux_app/uboot_i2c_codes/ast_i2c.c:373 | The driver initialises only once unless a probe or slave command intervenes: after `master` on one bus, `master` on another writes the first bus's registers and polls the second bus's interrupt bit (`WindowOfLastInit`), so every transfer fails, whichever memory devices the board carries. | `StaleTransfersFail`, and the condition `Hits` of `RoundTrip` | `SecondMasterIsStale` |
| linux_app/uboot_i2c_codes/ast_i2c.c:244 | `i2c_send_byte` says it waits for an acknowledge but accepts status bit 0 or bit 1; the start command accepts bit 0 only. So `i2c_write` returns 0 for data that the device refused. Everything was acknowledged exactly if it returns 0 and no byte was refused; on a hit that is answered in time it always returns 0, and everything was acknowledged exactly if no cell written to is locked. | `WriteAcknowledged`, `RefusalGoesUnnoticed` | `RefusedByteReportsSuccess` |
| linux_driver/ADC/adc_drv.c:39, linux_driver/ADC/adc_drv.c:113 | `set_adc_clock` keeps old divisor bits 9:1, so divisors accumulate; it agrees with the intended write only if nothing was to be cleared. | `ClockFormsAgree`, `ClockAccumulates` | `ClockKeepsOldDivisor` |
| linux_driver/ADC/adc_drv.c:39, linux_driver/ADC/adc_drv.c:140 | `disable_adc_channel` switches off all lower channels and the engine as well. The function has no caller in the repository: no ioctl branch reaches it. | `DisableFormsAgree`, `ExpandedRun`, `DisableExpandedStopsEngine` | `DisableTakesLowerChannel` |
| linux_driver/ADC_TDD/adc_drv.c:54 | The rewritten driver does not cut off a divisor wider than 10 bits: its upper bits end up elsewhere in the clock register. | `WideDivisorLeaks` | `WideDivisorSetsBit10` |
| linux_app/i2c_emulate_ipmb/i2craw.c:238-250 | Two nodes that answer for register 0x21 answer each other's replies for ever. | `UnendingIffHotPair` | constructed in its proof |
| linux_driver/ADC_TDD/inc/adc_define.h:32, linux_driver/ADC_TDD/adc_drv.c:76 | The header names register 0x2C for channel 13; the driver reads the upper half of 0x28. It uses the header's register exactly for the other channels. | `HeaderDataAgrees` | channel 13, in the same lemma |
| linux_driver/ADC_TDD/inc/adc_define.h:50-55, linux_driver/ADC_TDD/adc_drv.c:65 | The header's channel enables are bits 16 and up; the driver never changes one and uses bits 0 and up, which the header calls engine enable and operation mode. A header enable is as asked for exactly if it was before, and switching channel 0 off clears the engine enable. | `HeaderEnablesKept`, `HeaderEnableAsAsked`, `ChannelZeroIsEngine` | `ChannelOneSetsMode` |

## Model

| member | source | states |
|---|---|---|
| I2cController.AstI2c.InterruptStatus | linux_app/uboot_i2c_codes/ast_i2c.c:284-312 | the poll loop with its early exit is the bounded search that I2cPolling characterises |
| I2cController.AstI2c.SendStart | linux_app/uboot_i2c_codes/ast_i2c.c:267-277 | start writes the address byte and the start command and tests status bit 0 |
| I2cController.AstI2c.SendByte | linux_app/uboot_i2c_codes/ast_i2c.c:230-249 | transmit picks the command by mode and tests status bits 1:0 |
| I2cController.AstI2c.ReceiveByte | linux_app/uboot_i2c_codes/ast_i2c.c:251-265 | a failed receive leaves the caller's byte and never touches the receive buffer; a good one stores the byte of ReceiveWords |
| I2cController.AstI2c.RealInit | linux_app/uboot_i2c_codes/ast_i2c.c:94-146 | selects the window of the current bus, then makes the accesses of InitWords |
| I2cController.AstI2c.Probe | linux_app/uboot_i2c_codes/ast_i2c.c:148-160 | statement-by-statement form of the function of ProbeTranscript |
| I2cController.AstI2c.I2cRead | linux_app/uboot_i2c_codes/ast_i2c.c:162-198 | loops and early returns, in place on the buffer, equal the transfer of ReadTranscript; lengths may be negative |
| I2cController.AstI2c.I2cWrite | linux_app/uboot_i2c_codes/ast_i2c.c:200-225 | loops and early returns equal the transfer of WriteTranscript |
| I2cController.AstI2c.DoSlaveRw | linux_app/uboot_i2c_codes/ast_i2c.c:314-357 | wrong argument count changes nothing; otherwise initialise and run the loop of SlaveTransduces |
| I2cController.AstI2c.DoMasterRw | linux_app/uboot_i2c_codes/ast_i2c.c:367-383 | reads register 0x30 of device 0x10 and reports 0xff on failure, whatever the buffer held before |
| I2cShell.Session | linux_app/uboot_i2c_codes/ast_i2c.c:148-383 | the driver object, run through any legal list of calls, ends in the state and gives back the results that the session results are about |
| I2cAccesses.WindowTable | linux_app/uboot_i2c_codes/ast_i2c.c:100-106 | the window addresses of the 14 controllers, one by one |
| I2cAccesses.StartWords | linux_app/uboot_i2c_codes/ast_i2c.c:267-277 | the literal address byte and the word 0x03 go to offsets 0x20 and 0x14; success is bit 0 of the status |
| I2cAccesses.ByteWords | linux_app/uboot_i2c_codes/ast_i2c.c:230-249 | the byte and the word 0x02, as a slave 0x04, go there; success is bit 0 or bit 1 |
| I2cAccesses.ReceiveWords | linux_app/uboot_i2c_codes/ast_i2c.c:251-265 | the four receive words; the stored byte is bits 15 to 8 of the word read at offset 0x20, whatever its other bits |
| I2cAccesses.StopWords | linux_app/uboot_i2c_codes/ast_i2c.c:279-282 | a stop is the word 0x30 at offset 0x14 and no wait |
| I2cHardware.CommandWords | linux_app/uboot_i2c_codes/ast_i2c.c:237-281 | what the monitor makes of the eight command words the driver writes, whatever the buffer holds |
| I2cAccesses.StatusWords | linux_app/uboot_i2c_codes/ast_i2c.c:284-312 | register 0x1E78A000 is read at most 100000 times and until the bus's bit shows; then offset 0x10 is read, and 0xFFFFFFFF written to it once in any case |
| I2cAccesses.InitWords | linux_app/uboot_i2c_codes/ast_i2c.c:110-143 | the complete sequence of an initialisation's accesses, with literal addresses and values and, bit by bit, the words written back to the pin and reset registers |
| I2cAccesses.UnlockedFirst | linux_app/uboot_i2c_codes/ast_i2c.c:110-122 | every write to the pin or reset register follows an unlock of the same initialisation with nothing locked in between |
| WordBits.SecondByteReads | linux_app/uboot_i2c_codes/ast_i2c.c:262 | the received byte is the word's bits 15 to 8, for any word |
| I2cPolling.FirstHitDecides | linux_app/uboot_i2c_codes/ast_i2c.c:294-311 | the first of at most 100000 polls that shows the bus's bit decides: the status is what ISR reads right after it, and ISR is cleared once |
| I2cPolling.NoHitMeansZero | linux_app/uboot_i2c_codes/ast_i2c.c:291-311 | without such a poll there are exactly 100000 reads of DISR, none of ISR, the status is 0 and ISR is still cleared once |
| I2cTheorems.ReadTranscript | linux_app/uboot_i2c_codes/ast_i2c.c:162-198 | under every environment a read follows the plan start, address bytes, start, receives with last on the final one, stop; only a failed start or address byte cuts it short; it returns 0 exactly when all of it succeeded; the buffer holds the fetched bytes where receives succeeded and its old bytes elsewhere; one clear per command; at most (2+alen+len)*100000 polls |
| I2cTheorems.WriteTranscript | linux_app/uboot_i2c_codes/ast_i2c.c:200-225 | the same for a write, with at most (1+alen+len)*100000 polls |
| I2cTheorems.ProbeTranscript | linux_app/uboot_i2c_codes/ast_i2c.c:148-160 | a probe always configures, starts and stops, and returns 0 exactly when the start was answered |
| I2cTheorems.StopIssued | linux_app/uboot_i2c_codes/ast_i2c.c:172-222 | the bus is stopped exactly when every start and address byte succeeded, and then no data command is missing |
| I2cAddress.FoldOfAddressBytes | linux_app/uboot_i2c_codes/ast_i2c.c:177-181 | shifting the address bytes in again yields the address modulo 256^alen |
| I2cAddress.AddressesLossless | linux_app/uboot_i2c_codes/ast_i2c.c:210-214 | addresses that fit arrive intact and different ones give different bytes |
| I2cMemorySlave.WriteReaches | linux_app/uboot_i2c_codes/ast_i2c.c:200-225 | a write returns 0 exactly when the chip address is the device's and every answer comes within 100000 polls, refusals included; the data up to the first locked cell are stored, late bytes included, if the answers up to the last address byte come in time, and otherwise nothing is |
| I2cMemorySlave.ReadReaches | linux_app/uboot_i2c_codes/ast_i2c.c:162-198 | a read returns 0 exactly likewise; the buffer takes the cells whose answers come in time and keeps its old byte for the others; the memory never changes |
| I2cBoard.BoardWrite | linux_app/uboot_i2c_codes/ast_i2c.c:200-225 | on a board with any number of memory devices and from any state a write returns 0 exactly when the window in use is the chosen bus's, a device with this address is there and answers in time; its memory takes the data up to the first locked cell and no other memory changes |
| I2cBoard.BoardRead | linux_app/uboot_i2c_codes/ast_i2c.c:162-198 | the same for a read, which changes no memory |
| I2cBoard.BoardProbe | linux_app/uboot_i2c_codes/ast_i2c.c:148-160 | a probe returns 0 exactly when the chosen bus carries a device with this address that answers in time, whatever window was in use before |
| I2cAcknowledge.WriteAcknowledged | linux_app/uboot_i2c_codes/ast_i2c.c:200-249 | under every environment everything of a write was sent and acknowledged by status bit 0 exactly when it returns 0 and no byte was answered by bit 1 alone |
| I2cAcknowledge.ReadAcknowledged | linux_app/uboot_i2c_codes/ast_i2c.c:162-249 | the same for the starts and address bytes of a read |
| I2cAcknowledge.RefusalGoesUnnoticed | linux_app/uboot_i2c_codes/ast_i2c.c:200-249 | a write that hits a device and is answered in time returns 0; no byte of it is refused, and data that differ from the contents are all stored, exactly when no cell written to is locked |
| I2cAcknowledge.RefusedByteReportsSuccess | linux_app/uboot_i2c_codes/ast_i2c.c:244 | with start status 1 and data status 2 the write of one byte returns 0 although the byte was refused |
| I2cRoundTrip.RoundTrip | linux_app/uboot_i2c_codes/ast_i2c.c:162-225 | on such a board write then read returns what was written up to the first locked cell and the old contents after it, and changes these cells of this device only; both results are 0 exactly when the window in use belongs to the chosen bus, the device there has this address and its answers come within 100000 polls; without a hit neither buffer nor any memory changes |
| I2cArraySession.SessionIsArray | linux_app/uboot_i2c_codes/ast_i2c.c:148-383 | any legal session of probes, reads, writes, slave and master commands from power-on, on a board of devices that answer in time, has the results and final contents of the same session on byte arrays, stale windows and locked cells included |
| I2cArraySession.StaleTransfersFail | linux_app/uboot_i2c_codes/ast_i2c.c:168-173 | once the chosen bus is not the one initialised last, every read and write returns 1 and changes no buffer and no memory |
| I2cBoard.BoardsExist | linux_app/uboot_i2c_codes/ast_i2c.c:284-312 | the environments assumed by these results exist for every choice of devices and delays |
| I2cSettled.RunsAreSettled | linux_app/uboot_i2c_codes/ast_i2c.c:309 | after any legal run no controller still waits for the status of its last command to be cleared, and the registers in use are those of a controller |
| I2cSlaveLoop.SlaveTransduces | linux_app/uboot_i2c_codes/ast_i2c.c:318-356 | after any number of rounds the commands are one receive per round, never marked last, and 0x00, 0x55 right after each received 0x21; the bytes sent are the received stream with 0x21 mapped to 0x00, 0x55 and the rest dropped; the byte held at the loop head is never 0x21 |
| I2cSession.WindowOfLastInit | linux_app/uboot_i2c_codes/ast_i2c.c:100-170 | after any run of calls the window is that of the bus current at the last initialisation, and is the polled bus's window exactly when the two bus numbers agree |
| I2cSession.SecondMasterIsStale | linux_app/uboot_i2c_codes/ast_i2c.c:367-379 | after `master 0` and `master 1` the registers in use are those of bus 0 and the polled bit is that of bus 1 |
| I2cWindows.WindowsDisjoint | linux_app/uboot_i2c_codes/i2c-hw.h:19-33 | no address belongs to two controllers and DISR to none |
| I2cWindows.InitConfigures | linux_app/uboot_i2c_codes/ast_i2c.c:126-145 | an initialisation sets up the registers of the current bus and writes no register of another |
| I2cWindows.PinsAccumulate | linux_app/uboot_i2c_codes/ast_i2c.c:112-118 | after any run of initialisations the pin register is its first value plus bit 14+n for each bus n >= 2, minus bit 0 once a bus from 9 to 12 was among them |
| I2cWindows.ResetReleased | linux_app/uboot_i2c_codes/ast_i2c.c:120-122 | an initialisation clears bit 2 of the reset register and no other |
| I2cIsolation.OtherBusesSeeNothing | linux_app/uboot_i2c_codes/ast_i2c.c:94-383 | no call - initialisation, probe, read, write, slave or master command - shows a command, or answers one, on the window of any bus but the one it uses |
| Responder.BuildMessages | linux_app/i2c_emulate_ipmb/i2craw.c:122-181 | fills the message array in place: a write message if bytes go out, a read message if bytes are wanted, a one-byte read if neither, a refusal if both buffers are null |
| Responder.MessageLaws | linux_app/i2c_emulate_ipmb/i2craw.c:138-178 | for all arguments: every message goes to the given address, writes carry exactly the first bytes of the buffer, reads ask for what is wanted or one byte, a write comes first |
| Responder.Node.HandleFrame | linux_app/i2c_emulate_ipmb/i2craw.c:228-257 | a frame is answered exactly when the read mark stands at or after the node's register number, once, at the first such place, whatever the send returns, by handing the ioctl one write of 0x21, 0x55, 0xAA to 0x10; otherwise nothing is handed over; the scan ends although its bound is overwritten |
| Responder.Node.Ask | linux_app/i2c_emulate_ipmb/i2craw.c:286-295 | the program's own request is one write of its register number and 0x21 to 0x10 |
| Responder.RequestIsAnswered | linux_app/i2c_emulate_ipmb/i2craw.c:288-293 | the request built for a register number is answered exactly by nodes whose number a received byte can equal to it, or by a node for 0x21 |
| Responder.ReplyRequests | linux_app/i2c_emulate_ipmb/i2craw.c:238-250 | a reply triggers a node exactly if that node answers for register 0x21 |
| ResponderNetwork.NoReplyStorm | linux_app/i2c_emulate_ipmb/i2craw.c:226-258 | unless two nodes answer for 0x21, a run has a bounded number of events and replies per injected frame: 4 and 2, or 3 and 1 if no node answers for 0x21 |
| ResponderNetwork.RunDrains | linux_app/i2c_emulate_ipmb/i2craw.c:226-258 | unless two nodes answer for 0x21, any run without injections can be continued by deliveries alone until nothing is in flight, in at most 3 events per frame that was in flight at its start (2 if no node answers for 0x21) |
| ResponderNetwork.UnendingIffHotPair | linux_app/i2c_emulate_ipmb/i2craw.c:226-258 | a run without further injections can go on for ever exactly when two nodes answer for 0x21, and then one request starts it |
| AdcTddDevice.Adc.SetClock | linux_driver/ADC_TDD/adc_drv.c:49-57 | the read-modify-write of the divisor, for any argument |
| AdcTddDevice.Adc.EnableChan | linux_driver/ADC_TDD/adc_drv.c:61-71 | the read-modify-write of one enable bit; only the value 1 enables |
| AdcTddDevice.Adc.Measure | linux_driver/ADC_TDD/adc_drv.c:73-88 | -1 for a channel that is off, otherwise its field |
| AdcTddDevice.Adc.Ioctl | linux_driver/ADC_TDD/adc_drv.c:90-128 | which call changes which state, and that the caller's data changes only on a successful measurement |
| AdcTddDevice.Adc.SetStubVal | linux_driver/ADC_TDD/adc_drv.c:268-287 | a 16-bit sample is written over one half of a shared register |
| AdcTddRuns.StepSimulates | linux_driver/ADC_TDD/adc_drv.c:35-128 | every step keeps the packed registers equal to a plain record of enabled channels, divisor and samples |
| AdcTddRuns.StepFrame | linux_driver/ADC_TDD/adc_drv.c:35-128 | no step disturbs a field it does not name |
| AdcTddRuns.SampleReadsBack | linux_driver/ADC_TDD/adc_drv.c:73-88 | a sample reads back on its own channel and changes no other, although two channels share a register |
| AdcTddRuns.MeasureAfterRun | linux_driver/ADC_TDD/adc_drv.c:73-128 | after any run from a fresh driver a measurement yields the low 10 bits of the channel's last sample if its last enable used 1, and -1 otherwise |
| AdcTddRuns.DivisorAfterRun | linux_driver/ADC_TDD/adc_drv.c:42-57 | the divisor read back is the low 10 bits of the last one set, or 0x40 |
| AdcTddRuns.WideDivisorLeaks | linux_driver/ADC_TDD/adc_drv.c:49-57 | upper divisor bits are added to the rest of the clock register, which is unchanged exactly if it had them |
| AdcTddRuns.WideDivisorSetsBit10 | linux_driver/ADC_TDD/adc_drv.c:49-57 | after 0x40, the divisor 0x400 leaves bit 10 set and reads back as 0 |
| AdcHeader.HeaderDataAgrees | linux_driver/ADC_TDD/inc/adc_define.h:24-32 | the driver's data register is the header's exactly for the channels other than 13, which shares that of channel 12 |
| AdcHeader.HeaderEnablesKept | linux_driver/ADC_TDD/adc_drv.c:61-71 | switching a channel changes none of the bits 31:16, where the header has the channel enables |
| AdcHeader.HeaderEnableAsAsked | linux_driver/ADC_TDD/inc/adc_define.h:55 | the header's enable bit of a channel is as asked for after the call exactly if it was before |
| AdcHeader.ChannelZeroIsEngine | linux_driver/ADC_TDD/inc/adc_define.h:50 | channel 0 switches the header's engine enable bit, and no other channel does |
| AdcHeader.ChannelOneSetsMode | linux_driver/ADC_TDD/inc/adc_define.h:51 | switching on channel 1 of a cleared block sets a mode bit and not the header's enable bit of channel 1 |
| AdcHeader.SampleHalves | linux_driver/ADC_TDD/adc_drv.c:73-88 | even channels read the low 10 bits of their register, odd ones bits 25 to 16; channel 13 is the upper half of 0x28 |
| AdcHeader.RegistersWritten | linux_driver/ADC_TDD/adc_drv.c:42-71 | which register each operation writes, and that it writes no other |
| AdcHeader.OnlyItsBit | linux_driver/ADC_TDD/adc_drv.c:61-71 | switching a channel leaves every other bit of the control register as it was |
| AdcRewrite.ClocksAgree | linux_driver/ADC_TDD/adc_drv.c:49-57 | after the same clock write the rewrite's divisor is the one the original's macro was meant to set, and the one it does set exactly if the old divisor bits 9:1 are in the new divisor |
| AdcRewrite.DataRegistersAgree | linux_driver/ADC/adc_drv.c:122 | the original reads a channel's sample where the rewrite does in its block, which is the header's register exactly for the channels other than 13 |
| AdcRewrite.OffChannelsDiffer | linux_driver/ADC_TDD/adc_drv.c:73-88 | on equal data registers the original reports a number for every channel and the rewrite -1 for one that is off; without compensation they agree exactly if the channel is on, and with it the original shifts the rewrite's measurement |
| AdcClockMacro.ClockFormsAgree | linux_driver/ADC/adc_drv.c:111-117 | the expanded clock write equals the intended one exactly when old bits 9:1 are in the new divisor, old bits 15:10 are 0 and old bit 16 is in the new inverse byte |
| AdcClockMacro.ClockKeepsOldDivisor | linux_driver/ADC/adc_drv.c:111-117 | over the divisor 0x40 of the initialisation, setting 0x20 yields 0x60 where 0x20 was meant |
| AdcClockMacro.IntendedReplacesDivisor | linux_driver/ADC/adc_drv.c:39 | with the argument in parentheses a clock write replaces the whole divisor |
| AdcOriginalRuns.ClockAccumulates | linux_driver/ADC/adc_drv.c:111-117 | after any sequence of clock writes bits 9:1 and 31:16 hold everything ever written to them |
| AdcOriginalRuns.ClockRest | linux_driver/ADC/adc_drv.c:111-117 | bit 0 is that of the last divisor and bits 15:10 are clear |
| AdcChannelMacro.DisableFormsAgree | linux_driver/ADC/adc_drv.c:139-144 | the expanded disable equals the intended one exactly when no bit below the channel's is set |
| AdcChannelMacro.DisableExpandedStopsEngine | linux_driver/ADC/adc_drv.c:139-144 | disabling any channel clears the engine enable and mode bits |
| AdcChannelMacro.DisableTakesLowerChannel | linux_driver/ADC/adc_drv.c:139-144 | with channels 3 and 5 on, disabling 5 switches off 3 as well, which the intended macro leaves on |
| AdcChannelMacro.EnableSetsOneBit | linux_driver/ADC/adc_drv.c:133-137 | enabling a channel leaves every bit but bit 16 plus its number as it was |
| AdcOriginalRuns.ExpandedRun | linux_driver/ADC/adc_drv.c:133-144 | after any run a channel is on exactly when some enable of it is later than every disable of it or a higher channel, or it was on and there is none |
| AdcOriginalRuns.IntendedRun | linux_driver/ADC/adc_drv.c:39 | with the argument in parentheses the run is a map from channels to on and off |
| AdcOriginalRuns.DefectOnlyTurnsOff | linux_driver/ADC/adc_drv.c:133-144 | no channel is on that would be off with the intended macro |
| AdcOriginal.Adc.SetAdcClock | linux_driver/ADC/adc_drv.c:111-117 | reads the clock register and writes the expanded macro's value to it |
| AdcOriginal.Adc.EnableAdcChannel | linux_driver/ADC/adc_drv.c:133-137 | reads the control register and writes it back with the channel's bit set |
| AdcOriginal.Adc.DisableAdcChannel | linux_driver/ADC/adc_drv.c:139-144 | reads the control register and writes the expanded macro's value to it |
| AdcOriginal.Adc.AdcInit | linux_driver/ADC/adc_drv.c:151-182 | the exact sequence of register reads and writes: reset, clock, the sequence check read until bit 8 shows, calibration, lock; the compensation value comes from the sample read on channel 0 between the calibration writes; every register it leaves changed, and that no other is |
| AdcOriginal.DataAddresses | linux_driver/ADC/adc_drv.c:122 | the two channels of a pair share a register, registers are 4 apart from 0x1E6E9010 on |
| AdcOriginal.RawHalves | linux_driver/ADC/adc_drv.c:122-127 | even channels are the low 10 bits of their register, odd ones bits 25 to 16 |
| AdcOriginal.Adc.IoctlMeasure | linux_driver/ADC/adc_drv.c:87-98 | reads the register of DataAddresses for the channel, whose number is cut to a byte, and reports the compensated sample |
| AdcOriginal.ReportLaws | linux_driver/ADC/adc_drv.c:87-98 | after any calibration: compensation within [-511, 512], reports within [0, 1535] and monotone, 0 for a zero sample, 0x200 exactly for the non-zero calibration sample |
| BitPrinter.BitParse.Parse | linux_app/bitParse/bitParse.cpp:32-45 | prints the same two rows every time although the segment vector grows |
| BitPrinter.BitParse.PrintSegvalWithBit | linux_app/bitParse/bitParse.cpp:58-65 | prints a segment's four digits from the top and a bar |
| BitPrinter.BitParse.PrintBitTag | linux_app/bitParse/bitParse.cpp:67-79 | prints the label row, which RowsAlign reads back |
| BitPrinter.SegmentText | linux_app/bitParse/bitParse.cpp:17-22 | the text of segment i is the text of the value's bits 4i+3 down to 4i |
| BitRows.RowSpellsValue | linux_app/bitParse/bitParse.cpp:32-65 | the digits of the value row, read as a binary numeral, are the value modulo 2 to the number of bits printed |
| BitRows.RowsAlign | linux_app/bitParse/bitParse.cpp:34-79 | rows of equal length, bars at the same columns; where bit i is printed as 1 or 0 stand two digits in the row above that spell i in decimal |
| BitRows.RowsInFull | linux_app/bitParse/bitParse.cpp:34-79 | the printed text in full at an input |
| BitRows.RowLengths | linux_app/bitParse/bitParse.cpp:39-77 | the rows have equal length exactly when the bit length is a multiple of 4 |

## Left out

- Undefined C: bus numbers outside 0..13, address lengths above 4, channel numbers whose shift is undefined, bit lengths above 64, and the missing return value of `_val_to_segval`.
- I2cController.AstI2c.DoSlaveRw: the ctrl-c check is a number of rounds, so a loop that is never interrupted is described by all its finite parts.
- I2cController.AstI2c.ReceiveByte: the C function stores through a pointer; the model returns the new contents of that location.
- AdcOriginal.Adc.AdcInit: the loop that waits for the sequence check has no bound; the reads it makes until bit 8 shows are a parameter, so a wait that never ends is not described.
- I2cMemorySlave.WriteReaches: an answer that has not come when the driver clears the status is dropped. On hardware it may raise the bit during the next command and be taken for its status; after a first late answer the results here, and those of ReadReaches, BoardWrite, BoardRead and RoundTrip, hold only for controllers that drop it. If all answers are in time nothing depends on this.
- I2cArraySession.SessionIsArray: a transfer that finds a device is taken to be a master's, to lie within the device and to have its number of address bytes; transfers that find none are unrestricted.
- ResponderNetwork.NoReplyStorm: threads, sleeping and the kernel's queue are replaced by frames in flight that are delivered in any order or lost.
- Bus timing, clock stretching and arbitration: the I2C model starts at controller commands.
- The original ADC driver's ioctl branches for clock and channel enable: they cut their arguments to bytes and pass them on.
- Raw register access through `IOCTL_IO_READ` and `IOCTL_IO_WRITE`, module loading, logging and command tables: no property lives there.
- `HW_I2CRawSlaveWrite`, `i2c_slave_enable`, argument parsing in the `main` functions, and the programs under mci_test, uart_lcd_control and setitimer: thin wrappers around system calls.
