# Verified model of the MIDI controller firmware

A Dafny 4.11 model of the parts of the firmware where a mistake would be hard to see: the interrupt-shared
FIFO, the SysEx transport, settings in EEPROM and flash, the USART divisor, the encoder banks, input decoding,
sequencer pattern memory and the sleep manager's lock counts. `dafny verify dfyconfig.toml` checks everything.

Code that updates state in place is a class or a method with loops, proved against functions on values; what
the firmware relies on is then proved about those functions, over all inputs, runs or schedules.

| file | what it models |
|---|---|
| `Bits.dfy` | bytes (`bv8`), C's `&` on naturals, masks as remainders |
| `Fifo.dfy`, `FifoInterleaving.dfy` | the FIFO descriptor as a queue; producer and consumer interleaved access by access |
| `MidiPackets.dfy`, `SysexReceiver.dfy`, `SysexTransport.dfy` | cutting messages into USB-MIDI packets (Table 4-1 in section 4 of the USB Device Class Definition for MIDI Devices 1.0), the reassembling state machine, and the two together |
| `Nvm.dfy`, `NvmFlash.dfy` | EEPROM and flash writes through the hardware page buffer |
| `UsartBaud.dfy` | exponent search and divisor arithmetic in 32 bits |
| `EncoderRecords.dfy`, `FactoryReset.dfy`, `EncoderStore.dfy` | bit-packed encoder records, their update, their factory values, and the copy to RAM that goes with an update |
| `TagValue.dfy`, `BulkTransfer.dfy`, `BulkRoundTrip.dfy`, `GlobalSettings.dfy` | settings messages, and pull followed by push |
| `BulkHost.dfy`, `GlobalHost.dfy` | the same messages as the host sees them: the bytes of every answer and what any push stores |
| `EncoderValues.dfy`, `EncoderBanks.dfy`, `EncoderRuns.dfy`, `EncoderState.dfy` | one value's movement, handing values between banks, whole runs on values, and the firmware's routines against them |
| `EncoderTurns.dfy` | what each kind of turn, switch, feedback and bank change does to values and displays, in plain numbers |
| `Quadrature.dfy`, `SwitchDebounce.dfy` | decoding, reversal filter, debouncing |
| `PatternMemory.dfy` | saving, loading and deleting sequencer patterns |
| `SleepManager.dfy` | lock counts and the search for the mode to sleep in |

## What the proofs found

Some expected properties hold only under a condition. The code is modelled as it is and the condition is proved
to be exact. Each point names a lemma with an input that fails, or says why the firmware does not meet one.

- A pull followed by a push leaves the EEPROM unchanged if and only if byte 1 of the record (the switch number)
  is below 0x80 (`BulkRoundTrip.PullThenPush`). Bytes 2 and 3 decide instead whether the reply is legal
  seven-bit MIDI (`BulkRoundTrip.ReplyIsSevenBit`). After a factory reset and any saves both always hold
  (`BulkRoundTrip.PullThenPushAfterReset`). Start-up resets a device with another EEPROM layout
  (`src/config.c:396-397`), so only records that this firmware did not write can fail.
- The global settings round trip is exact if and only if the side-banked byte is 0 or 1
  (`GlobalSettings.RoundTripExactlyWhen`); the legal push of 2 to it fails (`GlobalSettings.LegalPushIsNotRestored`).
- Decoding global settings stores past its table if and only if some tag is above 38; tag 39 is a legal one
  (`GlobalSettings.StoresStayInTheTable`, `GlobalSettings.Tag39Strays`).
- Pushing encoder settings first copies them to RAM, and the copy leaves its table of 128 entries if and only if the
  tag is above 128 or the encoder is in its shift state (`BulkTransfer.StraysExactlyWhen`). The first takes a byte that
  is not legal in SysEx; for the second one press of a shift switch and a legal push are enough
  (`BulkTransfer.LegalPushCanStray`), also in the pull and push above (`BulkRoundTrip.PartStraysExactlyWhen`).
- Some register setting meets the baud-rate error bound if and only if 2 * clock <= 8193 * 1024 * rate, where the rate
  is the baud rate at double speed and twice that otherwise; the code meets it if and only if the inequality is
  strict. The tie, which it rounds up and out of the twelve bits, is the one case lost
  (`UsartBaud.ExpressibleExactlyWhen`, `UsartBaud.Usart.SetBaudrate`, `UsartBaud.OnlyTheTieIsLost`), and the
  rate check admits it (`UsartBaud.TieIsAdmitted`), as it admits rates no setting meets
  (`UsartBaud.AdmittedButInexpressible`).
- Turning an encoder up lowers its value in exactly three situations (`EncoderRuns.TurningUpLowersExactlyWhen`). The
  16-bit sum wraps, which takes 79 ticks or more (`EncoderValues.NoOverflowUpTo78`,
  `EncoderRuns.SeventyNineTicksDrop`); or the detent counter, which leaving a detent does not clear, pushes the value
  back inside the detent or at the top end (`EncoderRuns.DetentPushesBack`). Turning it down raises the value in the
  same way inside the detent or at the bottom end, and in no other (`EncoderRuns.TurningDownRaisesExactlyWhen`,
  `EncoderRuns.DetentPushesForward`).
- An encoder at an end of its range leaves it at the third tick inwards (`EncoderTurns.ThirdTickLeavesTheBottom`,
  `EncoderTurns.ThirdTickLeavesTheTop`), unless so many ticks come at once that the eight-bit counter wraps: then it
  stays (`EncoderTurns.ManyTicksDoNotLeave`).
- A run of events keeps every value in 0..12700 if and only if it accepts no host feedback above 127
  (`EncoderRuns.RunStaysBoundedExactlyWhen`). Legal MIDI has none (`EncoderRuns.LegalRunsStayBounded`), but the data
  byte of the USB packet is not masked: any accepted byte above 127 is an input that fails
  (`EncoderRuns.FeedbackKeepsBoundsExactlyWhen`).
- Going to another bank and back restores the values exactly when each encoder is alone with its mapping in its
  bank, or the other bank lacks it, or the values already agree (`EncoderBanks.RoundTripExactlyWhen`). With all
  encoders mapped alike they are not restored (`EncoderBanks.SharedMappingIsNotRestored`).
- The movement of an encoder's shaft is accounted for except for 256 counts at each wrap of the pending int8
  (`Quadrature.NothingIsLost`). With at most 127 samples between two reads it never wraps
  (`Quadrature.ReadInTimeLosesNothing`); the 128th of a steady turn does (`Quadrature.TheNextOneWraps`).
- The reversal filter rejects exactly the events that come fewer than six scans after one in the other direction
  (`Quadrature.OnlyEarlyEventsAreRejected`), and also one within the first five scans after power-up
  (`Quadrature.FirstClickIsLost`). Steady turns and unhurried reversals lose nothing
  (`Quadrature.UnhurriedTurnsCount`).
- A push of global settings does not leave alone what it omits (`GlobalHost.PushStoresLastPairs`): an empty one sets
  the MIDI channel to 255 and nearly everything else to 0 (`GlobalHost.EmptyPushClears`). A push of encoder settings
  does leave it alone (`BulkHost.PushStoresLastPairs`).
- A three-byte SysEx end writes through the null cursor if and only if no start packet came before it
  (`SysexReceiver.SysexReceiver.ReceivePackets`), as on a receiver whose first packet it is
  (`SysexReceiver.ThreeByteEndFirst`).
- Bytes left in the EEPROM page buffer spoil a buffer write if and only if it begins with a full page and one of them
  lacks a bit the data need (`Nvm.StoredAsGivenExactlyWhen`, `Nvm.LeftoverSpoilsAPage`). The firmware writes every
  page that it loads, so it leaves no such bytes.
- The same goes for the flash page buffer, where any leftover in the first page matters. Flash written without blank
  checking is never erased, so then no bit may have to be set either (`NvmFlash.FlashStoredExactlyWhen`,
  `NvmFlash.LeftoversAndOldBitsSpoil`). No code outside the drivers reaches this routine.
- Saving a loaded pattern again writes the same bytes exactly when the on/off flags are the saved ones, because
  loading only sends those flags to the host (`PatternMemory.SavedAgainExactlyWhen`); a mute toggled in between is
  saved (`PatternMemory.ToggledMuteIsSavedDifferently`). The comment on the FX byte
  (`src/sequencer_input.c:472-473`) puts the send states in the upper four bits; the code puts them in the lower.
- The search for the sleep mode leaves its array if and only if the deepest mode has been unlocked once more than it
  has been locked and no other mode is held; the assertion in `sleepmgr_unlock_mode` lets that unlock through
  (`SleepManager.SearchLeavesTheArrayExactlyWhen`, `SleepManager.OneUnlockTooMany`).

## Model

| member | source | states |
|---|---|---|
| Bits.MaskIsModulo | src/ASF/common/services/fifo/fifo.h:119-122 | masking with 2^k - 1 is reduction modulo 2^k, for every natural number |
| Bits.PowerOfTwoTest | src/ASF/common/services/fifo/fifo.c:53-80 | `!(n & (n - 1))` accepts exactly the powers of two |
| Fifo.LegalSizes | src/ASF/common/services/fifo/fifo.c:53-80 | the assertions of fifo_init admit exactly powers of two up to 128 |
| Fifo.IndexArithmetic | src/ASF/common/services/fifo/fifo.h:119-211 | for running totals of pushes and pulls at most size apart, the masked indices give the used size (full included), emptiness, the slot and the next index |
| Fifo.SlotsDiffer | src/ASF/common/services/fifo/fifo.h:170-181 | two items fewer than size apart never share a slot |
| Fifo.FifoDesc.Init | src/ASF/common/services/fifo/fifo.c:53-80 | a legal size gives a valid, empty queue over the given buffer |
| Fifo.FifoDesc.GetUsedSize | src/ASF/common/services/fifo/fifo.h:119-122 | the number of items held, at most size |
| Fifo.FifoDesc.GetFreeSize | src/ASF/common/services/fifo/fifo.h:131-134 | used and free add up to size |
| Fifo.FifoDesc.IsEmpty | src/ASF/common/services/fifo/fifo.h:145-148 | true exactly when nothing is held |
| Fifo.FifoDesc.IsFull | src/ASF/common/services/fifo/fifo.h:159-162 | true exactly when all size slots are taken |
| Fifo.FifoDesc.PushNoCheck | src/ASF/common/services/fifo/fifo.h:170-181 | with room appends the item; on a full queue overwrites the oldest slot and leaves indices that read as size + 1 items modulo 2 * size, so a queue of one slot reads as empty |
| Fifo.FifoDesc.Push | src/ASF/common/services/fifo/fifo.h:194-211 | appends the item, or reports overflow and changes nothing when full |
| Fifo.FifoDesc.PullNoCheck | src/ASF/common/services/fifo/fifo.h:318-332 | removes and returns the oldest item; on an empty queue returns a stale slot and leaves indices that read as 2 * size - 1 items |
| Fifo.FifoDesc.Pull | src/ASF/common/services/fifo/fifo.h:345-362 | delivers the oldest item, or reports underflow and leaves item and contents alone |
| Fifo.FifoDesc.Peek | src/ASF/common/services/fifo/fifo.h:504-507 | the oldest item, without removing it |
| Fifo.FifoDesc.Flush | src/ASF/common/services/fifo/fifo.h:514-518 | empties the queue |
| FifoInterleaving.StoreSparesUnread | src/ASF/common/services/fifo/fifo.h:194-211 | whenever the producer is due to store, the slot holds no item still to be pulled |
| FifoInterleaving.StepKeepsInvariant | src/ASF/common/services/fifo/fifo.h:119-211 | each single access of either side keeps the queue invariant and only extends the histories |
| FifoInterleaving.EveryInterleavingIsAQueue | src/ASF/common/services/fifo/fifo.h:60-69 | for every legal size and every interleaving: pulled items are a prefix of pushed items, the reported used size is their difference and at most size, and every unread item is intact |
| FifoInterleaving.FillsToTheLastSlot | src/ASF/common/services/fifo/fifo.h:60-69 | a producer alone gets items in until exactly size are held, and only then is refused |
| FifoInterleaving.DrainsToTheLastItem | src/ASF/common/services/fifo/fifo.h:345-362 | a consumer alone gets the items in order, also from a full ring, and is refused only when everything pushed has come out |
| MidiPackets.PacketisedCarriesMessage | src/midi.c:384-433 | the packets of a message carry its bytes in order and nothing else, and only the last one ends it |
| MidiPackets.CodesFollowTheLength | src/midi.c:384-433 | a message of n bytes takes (n + 2) / 3 packets, the last with code 5, 6 or 7 by the bytes left, or 3 if the message has just three |
| MidiPackets.UsbMidi.StreamSysex | src/midi.c:384-433 | the sending loop emits exactly that packetisation |
| SysexReceiver.SysexReceiver.Install | src/sysex.c:82-87 | a command in range gets the handler, any other changes nothing |
| SysexReceiver.SysexReceiver.InstallAll | src/config.c:383-391 | the six commands are installed under their numbers |
| SysexReceiver.SysexReceiver.Handle | src/sysex.c:39-79 | calls the installed handler once with the bytes after the command, or answers the identity request, or does nothing |
| SysexReceiver.SysexReceiver.Handle3sc | src/sysex.c:97-156 | refines the abstract receiver: opens a message, checks the maker, or collects three bytes unless they overflow the buffer |
| SysexReceiver.SysexReceiver.Handle3e | src/sysex.c:159-191 | refines the abstract receiver for a three-byte end, also between messages; writes through the null cursor if and only if there is no cursor yet |
| SysexReceiver.SysexReceiver.Handle2e | src/sysex.c:194-217 | refines the abstract receiver for a two-byte end |
| SysexReceiver.SysexReceiver.Handle1e | src/sysex.c:220-243 | refines the abstract receiver for a one-byte end |
| SysexReceiver.SysexReceiver.ProcessMidiPacket | src/midi.c:528-551 | every packet takes the receiver where the abstract one goes, unless it is a three-byte end before any start; reading if and only if not in Begin, cursor at most 126 |
| SysexReceiver.SysexReceiver.ReceivePackets | src/main.c:176-205 | a packet sequence writes through the null cursor if and only if its first three-byte end comes before every start; any other has the effects and the final state of the abstract run |
| SysexReceiver.EveryThreeByteEndFollowsAStart | src/sysex.c:159-191 | the condition on packet sequences, stated per three-byte end |
| SysexReceiver.ThreeByteEndFirst | src/sysex.c:159-191 | a sequence that begins with a three-byte end fails the condition |
| SysexTransport.TransportIsTransparent | src/midi.c:384-433 | any message, packetised and fed to an idle receiver, leaves it idle and has exactly the effects read off the whole message |
| SysexTransport.CommandRoundTrip | src/sysex.c:97-243 | F0 00 01 79 cmd body F7 calls the handler of cmd once with body and F7 if and only if one is installed and cmd, body and F7 fit in 126 bytes |
| SysexTransport.CommandCalls | src/sysex.c:39-243 | F0 00 01 79 cmd and any bytes that follow: the handler of cmd is called once with them if and only if one is installed and cmd and they fit in 126 bytes |
| SysexTransport.UniversalMessages | src/sysex.c:52-243 | any message that begins F0 7E has the identity reply for its effect if and only if it goes on with the device's channel or 7F, 06 01 and its payload fits in 126 bytes, and no effect otherwise |
| SysexTransport.IdentityRequest | src/sysex.c:52-243 | so the identity request is answered exactly when it is for this device or all devices and fits |
| SysexTransport.OtherMessagesDoNothing | src/sysex.c:97-243 | any message of neither kind has no effect |
| SysexTransport.EndWithoutStart | src/sysex.c:159-243 | an end packet between messages leaves an idle receiver idle and has no effect |
| SysexTransport.OthersNeverCalled | src/sysex.c:97-243 | another maker's message or a longer payload never calls a handler |
| SysexTransport.StreamOfMessages | src/sysex.c:97-243 | a stream of messages has their effects, in order |
| SysexTransport.StreamsStartProperly | src/midi.c:384-433 | packetised messages never present a three-byte end before a start |
| SysexTransport.OtherTrafficIsInvisible | src/midi.c:441-556 | packets that are not SysEx may be interleaved anywhere without effect on the transport |
| SysexTransport.EndsIdle | src/sysex.c:159-243 | after any packets from any state, the end of a message brings the receiver back to idle |
| SysexTransport.Resynchronises | src/sysex.c:90-243 | from any state and after any packets, one message later every message is handled as if nothing had gone before |
| Nvm.OverwriteTwice | src/ASF/xmega/drivers/nvm/nvm.c:183-199 | two adjacent overwrites are one |
| Nvm.Eeprom.FlushBuffer | src/ASF/xmega/drivers/nvm/nvm.c:212-222 | empties the page buffer |
| Nvm.Eeprom.LoadByteToBuffer | src/ASF/xmega/drivers/nvm/nvm.c:240-248 | ANDs the byte into its location, marking it loaded |
| Nvm.Eeprom.LoadPageToBuffer | src/ASF/xmega/drivers/nvm/nvm.c:266-277 | every location is loaded, with the page's byte ANDed into whatever it already held |
| Nvm.Eeprom.AtomicWritePage | src/ASF/xmega/drivers/nvm/nvm.c:292-309 | replaces exactly the loaded locations of the page and empties the buffer |
| Nvm.Eeprom.WriteByte | src/ASF/xmega/drivers/nvm/nvm.c:149-174 | changes one cell, whatever was loaded before |
| Nvm.Eeprom.EraseAndWriteBuffer | src/ASF/xmega/drivers/nvm/nvm.c:183-199 | terminates, for any alignment and length, with exactly the given range replaced, leftovers of the page buffer mixed in only where a full page comes first, and the page buffer empty |
| Nvm.StoredAsGivenExactlyWhen | src/ASF/xmega/drivers/nvm/nvm.c:183-199 | the range holds exactly the given data if and only if no leftover byte matters: always with an empty page buffer |
| Nvm.LeftoverSpoilsAPage | src/ASF/xmega/drivers/nvm/nvm.c:183-199 | a zero byte left in the page buffer spoils a page of 0xFF |
| NvmFlash.Flash.ComposeWord | src/ASF/xmega/drivers/nvm/nvm.c:632-662 | the word loaded for an address holds the data bytes that fall on it and the old contents (or 0xFF) elsewhere |
| NvmFlash.Flash.LoadPage | src/ASF/xmega/drivers/nvm/nvm.c:628-666 | the page buffer ends up right for the whole page, ANDed with whatever was left in it, and the erase flag tells whether any byte was programmed |
| NvmFlash.Flash.WriteNextPage | src/ASF/xmega/drivers/nvm/nvm.c:627-674 | one page more is written, the byte count strictly grows, and only a non-blank page is erased |
| NvmFlash.Flash.EraseAndWriteBuffer | src/ASF/xmega/drivers/nvm/nvm.c:609-675 | for any page buffer: exactly the given range is replaced (with blank checking) or ANDed (without), leftovers of the page buffer are ANDed into the first page, and erased are exactly the non-blank pages the range reaches |
| NvmFlash.PageStep | src/ASF/xmega/drivers/nvm/nvm.c:668-673 | writing the composed page, with or without erase, extends the written part of the data, with leftovers mixed into the first page only |
| NvmFlash.PagesStep | src/ASF/xmega/drivers/nvm/nvm.c:668-673 | the pages erased so far grow by this page exactly when it was not blank |
| NvmFlash.WithoutBlankCheck | src/ASF/xmega/drivers/nvm/nvm.c:598-675 | without blank checking the data are stored if and only if no target bit has to go from 0 to 1 |
| NvmFlash.FlashStoredExactlyWhen | src/ASF/xmega/drivers/nvm/nvm.c:598-675 | the memory ends up with exactly the data in their range and nothing else changed, if and only if no leftover lacks a bit that its byte of the first page needs and, without blank checking, no target bit has to go from 0 to 1 |
| NvmFlash.StoredWithBlankCheck | src/ASF/xmega/drivers/nvm/nvm.c:598-675 | with an empty page buffer and blank checking any data are stored exactly |
| NvmFlash.LeftoversAndOldBitsSpoil | src/ASF/xmega/drivers/nvm/nvm.c:598-675 | an input for each way to fail: a zero word left over, and a programmed byte without blank checking |
| UsartBaud.RoundsToNearest | src/ASF/xmega/drivers/usart/usart.c:408-432 | the division is off by at most half the divisor when its sum stays in 32 bits |
| UsartBaud.Usart.FindExponent | src/ASF/xmega/drivers/usart/usart.c:379-394 | the loop stops at the first exponent whose limit exceeds the ratio, or at 7 |
| UsartBaud.Usart.FindDivisor | src/ASF/xmega/drivers/usart/usart.c:408-432 | below 2^28 Hz no step leaves 32 bits and the realised divisor D satisfies abs(D b - clock) at most 2^(exp + 2) b |
| UsartBaud.Usart.SetBaudrate | src/ASF/xmega/drivers/usart/usart.c:349-438 | for every baud rate and clock: rejected exactly outside the check, divides by zero exactly for an admitted rate of 0, otherwise programmed; below 2^28 Hz the bit time, of 8 samples at double speed and 16 otherwise, meets the bound on the baud rate itself if and only if the rounded divisor fits twelve bits |
| UsartBaud.AdmittedExactlyWhen | src/ASF/xmega/drivers/usart/usart.c:361-373 | the rate check in products: a bit takes at least 8 (16) clocks, and less than 2^22 (2^23) at the next higher rate |
| UsartBaud.TwiceTheSamples | src/ASF/xmega/drivers/usart/usart.c:376-378 | doubling the rate without CLK2X is right: the bound on the baud rate with 16 samples per bit is the one for twice the rate with 8 |
| UsartBaud.DivisorFits | src/ASF/xmega/drivers/usart/usart.c:379-438 | below exponent 7 the divisor always fits twelve bits |
| UsartBaud.TruncatedDivisor | src/ASF/xmega/drivers/usart/usart.c:434-435 | a divisor that loses its upper bits misses the bound |
| UsartBaud.BelowLastLimit | src/ASF/xmega/drivers/usart/usart.c:379-394 | a ratio below 4095 * 1024 always rounds into twelve bits |
| UsartBaud.RelativeError | src/ASF/xmega/drivers/usart/usart.c:396-431 | with at least 255 clocks per bit the relative error is at most 1/4080 |
| UsartBaud.ExpressibleExactlyWhen | src/ASF/xmega/drivers/usart/usart.c:349-438 | some BSCALE and twelve-bit BSEL meet the bound if and only if 2 * clock <= 8193 * 1024 * rate |
| UsartBaud.OnlyTheTieIsLost | src/ASF/xmega/drivers/usart/usart.c:427-435 | an expressible rate whose rounded divisor does not fit is exactly the tie |
| UsartBaud.TieIsAdmitted | src/ASF/xmega/drivers/usart/usart.c:361-373 | the rate check admits the tie, at 1 baud and 4194816 Hz |
| UsartBaud.AdmittedButInexpressible | src/ASF/xmega/drivers/usart/usart.c:361-373 | the rate check admits 1 baud at 8 MHz, and every register setting misses the bound |
| EncoderRecords.LayoutAgrees | src/encoders.c:261-419 | page address, page index and record address agree; the 128 records are disjoint and clear of the global page |
| EncoderRecords.SavedSettingsReadBack | src/encoders.c:313-419 | after packing, every stored setting given below 0x80 reads back as given (channels counted from one) and every other as before |
| EncoderRecords.SpareBits | src/encoders.c:313-419 | what a save does to the two bits no setting owns |
| EncoderRecords.RecordIsDetermined | src/encoders.c:261-288 | settings and spare bits determine all eight bytes |
| EncoderRecords.GetEncoderConfig | src/encoders.c:261-288 | the eight bytes read are the encoder's own record, unpacked |
| EncoderRecords.PackInto | src/encoders.c:327-406 | the read-modify-write touches the eight bytes of one record in the page buffer |
| EncoderRecords.StoreEncoderConfig | src/encoders.c:319-419 | the EEPROM differs in one record only |
| EncoderRecords.PageOverwrite | src/encoders.c:313-419 | rewriting part of a page and storing the page is rewriting that part |
| EncoderRecords.SaveUpdatesOneEncoder | src/encoders.c:261-419 | after a save the encoder reads back new and kept settings, and the 127 others and the global page are unchanged |
| FactoryReset.TemplateReadsBack | src/encoders.c:424-545 | the factory record unpacks to the factory settings and is seven-bit |
| FactoryReset.BuildTemplate | src/encoders.c:459-510 | the template page holds the four records of the first row |
| FactoryReset.StoreRow | src/encoders.c:514-544 | each turn completes one row of four encoders and leaves the template right for the next |
| FactoryReset.FactoryResetEncoderConfig | src/encoders.c:424-545 | all 128 records are factory records, everything outside the 32 encoder pages is unchanged |
| FactoryReset.ResetReadsBack | src/encoders.c:424-545 | every encoder reads back both MIDI numbers as 16 * bank + encoder, its bank's colours and the default fields |
| FactoryReset.NumbersAreDistinct | src/encoders.c:424-545 | the 128 numbers are all different |
| FactoryReset.SaveKeepsSevenBit | src/encoders.c:313-419 | no save takes bytes 1 to 3 of any record out of seven bits |
| EncoderStore.CopyStaysInTheTable | src/encoders.c:123-317 | the copy to RAM stays among the 128 entries if and only if the encoder is one of the 128 and is not in its shift state |
| EncoderStore.OnePressShifts | src/encoders.c:924-1053 | one press of a switch that toggles the shift state puts its encoder there |
| EncoderStore.SaveEncoderConfig | src/encoders.c:313-419 | for any encoder number: exactly when the copy leaves its table the model ends before the EEPROM is written, otherwise the EEPROM differs in one record only |
| TagValue.DecodeTagPairs | src/config.c:41-55 | decoding undoes tagging, entry by entry, for any table and any stretch of it |
| TagValue.OddLastByte | src/config.c:41-55 | the terminator after the last pair is not looked at |
| TagValue.DecodedTakesLast | src/config.c:41-55 | for any bytes: an entry is left with the value of the last pair that has its tag, or as it was if none has |
| TagValue.TagPairsSplit | src/config.c:229-357 | pairs may be cut into stretches at any entry |
| BulkTransfer.TagsNameEncoders | src/config.c:233-288 | seven-bit wire tags, 0 standing for 128, and (bank, encoder) pairs correspond one to one |
| BulkTransfer.DecodeTagPairs | src/config.c:252-314 | a part's pairs decode to the table entries they were made from |
| BulkTransfer.DecodeLoop | src/config.c:252-269 | the decoding loop computes that table, for any data and size |
| BulkTransfer.PartsCarryData | src/config.c:316-353 | the parts of any data concatenate to the data |
| BulkTransfer.PartsAreNumbered | src/config.c:316-353 | parts are numbered 1 to the announced total and carry their size and chunk of at most 24 bytes |
| BulkTransfer.SendParts | src/config.c:316-353 | for any data below 256 bytes the loop sends exactly those part messages |
| BulkTransfer.PushCommand | src/config.c:231-278 | a malformed part changes nothing; any other is decoded and saved to the named encoder, unless the copy to RAM goes past its table first, which it does exactly for a tag above 128 or a shifted encoder |
| BulkTransfer.StraysExactlyWhen | src/config.c:231-272 | a well-formed push copies past the RAM table if and only if its tag byte is above 0x80 or it names an encoder in its shift state |
| BulkTransfer.LegalPushCanStray | src/config.c:231-272 | after one press of the first encoder's shift switch the legal push 0, 1, 1, 1, 0, F7 does |
| BulkTransfer.PullCommand | src/config.c:280-355 | the reply is the named encoder's settings in parts, or an empty part for a tag that names none |
| BulkTransfer.BulkXferCommand | src/config.c:229-357 | for any arguments: a push that does not stray changes the EEPROM as specified and sends nothing, a pull sends only, other commands do nothing |
| BulkRoundTrip.ReportedSettingStores | src/config.c:295-314 | each reported setting, given back, stores the value it was read from |
| BulkRoundTrip.PushBackKeepsSettings | src/config.c:229-357 | pushing back any stretch of a record's own settings changes no setting and at most one spare bit |
| BulkRoundTrip.ReplyReachesHandler | src/config.c:229-357 | over the wire: the reply sent back by the host calls the handler once per part, with that part |
| BulkRoundTrip.PushOfPart | src/config.c:237-272 | a part made of well-formed pairs is saved as the table it was made from |
| BulkRoundTrip.SavedTwice | src/encoders.c:313-419 | two saves to one encoder restore the EEPROM if and only if they restore its record |
| BulkRoundTrip.PullThenPush | src/config.c:229-357 | pulling and pushing back both parts leaves the whole EEPROM unchanged if and only if record byte 1 is below 0x80 |
| BulkRoundTrip.PartStraysExactlyWhen | src/config.c:229-357 | pushing back either part of an encoder's own reply copies past the RAM table if and only if the encoder is in its shift state |
| BulkRoundTrip.ReplyIsSevenBit | src/config.c:295-314 | the reply's settings are all below 0x80 if and only if record bytes 2 and 3 are |
| BulkRoundTrip.PullThenPushAfterReset | src/encoders.c:261-545 | after a factory reset and any sequence of saves, for every encoder, the reply is seven-bit and pushing it back restores the EEPROM |
| BulkHost.PullIsAnswered | src/config.c:280-355 | the bytes of the answer to a pull, for every record: tags 10 to 24 in order in two parts, the channels counted from 1 to 16, the switch type 0, every other value the field of the record |
| BulkHost.NoSuchEncoder | src/config.c:316-353 | a tag above 128 is answered with one empty part |
| BulkHost.PullAfterReset | src/config.c:280-355 | the bytes of the answer after a factory reset, for every encoder |
| BulkHost.PushStoresLastPairs | src/config.c:231-272 | for any data: each setting takes the value of the last pair with its tag if that is below 0x80 and is kept otherwise, and all other encoders are kept |
| BulkHost.OtherArgumentsStoreNothing | src/config.c:231-250 | arguments that are not a push to some encoder, with its size honest and its part numbered, store nothing |
| GlobalSettings.PackingUndone | src/config.h:89-91 | packing undoes unpacking of the animation-channel and sleep bytes, for every byte |
| GlobalSettings.GlobalTvTableDecode | src/config.c:41-55 | for any bytes: the decoded table, skipping tags 10 to 30, or the index of the first store past the table |
| GlobalSettings.StoresStayInTheTable | src/config.c:41-55 | every index stored to lies in the table if and only if no tag is above 38 |
| GlobalSettings.Tag39Strays | src/config.c:48-52 | a legal message with tag 39 stores to the byte after the table |
| GlobalSettings.Settings.LoadConfig | src/config.c:401-435 | the RAM settings are those of the EEPROM, sleep timeout and animation included |
| GlobalSettings.Settings.SendConfigData | src/config.c:103-137 | after a load the packets of the whole reply message report what the EEPROM holds |
| GlobalSettings.ListedInTagOrder | src/config.c:103-137 | the reply is the table in tag order |
| GlobalSettings.PushConfig | src/config.c:57-101 | the EEPROM after the handler's writes, or none at all if a tag is above 38 |
| GlobalSettings.WrittenInOrder | src/config.c:57-101 | each byte of the EEPROM after the writes, by its address |
| GlobalSettings.ReplyDecodes | src/config.c:41-137 | the reply with its terminator decodes to the reported table |
| GlobalSettings.ReportThenPush | src/config.c:57-137 | report and push rewrite every byte with its own value, except that the side-banked byte becomes 0 or 1 |
| GlobalSettings.RoundTripExactlyWhen | src/config.c:41-137 | over the wire: the reported pairs, pushed by the host, call the push handler once, and the EEPROM is unchanged if and only if the side-banked byte was 0 or 1 |
| GlobalSettings.LegalPushIsNotRestored | src/config.c:41-137 | the legal push 1, 2, F7 stores 2 in the side-banked byte, after which report and push change the EEPROM |
| GlobalHost.ReportOnTheWire | src/config.c:103-137 | the bytes of the report, for every EEPROM: eighteen values under their tags in order, read off the EEPROM with channels counted from one and the packed bytes taken apart |
| GlobalHost.PushStoresLastPairs | src/config.c:41-101 | for any data with its tags in the table: each setting takes the value of the last pair with its tag, or 0; the EEPROM holds these values as stated in numbers and is otherwise unchanged |
| GlobalHost.EmptyPushClears | src/config.c:57-101 | a push that lists nothing sets the MIDI channel to 255, the animation channels to their defaults and the rest to 0 |
| GlobalHost.TimeoutLadder | src/config.c:401-435 | sleep settings 0 to 7 stand for 0, 1, 3, 5, 10, 20, 30 and 60 minutes, any other for never |
| EncoderValues.RotateStaysInRange | src/encoders.c:591-847 | any tick count, velocity and setting keeps the value in 0..12700, the counter in int8 and the indicator in seven bits |
| EncoderValues.ScaledIsSevenBit | src/encoders.c:1772-1785 | sent and shown values are in 0..127 |
| EncoderValues.FeedbackReadsBack | src/encoders.c:1447-1477 | host feedback v reads back as exactly v |
| EncoderValues.NoOverflowUpTo78 | src/encoders.c:682-824 | product and sum stay in 16 bits for every value outside the dead zone and every multiplier if and only if the tick count is at most 78 |
| EncoderValues.MovedIsSaturatedExactlyWhen | src/encoders.c:787-824 | a movement is saturated addition if and only if the sum fits 16 bits; otherwise a turn up by 79 ticks or more ends at 0 |
| EncoderBanks.MatchesShareAController | src/encoders.c:133-174 | values are handed over exactly between encoders that are the same controller to a host: equal type, channel and number, not relative; so matching is symmetric and transitive |
| EncoderBanks.LastMatch | src/encoders.c:143-184 | the last encoder of a bank with an equal mapping, or none |
| EncoderBanks.ValuesAfterTransfer | src/encoders.c:143-184 | every other-bank encoder takes the value of the last encoder of the bank with an equal mapping, or keeps its own if there is none; the bank's own values stay |
| EncoderBanks.TransferIsIdempotent | src/encoders.c:143-184 | transferring twice is transferring once |
| EncoderBanks.ThereAndBack | src/encoders.c:1708-1753 | what an encoder holds after going to another bank and back |
| EncoderBanks.RoundTripExactlyWhen | src/encoders.c:1708-1753 | the bank is restored if and only if every encoder of it is settled |
| EncoderBanks.SharedMappingIsNotRestored | src/encoders.c:1708-1753 | with all encoders mapped alike, going from bank 0 to bank 1 and back gives the first encoder the value of the last |
| EncoderBanks.DistinctMappingsAreSettled | src/encoders.c:1708-1753 | without two equal mappings in the bank, it is restored |
| EncoderRuns.BankChangeKeepsBounds | src/encoders.c:1708-1753 | a bank change keeps all values and indicators in range |
| EncoderRuns.SwitchKeepsBounds | src/encoders.c:924-1053 | resets and shift switches keep all values and indicators in range |
| EncoderRuns.FeedbackKeepsBoundsExactlyWhen | src/encoders.c:1447-1477 | feedback of any byte keeps all values and indicators in range if and only if it is at most 127 or refused |
| EncoderRuns.NextKeepsBoundsExactlyWhen | src/encoders.c:576-1477 | every event keeps all 256 raw values in 0..12700 and all indicators in 0..127, except accepted feedback above 127, which never does |
| EncoderRuns.RunStaysBoundedExactlyWhen | src/encoders.c:576-1477 | over every run from a bounded state: the tables are within bounds after every event if and only if no feedback above 127 is accepted |
| EncoderRuns.LegalRunsStayBounded | src/encoders.c:576-1477 | every run of events that legal MIDI and the hardware can cause stays within bounds |
| EncoderRuns.LeavingABank | src/encoders.c:1708-1753 | a bank change hands over base and shifted values and leaves those of the bank it leaves alone |
| EncoderRuns.BanksThereAndBack | src/encoders.c:1708-1753 | on the whole tables: returning restores the bank's values if and only if its encoders are settled |
| EncoderRuns.FeedbackIsShown | src/encoders.c:1447-1477 | accepted feedback of any byte is stored and, for the value in use, shown as exactly that number, and reads back if it is at most 127; refused feedback changes nothing |
| EncoderRuns.TurningUpLowersExactlyWhen | src/encoders.c:591-824 | a turn up lowers the value exactly when a leftover detent counter pushes it out downwards, inside the detent or at the top end, or the 16-bit sum wraps |
| EncoderRuns.TurningDownRaisesExactlyWhen | src/encoders.c:591-824 | a turn down raises the value exactly when a leftover detent counter pushes it out upwards, inside the detent or at the bottom end |
| EncoderRuns.TurningUpNeverLowers | src/encoders.c:591-824 | an absolute movement up by at most 78 ticks never lowers the value |
| EncoderRuns.SeventyNineTicksDrop | src/encoders.c:591-824 | feedback 126, one slow tick and 79 fast ones take a velocity-sensitive encoder to 12600, 12625 and 0 |
| EncoderRuns.DetentPushesBack | src/encoders.c:650-679 | 20 ticks down from the middle, one up and one up: the last turn up lowers the value from 6340 to 6240 |
| EncoderRuns.DetentPushesForward | src/encoders.c:650-679 | 20 ticks up from the middle, one down and one down: the last turn down raises the value from 6350 to 6450 |
| EncoderTurns.LeavingTheBottom | src/encoders.c:682-715 | at the bottom end, for any counter: a turn down changes nothing, a turn up is counted in eight bits and takes the value to 100 once the count exceeds 2 |
| EncoderTurns.LeavingTheTop | src/encoders.c:682-715 | the mirror at the top end and beyond it |
| EncoderTurns.ThirdTickLeavesTheBottom | src/encoders.c:682-715 | over turns to and fro: from 0 the value stays until the ticks up exceed 2, then it is 100 with the counter at 0 |
| EncoderTurns.ThirdTickLeavesTheTop | src/encoders.c:682-715 | and from 12700 it goes to 12600 |
| EncoderTurns.ManyTicksDoNotLeave | src/encoders.c:682-715 | 126 ticks at once on top of two wrap the counter and leave the encoder at the bottom end |
| EncoderTurns.LeavingTheDetent | src/encoders.c:650-679 | inside the detent, for any counter: the value holds and 63 is shown within eight ticks of 0, beyond it goes to 6450 or 6240 and the count is kept |
| EncoderTurns.StaysInTheDetent | src/encoders.c:650-679 | over turns to and fro that never add up to more than eight either way the value does not move |
| EncoderTurns.TicksMove | src/encoders.c:787-824 | elsewhere a tick is worth 25, 100, 178 or 25 to 255 hundredths of a step by the settings, clamped, and the display shows the value rounded to nearest |
| EncoderTurns.RelativeTurnsChangeNothing | src/encoders.c:719-785 | a relative encoder outside its detent changes nothing |
| EncoderTurns.TurnsTouchOneValue | src/encoders.c:591-824 | a turn changes only the value in use, the display and the counter of its encoder |
| EncoderTurns.ResetRests | src/encoders.c:924-967 | a reset leaves 6300, 0 or 12700 by detent and action, shown as 63, 0 or 127, with the counter at 0, and nothing else changed |
| EncoderTurns.ResetThenThreeTicks | src/encoders.c:682-967 | three ticks inwards after a reset to an end move the value to 100 or 12600, three outwards do not |
| EncoderTurns.HoldShifts | src/encoders.c:968-1007 | a shift-hold switch puts the shifted value in use and on display while down, and the base value after its release |
| EncoderTurns.ToggleTwice | src/encoders.c:1008-1053 | a shift-toggle switch changes over at each press; two presses restore everything but the display, which shows the base value |
| EncoderTurns.OtherSwitchesLeaveValues | src/encoders.c:924-1053 | no other switch action, nor the release of a toggle, touches values, displays or counters |
| EncoderTurns.FeedbackIsAcceptedExactlyWhen | src/encoders.c:1447-1477 | the exact condition for feedback to be let through, and all that it then changes: the value it is for, and the display if that value is in use |
| EncoderTurns.DisplaysAfterBankChange | src/encoders.c:1708-1753 | after a bank change every encoder of the old and the new bank shows its value in use; one of a third bank shows what its last match in the old bank showed, or what it showed before |
| EncoderState.Encoders.InitValues | src/encoders.c:227-235 | encoders with a detent start in the middle, the others at zero, shifted values too |
| EncoderState.Encoders.HandOver | src/encoders.c:151-174 | the loop body changes the one encoder it looks at, base and shifted value and display each on their own channel |
| EncoderState.Encoders.TransferThis | src/encoders.c:143-177 | one encoder's value and display reach exactly the matching encoders of the other banks |
| EncoderState.Encoders.TransferAll | src/encoders.c:179-184 | the nested loops leave each encoder with the value of its last match |
| EncoderState.Encoders.ChangeEncoderBank | src/encoders.c:1708-1753 | values, displays and current bank are those of the specification |
| EncoderState.Encoders.RotaryDetent | src/encoders.c:650-679 | handles exactly encoders inside their detent, leaving it after more than eight ticks |
| EncoderState.Encoders.RotaryDeadZone | src/encoders.c:682-715 | handles exactly absolute encoders at either end, leaving it after more than two ticks inwards |
| EncoderState.Encoders.RotaryAbsolute | src/encoders.c:787-824 | value, display and sent value after a clamped 16-bit movement |
| EncoderState.Encoders.ProcessRotary | src/encoders.c:591-647 | the three cases in order refine one specification of a rotation |
| EncoderState.Encoders.ProcessSwitch | src/encoders.c:924-1053 | resets and shift switches change exactly the tables the specification says |
| EncoderState.Encoders.ProcessIndicatorUpdate | src/encoders.c:1447-1477 | feedback of any byte is stored and shown, or ignored at the detent or while turning |
| EncoderState.Encoders.HandleEvent | src/encoders.c:576-1477 | each event takes the tables to the specified next tables |
| EncoderState.Encoders.Run | src/encoders.c:576-1477 | any run ends in the specified tables, and a legal one within bounds |
| Quadrature.ActionIsMovement | src/input.c:281-286 | the table gives the shaft's movement for every position; only two-bit jumps are ambiguous |
| Quadrature.DecodesDisplacement | src/input.c:289-407 | over any stream the decoded actions add up to the displacement of whatever movement produced it |
| Quadrature.SomeMovementShows | src/input.c:281-286 | every stream without two-bit jumps comes from some movement |
| Quadrature.NothingIsLost | src/input.c:336-417 | over any run of scans and reads, returned, pending and rejected counts add up to the displacement of the shaft that produced the samples, less 256 for each wrap of the pending count upwards net of those downwards |
| Quadrature.NeverWraps | src/input.c:336-417 | with at most 127 samples between two reads the pending count never wraps |
| Quadrature.ReadInTimeLosesNothing | src/input.c:336-417 | so then the counts add up exactly |
| Quadrature.TheNextOneWraps | src/input.c:336-417 | a steady turn wraps at its 128th sample and not before |
| Quadrature.DecodedIsAccountedFor | src/input.c:336-417 | for any samples without two-bit jumps they add up to the sum of the decoded actions, less the same |
| Quadrature.BurstCountsOnce | src/input.c:342-398 | alternating events fewer than six scans apart contribute at most their first event, however many they are |
| Quadrature.OnlyEarlyEventsAreRejected | src/input.c:334-417 | over every run since power-up, two-bit jumps included: rejected are exactly the events fewer than six scans after one in the other direction, or first of all and among the first five scans; all others are returned or pending |
| Quadrature.UnhurriedTurnsCount | src/input.c:334-417 | when events in different directions are six scans apart, the counts returned and pending add up to the shaft's movement, up to wraps |
| Quadrature.FirstClickIsLost | src/input.c:345-398 | an event in the first scan after power-up is rejected |
| Quadrature.CyclesSinceLastEvent | src/input.c:353-398 | a counted event adds the scans since the event before it, at most 101, to the cycle count; a rejected one adds none |
| Quadrature.Scanner.EncoderScan | src/input.c:334-406 | all sixteen encoders take one step of the filter |
| Quadrature.Scanner.ScanOne | src/input.c:341-398 | the branches of the loop body are that step, and touch one encoder |
| Quadrature.Scanner.GetEncoderValue | src/input.c:412-417 | returns the pending count and clears it |
| Quadrature.Scanner.GetEncoderCycleCount | src/input.c:419-423 | returns the cycle count and clears it |
| SwitchDebounce.OrIsAnyOf | src/input.c:435-439 | a bit is set if and only if some sample has it |
| SwitchDebounce.Debouncer.AddSample | src/input.c:312-315 | the ring holds the last ten samples |
| SwitchDebounce.Debouncer.Update | src/input.c:430-449 | the state is the union of the last ten samples; up and down are its changes |
| SwitchDebounce.EdgesAlternate | src/input.c:430-449 | over any interleaving of samples and polls each switch's edges alternate, starting with a press |
| SwitchDebounce.EdgesNeedSamples | src/input.c:430-449 | the masks are disjoint; a release needs ten open samples in a row, a press one closed among ten, and nothing else |
| SwitchDebounce.BouncingIsOnePress | src/input.c:312-449 | a switch never open for ten samples in a row is reported as exactly one press over any run, or as nothing if already reported |
| SwitchDebounce.OpenIsOneRelease | src/input.c:312-449 | a switch open for ten samples and from then on is reported as exactly one release, or as nothing |
| PatternMemory.StepsReadBack | src/sequencer_input.c:444-449 | a packed step below 128 reads back with its low three bits cleared, and packs to the same byte again |
| PatternMemory.LevelReadsBack | src/sequencer_input.c:463-470 | a seven-bit level and its flag read back |
| PatternMemory.FxFlagsReadBack | src/sequencer_input.c:472-482 | the stored nibble tells each voice's effect send |
| PatternMemory.StepsLayout | src/sequencer_input.c:429-452 | bytes 0 to 31 of a saved slot hold two steps each, divided by eight, the first in the upper half |
| PatternMemory.LevelsLayout | src/sequencer_input.c:456-470 | bytes 32 to 43 hold the clips, then filter and volume of each voice with 128 added for the flag |
| PatternMemory.EffectBits | src/sequencer_input.c:472-482 | byte 44 holds the effect flags in its lower four bits, voice 0 lowest |
| PatternMemory.MarkAndRest | src/sequencer_input.c:482-494 | byte 45 is A5 and the rest repeats the first page |
| PatternMemory.SlotsByAddress | src/sequencer_input.c:396-498 | slot i begins at byte 992 + 64 i; a save replaces its 64 bytes, a delete its byte 45 |
| PatternMemory.SettingsAfterSave | src/sequencer_input.c:429-556 | loading after a save restores clips, filters and volumes exactly and leaves the flags |
| PatternMemory.StepsAfterSave | src/sequencer_input.c:429-517 | loading after a save rounds each step down to a multiple of eight |
| PatternMemory.StepsAreRounded | src/sequencer_input.c:444-517 | a step v loads as v - v mod 8 |
| PatternMemory.SavedAgainExactlyWhen | src/sequencer_input.c:429-556 | a second save writes the same bytes if and only if the flags are the saved ones |
| PatternMemory.ToggledMuteIsSavedDifferently | src/sequencer_input.c:429-556 | a mute toggled after the save makes the second save differ |
| PatternMemory.StateStep | src/sequencer_input.c:396-498 | after one save or delete a scan finds what the RAM word says |
| PatternMemory.StateAgreesWithEeprom | src/sequencer_input.c:396-498 | so it does after any sequence of saves and deletes |
| PatternMemory.RestIsUntouched | src/sequencer_input.c:420-498 | any sequence leaves every byte outside the slots operated on alone |
| PatternMemory.SavedSlotSurvives | src/sequencer_input.c:420-498 | a saved slot keeps its pattern through any operations on other slots |
| PatternMemory.DeleteOnlyHides | src/sequencer_input.c:420-556 | after a delete the slot is not full, but a load would still take from it what it took before |
| PatternMemory.EncodersLieBelow | src/constants.h:82-143 | the encoder records of the four-bank build lie below every slot |
| PatternMemory.HostIsToldOfTheSavedFlags | src/sequencer_input.c:523-546 | a filter or mute toggle is sent if and only if the saved flag differs from the current one |
| PatternMemory.HostIsToldOfTheSavedEffects | src/sequencer_input.c:547-555 | every effect switch is sent as it was saved |
| PatternMemory.LoadingSends | src/sequencer_input.c:519-546 | the toggles sent, all of them and in order, voice by voice: filter (24 + voice) and mute (20 + voice) where the saved flag differs |
| PatternMemory.EffectsSent | src/sequencer_input.c:547-555 | then the four effect switches (106 + voice), 127 or 0 as saved |
| PatternMemory.Sequencer.PatternMemoryInit | src/sequencer_input.c:396-414 | the RAM word becomes the set of slots with the flag byte |
| PatternMemory.Sequencer.DeletePatternMemory | src/sequencer_input.c:420-427 | flag byte and RAM word of one slot are cleared, nothing else |
| PatternMemory.Sequencer.SavePatternMemory | src/sequencer_input.c:429-498 | two pages hold the current pattern, the slot is marked full, nothing else changes |
| PatternMemory.Sequencer.LoadPatternMemory | src/sequencer_input.c:500-556 | pattern buffer 0 is selected and holds the decoded slot, the other buffers are unchanged, and the controls sent are as specified |
| SleepManager.DeepestAllowedIsUnique | src/ASF/common/services/sleepmgr/sleepmgr.h:185-205 | at most one mode is the shallowest with a lock outstanding, or the deepest if none |
| SleepManager.SearchStops | src/ASF/common/services/sleepmgr/sleepmgr.h:192-196 | the search stops at the first non-zero count, and inside the array if and only if there is one |
| SleepManager.SearchLeavesTheArrayExactlyWhen | src/ASF/common/services/sleepmgr/sleepmgr.h:112-205 | over every run of locks and unlocks: it leaves the array if and only if the deepest mode is one unlock ahead and no other mode is held, and otherwise finds the deepest mode allowed |
| SleepManager.MatchedLocksEndTheSearch | src/ASF/common/services/sleepmgr/sleepmgr.h:185-205 | with matched unlocks the search never leaves the array |
| SleepManager.AfterAnUnmatchedUnlock | src/ASF/common/services/sleepmgr/sleepmgr.h:159-205 | after an unmatched unlock it ends if and only if some mode is still held |
| SleepManager.OneUnlockTooMany | src/ASF/common/services/sleepmgr/sleepmgr.h:112-205 | one unlock of the deepest mode right after the initialisation passes its assertion and makes the search leave the array |
| SleepManager.SleepManager.Init | src/ASF/common/services/sleepmgr/sleepmgr.h:112-122 | no locks outstanding, one extra count for the deepest mode |
| SleepManager.SleepManager.LockMode | src/ASF/common/services/sleepmgr/sleepmgr.h:132-149 | one lock more on record, every count still a uint8 |
| SleepManager.SleepManager.UnlockMode | src/ASF/common/services/sleepmgr/sleepmgr.h:159-176 | one lock fewer; only the deepest mode can be unlocked unmatched, and then the search still ends if and only if some mode is held |
| SleepManager.SleepManager.GetSleepMode | src/ASF/common/services/sleepmgr/sleepmgr.h:185-205 | returns the deepest mode allowed, or leaves the array under exactly that condition |

## Left out

- Pins, timers, DMA, clocks, the watchdog, interrupt masking, USB descriptors and LUFA class calls: sampled pin levels are parameters, outgoing MIDI is a trace of packets or control changes.
- Display drawing, colours, colour maps and animations, apart from the indicator values.
- The floating-point velocity formula and the super knob: the velocity multiplier is any number, brought into 25..255 as the firmware does.
- The messages that rotary and switch events send (except the value of an absolute encoder), MIDI feedback routing by channel and number, native mode, the bank-select overlay and the side-switch actions: flat case analysis.
- What `save_encoder_config` copies to RAM (`src/encoders.c:316-317`), as opposed to where, and every other effect of settings messages on RAM: the storage results are about EEPROM.
- Sequencer playback, note triggering and display, and the filter and volume messages commented out in the loader.
- Legacy serial MIDI (compiled out), bootloader and reset paths, and the contents of the identity reply.
- `nvm_user_sig_write_buffer`: one page, the same loop.
- The uint16 and uint32 items of the FIFO: the same code over other widths; the item is a type parameter and is not truncated.
- FifoInterleaving.EveryInterleavingIsAQueue: each access is one step in program order; compilers or processors that reorder past `barrier()` and a flush during an interleaved access are not modelled.
- SysexReceiver.SysexReceiver.Handle3e: what the firmware does after writing through the null cursor is undefined; the model ends there.
- SysexReceiver.SysexReceiver.Handle: the handler's own work is not part of the receiver; a call is recorded with its bytes.
- UsartBaud.Usart.SetBaudrate: from 2^28 Hz on, where the shift of the clock by four bits may leave 32 bits, the arithmetic wraps as in C and nothing is claimed about the divisor; the device runs at 32 MHz.
- EncoderStore.SaveEncoderConfig: what follows a copy past the RAM table is undefined, and for a tag above 128 so is reading the shift state before it; the model ends there, with the EEPROM as it was.
- GlobalSettings.GlobalTvTableDecode: what follows the first store past the table is undefined; the model ends there, before any EEPROM write.
- NvmFlash.Flash.EraseAndWriteBuffer: the range lies inside the flash and the data length is a natural number; sizes are those of the ATxmega128A4U (`src/ASF/xmega/drivers/nvm/nvm.h:512-515`). Loading a word onto a leftover is taken to AND it, as for EEPROM: the driver only asks for the buffer to be flushed before (`src/ASF/xmega/drivers/nvm/nvm.h:624-629`).
- Nvm.Eeprom.EraseAndWriteBuffer: the range lies inside the 2048-byte EEPROM of that device, whose header is not part of this model.
- SwitchDebounce.Debouncer.Update: 16-bit switch words are sets of switches, `|`, `&` and `^` being union, intersection and symmetric difference.
- PatternMemory.Sequencer.SavePatternMemory: the RAM word is the set of full slots; slot numbers are below 16, as the sixteen switches give them.
- SleepManager.SleepManager.LockMode: asks for a count below 0xff, as the source asserts.
