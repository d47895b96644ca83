# Throwback, verified

Throwback reads and writes game cartridges through a GBxCart RW, builds Nintendo Power "GB Memory"
cartridges, and patches ROMs. This project models the parts of it where mistakes cost a cartridge's
contents, and proves them correct for every input, every prior content and every pattern of read
timeouts that the model admits.

Run `dafny verify dfyconfig.toml`.

## The pieces

- **The GBxCart and its carts** (`FlashChip`, `Cartridges`, `GbxCore`, `GbxWire`, `GbxStreams`,
  `GbxLink`, `SimGbx`).
  The repository's device simulator is an executable specification of the firmware. It is a class
  here, one method per routine, and every method is tied to a function on values. The simulator's
  panics are an absorbing `dead` state that no flow may reach. A link may be lossy: which answers
  time out, and how much of each is gone by then, is fixed beforehand for the whole run (`Link`),
  and theorems about faults are stated in terms of it.
- **The driver** (`GbxDriver`, `DmgDump`, `DumpKind`, `DmgSaves`, `SaveFlows`, `FlashErase`,
  `FlashProgram`, `FlashRom`, `FlashWrite`, `FlashProbe`, `AgbDump`). Methods over that device, with
  the loops and early returns of the source. The ghost field `inStep` records whether host and
  device agreed, at every write so far, on whether a command or raw data came next. `flash_rom` keeps it from every
  device in command mode, faults included; `write_rom`, which parks the bus afterwards, does not
  always (`FlashWrite`).
- **GB Memory** (`SimGbMemory`, `GbMemorySequences`, `GbMemoryDriver`, `GbMemoryFlows`,
  `GbMemoryImage`, `GbMemoryBytes`, `GbMemoryExtract`, `SaveSlots`, `GbMemoryEndToEnd`). The second
  simulator, the flows over it, the image assembler and extractor, and the theorem that joins them.
  The simulator ignores much of what the real mapper insists on, so the flows also say, write by
  write, what the mapper hears. The source's driver is generic over its transport; here each
  simulator has a driver class of its own.
- **Patches** (`Varint`, `Bps`, `BpsLaws`, `Ups`, `UpsLaws`, `Ips`).
- **Islands** (`Dither`, `BoxAverage`, `Calendar`, `CameraTiles`, `CameraAlbum`, `CameraBytes`,
  `SnesTrim`).

Where a specification names a function of its own (a code table, a checksum, a weighting), a law
states the function's results again on plain bytes: `GbMemoryBytes`, `CameraBytes`, `BpsLaws`,
`UpsLaws`, `DumpKind` and the rows below that speak of bytes.

## What the proofs found

- A DMG flash write whose padded size is over 16 KiB and no multiple of it is programmed correctly
  and then always reported as failed: the read-back covers whole banks only (`FlashRom.VerifyWrite`,
  `FlashRom.OddSizeFails`).
- When the answer to the write that enables save RAM is lost, the call returns at once and RAM stays
  on, whatever the mapper (`SaveFlows.LeftOnOneWrite`, `SaveFlows.LostEnableRun`).
- An MBC1's disable plan has two writes; a lost answer to the first, or a stale byte read for it,
  leaves RAM on (`SaveFlows.CloseRam`, `SaveFlows.LeftOnTwoWrites`, `SaveFlows.StaleByteRun`).
- `write_rom` parks the bus after a failed write. When the lost answer was to a chunk in the middle
  of a buffered group, the device takes the parking command for data, host and device are out of
  step, and the next write fails too (`FlashWrite.WriteRom`, `FlashWrite.LostGroupRun`).
- The probe does not recognise a chip that holds its own ID in its first eight bytes, nor ever, over
  the simulated cart, the SST one (`FlashProbe.RecognisedExactly`).
- A plain MBC1 ROM of 1 MiB or more that holds its own logo a second time in bank 0x10 is dumped as
  a multicart (`DumpKind.SettledKind`).
- `read_map` cannot tell a map that equals the first 128 bytes of the flash
  (`GbMemoryFlows.ReadMap`).
- A full-mode cartridge with a 32 KiB ROM-only game and no RAM is not extracted
  (`GbMemoryExtract.FullModeExtract`).
- Save reservations are not checked against 128 KiB; beyond it slots are lost or shared
  (`SaveSlots.IsolatedExactly`, `SaveSlots.OverBudgetCollides`).
- Overwriting an occupied camera slot that is not the last photo gives two photos one position
  (`CameraAlbum.EnteredWellFormed`).
- Variable-length integers of eleven and more bytes are accepted (`Varint.ReadUnique`).
- A UPS cursor that wraps at the machine word can change a position twice, and need not
  (`Ups.WrappedCursorRepeats`, `Ups.WrappedCursorMayMiss`).
- The SST profile's unlock addresses lie in an MBC5's bank registers; over the simulated cart its
  erase sequence never erases (`FlashErase.SwitchedUnlockNeverErases`).
- The simulated MBC5 has one RAM bank (`DmgSaves.Mbc5SaveExact`).

The comment above the padding in `flash_rom` argues that sector sizes are group multiples; the
table's entries are checked for it (`FlashRom.ProfilesSound`).

## Model

| member | source | states |
|---|---|---|
| FlashChip.SimFlashChip.WriteCommand | tests/gbxcart_sim/mod.rs:341-378 | One command-register write moves the six-cycle state machine as the source does, case by case; a sector erase past the end of the chip is the simulator's panic. |
| FlashChip.EraseNeedsSequence | tests/gbxcart_sim/mod.rs:341-378 | Whatever is written to a chip in read mode, its data changes only if six consecutive writes among them are the five unlock cycles in order and an erase. |
| FlashChip.SimFlashChip.ReadByte | tests/gbxcart_sim/mod.rs:380-390 | Autoselect answers the ID, a busy chip answers 0x00 and uses up one busy answer, otherwise the cell or 0xFF past the end. |
| FlashChip.SimFlashChip.ProgramBytes | tests/gbxcart_sim/mod.rs:392-401 | Programming ANDs every byte into its cell and drops what lies past the chip; nothing else changes. |
| FlashChip.ProgrammedSplit | tests/gbxcart_sim/mod.rs:392-401 | Programming two adjacent pieces is programming their concatenation. |
| Cartridges.SimDmgCart.BusRead | tests/gbxcart_sim/mod.rs:185-235 | A bus read answers what the mapper shows (ROM window, RAM bank, nibbles, clock) and changes at most the chip's busy count. |
| Cartridges.SimDmgCart.BusWrite | tests/gbxcart_sim/mod.rs:236-310 | A bus write updates the registers and RAM of the seven modelled mappers as the specification function says. |
| DmgDump.LockedRam | tests/gbxcart_sim/mod.rs:236-310 | While RAM is off no sequence of bus writes changes RAM or clock, unless one of them is the enable. |
| Cartridges.SimAgbCart.ReadRom | tests/gbxcart_sim/mod.rs:437-452 | ROM bytes, then the pad byte or the open-bus counter; a flash chip answers for all of it. |
| SimGbx.SimGbxCart.AgbReadStream | tests/gbxcart_sim/mod.rs:644-667 | Words from the cursor until the auto-increment stall at word 0x800000, which cuts the answer short. |
| SimGbx.SimGbxCart.ExecFlashProgram | tests/gbxcart_sim/mod.rs:1027-1080 | A chunk is programmed at the cursor; a partly filled buffered group answers "continue" and expects raw data, a full one resets the fill count; unconfigured programming is fatal. |
| SimGbx.SimGbxCart.PumpWire | tests/gbxcart_sim/mod.rs:1083-1165 | The parser loop consumes every complete command received so far, one after the other, and nothing else. |
| SimGbx.SimGbxCart.WriteAll | tests/gbxcart_sim/mod.rs:1173-1177 | A host write has the meaning `Received`, and the monitor stays true only while host and device agree on whether raw data or a command comes next. |
| SimGbx.SimGbxCart.ReadExact | tests/gbxcart_sim/mod.rs:1179-1193 | A read succeeds exactly when the answer is complete and not lost; a short one consumes what there is, a lost one as much as the link says. |
| GbxWire.RawProgramData | tests/gbxcart_sim/mod.rs:1083-1165 | While the device expects a chunk, the host's bytes are taken as that chunk and as nothing else. |
| GbxWire.FlashCmdFrame | tests/gbxcart_sim/mod.rs:1083-1165 | A counted flash-command frame is parsed back into the writes it was built from and acknowledged once. |
| Protocol.ParsePairsInverse | src/device/gbxcart/protocol.rs:218-229 | Parsing the body of a flash-command frame gives the address/value pairs that were serialized. |
| Protocol.SlotsParsed | src/device/gbxcart/protocol.rs:196-214 | The device reads the command slots out of a SET_FLASH_CMD frame again, zeros in those not given. |
| Protocol.FrameBytes | src/device/gbxcart/protocol.rs:141-148 | SET_VARIABLE frames of the driver's variables byte for byte: opcode, width, key and value, high bytes first. |
| Protocol.CommandBytes | src/device/gbxcart/protocol.rs:160-229 | Bus-write, checksum and flash-command frames byte for byte. |
| GbxStreams.AgbStreamQuiet | tests/gbxcart_sim/mod.rs:644-667 | A stream that starts on a fresh address, or ends by word 0x800000, never meets the stall and delivers every word of the bus. |
| GbxDriver.GbxCart.ExpectAck | src/device/gbxcart/mod.rs:185-196 | 0x01 is done, 0x03 is continue; it fails exactly when the answer is lost, missing or anything else. One answer is asked for. |
| GbxDriver.GbxCart.SetVariable | src/device/gbxcart/mod.rs:216-218 | The variable reaches a device in command mode whatever happens to its answer; a device left in the middle of a chunk takes the frame for raw data and the call fails. |
| GbxDriver.GbxCart.ReadStream | src/device/gbxcart/mod.rs:228-237 | The answer is the first bytes of one read opcode per chunk; what a last partial chunk leaves over stays unread. |
| GbxDriver.GbxCart.ReadAt | src/device/gbxcart/mod.rs:239-252 | A streamed read from an address with an explicit chunk size, and the exact device state after it. |
| GbxDriver.GbxCart.ReadDmgRomChunk | src/device/gbxcart/mod.rs:371-376 | A ROM read through the bus, whole chunks at a time. |
| GbxDriver.RomReadWindow | src/device/gbxcart/mod.rs:371-376 | Over a quiet cart the chunk read is the ROM window the mapper shows, and whole chunks leave nothing unread. |
| GbxDriver.GbxCart.EnterDmgMode | src/device/gbxcart/mod.rs:267-293 | DMG mode, powered, mapper reset; with nothing left unread it fails exactly when one of its answers is lost, the mapper is then reset just when that write was reached, and the signals sent are the first of mode, 5 V, power if it was off, reset: no power before the voltage. |
| GbxDriver.GbxCart.EnterAgbMode | src/device/gbxcart/mod.rs:254-264 | AGB mode, powered, booted, read method and interrupt off; it fails exactly when one of its answers is lost, and the signals sent are the first of mode, 3.3 V, power if it was off, boot-up: never 5 V. |
| GbxDriver.GbxCart.Idle | src/device/gbxcart/mod.rs:379-381 | Parking the bus changes nothing of a device in command mode; a device in the middle of a chunk takes the command for its next raw byte. |
| DmgDump.PlanShowsBank | src/device/gbxcart/mbc.rs:80-104 | For every mapper, every bank within its capacity and every mapper state in the dump's banking mode, the bank-write plan puts that bank in the window the dump reads. |
| DmgDump.DumpIsRom | src/device/gbxcart/mbc.rs:143-190 | By induction over the banks: the dump through the matching plan equals the ROM contents, and ROM, flash and mode survive it. |
| DmgDump.Mbc1DumpExact | src/device/gbxcart/mbc.rs:74-104 | Beyond 512 KiB an MBC1 dump is the ROM if and only if each bank 0x20, 0x40, 0x60 that is dumped equals the bank after it. |
| DmgDump.DumpResultIsRom | src/device/gbxcart/mbc.rs:143-190 | Reset, mode write, probe and bank loop together: within capacity the result is the ROM, cut to whole 16 KiB banks when larger than one. |
| DmgDump.MulticartDump | src/device/gbxcart/mbc.rs:143-200 | A 1 MiB multicart declared as MBC1 is recognised by its duplicate logo and dumped whole, including the sub-banks only the fixed window shows. |
| DmgDump.ProbeMbc1M | src/device/gbxcart/mbc.rs:194-201 | On MBC1 wiring the answer is whether the ROM has the header's logo a second time in bank 0x10 (multicart wiring: at its start), byte by byte; bank 1 is left selected. |
| DumpKind.SettledKind | src/device/gbxcart/mbc.rs:151-158 | The dump drives a multicart if and only if it was asked for an MBC1 of at least 1 MiB whose ROM shows the logo twice; any other kind is driven as asked for. |
| DumpKind.PlainMbc1Dump | src/device/gbxcart/mbc.rs:143-201 | A plain MBC1 of 1 to 2 MiB without a second logo is dumped as one, and the dump is the ROM if and only if each of the banks 0x20, 0x40 and 0x60 that is dumped equals the next. |
| DmgDump.DumpDmgRom | src/device/gbxcart/mbc.rs:143-190 | Whatever reads time out, an Ok result is exactly the specified dump and the flash is untouched; it fails only on a lossy link. |
| DmgSaves.SaveRoundTrip | src/device/gbxcart/mbc.rs:203-287 | Reading a written save gives it back, and RAM beyond it is unchanged, whenever the mapper really shows its banks. |
| DmgSaves.Mbc5SaveExact | tests/gbxcart_sim/mod.rs:205-263 | The simulated MBC5 ignores the RAM bank register: a save of whole banks comes back if and only if all its banks equal the last one. |
| DmgSaves.Mbc2RoundTrip | tests/gbxcart_sim/mod.rs:214-263 | An MBC2 save comes back as its low nibbles with 0xF0 set. |
| SaveFlows.ReadDmgSave | src/device/gbxcart/mbc.rs:203-246 | On every return RAM contents are unchanged and RAM is on exactly when `LeftOn` says so of the answers lost; an Ok result is the save, with RAM off; it fails only on a lossy link. |
| SaveFlows.WriteDmgSave | src/device/gbxcart/mbc.rs:248-287 | RAM is on after it exactly when `LeftOn` says so; an Ok result means RAM is off and holds the save and its old contents beyond it; it fails only on a lossy link. |
| SaveFlows.CloseRam | src/device/gbxcart/mbc.rs:127-139 | Every plan but the MBC1's is one write that lands whatever its answer; an MBC1's RAM stays on exactly when the first answer of its plan is lost or a left-over byte that is no status is read for it. |
| SaveFlows.OpenRam | src/device/gbxcart/mbc.rs:203-216 | Mode entry and enable plan: it fails exactly when one of its answers is lost; RAM is as before until the mapper reset is sent, off then, and on from the first enable write. |
| SaveFlows.LeftOnOneWrite | src/device/gbxcart/mbc.rs:106-139 | For every mapper but the MBC1: a transfer leaves RAM on if and only if the first lost answer is the enable write's, or it was on before and the loss comes ahead of the mapper reset. |
| SaveFlows.LeftOnTwoWrites | src/device/gbxcart/mbc.rs:106-139 | For an MBC1 save write: RAM stays on if and only if the first lost answer is an enable write's, is the first disable write's, or is a transfer's and the first disable answer is lost too; or it was on and the mapper reset was not sent. |
| SaveFlows.ReliableTurnsOff | src/device/gbxcart/mbc.rs:203-287 | Over a link that loses nothing no mapper's RAM is left on. |
| SaveFlows.LostEnableAnswer | src/device/gbxcart/mbc.rs:216 | On a fresh device the loss of the ninth answer alone leaves every mapper's RAM on, reading or writing. |
| SaveFlows.LostEnableRun | src/device/gbxcart/mbc.rs:203-246 | A whole MBC5 save read that fails with RAM left on. |
| SaveFlows.StaleByteRun | src/device/gbxcart/mbc.rs:203-246 | A whole MBC1 save read that loses a data answer, reads a left-over byte for the first disable answer, and leaves RAM on. |
| SaveFlows.SaveSurvives | src/device/gbxcart/mbc.rs:203-287 | Write then read through the device returns the data (MBC2: nibbles, then 0xFF), with RAM off afterwards; over a lossless link it always succeeds. |
| FlashErase.SectorErase | src/device/gbxcart/flash.rs:318-329 | The six writes, seen through the mapper they also switch, erase exactly the sector in the selected window and no other cell. |
| FlashErase.SwitchedUnlockNeverErases | src/device/gbxcart/flash.rs:91-102 | With the 0x5555/0x2AAA unlock addresses of the SST profile no erase sequence changes a cell of a chip behind the simulated MBC5: the second cycle switches the bank under the third. |
| FlashErase.ChipErase | src/device/gbxcart/flash.rs:330-333 | The chip-erase sequence erases every cell. |
| FlashErase.Mbc5Selects | src/device/gbxcart/flash.rs:263-268 | Every 9-bit MBC5 bank can be selected, bank 0 included. |
| FlashErase.PollUntilErased | src/device/gbxcart/flash.rs:297-316 | Polling ends with the chip idle and otherwise unchanged; it gives up only when the chip outlasts the patience. |
| FlashErase.EraseFlash | src/device/gbxcart/flash.rs:285-351 | Exactly the sectors that cover the data (or the whole chip) become 0xFF and every other cell keeps its byte; it asks for `EraseReads` answers, stops at the first lost one, and sends no byte out of step. |
| FlashErase.PartsStep | src/device/gbxcart/flash.rs:318-329 | The sector loop erases as many sectors as cover the length, no more. |
| FlashProgram.ProgramGroup | src/device/gbxcart/flash.rs:386-395 | For every buffer size: between any two chunks the host's engaged flag is the device's continue state and the group ends with both idle, programmed; after a lost answer the device waits for raw data exactly when it was not the group's last. |
| FlashProgram.SendChunk | src/device/gbxcart/flash.rs:387-393 | A chunk is led by an opcode exactly when the device expects one; the flag returned is whether the device now expects raw data. |
| FlashProgram.SkipErased | src/device/gbxcart/flash.rs:470-472 | Skipping an all-0xFF group over erased flash is the same as programming it. |
| FlashProgram.ProgramErased | tests/gbxcart_sim/mod.rs:392-401 | Programming erased cells writes exactly the data. |
| FlashProgram.ProgramRun | src/device/gbxcart/flash.rs:466-507 | Over a whole run with skips, a synced cursor stands on the next group; the erased range becomes the data, everything else is unchanged; a run that fails leaves a group open exactly when the first lost answer is a chunk's in the middle of one. |
| FlashRom.PaddingFits | src/device/gbxcart/flash.rs:446-460 | The 0xFF padding to whole groups never leaves the erased range or the chip. |
| FlashRom.ProfilesSound | src/device/gbxcart/flash.rs:65-157 | Every AMD profile of the table has sector, group and bank sizes that fit together, which the padding argument needs. |
| FlashRom.ConfigureProgram | src/device/gbxcart/flash.rs:354-378 | The firmware is set up with the profile's command set, method, strobe pin and buffer, and with exactly its unlock pair and 0xA0 in the command slots; no group is open. |
| FlashRom.FlashResultAt | src/device/gbxcart/flash.rs:398-547 | Cell by cell: the ROM, then 0xFF to the end of the erased sectors, then what the chip held before. |
| FlashRom.ProgramDmg | src/device/gbxcart/flash.rs:467-488 | All banks through one 16 KiB window add up to the whole image. |
| FlashRom.VerifyCrc | src/device/gbxcart/flash.rs:515-530 | The check passes exactly when the device's checksum over the bus equals the host's over the data. |
| FlashRom.VerifyWrite | src/device/gbxcart/flash.rs:510-543 | A chip that holds the data passes if and only if the size can be read back: any on GBA, one bank or whole banks on DMG. |
| FlashRom.OddSizeFails | src/device/gbxcart/flash.rs:510-543 | 0x4100 bytes on the first profile of the table: accepted for writing, never verifiable. |
| FlashRom.FlashRom | src/device/gbxcart/flash.rs:398-547 | From any chip contents: success, or a lossless link and a chip that erases in time, leaves exactly the flash result; success if and only if the size can pass verification; no byte is out of step; a group is left open exactly when `StuckOpen`; over a device left so, it fails at once with the chip untouched. |
| FlashWrite.WriteRom | src/device/gbxcart/mod.rs:567-577 | Flash, then park: host and device stay in step if and only if no first lost answer leaves a buffered group open, always for unbuffered chips and after every success; otherwise the device holds the parking byte as data and the next write fails. |
| FlashWrite.LostGroupRun | src/device/gbxcart/mod.rs:567-577 | A whole write that loses the answer to the first chunk of a buffered group and ends out of step. |
| FlashProbe.TableKnows | src/device/gbxcart/flash.rs:65-166 | Which first ID bytes lead to which chip: family, unlock pair, size, sector size and buffer of each entry found. |
| FlashProbe.LookupFinds | src/device/gbxcart/flash.rs:160-165 | An ID that matches an entry of the table is looked up to that entry: no two of a family match one ID. |
| FlashProbe.AutoselectOutcome | src/device/gbxcart/flash.rs:217-221 | After the autoselect cycles exactly a chip that listens to the pair of addresses shows its ID, through whatever banks the cycles switch. |
| FlashProbe.ProbeFlashId | src/device/gbxcart/flash.rs:200-231 | An Ok probe reports exactly what `Reported` says of the cart, leaves the chip's data and state alone and the device ready for the write; the strobe pin is left on WR when a chip answered, on audio when a DMG cart answered neither; it fails only on a lossy link. |
| FlashProbe.EveryPairTried | src/device/gbxcart/flash.rs:170-173 | The unlock pair of every AMD chip of the table is one of those tried for its family. |
| FlashProbe.RecognisedExactly | src/device/gbxcart/flash.rs:160-231 | A cart with a chip of the table is recognised, and given its own profile, if and only if it is not the SST and does not hold its own ID in its first eight bytes. |
| FlashProbe.FlashDetected | src/device/gbxcart/flash.rs:200-547 | Probe, look up, flash: over a lossless link success if and only if the chip is recognised, the ROM fits and its size can be verified; success leaves exactly the flash result, and an unrecognised chip is untouched. |
| AgbDump.AnchoredChunk | src/device/gbxcart/agb.rs:56-68 | With the cursor at half the bytes collected, set anew every 64 KiB, a chunk comes in full: the stall is never met. |
| AgbDump.RecoverRead | src/device/gbxcart/agb.rs:89-108 | A chunk recovered after timeouts is the true chunk and leaves the cursor where the dump expects it. |
| AgbDump.IsOpenBus | src/device/mod.rs:79-87 | True exactly for a little-endian counter from 0 of at least four bytes. |
| AgbDump.StopIs | src/device/gbxcart/agb.rs:77-80 | A dump may stop at a power of two of at least 1 MiB if and only if the 128 words behind it count up from 0. |
| AgbDump.DumpGoesOn | src/device/gbxcart/agb.rs:77-80 | A single word of the ROM that does not count on keeps the dump from stopping there. |
| AgbDump.NoStopInside | src/device/gbxcart/agb.rs:77-80 | Powers of two of at least 1 MiB fall on chunk boundaries, so testing at chunks misses none. |
| AgbDump.DumpUnique | src/device/gbxcart/agb.rs:43-84 | The specification of a dump has one solution, so faults cannot change the result. |
| AgbDump.DumpIsRom | src/device/gbxcart/agb.rs:39-84 | A cart that floats past a power-of-two ROM is dumped exactly if and only if the ROM itself nowhere imitates open bus at a smaller power of two. |
| AgbDump.DumpAgbRom | src/device/gbxcart/agb.rs:43-84 | Whichever reads time out, an Ok result is the true bus prefix up to the requested size or the first open-bus stop; it fails only on a lossy link. |
| SimGbMemory.SimGbMemory.CommandFlash | tests/gbxcart_sim/mod.rs:1307-1329 | Flash commands through the mapper: reset, autoselect, erase, map erase, map program and map read modes. |
| SimGbMemory.UnstagedKeepsFlash | tests/gbxcart_sim/mod.rs:1307-1354 | Bus writes that never stage the chip-erase argument leave the flash alone, whatever commands they execute. |
| SimGbMemory.SimGbMemory.WriteBus | tests/gbxcart_sim/mod.rs:1331-1354 | Mapper registers, the two bank registers, and the commit of a staged map page in map-program mode only. |
| SimGbMemory.SimGbMemory.Read | tests/gbxcart_sim/mod.rs:1356-1386 | Reads show ID, hidden map, status or flash by mode; only data reads move the address and only polls use up busy answers. |
| SimGbMemory.SimGbMemory.ProgramFlash | tests/gbxcart_sim/mod.rs:1388-1398 | Programming ANDs into the window of the selected bank and moves the address on. |
| SimGbMemory.SimGbMemory.WriteAll | tests/gbxcart_sim/mod.rs:1448-1500 | The parser of the second simulator, opcodes with payload included. |
| GbMemoryDriver.DataReads | tests/gbxcart_sim/mod.rs:1356-1386 | In data mode consecutive chunks join up to one stretch of the bus windows. |
| GbMemoryDriver.GbMemoryCart.FlashWrite | src/device/gbxcart/gbmemory.rs:96-102 | Five register writes amount to one flash command. |
| GbMemoryDriver.GbMemoryCart.PollReady | src/device/gbxcart/gbmemory.rs:126-138 | Polling ends with the flash idle and nothing else changed. |
| GbMemoryFlows.UnlockForWriting | src/device/gbxcart/gbmemory.rs:184-199 | Leaves the mapper awake, bank 1, nothing pending, and flash and map untouched; the mapper hears wake-up, write protection armed and disabled, erase suspended and sector 0 unprotected, in that order. |
| GbMemorySequences.EnableScript | src/device/gbxcart/gbmemory.rs:72-181 | Making the cartridge readable, register write by register write. |
| GbMemorySequences.PrefixScript | src/device/gbxcart/gbmemory.rs:100-118 | A flash command behind its unlock cycles, register write by register write. |
| GbMemorySequences.ErasedOnlyChecked | src/device/gbxcart/gbmemory.rs:509-516 | Before the flash ID has been checked a write never stages the chip-erase argument. |
| GbMemoryFlows.ChipErase | src/device/gbxcart/gbmemory.rs:216-241 | All flash is 0xFF, the map is untouched, the chip back in data mode. |
| GbMemoryFlows.ProgramImage | src/device/gbxcart/gbmemory.rs:244-287 | Blank flash becomes exactly the image, bank by bank with skips; the map is untouched. |
| GbMemoryFlows.WriteMap | src/device/gbxcart/gbmemory.rs:293-325 | The hidden sector becomes exactly the page; the flash is untouched. |
| GbMemoryFlows.ReadBankRetry | src/device/gbxcart/gbmemory.rs:340-361 | A window read after up to three timeouts is the true window, with the bank selected again each time. |
| GbMemoryFlows.ReadFlash | src/device/gbxcart/gbmemory.rs:373-389 | Bank 0 through the fixed window and the rest through the switchable one give the whole flash. |
| GbMemoryFlows.ReadMap | src/device/gbxcart/gbmemory.rs:410-429 | Returns the hidden map; it fails without a fault exactly when the map equals the first 128 flash bytes. |
| GbMemoryFlows.ReadGbMemory | src/device/gbxcart/gbmemory.rs:364-393 | From any mapper state: an Ok pair is the flash and the map, both unchanged; without faults Ok if and only if they differ in the first 128 bytes. |
| GbMemoryFlows.ReadGbMemoryMap | src/device/gbxcart/gbmemory.rs:397-407 | The map alone, on the same terms. |
| GbMemoryFlows.WriteGbMemory | src/device/gbxcart/gbmemory.rs:499-543 | From any prior flash, map and mode: success means the cart holds exactly image and map; without faults it always ends up holding them, and success if and only if the map differs from the image's first 128 bytes; wrong sizes touch nothing. |
| GbMemoryFlows.WriteParts | src/device/gbxcart/gbmemory.rs:509-525 | A write up to its verification leaves exactly image and map, and the mapper has heard exactly the script of a write: mode entry, enable, unlock, ID, unlock, erase, banks 0 to 63, map, reset. |
| GbMemoryFlows.WriteThenRead | src/device/gbxcart/gbmemory.rs:364-543 | A write followed by a read returns the pair written. |
| GbMemoryImage.EntryRoundTrip | src/gbmemory.rs:195-201 | An entry decodes to the fields packed into it; offsets lose exactly what does not fit in six bits. |
| GbMemoryImage.BuildMap | src/gbmemory.rs:245-278 | The map sector equals its specification: entry 0, one entry a game with a running save offset, write count, carried-over ID, mandatory zeros. |
| GbMemoryImage.MapSector | src/gbmemory.rs:245-278 | Where each part of the sector is found again: entries, blank slots, saturating write count, cartridge ID, zero at 0x7F. |
| GbMemoryImage.WriteTableRecord | src/gbmemory.rs:285-322 | A table record is written whole at its slot and nothing else of the image changes. |
| GbMemoryImage.Assemble | src/gbmemory.rs:327-378 | Either the first error in the order of the checks, or the assembled image and map; what they are byte by byte is stated by the next rows. |
| GbMemoryBytes.Refusals | src/gbmemory.rs:327-361 | Which error, on the inputs' bytes: the number of games, the menu's size, title and mapper byte, the first game without a header or above 1 MiB, and the rooms past the megabyte. |
| GbMemoryBytes.EntriesName | src/gbmemory.rs:119-201 | Each entry's bits, from the game's header bytes alone: mapper code 0, 1, 2, 3 or 5 by 0x147, ROM size by 0x148, RAM code by 0x149 or MBC2, start in 32 KiB and RAM offset in 2 KiB. |
| GbMemoryBytes.SectorCloses | src/gbmemory.rs:245-278 | The menu's entry first, 0xFF for slots not used, the write count one up and saturating, the cartridge ID carried over or 0xFF, the closing zeros. |
| GbMemoryBytes.GameBytes | src/gbmemory.rs:343-375 | Games lie behind the menu in order, each in its size rounded up to 128 KiB, filled up with 0xFF. |
| GbMemoryBytes.RecordsSay | src/gbmemory.rs:285-322 | Each record of the menu's table, byte by byte: number, start, size, texts, graphic and stamp. |
| GbMemoryImage.BlocksRise | src/gbmemory.rs:343-361 | Placements are disjoint: every game ends before the next one starts. |
| GbMemoryImage.GamePlaced | src/gbmemory.rs:363-375 | Every game has its blocks to itself, filled up with 0xFF, inside the image; blocks after the last game stay erased. |
| GbMemoryImage.MenuKept | src/gbmemory.rs:363-375 | Outside the records of the games the menu region is the menu, byte for byte. |
| GbMemoryImage.RecordPlaced | src/gbmemory.rs:285-322 | The table record of every game survives the placing of all later games. |
| GbMemoryExtract.ExtractGames | src/gbmemory.rs:415-449 | Extraction visits the eight entries in order, skipping blank, out-of-range and menu entries. |
| GbMemoryBytes.EntryRead | src/gbmemory.rs:415-447 | For any map entry and dump: blank, out-of-range and menu entries give no game; any other gives the stretch of the dump, the save size and offset and the colour flag its own bits name. |
| GbMemoryExtract.EntryDecodes | src/gbmemory.rs:195-201 | No field of an assembled map entry is truncated, except save offsets past 128 KiB, and no entry looks blank. |
| GbMemoryExtract.ExtractAssembled | src/gbmemory.rs:415-449 | Extraction undoes assembly for every accepted menu and game list: each game that is not itself a menu comes back in order, cut or filled to its header size, with its save slot. |
| GbMemoryExtract.AssembleExtract | src/gbmemory.rs:415-449 | Games as long as their headers say come back byte for byte. |
| GbMemoryExtract.AssembleFullMode | src/gbmemory.rs:381-409 | A single game at offset 0 with its entry first and the stamp in the map, or the header error. |
| GbMemoryBytes.FullModeBytes | src/gbmemory.rs:381-409 | The full-mode cartridge byte by byte: the game from 0 on, its entry first, timestamp at 0x54, writer at 0x66, the same closing bytes. |
| GbMemoryExtract.FullModeExtract | src/gbmemory.rs:381-449 | A full-mode game is found again unless it is a menu or its header says no mapper, 32 KiB and no RAM, whose all-zero entry is taken for an empty slot. |
| SaveSlots.SlotRecovered | src/gbmemory.rs:250-260 | The slot read from the map is the one laid out, inside the RAM, if and only if the layout ends within 128 KiB. |
| SaveSlots.BudgetIsolates | src/gbmemory.rs:250-260 | With reservations of at most 128 KiB the extracted slots are pairwise disjoint and inside the RAM, games without RAM included. |
| SaveSlots.IsolatedExactly | src/gbmemory.rs:250-260 | When every game has at least 8 KiB of RAM and none is a menu, the extracted slots are isolated if and only if the reservations are at most 128 KiB. |
| SaveSlots.SpliceSaves | src/main.rs:1109-1114 | Updating slots in place equals splicing each save into the RAM image in turn. |
| SaveSlots.SavesKeptApart | src/main.rs:915-918 | Any sequence of updates leaves each game with the last save given for it, or the one it had. |
| SaveSlots.RestKept | src/main.rs:1109-1114 | Cells outside the updated slots keep their contents. |
| SaveSlots.OverBudgetCollides | src/gbmemory.rs:250-260 | Two games reserving 136 KiB: their recovered slots overlap and updating one save damages the other. |
| GbMemoryEndToEnd.StoreAndRecover | src/gbmemory.rs:327-449 | Assemble, write, read, extract on the device model: games that come back are the games that went on; without faults they come back if and only if the map differs from the menu's first 128 bytes. |
| Varint.ReadVarint | src/patch/mod.rs:30-43 | The loop computes the specification, shift wrap and overflow checks included. |
| Varint.ReadEncoded | src/patch/mod.rs:30-43 | Every 64-bit value reads back from its canonical encoding anywhere in a buffer, and the cursor ends just past it. |
| Varint.ReadUnique | src/patch/mod.rs:30-43 | What was read is the canonical encoding of its value if and only if one of the ten bytes from the cursor on is flagged as a last one. |
| Varint.ElevenBytesAccepted | src/patch/mod.rs:40 | Ten zero bytes and a final byte are accepted: the lost shift bits are not detected. |
| Varint.OffsetRoundTrip | src/patch/mod.rs:46-49 | Signed offsets invert their encoding; only 1, minus zero, is a second encoding of a value. |
| Bps.Interpret | src/patch/bps.rs:87-158 | The in-place interpreter succeeds exactly when the append-only meaning of the decoded actions reaches the declared size, and yields those bytes. |
| Bps.Execute | src/patch/bps.rs:94-152 | One iteration decodes and carries out exactly the action at the cursor, or fails where its meaning does. |
| BpsLaws.SourceReadIs | src/patch/bps.rs:99-106 | SourceRead succeeds exactly inside source and target; byte i of the output is byte i of the source, and no cursor moves. |
| BpsLaws.SourceCopyIs | src/patch/bps.rs:117-130 | SourceCopy succeeds exactly when its stretch is inside source and target; the bytes are the source's from the moved cursor on, which ends behind the last one; the other cursor stays. |
| BpsLaws.TargetCopyIs | src/patch/bps.rs:131-146 | TargetCopy likewise, each byte being the output's as far back as the cursor is, those just written included. |
| BpsLaws.SourceCopySplits | src/patch/bps.rs:117-130 | A SourceCopy cut in two, the second half with offset 0, is the whole one, failure included. |
| BpsLaws.TargetCopySplits | src/patch/bps.rs:131-146 | So is a TargetCopy, overlapping ones too. |
| BpsLaws.SourceReadSplits | src/patch/bps.rs:99-106 | So is a SourceRead. |
| Bps.CopyBack | src/patch/bps.rs:131-146 | A copy within the output, byte by byte with any overlap, is the specified extension; cells not yet written read as 0. |
| Bps.CopyPeriodic | src/patch/bps.rs:131-146 | An overlapping copy repeats the bytes between the cursors with their distance as its period. |
| Bps.OutputGrows | src/patch/bps.rs:87-155 | Output cells are written once, in order, and never past the declared size. |
| Bps.Apply | src/patch/bps.rs:65-169 | Ok if and only if the meaning exists and, when verifying, all three checksums and the source size fit; otherwise the error of the first check that fails. |
| Bps.DecodeInverse | src/patch/bps.rs:94-146 | Decoding the serialization of any legal action list gives the list. |
| BpsLaws.ShortDecoded | src/patch/bps.rs:94-118 | What one or two bytes mean: length and command in the first, sign and magnitude of an offset in the second. |
| Bps.LoadInverse | src/patch/bps.rs:23-60 | Loading a patch file gives back every field, and the loaded patch means running the serialized actions. |
| BpsLaws.FileBytes | src/patch/bps.rs:23-60 | The magic word and the three checksums of a loaded file, least significant byte first, at its end. |
| Ups.Overlay | src/patch/ups.rs:83-120 | The hunk loop succeeds exactly when the diffs parse and none lies past the output, and yields the resized source with all of them applied. |
| Ups.SourceIndependent | src/patch/ups.rs:83-120 | Success and mask depend on the patch alone; the output is the resized source XOR the mask. |
| UpsLaws.OutputByte | src/patch/ups.rs:83-89 | Output byte i is source byte i, or zero past the source's end, XOR the mask: no other filling. |
| UpsLaws.HunksInverse | src/patch/ups.rs:91-120 | Reading written hunks gives every byte with its position: skips count from behind the terminator, which takes a position itself. |
| UpsLaws.LoadInverse | src/patch/ups.rs:23-55 | Loading the file of any hunks gives back sizes, checksums and diffs. |
| UpsLaws.FileBytes | src/patch/ups.rs:23-55 | The magic word and the three checksums of a loaded file, least significant byte first, at its end. |
| UpsLaws.AnyTarget | src/patch/ups.rs:59-130 | For any source and target there is a patch file that loads and makes the target of the source. |
| Ups.SelfInverse | src/patch/ups.rs:83-120 | Between files of one size applying a patch twice gives back the source. |
| Ups.AtMostOnce | src/patch/ups.rs:95-120 | While the cursor stays within the machine word each output position is changed at most once; not only then (`WrappedCursorMayMiss`). |
| Ups.WrappedCursorRepeats | src/patch/ups.rs:113 | A whole file that loads and applies to every source, whose cursor wraps and changes position 0 twice. |
| Ups.WrappedCursorMayMiss | src/patch/ups.rs:113 | A whole file that loads and applies to every source, whose cursor wraps and that still changes each position once. |
| Ups.Apply | src/patch/ups.rs:60-132 | Ok if and only if the meaning exists and, when verifying, all three checksums and the source size fit; otherwise the error of the first check that fails. |
| Ips.Load | src/patch/ips.rs:34-93 | The parsing loop returns the specified patch or the specified error. |
| Ips.LoadInverse | src/patch/ips.rs:34-93 | Loading the file of any legal patch gives the patch, and every file that loads is the file of a legal patch. |
| Ips.FileBytes | src/patch/ips.rs:34-58 | A file that loads starts with PATCH and ends with EOF, or with EOF and the length to cut to. |
| Ips.RecordBytes | src/patch/ips.rs:42-86 | A record's address, length, count and data, byte by byte, high bytes first. |
| Ips.ApplyInto | src/patch/ips.rs:106-131 | Each byte is what the last record covering it put there, else the ROM's, else zero; the length is the furthest record end or the ROM's, cut by the truncate value. |
| Ips.Idempotent | src/patch/ips.rs:106-131 | Applying a patch twice equals applying it once. |
| Dither.FloydSteinberg | src/main.rs:655-681 | Pushing errors forward in raster order gives every pixel the shade the pulled definition of error diffusion gives it. |
| Dither.AccumulatorBound | src/main.rs:655-681 | Over the whole scan every accumulator stays within [-41, 296]. |
| Dither.PartialStep | src/main.rs:663-680 | Finishing a pixel adds to each later pixel exactly its share, so each receives at most one 7, 3, 5 and 1 sixteenth. |
| Dither.NearestIsBest | src/main.rs:655-657 | The chosen shade is a nearest one and the rounding error is at most 43. |
| Dither.NearestBands | src/main.rs:655-657 | The shades by brightness: up to 42, 126, 211 and above; half way goes to the darker one. |
| Dither.ShareIs | src/main.rs:667 | A share is its sixteenths of the error with the error's sign, rounded towards zero. |
| BoxAverage.BinNonEmpty | src/main.rs:640-643 | Every averaging bin holds at least one row and lies inside the source, however small that is. |
| BoxAverage.BinsJoin | src/main.rs:640-643 | From a source at least as large as the target the bins join up end to end and cover it. |
| BoxAverage.Downscale | src/main.rs:637-653 | Every target pixel is the average of its bin and a grey value. |
| BoxAverage.LumaIs | src/main.rs:630-635 | 1000 times the brightness of a colour is 299 red, 587 green and 114 blue, rounded down; grey is its own byte. |
| BoxAverage.AlphaIgnored | src/main.rs:630-635 | Pictures that differ in alpha only have the same averages. |
| BoxAverage.OneColour | src/main.rs:630-690 | A picture of one colour, thresholded, has the shade of its weighted brightness everywhere. |
| BoxAverage.OwnSize | src/main.rs:637-653 | A grey picture of the camera's size is averaged to itself. |
| BoxAverage.SumFits | src/main.rs:645-651 | A bin of at most 0x1010101 pixels sums to less than 2^32; a white bin of more does not. |
| BoxAverage.LoadCameraImage | src/main.rs:610-690 | The whole conversion: averages, then dithered or thresholded shades; refused exactly for empty pictures. |
| Calendar.CivilIsCalendar | src/main.rs:1247-1257 | For every day count the closed formulas give the date reached by counting days on the Gregorian calendar from 1970-01-01 (month lengths of section 5.7 of RFC 3339). |
| Calendar.CivilIsDate | src/main.rs:1247-1257 | The result is a valid date and its day number is the count asked for. |
| Calendar.CivilSteps | src/main.rs:1247-1257 | Consecutive days have consecutive dates. |
| Calendar.TimestampFits | src/main.rs:1258-1263 | The stamp has 18 characters, and nothing is cut off if and only if the year is at most 9999. |
| Calendar.StampFields | src/main.rs:1243-1263 | Each field of the stamp by position and decimal value: month, day and year of the calendar, hours, minutes, seconds. |
| CameraTiles.EncodeTiles | src/cartridge.rs:618-639 | The encoder's loops produce the specified tiles for every image of whole tiles. |
| CameraTiles.DecodePhoto | src/cartridge.rs:547-569 | The decoder's loops produce the specified image, or nothing when the slot does not fit. |
| CameraTiles.DecodeEncoded | src/cartridge.rs:547-639 | Decoding an encoded image gives every pixel its nearest shade. |
| CameraTiles.EncodeDecoded | src/cartridge.rs:547-639 | Encoding a decoded photo gives back its tile bytes, whatever they are. |
| CameraTiles.NearestIsBest | src/cartridge.rs:595-606 | No shade is nearer than the one chosen. |
| CameraTiles.QuantizedBands | src/cartridge.rs:595-606 | The shades by brightness: up to 41, 125, 211 and above; half way goes to the lighter one. |
| CameraTiles.TopBits | src/cartridge.rs:618-639 | Which bytes of a tile carry the leftmost pixel of a row, in their top bits. |
| CameraAlbum.ShownIsSorted | src/cartridge.rs:528-542 | The photo list is exactly the occupied slots, sorted by position and stably by slot. |
| CameraBytes.ListBytes | src/cartridge.rs:528-542 | On the save's bytes: slots with a position below 30, by position, then by slot; none in a save too short. |
| CameraAlbum.EnteredWellFormed | src/cartridge.rs:703-708 | A well-formed album stays so if and only if the slot was free or held the last photo. |
| CameraAlbum.EnteredAppends | src/cartridge.rs:703-708 | Filling a free slot appends it to the display order. |
| CameraAlbum.InjectPhoto | src/cartridge.rs:664-717 | The in-place injection refuses bad sizes and slots untouched, or leaves exactly the specified save. |
| CameraAlbum.InjectedPhoto | src/cartridge.rs:664-717 | The injected photo decodes to the quantized image and every other slot keeps all its bytes. |
| CameraAlbum.InjectedValid | src/cartridge.rs:686-714 | Image, metadata and directory checksums, magics and echoes are all in order afterwards. |
| CameraBytes.InjectedChecksums | src/cartridge.rs:571-593 | The two bytes of each checksum on the injected save: the seeded sum first, then bit by bit the parity; and the magic word. |
| CameraBytes.InjectedPosition | src/cartridge.rs:703-709 | The photo's position is the number of the other occupied slots; no other position changes. |
| CameraBytes.InjectedMeta | src/cartridge.rs:688-699 | All other metadata bytes are those of the first other photo shown, or zeros. |
| CameraBytes.ThumbnailIs | src/cartridge.rs:643-653 | Thumbnail pixel (x, y) is the image's at column 4x of row 7y/2. |
| CameraBytes.InjectedThumbnail | src/cartridge.rs:684-685 | The thumbnail's tiles stand behind the photo's. |
| CameraAlbum.InjectIntoFreeSlot | src/cartridge.rs:664-717 | Injecting into a free slot of a well-formed album appends that slot to the photo list and keeps the album well formed. |
| CameraAlbum.InjectedFrame | src/cartridge.rs:664-717 | Nothing outside the slot's block and the directory block changes. |
| SnesTrim.TrimSnesRom | src/cartridge.rs:1238-1280 | The two loops terminate on every non-empty ROM with the specified length. |
| SnesTrim.TrimLossless | src/cartridge.rs:1238-1280 | Units stripped first have at most 16 byte values; every byte stripped as mirror is rebuildable as rom[p + (i-p) mod (n-p)]; the remainder shrank by an exact power of two; trimming stops only where neither rule applies. |
| SnesTrim.FewValues | src/cartridge.rs:1243-1256 | Counting with early exit decides whether at most sixteen byte values occur. |
| SnesTrim.RepeatsHalf | src/cartridge.rs:1265-1278 | A remainder whose halves are equal repeats with half its period. |

## Left out

- FlashRom.FlashRom: erase deadlines in milliseconds are a bound on busy answers (`patience`); an empty ROM on a DMG cart, where a zero chunk size panics, is excluded, and so is a device left in the middle of a chunk so often that the swallowed commands complete it.
- FlashWrite.WriteRom: on the same terms.
- FlashErase.EraseFlash: the SST profile, whose unlock addresses lie in the bank registers, is excluded; the probe never selects it (`FlashProbe.RecognisedExactly`) and its sequence erases nothing (`FlashErase.SwitchedUnlockNeverErases`).
- FlashProbe.FlashDetected: for carts with a chip of the AMD table; the Intel entry takes part in the lookup only.
- SaveFlows.ReadDmgSave: sizes are at most one 4 KiB chunk or whole chunks, which every RAM size a header can name is; other sizes leave bytes unread.
- SaveFlows.WriteDmgSave: sizes are multiples of 0x200; a shorter last chunk would leave the device waiting.
- GbMemoryDriver.GbMemoryCart.ReadDmgRomChunk: stated for the lengths the flows use; the general primitive is `GbxDriver.GbxCart.ReadDmgRomChunk`.
- Bps.Interpret: the output buffer is assumed to be allocatable; a declared size beyond memory aborts the original.
- Ups.Overlay: the unchecked cursor increment wraps at 2^64, as in a release build; a debug build stops there.
- BoxAverage.Downscale: the sum of a bin is unbounded here; `BoxAverage.SumFits` says when it fits the 32 bits of the source.
- GbMemoryImage.Record: titles, game codes and title graphics come in as a `Label`; parsing titles and the font are table lookups.
- Failing serial writes: a host write always reaches the device, only answers are lost.
- Wall-clock timeouts, retry delays and progress callbacks; a read is a full answer or a timeout.
- Serial ports and cartridge detection.
- The Intel flash path, MBC7, HuC1 and HuC3: no faithful device model.
- GBA saves (SRAM, EEPROM, flash) and the real-time clock flows.
- GB Memory SRAM transfer: the G-MMC1 simulator has no SRAM; the splitting of the SRAM image is modelled.
- The CRC-32 (section 8 of RFC 1952) is a function parameter.
- The simulator's fault-injection switches, and of its event log the bus writes and clock pulses; `Core.log` keeps the other events. What the mapper of a GB Memory cartridge hears (`Gbm.heard`) is recorded by the model alone.
- The GB/SN Operator protocol, whose firmware is closed.
- Dispatch between patch formats, header checksums after patching, file and command-line handling, PNG decoding, updates.
