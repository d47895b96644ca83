/**
 Writing a ROM and parking the bus. A write that loses the answer to a chunk in the middle of a
 buffered group returns while the device expects raw data, and parking then sends it a command.
 */
module FlashWrite {
  import opened Bytes
  import opened FlashChip
  import opened Cartridges
  import opened GbxCore
  import opened GbxWire
  import opened GbxLink
  import opened SimGbx
  import opened GbxDriver
  import opened DmgDump
  import opened FlashErase
  import opened FlashProgram
  import opened FlashRom

  /**
   Flash a ROM, then park the bus. Host and device are still in step afterwards exactly when the
   first lost answer, if any, was not one that leaves a buffered group open; chips programmed
   without a buffer never lose step. Otherwise the device has taken the parking command for the
   first byte of the next chunk, and the next write fails at its first command.
   */
  method WriteRom(dev: GbxCart, profile: Option<FlashProfile>, rom: seq<byte>, patience: nat)
    returns (r: Result<(), DeviceError>)
    requires (dev.io.Ready() || dev.io.Value().Swallows(11)) && dev.io.out == []
    requires dev.crc == dev.io.crc && |dev.header| >= LOGO_END && |rom| < 0x1_0000_0000
    requires profile.Some? ==>
      && Sound(profile.value) && Reading(profile.value, dev.io.CoreValue()) && Quieted(dev.io.SlotValue())
      && profile.value.maxSize <= |ChipOf(dev.io.SlotValue()).value.data|
      && (profile.value.family == DmgFamily ==> |rom| > 0)
    modifies dev.io.Repr()
    ensures dev.io.out == []
    ensures old(dev.io.Ready()) ==>
      if dev.io.expecting == Opcode then dev.io.Ready() && dev.io.inStep == old(dev.io.inStep)
      else !dev.io.inStep && Stranded(dev.io.Value(), 1)
    ensures old(dev.io.Ready()) && Flashable(profile, |rom|) && patience >= 2 ==>
      (dev.io.expecting != Opcode <==> StuckOpen(dev.io.link, old(dev.io.asked), profile.value, rom))
    ensures old(dev.io.Ready()) && (Flashable(profile, |rom|) ==> profile.value.programming.Unbuffered?) ==>
      dev.io.expecting == Opcode
    ensures old(dev.io.Ready()) && r.Ok? ==> dev.io.expecting == Opcode
    ensures old(dev.io.Ready()) && Flashable(profile, |rom|) && (r.Ok? || (!dev.io.Lossy() && patience >= 2)) ==>
      && ChipOf(dev.io.SlotValue()).Some?
      && ChipOf(dev.io.SlotValue()).value.data
           == FlashResult(profile.value, ChipOf(old(dev.io.SlotValue())).value.data, rom)
    ensures !old(dev.io.Ready()) && Flashable(profile, |rom|) ==>
      && r == Err(Io) && !dev.io.inStep && dev.io.CoreValue() == old(dev.io.CoreValue())
      && dev.io.expecting == old(dev.io.expecting) && |dev.io.buf| == |old(dev.io.buf)| + 11
  {
    hide SimGbxCart.Repr, SimGbxCart.CartRepr, Reading, FlashResult, Sound, StuckOpen, Quieted, Verifiable;
    ghost var ready, before := dev.io.Ready(), dev.io.Value();
    r := FlashRom.FlashRom(dev, profile, rom, patience);
    ghost var d := dev.io.Value();
    if ready {
      if Flashable(profile, |rom|) {
        ParkedSwallows(profile.value, d);
      }
    } else {
      StillSwallows(before, d);
    }
    dev.Idle();
  }

  lemma ParkedSwallows(p: FlashProfile, d: Device)
    requires Parked(p, d)
    ensures
      || d.Ready()
      || (d.Swallows(1) && p.programming.Buffered? && d.expecting == FlashData(PROGRAM_CHUNK) && d.buf == [])
  {
  }

  lemma StillSwallows(d: Device, e: Device)
    requires d.Swallows(11) && (e == d || exists frame :: |frame| == 10 && e == Swallowed(d, frame))
    ensures e.Swallows(1)
  {
  }

  /** Waiting for the rest of a chunk, `n` bytes of which have come already. */
  predicate Stranded(d: Device, n: nat) {
    d.Valid() && !d.dead && d.expecting == FlashData(PROGRAM_CHUNK) && |d.buf| == n
  }

  // --- A run that loses step ----------------------------------------------------------------

  /** A ROM of one buffer group for the buffered chip of the table. */
  function OneGroup(): (rom: seq<byte>)
    ensures |rom| == 0x400
  {
    Filled(0x400, 0)
  }

  function BufferedProfile(): FlashProfile {
    AmdProfiles()[5]
  }

  /**
   Strobe pin, sector erase and configuration ask for eleven answers, the cursor for one, and then the
   first chunk.
   */
  lemma FirstChunkAnswer()
    ensures var mids := WriteMids(BufferedProfile(), OneGroup()); |mids| > 12 && mids[12]
  {
    var p, rom := BufferedProfile(), OneGroup();
    assert Polls(p, 2) * PollReads(p, 0) == 6 && SectorReads(p, 0) == 7;
    assert SectorsReads(p, 0) == 0 && SectorsReads(p, 1) == 7;
    assert Parts(0x400, p.sectorSize) == 1 && EraseReads(p, 0x400) == 7;
    OneGroupMids(p, rom);
  }

  lemma OneGroupMids(p: FlashProfile, rom: seq<byte>)
    requires p == BufferedProfile() && rom == OneGroup()
    ensures var mids := ProgramMids(p, Padded(rom, GroupSize(p))); |mids| == 5 && mids[1]
  {
    assert Parts(0x400, 0x400) == 1;
    assert Padded(rom, 0x400) == rom;
    assert GroupAt(p, rom, 0)[0] == 0;
    assert RunMids(p, rom, 0) == ([], false);
    assert RunMids(p, rom, 1).0 == [] + (Plain(1) + GroupMids(p));
  }

  /** A fresh device, in GBA mode, with the table's buffered chip; its link will lose the answer to the first chunk. */
  method BufferedDevice() returns (dev: GbxCart)
    ensures fresh(dev.io.Repr()) && dev.io.Ready() && dev.io.out == [] && dev.io.inStep
    ensures dev.io.link == LosesOnly(21, 0) && dev.io.asked == 9
    ensures dev.crc == dev.io.crc && |dev.header| >= LOGO_END
    ensures Reading(BufferedProfile(), dev.io.CoreValue()) && Quieted(dev.io.SlotValue())
    ensures |ChipOf(dev.io.SlotValue()).value.data| == 0x200_0000
  {
    hide AgbMode, AgbSignals, Signalled, Filled, LosesOnly, Link.FirstLost;
    var crc := (s: seq<byte>) => 0 as u32;
    var chip := new SimFlashChip(Filled(0x200_0000, 0xA5), [0x01, 0x00, 0x7E, 0x22], 0xAAA, 0x554, 0x2_0000);
    var cart := new SimAgbCart([], None, chip);
    var io := new SimGbxCart(Agb(cart), crc, LosesOnly(21, 0));
    dev := new GbxCart(io, crc, Filled(LOGO_END, 0));
    FirstLostOnly(21, 0, 0, 9);
    var a := dev.EnterAgbMode();
  }

  /**
   A whole write on a fresh device whose link loses one answer, the one to the first chunk: the
   device waits for the second, and the parking command becomes its first byte.
   */
  method LostGroupRun() returns (dev: GbxCart, r: Result<(), DeviceError>)
    ensures r.Err? && !dev.io.inStep && Stranded(dev.io.Value(), 1)
  {
    hide WriteMids, Reading, Quieted, SimGbxCart.Ready, SimGbxCart.Repr, SimGbxCart.CartRepr, Stranded, FlashResult;
    dev := BufferedDevice();
    ProfilesSound();
    FirstChunkAnswer();
    FirstLostOnly(21, 0, 9, |WriteMids(BufferedProfile(), OneGroup())|);
    r := WriteRom(dev, Some(BufferedProfile()), OneGroup(), 2);
  }
}
