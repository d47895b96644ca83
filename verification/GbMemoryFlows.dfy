/**
 Writing and reading a GB Memory cartridge: unlock, mass erase, program the megabyte bank by bank,
 write the hidden map, read everything back.
 */
module GbMemoryFlows {
  import opened Bytes
  import opened Protocol
  import opened FlashChip
  import opened GbxDriver
  import opened SimGbMemory
  import opened GbMemorySequences
  import opened GbMemoryDriver
  import opened FlashErase
  import opened FlashProgram

  const GBM_CHUNK: nat := 0x400
  const BANKS: nat := 64

  // --- Mapper setup -------------------------------------------------------------------

  /** Mapped for reading: the whole megabyte visible, the mapper asleep. */
  function Mapped(m: Mmc): (r: Mmc)
    ensures m.Valid() ==> r.Valid()
  {
    m.(awake := false, mapFull := true, autoselect := false, mapRead := false, mapProgram := false)
  }

  /** Awake, unlocked, bank 1, nothing pending. */
  function Unlocked(m: Mmc): (r: Mmc)
    ensures m.Valid() ==> r.Valid()
  {
    m.(awake := true, bank := 1, bankBroken := false, busy := 0)
  }

  /** Wake the mapper and make the whole megabyte visible. */
  method MapFull(dev: GbMemoryCart) returns (r: Result<(), DeviceError>)
    requires dev.io.Ready() && dev.io.out == []
    modifies dev.io
    ensures dev.io.Ready() && (if r.Ok? then dev.io.out == [] else dev.io.lossy)
    ensures r.Ok? ==> dev.io.MmcValue() == old(dev.io.MmcValue()).(awake := true, mapFull := true)
    ensures r.Ok? ==> dev.io.heard == AfterMapFull(old(dev.io.heard))
  {
    hide AfterCommand, AfterWake;
    r := dev.MmcWake();
    if r.Err? {
      return;
    }
    r := dev.MmcCmd(MMC_MBC_ENABLE);
    if r.Err? {
      return;
    }
    r := dev.MmcCmd(MMC_MAP_FULL);
  }

  method EnableMapper(dev: GbMemoryCart) returns (r: Result<(), DeviceError>)
    requires dev.io.Ready() && dev.io.out == []
    modifies dev.io
    ensures dev.io.Ready() && (if r.Ok? then dev.io.out == [] else dev.io.lossy)
    ensures r.Ok? ==> dev.io.MmcValue() == Mapped(old(dev.io.MmcValue()))
    ensures r.Ok? ==> dev.io.heard == AfterEnable(old(dev.io.heard))
  {
    hide AfterCommand, AfterFlash, AfterMapFull;
    r := MapFull(dev);
    if r.Err? {
      return;
    }
    r := dev.FlashWrite(0x0000, FLASH_RESET);
    if r.Err? {
      return;
    }
    r := dev.MmcCmd(MMC_SLEEP);
  }

  /** The unlock sequence proper: six flash writes that leave the flash as it is. */
  method Unprotect(dev: GbMemoryCart) returns (r: Result<(), DeviceError>)
    requires dev.io.Ready() && dev.io.out == []
    modifies dev.io
    ensures dev.io.Ready() && (if r.Ok? then dev.io.out == [] else dev.io.lossy)
    ensures r.Ok? ==> dev.io.MmcValue() == old(dev.io.MmcValue())
    ensures r.Ok? ==> dev.io.heard == AfterUnprotect(old(dev.io.heard))
  {
    hide AfterFlash, AfterPrefix;
    r := dev.FlashWrite(0x0000, 0xB0);
    if r.Err? {
      return;
    }
    r := dev.FlashUnlockCmd(0x60);
    if r.Err? {
      return;
    }
    r := dev.FlashWrite(0x5555, 0xAA);
    if r.Err? {
      return;
    }
    r := dev.FlashWrite(0x2AAA, 0x55);
    if r.Err? {
      return;
    }
    r := dev.FlashWrite(0x0000, 0x40);
  }

  method UnlockForWriting(dev: GbMemoryCart, patience: nat) returns (r: Result<(), DeviceError>)
    requires dev.io.Ready() && dev.io.out == [] && DataMode(dev.io.MmcValue())
    modifies dev.io
    ensures dev.io.Ready() && (r.Err? ==> dev.io.lossy || patience < 2)
    ensures r.Ok? ==> dev.io.out == [] && dev.io.MmcValue() == Unlocked(old(dev.io.MmcValue()))
    ensures r.Ok? ==> dev.io.heard == AfterUnlock(old(dev.io.heard))
  {
    hide AfterCommand, AfterWake, AfterProtection, AfterUnprotect;
    r := dev.DmgWrite(MMC5_BANK_WRITE, 0x01);
    if r.Err? {
      return;
    }
    r := dev.MmcWake();
    if r.Err? {
      return;
    }
    r := dev.MmcCmd(MMC_MBC_ENABLE);
    if r.Err? {
      return;
    }
    r := dev.MmcDisableWp();
    if r.Err? {
      return;
    }
    r := dev.DmgWrite(MMC5_BANK_WRITE, 0x01);
    if r.Err? {
      return;
    }
    r := Unprotect(dev);
    if r.Err? {
      return;
    }
    r := dev.PollReady(0x0000, patience);
  }

  method VerifyFlashId(dev: GbMemoryCart) returns (r: Result<(), DeviceError>)
    requires dev.io.Ready() && dev.io.out == []
    modifies dev.io
    ensures dev.io.Ready() && (if r.Ok? then dev.io.out == [] else dev.io.lossy)
    ensures r.Ok? ==> dev.io.MmcValue() == FlashCommand(old(dev.io.MmcValue()), 0x0000, FLASH_RESET)
    ensures r.Ok? ==> dev.io.heard == AfterIdCheck(old(dev.io.heard))
  {
    hide AfterFlash, AfterPrefix, RomReads;
    r := dev.FlashUnlockCmd(0x90);
    if r.Err? {
      return;
    }
    IdRead(dev.io.CoreValue());
    var id := dev.ReadDmgRomChunk(0, 2);
    if id.Err? {
      return Err(id.error);
    }
    r := dev.FlashWrite(0x0000, FLASH_RESET);
    if r.Err? {
      return;
    }
    r := if id.value != [0xC2, 0x89] then Err(NotFlashable) else Ok(());
  }

  // --- Erase and program --------------------------------------------------------------

  /** After a mass erase. */
  function Wiped(m: Mmc): (r: Mmc)
    ensures m.Valid() ==> r.Valid()
  {
    m.(flash := EraseRange(m.flash, 0, |m.flash|), busy := 0, autoselect := false, mapRead := false,
       mapProgram := false, mapFull := true)
  }

  method MassErase(dev: GbMemoryCart) returns (r: Result<(), DeviceError>)
    requires dev.io.Ready() && dev.io.out == []
    modifies dev.io
    ensures dev.io.Ready() && (if r.Ok? then dev.io.out == [] else dev.io.lossy)
    ensures r.Ok? ==>
      var m := old(dev.io.MmcValue());
      dev.io.MmcValue() == m.(flash := EraseRange(m.flash, 0, |m.flash|), busy := 2)
    ensures r.Ok? ==> dev.io.heard == AfterPrefix(AfterPrefix(old(dev.io.heard), 0x80), 0x10)
  {
    hide AfterPrefix;
    r := dev.FlashUnlockCmd(0x80);
    if r.Err? {
      return;
    }
    r := dev.FlashUnlockCmd(0x10);
  }

  method ChipErase(dev: GbMemoryCart, patience: nat) returns (r: Result<(), DeviceError>)
    requires dev.io.Ready() && dev.io.out == [] && DataMode(dev.io.MmcValue())
    modifies dev.io
    ensures dev.io.Ready() && (r.Err? ==> dev.io.lossy || patience < 2)
    ensures r.Ok? ==> dev.io.out == [] && dev.io.MmcValue() == Wiped(old(dev.io.MmcValue()))
    ensures r.Ok? ==> dev.io.heard == AfterErase(old(dev.io.heard))
  {
    hide AfterCommand, AfterFlash, AfterPrefix;
    r := MassErase(dev);
    if r.Err? {
      return;
    }
    r := dev.PollReady(0x0000, patience);
    if r.Err? {
      return;
    }
    r := dev.FlashWrite(0x0000, FLASH_RESET);
    if r.Err? {
      return;
    }
    r := dev.MmcCmd(MMC_MAP_FULL);
  }

  /** One programming chunk: its opcode unless the firmware is waiting for more data. */
  method SendChunk(dev: GbMemoryCart, engaged: bool, chunk: seq<byte>) returns (r: Result<bool, DeviceError>)
    requires dev.io.Ready() && dev.io.out == [] && !engaged
    requires 0 < |chunk| == dev.io.CoreValue().Get(VAR_TRANSFER_SIZE) as nat
    modifies dev.io
    ensures dev.io.Ready() && (if r.Ok? then dev.io.out == [] && !r.value else dev.io.lossy)
    ensures dev.io.CoreValue() == ProgramAt(old(dev.io.CoreValue()), chunk)
    ensures dev.io.heard == old(dev.io.heard)
  {
    hide ProgramAt, Received;
    PayloadFrame(dev.io.Value(), CMD_FLASH_PROGRAM, chunk);
    if !engaged {
      dev.io.WriteAll([CMD_FLASH_PROGRAM]);
    }
    dev.io.WriteAll(chunk);
    r := dev.ExpectAck();
  }

  /** A bank programmed up to `offset` bytes. */
  ghost predicate BankUpTo(m: Mmc, m0: Mmc, base: nat, data: seq<byte>, offset: nat) {
    offset <= |data| && m == m0.(flash := Spliced(m0.flash, base, data[..offset]))
  }

  /** The programming cursor: set when synced, in chunk-sized transfers. */
  ghost predicate CursorAt(c: Gbm, synced: bool, window: nat, offset: nat) {
    && c.Get(VAR_TRANSFER_SIZE) as nat == GBM_CHUNK
    && (synced ==> c.Get(VAR_ADDRESS) as nat == window + offset)
  }

  lemma WindowShows(m: Mmc, bank: nat, offset: nat)
    requires m.bank == bank < BANKS && !m.bankBroken && offset < BANK
    ensures FlashAbs(m, DmgWindow(bank * BANK).1 + offset) == bank * BANK + offset
  {
  }

  lemma ProgramStep(c: Gbm, m0: Mmc, bank: nat, data: seq<byte>, offset: nat)
    requires c.Valid() && m0.Valid() && m0.bank == bank < BANKS && !m0.bankBroken
    requires |data| == BANK && offset + GBM_CHUNK <= BANK
    requires ErasedIn(m0.flash, bank * BANK, bank * BANK + BANK)
    requires BankUpTo(c.mmc, m0, bank * BANK, data, offset)
    requires CursorAt(c, true, DmgWindow(bank * BANK).1, offset)
    ensures var c1 := ProgramAt(c, data[offset..offset + GBM_CHUNK]);
            && BankUpTo(c1.mmc, m0, bank * BANK, data, offset + GBM_CHUNK)
            && CursorAt(c1, true, DmgWindow(bank * BANK).1, offset + GBM_CHUNK)
  {
    hide FlashAbs, DmgWindow, Programmed, Spliced, ErasedIn, Gbm.Get, ProgramAt;
    var done, chunk := data[..offset], data[offset..offset + GBM_CHUNK];
    assert done + chunk == data[..offset + GBM_CHUNK];
    WindowShows(c.mmc, bank, offset);
    StillBlank(m0.flash, bank * BANK, offset);
    ProgramErased(m0.flash, bank * BANK, done, chunk);
    ProgramMoves(c, chunk);
    assert ProgramAt(c, chunk).mmc == c.mmc.(flash := Spliced(m0.flash, bank * BANK, data[..offset + GBM_CHUNK]));
  }

  lemma StillBlank(flash: seq<byte>, base: nat, offset: nat)
    requires ErasedIn(flash, base, base + BANK) && offset + GBM_CHUNK <= BANK
    ensures ErasedIn(flash, base + offset, base + offset + GBM_CHUNK)
  {
  }

  lemma ProgramMoves(c: Gbm, chunk: seq<byte>)
    requires c.Valid() && c.Get(VAR_ADDRESS) as nat + |chunk| < 0x1_0000_0000
    ensures var c1 := ProgramAt(c, chunk);
            && c1.mmc == c.mmc.(flash := Programmed(c.mmc.flash, FlashAbs(c.mmc, c.Get(VAR_ADDRESS) as nat), chunk))
            && c1.Get(VAR_TRANSFER_SIZE) == c.Get(VAR_TRANSFER_SIZE)
            && c1.Get(VAR_ADDRESS) as nat == c.Get(VAR_ADDRESS) as nat + |chunk|
  {
    hide Programmed, FlashAbs;
  }

  /** Program the selected bank chunk by chunk, skipping blank chunks. */
  method ProgramWindow(dev: GbMemoryCart, bank: nat, data: seq<byte>) returns (r: Result<(), DeviceError>)
    requires dev.io.Ready() && dev.io.out == [] && dev.io.bank == bank < BANKS && !dev.io.bankBroken
    requires |data| == BANK && ErasedIn(dev.io.flash, bank * BANK, bank * BANK + BANK)
    requires dev.io.CoreValue().Get(VAR_TRANSFER_SIZE) as nat == GBM_CHUNK
    modifies dev.io
    ensures dev.io.Ready() && (if r.Ok? then dev.io.out == [] else dev.io.lossy)
    ensures r.Ok? ==>
      && dev.io.MmcValue() == old(dev.io.MmcValue()).(flash := Spliced(old(dev.io.flash), bank * BANK, data))
      && dev.io.CoreValue().Get(VAR_TRANSFER_SIZE) as nat == GBM_CHUNK
    ensures r.Ok? ==> dev.io.heard == old(dev.io.heard)
  {
    hide Spliced, ProgramAt, ErasedIn, AllErased, DmgWindow;
    ghost var m0 := dev.io.MmcValue();
    var window := DmgWindow(bank * BANK).1;
    var engaged, synced, offset := false, false, 0;
    NothingSpliced(m0.flash, bank * BANK);
    assert data[..0] == [];
    while offset < BANK
      invariant offset <= BANK && offset % GBM_CHUNK == 0 && !engaged
      invariant dev.io.Ready() && dev.io.out == []
      invariant BankUpTo(dev.io.MmcValue(), m0, bank * BANK, data, offset)
      invariant CursorAt(dev.io.CoreValue(), synced, window, offset) && dev.io.heard == old(dev.io.heard)
    {
      var chunk := data[offset..offset + GBM_CHUNK];
      assert data[..offset] + chunk == data[..offset + GBM_CHUNK];
      if AllErased(chunk) {
        StillBlank(m0.flash, bank * BANK, offset);
        SkipErased(m0.flash, bank * BANK, data[..offset], chunk);
        engaged, synced := false, false;
      } else {
        if !synced {
          r := dev.SetVariable(VAR_ADDRESS, (window + offset) as u32);
          if r.Err? {
            return;
          }
          synced := true;
        }
        ProgramStep(dev.io.CoreValue(), m0, bank, data, offset);
        var ack := SendChunk(dev, engaged, chunk);
        if ack.Err? {
          return Err(ack.error);
        }
        engaged := ack.value;
      }
      offset := offset + GBM_CHUNK;
    }
    assert data[..offset] == data;
    r := Ok(());
  }

  /** Set up the firmware's programming engine. */
  method ConfigureImage(dev: GbMemoryCart) returns (r: Result<(), DeviceError>)
    requires dev.io.Ready() && dev.io.out == []
    modifies dev.io
    ensures dev.io.Ready() && (if r.Ok? then dev.io.out == [] else dev.io.lossy)
    ensures dev.io.MmcValue() == old(dev.io.MmcValue())
    ensures r.Ok? ==> dev.io.CoreValue().Get(VAR_TRANSFER_SIZE) as nat == GBM_CHUNK
    ensures r.Ok? ==> dev.io.heard == AfterConfigure(old(dev.io.heard))
    ensures r.Ok? && dev.fwVer >= 12 ==>
      && dev.io.CoreValue().Get(VAR_STATUS_REGISTER_MASK) == 0xB2
      && dev.io.CoreValue().Get(VAR_STATUS_REGISTER_VALUE) == 0x80
  {
    var frame := SetFlashCmdFrame(0x00, 0x03, 0x01, []);
    assert frame[0] == frame[..4][0];
    r := dev.CmdAck(frame);
    if r.Err? {
      return;
    }
    if dev.fwVer >= 12 {
      r := dev.SetVariable(VAR_STATUS_REGISTER_MASK, 0xB2);
      if r.Err? {
        return;
      }
      r := dev.SetVariable(VAR_STATUS_REGISTER_VALUE, 0x80);
      if r.Err? {
        return;
      }
    }
    r := dev.SetVariable(VAR_TRANSFER_SIZE, GBM_CHUNK as u32);
  }

  /** Select a bank and program it. */
  method ProgramOneBank(dev: GbMemoryCart, bank: nat, data: seq<byte>) returns (r: Result<(), DeviceError>)
    requires dev.io.Ready() && dev.io.out == [] && bank < BANKS
    requires |data| == BANK && ErasedIn(dev.io.flash, bank * BANK, bank * BANK + BANK)
    requires dev.io.CoreValue().Get(VAR_TRANSFER_SIZE) as nat == GBM_CHUNK
    modifies dev.io
    ensures dev.io.Ready() && (if r.Ok? then dev.io.out == [] else dev.io.lossy)
    ensures r.Ok? ==>
      && dev.io.MmcValue()
         == Banked(old(dev.io.MmcValue()), bank).(flash := Spliced(old(dev.io.flash), bank * BANK, data))
      && dev.io.CoreValue().Get(VAR_TRANSFER_SIZE) as nat == GBM_CHUNK
    ensures r.Ok? ==> dev.io.heard == AfterBus(old(dev.io.heard), 0x2100, bank as byte)
  {
    hide Spliced, ErasedIn;
    r := dev.DmgWrite(MMC5_BANK_WRITE, (bank % 0x100) as byte);
    if r.Err? {
      return;
    }
    r := dev.SetVariable(VAR_DMG_ROM_BANK, bank as u32);
    if r.Err? {
      return;
    }
    r := ProgramWindow(dev, bank, data);
  }

  /** Program the whole image into blank flash. */
  method ProgramImage(dev: GbMemoryCart, image: seq<byte>) returns (r: Result<(), DeviceError>)
    requires dev.io.Ready() && dev.io.out == [] && |image| == IMAGE_SIZE
    requires ErasedIn(dev.io.flash, 0, IMAGE_SIZE)
    modifies dev.io
    ensures dev.io.Ready() && (if r.Ok? then dev.io.out == [] else dev.io.lossy)
    ensures r.Ok? ==> dev.io.MmcValue() == Banked(old(dev.io.MmcValue()), BANKS - 1).(flash := image)
    ensures r.Ok? ==> dev.io.heard == AfterBanks(AfterConfigure(old(dev.io.heard)), 64)
  {
    hide AfterConfigure, Spliced, ErasedIn;
    ghost var m0 := dev.io.MmcValue();
    r := ConfigureImage(dev);
    if r.Err? {
      return;
    }
    var bank := 0;
    NothingSpliced(m0.flash, 0);
    assert image[..0] == [];
    while bank < BANKS
      invariant bank <= BANKS && r.Ok? && dev.io.Ready() && dev.io.out == []
      invariant dev.io.heard == AfterBanks(AfterConfigure(old(dev.io.heard)), bank)
      invariant dev.io.MmcValue()
             == (if bank == 0 then m0 else Banked(m0, bank - 1)).(flash := Spliced(m0.flash, 0, image[..bank * BANK]))
      invariant dev.io.CoreValue().Get(VAR_TRANSFER_SIZE) as nat == GBM_CHUNK
    {
      var base := bank * BANK;
      var data := image[base..base + BANK];
      BlankAhead(m0.flash, image[..base], base, base + BANK);
      r := ProgramOneBank(dev, bank, data);
      if r.Err? {
        return;
      }
      SplicedTwice(m0.flash, 0, image[..base], data);
      assert image[..base] + data == image[..base + BANK];
      bank := bank + 1;
    }
    SplicedWhole(m0.flash, image);
    assert image[..bank * BANK] == image;
  }

  lemma BlankAhead(flash: seq<byte>, done: seq<byte>, from: nat, end: nat)
    requires ErasedIn(flash, 0, |flash|) && |done| <= from <= end <= |flash|
    ensures ErasedIn(Spliced(flash, 0, done), from, end)
  {
  }

  lemma SplicedWhole(flash: seq<byte>, data: seq<byte>)
    requires |flash| == |data|
    ensures Spliced(flash, 0, data) == data
  {
  }

  // --- The hidden map -----------------------------------------------------------------

  /** Unlock and erase the hidden sector. */
  method EraseMap(dev: GbMemoryCart, patience: nat) returns (r: Result<(), DeviceError>)
    requires dev.io.Ready() && dev.io.out == [] && DataMode(dev.io.MmcValue())
    modifies dev.io
    ensures dev.io.Ready() && (r.Err? ==> dev.io.lossy || patience < 2)
    ensures r.Ok? ==>
      dev.io.out == [] && dev.io.MmcValue() == Unlocked(old(dev.io.MmcValue())).(hidden := Blank(MAP_SIZE))
    ensures r.Ok? ==> dev.io.heard == AfterMapErase(old(dev.io.heard))
  {
    hide AfterUnlock, AfterPrefix;
    r := UnlockForWriting(dev, patience);
    if r.Err? {
      return;
    }
    r := dev.FlashUnlockCmd(0x60);
    if r.Err? {
      return;
    }
    r := dev.FlashUnlockCmd(0x04);
    if r.Err? {
      return;
    }
    r := dev.PollReady(0x0000, patience);
  }

  method EnterMapProgram(dev: GbMemoryCart) returns (r: Result<(), DeviceError>)
    requires dev.io.Ready() && dev.io.out == []
    modifies dev.io
    ensures dev.io.Ready() && (if r.Ok? then dev.io.out == [] else dev.io.lossy)
    ensures r.Ok? ==> dev.io.MmcValue() == Banked(old(dev.io.MmcValue()), 1).(awake := false, mapProgram := true)
    ensures r.Ok? ==> dev.io.heard == AfterMapMode(old(dev.io.heard))
  {
    hide AfterCommand, AfterPrefix;
    r := dev.FlashUnlockCmd(0x60);
    if r.Err? {
      return;
    }
    r := dev.FlashUnlockCmd(0xE0);
    if r.Err? {
      return;
    }
    r := dev.DmgWrite(MMC5_BANK_WRITE, 0x01);
    if r.Err? {
      return;
    }
    r := dev.MmcCmd(MMC_MBC_DISABLE);
    if r.Err? {
      return;
    }
    r := dev.MmcCmd(MMC_SLEEP);
  }

  /** The program setup command for the page at address 0. */
  method SetupPage(dev: GbMemoryCart) returns (r: Result<(), DeviceError>)
    requires dev.io.Ready() && dev.io.out == []
    modifies dev.io
    ensures dev.io.Ready() && (if r.Ok? then dev.io.out == [] else dev.io.lossy)
    ensures r.Ok? ==> dev.io.MmcValue() == Banked(old(dev.io.MmcValue()), 1).(awake := true)
    ensures r.Ok? ==> dev.io.heard == AfterPageSetup(old(dev.io.heard))
  {
    hide AfterCommand, AfterWake, AfterPrefix;
    r := dev.SetVariable(VAR_TRANSFER_SIZE, MAP_SIZE as u32);
    if r.Err? {
      return;
    }
    r := dev.SetVariable(VAR_ADDRESS, 0);
    if r.Err? {
      return;
    }
    r := dev.MmcWake();
    if r.Err? {
      return;
    }
    r := dev.MmcCmd(MMC_MBC_ENABLE);
    if r.Err? {
      return;
    }
    r := dev.DmgWrite(MMC5_BANK_WRITE, 0x01);
    if r.Err? {
      return;
    }
    r := dev.FlashUnlockCmd(0xA0);
    if r.Err? {
      return;
    }
    r := dev.DmgWrite(MMC5_BANK_WRITE, 0x01);
  }

  /** The page itself, through the dedicated opcode. */
  method StreamMap(dev: GbMemoryCart, page: seq<byte>) returns (r: Result<(), DeviceError>)
    requires dev.io.Ready() && dev.io.out == [] && |page| == MAP_SIZE
    modifies dev.io
    ensures dev.io.Ready() && (if r.Ok? then dev.io.out == [] else dev.io.lossy)
    ensures dev.io.CoreValue() == old(dev.io.CoreValue()).(mmc := old(dev.io.MmcValue()).(staged := page))
    ensures dev.io.heard == old(dev.io.heard)
  {
    hide Received;
    PayloadFrame(dev.io.Value(), CMD_DMG_MBC6_MMSA_WRITE_FLASH, page);
    dev.io.WriteAll([CMD_DMG_MBC6_MMSA_WRITE_FLASH]);
    dev.io.WriteAll(page);
    var a := dev.ExpectAck();
    r := if a.Ok? then Ok(()) else Err(a.error);
  }

  /** Commit the staged page. */
  method CommitMap(dev: GbMemoryCart, ghost page: seq<byte>, patience: nat) returns (r: Result<(), DeviceError>)
    requires dev.io.Ready() && dev.io.out == [] && DataMode(dev.io.MmcValue()) && dev.io.mapProgram
    requires |page| == MAP_SIZE && dev.io.staged == page
    modifies dev.io
    ensures dev.io.Ready() && (r.Err? ==> dev.io.lossy || patience < 2)
    ensures r.Ok? ==>
      dev.io.out == [] && dev.io.MmcValue() == old(dev.io.MmcValue()).(hidden := page, busy := 0)
    ensures r.Ok? ==> dev.io.heard == AfterBus(old(dev.io.heard), 0x007F, 0xFF)
  {
    assert page[..MAP_SIZE] == page;
    r := dev.DmgWrite(0x007F, 0xFF);
    if r.Err? {
      return;
    }
    r := dev.PollReady(0x007F, patience);
  }

  /** The mapper after a map write. */
  function MapWritten(m: Mmc, page: seq<byte>): (r: Mmc)
    ensures m.Valid() && |page| == MAP_SIZE ==> r.Valid()
  {
    Banked(m, 1).(hidden := page, staged := page, awake := false, mapProgram := true, busy := 0)
  }

  method WriteMap(dev: GbMemoryCart, page: seq<byte>, patience: nat) returns (r: Result<(), DeviceError>)
    requires dev.io.Ready() && dev.io.out == [] && DataMode(dev.io.MmcValue()) && |page| == MAP_SIZE
    modifies dev.io
    ensures dev.io.Ready() && (r.Err? ==> dev.io.lossy || patience < 2)
    ensures r.Ok? ==> dev.io.out == [] && dev.io.MmcValue() == MapWritten(old(dev.io.MmcValue()), page)
    ensures r.Ok? ==> dev.io.heard == AfterMapWrite(old(dev.io.heard))
  {
    hide AfterMapErase, AfterMapMode, AfterPageSetup, AfterCommand;
    r := EraseMap(dev, patience);
    if r.Err? {
      return;
    }
    r := EnterMapProgram(dev);
    if r.Err? {
      return;
    }
    r := SetupPage(dev);
    if r.Err? {
      return;
    }
    r := dev.MmcCmd(MMC_MBC_DISABLE);
    if r.Err? {
      return;
    }
    r := dev.MmcCmd(MMC_SLEEP);
    if r.Err? {
      return;
    }
    r := StreamMap(dev, page);
    if r.Err? {
      return;
    }
    r := CommitMap(dev, page, patience);
  }

  /** Back to a clean, readable state. */
  method GbmReset(dev: GbMemoryCart) returns (r: Result<(), DeviceError>)
    requires dev.io.Ready() && dev.io.out == []
    modifies dev.io
    ensures dev.io.Ready() && (if r.Ok? then dev.io.out == [] else dev.io.lossy)
    ensures r.Ok? ==> dev.io.MmcValue() == Mapped(Banked(old(dev.io.MmcValue()), 1))
    ensures r.Ok? ==> dev.io.heard == AfterReset(old(dev.io.heard))
  {
    hide AfterCommand, AfterFlash;
    r := dev.DmgWrite(MMC5_BANK_WRITE, 0x01);
    if r.Err? {
      return;
    }
    r := dev.FlashWrite(0x4080, FLASH_RESET);
    if r.Err? {
      return;
    }
    r := dev.MmcCmd(MMC_MAP_FULL);
    if r.Err? {
      return;
    }
    r := dev.MmcCmd(MMC_SLEEP);
  }

  // --- Reading ------------------------------------------------------------------------

  /** One 16 KiB window, read again after a timeout, at most four times. */
  method ReadBankRetry(dev: GbMemoryCart, bank: Option<nat>, window: u32) returns (r: Result<seq<byte>, DeviceError>)
    requires dev.io.Ready() && dev.io.out == [] && DataMode(dev.io.MmcValue())
    requires window as nat + BANK <= 0x1_0000 && (bank.Some? ==> bank.value < 0x100)
    modifies dev.io
    ensures dev.io.Ready() && (if r.Ok? then dev.io.out == [] else dev.io.lossy)
    ensures var m := old(dev.io.MmcValue());
            dev.io.MmcValue() == if bank.Some? then Banked(m, bank.value) else m
    ensures r.Ok? ==> r.value == Shown(dev.io.MmcValue(), window as nat, BANK)
  {
    hide Shown, RomReads;
    ghost var m := if bank.Some? then Banked(dev.io.MmcValue(), bank.value) else dev.io.MmcValue();
    var attempt := 0;
    while true
      invariant attempt <= 3 && dev.io.Ready() && dev.io.out == []
      invariant dev.io.MmcValue() == m || (attempt == 0 && dev.io.MmcValue() == old(dev.io.MmcValue()))
      decreases 3 - attempt
    {
      if bank.Some? {
        var a := dev.SelectBank(bank.value);
        if a.Err? {
          return Err(a.error);
        }
      }
      DataRead(dev.io.CoreValue(), window, BANK);
      r := dev.ReadDmgRomChunk(window, BANK);
      if r.Ok? || r.error != Io || attempt == 3 {
        return;
      }
      dev.io.FlushInput();
      attempt := attempt + 1;
    }
  }

  lemma FixedWindow(m: Mmc)
    requires m.Valid()
    ensures Shown(m, 0, BANK) == m.flash[..BANK]
  {
  }

  lemma BankWindow(m: Mmc, bank: nat)
    requires m.Valid() && m.bank == bank && 0 < bank < BANKS && !m.bankBroken
    ensures Shown(m, 0x4000, BANK) == m.flash[bank * BANK..bank * BANK + BANK]
  {
    forall i | 0 <= i < BANK
      ensures Shown(m, 0x4000, BANK)[i] == m.flash[bank * BANK + i]
    {
      assert FlashAbs(m, 0x4000 + i) == bank * BANK + i;
    }
  }

  /** The whole megabyte: bank 0 through the fixed window, the others through the switchable one. */
  method ReadFlash(dev: GbMemoryCart) returns (r: Result<seq<byte>, DeviceError>)
    requires dev.io.Ready() && dev.io.out == [] && DataMode(dev.io.MmcValue())
    modifies dev.io
    ensures dev.io.Ready() && (if r.Ok? then dev.io.out == [] else dev.io.lossy)
    ensures r.Ok? ==>
      r.value == old(dev.io.flash) && dev.io.MmcValue() == Banked(old(dev.io.MmcValue()), BANKS - 1)
  {
    hide Shown;
    ghost var m := dev.io.MmcValue();
    r := ReadBankRetry(dev, None, 0x0000);
    if r.Err? {
      return;
    }
    var rom := r.value;
    FixedWindow(m);
    var bank := 1;
    while bank < BANKS
      invariant 1 <= bank <= BANKS && dev.io.Ready() && dev.io.out == []
      invariant dev.io.MmcValue() == if bank == 1 then m else Banked(m, bank - 1)
      invariant rom == m.flash[..bank * BANK]
    {
      BankWindow(Banked(m, bank), bank);
      var chunk := ReadBankRetry(dev, Some(bank), 0x4000);
      if chunk.Err? {
        return chunk;
      }
      rom := rom + chunk.value;
      bank := bank + 1;
    }
    assert m.flash[..bank * BANK] == m.flash;
    r := Ok(rom);
  }

  /** Flash and map as they were, data or the map on the bus. */
  ghost predicate Kept(m0: Mmc, m: Mmc) {
    m.Valid() && m.flash == m0.flash && m.hidden == m0.hidden && !m.autoselect && m.busy == m0.busy
  }

  /** Wake up and put the hidden map on the bus. */
  method ExposeMap(dev: GbMemoryCart) returns (r: Result<(), DeviceError>)
    requires dev.io.Ready() && dev.io.out == [] && !dev.io.autoselect
    modifies dev.io
    ensures dev.io.Ready() && (if r.Ok? then dev.io.out == [] else dev.io.lossy)
    ensures r.Ok? ==> Kept(old(dev.io.MmcValue()), dev.io.MmcValue()) && dev.io.mapRead
    ensures r.Ok? ==> dev.io.heard == AfterExpose(old(dev.io.heard))
  {
    hide AfterCommand, AfterWake, AfterPrefix;
    r := dev.MmcWake();
    if r.Err? {
      return;
    }
    r := dev.MmcCmd(MMC_MBC_ENABLE);
    if r.Err? {
      return;
    }
    r := dev.DmgWrite(MMC5_BANK_WRITE, 0x01);
    if r.Err? {
      return;
    }
    r := dev.FlashUnlockCmd(0x77);
    if r.Err? {
      return;
    }
    r := dev.FlashUnlockCmd(0x77);
    if r.Err? {
      return;
    }
    r := dev.DmgWrite(MMC5_BANK_WRITE, 0x00);
  }

  /** 128 bytes from address 0: the map once it is exposed, the start of the flash before. */
  method ReadPage(dev: GbMemoryCart) returns (r: Result<seq<byte>, DeviceError>)
    requires dev.io.Ready() && dev.io.out == [] && !dev.io.autoselect
    modifies dev.io
    ensures dev.io.Ready() && (if r.Ok? then dev.io.out == [] else dev.io.lossy)
    ensures dev.io.MmcValue() == old(dev.io.MmcValue())
    ensures r.Ok? ==> r.value == if dev.io.mapRead then dev.io.hidden else dev.io.flash[..MAP_SIZE]
  {
    hide RomReads;
    if dev.io.mapRead {
      MapRead(dev.io.CoreValue());
    } else {
      DataRead(dev.io.CoreValue(), 0, MAP_SIZE);
      assert Shown(dev.io.MmcValue(), 0, MAP_SIZE) == dev.io.flash[..MAP_SIZE];
    }
    r := dev.ReadDmgRomChunk(0, MAP_SIZE);
  }

  /** Read the hidden map; it is told from the flash only by being different. */
  method ReadMap(dev: GbMemoryCart) returns (r: Result<seq<byte>, DeviceError>)
    requires dev.io.Ready() && dev.io.out == [] && DataMode(dev.io.MmcValue())
    modifies dev.io
    ensures dev.io.Ready() && (r.Ok? ==> dev.io.out == [])
    ensures r.Ok? || !dev.io.lossy ==> Kept(old(dev.io.MmcValue()), dev.io.MmcValue())
    ensures r.Ok? ==> r.value == old(dev.io.hidden) && old(dev.io.hidden) != old(dev.io.flash)[..MAP_SIZE]
    ensures r.Err? ==> dev.io.lossy || old(dev.io.hidden) == old(dev.io.flash)[..MAP_SIZE]
  {
    ghost var m := dev.io.MmcValue();
    var tries := 0;
    while tries < 5
      invariant dev.io.Ready() && dev.io.out == [] && Kept(m, dev.io.MmcValue())
      invariant if tries == 0 then !dev.io.mapRead else dev.io.mapRead && m.hidden == m.flash[..MAP_SIZE]
    {
      var baseline := ReadPage(dev);
      if baseline.Err? {
        return baseline;
      }
      var a := ExposeMap(dev);
      if a.Err? {
        return Err(a.error);
      }
      var data := ReadPage(dev);
      if data.Err? {
        return data;
      }
      a := dev.MmcCmd(MMC_SLEEP);
      if a.Err? {
        return Err(a.error);
      }
      if data.value != baseline.value {
        return data;
      }
      tries := tries + 1;
    }
    r := Err(ProtocolError);
  }

  /** The full flash image and the hidden map, read from any state of the cart. */
  method ReadGbMemory(dev: GbMemoryCart) returns (r: Result<(seq<byte>, seq<byte>), DeviceError>)
    requires dev.io.Ready() && dev.io.out == []
    modifies dev.io
    ensures dev.io.Ready()
    ensures r.Ok? || !dev.io.lossy ==> dev.io.flash == old(dev.io.flash) && dev.io.hidden == old(dev.io.hidden)
    ensures r.Ok? ==> dev.io.out == [] && r.value == (old(dev.io.flash), old(dev.io.hidden))
    ensures r.Ok? ==> old(dev.io.hidden) != old(dev.io.flash)[..MAP_SIZE]
    ensures r.Err? ==> dev.io.lossy || old(dev.io.hidden) == old(dev.io.flash)[..MAP_SIZE]
  {
    var a := dev.EnterDmgMode();
    if a.Err? {
      return Err(a.error);
    }
    a := EnableMapper(dev);
    if a.Err? {
      return Err(a.error);
    }
    var rom := ReadFlash(dev);
    if rom.Err? {
      return Err(rom.error);
    }
    var page := ReadMap(dev);
    if page.Err? {
      return Err(page.error);
    }
    a := GbmReset(dev);
    if a.Err? {
      return Err(a.error);
    }
    dev.Idle();
    r := Ok((rom.value, page.value));
  }

  /** Only the map. */
  method ReadGbMemoryMap(dev: GbMemoryCart) returns (r: Result<seq<byte>, DeviceError>)
    requires dev.io.Ready() && dev.io.out == []
    modifies dev.io
    ensures r.Ok? ==> r.value == old(dev.io.hidden) && old(dev.io.hidden) != old(dev.io.flash)[..MAP_SIZE]
    ensures r.Err? ==> dev.io.lossy || old(dev.io.hidden) == old(dev.io.flash)[..MAP_SIZE]
    ensures r.Ok? || !dev.io.lossy ==> dev.io.flash == old(dev.io.flash) && dev.io.hidden == old(dev.io.hidden)
  {
    var a := dev.EnterDmgMode();
    if a.Err? {
      return Err(a.error);
    }
    a := EnableMapper(dev);
    if a.Err? {
      return Err(a.error);
    }
    a := MapFull(dev);
    if a.Err? {
      return Err(a.error);
    }
    r := ReadMap(dev);
    if r.Err? {
      return;
    }
    a := GbmReset(dev);
    if a.Err? {
      return Err(a.error);
    }
    dev.Idle();
  }

  // --- Writing ------------------------------------------------------------------------

  /** From any state to blank flash ready to be programmed. */
  method PrepareAndErase(dev: GbMemoryCart, patience: nat) returns (r: Result<(), DeviceError>)
    requires dev.io.Ready() && dev.io.out == []
    modifies dev.io
    ensures dev.io.Ready() && (r.Err? ==> dev.io.lossy || patience < 2)
    ensures r.Ok? ==>
      dev.io.out == [] && DataMode(dev.io.MmcValue()) && ErasedIn(dev.io.flash, 0, IMAGE_SIZE)
    ensures r.Ok? ==> exists h :: Entered(old(dev.io.heard), h) && dev.io.heard == AfterPrepare(h)
  {
    hide AfterEnable, AfterUnlock, AfterIdCheck, AfterErase, Entered;
    r := dev.EnterDmgMode();
    if r.Err? {
      return;
    }
    r := EnableMapper(dev);
    if r.Err? {
      return;
    }
    r := UnlockForWriting(dev, patience);
    if r.Err? {
      return;
    }
    r := VerifyFlashId(dev);
    if r.Err? {
      return;
    }
    r := UnlockForWriting(dev, patience);
    if r.Err? {
      return;
    }
    r := ChipErase(dev, patience);
  }

  /** Everything up to verification. */
  method WriteParts(dev: GbMemoryCart, image: seq<byte>, page: seq<byte>, patience: nat)
    returns (r: Result<(), DeviceError>)
    requires dev.io.Ready() && dev.io.out == [] && |image| == IMAGE_SIZE && |page| == MAP_SIZE
    modifies dev.io
    ensures dev.io.Ready() && (r.Err? ==> dev.io.lossy || patience < 2)
    ensures r.Ok? ==> dev.io.out == [] && dev.io.flash == image && dev.io.hidden == page
    ensures r.Ok? ==> exists h :: Entered(old(dev.io.heard), h) && dev.io.heard == AfterWrite(h)
  {
    hide AfterPrepare, AfterConfigure, AfterBanks, AfterMapWrite, AfterReset, Entered, ErasedIn;
    r := PrepareAndErase(dev, patience);
    if r.Err? {
      return;
    }
    r := ProgramImage(dev, image);
    if r.Err? {
      return;
    }
    r := WriteMap(dev, page, patience);
    if r.Err? {
      return;
    }
    r := GbmReset(dev);
  }

  /** The sizes a write accepts. */
  predicate WellSized(image: seq<byte>, page: seq<byte>) {
    |image| == IMAGE_SIZE && |page| == MAP_SIZE
  }

  /**
   Write an image and a map. Whatever the flash held and whatever times out, a success means the
   cart holds exactly that pair. Over a lossless link the cart always ends up holding it, and the
   write succeeds just when the map differs from the start of the image.
   */
  method WriteGbMemory(dev: GbMemoryCart, image: seq<byte>, page: seq<byte>, patience: nat)
    returns (r: Result<(), DeviceError>)
    requires dev.io.Ready() && dev.io.out == []
    modifies dev.io
    ensures !WellSized(image, page) ==> r == Err(ProtocolError) && dev.io.Value() == old(dev.io.Value())
    ensures WellSized(image, page) && (r.Ok? || (!dev.io.lossy && patience >= 2)) ==>
      dev.io.Ready() && dev.io.flash == image && dev.io.hidden == page
    ensures WellSized(image, page) && r.Ok? ==> page != image[..MAP_SIZE] && dev.io.out == []
    ensures WellSized(image, page) && !dev.io.lossy && patience >= 2 ==> (r.Ok? <==> page != image[..MAP_SIZE])
  {
    if |image| != IMAGE_SIZE || |page| != MAP_SIZE {
      return Err(ProtocolError);
    }
    r := WriteParts(dev, image, page, patience);
    if r.Err? {
      return;
    }
    var readback := ReadGbMemory(dev);
    if readback.Err? {
      return Err(readback.error);
    }
    if readback.value.0 != image {
      return Err(ProtocolError);
    }
    if readback.value.1 != page {
      return Err(ProtocolError);
    }
    dev.Idle();
  }

  /** A write followed by a read of the same cart. */
  method WriteThenRead(dev: GbMemoryCart, image: seq<byte>, page: seq<byte>, patience: nat)
    returns (r: Result<(seq<byte>, seq<byte>), DeviceError>)
    requires dev.io.Ready() && dev.io.out == [] && WellSized(image, page)
    modifies dev.io
    ensures r.Ok? ==> r.value == (image, page)
    ensures !dev.io.lossy && patience >= 2 ==> (r.Ok? <==> page != image[..MAP_SIZE])
  {
    var w := WriteGbMemory(dev, image, page, patience);
    if w.Err? {
      return Err(w.error);
    }
    r := ReadGbMemory(dev);
  }
}
