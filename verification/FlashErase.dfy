/**
 Erasing a flash cart: the profile that drives a chip, the six-cycle erase sequence as the chip and
 the mapper see it, and the polling that waits the erase out.
 */
module FlashErase {
  import opened Arithmetic
  import opened Bytes
  import opened Protocol
  import opened FlashChip
  import opened Cartridges
  import opened GbxCore
  import opened GbxWire
  import opened GbxLink
  import opened SimGbx
  import opened GbxDriver
  import opened DmgDump

  datatype Family = DmgFamily | AgbFamily

  datatype ProgramMethod = Unbuffered | Buffered(size: nat)

  /** How to drive a flash chip with the AMD command set; a sector size of 0 means chip erase only. */
  datatype FlashProfile = FlashProfile(
    family: Family,
    programming: ProgramMethod,
    wePin: byte,
    unlock1: u32,
    unlock2: u32,
    maxSize: nat,
    sectorSize: nat)

  /** Unlock addresses as the chip behind the bus decodes them: GBA chips count bytes, the bus words. */
  function ChipAddress(family: Family, addr: u32): nat {
    if family == DmgFamily then addr as nat else 2 * addr as nat
  }

  /**
   The profile fits the cart: the chip decodes its unlock addresses, erases its sectors and is in
   its resting state. A DMG flash cart is wired as an MBC5, and its unlock addresses stay below the
   bank registers, which would otherwise take the commands for bank switches.
   */
  predicate Fits(p: FlashProfile, s: Slot) {
    && s.Valid() && ChipOf(s).Some? && ChipOf(s).value.Resting()
    && ChipOf(s).value.unlock1 == ChipAddress(p.family, p.unlock1)
    && ChipOf(s).value.unlock2 == ChipAddress(p.family, p.unlock2)
    && (p.sectorSize > 0 ==> ChipOf(s).value.sectorSize == p.sectorSize)
    && match p.family
       case DmgFamily => s.DmgSlot? && s.dmg.mbc == Mbc5 && p.unlock1 < 0x2000 && p.unlock2 < 0x2000
       case AgbFamily => s.AgbSlot?
  }

  /** The mode the cart is read in. */
  predicate Reading(p: FlashProfile, c: Core) {
    && c.Valid() && Fits(p, c.slot)
    && (p.family == DmgFamily ==> c.DmgLive() && c.Get(VAR_DMG_READ_METHOD) == DMG_READ_METHOD_A15)
    && (p.family == AgbFamily ==> c.AgbLive())
  }

  // --- The erase sequence -------------------------------------------------------------

  function EraseWrites(p: FlashProfile, last: (u32, byte)): (w: seq<(u32, byte)>)
    ensures |w| == 6
  {
    [(p.unlock1, 0xAA), (p.unlock2, 0x55), (p.unlock1, 0x80), (p.unlock1, 0xAA), (p.unlock2, 0x55), last]
  }

  /** A chip that has seen the five unlock cycles. */
  function Unlocked(c: Chip): (r: Chip)
    ensures c.Valid() ==> r.Valid()
  {
    c.(state := EraseReady)
  }

  lemma FlashWritesOn(s: Slot, writes: seq<(u32, byte)>, w: (u32, byte))
    requires s.Valid()
    ensures FlashWrites(s, writes + [w]) == FlashWrite(FlashWrites(s, writes), w.0 as nat, w.1)
  {
    assert (writes + [w])[..|writes|] == writes;
  }

  /** One unlock cycle: the chip moves on, and a DMG mapper's ROM banks stay put. */
  lemma UnlockCycle(p: FlashProfile, s: Slot, addr: u32, value: byte)
    requires s.Valid() && ChipOf(s).Some?
    requires p.family == DmgFamily ==> s.DmgSlot? && s.dmg.mbc == Mbc5 && addr < 0x2000
    requires p.family == AgbFamily ==> s.AgbSlot?
    ensures var s1 := FlashWrite(s, addr as nat, value);
            && ChipOf(s1) == Some(Command(ChipOf(s).value, ChipAddress(p.family, addr), value))
            && SameBanks(s, s1)
  {
  }

  /** Two states of a cart that show the same ROM banks. */
  predicate SameBanks(s: Slot, s1: Slot) {
    match s
    case DmgSlot(c) =>
      && s1.DmgSlot? && s1.dmg.mbc == c.mbc && s1.dmg.bankLo == c.bankLo && s1.dmg.bankHi == c.bankHi
      && s1.dmg.rom == c.rom && s1.dmg.ram == c.ram
    case AgbSlot(c) => s1.AgbSlot? && s1.agb.rom == c.rom && s1.agb.pad == c.pad
    case EmptySlot => s1.EmptySlot?
  }

  lemma UnlockPrefix(p: FlashProfile, s: Slot)
    requires Fits(p, s)
    ensures var s1 := FlashWrites(s, EraseWrites(p, (0, 0))[..5]);
            && ChipOf(s1) == Some(Unlocked(ChipOf(s).value))
            && SameBanks(s, s1)
  {
    hide FlashWrite, FlashWrites, Fits;
    var a1, a2 := p.unlock1, p.unlock2;
    var w := EraseWrites(p, (0, 0));
    FitsUnlock(p, s);
    assert FlashWrites(s, []) == s by {
      NoFlashWrites(s);
    }
    var i := 0;
    var t := s;
    while i < 5
      invariant 0 <= i <= 5 && t == FlashWrites(s, w[..i]) && t.Valid()
      invariant SameBanks(s, t) && ChipOf(t).Some?
      invariant ChipOf(t).value == ChipOf(s).value.(state := [Read, U1, U2, EraseU1, EraseU2, EraseReady][i])
    {
      FlashWritesOn(s, w[..i], w[i]);
      assert w[..i] + [w[i]] == w[..i + 1];
      UnlockCycle(p, t, w[i].0, w[i].1);
      t := FlashWrite(t, w[i].0 as nat, w[i].1);
      i := i + 1;
    }
  }

  lemma NoFlashWrites(s: Slot)
    requires s.Valid()
    ensures FlashWrites(s, []) == s
  {
  }

  lemma FitsUnlock(p: FlashProfile, s: Slot)
    requires Fits(p, s)
    ensures s.Valid() && ChipOf(s).Some? && ChipOf(s).value.Resting()
    ensures ChipOf(s).value.unlock1 == ChipAddress(p.family, p.unlock1)
    ensures ChipOf(s).value.unlock2 == ChipAddress(p.family, p.unlock2)
    ensures p.family == DmgFamily ==> s.DmgSlot? && s.dmg.mbc == Mbc5 && p.unlock1 < 0x2000 && p.unlock2 < 0x2000
    ensures p.family == AgbFamily ==> s.AgbSlot?
  {
  }

  // --- Unlock addresses inside the bank registers -----------------------------------------

  /** What a cart wired as an MBC5 makes of an unlock cycle at 0x5555 or 0x2AAA: a command, and a bank switch. */
  lemma SwitchingCycle(s: Slot, addr: u32, value: byte)
    requires s.Valid() && s.DmgSlot? && s.dmg.mbc == Mbc5 && s.dmg.flash.Some? && (addr == 0x5555 || addr == 0x2AAA)
    ensures var s1 := FlashWrite(s, addr as nat, value);
            && s1.DmgSlot? && s1.dmg.mbc == Mbc5
            && s1.dmg.flash == Some(Command(s.dmg.flash.value, SwitchedAddress(s.dmg, addr), value))
            && s1.dmg.bankLo == (if addr == 0x2AAA then value else s.dmg.bankLo)
            && s1.dmg.bankHi == (if addr == 0x5555 then value else s.dmg.bankHi)
  {
    hide Command;
  }

  function SwitchedAddress(c: DmgCart, addr: u32): nat {
    if addr == 0x5555 then SwitchableBank(c) * ROM_BANK + 0x1555 else addr as nat
  }

  /**
   With unlock addresses 0x5555 and 0x2AAA no erase sequence ever reaches a chip behind an MBC5: the
   second cycle selects bank 0x55, so the third is not at an unlock address.
   */
  lemma SwitchedUnlockNeverErases(p: FlashProfile, s: Slot, last: (u32, byte))
    requires s.Valid() && s.DmgSlot? && s.dmg.mbc == Mbc5 && s.dmg.flash.Some? && s.dmg.flash.value.Resting()
    requires p.unlock1 == 0x5555 && p.unlock2 == 0x2AAA
    requires s.dmg.flash.value.unlock1 == 0x5555 && s.dmg.flash.value.unlock2 == 0x2AAA
    ensures ChipOf(FlashWrites(s, EraseWrites(p, last))).Some?
    ensures ChipOf(FlashWrites(s, EraseWrites(p, last))).value.data == s.dmg.flash.value.data
  {
    hide FlashWrite, FlashWrites, SwitchableBank, Command;
    var w := EraseWrites(p, last);
    NoFlashWrites(s);
    assert w[..0] == [];
    var s1 := FlashWrite(s, 0x5555, 0xAA);
    SwitchingCycle(s, 0x5555, 0xAA);
    CycleState(s.dmg.flash.value, SwitchedAddress(s.dmg, 0x5555), 0xAA);
    FlashWritesOn(s, w[..0], w[0]);
    assert w[..0] + [w[0]] == w[..1];
    var s2 := FlashWrite(s1, 0x2AAA, 0x55);
    SwitchingCycle(s1, 0x2AAA, 0x55);
    CycleState(s1.dmg.flash.value, 0x2AAA, 0x55);
    FlashWritesOn(s, w[..1], w[1]);
    assert w[..1] + [w[1]] == w[..2];
    BankFiftyFive(s2.dmg);
    var s3 := FlashWrite(s2, 0x5555, 0x80);
    SwitchingCycle(s2, 0x5555, 0x80);
    CycleState(s2.dmg.flash.value, SwitchedAddress(s2.dmg, 0x5555), 0x80);
    FlashWritesOn(s, w[..2], w[2]);
    assert w[..2] + [w[2]] == w[..3];
    BankFiftyFive(s3.dmg);
    var s4 := FlashWrite(s3, 0x5555, 0xAA);
    SwitchingCycle(s3, 0x5555, 0xAA);
    CycleState(s3.dmg.flash.value, SwitchedAddress(s3.dmg, 0x5555), 0xAA);
    FlashWritesOn(s, w[..3], w[3]);
    assert w[..3] + [w[3]] == w[..4];
    var s5 := FlashWrite(s4, 0x2AAA, 0x55);
    SwitchingCycle(s4, 0x2AAA, 0x55);
    CycleState(s4.dmg.flash.value, 0x2AAA, 0x55);
    FlashWritesOn(s, w[..4], w[4]);
    assert w[..4] + [w[4]] == w[..5];
    FlashWritesOn(s, w[..5], w[5]);
    assert w[..5] + [w[5]] == w;
    LastCycle(s5, last);
  }

  /** A command away from read mode's first unlock cycle leaves the data, and opens nothing. */
  lemma CycleState(c: Chip, at: nat, value: byte)
    requires c.Valid() && c.unlock1 == 0x5555 && c.unlock2 == 0x2AAA && c.state in {Read, U1, U2}
    ensures var d := Command(c, at, value);
            && d.Valid() && d.data == c.data && d.unlock1 == c.unlock1 && d.unlock2 == c.unlock2
            && (c.state == Read && value != 0xAA ==> d.state == Read)
            && (c.state == Read ==> d.state in {Read, U1})
            && (c.state == U1 ==> d.state in {Read, U2})
            && (at != 0x5555 ==> d.state in {Read, U2} && (c.state != U1 ==> d.state == Read))
  {
  }

  lemma BankFiftyFive(c: DmgCart)
    requires c.mbc == Mbc5 && c.bankLo == 0x55
    ensures SwitchedAddress(c, 0x5555) != 0x5555
  {
  }

  lemma LastCycle(s: Slot, last: (u32, byte))
    requires s.Valid() && s.DmgSlot? && s.dmg.flash.Some? && s.dmg.flash.value.state == Read
    ensures var s1 := FlashWrite(s, last.0 as nat, last.1);
            ChipOf(s1).Some? && ChipOf(s1).value.data == s.dmg.flash.value.data
  {
  }

  // --- Windows and sectors -----------------------------------------------------------------

  /** An absolute DMG flash address as (MBC5 bank, bus address). */
  function DmgWindow(abs: nat): (w: (nat, nat))
    ensures w.1 < 0x8000 && w.0 == abs / ROM_BANK
    ensures w.0 == 0 ==> w.1 == abs
    ensures w.0 > 0 ==> w.1 >= 0x4000 && w.0 * ROM_BANK + (w.1 - 0x4000) == abs
  {
    if abs / ROM_BANK == 0 then (0, abs) else (abs / ROM_BANK, 0x4000 + abs % ROM_BANK)
  }

  /** The bus address the sixth erase cycle goes to. */
  function SectorAddress(family: Family, abs: nat): nat {
    if family == DmgFamily then DmgWindow(abs).1 else abs / 2
  }

  /** The bank that makes `abs` reachable is selected. */
  predicate BankReady(s: Slot, abs: nat) {
    s.DmgSlot? && s.dmg.mbc == Mbc5 ==> SwitchableBank(s.dmg) == abs / ROM_BANK
  }

  function ErasedChip(c: Chip, base: nat, end: nat): (r: Chip)
    ensures c.Valid() ==> r.Valid()
  {
    c.(data := EraseRange(c.data, base, end), erasedSectors := c.erasedSectors + [base], busyPolls := 2)
  }

  /** The last cycle of a sector erase reaches the sector that was meant. */
  lemma SectorCycle(p: FlashProfile, s: Slot, chip: Chip, k: nat)
    requires s.Valid() && chip.Resting() && chip.sectorSize == p.sectorSize > 0 && p.sectorSize % 2 == 0
    requires ChipOf(s) == Some(Unlocked(chip)) && BankReady(s, k * p.sectorSize) && k * p.sectorSize <= |chip.data|
    requires p.family == DmgFamily ==> s.DmgSlot? && s.dmg.mbc == Mbc5
    requires p.family == AgbFamily ==> s.AgbSlot?
    ensures var abs := k * p.sectorSize;
            var s1 := FlashWrite(s, SectorAddress(p.family, abs), 0x30);
            && ChipOf(s1) == Some(ErasedChip(chip, abs, abs + p.sectorSize))
            && SameKind(s, s1)
  {
    var abs := k * p.sectorSize;
    assert abs / p.sectorSize == k by {
      MulDiv(k, p.sectorSize);
    }
    assert abs % 2 == 0 by {
      EvenProduct(k, p.sectorSize);
    }
    SectorCommand(chip, abs);
    if p.family == DmgFamily {
      assert RomAddress(s.dmg, DmgWindow(abs).1) == abs;
    }
  }

  lemma SectorCommand(chip: Chip, abs: nat)
    requires chip.Resting() && abs / chip.sectorSize * chip.sectorSize == abs <= |chip.data|
    ensures Command(Unlocked(chip), abs, 0x30) == ErasedChip(chip, abs, abs + chip.sectorSize)
  {
  }

  /** Same cartridge, same ROM; mapper registers and chip state may differ. */
  predicate SameKind(s: Slot, s1: Slot) {
    match s
    case DmgSlot(c) => s1.DmgSlot? && s1.dmg.mbc == c.mbc && s1.dmg.rom == c.rom && s1.dmg.ram == c.ram
    case AgbSlot(c) => s1.AgbSlot? && s1.agb.rom == c.rom && s1.agb.pad == c.pad
    case EmptySlot => s1.EmptySlot?
  }

  lemma SectorErase(p: FlashProfile, s: Slot, k: nat)
    requires Fits(p, s) && p.sectorSize > 0 && p.sectorSize % 2 == 0 && k * p.sectorSize <= |ChipOf(s).value.data|
    requires BankReady(s, k * p.sectorSize) && SectorAddress(p.family, k * p.sectorSize) < 0x1_0000_0000
    ensures var abs := k * p.sectorSize;
            var s1 := FlashWrites(s, EraseWrites(p, (SectorAddress(p.family, abs) as u32, 0x30)));
            && ChipOf(s1) == Some(ErasedChip(ChipOf(s).value, abs, abs + p.sectorSize))
            && SameKind(s, s1) && !Crashed(s1)
  {
    hide FlashWrite, FlashWrites, Command, SwitchableBank;
    var last := (SectorAddress(p.family, k * p.sectorSize) as u32, 0x30 as byte);
    UnlockPrefix(p, s);
    var w := EraseWrites(p, (0, 0))[..5];
    FlashWritesOn(s, w, last);
    assert w + [last] == EraseWrites(p, last);
    var t := FlashWrites(s, w);
    BanksReady(s, t, k * p.sectorSize);
    SectorCycle(p, t, ChipOf(s).value, k);
  }

  lemma BanksReady(s: Slot, t: Slot, abs: nat)
    requires SameBanks(s, t)
    ensures BankReady(s, abs) ==> BankReady(t, abs)
    ensures SameKind(s, t)
  {
  }

  lemma ChipErase(p: FlashProfile, s: Slot)
    requires Fits(p, s)
    ensures var s1 := FlashWrites(s, EraseWrites(p, (p.unlock1, 0x10)));
            var chip := ChipOf(s).value;
            && ChipOf(s1)
               == Some(chip.(data := EraseRange(chip.data, 0, |chip.data|), chipErased := true, busyPolls := 2))
            && SameKind(s, s1) && !Crashed(s1)
  {
    hide FlashWrite, FlashWrites, Command;
    var last := (p.unlock1, 0x10 as byte);
    UnlockPrefix(p, s);
    var w := EraseWrites(p, (0, 0))[..5];
    FlashWritesOn(s, w, last);
    assert w + [last] == EraseWrites(p, last);
    var t := FlashWrites(s, w);
    BanksReady(s, t, 0);
    UnlockCycle(p, t, p.unlock1, 0x10);
    ChipCommand(ChipOf(s).value);
  }

  lemma ChipCommand(chip: Chip)
    requires chip.Resting()
    ensures Command(Unlocked(chip), chip.unlock1, 0x10)
         == chip.(data := EraseRange(chip.data, 0, |chip.data|), chipErased := true, busyPolls := 2)
  {
  }

  // --- Polling ------------------------------------------------------------------------

  /** A one-byte ROM read: one answer of the socket. */
  lemma ByteRead(c: Core, bus: u32)
    requires c.Valid() && c.DmgLive() && c.slot.DmgSlot? && bus as nat < 0x8000
    requires c.Get(VAR_DMG_READ_METHOD) == DMG_READ_METHOD_A15
    ensures var (c1, s) := RomRead(c, bus, 1);
            && s == [RomByte(c.slot.dmg, RomAddress(c.slot.dmg, bus as nat))]
            && c1.slot == DmgSlot(AfterBusRead(c.slot.dmg, bus as nat))
            && c1.DmgLive() && c1.Get(VAR_DMG_READ_METHOD) == DMG_READ_METHOD_A15
            && c1.bufferFill == c.bufferFill
  {
    hide DmgStream, DmgSees, AfterDmgByte, BusByte, RomByte, RomAddress;
    var c0 := Aimed(SetVar(c, VAR_DMG_ACCESS_MODE, DMG_ACCESS_ROM_READ), 1, bus);
    assert Parts(1, 1) == 1;
    DmgOpcodes(c0, 1);
    OneByteStream(c0);
    WindowByte(c0, bus as nat);
    ByteAfter(c0);
  }

  lemma OneByteStream(c: Core)
    requires c.Valid()
    ensures DmgStream(c, 1) == (AfterDmgByte(c), [DmgSees(c, c.address % 0x1_0000)])
  {
    hide AfterDmgByte, DmgSees;
    assert DmgStream(c, 0) == (c, []);
    assert [] + [DmgSees(c, c.address % 0x1_0000)] == [DmgSees(c, c.address % 0x1_0000)];
  }

  lemma ByteAfter(c: Core)
    requires c.Valid() && c.DmgLive() && c.slot.DmgSlot? && c.address < 0x8000
    requires c.Get(VAR_DMG_READ_METHOD) == DMG_READ_METHOD_A15
    ensures AfterDmgByte(c)
         == c.(slot := DmgSlot(AfterBusRead(c.slot.dmg, c.address)), address := c.address + 1)
  {
  }

  /** Every 9-bit bank of an MBC5 can be selected, bank 0 included. */
  lemma Mbc5Selects(c: DmgCart, bank: nat)
    requires c.Valid() && c.mbc == Mbc5 && bank < 512
    ensures var c1 := Applied(c, RomBankWrites(KindMbc5, bank));
            SwitchableBank(c1) == bank && c1 == c.(bankLo := c1.bankLo, bankHi := c1.bankHi)
  {
    hide Applied;
    var w := RomBankWrites(KindMbc5, bank);
    AppliedTwo(c, w[0], w[1]);
  }

  method SelectDmgBank(dev: GbxCart, ghost p: FlashProfile, bank: nat) returns (r: Result<(), DeviceError>)
    requires dev.io.Ready() && dev.io.cart.Dmg? && dev.io.out == []
    requires p.family == DmgFamily && Reading(p, dev.io.CoreValue()) && bank < 512
    modifies dev.io.Repr()
    ensures dev.io.Ready() && dev.io.inStep == old(dev.io.inStep)
    ensures r.Err? ==> dev.io.Lossy()
    ensures dev.io.link.Reached(old(dev.io.asked), 2, r.Ok?, dev.io.asked)
    ensures r.Ok? ==>
      && dev.io.out == []
      && Reading(p, dev.io.CoreValue()) && SwitchableBank(dev.io.SlotValue().dmg) == bank
      && ChipOf(dev.io.SlotValue()) == ChipOf(old(dev.io.SlotValue()))
      && dev.io.CoreValue() == old(dev.io.CoreValue()).(slot := dev.io.SlotValue())
      && SameKind(old(dev.io.SlotValue()), dev.io.SlotValue())
  {
    hide SimGbxCart.Ready, SimGbxCart.Repr, SimGbxCart.CartRepr, Applied, SwitchableBank, Link.Reached;
    ghost var c := dev.io.SlotValue().dmg;
    var w := RomBankWrites(KindMbc5, bank);
    assert |w| == 2 && w[..|w|] == w;
    Mbc5Selects(c, bank);
    ghost var sent;
    r, sent := ApplyWrites(dev, w);
  }

  /** How many answers a poll at `abs` asks for. */
  function PollReads(p: FlashProfile, abs: nat): nat {
    if p.family == AgbFamily then 3 else if abs / ROM_BANK == 0 then 4 else 6
  }

  /** Read one byte at an absolute flash address; the chip may use up a busy answer. */
  method PollDmg(dev: GbxCart, ghost p: FlashProfile, abs: nat) returns (r: Result<byte, DeviceError>)
    requires dev.io.Ready() && dev.io.cart.Dmg? && dev.io.out == []
    requires p.family == DmgFamily && Reading(p, dev.io.CoreValue()) && abs / ROM_BANK < 512
    modifies dev.io.Repr()
    ensures dev.io.Ready() && dev.io.inStep == old(dev.io.inStep)
    ensures r.Err? ==> dev.io.Lossy()
    ensures dev.io.link.Reached(old(dev.io.asked), PollReads(p, abs), r.Ok?, dev.io.asked)
    ensures r.Ok? ==>
      && dev.io.out == []
      && Reading(p, dev.io.CoreValue())
      && Polled(old(dev.io.SlotValue()), dev.io.SlotValue(), abs, r.value, 1)
  {
    hide SimGbxCart.Ready, SimGbxCart.Repr, SimGbxCart.CartRepr, SwitchableBank, RomRead, Fits, Link.Reached;
    ghost var link, from := dev.io.link, dev.io.asked;
    var (bank, bus) := DmgWindow(abs);
    FitsUnlock(p, dev.io.SlotValue());
    ReachedNothing(link, from);
    if bank > 0 {
      var a := SelectDmgBank(dev, p, bank);
      ReachedOn(link, from, 0, from, 2, PollReads(p, abs), a.Ok?, dev.io.asked);
      if a.Err? {
        return Err(a.error);
      }
    }
    ghost var mid := dev.io.asked;
    ghost var s := dev.io.SlotValue();
    FitsUnlock(p, s);
    assert RomAddress(s.dmg, bus) == abs by {
      FixedBankZero(s.dmg);
    }
    ByteRead(dev.io.CoreValue(), bus as u32);
    assert Parts(1, 1) == 1;
    var b := dev.ReadDmgRomChunk(bus as u32, 1);
    ReachedOn(link, from, PollReads(p, abs) - 4, mid, 4, PollReads(p, abs), b.Ok?, dev.io.asked);
    if b.Err? {
      return Err(b.error);
    }
    assert b.value == [RomByte(s.dmg, abs)];
    PolledByte(s.dmg, bus, abs);
    FitsAfter(p, s, dev.io.SlotValue());
    r := Ok(b.value[0]);
  }

  lemma PolledByte(c: DmgCart, bus: nat, abs: nat)
    requires c.Valid() && c.flash.Some? && !c.flash.value.autoselect && bus < 0x8000
    ensures Polled(DmgSlot(c), DmgSlot(AfterBusRead(c, bus)), abs, RomByte(c, abs), 1)
  {
  }

  lemma FixedBankZero(c: DmgCart)
    requires c.mbc == Mbc5
    ensures FixedBank(c) == 0
  {
  }

  lemma FitsAfter(p: FlashProfile, s: Slot, t: Slot)
    requires Fits(p, s) && t.Valid() && ChipOf(t).Some? && SameKind(s, t)
    requires ChipOf(t).value == ChipOf(s).value.(busyPolls := ChipOf(t).value.busyPolls)
    ensures Fits(p, t)
  {
  }

  /** A poll at `abs` answered `value` and used up at most `reads` busy answers. */
  predicate Polled(s: Slot, t: Slot, abs: nat, value: byte, used: nat) {
    && ChipOf(s).Some? && ChipOf(t).Some? && SameKind(s, t)
    && var c, d := ChipOf(s).value, ChipOf(t).value;
       && c.Valid() && value == Answer(c, abs)
       && d == c.(busyPolls := if c.busyPolls >= used then c.busyPolls - used else 0)
  }

  lemma OneAgbOpcode(c: Core)
    requires c.Valid() && c.TransferSize() == 2 && !Stalled(c)
    ensures Exec(c, [CMD_AGB_CART_READ]) == AgbWord(c)
    ensures Opcodes(c, CMD_AGB_CART_READ, 1) == AgbWord(c)
  {
    hide AgbWord;
    assert AgbStream(c, 0) == (c, []);
    assert AgbStream(c, 1) == (AgbWord(c).0, [] + AgbWord(c).1);
    assert [] + AgbWord(c).1 == AgbWord(c).1;
    assert Opcodes(c, CMD_AGB_CART_READ, 0) == (c, []);
    assert Exec(c, [CMD_AGB_CART_READ]) == AgbWord(c);
    assert Opcodes(c, CMD_AGB_CART_READ, 1) == (AgbWord(c).0, [] + AgbWord(c).1);
  }

  /** A two-byte read of a GBA flash cart: the first byte is the poll, both use up busy answers. */
  lemma WordPolled(c: Core, abs: nat)
    requires c.Valid() && c.AgbLive() && c.slot.AgbSlot? && c.slot.agb.flash.Some?
    requires !c.slot.agb.flash.value.autoselect && c.address * 2 == abs
    ensures var (c1, s) := AgbWord(c);
            && |s| == 2 && Polled(c.slot, c1.slot, abs, s[0], 2) && c1.AgbLive()
            && c1.bufferFill == c.bufferFill
  {
  }

  /** Read one word at an absolute flash address. */
  method PollAgb(dev: GbxCart, ghost p: FlashProfile, abs: nat) returns (r: Result<byte, DeviceError>)
    requires dev.io.Ready() && dev.io.cart.Agb? && dev.io.out == []
    requires p.family == AgbFamily && Reading(p, dev.io.CoreValue()) && abs % 2 == 0 && abs < 0x1_0000_0000
    modifies dev.io.Repr()
    ensures dev.io.Ready() && dev.io.inStep == old(dev.io.inStep)
    ensures r.Err? ==> dev.io.Lossy()
    ensures dev.io.link.Reached(old(dev.io.asked), PollReads(p, abs), r.Ok?, dev.io.asked)
    ensures r.Ok? ==>
      && dev.io.out == []
      && Reading(p, dev.io.CoreValue())
      && Polled(old(dev.io.SlotValue()), dev.io.SlotValue(), abs, r.value, 2)
  {
    hide SimGbxCart.Ready, SimGbxCart.Repr, SimGbxCart.CartRepr, Fits, AgbWord, Exec, Opcodes, Link.Reached;
    ghost var s := dev.io.SlotValue();
    FitsUnlock(p, s);
    ghost var c := Aimed(dev.io.CoreValue(), 2, (abs / 2) as u32);
    assert Parts(2, 2) == 1;
    OneAgbOpcode(c);
    WordPolled(c, abs);
    var b := dev.ReadAt(CMD_AGB_CART_READ, (abs / 2) as u32, 2, 2);
    if b.Err? {
      return Err(b.error);
    }
    FitsAfter(p, s, dev.io.SlotValue());
    r := Ok(b.value[0]);
  }

  /** How many polls it takes a chip with `busy` busy answers to read as erased. */
  function Polls(p: FlashProfile, busy: nat): nat {
    if p.family == DmgFamily then busy + 1 else (busy + 1) / 2 + 1
  }

  /** One more of `n` steps that ask for `each` answers. */
  lemma Repeated(link: Link, from: nat, k: nat, each: nat, mid: nat, n: nat, ok: bool, asked: nat)
    requires link.Reached(from, k * each, true, mid) && link.Reached(mid, each, ok, asked) && k < n
    ensures link.Reached(from, (if ok then k + 1 else n) * each, ok, asked)
  {
    hide Link.Reached;
    assert (k + 1) * each == k * each + each;
    Multiple(n - k, each);
    assert n * each == k * each + (n - k) * each;
    ReachedOn(link, from, k * each, mid, each, n * each, ok, asked);
  }

  /** Poll `abs` until it reads erased, giving up after `patience` busy answers. */
  method PollUntilErased(dev: GbxCart, p: FlashProfile, abs: nat, patience: nat)
    returns (r: Result<(), DeviceError>)
    requires dev.io.Ready() && dev.io.out == []
    requires Reading(p, dev.io.CoreValue())
    requires abs % 2 == 0 && abs < 0x1_0000_0000 && (p.family == DmgFamily ==> abs / ROM_BANK < 512)
    requires var chip := ChipOf(dev.io.SlotValue()).value;
             chip.busyPolls <= 2 && (abs < |chip.data| ==> chip.data[abs] == ERASED)
    modifies dev.io.Repr()
    ensures dev.io.Ready() && dev.io.inStep == old(dev.io.inStep)
    ensures r.Err? ==> dev.io.Lossy() || patience < 2
    ensures patience >= 2 ==>
      var busy := ChipOf(old(dev.io.SlotValue())).value.busyPolls;
      dev.io.link.Reached(old(dev.io.asked), Polls(p, busy) * PollReads(p, abs), r.Ok?, dev.io.asked)
    ensures r.Ok? ==>
      && dev.io.out == []
      && Reading(p, dev.io.CoreValue()) && SameKind(old(dev.io.SlotValue()), dev.io.SlotValue())
      && ChipOf(dev.io.SlotValue()) == Some(ChipOf(old(dev.io.SlotValue())).value.(busyPolls := 0))
  {
    hide SimGbxCart.Ready, SimGbxCart.Repr, SimGbxCart.CartRepr, PollReads, Link.Reached;
    ghost var s := dev.io.SlotValue();
    ghost var link, from, n := dev.io.link, dev.io.asked, Polls(p, ChipOf(s).value.busyPolls);
    ghost var each := PollReads(p, abs);
    ReachedNothing(link, from);
    var polls := 0;
    while true
      invariant dev.io.Ready() && dev.io.inStep == old(dev.io.inStep) && dev.io.out == []
      invariant polls + Polls(p, ChipOf(dev.io.SlotValue()).value.busyPolls) == n
      invariant link.Reached(from, polls * each, true, dev.io.asked)
      invariant Reading(p, dev.io.CoreValue()) && SameKind(s, dev.io.SlotValue())
      invariant ChipOf(dev.io.SlotValue())
             == Some(ChipOf(s).value.(busyPolls := ChipOf(dev.io.SlotValue()).value.busyPolls))
      invariant polls + ChipOf(dev.io.SlotValue()).value.busyPolls <= 2
      decreases ChipOf(dev.io.SlotValue()).value.busyPolls
    {
      ghost var mid := dev.io.asked;
      var b;
      if p.family == DmgFamily {
        b := PollDmg(dev, p, abs);
      } else {
        b := PollAgb(dev, p, abs);
      }
      Repeated(link, from, polls, each, mid, n, b.Ok?, dev.io.asked);
      if b.Err? {
        return Err(b.error);
      }
      if b.value == ERASED {
        return Ok(());
      }
      polls := polls + 1;
      if polls > patience {
        return Err(ProtocolError);
      }
    }
  }

  // --- Erasing ------------------------------------------------------------------------

  /** Where the erased range ends: whole sectors that cover `len` bytes, or the whole chip. */
  function ErasedEnd(p: FlashProfile, len: nat, size: nat): nat {
    if p.sectorSize == 0 then size else Parts(len, p.sectorSize) * p.sectorSize
  }

  /** The flash contents after erasing enough for `len` bytes. */
  function Erased(p: FlashProfile, data: seq<byte>, len: nat): (r: seq<byte>)
    ensures |r| == |data|
  {
    EraseRange(data, 0, ErasedEnd(p, len, |data|))
  }

  lemma EraseRangeOn(data: seq<byte>, a: nat, b: nat)
    requires a <= b
    ensures EraseRange(EraseRange(data, 0, a), a, b) == EraseRange(data, 0, b)
  {
  }

  lemma {:induction false} PartsStep(len: nat, n: nat, k: nat)
    requires n > 0
    ensures k * n < len ==> Parts(len, n) > k
    ensures k > 0 && (k - 1) * n < len <= k * n ==> Parts(len, n) == k
    ensures len == 0 ==> Parts(len, n) == 0
    decreases k
  {
    if k > 0 && len > n {
      assert k * n - n == (k - 1) * n;
      PartsStep(len - n, n, k - 1);
      if k > 1 {
        assert (k - 1) * n - n == (k - 2) * n;
      } else {
        assert (k - 1) * n == 0 && k * n == n;
      }
    } else if k > 0 {
      Multiple(k, n);
      Multiple(k - 1, n);
    }
  }

  /** An erase that reads back as done, waiting for the chip. */
  predicate Quieted(s: Slot) {
    ChipOf(s).Some? && ChipOf(s).value.busyPolls == 0
  }

  /** Make the sector at `k` sector sizes reachable and send its erase. */
  method SendSectorErase(dev: GbxCart, p: FlashProfile, ghost k: nat, abs: nat) returns (r: Result<(), DeviceError>)
    requires dev.io.Ready() && dev.io.out == [] && Reading(p, dev.io.CoreValue())
    requires abs == k * p.sectorSize && p.sectorSize > 0 && p.sectorSize % 2 == 0
    requires abs < 0x1_0000_0000 && (p.family == DmgFamily ==> abs / ROM_BANK < 512)
    requires abs <= |ChipOf(dev.io.SlotValue()).value.data|
    modifies dev.io.Repr()
    ensures dev.io.Ready() && dev.io.inStep == old(dev.io.inStep)
    ensures r.Err? ==> dev.io.Lossy()
    ensures dev.io.link.Reached(old(dev.io.asked), Lead(p) + 1, r.Ok?, dev.io.asked)
    ensures r.Ok? ==>
      && dev.io.out == [] && abs % 2 == 0
      && Reading(p, dev.io.CoreValue()) && SameKind(old(dev.io.SlotValue()), dev.io.SlotValue())
      && ChipOf(dev.io.SlotValue())
           == Some(ErasedChip(ChipOf(old(dev.io.SlotValue())).value, abs, abs + p.sectorSize))
  {
    hide SimGbxCart.Ready, SimGbxCart.Repr, SimGbxCart.CartRepr, FlashWrites, Reading, EraseRange,
      BankReady, DmgWindow, Crashed, EraseWrites, SectorAddress, SameKind, Link.Reached;
    ghost var link, from, lead := dev.io.link, dev.io.asked, Lead(p);
    ReachedNothing(link, from);
    r := SelectSector(dev, p, abs);
    ReachedOn(link, from, 0, from, lead, lead + 1, r.Ok?, dev.io.asked);
    if r.Err? {
      return;
    }
    ghost var mid := dev.io.asked;
    SectorErased(p, dev.io.CoreValue(), old(dev.io.SlotValue()), k);
    r := dev.FlashCmd(EraseWrites(p, (SectorAddress(p.family, abs) as u32, 0x30)));
    ReachedOn(link, from, lead, mid, 1, lead + 1, r.Ok?, dev.io.asked);
  }

  /** Erase the sector at `k` sector sizes and wait for it. */
  method EraseSector(dev: GbxCart, p: FlashProfile, ghost k: nat, abs: nat, patience: nat)
    returns (r: Result<(), DeviceError>)
    requires dev.io.Ready() && dev.io.out == []
    requires Reading(p, dev.io.CoreValue()) && Quieted(dev.io.SlotValue())
    requires abs == k * p.sectorSize && p.sectorSize > 0 && p.sectorSize % 2 == 0
    requires abs < 0x1_0000_0000 && (p.family == DmgFamily ==> abs / ROM_BANK < 512)
    requires abs <= |ChipOf(dev.io.SlotValue()).value.data|
    modifies dev.io.Repr()
    ensures dev.io.Ready() && dev.io.inStep == old(dev.io.inStep)
    ensures r.Err? ==> dev.io.Lossy() || patience < 2
    ensures patience >= 2 ==> dev.io.link.Reached(old(dev.io.asked), SectorReads(p, abs), r.Ok?, dev.io.asked)
    ensures r.Ok? ==>
      && dev.io.out == []
      && Reading(p, dev.io.CoreValue()) && Quieted(dev.io.SlotValue())
      && SameKind(old(dev.io.SlotValue()), dev.io.SlotValue())
      && ChipOf(dev.io.SlotValue()).value.data
           == EraseRange(ChipOf(old(dev.io.SlotValue())).value.data, abs, abs + p.sectorSize)
  {
    hide SimGbxCart.Ready, SimGbxCart.Repr, SimGbxCart.CartRepr, Reading, PollReads, Polls, EraseRange, SameKind,
      Link.Reached;
    ghost var link, from, total, lead := dev.io.link, dev.io.asked, SectorReads(p, abs), Lead(p);
    ReachedNothing(link, from);
    r := SendSectorErase(dev, p, k, abs);
    ghost var before := dev.io.SlotValue();
    ReachedOn(link, from, 0, from, lead + 1, total, r.Ok?, dev.io.asked);
    if r.Err? {
      return;
    }
    ghost var mid := dev.io.asked;
    r := PollUntilErased(dev, p, abs, patience);
    SameKindOn(old(dev.io.SlotValue()), before, dev.io.SlotValue());
    if patience >= 2 {
      ReachedOn(link, from, lead + 1, mid, Polls(p, 2) * PollReads(p, abs), total, r.Ok?, dev.io.asked);
    }
  }

  /** A device whose sector erase has been sent, waiting for the chip. */
  lemma SectorErased(p: FlashProfile, c: Core, s: Slot, k: nat)
    requires Reading(p, c) && p.sectorSize > 0 && p.sectorSize % 2 == 0 && BankReady(c.slot, k * p.sectorSize)
    requires SameKind(s, c.slot) && ChipOf(s) == ChipOf(c.slot) && k * p.sectorSize <= |ChipOf(s).value.data|
    requires SectorAddress(p.family, k * p.sectorSize) < 0x1_0000_0000
    ensures var abs := k * p.sectorSize;
            var slot := FlashWrites(c.slot, EraseWrites(p, (SectorAddress(p.family, abs) as u32, 0x30)));
            && Reading(p, c.(slot := slot)) && !Crashed(slot) && SameKind(s, slot)
            && ChipOf(slot) == Some(ErasedChip(ChipOf(s).value, abs, abs + p.sectorSize)) && abs % 2 == 0
  {
    hide FlashWrites, EraseWrites, BankReady, Crashed, Fits, EraseRange, SectorAddress;
    var abs := k * p.sectorSize;
    SectorErase(p, c.slot, k);
    FitsErased(p, c.slot, FlashWrites(c.slot, EraseWrites(p, (SectorAddress(p.family, abs) as u32, 0x30))), abs,
      abs + p.sectorSize);
    EvenProduct(k, p.sectorSize);
  }

  lemma SameKindOn(s: Slot, t: Slot, u: Slot)
    requires SameKind(s, t)
    ensures SameKind(t, u) ==> SameKind(s, u)
  {
  }

  /** How many answers making a sector reachable asks for. */
  function Lead(p: FlashProfile): nat {
    if p.family == DmgFamily then 2 else 0
  }

  /** Make the sector at `abs` reachable. */
  method SelectSector(dev: GbxCart, p: FlashProfile, abs: nat) returns (r: Result<(), DeviceError>)
    requires dev.io.Ready() && dev.io.out == [] && Reading(p, dev.io.CoreValue())
    requires abs < 0x1_0000_0000 && (p.family == DmgFamily ==> abs / ROM_BANK < 512)
    modifies dev.io.Repr()
    ensures dev.io.Ready() && dev.io.inStep == old(dev.io.inStep)
    ensures r.Err? ==> dev.io.Lossy()
    ensures dev.io.link.Reached(old(dev.io.asked), Lead(p), r.Ok?, dev.io.asked)
    ensures r.Ok? ==>
      && dev.io.out == [] && Reading(p, dev.io.CoreValue()) && SameKind(old(dev.io.SlotValue()), dev.io.SlotValue())
      && ChipOf(dev.io.SlotValue()) == ChipOf(old(dev.io.SlotValue()))
      && BankReady(dev.io.SlotValue(), abs) && SectorAddress(p.family, abs) < 0x1_0000_0000
  {
    hide SimGbxCart.Ready, SimGbxCart.Repr, SimGbxCart.CartRepr, Fits, SwitchableBank, Link.Reached;
    FitsUnlock(p, dev.io.SlotValue());
    SameKindSelf(dev.io.SlotValue());
    ReachedNothing(dev.io.link, dev.io.asked);
    r := Ok(());
    if p.family == DmgFamily {
      r := SelectDmgBank(dev, p, DmgWindow(abs).0);
      if r.Err? {
        return;
      }
    }
    FitsUnlock(p, dev.io.SlotValue());
    SectorReady(p, dev.io.SlotValue(), abs);
  }

  /** How many answers erasing the sector at `abs` asks for. */
  function SectorReads(p: FlashProfile, abs: nat): nat {
    Lead(p) + 1 + Polls(p, 2) * PollReads(p, abs)
  }

  /** The same for the first `k` sectors. */
  function SectorsReads(p: FlashProfile, k: nat): nat {
    if k == 0 then 0 else SectorsReads(p, k - 1) + SectorReads(p, (k - 1) * p.sectorSize)
  }

  lemma {:induction false} SectorsReadsRise(p: FlashProfile, k: nat, n: nat)
    requires k <= n
    ensures SectorsReads(p, k) <= SectorsReads(p, n)
    decreases n
  {
    hide SectorReads;
    if k < n {
      SectorsReadsRise(p, k, n - 1);
    }
  }

  /** How many answers erasing enough flash for `len` bytes asks for. */
  function EraseReads(p: FlashProfile, len: nat): nat {
    if p.sectorSize == 0 then 1 + Polls(p, 2) * PollReads(p, 0) else SectorsReads(p, Parts(len, p.sectorSize))
  }

  lemma SectorReady(p: FlashProfile, s: Slot, abs: nat)
    requires Fits(p, s) && (p.family == DmgFamily ==> SwitchableBank(s.dmg) == abs / ROM_BANK)
    requires abs < 0x1_0000_0000
    ensures BankReady(s, abs) && SectorAddress(p.family, abs) < 0x1_0000_0000
  {
  }

  lemma FitsErased(p: FlashProfile, s: Slot, t: Slot, base: nat, end: nat)
    requires Fits(p, s) && t.Valid() && SameKind(s, t)
    requires ChipOf(t) == Some(ErasedChip(ChipOf(s).value, base, end))
    ensures Fits(p, t)
  {
  }

  method EraseChip(dev: GbxCart, p: FlashProfile, patience: nat) returns (r: Result<(), DeviceError>)
    requires dev.io.Ready() && dev.io.out == []
    requires Reading(p, dev.io.CoreValue())
    modifies dev.io.Repr()
    ensures dev.io.Ready() && dev.io.inStep == old(dev.io.inStep)
    ensures r.Err? ==> dev.io.Lossy() || patience < 2
    ensures patience >= 2 ==>
      dev.io.link.Reached(old(dev.io.asked), 1 + Polls(p, 2) * PollReads(p, 0), r.Ok?, dev.io.asked)
    ensures r.Ok? ==>
      && dev.io.out == []
      && Reading(p, dev.io.CoreValue()) && Quieted(dev.io.SlotValue())
      && SameKind(old(dev.io.SlotValue()), dev.io.SlotValue())
      && var data := ChipOf(old(dev.io.SlotValue())).value.data;
         ChipOf(dev.io.SlotValue()).value.data == EraseRange(data, 0, |data|)
  {
    hide SimGbxCart.Ready, SimGbxCart.Repr, SimGbxCart.CartRepr, FlashWrites, Fits, PollReads, Link.Reached;
    ghost var link, from, polls := dev.io.link, dev.io.asked, Polls(p, 2) * PollReads(p, 0);
    ghost var s := dev.io.SlotValue();
    FitsUnlock(p, s);
    ChipErase(p, s);
    ReachedNothing(link, from);
    r := dev.FlashCmd(EraseWrites(p, (p.unlock1, 0x10)));
    ReachedOn(link, from, 0, from, 1, 1 + polls, r.Ok?, dev.io.asked);
    if r.Err? {
      return;
    }
    ghost var mid := dev.io.asked;
    FitsChipErased(p, s, dev.io.SlotValue());
    r := PollUntilErased(dev, p, 0, patience);
    if patience >= 2 {
      ReachedOn(link, from, 1, mid, polls, 1 + polls, r.Ok?, dev.io.asked);
    }
  }

  lemma FitsChipErased(p: FlashProfile, s: Slot, t: Slot)
    requires Fits(p, s) && t.Valid() && SameKind(s, t)
    requires var chip := ChipOf(s).value;
             ChipOf(t) == Some(chip.(data := EraseRange(chip.data, 0, |chip.data|), chipErased := true, busyPolls := 2))
    ensures Fits(p, t)
  {
  }

  /** Erase enough flash to hold `len` bytes. */
  method EraseFlash(dev: GbxCart, p: FlashProfile, len: nat, patience: nat) returns (r: Result<(), DeviceError>)
    requires dev.io.Ready() && dev.io.out == []
    requires Reading(p, dev.io.CoreValue()) && Quieted(dev.io.SlotValue())
    requires p.sectorSize % 2 == 0 && len < 0x1_0000_0000 && (p.family == DmgFamily ==> len <= 512 * ROM_BANK)
    requires len <= |ChipOf(dev.io.SlotValue()).value.data|
    modifies dev.io.Repr()
    ensures dev.io.Ready() && dev.io.inStep == old(dev.io.inStep)
    ensures r.Err? ==> dev.io.Lossy() || patience < 2
    ensures patience >= 2 ==> dev.io.link.Reached(old(dev.io.asked), EraseReads(p, len), r.Ok?, dev.io.asked)
    ensures r.Ok? ==>
      && dev.io.out == []
      && Reading(p, dev.io.CoreValue()) && Quieted(dev.io.SlotValue())
      && SameKind(old(dev.io.SlotValue()), dev.io.SlotValue())
      && ChipOf(dev.io.SlotValue()).value.data == Erased(p, ChipOf(old(dev.io.SlotValue())).value.data, len)
  {
    hide SimGbxCart.Ready, SimGbxCart.Repr, SimGbxCart.CartRepr, Reading, EraseRange, SectorReads,
      Parts, Link.Reached;
    ghost var link, from, total := dev.io.link, dev.io.asked, EraseReads(p, len);
    ReachedNothing(link, from);
    ghost var s := dev.io.SlotValue();
    ghost var data := ChipOf(s).value.data;
    if p.sectorSize == 0 {
      r := EraseChip(dev, p, patience);
      return;
    }
    r := Ok(());
    var abs := 0;
    ghost var k := 0;
    assert EraseRange(data, 0, 0) == data by {
      NothingErased(data);
    }
    SameKindSelf(s);
    while abs < len
      invariant abs == k * p.sectorSize && r.Ok? && (k > 0 ==> (k - 1) * p.sectorSize < len)
      invariant dev.io.Ready() && dev.io.inStep == old(dev.io.inStep) && dev.io.out == []
      invariant patience >= 2 ==> link.Reached(from, SectorsReads(p, k), true, dev.io.asked)
      invariant Reading(p, dev.io.CoreValue()) && Quieted(dev.io.SlotValue())
      invariant SameKind(s, dev.io.SlotValue())
      invariant ChipOf(dev.io.SlotValue()).value.data == EraseRange(data, 0, abs)
    {
      ghost var mid := dev.io.asked;
      PartsStep(len, p.sectorSize, k);
      SectorsReadsRise(p, k + 1, Parts(len, p.sectorSize));
      r := EraseSector(dev, p, k, abs, patience);
      if patience >= 2 {
        ReachedOn(link, from, SectorsReads(p, k), mid, SectorReads(p, abs), total, r.Ok?, dev.io.asked);
      }
      if r.Err? {
        return;
      }
      EraseRangeOn(data, abs, abs + p.sectorSize);
      assert (k + 1) * p.sectorSize == abs + p.sectorSize;
      abs := abs + p.sectorSize;
      k := k + 1;
    }
    PartsStep(len, p.sectorSize, k);
  }

  lemma NothingErased(data: seq<byte>)
    ensures EraseRange(data, 0, 0) == data
  {
  }

  lemma SameKindSelf(s: Slot)
    ensures SameKind(s, s)
  {
  }
}
