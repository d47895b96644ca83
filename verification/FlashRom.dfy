/**
 Writing a ROM to a flash cart: erase, program, verify. Whatever the chip held before, it ends up
 holding the ROM, 0xFF in the rest of the erased sectors, and its old contents everywhere else.
 */
module FlashRom {
  import opened Arithmetic
  import opened Bytes
  import opened Protocol
  import opened FlashChip
  import opened Cartridges
  import opened GbxCore
  import opened GbxWire
  import opened GbxLink
  import opened GbxStreams
  import opened SimGbx
  import opened GbxDriver
  import opened DmgDump
  import opened FlashErase
  import opened FlashProgram

  /** `n` rounded up to a multiple of `g`. */
  function RoundUp(n: nat, g: nat): nat
    requires g > 0
  {
    Parts(n, g) * g
  }

  /** The ROM filled up with 0xFF to whole groups. */
  function Padded(rom: seq<byte>, g: nat): (s: seq<byte>)
    requires g > 0
    ensures |s| == RoundUp(|rom|, g) && |s| % g == 0 && rom <= s
    ensures forall i :: |rom| <= i < |s| ==> s[i] == ERASED
  {
    PartsCover(|rom|, g);
    MulMod(Parts(|rom|, g), g);
    rom + seq(RoundUp(|rom|, g) - |rom|, _ => ERASED)
  }

  /** A profile whose sizes go together, for a chip at least as large as it says. */
  predicate Sound(p: FlashProfile) {
    && WholeChunks(p) && p.sectorSize % GroupSize(p) == 0 && p.maxSize % GroupSize(p) == 0
    && p.maxSize < 0x1_0000_0000
    && (p.family == DmgFamily ==> ROM_BANK % GroupSize(p) == 0 && p.maxSize <= 512 * ROM_BANK)
  }

  /** The AMD entries of the profile table. */
  function AmdProfiles(): seq<FlashProfile> {
    var k := 1024;
    [
      FlashProfile(DmgFamily, Unbuffered, 1, 0x555, 0x2AA, 2048 * k, 64 * k),
      FlashProfile(DmgFamily, Unbuffered, 1, 0x555, 0x2AA, 4096 * k, 64 * k),
      FlashProfile(DmgFamily, Unbuffered, 1, 0x5555, 0x2AAA, 512 * k, 4 * k),
      FlashProfile(DmgFamily, Unbuffered, 1, 0xAAA, 0x555, 4096 * k, 64 * k),
      FlashProfile(DmgFamily, Unbuffered, 1, 0xAAA, 0x555, 2048 * k, 0),
      FlashProfile(AgbFamily, Buffered(0x400), 1, 0x555, 0x2AA, 32768 * k, 128 * k)
    ]
  }

  lemma ProfilesSound()
    ensures forall i :: 0 <= i < |AmdProfiles()| ==> Sound(AmdProfiles()[i])
  {
    var t := AmdProfiles();
    assert forall i :: 0 <= i < |t| && i < 5 ==> GroupSize(t[i]) == 0x100;
  }

  /** What the chip holds after a successful write. */
  function FlashResult(p: FlashProfile, before: seq<byte>, rom: seq<byte>): seq<byte> {
    Spliced(Erased(p, before, |rom|), 0, Padded(rom, GroupSize(p)))
  }

  lemma {:induction false} RoundUpTo(n: nat, g: nat, k: nat)
    requires g > 0 && n <= k * g
    ensures RoundUp(n, g) <= k * g
    decreases k
  {
    if n > g {
      assert k * g - g == (k - 1) * g;
      MulSign(k, g);
      RoundUpTo(n - g, g, k - 1);
      assert Parts(n, g) * g == g + Parts(n - g, g) * g;
    } else if n > 0 {
      MulSign(k, g);
      Multiple(k, g);
    }
  }

  /** The padding never leaves the erased range, nor the chip. */
  lemma PaddingFits(p: FlashProfile, rom: seq<byte>, size: nat)
    requires Sound(p) && |rom| <= p.maxSize <= size
    ensures |Padded(rom, GroupSize(p))| <= p.maxSize
    ensures |Padded(rom, GroupSize(p))| <= ErasedEnd(p, |rom|, size)
  {
    var g := GroupSize(p);
    var k := p.maxSize / g;
    assert p.maxSize == k * g;
    RoundUpTo(|rom|, g, k);
    if p.sectorSize > 0 {
      var parts := Parts(|rom|, p.sectorSize);
      PartsCover(|rom|, p.sectorSize);
      var m := p.sectorSize / g;
      assert p.sectorSize == m * g;
      assert parts * p.sectorSize == (parts * m) * g by {
        MulAssoc(parts, m, g);
      }
      RoundUpTo(|rom|, g, parts * m);
    }
  }

  /**
   Flash write correctness, cell by cell: the ROM, then erased flash up to the end of the erased
   range, then what was there before.
   */
  lemma FlashResultAt(p: FlashProfile, before: seq<byte>, rom: seq<byte>, i: nat)
    requires Sound(p) && |rom| <= p.maxSize <= |before| && i < |before|
    ensures |FlashResult(p, before, rom)| == |before|
    ensures FlashResult(p, before, rom)[i]
         == if i < |rom| then rom[i]
            else if i < ErasedEnd(p, |rom|, |before|) then ERASED
            else before[i]
  {
    PaddingFits(p, rom, |before|);
    var padded := Padded(rom, GroupSize(p));
    assert i < |rom| ==> padded[i] == rom[i];
  }

  // --- The flow -----------------------------------------------------------------------

  /** Set up the firmware's programming engine; programming starts with no group open. */
  method ConfigureProgram(dev: GbxCart, p: FlashProfile) returns (r: Result<(), DeviceError>)
    requires dev.io.Ready() && dev.io.out == [] && Reading(p, dev.io.CoreValue()) && Quieted(dev.io.SlotValue())
    requires WholeChunks(p)
    modifies dev.io.Repr()
    ensures dev.io.Ready() && dev.io.inStep == old(dev.io.inStep)
    ensures dev.io.link.Reached(old(dev.io.asked), ConfigReads(p), r.Ok?, dev.io.asked)
    ensures r.Ok? ==>
      && dev.io.out == []
      && Programming(p, dev.io.CoreValue()) && dev.io.SlotValue() == old(dev.io.SlotValue())
  {
    hide SimGbxCart.Ready, SimGbxCart.Repr, SimGbxCart.CartRepr, Fits, Link.Reached;
    ghost var link, from, total := dev.io.link, dev.io.asked, ConfigReads(p);
    NoGroupOpen(dev.io);
    ReachedNothing(link, from);
    var slots := [(p.unlock1, 0xAA as byte), (p.unlock2, 0x55), (p.unlock1, 0xA0)];
    var frame := SetFlashCmdFrame(CMD_SET_AMD, MethodCode(p), p.wePin, slots);
    ConfigFrame(dev.io.CoreValue(), p, frame, slots);
    r := dev.CmdAck(frame);
    ReachedOn(link, from, 0, from, 1, total, r.Ok?, dev.io.asked);
    if r.Err? {
      return;
    }
    ghost var mid := dev.io.asked;
    if p.programming.Buffered? {
      r := dev.SetVariable(VAR_BUFFER_SIZE, p.programming.size as u32);
      ReachedOn(link, from, 1, mid, 1, total, r.Ok?, dev.io.asked);
      if r.Err? {
        return;
      }
      mid := dev.io.asked;
    }
    r := dev.SetVariable(VAR_TRANSFER_SIZE, PROGRAM_CHUNK as u32);
    ReachedOn(link, from, total - 1, mid, 1, total, r.Ok?, dev.io.asked);
  }

  function ConfigReads(p: FlashProfile): nat {
    if p.programming.Buffered? then 3 else 2
  }

  /** A device between commands has no buffered group open. */
  lemma NoGroupOpen(io: SimGbxCart)
    requires io.Ready()
    ensures io.bufferFill == 0
  {
  }

  /** The device reads the slots out of the frame again. */
  lemma ConfigFrame(c: Core, p: FlashProfile, frame: seq<byte>, slots: seq<(u32, byte)>)
    requires c.Valid() && slots == [(p.unlock1, 0xAA), (p.unlock2, 0x55), (p.unlock1, 0xA0)]
    requires frame == SetFlashCmdFrame(CMD_SET_AMD, MethodCode(p), p.wePin, slots)
    ensures frame[0] == CMD_SET_FLASH_CMD
    ensures Exec(c, frame).1 == [ACK_OK]
    ensures var cfg := Exec(c, frame).0.flashCfg;
            && Exec(c, frame).0 == c.(flashCfg := cfg) && cfg.Some? && Unlocks(p, cfg.value.cmds)
            && cfg.value.cmdSet == CMD_SET_AMD && cfg.value.programMethod == MethodCode(p) && cfg.value.wePin == p.wePin
  {
    hide ParsePairs, FlashCmdPairs;
    assert forall i :: 0 <= i < 4 ==> frame[i] == frame[..4][i];
    SlotsParsed(CMD_SET_AMD, MethodCode(p), p.wePin, slots);
    assert slots + seq(3, _ => (0 as u32, 0 as byte))
        == [(p.unlock1, 0xAA), (p.unlock2, 0x55), (p.unlock1, 0xA0), (0, 0), (0, 0), (0, 0)];
  }

  /** Select one DMG bank and program it. */
  method ProgramBank(dev: GbxCart, p: FlashProfile, bank: nat, data: seq<byte>) returns (r: Result<(), DeviceError>)
    requires dev.io.Ready() && dev.io.out == [] && Programming(p, dev.io.CoreValue()) && dev.io.cart.Dmg?
    requires Sound(p) && p.family == DmgFamily && |data| % GroupSize(p) == 0 && |data| <= ROM_BANK && bank < 512
    requires ErasedIn(ChipOf(dev.io.SlotValue()).value.data, bank * ROM_BANK, bank * ROM_BANK + |data|)
    modifies dev.io.Repr()
    ensures dev.io.inStep == old(dev.io.inStep)
    ensures Halted(dev.io, old(dev.io.asked), BankMids(p, data), r.Ok?)
    ensures r.Ok? ==>
      && dev.io.Ready() && dev.io.out == []
      && Programming(p, dev.io.CoreValue())
      && ChipOf(dev.io.SlotValue()).value.data
           == Spliced(ChipOf(old(dev.io.SlotValue())).value.data, bank * ROM_BANK, data)
  {
    hide SimGbxCart.Ready, SimGbxCart.Repr, SimGbxCart.CartRepr, Fits, Spliced, SwitchableBank, SameBanks,
      Link.Reached, Halted, RunMids;
    ghost var from, all := dev.io.asked, BankMids(p, data);
    ReachedNothing(dev.io.link, from);
    r := SelectDmgBank(dev, p, bank);
    HaltedPlain(dev.io, from, 2, r.Ok?);
    HaltedOn(dev.io, from, [], from, Plain(2), all, r.Ok?);
    if r.Err? {
      return;
    }
    ghost var mid := dev.io.asked;
    r := ProgramRun(dev, p, bank * ROM_BANK, data);
    HaltedOn(dev.io, from, Plain(2), mid, RunMids(p, data, |data| / GroupSize(p)).0, all, r.Ok?);
    if r.Ok? {
      HaltedDone(dev.io, from, all);
    }
  }

  /** The answers to selecting a bank and programming it. */
  function BankMids(p: FlashProfile, data: seq<byte>): seq<bool> {
    Plain(2) + RunMids(p, data, |data| / GroupSize(p)).0
  }

  /** Bank `k` of the data, whole or what is left. */
  function BankPart(data: seq<byte>, k: nat): seq<byte> {
    if k * ROM_BANK <= |data| then data[k * ROM_BANK..Smaller(k * ROM_BANK + ROM_BANK, |data|)] else []
  }

  /** The answers to programming the first `k` banks. */
  function DmgMids(p: FlashProfile, data: seq<byte>, k: nat): seq<bool> {
    if k == 0 then [] else DmgMids(p, data, k - 1) + BankMids(p, BankPart(data, k - 1))
  }

  lemma {:induction false} DmgMidsRise(p: FlashProfile, data: seq<byte>, k: nat, n: nat)
    requires k <= n
    ensures DmgMids(p, data, k) <= DmgMids(p, data, n)
    decreases n
  {
    hide BankMids, BankPart;
    if k < n {
      DmgMidsRise(p, data, k, n - 1);
    }
  }

  /** Program every bank of a DMG flash cart through its window. */
  method ProgramDmg(dev: GbxCart, p: FlashProfile, data: seq<byte>) returns (r: Result<(), DeviceError>)
    requires dev.io.Ready() && dev.io.out == [] && Programming(p, dev.io.CoreValue()) && dev.io.cart.Dmg?
    requires Sound(p) && p.family == DmgFamily && |data| % GroupSize(p) == 0 && |data| <= 512 * ROM_BANK
    requires ErasedIn(ChipOf(dev.io.SlotValue()).value.data, 0, |data|)
    modifies dev.io.Repr()
    ensures dev.io.inStep == old(dev.io.inStep)
    ensures Halted(dev.io, old(dev.io.asked), DmgMids(p, data, Parts(|data|, ROM_BANK)), r.Ok?)
    ensures r.Ok? ==>
      && dev.io.Ready() && dev.io.out == []
      && Programming(p, dev.io.CoreValue())
      && ChipOf(dev.io.SlotValue()).value.data == Spliced(ChipOf(old(dev.io.SlotValue())).value.data, 0, data)
  {
    hide SimGbxCart.Ready, SimGbxCart.Repr, SimGbxCart.CartRepr, Programming, Spliced, Sound, ErasedIn, GroupSize,
      BankDone, BankPart, Link.Reached, Halted, BankMids, DmgMids, Parts;
    HasChip(p, dev.io.CoreValue());
    ghost var from, all := dev.io.asked, DmgMids(p, data, Parts(|data|, ROM_BANK));
    ReachedNothing(dev.io.link, from);
    ghost var flash := ChipOf(dev.io.SlotValue()).value.data;
    r := Ok(());
    var bank := 0;
    NoBanks(p, flash, data);
    while bank * ROM_BANK < |data|
      invariant r.Ok? && (bank > 0 ==> (bank - 1) * ROM_BANK < |data|)
      invariant dev.io.Ready() && dev.io.out == [] && dev.io.inStep == old(dev.io.inStep)
      invariant Programming(p, dev.io.CoreValue()) && ChipOf(dev.io.SlotValue()).Some?
      invariant ChipOf(dev.io.SlotValue()).value.data == Spliced(flash, 0, BankDone(data, bank))
      invariant dev.io.link.Reached(from, |DmgMids(p, data, bank)|, true, dev.io.asked)
      decreases |data| - bank * ROM_BANK
    {
      NextBank(p, flash, data, bank);
      ghost var mid := dev.io.asked;
      r := ProgramBank(dev, p, bank, BankPart(data, bank));
      HaltedOn(dev.io, from, DmgMids(p, data, bank), mid, BankMids(p, BankPart(data, bank)), all, r.Ok?);
      if r.Err? {
        return;
      }
      HasChip(p, dev.io.CoreValue());
      bank := bank + 1;
    }
    AllBanks(p, data, bank);
    HaltedDone(dev.io, from, all);
  }

  /** The first `k` banks of the data. */
  function BankDone(data: seq<byte>, k: nat): seq<byte> {
    data[..Smaller(k * ROM_BANK, |data|)]
  }

  lemma NoBanks(p: FlashProfile, flash: seq<byte>, data: seq<byte>)
    ensures Spliced(flash, 0, BankDone(data, 0)) == flash && DmgMids(p, data, 0) == []
  {
    NothingSpliced(flash, 0);
    assert BankDone(data, 0) == [];
  }

  lemma AllBanks(p: FlashProfile, data: seq<byte>, k: nat)
    requires |data| <= k * ROM_BANK && (k > 0 ==> (k - 1) * ROM_BANK < |data|)
    ensures BankDone(data, k) == data && Parts(|data|, ROM_BANK) == k
  {
    PartsStep(|data|, ROM_BANK, k);
  }

  /** One more bank: it is erased, comes in whole groups and goes right behind the others. */
  lemma NextBank(p: FlashProfile, flash: seq<byte>, data: seq<byte>, bank: nat)
    requires Sound(p) && p.family == DmgFamily && |data| % GroupSize(p) == 0 && |data| <= 512 * ROM_BANK
    requires ErasedIn(flash, 0, |data|) && bank * ROM_BANK < |data|
    ensures var part := BankPart(data, bank);
            var before := Spliced(flash, 0, BankDone(data, bank));
            && bank < 512 && |part| <= ROM_BANK && |part| % GroupSize(p) == 0
            && ErasedIn(before, bank * ROM_BANK, bank * ROM_BANK + |part|)
            && Spliced(before, bank * ROM_BANK, part) == Spliced(flash, 0, BankDone(data, bank + 1))
            && DmgMids(p, data, bank + 1) == DmgMids(p, data, bank) + BankMids(p, part)
            && DmgMids(p, data, bank + 1) <= DmgMids(p, data, Parts(|data|, ROM_BANK))
  {
    hide Sound, GroupSize, Spliced, ErasedIn, BankMids, Parts;
    var base := bank * ROM_BANK;
    var end := Smaller(base + ROM_BANK, |data|);
    BankGroups(p, |data|, base);
    StillErased(flash, data[..base], |data|, base, end);
    PartsStep(|data|, ROM_BANK, bank);
    DmgMidsRise(p, data, bank + 1, Parts(|data|, ROM_BANK));
    SplicedTwice(flash, 0, data[..base], data[base..end]);
    assert data[..base] + data[base..end] == data[..end];
  }

  /** A bank, whole or the last one, is a whole number of groups. */
  lemma BankGroups(p: FlashProfile, len: nat, base: nat)
    requires Sound(p) && p.family == DmgFamily && len % GroupSize(p) == 0 && base % ROM_BANK == 0 && base < len
    ensures (Smaller(base + ROM_BANK, len) - base) % GroupSize(p) == 0
  {
    var g := GroupSize(p);
    var m := ROM_BANK / g;
    var k := base / ROM_BANK;
    assert base == k * (m * g) && ROM_BANK == m * g;
    MulAssoc(k, m, g);
    var a := len / g;
    assert len == a * g;
    assert len - base == (a - k * m) * g;
    MulSign(a - k * m, g);
    MulMod(a - k * m, g);
  }

  lemma StillErased(flash: seq<byte>, done: seq<byte>, len: nat, from: nat, end: nat)
    requires ErasedIn(flash, 0, len) && |done| <= from <= end <= len
    ensures ErasedIn(Spliced(flash, 0, done), from, end)
  {
  }

  // --- Verifying ----------------------------------------------------------------------

  /** The firmware's CRC-32 over the start of the ROM space against the host's over the data. */
  method VerifyCrc(dev: GbxCart, data: seq<byte>) returns (r: Result<(), DeviceError>)
    requires dev.io.Ready() && dev.io.out == [] && |data| < 0x1_0000_0000
    requires dev.io.cart.Agb? && dev.io.CoreValue().AgbLive() && Quiet(dev.io.SlotValue())
    modifies dev.io.Repr()
    ensures dev.io.inStep == old(dev.io.inStep)
    ensures r.Err? ==> dev.io.Lossy() || dev.io.crc(AgbSlice(old(dev.io.CoreValue()), 0, |data|)) != dev.crc(data)
    ensures r.Ok? ==> dev.io.crc(AgbSlice(old(dev.io.CoreValue()), 0, |data|)) == dev.crc(data)
    ensures dev.io.Ready()
    ensures dev.io.SlotValue() == old(dev.io.SlotValue())
    ensures r.Ok? ==> dev.io.out == []
  {
    hide SimGbxCart.Repr, SimGbxCart.CartRepr, AgbSees;
    ghost var c := dev.io.CoreValue();
    r := dev.SetVariable(VAR_ADDRESS, 0);
    if r.Err? {
      return;
    }
    ghost var c1 := dev.io.CoreValue();
    AgbSliceFrame(c, c1, |data|);
    CrcAnswer(dev, |data| as u32);
    var crc := dev.io.ReadExact(4);
    Be32RoundTrip(dev.io.crc(AgbSlice(c, 0, |data|)));
    if crc.Err? {
      return Err(Io);
    }
    assert dev.io.out == [];
    if FromBe32(crc.value) != dev.crc(data) {
      return Err(ProtocolError);
    }
  }

  lemma AgbSliceFrame(c: Core, c1: Core, n: nat)
    requires c.Valid() && c1 == SetVar(c, VAR_ADDRESS, 0)
    ensures AgbSlice(c1, 0, n) == AgbSlice(c, 0, n)
  {
  }

  method CrcAnswer(dev: GbxCart, n: u32)
    requires dev.io.Ready() && dev.io.out == [] && dev.io.CoreValue().address == 0
    requires dev.io.cart.Agb? && dev.io.CoreValue().AgbLive() && Quiet(dev.io.SlotValue())
    modifies dev.io.Repr()
    ensures dev.io.Ready() && dev.io.inStep == old(dev.io.inStep)
    ensures dev.io.CoreValue() == old(dev.io.CoreValue())
    ensures dev.io.out == Be32(dev.io.crc(AgbSlice(old(dev.io.CoreValue()), 0, n as nat)))
  {
    var frame := CalcCrc32Frame(n);
    CrcExec(dev.io.CoreValue(), frame, n);
    FixedFrame(dev.io.Value(), frame);
    dev.io.WriteAll(frame, false);
  }

  lemma CrcExec(c: Core, frame: seq<byte>, n: u32)
    requires c.Valid() && c.AgbLive() && c.slot.AgbSlot? && Quiet(c.slot) && c.address == 0
    requires |frame| == 5 && frame[0] == CMD_CALC_CRC32 && FromBe32(frame[1..5]) == n
    ensures Exec(c, frame) == (c, Be32(c.crc(AgbSlice(c, 0, n as nat))))
  {
    CrcBytesQuiet(c, 0, n as nat);
  }

  /** A chip whose contents start with `data` reads back as `data`. */
  predicate Holds(s: Slot, data: seq<byte>) {
    && ChipOf(s).Some? && Quieted(s) && !ChipOf(s).value.autoselect
    && |data| <= |ChipOf(s).value.data| && ChipOf(s).value.data[..|data|] == data
  }

  lemma AgbReadsBack(c: Core, data: seq<byte>)
    requires c.Valid() && c.AgbLive() && c.slot.AgbSlot? && Holds(c.slot, data)
    ensures AgbSlice(c, 0, |data|) == data && Quiet(c.slot)
  {
    forall i | 0 <= i < |data|
      ensures AgbSlice(c, 0, |data|)[i] == data[i]
    {
      assert ChipOf(c.slot).value.data[..|data|][i] == data[i];
      assert AgbSees(c, i) == data[i];
    }
  }

  lemma DmgReadsBack(c: DmgCart, data: seq<byte>, n: nat)
    requires c.Valid() && Holds(DmgSlot(c), data) && n <= |data|
    ensures RomContents(c, n) == data[..n]
  {
    forall i | 0 <= i < n
      ensures RomContents(c, n)[i] == data[i]
    {
      assert c.flash.value.data[..|data|][i] == data[i];
      assert RomByte(c, i) == data[i];
    }
  }

  /** The read-back of a DMG write covers whole banks, so only these sizes can pass it. */
  predicate Verifiable(family: Family, len: nat) {
    family == DmgFamily ==> len <= ROM_BANK || len % ROM_BANK == 0
  }

  /** A ROM of one bank and one chunk fits the first profile of the table and cannot pass verification. */
  lemma OddSizeFails()
    ensures var p := AmdProfiles()[0];
            && Sound(p) && 0x4100 <= p.maxSize && RoundUp(0x4100, GroupSize(p)) == 0x4100
            && !Verifiable(p.family, 0x4100)
  {
    ProfilesSound();
    PartsExact(0x41, 0x100);
  }

  lemma DumpLengthIs(len: nat)
    ensures DumpLength(len) <= len && (DumpLength(len) == len <==> Verifiable(DmgFamily, len))
  {
  }

  /** Verify what was programmed. */
  method VerifyWrite(dev: GbxCart, p: FlashProfile, data: seq<byte>) returns (r: Result<(), DeviceError>)
    requires dev.io.Ready() && dev.io.out == [] && Reading(p, dev.io.CoreValue()) && Holds(dev.io.SlotValue(), data)
    requires dev.crc == dev.io.crc && |dev.header| >= LOGO_END
    requires |data| < 0x1_0000_0000 && (p.family == DmgFamily ==> 0 < |data| <= 512 * ROM_BANK)
    modifies dev.io.Repr()
    ensures dev.io.Ready() && dev.io.inStep == old(dev.io.inStep)
    ensures r.Ok? || !dev.io.Lossy() ==> ChipOf(dev.io.SlotValue()) == ChipOf(old(dev.io.SlotValue()))
    ensures !dev.io.Lossy() ==> (r.Ok? <==> Verifiable(p.family, |data|))
    ensures r.Ok? ==> Verifiable(p.family, |data|)
  {
    hide SimGbxCart.Ready, SimGbxCart.Repr, SimGbxCart.CartRepr, AgbSlice, RomContents, DumpResult, DumpLength;
    if p.family == AgbFamily {
      AgbReadsBack(dev.io.CoreValue(), data);
      r := VerifyCrc(dev, data);
    } else {
      ghost var c := dev.io.SlotValue().dmg;
      DumpLengthIs(|data|);
      DmgReadsBack(c, data, DumpLength(|data|));
      BanksWithin(|data|);
      DumpResultIsRom(c, KindMbc5, |data|, dev.header);
      var readback := DumpDmgRom(dev, KindMbc5, |data| as u32);
      if readback.Err? {
        return Err(readback.error);
      }
      assert data[..|data|] == data;
      r := if readback.value == data then Ok(()) else Err(ProtocolError);
    }
  }

  lemma BanksWithin(len: nat)
    requires len <= 512 * ROM_BANK
    ensures TotalBanks(len) <= 512
  {
  }

  /** Erase and program: afterwards the chip holds the result whatever it held before. */
  method EraseAndProgram(dev: GbxCart, p: FlashProfile, rom: seq<byte>, patience: nat)
    returns (r: Result<(), DeviceError>)
    requires dev.io.Ready() && dev.io.out == [] && Reading(p, dev.io.CoreValue()) && Quieted(dev.io.SlotValue())
    requires Sound(p) && |rom| <= p.maxSize <= |ChipOf(dev.io.SlotValue()).value.data|
    modifies dev.io.Repr()
    ensures dev.io.inStep == old(dev.io.inStep)
    ensures r.Err? ==> dev.io.Lossy() || patience < 2
    ensures patience >= 2 ==> Halted(dev.io, old(dev.io.asked), EraseMids(p, rom), r.Ok?)
    ensures Parked(p, dev.io.Value())
    ensures r.Ok? ==>
      && dev.io.Ready() && dev.io.out == []
      && Programming(p, dev.io.CoreValue())
      && ChipOf(dev.io.SlotValue()).value.data
           == FlashResult(p, ChipOf(old(dev.io.SlotValue())).value.data, rom)
  {
    hide SimGbxCart.Ready, SimGbxCart.Repr, SimGbxCart.CartRepr, Reading, Spliced, EraseRange, Padded, Sound,
      Link.Reached, Halted, EraseReads, ConfigReads, Parked, ProgramMids;
    ghost var link, from, erase := dev.io.link, dev.io.asked, EraseReads(p, |rom|);
    ghost var n := erase + ConfigReads(p);
    ghost var before := ChipOf(dev.io.SlotValue()).value.data;
    var g := GroupSize(p);
    var data := Padded(rom, g);
    SoundFacts(p);
    PaddingFits(p, rom, |before|);
    ReachedNothing(link, from);
    r := EraseFlash(dev, p, |rom|, patience);
    if patience >= 2 {
      ReachedOn(link, from, 0, from, erase, n, r.Ok?, dev.io.asked);
    }
    if r.Err? {
      if patience >= 2 {
        HaltedEarly(dev.io, p, from, n, ProgramMids(p, data));
      }
      ParkedReady(p, dev.io);
      return;
    }
    ghost var mid := dev.io.asked;
    r := ConfigureProgram(dev, p);
    if patience >= 2 {
      ReachedOn(link, from, erase, mid, ConfigReads(p), n, r.Ok?, dev.io.asked);
    }
    if r.Err? {
      LostIsLossy(link, mid, ConfigReads(p), dev.io.asked);
      if patience >= 2 {
        HaltedEarly(dev.io, p, from, n, ProgramMids(p, data));
      }
      ParkedReady(p, dev.io);
      return;
    }
    ErasedEnough(p, before, |rom|, |data|);
    mid := dev.io.asked;
    r := ProgramAll(dev, p, data);
    Settled(dev.io, p, mid, data, r.Ok?);
    if patience >= 2 {
      HaltedOn(dev.io, from, Plain(n), mid, ProgramMids(p, data), EraseMids(p, rom), r.Ok?);
      if r.Ok? {
        HaltedDone(dev.io, from, EraseMids(p, rom));
      }
    }
  }

  /** The answers to erasing, configuring and programming. */
  function EraseMids(p: FlashProfile, rom: seq<byte>): seq<bool> {
    Plain(EraseReads(p, |rom|) + ConfigReads(p)) + ProgramMids(p, Padded(rom, GroupSize(p)))
  }

  /** The answers to programming the padded image. */
  function ProgramMids(p: FlashProfile, data: seq<byte>): seq<bool> {
    if p.family == DmgFamily then DmgMids(p, data, Parts(|data|, ROM_BANK))
    else RunMids(p, data, |data| / GroupSize(p)).0
  }

  /** Between two writes; raw data can be expected in buffered programming only. */
  predicate Parked(p: FlashProfile, d: Device) {
    Paused(d, false) || (p.programming.Buffered? && Paused(d, true))
  }

  lemma ParkedReady(p: FlashProfile, io: SimGbxCart)
    requires io.Ready()
    ensures Parked(p, io.Value()) && Paused(io.Value(), false)
  {
  }

  lemma LostIsLossy(link: Link, from: nat, n: nat, asked: nat)
    requires link.Reached(from, n, false, asked)
    ensures link.Lossy?
  {
  }

  /** A run that stops before programming leaves no group open. */
  lemma HaltedEarly(io: SimGbxCart, p: FlashProfile, from: nat, n: nat, rest: seq<bool>)
    requires io.link.Reached(from, n, false, io.asked) && io.Ready()
    ensures Halted(io, from, Plain(n) + rest, false)
  {
    var f := io.link.FirstLost(from, n);
    FirstLostSplit(io.link, from, n, |rest|);
    assert (Plain(n) + rest)[f] == Plain(n)[f];
  }

  /** What a run of programming leaves behind. */
  lemma Settled(io: SimGbxCart, p: FlashProfile, from: nat, data: seq<byte>, ok: bool)
    requires Halted(io, from, ProgramMids(p, data), ok)
    ensures Parked(p, io.Value()) && (!ok ==> io.link.Lossy?)
  {
    hide Paused, ProgramMids;
    if p.programming.Unbuffered? {
      UnbufferedPlain(p, data);
    }
    if !ok {
      LostIsLossy(io.link, from, |ProgramMids(p, data)|, io.asked);
    }
  }

  predicate NoneSet(s: seq<bool>) {
    forall i :: 0 <= i < |s| ==> !s[i]
  }

  lemma UnbufferedPlain(p: FlashProfile, data: seq<byte>)
    requires p.programming.Unbuffered?
    ensures NoneSet(ProgramMids(p, data))
  {
    if p.family == DmgFamily {
      UnbufferedBanks(p, data, Parts(|data|, ROM_BANK));
    } else {
      UnbufferedRun(p, data, |data| / GroupSize(p));
    }
  }

  lemma {:induction false} UnbufferedBanks(p: FlashProfile, data: seq<byte>, k: nat)
    requires p.programming.Unbuffered?
    ensures NoneSet(DmgMids(p, data, k))
  {
    hide BankPart, RunMids;
    if k > 0 {
      UnbufferedBanks(p, data, k - 1);
      UnbufferedRun(p, BankPart(data, k - 1), |BankPart(data, k - 1)| / GroupSize(p));
    }
  }

  lemma {:induction false} UnbufferedRun(p: FlashProfile, data: seq<byte>, k: nat)
    requires p.programming.Unbuffered?
    ensures NoneSet(RunMids(p, data, k).0)
  {
    hide GroupAt, AllErased;
    if k > 0 {
      UnbufferedRun(p, data, k - 1);
      assert NoneSet(StepMids(p, RunMids(p, data, k - 1).1));
    }
  }

  /** Set the strobe pin. A device left in the middle of a group takes the command for raw data. */
  method SelectPin(dev: GbxCart, p: FlashProfile) returns (r: Result<(), DeviceError>)
    requires if dev.io.Ready() then Reading(p, dev.io.CoreValue()) else dev.io.Value().Swallows(10)
    requires dev.io.out == []
    modifies dev.io.Repr()
    ensures old(dev.io.Ready()) ==>
      && dev.io.Ready() && dev.io.inStep == old(dev.io.inStep)
      && dev.io.link.Reached(old(dev.io.asked), 1, r.Ok?, dev.io.asked)
      && (r.Ok? ==> dev.io.out == [] && Reading(p, dev.io.CoreValue()) && dev.io.SlotValue() == old(dev.io.SlotValue()))
      && dev.io.CoreValue().Get(VAR_FLASH_WE_PIN) == p.wePin as u32
    ensures !old(dev.io.Ready()) ==>
      && r == Err(Io) && !dev.io.inStep
      && dev.io.Value() == Swallowed(old(dev.io.Value()), SetVariableFrame(VAR_FLASH_WE_PIN, p.wePin as u32))
  {
    hide SimGbxCart.Ready, SimGbxCart.Repr, SimGbxCart.CartRepr, Fits, Device.Swallows, Link.Reached;
    r := dev.SetVariable(VAR_FLASH_WE_PIN, p.wePin as u32);
  }

  lemma SoundFacts(p: FlashProfile)
    requires Sound(p)
    ensures WholeChunks(p) && p.sectorSize % 2 == 0 && p.maxSize < 0x1_0000_0000
    ensures p.family == DmgFamily ==> p.maxSize <= 512 * ROM_BANK
  {
    EvenSector(p);
  }

  lemma EvenSector(p: FlashProfile)
    requires Sound(p)
    ensures p.sectorSize % 2 == 0
  {
    hide GroupSize, WholeChunks;
    EvenGroup(p);
    EvenMultiple(p.sectorSize, GroupSize(p));
  }

  lemma ErasedEnough(p: FlashProfile, before: seq<byte>, len: nat, n: nat)
    requires n <= ErasedEnd(p, len, |before|) && n <= |before|
    ensures ErasedIn(Erased(p, before, len), 0, n)
  {
  }

  /** The whole padded image, bank by bank on DMG, in one run on GBA. */
  method ProgramAll(dev: GbxCart, p: FlashProfile, data: seq<byte>) returns (r: Result<(), DeviceError>)
    requires dev.io.Ready() && dev.io.out == [] && Programming(p, dev.io.CoreValue()) && Sound(p)
    requires |data| % GroupSize(p) == 0 && |data| <= p.maxSize
    requires ErasedIn(ChipOf(dev.io.SlotValue()).value.data, 0, |data|)
    modifies dev.io.Repr()
    ensures dev.io.inStep == old(dev.io.inStep)
    ensures Halted(dev.io, old(dev.io.asked), ProgramMids(p, data), r.Ok?)
    ensures r.Ok? ==>
      && dev.io.Ready() && dev.io.out == []
      && Programming(p, dev.io.CoreValue())
      && ChipOf(dev.io.SlotValue()).value.data == Spliced(ChipOf(old(dev.io.SlotValue())).value.data, 0, data)
  {
    hide SimGbxCart.Ready, SimGbxCart.Repr, SimGbxCart.CartRepr, Spliced, SameBanks, Halted, RunMids, DmgMids;
    if p.family == DmgFamily {
      r := ProgramDmg(dev, p, data);
    } else {
      r := ProgramRun(dev, p, 0, data);
    }
  }

  /** A programmed chip holds the padded ROM at its start. */
  lemma ResultHolds(p: FlashProfile, s: Slot, before: seq<byte>, rom: seq<byte>)
    requires Fits(p, s) && Quieted(s) && Sound(p) && |rom| <= p.maxSize <= |before|
    requires ChipOf(s).value.data == FlashResult(p, before, rom)
    ensures Holds(s, Padded(rom, GroupSize(p)))
  {
    PaddingFits(p, rom, |before|);
  }

  /** A profile was found and the ROM is not larger than it. */
  predicate Flashable(profile: Option<FlashProfile>, len: nat) {
    profile.Some? && len <= profile.value.maxSize
  }

  /** The answers to everything a write asks for before it verifies. */
  function WriteMids(p: FlashProfile, rom: seq<byte>): seq<bool> {
    Plain(1) + EraseMids(p, rom)
  }

  /** The first answer lost in a write is one that leaves a buffered group open. */
  predicate StuckOpen(link: Link, from: nat, p: FlashProfile, rom: seq<byte>) {
    var mids := WriteMids(p, rom);
    var f := link.FirstLost(from, |mids|);
    f < |mids| && mids[f]
  }

  /**
   Write a ROM to a flash cart. Whatever the chip held, a write that reports success, and every
   write over a lossless link to a chip that finishes erasing in time, leaves exactly the flash
   result; it then reports success just when its size can pass verification. No byte is ever sent
   out of step, whatever times out; the device is left in the middle of a buffered group exactly
   when the first lost answer is one that leaves a group open. A device that was left so before
   takes the first command for raw data, and the write fails without touching the chip.
   */
  method FlashRom(dev: GbxCart, profile: Option<FlashProfile>, rom: seq<byte>, patience: nat)
    returns (r: Result<(), DeviceError>)
    requires (dev.io.Ready() || dev.io.Value().Swallows(10)) && dev.io.out == []
    requires dev.crc == dev.io.crc && |dev.header| >= LOGO_END && |rom| < 0x1_0000_0000
    requires profile.Some? ==>
      && Sound(profile.value) && Reading(profile.value, dev.io.CoreValue()) && Quieted(dev.io.SlotValue())
      && profile.value.maxSize <= |ChipOf(dev.io.SlotValue()).value.data|
      && (profile.value.family == DmgFamily ==> |rom| > 0)
    modifies dev.io.Repr()
    ensures old(dev.io.Ready()) ==> dev.io.inStep == old(dev.io.inStep) && (r.Ok? ==> dev.io.Ready())
    ensures !Flashable(profile, |rom|) ==> r == Err(NotFlashable) && dev.io.Value() == old(dev.io.Value())
    ensures old(dev.io.Ready()) && Flashable(profile, |rom|) && (r.Ok? || (!dev.io.Lossy() && patience >= 2)) ==>
      && ChipOf(dev.io.SlotValue()).Some?
      && ChipOf(dev.io.SlotValue()).value.data
           == FlashResult(profile.value, ChipOf(old(dev.io.SlotValue())).value.data, rom)
    ensures Flashable(profile, |rom|) && r.Ok? ==>
      old(dev.io.Ready()) && Verifiable(profile.value.family, RoundUp(|rom|, GroupSize(profile.value)))
    ensures old(dev.io.Ready()) && Flashable(profile, |rom|) && !dev.io.Lossy() && patience >= 2 ==>
      (r.Ok? <==> Verifiable(profile.value.family, RoundUp(|rom|, GroupSize(profile.value))))
    ensures old(dev.io.Ready()) && Flashable(profile, |rom|) ==>
      && Parked(profile.value, dev.io.Value())
      && (patience >= 2 ==>
            Paused(dev.io.Value(), StuckOpen(dev.io.link, old(dev.io.asked), profile.value, rom)))
    ensures !old(dev.io.Ready()) && Flashable(profile, |rom|) ==>
      && r == Err(Io) && !dev.io.inStep
      && dev.io.Value()
         == Swallowed(old(dev.io.Value()), SetVariableFrame(VAR_FLASH_WE_PIN, profile.value.wePin as u32))
  {
    hide SimGbxCart.Ready, SimGbxCart.Repr, SimGbxCart.CartRepr, Reading, FlashResult, Padded, Sound, Verifiable,
      Device.Swallows, Link.Reached, Halted, EraseMids, Parked, Paused, StuckOpen;
    if profile.None? || |rom| > profile.value.maxSize {
      return Err(NotFlashable);
    }
    var p := profile.value;
    ghost var before, from := ChipOf(dev.io.SlotValue()).value.data, dev.io.asked;
    r := SelectPin(dev, p);
    if r.Err? {
      if old(dev.io.Ready()) {
        LostIsLossy(dev.io.link, from, 1, dev.io.asked);
        PinLost(dev.io, p, from, rom);
      }
      return;
    }
    ghost var mid := dev.io.asked;
    r := EraseAndProgram(dev, p, rom, patience);
    if patience >= 2 {
      WriteHalted(dev.io, p, from, mid, rom, r.Ok?);
    }
    if r.Err? {
      return;
    }
    var data := Padded(rom, GroupSize(p));
    ReadyToVerify(p, dev.io.CoreValue(), before, rom);
    r := VerifyWrite(dev, p, data);
    ParkedReady(p, dev.io);
  }

  /** A write whose first answer is lost. */
  lemma PinLost(io: SimGbxCart, p: FlashProfile, from: nat, rom: seq<byte>)
    requires io.link.Reached(from, 1, false, io.asked) && io.Ready()
    ensures Parked(p, io.Value()) && Paused(io.Value(), false) && !StuckOpen(io.link, from, p, rom)
  {
    hide EraseMids;
    FirstLostSplit(io.link, from, 1, |EraseMids(p, rom)|);
  }

  /** A write that got past the strobe pin. */
  lemma WriteHalted(io: SimGbxCart, p: FlashProfile, from: nat, mid: nat, rom: seq<byte>, ok: bool)
    requires io.link.Reached(from, 1, true, mid) && Halted(io, mid, EraseMids(p, rom), ok)
    ensures Paused(io.Value(), StuckOpen(io.link, from, p, rom)) && (ok ==> !StuckOpen(io.link, from, p, rom))
  {
    hide EraseMids, Paused;
    FirstLostSplit(io.link, from, 1, |EraseMids(p, rom)|);
  }

  lemma ReadyToVerify(p: FlashProfile, c: Core, before: seq<byte>, rom: seq<byte>)
    requires Programming(p, c) && Sound(p) && |rom| <= p.maxSize <= |before|
    requires ChipOf(c.slot).value.data == FlashResult(p, before, rom)
    ensures Reading(p, c) && Holds(c.slot, Padded(rom, GroupSize(p)))
    ensures |Padded(rom, GroupSize(p))| < 0x1_0000_0000
    ensures p.family == DmgFamily ==> |Padded(rom, GroupSize(p))| <= 512 * ROM_BANK
  {
    ResultHolds(p, c.slot, before, rom);
    PaddingFits(p, rom, |before|);
  }
}
