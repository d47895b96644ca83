/**
 Finding out what flash chip is in a cart: put it into autoselect with each pair of unlock addresses
 in turn, read eight bytes, and look the answer up in the profile table. What the probe reports,
 and for which carts a whole write from a freshly detected cart succeeds.
 */
module FlashProbe {
  import opened Bytes
  import opened Protocol
  import opened FlashChip
  import opened Cartridges
  import opened GbxCore
  import opened GbxWire
  import opened GbxStreams
  import opened SimGbx
  import opened GbxDriver
  import opened DmgDump
  import opened FlashErase
  import opened FlashProgram
  import opened FlashRom

  const ID_LEN: nat := 8

  // --- The table ----------------------------------------------------------------------------

  /** A table entry as the lookup sees it; the Intel one's profile is not modelled. */
  datatype Entry = AmdEntry(profile: FlashProfile, ids: seq<seq<byte>>) | IntelEntry(ids: seq<seq<byte>>)
  {
    function Family(): Family {
      if AmdEntry? then profile.family else AgbFamily
    }

    predicate Matches(family: Family, id: seq<byte>) {
      Family() == family && exists i :: 0 <= i < |ids| && ids[i] <= id
    }
  }

  function Table(): seq<Entry> {
    var p := AmdProfiles();
    [
      AmdEntry(p[0], [[0x01, 0xAD]]),
      AmdEntry(p[1], [[0x01, 0x41], [0x01, 0x45]]),
      AmdEntry(p[2], [[0xBF, 0xB5], [0xBF, 0xB6], [0xBF, 0xB7]]),
      AmdEntry(p[3], [[0xC2, 0xA7], [0xC2, 0xA8]]),
      AmdEntry(p[4], [[0x01, 0x01, 0xD2, 0xD2]]),
      AmdEntry(p[5], [[0x01, 0x00, 0x7E, 0x22]]),
      IntelEntry([[0x89, 0x00]])
    ]
  }

  /** The first entry of the family whose ID the answer starts with. */
  function FirstMatch(table: seq<Entry>, family: Family, id: seq<byte>): Option<Entry> {
    if table == [] then None
    else if table[0].Matches(family, id) then Some(table[0])
    else FirstMatch(table[1..], family, id)
  }

  /** No two entries of a family share an answer, so the lookup finds the entry whose ID it is. */
  lemma LookupFinds(k: nat, family: Family, id: seq<byte>)
    requires k < |Table()| && Table()[k].Matches(family, id)
    ensures FirstMatch(Table(), family, id) == Some(Table()[k])
  {
    forall i | 0 <= i < k
      ensures !Table()[i].Matches(family, id)
    {
      Distinct(i, k, family, id);
    }
    FirstAt(Table(), k, family, id);
  }

  lemma {:induction false} FirstAt(table: seq<Entry>, k: nat, family: Family, id: seq<byte>)
    requires k < |table| && table[k].Matches(family, id)
    requires forall i :: 0 <= i < k ==> !table[i].Matches(family, id)
    ensures FirstMatch(table, family, id) == Some(table[k])
  {
    if k > 0 {
      assert !table[0].Matches(family, id);
      FirstAt(table[1..], k - 1, family, id);
    }
  }

  /** The entry whose IDs start with these two bytes. */
  function LeadOf(family: Family, b0: byte, b1: byte): nat {
    if family == AgbFamily then (if b0 == 0x01 then 5 else 6)
    else if b0 == 0xBF then 2
    else if b0 == 0xC2 then 3
    else if b1 == 0xAD then 0
    else if b1 == 0x01 then 4
    else 1
  }

  lemma Lead(k: nat, family: Family, id: seq<byte>)
    requires k < |Table()| && Table()[k].Matches(family, id)
    ensures |id| >= 2 && LeadOf(family, id[0], id[1]) == k
  {
    var e := Table()[k];
    var i :| 0 <= i < |e.ids| && e.ids[i] <= id;
    assert id[0] == e.ids[i][0] && id[1] == e.ids[i][1];
  }

  lemma Distinct(i: nat, k: nat, family: Family, id: seq<byte>)
    requires i < k < |Table()| && Table()[k].Matches(family, id)
    ensures !Table()[i].Matches(family, id)
  {
    Lead(k, family, id);
    if Table()[i].Matches(family, id) {
      Lead(i, family, id);
    }
  }

  /** The ID starts with these bytes. */
  predicate Starts(id: seq<byte>, lead: seq<byte>) {
    lead <= id
  }

  /** Which answers the table knows, and what it says of each chip: unlock pair, size, sectors, buffer. */
  lemma TableKnows(family: Family, id: seq<byte>)
    ensures var m := FirstMatch(Table(), family, id);
            match family
            case DmgFamily =>
              && (Starts(id, [0x01, 0xAD]) ==> Known(m, DmgFamily, 0x555, 0x2AA, 0x20_0000, 0x1_0000, 0))
              && (Starts(id, [0x01, 0x41]) || Starts(id, [0x01, 0x45]) ==>
                    Known(m, DmgFamily, 0x555, 0x2AA, 0x40_0000, 0x1_0000, 0))
              && (Starts(id, [0xBF, 0xB5]) || Starts(id, [0xBF, 0xB6]) || Starts(id, [0xBF, 0xB7]) ==>
                    Known(m, DmgFamily, 0x5555, 0x2AAA, 0x8_0000, 0x1000, 0))
              && (Starts(id, [0xC2, 0xA7]) || Starts(id, [0xC2, 0xA8]) ==>
                    Known(m, DmgFamily, 0xAAA, 0x555, 0x40_0000, 0x1_0000, 0))
              && (Starts(id, [0x01, 0x01, 0xD2, 0xD2]) ==> Known(m, DmgFamily, 0xAAA, 0x555, 0x20_0000, 0, 0))
            case AgbFamily =>
              && (Starts(id, [0x01, 0x00, 0x7E, 0x22]) ==>
                    Known(m, AgbFamily, 0x555, 0x2AA, 0x200_0000, 0x2_0000, 0x400))
              && (Starts(id, [0x89, 0x00]) ==> m.Some? && m.value.IntelEntry?)
  {
    hide FirstMatch;
    forall k, i | 0 <= k < |Table()| && 0 <= i < |Table()[k].ids| && Table()[k].ids[i] <= id
                  && Table()[k].Family() == family
      ensures FirstMatch(Table(), family, id) == Some(Table()[k])
    {
      LookupFinds(k, family, id);
    }
    var t := Table();
    assert t[0].ids[0] == [0x01, 0xAD] && t[1].ids[0] == [0x01, 0x41] && t[1].ids[1] == [0x01, 0x45];
    assert t[2].ids[0] == [0xBF, 0xB5] && t[2].ids[1] == [0xBF, 0xB6] && t[2].ids[2] == [0xBF, 0xB7];
    assert t[3].ids[0] == [0xC2, 0xA7] && t[3].ids[1] == [0xC2, 0xA8] && t[4].ids[0] == [0x01, 0x01, 0xD2, 0xD2];
    assert t[5].ids[0] == [0x01, 0x00, 0x7E, 0x22] && t[6].ids[0] == [0x89, 0x00];
  }

  /** An entry with these parameters; a buffer of 0 is none, and every chip is strobed by the WR pin. */
  predicate Known(m: Option<Entry>, family: Family, unlock1: u32, unlock2: u32, size: nat, sector: nat, buffer: nat) {
    && m.Some? && m.value.AmdEntry?
    && var p := m.value.profile;
       && p.family == family && p.wePin == 1 && p.unlock1 == unlock1 && p.unlock2 == unlock2
       && p.maxSize == size && p.sectorSize == sector
       && p.programming == if buffer == 0 then Unbuffered else Buffered(buffer)
  }

  // --- What the socket shows ------------------------------------------------------------------

  /** A cart as the probe meets it: of the family, a flash chip wired as an MBC5, idle. */
  predicate Probeable(family: Family, s: Slot) {
    && s.Valid() && Quiet(s) && (ChipOf(s).Some? ==> ChipOf(s).value.Resting())
    && match family
       case DmgFamily => s.DmgSlot? && (s.dmg.flash.Some? ==> s.dmg.mbc == Mbc5 && s.dmg.flash.value.unlock1 < 0x8000)
       case AgbFamily => s.AgbSlot?
  }

  function ShownByte(s: Slot, i: nat): byte
    requires s.Valid()
  {
    match s
    case DmgSlot(c) => RomByte(c, i)
    case AgbSlot(c) => AgbRomByte(c, i)
    case EmptySlot => 0xFF
  }

  /** The first eight bytes the socket shows. */
  function Shown(s: Slot): (id: seq<byte>)
    requires s.Valid()
    ensures |id| == ID_LEN
  {
    seq(ID_LEN, i requires 0 <= i < ID_LEN => ShownByte(s, i))
  }

  /** What a chip in autoselect shows. */
  function IdBytes(c: Chip): (id: seq<byte>)
    requires c.Valid()
    ensures |id| == ID_LEN
  {
    seq(ID_LEN, i requires 0 <= i < ID_LEN => c.id[i % |c.id|])
  }

  /** The chip listens to a pair of unlock addresses the bus can deliver. */
  predicate Listens(family: Family, c: Chip, a1: u32, a2: u32) {
    && c.unlock1 == ChipAddress(family, a1) && c.unlock2 == ChipAddress(family, a2)
    && (family == DmgFamily ==> a1 < 0x2000 && a2 < 0x2000)
  }

  function Variants(family: Family): seq<(u32, u32)> {
    if family == DmgFamily then [(0x555, 0x2AA), (0xAAA, 0x555), (0x5555, 0x2AAA)] else [(0x555, 0x2AA)]
  }

  predicate Variant(family: Family, v: (u32, u32)) {
    v in Variants(family)
  }

  /** Every chip of the table is tried with its own pair. */
  lemma EveryPairTried(k: nat)
    requires k < |AmdProfiles()|
    ensures var p := AmdProfiles()[k]; Variant(p.family, (p.unlock1, p.unlock2))
  {
    var p, v := AmdProfiles()[k], Variants(AmdProfiles()[k].family);
    assert v[0] == (0x555, 0x2AA);
    if p.family == DmgFamily {
      assert v[1] == (0xAAA, 0x555) && v[2] == (0x5555, 0x2AAA);
    }
  }

  /** What the probe reports: the chip's ID, if it listens to one of the pairs and does not hold that ID as data. */
  function Reported(family: Family, s: Slot): Option<seq<byte>>
    requires s.Valid()
  {
    if ChipOf(s).Some? && Heard(family, ChipOf(s).value, |Variants(family)|) && IdBytes(ChipOf(s).value) != Shown(s)
    then Some(IdBytes(ChipOf(s).value)) else None
  }

  /** The chip listens to one of the first `n` pairs. */
  predicate Heard(family: Family, c: Chip, n: nat)
    requires n <= |Variants(family)|
  {
    exists i :: 0 <= i < n && Listens(family, c, Variants(family)[i].0, Variants(family)[i].1)
  }

  // --- One attempt ------------------------------------------------------------------------------

  /** The same cart with mapper registers moved, the fixed window where it was and chip `chip`. */
  predicate Moved(s: Slot, t: Slot, chip: Option<Chip>) {
    && t.Valid() && ChipOf(t) == chip
    && match s
       case DmgSlot(c) =>
         && t.DmgSlot? && t.dmg.mbc == c.mbc && t.dmg.rom == c.rom && t.dmg.ram == c.ram
         && t.dmg.mode == c.mode
       case AgbSlot(c) => t.AgbSlot? && t.agb.rom == c.rom && t.agb.pad == c.pad
       case EmptySlot => t.EmptySlot?
  }

  /** Where a chip behind the bus sees a command-register write. */
  function SeenAt(family: Family, s: Slot, addr: u32): nat
    requires family == DmgFamily ==> s.DmgSlot? && addr < 0x8000
  {
    if family == DmgFamily then RomAddress(s.dmg, addr as nat) else 2 * addr as nat
  }

  function ChipAfter(c: Option<Chip>, at: nat, value: byte): Option<Chip>
    requires c.Some? ==> c.value.Valid()
  {
    if c.Some? then Some(Command(c.value, at, value)) else None
  }

  lemma ProbeWrite(family: Family, s: Slot, addr: u32, value: byte)
    requires s.Valid() && addr < 0x6000
    requires if family == DmgFamily then s.DmgSlot? else s.AgbSlot?
    ensures var t := FlashWrite(s, addr as nat, value);
            && Moved(s, t, ChipAfter(ChipOf(s), SeenAt(family, s, addr), value))
            && (family == DmgFamily && s.dmg.mbc == Mbc5 && addr == 0x2AAA ==> t.dmg.bankLo == value)
            && (family == DmgFamily && s.dmg.mbc == Mbc5 && addr >= 0x4000 ==> t.dmg.bankLo == s.dmg.bankLo)
  {
    hide Command;
  }

  /** The three autoselect cycles, as the chip sees them. */
  lemma Autoselected(c: Chip, at1: nat, at2: nat, at3: nat)
    requires c.Resting()
    ensures Command(c, at1, 0xF0) == c
    ensures Command(Command(Command(c, at1, 0xAA), at2, 0x55), at3, 0x90)
         == if at1 == c.unlock1 && at2 == c.unlock2 && at3 == c.unlock1 then c.(autoselect := true) else c
    ensures Command(c.(autoselect := true), at1, 0xF0) == c
  {
  }

  function AutoselectWrites(a1: u32, a2: u32): seq<(u32, byte)> {
    [(a1, 0xAA), (a2, 0x55), (a1, 0x90)]
  }

  lemma OneWrite(s: Slot, w: (u32, byte))
    requires s.Valid()
    ensures FlashWrites(s, [w]) == FlashWrite(s, w.0 as nat, w.1)
  {
    hide FlashWrite;
    assert [w][..0] == [];
    assert FlashWrites(s, []) == s;
  }

  lemma ThreeWrites(s: Slot, a: (u32, byte), b: (u32, byte), c: (u32, byte))
    requires s.Valid()
    ensures FlashWrites(s, [a, b, c])
         == FlashWrite(FlashWrite(FlashWrite(s, a.0 as nat, a.1), b.0 as nat, b.1), c.0 as nat, c.1)
  {
    hide FlashWrite, FlashWrites;
    OneWrite(s, a);
    FlashWritesOn(s, [a], b);
    FlashWritesOn(s, [a] + [b], c);
    assert [a] + [b] + [c] == [a, b, c];
  }

  /** A reset leaves a chip that rests, or one in autoselect, resting. */
  lemma ResetWrite(family: Family, s: Slot, a1: u32, rest: Option<Chip>)
    requires s.Valid() && a1 < 0x6000 && (if family == DmgFamily then s.DmgSlot? else s.AgbSlot?)
    requires rest.Some? ==> rest.value.Resting()
    requires ChipOf(s) == rest || (rest.Some? && ChipOf(s) == Some(rest.value.(autoselect := true)))
    ensures Moved(s, FlashWrites(s, [(a1, 0xF0)]), rest)
  {
    OneWrite(s, (a1, 0xF0));
    ProbeWrite(family, s, a1, 0xF0);
    if rest.Some? {
      Autoselected(rest.value, SeenAt(family, s, a1), 0, 0);
    }
  }

  /** After the autoselect cycles exactly a chip that listens to the pair shows its ID. */
  lemma AutoselectOutcome(family: Family, s: Slot, a1: u32, a2: u32)
    requires Probeable(family, s) && Variant(family, (a1, a2))
    ensures var c := ChipOf(s);
            Moved(s, FlashWrites(s, AutoselectWrites(a1, a2)),
                  if c.Some? && Listens(family, c.value, a1, a2) then Some(c.value.(autoselect := true)) else c)
  {
    hide FlashWrite, FlashWrites, Command, SwitchableBank;
    var s1 := FlashWrite(s, a1 as nat, 0xAA);
    var s2 := FlashWrite(s1, a2 as nat, 0x55);
    ThreeWrites(s, (a1, 0xAA), (a2, 0x55), (a1, 0x90));
    ProbeWrite(family, s, a1, 0xAA);
    ProbeWrite(family, s1, a2, 0x55);
    ProbeWrite(family, s2, a1, 0x90);
    if ChipOf(s).Some? {
      var c := ChipOf(s).value;
      Autoselected(c, SeenAt(family, s, a1), SeenAt(family, s1, a2), SeenAt(family, s2, a1));
      if family == DmgFamily {
        SeenThrough(s.dmg, s1.dmg, s2.dmg, a1, a2);
      }
    }
  }

  /** Below the bank registers the chip sees the bus address; above, the last cycle goes to bank 0x55. */
  lemma SeenThrough(c: DmgCart, c1: DmgCart, c2: DmgCart, a1: u32, a2: u32)
    requires c.mbc == Mbc5 && c1.mbc == Mbc5 && c2.mbc == Mbc5 && Variant(DmgFamily, (a1, a2))
    requires a2 == 0x2AAA ==> c2.bankLo == 0x55
    ensures a1 < 0x2000 ==>
      && a2 < 0x2000 && RomAddress(c, a1 as nat) == a1 as nat && RomAddress(c1, a2 as nat) == a2 as nat
      && RomAddress(c2, a1 as nat) == a1 as nat
    ensures a1 >= 0x2000 ==> RomAddress(c2, a1 as nat) >= 0x8000
  {
  }

  lemma ShownWhen(family: Family, s: Slot, t: Slot, chip: Option<Chip>)
    requires Probeable(family, s) && Moved(s, t, chip)
    ensures chip == ChipOf(s) ==> Shown(t) == Shown(s) && Quiet(t)
    ensures ChipOf(s).Some? && chip == Some(ChipOf(s).value.(autoselect := true)) ==>
      Shown(t) == IdBytes(ChipOf(s).value) && Quiet(t)
  {
  }

  // --- The flow -----------------------------------------------------------------------------------

  /** In the family's mode, the cart readable from its first byte on. */
  predicate Probing(family: Family, c: Core) {
    && Probeable(family, c.slot)
    && match family
       case DmgFamily => c.DmgLive() && c.Get(VAR_DMG_READ_METHOD) == DMG_READ_METHOD_A15 && c.slot.dmg.mode == 0
       case AgbFamily => c.AgbLive()
  }

  /** A cart that shows `id` while its chip may be in autoselect. */
  predicate Showing(family: Family, c: Core, id: seq<byte>) {
    && c.slot.Valid() && Quiet(c.slot) && Shown(c.slot) == id
    && match family
       case DmgFamily =>
         && c.slot.DmgSlot? && c.slot.dmg.mode == 0 && c.DmgLive()
         && c.Get(VAR_DMG_READ_METHOD) == DMG_READ_METHOD_A15
       case AgbFamily => c.slot.AgbSlot? && c.AgbLive()
  }

  lemma DmgShows(c: Core, id: seq<byte>)
    requires Showing(DmgFamily, c, id)
    ensures var (c1, s) := RomRead(c, 0, ID_LEN);
            s == id && c1 == c.(vars := c1.vars, address := c1.address, addrIncremented := c1.addrIncremented)
            && c1.Get(VAR_DMG_READ_METHOD) == DMG_READ_METHOD_A15
  {
    hide RomRead;
    RomReadWindow(c, 0, ID_LEN);
    forall i | 0 <= i < ID_LEN
      ensures Window(c.slot.dmg, 0, ID_LEN)[i] == Shown(c.slot)[i]
    {
    }
    assert Window(c.slot.dmg, 0, ID_LEN) == id;
  }

  lemma AgbShows(c: Core, id: seq<byte>)
    requires Showing(AgbFamily, c, id)
    ensures var c0 := Aimed(c, ID_LEN as u32, 0);
            && Opcodes(c0, CMD_AGB_CART_READ, 1).1 == id && |AgbStream(c0, 4).1| == 8
            && Opcodes(c0, CMD_AGB_CART_READ, 1).0.slot == c.slot && Opcodes(c0, CMD_AGB_CART_READ, 1).0.AgbLive()
  {
    hide AgbStream;
    var c0 := Aimed(c, ID_LEN as u32, 0);
    AgbStreamQuiet(c0, 4);
    OneOpcode(c0);
    forall i | 0 <= i < ID_LEN
      ensures AgbSlice(c0, 0, ID_LEN)[i] == Shown(c.slot)[i]
    {
    }
    assert AgbSlice(c0, 0, ID_LEN) == id;
  }

  lemma OneOpcode(c: Core)
    requires c.Valid() && c.TransferSize() == ID_LEN
    ensures Opcodes(c, CMD_AGB_CART_READ, 1) == AgbStream(c, 4)
  {
    hide AgbStream;
    assert Opcodes(c, CMD_AGB_CART_READ, 0) == (c, []);
    assert [] + AgbStream(c, 4).1 == AgbStream(c, 4).1;
  }

  /** Read the first eight bytes. */
  method ReadIdBytes(dev: GbxCart, family: Family, ghost id: seq<byte>) returns (r: Result<seq<byte>, DeviceError>)
    requires dev.io.Ready() && dev.io.out == [] && Showing(family, dev.io.CoreValue(), id)
    modifies dev.io.Repr()
    ensures dev.io.Ready() && dev.io.inStep == old(dev.io.inStep)
    ensures r.Err? ==> dev.io.Lossy()
    ensures Tuned(old(dev.io.CoreValue()), dev.io.CoreValue())
    ensures r.Ok? ==> r.value == id && dev.io.out == []
  {
    hide SimGbxCart.Ready, SimGbxCart.Repr, SimGbxCart.CartRepr, Shown, Quiet, RomRead, Opcodes, AgbStream;
    if family == DmgFamily {
      DmgShows(dev.io.CoreValue(), id);
      r := dev.ReadDmgRomChunk(0, ID_LEN);
    } else {
      AgbShows(dev.io.CoreValue(), id);
      assert Parts(ID_LEN, ID_LEN) == 1;
      r := dev.ReadAt(CMD_AGB_CART_READ, 0, ID_LEN as u32, ID_LEN);
    }
  }

  lemma MovedOn(s: Slot, t: Slot, u: Slot, c: Option<Chip>, d: Option<Chip>)
    requires Moved(s, t, c) && Moved(t, u, d)
    ensures Moved(s, u, d)
  {
  }

  /** A cart whose chip rests again can be probed again, and shows what it showed. */
  lemma StillProbing(family: Family, c: Core, d: Core)
    requires Probing(family, c) && Moved(c.slot, d.slot, ChipOf(c.slot)) && d.mode == c.mode && d.powered == c.powered
    requires d.Get(VAR_DMG_READ_METHOD) == c.Get(VAR_DMG_READ_METHOD)
    ensures Probing(family, d) && Shown(d.slot) == Shown(c.slot) && !Crashed(d.slot)
  {
    ShownWhen(family, c.slot, d.slot, ChipOf(c.slot));
  }

  /** What the cart shows once the autoselect cycles have been sent. */
  function Answered(family: Family, s: Slot, a1: u32, a2: u32): seq<byte>
    requires s.Valid()
  {
    if ChipOf(s).Some? && Listens(family, ChipOf(s).value, a1, a2) then IdBytes(ChipOf(s).value) else Shown(s)
  }

  lemma NowShowing(family: Family, c: Core, d: Core, a1: u32, a2: u32)
    requires Probing(family, c) && Variant(family, (a1, a2))
    requires d == c.(slot := FlashWrites(c.slot, AutoselectWrites(a1, a2)))
    ensures Showing(family, d, Answered(family, c.slot, a1, a2)) && !Crashed(d.slot)
  {
    hide FlashWrites, Shown, IdBytes;
    AutoselectOutcome(family, c.slot, a1, a2);
    ShownWhen(family, c.slot, d.slot, ChipOf(d.slot));
  }

  /** Reset, autoselect, read, reset, with one pair of unlock addresses. */
  method Attempt(dev: GbxCart, family: Family, a1: u32, a2: u32) returns (r: Result<seq<byte>, DeviceError>)
    requires dev.io.Ready() && dev.io.out == [] && Probing(family, dev.io.CoreValue()) && Variant(family, (a1, a2))
    modifies dev.io.Repr()
    ensures dev.io.Ready() && dev.io.inStep == old(dev.io.inStep)
    ensures r.Err? ==> dev.io.Lossy()
    ensures r.Ok? ==>
      && dev.io.out == [] && r.value == Answered(family, old(dev.io.SlotValue()), a1, a2)
      && dev.io.CoreValue().Get(VAR_FLASH_WE_PIN) == old(dev.io.CoreValue()).Get(VAR_FLASH_WE_PIN)
      && Probing(family, dev.io.CoreValue())
      && Moved(old(dev.io.SlotValue()), dev.io.SlotValue(), ChipOf(old(dev.io.SlotValue())))
  {
    hide SimGbxCart.Ready, SimGbxCart.Repr, SimGbxCart.CartRepr, Probing, Showing, FlashWrites, Shown, Answered, Moved,
      Crashed, Listens, Probeable;
    ghost var c := dev.io.CoreValue();
    ResetSent(family, c, a1);
    var a := dev.FlashCmd([(a1, 0xF0)]);
    if a.Err? {
      return Err(a.error);
    }
    ghost var c1 := dev.io.CoreValue();
    NowShowing(family, c1, c1.(slot := FlashWrites(c1.slot, AutoselectWrites(a1, a2))), a1, a2);
    a := dev.FlashCmd(AutoselectWrites(a1, a2));
    if a.Err? {
      return Err(a.error);
    }
    ghost var c2 := dev.io.CoreValue();
    r := ReadIdBytes(dev, family, Answered(family, c1.slot, a1, a2));
    PinKept(family, c2, dev.io.CoreValue(), Answered(family, c1.slot, a1, a2));
    if r.Err? {
      return;
    }
    ResetBack(family, c1, dev.io.CoreValue(), a1, a2);
    a := dev.FlashCmd([(a1, 0xF0)]);
    if a.Err? {
      return Err(a.error);
    }
    AnsweredStill(family, c, c1, a1, a2);
    MovedOn(c.slot, c1.slot, dev.io.SlotValue(), ChipOf(c.slot), ChipOf(c1.slot));
  }

  lemma PinKept(family: Family, c: Core, d: Core, id: seq<byte>)
    requires Showing(family, c, id) && Tuned(c, d)
    ensures d.Get(VAR_FLASH_WE_PIN) == c.Get(VAR_FLASH_WE_PIN)
  {
  }

  lemma ResetSent(family: Family, c: Core, a1: u32)
    requires Probing(family, c) && a1 < 0x6000
    ensures var d := c.(slot := FlashWrites(c.slot, [(a1, 0xF0)]));
            Probing(family, d) && Moved(c.slot, d.slot, ChipOf(c.slot)) && !Crashed(d.slot)
  {
    hide FlashWrites;
    ResetWrite(family, c.slot, a1, ChipOf(c.slot));
    StillProbing(family, c, c.(slot := FlashWrites(c.slot, [(a1, 0xF0)])));
  }

  /** Back from autoselect after a read. */
  lemma ResetBack(family: Family, c: Core, d: Core, a1: u32, a2: u32)
    requires Probing(family, c) && Variant(family, (a1, a2))
    requires d.Valid() && Tuned(c.(slot := FlashWrites(c.slot, AutoselectWrites(a1, a2))), d)
    ensures var e := d.(slot := FlashWrites(d.slot, [(a1, 0xF0)]));
            Probing(family, e) && Moved(c.slot, e.slot, ChipOf(c.slot)) && !Crashed(e.slot)
  {
    hide FlashWrites, Shown, IdBytes;
    var t := FlashWrites(c.slot, AutoselectWrites(a1, a2));
    AutoselectOutcome(family, c.slot, a1, a2);
    ShownWhen(family, c.slot, t, ChipOf(t));
    ResetWrite(family, t, a1, ChipOf(c.slot));
    MovedOn(c.slot, t, FlashWrites(t, [(a1, 0xF0)]), ChipOf(t), ChipOf(c.slot));
    StillProbing(family, c, d.(slot := FlashWrites(d.slot, [(a1, 0xF0)])));
  }

  lemma AnsweredStill(family: Family, c: Core, d: Core, a1: u32, a2: u32)
    requires Probing(family, c) && Moved(c.slot, d.slot, ChipOf(c.slot))
    ensures d.slot.Valid() && Answered(family, d.slot, a1, a2) == Answered(family, c.slot, a1, a2)
    ensures ChipOf(d.slot) == ChipOf(c.slot)
  {
    ShownWhen(family, c.slot, d.slot, ChipOf(c.slot));
  }

  /** None of the first `n` pairs is answered with anything but what the cart shows anyway. */
  predicate Unanswered(family: Family, s: Slot, n: nat)
    requires s.Valid() && n <= |Variants(family)|
  {
    forall i :: 0 <= i < n ==> Answered(family, s, Variants(family)[i].0, Variants(family)[i].1) == Shown(s)
  }

  lemma ReportedAt(family: Family, s: Slot, i: nat)
    requires s.Valid() && i < |Variants(family)|
    requires Answered(family, s, Variants(family)[i].0, Variants(family)[i].1) != Shown(s)
    ensures Reported(family, s) == Some(Answered(family, s, Variants(family)[i].0, Variants(family)[i].1))
  {
    hide Shown, IdBytes;
  }

  lemma ReportedNone(family: Family, s: Slot)
    requires s.Valid() && Unanswered(family, s, |Variants(family)|)
    ensures Reported(family, s) == None
  {
    hide Shown, IdBytes;
  }

  /** All pairs of one strobe pin; stops at the first one that is answered. */
  method ProbePin(dev: GbxCart, family: Family, pin: u32, snapshot: seq<byte>)
    returns (r: Result<Option<seq<byte>>, DeviceError>)
    requires dev.io.Ready() && dev.io.out == [] && Probing(family, dev.io.CoreValue())
    requires snapshot == Shown(dev.io.SlotValue())
    modifies dev.io.Repr()
    ensures dev.io.Ready() && dev.io.inStep == old(dev.io.inStep)
    ensures r.Err? ==> dev.io.Lossy()
    ensures r.Ok? ==>
      && dev.io.out == [] && r.value == Reported(family, old(dev.io.SlotValue()))
      && Probing(family, dev.io.CoreValue())
      && Moved(old(dev.io.SlotValue()), dev.io.SlotValue(), ChipOf(old(dev.io.SlotValue())))
      && dev.io.CoreValue().Get(VAR_FLASH_WE_PIN) == pin
  {
    hide SimGbxCart.Ready, SimGbxCart.Repr, SimGbxCart.CartRepr, Shown, Answered, Moved, Reported, Probeable;
    ghost var c := dev.io.CoreValue();
    PinSet(family, c, pin);
    var a := dev.SetVariable(VAR_FLASH_WE_PIN, pin);
    if a.Err? {
      return Err(a.error);
    }
    var variants := Variants(family);
    for i := 0 to |variants|
      invariant dev.io.Ready() && dev.io.inStep == old(dev.io.inStep) && dev.io.out == []
      invariant Probing(family, dev.io.CoreValue()) && Moved(c.slot, dev.io.SlotValue(), ChipOf(c.slot))
      invariant Unanswered(family, c.slot, i) && dev.io.CoreValue().Get(VAR_FLASH_WE_PIN) == pin
    {
      ghost var d := dev.io.CoreValue();
      var (a1, a2) := variants[i];
      AnsweredStill(family, c, d, a1, a2);
      var id := Attempt(dev, family, a1, a2);
      if id.Err? {
        return Err(id.error);
      }
      MovedOn(c.slot, d.slot, dev.io.SlotValue(), ChipOf(c.slot), ChipOf(d.slot));
      if id.value != snapshot {
        ReportedAt(family, c.slot, i);
        return Ok(Some(id.value));
      }
    }
    ReportedNone(family, c.slot);
    r := Ok(None);
  }

  lemma PinSet(family: Family, c: Core, pin: u32)
    requires Probing(family, c)
    ensures var d := SetVar(c, VAR_FLASH_WE_PIN, pin);
            Probing(family, d) && Moved(c.slot, d.slot, ChipOf(c.slot))
  {
  }

  /** The cart in its family's mode. */
  function Entered(family: Family, c: Core): Core {
    if family == DmgFamily then DmgMode(c) else AgbMode(c)
  }

  lemma EnteredProbing(family: Family, c: Core)
    requires c.Valid() && Probeable(family, c.slot)
    ensures var d := Entered(family, c);
            && Probing(family, d)
            && Shown(d.slot) == Shown(c.slot) && Reported(family, d.slot) == Reported(family, c.slot)
            && ChipOf(d.slot) == ChipOf(c.slot) && SameKind(c.slot, d.slot)
            && Showing(family, d, Shown(c.slot))
  {
  }

  /**
   Probe the cart's flash ID: the answer of a chip that listens to one of the pairs of unlock
   addresses, unless the cart shows those bytes anyway. The chip is left as it was.
   */
  method ProbeFlashId(dev: GbxCart, family: Family) returns (r: Result<Option<seq<byte>>, DeviceError>)
    requires dev.io.Ready() && dev.io.out == [] && Probeable(family, dev.io.SlotValue())
    modifies dev.io.Repr()
    ensures dev.io.Ready() && dev.io.inStep == old(dev.io.inStep)
    ensures r.Err? ==> dev.io.Lossy()
    ensures r.Ok? ==>
      && dev.io.out == [] && r.value == Reported(family, old(dev.io.SlotValue()))
      && Probing(family, dev.io.CoreValue())
      && ChipOf(dev.io.SlotValue()) == ChipOf(old(dev.io.SlotValue()))
      && SameKind(old(dev.io.SlotValue()), dev.io.SlotValue())
      && dev.io.CoreValue().Get(VAR_FLASH_WE_PIN) == (if r.value.Some? || family == AgbFamily then 1 else 2)
  {
    hide SimGbxCart.Ready, SimGbxCart.Repr, SimGbxCart.CartRepr, Shown, Reported, Probing, Showing, Probeable;
    ghost var s := dev.io.SlotValue();
    EnteredProbing(family, dev.io.CoreValue());
    var a;
    if family == DmgFamily {
      a := dev.EnterDmgMode();
    } else {
      a := dev.EnterAgbMode();
    }
    if a.Err? {
      return Err(a.error);
    }
    ghost var c := dev.io.CoreValue();
    var snapshot := ReadIdBytes(dev, family, Shown(s));
    if snapshot.Err? {
      return Err(snapshot.error);
    }
    Reread(family, c, dev.io.CoreValue());
    r := ProbePin(dev, family, 1, snapshot.value);
    if r.Err? || r.value.Some? || family == AgbFamily {
      if r.Ok? {
        MovedKind(c.slot, dev.io.SlotValue(), ChipOf(c.slot));
      }
      return;
    }
    ghost var d := dev.io.CoreValue();
    ReportedStill(family, c, d);
    r := ProbePin(dev, family, 2, snapshot.value);
    if r.Ok? {
      MovedOn(c.slot, d.slot, dev.io.SlotValue(), ChipOf(c.slot), ChipOf(d.slot));
      MovedKind(c.slot, dev.io.SlotValue(), ChipOf(c.slot));
    }
  }

  lemma Reread(family: Family, c: Core, d: Core)
    requires Probing(family, c) && Tuned(c, d)
    ensures Probing(family, d) && d.slot == c.slot
  {
  }

  lemma MovedKind(s: Slot, t: Slot, c: Option<Chip>)
    requires Moved(s, t, c)
    ensures SameKind(s, t) && ChipOf(t) == c
  {
  }

  lemma ReportedStill(family: Family, c: Core, d: Core)
    requires Probing(family, c) && Moved(c.slot, d.slot, ChipOf(c.slot))
    ensures d.slot.Valid() && Shown(d.slot) == Shown(c.slot) && Reported(family, d.slot) == Reported(family, c.slot)
    ensures ChipOf(d.slot) == ChipOf(c.slot)
  {
    ShownWhen(family, c.slot, d.slot, ChipOf(c.slot));
  }

  // --- Writing to a freshly detected cart -----------------------------------------------------------

  /** A cart of the table's `k`th kind, big enough and idle. */
  predicate TableCart(k: nat, s: Slot) {
    && k < |AmdProfiles()| && ChipOf(s).Some? && Probeable(AmdProfiles()[k].family, s)
    && var p, c := AmdProfiles()[k], ChipOf(s).value;
       && c.unlock1 == ChipAddress(p.family, p.unlock1) && c.unlock2 == ChipAddress(p.family, p.unlock2)
       && (p.sectorSize > 0 ==> c.sectorSize == p.sectorSize) && p.maxSize <= |c.data| && c.busyPolls == 0
       && Table()[k].Matches(p.family, IdBytes(c))
  }

  /** The table's SST entry: its unlock addresses lie in the bank registers. */
  const SST: nat := 2

  /**
   A cart of the table is recognised, as what it is, exactly when it is not the SST one and does not
   already hold its own ID in its first eight bytes.
   */
  lemma RecognisedExactly(k: nat, s: Slot)
    requires TableCart(k, s)
    ensures var family := AmdProfiles()[k].family;
            && (Reported(family, s).Some? <==> k != SST && IdBytes(ChipOf(s).value) != Shown(s))
            && (Reported(family, s).Some? ==>
                  FirstMatch(Table(), family, Reported(family, s).value) == Some(Table()[k])
                  && Table()[k] == AmdEntry(AmdProfiles()[k], Table()[k].ids))
  {
    hide Shown, IdBytes, FirstMatch;
    var p, c := AmdProfiles()[k], ChipOf(s).value;
    var v := Variants(p.family);
    if k != SST {
      var i := if p.unlock1 == 0x555 then 0 else 1;
      assert Listens(p.family, c, v[i].0, v[i].1);
      assert Heard(p.family, c, |v|);
    }
    if Reported(p.family, s).Some? {
      LookupFinds(k, p.family, IdBytes(c));
    }
  }

  /** A recognised cart, probed, is ready to be flashed with its profile. */
  lemma ProbedReads(k: nat, s: Slot, c: Core)
    requires TableCart(k, s) && k != SST && Probing(AmdProfiles()[k].family, c)
    requires ChipOf(c.slot) == ChipOf(s) && SameKind(s, c.slot)
    ensures Reading(AmdProfiles()[k], c) && Quieted(c.slot) && Sound(AmdProfiles()[k])
  {
    ProfilesSound();
  }

  lemma TableFacts(k: nat, s: Slot)
    requires TableCart(k, s)
    ensures k < |AmdProfiles()| && Probeable(AmdProfiles()[k].family, s)
    ensures ChipOf(s).Some? && AmdProfiles()[k].maxSize <= |ChipOf(s).value.data|
  {
  }

  /** Probe the cart, look its profile up and flash it. */
  method FlashDetected(dev: GbxCart, family: Family, ghost k: nat, rom: seq<byte>, patience: nat)
    returns (r: Result<(), DeviceError>)
    requires dev.io.Ready() && dev.io.out == [] && TableCart(k, dev.io.SlotValue()) && family == AmdProfiles()[k].family
    requires dev.crc == dev.io.crc && |dev.header| >= LOGO_END && 0 < |rom| < 0x1_0000_0000
    modifies dev.io.Repr()
    ensures dev.io.inStep == old(dev.io.inStep)
    ensures var p, s := AmdProfiles()[k], old(dev.io.SlotValue());
            var known := k != SST && IdBytes(ChipOf(s).value) != Shown(s);
            && (!known && !dev.io.Lossy() ==>
                  r == Err(NotFlashable) && ChipOf(dev.io.SlotValue()) == ChipOf(s))
            && (r.Ok? ==> known && |rom| <= p.maxSize)
            && (!dev.io.Lossy() && patience >= 2 ==>
                  (r.Ok? <==> known && |rom| <= p.maxSize && Verifiable(family, RoundUp(|rom|, GroupSize(p)))))
            && (r.Ok? ==>
                  && ChipOf(dev.io.SlotValue()).Some?
                  && ChipOf(dev.io.SlotValue()).value.data == FlashResult(p, ChipOf(s).value.data, rom))
  {
    hide SimGbxCart.Ready, SimGbxCart.Repr, SimGbxCart.CartRepr, Shown, IdBytes, Reported, Probing, Probeable, Reading,
      FlashResult, Verifiable, FirstMatch, Sound, Quieted, AmdProfiles, Table, TableCart, SameKind, Paused, Parked,
      StuckOpen, GroupSize, RoundUp, Device.Swallows;
    ghost var s := dev.io.SlotValue();
    TableFacts(k, s);
    RecognisedExactly(k, s);
    var id := ProbeFlashId(dev, family);
    if id.Err? {
      return Err(id.error);
    }
    var profile: Option<FlashProfile> := None;
    if id.value.Some? {
      var entry := FirstMatch(Table(), family, id.value.value);
      if entry.Some? && entry.value.AmdEntry? {
        profile := Some(entry.value.profile);
      }
      ProbedReads(k, s, dev.io.CoreValue());
    }
    r := FlashRom.FlashRom(dev, profile, rom, patience);
  }
}
