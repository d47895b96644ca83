/**
 Reading and writing battery RAM. What a write stores is a fold over RAM banks, what a read loads
 is a walk over them, and the two cancel for as many banks as the mapper's plan can tell apart.
 Every method also says which answers it asks for, so that a run over a lossy link can be followed.
 */
module DmgSaves {
  import opened Bytes
  import opened Protocol
  import opened Cartridges
  import opened GbxCore
  import opened GbxWire
  import opened GbxLink
  import opened GbxStreams
  import opened SimGbx
  import opened GbxDriver
  import opened DmgDump

  const MBC2_RAM: nat := 0x200
  const SAVE_CHUNK: nat := 0x200

  function RamBankWrites(kind: MbcKind, bank: nat): (w: seq<(nat, byte)>) {
    if kind == KindMbc2 then [] else [(0x4000, (bank % 16) as byte)]
  }

  function RamEnableWrites(kind: MbcKind): (w: seq<(nat, byte)>) {
    if kind == KindMbc1 then [(0x0000, 0x0A), (0x6000, 0x01)] else [(0x0000, 0x0A)]
  }

  function RamDisableWrites(kind: MbcKind): (w: seq<(nat, byte)>) {
    if kind == KindMbc1 then [(0x6000, 0x00), (0x0000, 0x00)] else [(0x0000, 0x00)]
  }

  // --- Values -------------------------------------------------------------------------

  /** The RAM bank that ends up selected when the host asks for `bank`. */
  function BankAt(mbc: SimMbc, bank: nat): nat {
    match mbc
    case Mbc1 => bank % 4
    case Mbc1M => 0
    case Mbc5 => 0
    case _ => bank % 16
  }

  /** How many RAM banks the plan of each mapper can tell apart; the simulated MBC5 banks no RAM. */
  function RamBanks(mbc: SimMbc): nat {
    match mbc
    case Mbc1 => 4
    case Mbc1M => 1
    case Mbc5 => 1
    case Mbc3 => 8
    case _ => 16
  }

  /** Bank `bank` of a save: whole, or what is left of the data. */
  function SaveBank(data: seq<byte>, bank: nat): (s: seq<byte>)
    requires bank * RAM_BANK <= |data|
    ensures |s| <= RAM_BANK
  {
    if (bank + 1) * RAM_BANK <= |data| then data[bank * RAM_BANK..(bank + 1) * RAM_BANK]
    else data[bank * RAM_BANK..]
  }

  /** The number of RAM banks `n` bytes spread over. */
  function BanksOf(n: nat): nat {
    (n + RAM_BANK - 1) / RAM_BANK
  }

  /** The RAM once banks [0, n) of a save have been written through the plan. */
  function Stored(ram: seq<byte>, mbc: SimMbc, data: seq<byte>, n: nat): (r: seq<byte>)
    requires n <= BanksOf(|data|)
    ensures |r| == |ram|
  {
    if n == 0 then ram
    else Spliced(Stored(ram, mbc, data, n - 1), BankAt(mbc, n - 1) * RAM_BANK, SaveBank(data, n - 1))
  }

  function RamAt(ram: seq<byte>, at: nat): byte {
    if at < |ram| then ram[at] else 0xFF
  }

  function RamSlice(ram: seq<byte>, at: nat, n: nat): (s: seq<byte>)
    ensures |s| == n
  {
    seq(n, i requires 0 <= i < n => RamAt(ram, at + i))
  }

  /** What a read of `size` bytes has collected after banks [0, n). */
  function Loaded(ram: seq<byte>, mbc: SimMbc, size: nat, n: nat): (s: seq<byte>)
    requires n <= BanksOf(size)
    ensures |s| == Smaller(n * RAM_BANK, size)
  {
    if n == 0 then []
    else
      Loaded(ram, mbc, size, n - 1)
        + RamSlice(ram, BankAt(mbc, n - 1) * RAM_BANK, Smaller(RAM_BANK, size - (n - 1) * RAM_BANK))
  }

  lemma BankAtItself(mbc: SimMbc, bank: nat)
    requires bank < RamBanks(mbc)
    ensures BankAt(mbc, bank) == bank
  {
  }

  /** `data` over the first `n` cells of `ram`. */
  function Overlaid(ram: seq<byte>, data: seq<byte>, n: nat): (r: seq<byte>)
    requires n <= |data| && n <= |ram|
  {
    data[..n] + ram[n..]
  }

  lemma SplicedOn(ram: seq<byte>, data: seq<byte>, at: nat, m: nat)
    requires at + m <= |data| && at + m <= |ram|
    ensures Spliced(Overlaid(ram, data, at), at, data[at..at + m]) == Overlaid(ram, data, at + m)
  {
  }

  lemma SaveBankIs(data: seq<byte>, n: nat)
    requires n < BanksOf(|data|)
    ensures var at, m := n * RAM_BANK, Smaller(RAM_BANK, |data| - n * RAM_BANK);
            at + m <= |data| && SaveBank(data, n) == data[at..at + m]
            && Smaller((n + 1) * RAM_BANK, |data|) == at + m && Smaller(at, |data|) == at
  {
  }

  lemma {:induction false} StoredAt(ram: seq<byte>, mbc: SimMbc, data: seq<byte>, n: nat)
    requires n <= BanksOf(|data|) && BanksOf(|data|) <= RamBanks(mbc) && |data| <= |ram|
    ensures Stored(ram, mbc, data, n) == Overlaid(ram, data, Smaller(n * RAM_BANK, |data|))
  {
    hide BankAt, RamBanks, SaveBank, Spliced, Overlaid;
    if n == 0 {
      assert Overlaid(ram, data, 0) == ram by {
        NothingOverlaid(ram, data);
      }
    } else {
      StoredAt(ram, mbc, data, n - 1);
      BankAtItself(mbc, n - 1);
      SaveBankIs(data, n - 1);
      var at := (n - 1) * RAM_BANK;
      SplicedOn(ram, data, at, Smaller(RAM_BANK, |data| - at));
    }
  }

  lemma NothingOverlaid(ram: seq<byte>, data: seq<byte>)
    ensures Overlaid(ram, data, 0) == ram
  {
  }

  lemma RamSliceOn(ram: seq<byte>, at: nat, m: nat)
    requires at + m <= |ram|
    ensures ram[..at] + RamSlice(ram, at, m) == ram[..at + m]
  {
    forall i | 0 <= i < m
      ensures RamSlice(ram, at, m)[i] == ram[at + i]
    {
      assert RamSlice(ram, at, m)[i] == RamAt(ram, at + i);
    }
  }

  lemma {:induction false} LoadedAt(ram: seq<byte>, mbc: SimMbc, size: nat, n: nat)
    requires n <= BanksOf(size) && BanksOf(size) <= RamBanks(mbc) && size <= |ram|
    ensures Loaded(ram, mbc, size, n) == ram[..Smaller(n * RAM_BANK, size)]
  {
    hide BankAt, RamBanks, RamSlice;
    if n > 0 {
      LoadedAt(ram, mbc, size, n - 1);
      BankAtItself(mbc, n - 1);
      var at := (n - 1) * RAM_BANK;
      assert Smaller(at, size) == at;
      RamSliceOn(ram, at, Smaller(RAM_BANK, size - at));
    }
  }

  /** Read after write: the save comes back, and the rest of the RAM is as it was. */
  lemma SaveRoundTrip(ram: seq<byte>, mbc: SimMbc, data: seq<byte>)
    requires BanksOf(|data|) <= RamBanks(mbc) && |data| <= |ram|
    ensures var stored := Stored(ram, mbc, data, BanksOf(|data|));
            && Loaded(stored, mbc, |data|, BanksOf(|data|)) == data
            && stored[|data|..] == ram[|data|..]
  {
    hide BankAt, RamBanks, Stored, Loaded;
    var n := BanksOf(|data|);
    assert Smaller(n * RAM_BANK, |data|) == |data|;
    StoredAt(ram, mbc, data, n);
    LoadedAt(Stored(ram, mbc, data, n), mbc, |data|, n);
  }

  /**
   The simulated MBC5 shows one RAM bank whatever is asked for, so a save of several whole banks
   comes back if and only if all its banks are equal to the last one.
   */
  lemma Mbc5SaveExact(ram: seq<byte>, data: seq<byte>, n: nat)
    requires n > 0 && |data| == n * RAM_BANK && |ram| >= RAM_BANK
    ensures BanksOf(|data|) == n
    ensures Loaded(Stored(ram, Mbc5, data, n), Mbc5, |data|, n) == data
        <==> forall b :: 0 <= b < n ==> SaveBank(data, b) == SaveBank(data, n - 1)
  {
    var stored := Stored(ram, Mbc5, data, n);
    var last := SaveBank(data, n - 1);
    assert RamSlice(stored, 0, RAM_BANK) == last;
    Mbc5Loaded(stored, data, n, n, last);
  }

  /** The first `n` banks of `data` are all `last`. */
  predicate AllBanks(data: seq<byte>, n: nat, last: seq<byte>)
    requires n * RAM_BANK <= |data|
  {
    forall b :: 0 <= b < n ==> SaveBank(data, b) == last
  }

  lemma AllBanksOn(data: seq<byte>, n: nat, last: seq<byte>)
    requires 0 < n && n * RAM_BANK <= |data|
    ensures AllBanks(data, n, last) <==> AllBanks(data, n - 1, last) && SaveBank(data, n - 1) == last
  {
  }

  lemma BankJoins(data: seq<byte>, bank: nat)
    requires (bank + 1) * RAM_BANK <= |data|
    ensures data[..(bank + 1) * RAM_BANK] == data[..bank * RAM_BANK] + SaveBank(data, bank)
    ensures |SaveBank(data, bank)| == RAM_BANK
  {
  }

  lemma Mbc5LoadedOn(ram: seq<byte>, size: nat, n: nat)
    requires 0 < n <= BanksOf(size) && n * RAM_BANK <= size
    ensures Loaded(ram, Mbc5, size, n) == Loaded(ram, Mbc5, size, n - 1) + RamSlice(ram, 0, RAM_BANK)
  {
  }

  /** One bank more: the whole is equal when the front is and the last bank is. */
  lemma OneBankMore(whole: seq<byte>, front: seq<byte>, last: seq<byte>, data: seq<byte>, n: nat)
    requires 0 < n && n * RAM_BANK <= |data| && |front| == (n - 1) * RAM_BANK && whole == front + last
    requires front == data[..(n - 1) * RAM_BANK] <==> AllBanks(data, n - 1, last)
    ensures whole == data[..n * RAM_BANK] <==> AllBanks(data, n, last)
  {
    hide AllBanks, SaveBank;
    AllBanksOn(data, n, last);
    BankJoins(data, n - 1);
    SplitEqual(front, last, data[..(n - 1) * RAM_BANK], SaveBank(data, n - 1));
  }

  lemma {:induction false} Mbc5Loaded(ram: seq<byte>, data: seq<byte>, total: nat, n: nat, last: seq<byte>)
    requires n <= total && |data| == total * RAM_BANK && BanksOf(|data|) == total
    requires RamSlice(ram, 0, RAM_BANK) == last
    ensures Loaded(ram, Mbc5, |data|, n) == data[..n * RAM_BANK] <==> AllBanks(data, n, last)
  {
    if n > 0 {
      hide AllBanks, SaveBank, RamSlice, Loaded;
      Mbc5Loaded(ram, data, total, n - 1, last);
      Mbc5LoadedOn(ram, |data|, n);
      OneBankMore(Loaded(ram, Mbc5, |data|, n), Loaded(ram, Mbc5, |data|, n - 1), last, data, n);
    }
  }

  // --- MBC2 ---------------------------------------------------------------------------

  /** MBC2 RAM keeps low nibbles. */
  function NibblesStored(ram: seq<byte>, data: seq<byte>): (r: seq<byte>)
    ensures |r| == |ram|
    ensures forall i :: 0 <= i < |ram| ==> r[i] == if i < |data| then data[i] % 16 else ram[i]
  {
    seq(|ram|, i requires 0 <= i < |ram| => if i < |data| then data[i] % 16 else ram[i])
  }

  /** MBC2 reads show the upper nibble as ones. */
  function NibblesLoaded(ram: seq<byte>): (s: seq<byte>)
    ensures |s| == MBC2_RAM
  {
    seq(MBC2_RAM, i requires 0 <= i < MBC2_RAM => if i < |ram| then 0xF0 + ram[i] % 16 else 0xFF)
  }

  /** An MBC2 save comes back as its low nibbles under 0xF0, padded with 0xFF. */
  lemma Mbc2RoundTrip(ram: seq<byte>, data: seq<byte>, i: nat)
    requires |ram| == MBC2_RAM <= |data| && i < MBC2_RAM
    ensures NibblesLoaded(NibblesStored(ram, data[..MBC2_RAM]))[i] == 0xF0 + data[i] % 16
  {
  }

  // --- The device while RAM is open ---------------------------------------------------

  /** In DMG mode with battery RAM enabled and the mapper set up for RAM banking. */
  predicate Open(c: Core, mbc: SimMbc) {
    && c.Valid() && c.slot.DmgSlot? && Quiet(c.slot) && c.DmgLive()
    && c.Get(VAR_DMG_READ_METHOD) == DMG_READ_METHOD_A15
    && Opened(c.slot.dmg, mbc)
  }

  predicate Opened(c: DmgCart, mbc: SimMbc) {
    && c.ramEnable && c.mbc == mbc
    && (mbc == Mbc1 ==> c.mode == 1) && (mbc == Mbc1M ==> c.mode == 0) && (mbc == Mbc5 ==> c.ramBank == 0)
  }

  /** The clock registers of an MBC3 are not selected. */
  predicate RamSelected(c: DmgCart) {
    c.mbc == Mbc3 ==> c.ramBank < 0x08
  }

  /** Selecting a RAM bank keeps RAM open and reaches the bank `BankAt` names. */
  lemma BankSelected(kind: MbcKind, c: DmgCart, mbc: SimMbc, bank: nat, sent: nat)
    requires c.Valid() && Drives(kind, mbc) && Opened(c, mbc) && sent <= |RamBankWrites(kind, bank)|
    ensures var c1 := Applied(c, RamBankWrites(kind, bank)[..sent]);
            && Opened(c1, mbc) && c1.ram == c.ram && c1.flash == c.flash
            && (sent == |RamBankWrites(kind, bank)| && mbc != Mbc2 && (mbc == Mbc3 ==> bank < 8) ==>
                  ActiveRamBank(c1) == BankAt(mbc, bank) && RamSelected(c1))
  {
    hide Applied, BusWritten, ActiveRamBank, BankAt, RamSelected;
    var w := RamBankWrites(kind, bank);
    if sent == 0 {
      assert w[..0] == [];
      NoWrites(c);
    } else {
      assert w[..1] == w == [w[0]];
      AppliedOne(c, w[0]);
      BankWritten(c, w[0].1);
      if mbc != Mbc3 || bank < 8 {
        BankReached(c, mbc, bank);
      }
    }
  }

  /** The register a RAM bank number goes to selects that bank. */
  lemma BankReached(c: DmgCart, mbc: SimMbc, bank: nat)
    requires c.Valid() && Opened(c, mbc) && mbc != Mbc2 && (mbc != Mbc3 || bank < 8)
    ensures var value := (bank % 16) as byte;
            var c1 := if mbc == Mbc1 || mbc == Mbc1M || mbc == Mbc5 then c.(bankHi := value) else c.(ramBank := value);
            ActiveRamBank(c1) == BankAt(mbc, bank) && RamSelected(c1)
  {
    LowTwoBits(bank);
  }

  lemma LowTwoBits(n: nat)
    ensures n % 16 % 4 == n % 4 && n % 16 % 16 == n % 16 && (n < 8 ==> n % 16 == n)
  {
  }

  /** A write to the RAM bank register. */
  lemma BankWritten(c: DmgCart, value: byte)
    requires c.Valid()
    ensures BusWritten(c, 0x4000, value)
         == if c.mbc == Mbc1 || c.mbc == Mbc1M || c.mbc == Mbc5 then c.(bankHi := value) else c.(ramBank := value)
  {
  }

  /** Bytes written in RAM mode go to the selected bank, one after the other. */
  lemma {:induction false} SramRun(c: Core, mbc: SimMbc, data: seq<byte>)
    requires Open(c, mbc) && mbc != Mbc2 && RamSelected(c.slot.dmg)
    requires c.Get(VAR_DMG_ACCESS_MODE) == DMG_ACCESS_RAM_WRITE && c.Get(VAR_DMG_WRITE_CS_PULSE) == 1
    requires 0xA000 <= c.address && c.address + |data| <= 0xC000
    ensures var at := ActiveRamBank(c.slot.dmg) * RAM_BANK + (c.address - 0xA000);
            SramWrites(c, data)
              == c.(slot := DmgSlot(c.slot.dmg.(ram := Spliced(c.slot.dmg.ram, at, data))),
                    address := c.address + |data|)
  {
    hide SramWrite, Spliced, Open, RamSelected, ActiveRamBank;
    OpenIsDmg(c, mbc);
    var at := ActiveRamBank(c.slot.dmg) * RAM_BANK + (c.address - 0xA000);
    if data == [] {
      SplicedNone(c.slot.dmg.ram, at);
    } else {
      var m := |data| - 1;
      SramRun(c, mbc, data[..m]);
      var ram := Spliced(c.slot.dmg.ram, at, data[..m]);
      var c1 := c.(slot := DmgSlot(c.slot.dmg.(ram := ram)), address := c.address + m);
      OpenStill(c, c1, mbc);
      SramOne(c1, mbc, data[m]);
      SplicedOne(c.slot.dmg.ram, at, data);
    }
  }

  lemma SplicedNone(ram: seq<byte>, at: nat)
    ensures Spliced(ram, at, []) == ram
  {
  }

  lemma SplicedOne(ram: seq<byte>, at: nat, data: seq<byte>)
    requires data != []
    ensures Spliced(ram, at, data)
         == var m := |data| - 1;
            var before := Spliced(ram, at, data[..m]);
            if at + m < |before| then before[at + m := data[m]] else before
  {
  }

  /** New RAM contents and a moved cursor leave RAM open. */
  lemma OpenStill(c: Core, c1: Core, mbc: SimMbc)
    requires Open(c, mbc) && c1.slot.DmgSlot?
    requires c1 == c.(slot := DmgSlot(c.slot.dmg.(ram := c1.slot.dmg.ram)), address := c1.address)
    ensures Open(c1, mbc) && c1.Valid() && ActiveRamBank(c1.slot.dmg) == ActiveRamBank(c.slot.dmg)
    ensures RamSelected(c1.slot.dmg) == RamSelected(c.slot.dmg)
  {
  }

  lemma SramOne(c: Core, mbc: SimMbc, value: byte)
    requires Open(c, mbc) && mbc != Mbc2 && RamSelected(c.slot.dmg)
    requires c.Get(VAR_DMG_ACCESS_MODE) == DMG_ACCESS_RAM_WRITE && c.Get(VAR_DMG_WRITE_CS_PULSE) == 1
    requires 0xA000 <= c.address < 0xC000
    ensures var at := ActiveRamBank(c.slot.dmg) * RAM_BANK + (c.address - 0xA000);
            var ram := c.slot.dmg.ram;
            SramWrite(c, value)
              == c.(slot := DmgSlot(c.slot.dmg.(ram := if at < |ram| then ram[at := value] else ram)),
                    address := c.address + 1)
  {
  }

  lemma SramNibble(c: Core, i: nat, value: byte)
    requires Open(c, Mbc2) && i < MBC2_RAM && c.address == 0xA000 + i
    requires c.Get(VAR_DMG_ACCESS_MODE) == DMG_ACCESS_RAM_WRITE && c.Get(VAR_DMG_WRITE_CS_PULSE) == 1
    ensures var ram := c.slot.dmg.ram;
            SramWrite(c, value)
              == c.(slot := DmgSlot(c.slot.dmg.(ram := if i < |ram| then ram[i := value % 16] else ram)),
                    address := c.address + 1)
  {
  }

  lemma {:induction false} SramNibbles(c: Core, data: seq<byte>)
    requires Open(c, Mbc2) && c.address == 0xA000 && |data| <= MBC2_RAM
    requires c.Get(VAR_DMG_ACCESS_MODE) == DMG_ACCESS_RAM_WRITE && c.Get(VAR_DMG_WRITE_CS_PULSE) == 1
    ensures SramWrites(c, data)
         == c.(slot := DmgSlot(c.slot.dmg.(ram := NibblesStored(c.slot.dmg.ram, data))),
               address := c.address + |data|)
  {
    hide SramWrite;
    if data == [] {
      assert NibblesStored(c.slot.dmg.ram, data) == c.slot.dmg.ram;
    } else {
      var m := |data| - 1;
      SramNibbles(c, data[..m]);
      var ram := NibblesStored(c.slot.dmg.ram, data[..m]);
      SramNibble(c.(slot := DmgSlot(c.slot.dmg.(ram := ram)), address := c.address + m), m, data[m]);
      assert (if m < |ram| then ram[m := data[m] % 16] else ram) == NibblesStored(c.slot.dmg.ram, data);
    }
  }

  lemma SramOneKeepsOpen(c: Core, mbc: SimMbc, value: byte)
    requires Open(c, mbc) && 0xA000 <= c.address < 0xC000
    ensures Open(SramWrite(c, value), mbc) && SramWrite(c, value).vars == c.vars
    ensures SramWrite(c, value).address == c.address + 1
    ensures RamSelected(c.slot.dmg) ==> RamSelected(SramWrite(c, value).slot.dmg)
    ensures ActiveRamBank(SramWrite(c, value).slot.dmg) == ActiveRamBank(c.slot.dmg)
  {
  }

  /** Whatever is written into the RAM window, RAM stays open on the same bank. */
  lemma {:induction false} SramKeepsOpen(c: Core, mbc: SimMbc, data: seq<byte>)
    requires Open(c, mbc) && 0xA000 <= c.address && c.address + |data| <= 0xC000
    ensures Open(SramWrites(c, data), mbc) && SramWrites(c, data).vars == c.vars
    ensures SramWrites(c, data).address == c.address + |data|
    ensures RamSelected(c.slot.dmg) ==> RamSelected(SramWrites(c, data).slot.dmg)
    ensures ActiveRamBank(SramWrites(c, data).slot.dmg) == ActiveRamBank(c.slot.dmg)
  {
    hide SramWrite, Open, RamSelected, ActiveRamBank;
    if data != [] {
      var m := |data| - 1;
      OpenIsDmg(c, mbc);
      SramKeepsOpen(c, mbc, data[..m]);
      OpenIsDmg(SramWrites(c, data[..m]), mbc);
      SramOneKeepsOpen(SramWrites(c, data[..m]), mbc, data[m]);
      OpenIsDmg(SramWrites(c, data), mbc);
    }
  }

  lemma OpenIsDmg(c: Core, mbc: SimMbc)
    requires Open(c, mbc)
    ensures c.Valid() && c.slot.DmgSlot?
  {
  }

  // --- Writing ------------------------------------------------------------------------

  /** One opcode-led chunk of save bytes and its status byte. */
  method WriteSaveChunk(dev: GbxCart, chunk: seq<byte>) returns (r: Result<(), DeviceError>)
    requires dev.io.Ready() && 0 < |chunk| == dev.io.CoreValue().TransferSize()
    modifies dev.io.Repr()
    ensures dev.io.Ready() && dev.io.inStep == old(dev.io.inStep)
    ensures dev.io.CoreValue() == SramWrites(old(dev.io.CoreValue()), chunk)
    ensures Acked(dev.io, old(dev.io.asked), old(dev.io.out), r.Ok?)
  {
    hide SramWrites, Received, Acked, SimGbxCart.CartRepr;
    OpcodeThenData(dev.io.Value(), CMD_DMG_CART_WRITE_SRAM);
    dev.io.WriteAll([CMD_DMG_CART_WRITE_SRAM], false);
    RawSramData(dev.io.Value(), chunk);
    dev.io.WriteAll(chunk, true);
    r := dev.TakeAck();
  }

  /** Access modes, pulses, sizes and addresses leave RAM open. */
  lemma OpenSet(c: Core, mbc: SimMbc, v: Var, value: u32)
    requires Open(c, mbc) && v != VAR_CART_MODE && v != VAR_DMG_READ_METHOD
    ensures Open(SetVar(c, v, value), mbc) && SetVar(c, v, value).slot == c.slot
  {
  }

  /** Set one such variable. */
  method SetOpen(dev: GbxCart, ghost mbc: SimMbc, v: Var, value: u32) returns (r: Result<(), DeviceError>)
    requires dev.io.Ready() && dev.io.cart.Dmg? && Open(dev.io.CoreValue(), mbc) && dev.io.out == []
    requires v != VAR_CART_MODE && v != VAR_DMG_READ_METHOD
    modifies dev.io.Repr()
    ensures dev.io.Ready() && dev.io.inStep == old(dev.io.inStep)
    ensures Open(dev.io.CoreValue(), mbc) && dev.io.CoreValue() == SetVar(old(dev.io.CoreValue()), v, value)
    ensures dev.io.SlotValue() == old(dev.io.SlotValue())
    ensures dev.io.Ran(old(dev.io.asked), [Ack], r.Ok?) && if r.Ok? then dev.io.out == [] else dev.io.Lossy()
  {
    hide SimGbxCart.Ready, SimGbxCart.Repr, SimGbxCart.CartRepr, Open, SetVar, Link.Ran;
    OpenSet(dev.io.CoreValue(), mbc, v, value);
    r := dev.SetVariable(v, value);
  }

  /** Set up the RAM window for writing: access mode, pulse, address, chunk size. */
  method AimForWriting(dev: GbxCart, ghost mbc: SimMbc) returns (r: Result<(), DeviceError>)
    requires dev.io.Ready() && dev.io.cart.Dmg? && Open(dev.io.CoreValue(), mbc) && dev.io.out == []
    modifies dev.io.Repr()
    ensures dev.io.Ready() && dev.io.inStep == old(dev.io.inStep)
    ensures dev.io.SlotValue() == old(dev.io.SlotValue()) && Open(dev.io.CoreValue(), mbc)
    ensures if r.Err? then dev.io.Lossy() else
      && dev.io.out == [] && WritingFrom(dev.io.CoreValue(), 0)
    ensures dev.io.Ran(old(dev.io.asked), Acks(4), r.Ok?)
  {
    hide SimGbxCart.Ready, SimGbxCart.Repr, SimGbxCart.CartRepr, Open, Link.Ran, Link.Clear;
    ghost var link, from := dev.io.link, dev.io.asked;
    NothingAsked(link, from);
    r := SetOpen(dev, mbc, VAR_DMG_ACCESS_MODE, DMG_ACCESS_RAM_WRITE);
    RanNext(link, from, 0, Ack, Acks(4), r.Ok?, dev.io.asked, dev.io.out);
    if r.Err? {
      return;
    }
    r := SetOpen(dev, mbc, VAR_DMG_WRITE_CS_PULSE, 1);
    RanNext(link, from, 1, Ack, Acks(4), r.Ok?, dev.io.asked, dev.io.out);
    if r.Err? {
      return;
    }
    r := SetOpen(dev, mbc, VAR_ADDRESS, 0xA000);
    RanNext(link, from, 2, Ack, Acks(4), r.Ok?, dev.io.asked, dev.io.out);
    if r.Err? {
      return;
    }
    r := SetOpen(dev, mbc, VAR_TRANSFER_SIZE, SAVE_CHUNK as u32);
    RanNext(link, from, 3, Ack, Acks(4), r.Ok?, dev.io.asked, dev.io.out);
  }

  predicate WritingFrom(c: Core, written: nat) {
    && c.Get(VAR_DMG_ACCESS_MODE) == DMG_ACCESS_RAM_WRITE && c.Get(VAR_DMG_WRITE_CS_PULSE) == 1
    && c.TransferSize() == SAVE_CHUNK && c.address == 0xA000 + written
  }

  /** The cart after `data` has gone to the selected RAM bank. */
  function BankStored(c: DmgCart, data: seq<byte>): DmgCart {
    if c.mbc == Mbc2 then c.(ram := NibblesStored(c.ram, data))
    else c.(ram := Spliced(c.ram, ActiveRamBank(c) * RAM_BANK, data))
  }

  /** One more chunk of a bank. */
  lemma ChunkStored(c: Core, mbc: SimMbc, c0: DmgCart, data: seq<byte>, chunk: seq<byte>)
    requires Open(c, mbc) && WritingFrom(c, |data|) && |data| + |chunk| <= RAM_BANK
    requires RamSelected(c0) && c0.mbc == mbc && c.slot.dmg == BankStored(c0, data)
    requires mbc == Mbc2 ==> data == [] && |chunk| <= MBC2_RAM
    ensures SramWrites(c, chunk).slot == DmgSlot(BankStored(c0, data + chunk))
  {
    hide Open;
    OpenIsDmg(c, mbc);
    if mbc == Mbc2 {
      NibbleChunkStored(c, c0, chunk);
      assert data + chunk == chunk;
    } else {
      PlainChunkStored(c, mbc, c0, data, chunk);
    }
  }

  lemma PlainChunkStored(c: Core, mbc: SimMbc, c0: DmgCart, data: seq<byte>, chunk: seq<byte>)
    requires Open(c, mbc) && WritingFrom(c, |data|) && |data| + |chunk| <= RAM_BANK
    requires RamSelected(c0) && c0.mbc == mbc != Mbc2 && c.slot.dmg == BankStored(c0, data)
    ensures SramWrites(c, chunk).slot == DmgSlot(BankStored(c0, data + chunk))
  {
    hide SramWrites, Spliced, NibblesStored;
    SramRun(c, mbc, chunk);
    SplicedTwice(c0.ram, ActiveRamBank(c0) * RAM_BANK, data, chunk);
  }

  lemma NibbleChunkStored(c: Core, c0: DmgCart, chunk: seq<byte>)
    requires Open(c, Mbc2) && WritingFrom(c, 0) && |chunk| <= MBC2_RAM
    requires c0.mbc == Mbc2 && c.slot.dmg == BankStored(c0, [])
    ensures SramWrites(c, chunk).slot == DmgSlot(BankStored(c0, chunk))
  {
    hide SramWrites, Spliced;
    SramNibbles(c, chunk);
    assert NibblesStored(c0.ram, []) == c0.ram;
  }

  /** The next chunk of a bank, after `written`. */
  method WriteNextChunk(dev: GbxCart, ghost mbc: SimMbc, ghost c0: DmgCart, ghost written: seq<byte>, chunk: seq<byte>)
    returns (r: Result<(), DeviceError>)
    requires dev.io.Ready() && dev.io.cart.Dmg? && dev.io.out == []
    requires Open(dev.io.CoreValue(), mbc) && WritingFrom(dev.io.CoreValue(), |written|)
    requires |chunk| == SAVE_CHUNK && |written| + |chunk| <= RAM_BANK
    requires c0.mbc == mbc && (mbc == Mbc2 ==> written == [])
    requires RamSelected(c0) ==> dev.io.SlotValue() == DmgSlot(BankStored(c0, written))
    modifies dev.io.Repr()
    ensures dev.io.Ready() && dev.io.inStep == old(dev.io.inStep)
    ensures Open(dev.io.CoreValue(), mbc) && WritingFrom(dev.io.CoreValue(), |written| + |chunk|)
    ensures dev.io.Ran(old(dev.io.asked), Acks(1), r.Ok?) && if r.Ok? then dev.io.out == [] else dev.io.Lossy()
    ensures RamSelected(c0) ==> dev.io.SlotValue() == DmgSlot(BankStored(c0, written + chunk))
  {
    hide SimGbxCart.Ready, SimGbxCart.Repr, SimGbxCart.CartRepr, Open, SramWrites, RamSelected, BankStored,
      Link.Ran, Link.Clear;
    SramKeepsOpen(dev.io.CoreValue(), mbc, chunk);
    if RamSelected(c0) {
      ChunkStored(dev.io.CoreValue(), mbc, c0, written, chunk);
    }
    r := WriteSaveChunk(dev, chunk);
    assert [Ack] == Acks(1);
  }

  /** Write one bank's worth of a save in 512-byte chunks. */
  method WriteBankData(dev: GbxCart, ghost mbc: SimMbc, data: seq<byte>) returns (r: Result<(), DeviceError>)
    requires dev.io.Ready() && dev.io.cart.Dmg? && Open(dev.io.CoreValue(), mbc) && dev.io.out == []
    requires |data| <= RAM_BANK && |data| % SAVE_CHUNK == 0 && (mbc == Mbc2 ==> |data| <= MBC2_RAM)
    modifies dev.io.Repr()
    ensures dev.io.Ready() && dev.io.inStep == old(dev.io.inStep)
    ensures Open(dev.io.CoreValue(), mbc)
    ensures if r.Err? then dev.io.Lossy() else
      && dev.io.out == []
      && (RamSelected(old(dev.io.SlotValue()).dmg) ==>
            dev.io.SlotValue().dmg == BankStored(old(dev.io.SlotValue()).dmg, data))
    ensures dev.io.Ran(old(dev.io.asked), Acks(4 + |data| / SAVE_CHUNK), r.Ok?)
  {
    hide SimGbxCart.Ready, SimGbxCart.Repr, SimGbxCart.CartRepr, Open, SramWrites, RamSelected, BankStored,
      Link.Ran, Link.Clear;
    ghost var c0 := dev.io.SlotValue().dmg;
    OpenMbc(dev.io.CoreValue(), mbc);
    ghost var link, from, total := dev.io.link, dev.io.asked, 4 + |data| / SAVE_CHUNK;
    RanNothing(link, from);
    assert Acks(0) == [];
    r := AimForWriting(dev, mbc);
    AcksOn(link, from, 0, from, 4, total, r.Ok?, dev.io.asked, dev.io.out);
    if r.Err? {
      return;
    }
    NothingStored(c0);
    var i := 0;
    while i < |data|
      invariant i <= |data| && i % SAVE_CHUNK == 0 && r.Ok?
      invariant dev.io.Ready() && dev.io.inStep == old(dev.io.inStep)
      invariant Open(dev.io.CoreValue(), mbc) && WritingFrom(dev.io.CoreValue(), i)
      invariant dev.io.out == [] && dev.io.Ran(from, Acks(4 + i / SAVE_CHUNK), true)
      invariant RamSelected(c0) ==> dev.io.SlotValue() == DmgSlot(BankStored(c0, data[..i]))
    {
      var chunk := data[i..i + SAVE_CHUNK];
      assert data[..i] + chunk == data[..i + SAVE_CHUNK];
      ghost var mid := dev.io.asked;
      r := WriteNextChunk(dev, mbc, c0, data[..i], chunk);
      AcksOn(link, from, 4 + i / SAVE_CHUNK, mid, 1, total, r.Ok?, dev.io.asked, dev.io.out);
      if r.Err? {
        return;
      }
      i := i + SAVE_CHUNK;
    }
    assert data[..i] == data;
  }

  lemma NothingStored(c: DmgCart)
    ensures BankStored(c, []) == c
  {
    assert NibblesStored(c.ram, []) == c.ram;
    assert Spliced(c.ram, ActiveRamBank(c) * RAM_BANK, []) == c.ram;
  }

  lemma OpenMbc(c: Core, mbc: SimMbc)
    requires Open(c, mbc)
    ensures c.slot.DmgSlot? && c.slot.dmg.mbc == mbc
  {
  }

  /** What a save write leaves in RAM. */
  function SaveStored(ram: seq<byte>, mbc: SimMbc, data: seq<byte>): seq<byte> {
    if mbc == Mbc2 then NibblesStored(ram, data[..Smaller(MBC2_RAM, |data|)])
    else Stored(ram, mbc, data, BanksOf(|data|))
  }

  /** No bank of the save falls on an MBC3's clock registers. */
  predicate ClockFree(mbc: SimMbc, size: nat) {
    mbc == Mbc3 ==> BanksOf(size) <= 8
  }

  /** Select a RAM bank and write it. */
  method WriteBank(dev: GbxCart, kind: MbcKind, ghost mbc: SimMbc, bank: nat, data: seq<byte>)
    returns (r: Result<(), DeviceError>)
    requires dev.io.Ready() && dev.io.cart.Dmg? && Open(dev.io.CoreValue(), mbc) && dev.io.out == []
    requires |data| <= RAM_BANK && |data| % SAVE_CHUNK == 0 && Drives(kind, mbc) && mbc != Mbc2
    modifies dev.io.Repr()
    ensures dev.io.Ready() && dev.io.inStep == old(dev.io.inStep)
    ensures Open(dev.io.CoreValue(), mbc)
    ensures if r.Err? then dev.io.Lossy() else
      && dev.io.out == []
      && ((mbc == Mbc3 ==> bank < 8) ==>
            dev.io.SlotValue().dmg.ram
              == Spliced(old(dev.io.SlotValue()).dmg.ram, BankAt(mbc, bank) * RAM_BANK, data))
    ensures dev.io.Ran(old(dev.io.asked), Acks(BankAcks(kind, |data|)), r.Ok?)
  {
    hide SimGbxCart.Ready, SimGbxCart.Repr, SimGbxCart.CartRepr, Opened, RamSelected, ActiveRamBank, BankAt, Spliced,
      NibblesStored, Link.Ran, Link.Clear;
    ghost var link, from := dev.io.link, dev.io.asked;
    ghost var select, rest := |RamBankWrites(kind, bank)|, 4 + |data| / SAVE_CHUNK;
    r := SelectRamBank(dev, kind, mbc, bank);
    assert Acks(select) + Acks(rest) == Acks(BankAcks(kind, |data|));
    RanFirst(link, from, Acks(select), Acks(rest), r.Ok?, dev.io.asked, dev.io.out);
    if r.Err? {
      return;
    }
    r := WriteBankData(dev, mbc, data);
    RanThen(link, from, Acks(select), Acks(rest), r.Ok?, dev.io.asked, dev.io.out);
  }

  /** How many status bytes writing a bank of `n` bytes takes. */
  function BankAcks(kind: MbcKind, n: nat): nat {
    |RamBankWrites(kind, 0)| + 4 + n / SAVE_CHUNK
  }

  /** How many status bytes writing the first `n` banks of a save takes. */
  function SaveAcks(kind: MbcKind, data: seq<byte>, n: nat): nat
    requires n <= BanksOf(|data|)
  {
    if n == 0 then 0 else SaveAcks(kind, data, n - 1) + BankAcks(kind, |SaveBank(data, n - 1)|)
  }

  lemma {:induction false} SaveAcksRise(kind: MbcKind, data: seq<byte>, n: nat, m: nat)
    requires n <= m <= BanksOf(|data|)
    ensures SaveAcks(kind, data, n) <= SaveAcks(kind, data, m)
    decreases m
  {
    if n < m {
      SaveAcksRise(kind, data, n, m - 1);
    }
  }

  /** The banks of a save, in order, into open RAM. */
  method WriteBanks(dev: GbxCart, kind: MbcKind, ghost mbc: SimMbc, data: seq<byte>)
    returns (r: Result<(), DeviceError>)
    requires dev.io.Ready() && dev.io.cart.Dmg? && Open(dev.io.CoreValue(), mbc) && dev.io.out == []
    requires |data| % SAVE_CHUNK == 0 && Drives(kind, mbc) && mbc != Mbc2
    modifies dev.io.Repr()
    ensures dev.io.Ready() && dev.io.inStep == old(dev.io.inStep)
    ensures Open(dev.io.CoreValue(), mbc)
    ensures if r.Err? then dev.io.Lossy() else
      && dev.io.out == []
      && (ClockFree(mbc, |data|) ==>
            dev.io.SlotValue().dmg.ram == Stored(old(dev.io.SlotValue()).dmg.ram, mbc, data, BanksOf(|data|)))
    ensures dev.io.Ran(old(dev.io.asked), Acks(SaveAcks(kind, data, BanksOf(|data|))), r.Ok?)
  {
    hide SimGbxCart.Ready, SimGbxCart.Repr, SimGbxCart.CartRepr, Open, Opened, RamSelected, Applied, Spliced, SaveBank,
      BankAcks, BanksOf, Stored, SaveAcks, ClockFree, Link.Ran;
    ghost var link, from, total := dev.io.link, dev.io.asked, SaveAcks(kind, data, BanksOf(|data|));
    RanNothing(link, from);
    ghost var ram := dev.io.SlotValue().dmg.ram;
    NothingWritten(kind, ram, mbc, data);
    r := Ok(());
    var bank := 0;
    while bank < BanksOf(|data|)
      invariant bank <= BanksOf(|data|) && r.Ok?
      invariant dev.io.Ready() && dev.io.inStep == old(dev.io.inStep)
      invariant Open(dev.io.CoreValue(), mbc) && dev.io.out == []
      invariant dev.io.Ran(from, Acks(SaveAcks(kind, data, bank)), true)
      invariant ClockFree(mbc, |data|) ==> dev.io.SlotValue().dmg.ram == Stored(ram, mbc, data, bank)
    {
      SaveBankChunks(data, bank);
      SaveAcksRise(kind, data, bank + 1, BanksOf(|data|));
      StoredOn(kind, ram, mbc, data, bank);
      ghost var mid := dev.io.asked;
      r := WriteBank(dev, kind, mbc, bank, SaveBank(data, bank));
      AcksOn(link, from, SaveAcks(kind, data, bank), mid, BankAcks(kind, |SaveBank(data, bank)|), total, r.Ok?,
        dev.io.asked, dev.io.out);
      if r.Err? {
        return;
      }
      bank := bank + 1;
    }
  }

  lemma NothingWritten(kind: MbcKind, ram: seq<byte>, mbc: SimMbc, data: seq<byte>)
    ensures Stored(ram, mbc, data, 0) == ram && Acks(SaveAcks(kind, data, 0)) == []
  {
  }

  lemma StoredOn(kind: MbcKind, ram: seq<byte>, mbc: SimMbc, data: seq<byte>, bank: nat)
    requires bank < BanksOf(|data|)
    ensures Stored(ram, mbc, data, bank + 1)
         == Spliced(Stored(ram, mbc, data, bank), BankAt(mbc, bank) * RAM_BANK, SaveBank(data, bank))
    ensures SaveAcks(kind, data, bank + 1) == SaveAcks(kind, data, bank) + BankAcks(kind, |SaveBank(data, bank)|)
    ensures ClockFree(mbc, |data|) ==> mbc == Mbc3 ==> bank < 8
  {
  }

  lemma SaveBankChunks(data: seq<byte>, bank: nat)
    requires bank < BanksOf(|data|) && |data| % SAVE_CHUNK == 0
    ensures bank * RAM_BANK <= |data|
    ensures |SaveBank(data, bank)| <= RAM_BANK && |SaveBank(data, bank)| % SAVE_CHUNK == 0
  {
    ChunksLeft(|data|, bank);
  }

  lemma ChunksLeft(len: nat, bank: nat)
    requires len % SAVE_CHUNK == 0 && bank < BanksOf(len)
    ensures bank * RAM_BANK <= len && (len - bank * RAM_BANK) % SAVE_CHUNK == 0
  {
  }

  /** Select a RAM bank; whatever reaches the cart, RAM stays open. */
  method SelectRamBank(dev: GbxCart, kind: MbcKind, ghost mbc: SimMbc, bank: nat)
    returns (r: Result<(), DeviceError>)
    requires dev.io.Ready() && dev.io.cart.Dmg? && Open(dev.io.CoreValue(), mbc) && dev.io.out == []
    requires Drives(kind, mbc)
    modifies dev.io.Repr()
    ensures dev.io.Ready() && dev.io.inStep == old(dev.io.inStep)
    ensures Open(dev.io.CoreValue(), mbc)
    ensures dev.io.SlotValue().dmg.ram == old(dev.io.SlotValue()).dmg.ram && dev.io.SlotValue().dmg.mbc == mbc
    ensures if r.Err? then dev.io.Lossy() else
      && dev.io.out == []
      && (mbc != Mbc2 && (mbc == Mbc3 ==> bank < 8) ==>
            RamSelected(dev.io.SlotValue().dmg) && ActiveRamBank(dev.io.SlotValue().dmg) == BankAt(mbc, bank))
    ensures dev.io.Ran(old(dev.io.asked), Acks(|RamBankWrites(kind, bank)|), r.Ok?)
  {
    hide SimGbxCart.Ready, SimGbxCart.Repr, SimGbxCart.CartRepr, Opened, RamSelected, Applied, ActiveRamBank, BankAt,
      Link.Ran;
    ghost var c := dev.io.SlotValue().dmg;
    var w := RamBankWrites(kind, bank);
    ghost var sent;
    r, sent := ApplyWrites(dev, w);
    BankSelected(kind, c, mbc, bank, sent);
    OpenedMbc(dev.io.SlotValue().dmg, mbc);
  }

  lemma OpenedMbc(c: DmgCart, mbc: SimMbc)
    requires Opened(c, mbc)
    ensures c.mbc == mbc
  {
  }

  // --- Reading ------------------------------------------------------------------------

  predicate ReadingRam(c: Core) {
    c.Get(VAR_DMG_ACCESS_MODE) == DMG_ACCESS_RAM_READ && c.Get(VAR_DMG_READ_CS_PULSE) == 1
  }

  /** What the RAM window shows from its start. */
  function BankLoaded(c: DmgCart, n: nat): (s: seq<byte>)
    requires c.Valid() && n <= RAM_BANK
    ensures |s| == n
  {
    seq(n, i requires 0 <= i < n => RamByte(c, 0xA000 + i))
  }

  lemma BankLoadedIs(c: DmgCart, mbc: SimMbc, n: nat)
    requires c.Valid() && Opened(c, mbc) && n <= RAM_BANK && RamSelected(c) && mbc != Mbc2
    ensures BankLoaded(c, n) == RamSlice(c.ram, ActiveRamBank(c) * RAM_BANK, n)
  {
    forall i | 0 <= i < n
      ensures BankLoaded(c, n)[i] == RamSlice(c.ram, ActiveRamBank(c) * RAM_BANK, n)[i]
    {
      assert RamByte(c, 0xA000 + i) == RamAt(c.ram, ActiveRamBank(c) * RAM_BANK + i);
    }
  }

  lemma NibblesLoadedIs(c: DmgCart)
    requires c.Valid() && Opened(c, Mbc2)
    ensures BankLoaded(c, MBC2_RAM) == NibblesLoaded(c.ram)
  {
  }

  /** The `i`th of the chunks a stretch is read in. */
  function Piece(s: seq<byte>, chunk: nat, i: nat): seq<byte> {
    if (i + 1) * chunk <= |s| then s[i * chunk..i * chunk + chunk] else []
  }

  function Pieces(s: seq<byte>, chunk: nat, n: nat): (r: seq<Reply>)
    ensures |r| == n
  {
    seq(n, i requires 0 <= i < n => Bytes(Piece(s, chunk, i)))
  }

  /** The answers to reading `s` out of the RAM window: four status bytes and the data. */
  function DataReplies(s: seq<byte>): (r: seq<Reply>) {
    if s == [] then Acks(4) else Acks(4) + Pieces(s, ChunkOf(|s|) as nat, |s| / ChunkOf(|s|) as nat)
  }

  /** The opcodes that read a stretch are answered with its chunks. */
  lemma {:induction false} StretchReplies(c: Core, from: nat, chunk: nat, n: nat)
    requires c.Valid() && Quiet(c.slot) && c.TransferSize() == chunk && c.address == from
    ensures OpcodeReplies(c, CMD_DMG_CART_READ, n) == Pieces(DmgSlice(c, from, n * chunk), chunk, n)
  {
    hide OpcodeReplies, DmgSlice, Piece;
    forall i | 0 <= i < n
      ensures OpcodeReplies(c, CMD_DMG_CART_READ, n)[i] == Pieces(DmgSlice(c, from, n * chunk), chunk, n)[i]
    {
      StretchReply(c, from, chunk, n, i);
    }
  }

  lemma StretchReply(c: Core, from: nat, chunk: nat, n: nat, i: nat)
    requires c.Valid() && Quiet(c.slot) && c.TransferSize() == chunk && c.address == from && i < n
    ensures OpcodeReplies(c, CMD_DMG_CART_READ, n)[i] == Bytes(Piece(DmgSlice(c, from, n * chunk), chunk, i))
  {
    hide Exec, Opcodes, OpcodeReplies, DmgSlice, DmgStream, Piece;
    ReplyAt(c, CMD_DMG_CART_READ, n, i);
    DmgOpcodes(c, i);
    DmgStreamQuiet(c, i * chunk);
    var c1 := c.(address := from + i * chunk);
    ExecDmgRead(c1);
    DmgStreamQuiet(c1, chunk);
    SlicePiece(c, c1, from, chunk, i, n);
  }

  lemma SlicePiece(c: Core, c1: Core, from: nat, chunk: nat, i: nat, n: nat)
    requires c.Valid() && i < n && c1 == c.(address := from + i * chunk)
    ensures DmgSlice(c1, c1.address, chunk) == Piece(DmgSlice(c, from, n * chunk), chunk, i)
  {
    hide DmgSees;
    Within(i, chunk, n);
    var s := DmgSlice(c, from, n * chunk);
    assert (i + 1) * chunk == i * chunk + chunk;
    forall j | 0 <= j < chunk
      ensures DmgSlice(c1, c1.address, chunk)[j] == s[i * chunk..i * chunk + chunk][j]
    {
      var k := i * chunk + j;
      assert s[k] == DmgSees(c, (from + k) % 0x1_0000);
      SeesFrame(c, c1, (from + k) % 0x1_0000);
    }
  }

  lemma SeesFrame(c: Core, c1: Core, bus: nat)
    requires c.Valid() && bus < 0x1_0000 && c1 == c.(address := c1.address)
    ensures DmgSees(c1, bus) == DmgSees(c, bus)
  {
  }

  lemma Within(i: nat, chunk: nat, n: nat)
    requires i < n
    ensures (i + 1) * chunk <= n * chunk
  {
  }

  /** A chunked read of the RAM window of open RAM. */
  lemma RamRead(c: Core, mbc: SimMbc, chunk: u32, want: nat)
    requires Open(c, mbc) && ReadingRam(c) && 0 < chunk as nat <= want <= RAM_BANK && want % chunk as nat == 0
    ensures var (c1, s) := Opcodes(Aimed(c, chunk, 0xA000), CMD_DMG_CART_READ, Parts(want, chunk as nat));
            && Open(c1, mbc) && c1.slot == c.slot && s == BankLoaded(c.slot.dmg, want)
    ensures OpcodeReplies(Aimed(c, chunk, 0xA000), CMD_DMG_CART_READ, Parts(want, chunk as nat))
         == Pieces(BankLoaded(c.slot.dmg, want), chunk as nat, want / chunk as nat)
  {
    hide Opcodes, OpcodeReplies, DmgStream, DmgSees, Quiet, Opened, Pieces;
    var c1 := Aimed(c, chunk, 0xA000);
    var k := want / chunk as nat;
    assert k * chunk as nat == want;
    PartsExact(k, chunk as nat);
    DmgOpcodes(c1, k);
    DmgStreamQuiet(c1, want);
    StretchReplies(c1, 0xA000, chunk as nat, k);
    forall i | 0 <= i < want
      ensures DmgSlice(c1, 0xA000, want)[i] == BankLoaded(c.slot.dmg, want)[i]
    {
      RamSeen(c1, 0xA000 + i);
    }
  }

  lemma RamSeen(c: Core, bus: nat)
    requires c.Valid() && c.DmgLive() && c.slot.DmgSlot? && ReadingRam(c) && 0xA000 <= bus < 0xC000
    requires c.Get(VAR_DMG_READ_METHOD) == DMG_READ_METHOD_A15
    ensures DmgSees(c, bus) == RamByte(c.slot.dmg, bus)
  {
  }

  /** Access mode and pulse for reading RAM. */
  method AimForReading(dev: GbxCart, ghost mbc: SimMbc) returns (r: Result<(), DeviceError>)
    requires dev.io.Ready() && dev.io.cart.Dmg? && Open(dev.io.CoreValue(), mbc) && dev.io.out == []
    modifies dev.io.Repr()
    ensures dev.io.Ready() && dev.io.inStep == old(dev.io.inStep)
    ensures Open(dev.io.CoreValue(), mbc) && dev.io.SlotValue() == old(dev.io.SlotValue())
    ensures if r.Err? then dev.io.Lossy() else dev.io.out == [] && ReadingRam(dev.io.CoreValue())
    ensures dev.io.Ran(old(dev.io.asked), Acks(2), r.Ok?)
  {
    hide SimGbxCart.Ready, SimGbxCart.Repr, SimGbxCart.CartRepr, Open, Link.Ran, Link.Clear;
    ghost var link, from := dev.io.link, dev.io.asked;
    NothingAsked(link, from);
    r := SetOpen(dev, mbc, VAR_DMG_ACCESS_MODE, DMG_ACCESS_RAM_READ);
    RanNext(link, from, 0, Ack, Acks(2), r.Ok?, dev.io.asked, dev.io.out);
    if r.Err? {
      return;
    }
    r := SetOpen(dev, mbc, VAR_DMG_READ_CS_PULSE, 1);
    RanNext(link, from, 1, Ack, Acks(2), r.Ok?, dev.io.asked, dev.io.out);
  }

  /** Point the device at the RAM window and stream `want` bytes of it. */
  method ReadBankData(dev: GbxCart, ghost mbc: SimMbc, want: nat) returns (r: Result<seq<byte>, DeviceError>)
    requires dev.io.Ready() && dev.io.cart.Dmg? && Open(dev.io.CoreValue(), mbc) && dev.io.out == []
    requires 0 < want <= RAM_BANK && (want <= MAX_BUFFER_READ || want % MAX_BUFFER_READ == 0)
    modifies dev.io.Repr()
    ensures dev.io.Ready() && dev.io.inStep == old(dev.io.inStep)
    ensures Open(dev.io.CoreValue(), mbc) && dev.io.SlotValue() == old(dev.io.SlotValue())
    ensures if r.Err? then dev.io.Lossy() else
      dev.io.out == [] && r.value == BankLoaded(dev.io.SlotValue().dmg, want)
    ensures dev.io.Ran(old(dev.io.asked), DataReplies(BankLoaded(old(dev.io.SlotValue()).dmg, want)), r.Ok?)
  {
    hide SimGbxCart.Ready, SimGbxCart.Repr, SimGbxCart.CartRepr, Opened, Opcodes, OpcodeReplies, Parts, Pieces, RamByte,
      BankLoaded, Link.Ran, Link.Clear;
    var chunk := ChunkOf(want);
    ghost var link, from := dev.io.link, dev.io.asked;
    ghost var stream := Acks(2) + Pieces(BankLoaded(dev.io.SlotValue().dmg, want), chunk as nat, want / chunk as nat);
    assert DataReplies(BankLoaded(dev.io.SlotValue().dmg, want)) == Acks(2) + stream;
    var a := AimForReading(dev, mbc);
    RanFirst(link, from, Acks(2), stream, a.Ok?, dev.io.asked, dev.io.out);
    if a.Err? {
      return Err(a.error);
    }
    RamRead(dev.io.CoreValue(), mbc, chunk, want);
    r := dev.ReadAt(CMD_DMG_CART_READ, 0xA000, chunk, want);
    RanThen(link, from, Acks(2), stream, r.Ok?, dev.io.asked, dev.io.out);
  }

  /** Banks are read whole but the last, and chunks come out even. */
  lemma BankSize(size: nat, bank: nat)
    requires bank < BanksOf(size) && (size <= MAX_BUFFER_READ || size % MAX_BUFFER_READ == 0)
    ensures bank * RAM_BANK < size
    ensures var want := Smaller(RAM_BANK, size - bank * RAM_BANK);
            && 0 < want <= RAM_BANK && (want <= MAX_BUFFER_READ || want % MAX_BUFFER_READ == 0)
            && bank * RAM_BANK + want == Smaller((bank + 1) * RAM_BANK, size)
  {
    BankBelow(size, bank);
    if size > MAX_BUFFER_READ {
      WholeReads(size / MAX_BUFFER_READ, bank);
    }
  }

  lemma BankBelow(size: nat, bank: nat)
    requires bank < BanksOf(size)
    ensures bank * RAM_BANK < size
  {
  }

  lemma WholeReads(k: nat, bank: nat)
    ensures k * MAX_BUFFER_READ >= bank * RAM_BANK ==> (k * MAX_BUFFER_READ - bank * RAM_BANK) % MAX_BUFFER_READ == 0
    ensures RAM_BANK % MAX_BUFFER_READ == 0
  {
    if k * MAX_BUFFER_READ >= bank * RAM_BANK {
      assert k * MAX_BUFFER_READ - bank * RAM_BANK == (k - 2 * bank) * MAX_BUFFER_READ;
    }
  }

  /** The banks of a save, in order, out of open RAM. */
  method ReadBanks(dev: GbxCart, kind: MbcKind, ghost mbc: SimMbc, size: nat)
    returns (r: Result<seq<byte>, DeviceError>)
    requires dev.io.Ready() && dev.io.cart.Dmg? && Open(dev.io.CoreValue(), mbc) && dev.io.out == []
    requires Drives(kind, mbc) && mbc != Mbc2 && (size <= MAX_BUFFER_READ || size % MAX_BUFFER_READ == 0)
    modifies dev.io.Repr()
    ensures dev.io.Ready() && dev.io.inStep == old(dev.io.inStep)
    ensures Open(dev.io.CoreValue(), mbc) && dev.io.SlotValue().dmg.ram == old(dev.io.SlotValue()).dmg.ram
    ensures if r.Err? then dev.io.Lossy() else
      && dev.io.out == []
      && (ClockFree(mbc, size) ==> r.value == Loaded(dev.io.SlotValue().dmg.ram, mbc, size, BanksOf(size)))
    ensures ClockFree(mbc, size) ==>
      dev.io.Ran(old(dev.io.asked), LoadReplies(kind, old(dev.io.SlotValue()).dmg.ram, mbc, size, BanksOf(size)), r.Ok?)
  {
    hide SimGbxCart.Ready, SimGbxCart.Repr, SimGbxCart.CartRepr, Open, Opened, RamSelected, RamSlice, BankAt,
      BanksOf, BankReplies, Loaded, LoadReplies, ClockFree, Link.Ran;
    ghost var ram := dev.io.SlotValue().dmg.ram;
    ghost var link, from, all := dev.io.link, dev.io.asked, LoadReplies(kind, ram, mbc, size, BanksOf(size));
    RanNothing(link, from);
    NothingLoaded(kind, ram, mbc, size);
    var save := [];
    var bank := 0;
    while bank < BanksOf(size)
      invariant bank <= BanksOf(size) && |save| == Smaller(bank * RAM_BANK, size)
      invariant dev.io.Ready() && dev.io.inStep == old(dev.io.inStep)
      invariant Open(dev.io.CoreValue(), mbc) && dev.io.out == []
      invariant dev.io.SlotValue().dmg.ram == ram
      invariant ClockFree(mbc, size) ==>
        && save == Loaded(ram, mbc, size, bank)
        && dev.io.Ran(from, LoadReplies(kind, ram, mbc, size, bank), true)
    {
      BankSize(size, bank);
      var want := Smaller(RAM_BANK, size - |save|);
      ghost var before, mid := LoadReplies(kind, ram, mbc, size, bank), dev.io.asked;
      LoadRepliesOn(kind, ram, mbc, size, bank, BanksOf(size));
      LoadedOn(ram, mbc, size, bank);
      var data := ReadBank(dev, kind, mbc, bank, want);
      if ClockFree(mbc, size) {
        RanOn(link, from, before, mid, BankReplies(kind, ram, mbc, bank, want), all, data.Ok?, dev.io.asked,
          dev.io.out);
      }
      if data.Err? {
        return Err(data.error);
      }
      save := save + data.value;
      bank := bank + 1;
    }
    r := Ok(save);
  }

  lemma NothingLoaded(kind: MbcKind, ram: seq<byte>, mbc: SimMbc, size: nat)
    ensures Loaded(ram, mbc, size, 0) == [] && LoadReplies(kind, ram, mbc, size, 0) == []
  {
  }

  lemma LoadedOn(ram: seq<byte>, mbc: SimMbc, size: nat, bank: nat)
    requires bank < BanksOf(size)
    ensures Loaded(ram, mbc, size, bank + 1)
         == Loaded(ram, mbc, size, bank)
              + RamSlice(ram, BankAt(mbc, bank) * RAM_BANK, Smaller(RAM_BANK, size - bank * RAM_BANK))
    ensures ClockFree(mbc, size) ==> mbc == Mbc3 ==> bank < 8
  {
  }

  /** The answers to selecting a RAM bank and reading `want` bytes of it. */
  function BankReplies(kind: MbcKind, ram: seq<byte>, mbc: SimMbc, bank: nat, want: nat): seq<Reply> {
    Acks(|RamBankWrites(kind, bank)|) + DataReplies(RamSlice(ram, BankAt(mbc, bank) * RAM_BANK, want))
  }

  /** The answers to reading banks [0, n) of a save. */
  function LoadReplies(kind: MbcKind, ram: seq<byte>, mbc: SimMbc, size: nat, n: nat): seq<Reply>
    requires n <= BanksOf(size)
  {
    if n == 0 then []
    else
      LoadReplies(kind, ram, mbc, size, n - 1)
        + BankReplies(kind, ram, mbc, n - 1, Smaller(RAM_BANK, size - (n - 1) * RAM_BANK))
  }

  /** The answers to one bank stand right after those to the banks before it. */
  lemma {:induction false} LoadRepliesOn(kind: MbcKind, ram: seq<byte>, mbc: SimMbc, size: nat, bank: nat, n: nat)
    requires bank < n <= BanksOf(size)
    ensures var before := LoadReplies(kind, ram, mbc, size, bank);
            var part := BankReplies(kind, ram, mbc, bank, Smaller(RAM_BANK, size - bank * RAM_BANK));
            var all := LoadReplies(kind, ram, mbc, size, n);
            LoadReplies(kind, ram, mbc, size, bank + 1) == before + part && before + part <= all
    decreases n
  {
    hide BankReplies, BanksOf;
    if bank < n - 1 {
      LoadRepliesOn(kind, ram, mbc, size, bank, n - 1);
    }
  }

  /** Select a RAM bank and read `want` bytes of it. */
  method ReadBank(dev: GbxCart, kind: MbcKind, ghost mbc: SimMbc, bank: nat, want: nat)
    returns (r: Result<seq<byte>, DeviceError>)
    requires dev.io.Ready() && dev.io.cart.Dmg? && Open(dev.io.CoreValue(), mbc) && dev.io.out == []
    requires Drives(kind, mbc) && mbc != Mbc2
    requires 0 < want <= RAM_BANK && (want <= MAX_BUFFER_READ || want % MAX_BUFFER_READ == 0)
    modifies dev.io.Repr()
    ensures dev.io.Ready() && dev.io.inStep == old(dev.io.inStep)
    ensures Open(dev.io.CoreValue(), mbc) && dev.io.SlotValue().dmg.ram == old(dev.io.SlotValue()).dmg.ram
    ensures if r.Err? then dev.io.Lossy() else
      && dev.io.out == [] && |r.value| == want
      && ((mbc == Mbc3 ==> bank < 8) ==>
            r.value == RamSlice(dev.io.SlotValue().dmg.ram, BankAt(mbc, bank) * RAM_BANK, want))
    ensures (mbc == Mbc3 ==> bank < 8) ==>
      dev.io.Ran(old(dev.io.asked), BankReplies(kind, old(dev.io.SlotValue()).dmg.ram, mbc, bank, want), r.Ok?)
  {
    hide SimGbxCart.Ready, SimGbxCart.Repr, SimGbxCart.CartRepr, Opened, RamSelected, RamSlice, ActiveRamBank, BankAt,
      BankLoaded, DataReplies, Link.Ran, Link.Clear;
    ghost var link, from, select := dev.io.link, dev.io.asked, Acks(|RamBankWrites(kind, bank)|);
    ghost var data := DataReplies(RamSlice(dev.io.SlotValue().dmg.ram, BankAt(mbc, bank) * RAM_BANK, want));
    var a := SelectRamBank(dev, kind, mbc, bank);
    RanFirst(link, from, select, data, a.Ok?, dev.io.asked, dev.io.out);
    if a.Err? {
      return Err(a.error);
    }
    ghost var c := dev.io.SlotValue().dmg;
    if mbc == Mbc3 ==> bank < 8 {
      BankLoadedIs(c, mbc, want);
    }
    r := ReadBankData(dev, mbc, want);
    if mbc == Mbc3 ==> bank < 8 {
      RanThen(link, from, select, data, r.Ok?, dev.io.asked, dev.io.out);
    }
  }
}
