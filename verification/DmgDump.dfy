/**
 Dumping a Game Boy ROM: the bank-switch plans, the dump that drives the mapper bank by bank, and
 why what it returns is the ROM.
 */
module DmgDump {
  import opened Bytes
  import opened Protocol
  import opened Cartridges
  import opened GbxCore
  import opened GbxLink
  import opened GbxStreams
  import opened SimGbx
  import opened GbxDriver

  /** The mappers the host knows how to drive. */
  datatype MbcKind =
    | KindNone | KindMbc1 | KindMbc1M | KindMbc2 | KindMbc3 | KindMbc30 | KindMbc5
    | KindMbc7 | KindHuc1 | KindHuc3 | KindCamera | KindUnknown(code: byte)

  /** Bus writes that map ROM `bank` into the switchable window. */
  function RomBankWrites(kind: MbcKind, bank: nat): (w: seq<(nat, byte)>)
    ensures forall i :: 0 <= i < |w| ==> w[i].0 < 0x8000
  {
    match kind
    case KindNone => []
    case KindUnknown(_) => []
    case KindMbc1 => [(0x2100, (bank % 32) as byte), (0x4000, (bank / 32 % 4) as byte)]
    case KindMbc1M => [(0x4000, (bank / 16 % 4) as byte), (0x2100, (bank % 16) as byte)]
    case KindMbc2 => [(0x2100, (bank % 16) as byte)]
    case KindMbc3 => [(0x2100, (bank % 128) as byte)]
    case KindMbc5 => [(0x3000, (bank / 256 % 2) as byte), (0x2100, (bank % 256) as byte)]
    case _ => [(0x2100, (bank % 256) as byte)]
  }

  /** The cart after a list of bus writes. */
  function Applied(c: DmgCart, writes: seq<(nat, byte)>): (r: DmgCart)
    requires c.Valid() && forall i :: 0 <= i < |writes| ==> writes[i].0 < 0x1_0000
    ensures r.Valid()
  {
    if writes == [] then c
    else
      var last := writes[|writes| - 1];
      BusWritten(Applied(c, writes[..|writes| - 1]), last.0, last.1)
  }

  lemma AppliedOne(c: DmgCart, w: (nat, byte))
    requires c.Valid() && w.0 < 0x1_0000
    ensures Applied(c, [w]) == BusWritten(c, w.0, w.1)
  {
    assert [w][..0] == [];
  }

  lemma AppliedTwo(c: DmgCart, w0: (nat, byte), w1: (nat, byte))
    requires c.Valid() && w0.0 < 0x1_0000 && w1.0 < 0x1_0000
    ensures Applied(c, [w0, w1]) == BusWritten(BusWritten(c, w0.0, w0.1), w1.0, w1.1)
  {
    assert [w0, w1][..1] == [w0];
    AppliedOne(c, w0);
  }

  /** Whether `kind` is how the host drives a cart wired as `mbc`. */
  predicate Drives(kind: MbcKind, mbc: SimMbc) {
    match mbc
    case NoMbc => kind == KindNone
    case Mbc1 => kind == KindMbc1
    case Mbc1M => kind == KindMbc1M
    case Mbc2 => kind == KindMbc2
    case Mbc3 => kind == KindMbc3 || kind == KindMbc30
    case Mbc5 => kind == KindMbc5
    case Camera => kind == KindCamera
  }

  /** How many 16 KiB banks the plan of each mapper can address. */
  function Capacity(kind: MbcKind): nat {
    match kind
    case KindNone => 2
    case KindMbc1 => 32
    case KindMbc1M => 64
    case KindMbc2 => 16
    case KindMbc3 => 128
    case KindMbc30 => 256
    case KindMbc5 => 512
    case KindCamera => 64
    case _ => 0
  }

  /** The window `dump_dmg_rom` reads a bank through. */
  function WindowFor(kind: MbcKind, bank: nat): nat {
    if bank == 0 || (kind == KindMbc1M && bank % 16 == 0) then 0 else 0x4000
  }

  /** The banking mode the dump needs: outer banks in the fixed window only for MBC1M. */
  predicate DumpMode(kind: MbcKind, c: DmgCart) {
    (kind == KindMbc1 ==> c.mode == 0) && (kind == KindMbc1M ==> c.mode == 1)
  }

  /** The plan of every mapper shows the requested bank in the window the dump reads. */
  lemma PlanShowsBank(kind: MbcKind, c: DmgCart, bank: nat)
    requires c.Valid() && Drives(kind, c.mbc) && 0 < bank < Capacity(kind) && DumpMode(kind, c)
    ensures var c1 := Applied(c, RomBankWrites(kind, bank));
            && RomAddress(c1, WindowFor(kind, bank)) == bank * ROM_BANK
            && DumpMode(kind, c1)
  {
    match kind
    case KindNone =>
      NoWrites(c);
    case KindMbc1M =>
      PlanMbc1M(c, bank);
    case KindMbc1 =>
      PlanMbc1Or5(kind, c, bank);
    case KindMbc5 =>
      PlanMbc1Or5(kind, c, bank);
    case _ =>
      PlanLowByte(kind, c, bank);
  }

  lemma PlanLowByte(kind: MbcKind, c: DmgCart, bank: nat)
    requires c.Valid() && Drives(kind, c.mbc) && 0 < bank < Capacity(kind)
    requires kind in {KindMbc2, KindMbc3, KindMbc30, KindCamera}
    ensures RomAddress(Applied(c, RomBankWrites(kind, bank)), 0x4000) == bank * ROM_BANK
  {
    hide Applied, BusWritten, SwitchableBank;
    var w := RomBankWrites(kind, bank)[0];
    AppliedOne(c, w);
    RegistersWritten(c, w.1);
    LowByteShows(kind, c, bank);
  }

  /** Where the three register writes of the plans go. */
  lemma RegistersWritten(c: DmgCart, value: byte)
    requires c.Valid()
    ensures BusWritten(c, 0x2100, value) == c.(bankLo := value)
    ensures c.mbc in {Mbc1, Mbc1M, Mbc5} ==> BusWritten(c, 0x4000, value) == c.(bankHi := value)
    ensures c.mbc == Mbc5 ==> BusWritten(c, 0x3000, value) == c.(bankHi := value)
  {
  }

  lemma LowByteShows(kind: MbcKind, c: DmgCart, bank: nat)
    requires Drives(kind, c.mbc) && 0 < bank < Capacity(kind)
    requires kind in {KindMbc2, KindMbc3, KindMbc30, KindCamera}
    ensures SwitchableBank(c.(bankLo := RomBankWrites(kind, bank)[0].1)) == bank
  {
    match kind
    case KindMbc2 =>
      assert bank % 16 == bank;
    case KindMbc3 =>
      assert bank % 128 == bank;
    case KindCamera =>
      assert bank % 256 == bank && bank % 64 == bank;
    case KindMbc30 =>
      assert bank % 256 == bank;
    case _ =>
  }

  lemma PlanMbc1Or5(kind: MbcKind, c: DmgCart, bank: nat)
    requires c.Valid() && Drives(kind, c.mbc) && 0 < bank < Capacity(kind) && DumpMode(kind, c)
    requires kind == KindMbc1 || kind == KindMbc5
    ensures var c1 := Applied(c, RomBankWrites(kind, bank));
            RomAddress(c1, 0x4000) == bank * ROM_BANK && DumpMode(kind, c1)
  {
    hide Applied, BusWritten, SwitchableBank;
    var w := RomBankWrites(kind, bank);
    AppliedTwo(c, w[0], w[1]);
    RegistersWritten(c, if kind == KindMbc1 then w[0].1 else w[1].1);
    RegistersWritten(BusWritten(c, w[0].0, w[0].1), w[1].1);
    RegistersWritten(c, w[0].1);
    TwoBytesShow(kind, c, bank);
  }

  lemma TwoBytesShow(kind: MbcKind, c: DmgCart, bank: nat)
    requires Drives(kind, c.mbc) && 0 < bank < Capacity(kind) && (kind == KindMbc1 || kind == KindMbc5)
    ensures var w := RomBankWrites(kind, bank);
            && (kind == KindMbc1 ==> SwitchableBank(c.(bankLo := w[0].1, bankHi := w[1].1)) == bank)
            && (kind == KindMbc5 ==> SwitchableBank(c.(bankHi := w[0].1, bankLo := w[1].1)) == bank)
  {
    if kind == KindMbc1 {
      assert bank / 32 == 0 && bank % 32 == bank;
    } else {
      assert bank == bank / 256 * 256 + bank % 256 && bank / 256 % 2 == bank / 256;
    }
  }

  lemma PlanMbc1M(c: DmgCart, bank: nat)
    requires c.Valid() && c.mbc == Mbc1M && 0 < bank < 64 && c.mode == 1
    ensures var c1 := Applied(c, RomBankWrites(KindMbc1M, bank));
            && RomAddress(c1, WindowFor(KindMbc1M, bank)) == bank * ROM_BANK
            && DumpMode(KindMbc1M, c1)
  {
    hide Applied, BusWritten, SwitchableBank, FixedBank;
    var w := RomBankWrites(KindMbc1M, bank);
    AppliedTwo(c, w[0], w[1]);
    RegistersWritten(c, w[0].1);
    RegistersWritten(c.(bankHi := w[0].1), w[1].1);
    MulticartShows(c, bank);
  }

  /** The low register cannot select sub-bank 0, which is why those banks show in the fixed window. */
  lemma MulticartShows(c: DmgCart, bank: nat)
    requires c.mbc == Mbc1M && 0 < bank < 64 && c.mode == 1
    ensures var c1 := c.(bankHi := (bank / 16 % 4) as byte, bankLo := (bank % 16) as byte);
            if bank % 16 == 0 then FixedBank(c1) == bank else SwitchableBank(c1) == bank
  {
    assert bank == bank / 16 * 16 + bank % 16 && bank / 16 % 4 == bank / 16;
  }

  lemma NoWrites(c: DmgCart)
    requires c.Valid()
    ensures Applied(c, []) == c
  {
  }

  /** A write that switches battery RAM on. */
  predicate Enables(w: (nat, byte)) {
    w.0 < 0x2000 && w.1 % 16 == 0x0A
  }

  /** While RAM is off, no bus writes change it or the clock, unless one of them is the enable. */
  lemma {:induction false} LockedRam(c: DmgCart, writes: seq<(nat, byte)>)
    requires c.Valid() && !c.ramEnable
    requires forall i :: 0 <= i < |writes| ==> writes[i].0 < 0x1_0000 && !Enables(writes[i])
    ensures var d := Applied(c, writes); !d.ramEnable && d.ram == c.ram && d.rtc == c.rtc
  {
    hide BusWritten, Enables;
    if writes != [] {
      var last := writes[|writes| - 1];
      LockedRam(c, writes[..|writes| - 1]);
      LockedWrite(Applied(c, writes[..|writes| - 1]), last);
    }
  }

  lemma LockedWrite(c: DmgCart, w: (nat, byte))
    requires c.Valid() && !c.ramEnable && w.0 < 0x1_0000 && !Enables(w)
    ensures var d := BusWritten(c, w.0, w.1); !d.ramEnable && d.ram == c.ram && d.rtc == c.rtc
  {
  }

  /** Bus writes to mapper registers change registers, never ROM or flash contents. */
  lemma {:induction false} AppliedKeepsRom(c: DmgCart, writes: seq<(nat, byte)>)
    requires c.Valid() && forall i :: 0 <= i < |writes| ==> writes[i].0 < 0x8000
    ensures var c1 := Applied(c, writes);
            c1.rom == c.rom && c1.flash == c.flash && c1.mbc == c.mbc && c1.ram == c.ram
  {
    if writes != [] {
      AppliedKeepsRom(c, writes[..|writes| - 1]);
    }
  }

  // --- What a dump returns ------------------------------------------------------------

  function BankShown(c: DmgCart, kind: MbcKind, bank: nat): (s: seq<byte>)
    requires c.Valid()
    ensures |s| == ROM_BANK
  {
    Window(c, if kind == KindMbc1M && bank % 16 == 0 then 0 else 0x4000, ROM_BANK)
  }

  /** The cart and the bytes collected once banks [0, n) have been read, the first cut to `first` bytes. */
  function Dumped(c: DmgCart, kind: MbcKind, first: nat, n: nat): (r: (DmgCart, seq<byte>))
    requires c.Valid() && n >= 1 && first <= ROM_BANK
    ensures r.0.Valid()
  {
    if n == 1 then (c, Window(c, 0, first))
    else
      var (c1, s) := Dumped(c, kind, first, n - 1);
      var c2 := Applied(c1, RomBankWrites(kind, n - 1));
      (c2, s + BankShown(c2, kind, n - 1))
  }

  /** The ROM space as the chip or mask ROM holds it, whatever the mapper shows. */
  function RomContents(c: DmgCart, n: nat): (s: seq<byte>)
    requires c.Valid()
    ensures |s| == n
  {
    seq(n, i requires 0 <= i < n => RomByte(c, i))
  }

  /** A dump through the matching plan is the ROM, bank for bank, up to the mapper's capacity. */
  lemma {:induction false} DumpIsRom(c: DmgCart, kind: MbcKind, first: nat, n: nat)
    requires c.Valid() && 1 <= n <= Capacity(kind) && Drives(kind, c.mbc) && DumpMode(kind, c)
    requires first <= ROM_BANK && (n > 1 ==> first == ROM_BANK) && FixedBank(c) == 0
    ensures var (c1, s) := Dumped(c, kind, first, n);
            && s == RomContents(c, first + (n - 1) * ROM_BANK)
            && c1.rom == c.rom && c1.flash == c.flash && c1.mbc == c.mbc && DumpMode(kind, c1)
  {
    hide BusWritten, Applied, FixedBank, Window, RomContents, RomAddress, BankShown, RomBankWrites, Drives;
    if n == 1 {
      FixedWindow(c, first);
    } else {
      DumpIsRom(c, kind, first, n - 1);
      var (c1, s) := Dumped(c, kind, first, n - 1);
      var bank := n - 1;
      PlanShowsBank(kind, c1, bank);
      PlanInRom(kind, bank);
      AppliedKeepsRom(c1, RomBankWrites(kind, bank));
      BankJoins(c, Applied(c1, RomBankWrites(kind, bank)), kind, bank);
    }
  }

  lemma PlanInRom(kind: MbcKind, bank: nat)
    ensures forall i :: 0 <= i < |RomBankWrites(kind, bank)| ==> RomBankWrites(kind, bank)[i].0 < 0x8000
  {
  }

  /** The next bank, read through its window, continues the ROM. */
  lemma BankJoins(c: DmgCart, c2: DmgCart, kind: MbcKind, bank: nat)
    requires c.Valid() && c2.Valid() && c2.rom == c.rom && c2.flash == c.flash && bank > 0
    requires RomAddress(c2, WindowFor(kind, bank)) == bank * ROM_BANK
    ensures RomContents(c, ROM_BANK + (bank - 1) * ROM_BANK) + BankShown(c2, kind, bank)
         == RomContents(c, ROM_BANK + bank * ROM_BANK)
  {
    hide RomAddress, RomByte, Window;
    BankWindow(c, c2, WindowFor(kind, bank), bank);
  }

  lemma FixedWindow(c: DmgCart, n: nat)
    requires c.Valid() && n <= ROM_BANK && FixedBank(c) == 0
    ensures Window(c, 0, n) == RomContents(c, n)
  {
  }

  lemma BankWindow(c: DmgCart, c2: DmgCart, bus: nat, bank: nat)
    requires c.Valid() && c2.Valid() && c2.rom == c.rom && c2.flash == c.flash
    requires (bus == 0 || bus == 0x4000) && RomAddress(c2, bus) == bank * ROM_BANK
    ensures forall i :: 0 <= i < ROM_BANK ==>
      Window(c2, bus, ROM_BANK)[i] == RomContents(c, (bank + 1) * ROM_BANK)[bank * ROM_BANK + i]
  {
    forall i | 0 <= i < ROM_BANK
      ensures Window(c2, bus, ROM_BANK)[i] == RomContents(c, (bank + 1) * ROM_BANK)[bank * ROM_BANK + i]
    {
      var at := bank * ROM_BANK + i;
      assert RomAddress(c2, bus + i) == at;
      assert Window(c2, bus, ROM_BANK)[i] == RomByte(c2, at) == RomByte(c, at);
      assert RomContents(c, (bank + 1) * ROM_BANK)[at] == RomByte(c, at);
    }
  }

  // --- MBC1 beyond 512 KiB ------------------------------------------------------------

  /** The bank an MBC1 shows when asked for `bank`: the low register cannot hold zero. */
  function Mbc1Bank(bank: nat): nat {
    if bank % 32 == 0 then bank + 1 else bank
  }

  function BankContents(c: DmgCart, bank: nat): (s: seq<byte>)
    requires c.Valid()
    ensures |s| == ROM_BANK
  {
    seq(ROM_BANK, i requires 0 <= i < ROM_BANK => RomByte(c, bank * ROM_BANK + i))
  }

  lemma Mbc1Shows(c0: DmgCart, c: DmgCart, bank: nat)
    requires c0.Valid() && c.Valid() && c.rom == c0.rom && c.flash == c0.flash
    requires c.mbc == Mbc1 && c.mode == 0 && 0 < bank < 128
    ensures var c1 := Applied(c, RomBankWrites(KindMbc1, bank));
            && BankShown(c1, KindMbc1, bank) == BankContents(c0, Mbc1Bank(bank))
            && c1.mode == 0 && c1.rom == c.rom && c1.flash == c.flash && c1.mbc == Mbc1
  {
    hide Applied, RomByte, BusWritten, SwitchableBank, Window, BankContents;
    var w := RomBankWrites(KindMbc1, bank);
    AppliedTwo(c, w[0], w[1]);
    RegistersWritten(c, w[0].1);
    RegistersWritten(c.(bankLo := w[0].1), w[1].1);
    var c1 := c.(bankLo := w[0].1, bankHi := w[1].1);
    Mbc1Selects(c, bank);
    RomByteOf(c0, c1);
    BankOfWindow(c0, c1, Mbc1Bank(bank));
  }

  lemma Mbc1Selects(c: DmgCart, bank: nat)
    requires c.mbc == Mbc1 && 0 < bank < 128
    ensures SwitchableBank(c.(bankLo := (bank % 32) as byte, bankHi := (bank / 32 % 4) as byte)) == Mbc1Bank(bank)
  {
    assert bank == bank / 32 * 32 + bank % 32 && bank / 32 % 4 == bank / 32;
  }

  lemma BankOfWindow(c0: DmgCart, c1: DmgCart, bank: nat)
    requires c0.Valid() && c1.Valid() && SwitchableBank(c1) == bank
    requires forall at :: RomByte(c1, at) == RomByte(c0, at)
    ensures Window(c1, 0x4000, ROM_BANK) == BankContents(c0, bank)
  {
    hide RomByte, SwitchableBank;
  }

  lemma RomByteOf(c: DmgCart, c1: DmgCart)
    requires c.Valid() && c1.Valid() && c1.rom == c.rom && c1.flash == c.flash
    ensures forall at :: RomByte(c1, at) == RomByte(c, at)
  {
  }

  /**
   An MBC1 dump is the ROM if and only if every bank the mapper cannot show (0x20, 0x40, 0x60)
   happens to hold what the next bank holds.
   */
  lemma {:induction false} Mbc1DumpExact(c: DmgCart, n: nat)
    requires c.Valid() && c.mbc == Mbc1 && c.mode == 0 && 1 <= n <= 128
    ensures var (c1, s) := Dumped(c, KindMbc1, ROM_BANK, n);
            && c1.mode == 0 && c1.rom == c.rom && c1.flash == c.flash && c1.mbc == Mbc1
            && |s| == n * ROM_BANK
            && (s == RomContents(c, n * ROM_BANK)
                <==> forall k :: 0 < k < n && k % 32 == 0 ==> BankContents(c, k) == BankContents(c, k + 1))
  {
    hide BusWritten, Applied, RomByte, SwitchableBank;
    if n == 1 {
      FixedWindow(c, ROM_BANK);
    } else {
      Mbc1DumpExact(c, n - 1);
      var (c1, s) := Dumped(c, KindMbc1, ROM_BANK, n - 1);
      Mbc1Shows(c, c1, n - 1);
      var t := BankContents(c, Mbc1Bank(n - 1));
      RomContentsOn(c, n - 1);
      SplitEqual(s, t, RomContents(c, (n - 1) * ROM_BANK), BankContents(c, n - 1));
    }
  }

  lemma RomContentsOn(c: DmgCart, n: nat)
    requires c.Valid()
    ensures RomContents(c, (n + 1) * ROM_BANK) == RomContents(c, n * ROM_BANK) + BankContents(c, n)
  {
    hide RomByte;
  }

  lemma SplitEqual(s: seq<byte>, t: seq<byte>, s1: seq<byte>, t1: seq<byte>)
    requires |s| == |s1|
    ensures s + t == s1 + t1 <==> s == s1 && t == t1
  {
    assert s == (s + t)[..|s|] && t == (s + t)[|s|..];
    assert s1 == (s1 + t1)[..|s|] && t1 == (s1 + t1)[|s|..];
  }

  // --- The flow -----------------------------------------------------------------------

  /** Apply a list of bus writes; `sent` of them reached the device. */
  method ApplyWrites(dev: GbxCart, writes: seq<(nat, byte)>)
    returns (r: Result<(), DeviceError>, ghost sent: nat)
    requires dev.io.Ready() && dev.io.cart.Dmg? && dev.io.CoreValue().DmgLive()
    requires forall i :: 0 <= i < |writes| ==> writes[i].0 < 0x1_0000
    modifies dev.io.Repr()
    ensures dev.io.Ready() && dev.io.inStep == old(dev.io.inStep)
    ensures sent <= |writes| && (r.Ok? ==> sent == |writes|) && (writes != [] ==> sent > 0)
    ensures dev.io.CoreValue() == old(dev.io.CoreValue()).(
      slot := DmgSlot(Applied(old(dev.io.SlotValue()).dmg, writes[..sent])))
    ensures old(dev.io.out) == [] ==>
      && dev.io.Ran(old(dev.io.asked), Acks(|writes|), r.Ok?)
      && dev.io.asked == old(dev.io.asked) + sent
      && if r.Ok? then dev.io.out == [] else dev.io.Lossy()
    ensures |writes| > 1 ==> (sent > 1 <==> !dev.io.link.Loses(old(dev.io.asked)) && !Stale(old(dev.io.out)))
  {
    hide BusWritten, Link.Ran, Link.Clear, SimGbxCart.Ready, SimGbxCart.Repr, SimGbxCart.CartRepr;
    ghost var from, clean := dev.io.asked, dev.io.out == [];
    NothingAsked(dev.io.link, from);
    r := Ok(());
    sent := 0;
    var i := 0;
    while i < |writes|
      invariant 0 <= i <= |writes| && sent == i && r.Ok?
      invariant dev.io.Ready() && dev.io.inStep == old(dev.io.inStep)
      invariant dev.io.CoreValue() == old(dev.io.CoreValue()).(
        slot := DmgSlot(Applied(old(dev.io.SlotValue()).dmg, writes[..i])))
      invariant clean ==> dev.io.out == [] && dev.io.link.Clear(from, i)
      invariant dev.io.asked == from + i
      invariant i == 0 ==> dev.io.out == old(dev.io.out)
      invariant i > 0 ==> !dev.io.link.Loses(from) && !Stale(old(dev.io.out))
    {
      assert writes[..i + 1][..i] == writes[..i];
      r := dev.WriteBus(writes[i].0, writes[i].1);
      sent := sent + 1;
      if clean {
        RanNext(dev.io.link, from, i, Ack, Acks(|writes|), r.Ok?, dev.io.asked, dev.io.out);
      }
      if r.Err? {
        return;
      }
      i := i + 1;
    }
    if clean {
      RanAll(dev.io.link, from, Acks(|writes|), dev.io.asked, dev.io.out);
    }
  }

  const LOGO: nat := 0x104
  const LOGO_END: nat := 0x134

  /** The cart while the duplicate-logo probe looks at bank 0x10 with plain MBC1 registers. */
  function Probing(c: DmgCart): (r: DmgCart)
    requires c.Valid()
    ensures r.Valid()
  {
    Applied(c, RomBankWrites(KindMbc1, 0x10))
  }

  /** Multicart wiring shows a second header logo there. */
  predicate ProbeSays(c: DmgCart, header: seq<byte>)
    requires c.Valid() && |header| >= LOGO_END
  {
    Window(Probing(c), 0x4000, 0x1000)[LOGO..LOGO_END] == header[LOGO..LOGO_END]
  }

  /** The ROM has the header's logo at `at`. */
  predicate LogoAt(c: DmgCart, header: seq<byte>, at: nat)
    requires c.Valid() && |header| >= LOGO_END
  {
    forall i :: LOGO <= i < LOGO_END ==> RomByte(c, at + i) == header[i]
  }

  /** Where bank 0x10 of a plain MBC1 lies; multicart wiring shows the start of the ROM there. */
  function ProbedBank(mbc: SimMbc): nat {
    if mbc == Mbc1 then 0x10 else 0
  }

  /** The probe says yes exactly when the ROM has the logo a second time where the wiring puts bank 0x10. */
  lemma ProbeAnswer(c: DmgCart, header: seq<byte>)
    requires c.Valid() && (c.mbc == Mbc1 || c.mbc == Mbc1M) && |header| >= LOGO_END
    ensures ProbeSays(c, header) <==> LogoAt(c, header, ProbedBank(c.mbc) * ROM_BANK)
  {
    hide Applied, RomByte;
    var w := RomBankWrites(KindMbc1, 0x10);
    AppliedTwo(c, w[0], w[1]);
    var p, at := Probing(c), ProbedBank(c.mbc) * ROM_BANK;
    assert RomAddress(p, 0x4000) == at;
    RomByteOf(c, p);
    var window := Window(p, 0x4000, 0x1000);
    assert forall i :: 0 <= i < 0x1000 ==> window[i] == RomByte(c, at + i);
    assert forall i :: LOGO <= i < LOGO_END ==>
      window[LOGO..LOGO_END][i - LOGO] == window[i] && header[LOGO..LOGO_END][i - LOGO] == header[i];
    if LogoAt(c, header, at) {
      assert window[LOGO..LOGO_END] == header[LOGO..LOGO_END];
    }
  }

  const MIB: nat := 0x10_0000

  /** The kind the dump settles on and the cart it starts from, after mode entry, probe and mode write. */
  function DumpStart(cart: DmgCart, kind: MbcKind, romSize: nat, header: seq<byte>): (r: (MbcKind, DmgCart))
    requires cart.Valid() && |header| >= LOGO_END
    ensures r.1.Valid()
  {
    var c0 := MapperReset(cart);
    var probes := kind == KindMbc1 && romSize >= MIB;
    var c1 := if probes then Applied(Probing(c0), RomBankWrites(KindMbc1, 1)) else c0;
    var kind1 := if probes && ProbeSays(c0, header) then KindMbc1M else kind;
    (kind1, Applied(c1, ModeWrites(kind1)))
  }

  function ModeWrites(kind: MbcKind): (w: seq<(nat, byte)>)
    ensures forall i :: 0 <= i < |w| ==> w[i].0 < 0x8000
  {
    if kind == KindMbc1 then [(0x6000, 0)] else if kind == KindMbc1M then [(0x6000, 1)] else []
  }

  function FirstRead(romSize: nat): nat {
    if romSize < ROM_BANK then romSize else ROM_BANK
  }

  function TotalBanks(romSize: nat): (n: nat)
    ensures n >= 1
  {
    if romSize / ROM_BANK > 1 then romSize / ROM_BANK else 1
  }

  function DumpResult(cart: DmgCart, kind: MbcKind, romSize: nat, header: seq<byte>): seq<byte>
    requires cart.Valid() && |header| >= LOGO_END
  {
    var (kind1, c) := DumpStart(cart, kind, romSize, header);
    Dumped(c, kind1, FirstRead(romSize), TotalBanks(romSize)).1
  }

  /** The part of the requested size that whole banks cover. */
  function DumpLength(romSize: nat): nat {
    if romSize <= ROM_BANK then romSize else romSize / ROM_BANK * ROM_BANK
  }

  lemma DumpResultIsRom(cart: DmgCart, kind: MbcKind, romSize: nat, header: seq<byte>)
    requires cart.Valid() && |header| >= LOGO_END
    requires Drives(kind, cart.mbc) && TotalBanks(romSize) <= Capacity(kind)
    ensures DumpResult(cart, kind, romSize, header) == RomContents(cart, DumpLength(romSize))
  {
    hide BusWritten, Applied, RomByte, SwitchableBank, ProbeSays;
    var (kind1, c) := DumpStart(cart, kind, romSize, header);
    if ModeWrites(kind) == [] {
      NoWrites(MapperReset(cart));
    } else {
      ModeWritten(MapperReset(cart), kind);
    }
    DumpIsRom(c, kind1, FirstRead(romSize), TotalBanks(romSize));
    RomByteOf(cart, c);
  }

  lemma ModeWritten(c: DmgCart, kind: MbcKind)
    requires c.Valid() && ModeWrites(kind) != []
    ensures Applied(c, ModeWrites(kind)) == BusWritten(c, 0x6000, if kind == KindMbc1 then 0 else 1)
    ensures c.mbc != Mbc3 ==>
      Applied(c, ModeWrites(kind)) == c.(mode := if kind == KindMbc1 then 0 else 1)
  {
    AppliedOne(c, ModeWrites(kind)[0]);
  }

  /** A 1 MiB multicart detected as a plain MBC1 is recognised by the probe and dumped whole. */
  lemma MulticartDump(cart: DmgCart, header: seq<byte>)
    requires cart.Valid() && cart.mbc == Mbc1M && |header| >= LOGO_END
    requires header[..LOGO_END] == RomContents(cart, LOGO_END)
    ensures DumpStart(cart, KindMbc1, MIB, header).0 == KindMbc1M
    ensures DumpResult(cart, KindMbc1, MIB, header) == RomContents(cart, MIB)
  {
    hide Applied, RomByte;
    var c0 := MapperReset(cart);
    var p := Probing(c0);
    var w := RomBankWrites(KindMbc1, 0x10);
    AppliedTwo(c0, w[0], w[1]);
    ProbeWindow(cart, p, header);
    var w1 := RomBankWrites(KindMbc1, 1);
    AppliedTwo(p, w1[0], w1[1]);
    var c1 := Applied(p, w1);
    ModeWritten(c1, KindMbc1M);
    var c := c1.(mode := 1);
    assert FixedBank(c) == 0;
    DumpIsRom(c, KindMbc1M, ROM_BANK, 64);
    RomByteOf(cart, c);
  }

  lemma ProbeWindow(cart: DmgCart, p: DmgCart, header: seq<byte>)
    requires cart.Valid() && p.Valid() && p.rom == cart.rom && p.flash == cart.flash
    requires RomAddress(p, 0x4000) == 0 && |header| >= LOGO_END
    requires header[..LOGO_END] == RomContents(cart, LOGO_END)
    ensures Window(p, 0x4000, 0x1000)[LOGO..LOGO_END] == header[LOGO..LOGO_END]
  {
    forall i | LOGO <= i < LOGO_END
      ensures Window(p, 0x4000, 0x1000)[i] == header[i]
    {
      assert RomAddress(p, 0x4000 + i) == i;
      assert header[..LOGO_END][i] == RomContents(cart, LOGO_END)[i];
    }
  }

  /** The duplicate-logo probe; it leaves bank 1 selected. */
  method ProbeMbc1M(dev: GbxCart) returns (r: Result<bool, DeviceError>)
    requires dev.io.Ready() && dev.io.cart.Dmg? && Dumping(dev.io.CoreValue()) && dev.io.out == []
    requires |dev.header| >= LOGO_END
    modifies dev.io.Repr()
    ensures dev.io.Ready() && dev.io.inStep == old(dev.io.inStep)
    ensures if r.Err? then dev.io.Lossy() else
      var c := old(dev.io.SlotValue()).dmg;
      && dev.io.out == [] && Dumping(dev.io.CoreValue())
      && dev.io.SlotValue() == DmgSlot(Applied(Probing(c), RomBankWrites(KindMbc1, 1)))
      && r.value == ProbeSays(c, dev.header)
      && (c.mbc == Mbc1 || c.mbc == Mbc1M ==>
            (r.value <==> LogoAt(c, dev.header, ProbedBank(c.mbc) * ROM_BANK)))
  {
    hide LogoAt, Applied, RomRead, Window, SimGbxCart.Ready, SimGbxCart.Repr, SimGbxCart.CartRepr;
    var w := RomBankWrites(KindMbc1, 0x10);
    assert w[..|w|] == w;
    var a, sent := ApplyWrites(dev, w);
    if a.Err? {
      return Err(a.error);
    }
    QuietApplied(old(dev.io.SlotValue()).dmg, w);
    RomReadWindow(dev.io.CoreValue(), 0x4000, 0x1000);
    var window := dev.ReadDmgRomChunk(0x4000, 0x1000);
    if window.Err? {
      return Err(window.error);
    }
    var w1 := RomBankWrites(KindMbc1, 1);
    assert w1[..|w1|] == w1;
    a, sent := ApplyWrites(dev, w1);
    if a.Err? {
      return Err(a.error);
    }
    QuietApplied(Probing(old(dev.io.SlotValue()).dmg), w1);
    r := Ok(window.value[LOGO..LOGO_END] == dev.header[LOGO..LOGO_END]);
    if old(dev.io.SlotValue()).dmg.mbc == Mbc1 || old(dev.io.SlotValue()).dmg.mbc == Mbc1M {
      ProbeAnswer(old(dev.io.SlotValue()).dmg, dev.header);
    }
  }

  /** In DMG mode with the working read method, on a cart whose reads change nothing. */
  predicate Dumping(c: Core) {
    && c.Valid() && c.slot.DmgSlot? && Quiet(c.slot) && c.DmgLive()
    && c.Get(VAR_DMG_READ_METHOD) == DMG_READ_METHOD_A15
  }

  lemma QuietApplied(c: DmgCart, writes: seq<(nat, byte)>)
    requires c.Valid() && forall i :: 0 <= i < |writes| ==> writes[i].0 < 0x8000
    ensures Quiet(DmgSlot(c)) ==> Quiet(DmgSlot(Applied(c, writes)))
  {
    AppliedKeepsRom(c, writes);
  }

  /** Select one bank and read the window it shows in. */
  method DumpBank(dev: GbxCart, kind: MbcKind, bank: nat) returns (r: Result<seq<byte>, DeviceError>)
    requires dev.io.Ready() && dev.io.cart.Dmg? && Dumping(dev.io.CoreValue()) && dev.io.out == []
    modifies dev.io.Repr()
    ensures dev.io.Ready() && dev.io.inStep == old(dev.io.inStep)
    ensures if r.Err? then dev.io.Lossy() else
      var c := Applied(old(dev.io.SlotValue()).dmg, RomBankWrites(kind, bank));
      && dev.io.out == [] && Dumping(dev.io.CoreValue())
      && dev.io.SlotValue() == DmgSlot(c) && r.value == BankShown(c, kind, bank)
  {
    hide Applied, RomRead, Window, SimGbxCart.Ready, SimGbxCart.Repr, SimGbxCart.CartRepr;
    var w := RomBankWrites(kind, bank);
    assert w[..|w|] == w;
    var a, sent := ApplyWrites(dev, w);
    if a.Err? {
      return Err(a.error);
    }
    QuietApplied(old(dev.io.SlotValue()).dmg, w);
    var window: u32 := if kind == KindMbc1M && bank % 16 == 0 then 0 else 0x4000;
    RomReadWindow(dev.io.CoreValue(), window, ROM_BANK);
    r := dev.ReadDmgRomChunk(window, ROM_BANK);
  }

  /** Enter DMG mode, settle the mapper kind and set its banking mode. */
  method StartDump(dev: GbxCart, kind: MbcKind, romSize: nat) returns (r: Result<MbcKind, DeviceError>)
    requires dev.io.Ready() && dev.io.cart.Dmg? && Quiet(dev.io.SlotValue()) && dev.io.out == []
    requires |dev.header| >= LOGO_END
    modifies dev.io.Repr()
    ensures dev.io.Ready() && dev.io.inStep == old(dev.io.inStep)
    ensures if r.Err? then dev.io.Lossy() else
      && dev.io.out == [] && Dumping(dev.io.CoreValue())
      && (r.value, dev.io.SlotValue().dmg) == DumpStart(old(dev.io.SlotValue()).dmg, kind, romSize, dev.header)
  {
    hide Applied, ProbeSays, Probing, LogoAt, Signalled, SimGbxCart.Ready, SimGbxCart.Repr, SimGbxCart.CartRepr;
    var a := dev.EnterDmgMode();
    if a.Err? {
      return Err(a.error);
    }
    var kind1 := kind;
    if kind == KindMbc1 && romSize >= MIB {
      var probe := ProbeMbc1M(dev);
      if probe.Err? {
        return Err(probe.error);
      }
      if probe.value {
        kind1 := KindMbc1M;
      }
    }
    a := SetBankMode(dev, kind1);
    if a.Err? {
      return Err(a.error);
    }
    r := Ok(kind1);
  }

  /** The banking mode the dump needs. */
  method SetBankMode(dev: GbxCart, kind: MbcKind) returns (r: Result<(), DeviceError>)
    requires dev.io.Ready() && dev.io.cart.Dmg? && Dumping(dev.io.CoreValue()) && dev.io.out == []
    modifies dev.io.Repr()
    ensures dev.io.Ready() && dev.io.inStep == old(dev.io.inStep)
    ensures if r.Err? then dev.io.Lossy() else
      && dev.io.out == [] && Dumping(dev.io.CoreValue())
      && dev.io.SlotValue() == DmgSlot(Applied(old(dev.io.SlotValue()).dmg, ModeWrites(kind)))
  {
    hide Applied, SimGbxCart.Ready, SimGbxCart.Repr, SimGbxCart.CartRepr;
    var w := ModeWrites(kind);
    assert w[..|w|] == w;
    QuietApplied(dev.io.SlotValue().dmg, w);
    ghost var sent;
    r, sent := ApplyWrites(dev, w);
  }

  /** Bank 0 through the fixed window, then every other bank through the window it shows in. */
  method DumpBanks(dev: GbxCart, kind: MbcKind, romSize: nat) returns (r: Result<seq<byte>, DeviceError>)
    requires dev.io.Ready() && dev.io.cart.Dmg? && Dumping(dev.io.CoreValue()) && dev.io.out == []
    requires romSize > 0
    modifies dev.io.Repr()
    ensures dev.io.Ready() && dev.io.inStep == old(dev.io.inStep)
    ensures r.Err? ==> dev.io.Lossy()
    ensures r.Ok? ==>
      (dev.io.SlotValue().dmg, r.value)
        == Dumped(old(dev.io.SlotValue()).dmg, kind, FirstRead(romSize), TotalBanks(romSize))
  {
    hide Applied, BankShown, RomRead, Window, Dumping, Dumped, TotalBanks,
      SimGbxCart.Ready, SimGbxCart.Repr, SimGbxCart.CartRepr;
    ghost var c := dev.io.SlotValue().dmg;
    var first := FirstRead(romSize);
    var a := DumpFirst(dev, romSize);
    if a.Err? {
      return Err(a.error);
    }
    FirstDumped(c, kind, first);
    var rom := a.value;
    var totalBanks := TotalBanks(romSize);
    var bank := 1;
    while bank < totalBanks
      invariant 1 <= bank <= totalBanks
      invariant dev.io.Ready() && dev.io.inStep == old(dev.io.inStep)
      invariant Dumping(dev.io.CoreValue()) && (totalBanks > 1 ==> dev.io.out == [])
      invariant (dev.io.SlotValue().dmg, rom) == Dumped(c, kind, first, bank)
    {
      var chunk := DumpBank(dev, kind, bank);
      if chunk.Err? {
        return Err(chunk.error);
      }
      DumpedOn(c, kind, first, bank);
      rom := rom + chunk.value;
      bank := bank + 1;
    }
    r := Ok(rom);
  }

  lemma FirstDumped(c: DmgCart, kind: MbcKind, first: nat)
    requires c.Valid() && first <= ROM_BANK
    ensures Dumped(c, kind, first, 1) == (c, Window(c, 0, first))
  {
  }

  lemma DumpedOn(c: DmgCart, kind: MbcKind, first: nat, n: nat)
    requires c.Valid() && n >= 1 && first <= ROM_BANK
    ensures var (c1, s) := Dumped(c, kind, first, n);
            var c2 := Applied(c1, RomBankWrites(kind, n));
            Dumped(c, kind, first, n + 1) == (c2, s + BankShown(c2, kind, n))
  {
    hide Applied, BankShown, RomBankWrites;
  }

  /** Bank 0, or as much of it as was asked for. */
  method DumpFirst(dev: GbxCart, romSize: nat) returns (r: Result<seq<byte>, DeviceError>)
    requires dev.io.Ready() && dev.io.cart.Dmg? && Dumping(dev.io.CoreValue()) && dev.io.out == []
    requires romSize > 0
    modifies dev.io.Repr()
    ensures dev.io.Ready() && dev.io.inStep == old(dev.io.inStep)
    ensures r.Err? ==> dev.io.Lossy()
    ensures r.Ok? ==>
      && Dumping(dev.io.CoreValue()) && dev.io.SlotValue() == old(dev.io.SlotValue())
      && (TotalBanks(romSize) > 1 ==> dev.io.out == [])
      && r.value == Window(old(dev.io.SlotValue()).dmg, 0, FirstRead(romSize))
  {
    hide RomRead, Window, SimGbxCart.Ready, SimGbxCart.Repr, SimGbxCart.CartRepr;
    var first := FirstRead(romSize);
    RomReadWindow(dev.io.CoreValue(), 0, first);
    r := dev.ReadDmgRomChunk(0, first);
  }

  /** Dump `romSize` bytes of DMG ROM, driving the mapper bank by bank. */
  method DumpDmgRom(dev: GbxCart, kind: MbcKind, romSize: u32) returns (r: Result<seq<byte>, DeviceError>)
    requires dev.io.Ready() && dev.io.cart.Dmg? && Quiet(dev.io.SlotValue()) && dev.io.out == []
    requires |dev.header| >= LOGO_END && romSize > 0
    modifies dev.io.Repr()
    ensures dev.io.Ready() && dev.io.inStep == old(dev.io.inStep)
    ensures r.Err? ==> dev.io.Lossy()
    ensures r.Ok? ==> r.value == DumpResult(old(dev.io.SlotValue()).dmg, kind, romSize as nat, dev.header)
    ensures r.Ok? ==> dev.io.SlotValue().dmg.flash == old(dev.io.SlotValue()).dmg.flash
  {
    hide Dumped, DumpStart, SimGbxCart.Ready, SimGbxCart.Repr, SimGbxCart.CartRepr;
    ghost var c := dev.io.SlotValue().dmg;
    DumpStartKeepsFlash(c, kind, romSize as nat, dev.header);
    var start := StartDump(dev, kind, romSize as nat);
    if start.Err? {
      return Err(start.error);
    }
    DumpedKeepsFlash(dev.io.SlotValue().dmg, start.value, FirstRead(romSize as nat), TotalBanks(romSize as nat));
    r := DumpBanks(dev, start.value, romSize as nat);
  }

  lemma DumpStartKeepsFlash(cart: DmgCart, kind: MbcKind, romSize: nat, header: seq<byte>)
    requires cart.Valid() && |header| >= LOGO_END
    ensures DumpStart(cart, kind, romSize, header).1.flash == cart.flash
  {
    hide Applied, ProbeSays;
    var c0 := MapperReset(cart);
    AppliedKeepsRom(c0, RomBankWrites(KindMbc1, 0x10));
    AppliedKeepsRom(Probing(c0), RomBankWrites(KindMbc1, 1));
    AppliedKeepsRom(c0, ModeWrites(DumpStart(cart, kind, romSize, header).0));
    AppliedKeepsRom(Applied(Probing(c0), RomBankWrites(KindMbc1, 1)),
      ModeWrites(DumpStart(cart, kind, romSize, header).0));
  }

  lemma {:induction false} DumpedKeepsFlash(c: DmgCart, kind: MbcKind, first: nat, n: nat)
    requires c.Valid() && n >= 1 && first <= ROM_BANK
    ensures Dumped(c, kind, first, n).0.flash == c.flash
  {
    hide Applied, Window, BankShown;
    if n > 1 {
      DumpedKeepsFlash(c, kind, first, n - 1);
      AppliedKeepsRom(Dumped(c, kind, first, n - 1).0, RomBankWrites(kind, n - 1));
    }
  }
}
