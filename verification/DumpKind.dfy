/**
 Which mapper a dump settles on. A cart whose header says MBC1 and whose ROM has 1 MiB or more may be
 a multicart, and a second logo in bank 0x10 decides; the answer is stated on the ROM's own bytes.
 */
module DumpKind {
  import opened Bytes
  import opened Cartridges
  import opened GbxDriver
  import opened DmgDump

  /** The mapper settled on: the one asked for, or the multicart's for a large MBC1 that shows the logo twice. */
  lemma SettledKind(cart: DmgCart, kind: MbcKind, romSize: nat, header: seq<byte>)
    requires cart.Valid() && |header| >= LOGO_END
    requires kind == KindMbc1 ==> cart.mbc == Mbc1 || cart.mbc == Mbc1M
    ensures DumpStart(cart, kind, romSize, header).0
         == if kind == KindMbc1 && romSize >= MIB && LogoAt(cart, header, ProbedBank(cart.mbc) * ROM_BANK)
            then KindMbc1M else kind
  {
    hide Applied, ProbeSays, LogoAt;
    if kind == KindMbc1 {
      ProbeAnswer(MapperReset(cart), header);
      SameLogo(cart, MapperReset(cart), header, ProbedBank(cart.mbc) * ROM_BANK);
    }
  }

  lemma SameLogo(c: DmgCart, d: DmgCart, header: seq<byte>, at: nat)
    requires c.Valid() && d.Valid() && d.rom == c.rom && d.flash == c.flash && |header| >= LOGO_END
    ensures LogoAt(c, header, at) == LogoAt(d, header, at)
  {
    hide RomByte;
    RomByteOf(c, d);
  }

  /**
   A plain MBC1 of 1 or 2 MiB without a second logo is dumped as one: the dump is the ROM if and
   only if each of the banks 0x20, 0x40 and 0x60 that is dumped holds what the next bank holds.
   */
  lemma PlainMbc1Dump(cart: DmgCart, banks: nat, header: seq<byte>)
    requires cart.Valid() && cart.mbc == Mbc1 && |header| >= LOGO_END && 64 <= banks <= 128
    requires !LogoAt(cart, header, 0x10 * ROM_BANK)
    ensures DumpResult(cart, KindMbc1, banks * ROM_BANK, header) == RomContents(cart, banks * ROM_BANK)
      <==> forall k :: k in {0x20, 0x40, 0x60} && k < banks ==> BankContents(cart, k) == BankContents(cart, k + 1)
  {
    hide BusWritten, Applied, RomByte, ProbeSays, LogoAt, Probing;
    SettledKind(cart, KindMbc1, banks * ROM_BANK, header);
    var (kind, c) := DumpStart(cart, KindMbc1, banks * ROM_BANK, header);
    PlainStart(cart, c);
    Mbc1DumpExact(c, banks);
    RomByteOf(cart, c);
    SameBanks(cart, c, banks);
    assert forall k :: 0 < k < banks && k % 32 == 0 <==> k in {0x20, 0x40, 0x60} && k < banks;
  }

  /** After the probe the mapper is in mode 0, over the same ROM. */
  lemma PlainStart(cart: DmgCart, c: DmgCart)
    requires cart.Valid() && cart.mbc == Mbc1
    requires c == Applied(Applied(Probing(MapperReset(cart)), RomBankWrites(KindMbc1, 1)), ModeWrites(KindMbc1))
    ensures c.Valid() && c.mbc == Mbc1 && c.mode == 0 && c.rom == cart.rom && c.flash == cart.flash
  {
    hide Applied, BusWritten;
    var c0 := MapperReset(cart);
    AppliedKeepsRom(c0, RomBankWrites(KindMbc1, 0x10));
    AppliedKeepsRom(Probing(c0), RomBankWrites(KindMbc1, 1));
    var c1 := Applied(Probing(c0), RomBankWrites(KindMbc1, 1));
    AppliedKeepsRom(c1, ModeWrites(KindMbc1));
    ModeWritten(c1, KindMbc1);
  }

  lemma SameBanks(cart: DmgCart, c: DmgCart, banks: nat)
    requires cart.Valid() && c.Valid() && forall at :: RomByte(c, at) == RomByte(cart, at)
    ensures RomContents(c, banks * ROM_BANK) == RomContents(cart, banks * ROM_BANK)
    ensures forall k :: BankContents(c, k) == BankContents(cart, k)
  {
    hide RomByte;
  }
}
