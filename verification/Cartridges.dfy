/**
 The cartridges behind the simulated GBxCart: a Game Boy cart with its mapper registers, battery
 RAM and optional flash chip, and a GBA cart seen as a ROM. The functions give the hardware's
 meaning of a bus access; the classes are the carts that change in place. Shifts and masks of the
 mapper registers are written as `/` and `%` on naturals.
 */
module Cartridges {
  import opened Bytes
  import opened FlashChip

  datatype SimMbc = NoMbc | Mbc1 | Mbc1M | Mbc2 | Mbc3 | Mbc5 | Camera

  const ROM_BANK: nat := 0x4000
  const RAM_BANK: nat := 0x2000

  datatype DmgCart = DmgCart(
    rom: seq<byte>,
    ram: seq<byte>,
    mbc: SimMbc,
    rtc: seq<byte>,
    rtcLatched: seq<byte>,
    latchState: byte,
    ramEnable: bool,
    bankLo: byte,
    bankHi: byte,
    mode: byte,
    ramBank: byte,
    flash: Option<Chip>)
  {
    predicate Valid() {
      |rtc| == 5 && |rtcLatched| == 5 && (flash.Some? ==> flash.value.Valid())
    }
  }

  /** The ROM bank shown at 0x4000-0x7FFF. */
  function SwitchableBank(c: DmgCart): nat {
    var lo, hi := c.bankLo as nat, c.bankHi as nat;
    match c.mbc
    case NoMbc => 1
    case Mbc1 => hi % 4 * 32 + (if lo % 32 == 0 then 1 else lo % 32)
    // only four low bits are wired, but the 0-to-1 bump looks at all five
    case Mbc1M => hi % 4 * 16 + (if lo % 32 == 0 then 1 else lo) % 16
    case Mbc2 => if lo % 16 == 0 then 1 else lo % 16
    case Mbc3 => if lo == 0 then 1 else lo
    case Camera => if lo % 64 == 0 then 1 else lo % 64
    case Mbc5 => hi % 2 * 256 + lo
  }

  /** The ROM bank shown at 0x0000-0x3FFF. */
  function FixedBank(c: DmgCart): nat {
    if c.mbc == Mbc1 && c.mode == 1 then c.bankHi as nat % 4 * 32
    else if c.mbc == Mbc1M && c.mode == 1 then c.bankHi as nat % 4 * 16
    else 0
  }

  /** The absolute ROM address behind a ROM-window bus address. */
  function RomAddress(c: DmgCart, bus: nat): nat
    requires bus < 0x8000
  {
    if bus < 0x4000 then FixedBank(c) * ROM_BANK + bus else SwitchableBank(c) * ROM_BANK + (bus - 0x4000)
  }

  /** What the ROM socket answers at an absolute address: the flash chip if there is one, else the mask ROM. */
  function RomByte(c: DmgCart, at: nat): byte
    requires c.Valid()
  {
    if c.flash.Some? then Answer(c.flash.value, at)
    else if at < |c.rom| then c.rom[at] else 0xFF
  }

  function ActiveRamBank(c: DmgCart): nat {
    if c.mbc == Mbc1 || c.mbc == Mbc1M then (if c.mode == 1 then c.bankHi as nat % 4 else 0)
    else c.ramBank as nat % 16
  }

  function RamByte(c: DmgCart, bus: nat): byte
    requires c.Valid() && 0xA000 <= bus < 0xC000
  {
    var off := bus - 0xA000;
    if !c.ramEnable then 0xFF
    else if c.mbc == Mbc2 then
      // the upper nibble reads as open bus
      (if off % 0x200 < |c.ram| then 0xF0 + c.ram[off % 0x200] % 16 else 0xFF)
    else if c.mbc == Mbc3 && c.ramBank >= 0x08 then
      (if c.ramBank - 0x08 < 5 then c.rtcLatched[c.ramBank - 0x08] else 0xFF)
    else
      var at := ActiveRamBank(c) * RAM_BANK + off;
      if at < |c.ram| then c.ram[at] else 0xFF
  }

  function RamWritten(c: DmgCart, bus: nat, value: byte): (r: DmgCart)
    requires c.Valid() && 0xA000 <= bus < 0xC000
    ensures r.Valid()
  {
    var off := bus - 0xA000;
    if !c.ramEnable then c
    else if c.mbc == Mbc2 then
      (if off % 0x200 < |c.ram| then c.(ram := c.ram[off % 0x200 := value % 16]) else c)
    else if c.mbc == Mbc3 && c.ramBank >= 0x08 then
      (if c.ramBank - 0x08 < 5
       then c.(rtc := c.rtc[c.ramBank - 0x08 := value], rtcLatched := c.rtcLatched[c.ramBank - 0x08 := value])
       else c)
    else
      var at := ActiveRamBank(c) * RAM_BANK + off;
      if at < |c.ram| then c.(ram := c.ram[at := value]) else c
  }

  /** The byte a bus read is answered with. */
  function BusByte(c: DmgCart, bus: nat): byte
    requires c.Valid() && bus < 0x1_0000
  {
    if bus < 0x8000 then RomByte(c, RomAddress(c, bus))
    else if 0xA000 <= bus < 0xC000 then RamByte(c, bus)
    else 0xFF
  }

  /** What a bus read does to the cart: a flash chip may use up a busy answer. */
  function AfterBusRead(c: DmgCart, bus: nat): (r: DmgCart)
    requires c.Valid() && bus < 0x1_0000
    ensures r.Valid()
  {
    if bus < 0x8000 && c.flash.Some? then c.(flash := Some(AfterRead(c.flash.value))) else c
  }

  function BusWritten(c: DmgCart, bus: nat, value: byte): (r: DmgCart)
    requires c.Valid() && bus < 0x1_0000
    ensures r.Valid()
  {
    if bus < 0x2000 then c.(ramEnable := value % 16 == 0x0A)
    else if bus < 0x4000 then
      (if c.mbc == Mbc5 && bus >= 0x3000 then c.(bankHi := value) else c.(bankLo := value))
    else if bus < 0x6000 then
      (if c.mbc == Mbc1 || c.mbc == Mbc1M || c.mbc == Mbc5 then c.(bankHi := value) else c.(ramBank := value))
    else if bus < 0x8000 then
      (if c.mbc == Mbc3 then
        c.(rtcLatched := if c.latchState == 0 && value == 1 then c.rtc else c.rtcLatched, latchState := value)
       else c.(mode := value % 2))
    else if 0xA000 <= bus < 0xC000 then RamWritten(c, bus, value)
    else c
  }

  function MapperReset(c: DmgCart): (r: DmgCart)
    ensures c.Valid() ==> r.Valid()
  {
    c.(ramEnable := false, bankLo := 1, bankHi := 0, mode := 0, ramBank := 0, latchState := 0xFF)
  }

  class SimDmgCart {
    const rom: seq<byte>
    var ram: seq<byte>
    const mbc: SimMbc
    var rtc: seq<byte>
    var rtcLatched: seq<byte>
    var latchState: byte
    var ramEnable: bool
    var bankLo: byte
    var bankHi: byte
    var mode: byte
    var ramBank: byte
    const flash: SimFlashChip?

    ghost function Repr(): set<object> {
      if flash == null then {this} else {this, flash}
    }

    function Value(): DmgCart
      reads this, flash
    {
      DmgCart(rom, ram, mbc, rtc, rtcLatched, latchState, ramEnable, bankLo, bankHi, mode, ramBank,
              if flash == null then None else Some(flash.Value()))
    }

    constructor (rom: seq<byte>, ram: seq<byte>, mbc: SimMbc, flash: SimFlashChip?)
      ensures Value() == DmgCart(rom, ram, mbc, [0, 0, 0, 0, 0], [0, 0, 0, 0, 0], 0xFF, false, 1, 0, 0, 0,
                                 if flash == null then None else Some(flash.Value()))
      ensures this.flash == flash
    {
      this.rom, this.ram, this.mbc, this.flash := rom, ram, mbc, flash;
      rtc, rtcLatched, latchState := [0, 0, 0, 0, 0], [0, 0, 0, 0, 0], 0xFF;
      ramEnable, bankLo, bankHi, mode, ramBank := false, 1, 0, 0, 0;
    }

    method ResetMapper()
      modifies this
      ensures Value() == MapperReset(old(Value()))
    {
      ramEnable := false;
      bankLo := 1;
      bankHi := 0;
      mode := 0;
      ramBank := 0;
      latchState := 0xFF;
    }

    method BusRead(bus: nat) returns (b: byte)
      requires Value().Valid() && bus < 0x1_0000
      modifies Repr()
      ensures b == BusByte(old(Value()), bus) && Value() == AfterBusRead(old(Value()), bus)
    {
      if bus < 0x8000 {
        var at := RomAddress(Value(), bus);
        if flash != null {
          b := flash.ReadByte(at);
        } else {
          b := if at < |rom| then rom[at] else 0xFF;
        }
      } else if 0xA000 <= bus < 0xC000 {
        b := RamByte(Value(), bus);
      } else {
        b := 0xFF;
      }
    }

    method BusWrite(bus: nat, value: byte)
      requires Value().Valid() && bus < 0x1_0000
      modifies this
      ensures Value() == BusWritten(old(Value()), bus, value)
    {
      if bus < 0x2000 {
        ramEnable := value % 16 == 0x0A;
      } else if bus < 0x4000 {
        if mbc == Mbc5 && bus >= 0x3000 {
          bankHi := value;
        } else {
          bankLo := value;
        }
      } else if bus < 0x6000 {
        if mbc == Mbc1 || mbc == Mbc1M || mbc == Mbc5 {
          bankHi := value;
        } else {
          ramBank := value;
        }
      } else if bus < 0x8000 {
        if mbc == Mbc3 {
          if latchState == 0 && value == 1 {
            rtcLatched := rtc;
          }
          latchState := value;
        } else {
          mode := value % 2;
        }
      } else if 0xA000 <= bus < 0xC000 {
        RamWrite(bus, value);
      }
    }

    method RamWrite(bus: nat, value: byte)
      requires Value().Valid() && 0xA000 <= bus < 0xC000
      modifies this
      ensures Value() == RamWritten(old(Value()), bus, value)
    {
      if !ramEnable {
        return;
      }
      var off := bus - 0xA000;
      if mbc == Mbc2 {
        if off % 0x200 < |ram| {
          ram := ram[off % 0x200 := value % 16];
        }
      } else if mbc == Mbc3 && ramBank >= 0x08 {
        var reg := ramBank - 0x08;
        if reg < 5 {
          rtc := rtc[reg := value];
          rtcLatched := rtcLatched[reg := value];
        }
      } else {
        var at := ActiveRamBank(Value()) * RAM_BANK + off;
        if at < |ram| {
          ram := ram[at := value];
        }
      }
    }
  }

  datatype AgbCart = AgbCart(rom: seq<byte>, pad: Option<byte>, flash: Option<Chip>)
  {
    predicate Valid() {
      flash.Some? ==> flash.value.Valid()
    }
  }

  /** GBA open bus: the low half of the word address, little-endian. */
  function OpenBusByte(at: nat): byte {
    (if at % 2 == 0 then at / 2 % 0x100 else at / 2 / 0x100 % 0x100) as byte
  }

  function AgbRomByte(c: AgbCart, at: nat): byte
    requires c.Valid()
  {
    if c.flash.Some? then Answer(c.flash.value, at)
    else if at < |c.rom| then c.rom[at]
    else if c.pad.Some? then c.pad.value
    else OpenBusByte(at)
  }

  function AfterAgbRead(c: AgbCart): (r: AgbCart)
    ensures c.Valid() ==> r.Valid()
  {
    if c.flash.Some? then c.(flash := Some(AfterRead(c.flash.value))) else c
  }

  class SimAgbCart {
    const rom: seq<byte>
    const pad: Option<byte>
    const flash: SimFlashChip?

    ghost function Repr(): set<object> {
      if flash == null then {this} else {this, flash}
    }

    function Value(): AgbCart
      reads flash
    {
      AgbCart(rom, pad, if flash == null then None else Some(flash.Value()))
    }

    constructor (rom: seq<byte>, pad: Option<byte>, flash: SimFlashChip?)
      ensures this.flash == flash
      ensures Value() == AgbCart(rom, pad, if flash == null then None else Some(flash.Value()))
    {
      this.rom, this.pad, this.flash := rom, pad, flash;
    }

    method ReadRom(at: nat) returns (b: byte)
      requires Value().Valid()
      modifies Repr()
      ensures b == AgbRomByte(old(Value()), at) && Value() == AfterAgbRead(old(Value()))
    {
      if flash != null {
        b := flash.ReadByte(at);
      } else if at < |rom| {
        b := rom[at];
      } else if pad.Some? {
        b := pad.value;
      } else {
        b := OpenBusByte(at);
      }
    }
  }
}
