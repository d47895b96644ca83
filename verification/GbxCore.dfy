/**
 What the GBxCart's commands do: `Core` is everything a command can read or change, and each
 function below is one command's meaning.
 */
module GbxCore {
  import opened Bytes
  import opened Protocol
  import opened FlashChip
  import opened Cartridges

  datatype Slot = DmgSlot(dmg: DmgCart) | AgbSlot(agb: AgbCart) | EmptySlot
  {
    predicate Valid() {
      match this
      case DmgSlot(c) => c.Valid()
      case AgbSlot(c) => c.Valid()
      case EmptySlot => true
    }
  }

  /** How the firmware programs a chip; the command slots come with it. */
  datatype FlashConfig = FlashConfig(cmdSet: byte, programMethod: byte, wePin: byte, cmds: seq<(u32, byte)>)

  datatype Core = Core(
    slot: Slot,
    crc: seq<byte> -> u32,
    mode: u32,
    powered: bool,
    vars: map<Var, u32>,
    address: nat,
    addrIncremented: nat,
    flashCfg: Option<FlashConfig>,
    bufferFill: nat,
    /** The event log: mode, voltage, power, reset, boot-up and idle commands, in order. */
    log: seq<byte>)
  {
    predicate Valid() {
      slot.Valid()
    }

    function Get(v: Var): u32 {
      if v in vars then vars[v] else 0
    }

    function TransferSize(): nat {
      Get(VAR_TRANSFER_SIZE) as nat
    }

    predicate DmgLive() {
      mode == CART_MODE_DMG && powered
    }

    predicate AgbLive() {
      mode == CART_MODE_AGB && powered
    }
  }

  /** The flash chip in the slot. */
  function ChipOf(s: Slot): Option<Chip> {
    match s
    case DmgSlot(c) => c.flash
    case AgbSlot(c) => c.flash
    case EmptySlot => None
  }

  /** The simulator has crashed inside the chip. */
  predicate Crashed(s: Slot) {
    ChipOf(s).Some? && ChipOf(s).value.state == Panicked
  }

  // --- Commands -----------------------------------------------------------------

  function SetVar(c: Core, v: Var, value: u32): (r: Core)
    ensures r.slot == c.slot && r.powered == c.powered && r.log == c.log
    ensures c.Valid() ==> r.Valid()
    ensures r.bufferFill == c.bufferFill
  {
    var c1 := c.(vars := c.vars[v := value]);
    if v == VAR_ADDRESS then c1.(address := value as nat, addrIncremented := 0)
    else if v == VAR_CART_MODE then c1.(mode := value)
    else c1
  }

  function DmgWrite(c: Core, addr: nat, value: byte): (r: Core)
    requires c.Valid() && addr < 0x1_0000
    ensures r.Valid()
    ensures r.bufferFill == c.bufferFill
  {
    if c.DmgLive() && c.slot.DmgSlot? then c.(slot := DmgSlot(BusWritten(c.slot.dmg, addr, value))) else c
  }

  /** One more event. */
  function Logged(c: Core, cmd: byte): Core {
    c.(log := c.log + [cmd])
  }

  function MbcReset(c: Core): (r: Core)
    ensures c.Valid() ==> r.Valid()
    ensures r.bufferFill == c.bufferFill
  {
    var c1 := Logged(c, CMD_DMG_MBC_RESET);
    if c.slot.DmgSlot? then c1.(slot := DmgSlot(MapperReset(c.slot.dmg))) else c1
  }

  /** Whether a DMG read reaches the cart: RAM needs its access mode and chip-select pulse configured. */
  predicate DmgReaches(c: Core, bus: nat) {
    && c.DmgLive() && c.slot.DmgSlot?
    && (c.Get(VAR_DMG_READ_METHOD) == 1 || c.Get(VAR_DMG_READ_METHOD) == 2)
    && (0xA000 <= bus < 0xC000 ==>
          c.Get(VAR_DMG_ACCESS_MODE) == DMG_ACCESS_RAM_READ && c.Get(VAR_DMG_READ_CS_PULSE) == 1)
  }

  /** What a read of one byte at DMG bus address `bus` is answered with. */
  function DmgSees(c: Core, bus: nat): byte
    requires c.Valid() && bus < 0x1_0000
  {
    if DmgReaches(c, bus) then BusByte(c.slot.dmg, bus) else 0xFF
  }

  function AfterDmgByte(c: Core): (r: Core)
    requires c.Valid()
    ensures r.Valid()
    ensures r.bufferFill == c.bufferFill
  {
    var bus := c.address % 0x1_0000;
    var c1 := if DmgReaches(c, bus) then c.(slot := DmgSlot(AfterBusRead(c.slot.dmg, bus))) else c;
    c1.(address := c.address + 1)
  }

  function DmgStream(c: Core, n: nat): (r: (Core, seq<byte>))
    requires c.Valid()
    ensures r.0.Valid() && r.0.bufferFill == c.bufferFill && |r.1| == n
  {
    if n == 0 then (c, [])
    else
      var (c1, s) := DmgStream(c, n - 1);
      (AfterDmgByte(c1), s + [DmgSees(c1, c1.address % 0x1_0000)])
  }

  function AgbSees(c: Core, at: nat): byte
    requires c.Valid()
  {
    if c.AgbLive() && c.slot.AgbSlot? then AgbRomByte(c.slot.agb, at) else 0xFF
  }

  function AfterAgbByte(c: Core): (r: Core)
    requires c.Valid()
    ensures r.Valid()
    ensures r.bufferFill == c.bufferFill
  {
    if c.AgbLive() && c.slot.AgbSlot? then c.(slot := AgbSlot(AfterAgbRead(c.slot.agb))) else c
  }

  /** The auto-increment stall: word 0x800000 reached without a fresh explicit address. */
  predicate Stalled(c: Core) {
    c.address == 0x80_0000 && c.addrIncremented > 0
  }

  function AgbWord(c: Core): (r: (Core, seq<byte>))
    requires c.Valid()
    ensures r.0.Valid() && r.0.bufferFill == c.bufferFill && |r.1| == 2
  {
    var b0 := AgbSees(c, c.address * 2);
    var c1 := AfterAgbByte(c);
    var b1 := AgbSees(c1, c.address * 2 + 1);
    var c2 := AfterAgbByte(c1);
    (c2.(address := c.address + 1, addrIncremented := c.addrIncremented + 1), [b0, b1])
  }

  /** Up to `words` words from the cursor; the stream ends early at the stall. */
  function AgbStream(c: Core, words: nat): (r: (Core, seq<byte>))
    requires c.Valid()
    ensures r.0.Valid() && r.0.bufferFill == c.bufferFill && |r.1| <= 2 * words
  {
    if words == 0 then (c, [])
    else
      var (c1, s) := AgbStream(c, words - 1);
      if |s| < 2 * (words - 1) || Stalled(c1) then (c1, s)
      else
        var (c2, w) := AgbWord(c1);
        (c2, s + w)
  }

  /** `n` ROM-space bytes for the firmware's checksum, from byte `start`. */
  function CrcBytes(c: Core, start: nat, n: nat): (r: (Core, seq<byte>))
    requires c.Valid()
    ensures r.0.Valid() && r.0.bufferFill == c.bufferFill && |r.1| == n
  {
    if n == 0 then (c, [])
    else
      var (c1, s) := CrcBytes(c, start, n - 1);
      if c1.slot.AgbSlot? then
        (c1.(slot := AgbSlot(AfterAgbRead(c1.slot.agb))), s + [AgbRomByte(c1.slot.agb, start + n - 1)])
      else (c1, s + [0xFF])
  }

  /** One flash command-register write: a DMG chip sees it through the mapper, and so does the mapper. */
  function FlashWrite(slot: Slot, addr: nat, value: byte): (r: Slot)
    requires slot.Valid()
    ensures r.Valid()
  {
    match slot
    case DmgSlot(cart) =>
      var at := if addr < 0x8000 then RomAddress(cart, addr) else addr;
      var c1 := if cart.flash.Some? then cart.(flash := Some(Command(cart.flash.value, at, value))) else cart;
      DmgSlot(if addr < 0x8000 then BusWritten(c1, addr, value) else c1)
    case AgbSlot(cart) =>
      AgbSlot(if cart.flash.Some? then cart.(flash := Some(Command(cart.flash.value, addr * 2, value))) else cart)
    case EmptySlot => slot
  }

  function FlashWrites(slot: Slot, writes: seq<(u32, byte)>): (r: Slot)
    requires slot.Valid()
    ensures r.Valid()
  {
    if writes == [] then slot
    else
      var rest := FlashWrites(slot, writes[..|writes| - 1]);
      FlashWrite(rest, writes[|writes| - 1].0 as nat, writes[|writes| - 1].1)
  }

  /** The absolute flash address the programming cursor stands on. */
  function ProgramAddress(c: Core): nat {
    match c.slot
    case DmgSlot(cart) =>
      if c.address < 0x4000 then FixedBank(cart) * ROM_BANK + c.address
      else SwitchableBank(cart) * ROM_BANK + (c.address - 0x4000)
    case _ => c.address * 2
  }

  function SlotProgram(slot: Slot, at: nat, data: seq<byte>): (r: Slot)
    ensures slot.Valid() ==> r.Valid()
  {
    match slot
    case DmgSlot(cart) =>
      DmgSlot(if cart.flash.Some? then cart.(flash := Some(Program(cart.flash.value, at, data))) else cart)
    case AgbSlot(cart) =>
      AgbSlot(if cart.flash.Some? then cart.(flash := Some(Program(cart.flash.value, at, data))) else cart)
    case EmptySlot => slot
  }

  /** Whether a chunk of `n` bytes leaves a buffered-write group partly filled. */
  predicate MidGroup(c: Core, n: nat)
    requires c.flashCfg.Some?
  {
    c.flashCfg.value.programMethod == 2 && c.bufferFill + n < c.Get(VAR_BUFFER_SIZE) as nat
  }

  function ProgramChunk(c: Core, data: seq<byte>): (r: Core)
    requires c.flashCfg.Some?
    ensures c.Valid() ==> r.Valid()
  {
    c.(slot := SlotProgram(c.slot, ProgramAddress(c), data),
       address := c.address + (if c.slot.DmgSlot? then |data| else |data| / 2),
       bufferFill := if MidGroup(c, |data|) then c.bufferFill + |data| else 0)
  }

  /** A byte for the save RAM: it reaches the cart only in RAM-write mode with the pulse configured. */
  function SramWrite(c: Core, value: byte): (r: Core)
    requires c.Valid()
    ensures r.Valid()
    ensures r.bufferFill == c.bufferFill
  {
    var live := c.DmgLive() && c.slot.DmgSlot?
      && c.Get(VAR_DMG_ACCESS_MODE) == DMG_ACCESS_RAM_WRITE && c.Get(VAR_DMG_WRITE_CS_PULSE) == 1;
    var c1 := if live then c.(slot := DmgSlot(BusWritten(c.slot.dmg, c.address % 0x1_0000, value))) else c;
    c1.(address := c.address + 1)
  }

  function SramWrites(c: Core, data: seq<byte>): (r: Core)
    requires c.Valid()
    ensures r.Valid()
    ensures r.bufferFill == c.bufferFill
  {
    if data == [] then c else SramWrite(SramWrites(c, data[..|data| - 1]), data[|data| - 1])
  }
}
