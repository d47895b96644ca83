/** The GBxCart simulator: the device that changes in place, one method per firmware routine. */
module SimGbx {
  import opened Bytes
  import opened Protocol
  import opened Cartridges
  import opened GbxCore
  import opened GbxWire
  import opened GbxLink

  datatype SimCart = Dmg(dmg: SimDmgCart) | Agb(agb: SimAgbCart) | Empty

  datatype IoError = TimedOut

  class SimGbxCart {
    const cart: SimCart
    const crc: seq<byte> -> u32
    const link: Link
    /** How many answers the host has asked for. */
    var asked: nat
    var out: seq<byte>
    var buf: seq<byte>
    var expecting: Expect
    var dead: bool
    var mode: u32
    var powered: bool
    var vars: map<Var, u32>
    var address: nat
    var addrIncremented: nat
    var flashCfg: Option<FlashConfig>
    var bufferFill: nat
    var log: seq<byte>
    /** Host and device have agreed, at every write so far, on whether a command or raw data comes next. */
    ghost var inStep: bool

    /** Reads on this link may time out although the device answered. */
    predicate Lossy() {
      link.Lossy?
    }

    ghost function CartRepr(): set<object> {
      match cart
      case Dmg(c) => c.Repr()
      case Agb(c) => c.Repr()
      case Empty => {}
    }

    ghost function Repr(): set<object> {
      {this} + CartRepr()
    }

    function SlotValue(): Slot
      reads CartRepr()
    {
      match cart
      case Dmg(c) => DmgSlot(c.Value())
      case Agb(c) => AgbSlot(c.Value())
      case Empty => EmptySlot
    }

    function CoreValue(): Core
      reads Repr()
    {
      Core(SlotValue(), crc, mode, powered, vars, address, addrIncremented, flashCfg, bufferFill, log)
    }

    function Value(): Device
      reads Repr()
    {
      Device(CoreValue(), expecting, buf, out, dead)
    }

    predicate Ready()
      reads Repr()
      ensures Ready() ==> CoreValue().Valid()
    {
      Value().Ready()
    }

    constructor (cart: SimCart, crc: seq<byte> -> u32, link: Link)
      ensures Value() == Device(
        Core(SlotValue(), crc, 0, false, map[], 0, 0, None, 0, []), Opcode, [], [], false)
      ensures this.cart == cart && this.link == link && asked == 0 && inStep
    {
      this.cart, this.crc, this.link, asked := cart, crc, link, 0;
      out, buf, expecting, dead := [], [], Opcode, false;
      mode, powered, vars, address, addrIncremented, flashCfg, bufferFill := 0, false, map[], 0, 0, None, 0;
      log, inStep := [], true;
    }

    method SetVariable(v: Var, value: u32)
      modifies this`vars, this`address, this`addrIncremented, this`mode
      ensures CoreValue() == SetVar(old(CoreValue()), v, value)
    {
      vars := vars[v := value];
      if v == VAR_ADDRESS {
        address := value as nat;
        addrIncremented := 0;
      }
      if v == VAR_CART_MODE {
        mode := value;
      }
    }

    method WriteBus(addr: nat, value: byte)
      requires CoreValue().Valid() && addr < 0x1_0000
      modifies CartRepr()
      ensures CoreValue() == DmgWrite(old(CoreValue()), addr, value)
    {
      if cart.Dmg? && mode == CART_MODE_DMG && powered {
        cart.dmg.BusWrite(addr, value);
      }
    }

    method ReadDmgByte() returns (b: byte)
      requires CoreValue().Valid()
      modifies this`address, CartRepr()
      ensures b == DmgSees(old(CoreValue()), old(address) % 0x1_0000)
      ensures CoreValue() == AfterDmgByte(old(CoreValue()))
    {
      var bus := address % 0x1_0000;
      b := 0xFF;
      if DmgReaches(CoreValue(), bus) {
        b := cart.dmg.BusRead(bus);
      }
      address := address + 1;
    }

    method DmgReadStream(n: nat) returns (s: seq<byte>)
      requires CoreValue().Valid()
      modifies this`address, CartRepr()
      ensures (CoreValue(), s) == DmgStream(old(CoreValue()), n)
    {
      s := [];
      var i := 0;
      while i < n
        invariant i <= n
        invariant CoreValue().Valid()
        invariant (CoreValue(), s) == DmgStream(old(CoreValue()), i)
      {
        var b := ReadDmgByte();
        s := s + [b];
        i := i + 1;
      }
    }

    method ReadAgbByte(at: nat) returns (b: byte)
      requires CoreValue().Valid()
      modifies CartRepr()
      ensures b == AgbSees(old(CoreValue()), at) && CoreValue() == AfterAgbByte(old(CoreValue()))
    {
      b := 0xFF;
      if cart.Agb? && mode == CART_MODE_AGB && powered {
        b := cart.agb.ReadRom(at);
      }
    }

    method ReadAgbWord() returns (word: seq<byte>)
      requires CoreValue().Valid()
      modifies this`address, this`addrIncremented, CartRepr()
      ensures (CoreValue(), word) == AgbWord(old(CoreValue()))
    {
      var b0 := ReadAgbByte(address * 2);
      var b1 := ReadAgbByte(address * 2 + 1);
      address := address + 1;
      addrIncremented := addrIncremented + 1;
      word := [b0, b1];
    }

    method AgbReadStream(words: nat) returns (s: seq<byte>)
      requires CoreValue().Valid()
      modifies this`address, this`addrIncremented, CartRepr()
      ensures (CoreValue(), s) == AgbStream(old(CoreValue()), words)
    {
      hide AgbWord;
      s := [];
      var i := 0;
      while i < words
        invariant i <= words && |s| == 2 * i
        invariant CoreValue().Valid()
        invariant (CoreValue(), s) == AgbStream(old(CoreValue()), i)
      {
        if address == 0x80_0000 && addrIncremented > 0 {
          ShortStream(old(CoreValue()), i + 1, words);
          return;
        }
        var word := ReadAgbWord();
        s := s + word;
        i := i + 1;
      }
    }

    method CalcCrc(start: nat, n: nat) returns (answer: seq<byte>)
      requires CoreValue().Valid()
      modifies CartRepr()
      ensures (CoreValue(), answer) ==
        (CrcBytes(old(CoreValue()), start, n).0, Be32(crc(CrcBytes(old(CoreValue()), start, n).1)))
    {
      var bytes := [];
      var i := 0;
      while i < n
        invariant i <= n
        invariant CoreValue().Valid()
        invariant (CoreValue(), bytes) == CrcBytes(old(CoreValue()), start, i)
      {
        var b: byte := 0xFF;
        if cart.Agb? {
          b := cart.agb.ReadRom(start + i);
        }
        bytes := bytes + [b];
        i := i + 1;
      }
      answer := Be32(crc(bytes));
    }

    method FlashCommand(addr: nat, value: byte)
      requires CoreValue().Valid()
      modifies CartRepr()
      ensures SlotValue() == FlashWrite(old(SlotValue()), addr, value)
    {
      match cart
      case Dmg(c) =>
        if c.flash != null {
          var at := if addr < 0x8000 then RomAddress(c.Value(), addr) else addr;
          c.flash.WriteCommand(at, value);
        }
        if addr < 0x8000 {
          c.BusWrite(addr, value);
        }
      case Agb(c) =>
        if c.flash != null {
          c.flash.WriteCommand(addr * 2, value);
        }
      case Empty =>
    }

    method FlashCommands(writes: seq<(u32, byte)>)
      requires CoreValue().Valid()
      modifies CartRepr()
      ensures SlotValue() == FlashWrites(old(SlotValue()), writes)
    {
      var i := 0;
      while i < |writes|
        invariant i <= |writes| && SlotValue().Valid()
        invariant SlotValue() == FlashWrites(old(SlotValue()), writes[..i])
      {
        assert writes[..i + 1][..i] == writes[..i];
        FlashCommand(writes[i].0 as nat, writes[i].1);
        i := i + 1;
      }
      assert writes[..i] == writes;
    }

    method ProgramSlot(at: nat, data: seq<byte>)
      modifies CartRepr()
      ensures SlotValue() == SlotProgram(old(SlotValue()), at, data)
    {
      match cart
      case Dmg(c) =>
        if c.flash != null {
          c.flash.ProgramBytes(at, data);
        }
      case Agb(c) =>
        if c.flash != null {
          c.flash.ProgramBytes(at, data);
        }
      case Empty =>
    }

    method ExecFlashProgram(data: seq<byte>)
      requires CoreValue().Valid()
      modifies Repr()
      ensures Value() == FlashChunk(old(Value()), data) && inStep == old(inStep) && asked == old(asked)
    {
      hide ProgramChunk, Core.Get, Slot.Valid;
      if flashCfg.None? {
        dead := true;
        return;
      }
      var buffered := flashCfg.value.programMethod == 2;
      var group, transfer := CoreValue().Get(VAR_BUFFER_SIZE) as nat, CoreValue().TransferSize();
      var fill := bufferFill + |data|;
      ProgramAtCursor(data, if buffered && fill < group then fill else 0);
      if buffered && fill < group {
        out := out + [ACK_CONTINUE];
        expecting := FlashData(transfer);
      } else {
        out := out + [ACK_OK];
      }
    }

    /** The chip takes the data in, the cursor moves on, and the buffer is filled up to `fill`. */
    method ProgramAtCursor(data: seq<byte>, fill: nat)
      requires CoreValue().Valid() && flashCfg.Some?
      requires fill == if MidGroup(CoreValue(), |data|) then bufferFill + |data| else 0
      modifies this`address, this`bufferFill, CartRepr()
      ensures CoreValue() == ProgramChunk(old(CoreValue()), data)
    {
      hide SlotProgram, ProgramAddress, MidGroup;
      ProgramSlot(ProgramAddress(CoreValue()), data);
      address := address + (if cart.Dmg? then |data| else |data| / 2);
      bufferFill := fill;
    }

    method WriteSramByte(value: byte)
      requires CoreValue().Valid()
      modifies this`address, CartRepr()
      ensures CoreValue() == SramWrite(old(CoreValue()), value)
    {
      if cart.Dmg? && mode == CART_MODE_DMG && powered
         && CoreValue().Get(VAR_DMG_ACCESS_MODE) == DMG_ACCESS_RAM_WRITE
         && CoreValue().Get(VAR_DMG_WRITE_CS_PULSE) == 1
      {
        cart.dmg.BusWrite(address % 0x1_0000, value);
      }
      address := address + 1;
    }

    method WriteSram(data: seq<byte>)
      requires CoreValue().Valid()
      modifies this`address, CartRepr()
      ensures CoreValue() == SramWrites(old(CoreValue()), data)
    {
      hide SramWrite;
      var i := 0;
      while i < |data|
        invariant i <= |data| && CoreValue().Valid()
        invariant CoreValue() == SramWrites(old(CoreValue()), data[..i])
      {
        assert data[..i + 1][..i] == data[..i];
        WriteSramByte(data[i]);
        i := i + 1;
      }
      assert data[..i] == data;
    }

    /** The commands that answer with more than a status byte. */
    method ExecStream(frame: seq<byte>) returns (answer: seq<byte>)
      requires CoreValue().Valid() && |frame| > 0 && |frame| == FixedLength(frame[0])
      requires frame[0] in {CMD_DMG_CART_READ, CMD_AGB_CART_READ, CMD_CALC_CRC32}
      modifies this`address, this`addrIncremented, CartRepr()
      ensures (CoreValue(), answer) == Exec(old(CoreValue()), frame)
    {
      if frame[0] == CMD_DMG_CART_READ {
        answer := DmgReadStream(CoreValue().TransferSize());
      } else if frame[0] == CMD_AGB_CART_READ {
        answer := AgbReadStream(CoreValue().TransferSize() / 2);
      } else {
        answer := CalcCrc(address * 2, FromBe32(frame[1..5]) as nat);
      }
    }

    method ExecFrame(frame: seq<byte>) returns (answer: seq<byte>)
      requires CoreValue().Valid() && |frame| > 0 && |frame| == FixedLength(frame[0])
      modifies this`vars, this`mode, this`powered, this`flashCfg, this`address, this`addrIncremented, this`log
      modifies CartRepr()
      ensures (CoreValue(), answer) == Exec(old(CoreValue()), frame)
    {
      var cmd := frame[0];
      answer := [ACK_OK];
      if cmd == CMD_SET_VARIABLE {
        SetVariable(Var(frame[1], FromBe32(frame[2..6])), FromBe32(frame[6..10]));
      } else if cmd == CMD_QUERY_CART_PWR {
        answer := [if powered then 1 else 0];
      } else if cmd == CMD_CART_PWR_ON {
        powered := true;
        log := log + [cmd];
      } else if cmd == CMD_DMG_MBC_RESET {
        if cart.Dmg? {
          cart.dmg.ResetMapper();
        }
        log := log + [cmd];
      } else if cmd == CMD_DMG_CART_WRITE {
        WriteBus(FromBe32(frame[1..5]) as nat % 0x1_0000, frame[5]);
      } else if cmd == CMD_SET_FLASH_CMD {
        flashCfg := Some(FlashConfig(frame[1], frame[2], frame[3], ParsePairs(frame[4..], 6)));
      } else if cmd in {CMD_DMG_CART_READ, CMD_AGB_CART_READ, CMD_CALC_CRC32} {
        answer := ExecStream(frame);
      } else {
        log := log + [cmd];
      }
    }

    method TakeFrame()
      requires Value().Valid() && expecting == Opcode && buf != [] && 0 < FixedLength(buf[0]) <= |buf|
      modifies Repr()
      ensures Value() == FrameTaken(old(Value())) && inStep == old(inStep) && asked == old(asked)
    {
      hide Exec;
      var n := FixedLength(buf[0]);
      var frame := buf[..n];
      buf := buf[n..];
      var answer := ExecFrame(frame);
      out := out + answer;
    }

    method TakeOpcode()
      requires Value().Valid() && expecting == Opcode && buf != [] && FixedLength(buf[0]) <= |buf|
      modifies Repr()
      ensures Value() == OpcodeTaken(old(Value())) && inStep == old(inStep) && asked == old(asked)
    {
      hide FrameTaken;
      var cmd := buf[0];
      if FixedLength(cmd) > 0 {
        TakeFrame();
      } else if cmd == CMD_DMG_CART_WRITE_SRAM || cmd == CMD_FLASH_PROGRAM {
        buf := buf[1..];
        expecting := Data(cmd, CoreValue().TransferSize());
      } else if cmd == CMD_CART_WRITE_FLASH_CMD {
        expecting := FlashCmdHeader;
      } else {
        dead := true;
      }
    }

    method TakeData()
      requires Value().Valid() && !dead && expecting.Data? && |buf| >= expecting.len
      modifies Repr()
      ensures Value() == DataTaken(old(Value()), old(expecting).cmd, old(expecting).len)
      ensures inStep == old(inStep) && asked == old(asked)
    {
      hide SramWrites, FlashChunk;
      var cmd := expecting.cmd;
      var data := buf[..expecting.len];
      buf := buf[expecting.len..];
      expecting := Opcode;
      if cmd == CMD_FLASH_PROGRAM {
        ExecFlashProgram(data);
      } else {
        WriteSram(data);
        out := out + [ACK_OK];
      }
    }

    method TakeChunk()
      requires Value().Valid() && expecting.FlashData? && 0 < expecting.len <= |buf|
      modifies Repr()
      ensures Value() == ChunkTaken(old(Value()), old(expecting).len) && inStep == old(inStep) && asked == old(asked)
    {
      hide FlashChunk;
      var data := buf[..expecting.len];
      buf := buf[expecting.len..];
      expecting := Opcode;
      ExecFlashProgram(data);
    }

    method TakeFlashCommands(count: nat)
      requires Value().Valid() && !dead && expecting == FlashCmdHeader
      requires |buf| >= 3 + 6 * count && buf[2] as nat == count
      modifies Repr()
      ensures Value() == CommandsTaken(old(Value()), count) && inStep == old(inStep) && asked == old(asked)
    {
      hide FlashWrites, ParsePairs, Crashed;
      var total := 3 + 6 * count;
      var writes := ParsePairs(buf[3..total], count);
      buf := buf[total..];
      expecting := Opcode;
      FlashCommands(writes);
      if Crashed(SlotValue()) {
        dead := true;
      } else {
        out := out + [ACK_OK];
      }
    }

    method PumpWire()
      requires Value().Valid()
      modifies Repr()
      ensures Value() == Pump(old(Value())) && inStep == old(inStep) && asked == old(asked)
    {
      hide CommandsTaken, DataTaken, ChunkTaken, OpcodeTaken, Exec, CartRepr;
      while !dead
        invariant Value().Valid() && inStep == old(inStep) && asked == old(asked)
        invariant Pump(Value()) == Pump(old(Value()))
        decreases !dead, |buf|, Rank(expecting)
      {
        match expecting
        case FlashData(len) =>
          if |buf| < len {
            return;
          }
          if len == 0 {
            dead := true;
            return;
          }
          PumpChunk(Value(), len);
          TakeChunk();
        case Data(_, len) =>
          if |buf| < len {
            return;
          }
          PumpData(Value(), expecting.cmd, len);
          TakeData();
        case FlashCmdHeader =>
          if |buf| < 3 {
            return;
          }
          var count := buf[2] as nat;
          if |buf| < 3 + 6 * count {
            return;
          }
          PumpCommands(Value(), count);
          TakeFlashCommands(count);
        case Opcode =>
          if buf == [] || |buf| < FixedLength(buf[0]) {
            return;
          }
          PumpOpcode(Value());
          TakeOpcode();
      }
    }

    /**
     Whether a run whose answers would be `answers` from the `from`th on has come to its end, or to its
     first lost one.
     */
    predicate Ran(from: nat, answers: seq<Reply>, ok: bool)
      reads this
    {
      link.Ran(from, answers, ok, asked, out)
    }

    /** The host writes `bytes`, meaning them as raw data or as a command. */
    method WriteAll(bytes: seq<byte>, ghost raw: bool)
      requires Value().Valid()
      modifies Repr()
      ensures Value() == Received(old(Value()), bytes)
      ensures inStep == (old(inStep) && Agrees(old(Value()), |bytes|, raw)) && asked == old(asked)
    {
      inStep := inStep && Agrees(Value(), |bytes|, raw);
      buf := buf + bytes;
      PumpWire();
    }

    /** The host reads `n` bytes; on a timeout some part of the answer may already be gone. */
    method ReadExact(n: nat) returns (r: Result<seq<byte>, IoError>)
      modifies this`out, this`asked
      ensures asked == old(asked) + 1
      ensures r.Ok? <==> n <= |old(out)| && !link.Loses(old(asked))
      ensures r.Ok? ==> r.value == old(out)[..n] && out == old(out)[n..]
      ensures r.Err? ==> out == if link.Loses(old(asked)) then link.Rest(old(asked), old(out)) else []
    {
      var k := asked;
      asked := asked + 1;
      if link.Loses(k) {
        out := link.Rest(k, out);
        r := Err(TimedOut);
      } else if n <= |out| {
        r := Ok(out[..n]);
        out := out[n..];
      } else {
        out := [];
        r := Err(TimedOut);
      }
    }

    method FlushInput()
      modifies this`out
      ensures out == []
    {
      out := [];
    }
  }

  /** Whether the device is waiting for what the host is about to send: `n` raw bytes, or a command. */
  predicate Agrees(d: Device, n: nat, raw: bool) {
    && !d.dead && d.buf == []
    && if raw then d.expecting == FlashData(n) || (d.expecting.Data? && d.expecting.len == n)
       else d.expecting == Opcode
  }

  lemma {:induction false} ShortStream(c: Core, i: nat, words: nat)
    requires c.Valid() && i <= words && |AgbStream(c, i).1| < 2 * i
    ensures AgbStream(c, words) == AgbStream(c, i)
  {
    if i < words {
      ShortStream(c, i, words - 1);
    }
  }
}
