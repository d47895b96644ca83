/**
 The G-MMC1 simulator: a megabyte of flash and a hidden map sector behind a mapper that must be
 woken and told, register by register, what to do. Status reads count down after an erase or a map
 commit; every other part of the flash command set is accepted without checking its order, as the
 simulator does. Opcodes only the detection flows use are treated as unserved.
 */
module SimGbMemory {
  import opened Bytes
  import opened Protocol
  import opened FlashChip
  import opened SimGbx

  const IMAGE_SIZE: nat := 0x10_0000
  const MAP_SIZE: nat := 0x80
  const BANK: nat := 0x4000

  /** The mapper and the flash behind it. */
  datatype Mmc = Mmc(
    flash: seq<byte>,
    hidden: seq<byte>,
    bank: nat,
    bankBroken: bool,
    awake: bool,
    mapFull: bool,
    mapRead: bool,
    mapProgram: bool,
    autoselect: bool,
    busy: nat,
    staged: seq<byte>)
  {
    predicate Valid() {
      |flash| == IMAGE_SIZE && |hidden| == MAP_SIZE && bank < 0x100 && busy <= 2
    }
  }

  /** A bus write the cart has heard, or a command of the firmware that does nothing else the model can see. */
  datatype Event = Wrote(addr: nat, value: byte) | Command(frame: seq<byte>)

  /**
   Everything a command can read or change: the mapper, its staging registers, the variables, and
   what has been heard so far. The simulator ignores much of what the real mapper insists on, so
   the driver's sequences are stated on what was heard.
   */
  datatype Gbm = Gbm(
    mmc: Mmc,
    cmd: byte,
    argHi: byte,
    argLo: byte,
    arg: byte,
    vars: map<Var, u32>,
    heard: seq<Event>)
  {
    predicate Valid() {
      mmc.Valid()
    }

    function Get(v: Var): u32 {
      if v in vars then vars[v] else 0
    }
  }

  /** `n` erased cells. */
  function Blank(n: nat): (s: seq<byte>)
    ensures |s| == n
  {
    seq(n, _ => ERASED)
  }

  /** The flash offset a bus address shows; the switchable window cannot show bank 0. */
  function FlashAbs(m: Mmc, bus: nat): nat {
    if bus < BANK then bus
    else (if m.bankBroken || m.bank == 0 then 1 else m.bank) * BANK + (bus - BANK)
  }

  /** A flash command through the mapper. */
  function FlashCommand(m: Mmc, addr: nat, data: byte): (r: Mmc)
    ensures m.Valid() ==> r.Valid()
  {
    if data == 0xF0 then m.(autoselect := false, mapRead := false, mapProgram := false)
    else if addr != 0x5555 then m
    else if data == 0x90 then m.(autoselect := true)
    else if data == 0x10 then m.(flash := EraseRange(m.flash, 0, |m.flash|), busy := 2)
    else if data == 0x04 then m.(hidden := Blank(MAP_SIZE), busy := 2)
    else if data == 0xE0 then m.(mapProgram := true)
    else if data == 0x77 then m.(mapRead := true)
    else m
  }

  /** The staged mapper command. */
  function Executed(c: Gbm): (r: Mmc)
    ensures c.Valid() ==> r.Valid()
  {
    if c.cmd == 0x09 then c.mmc.(awake := true)
    else if c.cmd == 0x08 then c.mmc.(awake := false)
    else if c.cmd == 0x04 then c.mmc.(mapFull := true)
    else if c.cmd == 0x05 then c.mmc.(mapFull := false)
    else if c.cmd == 0x0F then FlashCommand(c.mmc, c.argHi as nat * 0x100 + c.argLo as nat, c.arg)
    else c.mmc
  }

  /** A write to one of the staging registers; the others of the window are not looked at. */
  function Staged(c: Gbm, addr: nat, value: byte): (r: Gbm)
    ensures r.mmc == c.mmc && r.heard == c.heard && r.vars == c.vars
  {
    if addr == 0x0120 then c.(cmd := value)
    else if addr == 0x0125 then c.(argHi := value)
    else if addr == 0x0126 then c.(argLo := value)
    else if addr == 0x0127 then c.(arg := value)
    else c
  }

  /** The bank registers, and the trigger that commits a staged map page. */
  function Banking(m: Mmc, addr: nat, value: byte): (r: Mmc)
    ensures m.Valid() ==> r.Valid()
  {
    if addr == 0x2100 then m.(bank := value as nat, bankBroken := false)
    else if addr == 0x3000 then m.(bankBroken := true)
    else if addr == 0x007F && value == 0xFF && m.mapProgram && |m.staged| >= MAP_SIZE then
      m.(hidden := m.staged[..MAP_SIZE], busy := 2)
    else m
  }

  /** A bus write: staging, executing what is staged, banking. */
  function BusWrite(c0: Gbm, addr: nat, value: byte): (r: Gbm)
    ensures c0.Valid() ==> r.Valid()
    ensures r.heard == c0.heard + [Wrote(addr, value)] && r.vars == c0.vars
  {
    var c := c0.(heard := c0.heard + [Wrote(addr, value)]);
    if 0x0120 <= addr <= 0x0127 then Staged(c, addr, value)
    else if addr == 0x013F && value == 0xA5 then c.(mmc := Executed(c))
    else c.(mmc := Banking(c.mmc, addr, value))
  }

  /** The mapper after a list of bus writes. */
  function BusWrites(c: Gbm, writes: seq<(nat, byte)>): Gbm {
    if writes == [] then c
    else
      var last := writes[|writes| - 1];
      BusWrite(BusWrites(c, writes[..|writes| - 1]), last.0, last.1)
  }

  /** Bus writes that never stage the chip-erase argument leave the flash alone, whatever they execute. */
  lemma {:induction false} UnstagedKeepsFlash(c: Gbm, writes: seq<(nat, byte)>)
    requires c.arg != 0x10 && forall i :: 0 <= i < |writes| ==> writes[i] != (0x0127, 0x10)
    ensures BusWrites(c, writes).mmc.flash == c.mmc.flash && BusWrites(c, writes).arg != 0x10
  {
    hide BusWrite;
    if writes != [] {
      var last := writes[|writes| - 1];
      UnstagedKeepsFlash(c, writes[..|writes| - 1]);
      UnstagedWrite(BusWrites(c, writes[..|writes| - 1]), last);
    }
  }

  lemma UnstagedWrite(c: Gbm, w: (nat, byte))
    requires c.arg != 0x10 && w != (0x0127, 0x10)
    ensures BusWrite(c, w.0, w.1).mmc.flash == c.mmc.flash && BusWrite(c, w.0, w.1).arg != 0x10
  {
    hide FlashCommand;
    UnstagedCommand(c.mmc, c.argHi as nat * 0x100 + c.argLo as nat, c.arg);
  }

  lemma UnstagedCommand(m: Mmc, addr: nat, data: byte)
    requires data != 0x10
    ensures FlashCommand(m, addr, data).flash == m.flash
  {
    hide EraseRange, Blank;
  }

  /** One byte at bus address `at`, as a read of `len` bytes shows it. */
  function ByteAt(m: Mmc, at: nat, len: nat): byte
    requires m.Valid()
  {
    if m.autoselect then (if at % 2 == 0 then 0xC2 else 0x89)
    else if m.mapRead && at < MAP_SIZE then m.hidden[at]
    else if len == 1 then (if m.busy > 0 then 0x00 else 0x80)
    else if FlashAbs(m, at) < |m.flash| then m.flash[FlashAbs(m, at)]
    else 0xFF
  }

  function BytesAt(m: Mmc, at: nat, len: nat): (s: seq<byte>)
    requires m.Valid()
    ensures |s| == len
  {
    seq(len, i requires 0 <= i < len => ByteAt(m, at + i, len))
  }

  /** Whether a one-byte read at `at` is a status poll. */
  predicate IsPoll(m: Mmc, at: nat, len: nat) {
    len == 1 && !m.autoselect && !(m.mapRead && at < MAP_SIZE)
  }

  /** A streamed read: polls count down, data reads move the address. */
  function ReadBytes(c: Gbm): (r: (Gbm, seq<byte>))
    requires c.Valid()
    ensures r.0.Valid() && r.0.heard == c.heard
  {
    var at, len := c.Get(VAR_ADDRESS) as nat, c.Get(VAR_TRANSFER_SIZE) as nat;
    var polled := IsPoll(c.mmc, at, len) && c.mmc.busy > 0;
    var c1 := c.(mmc := c.mmc.(busy := if polled then c.mmc.busy - 1 else c.mmc.busy));
    var moves := !c.mmc.autoselect && !(c.mmc.mapRead && at < MAP_SIZE) && len != 1;
    (if moves then c1.(vars := c1.vars[VAR_ADDRESS := ((at + len) % 0x1_0000_0000) as u32]) else c1,
     BytesAt(c.mmc, at, len))
  }

  /** Flash programming at the address variable, which moves on. */
  function ProgramAt(c: Gbm, data: seq<byte>): (r: Gbm)
    ensures (c.Valid() ==> r.Valid()) && r.heard == c.heard
  {
    var at := c.Get(VAR_ADDRESS) as nat;
    c.(mmc := c.mmc.(flash := Programmed(c.mmc.flash, FlashAbs(c.mmc, at), data)),
       vars := c.vars[VAR_ADDRESS := ((at + |data|) % 0x1_0000_0000) as u32])
  }

  /** Frame length of the commands with a fixed one, the opcode included. */
  function CommandLength(cmd: byte): nat {
    if cmd in {CMD_SET_MODE_AGB, CMD_SET_MODE_DMG, CMD_SET_VOLTAGE_3_3V, CMD_SET_VOLTAGE_5V,
               CMD_SET_ADDR_AS_INPUTS, CMD_DMG_MBC_RESET, CMD_AGB_BOOTUP_SEQUENCE, CMD_QUERY_CART_PWR,
               CMD_CART_PWR_ON, CMD_DMG_CART_READ} then 1
    else if cmd == CMD_DMG_CART_WRITE then 6
    else if cmd == CMD_SET_VARIABLE then 10
    else if cmd == CMD_SET_FLASH_CMD then 40
    else 0
  }

  function Answered(c: Gbm, frame: seq<byte>): (r: (Gbm, seq<byte>))
    requires c.Valid() && |frame| > 0 && |frame| == CommandLength(frame[0])
    ensures r.0.Valid()
  {
    if frame[0] == CMD_SET_VARIABLE then
      (c.(vars := c.vars[Var(frame[1], FromBe32(frame[2..6])) := FromBe32(frame[6..10])]), [ACK_OK])
    else if frame[0] == CMD_DMG_CART_WRITE then
      (BusWrite(c, FromBe32(frame[1..5]) as nat % 0x1_0000, frame[5]), [ACK_OK])
    else if frame[0] == CMD_DMG_CART_READ then ReadBytes(c)
    else if frame[0] == CMD_QUERY_CART_PWR then (c, [1])
    else (c.(heard := c.heard + [Command(frame)]), [ACK_OK])
  }

  datatype Await = Opcode | Payload(cmd: byte, len: nat)

  datatype GbmDevice = GbmDevice(core: Gbm, await: Await, buf: seq<byte>, out: seq<byte>, dead: bool)
  {
    predicate Valid() {
      core.Valid()
    }

    predicate Ready() {
      Valid() && !dead && await == Opcode && buf == []
    }
  }

  /** A complete payload. */
  function Delivered(d: GbmDevice, cmd: byte, data: seq<byte>): (r: GbmDevice)
    requires d.Valid()
    ensures r.Valid() && r.await == d.await && r.buf == d.buf
  {
    var c := if cmd == CMD_FLASH_PROGRAM then ProgramAt(d.core, data)
             else d.core.(mmc := d.core.mmc.(staged := data));
    d.(core := c, out := d.out + [ACK_OK])
  }

  function Pump(d: GbmDevice): (r: GbmDevice)
    requires d.Valid()
    ensures r.Valid()
    decreases |d.buf|, if d.await.Payload? then 1 else 0
  {
    if d.dead then d
    else if d.await.Payload? then
      var len := d.await.len;
      if |d.buf| < len then d
      else Pump(Delivered(d.(buf := d.buf[len..], await := Opcode), d.await.cmd, d.buf[..len]))
    else if d.buf == [] then d
    else
      var cmd := d.buf[0];
      var n := CommandLength(cmd);
      if n > 0 then
        if |d.buf| < n then d
        else
          var (c, answer) := Answered(d.core, d.buf[..n]);
          Pump(d.(buf := d.buf[n..], core := c, out := d.out + answer))
      else if cmd == CMD_FLASH_PROGRAM then
        Pump(d.(buf := d.buf[1..], await := Payload(cmd, d.core.Get(VAR_TRANSFER_SIZE) as nat)))
      else if cmd == CMD_DMG_MBC6_MMSA_WRITE_FLASH then
        Pump(d.(buf := d.buf[1..], await := Payload(cmd, MAP_SIZE)))
      else d.(dead := true)
  }

  function Received(d: GbmDevice, bytes: seq<byte>): (r: GbmDevice)
    requires d.Valid()
    ensures r.Valid()
  {
    Pump(d.(buf := d.buf + bytes))
  }

  lemma CommandFrame(d: GbmDevice, frame: seq<byte>)
    requires d.Ready() && |frame| > 0 && |frame| == CommandLength(frame[0])
    ensures var (c, answer) := Answered(d.core, frame);
            Received(d, frame) == d.(core := c, out := d.out + answer)
  {
    var (c, answer) := Answered(d.core, frame);
    var d0 := d.(buf := d.buf + frame);
    assert d0.buf == frame && frame[..|frame|] == frame && frame[|frame|..] == [];
    assert Pump(d0) == Pump(d0.(buf := [], core := c, out := d.out + answer));
  }

  /** An opcode that takes a payload, then the payload. */
  lemma PayloadFrame(d: GbmDevice, cmd: byte, data: seq<byte>)
    requires d.Ready() && |data| > 0
    requires (cmd == CMD_FLASH_PROGRAM && |data| == d.core.Get(VAR_TRANSFER_SIZE) as nat)
          || (cmd == CMD_DMG_MBC6_MMSA_WRITE_FLASH && |data| == MAP_SIZE)
    ensures Received(d, [cmd]) == d.(await := Payload(cmd, |data|))
    ensures Received(d.(await := Payload(cmd, |data|)), data) == Delivered(d, cmd, data)
  {
    hide Delivered;
    PayloadOpcode(d, cmd, |data|);
    var d1 := d.(await := Payload(cmd, |data|), buf := d.buf + data);
    assert d1.buf == data && data[..|data|] == data && data[|data|..] == [];
    assert Pump(d1) == Pump(Delivered(d, cmd, data));
  }

  lemma PayloadOpcode(d: GbmDevice, cmd: byte, n: nat)
    requires d.Ready() && n > 0
    requires (cmd == CMD_FLASH_PROGRAM && n == d.core.Get(VAR_TRANSFER_SIZE) as nat)
          || (cmd == CMD_DMG_MBC6_MMSA_WRITE_FLASH && n == MAP_SIZE)
    ensures Received(d, [cmd]) == d.(await := Payload(cmd, n))
  {
    hide Delivered, Answered;
    var d0 := d.(buf := d.buf + [cmd]);
    assert d0.buf == [cmd] && [cmd][1..] == [];
    assert Pump(d0) == Pump(d.(await := Payload(cmd, n)));
  }

  class SimGbMemory {
    /** Whether reads on this link may time out although the device answered. */
    const lossy: bool
    var flash: seq<byte>
    var hidden: seq<byte>
    var out: seq<byte>
    var buf: seq<byte>
    var vars: map<Var, u32>
    var bank: nat
    var bankBroken: bool
    var awake: bool
    var mapFull: bool
    var mapRead: bool
    var mapProgram: bool
    var autoselect: bool
    var busy: nat
    var cmd: byte
    var argHi: byte
    var argLo: byte
    var arg: byte
    var staged: seq<byte>
    var heard: seq<Event>
    var await: Await
    var dead: bool

    function MmcValue(): Mmc
      reads this
    {
      Mmc(flash, hidden, bank, bankBroken, awake, mapFull, mapRead, mapProgram, autoselect, busy, staged)
    }

    function CoreValue(): Gbm
      reads this
    {
      Gbm(MmcValue(), cmd, argHi, argLo, arg, vars, heard)
    }

    function Value(): GbmDevice
      reads this
    {
      GbmDevice(CoreValue(), await, buf, out, dead)
    }

    predicate Ready()
      reads this
      ensures Ready() ==> CoreValue().Valid()
    {
      Value().Ready()
    }

    /** A cart whose flash starts with `initial`. */
    constructor (initial: seq<byte>, lossy: bool)
      ensures Ready() && out == [] && this.lossy == lossy
      ensures flash == Spliced(Blank(IMAGE_SIZE), 0, initial)
    {
      flash := Spliced(Blank(IMAGE_SIZE), 0, initial);
      hidden := Blank(MAP_SIZE);
      this.lossy := lossy;
      out, buf, vars, staged, await, dead := [], [], map[], [], Opcode, false;
      bank, bankBroken, awake, mapFull, mapRead, mapProgram := 1, false, false, false, false, false;
      autoselect, busy, cmd, argHi, argLo, arg, heard := false, 0, 0, 0, 0, 0, [];
    }

    method CommandFlash(addr: nat, data: byte)
      modifies this`flash, this`hidden, this`autoselect, this`mapRead, this`mapProgram, this`busy
      ensures MmcValue() == FlashCommand(old(MmcValue()), addr, data)
    {
      if data == 0xF0 {
        autoselect, mapRead, mapProgram := false, false, false;
      } else if addr == 0x5555 {
        if data == 0x90 {
          autoselect := true;
        } else if data == 0x10 {
          flash := EraseRange(flash, 0, |flash|);
          busy := 2;
        } else if data == 0x04 {
          hidden := Blank(MAP_SIZE);
          busy := 2;
        } else if data == 0xE0 {
          mapProgram := true;
        } else if data == 0x77 {
          mapRead := true;
        }
      }
    }

    method Execute()
      modifies this`flash, this`hidden, this`autoselect, this`mapRead, this`mapProgram, this`busy
      modifies this`awake, this`mapFull
      ensures MmcValue() == Executed(old(CoreValue()))
    {
      hide FlashCommand;
      if cmd == 0x09 {
        awake := true;
      } else if cmd == 0x08 {
        awake := false;
      } else if cmd == 0x04 {
        mapFull := true;
      } else if cmd == 0x05 {
        mapFull := false;
      } else if cmd == 0x0F {
        CommandFlash(argHi as nat * 0x100 + argLo as nat, arg);
      }
    }

    method Stage(addr: nat, value: byte)
      modifies this`cmd, this`argHi, this`argLo, this`arg
      ensures CoreValue() == Staged(old(CoreValue()), addr, value)
    {
      if addr == 0x0120 {
        cmd := value;
      } else if addr == 0x0125 {
        argHi := value;
      } else if addr == 0x0126 {
        argLo := value;
      } else if addr == 0x0127 {
        arg := value;
      }
    }

    method Bank(addr: nat, value: byte)
      modifies this`bank, this`bankBroken, this`hidden, this`busy
      ensures MmcValue() == Banking(old(MmcValue()), addr, value)
    {
      if addr == 0x2100 {
        bank, bankBroken := value as nat, false;
      } else if addr == 0x3000 {
        bankBroken := true;
      } else if addr == 0x007F && value == 0xFF && mapProgram && |staged| >= MAP_SIZE {
        hidden := staged[..MAP_SIZE];
        busy := 2;
      }
    }

    method WriteBus(addr: nat, value: byte)
      modifies this`flash, this`hidden, this`autoselect, this`mapRead, this`mapProgram, this`busy
      modifies this`awake, this`mapFull, this`bank, this`bankBroken
      modifies this`cmd, this`argHi, this`argLo, this`arg, this`heard
      ensures CoreValue() == BusWrite(old(CoreValue()), addr, value)
    {
      hide Executed, Staged, Banking;
      heard := heard + [Wrote(addr, value)];
      if 0x0120 <= addr <= 0x0127 {
        Stage(addr, value);
      } else if addr == 0x013F && value == 0xA5 {
        Execute();
      } else {
        Bank(addr, value);
      }
    }

    method Read() returns (s: seq<byte>)
      requires CoreValue().Valid()
      modifies this`busy, this`vars
      ensures (CoreValue(), s) == ReadBytes(old(CoreValue()))
    {
      hide ByteAt;
      var at, len := CoreValue().Get(VAR_ADDRESS) as nat, CoreValue().Get(VAR_TRANSFER_SIZE) as nat;
      var moves := !(autoselect || (mapRead && at < MAP_SIZE)) && len != 1;
      s := [];
      var i := 0;
      ghost var m := MmcValue();
      ghost var polled := IsPoll(m, at, len) && m.busy > 0;
      while i < len
        invariant vars == old(vars) && i <= len && s == BytesAt(m, at, len)[..i]
        invariant busy == if i > 0 && polled then m.busy - 1 else m.busy
      {
        var b := ByteAt(MmcValue(), at + i, len);
        BusyMatters(m, MmcValue(), at + i, len, i);
        if IsPoll(MmcValue(), at + i, len) && busy > 0 {
          busy := busy - 1;
        }
        s := s + [b];
        i := i + 1;
      }
      assert s == BytesAt(m, at, len);
      if moves {
        vars := vars[VAR_ADDRESS := ((at + len) % 0x1_0000_0000) as u32];
      }
    }

    method ProgramFlash(data: seq<byte>)
      modifies this`flash, this`vars
      ensures CoreValue() == ProgramAt(old(CoreValue()), data)
    {
      var at := CoreValue().Get(VAR_ADDRESS) as nat;
      var base := FlashAbs(MmcValue(), at);
      ghost var before := flash;
      var i := 0;
      while i < |data|
        invariant vars == old(vars) && i <= |data| && flash == Programmed(before, base, data[..i])
      {
        ProgrammedOne(before, base, data, i);
        if base + i < |flash| {
          flash := flash[base + i := AndByte(flash[base + i], data[i])];
        }
        i := i + 1;
      }
      assert data[..i] == data;
      vars := vars[VAR_ADDRESS := ((at + |data|) % 0x1_0000_0000) as u32];
    }

    method Answer(frame: seq<byte>) returns (answer: seq<byte>)
      requires CoreValue().Valid() && |frame| > 0 && |frame| == CommandLength(frame[0])
      modifies this`flash, this`hidden, this`autoselect, this`mapRead, this`mapProgram, this`busy
      modifies this`awake, this`mapFull, this`bank, this`bankBroken
      modifies this`cmd, this`argHi, this`argLo, this`arg, this`vars, this`heard
      ensures (CoreValue(), answer) == Answered(old(CoreValue()), frame)
    {
      hide BusWrite, ReadBytes;
      answer := [ACK_OK];
      if frame[0] == CMD_SET_VARIABLE {
        vars := vars[Var(frame[1], FromBe32(frame[2..6])) := FromBe32(frame[6..10])];
      } else if frame[0] == CMD_DMG_CART_WRITE {
        WriteBus(FromBe32(frame[1..5]) as nat % 0x1_0000, frame[5]);
      } else if frame[0] == CMD_DMG_CART_READ {
        answer := Read();
      } else if frame[0] == CMD_QUERY_CART_PWR {
        answer := [1];
      } else {
        heard := heard + [Command(frame)];
      }
    }

    method TakePayload()
      requires Value().Valid() && !dead && await.Payload? && |buf| >= await.len
      modifies this
      ensures Value().Valid() && Pump(Value()) == Pump(old(Value()))
      ensures |buf| <= |old(buf)| && await == Opcode
    {
      hide ProgramAt;
      var command, data := await.cmd, buf[..await.len];
      buf := buf[await.len..];
      await := Opcode;
      if command == CMD_FLASH_PROGRAM {
        ProgramFlash(data);
      } else {
        staged := data;
      }
      out := out + [ACK_OK];
    }

    method TakeCommand()
      requires Value().Valid() && !dead && await == Opcode && buf != [] && |buf| >= CommandLength(buf[0])
      modifies this
      ensures Value().Valid() && Pump(Value()) == Pump(old(Value()))
      ensures dead || |buf| < |old(buf)|
    {
      hide Answered;
      var n := CommandLength(buf[0]);
      if n > 0 {
        var frame := buf[..n];
        buf := buf[n..];
        var answer := Answer(frame);
        out := out + answer;
      } else if buf[0] == CMD_FLASH_PROGRAM {
        await := Payload(buf[0], CoreValue().Get(VAR_TRANSFER_SIZE) as nat);
        buf := buf[1..];
      } else if buf[0] == CMD_DMG_MBC6_MMSA_WRITE_FLASH {
        await := Payload(buf[0], MAP_SIZE);
        buf := buf[1..];
      } else {
        dead := true;
      }
    }

    method WriteAll(bytes: seq<byte>)
      requires Value().Valid()
      modifies this
      ensures Value() == Received(old(Value()), bytes)
    {
      hide Answered, Delivered;
      buf := buf + bytes;
      while !dead
        invariant Value().Valid() && Pump(Value()) == Received(old(Value()), bytes)
        decreases !dead, |buf|, await.Payload?
      {
        if await.Payload? {
          if |buf| < await.len {
            return;
          }
          TakePayload();
        } else {
          if buf == [] || |buf| < CommandLength(buf[0]) {
            return;
          }
          TakeCommand();
        }
      }
    }

    /** The host reads `n` bytes; on a timeout some part of the answer may already be gone. */
    method ReadExact(n: nat) returns (r: Result<seq<byte>, IoError>)
      modifies this`out
      ensures r.Ok? ==> n <= |old(out)| && r.value == old(out)[..n] && out == old(out)[n..]
      ensures r.Err? ==> lossy || n > |old(out)|
    {
      if n <= |out| {
        var arrives := *;
        if arrives || !lossy {
          r := Ok(out[..n]);
          out := out[n..];
          return;
        }
      }
      var gone :| 0 <= gone <= |out|;
      out := out[gone..];
      r := Err(TimedOut);
    }

    method FlushInput()
      modifies this`out
      ensures out == []
    {
      out := [];
    }
  }

  lemma ProgrammedOne(data: seq<byte>, at: nat, bytes: seq<byte>, i: nat)
    requires i < |bytes|
    ensures Programmed(data, at, bytes[..i + 1])
         == var before := Programmed(data, at, bytes[..i]);
            if at + i < |data| then before[at + i := AndByte(before[at + i], bytes[i])] else before
  {
  }

  /** The busy count shows in a poll only, and a poll is one byte long. */
  lemma BusyMatters(m: Mmc, m1: Mmc, at: nat, len: nat, i: nat)
    requires m.Valid() && m1 == m.(busy := m1.busy) && m1.Valid() && i < len && (i == 0 ==> m1 == m)
    ensures ByteAt(m1, at, len) == ByteAt(m, at, len)
    ensures IsPoll(m1, at, len) == IsPoll(m, at, len)
  {
  }
}
