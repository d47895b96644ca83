/**
 The device side of the wire: bytes received but not yet consumed, bytes queued for the host, and
 what the parser expects next.

 The simulator's panics (an opcode it does not serve, FLASH_PROGRAM before SET_FLASH_CMD) and its
 one endless loop (a zero-length continue chunk) are the absorbing state `dead`. Opcodes that only
 flows outside this model use are treated as unserved.
 */
module GbxWire {
  import opened Bytes
  import opened Protocol
  import opened GbxCore

  datatype Expect =
    | Opcode
    | Data(cmd: byte, len: nat)
    | FlashData(len: nat)
    | FlashCmdHeader

  datatype Device = Device(core: Core, expecting: Expect, buf: seq<byte>, out: seq<byte>, dead: bool)
  {
    /** Only a device that expects the rest of a buffered group has one partly filled. */
    predicate Valid() {
      core.Valid() && (dead || expecting.FlashData? || core.bufferFill == 0)
    }

    /** Waiting for more raw data than `n` further bytes will make. */
    predicate Swallows(n: nat) {
      Valid() && !dead && expecting.FlashData? && |buf| + n < expecting.len
    }

    /** Alive, between commands, nothing half received. */
    predicate Ready() {
      Valid() && !dead && expecting == Opcode && buf == []
    }
  }

  /** Frame length of the commands with a fixed one, the opcode included. */
  function FixedLength(cmd: byte): (n: nat) {
    if cmd in {CMD_SET_MODE_AGB, CMD_SET_MODE_DMG, CMD_SET_VOLTAGE_3_3V, CMD_SET_VOLTAGE_5V,
               CMD_SET_ADDR_AS_INPUTS, CMD_DMG_MBC_RESET, CMD_AGB_BOOTUP_SEQUENCE, CMD_QUERY_CART_PWR,
               CMD_CART_PWR_ON, CMD_DMG_CART_READ, CMD_AGB_CART_READ} then 1
    else if cmd == CMD_CALC_CRC32 then 5
    else if cmd == CMD_DMG_CART_WRITE then 6
    else if cmd == CMD_SET_VARIABLE then 10
    else if cmd == CMD_SET_FLASH_CMD then 40
    else 0
  }

  /** A complete fixed-length command: the new core and the bytes answered. */
  function Exec(c: Core, frame: seq<byte>): (r: (Core, seq<byte>))
    requires c.Valid() && |frame| > 0 && |frame| == FixedLength(frame[0])
    ensures r.0.Valid() && r.0.bufferFill == c.bufferFill
  {
    var cmd := frame[0];
    if cmd == CMD_SET_VARIABLE then
      (SetVar(c, Var(frame[1], FromBe32(frame[2..6])), FromBe32(frame[6..10])), [ACK_OK])
    else if cmd == CMD_QUERY_CART_PWR then (c, [if c.powered then 1 else 0])
    else if cmd == CMD_CART_PWR_ON then (Logged(c.(powered := true), cmd), [ACK_OK])
    else if cmd == CMD_DMG_MBC_RESET then (MbcReset(c), [ACK_OK])
    else if cmd == CMD_DMG_CART_READ then DmgStream(c, c.TransferSize())
    else if cmd == CMD_AGB_CART_READ then AgbStream(c, c.TransferSize() / 2)
    else if cmd == CMD_DMG_CART_WRITE then (DmgWrite(c, FromBe32(frame[1..5]) as nat % 0x1_0000, frame[5]), [ACK_OK])
    else if cmd == CMD_SET_FLASH_CMD then
      (c.(flashCfg := Some(FlashConfig(frame[1], frame[2], frame[3], ParsePairs(frame[4..], 6)))), [ACK_OK])
    else if cmd == CMD_CALC_CRC32 then
      var (c1, bytes) := CrcBytes(c, c.address * 2, FromBe32(frame[1..5]) as nat);
      (c1, Be32(c.crc(bytes)))
    else (Logged(c, cmd), [ACK_OK])
  }

  /** A complete programming chunk: a group still open is acknowledged with "continue" and expects raw data next. */
  function FlashChunk(d: Device, data: seq<byte>): (r: Device)
    requires d.core.Valid()
    ensures r.Valid() && r.buf == d.buf
    ensures r.expecting == d.expecting || r.expecting.FlashData?
  {
    if d.core.flashCfg.None? then d.(dead := true)
    else if MidGroup(d.core, |data|) then
      d.(core := ProgramChunk(d.core, data), out := d.out + [ACK_CONTINUE],
         expecting := FlashData(d.core.TransferSize()))
    else d.(core := ProgramChunk(d.core, data), out := d.out + [ACK_OK])
  }

  /**
   A complete flash-command frame of `count` writes consumed from the front of the buffer; a crash ends
   everything.
   */
  function CommandsTaken(d: Device, count: nat): (r: Device)
    requires d.Valid() && d.expecting == FlashCmdHeader && |d.buf| >= 3 + 6 * count
    ensures r.Valid() && r.expecting == Opcode && r.buf == d.buf[3 + 6 * count..]
  {
    var total := 3 + 6 * count;
    var slot := FlashWrites(d.core.slot, ParsePairs(d.buf[3..total], count));
    var d1 := d.(buf := d.buf[total..], expecting := Opcode, core := d.core.(slot := slot));
    if Crashed(slot) then d1.(dead := true) else d1.(out := d.out + [ACK_OK])
  }

  /** The data of an opcode-led command consumed from the front of the buffer. */
  function DataTaken(d: Device, cmd: byte, len: nat): (r: Device)
    requires d.Valid() && d.expecting == Data(cmd, len) && |d.buf| >= len
    ensures r.Valid() && r.buf == d.buf[len..] && (r.expecting == Opcode || r.expecting.FlashData?)
  {
    var d1 := d.(buf := d.buf[len..], expecting := Opcode);
    if cmd == CMD_FLASH_PROGRAM then FlashChunk(d1, d.buf[..len])
    else d1.(core := SramWrites(d.core, d.buf[..len]), out := d.out + [ACK_OK])
  }

  /** A chunk of a buffered group consumed from the front of the buffer. */
  function ChunkTaken(d: Device, len: nat): (r: Device)
    requires d.Valid() && d.expecting == FlashData(len) && 0 < len <= |d.buf|
    ensures r.Valid() && r.buf == d.buf[len..]
  {
    FlashChunk(d.(buf := d.buf[len..], expecting := Opcode), d.buf[..len])
  }

  /** A fixed-length command consumed from the front of the buffer. */
  function FrameTaken(d: Device): (r: Device)
    requires d.Valid() && d.expecting == Opcode && d.buf != [] && 0 < FixedLength(d.buf[0]) <= |d.buf|
    ensures r.Valid() && r.buf == d.buf[FixedLength(d.buf[0])..] && r.expecting == Opcode && r.dead == d.dead
  {
    var n := FixedLength(d.buf[0]);
    var (c1, answer) := Exec(d.core, d.buf[..n]);
    d.(buf := d.buf[n..], core := c1, out := d.out + answer)
  }

  /**
   What an opcode at the front of the buffer leads to: a command carried out, data or a frame to wait
   for, or a crash.
   */
  function OpcodeTaken(d: Device): (r: Device)
    requires d.Valid() && d.expecting == Opcode && d.buf != [] && FixedLength(d.buf[0]) <= |d.buf|
    ensures r.Valid()
    ensures !r.dead && !d.dead ==>
      |r.buf| < |d.buf| || (r.buf == d.buf && r.expecting == FlashCmdHeader)
  {
    var cmd := d.buf[0];
    if FixedLength(cmd) > 0 then FrameTaken(d)
    else if cmd == CMD_DMG_CART_WRITE_SRAM || cmd == CMD_FLASH_PROGRAM then
      d.(buf := d.buf[1..], expecting := Data(cmd, d.core.TransferSize()))
    else if cmd == CMD_CART_WRITE_FLASH_CMD then d.(expecting := FlashCmdHeader)
    else d.(dead := true)
  }

  function Rank(e: Expect): nat {
    match e
    case Data(_, _) => 3
    case FlashData(_) => 2
    case Opcode => 1
    case FlashCmdHeader => 0
  }

  /** Consume every complete command received so far. */
  function Pump(d: Device): (r: Device)
    requires d.Valid()
    ensures r.Valid()
    decreases |d.buf|, Rank(d.expecting)
  {
    if d.dead then d
    else
      match d.expecting
      case FlashData(len) =>
        if |d.buf| < len then d
        else if len == 0 then d.(dead := true)
        else Pump(ChunkTaken(d, len))
      case Data(cmd, len) =>
        if |d.buf| < len then d
        else Pump(DataTaken(d, cmd, len))
      case FlashCmdHeader =>
        if |d.buf| < 3 then d
        else
          var count := d.buf[2] as nat;
          var total := 3 + 6 * count;
          if |d.buf| < total then d else
          Pump(CommandsTaken(d, count))
      case Opcode =>
        if d.buf == [] then d
        else if |d.buf| < FixedLength(d.buf[0]) then d
        else
          var d1 := OpcodeTaken(d);
          if d1.dead then d1 else Pump(d1)
  }

  /** What the host's write does to the device. */
  function Received(d: Device, bytes: seq<byte>): (r: Device)
    requires d.Valid()
    ensures r.Valid()
  {
    Pump(d.(buf := d.buf + bytes))
  }

  lemma PumpCommands(d: Device, count: nat)
    requires d.Valid() && !d.dead && d.expecting == FlashCmdHeader
    requires |d.buf| >= 3 + 6 * count && d.buf[2] as nat == count
    ensures Pump(d) == Pump(CommandsTaken(d, count))
  {
  }

  lemma PumpOpcode(d: Device)
    requires d.Valid() && !d.dead && d.expecting == Opcode && d.buf != [] && FixedLength(d.buf[0]) <= |d.buf|
    ensures Pump(d) == Pump(OpcodeTaken(d))
  {
    hide OpcodeTaken;
  }

  lemma PumpChunk(d: Device, len: nat)
    requires d.Valid() && !d.dead && d.expecting == FlashData(len) && 0 < len <= |d.buf|
    ensures Pump(d) == Pump(ChunkTaken(d, len))
  {
    hide ChunkTaken;
  }

  lemma PumpData(d: Device, cmd: byte, len: nat)
    requires d.Valid() && !d.dead && d.expecting == Data(cmd, len) && |d.buf| >= len
    ensures Pump(d) == Pump(DataTaken(d, cmd, len))
  {
  }

  lemma PumpIdle(d: Device)
    requires d.Ready()
    ensures Pump(d) == d
  {
  }

  /** Bytes taken for the raw data of a group that was left open. */
  function Swallowed(d: Device, bytes: seq<byte>): Device {
    d.(buf := d.buf + bytes)
  }

  lemma SwallowsBytes(d: Device, bytes: seq<byte>)
    requires d.Swallows(|bytes|)
    ensures Received(d, bytes) == Swallowed(d, bytes)
    ensures d.expecting != Opcode
  {
  }

  /** Reading answers leaves a device that is ready, ready. */
  lemma StillReady(d: Device, e: Device)
    requires d.Ready() && e == d.(out := e.out)
    ensures e.Ready()
  {
  }

  lemma FixedFrame(d: Device, frame: seq<byte>)
    requires d.Ready() && |frame| > 0 && |frame| == FixedLength(frame[0])
    ensures var (c1, answer) := Exec(d.core, frame);
            Received(d, frame) == d.(core := c1, out := d.out + answer)
    ensures Received(d, frame).Ready()
  {
    var (c1, answer) := Exec(d.core, frame);
    var d0 := d.(buf := d.buf + frame);
    assert d0.buf == frame && frame[..|frame|] == frame && frame[|frame|..] == [];
    assert Pump(d0) == Pump(d0.(buf := [], core := c1, out := d.out + answer));
    assert d0.(buf := [], core := c1, out := d.out + answer) == d.(core := c1, out := d.out + answer);
  }

  lemma FlashCmdHeaderFrame(d: Device, writes: seq<(u32, byte)>)
    requires d.Valid() && !d.dead && d.expecting == FlashCmdHeader
    requires |d.buf| == 3 + 6 * |writes| && d.buf[2] as nat == |writes| && ParsePairs(d.buf[3..], |writes|) == writes
    requires !Crashed(FlashWrites(d.core.slot, writes))
    ensures Pump(d)
         == d.(expecting := Opcode, buf := [],
               core := d.core.(slot := FlashWrites(d.core.slot, writes)), out := d.out + [ACK_OK])
  {
    hide FlashWrites, ParsePairs;
    var slot := FlashWrites(d.core.slot, writes);
    var d1 := d.(expecting := Opcode, buf := [], core := d.core.(slot := slot), out := d.out + [ACK_OK]);
    assert d.buf[3..|d.buf|] == d.buf[3..] && d.buf[|d.buf|..] == [];
    assert Pump(d1) == d1;
  }

  lemma FlashCmdFrame(d: Device, frame: seq<byte>, writes: seq<(u32, byte)>)
    requires d.Ready() && |frame| == 3 + 6 * |writes|
    requires frame[0] == CMD_CART_WRITE_FLASH_CMD && frame[2] as nat == |writes|
    requires frame[3..] == FlashCmdPairs(writes) && !Crashed(FlashWrites(d.core.slot, writes))
    ensures Received(d, frame)
         == d.(core := d.core.(slot := FlashWrites(d.core.slot, writes)), out := d.out + [ACK_OK])
    ensures Received(d, frame).Ready()
  {
    hide FlashWrites, ParsePairs, FlashCmdPairs;
    ParsePairsInverse(writes);
    var d0 := d.(buf := frame);
    assert d.buf + frame == frame;
    FlashCmdHeaderFrame(d0.(expecting := FlashCmdHeader), writes);
  }

  /** The opcode of a data-carrying command alone leaves the device expecting exactly one transfer. */
  lemma OpcodeThenData(d: Device, cmd: byte)
    requires d.Ready() && d.core.TransferSize() > 0
    requires cmd == CMD_FLASH_PROGRAM || cmd == CMD_DMG_CART_WRITE_SRAM
    ensures Received(d, [cmd]) == d.(expecting := Data(cmd, d.core.TransferSize()))
  {
    var d0 := d.(buf := d.buf + [cmd]);
    assert d0.buf == [cmd] && [cmd][1..] == [];
    var d1 := d.(expecting := Data(cmd, d.core.TransferSize()));
    assert Pump(d0) == Pump(d1);
  }

  lemma RawProgramData(d: Device, data: seq<byte>)
    requires d.Valid() && !d.dead && d.buf == [] && |data| > 0
    requires d.expecting == Data(CMD_FLASH_PROGRAM, |data|) || d.expecting == FlashData(|data|)
    requires d.core.flashCfg.Some? && d.core.TransferSize() > 0
    ensures Received(d, data) == FlashChunk(d.(expecting := Opcode), data)
  {
    var d0 := d.(buf := d.buf + data);
    assert d0.buf == data && data[..|data|] == data && data[|data|..] == [];
    var d1 := d.(expecting := Opcode);
    assert Pump(d0) == Pump(FlashChunk(d1, data));
  }

  lemma RawSramData(d: Device, data: seq<byte>)
    requires d.Valid() && !d.dead && d.buf == []
    requires d.expecting == Data(CMD_DMG_CART_WRITE_SRAM, |data|)
    ensures Received(d, data)
         == d.(expecting := Opcode, core := SramWrites(d.core, data), out := d.out + [ACK_OK])
  {
    hide Pump, SramWrites;
    var d0 := d.(buf := d.buf + data);
    assert d0.buf == data && data[..|data|] == data && data[|data|..] == [];
    PumpData(d0, CMD_DMG_CART_WRITE_SRAM, |data|);
    PumpIdle(d.(expecting := Opcode, core := SramWrites(d.core, data), out := d.out + [ACK_OK]));
  }
}
