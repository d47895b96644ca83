/**
 The host's primitives: one command and its status byte, variables, bus writes, streamed reads,
 power and mode entry. Every contract says what the command did to the device whatever the link
 does afterwards; a lossless link always answers, and then nothing is left unread.
 */
module GbxDriver {
  import opened Arithmetic
  import opened Bytes
  import opened Protocol
  import opened Cartridges
  import opened GbxCore
  import opened GbxWire
  import opened GbxLink
  import opened GbxStreams
  import opened SimGbx

  datatype DeviceError = Io | ProtocolError | NotFlashable

  /** The device with the DMG bus timing set. */
  function DmgBus(c: Core): (r: Core)
    ensures c.Valid() ==> r.Valid()
    ensures r.mode == CART_MODE_DMG && r.Get(VAR_DMG_READ_METHOD) == DMG_READ_METHOD_A15 && r.address == 0
    ensures r.slot == c.slot && r.powered == c.powered
    ensures r.log == c.log + [CMD_SET_MODE_DMG, CMD_SET_VOLTAGE_5V]
  {
    var c0 := c.(log := c.log + [CMD_SET_MODE_DMG, CMD_SET_VOLTAGE_5V]);
    var c1 := SetVar(c0, VAR_DMG_READ_METHOD, DMG_READ_METHOD_A15);
    var c2 := SetVar(c1, VAR_CART_MODE, CART_MODE_DMG);
    SetVar(c2, VAR_ADDRESS, 0)
  }

  /** The device with the cart powered. */
  function Powered(c: Core): (r: Core)
    ensures r.slot == c.slot && r.mode == c.mode && r.vars == c.vars && r.powered && (c.Valid() ==> r.Valid())
    ensures r.log == c.log + PowerSignals(c.powered)
  {
    if c.powered then c else Logged(c.(powered := true), CMD_CART_PWR_ON)
  }

  /** Power is the only thing that is left alone when it is already there. */
  function PowerSignals(powered: bool): seq<byte> {
    if powered then [] else [CMD_CART_PWR_ON]
  }

  /** The events are those there were and the first ones, or all, of `signals`. */
  predicate Signalled(before: seq<byte>, log: seq<byte>, signals: seq<byte>) {
    before <= log <= before + signals
  }

  /** A flow that signals `a`, then `b`, then `c`. */
  lemma SignalledOn(before: seq<byte>, log: seq<byte>, a: seq<byte>, b: seq<byte>, c: seq<byte>)
    ensures Signalled(before, log, a) ==> Signalled(before, log, a + b + c)
    ensures Signalled(before + a, log, b) ==> Signalled(before, log, a + b + c)
    ensures log == (before + a + b) + c ==> Signalled(before, log, a + b + c)
    ensures log == before + a + b ==> Signalled(before, log, a + b + c)
  {
    var all := a + b + c;
    assert before + all == (before + a) + b + c;
    assert before + all == before + a + (b + c);
  }

  /** The signals of DMG mode entry: 5 V before there is power, the mapper reset after it. */
  function DmgSignals(powered: bool): seq<byte> {
    [CMD_SET_MODE_DMG, CMD_SET_VOLTAGE_5V] + PowerSignals(powered) + [CMD_DMG_MBC_RESET]
  }

  /** The signals of AGB mode entry: never more than 3.3 V. */
  function AgbSignals(powered: bool): seq<byte> {
    [CMD_SET_MODE_AGB, CMD_SET_VOLTAGE_3_3V] + PowerSignals(powered) + [CMD_AGB_BOOTUP_SEQUENCE]
  }

  /** The device after `enter_dmg_mode`. */
  function DmgMode(c: Core): (r: Core)
    ensures c.Valid() ==> r.Valid()
    ensures r.DmgLive() && r.Get(VAR_DMG_READ_METHOD) == DMG_READ_METHOD_A15
    ensures r.log == c.log + DmgSignals(c.powered)
  {
    MbcReset(Powered(DmgBus(c)))
  }

  /** The device at 3.3 V in AGB mode. */
  function AgbTimed(c: Core): (r: Core)
    ensures c.Valid() ==> r.Valid()
    ensures r.mode == CART_MODE_AGB && r.slot == c.slot && r.powered == c.powered
    ensures r.Get(VAR_AGB_READ_METHOD) == 0 && r.log == c.log + [CMD_SET_MODE_AGB, CMD_SET_VOLTAGE_3_3V]
  {
    var c1 := c.(log := c.log + [CMD_SET_MODE_AGB, CMD_SET_VOLTAGE_3_3V]);
    SetVar(SetVar(c1, VAR_AGB_READ_METHOD, 0), VAR_CART_MODE, CART_MODE_AGB)
  }

  /** The device with the AGB bus timing set. */
  function AgbBus(c: Core): (r: Core)
    ensures c.Valid() ==> r.Valid()
    ensures r.mode == CART_MODE_AGB && r.slot == c.slot && r.powered == c.powered && r.address == 0
    ensures r.Get(VAR_AGB_READ_METHOD) == 0 && r.Get(VAR_AGB_IRQ_ENABLED) == 0
    ensures r.log == c.log + [CMD_SET_MODE_AGB, CMD_SET_VOLTAGE_3_3V]
  {
    SetVar(SetVar(AgbTimed(c), VAR_AGB_IRQ_ENABLED, 0), VAR_ADDRESS, 0)
  }

  /** The device after `enter_agb_mode`. */
  function AgbMode(c: Core): (r: Core)
    ensures c.Valid() ==> r.Valid()
    ensures r.AgbLive() && r.slot == c.slot && r.log == c.log + AgbSignals(c.powered)
  {
    Logged(Powered(AgbBus(c)), CMD_AGB_BOOTUP_SEQUENCE)
  }

  /** Transfer size and cursor set, ready to stream. */
  function Aimed(c: Core, chunk: u32, address: u32): (r: Core)
    ensures c.Valid() ==> r.Valid()
    ensures r.TransferSize() == chunk as nat && r.address == address as nat && r.slot == c.slot
  {
    SetVar(SetVar(c, VAR_TRANSFER_SIZE, chunk), VAR_ADDRESS, address)
  }

  /** How many chunks cover `len` bytes. */
  function Parts(len: nat, chunk: nat): (k: nat)
    requires chunk > 0
  {
    if len == 0 then 0 else if len <= chunk then 1 else 1 + Parts(len - chunk, chunk)
  }

  lemma PartsNext(left: nat, chunk: nat)
    requires chunk > 0
    ensures Parts(left, chunk) == if left == 0 then 0 else 1 + Parts(if chunk <= left then left - chunk else 0, chunk)
  {
  }

  lemma {:induction false} PartsExact(k: nat, chunk: nat)
    requires chunk > 0
    ensures Parts(k * chunk, chunk) == k
  {
    if k > 0 {
      PartsExact(k - 1, chunk);
      assert k * chunk - chunk == (k - 1) * chunk;
      if k == 1 {
        assert k * chunk == chunk;
      } else {
        assert (k - 1) * chunk >= chunk;
      }
    }
  }

  /** What `k` bare read opcodes in a row do and answer. */
  function Opcodes(c: Core, opcode: byte, k: nat): (r: (Core, seq<byte>))
    requires c.Valid() && FixedLength(opcode) == 1
    ensures r.0.Valid()
  {
    if k == 0 then (c, [])
    else
      var (c1, s) := Opcodes(c, opcode, k - 1);
      var (c2, t) := Exec(c1, [opcode]);
      (c2, s + t)
  }

  lemma OpcodesNone(c: Core, opcode: byte)
    requires c.Valid() && FixedLength(opcode) == 1
    ensures Opcodes(c, opcode, 0) == (c, [])
  {
  }

  lemma OpcodesOn(c0: Core, opcode: byte, k: nat, c: Core, out: seq<byte>, part: seq<byte>, rest: seq<byte>)
    requires c0.Valid() && FixedLength(opcode) == 1 && c.Valid()
    requires Opcodes(c0, opcode, k) == (c, out + []) && part + rest == Exec(c, [opcode]).1
    ensures Opcodes(c0, opcode, k + 1) == (Exec(c, [opcode]).0, (out + part) + rest)
  {
    hide Exec;
    assert out + [] == out;
    assert (out + part) + rest == out + (part + rest);
  }

  lemma NoReplies(c: Core, opcode: byte)
    requires c.Valid() && FixedLength(opcode) == 1
    ensures OpcodeReplies(c, opcode, 0) == []
  {
  }

  /** The answers to `k` read opcodes in a row. */
  function OpcodeReplies(c: Core, opcode: byte, k: nat): (s: seq<Reply>)
    requires c.Valid() && FixedLength(opcode) == 1
    ensures |s| == k
  {
    if k == 0 then []
    else OpcodeReplies(c, opcode, k - 1) + [Bytes(Exec(Opcodes(c, opcode, k - 1).0, [opcode]).1)]
  }

  lemma {:induction false} ReplyAt(c: Core, opcode: byte, n: nat, k: nat)
    requires c.Valid() && FixedLength(opcode) == 1 && k < n
    ensures OpcodeReplies(c, opcode, n)[k] == Bytes(Exec(Opcodes(c, opcode, k).0, [opcode]).1)
    ensures OpcodeReplies(c, opcode, k) + [OpcodeReplies(c, opcode, n)[k]] <= OpcodeReplies(c, opcode, n)
    ensures OpcodeReplies(c, opcode, k + 1) == OpcodeReplies(c, opcode, k) + [OpcodeReplies(c, opcode, n)[k]]
    decreases n
  {
    hide Exec, Opcodes;
    if k < n - 1 {
      ReplyAt(c, opcode, n - 1, k);
    }
  }


  /** Every chunk is asked for whole and answered in full. */
  predicate WholeReplies(c: Core, opcode: byte, chunk: nat, len: nat)
    requires c.Valid() && FixedLength(opcode) == 1 && chunk > 0
  {
    if opcode == CMD_DMG_CART_READ then len % chunk == 0 else len == chunk && |Exec(c, [opcode]).1| == chunk
  }

  lemma WholeStart(c: Core, opcode: byte, chunk: nat, len: nat)
    requires c.Valid() && FixedLength(opcode) == 1 && chunk > 0 && WholeReplies(c, opcode, chunk, len)
    ensures len % chunk == 0 && (opcode != CMD_DMG_CART_READ ==> len == chunk)
  {
  }

  /** The next chunk of a whole number of them. */
  lemma WholePart(c0: Core, c: Core, opcode: byte, chunk: nat, len: nat, left: nat)
    requires c0.Valid() && c.Valid() && IsRead(opcode) && 0 < chunk == c.TransferSize()
    requires WholeReplies(c0, opcode, chunk, len)
    requires 0 < left <= len && left % chunk == 0 && (left == len ==> c == c0)
    ensures left >= chunk && (left - chunk) % chunk == 0 && |Exec(c, [opcode]).1| == chunk
  {
    hide Exec;
    ReadOpcode(c, opcode);
    var q := left / chunk;
    MulSign(q, chunk);
    assert left - chunk == (q - 1) * chunk;
    MulMod(q - 1, chunk);
  }

  predicate IsRead(opcode: byte) {
    opcode == CMD_DMG_CART_READ || opcode == CMD_AGB_CART_READ
  }

  /** A streamed read moves the cursor and, on a quiet cart, nothing else. */
  ghost predicate Streamed(c: Core, c1: Core) {
    && c1.TransferSize() == c.TransferSize()
    && (Quiet(c.slot) ==> c1 == c.(address := c1.address, addrIncremented := c1.addrIncremented))
  }

  lemma ReadOpcode(c: Core, opcode: byte)
    requires c.Valid() && IsRead(opcode)
    ensures Streamed(c, Exec(c, [opcode]).0)
    ensures |Exec(c, [opcode]).1| <= c.TransferSize()
    ensures opcode == CMD_DMG_CART_READ ==> |Exec(c, [opcode]).1| == c.TransferSize()
  {
    if opcode == CMD_DMG_CART_READ {
      DmgStreamFrame(c, c.TransferSize());
    } else {
      AgbStreamFrame(c, c.TransferSize() / 2);
    }
  }

  lemma StreamedOn(c: Core, c1: Core, opcode: byte)
    requires c.Valid() && c1.Valid() && IsRead(opcode)
    ensures Streamed(c, c)
    ensures Streamed(c, c1) ==> Streamed(c, Exec(c1, [opcode]).0)
    ensures Exec(c1, [opcode]).0.TransferSize() == c1.TransferSize()
    ensures |Exec(c1, [opcode]).1| <= c1.TransferSize()
    ensures opcode == CMD_DMG_CART_READ ==> |Exec(c1, [opcode]).1| == c1.TransferSize()
  {
    hide Exec;
    ReadOpcode(c1, opcode);
  }

  lemma {:induction false} DmgStreamFrame(c: Core, n: nat)
    requires c.Valid()
    ensures Streamed(c, DmgStream(c, n).0)
  {
    if n > 0 {
      DmgStreamFrame(c, n - 1);
    }
  }

  lemma {:induction false} AgbStreamFrame(c: Core, words: nat)
    requires c.Valid()
    ensures Streamed(c, AgbStream(c, words).0)
  {
    if words > 0 {
      AgbStreamFrame(c, words - 1);
      AgbWordFrame(AgbStream(c, words - 1).0);
    }
  }

  lemma AgbWordFrame(c: Core)
    requires c.Valid()
    ensures Streamed(c, AgbWord(c).0)
  {
  }

  lemma ExecDmgRead(c: Core)
    requires c.Valid()
    ensures Exec(c, [CMD_DMG_CART_READ]) == DmgStream(c, c.TransferSize())
  {
  }

  lemma {:induction false} DmgOpcodes(c: Core, k: nat)
    requires c.Valid()
    ensures Opcodes(c, CMD_DMG_CART_READ, k) == DmgStream(c, k * c.TransferSize())
  {
    hide Exec;
    var n := c.TransferSize();
    if k == 0 {
      assert k * n == 0;
    } else {
      DmgOpcodes(c, k - 1);
      var before := (k - 1) * n;
      assert before + n == k * n;
      DmgStreamFrame(c, before);
      ExecDmgRead(DmgStream(c, before).0);
      DmgStreamSplit(c, before, n);
    }
  }

  /** Variables and the cursor may differ, the cart and how it is driven do not. */
  ghost predicate Tuned(c: Core, c1: Core) {
    Quiet(c.slot) ==>
      && c1 == c.(vars := c1.vars, address := c1.address, addrIncremented := c1.addrIncremented)
      && c1.Get(VAR_DMG_READ_METHOD) == c.Get(VAR_DMG_READ_METHOD)
      && c1.Get(VAR_FLASH_WE_PIN) == c.Get(VAR_FLASH_WE_PIN)
  }

  /** What `read_dmg_rom_chunk` makes the device do and answer. */
  function RomRead(c: Core, address: u32, len: nat): (r: (Core, seq<byte>))
    requires c.Valid() && len > 0
    ensures r.0.Valid()
  {
    var c1 := SetVar(c, VAR_DMG_ACCESS_MODE, DMG_ACCESS_ROM_READ);
    Opcodes(Aimed(c1, ChunkOf(len), address), CMD_DMG_CART_READ, Parts(len, ChunkOf(len) as nat))
  }

  /** `len` bytes of a ROM window. */
  function Window(cart: DmgCart, bus: nat, len: nat): (s: seq<byte>)
    requires cart.Valid() && bus + len <= 0x8000
    ensures |s| == len
  {
    seq(len, i requires 0 <= i < len => RomByte(cart, RomAddress(cart, bus + i)))
  }

  /** A chunk read out of a ROM window of a quiet cart is that window; whole chunks leave nothing unread. */
  lemma RomReadWindow(c: Core, address: u32, len: nat)
    requires c.Valid() && Quiet(c.slot) && len > 0 && address as nat + len <= 0x8000
    requires c.DmgLive() && c.slot.DmgSlot? && c.Get(VAR_DMG_READ_METHOD) == DMG_READ_METHOD_A15
    ensures var (c1, s) := RomRead(c, address, len);
            && c1 == c.(vars := c1.vars, address := c1.address, addrIncremented := c1.addrIncremented)
            && c1.Get(VAR_DMG_READ_METHOD) == DMG_READ_METHOD_A15
            && |s| >= len && s[..len] == Window(c.slot.dmg, address as nat, len)
            && (len <= MAX_BUFFER_READ || len % MAX_BUFFER_READ == 0 ==> |s| == len)
  {
    hide Opcodes, DmgStream, DmgSees;
    var chunk := ChunkOf(len);
    var c1 := Aimed(SetVar(c, VAR_DMG_ACCESS_MODE, DMG_ACCESS_ROM_READ), chunk, address);
    var k := Parts(len, chunk as nat);
    PartsCover(len, chunk as nat);
    DmgOpcodes(c1, k);
    DmgStreamQuiet(c1, k * chunk as nat);
    SliceWindow(c1, address as nat, len, k * chunk as nat);
    if len > MAX_BUFFER_READ && len % MAX_BUFFER_READ == 0 {
      PartsExact(len / MAX_BUFFER_READ, MAX_BUFFER_READ);
    }
  }

  lemma SliceWindow(c: Core, from: nat, len: nat, n: nat)
    requires c.Valid() && from + len <= 0x8000 && len <= n
    requires c.DmgLive() && c.slot.DmgSlot? && c.Get(VAR_DMG_READ_METHOD) == DMG_READ_METHOD_A15
    ensures DmgSlice(c, from, n)[..len] == Window(c.slot.dmg, from, len)
  {
    hide BusByte, RomByte, RomAddress, DmgSees;
    forall i | 0 <= i < len
      ensures DmgSlice(c, from, n)[i] == Window(c.slot.dmg, from, len)[i]
    {
      WindowByte(c, from + i);
    }
  }

  lemma WindowByte(c: Core, bus: nat)
    requires c.Valid() && bus < 0x8000
    requires c.DmgLive() && c.slot.DmgSlot? && c.Get(VAR_DMG_READ_METHOD) == DMG_READ_METHOD_A15
    ensures DmgSees(c, bus) == RomByte(c.slot.dmg, RomAddress(c.slot.dmg, bus))
  {
  }

  lemma {:induction false} PartsCover(len: nat, chunk: nat)
    requires chunk > 0
    ensures Parts(len, chunk) * chunk >= len
    ensures 0 < len <= chunk ==> Parts(len, chunk) == 1
  {
    if len > chunk {
      PartsCover(len - chunk, chunk);
      var k := Parts(len - chunk, chunk);
      assert (1 + k) * chunk == chunk + k * chunk;
    }
  }

  /** A status byte the host accepts. */
  predicate IsAck(b: byte) {
    b == ACK_OK || b == ACK_CONTINUE
  }

  /** Left-over bytes that spoil the next status byte. */
  predicate Stale(out: seq<byte>) {
    out != [] && !IsAck(out[0])
  }

  /** The answers to `power_on`. */
  function PowerReplies(powered: bool): (s: seq<Reply>)
    ensures |s| == if powered then 1 else 2
  {
    if powered then [Bytes([1])] else [Bytes([0]), Ack]
  }

  /** The answers to `enter_dmg_mode`; the last one is the mapper reset's. */
  function EntryReplies(powered: bool): (s: seq<Reply>)
    ensures |s| == if powered then 7 else 8
  {
    Acks(5) + PowerReplies(powered) + [Ack]
  }

  /** The answers to `enter_agb_mode`. */
  function AgbEntryReplies(powered: bool): (s: seq<Reply>)
    ensures |s| == if powered then 8 else 9
  {
    Acks(6) + PowerReplies(powered) + [Ack]
  }

  /** The cart after `enter_dmg_mode`: the mapper is reset once all answers but the reset's own have arrived. */
  function EntrySlot(c: Core, link: Link, asked: nat): Slot {
    if link.FirstLost(asked, |EntryReplies(c.powered)|) + 1 < |EntryReplies(c.powered)| then c.slot
    else MbcReset(c).slot
  }

  lemma NothingAsked(link: Link, from: nat)
    ensures link.Clear(from, 0)
  {
  }

  /** Mode entry that stops before the reset leaves the cart alone. */
  lemma EntrySlotIs(c: Core, link: Link, from: nat, ok: bool, asked: nat, out: seq<byte>)
    requires !ok ==>
      link.Ran(from, EntryReplies(c.powered), false, asked, out) && asked < from + |EntryReplies(c.powered)|
    ensures !ok ==> EntrySlot(c, link, from) == c.slot
  {
  }

  lemma EntryReset(c: Core, link: Link, from: nat)
    requires link.Clear(from, |EntryReplies(c.powered)| - 1)
    ensures EntrySlot(c, link, from) == MbcReset(c).slot
  {
    var n := |EntryReplies(c.powered)|;
    FirstLostIs(link, from, n, if link.Loses(from + n - 1) then n - 1 else n);
  }

  lemma SwallowsValid(d: Device)
    ensures d.Ready() || d.Swallows(1) || d.Swallows(10) ==> d.Valid()
  {
  }

  /** What a command's status byte, asked for after `asked` other answers, was taken for. */
  predicate Acked(io: SimGbxCart, asked: nat, out: seq<byte>, ok: bool)
    reads io
  {
    && io.asked == asked + 1
    && (ok <==> !io.link.Loses(asked) && !Stale(out))
    && (out == [] ==> io.Ran(asked, [Ack], ok) && if ok then io.out == [] else io.Lossy())
  }

  class GbxCart {
    const io: SimGbxCart
    /** The host's CRC-32. */
    const crc: seq<byte> -> u32
    /** The ROM header cached when the cart was detected. */
    const header: seq<byte>

    constructor (io: SimGbxCart, crc: seq<byte> -> u32, header: seq<byte>)
      ensures this.io == io && this.crc == crc && this.header == header
    {
      this.io, this.crc, this.header := io, crc, header;
    }

    /** Read the status byte that follows most commands; true when the device answered "continue". */
    method ExpectAck() returns (r: Result<bool, DeviceError>)
      modifies io`out, io`asked
      ensures io.asked == old(io.asked) + 1
      ensures r.Ok? <==> !io.link.Loses(old(io.asked)) && old(io.out) != [] && IsAck(old(io.out)[0])
      ensures r.Ok? ==> io.out == old(io.out)[1..] && old(io.out)[0] == (if r.value then ACK_CONTINUE else ACK_OK)
      ensures io.link.Loses(old(io.asked)) ==> io.out == io.link.Rest(old(io.asked), old(io.out))
      ensures old(io.out) == [] ==> r == Err(Io) && io.out == []
    {
      var b := io.ReadExact(1);
      if b.Err? {
        return Err(Io);
      }
      if b.value[0] == ACK_OK {
        r := Ok(false);
      } else if b.value[0] == ACK_CONTINUE {
        r := Ok(true);
      } else {
        r := Err(ProtocolError);
      }
    }

    /** Take the status byte of a command that has just been queued behind whatever was left unread. */
    method TakeAck() returns (r: Result<(), DeviceError>)
      requires io.out != [] ==> io.out[|io.out| - 1] == ACK_OK
      modifies io`out, io`asked
      ensures old(io.out) != [] ==> Acked(io, old(io.asked), old(io.out)[..|old(io.out)| - 1], r.Ok?)
      ensures old(io.out) == [] ==> r == Err(Io) && io.out == []
    {
      ghost var from, queued := io.asked, io.out;
      var a := ExpectAck();
      r := if a.Ok? then Ok(()) else Err(a.error);
      if queued != [] {
        assert Stale(queued) <==> Stale(queued[..|queued| - 1]);
        if |queued| == 1 {
          assert queued == [ACK_OK];
          RanOne(io.link, from, Ack, r.Ok?, io.asked, io.out);
        }
      }
    }

    /**
     Send a complete fixed-length command that is acknowledged with a status byte. A device left in
     the middle of a buffered group takes it for raw data and has nothing to answer.
     */
    method CmdAck(frame: seq<byte>) returns (r: Result<(), DeviceError>)
      requires io.Ready() || (io.Value().Swallows(|frame|) && io.out == [])
      requires |frame| > 0 && |frame| == FixedLength(frame[0]) && io.CoreValue().Valid()
      requires Exec(io.CoreValue(), frame).1 == [ACK_OK]
      modifies io.Repr()
      ensures old(io.Ready()) ==>
        && io.Ready() && io.inStep == old(io.inStep)
        && io.CoreValue() == Exec(old(io.CoreValue()), frame).0
        && Acked(io, old(io.asked), old(io.out), r.Ok?)
      ensures !old(io.Ready()) ==> r == Err(Io) && !io.inStep && io.Value() == Swallowed(old(io.Value()), frame)
    {
      hide Exec, Acked, Device.Ready, Device.Swallows;
      ghost var before := io.Value();
      if before.Ready() {
        FixedFrame(before, frame);
      } else {
        SwallowsBytes(before, frame);
      }
      io.WriteAll(frame, false);
      ghost var d := io.Value();
      r := TakeAck();
      if before.Ready() {
        StillReady(d, io.Value());
      }
    }

    /** A one-byte command that only leaves an event. */
    method Signal(opcode: byte) returns (r: Result<(), DeviceError>)
      requires io.Ready()
      requires opcode in {CMD_SET_MODE_DMG, CMD_SET_MODE_AGB, CMD_SET_VOLTAGE_5V, CMD_SET_VOLTAGE_3_3V,
                          CMD_AGB_BOOTUP_SEQUENCE}
      modifies io.Repr()
      ensures io.Ready() && io.inStep == old(io.inStep)
      ensures io.CoreValue() == Logged(old(io.CoreValue()), opcode)
      ensures Acked(io, old(io.asked), old(io.out), r.Ok?)
    {
      assert Exec(io.CoreValue(), [opcode]) == (Logged(io.CoreValue(), opcode), [ACK_OK]);
      r := CmdAck([opcode]);
    }

    method SetVariable(v: Var, value: u32) returns (r: Result<(), DeviceError>)
      requires io.Ready() || (io.Value().Swallows(10) && io.out == [])
      modifies io.Repr()
      ensures old(io.Ready()) ==>
        && io.Ready() && io.inStep == old(io.inStep)
        && io.CoreValue() == SetVar(old(io.CoreValue()), v, value)
        && Acked(io, old(io.asked), old(io.out), r.Ok?)
      ensures !old(io.Ready()) ==>
        && r == Err(Io) && !io.inStep
        && io.Value() == Swallowed(old(io.Value()), SetVariableFrame(v, value))
    {
      hide Acked, Device.Ready, Device.Swallows;
      SwallowsValid(io.Value());
      var frame := SetVariableFrame(v, value);
      assert Var(frame[1], FromBe32(frame[2..6])) == v;
      assert Exec(io.CoreValue(), frame) == (SetVar(io.CoreValue(), v, value), [ACK_OK]);
      r := CmdAck(frame);
    }

    /** A single DMG bus write. */
    method WriteBus(addr: nat, value: byte) returns (r: Result<(), DeviceError>)
      requires io.Ready() && addr < 0x1_0000
      modifies io.Repr()
      ensures io.Ready() && io.inStep == old(io.inStep)
      ensures io.CoreValue() == DmgWrite(old(io.CoreValue()), addr, value)
      ensures Acked(io, old(io.asked), old(io.out), r.Ok?)
    {
      var frame := DmgWriteFrame(addr, value);
      assert Exec(io.CoreValue(), frame) == (DmgWrite(io.CoreValue(), addr, value), [ACK_OK]);
      r := CmdAck(frame);
    }

    /** A batch of flash command-register writes. */
    method FlashCmd(writes: seq<(u32, byte)>) returns (r: Result<(), DeviceError>)
      requires io.Ready() && |writes| < 0x100 && !Crashed(FlashWrites(io.SlotValue(), writes))
      modifies io.Repr()
      ensures io.Ready() && io.inStep == old(io.inStep)
      ensures io.CoreValue() == old(io.CoreValue()).(slot := FlashWrites(old(io.SlotValue()), writes))
      ensures Acked(io, old(io.asked), old(io.out), r.Ok?)
    {
      hide FlashWrites, Crashed, Acked, Device.Ready;
      var frame := WriteFlashCmdFrame(1, writes);
      FlashCmdFrame(io.Value(), frame, writes);
      io.WriteAll(frame, false);
      ghost var d := io.Value();
      r := TakeAck();
      StillReady(d, io.Value());
    }

    /** Read `want` bytes of what is queued. */
    method TakeAnswer(want: nat) returns (r: Result<seq<byte>, DeviceError>)
      modifies io`out, io`asked
      ensures r.Ok? ==> |r.value| == want && r.value + io.out == old(io.out)
      ensures r.Err? ==> io.Lossy() || want > |old(io.out)|
      ensures want == |old(io.out)| ==> io.Ran(old(io.asked), [Bytes(old(io.out))], r.Ok?)
    {
      ghost var from, queued := io.asked, io.out;
      var part := io.ReadExact(want);
      r := if part.Ok? then Ok(part.value) else Err(Io);
      if want == |queued| {
        RanOne(io.link, from, Bytes(queued), r.Ok?, io.asked, io.out);
      }
    }

    /** Send a complete fixed-length command and read the first `want` bytes of its answer. */
    method Ask(frame: seq<byte>, want: nat) returns (r: Result<seq<byte>, DeviceError>)
      requires io.Ready() && |frame| > 0 && |frame| == FixedLength(frame[0])
      modifies io.Repr()
      ensures io.Ready() && io.inStep == old(io.inStep)
      ensures io.CoreValue() == Exec(old(io.CoreValue()), frame).0
      ensures r.Ok? ==> |r.value| == want
      ensures var answer := Exec(old(io.CoreValue()), frame).1;
              old(io.out) == [] ==>
                && (r.Ok? ==> r.value + io.out == answer)
                && (r.Err? ==> io.Lossy() || want > |answer|)
                && (want == |answer| ==> io.Ran(old(io.asked), [Bytes(answer)], r.Ok?))
    {
      hide Exec, Device.Ready, Link.Ran;
      FixedFrame(io.Value(), frame);
      ghost var answer := Exec(io.CoreValue(), frame).1;
      assert [] + answer == answer;
      io.WriteAll(frame, false);
      ghost var d := io.Value();
      r := TakeAnswer(want);
      StillReady(d, io.Value());
    }

    /**
     Stream `len` bytes, one opcode per transfer-size chunk. When `len` is not a whole number of
     chunks the rest of the last one stays unread.
     */
    method ReadStream(opcode: byte, chunk: nat, len: nat) returns (r: Result<seq<byte>, DeviceError>)
      requires io.Ready() && IsRead(opcode) && 0 < chunk == io.CoreValue().TransferSize()
      modifies io.Repr()
      ensures io.Ready() && io.inStep == old(io.inStep)
      ensures Streamed(old(io.CoreValue()), io.CoreValue())
      ensures r.Ok? ==> |r.value| == len
      ensures r.Ok? && old(io.out) == [] ==>
        (io.CoreValue(), r.value + io.out) == Opcodes(old(io.CoreValue()), opcode, Parts(len, chunk))
      ensures r.Err? && old(io.out) == [] && opcode == CMD_DMG_CART_READ ==> io.Lossy()
      ensures
        (r.Err? && old(io.out) == [] && 0 < len <= chunk && |Exec(old(io.CoreValue()), [opcode]).1| >= len)
        ==> io.Lossy()
      ensures old(io.out) == [] && WholeReplies(old(io.CoreValue()), opcode, chunk, len) ==>
        io.Ran(old(io.asked), OpcodeReplies(old(io.CoreValue()), opcode, Parts(len, chunk)), r.Ok?)
    {
      hide Exec, Opcodes, OpcodeReplies, WholeReplies, Parts, Streamed, Link.Ran, Link.Clear,
        SimGbxCart.Ready, SimGbxCart.Repr, SimGbxCart.CartRepr;
      var out := [];
      ghost var k := 0;
      ghost var c0 := io.CoreValue();
      ghost var from, n := io.asked, Parts(len, chunk);
      ghost var whole := io.out == [] && WholeReplies(c0, opcode, chunk, len);
      ghost var all := OpcodeReplies(c0, opcode, n);
      StreamedOn(c0, c0, opcode);
      RanNothing(io.link, from);
      NoReplies(c0, opcode);
      PartsNext(0, chunk);
      if whole {
        WholeStart(c0, opcode, chunk, len);
      }
      assert Opcodes(c0, opcode, 0) == (c0, []) by { OpcodesNone(c0, opcode); }
      assert io.out == [] ==> out + io.out == [];
      while |out| < len
        invariant |out| == 0 ==> io.CoreValue() == c0 && k == 0
        invariant whole ==> (len - |out|) % chunk == 0
        invariant whole ==> io.out == [] && io.Ran(from, OpcodeReplies(c0, opcode, k), true)
        invariant |out| <= len && (len <= chunk ==> |out| == 0 || |out| == len)
        invariant k + Parts(len - |out|, chunk) == Parts(len, chunk)
        invariant io.Ready() && io.inStep == old(io.inStep)
        invariant Streamed(c0, io.CoreValue()) && io.CoreValue().TransferSize() == chunk
        invariant old(io.out) == [] ==>
          && (|out| < len ==> io.out == [])
          && (io.CoreValue(), out + io.out) == Opcodes(c0, opcode, k)
      {
        StreamedOn(c0, io.CoreValue(), opcode);
        PartsNext(len - |out|, chunk);
        if whole {
          WholePart(c0, io.CoreValue(), opcode, chunk, len, len - |out|);
        }
        var want := if chunk <= len - |out| then chunk else len - |out|;
        ghost var c, mid := io.CoreValue(), io.asked;
        var part := Ask([opcode], want);
        if whole {
          ReplyAt(c0, opcode, n, k);
          RanOn(io.link, from, OpcodeReplies(c0, opcode, k), mid, [all[k]], all, part.Ok?, io.asked, io.out);
        }
        if part.Err? {
          return Err(part.error);
        }
        if old(io.out) == [] {
          OpcodesOn(c0, opcode, k, c, out, part.value, io.out);
        }
        out := out + part.value;
        k := k + 1;
      }
      r := Ok(out);
    }

    /** Set the transfer size and the address, then stream. */
    method ReadAt(opcode: byte, address: u32, chunk: u32, len: nat) returns (r: Result<seq<byte>, DeviceError>)
      requires io.Ready() && IsRead(opcode) && chunk > 0
      modifies io.Repr()
      ensures io.Ready() && io.inStep == old(io.inStep)
      ensures Tuned(old(io.CoreValue()), io.CoreValue())
      ensures r.Ok? ==> |r.value| == len
      ensures r.Ok? && old(io.out) == [] ==>
        (io.CoreValue(), r.value + io.out)
          == Opcodes(Aimed(old(io.CoreValue()), chunk, address), opcode, Parts(len, chunk as nat))
      ensures r.Err? && old(io.out) == [] && opcode == CMD_DMG_CART_READ ==> io.Lossy()
      ensures
        (r.Err? && old(io.out) == [] && 0 < len <= chunk as nat
          && |Exec(Aimed(old(io.CoreValue()), chunk, address), [opcode]).1| >= len)
        ==> io.Lossy()
      ensures var c := Aimed(old(io.CoreValue()), chunk, address);
        old(io.out) == [] && WholeReplies(c, opcode, chunk as nat, len) ==>
          io.Ran(old(io.asked), Acks(2) + OpcodeReplies(c, opcode, Parts(len, chunk as nat)), r.Ok?)
    {
      hide Exec, Opcodes, OpcodeReplies, Parts, WholeReplies, Link.Ran, Link.Clear,
        SimGbxCart.Ready, SimGbxCart.Repr, SimGbxCart.CartRepr;
      ghost var from, clean := io.asked, io.out == [];
      ghost var c := Aimed(io.CoreValue(), chunk, address);
      ghost var stream := OpcodeReplies(c, opcode, Parts(len, chunk as nat));
      ghost var all := Acks(2) + stream;
      NothingAsked(io.link, from);
      var a := SetVariable(VAR_TRANSFER_SIZE, chunk);
      if clean {
        RanNext(io.link, from, 0, Ack, all, a.Ok?, io.asked, io.out);
      }
      if a.Err? {
        return Err(a.error);
      }
      var b := SetVariable(VAR_ADDRESS, address);
      if clean {
        RanNext(io.link, from, 1, Ack, all, b.Ok?, io.asked, io.out);
      }
      if b.Err? {
        return Err(b.error);
      }
      r := ReadStream(opcode, chunk as nat, len);
      if clean && WholeReplies(c, opcode, chunk as nat, len) {
        RanThen(io.link, from, Acks(2), stream, r.Ok?, io.asked, io.out);
      }
    }

    /** Read `len` bytes of DMG ROM address space, no banking. */
    method ReadDmgRomChunk(address: u32, len: nat) returns (r: Result<seq<byte>, DeviceError>)
      requires io.Ready() && len > 0
      modifies io.Repr()
      ensures io.Ready() && io.inStep == old(io.inStep)
      ensures Tuned(old(io.CoreValue()), io.CoreValue())
      ensures r.Ok? ==> |r.value| == len
      ensures r.Ok? && old(io.out) == [] ==>
        (io.CoreValue(), r.value + io.out) == RomRead(old(io.CoreValue()), address, len)
      ensures r.Err? && old(io.out) == [] ==> io.Lossy()
      ensures old(io.out) == [] && len % ChunkOf(len) as nat == 0 ==>
        io.link.Reached(old(io.asked), 3 + Parts(len, ChunkOf(len) as nat), r.Ok?, io.asked)
    {
      hide Opcodes, OpcodeReplies, Parts, Link.Reached, Link.Clear,
        SimGbxCart.Ready, SimGbxCart.Repr, SimGbxCart.CartRepr;
      ghost var from, clean, n := io.asked, io.out == [], 3 + Parts(len, ChunkOf(len) as nat);
      NothingAsked(io.link, from);
      var a := SetVariable(VAR_DMG_ACCESS_MODE, DMG_ACCESS_ROM_READ);
      if clean {
        ReachedWithin(io.link, from, 0, 1, n, a.Ok?, io.asked);
      }
      if a.Err? {
        return Err(a.error);
      }
      r := ReadAt(CMD_DMG_CART_READ, address, ChunkOf(len), len);
      if clean && len % ChunkOf(len) as nat == 0 {
        ReachedWithin(io.link, from, 1, n - 1, n, r.Ok?, io.asked);
      }
    }

    method PowerOn() returns (r: Result<(), DeviceError>)
      requires io.Ready()
      modifies io.Repr()
      ensures io.Ready() && io.inStep == old(io.inStep)
      ensures io.CoreValue() == old(io.CoreValue()).(powered := io.powered, log := io.log)
      ensures old(io.out) == [] ==>
        && io.Ran(old(io.asked), PowerReplies(old(io.powered)), r.Ok?)
        && Signalled(old(io.log), io.log, PowerSignals(old(io.powered)))
        && if r.Ok? then io.out == [] && io.CoreValue() == Powered(old(io.CoreValue())) else io.Lossy()
    {
      hide Link.Ran, Link.Clear, SimGbxCart.Ready, SimGbxCart.Repr, SimGbxCart.CartRepr;
      ghost var from, on, clean := io.asked, io.powered, io.out == [];
      NothingAsked(io.link, from);
      ghost var answer := [if on then 1 else 0 as byte];
      assert Exec(io.CoreValue(), [CMD_QUERY_CART_PWR]) == (io.CoreValue(), answer);
      var b := Ask([CMD_QUERY_CART_PWR], 1);
      if clean {
        RanNext(io.link, from, 0, PowerReplies(on)[0], PowerReplies(on), b.Ok?, io.asked, io.out);
      }
      if b.Err? {
        return Err(Io);
      }
      assert clean ==> b.value[0] == (b.value + io.out)[0] == answer[0];
      if b.value[0] == 0 {
        r := CmdAck([CMD_CART_PWR_ON]);
        if clean {
          RanNext(io.link, from, 1, Ack, PowerReplies(on), r.Ok?, io.asked, io.out);
        }
      } else {
        r := Ok(());
      }
    }

    /** Bus family and voltage. */
    method SetBus(mode: byte, voltage: byte) returns (r: Result<(), DeviceError>)
      requires io.Ready()
      requires mode == CMD_SET_MODE_DMG || mode == CMD_SET_MODE_AGB
      requires voltage == CMD_SET_VOLTAGE_5V || voltage == CMD_SET_VOLTAGE_3_3V
      modifies io.Repr()
      ensures io.Ready() && io.inStep == old(io.inStep)
      ensures io.CoreValue() == old(io.CoreValue()).(log := io.log)
      ensures Signalled(old(io.log), io.log, [mode, voltage])
      ensures r.Ok? ==> io.log == old(io.log) + [mode, voltage]
      ensures old(io.out) == [] ==>
        io.Ran(old(io.asked), Acks(2), r.Ok?) && if r.Ok? then io.out == [] else io.Lossy()
    {
      hide Link.Ran, Link.Clear, SimGbxCart.Ready, SimGbxCart.Repr, SimGbxCart.CartRepr;
      ghost var from, clean := io.asked, io.out == [];
      NothingAsked(io.link, from);
      r := Signal(mode);
      if clean {
        RanNext(io.link, from, 0, Ack, Acks(2), r.Ok?, io.asked, io.out);
      }
      if r.Err? {
        return;
      }
      r := Signal(voltage);
      if clean {
        RanNext(io.link, from, 1, Ack, Acks(2), r.Ok?, io.asked, io.out);
      }
    }

    /** 5 V and DMG bus timing: the first five commands of mode entry. */
    method SetDmgBus() returns (r: Result<(), DeviceError>)
      requires io.Ready()
      modifies io.Repr()
      ensures io.Ready() && io.inStep == old(io.inStep)
      ensures io.SlotValue() == old(io.SlotValue()) && io.powered == old(io.powered)
      ensures old(io.out) == [] ==>
        && io.Ran(old(io.asked), Acks(5), r.Ok?)
        && Signalled(old(io.log), io.log, [CMD_SET_MODE_DMG, CMD_SET_VOLTAGE_5V])
        && if r.Ok? then io.out == [] && io.CoreValue() == DmgBus(old(io.CoreValue())) else io.Lossy()
    {
      hide SetVar, Link.Ran, Link.Reached, Link.Clear, SimGbxCart.Ready, SimGbxCart.Repr, SimGbxCart.CartRepr,
        Signalled;
      ghost var from, clean := io.asked, io.out == [];
      NothingAsked(io.link, from);
      r := SetBus(CMD_SET_MODE_DMG, CMD_SET_VOLTAGE_5V);
      if clean {
        RanWithin(io.link, from, 0, Acks(2), Acks(5), r.Ok?, io.asked, io.out);
      }
      if r.Err? {
        return;
      }
      r := SetVariable(VAR_DMG_READ_METHOD, DMG_READ_METHOD_A15);
      if clean {
        RanNext(io.link, from, 2, Ack, Acks(5), r.Ok?, io.asked, io.out);
      }
      if r.Err? {
        return;
      }
      r := SetVariable(VAR_CART_MODE, CART_MODE_DMG);
      if clean {
        RanNext(io.link, from, 3, Ack, Acks(5), r.Ok?, io.asked, io.out);
      }
      if r.Err? {
        return;
      }
      r := SetVariable(VAR_ADDRESS, 0);
      if clean {
        RanNext(io.link, from, 4, Ack, Acks(5), r.Ok?, io.asked, io.out);
      }
    }

    /** Enter DMG mode: 5 V, DMG bus timing, cart powered, mapper reset. */
    method EnterDmgMode() returns (r: Result<(), DeviceError>)
      requires io.Ready()
      modifies io.Repr()
      ensures io.Ready() && io.inStep == old(io.inStep)
      ensures old(io.out) == [] ==>
        if r.Ok? then io.out == [] && io.CoreValue() == DmgMode(old(io.CoreValue())) else io.Lossy()
      ensures old(io.out) == [] ==>
        && io.Ran(old(io.asked), EntryReplies(old(io.powered)), r.Ok?)
        && io.SlotValue() == EntrySlot(old(io.CoreValue()), io.link, old(io.asked))
        && Signalled(old(io.log), io.log, DmgSignals(old(io.powered)))
    {
      hide DmgBus, Link.Ran, Link.Reached, Link.Clear, SimGbxCart.Ready, SimGbxCart.Repr, SimGbxCart.CartRepr,
        EntrySlot, Signalled, Powered, PowerSignals;
      ghost var from, clean, on, c := io.asked, io.out == [], io.powered, io.CoreValue();
      ghost var all, front := EntryReplies(on), [CMD_SET_MODE_DMG, CMD_SET_VOLTAGE_5V];
      NothingAsked(io.link, from);
      r := SetDmgBus();
      SignalledOn(c.log, io.log, front, PowerSignals(on), [CMD_DMG_MBC_RESET]);
      if clean {
        RanWithin(io.link, from, 0, Acks(5), all, r.Ok?, io.asked, io.out);
        EntrySlotIs(c, io.link, from, r.Ok?, io.asked, io.out);
      }
      if r.Err? {
        return;
      }
      r := PowerOn();
      SignalledOn(c.log, io.log, front, PowerSignals(on), [CMD_DMG_MBC_RESET]);
      if clean {
        RanWithin(io.link, from, 5, PowerReplies(on), all, r.Ok?, io.asked, io.out);
        EntrySlotIs(c, io.link, from, r.Ok?, io.asked, io.out);
      }
      if r.Err? {
        return;
      }
      r := CmdAck([CMD_DMG_MBC_RESET]);
      SignalledOn(c.log, io.log, front, PowerSignals(on), [CMD_DMG_MBC_RESET]);
      if clean {
        RanNext(io.link, from, |all| - 1, Ack, all, r.Ok?, io.asked, io.out);
        EntryReset(c, io.link, from);
      }
    }

    /** 3.3 V and the AGB mode: the first four commands of mode entry. */
    method SetAgbMode() returns (r: Result<(), DeviceError>)
      requires io.Ready()
      modifies io.Repr()
      ensures io.Ready() && io.inStep == old(io.inStep)
      ensures io.SlotValue() == old(io.SlotValue()) && io.powered == old(io.powered)
      ensures old(io.out) == [] ==>
        && io.Ran(old(io.asked), Acks(4), r.Ok?)
        && Signalled(old(io.log), io.log, [CMD_SET_MODE_AGB, CMD_SET_VOLTAGE_3_3V])
        && if r.Ok? then io.out == [] && io.CoreValue() == AgbTimed(old(io.CoreValue())) else io.Lossy()
    {
      hide SetVar, Link.Ran, Link.Clear, SimGbxCart.Ready, SimGbxCart.Repr, SimGbxCart.CartRepr, Signalled;
      ghost var from, clean := io.asked, io.out == [];
      NothingAsked(io.link, from);
      r := SetBus(CMD_SET_MODE_AGB, CMD_SET_VOLTAGE_3_3V);
      if clean {
        RanWithin(io.link, from, 0, Acks(2), Acks(4), r.Ok?, io.asked, io.out);
      }
      if r.Err? {
        return;
      }
      r := SetVariable(VAR_AGB_READ_METHOD, 0);
      if clean {
        RanNext(io.link, from, 2, Ack, Acks(4), r.Ok?, io.asked, io.out);
      }
      if r.Err? {
        return;
      }
      r := SetVariable(VAR_CART_MODE, CART_MODE_AGB);
      if clean {
        RanNext(io.link, from, 3, Ack, Acks(4), r.Ok?, io.asked, io.out);
      }
    }

    /** 3.3 V and AGB bus timing: the first six commands of mode entry. */
    method SetAgbBus() returns (r: Result<(), DeviceError>)
      requires io.Ready()
      modifies io.Repr()
      ensures io.Ready() && io.inStep == old(io.inStep)
      ensures io.SlotValue() == old(io.SlotValue()) && io.powered == old(io.powered)
      ensures old(io.out) == [] ==>
        && io.Ran(old(io.asked), Acks(6), r.Ok?)
        && Signalled(old(io.log), io.log, [CMD_SET_MODE_AGB, CMD_SET_VOLTAGE_3_3V])
        && if r.Ok? then io.out == [] && io.CoreValue() == AgbBus(old(io.CoreValue())) else io.Lossy()
    {
      hide SetVar, Link.Ran, Link.Clear, SimGbxCart.Ready, SimGbxCart.Repr, SimGbxCart.CartRepr, Signalled, AgbTimed;
      ghost var from, clean := io.asked, io.out == [];
      NothingAsked(io.link, from);
      r := SetAgbMode();
      if clean {
        RanWithin(io.link, from, 0, Acks(4), Acks(6), r.Ok?, io.asked, io.out);
      }
      if r.Err? {
        return;
      }
      r := SetVariable(VAR_AGB_IRQ_ENABLED, 0);
      if clean {
        RanNext(io.link, from, 4, Ack, Acks(6), r.Ok?, io.asked, io.out);
      }
      if r.Err? {
        return;
      }
      r := SetVariable(VAR_ADDRESS, 0);
      if clean {
        RanNext(io.link, from, 5, Ack, Acks(6), r.Ok?, io.asked, io.out);
      }
    }

    /** Enter AGB mode: 3.3 V, AGB bus timing, cart powered, boot-up sequence run. */
    method EnterAgbMode() returns (r: Result<(), DeviceError>)
      requires io.Ready()
      modifies io.Repr()
      ensures io.Ready() && io.inStep == old(io.inStep)
      ensures io.SlotValue() == old(io.SlotValue())
      ensures old(io.out) == [] ==>
        && io.Ran(old(io.asked), AgbEntryReplies(old(io.powered)), r.Ok?)
        && Signalled(old(io.log), io.log, AgbSignals(old(io.powered)))
        && if r.Ok? then io.out == [] && io.CoreValue() == AgbMode(old(io.CoreValue())) else io.Lossy()
    {
      hide AgbBus, Link.Ran, Link.Clear, SimGbxCart.Ready, SimGbxCart.Repr, SimGbxCart.CartRepr, Signalled, Powered,
        PowerSignals;
      ghost var from, clean, on, c := io.asked, io.out == [], io.powered, io.CoreValue();
      ghost var all, front := AgbEntryReplies(on), [CMD_SET_MODE_AGB, CMD_SET_VOLTAGE_3_3V];
      NothingAsked(io.link, from);
      r := SetAgbBus();
      SignalledOn(c.log, io.log, front, PowerSignals(on), [CMD_AGB_BOOTUP_SEQUENCE]);
      if clean {
        RanWithin(io.link, from, 0, Acks(6), all, r.Ok?, io.asked, io.out);
      }
      if r.Err? {
        return;
      }
      r := PowerOn();
      SignalledOn(c.log, io.log, front, PowerSignals(on), [CMD_AGB_BOOTUP_SEQUENCE]);
      if clean {
        RanWithin(io.link, from, 6, PowerReplies(on), all, r.Ok?, io.asked, io.out);
      }
      if r.Err? {
        return;
      }
      r := Signal(CMD_AGB_BOOTUP_SEQUENCE);
      SignalledOn(c.log, io.log, front, PowerSignals(on), [CMD_AGB_BOOTUP_SEQUENCE]);
      if clean {
        RanNext(io.link, from, |all| - 1, Ack, all, r.Ok?, io.asked, io.out);
      }
    }

    /**
     Send a command and drain whatever it answers: the bus parked, the link back in step. A device
     left in the middle of a buffered group takes the command for raw data instead.
     */
    method Idle()
      requires io.Ready() || io.Value().Swallows(1)
      modifies io.Repr()
      ensures io.out == [] && io.asked == old(io.asked)
      ensures old(io.Ready()) ==>
        && io.Ready() && io.inStep == old(io.inStep)
        && io.CoreValue() == Logged(old(io.CoreValue()), CMD_SET_ADDR_AS_INPUTS)
      ensures !old(io.Ready()) ==>
        !io.inStep && io.Value() == Swallowed(old(io.Value()), [CMD_SET_ADDR_AS_INPUTS]).(out := [])
    {
      hide Device.Ready, Device.Swallows;
      var frame := [CMD_SET_ADDR_AS_INPUTS];
      ghost var before := io.Value();
      SwallowsValid(before);
      if before.Ready() {
        FixedFrame(before, frame);
      } else {
        SwallowsBytes(before, frame);
      }
      io.WriteAll(frame, false);
      ghost var d := io.Value();
      io.FlushInput();
      if before.Ready() {
        StillReady(d, io.Value());
      }
    }
  }
}
