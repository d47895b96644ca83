/**
 The host's primitives over the G-MMC1: the generic driver's commands and streamed reads, and the
 mapper's register sequences. Each contract gives the mapper state afterwards; only a lossy link
 can make a primitive fail.
 */
module GbMemoryDriver {
  import opened Bytes
  import opened Protocol
  import opened GbxDriver
  import opened SimGbMemory
  import opened GbMemorySequences

  /** Flash data on the bus: neither the chip's ID nor the hidden map. */
  predicate DataMode(m: Mmc) {
    !m.autoselect && !m.mapRead
  }

  /** `n` bytes of flash as the bus windows show them. */
  function Shown(m: Mmc, at: nat, n: nat): (s: seq<byte>)
    requires m.Valid()
    ensures |s| == n
  {
    seq(n, i requires 0 <= i < n =>
      if FlashAbs(m, at + i) < IMAGE_SIZE then m.flash[FlashAbs(m, at + i)] else 0xFF)
  }

  /** What `k` read opcodes in a row do and answer. */
  function Reads(c: Gbm, k: nat): (r: (Gbm, seq<byte>))
    requires c.Valid()
    ensures r.0.Valid()
  {
    if k == 0 then (c, [])
    else
      var (c1, s) := Reads(c, k - 1);
      var (c2, t) := ReadBytes(c1);
      (c2, s + t)
  }

  lemma ReadKeeps(c: Gbm)
    requires c.Valid() && c.Get(VAR_TRANSFER_SIZE) != 1
    ensures var (c1, s) := ReadBytes(c);
            && c1.mmc == c.mmc && c1.Get(VAR_TRANSFER_SIZE) == c.Get(VAR_TRANSFER_SIZE)
            && |s| == c.Get(VAR_TRANSFER_SIZE) as nat
  {
    hide BytesAt;
  }

  lemma {:induction false} ReadsKeep(c: Gbm, k: nat)
    requires c.Valid() && c.Get(VAR_TRANSFER_SIZE) != 1
    ensures Reads(c, k).0.mmc == c.mmc && Reads(c, k).0.Get(VAR_TRANSFER_SIZE) == c.Get(VAR_TRANSFER_SIZE)
    ensures |Reads(c, k).1| == k * c.Get(VAR_TRANSFER_SIZE) as nat
  {
    hide ReadBytes;
    if k > 0 {
      ReadsKeep(c, k - 1);
      ReadKeeps(Reads(c, k - 1).0);
      var n := c.Get(VAR_TRANSFER_SIZE) as nat;
      assert k * n == (k - 1) * n + n;
    }
  }

  /** In data mode the address moves on from chunk to chunk, and the chunks join up. */
  lemma {:induction false} DataReads(c: Gbm, at: nat, k: nat)
    requires c.Valid() && DataMode(c.mmc) && c.Get(VAR_TRANSFER_SIZE) as nat > 1 && c.Get(VAR_ADDRESS) as nat == at
    requires at + k * c.Get(VAR_TRANSFER_SIZE) as nat <= 0x1_0000
    ensures var (c1, s) := Reads(c, k);
            && c1.mmc == c.mmc && s == Shown(c.mmc, at, k * c.Get(VAR_TRANSFER_SIZE) as nat)
            && c1.Get(VAR_ADDRESS) as nat == at + k * c.Get(VAR_TRANSFER_SIZE) as nat
            && c1.Get(VAR_TRANSFER_SIZE) == c.Get(VAR_TRANSFER_SIZE)
  {
    hide ReadBytes, Shown;
    if k > 0 {
      var n := c.Get(VAR_TRANSFER_SIZE) as nat;
      assert k * n == (k - 1) * n + n;
      DataReads(c, at, k - 1);
      var before := (k - 1) * n;
      var c1 := Reads(c, k - 1).0;
      DataStep(c1, at + before);
      ShownOn(c.mmc, at, before, n);
    }
  }

  lemma DataStep(c: Gbm, at: nat)
    requires c.Valid() && DataMode(c.mmc) && c.Get(VAR_TRANSFER_SIZE) as nat > 1 && c.Get(VAR_ADDRESS) as nat == at
    requires at + c.Get(VAR_TRANSFER_SIZE) as nat <= 0x1_0000
    ensures var (c1, s) := ReadBytes(c);
            && c1.mmc == c.mmc && s == Shown(c.mmc, at, c.Get(VAR_TRANSFER_SIZE) as nat)
            && c1.Get(VAR_ADDRESS) as nat == at + c.Get(VAR_TRANSFER_SIZE) as nat
            && c1.Get(VAR_TRANSFER_SIZE) == c.Get(VAR_TRANSFER_SIZE)
  {
    hide BytesAt, Shown;
    BytesShown(c.mmc, at, c.Get(VAR_TRANSFER_SIZE) as nat);
  }

  lemma ShownOn(m: Mmc, at: nat, a: nat, b: nat)
    requires m.Valid()
    ensures Shown(m, at, a) + Shown(m, at + a, b) == Shown(m, at, a + b)
  {
    hide FlashAbs;
  }

  lemma BytesShown(m: Mmc, at: nat, n: nat)
    requires m.Valid() && DataMode(m) && n > 1
    ensures BytesAt(m, at, n) == Shown(m, at, n)
  {
    hide FlashAbs;
    forall i | 0 <= i < n
      ensures BytesAt(m, at, n)[i] == Shown(m, at, n)[i]
    {
      assert BytesAt(m, at, n)[i] == ByteAt(m, at + i, n);
    }
  }

  /** Transfer size, address and access mode set for a ROM read. */
  function AimedAt(c: Gbm, address: u32, len: nat): (r: Gbm)
    ensures r.mmc == c.mmc && r.Get(VAR_TRANSFER_SIZE) == ChunkOf(len) && r.Get(VAR_ADDRESS) == address
  {
    var vars := c.vars[VAR_DMG_ACCESS_MODE := DMG_ACCESS_ROM_READ];
    c.(vars := vars[VAR_TRANSFER_SIZE := ChunkOf(len)][VAR_ADDRESS := address])
  }

  /** Lengths the driver asks for: less than a chunk, or whole chunks. */
  predicate Chunked(len: nat) {
    0 < len && (len < MAX_BUFFER_READ || len % MAX_BUFFER_READ == 0)
  }

  function RomReads(c: Gbm, address: u32, len: nat): (r: (Gbm, seq<byte>))
    requires c.Valid() && Chunked(len)
  {
    Reads(AimedAt(c, address, len), len / ChunkOf(len) as nat)
  }

  lemma WholeChunk(len: nat)
    requires Chunked(len)
    ensures len / ChunkOf(len) as nat * ChunkOf(len) as nat == len
    ensures len < MAX_BUFFER_READ ==> len / ChunkOf(len) as nat == 1
  {
  }

  /** A ROM read of more than one byte shows the flash and changes nothing. */
  lemma DataRead(c: Gbm, address: u32, len: nat)
    requires c.Valid() && DataMode(c.mmc) && Chunked(len) && len > 1 && address as nat + len <= 0x1_0000
    ensures RomReads(c, address, len).0.mmc == c.mmc
    ensures RomReads(c, address, len).1 == Shown(c.mmc, address as nat, len)
  {
    hide Shown, Reads, AimedAt;
    WholeChunk(len);
    DataReads(AimedAt(c, address, len), address as nat, len / ChunkOf(len) as nat);
  }

  lemma OneRead(c: Gbm)
    requires c.Valid()
    ensures Reads(c, 1) == ReadBytes(c)
  {
    hide ReadBytes;
    var (c1, s) := ReadBytes(c);
    assert Reads(c, 0) == (c, []);
    assert Reads(c, 1) == (c1, [] + s);
    assert [] + s == s;
  }

  /** A status poll: ready, or one busy answer used up. */
  lemma PollRead(c: Gbm, address: u32)
    requires c.Valid() && DataMode(c.mmc)
    ensures var (c1, s) := RomReads(c, address, 1);
            && s == [if c.mmc.busy > 0 then 0x00 else 0x80]
            && c1.mmc == c.mmc.(busy := if c.mmc.busy > 0 then c.mmc.busy - 1 else 0)
  {
    hide Reads;
    OneRead(AimedAt(c, address, 1));
    WholeChunk(1);
    assert BytesAt(c.mmc, address as nat, 1) == [ByteAt(c.mmc, address as nat + 0, 1)];
  }

  lemma IdRead(c: Gbm)
    requires c.Valid() && c.mmc.autoselect
    ensures RomReads(c, 0, 2).0.mmc == c.mmc && RomReads(c, 0, 2).1 == [0xC2, 0x89]
  {
    hide Reads;
    OneRead(AimedAt(c, 0, 2));
    WholeChunk(2);
  }

  lemma MapRead(c: Gbm)
    requires c.Valid() && !c.mmc.autoselect && c.mmc.mapRead
    ensures RomReads(c, 0, MAP_SIZE).0.mmc == c.mmc && RomReads(c, 0, MAP_SIZE).1 == c.mmc.hidden
  {
    hide Reads;
    OneRead(AimedAt(c, 0, MAP_SIZE));
    WholeChunk(MAP_SIZE);
    assert BytesAt(c.mmc, 0, MAP_SIZE) == c.mmc.hidden;
  }

  lemma ReadFrame(d: GbmDevice)
    requires d.Ready()
    ensures var (c, s) := ReadBytes(d.core);
            Received(d, [CMD_DMG_CART_READ]) == d.(core := c, out := d.out + s)
  {
    hide ReadBytes;
    CommandFrame(d, [CMD_DMG_CART_READ]);
  }

  lemma ReadLength(c: Gbm)
    requires c.Valid()
    ensures |ReadBytes(c).1| == c.Get(VAR_TRANSFER_SIZE) as nat
  {
  }

  const MMC_CMD := 0x0120
  const MMC_ARG1 := 0x0121
  const MMC_ARG2 := 0x0122
  const MMC_ADDR_HI := 0x0125
  const MMC_ADDR_LO := 0x0126
  const MMC_DATA := 0x0127
  const MMC_EXEC := 0x013F
  const MMC_MAGIC: byte := 0xA5
  const MMC_SLEEP: byte := 0x08
  const MMC_WAKE: byte := 0x09
  const MMC_MAP_FULL: byte := 0x04
  const MMC_WP_ARM: byte := 0x0A
  const MMC_WP_DISABLE: byte := 0x02
  const MMC_MBC_ENABLE: byte := 0x11
  const MMC_MBC_DISABLE: byte := 0x10
  const MMC_FLASH_WRITE: byte := 0x0F
  const MMC5_BANK_WRITE := 0x2100
  const FLASH_RESET: byte := 0xF0

  /** A mapper command without arguments. */
  function Commanded(m: Mmc, cmd: byte): (r: Mmc)
    ensures m.Valid() ==> r.Valid()
  {
    if cmd == MMC_WAKE then m.(awake := true)
    else if cmd == MMC_SLEEP then m.(awake := false)
    else if cmd == MMC_MAP_FULL then m.(mapFull := true)
    else m
  }

  function Banked(m: Mmc, bank: nat): (r: Mmc)
    ensures m.Valid() && bank < 0x100 ==> r.Valid()
  {
    m.(bank := bank, bankBroken := false)
  }

  /** The unlock cycles alone change nothing. */
  lemma UnlockIgnored(m: Mmc)
    ensures FlashCommand(m, 0x5555, 0xAA) == m && FlashCommand(m, 0x2AAA, 0x55) == m
  {
  }

  class GbMemoryCart {
    const io: SimGbMemory
    const fwVer: nat

    constructor (io: SimGbMemory, fwVer: nat)
      ensures this.io == io && this.fwVer == fwVer
    {
      this.io, this.fwVer := io, fwVer;
    }

    method ExpectAck() returns (r: Result<bool, DeviceError>)
      modifies io`out
      ensures r.Ok? ==> old(io.out) != [] && io.out == old(io.out)[1..]
      ensures r.Ok? ==> old(io.out)[0] == (if r.value then ACK_CONTINUE else ACK_OK)
      ensures r.Err? ==> io.lossy || old(io.out) == [] || !IsAck(old(io.out)[0])
    {
      var b := io.ReadExact(1);
      if b.Err? {
        return Err(Io);
      }
      if b.value[0] == ACK_OK {
        r := Ok(false);
      } else if b.value[0] == ACK_CONTINUE {
        r := Ok(true);
      } else {
        r := Err(ProtocolError);
      }
    }

    method CmdAck(frame: seq<byte>) returns (r: Result<(), DeviceError>)
      requires io.Ready() && io.out == [] && |frame| > 0 && |frame| == CommandLength(frame[0])
      requires Answered(io.CoreValue(), frame).1 == [ACK_OK]
      modifies io
      ensures io.Ready() && (if r.Ok? then io.out == [] else io.lossy)
      ensures io.CoreValue() == Answered(old(io.CoreValue()), frame).0
    {
      hide Answered;
      CommandFrame(io.Value(), frame);
      io.WriteAll(frame);
      var a := ExpectAck();
      r := if a.Ok? then Ok(()) else Err(a.error);
    }

    method SetVariable(v: Var, value: u32) returns (r: Result<(), DeviceError>)
      requires io.Ready() && io.out == []
      modifies io
      ensures io.Ready() && (if r.Ok? then io.out == [] else io.lossy)
      ensures io.CoreValue() == old(io.CoreValue()).(vars := old(io.vars)[v := value])
    {
      var frame := SetVariableFrame(v, value);
      assert Var(frame[1], FromBe32(frame[2..6])) == v;
      r := CmdAck(frame);
    }

    /** A single DMG bus write. */
    method DmgWrite(addr: nat, value: byte) returns (r: Result<(), DeviceError>)
      requires io.Ready() && io.out == [] && addr < 0x1_0000
      modifies io
      ensures io.Ready() && (if r.Ok? then io.out == [] else io.lossy)
      ensures io.CoreValue() == BusWrite(old(io.CoreValue()), addr, value)
    {
      hide BusWrite;
      r := CmdAck(DmgWriteFrame(addr, value));
    }

    /** One read opcode for a whole chunk. */
    method ReadChunk(chunk: nat) returns (r: Result<seq<byte>, DeviceError>)
      requires io.Ready() && io.out == [] && chunk == io.CoreValue().Get(VAR_TRANSFER_SIZE) as nat
      modifies io
      ensures io.Ready() && (if r.Ok? then io.out == [] else io.lossy)
      ensures io.CoreValue() == ReadBytes(old(io.CoreValue())).0
      ensures r.Ok? ==> r.value == ReadBytes(old(io.CoreValue())).1
    {
      hide Received, ReadBytes;
      ReadLength(io.CoreValue());
      ReadFrame(io.Value());
      io.WriteAll([CMD_DMG_CART_READ]);
      assert io.out == ReadBytes(old(io.CoreValue())).1;
      var part := io.ReadExact(chunk);
      r := if part.Ok? then Ok(part.value) else Err(Io);
    }

    method ReadStream(chunk: nat, k: nat) returns (r: Result<seq<byte>, DeviceError>)
      requires io.Ready() && io.out == [] && chunk == io.CoreValue().Get(VAR_TRANSFER_SIZE) as nat
      requires chunk > 0 && (chunk == 1 ==> k == 1)
      modifies io
      ensures io.Ready() && (if r.Ok? then io.out == [] else io.lossy)
      ensures r.Ok? ==> (io.CoreValue(), r.value) == Reads(old(io.CoreValue()), k)
      ensures chunk != 1 ==> io.MmcValue() == old(io.MmcValue())
      ensures io.heard == old(io.heard)
    {
      hide ReadBytes;
      var out := [];
      ghost var c := io.CoreValue();
      var i := 0;
      while i < k
        invariant i <= k && io.Ready() && io.out == []
        invariant (io.CoreValue(), out) == Reads(c, i) && io.heard == old(io.heard)
        invariant (i < k || chunk != 1) ==> io.CoreValue().Get(VAR_TRANSFER_SIZE) as nat == chunk
        invariant chunk != 1 ==> io.MmcValue() == c.mmc
      {
        if chunk != 1 {
          ReadsKeep(c, i + 1);
        }
        var part := ReadChunk(chunk);
        if part.Err? {
          return Err(part.error);
        }
        out := out + part.value;
        i := i + 1;
      }
      r := Ok(out);
    }

    method ReadDmgRomChunk(address: u32, len: nat) returns (r: Result<seq<byte>, DeviceError>)
      requires io.Ready() && io.out == [] && Chunked(len)
      modifies io
      ensures io.Ready() && (if r.Ok? then io.out == [] else io.lossy)
      ensures r.Ok? ==> (io.CoreValue(), r.value) == RomReads(old(io.CoreValue()), address, len)
      ensures len != 1 ==> io.MmcValue() == old(io.MmcValue())
      ensures io.heard == old(io.heard)
    {
      hide Reads;
      WholeChunk(len);
      var a := SetVariable(VAR_DMG_ACCESS_MODE, DMG_ACCESS_ROM_READ);
      if a.Err? {
        return Err(a.error);
      }
      a := SetVariable(VAR_TRANSFER_SIZE, ChunkOf(len));
      if a.Err? {
        return Err(a.error);
      }
      a := SetVariable(VAR_ADDRESS, address);
      if a.Err? {
        return Err(a.error);
      }
      r := ReadStream(ChunkOf(len) as nat, len / ChunkOf(len) as nat);
    }

    /** Stage a command and execute it. */
    method MmcCmd(cmd: byte) returns (r: Result<(), DeviceError>)
      requires io.Ready() && io.out == [] && cmd != MMC_FLASH_WRITE && cmd != 0x05
      modifies io
      ensures io.Ready() && (if r.Ok? then io.out == [] else io.lossy)
      ensures r.Ok? ==> io.MmcValue() == Commanded(old(io.MmcValue()), cmd)
      ensures r.Ok? ==> io.heard == AfterCommand(old(io.heard), cmd)
    {
      r := DmgWrite(MMC_CMD, cmd);
      if r.Err? {
        return;
      }
      r := DmgWrite(MMC_EXEC, MMC_MAGIC);
    }

    method MmcWake() returns (r: Result<(), DeviceError>)
      requires io.Ready() && io.out == []
      modifies io
      ensures io.Ready() && (if r.Ok? then io.out == [] else io.lossy)
      ensures r.Ok? ==> io.MmcValue() == Commanded(old(io.MmcValue()), MMC_WAKE)
      ensures r.Ok? ==> io.heard == AfterWake(old(io.heard))
    {
      r := DmgWrite(MMC_CMD, MMC_WAKE);
      if r.Err? {
        return;
      }
      r := DmgWrite(MMC_ARG1, 0xAA);
      if r.Err? {
        return;
      }
      r := DmgWrite(MMC_ARG2, 0x55);
      if r.Err? {
        return;
      }
      r := DmgWrite(MMC_EXEC, MMC_MAGIC);
    }

    /** Arm the switch for write protection. */
    method ArmWp() returns (r: Result<(), DeviceError>)
      requires io.Ready() && io.out == []
      modifies io
      ensures io.Ready() && (if r.Ok? then io.out == [] else io.lossy)
      ensures r.Ok? ==> io.MmcValue() == old(io.MmcValue())
      ensures r.Ok? ==>
        io.heard
          == old(io.heard) + [Wrote(0x0120, 0x0A), Wrote(0x0125, 0x62), Wrote(0x0126, 0x04), Wrote(0x013F, 0xA5)]
    {
      r := DmgWrite(MMC_CMD, MMC_WP_ARM);
      if r.Err? {
        return;
      }
      r := DmgWrite(MMC_ADDR_HI, 0x62);
      if r.Err? {
        return;
      }
      r := DmgWrite(MMC_ADDR_LO, 0x04);
      if r.Err? {
        return;
      }
      r := DmgWrite(MMC_EXEC, MMC_MAGIC);
    }

    /** Disable flash write protection: arm, then disable. */
    method MmcDisableWp() returns (r: Result<(), DeviceError>)
      requires io.Ready() && io.out == []
      modifies io
      ensures io.Ready() && (if r.Ok? then io.out == [] else io.lossy)
      ensures r.Ok? ==> io.MmcValue() == old(io.MmcValue())
      ensures r.Ok? ==> io.heard == AfterProtection(old(io.heard))
    {
      hide AfterCommand;
      r := ArmWp();
      if r.Err? {
        return;
      }
      r := MmcCmd(MMC_WP_DISABLE);
    }

    /** A flash bus write through the mapper's direct-write command. */
    method FlashWrite(addr: nat, value: byte) returns (r: Result<(), DeviceError>)
      requires io.Ready() && io.out == [] && addr < 0x1_0000
      modifies io
      ensures io.Ready() && (if r.Ok? then io.out == [] else io.lossy)
      ensures r.Ok? ==> io.MmcValue() == FlashCommand(old(io.MmcValue()), addr, value)
      ensures r.Ok? ==> io.heard == AfterFlash(old(io.heard), addr, value)
    {
      hide FlashCommand;
      r := DmgWrite(MMC_CMD, MMC_FLASH_WRITE);
      if r.Err? {
        return;
      }
      r := DmgWrite(MMC_ADDR_HI, (addr / 0x100) as byte);
      if r.Err? {
        return;
      }
      r := DmgWrite(MMC_ADDR_LO, (addr % 0x100) as byte);
      if r.Err? {
        return;
      }
      r := DmgWrite(MMC_DATA, value);
      if r.Err? {
        return;
      }
      r := DmgWrite(MMC_EXEC, MMC_MAGIC);
    }

    /** The switchable window's bank, through the one register that is safe on this mapper. */
    method SelectBank(bank: nat) returns (r: Result<(), DeviceError>)
      requires io.Ready() && io.out == []
      modifies io
      ensures io.Ready() && (if r.Ok? then io.out == [] else io.lossy)
      ensures io.MmcValue() == Banked(old(io.MmcValue()), bank % 0x100)
      ensures io.heard == AfterBus(old(io.heard), 0x2100, (bank % 0x100) as byte)
    {
      r := DmgWrite(MMC5_BANK_WRITE, (bank % 0x100) as byte);
    }

    /** The AMD unlock prefix and a command. */
    method FlashUnlockCmd(cmd: byte) returns (r: Result<(), DeviceError>)
      requires io.Ready() && io.out == []
      modifies io
      ensures io.Ready() && (if r.Ok? then io.out == [] else io.lossy)
      ensures r.Ok? ==> io.MmcValue() == FlashCommand(old(io.MmcValue()), 0x5555, cmd)
      ensures r.Ok? ==> io.heard == AfterPrefix(old(io.heard), cmd)
    {
      hide FlashCommand;
      UnlockIgnored(io.MmcValue());
      r := FlashWrite(0x5555, 0xAA);
      if r.Err? {
        return;
      }
      r := FlashWrite(0x2AAA, 0x55);
      if r.Err? {
        return;
      }
      r := FlashWrite(0x5555, cmd);
    }

    /** Poll the status at `addr` until it is ready, giving up after `patience` busy answers. */
    method PollReady(addr: u32, patience: nat) returns (r: Result<(), DeviceError>)
      requires io.Ready() && io.out == [] && DataMode(io.MmcValue())
      modifies io
      ensures io.Ready() && (r.Err? ==> io.lossy || patience < 2)
      ensures r.Ok? ==> io.out == [] && io.MmcValue() == old(io.MmcValue()).(busy := 0)
      ensures io.heard == old(io.heard)
    {
      hide RomReads;
      var polls := 0;
      while true
        invariant io.Ready() && io.out == [] && io.MmcValue() == old(io.MmcValue()).(busy := io.busy)
        invariant io.heard == old(io.heard)
        invariant polls + io.busy <= 2
        decreases io.busy
      {
        PollRead(io.CoreValue(), addr);
        var s := ReadDmgRomChunk(addr, 1);
        if s.Err? {
          return Err(s.error);
        }
        if s.value[0] >= 0x80 {
          return Ok(());
        }
        polls := polls + 1;
        if polls > patience {
          return Err(ProtocolError);
        }
      }
    }

    /** Enter DMG mode; the mapper keeps its state. */
    method EnterDmgMode() returns (r: Result<(), DeviceError>)
      requires io.Ready() && io.out == []
      modifies io
      ensures io.Ready() && (if r.Ok? then io.out == [] else io.lossy)
      ensures io.MmcValue() == old(io.MmcValue())
      ensures r.Ok? ==> Entered(old(io.heard), io.heard)
    {
      r := CmdAck([CMD_SET_MODE_DMG]);
      if r.Err? {
        return;
      }
      r := CmdAck([CMD_SET_VOLTAGE_5V]);
      if r.Err? {
        return;
      }
      r := SetVariable(VAR_DMG_READ_METHOD, DMG_READ_METHOD_A15);
      if r.Err? {
        return;
      }
      r := SetVariable(VAR_CART_MODE, CART_MODE_DMG);
      if r.Err? {
        return;
      }
      r := SetVariable(VAR_ADDRESS, 0);
      if r.Err? {
        return;
      }
      r := PowerOn();
      if r.Err? {
        return;
      }
      r := CmdAck([CMD_DMG_MBC_RESET]);
    }

    method QueryPower() returns (b: Result<byte, DeviceError>)
      requires io.Ready() && io.out == []
      modifies io
      ensures io.Ready() && (if b.Ok? then io.out == [] else io.lossy)
      ensures io.CoreValue() == old(io.CoreValue())
    {
      CommandFrame(io.Value(), [CMD_QUERY_CART_PWR]);
      io.WriteAll([CMD_QUERY_CART_PWR]);
      var s := io.ReadExact(1);
      b := if s.Ok? then Ok(s.value[0]) else Err(Io);
    }

    method PowerOn() returns (r: Result<(), DeviceError>)
      requires io.Ready() && io.out == []
      modifies io
      ensures io.Ready() && (if r.Ok? then io.out == [] else io.lossy)
      ensures io.MmcValue() == old(io.MmcValue())
      ensures io.heard == old(io.heard) || io.heard == old(io.heard) + [Command([0xF2])]
    {
      var b := QueryPower();
      if b.Err? {
        return Err(b.error);
      }
      if b.value == 0 {
        r := CmdAck([CMD_CART_PWR_ON]);
      } else {
        r := Ok(());
      }
    }

    method Idle()
      requires io.Ready()
      modifies io
      ensures io.Ready() && io.out == [] && io.MmcValue() == old(io.MmcValue())
      ensures io.heard == old(io.heard) + [Command([0xA8])]
    {
      CommandFrame(io.Value(), [CMD_SET_ADDR_AS_INPUTS]);
      io.WriteAll([CMD_SET_ADDR_AS_INPUTS]);
      io.FlushInput();
    }
  }
}
