/** The GBxCart wire protocol: opcodes, status bytes, firmware variables and the host's frames. */
module Protocol {
  import opened Bytes

  const CMD_SET_MODE_AGB: byte := 0xA2
  const CMD_SET_MODE_DMG: byte := 0xA3
  const CMD_SET_VOLTAGE_3_3V: byte := 0xA4
  const CMD_SET_VOLTAGE_5V: byte := 0xA5
  const CMD_SET_VARIABLE: byte := 0xA6
  const CMD_SET_FLASH_CMD: byte := 0xA7
  const CMD_SET_ADDR_AS_INPUTS: byte := 0xA8
  const CMD_DMG_CART_READ: byte := 0xB1
  const CMD_DMG_CART_WRITE: byte := 0xB2
  const CMD_DMG_CART_WRITE_SRAM: byte := 0xB3
  const CMD_DMG_MBC_RESET: byte := 0xB4
  const CMD_DMG_MBC6_MMSA_WRITE_FLASH: byte := 0xB7
  const CMD_AGB_CART_READ: byte := 0xC1
  const CMD_AGB_BOOTUP_SEQUENCE: byte := 0xC9
  const CMD_FLASH_PROGRAM: byte := 0xD3
  const CMD_CART_WRITE_FLASH_CMD: byte := 0xD4
  const CMD_CALC_CRC32: byte := 0xD5
  const CMD_CART_PWR_ON: byte := 0xF2
  const CMD_QUERY_CART_PWR: byte := 0xF4

  const ACK_OK: byte := 0x01
  const ACK_CONTINUE: byte := 0x03

  /** A firmware variable: keys are namespaced by width. */
  datatype Var = Var(width: byte, key: u32)

  const VAR_ADDRESS := Var(4, 0x00)
  const VAR_TRANSFER_SIZE := Var(2, 0x00)
  const VAR_BUFFER_SIZE := Var(2, 0x01)
  const VAR_DMG_ROM_BANK := Var(2, 0x02)
  const VAR_STATUS_REGISTER_MASK := Var(2, 0x05)
  const VAR_STATUS_REGISTER_VALUE := Var(2, 0x06)
  const VAR_CART_MODE := Var(1, 0x00)
  const VAR_DMG_ACCESS_MODE := Var(1, 0x01)
  const VAR_FLASH_WE_PIN := Var(1, 0x04)
  const VAR_DMG_READ_CS_PULSE := Var(1, 0x08)
  const VAR_DMG_WRITE_CS_PULSE := Var(1, 0x09)
  const VAR_DMG_READ_METHOD := Var(1, 0x0B)
  const VAR_AGB_READ_METHOD := Var(1, 0x0C)
  const VAR_AGB_IRQ_ENABLED := Var(1, 0x10)

  const CART_MODE_DMG: u32 := 1
  const CART_MODE_AGB: u32 := 2
  const DMG_ACCESS_ROM_READ: u32 := 1
  const DMG_ACCESS_RAM_READ: u32 := 3
  const DMG_ACCESS_RAM_WRITE: u32 := 4
  const DMG_READ_METHOD_A15: u32 := 1
  const MAX_BUFFER_READ: nat := 0x1000

  /** The transfer size for reading `len` bytes. */
  function ChunkOf(len: nat): (n: u32)
    ensures n as nat <= MAX_BUFFER_READ && (len > 0 ==> n > 0)
  {
    if len < MAX_BUFFER_READ then len as u32 else MAX_BUFFER_READ as u32
  }

  function SetVariableFrame(v: Var, value: u32): (f: seq<byte>)
    ensures |f| == 10 && f[0] == CMD_SET_VARIABLE && f[1] == v.width
    ensures FromBe32(f[2..6]) == v.key && FromBe32(f[6..10]) == value
  {
    Be32RoundTrip(v.key);
    Be32RoundTrip(value);
    var f := [CMD_SET_VARIABLE, v.width] + Be32(v.key) + Be32(value);
    assert f[2..6] == Be32(v.key) && f[6..10] == Be32(value);
    f
  }

  function DmgWriteFrame(addr: nat, value: byte): (f: seq<byte>)
    requires addr < 0x1_0000
    ensures |f| == 6 && f[0] == CMD_DMG_CART_WRITE && FromBe32(f[1..5]) as nat == addr && f[5] == value
  {
    Be32RoundTrip(addr as u32);
    var f := [CMD_DMG_CART_WRITE] + Be32(addr as u32) + [value];
    assert f[1..5] == Be32(addr as u32);
    f
  }

  function CalcCrc32Frame(length: u32): (f: seq<byte>)
    ensures |f| == 5 && f[0] == CMD_CALC_CRC32 && FromBe32(f[1..5]) == length
  {
    Be32RoundTrip(length);
    var f := [CMD_CALC_CRC32] + Be32(length);
    assert f[1..5] == Be32(length);
    f
  }

  /** One (address, value) pair of a flash-command frame: a word and a half-word. */
  function FlashCmdPair(write: (u32, byte)): (f: seq<byte>)
    ensures |f| == 6 && FromBe32(f[..4]) == write.0 && f[4] == 0 && f[5] == write.1
  {
    Be32RoundTrip(write.0);
    var f := Be32(write.0) + [0, write.1];
    assert f[..4] == Be32(write.0);
    f
  }

  function FlashCmdPairs(writes: seq<(u32, byte)>): (f: seq<byte>)
    ensures |f| == 6 * |writes|
  {
    if writes == [] then [] else FlashCmdPair(writes[0]) + FlashCmdPairs(writes[1..])
  }

  /** SET_FLASH_CMD: command set, method, strobe pin and up to six command slots, zero-filled. */
  function SetFlashCmdFrame(cmdSet: byte, programMethod: byte, wePin: byte, cmds: seq<(u32, byte)>): (f: seq<byte>)
    requires |cmds| <= 6
    ensures |f| == 40 && f[..4] == [CMD_SET_FLASH_CMD, cmdSet, programMethod, wePin]
  {
    [CMD_SET_FLASH_CMD, cmdSet, programMethod, wePin] + FlashCmdPairs(cmds) + seq(36 - 6 * |cmds|, _ => 0)
  }

  /** CART_WRITE_FLASH_CMD: a counted batch of flash command-register writes. */
  function WriteFlashCmdFrame(flashcart: byte, writes: seq<(u32, byte)>): (f: seq<byte>)
    requires |writes| < 0x100
    ensures |f| == 3 + 6 * |writes| && f[0] == CMD_CART_WRITE_FLASH_CMD && f[2] as nat == |writes|
    ensures f[3..] == FlashCmdPairs(writes)
  {
    [CMD_CART_WRITE_FLASH_CMD, flashcart, |writes| as byte] + FlashCmdPairs(writes)
  }

  /** The pairs a device reads out of the body of a flash-command frame. */
  function ParsePairs(body: seq<byte>, count: nat): (writes: seq<(u32, byte)>)
    requires |body| == 6 * count
    ensures |writes| == count
  {
    if count == 0 then []
    else [(FromBe32(body[..4]), body[5])] + ParsePairs(body[6..], count - 1)
  }

  lemma {:induction false} PairsAppend(a: seq<(u32, byte)>, b: seq<(u32, byte)>)
    ensures FlashCmdPairs(a + b) == FlashCmdPairs(a) + FlashCmdPairs(b)
  {
    hide FlashCmdPair;
    if a == [] {
      assert a + b == b;
    } else {
      assert (a + b)[0] == a[0] && (a + b)[1..] == a[1..] + b;
      PairsAppend(a[1..], b);
    }
  }

  lemma {:induction false} ZeroPairs(n: nat)
    ensures FlashCmdPairs(seq(n, _ => (0, 0))) == seq(6 * n, _ => 0)
  {
    var zeros := seq(n, _ => (0 as u32, 0 as byte));
    if n > 0 {
      assert zeros[1..] == seq(n - 1, _ => (0 as u32, 0 as byte));
      ZeroPairs(n - 1);
      assert FlashCmdPair((0, 0)) == [0, 0, 0, 0, 0, 0];
    }
  }

  /** The slots of a SET_FLASH_CMD frame, and zeros in those not given. */
  lemma SlotsParsed(cmdSet: byte, programMethod: byte, wePin: byte, cmds: seq<(u32, byte)>)
    requires |cmds| <= 6
    ensures var frame := SetFlashCmdFrame(cmdSet, programMethod, wePin, cmds);
            ParsePairs(frame[4..], 6) == cmds + seq(6 - |cmds|, _ => (0, 0))
  {
    hide FlashCmdPairs, ParsePairs;
    var n := 6 - |cmds|;
    var zeros := seq(n, _ => (0 as u32, 0 as byte));
    var frame := SetFlashCmdFrame(cmdSet, programMethod, wePin, cmds);
    PairsAppend(cmds, zeros);
    ZeroPairs(n);
    assert 36 - 6 * |cmds| == 6 * n;
    assert frame[4..] == FlashCmdPairs(cmds) + seq(6 * n, _ => 0) == FlashCmdPairs(cmds + zeros);
    ParsePairsInverse(cmds + zeros);
  }

  lemma {:induction false} ParsePairsInverse(writes: seq<(u32, byte)>)
    ensures ParsePairs(FlashCmdPairs(writes), |writes|) == writes
  {
    if writes != [] {
      var body := FlashCmdPairs(writes);
      var head := FlashCmdPair(writes[0]);
      assert body[..4] == head[..4] && body[5] == head[5];
      assert body[6..] == FlashCmdPairs(writes[1..]);
      ParsePairsInverse(writes[1..]);
    }
  }

  /** A SET_VARIABLE frame byte for byte: opcode, width, key, value. */
  lemma VariableBytes(v: Var, value: u32, k: byte, a: byte, b: byte, c: byte, d: byte)
    requires v.key == k as u32
    requires value as nat == a as nat * 0x100_0000 + b as nat * 0x1_0000 + c as nat * 0x100 + d as nat
    ensures SetVariableFrame(v, value) == [0xA6, v.width, 0, 0, 0, k, a, b, c, d]
  {
    hide Be32;
    WordIs(v.key, 0, 0, 0, k);
    WordIs(value, a, b, c, d);
    assert SetVariableFrame(v, value) == [CMD_SET_VARIABLE, v.width] + Be32(v.key) + Be32(value);
  }

  /** The variables' frames. */
  lemma FrameBytes()
    ensures SetVariableFrame(VAR_ADDRESS, 0x1234_5678) == [0xA6, 4, 0, 0, 0, 0, 0x12, 0x34, 0x56, 0x78]
    ensures SetVariableFrame(VAR_TRANSFER_SIZE, 0x1000) == [0xA6, 2, 0, 0, 0, 0, 0, 0, 0x10, 0]
    ensures SetVariableFrame(VAR_BUFFER_SIZE, 0x400) == [0xA6, 2, 0, 0, 0, 1, 0, 0, 4, 0]
    ensures SetVariableFrame(VAR_CART_MODE, CART_MODE_DMG) == [0xA6, 1, 0, 0, 0, 0, 0, 0, 0, 1]
    ensures SetVariableFrame(VAR_CART_MODE, CART_MODE_AGB) == [0xA6, 1, 0, 0, 0, 0, 0, 0, 0, 2]
    ensures SetVariableFrame(VAR_DMG_ACCESS_MODE, DMG_ACCESS_RAM_WRITE) == [0xA6, 1, 0, 0, 0, 1, 0, 0, 0, 4]
    ensures SetVariableFrame(VAR_FLASH_WE_PIN, 1) == [0xA6, 1, 0, 0, 0, 4, 0, 0, 0, 1]
    ensures SetVariableFrame(VAR_AGB_IRQ_ENABLED, 0) == [0xA6, 1, 0, 0, 0, 0x10, 0, 0, 0, 0]
  {
    hide SetVariableFrame;
    VariableBytes(VAR_ADDRESS, 0x1234_5678, 0, 0x12, 0x34, 0x56, 0x78);
    VariableBytes(VAR_TRANSFER_SIZE, 0x1000, 0, 0, 0, 0x10, 0);
    VariableBytes(VAR_BUFFER_SIZE, 0x400, 1, 0, 0, 4, 0);
    VariableBytes(VAR_CART_MODE, CART_MODE_DMG, 0, 0, 0, 0, 1);
    VariableBytes(VAR_CART_MODE, CART_MODE_AGB, 0, 0, 0, 0, 2);
    VariableBytes(VAR_DMG_ACCESS_MODE, DMG_ACCESS_RAM_WRITE, 1, 0, 0, 0, 4);
    VariableBytes(VAR_FLASH_WE_PIN, 1, 4, 0, 0, 0, 1);
    VariableBytes(VAR_AGB_IRQ_ENABLED, 0, 0x10, 0, 0, 0, 0);
  }

  /** Bus writes, checksums and flash commands byte for byte. */
  lemma CommandBytes(hi: byte, lo: byte, value: byte)
    ensures DmgWriteFrame(0x100 * hi as nat + lo as nat, value) == [0xB2, 0, 0, hi, lo, value]
    ensures CalcCrc32Frame((0x1_0000 * hi as nat + 0x100 * lo as nat) as u32) == [0xD5, 0, hi, lo, 0]
    ensures FlashCmdPair(((0x100 * hi as nat + lo as nat) as u32, value)) == [0, 0, hi, lo, 0, value]
  {
    hide Be32;
    var at := (0x100 * hi as nat + lo as nat) as u32;
    var n := (0x1_0000 * hi as nat + 0x100 * lo as nat) as u32;
    WordIs(at, 0, 0, hi, lo);
    WordIs(n, 0, hi, lo, 0);
    assert DmgWriteFrame(0x100 * hi as nat + lo as nat, value) == [CMD_DMG_CART_WRITE] + Be32(at) + [value];
    assert CalcCrc32Frame(n) == [CMD_CALC_CRC32] + Be32(n);
    assert FlashCmdPair((at, value)) == Be32(at) + [0, value];
  }
}
