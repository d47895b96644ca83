/**
 Programming erased flash group by group in lockstep with the firmware. Chunks of a buffered group
 after the first are raw data with no opcode, so host and device must agree at every write on what
 comes next; groups of 0xFF are skipped, and the address is sent again after each skip.
 */
module FlashProgram {
  import opened Arithmetic
  import opened Bytes
  import opened Protocol
  import opened FlashChip
  import opened Cartridges
  import opened GbxCore
  import opened GbxWire
  import opened GbxLink
  import opened SimGbx
  import opened GbxDriver
  import opened FlashErase

  const PROGRAM_CHUNK: nat := 0x100

  /** The granularity of programming and of skipping: a whole buffer, or one chunk. */
  function GroupSize(p: FlashProfile): (g: nat)
    ensures g >= PROGRAM_CHUNK
  {
    match p.programming
    case Unbuffered => PROGRAM_CHUNK
    case Buffered(b) => if b > PROGRAM_CHUNK then b else PROGRAM_CHUNK
  }

  /** A chip buffer the serial chunks fill exactly. */
  predicate WholeChunks(p: FlashProfile) {
    p.programming.Buffered? ==>
      0 < p.programming.size < 0x1_0000 && p.programming.size % PROGRAM_CHUNK == 0
  }

  function MethodCode(p: FlashProfile): byte {
    if p.programming.Unbuffered? then 1 else 2
  }

  const CMD_SET_AMD: byte := 1

  /** The command slots for programming: the two unlock cycles, the program command, and nothing else. */
  predicate Unlocks(p: FlashProfile, cmds: seq<(u32, byte)>) {
    cmds == [(p.unlock1, 0xAA), (p.unlock2, 0x55), (p.unlock1, 0xA0), (0, 0), (0, 0), (0, 0)]
  }

  /** The programming engine is set up for the profile. */
  predicate Configured(p: FlashProfile, c: Core) {
    && c.flashCfg.Some? && c.flashCfg.value.cmdSet == 1 && c.flashCfg.value.programMethod == MethodCode(p)
    && c.flashCfg.value.wePin == p.wePin && Unlocks(p, c.flashCfg.value.cmds)
    && c.TransferSize() == PROGRAM_CHUNK
    && (p.programming.Buffered? ==> c.Get(VAR_BUFFER_SIZE) as nat == p.programming.size)
  }

  /** Between two writes: the device expects raw data when `engaged`, an opcode when not. */
  predicate Paused(d: Device, engaged: bool) {
    && d.Valid() && !d.dead && d.buf == []
    && d.expecting == if engaged then FlashData(PROGRAM_CHUNK) else Opcode
  }

  /** The same with every answer read. */
  predicate InStep(d: Device, engaged: bool) {
    Paused(d, engaged) && d.out == []
  }

  // --- Answers in the middle of a group -------------------------------------------------

  /**
   A run described by its answers, true where the chunk answered leaves its group open: it has come
   to its end, or to its first lost answer, and then the device expects raw data just when that
   answer was one of those.
   */
  predicate Halted(io: SimGbxCart, from: nat, mids: seq<bool>, ok: bool)
    reads io.Repr()
  {
    io.link.Reached(from, |mids|, ok, io.asked) && Paused(io.Value(), !ok && mids[io.asked - 1 - from])
  }

  /** A run goes on with `b` after `a`, on the way to `all`. */
  lemma HaltedOn(io: SimGbxCart, from: nat, a: seq<bool>, mid: nat, b: seq<bool>, all: seq<bool>, ok: bool)
    requires io.link.Reached(from, |a|, true, mid) && Halted(io, mid, b, ok) && a + b <= all
    ensures if ok then io.link.Reached(from, |a + b|, true, io.asked) && Paused(io.Value(), false)
            else Halted(io, from, all, false)
  {
    hide Paused;
    ReachedOn(io.link, from, |a|, mid, |b|, |all|, ok, io.asked);
    if !ok {
      assert (a + b)[io.asked - 1 - from] == b[io.asked - 1 - mid];
    }
  }

  lemma HaltedDone(io: SimGbxCart, from: nat, mids: seq<bool>)
    requires io.link.Reached(from, |mids|, true, io.asked) && io.Ready()
    ensures Halted(io, from, mids, true)
  {
  }

  /** Answers that leave no group open. */
  function Plain(n: nat): (s: seq<bool>)
    ensures |s| == n
  {
    seq(n, _ => false)
  }

  lemma HaltedPlain(io: SimGbxCart, from: nat, n: nat, ok: bool)
    requires io.link.Reached(from, n, ok, io.asked) && io.Ready()
    ensures Halted(io, from, Plain(n), ok)
  {
  }

  /** The answers to one group: all but the last leave it open. */
  function GroupMids(p: FlashProfile): (s: seq<bool>)
    ensures |s| == GroupSize(p) / PROGRAM_CHUNK
  {
    seq(GroupSize(p) / PROGRAM_CHUNK, i => i + 1 < GroupSize(p) / PROGRAM_CHUNK)
  }

  function GroupAt(p: FlashProfile, data: seq<byte>, k: nat): seq<byte> {
    var g := GroupSize(p);
    if (k + 1) * g <= |data| then data[k * g..k * g + g] else []
  }

  /** The answers to the first `k` groups of a run, and whether the cursor stands on the next one. */
  function RunMids(p: FlashProfile, data: seq<byte>, k: nat): (seq<bool>, bool) {
    if k == 0 then ([], false)
    else
      var (mids, synced) := RunMids(p, data, k - 1);
      if AllErased(GroupAt(p, data, k - 1)) then (mids, false)
      else (mids + StepMids(p, synced), true)
  }

  /** The answers to one group that is not skipped, the cursor's included if it has to be sent. */
  function StepMids(p: FlashProfile, synced: bool): seq<bool> {
    (if synced then [] else Plain(1)) + GroupMids(p)
  }

  lemma NoMids(p: FlashProfile, data: seq<byte>)
    ensures RunMids(p, data, 0) == ([], false)
  {
  }

  lemma RunMidsOn(p: FlashProfile, data: seq<byte>, k: nat)
    ensures var (mids, synced) := RunMids(p, data, k);
            RunMids(p, data, k + 1)
              == if AllErased(GroupAt(p, data, k)) then (mids, false) else (mids + StepMids(p, synced), true)
  {
  }

  lemma {:induction false} RunMidsRise(p: FlashProfile, data: seq<byte>, k: nat, n: nat)
    requires k <= n
    ensures RunMids(p, data, k).0 <= RunMids(p, data, n).0
    decreases n
  {
    hide StepMids, AllErased, GroupAt;
    if k < n {
      RunMidsRise(p, data, k, n - 1);
    }
  }

  function Advance(s: Slot, n: nat): nat {
    if s.DmgSlot? then n else n / 2
  }

  /** The core after the first `n` bytes of a group. */
  function GroupProgress(p: FlashProfile, c: Core, group: seq<byte>, n: nat): (r: Core)
    requires n <= |group|
    ensures c.Valid() ==> r.Valid()
  {
    c.(slot := SlotProgram(c.slot, ProgramAddress(c), group[..n]),
       address := c.address + Advance(c.slot, n),
       bufferFill := if p.programming.Buffered? && n < GroupSize(p) then n else 0)
  }

  /** A group that does not straddle the two ROM windows. */
  predicate InOneWindow(c: Core, n: nat) {
    c.slot.DmgSlot? ==> c.address >= 0x4000 || c.address + n <= 0x4000
  }

  lemma SlotProgramSplit(s: Slot, at: nat, x: seq<byte>, y: seq<byte>)
    ensures SlotProgram(SlotProgram(s, at, x), at + |x|, y) == SlotProgram(s, at, x + y)
  {
    match s
    case DmgSlot(c) =>
      if c.flash.Some? {
        ProgrammedSplit(c.flash.value.data, at, x, y);
      }
    case AgbSlot(c) =>
      if c.flash.Some? {
        ProgrammedSplit(c.flash.value.data, at, x, y);
      }
    case EmptySlot =>
  }

  /** Programming moves no mapper register, so the cursor's absolute address is where it was plus `n`. */
  lemma ProgressAddress(p: FlashProfile, c: Core, group: seq<byte>, n: nat)
    requires n <= |group| && InOneWindow(c, |group|) && n % 2 == 0 && n < |group|
    ensures ProgramAddress(GroupProgress(p, c, group, n)) == ProgramAddress(c) + n
    ensures GroupProgress(p, c, group, n).slot.DmgSlot? == c.slot.DmgSlot?
  {
  }

  /** One more chunk of a group, and whether the device now expects raw data. */
  lemma ChunkProgress(p: FlashProfile, c: Core, group: seq<byte>, n: nat)
    requires Configured(p, c) && WholeChunks(p) && c.bufferFill == 0
    requires |group| == GroupSize(p) && InOneWindow(c, |group|)
    requires n % PROGRAM_CHUNK == 0 && n + PROGRAM_CHUNK <= |group|
    ensures var c1 := GroupProgress(p, c, group, n);
            var chunk := group[n..n + PROGRAM_CHUNK];
            && c1.flashCfg == c.flashCfg
            && ProgramChunk(c1, chunk) == GroupProgress(p, c, group, n + PROGRAM_CHUNK)
            && (MidGroup(c1, PROGRAM_CHUNK) <==> n + PROGRAM_CHUNK < |group|)
  {
    hide SlotProgram, ProgramAddress, Configured, InOneWindow, GroupSize, WholeChunks, MidGroup, Advance;
    var c1 := GroupProgress(p, c, group, n);
    var chunk := group[n..n + PROGRAM_CHUNK];
    ProgressAddress(p, c, group, n);
    SlotProgramSplit(c.slot, ProgramAddress(c), group[..n], chunk);
    assert group[..n] + chunk == group[..n + PROGRAM_CHUNK];
    ChunkEnds(p, c, c1, n);
    AdvanceOn(c.slot, n);
  }

  lemma AdvanceOn(s: Slot, n: nat)
    requires n % PROGRAM_CHUNK == 0
    ensures Advance(s, n + PROGRAM_CHUNK) == Advance(s, n) + (if s.DmgSlot? then PROGRAM_CHUNK else PROGRAM_CHUNK / 2)
  {
  }

  /** Whether a chunk completes its group. */
  lemma ChunkEnds(p: FlashProfile, c: Core, c1: Core, n: nat)
    requires Configured(p, c) && WholeChunks(p) && n % PROGRAM_CHUNK == 0 && n + PROGRAM_CHUNK <= GroupSize(p)
    requires c1 == c.(slot := c1.slot, address := c1.address, bufferFill := c1.bufferFill)
    requires c1.bufferFill == if p.programming.Buffered? && n < GroupSize(p) then n else 0
    ensures c.flashCfg.Some? && (MidGroup(c1, PROGRAM_CHUNK) <==> n + PROGRAM_CHUNK < GroupSize(p))
    ensures p.programming.Buffered? || GroupSize(p) == PROGRAM_CHUNK
    ensures !p.programming.Buffered? ==> n == 0
  {
  }

  lemma NoProgress(p: FlashProfile, c: Core, group: seq<byte>)
    requires c.bufferFill == 0 && c.Valid()
    ensures GroupProgress(p, c, group, 0) == c
  {
    match c.slot
    case DmgSlot(cart) =>
      if cart.flash.Some? {
        assert Programmed(cart.flash.value.data, ProgramAddress(c), group[..0]) == cart.flash.value.data;
      }
    case AgbSlot(cart) =>
      if cart.flash.Some? {
        assert Programmed(cart.flash.value.data, ProgramAddress(c), group[..0]) == cart.flash.value.data;
      }
    case EmptySlot =>
  }

  /** Send one chunk, led by the opcode unless the device is waiting for raw data, and read its status. */
  method SendChunk(dev: GbxCart, engaged: bool, chunk: seq<byte>) returns (r: Result<bool, DeviceError>)
    requires InStep(dev.io.Value(), engaged) && dev.io.CoreValue().flashCfg.Some?
    requires |chunk| == PROGRAM_CHUNK == dev.io.CoreValue().TransferSize()
    modifies dev.io.Repr()
    ensures dev.io.inStep == old(dev.io.inStep) && dev.io.asked == old(dev.io.asked) + 1
    ensures r.Ok? <==> !dev.io.link.Loses(old(dev.io.asked))
    ensures Paused(dev.io.Value(), MidGroup(old(dev.io.CoreValue()), PROGRAM_CHUNK))
    ensures dev.io.CoreValue() == ProgramChunk(old(dev.io.CoreValue()), chunk)
    ensures r.Ok? ==>
      InStep(dev.io.Value(), r.value) && r.value == MidGroup(old(dev.io.CoreValue()), PROGRAM_CHUNK)
  {
    hide ProgramChunk, MidGroup;
    if !engaged {
      LeadChunk(dev);
    }
    SendRaw(dev, chunk);
    r := dev.ExpectAck();
  }

  /** The device is waiting for one chunk of raw programming data. */
  predicate AwaitsChunk(d: Device) {
    && d.Valid() && !d.dead && d.buf == [] && d.out == []
    && (d.expecting == FlashData(PROGRAM_CHUNK) || d.expecting == Data(CMD_FLASH_PROGRAM, PROGRAM_CHUNK))
  }

  method LeadChunk(dev: GbxCart)
    requires InStep(dev.io.Value(), false) && PROGRAM_CHUNK == dev.io.CoreValue().TransferSize()
    modifies dev.io.Repr()
    ensures AwaitsChunk(dev.io.Value()) && dev.io.inStep == old(dev.io.inStep) && dev.io.asked == old(dev.io.asked)
    ensures dev.io.CoreValue() == old(dev.io.CoreValue())
  {
    hide SimGbxCart.Repr, SimGbxCart.CartRepr;
    OpcodeThenData(dev.io.Value(), CMD_FLASH_PROGRAM);
    dev.io.WriteAll([CMD_FLASH_PROGRAM], false);
  }

  method SendRaw(dev: GbxCart, chunk: seq<byte>)
    requires AwaitsChunk(dev.io.Value()) && dev.io.CoreValue().flashCfg.Some?
    requires |chunk| == PROGRAM_CHUNK == dev.io.CoreValue().TransferSize()
    modifies dev.io.Repr()
    ensures dev.io.inStep == old(dev.io.inStep) && dev.io.asked == old(dev.io.asked)
    ensures dev.io.CoreValue() == ProgramChunk(old(dev.io.CoreValue()), chunk)
    ensures var mid := MidGroup(old(dev.io.CoreValue()), PROGRAM_CHUNK);
            var d := dev.io.Value();
            && d.out == [if mid then ACK_CONTINUE else ACK_OK] && InStep(d.(out := []), mid)
  {
    hide ProgramChunk, SimGbxCart.Repr, SimGbxCart.CartRepr;
    RawProgramData(dev.io.Value(), chunk);
    dev.io.WriteAll(chunk, true);
  }

  /**
   Program one buffer group. Between any two chunks the host's `engaged` flag is the device's own
   state, and at the end of the group both are idle again.
   */
  method ProgramGroup(dev: GbxCart, p: FlashProfile, engaged: bool, group: seq<byte>)
    returns (r: Result<bool, DeviceError>)
    requires InStep(dev.io.Value(), engaged) && !engaged
    requires Configured(p, dev.io.CoreValue()) && WholeChunks(p) && dev.io.CoreValue().bufferFill == 0
    requires |group| == GroupSize(p) && InOneWindow(dev.io.CoreValue(), |group|)
    modifies dev.io.Repr()
    ensures dev.io.inStep == old(dev.io.inStep)
    ensures Halted(dev.io, old(dev.io.asked), GroupMids(p), r.Ok?)
    ensures r.Ok? ==>
      && !r.value && InStep(dev.io.Value(), r.value)
      && dev.io.CoreValue() == GroupProgress(p, old(dev.io.CoreValue()), group, |group|)
  {
    hide SimGbxCart.Repr, SimGbxCart.CartRepr, ProgramChunk, GroupProgress, Link.Clear, Link.Reached;
    ghost var c, link, from := dev.io.CoreValue(), dev.io.link, dev.io.asked;
    NothingAsked(link, from);
    GroupChunks(p);
    NoProgress(p, c, group);
    r := Ok(engaged);
    var n := 0;
    while n < |group|
      invariant n <= |group| && n % PROGRAM_CHUNK == 0 && r.Ok?
      invariant InStep(dev.io.Value(), r.value) && dev.io.inStep == old(dev.io.inStep)
      invariant dev.io.CoreValue() == GroupProgress(p, c, group, n)
      invariant r.value <==> 0 < n < |group|
      invariant link.Clear(from, n / PROGRAM_CHUNK) && dev.io.asked == from + n / PROGRAM_CHUNK
    {
      ChunkProgress(p, c, group, n);
      ProgressTransfer(p, c, group, n);
      r := SendChunk(dev, r.value, group[n..n + PROGRAM_CHUNK]);
      ChunkReached(link, from, n / PROGRAM_CHUNK, |GroupMids(p)|, r.Ok?, dev.io.asked);
      if r.Err? {
        assert GroupMids(p)[n / PROGRAM_CHUNK] <==> n + PROGRAM_CHUNK < |group|;
        return;
      }
      n := n + PROGRAM_CHUNK;
    }
    AllReached(link, from, |GroupMids(p)|, dev.io.asked);
  }

  lemma AllReached(link: Link, from: nat, n: nat, asked: nat)
    requires link.Clear(from, n) && asked == from + n
    ensures link.Reached(from, n, true, asked)
  {
    FirstLostIs(link, from, n, n);
  }

  lemma GroupChunks(p: FlashProfile)
    requires WholeChunks(p)
    ensures GroupSize(p) % PROGRAM_CHUNK == 0
  {
  }

  /** One more of the answers to a group. */
  lemma ChunkReached(link: Link, from: nat, k: nat, n: nat, ok: bool, asked: nat)
    requires link.Clear(from, k) && k < n && ok == !link.Loses(from + k) && asked == from + k + 1
    ensures if ok then link.Clear(from, k + 1) else link.Reached(from, n, false, asked)
  {
    if !ok {
      FirstLostIs(link, from, n, k);
    }
  }

  lemma ProgressTransfer(p: FlashProfile, c: Core, group: seq<byte>, n: nat)
    requires n <= |group|
    ensures GroupProgress(p, c, group, n).TransferSize() == c.TransferSize()
  {
  }

  // --- Runs of groups -----------------------------------------------------------------

  predicate AllErased(data: seq<byte>) {
    forall i :: 0 <= i < |data| ==> data[i] == ERASED
  }

  predicate ErasedIn(data: seq<byte>, from: nat, end: nat) {
    end <= |data| && forall i :: from <= i < end ==> data[i] == ERASED
  }

  /** Programming an erased stretch makes it the data. */
  lemma ProgramErased(flash: seq<byte>, base: nat, done: seq<byte>, group: seq<byte>)
    requires ErasedIn(flash, base + |done|, base + |done| + |group|)
    ensures Programmed(Spliced(flash, base, done), base + |done|, group) == Spliced(flash, base, done + group)
  {
    forall i | 0 <= i < |group|
      ensures AndByte(ERASED, group[i]) == group[i]
    {
      AndErased(group[i]);
    }
  }

  /** Skipping an all-0xFF group over erased flash is the same as programming it. */
  lemma SkipErased(flash: seq<byte>, base: nat, done: seq<byte>, group: seq<byte>)
    requires ErasedIn(flash, base + |done|, base + |done| + |group|) && AllErased(group)
    ensures Spliced(flash, base, done) == Spliced(flash, base, done + group)
  {
  }

  /** The firmware cursor that stands on `offset` bytes into a run. */
  function Cursor(family: Family, window: nat, offset: nat): nat {
    if family == DmgFamily then window + offset else offset / 2
  }

  /** Where a run may start and how long it may be: one DMG bank behind its window, or all of a GBA cart. */
  predicate RunFits(p: FlashProfile, s: Slot, base: nat, len: nat) {
    match p.family
    case DmgFamily => base % ROM_BANK == 0 && len <= ROM_BANK && base / ROM_BANK < 512 && BankReady(s, base)
    case AgbFamily => base == 0 && len < 0x1_0000_0000
  }

  /** Ready to program: the profile fits, nothing is busy, no group is open. */
  predicate Programming(p: FlashProfile, c: Core) {
    Reading(p, c) && Quieted(c.slot) && Configured(p, c) && c.bufferFill == 0
  }

  lemma CursorAddress(p: FlashProfile, c: Core, base: nat, len: nat, offset: nat)
    requires Reading(p, c) && RunFits(p, c.slot, base, len) && offset < len && offset % 2 == 0
    requires c.address == Cursor(p.family, DmgWindow(base).1, offset)
    ensures ProgramAddress(c) == base + offset
    ensures forall n :: offset + n <= len ==> InOneWindow(c, n)
  {
    if p.family == DmgFamily {
      FixedBankZero(c.slot.dmg);
    }
  }

  /** A whole group: the chip takes it in, the cursor moves past it, everything else stays. */
  lemma GroupDone(p: FlashProfile, c: Core, group: seq<byte>)
    requires Programming(p, c) && |group| == GroupSize(p)
    ensures var c1 := GroupProgress(p, c, group, |group|);
            && Programming(p, c1)
            && ChipOf(c1.slot) == Some(Program(ChipOf(c.slot).value, ProgramAddress(c), group))
            && SameBanks(c.slot, c1.slot)
            && c1.address == c.address + Advance(c.slot, |group|)
  {
    assert group[..|group|] == group;
  }

  lemma CursorMoved(p: FlashProfile, c: Core, window: nat, offset: nat, n: nat)
    requires Reading(p, c) && offset % 2 == 0 && n % 2 == 0
    ensures Cursor(p.family, window, offset) + Advance(c.slot, n) == Cursor(p.family, window, offset + n)
  {
  }

  /** Point the cursor at the next group. */
  method Resync(dev: GbxCart, p: FlashProfile, cursor: nat) returns (r: Result<(), DeviceError>)
    requires dev.io.Ready() && dev.io.out == [] && Programming(p, dev.io.CoreValue()) && cursor < 0x1_0000_0000
    modifies dev.io.Repr()
    ensures dev.io.Ready() && dev.io.inStep == old(dev.io.inStep)
    ensures dev.io.link.Reached(old(dev.io.asked), 1, r.Ok?, dev.io.asked)
    ensures r.Ok? ==>
      && dev.io.out == []
      && Programming(p, dev.io.CoreValue()) && dev.io.SlotValue() == old(dev.io.SlotValue())
      && dev.io.CoreValue().address == cursor
  {
    hide SimGbxCart.Ready, SimGbxCart.Repr, SimGbxCart.CartRepr, Fits, Quieted;
    r := dev.SetVariable(VAR_ADDRESS, cursor as u32);
  }

  /** One group of a run, programmed where the cursor stands. */
  method RunGroup(dev: GbxCart, p: FlashProfile, ghost base: nat, ghost done: seq<byte>, ghost flash: seq<byte>,
      group: seq<byte>)
    returns (r: Result<(), DeviceError>)
    requires dev.io.Ready() && dev.io.out == [] && Programming(p, dev.io.CoreValue()) && WholeChunks(p)
    requires |group| == GroupSize(p) && InOneWindow(dev.io.CoreValue(), |group|)
    requires ProgramAddress(dev.io.CoreValue()) == base + |done|
    requires ErasedIn(flash, base + |done|, base + |done| + |group|)
    requires ChipOf(dev.io.SlotValue()).value.data == Spliced(flash, base, done)
    modifies dev.io.Repr()
    ensures dev.io.inStep == old(dev.io.inStep)
    ensures Halted(dev.io, old(dev.io.asked), GroupMids(p), r.Ok?)
    ensures r.Ok? ==>
      && dev.io.Ready() && dev.io.out == []
      && Programming(p, dev.io.CoreValue()) && SameBanks(old(dev.io.SlotValue()), dev.io.SlotValue())
      && ChipOf(dev.io.SlotValue()).value
           == ChipOf(old(dev.io.SlotValue())).value.(data := Spliced(flash, base, done + group))
      && dev.io.CoreValue().address
           == old(dev.io.CoreValue()).address + Advance(old(dev.io.SlotValue()), |group|)
  {
    hide SimGbxCart.Repr, SimGbxCart.CartRepr, GroupProgress, ProgramAddress, Fits, Spliced, Programmed;
    ghost var c := dev.io.CoreValue();
    GroupDone(p, c, group);
    ProgramErased(flash, base, done, group);
    var a := ProgramGroup(dev, p, false, group);
    r := if a.Ok? then Ok(()) else Err(a.error);
  }

  /** Program the next group of a run, after sending the cursor unless the device's already stands there. */
  method NextGroup(dev: GbxCart, p: FlashProfile, ghost base: nat, ghost len: nat, ghost done: seq<byte>,
      ghost flash: seq<byte>, window: nat, offset: nat, synced: bool, group: seq<byte>)
    returns (r: Result<(), DeviceError>)
    requires dev.io.Ready() && dev.io.out == [] && Programming(p, dev.io.CoreValue()) && WholeChunks(p)
    requires RunFits(p, dev.io.SlotValue(), base, len) && window == DmgWindow(base).1
    requires |group| == GroupSize(p) && |done| == offset && offset + |group| <= len && offset % 2 == 0
    requires ErasedIn(flash, base + offset, base + offset + |group|)
    requires ChipOf(dev.io.SlotValue()).value.data == Spliced(flash, base, done)
    requires synced ==> dev.io.CoreValue().address == Cursor(p.family, window, offset)
    modifies dev.io.Repr()
    ensures dev.io.inStep == old(dev.io.inStep)
    ensures Halted(dev.io, old(dev.io.asked), StepMids(p, synced), r.Ok?)
    ensures r.Ok? ==>
      && dev.io.Ready() && dev.io.out == []
      && Programming(p, dev.io.CoreValue()) && SameBanks(old(dev.io.SlotValue()), dev.io.SlotValue())
      && ChipOf(dev.io.SlotValue()).value.data == Spliced(flash, base, done + group)
      && dev.io.CoreValue().address == Cursor(p.family, window, offset + |group|)
  {
    hide SimGbxCart.Ready, SimGbxCart.Repr, SimGbxCart.CartRepr, Spliced, ProgramAddress, Fits, Configured,
      Link.Reached, GroupMids, Halted;
    ghost var from, all, before, mid := dev.io.asked, StepMids(p, synced), [], dev.io.asked;
    ReachedNothing(dev.io.link, from);
    CursorInRange(p, dev.io.SlotValue(), base, len, offset);
    if !synced {
      r := Resync(dev, p, Cursor(p.family, window, offset));
      HaltedPlain(dev.io, mid, 1, r.Ok?);
      HaltedOn(dev.io, from, before, mid, Plain(1), all, r.Ok?);
      if r.Err? {
        return;
      }
      before, mid := before + Plain(1), dev.io.asked;
    }
    EvenGroup(p);
    CursorAddress(p, dev.io.CoreValue(), base, len, offset);
    CursorMoved(p, dev.io.CoreValue(), window, offset, |group|);
    r := RunGroup(dev, p, base, done, flash, group);
    assert before + GroupMids(p) == all;
    HaltedOn(dev.io, from, before, mid, GroupMids(p), all, r.Ok?);
    if r.Ok? {
      HaltedDone(dev.io, from, all);
    }
  }

  /**
   Program one run of groups. `synced` means that the device's cursor stands on the next group, so
   the address is sent only at the start and after a skip.
   */
  method ProgramRun(dev: GbxCart, p: FlashProfile, base: nat, data: seq<byte>) returns (r: Result<(), DeviceError>)
    requires dev.io.Ready() && dev.io.out == [] && Programming(p, dev.io.CoreValue()) && WholeChunks(p)
    requires |data| % GroupSize(p) == 0 && RunFits(p, dev.io.SlotValue(), base, |data|)
    requires ErasedIn(ChipOf(dev.io.SlotValue()).value.data, base, base + |data|)
    modifies dev.io.Repr()
    ensures dev.io.inStep == old(dev.io.inStep)
    ensures Halted(dev.io, old(dev.io.asked), RunMids(p, data, |data| / GroupSize(p)).0, r.Ok?)
    ensures r.Ok? ==>
      && dev.io.Ready() && dev.io.out == []
      && Programming(p, dev.io.CoreValue()) && SameBanks(old(dev.io.SlotValue()), dev.io.SlotValue())
      && ChipOf(dev.io.SlotValue()).value.data
           == Spliced(ChipOf(old(dev.io.SlotValue())).value.data, base, data)
  {
    hide SimGbxCart.Ready, SimGbxCart.Repr, SimGbxCart.CartRepr, Spliced, Programming, Link.Reached, StepMids, Halted,
      RunFits, ErasedIn, SameBanks, RunMids, AllErased, Cursor, WholeChunks;
    ghost var link, from, k := dev.io.link, dev.io.asked, 0;
    ghost var all := RunMids(p, data, |data| / GroupSize(p)).0;
    ReachedNothing(link, from);
    assert RunMids(p, data, 0) == ([], false) by {
      NoMids(p, data);
    }
    ghost var s := dev.io.SlotValue();
    HasChip(p, dev.io.CoreValue());
    ghost var flash := ChipOf(s).value.data;
    var g := GroupSize(p);
    var window := DmgWindow(base).1;
    r := Ok(());
    var offset, synced := 0, false;
    NothingSpliced(flash, base);
    assert data[..0] == [];
    SameBanksSelf(s);
    while offset < |data|
      invariant offset <= |data| && offset % g == 0 && r.Ok?
      invariant dev.io.Ready() && dev.io.out == [] && dev.io.inStep == old(dev.io.inStep)
      invariant Programming(p, dev.io.CoreValue()) && SameBanks(s, dev.io.SlotValue())
      invariant ChipOf(dev.io.SlotValue()).Some?
      invariant ChipOf(dev.io.SlotValue()).value.data == Spliced(flash, base, data[..offset])
      invariant synced ==> dev.io.CoreValue().address == Cursor(p.family, window, offset)
      invariant offset == k * g && RunMids(p, data, k).1 == synced
      invariant link.Reached(from, |RunMids(p, data, k).0|, true, dev.io.asked)
    {
      WholeGroup(p, |data|, offset);
      GroupOf(p, data, k);
      RunMidsRise(p, data, k + 1, |data| / g);
      RunMidsOn(p, data, k);
      var group := data[offset..offset + g];
      StretchErased(flash, base, |data|, offset, g);
      assert data[..offset] + group == data[..offset + g];
      if AllErased(group) {
        SkipErased(flash, base, data[..offset], group);
        synced := false;
      } else {
        RunFitsStill(p, s, dev.io.SlotValue(), base, |data|);
        ghost var mid, t := dev.io.asked, dev.io.SlotValue();
        r := NextGroup(dev, p, base, |data|, data[..offset], flash, window, offset, synced, group);
        HaltedOn(dev.io, from, RunMids(p, data, k).0, mid, StepMids(p, synced), all, r.Ok?);
        if r.Err? {
          return;
        }
        HasChip(p, dev.io.CoreValue());
        SameBanksOn(s, t, dev.io.SlotValue());
        synced := true;
      }
      offset := offset + g;
      k := k + 1;
    }
    assert data[..offset] == data;
    GroupsDone(p, data, k);
    HaltedDone(dev.io, from, all);
  }

  lemma HasChip(p: FlashProfile, c: Core)
    requires Programming(p, c)
    ensures ChipOf(c.slot).Some?
  {
  }

  lemma GroupsDone(p: FlashProfile, data: seq<byte>, k: nat)
    requires |data| == k * GroupSize(p)
    ensures |data| / GroupSize(p) == k
  {
    MulDiv(k, GroupSize(p));
  }

  lemma StretchErased(flash: seq<byte>, base: nat, len: nat, offset: nat, n: nat)
    requires ErasedIn(flash, base, base + len) && offset + n <= len
    ensures ErasedIn(flash, base + offset, base + offset + n)
  {
  }

  lemma SameBanksOn(s: Slot, t: Slot, u: Slot)
    requires SameBanks(s, t) && SameBanks(t, u)
    ensures SameBanks(s, u)
  {
  }

  /** The `k`th group of a run of whole groups. */
  lemma GroupOf(p: FlashProfile, data: seq<byte>, k: nat)
    requires |data| % GroupSize(p) == 0 && k * GroupSize(p) < |data|
    ensures var g := GroupSize(p);
            && k < |data| / g && (k + 1) * g == k * g + g <= |data|
            && GroupAt(p, data, k) == data[k * g..k * g + g]
  {
    var g := GroupSize(p);
    var n := |data| / g;
    assert |data| == n * g;
    assert n * g == k * g + (n - k) * g;
    MulSign(n - k, g);
    Multiple(n - k, g);
    assert (k + 1) * g == k * g + g;
  }

  lemma NothingSpliced(flash: seq<byte>, base: nat)
    ensures Spliced(flash, base, []) == flash
  {
  }

  lemma SameBanksSelf(s: Slot)
    ensures SameBanks(s, s)
  {
  }

  lemma RunFitsStill(p: FlashProfile, s: Slot, t: Slot, base: nat, len: nat)
    requires SameBanks(s, t) && RunFits(p, s, base, len)
    ensures RunFits(p, t, base, len)
  {
  }

  lemma CursorInRange(p: FlashProfile, s: Slot, base: nat, len: nat, offset: nat)
    requires RunFits(p, s, base, len) && offset < len
    ensures Cursor(p.family, DmgWindow(base).1, offset) < 0x1_0000_0000
  {
  }

  /** Groups are even, and one that starts inside a whole number of groups ends inside. */
  lemma WholeGroup(p: FlashProfile, len: nat, offset: nat)
    requires WholeChunks(p) && len % GroupSize(p) == 0 && offset % GroupSize(p) == 0 && offset < len
    ensures var g := GroupSize(p);
            offset + g <= len && (offset + g) % g == 0 && offset % 2 == 0 && g % 2 == 0
  {
    hide GroupSize, WholeChunks;
    EvenGroup(p);
    WholeStep(len, offset, GroupSize(p));
  }

  lemma EvenGroup(p: FlashProfile)
    requires WholeChunks(p)
    ensures GroupSize(p) % 2 == 0
  {
    match p.programming
    case Unbuffered =>
    case Buffered(b) =>
      EvenMultiple(b, PROGRAM_CHUNK);
  }
}
