/**
 The flash chip behind a flash cart's ROM socket: the AMD command state machine, erase, AND-only
 programming and the busy answers that follow an erase. `Chip` is the chip's state as a value,
 the functions say what each bus access does to it, and `SimFlashChip` is the device that changes
 in place.
 */
module FlashChip {
  import opened Bytes

  /** `Panicked` is the simulator's crash on a sector erase that starts past the chip's end. */
  datatype FlashState = Read | U1 | U2 | EraseU1 | EraseU2 | EraseReady | Panicked

  datatype Chip = Chip(
    data: seq<byte>,
    id: seq<byte>,
    unlock1: nat,
    unlock2: nat,
    sectorSize: nat,
    state: FlashState,
    autoselect: bool,
    busyPolls: nat,
    erasedSectors: seq<nat>,
    chipErased: bool)
  {
    /** A chip whose fixed parameters make sense: it has an identity and a sector size. */
    predicate Valid() {
      |id| > 0 && sectorSize > 0
    }

    /** Ready for a new command sequence and serving plain data once no longer busy. */
    predicate Resting() {
      Valid() && state == Read && !autoselect
    }
  }

  const ERASED: byte := 0xFF

  /** `data` with the cells of [base, end) erased. */
  function EraseRange(data: seq<byte>, base: nat, end: nat): (r: seq<byte>)
    ensures |r| == |data|
    ensures forall i :: 0 <= i < |data| ==> r[i] == if base <= i < end then ERASED else data[i]
  {
    seq(|data|, i requires 0 <= i < |data| => if base <= i < end then ERASED else data[i])
  }

  /** `data` after programming `bytes` at `at`: bits can only be cleared, and bytes past the end are lost. */
  function Programmed(data: seq<byte>, at: nat, bytes: seq<byte>): (r: seq<byte>)
    ensures |r| == |data|
    ensures forall i :: 0 <= i < |data| ==>
      r[i] == if at <= i < at + |bytes| then AndByte(data[i], bytes[i - at]) else data[i]
  {
    seq(|data|, i requires 0 <= i < |data| =>
      if at <= i < at + |bytes| then AndByte(data[i], bytes[i - at]) else data[i])
  }

  /** Where the sector at `addr` starts. */
  function SectorBase(addr: nat, size: nat): nat
    requires size > 0
  {
    addr / size * size
  }

  /** One command-register write. */
  function Command(c: Chip, addr: nat, value: byte): (r: Chip)
    requires c.Valid()
    ensures r.Valid() && |r.data| == |c.data|
    ensures r.unlock1 == c.unlock1 && r.unlock2 == c.unlock2 && r.sectorSize == c.sectorSize && r.id == c.id
  {
    if c.state == Panicked then c
    else if value == 0xF0 then c.(state := Read, autoselect := false)
    else if c.state == Read && addr == c.unlock1 && value == 0xAA then c.(state := U1)
    else if c.state == U1 && addr == c.unlock2 && value == 0x55 then c.(state := U2)
    else if c.state == U2 && addr == c.unlock1 && value == 0x90 then c.(state := Read, autoselect := true)
    else if c.state == U2 && addr == c.unlock1 && value == 0x80 then c.(state := EraseU1)
    else if c.state == EraseU1 && addr == c.unlock1 && value == 0xAA then c.(state := EraseU2)
    else if c.state == EraseU2 && addr == c.unlock2 && value == 0x55 then c.(state := EraseReady)
    else if c.state == EraseReady && addr == c.unlock1 && value == 0x10 then
      c.(state := Read, data := EraseRange(c.data, 0, |c.data|), chipErased := true, busyPolls := 2)
    else if c.state == EraseReady && value == 0x30 then
      var base := SectorBase(addr, c.sectorSize);
      if base > |c.data| then c.(state := Panicked)
      else c.(state := Read, data := EraseRange(c.data, base, base + c.sectorSize),
              erasedSectors := c.erasedSectors + [base], busyPolls := 2)
    else c.(state := Read)
  }

  /** The byte a data read at `at` is answered with. */
  function Answer(c: Chip, at: nat): byte
    requires c.Valid()
  {
    if c.autoselect then c.id[at % |c.id|]
    else if c.busyPolls > 0 then 0x00
    else if at < |c.data| then c.data[at] else ERASED
  }

  /** What a data read does to the chip: it uses up one busy answer. */
  function AfterRead(c: Chip): (r: Chip)
    ensures c.Valid() ==> r.Valid()
  {
    if !c.autoselect && c.busyPolls > 0 then c.(busyPolls := c.busyPolls - 1) else c
  }

  function Program(c: Chip, at: nat, bytes: seq<byte>): (r: Chip)
    ensures c.Valid() ==> r.Valid()
  {
    c.(data := Programmed(c.data, at, bytes))
  }

  // --- What it takes to erase ---------------------------------------------------------------

  /** The chip after a list of command-register writes. */
  function CommandRun(c: Chip, writes: seq<(nat, byte)>): (r: Chip)
    requires c.Valid()
    ensures r.Valid() && r.unlock1 == c.unlock1 && r.unlock2 == c.unlock2
  {
    if writes == [] then c
    else
      var last := writes[|writes| - 1];
      Command(CommandRun(c, writes[..|writes| - 1]), last.0, last.1)
  }

  /** The five cycles that must come before an erase command. */
  function Cycles(c: Chip): seq<(nat, byte)> {
    [(c.unlock1, 0xAA), (c.unlock2, 0x55), (c.unlock1, 0x80), (c.unlock1, 0xAA), (c.unlock2, 0x55)]
  }

  /** How many of them the chip has seen. */
  function Seen(s: FlashState): (n: nat)
    ensures n <= 5
  {
    match s
    case Read => 0
    case U1 => 1
    case U2 => 2
    case EraseU1 => 3
    case EraseU2 => 4
    case EraseReady => 5
    case Panicked => 0
  }

  /** `writes` end with the first `n` of `cycles`. */
  predicate EndsWith(writes: seq<(nat, byte)>, cycles: seq<(nat, byte)>, n: nat) {
    n <= |writes| && n <= |cycles| && writes[|writes| - n..] == cycles[..n]
  }

  /** A write brings the chip one cycle further, or back to the start. */
  lemma NextCycle(c: Chip, d: Chip, addr: nat, value: byte)
    requires d.Valid() && d.unlock1 == c.unlock1 && d.unlock2 == c.unlock2
    ensures var n, after := Seen(d.state), Seen(Command(d, addr, value).state);
            after == 0 || (after == n + 1 <= |Cycles(c)| && (addr, value) == Cycles(c)[n])
  {
    hide EraseRange;
  }

  /** The state says which of the cycles came last, one right after the other. */
  lemma {:induction false} StateTells(c: Chip, writes: seq<(nat, byte)>)
    requires c.Valid() && c.state == Read
    ensures EndsWith(writes, Cycles(c), Seen(CommandRun(c, writes).state))
  {
    hide Command, Cycles;
    if writes != [] {
      var m := |writes| - 1;
      var d := CommandRun(c, writes[..m]);
      StateTells(c, writes[..m]);
      NextCycle(c, d, writes[m].0, writes[m].1);
      var n := Seen(d.state);
      if Seen(CommandRun(c, writes).state) == n + 1 {
        assert writes[m - n..] == writes[..m][m - n..] + [writes[m]];
        assert Cycles(c)[..n + 1] == Cycles(c)[..n] + [Cycles(c)[n]];
      }
    }
  }

  /** The six cycles of an erase stand at `k`. */
  predicate ErasesAt(c: Chip, writes: seq<(nat, byte)>, k: nat) {
    && k + 6 <= |writes| && writes[k..k + 5] == Cycles(c)
    && (writes[k + 5] == (c.unlock1, 0x10) || writes[k + 5].1 == 0x30)
  }

  /** Data changes only in the cycle after the five. */
  lemma SixthCycle(c: Chip, addr: nat, value: byte)
    requires c.Valid() && Command(c, addr, value).data != c.data
    ensures c.state == EraseReady && (value == 0x30 || (addr == c.unlock1 && value == 0x10))
  {
    hide EraseRange;
  }

  lemma FiveCycles(c: Chip)
    ensures |Cycles(c)| == 5
  {
  }

  /**
   Commands change what a resting chip holds only if all six cycles of an erase are among them, one
   right after the other.
   */
  lemma {:induction false} EraseNeedsSequence(c: Chip, writes: seq<(nat, byte)>) returns (k: nat)
    requires c.Valid() && c.state == Read && CommandRun(c, writes).data != c.data
    ensures ErasesAt(c, writes, k)
  {
    hide Command, Cycles;
    var m := |writes| - 1;
    var d := CommandRun(c, writes[..m]);
    if d.data != c.data {
      k := EraseNeedsSequence(c, writes[..m]);
      assert writes[k..k + 5] == writes[..m][k..k + 5];
    } else {
      SixthCycle(d, writes[m].0, writes[m].1);
      StateTells(c, writes[..m]);
      k := m - 5;
      assert |Cycles(c)| == 5 by {
        FiveCycles(c);
      }
      assert writes[k..k + 5] == writes[..m][k..] == Cycles(c)[..5] == Cycles(c);
    }
  }

  /** Programming in two pieces is programming the joined piece. */
  lemma ProgrammedSplit(data: seq<byte>, at: nat, x: seq<byte>, y: seq<byte>)
    ensures Programmed(Programmed(data, at, x), at + |x|, y) == Programmed(data, at, x + y)
  {
  }

  class SimFlashChip {
    var data: seq<byte>
    const id: seq<byte>
    const unlock1: nat
    const unlock2: nat
    const sectorSize: nat
    var state: FlashState
    var autoselect: bool
    var busyPolls: nat
    var erasedSectors: seq<nat>
    var chipErased: bool

    function Value(): Chip
      reads this
    {
      Chip(data, id, unlock1, unlock2, sectorSize, state, autoselect, busyPolls, erasedSectors, chipErased)
    }

    /** A never-erased chip full of old data. */
    constructor (contents: seq<byte>, id: seq<byte>, unlock1: nat, unlock2: nat, sectorSize: nat)
      ensures Value() == Chip(contents, id, unlock1, unlock2, sectorSize, Read, false, 0, [], false)
    {
      data := contents;
      this.id, this.unlock1, this.unlock2, this.sectorSize := id, unlock1, unlock2, sectorSize;
      state, autoselect, busyPolls, erasedSectors, chipErased := Read, false, 0, [], false;
    }

    method WriteCommand(addr: nat, value: byte)
      requires Value().Valid()
      modifies this
      ensures Value() == Command(old(Value()), addr, value)
    {
      hide EraseRange;
      if state == Panicked {
        return;
      }
      if value == 0xF0 {
        state := Read;
        autoselect := false;
        return;
      }
      match state
      case Read =>
        state := if addr == unlock1 && value == 0xAA then U1 else Read;
      case U1 =>
        state := if addr == unlock2 && value == 0x55 then U2 else Read;
      case U2 =>
        if addr == unlock1 && value == 0x90 {
          autoselect := true;
          state := Read;
        } else {
          state := if addr == unlock1 && value == 0x80 then EraseU1 else Read;
        }
      case EraseU1 =>
        state := if addr == unlock1 && value == 0xAA then EraseU2 else Read;
      case EraseU2 =>
        state := if addr == unlock2 && value == 0x55 then EraseReady else Read;
      case EraseReady =>
        state := Read;
        if addr == unlock1 && value == 0x10 {
          data := EraseRange(data, 0, |data|);
          chipErased := true;
          busyPolls := 2;
        } else if value == 0x30 {
          var base := SectorBase(addr, sectorSize);
          if base > |data| {
            state := Panicked;
            return;
          }
          data := EraseRange(data, base, base + sectorSize);
          erasedSectors := erasedSectors + [base];
          busyPolls := 2;
        }
    }

    method ReadByte(at: nat) returns (b: byte)
      requires Value().Valid()
      modifies this
      ensures b == Answer(old(Value()), at) && Value() == AfterRead(old(Value()))
    {
      if autoselect {
        return id[at % |id|];
      }
      if busyPolls > 0 {
        busyPolls := busyPolls - 1;
        return 0x00;
      }
      b := if at < |data| then data[at] else ERASED;
    }

    method ProgramBytes(at: nat, bytes: seq<byte>)
      modifies this
      ensures Value() == Program(old(Value()), at, bytes)
    {
      var i := 0;
      while i < |bytes|
        invariant 0 <= i <= |bytes|
        invariant Value() == Program(old(Value()), at, bytes[..i])
      {
        if at + i < |data| {
          data := data[at + i := AndByte(data[at + i], bytes[i])];
        }
        i := i + 1;
      }
      assert bytes[..i] == bytes;
    }
  }
}
