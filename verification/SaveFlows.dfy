/**
 Reading and writing a whole save. RAM is switched on before the transfer and off after it, and on
 every return it is known from the link's losses whether it is still on: a run that loses the
 answer to the enable write, and an MBC1's that loses the first one to its disable plan or takes a
 stale byte for it, leaves it on.
 */
module SaveFlows {
  import opened Bytes
  import opened Protocol
  import opened Cartridges
  import opened GbxCore
  import opened GbxLink
  import opened GbxStreams
  import opened SimGbx
  import opened GbxDriver
  import opened DmgDump
  import opened DmgSaves

  /** What a save read returns. */
  function SaveLoaded(ram: seq<byte>, mbc: SimMbc, size: nat): seq<byte> {
    if mbc == Mbc2 then Resized(NibblesLoaded(ram), size) else Loaded(ram, mbc, size, BanksOf(size))
  }

  /** Cut to `n` bytes, or filled up with 0xFF. */
  function Resized(s: seq<byte>, n: nat): (r: seq<byte>)
    ensures |r| == n
  {
    if n <= |s| then s[..n] else s + seq(n - |s|, _ => 0xFF)
  }

  /** The enable plan as far as it was sent. */
  lemma EnabledOpen(kind: MbcKind, c: DmgCart, mbc: SimMbc, sent: nat)
    requires c.Valid() && Drives(kind, mbc) && c.mbc == mbc && sent <= |RamEnableWrites(kind)|
    ensures var c1 := Applied(MapperReset(c), RamEnableWrites(kind)[..sent]);
            && c1.ram == c.ram && c1.flash == c.flash && c1.mbc == mbc && (c1.ramEnable <==> sent > 0)
            && (sent == |RamEnableWrites(kind)| ==> Opened(c1, mbc))
  {
    var w := RamEnableWrites(kind);
    var c0 := MapperReset(c);
    if sent == 0 {
      assert w[..0] == [];
    } else if sent == 1 {
      assert w[..1] == [w[0]];
      AppliedOne(c0, w[0]);
    } else {
      assert w[..2] == [w[0], w[1]];
      AppliedTwo(c0, w[0], w[1]);
    }
  }

  /** RAM is off exactly when the whole disable plan reached the cart. */
  lemma DisabledWhen(kind: MbcKind, c: DmgCart, sent: nat)
    requires c.Valid() && c.ramEnable && 0 < sent <= |RamDisableWrites(kind)|
    ensures var c1 := Applied(c, RamDisableWrites(kind)[..sent]);
            c1.ram == c.ram && c1.mbc == c.mbc && (c1.ramEnable <==> sent < |RamDisableWrites(kind)|)
  {
    var w := RamDisableWrites(kind);
    if sent == 1 {
      assert w[..1] == [w[0]];
      AppliedOne(c, w[0]);
    } else {
      assert w[..2] == [w[0], w[1]];
      AppliedTwo(c, w[0], w[1]);
    }
  }

  // --- When RAM stays on ------------------------------------------------------------------

  /** The answers up to the last one of the enable plan. */
  function OpenReplies(kind: MbcKind, powered: bool): (s: seq<Reply>) {
    EntryReplies(powered) + Acks(|RamEnableWrites(kind)|)
  }

  /**
   Whether RAM is on after mode entry and the enable plan. It is as before until the mapper reset is
   sent, off then, and on from the first enable write, which takes effect whatever becomes of its
   answer.
   */
  predicate OnAfterOpen(link: Link, from: nat, kind: MbcKind, powered: bool, wasOn: bool) {
    var entry := |EntryReplies(powered)|;
    var f := link.FirstLost(from, |OpenReplies(kind, powered)|);
    if f + 1 < entry then wasOn else f + 1 > entry
  }

  /** Whether RAM is on after the disable plan: an MBC1's has two writes, and the first answer can stop it. */
  predicate OnAfterClose(link: Link, at: nat, kind: MbcKind, unread: seq<byte>) {
    kind == KindMbc1 && (link.Loses(at) || Stale(unread))
  }

  /**
   Whether RAM is on after a whole save read or write whose transfer would be answered with `body`.
   A run that loses an answer before or in the enable plan returns at once; one that loses an
   answer in the transfer still sends the disable plan, with the rest of the lost answer unread.
   */
  predicate LeftOn(link: Link, from: nat, kind: MbcKind, powered: bool, wasOn: bool, body: seq<Reply>) {
    var open := |OpenReplies(kind, powered)|;
    if link.FirstLost(from, open) < open then OnAfterOpen(link, from, kind, powered, wasOn)
    else
      var f := link.FirstLost(from + open, |body|);
      var at := from + open + f;
      if f < |body| then OnAfterClose(link, at + 1, kind, link.Rest(at, body[f].Wire()))
      else OnAfterClose(link, at, kind, [])
  }

  /** Every mapper but the MBC1 is left with RAM on exactly when the enable write's answer is the first one lost. */
  lemma LeftOnOneWrite(link: Link, from: nat, kind: MbcKind, powered: bool, wasOn: bool, body: seq<Reply>)
    requires kind != KindMbc1
    ensures var e := |EntryReplies(powered)|;
            var f := link.FirstLost(from, e + 1);
            LeftOn(link, from, kind, powered, wasOn, body) <==> f == e || (wasOn && f + 1 < e)
  {
  }

  /**
   An MBC1 save write leaves RAM on exactly when the first lost answer is one of the enable plan's
   two, or the disable plan's first, or one of the transfer's with the very next one lost as well.
   */
  lemma LeftOnTwoWrites(link: Link, from: nat, powered: bool, wasOn: bool, n: nat)
    ensures var e := |EntryReplies(powered)|;
            var f := link.FirstLost(from, e + 2 + n + 1);
            LeftOn(link, from, KindMbc1, powered, wasOn, Acks(n)) ==
              (if f < e + 2 then f >= e || (wasOn && f + 1 < e)
               else if f < e + 2 + n then link.Loses(from + f + 1)
               else f == e + 2 + n)
  {
    hide LeftOn, Link.Clear, Link.Loses, Link.FirstLost, EntryReplies, Acks;
    LeftOnInParts(link, from, powered, wasOn, n);
    FirstOfThree(link, from, |EntryReplies(powered)| + 2, n);
  }

  /** The first loss in a plan, a transfer of `n` answers and one answer more. */
  lemma FirstOfThree(link: Link, from: nat, plan: nat, n: nat)
    ensures var f, g := link.FirstLost(from, plan), link.FirstLost(from + plan, n);
            link.FirstLost(from, plan + n + 1)
              == if f < plan then f
                 else if g < n then plan + g
                 else plan + n + if link.Loses(from + plan + n) then 0 else 1
  {
    hide Link.Clear, Link.FirstLost;
    FirstLostSplit(link, from, plan, n + 1);
    FirstLostSplit(link, from + plan, n, 1);
    FirstOfOne(link, from + plan + n);
  }

  lemma LeftOnInParts(link: Link, from: nat, powered: bool, wasOn: bool, n: nat)
    ensures var e := |EntryReplies(powered)|;
            var f, g := link.FirstLost(from, e + 2), link.FirstLost(from + e + 2, n);
            LeftOn(link, from, KindMbc1, powered, wasOn, Acks(n))
              == if f < e + 2 then f >= e || (wasOn && f + 1 < e)
                 else link.Loses(from + e + 2 + g + if g < n then 1 else 0)
  {
    hide Link.Clear, Link.FirstLost, Link.Rest, EntryReplies, Stale;
    AckNeverStale(link, from + |EntryReplies(powered)| + 2 + link.FirstLost(from + |EntryReplies(powered)| + 2, n));
  }

  lemma FirstOfOne(link: Link, from: nat)
    ensures link.FirstLost(from, 1) == if link.Loses(from) then 0 else 1
  {
  }

  lemma AckNeverStale(link: Link, at: nat)
    ensures !Stale(link.Rest(at, Ack.Wire())) && !Stale([])
  {
  }

  lemma ReliableTurnsOff(link: Link, from: nat, kind: MbcKind, powered: bool, wasOn: bool, body: seq<Reply>)
    requires link.Reliable?
    ensures !LeftOn(link, from, kind, powered, wasOn, body)
  {
  }

  /** The enable plan on a mapper just reset from `c`. */
  method EnableRam(dev: GbxCart, kind: MbcKind, ghost c: DmgCart) returns (r: Result<(), DeviceError>)
    requires dev.io.Ready() && dev.io.cart.Dmg? && dev.io.out == []
    requires dev.io.CoreValue().DmgLive() && dev.io.CoreValue().Get(VAR_DMG_READ_METHOD) == DMG_READ_METHOD_A15
    requires c.Valid() && Quiet(DmgSlot(c)) && Drives(kind, c.mbc) && dev.io.SlotValue() == DmgSlot(MapperReset(c))
    modifies dev.io.Repr()
    ensures dev.io.Ready() && dev.io.inStep == old(dev.io.inStep)
    ensures dev.io.SlotValue().DmgSlot? && dev.io.SlotValue().dmg.ram == c.ram && dev.io.SlotValue().dmg.ramEnable
    ensures dev.io.Ran(old(dev.io.asked), Acks(|RamEnableWrites(kind)|), r.Ok?)
    ensures if r.Err? then dev.io.Lossy() else dev.io.out == [] && Open(dev.io.CoreValue(), c.mbc)
  {
    hide SimGbxCart.Ready, SimGbxCart.Repr, SimGbxCart.CartRepr, Opened, Applied, Link.Ran, Link.Clear;
    ghost var sent;
    r, sent := ApplyWrites(dev, RamEnableWrites(kind));
    EnabledOpen(kind, c, c.mbc, sent);
  }

  /** Enter DMG mode and switch battery RAM on. */
  method OpenRam(dev: GbxCart, kind: MbcKind, ghost mbc: SimMbc) returns (r: Result<(), DeviceError>)
    requires dev.io.Ready() && dev.io.cart.Dmg? && Quiet(dev.io.SlotValue()) && dev.io.out == []
    requires dev.io.SlotValue().dmg.mbc == mbc && Drives(kind, mbc)
    modifies dev.io.Repr()
    ensures dev.io.Ready() && dev.io.inStep == old(dev.io.inStep)
    ensures dev.io.SlotValue().dmg.ram == old(dev.io.SlotValue()).dmg.ram
    ensures dev.io.Ran(old(dev.io.asked), OpenReplies(kind, old(dev.io.powered)), r.Ok?)
    ensures dev.io.SlotValue().dmg.ramEnable
         == OnAfterOpen(dev.io.link, old(dev.io.asked), kind, old(dev.io.powered),
                        old(dev.io.SlotValue()).dmg.ramEnable)
    ensures if r.Err? then dev.io.Lossy() else dev.io.out == [] && Open(dev.io.CoreValue(), mbc)
  {
    hide SimGbxCart.Ready, SimGbxCart.Repr, SimGbxCart.CartRepr, Opened, Applied, Link.Ran, Link.Clear, OnAfterOpen,
      EntrySlot, EntryReplies;
    ghost var link, from, on := dev.io.link, dev.io.asked, dev.io.powered;
    ghost var entry, enable := EntryReplies(on), Acks(|RamEnableWrites(kind)|);
    ghost var c, core := dev.io.SlotValue().dmg, dev.io.CoreValue();
    r := dev.EnterDmgMode();
    EntryOnly(link, from, kind, core, r.Ok?, dev.io.asked, dev.io.out);
    RanFirst(link, from, entry, enable, r.Ok?, dev.io.asked, dev.io.out);
    if r.Err? {
      return;
    }
    r := EnableRam(dev, kind, c);
    Enabling(link, from, kind, on, c.ramEnable);
    RanThen(link, from, entry, enable, r.Ok?, dev.io.asked, dev.io.out);
  }

  /** A run that does not get past mode entry. */
  lemma EntryOnly(link: Link, from: nat, kind: MbcKind, c: Core, ok: bool, asked: nat, out: seq<byte>)
    requires link.Ran(from, EntryReplies(c.powered), ok, asked, out) && c.slot.DmgSlot?
    ensures EntrySlot(c, link, from).DmgSlot? && EntrySlot(c, link, from).dmg.ram == c.slot.dmg.ram
    ensures !ok ==>
      EntrySlot(c, link, from).dmg.ramEnable == OnAfterOpen(link, from, kind, c.powered, c.slot.dmg.ramEnable)
  {
    FirstLostSplit(link, from, |EntryReplies(c.powered)|, |RamEnableWrites(kind)|);
  }

  lemma Enabling(link: Link, from: nat, kind: MbcKind, powered: bool, wasOn: bool)
    requires link.Clear(from, |EntryReplies(powered)|)
    ensures OnAfterOpen(link, from, kind, powered, wasOn)
  {
    hide EntryReplies;
    var entry, n := |EntryReplies(powered)|, |OpenReplies(kind, powered)|;
    var f := link.FirstLost(from, n);
    assert f < n ==> link.Loses(from + f);
  }

  /**
   Switch battery RAM off. Every plan but the MBC1's is a single write, and a write reaches the cart
   whatever the link does to its answer.
   */
  method CloseRam(dev: GbxCart, kind: MbcKind, ghost mbc: SimMbc) returns (r: Result<(), DeviceError>)
    requires dev.io.Ready() && dev.io.cart.Dmg? && Open(dev.io.CoreValue(), mbc) && Drives(kind, mbc)
    modifies dev.io.Repr()
    ensures dev.io.Ready() && dev.io.inStep == old(dev.io.inStep)
    ensures dev.io.SlotValue().dmg.ram == old(dev.io.SlotValue()).dmg.ram && dev.io.SlotValue().dmg.mbc == mbc
    ensures dev.io.SlotValue().dmg.ramEnable
         == OnAfterClose(dev.io.link, old(dev.io.asked), kind, old(dev.io.out))
    ensures Quiet(dev.io.SlotValue())
    ensures r.Ok? ==> !dev.io.SlotValue().dmg.ramEnable
    ensures old(dev.io.out) == [] ==> if r.Ok? then dev.io.out == [] else dev.io.Lossy()
  {
    hide SimGbxCart.Ready, SimGbxCart.Repr, SimGbxCart.CartRepr, Applied, Link.Ran;
    ghost var c := dev.io.SlotValue().dmg;
    ghost var sent;
    r, sent := ApplyWrites(dev, RamDisableWrites(kind));
    DisabledWhen(kind, c, sent);
    QuietApplied(c, RamDisableWrites(kind)[..sent]);
  }

  /** The answers to the transfer of a save read. */
  function ReadReplies(kind: MbcKind, ram: seq<byte>, mbc: SimMbc, size: nat): seq<Reply> {
    if kind == KindMbc2 then DataReplies(NibblesLoaded(ram)) else LoadReplies(kind, ram, mbc, size, BanksOf(size))
  }

  /** The transfer of a save read, between switching RAM on and off. */
  method ReadSaveBody(dev: GbxCart, kind: MbcKind, ghost mbc: SimMbc, size: nat)
    returns (r: Result<seq<byte>, DeviceError>)
    requires dev.io.Ready() && dev.io.cart.Dmg? && Open(dev.io.CoreValue(), mbc) && dev.io.out == []
    requires Drives(kind, mbc) && (size <= MAX_BUFFER_READ || size % MAX_BUFFER_READ == 0)
    modifies dev.io.Repr()
    ensures dev.io.Ready() && dev.io.inStep == old(dev.io.inStep)
    ensures Open(dev.io.CoreValue(), mbc) && dev.io.SlotValue().dmg.ram == old(dev.io.SlotValue()).dmg.ram
    ensures if r.Err? then dev.io.Lossy() else
      && dev.io.out == []
      && (ClockFree(mbc, size) ==> r.value == SaveLoaded(dev.io.SlotValue().dmg.ram, mbc, size))
    ensures ClockFree(mbc, size) ==>
      dev.io.Ran(old(dev.io.asked), ReadReplies(kind, old(dev.io.SlotValue()).dmg.ram, mbc, size), r.Ok?)
  {
    hide SimGbxCart.Ready, SimGbxCart.Repr, SimGbxCart.CartRepr, BankLoaded, NibblesLoaded, Loaded, LoadReplies,
      DataReplies, Opened, Link.Ran;
    if kind == KindMbc2 {
      NibblesLoadedIs(dev.io.SlotValue().dmg);
      r := ReadBankData(dev, mbc, MBC2_RAM);
      if r.Ok? {
        r := Ok(Resized(r.value, size));
      }
    } else {
      r := ReadBanks(dev, kind, mbc, size);
    }
  }

  /** How many status bytes the transfer of a save write takes. */
  function WriteAcks(kind: MbcKind, data: seq<byte>): nat {
    if kind == KindMbc2 then 4 + Smaller(MBC2_RAM, |data|) / SAVE_CHUNK else SaveAcks(kind, data, BanksOf(|data|))
  }

  /** The transfer of a save write. */
  method WriteSaveBody(dev: GbxCart, kind: MbcKind, ghost mbc: SimMbc, data: seq<byte>)
    returns (r: Result<(), DeviceError>)
    requires dev.io.Ready() && dev.io.cart.Dmg? && Open(dev.io.CoreValue(), mbc) && dev.io.out == []
    requires Drives(kind, mbc) && |data| % SAVE_CHUNK == 0
    modifies dev.io.Repr()
    ensures dev.io.Ready() && dev.io.inStep == old(dev.io.inStep)
    ensures Open(dev.io.CoreValue(), mbc)
    ensures if r.Err? then dev.io.Lossy() else
      && dev.io.out == []
      && (ClockFree(mbc, |data|) ==>
            dev.io.SlotValue().dmg.ram == SaveStored(old(dev.io.SlotValue()).dmg.ram, mbc, data))
    ensures dev.io.Ran(old(dev.io.asked), Acks(WriteAcks(kind, data)), r.Ok?)
  {
    hide SimGbxCart.Ready, SimGbxCart.Repr, SimGbxCart.CartRepr, NibblesStored, Stored, SaveAcks, Opened, Link.Ran;
    if kind == KindMbc2 {
      OpenedMbc(dev.io.SlotValue().dmg, mbc);
      r := WriteBankData(dev, mbc, data[..Smaller(MBC2_RAM, |data|)]);
    } else {
      r := WriteBanks(dev, kind, mbc, data);
    }
  }

  /**
   Read a save. On every return RAM is on or off as `LeftOn` says of the link's losses, which were
   fixed before the call.
   */
  method ReadDmgSave(dev: GbxCart, kind: MbcKind, size: nat) returns (r: Result<seq<byte>, DeviceError>)
    requires dev.io.Ready() && dev.io.cart.Dmg? && Quiet(dev.io.SlotValue()) && dev.io.out == []
    requires Drives(kind, dev.io.SlotValue().dmg.mbc)
    requires size <= MAX_BUFFER_READ || size % MAX_BUFFER_READ == 0
    modifies dev.io.Repr()
    ensures dev.io.Ready() && dev.io.inStep == old(dev.io.inStep)
    ensures dev.io.SlotValue().dmg.ram == old(dev.io.SlotValue()).dmg.ram
    ensures var c := old(dev.io.SlotValue()).dmg;
            dev.io.SlotValue().dmg.ramEnable
              == LeftOn(dev.io.link, old(dev.io.asked), kind, old(dev.io.powered), c.ramEnable,
                        ReadReplies(kind, c.ram, c.mbc, size))
    ensures if r.Err? then dev.io.Lossy() else
      && !dev.io.SlotValue().dmg.ramEnable && dev.io.out == []
      && (ClockFree(dev.io.SlotValue().dmg.mbc, size) ==>
            r.value == SaveLoaded(dev.io.SlotValue().dmg.ram, old(dev.io.SlotValue()).dmg.mbc, size))
  {
    hide SimGbxCart.Ready, SimGbxCart.Repr, SimGbxCart.CartRepr, SaveLoaded, ReadReplies, Open, Link.Ran, LeftOn,
      OnAfterOpen, OnAfterClose;
    ghost var mbc, c, link, from, on := dev.io.SlotValue().dmg.mbc, dev.io.SlotValue().dmg, dev.io.link, dev.io.asked,
      dev.io.powered;
    ghost var body := ReadReplies(kind, c.ram, mbc, size);
    var a := OpenRam(dev, kind, mbc);
    Opening(link, from, kind, on, c.ramEnable, body, a.Ok?, dev.io.asked, dev.io.out);
    if a.Err? {
      return Err(a.error);
    }
    r := ReadSaveBody(dev, kind, mbc, size);
    Closing(link, from, kind, on, c.ramEnable, body, r.Ok?, dev.io.asked, dev.io.out);
    a := CloseRam(dev, kind, mbc);
    if r.Ok? && a.Err? {
      r := Err(a.error);
    }
  }

  /** A run that stops in mode entry or in the enable plan. */
  lemma Opening(link: Link, from: nat, kind: MbcKind, powered: bool, wasOn: bool, body: seq<Reply>,
                ok: bool, asked: nat, out: seq<byte>)
    requires link.Ran(from, OpenReplies(kind, powered), ok, asked, out)
    ensures ok ==> asked == from + |OpenReplies(kind, powered)| && link.Clear(from, |OpenReplies(kind, powered)|)
    ensures !ok ==>
      LeftOn(link, from, kind, powered, wasOn, body) == OnAfterOpen(link, from, kind, powered, wasOn)
  {
  }

  /** A run that reached the disable plan, with `out` unread. */
  lemma Closing(link: Link, from: nat, kind: MbcKind, powered: bool, wasOn: bool, body: seq<Reply>,
                ok: bool, asked: nat, out: seq<byte>)
    requires link.Clear(from, |OpenReplies(kind, powered)|)
    requires kind == KindMbc1 ==> link.Ran(from + |OpenReplies(kind, powered)|, body, ok, asked, out)
    ensures LeftOn(link, from, kind, powered, wasOn, body) == OnAfterClose(link, asked, kind, out)
  {
    hide Link.Rest, Stale, OpenReplies;
    var open := |OpenReplies(kind, powered)|;
    FirstLostIs(link, from, open, open);
  }

  /** Write a save; RAM is left on or off on the same terms as for a read. */
  method WriteDmgSave(dev: GbxCart, kind: MbcKind, data: seq<byte>) returns (r: Result<(), DeviceError>)
    requires dev.io.Ready() && dev.io.cart.Dmg? && Quiet(dev.io.SlotValue()) && dev.io.out == []
    requires Drives(kind, dev.io.SlotValue().dmg.mbc) && |data| % SAVE_CHUNK == 0
    modifies dev.io.Repr()
    ensures dev.io.Ready() && dev.io.inStep == old(dev.io.inStep)
    ensures dev.io.SlotValue().dmg.ramEnable
         == LeftOn(dev.io.link, old(dev.io.asked), kind, old(dev.io.powered), old(dev.io.SlotValue()).dmg.ramEnable,
                   Acks(WriteAcks(kind, data)))
    ensures if r.Err? then dev.io.Lossy() else
      && !dev.io.SlotValue().dmg.ramEnable && dev.io.out == [] && Quiet(dev.io.SlotValue())
      && (ClockFree(dev.io.SlotValue().dmg.mbc, |data|) ==>
            dev.io.SlotValue().dmg.ram
              == SaveStored(old(dev.io.SlotValue()).dmg.ram, old(dev.io.SlotValue()).dmg.mbc, data))
  {
    hide SimGbxCart.Ready, SimGbxCart.Repr, SimGbxCart.CartRepr, SaveStored, WriteAcks, Open, Link.Ran, LeftOn,
      OnAfterOpen, OnAfterClose;
    ghost var mbc, link, from, on, wasOn := dev.io.SlotValue().dmg.mbc, dev.io.link, dev.io.asked, dev.io.powered,
      dev.io.SlotValue().dmg.ramEnable;
    ghost var body := Acks(WriteAcks(kind, data));
    r := OpenRam(dev, kind, mbc);
    Opening(link, from, kind, on, wasOn, body, r.Ok?, dev.io.asked, dev.io.out);
    if r.Err? {
      return;
    }
    r := WriteSaveBody(dev, kind, mbc, data);
    Closing(link, from, kind, on, wasOn, body, r.Ok?, dev.io.asked, dev.io.out);
    var a := CloseRam(dev, kind, mbc);
    if r.Ok? && a.Err? {
      r := a;
    }
  }

  /** Writing a save and reading it back on a link that loses nothing returns it. */
  method SaveSurvives(dev: GbxCart, kind: MbcKind, data: seq<byte>) returns (r: Result<seq<byte>, DeviceError>)
    requires dev.io.Ready() && dev.io.cart.Dmg? && Quiet(dev.io.SlotValue()) && dev.io.out == []
    requires Drives(kind, dev.io.SlotValue().dmg.mbc) && |data| % SAVE_CHUNK == 0
    requires |data| <= MAX_BUFFER_READ || |data| % MAX_BUFFER_READ == 0
    modifies dev.io.Repr()
    ensures !dev.io.Lossy() ==> r.Ok?
    ensures r.Ok? ==>
      var c := dev.io.SlotValue().dmg;
      && !c.ramEnable
      && (c.mbc != Mbc2 && BanksOf(|data|) <= RamBanks(c.mbc) && |data| <= |c.ram| ==> r.value == data)
      && (c.mbc == Mbc2 && |c.ram| == MBC2_RAM <= |data| ==>
            |r.value| == |data|
            && forall i :: 0 <= i < |data| ==> r.value[i] == if i < MBC2_RAM then 0xF0 + data[i] % 16 else 0xFF)
  {
    hide SimGbxCart.Ready, SimGbxCart.Repr, SimGbxCart.CartRepr, Stored, Loaded, LeftOn;
    ghost var ram := dev.io.SlotValue().dmg.ram;
    var w := WriteDmgSave(dev, kind, data);
    if w.Err? {
      return Err(w.error);
    }
    r := ReadDmgSave(dev, kind, |data|);
    ghost var c := dev.io.SlotValue().dmg;
    if c.mbc != Mbc2 && BanksOf(|data|) <= RamBanks(c.mbc) && |data| <= |ram| {
      SaveRoundTrip(ram, c.mbc, data);
    }
  }

  // --- Runs that leave RAM on ---------------------------------------------------------------

  /** On a fresh device the ninth answer is the enable write's; without it, every mapper's RAM stays on. */
  lemma LostEnableAnswer(kind: MbcKind, wasOn: bool, body: seq<Reply>)
    ensures LeftOn(LosesOnly(8, 0), 0, kind, false, wasOn, body)
  {
    FirstLostOnly(8, 0, 0, |OpenReplies(kind, false)|);
  }

  /**
   An MBC1 whose RAM holds 0x42: the first chunk is lost but for its last bytes, one of which is read as
   the disable plan's answer.
   */
  lemma StaleByte(ram: seq<byte>)
    requires |ram| == 0x1000 && forall i :: 0 <= i < 0x1000 ==> ram[i] == 0x42
    ensures LeftOn(LosesOnly(15, 1), 0, KindMbc1, false, false, ReadReplies(KindMbc1, ram, Mbc1, 0x1000))
  {
    hide LeftOn, OnAfterOpen, OnAfterClose, Stale, EntryReplies;
    var link := LosesOnly(15, 1);
    var body := ReadReplies(KindMbc1, ram, Mbc1, 0x1000);
    OneChunk(ram);
    FirstLostOnly(15, 1, 0, 10);
    FirstLostOnly(15, 1, 10, |body|);
    FirstLostIs(link, 0, 10, 10);
    LastChunkStale(link, ram);
    StaleLeavesOn(link, body);
  }

  lemma OneChunk(ram: seq<byte>)
    requires |ram| == 0x1000
    ensures ReadReplies(KindMbc1, ram, Mbc1, 0x1000) == Acks(5) + [Bytes(ram)]
  {
    assert BanksOf(0x1000) == 1;
    assert RamSlice(ram, 0, 0x1000) == ram;
    assert Piece(ram, 0x1000, 0) == ram;
    assert Pieces(ram, 0x1000, 1) == [Bytes(ram)];
    assert LoadReplies(KindMbc1, ram, Mbc1, 0x1000, 0) == [];
    assert LoadReplies(KindMbc1, ram, Mbc1, 0x1000, 1) == BankReplies(KindMbc1, ram, Mbc1, 0, 0x1000);
  }

  lemma LastChunkStale(link: Link, ram: seq<byte>)
    requires link == LosesOnly(15, 1) && |ram| > 1 && ram[1] == 0x42
    ensures Stale(link.Rest(15, ram))
  {
  }

  lemma StaleLeavesOn(link: Link, body: seq<Reply>)
    requires link.FirstLost(0, 10) == 10 && link.FirstLost(10, |body|) == 5 < |body|
    requires Stale(link.Rest(15, body[5].Wire()))
    ensures LeftOn(link, 0, KindMbc1, false, false, body)
  {
  }

  /** A whole save read that leaves RAM on: the answer to the enable write is lost. */
  method LostEnableRun() returns (cart: SimDmgCart, r: Result<seq<byte>, DeviceError>)
    ensures r.Err? && cart.Value().ramEnable
  {
    hide LeftOn, ReadReplies, Filled;
    cart := new SimDmgCart([], Filled(0x2000, 0), Mbc5, null);
    var io := new SimGbxCart(Dmg(cart), _ => 0, LosesOnly(8, 0));
    var dev := new GbxCart(io, _ => 0, []);
    LostEnableAnswer(KindMbc5, false, ReadReplies(KindMbc5, Filled(0x2000, 0), Mbc5, 0x1000));
    r := ReadDmgSave(dev, KindMbc5, 0x1000);
  }

  /**
   A whole save read that leaves an MBC1's RAM on although the disable plan was sent: its first answer
   is a stale byte.
   */
  method StaleByteRun() returns (cart: SimDmgCart, r: Result<seq<byte>, DeviceError>)
    ensures r.Err? && cart.Value().ramEnable
  {
    hide LeftOn, ReadReplies;
    cart := new SimDmgCart([], Filled(0x1000, 0x42), Mbc1, null);
    var io := new SimGbxCart(Dmg(cart), _ => 0, LosesOnly(15, 1));
    var dev := new GbxCart(io, _ => 0, []);
    StaleByte(Filled(0x1000, 0x42));
    r := ReadDmgSave(dev, KindMbc1, 0x1000);
  }
}
