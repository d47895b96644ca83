/**
 Dumping a GBA ROM: 4 KiB chunks, the cursor set anew every 64 KiB, timed-out chunks asked for
 again, and an early stop where open bus begins.
 */
module AgbDump {
  import opened Arithmetic
  import opened Bytes
  import opened Protocol
  import opened Cartridges
  import opened GbxCore
  import opened GbxLink
  import opened GbxWire
  import opened GbxStreams
  import opened SimGbx
  import opened GbxDriver

  /** How often the cursor is set explicitly: auto-increment stalls at word 0x800000. */
  const ADDR_REANCHOR := 0x1_0000
  const FIRST_STOP := 0x10_0000
  const PROBED := 0x100

  /** `n` bytes of the ROM bus from byte `from`. */
  function Bus(cart: AgbCart, from: nat, n: nat): (s: seq<byte>)
    requires cart.Valid()
    ensures |s| == n
  {
    seq(n, i requires 0 <= i < n => AgbRomByte(cart, from + i))
  }

  lemma BusAt(cart: AgbCart, from: nat, n: nat, i: nat)
    requires cart.Valid() && i < n
    ensures Bus(cart, from, n)[i] == AgbRomByte(cart, from + i)
  {
  }

  /** A power of two is a multiple of every smaller one. */
  lemma {:induction false} PowerMultiple(k: nat, n: nat)
    requires IsPowerOfTwo(n) && n >= Pow2(k)
    ensures n % Pow2(k) == 0
  {
    if k > 0 {
      PowerMultiple(k - 1, n / 2);
      var m := Pow2(k - 1);
      var q := n / 2 / m;
      assert n / 2 == q * m;
      assert n == q * (2 * m) by {
        assert n == 2 * (q * m);
      }
      MulMod(q, 2 * m);
    }
  }

  lemma StopsAreChunked(n: nat)
    requires IsPowerOfTwo(n) && n >= FIRST_STOP
    ensures n % MAX_BUFFER_READ == 0 && n / 2 % 0x1_0000 == 0
  {
    assert Pow2(4) == 16;
    assert Pow2(12) == 0x1000 by {
      assert Pow2(8) == 0x100;
    }
    assert Pow2(17) == 0x2_0000 by {
      assert Pow2(16) == 0x1_0000;
    }
    PowerMultiple(12, n);
    PowerMultiple(17, n);
  }

  /** The bus value with nothing driving it: a little-endian counter from 0. */
  predicate LooksOpen(data: seq<byte>) {
    |data| >= 4 && forall j :: 0 <= j < |data| / 2 ==> data[2 * j] as nat + 0x100 * data[2 * j + 1] as nat == j
  }

  method IsOpenBus(data: seq<byte>) returns (b: bool)
    requires |data| <= 0x2_0000
    ensures b <==> LooksOpen(data)
  {
    if |data| < 4 {
      return false;
    }
    var j := 0;
    while 2 * j < |data| - 1
      invariant 0 <= j && 2 * j <= |data|
      invariant forall k :: 0 <= k < j ==> data[2 * k] as nat + 0x100 * data[2 * k + 1] as nat == k
    {
      if data[2 * j] as nat + 0x100 * data[2 * j + 1] as nat != j {
        return false;
      }
      j := j + 1;
    }
    b := true;
  }

  /** Where a dump may stop: open bus at a power of two of at least 1 MiB. */
  predicate Stop(cart: AgbCart, n: nat)
    requires cart.Valid()
  {
    n >= FIRST_STOP && IsPowerOfTwo(n) && LooksOpen(Bus(cart, n, PROBED))
  }

  /** Read off the bus: 128 words that count up from 0, low bytes first. */
  lemma StopIs(cart: AgbCart, n: nat)
    requires cart.Valid()
    ensures Stop(cart, n)
      <==> n >= 0x10_0000 && IsPowerOfTwo(n) && forall j :: 0 <= j < 0x80 ==> CountsAt(cart, n, j)
  {
    hide IsPowerOfTwo, AgbRomByte;
    var data := Bus(cart, n, PROBED);
    forall j | 0 <= j < 0x80
      ensures data[2 * j] as nat + 0x100 * data[2 * j + 1] as nat == j <==> CountsAt(cart, n, j)
    {
      BusAt(cart, n, PROBED, 2 * j);
      BusAt(cart, n, PROBED, 2 * j + 1);
    }
  }

  /** Word `j` behind byte `n` is `j`. */
  predicate CountsAt(cart: AgbCart, n: nat, j: nat)
    requires cart.Valid()
  {
    AgbRomByte(cart, n + 2 * j) as nat == j % 0x100 && AgbRomByte(cart, n + (2 * j + 1)) as nat == j / 0x100
  }

  /** A true prefix of the bus that ends at the requested size or at the first stop before it. */
  predicate DumpOf(cart: AgbCart, romSize: nat, rom: seq<byte>)
    requires cart.Valid()
  {
    && |rom| <= romSize && rom == Bus(cart, 0, |rom|)
    && (|rom| < romSize ==> Stop(cart, |rom|))
    && forall n :: 0 <= n < |rom| ==> !Stop(cart, n)
  }

  /** There is only one such prefix, whatever happened on the link. */
  lemma DumpUnique(cart: AgbCart, romSize: nat, a: seq<byte>, b: seq<byte>)
    requires cart.Valid() && DumpOf(cart, romSize, a) && DumpOf(cart, romSize, b)
    ensures a == b
  {
    hide Stop, Bus;
    assert |a| == romSize || Stop(cart, |a|);
    assert |b| == romSize || Stop(cart, |b|);
  }

  /** A cart that floats past a ROM of a power of two bytes is dumped exactly, unless the ROM imitates open bus. */
  lemma DumpIsRom(cart: AgbCart, romSize: nat, rom: seq<byte>)
    requires cart.Valid() && cart.flash.None? && cart.pad.None? && DumpOf(cart, romSize, rom)
    requires FIRST_STOP <= |cart.rom| <= romSize && IsPowerOfTwo(|cart.rom|)
    ensures rom == cart.rom <==> forall n :: 0 <= n < |cart.rom| ==> !Stop(cart, n)
  {
    hide IsPowerOfTwo, LooksOpen, Stop;
    FloatsAt(cart);
    assert |rom| <= |cart.rom|;
    assert rom == cart.rom[..|rom|] by {
      assert forall i :: 0 <= i < |rom| ==> Bus(cart, 0, |rom|)[i] == cart.rom[i];
    }
    if |rom| < |cart.rom| {
      assert Stop(cart, |rom|);
    } else {
      assert cart.rom[..|rom|] == cart.rom;
    }
  }

  /** A word that does not count on in the 256 bytes behind a power of two keeps the dump going there. */
  lemma DumpGoesOn(cart: AgbCart, romSize: nat, rom: seq<byte>, n: nat, j: nat)
    requires cart.Valid() && cart.flash.None? && DumpOf(cart, romSize, rom) && n < romSize && j < 0x80
    requires n + 2 * j + 2 <= |cart.rom| && cart.rom[n + 2 * j..n + 2 * j + 2] != [j as byte, 0]
    ensures |rom| != n
  {
    hide IsPowerOfTwo;
    var at := n + 2 * j;
    assert cart.rom[at..at + 2] == [cart.rom[at], cart.rom[at + 1]];
    StopIs(cart, n);
    assert !CountsAt(cart, n, j);
  }

  lemma FloatsAt(cart: AgbCart)
    requires cart.Valid() && cart.flash.None? && cart.pad.None?
    requires FIRST_STOP <= |cart.rom| && IsPowerOfTwo(|cart.rom|)
    ensures Stop(cart, |cart.rom|)
  {
    hide IsPowerOfTwo, OpenBusByte;
    var n := |cart.rom|;
    StopsAreChunked(n);
    var data := Bus(cart, n, PROBED);
    forall j | 0 <= j < |data| / 2
      ensures data[2 * j] as nat + 0x100 * data[2 * j + 1] as nat == j
    {
      BusAt(cart, n, PROBED, 2 * j);
      BusAt(cart, n, PROBED, 2 * j + 1);
      OpenCounter(n, j);
    }
  }

  lemma OpenCounter(n: nat, j: nat)
    requires n % 2 == 0 && n / 2 % 0x1_0000 == 0 && j < 0x80
    ensures OpenBusByte(n + 2 * j) as nat == j && OpenBusByte(n + (2 * j + 1)) == 0
  {
    assert (n + 2 * j) / 2 == n / 2 + j && (n + (2 * j + 1)) / 2 == n / 2 + j;
    CounterBytes(n / 2 / 0x1_0000, j);
  }

  lemma CounterBytes(k: nat, j: nat)
    requires j < 0x80
    ensures (k * 0x1_0000 + j) % 0x100 == j && (k * 0x1_0000 + j) / 0x100 % 0x100 == 0
  {
    assert k * 0x1_0000 + j == (k * 0x100) * 0x100 + j;
    assert (k * 0x1_0000 + j) / 0x100 == k * 0x100;
  }

  // --- The flow -----------------------------------------------------------------------

  /** The mode the dump runs in, with the cart it started from. */
  ghost predicate Dumping(cart: AgbCart, c: Core) {
    && c.Valid() && c.AgbLive() && c.slot == AgbSlot(cart) && Quiet(c.slot)
    && c.TransferSize() == MAX_BUFFER_READ
  }

  /** The cursor stands at byte `offset`, and the next chunk does not run into the stall. */
  ghost predicate Anchored(c: Core, offset: nat) {
    && 2 * c.address == offset && offset % MAX_BUFFER_READ == 0
    && (offset % ADDR_REANCHOR == 0 ==> c.addrIncremented == 0)
  }

  /** The stall is never met: an anchored chunk comes in full. */
  lemma AnchoredChunk(cart: AgbCart, c: Core, offset: nat)
    requires Dumping(cart, c) && Anchored(c, offset)
    ensures cart.Valid()
    ensures Exec(c, [CMD_AGB_CART_READ]).1 == Bus(cart, offset, MAX_BUFFER_READ)
    ensures var c1 := Exec(c, [CMD_AGB_CART_READ]).0;
            Dumping(cart, c1) && 2 * c1.address == offset + MAX_BUFFER_READ
  {
    hide AgbStream, AgbSees;
    AgbStreamQuiet(c, MAX_BUFFER_READ / 2);
    SliceIsBus(cart, c, offset, MAX_BUFFER_READ);
  }

  lemma SliceIsBus(cart: AgbCart, c: Core, from: nat, n: nat)
    requires Dumping(cart, c)
    ensures AgbSlice(c, from, n) == Bus(cart, from, n)
  {
    hide AgbRomByte, Quiet;
    forall i | 0 <= i < n
      ensures AgbSlice(c, from, n)[i] == Bus(cart, from, n)[i]
    {
      BusAt(cart, from, n, i);
      assert AgbSlice(c, from, n)[i] == AgbSees(c, from + i);
    }
  }

  /** Set the cursor to byte `offset`. */
  method Anchor(dev: GbxCart, ghost cart: AgbCart, offset: nat) returns (r: Result<(), DeviceError>)
    requires dev.io.Ready() && dev.io.out == [] && Dumping(cart, dev.io.CoreValue())
    requires offset % MAX_BUFFER_READ == 0 && offset < 0x1_0000_0000
    modifies dev.io.Repr()
    ensures dev.io.Ready() && dev.io.inStep == old(dev.io.inStep)
    ensures if r.Ok? then dev.io.out == [] else dev.io.Lossy()
    ensures r.Ok? ==> Dumping(cart, dev.io.CoreValue()) && Anchored(dev.io.CoreValue(), offset)
  {
    hide SimGbxCart.Ready, SimGbxCart.Repr, SimGbxCart.CartRepr, Dumping, Anchored, SetVar, Link.Ran;
    AnchorSet(cart, dev.io.CoreValue(), offset);
    r := dev.SetVariable(VAR_ADDRESS, (offset / 2) as u32);
  }

  lemma AnchorSet(cart: AgbCart, c: Core, offset: nat)
    requires Dumping(cart, c) && offset % MAX_BUFFER_READ == 0 && offset < 0x1_0000_0000
    ensures var d := SetVar(c, VAR_ADDRESS, (offset / 2) as u32); Dumping(cart, d) && Anchored(d, offset)
  {
  }

  /** One chunk, asked for where the cursor stands. */
  method RequestChunk(dev: GbxCart, ghost cart: AgbCart, ghost offset: nat) returns (r: Result<seq<byte>, DeviceError>)
    requires dev.io.Ready() && dev.io.out == []
    requires Dumping(cart, dev.io.CoreValue()) && Anchored(dev.io.CoreValue(), offset)
    modifies dev.io.Repr()
    ensures dev.io.Ready() && dev.io.inStep == old(dev.io.inStep)
    ensures Dumping(cart, dev.io.CoreValue()) && 2 * dev.io.CoreValue().address == offset + MAX_BUFFER_READ
    ensures if r.Ok? then dev.io.out == [] else dev.io.Lossy()
    ensures r.Ok? ==> r.value == Bus(cart, offset, MAX_BUFFER_READ)
  {
    hide SimGbxCart.Ready, SimGbxCart.Repr, SimGbxCart.CartRepr, Exec, Bus, Dumping, Anchored;
    AnchoredChunk(cart, dev.io.CoreValue(), offset);
    r := dev.Ask([CMD_AGB_CART_READ], MAX_BUFFER_READ);
    if r.Ok? {
      ghost var all := Bus(cart, offset, MAX_BUFFER_READ);
      assert r.value + dev.io.out == all && |r.value| == |all|;
      assert (r.value + dev.io.out)[..|all|] == r.value;
      assert all[..|all|] == all;
      assert dev.io.out == [];
    }
  }

  /** Ask again for a chunk that timed out: flush, set everything anew, at most three tries. */
  method RecoverRead(dev: GbxCart, ghost cart: AgbCart, offset: nat) returns (r: Result<seq<byte>, DeviceError>)
    requires dev.io.Ready() && Dumping(cart, dev.io.CoreValue()) && dev.io.Lossy()
    requires offset % MAX_BUFFER_READ == 0 && offset < 0x1_0000_0000
    modifies dev.io.Repr()
    ensures dev.io.Ready() && dev.io.inStep == old(dev.io.inStep)
    ensures r.Ok? ==>
      && dev.io.out == [] && r.value == Bus(cart, offset, MAX_BUFFER_READ)
      && Dumping(cart, dev.io.CoreValue()) && 2 * dev.io.CoreValue().address == offset + MAX_BUFFER_READ
  {
    hide Bus, Dumping, Anchored;
    var tries := 0;
    while tries < 3
      invariant dev.io.Ready() && dev.io.inStep == old(dev.io.inStep) && Dumping(cart, dev.io.CoreValue())
    {
      dev.io.FlushInput();
      var a := Retune(dev, cart);
      if a.Err? {
        return Err(a.error);
      }
      a := Anchor(dev, cart, offset);
      if a.Err? {
        return Err(a.error);
      }
      r := RequestChunk(dev, cart, offset);
      if r.Ok? {
        return;
      }
      tries := tries + 1;
    }
    r := Err(Io);
  }

  method Retune(dev: GbxCart, ghost cart: AgbCart) returns (r: Result<(), DeviceError>)
    requires dev.io.Ready() && dev.io.out == [] && Dumping(cart, dev.io.CoreValue())
    modifies dev.io.Repr()
    ensures dev.io.Ready() && dev.io.inStep == old(dev.io.inStep)
    ensures if r.Ok? then dev.io.out == [] else dev.io.Lossy()
    ensures r.Ok? ==> Dumping(cart, dev.io.CoreValue())
  {
    hide SimGbxCart.Ready, SimGbxCart.Repr, SimGbxCart.CartRepr;
    r := dev.SetVariable(VAR_TRANSFER_SIZE, MAX_BUFFER_READ as u32);
  }

  /** Mode and transfer size. */
  method StartDump(dev: GbxCart) returns (r: Result<(), DeviceError>)
    requires dev.io.Ready() && dev.io.out == [] && dev.io.cart.Agb? && Quiet(dev.io.SlotValue())
    modifies dev.io.Repr()
    ensures dev.io.Ready() && dev.io.inStep == old(dev.io.inStep)
    ensures if r.Ok? then dev.io.out == [] else dev.io.Lossy()
    ensures r.Ok? ==> Dumping(old(dev.io.SlotValue()).agb, dev.io.CoreValue())
  {
    hide SimGbxCart.Ready, SimGbxCart.Repr, SimGbxCart.CartRepr;
    r := dev.EnterAgbMode();
    if r.Err? {
      return;
    }
    r := dev.SetVariable(VAR_TRANSFER_SIZE, MAX_BUFFER_READ as u32);
  }

  /** The chunk at `offset`: anchored where needed, recovered when it times out. */
  method FetchChunk(dev: GbxCart, ghost cart: AgbCart, offset: nat) returns (r: Result<seq<byte>, DeviceError>)
    requires dev.io.Ready() && dev.io.out == [] && Dumping(cart, dev.io.CoreValue())
    requires offset % MAX_BUFFER_READ == 0 && offset < 0x1_0000_0000
    requires offset > 0 ==> 2 * dev.io.CoreValue().address == offset
    modifies dev.io.Repr()
    ensures dev.io.inStep == old(dev.io.inStep)
    ensures r.Err? ==> dev.io.Lossy()
    ensures r.Ok? ==>
      && dev.io.Ready() && dev.io.out == [] && r.value == Bus(cart, offset, MAX_BUFFER_READ)
      && Dumping(cart, dev.io.CoreValue()) && 2 * dev.io.CoreValue().address == offset + MAX_BUFFER_READ
  {
    hide SimGbxCart.Ready, SimGbxCart.Repr, SimGbxCart.CartRepr, Bus, Dumping;
    if offset % ADDR_REANCHOR == 0 {
      var a := Anchor(dev, cart, offset);
      if a.Err? {
        return Err(a.error);
      }
    }
    r := RequestChunk(dev, cart, offset);
    if r.Err? {
      r := RecoverRead(dev, cart, offset);
    }
  }

  /**
   Dump up to `romSize` bytes. Whichever reads time out, a result is the true prefix of the bus up
   to the requested size or the first place where open bus begins; a lossless link always yields it.
   */
  method DumpAgbRom(dev: GbxCart, romSize: u32) returns (r: Result<seq<byte>, DeviceError>)
    requires dev.io.Ready() && dev.io.out == [] && dev.io.cart.Agb? && Quiet(dev.io.SlotValue())
    modifies dev.io.Repr()
    ensures dev.io.inStep == old(dev.io.inStep)
    ensures r.Err? ==> dev.io.Lossy()
    ensures r.Ok? ==> DumpOf(old(dev.io.SlotValue()).agb, romSize as nat, r.value)
  {
    hide SimGbxCart.Ready, Bus, Dumping, LooksOpen, IsPowerOfTwo;
    ghost var cart := dev.io.SlotValue().agb;
    var a := StartDump(dev);
    if a.Err? {
      return Err(a.error);
    }
    var size := romSize as nat;
    var rom := [];
    NothingDumped(cart);
    while |rom| < size
      invariant |rom| <= size && (|rom| < size ==> |rom| % MAX_BUFFER_READ == 0)
      invariant dev.io.Ready() && dev.io.out == [] && dev.io.inStep == old(dev.io.inStep)
      invariant Dumping(cart, dev.io.CoreValue())
      invariant 0 < |rom| < size ==> 2 * dev.io.CoreValue().address == |rom|
      invariant rom == Bus(cart, 0, |rom|) && forall n :: 0 <= n < |rom| ==> !Stop(cart, n)
    {
      var buf := FetchChunk(dev, cart, |rom|);
      if buf.Err? {
        return Err(buf.error);
      }
      BusPrefix(cart, |rom|, MAX_BUFFER_READ, PROBED);
      var open := IsOpenBus(buf.value[..PROBED]);
      if |rom| >= FIRST_STOP && IsPowerOfTwo(|rom|) && open {
        return Ok(rom);
      }
      var want := Smaller(size - |rom|, MAX_BUFFER_READ);
      BusPrefix(cart, |rom|, MAX_BUFFER_READ, want);
      BusOn(cart, |rom|, want);
      NoStopInside(cart, |rom|, want);
      rom := rom + buf.value[..want];
    }
    r := Ok(rom);
  }

  lemma NothingDumped(cart: AgbCart)
    requires cart.Valid()
    ensures Bus(cart, 0, 0) == []
  {
  }

  lemma BusPrefix(cart: AgbCart, from: nat, n: nat, k: nat)
    requires cart.Valid() && k <= n
    ensures Bus(cart, from, n)[..k] == Bus(cart, from, k)
  {
  }

  lemma BusOn(cart: AgbCart, n: nat, k: nat)
    requires cart.Valid()
    ensures Bus(cart, 0, n) + Bus(cart, n, k) == Bus(cart, 0, n + k)
  {
  }

  /** Stops only fall on chunk boundaries. */
  lemma NoStopInside(cart: AgbCart, at: nat, n: nat)
    requires cart.Valid() && at % MAX_BUFFER_READ == 0 && n <= MAX_BUFFER_READ && !Stop(cart, at)
    ensures forall k :: at <= k < at + n ==> !Stop(cart, k)
  {
    forall k | at < k < at + n
      ensures !Stop(cart, k)
    {
      if Stop(cart, k) {
        StopsAreChunked(k);
      }
    }
  }
}
