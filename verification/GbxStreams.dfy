/** Reading streams off a cart that is not counting down busy answers. */
module GbxStreams {
  import opened Bytes
  import opened FlashChip
  import opened GbxCore

  /** Reads change nothing but the cursor: there is no flash chip counting down busy answers. */
  predicate Quiet(s: Slot) {
    match s
    case DmgSlot(c) => c.flash.Some? ==> AfterRead(c.flash.value) == c.flash.value
    case AgbSlot(c) => c.flash.Some? ==> AfterRead(c.flash.value) == c.flash.value
    case EmptySlot => true
  }

  /** `n` bytes as the DMG bus shows them from address `from`. */
  function DmgSlice(c: Core, from: nat, n: nat): (s: seq<byte>)
    requires c.Valid()
    ensures |s| == n
  {
    seq(n, i requires 0 <= i < n => DmgSees(c, (from + i) % 0x1_0000))
  }

  lemma DmgByteQuiet(c: Core)
    requires c.Valid() && Quiet(c.slot)
    ensures AfterDmgByte(c) == c.(address := c.address + 1)
  {
  }

  lemma {:induction false} DmgStreamQuiet(c: Core, n: nat)
    requires c.Valid() && Quiet(c.slot)
    ensures DmgStream(c, n) == (c.(address := c.address + n), DmgSlice(c, c.address, n))
  {
    if n > 0 {
      DmgStreamQuiet(c, n - 1);
      var c1 := c.(address := c.address + (n - 1));
      DmgByteQuiet(c1);
      assert DmgSlice(c, c.address, n) == DmgSlice(c, c.address, n - 1) + [DmgSees(c, c1.address % 0x1_0000)];
    }
  }

  lemma {:induction false} DmgStreamSplit(c: Core, a: nat, b: nat)
    requires c.Valid()
    ensures DmgStream(c, a + b)
         == (DmgStream(DmgStream(c, a).0, b).0, DmgStream(c, a).1 + DmgStream(DmgStream(c, a).0, b).1)
  {
    hide AfterDmgByte, DmgSees;
    var (c1, s) := DmgStream(c, a);
    if b > 0 {
      DmgStreamSplit(c, a, b - 1);
      var (c2, t) := DmgStream(c1, b - 1);
      assert DmgStream(c, a + (b - 1)) == (c2, s + t);
      var last := [DmgSees(c2, c2.address % 0x1_0000)];
      assert DmgStream(c, a + b) == (AfterDmgByte(c2), (s + t) + last);
      assert DmgStream(c1, b) == (AfterDmgByte(c2), t + last);
      assert (s + t) + last == s + (t + last);
    } else {
      assert s + [] == s;
    }
  }

  /** `n` bytes of GBA ROM space as the bus shows them from byte `from`. */
  function AgbSlice(c: Core, from: nat, n: nat): (s: seq<byte>)
    requires c.Valid()
    ensures |s| == n
  {
    seq(n, i requires 0 <= i < n => AgbSees(c, from + i))
  }

  lemma AgbWordQuiet(c: Core)
    requires c.Valid() && Quiet(c.slot)
    ensures AgbWord(c) == (c.(address := c.address + 1, addrIncremented := c.addrIncremented + 1),
                           [AgbSees(c, 2 * c.address), AgbSees(c, 2 * c.address + 1)])
  {
    assert AfterAgbByte(c) == c;
  }

  lemma AgbSeesFrame(c: Core, c1: Core, at: nat)
    requires c.Valid() && c1 == c.(address := c1.address, addrIncremented := c1.addrIncremented)
    ensures c1.Valid() && AgbSees(c1, at) == AgbSees(c, at)
  {
  }

  /** A stream that starts on a fresh address or stays short of the stall delivers every word. */
  lemma {:induction false} AgbStreamQuiet(c: Core, words: nat)
    requires c.Valid() && Quiet(c.slot)
    requires c.address >= 0x80_0000 || c.address + words <= 0x80_0000
    requires c.address == 0x80_0000 ==> c.addrIncremented == 0
    ensures AgbStream(c, words)
         == (c.(address := c.address + words, addrIncremented := c.addrIncremented + words),
             AgbSlice(c, 2 * c.address, 2 * words))
  {
    hide AgbWord, AgbSees;
    if words > 0 {
      AgbStreamQuiet(c, words - 1);
      var c1 := c.(address := c.address + (words - 1), addrIncremented := c.addrIncremented + (words - 1));
      var at := 2 * c1.address;
      assert !Stalled(c1);
      AgbWordQuiet(c1);
      AgbSeesFrame(c, c1, at);
      AgbSeesFrame(c, c1, at + 1);
      assert AgbSlice(c, 2 * c.address, 2 * words)
          == AgbSlice(c, 2 * c.address, 2 * (words - 1)) + [AgbSees(c, at), AgbSees(c, at + 1)];
    }
  }

  lemma {:induction false} CrcBytesQuiet(c: Core, start: nat, n: nat)
    requires c.Valid() && Quiet(c.slot) && c.AgbLive() && c.slot.AgbSlot?
    ensures CrcBytes(c, start, n) == (c, AgbSlice(c, start, n))
  {
    if n > 0 {
      CrcBytesQuiet(c, start, n - 1);
      assert AgbSlice(c, start, n) == AgbSlice(c, start, n - 1) + [AgbSees(c, start + n - 1)];
    }
  }
}
