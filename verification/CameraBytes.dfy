/**
 An injected photo byte by byte: what the checksums add up to, what the metadata and the thumbnail
 are made of, and which position the photo gets.
 */
module CameraBytes {
  import opened Bytes
  import opened CameraTiles
  import opened CameraAlbum

  // --- Checksums --------------------------------------------------------------------------

  function Total(data: seq<byte>): nat {
    if data == [] then 0 else data[0] as nat + Total(data[1..])
  }

  /** How many bytes have bit `k` set. */
  function Ones(data: seq<byte>, k: nat): nat {
    if data == [] then 0 else BitOf(data[0] as nat, k) + Ones(data[1..], k)
  }

  /** Two bytes check others: the first is their sum, each bit of the second the parity of theirs. */
  predicate Checks(two: seq<byte>, data: seq<byte>, sum: byte, xor: byte) {
    && |two| == 2 && two[0] as nat == (sum as nat + Total(data)) % 0x100
    && forall k :: 0 <= k < 8 ==> BitOf(two[1] as nat, k) == (BitOf(xor as nat, k) + Ones(data, k)) % 2
  }

  lemma {:induction false} TotalOn(data: seq<byte>, b: byte)
    ensures Total(data + [b]) == Total(data) + b as nat
  {
    if data == [] {
      assert ([] + [b])[1..] == [];
    } else {
      assert (data + [b])[1..] == data[1..] + [b];
      TotalOn(data[1..], b);
    }
  }

  lemma {:induction false} OnesOn(data: seq<byte>, b: byte, k: nat)
    ensures Ones(data + [b], k) == Ones(data, k) + BitOf(b as nat, k)
  {
    if data == [] {
      assert ([] + [b])[1..] == [];
    } else {
      assert (data + [b])[1..] == data[1..] + [b];
      OnesOn(data[1..], b, k);
    }
  }

  lemma LowByte(a: nat, b: nat)
    ensures (a % 0x100 + b) % 0x100 == (a + b) % 0x100
  {
  }

  lemma {:induction false} SumIs(data: seq<byte>, seed: byte)
    ensures Sum(data, seed) as nat == (seed as nat + Total(data)) % 0x100
  {
    if data != [] {
      var m := |data| - 1;
      SumIs(data[..m], seed);
      TotalOn(data[..m], data[m]);
      assert data[..m] + [data[m]] == data;
      LowByte(seed as nat + Total(data[..m]), data[m] as nat);
    }
  }

  lemma {:induction false} XorSumBit(data: seq<byte>, seed: byte, k: nat)
    ensures BitOf(XorSum(data, seed) as nat, k) == (BitOf(seed as nat, k) + Ones(data, k)) % 2
  {
    hide XorByte, BitOf;
    if data != [] {
      var m := |data| - 1;
      XorSumBit(data[..m], seed, k);
      OnesOn(data[..m], data[m], k);
      XorBit(XorSum(data[..m], seed) as nat, data[m] as nat, k);
      assert data[..m] + [data[m]] == data;
    }
  }

  lemma ChecksumChecks(data: seq<byte>, sum: byte, xor: byte)
    ensures Checks(Checksum(data, sum, xor), data, sum, xor)
  {
    hide Sum, XorSum, BitOf;
    SumIs(data, sum);
    forall k | 0 <= k < 8
      ensures BitOf(XorSum(data, xor) as nat, k) == (BitOf(xor as nat, k) + Ones(data, k)) % 2
    {
      XorSumBit(data, xor, k);
    }
  }

  /** The word both kinds of block carry. */
  predicate SaysMagic(save: seq<byte>, at: nat)
    requires at + 5 <= |save|
  {
    && save[at] as char == 'M' && save[at + 1] as char == 'a' && save[at + 2] as char == 'g'
    && save[at + 3] as char == 'i' && save[at + 4] as char == 'c'
  }

  lemma MagicSaid(save: seq<byte>, at: nat)
    requires at + 5 <= |save| && save[at..at + 5] == MAGIC
    ensures SaysMagic(save, at)
  {
    var word := save[at..at + 5];
    assert word[0] == save[at] && word[1] == save[at + 1] && word[2] == save[at + 2] && word[3] == save[at + 3];
    assert word[4] == save[at + 4];
  }

  /** Image, metadata and directory of the save after injection each carry their checksum, and the magic. */
  lemma InjectedChecksums(save: seq<byte>, slot: nat, image: seq<byte>, frame: byte)
    requires |save| >= SAVE_SIZE && slot < SLOTS && |image| == PHOTO_PIXELS
    ensures var now := Injected(save, slot, image, frame);
            var base := 0x2000 + slot * 0x1000;
            && Checks(now[base + 0xF34..base + 0xF36], now[base..base + 0xE00], 0, 0)
            && Checks(now[base + 0xF5A..base + 0xF5C], now[base + 0xF00..base + 0xF55], 0x2F, 0x15)
            && Checks(now[0x11D5..0x11D7], now[0x11B2..0x11D0], 0x2F, 0x15)
            && SaysMagic(now, base + 0xF55) && SaysMagic(now, 0x11D0)
            && now[base + 0xF54] == frame
  {
    hide Injected, Checks, Checksum, Entered;
    InjectedValid(save, slot, image, frame);
    var now := Injected(save, slot, image, frame);
    var base := SlotBase(slot);
    ChecksumChecks(now[base..base + 0xE00], 0, 0);
    ChecksumChecks(now[base + 0xF00..base + 0xF55], 0x2F, 0x15);
    ChecksumChecks(now[0x11B2..0x11D0], 0x2F, 0x15);
    MetaPlaces(now, base);
    MagicSaid(now, 0x11D0);
    MagicSaid(now, base + 0xF55);
  }

  /** The parts of a metadata block, counted from the slot. */
  lemma MetaPlaces(now: seq<byte>, base: nat)
    requires base + 0xF5C <= |now|
    ensures var meta := now[base + 0xF00..base + 0xF5C];
            && meta[0x34..0x36] == now[base + 0xF34..base + 0xF36] && meta[..0x55] == now[base + 0xF00..base + 0xF55]
            && meta[0x55..0x5A] == now[base + 0xF55..base + 0xF5A] && meta[0x5A..] == now[base + 0xF5A..base + 0xF5C]
  {
    var meta := now[base + 0xF00..base + 0xF5C];
    SubSlice(now, base + 0xF00, base + 0xF5C, 0x34, 0x36);
    SubSlice(now, base + 0xF00, base + 0xF5C, 0, 0x55);
    SubSlice(now, base + 0xF00, base + 0xF5C, 0x55, 0x5A);
    SubSlice(now, base + 0xF00, base + 0xF5C, 0x5A, 0x5C);
    assert meta[..0x55] == meta[0..0x55] && meta[0x5A..] == meta[0x5A..0x5C];
  }

  // --- Position ---------------------------------------------------------------------------

  /** The occupied slots below `k` other than `slot`. */
  function OtherSlots(dir: seq<byte>, slot: nat, k: nat): set<nat>
    requires k <= |dir|
  {
    set s | 0 <= s < k && s != slot && dir[s] != 0xFF
  }

  lemma {:induction false} OthersCounted(dir: seq<byte>, slot: nat, k: nat)
    requires k <= |dir|
    ensures Others(dir, slot, k) == |OtherSlots(dir, slot, k)|
  {
    if k > 0 {
      OthersCounted(dir, slot, k - 1);
      var before, now := OtherSlots(dir, slot, k - 1), OtherSlots(dir, slot, k);
      if k - 1 != slot && dir[k - 1] != 0xFF {
        assert now == before + {k - 1};
      } else {
        assert now == before;
      }
    }
  }

  /** The photo's position is the number of the other photos; no other position changes. */
  lemma InjectedPosition(save: seq<byte>, slot: nat, image: seq<byte>, frame: byte, s: nat)
    requires |save| >= SAVE_SIZE && slot < SLOTS && |image| == PHOTO_PIXELS && s < 30
    ensures var now := Injected(save, slot, image, frame);
            now[0x11B2 + s] as nat
              == if s == slot then |OtherSlots(save[0x11B2..0x11D0], slot, 30)| else save[0x11B2 + s] as nat
  {
    hide Injected, Others, OtherSlots;
    InjectedValid(save, slot, image, frame);
    var now, dir := Injected(save, slot, image, frame), save[DIR..DIR + SLOTS];
    OthersCounted(dir, slot, SLOTS);
    assert now[0x11B2 + s] == now[DIR..DIR + SLOTS][s] && save[0x11B2 + s] == dir[s];
  }

  // --- Metadata and thumbnail ---------------------------------------------------------------

  /** Which photo's metadata is copied: the first shown that is not in `slot`. */
  predicate FirstOther(slots: seq<nat>, slot: nat, t: nat) {
    exists k :: 0 <= k < |slots| && slots[k] == t != slot && forall j :: 0 <= j < k ==> slots[j] == slot
  }

  lemma {:induction false} TemplateIs(slots: seq<nat>, slot: nat)
    ensures Template(slots, slot).None? ==> forall s :: s in slots ==> s == slot
    ensures Template(slots, slot).Some? ==> FirstOther(slots, slot, Template(slots, slot).value)
  {
    if slots != [] {
      if slots[0] == slot {
        TemplateIs(slots[1..], slot);
        if Template(slots, slot).Some? {
          var t := Template(slots, slot).value;
          var rest := slots[1..];
          var k :| 0 <= k < |rest| && rest[k] == t != slot && forall j :: 0 <= j < k ==> rest[j] == slot;
          assert slots[k + 1] == t;
          assert forall j :: 0 <= j < k + 1 ==> slots[j] == if j == 0 then slot else rest[j - 1];
        } else {
          assert forall s :: s in slots ==> s == slots[0] || s in slots[1..];
        }
      } else {
        assert slots[0] == slots[0] != slot;
      }
    }
  }

  /**
   Apart from its checksums, frame and magic, the metadata is that of the first other photo shown,
   or zeros if there is none.
   */
  lemma InjectedMeta(save: seq<byte>, slot: nat, image: seq<byte>, frame: byte, t: nat, i: nat)
    requires |save| >= SAVE_SIZE && slot < SLOTS && |image| == PHOTO_PIXELS
    requires i < 0x34 || 0x36 <= i < 0x54
    ensures var now := Injected(save, slot, image, frame);
            var at := 0x2000 + slot * 0x1000 + 0xF00 + i;
            && ((forall s :: s in PhotoSlots(save) ==> s == slot) ==> now[at] == 0)
            && (t < 30 && FirstOther(PhotoSlots(save), slot, t) ==> now[at] == save[0x2000 + t * 0x1000 + 0xF00 + i])
  {
    hide Injected, MetaTemplate, PhotoSlots, Template, FirstOther;
    var slots := PhotoSlots(save);
    TemplateIs(slots, slot);
    MetaAt(save, slot, image, frame, i);
    if Template(slots, slot).Some? {
      SomeOther(slots, slot, Template(slots, slot).value);
    }
    if t < 30 && FirstOther(slots, slot, t) {
      OneFirst(slots, slot, t);
    }
    FromTemplate(save, slot, i);
  }

  lemma MetaAt(save: seq<byte>, slot: nat, image: seq<byte>, frame: byte, i: nat)
    requires |save| >= SAVE_SIZE && slot < SLOTS && |image| == PHOTO_PIXELS && (i < 0x34 || 0x36 <= i < 0x54)
    ensures Injected(save, slot, image, frame)[SlotBase(slot) + 0xF00 + i] == MetaTemplate(save, slot)[i]
  {
    hide Encoded, Meta, MetaTemplate, Entered, Thumbnail, DirBlock;
    var now, base := Injected(save, slot, image, frame), SlotBase(slot);
    PhotoTiled(image);
    var tiles := Encoded(image, PHOTO_WIDTH, PHOTO_HEIGHT);
    var meta := Meta(MetaTemplate(save, slot), tiles, frame);
    var block := SlotBlock(save, slot, image, frame);
    assert now[base + 0xF00 + i] == block[0xF00 + i] == meta[i];
    MetaFrom(MetaTemplate(save, slot), tiles, frame, i);
  }

  lemma FromTemplate(save: seq<byte>, slot: nat, i: nat)
    requires |save| >= SAVE_SIZE && slot < SLOTS && i < META_SIZE
    ensures var t := Template(PhotoSlots(save), slot);
            MetaTemplate(save, slot)[i] == if t.None? then 0 else
              if t.value < SLOTS then save[SlotBase(t.value) + 0xF00 + i] else 0
  {
    hide PhotoSlots, Template;
    ShownInside(save);
    TemplateShown(save[DIR..DIR + SLOTS], PhotoSlots(save), slot);
  }

  lemma SomeOther(slots: seq<nat>, slot: nat, t: nat)
    requires FirstOther(slots, slot, t)
    ensures t in slots && t != slot
  {
  }

  lemma MetaFrom(template: seq<byte>, tiles: seq<byte>, frame: byte, i: nat)
    requires |template| == META_SIZE && (i < 0x34 || 0x36 <= i < 0x54)
    ensures Meta(template, tiles, frame)[i] == template[i]
  {
    hide Checksum;
  }

  lemma OneFirst(slots: seq<nat>, slot: nat, t: nat)
    requires FirstOther(slots, slot, t)
    ensures Template(slots, slot) == Some(t)
  {
    TemplateIs(slots, slot);
    var k :| 0 <= k < |slots| && slots[k] == t != slot && forall j :: 0 <= j < k ==> slots[j] == slot;
    assert t in slots;
    var u := Template(slots, slot).value;
    var l :| 0 <= l < |slots| && slots[l] == u != slot && forall j :: 0 <= j < l ==> slots[j] == slot;
    assert k == l;
  }

  /** The thumbnail is every fourth column of every third or fourth row, two rows out of seven. */
  lemma ThumbnailIs(image: seq<byte>, x: nat, y: nat)
    requires |image| == PHOTO_PIXELS && x < 32 && y < 32
    ensures Thumbnail(image)[32 * y + x] == image[7 * y / 2 * 128 + 4 * x]
  {
    assert (32 * y + x) / 32 == y && (32 * y + x) % 32 == x;
    assert y * 112 / 32 == 7 * y / 2 && x * 128 / 32 == 4 * x;
  }

  /** The thumbnail's tiles stand behind the photo's. */
  lemma InjectedThumbnail(save: seq<byte>, slot: nat, image: seq<byte>, frame: byte)
    requires |save| >= SAVE_SIZE && slot < SLOTS && |image| == PHOTO_PIXELS
    ensures var base := 0x2000 + slot * 0x1000;
            Injected(save, slot, image, frame)[base + 0xE00..base + 0xF00] == Encoded(Thumbnail(image), 32, 32)
  {
    hide Encoded, Meta, MetaTemplate, Entered, Thumbnail, DirBlock;
    var now, base := Injected(save, slot, image, frame), SlotBase(slot);
    var block := SlotBlock(save, slot, image, frame);
    PhotoTiled(image);
    assert forall i :: 0xE00 <= i < 0xF00 ==> now[base + i] == block[i];
    assert block[0xE00..0xF00] == Encoded(Thumbnail(image), 32, 32);
  }

  // --- The list ---------------------------------------------------------------------------

  /** A save too short for a directory shows nothing; any other its slots with a position below 30, by position. */
  lemma ListBytes(save: seq<byte>)
    ensures |save| < 0x11D0 ==> PhotoSlots(save) == []
    ensures |save| >= 0x11D0 ==>
      var w, dir := PhotoSlots(save), save[0x11B2..0x11D0];
      && (forall s: nat :: s in w <==> s < 30 && dir[s] < 30)
      && forall i, j :: 0 <= i < j < |w| ==>
           w[i] < 30 && w[j] < 30 && (dir[w[i]] < dir[w[j]] || (dir[w[i]] == dir[w[j]] && w[i] < w[j]))
  {
    hide ShownBelow;
    if |save| >= 0x11D0 {
      var dir := save[0x11B2..0x11D0];
      ShownIsSorted(dir, SLOTS);
      var w := PhotoSlots(save);
      assert w == ShownBelow(dir, SLOTS);
      assert forall i, j :: 0 <= i < j < |w| ==> InOrder(dir, w[i], w[j]);
    }
  }
}
