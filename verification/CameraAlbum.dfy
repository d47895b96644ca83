/**
 The Game Boy Camera's album: a directory of display positions by slot, checksummed and doubled, and
 putting a photo into a slot of a save.
 */
module CameraAlbum {
  import opened Bytes
  import opened CameraTiles

  const DIR: nat := 0x11B2
  const SLOTS: nat := 30
  const SLOT0: nat := 0x2000
  const SLOT_SIZE: nat := 0x1000
  const SAVE_SIZE: nat := 0x2_0000
  const META_SIZE: nat := 0x5C
  const EMPTY: byte := 0xFF
  const MAGIC: seq<byte> := [0x4D, 0x61, 0x67, 0x69, 0x63]

  function SlotBase(slot: nat): nat {
    SLOT0 + slot * SLOT_SIZE
  }

  // --- Display order --------------------------------------------------------------------

  /** The slots below `k` shown at position `pos`, in slot order. */
  function WithPosition(dir: seq<byte>, pos: nat, k: nat): seq<nat>
    requires k <= |dir|
  {
    if k == 0 then []
    else
      var before := WithPosition(dir, pos, k - 1);
      if dir[k - 1] as nat == pos then before + [k - 1] else before
  }

  /** The slots shown at positions below `pos`, in display order. */
  function ShownBelow(dir: seq<byte>, pos: nat): seq<nat> {
    if pos == 0 then [] else ShownBelow(dir, pos - 1) + WithPosition(dir, pos - 1, |dir|)
  }

  /** The photos of an album in display order: sorted by position, by slot among equal positions. */
  function PhotoSlots(save: seq<byte>): seq<nat> {
    if |save| < DIR + SLOTS then [] else ShownBelow(save[DIR..DIR + SLOTS], SLOTS)
  }

  predicate InOrder(dir: seq<byte>, s: nat, t: nat) {
    s < |dir| && t < |dir| && (dir[s] < dir[t] || (dir[s] == dir[t] && s < t))
  }

  lemma {:induction false} WithPositionIs(dir: seq<byte>, pos: nat, k: nat)
    requires k <= |dir|
    ensures var w := WithPosition(dir, pos, k);
            && (forall s: nat :: s in w <==> s < k && dir[s] as nat == pos)
            && (forall i, j :: 0 <= i < j < |w| ==> w[i] < w[j])
  {
    if k > 0 {
      WithPositionIs(dir, pos, k - 1);
      var before := WithPosition(dir, pos, k - 1);
      assert forall i :: 0 <= i < |before| ==> before[i] in before;
    }
  }

  /** The list is exactly the occupied slots, stably sorted by position. */
  lemma {:induction false} ShownIsSorted(dir: seq<byte>, pos: nat)
    ensures var w := ShownBelow(dir, pos);
            && (forall s: nat :: s in w <==> s < |dir| && dir[s] as nat < pos)
            && (forall i, j :: 0 <= i < j < |w| ==> InOrder(dir, w[i], w[j]))
  {
    if pos > 0 {
      ShownIsSorted(dir, pos - 1);
      WithPositionIs(dir, pos - 1, |dir|);
      var before, more, w := ShownBelow(dir, pos - 1), WithPosition(dir, pos - 1, |dir|), ShownBelow(dir, pos);
      forall i, j | 0 <= i < j < |w|
        ensures InOrder(dir, w[i], w[j])
      {
        if i < |before| {
          assert before[i] in before;
        } else {
          assert more[i - |before|] in more;
        }
        if j >= |before| {
          assert more[j - |before|] in more;
        }
      }
    }
  }

  // --- Well-formed albums ---------------------------------------------------------------

  /** How many of the first `k` slots, not counting `slot`, are occupied. */
  function Others(dir: seq<byte>, slot: nat, k: nat): (n: nat)
    requires k <= |dir|
    ensures n <= k && (slot < k ==> n < k)
  {
    if k == 0 then 0
    else Others(dir, slot, k - 1) + (if k - 1 != slot && dir[k - 1] != EMPTY then 1 else 0)
  }

  function Photos(dir: seq<byte>): nat {
    Others(dir, |dir|, |dir|)
  }

  /** Positions are 0 up to the number of photos, each held by one slot. */
  predicate WellFormed(dir: seq<byte>) {
    && |dir| == SLOTS
    && (forall s :: 0 <= s < SLOTS && dir[s] != EMPTY ==> dir[s] as nat < Photos(dir))
    && (forall s, t :: 0 <= s < t < SLOTS && dir[s] != EMPTY ==> dir[s] != dir[t])
    && (forall p :: 0 <= p < Photos(dir) ==> Held(dir, p))
  }

  predicate Held(dir: seq<byte>, p: nat) {
    exists s :: 0 <= s < |dir| && dir[s] as nat == p && dir[s] != EMPTY
  }

  lemma {:induction false} OthersOf(dir: seq<byte>, slot: nat, k: nat)
    requires k <= |dir| && slot < |dir|
    ensures Others(dir, |dir|, k) == Others(dir, slot, k) + (if slot < k && dir[slot] != EMPTY then 1 else 0)
  {
    if k > 0 {
      OthersOf(dir, slot, k - 1);
    }
  }

  lemma {:induction false} OthersUpdated(dir: seq<byte>, slot: nat, v: byte, k: nat)
    requires k <= |dir| && slot < |dir|
    ensures Others(dir[slot := v], slot, k) == Others(dir, slot, k)
  {
    if k > 0 {
      OthersUpdated(dir, slot, v, k - 1);
    }
  }

  /** The position a photo put into `slot` gets. */
  function NewPosition(dir: seq<byte>, slot: nat): byte
    requires |dir| == SLOTS && slot < SLOTS
  {
    Others(dir, slot, SLOTS) as byte
  }

  function Entered(dir: seq<byte>, slot: nat): seq<byte>
    requires |dir| == SLOTS && slot < SLOTS
  {
    dir[slot := NewPosition(dir, slot)]
  }

  lemma PhotosEntered(dir: seq<byte>, slot: nat)
    requires |dir| == SLOTS && slot < SLOTS
    ensures NewPosition(dir, slot) as nat < SLOTS
    ensures Photos(Entered(dir, slot)) == NewPosition(dir, slot) as nat + 1
    ensures Photos(dir) == NewPosition(dir, slot) as nat + (if dir[slot] != EMPTY then 1 else 0)
  {
    OthersOf(dir, slot, SLOTS);
    OthersOf(Entered(dir, slot), slot, SLOTS);
    OthersUpdated(dir, slot, NewPosition(dir, slot), SLOTS);
  }

  /** An album stays well formed exactly when the slot was free or held the last photo. */
  lemma EnteredWellFormed(dir: seq<byte>, slot: nat)
    requires WellFormed(dir) && slot < SLOTS
    ensures WellFormed(Entered(dir, slot)) <==> dir[slot] == EMPTY || dir[slot] as nat == Photos(dir) - 1
  {
    PhotosEntered(dir, slot);
    var now := Entered(dir, slot);
    if dir[slot] == EMPTY {
      FreeSlotFills(dir, slot);
    } else if dir[slot] as nat == Photos(dir) - 1 {
      assert now == dir;
    } else {
      var last := Photos(dir) - 1;
      assert Held(dir, last);
      var t :| 0 <= t < |dir| && dir[t] as nat == last && dir[t] != EMPTY;
      assert now[t] == now[slot] && t != slot;
    }
  }

  lemma FreeSlotFills(dir: seq<byte>, slot: nat)
    requires WellFormed(dir) && slot < SLOTS && dir[slot] == EMPTY
    ensures WellFormed(Entered(dir, slot))
  {
    PhotosEntered(dir, slot);
    var now := Entered(dir, slot);
    forall p | 0 <= p < Photos(now)
      ensures Held(now, p)
    {
      if p == Photos(dir) {
        assert now[slot] as nat == p;
      } else {
        assert Held(dir, p);
        var s :| 0 <= s < |dir| && dir[s] as nat == p && dir[s] != EMPTY;
        assert now[s] == dir[s];
      }
    }
  }

  lemma {:induction false} SamePosition(dir: seq<byte>, now: seq<byte>, pos: nat, k: nat)
    requires k <= |dir| == |now| && forall s :: 0 <= s < k ==> (dir[s] as nat == pos <==> now[s] as nat == pos)
    ensures WithPosition(dir, pos, k) == WithPosition(now, pos, k)
  {
    if k > 0 {
      SamePosition(dir, now, pos, k - 1);
    }
  }

  lemma {:induction false} OnlyPosition(dir: seq<byte>, pos: nat, slot: nat, k: nat)
    requires k <= |dir| && forall s :: 0 <= s < k ==> (dir[s] as nat == pos <==> s == slot)
    ensures WithPosition(dir, pos, k) == if slot < k then [slot] else []
  {
    if k > 0 {
      OnlyPosition(dir, pos, slot, k - 1);
    }
  }

  lemma {:induction false} NothingShown(dir: seq<byte>, from: nat, to: nat)
    requires from <= to && forall s :: 0 <= s < |dir| ==> !(from <= dir[s] as nat < to)
    ensures ShownBelow(dir, to) == ShownBelow(dir, from)
  {
    if from < to {
      NothingShown(dir, from, to - 1);
      OnlyPosition(dir, to - 1, |dir|, |dir|);
    }
  }

  lemma {:induction false} SameShown(dir: seq<byte>, now: seq<byte>, pos: nat)
    requires |dir| == |now|
    requires forall s :: 0 <= s < |dir| ==> dir[s] == now[s] || (dir[s] as nat >= pos && now[s] as nat >= pos)
    ensures ShownBelow(dir, pos) == ShownBelow(now, pos)
  {
    if pos > 0 {
      SameShown(dir, now, pos - 1);
      SamePosition(dir, now, pos - 1, |dir|);
    }
  }

  /** Filling a free slot appends it to the display order. */
  lemma EnteredAppends(dir: seq<byte>, slot: nat)
    requires WellFormed(dir) && slot < SLOTS && dir[slot] == EMPTY
    ensures ShownBelow(Entered(dir, slot), SLOTS) == ShownBelow(dir, SLOTS) + [slot]
  {
    var now, n := Entered(dir, slot), Photos(dir);
    PhotosEntered(dir, slot);
    SameShown(dir, now, n);
    NothingShown(dir, n, SLOTS);
    NothingShown(now, n + 1, SLOTS);
    OnlyPosition(now, n, slot, SLOTS);
  }

  // --- Checksums ------------------------------------------------------------------------

  function Sum(data: seq<byte>, seed: byte): byte {
    if data == [] then seed
    else ((Sum(data[..|data| - 1], seed) as nat + data[|data| - 1] as nat) % 0x100) as byte
  }

  function XorSum(data: seq<byte>, seed: byte): byte {
    if data == [] then seed else XorByte(XorSum(data[..|data| - 1], seed), data[|data| - 1])
  }

  function Checksum(data: seq<byte>, sum: byte, xor: byte): (c: seq<byte>)
    ensures |c| == 2
  {
    [Sum(data, sum), XorSum(data, xor)]
  }

  method CameraChecksum(data: seq<byte>, sum0: byte, xor0: byte) returns (c: seq<byte>)
    ensures c == Checksum(data, sum0, xor0)
  {
    hide XorByte;
    var sum, xor := sum0, xor0;
    for i := 0 to |data|
      invariant sum == Sum(data[..i], sum0) && xor == XorSum(data[..i], xor0)
    {
      assert data[..i + 1][..i] == data[..i];
      sum := ((sum as nat + data[i] as nat) % 0x100) as byte;
      xor := XorByte(xor, data[i]);
    }
    assert data[..|data|] == data;
    c := [sum, xor];
  }

  /** The checksum of directory and metadata blocks. */
  function BlockChecksum(data: seq<byte>): (c: seq<byte>)
    ensures |c| == 2
  {
    Checksum(data, 0x2F, 0x15)
  }

  // --- Injection ------------------------------------------------------------------------

  function Thumbnail(image: seq<byte>): (s: seq<byte>)
    requires |image| == PHOTO_PIXELS
    ensures |s| == 1024
  {
    seq(1024, i requires 0 <= i < 1024 => image[i / 32 * 112 / 32 * 128 + i % 32 * 128 / 32])
  }

  method DownscaleThumbnail(image: seq<byte>) returns (out: seq<byte>)
    requires |image| == PHOTO_PIXELS
    ensures out == Thumbnail(image)
  {
    var small := new byte[1024](_ => 0);
    for ty := 0 to 32
      invariant forall i :: 0 <= i < ty * 32 ==> small[i] == Thumbnail(image)[i]
    {
      for tx := 0 to 32
        invariant forall i :: 0 <= i < ty * 32 + tx ==> small[i] == Thumbnail(image)[i]
      {
        assert (ty * 32 + tx) / 32 == ty && (ty * 32 + tx) % 32 == tx;
        small[ty * 32 + tx] := image[ty * 112 / 32 * 128 + tx * 128 / 32];
      }
    }
    out := small[..];
    assert out == Thumbnail(image);
  }

  /** The first photo in display order other than the one in `slot`. */
  function Template(slots: seq<nat>, slot: nat): Option<nat> {
    if slots == [] then None
    else if slots[0] != slot then Some(slots[0])
    else Template(slots[1..], slot)
  }

  lemma {:induction false} TemplateShown(dir: seq<byte>, slots: seq<nat>, slot: nat)
    requires forall i :: 0 <= i < |slots| ==> slots[i] < |dir|
    ensures Template(slots, slot).Some? ==> Template(slots, slot).value < |dir| && Template(slots, slot).value != slot
  {
    if slots != [] && slots[0] == slot {
      TemplateShown(dir, slots[1..], slot);
    }
  }

  lemma ShownInside(save: seq<byte>)
    requires |save| >= SAVE_SIZE
    ensures forall i :: 0 <= i < |PhotoSlots(save)| ==> PhotoSlots(save)[i] < SLOTS
  {
    var slots := PhotoSlots(save);
    ShownIsSorted(save[DIR..DIR + SLOTS], SLOTS);
    assert forall i :: 0 <= i < |slots| ==> slots[i] in slots;
  }

  /** The metadata a new photo starts from: another photo's, or zeros. */
  function MetaTemplate(save: seq<byte>, slot: nat): (m: seq<byte>)
    requires |save| >= SAVE_SIZE && slot < SLOTS
    ensures |m| == META_SIZE
  {
    ShownInside(save);
    TemplateShown(save[DIR..DIR + SLOTS], PhotoSlots(save), slot);
    var t := Template(PhotoSlots(save), slot);
    if t.None? then seq(META_SIZE, _ => 0)
    else save[SlotBase(t.value) + 0xF00..SlotBase(t.value) + 0xF00 + META_SIZE]
  }

  /** A photo's metadata block: image checksum, frame, magic, block checksum. */
  function Meta(template: seq<byte>, tiles: seq<byte>, frame: byte): (m: seq<byte>)
    requires |template| == META_SIZE
    ensures |m| == META_SIZE
  {
    var data := template[..0x34] + Checksum(tiles, 0x00, 0x00) + template[0x36..0x54] + [frame];
    data + MAGIC + BlockChecksum(data)
  }

  /** What injection writes into the slot. */
  function SlotBlock(save: seq<byte>, slot: nat, image: seq<byte>, frame: byte): (b: seq<byte>)
    requires |save| >= SAVE_SIZE && slot < SLOTS && |image| == PHOTO_PIXELS
    ensures |b| == 0xFB8
  {
    PhotoTiled(image);
    var tiles := Encoded(image, PHOTO_WIDTH, PHOTO_HEIGHT);
    var meta := Meta(MetaTemplate(save, slot), tiles, frame);
    tiles + Encoded(Thumbnail(image), 32, 32) + meta + meta
  }

  /** A directory with its magic and checksum, twice. */
  function DirBlock(dir: seq<byte>): (b: seq<byte>)
    requires |dir| == SLOTS
    ensures |b| == 74
  {
    var block := dir + MAGIC + BlockChecksum(dir);
    block + block
  }

  /** The save with a photo in `slot`. */
  function Injected(save: seq<byte>, slot: nat, image: seq<byte>, frame: byte): (r: seq<byte>)
    requires |save| >= SAVE_SIZE && slot < SLOTS && |image| == PHOTO_PIXELS
    ensures |r| == |save|
  {
    var dir := save[DIR..DIR + SLOTS];
    Spliced(Spliced(save, SlotBase(slot), SlotBlock(save, slot, image, frame)), DIR, DirBlock(Entered(dir, slot)))
  }

  datatype InjectError = NotACameraSave | SlotOutOfRange | WrongImageSize

  /** Overwrite a stretch of the save. */
  method Put(save: array<byte>, at: nat, data: seq<byte>)
    requires at + |data| <= save.Length
    modifies save
    ensures save[..] == Spliced(old(save[..]), at, data)
  {
    for i := 0 to |data|
      invariant save[..] == Spliced(old(save[..]), at, data[..i])
    {
      save[at + i] := data[i];
    }
    assert data[..|data|] == data;
  }

  method MakeMeta(template: seq<byte>, tiles: seq<byte>, frame: byte) returns (meta: seq<byte>)
    requires |template| == META_SIZE
    ensures meta == Meta(template, tiles, frame)
  {
    hide Checksum;
    meta := template;
    var crc := CameraChecksum(tiles, 0x00, 0x00);
    meta := Spliced(meta, 0x34, crc);
    meta := meta[0x54 := frame];
    meta := Spliced(meta, 0x55, MAGIC);
    var block := CameraChecksum(meta[..0x55], 0x2F, 0x15);
    ghost var data := template[..0x34] + crc + template[0x36..0x54] + [frame];
    assert meta[..0x55] == data;
    meta := Spliced(meta, 0x5A, block);
    assert meta == data + MAGIC + block;
  }

  /** Tiles, thumbnail and metadata into the slot. */
  method WriteSlot(save: array<byte>, slot: nat, image: seq<byte>, frame: byte)
    requires save.Length >= SAVE_SIZE && slot < SLOTS && |image| == PHOTO_PIXELS
    modifies save
    ensures save[..] == Spliced(old(save[..]), SlotBase(slot), SlotBlock(old(save[..]), slot, image, frame))
  {
    hide Encoded, Meta, Thumbnail, PhotoSlots, Template;
    ghost var was := save[..];
    var base := SLOT0 + slot * SLOT_SIZE;
    PhotoTiled(image);
    var tiles := EncodeTiles(image, PHOTO_WIDTH, PHOTO_HEIGHT);
    Put(save, base, tiles[..]);
    var small := DownscaleThumbnail(image);
    var thumb := EncodeTiles(small, 32, 32);
    Put(save, base + 0xE00, thumb[..]);
    SplicedTwice(was, base, tiles[..], thumb[..]);
    var front := tiles[..] + thumb[..];
    TemplateKept(was, save[..], slot, front);
    var meta := MakeMeta(MetaTemplate(save[..], slot), tiles[..], frame);
    Put(save, base + 0xF00, meta);
    SplicedTwice(was, base, front, meta);
    Put(save, base + 0xF5C, meta);
    SplicedTwice(was, base, front + meta, meta);
  }

  /** Writing into a slot does not touch the metadata another photo offers. */
  lemma TemplateKept(was: seq<byte>, now: seq<byte>, slot: nat, front: seq<byte>)
    requires |was| >= SAVE_SIZE && slot < SLOTS && |front| <= SLOT_SIZE && now == Spliced(was, SlotBase(slot), front)
    ensures MetaTemplate(now, slot) == MetaTemplate(was, slot)
  {
    hide ShownBelow, Template;
    assert now[DIR..DIR + SLOTS] == was[DIR..DIR + SLOTS];
    ShownInside(was);
    TemplateShown(was[DIR..DIR + SLOTS], PhotoSlots(was), slot);
    var t := Template(PhotoSlots(was), slot);
    if t.Some? {
      var at := SlotBase(t.value) + 0xF00;
      assert now[at..at + META_SIZE] == was[at..at + META_SIZE];
    }
  }

  /** Count the occupied slots other than `slot`. */
  method CountOthers(dir: seq<byte>, slot: nat) returns (n: nat)
    requires |dir| == SLOTS && slot < SLOTS
    ensures n == Others(dir, slot, SLOTS)
  {
    n := 0;
    for i := 0 to SLOTS
      invariant n == Others(dir, slot, i)
    {
      if i != slot && dir[i] != EMPTY {
        n := n + 1;
      }
    }
  }

  /** The new directory entry, then magic, checksum and echo. */
  method WriteDirectory(save: array<byte>, slot: nat)
    requires save.Length >= SAVE_SIZE && slot < SLOTS
    modifies save
    ensures save[..] == Spliced(old(save[..]), DIR, DirBlock(Entered(old(save[..])[DIR..DIR + SLOTS], slot)))
  {
    hide Checksum, Others;
    ghost var was := save[..];
    ghost var dir := Entered(was[DIR..DIR + SLOTS], slot);
    var position := CountOthers(save[DIR..DIR + SLOTS], slot);
    save[DIR + slot] := position as byte;
    assert save[DIR..DIR + SLOTS] == dir;
    assert save[..] == Spliced(was, DIR, dir);
    Put(save, 0x11D0, MAGIC);
    SplicedTwice(was, DIR, dir, MAGIC);
    assert save[DIR..DIR + SLOTS] == dir;
    var crc := CameraChecksum(save[DIR..DIR + SLOTS], 0x2F, 0x15);
    Put(save, 0x11D5, crc);
    SplicedTwice(was, DIR, dir + MAGIC, crc);
    var block := save[DIR..DIR + 37];
    assert block == dir + MAGIC + crc;
    Put(save, 0x11D7, block);
    SplicedTwice(was, DIR, block, block);
  }

  /** Inject a photo into a slot of a camera save. */
  method InjectPhoto(save: array<byte>, slot: nat, image: seq<byte>, frame: byte) returns (r: Result<(), InjectError>)
    modifies save
    ensures r == if save.Length < SAVE_SIZE then Err(NotACameraSave)
                 else if slot >= SLOTS then Err(SlotOutOfRange)
                 else if |image| != PHOTO_PIXELS then Err(WrongImageSize)
                 else Ok(())
    ensures r.Err? ==> save[..] == old(save[..])
    ensures r.Ok? ==> save[..] == Injected(old(save[..]), slot, image, frame)
  {
    hide SlotBlock, DirBlock;
    if save.Length < SAVE_SIZE {
      return Err(NotACameraSave);
    }
    if slot >= SLOTS {
      return Err(SlotOutOfRange);
    }
    if |image| != PHOTO_PIXELS {
      return Err(WrongImageSize);
    }
    ghost var was := save[..];
    WriteSlot(save, slot, image, frame);
    assert save[..][DIR..DIR + SLOTS] == was[DIR..DIR + SLOTS];
    WriteDirectory(save, slot);
    r := Ok(());
  }

  // --- What injection achieves ----------------------------------------------------------

  /** A slot's 4 KiB. */
  function SlotBytes(save: seq<byte>, slot: nat): seq<byte>
    requires |save| >= SAVE_SIZE && slot < SLOTS
  {
    save[SlotBase(slot)..SlotBase(slot) + SLOT_SIZE]
  }

  /** The photo in a slot. */
  function PhotoIn(save: seq<byte>, slot: nat): seq<byte>
    requires |save| >= SAVE_SIZE && slot < SLOTS
  {
    Decoded(save[SlotBase(slot)..SlotBase(slot) + PHOTO_BYTES])
  }

  /** The photo reads back in the camera's shades, and every other slot keeps its bytes. */
  lemma InjectedPhoto(save: seq<byte>, slot: nat, image: seq<byte>, frame: byte)
    requires |save| >= SAVE_SIZE && slot < SLOTS && |image| == PHOTO_PIXELS
    ensures var now := Injected(save, slot, image, frame);
            && |PhotoIn(now, slot)| == PHOTO_PIXELS
            && (forall i :: 0 <= i < PHOTO_PIXELS ==> PhotoIn(now, slot)[i] == Quantized(image[i]))
            && (forall t :: 0 <= t < SLOTS && t != slot ==> SlotBytes(now, t) == SlotBytes(save, t))
  {
    hide Decoded, Encoded, Quantized, Meta, DirBlock, Entered, MetaTemplate;
    var now := Injected(save, slot, image, frame);
    DecodeEncoded(image);
    var tiles := Encoded(image, PHOTO_WIDTH, PHOTO_HEIGHT);
    var base := SlotBase(slot);
    var block := SlotBlock(save, slot, image, frame);
    assert block[..PHOTO_BYTES] == tiles;
    assert now[base..base + PHOTO_BYTES] == tiles;
    forall t | 0 <= t < SLOTS && t != slot
      ensures SlotBytes(now, t) == SlotBytes(save, t)
    {
      SlotsApart(slot, t);
    }
  }

  lemma SlotsApart(s: nat, t: nat)
    requires s != t
    ensures SlotBase(s) + SLOT_SIZE <= SlotBase(t) || SlotBase(t) + SLOT_SIZE <= SlotBase(s)
  {
  }

  /** Image checksum, metadata checksum, magic and echo of a slot are in order. */
  predicate SlotValid(save: seq<byte>, slot: nat)
    requires |save| >= SAVE_SIZE && slot < SLOTS
  {
    var base := SlotBase(slot);
    var meta := save[base + 0xF00..base + 0xF5C];
    && meta[0x34..0x36] == Checksum(save[base..base + 0xE00], 0x00, 0x00)
    && meta[0x55..0x5A] == MAGIC && meta[0x5A..] == BlockChecksum(meta[..0x55])
    && save[base + 0xF5C..base + 0xFB8] == meta
  }

  /** Magic, checksum and echo of the directory are in order. */
  predicate DirectoryValid(save: seq<byte>)
    requires |save| >= SAVE_SIZE
  {
    && save[0x11D0..0x11D5] == MAGIC
    && save[0x11D5..0x11D7] == BlockChecksum(save[DIR..DIR + SLOTS])
    && save[0x11D7..0x11FC] == save[DIR..DIR + 37]
  }

  lemma InjectedValid(save: seq<byte>, slot: nat, image: seq<byte>, frame: byte)
    requires |save| >= SAVE_SIZE && slot < SLOTS && |image| == PHOTO_PIXELS
    ensures var now := Injected(save, slot, image, frame);
            && SlotValid(now, slot) && DirectoryValid(now)
            && now[DIR..DIR + SLOTS] == Entered(save[DIR..DIR + SLOTS], slot)
            && now[SlotBase(slot) + 0xF54] == frame
  {
    hide Encoded, Checksum, MetaTemplate, Entered, Thumbnail;
    var now := Injected(save, slot, image, frame);
    var base, dir := SlotBase(slot), Entered(save[DIR..DIR + SLOTS], slot);
    var block, d := SlotBlock(save, slot, image, frame), DirBlock(dir);
    assert now[base..base + 0xFB8] == block;
    assert now[DIR..DIR + 74] == d;
    PhotoTiled(image);
    var tiles := Encoded(image, PHOTO_WIDTH, PHOTO_HEIGHT);
    var meta := Meta(MetaTemplate(save, slot), tiles, frame);
    BlockParts(now, base, block, tiles, Encoded(Thumbnail(image), 32, 32), meta);
    MetaParts(MetaTemplate(save, slot), tiles, frame);
    DirParts(now, d, dir);
  }

  lemma BlockParts(now: seq<byte>, base: nat, block: seq<byte>, tiles: seq<byte>, thumb: seq<byte>, meta: seq<byte>)
    requires |tiles| == 0xE00 && |thumb| == 0x100 && |meta| == META_SIZE && block == tiles + thumb + meta + meta
    requires base + 0xFB8 <= |now| && now[base..base + 0xFB8] == block
    ensures now[base..base + 0xE00] == tiles
    ensures now[base + 0xF00..base + 0xF5C] == meta && now[base + 0xF5C..base + 0xFB8] == meta
  {
    assert forall i :: 0 <= i < 0xFB8 ==> now[base + i] == block[i];
    assert block[..0xE00] == tiles && block[0xF00..0xF5C] == meta && block[0xF5C..] == meta;
  }

  lemma MetaParts(template: seq<byte>, tiles: seq<byte>, frame: byte)
    requires |template| == META_SIZE
    ensures var m := Meta(template, tiles, frame);
            && m[0x34..0x36] == Checksum(tiles, 0x00, 0x00) && m[0x54] == frame
            && m[0x55..0x5A] == MAGIC && m[0x5A..] == BlockChecksum(m[..0x55])
  {
    hide Checksum;
    var m := Meta(template, tiles, frame);
    var data := template[..0x34] + Checksum(tiles, 0x00, 0x00) + template[0x36..0x54] + [frame];
    assert m[..0x55] == data;
  }

  lemma DirParts(now: seq<byte>, d: seq<byte>, dir: seq<byte>)
    requires |now| >= SAVE_SIZE && |dir| == SLOTS && d == DirBlock(dir) && now[DIR..DIR + 74] == d
    ensures DirectoryValid(now) && now[DIR..DIR + SLOTS] == dir
  {
    hide Checksum;
    assert forall i :: 0 <= i < 74 ==> now[DIR + i] == d[i];
    var block := dir + MAGIC + BlockChecksum(dir);
    assert d[..37] == block && d[37..] == block;
    assert forall i :: 0 <= i < 37 ==> now[DIR + i] == block[i] && now[0x11D7 + i] == block[i];
    assert now[0x11D0..0x11D5] == block[30..35] && now[0x11D5..0x11D7] == block[35..];
    assert now[DIR..DIR + 37] == block && now[0x11D7..0x11FC] == block;
    assert now[DIR..DIR + SLOTS] == dir;
    assert block[..30] == dir && block[30..35] == MAGIC && block[35..] == BlockChecksum(dir);
  }

  /** A photo injected into a free slot of a well-formed album is appended to it, and the album stays well formed. */
  lemma InjectIntoFreeSlot(save: seq<byte>, slot: nat, image: seq<byte>, frame: byte)
    requires |save| >= SAVE_SIZE && slot < SLOTS && |image| == PHOTO_PIXELS
    requires WellFormed(save[DIR..DIR + SLOTS]) && save[DIR + slot] == EMPTY
    ensures var now := Injected(save, slot, image, frame);
            && PhotoSlots(now) == PhotoSlots(save) + [slot]
            && WellFormed(now[DIR..DIR + SLOTS])
  {
    hide Injected, ShownBelow, Entered, WellFormed;
    var dir := save[DIR..DIR + SLOTS];
    assert dir[slot] == EMPTY;
    InjectedValid(save, slot, image, frame);
    EnteredAppends(dir, slot);
    EnteredWellFormed(dir, slot);
  }

  /** Nothing outside the slot's block and the directory block changes. */
  lemma InjectedFrame(save: seq<byte>, slot: nat, image: seq<byte>, frame: byte, i: nat)
    requires |save| >= SAVE_SIZE && slot < SLOTS && |image| == PHOTO_PIXELS && i < |save|
    requires !(SlotBase(slot) <= i < SlotBase(slot) + 0xFB8) && !(DIR <= i < DIR + 74)
    ensures Injected(save, slot, image, frame)[i] == save[i]
  {
  }
}
