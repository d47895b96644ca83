/** The Game Boy Camera's tile format: 8x8 tiles of two bit planes, four shades. */
module CameraTiles {
  import opened Arithmetic
  import opened Bytes

  const PHOTO_WIDTH: nat := 128
  const PHOTO_HEIGHT: nat := 112
  const PHOTO_PIXELS: nat := 14336
  const PHOTO_BYTES: nat := 0xE00

  const SHADES: seq<byte> := [0xFF, 0xA8, 0x54, 0x00]

  function Distance(a: byte, b: byte): nat {
    if a < b then b as nat - a as nat else a as nat - b as nat
  }

  /** The best of the first `k` shades so far, the earlier one on a tie. */
  function BestShade(px: byte, k: nat): (v: nat)
    requires 1 <= k <= 4
    ensures v < k
  {
    if k == 1 then 0
    else
      var best := BestShade(px, k - 1);
      if Distance(px, SHADES[k - 1]) < Distance(px, SHADES[best]) then k - 1 else best
  }

  /** The index of the nearest shade. */
  method NearestShade(px: byte) returns (best: nat)
    ensures best == BestShade(px, 4)
  {
    best := 0;
    var bestDist := Distance(px, SHADES[0]);
    for value := 1 to 4
      invariant best == BestShade(px, value) && bestDist == Distance(px, SHADES[best])
    {
      var dist := Distance(px, SHADES[value]);
      if dist < bestDist {
        bestDist := dist;
        best := value;
      }
    }
  }

  /** No shade is nearer, and a shade is its own nearest. */
  lemma {:induction false} NearestIsBest(px: byte, k: nat, v: nat)
    requires 1 <= k <= 4 && v < k
    ensures Distance(px, SHADES[BestShade(px, k)]) <= Distance(px, SHADES[v])
  {
    if k > 1 && v < k - 1 {
      NearestIsBest(px, k - 1, v);
    }
  }

  lemma ShadeOfShade(v: nat)
    requires v < 4
    ensures BestShade(SHADES[v], 4) == v
  {
    assert BestShade(SHADES[v], 1) == 0;
    assert BestShade(SHADES[v], 2) == if v >= 1 then 1 else 0;
    assert BestShade(SHADES[v], 3) == if v >= 2 then 2 else v;
  }

  /** A pixel value as the camera can show it. */
  function Quantized(px: byte): byte {
    SHADES[BestShade(px, 4)]
  }

  /** Half way between two shades goes to the lighter one. */
  lemma QuantizedBands(px: byte)
    ensures Quantized(px) == if px <= 41 then 0x00 else if px <= 125 then 0x54 else if px <= 211 then 0xA8 else 0xFF
  {
    assert BestShade(px, 1) == 0;
    assert BestShade(px, 2) == if px <= 211 then 1 else 0;
    assert BestShade(px, 3) == if px <= 125 then 2 else if px <= 211 then 1 else 0;
  }

  // --- Bit planes -----------------------------------------------------------------------

  newtype bit = x: int | 0 <= x < 2

  /** Bits, most significant first, as a number. */
  function Pack(bits: seq<bit>): (n: nat)
    ensures n < Pow2(|bits|)
  {
    if bits == [] then 0 else 2 * Pack(bits[..|bits| - 1]) + bits[|bits| - 1] as nat
  }

  /** Bit `c` of an `n`-bit number, counted from the most significant. */
  function BitAt(v: nat, n: nat, c: nat): bit
    requires c < n
  {
    (v / Pow2(n - 1 - c) % 2) as bit
  }

  lemma {:induction false} UnpackPacked(bits: seq<bit>, c: nat)
    requires c < |bits|
    ensures BitAt(Pack(bits), |bits|, c) == bits[c]
  {
    var n := |bits|;
    var rest := bits[..n - 1];
    if c == n - 1 {
      assert Pow2(0) == 1;
    } else {
      UnpackPacked(rest, c);
      var p := Pow2(n - 2 - c);
      assert Pow2(n - 1 - c) == 2 * p;
      HalfStep(Pack(rest), bits[n - 1] as nat, p);
    }
  }

  /** Dropping one bit first and the rest after is dropping them all. */
  lemma HalfStep(v: nat, b: nat, p: nat)
    requires b < 2 && p > 0
    ensures (2 * v + b) / (2 * p) == v / p
  {
    var q, r := v / p, v % p;
    assert v == q * p + r;
    assert q * (2 * p) == 2 * (q * p);
    var d := (2 * v + b) / (2 * p);
    assert 2 * v + b == d * (2 * p) + (2 * v + b) % (2 * p);
    assert (d - q) * (2 * p) == d * (2 * p) - q * (2 * p);
    Multiple(d - q, 2 * p);
  }

  /** The bits of a number. */
  function Unpack(v: nat, n: nat): (bits: seq<bit>)
    ensures |bits| == n
  {
    seq(n, c requires 0 <= c < n => BitAt(v, n, c))
  }

  lemma {:induction false} PackUnpacked(v: nat, n: nat)
    requires v < Pow2(n)
    ensures Pack(Unpack(v, n)) == v
  {
    hide BitAt;
    if n > 0 {
      PackUnpacked(v / 2, n - 1);
      forall c | 0 <= c < n - 1
        ensures BitAt(v, n, c) == BitAt(v / 2, n - 1, c)
      {
        HigherBit(v, n, c);
      }
      assert Unpack(v, n)[..n - 1] == Unpack(v / 2, n - 1);
      LowestBit(v, n);
    }
  }

  lemma HigherBit(v: nat, n: nat, c: nat)
    requires c < n - 1
    ensures BitAt(v, n, c) == BitAt(v / 2, n - 1, c)
  {
    var p := Pow2(n - 2 - c);
    assert Pow2(n - 1 - c) == 2 * p;
    HalfStep(v / 2, v % 2, p);
  }

  lemma LowestBit(v: nat, n: nat)
    requires n > 0
    ensures BitAt(v, n, n - 1) as nat == v % 2
  {
    assert Pow2(0) == 1;
  }

  // --- Tiles ----------------------------------------------------------------------------

  /** An image whose sides are whole tiles. */
  predicate Tiled(pixels: seq<byte>, width: nat, height: nat) {
    width > 0 && width % 8 == 0 && height % 8 == 0 && |pixels| == width * height
  }

  /** The pixel at column `c` of row `r` of tile `t`. */
  function PixelIndex(width: nat, t: nat, r: nat, c: nat): nat
    requires width > 0 && width % 8 == 0
  {
    (t / (width / 8) * 8 + r) * width + (t % (width / 8) * 8 + c)
  }

  lemma PixelInside(width: nat, height: nat, t: nat, r: nat, c: nat)
    requires width > 0 && width % 8 == 0 && height % 8 == 0 && t < width / 8 * (height / 8) && r < 8 && c < 8
    ensures PixelIndex(width, t, r, c) < width * height
  {
    var w, h := width / 8, height / 8;
    var row := t / w;
    assert t == row * w + t % w;
    MulSign(h - row, w);
    assert (h - row) * w == h * w - row * w;
    assert w * h == h * w;
    var y := row * 8 + r;
    assert y + 1 <= height;
    MulSign(y + 1 - height, width);
    assert (y + 1 - height) * width == y * width + width - height * width;
  }

  /** A tile of an image and a row of it. */
  predicate RowOf(width: nat, height: nat, t: nat, r: nat) {
    t < width / 8 * (height / 8) && r < 8
  }

  /** The shade index of the pixel at column `c`. */
  function ShadeAt(pixels: seq<byte>, width: nat, height: nat, t: nat, r: nat, c: nat): (v: nat)
    requires Tiled(pixels, width, height) && RowOf(width, height, t, r) && c < 8
    ensures v < 4
  {
    PixelInside(width, height, t, r, c);
    BestShade(pixels[PixelIndex(width, t, r, c)], 4)
  }

  /** Row `r` of a bit plane of tile `t`: plane 0 holds the low bits of the shade indices. */
  function PlaneBits(pixels: seq<byte>, width: nat, height: nat, t: nat, r: nat, plane: nat): (bits: seq<bit>)
    requires Tiled(pixels, width, height) && RowOf(width, height, t, r)
    ensures |bits| == 8
  {
    seq(8, c requires 0 <= c < 8 => PlaneBit(ShadeAt(pixels, width, height, t, r, c), plane))
  }

  function PlaneBit(v: nat, plane: nat): bit
    requires v < 4
  {
    (if plane == 0 then v % 2 else v / 2) as bit
  }

  lemma PackedByte(bits: seq<bit>)
    requires |bits| == 8
    ensures Pack(bits) < 0x100
  {
    assert Pow2(8) == 256 by {
      assert Pow2(4) == 16;
    }
  }

  function PlaneByte(pixels: seq<byte>, width: nat, height: nat, t: nat, r: nat, plane: nat): byte
    requires Tiled(pixels, width, height) && RowOf(width, height, t, r)
  {
    PackedByte(PlaneBits(pixels, width, height, t, r, plane));
    Pack(PlaneBits(pixels, width, height, t, r, plane)) as byte
  }

  /** Tiles in reading order, sixteen bytes each, the planes of a row next to each other. */
  function Encoded(pixels: seq<byte>, width: nat, height: nat): (s: seq<byte>)
    requires Tiled(pixels, width, height)
    ensures |s| == width / 8 * (height / 8) * 16
  {
    seq(width / 8 * (height / 8) * 16, i requires 0 <= i < width / 8 * (height / 8) * 16 =>
      PlaneByte(pixels, width, height, i / 16, i % 16 / 2, i % 2))
  }

  /** One row of one tile, bit by bit. */
  method EncodeRow(pixels: seq<byte>, width: nat, height: nat, t: nat, r: nat) returns (lo: byte, hi: byte)
    requires Tiled(pixels, width, height) && RowOf(width, height, t, r)
    ensures lo == PlaneByte(pixels, width, height, t, r, 0) && hi == PlaneByte(pixels, width, height, t, r, 1)
  {
    hide BestShade, Pow2, Pack, ShadeAt;
    var tilesW := width / 8;
    var tcol, trow := t % tilesW, t / tilesW;
    ghost var low, high := PlaneBits(pixels, width, height, t, r, 0), PlaneBits(pixels, width, height, t, r, 1);
    var l: nat, h: nat := 0, 0;
    PackStart(low);
    PackStart(high);
    for c := 0 to 8
      invariant l == Pack(low[..c]) * Pow2(8 - c) && h == Pack(high[..c]) * Pow2(8 - c)
    {
      var v := ShadeOf(pixels, width, height, t, r, tcol * 8 + c, trow * 8 + r, c);
      PackOn(low, c);
      PackOn(high, c);
      l := l + v % 2 * Pow2(7 - c);
      h := h + v / 2 * Pow2(7 - c);
    }
    PackEnd(low);
    PackEnd(high);
    lo, hi := l as byte, h as byte;
  }

  method ShadeOf(pixels: seq<byte>, width: nat, height: nat, ghost t: nat, ghost r: nat, x: nat, y: nat, ghost c: nat)
    returns (v: nat)
    requires Tiled(pixels, width, height) && RowOf(width, height, t, r) && c < 8
    requires x == t % (width / 8) * 8 + c && y == t / (width / 8) * 8 + r
    ensures v == ShadeAt(pixels, width, height, t, r, c)
  {
    PixelInside(width, height, t, r, c);
    v := NearestShade(pixels[y * width + x]);
  }

  lemma PackStart(bits: seq<bit>)
    ensures |bits| == 8 ==> Pack(bits[..0]) * Pow2(8) == 0
  {
  }

  lemma PackEnd(bits: seq<bit>)
    requires |bits| == 8
    ensures Pack(bits[..8]) * Pow2(0) == Pack(bits) < 0x100
  {
    assert bits[..8] == bits;
    PackedByte(bits);
  }

  /** Setting the next bit at its own weight extends the packed prefix. */
  lemma PackOn(bits: seq<bit>, c: nat)
    requires |bits| == 8 && c < 8
    ensures Pack(bits[..c]) * Pow2(8 - c) + bits[c] as nat * Pow2(7 - c) == Pack(bits[..c + 1]) * Pow2(7 - c)
  {
    hide Pack;
    PackSnoc(bits, c);
    Distribute(Pack(bits[..c]), bits[c] as nat, Pow2(7 - c));
  }

  lemma PackSnoc(bits: seq<bit>, c: nat)
    requires c < |bits|
    ensures Pack(bits[..c + 1]) == 2 * Pack(bits[..c]) + bits[c] as nat
  {
    assert bits[..c + 1][..c] == bits[..c];
  }

  lemma Distribute(p: nat, b: nat, q: nat)
    ensures (2 * p + b) * q == p * (2 * q) + b * q
  {
  }

  /** Which tile, row and plane a byte belongs to. */
  lemma RowBytes(t: nat, r: nat)
    requires r < 8
    ensures (t * 16 + r * 2) / 16 == t && (t * 16 + r * 2) % 16 / 2 == r && (t * 16 + r * 2) % 2 == 0
    ensures (t * 16 + r * 2 + 1) / 16 == t && (t * 16 + r * 2 + 1) % 16 / 2 == r && (t * 16 + r * 2 + 1) % 2 == 1
  {
    Remainder(t * 16 + r * 2, t, r * 2, 16);
    Remainder(t * 16 + r * 2 + 1, t, r * 2 + 1, 16);
    Remainder(t * 16 + r * 2, t * 8 + r, 0, 2);
    Remainder(t * 16 + r * 2 + 1, t * 8 + r, 1, 2);
  }

  method EncodeTiles(pixels: seq<byte>, width: nat, height: nat) returns (out: array<byte>)
    requires Tiled(pixels, width, height)
    ensures fresh(out) && out[..] == Encoded(pixels, width, height)
  {
    hide PlaneByte;
    var tiles := width / 8 * (height / 8);
    out := new byte[tiles * 16](_ => 0);
    for t := 0 to tiles
      invariant forall i :: 0 <= i < t * 16 ==> out[i] == Encoded(pixels, width, height)[i]
    {
      for r := 0 to 8
        invariant forall i :: 0 <= i < t * 16 + r * 2 ==> out[i] == Encoded(pixels, width, height)[i]
      {
        var lo, hi := EncodeRow(pixels, width, height, t, r);
        RowBytes(t, r);
        out[t * 16 + r * 2] := lo;
        out[t * 16 + r * 2 + 1] := hi;
      }
    }
  }

  // --- Decoding -------------------------------------------------------------------------

  /** The shade index of pixel `i` of a photo. */
  function PixelValue(tiles: seq<byte>, i: nat): (v: nat)
    requires |tiles| == PHOTO_BYTES && i < PHOTO_PIXELS
    ensures v < 4
  {
    var x, y := i % PHOTO_WIDTH, i / PHOTO_WIDTH;
    var at := (y / 8 * 16 + x / 8) * 16 + y % 8 * 2;
    BitAt(tiles[at + 1] as nat, 8, x % 8) as nat * 2 + BitAt(tiles[at] as nat, 8, x % 8) as nat
  }

  function Decoded(tiles: seq<byte>): (s: seq<byte>)
    requires |tiles| == PHOTO_BYTES
    ensures |s| == PHOTO_PIXELS
  {
    seq(PHOTO_PIXELS, i requires 0 <= i < PHOTO_PIXELS => SHADES[PixelValue(tiles, i)])
  }

  /** Row `r` of tile `t` into the image. */
  method DecodeRow(out: array<byte>, ghost tiles: seq<byte>, t: nat, r: nat, lo: nat, hi: nat)
    requires out.Length == PHOTO_PIXELS && |tiles| == PHOTO_BYTES && t < 224 && r < 8
    requires lo == tiles[t * 16 + r * 2] as nat && hi == tiles[t * 16 + r * 2 + 1] as nat
    modifies out
    ensures forall i :: 0 <= i < PHOTO_PIXELS ==>
      out[i] == if TileOf(i) == t && i / PHOTO_WIDTH % 8 == r then SHADES[PixelValue(tiles, i)] else old(out[i])
  {
    hide PixelValue, BitAt, TileOf;
    var tcol, trow := t % 16, t / 16;
    ghost var start := (trow * 8 + r) * PHOTO_WIDTH + tcol * 8;
    for c := 0 to 8
      invariant forall i :: 0 <= i < PHOTO_PIXELS ==>
        out[i] == if start <= i < start + c then SHADES[PixelValue(tiles, i)] else old(out[i])
    {
      var v := BitAt(hi, 8, c) as nat * 2 + BitAt(lo, 8, c) as nat;
      var x, y := tcol * 8 + c, trow * 8 + r;
      PixelOf(tiles, t, r, c);
      out[y * PHOTO_WIDTH + x] := SHADES[v];
    }
    forall i | 0 <= i < PHOTO_PIXELS
      ensures start <= i < start + 8 <==> TileOf(i) == t && i / PHOTO_WIDTH % 8 == r
    {
      RowStretch(i, t, r);
    }
  }

  /** A row of a tile is eight pixels in a row. */
  lemma RowStretch(i: nat, t: nat, r: nat)
    requires i < PHOTO_PIXELS && t < 224 && r < 8
    ensures var start := (t / 16 * 8 + r) * PHOTO_WIDTH + t % 16 * 8;
            start <= i < start + 8 <==> TileOf(i) == t && i / PHOTO_WIDTH % 8 == r
  {
    var x, y := i % PHOTO_WIDTH, i / PHOTO_WIDTH;
    assert i == y * PHOTO_WIDTH + x && x < PHOTO_WIDTH;
    TileParts(x / 8, y / 8, t);
    StretchParts(x, y, t / 16, t % 16, r);
  }

  lemma TileParts(col: nat, row: nat, t: nat)
    requires col < 16
    ensures row * 16 + col == t <==> row == t / 16 && col == t % 16
  {
  }

  lemma StretchParts(x: nat, y: nat, a: nat, b: nat, r: nat)
    requires x < PHOTO_WIDTH && b < 16 && r < 8
    ensures var start := (a * 8 + r) * PHOTO_WIDTH + b * 8;
            start <= y * PHOTO_WIDTH + x < start + 8 <==> y / 8 == a && y % 8 == r && x / 8 == b
  {
    assert y == y / 8 * 8 + y % 8 && x == x / 8 * 8 + x % 8;
  }

  /** The photo in the tiles at `base`. */
  method DecodePhoto(save: seq<byte>, base: nat) returns (r: Option<seq<byte>>)
    ensures r == if base + PHOTO_BYTES > |save| then None else Some(Decoded(save[base..base + PHOTO_BYTES]))
  {
    hide PixelValue, TileOf;
    if base + PHOTO_BYTES > |save| {
      return None;
    }
    ghost var tiles := save[base..base + PHOTO_BYTES];
    var out := new byte[PHOTO_PIXELS](_ => 0);
    for t := 0 to 224
      invariant forall i :: 0 <= i < PHOTO_PIXELS && TileOf(i) < t ==> out[i] == SHADES[PixelValue(tiles, i)]
    {
      for r := 0 to 8
        invariant forall i :: 0 <= i < PHOTO_PIXELS && TileOf(i) < t ==> out[i] == SHADES[PixelValue(tiles, i)]
        invariant forall i :: 0 <= i < PHOTO_PIXELS && TileOf(i) == t && i / PHOTO_WIDTH % 8 < r ==>
          out[i] == SHADES[PixelValue(tiles, i)]
      {
        var at := base + t * 16 + r * 2;
        assert save[at] == tiles[t * 16 + r * 2] && save[at + 1] == tiles[t * 16 + r * 2 + 1];
        DecodeRow(out, tiles, t, r, save[at] as nat, save[at + 1] as nat);
      }
    }
    forall i | 0 <= i < PHOTO_PIXELS
      ensures TileOf(i) < 224
    {
      PixelSplit(i);
    }
    assert out[..] == Decoded(tiles);
    r := Some(out[..]);
  }

  function TileOf(i: nat): nat {
    i / PHOTO_WIDTH / 8 * 16 + i % PHOTO_WIDTH / 8
  }

  /** The pixel of a tile is that tile's, and reads from its row. */
  lemma PixelOf(tiles: seq<byte>, t: nat, r: nat, c: nat)
    requires |tiles| == PHOTO_BYTES && t < 224 && r < 8 && c < 8
    ensures var i := PhotoIndex(t, r, c);
            && i == (t / 16 * 8 + r) * PHOTO_WIDTH + (t % 16 * 8 + c)
            && TileOf(i) == t && i / PHOTO_WIDTH % 8 == r && i % PHOTO_WIDTH % 8 == c
            && PixelValue(tiles, i)
               == BitAt(tiles[t * 16 + r * 2 + 1] as nat, 8, c) as nat * 2
                    + BitAt(tiles[t * 16 + r * 2] as nat, 8, c) as nat
  {
    hide BitAt;
    var x, y := t % 16 * 8 + c, t / 16 * 8 + r;
    var i := y * PHOTO_WIDTH + x;
    assert i / PHOTO_WIDTH == y && i % PHOTO_WIDTH == x;
  }

  // --- Round trips ----------------------------------------------------------------------

  lemma PhotoTiled(pixels: seq<byte>)
    requires |pixels| == PHOTO_PIXELS
    ensures Tiled(pixels, PHOTO_WIDTH, PHOTO_HEIGHT)
  {
  }

  /** Decoding an encoded image gives every pixel its nearest shade. */
  lemma DecodeEncoded(pixels: seq<byte>)
    requires |pixels| == PHOTO_PIXELS
    ensures Tiled(pixels, PHOTO_WIDTH, PHOTO_HEIGHT)
    ensures forall i :: 0 <= i < PHOTO_PIXELS ==>
      Decoded(Encoded(pixels, PHOTO_WIDTH, PHOTO_HEIGHT))[i] == Quantized(pixels[i])
  {
    hide PixelValue, BestShade;
    var tiles := Encoded(pixels, PHOTO_WIDTH, PHOTO_HEIGHT);
    forall i | 0 <= i < PHOTO_PIXELS
      ensures Decoded(tiles)[i] == Quantized(pixels[i])
    {
      var t, r, c := TileOf(i), i / PHOTO_WIDTH % 8, i % PHOTO_WIDTH % 8;
      PixelSplit(i);
      PixelOf(tiles, t, r, c);
      EncodedBits(pixels, t, r, c);
    }
  }

  lemma PixelSplit(i: nat)
    requires i < PHOTO_PIXELS
    ensures TileOf(i) < 224 && i == PhotoIndex(TileOf(i), i / PHOTO_WIDTH % 8, i % PHOTO_WIDTH % 8)
  {
    var x, y := i % PHOTO_WIDTH, i / PHOTO_WIDTH;
    assert TileOf(i) / 16 == y / 8 && TileOf(i) % 16 == x / 8;
  }

  /** The two bits an encoded row holds for a pixel are its shade index. */
  lemma EncodedBits(pixels: seq<byte>, t: nat, r: nat, c: nat)
    requires |pixels| == PHOTO_PIXELS && t < 224 && r < 8 && c < 8
    ensures Tiled(pixels, PHOTO_WIDTH, PHOTO_HEIGHT)
    ensures |Encoded(pixels, PHOTO_WIDTH, PHOTO_HEIGHT)| == PHOTO_BYTES
    ensures var tiles := Encoded(pixels, PHOTO_WIDTH, PHOTO_HEIGHT);
            var i := PhotoIndex(t, r, c);
            && BitAt(tiles[t * 16 + r * 2 + 1] as nat, 8, c) as nat * 2
                 + BitAt(tiles[t * 16 + r * 2] as nat, 8, c) as nat
               == BestShade(pixels[i], 4)
  {
    hide BestShade, Pack, BitAt, PlaneBits, ShadeAt;
    PhotoTiled(pixels);
    RowBytes(t, r);
    PlaneByteBit(pixels, t, r, 0, c);
    PlaneByteBit(pixels, t, r, 1, c);
    PhotoShade(pixels, t, r, c);
  }

  lemma PlaneByteBit(pixels: seq<byte>, t: nat, r: nat, plane: nat, c: nat)
    requires |pixels| == PHOTO_PIXELS && t < 224 && r < 8 && c < 8
    ensures Tiled(pixels, PHOTO_WIDTH, PHOTO_HEIGHT) && RowOf(PHOTO_WIDTH, PHOTO_HEIGHT, t, r)
    ensures BitAt(PlaneByte(pixels, PHOTO_WIDTH, PHOTO_HEIGHT, t, r, plane) as nat, 8, c)
         == PlaneBit(ShadeAt(pixels, PHOTO_WIDTH, PHOTO_HEIGHT, t, r, c), plane)
  {
    hide Pack, BitAt, ShadeAt;
    PhotoTiled(pixels);
    UnpackPacked(PlaneBits(pixels, PHOTO_WIDTH, PHOTO_HEIGHT, t, r, plane), c);
  }

  lemma PhotoShade(pixels: seq<byte>, t: nat, r: nat, c: nat)
    requires |pixels| == PHOTO_PIXELS && t < 224 && r < 8 && c < 8
    ensures Tiled(pixels, PHOTO_WIDTH, PHOTO_HEIGHT) && RowOf(PHOTO_WIDTH, PHOTO_HEIGHT, t, r)
    ensures ShadeAt(pixels, PHOTO_WIDTH, PHOTO_HEIGHT, t, r, c) == BestShade(pixels[PhotoIndex(t, r, c)], 4)
  {
    hide BestShade, PixelIndex, PhotoIndex;
    SameIndex(t, r, c);
  }

  lemma SameIndex(t: nat, r: nat, c: nat)
    requires t < 224 && r < 8 && c < 8
    ensures PixelIndex(PHOTO_WIDTH, t, r, c) == PhotoIndex(t, r, c)
  {
    assert PHOTO_WIDTH / 8 == 16;
  }

  /** Pixel (c, r) of tile `t` of a photo. */
  function PhotoIndex(t: nat, r: nat, c: nat): (i: nat)
    requires t < 224 && r < 8 && c < 8
    ensures i < PHOTO_PIXELS
  {
    (t / 16 * 8 + r) * PHOTO_WIDTH + (t % 16 * 8 + c)
  }

  /** Encoding a decoded photo gives back its tiles, whatever bytes they are. */
  lemma EncodeDecoded(tiles: seq<byte>)
    requires |tiles| == PHOTO_BYTES
    ensures Tiled(Decoded(tiles), PHOTO_WIDTH, PHOTO_HEIGHT)
    ensures Encoded(Decoded(tiles), PHOTO_WIDTH, PHOTO_HEIGHT) == tiles
  {
    hide PlaneByte;
    var photo := Decoded(tiles);
    PhotoTiled(photo);
    forall i | 0 <= i < PHOTO_BYTES
      ensures PlaneByte(photo, PHOTO_WIDTH, PHOTO_HEIGHT, i / 16, i % 16 / 2, i % 2) == tiles[i]
    {
      PlaneOfDecoded(tiles, i / 16, i % 16 / 2, i % 2);
    }
  }

  lemma PlaneOfDecoded(tiles: seq<byte>, t: nat, r: nat, plane: nat)
    requires |tiles| == PHOTO_BYTES && t < 224 && r < 8 && plane < 2
    ensures Tiled(Decoded(tiles), PHOTO_WIDTH, PHOTO_HEIGHT)
    ensures PlaneByte(Decoded(tiles), PHOTO_WIDTH, PHOTO_HEIGHT, t, r, plane) == tiles[t * 16 + r * 2 + plane]
  {
    hide PixelValue, BitAt, BestShade, Pack, ShadeAt;
    var photo := Decoded(tiles);
    PhotoTiled(photo);
    var v := tiles[t * 16 + r * 2 + plane] as nat;
    var bits := PlaneBits(photo, PHOTO_WIDTH, PHOTO_HEIGHT, t, r, plane);
    forall c | 0 <= c < 8
      ensures bits[c] == BitAt(v, 8, c)
    {
      PixelOf(tiles, t, r, c);
      PhotoShade(photo, t, r, c);
      ShadeOfShade(PixelValue(tiles, PhotoIndex(t, r, c)));
    }
    assert bits == Unpack(v, 8);
    assert Pow2(8) == 256 by {
      assert Pow2(4) == 16;
    }
    PackUnpacked(v, 8);
  }

  /**
   The leftmost pixel of a tile's row is the top bit of its two bytes: of the first for the shades
   0xA8 and 0x00, of the second for 0x54 and 0x00.
   */
  lemma TopBits(pixels: seq<byte>, t: nat, r: nat)
    requires |pixels| == PHOTO_PIXELS && t < 224 && r < 8
    ensures Tiled(pixels, PHOTO_WIDTH, PHOTO_HEIGHT)
    ensures var tiles := Encoded(pixels, PHOTO_WIDTH, PHOTO_HEIGHT);
            var q := Quantized(pixels[(t / 16 * 8 + r) * 128 + t % 16 * 8]);
            && |tiles| == 0xE00
            && (tiles[t * 16 + r * 2] >= 0x80 <==> q == 0xA8 || q == 0x00)
            && (tiles[t * 16 + r * 2 + 1] >= 0x80 <==> q == 0x54 || q == 0x00)
  {
    hide BestShade, Encoded;
    EncodedBits(pixels, t, r, 0);
    var tiles := Encoded(pixels, PHOTO_WIDTH, PHOTO_HEIGHT);
    TopBit(tiles[t * 16 + r * 2]);
    TopBit(tiles[t * 16 + r * 2 + 1]);
    var v := BestShade(pixels[PhotoIndex(t, r, 0)], 4);
    assert v == 0 || v == 1 || v == 2 || v == 3;
  }

  lemma TopBit(b: byte)
    ensures BitAt(b as nat, 8, 0) == if b >= 0x80 then 1 else 0
  {
    assert Pow2(7) == 128 by {
      assert Pow2(3) == 8;
    }
  }
}
