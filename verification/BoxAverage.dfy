/** Box-averaging a picture of any size down to 128x112 grey values, before the shades are chosen. */
module BoxAverage {
  import opened Arithmetic
  import opened Bytes
  import opened Dither

  /** A decoded picture; three and more channels are colour. */
  datatype Picture = Picture(data: seq<byte>, width: nat, height: nat, channels: nat)
  {
    predicate Valid() {
      width > 0 && height > 0 && 1 <= channels <= 4 && |data| == width * height * channels
    }

    function Luma(x: nat, y: nat): (v: nat)
      requires Valid() && x < width && y < height
      ensures v <= 255
    {
      PixelInside(this, x, y);
      var i := (y * width + x) * channels;
      if channels <= 2 then data[i] as nat
      else (data[i] as nat * 299 + data[i + 1] as nat * 587 + data[i + 2] as nat * 114) / 1000
    }
  }

  lemma PixelInside(p: Picture, x: nat, y: nat)
    requires p.Valid() && x < p.width && y < p.height
    ensures (y * p.width + x) * p.channels + p.channels <= |p.data|
  {
    assert y * p.width + p.width == (y + 1) * p.width;
    Multiple(p.height - y, p.width);
    assert (p.height - y) * p.width == p.height * p.width - y * p.width;
    assert (y + 1) * p.width <= p.height * p.width;
    var n, last := p.width * p.height, y * p.width + x;
    assert last + 1 <= n;
    MulSign(last + 1 - n, p.channels);
    assert (last + 1 - n) * p.channels == last * p.channels + p.channels - n * p.channels;
  }

  /** The source rows (or columns) averaged into target row `t` of `target`. */
  function BinStart(t: nat, source: nat, target: nat): nat
    requires target > 0
  {
    t * source / target
  }

  function BinEnd(t: nat, source: nat, target: nat): nat
    requires target > 0
  {
    Smaller(Larger(BinStart(t + 1, source, target), BinStart(t, source, target) + 1), source)
  }

  lemma DivBelow(a: nat, n: nat, q: nat)
    requires n > 0 && a < q * n
    ensures a / n < q
  {
    var d := a / n;
    MulSign(q - d, n);
    assert (q - d) * n == q * n - d * n;
  }

  lemma DivMonotone(a: nat, b: nat, n: nat)
    requires n > 0 && a <= b
    ensures a / n <= b / n
  {
    var q := b / n + 1;
    assert b < q * n;
    DivBelow(a, n, q);
  }

  /** Every bin holds at least one row and lies inside the source. */
  lemma BinNonEmpty(t: nat, source: nat, target: nat)
    requires t < target && source > 0
    ensures BinStart(t, source, target) < BinEnd(t, source, target) <= source
  {
    MulSign(t + 1 - target, source);
    assert t * source == (t + 1) * source - source;
    assert (t + 1 - target) * source == (t + 1) * source - target * source;
    assert t * source < source * target;
    DivBelow(t * source, target, source);
  }

  /** From a source at least as large as the target every row goes to exactly one bin: they join up end to end. */
  lemma BinsJoin(t: nat, source: nat, target: nat)
    requires t < target <= source
    ensures BinEnd(t, source, target) == BinStart(t + 1, source, target)
    ensures BinStart(0, source, target) == 0 && BinStart(target, source, target) == source
  {
    assert 0 * source == 0;
    MulDiv(source, target);
    assert target * source == source * target;
    assert (t + 1) * source == t * source + source;
    DivMonotone(t * source + target, (t + 1) * source, target);
    AddOne(t * source, target);
    MulSign(t + 1 - target, source);
    assert (t + 1 - target) * source == (t + 1) * source - target * source;
    DivMonotone((t + 1) * source, target * source, target);
  }

  lemma AddOne(a: nat, n: nat)
    requires n > 0
    ensures (a + n) / n == a / n + 1
  {
    var q, r := a / n, a % n;
    assert a + n == (q + 1) * n + r;
    DivBelow(a + n, n, q + 2);
    var d := (a + n) / n;
    assert a + n == d * n + (a + n) % n;
    MulSign(d - q, n);
    assert (d - q) * n == d * n - q * n;
  }

  function RowSum(p: Picture, y: nat, x0: nat, x: nat): (s: nat)
    requires p.Valid() && y < p.height && x0 <= x <= p.width
    ensures s <= 255 * (x - x0)
    decreases x - x0
  {
    if x == x0 then 0 else RowSum(p, y, x0, x - 1) + p.Luma(x - 1, y)
  }

  function BoxSum(p: Picture, y0: nat, y: nat, x0: nat, x1: nat): nat
    requires p.Valid() && y0 <= y <= p.height && x0 <= x1 <= p.width
    decreases y - y0
  {
    if y == y0 then 0 else BoxSum(p, y0, y - 1, x0, x1) + RowSum(p, y - 1, x0, x1)
  }

  lemma {:induction false} BoxSumBound(p: Picture, y0: nat, y: nat, x0: nat, x1: nat)
    requires p.Valid() && y0 <= y <= p.height && x0 <= x1 <= p.width
    ensures BoxSum(p, y0, y, x0, x1) <= 255 * ((y - y0) * (x1 - x0))
    decreases y - y0
  {
    if y > y0 {
      BoxSumBound(p, y0, y - 1, x0, x1);
      var w := x1 - x0;
      assert (y - y0) * w == (y - 1 - y0) * w + w;
    } else {
      assert (y - y0) * (x1 - x0) == 0;
    }
  }

  /** Every pixel of a stretch of rows is of one brightness. */
  predicate Flat(p: Picture, y0: nat, y: nat, x0: nat, x1: nat, v: nat)
    requires p.Valid() && y0 <= y <= p.height && x0 <= x1 <= p.width
  {
    forall r, u :: y0 <= r < y && x0 <= u < x1 ==> p.Luma(u, r) == v
  }

  lemma FlatAt(p: Picture, y0: nat, y: nat, x0: nat, x1: nat, v: nat, u: nat, r: nat)
    requires p.Valid() && y0 <= r < y <= p.height && x0 <= u < x1 <= p.width && Flat(p, y0, y, x0, x1, v)
    ensures p.Luma(u, r) == v
  {
  }

  lemma Spread(v: nat, a: nat, b: nat)
    ensures v * (a + b) == v * a + v * b
  {
  }

  lemma OneRowMore(v: nat, w: nat, n: nat)
    ensures v * ((n + 1) * w) == v * (n * w) + v * w
  {
    Spread(w, n, 1);
    Spread(v, n * w, w);
  }

  lemma FlatParts(p: Picture, y0: nat, y: nat, x0: nat, x1: nat, v: nat)
    requires p.Valid() && y0 < y <= p.height && x0 <= x1 <= p.width && Flat(p, y0, y, x0, x1, v)
    ensures Flat(p, y0, y - 1, x0, x1, v) && Flat(p, y - 1, y, x0, x1, v)
  {
  }

  lemma {:induction false} FlatRow(p: Picture, y: nat, x0: nat, x: nat, x1: nat, v: nat)
    requires p.Valid() && y < p.height && x0 <= x <= x1 <= p.width && Flat(p, y, y + 1, x0, x1, v)
    ensures RowSum(p, y, x0, x) == v * (x - x0)
    decreases x - x0
  {
    hide Flat, Picture.Luma;
    if x > x0 {
      FlatRow(p, y, x0, x - 1, x1, v);
      FlatAt(p, y, y + 1, x0, x1, v, x - 1, y);
      Spread(v, x - 1 - x0, 1);
    }
  }

  lemma {:induction false} FlatBox(p: Picture, y0: nat, y: nat, x0: nat, x1: nat, v: nat)
    requires p.Valid() && y0 <= y <= p.height && x0 <= x1 <= p.width && Flat(p, y0, y, x0, x1, v)
    ensures BoxSum(p, y0, y, x0, x1) == v * ((y - y0) * (x1 - x0))
    decreases y - y0
  {
    if y > y0 {
      FlatParts(p, y0, y, x0, x1, v);
      hide Flat, RowSum, Picture.Luma;
      FlatBox(p, y0, y - 1, x0, x1, v);
      FlatRow(p, y - 1, x0, x1, x1, v);
      OneRowMore(v, x1 - x0, y - 1 - y0);
    }
  }

  /** The original sums in 32 bits, which holds the sum of this many pixels whatever they are, and no more. */
  const SUM_LIMIT: nat := 0x101_0101

  lemma SumFits(p: Picture, b: Box)
    requires p.Valid() && b.Inside(p)
    ensures b.Count() <= SUM_LIMIT ==> BoxSum(p, b.y0, b.y1, b.x0, b.x1) < 0x1_0000_0000
    ensures b.Count() > SUM_LIMIT && Flat(p, b.y0, b.y1, b.x0, b.x1, 255) ==>
      BoxSum(p, b.y0, b.y1, b.x0, b.x1) >= 0x1_0000_0000
  {
    hide BoxSum, Flat;
    BoxSumBound(p, b.y0, b.y1, b.x0, b.x1);
    if Flat(p, b.y0, b.y1, b.x0, b.x1, 255) {
      FlatBox(p, b.y0, b.y1, b.x0, b.x1, 255);
    }
  }

  /** The source rectangle behind one target pixel. */
  datatype Box = Box(x0: nat, x1: nat, y0: nat, y1: nat)
  {
    predicate Inside(p: Picture) {
      x0 < x1 <= p.width && y0 < y1 <= p.height
    }

    function Count(): nat
      requires x0 < x1 && y0 < y1
    {
      (y1 - y0) * (x1 - x0)
    }
  }

  function BoxOf(p: Picture, tx: nat, ty: nat): (b: Box)
    requires p.Valid() && tx < W && ty < H
    ensures b.Inside(p)
  {
    BinNonEmpty(ty, p.height, H);
    BinNonEmpty(tx, p.width, W);
    Box(BinStart(tx, p.width, W), BinEnd(tx, p.width, W), BinStart(ty, p.height, H), BinEnd(ty, p.height, H))
  }

  lemma CountPositive(b: Box)
    requires b.x0 < b.x1 && b.y0 < b.y1
    ensures b.Count() > 0
  {
    Multiple(b.y1 - b.y0, b.x1 - b.x0);
  }

  /** The average over a box, rounded down. */
  function BoxAverageOf(p: Picture, b: Box): nat
    requires p.Valid() && b.Inside(p)
  {
    CountPositive(b);
    BoxSum(p, b.y0, b.y1, b.x0, b.x1) / b.Count()
  }

  function Average(p: Picture, tx: nat, ty: nat): nat
    requires p.Valid() && tx < W && ty < H
  {
    BoxAverageOf(p, BoxOf(p, tx, ty))
  }

  lemma AverageIsGrey(p: Picture, tx: nat, ty: nat)
    requires p.Valid() && tx < W && ty < H
    ensures Average(p, tx, ty) <= 255
  {
    hide BoxOf, BoxSum;
    var b := BoxOf(p, tx, ty);
    CountPositive(b);
    BoxSumBound(p, b.y0, b.y1, b.x0, b.x1);
    DivBelow(BoxSum(p, b.y0, b.y1, b.x0, b.x1), b.Count(), 256);
  }

  /** Sum up one box, pixel by pixel. */
  method SumBox(p: Picture, x0: nat, x1: nat, y0: nat, y1: nat) returns (sum: nat, n: nat)
    requires p.Valid() && y0 <= y1 <= p.height && x0 <= x1 <= p.width
    ensures sum == BoxSum(p, y0, y1, x0, x1) && n == (y1 - y0) * (x1 - x0)
  {
    sum, n := 0, 0;
    for y := y0 to y1
      invariant sum == BoxSum(p, y0, y, x0, x1) && n == (y - y0) * (x1 - x0)
    {
      ghost var before, count := sum, n;
      for x := x0 to x1
        invariant sum == before + RowSum(p, y, x0, x) && n == count + (x - x0)
      {
        sum := sum + p.Luma(x, y);
        n := n + 1;
      }
      assert (y + 1 - y0) * (x1 - x0) == count + (x1 - x0);
    }
  }

  /** Box averages of the whole picture. */
  method Downscale(p: Picture) returns (gray: array<int>)
    requires p.Valid()
    ensures fresh(gray) && gray.Length == PIXELS
    ensures forall i :: 0 <= i < PIXELS ==> gray[i] == Average(p, i % W, i / W)
    ensures Grey(gray[..])
  {
    hide Average, BinStart, BinEnd;
    gray := new int[PIXELS](_ => 0);
    for ty := 0 to H
      invariant forall i :: 0 <= i < ty * W ==> gray[i] == Average(p, i % W, i / W)
    {
      for tx := 0 to W
        invariant forall i :: 0 <= i < ty * W + tx ==> gray[i] == Average(p, i % W, i / W)
      {
        var v := BoxValue(p, tx, ty);
        gray[ty * W + tx] := v;
        assert (ty * W + tx) % W == tx && (ty * W + tx) / W == ty;
      }
    }
    forall i | 0 <= i < PIXELS
      ensures 0 <= gray[i] <= 255
    {
      AverageIsGrey(p, i % W, i / W);
    }
  }

  method BoxValue(p: Picture, tx: nat, ty: nat) returns (v: nat)
    requires p.Valid() && tx < W && ty < H
    ensures v == Average(p, tx, ty)
  {
    hide BoxOf, BoxSum;
    var b := BoxOf(p, tx, ty);
    CountPositive(b);
    var sum, n := SumBox(p, b.x0, b.x1, b.y0, b.y1);
    v := sum / Larger(n, 1);
  }

  /** A picture becomes a camera image: averaged, then dithered or thresholded. */
  method LoadCameraImage(p: Picture, dither: bool) returns (r: Option<seq<int>>)
    requires p.width > 0 && p.height > 0 ==> p.Valid()
    ensures r.None? <==> p.width == 0 || p.height == 0
    ensures r.Some? ==> |r.value| == PIXELS && forall i :: 0 <= i < PIXELS ==>
      r.value[i] == if dither then Shade(Averages(p), i) else Nearest(Average(p, i % W, i / W))
  {
    hide Shade, Average, Nearest;
    if p.width == 0 || p.height == 0 {
      return None;
    }
    var gray := Downscale(p);
    assert gray[..] == Averages(p);
    if dither {
      var out := FloydSteinberg(gray);
      r := Some(out[..]);
    } else {
      var out := Threshold(gray[..]);
      r := Some(out);
    }
  }

  /** The grey image the shades are chosen from. */
  function Averages(p: Picture): (g: seq<int>)
    requires p.Valid()
    ensures |g| == PIXELS && forall i :: 0 <= i < PIXELS ==> g[i] == Average(p, i % W, i / W)
  {
    seq(PIXELS, i requires 0 <= i < PIXELS => Average(p, i % W, i / W))
  }

  // --- Brightness -------------------------------------------------------------------------

  /** The pixel at column `x` of row `y`, byte by byte. */
  function Channel(p: Picture, x: nat, y: nat, c: nat): nat
    requires p.Valid() && x < p.width && y < p.height && c < p.channels
  {
    PixelInside(p, x, y);
    p.data[(y * p.width + x) * p.channels + c] as nat
  }

  /** A colour counts 299, 587 and 114 thousandths of its red, green and blue; grey is its own byte. */
  lemma LumaIs(p: Picture, x: nat, y: nat)
    requires p.Valid() && x < p.width && y < p.height
    ensures var v := p.Luma(x, y);
            if p.channels <= 2 then v == Channel(p, x, y, 0)
            else
              var s := 299 * Channel(p, x, y, 0) + 587 * Channel(p, x, y, 1) + 114 * Channel(p, x, y, 2);
              1000 * v <= s < 1000 * (v + 1)
  {
    PixelInside(p, x, y);
  }

  /** Two pictures of one size that are equally bright everywhere. */
  predicate SameLuma(p: Picture, q: Picture)
    requires p.Valid() && q.Valid() && p.width == q.width && p.height == q.height
  {
    forall x, y :: 0 <= x < p.width && 0 <= y < p.height ==> p.Luma(x, y) == q.Luma(x, y)
  }

  lemma {:induction false} SameRow(p: Picture, q: Picture, y: nat, x0: nat, x: nat)
    requires p.Valid() && q.Valid() && p.width == q.width && p.height == q.height && SameLuma(p, q)
    requires y < p.height && x0 <= x <= p.width
    ensures RowSum(p, y, x0, x) == RowSum(q, y, x0, x)
    decreases x - x0
  {
    if x > x0 {
      SameRow(p, q, y, x0, x - 1);
    }
  }

  lemma {:induction false} SameBox(p: Picture, q: Picture, y0: nat, y: nat, x0: nat, x1: nat)
    requires p.Valid() && q.Valid() && p.width == q.width && p.height == q.height && SameLuma(p, q)
    requires y0 <= y <= p.height && x0 <= x1 <= p.width
    ensures BoxSum(p, y0, y, x0, x1) == BoxSum(q, y0, y, x0, x1)
    decreases y - y0
  {
    hide SameLuma;
    if y > y0 {
      SameBox(p, q, y0, y - 1, x0, x1);
      SameRow(p, q, y - 1, x0, x1);
    }
  }

  /** Brightness is all that counts. */
  lemma SameAverages(p: Picture, q: Picture)
    requires p.Valid() && q.Valid() && p.width == q.width && p.height == q.height && SameLuma(p, q)
    ensures Averages(p) == Averages(q)
  {
    hide SameLuma, BinStart, BinEnd, BoxSum;
    forall i | 0 <= i < PIXELS
      ensures Average(p, i % W, i / W) == Average(q, i % W, i / W)
    {
      var b := BoxOf(p, i % W, i / W);
      SameBox(p, q, b.y0, b.y1, b.x0, b.x1);
    }
  }

  /** The fourth byte of a pixel, its alpha, never matters. */
  lemma AlphaIgnored(p: Picture, q: Picture)
    requires p.Valid() && q.Valid() && p.width == q.width && p.height == q.height && p.channels == q.channels == 4
    requires forall i :: 0 <= i < |p.data| && i % 4 != 3 ==> p.data[i] == q.data[i]
    ensures Averages(p) == Averages(q)
  {
    hide Averages;
    forall x: nat, y: nat | x < p.width && y < p.height
      ensures p.Luma(x, y) == q.Luma(x, y)
    {
      PixelInside(p, x, y);
      var k := y * p.width + x;
      assert p.data[4 * k] == q.data[4 * k] && p.data[4 * k + 1] == q.data[4 * k + 1];
      assert p.data[4 * k + 2] == q.data[4 * k + 2];
    }
    SameAverages(p, q);
  }

  /** Every average of an evenly bright picture is that brightness. */
  lemma FlatAverage(p: Picture, v: nat, tx: nat, ty: nat)
    requires p.Valid() && Flat(p, 0, p.height, 0, p.width, v) && tx < W && ty < H
    ensures Average(p, tx, ty) == v
  {
    hide BoxSum, BinStart, BinEnd;
    var b := BoxOf(p, tx, ty);
    assert Flat(p, b.y0, b.y1, b.x0, b.x1, v);
    FlatBox(p, b.y0, b.y1, b.x0, b.x1, v);
    CountPositive(b);
    MulDiv(v, b.Count());
  }

  /** A picture of one colour, thresholded: the shade by thousandths of its brightness. */
  lemma OneColour(p: Picture, r: nat, g: nat, b: nat, i: nat)
    requires p.Valid() && p.channels >= 3 && i < PIXELS
    requires forall x, y :: 0 <= x < p.width && 0 <= y < p.height ==>
      Channel(p, x, y, 0) == r && Channel(p, x, y, 1) == g && Channel(p, x, y, 2) == b
    ensures var s := 299 * r + 587 * g + 114 * b;
            Nearest(Average(p, i % W, i / W))
              == if s < 43_000 then 0 else if s < 127_000 then 0x54 else if s < 212_000 then 0xA8 else 0xFF
  {
    hide Average, Nearest;
    var v := p.Luma(0, 0);
    LumaIs(p, 0, 0);
    assert Channel(p, 0, 0, 0) == r;
    forall x: nat, y: nat | x < p.width && y < p.height
      ensures p.Luma(x, y) == v
    {
      LumaIs(p, x, y);
      assert Channel(p, x, y, 0) == r;
    }
    FlatAverage(p, v, i % W, i / W);
    NearestBands(v);
  }

  /** A grey picture of the camera's own size is averaged to itself. */
  lemma OwnSize(p: Picture, i: nat)
    requires p.Valid() && p.width == W && p.height == H && p.channels == 1 && i < PIXELS
    ensures Average(p, i % W, i / W) == p.data[i] as nat
  {
    hide BoxSum;
    var x, y := i % W, i / W;
    OwnBin(x, W);
    OwnBin(y, H);
    LumaIs(p, x, y);
    assert i == y * W + x;
    var b := BoxOf(p, x, y);
    assert b == Box(x, x + 1, y, y + 1);
    FlatBox(p, y, y + 1, x, x + 1, p.Luma(x, y));
  }

  lemma OwnBin(t: nat, n: nat)
    requires t < n
    ensures BinStart(t, n, n) == t && BinEnd(t, n, n) == t + 1
  {
    MulDiv(t, n);
    MulDiv(t + 1, n);
  }
}
