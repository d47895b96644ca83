/**
 Turning a picture into a Game Boy Camera photo: box averages down to 128x112, then four shades with
 Floyd-Steinberg error diffusion. The loop pushes errors forward; its meaning pulls them from the
 neighbours already done.
 */
module Dither {
  import opened Arithmetic

  const W: nat := 128
  const H: nat := 112
  const PIXELS: nat := 14336

  // --- Shades ---------------------------------------------------------------------------

  const SHADES: seq<int> := [0, 0x54, 0xA8, 0xFF]

  function Abs(v: int): int {
    if v < 0 then -v else v
  }

  function Clamp(v: int): int {
    if v < 0 then 0 else if v > 255 then 255 else v
  }

  /** The first shade at the least distance. */
  function Nearest(v: int): (s: int)
    ensures s in SHADES
  {
    var s1 := if Abs(v - 0x54) < Abs(v) then 0x54 else 0;
    var s2 := if Abs(v - 0xA8) < Abs(v - s1) then 0xA8 else s1;
    if Abs(v - 0xFF) < Abs(v - s2) then 0xFF else s2
  }

  /** No shade is closer, and the rounding error of a pixel value is at most 43. */
  lemma NearestIsBest(v: int)
    ensures forall s <- SHADES :: Abs(v - Nearest(v)) <= Abs(v - s)
    ensures 0 <= v <= 255 ==> -43 <= v - Nearest(v) <= 43
  {
  }

  /** Half way between two shades goes to the darker one. */
  lemma NearestBands(v: int)
    ensures Nearest(v) == if v <= 42 then 0 else if v <= 126 then 0x54 else if v <= 211 then 0xA8 else 0xFF
  {
  }

  /** No grey value is closer than the clamped one. */
  lemma ClampIsBest(v: int, g: int)
    requires 0 <= g <= 255
    ensures 0 <= Clamp(v) <= 255 && Abs(v - Clamp(v)) <= Abs(v - g)
  {
  }

  // --- Error diffusion, pulled ----------------------------------------------------------

  /** The accumulated value of pixel `i`: its grey plus shares of the errors of left, above right, above, above left. */
  function Accumulated(gray: seq<int>, i: nat): int
    requires |gray| == PIXELS && i < PIXELS
    decreases i, 1
  {
    gray[i]
    + (if i % W > 0 then Share(gray, i - 1, 7) else 0)
    + (if i >= W && i % W < W - 1 then Share(gray, i - W + 1, 3) else 0)
    + (if i >= W then Share(gray, i - W, 5) else 0)
    + (if i >= W && i % W > 0 then Share(gray, i - W - 1, 1) else 0)
  }

  /** So many sixteenths of the error made at pixel `i`. */
  function Share(gray: seq<int>, i: nat, sixteenths: nat): int
    requires |gray| == PIXELS && i < PIXELS
    decreases i, 2
  {
    var v := Clamp(Accumulated(gray, i));
    Truncated((v - Nearest(v)) * sixteenths, 16)
  }

  /** A share is so many sixteenths of the error, with its sign, rounded towards zero. */
  lemma ShareIs(gray: seq<int>, i: nat, sixteenths: nat)
    requires |gray| == PIXELS && i < PIXELS
    ensures var v, s := Clamp(Accumulated(gray, i)), Share(gray, i, sixteenths);
            var e := (v - Nearest(v)) * sixteenths;
            if e >= 0 then 0 <= 16 * s <= e < 16 * s + 16 else 16 * s - 16 < e <= 16 * s <= 0
  {
    hide Accumulated, Nearest, Clamp;
    var v := Clamp(Accumulated(gray, i));
    TruncatedIs((v - Nearest(v)) * sixteenths, 16);
  }

  /** The shade pixel `i` gets. */
  function Shade(gray: seq<int>, i: nat): int
    requires |gray| == PIXELS && i < PIXELS
  {
    Nearest(Clamp(Accumulated(gray, i)))
  }

  predicate Grey(gray: seq<int>) {
    |gray| == PIXELS && forall i :: 0 <= i < PIXELS ==> 0 <= gray[i] <= 255
  }

  lemma ShareBound(gray: seq<int>, i: nat)
    requires |gray| == PIXELS && i < PIXELS
    ensures -18 <= Share(gray, i, 7) <= 18 && -8 <= Share(gray, i, 3) <= 8
    ensures -13 <= Share(gray, i, 5) <= 13 && -2 <= Share(gray, i, 1) <= 2
  {
    hide Accumulated, Nearest;
    NearestIsBest(Clamp(Accumulated(gray, i)));
  }

  /** Over the whole scan no accumulator leaves [-41, 296]. */
  lemma AccumulatorBound(gray: seq<int>, i: nat)
    requires Grey(gray) && i < PIXELS
    ensures -41 <= Accumulated(gray, i) <= 296
  {
    hide Share;
    if i % W > 0 {
      ShareBound(gray, i - 1);
    }
    if i >= W {
      ShareBound(gray, i - W);
      if i % W < W - 1 {
        ShareBound(gray, i - W + 1);
      }
      if i % W > 0 {
        ShareBound(gray, i - W - 1);
      }
    }
  }

  /** What pixel `i` has collected once the first `k` pixels are done. */
  function Partial(gray: seq<int>, i: nat, k: nat): int
    requires |gray| == PIXELS && i < PIXELS
  {
    gray[i]
    + (if i % W > 0 && i - 1 < k then Share(gray, i - 1, 7) else 0)
    + (if i >= W && i % W < W - 1 && i - W + 1 < k then Share(gray, i - W + 1, 3) else 0)
    + (if i >= W && i - W < k then Share(gray, i - W, 5) else 0)
    + (if i >= W && i % W > 0 && i - W - 1 < k then Share(gray, i - W - 1, 1) else 0)
  }

  /** When its turn comes a pixel has collected everything. */
  lemma PartialComplete(gray: seq<int>, i: nat)
    requires |gray| == PIXELS && i < PIXELS
    ensures Partial(gray, i, i) == Accumulated(gray, i)
    ensures Partial(gray, i, 0) == gray[i]
  {
    hide Share;
  }

  /** What finishing pixel `k` adds to pixel `i`. */
  function Pushed(gray: seq<int>, i: nat, k: nat): int
    requires |gray| == PIXELS && i < PIXELS && k < PIXELS
  {
    if i == k + 1 && k % W + 1 < W then Share(gray, k, 7)
    else if i == k + W - 1 && k % W > 0 then Share(gray, k, 3)
    else if i == k + W then Share(gray, k, 5)
    else if i == k + W + 1 && k % W + 1 < W then Share(gray, k, 1)
    else 0
  }

  lemma PartialStep(gray: seq<int>, i: nat, k: nat)
    requires |gray| == PIXELS && i < PIXELS && k < PIXELS
    ensures Partial(gray, i, k + 1) == Partial(gray, i, k) + Pushed(gray, i, k)
  {
    hide Share;
  }

  // --- Error diffusion, pushed ----------------------------------------------------------

  /** The buffer after `k` pixels: shades behind, partial sums everywhere ahead of them. */
  ghost predicate Diffused(gray: seq<int>, now: seq<int>, k: nat)
  {
    |gray| == PIXELS && |now| == PIXELS && forall i :: 0 <= i < PIXELS ==> now[i] == Partial(gray, i, k)
  }

  /** Add a share of an error to a cell. */
  method Spread(gray: array<int>, at: nat, err: int, sixteenths: nat)
    requires at < gray.Length
    modifies gray
    ensures gray[..] == old(gray[..])[at := old(gray[at]) + Truncated(err * sixteenths, 16)]
  {
    gray[at] := gray[at] + Truncated(err * sixteenths, 16);
  }

  /** Diffuse the error of pixel (x, y) to its neighbours still to come. */
  method SpreadError(gray: array<int>, x: nat, y: nat, err: int, ghost grey: seq<int>)
    requires gray.Length == PIXELS && x < W && y < H && Diffused(grey, gray[..], y * W + x)
    requires forall n :: Truncated(err * n, 16) == Share(grey, y * W + x, n)
    modifies gray
    ensures Diffused(grey, gray[..], y * W + x + 1)
  {
    hide Share, Partial, Truncated;
    ghost var k := y * W + x;
    ghost var was := gray[..];
    assert k % W == x && k / W == y;
    if x + 1 < W {
      Spread(gray, y * W + (x + 1), err, 7);
    }
    if y + 1 < H {
      if x > 0 {
        Spread(gray, (y + 1) * W + (x - 1), err, 3);
      }
      Spread(gray, (y + 1) * W + x, err, 5);
      if x + 1 < W {
        Spread(gray, (y + 1) * W + (x + 1), err, 1);
      }
    }
    forall i | 0 <= i < PIXELS
      ensures gray[i] == Partial(grey, i, k + 1)
    {
      PartialStep(grey, i, k);
      assert gray[i] == was[i] + Pushed(grey, i, k);
    }
  }

  /** Snap every pixel to its nearest shade in raster order, passing its error on. */
  method FloydSteinberg(gray: array<int>) returns (out: array<int>)
    requires gray.Length == PIXELS
    modifies gray
    ensures fresh(out) && out.Length == PIXELS
    ensures forall i :: 0 <= i < PIXELS ==> out[i] == Shade(old(gray[..]), i)
  {
    hide Accumulated, Nearest;
    out := new int[PIXELS](_ => 0);
    ghost var grey := gray[..];
    forall i | 0 <= i < PIXELS
      ensures Partial(grey, i, 0) == grey[i]
    {
      PartialComplete(grey, i);
    }
    for y := 0 to H
      invariant Diffused(grey, gray[..], y * W)
      invariant forall i :: 0 <= i < y * W ==> out[i] == Shade(grey, i)
    {
      for x := 0 to W
        invariant Diffused(grey, gray[..], y * W + x)
        invariant forall i :: 0 <= i < y * W + x ==> out[i] == Shade(grey, i)
      {
        PartialComplete(grey, y * W + x);
        var v := Clamp(gray[y * W + x]);
        var s := Nearest(v);
        out[y * W + x] := s;
        SpreadError(gray, x, y, v - s, grey);
      }
    }
  }

  /** Without dithering every pixel goes to its nearest shade. */
  method Threshold(gray: seq<int>) returns (out: seq<int>)
    ensures |out| == |gray| && forall i :: 0 <= i < |gray| ==> out[i] == Nearest(Clamp(gray[i]))
  {
    out := [];
    for i := 0 to |gray|
      invariant |out| == i && forall j :: 0 <= j < i ==> out[j] == Nearest(Clamp(gray[j]))
    {
      out := out + [Nearest(Clamp(gray[i]))];
    }
  }
}
