/**
 Trimming an over-read SNES ROM: first the trailing 64 KiB units that look like open bus, then the
 mirrored tail beyond the largest power of two.
 */
module SnesTrim {
  import opened Arithmetic
  import opened Bytes

  const UNIT: nat := 0x1_0000
  const FEW: nat := 16

  // --- Open-bus units -------------------------------------------------------------------

  /** The byte values that occur. */
  function Values(data: seq<byte>): set<byte> {
    set b | b in data
  }

  predicate LooksOpen(unit: seq<byte>) {
    |Values(unit)| <= FEW
  }

  lemma ValuesOn(data: seq<byte>, i: nat)
    requires i < |data|
    ensures Values(data[..i + 1]) == Values(data[..i]) + {data[i]}
    ensures Values(data[..i]) <= Values(data)
  {
    assert data[..i + 1] == data[..i] + [data[i]];
  }

  lemma MoreValues(a: set<byte>, b: set<byte>)
    requires a <= b
    ensures |a| <= |b|
  {
    assert b == a + (b - a);
  }

  /** Count distinct values, giving up once there are more than sixteen. */
  method FewValues(unit: seq<byte>) returns (few: bool)
    ensures few <==> LooksOpen(unit)
  {
    var seen := new bool[0x100](_ => false);
    var distinct := 0;
    for i := 0 to |unit|
      invariant distinct == |Values(unit[..i])| <= FEW
      invariant forall b: byte :: seen[b as nat] <==> b in Values(unit[..i])
    {
      ValuesOn(unit, i);
      var b := unit[i];
      if !seen[b as nat] {
        seen[b as nat] := true;
        distinct := distinct + 1;
        if distinct > FEW {
          MoreValues(Values(unit[..i + 1]), Values(unit));
          assert unit[..i + 1] <= unit;
          return false;
        }
      } else {
        assert Values(unit[..i]) + {b} == Values(unit[..i]);
      }
    }
    assert unit[..|unit|] == unit;
    few := true;
  }

  /** What is left of the first `n` bytes once open-bus units are stripped from the end, down to one unit. */
  function WithoutOpenBus(rom: seq<byte>, n: nat): (k: nat)
    requires n <= |rom|
    ensures k <= n && (n > 0 ==> k > 0)
  {
    if n > UNIT && LooksOpen(rom[n - UNIT..n]) then WithoutOpenBus(rom, n - UNIT) else n
  }

  method StripOpenBus(rom: seq<byte>) returns (n: nat)
    ensures n == WithoutOpenBus(rom, |rom|)
  {
    hide LooksOpen;
    n := |rom|;
    while n > UNIT
      invariant n <= |rom| && WithoutOpenBus(rom, n) == WithoutOpenBus(rom, |rom|)
    {
      var few := FewValues(rom[n - UNIT..n]);
      if !few {
        return;
      }
      n := n - UNIT;
    }
  }

  /** Only whole units of few values are stripped, and the last one kept is not one unless it is the only one. */
  lemma {:induction false} OnlyOpenUnits(rom: seq<byte>, n: nat) returns (units: nat)
    requires n <= |rom|
    ensures var k := WithoutOpenBus(rom, n);
            && k + units * UNIT == n
            && (forall j :: 1 <= j <= units ==> LooksOpen(UnitAt(rom, k, j)))
            && (k > UNIT ==> !LooksOpen(rom[k - UNIT..k]))
    decreases n
  {
    hide LooksOpen;
    if n > UNIT && LooksOpen(rom[n - UNIT..n]) {
      var before := OnlyOpenUnits(rom, n - UNIT);
      units := before + 1;
    } else {
      units := 0;
    }
  }

  /** The `j`th unit after byte `n`. */
  function UnitAt(rom: seq<byte>, n: nat, j: nat): seq<byte>
    requires j >= 1
  {
    if n + j * UNIT <= |rom| then rom[n + (j - 1) * UNIT..n + j * UNIT] else []
  }

  // --- Mirrors --------------------------------------------------------------------------

  /** The largest power of two that is not larger than `n`. */
  function TopPower(n: nat): (p: nat)
    requires n > 0
    ensures IsPowerOfTwo(p) && p <= n < 2 * p
  {
    if n == 1 then 1 else 2 * TopPower(n / 2)
  }

  method LargestPower(n: nat) returns (p: nat)
    requires n > 0
    ensures IsPowerOfTwo(p) && p <= n < 2 * p
  {
    p := 1;
    while p * 2 <= n
      invariant IsPowerOfTwo(p) && p <= n
      decreases n - p
    {
      p := p * 2;
    }
  }

  /** The tail from `p` to `n` is `m` bytes over and over. */
  predicate Repeats(rom: seq<byte>, p: nat, m: nat, n: nat) {
    p <= n <= |rom| && m > 0 && forall i :: p <= i < n ==> rom[i] == Wrapped(rom, p, m, i)
  }

  /** The byte of the kept remainder that stands for position `i`. */
  function Wrapped(rom: seq<byte>, p: nat, m: nat, i: nat): byte
    requires m > 0 && i >= p
  {
    var at := p + (i - p) % m;
    if at < |rom| then rom[at] else 0
  }

  lemma RepeatsItself(rom: seq<byte>, p: nat, n: nat)
    requires p < n <= |rom|
    ensures Repeats(rom, p, n - p, n)
  {
  }

  /** Halves that are equal: what repeats with the whole period repeats with half of it. */
  lemma RepeatsHalf(rom: seq<byte>, p: nat, h: nat, n: nat)
    requires h > 0 && Repeats(rom, p, 2 * h, n) && p + 2 * h <= n
    requires rom[p..p + h] == rom[p + h..p + 2 * h]
    ensures Repeats(rom, p, h, n)
  {
    hide Wrapped;
    forall i | p <= i < n
      ensures rom[i] == Wrapped(rom, p, h, i)
    {
      HalfWrapped(rom, p, h, i);
    }
  }

  lemma HalfWrapped(rom: seq<byte>, p: nat, h: nat, i: nat)
    requires h > 0 && p + 2 * h <= |rom| && rom[p..p + h] == rom[p + h..p + 2 * h] && i >= p
    ensures Wrapped(rom, p, h, i) == Wrapped(rom, p, 2 * h, i)
  {
    HalfRemainder(i - p, h);
    Inside(i - p, h);
    Inside(i - p, 2 * h);
    SameHalves(rom, p, h, (i - p) % (2 * h), (i - p) % h);
  }

  lemma Inside(x: nat, m: nat)
    requires m > 0
    ensures x % m < m
  {
  }

  lemma SameHalves(rom: seq<byte>, p: nat, h: nat, r: nat, s: nat)
    requires p + 2 * h <= |rom| && rom[p..p + h] == rom[p + h..p + 2 * h]
    requires r < 2 * h && s == if r < h then r else r - h
    ensures rom[p + r] == rom[p + s]
  {
    if r >= h {
      assert rom[p..p + h][s] == rom[p + h..p + 2 * h][s];
    }
  }

  lemma HalfRemainder(x: nat, h: nat)
    requires h > 0
    ensures x % h == (if x % (2 * h) < h then x % (2 * h) else x % (2 * h) - h)
  {
    var q, r := x / (2 * h), x % (2 * h);
    assert x == q * (2 * h) + r;
    assert q * (2 * h) == (2 * q) * h;
    var s := if r < h then r else r - h;
    var k := if r < h then 2 * q else 2 * q + 1;
    assert (2 * q + 1) * h == (2 * q) * h + h;
    assert x == k * h + s;
    var d := x / h;
    assert x == d * h + x % h;
    assert (d - k) * h == d * h - k * h;
    Multiple(d - k, h);
    assert d == k;
  }

  /** Nothing is left to strip: a power of two, or a remainder whose halves differ. */
  predicate Trimmed(rom: seq<byte>, p: nat, n: nat)
    requires p <= n <= |rom|
  {
    n == p || (n - p) % 2 == 1 || rom[p..p + (n - p) / 2] != rom[p + (n - p) / 2..n]
  }

  /** The length left once the remainder beyond `p` has been halved as long as its halves are equal. */
  function WithoutMirror(rom: seq<byte>, p: nat, n: nat): (r: nat)
    requires p <= n <= |rom|
    ensures p <= r <= n
    decreases n
  {
    if Trimmed(rom, p, n) then n else WithoutMirror(rom, p, p + (n - p) / 2)
  }

  /** Halve the mirrored remainder as long as it is one. */
  method StripMirror(rom: seq<byte>, length: nat) returns (n: nat)
    requires 0 < length <= |rom|
    ensures n == WithoutMirror(rom, TopPower(length), length)
  {
    n := length;
    ghost var top := TopPower(length);
    while true
      invariant top <= n <= length < 2 * top
      invariant WithoutMirror(rom, top, n) == WithoutMirror(rom, top, length)
      decreases n
    {
      var p := LargestPower(n);
      SamePower(top, p, n);
      if p == n {
        return;
      }
      var rem := n - p;
      if rem % 2 != 0 || rom[p..p + rem / 2] != rom[p + rem / 2..n] {
        return;
      }
      n := p + rem / 2;
    }
  }

  /** Nothing is lost: every byte stripped is one of the kept remainder, which shrank by a power of two. */
  lemma {:induction false} MirrorLossless(rom: seq<byte>, p: nat, n: nat, length: nat) returns (e: nat)
    requires p < n <= length <= |rom| && Repeats(rom, p, n - p, length)
    ensures var r := WithoutMirror(rom, p, n);
            r > p && Trimmed(rom, p, r) && n - p == Pow2(e) * (r - p) && Repeats(rom, p, r - p, length)
    decreases n
  {
    hide Repeats;
    if Trimmed(rom, p, n) {
      e := 0;
      PowerZero(n - p);
    } else {
      var h := (n - p) / 2;
      assert n - p == 2 * h;
      RepeatsHalf(rom, p, h, length);
      var before := MirrorLossless(rom, p, p + h, length);
      e := before + 1;
      DoubleAgain(before, WithoutMirror(rom, p, p + h) - p, h);
    }
  }

  lemma PowerZero(n: nat)
    ensures Pow2(0) * n == n
  {
  }

  lemma DoubleAgain(e: nat, m: nat, h: nat)
    requires h == Pow2(e) * m
    ensures 2 * h == Pow2(e + 1) * m
  {
  }

  /** Powers of two within a factor of two are the same. */
  lemma SamePower(p: nat, q: nat, n: nat)
    requires IsPowerOfTwo(p) && IsPowerOfTwo(q) && p <= n < 2 * p && q <= n < 2 * q
    ensures p == q
  {
    if p < q {
      PowersApart(p, q);
    } else if q < p {
      PowersApart(q, p);
    }
  }

  lemma {:induction false} PowersApart(p: nat, q: nat)
    requires IsPowerOfTwo(p) && IsPowerOfTwo(q) && p < q
    ensures 2 * p <= q
  {
    if p > 1 {
      PowersApart(p / 2, q / 2);
    }
  }

  /** The trimmed length of a non-empty ROM. */
  function Trim(rom: seq<byte>): (n: nat)
    requires |rom| > 0
    ensures 0 < n <= |rom|
  {
    var kept := WithoutOpenBus(rom, |rom|);
    WithoutMirror(rom, TopPower(kept), kept)
  }

  method TrimSnesRom(rom: seq<byte>) returns (n: nat)
    requires |rom| > 0
    ensures n == Trim(rom)
  {
    var length := StripOpenBus(rom);
    n := StripMirror(rom, length);
  }

  /**
   Every unit stripped first has at most sixteen byte values. Whatever is stripped after that can be
   rebuilt from what is kept, whose remainder beyond the power of two `p` went down by exactly a
   power of two; the end is a power of two, or a remainder whose halves differ.
   */
  lemma TrimLossless(rom: seq<byte>) returns (kept: nat, units: nat, p: nat, e: nat)
    requires |rom| > 0
    ensures kept + units * 0x1_0000 == |rom|
    ensures forall j :: 1 <= j <= units ==> |Values(UnitAt(rom, kept, j))| <= 16
    ensures kept > 0x1_0000 ==> |Values(rom[kept - 0x1_0000..kept])| > 16
    ensures var n := Trim(rom);
            && IsPowerOfTwo(p) && p <= n <= kept < 2 * p
            && (n == p || (n - p) % 2 == 1 || rom[p..p + (n - p) / 2] != rom[p + (n - p) / 2..n])
            && kept - p == Pow2(e) * (n - p)
            && forall i :: n <= i < kept ==> n > p && rom[i] == Wrapped(rom, p, n - p, i)
  {
    hide Values, UnitAt, Wrapped, Repeats, IsPowerOfTwo, Pow2, WithoutMirror;
    kept := WithoutOpenBus(rom, |rom|);
    units := OnlyOpenUnits(rom, |rom|);
    p := TopPower(kept);
    e := TailRebuilt(rom, p, kept);
  }

  /** Everything beyond the kept length can be read off the kept remainder. */
  lemma TailRebuilt(rom: seq<byte>, p: nat, length: nat) returns (e: nat)
    requires p <= length <= |rom|
    ensures var n := WithoutMirror(rom, p, length);
            && Trimmed(rom, p, n) && length - p == Pow2(e) * (n - p)
            && forall i :: n <= i < length ==> n > p && rom[i] == Wrapped(rom, p, n - p, i)
  {
    hide Wrapped;
    if p == length {
      e := 0;
    } else {
      RepeatsItself(rom, p, length);
      e := MirrorLossless(rom, p, length, length);
    }
  }
}
