/** Bytes, the two bitwise operators the repository applies to data, and big-endian words. */
module Bytes {
  newtype byte = x: int | 0 <= x < 0x100

  newtype u32 = x: int | 0 <= x < 0x1_0000_0000

  datatype Option<+T> = None | Some(value: T)

  datatype Result<+T, +E> = Ok(value: T) | Err(error: E)

  /** Bitwise AND of two naturals. */
  function And(a: nat, b: nat): (r: nat)
    ensures r <= a && r <= b
    decreases a
  {
    if a == 0 || b == 0 then 0
    else (if a % 2 == 1 && b % 2 == 1 then 1 else 0) + 2 * And(a / 2, b / 2)
  }

  /** Bitwise exclusive OR of two naturals. */
  function Xor(a: nat, b: nat): nat
    decreases a
  {
    if a == 0 then b
    else if b == 0 then a
    else (if a % 2 != b % 2 then 1 else 0) + 2 * Xor(a / 2, b / 2)
  }

  function Pow2(n: nat): (p: nat)
    ensures p >= 1
  {
    if n == 0 then 1 else 2 * Pow2(n - 1)
  }

  /** A word of n one bits is the identity of AND on n-bit words. */
  lemma {:induction false} AndOnes(n: nat, b: nat)
    requires b < Pow2(n)
    ensures And(Pow2(n) - 1, b) == b
  {
    if n > 0 && b > 0 {
      assert (Pow2(n) - 1) / 2 == Pow2(n - 1) - 1;
      AndOnes(n - 1, b / 2);
    }
  }

  function AndByte(a: byte, b: byte): (r: byte)
    ensures r as nat == And(a as nat, b as nat)
  {
    And(a as nat, b as nat) as byte
  }

  /** An erased flash cell takes on exactly the byte programmed into it. */
  lemma AndErased(b: byte)
    ensures AndByte(0xFF, b) == b
  {
    assert Pow2(8) == 0x100 by {
      assert Pow2(4) == 16;
    }
    AndOnes(8, b as nat);
  }

  lemma {:induction false} XorBound(n: nat, a: nat, b: nat)
    requires a < Pow2(n) && b < Pow2(n)
    ensures Xor(a, b) < Pow2(n)
  {
    if a > 0 && b > 0 {
      XorBound(n - 1, a / 2, b / 2);
    }
  }

  function XorByte(a: byte, b: byte): (r: byte)
    ensures r as nat == Xor(a as nat, b as nat)
  {
    assert Pow2(8) == 0x100 by {
      assert Pow2(4) == 16;
    }
    XorBound(8, a as nat, b as nat);
    Xor(a as nat, b as nat) as byte
  }

  /** Exclusive OR with the same mask twice gives back the first operand. */
  lemma {:induction false} XorTwice(a: nat, b: nat)
    ensures Xor(Xor(a, b), b) == a
    decreases a + b
  {
    if a == 0 {
      XorSelf(b);
    } else if b > 0 {
      XorTwice(a / 2, b / 2);
      var x := Xor(a, b);
      assert x / 2 == Xor(a / 2, b / 2);
      if x == 0 {
        assert Xor(Xor(a / 2, b / 2), b / 2) == b / 2;
      }
    }
  }

  lemma {:induction false} XorSelf(b: nat)
    ensures Xor(b, b) == 0
  {
    if b > 0 {
      XorSelf(b / 2);
    }
  }

  lemma {:induction false} XorAssociative(a: nat, b: nat, c: nat)
    ensures Xor(Xor(a, b), c) == Xor(a, Xor(b, c))
    decreases a + b + c
  {
    if a > 0 && b > 0 && c > 0 {
      XorAssociative(a / 2, b / 2, c / 2);
      var x, y := Xor(a, b), Xor(b, c);
      assert x / 2 == Xor(a / 2, b / 2) && y / 2 == Xor(b / 2, c / 2);
      assert x % 2 == (if a % 2 != b % 2 then 1 else 0);
      assert y % 2 == (if b % 2 != c % 2 then 1 else 0);
    }
  }

  /** Bit `k` of a number, counted from the least significant. */
  function BitOf(n: nat, k: nat): (b: nat)
    ensures b < 2
  {
    if k == 0 then n % 2 else BitOf(n / 2, k - 1)
  }

  /** Exclusive OR works on each bit apart. */
  lemma {:induction false} XorBit(a: nat, b: nat, k: nat)
    ensures BitOf(Xor(a, b), k) == (BitOf(a, k) + BitOf(b, k)) % 2
  {
    if a == 0 {
      NoBits(k);
    } else if b == 0 {
      NoBits(k);
    } else if k > 0 {
      XorBit(a / 2, b / 2, k - 1);
    }
  }

  /** So does AND. */
  lemma {:induction false} AndBit(a: nat, b: nat, k: nat)
    ensures BitOf(And(a, b), k) == BitOf(a, k) * BitOf(b, k)
  {
    if a == 0 || b == 0 {
      NoBits(k);
    } else if k > 0 {
      AndBit(a / 2, b / 2, k - 1);
    }
  }

  lemma {:induction false} NoBits(k: nat)
    ensures BitOf(0, k) == 0
  {
    if k > 0 {
      NoBits(k - 1);
    }
  }

  /** The four bytes of a word, most significant first. */
  function Be32(v: u32): (s: seq<byte>)
    ensures |s| == 4
  {
    var q1 := v as nat / 0x100;
    var q2 := q1 / 0x100;
    [(q2 / 0x100) as byte, (q2 % 0x100) as byte, (q1 % 0x100) as byte, (v as nat % 0x100) as byte]
  }

  function FromBe32(s: seq<byte>): (v: u32)
    requires |s| == 4
  {
    (((s[0] as nat * 0x100 + s[1] as nat) * 0x100 + s[2] as nat) * 0x100 + s[3] as nat) as u32
  }

  lemma Be32RoundTrip(v: u32)
    ensures FromBe32(Be32(v)) == v
  {
    var q1 := v as nat / 0x100;
    var q2 := q1 / 0x100;
    assert q2 == q2 / 0x100 * 0x100 + q2 % 0x100;
    assert q1 == q2 * 0x100 + q1 % 0x100;
  }

  lemma Be32Is(v: u32)
    ensures var s := Be32(v);
            s[0] as nat * 0x100_0000 + s[1] as nat * 0x1_0000 + s[2] as nat * 0x100 + s[3] as nat == v as nat
  {
    Be32RoundTrip(v);
  }

  lemma WordIs(v: u32, a: byte, b: byte, c: byte, d: byte)
    requires v as nat == a as nat * 0x100_0000 + b as nat * 0x1_0000 + c as nat * 0x100 + d as nat
    ensures Be32(v) == [a, b, c, d]
  {
    var q1 := v as nat / 0x100;
    assert q1 == a as nat * 0x1_0000 + b as nat * 0x100 + c as nat;
    assert q1 / 0x100 == a as nat * 0x100 + b as nat;
  }

  /** The four bytes of a word, least significant first. */
  function Le32(v: u32): (s: seq<byte>)
    ensures |s| == 4
  {
    var b := Be32(v);
    [b[3], b[2], b[1], b[0]]
  }

  function FromLe32(s: seq<byte>): (v: u32)
    requires |s| == 4
  {
    FromBe32([s[3], s[2], s[1], s[0]])
  }

  lemma Le32RoundTrip(v: u32)
    ensures FromLe32(Le32(v)) == v
  {
    var b, l := Be32(v), Le32(v);
    assert [l[3], l[2], l[1], l[0]] == b;
    Be32RoundTrip(v);
  }

  /** The four bytes at `at`, the least significant first. */
  function Little(s: seq<byte>, at: nat): nat
    requires at + 4 <= |s|
  {
    s[at] as nat + 0x100 * s[at + 1] as nat + 0x1_0000 * s[at + 2] as nat + 0x100_0000 * s[at + 3] as nat
  }

  lemma LittleIs(s: seq<byte>, at: nat)
    requires at + 4 <= |s|
    ensures FromLe32(s[at..at + 4]) as nat == Little(s, at)
  {
  }

  /** The buffer holds `part` at `pos`. */
  predicate At(buf: seq<byte>, pos: nat, part: seq<byte>) {
    pos + |part| <= |buf| && buf[pos..pos + |part|] == part
  }

  lemma SubSlice(buf: seq<byte>, a: nat, b: nat, x: nat, y: nat)
    requires a <= b <= |buf| && x <= y <= b - a
    ensures buf[a..b][x..y] == buf[a + x..a + y]
  {
    var outer := buf[a..b];
    var inner, direct := outer[x..y], buf[a + x..a + y];
    forall i | 0 <= i < y - x
      ensures inner[i] == direct[i]
    {
      assert inner[i] == outer[x + i] == buf[a + (x + i)];
      assert direct[i] == buf[(a + x) + i];
    }
    assert inner == direct;
  }

  lemma AtParts(buf: seq<byte>, pos: nat, x: seq<byte>, y: seq<byte>)
    requires At(buf, pos, x + y)
    ensures At(buf, pos, x) && At(buf, pos + |x|, y)
  {
    var s := buf[pos..pos + |x + y|];
    assert buf[pos..pos + |x|] == s[..|x|] == x;
    assert buf[pos + |x|..pos + |x| + |y|] == s[|x|..] == y;
  }

  lemma AtAll(file: seq<byte>)
    ensures At(file, 0, file)
  {
  }

  /** `base` with `data` laid over it from `at`; what would fall past the end is dropped. */
  function Spliced(base: seq<byte>, at: nat, data: seq<byte>): (r: seq<byte>)
    ensures |r| == |base|
    ensures forall i :: 0 <= i < |base| ==> r[i] == if at <= i < at + |data| then data[i - at] else base[i]
  {
    seq(|base|, i requires 0 <= i < |base| => if at <= i < at + |data| then data[i - at] else base[i])
  }

  lemma SplicedTwice(base: seq<byte>, at: nat, x: seq<byte>, y: seq<byte>)
    ensures Spliced(Spliced(base, at, x), at + |x|, y) == Spliced(base, at, x + y)
  {
  }

  /** A stretch that was spliced in, and one clear of it. */
  lemma SplicedStretch(base: seq<byte>, at: nat, data: seq<byte>, from: nat, n: nat)
    requires from + n <= |base|
    ensures from == at && n == |data| ==> Spliced(base, at, data)[from..from + n] == data
    ensures from + n <= at || at + |data| <= from ==> Spliced(base, at, data)[from..from + n] == base[from..from + n]
  {
  }

  /** `n` times the byte `b`. */
  function Filled(n: nat, b: byte): (s: seq<byte>)
    ensures |s| == n
  {
    seq(n, _ => b)
  }

  function Larger(a: nat, b: nat): nat {
    if a > b then a else b
  }

  function Smaller(a: nat, b: nat): nat {
    if a < b then a else b
  }
}
