/**
 The variable-length integers of UPS and BPS patches: seven bits a byte, least significant first,
 the last byte flagged, and every continuation adding one more unit of the next place so that no
 value has two short encodings.
 */
module Varint {
  import opened Bytes

  const U64: nat := 0x1_0000_0000_0000_0000

  /** Reading on from `pos` with `data` collected and the next byte worth `shift`; the shift loses its high bits. */
  function ReadFrom(buf: seq<byte>, pos: nat, data: nat, shift: nat): (r: Option<(nat, nat)>)
    ensures r.Some? ==> pos < r.value.1 <= |buf| && r.value.0 < U64
    decreases |buf| - pos
  {
    if pos >= |buf| then None
    else
      var b := buf[pos] as nat;
      var value := data + b % 0x80 * shift;
      if value >= U64 then None
      else if b >= 0x80 then Some((value, pos + 1))
      else
        var next := shift * 0x80 % U64;
        if value + next >= U64 then None else ReadFrom(buf, pos + 1, value + next, next)
  }

  /** The value at `pos` and the position after it; nothing when the buffer ends or the value overflows. */
  function Read(buf: seq<byte>, pos: nat): (r: Option<(nat, nat)>)
    ensures r.Some? ==> pos < r.value.1 <= |buf| && r.value.0 < U64
  {
    ReadFrom(buf, pos, 0, 1)
  }

  method ReadVarint(buf: seq<byte>, start: nat) returns (r: Option<nat>, pos: nat)
    ensures r.None? <==> Read(buf, start).None?
    ensures r.Some? ==> Read(buf, start) == Some((r.value, pos))
  {
    var data: nat, shift: nat := 0, 1;
    pos := start;
    while true
      invariant ReadFrom(buf, pos, data, shift) == Read(buf, start)
      decreases |buf| - pos
    {
      if pos >= |buf| {
        return None, pos;
      }
      var b := buf[pos] as nat;
      pos := pos + 1;
      var term := b % 0x80 * shift;
      if term >= U64 || data + term >= U64 {
        return None, pos;
      }
      data := data + term;
      if b >= 0x80 {
        return Some(data), pos;
      }
      shift := shift * 0x80 % U64;
      if data + shift >= U64 {
        return None, pos;
      }
      data := data + shift;
    }
  }

  /** The shortest encoding of a value. */
  function Encode(v: nat): (s: seq<byte>)
    ensures |s| >= 1
    decreases v
  {
    if v < 0x80 then [(0x80 + v) as byte] else [(v % 0x80) as byte] + Encode(v / 0x80 - 1)
  }

  /** 128 to the power k. */
  function Place(k: nat): (p: nat)
    ensures p >= 1
  {
    if k == 0 then 1 else Place(k - 1) * 0x80
  }

  lemma TenPlaces()
    ensures Place(9) == 0x8000_0000_0000_0000 && Place(10) == 64 * U64
  {
    assert Place(5) == 0x8_0000_0000;
  }

  lemma {:induction false} PlaceRises(k: nat, n: nat)
    requires k <= n
    ensures Place(k) <= Place(n)
  {
    if k < n {
      PlaceRises(k, n - 1);
    }
  }

  lemma Regroup(v: nat, shift: nat)
    requires v >= 0x80
    ensures v % 0x80 * shift + shift * 0x80 + (v / 0x80 - 1) * (shift * 0x80) == v * shift
    ensures v % 0x80 * shift + shift * 0x80 <= v * shift
  {
    RegroupParts(v / 0x80, v % 0x80, shift);
  }

  lemma RegroupParts(q: nat, r: nat, shift: nat)
    requires q >= 1
    ensures r * shift + shift * 0x80 + (q - 1) * (shift * 0x80) == (q * 0x80 + r) * shift
    ensures r * shift + shift * 0x80 <= (q * 0x80 + r) * shift
  {
    NotNegative(q - 1, shift * 0x80);
    assert (q - 1) * (shift * 0x80) == q * shift * 0x80 - shift * 0x80;
  }

  lemma NotNegative(a: nat, b: nat)
    ensures a * b >= 0
  {
  }

  /** Continuing inside a number: the encoding of `v` adds `v` shifts. */
  lemma {:induction false} ReadEncodedFrom(buf: seq<byte>, pos: nat, data: nat, shift: nat, v: nat)
    requires pos + |Encode(v)| <= |buf| && buf[pos..pos + |Encode(v)|] == Encode(v)
    requires shift > 0 && data + v * shift < U64
    ensures ReadFrom(buf, pos, data, shift) == Some((data + v * shift, pos + |Encode(v)|))
    decreases v
  {
    hide Encode, ReadFrom;
    var e := Encode(v);
    EncodeHead(v);
    assert buf[pos] == buf[pos..pos + |e|][0] == e[0];
    if v >= 0x80 {
      Regroup(v, shift);
      var rest := Encode(v / 0x80 - 1);
      assert buf[pos + 1..pos + 1 + |rest|] == buf[pos..pos + |e|][1..];
      NoWrap(shift * 0x80);
      ReadOn(buf, pos, data, shift);
      ReadEncodedFrom(buf, pos + 1, data + v % 0x80 * shift + shift * 0x80, shift * 0x80, v / 0x80 - 1);
    } else {
      ReadLast(buf, pos, data, shift);
    }
  }

  lemma EncodeHead(v: nat)
    ensures var e := Encode(v);
            && e[0] as nat % 0x80 == v % 0x80 && (e[0] >= 0x80 <==> v < 0x80)
            && e[1..] == if v < 0x80 then [] else Encode(v / 0x80 - 1)
  {
  }

  lemma ReadLast(buf: seq<byte>, pos: nat, data: nat, shift: nat)
    requires pos < |buf| && buf[pos] >= 0x80 && data + buf[pos] as nat % 0x80 * shift < U64
    ensures ReadFrom(buf, pos, data, shift) == Some((data + buf[pos] as nat % 0x80 * shift, pos + 1))
  {
  }

  lemma ReadOn(buf: seq<byte>, pos: nat, data: nat, shift: nat)
    requires pos < |buf| && buf[pos] < 0x80 && shift * 0x80 % U64 == shift * 0x80
    requires data + buf[pos] as nat % 0x80 * shift + shift * 0x80 < U64
    ensures ReadFrom(buf, pos, data, shift)
         == ReadFrom(buf, pos + 1, data + buf[pos] as nat % 0x80 * shift + shift * 0x80, shift * 0x80)
  {
    hide Encode;
  }

  lemma NoWrap(n: nat)
    requires n < U64
    ensures n % U64 == n
  {
  }

  /** Every 64-bit value reads back from its encoding, wherever that stands, and the cursor ends just past it. */
  lemma ReadEncoded(buf: seq<byte>, pos: nat, v: nat)
    requires v < U64 && pos + |Encode(v)| <= |buf| && buf[pos..pos + |Encode(v)|] == Encode(v)
    ensures Read(buf, pos) == Some((v, pos + |Encode(v)|))
  {
    ReadEncodedFrom(buf, pos, 0, 1, v);
  }

  lemma Ungroup(b: nat, shift: nat, w: nat)
    requires b < 0x80
    ensures b * shift + shift * 0x80 + w * (shift * 0x80) == (b + 0x80 * (w + 1)) * shift
  {
    assert (b + 0x80 * (w + 1)) * shift == b * shift + 0x80 * (w + 1) * shift;
    assert 0x80 * (w + 1) * shift == (w + 1) * (shift * 0x80);
    assert (w + 1) * (shift * 0x80) == w * (shift * 0x80) + shift * 0x80;
  }

  /** As long as the shift keeps all its bits, what was read is the encoding of what it added. */
  lemma {:induction false} ReadCanonicalFrom(buf: seq<byte>, pos: nat, data: nat, k: nat) returns (v: nat)
    requires ReadFrom(buf, pos, data, Place(k)).Some?
    requires k + (ReadFrom(buf, pos, data, Place(k)).value.1 - pos) <= 10
    ensures var (value, end) := ReadFrom(buf, pos, data, Place(k)).value;
            value == data + v * Place(k) && buf[pos..end] == Encode(v)
    decreases |buf| - pos
  {
    hide ReadFrom, Encode;
    var shift := Place(k);
    var (value, end) := ReadFrom(buf, pos, data, shift).value;
    ReadStep(buf, pos, data, shift);
    var b := buf[pos] as nat;
    if b >= 0x80 {
      v := b % 0x80;
      EncodeLast(buf[pos]);
      assert buf[pos..pos + 1] == [buf[pos]];
    } else {
      PlaceRises(k + 1, 9);
      TenPlaces();
      var w := ReadCanonicalFrom(buf, pos + 1, data + b * shift + shift * 0x80, k + 1);
      v := b + 0x80 * (w + 1);
      Ungroup(b, shift, w);
      EncodeMore(buf[pos], w);
      assert buf[pos..end] == [buf[pos]] + buf[pos + 1..end];
    }
  }

  /** One byte of a read that succeeds, while the shift keeps its bits. */
  lemma ReadStep(buf: seq<byte>, pos: nat, data: nat, shift: nat)
    requires ReadFrom(buf, pos, data, shift).Some?
    ensures pos < |buf|
    ensures buf[pos] >= 0x80 ==>
      ReadFrom(buf, pos, data, shift) == Some((data + buf[pos] as nat % 0x80 * shift, pos + 1))
    ensures buf[pos] < 0x80 ==>
      && ReadFrom(buf, pos, data, shift).value.1 > pos + 1
      && (shift * 0x80 < U64 ==>
            ReadFrom(buf, pos, data, shift)
              == ReadFrom(buf, pos + 1, data + buf[pos] as nat * shift + shift * 0x80, shift * 0x80))
  {
    hide Encode;
    if shift * 0x80 < U64 {
      NoWrap(shift * 0x80);
    }
  }

  lemma EncodeLast(b: byte)
    requires b >= 0x80
    ensures Encode(b as nat % 0x80) == [b]
  {
  }

  lemma EncodeMore(b: byte, w: nat)
    requires b < 0x80
    ensures Encode(b as nat + 0x80 * (w + 1)) == [b] + Encode(w)
  {
    var v := b as nat + 0x80 * (w + 1);
    assert v % 0x80 == b as nat && v / 0x80 - 1 == w;
  }

  lemma {:induction false} EncodeLength(v: nat, n: nat)
    requires |Encode(v)| > n >= 1
    ensures v >= Place(n)
    decreases v
  {
    if n == 1 {
      assert Place(1) == 0x80;
    } else {
      EncodeLength(v / 0x80 - 1, n - 1);
    }
  }

  /** One of the next ten bytes is flagged as a last one. */
  predicate EndsWithinTen(buf: seq<byte>, pos: nat) {
    exists k :: pos <= k < pos + 10 && k < |buf| && buf[k] >= 0x80
  }

  /** Reading ends just behind the first flagged byte. */
  lemma {:induction false} ReadEnds(buf: seq<byte>, pos: nat, data: nat, shift: nat)
    requires ReadFrom(buf, pos, data, shift).Some?
    ensures var end := ReadFrom(buf, pos, data, shift).value.1;
            buf[end - 1] >= 0x80 && forall k :: pos <= k < end - 1 ==> buf[k] < 0x80
    decreases |buf| - pos
  {
    var b := buf[pos] as nat;
    if b < 0x80 {
      var next := shift * 0x80 % U64;
      ReadEnds(buf, pos + 1, data + b % 0x80 * shift + next, next);
    }
  }

  /**
   What was read is the one canonical encoding of its value exactly when one of the ten bytes from
   `pos` on is flagged as the last.
   */
  lemma ReadUnique(buf: seq<byte>, pos: nat)
    requires Read(buf, pos).Some?
    ensures var (v, end) := Read(buf, pos).value;
            buf[pos..end] == Encode(v) <==> EndsWithinTen(buf, pos)
  {
    hide ReadFrom, Encode;
    var (value, end) := Read(buf, pos).value;
    ReadEnds(buf, pos, 0, 1);
    assert end - pos <= 10 <==> EndsWithinTen(buf, pos);
    if end - pos <= 10 {
      var v := ReadCanonicalFrom(buf, pos, 0, 0);
      assert v * Place(0) == v;
    } else {
      TenPlaces();
      if |Encode(value)| > 10 {
        EncodeLength(value, 10);
      }
    }
  }

  /** Ten zero bytes shift the place out of the word, and the eleventh byte then adds nothing. */
  lemma ElevenBytesAccepted()
    ensures var long := seq(10, _ => 0 as byte) + [0xFF];
            Read(long, 0).Some? && Read(long, 0).value.1 == 11
  {
    var long := seq(10, _ => 0 as byte) + [0xFF];
    LongZeros(long, 0, 0);
  }

  /** The sum of the places 1 to k. */
  function Places(k: nat): nat {
    if k == 0 then 0 else Places(k - 1) + Place(k)
  }

  lemma {:induction false} PlacesBound(k: nat)
    ensures 127 * Places(k) + 128 == 128 * Place(k)
  {
    if k > 0 {
      PlacesBound(k - 1);
    }
  }

  /** A zero byte has no bits of its own and moves on to the next place. */
  lemma ZeroByte(buf: seq<byte>, pos: nat, data: nat, shift: nat)
    requires pos < |buf| && buf[pos] == 0 && data + shift * 0x80 % U64 < U64
    ensures ReadFrom(buf, pos, data, shift)
         == ReadFrom(buf, pos + 1, data + shift * 0x80 % U64, shift * 0x80 % U64)
  {
  }

  lemma {:induction false} LongZeros(long: seq<byte>, k: nat, data: nat)
    requires k <= 9 && long == seq(10, _ => 0 as byte) + [0xFF] && data == Places(k)
    ensures ReadFrom(long, k, data, Place(k)) == Some((Places(9), 11))
    decreases 9 - k
  {
    TenPlaces();
    PlacesBound(9);
    if k < 9 {
      hide ReadFrom;
      PlaceRises(k + 1, 9);
      PlacesRise(k + 1, 9);
      NoWrap(Place(k + 1));
      ZeroByte(long, k, data, Place(k));
      LongZeros(long, k + 1, Places(k + 1));
    } else {
      assert Place(9) * 0x80 % U64 == 0;
      ZeroByte(long, 9, Places(9), Place(9));
      assert long[10] == 0xFF;
    }
  }

  lemma {:induction false} PlacesRise(k: nat, n: nat)
    requires k <= n
    ensures Places(k) <= Places(n)
  {
    if k < n {
      PlacesRise(k, n - 1);
    }
  }

  // --- Signed offsets -------------------------------------------------------------------

  /** Magnitude in the high bits, sign in bit 0. */
  function SignedOffset(v: nat): (d: int)
    requires v < U64
    ensures -0x8000_0000_0000_0000 < d < 0x8000_0000_0000_0000
  {
    if v % 2 == 1 then -(v / 2) else v / 2
  }

  function EncodeOffset(d: int): (v: nat)
    requires -0x8000_0000_0000_0000 < d < 0x8000_0000_0000_0000
    ensures v < U64
  {
    if d < 0 then -d * 2 + 1 else d * 2
  }

  /** Only zero has a second encoding: 1, read as minus zero. */
  lemma OffsetRoundTrip(d: int, v: nat)
    requires -0x8000_0000_0000_0000 < d < 0x8000_0000_0000_0000 && v < U64
    ensures SignedOffset(EncodeOffset(d)) == d
    ensures EncodeOffset(SignedOffset(v)) == v <==> v != 1
  {
  }
}
