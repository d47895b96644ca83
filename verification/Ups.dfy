/**
 UPS patches: XOR hunks laid over the source, cut or zero-filled to the output size. A patch is a
 mask: what it does to a byte does not depend on the source.
 The CRC-32 is a parameter; the cursor wraps at the machine word, as an unchecked addition does.
 */
module Ups {
  import opened Bytes
  import opened PatchErrors
  import opened Varint

  datatype UpsPatch = UpsPatch(
    patch: seq<byte>,
    inputSize: nat,
    outputSize: nat,
    bodyStart: nat,
    inputCrc: u32,
    outputCrc: u32,
    patchCrc: u32)
  {
    /** What loading establishes. */
    predicate Valid() {
      |patch| >= 16 && bodyStart <= |patch| - 12
    }

    function Trailer(): nat
      requires Valid()
    {
      |patch| - 12
    }
  }

  const MAGIC: seq<byte> := [0x55, 0x50, 0x53, 0x31]

  function Load(bytes: seq<byte>): (r: Result<UpsPatch, PatchError>)
    ensures r.Ok? ==> r.value.Valid() && r.value.patch == bytes
  {
    if |bytes| < 4 || bytes[..4] != MAGIC then Err(Malformed)
    else if |bytes| < 16 then Err(Truncated)
    else
      var input := Read(bytes, 4);
      if input.None? then Err(Truncated)
      else
        var output := Read(bytes, input.value.1);
        if output.None? then Err(Truncated)
        else
          var trailer := |bytes| - 12;
          if output.value.1 > trailer then Err(Truncated)
          else
            Ok(UpsPatch(bytes, input.value.0, output.value.0, output.value.1, FromLe32(bytes[trailer..trailer + 4]),
                        FromLe32(bytes[trailer + 4..trailer + 8]), FromLe32(bytes[trailer + 8..])))
  }

  // --- Hunks ----------------------------------------------------------------------------

  /** The non-zero diffs, with their positions, from the middle of a hunk on. Literals may run into the trailer. */
  function InHunk(patch: seq<byte>, pos: nat, trailer: nat, outpos: nat): Option<seq<(nat, byte)>>
    decreases |patch| - pos
  {
    if pos >= |patch| then None
    else if patch[pos] == 0 then Between(patch, pos + 1, trailer, (outpos + 1) % U64)
    else
      var rest := InHunk(patch, pos + 1, trailer, (outpos + 1) % U64);
      if rest.None? then None else Some([(outpos, patch[pos])] + rest.value)
  }

  /** The diffs from the start of a hunk on. */
  function Between(patch: seq<byte>, pos: nat, trailer: nat, outpos: nat): Option<seq<(nat, byte)>>
    decreases |patch| - pos
  {
    if pos >= trailer then Some([])
    else
      var rel := Read(patch, pos);
      if rel.None? || outpos + rel.value.0 >= U64 then None
      else InHunk(patch, rel.value.1, trailer, outpos + rel.value.0)
  }

  function Diffs(p: UpsPatch): Option<seq<(nat, byte)>>
    requires p.Valid()
  {
    Between(p.patch, p.bodyStart, p.Trailer(), 0)
  }

  /** No diff lies past the output. */
  predicate InRange(diffs: seq<(nat, byte)>, size: nat) {
    forall d <- diffs :: d.0 < size
  }

  function XorAll(out: seq<byte>, diffs: seq<(nat, byte)>): (r: seq<byte>)
    requires InRange(diffs, |out|)
    ensures |r| == |out|
    decreases |diffs|
  {
    if diffs == [] then out
    else XorAll(out[diffs[0].0 := XorByte(out[diffs[0].0], diffs[0].1)], diffs[1..])
  }

  /** Cut or filled up with zeros. */
  function Resized(source: seq<byte>, size: nat): (r: seq<byte>)
    ensures |r| == size
  {
    seq(size, i requires 0 <= i < size => if i < |source| then source[i] else 0)
  }

  /** Carrying on from a position, a cursor and an output. */
  function Outcome(diffs: Option<seq<(nat, byte)>>, out: seq<byte>): Option<seq<byte>> {
    if diffs.None? || !InRange(diffs.value, |out|) then None else Some(XorAll(out, diffs.value))
  }

  /** What the patch makes of a source. */
  function Meaning(p: UpsPatch, source: seq<byte>): Option<seq<byte>>
    requires p.Valid()
  {
    Outcome(Diffs(p), Resized(source, p.outputSize))
  }

  // --- The overlay loop -----------------------------------------------------------------

  lemma DiffStep(patch: seq<byte>, pos: nat, trailer: nat, outpos: nat, out: seq<byte>)
    requires pos < |patch| && patch[pos] != 0
    ensures Outcome(InHunk(patch, pos, trailer, outpos), out)
         == if outpos >= |out| then None
            else Outcome(InHunk(patch, pos + 1, trailer, (outpos + 1) % U64),
                         out[outpos := XorByte(out[outpos], patch[pos])])
  {
    hide XorByte;
    var rest := InHunk(patch, pos + 1, trailer, (outpos + 1) % U64);
    if rest.Some? {
      var all := [(outpos, patch[pos])] + rest.value;
      assert all[0] == (outpos, patch[pos]) && all[1..] == rest.value;
      assert forall d :: d in all <==> d == all[0] || d in rest.value;
    }
  }

  /** XOR one hunk onto the output, up to and including its terminator. */
  method OverlayHunk(patch: seq<byte>, start: nat, ghost trailer: nat, from: nat, out: array<byte>)
    returns (r: Result<(nat, nat), PatchError>)
    requires start <= |patch| && from < U64
    modifies out
    ensures r.Err? ==> Outcome(InHunk(patch, start, trailer, from), old(out[..])).None?
    ensures r.Err? ==> r.error == Malformed || r.error == Truncated
    ensures r.Ok? ==>
      && start < r.value.0 <= |patch| && r.value.1 < U64
      && Outcome(InHunk(patch, start, trailer, from), old(out[..]))
         == Outcome(Between(patch, r.value.0, trailer, r.value.1), out[..])
  {
    hide XorByte, Outcome;
    var pos: nat, outpos: nat := start, from;
    while true
      invariant start <= pos <= |patch| && outpos < U64
      invariant Outcome(InHunk(patch, pos, trailer, outpos), out[..])
             == Outcome(InHunk(patch, start, trailer, from), old(out[..]))
      decreases |patch| - pos
    {
      if pos >= |patch| {
        Ended(out[..]);
        return Err(Truncated);
      }
      var x := patch[pos];
      ghost var was := out[..];
      if x != 0 {
        DiffStep(patch, pos, trailer, outpos, was);
      }
      if outpos < out.Length {
        XorZero(was, outpos);
        out[outpos] := XorByte(out[outpos], x);
        assert out[..] == was[outpos := XorByte(was[outpos], x)];
      } else if x != 0 {
        return Err(Malformed);
      }
      pos := pos + 1;
      outpos := (outpos + 1) % U64;
      if x == 0 {
        return Ok((pos, outpos));
      }
    }
  }

  lemma Ended(out: seq<byte>)
    ensures Outcome(None, out).None?
  {
  }

  lemma XorZero(out: seq<byte>, i: nat)
    requires i < |out|
    ensures out[i := XorByte(out[i], 0)] == out
  {
  }

  /** Every hunk in turn, onto the resized source. */
  method Overlay(p: UpsPatch, source: seq<byte>) returns (r: Result<seq<byte>, PatchError>)
    requires p.Valid()
    ensures r.Ok? <==> Meaning(p, source).Some?
    ensures r.Err? ==> r.error == Malformed || r.error == Truncated
    ensures r.Ok? ==> r.value == Meaning(p, source).value
  {
    hide Outcome, InHunk;
    var base := Resized(source, p.outputSize);
    var out := new byte[p.outputSize](i requires 0 <= i < p.outputSize => base[i]);
    assert out[..] == base;
    var trailer := p.Trailer();
    var pos: nat, outpos: nat := p.bodyStart, 0;
    while pos < trailer
      invariant pos <= |p.patch| && outpos < U64
      invariant Outcome(Between(p.patch, pos, trailer, outpos), out[..]) == Meaning(p, source)
      decreases |p.patch| - pos
    {
      Ended(out[..]);
      var rel, next := ReadVarint(p.patch, pos);
      if rel.None? {
        return Err(Truncated);
      }
      if outpos + rel.value >= U64 {
        return Err(Malformed);
      }
      var hunk := OverlayHunk(p.patch, next, trailer, outpos + rel.value, out);
      if hunk.Err? {
        return Err(hunk.error);
      }
      pos, outpos := hunk.value.0, hunk.value.1;
    }
    AllDone(out[..]);
    r := Ok(out[..]);
  }

  lemma AllDone(out: seq<byte>)
    ensures Outcome(Some([]), out) == Some(out)
  {
  }

  /** Every checksum and size the patch carries fits. */
  predicate Checked(p: UpsPatch, source: seq<byte>, crc: seq<byte> -> u32)
    requires p.Valid()
  {
    && crc(p.patch[..|p.patch| - 4]) == p.patchCrc
    && |source| == p.inputSize
    && crc(source) == p.inputCrc
  }

  method Apply(p: UpsPatch, source: seq<byte>, verify: bool, crc: seq<byte> -> u32)
    returns (r: Result<seq<byte>, PatchError>)
    requires p.Valid()
    ensures r.Ok? <==>
      && Meaning(p, source).Some?
      && (verify ==> Checked(p, source, crc) && crc(Meaning(p, source).value) == p.outputCrc)
    ensures r.Ok? ==> r.value == Meaning(p, source).value
    ensures verify && crc(p.patch[..|p.patch| - 4]) != p.patchCrc ==> r == Err(PatchCrc)
    ensures verify && crc(p.patch[..|p.patch| - 4]) == p.patchCrc && |source| != p.inputSize ==> r == Err(SourceSize)
    ensures
      verify && crc(p.patch[..|p.patch| - 4]) == p.patchCrc && |source| == p.inputSize && crc(source) != p.inputCrc
      ==> r == Err(SourceCrc)
    ensures
      verify && Checked(p, source, crc) && Meaning(p, source).Some? && crc(Meaning(p, source).value) != p.outputCrc
      ==> r == Err(TargetCrc)
    ensures r.Err? && (!verify || (Checked(p, source, crc) && Meaning(p, source).None?)) ==>
      r.error == Malformed || r.error == Truncated
  {
    if verify {
      if crc(p.patch[..|p.patch| - 4]) != p.patchCrc {
        return Err(PatchCrc);
      }
      if |source| != p.inputSize {
        return Err(SourceSize);
      }
      if crc(source) != p.inputCrc {
        return Err(SourceCrc);
      }
    }
    r := Overlay(p, source);
    if verify && r.Ok? && crc(r.value) != p.outputCrc {
      r := Err(TargetCrc);
    }
  }

  // --- A patch is a mask ----------------------------------------------------------------

  /** What the diffs do to position `i`, whatever is there. */
  function MaskAt(diffs: seq<(nat, byte)>, i: nat): byte
    decreases |diffs|
  {
    if diffs == [] then 0
    else if diffs[0].0 == i then XorByte(diffs[0].1, MaskAt(diffs[1..], i))
    else MaskAt(diffs[1..], i)
  }

  lemma XorByteAssociative(a: byte, b: byte, c: byte)
    ensures XorByte(XorByte(a, b), c) == XorByte(a, XorByte(b, c))
  {
    XorAssociative(a as nat, b as nat, c as nat);
  }

  lemma {:induction false} XorAllAt(out: seq<byte>, diffs: seq<(nat, byte)>, i: nat)
    requires InRange(diffs, |out|) && i < |out|
    ensures XorAll(out, diffs)[i] == XorByte(out[i], MaskAt(diffs, i))
    decreases |diffs|
  {
    hide XorByte;
    if diffs == [] {
      XorZero(out, i);
      assert out[i := XorByte(out[i], 0)][i] == out[i];
    } else {
      var (at, x) := diffs[0];
      XorAllAt(out[at := XorByte(out[at], x)], diffs[1..], i);
      XorByteAssociative(out[i], x, MaskAt(diffs[1..], i));
    }
  }

  /** The mask of a patch, one byte for each output position. */
  function Mask(p: UpsPatch): (m: Option<seq<byte>>)
    requires p.Valid()
    ensures m.Some? ==> |m.value| == p.outputSize
  {
    var d := Diffs(p);
    if d.None? || !InRange(d.value, p.outputSize) then None
    else Some(seq(p.outputSize, i requires 0 <= i < p.outputSize => MaskAt(d.value, i)))
  }

  /** The result is the resized source under a mask that the patch alone fixes; so is whether there is one. */
  lemma SourceIndependent(p: UpsPatch, source: seq<byte>)
    requires p.Valid()
    ensures Meaning(p, source).Some? <==> Mask(p).Some?
    ensures Mask(p).Some? ==>
      && |Meaning(p, source).value| == p.outputSize
      && forall i :: 0 <= i < p.outputSize ==>
           Meaning(p, source).value[i] == XorByte(Resized(source, p.outputSize)[i], Mask(p).value[i])
  {
    hide XorByte, Diffs;
    if Mask(p).Some? {
      var d, out := Diffs(p).value, Resized(source, p.outputSize);
      forall i | 0 <= i < p.outputSize
        ensures XorAll(out, d)[i] == XorByte(out[i], Mask(p).value[i])
      {
        XorAllAt(out, d, i);
      }
    }
  }

  /** Between files of one size a patch is its own inverse. */
  lemma SelfInverse(p: UpsPatch, source: seq<byte>)
    requires p.Valid() && |source| == p.outputSize && Meaning(p, source).Some?
    ensures Meaning(p, Meaning(p, source).value) == Some(source)
  {
    hide XorByte, Meaning, Mask;
    var once := Meaning(p, source).value;
    SourceIndependent(p, source);
    SourceIndependent(p, once);
    var twice := Meaning(p, once).value;
    forall i | 0 <= i < |source|
      ensures twice[i] == source[i]
    {
      assert Resized(source, p.outputSize)[i] == source[i] && Resized(once, p.outputSize)[i] == once[i];
      XorByteTwice(source[i], Mask(p).value[i]);
    }
    assert twice == source;
  }

  lemma XorByteTwice(a: byte, b: byte)
    ensures XorByte(XorByte(a, b), b) == a
  {
    XorTwice(a as nat, b as nat);
  }

  // --- Each position at most once -------------------------------------------------------

  /** The cursor never reaches the end of the machine word. */
  predicate HunkFits(patch: seq<byte>, pos: nat, trailer: nat, outpos: nat)
    decreases |patch| - pos
  {
    pos < |patch| ==>
      && outpos + 1 < U64
      && if patch[pos] == 0 then RestFits(patch, pos + 1, trailer, outpos + 1)
         else HunkFits(patch, pos + 1, trailer, outpos + 1)
  }

  predicate RestFits(patch: seq<byte>, pos: nat, trailer: nat, outpos: nat)
    decreases |patch| - pos
  {
    pos < trailer && Read(patch, pos).Some? ==>
      var (rel, next) := Read(patch, pos).value;
      HunkFits(patch, next, trailer, outpos + rel)
  }

  predicate Rising(diffs: seq<(nat, byte)>, from: nat) {
    && (forall i :: 0 <= i < |diffs| ==> diffs[i].0 >= from)
    && (forall i, j :: 0 <= i < j < |diffs| ==> diffs[i].0 < diffs[j].0)
  }

  lemma {:induction false} HunkRises(patch: seq<byte>, pos: nat, trailer: nat, outpos: nat)
    requires HunkFits(patch, pos, trailer, outpos) && InHunk(patch, pos, trailer, outpos).Some?
    ensures Rising(InHunk(patch, pos, trailer, outpos).value, outpos)
    decreases |patch| - pos
  {
    NoWrap(outpos + 1);
    if patch[pos] == 0 {
      BetweenRises(patch, pos + 1, trailer, outpos + 1);
    } else {
      HunkRises(patch, pos + 1, trailer, outpos + 1);
    }
  }

  lemma {:induction false} BetweenRises(patch: seq<byte>, pos: nat, trailer: nat, outpos: nat)
    requires RestFits(patch, pos, trailer, outpos) && Between(patch, pos, trailer, outpos).Some?
    ensures Rising(Between(patch, pos, trailer, outpos).value, outpos)
    decreases |patch| - pos
  {
    if pos < trailer {
      var (rel, next) := Read(patch, pos).value;
      HunkRises(patch, next, trailer, outpos + rel);
    }
  }

  /** With a cursor that fits the machine word every output position is changed at most once. */
  lemma AtMostOnce(p: UpsPatch, i: nat, j: nat)
    requires p.Valid() && RestFits(p.patch, p.bodyStart, p.Trailer(), 0) && Diffs(p).Some?
    requires i < j < |Diffs(p).value|
    ensures Diffs(p).value[i].0 != Diffs(p).value[j].0
  {
    BetweenRises(p.patch, p.bodyStart, p.Trailer(), 0);
  }

  /** One hunk of a single diff or of none, somewhere in a buffer. */
  lemma ShortHunk(buf: seq<byte>, trailer: nat, pos: nat, outpos: nat, rel: nat, x: byte)
    requires var e := Encode(rel); pos + |e| + 2 <= |buf| && buf[pos..pos + |e|] == e
    requires buf[pos + |Encode(rel)|] == x && (x != 0 ==> buf[pos + |Encode(rel)| + 1] == 0)
    requires outpos + rel < U64 && pos < trailer
    ensures var next := pos + |Encode(rel)| + (if x == 0 then 1 else 2);
            var rest := Between(buf, next, trailer, (outpos + rel + (if x == 0 then 1 else 2)) % U64);
            Between(buf, pos, trailer, outpos)
              == if rest.None? then None
                 else Some((if x == 0 then [] else [(outpos + rel, x)]) + rest.value)
  {
    hide Read, Encode;
    ReadEncoded(buf, pos, rel);
    var at := pos + |Encode(rel)|;
    assert Between(buf, pos, trailer, outpos) == InHunk(buf, at, trailer, outpos + rel);
    if x == 0 {
      assert forall r: seq<(nat, byte)> :: [] + r == r;
    } else {
      WrapTwice(outpos + rel);
      assert InHunk(buf, at + 1, trailer, (outpos + rel + 1) % U64)
          == Between(buf, at + 2, trailer, (outpos + rel + 2) % U64);
    }
  }

  /** The same hunk as the cursor sees it. */
  lemma ShortHunkFits(buf: seq<byte>, trailer: nat, pos: nat, outpos: nat, rel: nat, x: byte)
    requires var e := Encode(rel); pos + |e| + 2 <= |buf| && buf[pos..pos + |e|] == e
    requires buf[pos + |Encode(rel)|] == x && (x != 0 ==> buf[pos + |Encode(rel)| + 1] == 0)
    requires outpos + rel < U64 && pos < trailer && RestFits(buf, pos, trailer, outpos)
    ensures var n := if x == 0 then 1 else 2;
            outpos + rel + n < U64 && RestFits(buf, pos + |Encode(rel)| + n, trailer, outpos + rel + n)
  {
    hide Read, Encode;
    ReadEncoded(buf, pos, rel);
    var at := pos + |Encode(rel)|;
    assert HunkFits(buf, at, trailer, outpos + rel);
    if x != 0 {
      assert HunkFits(buf, at + 1, trailer, outpos + rel + 1);
    }
  }

  lemma WrapTwice(n: nat)
    ensures ((n + 1) % U64 + 1) % U64 == (n + 2) % U64
  {
  }

  /**
   A hunk that changes position 0, one that takes the cursor round to 0 again, and one that changes
   position `gap`.
   */
  function WrappingHunks(gap: byte): seq<byte>
    requires gap < 2
  {
    [0x80, 1, 0] + (Encode(U64 - 3) + [0, 0x80 + gap, 1, 0])
  }

  /** A patch file of those hunks, for a source and an output of two bytes. */
  function WrappingFile(gap: byte, crcs: seq<byte>): seq<byte>
    requires gap < 2
  {
    MAGIC + [0x82, 0x82] + WrappingHunks(gap) + crcs
  }

  /** The file loads, its last hunk comes after the wrap, and applies to any source. */
  lemma WrappedCursor(gap: byte, crcs: seq<byte>, source: seq<byte>)
    requires gap < 2 && |crcs| == 12
    ensures var loaded := Load(WrappingFile(gap, crcs));
            && loaded.Ok?
            && Diffs(loaded.value) == Some([(0, 1), (gap as nat, 1)])
            && Meaning(loaded.value, source).Some?
            && !RestFits(loaded.value.patch, loaded.value.bodyStart, loaded.value.Trailer(), 0)
  {
    hide Read, Between, InHunk, HunkFits, RestFits, FromLe32, WrappingHunks;
    var file := WrappingFile(gap, crcs);
    var trailer := |file| - 12;
    FileStart(gap, crcs);
    WrappedHunks(gap, file, trailer);
    var p := Load(file).value;
    assert p.bodyStart == 6 && p.Trailer() == trailer && p.outputSize == 2;
  }

  lemma FileStart(gap: byte, crcs: seq<byte>)
    requires gap < 2 && |crcs| == 12
    ensures var file := WrappingFile(gap, crcs);
            && |file| == 6 + |WrappingHunks(gap)| + 12 && |WrappingHunks(gap)| > 0
            && file[..4] == MAGIC && Read(file, 4) == Some((2, 5)) && Read(file, 5) == Some((2, 6))
            && file[6..|file| - 12] == WrappingHunks(gap)
  {
    var file := WrappingFile(gap, crcs);
    SmallNumber(file, 4, 2);
    SmallNumber(file, 5, 2);
  }

  lemma SmallNumber(buf: seq<byte>, pos: nat, v: nat)
    requires pos < |buf| && v < 0x80 && buf[pos] == (0x80 + v) as byte
    ensures buf[pos..pos + |Encode(v)|] == Encode(v) && |Encode(v)| == 1
    ensures Read(buf, pos) == Some((v, pos + 1))
  {
    assert Encode(v) == [buf[pos]];
    ReadEncoded(buf, pos, v);
  }

  lemma WrappedHunks(gap: byte, file: seq<byte>, trailer: nat)
    requires gap < 2 && 6 <= trailer < |file| && file[6..trailer] == WrappingHunks(gap)
    ensures Between(file, 6, trailer, 0) == Some([(0, 1), (gap as nat, 1)])
    ensures !RestFits(file, 6, trailer, 0)
  {
    hide Encode, Read, Between, InHunk, HunkFits, RestFits;
    var far := Encode(U64 - 3);
    var b := 9 + |far|;
    var hunks := WrappingHunks(gap);
    assert forall i :: 0 <= i < |hunks| ==> file[6 + i] == hunks[i];
    assert file[9..b] == hunks[3..3 + |far|] == far;
    assert hunks[b - 6] == 0 && hunks[b - 5] == 0x80 + gap && hunks[b - 4] == 1 && hunks[b - 3] == 0;
    assert trailer == b + 4;
    SmallNumber(file, 6, 0);
    ShortHunk(file, trailer, 6, 0, 0, 1);
    ShortHunk(file, trailer, 9, 2, U64 - 3, 0);
    SmallNumber(file, b + 1, gap as nat);
    ShortHunk(file, trailer, b + 1, 0, gap as nat, 1);
    if RestFits(file, 6, trailer, 0) {
      ShortHunkFits(file, trailer, 6, 0, 0, 1);
      ShortHunkFits(file, trailer, 9, 2, U64 - 3, 0);
    }
    NothingLeft(file, trailer, gap as nat + 2);
    assert Between(file, trailer, trailer, gap as nat + 2) == Some([]);
    assert Between(file, b + 1, trailer, 0) == Some([(gap as nat, 1 as byte)] + []);
    assert Between(file, 9, trailer, 2) == Some([] + ([(gap as nat, 1 as byte)] + []));
    assert [(0, 1 as byte)] + ([] + ([(gap as nat, 1 as byte)] + [])) == [(0, 1), (gap as nat, 1)];
  }

  lemma NothingLeft(buf: seq<byte>, trailer: nat, outpos: nat)
    ensures Between(buf, trailer, trailer, outpos) == Some([])
  {
  }

  /** A cursor that wraps can come back to a position it has changed already. */
  lemma WrappedCursorRepeats(crcs: seq<byte>, source: seq<byte>)
    requires |crcs| == 12
    ensures var p := Load(WrappingFile(0, crcs)).value;
            && Load(WrappingFile(0, crcs)).Ok? && Meaning(p, source).Some?
            && |Diffs(p).value| == 2 && Diffs(p).value[0].0 == Diffs(p).value[1].0
  {
    hide Load, Diffs, Meaning, WrappingFile;
    WrappedCursor(0, crcs, source);
  }

  /** It need not: there is a patch whose cursor wraps and that still changes every position once. */
  lemma WrappedCursorMayMiss(crcs: seq<byte>, source: seq<byte>)
    requires |crcs| == 12
    ensures var p := Load(WrappingFile(1, crcs)).value;
            && Load(WrappingFile(1, crcs)).Ok? && Meaning(p, source).Some?
            && !RestFits(p.patch, p.bodyStart, p.Trailer(), 0)
            && |Diffs(p).value| == 2 && Diffs(p).value[0].0 != Diffs(p).value[1].0
  {
    hide Load, Diffs, Meaning, WrappingFile, RestFits;
    WrappedCursor(1, crcs, source);
  }
}
