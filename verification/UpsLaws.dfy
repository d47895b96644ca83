/**
 UPS patches from the other side: what their bytes are, what each output byte is, and that any file can
 be turned into any other by one.
 */
module UpsLaws {
  import opened Bytes
  import opened Varint
  import opened Ups

  // --- Bytes of the output ----------------------------------------------------------------

  /** Each output byte is the source's, or zero past its end, under the mask. */
  lemma OutputByte(p: UpsPatch, source: seq<byte>, i: nat)
    requires p.Valid() && Meaning(p, source).Some? && i < p.outputSize
    ensures Mask(p).Some? && |Meaning(p, source).value| == p.outputSize
    ensures Meaning(p, source).value[i] == XorByte(if i < |source| then source[i] else 0, Mask(p).value[i])
  {
    hide XorByte, Mask, Meaning;
    SourceIndependent(p, source);
  }

  // --- Hunks ------------------------------------------------------------------------------

  /** So many positions skipped, then these bytes; the terminator takes one more position. */
  datatype Hunk = Hunk(skip: nat, xs: seq<byte>)
  {
    predicate Legal() {
      forall i :: 0 <= i < |xs| ==> xs[i] != 0
    }

    function Span(): nat {
      skip + |xs| + 1
    }
  }

  predicate AllLegal(hunks: seq<Hunk>) {
    forall i :: 0 <= i < |hunks| ==> hunks[i].Legal()
  }

  function Spans(hunks: seq<Hunk>): nat {
    if hunks == [] then 0 else hunks[0].Span() + Spans(hunks[1..])
  }

  function Written(hunks: seq<Hunk>): seq<byte> {
    if hunks == [] then [] else Encode(hunks[0].skip) + ((hunks[0].xs + [0]) + Written(hunks[1..]))
  }

  /** Bytes with their positions, the first at `at`. */
  function Placed(xs: seq<byte>, at: nat): (d: seq<(nat, byte)>)
    ensures |d| == |xs|
  {
    seq(|xs|, i requires 0 <= i < |xs| => (at + i, xs[i]))
  }

  function Positions(hunks: seq<Hunk>, at: nat): seq<(nat, byte)> {
    if hunks == [] then []
    else Placed(hunks[0].xs, at + hunks[0].skip) + Positions(hunks[1..], at + hunks[0].Span())
  }

  function Prepended(d: seq<(nat, byte)>, rest: Option<seq<(nat, byte)>>): Option<seq<(nat, byte)>> {
    if rest.None? then None else Some(d + rest.value)
  }

  /** The rest of a hunk, its terminator, and what follows. */
  lemma {:induction false} InHunkReads(buf: seq<byte>, pos: nat, trailer: nat, outpos: nat, xs: seq<byte>)
    requires At(buf, pos, xs + [0]) && Hunk(0, xs).Legal() && outpos + |xs| + 1 < U64
    ensures InHunk(buf, pos, trailer, outpos)
         == Prepended(Placed(xs, outpos), Between(buf, pos + |xs| + 1, trailer, outpos + |xs| + 1))
    decreases |xs|
  {
    hide Between;
    assert buf[pos] == (xs + [0])[0];
    NoWrap(outpos + 1);
    if xs == [] {
      assert forall d: seq<(nat, byte)> :: Placed([], outpos) + d == d;
    } else {
      var rest := xs[1..];
      assert xs + [0] == [xs[0]] + (rest + [0]);
      AtParts(buf, pos, [xs[0]], rest + [0]);
      InHunkReads(buf, pos + 1, trailer, outpos + 1, rest);
      var after := Between(buf, pos + |xs| + 1, trailer, outpos + |xs| + 1);
      if after.Some? {
        PlacedOn(xs, outpos, after.value);
      }
    }
  }

  lemma PlacedOn(xs: seq<byte>, at: nat, rest: seq<(nat, byte)>)
    requires xs != []
    ensures [(at, xs[0])] + (Placed(xs[1..], at + 1) + rest) == Placed(xs, at) + rest
  {
    assert Placed(xs, at) == [(at, xs[0])] + Placed(xs[1..], at + 1);
  }

  /** Reading hunks gives back every byte with its position. */
  lemma {:induction false} HunksInverse(buf: seq<byte>, pos: nat, trailer: nat, outpos: nat, hunks: seq<Hunk>)
    requires AllLegal(hunks) && At(buf, pos, Written(hunks)) && trailer == pos + |Written(hunks)|
    requires outpos + Spans(hunks) < U64
    ensures Between(buf, pos, trailer, outpos) == Some(Positions(hunks, outpos))
    decreases |hunks|
  {
    hide Encode, Read, InHunk;
    if hunks != [] {
      var h, rest := hunks[0], hunks[1..];
      var at := pos + |Encode(h.skip)|;
      AtParts(buf, pos, Encode(h.skip), (h.xs + [0]) + Written(rest));
      AtParts(buf, at, h.xs + [0], Written(rest));
      ReadEncoded(buf, pos, h.skip);
      HunksInverse(buf, at + |h.xs| + 1, trailer, outpos + h.Span(), rest);
      InHunkReads(buf, at, trailer, outpos + h.skip, h.xs);
    }
  }

  // --- Files ------------------------------------------------------------------------------

  function PatchFile(inputSize: nat, outputSize: nat, hunks: seq<Hunk>, inputCrc: u32, outputCrc: u32,
                     patchCrc: u32): seq<byte>
  {
    MAGIC + (Encode(inputSize) + (Encode(outputSize) + (Written(hunks)
      + Checksums(inputCrc, outputCrc, patchCrc))))
  }

  function Checksums(inputCrc: u32, outputCrc: u32, patchCrc: u32): (s: seq<byte>)
    ensures |s| == 12
  {
    Le32(inputCrc) + (Le32(outputCrc) + Le32(patchCrc))
  }

  lemma FileFront(inputSize: nat, outputSize: nat, hunks: seq<Hunk>, inputCrc: u32, outputCrc: u32, patchCrc: u32)
    ensures var file := PatchFile(inputSize, outputSize, hunks, inputCrc, outputCrc, patchCrc);
            var p1 := 4 + |Encode(inputSize)|;
            var p2 := p1 + |Encode(outputSize)|;
            && |file| == p2 + |Written(hunks)| + 12 && At(file, 0, MAGIC) && At(file, 4, Encode(inputSize))
            && At(file, p1, Encode(outputSize)) && At(file, p2, Written(hunks))
            && At(file, |file| - 12, Checksums(inputCrc, outputCrc, patchCrc))
  {
    hide Encode, Written, At, Checksums;
    var crcs := Checksums(inputCrc, outputCrc, patchCrc);
    var file := MAGIC + (Encode(inputSize) + (Encode(outputSize) + (Written(hunks) + crcs)));
    assert file == PatchFile(inputSize, outputSize, hunks, inputCrc, outputCrc, patchCrc);
    var p1 := 4 + |Encode(inputSize)|;
    var p2 := p1 + |Encode(outputSize)|;
    AtAll(file);
    AtParts(file, 0, MAGIC, Encode(inputSize) + (Encode(outputSize) + (Written(hunks) + crcs)));
    AtParts(file, 4, Encode(inputSize), Encode(outputSize) + (Written(hunks) + crcs));
    AtParts(file, p1, Encode(outputSize), Written(hunks) + crcs);
    AtParts(file, p2, Written(hunks), crcs);
  }

  lemma FileEnd(file: seq<byte>, at: nat, inputCrc: u32, outputCrc: u32, patchCrc: u32)
    requires At(file, at, Checksums(inputCrc, outputCrc, patchCrc))
    ensures At(file, at, Le32(inputCrc)) && At(file, at + 4, Le32(outputCrc)) && At(file, at + 8, Le32(patchCrc))
  {
    hide Le32, At;
    AtParts(file, at, Le32(inputCrc), Le32(outputCrc) + Le32(patchCrc));
    AtParts(file, at + 4, Le32(outputCrc), Le32(patchCrc));
  }

  /** Loading a patch file gives back all of it, and its diffs are the bytes of its hunks. */
  lemma LoadInverse(inputSize: nat, outputSize: nat, hunks: seq<Hunk>, inputCrc: u32, outputCrc: u32, patchCrc: u32)
    requires AllLegal(hunks) && Spans(hunks) < U64 && inputSize < U64 && outputSize < U64
    ensures var file := PatchFile(inputSize, outputSize, hunks, inputCrc, outputCrc, patchCrc);
            var start := 4 + |Encode(inputSize)| + |Encode(outputSize)|;
            && Load(file) == Ok(UpsPatch(file, inputSize, outputSize, start, inputCrc, outputCrc, patchCrc))
            && Load(file).value.Valid() && Diffs(Load(file).value) == Some(Positions(hunks, 0))
  {
    hide Encode, Read, Written, Le32, FromLe32, PatchFile, Between, Checksums;
    var file := PatchFile(inputSize, outputSize, hunks, inputCrc, outputCrc, patchCrc);
    FileFront(inputSize, outputSize, hunks, inputCrc, outputCrc, patchCrc);
    FileEnd(file, |file| - 12, inputCrc, outputCrc, patchCrc);
    var p1 := 4 + |Encode(inputSize)|;
    var p2 := p1 + |Encode(outputSize)|;
    ReadEncoded(file, 4, inputSize);
    ReadEncoded(file, p1, outputSize);
    Le32RoundTrip(inputCrc);
    Le32RoundTrip(outputCrc);
    Le32RoundTrip(patchCrc);
    var trailer := |file| - 12;
    assert file[trailer + 8..] == file[trailer + 8..trailer + 8 + 4];
    HunksInverse(file, p2, trailer, 0, hunks);
  }

  /** The magic and the three checksums of a file that loads, read off its bytes. */
  lemma FileBytes(bytes: seq<byte>)
    requires Load(bytes).Ok?
    ensures var p, n := Load(bytes).value, |bytes| - 12;
            && n >= 4 && bytes[0] as char == 'U' && bytes[1] as char == 'P' && bytes[2] as char == 'S'
            && bytes[3] as char == '1'
            && p.inputCrc as nat == Little(bytes, n) && p.outputCrc as nat == Little(bytes, n + 4)
            && p.patchCrc as nat == Little(bytes, n + 8)
  {
    hide FromLe32, Read;
    assert bytes[..4] == MAGIC;
    assert forall i :: 0 <= i < 4 ==> bytes[i] == bytes[..4][i];
    assert bytes[|bytes| - 4..] == bytes[|bytes| - 4..|bytes|];
    LittleIs(bytes, |bytes| - 12);
    LittleIs(bytes, |bytes| - 8);
    LittleIs(bytes, |bytes| - 4);
  }

  // --- Any file from any other ------------------------------------------------------------

  /** How many bytes from `i` on are zero, or not, before the first that is not, or is. */
  function Stretch(mask: seq<byte>, i: nat, zero: bool): (n: nat)
    requires i <= |mask|
    ensures i + n <= |mask| && forall j :: i <= j < i + n ==> (mask[j] == 0 <==> zero)
    ensures i + n < |mask| ==> (mask[i + n] == 0 <==> !zero)
    decreases |mask| - i
  {
    if i == |mask| || (mask[i] == 0) != zero then 0 else 1 + Stretch(mask, i + 1, zero)
  }

  /** Hunks for the non-zero stretches of a mask from `i` on. */
  function HunksOf(mask: seq<byte>, i: nat): seq<Hunk>
    decreases |mask| - i
  {
    if i >= |mask| then []
    else
      var z := Stretch(mask, i, true);
      var j := i + z;
      if j == |mask| then []
      else
        var n := Stretch(mask, j, false);
        [Hunk(z, mask[j..j + n])] + HunksOf(mask, j + n + 1)
  }

  /** Hunks from `i` on: none over zeros alone, else one for the first stretch and those behind its terminator. */
  lemma HunksStep(mask: seq<byte>, i: nat) returns (j: nat, n: nat)
    requires i <= |mask| + 1
    ensures i <= |mask| ==> i <= j <= |mask| && j + n <= |mask|
    ensures forall k :: i <= k < j && k < |mask| ==> mask[k] == 0
    ensures if i >= |mask| || j == |mask| then HunksOf(mask, i) == []
            else HunksOf(mask, i) == [Hunk(j - i, mask[j..j + n])] + HunksOf(mask, j + n + 1)
    ensures i < |mask| && j < |mask| ==>
      && Hunk(j - i, mask[j..j + n]).Legal() && (j + n < |mask| ==> mask[j + n] == 0)
  {
    j, n := i, 0;
    if i < |mask| {
      j := i + Stretch(mask, i, true);
      n := Stretch(mask, j, false);
    }
  }

  lemma OneHunk(h: Hunk, rest: seq<Hunk>, at: nat)
    ensures h.Legal() && AllLegal(rest) ==> AllLegal([h] + rest)
    ensures Spans([h] + rest) == h.Span() + Spans(rest)
    ensures Positions([h] + rest, at) == Placed(h.xs, at + h.skip) + Positions(rest, at + h.Span())
  {
    assert ([h] + rest)[1..] == rest;
  }

  lemma {:induction false} HunksLegal(mask: seq<byte>, i: nat)
    requires i <= |mask| + 1
    ensures AllLegal(HunksOf(mask, i)) && i + Spans(HunksOf(mask, i)) <= |mask| + 1
    decreases |mask| + 1 - i
  {
    hide Spans, Positions, AllLegal, HunksOf, Hunk.Legal;
    var j, n := HunksStep(mask, i);
    if i >= |mask| || j == |mask| {
      NoHunks();
    } else {
      HunksLegal(mask, j + n + 1);
      OneHunk(Hunk(j - i, mask[j..j + n]), HunksOf(mask, j + n + 1), i);
    }
  }

  lemma NoHunks()
    ensures AllLegal([]) && Spans([]) == 0
  {
  }

  /** The diffs of those hunks put the mask's byte at every position. */
  lemma {:induction false} HunksMask(mask: seq<byte>, i: nat, at: nat)
    requires i <= |mask| + 1
    ensures MaskAt(Positions(HunksOf(mask, i), i), at) == if i <= at < |mask| then mask[at] else 0
    ensures InRange(Positions(HunksOf(mask, i), i), |mask|)
    decreases |mask| + 1 - i
  {
    hide XorByte, MaskAt, InRange, Positions, HunksOf, Hunk.Legal, Placed;
    var j, n := HunksStep(mask, i);
    if i >= |mask| || j == |mask| {
      NothingPlaced(i, at, |mask|);
    } else {
      var xs, rest := mask[j..j + n], HunksOf(mask, j + n + 1);
      HunksMask(mask, j + n + 1, at);
      OneHunk(Hunk(j - i, xs), rest, i);
      var behind := Positions(rest, j + n + 1);
      MaskAppends(Placed(xs, j), behind, at);
      PlacedMask(xs, j, at);
      MaskParts(mask, i, j, n, at);
      PlacedInRange(xs, j, behind, |mask|);
    }
  }

  /** One stretch and what lies behind its terminator make up the mask from `i` on. */
  lemma MaskParts(mask: seq<byte>, i: nat, j: nat, n: nat, at: nat)
    requires i <= j && j + n <= |mask| && forall k :: i <= k < j ==> mask[k] == 0
    requires j + n < |mask| ==> mask[j + n] == 0
    ensures XorByte(if j <= at < j + n then mask[j..j + n][at - j] else 0,
                    if j + n + 1 <= at < |mask| then mask[at] else 0)
         == if i <= at < |mask| then mask[at] else 0
  {
    hide XorByte;
    XorWithZero(0);
    if i <= at < |mask| {
      XorWithZero(mask[at]);
    }
  }

  lemma NothingPlaced(i: nat, at: nat, size: nat)
    ensures Positions([], i) == [] && MaskAt([], at) == 0 && InRange([], size)
  {
  }

  lemma PlacedInRange(xs: seq<byte>, from: nat, rest: seq<(nat, byte)>, size: nat)
    requires from + |xs| <= size && InRange(rest, size)
    ensures InRange(Placed(xs, from) + rest, size)
  {
    var all := Placed(xs, from) + rest;
    forall i | 0 <= i < |all|
      ensures all[i].0 < size
    {
      if i >= |xs| {
        assert all[i] == rest[i - |xs|] && rest[i - |xs|] in rest;
      }
    }
  }

  lemma {:induction false} MaskAppends(a: seq<(nat, byte)>, b: seq<(nat, byte)>, at: nat)
    ensures MaskAt(a + b, at) == XorByte(MaskAt(a, at), MaskAt(b, at))
    decreases |a|
  {
    hide XorByte;
    if a == [] {
      assert [] + b == b;
      XorWithZero(MaskAt(b, at));
    } else {
      assert (a + b)[1..] == a[1..] + b;
      MaskAppends(a[1..], b, at);
      XorByteAssociative(a[0].1, MaskAt(a[1..], at), MaskAt(b, at));
    }
  }

  lemma XorWithZero(b: byte)
    ensures XorByte(0, b) == b && XorByte(b, 0) == b
  {
  }

  lemma {:induction false} PlacedMask(xs: seq<byte>, from: nat, at: nat)
    ensures MaskAt(Placed(xs, from), at) == if from <= at < from + |xs| then xs[at - from] else 0
    decreases |xs|
  {
    hide XorByte;
    if xs != [] {
      assert Placed(xs, from)[1..] == Placed(xs[1..], from + 1);
      PlacedMask(xs[1..], from + 1, at);
      XorWithZero(xs[0]);
    }
  }

  /** What has to be laid over a source to make it a target. */
  function Difference(source: seq<byte>, target: seq<byte>): (m: seq<byte>)
    ensures |m| == |target|
  {
    seq(|target|, i requires 0 <= i < |target| =>
      XorByte(if i < |source| then source[i] else 0, target[i]))
  }

  /**
   Any file can be turned into any other: the patch file with a hunk for every stretch in which they
   differ loads, and makes the target of the source.
   */
  lemma AnyTarget(source: seq<byte>, target: seq<byte>, inputCrc: u32, outputCrc: u32, patchCrc: u32)
    requires |source| < U64 && |target| + 1 < U64
    ensures var hunks := HunksOf(Difference(source, target), 0);
            var loaded := Load(PatchFile(|source|, |target|, hunks, inputCrc, outputCrc, patchCrc));
            loaded.Ok? && Meaning(loaded.value, source) == Some(target)
  {
    hide XorByte, HunksOf, PatchFile, Positions, Meaning, Diffs, MaskAt, Difference;
    var mask := Difference(source, target);
    var hunks := HunksOf(mask, 0);
    HunksLegal(mask, 0);
    LoadInverse(|source|, |target|, hunks, inputCrc, outputCrc, patchCrc);
    var p := Load(PatchFile(|source|, |target|, hunks, inputCrc, outputCrc, patchCrc)).value;
    HunksMask(mask, 0, 0);
    SourceIndependent(p, source);
    var out := Meaning(p, source).value;
    forall i | 0 <= i < |target|
      ensures out[i] == target[i]
    {
      HunksMask(mask, 0, i);
      OutputByte(p, source, i);
      Undone(source, target, i);
    }
    assert out == target;
  }

  lemma Undone(source: seq<byte>, target: seq<byte>, i: nat)
    requires i < |target|
    ensures XorByte(if i < |source| then source[i] else 0, Difference(source, target)[i]) == target[i]
  {
    var s: byte := if i < |source| then source[i] else 0;
    XorSelf(s as nat);
    XorWithZero(target[i]);
    XorByteAssociative(s, s, target[i]);
  }
}
