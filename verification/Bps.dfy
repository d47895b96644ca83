/**
 BPS patches: an output built by four kinds of copies. The interpreter fills a zeroed buffer in
 place; its meaning is a machine that only ever appends.
 The CRC-32 is a parameter.
 */
module Bps {
  import opened Bytes
  import opened PatchErrors
  import opened Varint

  datatype BpsPatch = BpsPatch(
    patch: seq<byte>,
    sourceSize: nat,
    targetSize: nat,
    bodyStart: nat,
    sourceCrc: u32,
    targetCrc: u32,
    patchCrc: u32)
  {
    /** What loading establishes. */
    predicate Valid() {
      |patch| >= 16 && bodyStart <= |patch| - 12
    }

    function Trailer(): nat
      requires Valid()
    {
      |patch| - 12
    }
  }

  const MAGIC: seq<byte> := [0x42, 0x50, 0x53, 0x31]

  function Load(bytes: seq<byte>): (r: Result<BpsPatch, PatchError>)
    ensures r.Ok? ==> r.value.Valid() && r.value.patch == bytes
  {
    if |bytes| < 4 || bytes[..4] != MAGIC then Err(Malformed)
    else if |bytes| < 16 then Err(Truncated)
    else
      var source := Read(bytes, 4);
      if source.None? then Err(Truncated)
      else
        var target := Read(bytes, source.value.1);
        if target.None? then Err(Truncated)
        else
          var metadata := Read(bytes, target.value.1);
          if metadata.None? then Err(Truncated)
          else
            var pos := metadata.value.1 + metadata.value.0;
            var trailer := |bytes| - 12;
            if pos >= U64 || pos > trailer then Err(Truncated)
            else
              Ok(BpsPatch(bytes, source.value.0, target.value.0, pos, FromLe32(bytes[trailer..trailer + 4]),
                          FromLe32(bytes[trailer + 4..trailer + 8]), FromLe32(bytes[trailer + 8..])))
  }

  // --- Actions --------------------------------------------------------------------------

  datatype Action =
    | SourceRead(length: nat)
    | TargetRead(data: seq<byte>)
    | SourceCopy(length: nat, offset: int)
    | TargetCopy(length: nat, offset: int)

  /** The action at `pos` and the position after it. Offsets and literals may run into the trailer. */
  function DecodeOne(patch: seq<byte>, pos: nat): (r: Option<(Action, nat)>)
    ensures r.Some? ==> pos < r.value.1 <= |patch|
  {
    var head := Read(patch, pos);
    if head.None? then None
    else
      var (v, next) := head.value;
      var length := v / 4 + 1;
      if v % 4 == 0 then Some((SourceRead(length), next))
      else if v % 4 == 1 then
        if next + length > |patch| then None else Some((TargetRead(patch[next..next + length]), next + length))
      else
        var raw := Read(patch, next);
        if raw.None? then None
        else
          var d := SignedOffset(raw.value.0);
          Some((if v % 4 == 2 then SourceCopy(length, d) else TargetCopy(length, d), raw.value.1))
  }

  /** All actions from `pos` up to the trailer. */
  function Decode(patch: seq<byte>, pos: nat, trailer: nat): Option<seq<Action>>
    decreases |patch| - pos
  {
    if pos >= trailer then Some([])
    else
      var one := DecodeOne(patch, pos);
      if one.None? then None
      else
        var rest := Decode(patch, one.value.1, trailer);
        if rest.None? then None else Some([one.value.0] + rest.value)
  }

  // --- Meaning --------------------------------------------------------------------------

  /** The output so far, and the two cursors. */
  datatype Machine = Machine(done: seq<byte>, src: nat, tgt: nat)

  /** A cursor moved by a signed amount, unless it leaves the machine word. */
  function ApplySigned(base: nat, d: int): Option<nat> {
    if 0 <= base + d < U64 then Some((base + d) as nat) else None
  }

  /** `n` more bytes, each a copy of the output at a cursor that moves along; cells not written yet are 0. */
  function Extended(done: seq<byte>, from: nat, n: nat): (r: seq<byte>)
    ensures |r| == |done| + n && done <= r
  {
    if n == 0 then done
    else
      var before := Extended(done, from, n - 1);
      before + [if from + n - 1 < |before| then before[from + n - 1] else 0]
  }

  /** One action; nothing when it reads or writes out of bounds. */
  function Step(source: seq<byte>, target: nat, m: Machine, a: Action): (r: Option<Machine>)
    ensures r.Some? ==> m.done <= r.value.done && |r.value.done| <= target
  {
    match a
    case SourceRead(n) =>
      if |m.done| + n > target || |m.done| + n > |source| then None
      else Some(m.(done := m.done + source[|m.done|..|m.done| + n]))
    case TargetRead(data) =>
      if |m.done| + |data| > target then None else Some(m.(done := m.done + data))
    case SourceCopy(n, d) =>
      var s := ApplySigned(m.src, d);
      if s.None? || s.value + n > |source| || |m.done| + n > target then None
      else Some(m.(done := m.done + source[s.value..s.value + n], src := s.value + n))
    case TargetCopy(n, d) =>
      var t := ApplySigned(m.tgt, d);
      if t.None? || t.value + n > target || |m.done| + n > target then None
      else Some(m.(done := Extended(m.done, t.value, n), tgt := t.value + n))
  }

  function Run(source: seq<byte>, target: nat, m: Machine, actions: seq<Action>): Option<Machine>
    decreases |actions|
  {
    if actions == [] then Some(m)
    else
      var next := Step(source, target, m, actions[0]);
      if next.None? then None else Run(source, target, next.value, actions[1..])
  }

  /** What the patch makes of a source: the decoded actions run from an empty output, if that has the declared size. */
  function Meaning(p: BpsPatch, source: seq<byte>): Option<seq<byte>>
    requires p.Valid()
  {
    var end := Outcome(p, source, p.bodyStart, Machine([], 0, 0));
    if end.Some? && |end.value.done| == p.targetSize then Some(end.value.done) else None
  }

  /** Decoding the rest and running it. */
  function Outcome(p: BpsPatch, source: seq<byte>, pos: nat, m: Machine): Option<Machine>
    requires p.Valid()
  {
    var actions := Decode(p.patch, pos, p.Trailer());
    if actions.None? then None else Run(source, p.targetSize, m, actions.value)
  }

  lemma OutcomeStep(p: BpsPatch, source: seq<byte>, pos: nat, m: Machine)
    requires p.Valid() && pos < p.Trailer()
    ensures Outcome(p, source, pos, m)
         == var one := DecodeOne(p.patch, pos);
            if one.None? || Step(source, p.targetSize, m, one.value.0).None? then None
            else Outcome(p, source, one.value.1, Step(source, p.targetSize, m, one.value.0).value)
  {
    hide DecodeOne, Step;
    var one := DecodeOne(p.patch, pos);
    if one.Some? {
      var rest := Decode(p.patch, one.value.1, p.Trailer());
      if rest.Some? {
        assert ([one.value.0] + rest.value)[1..] == rest.value;
      }
    }
  }

  // --- The interpreter ------------------------------------------------------------------

  /** The buffer holds the output so far and zeros behind it. */
  predicate Holds(out: seq<byte>, done: seq<byte>) {
    done <= out && forall i :: |done| <= i < |out| ==> out[i] == 0
  }

  lemma SliceOn(from: seq<byte>, at: nat, i: nat)
    requires at + i < |from|
    ensures from[at..at + i + 1] == from[at..at + i] + [from[at + i]]
    ensures from[at..at] == []
  {
  }

  /** How a byte-by-byte copy ended. */
  datatype Copied = Done | PastFrom | PastOut

  /** Copy `length` bytes of `from` to the output, byte by byte. */
  method CopyIn(out: array<byte>, outpos: nat, from: seq<byte>, at: nat, length: nat, ghost done: seq<byte>)
    returns (r: Copied)
    requires Holds(out[..], done) && outpos == |done| && length > 0
    modifies out
    ensures r == Done <==> outpos + length <= out.Length && at + length <= |from|
    ensures r == Done ==> Holds(out[..], done + from[at..at + length])
  {
    var i := 0;
    ghost var copied: seq<byte> := [];
    while i < length
      invariant i <= length && (i > 0 ==> at + i <= |from| && outpos + i <= out.Length)
      invariant |copied| == i && (i > 0 ==> copied == from[at..at + i])
      invariant Holds(out[..], done + copied)
    {
      if at + i >= |from| {
        return PastFrom;
      }
      if outpos + i >= out.Length {
        return PastOut;
      }
      out[outpos + i] := from[at + i];
      SliceOn(from, at, i);
      copied := from[at..at + i + 1];
      i := i + 1;
    }
    r := Done;
  }

  /** Copy `length` bytes of the output to its end, byte by byte: the two stretches may overlap. */
  method CopyBack(out: array<byte>, outpos: nat, at: nat, length: nat, ghost done: seq<byte>) returns (r: Copied)
    requires Holds(out[..], done) && outpos == |done| && length > 0
    modifies out
    ensures r == Done <==> outpos + length <= out.Length && at + length <= out.Length
    ensures r == Done ==> Holds(out[..], Extended(done, at, length))
  {
    var i := 0;
    while i < length
      invariant i <= length && (i > 0 ==> at + i <= out.Length && outpos + i <= out.Length)
      invariant Holds(out[..], Extended(done, at, i))
    {
      if at + i >= out.Length {
        return PastFrom;
      }
      if outpos + i >= out.Length {
        return PastOut;
      }
      ghost var before := Extended(done, at, i);
      assert out[at + i] == if at + i < |before| then before[at + i] else 0;
      out[outpos + i] := out[at + i];
      assert Extended(done, at, i + 1) == before + [out[outpos + i]];
      i := i + 1;
    }
    r := Done;
  }

  /** A successful action moved the cursors to these positions. */
  datatype Cursors = Cursors(pos: nat, src: nat, tgt: nat, length: nat)

  /** Decode the action at `pos` and carry it out. */
  method Execute(p: BpsPatch, source: seq<byte>, out: array<byte>, outpos: nat, cur: Cursors, ghost m: Machine)
    returns (r: Result<Cursors, PatchError>)
    requires p.Valid() && cur.pos < p.Trailer() && out.Length == p.targetSize
    requires Holds(out[..], m.done) && outpos == |m.done| && m.src == cur.src && m.tgt == cur.tgt
    modifies out
    ensures var one := DecodeOne(p.patch, cur.pos);
            r.Ok? <==> one.Some? && Step(source, p.targetSize, m, one.value.0).Some?
    ensures r.Err? ==> r.error == Malformed || r.error == Truncated
    ensures r.Ok? ==>
      var one := DecodeOne(p.patch, cur.pos).value;
      var next := Step(source, p.targetSize, m, one.0).value;
      && r.value == Cursors(one.1, next.src, next.tgt, |next.done| - |m.done|)
      && Holds(out[..], next.done)
  {
    hide Read, SignedOffset;
    var data, pos := ReadVarint(p.patch, cur.pos);
    if data.None? {
      return Err(Truncated);
    }
    var command, length := data.value % 4, data.value / 4 + 1;
    if command == 0 {
      var c := CopyIn(out, outpos, source, outpos, length, m.done);
      return if c == Done then Ok(Cursors(pos, cur.src, cur.tgt, length)) else Err(Malformed);
    }
    if command == 1 {
      var c := CopyIn(out, outpos, p.patch, pos, length, m.done);
      return if c == Done then Ok(Cursors(pos + length, cur.src, cur.tgt, length))
             else Err(if c == PastFrom then Truncated else Malformed);
    }
    var raw, next := ReadVarint(p.patch, pos);
    if raw.None? {
      return Err(Truncated);
    }
    var d := SignedOffset(raw.value);
    var base := ApplySigned(if command == 2 then cur.src else cur.tgt, d);
    if base.None? {
      return Err(Malformed);
    }
    var end := base.value + length;
    if command == 2 {
      var c := CopyIn(out, outpos, source, base.value, length, m.done);
      r := if c == Done then Ok(Cursors(next, end, cur.tgt, length)) else Err(Malformed);
    } else {
      var c := CopyBack(out, outpos, base.value, length, m.done);
      r := if c == Done then Ok(Cursors(next, cur.src, end, length)) else Err(Malformed);
    }
  }

  /** Run the action stream into a zeroed buffer of the declared size. */
  method Interpret(p: BpsPatch, source: seq<byte>) returns (r: Result<seq<byte>, PatchError>)
    requires p.Valid()
    ensures r.Ok? <==> Meaning(p, source).Some?
    ensures r.Err? ==> r.error == Malformed || r.error == Truncated
    ensures r.Ok? ==> r.value == Meaning(p, source).value
  {
    hide DecodeOne, Step, Outcome;
    var out := new byte[p.targetSize](_ => 0);
    var outpos := 0;
    var cur := Cursors(p.bodyStart, 0, 0, 0);
    ghost var m := Machine([], 0, 0);
    while cur.pos < p.Trailer()
      invariant cur.pos <= |p.patch| && Holds(out[..], m.done) && outpos == |m.done|
      invariant m.src == cur.src && m.tgt == cur.tgt
      invariant Outcome(p, source, cur.pos, m) == Outcome(p, source, p.bodyStart, Machine([], 0, 0))
      decreases |p.patch| - cur.pos
    {
      OutcomeStep(p, source, cur.pos, m);
      var next := Execute(p, source, out, outpos, cur, m);
      if next.Err? {
        return Err(next.error);
      }
      m := Step(source, p.targetSize, m, DecodeOne(p.patch, cur.pos).value.0).value;
      outpos := outpos + next.value.length;
      cur := next.value;
    }
    OutcomeEnd(p, source, cur.pos, m);
    if outpos != p.targetSize {
      return Err(Malformed);
    }
    assert out[..] == m.done;
    r := Ok(out[..]);
  }

  lemma OutcomeEnd(p: BpsPatch, source: seq<byte>, pos: nat, m: Machine)
    requires p.Valid() && pos >= p.Trailer()
    ensures Outcome(p, source, pos, m) == Some(m)
  {
  }

  /** Every checksum and size the patch carries fits. */
  predicate Checked(p: BpsPatch, source: seq<byte>, crc: seq<byte> -> u32)
    requires p.Valid()
  {
    && crc(p.patch[..|p.patch| - 4]) == p.patchCrc
    && |source| == p.sourceSize
    && crc(source) == p.sourceCrc
  }

  /** Without verification the result is the patch's meaning; with it, only when all checksums fit. */
  method Apply(p: BpsPatch, source: seq<byte>, verify: bool, crc: seq<byte> -> u32)
    returns (r: Result<seq<byte>, PatchError>)
    requires p.Valid()
    ensures r.Ok? <==>
      && Meaning(p, source).Some?
      && (verify ==> Checked(p, source, crc) && crc(Meaning(p, source).value) == p.targetCrc)
    ensures r.Ok? ==> r.value == Meaning(p, source).value
    ensures verify && crc(p.patch[..|p.patch| - 4]) != p.patchCrc ==> r == Err(PatchCrc)
    ensures verify && crc(p.patch[..|p.patch| - 4]) == p.patchCrc && |source| != p.sourceSize ==> r == Err(SourceSize)
    ensures
      verify && crc(p.patch[..|p.patch| - 4]) == p.patchCrc && |source| == p.sourceSize && crc(source) != p.sourceCrc
      ==> r == Err(SourceCrc)
    ensures
      verify && Checked(p, source, crc) && Meaning(p, source).Some? && crc(Meaning(p, source).value) != p.targetCrc
      ==> r == Err(TargetCrc)
    ensures r.Err? && (!verify || (Checked(p, source, crc) && Meaning(p, source).None?)) ==>
      r.error == Malformed || r.error == Truncated
  {
    if verify {
      if crc(p.patch[..|p.patch| - 4]) != p.patchCrc {
        return Err(PatchCrc);
      }
      if |source| != p.sourceSize {
        return Err(SourceSize);
      }
      if crc(source) != p.sourceCrc {
        return Err(SourceCrc);
      }
    }
    r := Interpret(p, source);
    if verify && r.Ok? && crc(r.value) != p.targetCrc {
      r := Err(TargetCrc);
    }
  }

  // --- Properties of the machine --------------------------------------------------------

  /**
   Output cells are written once and in order: what a run has produced is never changed by the rest
   of it, and never passes the declared size.
   */
  lemma {:induction false} OutputGrows(source: seq<byte>, target: nat, m: Machine, actions: seq<Action>)
    requires |m.done| <= target && Run(source, target, m, actions).Some?
    ensures var end := Run(source, target, m, actions).value;
            m.done <= end.done && |end.done| <= target
    decreases |actions|
  {
    if actions != [] {
      OutputGrows(source, target, Step(source, target, m, actions[0]).value, actions[1..]);
    }
  }

  /** A copy from `d` cells back, however long, repeats those `d` cells. */
  lemma {:induction false} CopyPeriodic(done: seq<byte>, from: nat, n: nat, i: nat)
    requires from < |done| <= i < |done| + n
    ensures Extended(done, from, n)[i] == Extended(done, from, n)[i - (|done| - from)]
  {
    if i < |done| + n - 1 {
      CopyPeriodic(done, from, n - 1, i);
    }
  }

  // --- Serialization --------------------------------------------------------------------

  const I63: int := 0x8000_0000_0000_0000

  /** Actions a patch can carry. */
  predicate Legal(a: Action) {
    match a
    case SourceRead(n) => 0 < n <= U64 / 4
    case TargetRead(data) => 0 < |data| <= U64 / 4
    case SourceCopy(n, d) => 0 < n <= U64 / 4 && -I63 < d < I63
    case TargetCopy(n, d) => 0 < n <= U64 / 4 && -I63 < d < I63
  }

  function Serialize(a: Action): (s: seq<byte>)
    requires Legal(a)
  {
    match a
    case SourceRead(n) => Encode((n - 1) * 4)
    case TargetRead(data) => Encode((|data| - 1) * 4 + 1) + data
    case SourceCopy(n, d) => Encode((n - 1) * 4 + 2) + Encode(EncodeOffset(d))
    case TargetCopy(n, d) => Encode((n - 1) * 4 + 3) + Encode(EncodeOffset(d))
  }

  predicate AllLegal(actions: seq<Action>) {
    forall i :: 0 <= i < |actions| ==> Legal(actions[i])
  }

  function SerializeAll(actions: seq<Action>): (s: seq<byte>)
    requires AllLegal(actions)
  {
    if actions == [] then [] else Serialize(actions[0]) + SerializeAll(actions[1..])
  }

  lemma DecodeSerialized(buf: seq<byte>, pos: nat, a: Action)
    requires Legal(a) && At(buf, pos, Serialize(a))
    ensures DecodeOne(buf, pos) == Some((a, pos + |Serialize(a)|))
  {
    hide Read, Encode, SignedOffset, EncodeOffset;
    match a
    case SourceRead(n) =>
      ReadEncoded(buf, pos, (n - 1) * 4);
    case TargetRead(data) =>
      var v := (|data| - 1) * 4 + 1;
      AtParts(buf, pos, Encode(v), data);
      ReadEncoded(buf, pos, v);
    case SourceCopy(n, d) =>
      DecodeCopy(buf, pos, (n - 1) * 4 + 2, d);
    case TargetCopy(n, d) =>
      DecodeCopy(buf, pos, (n - 1) * 4 + 3, d);
  }

  lemma DecodeCopy(buf: seq<byte>, pos: nat, v: nat, d: int)
    requires v < U64 && -I63 < d < I63 && At(buf, pos, Encode(v) + Encode(EncodeOffset(d)))
    ensures Read(buf, pos) == Some((v, pos + |Encode(v)|))
    ensures Read(buf, pos + |Encode(v)|) == Some((EncodeOffset(d), pos + |Encode(v) + Encode(EncodeOffset(d))|))
    ensures SignedOffset(EncodeOffset(d)) == d
  {
    hide Read, Encode, SignedOffset, EncodeOffset;
    AtParts(buf, pos, Encode(v), Encode(EncodeOffset(d)));
    ReadEncoded(buf, pos, v);
    ReadEncoded(buf, pos + |Encode(v)|, EncodeOffset(d));
    OffsetRoundTrip(d, 0);
  }

  /** Decoding the serialization of any list of actions gives the list. */
  lemma {:induction false} DecodeInverse(buf: seq<byte>, pos: nat, actions: seq<Action>, trailer: nat)
    requires AllLegal(actions) && At(buf, pos, SerializeAll(actions)) && trailer == pos + |SerializeAll(actions)|
    ensures Decode(buf, pos, trailer) == Some(actions)
    decreases |actions|
  {
    hide DecodeOne, Serialize;
    if actions != [] {
      var a, rest := actions[0], actions[1..];
      AtParts(buf, pos, Serialize(a), SerializeAll(rest));
      DecodeSerialized(buf, pos, a);
      DecodeInverse(buf, pos + |Serialize(a)|, rest, trailer);
      SerializeSome(a);
      assert [a] + rest == actions;
    }
  }

  lemma SerializeSome(a: Action)
    requires Legal(a)
    ensures |Serialize(a)| > 0
  {
  }

  /** A whole patch file. */
  function PatchFile(sourceSize: nat, targetSize: nat, metadata: seq<byte>, actions: seq<Action>,
                     sourceCrc: u32, targetCrc: u32, patchCrc: u32): seq<byte>
    requires AllLegal(actions)
  {
    MAGIC + (Encode(sourceSize) + (Encode(targetSize) + (Encode(|metadata|) + (metadata
      + (SerializeAll(actions) + (Le32(sourceCrc) + (Le32(targetCrc) + Le32(patchCrc))))))))
  }

  /** Where the parts of a patch file stand. */
  datatype Layout = Layout(target: nat, metadata: nat, content: nat, body: nat, trailer: nat)

  function LayoutOf(sourceSize: nat, targetSize: nat, metadata: seq<byte>, actions: seq<Action>): Layout
    requires AllLegal(actions)
  {
    var p1 := 4 + |Encode(sourceSize)|;
    var p2 := p1 + |Encode(targetSize)|;
    var p3 := p2 + |Encode(|metadata|)|;
    Layout(p1, p2, p3, p3 + |metadata|, p3 + |metadata| + |SerializeAll(actions)|)
  }

  /** What follows the metadata. */
  function FileRest(actions: seq<Action>, sourceCrc: u32, targetCrc: u32, patchCrc: u32): seq<byte>
    requires AllLegal(actions)
  {
    SerializeAll(actions) + (Le32(sourceCrc) + (Le32(targetCrc) + Le32(patchCrc)))
  }

  /** The sizes and the metadata at the front of a file. */
  lemma FileFront(sourceSize: nat, targetSize: nat, metadata: seq<byte>, actions: seq<Action>,
                  sourceCrc: u32, targetCrc: u32, patchCrc: u32)
    requires AllLegal(actions)
    ensures var file := PatchFile(sourceSize, targetSize, metadata, actions, sourceCrc, targetCrc, patchCrc);
            var l := LayoutOf(sourceSize, targetSize, metadata, actions);
            && At(file, 0, MAGIC) && At(file, 4, Encode(sourceSize)) && At(file, l.target, Encode(targetSize))
            && At(file, l.metadata, Encode(|metadata|))
            && At(file, l.body, FileRest(actions, sourceCrc, targetCrc, patchCrc))
            && |file| == l.body + |FileRest(actions, sourceCrc, targetCrc, patchCrc)|
  {
    hide Encode, SerializeAll, Le32, At, FileRest;
    var rest := FileRest(actions, sourceCrc, targetCrc, patchCrc);
    var file := MAGIC + (Encode(sourceSize) + (Encode(targetSize) + (Encode(|metadata|) + (metadata + rest))));
    var l := LayoutOf(sourceSize, targetSize, metadata, actions);
    assert file == PatchFile(sourceSize, targetSize, metadata, actions, sourceCrc, targetCrc, patchCrc) by {
      RestIs(actions, sourceCrc, targetCrc, patchCrc);
    }
    AtAll(file);
    AtParts(file, 0, MAGIC, Encode(sourceSize) + (Encode(targetSize) + (Encode(|metadata|) + (metadata + rest))));
    AtParts(file, 4, Encode(sourceSize), Encode(targetSize) + (Encode(|metadata|) + (metadata + rest)));
    AtParts(file, l.target, Encode(targetSize), Encode(|metadata|) + (metadata + rest));
    AtParts(file, l.metadata, Encode(|metadata|), metadata + rest);
    AtParts(file, l.content, metadata, rest);
  }

  lemma RestIs(actions: seq<Action>, sourceCrc: u32, targetCrc: u32, patchCrc: u32)
    requires AllLegal(actions)
    ensures FileRest(actions, sourceCrc, targetCrc, patchCrc)
         == SerializeAll(actions) + (Le32(sourceCrc) + (Le32(targetCrc) + Le32(patchCrc)))
  {
  }

  /** The actions and the three checksums at its end. */
  lemma FileEnd(file: seq<byte>, at: nat, actions: seq<Action>, sourceCrc: u32, targetCrc: u32, patchCrc: u32)
    requires AllLegal(actions) && At(file, at, FileRest(actions, sourceCrc, targetCrc, patchCrc))
    requires |file| == at + |FileRest(actions, sourceCrc, targetCrc, patchCrc)|
    ensures var trailer := at + |SerializeAll(actions)|;
            && At(file, at, SerializeAll(actions)) && At(file, trailer, Le32(sourceCrc))
            && At(file, trailer + 4, Le32(targetCrc)) && At(file, trailer + 8, Le32(patchCrc))
            && trailer == |file| - 12
  {
    hide SerializeAll, Le32, At;
    var trailer := at + |SerializeAll(actions)|;
    AtParts(file, at, SerializeAll(actions), Le32(sourceCrc) + (Le32(targetCrc) + Le32(patchCrc)));
    AtParts(file, trailer, Le32(sourceCrc), Le32(targetCrc) + Le32(patchCrc));
    AtParts(file, trailer + 4, Le32(targetCrc), Le32(patchCrc));
  }

  /** Loading a patch file gives back all of it, and its meaning is to run its actions. */
  lemma LoadInverse(sourceSize: nat, targetSize: nat, metadata: seq<byte>, actions: seq<Action>,
                    sourceCrc: u32, targetCrc: u32, patchCrc: u32, source: seq<byte>)
    requires AllLegal(actions) && sourceSize < U64 && targetSize < U64
    requires |PatchFile(sourceSize, targetSize, metadata, actions, sourceCrc, targetCrc, patchCrc)| < U64
    ensures var file := PatchFile(sourceSize, targetSize, metadata, actions, sourceCrc, targetCrc, patchCrc);
            var start := LayoutOf(sourceSize, targetSize, metadata, actions).body;
            && Load(file) == Ok(BpsPatch(file, sourceSize, targetSize, start, sourceCrc, targetCrc, patchCrc))
            && Load(file).value.Valid()
            && (Meaning(Load(file).value, source)
                == var end := Run(source, targetSize, Machine([], 0, 0), actions);
                   if end.Some? && |end.value.done| == targetSize then Some(end.value.done) else None)
  {
    hide Encode, Read, Decode, Run, SerializeAll, Le32, FromLe32, PatchFile, FileRest;
    var file := PatchFile(sourceSize, targetSize, metadata, actions, sourceCrc, targetCrc, patchCrc);
    var l := LayoutOf(sourceSize, targetSize, metadata, actions);
    FileFront(sourceSize, targetSize, metadata, actions, sourceCrc, targetCrc, patchCrc);
    FileEnd(file, l.body, actions, sourceCrc, targetCrc, patchCrc);
    ReadEncoded(file, 4, sourceSize);
    ReadEncoded(file, l.target, targetSize);
    ReadEncoded(file, l.metadata, |metadata|);
    Le32RoundTrip(sourceCrc);
    Le32RoundTrip(targetCrc);
    Le32RoundTrip(patchCrc);
    assert file[l.trailer + 8..] == file[l.trailer + 8..l.trailer + 8 + 4];
    DecodeInverse(file, l.body, actions, l.trailer);
  }
}
