/** IPS patches: an ordered list of overwrites and runs, and an optional length to cut the result to. */
module Ips {
  import opened Bytes

  datatype IpsError = InvalidHeader | Truncated | TrailingData(extra: nat)

  datatype Record =
    | Data(addr: nat, data: seq<byte>)
    | Rle(addr: nat, value: byte, count: nat)

  datatype IpsPatch = IpsPatch(records: seq<Record>, truncate: Option<nat>)

  const MAGIC: seq<byte> := [0x50, 0x41, 0x54, 0x43, 0x48]
  const EOF_MARKER: nat := 0x45_4F46

  function U16(buf: seq<byte>, i: nat): (v: nat)
    requires i + 2 <= |buf|
    ensures v < 0x1_0000
  {
    buf[i] as nat * 0x100 + buf[i + 1] as nat
  }

  function U24(buf: seq<byte>, i: nat): (v: nat)
    requires i + 3 <= |buf|
    ensures v < 0x100_0000
  {
    buf[i] as nat * 0x1_0000 + buf[i + 1] as nat * 0x100 + buf[i + 2] as nat
  }

  // --- Parsing --------------------------------------------------------------------------

  /** The record at `i` and the position after it. */
  function OneRecord(patch: seq<byte>, i: nat): (r: Option<(Record, nat)>)
    requires i + 3 <= |patch|
    ensures r.Some? ==> i < r.value.1 <= |patch|
  {
    var addr := U24(patch, i);
    if i + 5 > |patch| then None
    else
      var len := U16(patch, i + 3);
      if len == 0 then
        if i + 8 > |patch| then None else Some((Rle(addr, patch[i + 7], U16(patch, i + 5)), i + 8))
      else if i + 5 + len > |patch| then None
      else Some((Data(addr, patch[i + 5..i + 5 + len]), i + 5 + len))
  }

  /** Records from `i` to the end marker, and the truncate length behind it. */
  function Parse(patch: seq<byte>, i: nat): Result<IpsPatch, IpsError>
    decreases |patch| - i
  {
    if i + 3 > |patch| then Err(Truncated)
    else if U24(patch, i) == EOF_MARKER then
      var extra := |patch| - (i + 3);
      if extra == 0 then Ok(IpsPatch([], None))
      else if extra == 3 then Ok(IpsPatch([], Some(U24(patch, i + 3))))
      else Err(TrailingData(extra))
    else
      var one := OneRecord(patch, i);
      if one.None? then Err(Truncated) else Prepend([one.value.0], Parse(patch, one.value.1))
  }

  function Prepend(records: seq<Record>, rest: Result<IpsPatch, IpsError>): Result<IpsPatch, IpsError> {
    if rest.Err? then rest else Ok(IpsPatch(records + rest.value.records, rest.value.truncate))
  }

  lemma PrependOn(records: seq<Record>, r: Record, rest: Result<IpsPatch, IpsError>)
    ensures Prepend(records, Prepend([r], rest)) == Prepend(records + [r], rest)
    ensures Prepend([], rest) == rest
  {
    if rest.Ok? {
      assert records + ([r] + rest.value.records) == (records + [r]) + rest.value.records;
      assert [] + rest.value.records == rest.value.records;
    }
  }

  function Loaded(patch: seq<byte>): Result<IpsPatch, IpsError> {
    if |patch| < 5 || patch[..5] != MAGIC then Err(InvalidHeader) else Parse(patch, 5)
  }

  method Load(patch: seq<byte>) returns (r: Result<IpsPatch, IpsError>)
    ensures r == Loaded(patch)
  {
    hide U16, U24;
    if |patch| < 5 || patch[..5] != MAGIC {
      return Err(InvalidHeader);
    }
    var i, n := 5, |patch|;
    var records := [];
    PrependOn([], Rle(0, 0, 0), Parse(patch, 5));
    while i + 3 <= n
      invariant 5 <= i <= n && Prepend(records, Parse(patch, i)) == Parse(patch, 5)
    {
      var addr := U24(patch, i);
      ghost var at := i;
      i := i + 3;
      if addr == EOF_MARKER {
        assert records + [] == records;
        match n - i {
          case 0 => return Ok(IpsPatch(records, None));
          case 3 => return Ok(IpsPatch(records, Some(U24(patch, i))));
          case extra => return Err(TrailingData(extra));
        }
      }
      if i + 2 > n {
        return Err(Truncated);
      }
      var len := U16(patch, i);
      i := i + 2;
      var record;
      if len == 0 {
        if i + 3 > n {
          return Err(Truncated);
        }
        record := Rle(addr, patch[i + 2], U16(patch, i));
        i := i + 3;
      } else {
        if i + len > n {
          return Err(Truncated);
        }
        record := Data(addr, patch[i..i + len]);
        i := i + len;
      }
      assert OneRecord(patch, at) == Some((record, i));
      PrependOn(records, record, Parse(patch, i));
      records := records + [record];
    }
    r := Err(Truncated);
  }

  // --- Serialization --------------------------------------------------------------------

  function Bytes16(v: nat): (s: seq<byte>)
    requires v < 0x1_0000
    ensures |s| == 2
  {
    [(v / 0x100) as byte, (v % 0x100) as byte]
  }

  function Bytes24(v: nat): (s: seq<byte>)
    requires v < 0x100_0000
    ensures |s| == 3
  {
    [(v / 0x1_0000) as byte, (v / 0x100 % 0x100) as byte, (v % 0x100) as byte]
  }

  /** Records the format can hold: no record may start where the end marker would be read. */
  predicate Legal(r: Record) {
    && r.addr < 0x100_0000 && r.addr != EOF_MARKER
    && match r
       case Data(_, data) => 0 < |data| < 0x1_0000
       case Rle(_, _, count) => count < 0x1_0000
  }

  predicate LegalPatch(p: IpsPatch) {
    && (forall r <- p.records :: Legal(r))
    && (p.truncate.Some? ==> p.truncate.value < 0x100_0000)
  }

  function Serialize(r: Record): (s: seq<byte>)
    requires Legal(r)
    ensures |s| >= 5
  {
    match r
    case Data(addr, data) => Bytes24(addr) + Bytes16(|data|) + data
    case Rle(addr, value, count) => Bytes24(addr) + [0, 0] + Bytes16(count) + [value]
  }

  function Body(p: IpsPatch): seq<byte>
    requires LegalPatch(p)
    decreases |p.records|
  {
    if p.records == [] then
      Bytes24(EOF_MARKER) + (if p.truncate.Some? then Bytes24(p.truncate.value) else [])
    else Serialize(p.records[0]) + Body(p.(records := p.records[1..]))
  }

  /** The file of a patch. */
  function File(p: IpsPatch): seq<byte>
    requires LegalPatch(p)
  {
    MAGIC + Body(p)
  }

  lemma Read16(buf: seq<byte>, i: nat, v: nat)
    requires i + 2 <= |buf| && v < 0x1_0000
    ensures U16(buf, i) == v <==> buf[i..i + 2] == Bytes16(v)
  {
  }

  lemma Read24(buf: seq<byte>, i: nat, v: nat)
    requires i + 3 <= |buf| && v < 0x100_0000
    ensures U24(buf, i) == v <==> buf[i..i + 3] == Bytes24(v)
  {
    var s := Bytes24(v);
    assert v == v / 0x1_0000 * 0x1_0000 + v / 0x100 % 0x100 * 0x100 + v % 0x100;
    assert U24(s, 0) == v;
    if U24(buf, i) == v {
      Digits(buf[i], buf[i + 1], buf[i + 2], s[0], s[1], s[2]);
    }
  }

  lemma Digits(a: byte, b: byte, c: byte, x: byte, y: byte, z: byte)
    requires a as nat * 0x1_0000 + b as nat * 0x100 + c as nat == x as nat * 0x1_0000 + y as nat * 0x100 + z as nat
    ensures a == x && b == y && c == z
  {
  }

  /** Reading at `i` what a record serializes to, and only that, gives the record. */
  lemma OneRecordInverse(buf: seq<byte>, i: nat, r: Record)
    requires i + 3 <= |buf| && Legal(r)
    ensures OneRecord(buf, i) == Some((r, i + |Serialize(r)|)) <==>
      (i + |Serialize(r)| <= |buf| && buf[i..i + |Serialize(r)|] == Serialize(r))
  {
    hide U16, U24, Bytes16, Bytes24;
    var s, n := Serialize(r), |Serialize(r)|;
    Read24(buf, i, r.addr);
    if i + n <= |buf| {
      var part := buf[i..i + n];
      SubSlice(buf, i, i + n, 0, 3);
      SubSlice(buf, i, i + n, 3, 5);
      SubSlice(buf, i, i + n, 5, n);
      match r
      case Data(addr, data) =>
        Read16(buf, i + 3, |data|);
        assert s[..3] == Bytes24(addr) && s[3..5] == Bytes16(|data|) && s[5..] == data;
        assert part == part[..3] + part[3..5] + part[5..];
        assert part[5..] == buf[i + 5..i + n];
      case Rle(addr, value, count) =>
        Read16(buf, i + 3, 0);
        ZeroBytes();
        Read16(buf, i + 5, count);
        SubSlice(buf, i, i + n, 5, 7);
        SubSlice(buf, i, i + n, 7, 8);
        assert s[..3] == Bytes24(addr) && s[3..5] == Bytes16(0) && s[5..7] == Bytes16(count) && s[7..] == [value];
        assert part == part[..3] + part[3..5] + part[5..7] + part[7..];
    }
  }

  lemma ZeroBytes()
    ensures Bytes16(0) == [0, 0]
  {
  }

  /** Parsing undoes serialization. */
  lemma {:induction false} ParseInverse(buf: seq<byte>, i: nat, p: IpsPatch)
    requires LegalPatch(p) && i <= |buf| && buf[i..] == Body(p)
    ensures Parse(buf, i) == Ok(p)
    decreases |p.records|
  {
    hide U16, U24, Bytes16, Bytes24, Serialize, OneRecord;
    if p.records == [] {
      var t := if p.truncate.Some? then Bytes24(p.truncate.value) else [];
      assert Body(p) == Bytes24(EOF_MARKER) + t;
      assert buf[i..i + 3] == buf[i..][..3] == Bytes24(EOF_MARKER);
      Read24(buf, i, EOF_MARKER);
      if p.truncate.Some? {
        assert buf[i + 3..i + 3 + 3] == buf[i..][3..] == t;
        Read24(buf, i + 3, p.truncate.value);
      }
    } else {
      var r, rest := p.records[0], p.(records := p.records[1..]);
      assert r in p.records && Legal(r);
      assert Body(p) == Serialize(r) + Body(rest);
      var n := |Serialize(r)|;
      assert buf[i..i + n] == buf[i..][..n] == Serialize(r);
      OneRecordInverse(buf, i, r);
      assert buf[i + n..] == buf[i..][n..] == Body(rest);
      StartsWithAddress(buf, i, r);
      ParseInverse(buf, i + n, rest);
      assert [r] + p.records[1..] == p.records;
    }
  }

  lemma StartsWithAddress(buf: seq<byte>, i: nat, r: Record)
    requires Legal(r) && i + |Serialize(r)| <= |buf| && buf[i..i + |Serialize(r)|] == Serialize(r)
    ensures U24(buf, i) == r.addr
  {
    hide U24, Bytes16, Bytes24;
    assert buf[i..i + 3] == buf[i..i + |Serialize(r)|][..3] == Bytes24(r.addr);
    Read24(buf, i, r.addr);
  }

  /** Whatever parses is a legal patch and reads exactly as that patch is written. */
  lemma {:induction false} ParseOnly(buf: seq<byte>, i: nat)
    requires i <= |buf| && Parse(buf, i).Ok?
    ensures LegalPatch(Parse(buf, i).value) && buf[i..] == Body(Parse(buf, i).value)
    decreases |buf| - i
  {
    hide U16, U24, Bytes16, Bytes24, Serialize, OneRecord;
    var p := Parse(buf, i).value;
    if U24(buf, i) == EOF_MARKER {
      Read24(buf, i, EOF_MARKER);
      if p.truncate.Some? {
        Read24(buf, i + 3, p.truncate.value);
        assert buf[i..] == buf[i..i + 3] + buf[i + 3..i + 6];
      } else {
        assert buf[i..] == buf[i..i + 3];
      }
    } else {
      var (r, next) := OneRecord(buf, i).value;
      ParseOnly(buf, next);
      var rest := Parse(buf, next).value;
      RecordLegal(buf, i);
      OneRecordInverse(buf, i, r);
      assert p.records == [r] + rest.records && p.records[1..] == rest.records;
      assert p.(records := p.records[1..]) == rest;
      assert forall x :: x in p.records <==> x == r || x in rest.records;
      assert buf[i..] == buf[i..next] + buf[next..];
    }
  }

  lemma RecordLegal(buf: seq<byte>, i: nat)
    requires i + 3 <= |buf| && U24(buf, i) != EOF_MARKER && OneRecord(buf, i).Some?
    ensures var (r, next) := OneRecord(buf, i).value;
            Legal(r) && next == i + |Serialize(r)|
  {
    hide Bytes16, Bytes24, U24;
  }

  /** The files that load are the files of legal patches, and each loads as its own patch. */
  lemma LoadInverse(p: IpsPatch, file: seq<byte>)
    ensures LegalPatch(p) ==> Loaded(File(p)) == Ok(p)
    ensures Loaded(file).Ok? ==> LegalPatch(Loaded(file).value) && file == File(Loaded(file).value)
  {
    hide Parse, LegalPatch, Body;
    if LegalPatch(p) {
      assert File(p)[..5] == MAGIC && File(p)[5..] == Body(p);
      ParseInverse(File(p), 5, p);
    }
    if Loaded(file).Ok? {
      ParseOnly(file, 5);
      assert file == file[..5] + file[5..];
    }
  }

  // --- Bytes of a file ----------------------------------------------------------------

  /** The word at `at`. */
  predicate Says(file: seq<byte>, at: nat, word: string) {
    at + |word| <= |file| && forall i :: 0 <= i < |word| ==> file[at + i] as char == word[i]
  }

  lemma MagicSaid(file: seq<byte>)
    requires |file| >= 5
    ensures file[..5] == MAGIC <==> Says(file, 0, "PATCH")
  {
    var head := file[..5];
    assert head[0] == file[0] && head[1] == file[1] && head[2] == file[2] && head[3] == file[3] && head[4] == file[4];
    if Says(file, 0, "PATCH") {
      var w := "PATCH";
      assert file[0] as char == w[0] && file[1] as char == w[1] && file[2] as char == w[2];
      assert file[3] as char == w[3] && file[4] as char == w[4];
    }
  }

  lemma EndSaid(file: seq<byte>, i: nat)
    requires i + 3 <= |file|
    ensures U24(file, i) == EOF_MARKER <==> Says(file, i, "EOF")
  {
    Digits(file[i], file[i + 1], file[i + 2], file[i], file[i + 1], file[i + 2]);
    if U24(file, i) == EOF_MARKER {
      Digits(file[i], file[i + 1], file[i + 2], 0x45, 0x4F, 0x46);
    }
    if Says(file, i, "EOF") {
      var w := "EOF";
      assert file[i] as char == w[0] && file[i + 1] as char == w[1] && file[i + 2] as char == w[2];
    }
  }

  /** A file that loads starts with PATCH and ends with EOF, or with EOF and a length of three bytes, high one first. */
  lemma FileBytes(file: seq<byte>)
    requires Loaded(file).Ok?
    ensures Says(file, 0, "PATCH")
    ensures var n, t := |file|, Loaded(file).value.truncate;
            match t
            case None => n >= 8 && Says(file, n - 3, "EOF")
            case Some(len) =>
              && n >= 11 && Says(file, n - 6, "EOF")
              && len == file[n - 3] as nat * 0x1_0000 + file[n - 2] as nat * 0x100 + file[n - 1] as nat
  {
    hide Says, U24;
    MagicSaid(file);
    EndOfFile(file, 5);
  }

  lemma {:induction false} EndOfFile(file: seq<byte>, i: nat)
    requires 5 <= i <= |file| && Parse(file, i).Ok?
    ensures var n, t := |file|, Parse(file, i).value.truncate;
            match t
            case None => n >= 8 && Says(file, n - 3, "EOF")
            case Some(len) =>
              && n >= 11 && Says(file, n - 6, "EOF")
              && len == file[n - 3] as nat * 0x1_0000 + file[n - 2] as nat * 0x100 + file[n - 1] as nat
    decreases |file| - i
  {
    hide Says, OneRecord;
    EndSaid(file, i);
    if U24(file, i) != EOF_MARKER {
      EndOfFile(file, OneRecord(file, i).value.1);
    }
  }

  /**
   A record's bytes: address and length, high bytes first, then its data; or a length of 0, a count and
   the byte to repeat.
   */
  lemma RecordBytes(file: seq<byte>, i: nat)
    requires i + 3 <= |file| && OneRecord(file, i).Some?
    ensures var (r, next) := OneRecord(file, i).value;
            && i + 5 <= next <= |file|
            && r.addr == file[i] as nat * 0x1_0000 + file[i + 1] as nat * 0x100 + file[i + 2] as nat
            && var len := file[i + 3] as nat * 0x100 + file[i + 4] as nat;
               if len > 0 then r.Data? && next == i + 5 + len && r.data == file[i + 5..next]
               else r.Rle? && next == i + 8 && r.count == file[i + 5] as nat * 0x100 + file[i + 6] as nat
                    && r.value == file[i + 7]
  {
  }

  // --- Applying -------------------------------------------------------------------------

  /** Past the last byte a record covers. */
  function End(r: Record): nat {
    match r
    case Data(addr, data) => addr + |data|
    case Rle(addr, _, count) => addr + count
  }

  predicate Covers(r: Record, i: nat) {
    r.addr <= i < End(r)
  }

  /** The byte a record puts at a position it covers. */
  function ByteOf(r: Record, i: nat): byte
    requires Covers(r, i)
  {
    match r
    case Data(addr, data) => data[i - addr]
    case Rle(_, value, _) => value
  }

  /** Length before truncation: the ROM's, or where the furthest of the first `k` records ends. */
  function Grown(records: seq<Record>, k: nat, len: nat): (n: nat)
    requires k <= |records|
    ensures n >= len
  {
    if k == 0 then len else Larger(Grown(records, k - 1, len), End(records[k - 1]))
  }

  /**
   The byte at `i` after the first `k` records: what the last one covering it put there, else the ROM's,
   else zero.
   */
  function Cell(rom: seq<byte>, records: seq<Record>, k: nat, i: nat): byte
    requires k <= |records|
  {
    if k == 0 then (if i < |rom| then rom[i] else 0)
    else if Covers(records[k - 1], i) then ByteOf(records[k - 1], i)
    else Cell(rom, records, k - 1, i)
  }

  function FinalLength(p: IpsPatch, len: nat): nat {
    var n := Grown(p.records, |p.records|, len);
    if p.truncate.Some? then Smaller(n, p.truncate.value) else n
  }

  /** The patched ROM. */
  function Applied(p: IpsPatch, rom: seq<byte>): (r: seq<byte>)
    ensures |r| == FinalLength(p, |rom|)
  {
    seq(FinalLength(p, |rom|), i requires 0 <= i < FinalLength(p, |rom|) => Cell(rom, p.records, |p.records|, i))
  }

  /** The buffer after the first `k` records. */
  predicate Patched(out: seq<byte>, rom: seq<byte>, records: seq<Record>, k: nat)
    requires k <= |records|
  {
    |out| == Grown(records, k, |rom|) && forall i :: 0 <= i < |out| ==> out[i] == Cell(rom, records, k, i)
  }

  /** Positions nothing has reached yet hold zero once the buffer grows over them. */
  lemma {:induction false} BeyondIsZero(rom: seq<byte>, records: seq<Record>, k: nat, i: nat)
    requires k <= |records| && i >= Grown(records, k, |rom|)
    ensures Cell(rom, records, k, i) == 0
  {
    if k > 0 {
      BeyondIsZero(rom, records, k - 1, i);
    }
  }

  /** `out` with zeros behind it up to `n` bytes. */
  function Resized(out: seq<byte>, n: nat): (r: seq<byte>)
    ensures |r| == Larger(|out|, n)
    ensures forall i :: 0 <= i < |r| ==> r[i] == if i < |out| then out[i] else 0
  {
    if n > |out| then out + seq(n - |out|, _ => 0) else out
  }

  lemma PatchedOn(was: seq<byte>, out: seq<byte>, rom: seq<byte>, records: seq<Record>, k: nat)
    requires k < |records| && Patched(was, rom, records, k)
    requires |out| == Larger(|was|, End(records[k]))
    requires forall i :: 0 <= i < |out| ==>
      out[i] == if Covers(records[k], i) then ByteOf(records[k], i) else if i < |was| then was[i] else 0
    ensures Patched(out, rom, records, k + 1)
  {
    forall i | 0 <= i < |out|
      ensures out[i] == Cell(rom, records, k + 1, i)
    {
      if i >= |was| {
        BeyondIsZero(rom, records, k, i);
      }
    }
  }

  /** Apply the records in order to a growing buffer, then cut it. */
  method ApplyInto(p: IpsPatch, rom: seq<byte>) returns (out: seq<byte>)
    ensures out == Applied(p, rom)
  {
    hide Cell, Grown, ByteOf;
    out := rom;
    NothingApplied(rom, p.records);
    for k := 0 to |p.records|
      invariant Patched(out, rom, p.records, k)
    {
      var r := p.records[k];
      ghost var was := out;
      match r {
        case Data(addr, data) =>
          out := Resized(out, addr + |data|);
          out := Spliced(out, addr, data);
        case Rle(addr, value, count) =>
          out := Resized(out, addr + count);
          ghost var grown := out;
          for j := addr to addr + count
            invariant |out| == |grown|
            invariant forall i :: 0 <= i < |out| ==> out[i] == if addr <= i < j then value else grown[i]
          {
            out := out[j := value];
          }
      }
      OneApplied(was, out, r);
      PatchedOn(was, out, rom, p.records, k);
    }
    if p.truncate.Some? {
      out := out[..Smaller(|out|, p.truncate.value)];
    }
    assert |out| == FinalLength(p, |rom|);
  }

  lemma NothingApplied(rom: seq<byte>, records: seq<Record>)
    ensures Patched(rom, rom, records, 0)
  {
  }

  lemma OneApplied(was: seq<byte>, out: seq<byte>, r: Record)
    requires |out| == Larger(|was|, End(r))
    requires forall i :: 0 <= i < |out| ==>
      out[i] == match r
                case Data(addr, data) => (if addr <= i < addr + |data| then data[i - addr] else Resized(was, End(r))[i])
                case Rle(addr, value, count) => if addr <= i < addr + count then value else Resized(was, End(r))[i]
    ensures forall i :: 0 <= i < |out| ==>
      out[i] == if Covers(r, i) then ByteOf(r, i) else if i < |was| then was[i] else 0
  {
  }

  /** Every record a patch has counts towards the length. */
  lemma {:induction false} GrownFrom(records: seq<Record>, k: nat, len: nat)
    requires k <= |records|
    ensures Grown(records, k, len) == Larger(len, Grown(records, k, 0))
  {
    if k > 0 {
      GrownFrom(records, k - 1, len);
    }
  }

  /** A covered position gets the same byte from any ROM; an uncovered one keeps its own. */
  lemma {:induction false} CellTwice(rom: seq<byte>, once: seq<byte>, records: seq<Record>, k: nat, i: nat)
    requires k <= |records| && i < |once|
    ensures Cell(once, records, k, i) == Cell(rom, records, k, i) || Cell(once, records, k, i) == once[i]
  {
    if k > 0 && !Covers(records[k - 1], i) {
      CellTwice(rom, once, records, k - 1, i);
    }
  }

  /** Applying a patch a second time changes nothing. */
  lemma Idempotent(p: IpsPatch, rom: seq<byte>)
    ensures Applied(p, Applied(p, rom)) == Applied(p, rom)
  {
    hide Cell, Grown;
    var n := |p.records|;
    var once := Applied(p, rom);
    GrownFrom(p.records, n, |rom|);
    GrownFrom(p.records, n, |once|);
    forall i | 0 <= i < |once|
      ensures Cell(once, p.records, n, i) == once[i]
    {
      CellTwice(rom, once, p.records, n, i);
    }
  }
}
