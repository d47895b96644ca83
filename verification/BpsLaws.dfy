/**
 What the actions of a BPS patch do, byte by byte, and how short ones are written. A copy can be cut
 in two anywhere: the cursor stands where the first half ended.
 */
module BpsLaws {
  import opened Bytes
  import opened Varint
  import opened Bps

  // --- Single actions ---------------------------------------------------------------------

  /** Every action appends; the first byte appended is number `|m.done|`. */
  predicate Appends(m: Machine, next: Machine, n: nat) {
    |next.done| == |m.done| + n && next.done[..|m.done|] == m.done
  }

  /** Bytes of the source at the output's own position; no cursor moves. */
  lemma SourceReadIs(source: seq<byte>, target: nat, m: Machine, n: nat)
    ensures Step(source, target, m, SourceRead(n)).Some? <==> |m.done| + n <= target && |m.done| + n <= |source|
    ensures var r := Step(source, target, m, SourceRead(n));
            r.Some? ==>
              && Appends(m, r.value, n) && r.value.src == m.src && r.value.tgt == m.tgt
              && forall i :: |m.done| <= i < |m.done| + n ==> r.value.done[i] == source[i]
  {
  }

  /** Bytes of the patch; no cursor moves. */
  lemma TargetReadIs(source: seq<byte>, target: nat, m: Machine, data: seq<byte>)
    ensures Step(source, target, m, TargetRead(data)).Some? <==> |m.done| + |data| <= target
    ensures var r := Step(source, target, m, TargetRead(data));
            r.Some? ==>
              && Appends(m, r.value, |data|) && r.value.src == m.src && r.value.tgt == m.tgt
              && forall i :: 0 <= i < |data| ==> r.value.done[|m.done| + i] == data[i]
  {
  }

  /** Bytes of the source from where its cursor is moved to, which ends behind the last one. */
  lemma SourceCopyIs(source: seq<byte>, target: nat, m: Machine, n: nat, d: int)
    requires |source| < U64
    ensures Step(source, target, m, SourceCopy(n, d)).Some?
      <==> 0 <= m.src + d && m.src + d + n <= |source| && |m.done| + n <= target
    ensures var r := Step(source, target, m, SourceCopy(n, d));
            r.Some? ==>
              && Appends(m, r.value, n) && r.value.src == m.src + d + n && r.value.tgt == m.tgt
              && forall i :: |m.done| <= i < |m.done| + n ==> r.value.done[i] == source[m.src + d + (i - |m.done|)]
  {
  }

  /** From `start` on every byte is the one as far behind it as `from` is; 0 if `from` was not yet written. */
  predicate CopiesSelf(out: seq<byte>, start: nat, from: nat) {
    forall i :: start <= i < |out| ==> out[i] == if from < start then out[i - (start - from)] else 0
  }

  /**
   Bytes of the output itself from where the other cursor is moved to, those just appended included;
   cells beyond the output so far are 0.
   */
  lemma TargetCopyIs(source: seq<byte>, target: nat, m: Machine, n: nat, d: int)
    requires target < U64
    ensures Step(source, target, m, TargetCopy(n, d)).Some?
      <==> 0 <= m.tgt + d && m.tgt + d + n <= target && |m.done| + n <= target
    ensures var r := Step(source, target, m, TargetCopy(n, d));
            r.Some? ==>
              && Appends(m, r.value, n) && r.value.tgt == m.tgt + d + n && r.value.src == m.src
              && CopiesSelf(r.value.done, |m.done|, m.tgt + d)
  {
    hide Extended;
    if 0 <= m.tgt + d {
      ExtendedCopies(m.done, m.tgt + d, n);
    }
  }

  /** A copy that starts inside the output reads only cells that are there; one from beyond it never catches up. */
  lemma {:induction false} ExtendedCopies(done: seq<byte>, from: nat, n: nat)
    ensures CopiesSelf(Extended(done, from, n), |done|, from)
  {
    if n > 0 {
      ExtendedCopies(done, from, n - 1);
      var before, r := Extended(done, from, n - 1), Extended(done, from, n);
      OneMoreCopy(before, r, |done|, from);
    }
  }

  lemma OneMoreCopy(before: seq<byte>, r: seq<byte>, start: nat, from: nat)
    requires CopiesSelf(before, start, from) && |before| >= start && |r| == |before| + 1 && r[..|before|] == before
    requires r[|before|] == if from < start then before[|before| - (start - from)] else 0
    ensures CopiesSelf(r, start, from)
  {
    assert forall i :: 0 <= i < |before| ==> r[i] == r[..|before|][i];
  }

  // --- Cutting copies in two --------------------------------------------------------------

  lemma RunOne(source: seq<byte>, target: nat, m: Machine, a: Action)
    ensures Run(source, target, m, [a]) == Step(source, target, m, a)
  {
    hide Step;
    var next := Step(source, target, m, a);
    if next.Some? {
      assert Run(source, target, next.value, [a][1..]) == next;
    }
  }

  lemma RunTwo(source: seq<byte>, target: nat, m: Machine, a: Action, b: Action)
    ensures Run(source, target, m, [a, b])
         == if Step(source, target, m, a).None? then None
            else Step(source, target, Step(source, target, m, a).value, b)
  {
    hide Step;
    assert [a, b][1..] == [b];
    if Step(source, target, m, a).Some? {
      RunOne(source, target, Step(source, target, m, a).value, b);
    }
  }

  lemma SliceSplit(s: seq<byte>, at: nat, a: nat, b: nat)
    requires at + a + b <= |s|
    ensures s[at..at + a] + s[at + a..at + a + b] == s[at..at + a + b]
  {
  }

  lemma AppendTwice(s: seq<byte>, x: seq<byte>, y: seq<byte>)
    ensures (s + x) + y == s + (x + y)
  {
  }

  lemma SourceReadSplits(source: seq<byte>, target: nat, m: Machine, a: nat, b: nat)
    ensures Run(source, target, m, [SourceRead(a), SourceRead(b)]) == Run(source, target, m, [SourceRead(a + b)])
  {
    RunTwo(source, target, m, SourceRead(a), SourceRead(b));
    RunOne(source, target, m, SourceRead(a + b));
    if |m.done| + a + b <= |source| {
      SliceSplit(source, |m.done|, a, b);
      AppendTwice(m.done, source[|m.done|..|m.done| + a], source[|m.done| + a..|m.done| + a + b]);
    }
  }

  lemma TargetReadSplits(source: seq<byte>, target: nat, m: Machine, x: seq<byte>, y: seq<byte>)
    ensures Run(source, target, m, [TargetRead(x), TargetRead(y)]) == Run(source, target, m, [TargetRead(x + y)])
  {
    RunTwo(source, target, m, TargetRead(x), TargetRead(y));
    RunOne(source, target, m, TargetRead(x + y));
    AppendTwice(m.done, x, y);
  }

  /** The source cursor goes on where a copy ended. */
  lemma SourceCopySplits(source: seq<byte>, target: nat, m: Machine, a: nat, b: nat, d: int)
    requires |source| < U64
    ensures Run(source, target, m, [SourceCopy(a, d), SourceCopy(b, 0)])
         == Run(source, target, m, [SourceCopy(a + b, d)])
  {
    RunTwo(source, target, m, SourceCopy(a, d), SourceCopy(b, 0));
    RunOne(source, target, m, SourceCopy(a + b, d));
    if 0 <= m.src + d && m.src + d + a + b <= |source| {
      var at := m.src + d;
      SliceSplit(source, at, a, b);
      AppendTwice(m.done, source[at..at + a], source[at + a..at + a + b]);
    }
  }

  lemma {:induction false} ExtendedTwice(done: seq<byte>, from: nat, a: nat, b: nat)
    ensures Extended(Extended(done, from, a), from + a, b) == Extended(done, from, a + b)
  {
    if b > 0 {
      ExtendedTwice(done, from, a, b - 1);
    }
  }

  /** So does the output's own cursor, overlapping copies included. */
  lemma TargetCopySplits(source: seq<byte>, target: nat, m: Machine, a: nat, b: nat, d: int)
    requires target < U64
    ensures Run(source, target, m, [TargetCopy(a, d), TargetCopy(b, 0)])
         == Run(source, target, m, [TargetCopy(a + b, d)])
  {
    hide Extended;
    RunTwo(source, target, m, TargetCopy(a, d), TargetCopy(b, 0));
    RunOne(source, target, m, TargetCopy(a + b, d));
    if 0 <= m.tgt + d {
      ExtendedTwice(m.done, m.tgt + d, a, b);
    }
  }

  /** The two cursors do not disturb each other: what copies leave for each is counted apart. */
  lemma CursorsApart(source: seq<byte>, target: nat, m: Machine, a: nat, b: nat, c: nat, d: int, e: int)
    requires |source| < U64 && target < U64
    requires Run(source, target, m, [SourceCopy(a, d), TargetCopy(b, e)]).Some?
    ensures var r := Run(source, target, m, [SourceCopy(a, d), TargetCopy(b, e)]).value;
            r.src == m.src + d + a && r.tgt == m.tgt + e + b
  {
    RunTwo(source, target, m, SourceCopy(a, d), TargetCopy(b, e));
    SourceCopyIs(source, target, m, a, d);
    TargetCopyIs(source, target, Step(source, target, m, SourceCopy(a, d)).value, b, e);
  }

  // --- Bytes of a patch -------------------------------------------------------------------

  /** The byte a short length is written as, with the number of its command. */
  function Lead(n: nat, command: nat): byte
    requires 0 < n <= 32 && command < 4
  {
    (0x80 + 4 * (n - 1) + command) as byte
  }

  /** The byte a short offset is written as: its magnitude above the sign. */
  function ShortOffset(d: int): byte
    requires -64 < d < 64
  {
    if d < 0 then (0x81 + 2 * -d) as byte else (0x80 + 2 * d) as byte
  }

  /** Lengths up to 32 and offsets below 64 take one byte each. */
  lemma ShortActions(n: nat, d: int, data: seq<byte>)
    requires 0 < n <= 32 && -64 < d < 64 && |data| == n
    ensures Serialize(SourceRead(n)) == [Lead(n, 0)]
    ensures Serialize(TargetRead(data)) == [Lead(n, 1)] + data
    ensures Serialize(SourceCopy(n, d)) == [Lead(n, 2), ShortOffset(d)]
    ensures Serialize(TargetCopy(n, d)) == [Lead(n, 3), ShortOffset(d)]
  {
  }

  /** What the interpreter makes of such bytes. */
  lemma ShortDecoded(buf: seq<byte>, pos: nat, n: nat, d: int)
    requires 0 < n <= 32 && -64 < d < 64 && pos + 2 <= |buf|
    ensures buf[pos] == Lead(n, 0) ==> DecodeOne(buf, pos) == Some((SourceRead(n), pos + 1))
    ensures buf[pos] == Lead(n, 1) && pos + 1 + n <= |buf| ==>
      DecodeOne(buf, pos) == Some((TargetRead(buf[pos + 1..pos + 1 + n]), pos + 1 + n))
    ensures buf[pos] == Lead(n, 2) && buf[pos + 1] == ShortOffset(d) ==>
      DecodeOne(buf, pos) == Some((SourceCopy(n, d), pos + 2))
    ensures buf[pos] == Lead(n, 3) && buf[pos + 1] == ShortOffset(d) ==>
      DecodeOne(buf, pos) == Some((TargetCopy(n, d), pos + 2))
  {
    hide Serialize, DecodeOne, Lead, ShortOffset;
    var one, two := buf[pos..pos + 1], buf[pos..pos + 2];
    assert one == [buf[pos]] && two == [buf[pos], buf[pos + 1]];
    ShortActions(n, d, if pos + 1 + n <= |buf| then buf[pos + 1..pos + 1 + n] else seq(n, _ => 0));
    if buf[pos] == Lead(n, 0) {
      DecodeSerialized(buf, pos, SourceRead(n));
    }
    if buf[pos] == Lead(n, 1) && pos + 1 + n <= |buf| {
      assert buf[pos..pos + 1 + n] == one + buf[pos + 1..pos + 1 + n];
      DecodeSerialized(buf, pos, TargetRead(buf[pos + 1..pos + 1 + n]));
    }
    if buf[pos + 1] == ShortOffset(d) {
      if buf[pos] == Lead(n, 2) {
        DecodeSerialized(buf, pos, SourceCopy(n, d));
      }
      if buf[pos] == Lead(n, 3) {
        DecodeSerialized(buf, pos, TargetCopy(n, d));
      }
    }
  }

  /** The magic and the three checksums of a file that loads, read off its bytes. */
  lemma FileBytes(bytes: seq<byte>)
    requires Load(bytes).Ok?
    ensures var p, n := Load(bytes).value, |bytes| - 12;
            && n >= 4 && bytes[0] as char == 'B' && bytes[1] as char == 'P' && bytes[2] as char == 'S'
            && bytes[3] as char == '1'
            && p.sourceCrc as nat == Little(bytes, n) && p.targetCrc as nat == Little(bytes, n + 4)
            && p.patchCrc as nat == Little(bytes, n + 8)
  {
    hide FromLe32, Read;
    assert bytes[..4] == MAGIC;
    assert forall i :: 0 <= i < 4 ==> bytes[i] == bytes[..4][i];
    assert bytes[|bytes| - 4..] == bytes[|bytes| - 4..|bytes|];
    LittleIs(bytes, |bytes| - 12);
    LittleIs(bytes, |bytes| - 8);
    LittleIs(bytes, |bytes| - 4);
  }
}
