/**
 The link between host and device. Which answers are lost is fixed beforehand: `lost(k)` says
 whether the `k`th answer the host asks for times out, and `gone(k)` how much of it has vanished by
 then. A run that stops at the first lost answer is described by the answers it would get without
 any loss.
 */
module GbxLink {
  import opened Bytes
  import opened Protocol

  datatype Link = Reliable | Lossy(lost: nat -> bool, gone: nat -> nat)
  {
    predicate Loses(k: nat) {
      Lossy? && lost(k)
    }

    /** What is still to be read of the `k`th answer after it was lost. */
    function Rest(k: nat, answer: seq<byte>): (rest: seq<byte>)
      ensures |rest| <= |answer|
    {
      if Lossy? then answer[Smaller(gone(k), |answer|)..] else []
    }

    /** None of the `n` answers from the `from`th on is lost. */
    predicate Clear(from: nat, n: nat) {
      forall k :: from <= k < from + n ==> !Loses(k)
    }

    /** The first lost one of the `n` answers from the `from`th on; `n` if all arrive. */
    function FirstLost(from: nat, n: nat): (f: nat)
      ensures f <= n && Clear(from, f) && (f < n ==> Loses(from + f))
      decreases n
    {
      if n == 0 || Loses(from) then 0 else 1 + FirstLost(from + 1, n - 1)
    }

    /** A run that asks for `n` answers and stops at the first lost one has asked for `asked - from`. */
    predicate Reached(from: nat, n: nat, ok: bool, asked: nat) {
      var f := FirstLost(from, n);
      ok == (f == n) && asked == from + f + if ok then 0 else 1
    }

    /** The same for known answers: the rest of the lost one is what stays unread. */
    predicate Ran(from: nat, answers: seq<Reply>, ok: bool, asked: nat, out: seq<byte>) {
      && Reached(from, |answers|, ok, asked)
      && out == if ok then [] else Rest(asked - 1, answers[asked - 1 - from].Wire())
    }
  }

  /** One answer of the device. */
  datatype Reply = Ack | Bytes(data: seq<byte>)
  {
    function Wire(): seq<byte> {
      match this
      case Ack => [ACK_OK]
      case Bytes(data) => data
    }
  }

  function Acks(n: nat): (s: seq<Reply>)
    ensures |s| == n
    ensures forall i :: 0 <= i < n ==> s[i] == Ack
  {
    seq(n, _ => Ack)
  }

  /** The first lost answer is the only one with nothing lost before it. */
  lemma FirstLostIs(link: Link, from: nat, n: nat, f: nat)
    requires f <= n && link.Clear(from, f) && (f < n ==> link.Loses(from + f))
    ensures link.FirstLost(from, n) == f
  {
    var g := link.FirstLost(from, n);
    assert g < n ==> link.Loses(from + g);
    assert f < n ==> link.Loses(from + f);
  }

  /** A part of a run, after `k` answers that arrived. */
  lemma ReachedWithin(link: Link, from: nat, k: nat, m: nat, n: nat, ok: bool, asked: nat)
    requires link.Clear(from, k) && link.Reached(from + k, m, ok, asked) && k + m <= n
    ensures if ok then link.Clear(from, k + m) && asked == from + k + m else link.Reached(from, n, false, asked)
    ensures ok && k + m == n ==> link.Reached(from, n, true, asked)
  {
    var f := link.FirstLost(from + k, m);
    if !ok {
      FirstLostIs(link, from, n, k + f);
    } else if k + m == n {
      FirstLostIs(link, from, n, n);
    }
  }

  /** A run goes on with `m` answers after `n`, on the way to `total`. */
  lemma ReachedOn(link: Link, from: nat, n: nat, mid: nat, m: nat, total: nat, ok: bool, asked: nat)
    requires link.Reached(from, n, true, mid) && link.Reached(mid, m, ok, asked) && n + m <= total
    ensures if ok then link.Reached(from, n + m, true, asked) else link.Reached(from, total, false, asked)
  {
    ReachedWithin(link, from, n, m, total, ok, asked);
    if ok {
      FirstLostIs(link, from, n + m, n + m);
    }
  }

  lemma ReachedNothing(link: Link, from: nat)
    ensures link.Reached(from, 0, true, from)
  {
  }

  lemma RanWithin(link: Link, from: nat, k: nat, part: seq<Reply>, all: seq<Reply>, ok: bool, asked: nat,
                  out: seq<byte>)
    requires link.Clear(from, k) && link.Ran(from + k, part, ok, asked, out)
    requires k + |part| <= |all| && all[k..k + |part|] == part
    ensures if ok then link.Clear(from, k + |part|) && asked == from + k + |part| && out == []
            else link.Ran(from, all, false, asked, out) && asked <= from + k + |part|
    ensures ok && k + |part| == |all| ==> link.Ran(from, all, true, asked, out)
  {
    ReachedWithin(link, from, k, |part|, |all|, ok, asked);
    if !ok {
      var f := asked - 1 - from;
      assert all[f] == all[k..k + |part|][f - k];
    }
  }

  /** The first part of a run: either all of it arrived, or the run has come to its end. */
  lemma RanFirst(link: Link, from: nat, a: seq<Reply>, b: seq<Reply>, ok: bool, asked: nat, out: seq<byte>)
    requires link.Ran(from, a, ok, asked, out)
    ensures if ok then link.Clear(from, |a|) && asked == from + |a| && out == []
            else link.Ran(from, a + b, false, asked, out) && asked <= from + |a|
  {
    hide Link.Ran;
    assert (a + b)[0..0 + |a|] == a;
    RanWithin(link, from, 0, a, a + b, ok, asked, out);
  }

  /** The last part of a run. */
  lemma RanThen(link: Link, from: nat, a: seq<Reply>, b: seq<Reply>, ok: bool, asked: nat, out: seq<byte>)
    requires link.Clear(from, |a|) && link.Ran(from + |a|, b, ok, asked, out)
    ensures link.Ran(from, a + b, ok, asked, out)
  {
    hide Link.Ran, Link.Clear;
    assert (a + b)[|a|..|a| + |b|] == b;
    RanWithin(link, from, |a|, b, a + b, ok, asked, out);
  }

  /** A run goes on with `b` after `a`, on the way to `all`. */
  lemma RanOn(link: Link, from: nat, a: seq<Reply>, mid: nat, b: seq<Reply>, all: seq<Reply>,
              ok: bool, asked: nat, out: seq<byte>)
    requires link.Ran(from, a, true, mid, []) && link.Ran(mid, b, ok, asked, out) && a + b <= all
    ensures if ok then link.Ran(from, a + b, true, asked, []) else link.Ran(from, all, false, asked, out)
  {
    hide Link.Ran, Link.Clear;
    RanFirst(link, from, a, b, true, mid, []);
    RanThen(link, from, a, b, ok, asked, out);
    RanFirst(link, from, a + b, all[|a + b|..], ok, asked, out);
    assert a + b + all[|a + b|..] == all;
  }

  lemma AcksOn(link: Link, from: nat, n: nat, mid: nat, m: nat, total: nat, ok: bool, asked: nat, out: seq<byte>)
    requires link.Ran(from, Acks(n), true, mid, []) && link.Ran(mid, Acks(m), ok, asked, out) && n + m <= total
    ensures if ok then link.Ran(from, Acks(n + m), true, asked, []) else link.Ran(from, Acks(total), false, asked, out)
  {
    hide Link.Ran;
    assert Acks(n) + Acks(m) == Acks(n + m) && Acks(n + m) <= Acks(total);
    RanOn(link, from, Acks(n), mid, Acks(m), Acks(total), ok, asked, out);
  }

  /** Before the first answer. */
  lemma RanNothing(link: Link, from: nat)
    ensures link.Ran(from, [], true, from, [])
  {
  }

  /** The next single answer of a run. */
  lemma RanNext(link: Link, from: nat, k: nat, reply: Reply, all: seq<Reply>, ok: bool, asked: nat, out: seq<byte>)
    requires link.Clear(from, k) && link.Ran(from + k, [reply], ok, asked, out)
    requires k < |all| && all[k] == reply
    ensures if ok then link.Clear(from, k + 1) && asked == from + k + 1 && out == []
            else link.Ran(from, all, false, asked, out)
    ensures ok && k + 1 == |all| ==> link.Ran(from, all, true, asked, out)
  {
    hide Link.Ran, Link.Clear;
    assert all[k..k + 1] == [reply];
    RanWithin(link, from, k, [reply], all, ok, asked, out);
  }

  /** A run of a single answer. */
  lemma RanOne(link: Link, from: nat, reply: Reply, ok: bool, asked: nat, out: seq<byte>)
    requires ok == !link.Loses(from) && asked == from + 1
    requires out == if ok then [] else link.Rest(from, reply.Wire())
    ensures link.Ran(from, [reply], ok, asked, out)
  {
    FirstLostIs(link, from, 1, if ok then 1 else 0);
  }

  /** A run all of whose answers arrived. */
  lemma RanAll(link: Link, from: nat, all: seq<Reply>, asked: nat, out: seq<byte>)
    requires link.Clear(from, |all|) && asked == from + |all| && out == []
    ensures link.Ran(from, all, true, asked, out)
  {
    FirstLostIs(link, from, |all|, |all|);
  }

  /** The order in which two parts lose their answers. */
  lemma FirstLostSplit(link: Link, from: nat, n: nat, m: nat)
    ensures var f := link.FirstLost(from, n);
            link.FirstLost(from, n + m) == if f < n then f else n + link.FirstLost(from + n, m)
  {
    var f := link.FirstLost(from, n);
    if f < n {
      FirstLostIs(link, from, n + m, f);
    } else {
      FirstLostIs(link, from, n + m, n + link.FirstLost(from + n, m));
    }
  }

  /** A link that loses one answer and `gone` bytes of it. */
  function LosesOnly(k: nat, gone: nat): Link {
    Lossy(n => n == k, _ => gone)
  }

  lemma FirstLostOnly(k: nat, gone: nat, from: nat, n: nat)
    requires from <= k
    ensures LosesOnly(k, gone).FirstLost(from, n) == Smaller(k - from, n)
  {
    FirstLostIs(LosesOnly(k, gone), from, n, Smaller(k - from, n));
  }
}
