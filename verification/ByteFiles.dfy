/**
 A file behind a descriptor as a byte array with a position: what runs of writes, reads and
 seeks do to it.
 */
module ByteFiles {
  import opened Bytes

  const EINVAL := 22
  const LIMIT: nat := 0x8000_0000  // sizes from here on are negative as signed numbers

  function Larger(a: nat, b: nat): nat { if a < b then b else a }

  // c with d laid over it from byte "off" on; a hole is filled with zeros.
  function Overlay(c: seq<byte>, off: nat, d: seq<byte>): (r: seq<byte>)
    ensures |r| == Larger(|c|, off + |d|)
    ensures forall k :: 0 <= k < |r| ==>
              r[k] == if off <= k < off + |d| then d[k - off] else if k < |c| then c[k] else 0
  {
    seq(Larger(|c|, off + |d|), k requires 0 <= k =>
      if off <= k < off + |d| then d[k - off] else if k < |c| then c[k] else 0)
  }

  // The bytes of c from "off" on, at most n of them.
  function Part(c: seq<byte>, off: nat, n: nat): seq<byte> {
    if off >= |c| then [] else if n < |c| - off then c[off .. off + n] else c[off..]
  }

  // A call on the descriptor.  "append" is the O_APPEND flag, and "room" says that the kernel has
  // memory for the whole file.
  datatype FdOp =
    | Write(data: seq<byte>, append: bool, room: bool)
    | Read(n: nat, room: bool)
    | Seek(off: int, whence: int)

  // The result of a call, with the bytes that a read hands over.
  datatype Result = Result(code: int, data: seq<byte>)

  datatype File = File(all: seq<byte>, off: nat) {
    // Where a write goes.
    function Pos(append: bool): nat { if append then |all| else off }

    // The new position of a seek, in 32-bit arithmetic.
    function SeekTo(delta: int, whence: int): int {
      Signed(delta + (if whence == 0 then 0 else if whence == 1 then Signed(off) else Signed(|all|)))
    }
  }

  // A call that goes through.
  function Step(f: File, op: FdOp): (Result, File) {
    match op
    case Write(data, append, _) =>
      if data == [] then (Result(0, []), f)
      else (Result(|data|, []), File(Overlay(f.all, f.Pos(append), data), f.Pos(append) + |data|))
    case Read(n, _) =>
      var data := Part(f.all, f.off, n);
      (Result(|data|, data), File(f.all, f.off + |data|))
    case Seek(delta, whence) =>
      if whence < 0 || whence > 2 || f.SeekTo(delta, whence) < 0 then (Result(-EINVAL, []), f)
      else (Result(f.SeekTo(delta, whence), []), File(f.all, f.SeekTo(delta, whence)))
  }

  // A run of calls that go through: the results, and the file afterwards.
  function Run(f: File, ops: seq<FdOp>): (r: (seq<Result>, File))
    ensures |r.0| == |ops|
  {
    if ops == [] then ([], f)
    else
      var before := Run(f, ops[..|ops| - 1]);
      var last := Step(before.1, ops[|ops| - 1]);
      (before.0 + [last.0], last.1)
  }

  lemma RunSnoc(f: File, ops: seq<FdOp>, op: FdOp)
    ensures var before, last := Run(f, ops), Step(Run(f, ops).1, op);
            Run(f, ops + [op]) == (before.0 + [last.0], last.1)
  {
    assert (ops + [op])[..|ops + [op]| - 1] == ops;
  }

  lemma RunNext(f: File, ops: seq<FdOp>, k: nat)
    requires k < |ops|
    ensures var before, last := Run(f, ops[..k]), Step(Run(f, ops[..k]).1, ops[k]);
            Run(f, ops[..k + 1]) == (before.0 + [last.0], last.1)
  {
    assert ops[..k + 1] == ops[..k] + [ops[k]];
    RunSnoc(f, ops[..k], ops[k]);
  }

  // ----- laws of runs

  lemma RunNone(f: File)
    ensures Run(f, []) == ([], f)
  {
  }

  lemma RunOne(f: File, op: FdOp)
    ensures Run(f, [op]) == ([Step(f, op).0], Step(f, op).1)
  {
    hide Run, Step;
    RunNone(f);
    RunSnoc(f, [], op);
    assert [] + [op] == [op] && [] + [Step(f, op).0] == [Step(f, op).0];
  }

  lemma RunTwo(f: File, op: FdOp, next: FdOp)
    ensures Run(f, [op, next]) == ([Step(f, op).0, Step(Step(f, op).1, next).0], Step(Step(f, op).1, next).1)
  {
    hide Run, Step;
    RunOne(f, op);
    RunSnoc(f, [op], next);
    var a, b := Step(f, op), Step(Step(f, op).1, next);
    assert [op] + [next] == [op, next] && [a.0] + [b.0] == [a.0, b.0];
  }

  lemma RunThree(f: File, op: FdOp, next: FdOp, last: FdOp)
    ensures var g := Step(Step(f, op).1, next).1;
            Run(f, [op, next, last]).0[2] == Step(g, last).0 && Run(f, [op, next, last]).1 == Step(g, last).1
  {
    hide Run, Step;
    RunTwo(f, op, next);
    RunSnoc(f, [op, next], last);
    assert [op, next] + [last] == [op, next, last];
  }

  // A write from the position x.
  lemma WriteAt(f: File, x: nat, d: seq<byte>)
    requires d != [] && x < LIMIT
    ensures Run(f, [Seek(x, 0), Write(d, false, true)]).1 == File(Overlay(f.all, x, d), x + |d|)
  {
    RunTwo(f, Seek(x, 0), Write(d, false, true));
    SeekSet(f, x);
    hide Run, Overlay;
  }

  lemma SeekSet(f: File, x: nat)
    requires x < LIMIT
    ensures Step(f, Seek(x, 0)) == (Result(x, []), File(f.all, x))
  {
  }

  /** Two writes one behind the other leave what one write of both leaves. */
  lemma WritesJoin(f: File, d: seq<byte>, e: seq<byte>)
    requires d != [] && e != []
    ensures Run(f, [Write(d, false, true), Write(e, false, true)]).1 == Run(f, [Write(d + e, false, true)]).1
  {
    hide Run;
    RunTwo(f, Write(d, false, true), Write(e, false, true));
    RunOne(f, Write(d + e, false, true));
    assert Overlay(Overlay(f.all, f.off, d), f.off + |d|, e) == Overlay(f.all, f.off, d + e);
  }

  lemma PartOfOverlay(c: seq<byte>, off: nat, d: seq<byte>)
    requires d != []
    ensures Part(Overlay(c, off, d), off, |d|) == d
  {
    var r := Overlay(c, off, d);
    assert r[off .. off + |d|] == d;
    assert |r| == off + |d| ==> r[off..] == r[off .. off + |d|];
  }

  /** Seeking back and reading gives what was written. */
  lemma ReadsBack(f: File, d: seq<byte>)
    requires d != [] && f.off < LIMIT
    ensures Run(f, [Write(d, false, true), Seek(f.off, 0), Read(|d|, true)]).0[2] == Result(|d|, d)
  {
    hide Run, Overlay, Part, File.SeekTo;
    RunThree(f, Write(d, false, true), Seek(f.off, 0), Read(|d|, true));
    SeekSet(Step(f, Write(d, false, true)).1, f.off);
    PartOfOverlay(f.all, f.off, d);
  }

  /** An appending write leaves the old bytes followed by the new, wherever the position was. */
  lemma AppendsAtEnd(f: File, d: seq<byte>)
    requires d != []
    ensures Run(f, [Write(d, true, true)]).1 == File(f.all + d, |f.all| + |d|)
  {
    hide Run;
    RunOne(f, Write(d, true, true));
    assert Overlay(f.all, |f.all|, d) == f.all + d;
  }

  /** Writes to different places can be exchanged. */
  lemma WritesCommute(f: File, x: nat, d: seq<byte>, y: nat, e: seq<byte>)
    requires d != [] && e != [] && x + |d| <= y && y < LIMIT
    ensures var one := Run(f, [Seek(x, 0), Write(d, false, true)]).1;
            var two := Run(f, [Seek(y, 0), Write(e, false, true)]).1;
            Run(one, [Seek(y, 0), Write(e, false, true)]).1.all == Run(two, [Seek(x, 0), Write(d, false, true)]).1.all
  {
    hide Run;
    WriteAt(f, x, d);
    WriteAt(f, y, e);
    WriteAt(Run(f, [Seek(x, 0), Write(d, false, true)]).1, y, e);
    WriteAt(Run(f, [Seek(y, 0), Write(e, false, true)]).1, x, d);
    assert Overlay(Overlay(f.all, x, d), y, e) == Overlay(Overlay(f.all, y, e), x, d);
  }

  /** A write beyond the end leaves a hole that reads as zeros. */
  lemma HolesAreZero(f: File, d: seq<byte>, k: nat)
    requires d != [] && |f.all| <= k < f.off
    ensures k < |Run(f, [Write(d, false, true)]).1.all| && Run(f, [Write(d, false, true)]).1.all[k] == 0
  {
    hide Run;
    RunOne(f, Write(d, false, true));
  }

  /** A write changes no byte before its place or behind its data, and moves behind what it wrote;
      its result is the number of bytes. */
  lemma WriteKeepsRest(f: File, d: seq<byte>, append: bool, k: nat)
    requires d != []
    ensures var start, run := if append then |f.all| else f.off, Run(f, [Write(d, append, true)]);
            && run.0 == [Result(|d|, [])] && run.1.off == start + |d|
            && (k < |f.all| && !(start <= k < start + |d|) ==> k < |run.1.all| && run.1.all[k] == f.all[k])
            && (k < |d| ==> start + k < |run.1.all| && run.1.all[start + k] == d[k])
            && |run.1.all| == Larger(|f.all|, start + |d|)
  {
    hide Run;
    RunOne(f, Write(d, append, true));
  }

  /** A write of nothing does nothing. */
  lemma WriteNothing(f: File, append: bool)
    ensures Run(f, [Write([], append, true)]) == ([Result(0, [])], f)
  {
    hide Run;
    RunOne(f, Write([], append, true));
  }

  /** A read hands over the bytes from the position on, as many as are asked for and there, and moves
      on by their number; the file stays as it is. */
  lemma ReadMovesOn(f: File, n: nat)
    ensures var (results, g) := Run(f, [Read(n, true)]);
            var data := results[0].data;
            && results[0].code == |data| && g.all == f.all && g.off == f.off + |data|
            && |data| <= n && (f.off + |data| <= |f.all| || data == [])
            && (|data| < n ==> f.off + |data| >= |f.all|)
            && forall k :: 0 <= k < |data| ==> data[k] == f.all[f.off + k]
  {
    hide Run;
    RunOne(f, Read(n, true));
  }

  /** At the end or behind it, a read hands over nothing and stays where it is. */
  lemma ReadAtEnd(f: File, n: nat)
    requires f.off >= |f.all|
    ensures Run(f, [Read(n, true)]) == ([Result(0, [])], f)
  {
    hide Run;
    RunOne(f, Read(n, true));
  }

  /** Two reads hand over, one after the other, what one read of both lengths does, and end up where
      it does. */
  lemma ReadsJoin(f: File, m: nat, n: nat)
    ensures var (both, g) := Run(f, [Read(m, true), Read(n, true)]);
            var (one, h) := Run(f, [Read(m + n, true)]);
            both[0].data + both[1].data == one[0].data && g == h
  {
    hide Run;
    RunTwo(f, Read(m, true), Read(n, true));
    RunOne(f, Read(m + n, true));
    var p, q := Part(f.all, f.off, m), Part(f.all, f.off + |Part(f.all, f.off, m)|, n);
    assert p + q == Part(f.all, f.off, m + n);
  }

  /** A loop of reads of n bytes gets the whole file. */
  lemma ReadLoop(f: File, n: nat, k: nat) returns (ops: seq<FdOp>)
    requires n > 0 && f.off <= |f.all| <= f.off + n * k
    ensures |ops| == k && forall i :: 0 <= i < k ==> ops[i] == Read(n, true)
    ensures Handed(Run(f, ops).0) == f.all[f.off..] && Run(f, ops).1 == File(f.all, |f.all|)
  {
    hide Run, Step, Part, Handed;
    ops := [];
    RunNone(f);
    HandedNone();
    var i, at := 0, f.off;
    while i < k
      invariant 0 <= i == |ops| <= k && f.off <= at <= |f.all| && forall j :: 0 <= j < i ==> ops[j] == Read(n, true)
      invariant at == if f.off + n * i < |f.all| then f.off + n * i else |f.all|
      invariant HasRead(f, ops, at)
    {
      ReadStep(f, ops, n, at);
      assert n * (i + 1) == n * i + n;
      at := if at + n < |f.all| then at + n else |f.all|;
      ops, i := ops + [Read(n, true)], i + 1;
    }
    assert f.all[f.off..] == f.all[f.off..|f.all|];
  }

  // The calls have handed over the bytes up to the position at, and left it there.
  predicate HasRead(f: File, ops: seq<FdOp>, at: nat) {
    && f.off <= at <= |f.all|
    && Run(f, ops).1 == File(f.all, at) && Handed(Run(f, ops).0) == f.all[f.off..at]
  }

  lemma ReadStep(f: File, ops: seq<FdOp>, n: nat, at: nat)
    requires HasRead(f, ops, at)
    ensures HasRead(f, ops + [Read(n, true)], if at + n < |f.all| then at + n else |f.all|)
  {
    hide Run, Handed;
    RunSnoc(f, ops, Read(n, true));
    var data := Part(f.all, at, n);
    HandedSnoc(Run(f, ops).0, Result(|data|, data));
    assert f.all[f.off..at] + data == f.all[f.off..at + |data|];
  }

  lemma HandedNone()
    ensures Handed([]) == []
  {
  }

  // All bytes that the calls handed over.
  function Handed(results: seq<Result>): seq<byte> {
    if results == [] then [] else Handed(results[..|results| - 1]) + results[|results| - 1].data
  }

  lemma HandedSnoc(results: seq<Result>, r: Result)
    ensures Handed(results + [r]) == Handed(results) + r.data
  {
    assert (results + [r])[..|results|] == results;
  }

  /** SEEK_SET, SEEK_CUR and SEEK_END count from the beginning, the position and the end, as long as
      nothing leaves the signed 32-bit numbers; a negative position and any other origin are refused.
      No seek changes the file. */
  lemma SeeksFrom(f: File, delta: int, whence: int)
    requires f.off < LIMIT && |f.all| < LIMIT
    ensures var (results, g) := Run(f, [Seek(delta, whence)]);
            var to := delta + if whence == 0 then 0 else if whence == 1 then f.off else |f.all|;
            && g.all == f.all && results[0].data == []
            && (0 <= whence <= 2 && 0 <= to < LIMIT ==> results[0].code == to && g.off == to)
            && (whence < 0 || whence > 2 || -0x8000_0000 <= to < 0 ==> results[0].code == -EINVAL && g == f)
  {
    hide Run, Signed;
    RunOne(f, Seek(delta, whence));
    SignedFits(f.off);
    SignedFits(|f.all|);
    SignedFits(delta);
    SignedFits(delta + f.off);
    SignedFits(delta + |f.all|);
  }

  /** Without these bounds a seek leads to a position that is right modulo 2^32, or is refused. */
  lemma SeeksWrap(f: File, delta: int, whence: int)
    requires 0 <= whence <= 2
    ensures var (results, g) := Run(f, [Seek(delta, whence)]);
            var to := delta + if whence == 0 then 0 else if whence == 1 then f.off else |f.all|;
            && g.all == f.all
            && ((results[0].code == -EINVAL && g == f)
                || (results[0].code == g.off < LIMIT && (g.off - to) % 0x1_0000_0000 == 0))
            && (results[0].code == -EINVAL <==> to % 0x1_0000_0000 >= LIMIT)
  {
    hide Run, File.SeekTo, Signed;
    RunOne(f, Seek(delta, whence));
    SeekToIs(f, delta, whence);
    SignedMeans(delta + if whence == 0 then 0 else if whence == 1 then f.off else |f.all|);
  }

  lemma SeekToIs(f: File, delta: int, whence: int)
    ensures f.SeekTo(delta, whence) ==
            Signed(delta + if whence == 0 then 0 else if whence == 1 then f.off else |f.all|)
  {
    hide Signed;
    SignedSum(delta, f.off);
    SignedSum(delta, |f.all|);
  }

  lemma SignedMeans(x: int)
    ensures Signed(x) < 0 <==> x % 0x1_0000_0000 >= LIMIT
    ensures (Signed(x) - x) % 0x1_0000_0000 == 0
  {
  }

  lemma SignedSum(delta: int, x: nat)
    ensures Signed(delta + Signed(x)) == Signed(delta + x)
  {
    var q := x / WORD;
    assert x == q * WORD + x % WORD;
    ModAdd(delta + x % WORD, q);
    ModAdd(delta + x % WORD, -1);
  }

  lemma ModAdd(a: int, q: int)
    ensures (a + q * WORD) % WORD == a % WORD
  {
  }
}
