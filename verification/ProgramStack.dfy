/**
 The initial stack of a program: argc, the argument pointers, a NULL, and the argument strings
 above them.
 */
module ProgramStack {
  import opened Bytes
  import opened Words
  import opened Argv
  import Startup

  const USER_BASE: nat := 0x0040_0000
  const STACK_TOP: nat := 0x007F_FFF0
  const SLACK: nat := 256

  // ----- strings in memory

  function PutText(m: Memory, p: nat, s: Text): (r: Memory)
    ensures forall a: nat :: Get(r, a) == if p <= a < p + |s| then s[a - p] else if a == p + |s| then 0 else Get(m, a)
    decreases |s|
  {
    if s == [] then m[p := 0] else PutText(m[p := s[0]], p + 1, s[1..])
  }

  predicate TextAt(m: Memory, p: nat, s: Text) {
    (forall k :: 0 <= k < |s| ==> Get(m, p + k) == s[k]) && Get(m, p + |s|) == 0
  }

  // The string at p, as a C program reads it, up to n bytes.
  function ReadText(m: Memory, p: nat, n: nat): Text
    decreases n
  {
    if n == 0 || Get(m, p) == 0 then [] else [Get(m, p)] + ReadText(m, p + 1, n - 1)
  }

  predicate NoNul(s: Text) { forall k :: 0 <= k < |s| ==> s[k] != 0 }

  lemma {:induction false} ReadsBack(m: Memory, p: nat, s: Text, n: nat)
    requires TextAt(m, p, s) && NoNul(s) && |s| <= n
    ensures ReadText(m, p, n) == s
    decreases |s|
  {
    if s != [] {
      assert Get(m, p + 0) == s[0];
      var t := s[1..];
      assert TextAt(m, p + 1, t) by {
        forall k | 0 <= k < |t| ensures Get(m, p + 1 + k) == t[k] { assert Get(m, p + (k + 1)) == s[k + 1]; }
      }
      ReadsBack(m, p + 1, t, n - 1);
    } else {
      assert Get(m, p + |s|) == Get(m, p);
    }
  }

  lemma TextKept(m: Memory, n: Memory, p: nat, s: Text)
    requires TextAt(m, p, s) && forall a: nat :: p <= a <= p + |s| ==> Get(n, a) == Get(m, a)
    ensures TextAt(n, p, s)
  {
  }

  // ----- the layout

  function TotalLen(args: seq<Text>): nat {
    if args == [] then 0 else |args[0]| + 1 + TotalLen(args[1..])
  }

  // Where argument k is put.
  function Ptr(args: seq<Text>, k: nat): int
    requires k <= |args|
  {
    STACK_TOP - TotalLen(args[k..])
  }

  lemma PtrNext(args: seq<Text>, k: nat)
    requires k < |args|
    ensures Ptr(args, k) + |args[k]| + 1 == Ptr(args, k + 1)
  {
    assert args[k..][1..] == args[k + 1..];
  }

  lemma {:induction false} PtrMono(args: seq<Text>, j: nat, k: nat)
    requires j <= k <= |args|
    ensures Ptr(args, j) <= Ptr(args, k) <= STACK_TOP
    decreases k - j
  {
    if j < k {
      PtrNext(args, j);
      PtrMono(args, j + 1, k);
    }
  }

  function AlignDown(p: nat): nat { p / 4 * 4 }

  // The stack pointer, and the place of argument pointer a (of the final NULL for a = argc).
  function StackPtr(args: seq<Text>): int
    requires Ptr(args, 0) >= 0
  {
    AlignDown(Ptr(args, 0)) - 8 - 4 * |args|
  }

  predicate HasRoom(args: seq<Text>) { Ptr(args, 0) >= USER_BASE + SLACK }

  // The bytes that the strings take.
  function ByteCount(args: seq<Text>): nat {
    if args == [] then 0 else ByteCount(args[..|args| - 1]) + |args[|args| - 1]| + 1
  }

  /** There is room iff the strings, from 0x7FFFF0 down, leave 256 bytes of the user area. */
  lemma HasRoomIs(args: seq<Text>)
    ensures HasRoom(args) <==> 0x0040_0000 + 256 + ByteCount(args) <= 0x007F_FFF0
  {
    BytesAre(args);
    assert args[0..] == args;
  }

  lemma {:induction false} BytesAre(args: seq<Text>)
    ensures ByteCount(args) == TotalLen(args)
  {
    if args != [] {
      BytesAre(args[..|args| - 1]);
      TotalSnoc(args[..|args| - 1], args[|args| - 1]);
      assert args == args[..|args| - 1] + [args[|args| - 1]];
    }
  }

  lemma {:induction false} TotalSnoc(args: seq<Text>, a: Text)
    ensures TotalLen(args + [a]) == TotalLen(args) + |a| + 1
  {
    if args == [] {
      assert [] + [a] == [a] && [a][1..] == [];
    } else {
      assert (args + [a])[1..] == args[1..] + [a];
      TotalSnoc(args[1..], a);
    }
  }

  // The image of the arguments on the stack.
  predicate Image(m: Memory, esp: nat, args: seq<Text>) {
    && Word(m, esp) == |args|
    && Word(m, esp + 4 + 4 * |args|) == 0
    && (forall a :: 0 <= a < |args| ==> Word(m, esp + 4 + 4 * a) == Ptr(args, a))
    && (forall a :: 0 <= a < |args| ==> Ptr(args, a) >= 0 && TextAt(m, Ptr(args, a), args[a]))
  }

  /** What the program finds: reading argc, the pointers and the strings gives the arguments. */
  lemma ImageReadsBack(m: Memory, esp: nat, args: seq<Text>, a: nat)
    requires Image(m, esp, args) && a < |args| && NoNul(args[a])
    ensures Word(m, esp) == |args| && ReadText(m, Word(m, esp + 4 + 4 * a), |args[a]|) == args[a]
    ensures Get(m, Word(m, esp + 4 + 4 * a) + |args[a]|) == 0 && Word(m, esp + 4 + 4 * |args|) == 0
  {
    ReadsBack(m, Ptr(args, a), args[a], |args[a]|);
  }

  /** The pointers lie below all strings, and the strings do not overlap.  Nothing lies below the
      user area if and only if strings and pointers fit it, as up to 62 arguments do. */
  lemma LayoutApart(args: seq<Text>, a: nat, b: nat)
    requires HasRoom(args) && a < b <= |args|
    ensures USER_BASE <= StackPtr(args) <==> TotalLen(args) + 4 * |args| + 8 <= STACK_TOP - USER_BASE
    ensures |args| <= 62 ==> USER_BASE <= StackPtr(args)
    ensures StackPtr(args) + 8 + 4 * |args| <= Ptr(args, a)
    ensures Ptr(args, a) + |args[a]| + 1 <= Ptr(args, b) <= STACK_TOP
  {
    assert args[0..] == args;
    hide Ptr;
    PtrMono(args, 0, a);
    PtrNext(args, a);
    PtrMono(args, a + 1, b);
  }

  function Empties(n: nat): (r: seq<Text>)
    ensures |r| == n
  {
    if n == 0 then [] else [[]] + Empties(n - 1)
  }

  lemma {:induction false} EmptiesLen(n: nat)
    ensures TotalLen(Empties(n)) == n
  {
    if n > 0 {
      EmptiesLen(n - 1);
      assert Empties(n)[1..] == Empties(n - 1);
    }
  }

  /** With 63 arguments, which the linker accepts, the slack can be too small: the stack pointer
      ends up below the user area. */
  lemma SlackTooSmall(s: Text)
    requires |s| == STACK_TOP - USER_BASE - SLACK - 63
    ensures var args := [s] + Empties(62);
            |args| == 63 && HasRoom(args) && StackPtr(args) < USER_BASE
  {
    var args := [s] + Empties(62);
    EmptiesLen(62);
    assert args[0..] == args && args[1..] == Empties(62);
    hide Empties;
    assert TotalLen(args) == |s| + 1 + 62;
  }

  lemma {:induction false} TokensFit(args: seq<Text>)
    requires forall i :: 0 <= i < |args| ==> |args[i]| < TOKEN_MAX
    ensures TotalLen(args) <= TOKEN_MAX * |args|
  {
    if args != [] { TokensFit(args[1..]); }
  }

  /** Arguments within the kernel's limits always have room. */
  lemma KernelHasRoom(args: seq<Text>)
    requires Within(args)
    ensures HasRoom(args)
  {
    TokensFit(args);
    assert args[0..] == args;
  }

  // ----- building it

  // Only the stack from sp on has been written.
  ghost predicate Outside(mem: Memory, m: Memory, sp: nat) {
    forall x: nat :: x < sp || x >= STACK_TOP ==> Get(m, x) == Get(mem, x)
  }

  // The strings, from the last one down.
  method PushStrings(mem: Memory, args: seq<Text>) returns (ok: bool, sp: nat, ptrs: seq<nat>, m: Memory)
    ensures ok <==> HasRoom(args)
    ensures ok ==> sp == Ptr(args, 0) && |ptrs| == |args|
    ensures ok ==> forall a :: 0 <= a < |args| ==> ptrs[a] == Ptr(args, a) && TextAt(m, Ptr(args, a), args[a])
    ensures ok ==> Outside(mem, m, sp)
  {
    hide TextAt, TotalLen;
    m, sp, ptrs := mem, STACK_TOP, [];
    var a := |args|;
    assert sp == Ptr(args, |args|) by { EndPtr(args); }
    while a > 0
      invariant 0 <= a <= |args| && sp == Ptr(args, a) && sp >= USER_BASE + SLACK && |ptrs| == |args| - a
      invariant forall k :: a <= k < |args| ==> ptrs[k - a] == Ptr(args, k) && TextAt(m, Ptr(args, k), args[k])
      invariant Outside(mem, m, sp) && sp <= STACK_TOP
    {
      PtrNext(args, a - 1);
      PtrMono(args, 0, a - 1);
      var len := |args[a - 1]| + 1;
      if sp < USER_BASE + len + SLACK { return false, sp, ptrs, m; }
      var m2 := PutText(m, sp - len, args[a - 1]);
      forall k | a <= k < |args| ensures TextAt(m2, Ptr(args, k), args[k]) {
        PtrMono(args, a, k);
        TextKept(m, m2, Ptr(args, k), args[k]);
      }
      TextPut(m, sp - len, args[a - 1]);
      m, sp, a := m2, sp - len, a - 1;
      ptrs := [sp] + ptrs;
    }
    ok := true;
  }

  lemma EndPtr(args: seq<Text>)
    ensures Ptr(args, |args|) == STACK_TOP
  {
  }

  lemma TextPut(m: Memory, p: nat, s: Text)
    ensures TextAt(PutText(m, p, s), p, s)
  {
  }

  // The words for pointers a and up, and the NULL, are in place; the memory from top on is as
  // in mem.
  ghost predicate WordsFrom(mem: Memory, m: Memory, top: nat, ptrs: seq<nat>, a: nat)
    requires top >= 8 + 4 * |ptrs|
  {
    && Word(m, top - 4) == 0
    && (forall k :: a <= k < |ptrs| ==> Word(m, top - 4 - 4 * (|ptrs| - k)) == ptrs[k])
    && forall x: nat :: x >= top ==> Get(m, x) == Get(mem, x)
  }

  // A word put below them leaves them alone.
  lemma PutBelow(mem: Memory, m: Memory, top: nat, ptrs: seq<nat>, a: nat, p: nat, x: nat)
    requires top >= 8 + 4 * |ptrs| && a <= |ptrs| && WordsFrom(mem, m, top, ptrs, a)
             && p + 4 <= top - 4 - 4 * (|ptrs| - a)
    ensures WordsFrom(mem, Put(m, p, x), top, ptrs, a)
  {
    hide Put, Word, Get;
    WordElsewhere(m, p, x, top - 4);
    forall k | a <= k < |ptrs| ensures Word(Put(m, p, x), top - 4 - 4 * (|ptrs| - k)) == ptrs[k] {
      WordElsewhere(m, p, x, top - 4 - 4 * (|ptrs| - k));
    }
    forall y: nat | y >= top ensures Get(Put(m, p, x), y) == Get(mem, y) { PutElsewhere(m, p, x, y); }
  }

  lemma WordsStart(mem: Memory, top: nat, ptrs: seq<nat>)
    requires top >= 8 + 4 * |ptrs|
    ensures WordsFrom(mem, Put(mem, top - 4, 0), top, ptrs, |ptrs|)
  {
    hide Put, Word, Get;
    var m := Put(mem, top - 4, 0);
    PutWord(mem, top - 4, 0);
    forall x: nat | x >= top ensures Get(m, x) == Get(mem, x) { PutElsewhere(mem, top - 4, 0, x); }
  }

  lemma WordsStep(mem: Memory, m: Memory, top: nat, ptrs: seq<nat>, a: nat)
    requires top >= 8 + 4 * |ptrs| && a < |ptrs| && ptrs[a] < WORD && WordsFrom(mem, m, top, ptrs, a + 1)
    ensures WordsFrom(mem, Put(m, top - 4 - 4 * (|ptrs| - a), ptrs[a]), top, ptrs, a)
  {
    hide Put, Word, Get;
    PutBelow(mem, m, top, ptrs, a + 1, top - 4 - 4 * (|ptrs| - a), ptrs[a]);
    PutWord(m, top - 4 - 4 * (|ptrs| - a), ptrs[a]);
  }

  lemma PutAbove(m: Memory, p: nat, x: nat)
    ensures forall y: nat :: y < p ==> Get(Put(m, p, x), y) == Get(m, y)
  {
  }

  // The words below the strings, from the NULL down.
  method PushWords(mem: Memory, top: nat, ptrs: seq<nat>) returns (esp: nat, m: Memory)
    requires top >= 8 + 4 * |ptrs| && |ptrs| < WORD && forall i :: 0 <= i < |ptrs| ==> ptrs[i] < WORD
    ensures esp == top - 8 - 4 * |ptrs| && Word(m, esp) == |ptrs| && WordsFrom(mem, m, top, ptrs, 0)
    ensures forall x: nat :: x < esp ==> Get(m, x) == Get(mem, x)
  {
    hide Put, Word, Get, WordsFrom;
    var n := |ptrs|;
    WordsStart(mem, top, ptrs);
    PutAbove(mem, top - 4, 0);
    m := Put(mem, top - 4, 0);
    var a, sp := n, top - 4;
    while a > 0
      invariant 0 <= a <= n && sp == top - 4 - 4 * (n - a) && WordsFrom(mem, m, top, ptrs, a)
      invariant forall x: nat :: x < sp ==> Get(m, x) == Get(mem, x)
    {
      a, sp := a - 1, sp - 4;
      WordsStep(mem, m, top, ptrs, a);
      PutAbove(m, sp, ptrs[a]);
      m := Put(m, sp, ptrs[a]);
    }
    esp := sp - 4;
    PutBelow(mem, m, top, ptrs, 0, esp, n);
    PutWord(m, esp, n);
    PutAbove(m, esp, n);
    m := Put(m, esp, n);
  }

  /** The second half of build_user_stack_from_cmdline, and build_stack_from_argv of the linker. */
  method BuildStack(mem: Memory, args: seq<Text>) returns (ok: bool, esp: nat, m: Memory)
    requires |args| <= 64
    ensures ok <==> HasRoom(args)
    ensures ok ==> esp == StackPtr(args) && esp % 4 == 0 && Image(m, esp, args) && Outside(mem, m, esp)
  {
    hide TextAt, Word, Ptr;
    var sp, ptrs, m1;
    ok, sp, ptrs, m1 := PushStrings(mem, args);
    esp, m := 0, m1;
    if !ok { return; }
    var top := sp / 4 * 4;
    forall i | 0 <= i < |args| ensures ptrs[i] < WORD { PtrMono(args, i, |args|); }
    esp, m := PushWords(m1, top, ptrs);
    ImageIs(m1, m, args, ptrs, top, esp);
    PtrMono(args, 0, |args|);
  }

  lemma ImageIs(mem: Memory, m: Memory, args: seq<Text>, ptrs: seq<nat>, top: nat, esp: nat)
    requires |ptrs| == |args| && Ptr(args, 0) >= top >= 8 + 4 * |args| && esp == top - 8 - 4 * |args|
             && Word(m, esp) == |args|
    requires WordsFrom(mem, m, top, ptrs, 0)
    requires forall a :: 0 <= a < |args| ==> ptrs[a] == Ptr(args, a) && TextAt(mem, Ptr(args, a), args[a])
    ensures Image(m, esp, args)
  {
    hide Word, Ptr, TextAt, Get;
    forall a | 0 <= a < |args| ensures Word(m, esp + 4 + 4 * a) == Ptr(args, a) && TextAt(m, Ptr(args, a), args[a]) {
      assert esp + 4 + 4 * a == top - 4 - 4 * (|args| - a);
      PtrMono(args, 0, a);
      TextKept(mem, m, Ptr(args, a), args[a]);
    }
  }

  /** End to end: arguments quoted by execve or by the shell, tokenized and put on the stack are
      what the program reads, if they are within the limits; the shell drops the empty ones. */
  method StartProgram(mem: Memory, line: Text, ghost shell: bool, ghost args: seq<Text>)
    returns (ok: bool, esp: nat, m: Memory)
    requires line == CmdLine(shell, args)
    ensures ok <==> Within(Kept(shell, args))
    ensures ok ==> esp >= USER_BASE && esp % 4 == 0 && Image(m, esp, Kept(shell, args))
  {
    hide Image, CmdLine, Tokens, HasRoom, StackPtr, Fits;
    TokensOfLine(shell, args, 0);
    ok, esp, m := StartLine(mem, line);
  }

  // build_user_stack_from_cmdline
  method StartLine(mem: Memory, line: Text) returns (ok: bool, esp: nat, m: Memory)
    ensures ok <==> Tokens(line, 0).Args?
    ensures ok ==> var args := Tokens(line, 0).args;
                   && Within(args) && HasRoom(args) && esp == StackPtr(args) && esp >= USER_BASE && esp % 4 == 0
                   && Image(m, esp, args)
  {
    hide Image, Tokens, HasRoom, StackPtr, Fits;
    ok, esp, m := false, 0, mem;
    var r := Startup.Tokenize(line);
    if r.Malformed? { return; }
    TokensWithin(line, 0);
    StackIn(r.args);
    FewArgs(r.args);
    ok, esp, m := BuildStack(mem, r.args);
  }

  // The tokenizer hands out nothing beyond the limits.
  lemma {:induction false} TokensWithin(s: Text, n: nat)
    requires n <= ARG_MAX && Tokens(s, n).Args?
    ensures Fits(n, Tokens(s, n).args)
    decreases |s|
  {
    var t := SkipSpaces(s);
    SameTokens(s, t, n);
    if t != [] {
      hide ScanToken, Tokens;
      TokensNext(t, n);
      var r := ScanToken(t, false, false, []);
      TokensWithin(r.rest, n + 1);
      ScanWithin(t, false, false, []);
      ReadNext(n, r.text, Tokens(r.rest, n + 1).args);
    }
  }

  lemma {:induction false} ScanWithin(s: Text, sq: bool, dq: bool, acc: Text)
    requires |acc| < TOKEN_MAX && ScanToken(s, sq, dq, acc).Token?
    ensures |ScanToken(s, sq, dq, acc).text| < TOKEN_MAX
    decreases |s|
  {
    if s == [] || (!sq && !dq && IsSpace(s[0])) {
    } else if s[0] == BACKSLASH && |s| > 1 {
      ScanWithin(s[2..], sq, dq, acc + [s[1]]);
    } else if s[0] == SQUOTE && !dq {
      ScanWithin(s[1..], !sq, dq, acc);
    } else if s[0] == DQUOTE && !sq {
      ScanWithin(s[1..], sq, !dq, acc);
    } else {
      ScanWithin(s[1..], sq, dq, acc + [s[0]]);
    }
  }

  lemma FewArgs(args: seq<Text>)
    requires Within(args)
    ensures |args| <= ARG_MAX
  {
  }

  lemma StackIn(args: seq<Text>)
    requires Within(args)
    ensures HasRoom(args) && StackPtr(args) >= USER_BASE
  {
    KernelHasRoom(args);
    hide Ptr;
  }
}
