/**
 Programs with an interpreter: the kernel starts the linker with a rewritten command line, and the
 linker puts the program's arguments on the stack.
 */
module Interpreter {
  import opened Bytes
  import opened Words
  import opened Argv
  import Startup
  import opened ProgramStack

  const SLASH: byte := 47
  const LINE_MAX: nat := 512

  // ----- what the new command line is

  // path_basename_local: what follows the last slash.
  function Base(p: Text): Text {
    if p == [] || p[|p| - 1] == SLASH then [] else Base(p[..|p| - 1]) + [p[|p| - 1]]
  }

  /** It has no slash, and a slash or nothing is before it. */
  lemma {:induction false} BaseIs(p: Text)
    ensures SLASH !in Base(p) && |Base(p)| <= |p| && p[|p| - |Base(p)|..] == Base(p)
    ensures |Base(p)| < |p| ==> p[|p| - |Base(p)| - 1] == SLASH
  {
    if p != [] && p[|p| - 1] != SLASH {
      var q := p[..|p| - 1];
      BaseIs(q);
      assert p[|p| - |Base(p)|..] == q[|q| - |Base(q)|..] + [p[|p| - 1]];
    }
  }

  function DropWord(t: Text): (r: Text)
    ensures |r| <= |t|
  {
    if t == [] || IsSpace(t[0]) then t else DropWord(t[1..])
  }

  // skip_first_token
  function SkipFirst(t: Text): Text { SkipSpaces(DropWord(SkipSpaces(t))) }

  // The line t begins with the word w.
  predicate Heads(t: Text, w: Text) { w <= t && Ends(t[|w|..]) }

  // What is left of the old line: without its first word, if that is the program's path or name.
  function Tail(target: Text, line: Text): Text {
    var t := SkipSpaces(line);
    if Heads(t, target) || (Base(target) != [] && Heads(t, Base(target))) then SkipFirst(t) else t
  }

  function InterpLine(interp: Text, target: Text, line: Text): Text {
    var t := Tail(target, line);
    interp + [SPACE] + target + if t == [] then [] else [SPACE] + t
  }

  // ----- building it

  method FindBase(p: Text) returns (base: Text)
    ensures base == Base(p)
  {
    var last, i := 0, 0;
    while i < |p|
      invariant 0 <= last <= i <= |p| && p[last..i] == Base(p[..i])
    {
      assert p[..i + 1][..i] == p[..i] && p[last..i + 1] == p[last..i] + [p[i]];
      if p[i] == SLASH { last := i + 1; }
      i := i + 1;
    }
    assert p[..|p|] == p;
    base := p[last..];
  }

  // strncmp, and a blank or the end behind it.
  method HasHead(t: Text, w: Text) returns (yes: bool)
    ensures yes <==> Heads(t, w)
  {
    var i := 0;
    while i < |w|
      invariant 0 <= i <= |w| && i <= |t| && w[..i] == t[..i]
    {
      if i == |t| || t[i] != w[i] { return false; }
      i := i + 1;
    }
    assert w[..|w|] == w;
    yes := i == |t| || IsSpace(t[i]);
  }

  method SkipWord(t: Text, i: nat) returns (j: nat)
    requires i <= |t|
    ensures i <= j <= |t| && DropWord(t[i..]) == t[j..]
  {
    j := i;
    while j < |t| && !IsSpace(t[j])
      invariant i <= j <= |t| && DropWord(t[i..]) == DropWord(t[j..])
    {
      assert t[j..][1..] == t[j + 1..];
      j := j + 1;
    }
  }

  method FindTail(target: Text, line: Text) returns (i: nat)
    ensures i <= |line| && line[i..] == Tail(target, line)
  {
    hide Tokens, DropWord, Base, Heads, SkipSpaces;
    var base := FindBase(target);
    i := Startup.SkipFrom(line, 0);
    assert line[0..] == line;
    var named := HasHead(line[i..], target);
    var based := HasHead(line[i..], base);
    if named || (base != [] && based) {
      var a := Startup.SkipFrom(line, i);
      var b := SkipWord(line, a);
      i := Startup.SkipFrom(line, b);
    }
  }

  /** build_interp_cmdline, for a buffer of cap bytes. */
  method BuildInterpLine(interp: Text, target: Text, line: Text, cap: nat) returns (ok: bool, out: Text)
    requires cap >= 4
    ensures ok <==> |InterpLine(interp, target, line)| + 1 <= cap
    ensures ok ==> out == InterpLine(interp, target, line)
  {
    hide Tail;
    var i := FindTail(target, line);
    var t := line[i..];
    ok, out := Startup.AppendText([], interp, cap);
    if !ok { return; }
    assert [] + interp == interp;
    ok, out := Startup.AppendChar(out, SPACE, cap);
    if !ok { return; }
    ok, out := Startup.AppendText(out, target, cap);
    if !ok { return; }
    assert out + [] == out;
    if t != [] {
      assert out + [SPACE] + t == out + ([SPACE] + t);
      ok, out := Startup.AppendChar(out, SPACE, cap);
      if !ok { return; }
      ok, out := Startup.AppendText(out, t, cap);
    }
  }

  // ----- its tokens

  // A word that stands for itself on a command line.
  predicate Plain(s: Text) { s != [] && !NeedsQuote(s) }

  lemma PlainNext(s: Text, rest: Text, n: nat)
    requires Plain(s) && Ends(rest)
    ensures Tokens(s + rest, n) == if n >= ARG_MAX || |s| >= TOKEN_MAX then Malformed
              else Prepend([s], Tokens(rest, n + 1))
  {
    hide ScanToken, Tokens, NeedsQuote;
    ScanWord(s, rest);
    TokensNext(s + rest, n);
  }

  // The old line from its first word on.
  lemma {:induction false} LineHead(shell: bool, args: seq<Text>) returns (more: seq<Text>)
    ensures var k, t := Kept(shell, args), SkipSpaces(CmdLine(shell, args));
            if k == [] then t == [] else t == Quote(shell, k[0]) + After(shell, more) && Kept(shell, more) == k[1..]
    decreases |args|
  {
    more := [];
    if args != [] {
      hide Quote, CmdLine, Kept;
      LineIs(shell, args);
      KeptIs(shell, args);
      if shell && args[0] == [] {
        more := LineHead(shell, args[1..]);
        AfterSkips(shell, args[1..]);
      } else {
        more := args[1..];
        ScanQuoted(shell, args[0], After(shell, more));
        SkipNothing(Quote(shell, args[0]) + After(shell, more));
      }
    }
  }

  lemma SkipNothing(t: Text)
    requires t == [] || !IsSpace(t[0])
    ensures SkipSpaces(t) == t
  {
  }

  lemma AfterSkips(shell: bool, more: seq<Text>)
    ensures SkipSpaces(After(shell, more)) == SkipSpaces(CmdLine(shell, more)) && Ends(After(shell, more))
  {
    if more != [] { assert After(shell, more)[1..] == CmdLine(shell, more); }
  }

  lemma {:induction false} BasePlain(p: Text)
    requires !NeedsQuote(p)
    ensures !NeedsQuote(Base(p))
    decreases |p|
  {
    if p != [] && p[|p| - 1] != SLASH {
      var q := p[..|p| - 1];
      forall i | 0 <= i < |q| ensures !Special(q[i]) { assert q[i] == p[i]; }
      BasePlain(q);
      assert forall i :: 0 <= i < |Base(p)| ==> Base(p)[i] == if i < |Base(q)| then Base(q)[i] else p[|p| - 1];
      assert !Special(p[|p| - 1]);
    }
  }

  lemma {:induction false} DropPlain(s: Text, rest: Text)
    requires !NeedsQuote(s) && Ends(rest)
    ensures DropWord(s + rest) == rest
    decreases |s|
  {
    if s == [] {
      assert s + rest == rest;
    } else {
      assert !Special(s[0]) && (s + rest)[1..] == s[1..] + rest;
      forall i | 0 <= i < |s[1..]| ensures !Special(s[1..][i]) { assert s[1..][i] == s[i + 1]; }
      DropPlain(s[1..], rest);
    }
  }

  // A plain word heads a line that begins with an argument iff it is the argument, unquoted.
  lemma HeadsQuoted(shell: bool, a: Text, rest: Text, w: Text)
    requires Plain(w) && Ends(rest) && (shell ==> a != [])
    ensures Heads(Quote(shell, a) + rest, w) <==> shell && a == w
  {
    var t := Quote(shell, a) + rest;
    if shell && !NeedsQuote(a) {
      hide NeedsQuote;
      DropPlain(a, rest);
      if Heads(t, w) {
        assert t == w + t[|w|..];
        DropPlain(w, t[|w|..]);
      }
      if a == w { assert t[|w|..] == rest; }
    } else {
      assert !Special(w[0]) && t[0] == DQUOTE;
    }
  }

  // The arguments that come behind the program's path: all that arrive, but the first if the shell
  // wrote it as the path or the name of the program.
  function Dropped(shell: bool, target: Text, args: seq<Text>): seq<Text> {
    var k := Kept(shell, args);
    if shell && k != [] && (k[0] == target || k[0] == Base(target)) then k[1..] else k
  }

  lemma {:induction false} KeptFull(args: seq<Text>)
    ensures forall i :: 0 <= i < |NonEmpty(args)| ==> NonEmpty(args)[i] != []
  {
    if args != [] { KeptFull(args[1..]); }
  }

  lemma TailTokens(shell: bool, target: Text, args: seq<Text>, n: nat)
    requires Plain(target) && n <= ARG_MAX
    ensures Tokens(Tail(target, CmdLine(shell, args)), n) == Read(n, Dropped(shell, target, args))
  {
    hide Tokens, Quote, CmdLine, Read, NeedsQuote, SkipSpaces, DropWord, Base, Heads;
    var line, k := CmdLine(shell, args), Kept(shell, args);
    var t := SkipSpaces(line);
    var more := LineHead(shell, args);
    TokensOfLine(shell, args, n);
    SkipTwice(line);
    SameTokens(line, t, n);
    if k == [] {
      NothingHeads(target);
    } else {
      if shell { KeptFull(args); }
      AfterSkips(shell, more);
      var rest := After(shell, more);
      HeadsQuoted(shell, k[0], rest, target);
      BasePlain(target);
      if Base(target) != [] { HeadsQuoted(shell, k[0], rest, Base(target)); }
      if shell && (k[0] == target || k[0] == Base(target)) {
        Unquoted(k[0]);
        SkipTwice(line);
        DropPlain(k[0], rest);
        assert Tail(target, line) == SkipSpaces(rest);
        SkipTwice(rest);
        SameTokens(SkipSpaces(rest), CmdLine(shell, more), n);
        TokensOfLine(shell, more, n);
      }
    }
  }

  lemma Unquoted(s: Text)
    requires !NeedsQuote(s)
    ensures Quote(true, s) == s
  {
  }

  lemma SkipTwice(t: Text)
    ensures SkipSpaces(SkipSpaces(t)) == SkipSpaces(t)
  {
    SkipNothing(SkipSpaces(t));
  }

  lemma NothingHeads(target: Text)
    requires target != []
    ensures !Heads([], target) && (Base(target) != [] ==> !Heads([], Base(target)))
  {
  }

  // A word, a blank, and a line.
  lemma WordThen(w: Text, line: Text, n: nat)
    requires Plain(w)
    ensures Tokens(w + ([SPACE] + line), n) ==
            if n >= ARG_MAX || |w| >= TOKEN_MAX then Malformed else Prepend([w], Tokens(line, n + 1))
  {
    hide Tokens, Plain, SkipSpaces;
    PlainNext(w, [SPACE] + line, n);
    OneSpace(line);
    SameTokens([SPACE] + line, line, n + 1);
  }

  /** The linker is handed its own path, the program's, and the program's arguments as they are
      left. */
  lemma InterpTokens(interp: Text, target: Text, shell: bool, args: seq<Text>)
    requires Plain(interp) && Plain(target)
    ensures Tokens(InterpLine(interp, target, CmdLine(shell, args)), 0) ==
            Read(0, [interp, target] + Dropped(shell, target, args))
  {
    hide Tokens, Tail, Prepend, Read, Plain, Dropped, CmdLine, SkipSpaces;
    var t, d := Tail(target, CmdLine(shell, args)), Dropped(shell, target, args);
    var rest := if t == [] then [] else [SPACE] + t;
    TailTokens(shell, target, args, 2);
    RestSkips(t);
    SameTokens(rest, t, 2);
    PlainNext(target, rest, 1);
    ReadNext(1, target, d);
    assert InterpLine(interp, target, CmdLine(shell, args)) == interp + ([SPACE] + (target + rest));
    WordThen(interp, target + rest, 0);
    ReadNext(0, interp, [target] + d);
    assert [interp] + ([target] + d) == [interp, target] + d;
  }

  lemma OneSpace(t: Text)
    ensures SkipSpaces([SPACE] + t) == SkipSpaces(t)
  {
    assert ([SPACE] + t)[1..] == t;
  }

  lemma RestSkips(t: Text)
    ensures var rest := if t == [] then [] else [SPACE] + t; SkipSpaces(rest) == SkipSpaces(t) && Ends(rest)
  {
    OneSpace(t);
  }

  /** The program gets its path followed by the arguments after the first iff the shell wrote the
      first one as that path or as its last component; execve quotes it, and the program gets it a
      second time. */
  lemma FirstIsDropped(shell: bool, target: Text, args: seq<Text>)
    requires args != [] && (shell ==> forall i :: 0 <= i < |args| ==> args[i] != [])
    ensures Dropped(shell, target, args) == args[1..] <==> shell && (args[0] == target || args[0] == Base(target))
    ensures Dropped(false, target, args) == args
  {
    if shell { NonEmptyIs(args); }
    assert |args[1..]| < |args|;
  }

  /** The path itself is not quoted: one with a blank in it reaches the linker in pieces. */
  lemma BlankSplits(interp: Text, a: Text, b: Text, line: Text)
    requires Plain(interp) && Plain(a) && b != [] && IsSpace(b[0])
    requires Tokens(InterpLine(interp, a + b, line), 0).Args?
    ensures var args := Tokens(InterpLine(interp, a + b, line), 0).args; |args| >= 2 && args[1] == a != a + b
  {
    hide Tokens, Tail, NeedsQuote;
    var t := Tail(a + b, line);
    var rest := b + if t == [] then [] else [SPACE] + t;
    assert rest[0] == b[0];
    assert InterpLine(interp, a + b, line) == interp + ([SPACE] + (a + rest));
    WordThen(interp, a + rest, 0);
    PlainNext(a, rest, 1);
  }

  // ----- the linker

  lemma PtrRest(args: seq<Text>, k: nat)
    requires k < |args|
    ensures Ptr(args[1..], k) == Ptr(args, k + 1)
  {
    assert args[1..][k..] == args[k + 1..];
  }

  // Writing a string where it stands changes nothing.
  lemma PutAgain(m: Memory, p: nat, s: Text)
    requires TextAt(m, p, s)
    ensures forall x: nat :: Get(PutText(m, p, s), x) == Get(m, x)
  {
    forall x: nat ensures Get(PutText(m, p, s), x) == Get(m, x) {
      if p <= x < p + |s| { assert Get(m, p + (x - p)) == s[x - p]; }
    }
  }

  // target_argv: the pointers to the program's arguments.
  method ReadPtrs(mem: Memory, esp: nat, ghost args: seq<Text>) returns (ptrs: seq<nat>)
    requires args != [] && Image(mem, esp, args)
    ensures |ptrs| == |args| - 1 && forall k :: 0 <= k < |ptrs| ==> ptrs[k] == Ptr(args, k + 1)
  {
    hide TextAt, Ptr, Word;
    var argc, i := Word(mem, esp), 1;
    ptrs := [];
    while i < argc
      invariant 1 <= i <= argc && |ptrs| == i - 1 && forall k :: 0 <= k < i - 1 ==> ptrs[k] == Ptr(args, k + 1)
    {
      ptrs, i := ptrs + [Word(mem, esp + 4 + 4 * i)], i + 1;
    }
  }

  // The strings are copied from where they stand to where they should stand.
  method CopyStrings(mem: Memory, ptrs: seq<nat>, ghost args: seq<Text>) returns (ok: bool, sp: nat, m: Memory)
    requires args != [] && HasRoom(args) && |ptrs| == |args| - 1
    requires forall k :: 0 <= k < |args| ==> NoNul(args[k]) && Ptr(args, k) >= 0 && TextAt(mem, Ptr(args, k), args[k])
    requires forall k :: 0 <= k < |ptrs| ==> ptrs[k] == Ptr(args, k + 1)
    ensures ok && sp == Ptr(args, 1) && forall x: nat :: Get(m, x) == Get(mem, x)
  {
    hide TextAt, TotalLen, NoNul, Ptr;
    m, sp := mem, STACK_TOP;
    var a := |ptrs|;
    EndPtr(args);
    while a > 0
      invariant 0 <= a <= |ptrs| && sp == Ptr(args, a + 1) && forall x: nat :: Get(m, x) == Get(mem, x)
    {
      a := a - 1;
      PtrMono(args, 0, a + 1);
      PtrMono(args, a + 2, |args|);
      PtrNext(args, a + 1);
      TextKept(mem, m, ptrs[a], args[a + 1]);
      ReadsBack(m, ptrs[a], args[a + 1], STACK_TOP - ptrs[a]);
      var arg := ReadText(m, ptrs[a], STACK_TOP - ptrs[a]);
      assert Ptr(args, 0) >= USER_BASE + SLACK by { RoomIs(args); }
      if sp < USER_BASE + |arg| + 1 + SLACK { return false, sp, m; }
      sp := sp - (|arg| + 1);
      PutAgain(m, sp, arg);
      m := PutText(m, sp, arg);
    }
    ok := true;
  }

  lemma RoomIs(args: seq<Text>)
    requires HasRoom(args)
    ensures Ptr(args, 0) >= USER_BASE + SLACK
  {
  }

  /** main and build_stack_from_argv of the linker, in the memory that holds its own arguments: the
      strings of the program's arguments are copied onto themselves, and nothing below the new
      stack pointer, hence nothing of the linker's own frames, is written. */
  method Restack(mem: Memory, esp: nat, ghost args: seq<Text>) returns (ok: bool, sp: nat, m: Memory)
    requires |args| >= 2 && Within(args) && HasRoom(args) && esp == StackPtr(args) && Image(mem, esp, args)
    requires forall i :: 0 <= i < |args| ==> NoNul(args[i])
    ensures ok && HasRoom(args[1..]) && sp == StackPtr(args[1..]) && esp < sp && USER_BASE <= sp && sp % 4 == 0
    ensures Image(m, sp, args[1..])
    ensures forall x: nat :: x < sp ==> Get(m, x) == Get(mem, x)
  {
    hide TextAt, TotalLen, Word, NoNul, Ptr;
    var ptrs := ReadPtrs(mem, esp, args);
    RestRoom(args);
    var low;
    ok, low, m := CopyStrings(mem, ptrs, args);
    ghost var own, before := args[1..], m;
    OwnTexts(mem, m, ptrs, args);
    var top := low / 4 * 4;
    sp, m := PushWords(m, top, ptrs);
    ImageIs(before, m, own, ptrs, top, sp);
  }

  lemma OwnTexts(mem: Memory, m: Memory, ptrs: seq<nat>, args: seq<Text>)
    requires args != [] && |ptrs| == |args| - 1 && forall x: nat :: Get(m, x) == Get(mem, x)
    requires forall k :: 0 <= k < |args| ==> Ptr(args, k) >= 0 && TextAt(mem, Ptr(args, k), args[k])
    requires forall k :: 0 <= k < |ptrs| ==> ptrs[k] == Ptr(args, k + 1)
    ensures var own := args[1..];
            forall k :: 0 <= k < |own| ==> ptrs[k] == Ptr(own, k) && ptrs[k] < WORD && TextAt(m, Ptr(own, k), own[k])
  {
    hide TextAt, Ptr;
    var own := args[1..];
    forall k | 0 <= k < |own| ensures ptrs[k] == Ptr(own, k) && ptrs[k] < WORD && TextAt(m, Ptr(own, k), own[k]) {
      PtrRest(args, k);
      PtrMono(own, k, |own|);
      TextKept(mem, m, Ptr(args, k + 1), args[k + 1]);
    }
  }

  // The program's arguments have room if the linker's have.
  lemma RestRoom(args: seq<Text>)
    requires |args| >= 2 && Within(args) && HasRoom(args)
    ensures HasRoom(args[1..]) && StackPtr(args) < StackPtr(args[1..]) && USER_BASE <= StackPtr(args[1..])
    ensures Ptr(args[1..], 0) == Ptr(args, 1)
  {
    hide Ptr;
    PtrRest(args, 0);
    PtrNext(args, 0);
    LayoutApart(args[1..], 0, |args| - 1);
  }

  /** End to end for a program with an interpreter: what the program finds is its path and the
      arguments that are left. */
  method StartInterpreted(mem: Memory, interp: Text, target: Text, line: Text, ghost shell: bool, ghost args: seq<Text>)
    returns (ok: bool, esp: nat, m: Memory)
    requires Plain(interp) && Plain(target) && line == CmdLine(shell, args)
    requires NoNul(interp) && NoNul(target) && forall i :: 0 <= i < |args| ==> NoNul(args[i])
    ensures ok <==>
              |InterpLine(interp, target, line)| < LINE_MAX && Within([interp, target] + Dropped(shell, target, args))
    ensures ok ==> esp >= USER_BASE && esp % 4 == 0 && Image(m, esp, [target] + Dropped(shell, target, args))
  {
    hide Image, InterpLine, CmdLine, Tokens, HasRoom, StackPtr, Plain, NoNul, Fits, Dropped;
    esp, m := 0, mem;
    var full;
    ok, full := BuildInterpLine(interp, target, line, LINE_MAX);
    InterpTokens(interp, target, shell, args);
    if !ok { return; }
    ok, esp, m := StartLine(mem, full);
    if !ok { return; }
    ghost var all := [interp, target] + Dropped(shell, target, args);
    assert all[1..] == [target] + Dropped(shell, target, args);
    DroppedNoNul(shell, target, args);
    ok, esp, m := Restack(m, esp, all);
  }

  lemma DroppedNoNul(shell: bool, target: Text, args: seq<Text>)
    requires forall i :: 0 <= i < |args| ==> NoNul(args[i])
    ensures var d := Dropped(shell, target, args); forall i :: 0 <= i < |d| ==> NoNul(d[i])
  {
    hide NoNul;
    if shell { NonEmptyNoNul(args); }
  }

  lemma {:induction false} NonEmptyNoNul(args: seq<Text>)
    requires forall i :: 0 <= i < |args| ==> NoNul(args[i])
    ensures forall i :: 0 <= i < |NonEmpty(args)| ==> NoNul(NonEmpty(args)[i])
  {
    hide NoNul;
    if args != [] { NonEmptyNoNul(args[1..]); }
  }
}
