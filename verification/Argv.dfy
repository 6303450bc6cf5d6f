/**
 How program arguments travel: quoted into a command line, taken apart by the kernel, and laid
 out on the new program's stack.
 */
module Argv {
  import opened Bytes

  type Text = seq<byte>

  const SPACE: byte := 32
  const DQUOTE: byte := 34
  const SQUOTE: byte := 39
  const BACKSLASH: byte := 92
  const ARG_MAX: nat := 32
  const TOKEN_MAX: nat := 128

  predicate IsSpace(c: byte) { c == 32 || c == 9 || c == 10 || c == 13 }

  // ----- quoting

  function EscapeOne(c: byte): Text { if c == DQUOTE || c == BACKSLASH then [BACKSLASH, c] else [c] }

  function Escape(s: Text): Text {
    if s == [] then [] else EscapeOne(s[0]) + Escape(s[1..])
  }

  predicate Special(c: byte) { IsSpace(c) || c == DQUOTE || c == SQUOTE || c == BACKSLASH }

  predicate NeedsQuote(s: Text) { exists i :: 0 <= i < |s| && Special(s[i]) }

  function ExecQuote(s: Text): Text { [DQUOTE] + Escape(s) + [DQUOTE] }

  function ShellQuote(s: Text): Text { if NeedsQuote(s) then ExecQuote(s) else s }

  function Quote(shell: bool, s: Text): Text { if shell then ShellQuote(s) else ExecQuote(s) }

  function CmdLine(shell: bool, args: seq<Text>): Text {
    if args == [] then []
    else if |args| == 1 then Quote(shell, args[0])
    else Quote(shell, args[0]) + [SPACE] + CmdLine(shell, args[1..])
  }

  /** The shell leaves a word alone if it has no blank, quote or backslash; otherwise, and in execve
      always, it stands in double quotes. */
  lemma QuoteIs(s: Text)
    ensures ShellQuote(s) == s <==> forall i :: 0 <= i < |s| ==> s[i] !in [9, 10, 13, 32, 34, 39, 92]
    ensures ShellQuote(s) == s || ShellQuote(s) == ExecQuote(s)
    ensures var q := ExecQuote(s); |q| >= 2 && q[0] == 34 && q[|q| - 1] == 34 && q[1..|q| - 1] == Escape(s)
  {
    EscapeLonger(s);
  }

  lemma {:induction false} EscapeLonger(s: Text)
    ensures |Escape(s)| >= |s|
  {
    if s != [] { EscapeLonger(s[1..]); }
  }

  // ----- the tokenizer

  datatype Scan = Bad | Token(text: Text, rest: Text)
  datatype Parse = Malformed | Args(args: seq<Text>)

  // One token, from inside of it; "acc" is what it has so far.
  function ScanToken(s: Text, sq: bool, dq: bool, acc: Text): (r: Scan)
    ensures r.Token? ==> |r.rest| <= |s|
    decreases |s|
  {
    if s == [] then (if sq || dq then Bad else Token(acc, []))
    else if !sq && !dq && IsSpace(s[0]) then Token(acc, s)
    else if s[0] == BACKSLASH && |s| > 1 then
      if |acc| + 1 >= TOKEN_MAX then Bad else ScanToken(s[2..], sq, dq, acc + [s[1]])
    else if s[0] == SQUOTE && !dq then ScanToken(s[1..], !sq, dq, acc)
    else if s[0] == DQUOTE && !sq then ScanToken(s[1..], sq, !dq, acc)
    else if |acc| + 1 >= TOKEN_MAX then Bad
    else ScanToken(s[1..], sq, dq, acc + [s[0]])
  }

  function SkipSpaces(s: Text): (r: Text)
    ensures |r| <= |s| && (r == [] || !IsSpace(r[0]))
  {
    if s == [] || !IsSpace(s[0]) then s else SkipSpaces(s[1..])
  }

  // The first step of a token consumes something.
  lemma TokenShrinks(s: Text)
    requires s != [] && !IsSpace(s[0]) && ScanToken(s, false, false, []).Token?
    ensures |ScanToken(s, false, false, []).rest| < |s|
  {
  }

  function Prepend(args: seq<Text>, p: Parse): Parse { if p.Malformed? then p else Args(args + p.args) }

  lemma PrependJoin(a: seq<Text>, b: seq<Text>, p: Parse)
    ensures Prepend(a, Prepend(b, p)) == Prepend(a + b, p)
  {
    if p.Args? { assert a + (b + p.args) == a + b + p.args; }
  }

  // The tokens of s, when n have been read before.
  function Tokens(s: Text, n: nat): Parse
    decreases |s|
  {
    var t := SkipSpaces(s);
    if t == [] then Args([])
    else if n >= ARG_MAX then Malformed
    else
      var r := ScanToken(t, false, false, []);
      if r.Bad? then Malformed
      else
        TokenShrinks(t);
        Prepend([r.text], Tokens(r.rest, n + 1))
  }

  // Where a token begins.
  lemma TokensNext(s: Text, n: nat)
    requires s != [] && !IsSpace(s[0])
    ensures var r := ScanToken(s, false, false, []);
            && (r.Token? ==> |r.rest| < |s|)
            && Tokens(s, n) == if n >= ARG_MAX || r.Bad? then Malformed else Prepend([r.text], Tokens(r.rest, n + 1))
  {
    hide ScanToken, Prepend;
    if ScanToken(s, false, false, []).Token? { TokenShrinks(s); }
  }

  lemma SameTokens(x: Text, y: Text, n: nat)
    requires SkipSpaces(x) == SkipSpaces(y)
    ensures Tokens(x, n) == Tokens(y, n)
  {
  }

  // ----- tokenizing undoes quoting

  // One escaped character, inside double quotes.
  lemma ScanEscapedOne(c: byte, tail: Text, acc: Text)
    ensures ScanToken(EscapeOne(c) + tail, false, true, acc) ==
            if |acc| + 1 < TOKEN_MAX then ScanToken(tail, false, true, acc + [c]) else Bad
  {
    var whole := EscapeOne(c) + tail;
    if c == DQUOTE || c == BACKSLASH {
      assert whole[2..] == tail && whole[1] == c;
    } else {
      assert whole[1..] == tail && whole[0] == c;
    }
  }

  lemma ScanClose(rest: Text, acc: Text)
    ensures ScanToken([DQUOTE] + rest, false, true, acc) == ScanToken(rest, false, false, acc)
  {
    assert ([DQUOTE] + rest)[1..] == rest;
  }

  lemma {:induction false} ScanEscaped(s: Text, rest: Text, acc: Text)
    requires |acc| < TOKEN_MAX
    ensures ScanToken(Escape(s) + ([DQUOTE] + rest), false, true, acc) ==
            if |acc| + |s| < TOKEN_MAX then ScanToken(rest, false, false, acc + s) else Bad
    decreases |s|
  {
    hide ScanToken, EscapeOne;
    if s == [] {
      ScanClose(rest, acc);
      assert [] + ([DQUOTE] + rest) == [DQUOTE] + rest && acc + s == acc;
    } else {
      var tail := Escape(s[1..]) + ([DQUOTE] + rest);
      ScanEscapedOne(s[0], tail, acc);
      if |acc| + 1 < TOKEN_MAX { ScanEscaped(s[1..], rest, acc + [s[0]]); }
      assert acc + [s[0]] + s[1..] == acc + s;
      assert Escape(s) + ([DQUOTE] + rest) == EscapeOne(s[0]) + tail;
    }
  }

  lemma {:induction false} ScanPlain(s: Text, rest: Text, acc: Text)
    requires |acc| < TOKEN_MAX && !NeedsQuote(s)
    ensures ScanToken(s + rest, false, false, acc) ==
            if |acc| + |s| < TOKEN_MAX then ScanToken(rest, false, false, acc + s) else Bad
    decreases |s|
  {
    if s == [] {
      assert s + rest == rest && acc + s == acc;
    } else {
      assert !Special(s[0]);
      assert (s + rest)[1..] == s[1..] + rest && acc + [s[0]] + s[1..] == acc + s;
      forall i | 0 <= i < |s[1..]| ensures !Special(s[1..][i]) { assert s[1..][i] == s[i + 1]; }
      if |acc| + 1 < TOKEN_MAX { ScanPlain(s[1..], rest, acc + [s[0]]); }
    }
  }

  // What stands between two arguments: nothing, or a blank first.
  predicate Ends(rest: Text) { rest == [] || IsSpace(rest[0]) }

  function Whole(s: Text, rest: Text): Scan { if |s| < TOKEN_MAX then Token(s, rest) else Bad }

  // A quoted argument, with what follows it, is scanned as the argument.
  lemma ScanQuoted(shell: bool, s: Text, rest: Text)
    requires Ends(rest) && (shell ==> s != [])
    ensures ScanToken(Quote(shell, s) + rest, false, false, []) == Whole(s, rest)
    ensures Quote(shell, s) != [] && !IsSpace(Quote(shell, s)[0])
  {
    hide ScanToken, Escape;
    assert [] + s == s;
    if shell && !NeedsQuote(s) {
      ScanWord(s, rest);
    } else {
      var q := Quote(shell, s) + rest;
      assert q[1..] == Escape(s) + ([DQUOTE] + rest);
      ScanOpen(q);
      ScanEscaped(s, rest, []);
      ScanStop(rest, s);
    }
  }

  lemma ScanWord(s: Text, rest: Text)
    requires Ends(rest) && s != [] && !NeedsQuote(s)
    ensures ScanToken(s + rest, false, false, []) == Whole(s, rest) && !IsSpace(s[0])
  {
    hide ScanToken;
    assert [] + s == s;
    ScanPlain(s, rest, []);
    ScanStop(rest, s);
    assert !Special(s[0]);
  }

  lemma ScanOpen(q: Text)
    requires q != [] && q[0] == DQUOTE
    ensures ScanToken(q, false, false, []) == ScanToken(q[1..], false, true, [])
  {
  }

  lemma ScanStop(rest: Text, acc: Text)
    requires Ends(rest)
    ensures ScanToken(rest, false, false, acc) == Token(acc, rest)
  {
  }

  // The limits of the kernel, when n arguments have been read before.
  predicate Fits(n: nat, args: seq<Text>) {
    n + |args| <= ARG_MAX && forall i :: 0 <= i < |args| ==> |args[i]| < TOKEN_MAX
  }

  predicate Within(args: seq<Text>) { Fits(0, args) }

  // What the tokenizer should make of arguments.
  function Read(n: nat, args: seq<Text>): Parse { if Fits(n, args) then Args(args) else Malformed }

  lemma ReadNext(n: nat, a: Text, more: seq<Text>)
    ensures Read(n, [a] + more) == if n >= ARG_MAX || |a| >= TOKEN_MAX then Malformed
              else Prepend([a], Read(n + 1, more))
  {
    var args := [a] + more;
    assert args[0] == a && forall i :: 0 <= i < |more| ==> args[i + 1] == more[i];
    assert forall i :: 0 < i < |args| ==> args[i] == more[i - 1];
  }

  // The arguments that the shell's quoting keeps.
  function NonEmpty(args: seq<Text>): (r: seq<Text>)
    ensures |r| <= |args|
  {
    if args == [] then [] else (if args[0] == [] then [] else [args[0]]) + NonEmpty(args[1..])
  }

  function Kept(shell: bool, args: seq<Text>): seq<Text> { if shell then NonEmpty(args) else args }

  // What follows the first argument on a command line.
  function After(shell: bool, more: seq<Text>): Text {
    if more == [] then [] else [SPACE] + CmdLine(shell, more)
  }

  lemma LineIs(shell: bool, args: seq<Text>)
    requires args != []
    ensures CmdLine(shell, args) == Quote(shell, args[0]) + After(shell, args[1..])
    ensures shell && args[0] == [] ==> CmdLine(shell, args) == After(shell, args[1..])
  {
    hide Quote;
    EmptyQuote();
  }

  lemma KeptIs(shell: bool, args: seq<Text>)
    requires args != []
    ensures Kept(shell, args) == if shell && args[0] == [] then Kept(shell, args[1..])
              else [args[0]] + Kept(shell, args[1..])
  {
  }

  lemma {:induction false} TokensOfLine(shell: bool, args: seq<Text>, n: nat)
    requires n <= ARG_MAX
    ensures Tokens(CmdLine(shell, args), n) == Read(n, Kept(shell, args))
    decreases |args|
  {
    if args == [] {
      assert Tokens([], n) == Args([]);
    } else {
      hide ScanToken, Tokens, Quote, CmdLine, Kept, Prepend;
      var a, more := args[0], args[1..];
      LineIs(shell, args);
      KeptIs(shell, args);
      if shell && a == [] {
        TokensOfLine(shell, more, n);
        RestTokens(shell, more, n);
      } else {
        ScanQuoted(shell, a, After(shell, more));
        TokensNext(Quote(shell, a) + After(shell, more), n);
        ReadNext(n, a, Kept(shell, more));
        if n < ARG_MAX {
          TokensOfLine(shell, more, n + 1);
          RestTokens(shell, more, n + 1);
        }
      }
    }
  }

  lemma EmptyQuote()
    ensures Quote(true, []) == []
  {
  }

  lemma RestTokens(shell: bool, more: seq<Text>, n: nat)
    ensures Tokens(After(shell, more), n) == Tokens(CmdLine(shell, more), n)
  {
    if more != [] { assert After(shell, more)[1..] == CmdLine(shell, more); }
  }

  /** execve: the kernel reads back the arguments as they were, if they are within its limits. */
  lemma ExecRoundTrip(args: seq<Text>)
    ensures Tokens(CmdLine(false, args), 0) == if Within(args) then Args(args) else Malformed
  {
    TokensOfLine(false, args, 0);
  }

  /** The shell: the kernel reads back the arguments without the empty ones, hence all of them
      if and only if none is empty. */
  lemma ShellRoundTrip(args: seq<Text>)
    ensures Tokens(CmdLine(true, args), 0) == if Within(NonEmpty(args)) then Args(NonEmpty(args)) else Malformed
    ensures NonEmpty(args) == args <==> forall i :: 0 <= i < |args| ==> args[i] != []
  {
    TokensOfLine(true, args, 0);
    NonEmptyIs(args);
  }

  lemma {:induction false} NonEmptyIs(args: seq<Text>)
    ensures NonEmpty(args) == args <==> forall i :: 0 <= i < |args| ==> args[i] != []
  {
    if args != [] {
      var more := args[1..];
      NonEmptyIs(more);
      assert args == [args[0]] + more;
      if args[0] == [] {
        assert |NonEmpty(args)| < |args|;
      } else {
        assert forall i :: 0 < i < |args| ==> args[i] == more[i - 1];
        assert NonEmpty(args) == args ==> NonEmpty(args)[1..] == more && NonEmpty(args)[1..] == NonEmpty(more);
      }
    }
  }
}
