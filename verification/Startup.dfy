/**
 The code behind program start-up: building a command line, the kernel's tokenizer, and the
 initial stack of the new program.
 */
module Startup {
  import opened Bytes
  import opened Argv

  // ----- building the command line

  lemma AssocText(x: Text, y: Text, z: Text)
    ensures x + (y + z) == x + y + z
  {
  }

  lemma {:induction false} EscapeJoin(s: Text, t: Text)
    ensures Escape(s + t) == Escape(s) + Escape(t)
  {
    hide EscapeOne;
    if s == [] {
      assert s + t == t;
    } else {
      EscapeJoin(s[1..], t);
      assert (s + t)[1..] == s[1..] + t;
      AssocText(EscapeOne(s[0]), Escape(s[1..]), Escape(t));
    }
  }

  lemma EscapeAt(s: Text, i: nat)
    requires i < |s|
    ensures Escape(s[..i + 1]) == Escape(s[..i]) + EscapeOne(s[i])
    ensures |Escape(s)| >= |Escape(s[..i + 1])|
  {
    hide EscapeOne;
    assert s[..i + 1] == s[..i] + [s[i]];
    assert s == s[..i + 1] + s[i + 1..];
    EscapeJoin(s[..i], [s[i]]);
    EscapeJoin(s[..i + 1], s[i + 1..]);
    assert Escape([s[i]]) == EscapeOne(s[i]) + [];
  }

  // append_char
  method AppendChar(buf: Text, c: byte, cap: nat) returns (ok: bool, out: Text)
    requires |buf| + 1 <= cap
    ensures ok <==> |buf| + 2 <= cap
    ensures out == if ok then buf + [c] else buf
  {
    if |buf| + 1 >= cap { return false, buf; }
    return true, buf + [c];
  }

  method AppendText(buf: Text, s: Text, cap: nat) returns (ok: bool, out: Text)
    requires |buf| + 1 <= cap
    ensures ok <==> |buf| + |s| + 1 <= cap
    ensures ok ==> out == buf + s
  {
    out := buf;
    var i := 0;
    while i < |s|
      invariant 0 <= i <= |s| && out == buf + s[..i] && |out| + 1 <= cap
    {
      ok, out := AppendChar(out, s[i], cap);
      if !ok { return; }
      i := i + 1;
    }
    ok := true;
  }

  // Between the quotes: one character, with its backslash.
  method AppendEscaped(buf: Text, c: byte, cap: nat) returns (ok: bool, out: Text)
    requires |buf| + 1 <= cap
    ensures ok <==> |buf| + |EscapeOne(c)| + 1 <= cap
    ensures ok ==> out == buf + EscapeOne(c)
  {
    out := buf;
    if c == DQUOTE || c == BACKSLASH {
      ok, out := AppendChar(out, BACKSLASH, cap);
      if !ok { return; }
    }
    ok, out := AppendChar(out, c, cap);
  }

  method FindSpecial(arg: Text) returns (need: bool)
    ensures need <==> NeedsQuote(arg)
  {
    var k := 0;
    while k < |arg|
      invariant 0 <= k <= |arg| && forall j :: 0 <= j < k ==> !Special(arg[j])
    {
      if Special(arg[k]) { return true; }
      k := k + 1;
    }
    need := false;
  }

  // append_quoted of execve.
  method AppendInQuotes(buf: Text, arg: Text, cap: nat) returns (ok: bool, out: Text)
    requires |buf| + 1 <= cap
    ensures ok <==> |buf| + |ExecQuote(arg)| + 1 <= cap
    ensures ok ==> out == buf + ExecQuote(arg)
  {
    hide Escape, EscapeOne;
    assert Escape(arg[..0]) == [] by { NoChars(arg[..0]); }
    ok, out := AppendChar(buf, DQUOTE, cap);
    if !ok { return; }
    var i := 0;
    while i < |arg|
      invariant 0 <= i <= |arg| && out == buf + [DQUOTE] + Escape(arg[..i]) && |out| + 1 <= cap
    {
      EscapeAt(arg, i);
      AssocText(buf + [DQUOTE], Escape(arg[..i]), EscapeOne(arg[i]));
      ok, out := AppendEscaped(out, arg[i], cap);
      if !ok { return; }
      i := i + 1;
    }
    assert arg[..|arg|] == arg;
    ok, out := AppendChar(out, DQUOTE, cap);
  }

  lemma NoChars(s: Text)
    requires s == []
    ensures Escape(s) == []
  {
  }

  // append_quoted_arg of the shell quotes only where it must.
  method AppendQuoted(shell: bool, buf: Text, arg: Text, cap: nat) returns (ok: bool, out: Text)
    requires |buf| + 1 <= cap
    ensures ok <==> |buf| + |Quote(shell, arg)| + 1 <= cap
    ensures ok ==> out == buf + Quote(shell, arg)
  {
    hide ExecQuote;
    if shell {
      var need := FindSpecial(arg);
      if !need {
        ok, out := AppendText(buf, arg, cap);
        return;
      }
    }
    ok, out := AppendInQuotes(buf, arg, cap);
  }

  lemma {:induction false} LineSnoc(shell: bool, args: seq<Text>, i: nat)
    requires i < |args|
    ensures CmdLine(shell, args[..i + 1]) ==
            (if i == 0 then CmdLine(shell, args[..i]) else CmdLine(shell, args[..i]) + [SPACE]) + Quote(shell, args[i])
    ensures |CmdLine(shell, args)| >= |CmdLine(shell, args[..i + 1])|
    decreases |args|
  {
    hide Quote;
    if i == 0 {
      assert args[..1] == [args[0]] && CmdLine(shell, args[..0]) == [];
    } else {
      LineSnoc(shell, args[1..], i - 1);
      assert args[..i + 1][1..] == args[1..][..i] && args[..i][1..] == args[1..][..i - 1]
             && args[1..][i - 1] == args[i];
    }
  }

  /** The shell's build_cmdline_from_argv and the loop of execve, for a buffer of cap bytes. */
  method BuildCmdLine(shell: bool, args: seq<Text>, cap: nat) returns (ok: bool, line: Text)
    requires cap >= 1
    ensures ok <==> |CmdLine(shell, args)| + 1 <= cap
    ensures ok ==> line == CmdLine(shell, args)
  {
    hide Quote, CmdLine;
    line := [];
    var i := 0;
    assert CmdLine(shell, args[..0]) == [] by { NoArgs(shell, args[..0]); }
    while i < |args|
      invariant 0 <= i <= |args| && line == CmdLine(shell, args[..i]) && |line| + 1 <= cap
    {
      LineSnoc(shell, args, i);
      ghost var before := if i == 0 then line else line + [SPACE];
      if i > 0 {
        ok, line := AppendChar(line, SPACE, cap);
        if !ok { return; }
      }
      assert line == before;
      ok, line := AppendQuoted(shell, line, args[i], cap);
      if !ok { return; }
      i := i + 1;
    }
    assert args[..|args|] == args;
    ok := true;
  }

  lemma NoArgs(shell: bool, args: seq<Text>)
    requires args == []
    ensures CmdLine(shell, args) == []
  {
  }

  // ----- the tokenizer

  // The inner loop: one token from position i.
  method ReadToken(s: Text, i: nat) returns (ok: bool, tok: Text, j: nat)
    requires i <= |s|
    ensures j <= |s|
    ensures ScanToken(s[i..], false, false, []) == if ok then Token(tok, s[j..]) else Bad
  {
    ghost var target := ScanToken(s[i..], false, false, []);
    j, tok := i, [];
    var sq, dq := false, false;
    while j < |s|
      invariant i <= j <= |s| && target == ScanToken(s[j..], sq, dq, tok)
      decreases |s| - j
    {
      var c := s[j];
      assert s[j..][0] == c && s[j..][1..] == s[j + 1..];
      if !sq && !dq && IsSpace(c) { return true, tok, j; }
      if c == BACKSLASH && j + 1 < |s| {
        assert s[j..][2..] == s[j + 2..] && s[j..][1] == s[j + 1];
        j := j + 1;
        c := s[j];
      } else if c == SQUOTE && !dq {
        sq, j := !sq, j + 1;
        continue;
      } else if c == DQUOTE && !sq {
        dq, j := !dq, j + 1;
        continue;
      }
      if |tok| + 1 >= TOKEN_MAX { return false, tok, j; }
      tok, j := tok + [c], j + 1;
    }
    assert s[j..] == [];
    ok := !(sq || dq);
  }

  // One token, and what it means for the rest.
  lemma TokenizeStep(s: Text, args: seq<Text>)
    requires s != [] && !IsSpace(s[0])
    ensures var r := ScanToken(s, false, false, []);
            && (r.Token? ==> |r.rest| < |s|)
            && Prepend(args, Tokens(s, |args|)) ==
               if |args| >= ARG_MAX || r.Bad? then Malformed else Prepend(args + [r.text], Tokens(r.rest, |args| + 1))
  {
    hide ScanToken, Tokens;
    TokensNext(s, |args|);
    var r := ScanToken(s, false, false, []);
    if r.Token? {
      hide Prepend;
      PrependJoin(args, [r.text], Tokens(r.rest, |args| + 1));
    }
  }

  lemma NoTokens(args: seq<Text>)
    ensures Prepend(args, Tokens([], |args|)) == Args(args)
  {
    assert args + [] == args;
  }

  /** The tokenizer of build_user_stack_from_cmdline. */
  method Tokenize(s: Text) returns (r: Parse)
    ensures r == Tokens(s, 0)
  {
    hide ScanToken, Tokens, Prepend;
    var args: seq<Text>, i := [], 0;
    assert s[0..] == s && Prepend([], Tokens(s, 0)) == Tokens(s, 0) by { PrependNothing(Tokens(s, 0)); }
    while i < |s|
      invariant 0 <= i <= |s| && Tokens(s, 0) == Prepend(args, Tokens(s[i..], |args|))
      decreases |s| - i
    {
      i := SkipFrom(s, i);
      if i == |s| { break; }
      TokenizeStep(s[i..], args);
      if |args| >= ARG_MAX { return Malformed; }
      var ok, tok, j := ReadToken(s, i);
      if !ok { return Malformed; }
      args, i := args + [tok], j;
    }
    NoTokens(args);
    assert s[i..] == [];
    r := Args(args);
  }

  lemma PrependNothing(p: Parse)
    ensures Prepend([], p) == p
  {
    assert p.Args? ==> [] + p.args == p.args;
  }

  // The loop over blanks; it does not change the tokens.
  method SkipFrom(s: Text, i: nat) returns (j: nat)
    requires i <= |s|
    ensures i <= j <= |s| && (j < |s| ==> !IsSpace(s[j])) && SkipSpaces(s[i..]) == s[j..]
    ensures forall n: nat :: Tokens(s[i..], n) == Tokens(s[j..], n)
  {
    j := i;
    while j < |s| && IsSpace(s[j])
      invariant i <= j <= |s| && SkipSpaces(s[i..]) == SkipSpaces(s[j..])
    {
      assert s[j..][1..] == s[j + 1..];
      j := j + 1;
    }
    assert SkipSpaces(s[j..]) == s[j..];
    forall n: nat ensures Tokens(s[i..], n) == Tokens(s[j..], n) { SameTokens(s[i..], s[j..], n); }
  }
}
