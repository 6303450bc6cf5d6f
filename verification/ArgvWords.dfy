/**
 What a command line means to the kernel, for lines that no quoting function wrote: words of plain
 characters, escaped ones, and pieces in single or double quotes, with blanks between them.
 */
module ArgvWords {
  import opened Bytes
  import opened Argv

  // Between quotes: a character as it is, or behind a backslash.
  datatype Inside = Char(c: byte) | Esc(c: byte)

  // A piece of a word.
  datatype Piece = Bare(c: byte) | Escaped(c: byte) | Single(inside: seq<Inside>) | Double(inside: seq<Inside>)

  predicate IsBlank(c: byte) { c == 32 || c == 9 || c == 10 || c == 13 }

  // How it is written: 92 is the backslash, 39 the single and 34 the double quote.
  function WriteOne(c: Inside): Text { if c.Char? then [c.c] else [92, c.c] }

  function WriteInside(cs: seq<Inside>): Text {
    if cs == [] then [] else WriteOne(cs[0]) + WriteInside(cs[1..])
  }

  function Write(p: Piece): Text {
    match p
    case Bare(c) => [c]
    case Escaped(c) => [92, c]
    case Single(cs) => [39] + WriteInside(cs) + [39]
    case Double(cs) => [34] + WriteInside(cs) + [34]
  }

  function WriteWord(ps: seq<Piece>): Text {
    if ps == [] then [] else Write(ps[0]) + WriteWord(ps[1..])
  }

  // What it stands for.
  function MeanInside(cs: seq<Inside>): (t: Text)
    ensures |t| == |cs|
  {
    if cs == [] then [] else [cs[0].c] + MeanInside(cs[1..])
  }

  function Mean(p: Piece): Text {
    match p
    case Bare(c) => [c]
    case Escaped(c) => [c]
    case Single(cs) => MeanInside(cs)
    case Double(cs) => MeanInside(cs)
  }

  function MeanWord(ps: seq<Piece>): Text {
    if ps == [] then [] else Mean(ps[0]) + MeanWord(ps[1..])
  }

  // Which characters may stand where.
  predicate InsideOk(cs: seq<Inside>, quote: byte) {
    forall i :: 0 <= i < |cs| && cs[i].Char? ==> cs[i].c != quote && cs[i].c != 92
  }

  predicate PieceOk(p: Piece) {
    match p
    case Bare(c) => !IsBlank(c) && c != 34 && c != 39 && c != 92
    case Escaped(_) => true
    case Single(cs) => InsideOk(cs, 39)
    case Double(cs) => InsideOk(cs, 34)
  }

  predicate WordOk(ps: seq<Piece>) { forall i :: 0 <= i < |ps| ==> PieceOk(ps[i]) }

  // ----- one word

  // The scan goes on behind s with the characters t, if there is room for them.
  predicate ScansTo(s: Text, sq: bool, dq: bool, acc: Text, t: Text, rest: Text, sq2: bool, dq2: bool) {
    ScanToken(s, sq, dq, acc) ==
    if |acc| + |t| < TOKEN_MAX then ScanToken(rest, sq2, dq2, acc + t) else Bad
  }

  lemma ScansNone(s: Text, sq: bool, dq: bool, acc: Text)
    requires |acc| < TOKEN_MAX
    ensures ScansTo(s, sq, dq, acc, [], s, sq, dq)
  {
    assert acc + [] == acc;
  }

  // One scan after another.
  lemma ScansJoin(s: Text, sq: bool, dq: bool, acc: Text, t: Text, s2: Text, sq2: bool, dq2: bool, t2: Text, s3: Text,
                  sq3: bool, dq3: bool)
    requires ScansTo(s, sq, dq, acc, t, s2, sq2, dq2)
    requires |acc| + |t| < TOKEN_MAX ==> ScansTo(s2, sq2, dq2, acc + t, t2, s3, sq3, dq3)
    ensures ScansTo(s, sq, dq, acc, t + t2, s3, sq3, dq3)
  {
    assert acc + t + t2 == acc + (t + t2);
  }

  lemma ScanOne(c: byte, rest: Text, sq: bool, dq: bool, acc: Text)
    requires sq || dq || !IsBlank(c)
    requires c != 92 && (c == 34 ==> sq) && (c == 39 ==> dq) && |acc| < TOKEN_MAX
    ensures ScansTo([c] + rest, sq, dq, acc, [c], rest, sq, dq)
  {
    assert ([c] + rest)[1..] == rest;
  }

  lemma ScanEsc(c: byte, rest: Text, sq: bool, dq: bool, acc: Text)
    requires |acc| < TOKEN_MAX
    ensures ScansTo([92, c] + rest, sq, dq, acc, [c], rest, sq, dq)
  {
    assert ([92, c] + rest)[2..] == rest;
  }

  lemma ScanQuote(rest: Text, sq: bool, dq: bool, acc: Text)
    ensures !dq ==> ScanToken([39] + rest, sq, dq, acc) == ScanToken(rest, !sq, dq, acc)
    ensures !sq ==> ScanToken([34] + rest, sq, dq, acc) == ScanToken(rest, sq, !dq, acc)
  {
    assert ([39] + rest)[1..] == rest && ([34] + rest)[1..] == rest;
  }

  lemma {:induction false} ScanInside(cs: seq<Inside>, rest: Text, sq: bool, acc: Text)
    requires InsideOk(cs, if sq then 39 else 34) && |acc| < TOKEN_MAX
    ensures ScansTo(WriteInside(cs) + rest, sq, !sq, acc, MeanInside(cs), rest, sq, !sq)
    decreases |cs|
  {
    hide ScanToken, WriteOne, ScansTo;
    if cs == [] {
      assert [] + rest == rest;
      ScansNone(rest, sq, !sq, acc);
    } else {
      var tail := WriteInside(cs[1..]) + rest;
      assert WriteInside(cs) + rest == WriteOne(cs[0]) + tail;
      ScanOneInside(cs[0], tail, sq, acc);
      if |acc| + 1 < TOKEN_MAX { ScanInside(cs[1..], rest, sq, acc + [cs[0].c]); }
      ScansJoin(WriteOne(cs[0]) + tail, sq, !sq, acc, [cs[0].c], tail, sq, !sq, MeanInside(cs[1..]), rest, sq, !sq);
    }
  }

  lemma ScanOneInside(c: Inside, rest: Text, sq: bool, acc: Text)
    requires |acc| < TOKEN_MAX && (c.Char? ==> c.c != 92 && c.c != if sq then 39 else 34)
    ensures ScansTo(WriteOne(c) + rest, sq, !sq, acc, [c.c], rest, sq, !sq)
  {
    if c.Char? { ScanOne(c.c, rest, sq, !sq, acc); } else { ScanEsc(c.c, rest, sq, !sq, acc); }
  }

  lemma ScanPiece(p: Piece, rest: Text, acc: Text)
    requires PieceOk(p) && |acc| < TOKEN_MAX
    ensures ScansTo(Write(p) + rest, false, false, acc, Mean(p), rest, false, false)
  {
    hide ScanToken, WriteInside, MeanInside;
    match p
    case Bare(c) => ScanOne(c, rest, false, false, acc);
    case Escaped(c) => ScanEsc(c, rest, false, false, acc);
    case Single(cs) =>
      assert Write(p) + rest == [39] + (WriteInside(cs) + ([39] + rest));
      ScanQuote(WriteInside(cs) + ([39] + rest), false, false, acc);
      ScanInside(cs, [39] + rest, true, acc);
      ScanQuote(rest, true, false, acc + MeanInside(cs));
    case Double(cs) =>
      assert Write(p) + rest == [34] + (WriteInside(cs) + ([34] + rest));
      ScanQuote(WriteInside(cs) + ([34] + rest), false, false, acc);
      ScanInside(cs, [34] + rest, false, acc);
      ScanQuote(rest, false, true, acc + MeanInside(cs));
  }

  lemma {:induction false} ScanWordOf(ps: seq<Piece>, rest: Text, acc: Text)
    requires WordOk(ps) && |acc| < TOKEN_MAX
    ensures ScansTo(WriteWord(ps) + rest, false, false, acc, MeanWord(ps), rest, false, false)
    decreases |ps|
  {
    hide ScanToken, Write, Mean, PieceOk, ScansTo;
    if ps == [] {
      assert [] + rest == rest;
      ScansNone(rest, false, false, acc);
    } else {
      var tail := WriteWord(ps[1..]) + rest;
      assert WriteWord(ps) + rest == Write(ps[0]) + tail;
      ScanPiece(ps[0], tail, acc);
      if |acc| + |Mean(ps[0])| < TOKEN_MAX { ScanWordOf(ps[1..], rest, acc + Mean(ps[0])); }
      ScansJoin(Write(ps[0]) + tail, false, false, acc, Mean(ps[0]), tail, false, false, MeanWord(ps[1..]), rest, false,
                false);
    }
  }

  /** A quote that is not closed makes the line malformed. */
  lemma OpenQuote(single: bool, cs: seq<Inside>, n: nat)
    requires InsideOk(cs, if single then 39 else 34)
    ensures Tokens([if single then 39 else 34] + WriteInside(cs), n) == Malformed
  {
    hide ScanToken, WriteInside, MeanInside, Tokens;
    var q: byte := if single then 39 else 34;
    var s := [q] + WriteInside(cs);
    ScanQuote(WriteInside(cs), false, false, []);
    assert WriteInside(cs) + [] == WriteInside(cs);
    ScanInside(cs, [], single, []);
    ScanNothing(single, [] + MeanInside(cs));
    TokensNext(s, n);
  }

  lemma ScanNothing(single: bool, acc: Text)
    ensures ScanToken([], single, !single, acc) == Bad
  {
  }

  /** A backslash at the end of the line stands for itself. */
  lemma BackslashLast(acc: Text)
    requires |acc| + 1 < TOKEN_MAX
    ensures ScanToken([92], false, false, acc) == Token(acc + [92], [])
  {
  }

  // ----- lines

  // A word with the blanks before it.
  datatype Spaced = Spaced(gap: Text, word: seq<Piece>)

  predicate Blanks(t: Text) { forall i :: 0 <= i < |t| ==> IsBlank(t[i]) }

  // Words that are there, with blanks between them.
  predicate LineOk(ws: seq<Spaced>) {
    forall i :: 0 <= i < |ws| ==>
      Blanks(ws[i].gap) && (i > 0 ==> ws[i].gap != []) && ws[i].word != [] && WordOk(ws[i].word)
  }

  function WriteLine(ws: seq<Spaced>, end: Text): Text {
    if ws == [] then end else ws[0].gap + (WriteWord(ws[0].word) + WriteLine(ws[1..], end))
  }

  function MeanLine(ws: seq<Spaced>): (r: seq<Text>)
    ensures |r| == |ws|
  {
    if ws == [] then [] else [MeanWord(ws[0].word)] + MeanLine(ws[1..])
  }

  lemma {:induction false} SkipBlanks(gap: Text, rest: Text)
    requires Blanks(gap)
    ensures SkipSpaces(gap + rest) == SkipSpaces(rest)
    decreases |gap|
  {
    if gap == [] {
      assert gap + rest == rest;
    } else {
      assert (gap + rest)[1..] == gap[1..] + rest;
      SkipBlanks(gap[1..], rest);
    }
  }

  lemma WordStarts(ps: seq<Piece>, rest: Text)
    requires WordOk(ps) && ps != []
    ensures WriteWord(ps) != [] && !IsSpace((WriteWord(ps) + rest)[0])
  {
    assert PieceOk(ps[0]);
    assert (WriteWord(ps) + rest)[0] == Write(ps[0])[0];
  }

  lemma LineEnds(ws: seq<Spaced>, end: Text)
    requires LineOk(ws) && Blanks(end) && (ws != [] ==> ws[0].gap != [])
    ensures Ends(WriteLine(ws, end))
  {
    hide WriteWord;
    if ws != [] { assert WriteLine(ws, end)[0] == ws[0].gap[0]; }
  }

  /** The tokens of a line are what its words stand for, if they are within the limits. */
  lemma {:induction false} TokensOfWords(ws: seq<Spaced>, end: Text, n: nat)
    requires LineOk(ws) && Blanks(end) && n <= ARG_MAX
    ensures Tokens(WriteLine(ws, end), n) == Read(n, MeanLine(ws))
    decreases |ws|
  {
    hide ScanToken, Tokens, WriteWord, MeanWord, Prepend, WordOk;
    var line := WriteLine(ws, end);
    if ws == [] {
      assert end + [] == end;
      SkipBlanks(end, []);
      NoTokensIn(line, n);
    } else {
      var w, more := ws[0].word, ws[1..];
      var rest := WriteLine(more, end);
      var s := WriteWord(w) + rest;
      assert LineOk(more) && (more != [] ==> more[0].gap != []) by {
        forall i | 0 <= i < |more| ensures more[i] == ws[i + 1] { }
      }
      SkipBlanks(ws[0].gap, s);
      SameTokens(line, s, n);
      WordStarts(w, rest);
      TokensNext(s, n);
      LineEnds(more, end);
      ScanWordOf(w, rest, []);
      assert [] + MeanWord(w) == MeanWord(w);
      ScanStop(rest, MeanWord(w));
      ReadNext(n, MeanWord(w), MeanLine(more));
      if n < ARG_MAX { TokensOfWords(more, end, n + 1); }
    }
  }

  lemma NoTokensIn(s: Text, n: nat)
    requires SkipSpaces(s) == []
    ensures Tokens(s, n) == Args([]) && Read(n, []) == if n <= ARG_MAX then Args([]) else Malformed
  {
  }
}
