/**
 8.3 short names: which names the driver accepts, how it encodes them into the 11 bytes of a
 directory entry, and what decoding them gives back.
 */
module Fat32Names {
  import opened Bytes
  import opened Fat32Volume
  import opened Fat32Dirs

  predicate NameChar(b: byte) {
    || 97 <= b <= 122 || 65 <= b <= 90 || 48 <= b <= 57
    || b == 95 || b == 45 || b == 36 || b == 126  // _ - $ ~
  }

  // The part before the first dot, and the part behind it.
  function Base(name: Name): (r: Name) {
    if name == [] || name[0] == DOT_CHAR then [] else [name[0]] + Base(name[1..])
  }

  function Ext(name: Name): (r: Name) {
    if name == [] then [] else if name[0] == DOT_CHAR then name[1..] else Ext(name[1..])
  }

  predicate HasDot(name: Name) { DOT_CHAR in name }

  predicate Accepts(name: Name) {
    && 1 <= |Base(name)| <= 8 && |Ext(name)| <= 3
    && (forall i :: 0 <= i < |Base(name)| ==> NameChar(Base(name)[i]))
    && (forall i :: 0 <= i < |Ext(name)| ==> NameChar(Ext(name)[i]))
  }

  function UpperAll(s: Name): (r: Name)
    ensures |r| == |s| && forall i :: 0 <= i < |s| ==> r[i] == Upper(s[i])
  {
    seq(|s|, i requires 0 <= i < |s| => Upper(s[i]))
  }

  function Spaces(n: nat): (r: Name)
    ensures |r| == n && forall i :: 0 <= i < n ==> r[i] == SPACE
  {
    seq(n, _ => SPACE)
  }

  function Field(s: Name, n: nat): (r: Name)
    requires |s| <= n
    ensures |r| == n
  {
    UpperAll(s) + Spaces(n - |s|)
  }

  function Encode(name: Name): (r: Name)
    requires Accepts(name)
    ensures |r| == 11
  {
    Field(Base(name), 8) + Field(Ext(name), 3)
  }

  // The name without a dot that ends it.
  function Strip(name: Name): Name {
    if name != [] && name[|name| - 1] == DOT_CHAR then name[..|name| - 1] else name
  }

  lemma {:induction false} SplitAtDot(name: Name)
    ensures name == Base(name) + (if HasDot(name) then [DOT_CHAR] + Ext(name) else [])
    ensures !HasDot(name) ==> Ext(name) == []
  {
    if name != [] && name[0] != DOT_CHAR {
      SplitAtDot(name[1..]);
      assert name == [name[0]] + name[1..];
    } else if name != [] {
      assert name == [DOT_CHAR] + name[1..];
    }
  }

  lemma {:induction false} UpToSpaceField(s: Name, n: nat)
    requires forall i :: 0 <= i < |s| ==> s[i] != SPACE
    ensures UpToSpace(s + Spaces(n)) == s
  {
    if s != [] {
      assert (s + Spaces(n))[1..] == s[1..] + Spaces(n);
      UpToSpaceField(s[1..], n);
    }
  }

  lemma FieldDecodes(s: Name, n: nat)
    requires |s| <= n && forall i :: 0 <= i < |s| ==> NameChar(s[i])
    ensures LowerAll(UpToSpace(Field(s, n))) == LowerAll(s)
    ensures n > 0 ==> (Field(s, n)[0] == SPACE <==> s == [])
  {
    UpToSpaceField(UpperAll(s), n - |s|);
  }

  function Capital(b: int): int { if 97 <= b <= 122 then b - 32 else b }

  /** The eleven bytes: the part before the first dot in capital letters, then spaces up to byte 8,
      then the part behind that dot, and spaces again. */
  lemma EncodedBytes(name: Name) returns (n: nat)
    requires Accepts(name)
    ensures 1 <= n <= 8 && n <= |name| <= n + 4 && (forall i :: 0 <= i < n ==> name[i] != 46)
    ensures n < |name| ==> name[n] == 46
    ensures forall k :: 0 <= k < 8 ==> Encode(name)[k] == if k < n then Capital(name[k]) else 32
    ensures forall k :: 8 <= k < 11 ==> Encode(name)[k] == if n + k - 7 < |name| then Capital(name[n + k - 7]) else 32
  {
    var b, x := Base(name), Ext(name);
    SplitAtDot(name);
    NoDotIn(name);
    n := |b|;
    hide Base, Ext, Accepts, NameChar;
    var e := Encode(name);
    if HasDot(name) {
      assert forall i :: 0 <= i < |x| ==> name[n + 1 + i] == x[i];
    }
  }

  // One to eight characters, and at most three more behind a dot.
  predicate EightThree(name: Name, n: nat) {
    && 1 <= n <= 8 && n <= |name| <= n + 4 && (n < |name| ==> name[n] == 46)
    && forall i :: 0 <= i < |name| && i != n ==> LetterOrSign(name[i])
  }

  // A letter, a digit, or one of _ - $ ~.
  predicate LetterOrSign(c: int) {
    65 <= c < 91 || 97 <= c < 123 || 48 <= c < 58 || c in [95, 45, 36, 126]
  }

  lemma CharIs(c: byte)
    ensures LetterOrSign(c) <==> NameChar(c)
    ensures LetterOrSign(c) ==> c != 46
  {
  }

  /** Which names are accepted. */
  lemma AcceptedNames(name: Name)
    ensures Accepts(name) <==> exists n: nat :: EightThree(name, n)
  {
    hide NameChar, LetterOrSign;
    forall c: byte ensures (LetterOrSign(c) <==> NameChar(c)) && (LetterOrSign(c) ==> c != 46) { CharIs(c); }
    SplitAtDot(name);
    if Accepts(name) {
      var n := |Base(name)|;
      forall i | 0 <= i < |name| && i != n ensures LetterOrSign(name[i]) {
        if i < n { assert name[i] == Base(name)[i]; } else { assert name[i] == Ext(name)[i - n - 1]; }
      }
      assert EightThree(name, n);
    }
    if n: nat :| EightThree(name, n) {
      PartsOf(name, n);
      assert forall i :: 0 <= i < n ==> Base(name)[i] == name[i];
      assert n < |name| ==> forall i :: 0 <= i < |Ext(name)| ==> Ext(name)[i] == name[n + 1 + i];
    }
  }

  lemma {:induction false} PartsOf(name: Name, n: nat)
    requires n <= |name| && (forall i :: 0 <= i < n ==> name[i] != 46) && (n < |name| ==> name[n] == 46)
    ensures Base(name) == name[..n] && Ext(name) == if n < |name| then name[n + 1..] else []
    decreases n
  {
    if n > 0 {
      PartsOf(name[1..], n - 1);
      assert name[..n] == [name[0]] + name[1..][..n - 1];
      assert n < |name| ==> name[1..][n..] == name[n + 1..];
    }
  }

  lemma {:induction false} NoDotIn(name: Name)
    ensures DOT_CHAR !in Base(name)
  {
    if name != [] { NoDotIn(name[1..]); }
  }

  /** Decoding an encoded name gives the name in lower case, less a dot that ends it. */
  lemma DecodeEncode(name: Name, e: Slot)
    requires Accepts(name) && e[..11] == Encode(name)
    ensures Decode(e) == LowerAll(Strip(name))
  {
    hide UpToSpace, UpperAll, NameChar, LowerAll, Base, Ext, Strip, Field;
    var b, x := Base(name), Ext(name);
    FieldDecodes(b, 8);
    FieldDecodes(x, 3);
    assert e[..8] == e[..11][..8] == Field(b, 8);
    assert e[8..11] == e[..11][8..11] == Field(x, 3);
    assert e[8] == e[8..11][0];
    StripParts(name);
    LowerSplit(b, x);
  }

  lemma LowerSplit(b: Name, x: Name)
    ensures LowerAll(b + ([DOT_CHAR] + x)) == LowerAll(b) + ([DOT_CHAR] + LowerAll(x))
  {
  }

  lemma StripParts(name: Name)
    requires Accepts(name)
    ensures Strip(name) == if Ext(name) == [] then Base(name) else Base(name) + ([DOT_CHAR] + Ext(name))
  {
    var b, x := Base(name), Ext(name);
    SplitAtDot(name);
    if x == [] {
      if HasDot(name) { assert name == b + [DOT_CHAR]; }
      else { assert name == b; assert NameChar(b[|b| - 1]); }
    } else {
      assert NameChar(x[|x| - 1]);
    }
  }

  lemma LowerEq(a: Name, b: Name)
    ensures NameEq(LowerAll(a), b) <==> NameEq(a, b)
  {
  }

  // A fresh entry is live, neither "." nor "..", and not a volume label.
  lemma EncodedIsReal(name: Name, e: Slot)
    requires Accepts(name) && e[..11] == Encode(name)
    ensures Live(e) && !IsDot(e)
  {
    assert NameChar(Base(name)[0]);
    assert e[0] == e[..11][0] == Field(Base(name), 8)[0] == Upper(Base(name)[0]);
  }

  predicate AllNameChars(s: Name) { forall i :: 0 <= i < |s| ==> NameChar(s[i]) }

  lemma UpperSnoc(s: Name, b: byte)
    ensures UpperAll(s + [b]) == UpperAll(s) + [Upper(b)]
  {
  }

  lemma CharsSnoc(s: Name, b: byte)
    requires AllNameChars(s) && NameChar(b)
    ensures AllNameChars(s + [b])
  {
  }

  lemma BadChar(s: Name, b: Name, c: byte, rest: Name)
    requires s == b + ([c] + rest) && !NameChar(c)
    ensures !AllNameChars(s)
  {
    assert s[|b|] == c;
  }

  lemma AcceptsIs(name: Name)
    ensures Accepts(name) <==>
              1 <= |Base(name)| <= 8 && |Ext(name)| <= 3 && AllNameChars(Base(name)) && AllNameChars(Ext(name))
  {
  }

  lemma PartsAt(name: Name, i: nat)
    requires i < |name|
    ensures Base(name[i..]) == if name[i] == DOT_CHAR then [] else [name[i]] + Base(name[i + 1..])
    ensures Ext(name[i..]) == if name[i] == DOT_CHAR then name[i + 1..] else Ext(name[i + 1..])
    ensures name[i..] == [name[i]] + name[i + 1..]
  {
    assert name[i..][0] == name[i] && name[i..][1..] == name[i + 1..];
  }

  lemma AssocName(x: Name, y: Name, z: Name)
    ensures x + (y + z) == x + y + z
  {
  }

  /** fat32_make_short_name. */
  method MakeShortName(name: Name) returns (r: Option<Name>)
    ensures r == if Accepts(name) then Some(Encode(name)) else None
  {
    hide Base, Ext, Accepts, AllNameChars, UpperAll, NameChar;
    AcceptsIs(name);
    NoParts();
    var base: Name, ext: Name, haveDot := [], [], false;
    ghost var b: Name, x: Name := [], [];  // the characters behind base and ext
    var i := 0;
    assert name[0..] == name;
    while i < |name|
      invariant 0 <= i <= |name| && |b| <= 8 && |x| <= 3
      invariant base == UpperAll(b) && ext == UpperAll(x) && AllNameChars(b) && AllNameChars(x)
      invariant !haveDot ==> x == [] && Base(name) == b + Base(name[i..]) && Ext(name) == Ext(name[i..])
      invariant haveDot ==> Base(name) == b && Ext(name) == x + name[i..]
    {
      var c := name[i];
      PartsAt(name, i);
      if c == DOT_CHAR {
        if haveDot {
          DotIsBad();
          BadChar(Ext(name), x, c, name[i + 1..]);
          return None;
        }
        haveDot := true;
      } else {
        if !NameChar(c) {
          if haveDot {
            BadChar(Ext(name), x, c, name[i + 1..]);
          } else {
            BadChar(Base(name), b, c, Base(name[i + 1..]));
          }
          return None;
        }
        if !haveDot {
          if |base| >= 8 { return None; }
          UpperSnoc(b, c);
          CharsSnoc(b, c);
          AssocName(b, [c], Base(name[i + 1..]));
          base, b := base + [Upper(c)], b + [c];
        } else {
          if |ext| >= 3 { return None; }
          UpperSnoc(x, c);
          CharsSnoc(x, c);
          AssocName(x, [c], name[i + 1..]);
          ext, x := ext + [Upper(c)], x + [c];
        }
      }
      i := i + 1;
    }
    assert name[i..] == [] && b + [] == b && x + [] == x;
    if |base| == 0 { return None; }
    return Some(base + Spaces(8 - |base|) + (ext + Spaces(3 - |ext|)));
  }

  lemma NoParts()
    ensures Base([]) == [] && Ext([]) == [] && UpperAll([]) == [] && AllNameChars([])
  {
  }

  lemma DotIsBad()
    ensures !NameChar(DOT_CHAR)
  {
  }

  lemma {:induction false} DottedParts(name: Name, dotted: Name)
    requires !HasDot(name) && dotted == name + [DOT_CHAR]
    ensures Base(dotted) == name && Ext(dotted) == [] && Base(name) == name && Ext(name) == []
    decreases |name|
  {
    if name != [] {
      assert dotted[1..] == name[1..] + [DOT_CHAR] && dotted[0] == name[0];
      assert name[0] in name;
      DottedParts(name[1..], dotted[1..]);
      assert name == [name[0]] + name[1..];
    } else {
      assert dotted == [DOT_CHAR] && dotted[1..] == [];
    }
  }

  /** A name that ends in a dot is stored like the name without it, though the two do not compare
      equal: the lookup before a create misses the other entry. */
  lemma TrailingDotIsLost(name: Name, dotted: Name)
    requires Accepts(name) && !HasDot(name) && dotted == name + [DOT_CHAR]
    ensures Accepts(dotted) && Encode(dotted) == Encode(name) && Strip(dotted) == name && !NameEq(name, dotted)
  {
    DottedParts(name, dotted);
    hide Base, Ext;
  }
}
