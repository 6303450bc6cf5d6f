/**
 Path normalization in the shell and in the command-line tools: "." and ".." are evaluated
 component by component.
 */
module Paths {
  const TMP_CAP: nat := 256
  const MAX_SEGS: nat := 64

  // ----- components

  // The length of the component that s starts with.
  function SegLen(s: string): (n: nat)
    ensures n <= |s| && (forall k :: 0 <= k < n ==> s[k] != '/') && (n < |s| ==> s[n] == '/')
  {
    if s == [] || s[0] == '/' then 0 else 1 + SegLen(s[1..])
  }

  // The non-empty components of a path.
  function Components(s: string): seq<string>
    decreases |s|
  {
    if s == [] then []
    else if s[0] == '/' then Components(s[1..])
    else [s[..SegLen(s)]] + Components(s[SegLen(s)..])
  }

  predicate IsSeg(s: string) { s != [] && forall k :: 0 <= k < |s| ==> s[k] != '/' }

  lemma {:induction false} SegLenJoin(p: string, q: string)
    requires SegLen(p) < |p| || q == [] || q[0] == '/'
    ensures SegLen(p + q) == SegLen(p)
  {
    if p == [] {
      assert p + q == q;
    } else if p[0] != '/' {
      assert (p + q)[1..] == p[1..] + q;
      SegLenJoin(p[1..], q);
    }
  }

  lemma Assoc(x: seq<string>, y: seq<string>, z: seq<string>)
    ensures x + (y + z) == x + y + z
  {
  }

  /** Where two paths meet at a slash, the components of both are those of each. */
  lemma {:induction false} ComponentsJoin(p: string, q: string)
    requires p == [] || p[|p| - 1] == '/' || q == [] || q[0] == '/'
    ensures Components(p + q) == Components(p) + Components(q)
    decreases |p|
  {
    if p == [] {
      assert p + q == q;
    } else if p[0] == '/' {
      assert (p + q)[1..] == p[1..] + q;
      ComponentsJoin(p[1..], q);
    } else {
      var n := SegLen(p);
      SegLenJoin(p, q);
      assert (p + q)[..n] == p[..n] && (p + q)[n..] == p[n..] + q;
      assert n < |p| ==> p[n..][|p[n..]| - 1] == p[|p| - 1];
      ComponentsJoin(p[n..], q);
      hide SegLen;
      Assoc([p[..n]], Components(p[n..]), Components(q));
    }
  }

  lemma SegIsComponent(s: string)
    requires IsSeg(s)
    ensures Components(s) == [s]
  {
    assert SegLen(s) == |s|;
    assert s[..|s|] == s && s[|s|..] == [];
  }

  lemma PushSeg(p: string, s: string)
    requires p != [] && p[|p| - 1] == '/' && IsSeg(s)
    ensures Components(p + s) == Components(p) + [s]
  {
    ComponentsJoin(p, s);
    SegIsComponent(s);
  }

  lemma PushSlash(p: string)
    ensures Components(p + "/") == Components(p)
  {
    ComponentsJoin(p, "/");
    assert "/"[1..] == [];
  }

  // ----- evaluation of "." and ".."

  function EvalOne(stack: seq<string>, c: string): seq<string> {
    if c == "." then stack
    else if c == ".." then (if stack == [] then [] else stack[..|stack| - 1])
    else stack + [c]
  }

  function Eval(stack: seq<string>, cs: seq<string>): seq<string>
    decreases |cs|
  {
    if cs == [] then stack else Eval(EvalOne(stack, cs[0]), cs[1..])
  }

  // A component that stands for a file or directory.
  predicate Real(c: string) { c != "." && c != ".." }

  /** "." leads nowhere else; ".." takes back the component before it, and is lost at the root. */
  lemma EvalDots(stack: seq<string>, c: string)
    requires Real(c)
    ensures Eval(stack, ["."]) == stack && Eval([], [".."]) == []
    ensures Eval(stack, [c]) == stack + [c] && Eval(stack, [c, ".."]) == stack
    ensures stack != [] ==> Eval(stack, [".."]) == stack[..|stack| - 1]
  {
    assert [c, ".."][1..] == [".."];
  }

  /** Evaluation goes on from where it is. */
  lemma {:induction false} EvalJoin(stack: seq<string>, x: seq<string>, y: seq<string>)
    ensures Eval(stack, x + y) == Eval(Eval(stack, x), y)
    decreases |x|
  {
    if x == [] {
      assert x + y == y;
    } else {
      assert (x + y)[1..] == x[1..] + y;
      EvalJoin(EvalOne(stack, x[0]), x[1..], y);
    }
  }

  /** What has no dot components is its own evaluation. */
  lemma {:induction false} EvalReal(stack: seq<string>, cs: seq<string>)
    requires forall i :: 0 <= i < |cs| ==> Real(cs[i])
    ensures Eval(stack, cs) == stack + cs
    decreases |cs|
  {
    if cs != [] {
      assert EvalOne(stack, cs[0]) == stack + [cs[0]];
      EvalReal(stack + [cs[0]], cs[1..]);
      assert stack + [cs[0]] + cs[1..] == stack + cs;
    }
  }

  /** The evaluation has no dot components, and only components of the path. */
  lemma {:induction false} EvalIsReal(stack: seq<string>, cs: seq<string>)
    requires forall i :: 0 <= i < |stack| ==> Real(stack[i])
    ensures forall c :: c in Eval(stack, cs) ==> Real(c) && (c in stack || c in cs)
    decreases |cs|
  {
    if cs != [] {
      EvalIsReal(EvalOne(stack, cs[0]), cs[1..]);
    }
  }

  /** So normalizing again changes nothing. */
  lemma EvalTwice(cs: seq<string>)
    ensures Eval([], Eval([], cs)) == Eval([], cs)
  {
    EvalIsReal([], cs);
    var es := Eval([], cs);
    forall i | 0 <= i < |es| ensures Real(es[i]) { assert es[i] in es; }
    EvalReal([], es);
  }

  // The path of these components.
  function PathTo(cs: seq<string>): string { if cs == [] then "" else "/" + cs[0] + PathTo(cs[1..]) }

  /** A path has the components that it was made of, whatever slashes are added to it. */
  lemma {:induction false} PathToComponents(cs: seq<string>)
    requires forall i :: 0 <= i < |cs| ==> IsSeg(cs[i])
    ensures Components(PathTo(cs)) == cs && (cs != [] ==> PathTo(cs)[0] == '/')
    ensures Components("/" + PathTo(cs)) == cs && Components(PathTo(cs) + "/") == cs
    decreases |cs|
  {
    if cs != [] {
      PathToComponents(cs[1..]);
      var tail := PathTo(cs[1..]);
      assert PathTo(cs) == "/" + (cs[0] + tail);
      ComponentsJoin(cs[0], tail);
      SegIsComponent(cs[0]);
      assert ("/" + (cs[0] + tail))[1..] == cs[0] + tail;
    }
    assert ("/" + PathTo(cs))[1..] == PathTo(cs);
    PushSlash(PathTo(cs));
  }

  // ----- the path that is normalized

  datatype Joined = TooLong | Path(text: string)

  // The temporary buffer: the input, behind the working directory if it is relative.
  function Join(cwd: string, input: string): Joined {
    if input != [] && input[0] == '/' then Path(input)
    else if cwd == "/" then Path("/" + input)
    else if |cwd| + 1 >= TMP_CAP || |cwd| + 1 + |input| >= TMP_CAP then TooLong
    else Path(cwd + "/" + input)
  }

  /** Its components are those of the working directory and then those of the input. */
  lemma JoinComponents(cwd: string, input: string)
    requires Join(cwd, input).Path?
    ensures Components(Join(cwd, input).text) ==
            if input != [] && input[0] == '/' then Components(input) else Components(cwd) + Components(input)
  {
    if !(input != [] && input[0] == '/') {
      ComponentsJoin(cwd + "/", input);
      PushSlash(cwd);
      assert cwd == "/" ==> Components(cwd) == [] by { assert "/"[1..] == []; }
      assert cwd == "/" ==> ("/" + input)[1..] == input;
    }
  }

  // ----- the loop

  // The output "out" shows the components "stack"; segment k starts at starts[k], behind a slash.
  ghost predicate Shows(out: string, starts: seq<nat>, stack: seq<string>) {
    && out != [] && out[0] == '/' && |starts| == |stack| && Components(out) == stack
    && forall k :: 0 <= k < |starts| ==>
         0 < starts[k] <= |out| && out[starts[k] - 1] == '/' && Components(out[..starts[k]]) == stack[..k]
  }

  lemma PopShows(out: string, starts: seq<nat>, stack: seq<string>)
    requires Shows(out, starts, stack) && starts != []
    ensures var n := |starts| - 1; Shows(out[..starts[n]], starts[..n], stack[..n])
  {
    hide Components;
    var n := |starts| - 1;
    var o2 := out[..starts[n]];
    assert 0 < starts[n] <= |out| && Components(o2) == stack[..n];
    forall k | 0 <= k < n
      ensures starts[k] <= |o2| && o2[starts[k] - 1] == '/' && Components(o2[..starts[k]]) == stack[..n][..k]
    {
      StartsAscend(out, starts, stack, k, n);
      assert o2[..starts[k]] == out[..starts[k]] && stack[..n][..k] == stack[..k];
    }
  }

  // Components grow along a string.
  lemma {:induction false} ComponentsMono(p: string, q: string)
    ensures |Components(p)| <= |Components(p + q)|
    decreases |p|
  {
    if p == [] {
    } else if p[0] == '/' {
      assert (p + q)[1..] == p[1..] + q;
      ComponentsMono(p[1..], q);
    } else {
      var n, m := SegLen(p), SegLen(p + q);
      if n < |p| {
        SegLenJoin(p, q);
        assert (p + q)[n..] == p[n..] + q;
        ComponentsMono(p[n..], q);
      } else {
        assert p[n..] == [];
      }
    }
  }

  lemma StartsAscend(out: string, starts: seq<nat>, stack: seq<string>, j: nat, k: nat)
    requires Shows(out, starts, stack) && j < k < |starts|
    ensures starts[j] <= starts[k]
  {
    if starts[k] < starts[j] {
      assert out[..starts[k]] + out[starts[k]..starts[j]] == out[..starts[j]];
      ComponentsMono(out[..starts[k]], out[starts[k]..starts[j]]);
    }
  }

  lemma PushShows(out: string, starts: seq<nat>, stack: seq<string>, s: string)
    requires Shows(out, starts, stack) && IsSeg(s)
    ensures var p := if |out| > 1 then out + "/" else out;
            Shows(p + s, starts + [|p|], stack + [s])
  {
    var p := if |out| > 1 then out + "/" else out;
    PushSlash(out);
    PushSeg(p, s);
    hide Components;
    assert Components(p) == stack;
    var o2, s2, k2 := p + s, starts + [|p|], stack + [s];
    forall k | 0 <= k < |s2|
      ensures 0 < s2[k] <= |o2| && o2[s2[k] - 1] == '/' && Components(o2[..s2[k]]) == k2[..k]
    {
      if k < |starts| {
        assert o2[..s2[k]] == out[..starts[k]] && k2[..k] == stack[..k];
      } else {
        assert o2[..s2[k]] == p && k2[..k] == stack;
      }
    }
  }

  // The next component of the path from position i: it starts at "start" and ends before "end".
  method NextSegment(tmp: string, i: nat) returns (start: nat, end: nat)
    requires i <= |tmp|
    ensures i <= start <= end <= |tmp| && (i < |tmp| && tmp[i] == '/' && start < end ==> start > i)
    ensures if start == end then start == |tmp| && Components(tmp[i..]) == []
            else IsSeg(tmp[start..end]) && Components(tmp[i..]) == [tmp[start..end]] + Components(tmp[end..])
    ensures end < |tmp| ==> tmp[end] == '/'
  {
    hide Components;
    start := i;
    while start < |tmp| && tmp[start] == '/'
      invariant i <= start <= |tmp| && Components(tmp[i..]) == Components(tmp[start..])
      invariant i < |tmp| && tmp[i] == '/' && start == i ==> tmp[start] == '/'
    {
      SkipSlash(tmp, start);
      start := start + 1;
    }
    end := start;
    while end < |tmp| && tmp[end] != '/'
      invariant start <= end <= |tmp| && forall k :: start <= k < end ==> tmp[k] != '/'
    {
      end := end + 1;
    }
    SegmentIs(tmp, start, end);
  }

  lemma SkipSlash(tmp: string, i: nat)
    requires i < |tmp| && tmp[i] == '/'
    ensures Components(tmp[i..]) == Components(tmp[i + 1..])
  {
    assert tmp[i..][1..] == tmp[i + 1..];
  }

  lemma SegmentIs(tmp: string, start: nat, end: nat)
    requires start <= end <= |tmp| && (forall k :: start <= k < end ==> tmp[k] != '/')
             && (end < |tmp| ==> tmp[end] == '/')
    requires start < |tmp| ==> tmp[start] != '/'
    ensures if start == end then start == |tmp| && Components(tmp[start..]) == []
            else IsSeg(tmp[start..end]) && Components(tmp[start..]) == [tmp[start..end]] + Components(tmp[end..])
  {
    if start < end {
      var s := tmp[start..];
      assert SegLen(s) == end - start by {
        assert forall k :: 0 <= k < end - start ==> s[k] == tmp[start + k];
        assert end < |tmp| ==> s[end - start] == '/';
      }
      assert s[..end - start] == tmp[start..end] && s[end - start..] == tmp[end..];
    }
  }

  /** normalize_path, in both its copies: the components of the result are the evaluation of
      those of the path.  It always succeeds if the buffer has room for the path and there are at
      most MAX_SEGS components. */
  method Normalize(cwd: string, input: string, cap: nat) returns (ok: bool, out: string)
    requires cap >= 2 && cwd != [] && cwd[0] == '/' && |cwd| < TMP_CAP && |input| + 1 < TMP_CAP
    ensures ok ==> Join(cwd, input).Path? && out != [] && out[0] == '/' && |out| < cap
    ensures ok ==> Components(out) == Eval([], Components(Join(cwd, input).text))
    ensures var j := Join(cwd, input);
            j.Path? && |j.text| < cap && |Components(j.text)| <= MAX_SEGS ==> ok
  {
    hide Components, Shows;
    ok, out := false, "/";
    var joined := Join(cwd, input);
    if joined.TooLong? { return; }
    var tmp := joined.text;
    var i, starts: seq<nat> := 0, [];
    ghost var stack: seq<string> := [];
    ghost var done := 0;
    RootShows();
    assert tmp[0..] == tmp;
    while i < |tmp|
      invariant i <= |tmp| && (i < |tmp| ==> tmp[i] == '/') && |starts| == |stack| <= done
      invariant Shows(out, starts, stack) && 1 <= |out| < cap && |out| <= (if i == 0 then 1 else i)
      invariant Eval([], Components(tmp)) == Eval(stack, Components(tmp[i..]))
      invariant done + |Components(tmp[i..])| == |Components(tmp)|
      decreases |tmp| - i
    {
      var start, end := NextSegment(tmp, i);
      if start == end {
        i := |tmp|;
        assert tmp[i..] == [];
        break;
      }
      ghost var from := i;
      i := end;
      var seg := tmp[start..end];
      ghost var before := done;
      done := done + 1;
      if seg == "." { continue; }
      if seg == ".." {
        if |starts| > 0 {
          PopShows(out, starts, stack);
          ShowsStarts(out, starts, stack);
          out, starts := out[..starts[|starts| - 1]], starts[..|starts| - 1];
          stack := stack[..|stack| - 1];
        }
        continue;
      }
      PushShows(out, starts, stack, seg);
      if |out| > 1 {
        if |out| >= cap - 1 { return; }
        out := out + "/";
      }
      if |out| + |seg| >= cap { return; }
      if |starts| >= MAX_SEGS { return; }
      starts, out := starts + [|out|], out + seg;
      stack := stack + [seg];
    }
    ShowsOut(out, starts, stack);
    NoComponents(tmp[i..]);
    ok := true;
  }

  lemma RootShows()
    ensures Shows("/", [], [])
  {
    assert "/"[1..] == [];
  }

  lemma ShowsStarts(out: string, starts: seq<nat>, stack: seq<string>)
    requires Shows(out, starts, stack) && starts != []
    ensures 0 < starts[|starts| - 1] <= |out|
  {
  }

  lemma ShowsOut(out: string, starts: seq<nat>, stack: seq<string>)
    requires Shows(out, starts, stack)
    ensures out != [] && out[0] == '/' && Components(out) == stack
  {
  }

  lemma NoComponents(s: string)
    requires s == []
    ensures Components(s) == []
  {
  }
}
