/**
 The mount table: which file system a path belongs to, and its path there.
 */
module Mounts {
  import Paths

  const MAX_MOUNTS: nat := 8
  const PATH_CAP: nat := 256

  // "fs" stands for the mounted file system and its operations.
  datatype Mount = Mount(path: string, fs: nat)

  datatype Answer = Answer(fs: nat, local: string)

  datatype Normalized = Invalid | Norm(path: string)

  // normalize_mount_path: one slash at the end is dropped.
  function Normalize(path: string): (r: Normalized)
    ensures r.Norm? ==> r.path != [] && r.path[0] == '/'
  {
    if path == [] || path[0] != '/' || |path| >= PATH_CAP then Invalid
    else if |path| > 1 && path[|path| - 1] == '/' then Norm(path[..|path| - 1])
    else Norm(path)
  }

  predicate Absolute(path: string) { path != [] && path[0] == '/' }

  // path_starts_with_mount
  predicate Under(path: string, mount: string) {
    && mount != []
    && if mount == "/" then Absolute(path)
       else mount <= path && (|path| == |mount| || path[|mount|] == '/')
  }

  // make_local_path
  function Local(path: string, mount: string): string
    requires Under(path, mount)
  {
    if mount == "/" then path else if |path| == |mount| then "/" else path[|mount|..]
  }

  // What the buffer for the local path holds of it.
  function Cut(s: string): string { if |s| < PATH_CAP then s else s[..PATH_CAP - 1] }

  lemma CutIs(s: string)
    ensures Cut(s) <= s && |Cut(s)| == if |s| < 256 then |s| else 255
  {
  }

  /** The mount path and the local path make up the path again; a path shorter than the buffer is
      not cut. */
  lemma LocalRebuilds(path: string, mount: string)
    requires Under(path, mount)
    ensures |path| < PATH_CAP ==> Cut(Local(path, mount)) == Local(path, mount)
    ensures Absolute(path) && mount != "/" ==> Absolute(Local(path, mount))
    ensures mount != "/" && path != mount ==> mount + Local(path, mount) == path
    ensures mount != "/" && path == mount ==> Local(path, mount) == "/"
    ensures mount == "/" ==> Local(path, mount) == path
  {
  }

  /** A path is under a mount if it is the mount's path, or goes on behind it with a slash; under "/"
      is every absolute path. */
  lemma UnderIs(path: string, mount: string)
    ensures Under(path, mount) <==>
              if mount == "/" then path != [] && path[0] == '/'
              else mount != [] && (path == mount || exists rest :: path == mount + ['/'] + rest)
  {
    if mount != "/" && Under(path, mount) && path != mount {
      assert path == mount + ['/'] + path[|mount| + 1..];
    }
  }

  /** Every absolute path is under itself. */
  lemma UnderItself(mount: string)
    requires Absolute(mount)
    ensures Under(mount, mount) && Local(mount, mount) == "/"
  {
  }

  /** The path in the mounted file system has those components of the path that are behind the
      mount's. */
  lemma LocalComponents(path: string, mount: string)
    requires Under(path, mount)
    ensures Paths.Components(path) == Paths.Components(mount) + Paths.Components(Local(path, mount))
  {
    assert Paths.Components("/") == [] by { assert "/"[1..] == []; }
    if mount != "/" {
      if path != mount {
        assert path == mount + path[|mount|..];
        Paths.ComponentsJoin(mount, path[|mount|..]);
      }
    }
  }

  /** What can be mounted on: an absolute path of less than 256 characters, without a slash at its
      end but for the root; the components stay. */
  lemma NormalizeIs(path: string)
    ensures Normalize(path).Norm? <==> path != [] && path[0] == '/' && |path| < 256
    ensures Normalize(path).Norm? ==>
              var p := Normalize(path).path;
              && (path == p || path == p + "/") && (path == p && |p| > 1 ==> p[|p| - 1] != '/')
              && Paths.Components(p) == Paths.Components(path)
  {
    if Normalize(path).Norm? {
      var p := Normalize(path).path;
      if path != p {
        assert path == p + "/";
        Paths.PushSlash(p);
      }
    }
  }

  // ----- the longest mount

  predicate Distinct(ms: seq<Mount>) {
    && (forall i :: 0 <= i < |ms| ==> Absolute(ms[i].path))
    && forall i, j :: 0 <= i < j < |ms| ==> ms[i].path != ms[j].path
  }

  // The choice of vfs_resolve among the first n mounts, or -1.
  function Best(ms: seq<Mount>, path: string, n: nat): (b: int)
    requires n <= |ms|
    ensures -1 <= b < n && (b >= 0 ==> Under(path, ms[b].path))
  {
    if n == 0 then -1
    else
      var b := Best(ms, path, n - 1);
      if Under(path, ms[n - 1].path) && |ms[n - 1].path| > Length(ms, b) then n - 1 else b
  }

  function Length(ms: seq<Mount>, b: int): nat
    requires -1 <= b < |ms|
  {
    if b == -1 then 0 else |ms[b].path|
  }

  lemma {:induction false} BestIsLongest(ms: seq<Mount>, path: string, n: nat)
    requires n <= |ms|
    ensures forall i :: 0 <= i < n && Under(path, ms[i].path) ==>
              Best(ms, path, n) >= 0 && |ms[i].path| <= Length(ms, Best(ms, path, n))
  {
    if n > 0 { BestIsLongest(ms, path, n - 1); }
  }

  // Two mounts of the same length that a path is under have the same path.
  lemma SameLength(path: string, x: string, y: string)
    requires Absolute(path) && Absolute(x) && Absolute(y) && Under(path, x) && Under(path, y) && |x| == |y|
    ensures x == y
  {
    assert x == "/" || x == path[..|x|];
    assert y == "/" || y == path[..|y|];
    assert |x| == 1 ==> x == [x[0]] && y == [y[0]];
  }

  // The unique longest mount that the path is under.
  ghost predicate Longest(ms: seq<Mount>, path: string, m: Mount) {
    && m in ms && Under(path, m.path)
    && forall k :: k in ms && Under(path, k.path) && k != m ==> |k.path| < |m.path|
  }

  lemma BestLongest(ms: seq<Mount>, path: string)
    requires Distinct(ms) && Absolute(path)
    ensures var b := Best(ms, path, |ms|);
            if b == -1 then forall k :: k in ms ==> !Under(path, k.path) else Longest(ms, path, ms[b])
  {
    BestIsLongest(ms, path, |ms|);
    var b := Best(ms, path, |ms|);
    hide Under, Best;
    forall k | k in ms && Under(path, k.path) && b >= 0 && k != ms[b] ensures |k.path| < |ms[b].path| {
      var i :| 0 <= i < |ms| && ms[i] == k;
      if |k.path| == |ms[b].path| { SameLength(path, k.path, ms[b].path); }
    }
  }

  // vfs_resolve, with the root file system for paths under no mount.
  function Resolution(root: nat, ms: seq<Mount>, path: string): Answer {
    var b := Best(ms, path, |ms|);
    if b >= 0 then Answer(ms[b].fs, Cut(Local(path, ms[b].path))) else Answer(root, Cut(path))
  }

  /** Resolution goes by the longest mount, and to the root file system if there is none. */
  lemma ResolvesByLongest(root: nat, ms: seq<Mount>, path: string, m: Mount)
    requires Distinct(ms) && Absolute(path) && Longest(ms, path, m)
    ensures Resolution(root, ms, path) == Answer(m.fs, Cut(Local(path, m.path)))
  {
    BestLongest(ms, path);
  }

  /** The answer depends on the set of mounts only, not on their order in the table. */
  lemma OrderIrrelevant(root: nat, ms: seq<Mount>, ns: seq<Mount>, path: string)
    requires Distinct(ms) && Distinct(ns) && Absolute(path) && forall m :: m in ms <==> m in ns
    ensures Resolution(root, ms, path) == Resolution(root, ns, path)
  {
    BestLongest(ms, path);
    BestLongest(ns, path);
    hide Under, Best, Local;
    var b := Best(ms, path, |ms|);
    if b >= 0 {
      assert ms[b] in ns && Longest(ns, path, ms[b]);
    }
  }

  // ----- mounting and unmounting

  // The mount with the path, or |ms|.
  function Find(ms: seq<Mount>, path: string, i: nat): (k: nat)
    requires i <= |ms|
    ensures i <= k <= |ms| && (k < |ms| ==> ms[k].path == path) && forall j :: i <= j < k ==> ms[j].path != path
    decreases |ms| - i
  {
    if i == |ms| || ms[i].path == path then i else Find(ms, path, i + 1)
  }

  // A mount strictly below a path.
  predicate Below(m: string, path: string) { path < m && m[|path|] == '/' }

  lemma BelowIs(m: string, path: string)
    ensures Below(m, path) <==> exists rest :: m == path + ['/'] + rest
  {
    if Below(m, path) { assert m == path + ['/'] + m[|path| + 1..]; }
  }

  /** What is unmounted must be mounted, not the root, and without a mount below it: these are the
      mounts that a path under it can resolve to. */
  lemma CanUnmountIs(ms: seq<Mount>, path: string)
    requires Distinct(ms)
    ensures CanUnmount(ms, path) <==>
              && Normalize(path).Norm?
              && exists m :: m in ms && m.path == Normalize(path).path && m.path != "/"
                             && forall k :: k in ms && k != m ==> !Under(k.path, m.path)
  {
    if Normalize(path).Norm? {
      var p := Normalize(path).path;
      var f := Find(ms, p, 0);
      forall k | k in ms && k.path != p && p != "/" ensures Below(k.path, p) <==> Under(k.path, p) {
        BelowIs(k.path, p);
        UnderIs(k.path, p);
      }
      assert f < |ms| ==> ms[f] in ms;
    }
  }

  ghost predicate CanUnmount(ms: seq<Mount>, path: string) {
    && Normalize(path).Norm? && Normalize(path).path != "/"
    && var p := Normalize(path).path;
       Find(ms, p, 0) < |ms| && forall i :: 0 <= i < |ms| && ms[i].path != p ==> !Below(ms[i].path, p)
  }

  function Without(ms: seq<Mount>, i: nat): seq<Mount>
    requires i < |ms|
  {
    ms[..i] + ms[i + 1..]
  }

  /** Unmounting what was mounted last gives back the table, and with it every resolution. */
  lemma UnmountUndoesMount(ms: seq<Mount>, m: Mount)
    requires Distinct(ms + [m])
    ensures Find(ms + [m], m.path, 0) == |ms| && Without(ms + [m], |ms|) == ms
  {
    var all := ms + [m];
    assert all[|ms|] == m;
    assert forall j :: 0 <= j < |ms| ==> all[j].path != m.path;
  }

  // No other mount that the path is under is as long as m.
  ghost predicate Wins(ms: seq<Mount>, m: Mount, path: string) {
    Under(path, m.path) && forall k :: k in ms && Under(path, k.path) ==> |k.path| < |m.path|
  }

  /** After a mount, the paths under it, and under no longer mount, go to it; all others resolve
      as before. */
  lemma MountShadows(root: nat, ms: seq<Mount>, m: Mount, path: string)
    requires Distinct(ms + [m]) && Absolute(path)
    ensures Resolution(root, ms + [m], path) ==
            if Wins(ms, m, path) then Answer(m.fs, Cut(Local(path, m.path))) else Resolution(root, ms, path)
  {
    var all := ms + [m];
    assert all[|ms|] == m;
    if Wins(ms, m, path) {
      assert Longest(all, path, m);
      ResolvesByLongest(root, all, path, m);
    } else {
      BestPrefix(ms, m, path, |ms|);
      BestIsLongest(ms, path, |ms|);
      LosesToBest(ms, m, path);
    }
  }

  lemma LosesToBest(ms: seq<Mount>, m: Mount, path: string)
    requires Distinct(ms + [m]) && Absolute(path) && !Wins(ms, m, path)
    ensures Under(path, m.path) ==> Best(ms, path, |ms|) >= 0 && |m.path| <= Length(ms, Best(ms, path, |ms|))
  {
    BestIsLongest(ms, path, |ms|);
    hide Under, Best;
    if k :| k in ms && Under(path, k.path) && |k.path| >= |m.path| {
      var i :| 0 <= i < |ms| && ms[i] == k;
    }
  }

  lemma {:induction false} BestPrefix(ms: seq<Mount>, m: Mount, path: string, n: nat)
    requires n <= |ms|
    ensures Best(ms + [m], path, n) == Best(ms, path, n)
  {
    if n > 0 { BestPrefix(ms, m, path, n - 1); }
  }

  class MountTable {
    const root: nat
    var mounts: seq<Mount>

    ghost predicate Valid()
      reads this
    {
      |mounts| <= MAX_MOUNTS && Distinct(mounts)
    }

    /** vfs_resolve, of an absolute path. */
    method Resolve(path: string) returns (r: Answer)
      requires Absolute(path)
      ensures r == Resolution(root, mounts, path)
    {
      var best, bestLen := -1, 0;
      var i := 0;
      while i < |mounts|
        invariant 0 <= i <= |mounts| && best == Best(mounts, path, i) && bestLen == Length(mounts, best)
      {
        if Under(path, mounts[i].path) && |mounts[i].path| > bestLen {
          best, bestLen := i, |mounts[i].path|;
        }
        i := i + 1;
      }
      if best >= 0 { return Answer(mounts[best].fs, Cut(Local(path, mounts[best].path))); }
      r := Answer(root, Cut(path));
    }

    method Lookup(path: string) returns (k: nat)
      ensures k == Find(mounts, path, 0)
    {
      k := 0;
      while k < |mounts|
        invariant 0 <= k <= |mounts| && Find(mounts, path, 0) == Find(mounts, path, k)
      {
        if mounts[k].path == path { return; }
        k := k + 1;
      }
    }

    /** vfs_mount; "isDir" tells what get_info of the file system at the path says. */
    method MountAt(path: string, fs: nat, isDir: bool) returns (r: int)
      requires Valid()
      modifies this
      ensures Valid() && (r == 0 || r == -1)
      ensures r == 0 <==> |old(mounts)| < MAX_MOUNTS && Normalize(path).Norm? && isDir &&
                          Find(old(mounts), Normalize(path).path, 0) == |old(mounts)|
      ensures mounts == if r == 0 then old(mounts) + [Mount(Normalize(path).path, fs)] else old(mounts)
    {
      if |mounts| >= MAX_MOUNTS { return -1; }
      var n := Normalize(path);
      if n.Invalid? { return -1; }
      var k := Lookup(n.path);
      if k < |mounts| || !isDir { return -1; }
      mounts := mounts + [Mount(n.path, fs)];
      r := 0;
    }

    method HasBelow(p: string) returns (found: bool)
      ensures found <==> exists i :: 0 <= i < |mounts| && mounts[i].path != p && Below(mounts[i].path, p)
    {
      var i := 0;
      while i < |mounts|
        invariant 0 <= i <= |mounts| && forall j :: 0 <= j < i && mounts[j].path != p ==> !Below(mounts[j].path, p)
      {
        if mounts[i].path != p && Below(mounts[i].path, p) { return true; }
        i := i + 1;
      }
      found := false;
    }

    /** vfs_umount. */
    method Unmount(path: string) returns (r: int)
      requires Valid()
      modifies this
      ensures Valid() && (r == 0 || r == -1)
      ensures r == 0 <==> CanUnmount(old(mounts), path)
      ensures r == 0 ==> mounts == Without(old(mounts), Find(old(mounts), Normalize(path).path, 0))
      ensures r == -1 ==> mounts == old(mounts)
    {
      var n := Normalize(path);
      if n.Invalid? || n.path == "/" { return -1; }
      var idx := Lookup(n.path);
      if idx == |mounts| { return -1; }
      var nested := HasBelow(n.path);
      if nested { return -1; }
      RemoveAt(idx);
      r := 0;
    }

    // Closes the gap that the mount at idx leaves.
    method RemoveAt(idx: nat)
      requires Valid() && idx < |mounts|
      modifies this
      ensures Valid() && mounts == Without(old(mounts), idx)
    {
      ghost var ms := mounts;
      var i := idx + 1;
      while i < |mounts|
        invariant idx < i <= |mounts| == |ms|
        invariant forall k :: 0 <= k < idx ==> mounts[k] == ms[k]
        invariant forall k :: idx < k < i ==> mounts[k - 1] == ms[k]
        invariant forall k :: i <= k < |ms| ==> mounts[k] == ms[k]
      {
        mounts := mounts[i - 1 := mounts[i]];
        i := i + 1;
      }
      ghost var all := mounts;
      mounts := mounts[..|mounts| - 1];
      assert forall k :: idx <= k < |mounts| ==> mounts[k] == all[(k + 1) - 1] == ms[k + 1];
      assert mounts == Without(ms, idx);
    }
  }
}
