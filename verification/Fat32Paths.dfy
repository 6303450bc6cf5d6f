/**
 What creating and removing entries means for whole paths.
 */
module Fat32Paths {
  import opened Fat32Chains
  import opened Fat32Volume
  import opened Fat32Dirs
  import opened Fat32State
  import opened Fat32Files
  import opened Fat32Names
  import opened Fat32Lookup
  import opened Fat32Remove

  // Where a found entry leads: to the same directory, in the volume before and after.
  lemma NextDir(g: Geometry, v: Vol, a: Abs, x: nat, n: Name)
    requires Inv(g, v, a) && x in a.dirs && DirFind(g, v, x, n).Some?
    requires IsDir(SlotAt(g, v, DirFind(g, v, x, n).value))
    ensures Below(g, SlotAt(g, v, DirFind(g, v, x, n).value)) in a.dirs
  {
    hide TableOk, SlotsOk, RefsOk, DirsOk, First;
    FoundIsEntry(g, v, a, x, n);
    InvRange(g, v, a);
  }

  // A component that is found before an entry is created is found as before.
  lemma EnteredStep(g: Geometry, v: Vol, a: Abs, w: Vol, b: Abs, d: nat, name: Name, l: Loc, x: nat, n: Name)
    requires Entered(g, v, a, w, b, d, name, l) && DirLoc(g, b, l) && Unique(g, v, a)
             && DirFind(g, v, d, Strip(name)).None?
    requires x in a.dirs && DirFind(g, v, x, n).Some?
    ensures DirFind(g, w, x, n) == DirFind(g, v, x, n)
    ensures SlotAt(g, w, DirFind(g, v, x, n).value) == SlotAt(g, v, DirFind(g, v, x, n).value)
  {
    hide Inv, Decode, DirFind, NameEq, Encode, Added, Unique;
    InvRange(g, v, a);
    InvRange(g, w, b);
    var r := DirFind(g, v, x, n).value;
    FoundIn(g, v, a, x, n);
    assert r != l && SameBut(g, v, a, w, b, x, l);
    EnteredLookups(g, v, a, w, b, d, name, l);
    AddedAt(g, v, a, w, d, name, l, x, n);
    if x == d && NameEq(Strip(name), n) {
      AbsentIn(g, v, a, d, Strip(name), r);
      EqBoth(Decode(SlotAt(g, v, r)), Strip(name), n);
    }
  }

  lemma AddedAt(g: Geometry, v: Vol, a: Abs, w: Vol, d: nat, name: Name, l: Loc, x: nat, n: Name)
    requires Shape(g, v) && Shape(g, w) && Added(g, v, a, w, d, name, l) && x in a.dirs
    ensures DirFind(g, w, x, n) == if x == d && NameEq(Strip(name), n) then Some(l) else DirFind(g, v, x, n)
  {
    hide DirFind, NameEq, Strip;
  }

  lemma EqBoth(x: Name, y: Name, n: Name)
    requires NameEq(x, n) && NameEq(y, n)
    ensures NameEq(x, y)
  {
  }

  /** Every path that resolved before an entry is created resolves as before. */
  lemma {:induction false} EnteredPaths(g: Geometry, v: Vol, a: Abs, w: Vol, b: Abs, d: nat, name: Name, l: Loc, x: nat,
                                        path: seq<Name>)
    requires Entered(g, v, a, w, b, d, name, l) && DirLoc(g, b, l) && Unique(g, v, a)
             && DirFind(g, v, d, Strip(name)).None?
    requires x in a.dirs && ThroughDirs(g, v, x, path) && Resolve(g, v, x, path).Some?
    ensures Resolve(g, w, x, path) == Resolve(g, v, x, path)
    ensures SlotAt(g, w, Resolve(g, v, x, path).value) == SlotAt(g, v, Resolve(g, v, x, path).value)
    decreases |path|
  {
    hide Entered, Unique, DirFind, DirLoc;
    EnteredStep(g, v, a, w, b, d, name, l, x, path[0]);
    if |path| > 1 {
      EnteredInv(g, v, a, w, b, d, name, l);
      NextDir(g, v, a, x, path[0]);
      EnteredPaths(g, v, a, w, b, d, name, l, Below(g, SlotAt(g, v, DirFind(g, v, x, path[0]).value)), path[1..]);
    }
  }

  lemma EnteredInv(g: Geometry, v: Vol, a: Abs, w: Vol, b: Abs, d: nat, name: Name, l: Loc)
    requires Entered(g, v, a, w, b, d, name, l)
    ensures Inv(g, v, a) && Inv(g, w, b)
  {
    hide Inv;
  }

  // A path that resolves up to its last component resolves by looking that up.
  lemma {:induction false} ResolveSnoc(g: Geometry, v: Vol, x: nat, path: seq<Name>)
    requires Shape(g, v) && |path| > 1 && Resolve(g, v, x, path[..|path| - 1]).Some?
    ensures Resolve(g, v, x, path) ==
            DirFind(g, v, Below(g, SlotAt(g, v, Resolve(g, v, x, path[..|path| - 1]).value)), path[|path| - 1])
    decreases |path|
  {
    hide DirFind;
    var front := path[..|path| - 1];
    assert front[0] == path[0];
    if |path| > 2 {
      assert path[1..][..|path| - 2] == front[1..];
      ResolveSnoc(g, v, Below(g, SlotAt(g, v, DirFind(g, v, x, path[0]).value)), path[1..]);
    } else {
      assert path[1..] == [path[1]];
    }
  }

  /** Creating a path makes it resolve, to the new entry, unless its name ends in a dot. */
  lemma CreatedResolves(g: Geometry, v: Vol, a: Abs, w: Vol, b: Abs, l: Loc, path: seq<Name>)
    requires Shape(g, v) && |path| >= 1 && ParentDir(g, v, path).Some?
    requires |path| > 1 ==> ThroughDirs(g, v, g.root, path[..|path| - 1])
    requires Entered(g, v, a, w, b, ParentDir(g, v, path).value, path[|path| - 1], l) && DirLoc(g, b, l)
             && Unique(g, v, a)
    requires DirFind(g, v, ParentDir(g, v, path).value, path[|path| - 1]).None?
             && Strip(path[|path| - 1]) == path[|path| - 1]
    ensures Shape(g, w) && Resolve(g, w, g.root, path) == Some(l)
  {
    hide Entered, Unique, DirFind, DirLoc, Strip, ThroughDirs;
    var d, name := ParentDir(g, v, path).value, path[|path| - 1];
    EnteredInv(g, v, a, w, b, d, name, l);
    hide Inv;
    InvRange(g, v, a);
    InvRange(g, w, b);
    NewName(g, v, a, w, b, d, name, l);
    if |path| > 1 {
      hide Resolve;
      EnteredPaths(g, v, a, w, b, d, name, l, g.root, path[..|path| - 1]);
      ResolveSnoc(g, w, g.root, path);
    }
  }

  lemma NewName(g: Geometry, v: Vol, a: Abs, w: Vol, b: Abs, d: nat, name: Name, l: Loc)
    requires Entered(g, v, a, w, b, d, name, l) && DirLoc(g, b, l) && Unique(g, v, a)
    requires DirFind(g, v, d, name).None? && Strip(name) == name
    ensures DirFind(g, w, d, name) == Some(l)
  {
    hide Inv, DirFind, Added, Unique, Strip, Encode;
    InvRange(g, v, a);
    InvRange(g, w, b);
    EnteredLookups(g, v, a, w, b, d, name, l);
    AddedAt(g, v, a, w, d, name, l, d, name);
  }

  /** After a removal a path that led to the entry leads nowhere, and one that led elsewhere
      without passing the entry leads there still. */
  lemma {:induction false} RemovedPaths(g: Geometry, v: Vol, a: Abs, w: Vol, b: Abs, l: Loc, x: nat, path: seq<Name>)
    requires RemovedAt(g, v, a, w, b, l) && Unique(g, v, a) && x in b.dirs
    requires ThroughDirs(g, v, x, path) && Resolve(g, v, x, path).Some? && PassesBy(g, v, x, path, l)
    ensures Resolve(g, w, x, path) == if Resolve(g, v, x, path) == Some(l) then None else Resolve(g, v, x, path)
    decreases |path|
  {
    hide Removed, UniqueIn, DirFind, Inv;
    var was := First(SlotAt(g, v, l));
    RemovedParts(g, v, a, w, b, l, was);
    RemovedLookup(g, v, a, w, b, l, was, x, path[0]);
    if |path| > 1 {
      var r := DirFind(g, v, x, path[0]).value;
      RemovedSlot(g, v, a, w, b, l, was, x, path[0]);
      NextDir(g, w, b, x, path[0]);
      RemovedPaths(g, v, a, w, b, l, Below(g, SlotAt(g, v, r)), path[1..]);
    }
  }

  lemma RemovedSlot(g: Geometry, v: Vol, a: Abs, w: Vol, b: Abs, l: Loc, was: nat, x: nat, n: Name)
    requires Removed(g, v, a, w, b, l, was) && x in b.dirs && DirFind(g, v, x, n).Some?
             && DirFind(g, v, x, n).value != l
    ensures SlotAt(g, w, DirFind(g, v, x, n).value) == SlotAt(g, v, DirFind(g, v, x, n).value)
  {
    hide Inv, DirFind, OthersKept, NameEq, Decode;
    InvRange(g, v, a);
    InvRange(g, w, b);
    FoundIn(g, v, a, x, n);
    assert SameBut(g, v, a, w, b, x, l);
  }

  // Only the last component of the path may lead to the entry l.
  predicate PassesBy(g: Geometry, v: Vol, x: nat, path: seq<Name>, l: Loc)
    requires Shape(g, v)
    decreases |path|
  {
    |path| > 1 ==>
      var r := DirFind(g, v, x, path[0]);
      r.Some? ==> r.value != l && PassesBy(g, v, Below(g, SlotAt(g, v, r.value)), path[1..], l)
  }

  lemma RemovedParts(g: Geometry, v: Vol, a: Abs, w: Vol, b: Abs, l: Loc, was: nat)
    requires Removed(g, v, a, w, b, l, was)
    ensures Inv(g, v, a) && Inv(g, w, b) && b.dirs == a.dirs - {was} && Shape(g, v) && Shape(g, w)
  {
    hide Inv;
    InvRange(g, v, a);
    InvRange(g, w, b);
  }
}
