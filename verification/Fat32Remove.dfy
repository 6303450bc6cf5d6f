/**
 Removing entries: which directories count as empty, and what a deleted entry does to lookups.
 */
module Fat32Remove {
  import opened Fat32Chains
  import opened Fat32Volume
  import opened Fat32Dirs
  import opened Fat32State
  import opened Fat32Files
  import opened Fat32Steps
  import opened Fat32Lookup

  // An entry that keeps its directory from being empty.
  predicate Counts(e: Slot) { Real(e) && !IsVolume(e) }

  ghost predicate NoneCount(cl: Cluster) {
    forall t, i :: 0 <= t < |cl| && 0 <= i < 16 ==> !Counts(SlotOf(cl[t], i))
  }

  ghost predicate SectorEmpty(sec: Sector) { forall i :: 0 <= i < 16 ==> !Counts(SlotOf(sec, i)) }

  // Behind a never-used slot no entry counts.
  lemma StopIsEmpty(sec: Sector, j: nat)
    requires TidySector(sec) && j < 16 && Tag(sec, j) == 0 && forall k :: 0 <= k < j ==> !Counts(SlotOf(sec, k))
    ensures SectorEmpty(sec) && Tag(sec, 15) == 0
  {
    forall i | 0 <= i < 16 ensures !Counts(SlotOf(sec, i)) {
      assert SlotOf(sec, i)[0] == Tag(sec, i);
    }
  }

  lemma BlankIsEmpty(sec: Sector)
    requires BlankSector(sec)
    ensures SectorEmpty(sec)
  {
    forall i | 0 <= i < 16 ensures !Counts(SlotOf(sec, i)) {
      assert SlotOf(sec, i)[0] == Tag(sec, i);
    }
  }

  lemma RestEmpty(cl: Cluster, s: nat)
    requires TidyCluster(cl) && s < |cl| && Tag(cl[s], 15) == 0 && forall t :: 0 <= t <= s ==> SectorEmpty(cl[t])
    ensures NoneCount(cl) && Tag(cl[|cl| - 1], 15) == 0
  {
    forall t | s < t < |cl| ensures SectorEmpty(cl[t]) { BlankIsEmpty(cl[t]); }
  }

  ghost predicate ChainEmpty(g: Geometry, v: Vol, ch: seq<nat>)
    requires Shape(g, v) && forall i :: 0 <= i < |ch| ==> 2 <= ch[i] <= g.maxCluster
  {
    forall b :: 0 <= b < |ch| ==> NoneCount(v.data[ch[b]])
  }

  lemma RestOfChainEmpty(g: Geometry, v: Vol, ch: seq<nat>, j: nat)
    requires g.Valid() && Shape(g, v) && DirOk(g, v, ch) && j < |ch|
    requires Tag(v.data[ch[j]][g.spc - 1], 15) == 0 && forall b :: 0 <= b <= j ==> NoneCount(v.data[ch[b]])
    ensures ChainEmpty(g, v, ch)
  {
    forall b | j < b < |ch| ensures NoneCount(v.data[ch[b]]) {
      forall t | 0 <= t < g.spc ensures SectorEmpty(v.data[ch[b]][t]) { BlankIsEmpty(v.data[ch[b]][t]); }
    }
  }

  /** The scan's notion of empty is that of the invariant: no entry but "." and "..". */
  lemma ChainEmptyMeans(g: Geometry, v: Vol, a: Abs, d: nat, ch: seq<nat>)
    requires Inv(g, v, a) && d in a.dirs && d in a.t.chain && ch == a.t.chain[d]
    requires forall i :: 0 <= i < |ch| ==> 2 <= ch[i] <= g.maxCluster
    ensures ChainEmpty(g, v, ch) <==> EmptyDir(g, v, a, d)
  {
    hide Inv, ChainEmpty, EmptyDir;
    InvRange(g, v, a);
    if ChainEmpty(g, v, ch) { ChainEmptyDir(g, v, a, d, ch); }
    if EmptyDir(g, v, a, d) { EmptyDirChain(g, v, a, d, ch); }
  }

  lemma ChainEmptyDir(g: Geometry, v: Vol, a: Abs, d: nat, ch: seq<nat>)
    requires Inv(g, v, a) && d in a.dirs && d in a.t.chain && ch == a.t.chain[d]
    requires (forall i :: 0 <= i < |ch| ==> 2 <= ch[i] <= g.maxCluster) && ChainEmpty(g, v, ch)
    ensures EmptyDir(g, v, a, d)
  {
    hide Inv, ChainEmpty, Real, SlotOf, Shape, SlotAt;
    InvRange(g, v, a);
    forall k | DirLoc(g, a, k) && a.t.own[k.c] == d ensures !Real(SlotAt(g, v, k)) {
      EmptyMeansNotReal(g, v, a, d, ch, k);
    }
  }

  lemma EmptyDirChain(g: Geometry, v: Vol, a: Abs, d: nat, ch: seq<nat>)
    requires Inv(g, v, a) && d in a.dirs && d in a.t.chain && ch == a.t.chain[d]
    requires (forall i :: 0 <= i < |ch| ==> 2 <= ch[i] <= g.maxCluster) && EmptyDir(g, v, a, d)
    ensures ChainEmpty(g, v, ch)
  {
    hide Inv, NoneCount, EmptyDir, IsDirCluster;
    InvRange(g, v, a);
    forall b | 0 <= b < |ch| ensures NoneCount(v.data[ch[b]]) {
      OwnerOf(g, v, a, d, ch[b]);
      EmptyMeansNone(g, v, a, d, ch[b]);
    }
  }

  lemma EmptyMeansNone(g: Geometry, v: Vol, a: Abs, d: nat, c: nat)
    requires Shape(g, v) && OwnInRange(g, a.t) && EmptyDir(g, v, a, d) && IsDirCluster(a, c) && a.t.own[c] == d
    ensures NoneCount(v.data[c])
  {
    hide Real, SlotOf;
    forall t, i | 0 <= t < g.spc && 0 <= i < 16 ensures !Counts(SlotOf(v.data[c][t], i)) {
      assert DirLoc(g, a, Loc(c, t, i)) && !Real(SlotAt(g, v, Loc(c, t, i)));
    }
  }

  lemma EmptyMeansNotReal(g: Geometry, v: Vol, a: Abs, d: nat, ch: seq<nat>, k: Loc)
    requires Inv(g, v, a) && d in a.dirs && d in a.t.chain && ch == a.t.chain[d]
    requires forall i :: 0 <= i < |ch| ==> 2 <= ch[i] <= g.maxCluster
    requires ChainEmpty(g, v, ch) && DirLoc(g, a, k) && a.t.own[k.c] == d
    ensures !Real(SlotAt(g, v, k))
  {
    hide ChainsOk, UsedOk, SlotsOk, RefsOk, DirsOk, IsVolume;
    assert k.c in ch;
    if Real(SlotAt(g, v, k)) { LiveNotVolume(g, v, a, k); }
  }

  lemma ErasedInPlace(sec: Sector, i: nat, r: Sector)
    requires i < 16 && r == sec[32 * i := DELETED]
    ensures r == PutSlot(sec, i, Erased(SlotOf(sec, i)))
  {
    var q := PutSlot(sec, i, Erased(SlotOf(sec, i)));
    assert q == sec[.. 32 * i] + Erased(SlotOf(sec, i)) + sec[32 * i + 32 ..];
    assert Erased(SlotOf(sec, i)) == [DELETED] + SlotOf(sec, i)[1..];
    assert forall k :: 0 <= k < 512 ==> r[k] == q[k];
  }

  // Clusters of files other than the one of first cluster "was" hold what they held.
  ghost predicate OthersKept(g: Geometry, v: Vol, a: Abs, w: Vol, was: nat)
    requires Shape(g, v) && OwnInRange(g, a.t) && Shape(g, w)
  {
    forall c :: c in a.t.own && a.t.own[c] != was && !IsDirCluster(a, c) ==>
      w.fats[0][c] == v.fats[0][c] && w.data[c] == v.data[c]
  }

  /** The outcome of unlink and rmdir: the entry l is gone, its chain is free, and no other
      entry or file has changed. */
  ghost predicate Removed(g: Geometry, v: Vol, a: Abs, w: Vol, b: Abs, l: Loc, was: nat) {
    && Inv(g, v, a) && Inv(g, w, b) && b.dirs == a.dirs - {was} && b.t.chain == a.t.chain - {was}
    && InVol(g, l) && OthersKept(g, v, a, w, was)
    && (forall c :: c in a.t.own && a.t.own[c] == was ==> w.fats[0][c] == 0)
    && forall d :: d in b.dirs ==> SameBut(g, v, a, w, b, d, l) && !LiveIn(g, w, b, d, l)
  }

  // The entry at l, and the chain it refers to, have been removed.
  ghost predicate RemovedAt(g: Geometry, v: Vol, a: Abs, w: Vol, b: Abs, l: Loc) {
    Shape(g, v) && InVol(g, l) && Removed(g, v, a, w, b, l, First(SlotAt(g, v, l)))
  }

  lemma RemovedSame(g: Geometry, v: Vol, w: Vol, a: Abs, l: Loc, was: nat, d: nat)
    requires Shape(g, v) && Shape(g, w) && OwnInRange(g, a.t) && OwnInRange(g, Pruned(a, was).t)
    requires DirLoc(g, a, l) && SlotWrite(g, v, w, a, l, Erased(SlotAt(g, v, l))) && OwnersOk(a.t)
    requires d in Pruned(a, was).dirs && (was in a.t.chain || was !in a.dirs)
    ensures SameBut(g, v, a, w, Pruned(a, was), d, l) && !LiveIn(g, w, Pruned(a, was), d, l)
  {
    var b := Pruned(a, was);
    PrunedClusters(a, was);
    SlotWriteAt(g, v, w, a, l, Erased(SlotAt(g, v, l)), l);
    forall k | k != l
      ensures LiveIn(g, v, a, d, k) <==> LiveIn(g, w, b, d, k)
      ensures LiveIn(g, v, a, d, k) ==> SlotAt(g, v, k) == SlotAt(g, w, k)
    {
      if DirLoc(g, a, k) { SlotWriteAt(g, v, w, a, l, Erased(SlotAt(g, v, l)), k); }
    }
  }

  lemma FreedKeeps(g: Geometry, v: Vol, w: Vol, a: Abs, l: Loc, was: nat)
    requires Shape(g, v) && Shape(g, w) && OwnInRange(g, a.t) && OwnersOk(a.t) && DirLoc(g, a, l)
    requires Freed(v.fats[0], w.fats[0], a.t, was)
             && forall c: nat :: c <= g.maxCluster && c != l.c ==> w.data[c] == v.data[c]
    ensures OthersKept(g, v, a, w, was)
    ensures forall c :: c in a.t.own && a.t.own[c] == was ==> w.fats[0][c] == 0
  {
  }

  lemma ErasedIsWrite(g: Geometry, v: Vol, w: Vol, a: Abs, l: Loc)
    requires Shape(g, v) && Shape(g, w) && OwnInRange(g, a.t) && DirLoc(g, a, l)
    requires w.data == v.data[l.c := PutInCluster(v.data[l.c], l.s, l.i, Erased(SlotAt(g, v, l)))]
    ensures SlotWrite(g, v, w, a, l, Erased(SlotAt(g, v, l)))
    ensures forall c: nat :: c <= g.maxCluster && c != l.c ==> w.data[c] == v.data[c]
  {
    hide PutInCluster, Erased, SlotOf;
  }

  // The entry at l has been marked deleted, and the chain "was" has been freed.
  ghost predicate Erases(g: Geometry, v: Vol, w: Vol, t: Table, l: Loc, was: nat) {
    && Mirrors(g, v) && Mirrors(g, w) && InVol(g, l) && Freed(v.fats[0], w.fats[0], t, was)
    && w.data == v.data[l.c := PutInCluster(v.data[l.c], l.s, l.i, Erased(SlotAt(g, v, l)))]
  }

  /** Marking the entry deleted and freeing its chain removes it. */
  lemma Removes(g: Geometry, v: Vol, w: Vol, a: Abs, l: Loc, was: nat)
    requires Inv(g, v, a) && DirLoc(g, a, l) && InVol(g, l) && Shape(g, v) && Real(SlotAt(g, v, l))
             && was == First(SlotAt(g, v, l))
    requires OwnInRange(g, a.t) && EmptyDir(g, v, a, was) && Erases(g, v, w, a.t, l, was)
    ensures Removed(g, v, a, w, Pruned(a, was), l, was) && Inv(g, w, Pruned(a, was))
  {
    hide Inv, OwnersOk, ChainsOk, Freed, EmptyDir, SlotWrite, Erased, First, Real, SlotOf, PutInCluster;
    InvShape(g, v, a);
    InvOwners(g, v, a);
    NoZeroCluster(g, v, a);
    ErasedIsWrite(g, v, w, a, l);
    Prune(g, v, w, a, l, was);
    FreedKeeps(g, v, w, a, l, was);
    InvRange(g, w, Pruned(a, was));
    hide OthersKept, PutInCluster, SlotOf;
    forall d | d in Pruned(a, was).dirs
      ensures SameBut(g, v, a, w, Pruned(a, was), d, l) && !LiveIn(g, w, Pruned(a, was), d, l)
    {
      hide SameBut, LiveIn;
      RemovedSame(g, v, w, a, l, was, d);
    }
    hide SameBut, LiveIn, DropChain;
    PrunedParts(a, was);
  }

  lemma PrunedParts(a: Abs, was: nat)
    requires forall d :: d in a.dirs ==> d in a.t.chain
    ensures Pruned(a, was).dirs == a.dirs - {was} && Pruned(a, was).t.chain == a.t.chain - {was}
  {
  }

  /** After a removal the name is no longer found, every other lookup is as before, and names
      are still unique. */
  lemma RemovedLookup(g: Geometry, v: Vol, a: Abs, w: Vol, b: Abs, l: Loc, was: nat, d: nat, n: Name)
    requires Removed(g, v, a, w, b, l, was) && d in b.dirs && UniqueIn(g, v, a, d)
    ensures UniqueIn(g, w, b, d)
    ensures DirFind(g, w, d, n) == if DirFind(g, v, d, n) == Some(l) then None else DirFind(g, v, d, n)
  {
    hide Inv, UniqueIn, OthersKept, DirFind, LiveIn;
    InvRange(g, v, a);
    InvRange(g, w, b);
    OtherDirs(g, v, a, w, b, d, l, d);
    LookupBut(g, v, a, w, b, d, l, n);
  }

  lemma ChainOf(g: Geometry, v: Vol, a: Abs, f: nat)
    requires Inv(g, v, a) && f in a.t.chain
    ensures IsChain(v.fats[0], OldChain(a.t, f)) && OldChain(a.t, f)[0] == f
  {
    hide OwnersOk, UsedOk, SlotsOk, RefsOk, DirsOk, IsChain;
    assert IsChain(v.fats[0], a.t.chain[f]);
  }

  lemma FileIsEmpty(g: Geometry, v: Vol, a: Abs, f: nat)
    requires Shape(g, v) && OwnInRange(g, a.t) && f !in a.dirs
    ensures EmptyDir(g, v, a, f)
  {
    hide Real, SlotOf;
  }

  // The directory that the entry at l leads to is empty.
  ghost predicate EmptyAt(g: Geometry, v: Vol, a: Abs, l: Loc) {
    && Shape(g, v) && OwnInRange(g, a.t) && InVol(g, l)
    && EmptyDir(g, v, a, Below(g, SlotAt(g, v, l)))
  }

  ghost predicate DirHere(g: Geometry, v: Vol, a: Abs, d: nat)
    requires g.Valid() && Shape(g, v)
  {
    && 2 <= d && d in a.dirs && d in a.t.chain && DirOk(g, v, a.t.chain[d])
    && IsChain(v.fats[0], a.t.chain[d]) && a.t.chain[d][0] == d
    && forall i :: 0 <= i < |a.t.chain[d]| ==> 2 <= a.t.chain[d][i] <= g.maxCluster
  }

  lemma DirIsHere(g: Geometry, v: Vol, a: Abs, d: nat)
    requires Inv(g, v, a) && d in a.dirs
    ensures DirHere(g, v, a, d)
  {
    hide Inv, IsChain, TidyDir;
    InvRange(g, v, a);
    DirRange(g, v, a, d);
    DirChainOf(g, v, a, d);
    DirIsOk(g, v, a, d);
  }

  lemma DirIsOk(g: Geometry, v: Vol, a: Abs, d: nat)
    requires Inv(g, v, a) && d in a.dirs
    ensures d in a.t.chain && g.Valid() && Shape(g, v) && DirOk(g, v, a.t.chain[d])
  {
    hide TableOk, RefsOk, SlotsOk, DirOk;
  }

  // ----- removing a directory by its own "." entry

  // A directory in which another is entered is not empty.
  lemma ParentNotEmpty(g: Geometry, v: Vol, a: Abs, d: nat, p: nat)
    requires Inv(g, v, a) && Shape(g, v) && OwnInRange(g, a.t) && d in a.dirs && d != g.root && ParentIs(a, d, p)
    ensures !EmptyDir(g, v, a, p)
  {
    hide TableOk, SlotsOk, Real, SlotOf;
    assert d in a.t.chain;
    assert Real(SlotAt(g, v, a.ref[d]));
  }

  // An entry that leads to an empty directory is that of the directory, or its "." entry.
  lemma EmptyTarget(g: Geometry, v: Vol, a: Abs, l: Loc)
    requires Inv(g, v, a) && DirLoc(g, a, l) && Live(SlotAt(g, v, l)) && IsDir(SlotAt(g, v, l)) && EmptyAt(g, v, a, l)
    ensures var e := SlotAt(g, v, l);
            && First(e) in a.dirs && First(e) != g.root && First(e) >= 2 && Below(g, e) == First(e)
            && (IsDot(e) ==> First(e) == a.t.own[l.c])
  {
    hide Inv, EmptyDir, First, SlotOf, IsDot, Live;
    InvParts(g, v, a);
    SlotEntry(g, v, a, l);
    var e := SlotAt(g, v, l);
    if IsDot(e) && First(e) != a.t.own[l.c] { ParentNotEmpty(g, v, a, a.t.own[l.c], Below(g, e)); }
    hide EntryOk;
    DirRange(g, v, a, if First(e) in a.dirs then First(e) else g.root);
  }

  // Directories other than d hold what they held.
  ghost predicate DirsBut(g: Geometry, v: Vol, a: Abs, w: Vol, d: nat)
    requires Shape(g, v) && OwnInRange(g, a.t) && Shape(g, w)
  {
    forall c: nat :: IsDirCluster(a, c) && a.t.own[c] != d ==> w.fats[0][c] == v.fats[0][c] && w.data[c] == v.data[c]
  }

  lemma FindBut(g: Geometry, v: Vol, a: Abs, w: Vol, d: nat, x: nat, name: Name)
    requires Inv(g, v, a) && Shape(g, v) && OwnInRange(g, a.t) && Shape(g, w) && DirsBut(g, v, a, w, d) && x in a.dirs
             && x != d
    ensures DirFind(g, w, x, name) == DirFind(g, v, x, name)
  {
    hide Inv, DirsBut, Matches;
    InvRange(g, v, a);
    DirChainOf(g, v, a, x);
    InvOwners(g, v, a);
    var ch := a.t.chain[x];
    WalkIsChain(g, v, a.t, x);
    forall i | 0 <= i < |ch| ensures v.fats[0][ch[i]] == w.fats[0][ch[i]] && v.data[ch[i]] == w.data[ch[i]] {
      ButAt(g, v, a, w, d, x, ch[i]);
    }
    assert forall c :: c in ch ==> v.fats[0][c] == w.fats[0][c];
    WalkSame(v.fats[0], w.fats[0], x, g.maxCluster);
    FindSame(g, v, w, ch, name);
  }

  lemma ButAt(g: Geometry, v: Vol, a: Abs, w: Vol, d: nat, x: nat, c: nat)
    requires Inv(g, v, a) && Shape(g, v) && OwnInRange(g, a.t) && Shape(g, w) && DirsBut(g, v, a, w, d) && x in a.dirs
             && x != d
    requires x in a.t.chain && c in a.t.chain[x]
    ensures v.fats[0][c] == w.fats[0][c] && v.data[c] == w.data[c]
  {
    hide Inv;
    OwnerOf(g, v, a, x, c);
  }

  lemma {:induction false} FindSame(g: Geometry, v: Vol, w: Vol, ch: seq<nat>, name: Name)
    requires Shape(g, v) && Shape(g, w)
    requires forall i :: 0 <= i < |ch| ==> 2 <= ch[i] <= g.maxCluster && v.data[ch[i]] == w.data[ch[i]]
    ensures FindInChain(g, v, ch, name) == FindInChain(g, w, ch, name)
  {
    hide ScanCluster, Matches;
    if ch != [] { FindSame(g, v, w, ch[1..], name); }
  }

  lemma DirIsUsed(g: Geometry, w: Vol, b: Abs, d: nat)
    requires Inv(g, w, b) && d in b.dirs
    ensures 2 <= d <= g.maxCluster && w.fats[0][d] != 0
  {
    hide Inv, Distinct;
    InvRange(g, w, b);
    DirChainOf(g, w, b, d);
    var ch := b.t.chain[d];
    if |ch| > 1 { assert w.fats[0][ch[0]] == ch[1]; }
  }

  // No volume on which the cluster of d is free has a path that leads through d.
  lemma {:induction false} FreedNotOnPath(g: Geometry, v: Vol, a: Abs, w: Vol, b: Abs, d: nat, x: nat, path: seq<Name>)
    requires Inv(g, v, a) && Inv(g, w, b) && Shape(g, v) && Shape(g, w) && OwnInRange(g, a.t) && DirsBut(g, v, a, w, d)
    requires x in a.dirs && x in b.dirs && x != d && 2 <= d <= g.maxCluster && w.fats[0][d] == 0
    requires ThroughDirs(g, v, x, path) && Resolve(g, v, x, path).Some? && DirLoc(g, a, Resolve(g, v, x, path).value)
    ensures a.t.own[Resolve(g, v, x, path).value.c] != d
    decreases |path|
  {
    hide Inv, DirFind, DirsBut, First, SlotOf, IsDir, OwnInRange, RealOk;
    FindBut(g, v, a, w, d, x, path[0]);
    FoundIsEntry(g, v, a, x, path[0]);
    if |path| > 1 {
      var r := DirFind(g, v, x, path[0]).value;
      FoundIsEntry(g, w, b, x, path[0]);
      SlotBut(g, v, a, w, d, r);
      var y := Below(g, SlotAt(g, v, r));
      DirIsUsed(g, w, b, y);
      FreedNotOnPath(g, v, a, w, b, d, y, path[1..]);
    }
  }

  lemma SlotBut(g: Geometry, v: Vol, a: Abs, w: Vol, d: nat, k: Loc)
    requires Shape(g, v) && OwnInRange(g, a.t) && Shape(g, w) && DirsBut(g, v, a, w, d) && DirLoc(g, a, k)
             && a.t.own[k.c] != d
    ensures SlotAt(g, w, k) == SlotAt(g, v, k)
  {
  }

  lemma ErasesBut(g: Geometry, v: Vol, a: Abs, w: Vol, l: Loc, d: nat)
    requires Inv(g, v, a) && Shape(g, v) && OwnInRange(g, a.t) && Erases(g, v, w, a.t, l, d) && DirLoc(g, a, l)
             && a.t.own[l.c] == d
    requires d in a.dirs && d in a.t.chain && d in a.t.chain[d] && 2 <= d <= g.maxCluster
    ensures Shape(g, w) && DirsBut(g, v, a, w, d) && w.fats[0][d] == 0
  {
    hide Inv, OwnersOk, ChainsOk, PutInCluster, Erased, SlotOf;
    InvOwners(g, v, a);
    forall c: nat | IsDirCluster(a, c) && a.t.own[c] != d
      ensures w.fats[0][c] == v.fats[0][c] && w.data[c] == v.data[c]
    {
      InOneChain(a.t, d, c);
    }
    InOneChain(a.t, d, d);
  }

  lemma InOneChain(t: Table, d: nat, c: nat)
    requires OwnersOk(t) && d in t.chain
    ensures c in t.chain[d] <==> c in t.own && t.own[c] == d
  {
  }

  /** Removing a directory by a path that ends in its "." entry destroys the volume: the entry of
      the directory itself stays, and refers to a free cluster. */
  lemma DotRemoval(g: Geometry, v: Vol, a: Abs, w: Vol, l: Loc, path: seq<Name>, b: Abs)
    requires Inv(g, v, a) && Shape(g, v) && DirLoc(g, a, l) && OwnInRange(g, a.t)
             && Erases(g, v, w, a.t, l, a.t.own[l.c])
    requires ThroughDirs(g, v, g.root, path) && Resolve(g, v, g.root, path) == Some(l) && a.t.own[l.c] != g.root
    ensures !Inv(g, w, b)
  {
    hide Inv, Erases, ThroughDirs, Resolve, OwnInRange, Distinct;
    InvRange(g, v, a);
    var d := a.t.own[l.c];
    DirChainOf(g, v, a, d);
    DirRange(g, v, a, d);
    assert a.t.chain[d][0] in a.t.chain[d];
    ErasesBut(g, v, a, w, l, d);
    if Inv(g, w, b) {
      InvRange(g, w, b);
      FreedNotOnPath(g, v, a, w, b, d, g.root, path);
      assert false;
    }
  }
}
