/**
 Directories as sets of named entries: when no two live entries of a directory compare equal,
 a lookup finds the entry with the name, wherever it is.
 */
module Fat32Lookup {
  import opened Bytes
  import opened Fat32Chains
  import opened Fat32Volume
  import opened Fat32Dirs
  import opened Fat32State
  import opened Fat32Files
  import opened Fat32Bytes
  import opened Fat32Names
  import opened Fat32Steps

  // k is a live slot of the directory d.
  ghost predicate LiveIn(g: Geometry, v: Vol, a: Abs, d: nat, k: Loc)
    requires Shape(g, v) && OwnInRange(g, a.t)
  {
    DirLoc(g, a, k) && a.t.own[k.c] == d && Live(SlotAt(g, v, k))
  }

  // No two live entries of the directory d compare equal.
  ghost predicate UniqueIn(g: Geometry, v: Vol, a: Abs, d: nat)
    requires Shape(g, v) && OwnInRange(g, a.t)
  {
    forall k, l ::
      LiveIn(g, v, a, d, k) && LiveIn(g, v, a, d, l) && NameEq(Decode(SlotAt(g, v, k)), Decode(SlotAt(g, v, l))) ==>
        k == l
  }

  ghost predicate Unique(g: Geometry, v: Vol, a: Abs)
    requires Shape(g, v) && OwnInRange(g, a.t)
  {
    forall d :: d in a.dirs ==> UniqueIn(g, v, a, d)
  }

  lemma SameName(x: Name, y: Name, name: Name)
    requires NameEq(x, name)
    ensures NameEq(y, name) <==> NameEq(x, y)
  {
  }

  // A lookup that fails means that no live entry of the directory has the name.
  lemma AbsentIn(g: Geometry, v: Vol, a: Abs, d: nat, name: Name, k: Loc)
    requires Inv(g, v, a) && d in a.dirs && DirFind(g, v, d, name).None? && LiveIn(g, v, a, d, k)
    ensures !NameEq(Decode(SlotAt(g, v, k)), name)
  {
    hide UsedOk, RefsOk, SlotsOk, Decode;
    WalkIsChain(g, v, a.t, d);
    NotFoundMeansAbsent(g, v, a.t.chain[d], name);
    assert k.c in a.t.chain[d];
    LiveNotVolume(g, v, a, k);
  }

  lemma LiveNotVolume(g: Geometry, v: Vol, a: Abs, k: Loc)
    requires Inv(g, v, a) && DirLoc(g, a, k) && Live(SlotAt(g, v, k))
    ensures !IsVolume(SlotAt(g, v, k))
  {
    hide TableOk, RefsOk, DirsOk;
    assert EntryOk(g, a, k, SlotAt(g, v, k));
  }

  // What a lookup finds is a live entry of the directory with the name.
  lemma FoundIn(g: Geometry, v: Vol, a: Abs, d: nat, name: Name)
    requires Inv(g, v, a) && d in a.dirs && DirFind(g, v, d, name).Some?
    ensures LiveIn(g, v, a, d, DirFind(g, v, d, name).value)
    ensures NameEq(Decode(SlotAt(g, v, DirFind(g, v, d, name).value)), name)
  {
    hide UsedOk, RefsOk, SlotsOk, Decode, NameEq;
    var l := DirFind(g, v, d, name).value;
    WalkIsChain(g, v, a.t, d);
    assert l.c in a.t.chain[d];
    DirChainClusters(g, v, a, d, l.c);
  }

  /** With unique names, a lookup finds the entry that has the name. */
  lemma FindUnique(g: Geometry, v: Vol, a: Abs, d: nat, name: Name, l: Loc)
    requires Inv(g, v, a) && d in a.dirs && UniqueIn(g, v, a, d)
    requires LiveIn(g, v, a, d, l) && NameEq(Decode(SlotAt(g, v, l)), name)
    ensures DirFind(g, v, d, name) == Some(l)
  {
    hide TableOk, RefsOk, SlotsOk, DirsOk, Decode, DirFind;
    if DirFind(g, v, d, name).None? {
      AbsentIn(g, v, a, d, name, l);
    } else {
      FoundIn(g, v, a, d, name);
      var k := DirFind(g, v, d, name).value;
      SameName(Decode(SlotAt(g, v, k)), Decode(SlotAt(g, v, l)), name);
    }
  }

  // The live entries of d are the same in both volumes, apart from l.
  ghost predicate SameBut(g: Geometry, v: Vol, a: Abs, w: Vol, b: Abs, d: nat, l: Loc)
    requires Shape(g, v) && OwnInRange(g, a.t) && Shape(g, w) && OwnInRange(g, b.t)
  {
    forall k :: k != l ==>
      && (LiveIn(g, v, a, d, k) <==> LiveIn(g, w, b, d, k))
      && (LiveIn(g, v, a, d, k) ==> SlotAt(g, v, k) == SlotAt(g, w, k))
  }

  /** Lookups in a directory of which only the entry l has changed. */
  lemma LookupBut(g: Geometry, v: Vol, a: Abs, w: Vol, b: Abs, d: nat, l: Loc, name: Name)
    requires Inv(g, v, a) && Inv(g, w, b) && d in a.dirs && d in b.dirs && InVol(g, l)
    requires UniqueIn(g, v, a, d) && UniqueIn(g, w, b, d) && SameBut(g, v, a, w, b, d, l)
    ensures DirFind(g, w, d, name) ==
            if LiveIn(g, w, b, d, l) && NameEq(Decode(SlotAt(g, w, l)), name) then Some(l)
            else if DirFind(g, v, d, name) == Some(l) then None
            else DirFind(g, v, d, name)
  {
    hide TableOk, RefsOk, SlotsOk, DirsOk, Decode, DirFind, NameEq, UniqueIn;
    var r, q := DirFind(g, v, d, name), DirFind(g, w, d, name);
    if LiveIn(g, w, b, d, l) && NameEq(Decode(SlotAt(g, w, l)), name) {
      FindUnique(g, w, b, d, name, l);
    } else if r.Some? && r.value != l {
      FoundIn(g, v, a, d, name);
      FindUnique(g, w, b, d, name, r.value);
    } else if q.Some? {
      FoundIn(g, w, b, d, name);
      assert q.value != l && LiveIn(g, v, a, d, q.value);
      FindUnique(g, v, a, d, name, q.value);
    }
  }

  /** Names stay unique when the entry at l is deleted, or gets a name no other entry has. */
  lemma UniqueBut(g: Geometry, v: Vol, a: Abs, w: Vol, b: Abs, d: nat, l: Loc)
    requires Shape(g, v) && OwnInRange(g, a.t) && Shape(g, w) && OwnInRange(g, b.t) && InVol(g, l)
    requires UniqueIn(g, v, a, d) && SameBut(g, v, a, w, b, d, l)
    requires LiveIn(g, w, b, d, l) ==> forall k :: k != l && LiveIn(g, v, a, d, k) ==>
               !NameEq(Decode(SlotAt(g, v, k)), Decode(SlotAt(g, w, l)))
    ensures UniqueIn(g, w, b, d)
  {
    hide Decode;
    forall x, y | LiveIn(g, w, b, d, x) && LiveIn(g, w, b, d, y)
                  && NameEq(Decode(SlotAt(g, w, x)), Decode(SlotAt(g, w, y)))
      ensures x == y
    {
      if x == l && y != l {
        assert LiveIn(g, v, a, d, y);
        NameEqSym(Decode(SlotAt(g, w, x)), Decode(SlotAt(g, w, y)));
      }
    }
  }

  lemma NameEqSym(x: Name, y: Name)
    requires NameEq(x, y)
    ensures NameEq(y, x)
  {
  }

  // ----- how the directory operations change the set of entries

  // Clusters of files hold what they held.
  ghost predicate FilesKept(g: Geometry, v: Vol, a: Abs, w: Vol)
    requires Shape(g, v) && OwnInRange(g, a.t) && Shape(g, w)
  {
    forall c :: c in a.t.own && !IsDirCluster(a, c) ==> w.fats[0][c] == v.fats[0][c] && w.data[c] == v.data[c]
  }

  // All directories of a are still there, and no entry but l has changed.
  ghost predicate EntriesBut(g: Geometry, v: Vol, a: Abs, w: Vol, b: Abs, l: Loc)
    requires Shape(g, v) && OwnInRange(g, a.t) && Shape(g, w) && OwnInRange(g, b.t)
  {
    forall d :: d in a.dirs ==> d in b.dirs && SameBut(g, v, a, w, b, d, l)
  }

  lemma EntriesSelf(g: Geometry, v: Vol, a: Abs, l: Loc)
    requires Shape(g, v) && OwnInRange(g, a.t)
    ensures EntriesBut(g, v, a, v, a, l) && FilesKept(g, v, a, v)
  {
  }

  lemma EntriesJoin(g: Geometry, v: Vol, a: Abs, w: Vol, b: Abs, x: Vol, c: Abs, l: Loc)
    requires Shape(g, v) && OwnInRange(g, a.t) && Shape(g, w) && OwnInRange(g, b.t) && Shape(g, x) && OwnInRange(g, c.t)
    requires EntriesBut(g, v, a, w, b, l) && EntriesBut(g, w, b, x, c, l)
    ensures EntriesBut(g, v, a, x, c, l)
  {
    forall d | d in a.dirs ensures d in c.dirs && SameBut(g, v, a, x, c, d, l) {
      assert SameBut(g, v, a, w, b, d, l) && SameBut(g, w, b, x, c, d, l);
    }
  }

  // Stretching a directory by a blank cluster changes no entry.
  lemma StretchEntries(g: Geometry, v: Vol, w: Vol, a: Abs, d: nat, nc: nat, l: Loc)
    requires Shape(g, v) && Shape(g, w) && OwnInRange(g, a.t) && 2 <= nc <= g.maxCluster && OwnersOk(a.t)
    requires d in a.dirs && d in a.t.chain && nc !in a.t.own && nc !in a.t.chain
    requires BlankCluster(w.data[nc]) && forall c :: c in a.t.own ==> w.data[c] == v.data[c]
    ensures OwnInRange(g, Stretched(a, d, nc).t) && EntriesBut(g, v, a, w, Stretched(a, d, nc), l)
  {
    var b := Stretched(a, d, nc);
    forall x, k | x in a.dirs && k != l
      ensures LiveIn(g, v, a, x, k) <==> LiveIn(g, w, b, x, k)
      ensures LiveIn(g, v, a, x, k) ==> SlotAt(g, v, k) == SlotAt(g, w, k)
    {
      if InVol(g, k) { BlankIsNotLive(g, w, k); }
    }
  }

  // Writing one slot, with the table grown by at most a new directory.
  lemma WriteEntries(g: Geometry, v: Vol, w: Vol, a: Abs, l: Loc, nd: nat, e: Slot)
    requires Shape(g, v) && Shape(g, w) && OwnInRange(g, a.t) && OwnInRange(g, Grown(a, l, nd).t) && OwnersOk(a.t)
    requires DirLoc(g, a, l) && SlotWrite(g, v, w, a, l, e) && nd !in a.t.own && nd !in a.t.chain
    requires forall d :: d in a.dirs ==> d in a.t.chain
    ensures EntriesBut(g, v, a, w, Grown(a, l, nd), l)
  {
    var b := Grown(a, l, nd);
    GrownClusters(a, l, nd);
    forall x, k | x in a.dirs && k != l
      ensures LiveIn(g, v, a, x, k) <==> LiveIn(g, w, b, x, k)
      ensures LiveIn(g, v, a, x, k) ==> SlotAt(g, v, k) == SlotAt(g, w, k)
    {
      assert x != nd;
      if DirLoc(g, a, k) { SlotWriteAt(g, v, w, a, l, e, k); }
    }
  }

  // What a created entry does to lookups.
  ghost predicate Added(g: Geometry, v: Vol, a: Abs, w: Vol, d: nat, name: Name, l: Loc)
    requires Shape(g, v) && Shape(g, w)
  {
    forall x, n :: x in a.dirs ==>
      DirFind(g, w, x, n) == if x == d && NameEq(Strip(name), n) then Some(l) else DirFind(g, v, x, n)
  }

  // The state after a new entry has been written to the free slot l of directory d.
  ghost predicate Entered(g: Geometry, v: Vol, a: Abs, w: Vol, b: Abs, d: nat, name: Name, l: Loc) {
    && Inv(g, v, a) && Inv(g, w, b) && d in a.dirs && Accepts(name)
    && EntriesBut(g, v, a, w, b, l)
    && InVol(g, l) && (DirLoc(g, a, l) ==> !Live(SlotAt(g, v, l))) && LiveIn(g, w, b, d, l)
    && SlotAt(g, w, l)[..11] == Encode(name)
  }

  lemma OtherDirs(g: Geometry, v: Vol, a: Abs, w: Vol, b: Abs, d: nat, l: Loc, x: nat)
    requires Shape(g, v) && OwnInRange(g, a.t) && Shape(g, w) && OwnInRange(g, b.t) && InVol(g, l)
    requires SameBut(g, v, a, w, b, x, l) && UniqueIn(g, v, a, x) && !LiveIn(g, w, b, x, l)
    ensures UniqueIn(g, w, b, x)
  {
    UniqueBut(g, v, a, w, b, x, l);
  }

  /** A created entry keeps the names of its directory unique if and only if the directory had
      no entry with its name, less a dot that ends it. */
  lemma EnteredUnique(g: Geometry, v: Vol, a: Abs, w: Vol, b: Abs, d: nat, name: Name, l: Loc)
    requires Entered(g, v, a, w, b, d, name, l) && UniqueIn(g, v, a, d)
    ensures UniqueIn(g, w, b, d) <==> DirFind(g, v, d, Strip(name)).None?
  {
    hide Inv, Decode, DirFind, NameEq, Encode;
    InvRange(g, v, a);
    InvRange(g, w, b);
    var e := SlotAt(g, w, l);
    DecodeEncode(name, e);
    assert SameBut(g, v, a, w, b, d, l);
    if DirFind(g, v, d, Strip(name)).None? {
      forall k | k != l && LiveIn(g, v, a, d, k) ensures !NameEq(Decode(SlotAt(g, v, k)), Decode(e)) {
        AbsentIn(g, v, a, d, Strip(name), k);
        LowerEq2(Decode(SlotAt(g, v, k)), Strip(name));
      }
      UniqueBut(g, v, a, w, b, d, l);
    } else {
      FoundIn(g, v, a, d, Strip(name));
      var k := DirFind(g, v, d, Strip(name)).value;
      LowerEq2(Decode(SlotAt(g, v, k)), Strip(name));
      assert k != l && LiveIn(g, w, b, d, k);
    }
  }

  lemma NamesSelf(g: Geometry, v: Vol, a: Abs)
    requires Inv(g, v, a)
    ensures NamesKept(g, v, a, v, a) && forall l :: OneChanged(g, v, a, v, l)
  {
    hide Inv, SlotOf;
    InvRange(g, v, a);
  }

  /** Writing and appending leave the names in every directory as they are. */
  lemma KeptNamesUnique(g: Geometry, v: Vol, a: Abs, w: Vol, b: Abs)
    requires NamesKept(g, v, a, w, b) && Unique(g, v, a)
    ensures Unique(g, w, b)
  {
    hide NamesKept, UniqueIn;
    KeptRange(g, v, a, w, b);
    forall d | d in b.dirs ensures UniqueIn(g, w, b, d) {
      KeptNamesIn(g, v, a, w, b, d);
    }
  }

  lemma KeptRange(g: Geometry, v: Vol, a: Abs, w: Vol, b: Abs)
    requires NamesKept(g, v, a, w, b)
    ensures Shape(g, v) && OwnInRange(g, a.t) && Shape(g, w) && OwnInRange(g, b.t) && b.dirs == a.dirs
  {
  }

  lemma KeptLive(g: Geometry, v: Vol, a: Abs, w: Vol, b: Abs, d: nat, k: Loc)
    requires NamesKept(g, v, a, w, b) && LiveIn(g, w, b, d, k)
    ensures LiveIn(g, v, a, d, k) && Decode(SlotAt(g, v, k)) == Decode(SlotAt(g, w, k))
  {
    hide Decode, SlotOf;
    assert DirLoc(g, a, k);
    SameKind(SlotAt(g, v, k), SlotAt(g, w, k));
  }

  lemma KeptNamesIn(g: Geometry, v: Vol, a: Abs, w: Vol, b: Abs, d: nat)
    requires NamesKept(g, v, a, w, b) && UniqueIn(g, v, a, d)
    ensures UniqueIn(g, w, b, d)
  {
    hide NamesKept, Decode, NameEq, SlotOf;
    KeptRange(g, v, a, w, b);
    forall x, y | LiveIn(g, w, b, d, x) && LiveIn(g, w, b, d, y)
                  && NameEq(Decode(SlotAt(g, w, x)), Decode(SlotAt(g, w, y)))
      ensures x == y
    {
      KeptLive(g, v, a, w, b, d, x);
      KeptLive(g, v, a, w, b, d, y);
    }
  }

  lemma LowerEq2(x: Name, y: Name)
    ensures NameEq(x, LowerAll(y)) <==> NameEq(x, y)
  {
  }

  lemma InvRange(g: Geometry, v: Vol, a: Abs)
    requires Inv(g, v, a)
    ensures g.Valid() && Shape(g, v) && OwnInRange(g, a.t) && g.root in a.dirs
  {
  }

  /** Then the new name is found, and every other name is found as before. */
  lemma EnteredLookups(g: Geometry, v: Vol, a: Abs, w: Vol, b: Abs, d: nat, name: Name, l: Loc)
    requires Entered(g, v, a, w, b, d, name, l) && DirLoc(g, b, l)
    requires Unique(g, v, a) && DirFind(g, v, d, Strip(name)).None?
    ensures Added(g, v, a, w, d, name, l)
  {
    hide Inv, Decode, DirFind, NameEq, Encode;
    InvRange(g, v, a);
    InvRange(g, w, b);
    DecodeEncode(name, SlotAt(g, w, l));
    EnteredUnique(g, v, a, w, b, d, name, l);
    forall x, n | x in a.dirs
      ensures DirFind(g, w, x, n) == if x == d && NameEq(Strip(name), n) then Some(l) else DirFind(g, v, x, n)
    {
      EnteredLookup(g, v, a, w, b, d, name, l, x, n);
    }
  }

  lemma EnteredLookup(g: Geometry, v: Vol, a: Abs, w: Vol, b: Abs, d: nat, name: Name, l: Loc, x: nat, n: Name)
    requires Entered(g, v, a, w, b, d, name, l) && UniqueIn(g, w, b, d) && UniqueIn(g, v, a, x) && x in a.dirs
    ensures DirFind(g, w, x, n) == if x == d && NameEq(Strip(name), n) then Some(l) else DirFind(g, v, x, n)
  {
    hide Inv, Decode, DirFind, NameEq, Encode;
    InvRange(g, v, a);
    InvRange(g, w, b);
    DecodeEncode(name, SlotAt(g, w, l));
    LowerEq(Strip(name), n);
    assert x in b.dirs && SameBut(g, v, a, w, b, x, l);
    assert !LiveIn(g, v, a, x, l);
    if x != d { OtherDirs(g, v, a, w, b, d, l, x); }
    LookupBut(g, v, a, w, b, x, l, n);
    if DirFind(g, v, x, n) == Some(l) { FoundIn(g, v, a, x, n); }
  }

  // ----- directories that are searched for a free slot

  lemma DirChainOf(g: Geometry, v: Vol, a: Abs, d: nat)
    requires Inv(g, v, a) && d in a.dirs
    ensures d in a.t.chain && IsChain(v.fats[0], a.t.chain[d]) && a.t.chain[d][0] == d
    ensures v.fats[0][a.t.chain[d][|a.t.chain[d]| - 1]] != 0
    ensures forall i :: 0 <= i < |a.t.chain[d]| ==> 2 <= a.t.chain[d][i] <= g.maxCluster
  {
    hide OwnersOk, UsedOk, SlotsOk, RefsOk;
    assert d in a.t.chain;
    assert IsChain(v.fats[0], a.t.chain[d]);
  }

  lemma DirRange(g: Geometry, v: Vol, a: Abs, d: nat)
    requires Inv(g, v, a) && d in a.dirs
    ensures 2 <= d <= g.maxCluster
  {
    hide Inv, TableOk;
    DirChainOf(g, v, a, d);
  }

  // A free cluster is none of a directory.
  lemma SlotNotFree(g: Geometry, v: Vol, a: Abs, l: Loc, c: nat)
    requires Inv(g, v, a) && DirLoc(g, a, l) && 2 <= c <= g.maxCluster && v.fats[0][c] == 0
    ensures l.c != c
  {
    hide ChainsOk, SlotsOk, RefsOk, DirsOk;
    InvShape(g, v, a);
    FreeIsUnowned(v.fats[0], a.t, c);
  }

  lemma OwnerOf(g: Geometry, v: Vol, a: Abs, d: nat, c: nat)
    requires Inv(g, v, a) && d in a.dirs && d in a.t.chain && c in a.t.chain[d]
    ensures IsDirCluster(a, c) && a.t.own[c] == d
  {
    hide ChainsOk, UsedOk, SlotsOk, RefsOk;
    DirChainClusters(g, v, a, d, c);
  }

  lemma ZeroIsBlank(g: Geometry)
    ensures BlankCluster(ZeroCluster(g))
  {
  }

  // The slot l of directory d is free and may be taken; getting there from v0 changed no entry.
  ghost predicate FreeSlot(g: Geometry, v0: Vol, a0: Abs, v: Vol, a: Abs, d: nat, l: Loc) {
    && Inv(g, v0, a0) && Inv(g, v, a) && a.dirs == a0.dirs && d in a.dirs
    && DirLoc(g, a, l) && a.t.own[l.c] == d && d in a.t.chain
    && !Live(SlotAt(g, v, l)) && Takeable(g, v, a.t.chain[d], l)
    && EntriesBut(g, v0, a0, v, a, l) && FilesKept(g, v0, a0, v)
    && (DirLoc(g, a0, l) ==> !Live(SlotAt(g, v0, l)))
    && (l.c in a0.t.own ==> IsDirCluster(a0, l.c))
    && (forall c :: c in a0.t.own ==> c in a.t.own)
  }

  lemma FreeSlotHere(g: Geometry, v: Vol, a: Abs, d: nat, l: Loc)
    requires Inv(g, v, a) && d in a.dirs && d in a.t.chain && InVol(g, l) && l.c in a.t.chain[d]
    requires !Live(SlotAt(g, v, l)) && Takeable(g, v, a.t.chain[d], l)
    ensures FreeSlot(g, v, a, v, a, d, l)
  {
    InvRange(g, v, a);
    OwnerOf(g, v, a, d, l.c);
    EntriesSelf(g, v, a, l);
    hide Inv, Takeable, EntriesBut, FilesKept;
  }

  ghost predicate AllLive(cl: Cluster) {
    forall t, j :: 0 <= t < |cl| && 0 <= j < 16 ==> Live(SlotOf(cl[t], j))
  }

  // All slots of the directory d are live.
  ghost predicate DirFull(g: Geometry, v: Vol, a: Abs, d: nat)
    requires Shape(g, v) && OwnInRange(g, a.t)
  {
    forall k :: DirLoc(g, a, k) && a.t.own[k.c] == d ==> Live(SlotAt(g, v, k))
  }

  // The directory d has no slot for a new entry, and cannot get one.
  ghost predicate NoSlotLeft(g: Geometry, v: Vol, a: Abs, d: nat)
    requires Shape(g, v) && OwnInRange(g, a.t)
  {
    DirFull(g, v, a, d) && Full(g, v)
  }

  // The clusters that a new slot in the directory d takes.
  ghost function SlotCost(g: Geometry, v: Vol, a: Abs, d: nat): nat
    requires Shape(g, v) && OwnInRange(g, a.t)
  {
    if DirFull(g, v, a, d) then 1 else 0
  }

  lemma StretchCount(g: Geometry, v: Vol, w: Vol, ch: seq<nat>, nc: nat)
    requires Shape(g, v) && Shape(g, w) && 2 <= nc <= g.maxCluster && v.fats[0][nc] == 0 && ch != []
    requires forall i :: 0 <= i < |ch| ==> 2 <= ch[i] <= g.maxCluster
    requires v.fats[0][ch[|ch| - 1]] != 0 && w.fats[0] == LinksMore(v.fats[0], ch, nc)
    ensures |FreeSet(g, v)| == |FreeSet(g, w)| + 1
  {
    assert FreeSet(g, v) == FreeSet(g, w) + {nc};
    assert nc !in FreeSet(g, w);
  }

  lemma FullCount(g: Geometry, v: Vol)
    requires Shape(g, v)
    ensures Full(g, v) <==> |FreeSet(g, v)| == 0
  {
    if !Full(g, v) {
      var c :| 2 <= c <= g.maxCluster && v.fats[0][c] == 0;
      assert c in FreeSet(g, v);
    }
  }

  lemma SlotLeft(g: Geometry, v: Vol, a: Abs, d: nat, l: Loc)
    requires FreeSlot(g, v, a, v, a, d, l) && Shape(g, v) && OwnInRange(g, a.t)
    ensures !NoSlotLeft(g, v, a, d) && !DirFull(g, v, a, d)
  {
    hide Inv, Takeable, EntriesBut, FilesKept;
  }

  lemma AllSlotsLive(g: Geometry, v: Vol, a: Abs, d: nat, ch: seq<nat>)
    requires Inv(g, v, a) && Shape(g, v) && OwnInRange(g, a.t) && d in a.t.chain && ch == a.t.chain[d]
    requires forall b :: 0 <= b < |ch| ==> 2 <= ch[b] <= g.maxCluster && AllLive(v.data[ch[b]])
    ensures DirFull(g, v, a, d)
  {
    hide Inv, IsChain, ChainsOk, Live, SlotOf;
    InvOwners(g, v, a);
    forall k | DirLoc(g, a, k) && a.t.own[k.c] == d ensures Live(SlotAt(g, v, k)) {
      assert k.c in ch;
    }
  }

  // A directory without a free slot has been stretched by a zeroed cluster.
  lemma StretchFree(g: Geometry, v: Vol, w: Vol, a: Abs, d: nat, nc: nat, ch: seq<nat>)
    requires Inv(g, v, a) && d in a.dirs && d in a.t.chain && ch == a.t.chain[d] && ch != []
    requires forall b :: 0 <= b < |ch| ==> 2 <= ch[b] <= g.maxCluster && FullCluster(v.data[ch[b]])
    requires Mirrors(g, w) && 2 <= nc <= g.maxCluster && v.fats[0][nc] == 0
    requires w.fats[0] == LinksMore(v.fats[0], ch, nc) && w.data == v.data[nc := ZeroCluster(g)]
    ensures nc != d && FreeSlot(g, v, a, w, Stretched(a, d, nc), d, Loc(nc, 0, 0))
  {
    hide Inv, TableOk, ChainsOk, FullCluster, BlankCluster, ZeroCluster, EntriesBut, FilesKept, Takeable;
    InvOwners(g, v, a);
    InvShape(g, v, a);
    FreeIsUnowned(v.fats[0], a.t, nc);
    ZeroIsBlank(g);
    StretchData(g, v, w, a, nc);
    Stretch(g, v, w, a, d, nc);
    StretchEntries(g, v, w, a, d, nc, Loc(nc, 0, 0));
    StretchFiles(g, v, w, a, d, ch, nc);
    BlankIsNotLive(g, w, Loc(nc, 0, 0));
    StretchTakeable(g, v, w, a, d, ch, nc);
    StretchParts(a, d, ch, nc);
  }

  lemma StretchData(g: Geometry, v: Vol, w: Vol, a: Abs, nc: nat)
    requires Shape(g, v) && Shape(g, w) && OwnInRange(g, a.t) && 2 <= nc <= g.maxCluster && nc !in a.t.own
    requires w.data == v.data[nc := ZeroCluster(g)]
    ensures w.data[nc] == ZeroCluster(g) && forall c :: c in a.t.own ==> w.data[c] == v.data[c]
  {
  }

  lemma StretchParts(a: Abs, d: nat, ch: seq<nat>, nc: nat)
    requires OwnersOk(a.t) && d in a.dirs && d in a.t.chain && nc !in a.t.own && nc !in a.t.chain && ch == a.t.chain[d]
    ensures var b := Stretched(a, d, nc);
            && b.dirs == a.dirs && d in b.t.chain && b.t.chain[d] == ch + [nc] && nc in b.t.own && b.t.own[nc] == d
            && forall c :: c in a.t.own ==> c in b.t.own
  {
  }

  lemma StretchFiles(g: Geometry, v: Vol, w: Vol, a: Abs, d: nat, ch: seq<nat>, nc: nat)
    requires Shape(g, v) && Shape(g, w) && OwnInRange(g, a.t) && OwnersOk(a.t) && nc !in a.t.own
    requires d in a.dirs && d in a.t.chain && ch == a.t.chain[d] && ch != [] && nc <= g.maxCluster
    requires forall b :: 0 <= b < |ch| ==> 2 <= ch[b] <= g.maxCluster
    requires w.fats[0] == LinksMore(v.fats[0], ch, nc) && w.data == v.data[nc := ZeroCluster(g)]
    ensures FilesKept(g, v, a, w)
  {
    assert ch[|ch| - 1] in ch;
  }

  lemma StretchTakeable(g: Geometry, v: Vol, w: Vol, a: Abs, d: nat, ch: seq<nat>, nc: nat)
    requires g.Valid() && Shape(g, v) && Shape(g, w) && OwnersOk(a.t) && nc !in a.t.own && 2 <= nc <= g.maxCluster
    requires d in a.t.chain && ch == a.t.chain[d]
    requires forall b :: 0 <= b < |ch| ==> 2 <= ch[b] <= g.maxCluster && FullCluster(v.data[ch[b]])
    requires w.data == v.data[nc := ZeroCluster(g)]
    ensures Takeable(g, w, ch + [nc], Loc(nc, 0, 0))
  {
    hide FullCluster;
    var ch2, k := ch + [nc], |ch|;
    assert ch2[k] == nc;
    forall b | 0 <= b < k ensures 2 <= ch2[b] <= g.maxCluster && FullCluster(w.data[ch2[b]]) {
      assert ch2[b] == ch[b] && ch[b] in ch && ch[b] != nc;
    }
    assert FullBefore(w.data[nc], 0, 0);
  }

  // ----- a new entry is written

  // The outcome of create and mkdir: nd is 0 for a file.
  ghost predicate Made(g: Geometry, v0: Vol, a0: Abs, w: Vol, b: Abs, d: nat, name: Name, l: Loc, nd: nat) {
    && Entered(g, v0, a0, w, b, d, name, l) && FilesKept(g, v0, a0, w)
    && First(SlotAt(g, w, l)) == nd && Size(SlotAt(g, w, l)) == 0
    && FreshEntry(EntryAt(g, w, l), Encode(name), if nd != 0 then 0x10 else 0x20, nd)
    && SlotAt(g, w, l)[11] == (if nd != 0 then ATTR_DIR else ATTR_ARCHIVE)
    && b.dirs == (if nd == 0 then a0.dirs else a0.dirs + {nd})
    && (nd != 0 ==> nd !in a0.dirs && forall c :: c in b.t.own && b.t.own[c] == nd ==> c == nd)
  }

  lemma FreeSlotParts(g: Geometry, v0: Vol, a0: Abs, v: Vol, a: Abs, d: nat, l: Loc)
    requires FreeSlot(g, v0, a0, v, a, d, l)
    ensures Inv(g, v0, a0) && Inv(g, v, a) && d in a.dirs && a.dirs == a0.dirs
    ensures g.Valid() && Shape(g, v0) && Shape(g, v) && OwnInRange(g, a0.t) && OwnInRange(g, a.t)
    ensures DirLoc(g, a, l) && a.t.own[l.c] == d && d in a.t.chain && InVol(g, l)
    ensures !Live(SlotAt(g, v, l)) && Takeable(g, v, a.t.chain[d], l)
    ensures EntriesBut(g, v0, a0, v, a, l) && FilesKept(g, v0, a0, v)
    ensures DirLoc(g, a0, l) ==> !Live(SlotAt(g, v0, l))
    ensures l.c in a0.t.own ==> IsDirCluster(a0, l.c)
  {
    InvRange(g, v, a);
    InvRange(g, v0, a0);
    hide Inv, Takeable, EntriesBut, FilesKept;
  }

  lemma NotOwnedBefore(g: Geometry, v0: Vol, a0: Abs, v: Vol, a: Abs, d: nat, l: Loc, nd: nat)
    requires FreeSlot(g, v0, a0, v, a, d, l) && nd !in a.t.own
    ensures nd !in a0.t.own
  {
    hide Inv, Takeable, EntriesBut, FilesKept;
  }

  // A new entry in a free slot; nd is 0 for a file.
  lemma EntryMade(g: Geometry, v0: Vol, a0: Abs, v: Vol, a: Abs, w: Vol, d: nat, name: Name, l: Loc, e: Slot, nd: nat)
    requires FreeSlot(g, v0, a0, v, a, d, l) && Accepts(name) && Mirrors(g, w) && Shape(g, v) && InVol(g, l)
    requires e[..11] == Encode(name) && e[11] == (if nd != 0 then ATTR_DIR else ATTR_ARCHIVE) && First(e) == nd
             && Size(e) == 0 && FreshEntry(e, Encode(name), e[11], nd)
    requires if nd == 0 then w.fats == v.fats
             else 2 <= nd <= g.maxCluster && v.fats[0][nd] == 0 && w.fats[0] == v.fats[0][nd := EOC]
                  && DotsOnly(w.data[nd], nd, d)
    requires w.data[l.c] == PutInCluster(v.data[l.c], l.s, l.i, e)
    requires forall c :: 2 <= c <= g.maxCluster && c != nd && c != l.c ==> w.data[c] == v.data[c]
    ensures Inv(g, w, Grown(a, l, nd)) && Made(g, v0, a0, w, Grown(a, l, nd), d, name, l, nd)
  {
    hide FreeSlot, Inv, Encode, EntriesBut, FilesKept, Takeable, OwnersOk, ChainsOk, TableOk, DotsOnly, Entered;
    EncodedIsReal(name, e);
    NewFlags(e);
    FreeSlotParts(g, v0, a0, v, a, d, l);
    InvShape(g, v, a);
    InvOwners(g, v, a);
    NoZeroCluster(g, v, a);
    if nd != 0 { FreeIsUnowned(v.fats[0], a.t, nd); }
    NotOwnedBefore(g, v0, a0, v, a, d, l, nd);
    PutIsWrite(g, v, w, a, l, nd, e);
    Grow(g, v, w, a, l, nd, e);
    InvRange(g, w, Grown(a, l, nd));
    WriteEntries(g, v, w, a, l, nd, e);
    EntriesJoin(g, v0, a0, v, a, w, Grown(a, l, nd), l);
    hide SlotWrite, Grown, Accepts;
    EntryFiles(g, v0, a0, v, w, l, nd);
    EntryEntered(g, v0, a0, v, a, w, d, name, l, e, nd);
    SlotIs(g, w, l);
    GrownDirs(a, l, nd);
  }

  lemma GrownDirs(a: Abs, l: Loc, nd: nat)
    requires OwnersOk(a.t) && nd !in a.t.own && nd !in a.t.chain && forall d :: d in a.dirs ==> d in a.t.chain
    ensures Grown(a, l, nd).dirs == (if nd == 0 then a.dirs else a.dirs + {nd}) && nd !in a.dirs
    ensures nd != 0 ==> forall c :: c in Grown(a, l, nd).t.own && Grown(a, l, nd).t.own[c] == nd ==> c == nd
  {
  }

  lemma PutIsWrite(g: Geometry, v: Vol, w: Vol, a: Abs, l: Loc, nd: nat, e: Slot)
    requires Shape(g, v) && Shape(g, w) && OwnInRange(g, a.t) && DirLoc(g, a, l) && nd !in a.t.own
    requires w.data[l.c] == PutInCluster(v.data[l.c], l.s, l.i, e)
    requires forall c :: 2 <= c <= g.maxCluster && c != nd && c != l.c ==> w.data[c] == v.data[c]
    ensures SlotWrite(g, v, w, a, l, e)
  {
  }

  lemma EntryFiles(g: Geometry, v0: Vol, a0: Abs, v: Vol, w: Vol, l: Loc, nd: nat)
    requires Shape(g, v0) && OwnInRange(g, a0.t) && Shape(g, v) && Shape(g, w) && FilesKept(g, v0, a0, v)
    requires (l.c in a0.t.own ==> IsDirCluster(a0, l.c)) && nd !in a0.t.own
    requires if nd == 0 then w.fats == v.fats else nd < |v.fats[0]| && w.fats[0] == v.fats[0][nd := EOC]
    requires forall c :: 2 <= c <= g.maxCluster && c != nd && c != l.c ==> w.data[c] == v.data[c]
    ensures FilesKept(g, v0, a0, w)
  {
  }

  lemma EntryEntered(g: Geometry, v0: Vol, a0: Abs, v: Vol, a: Abs, w: Vol, d: nat, name: Name, l: Loc, e: Slot,
                     nd: nat)
    requires Inv(g, v0, a0) && Inv(g, w, Grown(a, l, nd)) && d in a0.dirs && Accepts(name) && InVol(g, l)
    requires Shape(g, v0) && OwnInRange(g, a0.t) && Shape(g, v) && Shape(g, w) && OwnInRange(g, Grown(a, l, nd).t)
    requires EntriesBut(g, v0, a0, w, Grown(a, l, nd), l)
    requires DirLoc(g, a0, l) ==> !Live(SlotAt(g, v0, l))
    requires DirLoc(g, a, l) && a.t.own[l.c] == d && nd !in a.t.own
    requires w.data[l.c] == PutInCluster(v.data[l.c], l.s, l.i, e) && e[..11] == Encode(name) && Live(e)
    ensures Entered(g, v0, a0, w, Grown(a, l, nd), d, name, l) && SlotAt(g, w, l) == e
  {
    hide Inv, EntriesBut, Encode;
  }

  lemma NoZeroCluster(g: Geometry, v: Vol, a: Abs)
    requires Inv(g, v, a)
    ensures 0 !in a.t.chain && 0 !in a.t.own && forall d :: d in a.dirs ==> d in a.t.chain
  {
    hide OwnersOk, UsedOk, SlotsOk, RefsOk;
    ZeroIsNoChain(v.fats[0], a.t);
  }

  lemma NewFlags(e: Slot)
    requires e[11] == ATTR_ARCHIVE || e[11] == ATTR_DIR
    ensures !IsVolume(e) && (IsDir(e) <==> e[11] == ATTR_DIR)
  {
  }

  // The first sector of a new directory, from a blank one.
  function DotSector(blank: Sector, x: Slot, y: Slot): (r: Sector)
    ensures SlotOf(r, 0) == x && SlotOf(r, 1) == y
    ensures forall j :: 2 <= j < 16 ==> SlotOf(r, j) == SlotOf(blank, j) && Tag(r, j) == Tag(blank, j)
  {
    var s := PutSlot(blank, 0, x);
    PutSlot(s, 1, y)
  }

  function DotCluster(g: Geometry, x: Slot, y: Slot): (r: Cluster)
    requires g.Valid()
    ensures |r| == g.spc
  {
    var z: Cluster := ZeroCluster(g);
    var s: Sector := z[0];
    z[0 := DotSector(s, x, y)]
  }

  lemma DotNames(e: Slot, nd: nat, d: nat)
    requires DotEntry(e, DOT_NAME, nd) || DotEntry(e, DOTDOT_NAME, d)
    ensures DotOk(e, nd, d) && e[0] != 0
  {
    hide First, Size, ParentIs;
    assert e[0] == e[..11][0] && e[1] == e[..11][1] && e[2] == e[..11][2];
  }

  lemma DotSectorOk(blank: Sector, x: Slot, y: Slot, nd: nat, d: nat)
    requires BlankSector(blank) && DotOk(x, nd, d) && DotOk(y, nd, d) && x[0] != 0 && y[0] != 0
    ensures TidySector(DotSector(blank, x, y))
    ensures forall j :: 0 <= j < 16 && Live(SlotOf(DotSector(blank, x, y), j)) ==>
              DotOk(SlotOf(DotSector(blank, x, y), j), nd, d)
  {
    hide DotOk;
    var s := DotSector(blank, x, y);
    assert forall j :: 0 <= j < 16 ==> SlotOf(s, j)[0] == Tag(s, j);
    hide DotSector;
    assert Tag(s, 0) == x[0] && Tag(s, 1) == y[0];
    assert forall j :: 2 <= j < 16 ==> Tag(s, j) == 0;
  }

  lemma DotClusterOk(g: Geometry, x: Slot, y: Slot, nd: nat, d: nat)
    requires g.Valid() && DotOk(x, nd, d) && DotOk(y, nd, d) && x[0] != 0 && y[0] != 0
    ensures DotsOnly(DotCluster(g, x, y), nd, d)
  {
    ZeroIsBlank(g);
    var z: Cluster := ZeroCluster(g);
    assert forall s :: 0 <= s < g.spc ==> BlankSector(z[s]);
    DotSectorOk(z[0], x, y, nd, d);
    hide DotSector, DotOk, ZeroCluster;
    var cl := DotCluster(g, x, y);
    forall t, j | 0 <= t < |cl| && 0 <= j < 16 && Live(SlotOf(cl[t], j)) ensures DotOk(SlotOf(cl[t], j), nd, d) {
      assert SlotOf(cl[t], j)[0] == Tag(cl[t], j);
    }
  }

  // The first two entries of the directory nd point to itself and to its parent d.
  ghost predicate HasDots(g: Geometry, v: Vol, nd: nat, d: nat) {
    && g.Valid() && Shape(g, v) && 2 <= nd <= g.maxCluster
    && DotEntry(SlotOf(v.data[nd][0], 0), DOT_NAME, nd) && DotEntry(SlotOf(v.data[nd][0], 1), DOTDOT_NAME, d)
    && OnlyTwo(v.data[nd])
  }

  ghost predicate OnlyTwo(cl: Cluster) {
    forall t, i :: 0 <= t < |cl| && 0 <= i < 16 && Live(SlotOf(cl[t], i)) ==> t == 0 && i < 2
  }

  lemma DotClusterTwo(g: Geometry, x: Slot, y: Slot)
    requires g.Valid()
    ensures OnlyTwo(DotCluster(g, x, y))
  {
    ZeroIsBlank(g);
    var z: Cluster := ZeroCluster(g);
    assert forall s :: 0 <= s < g.spc ==> BlankSector(z[s]);
    hide DotSector, ZeroCluster;
    var cl := DotCluster(g, x, y);
    forall t, i | 0 <= t < |cl| && 0 <= i < 16 && Live(SlotOf(cl[t], i)) ensures t == 0 && i < 2 {
      assert SlotOf(cl[t], i)[0] == Tag(cl[t], i);
    }
  }

  lemma DotsDiffer(x: Slot, y: Slot)
    requires x[..11] == DOT_NAME && y[..11] == DOTDOT_NAME
    ensures !NameEq(Decode(x), Decode(y)) && !NameEq(Decode(y), Decode(x))
  {
    DotDecodes(x, 1);
    DotDecodes(y, 2);
  }

  lemma DotDecodes(e: Slot, n: nat)
    requires if n == 1 then e[..11] == DOT_NAME else n == 2 && e[..11] == DOTDOT_NAME
    ensures |Decode(e)| == n
  {
    var b := e[..8];
    assert forall i :: 0 <= i < 11 ==> e[i] == e[..11][i];
    assert b[1..][1..] == b[2..];
    assert UpToSpace(b[2..]) == [];
    assert UpToSpace(b[1..]) == if n == 1 then [] else [b[1]];
    assert UpToSpace(b) == b[..n];
  }

  // A new directory holds nothing but its two dot entries, whose names differ.
  lemma NewDirUnique(g: Geometry, w: Vol, b: Abs, nd: nat, d: nat)
    requires HasDots(g, w, nd, d) && OwnInRange(g, b.t) && forall c :: c in b.t.own && b.t.own[c] == nd ==> c == nd
    ensures UniqueIn(g, w, b, nd)
  {
    hide Decode, First, Size;
    DotsDiffer(SlotOf(w.data[nd][0], 0), SlotOf(w.data[nd][0], 1));
    forall k, l | LiveIn(g, w, b, nd, k) && LiveIn(g, w, b, nd, l)
                  && NameEq(Decode(SlotAt(g, w, k)), Decode(SlotAt(g, w, l)))
      ensures k == l
    {
      hide NameEq;
      assert k.c == nd && l.c == nd && k.s == 0 && l.s == 0 && k.i < 2 && l.i < 2;
    }
  }

  /** Create and mkdir keep the names in all directories unique if and only if the parent has no
      entry with the new name, less a dot that ends it. */
  lemma MadeUnique(g: Geometry, v: Vol, a: Abs, w: Vol, b: Abs, d: nat, name: Name, l: Loc, nd: nat)
    requires Made(g, v, a, w, b, d, name, l, nd) && Shape(g, v) && OwnInRange(g, a.t) && Unique(g, v, a)
    requires nd != 0 ==> HasDots(g, w, nd, d)
    ensures Shape(g, w) && OwnInRange(g, b.t)
    ensures Unique(g, w, b) <==> DirFind(g, v, d, Strip(name)).None?
  {
    hide Inv, DirFind, HasDots, FilesKept, UniqueIn, Encode, LiveIn;
    InvRange(g, w, b);
    EnteredUnique(g, v, a, w, b, d, name, l);
    if nd != 0 { NewDirUnique(g, w, b, nd, d); }
    forall x | x in a.dirs && x != d ensures UniqueIn(g, w, b, x) {
      NotLiveElsewhere(g, w, b, d, l, x);
      OtherDirs(g, v, a, w, b, d, l, x);
    }
    assert d in b.dirs;
  }

  lemma NotLiveElsewhere(g: Geometry, w: Vol, b: Abs, d: nat, l: Loc, x: nat)
    requires Shape(g, w) && OwnInRange(g, b.t) && LiveIn(g, w, b, d, l) && x != d
    ensures !LiveIn(g, w, b, x, l)
  {
  }

  predicate DotEntry(e: Slot, name: seq<byte>, first: nat) {
    e[..11] == name && e[11] == ATTR_DIR && First(e) == first && Size(e) == 0 && FreshEntry(e, name, 0x10, first)
  }

  lemma DotClusterHas(g: Geometry, x: Slot, y: Slot, nd: nat, d: nat, v: Vol)
    requires g.Valid() && Shape(g, v) && 2 <= nd <= g.maxCluster && v.data[nd] == DotCluster(g, x, y)
    requires DotEntry(x, DOT_NAME, nd) && DotEntry(y, DOTDOT_NAME, d)
    ensures HasDots(g, v, nd, d) && DotsOnly(v.data[nd], nd, d)
  {
    DotNames(x, nd, d);
    DotNames(y, nd, d);
    DotClusterOk(g, x, y, nd, d);
    DotClusterTwo(g, x, y);
    hide DotEntry, DotsOnly, DotOk, ZeroCluster, OnlyTwo;
  }

  lemma HasDotsSame(g: Geometry, v: Vol, w: Vol, nd: nat, d: nat)
    requires HasDots(g, v, nd, d) && Shape(g, w) && w.data[nd] == v.data[nd]
    ensures HasDots(g, w, nd, d)
  {
  }

  // The directory d has the same live entries.
  ghost predicate SameIn(g: Geometry, v: Vol, a: Abs, w: Vol, b: Abs, d: nat)
    requires Shape(g, v) && OwnInRange(g, a.t) && Shape(g, w) && OwnInRange(g, b.t)
  {
    forall k ::
      && (LiveIn(g, v, a, d, k) <==> LiveIn(g, w, b, d, k))
      && (LiveIn(g, v, a, d, k) ==> SlotAt(g, v, k) == SlotAt(g, w, k))
  }

  // The outcome of a failed create or mkdir: the same directories with the same live entries.
  ghost predicate Quiet(g: Geometry, v: Vol, a: Abs, w: Vol, b: Abs) {
    && Inv(g, v, a) && Inv(g, w, b) && b.dirs == a.dirs && FilesKept(g, v, a, w)
    && forall d :: d in a.dirs ==> SameIn(g, v, a, w, b, d)
  }

  lemma QuietSelf(g: Geometry, v: Vol, a: Abs)
    requires Inv(g, v, a)
    ensures Quiet(g, v, a, v, a)
  {
    InvRange(g, v, a);
    hide Inv;
  }

  lemma NeitherLive(g: Geometry, v: Vol, a: Abs, w: Vol, b: Abs, d: nat, l: Loc)
    requires Shape(g, v) && OwnInRange(g, a.t) && Shape(g, w) && OwnInRange(g, b.t) && SameBut(g, v, a, w, b, d, l)
    requires !LiveIn(g, v, a, d, l) && !LiveIn(g, w, b, d, l)
    ensures SameIn(g, v, a, w, b, d)
  {
  }

  lemma FreeSlotQuiet(g: Geometry, v0: Vol, a0: Abs, v: Vol, a: Abs, d: nat, l: Loc)
    requires FreeSlot(g, v0, a0, v, a, d, l)
    ensures Quiet(g, v0, a0, v, a)
  {
    FreeSlotParts(g, v0, a0, v, a, d, l);
    hide Inv, FreeSlot, Takeable, FilesKept, SameBut, SameIn;
    forall x | x in a.dirs ensures SameIn(g, v0, a0, v, a, x) {
      NeitherLive(g, v0, a0, v, a, x, l);
    }
  }
}
