/**
 What a reader sees if the machine stops in the middle of an operation other than a file write:
 up to one sector write the volume before, from it on the volume after.
 */
module Fat32Atomic {
  import opened Bytes
  import opened Fat32Chains
  import opened Fat32Volume
  import opened Fat32Dirs
  import opened Fat32State
  import opened Fat32Files
  import opened Fat32Crash
  import opened Fat32Steps
  import opened Fat32Append
  import opened Fat32Lookup
  import opened Fat32Remove

  // Every image since the history tr reads as v.
  ghost predicate StillOld(g: Geometry, v: Vol, tr: seq<Vol>, tr2: seq<Vol>) {
    tr <= tr2 && forall i :: |tr| <= i < |tr2| ==> ReadsOld(g, v, tr2[i])
  }

  // Since the history tr, the images before the position sw read as v, and those from it on as w.
  ghost predicate SwitchedAt(g: Geometry, v: Vol, tr: seq<Vol>, w: Vol, tr2: seq<Vol>, sw: nat) {
    && tr <= tr2 && |tr| <= sw <= |tr2|
    && (forall i :: |tr| <= i < sw ==> ReadsOld(g, v, tr2[i]))
    && forall i :: sw <= i < |tr2| ==> ReadsOld(g, w, tr2[i])
  }

  ghost predicate Atomic(g: Geometry, v: Vol, tr: seq<Vol>, w: Vol, tr2: seq<Vol>) {
    exists sw: nat :: SwitchedAt(g, v, tr, w, tr2, sw)
  }

  // The same for the file at l: from sw on it has the bytes "all", and nothing else has changed.
  ghost predicate NewFrom(g: Geometry, v: Vol, tr: seq<Vol>, tr2: seq<Vol>, l: Loc, all: seq<byte>, sw: nat) {
    && tr <= tr2 && |tr| <= sw <= |tr2|
    && (forall i :: |tr| <= i < sw ==> ReadsOld(g, v, tr2[i]))
    && forall i :: sw <= i < |tr2| ==> ReadsNew(g, v, tr2[i], l, all)
  }

  lemma AtomicOld(g: Geometry, v: Vol, tr: seq<Vol>, w: Vol, tr2: seq<Vol>)
    requires StillOld(g, v, tr, tr2)
    ensures Atomic(g, v, tr, w, tr2)
  {
    assert SwitchedAt(g, v, tr, w, tr2, |tr2|);
  }

  // The last write makes the switch.
  lemma AtomicLast(g: Geometry, v: Vol, tr: seq<Vol>, tr2: seq<Vol>, w: Vol)
    requires StillOld(g, v, tr, tr2) && Shape(g, w)
    ensures Atomic(g, v, tr, w, tr2 + [w])
  {
    SameOldImage(g, w);
    assert SwitchedAt(g, v, tr, w, tr2 + [w], |tr2|);
  }

  // The first write makes the switch.
  lemma AtomicFirst(g: Geometry, v: Vol, tr: seq<Vol>, w: Vol, tr2: seq<Vol>)
    requires StillOld(g, w, tr, tr2)
    ensures Atomic(g, v, tr, w, tr2)
  {
    assert SwitchedAt(g, v, tr, w, tr2, |tr|);
  }

  lemma ReadsJoin(g: Geometry, u: Vol, v: Vol, w: Vol)
    requires ReadsOld(g, u, v) && ReadsOld(g, v, w)
    ensures ReadsOld(g, u, w)
  {
    hide ThroughDirs, Resolve, ReadPath;
    forall path | ThroughDirs(g, u, g.root, path)
      ensures |path| >= 1 && SamePath(g, u, w, path) && ReadPath(g, w, path) == ReadPath(g, u, path)
    {
      PathNotEmpty(g, u, g.root, path);
      assert SamePath(g, u, v, path);
    }
  }

  // The images since tr read as v, and so does the volume reached.
  ghost predicate Still(g: Geometry, v: Vol, tr: seq<Vol>, w: Vol, tr2: seq<Vol>) {
    StillOld(g, v, tr, tr2) && ReadsOld(g, v, w)
  }

  lemma StillHere(g: Geometry, v: Vol, tr: seq<Vol>)
    requires Shape(g, v)
    ensures Still(g, v, tr, v, tr)
  {
    SameOldImage(g, v);
  }

  lemma StillJoin(g: Geometry, u: Vol, tr: seq<Vol>, v: Vol, tr2: seq<Vol>, tr3: seq<Vol>)
    requires StillOld(g, u, tr, tr2) && ReadsOld(g, u, v) && StillOld(g, v, tr2, tr3)
    ensures StillOld(g, u, tr, tr3)
  {
    hide ReadsOld;
    forall i | |tr| <= i < |tr3| ensures ReadsOld(g, u, tr3[i]) {
      if i < |tr2| { assert tr3[i] == tr2[i]; } else { ReadsJoin(g, u, v, tr3[i]); }
    }
  }

  // ----- images that look alike

  // w has the links and the data of v, in the copy of the table that is read.
  ghost predicate SameView(g: Geometry, v: Vol, w: Vol) {
    Shape(g, v) && Shape(g, w) && w.fats[0] == v.fats[0] && w.data == v.data
  }

  lemma ViewReads(g: Geometry, v: Vol, w: Vol, a: Abs)
    requires Inv(g, v, a) && SameView(g, v, w)
    ensures ReadsOld(g, v, w)
  {
    hide Inv, OldImage;
    InvShape(g, v, a);
    BeforeSwitch(g, v, w, a);
  }

  ghost predicate SameLookups(g: Geometry, v: Vol, w: Vol, a: Abs)
    requires Shape(g, v) && Shape(g, w)
  {
    forall x, n :: x in a.dirs ==> DirFind(g, w, x, n) == DirFind(g, v, x, n)
  }

  ghost predicate SameSlots(g: Geometry, v: Vol, w: Vol, a: Abs)
    requires Shape(g, v) && Shape(g, w) && OwnInRange(g, a.t)
  {
    forall k :: DirLoc(g, a, k) ==> SlotAt(g, w, k) == SlotAt(g, v, k)
  }

  ghost predicate SameFiles(g: Geometry, v: Vol, w: Vol, a: Abs)
    requires Shape(g, v) && Shape(g, w) && OwnInRange(g, a.t)
  {
    forall k :: DirLoc(g, a, k) && Known(g, a, k, SlotAt(g, v, k)) && !IsDir(SlotAt(g, v, k)) ==>
      Content(g, w, SlotAt(g, v, k)) == Content(g, v, SlotAt(g, v, k))
  }

  lemma {:induction false} AlikeResolve(g: Geometry, v: Vol, w: Vol, a: Abs, d: nat, path: seq<Name>)
    requires Inv(g, v, a) && Shape(g, v) && Shape(g, w) && OwnInRange(g, a.t)
    requires SameLookups(g, v, w, a) && SameSlots(g, v, w, a) && d in a.dirs && ThroughDirs(g, v, d, path)
    ensures ThroughDirs(g, w, d, path) && Resolve(g, w, d, path) == Resolve(g, v, d, path)
    ensures var r := Resolve(g, v, d, path); r.Some? ==> Known(g, a, r.value, SlotAt(g, v, r.value))
    decreases |path|
  {
    hide Inv, OwnInRange, DirFind, SlotOf, First, RealOk, IsDir, Real;
    var r := DirFind(g, v, d, path[0]);
    assert DirFind(g, w, d, path[0]) == r;
    if r.Some? {
      FoundIsEntry(g, v, a, d, path[0]);
      if |path| > 1 {
        AlikeResolve(g, v, w, a, Below(g, SlotAt(g, v, r.value)), path[1..]);
      }
    }
  }

  /** Images with the same lookups, entries and contents of files read alike. */
  lemma AlikeReads(g: Geometry, v: Vol, w: Vol, a: Abs)
    requires Inv(g, v, a) && Shape(g, v) && Shape(g, w) && OwnInRange(g, a.t)
    requires SameLookups(g, v, w, a) && SameSlots(g, v, w, a) && SameFiles(g, v, w, a)
    ensures ReadsOld(g, v, w)
  {
    hide Inv, OwnInRange, SameLookups, Resolve, ThroughDirs, Content, SlotOf, RealOk, IsDir, Real;
    InvRange(g, v, a);
    forall path | ThroughDirs(g, v, g.root, path)
      ensures |path| >= 1 && SamePath(g, v, w, path) && ReadPath(g, w, path) == ReadPath(g, v, path)
    {
      PathNotEmpty(g, v, g.root, path);
      AlikeResolve(g, v, w, a, g.root, path);
    }
  }

  // The clusters of a file, and where they are.
  lemma FileOwns(g: Geometry, v: Vol, a: Abs, f: nat)
    requires Inv(g, v, a) && f in a.t.chain && f !in a.dirs
    ensures forall c :: c in a.t.chain[f] ==> 2 <= c <= g.maxCluster && c in a.t.own && a.t.own[c] == f
  {
    hide Inv, TableOk, OwnersOk, ChainsOk;
    InvShape(g, v, a);
    InvOwners(g, v, a);
    FileClusters(g, a, f);
  }

  // A file none of whose clusters has changed.
  lemma FileAlike(g: Geometry, v: Vol, w: Vol, a: Abs, e: Slot)
    requires Inv(g, v, a) && Shape(g, v) && Shape(g, w) && FileOk(g, a, e) && OwnInRange(g, a.t)
    requires forall c :: c in a.t.own && a.t.own[c] == First(e) ==>
               w.fats[0][c] == v.fats[0][c] && w.data[c] == v.data[c]
    ensures Content(g, w, e) == Content(g, v, e)
  {
    hide Inv, First, Content, IsChain, OwnersOk, ChainsOk, Fits, Size, CopiesAgree;
    InvOwners(g, v, a);
    InvRange(g, v, a);
    if First(e) != 0 { FileOwns(g, v, a, First(e)); }
    ContentSame(g, v, w, a, e);
  }

  lemma KeptFiles(g: Geometry, v: Vol, w: Vol, a: Abs)
    requires Inv(g, v, a) && Shape(g, v) && Shape(g, w) && OwnInRange(g, a.t) && FilesKept(g, v, a, w)
    ensures SameFiles(g, v, w, a)
  {
    hide Inv, First, Content, SlotOf, Fits;
    NoZeroCluster(g, v, a);
    forall k | DirLoc(g, a, k) && Known(g, a, k, SlotAt(g, v, k)) && !IsDir(SlotAt(g, v, k))
      ensures Content(g, w, SlotAt(g, v, k)) == Content(g, v, SlotAt(g, v, k))
    {
      FileAlike(g, v, w, a, SlotAt(g, v, k));
    }
  }

  lemma KeptSlots(g: Geometry, v: Vol, w: Vol, a: Abs)
    requires Shape(g, v) && Shape(g, w) && OwnInRange(g, a.t) && forall c :: c in a.t.own ==> w.data[c] == v.data[c]
    ensures SameSlots(g, v, w, a)
  {
    hide SlotOf;
  }

  // ----- a directory is stretched by a blank cluster

  lemma FullSector(sec: Sector, i: nat, name: Name)
    requires i <= 16 && forall j :: i <= j < 16 ==> Tag(sec, j) != 0
    ensures !ScanSector(sec, i, name).Stop?
    decreases 16 - i
  {
    hide Matches;
    if i < 16 { FullSector(sec, i + 1, name); }
  }

  lemma {:induction false} FullScan(cl: Cluster, s: nat, name: Name)
    requires FullCluster(cl) && s <= |cl|
    ensures !ScanCluster(cl, s, name).Stop?
    decreases |cl| - s
  {
    hide ScanSector;
    if s < |cl| {
      FullSector(cl[s], 0, name);
      FullScan(cl, s + 1, name);
    }
  }

  lemma BlankScan(g: Geometry, name: Name)
    requires g.Valid()
    ensures ScanCluster(ZeroCluster(g), 0, name) == Stop
  {
    var z: Cluster := ZeroCluster(g);
    assert Tag(z[0], 0) == 0;
    assert ScanSector(z[0], 0, name) == Stop;
  }

  // A lookup that goes on into the blank cluster finds nothing there.
  lemma {:induction false} FindStretched(g: Geometry, v: Vol, w: Vol, ch: seq<nat>, nc: nat, name: Name)
    requires g.Valid() && Shape(g, v) && Shape(g, w) && 2 <= nc <= g.maxCluster && w.data[nc] == ZeroCluster(g)
    requires forall i :: 0 <= i < |ch| ==>
               2 <= ch[i] <= g.maxCluster && FullCluster(v.data[ch[i]]) && w.data[ch[i]] == v.data[ch[i]]
    ensures FindInChain(g, w, ch + [nc], name) == FindInChain(g, v, ch, name)
  {
    hide ScanCluster, Matches, FullCluster;
    if ch == [] {
      BlankScan(g, name);
      assert ([] + [nc])[0] == nc;
    } else {
      FullScan(v.data[ch[0]], 0, name);
      assert (ch + [nc])[1..] == ch[1..] + [nc];
      FindStretched(g, v, w, ch[1..], nc, name);
    }
  }

  // What StretchFree assumes: the directory d of chain ch is full and gets the blank cluster nc.
  ghost predicate StretchedBy(g: Geometry, v: Vol, w: Vol, a: Abs, d: nat, nc: nat, ch: seq<nat>) {
    && Inv(g, v, a) && d in a.dirs && d in a.t.chain && ch == a.t.chain[d] && ch != [] && Shape(g, v) && nc != d
    && (forall b :: 0 <= b < |ch| ==> 2 <= ch[b] <= g.maxCluster && FullCluster(v.data[ch[b]]))
    && Mirrors(g, w) && 2 <= nc <= g.maxCluster && v.fats[0][nc] == 0
    && w.fats[0] == LinksMore(v.fats[0], ch, nc) && w.data == v.data[nc := ZeroCluster(g)]
  }

  lemma StretchedDirs(g: Geometry, v: Vol, w: Vol, a: Abs, d: nat, nc: nat, ch: seq<nat>)
    requires g.Valid() && Shape(g, v) && Shape(g, w) && OwnInRange(g, a.t) && OwnersOk(a.t)
    requires d in a.t.chain && ch == a.t.chain[d] && ch != [] && 2 <= nc <= g.maxCluster && nc !in a.t.own
    requires forall b :: 0 <= b < |ch| ==> 2 <= ch[b] <= g.maxCluster
    requires w.fats[0] == LinksMore(v.fats[0], ch, nc) && w.data == v.data[nc := ZeroCluster(g)]
    ensures DirsBut(g, v, a, w, d)
  {
    assert ch[|ch| - 1] in ch;
  }

  lemma StretchedChain(g: Geometry, v: Vol, w: Vol, a: Abs, d: nat, nc: nat, ch: seq<nat>)
    requires StretchedBy(g, v, w, a, d, nc, ch) && OwnersOk(a.t) && nc !in a.t.own && nc !in a.t.chain
    requires Inv(g, w, Stretched(a, d, nc))
    ensures Walk(v.fats[0], d, g.maxCluster) == ch && Walk(w.fats[0], d, g.maxCluster) == ch + [nc]
  {
    hide Inv, FullCluster, IsChain, LinksMore, ZeroCluster, OwnersOk, ChainsOk, CopiesAgree, Walk;
    var b := Stretched(a, d, nc);
    StretchParts(a, d, ch, nc);
    InvOwners(g, v, a);
    InvOwners(g, w, b);
    WalkIsChain(g, v, a.t, d);
    WalkIsChain(g, w, b.t, d);
  }

  lemma StretchedData(g: Geometry, v: Vol, w: Vol, a: Abs, d: nat, nc: nat, ch: seq<nat>)
    requires StretchedBy(g, v, w, a, d, nc, ch) && OwnersOk(a.t) && nc !in a.t.own
    ensures forall i :: 0 <= i < |ch| ==> w.data[ch[i]] == v.data[ch[i]]
  {
    hide Inv, FullCluster, LinksMore, ZeroCluster;
    forall i | 0 <= i < |ch| ensures w.data[ch[i]] == v.data[ch[i]] { assert ch[i] in ch; }
  }

  lemma StretchLookup(g: Geometry, v: Vol, w: Vol, a: Abs, d: nat, nc: nat, ch: seq<nat>, n: Name)
    requires StretchedBy(g, v, w, a, d, nc, ch) && OwnersOk(a.t) && nc !in a.t.own && nc !in a.t.chain
    requires Inv(g, w, Stretched(a, d, nc))
    ensures DirFind(g, w, d, n) == DirFind(g, v, d, n)
  {
    hide Inv, OwnersOk, FullCluster, Matches, LinksMore, ZeroCluster, FindInChain;
    StretchedChain(g, v, w, a, d, nc, ch);
    StretchedData(g, v, w, a, d, nc, ch);
    FindStretched(g, v, w, ch, nc, n);
  }

  lemma StretchLookups(g: Geometry, v: Vol, w: Vol, a: Abs, d: nat, nc: nat, ch: seq<nat>)
    requires StretchedBy(g, v, w, a, d, nc, ch) && OwnersOk(a.t) && OwnInRange(g, a.t) && nc !in a.t.own
             && nc !in a.t.chain
    requires Inv(g, w, Stretched(a, d, nc))
    ensures SameLookups(g, v, w, a)
  {
    hide Inv, OwnersOk, OwnInRange, DirFind, FullCluster, LinksMore, ZeroCluster;
    StretchedDirs(g, v, w, a, d, nc, ch);
    forall x, n | x in a.dirs ensures DirFind(g, w, x, n) == DirFind(g, v, x, n) {
      if x == d { StretchLookup(g, v, w, a, d, nc, ch, n); } else { FindBut(g, v, a, w, d, x, n); }
    }
  }

  /** A directory that is stretched reads as it did. */
  lemma StretchReads(g: Geometry, v: Vol, w: Vol, a: Abs, d: nat, nc: nat, ch: seq<nat>)
    requires StretchedBy(g, v, w, a, d, nc, ch)
    ensures Inv(g, w, Stretched(a, d, nc)) && ReadsOld(g, v, w)
  {
    hide Inv, TableOk, OwnersOk, ChainsOk, FullCluster, LinksMore, ZeroCluster, FreeSlot, SameLookups, SameFiles,
         SameSlots, SlotOf;
    hide Stretched, Takeable, EntriesBut, FilesKept, Live;
    InvOwners(g, v, a);
    InvShape(g, v, a);
    FreeIsUnowned(v.fats[0], a.t, nc);
    StretchFree(g, v, w, a, d, nc, ch);
    FreeSlotParts(g, v, a, w, Stretched(a, d, nc), d, Loc(nc, 0, 0));
    StretchLookups(g, v, w, a, d, nc, ch);
    KeptFiles(g, v, w, a);
    StretchData(g, v, w, a, nc);
    KeptSlots(g, v, w, a);
    AlikeReads(g, v, w, a);
  }

  // The two rewrites of links after the allocation, of which the second changes nothing.
  lemma LinkedTwice(g: Geometry, v: Vol, tr: seq<Vol>, v1: Vol, tr1: seq<Vol>, v2: Vol, tr2: seq<Vol>, v3: Vol,
                    tr3: seq<Vol>, nc: nat)
    requires Shape(g, v) && Steps(g, v, tr, v1, tr1, {nc}) && tr1 <= tr2 && tr2 <= tr3 && SameView(g, v3, v2)
    requires forall i :: |tr1| <= i < |tr2| ==> SameView(g, v2, tr2[i])
    requires forall i :: |tr2| <= i < |tr3| ==> SameView(g, v3, tr3[i])
    ensures LinkImages(g, v, tr, v3, tr3, nc)
  {
    hide Only;
    forall i | |tr| <= i < |tr3| ensures Only(g, v, tr3[i], {nc}) || SameView(g, v3, tr3[i]) {
      if i < |tr1| { assert tr3[i] == tr1[i]; } else if i < |tr2| { assert tr3[i] == tr2[i]; }
    }
  }

  // The images while the cluster nc is allocated and linked behind a chain.
  ghost predicate LinkImages(g: Geometry, v: Vol, tr: seq<Vol>, w: Vol, tr2: seq<Vol>, nc: nat) {
    && Shape(g, v) && tr <= tr2
    && forall i :: |tr| <= i < |tr2| ==> Only(g, v, tr2[i], {nc}) || SameView(g, w, tr2[i])
  }

  lemma StretchStill(g: Geometry, v: Vol, tr: seq<Vol>, w: Vol, tr2: seq<Vol>, a: Abs, d: nat, nc: nat, ch: seq<nat>)
    requires StretchedBy(g, v, w, a, d, nc, ch) && LinkImages(g, v, tr, w, tr2, nc)
    ensures StillOld(g, v, tr, tr2)
  {
    StretchReads(g, v, w, a, d, nc, ch);
    hide Inv, OldImage, KeepsUsed, TableOk, OwnInRange, Only, LinksMore, ZeroCluster, FullCluster;
    InvShape(g, v, a);
    FreeIsApart(g, v, a, nc);
    forall i | |tr| <= i < |tr2| ensures ReadsOld(g, v, tr2[i]) {
      if SameView(g, w, tr2[i]) {
        ViewReads(g, w, tr2[i], Stretched(a, d, nc));
        ReadsJoin(g, v, w, tr2[i]);
      } else {
        AloneReads(g, v, a, tr2[i], nc);
      }
    }
  }

  lemma FreeIsApart(g: Geometry, v: Vol, a: Abs, nc: nat)
    requires Inv(g, v, a) && 2 <= nc <= g.maxCluster && v.fats[0][nc] == 0
    ensures nc !in a.t.own
  {
    hide ChainsOk, SlotsOk, RefsOk, DirsOk;
    InvShape(g, v, a);
    FreeIsUnowned(v.fats[0], a.t, nc);
  }

  // An image that differs from v only in a cluster that is not in use.
  lemma AloneReads(g: Geometry, v: Vol, a: Abs, w: Vol, nc: nat)
    requires Inv(g, v, a) && Shape(g, v) && Only(g, v, w, {nc}) && nc !in a.t.own
    ensures ReadsOld(g, v, w)
  {
    hide Inv, OldImage, TableOk;
    InvShape(g, v, a);
    BeforeSwitch(g, v, w, a);
  }

  lemma AllocImages(g: Geometry, v: Vol, tr: seq<Vol>, w: Vol, tr2: seq<Vol>, nc: nat)
    requires Shape(g, v) && Steps(g, v, tr, w, tr2, {nc})
    ensures tr <= tr2 && Only(g, v, w, {nc}) && forall i :: |tr| <= i < |tr2| ==> Only(g, v, tr2[i], {nc})
  {
    hide Only;
  }

  lemma OnlyPut(g: Geometry, v: Vol, v1: Vol, w: Vol, nc: nat)
    requires Shape(g, v) && Only(g, v, v1, {nc}) && 2 <= nc <= g.maxCluster
    requires Shape(g, w) && w.fats == v1.fats && w.data == v1.data[nc := w.data[nc]]
    ensures Only(g, v, w, {nc})
  {
  }

  // Images that differ from v only in clusters that are not in use.
  lemma ApartStill(g: Geometry, v: Vol, a: Abs, tr: seq<Vol>, tr2: seq<Vol>, T: set<nat>)
    requires Inv(g, v, a) && Shape(g, v) && tr <= tr2 && forall i :: |tr| <= i < |tr2| ==> Only(g, v, tr2[i], T)
    requires forall c :: c in T ==> c !in a.t.own
    ensures StillOld(g, v, tr, tr2)
  {
    hide Inv, OldImage, TableOk;
    InvShape(g, v, a);
    forall i | |tr| <= i < |tr2| ensures ReadsOld(g, v, tr2[i]) { BeforeSwitch(g, v, tr2[i], a); }
  }

  // ----- a removal

  // What the images of a removal may differ in from the volume w after it.
  ghost predicate ErasedImages(g: Geometry, tr: seq<Vol>, w: Vol, tr2: seq<Vol>, ch: seq<nat>) {
    Shape(g, w) && tr <= tr2 && forall i :: |tr| <= i < |tr2| ==> Only(g, w, tr2[i], Members(ch))
  }

  lemma EraseImages(g: Geometry, tr: seq<Vol>, v1: Vol, tr1: seq<Vol>, w: Vol, tr2: seq<Vol>, ch: seq<nat>)
    requires Shape(g, v1) && tr1 == tr + [v1] && Steps(g, v1, tr1, w, tr2, Members(ch))
    ensures ErasedImages(g, tr, w, tr2, ch)
  {
    hide Members;
    forall i | |tr| <= i < |tr2| ensures Only(g, w, tr2[i], Members(ch)) {
      if i == |tr| { assert tr2[i] == tr1[i] == v1; }
    }
  }

  // All images of a removal read as the volume after it.
  lemma RemovalSwitches(g: Geometry, v: Vol, a: Abs, tr: seq<Vol>, w: Vol, tr2: seq<Vol>, l: Loc, was: nat)
    requires Removed(g, v, a, w, Pruned(a, was), l, was) && ErasedImages(g, tr, w, tr2, OldChain(a.t, was))
    ensures Atomic(g, v, tr, w, tr2)
  {
    hide Inv, Only, OthersKept, Atomic, StillOld, SameBut, LiveIn, SlotOf;
    ChainIsGone(g, v, a, w, l, was);
    ApartStill(g, w, Pruned(a, was), tr, tr2, Members(OldChain(a.t, was)));
    AtomicFirst(g, v, tr, w, tr2);
  }

  lemma ChainIsGone(g: Geometry, v: Vol, a: Abs, w: Vol, l: Loc, was: nat)
    requires Removed(g, v, a, w, Pruned(a, was), l, was)
    ensures forall c :: c in OldChain(a.t, was) ==> c !in Pruned(a, was).t.own
  {
    hide Inv, OthersKept, SameBut, LiveIn, SlotOf, OwnersOk;
    InvOwners(g, v, a);
    InvShape(g, v, a);
    forall c | c in OldChain(a.t, was) ensures c !in Pruned(a, was).t.own {
      InOneChain(a.t, was, c);
      FreeIsApart(g, w, Pruned(a, was), c);
    }
  }

  // ----- an append in place

  // The state of an append to the entry at l, of the bookkeeping a.
  ghost predicate AppendTo(g: Geometry, a: Abs, l: Loc, z: Tail) {
    && Inv(g, z.v0, a) && Shape(g, z.v0) && OwnInRange(g, a.t) && DirLoc(g, a, l)
    && Real(SlotAt(g, z.v0, l)) && !IsDir(SlotAt(g, z.v0, l))
    && z.t == a.t && z.f == First(SlotAt(g, z.v0, l)) && z.f >= 2 && z.f !in a.dirs
    && z.body == Content(g, z.v0, SlotAt(g, z.v0, l)) && |z.body| == Size(SlotAt(g, z.v0, l))
  }

  // An image on the way: the chain of the file is z.ch, its first bytes are there, and only clusters
  // behind them and the unused ones in "extra" have changed.
  ghost predicate Pending(g: Geometry, z: Tail, w: Vol, extra: set<nat>) {
    && g.Valid() && Shape(g, z.v0) && Shape(g, w)
    && z.f in z.t.chain && 1 <= |z.t.chain[z.f]| <= |z.ch| && z.t.chain[z.f] <= z.ch
    && (forall c :: c in z.ch[|z.t.chain[z.f]|..] ==> c !in z.t.own) && (forall c :: c in extra ==> c !in z.t.own)
    && Only(g, z.v0, w, z.Changed() + extra)
    && IsChain(w.fats[0], z.ch) && z.ch[0] == z.f && (forall i :: 0 <= i < |z.ch| ==> 2 <= z.ch[i] <= g.maxCluster)
    && Take(ChainBytes(g, w, z.ch), |z.body|) == z.body
  }

  // The changed clusters that are in use are the file's own.
  lemma PendingOwners(g: Geometry, a: Abs, z: Tail, w: Vol, extra: set<nat>)
    requires Pending(g, z, w, extra) && z.t == a.t && OwnersOk(a.t)
    ensures forall c :: c in z.Changed() + extra && c in a.t.own ==> a.t.own[c] == z.f
  {
    hide IsChain, ChainBytes, Only;
    var had := z.t.chain[z.f];
    var k := |had|;
    forall c | c in z.Changed() + extra && c in a.t.own ensures a.t.own[c] == z.f {
      assert z.ch[k - 1..] == [z.ch[k - 1]] + z.ch[k..];
      assert c == z.ch[k - 1] == had[k - 1];
      assert c in had;
    }
  }

  // What is in use, and not the file's own, has not changed.
  ghost predicate OthersSame(g: Geometry, v: Vol, w: Vol, a: Abs, f: nat)
    requires Shape(g, v) && Shape(g, w) && OwnInRange(g, a.t)
  {
    forall c :: c in a.t.own && a.t.own[c] != f ==> w.fats[0][c] == v.fats[0][c] && w.data[c] == v.data[c]
  }

  lemma PendingOthers(g: Geometry, a: Abs, z: Tail, w: Vol, extra: set<nat>)
    requires Pending(g, z, w, extra) && z.t == a.t && OwnersOk(a.t) && OwnInRange(g, a.t)
    ensures OthersSame(g, z.v0, w, a, z.f)
  {
    PendingOwners(g, a, z, w, extra);
    hide IsChain, ChainBytes, Tail.Changed;
  }

  lemma OthersLookups(g: Geometry, v: Vol, w: Vol, a: Abs, f: nat)
    requires Inv(g, v, a) && Shape(g, v) && Shape(g, w) && OwnInRange(g, a.t) && OthersSame(g, v, w, a, f)
             && f !in a.dirs
    ensures SameLookups(g, v, w, a) && SameSlots(g, v, w, a)
  {
    hide Inv, DirFind, SlotOf;
    assert DirsBut(g, v, a, w, f);
    forall x, n | x in a.dirs ensures DirFind(g, w, x, n) == DirFind(g, v, x, n) { FindBut(g, v, a, w, f, x, n); }
  }

  // An entry other than l does not refer to the chain of l.
  lemma OthersFiles(g: Geometry, v: Vol, w: Vol, a: Abs, f: nat, l: Loc)
    requires Inv(g, v, a) && Shape(g, v) && Shape(g, w) && OwnInRange(g, a.t) && OthersSame(g, v, w, a, f)
    requires f >= 2 && f in a.ref && a.ref[f] == l && DirLoc(g, a, l)
    requires Content(g, w, SlotAt(g, v, l)) == Content(g, v, SlotAt(g, v, l))
    ensures SameFiles(g, v, w, a)
  {
    hide Inv, First, Content, SlotOf, Fits, Size;
    NoZeroCluster(g, v, a);
    forall k | DirLoc(g, a, k) && Known(g, a, k, SlotAt(g, v, k)) && !IsDir(SlotAt(g, v, k))
      ensures Content(g, w, SlotAt(g, v, k)) == Content(g, v, SlotAt(g, v, k))
    {
      if k != l { FileAlike(g, v, w, a, SlotAt(g, v, k)); }
    }
  }

  /** On the way, an append shows the old file and the old rest. */
  lemma PendingReads(g: Geometry, a: Abs, l: Loc, z: Tail, w: Vol, extra: set<nat>)
    requires AppendTo(g, a, l, z) && Pending(g, z, w, extra)
    ensures ReadsOld(g, z.v0, w)
  {
    hide Inv, TableOk, OwnersOk, ChainsOk, IsChain, ChainBytes, Content, SlotOf, First, Size, Only, Tail.Changed,
         OthersSame, Take;
    hide SameLookups, SameSlots, SameFiles, Real, IsDir, Fits;
    var e := SlotAt(g, z.v0, l);
    InvOwners(g, z.v0, a);
    PendingOthers(g, a, z, w, extra);
    OthersLookups(g, z.v0, w, a, z.f);
    FileEntry(g, z.v0, a, l);
    ContentOfChain(g, w, e, z.ch);
    OthersFiles(g, z.v0, w, a, z.f, l);
    AlikeReads(g, z.v0, w, a);
  }

  lemma TakeLess(x: seq<byte>, body: seq<byte>, more: seq<byte>)
    requires Take(x, |body| + |more|) == body + more
    ensures Take(x, |body|) == body
  {
    assert (body + more)[..|body|] == body;
  }

  lemma OkPending(g: Geometry, z: Tail, v: Vol, buf: seq<byte>, k: nat)
    requires z.Ok(g, v, buf, k)
    ensures Pending(g, z, v, {})
  {
    hide TableOk, ChainBytes, Take, IsChain, Only;
    TailIsChain(v.fats[0], z);
    TakeLess(ChainBytes(g, v, z.ch), z.body, buf[..k]);
    assert z.Changed() + {} == z.Changed();
  }

  lemma PendingMore(g: Geometry, z: Tail, v: Vol, w: Vol, nc: nat)
    requires Pending(g, z, v, {}) && Only(g, v, w, {nc}) && nc !in z.ch && nc !in z.t.own
    ensures Pending(g, z, w, {nc})
  {
    hide ChainBytes, Take, IsChain;
    OnlyJoin(g, z.v0, v, w, z.Changed() + {}, {nc});
    assert z.Changed() + {} + {nc} == z.Changed() + {nc};
    ChainSame(v.fats[0], w.fats[0], z.ch);
    ChainBytesSame(g, v, w, z.ch);
  }

  lemma NewOfTail(g: Geometry, z: Tail, v: Vol, buf: seq<byte>, k: nat, nc: nat)
    requires z.Ok(g, v, buf, k) && 2 <= nc <= g.maxCluster && Shape(g, v) && v.fats[0][nc] == 0
    ensures nc !in z.ch && nc !in z.t.own && z.TableIs(v.fats[0]) && |z.body| <= g.Span(|z.ch|)
    ensures Mirrors(g, v) && forall i :: 0 <= i < |z.ch| ==> 2 <= z.ch[i] <= g.maxCluster
  {
    hide TableOk, ChainBytes, Tail.TableIs, Only;
    TailFacts(v.fats[0], z);
    NotInChain(v.fats[0], z.t2, z.f, nc);
    NewIsApart(v.fats[0], z, nc);
  }

  // An image while the cluster nc is allocated for the file.
  lemma AllocPending(g: Geometry, z: Tail, v: Vol, buf: seq<byte>, k: nat, w: Vol, nc: nat)
    requires z.Ok(g, v, buf, k) && 2 <= nc <= g.maxCluster && Shape(g, v) && v.fats[0][nc] == 0 && Only(g, v, w, {nc})
    ensures Pending(g, z, w, {nc})
  {
    hide Tail.Ok, Pending, Only;
    OkPending(g, z, v, buf, k);
    NewOfTail(g, z, v, buf, k, nc);
    PendingMore(g, z, v, w, nc);
  }

  lemma NewIsApart(L: Links, z: Tail, nc: nat)
    requires z.TableIs(L) && 2 <= nc < |L| && L[nc] == 0
    ensures nc !in z.t.own
  {
    hide OwnersOk, ChainsOk;
    FreeIsUnowned(L, z.t2, nc);
  }

  // An image after the cluster nc has been linked behind the chain ch, whatever it holds.
  ghost predicate Linked(g: Geometry, v: Vol, w: Vol, ch: seq<nat>, nc: nat) {
    && Shape(g, v) && Shape(g, w) && 2 <= nc <= g.maxCluster
    && (forall i :: 0 <= i < |ch| ==> 2 <= ch[i] <= g.maxCluster)
    && w.fats[0] == LinksMore(v.fats[0], ch, nc)
    && forall c :: 2 <= c <= g.maxCluster && c != nc ==> w.data[c] == v.data[c]
  }

  lemma LinkedOnly(g: Geometry, v: Vol, w: Vol, ch: seq<nat>, nc: nat)
    requires Linked(g, v, w, ch, nc) && ch != []
    ensures Only(g, v, w, {nc} + {ch[|ch| - 1]})
  {
  }

  // The first bytes of a chain that has become longer.
  lemma LongerBytes(g: Geometry, v: Vol, w: Vol, ch: seq<nat>, nc: nat, n: nat)
    requires g.Valid() && Shape(g, v) && Shape(g, w) && 2 <= nc <= g.maxCluster && n <= g.Span(|ch|)
    requires forall i :: 0 <= i < |ch| ==> 2 <= ch[i] <= g.maxCluster && w.data[ch[i]] == v.data[ch[i]]
    ensures Take(ChainBytes(g, w, ch + [nc]), n) == Take(ChainBytes(g, v, ch), n)
  {
    hide ChainBytes;
    ChainBytesSame(g, v, w, ch);
    ChainBytesConcat(g, w, ch, [nc]);
  }

  lemma LinkedChain(g: Geometry, z: Tail, v: Vol, w: Vol, nc: nat)
    requires Shape(g, v) && z.TableIs(v.fats[0]) && Linked(g, v, w, z.ch, nc) && v.fats[0][nc] == 0
    ensures IsChain(w.fats[0], z.ch + [nc]) && (z.ch + [nc])[0] == z.f
  {
    hide TableOk, Tail.TableIs, IsChain, LinksMore, BuildMore;
    TailTable(v.fats[0], z, nc);
    TailIsChain(w.fats[0], z.(t2 := BuildMore(z.t2, z.f, z.ch, nc), ch := z.ch + [nc]));
  }

  lemma LinkedChanged(g: Geometry, z: Tail, v: Vol, w: Vol, nc: nat)
    requires Pending(g, z, v, {}) && Linked(g, v, w, z.ch, nc)
    ensures Only(g, z.v0, w, Members((z.ch + [nc])[|z.t.chain[z.f]| - 1..]))
  {
    hide ChainBytes, Take, IsChain, Linked, Only;
    LinkedOnly(g, v, w, z.ch, nc);
    assert z.Changed() + {} == z.Changed();
    TailOnly(g, z.v0, v, w, z.ch, |z.t.chain[z.f]|, nc);
  }

  lemma LinkedPending(g: Geometry, z: Tail, v: Vol, buf: seq<byte>, k: nat, w: Vol, nc: nat)
    requires z.Ok(g, v, buf, k) && Shape(g, v) && Linked(g, v, w, z.ch, nc) && v.fats[0][nc] == 0
    ensures Pending(g, z.(ch := z.ch + [nc]), w, {})
  {
    hide Tail.Ok, Tail.TableIs, TableOk, ChainBytes, Take, IsChain, LinksMore, Linked, Only, Members;
    OkPending(g, z, v, buf, k);
    LinkedIn(g, v, w, z.ch, nc);
    NewOfTail(g, z, v, buf, k, nc);
    LinkedShape(g, v, w, z.ch, nc);
    LinkedChain(g, z, v, w, nc);
    LinkedChanged(g, z, v, w, nc);
    LongerBytes(g, v, w, z.ch, nc, |z.body|);
    LongerNew(v.fats[0], z, nc);
    var z2 := z.(ch := z.ch + [nc]);
    assert z2.Changed() + {} == Members(z2.ch[|z.t.chain[z.f]| - 1..]);
  }

  lemma LinkedIn(g: Geometry, v: Vol, w: Vol, ch: seq<nat>, nc: nat)
    requires Linked(g, v, w, ch, nc)
    ensures 2 <= nc <= g.maxCluster && Shape(g, w)
  {
  }

  lemma LinkedShape(g: Geometry, v: Vol, w: Vol, ch: seq<nat>, nc: nat)
    requires Linked(g, v, w, ch, nc) && nc !in ch
    ensures Shape(g, v) && Shape(g, w) && 2 <= nc <= g.maxCluster && w.fats[0] == LinksMore(v.fats[0], ch, nc)
    ensures forall i :: 0 <= i < |ch| ==> 2 <= ch[i] <= g.maxCluster && w.data[ch[i]] == v.data[ch[i]]
  {
  }

  lemma TailNew(L: Links, z: Tail)
    requires z.TableIs(L)
    ensures z.f in z.t.chain && 1 <= |z.t.chain[z.f]| && z.t.chain[z.f] <= z.ch
    ensures forall c :: c in z.ch[|z.t.chain[z.f]|..] ==> c !in z.t.own
  {
    hide TableOk;
  }

  lemma LongerNew(L: Links, z: Tail, nc: nat)
    requires z.TableIs(L) && nc !in z.t.own
    ensures z.f in z.t.chain
    ensures var ch2, k := z.ch + [nc], |z.t.chain[z.f]|;
            z.t.chain[z.f] <= ch2 && 1 <= k <= |ch2| && forall c :: c in ch2[k..] ==> c !in z.t.own
  {
    hide Tail.TableIs;
    TailNew(L, z);
    assert (z.ch + [nc])[|z.t.chain[z.f]|..] == z.ch[|z.t.chain[z.f]|..] + [nc];
  }

  // An image while the cluster c is filled.
  ghost predicate ClusterImage(g: Geometry, v: Vol, w: Vol, c: nat) {
    Shape(g, v) && Shape(g, w) && 2 <= c <= g.maxCluster && w.fats == v.fats && w.data == v.data[c := w.data[c]]
  }

  // The images while one more cluster is allocated, linked and filled.
  ghost predicate ExtendImage(g: Geometry, v: Vol, w: Vol, ch: seq<nat>, nc: nat)
    requires Shape(g, v)
  {
    Only(g, v, w, {nc}) || Linked(g, v, w, ch, nc)
  }

  // Linking and then filling.
  lemma ExtendImages(g: Geometry, v: Vol, tr: seq<Vol>, v1: Vol, tr1: seq<Vol>, tr2: seq<Vol>, ch: seq<nat>, nc: nat)
    requires LinkImages(g, v, tr, v1, tr1, nc) && Linked(g, v, v1, ch, nc) && tr1 <= tr2
    requires forall i :: |tr1| <= i < |tr2| ==> ClusterImage(g, v1, tr2[i], nc)
    ensures tr <= tr2 && forall i :: |tr| <= i < |tr2| ==> ExtendImage(g, v, tr2[i], ch, nc)
  {
    hide Only, LinksMore;
    forall i | |tr| <= i < |tr2| ensures ExtendImage(g, v, tr2[i], ch, nc) {
      if i < |tr1| { assert tr2[i] == tr1[i]; }
    }
  }

  lemma ExtendStill(g: Geometry, a: Abs, l: Loc, z: Tail, v: Vol, buf: seq<byte>, k: nat, tr: seq<Vol>, tr2: seq<Vol>,
                    nc: nat)
    requires AppendTo(g, a, l, z) && z.Ok(g, v, buf, k) && Shape(g, v) && 2 <= nc <= g.maxCluster && v.fats[0][nc] == 0
    requires tr <= tr2 && forall i :: |tr| <= i < |tr2| ==> ExtendImage(g, v, tr2[i], z.ch, nc)
    ensures StillOld(g, z.v0, tr, tr2)
  {
    hide AppendTo, Tail.Ok, Linked, Only, ReadsOld, Pending;
    forall i | |tr| <= i < |tr2| ensures ReadsOld(g, z.v0, tr2[i]) {
      if Linked(g, v, tr2[i], z.ch, nc) {
        LinkedPending(g, z, v, buf, k, tr2[i], nc);
        AppendToMore(g, a, l, z, z.ch + [nc]);
        PendingReads(g, a, l, z.(ch := z.ch + [nc]), tr2[i], {});
      } else {
        AllocPending(g, z, v, buf, k, tr2[i], nc);
        PendingReads(g, a, l, z, tr2[i], {nc});
      }
    }
  }

  lemma AppendToMore(g: Geometry, a: Abs, l: Loc, z: Tail, ch: seq<nat>)
    requires AppendTo(g, a, l, z)
    ensures AppendTo(g, a, l, z.(ch := ch))
  {
    hide Inv, Content, First, Size, SlotOf, OwnInRange, IsDir, Real;
  }

  // ----- the last cluster is filled up

  // An image while the last cluster is filled up behind its first "used" bytes.
  ghost predicate TopImage(g: Geometry, v: Vol, w: Vol, last: nat, used: nat) {
    && Shape(g, v) && Shape(g, w) && 2 <= last <= g.maxCluster && used <= g.ClusterBytes()
    && w.fats == v.fats && w.data == v.data[last := w.data[last]]
    && SectorBytes(w.data[last])[..used] == SectorBytes(v.data[last])[..used]
  }

  // The bytes before the ones that are written.
  lemma HeadKept(cl: Cluster, head: seq<byte>, buf: seq<byte>, i: nat, n: nat)
    requires |head| <= n <= |head| + |buf| && |head| <= 512 * (i + 1) && i < |cl|
    requires forall t :: 0 <= t <= i ==> Agrees(cl[t], head + buf, 512 * t, n)
    ensures SectorBytes(cl)[..|head|] == head
  {
    hide Agrees, SectorBytes;
    var T := head + buf;
    forall t | 0 <= t < |cl| ensures Agrees(cl[t], T, 512 * t, |head|) {
      if t <= i { AgreesFull(cl[t], T, 512 * t, n, |head|); } else { AgreesBehind(cl[t], T, 512 * t, |head|); }
    }
    AgreesAll(cl, T, |head|);
    assert T[..|head|] == head;
  }

  // The start of an append to a file of "size" bytes, of which "used" are in its last cluster.
  ghost predicate TopStart(g: Geometry, z: Tail, size: nat, used: nat) {
    && g.Valid() && Shape(g, z.v0) && z.f in z.t.chain && z.t.chain[z.f] == z.ch && |z.ch| >= 1 && z.t2 == z.t
    && IsChain(z.v0.fats[0], z.ch) && z.ch[0] == z.f && (forall i :: 0 <= i < |z.ch| ==> 2 <= z.ch[i] <= g.maxCluster)
    && Fits(g, |z.ch|, size) && UsedIs(g, |z.ch|, size, used) && used != 0
    && z.body == Take(ChainBytes(g, z.v0, z.ch), size)
  }

  lemma TopPending(g: Geometry, z: Tail, w: Vol, size: nat, used: nat)
    requires TopStart(g, z, size, used) && TopImage(g, z.v0, w, z.ch[|z.ch| - 1], used)
    ensures Pending(g, z, w, {})
  {
    var ch := z.ch;
    ChainDistinct(z.v0.fats[0], ch);
    hide ChainBytes, SectorBytes, Distinct, IsChain;
    var nothing: seq<byte> := [];
    assert SectorBytes(z.v0.data[ch[|ch| - 1]])[..used] + nothing[..0] == SectorBytes(z.v0.data[ch[|ch| - 1]])[..used];
    ToppedUp(g, z.v0, w, ch, size, used, nothing, 0);
    assert z.body + nothing[..0] == z.body;
    assert z.ch[|ch|..] == [];
    assert ch[|ch| - 1..][0] == ch[|ch| - 1];
    assert ch[|ch| - 1] in z.Changed();
  }

  lemma TopStill(g: Geometry, a: Abs, l: Loc, z: Tail, tr: seq<Vol>, tr2: seq<Vol>, size: nat, used: nat)
    requires AppendTo(g, a, l, z) && TopStart(g, z, size, used)
    requires tr <= tr2 && forall i :: |tr| <= i < |tr2| ==> TopImage(g, z.v0, tr2[i], z.ch[|z.ch| - 1], used)
    ensures StillOld(g, z.v0, tr, tr2)
  {
    hide AppendTo, TopStart, ReadsOld, Pending, TopImage;
    forall i | |tr| <= i < |tr2| ensures ReadsOld(g, z.v0, tr2[i]) {
      TopPending(g, z, tr2[i], size, used);
      PendingReads(g, a, l, z, tr2[i], {});
    }
  }

  lemma AppendShape(g: Geometry, a: Abs, l: Loc, z: Tail)
    requires AppendTo(g, a, l, z)
    ensures Shape(g, z.v0) && Inv(g, z.v0, a)
  {
    hide Inv, Content, First, Size, SlotOf, OwnInRange, IsDir, Real;
  }

  lemma TopIs(g: Geometry, v: Vol, w: Vol, last: nat, head: seq<byte>)
    requires Shape(g, v) && Shape(g, w) && 2 <= last <= g.maxCluster && |head| <= g.ClusterBytes()
    requires w.fats == v.fats && w.data == v.data[last := w.data[last]]
    requires SectorBytes(v.data[last])[..|head|] == head && SectorBytes(w.data[last])[..|head|] == head
    ensures TopImage(g, v, w, last, |head|)
  {
    hide SectorBytes;
  }

  lemma TopTwice(g: Geometry, v: Vol, v1: Vol, w: Vol, last: nat, used: nat)
    requires TopImage(g, v, v1, last, used) && TopImage(g, v1, w, last, used)
    ensures TopImage(g, v, w, last, used)
  {
  }

  lemma TopStarts(g: Geometry, z: Tail, size: nat, used: nat)
    requires Mirrors(g, z.v0) && z.f in z.t.chain && z.t.chain[z.f] == z.ch && |z.ch| >= 1 && z.t2 == z.t
    requires IsChain(z.v0.fats[0], z.ch) && z.ch[0] == z.f
             && forall i :: 0 <= i < |z.ch| ==> 2 <= z.ch[i] <= g.maxCluster
    requires Fits(g, |z.ch|, size) && UsedIs(g, |z.ch|, size, used) && used != 0
    requires z.body == Take(ChainBytes(g, z.v0, z.ch), size)
    ensures TopStart(g, z, size, used)
  {
    hide IsChain, ChainBytes, Take, Fits, UsedIs;
  }

  // Another stage of the same append.
  lemma AppendAlike(g: Geometry, a: Abs, l: Loc, z: Tail, z2: Tail)
    requires AppendTo(g, a, l, z) && z2.SameStart(z)
    ensures AppendTo(g, a, l, z2)
  {
    hide Inv, Content, First, Size, SlotOf, OwnInRange, IsDir, Real;
  }

  lemma AppendStarts(g: Geometry, v: Vol, a: Abs, l: Loc, ch: seq<nat>, body: seq<byte>)
    requires Inv(g, v, a) && Shape(g, v) && OwnInRange(g, a.t) && DirLoc(g, a, l)
    requires Real(SlotAt(g, v, l)) && !IsDir(SlotAt(g, v, l)) && First(SlotAt(g, v, l)) >= 2
    requires body == Content(g, v, SlotAt(g, v, l)) && |body| == Size(SlotAt(g, v, l))
    ensures AppendTo(g, a, l, Tail(v, a.t, a.t, First(SlotAt(g, v, l)), ch, body))
  {
    hide Inv, Content, First, Size, SlotOf, OwnInRange, IsDir, Real;
    FileEntry(g, v, a, l);
  }

  lemma StillMore(g: Geometry, v: Vol, tr: seq<Vol>, tr1: seq<Vol>, tr2: seq<Vol>)
    requires StillOld(g, v, tr, tr1) && StillOld(g, v, tr1, tr2)
    ensures StillOld(g, v, tr, tr2)
  {
    hide ReadsOld;
    forall i | |tr| <= i < |tr2| ensures ReadsOld(g, v, tr2[i]) {
      if i < |tr1| { assert tr2[i] == tr1[i]; }
    }
  }

  // The last write, if there is one, makes the switch.
  lemma NewAtLast(g: Geometry, v: Vol, tr: seq<Vol>, tr2: seq<Vol>, tr3: seq<Vol>, w: Vol, l: Loc, all: seq<byte>)
    requires StillOld(g, v, tr, tr2) && ReadsNew(g, v, w, l, all) && (tr3 == tr2 + [w] || tr3 == tr2 + [])
    ensures NewFrom(g, v, tr, tr3, l, all, |tr2|)
  {
    hide ReadsOld, ReadsNew;
  }
}
