/**
 What a reader sees if the machine stops between two sector writes of a file write.
 */
module Fat32Crash {
  import opened Bytes
  import opened Fat32Chains
  import opened Fat32Volume
  import opened Fat32Dirs
  import opened Fat32State
  import opened Fat32Files

  // The path leads through directories in w too, and to the same entry.
  ghost predicate SamePath(g: Geometry, v: Vol, w: Vol, path: seq<Name>)
    requires Shape(g, v) && Shape(g, w) && |path| >= 1
  {
    ThroughDirs(g, w, g.root, path) && Resolve(g, w, g.root, path) == Resolve(g, v, g.root, path)
  }

  // Every path that leads through directories resolves and reads in w as it does in v.
  ghost predicate OldImage(g: Geometry, v: Vol, w: Vol)
    requires Shape(g, v) && Shape(g, w)
  {
    forall path :: ThroughDirs(g, v, g.root, path) ==>
      SamePath(g, v, w, path) && ReadPath(g, w, path) == ReadPath(g, v, path)
  }

  // The same, except that the paths that name the entry at l read as buf.
  ghost predicate NewImage(g: Geometry, v: Vol, w: Vol, l: Loc, buf: seq<byte>)
    requires Shape(g, v) && Shape(g, w)
  {
    forall path :: ThroughDirs(g, v, g.root, path) ==>
      && SamePath(g, v, w, path)
      && ReadPath(g, w, path) == if Resolve(g, v, g.root, path) == Some(l) then Some(buf) else ReadPath(g, v, path)
  }

  // The same, with the shapes.
  ghost predicate ReadsOld(g: Geometry, v: Vol, w: Vol) { Shape(g, v) && Shape(g, w) && OldImage(g, v, w) }

  ghost predicate ReadsNew(g: Geometry, v: Vol, w: Vol, l: Loc, buf: seq<byte>) {
    Shape(g, v) && Shape(g, w) && NewImage(g, v, w, l, buf)
  }

  // Images that keep every allocated cluster of v, in the FAT copy that is read.
  ghost predicate KeepsUsed(g: Geometry, v: Vol, w: Vol, t: Table)
    requires Shape(g, v) && Shape(g, w) && OwnInRange(g, t)
  {
    forall c :: c in t.own ==> v.fats[0][c] == w.fats[0][c] && v.data[c] == w.data[c]
  }

  lemma SimSelf(x: Cluster)
    ensures ClusterSim(x, x)
  {
  }

  lemma KeptSim(g: Geometry, v: Vol, w: Vol, a: Abs)
    requires Shape(g, v) && Shape(g, w) && OwnInRange(g, a.t) && KeepsUsed(g, v, w, a.t)
    ensures DirSim(g, v, w, a)
  {
    forall c: nat | IsDirCluster(a, c) ensures ClusterSim(v.data[c], w.data[c]) { SimSelf(v.data[c]); }
  }

  lemma RootIsDir(g: Geometry, v: Vol, a: Abs)
    requires g.Valid() && Shape(g, v) && DirsOk(g, v, a)
    ensures g.root in a.dirs
  {
  }

  /** Before the directory entry is switched, readers see the old volume. */
  lemma BeforeSwitch(g: Geometry, v: Vol, w: Vol, a: Abs)
    requires Inv(g, v, a) && Shape(g, w) && KeepsUsed(g, v, w, a.t)
    ensures OldImage(g, v, w)
  {
    hide ChainsOk, OwnersOk, UsedOk, SlotsOk, RefsOk, DirsOk, Resolve;
    KeptSim(g, v, w, a);
    hide KeepsUsed, DirSim;
    assert g.root in a.dirs by { RootIsDir(g, v, a); }
    forall path | ThroughDirs(g, v, g.root, path)
      ensures SamePath(g, v, w, path) && ReadPath(g, w, path) == ReadPath(g, v, path)
    {
      ResolveSim(g, v, w, a, g.root, path);
      var r := Resolve(g, v, g.root, path);
      if r.Some? {
        KeptContent(g, v, w, a, r.value);
      }
    }
  }

  lemma KeptContent(g: Geometry, v: Vol, w: Vol, a: Abs, l: Loc)
    requires g.Valid() && Shape(g, v) && OwnInRange(g, a.t) && ChainsOk(v.fats[0], a.t) && OwnersOk(a.t)
    requires Shape(g, w) && KeepsUsed(g, v, w, a.t)
    requires DirLoc(g, a, l) && Known(g, a, l, SlotAt(g, v, l))
    ensures SlotAt(g, w, l) == SlotAt(g, v, l)
    ensures !IsDir(SlotAt(g, v, l)) ==> Content(g, w, SlotAt(g, w, l)) == Content(g, v, SlotAt(g, v, l))
  {
    var e := SlotAt(g, v, l);
    if !IsDir(e) {
      if First(e) != 0 {
        FileClusters(g, a, First(e));
      }
      ContentSame(g, v, w, a, e);
    }
  }

  // w is an image after the entry at l has been given the extent (nf, n): the directories hold
  // their old slots but for that one, files other than "was" hold their old clusters.
  ghost predicate Switched(g: Geometry, v: Vol, w: Vol, a: Abs, l: Loc, was: nat, e: Slot)
    requires Shape(g, v) && Shape(g, w) && OwnInRange(g, a.t) && DirLoc(g, a, l)
  {
    && SlotWrite(g, v, w, a, l, e)
    && (forall c: nat :: IsDirCluster(a, c) ==> v.fats[0][c] == w.fats[0][c])
    && (forall c :: c in a.t.own && a.t.own[c] != was && !IsDirCluster(a, c) ==>
          v.fats[0][c] == w.fats[0][c] && v.data[c] == w.data[c])
  }

  lemma SwitchedSim(g: Geometry, v: Vol, w: Vol, a: Abs, l: Loc, was: nat, e: Slot)
    requires Shape(g, v) && Shape(g, w) && OwnInRange(g, a.t) && DirLoc(g, a, l)
    requires Switched(g, v, w, a, l, was, e) && SlotSim(SlotAt(g, v, l), e)
    ensures DirSim(g, v, w, a)
  {
    forall c: nat | IsDirCluster(a, c) ensures ClusterSim(v.data[c], w.data[c]) {
      if c == l.c {
        var x, y := v.data[c], w.data[c];
        forall t, j | 0 <= t < |x| && 0 <= j < 16 ensures SlotSim(SlotOf(x[t], j), SlotOf(y[t], j)) {
          SlotWriteAt(g, v, w, a, l, e, Loc(c, t, j));
        }
      } else {
        SimSelf(v.data[c]);
      }
    }
  }

  // Files other than the one at l keep their content.
  lemma SwitchedOther(g: Geometry, v: Vol, w: Vol, a: Abs, l: Loc, was: nat, e: Slot, k: Loc)
    requires Inv(g, v, a) && Shape(g, w) && DirLoc(g, a, l) && Switched(g, v, w, a, l, was, e)
    requires was != 0 ==> was in a.ref && a.ref[was] == l
    requires DirLoc(g, a, k) && Known(g, a, k, SlotAt(g, v, k)) && k != l
    ensures SlotAt(g, w, k) == SlotAt(g, v, k)
    ensures !IsDir(SlotAt(g, v, k)) ==> Content(g, w, SlotAt(g, w, k)) == Content(g, v, SlotAt(g, v, k))
  {
    SlotWriteAt(g, v, w, a, l, e, k);
    var x := SlotAt(g, v, k);
    if !IsDir(x) {
      if First(x) != 0 {
        FileClusters(g, a, First(x));
      }
      ContentSame(g, v, w, a, x);
    }
  }

  lemma FileClusters(g: Geometry, a: Abs, f: nat)
    requires OwnersOk(a.t) && f in a.t.chain && f !in a.dirs
    ensures forall c :: c in a.t.chain[f] ==> c in a.t.own && a.t.own[c] == f && !IsDirCluster(a, c)
  {
  }

  lemma EntryRefers(g: Geometry, v: Vol, a: Abs, l: Loc)
    requires Inv(g, v, a) && DirLoc(g, a, l) && Real(SlotAt(g, v, l)) && !IsDir(SlotAt(g, v, l))
    ensures var f := First(SlotAt(g, v, l)); f != 0 ==> f in a.ref && a.ref[f] == l
  {
    hide TableOk, DirsOk, RefsOk;
    assert EntryOk(g, a, l, SlotAt(g, v, l));
  }

  /** After the directory entry is switched, readers see the new file and nothing else changed. */
  lemma AfterSwitch(g: Geometry, v: Vol, w: Vol, a: Abs, l: Loc, e: Slot, buf: seq<byte>)
    requires Inv(g, v, a) && Shape(g, w) && DirLoc(g, a, l)
    requires Real(SlotAt(g, v, l)) && !IsDir(SlotAt(g, v, l)) && SlotSim(SlotAt(g, v, l), e)
    requires Switched(g, v, w, a, l, First(SlotAt(g, v, l)), e)
    requires Content(g, w, e) == buf
    ensures NewImage(g, v, w, l, buf)
  {
    hide ChainsOk, OwnersOk, UsedOk, SlotsOk, RefsOk, DirsOk, Resolve, Content, SlotWrite, RealOk;
    var was := First(SlotAt(g, v, l));
    EntryRefers(g, v, a, l);
    RootIsDir(g, v, a);
    SwitchedSim(g, v, w, a, l, was, e);
    SlotWriteAt(g, v, w, a, l, e, l);
    SameKind(SlotAt(g, v, l), e);
    hide Switched, DirSim;
    forall path | ThroughDirs(g, v, g.root, path)
      ensures SamePath(g, v, w, path)
      ensures ReadPath(g, w, path) == if Resolve(g, v, g.root, path) == Some(l) then Some(buf) else ReadPath(g, v, path)
    {
      ResolveSim(g, v, w, a, g.root, path);
      var r := Resolve(g, v, g.root, path);
      if r.Some? && r.value != l {
        SwitchedOther(g, v, w, a, l, was, e, r.value);
      }
    }
  }

  // The chain nch of first cluster nf holds buf, where buf is empty if there is no chain.
  ghost predicate HoldsFile(g: Geometry, w: Vol, nf: nat, nch: seq<nat>, buf: seq<byte>)
    requires g.Valid() && Shape(g, w)
  {
    if nf == 0 then nch == [] && buf == []
    else IsChain(w.fats[0], nch) && nch[0] == nf && Take(ChainBytes(g, w, nch), |buf|) == buf
  }

  lemma HoldsContent(g: Geometry, w: Vol, nf: nat, nch: seq<nat>, buf: seq<byte>, e: Slot)
    requires g.Valid() && Shape(g, w) && HoldsFile(g, w, nf, nch, buf) && First(e) == nf && Size(e) == |buf|
    ensures Content(g, w, e) == buf
  {
    if nf != 0 {
      ContentOfChain(g, w, e, nch);
    } else {
      assert Walk(w.fats[0], 0, g.maxCluster) == [];
    }
  }

  lemma HoldsKept(g: Geometry, v: Vol, w: Vol, nf: nat, nch: seq<nat>, buf: seq<byte>)
    requires g.Valid() && Shape(g, v) && Shape(g, w) && HoldsFile(g, v, nf, nch, buf)
    requires forall c :: c in nch && 2 <= c <= g.maxCluster ==> w.fats[0][c] == v.fats[0][c] && w.data[c] == v.data[c]
    ensures HoldsFile(g, w, nf, nch, buf)
  {
    if nf != 0 {
      assert forall i :: 0 <= i < |nch| ==> nch[i] in nch;
      ChainSame(v.fats[0], w.fats[0], nch);
      ChainBytesSame(g, v, w, nch);
    }
  }

  // The images of the second half of a write, described from v, the volume before the write.
  ghost predicate SecondHalf(g: Geometry, v: Vol, w: Vol, a: Abs, l: Loc, e: Slot, nch: seq<nat>, buf: seq<byte>)
    requires g.Valid() && Shape(g, v) && OwnInRange(g, a.t) && DirLoc(g, a, l)
  {
    && Shape(g, w)
    && Switched(g, v, w, a, l, First(SlotAt(g, v, l)), e)
    && HoldsFile(g, w, First(e), nch, buf)
  }

  lemma SecondHalfReads(g: Geometry, v: Vol, w: Vol, a: Abs, l: Loc, e: Slot, nch: seq<nat>, buf: seq<byte>)
    requires Inv(g, v, a) && DirLoc(g, a, l) && SecondHalf(g, v, w, a, l, e, nch, buf)
    requires Real(SlotAt(g, v, l)) && !IsDir(SlotAt(g, v, l)) && SlotSim(SlotAt(g, v, l), e) && Size(e) == |buf|
    ensures NewImage(g, v, w, l, buf)
  {
    hide TableOk, SlotsOk, RefsOk, DirsOk, Switched, NewImage, HoldsFile, IsChain;
    HoldsContent(g, w, First(e), nch, buf, e);
    AfterSwitch(g, v, w, a, l, e, buf);
  }
}
