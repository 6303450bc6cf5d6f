/**
 The structural invariant of a FAT32 volume and the steps that keep it.
 */
module Fat32State {
  import opened Bytes
  import opened Fat32Chains
  import opened Fat32Volume
  import opened Fat32Dirs

  // The bookkeeping behind the invariant: which chains exist, which of them are directories
  // (by first cluster), and the slot that refers to each chain.
  datatype Abs = Abs(t: Table, dirs: set<nat>, ref: map<nat, Loc>)

  const DOT_NAME: seq<byte> := [46, 32, 32, 32, 32, 32, 32, 32, 32, 32, 32]
  const DOTDOT_NAME: seq<byte> := [46, 46, 32, 32, 32, 32, 32, 32, 32, 32, 32]

  // k clusters are enough for n bytes, and no fewer are.
  predicate Fits(g: Geometry, k: nat, n: nat) {
    k >= 1 && g.Span(k - 1) < n <= g.Span(k)
  }

  // The clusters fat32_write_op allocates for n bytes.
  function Needs(g: Geometry, n: nat): nat
    requires g.Valid()
  {
    if n == 0 then 0 else (n + g.ClusterBytes() - 1) / g.ClusterBytes()
  }

  // That is: k is n divided by the cluster size, rounded up.
  lemma FitsIsCeiling(g: Geometry, k: nat, n: nat)
    requires g.Valid() && n > 0
    ensures Fits(g, k, n) <==> k == (n + g.ClusterBytes() - 1) / g.ClusterBytes()
  {
    var cb := g.ClusterBytes();
    var q := (n + cb - 1) / cb;
    CeilingBounds(n, cb);
    SpanIsProduct(g, q);
    SpanIsProduct(g, q - 1);
    if k < q {
      SpanMono(g, k, q - 1);
    } else if q < k {
      SpanMono(g, q, k - 1);
    }
  }

  lemma CeilingBounds(n: nat, cb: nat)
    requires n > 0 && cb > 0
    ensures var q := (n + cb - 1) / cb; q >= 1 && (q - 1) * cb < n <= q * cb
  {
    var q := (n + cb - 1) / cb;
    var r := (n + cb - 1) % cb;
    assert n + cb - 1 == q * cb + r;
    assert (q - 1) * cb == q * cb - cb;
    assert q <= 0 ==> q * cb <= 0;
  }

  predicate IsDirCluster(a: Abs, c: nat) { c in a.t.own && a.t.own[c] in a.dirs }

  predicate DirLoc(g: Geometry, a: Abs, l: Loc) {
    IsDirCluster(a, l.c) && l.s < g.spc && l.i < 16
  }

  predicate FileOk(g: Geometry, a: Abs, e: Slot) {
    || (First(e) == 0 && Size(e) == 0)
    || (First(e) in a.t.chain && First(e) !in a.dirs && Fits(g, |a.t.chain[First(e)]|, Size(e)))
  }

  predicate DirEntryOk(g: Geometry, a: Abs, e: Slot) {
    First(e) in a.dirs && First(e) != g.root
  }

  predicate RealOk(g: Geometry, a: Abs, l: Loc, e: Slot) {
    && (if IsDir(e) then DirEntryOk(g, a, e) else FileOk(g, a, e))
    && (First(e) != 0 ==> First(e) in a.ref && a.ref[First(e)] == l)
  }

  // The directory d is entered in the directory p.
  predicate ParentIs(a: Abs, d: nat, p: nat) {
    d in a.ref && a.ref[d].c in a.t.own && a.t.own[a.ref[d].c] == p
  }

  // "." leads back to its directory, and ".." to the directory in which that one is entered.
  predicate DotEntryOk(g: Geometry, a: Abs, l: Loc, e: Slot) {
    && IsDir(e) && l.c in a.t.own && a.t.own[l.c] != g.root
    && ((e[..11] == DOT_NAME && First(e) == a.t.own[l.c])
        || (e[..11] == DOTDOT_NAME && ParentIs(a, a.t.own[l.c], Below(g, e))))
  }

  predicate EntryOk(g: Geometry, a: Abs, l: Loc, e: Slot) {
    !IsVolume(e) && if IsDot(e) then DotEntryOk(g, a, l, e) else RealOk(g, a, l, e)
  }

  // Every directory but the root is entered in a directory.
  ghost predicate AllEntered(g: Geometry, a: Abs) {
    forall d :: d in a.dirs && d != g.root ==> d in a.ref && IsDirCluster(a, a.ref[d].c)
  }

  lemma DirsEntered(g: Geometry, v: Vol, a: Abs)
    requires g.Valid() && Shape(g, v) && OwnInRange(g, a.t) && DirsOk(g, v, a) && RefsOk(g, v, a)
    ensures AllEntered(g, a)
  {
  }

  // Dot entries do not notice a change that leaves their directory where it is.
  lemma DotKept(g: Geometry, a: Abs, b: Abs, l: Loc, e: Slot)
    requires DotEntryOk(g, a, l, e) && l.c in b.t.own && b.t.own[l.c] == a.t.own[l.c]
    requires var d := a.t.own[l.c];
             d in a.ref && a.ref[d].c in a.t.own ==>
               d in b.ref && b.ref[d] == a.ref[d] && a.ref[d].c in b.t.own && b.t.own[a.ref[d].c] == a.t.own[a.ref[d].c]
    ensures DotEntryOk(g, b, l, e)
  {
  }

  ghost predicate SlotsOk(g: Geometry, v: Vol, a: Abs)
    requires Shape(g, v) && OwnInRange(g, a.t)
  {
    forall l :: DirLoc(g, a, l) && Live(SlotAt(g, v, l)) ==> EntryOk(g, a, l, SlotAt(g, v, l))
  }

  ghost predicate OwnInRange(g: Geometry, t: Table) {
    forall c :: c in t.own ==> 2 <= c <= g.maxCluster
  }

  // Every chain but the root directory has an entry that refers to it.
  ghost predicate RefsOk(g: Geometry, v: Vol, a: Abs)
    requires Shape(g, v) && OwnInRange(g, a.t)
  {
    forall f :: f in a.t.chain && f != g.root ==>
      && f in a.ref
      && DirLoc(g, a, a.ref[f])
      && Real(SlotAt(g, v, a.ref[f]))
      && First(SlotAt(g, v, a.ref[f])) == f
  }

  ghost predicate DirsOk(g: Geometry, v: Vol, a: Abs)
    requires g.Valid() && Shape(g, v)
  {
    && g.root in a.dirs
    && (forall d :: d in a.dirs ==> d in a.t.chain)
    && (forall d :: d in a.dirs ==> DirOk(g, v, a.t.chain[d]))
  }

  ghost predicate DirOk(g: Geometry, v: Vol, ch: seq<nat>)
    requires g.Valid() && Shape(g, v)
  {
    (forall i :: 0 <= i < |ch| ==> 2 <= ch[i] <= g.maxCluster) && TidyDir(g, v, ch)
  }

  ghost predicate Mirrors(g: Geometry, v: Vol) { g.Valid() && Shape(g, v) && CopiesAgree(v) }

  /** The invariant: chains are terminated, acyclic, pairwise disjoint and cover exactly the
      allocated clusters; live entries (other than "." and "..") refer to distinct chains, of the
      length their size demands; and every chain but the root directory is referred to. */
  ghost predicate Inv(g: Geometry, v: Vol, a: Abs) {
    && Mirrors(g, v)
    && TableOk(v.fats[0], a.t)
    && OwnInRange(g, a.t)
    && DirsOk(g, v, a)
    && SlotsOk(g, v, a)
    && RefsOk(g, v, a)
  }

  // ----- writing one slot

  function PutInCluster(cl: Cluster, s: nat, i: nat, e: Slot): (r: Cluster)
    requires s < |cl| && i < 16
    ensures |r| == |cl| && SlotOf(r[s], i) == e
    ensures forall t, j :: 0 <= t < |cl| && 0 <= j < 16 && (t != s || j != i) ==>
              SlotOf(r[t], j) == SlotOf(cl[t], j) && Tag(r[t], j) == Tag(cl[t], j)
  {
    var r: Cluster := cl[s := PutSlot(cl[s], i, e)];
    r
  }

  // The directory clusters of a hold the same data in v and w, except for the slot l.
  ghost predicate SlotWrite(g: Geometry, v: Vol, w: Vol, a: Abs, l: Loc, e: Slot)
    requires Shape(g, v) && Shape(g, w) && OwnInRange(g, a.t) && DirLoc(g, a, l)
  {
    && w.data[l.c] == PutInCluster(v.data[l.c], l.s, l.i, e)
    && forall c: nat :: IsDirCluster(a, c) && c != l.c ==> w.data[c] == v.data[c]
  }

  lemma SlotWriteAt(g: Geometry, v: Vol, w: Vol, a: Abs, l: Loc, e: Slot, k: Loc)
    requires Shape(g, v) && Shape(g, w) && OwnInRange(g, a.t) && DirLoc(g, a, l)
    requires SlotWrite(g, v, w, a, l, e) && DirLoc(g, a, k)
    ensures SlotAt(g, w, k) == if k == l then e else SlotAt(g, v, k)
  {
  }

  // ----- tidiness after writing one slot

  lemma TidySectorPut(sec: Sector, i: nat, e: Slot)
    requires TidySector(sec) && i < 16 && e[0] != 0
    requires Tag(sec, i) != 0 || forall j :: 0 <= j < i ==> Tag(sec, j) != 0
    ensures TidySector(PutSlot(sec, i, e))
  {
    var r := PutSlot(sec, i, e);
    assert Tag(r, i) == SlotOf(r, i)[0];
  }

  // No slot before position (s, i) of the cluster is unused.
  ghost predicate FullBefore(cl: Cluster, s: nat, i: nat)
    requires s < |cl| && i < 16
  {
    && (forall t, j :: 0 <= t < s && 0 <= j < 16 ==> Tag(cl[t], j) != 0)
    && (forall j :: 0 <= j < i ==> Tag(cl[s], j) != 0)
  }

  lemma TidyClusterPut(cl: Cluster, s: nat, i: nat, e: Slot)
    requires TidyCluster(cl) && s < |cl| && i < 16 && e[0] != 0
    requires Tag(cl[s], i) != 0 || FullBefore(cl, s, i)
    ensures TidyCluster(PutInCluster(cl, s, i, e))
  {
    var r := PutInCluster(cl, s, i, e);
    TidySectorPut(cl[s], i, e);
    assert Tag(r[s], i) == SlotOf(r[s], i)[0];
    forall p, q | 0 <= p < q < |r| && Tag(r[p], 15) == 0 ensures BlankSector(r[q]) {
      assert Tag(cl[p], 15) == 0;
      assert BlankSector(cl[q]);
      assert q != s;
    }
  }

  ghost predicate FullCluster(cl: Cluster) {
    forall t, j :: 0 <= t < |cl| && 0 <= j < 16 ==> Tag(cl[t], j) != 0
  }

  // A slot of the chain that may be taken without leaving a gap behind: it is in use or
  // deleted, or no slot before it is unused.
  ghost predicate Takeable(g: Geometry, v: Vol, ch: seq<nat>, l: Loc)
    requires g.Valid() && Shape(g, v) && InVol(g, l)
  {
    || Tag(v.data[l.c][l.s], l.i) != 0
    || (FullBefore(v.data[l.c], l.s, l.i) &&
        exists a :: 0 <= a < |ch| && ch[a] == l.c &&
          forall b :: 0 <= b < a ==> 2 <= ch[b] <= g.maxCluster && FullCluster(v.data[ch[b]]))
  }

  lemma LastTagPut(g: Geometry, cl: Cluster, s: nat, i: nat, e: Slot)
    requires g.Valid() && |cl| == g.spc && s < |cl| && i < 16 && e[0] != 0
    ensures Tag(PutInCluster(cl, s, i, e)[g.spc - 1], 15) == 0 ==> Tag(cl[g.spc - 1], 15) == 0
  {
    var r := PutInCluster(cl, s, i, e);
    assert Tag(r[s], i) == SlotOf(r[s], i)[0];
  }

  // A takeable slot is not behind an unused one.
  lemma TakenIsNotBlank(g: Geometry, v: Vol, ch: seq<nat>, l: Loc, p: nat, q: nat)
    requires g.Valid() && Shape(g, v) && DirOk(g, v, ch) && Distinct(ch)
    requires InVol(g, l) && Takeable(g, v, ch, l)
    requires p < q < |ch|
    ensures ch[q] == l.c && Tag(v.data[ch[p]][g.spc - 1], 15) == 0 ==> !BlankCluster(v.data[l.c])
  {
    if ch[q] != l.c {
    } else if Tag(v.data[l.c][l.s], l.i) == 0 {
      var x :| 0 <= x < |ch| && ch[x] == l.c &&
        forall b :: 0 <= b < x ==> 2 <= ch[b] <= g.maxCluster && FullCluster(v.data[ch[b]]);
      assert x == q;
      assert FullCluster(v.data[ch[p]]);
    } else {
      assert !BlankSector(v.data[l.c][l.s]);
    }
  }

  lemma TidyDirPut(g: Geometry, v: Vol, w: Vol, ch: seq<nat>, l: Loc, e: Slot)
    requires g.Valid() && Shape(g, v) && Shape(g, w) && DirOk(g, v, ch) && Distinct(ch)
    requires InVol(g, l) && l.c in ch && e[0] != 0 && Takeable(g, v, ch, l)
    requires w.data[l.c] == PutInCluster(v.data[l.c], l.s, l.i, e)
    requires forall c :: c in ch && c != l.c ==> w.data[c] == v.data[c]
    ensures DirOk(g, w, ch)
  {
    TidyClusterPut(v.data[l.c], l.s, l.i, e);
    LastTagPut(g, v.data[l.c], l.s, l.i, e);
    forall p, q | 0 <= p < q < |ch| && Tag(w.data[ch[p]][g.spc - 1], 15) == 0
      ensures BlankCluster(w.data[ch[q]])
    {
      assert ch[p] in ch && ch[q] in ch;
      assert Tag(v.data[ch[p]][g.spc - 1], 15) == 0;
      assert BlankCluster(v.data[ch[q]]);
      TakenIsNotBlank(g, v, ch, l, p, q);
    }
    forall p | 0 <= p < |ch| ensures TidyCluster(w.data[ch[p]]) {
      assert ch[p] in ch;
    }
  }

  // ----- directory clusters under a change of the table

  lemma SameDirClusters(t: Table, t': Table, dirs: set<nat>)
    requires OwnersOk(t) && OwnersOk(t')
    requires forall d :: d in dirs && d in t.chain ==> d in t'.chain && t'.chain[d] == t.chain[d]
    requires forall d :: d in dirs && d in t'.chain ==> d in t.chain
    ensures forall c :: (c in t.own && t.own[c] in dirs) == (c in t'.own && t'.own[c] in dirs)
    ensures forall c :: c in t.own && t.own[c] in dirs ==> t'.own[c] == t.own[c]
  {
    forall c | c in t.own && t.own[c] in dirs ensures c in t'.own && t'.own[c] == t.own[c] {
      assert c in t.chain[t.own[c]];
      assert c in t'.chain[t.own[c]];
    }
    forall c | c in t'.own && t'.own[c] in dirs ensures c in t.own && t.own[c] in dirs {
      assert c in t'.chain[t'.own[c]];
      assert c in t.chain[t'.own[c]];
    }
  }

  lemma DirChainClusters(g: Geometry, v: Vol, a: Abs, d: nat, c: nat)
    requires g.Valid() && Shape(g, v) && OwnersOk(a.t) && DirsOk(g, v, a) && d in a.dirs && c in a.t.chain[d]
    ensures IsDirCluster(a, c) && a.t.own[c] == d
  {
  }

  // ----- a file entry gets a new extent (write and append)

  function Rechained(t: Table, was: nat, nf: nat, nch: seq<nat>): map<nat, seq<nat>> {
    var rest := t.chain - {was};
    if nf == 0 then rest else rest[nf := nch]
  }

  lemma RechainDirs(a: Abs, a2: Abs, was: nat, nf: nat, nch: seq<nat>)
    requires OwnersOk(a.t) && OwnersOk(a2.t) && a2.t.chain == Rechained(a.t, was, nf, nch) && a2.dirs == a.dirs
    requires forall d :: d in a.dirs ==> d in a.t.chain && d != was && d != nf
    ensures forall d :: d in a.dirs ==> d in a2.t.chain && a2.t.chain[d] == a.t.chain[d]
    ensures forall c: nat :: IsDirCluster(a, c) <==> IsDirCluster(a2, c)
    ensures forall c: nat :: IsDirCluster(a, c) ==> c in a2.t.own && a2.t.own[c] == a.t.own[c]
  {
    SameDirClusters(a.t, a2.t, a.dirs);
  }

  // Entries other than the one at l do not notice that l gets another extent.
  lemma RechainOther(g: Geometry, a: Abs, a2: Abs, l: Loc, was: nat, nf: nat, nch: seq<nat>, k: Loc, e: Slot)
    requires a2.t.chain == Rechained(a.t, was, nf, nch) && a2.dirs == a.dirs && a2.ref == a.ref[nf := l]
    requires nf in a.t.chain ==> nf == was
    requires was != 0 ==> was in a.ref && a.ref[was] == l
    requires forall d :: d in a.dirs ==> d in a.t.chain
    requires 0 !in a.t.chain
    requires k != l && RealOk(g, a, k, e)
    ensures RealOk(g, a2, k, e)
  {
  }

  lemma RechainSlots(g: Geometry, v: Vol, w: Vol, a: Abs, a2: Abs, l: Loc, was: nat, nf: nat, nch: seq<nat>, e: Slot)
    requires Shape(g, v) && Shape(g, w) && OwnInRange(g, a.t) && OwnInRange(g, a2.t)
    requires SlotsOk(g, v, a) && DirLoc(g, a, l) && SlotWrite(g, v, w, a, l, e)
    requires a2.t.chain == Rechained(a.t, was, nf, nch) && a2.dirs == a.dirs && a2.ref == a.ref[nf := l]
    requires nf in a.t.chain ==> nf == was
    requires was != 0 ==> was in a.ref && a.ref[was] == l
    requires forall d :: d in a.dirs ==> d in a.t.chain
    requires 0 !in a.t.chain
    requires forall c: nat :: IsDirCluster(a, c) <==> IsDirCluster(a2, c)
    requires forall c: nat :: IsDirCluster(a, c) ==> c in a2.t.own && a2.t.own[c] == a.t.own[c]
    requires EntryOk(g, a2, l, e) && AllEntered(g, a) && nf !in a.dirs
    ensures SlotsOk(g, w, a2)
  {
    forall k | DirLoc(g, a2, k) && Live(SlotAt(g, w, k)) ensures EntryOk(g, a2, k, SlotAt(g, w, k)) {
      assert DirLoc(g, a, k);
      SlotWriteAt(g, v, w, a, l, e, k);
      if k != l {
        assert EntryOk(g, a, k, SlotAt(g, v, k));
        if IsDot(SlotAt(g, v, k)) {
          DotKept(g, a, a2, k, SlotAt(g, v, k));
        } else {
          RechainOther(g, a, a2, l, was, nf, nch, k, SlotAt(g, v, k));
        }
      }
    }
  }

  lemma RechainRefs(g: Geometry, v: Vol, w: Vol, a: Abs, a2: Abs, l: Loc, was: nat, nf: nat, nch: seq<nat>, e: Slot)
    requires Shape(g, v) && Shape(g, w) && OwnInRange(g, a.t) && OwnInRange(g, a2.t)
    requires RefsOk(g, v, a) && DirLoc(g, a, l) && SlotWrite(g, v, w, a, l, e)
    requires a2.t.chain == Rechained(a.t, was, nf, nch) && a2.dirs == a.dirs && a2.ref == a.ref[nf := l]
    requires forall c: nat :: IsDirCluster(a, c) <==> IsDirCluster(a2, c)
    requires Real(e) && First(e) == nf && First(SlotAt(g, v, l)) == was
    ensures RefsOk(g, w, a2)
  {
    forall f | f in a2.t.chain && f != g.root
      ensures f in a2.ref && DirLoc(g, a2, a2.ref[f]) && Real(SlotAt(g, w, a2.ref[f]))
      ensures First(SlotAt(g, w, a2.ref[f])) == f
    {
      if f == nf {
        SlotWriteAt(g, v, w, a, l, e, l);
      } else {
        assert f in a.t.chain && f != was;
        SlotWriteAt(g, v, w, a, l, e, a.ref[f]);
      }
    }
  }

  // Directories stay tidy when the slot l is overwritten, if l may be taken.
  lemma DirsPut(g: Geometry, v: Vol, w: Vol, a: Abs, a2: Abs, l: Loc, e: Slot)
    requires g.Valid() && Shape(g, v) && Shape(g, w) && OwnInRange(g, a.t) && OwnersOk(a.t) && ChainsOk(v.fats[0], a.t)
    requires DirsOk(g, v, a) && DirLoc(g, a, l) && SlotWrite(g, v, w, a, l, e) && e[0] != 0
    requires Takeable(g, v, a.t.chain[a.t.own[l.c]], l)
    requires a2.dirs <= a.dirs && g.root in a2.dirs
    requires forall d :: d in a2.dirs ==> d in a2.t.chain && a2.t.chain[d] == a.t.chain[d]
    ensures DirsOk(g, w, a2)
  {
    forall d | d in a2.dirs ensures DirOk(g, w, a2.t.chain[d]) {
      var ch := a.t.chain[d];
      assert DirOk(g, v, ch) && IsChain(v.fats[0], ch);
      forall c | c in ch && c != l.c ensures w.data[c] == v.data[c] {
        DirChainClusters(g, v, a, d, c);
      }
      if l.c in ch {
        DirChainClusters(g, v, a, d, l.c);
        TidyDirPut(g, v, w, ch, l, e);
      } else {
        TidyDirSame(g, v, w, ch);
      }
    }
  }

  lemma TidyDirSame(g: Geometry, v: Vol, w: Vol, ch: seq<nat>)
    requires g.Valid() && Shape(g, v) && Shape(g, w) && DirOk(g, v, ch)
    requires forall c :: c in ch ==> w.data[c] == v.data[c]
    ensures DirOk(g, w, ch)
  {
    forall p | 0 <= p < |ch| ensures w.data[ch[p]] == v.data[ch[p]] { assert ch[p] in ch; }
  }

  lemma InvParts(g: Geometry, v: Vol, a: Abs)
    requires Inv(g, v, a)
    ensures g.Valid() && Shape(g, v) && OwnInRange(g, a.t) && OwnersOk(a.t) && ChainsOk(v.fats[0], a.t)
    ensures g.root in a.dirs && DirsHave(a) && 0 !in a.t.chain && AllEntered(g, a)
  {
    hide OwnersOk, UsedOk, SlotsOk, AllEntered;
    ZeroIsNoChain(v.fats[0], a.t);
    DirsEntered(g, v, a);
  }

  lemma SlotEntry(g: Geometry, v: Vol, a: Abs, l: Loc)
    requires Inv(g, v, a) && DirLoc(g, a, l) && Live(SlotAt(g, v, l))
    ensures EntryOk(g, a, l, SlotAt(g, v, l))
  {
    hide TableOk, DirsOk, RefsOk, EntryOk;
  }

  lemma ExtentOk(g: Geometry, a: Abs, a2: Abs, l: Loc, e: Slot, e2: Slot, nf: nat, nch: seq<nat>, n: nat)
    requires EntryOk(g, a, l, e) && Real(e) && !IsDir(e) && e2[..12] == e[..12] && First(e2) == nf && Size(e2) == n
    requires a2.t.chain == Rechained(a.t, First(e), nf, nch) && a2.dirs == a.dirs && a2.ref == a.ref[nf := l]
    requires nf !in a.dirs && if nf == 0 then n == 0 else Fits(g, |nch|, n)
    ensures EntryOk(g, a2, l, e2)
  {
    hide Fits, First, Size;
    SameKind(e, e2);
  }

  // A file entry gets a new extent: chain nch of first cluster nf, n bytes.
  lemma Rechain(g: Geometry, v: Vol, w: Vol, a: Abs, l: Loc, t2: Table, nf: nat, nch: seq<nat>, n: nat)
    requires Inv(g, v, a) && DirLoc(g, a, l) && Real(SlotAt(g, v, l)) && !IsDir(SlotAt(g, v, l))
    requires Mirrors(g, w) && TableOk(w.fats[0], t2) && OwnInRange(g, t2)
    requires t2.chain == Rechained(a.t, First(SlotAt(g, v, l)), nf, nch)
    requires nf < 0x1_0000_0000 && n < 0x1_0000_0000
    requires SlotWrite(g, v, w, a, l, WithExtent(SlotAt(g, v, l), nf, n))
    requires if nf == 0 then n == 0 else Fits(g, |nch|, n)
    requires nf in a.t.chain ==> nf == First(SlotAt(g, v, l))
    ensures Inv(g, w, Abs(t2, a.dirs, a.ref[nf := l]))
  {
    hide AllEntered, EntryOk, UsedOk, OwnersOk, ChainsOk, SlotsOk, RefsOk, WithExtent, First, Rechained, SlotWrite;
    var a2 := Abs(t2, a.dirs, a.ref[nf := l]);
    var e := SlotAt(g, v, l);
    var e2 := WithExtent(e, nf, n);
    InvParts(g, v, a);
    FileNotDir(g, v, a, l);
    SlotEntry(g, v, a, l);
    SameKind(e, e2);
    ExtentOk(g, a, a2, l, e, e2, nf, nch, n);
    RechainDirs(a, a2, First(e), nf, nch);
    OwnRef(g, a, l, e);
    RechainSlots(g, v, w, a, a2, l, First(e), nf, nch, e2);
    RechainRefs(g, v, w, a, a2, l, First(e), nf, nch, e2);
    assert Tag(v.data[l.c][l.s], l.i) == e[0];
    DirsPut(g, v, w, a, a2, l, e2);
  }

  lemma OwnRef(g: Geometry, a: Abs, l: Loc, e: Slot)
    requires EntryOk(g, a, l, e) && Real(e)
    ensures First(e) != 0 ==> First(e) in a.ref && a.ref[First(e)] == l
  {
  }

  lemma RechainKeeps(g: Geometry, v: Vol, w: Vol, a: Abs, l: Loc, t2: Table, nf: nat, nch: seq<nat>, n: nat)
    requires Inv(g, v, a) && DirLoc(g, a, l) && Real(SlotAt(g, v, l)) && !IsDir(SlotAt(g, v, l))
    requires Shape(g, w) && OwnersOk(t2) && OwnInRange(g, t2)
    requires t2.chain == Rechained(a.t, First(SlotAt(g, v, l)), nf, nch)
    requires nf < 0x1_0000_0000 && n < 0x1_0000_0000
    requires SlotWrite(g, v, w, a, l, WithExtent(SlotAt(g, v, l), nf, n))
    requires nf in a.t.chain ==> nf == First(SlotAt(g, v, l))
    ensures NamesKept(g, v, a, w, Abs(t2, a.dirs, a.ref[nf := l])) && OneChanged(g, v, a, w, l)
  {
    hide NamesKept, OneChanged, SameButExtent, SlotWrite, WithExtent, First, Rechained, Inv, OwnersOk, OwnInRange;
    hide SlotOf;
    FileNotDir(g, v, a, l);
    RechainNames(g, v, w, a, l, t2, nf, nch, WithExtent(SlotAt(g, v, l), nf, n));
  }

  lemma FileNotDir(g: Geometry, v: Vol, a: Abs, l: Loc)
    requires Inv(g, v, a) && DirLoc(g, a, l) && Real(SlotAt(g, v, l)) && !IsDir(SlotAt(g, v, l))
    ensures First(SlotAt(g, v, l)) !in a.dirs && OwnersOk(a.t) && DirsHave(a) && OwnInRange(g, a.t)
    ensures Shape(g, v) && InVol(g, l)
  {
    hide UsedOk, RefsOk;
    assert EntryOk(g, a, l, SlotAt(g, v, l));
    ZeroIsNoChain(v.fats[0], a.t);
  }

  // The same directories with the same slots, up to the extents of their entries.
  ghost predicate NamesKept(g: Geometry, v: Vol, a: Abs, w: Vol, b: Abs) {
    && Shape(g, v) && OwnInRange(g, a.t) && Shape(g, w) && OwnInRange(g, b.t) && b.dirs == a.dirs
    && (forall c: nat :: IsDirCluster(a, c) <==> IsDirCluster(b, c))
    && (forall c: nat :: IsDirCluster(a, c) ==> a.t.own[c] == b.t.own[c])
    && forall k :: DirLoc(g, a, k) ==>
         SlotAt(g, w, k)[..12] == SlotAt(g, v, k)[..12] && SameButExtent(SlotAt(g, v, k), SlotAt(g, w, k))
  }

  // No slot of a directory but l has changed.
  ghost predicate OneChanged(g: Geometry, v: Vol, a: Abs, w: Vol, l: Loc) {
    && Shape(g, v) && OwnInRange(g, a.t) && Shape(g, w)
    && forall k :: DirLoc(g, a, k) && k != l ==> SlotAt(g, w, k) == SlotAt(g, v, k)
  }

  lemma RechainNames(g: Geometry, v: Vol, w: Vol, a: Abs, l: Loc, t2: Table, nf: nat, nch: seq<nat>, e: Slot)
    requires Shape(g, v) && Shape(g, w) && OwnInRange(g, a.t) && OwnersOk(a.t) && DirsHave(a) && DirLoc(g, a, l)
    requires OwnersOk(t2) && OwnInRange(g, t2) && t2.chain == Rechained(a.t, First(SlotAt(g, v, l)), nf, nch)
    requires SlotWrite(g, v, w, a, l, e) && e[..12] == SlotAt(g, v, l)[..12] && SameButExtent(SlotAt(g, v, l), e)
    requires First(SlotAt(g, v, l)) !in a.dirs && (nf in a.t.chain ==> nf == First(SlotAt(g, v, l)))
    ensures NamesKept(g, v, a, w, Abs(t2, a.dirs, a.ref[nf := l])) && OneChanged(g, v, a, w, l)
  {
    var a2 := Abs(t2, a.dirs, a.ref[nf := l]);
    RechainDirs(a, a2, First(SlotAt(g, v, l)), nf, nch);
    SameDirClusters(a.t, t2, a.dirs);
    forall k | DirLoc(g, a, k)
      ensures SlotAt(g, w, k)[..12] == SlotAt(g, v, k)[..12] && SameButExtent(SlotAt(g, v, k), SlotAt(g, w, k))
      ensures k != l ==> SlotAt(g, w, k) == SlotAt(g, v, k)
    {
      SlotWriteAt(g, v, w, a, l, e, k);
    }
  }

  ghost predicate DirsHave(a: Abs) { forall d :: d in a.dirs ==> d in a.t.chain }

  lemma ZeroIsNoChain(L: Links, t: Table)
    requires ChainsOk(L, t)
    ensures 0 !in t.chain
  {
    assert forall f :: f in t.chain ==> t.chain[f][0] >= 2;
  }

  lemma SameKind(e: Slot, e2: Slot)
    requires e[..12] == e2[..12]
    ensures Live(e) == Live(e2) && IsDot(e) == IsDot(e2) && IsDir(e) == IsDir(e2) && IsVolume(e) == IsVolume(e2)
    ensures e[0] == e2[0] && e[..11] == e2[..11] && Decode(e) == Decode(e2)
  {
    assert forall i :: 0 <= i < 12 ==> e[i] == e[..12][i] == e2[i];
    assert e[..8] == e[..12][..8] == e2[..8];
    assert e[8..11] == e[..12][8..11] == e2[8..11];
  }

  // ----- a new entry (create and mkdir)

  // All live slots are "." and ".." entries of the directory nd in the directory d.
  ghost predicate DotsOnly(cl: Cluster, nd: nat, d: nat) {
    && TidyCluster(cl)
    && forall t, j :: 0 <= t < |cl| && 0 <= j < 16 && Live(SlotOf(cl[t], j)) ==> DotOk(SlotOf(cl[t], j), nd, d)
  }

  predicate DotOk(e: Slot, nd: nat, d: nat) {
    && !IsVolume(e) && IsDot(e) && IsDir(e)
    && ((e[..11] == DOT_NAME && First(e) == nd) || (e[..11] == DOTDOT_NAME && First(e) == d))
  }

  // nd is 0 for a file, or the cluster of the new directory.
  ghost function Grown(a: Abs, l: Loc, nd: nat): Abs {
    if nd == 0 then a else Abs(AddChain(a.t, nd), a.dirs + {nd}, a.ref[nd := l])
  }

  lemma GrownClusters(a: Abs, l: Loc, nd: nat)
    requires OwnersOk(a.t) && nd !in a.t.own && nd !in a.t.chain
    requires forall d :: d in a.dirs ==> d in a.t.chain
    ensures forall c: nat :: IsDirCluster(Grown(a, l, nd), c) <==> IsDirCluster(a, c) || (nd != 0 && c == nd)
  {
  }

  lemma GrowOther(g: Geometry, a: Abs, l: Loc, nd: nat, k: Loc, e: Slot)
    requires nd !in a.t.chain && k != l && RealOk(g, a, k, e) && 0 !in a.t.chain
    requires forall d :: d in a.dirs ==> d in a.t.chain
    ensures RealOk(g, Grown(a, l, nd), k, e)
  {
  }

  lemma NewDotOk(g: Geometry, a: Abs, l: Loc, nd: nat, k: Loc, e: Slot)
    requires DirLoc(g, a, l) && OwnInRange(g, a.t) && OwnersOk(a.t) && forall d :: d in a.dirs ==> d in a.t.chain
    requires nd != 0 && nd != g.root && nd !in a.t.own && k.c == nd && DotOk(e, nd, a.t.own[l.c]) && 0 !in a.t.chain
    ensures EntryOk(g, Grown(a, l, nd), k, e)
  {
  }

  lemma GrowSlots(g: Geometry, v: Vol, w: Vol, a: Abs, l: Loc, nd: nat, e: Slot)
    requires Shape(g, v) && Shape(g, w) && OwnInRange(g, a.t) && OwnInRange(g, Grown(a, l, nd).t)
    requires SlotsOk(g, v, a) && DirLoc(g, a, l) && SlotWrite(g, v, w, a, l, e)
    requires OwnersOk(a.t) && nd !in a.t.own && nd !in a.t.chain && 0 !in a.t.chain
    requires forall d :: d in a.dirs ==> d in a.t.chain
    requires nd != 0 ==> 2 <= nd <= g.maxCluster && nd != g.root && DotsOnly(w.data[nd], nd, a.t.own[l.c])
    requires EntryOk(g, Grown(a, l, nd), l, e) && AllEntered(g, a)
    ensures SlotsOk(g, w, Grown(a, l, nd))
  {
    var a2 := Grown(a, l, nd);
    GrownClusters(a, l, nd);
    forall k | DirLoc(g, a2, k) && Live(SlotAt(g, w, k)) ensures EntryOk(g, a2, k, SlotAt(g, w, k)) {
      if nd != 0 && k.c == nd {
        assert DotOk(SlotAt(g, w, k), nd, a.t.own[l.c]);
        NewDotOk(g, a, l, nd, k, SlotAt(g, w, k));
      } else {
        assert DirLoc(g, a, k);
        SlotWriteAt(g, v, w, a, l, e, k);
        if k != l {
          assert EntryOk(g, a, k, SlotAt(g, v, k));
          if IsDot(SlotAt(g, v, k)) {
            DotKept(g, a, a2, k, SlotAt(g, v, k));
          } else {
            GrowOther(g, a, l, nd, k, SlotAt(g, v, k));
          }
        }
      }
    }
  }

  lemma GrowRefs(g: Geometry, v: Vol, w: Vol, a: Abs, l: Loc, nd: nat, e: Slot)
    requires Shape(g, v) && Shape(g, w) && OwnInRange(g, a.t) && OwnInRange(g, Grown(a, l, nd).t)
    requires RefsOk(g, v, a) && DirLoc(g, a, l) && SlotWrite(g, v, w, a, l, e)
    requires OwnersOk(a.t) && nd !in a.t.own && nd !in a.t.chain
    requires forall d :: d in a.dirs ==> d in a.t.chain
    requires Real(e) && First(e) == nd && !Live(SlotAt(g, v, l))
    ensures RefsOk(g, w, Grown(a, l, nd))
  {
    var a2 := Grown(a, l, nd);
    GrownClusters(a, l, nd);
    forall f | f in a2.t.chain && f != g.root
      ensures f in a2.ref && DirLoc(g, a2, a2.ref[f]) && Real(SlotAt(g, w, a2.ref[f]))
      ensures First(SlotAt(g, w, a2.ref[f])) == f
    {
      if f == nd {
        SlotWriteAt(g, v, w, a, l, e, l);
      } else {
        assert f in a.t.chain;
        SlotWriteAt(g, v, w, a, l, e, a.ref[f]);
      }
    }
  }

  lemma GrowDirs(g: Geometry, v: Vol, w: Vol, a: Abs, l: Loc, nd: nat, e: Slot)
    requires g.Valid() && Shape(g, v) && Shape(g, w) && OwnInRange(g, a.t) && OwnersOk(a.t) && ChainsOk(v.fats[0], a.t)
    requires DirsOk(g, v, a) && DirLoc(g, a, l) && SlotWrite(g, v, w, a, l, e) && e[0] != 0
    requires Takeable(g, v, a.t.chain[a.t.own[l.c]], l)
    requires nd !in a.t.chain && (nd != 0 ==> 2 <= nd <= g.maxCluster && DotsOnly(w.data[nd], nd, a.t.own[l.c]))
    ensures DirsOk(g, w, Grown(a, l, nd))
  {
    var a2 := Grown(a, l, nd);
    var a1 := Abs(a2.t, a.dirs, a2.ref);
    forall d | d in a.dirs ensures d in a2.t.chain && a2.t.chain[d] == a.t.chain[d] { assert d in a.t.chain; }
    DirsPut(g, v, w, a, a1, l, e);
    if nd != 0 {
      DotsDirOk(g, w, nd, a.t.own[l.c]);
      DirsInsert(g, w, a1, a2, nd);
    }
  }

  lemma DirsInsert(g: Geometry, w: Vol, a1: Abs, a2: Abs, nd: nat)
    requires g.Valid() && Shape(g, w) && DirsOk(g, w, a1) && a2.t == a1.t && a2.dirs == a1.dirs + {nd}
    requires nd in a2.t.chain && DirOk(g, w, a2.t.chain[nd])
    ensures DirsOk(g, w, a2)
  {
  }

  lemma DotsDirOk(g: Geometry, w: Vol, nd: nat, d: nat)
    requires g.Valid() && Shape(g, w) && 2 <= nd <= g.maxCluster && DotsOnly(w.data[nd], nd, d)
    ensures DirOk(g, w, [nd])
  {
  }

  /** A fresh entry is written into a free slot; for mkdir it refers to a directory that holds
      only its "." and ".." entries. */
  lemma Grow(g: Geometry, v: Vol, w: Vol, a: Abs, l: Loc, nd: nat, e: Slot)
    requires Inv(g, v, a) && DirLoc(g, a, l) && !Live(SlotAt(g, v, l))
    requires Takeable(g, v, a.t.chain[a.t.own[l.c]], l)
    requires Mirrors(g, w) && SlotWrite(g, v, w, a, l, e)
    requires Real(e) && !IsVolume(e) && First(e) == nd && Size(e) == 0
    requires if nd == 0 then w.fats == v.fats && !IsDir(e)
             else 2 <= nd <= g.maxCluster && v.fats[0][nd] == 0 && w.fats[0] == v.fats[0][nd := EOC]
                  && IsDir(e) && DotsOnly(w.data[nd], nd, a.t.own[l.c])
    ensures Inv(g, w, Grown(a, l, nd))
  {
    var a2 := Grown(a, l, nd);
    ZeroIsNoChain(v.fats[0], a.t);
    if nd != 0 { AddChainOk(v.fats[0], a.t, nd); }
    else { assert nd !in a.t.own; }
    assert nd != g.root by { assert g.root in a.t.chain; }
    assert EntryOk(g, a2, l, e);
    DirsEntered(g, v, a);
    GrowSlots(g, v, w, a, l, nd, e);
    GrowRefs(g, v, w, a, l, nd, e);
    GrowDirs(g, v, w, a, l, nd, e);
  }

  // ----- an entry is deleted (unlink and rmdir)

  ghost function Pruned(a: Abs, was: nat): Abs {
    if was in a.t.chain then Abs(DropChain(a.t, was), a.dirs - {was}, a.ref) else a
  }

  lemma PrunedClusters(a: Abs, was: nat)
    requires OwnersOk(a.t)
    ensures forall c: nat :: IsDirCluster(Pruned(a, was), c) <==>
              IsDirCluster(a, c) && (was in a.t.chain ==> a.t.own[c] != was)
  {
  }

  // No cluster of the chain "was" holds an entry other than "." and "..", if it is a directory.
  ghost predicate EmptyDir(g: Geometry, v: Vol, a: Abs, was: nat)
    requires Shape(g, v) && OwnInRange(g, a.t)
  {
    forall k :: DirLoc(g, a, k) && a.t.own[k.c] == was ==> !Real(SlotAt(g, v, k))
  }

  // A directory is not entered in one that is empty.
  lemma PrunedParent(g: Geometry, v: Vol, a: Abs, was: nat, d: nat)
    requires Shape(g, v) && OwnInRange(g, a.t) && OwnersOk(a.t) && RefsOk(g, v, a) && EmptyDir(g, v, a, was)
    requires d in a.t.chain && d != g.root
    ensures d in a.ref && a.ref[d].c in Pruned(a, was).t.own && Pruned(a, was).t.own[a.ref[d].c] == a.t.own[a.ref[d].c]
  {
    assert Real(SlotAt(g, v, a.ref[d]));
    assert a.t.own[a.ref[d].c] != was;
  }

  lemma PruneSlots(g: Geometry, v: Vol, w: Vol, a: Abs, l: Loc, was: nat, e: Slot)
    requires Shape(g, v) && Shape(g, w) && OwnInRange(g, a.t) && OwnInRange(g, Pruned(a, was).t)
    requires SlotsOk(g, v, a) && DirLoc(g, a, l) && SlotWrite(g, v, w, a, l, e) && OwnersOk(a.t)
    requires 0 !in a.t.chain && (was != 0 ==> was in a.ref && a.ref[was] == l)
    requires !Live(e) && RefsOk(g, v, a) && EmptyDir(g, v, a, was) && forall d :: d in a.dirs ==> d in a.t.chain
    ensures SlotsOk(g, w, Pruned(a, was))
  {
    hide EmptyDir, RefsOk;
    var a2 := Pruned(a, was);
    PrunedClusters(a, was);
    forall k | DirLoc(g, a2, k) && Live(SlotAt(g, w, k)) ensures EntryOk(g, a2, k, SlotAt(g, w, k)) {
      assert DirLoc(g, a, k);
      SlotWriteAt(g, v, w, a, l, e, k);
      assert k != l && EntryOk(g, a, k, SlotAt(g, v, k));
      if IsDot(SlotAt(g, v, k)) {
        PrunedParent(g, v, a, was, a.t.own[k.c]);
        DotKept(g, a, a2, k, SlotAt(g, v, k));
      }
    }
  }

  lemma PruneRefs(g: Geometry, v: Vol, w: Vol, a: Abs, l: Loc, was: nat, e: Slot)
    requires Shape(g, v) && Shape(g, w) && OwnInRange(g, a.t) && OwnInRange(g, Pruned(a, was).t)
    requires RefsOk(g, v, a) && DirLoc(g, a, l) && SlotWrite(g, v, w, a, l, e) && OwnersOk(a.t)
    requires First(SlotAt(g, v, l)) == was && EmptyDir(g, v, a, was)
    requires was == 0 || was in a.t.chain
    ensures RefsOk(g, w, Pruned(a, was))
  {
    var a2 := Pruned(a, was);
    PrunedClusters(a, was);
    forall f | f in a2.t.chain && f != g.root
      ensures f in a2.ref && DirLoc(g, a2, a2.ref[f]) && Real(SlotAt(g, w, a2.ref[f]))
      ensures First(SlotAt(g, w, a2.ref[f])) == f
    {
      assert f in a.t.chain;
      assert f != was;
      var k := a.ref[f];
      SlotWriteAt(g, v, w, a, l, e, k);
    }
  }

  // The links after the chain "was" has been freed (nothing is freed if there is no chain).
  ghost predicate Freed(L: Links, M: Links, t: Table, was: nat) {
    && |M| == |L|
    && forall c :: 2 <= c < |L| ==>
         M[c] == if was in t.chain && c in t.chain[was] then 0 else L[c]
  }

  lemma PruneTable(L: Links, M: Links, a: Abs, was: nat)
    requires TableOk(L, a.t) && Freed(L, M, a.t, was)
    ensures TableOk(M, Pruned(a, was).t)
  {
    if was in a.t.chain {
      hide ChainsOk, OwnersOk, UsedOk, IsChain;
      DropChainOk(L, M, a.t, was);
    } else {
      hide OwnersOk;
      forall f | f in a.t.chain ensures IsChain(M, a.t.chain[f]) {
        ChainSame(L, M, a.t.chain[f]);
      }
    }
  }

  lemma PruneDirs(g: Geometry, v: Vol, w: Vol, a: Abs, l: Loc, was: nat, e: Slot)
    requires g.Valid() && Shape(g, v) && Shape(g, w) && OwnInRange(g, a.t) && OwnersOk(a.t) && ChainsOk(v.fats[0], a.t)
    requires DirsOk(g, v, a) && DirLoc(g, a, l) && SlotWrite(g, v, w, a, l, e) && e[0] != 0
    requires Live(SlotAt(g, v, l)) && was != g.root
    ensures DirsOk(g, w, Pruned(a, was))
  {
    assert Tag(v.data[l.c][l.s], l.i) == SlotAt(g, v, l)[0];
    DirsPut(g, v, w, a, Pruned(a, was), l, e);
  }

  // A directory entry refers to no chain, or to one of its own.
  lemma RefersTo(g: Geometry, a: Abs, l: Loc, e: Slot)
    requires g.Valid() && EntryOk(g, a, l, e) && Real(e) && g.root in a.dirs && DirsHave(a)
    ensures (First(e) == 0 || First(e) in a.t.chain) && First(e) != g.root
  {
  }

  lemma PrunedRange(g: Geometry, a: Abs, was: nat)
    requires OwnInRange(g, a.t)
    ensures OwnInRange(g, Pruned(a, was).t)
  {
  }

  /** An entry is marked deleted and its chain freed; a directory must be empty. */
  lemma Prune(g: Geometry, v: Vol, w: Vol, a: Abs, l: Loc, was: nat)
    requires Inv(g, v, a) && DirLoc(g, a, l) && Real(SlotAt(g, v, l)) && was == First(SlotAt(g, v, l))
    requires EmptyDir(g, v, a, was)
    requires Mirrors(g, w) && SlotWrite(g, v, w, a, l, Erased(SlotAt(g, v, l)))
    requires Freed(v.fats[0], w.fats[0], a.t, was)
    ensures Inv(g, w, Pruned(a, was))
  {
    hide AllEntered, EntryOk, UsedOk, OwnersOk, ChainsOk, SlotsOk, RefsOk, DirsOk, Erased, First, SlotWrite, Freed,
         EmptyDir, Pruned;
    var e := SlotAt(g, v, l);
    InvParts(g, v, a);
    SlotEntry(g, v, a, l);
    OwnRef(g, a, l, e);
    RefersTo(g, a, l, e);
    PrunedRange(g, a, was);
    PruneTable(v.fats[0], w.fats[0], a, was);
    PruneSlots(g, v, w, a, l, was, Erased(e));
    PruneRefs(g, v, w, a, l, was, Erased(e));
    PruneDirs(g, v, w, a, l, was, Erased(e));
  }

  // ----- a directory grows by a blank cluster (dir_find_free_slot)

  ghost function Stretched(a: Abs, d: nat, nc: nat): Abs
    requires d in a.t.chain && d != nc
  {
    Abs(JoinChain(AddChain(a.t, nc), d, nc), a.dirs, a.ref)
  }

  lemma StretchedClusters(a: Abs, d: nat, nc: nat)
    requires OwnersOk(a.t) && d in a.dirs && d in a.t.chain && nc !in a.t.own && nc !in a.t.chain
    ensures forall c: nat :: IsDirCluster(Stretched(a, d, nc), c) <==> IsDirCluster(a, c) || c == nc
  {
  }

  lemma BlankIsNotLive(g: Geometry, w: Vol, k: Loc)
    requires Shape(g, w) && InVol(g, k)
    ensures BlankCluster(w.data[k.c]) ==> !Live(SlotAt(g, w, k))
  {
    assert Tag(w.data[k.c][k.s], k.i) == SlotAt(g, w, k)[0];
    if BlankCluster(w.data[k.c]) { assert BlankSector(w.data[k.c][k.s]); }
  }

  lemma StretchSlots(g: Geometry, v: Vol, w: Vol, a: Abs, d: nat, nc: nat)
    requires Shape(g, v) && Shape(g, w) && OwnInRange(g, a.t) && 2 <= nc <= g.maxCluster
    requires SlotsOk(g, v, a) && OwnersOk(a.t) && d in a.dirs && d in a.t.chain && nc !in a.t.own && nc !in a.t.chain
    requires BlankCluster(w.data[nc]) && forall c :: c in a.t.own ==> w.data[c] == v.data[c]
    requires AllEntered(g, a)
    ensures SlotsOk(g, w, Stretched(a, d, nc))
  {
    var a2 := Stretched(a, d, nc);
    hide BlankCluster, EntryOk, JoinChain, AddChain;
    StretchedClusters(a, d, nc);
    forall k | DirLoc(g, a2, k) && Live(SlotAt(g, w, k)) ensures EntryOk(g, a2, k, SlotAt(g, w, k)) {
      BlankIsNotLive(g, w, k);
      if k.c != nc {
        assert DirLoc(g, a, k) && SlotAt(g, w, k) == SlotAt(g, v, k);
        assert EntryOk(g, a, k, SlotAt(g, v, k));
        StretchOther(g, a, d, nc, k, SlotAt(g, v, k));
      }
    }
  }

  lemma StretchOther(g: Geometry, a: Abs, d: nat, nc: nat, k: Loc, e: Slot)
    requires OwnersOk(a.t) && d in a.dirs && d in a.t.chain && nc !in a.t.own && nc !in a.t.chain && AllEntered(g, a)
    requires EntryOk(g, a, k, e) && IsDirCluster(a, k.c)
    ensures EntryOk(g, Stretched(a, d, nc), k, e)
  {
    if IsDot(e) { DotKept(g, a, Stretched(a, d, nc), k, e); }
  }

  lemma StretchRefs(g: Geometry, v: Vol, w: Vol, a: Abs, d: nat, nc: nat)
    requires Shape(g, v) && Shape(g, w) && OwnInRange(g, a.t) && 2 <= nc <= g.maxCluster
    requires RefsOk(g, v, a) && OwnersOk(a.t) && d in a.dirs && d in a.t.chain && nc !in a.t.own && nc !in a.t.chain
    requires forall c :: c in a.t.own ==> w.data[c] == v.data[c]
    ensures RefsOk(g, w, Stretched(a, d, nc))
  {
    var a2 := Stretched(a, d, nc);
    StretchedClusters(a, d, nc);
    forall f | f in a2.t.chain && f != g.root
      ensures f in a2.ref && DirLoc(g, a2, a2.ref[f]) && Real(SlotAt(g, w, a2.ref[f]))
      ensures First(SlotAt(g, w, a2.ref[f])) == f
    {
      assert f in a.t.chain;
      var k := a.ref[f];
      assert DirLoc(g, a, k) && SlotAt(g, w, k) == SlotAt(g, v, k);
    }
  }

  lemma TidyDirAppend(g: Geometry, v: Vol, w: Vol, ch: seq<nat>, nc: nat)
    requires g.Valid() && Shape(g, v) && Shape(g, w) && DirOk(g, v, ch) && 2 <= nc <= g.maxCluster
    requires BlankCluster(w.data[nc]) && forall c :: c in ch ==> w.data[c] == v.data[c]
    ensures DirOk(g, w, ch + [nc])
  {
    TidyDirSame(g, v, w, ch);
    var ch' := ch + [nc];
    forall p, q | 0 <= p < q < |ch'| && Tag(w.data[ch'[p]][g.spc - 1], 15) == 0
      ensures BlankCluster(w.data[ch'[q]])
    {
      assert ch'[p] == ch[p];
    }
  }

  lemma StretchDirs(g: Geometry, v: Vol, w: Vol, a: Abs, d: nat, nc: nat)
    requires g.Valid() && Shape(g, v) && Shape(g, w) && OwnInRange(g, a.t) && OwnersOk(a.t) && 2 <= nc <= g.maxCluster
    requires DirsOk(g, v, a) && d in a.dirs && nc !in a.t.chain
    requires BlankCluster(w.data[nc]) && forall c :: c in a.t.own ==> w.data[c] == v.data[c]
    ensures DirsOk(g, w, Stretched(a, d, nc))
  {
    var a2 := Stretched(a, d, nc);
    forall h | h in a2.dirs ensures h in a2.t.chain && DirOk(g, w, a2.t.chain[h]) {
      var ch := a.t.chain[h];
      assert DirOk(g, v, ch);
      forall c | c in ch ensures w.data[c] == v.data[c] { DirChainClusters(g, v, a, h, c); }
      if h == d {
        assert a2.t.chain[h] == ch + [nc];
        TidyDirAppend(g, v, w, ch, nc);
      } else {
        assert a2.t.chain[h] == ch;
        TidyDirSame(g, v, w, ch);
      }
    }
  }

  /** A zeroed cluster is linked behind a directory. */
  lemma Stretch(g: Geometry, v: Vol, w: Vol, a: Abs, d: nat, nc: nat)
    requires Inv(g, v, a) && d in a.dirs && Mirrors(g, w)
    requires 2 <= nc <= g.maxCluster && v.fats[0][nc] == 0
    requires d in a.t.chain && |a.t.chain[d]| > 0 && 2 <= a.t.chain[d][|a.t.chain[d]| - 1] <= g.maxCluster
    requires w.fats[0] == v.fats[0][nc := EOC][a.t.chain[d][|a.t.chain[d]| - 1] := nc]
    requires BlankCluster(w.data[nc]) && forall c :: c in a.t.own ==> w.data[c] == v.data[c]
    ensures d != nc && Inv(g, w, Stretched(a, d, nc))
  {
    hide ChainsOk, OwnersOk, UsedOk, SlotsOk, RefsOk, DirsOk;
    AddChainOk(v.fats[0], a.t, nc);
    JoinChainOk(v.fats[0][nc := EOC], AddChain(a.t, nc), d, nc);
    DirsEntered(g, v, a);
    StretchSlots(g, v, w, a, d, nc);
    StretchRefs(g, v, w, a, d, nc);
    StretchDirs(g, v, w, a, d, nc);
  }
}
