/**
 Files on the bytes: which bytes of an entry say where a file is and how long it is, and where
 its bytes are on the disk.
 */
module Fat32Bytes {
  import opened Bytes
  import opened Fat32Chains
  import opened Fat32Volume
  import opened Fat32Dirs
  import opened Fat32State
  import opened Fat32Files
  import opened Fat32Crash
  import Fat32Layout

  // ----- what is stored behind an entry

  // The 32 bytes of an entry.
  function EntryAt(g: Geometry, v: Vol, l: Loc): (e: seq<byte>)
    requires Shape(g, v) && InVol(g, l)
    ensures |e| == 32
  {
    v.data[l.c][l.s][32 * l.i .. 32 * l.i + 32]
  }

  // The first cluster: its low half is in bytes 26 and 27, its high half in bytes 20 and 21.
  function FirstIn(e: seq<byte>): nat
    requires |e| == 32
  {
    Le32(e[26], e[27], e[20], e[21])
  }

  // The size of the file, in bytes 28 to 31.
  function SizeIn(e: seq<byte>): nat
    requires |e| == 32
  {
    Le32(e[28], e[29], e[30], e[31])
  }

  // The cluster that j links lead to from c.
  function Nth(L: Links, c: nat, j: nat): nat {
    if j == 0 then c
    else
      var d := Nth(L, c, j - 1);
      if 2 <= d < |L| then L[d] else 0
  }

  // The number, in a file, of byte i of sector s of cluster j.
  function Pos(g: Geometry, j: nat, s: nat, i: nat): nat { 512 * (j * g.spc + s) + i }

  // The bytes "all" have that byte, if they are so many, in the j-th cluster from c.
  predicate StoredAt(g: Geometry, v: Vol, c: nat, all: seq<byte>, j: nat, s: nat, i: nat)
    requires Shape(g, v)
  {
    s < g.spc && i < 512 && Pos(g, j, s, i) < |all| ==>
      var d := Nth(v.fats[0], c, j); 2 <= d <= g.maxCluster && v.data[d][s][i] == all[Pos(g, j, s, i)]
  }

  // The j-th cluster from c is the last one of n bytes, and ends its chain.
  predicate EndsAt(g: Geometry, v: Vol, c: nat, n: nat, j: nat)
    requires |v.fats| > 0
  {
    Pos(g, j, 0, 0) < n <= Pos(g, j + 1, 0, 0) && Nth(v.fats[0], c, j + 1) >= 0x0FFF_FFF8
  }

  // The entry e stands for a file of these bytes.
  ghost predicate Stores(g: Geometry, v: Vol, e: seq<byte>, all: seq<byte>)
    requires Shape(g, v) && |e| == 32
  {
    && SizeIn(e) == |all|
    && (forall j: nat, s: nat, i: nat :: StoredAt(g, v, FirstIn(e), all, j, s, i))
    && if all == [] then FirstIn(e) == 0 else exists j: nat :: EndsAt(g, v, FirstIn(e), |all|, j)
  }

  /** What is stored is determined by the entry. */
  lemma StoresOne(g: Geometry, v: Vol, e: seq<byte>, x: seq<byte>, y: seq<byte>)
    requires g.Valid() && Shape(g, v) && |e| == 32 && Stores(g, v, e, x) && Stores(g, v, e, y)
    ensures x == y
  {
    hide Nth, Pos;
    forall k | 0 <= k < |x| ensures x[k] == y[k] {
      var j, s, i := PosOf(g, k);
      assert StoredAt(g, v, FirstIn(e), x, j, s, i) && StoredAt(g, v, FirstIn(e), y, j, s, i);
    }
  }

  lemma PosOf(g: Geometry, k: nat) returns (j: nat, s: nat, i: nat)
    requires g.Valid()
    ensures s < g.spc && i < 512 && k == Pos(g, j, s, i)
  {
    var q := k / 512;
    j, s, i := q / g.spc, q % g.spc, k % 512;
  }

  // ----- it is what reading yields

  lemma FieldsAre(e: Slot)
    ensures First(e) == FirstIn(e) && Size(e) == SizeIn(e)
  {
  }

  lemma {:induction false} WalkNth(L: Links, c: nat, fuel: nat, j: nat)
    requires j < |Walk(L, c, fuel)|
    ensures Walk(L, c, fuel)[j] == Nth(L, c, j)
    decreases j
  {
    if j > 0 {
      WalkNth(L, L[c], fuel - 1, j - 1);
      NthNext(L, c, j);
    }
  }

  // The first of j links may be followed first.
  lemma {:induction false} NthNext(L: Links, c: nat, j: nat)
    requires 2 <= c < |L| && j >= 1
    ensures Nth(L, c, j) == Nth(L, L[c], j - 1)
    decreases j
  {
    if j > 1 { NthNext(L, c, j - 1); }
  }

  lemma {:induction false} SectorByte(cl: Cluster, s: nat, i: nat)
    requires s < |cl| && i < 512
    ensures SectorBytes(cl)[512 * s + i] == cl[s][i]
  {
    if s > 0 { SectorByte(cl[1..], s - 1, i); }
  }

  lemma PosNext(g: Geometry, j: nat, s: nat, i: nat)
    requires j >= 1
    ensures Pos(g, j, s, i) == Pos(g, j - 1, s, i) + g.ClusterBytes()
    ensures Pos(g, 0, s, i) == 512 * s + i
  {
    assert j * g.spc == (j - 1) * g.spc + g.spc;
  }

  lemma {:induction false} ChainByte(g: Geometry, v: Vol, ch: seq<nat>, j: nat, s: nat, i: nat)
    requires g.Valid() && Shape(g, v) && forall i :: 0 <= i < |ch| ==> 2 <= ch[i] <= g.maxCluster
    requires s < g.spc && i < 512 && Pos(g, j, s, i) < |ChainBytes(g, v, ch)|
    ensures j < |ch| && ChainBytes(g, v, ch)[Pos(g, j, s, i)] == v.data[ch[j]][s][i]
    decreases |ch|
  {
    hide SectorBytes, Pos;
    if j == 0 {
      PosNext(g, 1, s, i);
      SectorByte(v.data[ch[0]], s, i);
    } else {
      PosNext(g, j, s, i);
      ChainByte(g, v, ch[1..], j - 1, s, i);
    }
  }

  /** Every byte that is read, in any image, is stored behind the first cluster in the entry. */
  lemma ContentAt(g: Geometry, v: Vol, e: Slot, j: nat, s: nat, i: nat)
    requires g.Valid() && Shape(g, v)
    ensures |Content(g, v, e)| <= SizeIn(e) && StoredAt(g, v, FirstIn(e), Content(g, v, e), j, s, i)
  {
    hide ChainBytes, First, Size, Pos;
    FieldsAre(e);
    var ch := Walk(v.fats[0], First(e), g.maxCluster);
    if s < g.spc && i < 512 && Pos(g, j, s, i) < |Content(g, v, e)| {
      ChainByte(g, v, ch, j, s, i);
      WalkNth(v.fats[0], First(e), g.maxCluster, j);
    }
  }

  /** In a sound volume, reading a path gives what the entry it leads to stands for. */
  lemma PathStores(g: Geometry, v: Vol, a: Abs, path: seq<Name>)
    requires Inv(g, v, a) && Shape(g, v) && g.Valid() && |path| >= 1 && ThroughDirs(g, v, g.root, path)
    requires ReadPath(g, v, path).Some?
    ensures var e := EntryAt(g, v, Resolve(g, v, g.root, path).value);
            Stores(g, v, e, ReadPath(g, v, path).value) && e[11] / 16 % 2 == 0
  {
    hide Inv, Content, ThroughDirs, Resolve, Stores, EntryAt, RealOk, SlotOf;
    RootIn(g, v, a);
    PathKnown(g, v, a, g.root, path);
    var l := Resolve(g, v, g.root, path).value;
    SlotIs(g, v, l);
    EntryStores(g, v, a, l);
  }

  lemma RootIn(g: Geometry, v: Vol, a: Abs)
    requires Inv(g, v, a)
    ensures g.root in a.dirs
  {
    hide TableOk, SlotsOk, RefsOk;
  }

  lemma SlotIs(g: Geometry, v: Vol, l: Loc)
    requires Shape(g, v) && InVol(g, l)
    ensures SlotAt(g, v, l) == EntryAt(g, v, l)
  {
  }

  lemma {:induction false} PathKnown(g: Geometry, v: Vol, a: Abs, d: nat, path: seq<Name>)
    requires Inv(g, v, a) && Shape(g, v) && ThroughDirs(g, v, d, path) && d in a.dirs
    requires |path| >= 1 && Resolve(g, v, d, path).Some?
    ensures var l := Resolve(g, v, d, path).value; Known(g, a, l, SlotAt(g, v, l))
    decreases |path|
  {
    hide Inv, DirFind, SlotOf, RealOk, First;
    FoundIsEntry(g, v, a, d, path[0]);
    if |path| > 1 { PathKnown(g, v, a, Below(g, SlotAt(g, v, DirFind(g, v, d, path[0]).value)), path[1..]); }
  }

  // The same for an entry of the invariant.
  lemma EntryStores(g: Geometry, v: Vol, a: Abs, l: Loc)
    requires Inv(g, v, a) && Shape(g, v) && InVol(g, l) && g.Valid()
    requires Known(g, a, l, SlotAt(g, v, l)) && !IsDir(SlotAt(g, v, l))
    ensures Stores(g, v, SlotAt(g, v, l), Content(g, v, SlotAt(g, v, l)))
  {
    hide Inv, Content, RealOk, First, Size, StoredAt, SlotOf, IsDir;
    var e := SlotAt(g, v, l);
    FieldsAre(e);
    FileChain(g, v, a, l, e);
    forall j: nat, s: nat, i: nat ensures StoredAt(g, v, FirstIn(e), Content(g, v, e), j, s, i) {
      ContentAt(g, v, e, j, s, i);
    }
    if First(e) < 2 {
      NoContent(g, v, e);
    } else {
      ChainStores(g, v, e, a.t.chain[First(e)]);
    }
  }

  lemma ChainStores(g: Geometry, v: Vol, e: Slot, ch: seq<nat>)
    requires g.Valid() && Shape(g, v) && IsChain(v.fats[0], ch) && ch[0] == First(e) && Fits(g, |ch|, Size(e))
    ensures |Content(g, v, e)| == Size(e) > 0 && EndsAt(g, v, First(e), Size(e), |ch| - 1)
  {
    hide ChainBytes, First, Size;
    var L := v.fats[0];
    ContentOfChain(g, v, e, ch);
    ChainBound(L, ch);
    WalkChain(L, ch, g.maxCluster);
    PosIsSpan(g, |ch|);
    PosIsSpan(g, |ch| - 1);
    WalkNth(L, First(e), g.maxCluster, |ch| - 1);
  }

  lemma PosIsSpan(g: Geometry, j: nat)
    ensures Pos(g, j, 0, 0) == g.Span(j)
  {
    SpanIsProduct(g, j);
    assert j * (g.spc * 512) == 512 * (j * g.spc);
  }

  // ----- what operations do to the bytes of entries

  // In w, the entry at l stands for the bytes "all"; apart from its first cluster and its size it
  // is the entry of v.
  ghost predicate Rewrote(g: Geometry, v: Vol, w: Vol, l: Loc, all: seq<byte>) {
    && Shape(g, v) && Shape(g, w) && InVol(g, l)
    && var e, f := EntryAt(g, v, l), EntryAt(g, w, l);
       f[..20] == e[..20] && f[22..26] == e[22..26] && Stores(g, w, f, all)
  }

  lemma RewroteFile(g: Geometry, v: Vol, a: Abs, w: Vol, b: Abs, path: seq<Name>, l: Loc, all: seq<byte>)
    requires Inv(g, v, a) && Inv(g, w, b) && g.Valid() && Shape(g, v) && |path| >= 1 && ThroughDirs(g, v, g.root, path)
    requires Target(g, v, path) == Some(l) && NamesKept(g, v, a, w, b) && ReadsNew(g, v, w, l, all)
    ensures InVol(g, l) && Stores(g, v, EntryAt(g, v, l), Content(g, v, SlotAt(g, v, l)))
    ensures Rewrote(g, v, w, l, all)
  {
    hide Inv, Content, ThroughDirs, Resolve, Stores, EntryAt, RealOk, IsDir, SlotOf;
    RootIn(g, v, a);
    PathKnown(g, v, a, g.root, path);
    PathStores(g, v, a, path);
    SlotIs(g, v, l);
    SlotIs(g, w, l);
    assert SamePath(g, v, w, path);
    PathStores(g, w, b, path);
  }

  lemma FileStores(g: Geometry, v: Vol, a: Abs, path: seq<Name>, l: Loc)
    requires Inv(g, v, a) && g.Valid() && Shape(g, v) && |path| >= 1 && ThroughDirs(g, v, g.root, path)
    requires Target(g, v, path) == Some(l)
    ensures InVol(g, l) && Stores(g, v, EntryAt(g, v, l), Content(g, v, SlotAt(g, v, l)))
  {
    hide Inv, Content, ThroughDirs, Resolve, Stores, EntryAt, IsDir, SlotOf;
    PathStores(g, v, a, path);
  }

  // An entry as create and mkdir make it: all other bytes are zero.
  predicate FreshEntry(e: seq<byte>, name: seq<byte>, attr: int, first: nat) {
    && |e| == 32 && e[..11] == name && e[11] == attr && FirstIn(e) == first && SizeIn(e) == 0
    && (forall i :: 12 <= i < 20 ==> e[i] == 0) && forall i :: 22 <= i < 26 ==> e[i] == 0
  }

  lemma MadeFresh(name: seq<byte>, attr: byte, first: nat)
    requires |name| == 11 && first < 0x1_0000_0000
    ensures FreshEntry(MakeSlot(name, attr, first, 0), name, attr, first)
  {
    hide WithExtent, MakeSlot, First, Size;
    var none := 0;
    var e := MakeSlot(name, attr, first, none);
    FieldsAre(e);
    assert forall i :: 12 <= i < 20 ==> e[i] == e[12..20][i - 12];
    assert forall i :: 22 <= i < 26 ==> e[i] == e[22..26][i - 22];
  }

  // In w, the entry at l is marked deleted.
  ghost predicate Marked(g: Geometry, v: Vol, w: Vol, l: Loc) {
    && Shape(g, v) && Shape(g, w) && InVol(g, l)
    && EntryAt(g, w, l)[0] == 0xE5 && EntryAt(g, w, l)[1..] == EntryAt(g, v, l)[1..]
  }

  lemma ErasedMarks(g: Geometry, v: Vol, w: Vol, l: Loc)
    requires Shape(g, v) && Shape(g, w) && InVol(g, l)
    requires w.data[l.c] == PutInCluster(v.data[l.c], l.s, l.i, Erased(SlotAt(g, v, l)))
    ensures Marked(g, v, w, l)
  {
    hide EntryAt, SlotOf, Erased, PutInCluster;
    SlotIs(g, v, l);
    SlotIs(g, w, l);
  }

  // ----- which entry a lookup finds

  // The same letters, whatever their case.
  predicate SameLetters(n: Name, m: Name) {
    |n| == |m| && forall i :: 0 <= i < |n| ==> SameLetter(n[i], m[i])
  }

  predicate SameLetter(x: byte, y: byte) { x == y || (65 <= x <= 90 && y == x + 32) || (65 <= y <= 90 && x == y + 32) }

  lemma LettersEq(n: Name, m: Name)
    ensures NameEq(n, m) <==> SameLetters(n, m)
  {
  }

  lemma ScanEq(sec: Sector, i: nat, n: Name, m: Name)
    requires SameLetters(n, m) && i <= 16
    ensures ScanSector(sec, i, n) == ScanSector(sec, i, m)
    decreases 16 - i
  {
    hide Decode;
    LettersEq(n, m);
    if i < 16 { ScanEq(sec, i + 1, n, m); }
  }

  lemma {:induction false} ClusterEq(cl: Cluster, s: nat, n: Name, m: Name)
    requires SameLetters(n, m) && s <= |cl|
    ensures ScanCluster(cl, s, n) == ScanCluster(cl, s, m)
    decreases |cl| - s
  {
    hide ScanSector;
    if s < |cl| {
      ScanEq(cl[s], 0, n, m);
      ClusterEq(cl, s + 1, n, m);
    }
  }

  lemma {:induction false} ChainEq(g: Geometry, v: Vol, ch: seq<nat>, n: Name, m: Name)
    requires Shape(g, v) && SameLetters(n, m) && forall i :: 0 <= i < |ch| ==> 2 <= ch[i] <= g.maxCluster
    ensures FindInChain(g, v, ch, n) == FindInChain(g, v, ch, m)
    decreases |ch|
  {
    hide ScanCluster;
    if ch != [] {
      ClusterEq(v.data[ch[0]], 0, n, m);
      ChainEq(g, v, ch[1..], n, m);
    }
  }

  /** A lookup does not mind the case of letters, and finds an entry by no other name. */
  lemma CaseIgnored(g: Geometry, v: Vol, d: nat, n: Name, m: Name)
    requires Shape(g, v) && DirFind(g, v, d, n).Some?
    ensures DirFind(g, v, d, n) == DirFind(g, v, d, m) <==> SameLetters(n, m)
  {
    hide Decode;
    if SameLetters(n, m) {
      ChainEq(g, v, Walk(v.fats[0], d, g.maxCluster), n, m);
    } else if DirFind(g, v, d, n) == DirFind(g, v, d, m) {
      LettersEq(n, m);
    }
  }

  /** It never finds a slot that is unused or deleted, nor one of a label or a long name. */
  lemma FoundIsLive(g: Geometry, v: Vol, d: nat, n: Name)
    requires Shape(g, v) && DirFind(g, v, d, n).Some?
    ensures var e := EntryAt(g, v, DirFind(g, v, d, n).value); e[0] != 0 && e[0] != 0xE5 && e[11] / 8 % 2 == 0
  {
    hide Decode;
    SlotIs(g, v, DirFind(g, v, d, n).value);
  }

  /** A directory is empty if all its slots are unused or deleted, or are "." or "..". */
  lemma EmptyIs(g: Geometry, v: Vol, a: Abs, d: nat)
    requires Shape(g, v) && OwnInRange(g, a.t)
    ensures EmptyDir(g, v, a, d) <==>
              forall k :: DirLoc(g, a, k) && a.t.own[k.c] == d ==> InVol(g, k) && NoName(EntryAt(g, v, k))
  {
    hide EntryAt, SlotOf;
    forall k | DirLoc(g, a, k) ensures InVol(g, k) && (NoName(EntryAt(g, v, k)) <==> !Real(SlotAt(g, v, k))) {
      SlotIs(g, v, k);
    }
  }

  // 46 is the dot.
  predicate NoName(e: seq<byte>)
    requires |e| == 32
  {
    e[0] == 0 || e[0] == 0xE5 || (e[0] == 46 && (e[1] == 32 || (e[1] == 46 && e[2] == 32)))
  }

  // ----- where all this is on the disk

  // The disk as one array of bytes.
  function DiskByte(secs: seq<Sector>, a: nat): byte
    requires a < 512 * |secs|
  {
    secs[a / 512][a % 512]
  }

  /** A link is the lower 28 bits of the four bytes at 4 * c of a copy of the table. */
  lemma LinkOnDisk(l: Fat32Layout.Layout, secs: seq<Sector>, v: Vol, k: nat, c: nat)
    requires Fat32Layout.Shows(l, secs, v) && k < l.g.numFats && c <= l.g.maxCluster
    ensures var a := 512 * (l.fatStart + k * l.fatSize) + 4 * c;
            && a + 3 < 512 * |secs|
            && v.fats[k][c] == Le32(DiskByte(secs, a), DiskByte(secs, a + 1), DiskByte(secs, a + 2),
                                      DiskByte(secs, a + 3)) % 0x1000_0000
  {
    hide Fat32Layout.Layout.Valid, Fat32Layout.EntryOf, Le32;
    l.FatIn(k, c);
    var table: nat := k * l.fatSize;
    EntryPlace(l.fatStart + table, c);
    EntryBytes(l, secs, k, c);
    assert v.fats[k][c] == Fat32Layout.Low(Fat32Layout.EntryOf(l, secs, k, c));
  }

  lemma EntryBytes(l: Fat32Layout.Layout, secs: seq<Sector>, k: nat, c: nat)
    requires Fat32Layout.Fits(l, secs) && k < l.g.numFats && c <= l.g.maxCluster
    ensures var p, q := l.fatStart + k * l.fatSize + 4 * c / 512, 4 * c % 512;
            && p < |secs| && q + 3 < 512
            && Fat32Layout.EntryOf(l, secs, k, c) ==
               Le32(secs[p][q], secs[p][q + 1], secs[p][q + 2], secs[p][q + 3])
  {
    hide Fat32Layout.Layout.Valid;
    l.FatIn(k, c);
    assert 4 * c % 512 == Fat32Layout.Off(c);
  }

  lemma EntryPlace(s: nat, c: nat)
    ensures var a, p, q := 512 * s + 4 * c, s + 4 * c / 512, 4 * c % 512;
            && q + 3 < 512 && a / 512 == p && (a + 1) / 512 == p && (a + 2) / 512 == p && (a + 3) / 512 == p
            && a % 512 == q && (a + 1) % 512 == q + 1 && (a + 2) % 512 == q + 2 && (a + 3) % 512 == q + 3
  {
    assert 4 * c % 512 == 4 * (c % 128);
  }

  /** Byte i of sector s of a cluster is at its place in the data area. */
  lemma DataOnDisk(l: Fat32Layout.Layout, secs: seq<Sector>, v: Vol, c: nat, s: nat, i: nat)
    requires Fat32Layout.Shows(l, secs, v) && 2 <= c <= l.g.maxCluster && s < l.g.spc && i < 512
    ensures var a := 512 * (l.dataStart + (c - 2) * l.g.spc + s) + i;
            a < 512 * |secs| && v.data[c][s][i] == DiskByte(secs, a)
  {
    l.DataIn(c, s);
    hide Fat32Layout.Layout.Valid;
    assert v.data[c][s] == Fat32Layout.DataOf(l, secs, c, s);
  }
}
