/**
 Ways in which the driver departs from what one would expect, each with a run that shows it.
 */
module Fat32Facts {
  import opened Fat32Chains
  import opened Fat32Volume
  import opened Fat32Dirs
  import opened Fat32State
  import opened Fat32Files
  import opened Fat32Bytes
  import opened Fat32Append
  import opened Bytes
  import opened Fat32Crash
  import opened Fat32Names
  import opened Fat32Steps
  import opened Fat32Lookup
  import opened Fat32Remove
  import opened Fat32Paths
  import opened Fat32Driver
  import opened Fat32Meaning
  import Fat32Layout

  // ----- a disk to start from

  function BlankVol(g: Geometry): (v: Vol)
    requires g.Valid()
    ensures Shape(g, v)
  {
    Vol(seq(g.numFats, _ => seq(g.maxCluster + 1, _ => 0)), seq(g.maxCluster + 1, _ => ZeroCluster(g)))
  }

  // Disk sectors that are all zero.
  function BlankSectors(n: nat): seq<Sector> { seq(n, _ => Zeros(512)) }

  lemma BlankEntry(l: Fat32Layout.Layout, k: nat, c: nat)
    requires l.Valid() && k < l.g.numFats && c <= l.g.maxCluster
    ensures Fat32Layout.EntryOf(l, BlankSectors(l.total), k, c) == 0
  {
    hide Fat32Layout.Layout.Valid, Fat32Layout.Layout.FatSector, Fat32Layout.Off;
    l.FatIn(k, c);
  }

  lemma BlankData(l: Fat32Layout.Layout, c: nat, s: nat)
    requires l.Valid() && 2 <= c <= l.g.maxCluster && s < l.g.spc
    ensures Fat32Layout.DataOf(l, BlankSectors(l.total), c, s) == Zeros(512)
  {
    hide Fat32Layout.Layout.Valid, Fat32Layout.Layout.DataSector;
    l.DataIn(c, s);
  }

  lemma BlankOnDisk(l: Fat32Layout.Layout) returns (secs: seq<Sector>, tops: seq<seq<nat>>)
    requires l.Valid()
    ensures Fat32Layout.Holds(l, secs, BlankVol(l.g), tops)
  {
    hide Fat32Layout.EntryOf, Fat32Layout.DataOf;
    secs := BlankSectors(l.total);
    tops := seq(l.g.numFats, _ => seq(l.g.maxCluster + 1, _ => 0));
    forall k: nat, c: nat | k < l.g.numFats && c <= l.g.maxCluster ensures Fat32Layout.EntryOf(l, secs, k, c) == 0 {
      BlankEntry(l, k, c);
    }
    forall c: nat, s: nat | 2 <= c <= l.g.maxCluster && s < l.g.spc
      ensures Fat32Layout.DataOf(l, secs, c, s) == Zeros(512)
    {
      BlankData(l, c, s);
    }
  }

  // The root directory is marked in one copy of the table after the other.
  lemma FormattedOnDisk(l: Fat32Layout.Layout) returns (secs: seq<Sector>, tops: seq<seq<nat>>)
    requires l.Valid()
    ensures Fat32Layout.Holds(l, secs, Formatted(l.g), tops)
  {
    hide Fat32Layout.Layout.Valid, Fat32Layout.Holds, ZeroCluster;
    var g, p := l.g, 0;
    assert g.Valid() by { LayoutGeometry(l); }
    secs, tops := BlankOnDisk(l);
    var v, k := BlankVol(g), 0;
    while k < g.numFats
      invariant 0 <= k <= g.numFats && Shape(g, v) && Fat32Layout.Holds(l, secs, v, tops)
      invariant v.data == BlankVol(g).data
      invariant forall j :: 0 <= j < g.numFats ==> v.fats[j] == if j < k then FreshLinks(g) else BlankVol(g).fats[j]
    {
      secs, p := Fat32Layout.PutFatHolds(l, secs, v, tops, k, g.root, EOC);
      v := PutFat(g, v, k, g.root, EOC);
      assert v.fats[k] == FreshLinks(g);
      k := k + 1;
    }
    assert v == Formatted(g);
  }

  lemma LayoutGeometry(l: Fat32Layout.Layout)
    requires l.Valid()
    ensures l.g.Valid()
  {
  }

  // The smallest disk for a geometry: the copies of the table, and behind them the clusters.
  function LayoutFor(g: Geometry): (l: Fat32Layout.Layout)
    requires g.Valid()
    ensures l.Valid() && l.g == g
  {
    var size := TableSectors(g.maxCluster);
    Fat32Layout.Grows(0, g.numFats, size);
    Fat32Layout.Grows(0, g.maxCluster - 1, g.spc);
    var table: nat := g.numFats * size;
    var data: nat := (g.maxCluster - 1) * g.spc;
    Fat32Layout.Layout(g, 0, size, table, table + data)
  }

  function TableSectors(maxCluster: nat): (n: nat)
    ensures maxCluster < 128 * n
  {
    maxCluster / 128 + 1
  }

  /** Every geometry has a disk on which a driver can start. */
  method NewDriver(g: Geometry) returns (d: Driver)
    requires g.Valid()
    ensures fresh(d) && d.Valid() && d.g == g && d.vol == Formatted(g) && d.abs == FreshAbs(g) && d.trace == []
  {
    hide Inv, Fat32Layout.Holds, Formatted, FreshAbs;
    FormattedOk(g);
    ghost var secs, tops := FormattedOnDisk(LayoutFor(g));
    d := new Driver(LayoutFor(g), Formatted(g), FreshAbs(g), secs, tops);
  }

  // The directory d has no live slot but possibly l.
  ghost predicate AtMost(g: Geometry, v: Vol, a: Abs, d: nat, l: Loc)
    requires Shape(g, v) && OwnInRange(g, a.t)
  {
    forall k :: LiveIn(g, v, a, d, k) ==> k == l
  }

  lemma AtMostOne(g: Geometry, v: Vol, a: Abs, w: Vol, b: Abs, d: nat, l: Loc)
    requires Shape(g, v) && OwnInRange(g, a.t) && Shape(g, w) && OwnInRange(g, b.t)
    requires AtMost(g, v, a, d, l) && (DirLoc(g, a, l) ==> !Live(SlotAt(g, v, l))) && SameBut(g, v, a, w, b, d, l)
    ensures AtMost(g, w, b, d, l)
  {
  }

  // Such a directory has a slot left, as a sector alone has sixteen.
  lemma HasSlotLeft(g: Geometry, v: Vol, a: Abs, d: nat, l: Loc)
    requires Inv(g, v, a) && Shape(g, v) && OwnInRange(g, a.t) && d in a.dirs && AtMost(g, v, a, d, l)
    ensures !NoSlotLeft(g, v, a, d) && !DirFull(g, v, a, d)
  {
    hide Inv, OwnInRange, Live, SlotOf, Distinct;
    InvRange(g, v, a);
    DirChainOf(g, v, a, d);
    assert a.t.chain[d][0] in a.t.chain[d];
    OwnerOf(g, v, a, d, d);
    var x, y := Loc(d, 0, 0), Loc(d, 0, 1);
    assert DirLoc(g, a, x) && DirLoc(g, a, y);
    assert LiveIn(g, v, a, d, x) && LiveIn(g, v, a, d, y) ==> x == l && y == l;
  }

  // A formatted volume has no entries: every name can be created and none is found.
  lemma FreshIsEmpty(g: Geometry, l: Loc)
    requires g.Valid()
    ensures var v, a := Formatted(g), FreshAbs(g);
            && Inv(g, v, a) && Shape(g, v) && OwnInRange(g, a.t) && Unique(g, v, a) && AtMost(g, v, a, g.root, l)
            && forall n :: DirFind(g, v, g.root, n).None?
  {
    hide Inv, DirFind, Formatted, FreshAbs, OwnInRange, Live, SlotOf;
    var v, a := Formatted(g), FreshAbs(g);
    FormattedOk(g);
    InvRange(g, v, a);
    forall d, k ensures !LiveIn(g, v, a, d, k) { NoneLive(g, d, k); }
    forall n ensures DirFind(g, v, g.root, n).None? {
      if DirFind(g, v, g.root, n).Some? {
        FoundIn(g, v, a, g.root, n);
        assert false;
      }
    }
  }

  lemma NoneLive(g: Geometry, d: nat, k: Loc)
    requires g.Valid() && Shape(g, Formatted(g)) && OwnInRange(g, FreshAbs(g).t)
    ensures !LiveIn(g, Formatted(g), FreshAbs(g), d, k)
  {
    hide ZeroCluster, BlankCluster, Live, SlotOf;
    ZeroIsBlank(g);
    if InVol(g, k) { BlankIsNotLive(g, Formatted(g), k); }
  }

  // Creating a name without a dot in an empty root directory.
  lemma FirstMade(g: Geometry, w: Vol, b: Abs, name: Name, l: Loc)
    requires g.Valid() && Made(g, Formatted(g), FreshAbs(g), w, b, g.root, name, l, 0) && Strip(name) == name
    ensures Inv(g, w, b) && Shape(g, w) && OwnInRange(g, b.t) && Unique(g, w, b) && AtMost(g, w, b, g.root, l)
    ensures forall n :: DirFind(g, w, g.root, n) == if NameEq(name, n) then Some(l) else None
    ensures g.root in b.dirs && DirLoc(g, b, l)
  {
    hide Inv, DirFind, FilesKept, Encode, NameEq, Strip, Unique, AtMost, Formatted, FreshAbs, Accepts, Live, SlotOf;
    var v, a := Formatted(g), FreshAbs(g);
    FreshIsEmpty(g, l);
    InvRange(g, w, b);
    InvRange(g, v, a);
    MadeUnique(g, v, a, w, b, g.root, name, l, 0);
    EnteredLookups(g, v, a, w, b, g.root, name, l);
    AtMostOne(g, v, a, w, b, g.root, l);
  }

  /** Two names that differ by a dot at the end: both are created, and both entries are stored
      under the same eleven bytes. */
  method DottedTwin(d: Driver, name: Name, dotted: Name)
    requires d.Valid() && d.vol == Formatted(d.g) && d.abs == FreshAbs(d.g)
    requires Accepts(name) && !HasDot(name) && dotted == name + [DOT_CHAR]
    modifies d
    ensures d.Valid() && Shape(d.g, d.vol) && OwnInRange(d.g, d.abs.t)
    ensures Unique(d.g, old(d.vol), old(d.abs)) && !Unique(d.g, d.vol, d.abs)
  {
    hide Inv, OwnInRange, Shape, DirFind, Made, Encode, Accepts, NameEq, Strip, Unique, AtMost;
    hide Formatted, FreshAbs, NoSlotLeft, ThroughDirs, Driver.OnDisk;
    hide FilesKept, EntriesBut, Added, Live, SlotOf;
    DottedNames(name, dotted);
    var none := 0;
    InvRange(d.g, d.vol, d.abs);
    var r, made, l := d.CreateFile([name]);
    FreshIsEmpty(d.g, l);
    HasSlotLeft(d.g, old(d.vol), old(d.abs), d.g.root, l);
    assert made;
    FirstMade(d.g, d.vol, d.abs, name, l);
    HasSlotLeft(d.g, d.vol, d.abs, d.g.root, l);
    ghost var v, a, k := d.vol, d.abs, l;
    r, made, k := d.CreateFile([dotted]);
    assert made;
    MadeUnique(d.g, v, a, d.vol, d.abs, d.g.root, dotted, k, none);
  }

  lemma DottedNames(name: Name, dotted: Name)
    requires Accepts(name) && !HasDot(name) && dotted == name + [DOT_CHAR]
    ensures Accepts(dotted) && Strip(dotted) == name && Strip(name) == name && !NameEq(name, dotted)
            && NameEq(name, name)
  {
    hide Accepts, Encode;
    TrailingDotIsLost(name, dotted);
  }

  // ----- several calls

  /** What is written to a file and appended to it, as far as there is room, is what reading it gives. */
  method WriteAppendRead(d: Driver, path: seq<Name>, buf: seq<byte>, more: seq<byte>)
    returns (ok: bool, k: nat, got: seq<byte>)
    requires d.Valid() && Shape(d.g, d.vol) && ThroughDirs(d.g, d.vol, d.g.root, path) && |path| >= 1
    requires |buf| + |more| + d.g.ClusterBytes() < 0x8000_0000
    modifies d
    ensures d.Valid() && Shape(d.g, d.vol) && ThroughDirs(d.g, d.vol, d.g.root, path)
    ensures ok ==> k <= |more| && got == buf + more[..k]
    ensures ok <==> Target(d.g, old(d.vol), path).Some? && Needs(d.g, |buf|) <= |FreeSet(d.g, old(d.vol))|
  {
    hide Inv, Driver.OnDisk, ThroughDirs, Resolve, Content, OldImage, NewImage, NamesKept, FreeSet, Needs, Stores;
    hide ReadsOld, OneChanged, EntryAt;
    ghost var v, t := d.vol, Target(d.g, d.vol, path);
    var n, m;
    ghost var sw;
    k, got := 0, [];
    n, sw := d.WriteFile(path, buf);
    ok := n != -1;
    ghost var w := d.vol;
    if !ok {
      StillLeads(d.g, v, w, path);
      return;
    }
    NewLeads(d.g, v, w, path, t.value, buf);
    RewroteSize(d.g, v, w, t.value, buf);
    ghost var k1;
    m, k1, sw := d.AppendFile(path, more);
    ghost var x := d.vol;
    if m == -1 {
      StillLeads(d.g, w, x, path);
    } else {
      AppendLeads(d.g, w, x, path, t.value, buf, more, k1);
      SmallSigned(k1);
      k := m;
    }
    assert more[..0] == [] && buf + [] == buf;
    n, got := d.ReadFile(path, |buf| + |more|);
  }

  lemma StillLeads(g: Geometry, v: Vol, w: Vol, path: seq<Name>)
    requires ReadsOld(g, v, w) && Shape(g, v) && |path| >= 1 && ThroughDirs(g, v, g.root, path)
    ensures Shape(g, w) && ThroughDirs(g, w, g.root, path) && Target(g, w, path) == Target(g, v, path)
    ensures ReadPath(g, w, path) == ReadPath(g, v, path)
  {
    hide Resolve, Content, ThroughDirs, IsDir;
    assert SamePath(g, v, w, path);
  }

  lemma NewLeads(g: Geometry, v: Vol, w: Vol, path: seq<Name>, l: Loc, all: seq<byte>)
    requires ReadsNew(g, v, w, l, all) && Shape(g, v) && |path| >= 1 && ThroughDirs(g, v, g.root, path)
    requires Target(g, v, path) == Some(l)
    ensures Shape(g, w) && ThroughDirs(g, w, g.root, path) && Target(g, w, path) == Some(l) && InVol(g, l)
    ensures ReadPath(g, w, path) == Some(all) && Content(g, w, SlotAt(g, w, l)) == all
  {
    hide Resolve, Content, ThroughDirs, IsDir;
    assert SamePath(g, v, w, path);
  }

  lemma RewroteSize(g: Geometry, v: Vol, w: Vol, l: Loc, all: seq<byte>)
    requires Rewrote(g, v, w, l, all)
    ensures Shape(g, w) && InVol(g, l) && Size(SlotAt(g, w, l)) == |all|
  {
    hide SlotOf, EntryAt, Size, First;
    SlotIs(g, w, l);
    FieldsAre(SlotAt(g, w, l));
  }

  lemma AppendLeads(g: Geometry, v: Vol, w: Vol, path: seq<Name>, l: Loc, all: seq<byte>, more: seq<byte>, k: nat)
    requires Shape(g, v) && |path| >= 1 && ThroughDirs(g, v, g.root, path) && Target(g, v, path) == Some(l)
    requires InVol(g, l) && Content(g, v, SlotAt(g, v, l)) == all && k <= |more|
    requires if more == [] then w == v else Shape(g, w) && Appended(g, v, w, l, more[..k])
    ensures Shape(g, w) && ThroughDirs(g, w, g.root, path) && ReadPath(g, w, path) == Some(all + more[..k])
  {
    hide Resolve, Content, ThroughDirs, IsDir, NewImage;
    if more == [] {
      assert all + more[..k] == all;
    } else {
      NewLeads(g, v, w, path, l, all + more[..k]);
    }
  }

  lemma SmallSigned(k: nat)
    requires k < 0x8000_0000
    ensures Signed(k) == k
  {
  }

  // ----- paths through files

  // A directory scan of a file ends at once if the file begins with a zero byte.
  lemma ZeroByteStops(g: Geometry, v: Vol, e: Slot, name: Name)
    requires Shape(g, v) && g.Valid() && Content(g, v, e) != [] && Content(g, v, e)[0] == 0
    ensures First(e) >= 2 && DirFind(g, v, First(e), name).None?
  {
    hide First, Matches, Size;
    var ch := Walk(v.fats[0], First(e), g.maxCluster);
    var cl := v.data[ch[0]];
    assert ChainBytes(g, v, ch)[0] == SectorBytes(cl)[0] == cl[0][0];
    assert Tag(cl[0], 0) == 0;
    assert ScanSector(cl[0], 0, name) == Stop;
  }

  // The path p, which leads through directories, names a file.
  predicate NamesFile(g: Geometry, v: Vol, dir: nat, p: seq<Name>)
    requires Shape(g, v) && |p| >= 1
  {
    ThroughDirs(g, v, dir, p) && Resolve(g, v, dir, p).Some? && !IsDir(SlotAt(g, v, Resolve(g, v, dir, p).value))
  }

  /** A path that does not lead through directories passes a file. */
  lemma {:induction false} PassesFile(g: Geometry, v: Vol, dir: nat, path: seq<Name>) returns (i: nat)
    requires Shape(g, v) && |path| >= 1 && !ThroughDirs(g, v, dir, path)
    ensures 1 <= i < |path| && NamesFile(g, v, dir, path[..i])
    decreases |path|
  {
    hide DirFind, IsDir, First;
    var e := SlotAt(g, v, DirFind(g, v, dir, path[0]).value);
    if IsDir(e) {
      var j := PassesFile(g, v, Below(g, e), path[1..]);
      i := j + 1;
      assert path[..i][0] == path[0] && path[..i][1..] == path[1..][..j];
    } else {
      i := 1;
      assert path[..1][0] == path[0];
    }
  }

  // Resolving a path is resolving its end from where its beginning leads.
  lemma {:induction false} ResolveFrom(g: Geometry, v: Vol, dir: nat, p: seq<Name>, rest: seq<Name>)
    requires Shape(g, v) && |p| >= 1 && |rest| >= 1 && Resolve(g, v, dir, p).Some?
    ensures Resolve(g, v, dir, p + rest) == Resolve(g, v, Below(g, SlotAt(g, v, Resolve(g, v, dir, p).value)), rest)
    decreases |p|
  {
    hide DirFind, First;
    if |p| == 1 {
      assert (p + rest)[1..] == rest;
    } else {
      assert (p + rest)[1..] == p[1..] + rest;
      ResolveFrom(g, v, Below(g, SlotAt(g, v, DirFind(g, v, dir, p[0]).value)), p[1..], rest);
    }
  }

  /** A path through an empty file goes on in the root directory. */
  lemma ThroughEmptyFile(g: Geometry, v: Vol, a: Abs, p: seq<Name>, rest: seq<Name>)
    requires Inv(g, v, a) && Shape(g, v) && |p| >= 1 && |rest| >= 1 && NamesFile(g, v, g.root, p)
    requires Size(SlotAt(g, v, Resolve(g, v, g.root, p).value)) == 0
    ensures Resolve(g, v, g.root, p + rest) == Resolve(g, v, g.root, rest)
  {
    hide Inv, Resolve, First, Size, IsDir, ThroughDirs, SlotOf;
    InvRange(g, v, a);
    KeptSim(g, v, v, a);
    ResolveSim(g, v, v, a, g.root, p);
    ResolveFrom(g, v, g.root, p, rest);
  }

  /** A path that passes a file, here at the end of p, resolves no more once the file has been
      written to.  So the paths that lead through directories, which every write keeps, are all the
      paths that every write keeps (PassesFile). */
  method WriteCutsPath(d: Driver, p: seq<Name>, ghost rest: seq<Name>) returns (n: int)
    requires d.Valid() && Shape(d.g, d.vol) && |p| >= 1 && |rest| >= 1 && NamesFile(d.g, d.vol, d.g.root, p)
    modifies d
    ensures d.Valid() && Shape(d.g, d.vol)
    ensures n != -1 ==> Resolve(d.g, d.vol, d.g.root, p + rest) == None
    ensures n == -1 <==> FreeSet(d.g, old(d.vol)) == {}
  {
    hide Inv, Resolve, FreeSet, First, Size, IsDir, OldImage, ReadsOld, NamesKept, Driver.OnDisk, Content, DirFind;
    InvRange(d.g, d.vol, d.abs);
    ghost var v, sw := d.vol, 0;
    n, sw := d.WriteFile(p, [0]);
    InvRange(d.g, d.vol, d.abs);
    OneCluster(d.g);
    if n != -1 {
      assert SamePath(d.g, v, d.vol, p);
      var e := SlotAt(d.g, d.vol, Resolve(d.g, d.vol, d.g.root, p).value);
      assert ReadPath(d.g, d.vol, p) == Some([0]);
      ZeroByteStops(d.g, d.vol, e, rest[0]);
      ResolveFrom(d.g, d.vol, d.g.root, p, rest);
      NothingBehind(d.g, d.vol, First(e), rest);
    }
  }

  lemma NothingBehind(g: Geometry, v: Vol, dir: nat, rest: seq<Name>)
    requires Shape(g, v) && |rest| >= 1 && DirFind(g, v, dir, rest[0]).None?
    ensures Resolve(g, v, dir, rest) == None
  {
    hide DirFind;
  }

  lemma OneCluster(g: Geometry)
    requires g.Valid()
    ensures Needs(g, 1) == 1
  {
    var cb := g.ClusterBytes();
    assert (1 + cb - 1) / cb == 1;
  }

  // ----- rmdir by a directory's own "." entry

  // The directory nd has a "." entry at its first slot, and nothing but dot entries.
  lemma NewDirDots(g: Geometry, w: Vol, b: Abs, d: nat, nd: nat)
    requires Inv(g, w, b) && Shape(g, w) && OwnInRange(g, b.t) && HasDots(g, w, nd, d) && nd in b.dirs
             && UniqueIn(g, w, b, nd)
    requires forall c :: c in b.t.own && b.t.own[c] == nd ==> c == nd
    ensures var k := Loc(nd, 0, 0);
            && InVol(g, k) && DirFind(g, w, nd, [DOT_CHAR]) == Some(k) && IsDir(SlotAt(g, w, k))
            && IsDot(SlotAt(g, w, k))
            && First(SlotAt(g, w, k)) == nd && EmptyDir(g, w, b, nd)
  {
    hide Inv, DirFind, First, Size, Decode, UniqueIn, OwnInRange;
    InvRange(g, w, b);
    var k := Loc(nd, 0, 0);
    DirChainOf(g, w, b, nd);
    assert b.t.chain[nd][0] in b.t.chain[nd];
    OwnerOf(g, w, b, nd, nd);
    var x, y := SlotOf(w.data[nd][0], 0), SlotOf(w.data[nd][0], 1);
    DotNames(x, nd, d);
    DotNames(y, nd, d);
    DotIsDot(x);
    FindUnique(g, w, b, nd, [DOT_CHAR], k);
    forall l | DirLoc(g, b, l) && b.t.own[l.c] == nd ensures !Real(SlotAt(g, w, l)) {
      if Live(SlotAt(g, w, l)) { assert l.c == nd && l.s == 0 && l.i < 2; }
    }
  }

  lemma DotIsDot(e: Slot)
    requires e[..11] == DOT_NAME
    ensures NameEq(Decode(e), [DOT_CHAR])
  {
    DotDecodes(e, 1);
    assert e[0] == e[..11][0] == e[..8][0];
  }

  lemma FreshHasFree(g: Geometry)
    requires g.Valid() && g.maxCluster >= 3
    ensures Shape(g, Formatted(g)) && |FreeSet(g, Formatted(g))| > 0
  {
    var c := if g.root == 2 then 3 else 2;
    assert c in FreeSet(g, Formatted(g));
  }

  // A path of a new directory and its "." entry.
  lemma ThroughNewDir(g: Geometry, w: Vol, b: Abs, name: Name, l: Loc, nd: nat)
    requires Inv(g, w, b) && Shape(g, w) && OwnInRange(g, b.t) && HasDots(g, w, nd, g.root) && nd in b.dirs
             && UniqueIn(g, w, b, nd)
    requires forall c :: c in b.t.own && b.t.own[c] == nd ==> c == nd
    requires DirFind(g, w, g.root, name) == Some(l) && SlotAt(g, w, l)[11] == ATTR_DIR && First(SlotAt(g, w, l)) == nd
    ensures var path, k := [name, [DOT_CHAR]], Loc(nd, 0, 0);
            && ThroughDirs(g, w, g.root, path) && DirTarget(g, w, path) == Some(k) && InVol(g, k)
            && IsDot(SlotAt(g, w, k))
            && EmptyAt(g, w, b, k)
  {
    hide Inv, DirFind, First, Size, UniqueIn, OwnInRange, EmptyDir, HasDots, IsDot, SlotOf;
    NewFlags(SlotAt(g, w, l));
    DirRange(g, w, b, nd);
    NewDirDots(g, w, b, g.root, nd);
    var path := [name, [DOT_CHAR]];
    assert path[1..] == [[DOT_CHAR]];
    assert Resolve(g, w, nd, path[1..]) == Some(Loc(nd, 0, 0));
  }

  /** A directory made, and then removed by a path that ends in ".", leaves an unsound volume. */
  method DotRemoved(d: Driver, name: Name) returns (r: int)
    requires d.Valid() && d.vol == Formatted(d.g) && d.abs == FreshAbs(d.g) && d.g.maxCluster >= 3
    requires Accepts(name) && Strip(name) == name
    modifies d
    ensures r == 0 && forall b :: !Inv(d.g, d.vol, b)
  {
    hide Inv, OwnInRange, Shape, DirFind, Encode, Accepts, NameEq, Strip, UniqueIn, AtMost, Formatted, FreshAbs,
         ThroughDirs;
    hide Resolve, Driver.OnDisk, FilesKept, EntriesBut, Added, Live, SlotOf, OnlyTwo, DotEntry, FreeSet, DirFull,
         EmptyAt, IsDot, First;
    hide Quiet;
    var v, a := d.vol, d.abs;
    InvRange(d.g, d.vol, d.abs);
    FreshIsEmpty(d.g, Loc(0, 0, 0));
    HasSlotLeft(d.g, d.vol, d.abs, d.g.root, Loc(0, 0, 0));
    FreshHasFree(d.g);
    ghost var l, nd;
    r, l, nd := d.MakeDir([name]);
    InvRange(d.g, d.vol, d.abs);
    NewName(d.g, v, a, d.vol, d.abs, d.g.root, name, l);
    MadeUnique(d.g, v, a, d.vol, d.abs, d.g.root, name, l, nd);
    ThroughNewDir(d.g, d.vol, d.abs, name, l, nd);
    r := d.RemoveDir([name, [DOT_CHAR]]);
  }
}
