/**
 What reading a path yields, and when two images of a volume cannot be told apart by reading.
 */
module Fat32Files {
  import opened Bytes
  import opened Fat32Chains
  import opened Fat32Volume
  import opened Fat32Dirs
  import opened Fat32State

  // ----- file contents

  function SectorBytes(cl: Cluster): (r: seq<byte>)
    ensures |r| == 512 * |cl|
  {
    if cl == [] then [] else cl[0] + SectorBytes(cl[1..])
  }

  function ChainBytes(g: Geometry, v: Vol, ch: seq<nat>): (r: seq<byte>)
    requires Shape(g, v) && forall i :: 0 <= i < |ch| ==> 2 <= ch[i] <= g.maxCluster
    ensures |r| == g.Span(|ch|)
  {
    if ch == [] then [] else SectorBytes(v.data[ch[0]]) + ChainBytes(g, v, ch[1..])
  }

  function Take(s: seq<byte>, n: nat): seq<byte> { if n <= |s| then s[..n] else s }

  lemma TakeShort(x: seq<byte>, n: nat)
    ensures |x| <= n ==> Take(x, n) == x
    ensures |Take(x, n)| < n ==> Take(x, n) == x
  {
  }

  lemma TakeMore(x: seq<byte>, y: seq<byte>, n: nat)
    requires |x| < n
    ensures Take(x + y, n) == x + y[..if n - |x| < |y| then n - |x| else |y|]
  {
  }

  // Nothing more is taken once there is enough.
  lemma TakeRest(x: seq<byte>, y: seq<byte>, n: nat)
    requires |Take(x, n)| >= n
    ensures Take(x + y, n) == Take(x, n)
  {
  }

  // The bytes of the file behind an entry.
  function Content(g: Geometry, v: Vol, e: Slot): seq<byte>
    requires Shape(g, v)
  {
    Take(ChainBytes(g, v, Walk(v.fats[0], First(e), g.maxCluster)), Size(e))
  }

  // What reading a path with a large enough buffer yields.
  function ReadPath(g: Geometry, v: Vol, path: seq<Name>): Option<seq<byte>>
    requires Shape(g, v) && |path| >= 1
  {
    var r := Resolve(g, v, g.root, path);
    if r.None? || IsDir(SlotAt(g, v, r.value)) then None
    else Some(Content(g, v, SlotAt(g, v, r.value)))
  }

  // The file a path names, and the directory it names.
  function Target(g: Geometry, v: Vol, path: seq<Name>): Option<Loc>
    requires Shape(g, v) && |path| >= 1
  {
    var r := Resolve(g, v, g.root, path);
    if r.Some? && !IsDir(SlotAt(g, v, r.value)) then r else None
  }

  function DirTarget(g: Geometry, v: Vol, path: seq<Name>): Option<Loc>
    requires Shape(g, v) && |path| >= 1
  {
    var r := Resolve(g, v, g.root, path);
    if r.Some? && IsDir(SlotAt(g, v, r.value)) then r else None
  }

  // ----- paths that lead through directories

  // Neither "." nor "..".
  predicate Plain(name: Name) { name != [DOT_CHAR] && name != [DOT_CHAR, DOT_CHAR] }

  // The directory that holds the last component of a path.
  function ParentDir(g: Geometry, v: Vol, path: seq<Name>): Option<nat>
    requires Shape(g, v) && |path| >= 1
  {
    if |path| == 1 then Some(g.root)
    else
      var r := Resolve(g, v, g.root, path[..|path| - 1]);
      if r.Some? && IsDir(SlotAt(g, v, r.value)) then Some(Below(g, SlotAt(g, v, r.value))) else None
  }

  // Every entry met before the last component is a directory (fat32_resolve itself does not
  // check this).
  predicate ThroughDirs(g: Geometry, v: Vol, dir: nat, path: seq<Name>)
    requires Shape(g, v)
    decreases |path|
  {
    && |path| >= 1
    && (|path| == 1 ||
        var r := DirFind(g, v, dir, path[0]);
        r.None? || (IsDir(SlotAt(g, v, r.value)) && ThroughDirs(g, v, Below(g, SlotAt(g, v, r.value)), path[1..])))
  }

  lemma PathNotEmpty(g: Geometry, v: Vol, dir: nat, path: seq<Name>)
    requires Shape(g, v) && ThroughDirs(g, v, dir, path)
    ensures |path| >= 1
  {
  }

  lemma DotMatches(e: Slot, name: Name)
    requires IsDot(e) && (e[..11] == DOT_NAME || e[..11] == DOTDOT_NAME) && Matches(e, name)
    ensures !Plain(name)
  {
    assert e[8] == e[..11][8] == SPACE;
    assert e[1] == e[..11][1] && e[2] == e[..11][2];
    assert UpToSpace(e[..8][2..]) == [];
    assert e[..8][1..][0] == e[1] && e[..8][1..][1..] == e[..8][2..];
    if e[1] == SPACE {
      assert UpToSpace(e[..8][1..]) == [];
      assert UpToSpace(e[..8]) == [DOT_CHAR];
    } else {
      assert UpToSpace(e[..8][1..]) == [DOT_CHAR] + UpToSpace(e[..8][2..]);
      assert UpToSpace(e[..8]) == [DOT_CHAR] + [DOT_CHAR];
    }
    var d := Decode(e);
    assert forall i :: 0 <= i < |d| ==> d[i] == DOT_CHAR;
    assert forall i :: 0 <= i < |name| ==> name[i] == DOT_CHAR;
  }

  // ----- images that look up alike

  predicate SlotSim(e: Slot, f: Slot) {
    e[..12] == f[..12] && (IsDir(e) ==> First(e) == First(f))
  }

  ghost predicate ClusterSim(x: Cluster, y: Cluster) {
    && |x| == |y|
    && forall t, j :: 0 <= t < |x| && 0 <= j < 16 ==> SlotSim(SlotOf(x[t], j), SlotOf(y[t], j))
  }

  // The directory clusters of a have the same links in v and w, and their slots differ at most
  // in the extents of files.
  ghost predicate DirSim(g: Geometry, v: Vol, w: Vol, a: Abs)
    requires Shape(g, v) && Shape(g, w) && OwnInRange(g, a.t)
  {
    forall c: nat :: IsDirCluster(a, c) ==> v.fats[0][c] == w.fats[0][c] && ClusterSim(v.data[c], w.data[c])
  }

  lemma SimMatches(e: Slot, f: Slot, name: Name)
    requires SlotSim(e, f)
    ensures Matches(e, name) == Matches(f, name) && e[0] == f[0]
  {
    SameKind(e, f);
  }

  lemma {:induction false} ScanSectorSim(x: Sector, y: Sector, i: nat, name: Name)
    requires i <= 16 && forall j :: 0 <= j < 16 ==> SlotSim(SlotOf(x, j), SlotOf(y, j))
    ensures ScanSector(x, i, name) == ScanSector(y, i, name)
    decreases 16 - i
  {
    if i < 16 {
      assert Tag(x, i) == SlotOf(x, i)[0] && Tag(y, i) == SlotOf(y, i)[0];
      SimMatches(SlotOf(x, i), SlotOf(y, i), name);
      ScanSectorSim(x, y, i + 1, name);
    }
  }

  lemma {:induction false} ScanClusterSim(x: Cluster, y: Cluster, s: nat, name: Name)
    requires ClusterSim(x, y) && s <= |x|
    ensures ScanCluster(x, s, name) == ScanCluster(y, s, name)
    decreases |x| - s
  {
    if s < |x| {
      ScanSectorSim(x[s], y[s], 0, name);
      ScanClusterSim(x, y, s + 1, name);
    }
  }

  lemma {:induction false} FindInChainSim(g: Geometry, v: Vol, w: Vol, ch: seq<nat>, name: Name)
    requires Shape(g, v) && Shape(g, w)
    requires forall i :: 0 <= i < |ch| ==> 2 <= ch[i] <= g.maxCluster && ClusterSim(v.data[ch[i]], w.data[ch[i]])
    ensures FindInChain(g, v, ch, name) == FindInChain(g, w, ch, name)
  {
    if ch != [] {
      assert ClusterSim(v.data[ch[0]], w.data[ch[0]]);
      ScanClusterSim(v.data[ch[0]], w.data[ch[0]], 0, name);
      FindInChainSim(g, v, w, ch[1..], name);
    }
  }

  // The walk from the first cluster of an allocated chain is that chain.
  lemma WalkIsChain(g: Geometry, v: Vol, t: Table, f: nat)
    requires g.Valid() && Shape(g, v) && ChainsOk(v.fats[0], t) && f in t.chain
    ensures Walk(v.fats[0], f, g.maxCluster) == t.chain[f]
  {
    ChainBound(v.fats[0], t.chain[f]);
    WalkChain(v.fats[0], t.chain[f], g.maxCluster);
  }

  // An entry that a path can lead to: it leads to a directory, or is that of a file.
  predicate Known(g: Geometry, a: Abs, l: Loc, e: Slot) {
    DirLoc(g, a, l) && Live(e) && if IsDir(e) then Below(g, e) in a.dirs else Real(e) && RealOk(g, a, l, e)
  }

  lemma EntryKnown(g: Geometry, v: Vol, a: Abs, l: Loc)
    requires Inv(g, v, a) && DirLoc(g, a, l) && Live(SlotAt(g, v, l))
    ensures Known(g, a, l, SlotAt(g, v, l)) && EntryOk(g, a, l, SlotAt(g, v, l))
  {
    hide Inv, SlotOf, IsChain, OwnersOk, ChainsOk;
    InvParts(g, v, a);
    SlotEntry(g, v, a, l);
  }

  // Where looking up a name in a directory can lead.
  lemma FoundIsEntry(g: Geometry, v: Vol, a: Abs, d: nat, name: Name)
    requires Inv(g, v, a) && d in a.dirs && DirFind(g, v, d, name).Some?
    ensures var l := DirFind(g, v, d, name).value;
            && Known(g, a, l, SlotAt(g, v, l)) && a.t.own[l.c] == d
            && (Plain(name) ==> Real(SlotAt(g, v, l)) && RealOk(g, a, l, SlotAt(g, v, l)))
  {
    hide SlotsOk, RefsOk, UsedOk;
    var l := DirFind(g, v, d, name).value;
    WalkIsChain(g, v, a.t, d);
    assert l.c in a.t.chain[d];
    DirChainClusters(g, v, a, d, l.c);
    EntryKnown(g, v, a, l);
    var e := SlotAt(g, v, l);
    if IsDot(e) { DotMatches(e, name); }
  }

  lemma DirFindSim(g: Geometry, v: Vol, w: Vol, a: Abs, d: nat, name: Name)
    requires g.Valid() && Shape(g, v) && ChainsOk(v.fats[0], a.t) && OwnersOk(a.t) && OwnInRange(g, a.t)
             && DirsOk(g, v, a)
    requires Shape(g, w) && DirSim(g, v, w, a) && d in a.dirs
    ensures DirFind(g, w, d, name) == DirFind(g, v, d, name)
  {
    var ch := a.t.chain[d];
    WalkIsChain(g, v, a.t, d);
    forall c | c in ch ensures v.fats[0][c] == w.fats[0][c] && ClusterSim(v.data[c], w.data[c]) {
      DirChainClusters(g, v, a, d, c);
    }
    WalkSame(v.fats[0], w.fats[0], d, g.maxCluster);
    forall i | 0 <= i < |ch| ensures ClusterSim(v.data[ch[i]], w.data[ch[i]]) { assert ch[i] in ch; }
    FindInChainSim(g, v, w, ch, name);
  }

  /** Images with similar directories resolve every path alike. */
  lemma {:induction false} ResolveSim(g: Geometry, v: Vol, w: Vol, a: Abs, d: nat, path: seq<Name>)
    requires Inv(g, v, a) && Shape(g, w) && DirSim(g, v, w, a) && d in a.dirs && ThroughDirs(g, v, d, path)
    ensures ThroughDirs(g, w, d, path) && Resolve(g, w, d, path) == Resolve(g, v, d, path)
    ensures var r := Resolve(g, v, d, path);
            r.Some? ==> Known(g, a, r.value, SlotAt(g, v, r.value))
    decreases |path|
  {
    DirFindSim(g, v, w, a, d, path[0]);
    var r := DirFind(g, v, d, path[0]);
    if r.Some? {
      FoundIsEntry(g, v, a, d, path[0]);
      if |path| > 1 {
        var l := r.value;
        ResolveStep(g, v, w, a, l);
        ResolveSim(g, v, w, a, Below(g, SlotAt(g, v, l)), path[1..]);
      }
    }
  }

  lemma ResolveStep(g: Geometry, v: Vol, w: Vol, a: Abs, l: Loc)
    requires Shape(g, v) && Shape(g, w) && OwnInRange(g, a.t) && DirSim(g, v, w, a) && DirLoc(g, a, l)
    requires IsDir(SlotAt(g, v, l)) && Known(g, a, l, SlotAt(g, v, l))
    ensures Below(g, SlotAt(g, w, l)) == Below(g, SlotAt(g, v, l)) && Below(g, SlotAt(g, v, l)) in a.dirs
    ensures IsDir(SlotAt(g, w, l))
  {
    assert ClusterSim(v.data[l.c], w.data[l.c]);
    assert SlotSim(SlotAt(g, v, l), SlotAt(g, w, l));
    assert SlotAt(g, w, l)[..12][11] == SlotAt(g, w, l)[11];
  }

  // ----- images with equal contents

  lemma {:induction false} ChainBytesSame(g: Geometry, v: Vol, w: Vol, ch: seq<nat>)
    requires Shape(g, v) && Shape(g, w)
    requires forall i :: 0 <= i < |ch| ==> 2 <= ch[i] <= g.maxCluster && v.data[ch[i]] == w.data[ch[i]]
    ensures ChainBytes(g, v, ch) == ChainBytes(g, w, ch)
  {
    if ch != [] {
      ChainBytesSame(g, v, w, ch[1..]);
    }
  }

  // A file whose clusters are the same in both images has the same content in both.
  lemma ContentSame(g: Geometry, v: Vol, w: Vol, a: Abs, e: Slot)
    requires g.Valid() && Shape(g, v) && Shape(g, w) && ChainsOk(v.fats[0], a.t)
    requires First(e) == 0 || First(e) in a.t.chain
    requires First(e) != 0 ==> forall c :: c in a.t.chain[First(e)] ==>
               2 <= c <= g.maxCluster && v.fats[0][c] == w.fats[0][c] && v.data[c] == w.data[c]
    ensures Content(g, w, e) == Content(g, v, e)
  {
    if First(e) != 0 {
      var ch := a.t.chain[First(e)];
      WalkIsChain(g, v, a.t, First(e));
      WalkSame(v.fats[0], w.fats[0], First(e), g.maxCluster);
      forall i | 0 <= i < |ch| ensures 2 <= ch[i] <= g.maxCluster && v.data[ch[i]] == w.data[ch[i]] {
        assert ch[i] in ch;
      }
      ChainBytesSame(g, v, w, ch);
    }
  }

  // The content behind an entry that refers to a known chain.
  lemma ContentOfChain(g: Geometry, w: Vol, e: Slot, ch: seq<nat>)
    requires g.Valid() && Shape(g, w) && IsChain(w.fats[0], ch) && First(e) == ch[0]
    ensures Content(g, w, e) == Take(ChainBytes(g, w, ch), Size(e))
  {
    ChainBound(w.fats[0], ch);
    WalkChain(w.fats[0], ch, g.maxCluster);
  }

  // ----- positions inside a file

  lemma {:induction false} SectorBytesAt(cl: Cluster, s: nat)
    requires s < |cl|
    ensures SectorBytes(cl)[512 * s .. 512 * s + 512] == cl[s]
  {
    if s == 0 {
      assert SectorBytes(cl)[..512] == cl[0];
    } else {
      SectorBytesAt(cl[1..], s - 1);
      assert SectorBytes(cl) == cl[0] + SectorBytes(cl[1..]);
      assert SectorBytes(cl)[512 * s .. 512 * s + 512] == SectorBytes(cl[1..])[512 * (s - 1) .. 512 * (s - 1) + 512];
    }
  }

  lemma {:induction false} ChainBytesConcat(g: Geometry, v: Vol, ch: seq<nat>, dh: seq<nat>)
    requires Shape(g, v) && (forall i :: 0 <= i < |ch| ==> 2 <= ch[i] <= g.maxCluster)
    requires forall i :: 0 <= i < |dh| ==> 2 <= dh[i] <= g.maxCluster
    ensures ChainBytes(g, v, ch + dh) == ChainBytes(g, v, ch) + ChainBytes(g, v, dh)
  {
    if ch == [] {
      assert ch + dh == dh;
    } else {
      assert (ch + dh)[1..] == ch[1..] + dh;
      ChainBytesConcat(g, v, ch[1..], dh);
    }
  }

  lemma ChainBytesOne(g: Geometry, v: Vol, c: nat)
    requires Shape(g, v) && 2 <= c <= g.maxCluster
    ensures ChainBytes(g, v, [c]) == SectorBytes(v.data[c])
  {
    assert ChainBytes(g, v, [c]) == SectorBytes(v.data[c]) + ChainBytes(g, v, []);
  }

  lemma NoContent(g: Geometry, v: Vol, e: Slot)
    requires Shape(g, v) && Size(e) == 0
    ensures Content(g, v, e) == []
  {
  }

  // The bytes of the first j + 1 clusters of a chain.
  lemma ChainBytesNext(g: Geometry, v: Vol, ch: seq<nat>, j: nat)
    requires Shape(g, v) && (forall i :: 0 <= i < |ch| ==> 2 <= ch[i] <= g.maxCluster) && j < |ch|
    ensures ChainBytes(g, v, ch[..j + 1]) == ChainBytes(g, v, ch[..j]) + SectorBytes(v.data[ch[j]])
  {
    assert ch[..j + 1] == ch[..j] + [ch[j]];
    ChainBytesConcat(g, v, ch[..j], [ch[j]]);
    ChainBytesOne(g, v, ch[j]);
  }

  lemma NoBytes(g: Geometry, v: Vol, ch: seq<nat>)
    requires Shape(g, v) && (forall i :: 0 <= i < |ch| ==> 2 <= ch[i] <= g.maxCluster)
    ensures ChainBytes(g, v, ch[..0]) == []
  {
  }

  // Having read "lim" bytes, or all clusters, the rest of the chain does not matter.
  lemma ChainBytesDone(g: Geometry, v: Vol, ch: seq<nat>, j: nat, lim: nat)
    requires Shape(g, v) && (forall i :: 0 <= i < |ch| ==> 2 <= ch[i] <= g.maxCluster) && j <= |ch|
    requires j == |ch| || lim <= |ChainBytes(g, v, ch[..j])|
    ensures Take(ChainBytes(g, v, ch), lim) == Take(ChainBytes(g, v, ch[..j]), lim)
  {
    assert ch == ch[..j] + ch[j..];
    ChainBytesConcat(g, v, ch[..j], ch[j..]);
  }

  // A file entry with a first cluster has a chain.
  lemma FileChain(g: Geometry, v: Vol, a: Abs, l: Loc, e: Slot)
    requires Inv(g, v, a) && RealOk(g, a, l, e) && !IsDir(e)
    ensures First(e) < 2 ==> First(e) == 0 && Size(e) == 0
    ensures First(e) >= 2 ==> First(e) in a.t.chain && First(e) !in a.dirs && Size(e) > 0
    ensures First(e) >= 2 ==> IsChain(v.fats[0], a.t.chain[First(e)]) && a.t.chain[First(e)][0] == First(e)
    ensures First(e) >= 2 ==> Fits(g, |a.t.chain[First(e)]|, Size(e))
  {
    hide OwnersOk, UsedOk, SlotsOk, RefsOk, DirsOk;
    ZeroIsNoChain(v.fats[0], a.t);
    if First(e) in a.t.chain { assert a.t.chain[First(e)][0] == First(e); }
  }

  // The n bytes of buf from pos on, continued with zeros behind its end.
  function Padded(buf: seq<byte>, pos: nat, n: nat): (r: seq<byte>)
    ensures |r| == n
    ensures forall q :: 0 <= q < n ==> r[q] == if pos + q < |buf| then buf[pos + q] else 0
  {
    seq(n, q requires 0 <= q < n => if pos + q < |buf| then buf[pos + q] else 0)
  }

  lemma PaddedConcat(buf: seq<byte>, pos: nat, m: nat, n: nat)
    ensures Padded(buf, pos, m) + Padded(buf, pos + m, n) == Padded(buf, pos, m + n)
  {
  }

  lemma PaddedAll(buf: seq<byte>, n: nat)
    requires |buf| <= n
    ensures Take(Padded(buf, 0, n), |buf|) == buf
  {
  }

  // The cluster holds the bytes of buf from position pos on.
  predicate HoldsFrom(cl: Cluster, buf: seq<byte>, pos: nat) {
    SectorBytes(cl) == Padded(buf, pos, 512 * |cl|)
  }

  lemma {:induction false} HoldsFromSectors(cl: Cluster, buf: seq<byte>, pos: nat)
    requires forall s :: 0 <= s < |cl| ==> cl[s] == Padded(buf, pos + 512 * s, 512)
    ensures HoldsFrom(cl, buf, pos)
  {
    if cl != [] {
      var rest := cl[1..];
      forall s | 0 <= s < |rest| ensures rest[s] == Padded(buf, pos + 512 + 512 * s, 512) {
        assert rest[s] == cl[s + 1] == Padded(buf, pos + 512 * (s + 1), 512);
      }
      HoldsFromSectors(rest, buf, pos + 512);
      PaddedConcat(buf, pos, 512, 512 * |rest|);
    }
  }

  // The first j clusters of the chain hold consecutive pieces of buf.
  ghost predicate HoldsUpTo(g: Geometry, v: Vol, ch: seq<nat>, j: nat, buf: seq<byte>)
    requires Shape(g, v) && (forall i :: 0 <= i < |ch| ==> 2 <= ch[i] <= g.maxCluster) && j <= |ch|
  {
    ChainBytes(g, v, ch[..j]) == Padded(buf, 0, g.Span(j))
  }

  lemma HoldsNone(g: Geometry, v: Vol, ch: seq<nat>, buf: seq<byte>)
    requires Shape(g, v) && (forall i :: 0 <= i < |ch| ==> 2 <= ch[i] <= g.maxCluster)
    ensures HoldsUpTo(g, v, ch, 0, buf)
  {
  }

  lemma PrefixKept(g: Geometry, v: Vol, w: Vol, ch: seq<nat>, j: nat)
    requires Shape(g, v) && Shape(g, w) && (forall i :: 0 <= i < |ch| ==> 2 <= ch[i] <= g.maxCluster) && j < |ch|
    requires Distinct(ch) && w.data == v.data[ch[j] := w.data[ch[j]]]
    ensures ChainBytes(g, w, ch[..j]) == ChainBytes(g, v, ch[..j])
  {
    forall i | 0 <= i < j ensures v.data[ch[..j][i]] == w.data[ch[..j][i]] { assert ch[i] != ch[j]; }
    ChainBytesSame(g, v, w, ch[..j]);
  }

  lemma HoldsNext(g: Geometry, v: Vol, w: Vol, ch: seq<nat>, j: nat, buf: seq<byte>)
    requires Shape(g, v) && Shape(g, w) && (forall i :: 0 <= i < |ch| ==> 2 <= ch[i] <= g.maxCluster) && j < |ch|
    requires Distinct(ch) && HoldsUpTo(g, v, ch, j, buf)
    requires w.data == v.data[ch[j] := w.data[ch[j]]] && HoldsFrom(w.data[ch[j]], buf, g.Span(j))
    ensures HoldsUpTo(g, w, ch, j + 1, buf)
  {
    hide Padded, Distinct, SectorBytes, ChainBytes;
    PrefixKept(g, v, w, ch, j);
    ChainBytesNext(g, w, ch, j);
    PaddedConcat(buf, 0, g.Span(j), g.ClusterBytes());
    assert |w.data[ch[j]]| == g.spc;
  }

  lemma HoldsAll(g: Geometry, v: Vol, ch: seq<nat>, buf: seq<byte>)
    requires Shape(g, v) && (forall i :: 0 <= i < |ch| ==> 2 <= ch[i] <= g.maxCluster)
    requires HoldsUpTo(g, v, ch, |ch|, buf) && |buf| <= g.Span(|ch|)
    ensures Take(ChainBytes(g, v, ch), |buf|) == buf
  {
    assert ch[..|ch|] == ch;
    PaddedAll(buf, g.Span(|ch|));
  }
}
