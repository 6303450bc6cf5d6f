/**
 Directory entries, short names, and the scans that look a name up in a directory.
 A directory is a chain of clusters whose sectors hold 16 slots of 32 bytes each.
 */
module Fat32Dirs {
  import opened Bytes
  import opened Fat32Chains
  import opened Fat32Volume

  type Slot = s: seq<byte> | |s| == 32 witness Zeros(32)
  type Name = seq<byte>

  const SPACE: byte := 32
  const DOT_CHAR: byte := 46
  const DELETED: byte := 0xE5
  const ATTR_DIR: byte := 0x10
  const ATTR_ARCHIVE: byte := 0x20

  // ----- slots and their fields

  function SlotOf(sec: Sector, i: nat): (e: Slot)
    requires i < 16
  {
    sec[32 * i .. 32 * i + 32]
  }

  // The first byte of a slot: 0 if the slot was never used, DELETED if it is free again.
  function Tag(sec: Sector, i: nat): byte
    requires i < 16
  {
    sec[32 * i]
  }

  function PutSlot(sec: Sector, i: nat, e: Slot): (r: Sector)
    requires i < 16
    ensures SlotOf(r, i) == e
    ensures forall j :: 0 <= j < 16 && j != i ==> SlotOf(r, j) == SlotOf(sec, j) && Tag(r, j) == Tag(sec, j)
  {
    var r: Sector := sec[.. 32 * i] + e + sec[32 * i + 32 ..];
    assert r[32 * i .. 32 * i + 32] == e;
    assert forall j :: 0 <= j < 16 && j != i ==> r[32 * j .. 32 * j + 32] == sec[32 * j .. 32 * j + 32] by {
      forall j | 0 <= j < 16 && j != i
        ensures r[32 * j .. 32 * j + 32] == sec[32 * j .. 32 * j + 32]
      {
        if j < i {
          assert r[32 * j .. 32 * j + 32] == sec[.. 32 * i][32 * j .. 32 * j + 32];
        } else {
          forall k | 32 * j <= k < 32 * j + 32 ensures r[k] == sec[k] { }
        }
      }
    }
    r
  }

  predicate Live(e: Slot) { e[0] != 0 && e[0] != DELETED }

  predicate IsVolume(e: Slot) { (e[11] / 8) % 2 == 1 }

  predicate IsDir(e: Slot) { (e[11] / 16) % 2 == 1 }

  // The self and parent entries that fat32_dir_is_empty passes over.
  predicate IsDot(e: Slot) {
    e[0] == DOT_CHAR && (e[1] == SPACE || (e[1] == DOT_CHAR && e[2] == SPACE))
  }

  predicate Real(e: Slot) { Live(e) && !IsDot(e) }

  function First(e: Slot): nat { Le32(e[26], e[27], e[20], e[21]) }

  function Size(e: Slot): nat { Le32(e[28], e[29], e[30], e[31]) }

  // The bytes around those of the first cluster and of the size are the same.
  predicate SameButExtent(e: Slot, r: Slot) { r[..20] == e[..20] && r[22..26] == e[22..26] }

  // The entry with its first cluster and its size replaced.
  function WithExtent(e: Slot, first: nat, size: nat): (r: Slot)
    requires first < 0x1_0000_0000 && size < 0x1_0000_0000
    ensures First(r) == first && Size(r) == size && r[..12] == e[..12] && SameButExtent(e, r)
  {
    BytesOf(first); BytesOf(size);
    e[..20] + [Byte(first, 2), Byte(first, 3)] + e[22..26] + [Byte(first, 0), Byte(first, 1)]
    + [Byte(size, 0), Byte(size, 1), Byte(size, 2), Byte(size, 3)]
  }

  // A fresh entry, all other fields zero.
  function MakeSlot(name: seq<byte>, attr: byte, first: nat, size: nat): (r: Slot)
    requires |name| == 11 && first < 0x1_0000_0000 && size < 0x1_0000_0000
    ensures First(r) == first && Size(r) == size && r[..11] == name && r[11] == attr
    ensures r[12..20] == Zeros(8) && r[22..26] == Zeros(4)
  {
    var e: Slot := name + [attr] + Zeros(20);
    var r := WithExtent(e, first, size);
    assert r[..11] == r[..12][..11] == name;
    assert r[11] == r[..12][11] == attr;
    assert r[12..20] == r[..20][12..] == e[12..20] == Zeros(8) && r[22..26] == e[22..26] == Zeros(4);
    r
  }

  function Erased(e: Slot): (r: Slot)
    ensures r[0] == DELETED && r[1..] == e[1..]
  {
    var r: Slot := [DELETED] + e[1..];
    r
  }

  // ----- names

  function Lower(b: byte): byte { if 65 <= b <= 90 then b + 32 else b }

  function Upper(b: byte): byte { if 97 <= b <= 122 then b - 32 else b }

  function LowerAll(s: Name): (r: Name)
    ensures |r| == |s| && forall i :: 0 <= i < |s| ==> r[i] == Lower(s[i])
  {
    seq(|s|, i requires 0 <= i < |s| => Lower(s[i]))
  }

  // The bytes before the first space.
  function UpToSpace(s: Name): Name {
    if s == [] || s[0] == SPACE then [] else [s[0]] + UpToSpace(s[1..])
  }

  function Decode(e: Slot): Name {
    LowerAll(UpToSpace(e[..8])) +
    (if e[8] == SPACE then [] else [DOT_CHAR] + LowerAll(UpToSpace(e[8..11])))
  }

  predicate NameEq(a: Name, b: Name) {
    |a| == |b| && forall i :: 0 <= i < |a| ==> Lower(a[i]) == Lower(b[i])
  }

  predicate Matches(e: Slot, name: Name) {
    Live(e) && !IsVolume(e) && NameEq(Decode(e), name)
  }

  // ----- looking a name up

  datatype Loc = Loc(c: nat, s: nat, i: nat)

  datatype Scan<T> = Hit(pos: T) | Stop | More

  function ScanSector(sec: Sector, i: nat, name: Name): (r: Scan<nat>)
    requires i <= 16
    ensures match r
            case Hit(j) => i <= j < 16 && Matches(SlotOf(sec, j), name)
            case Stop => exists j :: i <= j < 16 && Tag(sec, j) == 0 &&
                           forall k :: i <= k < j ==> !Matches(SlotOf(sec, k), name)
            case More => forall k :: i <= k < 16 ==> !Matches(SlotOf(sec, k), name)
    decreases 16 - i
  {
    if i == 16 then More
    else if Tag(sec, i) == 0 then Stop
    else if Matches(SlotOf(sec, i), name) then Hit(i)
    else ScanSector(sec, i + 1, name)
  }

  function ScanCluster(cl: Cluster, s: nat, name: Name): (r: Scan<(nat, nat)>)
    requires s <= |cl|
    ensures r.Hit? ==> s <= r.pos.0 < |cl| && r.pos.1 < 16 && Matches(SlotOf(cl[r.pos.0], r.pos.1), name)
    decreases |cl| - s
  {
    if s == |cl| then More
    else match ScanSector(cl[s], 0, name)
         case Hit(i) => Hit((s, i))
         case Stop => Stop
         case More => ScanCluster(cl, s + 1, name)
  }

  predicate InVol(g: Geometry, l: Loc) {
    2 <= l.c <= g.maxCluster && l.s < g.spc && l.i < 16
  }

  function SlotAt(g: Geometry, v: Vol, l: Loc): Slot
    requires Shape(g, v) && InVol(g, l)
  {
    SlotOf(v.data[l.c][l.s], l.i)
  }

  function FindInChain(g: Geometry, v: Vol, ch: seq<nat>, name: Name): (r: Option<Loc>)
    requires Shape(g, v) && forall i :: 0 <= i < |ch| ==> 2 <= ch[i] <= g.maxCluster
    ensures r.Some? ==> r.value.c in ch && InVol(g, r.value) && Matches(SlotAt(g, v, r.value), name)
  {
    if ch == [] then None
    else match ScanCluster(v.data[ch[0]], 0, name)
         case Hit(p) => Some(Loc(ch[0], p.0, p.1))
         case Stop => None
         case More => FindInChain(g, v, ch[1..], name)
  }

  function DirFind(g: Geometry, v: Vol, dir: nat, name: Name): (r: Option<Loc>)
    requires Shape(g, v)
    ensures r.Some? ==> InVol(g, r.value) && Matches(SlotAt(g, v, r.value), name)
  {
    FindInChain(g, v, Walk(v.fats[0], dir, g.maxCluster), name)
  }

  // The directory an entry leads to: first cluster 0 stands for the root.
  function Below(g: Geometry, e: Slot): nat { if First(e) == 0 then g.root else First(e) }

  function Resolve(g: Geometry, v: Vol, dir: nat, path: seq<Name>): (r: Option<Loc>)
    requires Shape(g, v) && |path| >= 1
    ensures r.Some? ==> InVol(g, r.value)
    decreases |path|
  {
    var r := DirFind(g, v, dir, path[0]);
    if r.None? || |path| == 1 then r else Resolve(g, v, Below(g, SlotAt(g, v, r.value)), path[1..])
  }

  // ----- slots after the first never-used one are never used

  ghost predicate BlankSector(sec: Sector) { forall i :: 0 <= i < 16 ==> Tag(sec, i) == 0 }

  ghost predicate TidySector(sec: Sector) {
    forall i, j :: 0 <= i < j < 16 && Tag(sec, i) == 0 ==> Tag(sec, j) == 0
  }

  ghost predicate TidyCluster(cl: Cluster) {
    && (forall s :: 0 <= s < |cl| ==> TidySector(cl[s]))
    && (forall s, t :: 0 <= s < t < |cl| && Tag(cl[s], 15) == 0 ==> BlankSector(cl[t]))
  }

  ghost predicate BlankCluster(cl: Cluster) { forall s :: 0 <= s < |cl| ==> BlankSector(cl[s]) }

  ghost predicate TidyDir(g: Geometry, v: Vol, ch: seq<nat>)
    requires Shape(g, v) && g.Valid() && forall i :: 0 <= i < |ch| ==> 2 <= ch[i] <= g.maxCluster
  {
    && (forall a :: 0 <= a < |ch| ==> TidyCluster(v.data[ch[a]]))
    && (forall a, b :: 0 <= a < b < |ch| && Tag(v.data[ch[a]][g.spc - 1], 15) == 0 ==> BlankCluster(v.data[ch[b]]))
  }

  lemma BlankNoMatch(sec: Sector, name: Name)
    requires BlankSector(sec)
    ensures forall i :: 0 <= i < 16 ==> !Matches(SlotOf(sec, i), name)
  {
    forall i | 0 <= i < 16 ensures !Matches(SlotOf(sec, i), name) {
      assert SlotOf(sec, i)[0] == Tag(sec, i);
    }
  }

  // A scan that stops at a never-used slot has missed nothing.
  lemma StopMissesNothing(sec: Sector, name: Name)
    requires TidySector(sec) && !ScanSector(sec, 0, name).Hit?
    ensures forall i :: 0 <= i < 16 ==> !Matches(SlotOf(sec, i), name)
    ensures ScanSector(sec, 0, name).Stop? ==> Tag(sec, 15) == 0
  {
    forall i | 0 <= i < 16 ensures !Matches(SlotOf(sec, i), name) {
      assert SlotOf(sec, i)[0] == Tag(sec, i);
    }
  }

  lemma {:induction false} ScanClusterMisses(cl: Cluster, s: nat, name: Name)
    requires TidyCluster(cl) && s <= |cl| && !ScanCluster(cl, s, name).Hit?
    ensures forall t, i :: s <= t < |cl| && 0 <= i < 16 ==> !Matches(SlotOf(cl[t], i), name)
    ensures ScanCluster(cl, s, name).Stop? ==> |cl| > 0 && Tag(cl[|cl| - 1], 15) == 0
    decreases |cl| - s
  {
    if s < |cl| {
      StopMissesNothing(cl[s], name);
      if ScanSector(cl[s], 0, name).Stop? {
        forall t | s < t < |cl| ensures forall i :: 0 <= i < 16 ==> !Matches(SlotOf(cl[t], i), name) {
          BlankNoMatch(cl[t], name);
        }
      } else {
        ScanClusterMisses(cl, s + 1, name);
      }
    }
  }

  lemma TidyTail(g: Geometry, v: Vol, ch: seq<nat>)
    requires g.Valid() && Shape(g, v) && forall i :: 0 <= i < |ch| ==> 2 <= ch[i] <= g.maxCluster
    requires TidyDir(g, v, ch) && |ch| > 0
    ensures TidyDir(g, v, ch[1..])
  {
    var rest := ch[1..];
    forall a, b | 0 <= a < b < |rest| && Tag(v.data[rest[a]][g.spc - 1], 15) == 0
      ensures BlankCluster(v.data[rest[b]])
    {
      assert rest[a] == ch[a + 1] && rest[b] == ch[b + 1];
    }
  }

  // No slot of cluster c carries the name.
  ghost predicate NoMatchIn(g: Geometry, v: Vol, c: nat, name: Name)
    requires Shape(g, v) && 2 <= c <= g.maxCluster
  {
    forall t, i :: 0 <= t < g.spc && 0 <= i < 16 ==> !Matches(SlotOf(v.data[c][t], i), name)
  }

  lemma BlankClusterNoMatch(g: Geometry, v: Vol, c: nat, name: Name)
    requires Shape(g, v) && 2 <= c <= g.maxCluster && BlankCluster(v.data[c])
    ensures NoMatchIn(g, v, c, name)
  {
    forall t, i | 0 <= t < g.spc && 0 <= i < 16 ensures !Matches(SlotOf(v.data[c][t], i), name) {
      BlankNoMatch(v.data[c][t], name);
    }
  }

  lemma ClusterMiss(g: Geometry, v: Vol, c: nat, name: Name)
    requires g.Valid() && Shape(g, v) && 2 <= c <= g.maxCluster
    requires TidyCluster(v.data[c]) && !ScanCluster(v.data[c], 0, name).Hit?
    ensures NoMatchIn(g, v, c, name)
    ensures ScanCluster(v.data[c], 0, name).Stop? ==> Tag(v.data[c][g.spc - 1], 15) == 0
  {
    ScanClusterMisses(v.data[c], 0, name);
  }

  // If the lookup finds nothing, no slot of the directory carries the name.
  lemma {:induction false} NotFoundMeansAbsent(g: Geometry, v: Vol, ch: seq<nat>, name: Name)
    requires g.Valid() && Shape(g, v) && forall i :: 0 <= i < |ch| ==> 2 <= ch[i] <= g.maxCluster
    requires TidyDir(g, v, ch) && FindInChain(g, v, ch, name).None?
    ensures forall b :: 0 <= b < |ch| ==> NoMatchIn(g, v, ch[b], name)
  {
    hide Matches, TidyDir, NoMatchIn, ScanCluster;
    if ch != [] {
      TidyHead(g, v, ch, name);
      if !ScanCluster(v.data[ch[0]], 0, name).Stop? {
        TidyTail(g, v, ch);
        NotFoundMeansAbsent(g, v, ch[1..], name);
        assert forall b :: 1 <= b < |ch| ==> ch[b] == ch[1..][b - 1];
      }
    }
  }

  // What a scan of the first cluster of a tidy directory says, if it finds nothing.
  lemma TidyHead(g: Geometry, v: Vol, ch: seq<nat>, name: Name)
    requires g.Valid() && Shape(g, v) && forall i :: 0 <= i < |ch| ==> 2 <= ch[i] <= g.maxCluster
    requires ch != [] && TidyDir(g, v, ch) && !ScanCluster(v.data[ch[0]], 0, name).Hit?
    ensures NoMatchIn(g, v, ch[0], name)
    ensures ScanCluster(v.data[ch[0]], 0, name).Stop? ==> forall b :: 1 <= b < |ch| ==> NoMatchIn(g, v, ch[b], name)
  {
    hide Matches, BlankCluster, TidyCluster, NoMatchIn, ScanCluster;
    ClusterMiss(g, v, ch[0], name);
    if ScanCluster(v.data[ch[0]], 0, name).Stop? {
      forall b | 1 <= b < |ch| ensures NoMatchIn(g, v, ch[b], name) {
        BlankClusterNoMatch(g, v, ch[b], name);
      }
    }
  }
}
