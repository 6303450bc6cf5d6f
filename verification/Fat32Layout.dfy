/**
 How the volume lies on the disk: 32-bit table entries, of which the lower 28 bits are the link,
 in 512-byte sectors, behind them the clusters.  Updating the sectors the way the driver does
 is updating the view that `Fat32Volume` gives.
 */
module Fat32Layout {
  import opened Bytes
  import opened Fat32Volume

  const LOW28: nat := 0x1000_0000

  // The upper four bits of a table entry, and the link below them.
  function Top(x: nat): nat { x / LOW28 }
  function Low(x: nat): nat { x % LOW28 }

  datatype Layout = Layout(g: Geometry, fatStart: nat, fatSize: nat, dataStart: nat, total: nat) {
    predicate Valid() {
      && g.Valid()
      && fatStart + g.numFats * fatSize <= dataStart
      && g.maxCluster < 128 * fatSize
      && dataStart + (g.maxCluster - 1) * g.spc <= total
    }

    function FatSector(k: nat, c: nat): nat { fatStart + k * fatSize + 4 * c / 512 }

    // fat32_cluster_to_rel_lba, and the sector in the cluster.
    function DataSector(c: nat, s: nat): nat
      requires c >= 2
    {
      dataStart + (c - 2) * g.spc + s
    }

    lemma FatBounds(k: nat, c: nat)
      requires Valid() && k < g.numFats && c <= g.maxCluster
      ensures fatStart + k * fatSize <= FatSector(k, c) < fatStart + (k + 1) * fatSize <= dataStart <= total
    {
      Grows(k + 1, g.numFats, fatSize);
      Grows(0, g.maxCluster - 1, g.spc);
    }

    // Table sectors and data sectors are on the disk, and none is both.
    lemma FatIn(k: nat, c: nat)
      requires Valid() && k < g.numFats && c <= g.maxCluster
      ensures FatSector(k, c) < dataStart <= total
    {
      FatBounds(k, c);
    }

    lemma DataIn(c: nat, s: nat)
      requires Valid() && 2 <= c <= g.maxCluster && s < g.spc
      ensures dataStart <= DataSector(c, s) < total
    {
      DataBounds(c, s);
      Grows(0, c - 2, g.spc);
    }

    lemma SameSector(k: nat, c: nat, d: nat)
      requires FatSector(k, c) == FatSector(k, d)
      ensures 4 * c / 512 == 4 * d / 512
    {
    }

    lemma DataBounds(c: nat, s: nat)
      requires Valid() && 2 <= c <= g.maxCluster && s < g.spc
      ensures dataStart + (c - 2) * g.spc <= DataSector(c, s) < dataStart + (c - 1) * g.spc <= total
    {
      Grows(c - 1, g.maxCluster - 1, g.spc);
      assert (c - 1) * g.spc == (c - 2) * g.spc + g.spc;
    }

    lemma FatApart(k: nat, c: nat, j: nat, d: nat)
      requires Valid() && k < g.numFats && j < g.numFats && c <= g.maxCluster && d <= g.maxCluster && k != j
      ensures FatSector(k, c) != FatSector(j, d)
    {
      FatBounds(k, c);
      FatBounds(j, d);
      if k < j { Grows(k + 1, j, fatSize); } else { Grows(j + 1, k, fatSize); }
    }

    lemma DataApart(c: nat, s: nat, d: nat, t: nat)
      requires Valid() && 2 <= c <= g.maxCluster && 2 <= d <= g.maxCluster && s < g.spc && t < g.spc
      requires c != d || s != t
      ensures DataSector(c, s) != DataSector(d, t)
    {
      DataBounds(c, s);
      DataBounds(d, t);
      if c < d { Grows(c - 1, d - 2, g.spc); } else if d < c { Grows(d - 1, c - 2, g.spc); }
    }
  }

  lemma Grows(a: nat, b: nat, n: nat)
    requires a <= b
    ensures 0 <= a * n <= b * n
  {
  }

  // The place of cluster c's entry in its sector.
  function Off(c: nat): (off: nat)
    ensures off + 4 <= 512
  {
    assert 4 * c % 512 == 4 * (c % 128);
    4 * c % 512
  }

  lemma OffApart(c: nat, d: nat)
    requires c != d && 4 * c / 512 == 4 * d / 512
    ensures Off(c) + 4 <= Off(d) || Off(d) + 4 <= Off(c)
  {
  }

  // The table entry at byte "off" of a sector.
  function Entry(sec: Sector, off: nat): nat
    requires off + 4 <= 512
  {
    Le32(sec[off], sec[off + 1], sec[off + 2], sec[off + 3])
  }

  function PutEntry(sec: Sector, off: nat, x: nat): (r: Sector)
    requires off + 4 <= 512 && x < 0x1_0000_0000
    ensures Entry(r, off) == x
    ensures forall i :: 0 <= i < 512 && !(off <= i < off + 4) ==> r[i] == sec[i]
  {
    BytesOf(x);
    var r: Sector := sec[off := Byte(x, 0)][off + 1 := Byte(x, 1)][off + 2 := Byte(x, 2)][off + 3 := Byte(x, 3)];
    r
  }

  predicate Fits(l: Layout, secs: seq<Sector>) { l.Valid() && |secs| == l.total }

  // The 32-bit entry of cluster c in copy k.
  function EntryOf(l: Layout, secs: seq<Sector>, k: nat, c: nat): (x: nat)
    requires Fits(l, secs) && k < l.g.numFats && c <= l.g.maxCluster
    ensures x < 0x1_0000_0000
  {
    l.FatIn(k, c);
    Entry(secs[l.FatSector(k, c)], Off(c))
  }

  function DataOf(l: Layout, secs: seq<Sector>, c: nat, s: nat): Sector
    requires Fits(l, secs) && 2 <= c <= l.g.maxCluster && s < l.g.spc
  {
    l.DataIn(c, s);
    secs[l.DataSector(c, s)]
  }

  // The table and the clusters of v are what the sectors hold.
  ghost predicate ShowsFats(l: Layout, secs: seq<Sector>, v: Vol)
    requires Fits(l, secs) && Shape(l.g, v)
  {
    forall k, c :: 0 <= k < l.g.numFats && 0 <= c <= l.g.maxCluster ==> v.fats[k][c] == Low(EntryOf(l, secs, k, c))
  }

  ghost predicate ShowsData(l: Layout, secs: seq<Sector>, v: Vol)
    requires Fits(l, secs) && Shape(l.g, v)
  {
    forall c, s :: 2 <= c <= l.g.maxCluster && 0 <= s < l.g.spc ==> v.data[c][s] == DataOf(l, secs, c, s)
  }

  // The sectors hold the volume v.
  ghost predicate Shows(l: Layout, secs: seq<Sector>, v: Vol) {
    Fits(l, secs) && Shape(l.g, v) && ShowsFats(l, secs, v) && ShowsData(l, secs, v)
  }

  // The upper four bits of all entries are the same.
  ghost predicate SameTops(l: Layout, secs: seq<Sector>, now: seq<Sector>)
    requires Fits(l, secs) && Fits(l, now)
  {
    forall k, c :: 0 <= k < l.g.numFats && 0 <= c <= l.g.maxCluster ==>
      Top(EntryOf(l, now, k, c)) == Top(EntryOf(l, secs, k, c))
  }

  // The sectors after one copy of one table entry has been rewritten.
  function SetEntry(l: Layout, secs: seq<Sector>, k: nat, c: nat, x: nat): (now: seq<Sector>)
    requires Fits(l, secs) && k < l.g.numFats && c <= l.g.maxCluster && x < 0x1_0000_0000
    ensures Fits(l, now)
  {
    l.FatIn(k, c);
    var p := l.FatSector(k, c);
    var sec: Sector := secs[p];
    var sec': Sector := PutEntry(sec, Off(c), x);
    secs[p := sec']
  }

  lemma SetEntryIs(l: Layout, secs: seq<Sector>, k: nat, c: nat, x: nat, j: nat, d: nat)
    requires Fits(l, secs) && k < l.g.numFats && c <= l.g.maxCluster && x < 0x1_0000_0000
    requires j < l.g.numFats && d <= l.g.maxCluster
    ensures EntryOf(l, SetEntry(l, secs, k, c, x), j, d) == if j == k && d == c then x else EntryOf(l, secs, j, d)
  {
    hide Entry, PutEntry, Layout.FatSector, Layout.Valid, Off;
    l.FatIn(k, c);
    l.FatIn(j, d);
    if j != k { l.FatApart(k, c, j, d); }
    else if d != c { OtherEntry(l, secs, k, c, x, d); }
  }

  lemma OtherEntry(l: Layout, secs: seq<Sector>, k: nat, c: nat, x: nat, d: nat)
    requires Fits(l, secs) && k < l.g.numFats && c <= l.g.maxCluster && x < 0x1_0000_0000 && d <= l.g.maxCluster
             && d != c
    ensures EntryOf(l, SetEntry(l, secs, k, c, x), k, d) == EntryOf(l, secs, k, d)
  {
    hide PutEntry, Layout.FatSector, Layout.Valid, Off;
    l.FatIn(k, c);
    l.FatIn(k, d);
    if l.FatSector(k, c) == l.FatSector(k, d) {
      l.SameSector(k, c, d);
      OffApart(c, d);
    }
  }

  lemma SetEntryData(l: Layout, secs: seq<Sector>, k: nat, c: nat, x: nat, d: nat, s: nat)
    requires Fits(l, secs) && k < l.g.numFats && c <= l.g.maxCluster && x < 0x1_0000_0000
    requires 2 <= d <= l.g.maxCluster && s < l.g.spc
    ensures DataOf(l, SetEntry(l, secs, k, c, x), d, s) == DataOf(l, secs, d, s)
  {
    hide PutEntry, Layout.FatSector, Layout.DataSector, Layout.Valid, Off;
    l.FatIn(k, c);
    l.DataIn(d, s);
  }

  // The entry fat32_fat_set writes: the new link below the upper four bits of the old entry.
  function Merged(cur: nat, value: nat): (x: nat)
    requires cur < 0x1_0000_0000
    ensures x < 0x1_0000_0000 && Low(x) == Low(value) && Top(x) == Top(cur)
  {
    cur / LOW28 * LOW28 + value % LOW28
  }

  lemma SetEntryFats(l: Layout, secs: seq<Sector>, v: Vol, k: nat, c: nat, x: nat, value: nat)
    requires Fits(l, secs) && Shape(l.g, v) && ShowsFats(l, secs, v) && k < l.g.numFats && 2 <= c <= l.g.maxCluster
    requires x < 0x1_0000_0000 && Low(x) == value && Top(x) == Top(EntryOf(l, secs, k, c))
    ensures ShowsFats(l, SetEntry(l, secs, k, c, x), PutFat(l.g, v, k, c, value))
            && SameTops(l, secs, SetEntry(l, secs, k, c, x))
  {
    hide EntryOf, SetEntry, Top, Low;
    var now, w := SetEntry(l, secs, k, c, x), PutFat(l.g, v, k, c, value);
    forall j, d | 0 <= j < l.g.numFats && 0 <= d <= l.g.maxCluster
      ensures w.fats[j][d] == Low(EntryOf(l, now, j, d)) && Top(EntryOf(l, now, j, d)) == Top(EntryOf(l, secs, j, d))
    {
      SetEntryIs(l, secs, k, c, x, j, d);
      assert v.fats[j][d] == Low(EntryOf(l, secs, j, d));
    }
  }

  lemma SetEntryDatas(l: Layout, secs: seq<Sector>, v: Vol, k: nat, c: nat, x: nat, value: nat)
    requires Fits(l, secs) && Shape(l.g, v) && ShowsData(l, secs, v) && k < l.g.numFats && 2 <= c <= l.g.maxCluster
             && x < 0x1_0000_0000
    ensures ShowsData(l, SetEntry(l, secs, k, c, x), PutFat(l.g, v, k, c, value))
  {
    hide EntryOf, DataOf, SetEntry;
    var now := SetEntry(l, secs, k, c, x);
    forall d, s | 2 <= d <= l.g.maxCluster && 0 <= s < l.g.spc ensures DataOf(l, now, d, s) == DataOf(l, secs, d, s) {
      SetEntryData(l, secs, k, c, x, d, s);
    }
  }

  /** Rewriting one copy of a table entry is one step of the view, and keeps all upper bits. */
  lemma SetEntryShows(l: Layout, secs: seq<Sector>, v: Vol, k: nat, c: nat, value: nat)
    requires Shows(l, secs, v) && k < l.g.numFats && 2 <= c <= l.g.maxCluster && value < LOW28
    ensures var now := SetEntry(l, secs, k, c, Merged(EntryOf(l, secs, k, c), value));
            Shows(l, now, PutFat(l.g, v, k, c, value)) && SameTops(l, secs, now)
  {
    assert Low(value) == value;
    hide EntryOf, SetEntry, Merged, Top, Low, ShowsFats, ShowsData, SameTops;
    var x := Merged(EntryOf(l, secs, k, c), value);
    SetEntryFats(l, secs, v, k, c, x, value);
    SetEntryDatas(l, secs, v, k, c, x, value);
  }

  function SetData(l: Layout, secs: seq<Sector>, c: nat, s: nat, sec: Sector): (now: seq<Sector>)
    requires Fits(l, secs) && 2 <= c <= l.g.maxCluster && s < l.g.spc
    ensures Fits(l, now)
  {
    l.DataIn(c, s);
    secs[l.DataSector(c, s) := sec]
  }

  lemma SetDataIs(l: Layout, secs: seq<Sector>, c: nat, s: nat, sec: Sector, d: nat, t: nat)
    requires Fits(l, secs) && 2 <= c <= l.g.maxCluster && s < l.g.spc && 2 <= d <= l.g.maxCluster && t < l.g.spc
    ensures DataOf(l, SetData(l, secs, c, s, sec), d, t) == if d == c && t == s then sec else DataOf(l, secs, d, t)
  {
    hide Layout.DataSector, Layout.Valid;
    l.DataIn(c, s);
    l.DataIn(d, t);
    if d != c || t != s { l.DataApart(c, s, d, t); }
  }

  lemma SetDataEntry(l: Layout, secs: seq<Sector>, c: nat, s: nat, sec: Sector, k: nat, d: nat)
    requires Fits(l, secs) && 2 <= c <= l.g.maxCluster && s < l.g.spc && k < l.g.numFats && d <= l.g.maxCluster
    ensures EntryOf(l, SetData(l, secs, c, s, sec), k, d) == EntryOf(l, secs, k, d)
  {
    hide Entry, Layout.FatSector, Layout.DataSector, Layout.Valid, Off;
    l.FatIn(k, d);
    l.DataIn(c, s);
  }

  /** Writing one sector of a cluster is one step of the view. */
  lemma SetDataShows(l: Layout, secs: seq<Sector>, v: Vol, c: nat, s: nat, sec: Sector)
    requires Shows(l, secs, v) && 2 <= c <= l.g.maxCluster && s < l.g.spc
    ensures Shows(l, SetData(l, secs, c, s, sec), PutSector(l.g, v, c, s, sec))
    ensures SameTops(l, secs, SetData(l, secs, c, s, sec))
  {
    hide EntryOf, DataOf, SetData, Top, Low;
    var now := SetData(l, secs, c, s, sec);
    forall j, d | 0 <= j < l.g.numFats && 0 <= d <= l.g.maxCluster
      ensures EntryOf(l, now, j, d) == EntryOf(l, secs, j, d)
    {
      SetDataEntry(l, secs, c, s, sec, j, d);
    }
    forall d, t | 2 <= d <= l.g.maxCluster && 0 <= t < l.g.spc
      ensures DataOf(l, now, d, t) == if d == c && t == s then sec else DataOf(l, secs, d, t)
    {
      SetDataIs(l, secs, c, s, sec, d, t);
    }
  }

  predicate HasTop(l: Layout, secs: seq<Sector>, tops: seq<seq<nat>>, k: nat, c: nat)
    requires Fits(l, secs) && k < l.g.numFats && c <= l.g.maxCluster
  {
    k < |tops| && c < |tops[k]| && Top(EntryOf(l, secs, k, c)) == tops[k][c]
  }

  // The sectors hold the volume, and the upper four bits of its table entries are "tops".
  ghost predicate Holds(l: Layout, secs: seq<Sector>, v: Vol, tops: seq<seq<nat>>) {
    && Shows(l, secs, v)
    && forall k: nat, c: nat :: k < l.g.numFats && c <= l.g.maxCluster ==> HasTop(l, secs, tops, k, c)
  }

  lemma TopsKept(l: Layout, secs: seq<Sector>, v: Vol, now: seq<Sector>, w: Vol, tops: seq<seq<nat>>)
    requires Holds(l, secs, v, tops) && Shows(l, now, w) && SameTops(l, secs, now)
    ensures Holds(l, now, w, tops)
  {
    hide EntryOf, DataOf, Top;
    forall k: nat, c: nat | k < l.g.numFats && c <= l.g.maxCluster ensures HasTop(l, now, tops, k, c) {
      assert HasTop(l, secs, tops, k, c);
      assert Top(EntryOf(l, now, k, c)) == Top(EntryOf(l, secs, k, c));
    }
  }

  lemma ShowsFits(l: Layout, secs: seq<Sector>, v: Vol)
    requires Shows(l, secs, v)
    ensures Fits(l, secs) && Shape(l.g, v)
  {
  }

  /** A write of one table entry: one sector of one copy. */
  lemma PutFatHolds(l: Layout, secs: seq<Sector>, v: Vol, tops: seq<seq<nat>>, k: nat, c: nat, value: nat)
    returns (now: seq<Sector>, p: nat)
    requires Holds(l, secs, v, tops) && k < l.g.numFats && 2 <= c <= l.g.maxCluster && value < LOW28
    ensures Holds(l, now, PutFat(l.g, v, k, c, value), tops)
    ensures p < |secs| == |now| && now == secs[p := now[p]]
  {
    hide EntryOf, DataOf, Merged, Shows, SameTops, Layout.FatSector, Layout.Valid;
    ShowsFits(l, secs, v);
    l.FatIn(k, c);
    p := l.FatSector(k, c);
    SetEntryShows(l, secs, v, k, c, value);
    now := SetEntry(l, secs, k, c, Merged(EntryOf(l, secs, k, c), value));
    TopsKept(l, secs, v, now, PutFat(l.g, v, k, c, value), tops);
  }

  /** A write of one sector of a cluster. */
  lemma PutSectorHolds(l: Layout, secs: seq<Sector>, v: Vol, tops: seq<seq<nat>>, c: nat, s: nat, sec: Sector)
    returns (now: seq<Sector>, p: nat)
    requires Holds(l, secs, v, tops) && 2 <= c <= l.g.maxCluster && s < l.g.spc
    ensures Holds(l, now, PutSector(l.g, v, c, s, sec), tops)
    ensures p < |secs| == |now| && now == secs[p := now[p]]
  {
    hide EntryOf, DataOf, Shows, SameTops, Layout.DataSector, Layout.Valid;
    ShowsFits(l, secs, v);
    l.DataIn(c, s);
    p := l.DataSector(c, s);
    SetDataShows(l, secs, v, c, s, sec);
    now := SetData(l, secs, c, s, sec);
    TopsKept(l, secs, v, now, PutSector(l.g, v, c, s, sec), tops);
  }

  class Disk {
    const l: Layout
    var secs: seq<Sector>

    method FatGet(c: nat, ghost v: Vol) returns (x: nat)
      requires Shows(l, secs, v) && 2 <= c <= l.g.maxCluster
      ensures x == v.fats[0][c]
    {
      l.FatIn(0, c);
      assert v.fats[0][c] == Low(EntryOf(l, secs, 0, c));
      var rel, off := l.fatStart + 4 * c / 512, Off(c);
      x := Entry(secs[rel], off) % LOW28;
    }

    /** fat32_fat_set on the sectors: all copies get the link, and all upper bits stay. */
    method FatSet(c: nat, value: nat, ghost v: Vol) returns (ghost w: Vol)
      requires Shows(l, secs, v) && 2 <= c <= l.g.maxCluster
      modifies this
      ensures Shows(l, secs, w) && SameTops(l, old(secs), secs) && w.data == v.data
      ensures forall k :: 0 <= k < l.g.numFats ==> w.fats[k] == v.fats[k][c := value % LOW28]
    {
      hide EntryOf, DataOf, SetEntry, Merged;
      w := v;
      var k, link := 0, value % LOW28;
      while k < l.g.numFats
        invariant 0 <= k <= l.g.numFats && Shows(l, secs, w) && SameTops(l, old(secs), secs) && w.data == v.data
        invariant forall j :: 0 <= j < l.g.numFats ==> w.fats[j] == if j < k then v.fats[j][c := link] else v.fats[j]
      {
        ghost var before := secs;
        SetEntryShows(l, secs, w, k, c, link);
        var cur := EntryOf(l, secs, k, c);
        secs := SetEntry(l, secs, k, c, Merged(cur, link));
        TopsJoin(l, old(secs), before, secs);
        w := PutFat(l.g, w, k, c, link);
        k := k + 1;
      }
    }
  }

  lemma TopsJoin(l: Layout, x: seq<Sector>, y: seq<Sector>, z: seq<Sector>)
    requires Fits(l, x) && Fits(l, y) && Fits(l, z) && SameTops(l, x, y) && SameTops(l, y, z)
    ensures SameTops(l, x, z)
  {
    hide EntryOf;
  }
}
