/**
 The FAT32 driver: allocation, directory and file operations over sector reads and writes.
 */
module Fat32Driver {
  import opened Bytes
  import opened Fat32Chains
  import opened Fat32Volume
  import opened Fat32Dirs
  import opened Fat32State
  import opened Fat32Files
  import opened Fat32Bytes
  import opened Fat32Crash
  import opened Fat32Steps
  import opened Fat32Append
  import opened Fat32Names
  import opened Fat32Lookup
  import opened Fat32Remove
  import opened Fat32Atomic
  import Fat32Layout

  class Driver {
    const g: Geometry
    const lay: Fat32Layout.Layout
    var vol: Vol
    ghost var abs: Abs
    ghost var trace: seq<Vol>  // the image after every sector write so far
    ghost var secs: seq<Sector>  // the sectors of the disk
    ghost const tops: seq<seq<nat>>  // the upper four bits of all table entries, of all copies

    // The volume is what the sectors show and the last image that was written, and the upper bits
    // are those of the beginning.
    ghost predicate OnDisk()
      reads this`vol, this`secs, this`trace
    {
      lay.g == g && Fat32Layout.Holds(lay, secs, vol, tops) && (trace == [] || trace[|trace| - 1] == vol)
    }

    ghost predicate Valid()
      reads this
    {
      Inv(g, vol, abs) && OnDisk()
    }

    // A driver for a sound volume on a disk.
    constructor (layout: Fat32Layout.Layout, volume: Vol, ghost chains: Abs, ghost sectors: seq<Sector>,
                 ghost upper: seq<seq<nat>>)
      requires Inv(layout.g, volume, chains) && Fat32Layout.Holds(layout, sectors, volume, upper)
      ensures Valid() && g == layout.g && vol == volume && abs == chains && trace == []
    {
      hide Inv, Fat32Layout.Holds;
      g, lay, vol := layout.g, layout, volume;
      abs, trace, secs, tops := chains, [], sectors, upper;
    }

    // ----- sector primitives; each writes one sector

    ghost predicate OneSector(before: seq<Sector>) reads this`secs {
      |secs| == |before| && exists p :: 0 <= p < |secs| && secs == before[p := secs[p]]
    }

    method WriteFat(k: nat, c: nat, x: nat)
      requires Shape(g, vol) && k < g.numFats && 2 <= c <= g.maxCluster && x < Fat32Layout.LOW28
      requires OnDisk()
      modifies this`vol, this`trace, this`secs
      ensures OnDisk() && OneSector(old(secs))
      ensures vol == PutFat(g, old(vol), k, c, x) && trace == old(trace) + [vol]
    {
      ghost var p;
      secs, p := Fat32Layout.PutFatHolds(lay, secs, vol, tops, k, c, x);
      vol := PutFat(g, vol, k, c, x);
      trace := trace + [vol];
    }

    method WriteSector(c: nat, s: nat, sec: Sector)
      requires Shape(g, vol) && 2 <= c <= g.maxCluster && s < g.spc
      requires OnDisk()
      modifies this`vol, this`trace, this`secs
      ensures OnDisk() && OneSector(old(secs))
      ensures vol == PutSector(g, old(vol), c, s, sec) && trace == old(trace) + [vol]
    {
      ghost var p;
      secs, p := Fat32Layout.PutSectorHolds(lay, secs, vol, tops, c, s, sec);
      vol := PutSector(g, vol, c, s, sec);
      trace := trace + [vol];
    }

    // ----- the allocation table

    method FatSet(c: nat, value: nat)
      requires Mirrors(g, vol) && 2 <= c <= g.maxCluster && value < 0x1000_0000
      requires OnDisk()
      modifies this`vol, this`trace, this`secs
      ensures OnDisk()
      ensures Mirrors(g, vol) && vol.data == old(vol.data)
      ensures vol.fats[0] == old(vol.fats[0])[c := value]
      ensures Steps(g, old(vol), old(trace), vol, trace, {c})
      ensures forall i :: |old(trace)| <= i < |trace| ==> SameView(g, vol, trace[i])
    {
      var k := 0;
      while k < g.numFats
        invariant OnDisk()
        invariant 0 <= k <= g.numFats
        invariant Shape(g, vol) && vol.data == old(vol.data)
        invariant forall j :: 0 <= j < g.numFats ==>
                    vol.fats[j] == if j < k then old(vol.fats[0])[c := value] else old(vol.fats[0])
        invariant Steps(g, old(vol), old(trace), vol, trace, {c})
        invariant forall i :: |old(trace)| <= i < |trace| ==>
                Shape(g, trace[i]) && trace[i].fats[0] == old(vol.fats[0])[c := value] && trace[i].data == old(vol.data)
      {
        WriteFat(k, c, value);
        k := k + 1;
      }
    }

    method ZeroOut(c: nat)
      requires Mirrors(g, vol) && 2 <= c <= g.maxCluster
      requires OnDisk()
      modifies this`vol, this`trace, this`secs
      ensures OnDisk()
      ensures Mirrors(g, vol) && vol.fats == old(vol.fats)
      ensures vol.data == old(vol.data)[c := ZeroCluster(g)]
      ensures Steps(g, old(vol), old(trace), vol, trace, {c})
    {
      var s := 0;
      while s < g.spc
        invariant OnDisk()
        invariant 0 <= s <= g.spc
        invariant Shape(g, vol) && vol.fats == old(vol.fats)
        invariant vol.data == old(vol.data)[c := vol.data[c]]
        invariant forall t :: 0 <= t < s ==> vol.data[c][t] == Zeros(512)
        invariant Steps(g, old(vol), old(trace), vol, trace, {c})
      {
        WriteSector(c, s, Zeros(512));
        s := s + 1;
      }
      assert vol.data[c] == ZeroCluster(g);
    }

    method AllocCluster() returns (ok: bool, c: nat)
      requires Mirrors(g, vol)
      requires OnDisk()
      modifies this`vol, this`trace, this`secs
      ensures OnDisk()
      ensures Mirrors(g, vol)
      ensures ok ==> 2 <= c <= g.maxCluster && old(vol.fats[0][c]) == 0
      ensures ok ==> forall d :: 2 <= d < c ==> old(vol.fats[0][d]) != 0
      ensures ok ==> vol.fats[0] == old(vol.fats[0])[c := EOC] && vol.data == old(vol.data)[c := ZeroCluster(g)]
      ensures ok ==> Steps(g, old(vol), old(trace), vol, trace, {c})
      ensures !ok ==> vol == old(vol) && trace == old(trace)
      ensures !ok ==> Full(g, vol)
    {
      c := 2;
      while c <= g.maxCluster
        invariant OnDisk()
        invariant 2 <= c <= g.maxCluster + 1
        invariant vol == old(vol) && trace == old(trace)
        invariant forall d :: 2 <= d < c ==> vol.fats[0][d] != 0
      {
        if vol.fats[0][c] == 0 {
          FatSet(c, EOC);
          ghost var v1, tr1 := vol, trace;
          ZeroOut(c);
          StepsJoin(g, old(vol), old(trace), v1, tr1, vol, trace, {c}, {c});
          assert {c} + {c} == {c};
          return true, c;
        }
        c := c + 1;
      }
      return false, 0;
    }

    method FreeChain(first: nat, ghost ch: seq<nat>)
      requires Mirrors(g, vol)
      requires if first < 2 then ch == [] else IsChain(vol.fats[0], ch) && ch[0] == first
      requires OnDisk()
      modifies this`vol, this`trace, this`secs
      ensures OnDisk()
      ensures Mirrors(g, vol) && vol.data == old(vol.data)
      ensures forall c :: 2 <= c <= g.maxCluster ==>
                vol.fats[0][c] == if c in ch then 0 else old(vol.fats[0][c])
      ensures vol.fats[0][..2] == old(vol.fats[0][..2])
      ensures Steps(g, old(vol), old(trace), vol, trace, Members(ch))
    {
      hide Steps, OnDisk;
      StepsRefl(g, vol, trace, Members(ch));
      if first < 2 { return; }
      ChainBound(vol.fats[0], ch);
      var c, guard := first, 0;
      ghost var j := 0;
      while c >= 2 && guard < g.maxCluster + 8
        invariant OnDisk()
        invariant 0 <= j < |ch| && c == ch[j] && guard == j
        invariant Mirrors(g, vol) && vol.data == old(vol.data)
        invariant forall d :: 2 <= d <= g.maxCluster ==>
                    vol.fats[0][d] == if d in ch[..j] then 0 else old(vol.fats[0][d])
        invariant vol.fats[0][..2] == old(vol.fats[0][..2])
        invariant Steps(g, old(vol), old(trace), vol, trace, Members(ch))
        decreases |ch| - j
      {
        guard := guard + 1;
        ChainNext(old(vol.fats[0]), ch, j);
        assert c in ch && c !in ch[..j];
        var next := vol.fats[0][c];
        ghost var v1, tr1 := vol, trace;
        FatSet(c, 0);
        StepsJoin(g, old(vol), old(trace), v1, tr1, vol, trace, Members(ch), {c});
        assert Members(ch) + {c} == Members(ch);
        assert ch[..j + 1] == ch[..j] + [c];
        if next >= EOC_MIN || next < 2 {
          assert ch[..j + 1] == ch;
          break;
        }
        c := next;
        j := j + 1;
      }
    }

    method ChainLast(first: nat, ghost ch: seq<nat>) returns (last: nat, len: nat)
      requires Mirrors(g, vol) && IsChain(vol.fats[0], ch) && ch[0] == first
      ensures last == ch[|ch| - 1] && len == |ch|
    {
      var c := first;
      len := 1;
      var next := vol.fats[0][c];
      ChainNext(vol.fats[0], ch, 0);
      while !(next >= EOC_MIN || next < 2)
        invariant 1 <= len <= |ch| && c == ch[len - 1] && next == vol.fats[0][c]
        invariant if len < |ch| then next == ch[len] && 2 <= next < EOC_MIN else next >= EOC_MIN
        decreases |ch| - len
      {
        ChainNext(vol.fats[0], ch, len);
        c := next;
        len := len + 1;
        next := vol.fats[0][c];
      }
      last := c;
    }

    // ----- directories

    method FindInSector(sec: Sector, name: Name) returns (r: Scan<nat>)
      ensures r == ScanSector(sec, 0, name)
    {
      var i := 0;
      while i < 16
        invariant 0 <= i <= 16 && ScanSector(sec, 0, name) == ScanSector(sec, i, name)
      {
        if Tag(sec, i) == 0 { return Stop; }
        if Matches(SlotOf(sec, i), name) { return Hit(i); }
        i := i + 1;
      }
      return More;
    }

    method FindInCluster(cl: Cluster, name: Name) returns (r: Scan<(nat, nat)>)
      ensures r == ScanCluster(cl, 0, name)
    {
      hide Matches, ScanSector;
      var s := 0;
      while s < |cl|
        invariant 0 <= s <= |cl| && ScanCluster(cl, 0, name) == ScanCluster(cl, s, name)
      {
        var q := FindInSector(cl[s], name);
        match q {
          case Hit(i) => return Hit((s, i));
          case Stop => return Stop;
          case More =>
        }
        s := s + 1;
      }
      return More;
    }

    method FindName(dir: nat, name: Name, ghost ch: seq<nat>) returns (r: Option<Loc>)
      requires Mirrors(g, vol) && IsChain(vol.fats[0], ch) && ch[0] == dir
      ensures r == DirFind(g, vol, dir, name)
    {
      hide Matches, ScanCluster, IsChain, Distinct, Walk, CopiesAgree;
      ChainBound(vol.fats[0], ch);
      WalkChain(vol.fats[0], ch, g.maxCluster);
      ChainRange(g, vol, ch);
      assert ch[0..] == ch;
      var c := dir;
      ghost var j := 0;
      while c >= 2 && c < EOC_MIN
        invariant 0 <= j <= |ch| && (if j < |ch| then c == ch[j] else c >= EOC_MIN)
        invariant FindInChain(g, vol, ch, name) == FindInChain(g, vol, ch[j..], name)
        decreases |ch| - j
      {
        assert ch[j..][0] == c && ch[j..][1..] == ch[j + 1..];
        ChainNext(vol.fats[0], ch, j);
        var q := FindInCluster(vol.data[c], name);
        match q {
          case Hit(p) => return Some(Loc(c, p.0, p.1));
          case Stop => return None;
          case More =>
        }
        c := vol.fats[0][c];
        j := j + 1;
      }
      return None;
    }

    method Lookup(path: seq<Name>) returns (r: Option<Loc>)
      requires Valid() && ThroughDirs(g, vol, g.root, path)
      ensures r == Resolve(g, vol, g.root, path)
      ensures r.Some? ==> Known(g, abs, r.value, SlotAt(g, vol, r.value))
      ensures |path| >= 1 && (r.Some? && Plain(path[|path| - 1]) ==> Real(SlotAt(g, vol, r.value)))
    {
      var cur, i := g.root, 0;
      while true
        invariant 0 <= i < |path| && cur in abs.dirs
        invariant ThroughDirs(g, vol, cur, path[i..])
        invariant Resolve(g, vol, g.root, path) == Resolve(g, vol, cur, path[i..])
        decreases |path| - i
      {
        assert path[i..][0] == path[i] && path[i..][1..] == path[i + 1..];
        ghost var ch := abs.t.chain[cur];
        r := FindName(cur, path[i], ch);
        if r.None? { return; }
        FoundIsEntry(g, vol, abs, cur, path[i]);
        if i + 1 == |path| { return; }
        cur := Below(g, SlotAt(g, vol, r.value));
        i := i + 1;
      }
    }

    // ----- reading

    method ReadFile(path: seq<Name>, size: nat) returns (n: int, buf: seq<byte>)
      requires Valid() && ThroughDirs(g, vol, g.root, path)
      ensures match ReadPath(g, vol, path)
              case None => n == -1 && buf == []
              case Some(all) => buf == Take(all, size) && n == Signed(|buf|)
                                && Stores(g, vol, EntryAt(g, vol, Target(g, vol, path).value), all)
    {
      buf := [];
      hide Inv, TableOk, OwnInRange, Resolve, ThroughDirs, RealOk, Stores;
      InvShape(g, vol, abs);
      PathNotEmpty(g, vol, g.root, path);
      if ReadPath(g, vol, path).Some? { PathStores(g, vol, abs, path); }
      var r := Lookup(path);
      if r.None? || IsDir(SlotAt(g, vol, r.value)) { return -1, []; }
      var e := SlotAt(g, vol, r.value);
      var c := First(e);
      FileChain(g, vol, abs, r.value, e);
      if c < 2 && Size(e) == 0 { return 0, []; }
      ghost var ch := abs.t.chain[c];
      ContentOfChain(g, vol, e, ch);
      buf := ReadChain(c, size, Size(e), ch);
      n := Signed(|buf|);
    }

    // The cluster loop of fat32_read_op.
    method ReadChain(first: nat, size: nat, fileSize: nat, ghost ch: seq<nat>) returns (buf: seq<byte>)
      requires Mirrors(g, vol) && IsChain(vol.fats[0], ch) && ch[0] == first
      ensures buf == Take(Take(ChainBytes(g, vol, ch), fileSize), size)
    {
      hide Distinct, SectorBytes, ChainBytes;
      assert ChainBytes(g, vol, ch[..0]) == [] by { NoBytes(g, vol, ch); }
      var c := first;
      buf := [];
      ghost var j, lim := 0, if size < fileSize then size else fileSize;
      while c >= 2 && c < EOC_MIN && |buf| < size && |buf| < fileSize
        invariant 0 <= j <= |ch| && (if j < |ch| then c == ch[j] else c >= EOC_MIN)
        invariant buf == Take(ChainBytes(g, vol, ch[..j]), lim)
        decreases |ch| - j
      {
        ChainBytesNext(g, vol, ch, j);
        ChainNext(vol.fats[0], ch, j);
        buf := ReadCluster(vol.data[c], buf, size, fileSize);
        c := vol.fats[0][c];
        j := j + 1;
      }
      ChainBytesDone(g, vol, ch, j, lim);
    }

    // Its sector loop.
    static method ReadCluster(cl: Cluster, start: seq<byte>, size: nat, fileSize: nat) returns (buf: seq<byte>)
      ensures buf == if |start| < size && |start| < fileSize
                     then Take(start + SectorBytes(cl), if size < fileSize then size else fileSize)
                     else start
    {
      hide SectorBytes, Take;
      buf := start;
      var s := 0;
      ghost var lim := if size < fileSize then size else fileSize;
      ghost var bytes := SectorBytes(cl);
      ghost var done := start;
      assert start == start + bytes[..0];
      TakeShort(start, lim);
      while s < |cl|
        invariant 0 <= s <= |cl| && done == start + bytes[..512 * s]
        invariant if |start| < lim then buf == Take(done, lim) else buf == start
      {
        if |buf| >= size || |buf| >= fileSize {
          if |start| < lim { TakeRest(done, bytes[512 * s..], lim); }
          assert start + bytes == done + bytes[512 * s..];
          return;
        }
        TakeShort(done, lim);
        SectorBytesAt(cl, s);
        assert bytes[..512 * (s + 1)] == bytes[..512 * s] + cl[s];
        assert start + bytes[..512 * (s + 1)] == done + cl[s];
        TakeMore(done, cl[s], lim);
        var leftFile, leftBuf := fileSize - |buf|, size - |buf|;
        var take := if leftFile < leftBuf then leftFile else leftBuf;
        if take > 512 { take := 512; }
        buf := buf + cl[s][..take];
        done := done + cl[s];
        s := s + 1;
      }
      assert bytes[..512 * |cl|] == bytes;
    }

    // ----- writing

    method AllocLinked(prev: nat, ghost nch: seq<nat>) returns (got: bool, nc: nat)
      requires Mirrors(g, vol) && (forall i :: 0 <= i < |nch| ==> 2 <= nch[i] <= g.maxCluster)
      requires if nch == [] then prev == 0 else prev == nch[|nch| - 1]
      requires OnDisk()
      modifies this`vol, this`trace, this`secs
      ensures OnDisk()
      ensures Mirrors(g, vol)
      ensures got ==> 2 <= nc <= g.maxCluster && old(vol.fats[0][nc]) == 0
      ensures got ==> vol.fats[0] == LinksMore(old(vol.fats[0]), nch, nc)
      ensures got ==> Steps(g, old(vol), old(trace), vol, trace, Members(nch) + {nc})
      ensures !got ==> vol == old(vol) && trace == old(trace) && Full(g, vol)
    {
      got, nc := AllocCluster();
      if got && prev >= 2 {
        ghost var v1, tr1 := vol, trace;
        FatSet(prev, nc);
        StepsJoin(g, old(vol), old(trace), v1, tr1, vol, trace, {nc}, {prev});
        StepsMono(g, old(vol), old(trace), vol, trace, {nc} + {prev}, Members(nch) + {nc});
      } else if got {
        StepsMono(g, old(vol), old(trace), vol, trace, {nc}, Members(nch) + {nc});
      }
    }

    // Allocates one more cluster for the chain being built.
    method GrowChain(first: nat, prev: nat, ghost b: Build) returns (got: bool, nc: nat, ghost b2: Build)
      requires b.Ok(g, vol, trace, first) && b.PrevIs(prev)
      requires OnDisk()
      modifies this`vol, this`trace, this`secs
      ensures OnDisk()
      ensures got ==> b2.Ok(g, vol, trace, if first < 2 then nc else first) && b2.PrevIs(nc)
      ensures got ==> b2.SameStart(b) && b2.nch == b.nch + [nc]
      ensures !got ==> vol == old(vol) && trace == old(trace) && Shape(g, vol) && Full(g, vol)
    {
      b2 := b;
      got, nc := AllocLinked(prev, b.nch);
      if got {
        b.More(g, old(vol), old(trace), vol, trace, first, nc);
        b2 := b.(t2 := BuildMore(b.t2, first, b.nch, nc), nch := b.nch + [nc]);
      }
    }

    // Frees the chain built so far.
    method UndoChain(first: nat, ghost b: Build)
      requires b.Ok(g, vol, trace, first) && Mirrors(g, b.v0) && TableOk(b.v0.fats[0], b.t)
      requires OnDisk()
      modifies this`vol, this`trace, this`secs
      ensures OnDisk()
      ensures Mirrors(g, vol) && Steps(g, b.v0, b.tr0, vol, trace, Members(b.nch))
      ensures vol.fats == b.v0.fats
    {
      if first >= 2 {
        FreshChain(vol.fats[0], b.t, b.t2, first, b.nch);
        FreeChain(first, b.nch);
        StepsJoin(g, b.v0, b.tr0, old(vol), old(trace), vol, trace, Members(b.nch), Members(b.nch));
        assert Members(b.nch) + Members(b.nch) == Members(b.nch);
      }
      Unowned(b.v0.fats[0], b.t, b.nch);
      FreedAgain(g, b.v0, old(vol), vol, b.nch);
    }

    // The allocation loop of fat32_write_op.
    method BuildChain(need: nat, ghost t: Table) returns (ok: bool, first: nat, ghost b: Build)
      requires Mirrors(g, vol) && TableOk(vol.fats[0], t)
      requires OnDisk()
      modifies this`vol, this`trace, this`secs
      ensures OnDisk()
      ensures b.v0 == old(vol) && b.tr0 == old(trace) && b.t == t
      ensures ok ==> b.Ok(g, vol, trace, first) && |b.nch| == need
      ensures !ok ==> Mirrors(g, vol) && vol.fats == old(vol.fats)
      ensures !ok ==> Steps(g, old(vol), old(trace), vol, trace, Members(b.nch)) && b.Apart()
      ensures ok <==> need <= |FreeSet(g, old(vol))|
    {
      first, b := 0, Build(vol, trace, t, t, []);
      var prev, k := 0, 0;
      while k < need
        invariant OnDisk()
        invariant 0 <= k == |b.nch| <= need
        invariant b.v0 == old(vol) && b.tr0 == old(trace) && b.t == t
        invariant b.Ok(g, vol, trace, first) && b.PrevIs(prev)
      {
        var got, nc;
        ghost var b2;
        got, nc, b2 := GrowChain(first, prev, b);
        if !got {
          BuiltFromFree(g, b, vol, trace, first);
          UndoChain(first, b);
          return false, 0, b;
        }
        if first < 2 { first := nc; }
        b, prev, k := b2, nc, k + 1;
      }
      BuiltFromFree(g, b, vol, trace, first);
      ok := true;
    }

    // The sector loop of fat32_write_op: cluster c gets the bytes of buf from pos on.
    method WriteCluster(c: nat, buf: seq<byte>, pos: nat) returns (p: nat)
      requires Mirrors(g, vol) && 2 <= c <= g.maxCluster && pos <= |buf|
      requires OnDisk()
      modifies this`vol, this`trace, this`secs
      ensures OnDisk()
      ensures Mirrors(g, vol) && vol.fats == old(vol.fats)
      ensures vol.data == old(vol.data)[c := vol.data[c]]
      ensures HoldsFrom(vol.data[c], buf, pos)
      ensures p == if pos + g.ClusterBytes() <= |buf| then pos + g.ClusterBytes() else |buf|
      ensures Steps(g, old(vol), old(trace), vol, trace, {c})
      ensures forall i :: |old(trace)| <= i < |trace| ==> ClusterImage(g, old(vol), trace[i], c)
    {
      p := pos;
      var s := 0;
      while s < g.spc
        invariant OnDisk()
        invariant 0 <= s <= g.spc
        invariant p == if pos + 512 * s <= |buf| then pos + 512 * s else |buf|
        invariant Mirrors(g, vol) && vol.fats == old(vol.fats)
        invariant vol.data == old(vol.data)[c := vol.data[c]]
        invariant forall t :: 0 <= t < s ==> vol.data[c][t] == Padded(buf, pos + 512 * t, 512)
        invariant Steps(g, old(vol), old(trace), vol, trace, {c})
        invariant forall i :: |old(trace)| <= i < |trace| ==> ClusterImage(g, old(vol), trace[i], c)
      {
        var left := |buf| - p;
        var take := if left >= 512 then 512 else left;
        var sec: Sector := buf[p .. p + take] + Zeros(512 - take);
        assert sec == Padded(buf, pos + 512 * s, 512);
        WriteSector(c, s, sec);
        p := p + take;
        s := s + 1;
      }
      HoldsFromSectors(vol.data[c], buf, pos);
    }

    // The cluster loop of fat32_write_op.
    method WriteData(first: nat, buf: seq<byte>, ghost ch: seq<nat>)
      requires Mirrors(g, vol)
      requires if ch == [] then first == 0 && buf == []
               else IsChain(vol.fats[0], ch) && ch[0] == first && Fits(g, |ch|, |buf|)
      requires OnDisk()
      modifies this`vol, this`trace, this`secs
      ensures OnDisk()
      ensures Mirrors(g, vol) && vol.fats == old(vol.fats)
      ensures HoldsFile(g, vol, first, ch, buf)
      ensures Steps(g, old(vol), old(trace), vol, trace, Members(ch))
    {
      StepsRefl(g, vol, trace, Members(ch));
      hide Steps, HoldsFrom, HoldsUpTo;
      assert HoldsUpTo(g, vol, ch, 0, buf) by { HoldsNone(g, vol, ch, buf); }
      var c, pos := first, 0;
      ghost var j := 0;
      while |buf| - pos > 0 && c >= 2 && c < EOC_MIN
        invariant OnDisk()
        invariant 0 <= j <= |ch| && (j < |ch| ==> c == ch[j])
        invariant j < |ch| ==> pos == g.Span(j) < |buf|
        invariant j == |ch| ==> pos == |buf|
        invariant Mirrors(g, vol) && vol.fats == old(vol.fats)
        invariant HoldsUpTo(g, vol, ch, j, buf)
        invariant Steps(g, old(vol), old(trace), vol, trace, Members(ch))
        decreases |ch| - j
      {
        PosAt(g, |ch|, |buf|, j);
        ChainNext(vol.fats[0], ch, j);
        ghost var v1, tr1 := vol, trace;
        pos := WriteCluster(c, buf, pos);
        StepsJoin(g, old(vol), old(trace), v1, tr1, vol, trace, Members(ch), {c});
        assert Members(ch) + {c} == Members(ch);
        HoldsNext(g, v1, vol, ch, j, buf);
        j := j + 1;
        if |buf| - pos == 0 { break; }
        c := vol.fats[0][c];
      }
      if first != 0 {
        HoldsAll(g, vol, ch, buf);
      }
    }

    // Rewrites the extent of the entry at l, in one sector write.
    method WriteExtent(l: Loc, first: nat, size: nat)
      requires Mirrors(g, vol) && InVol(g, l) && first < 0x1_0000_0000 && size < 0x1_0000_0000
      requires OnDisk()
      modifies this`vol, this`trace, this`secs
      ensures OnDisk()
      ensures Mirrors(g, vol) && vol.fats == old(vol.fats) && trace == old(trace) + [vol]
      ensures var e := WithExtent(SlotAt(g, old(vol), l), first, size);
              vol.data == old(vol.data)[l.c := PutInCluster(old(vol.data[l.c]), l.s, l.i, e)]
    {
      var e := SlotAt(g, vol, l);
      WriteSector(l.c, l.s, PutSlot(vol.data[l.c][l.s], l.i, WithExtent(e, first, size)));
    }

    /** fat32_write_op.  "sw" is the position in the trace of the one sector write that switches
        the directory entry: every image before it reads as the old volume, every image from it
        on as the old volume with the new file.  The result is the size, as a signed number. */
    method WriteFile(path: seq<Name>, buf: seq<byte>) returns (n: int, ghost sw: nat)
      requires Valid() && ThroughDirs(g, vol, g.root, path)
      requires |buf| + g.ClusterBytes() <= 0x1_0000_0000
      modifies this
      ensures Shape(g, old(vol)) && |path| >= 1
      ensures Valid() && WriteOutcome(g, old(vol), old(trace), vol, trace, Target(g, old(vol), path), buf, n, sw)
      ensures NamesKept(g, old(vol), old(abs), vol, abs)
      ensures n != -1 ==> OneChanged(g, old(vol), old(abs), vol, Target(g, old(vol), path).value)
      ensures n != -1 ==> Rewrote(g, old(vol), vol, Target(g, old(vol), path).value, buf)
    {
      hide OneChanged, Rewrote;
      hide OnDisk, NamesKept, Inv, OldImage, NewImage, Only, TableOk, Fresh, ThroughDirs, Resolve, OwnInRange, RealOk;
      hide CanSwitch, Steps, Build.Ok, FreeSet, Needs, Fits;
      InvShape(g, vol, abs);
      PathNotEmpty(g, vol, g.root, path);
      sw := |trace|;
      ghost var v0, tr0, a := vol, trace, abs;
      var r := Lookup(path);
      if r.None? || IsDir(SlotAt(g, vol, r.value)) {
        SameOldImage(g, vol);
        NamesSelf(g, vol, abs);
        return -1, sw;
      }
      var l := r.value;
      var e := SlotAt(g, vol, l);
      var need := Needs(g, |buf|);
      ghost var b: Build;
      var ok, first;
      ok, first, b := BuildChain(need, abs.t);
      if !ok {
        FirstHalf(g, v0, a, tr0, vol, trace, b.nch);
        FailedWrite(g, v0, vol, a, b.nch);
        StepsParts(g, v0, tr0, vol, trace, Members(b.nch));
        return -1, |trace|;
      }
      NeedsFits(g, need, |buf|);
      SwitchStarts(g, b, a, l, First(e), buf);
      sw := Commit(l, First(e), first, buf, b);
      RewroteFile(g, v0, a, vol, abs, path, l, buf);
      SignedSize(|buf|);
      n := Signed(|buf|);
    }

    // Writes the data into the new chain.
    method Fill(first: nat, buf: seq<byte>, ghost b: Build)
      requires Inv(g, b.v0, abs) && b.t == abs.t && b.Ok(g, vol, trace, first)
      requires if b.nch == [] then buf == [] else Fits(g, |b.nch|, |buf|)
      requires OnDisk()
      modifies this`vol, this`trace, this`secs
      ensures OnDisk() && Written(g, b, vol, first, buf)
      ensures b.tr0 <= trace && forall i :: |b.tr0| <= i < |trace| ==> ReadsOld(g, b.v0, trace[i])
    {
      hide OnDisk, Inv, OldImage, TableOk, Fresh, Only, Steps, IsChain, HoldsFile;
      ghost var v0 := b.v0;
      InvShape(g, v0, abs);
      b.Chain(g, vol, trace, first);
      WriteData(first, buf, b.nch);
      StepsJoin(g, v0, b.tr0, old(vol), old(trace), vol, trace, Members(b.nch), Members(b.nch));
      assert Members(b.nch) + Members(b.nch) == Members(b.nch);
      FirstHalf(g, v0, abs, b.tr0, vol, trace, b.nch);
      StepsParts(g, v0, b.tr0, vol, trace, Members(b.nch));
    }

    // The second part of fat32_write_op: data, directory entry, old chain.
    method Commit(l: Loc, was: nat, first: nat, buf: seq<byte>, ghost b: Build) returns (ghost sw: nat)
      requires CanSwitch(g, b, abs, l, was, buf) && b.Ok(g, vol, trace, first)
      requires OnDisk()
      modifies this
      ensures Valid() && b.tr0 <= trace && |b.tr0| <= sw < |trace|
      ensures forall i :: |b.tr0| <= i < sw ==> ReadsOld(g, b.v0, trace[i])
      ensures ReadsNew(g, b.v0, vol, l, buf) && forall i :: sw <= i < |trace| ==> ReadsNew(g, b.v0, trace[i], l, buf)
      ensures NamesKept(g, b.v0, old(abs), vol, abs) && OneChanged(g, b.v0, old(abs), vol, l)
    {
      hide OnDisk, Inv, Written, ReadsOld, ReadsNew, NamesKept, OneChanged, Build.Ok, Fits, Real, IsDir, First;
      Fill(first, buf, b);
      sw := |trace|;
      ghost var tr2 := trace;
      Switch(l, was, first, buf, b);
      assert forall i :: |b.tr0| <= i < sw ==> trace[i] == tr2[i];
    }

    // Switches the directory entry and frees the old chain.
    method Switch(l: Loc, was: nat, first: nat, buf: seq<byte>, ghost b: Build)
      requires CanSwitch(g, b, abs, l, was, buf) && Written(g, b, vol, first, buf)
      requires OnDisk()
      modifies this
      ensures Valid() && old(trace) <= trace && |old(trace)| < |trace|
      ensures ReadsNew(g, b.v0, vol, l, buf)
              && forall i :: |old(trace)| <= i < |trace| ==> ReadsNew(g, b.v0, trace[i], l, buf)
      ensures NamesKept(g, b.v0, old(abs), vol, abs) && OneChanged(g, b.v0, old(abs), vol, l)
    {
      hide OnDisk, Inv, CanSwitch, Written, ReadsNew, NamesKept, OneChanged, PutInCluster, WithExtent, SlotOf, IsChain;
      hide OldChain, Steps, WrittenAbs;
      ghost var v2, a := vol, abs;
      SwitchReady(g, b, a, l, was, buf, v2, first);
      WriteExtent(l, first, |buf|);
      ghost var v3, tr3 := vol, trace;
      FreeChain(was, OldChain(a.t, was));
      StepsParts(g, v3, tr3, vol, trace, Members(OldChain(a.t, was)));
      SwitchReads(g, b, a, l, was, buf, v2, v3, tr3, vol, trace, first);
      SwitchKeeps(g, b, a, l, was, buf, v2, v3, tr3, vol, trace, first);
      abs := WrittenAbs(a, l, was, b.t2, first);
    }

    // ----- appending

    // Fills up the last cluster of a file, from byte "used" on.
    method TopUp(last: nat, used: nat, buf: seq<byte>) returns (w: nat)
      requires Mirrors(g, vol) && 2 <= last <= g.maxCluster && 0 < used < g.ClusterBytes()
      requires OnDisk()
      modifies this`vol, this`trace, this`secs
      ensures OnDisk()
      ensures Mirrors(g, vol) && vol.fats == old(vol.fats) && Filled(g, old(vol), vol, last, used, buf, w)
      ensures buf != [] ==> w > 0
      ensures old(trace) <= trace
              && forall k :: |old(trace)| <= k < |trace| ==> TopImage(g, old(vol), trace[k], last, used)
    {
      hide OnDisk;
      ghost var cl := vol.data[last];
      ghost var T := SectorBytes(cl)[..used] + buf;
      var i, off := used / 512, used % 512;
      w := if |buf| > 512 - off then 512 - off else |buf|;
      var sec: Sector := vol.data[last][i][..off] + buf[..w] + vol.data[last][i][off + w..];
      AgreesAt(cl, buf, used, i, off, w, sec);
      forall t | 0 <= t < i ensures Agrees(cl[t], T, 512 * t, used + w) { AgreesBefore(cl, buf, used, t, used + w); }
      WriteSector(last, i, sec);
      hide SectorBytes, Agrees, TopImage;
      ghost var v1 := vol;
      HeadKept(vol.data[last], SectorBytes(cl)[..used], buf, i, used + w);
      TopIs(g, old(vol), v1, last, SectorBytes(cl)[..used]);
      assert trace == old(trace) + [vol];
      w := TopUpRest(last, i, used, buf, w, SectorBytes(cl)[..used]);
      forall k | |old(trace)| <= k < |trace| ensures TopImage(g, old(vol), trace[k], last, used) {
        if k == |old(trace)| { assert trace[k] == v1; } else { TopTwice(g, old(vol), v1, trace[k], last, used); }
      }
      assert T[..used + w] == SectorBytes(cl)[..used] + buf[..w];
    }

    // One sector behind the first one that is filled up; "head" is what the cluster held.
    method TopUpSector(last: nat, i: nat, buf: seq<byte>, w: nat, ghost head: seq<byte>) returns (w2: nat)
      requires Mirrors(g, vol) && 2 <= last <= g.maxCluster && i < g.spc && w < |buf| && |head| + w == 512 * i
      requires forall t :: 0 <= t < i ==> Agrees(vol.data[last][t], head + buf, 512 * t, 512 * i)
      requires OnDisk()
      modifies this`vol, this`trace, this`secs
      ensures OnDisk()
      ensures Mirrors(g, vol) && vol.fats == old(vol.fats) && vol.data == old(vol.data)[last := vol.data[last]]
      ensures w < w2 <= |buf| && |head| + w2 <= 512 * (i + 1) && (w2 < |buf| ==> |head| + w2 == 512 * (i + 1))
      ensures forall t :: 0 <= t <= i ==> Agrees(vol.data[last][t], head + buf, 512 * t, |head| + w2)
      ensures trace == old(trace) + [vol]
    {
      hide Agrees;
      var take := if |buf| - w > 512 then 512 else |buf| - w;
      var sec: Sector := buf[w .. w + take] + Zeros(512 - take);
      assert sec == Padded(buf, w, 512);
      AgreesPadded(buf, head, w, 512 * i, take);
      w2 := w + take;
      forall t | 0 <= t < i ensures Agrees(vol.data[last][t], head + buf, 512 * t, |head| + w2) {
        AgreesFull(vol.data[last][t], head + buf, 512 * t, 512 * i, |head| + w2);
      }
      WriteSector(last, i, sec);
    }

    // The sectors behind the first one that is filled up.
    method TopUpRest(last: nat, start: nat, used: nat, buf: seq<byte>, w0: nat, ghost head: seq<byte>) returns (w: nat)
      requires Mirrors(g, vol) && 2 <= last <= g.maxCluster && start < g.spc && |head| == used
      requires w0 <= |buf| && used + w0 <= 512 * (start + 1) && (w0 < |buf| ==> used + w0 == 512 * (start + 1))
      requires used <= 512 * (start + 1)
      requires forall t :: 0 <= t <= start ==> Agrees(vol.data[last][t], head + buf, 512 * t, used + w0)
      requires OnDisk()
      modifies this`vol, this`trace, this`secs
      ensures OnDisk()
      ensures Mirrors(g, vol) && vol.fats == old(vol.fats) && vol.data == old(vol.data)[last := vol.data[last]]
      ensures w == if used + |buf| <= g.ClusterBytes() then |buf| else g.ClusterBytes() - used
      ensures SectorBytes(vol.data[last])[..used + w] == (head + buf)[..used + w]
      ensures old(trace) <= trace
              && forall k :: |old(trace)| <= k < |trace| ==> TopImage(g, old(vol), trace[k], last, used)
    {
      hide SectorBytes, Agrees, TopImage;
      ghost var v0 := vol;
      var i := start;
      w := w0;
      HeadKept(vol.data[last], head, buf, i, used + w);
      while w < |buf| && i + 1 < g.spc
        invariant OnDisk()
        invariant start <= i < g.spc && w <= |buf| && used + w <= 512 * (i + 1)
        invariant w < |buf| ==> used + w == 512 * (i + 1)
        invariant Mirrors(g, vol) && vol.fats == old(vol.fats) && vol.data == old(vol.data)[last := vol.data[last]]
        invariant forall t :: 0 <= t <= i ==> Agrees(vol.data[last][t], head + buf, 512 * t, used + w)
        invariant old(trace) <= trace
                  && forall k :: |old(trace)| <= k < |trace| ==> TopImage(g, v0, trace[k], last, used)
      {
        i := i + 1;
        w := TopUpSector(last, i, buf, w, head);
        HeadKept(vol.data[last], head, buf, i, used + w);
        TopIs(g, v0, vol, last, head);
      }
      forall t | i < t < g.spc ensures Agrees(vol.data[last][t], head + buf, 512 * t, used + w) {
        AgreesBehind(vol.data[last][t], head + buf, 512 * t, used + w);
      }
      AgreesAll(vol.data[last], head + buf, used + w);
    }

    // Allocates a cluster and links it behind "last".
    method LinkCluster(last: nat, ghost ch: seq<nat>) returns (got: bool, nc: nat)
      requires Mirrors(g, vol) && ch != [] && forall i :: 0 <= i < |ch| ==> 2 <= ch[i] <= g.maxCluster
      requires last == ch[|ch| - 1] && vol.fats[0][last] != 0
      requires OnDisk()
      modifies this`vol, this`trace, this`secs
      ensures OnDisk()
      ensures Mirrors(g, vol)
      ensures !got ==> vol == old(vol) && trace == old(trace) && Full(g, vol)
      ensures got ==> 2 <= nc <= g.maxCluster && old(vol.fats[0][nc]) == 0
      ensures got ==>
                vol.fats[0] == LinksMore(old(vol.fats[0]), ch, nc) && vol.data == old(vol.data)[nc := ZeroCluster(g)]
      ensures got ==> LinkImages(g, old(vol), old(trace), vol, trace, nc)
    {
      got, nc := AllocCluster();
      if got {
        ghost var v1, tr1 := vol, trace;
        FatSet(last, nc);
        ghost var v2, tr2 := vol, trace;
        StepsParts(g, v1, tr1, v2, tr2, {last});
        FatSet(nc, EOC);
        StepsParts(g, v2, tr2, vol, trace, {nc});
        hide Steps, Only;
        assert vol.fats[0] == v2.fats[0];
        LinkedTwice(g, old(vol), old(trace), v1, tr1, v2, tr2, vol, trace, nc);
      }
    }

    // Allocates and fills one more cluster behind "last".
    method ExtendBy(last: nat, buf: seq<byte>, w: nat, ghost z: Tail, ghost l: Loc)
      returns (got: bool, nc: nat, w2: nat, ghost z2: Tail)
      requires z.Ok(g, vol, buf, w) && w < |buf| && z.ch != [] && last == z.ch[|z.ch| - 1]
      requires OnDisk() && AppendTo(g, abs, l, z)
      modifies this`vol, this`trace, this`secs
      ensures OnDisk()
      ensures Mirrors(g, vol)
      ensures !got ==> vol == old(vol) && trace == old(trace) && Full(g, vol)
      ensures StillOld(g, z.v0, old(trace), trace)
      ensures got ==> z2.Ok(g, vol, buf, w2) && z2.SameStart(z)
      ensures got ==> z2.ch != [] && nc == z2.ch[|z2.ch| - 1] && w < w2 <= |buf|
    {
      hide Tail.Ok, Steps, HoldsFrom, LinksMore, Full, AppendTo, LinkImages, ReadsOld;
      ghost var v0 := vol;
      TailLast(g, z, vol, buf, w);
      z2, w2 := z, w;
      got, nc := LinkCluster(last, z.ch);
      if !got { return; }
      ghost var v1, tr1 := vol, trace;
      w2 := WriteCluster(nc, buf, w);
      StepsParts(g, v1, tr1, vol, trace, {nc});
      ExtendImages(g, v0, old(trace), v1, tr1, trace, z.ch, nc);
      ExtendStill(g, abs, l, z, v0, buf, w, old(trace), trace, nc);
      DataTwice(v0.data, v1.data, vol.data, nc);
      z2 := TailMore(g, z, v0, vol, buf, w, nc, w2);
    }

    // Finds the last cluster of a file of "size" bytes and fills it up.
    method FillLast(first: nat, size: nat, buf: seq<byte>, ghost t: Table, ghost ch: seq<nat>, ghost body: seq<byte>,
                    ghost l: Loc)
      returns (last: nat, w: nat, ghost z: Tail)
      requires Mirrors(g, vol) && forall i :: 0 <= i < |ch| ==> 2 <= ch[i] <= g.maxCluster
      requires body == Take(ChainBytes(g, vol, ch), size)
      requires IsChain(vol.fats[0], ch) && ch[0] == first && Fits(g, |ch|, size)
      requires TableOk(vol.fats[0], t) && first in t.chain && t.chain[first] == ch && buf != []
      requires OnDisk() && AppendTo(g, abs, l, Tail(vol, t, t, first, ch, body))
      modifies this`vol, this`trace, this`secs
      ensures OnDisk()
      ensures Mirrors(g, vol) && z.Ok(g, vol, buf, w) && w <= |buf|
      ensures z.v0 == old(vol) && z.t == t && z.f == first && z.body == body
      ensures z.ch != [] && last == z.ch[|z.ch| - 1]
      ensures w == 0 ==> vol == old(vol)
      ensures StillOld(g, old(vol), old(trace), trace) && AppendTo(g, abs, l, z)
    {
      hide Tail.Ok, TableOk, Filled, UsedIs, ChainBytes, Take, Fits, AppendTo, TopImage, ReadsOld;
      ghost var start := Tail(vol, t, t, first, ch, body);
      ChainRange(g, vol, ch);
      var len;
      last, len := ChainLast(first, ch);
      hide IsChain, Distinct;
      UsedInLast(g, |ch|, size);
      var used := size % g.ClusterBytes();
      w := 0;
      NothingFilled(g, vol, last, buf);
      if used != 0 {
        UsedBound(g, |ch|, size, used);
        TopStarts(g, start, size, used);
        w := TopUp(last, used, buf);
        TopStill(g, abs, l, start, old(trace), trace, size, used);
      }
      TailStart(g, old(vol), vol, t, first, ch, size, used, buf, w);
      z := Tail(old(vol), t, t, first, ch, body);
      TailLast(g, z, vol, buf, w);
    }

    // The cluster loop of fat32_append_op.
    method ExtendAll(last0: nat, buf: seq<byte>, w0: nat, ghost z0: Tail, ghost l: Loc) returns (w: nat, ghost z: Tail)
      requires Mirrors(g, vol) && z0.Ok(g, vol, buf, w0) && w0 <= |buf| && z0.ch != [] && last0 == z0.ch[|z0.ch| - 1]
      requires OnDisk() && AppendTo(g, abs, l, z0)
      modifies this`vol, this`trace, this`secs
      ensures OnDisk()
      ensures Mirrors(g, vol) && z.Ok(g, vol, buf, w) && z.SameStart(z0) && w0 <= w <= |buf|
      ensures w == w0 ==> vol == old(vol)
      ensures StillOld(g, z0.v0, old(trace), trace)
      ensures w < |buf| ==> Full(g, vol)
    {
      hide Tail.Ok, AppendTo, ReadsOld;
      var last := last0;
      w, z := w0, z0;
      while w < |buf|
        invariant OnDisk()
        invariant w0 <= w <= |buf| && Mirrors(g, vol)
        invariant z.Ok(g, vol, buf, w) && z.SameStart(z0)
        invariant z.ch != [] && last == z.ch[|z.ch| - 1]
        invariant w == w0 ==> vol == old(vol)
        invariant StillOld(g, z0.v0, old(trace), trace) && AppendTo(g, abs, l, z)
      {
        var got, nc, w2;
        ghost var z2;
        got, nc, w2, z2 := ExtendBy(last, buf, w, z, l);
        if !got { break; }
        AppendAlike(g, abs, l, z, z2);
        last, w, z := nc, w2, z2;
      }
    }

    // Records the new size, if anything was written.
    method FinishAppend(l: Loc, first: nat, size: nat, buf: seq<byte>, w: nat, ghost z: Tail)
      requires Inv(g, z.v0, abs) && DirLoc(g, abs, l) && Shape(g, z.v0)
      requires Real(SlotAt(g, z.v0, l)) && !IsDir(SlotAt(g, z.v0, l))
      requires z.t == abs.t && first == z.f == First(SlotAt(g, z.v0, l)) && first >= 2
      requires size == |z.body| == Size(SlotAt(g, z.v0, l)) && z.body == Content(g, z.v0, SlotAt(g, z.v0, l))
      requires buf != [] && z.Ok(g, vol, buf, w) && (w == 0 ==> vol == z.v0) && w <= |buf|
               && size + |buf| < 0x1_0000_0000
      requires OnDisk()
      modifies this
      ensures Valid() && ReadsNew(g, z.v0, vol, l, z.body + buf[..w])
      ensures vol.fats == old(vol.fats) && NamesKept(g, z.v0, old(abs), vol, abs)
      ensures OneChanged(g, z.v0, old(abs), vol, l)
      ensures trace == old(trace) + if w > 0 then [vol] else []
    {
      hide OnDisk, NamesKept, OneChanged, Inv, NewImage, Tail.Ok, TableOk, Content;
      InvShape(g, z.v0, abs);
      InvOwners(g, z.v0, abs);
      FileEntry(g, z.v0, abs, l);
      EntryKept(g, z, vol, buf, w, abs, l);
      if w > 0 {
        ghost var v1 := vol;
        WriteExtent(l, first, size + w);
        AppendDone(g, z.v0, v1, vol, abs, l, z, buf, w);
        abs := Abs(z.t2, abs.dirs, abs.ref[z.f := l]);
      } else {
        NothingAppended(g, z.v0, abs, l, z, vol, buf);
        NamesSelf(g, vol, abs);
      }
    }

    // The in-place branch of fat32_append_op, for a file that already has clusters.
    method AppendInPlace(l: Loc, e: Slot, buf: seq<byte>, ghost body: seq<byte>) returns (w: nat, ghost sw: nat)
      requires Valid() && DirLoc(g, abs, l) && e == SlotAt(g, vol, l) && Real(e) && !IsDir(e)
      requires First(e) >= 2 && buf != [] && body == Content(g, vol, e) && Size(e) + |buf| < 0x1_0000_0000
      modifies this
      ensures Valid() && w <= |buf| && ReadsNew(g, old(vol), vol, l, body + buf[..w])
      ensures w < |buf| ==> Full(g, vol)
      ensures NamesKept(g, old(vol), old(abs), vol, abs) && OneChanged(g, old(vol), old(abs), vol, l)
      ensures NewFrom(g, old(vol), old(trace), trace, l, body + buf[..w], sw)
    {
      hide OnDisk, NamesKept, OneChanged, Inv, NewImage, Tail.Ok, TableOk, ChainBytes, Walk, IsChain, Content;
      hide Fits, Take, AppendTo, StillOld, NewFrom;
      ghost var v0, a := vol, abs;
      InvShape(g, vol, abs);
      FileEntry(g, vol, abs, l);
      FileChain(g, vol, abs, l, e);
      ghost var ch := abs.t.chain[First(e)];
      ContentOfChain(g, vol, e, ch);
      BodySize(g, vol, ch, Size(e));
      AppendStarts(g, vol, abs, l, ch, body);
      var last;
      ghost var z;
      last, w, z := FillLast(First(e), Size(e), buf, abs.t, ch, body, l);
      ghost var tr1 := trace;
      w, z := ExtendAll(last, buf, w, z, l);
      StillMore(g, v0, old(trace), tr1, trace);
      ghost var tr2 := trace;
      FinishAppend(l, First(e), Size(e), buf, w, z);
      sw := |tr2|;
      NewAtLast(g, v0, old(trace), tr2, trace, vol, l, body + buf[..w]);
    }

    // Appending to such a file is writing it.
    static predicate NoClusters(e: Slot) { First(e) < 2 || Size(e) == 0 }

    // Neither the size of the file nor that of the buffer wraps around 32 bits.
    ghost predicate AppendFits(v: Vol, path: seq<Name>, buf: seq<byte>)
      requires Shape(g, v) && |path| >= 1
    {
      Target(g, v, path).Some? ==>
        var e := SlotAt(g, v, Target(g, v, path).value);
        if NoClusters(e) then |buf| + g.ClusterBytes() <= 0x1_0000_0000 else Size(e) + |buf| < 0x1_0000_0000
    }

    // What an append may do, from v and history tr to w and tr2: append the first k bytes and return
    // their number, as a signed number, with k less than the size only if no free cluster is left;
    // or fail and leave all files as they were.  Up to the write at sw, if there is one, the old
    // bytes are read, and from it on the new ones.
    ghost predicate AppendOutcome(v: Vol, tr: seq<Vol>, w: Vol, tr2: seq<Vol>, path: seq<Name>, buf: seq<byte>, n: int,
                                  k: nat, sw: nat) {
      && g.Valid() && Shape(g, v) && Shape(g, w) && |path| >= 1 && k <= |buf|
      && var t := Target(g, v, path);
         && (buf == [] ==> n == 0 && w == v)
         && (buf != [] && t.None? ==> n == -1 && w == v)
         && (n == -1 ==> ReadsOld(g, v, w) && StillOld(g, v, tr, tr2))
         && (buf == [] ==> tr2 == tr)
         && (n == -1 <==>
             buf != [] && (t.None? || (NoClusters(SlotAt(g, v, t.value)) && Needs(g, |buf|) > |FreeSet(g, v)|)))
         && (buf != [] && n != -1 ==> t.Some? && n == Signed(k) && Appended(g, v, w, t.value, buf[..k]))
         && (buf != [] && n != -1 ==>
             NewFrom(g, v, tr, tr2, t.value, Content(g, v, SlotAt(g, v, t.value)) + buf[..k], sw))
         && (n != -1 && k < |buf| ==> Full(g, w))
    }

    // On the bytes: the entry at l stood for some bytes, and stands for these with "more" behind them
    // now; no other entry has changed.
    ghost predicate AppendBytes(v: Vol, a: Abs, w: Vol, l: Loc, more: seq<byte>) {
      && OneChanged(g, v, a, w, l) && InVol(g, l)
      && exists body :: Stores(g, v, EntryAt(g, v, l), body) && Rewrote(g, v, w, l, body + more)
    }

    /** fat32_append_op. */
    method AppendFile(path: seq<Name>, buf: seq<byte>) returns (n: int, ghost k: nat, ghost sw: nat)
      requires Valid() && ThroughDirs(g, vol, g.root, path)
      requires Shape(g, vol) && |path| >= 1 && AppendFits(vol, path, buf)
      modifies this
      ensures Valid() && AppendOutcome(old(vol), old(trace), vol, trace, path, buf, n, k, sw)
      ensures NamesKept(g, old(vol), old(abs), vol, abs)
      ensures buf != [] && n != -1 ==> AppendBytes(old(vol), old(abs), vol, Target(g, old(vol), path).value, buf[..k])
    {
      hide OnDisk, Inv, TableOk, OwnInRange, OldImage, NewImage, ThroughDirs, Resolve, Content, RealOk, NamesKept;
      hide OneChanged, Rewrote, Stores;
      ghost var v0, a0 := vol, abs;
      InvShape(g, vol, abs);
      NamesSelf(g, vol, abs);
      SameOldImage(g, vol);
      k, sw := 0, |trace|;
      if buf == [] { return 0, k, sw; }
      var r := Lookup(path);
      if r.None? || IsDir(SlotAt(g, vol, r.value)) { return -1, k, sw; }
      var l := r.value;
      var e := SlotAt(g, vol, l);
      FileChain(g, vol, abs, l, e);
      if NoClusters(e) {
        NoContent(g, vol, e);
        FileStores(g, vol, abs, path, l);
        n, sw := WriteFile(path, buf);
        k := |buf|;
        assert [] + buf[..k] == buf;
        assert n != -1 ==> Rewrote(g, v0, vol, l, Content(g, v0, e) + buf[..k]);
      } else {
        var w;
        w, sw := AppendInPlace(l, e, buf, Content(g, vol, e));
        k := w;
        RewroteFile(g, v0, a0, vol, abs, path, l, Content(g, v0, e) + buf[..k]);
        SignedSize(w);
        n := Signed(w);
      }
      InvShape(g, vol, abs);
    }

    // ----- creating entries

    static method FreeInCluster(cl: Cluster) returns (found: bool, s: nat, i: nat)
      ensures found ==> s < |cl| && i < 16 && !Live(SlotOf(cl[s], i)) && FullBefore(cl, s, i)
      ensures !found ==> FullCluster(cl) && AllLive(cl)
    {
      s := 0;
      while s < |cl|
        invariant 0 <= s <= |cl|
        invariant forall t, j :: 0 <= t < s && 0 <= j < 16 ==> Tag(cl[t], j) != 0 && Live(SlotOf(cl[t], j))
      {
        i := 0;
        while i < 16
          invariant 0 <= i <= 16
          invariant forall j :: 0 <= j < i ==> Tag(cl[s], j) != 0 && Live(SlotOf(cl[s], j))
        {
          if Tag(cl[s], i) == 0 || Tag(cl[s], i) == DELETED {
            return true, s, i;
          }
          i := i + 1;
        }
        s := s + 1;
      }
      return false, 0, 0;
    }

    // The scan of fat32_dir_find_free_slot through the clusters a directory has.
    method ScanFree(dir: nat, ghost ch: seq<nat>) returns (found: bool, l: Loc, last: nat)
      requires Mirrors(g, vol) && IsChain(vol.fats[0], ch) && ch[0] == dir
      ensures found ==> InVol(g, l) && l.c in ch && !Live(SlotAt(g, vol, l)) && Takeable(g, vol, ch, l)
      ensures !found ==> last == ch[|ch| - 1]
      ensures !found ==> forall b :: 0 <= b < |ch| ==>
                2 <= ch[b] <= g.maxCluster && FullCluster(vol.data[ch[b]]) && AllLive(vol.data[ch[b]])
    {
      ChainRange(g, vol, ch);
      hide IsChain, Distinct, FullCluster, AllLive;
      var c := dir;
      ghost var j := 0;
      while true
        invariant 0 <= j < |ch| && c == ch[j]
        invariant forall b :: 0 <= b < j ==> FullCluster(vol.data[ch[b]]) && AllLive(vol.data[ch[b]])
        decreases |ch| - j
      {
        var s, i;
        found, s, i := FreeInCluster(vol.data[c]);
        if found {
          return true, Loc(c, s, i), c;
        }
        ChainNext(vol.fats[0], ch, j);
        var next := vol.fats[0][c];
        if next >= EOC_MIN || next < 2 { return false, Loc(0, 0, 0), c; }
        c, j := next, j + 1;
      }
    }

    /** fat32_dir_find_free_slot.  It fails if and only if all slots of the directory are live and
        no cluster is free; it takes a cluster if and only if all slots are live. */
    method FindFreeSlot(dir: nat) returns (ok: bool, l: Loc)
      requires Valid() && dir in abs.dirs
      modifies this
      ensures Valid()
      ensures ok ==> FreeSlot(g, old(vol), old(abs), vol, abs, dir, l)
      ensures !ok ==> vol == old(vol) && abs == old(abs)
      ensures Still(g, old(vol), old(trace), vol, trace)
      ensures !ok <==> NoSlotLeft(g, old(vol), old(abs), dir)
      ensures ok ==> |FreeSet(g, old(vol))| == |FreeSet(g, vol)| + SlotCost(g, old(vol), old(abs), dir)
    {
      hide Inv, TableOk, Takeable, AllLive, FullCluster, FreeSet;
      InvRange(g, vol, abs);
      ghost var v0, a := vol, abs;
      InvShape(g, vol, abs);
      StillHere(g, vol, trace);
      DirChainOf(g, vol, abs, dir);
      ghost var ch := abs.t.chain[dir];
      var found, last;
      found, l, last := ScanFree(dir, ch);
      if found {
        FreeSlotHere(g, vol, abs, dir, l);
        SlotLeft(g, vol, abs, dir, l);
        return true, l;
      }
      AllSlotsLive(g, vol, abs, dir, ch);
      var got, nc := LinkCluster(last, ch);
      if !got { return false, l; }
      StretchCount(g, v0, vol, ch, nc);
      StretchFree(g, v0, vol, a, dir, nc, ch);
      StretchReads(g, v0, vol, a, dir, nc, ch);
      StretchStill(g, v0, old(trace), vol, trace, a, dir, nc, ch);
      hide FreeSlot;
      ok, l := true, Loc(nc, 0, 0);
      abs := Stretched(a, dir, nc);
    }

    /** fat32_resolve_parent. */
    method Parent(path: seq<Name>) returns (r: Option<nat>)
      requires Valid() && |path| >= 1
      requires |path| > 1 ==> ThroughDirs(g, vol, g.root, path[..|path| - 1])
      ensures r == ParentDir(g, vol, path)
      ensures r.Some? ==> r.value in abs.dirs
    {
      InvRange(g, vol, abs);
      hide Inv, Resolve, ThroughDirs;
      if |path| == 1 { return Some(g.root); }
      var q := Lookup(path[..|path| - 1]);
      if q.None? || !IsDir(SlotAt(g, vol, q.value)) { return None; }
      return Some(Below(g, SlotAt(g, vol, q.value)));
    }

    // fat32_write_dirent_at: one sector write.
    method WriteEntry(l: Loc, e: Slot)
      requires Mirrors(g, vol) && InVol(g, l)
      requires OnDisk()
      modifies this`vol, this`trace, this`secs
      ensures OnDisk()
      ensures Mirrors(g, vol) && vol.fats == old(vol.fats) && trace == old(trace) + [vol]
      ensures vol.data == old(vol.data)[l.c := PutInCluster(old(vol.data[l.c]), l.s, l.i, e)]
    {
      WriteSector(l.c, l.s, PutSlot(vol.data[l.c][l.s], l.i, e));
    }

    // Puts a new entry into the free slot l of the directory d.
    method Enter(d: nat, name: Name, l: Loc, short: seq<byte>, ghost v0: Vol, ghost a0: Abs)
      requires FreeSlot(g, v0, a0, vol, abs, d, l) && Accepts(name) && short == Encode(name) && |short| == 11
      requires OnDisk()
      modifies this
      ensures Valid() && Made(g, v0, a0, vol, abs, d, name, l, 0) && trace == old(trace) + [vol] && Shape(g, vol)
    {
      hide FreeSlot, Made, Inv, Encode, MakeSlot, WithExtent, PutInCluster, Accepts, Grown;
      hide EntriesBut, FilesKept, Takeable, OwnInRange, TableOk, First, Size;
      FreeSlotParts(g, v0, a0, vol, abs, d, l);
      InvShape(g, vol, abs);
      var none := 0;
      var e := MakeSlot(short, ATTR_ARCHIVE, none, none);
      MadeFresh(short, ATTR_ARCHIVE, none);
      ghost var v1, a1 := vol, abs;
      WriteEntry(l, e);
      EntryMade(g, v0, a0, v1, a1, vol, d, name, l, e, 0);
      abs := Grown(a1, l, 0);
    }

    // A path at which no file can be made, and none is: no parent directory, no short name, or
    // neither an entry with the name nor room for one.
    ghost predicate NoEntryFor(v: Vol, a: Abs, path: seq<Name>)
      requires Shape(g, v) && OwnInRange(g, a.t) && |path| >= 1
    {
      var p := ParentDir(g, v, path);
      || p.None? || !Accepts(path[|path| - 1])
      || (DirFind(g, v, p.value, path[|path| - 1]).None? && NoSlotLeft(g, v, a, p.value))
    }

    /** fat32_create_file_op.  "made" says that an entry was created, at l. */
    method CreateFile(path: seq<Name>) returns (r: int, ghost made: bool, ghost l: Loc)
      requires Valid() && |path| >= 1
      requires |path| > 1 ==> ThroughDirs(g, vol, g.root, path[..|path| - 1])
      modifies this
      ensures Valid() && (r == 0 || r == -1)
      ensures !made ==> vol == old(vol) && abs == old(abs)
      ensures Atomic(g, old(vol), old(trace), vol, trace)
      ensures r == -1 <==> NoEntryFor(old(vol), old(abs), path)
      ensures r == 0 && !made ==> DirFind(g, old(vol), ParentDir(g, old(vol), path).value, path[|path| - 1]).Some?
      ensures made ==> r == 0 && DirFind(g, old(vol), ParentDir(g, old(vol), path).value, path[|path| - 1]).None?
      ensures made ==> Made(g, old(vol), old(abs), vol, abs, ParentDir(g, old(vol), path).value, path[|path| - 1], l, 0)
    {
      InvShape(g, vol, abs);
      hide Inv, TableOk, OwnInRange, ThroughDirs, Resolve, Made, FreeSlot, Accepts, Encode, DirFind, NoSlotLeft;
      hide StillOld, Atomic, ReadsOld;
      StillHere(g, vol, trace);
      AtomicOld(g, vol, trace, vol, trace);
      made, l := false, Loc(0, 0, 0);
      var p := Parent(path);
      if p.None? { return -1, made, l; }
      var name := path[|path| - 1];
      var short := MakeShortName(name);
      if short.None? { return -1, made, l; }
      DirChainOf(g, vol, abs, p.value);
      var f := FindName(p.value, name, abs.t.chain[p.value]);
      if f.Some? { return 0, made, l; }
      var ok, k := FindFreeSlot(p.value);
      ghost var v1, tr1 := vol, trace;
      AtomicOld(g, old(vol), old(trace), v1, tr1);
      if !ok { return -1, made, l; }
      Enter(p.value, name, k, short.value, old(vol), old(abs));
      AtomicLast(g, old(vol), old(trace), tr1, vol);
      return 0, true, k;
    }

    // A directory with its "." and ".." entries, in a cluster of its own.
    method NewDir(d: nat) returns (ok: bool, nd: nat)
      requires Mirrors(g, vol) && 2 <= d <= g.maxCluster
      requires OnDisk()
      modifies this`vol, this`trace, this`secs
      ensures OnDisk()
      ensures Mirrors(g, vol) && (!ok ==> vol == old(vol) && trace == old(trace) && Full(g, vol))
      ensures ok ==> old(trace) <= trace && forall i :: |old(trace)| <= i < |trace| ==>
                Only(g, old(vol), trace[i], {nd})
      ensures ok ==> 2 <= nd <= g.maxCluster && old(vol.fats[0][nd]) == 0 && vol.fats[0] == old(vol.fats[0])[nd := EOC]
      ensures ok ==>
                vol.data == old(vol.data)[nd := vol.data[nd]] && HasDots(g, vol, nd, d) && DotsOnly(vol.data[nd], nd, d)
    {
      hide MakeSlot, WithExtent, First, Size, DotsOnly, DotSector, Steps;
      ok, nd := AllocCluster();
      if !ok { return; }
      ghost var v1, tr1 := vol, trace;
      AllocImages(g, old(vol), old(trace), v1, tr1, nd);
      var none := 0;
      var x := MakeSlot(DOT_NAME, ATTR_DIR, nd, none);
      var y := MakeSlot(DOTDOT_NAME, ATTR_DIR, d, none);
      MadeFresh(DOT_NAME, ATTR_DIR, nd);
      MadeFresh(DOTDOT_NAME, ATTR_DIR, d);
      var blank: Sector := Zeros(512);
      WriteSector(nd, 0, DotSector(blank, x, y));
      assert vol.data[nd] == DotCluster(g, x, y);
      OnlyPut(g, old(vol), v1, vol, nd);
      DotClusterHas(g, x, y, nd, d, vol);
    }

    // Puts a new directory into the free slot l of the directory d.
    method EnterDir(d: nat, name: Name, l: Loc, short: seq<byte>, ghost v0: Vol, ghost a0: Abs)
      returns (ok: bool, ghost nd: nat)
      requires FreeSlot(g, v0, a0, vol, abs, d, l) && Accepts(name) && short == Encode(name) && |short| == 11
      requires OnDisk()
      modifies this
      ensures Valid()
      ensures ok ==> Made(g, v0, a0, vol, abs, d, name, l, nd) && HasDots(g, vol, nd, d)
      ensures !ok ==> Quiet(g, v0, a0, vol, abs) && Shape(g, vol)
      ensures !ok <==> Full(g, old(vol))
      ensures !ok ==> trace == old(trace)
      ensures ok ==> Shape(g, vol) && |trace| > 0 && trace[|trace| - 1] == vol
      ensures ok ==> StillOld(g, old(vol), old(trace), trace[..|trace| - 1])
    {
      hide FreeSlot, Made, Inv, Encode, MakeSlot, WithExtent, PutInCluster, Accepts, Grown, HasDots, DotsOnly;
      hide Quiet, EntriesBut, FilesKept, Takeable, OwnInRange, TableOk, First, Size;
      FreeSlotParts(g, v0, a0, vol, abs, d, l);
      FreeSlotQuiet(g, v0, a0, vol, abs, d, l);
      InvShape(g, vol, abs);
      ghost var v1, a1 := vol, abs;
      DirRange(g, vol, abs, d);
      var c;
      ok, c := NewDir(d);
      nd := c;
      if !ok { return; }
      SlotNotFree(g, v1, a1, l, c);
      var none := 0;
      var e := MakeSlot(short, ATTR_DIR, c, none);
      MadeFresh(short, ATTR_DIR, c);
      ghost var v2, tr2 := vol, trace;
      FreeIsApart(g, v1, a1, c);
      ApartStill(g, v1, a1, old(trace), tr2, {c});
      WriteEntry(l, e);
      assert trace[..|trace| - 1] == tr2;
      HasDotsSame(g, v2, vol, c, d);
      EntryMade(g, v0, a0, v1, a1, vol, d, name, l, e, c);
      abs := Grown(a1, l, c);
    }

    // A path at which nothing can be made: no parent directory, no short name, or it exists.
    ghost predicate NoRoomFor(v: Vol, path: seq<Name>)
      requires Shape(g, v) && |path| >= 1
    {
      var p := ParentDir(g, v, path);
      p.None? || !Accepts(path[|path| - 1]) || DirFind(g, v, p.value, path[|path| - 1]).Some?
    }

    // The second part of fat32_mkdir_op: a slot, and the directory.
    method MakeIn(d: nat, name: Name, short: seq<byte>) returns (ok: bool, l: Loc, ghost nd: nat)
      requires Valid() && d in abs.dirs && Accepts(name) && short == Encode(name) && |short| == 11
      requires Shape(g, vol) && OwnInRange(g, abs.t)
      modifies this
      ensures Valid() && Atomic(g, old(vol), old(trace), vol, trace)
      ensures ok ==> Made(g, old(vol), old(abs), vol, abs, d, name, l, nd) && HasDots(g, vol, nd, d)
      ensures !ok ==> Quiet(g, old(vol), old(abs), vol, abs)
      ensures !ok <==> |FreeSet(g, old(vol))| <= SlotCost(g, old(vol), old(abs), d)
    {
      hide Inv, OnDisk, OwnInRange, Made, FreeSlot, Accepts, Encode, Quiet, HasDots, FreeSet, DirFull, Full, StillOld,
           Atomic, ReadsOld, Shape;
      QuietSelf(g, vol, abs);
      FullCount(g, vol);
      nd := 0;
      ok, l := FindFreeSlot(d);
      ghost var v1, tr1 := vol, trace;
      if !ok {
        AtomicOld(g, old(vol), old(trace), vol, trace);
        return;
      }
      InvRange(g, vol, abs);
      FullCount(g, vol);
      ok, nd := EnterDir(d, name, l, short, old(vol), old(abs));
      if ok {
        StillJoin(g, old(vol), old(trace), v1, tr1, trace[..|trace| - 1]);
        AtomicLast(g, old(vol), old(trace), trace[..|trace| - 1], vol);
        assert trace[..|trace| - 1] + [vol] == trace;
      } else {
        AtomicOld(g, old(vol), old(trace), vol, trace);
      }
    }

    /** fat32_mkdir_op.  "l" is the new entry and "nd" the cluster of the new directory. */
    method MakeDir(path: seq<Name>) returns (r: int, ghost l: Loc, ghost nd: nat)
      requires Valid() && |path| >= 1
      requires |path| > 1 ==> ThroughDirs(g, vol, g.root, path[..|path| - 1])
      modifies this
      ensures Valid() && (r == 0 || r == -1)
      ensures r == -1 ==> Quiet(g, old(vol), old(abs), vol, abs)
      ensures Atomic(g, old(vol), old(trace), vol, trace)
      ensures r == -1 <==>
                NoRoomFor(old(vol), path)
                || |FreeSet(g, old(vol))| <= SlotCost(g, old(vol), old(abs), ParentDir(g, old(vol), path).value)
      ensures r == 0 ==> ParentDir(g, old(vol), path).Some? && Accepts(path[|path| - 1])
      ensures r == 0 ==> DirFind(g, old(vol), ParentDir(g, old(vol), path).value, path[|path| - 1]).None?
      ensures r == 0 ==>
                Made(g, old(vol), old(abs), vol, abs, ParentDir(g, old(vol), path).value, path[|path| - 1], l, nd)
      ensures r == 0 ==> HasDots(g, vol, nd, ParentDir(g, old(vol), path).value)
    {
      InvShape(g, vol, abs);
      QuietSelf(g, vol, abs);
      hide Inv, TableOk, OwnInRange, ThroughDirs, Resolve, Made, FreeSlot, Accepts, Encode, DirFind, Quiet, HasDots,
           FreeSet, DirFull, Full;
      hide Still, Atomic;
      StillHere(g, vol, trace);
      AtomicOld(g, vol, trace, vol, trace);
      l, nd := Loc(0, 0, 0), 0;
      var p := Parent(path);
      if p.None? { return -1, l, nd; }
      var name := path[|path| - 1];
      var short := MakeShortName(name);
      if short.None? { return -1, l, nd; }
      DirChainOf(g, vol, abs, p.value);
      var f := FindName(p.value, name, abs.t.chain[p.value]);
      if f.Some? { return -1, l, nd; }
      var ok, k;
      ok, k, nd := MakeIn(p.value, name, short.value);
      return if ok then 0 else -1, k, nd;
    }

    // ----- removing entries

    static method EmptySector(sec: Sector) returns (r: Scan<nat>)
      requires TidySector(sec)
      ensures r.Hit? ==> r.pos < 16 && Counts(SlotOf(sec, r.pos))
      ensures !r.Hit? ==> SectorEmpty(sec)
      ensures r.Stop? ==> Tag(sec, 15) == 0
    {
      var i := 0;
      while i < 16
        invariant 0 <= i <= 16 && forall k :: 0 <= k < i ==> !Counts(SlotOf(sec, k))
      {
        var e := SlotOf(sec, i);
        if e[0] == 0 {
          StopIsEmpty(sec, i);
          return Stop;
        }
        if e[0] != DELETED && !IsVolume(e) && !IsDot(e) { return Hit(i); }
        i := i + 1;
      }
      return More;
    }

    static method EmptyCluster(cl: Cluster) returns (r: Scan<()>)
      requires TidyCluster(cl) && |cl| > 0
      ensures r.Hit? <==> !NoneCount(cl)
      ensures r.Stop? ==> Tag(cl[|cl| - 1], 15) == 0
    {
      hide Counts, TidySector;
      var s := 0;
      while s < |cl|
        invariant 0 <= s <= |cl| && forall t :: 0 <= t < s ==> SectorEmpty(cl[t])
      {
        var q := EmptySector(cl[s]);
        match q {
          case Hit(i) => return Hit(());
          case Stop =>
            RestEmpty(cl, s);
            return Stop;
          case More =>
        }
        s := s + 1;
      }
      return More;
    }

    /** fat32_dir_is_empty. */
    method IsEmpty(dir: nat, ghost ch: seq<nat>) returns (r: bool)
      requires Mirrors(g, vol) && IsChain(vol.fats[0], ch) && ch[0] == dir && DirOk(g, vol, ch)
      ensures r <==> ChainEmpty(g, vol, ch)
    {
      assert |ch| > 0;
      hide IsChain, Distinct, NoneCount, TidyCluster;
      var c := dir;
      ghost var j := 0;
      while c >= 2 && c < EOC_MIN
        invariant 0 <= j <= |ch| && (if j < |ch| then c == ch[j] else c >= EOC_MIN)
        invariant forall b :: 0 <= b < j ==> NoneCount(vol.data[ch[b]])
        decreases |ch| - j
      {
        ChainNext(vol.fats[0], ch, j);
        var q := EmptyCluster(vol.data[c]);
        match q {
          case Hit(_) => return false;
          case Stop =>
            RestOfChainEmpty(g, vol, ch, j);
            return true;
          case More =>
        }
        c := vol.fats[0][c];
        j := j + 1;
      }
      return true;
    }

    // fat32_mark_deleted_at.
    method MarkDeleted(l: Loc)
      requires Mirrors(g, vol) && InVol(g, l)
      requires OnDisk()
      modifies this`vol, this`trace, this`secs
      ensures OnDisk()
      ensures Mirrors(g, vol) && vol.fats == old(vol.fats)
      ensures trace == old(trace) + [vol]
      ensures var e := Erased(SlotAt(g, old(vol), l));
              vol.data == old(vol.data)[l.c := PutInCluster(old(vol.data[l.c]), l.s, l.i, e)]
    {
      hide Erased, PutSlot;
      var sec: Sector := vol.data[l.c][l.s];
      ErasedInPlace(sec, l.i, sec[32 * l.i := DELETED]);
      WriteSector(l.c, l.s, sec[32 * l.i := DELETED]);
    }

    // Marks the entry at l deleted and frees the chain "was", if there is one.
    method Erase(l: Loc, was: nat)
      requires Valid() && InVol(g, l) && if was < 2 then was !in abs.t.chain else was in abs.t.chain
      modifies this`vol, this`trace, this`secs
      ensures OnDisk() && Erases(g, old(vol), vol, abs.t, l, was) && Marked(g, old(vol), vol, l)
      ensures ErasedImages(g, old(trace), vol, trace, OldChain(abs.t, was))
    {
      hide Inv, OnDisk, First, Erased, PutInCluster, Freed, SlotOf, IsChain, Steps, TableOk;
      ghost var v0 := vol;
      InvShape(g, vol, abs);
      ghost var ch := OldChain(abs.t, was);
      MarkDeleted(l);
      ghost var v1, tr1 := vol, trace;
      StepsRefl(g, v1, tr1, Members(ch));
      if was >= 2 {
        ChainOf(g, v0, abs, was);
        FreeChain(was, ch);
      }
      FreedIs(g, v1, vol, abs.t, was);
      ErasedMarks(g, v0, vol, l);
      EraseImages(g, old(trace), v1, tr1, vol, trace, ch);
    }

    /** fat32_unlink_op. */
    method Unlink(path: seq<Name>) returns (r: int)
      requires Valid() && ThroughDirs(g, vol, g.root, path)
      modifies this
      ensures Valid() && r == if Target(g, old(vol), path).Some? then 0 else -1
      ensures r == -1 ==> vol == old(vol) && abs == old(abs)
      ensures Atomic(g, old(vol), old(trace), vol, trace)
      ensures r == 0 ==> RemovedAt(g, old(vol), old(abs), vol, abs, Target(g, old(vol), path).value)
      ensures r == 0 ==> Marked(g, old(vol), vol, Target(g, old(vol), path).value)
    {
      hide Inv, OnDisk, ThroughDirs, Resolve, RealOk, First, Removed, EmptyDir, Erases, Pruned, OwnInRange, SlotOf,
           IsDir, Real, TableOk;
      InvShape(g, vol, abs);
      InvRange(g, vol, abs);
      hide Atomic, ReadsOld, ErasedImages;
      StillHere(g, vol, trace);
      AtomicOld(g, vol, trace, vol, trace);
      var q := Lookup(path);
      if q.None? || IsDir(SlotAt(g, vol, q.value)) { return -1; }
      ghost var v0, a := vol, abs;
      var l := q.value;
      var was := First(SlotAt(g, vol, l));
      FileEntry(g, vol, abs, l);
      FileIsEmpty(g, vol, abs, was);
      Erase(l, was);
      Removes(g, v0, vol, a, l, was);
      RemovalSwitches(g, v0, a, old(trace), vol, trace, l, was);
      abs := Pruned(a, was);
      return 0;
    }

    // The path leads to a directory by a "." or ".." entry.
    ghost predicate DotTarget(v: Vol, path: seq<Name>)
      requires Shape(g, v) && |path| >= 1
    {
      var t := DirTarget(g, v, path);
      t.Some? && IsDot(SlotAt(g, v, t.value))
    }

    /** fat32_rmdir_op.  It succeeds if and only if the path leads to an empty directory.  If it does
        so by the directory's own "." entry, the result is no longer a sound volume. */
    method RemoveDir(path: seq<Name>) returns (r: int)
      requires Valid() && ThroughDirs(g, vol, g.root, path)
      modifies this
      ensures OnDisk() && Shape(g, old(vol)) && |path| >= 1 && (r == 0 || r == -1)
      ensures r == -1 ==> vol == old(vol) && abs == old(abs)
      ensures r == 0 <==>
                DirTarget(g, old(vol), path).Some? && EmptyAt(g, old(vol), old(abs), DirTarget(g, old(vol), path).value)
      ensures !(r == 0 && DotTarget(old(vol), path)) ==> Atomic(g, old(vol), old(trace), vol, trace)
      ensures r == 0 && !DotTarget(old(vol), path) ==>
                Valid() && RemovedAt(g, old(vol), old(abs), vol, abs, DirTarget(g, old(vol), path).value)
      ensures r == 0 && DotTarget(old(vol), path) ==> forall b :: !Inv(g, vol, b)
      ensures r == 0 ==> Marked(g, old(vol), vol, DirTarget(g, old(vol), path).value)
      ensures Plain(path[|path| - 1]) ==> Valid()
    {
      hide Inv, OnDisk, ThroughDirs, Resolve, RealOk, First, Removed, EmptyDir, IsChain, DirOk, ChainEmpty, Erases;
      InvShape(g, vol, abs);
      InvRange(g, vol, abs);
      hide Atomic, ReadsOld, ErasedImages;
      StillHere(g, vol, trace);
      AtomicOld(g, vol, trace, vol, trace);
      var q := Lookup(path);
      if q.None? || !IsDir(SlotAt(g, vol, q.value)) { return -1; }
      var l := q.value;
      ghost var v0, a := vol, abs;
      var dir := First(SlotAt(g, vol, l));
      var target := if dir != 0 then dir else g.root;
      DirIsHere(g, vol, abs, target);
      ghost var ch := abs.t.chain[target];
      ChainEmptyMeans(g, vol, abs, target, ch);
      var empty := IsEmpty(target, ch);
      if !empty { return -1; }
      EmptyTarget(g, vol, abs, l);
      Erase(l, dir);
      if IsDot(SlotAt(g, v0, l)) {
        forall b ensures !Inv(g, vol, b) { DotRemoval(g, v0, a, vol, l, path, b); }
      } else {
        Removes(g, v0, vol, a, l, dir);
        RemovalSwitches(g, v0, a, old(trace), vol, trace, l, dir);
        abs := Pruned(a, dir);
      }
      return 0;
    }
  }
}
