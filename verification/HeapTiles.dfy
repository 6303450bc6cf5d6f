/**
 The kernel heap as a tiling: the heap area is cut into blocks, each a 20-byte header and a
 payload, and every operation recuts it.
 */
module HeapTiles {
  import opened Bytes

  const HEADER: nat := 20
  const MIN_BLOCK: nat := 16

  datatype Block = Block(addr: nat, size: nat, free: bool) {
    // block_total_size, and the address behind the block.
    function Total(): nat { HEADER + size }
    function End(): nat { addr + Total() }
  }

  type Tile = seq<Block>

  ghost predicate Joined(t: Tile) {
    forall i, j :: 0 <= i && j == i + 1 && j < |t| ==> t[j].addr == t[i].End()
  }

  // The blocks of t cut up the area from lo to hi.
  ghost predicate Tiles(t: Tile, lo: nat, hi: nat) {
    t != [] && t[0].addr == lo && t[|t| - 1].End() == hi && Joined(t)
  }

  lemma {:induction false} Ascends(t: Tile, i: nat, j: nat)
    requires Joined(t) && i < j < |t|
    ensures t[i].End() <= t[j].addr
    decreases j
  {
    if i + 1 < j { Ascends(t, i, j - 1); }
    assert t[j].addr == t[j - 1].End();
  }

  /** Blocks do not overlap: in particular no two live payloads do. */
  lemma BlocksDisjoint(t: Tile, lo: nat, hi: nat, i: nat, j: nat, p: nat)
    requires Tiles(t, lo, hi) && i < |t| && j < |t| && t[i].addr <= p < t[i].End()
    ensures lo <= p < hi
    ensures t[j].addr <= p < t[j].End() ==> i == j
  {
    if i < j { Ascends(t, i, j); }
    if j < i { Ascends(t, j, i); }
    if i > 0 { Ascends(t, 0, i); }
    if i < |t| - 1 { Ascends(t, i, |t| - 1); }
  }

  // ----- the free blocks, in order of address

  function Own(b: Block): seq<nat> { if b.free then [b.addr] else [] }

  function FreeAddrs(t: Tile): seq<nat> {
    if t == [] then [] else Own(t[0]) + FreeAddrs(t[1..])
  }

  lemma Assoc(x: seq<nat>, y: seq<nat>, z: seq<nat>)
    ensures x + (y + z) == x + y + z
  {
  }

  lemma {:induction false} FreeAddrsJoin(s: Tile, t: Tile)
    ensures FreeAddrs(s + t) == FreeAddrs(s) + FreeAddrs(t)
  {
    hide Own;
    if s == [] {
      assert s + t == t;
    } else {
      FreeAddrsJoin(s[1..], t);
      assert (s + t)[1..] == s[1..] + t;
      Assoc(Own(s[0]), FreeAddrs(s[1..]), FreeAddrs(t));
    }
  }

  // The free blocks before block i, block i itself, and those behind it.
  lemma FreeAddrsFrom(t: Tile, i: nat)
    requires i < |t|
    ensures FreeAddrs(t[i..]) == Own(t[i]) + FreeAddrs(t[i + 1..])
  {
    assert t[i..][0] == t[i] && t[i..][1..] == t[i + 1..];
  }

  lemma FreeAddrsAt(t: Tile, i: nat)
    requires i < |t|
    ensures FreeAddrs(t) == FreeAddrs(t[..i]) + Own(t[i]) + FreeAddrs(t[i + 1..])
  {
    hide Own, FreeAddrs;
    assert t == t[..i] + t[i..];
    FreeAddrsJoin(t[..i], t[i..]);
    FreeAddrsFrom(t, i);
    Assoc(FreeAddrs(t[..i]), Own(t[i]), FreeAddrs(t[i + 1..]));
  }

  lemma {:induction false} FreeAddrsAre(t: Tile, p: nat)
    ensures p in FreeAddrs(t) <==> exists i :: 0 <= i < |t| && t[i].free && t[i].addr == p
  {
    if t != [] {
      FreeAddrsAre(t[1..], p);
      if p in FreeAddrs(t[1..]) {
        var i :| 0 <= i < |t[1..]| && t[1..][i].free && t[1..][i].addr == p;
        assert t[i + 1].free && t[i + 1].addr == p;
      }
      if i :| 0 <= i < |t| && t[i].free && t[i].addr == p {
        if i > 0 { assert t[1..][i - 1] == t[i]; }
      }
    }
  }

  ghost predicate Ascending(fs: seq<nat>) { forall i, j :: 0 <= i < j < |fs| ==> fs[i] < fs[j] }

  lemma JoinedTail(t: Tile)
    requires Joined(t) && t != []
    ensures Joined(t[1..])
  {
    var u := t[1..];
    forall i, j | 0 <= i && j == i + 1 && j < |u| ensures u[j].addr == u[i].End() {
      assert u[j] == t[j + 1] && u[i] == t[i + 1];
    }
  }

  ghost predicate Below(fs: seq<nat>, x: nat) { forall k :: 0 <= k < |fs| ==> fs[k] < x }

  ghost predicate Above(fs: seq<nat>, x: nat) { forall k :: 0 <= k < |fs| ==> fs[k] > x }

  lemma {:induction false} FreeAddrsAscend(t: Tile)
    requires Joined(t)
    ensures Ascending(FreeAddrs(t))
  {
    if t != [] {
      JoinedTail(t);
      FreeAddrsAscend(t[1..]);
      FreeAround(t, 0);
    }
  }

  // Free blocks before block i are below it, those behind it above it.
  lemma FreeAround(t: Tile, i: nat)
    requires Joined(t) && i < |t|
    ensures Below(FreeAddrs(t[..i]), t[i].addr) && Above(FreeAddrs(t[i + 1..]), t[i].addr)
  {
    var x, y := t[..i], t[i + 1..];
    forall m | 0 <= m < |FreeAddrs(x)| ensures FreeAddrs(x)[m] < t[i].addr {
      var p := FreeAddrs(x)[m];
      FreeAddrsAre(x, p);
      var k :| 0 <= k < |x| && x[k].free && x[k].addr == p;
      Ascends(t, k, i);
    }
    forall m | 0 <= m < |FreeAddrs(y)| ensures FreeAddrs(y)[m] > t[i].addr {
      var p := FreeAddrs(y)[m];
      FreeAddrsAre(y, p);
      var k :| 0 <= k < |y| && y[k].free && y[k].addr == p;
      Ascends(t, i, i + 1 + k);
    }
  }

  // ----- accounting

  function Used(t: Tile): nat {
    if t == [] then 0 else (if t[0].free then 0 else t[0].Total()) + Used(t[1..])
  }

  function Unused(t: Tile): nat {
    if t == [] then 0 else (if t[0].free then t[0].Total() else 0) + Unused(t[1..])
  }

  lemma {:induction false} UsedJoin(s: Tile, t: Tile)
    ensures Used(s + t) == Used(s) + Used(t)
  {
    if s == [] {
      assert s + t == t;
    } else {
      UsedJoin(s[1..], t);
      assert (s + t)[1..] == s[1..] + t;
    }
  }

  lemma UsedAt(t: Tile, i: nat)
    requires i < |t|
    ensures Used(t) == Used(t[..i]) + (if t[i].free then 0 else t[i].Total()) + Used(t[i + 1..])
  {
    assert t == t[..i] + t[i..];
    UsedJoin(t[..i], t[i..]);
    assert t[i..][1..] == t[i + 1..];
  }

  /** What is used and what is free add up to the whole area. */
  lemma {:induction false} Accounts(t: Tile, lo: nat, hi: nat)
    requires Tiles(t, lo, hi)
    ensures Used(t) + Unused(t) == hi - lo && lo <= hi
  {
    if |t| == 1 {
      assert t[1..] == [];
    } else {
      JoinedTail(t);
      assert t[1].addr == t[0].End();
      Accounts(t[1..], t[0].End(), hi);
    }
  }

  // ----- recutting

  // Blocks i and i + 1 become one free block.
  function Join(t: Tile, i: nat): Tile
    requires i + 1 < |t|
  {
    t[..i] + [Block(t[i].addr, t[i].size + t[i + 1].Total(), true)] + t[i + 2..]
  }

  function SetFree(t: Tile, i: nat, free: bool): Tile
    requires i < |t|
  {
    t[i := t[i].(free := free)]
  }

  // Whether split_block cuts a block of this size.
  predicate Splits(size: nat, n: nat) { size >= n + HEADER + MIN_BLOCK }

  // Block i is cut: n bytes stay, and the rest becomes a free block.
  function Split(t: Tile, i: nat, n: nat): Tile
    requires i < |t| && Splits(t[i].size, n)
  {
    t[..i] + [Block(t[i].addr, n, t[i].free), Block(t[i].addr + HEADER + n, t[i].size - n - HEADER, true)] + t[i + 1..]
  }

  lemma JoinTiles(t: Tile, lo: nat, hi: nat, i: nat)
    requires Tiles(t, lo, hi) && i + 1 < |t|
    ensures Tiles(Join(t, i), lo, hi)
  {
    var u := Join(t, i);
    assert forall k :: 0 <= k < |u| ==>
             u[k] == if k < i then t[k]
                     else if k == i then Block(t[i].addr, t[i].size + t[i + 1].Total(), true)
                     else t[k + 1];
    assert t[i + 1].addr == t[i].End();
    forall k, j | 0 <= k && j == k + 1 && j < |u| ensures u[j].addr == u[k].End() {
      if k < i { assert t[j].addr == t[k].End(); } else { assert t[j + 1].addr == t[k + 1].End(); }
    }
  }

  lemma SplitTiles(t: Tile, lo: nat, hi: nat, i: nat, n: nat)
    requires Tiles(t, lo, hi) && i < |t| && Splits(t[i].size, n)
    ensures Tiles(Split(t, i, n), lo, hi)
  {
    var u := Split(t, i, n);
    assert forall k :: 0 <= k < |u| && k != i && k != i + 1 ==> u[k] == if k < i then t[k] else t[k - 1];
    forall k, j | 0 <= k && j == k + 1 && j < |u| ensures u[j].addr == u[k].End() {
      if k < i { assert t[j].addr == t[k].End(); } else if k > i { assert t[j - 1].addr == t[k - 1].End(); }
    }
  }

  lemma SetFreeTiles(t: Tile, lo: nat, hi: nat, i: nat, free: bool)
    requires Tiles(t, lo, hi) && i < |t|
    ensures Tiles(SetFree(t, i, free), lo, hi)
  {
    var u := SetFree(t, i, free);
    forall k, j | 0 <= k && j == k + 1 && j < |u| ensures u[j].addr == u[k].End() {
      assert t[j].addr == t[k].End();
    }
  }

  lemma SetFreeParts(t: Tile, i: nat, free: bool)
    requires i < |t|
    ensures SetFree(t, i, free)[..i] == t[..i] && SetFree(t, i, free)[i + 1..] == t[i + 1..]
  {
  }

  lemma SetFreeAddrs(t: Tile, i: nat, free: bool)
    requires i < |t|
    ensures FreeAddrs(SetFree(t, i, free)) == FreeAddrs(t[..i]) + Own(t[i].(free := free)) + FreeAddrs(t[i + 1..])
    ensures Used(SetFree(t, i, free)) == Used(t[..i]) + (if free then 0 else t[i].Total()) + Used(t[i + 1..])
  {
    SetFreeParts(t, i, free);
    FreeAddrsAt(SetFree(t, i, free), i);
    UsedAt(SetFree(t, i, free), i);
  }

  lemma JoinAddrs(t: Tile, i: nat)
    requires i + 1 < |t| && t[i].free && t[i + 1].free
    ensures FreeAddrs(t) == FreeAddrs(t[..i]) + [t[i].addr] + ([t[i + 1].addr] + FreeAddrs(t[i + 2..]))
    ensures FreeAddrs(Join(t, i)) == FreeAddrs(t[..i]) + [t[i].addr] + FreeAddrs(t[i + 2..])
  {
    FreeAddrsAt(t, i);
    assert t[i + 1..][0] == t[i + 1] && t[i + 1..][1..] == t[i + 2..];
    var u := Join(t, i);
    assert u[..i] == t[..i] && u[i + 1..] == t[i + 2..];
    FreeAddrsAt(u, i);
  }

  lemma JoinUsed(t: Tile, i: nat)
    requires i + 1 < |t| && t[i].free && t[i + 1].free
    ensures Used(Join(t, i)) == Used(t)
  {
    UsedAt(t, i);
    assert t[i + 1..][0] == t[i + 1] && t[i + 1..][1..] == t[i + 2..];
    var u := Join(t, i);
    assert u[..i] == t[..i] && u[i + 1..] == t[i + 2..];
    UsedAt(u, i);
  }

  lemma SplitAddrs(t: Tile, i: nat, n: nat)
    requires i < |t| && Splits(t[i].size, n)
    ensures FreeAddrs(Split(t, i, n)) ==
            FreeAddrs(t[..i]) + Own(t[i]) + ([t[i].addr + HEADER + n] + FreeAddrs(t[i + 1..]))
  {
    hide FreeAddrs;
    var u := Split(t, i, n);
    assert u[..i] == t[..i] && u[i + 2..] == t[i + 1..];
    FreeAddrsFrom(u, i + 1);
    FreeAddrsAt(u, i);
  }

  lemma SplitUsed(t: Tile, i: nat, n: nat)
    requires i < |t| && Splits(t[i].size, n)
    ensures Used(Split(t, i, n)) == Used(t) - if t[i].free then 0 else t[i].size - n
  {
    UsedAt(t, i);
    var u := Split(t, i, n);
    assert u[..i] == t[..i] && u[i + 1..][1..] == t[i + 1..];
    UsedAt(u, i);
  }

  // ----- the operations of the heap

  // First fit: the first free block with room for n bytes, or |t|.
  function FirstFit(t: Tile, n: nat): (i: nat)
    ensures i <= |t|
    ensures i < |t| ==> t[i].free && t[i].size >= n
    ensures forall j :: 0 <= j < i ==> !(t[j].free && t[j].size >= n)
  {
    if t == [] then 0 else if t[0].free && t[0].size >= n then 0 else 1 + FirstFit(t[1..], n)
  }

  // Block i, cut to size, is given away.
  function Placed(t: Tile, i: nat, n: nat): Tile
    requires i < |t| && t[i].size >= n
  {
    var u := SetFree(t, i, false);
    if Splits(t[i].size, n) then Split(u, i, n) else u
  }

  /** The rest of a block becomes a block of its own iff it holds a header of 20 bytes and 16 more. */
  lemma CutOff(t: Tile, i: nat, n: nat)
    requires i < |t| && t[i].size >= n
    ensures |Placed(t, i, n)| == if t[i].size - n >= 36 then |t| + 1 else |t|
    ensures var b := Placed(t, i, n)[i];
            b.addr == t[i].addr && !b.free && b.size == if t[i].size - n >= 36 then n else t[i].size
  {
  }

  // Block i is freed and merged with a free neighbour before it and one behind it.
  function Freed(t: Tile, i: nat): Tile
    requires i < |t|
  {
    var u := SetFree(t, i, true);
    if i > 0 && u[i - 1].free then MergeNext(Join(u, i - 1), i - 1) else MergeNext(u, i)
  }

  function MergeNext(t: Tile, i: nat): Tile
    requires i < |t|
  {
    if i + 1 < |t| && t[i + 1].free then Join(t, i) else t
  }

  // krealloc to a smaller size: the rest becomes a free block, which is not merged.
  function Shrunk(t: Tile, i: nat, n: nat): Tile
    requires i < |t| && t[i].size >= n
  {
    if Splits(t[i].size, n) then Split(t, i, n) else t
  }

  // The number of block i after block f has been cut.
  function Shifted(t: Tile, f: nat, n: nat, i: nat): nat
    requires f < |t|
  {
    if f < i && Splits(t[f].size, n) then i + 1 else i
  }

  // krealloc to a larger size: a new block is taken, and then the old one is freed.
  predicate Moved(t: Tile, i: nat, n: nat, t2: Tile, q: nat)
    requires i < |t|
  {
    var f := FirstFit(t, n);
    && f < |t| && f != i && q == t[f].addr + HEADER
    && Shifted(t, f, n, i) < |Placed(t, f, n)|
    && Placed(t, f, n)[Shifted(t, f, n, i)] == t[i]
    && t2 == Freed(Placed(t, f, n), Shifted(t, f, n, i))
  }

  lemma PlacedKeeps(t: Tile, i: nat, n: nat)
    requires i < |t| && i != FirstFit(t, n) < |t|
    ensures var f := FirstFit(t, n);
            Shifted(t, f, n, i) < |Placed(t, f, n)| && Placed(t, f, n)[Shifted(t, f, n, i)] == t[i]
  {
  }

  // ----- coalescing

  ghost predicate Coalesced(t: Tile) {
    forall i, j :: 0 <= i && j == i + 1 && j < |t| ==> !(t[i].free && t[j].free)
  }

  lemma ApartAt(t: Tile, i: nat)
    requires Coalesced(t) && i + 1 < |t|
    ensures !(t[i].free && t[i + 1].free)
  {
  }

  /** Allocation keeps free blocks apart. */
  lemma PlacedCoalesced(t: Tile, i: nat, n: nat)
    requires Coalesced(t) && i < |t| && t[i].free && t[i].size >= n
    ensures Coalesced(Placed(t, i, n))
  {
    var u := Placed(t, i, n);
    if Splits(t[i].size, n) {
      assert forall k :: 0 <= k < |u| && k != i && k != i + 1 ==> u[k] == if k < i then t[k] else t[k - 1];
      forall k, j | 0 <= k && j == k + 1 && j < |u| ensures !(u[k].free && u[j].free) {
        if k < i - 1 { assert !(t[k].free && t[j].free); }
        else if k >= i + 1 { assert !(t[k - 1].free && t[j - 1].free); }
      }
    } else {
      assert forall k :: 0 <= k < |u| && k != i ==> u[k] == t[k];
    }
  }

  // Apart from block i and its neighbours, free blocks are apart.
  ghost predicate CoalescedBut(t: Tile, i: int) {
    forall k, j :: 0 <= k && j == k + 1 && j < |t| && k != i && j != i ==> !(t[k].free && t[j].free)
  }

  lemma MergeNextCoalesced(t: Tile, i: nat)
    requires i < |t| && CoalescedBut(t, i) && (i > 0 ==> !t[i - 1].free)
    requires i + 2 < |t| ==> !(t[i + 1].free && t[i + 2].free)
    ensures Coalesced(MergeNext(t, i))
  {
    var u := MergeNext(t, i);
    if i + 1 < |t| && t[i + 1].free {
      assert forall k :: 0 <= k < |u| && k != i ==> u[k] == if k < i then t[k] else t[k + 1];
      forall k, j | 0 <= k && j == k + 1 && j < |u| ensures !(u[k].free && u[j].free) {
        if j < i { assert !(t[k].free && t[j].free); }
        else if k > i { assert !(t[k + 1].free && t[j + 1].free); }
      }
    }
  }

  lemma JoinBut(t: Tile, i: nat)
    requires i + 1 < |t| && CoalescedBut(t, i + 1) && (i > 0 ==> !t[i - 1].free)
    ensures CoalescedBut(Join(t, i), i) && Join(t, i)[i].free
    ensures forall k :: 0 <= k < |Join(t, i)| && k != i ==> Join(t, i)[k] == if k < i then t[k] else t[k + 1]
  {
    var u := Join(t, i);
    forall k, j | 0 <= k && j == k + 1 && j < |u| && k != i && j != i ensures !(u[k].free && u[j].free) {
      if j < i { assert !(t[k].free && t[j].free); } else { assert !(t[k + 1].free && t[j + 1].free); }
    }
  }

  /** Freeing keeps free blocks apart. */
  lemma FreedCoalesced(t: Tile, i: nat)
    requires Coalesced(t) && i < |t| && !t[i].free
    ensures Coalesced(Freed(t, i))
  {
    var u := SetFree(t, i, true);
    assert forall k :: 0 <= k < |u| && k != i ==> u[k] == t[k];
    assert CoalescedBut(u, i) by {
      forall k, j | 0 <= k && j == k + 1 && j < |u| && k != i && j != i ensures !(u[k].free && u[j].free) {
        assert !(t[k].free && t[j].free);
      }
    }
    assert i + 2 < |t| ==> !(t[i + 1].free && t[i + 2].free);
    if i > 1 { ApartAt(t, i - 2); }
    if i > 0 && u[i - 1].free {
      JoinBut(u, i - 1);
      MergeNextCoalesced(Join(u, i - 1), i - 1);
    } else {
      MergeNextCoalesced(u, i);
    }
  }

  /** Freeing undoes allocating. */
  lemma FreeUndoesAlloc(t: Tile, lo: nat, hi: nat, i: nat, n: nat)
    requires Tiles(t, lo, hi) && Coalesced(t) && i < |t| && t[i].free && t[i].size >= n
    ensures Freed(Placed(t, i, n), i) == t
  {
    var u := Placed(t, i, n);
    assert i > 0 ==> u[i - 1] == t[i - 1];
    var w := SetFree(u, i, true);
    if Splits(t[i].size, n) {
      assert w[..i] == t[..i] && w[i + 2..] == t[i + 1..];
      assert w[i + 1] == Block(t[i].addr + HEADER + n, t[i].size - n - HEADER, true);
      assert Freed(u, i) == Join(w, i);
      assert Join(w, i) == t[..i] + [t[i]] + t[i + 1..];
    } else {
      assert w == t;
      assert i + 1 < |t| ==> !t[i + 1].free;
    }
  }

  lemma NoneUsed(t: Tile, i: nat)
    requires Used(t) == 0 && i < |t|
    ensures t[i].free
  {
    UsedAt(t, i);
  }

  /** When everything has been freed, the heap is the one block it started as. */
  lemma AllFreeIsOneBlock(t: Tile, lo: nat, hi: nat)
    requires Tiles(t, lo, hi) && Coalesced(t) && Used(t) == 0
    ensures hi >= lo + HEADER && t == [Block(lo, hi - lo - HEADER, true)]
  {
    NoneUsed(t, 0);
    if |t| > 1 {
      ApartAt(t, 0);
      NoneUsed(t, 1);
    }
  }

  // Blocks i to j are free.
  ghost predicate FreeRun(t: Tile, i: nat, j: nat)
    requires i <= j < |t|
  {
    forall k :: i <= k <= j ==> t[k].free
  }

  /** Allocation fails only if no stretch of free memory can hold a header and n bytes. */
  lemma NoFitMeansNoRoom(t: Tile, lo: nat, hi: nat, n: nat, i: nat, j: nat)
    requires Tiles(t, lo, hi) && Coalesced(t) && FirstFit(t, n) == |t|
    requires i <= j < |t| && FreeRun(t, i, j)
    ensures t[j].End() - t[i].addr < HEADER + n
  {
    OneInRun(t, i, j);
  }

  lemma OneInRun(t: Tile, i: nat, j: nat)
    requires Coalesced(t) && i <= j < |t| && FreeRun(t, i, j)
    ensures i == j
  {
    if i < j { ApartAt(t, i); }
  }

  // align_size, in 32-bit arithmetic.
  function Aligned(size: nat): (n: nat)
    requires size < WORD
    ensures n < WORD && n % 8 == 0
  {
    (size + 7) % WORD / 8 * 8
  }

  /** The aligned size is large enough, and the least one that is, unless it wraps to 0. */
  lemma AlignedIs(size: nat)
    requires size < WORD
    ensures if size <= WORD - 8 then size <= Aligned(size) < size + 8 else Aligned(size) == 0
    ensures Aligned(Aligned(size)) == Aligned(size)
  {
  }

  // What kmalloc does to the tiling; p is the payload it returns, or 0.
  predicate Allocates(t: Tile, size: nat, t2: Tile, p: nat)
    requires size < WORD
  {
    var n := Aligned(size);
    var i := FirstFit(t, n);
    if size == 0 || i == |t| then p == 0 && t2 == t
    else p == t[i].addr + HEADER && t2 == Placed(t, i, n)
  }

  /** The payload is as large as was asked for, unless the aligned size wraps around. */
  lemma PayloadLargeEnough(t: Tile, lo: nat, hi: nat, size: nat, t2: Tile, p: nat)
    requires Tiles(t, lo, hi) && hi - lo < WORD && size < WORD && Allocates(t, size, t2, p) && p != 0
    ensures exists i ::
              0 <= i < |t2| && t2[i].addr + HEADER == p && !t2[i].free && (t2[i].size >= size <==> size <= WORD - 8)
  {
    var i := FirstFit(t, Aligned(size));
    AlignedIs(size);
    assert t2[i].addr + HEADER == p && !t2[i].free;
  }

  /** Shrinking in place keeps free blocks apart if and only if nothing is cut off, or no free
      block follows. */
  lemma ShrunkCoalesced(t: Tile, i: nat, n: nat)
    requires Coalesced(t) && i < |t| && !t[i].free && t[i].size >= n
    ensures Coalesced(Shrunk(t, i, n)) <==> !Splits(t[i].size, n) || i + 1 == |t| || !t[i + 1].free
  {
    var u := Shrunk(t, i, n);
    if Splits(t[i].size, n) {
      assert forall k :: 0 <= k < |u| && k != i && k != i + 1 ==> u[k] == if k < i then t[k] else t[k - 1];
      if i + 1 < |t| && t[i + 1].free {
        assert u[i + 1].free && u[i + 2].free;
      } else {
        forall k, j | 0 <= k && j == k + 1 && j < |u| ensures !(u[k].free && u[j].free) {
          if k < i - 1 { assert !(t[k].free && t[j].free); }
          else if k > i + 1 { assert !(t[k - 1].free && t[j - 1].free); }
        }
      }
    }
  }

  // Such a case: 100 bytes shrunk to 8, with a free block behind.
  lemma ShrinkLeavesNeighbours()
    ensures var t := [Block(8, 100, false), Block(128, 50, true)];
            Tiles(t, 8, 198) && Coalesced(t) && !Coalesced(Shrunk(t, 0, 8))
  {
    var t := [Block(8, 100, false), Block(128, 50, true)];
    ShrunkCoalesced(t, 0, 8);
  }

  // ----- live blocks

  function LiveOne(b: Block): Tile { if b.free then [] else [b] }

  function Live(t: Tile): Tile {
    if t == [] then [] else LiveOne(t[0]) + Live(t[1..])
  }

  lemma AssocTile(x: Tile, y: Tile, z: Tile)
    ensures x + (y + z) == x + y + z
  {
  }

  lemma {:induction false} LiveJoin(s: Tile, t: Tile)
    ensures Live(s + t) == Live(s) + Live(t)
  {
    hide LiveOne;
    if s == [] {
      assert s + t == t;
    } else {
      LiveJoin(s[1..], t);
      assert (s + t)[1..] == s[1..] + t;
      AssocTile(LiveOne(s[0]), Live(s[1..]), Live(t));
    }
  }

  lemma LiveAt(t: Tile, i: nat)
    requires i < |t|
    ensures Live(t) == Live(t[..i]) + LiveOne(t[i]) + Live(t[i + 1..])
  {
    hide LiveOne;
    assert t == t[..i] + t[i..];
    LiveJoin(t[..i], t[i..]);
    assert t[i..][0] == t[i] && t[i..][1..] == t[i + 1..];
    AssocTile(Live(t[..i]), LiveOne(t[i]), Live(t[i + 1..]));
  }

  lemma LiveOfJoin(t: Tile, i: nat)
    requires i + 1 < |t| && t[i].free && t[i + 1].free
    ensures Live(Join(t, i)) == Live(t)
  {
    hide Live;
    LiveAt(t, i);
    assert t[i + 1..][0] == t[i + 1] && t[i + 1..][1..] == t[i + 2..];
    LiveHead(t[i + 1..]);
    NilBetween([], Live(t[i + 2..]));
    var u := Join(t, i);
    assert u[..i] == t[..i] && u[i + 1..] == t[i + 2..];
    LiveAt(u, i);
  }

  /** Freeing takes one live block away and leaves all others where and as they are. */
  lemma FreedLive(t: Tile, i: nat)
    requires i < |t| && !t[i].free
    ensures Live(Freed(t, i)) == Live(t[..i]) + Live(t[i + 1..])
    ensures Live(t) == Live(t[..i]) + [t[i]] + Live(t[i + 1..])
  {
    hide Live, MergeNext;
    LiveAt(t, i);
    var u := SetFree(t, i, true);
    LiveAt(u, i);
    SetFreeParts(t, i, true);
    NilBetween(Live(t[..i]), Live(t[i + 1..]));
    hide LiveOne;
    if i > 0 && u[i - 1].free {
      LiveOfJoin(u, i - 1);
      MergeNextLive(Join(u, i - 1), i - 1);
    } else {
      MergeNextLive(u, i);
    }
  }

  lemma MergeNextLive(t: Tile, i: nat)
    requires i < |t| && t[i].free
    ensures Live(MergeNext(t, i)) == Live(t)
  {
    if i + 1 < |t| && t[i + 1].free { LiveOfJoin(t, i); }
  }

  /** Allocating adds one live block and leaves all others where and as they are. */
  lemma PlacedLive(t: Tile, i: nat, n: nat)
    requires i < |t| && t[i].free && t[i].size >= n
    ensures var size := if Splits(t[i].size, n) then n else t[i].size;
            Live(Placed(t, i, n)) == Live(t[..i]) + [Block(t[i].addr, size, false)] + Live(t[i + 1..])
    ensures Live(t) == Live(t[..i]) + Live(t[i + 1..])
  {
    hide Live;
    LiveAt(t, i);
    NilBetween(Live(t[..i]), Live(t[i + 1..]));
    var u := Placed(t, i, n);
    LiveAt(u, i);
    assert u[..i] == t[..i];
    PlacedRest(t, i, n);
  }

  lemma PlacedRest(t: Tile, i: nat, n: nat)
    requires i < |t| && t[i].free && t[i].size >= n
    ensures Live(Placed(t, i, n)[i + 1..]) == Live(t[i + 1..])
  {
    var u := Placed(t, i, n);
    if Splits(t[i].size, n) {
      assert u[i + 1..][1..] == t[i + 1..];
      assert LiveOne(u[i + 1..][0]) == [];
      hide Live;
      NilBetween([], Live(t[i + 1..]));
      LiveHead(u[i + 1..]);
    } else {
      assert u[i + 1..] == t[i + 1..];
    }
  }

  lemma LiveHead(t: Tile)
    requires t != []
    ensures Live(t) == LiveOne(t[0]) + Live(t[1..])
  {
  }

  lemma NilBetween(x: Tile, y: Tile)
    ensures x + [] + y == x + y && [] + y == y
  {
  }

  // Where the live blocks are.
  ghost function LiveAddrs(t: Tile): set<nat> { set k | 0 <= k < |t| && !t[k].free :: t[k].addr }

  lemma JoinAddrsLive(t: Tile, i: nat)
    requires i + 1 < |t| && t[i].free && t[i + 1].free
    ensures LiveAddrs(Join(t, i)) == LiveAddrs(t)
  {
    var u := Join(t, i);
    forall x | x in LiveAddrs(t) ensures x in LiveAddrs(u) {
      var k :| 0 <= k < |t| && !t[k].free && t[k].addr == x;
      assert u[if k < i then k else k - 1] == t[k];
    }
  }

  lemma SplitAddrsLive(t: Tile, i: nat, n: nat)
    requires i < |t| && Splits(t[i].size, n)
    ensures LiveAddrs(Split(t, i, n)) == LiveAddrs(t)
  {
    var u := Split(t, i, n);
    forall x | x in LiveAddrs(t) ensures x in LiveAddrs(u) {
      var k :| 0 <= k < |t| && !t[k].free && t[k].addr == x;
      var j := if k <= i then k else k + 1;
      assert u[j].addr == t[k].addr && u[j].free == t[k].free;
    }
  }

  lemma SetAddrsLive(t: Tile, i: nat, free: bool)
    requires i < |t|
    ensures LiveAddrs(t) - {t[i].addr} <= LiveAddrs(SetFree(t, i, free))
    ensures !free ==> LiveAddrs(SetFree(t, i, free)) == LiveAddrs(t) + {t[i].addr}
  {
    var u := SetFree(t, i, free);
    assert !free ==> u[i].addr == t[i].addr && !u[i].free;
    forall x | x in LiveAddrs(t) && x != t[i].addr ensures x in LiveAddrs(u) {
      var k :| 0 <= k < |t| && !t[k].free && t[k].addr == x;
      assert u[k] == t[k];
    }
  }

  lemma PlacedAddrs(t: Tile, i: nat, n: nat)
    requires i < |t| && t[i].size >= n
    ensures LiveAddrs(Placed(t, i, n)) == LiveAddrs(t) + {t[i].addr}
  {
    hide LiveAddrs;
    SetAddrsLive(t, i, false);
    if Splits(t[i].size, n) { SplitAddrsLive(SetFree(t, i, false), i, n); }
  }

  lemma FreedAddrs(t: Tile, i: nat)
    requires i < |t|
    ensures LiveAddrs(t) - {t[i].addr} <= LiveAddrs(Freed(t, i))
  {
    hide LiveAddrs;
    SetAddrsLive(t, i, true);
    var u := SetFree(t, i, true);
    if i > 0 && u[i - 1].free {
      JoinAddrsLive(u, i - 1);
      if i < |Join(u, i - 1)| && Join(u, i - 1)[i].free { JoinAddrsLive(Join(u, i - 1), i - 1); }
    } else if i + 1 < |u| && u[i + 1].free {
      JoinAddrsLive(u, i);
    }
  }

  // ----- the bytes in the blocks

  // What memcpy leaves behind, for places that do not overlap.
  function Copied(bytes: seq<byte>, from: nat, to: nat, n: nat): (r: seq<byte>)
    requires from + n <= |bytes| && to + n <= |bytes|
    ensures |r| == |bytes|
  {
    bytes[..to] + bytes[from .. from + n] + bytes[to + n..]
  }

  // The payload of a block; the heap area begins at lo.
  function Payload(bytes: seq<byte>, lo: nat, b: Block): seq<byte>
    requires lo <= b.addr && b.End() <= lo + |bytes|
  {
    bytes[b.addr + HEADER - lo .. b.End() - lo]
  }

  lemma InArea(t: Tile, lo: nat, hi: nat, i: nat)
    requires Tiles(t, lo, hi) && i < |t|
    ensures lo <= t[i].addr && t[i].End() <= hi
  {
    if i > 0 { Ascends(t, 0, i); }
    if i < |t| - 1 { Ascends(t, i, |t| - 1); }
  }

  /** krealloc to a larger size: the new block begins with the bytes of the old one, and the
      payloads of all other live blocks are as they were. */
  lemma MovedBytes(t: Tile, lo: nat, hi: nat, bytes: seq<byte>, i: nat, n: nat, t2: Tile, q: nat, j: nat)
    requires Tiles(t, lo, hi) && |bytes| == hi - lo && i < |t| && !t[i].free && t[i].size < n && Moved(t, i, n, t2, q)
    requires j < |t| && j != i && !t[j].free
    ensures lo <= t[i].addr && t[i].End() <= hi && lo <= q && q + n <= hi && lo <= t[j].addr && t[j].End() <= hi
    ensures var r := Copied(bytes, t[i].addr + HEADER - lo, q - lo, t[i].size);
            && r[q - lo .. q - lo + t[i].size] == Payload(bytes, lo, t[i])
            && Payload(r, lo, t[j]) == Payload(bytes, lo, t[j])
  {
    hide Freed, Placed, Shifted;
    var f := FirstFit(t, n);
    InArea(t, lo, hi, i);
    InArea(t, lo, hi, j);
    InArea(t, lo, hi, f);
    if j < f { Ascends(t, j, f); } else { Ascends(t, f, j); }
  }
}
