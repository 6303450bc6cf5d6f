/**
 The kernel heap: kmalloc, kfree and krealloc over block headers in memory and a doubly linked
 list of the free ones.
 */
module Heap {
  import opened Bytes
  import opened HeapTiles

  // next and prev are addresses of headers; 0 is NULL.
  datatype Header = Header(size: nat, free: bool, next: nat, prev: nat)

  // The headers in memory, by address.
  type Memory = map<nat, Header>

  // The k-th address, or NULL when there is none.
  function At(fs: seq<nat>, k: int): nat { if 0 <= k < |fs| then fs[k] else 0 }

  // The free list, followed from head, visits the addresses fs, and back again.
  ghost predicate Linked(m: Memory, head: nat, fs: seq<nat>) {
    && head == At(fs, 0)
    && (forall k :: 0 <= k < |fs| ==> fs[k] != 0 && fs[k] in m)
    && (forall k :: 0 <= k < |fs| ==> m[fs[k]].next == At(fs, k + 1))
    && (forall k :: 0 <= k < |fs| ==> m[fs[k]].prev == At(fs, k - 1))
  }

  ghost predicate Holds(m: Memory, t: Tile) {
    forall i :: 0 <= i < |t| ==> t[i].addr in m && m[t[i].addr].size == t[i].size && m[t[i].addr].free == t[i].free
  }

  // All headers but those of live blocks are marked free, also the ones that a merge leaves behind.
  ghost predicate OthersFree(m: Memory, t: Tile) {
    forall x :: x in m && !m[x].free ==> x in LiveAddrs(t)
  }

  // No header becomes live.
  ghost predicate NoneTaken(m: Memory, n: Memory) {
    forall x :: x in n && !n[x].free ==> x in m && !m[x].free
  }

  // The payload of block i.
  predicate PayloadOf(t: Tile, i: int, p: nat) { 0 <= i < |t| && p == t[i].addr + HEADER }

  // Only list pointers differ.
  ghost predicate SameBlocks(m: Memory, n: Memory) {
    m.Keys == n.Keys && forall x :: x in m ==> n[x].size == m[x].size && n[x].free == m[x].free
  }

  function Inserted(fs: seq<nat>, k: nat, b: nat): seq<nat>
    requires k <= |fs|
  {
    fs[..k] + [b] + fs[k..]
  }

  function Removed(fs: seq<nat>, k: nat): seq<nat>
    requires k < |fs|
  {
    fs[..k] + fs[k + 1..]
  }

  // ----- what the pointer updates do to the list

  // x->next = v and x->prev = v, if x is not NULL.
  function SetNext(m: Memory, x: nat, v: nat): (n: Memory)
    ensures SameBlocks(m, n) && forall y :: y in m ==> n[y].prev == m[y].prev
    ensures forall y :: y in m ==> n[y].next == if y == x && x != 0 then v else m[y].next
  {
    if x == 0 || x !in m then m else m[x := m[x].(next := v)]
  }

  function SetPrev(m: Memory, x: nat, v: nat): (n: Memory)
    ensures SameBlocks(m, n) && forall y :: y in m ==> n[y].next == m[y].next
    ensures forall y :: y in m ==> n[y].prev == if y == x && x != 0 then v else m[y].prev
  {
    if x == 0 || x !in m then m else m[x := m[x].(prev := v)]
  }

  function SetBoth(m: Memory, x: nat, next: nat, prev: nat): (n: Memory)
    requires x in m
    ensures SameBlocks(m, n) && n[x].next == next && n[x].prev == prev
    ensures forall y :: y in m && y != x ==> n[y] == m[y]
  {
    m[x := m[x].(next := next, prev := prev)]
  }

  lemma InsertLinks(fs: seq<nat>, k: nat, b: nat, n: Memory, head: nat)
    requires k <= |fs| && b in n && b != 0 && head == if k == 0 then b else At(fs, 0)
    requires n[b].next == At(fs, k) && n[b].prev == At(fs, k - 1)
    requires forall j :: 0 <= j < |fs| ==> fs[j] in n && fs[j] != 0
    requires forall j :: 0 <= j < |fs| ==> n[fs[j]].next == if j == k - 1 then b else At(fs, j + 1)
    requires forall j :: 0 <= j < |fs| ==> n[fs[j]].prev == if j == k then b else At(fs, j - 1)
    ensures Linked(n, head, Inserted(fs, k, b))
  {
    var gs := Inserted(fs, k, b);
    assert |gs| == |fs| + 1;
    hide Inserted;
    AtInserted(fs, k, b, 0);
    forall j | 0 <= j < |gs|
      ensures gs[j] in n && gs[j] != 0 && n[gs[j]].next == At(gs, j + 1) && n[gs[j]].prev == At(gs, j - 1)
    {
      AtInserted(fs, k, b, j - 1);
      AtInserted(fs, k, b, j);
      AtInserted(fs, k, b, j + 1);
    }
  }

  lemma AtInserted(fs: seq<nat>, k: nat, b: nat, j: int)
    requires k <= |fs|
    ensures At(Inserted(fs, k, b), j) == if j < k then At(fs, j) else if j == k then b else At(fs, j - 1)
  {
  }

  lemma AtRemoved(fs: seq<nat>, k: nat, j: int)
    requires k < |fs|
    ensures At(Removed(fs, k), j) == if j < k then At(fs, j) else At(fs, j + 1)
  {
  }

  // The memory after b has been linked in before position k.
  function InsertMem(m: Memory, fs: seq<nat>, k: nat, b: nat): (n: Memory)
    requires b in m && k <= |fs|
    ensures SameBlocks(m, n)
  {
    SetPrev(SetNext(SetBoth(m, b, At(fs, k), At(fs, k - 1)), At(fs, k - 1), b), At(fs, k), b)
  }

  lemma InsertIsLinked(m: Memory, head: nat, fs: seq<nat>, k: nat, b: nat)
    requires Linked(m, head, fs) && Ascending(fs) && k <= |fs| && b in m && b != 0 && b !in fs
    ensures Linked(InsertMem(m, fs, k, b), if k == 0 then b else head, Inserted(fs, k, b))
  {
    var m1 := SetBoth(m, b, At(fs, k), At(fs, k - 1));
    var m2 := SetNext(m1, At(fs, k - 1), b);
    var n := SetPrev(m2, At(fs, k), b);
    assert n[b].next == At(fs, k) && n[b].prev == At(fs, k - 1);
    hide SetBoth, SetNext, SetPrev, SameBlocks, Inserted;
    forall j | 0 <= j < |fs|
      ensures fs[j] in n && n[fs[j]].next == if j == k - 1 then b else At(fs, j + 1)
      ensures n[fs[j]].prev == if j == k then b else At(fs, j - 1)
    {
      assert m1[fs[j]] == m[fs[j]];
    }
    InsertLinks(fs, k, b, n, if k == 0 then b else head);
  }

  function RemoveMem(m: Memory, fs: seq<nat>, k: nat): (n: Memory)
    requires k < |fs| && fs[k] in m
    ensures SameBlocks(m, n)
  {
    SetBoth(SetPrev(SetNext(m, At(fs, k - 1), At(fs, k + 1)), At(fs, k + 1), At(fs, k - 1)), fs[k], 0, 0)
  }

  lemma RemoveLinks(fs: seq<nat>, k: nat, n: Memory, head: nat)
    requires k < |fs| && head == if k == 0 then At(fs, 1) else At(fs, 0)
    requires forall j :: 0 <= j < |fs| ==> fs[j] in n && fs[j] != 0
    requires forall j :: 0 <= j < |fs| && j != k ==>
               n[fs[j]].next == if j == k - 1 then At(fs, k + 1) else At(fs, j + 1)
    requires forall j :: 0 <= j < |fs| && j != k ==>
               n[fs[j]].prev == if j == k + 1 then At(fs, k - 1) else At(fs, j - 1)
    ensures Linked(n, head, Removed(fs, k))
  {
    var gs := Removed(fs, k);
    assert |gs| == |fs| - 1;
    hide Removed;
    AtRemoved(fs, k, 0);
    forall j | 0 <= j < |gs|
      ensures gs[j] in n && gs[j] != 0 && n[gs[j]].next == At(gs, j + 1) && n[gs[j]].prev == At(gs, j - 1)
    {
      AtRemoved(fs, k, j - 1);
      AtRemoved(fs, k, j);
      AtRemoved(fs, k, j + 1);
    }
  }

  lemma RemoveIsLinked(m: Memory, head: nat, fs: seq<nat>, k: nat)
    requires Linked(m, head, fs) && Ascending(fs) && k < |fs|
    ensures Linked(RemoveMem(m, fs, k), if k == 0 then At(fs, 1) else head, Removed(fs, k))
  {
    var m1 := SetNext(m, At(fs, k - 1), At(fs, k + 1));
    var m2 := SetPrev(m1, At(fs, k + 1), At(fs, k - 1));
    var n := SetBoth(m2, fs[k], 0, 0);
    hide SetBoth, SetNext, SetPrev, SameBlocks, Removed;
    forall j | 0 <= j < |fs| && j != k
      ensures n[fs[j]].next == if j == k - 1 then At(fs, k + 1) else At(fs, j + 1)
      ensures n[fs[j]].prev == if j == k + 1 then At(fs, k - 1) else At(fs, j - 1)
    {
      assert n[fs[j]] == m2[fs[j]];
    }
    RemoveLinks(fs, k, n, if k == 0 then At(fs, 1) else head);
  }

  // Sizes and flags of the headers do not matter to the list.
  lemma LinkedSame(m: Memory, n: Memory, head: nat, fs: seq<nat>)
    requires Linked(m, head, fs)
             && forall x :: x in fs ==> x in n && (x in m ==> n[x].next == m[x].next && n[x].prev == m[x].prev)
    ensures Linked(n, head, fs)
  {
    forall k | 0 <= k < |fs| ensures fs[k] in n && n[fs[k]].next == m[fs[k]].next && n[fs[k]].prev == m[fs[k]].prev {
      assert fs[k] in fs;
    }
  }

  // ----- headers and tiles

  lemma AddrsDiffer(t: Tile, i: nat, j: nat)
    requires Joined(t) && i < |t| && j < |t| && i != j
    ensures t[i].addr != t[j].addr
  {
    if i < j { Ascends(t, i, j); } else { Ascends(t, j, i); }
  }

  // The headers agree with t, except for the flag of block i.
  ghost predicate HoldsBut(m: Memory, t: Tile, i: nat) {
    && (forall k :: 0 <= k < |t| ==> t[k].addr in m && m[t[k].addr].size == t[k].size)
    && (forall k :: 0 <= k < |t| && k != i ==> m[t[k].addr].free == t[k].free)
  }

  lemma FlagSet(m: Memory, t: Tile, i: nat)
    requires Joined(t) && i < |t| && HoldsBut(m, t, i)
    ensures Holds(m[t[i].addr := m[t[i].addr].(free := t[i].free)], t)
  {
    var n := m[t[i].addr := m[t[i].addr].(free := t[i].free)];
    forall k | 0 <= k < |t| ensures t[k].addr in n && n[t[k].addr].size == t[k].size && n[t[k].addr].free == t[k].free {
      if k != i { AddrsDiffer(t, k, i); }
    }
  }

  lemma HoldsSame(m: Memory, n: Memory, t: Tile)
    requires Holds(m, t) && SameBlocks(m, n)
    ensures Holds(n, t)
  {
  }

  lemma HoldsButSame(m: Memory, n: Memory, t: Tile, i: nat)
    requires HoldsBut(m, t, i) && SameBlocks(m, n)
    ensures HoldsBut(n, t, i)
  {
  }

  // The position of a free block in the list.
  lemma FreeAt(t: Tile, i: nat)
    requires i < |t| && t[i].free
    ensures |FreeAddrs(t[..i])| < |FreeAddrs(t)| && FreeAddrs(t)[|FreeAddrs(t[..i])|] == t[i].addr
    ensures Removed(FreeAddrs(t), |FreeAddrs(t[..i])|) == FreeAddrs(SetFree(t, i, false))
  {
    hide FreeAddrs, SetFree;
    FreeAddrsAt(t, i);
    SetFreeAddrs(t, i, false);
  }

  // The place for a block that is about to become free.
  lemma PlaceIs(x: seq<nat>, y: seq<nat>, b: nat, k: nat)
    requires Below(x, b) && Above(y, b) && k <= |x| + |y| && Below((x + y)[..k], b) && Above((x + y)[k..], b)
    ensures k == |x| && Inserted(x + y, k, b) == x + [b] + y && b !in x + y
  {
    var s := x + y;
    assert forall q :: 0 <= q < |s| ==> (s[q] < b <==> q < |x|) && s[q] != b;
    assert forall q :: 0 <= q < |s| ==> (s[q] < b <==> q < k) by {
      assert forall q :: 0 <= q < k ==> s[q] == s[..k][q];
      assert forall q :: k <= q < |s| ==> s[q] == s[k..][q - k];
    }
    var z := if k < |x| then k else |x|;
    assert z < |s| ==> (z < |x| <==> s[z] < b);
    assert s[..|x|] == x && s[|x|..] == y;
  }

  lemma InsertFree(t: Tile, i: nat, k: nat)
    requires Joined(t) && i < |t|
    requires var fs := FreeAddrs(SetFree(t, i, false));
             k <= |fs| && Below(fs[..k], t[i].addr) && Above(fs[k..], t[i].addr)
    ensures Inserted(FreeAddrs(SetFree(t, i, false)), k, t[i].addr) == FreeAddrs(SetFree(t, i, true))
  {
    SetFreeAddrs(t, i, false);
    SetFreeAddrs(t, i, true);
    FreeAround(t, i);
    var x, y := FreeAddrs(t[..i]), FreeAddrs(t[i + 1..]);
    assert x + [] + y == x + y;
    PlaceIs(x, y, t[i].addr, k);
  }

  lemma NotListed(t: Tile, i: nat)
    requires Joined(t) && i < |t| && !t[i].free
    ensures t[i].addr !in FreeAddrs(t)
  {
    FreeAddrsAre(t, t[i].addr);
    forall k | 0 <= k < |t| && k != i ensures t[k].addr != t[i].addr { AddrsDiffer(t, k, i); }
  }

  lemma FirstFitIs(t: Tile, n: nat, i: nat)
    requires i <= |t| && (i < |t| ==> t[i].free && t[i].size >= n)
    requires forall j :: 0 <= j < i ==> !(t[j].free && t[j].size >= n)
    ensures FirstFit(t, n) == i
  {
    var f := FirstFit(t, n);
    assert f < |t| ==> t[f].free;
  }

  // The list position at which the search stops tells the block that is chosen.
  lemma StopIsFirstFit(m: Memory, t: Tile, n: nat, k: nat) returns (i: nat)
    requires Joined(t) && Holds(m, t) && k <= |FreeAddrs(t)|
    requires forall j :: 0 <= j < |FreeAddrs(t)| ==> FreeAddrs(t)[j] in m
    requires forall j :: 0 <= j < k ==> m[FreeAddrs(t)[j]].size < n
    requires k < |FreeAddrs(t)| ==> m[FreeAddrs(t)[k]].size >= n
    ensures i == FirstFit(t, n)
    ensures if k < |FreeAddrs(t)| then i < |t| && t[i].addr == FreeAddrs(t)[k] else i == |t|
  {
    var fs := FreeAddrs(t);
    i := FirstFit(t, n);
    FreeAddrsAscend(t);
    if k < |fs| {
      FreeAddrsAre(t, fs[k]);
      var x :| 0 <= x < |t| && t[x].free && t[x].addr == fs[k];
      forall j | 0 <= j < x ensures !(t[j].free && t[j].size >= n) {
        Ascends(t, j, x);
        SmallBefore(m, t, n, k, j);
      }
      FirstFitIs(t, n, x);
    } else {
      forall j | 0 <= j < |t| ensures !(t[j].free && t[j].size >= n) { SmallBefore(m, t, n, k, j); }
      FirstFitIs(t, n, |t|);
    }
  }

  lemma SmallBefore(m: Memory, t: Tile, n: nat, k: nat, j: nat)
    requires Holds(m, t) && k <= |FreeAddrs(t)| && Ascending(FreeAddrs(t)) && j < |t|
    requires forall q :: 0 <= q < k ==> FreeAddrs(t)[q] in m && m[FreeAddrs(t)[q]].size < n
    requires k < |FreeAddrs(t)| ==> t[j].addr < FreeAddrs(t)[k]
    ensures !(t[j].free && t[j].size >= n)
  {
    FreeAddrsAre(t, t[j].addr);
    if t[j].free {
      assert t[j].addr in FreeAddrs(t);
      var q :| 0 <= q < |FreeAddrs(t)| && FreeAddrs(t)[q] == t[j].addr;
      assert q < k;
    }
  }

  lemma FreeFlag(m: Memory, t: Tile, p: nat)
    requires Holds(m, t) && p in FreeAddrs(t)
    ensures p in m && m[p].free
  {
    FreeAddrsAre(t, p);
  }

  // ----- splitting

  // The headers that split_block writes.
  function CutMem(m: Memory, b: nat, n: nat, rest: nat, left: nat): (r: Memory)
    requires b in m
    ensures b in r && rest in r && r[b].free == m[b].free && (b != rest ==> r[rest].size == left)
  {
    m[rest := Header(left, true, 0, 0)][b := m[b].(size := n)]
  }

  lemma CutTakesNone(m: Memory, b: nat, n: nat, rest: nat, left: nat, r: Memory)
    requires b in m && SameBlocks(CutMem(m, b, n, rest, left), r)
    ensures NoneTaken(m, r)
  {
  }

  lemma SplitAt(u: Tile, i: nat, n: nat)
    requires i < |u| && Splits(u[i].size, n)
    ensures i < |Split(u, i, n)| && Split(u, i, n)[i] == u[i].(size := n)
  {
  }

  lemma CutHolds(m: Memory, u: Tile, i: nat, n: nat)
    requires Joined(u) && i < |u| && HoldsBut(m, u, i) && Splits(u[i].size, n)
    ensures HoldsBut(CutMem(m, u[i].addr, n, u[i].addr + HEADER + n, u[i].size - n - HEADER), Split(u, i, n), i)
  {
    var rest := u[i].addr + HEADER + n;
    var m2, w := CutMem(m, u[i].addr, n, rest, u[i].size - n - HEADER), Split(u, i, n);
    assert forall k :: 0 <= k < |w| && k != i && k != i + 1 ==> w[k] == if k < i then u[k] else u[k - 1];
    forall k | 0 <= k < |w| && k != i && k != i + 1
      ensures w[k].addr != rest && w[k].addr != u[i].addr && w[k].addr in m
    {
      if k < i { Ascends(u, k, i); } else { Ascends(u, i, k - 1); }
    }
  }

  lemma CutLinked(m: Memory, head: nat, u: Tile, i: nat, n: nat)
    requires Joined(u) && i < |u| && u[i].addr in m && Linked(m, head, FreeAddrs(u)) && Splits(u[i].size, n)
    ensures Linked(CutMem(m, u[i].addr, n, u[i].addr + HEADER + n, u[i].size - n - HEADER), head, FreeAddrs(u))
  {
    SplitNotListed(u, i, n);
    var rest := u[i].addr + HEADER + n;
    LinkedSame(m, CutMem(m, u[i].addr, n, rest, u[i].size - n - HEADER), head, FreeAddrs(u));
  }

  lemma SplitNotListed(u: Tile, i: nat, n: nat)
    requires Joined(u) && i < |u| && Splits(u[i].size, n)
    ensures u[i].addr + HEADER + n !in FreeAddrs(u)
  {
    var rest := u[i].addr + HEADER + n;
    FreeAddrsAre(u, rest);
    forall k | 0 <= k < |u| && u[k].free ensures u[k].addr != rest {
      if k < i { Ascends(u, k, i); } else if k > i { Ascends(u, i, k); }
    }
  }

  lemma SplitInsert(u: Tile, i: nat, n: nat, k: nat)
    requires Joined(u) && i < |u| && Splits(u[i].size, n)
    requires var fs, rest := FreeAddrs(u), u[i].addr + HEADER + n;
             k <= |fs| && Below(fs[..k], rest) && Above(fs[k..], rest)
    ensures Inserted(FreeAddrs(u), k, u[i].addr + HEADER + n) == FreeAddrs(Split(u, i, n))
  {
    hide FreeAddrs, Split, Joined;
    var rest := u[i].addr + HEADER + n;
    SplitAddrs(u, i, n);
    FreeAddrsAt(u, i);
    FreeAround(u, i);
    var x, y := FreeAddrs(u[..i]) + Own(u[i]), FreeAddrs(u[i + 1..]);
    AboveRest(u, i, n);
    PlaceIs(x, y, rest, k);
    Assoc(x, [rest], y);
  }

  lemma AboveRest(u: Tile, i: nat, n: nat)
    requires Joined(u) && i < |u| && Splits(u[i].size, n)
    ensures Above(FreeAddrs(u[i + 1..]), u[i].addr + HEADER + n)
  {
    var y := u[i + 1..];
    forall q | 0 <= q < |FreeAddrs(y)| ensures FreeAddrs(y)[q] > u[i].addr + HEADER + n {
      var p := FreeAddrs(y)[q];
      FreeAddrsAre(y, p);
      var k :| 0 <= k < |y| && y[k].free && y[k].addr == p;
      Ascends(u, i, i + 1 + k);
    }
  }

  // ----- merging

  function AbsorbMem(m: Memory, p: nat, more: nat, next: nat): (n: Memory)
    requires p in m
    ensures n.Keys == m.Keys
    ensures forall x :: x in m ==> n[x].free == m[x].free && n[x].size == if x == p then m[p].size + more else m[x].size
    ensures forall x :: x in m ==> n[x].next == if x == p then next else m[x].next
    ensures forall x :: x in m ==> n[x].prev == if x == next && next != 0 then p else m[x].prev
  {
    SetPrev(m[p := m[p].(size := m[p].size + more, next := next)], next, p)
  }

  lemma AbsorbIsLinked(m: Memory, head: nat, fs: seq<nat>, k: nat, more: nat)
    requires Linked(m, head, fs) && Ascending(fs) && k + 1 < |fs|
    ensures Linked(AbsorbMem(m, fs[k], more, At(fs, k + 2)), head, Removed(fs, k + 1))
  {
    var n := AbsorbMem(m, fs[k], more, At(fs, k + 2));
    hide AbsorbMem, Removed;
    RemoveLinks(fs, k + 1, n, head);
  }

  lemma AbsorbHolds(m: Memory, t: Tile, i: nat, next: nat)
    requires Joined(t) && Holds(m, t) && i + 1 < |t| && t[i].free && t[i + 1].free
    ensures Holds(AbsorbMem(m, t[i].addr, t[i + 1].Total(), next), Join(t, i))
  {
    var n := AbsorbMem(m, t[i].addr, t[i + 1].Total(), next);
    hide AbsorbMem;
    var u := Join(t, i);
    assert forall k :: 0 <= k < |u| && k != i ==> u[k] == if k < i then t[k] else t[k + 1];
    forall k | 0 <= k < |u| ensures u[k].addr in n && n[u[k].addr].size == u[k].size && n[u[k].addr].free == u[k].free {
      if k < i { AddrsDiffer(t, k, i); } else if k > i { AddrsDiffer(t, k + 1, i); }
    }
  }

  lemma JoinList(t: Tile, i: nat)
    requires i + 1 < |t| && t[i].free && t[i + 1].free
    ensures var k := |FreeAddrs(t[..i])|;
            k + 1 < |FreeAddrs(t)| && FreeAddrs(t)[k] == t[i].addr && FreeAddrs(t)[k + 1] == t[i + 1].addr
            && Removed(FreeAddrs(t), k + 1) == FreeAddrs(Join(t, i))
  {
    hide FreeAddrs, Join;
    JoinAddrs(t, i);
  }

  // The heap: headers and free list show the tiling t.
  ghost predicate Rep(m: Memory, head: nat, t: Tile, lo: nat, hi: nat) {
    0 < lo && Tiles(t, lo, hi) && Holds(m, t) && Linked(m, head, FreeAddrs(t))
  }

  // In a heap, the free block next to a free block is its neighbour in the list.
  lemma NextInList(m: Memory, head: nat, t: Tile, lo: nat, hi: nat, i: nat)
    requires Rep(m, head, t, lo, hi) && i < |t| && t[i].free
    ensures var next := m[t[i].addr].next;
            (next != 0 ==> next in m && m[next].free && next > t[i].addr)
            && (next == t[i].End() <==> i + 1 < |t| && t[i + 1].free)
            && (i + 1 < |t| && t[i + 1].free ==> next == t[i + 1].addr)
  {
    var fs, k := FreeAddrs(t), |FreeAddrs(t[..i])|;
    FreeAt(t, i);
    FreeAddrsAscend(t);
    assert m[fs[k]].next == At(fs, k + 1);
    if k + 1 < |fs| {
      FreeAddrsAre(t, fs[k + 1]);
      var x :| 0 <= x < |t| && t[x].free && t[x].addr == fs[k + 1];
      if x < i { Ascends(t, x, i); }
      if x > i + 1 { Ascends(t, i + 1, x); Ascends(t, i, i + 1); }
    }
    if i + 1 < |t| && t[i + 1].free { JoinList(t, i); Ascends(t, i, i + 1); }
  }

  lemma PrevInList(m: Memory, head: nat, t: Tile, lo: nat, hi: nat, i: nat)
    requires Rep(m, head, t, lo, hi) && i < |t| && t[i].free
    ensures var prev := m[t[i].addr].prev;
            (prev != 0 ==> prev in m && m[prev].free)
            && ((prev != 0 && prev + HEADER + m[prev].size == t[i].addr) <==> i > 0 && t[i - 1].free)
            && (i > 0 && t[i - 1].free ==> prev == t[i - 1].addr)
  {
    var fs, k := FreeAddrs(t), |FreeAddrs(t[..i])|;
    FreeAt(t, i);
    assert m[fs[k]].prev == At(fs, k - 1);
    if i > 0 && t[i - 1].free {
      JoinList(t, i - 1);
      FreeBefore(t, i);
    } else if k > 0 {
      FarBefore(t, i, k - 1);
    }
    hide FreeAddrs;
  }

  // If the block before block i is not free, the free block before it in the list ends sooner.
  lemma FarBefore(t: Tile, i: nat, k: nat)
    requires Joined(t) && i < |t| && t[i].free && !(i > 0 && t[i - 1].free)
    requires k + 1 < |FreeAddrs(t)| && FreeAddrs(t)[k + 1] == t[i].addr
    ensures exists x :: 0 <= x < |t| && t[x].free && t[x].addr == FreeAddrs(t)[k] && t[x].End() < t[i].addr
  {
    FreeAddrsAscend(t);
    FreeAddrsAre(t, FreeAddrs(t)[k]);
    hide FreeAddrs;
    var x :| 0 <= x < |t| && t[x].free && t[x].addr == FreeAddrs(t)[k];
    if x > i { Ascends(t, i, x); }
    if x < i - 1 { Ascends(t, x, i - 1); Ascends(t, i - 1, i); }
  }

  lemma FreeBefore(t: Tile, i: nat)
    requires 0 < i < |t| && t[i - 1].free
    ensures |FreeAddrs(t[..i])| == |FreeAddrs(t[..i - 1])| + 1
  {
    FreeAddrsAt(t[..i], i - 1);
    assert t[..i][..i - 1] == t[..i - 1] && t[..i][i..] == [];
  }

  lemma JoinRep(m: Memory, head: nat, t: Tile, lo: nat, hi: nat, i: nat)
    requires Rep(m, head, t, lo, hi) && i + 1 < |t| && t[i].free && t[i + 1].free
    ensures t[i].addr in m && t[i + 1].addr in m && m[t[i].addr].next == t[i + 1].addr
    ensures m[t[i + 1].addr].size == t[i + 1].size
    ensures Rep(AbsorbMem(m, t[i].addr, t[i + 1].Total(), m[t[i + 1].addr].next), head, Join(t, i), lo, hi)
  {
    hide FreeAddrs, Join, AbsorbMem, Ascending, Removed;
    var fs, k := FreeAddrs(t), |FreeAddrs(t[..i])|;
    JoinList(t, i);
    FreeAddrsAscend(t);
    assert m[fs[k]].next == At(fs, k + 1);
    assert m[fs[k + 1]].next == At(fs, k + 2);
    AbsorbIsLinked(m, head, fs, k, t[i + 1].Total());
    AbsorbHolds(m, t, i, At(fs, k + 2));
    JoinTiles(t, lo, hi, i);
  }

  // The heap in the middle of an allocation: block i has left the list.
  lemma TakenRep(m: Memory, head: nat, t: Tile, lo: nat, hi: nat, i: nat)
    requires Rep(m, head, t, lo, hi) && i < |t| && t[i].free
    ensures Ascending(FreeAddrs(t)) && |FreeAddrs(t[..i])| < |FreeAddrs(t)|
            && FreeAddrs(t)[|FreeAddrs(t[..i])|] == t[i].addr
    ensures Removed(FreeAddrs(t), |FreeAddrs(t[..i])|) == FreeAddrs(SetFree(t, i, false))
    ensures Tiles(SetFree(t, i, false), lo, hi) && HoldsBut(m, SetFree(t, i, false), i)
  {
    hide FreeAddrs, Ascending, Removed, Linked;
    FreeAt(t, i);
    FreeAddrsAscend(t);
    SetFreeTiles(t, lo, hi, i, false);
  }

  lemma PlacedUsed(t: Tile, i: nat, n: nat)
    requires i < |t| && t[i].free && t[i].size >= n
    ensures i < |Placed(t, i, n)| && Used(Placed(t, i, n)) == Used(t) + Placed(t, i, n)[i].Total()
  {
    UsedAt(t, i);
    SetFreeAddrs(t, i, false);
    if Splits(t[i].size, n) { SplitUsed(SetFree(t, i, false), i, n); }
  }

  lemma GivenBack(m: Memory, head: nat, t: Tile, lo: nat, hi: nat, i: nat)
    requires Rep(m, head, t, lo, hi) && i < |t| && !t[i].free
    ensures t[i].addr in m && t[i].addr != 0 && t[i].addr !in FreeAddrs(t) && Ascending(FreeAddrs(t))
    ensures Tiles(SetFree(t, i, true), lo, hi) && SetFree(t, i, false) == t
    ensures var n := m[t[i].addr := m[t[i].addr].(free := true)];
            Holds(n, SetFree(t, i, true)) && Linked(n, head, FreeAddrs(t))
  {
    hide FreeAddrs, Ascending;
    NotListed(t, i);
    FreeAddrsAscend(t);
    SetFreeTiles(t, lo, hi, i, true);
    if i > 0 { Ascends(t, 0, i); }
    assert SetFree(t, i, true)[i].addr == t[i].addr;
    FlagSet(m, SetFree(t, i, true), i);
    var n := m[t[i].addr := m[t[i].addr].(free := true)];
    LinkedSame(m, n, head, FreeAddrs(t));
  }

  lemma FreedUsed(t: Tile, i: nat)
    requires i < |t| && !t[i].free
    ensures Used(SetFree(t, i, true)) == Used(t) - t[i].Total()
  {
    UsedAt(t, i);
    SetFreeAddrs(t, i, true);
  }

  lemma AboveFrom(fs: seq<nat>, k: nat, b: nat)
    requires Ascending(fs) && b !in fs && k <= |fs| && (k < |fs| ==> fs[k] >= b)
    ensures Above(fs[k..], b)
  {
    assert k < |fs| ==> fs[k] in fs;
  }

  lemma TilesJoined(t: Tile, lo: nat, hi: nat)
    requires Tiles(t, lo, hi)
    ensures Joined(t)
  {
  }

  lemma FlagLinked(m: Memory, n: Memory, head: nat, fs: seq<nat>)
    requires Linked(m, head, fs) && n.Keys == m.Keys
             && forall x :: x in m ==> n[x].next == m[x].next && n[x].prev == m[x].prev
    ensures Linked(n, head, fs)
  {
  }

  lemma FirstNotNull(m: Memory, head: nat, t: Tile, lo: nat, hi: nat, i: nat)
    requires Rep(m, head, t, lo, hi)
    ensures i < |t| ==> t[i].addr > 0
  {
    if 0 < i < |t| { Ascends(t, 0, i); }
  }

  // ----- pointers

  lemma NotLive(m: Memory, head: nat, t: Tile, lo: nat, hi: nat, p: nat)
    requires Rep(m, head, t, lo, hi) && (p < HEADER || p - HEADER !in m || m[p - HEADER].free)
    ensures forall i :: PayloadOf(t, i, p) ==> t[i].free
  {
    hide Linked, Tiles;
  }

  lemma NoHeader(m: Memory, head: nat, t: Tile, lo: nat, hi: nat, p: nat)
    requires Rep(m, head, t, lo, hi)
    ensures p < HEADER || p - HEADER !in m ==> forall i :: PayloadOf(t, i, p) ==> t[i].free
  {
    hide Linked, Tiles;
  }

  lemma LiveBlock(m: Memory, t: Tile, b: nat) returns (i: nat)
    requires OthersFree(m, t) && b in m && !m[b].free
    ensures i < |t| && t[i].addr == b && !t[i].free
  {
    assert b in LiveAddrs(t);
    i :| i < |t| && t[i].addr == b && !t[i].free;
  }

  lemma OnePayload(m: Memory, head: nat, t: Tile, lo: nat, hi: nat, p: nat, i: nat)
    requires Rep(m, head, t, lo, hi) && PayloadOf(t, i, p)
    ensures forall j :: PayloadOf(t, j, p) ==> j == i
  {
    forall j | PayloadOf(t, j, p) ensures j == i {
      if j != i { AddrsDiffer(t, i, j); }
    }
  }

  // ----- krealloc

  // What krealloc of the live block i does to the blocks.
  ghost predicate Resized(t: Tile, i: nat, size: nat, t2: Tile, p: nat, q: nat)
    requires size < WORD
  {
    i < |t| &&
    if size == 0 then q == 0 && t2 == Freed(t, i)
    else
      var n := Aligned(size);
      if t[i].size >= n then q == p && t2 == Shrunk(t, i, n)
      else if n == 0 || FirstFit(t, n) == |t| then q == 0 && t2 == t
      else Moved(t, i, n, t2, q)
  }

  // And to the bytes: the old payload is copied to the new block, if there is one.
  ghost predicate ResizedBytes(t: Tile, lo: nat, bytes: seq<byte>, i: nat, size: nat, bytes2: seq<byte>, q: nat)
    requires size < WORD
  {
    i < |t| &&
    if q == 0 || t[i].size >= Aligned(size) then bytes2 == bytes
    else MovedTo(t, i, lo, bytes, bytes2, q)
  }

  // What krealloc of the free block i does: it may stay free or be cut, or its bytes go to a new block.
  ghost predicate ResizedFree(t: Tile, i: nat, size: nat, t2: Tile, p: nat, q: nat)
    requires size < WORD
  {
    i < |t| &&
    if size == 0 then q == 0 && t2 == t
    else if t[i].size >= Aligned(size) then q == p && t2 == Shrunk(t, i, Aligned(size))
    else Allocates(t, Aligned(size), t2, q)
  }

  // The call cuts a block that is free, and takes the rest off the bytes in use.
  predicate CutsFree(t: Tile, i: nat, p: nat, size: nat)
    requires size < WORD
  {
    PayloadOf(t, i, p) && t[i].free && size != 0 && Splits(t[i].size, Aligned(size))
  }

  // The payload of block i has been copied to q.
  ghost predicate MovedTo(t: Tile, i: nat, lo: nat, bytes: seq<byte>, bytes2: seq<byte>, q: nat)
    requires i < |t|
  {
    && lo <= t[i].addr && t[i].End() <= lo + |bytes| && lo <= q && q + t[i].size <= lo + |bytes|
    && bytes2 == Copied(bytes, t[i].addr + HEADER - lo, q - lo, t[i].size)
  }

  /** krealloc stays where it is if the block is large enough, and fails only if no free block is, where n
      is the size rounded up to the next multiple of eight. */
  lemma StaysOrFails(t: Tile, i: nat, size: nat, t2: Tile, p: nat, q: nat, n: nat)
    requires PayloadOf(t, i, p) && 0 < size <= WORD - 8 && Resized(t, i, size, t2, p, q)
    requires size <= n < size + 8 && n % 8 == 0
    ensures t[i].size >= n ==> q == p
    ensures t[i].size < n ==> (q == 0 <==> forall j :: 0 <= j < |t| && t[j].free ==> t[j].size < n)
    ensures q == 0 ==> t2 == t
  {
    hide Freed, Placed;
    AlignedIs(size);
  }

  /** Whatever krealloc does: if it hands out a block, this is a live one of at least that size, and it
      begins with the bytes that the old one began with, as many as fit both. */
  lemma ReallocKeeps(t: Tile, lo: nat, hi: nat, bytes: seq<byte>, i: nat, size: nat, t2: Tile, p: nat, q: nat,
                     bytes2: seq<byte>)
    requires Tiles(t, lo, hi) && |bytes| == hi - lo && PayloadOf(t, i, p) && !t[i].free && 0 < size <= WORD - 8
    requires Resized(t, i, size, t2, p, q) && ResizedBytes(t, lo, bytes, i, size, bytes2, q) && q != 0
    ensures exists b :: b in Live(t2) && b.addr + HEADER == q && b.size >= size
    ensures var m := if size < t[i].size then size else t[i].size;
            && lo <= p && p - lo + m <= |bytes| && lo <= q && q - lo + m <= |bytes| == |bytes2|
            && bytes2[q - lo .. q - lo + m] == bytes[p - lo .. p - lo + m]
  {
    hide Freed, Live, Copied, Placed, Moved;
    AlignedIs(size);
    InArea(t, lo, hi, i);
    var n := Aligned(size);
    if t[i].size >= n {
      LiveHas(t2, i);
    } else {
      MovedIsLive(t, i, n, t2, q);
      CopiedAt(bytes, p - lo, q - lo, t[i].size, if size < t[i].size then size else t[i].size);
    }
  }

  lemma MovedIsLive(t: Tile, i: nat, n: nat, t2: Tile, q: nat)
    requires i < |t| && !t[i].free && Moved(t, i, n, t2, q)
    ensures exists b :: b in Live(t2) && b.addr + HEADER == q && b.size >= n
  {
    hide Freed, Live, Placed;
    var f := FirstFit(t, n);
    var u, s := Placed(t, f, n), Shifted(t, f, n, i);
    PlacedAt(t, f, n);
    LiveHas(u, f);
    FreedLive(u, s);
    LiveOther(u, s, f);
  }

  lemma PlacedAt(t: Tile, f: nat, n: nat)
    requires f < |t| && t[f].free && t[f].size >= n
    ensures f < |Placed(t, f, n)| && Placed(t, f, n)[f].addr == t[f].addr && Placed(t, f, n)[f].size >= n
    ensures !Placed(t, f, n)[f].free
  {
  }

  lemma LiveHas(t: Tile, i: nat)
    requires i < |t| && !t[i].free
    ensures t[i] in Live(t)
  {
    hide Live;
    LiveAt(t, i);
  }

  lemma LiveOther(u: Tile, s: nat, f: nat)
    requires s < |u| && f < |u| && f != s && !u[f].free
    ensures u[f] in Live(u[..s]) + Live(u[s + 1..])
  {
    if f < s { LiveHas(u[..s], f); } else { LiveHas(u[s + 1..], f - s - 1); }
  }

  lemma CopiedAt(bytes: seq<byte>, from: nat, to: nat, n: nat, m: nat)
    requires from + n <= |bytes| && to + n <= |bytes| && m <= n
    ensures Copied(bytes, from, to, n)[to .. to + m] == bytes[from .. from + m]
  {
    var r := Copied(bytes, from, to, n);
    assert r[to .. to + n] == bytes[from .. from + n];
    assert r[to .. to + m] == r[to .. to + n][..m] && bytes[from .. from + m] == bytes[from .. from + n][..m];
  }

  lemma CopyFits(m: Memory, head: nat, t: Tile, lo: nat, hi: nat, i: nat, n: nat)
    requires Rep(m, head, t, lo, hi) && i < |t| && t[i].size < n
    ensures lo <= t[i].addr && t[i].End() <= hi
    ensures var f := FirstFit(t, n); f < |t| ==> f != i || t[i].size >= n
    ensures var f := FirstFit(t, n); f < |t| ==> 0 < lo <= t[f].addr && t[f].addr + HEADER + n <= hi
  {
    InArea(t, lo, hi, i);
    if FirstFit(t, n) < |t| { InArea(t, lo, hi, FirstFit(t, n)); }
  }

  lemma SizeInHeader(m: Memory, head: nat, t: Tile, lo: nat, hi: nat, i: nat)
    requires Rep(m, head, t, lo, hi) && i < |t|
    ensures t[i].addr in m && m[t[i].addr].size == t[i].size && m[t[i].addr].free == t[i].free && t[i].addr > 0
  {
    InArea(t, lo, hi, i);
  }

  // Taking the rest off the bytes in use is right iff the block is in use.
  lemma CutUsed(t: Tile, lo: nat, hi: nat, i: nat, n: nat)
    requires Tiles(t, lo, hi) && hi - lo < WORD && i < |t| && Splits(t[i].size, n)
    ensures (Used(t) + WORD - (t[i].size - n)) % WORD == Used(Split(t, i, n)) <==> !t[i].free
  {
    hide Tiles, Used, Split;
    InArea(t, lo, hi, i);
    Accounts(t, lo, hi);
    SplitUsed(t, i, n);
    LessMod(Used(t), t[i].size - n);
  }

  lemma LessMod(u: nat, x: nat)
    requires u < WORD && 0 < x < WORD
    ensures (u + WORD - x) % WORD == if u >= x then u - x else u + WORD - x
  {
  }

  class Allocator {
    var mem: Memory
    var freeList: nat
    var start: nat
    var end: nat
    var total: nat
    var used: nat
    var bytes: seq<byte>  // what is in the payloads, by offset into the heap area
    ghost var tile: Tile

    // Headers, list and tiling agree.
    ghost predicate Sound()
      reads this
    {
      && Rep(mem, freeList, tile, start, end)
      && total == end - start < WORD
      && |bytes| == total
      && OthersFree(mem, tile)
    }

    ghost predicate Valid()
      reads this
    {
      Sound() && used == Used(tile)
    }

    // insert_into_list_sorted.
    method Insert(b: nat, ghost fs: seq<nat>) returns (ghost k: nat)
      requires Linked(mem, freeList, fs) && Ascending(fs) && b in mem && b != 0 && b !in fs
      modifies this`mem, this`freeList
      ensures k <= |fs| && Below(fs[..k], b) && Above(fs[k..], b)
      ensures Linked(mem, freeList, Inserted(fs, k, b)) && SameBlocks(old(mem), mem)
    {
      k := 0;
      if freeList == 0 {
        InsertIsLinked(mem, freeList, fs, 0, b);
        freeList := b;
        mem := SetBoth(mem, b, 0, 0);
        return;
      }
      var cur, prev;
      cur, prev, k := Place(b, fs);
      InsertIsLinked(mem, freeList, fs, k, b);
      mem := SetBoth(mem, b, cur, prev);
      if prev != 0 {
        mem := SetNext(mem, prev, b);
      } else {
        freeList := b;
      }
      if cur != 0 { mem := SetPrev(mem, cur, b); }
    }

    // Its search for the place of b.
    method Place(b: nat, ghost fs: seq<nat>) returns (cur: nat, prev: nat, ghost k: nat)
      requires Linked(mem, freeList, fs) && Ascending(fs) && b !in fs
      ensures k <= |fs| && Below(fs[..k], b) && Above(fs[k..], b)
      ensures cur == At(fs, k) && prev == At(fs, k - 1)
    {
      hide Ascending, Above;
      cur, prev, k := freeList, 0, 0;
      while cur != 0 && cur < b
        invariant 0 <= k <= |fs| && cur == At(fs, k) && prev == At(fs, k - 1)
        invariant forall j :: 0 <= j < k ==> fs[j] < b
        decreases |fs| - k
      {
        prev := cur;
        cur := mem[cur].next;
        k := k + 1;
      }
      AboveFrom(fs, k, b);
    }

    // remove_from_list.
    method Unlink(ghost fs: seq<nat>, ghost k: nat, b: nat)
      requires Linked(mem, freeList, fs) && Ascending(fs) && k < |fs| && b == fs[k]
      modifies this`mem, this`freeList
      ensures Linked(mem, freeList, Removed(fs, k)) && SameBlocks(old(mem), mem)
    {
      RemoveIsLinked(mem, freeList, fs, k);
      var next, prev := mem[b].next, mem[b].prev;
      if prev != 0 {
        mem := SetNext(mem, prev, next);
      } else {
        freeList := next;
      }
      if next != 0 { mem := SetPrev(mem, next, prev); }
      mem := SetBoth(mem, b, 0, 0);
    }

    // find_free_block: first fit.
    method Find(n: nat) returns (b: nat)
      requires Rep(mem, freeList, tile, start, end)
      ensures b == if FirstFit(tile, n) == |tile| then 0 else tile[FirstFit(tile, n)].addr
    {
      hide FreeAddrs, Holds, Tiles, Joined, FirstFit;
      ghost var i;
      ghost var fs := FreeAddrs(tile);
      ghost var k := 0;
      var cur := freeList;
      TilesJoined(tile, start, end);
      while cur != 0
        invariant 0 <= k <= |fs| && cur == At(fs, k)
        invariant forall j :: 0 <= j < k ==> mem[fs[j]].size < n
        decreases |fs| - k
      {
        FreeFlag(mem, tile, fs[k]);
        if mem[cur].free && mem[cur].size >= n {
          i := StopIsFirstFit(mem, tile, n, k);
          return cur;
        }
        cur, k := mem[cur].next, k + 1;
      }
      i := StopIsFirstFit(mem, tile, n, k);
      b := 0;
    }

    // split_block; the block at b is number i of the tiling u, in which it is free iff it is listed.
    method Cut(b: nat, n: nat, ghost u: Tile, ghost i: nat) returns (rest: nat, ghost w: Tile)
      requires 0 < start && Tiles(u, start, end) && i < |u| && b == u[i].addr && u[i].size >= n
      requires HoldsBut(mem, u, i) && Linked(mem, freeList, FreeAddrs(u))
      modifies this`mem, this`freeList
      ensures Tiles(w, start, end) && i < |w| && w[i].addr == b && w[i].free == u[i].free
      ensures w == if Splits(u[i].size, n) then Split(u, i, n) else u
      ensures HoldsBut(mem, w, i) && Linked(mem, freeList, FreeAddrs(w))
      ensures mem[b].free == old(mem[b].free) && NoneTaken(old(mem), mem)
      ensures if Splits(u[i].size, n)
              then rest == b + HEADER + n && rest in mem && mem[rest].size == u[i].size - n - HEADER
              else rest == 0
    {
      hide FreeAddrs, Linked, Joined, Inserted, Ascending, Below, Above, CutMem, Split;
      rest, w := 0, u;
      var remaining := mem[b].size - n;
      if remaining >= HEADER + MIN_BLOCK {
        rest := b + HEADER + n;
        w := Split(u, i, n);
        SplitTiles(u, start, end, i, n);
        CutHolds(mem, u, i, n);
        SplitAt(u, i, n);
        ghost var m := mem;
        mem := CutMem(mem, b, n, rest, remaining - HEADER);
        CutLinked(m, freeList, u, i, n);
        FreeAddrsAscend(u);
        SplitNotListed(u, i, n);
        ghost var m1, k := mem, 0;
        k := Insert(rest, FreeAddrs(u));
        SplitInsert(u, i, n, k);
        HoldsButSame(m1, mem, w, i);
        CutTakesNone(m, b, n, rest, remaining - HEADER, mem);
      }
    }

    // kmalloc_init, once the heap area is known.
    constructor (lo: nat, hi: nat, area: seq<byte>)
      requires 0 < lo && lo + HEADER <= hi && hi - lo == |area| < WORD
      ensures Valid() && start == lo && end == hi && tile == [Block(lo, hi - lo - HEADER, true)]
    {
      start, end, bytes := lo, hi, area;
      mem := map[lo := Header(hi - lo - HEADER, true, 0, 0)];
      freeList := lo;
      total := hi - lo;
      used := 0;
      tile := [Block(lo, hi - lo - HEADER, true)];
      new;
      assert tile[1..] == [] && FreeAddrs(tile) == [lo];
    }

    // Gives the free block i away, which is at b, cut to n bytes.
    method Take(b: nat, n: nat, ghost i: nat)
      requires Rep(mem, freeList, tile, start, end) && i < |tile| && b == tile[i].addr && tile[i].free
               && tile[i].size >= n
      modifies this`mem, this`freeList, this`tile
      ensures Rep(mem, freeList, tile, start, end) && tile == Placed(old(tile), i, n) && i < |tile|
      ensures b == tile[i].addr && b in mem && mem[b].size == tile[i].size
      ensures forall x :: x in mem && !mem[x].free ==> x == b || (x in old(mem) && !old(mem)[x].free)
    {
      hide FreeAddrs, Linked, Ascending, Removed, Split;
      ghost var t := tile;
      TakenRep(mem, freeList, t, start, end, i);
      ghost var m := mem;
      Unlink(FreeAddrs(t), |FreeAddrs(t[..i])|, b);
      ghost var u := SetFree(t, i, false);
      HoldsButSame(m, mem, u, i);
      var rest;
      rest, tile := Cut(b, n, u, i);
      m := mem;
      mem := mem[b := mem[b].(free := false)];
      FlagSet(m, tile, i);
      FlagLinked(m, mem, freeList, FreeAddrs(tile));
    }

    /** kmalloc: first fit; the block is cut to the aligned size. */
    method KMalloc(size: nat) returns (p: nat)
      requires Valid() && size < WORD
      modifies this
      ensures Valid() && start == old(start) && end == old(end)
      ensures Allocates(old(tile), size, tile, p) && bytes == old(bytes) && (p == 0 ==> mem == old(mem))
      ensures Coalesced(old(tile)) ==> Coalesced(tile)
    {
      hide FreeAddrs, Linked, Tiles, Holds, Aligned, FirstFit, Used, Placed, Coalesced, LiveAddrs;
      if size == 0 { return 0; }
      var n := Aligned(size);
      ghost var t := tile;
      var b := Find(n);
      ghost var i := FirstFit(t, n);
      FirstNotNull(mem, freeList, t, start, end, i);
      if b == 0 { return 0; }
      Take(b, n, i);
      used := used + HEADER + mem[b].size;
      PlacedUsed(t, i, n);
      PlacedAddrs(t, i, n);
      if Coalesced(t) { PlacedCoalesced(t, i, n); }
      p := b + HEADER;
    }

    // One step of merge_free_blocks: the block at p takes in the one behind it.
    method Absorb(p: nat, next: nat, ghost i: nat)
      requires Rep(mem, freeList, tile, start, end) && i + 1 < |tile| && tile[i].free && tile[i + 1].free
      requires p == tile[i].addr && next == tile[i + 1].addr
      modifies this`mem, this`tile
      ensures Rep(mem, freeList, tile, start, end) && tile == Join(old(tile), i)
      ensures Used(tile) == old(Used(tile)) && NoneTaken(old(mem), mem)
    {
      hide FreeAddrs, Linked, Join, Tiles;
      JoinRep(mem, freeList, tile, start, end, i);
      JoinUsed(tile, i);
      mem := AbsorbMem(mem, p, HEADER + mem[next].size, mem[next].next);
      tile := Join(tile, i);
    }

    // merge_free_blocks.
    method Merge(b: nat, ghost i: nat)
      requires Rep(mem, freeList, tile, start, end) && i < |tile| && tile[i].free && b == tile[i].addr
      modifies this`mem, this`tile
      ensures Rep(mem, freeList, tile, start, end) && Used(tile) == old(Used(tile)) && NoneTaken(old(mem), mem)
      ensures tile == if i > 0 && old(tile)[i - 1].free then MergeNext(Join(old(tile), i - 1), i - 1)
                else MergeNext(old(tile), i)
    {
      hide FreeAddrs, Linked, Tiles, Used;
      ghost var t := tile;
      PrevInList(mem, freeList, tile, start, end, i);
      var blk := b;
      ghost var j := i;
      var prev := mem[b].prev;
      if prev != 0 && mem[prev].free && b == prev + HEADER + mem[prev].size {
        Absorb(prev, b, i - 1);
        blk, j := prev, i - 1;
      }
      NextInList(mem, freeList, tile, start, end, j);
      var next := mem[blk].next;
      if next != 0 && mem[next].free && next == blk + HEADER + mem[blk].size {
        Absorb(blk, next, j);
      }
    }

    /** kfree, of any pointer.  NULL, an address behind no header, and a block that is free already
        are left alone. */
    method KFree(p: nat)
      requires Valid()
      modifies this
      ensures Valid() && start == old(start) && end == old(end) && bytes == old(bytes)
      ensures forall i :: PayloadOf(old(tile), i, p) && !old(tile)[i].free ==> tile == Freed(old(tile), i)
      ensures (forall i :: PayloadOf(old(tile), i, p) ==> old(tile)[i].free) ==> tile == old(tile) && mem == old(mem)
      ensures Coalesced(old(tile)) ==> Coalesced(tile)
    {
      hide Rep, Tiles, Holds, Used, Coalesced, Freed, LiveAddrs;
      if p < HEADER || p - HEADER !in mem || mem[p - HEADER].free {
        NotLive(mem, freeList, tile, start, end, p);
        return;
      }
      ghost var t := tile;
      ghost var i := LiveBlock(mem, tile, p - HEADER);
      OnePayload(mem, freeList, tile, start, end, p, i);
      GiveBack(p - HEADER, i);
      FreedAddrs(t, i);
    }

    // Frees the live block i, at b.
    method GiveBack(b: nat, ghost i: nat)
      requires Rep(mem, freeList, tile, start, end) && used == Used(tile)
      requires i < |tile| && b == tile[i].addr && !tile[i].free
      modifies this`mem, this`freeList, this`used, this`tile
      ensures Rep(mem, freeList, tile, start, end) && used == Used(tile) && tile == Freed(old(tile), i)
      ensures NoneTaken(old(mem), mem) && (b in mem ==> mem[b].free)
      ensures Coalesced(old(tile)) ==> Coalesced(tile)
    {
      hide FreeAddrs, Linked, Tiles, Used, Ascending, Join, Inserted, Below, Above, MergeNext, Coalesced;
      ghost var t := tile;
      GivenBack(mem, freeList, t, start, end, i);
      FreedUsed(t, i);
      mem := mem[b := mem[b].(free := true)];
      used := used - (HEADER + mem[b].size);
      ghost var m, k := mem, 0;
      k := Insert(b, FreeAddrs(t));
      TilesJoined(t, start, end);
      InsertFree(t, i, k);
      HoldsSame(m, mem, SetFree(t, i, true));
      tile := SetFree(t, i, true);
      if Coalesced(t) { FreedCoalesced(t, i); }
      Merge(b, i);
    }

    /** krealloc of NULL, of the payload of block i, or of an address behind no header.  The source
        does not check that the block is live; the heap stays right iff no free block is cut, and even
        then only the bytes in use are wrong. */
    method KRealloc(p: nat, size: nat, ghost i: nat) returns (q: nat)
      requires Valid() && size < WORD
      requires p >= HEADER && p - HEADER in mem ==> PayloadOf(tile, i, p)
      modifies this
      ensures Valid() <==> !(p >= HEADER && p - HEADER in old(mem) && CutsFree(old(tile), i, p, size))
      ensures Sound() && start == old(start) && end == old(end)
      ensures !Valid() ==> used == (old(used) + WORD - (old(tile)[i].size - Aligned(size))) % WORD
      ensures p == 0 ==> Allocates(old(tile), size, tile, q) && bytes == old(bytes)
      ensures p != 0 && (p < HEADER || p - HEADER !in old(mem)) ==> q == 0 && tile == old(tile) && bytes == old(bytes)
      ensures p >= HEADER && p - HEADER in old(mem) ==>
                if old(tile)[i].free then ResizedFree(old(tile), i, size, tile, p, q)
                else Resized(old(tile), i, size, tile, p, q)
      ensures p >= HEADER && p - HEADER in old(mem) ==> ResizedBytes(old(tile), start, old(bytes), i, size, bytes, q)
    {
      hide Rep, Used, Aligned, FirstFit, Freed, Shrunk, Moved, Copied, OthersFree, Allocates;
      if p == 0 {
        q := KMalloc(size);
        return;
      }
      if size == 0 {
        NoHeader(mem, freeList, tile, start, end, p);
        if p >= HEADER && p - HEADER in mem { OnePayload(mem, freeList, tile, start, end, p, i); }
        KFree(p);
        return 0;
      }
      if p < HEADER || p - HEADER !in mem { return 0; }
      var n := Aligned(size);
      AlignedIs(size);
      SizeInHeader(mem, freeList, tile, start, end, i);
      if mem[p - HEADER].size >= n {
        Shrink(p - HEADER, n, i);
        return p;
      }
      q := Move(p, n, i);
    }

    // Takes a block of n bytes, copies block i, and frees it.
    method Move(p: nat, n: nat, ghost i: nat) returns (q: nat)
      requires Valid() && 0 < n < WORD && n == Aligned(n) && PayloadOf(tile, i, p) && tile[i].size < n
      modifies this
      ensures Valid() && start == old(start) && end == old(end)
      ensures old(tile)[i].free ==> Allocates(old(tile), n, tile, q)
      ensures !old(tile)[i].free ==> if FirstFit(old(tile), n) == |old(tile)| then q == 0 && tile == old(tile)
                                     else q != 0 && Moved(old(tile), i, n, tile, q)
      ensures if q == 0 then bytes == old(bytes) else MovedTo(old(tile), i, start, old(bytes), bytes, q)
    {
      hide Used, Aligned, FirstFit, Freed, Placed, Copied, OthersFree, Linked, Tiles, Joined;
      ghost var t := tile;
      CopyFits(mem, freeList, t, start, end, i, n);
      q := KMalloc(n);
      if q == 0 { return; }
      PlacedKeeps(t, i, n);
      ghost var k := Shifted(t, FirstFit(t, n), n, i);
      assert tile[k].addr == p - HEADER;
      bytes := Copied(bytes, p - start, q - start, mem[p - HEADER].size);
      OnePayload(mem, freeList, tile, start, end, p, k);
      KFree(p);
      assert PayloadOf(Placed(t, FirstFit(t, n), n), k, p);
    }

    // Cuts block i, at b, to n bytes.
    method Shrink(b: nat, n: nat, ghost i: nat)
      requires Valid() && i < |tile| && b == tile[i].addr && tile[i].size >= n
      modifies this`mem, this`freeList, this`used, this`tile
      ensures Sound() && tile == Shrunk(old(tile), i, n)
      ensures Valid() <==> !(old(tile)[i].free && Splits(old(tile)[i].size, n))
      ensures !Valid() ==> used == (old(used) + WORD - (old(tile)[i].size - n)) % WORD
    {
      hide FreeAddrs, Linked, Tiles, Used, LiveAddrs, Split;
      ghost var t := tile;
      var rest;
      rest, tile := Cut(b, n, t, i);
      if Splits(t[i].size, n) {
        CutUsed(t, start, end, i, n);
        SplitAddrsLive(t, i, n);
      }
      if rest != 0 {
        used := (used + WORD - (HEADER + mem[rest].size)) % WORD;
      }
      TilesJoined(tile, start, end);
      FlagSet(mem, tile, i);
    }
  }
}
