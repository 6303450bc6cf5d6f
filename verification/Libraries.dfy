/**
 Loading the libraries a program needs: which are loaded, how often, and where they are put.
 */
module Libraries {
  import opened Bytes

  const LIB_START: nat := 0x006c_0000
  const LIB_END: nat := 0x007a_0000
  const PAGE: nat := 0x1000
  const MAX_OBJS: nat := 16
  const MAX_NEEDED: nat := 16

  // A program header; "load" says that it is a PT_LOAD one.
  datatype Seg = Seg(load: bool, vaddr: nat, memsz: nat, offset: nat, filesz: nat)

  // A DT_NEEDED entry, whose name offset may lie outside the string table.
  datatype Needed = BadOffset | Lib(name: string)

  // What the loader makes of a file: "shared" says that it is a shared object with good headers,
  // "dynamic" that it has a dynamic section, and "complete" that this lies in the file and names
  // both a string and a symbol table.
  datatype File = File(size: nat, shared: bool, segs: seq<Seg>, dynamic: bool, complete: bool, needed: seq<Needed>)

  type Files = map<string, File>

  datatype Object = Object(path: string, soname: string, base: nat, span: nat, needed: seq<Needed>)

  function AlignUp(v: nat): nat { (v + (PAGE - 1)) % WORD / PAGE * PAGE }

  function PathOf(name: string): string
    requires name != []
  {
    if name[0] == '/' then name else "/lib/" + name
  }

  // ----- the extent of an image

  predicate Loads(s: Seg) { s.load && s.memsz != 0 }

  predicate SegOk(s: Seg, size: nat) {
    Loads(s) ==> (s.offset + s.filesz) % WORD <= size && (s.vaddr + s.memsz) % WORD >= s.vaddr
  }

  function MinOf(segs: seq<Seg>): nat {
    if segs == [] then WORD - 1
    else var s, m := segs[|segs| - 1], MinOf(segs[..|segs| - 1]); if Loads(s) && s.vaddr < m then s.vaddr else m
  }

  function MaxOf(segs: seq<Seg>): nat {
    if segs == [] then 0
    else
      var s, m := segs[|segs| - 1], MaxOf(segs[..|segs| - 1]);
      if Loads(s) && (s.vaddr + s.memsz) % WORD > m then (s.vaddr + s.memsz) % WORD else m
  }

  predicate SegsOk(segs: seq<Seg>, size: nat) { forall i :: 0 <= i < |segs| ==> SegOk(segs[i], size) }

  /** Every segment lies in the extent. */
  lemma {:induction false} SegInExtent(segs: seq<Seg>, size: nat, i: nat)
    requires SegsOk(segs, size) && i < |segs| && Loads(segs[i]) && segs[i].vaddr < WORD && segs[i].memsz < WORD
    ensures MinOf(segs) <= segs[i].vaddr && segs[i].vaddr + segs[i].memsz <= MaxOf(segs)
  {
    var n := |segs| - 1;
    if i < n {
      SegInExtent(segs[..n], size, i);
    }
  }

  /** And it is no larger than it has to be. */
  lemma {:induction false} ExtentTight(segs: seq<Seg>)
    ensures MinOf(segs) == WORD - 1 || exists i :: 0 <= i < |segs| && Loads(segs[i]) && segs[i].vaddr == MinOf(segs)
    ensures MaxOf(segs) == 0 ||
            exists i :: 0 <= i < |segs| && Loads(segs[i]) && (segs[i].vaddr + segs[i].memsz) % WORD == MaxOf(segs)
  {
    if segs != [] {
      var n := |segs| - 1;
      ExtentTight(segs[..n]);
      if i :| 0 <= i < n && Loads(segs[..n][i]) && segs[..n][i].vaddr == MinOf(segs[..n]) {
        assert segs[i] == segs[..n][i];
      }
      if i :| 0 <= i < n && Loads(segs[..n][i])
              && (segs[..n][i].vaddr + segs[..n][i].memsz) % WORD == MaxOf(segs[..n]) {
        assert segs[i] == segs[..n][i];
      }
      assert segs[n] == segs[|segs| - 1];
    }
  }

  predicate Acceptable(f: File) {
    && f.shared && SegsOk(f.segs, f.size) && f.dynamic
    && MinOf(f.segs) != WORD - 1 && MaxOf(f.segs) > MinOf(f.segs)
  }

  /** A shared object with a dynamic section and a segment to load is accepted if all segments to load
      lie in the file and in the address space. */
  lemma AcceptsSound(f: File, i: nat)
    requires f.shared && f.dynamic && i < |f.segs| && Loads(f.segs[i])
    requires forall k :: 0 <= k < |f.segs| && f.segs[k].load && f.segs[k].memsz > 0 ==>
               f.segs[k].offset + f.segs[k].filesz <= f.size < WORD && f.segs[k].vaddr + f.segs[k].memsz < WORD
    ensures Acceptable(f)
  {
    hide MinOf, MaxOf;
    assert SegsOk(f.segs, f.size);
    SegInExtent(f.segs, f.size, i);
  }

  // Images whose size, rounded up and added to an address below LIB_END, fits 32 bits.
  predicate Sane(fs: Files) {
    forall p :: p in fs && Acceptable(fs[p]) ==> MaxOf(fs[p].segs) - MinOf(fs[p].segs) < 0x8000_0000
  }

  // ----- load_shared_object

  // The first loaded object with the path or the soname, or the number of objects.
  function Find(objs: seq<Object>, path: string, soname: string, i: nat): (k: nat)
    requires i <= |objs|
    ensures i <= k <= |objs| && (k < |objs| ==> Is(objs[k], path, soname))
    ensures forall j :: i <= j < k ==> !Is(objs[j], path, soname)
    decreases |objs| - i
  {
    if i == |objs| || Is(objs[i], path, soname) then i else Find(objs, path, soname, i + 1)
  }

  predicate Is(o: Object, path: string, soname: string) { o.path == path || (soname != [] && o.soname == soname) }

  function Span(f: File): nat
    requires Acceptable(f)
  {
    AlignUp(MaxOf(f.segs) - MinOf(f.segs))
  }

  // Why an object that is not loaded yet cannot be.
  predicate CannotLoad(fs: Files, objs: seq<Object>, next: nat, path: string) {
    || path !in fs || !Acceptable(fs[path])
    || (AlignUp(next) + Span(fs[path])) % WORD > LIB_END
    || |objs| >= MAX_OBJS || !fs[path].complete
  }

  /** A shared object with sound headers is loaded iff there is one of sixteen places left, its image,
      in pages of 4096 bytes, fits below 0x7A0000, and its dynamic section is complete. */
  lemma LoadsIfFits(fs: Files, objs: seq<Object>, next: nat, path: string, pages: nat)
    requires path in fs && Acceptable(fs[path]) && next % 4096 == 0 && 0x006C_0000 <= next <= 0x007A_0000
    requires var bytes := MaxOf(fs[path].segs) - MinOf(fs[path].segs);
             bytes < 0x8000_0000 && 4096 * (pages - 1) < bytes <= 4096 * pages
    ensures !CannotLoad(fs, objs, next, path) <==>
              |objs| < 16 && next + 4096 * pages <= 0x007A_0000 && fs[path].complete
  {
    hide MinOf, MaxOf, SegsOk;
    AlignFits(next);
    AlignFits(MaxOf(fs[path].segs) - MinOf(fs[path].segs));
    hide AlignUp;
  }

  // Why a needed entry cannot be satisfied.
  predicate Fails(fs: Files, objs: seq<Object>, next: nat, n: Needed) {
    n.BadOffset?
    || (n.name != [] && Find(objs, PathOf(n.name), n.name, 0) == |objs|
        && CannotLoad(fs, objs, next, PathOf(n.name)))
  }

  function Recorded(f: File): seq<Needed> { if |f.needed| <= MAX_NEEDED then f.needed else f.needed[..MAX_NEEDED] }

  // ----- the invariant

  ghost predicate Unique(objs: seq<Object>) {
    forall i, j :: 0 <= i < j < |objs| ==> objs[i].path != objs[j].path && objs[i].soname != objs[j].soname
  }

  // Where the images before object i end, object 0 being the program itself.
  function EndBefore(objs: seq<Object>, i: nat): nat
    requires i <= |objs|
  {
    if i <= 1 then LIB_START else objs[i - 1].base + objs[i - 1].span
  }

  predicate Follows(objs: seq<Object>, i: nat)
    requires i < |objs|
  {
    objs[i].base == EndBefore(objs, i)
  }

  // The images lie one right behind the other, and "next" is where they end.
  ghost predicate Placed(objs: seq<Object>, next: nat) {
    && LIB_START <= next <= LIB_END && next % PAGE == 0 && next == EndBefore(objs, |objs|)
    && (forall i :: 1 <= i < |objs| ==> Follows(objs, i))
    && (forall i :: 1 <= i < |objs| ==> PlacedAt(objs[i], next))
    && forall i, j :: 1 <= i < j < |objs| ==> objs[i].base + objs[i].span <= objs[j].base
  }

  predicate PlacedAt(o: Object, next: nat) {
    o.base % PAGE == 0 && o.span % PAGE == 0 && LIB_START <= o.base && o.base + o.span <= next
  }

  // Object k was loaded because an earlier object needs it.
  ghost predicate Wanted(fs: Files, objs: seq<Object>, k: nat)
    requires k < |objs|
  {
    && objs[k].soname != [] && objs[k].path == PathOf(objs[k].soname)
    && objs[k].path in fs && Acceptable(fs[objs[k].path]) && objs[k].needed == Recorded(fs[objs[k].path])
    && MaxOf(fs[objs[k].path].segs) - MinOf(fs[objs[k].path].segs) <= objs[k].span
    && exists j :: 0 <= j < k && Lib(objs[k].soname) in objs[j].needed
  }

  ghost predicate AllWanted(fs: Files, objs: seq<Object>) { forall k :: 1 <= k < |objs| ==> Wanted(fs, objs, k) }

  ghost predicate Inv(fs: Files, objs: seq<Object>, next: nat) {
    1 <= |objs| <= MAX_OBJS && Unique(objs) && Placed(objs, next) && AllWanted(fs, objs)
  }

  // A needed entry that is there: some object has its path or its name.
  ghost predicate Satisfied(objs: seq<Object>, n: Needed) {
    n.Lib? && (n.name == [] || exists k :: 0 <= k < |objs| && Is(objs[k], PathOf(n.name), n.name))
  }

  ghost predicate AllSatisfied(objs: seq<Object>, needed: seq<Needed>) {
    forall i :: 0 <= i < |needed| ==> Satisfied(objs, needed[i])
  }

  lemma SatisfiedMore(objs: seq<Object>, more: seq<Object>, needed: seq<Needed>)
    requires AllSatisfied(objs, needed) && objs <= more
    ensures AllSatisfied(more, needed)
  {
    forall i | 0 <= i < |needed| ensures Satisfied(more, needed[i]) {
      var n := needed[i];
      assert Satisfied(objs, n);
      if n.name != [] {
        var k :| 0 <= k < |objs| && Is(objs[k], PathOf(n.name), n.name);
        assert more[k] == objs[k];
      }
    }
  }

  lemma AlignFits(v: nat)
    requires v <= WORD - PAGE
    ensures v <= AlignUp(v) < v + PAGE && AlignUp(v) % PAGE == 0
  {
  }

  lemma BasesFollow(objs: seq<Object>, o: Object)
    requires objs != [] && o.base == EndBefore(objs, |objs|) && forall i :: 1 <= i < |objs| ==> Follows(objs, i)
    ensures var us := objs + [o];
            EndBefore(us, |us|) == o.base + o.span && forall i :: 1 <= i < |us| ==> Follows(us, i)
  {
    var us := objs + [o];
    forall i | 1 <= i < |us| ensures Follows(us, i) {
      assert EndBefore(us, i) == EndBefore(objs, i);
      assert i < |objs| ==> Follows(objs, i);
    }
  }

  lemma PlaceOne(fs: Files, objs: seq<Object>, next: nat, o: Object, f: File)
    requires objs != [] && Placed(objs, next) && Acceptable(f) && MaxOf(f.segs) - MinOf(f.segs) < 0x8000_0000
    requires o.base == AlignUp(next) && o.span == Span(f) && (o.base + o.span) % WORD <= LIB_END
    ensures AlignUp(next) == next && Placed(objs + [o], o.base + o.span) && MaxOf(f.segs) - MinOf(f.segs) <= o.span
  {
    hide AlignUp, MinOf, MaxOf, Follows, EndBefore;
    AlignFits(next);
    AlignFits(MaxOf(f.segs) - MinOf(f.segs));
    var us, top := objs + [o], o.base + o.span;
    assert top < WORD;
    BasesFollow(objs, o);
    forall i, j | 1 <= i < j < |us| ensures us[i].base + us[i].span <= us[j].base {
      assert PlacedAt(us[i], next);
    }
    forall i | 1 <= i < |us| ensures PlacedAt(us[i], top) {
      assert i < |objs| ==> PlacedAt(objs[i], next);
    }
  }

  lemma WantOne(fs: Files, objs: seq<Object>, o: Object)
    requires AllWanted(fs, objs) && Wanted(fs, objs + [o], |objs|)
    ensures AllWanted(fs, objs + [o])
  {
    var us := objs + [o];
    forall k | 1 <= k < |us| ensures Wanted(fs, us, k) {
      if k < |objs| {
        assert Wanted(fs, objs, k) && us[k] == objs[k];
        var j :| 0 <= j < k && Lib(objs[k].soname) in objs[j].needed;
        assert us[j] == objs[j];
      }
    }
  }

  lemma UniqueOne(objs: seq<Object>, o: Object)
    requires Unique(objs) && o.soname != [] && forall j :: 0 <= j < |objs| ==> !Is(objs[j], o.path, o.soname)
    ensures Unique(objs + [o])
  {
  }

  // The new object fits in.
  lemma AddOne(fs: Files, objs: seq<Object>, next: nat, o: Object, j: nat)
    requires Sane(fs) && Inv(fs, objs, next) && |objs| < MAX_OBJS
    requires o.soname != [] && o.path == PathOf(o.soname) && Find(objs, o.path, o.soname, 0) == |objs|
    requires o.path in fs && Acceptable(fs[o.path]) && o.needed == Recorded(fs[o.path])
    requires o.base == AlignUp(next) && o.span == Span(fs[o.path]) && (o.base + o.span) % WORD <= LIB_END
    requires j < |objs| && Lib(o.soname) in objs[j].needed
    ensures Inv(fs, objs + [o], o.base + o.span) && o.base + o.span < WORD
  {
    hide Placed, AllWanted, AlignUp, Acceptable, Span, MinOf, MaxOf, Recorded, Wanted, PathOf;
    PlaceOne(fs, objs, next, o, fs[o.path]);
    UniqueOne(objs, o);
    NewIsWanted(fs, objs, o, j);
    WantOne(fs, objs, o);
    PlacedTop(objs + [o], o.base + o.span);
  }

  lemma NewIsWanted(fs: Files, objs: seq<Object>, o: Object, j: nat)
    requires o.soname != [] && o.path == PathOf(o.soname) && o.path in fs && Acceptable(fs[o.path])
    requires o.needed == Recorded(fs[o.path]) && MaxOf(fs[o.path].segs) - MinOf(fs[o.path].segs) <= o.span
    requires j < |objs| && Lib(o.soname) in objs[j].needed
    ensures Wanted(fs, objs + [o], |objs|)
  {
    hide Acceptable, MinOf, MaxOf, Recorded, PathOf;
    assert (objs + [o])[j] == objs[j];
  }

  lemma PlacedTop(objs: seq<Object>, next: nat)
    requires Placed(objs, next)
    ensures next < WORD
  {
  }

  class Loader {
    const fs: Files
    var objs: seq<Object>
    var nextBase: nat

    // What main sets up before it loads the needs.
    constructor (files: Files, program: Object)
      ensures fs == files && objs == [program] && nextBase == LIB_START
    {
      fs, objs, nextBase := files, [program], LIB_START;
    }

    // The loop over the program headers.
    method Extent(segs: seq<Seg>, size: nat) returns (ok: bool, lo: nat, hi: nat)
      ensures ok <==> SegsOk(segs, size)
      ensures ok ==> lo == MinOf(segs) && hi == MaxOf(segs)
    {
      lo, hi := WORD - 1, 0;
      var i := 0;
      while i < |segs|
        invariant 0 <= i <= |segs| && SegsOk(segs[..i], size) && lo == MinOf(segs[..i]) && hi == MaxOf(segs[..i])
      {
        assert segs[..i + 1][..i] == segs[..i];
        var s := segs[i];
        if Loads(s) {
          if (s.offset + s.filesz) % WORD > size { return false, 0, 0; }
          if s.vaddr < lo { lo := s.vaddr; }
          var end := (s.vaddr + s.memsz) % WORD;
          if end < s.vaddr { return false, 0, 0; }
          if end > hi { hi := end; }
        }
        i := i + 1;
      }
      assert segs[..|segs|] == segs;
      ok := true;
    }

    method Lookup(path: string, soname: string) returns (k: nat)
      ensures k == Find(objs, path, soname, 0)
    {
      k := 0;
      while k < |objs|
        invariant 0 <= k <= |objs| && Find(objs, path, soname, 0) == Find(objs, path, soname, k)
      {
        if Is(objs[k], path, soname) { return; }
        k := k + 1;
      }
    }

    /** load_shared_object, for the name that object j needs. */
    method LoadShared(path: string, soname: string, ghost j: nat) returns (slot: int)
      requires Sane(fs) && Inv(fs, objs, nextBase) && soname != [] && path == PathOf(soname)
      requires j < |objs| && Lib(soname) in objs[j].needed
      modifies this
      ensures slot < 0 <==>
                Find(old(objs), path, soname, 0) == |old(objs)| && CannotLoad(fs, old(objs), old(nextBase), path)
      ensures slot >= 0 ==> Inv(fs, objs, nextBase) && slot < |objs| && Is(objs[slot], path, soname)
      ensures slot >= 0 ==> old(objs) <= objs
    {
      hide Inv, MinOf, MaxOf, AlignUp, SegsOk;
      InvCount(fs, objs, nextBase);
      var k := Lookup(path, soname);
      if k < |objs| { return k; }
      if path !in fs || !fs[path].shared { return -1; }
      var f := fs[path];
      var ok, lo, hi := Extent(f.segs, f.size);
      if !ok || lo == WORD - 1 || hi <= lo || !f.dynamic { return -1; }
      var span, base := AlignUp(hi - lo), AlignUp(nextBase);
      if (base + span) % WORD > LIB_END { return -1; }
      ghost var next := nextBase;
      nextBase := (base + span) % WORD;
      if |objs| >= MAX_OBJS { return -1; }
      var o := Object(path, soname, base, span, Recorded(f));
      AddOne(fs, objs, next, o, j);
      objs := objs + [o];
      if !f.complete { return -1; }
      return |objs| - 1;
    }

    // One needed entry of the object at "cursor".
    method LoadName(n: Needed, ghost cursor: nat) returns (ok: bool)
      requires Sane(fs) && Inv(fs, objs, nextBase) && cursor < |objs| && n in objs[cursor].needed
      modifies this
      ensures ok <==> !Fails(fs, old(objs), old(nextBase), n)
      ensures ok ==> Inv(fs, objs, nextBase) && old(objs) <= objs && Satisfied(objs, n)
    {
      hide Inv, CannotLoad;
      if n.BadOffset? { return false; }
      if n.name == [] { return true; }
      var slot := LoadShared(PathOf(n.name), n.name, cursor);
      ok := slot >= 0;
    }

    // The inner loop of load_all_needed: everything that the object at "cursor" needs.
    method LoadFor(cursor: nat) returns (ok: bool, ghost seen: seq<Object>, ghost at: nat, ghost n: Needed)
      requires Sane(fs) && Inv(fs, objs, nextBase) && cursor < |objs|
      modifies this
      ensures ok ==> Inv(fs, objs, nextBase) && old(objs) <= objs && AllSatisfied(objs, objs[cursor].needed)
      ensures !ok ==> Inv(fs, seen, at) && old(objs) <= seen && n in seen[cursor].needed && Fails(fs, seen, at, n)
    {
      hide Inv, Satisfied, Fails;
      seen, at, n := objs, nextBase, BadOffset;
      var needed := objs[cursor].needed;
      var i := 0;
      while i < |needed|
        invariant 0 <= i <= |needed| && Inv(fs, objs, nextBase) && old(objs) <= objs
        invariant AllSatisfied(objs, needed[..i])
      {
        ghost var before := objs;
        seen, at, n := objs, nextBase, needed[i];
        assert objs[cursor] == old(objs)[cursor];
        ok := LoadName(needed[i], cursor);
        if !ok { return; }
        SatisfiedMore(before, objs, needed[..i]);
        i := i + 1;
      }
      assert needed[..|needed|] == needed;
      ok := true;
    }

    /** load_all_needed, from the program itself.  On failure, "n" is an entry that an object of
        "seen", loaded by then, needs and that cannot be loaded. */
    method LoadAllNeeded() returns (ok: bool, ghost seen: seq<Object>, ghost at: nat, ghost n: Needed)
      requires Sane(fs) && |objs| == 1 && Inv(fs, objs, nextBase)
      modifies this
      ensures ok ==> Inv(fs, objs, nextBase) && objs[0] == old(objs[0])
      ensures ok ==> forall k :: 0 <= k < |objs| ==> AllSatisfied(objs, objs[k].needed)
      ensures !ok ==> Inv(fs, seen, at) && seen[0] == old(objs[0]) && Fails(fs, seen, at, n)
      ensures !ok ==> exists k :: 0 <= k < |seen| && n in seen[k].needed
    {
      hide Inv, AllSatisfied, Fails;
      seen, at, n := objs, nextBase, BadOffset;
      InvCount(fs, objs, nextBase);
      var cursor := 0;
      while cursor < |objs|
        invariant 0 <= cursor <= |objs| && Inv(fs, objs, nextBase) && 1 <= |objs| <= MAX_OBJS && objs[0] == old(objs[0])
        invariant forall k :: 0 <= k < cursor ==> AllSatisfied(objs, objs[k].needed)
        decreases MAX_OBJS - cursor
      {
        ghost var before := objs;
        ok, seen, at, n := LoadFor(cursor);
        if !ok { return; }
        forall k | 0 <= k < cursor ensures AllSatisfied(objs, objs[k].needed) {
          assert objs[k] == before[k];
          SatisfiedMore(before, objs, before[k].needed);
        }
        InvCount(fs, objs, nextBase);
        cursor := cursor + 1;
      }
      ok := true;
    }
  }

  lemma InvCount(fs: Files, objs: seq<Object>, next: nat)
    requires Inv(fs, objs, next)
    ensures 1 <= |objs| <= MAX_OBJS
  {
  }

  // ----- what the invariant says

  // There is a chain of needs from the program to object k.
  ghost predicate Reachable(objs: seq<Object>, chain: seq<nat>, k: nat) {
    && |chain| >= 1 && chain[0] == 0 && chain[|chain| - 1] == k
    && (forall i :: 0 <= i < |chain| ==> chain[i] < |objs|)
    && forall i, j :: 0 <= i && j == i + 1 && j < |chain| ==> Lib(objs[chain[j]].soname) in objs[chain[i]].needed
  }

  /** Everything that was loaded is reachable from the program. */
  lemma {:induction false} LoadedIsReachable(fs: Files, objs: seq<Object>, next: nat, k: nat) returns (chain: seq<nat>)
    requires Inv(fs, objs, next) && k < |objs|
    ensures Reachable(objs, chain, k)
    decreases k
  {
    hide Placed, Unique, Acceptable, MinOf, MaxOf;
    if k == 0 {
      chain := [0];
    } else {
      assert Wanted(fs, objs, k);
      var j :| 0 <= j < k && Lib(objs[k].soname) in objs[j].needed;
      var before := LoadedIsReachable(fs, objs, next, j);
      chain := before + [k];
    }
  }

  /** No two images overlap, and all lie in the library area. */
  lemma ImagesDisjoint(fs: Files, objs: seq<Object>, next: nat, i: nat, j: nat, p: nat)
    requires Inv(fs, objs, next) && 1 <= i < |objs| && 1 <= j < |objs|
    requires objs[i].base <= p < objs[i].base + objs[i].span
    ensures LIB_START <= p < LIB_END && objs[i].base % PAGE == 0
    ensures objs[j].base <= p < objs[j].base + objs[j].span ==> i == j
  {
    assert PlacedAt(objs[i], next) && PlacedAt(objs[j], next);
  }

  // Where a segment of object k is loaded: the image starts with the lowest one.
  function SegBase(fs: Files, o: Object, s: Seg): int
    requires o.path in fs
  {
    o.base + (s.vaddr - MinOf(fs[o.path].segs))
  }

  /** Every segment lies in the image of its object, hence in no other image. */
  lemma SegInImage(fs: Files, objs: seq<Object>, next: nat, k: nat, i: nat)
    requires Inv(fs, objs, next) && 1 <= k < |objs| && objs[k].path in fs && i < |fs[objs[k].path].segs|
    requires var s := fs[objs[k].path].segs[i]; Loads(s) && s.vaddr < WORD && s.memsz < WORD
    ensures var o, s := objs[k], fs[objs[k].path].segs[i];
            o.base <= SegBase(fs, o, s) && SegBase(fs, o, s) + s.memsz <= o.base + o.span
    ensures var f := fs[objs[k].path]; f.shared && f.dynamic && (f.segs[i].offset + f.segs[i].filesz) % WORD <= f.size
  {
    hide Unique, Placed, MinOf, MaxOf, PathOf;
    assert Wanted(fs, objs, k);
    SegInExtent(fs[objs[k].path].segs, fs[objs[k].path].size, i);
  }

  /** A name with a slash in front is a path; any other stands for a library in /lib. */
  lemma PathIs(name: string)
    requires name != []
    ensures name[0] == '/' ==> PathOf(name) == name
    ensures name[0] != '/' ==> PathOf(name)[..5] == ['/', 'l', 'i', 'b', '/'] && PathOf(name)[5..] == name
  {
  }

  // ----- objects with more needs than are recorded

  /** If everything recorded is there, then so is everything that a library needs, if and only if
      the needs behind the sixteenth happen to be there too. */
  lemma ClosedForAll(fs: Files, objs: seq<Object>, next: nat, k: nat)
    requires Inv(fs, objs, next) && 1 <= k < |objs| && AllSatisfied(objs, objs[k].needed)
    ensures objs[k].path in fs
    ensures var all := fs[objs[k].path].needed;
            AllSatisfied(objs, all) <==> |all| <= MAX_NEEDED || AllSatisfied(objs, all[MAX_NEEDED..])
  {
    hide Unique, Placed, Acceptable, Satisfied;
    assert Wanted(fs, objs, k);
    var all := fs[objs[k].path].needed;
    if |all| > MAX_NEEDED {
      assert forall i :: MAX_NEEDED <= i < |all| ==> all[i] == all[MAX_NEEDED..][i - MAX_NEEDED];
      assert forall i :: 0 <= i < MAX_NEEDED ==> all[i] == objs[k].needed[i];
    }
  }

  // A library with one byte to load, and these needs.
  function OneByteLib(needed: seq<Needed>): File {
    File(1, true, [Seg(true, 0, 1, 0, 1)], true, true, needed)
  }

  lemma OneByteSpan(needed: seq<Needed>)
    ensures Acceptable(OneByteLib(needed)) && MinOf(OneByteLib(needed).segs) == 0 && MaxOf(OneByteLib(needed).segs) == 1
  {
    var s := Seg(true, 0, 1, 0, 1);
    assert [s][..0] == [];
    assert MaxOf([s]) == 1 && MinOf([s]) == 0;
  }

  // A library with seventeen needs, of which the last counts, and a program that needs it.
  function Sixteen(): seq<Needed> { seq(MAX_NEEDED, _ => Lib("")) }

  function LongLib(): File { OneByteLib(Sixteen() + [Lib("b")]) }

  const LONG_FILES: Files := map["/lib/a" := LongLib()]
  const LONG_PROGRAM := Object("/p", "", 0, 0, [Lib("a")])

  // Whatever is loaded, it is the program and this library.
  lemma LongLoaded(objs: seq<Object>, next: nat)
    requires Inv(LONG_FILES, objs, next) && objs[0] == LONG_PROGRAM
    ensures |objs| <= 2
    ensures |objs| == 2 ==> objs[1].path == "/lib/a" && objs[1].soname == "a" && objs[1].needed == Sixteen()
  {
    hide OneByteLib, Acceptable, MinOf, MaxOf, Placed;
    LongRecorded();
    forall k | 1 <= k < |objs| ensures objs[k].path == "/lib/a" && objs[k].needed == Sixteen() {
      assert Wanted(LONG_FILES, objs, k);
    }
    PathsDiffer(objs);
    if |objs| >= 2 {
      assert Wanted(LONG_FILES, objs, 1);
      assert Lib(objs[1].soname) in objs[0].needed;
    }
  }

  lemma PathsDiffer(objs: seq<Object>)
    requires Unique(objs)
    ensures |objs| > 2 ==> objs[1].path != objs[2].path
  {
  }

  lemma LongRecorded()
    ensures Recorded(LongLib()) == Sixteen()
  {
  }

  lemma LongLoads(objs: seq<Object>, next: nat, k: nat, n: Needed)
    requires Inv(LONG_FILES, objs, next) && objs[0] == LONG_PROGRAM && k < |objs| && n in objs[k].needed
    ensures !Fails(LONG_FILES, objs, next, n)
  {
    LongLoaded(objs, next);
    OneByteSpan(Sixteen() + [Lib("b")]);
    hide OneByteLib, Acceptable, MinOf, MaxOf;
    if n != Lib("") {
      assert n == Lib("a") && PathOf("a") == "/lib/a";
      if |objs| == 2 { assert Is(objs[1], "/lib/a", "a"); }
    }
  }

  lemma LongIsLost(objs: seq<Object>, next: nat)
    requires Inv(LONG_FILES, objs, next) && objs[0] == LONG_PROGRAM && AllSatisfied(objs, objs[0].needed)
    ensures |objs| == 2 && objs[1].path in LONG_FILES
    ensures !AllSatisfied(objs, LONG_FILES[objs[1].path].needed)
  {
    LongLoaded(objs, next);
    assert Satisfied(objs, objs[0].needed[0]);
    assert PathOf("a") == "/lib/a" && PathOf("b") == "/lib/b";
    var all := Sixteen() + [Lib("b")];
    assert all[16] == Lib("b") && !Satisfied(objs, all[16]);
  }

  /** A run of the loader that succeeds, though a need of the library it loads, the seventeenth, is
      not there. */
  method SeventeenthIsLost() returns (ok: bool, objs: seq<Object>)
    ensures ok && |objs| == 2 && objs[0] == LONG_PROGRAM && objs[1].path in LONG_FILES
    ensures !AllSatisfied(objs, LONG_FILES[objs[1].path].needed)
  {
    hide Inv, AllSatisfied, Fails;
    LongStart();
    var loader := new Loader(LONG_FILES, LONG_PROGRAM);
    ghost var seen, at, n;
    ok, seen, at, n := loader.LoadAllNeeded();
    if !ok {
      ghost var k :| 0 <= k < |seen| && n in seen[k].needed;
      LongLoads(seen, at, k, n);
      assert false;
    }
    objs := loader.objs;
    InvCount(LONG_FILES, objs, loader.nextBase);
    LongIsLost(objs, loader.nextBase);
  }

  lemma LongStart()
    ensures Sane(LONG_FILES) && Inv(LONG_FILES, [LONG_PROGRAM], LIB_START)
  {
    OneByteSpan(Sixteen() + [Lib("b")]);
  }
}
