/**
 The byte-offset system calls over the whole-file operations of a FAT32 volume.
 */
module OffsetFiles {
  import opened Bytes
  import opened Fat32Chains
  import opened Fat32Volume
  import opened Fat32Dirs
  import opened Fat32State
  import opened Fat32Files
  import opened Fat32Crash
  import opened Fat32Append
  import opened Fat32Steps
  import opened Fat32Lookup
  import opened Fat32Driver
  import opened ByteFiles

  const ENOMEM := 12
  const EIO := 5
  const ENOTSUP := 95

  // A file that is as long as its entry says.
  lemma ContentSize(g: Geometry, v: Vol, a: Abs, l: Loc, e: Slot)
    requires Inv(g, v, a) && RealOk(g, a, l, e) && !IsDir(e)
    ensures |Content(g, v, e)| == Size(e)
  {
    hide Inv, RealOk, Content, IsChain, First, Size, IsDir;
    InvRange(g, v, a);
    FileChain(g, v, a, l, e);
    if First(e) < 2 {
      NoContent(g, v, e);
    } else {
      var ch := a.t.chain[First(e)];
      ContentOfChain(g, v, e, ch);
      BodySize(g, v, ch, Size(e));
    }
  }

  // The bytes of the file a path names.
  function Contents(g: Geometry, v: Vol, path: seq<Name>): seq<byte>
    requires Shape(g, v) && |path| >= 1
  {
    var r := ReadPath(g, v, path);
    if r.Some? then r.value else []
  }

  // What SYS_WRITE does, from volume v and history tr to w and tr2.  "n" is what the whole-file
  // write returned: when the new size is no signed number the call reports an error, although
  // the file has been written.  When the old size is none already, the read before fails.
  ghost predicate WriteCall(g: Geometry, v: Vol, tr: seq<Vol>, w: Vol, tr2: seq<Vol>, path: seq<Name>, off: nat,
                            op: FdOp, r: int, next: nat, n: int, sw: nat)
    requires op.Write?
  {
    && g.Valid() && Shape(g, v) && Shape(g, w) && |path| >= 1
    && var t, f := Target(g, v, path), File(Contents(g, v, path), off);
       if op.data == [] then r == 0 && next == off && w == v && tr2 == tr
       else if t.None? then r == -EIO && next == off && w == v && tr2 == tr
       else if !op.room then r == -ENOMEM && next == off && w == v && tr2 == tr
       else if |f.all| >= LIMIT then r == -EIO && next == off && w == v && tr2 == tr
       else
         && WriteOutcome(g, v, tr, w, tr2, t, Overlay(f.all, f.Pos(op.append), op.data), n, sw)
         && r == (if n < 0 then -EIO else |op.data|)
         && next == (if n < 0 then off else f.Pos(op.append) + |op.data|)
  }

  // A write does not wrap around 32 bits.
  ghost predicate Fits32(g: Geometry, f: File, op: FdOp) {
    op.Write? ==> Larger(|f.all|, f.Pos(op.append) + |op.data|) + g.ClusterBytes() <= WORD
  }

  // Why a call on a file is refused, in a volume w.
  ghost predicate Refused(g: Geometry, w: Vol, f: File, op: FdOp, code: int) {
    && g.Valid() && Shape(g, w)
    && match op
       case Write(data, append, room) =>
         var size := |Overlay(f.all, f.Pos(append), data)|;
         data != []
         && if room then code == -EIO && (size >= LIMIT || Needs(g, size) > |FreeSet(g, w)|) else code == -ENOMEM
       case Read(n, room) =>
         n > 0 && f.off < |f.all| && if room then code == -EIO && |f.all| >= LIMIT else code == -ENOMEM
       case Seek(_, _) => false
  }

  // The bytes in the file after a refused call: those of before, unless a write went through but
  // left a file whose size is no signed number.
  ghost predicate LeftBy(f: File, op: FdOp, code: int, all: seq<byte>) {
    || all == f.all
    || (op.Write? && op.room && code == -EIO && all == Overlay(f.all, f.Pos(op.append), op.data)
        && |f.all| < LIMIT <= |all|)
  }

  // A descriptor for a path of a mounted volume.
  class OpenFile {
    const d: Driver
    const path: seq<Name>
    var offset: nat

    ghost predicate Valid()
      reads this, d
    {
      d.Valid() && Shape(d.g, d.vol) && ThroughDirs(d.g, d.vol, d.g.root, path)
    }

    ghost function View(): File
      requires Shape(d.g, d.vol) && |path| >= 1
      reads this, d
    {
      File(Contents(d.g, d.vol, path), offset)
    }

    constructor (driver: Driver, name: seq<Name>)
      requires driver.Valid() && Shape(driver.g, driver.vol) && ThroughDirs(driver.g, driver.vol, driver.g.root, name)
      ensures Valid() && d == driver && path == name && offset == 0
    {
      d, path, offset := driver, name, 0;
    }

    // get_info, as far as the calls below need it: the size of a file.
    method FileSize() returns (size: Option<nat>)
      requires Valid()
      ensures |path| >= 1 && (size.Some? ==> size.value < WORD)
      ensures size == if Target(d.g, d.vol, path).Some? then Some(|Contents(d.g, d.vol, path)|) else None
    {
      InvShape(d.g, d.vol, d.abs);
      hide Inv, RealOk, Resolve, ThroughDirs, Content;
      var r := d.Lookup(path);
      if r.None? || IsDir(SlotAt(d.g, d.vol, r.value)) { return None; }
      ContentSize(d.g, d.vol, d.abs, r.value, SlotAt(d.g, d.vol, r.value));
      SizeBound(SlotAt(d.g, d.vol, r.value));
      return Some(Size(SlotAt(d.g, d.vol, r.value)));
    }

    /** SYS_READ. */
    method SysRead(op: FdOp) returns (r: int, data: seq<byte>)
      requires Valid() && op.Read?
      modifies this
      ensures Valid() && |path| >= 1
      ensures var f := old(View());
              if op.n == 0 then r == 0 && data == [] && offset == f.off
              else if Target(d.g, d.vol, path).None? then r == -EIO && data == [] && offset == f.off
              else if f.off < |f.all| && (!op.room || |f.all| >= LIMIT) then
                r == (if op.room then -EIO else -ENOMEM) && data == [] && offset == f.off
              else (Result(r, data), File(f.all, offset)) == Step(f, op)
    {
      hide Driver.Valid, ThroughDirs, Resolve, Content, Signed;
      data := [];
      PathNotEmpty(d.g, d.vol, d.g.root, path);
      if op.n == 0 { return 0, data; }
      var size := FileSize();
      if size.None? { return -EIO, data; }
      if offset >= size.value { return 0, data; }
      if !op.room { return -ENOMEM, data; }
      var k := if op.n < size.value - offset then op.n else size.value - offset;
      var m, all := d.ReadFile(path, size.value);
      assert all == Contents(d.g, d.vol, path);
      SignedIs(size.value);
      if m < 0 { return -EIO, data; }
      data := all[offset .. offset + k];
      offset := offset + k;
      r := k;
    }

    /** SYS_WRITE. */
    method SysWrite(op: FdOp) returns (r: int, ghost n: int, ghost sw: nat)
      requires Valid() && op.Write? && |path| >= 1 && Fits32(d.g, View(), op)
      modifies this, d
      ensures Valid()
      ensures WriteCall(d.g, old(d.vol), old(d.trace), d.vol, d.trace, path, old(offset), op, r, offset, n, sw)
      ensures r < 0 ==> (r == -12 || r == -5) && offset == old(offset)
      ensures r == -12 <==> op.data != [] && Target(d.g, old(d.vol), path).Some? && !op.room
      ensures r >= 0 ==> r == |op.data|
    {
      hide Inv, Driver.OnDisk, ThroughDirs, ReadPath, Overlay, NamesKept, FreeSet, Needs, OldImage, NewImage, TableOk,
           OwnInRange;
      hide ReadsOld, ReadsNew, Resolve, Signed;
      InvShape(d.g, d.vol, d.abs);
      n, sw := 0, 0;
      if op.data == [] { return 0, n, sw; }
      var size := FileSize();
      if size.None? { return -EIO, n, sw; }
      if !op.room { return -ENOMEM, n, sw; }
      var pos := if op.append then size.value else offset;
      var m, all := d.ReadFile(path, size.value);
      TargetReads(d.g, d.vol, path);
      SameBytes(d.g, d.vol, path, all, size.value);
      SignedIs(size.value);
      if size.value > 0 && m < 0 { return -EIO, n, sw; }
      var buf := Assemble(all, pos, op.data);
      ghost var v := d.vol;
      var written;
      written, sw := d.WriteFile(path, buf);
      n := written;
      InvShape(d.g, d.vol, d.abs);
      StillThrough(d.g, v, d.vol, path, Target(d.g, v, path), buf, n);
      if written < 0 { return -EIO, n, sw; }
      offset := pos + |op.data|;
      r := |op.data|;
    }

    /** SYS_LSEEK. */
    method SysSeek(op: FdOp) returns (r: int)
      requires Valid() && op.Seek?
      modifies this
      ensures Valid() && |path| >= 1
      ensures var f := old(View());
              if Resolve(d.g, d.vol, d.g.root, path).None? then r == -EIO && offset == f.off
              else if Target(d.g, d.vol, path).None? then r == -ENOTSUP && offset == f.off
              else (Result(r, []), File(f.all, offset)) == Step(f, op)
    {
      hide Driver.OnDisk, Inv, ThroughDirs, Resolve, ReadPath, Signed, RealOk;
      PathNotEmpty(d.g, d.vol, d.g.root, path);
      var e := d.Lookup(path);
      if e.None? { return -EIO; }
      var size := FileSize();
      if size.None? { return -ENOTSUP; }
      var np: int;
      if op.whence == 0 { np := Signed(op.off); }
      else if op.whence == 1 { np := Signed(op.off + Signed(offset)); }
      else if op.whence == 2 { np := Signed(op.off + Signed(size.value)); }
      else { return -EINVAL; }
      if np < 0 { return -EINVAL; }
      offset := np;
      r := np;
    }

    // One call on a file: it goes through, or is refused with ENOMEM or EIO.
    method Call(op: FdOp, ghost l: Loc) returns (r: Result, ok: bool)
      requires Valid() && |path| >= 1 && Target(d.g, d.vol, path) == Some(l) && Fits32(d.g, View(), op)
      modifies this, d
      ensures Valid() && Target(d.g, d.vol, path) == Some(l)
      ensures ReadsNew(d.g, old(d.vol), d.vol, l, View().all)
      ensures ok ==> (r, View()) == Step(old(View()), op)
      ensures !ok ==> offset == old(offset) && Refused(d.g, d.vol, old(View()), op, r.code)
      ensures !ok ==> LeftBy(old(View()), op, r.code, View().all)
    {
      hide Driver.OnDisk, Inv, ThroughDirs, ReadPath, Overlay, FreeSet, Needs, OldImage, NewImage, ReadsOld, ReadsNew,
           Resolve, Signed;
      ghost var v, f := d.vol, View();
      SameNew(d.g, v, path, l);
      match op {
        case Seek(_, _) =>
          var code := SysSeek(op);
          r, ok := Result(code, []), true;
        case Read(n, room) =>
          var code, data := SysRead(op);
          r := Result(code, data);
          ok := !(n > 0 && code < 0);
          InvShape(d.g, d.vol, d.abs);
        case Write(data, append, room) =>
          ghost var n, sw;
          var code;
          code, n, sw := SysWrite(op);
          r, ok := Result(code, []), code >= 0;
          AfterWrite(d.g, v, old(d.trace), d.vol, d.trace, path, l, f, op, code, offset, n, sw);
      }
    }

    /** A run of calls on a file does what the run does to a byte array, up to the first call that
        is refused for want of memory or space; all other files are as they were. */
    method RunCalls(ops: seq<FdOp>, ghost l: Loc) returns (results: seq<Result>, k: nat, code: int)
      requires Valid() && |path| >= 1 && Target(d.g, d.vol, path) == Some(l)
      requires forall i :: 0 <= i < |ops| ==> Fits32(d.g, Run(View(), ops[..i]).1, ops[i])
      modifies this, d
      ensures Valid() && k <= |ops| && ReadsNew(d.g, old(d.vol), d.vol, l, View().all)
      ensures var run := Run(old(View()), ops[..k]);
              && results == run.0 && offset == run.1.off
              && (k == |ops| ==> code == 0 && View() == run.1)
              && (k < |ops| ==> Refused(d.g, d.vol, run.1, ops[k], code) && LeftBy(run.1, ops[k], code, View().all))
    {
      hide Driver.Valid, ThroughDirs, ReadPath, Step, Run, Refused, LeftBy, Fits32, ReadsNew, Resolve;
      ghost var v0, f0 := d.vol, View();
      SameNew(d.g, v0, path, l);
      RunNone(f0);
      results, k, code := [], 0, 0;
      assert ops[..0] == [];
      while k < |ops|
        invariant 0 <= k <= |ops| && Valid() && Target(d.g, d.vol, path) == Some(l) && code == 0
        invariant ReadsNew(d.g, v0, d.vol, l, View().all) && Run(f0, ops[..k]) == (results, View())
      {
        ghost var v1, f1 := d.vol, View();
        RunNext(f0, ops, k);
        var r, ok := Call(ops[k], l);
        NewAgain(d.g, v0, v1, d.vol, l, f1.all, View().all);
        if !ok {
          code := r.code;
          return;
        }
        results, k := results + [r], k + 1;
      }
      assert ops[..k] == ops;
    }
  }

  // ----- how images follow each other

  lemma SameNew(g: Geometry, v: Vol, path: seq<Name>, l: Loc)
    requires Shape(g, v) && |path| >= 1 && Target(g, v, path) == Some(l)
    ensures ReadsNew(g, v, v, l, Contents(g, v, path))
  {
    hide Resolve, Content, ThroughDirs;
    forall p | ThroughDirs(g, v, g.root, p)
      ensures |p| >= 1 && SamePath(g, v, v, p)
      ensures ReadPath(g, v, p) == if Resolve(g, v, g.root, p) == Some(l) then Some(Contents(g, v, path))
                else ReadPath(g, v, p)
    {
      PathNotEmpty(g, v, g.root, p);
    }
  }

  /** Two changes of one file are one. */
  lemma NewAgain(g: Geometry, v: Vol, w: Vol, x: Vol, l: Loc, a: seq<byte>, b: seq<byte>)
    requires ReadsNew(g, v, w, l, a) && ReadsNew(g, w, x, l, b)
    ensures ReadsNew(g, v, x, l, b)
  {
    hide Resolve, ReadPath, ThroughDirs;
    forall p | ThroughDirs(g, v, g.root, p)
      ensures |p| >= 1 && SamePath(g, v, x, p)
      ensures ReadPath(g, x, p) == if Resolve(g, v, g.root, p) == Some(l) then Some(b) else ReadPath(g, v, p)
    {
      PathNotEmpty(g, v, g.root, p);
      assert SamePath(g, v, w, p) && SamePath(g, w, x, p);
    }
  }

  lemma AfterWrite(g: Geometry, v: Vol, tr: seq<Vol>, w: Vol, tr2: seq<Vol>, path: seq<Name>, l: Loc, f: File, op: FdOp,
                   r: int, next: nat, n: int, sw: nat)
    requires op.Write? && WriteCall(g, v, tr, w, tr2, path, f.off, op, r, next, n, sw)
             && ThroughDirs(g, v, g.root, path)
    requires Target(g, v, path) == Some(l) && f.all == Contents(g, v, path) && Fits32(g, f, op)
    ensures Target(g, w, path) == Some(l) && ReadsNew(g, v, w, l, Contents(g, w, path))
    ensures r >= 0 ==> (Result(r, []), File(Contents(g, w, path), next)) == Step(f, op)
    ensures r < 0 ==> next == f.off && Refused(g, w, f, op, r) && LeftBy(f, op, r, Contents(g, w, path))
  {
    hide Resolve, ReadPath, ThroughDirs, Overlay, FreeSet, Needs, OldImage, NewImage;
    if op.data == [] || !op.room || |f.all| >= LIMIT {
      SameNew(g, v, path, l);
    } else {
      var out := Overlay(f.all, f.Pos(op.append), op.data);
      SignedIs(|out|);
      WriteKeeps(g, v, w, path, l, out, n);
      if n == -1 { FreeSame(g, v, w); }
    }
  }

  lemma FreeSame(g: Geometry, v: Vol, w: Vol)
    requires Shape(g, v) && Shape(g, w) && w.fats == v.fats
    ensures FreeSet(g, w) == FreeSet(g, v)
  {
  }

  lemma WriteKeeps(g: Geometry, v: Vol, w: Vol, path: seq<Name>, l: Loc, out: seq<byte>, n: int)
    requires Shape(g, v) && |path| >= 1 && ThroughDirs(g, v, g.root, path) && Target(g, v, path) == Some(l)
    requires if n == -1 then ReadsOld(g, v, w) else ReadsNew(g, v, w, l, out)
    ensures Shape(g, w) && Target(g, w, path) == Some(l) && ReadsNew(g, v, w, l, Contents(g, w, path))
    ensures Contents(g, w, path) == if n == -1 then Contents(g, v, path) else out
  {
    hide Resolve, Content, ThroughDirs;
    StillThrough(g, v, w, path, Some(l), out, n);
    TargetReads(g, w, path);
    if n == -1 { OldIsNew(g, v, w, path, l); }
  }

  lemma OldIsNew(g: Geometry, v: Vol, w: Vol, path: seq<Name>, l: Loc)
    requires Shape(g, v) && |path| >= 1 && Target(g, v, path) == Some(l) && ReadsOld(g, v, w)
    ensures ReadsNew(g, v, w, l, Contents(g, v, path))
  {
    SameNew(g, v, path, l);
    hide Resolve, ReadPath, ThroughDirs, Target;
    forall p | ThroughDirs(g, v, g.root, p)
      ensures |p| >= 1 && SamePath(g, v, w, p)
      ensures ReadPath(g, w, p) == if Resolve(g, v, g.root, p) == Some(l) then Some(Contents(g, v, path))
                else ReadPath(g, v, p)
    {
      PathNotEmpty(g, v, g.root, p);
    }
  }

  lemma SizeBound(e: Slot)
    ensures Size(e) < WORD
  {
  }

  lemma TargetReads(g: Geometry, v: Vol, path: seq<Name>)
    requires Shape(g, v) && |path| >= 1
    ensures Target(g, v, path).Some? <==> ReadPath(g, v, path).Some?
  {
    hide Content, Resolve;
  }

  lemma SignedIs(n: nat)
    ensures n < LIMIT ==> Signed(n) == n
    ensures LIMIT <= n < WORD ==> Signed(n) < 0
  {
  }

  lemma SameBytes(g: Geometry, v: Vol, path: seq<Name>, all: seq<byte>, size: nat)
    requires Shape(g, v) && |path| >= 1 && ReadPath(g, v, path).Some? && all == Take(ReadPath(g, v, path).value, size)
    requires size == |Contents(g, v, path)|
    ensures all == Contents(g, v, path)
  {
    hide ReadPath;
  }

  // The path leads through directories still.
  lemma StillThrough(g: Geometry, v: Vol, w: Vol, path: seq<Name>, t: Option<Loc>, buf: seq<byte>, n: int)
    requires Shape(g, v) && |path| >= 1 && ThroughDirs(g, v, g.root, path)
    requires if n == -1 then ReadsOld(g, v, w) else t.Some? && ReadsNew(g, v, w, t.value, buf)
    ensures Shape(g, w) && SamePath(g, v, w, path)
    ensures n == -1 ==> ReadPath(g, w, path) == ReadPath(g, v, path)
    ensures n != -1 && t == Resolve(g, v, g.root, path) ==> ReadPath(g, w, path) == Some(buf)
  {
    hide ThroughDirs, Resolve, ReadPath;
  }

  // The buffer of SYS_WRITE: zeroed, filled with the file, and then with the data.
  method Assemble(all: seq<byte>, pos: nat, data: seq<byte>) returns (buf: seq<byte>)
    ensures buf == Overlay(all, pos, data)
  {
    buf := all + Zeros(Larger(|all|, pos + |data|) - |all|);
    buf := buf[..pos] + data + buf[pos + |data|..];
  }
}
