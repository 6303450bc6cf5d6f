/**
 Relocation in the dynamic linker: what the relocated words mean, in which order they may be
 written, and when relocation succeeds.  The symbol, string and relocation tables lie in the memory
 that is relocated.
 */
module Relocate {
  import opened Bytes
  import opened Words

  // ----- objects

  // A symbol with its name, if its name offset is inside the string table.
  datatype Sym = Sym(name: Name, value: nat, shndx: nat)
  datatype Name = NoName | Named(s: seq<byte>)
  datatype Rel = Rel(offset: nat, kind: nat, sym: nat)

  const R_NONE := 0
  const R_32 := 1
  const R_PC32 := 2
  const R_GLOB_DAT := 6
  const R_JMP_SLOT := 7
  const R_RELATIVE := 8

  // An object is position independent ("dyn") or the main program; the latter has bias 0.
  datatype Obj = Obj(dyn: bool, bias: nat, syms: seq<Sym>, rel: seq<Rel>, jmprel: seq<Rel>) {
    // obj_rt_addr
    function Addr(v: nat): nat { if dyn then (bias + v) % WORD else v }
  }

  // sym_addr_from_obj
  function OwnAddr(o: Obj, i: nat): nat {
    if i >= |o.syms| || o.syms[i].shndx == 0 || o.syms[i].value == 0 then 0 else o.Addr(o.syms[i].value)
  }

  // A symbol of an object that defines the name for others.
  predicate Defines(o: Obj, i: nat, name: seq<byte>) {
    0 < i < |o.syms| && o.syms[i].shndx != 0 && o.syms[i].name == Named(name) && o.syms[i].value != 0
  }

  /** A symbol defines its name for others if it has a section and a value; symbol 0 never does. */
  lemma DefinesIs(o: Obj, i: nat, name: seq<byte>)
    requires i < |o.syms|
    ensures Defines(o, i, name) <==>
              i != 0 && o.syms[i] == Sym(Named(name), o.syms[i].value, o.syms[i].shndx)
              && o.syms[i].value > 0 && o.syms[i].shndx > 0
  {
  }

  // The first definition in an object, from symbol i on, or the number of symbols.
  function FirstIn(o: Obj, name: seq<byte>, i: nat): (k: nat)
    requires 1 <= i
    ensures i <= k && (k < |o.syms| ==> Defines(o, k, name)) && forall j :: i <= j < k ==> !Defines(o, j, name)
    decreases |o.syms| - i
  {
    if i >= |o.syms| || Defines(o, i, name) then i else FirstIn(o, name, i + 1)
  }

  function Global(objs: seq<Obj>, name: seq<byte>): nat {
    if objs == [] then 0
    else
      var k := FirstIn(objs[0], name, 1);
      if k < |objs[0].syms| then objs[0].Addr(objs[0].syms[k].value) else Global(objs[1..], name)
  }

  // The first definition in load order is symbol si of object oi.
  predicate FirstDefinition(objs: seq<Obj>, name: seq<byte>, oi: nat, si: nat) {
    && oi < |objs| && Defines(objs[oi], si, name)
    && (forall j :: 0 < j < si ==> !Defines(objs[oi], j, name))
    && (forall k, j :: 0 <= k < oi && 0 < j < |objs[k].syms| ==> !Defines(objs[k], j, name))
  }

  /** A global symbol resolves to the first definition in load order, if there is one. */
  lemma {:induction false} GlobalIs(objs: seq<Obj>, name: seq<byte>)
    ensures (exists oi: nat, si: nat ::
               FirstDefinition(objs, name, oi, si) && Global(objs, name) == objs[oi].Addr(objs[oi].syms[si].value))
            || (Global(objs, name) == 0
                && forall oi, si :: 0 <= oi < |objs| && 0 < si < |objs[oi].syms| ==> !Defines(objs[oi], si, name))
  {
    if objs != [] {
      var k := FirstIn(objs[0], name, 1);
      if k < |objs[0].syms| {
        assert FirstDefinition(objs, name, 0, k);
      } else {
        var rest := objs[1..];
        GlobalIs(rest, name);
        hide Defines, FirstIn;
        if oi: nat, si: nat :| FirstDefinition(rest, name, oi, si)
                               && Global(rest, name) == rest[oi].Addr(rest[oi].syms[si].value) {
          assert FirstDefinition(objs, name, oi + 1, si) by {
            forall x, j | 0 <= x < oi + 1 && 0 < j < |objs[x].syms| ensures !Defines(objs[x], j, name) {
              if x > 0 { assert objs[x] == rest[x - 1]; }
            }
          }
        } else {
          forall x, j | 0 <= x < |objs| && 0 < j < |objs[x].syms| ensures !Defines(objs[x], j, name) {
            if x > 0 { assert objs[x] == rest[x - 1]; }
          }
        }
      }
    }
  }

  // The value S of a relocation: the object's own definition, else the first in load order.
  function Value(objs: seq<Obj>, o: Obj, sym: nat): nat {
    var own := OwnAddr(o, sym);
    if sym == 0 || own != 0 then (if sym == 0 then 0 else own)
    else if sym < |o.syms| && o.syms[sym].name.Named? && o.syms[sym].name.s != [] then Global(objs, o.syms[sym].name.s)
    else 0
  }

  predicate Supported(kind: nat) {
    kind == R_32 || kind == R_PC32 || kind == R_GLOB_DAT || kind == R_JMP_SLOT || kind == R_RELATIVE
  }

  // A relocation that can be carried out.
  predicate Good(objs: seq<Obj>, o: Obj, r: Rel) {
    r.kind == R_NONE || (Supported(r.kind) && (r.kind == R_RELATIVE || r.sym == 0 || Value(objs, o, r.sym) != 0))
  }

  // The word a relocation leaves behind, for the original word A at place P.
  function Formula(objs: seq<Obj>, o: Obj, r: Rel, A: nat, P: nat): (x: nat)
    ensures x < WORD
  {
    var S := Value(objs, o, r.sym);
    if r.kind == R_32 then (S + A) % WORD
    else if r.kind == R_PC32 then (S + A - P) % WORD
    else if r.kind == R_RELATIVE then (o.bias + A) % WORD
    else S % WORD
  }

  // ----- what the relocations mean, on the fields

  // The address of a value in an object, in 32 bits.
  function RunAddr(o: Obj, v: nat): nat { if o.dyn then (o.bias + v) % 0x1_0000_0000 else v }

  // The object itself defines symbol i.
  predicate OwnSymbol(o: Obj, i: nat) {
    0 < i < |o.syms| && o.syms[i].shndx != 0 && o.syms[i].value != 0 && RunAddr(o, o.syms[i].value) != 0
  }

  predicate HasName(o: Obj, i: nat) { i < |o.syms| && o.syms[i].name.Named? && o.syms[i].name.s != [] }

  // S is the address of symbol "sym": where the object itself defines it, else where the first
  // object in load order does; 0 if there is no definition, and for symbol 0.
  ghost predicate SymbolIs(objs: seq<Obj>, o: Obj, sym: nat, S: nat) {
    if OwnSymbol(o, sym) then S == RunAddr(o, o.syms[sym].value)
    else if sym != 0 && HasName(o, sym) then
      var name := o.syms[sym].name.s;
      || (exists oi: nat, si: nat ::
            FirstDefinition(objs, name, oi, si) && S == RunAddr(objs[oi], objs[oi].syms[si].value))
      || (S == 0 && forall oi, si :: 0 <= oi < |objs| && 0 < si < |objs[oi].syms| ==> !Defines(objs[oi], si, name))
    else S == 0
  }

  // The word x is what R_386_32, R_386_PC32, R_386_GLOB_DAT, R_386_JMP_SLOT or R_386_RELATIVE make of
  // the word A at the place P.
  ghost predicate WordIs(objs: seq<Obj>, o: Obj, r: Rel, A: nat, P: nat, x: nat) {
    && x < 0x1_0000_0000
    && exists S: nat :: SymbolIs(objs, o, r.sym, S) && Agrees(r.kind, S, A, P, o.bias, x)
  }

  predicate Agrees(kind: nat, S: nat, A: nat, P: nat, B: nat, x: nat) {
    && (kind == 1 ==> (x - S - A) % 0x1_0000_0000 == 0)
    && (kind == 2 ==> (x + P - S - A) % 0x1_0000_0000 == 0)
    && (kind == 6 || kind == 7 ==> (x - S) % 0x1_0000_0000 == 0)
    && (kind == 8 ==> (x - B - A) % 0x1_0000_0000 == 0)
  }

  // A relocation that can be carried out: no relocation at all, or one of the five kinds, with a
  // symbol that is defined if it needs one.
  ghost predicate CanDo(objs: seq<Obj>, o: Obj, r: Rel) {
    || r.kind == 0 || r.kind == 8
    || ((r.kind == 1 || r.kind == 2 || r.kind == 6 || r.kind == 7)
        && (r.sym == 0 || exists S: nat :: S != 0 && SymbolIs(objs, o, r.sym, S)))
  }

  lemma ValueIs(objs: seq<Obj>, o: Obj, sym: nat)
    ensures SymbolIs(objs, o, sym, Value(objs, o, sym))
    ensures forall S: nat :: SymbolIs(objs, o, sym, S) ==> S == Value(objs, o, sym)
  {
    if sym != 0 && !OwnSymbol(o, sym) && HasName(o, sym) {
      var name := o.syms[sym].name.s;
      GlobalIs(objs, name);
      hide Global, Defines;
      forall S: nat | SymbolIs(objs, o, sym, S) ensures S == Global(objs, name) { OneDefinition(objs, name); }
    }
  }

  lemma OneDefinition(objs: seq<Obj>, name: seq<byte>)
    ensures forall x: nat, i: nat, y: nat, j: nat ::
              FirstDefinition(objs, name, x, i) && FirstDefinition(objs, name, y, j) ==> x == y && i == j
  {
  }

  /** The formula is the one of the five kinds of relocation. */
  lemma FormulaIs(objs: seq<Obj>, o: Obj, r: Rel, A: nat, P: nat)
    requires Supported(r.kind)
    ensures WordIs(objs, o, r, A, P, Formula(objs, o, r, A, P))
  {
    hide Value, SymbolIs;
    ValueIs(objs, o, r.sym);
    var S := Value(objs, o, r.sym);
    FormulaAgrees(objs, o, r, A, P);
  }

  lemma FormulaAgrees(objs: seq<Obj>, o: Obj, r: Rel, A: nat, P: nat)
    requires Supported(r.kind)
    ensures Agrees(r.kind, Value(objs, o, r.sym), A, P, o.bias, Formula(objs, o, r, A, P))
  {
    hide Value;
  }

  lemma GoodIs(objs: seq<Obj>, o: Obj, r: Rel)
    ensures Good(objs, o, r) <==> CanDo(objs, o, r)
  {
    hide Value, SymbolIs;
    ValueIs(objs, o, r.sym);
  }

  // ----- the work list

  datatype Item = Item(o: Obj, r: Rel) {
    function Place(): nat { o.Addr(r.offset) }
    predicate Writes() { r.kind != R_NONE }
  }

  function Step(objs: seq<Obj>, m: Memory, it: Item): Memory {
    if it.Writes() then Put(m, it.Place(), Formula(objs, it.o, it.r, Word(m, it.Place()), it.Place())) else m
  }

  function Apply(objs: seq<Obj>, m: Memory, work: seq<Item>): Memory {
    if work == [] then m else Step(objs, Apply(objs, m, work[..|work| - 1]), work[|work| - 1])
  }

  // No two places overlap.
  ghost predicate PlacesApart(work: seq<Item>) {
    forall i, j :: 0 <= i < j < |work| && work[i].Writes() && work[j].Writes() ==>
      work[i].Place() + 4 <= work[j].Place() || work[j].Place() + 4 <= work[i].Place()
  }

  predicate Covers(it: Item, a: nat) { it.Writes() && it.Place() <= a < it.Place() + 4 }

  lemma StepAt(objs: seq<Obj>, m: Memory, it: Item)
    requires it.Writes()
    ensures Word(Step(objs, m, it), it.Place()) == Formula(objs, it.o, it.r, Word(m, it.Place()), it.Place())
  {
    PutWord(m, it.Place(), Formula(objs, it.o, it.r, Word(m, it.Place()), it.Place()));
  }

  lemma StepElsewhere(objs: seq<Obj>, m: Memory, it: Item, q: nat)
    requires it.Writes() ==> it.Place() + 4 <= q || q + 4 <= it.Place()
    ensures Word(Step(objs, m, it), q) == Word(m, q)
  {
    if it.Writes() { WordElsewhere(m, it.Place(), Formula(objs, it.o, it.r, Word(m, it.Place()), it.Place()), q); }
  }

  lemma ApartPrefix(work: seq<Item>)
    requires PlacesApart(work) && work != []
    ensures PlacesApart(work[..|work| - 1])
  {
  }

  // A place that no item of the list covers keeps its word.
  lemma {:induction false} Untouched(objs: seq<Obj>, m: Memory, work: seq<Item>, q: nat)
    requires forall i :: 0 <= i < |work| && work[i].Writes() ==> work[i].Place() + 4 <= q || q + 4 <= work[i].Place()
    ensures Word(Apply(objs, m, work), q) == Word(m, q)
  {
    if work != [] {
      var n := |work| - 1;
      Untouched(objs, m, work[..n], q);
      StepElsewhere(objs, Apply(objs, m, work[..n]), work[n], q);
    }
  }

  /** Every relocated word is its formula over the word that was there at first. */
  lemma {:induction false} Meaning(objs: seq<Obj>, m: Memory, work: seq<Item>, i: nat)
    requires PlacesApart(work) && i < |work| && work[i].Writes()
    ensures Word(Apply(objs, m, work), work[i].Place()) ==
            Formula(objs, work[i].o, work[i].r, Word(m, work[i].Place()), work[i].Place())
  {
    hide Formula, Step, Word;
    var n := |work| - 1;
    var before := Apply(objs, m, work[..n]);
    if i == n {
      Untouched(objs, m, work[..n], work[n].Place());
      StepAt(objs, before, work[n]);
    } else {
      ApartPrefix(work);
      Meaning(objs, m, work[..n], i);
      assert work[..n][i] == work[i];
      StepElsewhere(objs, before, work[n], work[i].Place());
    }
  }

  /** Bytes outside all places stay as they are. */
  lemma {:induction false} OthersStay(objs: seq<Obj>, m: Memory, work: seq<Item>, a: nat)
    requires forall i :: 0 <= i < |work| ==> !Covers(work[i], a)
    ensures Get(Apply(objs, m, work), a) == Get(m, a)
  {
    if work != [] {
      var n := |work| - 1;
      OthersStay(objs, m, work[..n], a);
      var before := Apply(objs, m, work[..n]);
      assert !Covers(work[n], a);
      if work[n].Writes() {
        var place := work[n].Place();
        PutElsewhere(before, place, Formula(objs, work[n].o, work[n].r, Word(before, place), place), a);
      }
    }
  }

  /** The order of the relocations does not matter. */
  lemma OrderIndependent(objs: seq<Obj>, m: Memory, work: seq<Item>, other: seq<Item>, a: nat)
    requires PlacesApart(work) && PlacesApart(other)
    requires forall it :: it in work <==> it in other
    ensures Get(Apply(objs, m, work), a) == Get(Apply(objs, m, other), a)
  {
    hide Apply, Word, PlacesApart, Get;
    if i :| 0 <= i < |work| && Covers(work[i], a) {
      assert work[i] in other;
      var j :| 0 <= j < |other| && other[j] == work[i];
      Meaning(objs, m, work, i);
      Meaning(objs, m, other, j);
      WordBytes(Apply(objs, m, work), Apply(objs, m, other), work[i].Place(), a);
    } else {
      forall j | 0 <= j < |other| ensures !Covers(other[j], a) {
        assert other[j] in work;
      }
      OthersStay(objs, m, work, a);
      OthersStay(objs, m, other, a);
    }
  }

  // ----- relocate_all

  function ItemsOf(o: Obj, rels: seq<Rel>): (r: seq<Item>)
    ensures |r| == |rels| && forall i :: 0 <= i < |rels| ==> r[i] == Item(o, rels[i])
  {
    seq(|rels|, i requires 0 <= i < |rels| => Item(o, rels[i]))
  }

  function Table(o: Obj, jmp: bool): seq<Rel> { if jmp then o.jmprel else o.rel }

  // The relocations of one kind, object by object.
  function PassWork(objs: seq<Obj>, jmp: bool): seq<Item> {
    if objs == [] then []
    else PassWork(objs[..|objs| - 1], jmp) + ItemsOf(objs[|objs| - 1], Table(objs[|objs| - 1], jmp))
  }

  // All relocations in the order in which they are carried out.
  function Work(objs: seq<Obj>): seq<Item> { PassWork(objs, false) + PassWork(objs, true) }

  ghost predicate AllGood(objs: seq<Obj>, work: seq<Item>) {
    forall it :: it in work ==> Good(objs, it.o, it.r)
  }

  lemma {:induction false} InPass(objs: seq<Obj>, jmp: bool, i: nat)
    requires i < |objs|
    ensures forall it :: it in ItemsOf(objs[i], Table(objs[i], jmp)) ==> it in PassWork(objs, jmp)
  {
    var n := |objs| - 1;
    if i < n {
      InPass(objs[..n], jmp, i);
      assert objs[..n][i] == objs[i];
    }
  }

  lemma {:induction false} ApplyJoin(objs: seq<Obj>, m: Memory, x: seq<Item>, y: seq<Item>)
    ensures Apply(objs, m, x + y) == Apply(objs, Apply(objs, m, x), y)
  {
    if y == [] {
      assert x + y == x;
    } else {
      var n := |y| - 1;
      ApplyJoin(objs, m, x, y[..n]);
      assert (x + y)[..|x + y| - 1] == x + y[..n];
    }
  }

  // ----- the tables in memory

  // Where a loaded object has its tables, and how many entries (of the string table: bytes) they have.
  datatype Ld = Ld(dyn: bool, bias: nat, symtab: nat, symcnt: nat, strtab: nat, strsz: nat,
                   rel: nat, relCount: nat, jmprel: nat, jmpCount: nat) {
    function TableAt(jmp: bool): nat { if jmp then jmprel else rel }
    function Count(jmp: bool): nat {
      if TableAt(jmp) == 0 then 0 else if jmp then jmpCount else relCount
    }

    // The address a is in one of the tables.
    predicate InTables(a: nat) {
      || symtab <= a < symtab + 16 * symcnt || strtab <= a < strtab + strsz
      || rel <= a < rel + 8 * relCount || jmprel <= a < jmprel + 8 * jmpCount
    }
  }

  function Half(m: Memory, p: nat): nat { Get(m, p) + 0x100 * Get(m, p + 1) }

  // The bytes from p on, up to a zero byte.
  function CStr(m: Memory, p: nat): seq<byte>
    decreases WORD - p
  {
    if p >= WORD || Get(m, p) == 0 then [] else [Get(m, p)] + CStr(m, p + 1)
  }

  function NameAt(m: Memory, ld: Ld, i: nat): Name {
    var off := Word(m, ld.symtab + 16 * i);
    if 0 <= off < ld.strsz then Named(CStr(m, ld.strtab + off)) else NoName
  }

  function SymAt(m: Memory, ld: Ld, i: nat): Sym {
    Sym(NameAt(m, ld, i), Word(m, ld.symtab + 16 * i + 4), Half(m, ld.symtab + 16 * i + 14))
  }

  function RelAt(m: Memory, table: nat, i: nat): Rel {
    var info := Word(m, table + 8 * i + 4);
    Rel(Word(m, table + 8 * i), info % 0x100, info / 0x100)
  }

  function Rels(m: Memory, ld: Ld, jmp: bool): (r: seq<Rel>)
    ensures |r| == ld.Count(jmp) && forall i :: 0 <= i < |r| ==> r[i] == RelAt(m, ld.TableAt(jmp), i)
  {
    seq(ld.Count(jmp), i requires 0 <= i => RelAt(m, ld.TableAt(jmp), i))
  }

  function Syms(m: Memory, ld: Ld): (r: seq<Sym>)
    ensures |r| == ld.symcnt && forall i :: 0 <= i < |r| ==> r[i] == SymAt(m, ld, i)
  {
    seq(ld.symcnt, i requires 0 <= i => SymAt(m, ld, i))
  }

  // The object that the tables describe.
  function View(m: Memory, ld: Ld): Obj { Obj(ld.dyn, ld.bias, Syms(m, ld), Rels(m, ld, false), Rels(m, ld, true)) }

  function Views(m: Memory, lds: seq<Ld>): (r: seq<Obj>)
    ensures |r| == |lds| && forall k :: 0 <= k < |lds| ==> r[k] == View(m, lds[k])
  {
    seq(|lds|, k requires 0 <= k < |lds| => View(m, lds[k]))
  }

  /** The fields of a relocation on the bytes: eight bytes, of which the first four are the offset, the
      next one the kind and the last three the symbol. */
  lemma RelBytes(m: Memory, ld: Ld, jmp: bool, i: nat)
    requires i < ld.Count(jmp)
    ensures var p, r := ld.TableAt(jmp) + 8 * i, Table(View(m, ld), jmp)[i];
            && r.offset == Le32(Get(m, p), Get(m, p + 1), Get(m, p + 2), Get(m, p + 3))
            && r.kind == Get(m, p + 4) && r.sym == Le32(Get(m, p + 5), Get(m, p + 6), Get(m, p + 7), 0)
  {
    hide Get;
    var p := ld.TableAt(jmp) + 8 * i;
    Digits(Get(m, p + 4), Get(m, p + 5), Get(m, p + 6), Get(m, p + 7));
    var info := Word(m, p + 4);
    assert info == Get(m, p + 4) + 0x100 * Le32(Get(m, p + 5), Get(m, p + 6), Get(m, p + 7), 0);
  }

  /** The fields of a symbol: sixteen bytes, with the place of the name in the string table in front,
      then the value, and the section in the last two. */
  lemma SymBytes(m: Memory, ld: Ld, i: nat)
    requires i < ld.symcnt
    ensures var p, s := ld.symtab + 16 * i, View(m, ld).syms[i];
            var off := Le32(Get(m, p), Get(m, p + 1), Get(m, p + 2), Get(m, p + 3));
            && s.value == Le32(Get(m, p + 4), Get(m, p + 5), Get(m, p + 6), Get(m, p + 7))
            && s.shndx == Le32(Get(m, p + 14), Get(m, p + 15), 0, 0)
            && off >= 0 && (s.name.Named? <==> off < ld.strsz)
            && (s.name.Named? ==> StringAt(m, ld.strtab + off, s.name.s))
  {
    hide Get;
    StringIs(m, ld.strtab + Word(m, ld.symtab + 16 * i));
    hide CStr;
  }

  // The string at p: up to a zero byte, or to the end of the address space.
  predicate StringAt(m: Memory, p: nat, s: seq<byte>) {
    && (forall k :: 0 <= k < |s| ==> s[k] == Get(m, p + k) != 0)
    && (p + |s| >= WORD || Get(m, p + |s|) == 0)
  }

  lemma {:induction false} StringIs(m: Memory, p: nat)
    ensures StringAt(m, p, CStr(m, p))
    decreases WORD - p
  {
    if p < WORD && Get(m, p) != 0 {
      StringIs(m, p + 1);
      var t := CStr(m, p + 1);
      forall k | 0 <= k < |t| + 1 ensures CStr(m, p)[k] == Get(m, p + k) != 0 {
        if k > 0 { assert t[k - 1] == Get(m, p + 1 + (k - 1)); }
      }
    }
  }

  // The string table ends in a zero byte.
  predicate EndsInZero(m: Memory, ld: Ld) { ld.strsz > 0 ==> Get(m, ld.strtab + ld.strsz - 1) == 0 }

  ghost predicate SameTables(m: Memory, n: Memory, ld: Ld) { forall a :: ld.InTables(a) ==> Get(m, a) == Get(n, a) }

  lemma {:induction false} CStrSame(m: Memory, n: Memory, p: nat, end: nat)
    requires p <= end && Get(m, end) == 0 && forall a :: p <= a <= end ==> Get(m, a) == Get(n, a)
    ensures CStr(m, p) == CStr(n, p)
    decreases end - p
  {
    if p < end { CStrSame(m, n, p + 1, end); }
  }

  lemma SymSame(m: Memory, n: Memory, ld: Ld, i: nat)
    requires SameTables(m, n, ld) && EndsInZero(m, ld) && i < ld.symcnt
    ensures SymAt(m, ld, i) == SymAt(n, ld, i)
  {
    hide Get, CStr;
    assert forall a :: ld.symtab + 16 * i <= a < ld.symtab + 16 * i + 16 ==> ld.InTables(a);
    var off := Word(m, ld.symtab + 16 * i);
    if 0 <= off < ld.strsz { CStrSame(m, n, ld.strtab + off, ld.strtab + ld.strsz - 1); }
  }

  lemma RelSame(m: Memory, n: Memory, ld: Ld, jmp: bool, i: nat)
    requires SameTables(m, n, ld) && i < ld.Count(jmp)
    ensures RelAt(m, ld.TableAt(jmp), i) == RelAt(n, ld.TableAt(jmp), i)
  {
    hide Get;
    assert forall a :: ld.TableAt(jmp) + 8 * i <= a < ld.TableAt(jmp) + 8 * i + 8 ==> ld.InTables(a);
  }

  lemma ViewSame(m: Memory, n: Memory, ld: Ld)
    requires SameTables(m, n, ld) && EndsInZero(m, ld)
    ensures View(m, ld) == View(n, ld) && EndsInZero(n, ld)
  {
    hide SymAt, RelAt, Get, SameTables;
    forall i | 0 <= i < ld.symcnt ensures SymAt(m, ld, i) == SymAt(n, ld, i) { SymSame(m, n, ld, i); }
    forall jmp: bool, i | 0 <= i < ld.Count(jmp) ensures RelAt(m, ld.TableAt(jmp), i) == RelAt(n, ld.TableAt(jmp), i) {
      RelSame(m, n, ld, jmp, i);
    }
    assert Syms(m, ld) == Syms(n, ld) && Rels(m, ld, false) == Rels(n, ld, false)
           && Rels(m, ld, true) == Rels(n, ld, true);
    LastSame(m, n, ld);
  }

  lemma LastSame(m: Memory, n: Memory, ld: Ld)
    requires SameTables(m, n, ld) && EndsInZero(m, ld)
    ensures EndsInZero(n, ld)
  {
    if ld.strsz > 0 { assert ld.InTables(ld.strtab + ld.strsz - 1); }
  }

  // The item writes to none of the tables.
  ghost predicate OffTables(lds: seq<Ld>, it: Item) {
    it.Writes() ==> forall k, a :: 0 <= k < |lds| && it.Place() <= a < it.Place() + 4 ==> !lds[k].InTables(a)
  }

  ghost predicate AllOff(lds: seq<Ld>, work: seq<Item>) { forall it :: it in work ==> OffTables(lds, it) }

  // The memory m has tables that describe these objects.
  ghost predicate Shows(m: Memory, lds: seq<Ld>, objs: seq<Obj>) {
    Views(m, lds) == objs && forall k :: 0 <= k < |lds| ==> EndsInZero(m, lds[k])
  }

  // Relocations off the tables do not change what the tables say.
  lemma StepShows(m: Memory, lds: seq<Ld>, objs: seq<Obj>, it: Item)
    requires Shows(m, lds, objs) && OffTables(lds, it)
    ensures Shows(Step(objs, m, it), lds, objs)
  {
    hide EndsInZero, View, Formula, Word, Put, Get;
    var n := Step(objs, m, it);
    if it.Writes() {
      forall k | 0 <= k < |lds| ensures View(n, lds[k]) == View(m, lds[k]) && EndsInZero(n, lds[k]) {
        forall a | lds[k].InTables(a) ensures Get(m, a) == Get(n, a) {
          PutElsewhere(m, it.Place(), Formula(objs, it.o, it.r, Word(m, it.Place()), it.Place()), a);
        }
        ViewSame(m, n, lds[k]);
      }
      assert Views(n, lds) == objs;
    }
  }

  // Every word that the tables list has been relocated, from memory m to n.
  ghost predicate Relocated(objs: seq<Obj>, m: Memory, n: Memory) {
    forall it :: it in Work(objs) && it.Writes() ==>
      Word(n, it.Place()) == Formula(objs, it.o, it.r, Word(m, it.Place()), it.Place())
  }

  lemma AllRelocated(objs: seq<Obj>, m: Memory)
    requires PlacesApart(Work(objs))
    ensures Relocated(objs, m, Apply(objs, m, Work(objs)))
  {
    hide Apply, Formula, Word, PlacesApart, PassWork;
    var work := Work(objs);
    forall it | it in work && it.Writes()
      ensures Word(Apply(objs, m, work), it.Place()) == Formula(objs, it.o, it.r, Word(m, it.Place()), it.Place())
    {
      var i :| 0 <= i < |work| && work[i] == it;
      Meaning(objs, m, work, i);
    }
  }

  // What happened to the word that relocation i of a table of object k names.
  ghost predicate OneWord(m: Memory, n: Memory, lds: seq<Ld>, k: nat, jmp: bool, i: nat)
    requires k < |lds| && i < lds[k].Count(jmp)
  {
    var o := View(m, lds[k]);
    var r := Table(o, jmp)[i];
    var P := RunAddr(o, r.offset);
    r.kind != 0 ==> WordIs(Views(m, lds), o, r, Word(m, P), P, Word(n, P))
  }

  // All words that the tables list are what the five kinds of relocation call for.
  ghost predicate EveryWord(m: Memory, n: Memory, lds: seq<Ld>) {
    forall k: nat, jmp, i: nat :: k < |lds| && i < lds[k].Count(jmp) ==> OneWord(m, n, lds, k, jmp, i)
  }

  // All relocations that the tables list can be carried out.
  ghost predicate EveryGood(m: Memory, lds: seq<Ld>) {
    forall k: nat, jmp, i: nat :: k < |lds| && i < lds[k].Count(jmp) ==>
      CanDo(Views(m, lds), View(m, lds[k]), Table(View(m, lds[k]), jmp)[i])
  }

  lemma TablesListed(m: Memory, lds: seq<Ld>, k: nat, jmp: bool, i: nat)
    requires k < |lds| && i < lds[k].Count(jmp)
    ensures i < |Table(View(m, lds[k]), jmp)|
    ensures Item(View(m, lds[k]), Table(View(m, lds[k]), jmp)[i]) in Work(Views(m, lds))
  {
    hide RelAt, PassWork;
    var objs := Views(m, lds);
    var items := ItemsOf(objs[k], Table(objs[k], jmp));
    assert items[i] in items;
    InPass(objs, jmp, k);
  }

  lemma {:induction false} FromPass(objs: seq<Obj>, jmp: bool, it: Item)
    requires it in PassWork(objs, jmp)
    ensures exists k: nat, i: nat ::
              k < |objs| && i < |Table(objs[k], jmp)| && it == Item(objs[k], Table(objs[k], jmp)[i])
  {
    var n := |objs| - 1;
    if it in PassWork(objs[..n], jmp) {
      FromPass(objs[..n], jmp, it);
      var k: nat, i: nat :| k < n && i < |Table(objs[..n][k], jmp)|
                            && it == Item(objs[..n][k], Table(objs[..n][k], jmp)[i]);
      assert objs[..n][k] == objs[k];
    } else {
      var items := ItemsOf(objs[n], Table(objs[n], jmp));
      var i :| 0 <= i < |items| && items[i] == it;
    }
  }

  lemma AllWords(m: Memory, n: Memory, lds: seq<Ld>)
    requires Relocated(Views(m, lds), m, n) && AllGood(Views(m, lds), Work(Views(m, lds)))
    ensures EveryWord(m, n, lds)
  {
    hide View, Views, Work, WordIs, Formula, Word, Good;
    var objs := Views(m, lds);
    forall k: nat, jmp, i: nat | k < |lds| && i < lds[k].Count(jmp) ensures OneWord(m, n, lds, k, jmp, i) {
      TablesListed(m, lds, k, jmp, i);
      var o := View(m, lds[k]);
      var r := Table(o, jmp)[i];
      var P := RunAddr(o, r.offset);
      assert Item(o, r).Place() == P;
      if r.kind != 0 {
        OnlySupported(objs, o, r);
        FormulaIs(objs, o, r, Word(m, P), P);
      }
    }
  }

  lemma OnlySupported(objs: seq<Obj>, o: Obj, r: Rel)
    requires Good(objs, o, r) && r.kind != 0
    ensures Supported(r.kind)
  {
    hide Value;
  }

  lemma AllCanBe(m: Memory, lds: seq<Ld>)
    ensures AllGood(Views(m, lds), Work(Views(m, lds))) <==> EveryGood(m, lds)
  {
    hide Good, CanDo, PassWork, RelAt;
    var objs := Views(m, lds);
    forall o, r ensures Good(objs, o, r) <==> CanDo(objs, o, r) { GoodIs(objs, o, r); }
    if AllGood(objs, Work(objs)) {
      forall k: nat, jmp, i: nat | k < |lds| && i < lds[k].Count(jmp)
        ensures CanDo(objs, View(m, lds[k]), Table(View(m, lds[k]), jmp)[i])
      {
        TablesListed(m, lds, k, jmp, i);
      }
    }
    if EveryGood(m, lds) {
      forall it | it in Work(objs) ensures Good(objs, it.o, it.r) {
        FromPass(objs, it !in PassWork(objs, false), it);
      }
    }
  }

  class Linker {
    const lds: seq<Ld>
    var mem: Memory

    // sym_addr_from_obj
    method OwnAddress(ld: Ld, i: nat) returns (addr: nat)
      ensures addr == OwnAddr(View(mem, ld), i)
    {
      hide Word, Half;
      if i >= ld.symcnt { return 0; }
      var s := ld.symtab + 16 * i;
      if Half(mem, s + 14) == 0 || Word(mem, s + 4) == 0 { return 0; }
      addr := if ld.dyn then (ld.bias + Word(mem, s + 4)) % WORD else Word(mem, s + 4);
    }

    // The loop of resolve_global_symbol over the symbols of one object.
    method FindSymbol(ld: Ld, name: seq<byte>) returns (k: nat)
      ensures k == FirstIn(View(mem, ld), name, 1)
    {
      hide Word, Half, CStr;
      ghost var o := View(mem, ld);
      k := 1;
      while k < ld.symcnt
        invariant 1 <= k && FirstIn(o, name, 1) == FirstIn(o, name, k)
      {
        var s := ld.symtab + 16 * k;
        assert o.syms[k] == SymAt(mem, ld, k);
        if Half(mem, s + 14) != 0 && Word(mem, s) < ld.strsz {
          if CStr(mem, ld.strtab + Word(mem, s)) == name && Word(mem, s + 4) != 0 { return; }
        }
        k := k + 1;
      }
    }

    // resolve_global_symbol
    method ResolveGlobal(name: seq<byte>) returns (addr: nat)
      ensures addr == if name == [] then 0 else Global(Views(mem, lds), name)
    {
      hide View, FirstIn, Word;
      if name == [] { return 0; }
      ghost var objs := Views(mem, lds);
      assert objs[0..] == objs;
      var oi := 0;
      while oi < |lds|
        invariant 0 <= oi <= |lds| && Global(objs, name) == Global(objs[oi..], name)
      {
        assert objs[oi..][0] == View(mem, lds[oi]) && objs[oi..][1..] == objs[oi + 1..];
        var k := FindSymbol(lds[oi], name);
        ViewParts(mem, lds[oi]);
        if k < lds[oi].symcnt {
          var v := Word(mem, lds[oi].symtab + 16 * k + 4);
          return if lds[oi].dyn then (lds[oi].bias + v) % WORD else v;
        }
        oi := oi + 1;
      }
      addr := 0;
    }

    method SymbolValue(ld: Ld, sym: nat) returns (s: nat)
      requires sym != 0
      ensures s == Value(Views(mem, lds), View(mem, ld), sym)
    {
      hide View, Views, Global, OwnAddr, Word, CStr;
      ViewParts(mem, ld);
      s := OwnAddress(ld, sym);
      if s == 0 && sym < ld.symcnt {
        var off := Word(mem, ld.symtab + 16 * sym);
        if off < ld.strsz {
          s := ResolveGlobal(CStr(mem, ld.strtab + off));
        }
      }
    }

    // One turn of the loop of apply_rel_table.
    method ApplyOne(ld: Ld, table: nat, i: nat) returns (ok: bool)
      modifies this`mem
      ensures ok <==> Good(Views(old(mem), lds), View(old(mem), ld), RelAt(old(mem), table, i))
      ensures ok ==> mem == Step(Views(old(mem), lds), old(mem), Item(View(old(mem), ld), RelAt(old(mem), table, i)))
      ensures !ok ==> mem == old(mem)
    {
      hide Put, Word, Views, Syms, Rels, Value;
      var info := Word(mem, table + 8 * i + 4);
      var kind, sym, offset := info % 0x100, info / 0x100, Word(mem, table + 8 * i);
      var place := if ld.dyn then (ld.bias + offset) % WORD else offset;
      var A := Word(mem, place);
      var S := 0;
      if kind == R_NONE { return true; }
      if kind != R_RELATIVE && sym != 0 {
        S := SymbolValue(ld, sym);
        if S == 0 { return false; }
      }
      NoSymbol(Views(mem, lds), View(mem, ld));
      if kind == R_32 {
        mem := Put(mem, place, (S + A) % WORD);
      } else if kind == R_PC32 {
        mem := Put(mem, place, (S + A - place) % WORD);
      } else if kind == R_GLOB_DAT || kind == R_JMP_SLOT {
        mem := Put(mem, place, S % WORD);
      } else if kind == R_RELATIVE {
        mem := Put(mem, place, (ld.bias + A) % WORD);
      } else {
        return false;
      }
      ok := true;
    }

    // apply_rel_table, for object number k.
    method ApplyTable(k: nat, jmp: bool, ghost objs: seq<Obj>) returns (ok: bool)
      requires k < |lds| && Shows(mem, lds, objs) && AllOff(lds, ItemsOf(objs[k], Table(objs[k], jmp)))
      modifies this`mem
      ensures Shows(mem, lds, objs)
      ensures ok <==> AllGood(objs, ItemsOf(objs[k], Table(objs[k], jmp)))
      ensures ok ==> mem == Apply(objs, old(mem), ItemsOf(objs[k], Table(objs[k], jmp)))
    {
      hide Good, Step, Shows, OffTables, View, RelAt;
      var ld := lds[k];
      TableIs(mem, lds, objs, k, jmp);
      ghost var work := ItemsOf(objs[k], Table(objs[k], jmp));
      assert work[..0] == [];
      var i := 0;
      while i < ld.Count(jmp)
        invariant 0 <= i <= ld.Count(jmp) && Shows(mem, lds, objs)
        invariant AllGood(objs, work[..i]) && mem == Apply(objs, old(mem), work[..i])
      {
        assert work[..i + 1][..i] == work[..i] && work[i] in work;
        TableIs(mem, lds, objs, k, jmp);
        StepShows(mem, lds, objs, work[i]);
        ok := ApplyOne(ld, ld.TableAt(jmp), i);
        if !ok { return; }
        i := i + 1;
      }
      assert work[..|work|] == work;
      ok := true;
    }

    // One of the two loops of relocate_all.
    method Pass(jmp: bool, ghost objs: seq<Obj>) returns (ok: bool)
      requires Shows(mem, lds, objs) && AllOff(lds, PassWork(objs, jmp))
      modifies this`mem
      ensures Shows(mem, lds, objs)
      ensures ok <==> AllGood(objs, PassWork(objs, jmp))
      ensures ok ==> mem == Apply(objs, old(mem), PassWork(objs, jmp))
    {
      hide Good, Step, ItemsOf, View, EndsInZero, OffTables;
      assert objs[..0] == [];
      var i := 0;
      while i < |lds|
        invariant 0 <= i <= |lds| && Shows(mem, lds, objs)
        invariant AllGood(objs, PassWork(objs[..i], jmp)) && mem == Apply(objs, old(mem), PassWork(objs[..i], jmp))
      {
        InPass(objs, jmp, i);
        assert objs[..i + 1][..i] == objs[..i];
        ApplyJoin(objs, old(mem), PassWork(objs[..i], jmp), ItemsOf(objs[i], Table(objs[i], jmp)));
        ok := ApplyTable(i, jmp, objs);
        if !ok { return; }
        i := i + 1;
      }
      assert objs[..|objs|] == objs;
      ok := true;
    }

    /** relocate_all, if the relocated words are off the tables: it succeeds if and only if every
        relocation that the tables list is good; then all words have been relocated, as the tables
        said at first and as they still say. */
    method RelocateAll() returns (ok: bool)
      requires forall k :: 0 <= k < |lds| ==> EndsInZero(mem, lds[k])
      requires AllOff(lds, Work(Views(mem, lds)))
      modifies this`mem
      ensures Views(mem, lds) == Views(old(mem), lds)
      ensures ok <==> AllGood(Views(old(mem), lds), Work(Views(old(mem), lds)))
      ensures ok ==> mem == Apply(Views(old(mem), lds), old(mem), Work(Views(old(mem), lds)))
      ensures ok && PlacesApart(Work(Views(mem, lds))) ==> Relocated(Views(mem, lds), old(mem), mem)
      ensures ok <==> EveryGood(old(mem), lds)
      ensures ok && PlacesApart(Work(Views(mem, lds))) ==> EveryWord(old(mem), mem, lds)
    {
      hide Relocated, PlacesApart, EveryGood, EveryWord;
      AllCanBe(mem, lds);
      hide Good, Apply, PassWork, View, EndsInZero, OffTables;
      ghost var objs := Views(mem, lds);
      assert Shows(mem, lds, objs);
      ok := Pass(false, objs);
      if !ok { return; }
      ApplyJoin(objs, old(mem), PassWork(objs, false), PassWork(objs, true));
      ok := Pass(true, objs);
      if ok && PlacesApart(Work(objs)) {
        AllRelocated(objs, old(mem));
        AllWords(old(mem), mem, lds);
      }
    }
  }

  lemma ViewParts(m: Memory, ld: Ld)
    ensures var o := View(m, ld);
            && o.dyn == ld.dyn && o.bias == ld.bias && |o.syms| == ld.symcnt
            && forall i :: 0 <= i < ld.symcnt ==> o.syms[i] == SymAt(m, ld, i)
  {
  }

  lemma NoSymbol(objs: seq<Obj>, o: Obj)
    ensures Value(objs, o, 0) == 0
  {
  }

  lemma TableIs(m: Memory, lds: seq<Ld>, objs: seq<Obj>, k: nat, jmp: bool)
    requires Shows(m, lds, objs) && k < |lds|
    ensures |objs| == |lds| && objs == Views(m, lds) && objs[k] == View(m, lds[k])
            && |Table(objs[k], jmp)| == lds[k].Count(jmp)
    ensures forall i :: 0 <= i < lds[k].Count(jmp) ==> Table(objs[k], jmp)[i] == RelAt(m, lds[k].TableAt(jmp), i)
  {
    hide RelAt;
  }
}
