/**
 Sequences of sector writes: how far the images on the way may differ from the first one, chains
 under construction, and the two halves of a file write.
 */
module Fat32Steps {
  import opened Bytes
  import opened Fat32Chains
  import opened Fat32Volume
  import opened Fat32Dirs
  import opened Fat32State
  import opened Fat32Files
  import opened Fat32Crash

  // w differs from v at most in the clusters T.
  ghost predicate Only(g: Geometry, v: Vol, w: Vol, T: set<nat>)
    requires Shape(g, v)
  {
    && Shape(g, w)
    && forall c :: 2 <= c <= g.maxCluster && c !in T ==> w.fats[0][c] == v.fats[0][c] && w.data[c] == v.data[c]
  }

  // From volume v and write history tr the driver got to w and tr2, and no image on the way
  // differs from v outside T.
  ghost predicate Steps(g: Geometry, v: Vol, tr: seq<Vol>, w: Vol, tr2: seq<Vol>, T: set<nat>)
    requires Shape(g, v)
  {
    && Only(g, v, w, T)
    && tr <= tr2
    && forall i :: |tr| <= i < |tr2| ==> Only(g, v, tr2[i], T)
  }

  lemma OnlyJoin(g: Geometry, v: Vol, w: Vol, x: Vol, S: set<nat>, T: set<nat>)
    requires Shape(g, v) && Only(g, v, w, S) && Only(g, w, x, T)
    ensures Only(g, v, x, S + T)
  {
  }

  lemma StepsJoin(g: Geometry, v: Vol, tr: seq<Vol>, w: Vol, tr2: seq<Vol>, x: Vol, tr3: seq<Vol>, S: set<nat>,
                  T: set<nat>)
    requires Shape(g, v) && Steps(g, v, tr, w, tr2, S) && Steps(g, w, tr2, x, tr3, T)
    ensures Steps(g, v, tr, x, tr3, S + T)
  {
    OnlyJoin(g, v, w, x, S, T);
    forall i | |tr| <= i < |tr3| ensures Only(g, v, tr3[i], S + T) {
      if i < |tr2| {
        assert tr3[i] == tr2[i];
      } else {
        OnlyJoin(g, v, w, tr3[i], S, T);
      }
    }
  }

  lemma StepsParts(g: Geometry, v: Vol, tr: seq<Vol>, w: Vol, tr2: seq<Vol>, T: set<nat>)
    requires Shape(g, v) && Steps(g, v, tr, w, tr2, T)
    ensures Only(g, v, w, T) && tr <= tr2
  {
  }

  lemma StepsMono(g: Geometry, v: Vol, tr: seq<Vol>, w: Vol, tr2: seq<Vol>, S: set<nat>, T: set<nat>)
    requires Shape(g, v) && Steps(g, v, tr, w, tr2, S) && S <= T
    ensures Steps(g, v, tr, w, tr2, T)
  {
  }

  function ZeroCluster(g: Geometry): (z: Cluster)
    ensures |z| == g.spc && forall s :: 0 <= s < g.spc ==> z[s] == Zeros(512)
  {
    seq(g.spc, _ => Zeros(512))
  }

  ghost function Members(ch: seq<nat>): set<nat> { set c | c in ch }

  // t2 is t with the chain nch of freshly allocated clusters added.
  ghost predicate Fresh(t: Table, t2: Table, first: nat, nch: seq<nat>) {
    && (forall c :: c in t.own ==> c in t2.own)
    && (forall c :: c in nch ==> c !in t.own)
    && if nch == [] then t2 == t && first == 0
       else first == nch[0] && first !in t.chain && t2.chain == t.chain[first := nch]
  }

  // One more cluster is allocated and linked behind the chain being built.
  ghost function BuildMore(t2: Table, first: nat, nch: seq<nat>, c: nat): Table
    requires nch != [] ==> first in t2.chain
  {
    if nch == [] then AddChain(t2, c) else JoinChain(AddChain(t2, c), first, c)
  }

  ghost function LinksMore(L: Links, nch: seq<nat>, c: nat): Links
    requires c < |L| && forall i :: 0 <= i < |nch| ==> nch[i] < |L|
  {
    if nch == [] then L[c := EOC] else L[c := EOC][nch[|nch| - 1] := c]
  }

  lemma FreshStep(t: Table, t2: Table, first: nat, nch: seq<nat>, c: nat)
    requires Fresh(t, t2, first, nch) && c !in t2.own && c !in t2.chain
    ensures nch != [] ==> first in t2.chain
    ensures Fresh(t, BuildMore(t2, first, nch, c), if nch == [] then c else first, nch + [c])
  {
    var t3 := BuildMore(t2, first, nch, c);
    if nch != [] {
      assert t2.chain[first] == nch && c != first;
      assert t3.chain == t.chain[first := nch + [c]];
    } else {
      assert nch + [c] == [c];
    }
  }

  lemma TableStep(L: Links, t2: Table, first: nat, nch: seq<nat>, c: nat)
    requires TableOk(L, t2) && 2 <= c < |L| && L[c] == 0
    requires forall i :: 0 <= i < |nch| ==> nch[i] < |L|
    requires nch != [] ==> first in t2.chain && t2.chain[first] == nch
    ensures c !in t2.own && c !in t2.chain
    ensures TableOk(LinksMore(L, nch, c), BuildMore(t2, first, nch, c))
  {
    AddChainOk(L, t2, c);
    if nch != [] {
      assert first != c;
      JoinChainOk(L[c := EOC], AddChain(t2, c), first, c);
    }
  }

  lemma TableRange(L: Links, t: Table)
    requires TableOk(L, t)
    ensures forall c :: c in t.own ==> 2 <= c < |L|
  {
  }

  lemma FreshChain(L: Links, t: Table, t2: Table, first: nat, nch: seq<nat>)
    requires ChainsOk(L, t2) && Fresh(t, t2, first, nch) && nch != []
    ensures first in t2.chain && t2.chain[first] == nch && IsChain(L, nch) && nch[0] == first
  {
    assert t2.chain[first] == nch;
  }

  lemma Unowned(L: Links, t: Table, nch: seq<nat>)
    requires TableOk(L, t) && forall c :: c in nch ==> c !in t.own
    ensures forall c :: c in nch && 2 <= c < |L| ==> L[c] == 0
  {
  }

  // Freeing the clusters that were free before gives back the table of before.
  lemma FreedAgain(g: Geometry, v: Vol, w: Vol, x: Vol, nch: seq<nat>)
    requires Mirrors(g, v) && Mirrors(g, x) && Only(g, v, w, Members(nch))
    requires forall c :: c in nch && 2 <= c <= g.maxCluster ==> v.fats[0][c] == 0
    requires forall c :: 2 <= c <= g.maxCluster ==> x.fats[0][c] == if c in nch then 0 else w.fats[0][c]
    requires x.fats[0][..2] == v.fats[0][..2]
    ensures x.fats == v.fats
  {
    forall c | 0 <= c <= g.maxCluster ensures x.fats[0][c] == v.fats[0][c] {
      if c < 2 { assert x.fats[0][c] == x.fats[0][..2][c] == v.fats[0][c]; }
    }
    assert x.fats[0] == v.fats[0];
  }

  // A chain under construction: it started in volume v0 with table t, the clusters nch have been
  // allocated since, and the table is now t2.
  datatype Build = Build(v0: Vol, tr0: seq<Vol>, t: Table, t2: Table, nch: seq<nat>) {
    ghost predicate Ok(g: Geometry, v: Vol, tr: seq<Vol>, first: nat) {
      && Shape(g, v0) && Mirrors(g, v)
      && Steps(g, v0, tr0, v, tr, Members(nch))
      && TableOk(v.fats[0], t2) && Fresh(t, t2, first, nch)
      && v.fats[0][..2] == v0.fats[0][..2]
      && (first < 2 <==> nch == [])
      && forall i :: 0 <= i < |nch| ==> 2 <= nch[i] <= g.maxCluster
    }

    predicate PrevIs(prev: nat) { if nch == [] then prev == 0 else prev == nch[|nch| - 1] }

    predicate SameStart(b: Build) { v0 == b.v0 && tr0 == b.tr0 && t == b.t }

    lemma Chain(g: Geometry, v: Vol, tr: seq<Vol>, first: nat)
      requires g.Valid() && Ok(g, v, tr, first)
      ensures Apart() && first <= g.maxCluster && TableOk(v.fats[0], t2) && Fresh(t, t2, first, nch)
      ensures Shape(g, v0) && Mirrors(g, v) && Steps(g, v0, tr0, v, tr, Members(nch))
      ensures if nch == [] then first == 0 else IsChain(v.fats[0], nch) && nch[0] == first && first != 0
    {
      if nch != [] { FreshChain(v.fats[0], t, t2, first, nch); }
    }

    // The new clusters were free before.
    ghost predicate Apart() { forall c :: c in nch ==> c !in t.own }

    lemma More(g: Geometry, v: Vol, tr: seq<Vol>, w: Vol, tr2: seq<Vol>, first: nat, nc: nat)
      requires Ok(g, v, tr, first) && Mirrors(g, w)
      requires 2 <= nc <= g.maxCluster && v.fats[0][nc] == 0 && w.fats[0] == LinksMore(v.fats[0], nch, nc)
      requires Steps(g, v, tr, w, tr2, Members(nch) + {nc})
      ensures nch != [] ==> first in t2.chain
      ensures var b := this.(t2 := BuildMore(t2, first, nch, nc), nch := nch + [nc]);
              b.Ok(g, w, tr2, if first < 2 then nc else first)
    {
      hide TableOk, Fresh, Steps;
      MoreTable(v.fats[0], t, t2, first, nch, nc);
      MoreSteps(g, v0, tr0, v, tr, w, tr2, nch, nc);
      LinksMoreHead(v.fats[0], nch, nc);
      MoreOk(g, w, tr2, if nch == [] then nc else first, BuildMore(t2, first, nch, nc), nch + [nc]);
    }

    lemma MoreOk(g: Geometry, w: Vol, tr2: seq<Vol>, first: nat, t3: Table, nch3: seq<nat>)
      requires Shape(g, v0) && Mirrors(g, w) && Steps(g, v0, tr0, w, tr2, Members(nch3))
      requires TableOk(w.fats[0], t3) && Fresh(t, t3, first, nch3)
      requires w.fats[0][..2] == v0.fats[0][..2] && first >= 2 && nch3 != []
      requires forall i :: 0 <= i < |nch3| ==> 2 <= nch3[i] <= g.maxCluster
      ensures this.(t2 := t3, nch := nch3).Ok(g, w, tr2, first)
    {
    }
  }

  lemma MoreTable(L: Links, t: Table, t2: Table, first: nat, nch: seq<nat>, nc: nat)
    requires TableOk(L, t2) && Fresh(t, t2, first, nch) && 2 <= nc < |L| && L[nc] == 0
    requires forall i :: 0 <= i < |nch| ==> 2 <= nch[i] < |L|
    ensures nch != [] ==> first in t2.chain && first >= 2
    ensures TableOk(LinksMore(L, nch, nc), BuildMore(t2, first, nch, nc))
    ensures Fresh(t, BuildMore(t2, first, nch, nc), if nch == [] then nc else first, nch + [nc])
  {
    if nch != [] { FreshChain(L, t, t2, first, nch); }
    TableStep(L, t2, first, nch, nc);
    FreshStep(t, t2, first, nch, nc);
  }

  lemma MoreSteps(g: Geometry, v0: Vol, tr0: seq<Vol>, v: Vol, tr: seq<Vol>, w: Vol, tr2: seq<Vol>, nch: seq<nat>,
                  nc: nat)
    requires Shape(g, v0) && Steps(g, v0, tr0, v, tr, Members(nch)) && Steps(g, v, tr, w, tr2, Members(nch) + {nc})
    ensures Steps(g, v0, tr0, w, tr2, Members(nch + [nc]))
  {
    StepsJoin(g, v0, tr0, v, tr, w, tr2, Members(nch), Members(nch) + {nc});
    assert Members(nch) + (Members(nch) + {nc}) == Members(nch + [nc]);
  }

  lemma LinksMoreHead(L: Links, nch: seq<nat>, nc: nat)
    requires 2 <= nc < |L| && forall i :: 0 <= i < |nch| ==> 2 <= nch[i] < |L|
    ensures |LinksMore(L, nch, nc)| == |L| && LinksMore(L, nch, nc)[..2] == L[..2]
  {
  }

  lemma InvShape(g: Geometry, v: Vol, a: Abs)
    requires Inv(g, v, a)
    ensures Mirrors(g, v) && TableOk(v.fats[0], a.t) && OwnInRange(g, a.t)
  {
  }

  lemma StepsRefl(g: Geometry, v: Vol, tr: seq<Vol>, T: set<nat>)
    requires Shape(g, v)
    ensures Steps(g, v, tr, v, tr, T)
  {
  }

  // ----- the parts of a file write, as relations between images

  // Before the last cluster of a file there is always something left to write.
  lemma PosAt(g: Geometry, k: nat, n: nat, j: nat)
    requires Fits(g, k, n) && j < k
    ensures g.Span(j) < n && (j + 1 < k ==> g.Span(j + 1) < n) && (j + 1 == k ==> n <= g.Span(j + 1))
    ensures g.Span(j + 1) == g.Span(j) + g.ClusterBytes()
  {
    SpanMono(g, j, k - 1);
    if j + 1 < k { SpanMono(g, j + 1, k - 1); }
  }

  // ----- the first half of a write: the new chain is built and filled

  lemma ApartKeeps(g: Geometry, v: Vol, w: Vol, t: Table, nch: seq<nat>)
    requires Shape(g, v) && OwnInRange(g, t) && Only(g, v, w, Members(nch))
    requires forall c :: c in nch ==> c !in t.own
    ensures KeepsUsed(g, v, w, t)
  {
  }

  // Images that differ from v only in clusters that were free in v show the old volume.
  lemma FirstHalf(g: Geometry, v: Vol, a: Abs, tr: seq<Vol>, w: Vol, tr2: seq<Vol>, nch: seq<nat>)
    requires Inv(g, v, a) && Shape(g, v) && Steps(g, v, tr, w, tr2, Members(nch))
    requires forall c :: c in nch ==> c !in a.t.own
    ensures ReadsOld(g, v, w) && forall i :: |tr| <= i < |tr2| ==> ReadsOld(g, v, tr2[i])
  {
    hide Inv, OldImage, KeepsUsed, TableOk, OwnInRange;
    InvShape(g, v, a);
    ApartKeeps(g, v, w, a.t, nch);
    BeforeSwitch(g, v, w, a);
    forall i | |tr| <= i < |tr2| ensures ReadsOld(g, v, tr2[i]) {
      ApartKeeps(g, v, tr2[i], a.t, nch);
      BeforeSwitch(g, v, tr2[i], a);
    }
  }

  // A volume with the same table and the same allocated clusters satisfies the invariant too.
  lemma InvSame(g: Geometry, v: Vol, w: Vol, a: Abs)
    requires Inv(g, v, a) && Shape(g, w) && w.fats == v.fats && KeepsUsed(g, v, w, a.t)
    ensures Inv(g, w, a)
  {
    forall l | DirLoc(g, a, l) ensures SlotAt(g, w, l) == SlotAt(g, v, l) { }
    assert SlotsOk(g, w, a);
    assert RefsOk(g, w, a);
    DirsSame(g, v, w, a);
  }

  lemma DirsSame(g: Geometry, v: Vol, w: Vol, a: Abs)
    requires g.Valid() && Shape(g, v) && Shape(g, w) && OwnersOk(a.t) && OwnInRange(g, a.t)
    requires DirsOk(g, v, a) && KeepsUsed(g, v, w, a.t)
    ensures DirsOk(g, w, a)
  {
    forall d | d in a.dirs ensures DirOk(g, w, a.t.chain[d]) {
      forall c | c in a.t.chain[d] ensures w.data[c] == v.data[c] { DirChainClusters(g, v, a, d, c); }
      TidyDirSame(g, v, w, a.t.chain[d]);
    }
  }

  // ----- the second half: the entry is switched and the old chain freed

  lemma SwitchStart(g: Geometry, v: Vol, a: Abs, l: Loc, v2: Vol, v3: Vol, nch: seq<nat>, buf: seq<byte>, e: Slot)
    requires g.Valid() && Shape(g, v) && OwnInRange(g, a.t) && DirLoc(g, a, l)
    requires Only(g, v, v2, Members(nch)) && forall c :: c in nch ==> c !in a.t.own
    requires HoldsFile(g, v2, First(e), nch, buf)
    requires Shape(g, v3) && v3.fats == v2.fats && v3.data == v2.data[l.c := PutInCluster(v2.data[l.c], l.s, l.i, e)]
    ensures SecondHalf(g, v, v3, a, l, e, nch, buf)
  {
    HoldsKept(g, v2, v3, First(e), nch, buf);
  }

  // The old chain of the entry at l: empty if it had no first cluster.
  ghost function OldChain(t: Table, was: nat): seq<nat> {
    if was in t.chain then t.chain[was] else []
  }

  lemma OldChainOwned(a: Abs, was: nat, nch: seq<nat>)
    requires OwnersOk(a.t) && was !in a.dirs && forall c :: c in nch ==> c !in a.t.own
    ensures forall c :: c in OldChain(a.t, was) ==>
              c in a.t.own && a.t.own[c] == was && !IsDirCluster(a, c) && c !in nch
  {
  }

  lemma SwitchKeep(g: Geometry, v: Vol, a: Abs, l: Loc, v3: Vol, w: Vol, nch: seq<nat>, buf: seq<byte>, e: Slot)
    requires g.Valid() && Shape(g, v) && OwnInRange(g, a.t) && OwnersOk(a.t) && DirLoc(g, a, l)
    requires SecondHalf(g, v, v3, a, l, e, nch, buf)
    requires Only(g, v3, w, Members(OldChain(a.t, First(SlotAt(g, v, l)))))
    requires First(SlotAt(g, v, l)) !in a.dirs && forall c :: c in nch ==> c !in a.t.own
    ensures SecondHalf(g, v, w, a, l, e, nch, buf)
  {
    var was := First(SlotAt(g, v, l));
    OldChainOwned(a, was, nch);
    assert forall c: nat :: IsDirCluster(a, c) ==> c !in Members(OldChain(a.t, was));
    HoldsKept(g, v3, w, First(e), nch, buf);
    assert Switched(g, v, w, a, l, was, e);
  }

  // Everything from the switch on shows the new file.
  lemma SecondHalfTrace(g: Geometry, v: Vol, a: Abs, l: Loc, v3: Vol, tr3: seq<Vol>, v4: Vol, tr4: seq<Vol>,
                        nch: seq<nat>, buf: seq<byte>, e: Slot)
    requires Inv(g, v, a) && DirLoc(g, a, l) && SecondHalf(g, v, v3, a, l, e, nch, buf)
    requires Real(SlotAt(g, v, l)) && !IsDir(SlotAt(g, v, l)) && SlotSim(SlotAt(g, v, l), e) && Size(e) == |buf|
    requires First(SlotAt(g, v, l)) !in a.dirs && forall c :: c in nch ==> c !in a.t.own
    requires Steps(g, v3, tr3, v4, tr4, Members(OldChain(a.t, First(SlotAt(g, v, l)))))
    requires |tr3| > 0 && tr3[|tr3| - 1] == v3
    ensures SecondHalf(g, v, v4, a, l, e, nch, buf) && ReadsNew(g, v, v4, l, buf)
    ensures forall i :: |tr3| - 1 <= i < |tr4| ==> ReadsNew(g, v, tr4[i], l, buf)
  {
    hide TableOk, SlotsOk, RefsOk, DirsOk, SecondHalf, NewImage, Only;
    InvOwners(g, v, a);
    SwitchKeep(g, v, a, l, v3, v4, nch, buf, e);
    SecondHalfReads(g, v, v4, a, l, e, nch, buf);
    SecondHalfReads(g, v, v3, a, l, e, nch, buf);
    ShapeOf(g, v, v3, a, l, e, nch, buf);
    ShapeOf(g, v, v4, a, l, e, nch, buf);
    forall i | |tr3| - 1 <= i < |tr4| ensures ReadsNew(g, v, tr4[i], l, buf) {
      if i == |tr3| - 1 {
        assert tr4[i] == v3;
      } else {
        SwitchKeep(g, v, a, l, v3, tr4[i], nch, buf, e);
        ShapeOf(g, v, tr4[i], a, l, e, nch, buf);
        SecondHalfReads(g, v, tr4[i], a, l, e, nch, buf);
      }
    }
  }

  lemma ShapeOf(g: Geometry, v: Vol, w: Vol, a: Abs, l: Loc, e: Slot, nch: seq<nat>, buf: seq<byte>)
    requires g.Valid() && Shape(g, v) && OwnInRange(g, a.t) && DirLoc(g, a, l) && SecondHalf(g, v, w, a, l, e, nch, buf)
    ensures Shape(g, w) && SlotWrite(g, v, w, a, l, e)
  {
  }

  lemma InvOwners(g: Geometry, v: Vol, a: Abs)
    requires Inv(g, v, a)
    ensures OwnersOk(a.t) && ChainsOk(v.fats[0], a.t)
  {
  }

  lemma RechainedIs(t: Table, t2: Table, was: nat, nf: nat, nch: seq<nat>)
    requires Fresh(t, t2, nf, nch) && (nch == [] <==> nf == 0) && was in t.chain
    ensures was in t2.chain && t2.chain[was] == t.chain[was]
    ensures DropChain(t2, was).chain == Rechained(t, was, nf, nch)
  {
  }

  lemma RechainedIsAll(t: Table, t2: Table, was: nat, nf: nat, nch: seq<nat>)
    requires Fresh(t, t2, nf, nch) && (nch == [] <==> nf == 0) && was !in t.chain
    ensures t2.chain == Rechained(t, was, nf, nch)
  {
    assert t.chain - {was} == t.chain;
  }

  // The table after the old chain has been freed.
  lemma TableAfter(L: Links, M: Links, t: Table, t2: Table, was: nat, nf: nat, nch: seq<nat>)
    requires TableOk(L, t2) && Fresh(t, t2, nf, nch) && (nch == [] <==> nf == 0)
    requires Freed(L, M, t, was)
    ensures var t3 := if was in t.chain then DropChain(t2, was) else t2;
            TableOk(M, t3) && t3.chain == Rechained(t, was, nf, nch)
  {
    hide TableOk, Fresh;
    if was in t.chain {
      RechainedIs(t, t2, was, nf, nch);
      DropChainOk(L, M, t2, was);
    } else {
      RechainedIsAll(t, t2, was, nf, nch);
      SameLinks(L, M, t2);
    }
  }

  lemma SameLinks(L: Links, M: Links, t: Table)
    requires TableOk(L, t) && |M| == |L| && forall c :: 2 <= c < |L| ==> M[c] == L[c]
    ensures TableOk(M, t)
  {
    forall f | f in t.chain ensures IsChain(M, t.chain[f]) { ChainSame(L, M, t.chain[f]); }
  }

  lemma SameOldImage(g: Geometry, v: Vol)
    requires Shape(g, v)
    ensures OldImage(g, v, v)
  {
  }

  // A write that ran out of clusters and freed what it had taken.
  lemma FailedWrite(g: Geometry, v: Vol, w: Vol, a: Abs, nch: seq<nat>)
    requires Inv(g, v, a) && Shape(g, w) && w.fats == v.fats && Only(g, v, w, Members(nch))
    requires forall c :: c in nch ==> c !in a.t.own
    ensures Inv(g, w, a) && NamesKept(g, v, a, w, a)
  {
    InvShape(g, v, a);
    ApartKeeps(g, v, w, a.t, nch);
    SameNames(g, v, w, a);
    hide Inv, Only, KeepsUsed, TableOk, NamesKept;
    InvSame(g, v, w, a);
  }

  lemma SameNames(g: Geometry, v: Vol, w: Vol, a: Abs)
    requires Shape(g, v) && Shape(g, w) && OwnInRange(g, a.t) && KeepsUsed(g, v, w, a.t)
    ensures NamesKept(g, v, a, w, a)
  {
    hide SlotOf;
  }

  // A write that went through keeps the invariant.
  lemma FinishedWrite(g: Geometry, v: Vol, a: Abs, l: Loc, v3: Vol, v4: Vol, t2: Table, nf: nat, nch: seq<nat>,
                      buf: seq<byte>)
    requires Inv(g, v, a) && DirLoc(g, a, l) && Real(SlotAt(g, v, l)) && !IsDir(SlotAt(g, v, l))
    requires Mirrors(g, v4) && nf <= g.maxCluster && |buf| < 0x1_0000_0000
    requires SecondHalf(g, v, v4, a, l, WithExtent(SlotAt(g, v, l), nf, |buf|), nch, buf)
    requires Shape(g, v3) && TableOk(v3.fats[0], t2) && Fresh(a.t, t2, nf, nch) && (nch == [] <==> nf == 0)
    requires Freed(v3.fats[0], v4.fats[0], a.t, First(SlotAt(g, v, l)))
    requires nf != 0 ==> Fits(g, |nch|, |buf|)
    requires nf == 0 ==> buf == []
    ensures Inv(g, v4, WrittenAbs(a, l, First(SlotAt(g, v, l)), t2, nf))
    ensures NamesKept(g, v, a, v4, WrittenAbs(a, l, First(SlotAt(g, v, l)), t2, nf)) && OneChanged(g, v, a, v4, l)
  {
    hide Inv, TableOk, SecondHalf, Freed, SlotWrite, NamesKept, OneChanged, Fresh, Rechained, DropChain, OwnersOk;
    hide OwnInRange;
    hide WithExtent, First, Real, IsDir, SlotOf, Fits;
    InvShape(g, v, a);
    SlotInVol(g, a, l);
    var e := SlotAt(g, v, l);
    var e2 := WithExtent(e, nf, |buf|);
    ShapeOf(g, v, v4, a, l, e2, nch, buf);
    TableAfter(v3.fats[0], v4.fats[0], a.t, t2, First(e), nf, nch);
    var t3 := WrittenAbs(a, l, First(e), t2, nf).t;
    WrittenTable(a, l, First(e), t2, nf, nch);
    TableRange(v4.fats[0], t3);
    TableParts(g, v4, t3);
    ZeroIsNone(g, v, a);
    FreshFirst(a.t, t2, nf, nch);
    Rechain(g, v, v4, a, l, t3, nf, nch, |buf|);
    RechainKeeps(g, v, v4, a, l, t3, nf, nch, |buf|);
  }

  lemma WrittenTable(a: Abs, l: Loc, was: nat, t2: Table, nf: nat, nch: seq<nat>)
    requires Fresh(a.t, t2, nf, nch) && (nch == [] <==> nf == 0)
    ensures WrittenAbs(a, l, was, t2, nf).t == if was in a.t.chain && was in t2.chain then DropChain(t2, was) else t2
    ensures was in a.t.chain ==> was in t2.chain
  {
  }

  lemma TableParts(g: Geometry, v: Vol, t: Table)
    requires Mirrors(g, v) && TableOk(v.fats[0], t) && forall c :: c in t.own ==> 2 <= c < |v.fats[0]|
    ensures OwnersOk(t) && OwnInRange(g, t)
  {
  }

  lemma FreshFirst(t: Table, t2: Table, nf: nat, nch: seq<nat>)
    requires Fresh(t, t2, nf, nch) && (nch == [] <==> nf == 0) && 0 !in t.chain
    ensures nf !in t.chain
  {
  }

  lemma ZeroIsNone(g: Geometry, v: Vol, a: Abs)
    requires Inv(g, v, a)
    ensures 0 !in a.t.chain
  {
    hide OwnersOk, UsedOk, SlotsOk, RefsOk, DirsOk;
    ZeroIsNoChain(v.fats[0], a.t);
  }

  ghost function WrittenAbs(a: Abs, l: Loc, was: nat, t2: Table, nf: nat): Abs {
    Abs(if was in a.t.chain && was in t2.chain then DropChain(t2, was) else t2, a.dirs, a.ref[nf := l])
  }

  lemma FileEntry(g: Geometry, v: Vol, a: Abs, l: Loc)
    requires Inv(g, v, a) && DirLoc(g, a, l) && Real(SlotAt(g, v, l)) && !IsDir(SlotAt(g, v, l))
    ensures RealOk(g, a, l, SlotAt(g, v, l)) && First(SlotAt(g, v, l)) !in a.dirs
    ensures var was := First(SlotAt(g, v, l)); if was < 2 then was == 0 && was !in a.t.chain else was in a.t.chain
  {
    assert EntryOk(g, a, l, SlotAt(g, v, l));
    ZeroIsNoChain(v.fats[0], a.t);
    FileChain(g, v, a, l, SlotAt(g, v, l));
    assert 0 !in a.dirs;
  }

  lemma SlotKept(g: Geometry, v: Vol, w: Vol, a: Abs, l: Loc, nch: seq<nat>)
    requires Shape(g, v) && OwnInRange(g, a.t) && Only(g, v, w, Members(nch)) && DirLoc(g, a, l)
    requires forall c :: c in nch ==> c !in a.t.own
    ensures SlotAt(g, w, l) == SlotAt(g, v, l)
  {
  }

  // The old chain is still intact when the entry has been switched.
  lemma OldChainKept(g: Geometry, v: Vol, a: Abs, v2: Vol, was: nat, nch: seq<nat>)
    requires g.Valid() && Shape(g, v) && OwnInRange(g, a.t) && ChainsOk(v.fats[0], a.t) && OwnersOk(a.t)
    requires Only(g, v, v2, Members(nch)) && forall c :: c in nch ==> c !in a.t.own
    requires if was < 2 then was !in a.t.chain else was in a.t.chain
    ensures if was < 2 then OldChain(a.t, was) == []
            else IsChain(v2.fats[0], OldChain(a.t, was)) && OldChain(a.t, was)[0] == was
  {
    if was >= 2 {
      ChainSame(v.fats[0], v2.fats[0], a.t.chain[was]);
    }
  }

  lemma FreedIs(g: Geometry, v: Vol, w: Vol, t: Table, was: nat)
    requires Shape(g, v) && Shape(g, w)
    requires forall c :: 2 <= c <= g.maxCluster ==> w.fats[0][c] == if c in OldChain(t, was) then 0 else v.fats[0][c]
    ensures Freed(v.fats[0], w.fats[0], t, was)
  {
  }

  // ----- free clusters

  ghost function FreeSet(g: Geometry, v: Vol): set<nat>
    requires Shape(g, v)
  {
    set c: nat | 2 <= c <= g.maxCluster && v.fats[0][c] == 0
  }

  ghost predicate Full(g: Geometry, v: Vol)
    requires Shape(g, v)
  {
    forall c :: 2 <= c <= g.maxCluster ==> v.fats[0][c] != 0
  }

  lemma {:induction false} MembersCount(ch: seq<nat>)
    ensures |Members(ch)| <= |ch|
    ensures Distinct(ch) ==> |Members(ch)| == |ch|
  {
    if ch != [] {
      var m := ch[..|ch| - 1];
      MembersCount(m);
      assert ch == m + [ch[|ch| - 1]];
      assert Members(ch) == Members(m) + {ch[|ch| - 1]};
      assert Distinct(ch) ==> ch[|ch| - 1] !in m;
    }
  }

  lemma {:induction false} SubsetCount(S: set<nat>, T: set<nat>)
    requires S <= T
    ensures |S| <= |T|
  {
    if S != {} {
      var x :| x in S;
      SubsetCount(S - {x}, T - {x});
    }
  }

  // A chain that was built was made of clusters that were free; when no free cluster is left
  // behind, it was made of all of them.
  lemma BuiltFromFree(g: Geometry, b: Build, v: Vol, tr: seq<Vol>, first: nat)
    requires g.Valid() && b.Ok(g, v, tr, first) && TableOk(b.v0.fats[0], b.t)
    ensures Shape(g, v) && Shape(g, b.v0)
    ensures |b.nch| <= |FreeSet(g, b.v0)|
    ensures Full(g, v) ==> |FreeSet(g, b.v0)| <= |b.nch|
  {
    hide Build.Ok, TableOk, Fresh, Steps, Only, IsChain, Full;
    b.Chain(g, v, tr, first);
    StepsParts(g, b.v0, b.tr0, v, tr, Members(b.nch));
    BuiltRange(g, b, v, tr, first);
    Unowned(b.v0.fats[0], b.t, b.nch);
    if b.nch != [] { ChainDistinct(v.fats[0], b.nch); }
    TakenFromFree(g, b.v0, v, b.nch);
  }

  lemma BuiltRange(g: Geometry, b: Build, v: Vol, tr: seq<Vol>, first: nat)
    requires b.Ok(g, v, tr, first)
    ensures forall i :: 0 <= i < |b.nch| ==> 2 <= b.nch[i] <= g.maxCluster
  {
    hide TableOk, Fresh, Steps;
  }

  lemma ChainDistinct(L: Links, ch: seq<nat>)
    requires IsChain(L, ch)
    ensures Distinct(ch)
  {
  }

  lemma TakenFromFree(g: Geometry, v: Vol, w: Vol, nch: seq<nat>)
    requires Shape(g, v) && Only(g, v, w, Members(nch)) && Distinct(nch)
    requires forall i :: 0 <= i < |nch| ==> 2 <= nch[i] <= g.maxCluster
    requires forall c :: c in nch && 2 <= c <= g.maxCluster ==> v.fats[0][c] == 0
    ensures |nch| <= |FreeSet(g, v)|
    ensures Full(g, w) ==> |FreeSet(g, v)| <= |nch|
  {
    MembersCount(nch);
    hide Distinct;
    SubsetCount(Members(nch), FreeSet(g, v));
    if Full(g, w) {
      assert FreeSet(g, v) <= Members(nch);
      SubsetCount(FreeSet(g, v), Members(nch));
    }
  }

  // ----- the two halves of a write, put together

  // A file write from volume b.v0, whose chain is under construction: the entry at l, of first
  // cluster "was", is to get the bytes buf.
  ghost predicate CanSwitch(g: Geometry, b: Build, a: Abs, l: Loc, was: nat, buf: seq<byte>) {
    && Inv(g, b.v0, a) && b.t == a.t && DirLoc(g, a, l)
    && Real(SlotAt(g, b.v0, l)) && !IsDir(SlotAt(g, b.v0, l)) && was == First(SlotAt(g, b.v0, l))
    && |buf| < 0x1_0000_0000 && if b.nch == [] then buf == [] else Fits(g, |b.nch|, |buf|)
  }

  // The new chain, of first cluster "first", is complete and holds buf in volume v.
  ghost predicate Written(g: Geometry, b: Build, v: Vol, first: nat, buf: seq<byte>) {
    && Mirrors(g, v) && Shape(g, b.v0) && HoldsFile(g, v, first, b.nch, buf) && Only(g, b.v0, v, Members(b.nch))
    && TableOk(v.fats[0], b.t2) && Fresh(b.t, b.t2, first, b.nch) && b.Apart()
    && (b.nch == [] <==> first == 0) && first <= g.maxCluster
  }

  lemma SwitchStarts(g: Geometry, b: Build, a: Abs, l: Loc, was: nat, buf: seq<byte>)
    requires Inv(g, b.v0, a) && b.t == a.t && DirLoc(g, a, l) && Shape(g, b.v0) && InVol(g, l)
    requires Real(SlotAt(g, b.v0, l)) && !IsDir(SlotAt(g, b.v0, l)) && was == First(SlotAt(g, b.v0, l))
    requires |buf| < 0x1_0000_0000 && if b.nch == [] then buf == [] else Fits(g, |b.nch|, |buf|)
    ensures CanSwitch(g, b, a, l, was, buf)
  {
    hide Inv, Real, First, IsDir, Fits;
  }

  lemma NeedsFits(g: Geometry, k: nat, n: nat)
    requires g.Valid() && k == Needs(g, n)
    ensures if k == 0 then n == 0 else Fits(g, k, n)
  {
    if n > 0 {
      CeilingBounds(n, g.ClusterBytes());
      FitsIsCeiling(g, k, n);
    }
  }

  // The size of a buffer that a write accepts is not mistaken for a failure.
  lemma SignedSize(n: nat)
    requires n < 0xFFFF_FFFF
    ensures Signed(n) != -1
  {
  }

  // The entry in v2 and its old chain are what they were in the beginning.
  lemma SwitchReady(g: Geometry, b: Build, a: Abs, l: Loc, was: nat, buf: seq<byte>, v2: Vol, first: nat)
    requires CanSwitch(g, b, a, l, was, buf) && Written(g, b, v2, first, buf)
    ensures Mirrors(g, b.v0) && Mirrors(g, v2) && InVol(g, l) && SlotAt(g, v2, l) == SlotAt(g, b.v0, l)
    ensures first < 0x1_0000_0000 && |buf| < 0x1_0000_0000
    ensures if was < 2 then OldChain(a.t, was) == [] && was == 0
            else IsChain(v2.fats[0], OldChain(a.t, was)) && OldChain(a.t, was)[0] == was
  {
    hide Inv, TableOk, OwnersOk, ChainsOk, OwnInRange, Only, Fresh, HoldsFile, IsChain, Real, First, SlotOf, Fits;
    InvShape(g, b.v0, a);
    InvOwners(g, b.v0, a);
    FileEntry(g, b.v0, a, l);
    SlotInVol(g, a, l);
    SlotKept(g, b.v0, v2, a, l, b.nch);
    OldChainKept(g, b.v0, a, v2, was, b.nch);
  }

  lemma SlotInVol(g: Geometry, a: Abs, l: Loc)
    requires OwnInRange(g, a.t) && DirLoc(g, a, l)
    ensures InVol(g, l)
  {
  }

  // The volume after the entry has been switched.
  ghost predicate SwitchedTo(g: Geometry, v2: Vol, v3: Vol, l: Loc, first: nat, size: nat) {
    && Mirrors(g, v2) && Mirrors(g, v3) && InVol(g, l) && first < 0x1_0000_0000 && size < 0x1_0000_0000
    && v3.fats == v2.fats
    && v3.data == v2.data[l.c := PutInCluster(v2.data[l.c], l.s, l.i, WithExtent(SlotAt(g, v2, l), first, size))]
  }

  // The volume after the old chain has been freed.
  ghost predicate OldFreed(g: Geometry, t: Table, was: nat, v3: Vol, tr3: seq<Vol>, v4: Vol, tr4: seq<Vol>) {
    && Mirrors(g, v3) && Mirrors(g, v4) && Steps(g, v3, tr3, v4, tr4, Members(OldChain(t, was)))
    && forall c :: 2 <= c <= g.maxCluster ==> v4.fats[0][c] == if c in OldChain(t, was) then 0 else v3.fats[0][c]
  }

  lemma SwitchHalf(g: Geometry, b: Build, a: Abs, l: Loc, was: nat, buf: seq<byte>, v2: Vol, v3: Vol, first: nat)
    requires CanSwitch(g, b, a, l, was, buf) && Written(g, b, v2, first, buf) && SwitchedTo(g, v2, v3, l, first, |buf|)
    ensures Mirrors(g, b.v0) && InVol(g, l) && OwnInRange(g, a.t) && DirLoc(g, a, l)
    ensures SecondHalf(g, b.v0, v3, a, l, WithExtent(SlotAt(g, b.v0, l), first, |buf|), b.nch, buf)
  {
    hide Inv, TableOk, OwnersOk, ChainsOk, Only, Fresh, HoldsFile, Real, First, SlotOf, Fits, SecondHalf, PutInCluster,
         WithExtent;
    InvShape(g, b.v0, a);
    SwitchReady(g, b, a, l, was, buf, v2, first);
    ExtentFirst(SlotAt(g, b.v0, l), first, |buf|);
    SwitchStart(g, b.v0, a, l, v2, v3, b.nch, buf, WithExtent(SlotAt(g, b.v0, l), first, |buf|));
  }

  lemma ExtentFirst(e: Slot, first: nat, size: nat)
    requires first < 0x1_0000_0000 && size < 0x1_0000_0000
    ensures First(WithExtent(e, first, size)) == first && Size(WithExtent(e, first, size)) == size
    ensures !IsDir(e) ==> SlotSim(e, WithExtent(e, first, size))
  {
    var e2 := WithExtent(e, first, size);
    hide WithExtent, First, Size;
    SameKind(e, e2);
  }

  // What readers see from the switch on.
  lemma SwitchReads(g: Geometry, b: Build, a: Abs, l: Loc, was: nat, buf: seq<byte>, v2: Vol, v3: Vol, tr3: seq<Vol>,
                    v4: Vol, tr4: seq<Vol>, first: nat)
    requires CanSwitch(g, b, a, l, was, buf) && Written(g, b, v2, first, buf) && SwitchedTo(g, v2, v3, l, first, |buf|)
    requires OldFreed(g, a.t, was, v3, tr3, v4, tr4) && |tr3| > 0 && tr3[|tr3| - 1] == v3
    ensures ReadsNew(g, b.v0, v4, l, buf) && forall i :: |tr3| - 1 <= i < |tr4| ==> ReadsNew(g, b.v0, tr4[i], l, buf)
  {
    hide Inv, TableOk, OwnersOk, ChainsOk, Only, Fresh, HoldsFile, Real, First, Size, SlotOf, Fits, SecondHalf,
         PutInCluster, WithExtent;
    hide Steps, NewImage, SlotSim, IsDir, OwnInRange;
    SwitchHalf(g, b, a, l, was, buf, v2, v3, first);
    FileEntry(g, b.v0, a, l);
    ExtentFirst(SlotAt(g, b.v0, l), first, |buf|);
    SecondHalfTrace(g, b.v0, a, l, v3, tr3, v4, tr4, b.nch, buf, WithExtent(SlotAt(g, b.v0, l), first, |buf|));
  }

  // The invariant afterwards.
  lemma SwitchKeeps(g: Geometry, b: Build, a: Abs, l: Loc, was: nat, buf: seq<byte>, v2: Vol, v3: Vol, tr3: seq<Vol>,
                    v4: Vol, tr4: seq<Vol>, first: nat)
    requires CanSwitch(g, b, a, l, was, buf) && Written(g, b, v2, first, buf) && SwitchedTo(g, v2, v3, l, first, |buf|)
    requires OldFreed(g, a.t, was, v3, tr3, v4, tr4) && |tr3| > 0 && tr3[|tr3| - 1] == v3
    ensures Inv(g, v4, WrittenAbs(a, l, was, b.t2, first))
            && NamesKept(g, b.v0, a, v4, WrittenAbs(a, l, was, b.t2, first)) && OneChanged(g, b.v0, a, v4, l)
  {
    hide Inv, TableOk, OwnersOk, ChainsOk, Only, Fresh, HoldsFile, Real, First, Size, SlotOf, Fits, SecondHalf,
         PutInCluster, WithExtent;
    hide Steps, NewImage, SlotSim, IsDir, OwnInRange, Freed, NamesKept, OneChanged, WrittenAbs;
    SwitchHalf(g, b, a, l, was, buf, v2, v3, first);
    FileEntry(g, b.v0, a, l);
    ExtentFirst(SlotAt(g, b.v0, l), first, |buf|);
    SecondHalfTrace(g, b.v0, a, l, v3, tr3, v4, tr4, b.nch, buf, WithExtent(SlotAt(g, b.v0, l), first, |buf|));
    FreedIs(g, v3, v4, a.t, was);
    FinishedWrite(g, b.v0, a, l, v3, v4, b.t2, first, b.nch, buf);
  }

  /** What a write of buf to the entry t does, from volume v and history tr to w and tr2: "sw" is
      the position of the one sector write that switches the entry. */
  ghost predicate WriteOutcome(g: Geometry, v: Vol, tr: seq<Vol>, w: Vol, tr2: seq<Vol>, t: Option<Loc>, buf: seq<byte>,
                               n: int, sw: nat) {
    && g.Valid() && Shape(g, v) && tr <= tr2 && |tr| <= sw <= |tr2|
    && (n == -1 || n == Signed(|buf|))
    && (n == -1 <==> t.None? || Needs(g, |buf|) > |FreeSet(g, v)|)
    && (t.None? ==> w == v && tr2 == tr)
    && (forall i :: |tr| <= i < sw ==> ReadsOld(g, v, tr2[i]))
    && (n == -1 ==> sw == |tr2| && ReadsOld(g, v, w) && w.fats == v.fats)
    && (n != -1 ==> sw < |tr2| && ReadsNew(g, v, w, t.value, buf))
    && (n != -1 ==> forall i :: sw <= i < |tr2| ==> ReadsNew(g, v, tr2[i], t.value, buf))
  }
}
