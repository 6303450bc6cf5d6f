/**
 What the invariant says about the clusters a reader meets when it follows the links of the
 allocation table, without mention of the bookkeeping that the invariant is stated with.
 */
module Fat32Meaning {
  import opened Fat32Chains
  import opened Fat32Volume
  import opened Fat32Dirs
  import opened Fat32State
  import opened Fat32Files
  import opened Fat32Lookup
  import opened Fat32Steps

  // The clusters met from c on.
  function Follow(g: Geometry, v: Vol, c: nat): seq<nat>
    requires |v.fats| > 0
  {
    Walk(v.fats[0], c, g.maxCluster)
  }

  // A live entry, other than "." and "..", that has clusters.
  ghost predicate HasClusters(g: Geometry, v: Vol, a: Abs, l: Loc)
    requires Shape(g, v) && OwnInRange(g, a.t)
  {
    DirLoc(g, a, l) && Real(SlotAt(g, v, l)) && First(SlotAt(g, v, l)) != 0
  }

  lemma EntryHasChain(g: Geometry, v: Vol, a: Abs, l: Loc)
    requires Inv(g, v, a) && HasClusters(g, v, a, l)
    ensures First(SlotAt(g, v, l)) in a.t.chain && First(SlotAt(g, v, l)) != g.root
    ensures RealOk(g, a, l, SlotAt(g, v, l))
  {
    hide UsedOk, OwnersOk, RefsOk;
    assert EntryOk(g, a, l, SlotAt(g, v, l));
  }

  lemma FollowChain(g: Geometry, v: Vol, a: Abs, f: nat)
    requires Inv(g, v, a) && f in a.t.chain
    ensures Follow(g, v, f) == a.t.chain[f] && IsChain(v.fats[0], a.t.chain[f]) && a.t.chain[f][0] == f
  {
    hide UsedOk, OwnersOk, RefsOk, SlotsOk, DirsOk;
    WalkIsChain(g, v, a.t, f);
  }

  /** Following the links from an entry ends, at an end-of-chain mark, without a cycle. */
  lemma ChainsEnd(g: Geometry, v: Vol, a: Abs, l: Loc)
    requires Inv(g, v, a) && HasClusters(g, v, a, l)
    ensures var ch := Follow(g, v, First(SlotAt(g, v, l)));
            IsChain(v.fats[0], ch) && ch[0] == First(SlotAt(g, v, l))
  {
    hide Inv, Follow, First, Real, SlotOf;
    InvRange(g, v, a);
    EntryHasChain(g, v, a, l);
    FollowChain(g, v, a, First(SlotAt(g, v, l)));
  }

  /** The chains of two entries have no cluster in common, nor with the root directory. */
  lemma ChainsDisjoint(g: Geometry, v: Vol, a: Abs, k: Loc, l: Loc, c: nat)
    requires Inv(g, v, a) && HasClusters(g, v, a, k) && HasClusters(g, v, a, l) && k != l
    requires c in Follow(g, v, First(SlotAt(g, v, l)))
    ensures c !in Follow(g, v, First(SlotAt(g, v, k))) && c !in Follow(g, v, g.root)
  {
    hide Inv, Follow, First, IsChain, Real, SlotOf;
    InvRange(g, v, a);
    EntryHasChain(g, v, a, k);
    EntryHasChain(g, v, a, l);
    FollowChain(g, v, a, First(SlotAt(g, v, k)));
    FollowChain(g, v, a, First(SlotAt(g, v, l)));
    RootHasChain(g, v, a);
    FollowChain(g, v, a, g.root);
    OneOwner(g, v, a, First(SlotAt(g, v, k)), First(SlotAt(g, v, l)), c);
    OneOwner(g, v, a, g.root, First(SlotAt(g, v, l)), c);
  }

  lemma RootHasChain(g: Geometry, v: Vol, a: Abs)
    requires Inv(g, v, a)
    ensures g.root in a.t.chain
  {
    hide TableOk, RefsOk, SlotsOk;
    assert g.root in a.dirs;
  }

  lemma OneOwner(g: Geometry, v: Vol, a: Abs, x: nat, y: nat, c: nat)
    requires Inv(g, v, a) && x in a.t.chain && y in a.t.chain && x != y && c in a.t.chain[y]
    ensures c !in a.t.chain[x]
  {
    hide UsedOk, ChainsOk, RefsOk, SlotsOk, DirsOk;
    assert a.t.own[c] == y;
  }

  /** A file has exactly the clusters that its size calls for. */
  lemma SizeMatches(g: Geometry, v: Vol, a: Abs, l: Loc)
    requires Inv(g, v, a) && DirLoc(g, a, l) && Real(SlotAt(g, v, l)) && !IsDir(SlotAt(g, v, l))
    ensures var e := SlotAt(g, v, l);
            if Size(e) == 0 then First(e) == 0 else |Follow(g, v, First(e))| == Needs(g, Size(e))
  {
    hide UsedOk, OwnersOk, RefsOk, Follow;
    var e := SlotAt(g, v, l);
    assert EntryOk(g, a, l, e);
    if First(e) != 0 {
      FollowChain(g, v, a, First(e));
      FitsIsCeiling(g, |a.t.chain[First(e)]|, Size(e));
    }
  }

  lemma UsedMeansOwned(g: Geometry, v: Vol, a: Abs, c: nat)
    requires Inv(g, v, a) && 2 <= c <= g.maxCluster
    ensures v.fats[0][c] != 0 <==> c in a.t.own
    ensures c in a.t.own ==> a.t.own[c] in a.t.chain && c in a.t.chain[a.t.own[c]]
    ensures forall f :: f in a.t.chain && c in a.t.chain[f] ==> c in a.t.own
  {
    hide RefsOk, SlotsOk, DirsOk, IsChain;
    if v.fats[0][c] == 0 { FreeIsUnowned(v.fats[0], a.t, c); }
  }

  lemma ChainHasEntry(g: Geometry, v: Vol, a: Abs, f: nat)
    requires Inv(g, v, a) && f in a.t.chain && f != g.root
    ensures f in a.ref && HasClusters(g, v, a, a.ref[f]) && First(SlotAt(g, v, a.ref[f])) == f
  {
    hide UsedOk, OwnersOk, SlotsOk, DirsOk;
    ZeroIsNoChain(v.fats[0], a.t);
  }

  /** The clusters in use are exactly those of the root directory and of the live entries. */
  lemma UsedAreCovered(g: Geometry, v: Vol, a: Abs, c: nat)
    requires Inv(g, v, a) && 2 <= c <= g.maxCluster
    ensures v.fats[0][c] != 0 <==>
            c in Follow(g, v, g.root)
            || exists l :: HasClusters(g, v, a, l) && c in Follow(g, v, First(SlotAt(g, v, l)))
  {
    hide Inv, Follow, First, Real, SlotOf, IsChain;
    InvRange(g, v, a);
    RootHasChain(g, v, a);
    FollowChain(g, v, a, g.root);
    UsedMeansOwned(g, v, a, c);
    if v.fats[0][c] != 0 && c !in Follow(g, v, g.root) {
      var f := a.t.own[c];
      ChainHasEntry(g, v, a, f);
      FollowChain(g, v, a, f);
      assert HasClusters(g, v, a, a.ref[f]);
    }
    if l :| HasClusters(g, v, a, l) && c in Follow(g, v, First(SlotAt(g, v, l))) {
      EntryHasChain(g, v, a, l);
      FollowChain(g, v, a, First(SlotAt(g, v, l)));
    }
  }

  // ----- a volume to start from: all clusters free but the one of the empty root directory

  function FreshLinks(g: Geometry): (L: Links)
    requires g.Valid()
    ensures |L| == g.maxCluster + 1 && forall c :: 0 <= c < |L| ==> L[c] == if c == g.root then EOC else 0
  {
    seq(g.maxCluster + 1, c => if c == g.root then EOC else 0)
  }

  function Formatted(g: Geometry): (v: Vol)
    requires g.Valid()
  {
    Vol(seq(g.numFats, _ => FreshLinks(g)), seq(g.maxCluster + 1, _ => ZeroCluster(g)))
  }

  ghost function FreshAbs(g: Geometry): Abs {
    Abs(Table(map[g.root := [g.root]], map[g.root := g.root]), {g.root}, map[])
  }

  lemma FreshTable(g: Geometry)
    requires g.Valid()
    ensures TableOk(FreshLinks(g), FreshAbs(g).t)
  {
    assert IsChain(FreshLinks(g), [g.root]);
  }

  lemma BlankDirOk(g: Geometry, v: Vol, c: nat)
    requires g.Valid() && Shape(g, v) && 2 <= c <= g.maxCluster && BlankCluster(v.data[c])
    ensures DirOk(g, v, [c])
  {
  }

  /** A formatted volume satisfies the invariant. */
  lemma FormattedOk(g: Geometry)
    requires g.Valid()
    ensures Inv(g, Formatted(g), FreshAbs(g))
  {
    hide TableOk, ZeroCluster, BlankCluster, FreshLinks, DirOk, EntryOk;
    var v, a := Formatted(g), FreshAbs(g);
    ZeroIsBlank(g);
    FreshTable(g);
    BlankDirOk(g, v, g.root);
    forall l | DirLoc(g, a, l) ensures !Live(SlotAt(g, v, l)) { BlankIsNotLive(g, v, l); }
    hide Live, SlotOf;
  }
}
