/**
 Cluster chains in one copy of the file allocation table, and the bookkeeping of which chain
 owns which cluster.
 */
module Fat32Chains {

  const EOC: nat := 0x0FFFFFFF
  const EOC_MIN: nat := 0x0FFFFFF8

  // links[c] is the 28-bit link of cluster c: 0 for a free cluster, at least EOC_MIN for the
  // last cluster of a chain.  Cluster numbers start at 2.
  type Links = seq<nat>

  ghost predicate Distinct(ch: seq<nat>) {
    forall i, j :: 0 <= i < j < |ch| ==> ch[i] != ch[j]
  }

  ghost predicate IsChain(L: Links, ch: seq<nat>) {
    && |ch| > 0
    && (forall i :: 0 <= i < |ch| ==> 2 <= ch[i] < |L|)
    && Distinct(ch)
    && (forall i, j :: 0 <= i && j == i + 1 && j < |ch| ==> L[ch[i]] == ch[j])
    && L[ch[|ch| - 1]] >= EOC_MIN
  }

  // The clusters met when links are followed from c, at most "fuel" of them.
  function Walk(L: Links, c: nat, fuel: nat): (r: seq<nat>)
    ensures forall i :: 0 <= i < |r| ==> 2 <= r[i] < |L|
    decreases fuel
  {
    if fuel == 0 || !(2 <= c < |L|) then [] else [c] + Walk(L, L[c], fuel - 1)
  }

  lemma {:induction false} WalkChain(L: Links, ch: seq<nat>, fuel: nat)
    requires |L| < EOC_MIN && IsChain(L, ch) && |ch| <= fuel
    ensures Walk(L, ch[0], fuel) == ch
    decreases fuel
  {
    if |ch| == 1 {
      assert ch == [ch[0]];
      assert Walk(L, L[ch[0]], fuel - 1) == [];
    } else {
      ChainTail(L, ch);
      WalkChain(L, ch[1..], fuel - 1);
      assert L[ch[0]] == ch[1];
      assert ch == [ch[0]] + ch[1..];
    }
  }

  lemma ChainTail(L: Links, ch: seq<nat>)
    requires IsChain(L, ch) && |ch| > 1
    ensures IsChain(L, ch[1..])
  {
    var rest := ch[1..];
    forall i, j | 0 <= i && j == i + 1 && j < |rest| ensures L[rest[i]] == rest[j] {
      assert rest[i] == ch[i + 1] && rest[j] == ch[j + 1];
    }
  }

  // The link of cluster j leads to cluster j + 1, or ends the chain.
  lemma ChainNext(L: Links, ch: seq<nat>, j: nat)
    requires IsChain(L, ch) && j < |ch| && |L| < EOC_MIN
    ensures if j + 1 < |ch| then L[ch[j]] == ch[j + 1] && 2 <= ch[j + 1] < EOC_MIN else L[ch[j]] >= EOC_MIN
  {
  }

  lemma {:induction false} DistinctBound(ch: seq<nat>, lo: nat, hi: nat)
    requires Distinct(ch) && lo <= hi
    requires forall i :: 0 <= i < |ch| ==> lo <= ch[i] < hi
    ensures |ch| <= hi - lo
    decreases hi - lo
  {
    if |ch| > 0 {
      assert lo <= ch[0] < hi;
      if i :| 0 <= i < |ch| && ch[i] == hi - 1 {
        var rest := ch[..i] + ch[i + 1..];
        forall k | 0 <= k < |rest| ensures lo <= rest[k] < hi - 1 {
          assert rest[k] == if k < i then ch[k] else ch[k + 1];
        }
        DistinctBound(rest, lo, hi - 1);
      } else {
        DistinctBound(ch, lo, hi - 1);
      }
    }
  }

  // A chain cannot be longer than the number of clusters.
  lemma ChainBound(L: Links, ch: seq<nat>)
    requires IsChain(L, ch)
    ensures |ch| <= |L| - 2
  {
    DistinctBound(ch, 2, |L|);
  }

  // Two tables with the same links on a walk have the same walk.
  lemma {:induction false} WalkSame(L: Links, M: Links, c: nat, fuel: nat)
    requires |L| == |M|
    requires forall d :: d in Walk(L, c, fuel) ==> L[d] == M[d]
    ensures Walk(M, c, fuel) == Walk(L, c, fuel)
    decreases fuel
  {
    if fuel != 0 && 2 <= c < |L| {
      assert Walk(L, c, fuel)[0] == c;
      forall d | d in Walk(L, L[c], fuel - 1) ensures L[d] == M[d] {
        assert d in Walk(L, c, fuel);
      }
      WalkSame(L, M, L[c], fuel - 1);
    }
  }

  // ----- who owns which cluster

  // chain maps the first cluster of every allocated chain to the chain; own maps every
  // allocated cluster to the first cluster of its chain.
  datatype Table = Table(chain: map<nat, seq<nat>>, own: map<nat, nat>)

  ghost predicate ChainsOk(L: Links, t: Table) {
    forall f :: f in t.chain ==> IsChain(L, t.chain[f]) && t.chain[f][0] == f
  }

  ghost predicate OwnersOk(t: Table) {
    && (forall f, c :: f in t.chain && c in t.chain[f] ==> c in t.own && t.own[c] == f)
    && (forall c :: c in t.own ==> t.own[c] in t.chain && c in t.chain[t.own[c]])
  }

  ghost predicate UsedOk(L: Links, t: Table) {
    forall c :: 2 <= c < |L| && L[c] != 0 ==> c in t.own
  }

  // Every chain of t is a terminated, acyclic chain of L, chains are pairwise disjoint, and
  // the allocated clusters are exactly their union.
  ghost predicate TableOk(L: Links, t: Table) {
    ChainsOk(L, t) && OwnersOk(t) && UsedOk(L, t)
  }

  function AddChain(t: Table, c: nat): Table {
    Table(t.chain[c := [c]], t.own[c := c])
  }

  ghost function DropChain(t: Table, f: nat): Table
    requires f in t.chain
  {
    Table(t.chain - {f}, map c | c in t.own && t.own[c] != f :: t.own[c])
  }

  // The one-cluster chain nc becomes the last cluster of the chain f.
  ghost function JoinChain(t: Table, f: nat, nc: nat): Table
    requires f in t.chain
  {
    Table((t.chain - {nc})[f := t.chain[f] + [nc]], t.own[nc := f])
  }

  lemma OwnedIsUsed(L: Links, t: Table, c: nat)
    requires TableOk(L, t) && c in t.own
    ensures 2 <= c < |L| && L[c] != 0
  {
    var ch := t.chain[t.own[c]];
    var i :| 0 <= i < |ch| && ch[i] == c;
    if i + 1 < |ch| {
      assert L[ch[i]] == ch[i + 1];
    }
  }

  lemma FirstIsOwned(L: Links, t: Table, f: nat)
    requires ChainsOk(L, t) && OwnersOk(t) && f in t.chain
    ensures f in t.own && t.own[f] == f && f in t.chain[f]
  {
    assert t.chain[f][0] in t.chain[f];
  }

  // Links of chain members unchanged: still a chain.
  lemma ChainSame(L: Links, M: Links, ch: seq<nat>)
    requires |L| == |M| && IsChain(L, ch)
    requires forall c :: c in ch ==> L[c] == M[c]
    ensures IsChain(M, ch)
  {
    forall i, j | 0 <= i && j == i + 1 && j < |ch| ensures M[ch[i]] == ch[j] {
      assert ch[i] in ch;
      assert L[ch[i]] == ch[j];
    }
    assert ch[|ch| - 1] in ch;
  }

  lemma FreeIsUnowned(L: Links, t: Table, c: nat)
    requires TableOk(L, t) && 2 <= c < |L| && L[c] == 0
    ensures c !in t.own && c !in t.chain
  {
    if c in t.own { OwnedIsUsed(L, t, c); }
    if c in t.chain { FirstIsOwned(L, t, c); }
  }

  lemma AddOwners(t: Table, c: nat)
    requires OwnersOk(t) && c !in t.own && c !in t.chain
    ensures OwnersOk(AddChain(t, c))
  {
  }

  lemma ChainUntouched(L: Links, ch: seq<nat>, c: nat, x: nat)
    requires IsChain(L, ch) && 2 <= c < |L| && c !in ch
    ensures |ch| > 0 && IsChain(L[c := x], ch)
  {
    ChainSame(L, L[c := x], ch);
  }

  lemma OneChain(L: Links, c: nat)
    requires 2 <= c < |L| && L[c] >= EOC_MIN
    ensures IsChain(L, [c])
  {
  }

  lemma AddChains(L: Links, t: Table, c: nat)
    requires ChainsOk(L, t) && OwnersOk(t) && 2 <= c < |L| && c !in t.own
    ensures ChainsOk(L[c := EOC], AddChain(t, c))
  {
    hide IsChain;
    var t', M := AddChain(t, c), L[c := EOC];
    forall f | f in t'.chain ensures |t'.chain[f]| > 0 && IsChain(M, t'.chain[f]) && t'.chain[f][0] == f {
      if f == c {
        OneChain(M, c);
      } else {
        assert c !in t.chain[f];
        ChainUntouched(L, t.chain[f], c, EOC);
      }
    }
  }

  // A free cluster becomes a chain of its own.
  lemma AddChainOk(L: Links, t: Table, c: nat)
    requires TableOk(L, t) && 2 <= c < |L| && L[c] == 0
    ensures c !in t.own && c !in t.chain && TableOk(L[c := EOC], AddChain(t, c))
  {
    FreeIsUnowned(L, t, c);
    AddOwners(t, c);
    AddChains(L, t, c);
  }

  lemma JoinedChain(L: Links, ch: seq<nat>, nc: nat)
    requires IsChain(L, ch) && nc !in ch && 2 <= nc < |L| && L[nc] >= EOC_MIN
    ensures IsChain(L[ch[|ch| - 1] := nc], ch + [nc])
  {
    var last := ch[|ch| - 1];
    var M, ch' := L[last := nc], ch + [nc];
    forall i, j | 0 <= i && j == i + 1 && j < |ch'| ensures M[ch'[i]] == ch'[j] {
      if j < |ch| { assert L[ch[i]] == ch[j] && ch[i] != last; }
    }
  }

  lemma JoinOwners(t: Table, f: nat, nc: nat)
    requires OwnersOk(t) && f in t.chain && nc in t.chain && f != nc && t.chain[nc] == [nc]
    ensures OwnersOk(JoinChain(t, f, nc))
  {
    var t' := JoinChain(t, f, nc);
    var ch := t.chain[f];
    forall h, c | h in t'.chain && c in t'.chain[h] ensures c in t'.own && t'.own[c] == h {
      if h == f {
        assert c in ch || c == nc;
      } else {
        assert c in t.chain[h] && t.own[c] == h && t'.own[c] == t.own[c];
      }
    }
    forall c | c in t'.own ensures t'.own[c] in t'.chain && c in t'.chain[t'.own[c]] {
      if c == nc { assert (ch + [nc])[|ch|] == nc; }
      else if t.own[c] == f { assert c in ch; }
    }
  }

  lemma JoinChains(L: Links, t: Table, f: nat, nc: nat)
    requires ChainsOk(L, t) && OwnersOk(t)
    requires f in t.chain && nc in t.chain && f != nc && t.chain[nc] == [nc]
    ensures |t.chain[f]| > 0 && 2 <= t.chain[f][|t.chain[f]| - 1] < |L|
    ensures ChainsOk(L[t.chain[f][|t.chain[f]| - 1] := nc], JoinChain(t, f, nc))
  {
    var t' := JoinChain(t, f, nc);
    var ch := t.chain[f];
    var last := ch[|ch| - 1];
    assert last in ch && t.own[last] == f;
    FirstIsOwned(L, t, nc);
    var M := L[last := nc];
    assert nc !in ch;
    JoinedChain(L, ch, nc);
    forall h | h in t'.chain ensures IsChain(M, t'.chain[h]) && t'.chain[h][0] == h {
      if h == f {
        assert t'.chain[h] == ch + [nc];
      } else {
        assert t'.chain[h] == t.chain[h];
        assert last !in t.chain[h];
        ChainUntouched(L, t.chain[h], last, nc);
      }
    }
  }

  // A chain of one cluster is linked behind another chain.
  lemma JoinChainOk(L: Links, t: Table, f: nat, nc: nat)
    requires TableOk(L, t)
    requires f in t.chain && nc in t.chain && f != nc && t.chain[nc] == [nc]
    ensures |t.chain[f]| > 0 && 2 <= t.chain[f][|t.chain[f]| - 1] < |L|
    ensures TableOk(L[t.chain[f][|t.chain[f]| - 1] := nc], JoinChain(t, f, nc))
  {
    JoinOwners(t, f, nc);
    JoinChains(L, t, f, nc);
    var last := t.chain[f][|t.chain[f]| - 1];
    assert last in t.chain[f];
    assert UsedOk(L[last := nc], JoinChain(t, f, nc));
  }

  lemma DropOwners(t: Table, f: nat)
    requires OwnersOk(t) && f in t.chain
    ensures OwnersOk(DropChain(t, f))
  {
  }

  lemma DropChains(L: Links, M: Links, t: Table, f: nat)
    requires ChainsOk(L, t) && OwnersOk(t) && f in t.chain
    requires |M| == |L| && forall c :: 2 <= c < |L| && c !in t.chain[f] ==> M[c] == L[c]
    ensures ChainsOk(M, DropChain(t, f))
  {
    var t' := DropChain(t, f);
    forall h | h in t'.chain ensures IsChain(M, t'.chain[h]) && t'.chain[h][0] == h {
      assert t'.chain[h] == t.chain[h];
      forall c | c in t.chain[h] ensures L[c] == M[c] {
        assert t.own[c] == h;
      }
      ChainSame(L, M, t.chain[h]);
    }
  }

  // All clusters of a chain are freed.
  lemma DropChainOk(L: Links, M: Links, t: Table, f: nat)
    requires TableOk(L, t) && f in t.chain
    requires |M| == |L| && forall c :: 2 <= c < |L| ==> M[c] == if c in t.chain[f] then 0 else L[c]
    ensures TableOk(M, DropChain(t, f))
  {
    DropOwners(t, f);
    DropChains(L, M, t, f);
  }
}
