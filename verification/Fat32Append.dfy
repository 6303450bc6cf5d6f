/**
 Appending to a file in place: the last cluster is filled up, then clusters are linked behind it.
 */
module Fat32Append {
  import opened Bytes
  import opened Fat32Chains
  import opened Fat32Volume
  import opened Fat32Dirs
  import opened Fat32State
  import opened Fat32Files
  import opened Fat32Crash
  import opened Fat32Steps

  // ----- arithmetic of positions in a cluster

  lemma MulSucc(n: nat, k: nat)
    ensures (n + 1) * k == n * k + k
  {
  }

  lemma {:induction false} Quotients(p: nat, q: nat, m: nat)
    requires p < q
    ensures p * m + m <= q * m
  {
    MulSucc(q - 1, m);
    if p + 1 < q { Quotients(p, q - 1, m); }
  }

  lemma ModUnique(x: nat, q: nat, m: nat, r: nat)
    requires m > 0 && x == q * m + r && r < m
    ensures x % m == r
  {
    var p := x / m;
    var pm, qm := p * m, q * m;
    assert x == pm + x % m;
    if p < q { Quotients(p, q, m); }
    if q < p { Quotients(q, p, m); }
  }

  // The remainder computed by fat32_append_op is the number of bytes in use in the last cluster.
  lemma UsedInLast(g: Geometry, k: nat, n: nat)
    requires g.Valid() && Fits(g, k, n)
    ensures UsedIs(g, k, n, n % g.ClusterBytes())
  {
    SpanIsProduct(g, k);
    SpanIsProduct(g, k - 1);
    if n == g.Span(k) {
      ModUnique(n, k, g.ClusterBytes(), 0);
    } else {
      ModUnique(n, k - 1, g.ClusterBytes(), n - g.Span(k - 1));
    }
  }

  // ----- filling up a cluster

  // Sector s of a cluster agrees with the bytes T of the cluster as far as position n.
  ghost predicate Agrees(sec: Sector, T: seq<byte>, base: nat, n: nat)
    requires n <= |T|
  {
    forall q :: 0 <= q < 512 && base + q < n ==> sec[q] == T[base + q]
  }

  lemma {:induction false} AgreesAll(cl: Cluster, T: seq<byte>, n: nat)
    requires n <= |T| && n <= 512 * |cl|
    requires forall s :: 0 <= s < |cl| ==> Agrees(cl[s], T, 512 * s, n)
    ensures SectorBytes(cl)[..n] == T[..n]
  {
    if cl != [] {
      assert Agrees(cl[0], T, 512 * 0, n);
      if n <= 512 {
        assert SectorBytes(cl)[..n] == cl[0][..n];
      } else {
        var rest := cl[1..];
        forall s | 0 <= s < |rest| ensures Agrees(rest[s], T[512..], 512 * s, n - 512) {
          assert rest[s] == cl[s + 1] && Agrees(cl[s + 1], T, 512 * (s + 1), n);
        }
        AgreesAll(rest, T[512..], n - 512);
        assert SectorBytes(cl)[..n] == cl[0] + SectorBytes(rest)[..n - 512];
        assert T[..n] == T[..512] + T[512..][..n - 512];
      }
    }
  }

  // The sectors before the one that holds byte "used" are kept.
  lemma AgreesBefore(cl: Cluster, buf: seq<byte>, used: nat, s: nat, n: nat)
    requires used <= 512 * |cl| && 512 * (s + 1) <= used && n <= used + |buf|
    ensures Agrees(cl[s], SectorBytes(cl)[..used] + buf, 512 * s, n)
  {
    SectorBytesAt(cl, s);
    var T := SectorBytes(cl)[..used] + buf;
    forall q | 0 <= q < 512 && 512 * s + q < n ensures cl[s][q] == T[512 * s + q] {
      assert SectorBytes(cl)[512 * s .. 512 * s + 512][q] == SectorBytes(cl)[512 * s + q];
    }
  }

  lemma AgreesHead(all: seq<byte>, x: Sector, buf: seq<byte>, base: nat, off: nat, take: nat, sec: Sector)
    requires base + 512 <= |all| && all[base .. base + 512] == x && take <= |buf| && off + take <= 512
    requires sec == x[..off] + buf[..take] + x[off + take..]
    ensures Agrees(sec, all[..base + off] + buf, base, base + off + take)
  {
    var T := all[..base + off] + buf;
    assert forall q :: 0 <= q < off ==> sec[q] == x[q] == all[base + q] == T[base + q];
    assert forall q :: off <= q < off + take ==> sec[q] == buf[q - off] == T[base + q];
  }

  // The sector that holds byte "used" keeps its head and gets the first bytes of buf.
  lemma AgreesAt(cl: Cluster, buf: seq<byte>, used: nat, s: nat, off: nat, take: nat, sec: Sector)
    requires s < |cl| && used == 512 * s + off && off < 512
    requires take <= |buf| && off + take <= 512
    requires sec == cl[s][..off] + buf[..take] + cl[s][off + take..]
    ensures Agrees(sec, SectorBytes(cl)[..used] + buf, 512 * s, used + take)
  {
    hide SectorBytes, Agrees;
    SectorBytesAt(cl, s);
    AgreesHead(SectorBytes(cl), cl[s], buf, 512 * s, off, take, sec);
  }

  lemma AgreesPadded(buf: seq<byte>, head: seq<byte>, w: nat, base: nat, take: nat)
    requires base == |head| + w && w + take <= |buf| && (take == 512 || w + take == |buf|) && take <= 512
    ensures Agrees(Padded(buf, w, 512), head + buf, base, base + take)
  {
  }

  // Agreement as far as n, on a sector that ends before n, is agreement as far as any m.
  lemma AgreesFull(sec: Sector, T: seq<byte>, base: nat, n: nat, m: nat)
    requires n <= |T| && m <= |T| && Agrees(sec, T, base, n) && (base + 512 <= n || m <= n)
    ensures Agrees(sec, T, base, m)
  {
  }

  // ----- linking clusters behind a file

  // An append under way: the file of first cluster f had the bytes "body" in volume v0 with table
  // t; its chain is now ch and the table t2.
  datatype Tail = Tail(v0: Vol, t: Table, t2: Table, f: nat, ch: seq<nat>, body: seq<byte>) {
    ghost predicate TableIs(L: Links) {
      && f in t.chain && |t.chain[f]| >= 1 && t.chain[f] <= ch
      && TableOk(L, t2) && t2.chain == t.chain[f := ch]
      && (forall c :: c in t.own ==> c in t2.own)
      && (forall c :: c in ch[|t.chain[f]|..] ==> c !in t.own)
    }

    predicate SameStart(z: Tail) { v0 == z.v0 && t == z.t && f == z.f && body == z.body }

    // The clusters that may have changed: the last one the file had, and the new ones.
    ghost function Changed(): set<nat>
      requires f in t.chain && 1 <= |t.chain[f]| <= |ch|
    {
      Members(ch[|t.chain[f]| - 1..])
    }

    ghost predicate BytesAre(g: Geometry, v: Vol, buf: seq<byte>, w: nat)
      requires Shape(g, v)
    {
      && w <= |buf| && Fits(g, |ch|, |body| + w)
      && (w < |buf| ==> |body| + w == g.Span(|ch|))
      && (forall i :: 0 <= i < |ch| ==> 2 <= ch[i] <= g.maxCluster)
      && Take(ChainBytes(g, v, ch), |body| + w) == body + buf[..w]
    }

    ghost predicate Ok(g: Geometry, v: Vol, buf: seq<byte>, w: nat) {
      && g.Valid() && Shape(g, v0) && Mirrors(g, v) && TableIs(v.fats[0])
      && Only(g, v0, v, Changed())
      && BytesAre(g, v, buf, w)
    }
  }

  lemma TailTable(L: Links, z: Tail, nc: nat)
    requires z.TableIs(L) && 2 <= nc < |L| && L[nc] == 0 && forall i :: 0 <= i < |z.ch| ==> 2 <= z.ch[i] < |L|
    ensures z.f in z.t2.chain && z.ch != []
    ensures z.(t2 := BuildMore(z.t2, z.f, z.ch, nc), ch := z.ch + [nc]).TableIs(LinksMore(L, z.ch, nc))
  {
    hide TableOk;
    TableStep(L, z.t2, z.f, z.ch, nc);
    var k := |z.t.chain[z.f]|;
    var t3 := BuildMore(z.t2, z.f, z.ch, nc);
    assert t3.chain == z.t.chain[z.f := z.ch + [nc]];
    assert (z.ch + [nc])[k..] == z.ch[k..] + [nc];
  }

  // Behind body and the first k bytes of buf come its next bytes, up to k2.
  lemma PaddedTail(body: seq<byte>, buf: seq<byte>, k: nat, k2: nat, n: nat)
    requires k <= k2 <= |buf| && k2 - k <= n
    ensures Take(body + buf[..k] + Padded(buf, k, n), |body| + k2) == body + buf[..k2]
  {
    var pad := Padded(buf, k, n);
    assert pad[..k2 - k] == buf[k..k2];
    assert buf[..k] + buf[k..k2] == buf[..k2];
    var all := body + buf[..k] + pad;
    assert all[..|body| + k2] == body + buf[..k] + pad[..k2 - k];
  }

  lemma TailConcat(g: Geometry, v: Vol, w: Vol, ch: seq<nat>, nc: nat)
    requires g.Valid() && Shape(g, v) && Shape(g, w) && 2 <= nc <= g.maxCluster
    requires forall i :: 0 <= i < |ch| ==> 2 <= ch[i] <= g.maxCluster && v.data[ch[i]] == w.data[ch[i]]
    ensures |w.data[nc]| == g.spc && |ChainBytes(g, v, ch)| == g.Span(|ch|)
    ensures ChainBytes(g, w, ch + [nc]) == ChainBytes(g, v, ch) + SectorBytes(w.data[nc])
  {
    hide ChainBytes, SectorBytes;
    ChainBytesSame(g, v, w, ch);
    ChainBytesConcat(g, w, ch, [nc]);
    ChainBytesOne(g, w, nc);
  }

  lemma TailBytes(g: Geometry, v: Vol, w: Vol, ch: seq<nat>, nc: nat, body: seq<byte>, buf: seq<byte>, k: nat, k2: nat)
    requires g.Valid() && Shape(g, v) && Shape(g, w) && k < |buf| && 2 <= nc <= g.maxCluster
    requires forall i :: 0 <= i < |ch| ==> 2 <= ch[i] <= g.maxCluster && v.data[ch[i]] == w.data[ch[i]]
    requires |body| + k == g.Span(|ch|) && Take(ChainBytes(g, v, ch), |body| + k) == body + buf[..k]
    requires HoldsFrom(w.data[nc], buf, k)
    requires k2 == if k + g.ClusterBytes() <= |buf| then k + g.ClusterBytes() else |buf|
    ensures Take(ChainBytes(g, w, ch + [nc]), |body| + k2) == body + buf[..k2]
    ensures Fits(g, |ch| + 1, |body| + k2) && (k2 < |buf| ==> |body| + k2 == g.Span(|ch| + 1))
  {
    hide ChainBytes, SectorBytes, Padded, Shape;
    TailConcat(g, v, w, ch, nc);
    assert g.ClusterBytes() == 512 * g.spc > 0 && g.Span(|ch| + 1) == g.Span(|ch|) + g.ClusterBytes();
    hide Geometry.ClusterBytes, Geometry.Span, Geometry.Valid;
    assert ChainBytes(g, v, ch) == body + buf[..k];
    PaddedTail(body, buf, k, k2, g.ClusterBytes());
  }

  lemma TailOnly(g: Geometry, v: Vol, v1: Vol, w: Vol, ch: seq<nat>, k: nat, nc: nat)
    requires Shape(g, v) && 1 <= k <= |ch|
    requires Only(g, v, v1, Members(ch[k - 1..])) && Only(g, v1, w, {nc} + {ch[|ch| - 1]})
    ensures Only(g, v, w, Members((ch + [nc])[k - 1..]))
  {
    assert (ch + [nc])[k - 1..] == ch[k - 1..] + [nc];
    assert ch[k - 1..][|ch| - k] == ch[|ch| - 1];
    OnlyJoin(g, v, v1, w, Members(ch[k - 1..]), {nc} + {ch[|ch| - 1]});
    assert Members(ch[k - 1..]) + ({nc} + {ch[|ch| - 1]}) == Members(ch[k - 1..] + [nc]);
  }

  // One more cluster.
  lemma TailMore(g: Geometry, z: Tail, v: Vol, w: Vol, buf: seq<byte>, k: nat, nc: nat, k2: nat) returns (z2: Tail)
    requires z.Ok(g, v, buf, k) && k < |buf| && Mirrors(g, w)
    requires 2 <= nc <= g.maxCluster && v.fats[0][nc] == 0 && w.fats[0] == LinksMore(v.fats[0], z.ch, nc)
    requires w.data == v.data[nc := w.data[nc]] && HoldsFrom(w.data[nc], buf, k)
    requires k2 == if k + g.ClusterBytes() <= |buf| then k + g.ClusterBytes() else |buf|
    ensures z2.SameStart(z) && z2.ch == z.ch + [nc] && z2.Ok(g, w, buf, k2)
  {
    hide TableOk, HoldsFrom, ChainBytes, LinksMore, BuildMore, Tail.TableIs, Only;
    TailFacts(v.fats[0], z);
    NotInChain(v.fats[0], z.t2, z.f, nc);
    TailTable(v.fats[0], z, nc);
    TailBytes(g, v, w, z.ch, nc, z.body, buf, k, k2);
    LinksOnly(g, v, w, z.ch, nc);
    TailOnly(g, z.v0, v, w, z.ch, |z.t.chain[z.f]|, nc);
    z2 := z.(t2 := BuildMore(z.t2, z.f, z.ch, nc), ch := z.ch + [nc]);
  }

  lemma TailFacts(L: Links, z: Tail)
    requires z.TableIs(L)
    ensures z.f in z.t2.chain && z.t2.chain[z.f] == z.ch && TableOk(L, z.t2)
    ensures z.f in z.t.chain && 1 <= |z.t.chain[z.f]| <= |z.ch|
  {
    hide TableOk;
  }

  lemma LinksOnly(g: Geometry, v: Vol, w: Vol, ch: seq<nat>, nc: nat)
    requires Shape(g, v) && Shape(g, w) && ch != [] && 2 <= nc <= g.maxCluster
    requires forall i :: 0 <= i < |ch| ==> 2 <= ch[i] <= g.maxCluster
    requires w.fats[0] == LinksMore(v.fats[0], ch, nc) && w.data == v.data[nc := w.data[nc]]
    ensures Only(g, v, w, {nc} + {ch[|ch| - 1]})
  {
  }

  lemma NotInChain(L: Links, t: Table, f: nat, nc: nat)
    requires TableOk(L, t) && f in t.chain && 2 <= nc < |L| && L[nc] == 0
    ensures nc !in t.chain[f]
  {
    hide ChainsOk, UsedOk;
    FreeIsUnowned(L, t, nc);
  }

  // ----- from the last cluster to the file

  lemma ChainRange(g: Geometry, v: Vol, ch: seq<nat>)
    requires g.Valid() && Shape(g, v) && IsChain(v.fats[0], ch)
    ensures forall i :: 0 <= i < |ch| ==> 2 <= ch[i] <= g.maxCluster
    ensures |ch| >= 1 && Distinct(ch)
  {
  }

  lemma LastBytes(g: Geometry, v: Vol, ch: seq<nat>)
    requires g.Valid() && Shape(g, v) && ch != [] && forall i :: 0 <= i < |ch| ==> 2 <= ch[i] <= g.maxCluster
    ensures ChainBytes(g, v, ch) == ChainBytes(g, v, ch[..|ch| - 1]) + SectorBytes(v.data[ch[|ch| - 1]])
    ensures |ChainBytes(g, v, ch[..|ch| - 1])| == g.Span(|ch| - 1)
    ensures |SectorBytes(v.data[ch[|ch| - 1]])| == g.ClusterBytes()
  {
    assert ch[..|ch| - 1 + 1] == ch;
    ChainBytesNext(g, v, ch, |ch| - 1);
    assert |v.data[ch[|ch| - 1]]| == g.spc;
  }

  // The bytes of a file after its last cluster has been filled up by "take" bytes.
  lemma ToppedUp(g: Geometry, v: Vol, w: Vol, ch: seq<nat>, size: nat, used: nat, buf: seq<byte>, take: nat)
    requires g.Valid() && Shape(g, v) && Shape(g, w) && ch != [] && Distinct(ch)
    requires forall i :: 0 <= i < |ch| ==> 2 <= ch[i] <= g.maxCluster
    requires size == g.Span(|ch| - 1) + used && used + take <= g.ClusterBytes() && take <= |buf|
    requires var last := ch[|ch| - 1];
             && w.data == v.data[last := w.data[last]]
             && SectorBytes(w.data[last])[..used + take] == SectorBytes(v.data[last])[..used] + buf[..take]
    ensures size + take <= g.Span(|ch|)
    ensures Take(ChainBytes(g, w, ch), size + take) == Take(ChainBytes(g, v, ch), size) + buf[..take]
  {
    hide ChainBytes, SectorBytes, Distinct, Take;
    var j := |ch| - 1;
    LastBytes(g, v, ch);
    LastBytes(g, w, ch);
    PrefixKept(g, v, w, ch, j);
    SplitTop(ChainBytes(g, v, ch), ChainBytes(g, w, ch), ChainBytes(g, v, ch[..j]),
             SectorBytes(v.data[ch[j]]), SectorBytes(w.data[ch[j]]), size, used, buf, take);
  }

  lemma SplitTop(X: seq<byte>, Y: seq<byte>, head: seq<byte>, x: seq<byte>, y: seq<byte>,
                 size: nat, used: nat, buf: seq<byte>, take: nat)
    requires X == head + x && Y == head + y && size == |head| + used
    requires used + take <= |x| == |y| && take <= |buf| && y[..used + take] == x[..used] + buf[..take]
    ensures Take(Y, size + take) == Take(X, size) + buf[..take]
  {
    assert X[..size] == head + x[..used];
    assert Y[..size + take] == head + y[..used + take];
  }

  // The last cluster has been filled up, if it was not full.
  ghost predicate Filled(g: Geometry, v: Vol, w: Vol, last: nat, used: nat, buf: seq<byte>, take: nat)
    requires Shape(g, v) && Shape(g, w) && 2 <= last <= g.maxCluster
  {
    if used == 0 then take == 0 && w == v
    else && take <= |buf| && used + take <= 512 * g.spc
         && take == (if used + |buf| <= g.ClusterBytes() then |buf| else g.ClusterBytes() - used)
         && w.data == v.data[last := w.data[last]]
         && SectorBytes(w.data[last])[..used + take] == SectorBytes(v.data[last])[..used] + buf[..take]
  }

  // The number of bytes in use in the last of k clusters, 0 if it is full.
  predicate UsedIs(g: Geometry, k: nat, size: nat, used: nat)
    requires k >= 1
  {
    if size == g.Span(k) then used == 0 else size == g.Span(k - 1) + used && 0 < used < g.ClusterBytes()
  }

  lemma StartBytes(g: Geometry, v: Vol, w: Vol, t: Table, f: nat, ch: seq<nat>, size: nat, used: nat, buf: seq<byte>,
                   take: nat)
    requires g.Valid() && Shape(g, v) && Shape(g, w) && |ch| >= 1 && Distinct(ch)
    requires forall i :: 0 <= i < |ch| ==> 2 <= ch[i] <= g.maxCluster
    requires Fits(g, |ch|, size) && UsedIs(g, |ch|, size, used) && Filled(g, v, w, ch[|ch| - 1], used, buf, take)
    ensures Tail(v, t, t, f, ch, Take(ChainBytes(g, v, ch), size)).BytesAre(g, w, buf, take)
  {
    hide ChainBytes, SectorBytes, Distinct;
    if used != 0 {
      ToppedUp(g, v, w, ch, size, used, buf, take);
    }
  }

  lemma StartTable(L: Links, z: Tail)
    requires z.f in z.t.chain && z.ch == z.t.chain[z.f] && z.t2 == z.t && |z.ch| >= 1 && TableOk(L, z.t)
    ensures z.TableIs(L)
  {
    hide TableOk;
    assert z.ch[|z.ch|..] == [];
    assert z.t.chain[z.f := z.ch] == z.t.chain;
  }

  // The start of an append, after the last cluster has been filled up.
  lemma TailStart(g: Geometry, v: Vol, w: Vol, t: Table, f: nat, ch: seq<nat>, size: nat, used: nat, buf: seq<byte>,
                  take: nat)
    requires Mirrors(g, v) && Mirrors(g, w) && TableOk(v.fats[0], t) && f in t.chain && w.fats == v.fats
    requires ch == t.chain[f] && |ch| >= 1 && Distinct(ch)
    requires forall i :: 0 <= i < |ch| ==> 2 <= ch[i] <= g.maxCluster
    requires Fits(g, |ch|, size) && UsedIs(g, |ch|, size, used) && Filled(g, v, w, ch[|ch| - 1], used, buf, take)
    ensures Tail(v, t, t, f, ch, Take(ChainBytes(g, v, ch), size)).Ok(g, w, buf, take)
  {
    var z := Tail(v, t, t, f, ch, Take(ChainBytes(g, v, ch), size));
    hide TableOk, ChainBytes, SectorBytes, Distinct, Tail.TableIs, Tail.BytesAre, Filled, Only, Fits, UsedIs;
    StartBytes(g, v, w, t, f, ch, size, used, buf, take);
    StartTable(w.fats[0], z);
    FilledOnly(g, v, w, ch, used, buf, take);
  }

  lemma FilledOnly(g: Geometry, v: Vol, w: Vol, ch: seq<nat>, used: nat, buf: seq<byte>, take: nat)
    requires Shape(g, v) && Shape(g, w) && w.fats == v.fats && |ch| >= 1 && 2 <= ch[|ch| - 1] <= g.maxCluster
    requires Filled(g, v, w, ch[|ch| - 1], used, buf, take)
    ensures Only(g, v, w, Members(ch[|ch| - 1..]))
  {
    hide SectorBytes;
    var last := ch[|ch| - 1];
    assert ch[|ch| - 1..][0] == last;
    assert w.data == v.data[last := w.data[last]];
  }

  lemma AgreesBehind(sec: Sector, T: seq<byte>, base: nat, n: nat)
    requires n <= |T| && n <= base
    ensures Agrees(sec, T, base, n)
  {
  }

  lemma TailLast(g: Geometry, z: Tail, v: Vol, buf: seq<byte>, w: nat)
    requires z.Ok(g, v, buf, w) && z.ch != []
    ensures Mirrors(g, v) && w <= |buf| && forall i :: 0 <= i < |z.ch| ==> 2 <= z.ch[i] <= g.maxCluster
    ensures v.fats[0][z.ch[|z.ch| - 1]] != 0
  {
    hide TableOk, Tail.TableIs, Only, ChainBytes;
    TailFacts(v.fats[0], z);
    LastIsUsed(v.fats[0], z.t2, z.f);
  }

  lemma LastIsUsed(L: Links, t: Table, f: nat)
    requires TableOk(L, t) && f in t.chain
    ensures |t.chain[f]| > 0 && 2 <= t.chain[f][|t.chain[f]| - 1] < |L| && L[t.chain[f][|t.chain[f]| - 1]] != 0
  {
    hide OwnersOk, UsedOk;
  }

  lemma DataTwice(x: seq<Cluster>, y: seq<Cluster>, z: seq<Cluster>, c: nat)
    requires c < |x| == |y| == |z| && y == x[c := y[c]] && z == y[c := z[c]]
    ensures z == x[c := z[c]]
  {
  }

  // ----- the end of an append

  lemma ChangedIs(a: Abs, L: Links, z: Tail)
    requires z.TableIs(L) && z.t == a.t && OwnersOk(a.t) && z.f !in a.dirs
    ensures forall c :: c in z.Changed() && c in a.t.own ==> a.t.own[c] == z.f
  {
    hide TableOk;
    var old' := z.t.chain[z.f];
    var k := |old'|;
    forall c | c in z.Changed() && c in a.t.own ensures a.t.own[c] == z.f {
      assert z.ch[k - 1..] == [z.ch[k - 1]] + z.ch[k..];
      assert c == z.ch[k - 1] == old'[k - 1];
      assert c in old';
    }
  }

  lemma AppendSwitched(g: Geometry, v0: Vol, v: Vol, w: Vol, a: Abs, l: Loc, f: nat, S: set<nat>, e: Slot)
    requires Shape(g, v0) && Only(g, v0, v, S) && Shape(g, w) && OwnInRange(g, a.t) && DirLoc(g, a, l) && f !in a.dirs
    requires forall c :: c in S && c in a.t.own ==> a.t.own[c] == f
    requires w.fats == v.fats && w.data == v.data[l.c := PutInCluster(v.data[l.c], l.s, l.i, e)]
    ensures Switched(g, v0, w, a, l, f, e)
  {
    assert l.c !in S;
    assert forall c: nat :: IsDirCluster(a, c) ==> c !in S;
  }

  lemma AppendHolds(g: Geometry, v: Vol, w: Vol, a: Abs, l: Loc, e: Slot, z: Tail, buf: seq<byte>, k: nat)
    requires z.Ok(g, v, buf, k) && Shape(g, w) && z.t == a.t && OwnersOk(a.t) && InVol(g, l)
    requires IsDirCluster(a, l.c) && z.f !in a.dirs
    requires w.fats == v.fats && w.data == v.data[l.c := PutInCluster(v.data[l.c], l.s, l.i, e)]
    ensures HoldsFile(g, w, z.f, z.ch, z.body + buf[..k])
  {
    hide TableOk, ChainBytes, Only;
    TailFacts(v.fats[0], z);
    TailIsChain(v.fats[0], z);
    assert |z.body + buf[..k]| == |z.body| + k;
    assert HoldsFile(g, v, z.f, z.ch, z.body + buf[..k]);
    assert l.c !in z.ch by { NotDirCluster(a, z, l.c); }
    hide HoldsFile, Tail.TableIs;
    HoldsKept(g, v, w, z.f, z.ch, z.body + buf[..k]);
  }

  lemma TailIsChain(L: Links, z: Tail)
    requires z.TableIs(L)
    ensures IsChain(L, z.ch) && z.ch[0] == z.f && z.f != 0
  {
    hide OwnersOk, UsedOk;
    assert z.t2.chain[z.f] == z.ch;
    assert IsChain(L, z.t2.chain[z.f]);
  }

  lemma NotDirCluster(a: Abs, z: Tail, c: nat)
    requires z.t == a.t && OwnersOk(a.t) && IsDirCluster(a, c) && z.f !in a.dirs
    requires z.f in a.t.chain && a.t.chain[z.f] <= z.ch && forall d :: d in z.ch[|a.t.chain[z.f]|..] ==> d !in a.t.own
    ensures c !in z.ch
  {
    var k := |a.t.chain[z.f]|;
    assert c !in a.t.chain[z.f];
    assert z.ch == z.ch[..k] + z.ch[k..];
  }

  // The state after an append of k bytes.
  lemma AppendDone(g: Geometry, v0: Vol, v: Vol, w: Vol, a: Abs, l: Loc, z: Tail, buf: seq<byte>, k: nat)
    requires Inv(g, v0, a) && DirLoc(g, a, l) && Real(SlotAt(g, v0, l)) && !IsDir(SlotAt(g, v0, l))
    requires z.Ok(g, v, buf, k) && z.v0 == v0 && z.t == a.t && z.f == First(SlotAt(g, v0, l)) && z.f >= 2
    requires |z.body| == Size(SlotAt(g, v0, l)) && |z.body| + k < 0x1_0000_0000
    requires Mirrors(g, w) && w.fats == v.fats
    requires w.data ==
             v.data[l.c := PutInCluster(v.data[l.c], l.s, l.i, WithExtent(SlotAt(g, v0, l), z.f, |z.body| + k))]
    ensures Inv(g, w, Abs(z.t2, a.dirs, a.ref[z.f := l]))
    ensures NamesKept(g, v0, a, w, Abs(z.t2, a.dirs, a.ref[z.f := l])) && OneChanged(g, v0, a, w, l)
    ensures ReadsNew(g, v0, w, l, z.body + buf[..k])
  {
    hide Inv, NamesKept, OneChanged, NewImage, TableOk, Tail.TableIs, Only, HoldsFile, Switched, ChainBytes, OwnersOk;
    hide ChainsOk, Rechained;
    hide EntryOk, RealOk, WithExtent, PutInCluster, SlotOf;
    InvShape(g, v0, a);
    var e := SlotAt(g, v0, l);
    var e2 := WithExtent(e, z.f, |z.body| + k);
    InvOwners(g, v0, a);
    FileEntry(g, v0, a, l);
    ChangedIs(a, v.fats[0], z);
    TailFacts(v.fats[0], z);
    AppendSwitched(g, v0, v, w, a, l, z.f, z.Changed(), e2);
    AppendHolds(g, v, w, a, l, e2, z, buf, k);
    SecondHalfReads(g, v0, w, a, l, e2, z.ch, z.body + buf[..k]);
    TableRange(w.fats[0], z.t2);
    TailRechained(v.fats[0], z);
    SwitchedWrite(g, v0, w, a, l, z.f, e2);
    Rechain(g, v0, w, a, l, z.t2, z.f, z.ch, |z.body| + k);
    TableOwners(w.fats[0], z.t2);
    RechainKeeps(g, v0, w, a, l, z.t2, z.f, z.ch, |z.body| + k);
  }

  lemma TableOwners(L: Links, t: Table)
    requires TableOk(L, t)
    ensures OwnersOk(t)
  {
  }

  lemma SwitchedWrite(g: Geometry, v: Vol, w: Vol, a: Abs, l: Loc, was: nat, e: Slot)
    requires Shape(g, v) && Shape(g, w) && OwnInRange(g, a.t) && DirLoc(g, a, l) && Switched(g, v, w, a, l, was, e)
    ensures SlotWrite(g, v, w, a, l, e)
  {
  }

  lemma TailRechained(L: Links, z: Tail)
    requires z.TableIs(L) && z.f != 0
    ensures z.t2.chain == Rechained(z.t, z.f, z.f, z.ch)
  {
    hide TableOk;
  }

  lemma NothingFilled(g: Geometry, v: Vol, last: nat, buf: seq<byte>)
    requires Shape(g, v) && 2 <= last <= g.maxCluster
    ensures Filled(g, v, v, last, 0, buf, 0)
  {
  }

  // Appending nothing.
  lemma NothingAppended(g: Geometry, v: Vol, a: Abs, l: Loc, z: Tail, w: Vol, buf: seq<byte>)
    requires Inv(g, v, a) && DirLoc(g, a, l) && !IsDir(SlotAt(g, v, l))
    requires Content(g, v, SlotAt(g, v, l)) == z.body
    requires z.Ok(g, w, buf, 0) && z.v0 == v && buf != [] && w == v
    ensures ReadsNew(g, v, w, l, z.body + buf[..0])
  {
    hide Inv, TableOk, Only, Resolve, Content, ThroughDirs, Tail.Ok, IsDir, SlotOf, Real;
    assert z.body + buf[..0] == z.body;
    InvShape(g, v, a);
    forall path | ThroughDirs(g, v, g.root, path)
      ensures |path| >= 1 && ReadPath(g, v, path) == if Resolve(g, v, g.root, path) == Some(l) then Some(z.body)
                else ReadPath(g, v, path)
    {
      PathNotEmpty(g, v, g.root, path);
    }
  }

  // The entry at l is not touched before the end.
  lemma EntryKept(g: Geometry, z: Tail, v: Vol, buf: seq<byte>, k: nat, a: Abs, l: Loc)
    requires z.Ok(g, v, buf, k) && z.t == a.t && OwnersOk(a.t) && OwnInRange(g, a.t) && DirLoc(g, a, l)
             && z.f !in a.dirs
    ensures Mirrors(g, v) && SlotAt(g, v, l) == SlotAt(g, z.v0, l)
  {
    hide TableOk, ChainBytes;
    ChangedIs(a, v.fats[0], z);
  }

  lemma BodySize(g: Geometry, v: Vol, ch: seq<nat>, size: nat)
    requires g.Valid() && Shape(g, v) && IsChain(v.fats[0], ch) && Fits(g, |ch|, size)
    ensures (forall i :: 0 <= i < |ch| ==> 2 <= ch[i] <= g.maxCluster) && |Take(ChainBytes(g, v, ch), size)| == size
  {
  }

  lemma UsedBound(g: Geometry, k: nat, size: nat, used: nat)
    requires k >= 1 && UsedIs(g, k, size, used) && used != 0
    ensures used < g.ClusterBytes()
  {
  }

  // Only the file at l has changed: it has the bytes "more" behind those it had.
  ghost predicate Appended(g: Geometry, v: Vol, w: Vol, l: Loc, more: seq<byte>)
    requires Shape(g, v) && Shape(g, w) && InVol(g, l)
  {
    ReadsNew(g, v, w, l, Content(g, v, SlotAt(g, v, l)) + more)
  }
}
