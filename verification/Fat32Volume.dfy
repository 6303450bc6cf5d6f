/**
 The FAT32 volume as the driver sees it through its sector primitives: `numFats` copies of the
 allocation table and the data area, cluster by cluster and sector by sector.  An image of the
 volume is a value, so that the images left behind by every single sector write can be compared.
 (`Fat32Layout` shows how this view is laid out in 512-byte sectors.)
 */
module Fat32Volume {
  import opened Bytes
  import opened Fat32Chains

  function Zeros(n: nat): (z: seq<byte>)
    ensures |z| == n
    ensures forall i :: 0 <= i < n ==> z[i] == 0
  {
    seq(n, _ => 0)
  }

  type Sector = s: seq<byte> | |s| == 512 witness Zeros(512)
  type Cluster = seq<Sector>

  datatype Geometry = Geometry(spc: nat, maxCluster: nat, numFats: nat, root: nat) {
    // "spc" is sectors per cluster.
    predicate Valid() {
      && 1 <= spc <= 255
      && 1 <= numFats <= 255
      && 2 <= root <= maxCluster < 0x0FFFFFF7
    }

    function ClusterBytes(): nat { spc * 512 }

    // The bytes in k clusters.
    function Span(k: nat): nat { if k == 0 then 0 else Span(k - 1) + ClusterBytes() }
  }

  lemma {:induction false} SpanMono(g: Geometry, j: nat, k: nat)
    requires j <= k
    ensures g.Span(j) <= g.Span(k)
    decreases k
  {
    if j < k { SpanMono(g, j, k - 1); }
  }

  lemma {:induction false} SpanIsProduct(g: Geometry, k: nat)
    ensures g.Span(k) == k * g.ClusterBytes()
  {
    if k > 0 {
      SpanIsProduct(g, k - 1);
      assert (k - 1) * g.ClusterBytes() + g.ClusterBytes() == k * g.ClusterBytes();
    }
  }

  // fats[k][c] is the 28-bit link of cluster c in FAT copy k; data[c] is cluster c, whose
  // positions 0 and 1 are fillers, as cluster numbers start at 2.
  datatype Vol = Vol(fats: seq<Links>, data: seq<Cluster>)

  datatype Option<+T> = None | Some(value: T)

  ghost predicate Shape(g: Geometry, v: Vol) {
    && |v.fats| == g.numFats >= 1
    && (forall k :: 0 <= k < |v.fats| ==> |v.fats[k]| == g.maxCluster + 1)
    && |v.data| == g.maxCluster + 1
    && (forall c :: 0 <= c < |v.data| ==> |v.data[c]| == g.spc)
  }

  // All FAT copies are mirrors of the first one, which is the only one that is read.
  ghost predicate CopiesAgree(v: Vol)
    requires |v.fats| >= 1
  {
    forall k :: 0 <= k < |v.fats| ==> v.fats[k] == v.fats[0]
  }

  // The images produced by one sector write.
  function PutFat(g: Geometry, v: Vol, k: nat, c: nat, x: nat): (w: Vol)
    requires Shape(g, v) && k < g.numFats && 2 <= c <= g.maxCluster
    ensures Shape(g, w)
  {
    var fat: Links := v.fats[k];
    var fat': Links := fat[c := x];
    v.(fats := v.fats[k := fat'])
  }

  function PutSector(g: Geometry, v: Vol, c: nat, s: nat, sec: Sector): (w: Vol)
    requires Shape(g, v) && 2 <= c <= g.maxCluster && s < g.spc
    ensures Shape(g, w)
  {
    var cl: Cluster := v.data[c];
    var cl': Cluster := cl[s := sec];
    v.(data := v.data[c := cl'])
  }
}
