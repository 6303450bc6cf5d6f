/**
 The memory file system: nodes in an arena, directories as lists of named entries, and the
 bookkeeping of links, entries, nodes and bytes.
 */
module MemFsModel {
  import opened Bytes

  datatype Entry = Entry(name: string, id: nat)

  datatype Kind = Dir | File | Fifo | Socket | Device

  // "count" is entry_count of a directory; "data" the bytes of a file, fifo or socket.
  datatype Node = Node(kind: Kind, links: int, count: int, entries: seq<Entry>, data: seq<byte>)

  datatype Slot = Gone | Live(n: Node)

  // Node 0 is the root directory.
  type Nodes = seq<Slot>

  datatype State = State(nodes: Nodes, inodes: int, used: int)

  predicate IsLive(ns: Nodes, i: nat) { i < |ns| && ns[i].Live? }

  predicate IsDir(ns: Nodes, i: nat) { IsLive(ns, i) && ns[i].n.kind == Dir }

  predicate Storage(k: Kind) { k == File || k == Fifo || k == Socket }

  predicate Stream(k: Kind) { k == Fifo || k == Socket }

  // ----- sums over all nodes

  function Total(ns: Nodes, f: Slot -> int): int {
    if ns == [] then 0 else Total(ns[..|ns| - 1], f) + f(ns[|ns| - 1])
  }

  lemma TotalAppend(ns: Nodes, s: Slot, f: Slot -> int)
    ensures Total(ns + [s], f) == Total(ns, f) + f(s)
  {
    assert (ns + [s])[..|ns|] == ns;
  }

  lemma {:induction false} TotalUpdate(ns: Nodes, i: nat, s: Slot, f: Slot -> int)
    requires i < |ns|
    ensures Total(ns[i := s], f) == Total(ns, f) - f(ns[i]) + f(s)
  {
    var n := |ns| - 1;
    if i < n {
      TotalUpdate(ns[..n], i, s, f);
      assert ns[i := s][..n] == ns[..n][i := s];
    } else {
      assert ns[i := s][..n] == ns[..n];
    }
  }

  lemma {:induction false} TotalPositive(ns: Nodes, f: Slot -> int, i: nat)
    requires i < |ns| && forall s :: f(s) >= 0
    ensures Total(ns, f) >= f(ns[i]) && Total(ns, f) >= 0
  {
    var n := |ns| - 1;
    if i < n { TotalPositive(ns[..n], f, i); }
    TotalNonNegative(ns[..n], f);
  }

  lemma {:induction false} TotalNonNegative(ns: Nodes, f: Slot -> int)
    requires forall s :: f(s) >= 0
    ensures Total(ns, f) >= 0
  {
    if ns != [] { TotalNonNegative(ns[..|ns| - 1], f); }
  }

  lemma {:induction false} TotalWitness(ns: Nodes, f: Slot -> int)
    requires Total(ns, f) > 0
    ensures exists i :: 0 <= i < |ns| && f(ns[i]) > 0
  {
    if ns != [] {
      var n := |ns| - 1;
      if f(ns[n]) <= 0 {
        TotalWitness(ns[..n], f);
        var i :| 0 <= i < n && f(ns[..n][i]) > 0;
        assert f(ns[i]) > 0;
      }
    }
  }

  // How many of the entries name node id.
  function Naming(es: seq<Entry>, id: nat): nat {
    if es == [] then 0 else (if es[0].id == id then 1 else 0) + Naming(es[1..], id)
  }

  function NamesOf(id: nat): Slot -> int { (s: Slot) => if s.Live? then Naming(s.n.entries, id) else 0 }

  function OneIfLive(): Slot -> int { (s: Slot) => if s.Live? then 1 else 0 }

  function BytesIn(): Slot -> int { (s: Slot) => if s.Live? then |s.n.data| else 0 }

  lemma {:induction false} NamingAre(es: seq<Entry>, id: nat)
    ensures Naming(es, id) > 0 <==> exists k :: 0 <= k < |es| && es[k].id == id
  {
    if es != [] {
      NamingAre(es[1..], id);
      if k :| 0 <= k < |es| && es[k].id == id {
        if k > 0 { assert es[1..][k - 1] == es[k]; }
      }
      if Naming(es[1..], id) > 0 {
        var k :| 0 <= k < |es[1..]| && es[1..][k].id == id;
        assert es[k + 1].id == id;
      }
    }
  }

  lemma {:induction false} NamingWithout(es: seq<Entry>, k: nat, id: nat)
    requires k < |es|
    ensures Naming(es[..k] + es[k + 1..], id) == Naming(es, id) - if es[k].id == id then 1 else 0
  {
    if k == 0 {
      assert es[..0] + es[1..] == es[1..];
    } else {
      NamingWithout(es[1..], k - 1, id);
      assert (es[..k] + es[k + 1..])[1..] == es[1..][..k - 1] + es[1..][k..];
    }
  }

  // ----- the invariant

  predicate UniqueNames(es: seq<Entry>) { forall j, k :: 0 <= j < k < |es| ==> es[j].name != es[k].name }

  // A directory keeps count of its entries, and each names a live node.
  predicate EntriesOk(ns: Nodes, i: nat)
    requires IsLive(ns, i)
  {
    var n := ns[i].n;
    && n.count == |n.entries| && UniqueNames(n.entries) && (n.kind != Dir ==> n.entries == [])
    && forall k :: 0 <= k < |n.entries| ==> IsLive(ns, n.entries[k].id)
  }

  ghost predicate AllEntriesOk(ns: Nodes) { forall i: nat :: IsLive(ns, i) ==> EntriesOk(ns, i) }

  // The link count of a node is the number of entries that name it (and one for the root).
  ghost predicate LinkOk(ns: Nodes, i: nat)
    requires IsLive(ns, i)
  {
    ns[i].n.links == Total(ns, NamesOf(i)) + (if i == 0 then 1 else 0) && ns[i].n.links >= 1
  }

  ghost predicate LinksOk(ns: Nodes) { forall i: nat :: IsLive(ns, i) ==> LinkOk(ns, i) }

  // Every node can be reached from the root.
  ghost predicate Connected(ns: Nodes) { forall i: nat :: IsLive(ns, i) ==> Reached(ns, i) }

  ghost predicate Reached(ns: Nodes, i: nat) { exists path :: Walk(ns, 0, path) == i }

  // What all operations keep.
  ghost predicate Inv(s: State) {
    && IsDir(s.nodes, 0) && AllEntriesOk(s.nodes) && LinksOk(s.nodes) && Connected(s.nodes)
    && s.inodes == Total(s.nodes, OneIfLive()) && s.used == Total(s.nodes, BytesIn())
  }

  // The directories form a tree: the root has no name, every other directory has one.  All
  // operations keep this but a link to a directory; TreeMeans says what it is worth.
  ghost predicate Tree(ns: Nodes) { forall i: nat :: IsDir(ns, i) ==> ns[i].n.links == 1 }

  // ----- names and nodes

  // Entry k of node p is there, and names node t.
  predicate Names(ns: Nodes, p: nat, k: nat, t: nat) {
    IsLive(ns, p) && k < |ns[p].n.entries| && ns[p].n.entries[k].id == t
  }

  lemma NamedMeans(ns: Nodes, id: nat)
    ensures Total(ns, NamesOf(id)) >= 0
    ensures Total(ns, NamesOf(id)) > 0 <==> exists p: nat, k: nat :: Names(ns, p, k, id)
  {
    var f := NamesOf(id);
    TotalNonNegative(ns, f);
    if Total(ns, f) > 0 {
      TotalWitness(ns, f);
      var i :| 0 <= i < |ns| && f(ns[i]) > 0;
      NamingAre(ns[i].n.entries, id);
      var k :| 0 <= k < |ns[i].n.entries| && ns[i].n.entries[k].id == id;
      assert Names(ns, i, k, id);
    }
    if i: nat, k: nat :| Names(ns, i, k, id) {
      NamingAre(ns[i].n.entries, id);
      TotalPositive(ns, f, i);
    }
  }

  // ----- looking up

  // lookup_dentry: the first entry with the name, or |es|.
  function Find(es: seq<Entry>, name: string, i: nat): (k: nat)
    requires i <= |es|
    ensures i <= k <= |es| && (k < |es| ==> es[k].name == name) && forall j :: i <= j < k ==> es[j].name != name
    decreases |es| - i
  {
    if i == |es| || es[i].name == name then i else Find(es, name, i + 1)
  }

  lemma FindUnique(es: seq<Entry>, name: string, k: nat)
    requires UniqueNames(es) && k < |es| && es[k].name == name
    ensures Find(es, name, 0) == k
  {
  }

  // One component: the node it leads to, or -1.
  function Child(ns: Nodes, i: int, name: string): int {
    if i >= 0 && IsDir(ns, i) && Find(ns[i].n.entries, name, 0) < |ns[i].n.entries|
    then ns[i].n.entries[Find(ns[i].n.entries, name, 0)].id else -1
  }

  // lookup_path, from node i.
  function Walk(ns: Nodes, i: int, path: seq<string>): int
    decreases |path|
  {
    if path == [] || i < 0 then i else Walk(ns, Child(ns, i, path[0]), path[1..])
  }

  lemma {:induction false} WalkSnoc(ns: Nodes, i: int, path: seq<string>, name: string)
    requires i >= -1
    ensures Walk(ns, i, path + [name]) == Child(ns, Walk(ns, i, path), name)
    decreases |path|
  {
    if path == [] {
      assert [name][1..] == [];
    } else if i >= 0 {
      assert (path + [name])[1..] == path[1..] + [name];
      WalkSnoc(ns, Child(ns, i, path[0]), path[1..], name);
    }
  }

  // Something that is no directory stands on the way.
  ghost predicate InTheWay(ns: Nodes, path: seq<string>) {
    exists i :: 0 <= i <= |path| && Blocks(ns, path, i)
  }

  predicate Blocks(ns: Nodes, path: seq<string>, i: nat)
    requires i <= |path|
  {
    Walk(ns, 0, path[..i]) >= 0 && !IsDir(ns, Walk(ns, 0, path[..i]))
  }

  lemma WalkNowhere(ns: Nodes, from: int, path: seq<string>)
    ensures from < 0 ==> Walk(ns, from, path) == from
  {
  }

  // A walk that arrives passes through directories only.
  lemma {:induction false} WalkThrough(ns: Nodes, from: int, path: seq<string>, i: nat)
    requires Walk(ns, from, path) >= 0 && i < |path|
    ensures Walk(ns, from, path[..i]) >= 0 && IsDir(ns, Walk(ns, from, path[..i]))
    decreases |path|
  {
    var c := Child(ns, from, path[0]);
    assert Walk(ns, from, path) == if from < 0 then from else Walk(ns, c, path[1..]);
    WalkNowhere(ns, c, path[1..]);
    if i > 0 {
      WalkThrough(ns, c, path[1..], i - 1);
      assert path[..i][0] == path[0] && path[..i][1..] == path[1..][..i - 1];
    } else {
      assert path[..0] == [];
    }
  }

  // ----- the four ways the nodes change

  function WithEntry(n: Node, name: string, id: nat): Node {
    n.(entries := [Entry(name, id)] + n.entries, count := n.count + 1)
  }

  function WithoutEntry(n: Node, k: nat): Node
    requires k < |n.entries|
  {
    n.(entries := n.entries[..k] + n.entries[k + 1..], count := n.count - 1)
  }

  predicate Fresh(ns: Nodes, p: nat, name: string) {
    IsDir(ns, p) && Find(ns[p].n.entries, name, 0) == |ns[p].n.entries|
  }

  // A new node, under a new name.
  function AddNode(s: State, p: nat, name: string, kind: Kind): State
    requires IsLive(s.nodes, p)
  {
    s.(nodes := s.nodes[p := Live(WithEntry(s.nodes[p].n, name, |s.nodes|))] + [Live(Node(kind, 1, 0, [], []))],
       inodes := s.inodes + 1)
  }

  // A new name for a node.
  function AddLink(s: State, p: nat, name: string, t: nat): State
    requires IsLive(s.nodes, p) && IsLive(s.nodes, t)
  {
    var ns := s.nodes[p := Live(WithEntry(s.nodes[p].n, name, t))];
    s.(nodes := ns[t := Live(ns[t].n.(links := ns[t].n.links + 1))])
  }

  // The node an entry names.
  function Target(s: State, p: nat, k: nat): nat
    requires IsLive(s.nodes, p) && k < |s.nodes[p].n.entries|
  {
    s.nodes[p].n.entries[k].id
  }

  // A name is taken away, and the node with it if it was the last name.
  function DropEntry(s: State, p: nat, k: nat): State
    requires IsLive(s.nodes, p) && k < |s.nodes[p].n.entries| && IsLive(s.nodes, Target(s, p, k))
             && Target(s, p, k) != p
  {
    var t := Target(s, p, k);
    var n := s.nodes[t].n;
    var ns := s.nodes[p := Live(WithoutEntry(s.nodes[p].n, k))];
    if n.links - 1 == 0 then State(ns[t := Gone], s.inodes - 1, s.used - |n.data|)
    else s.(nodes := ns[t := Live(n.(links := n.links - 1))])
  }

  function SetData(s: State, t: nat, data: seq<byte>): State
    requires IsLive(s.nodes, t)
  {
    s.(nodes := s.nodes[t := Live(s.nodes[t].n.(data := data))], used := s.used - |s.nodes[t].n.data| + |data|)
  }

  // mkdir_p from the directory i: the components that are missing become directories.  The second
  // result is the directory reached, or -1.
  function MadeDirs(s: State, i: nat, path: seq<string>): (State, int)
    requires IsDir(s.nodes, i)
    decreases |path|
  {
    if path == [] then
      var here: int := i;
      (s, here)
    else
      var c := Child(s.nodes, i, path[0]);
      if c < 0 then MadeDirs(AddNode(s, i, path[0], Dir), |s.nodes|, path[1..])
      else if IsDir(s.nodes, c) then MadeDirs(s, c, path[1..])
      else (s, -1)
  }

  // ----- adding a node

  lemma AddedNames(ns: Nodes, p: nat, name: string, id: nat, kind: Kind, i: nat)
    requires IsLive(ns, p)
    ensures Total(ns[p := Live(WithEntry(ns[p].n, name, id))] + [Live(Node(kind, 1, 0, [], []))], NamesOf(i)) ==
            Total(ns, NamesOf(i)) + if i == id then 1 else 0
  {
    NamedOnceMore(ns, p, name, id, i);
    TotalAppend(ns[p := Live(WithEntry(ns[p].n, name, id))], Live(Node(kind, 1, 0, [], [])), NamesOf(i));
  }

  lemma NamedOnceMore(ns: Nodes, p: nat, name: string, id: nat, i: nat)
    requires IsLive(ns, p)
    ensures Total(ns[p := Live(WithEntry(ns[p].n, name, id))], NamesOf(i)) ==
            Total(ns, NamesOf(i)) + if i == id then 1 else 0
  {
    var n := WithEntry(ns[p].n, name, id);
    TotalUpdate(ns, p, Live(n), NamesOf(i));
    assert n.entries[1..] == ns[p].n.entries;
  }

  lemma AddNodeLinks(s: State, p: nat, name: string, kind: Kind)
    requires AllEntriesOk(s.nodes) && LinksOk(s.nodes) && Fresh(s.nodes, p, name) && IsDir(s.nodes, 0)
    ensures LinksOk(AddNode(s, p, name, kind).nodes)
  {
    var ns, ms := s.nodes, AddNode(s, p, name, kind).nodes;
    hide Total, NamesOf, Find;
    forall i: nat | IsLive(ms, i) ensures LinkOk(ms, i) {
      AddedNames(ns, p, name, |ns|, kind, i);
      if i < |ns| {
        assert LinkOk(ns, i);
      } else {
        NotNamed(s);
      }
    }
  }

  // The next free place of the arena is named nowhere.
  lemma NotNamed(s: State)
    requires AllEntriesOk(s.nodes)
    ensures Total(s.nodes, NamesOf(|s.nodes|)) == 0
  {
    hide Total, NamesOf;
    NamedMeans(s.nodes, |s.nodes|);
    forall i: nat, k: nat ensures !Names(s.nodes, i, k, |s.nodes|) {
      if IsLive(s.nodes, i) { assert EntriesOk(s.nodes, i); }
    }
  }

  lemma AddNodeEntries(s: State, p: nat, name: string, kind: Kind)
    requires AllEntriesOk(s.nodes) && Fresh(s.nodes, p, name)
    ensures AllEntriesOk(AddNode(s, p, name, kind).nodes)
  {
    var ns, ms := s.nodes, AddNode(s, p, name, kind).nodes;
    assert forall i: nat :: i < |ns| && i != p ==> ms[i] == ns[i];
    forall i: nat | IsLive(ms, i) ensures EntriesOk(ms, i) {
      if i < |ns| { assert EntriesOk(ns, i); }
    }
  }

  lemma AddNodeTotals(s: State, p: nat, name: string, kind: Kind)
    requires s.inodes == Total(s.nodes, OneIfLive()) && s.used == Total(s.nodes, BytesIn()) && IsLive(s.nodes, p)
    ensures var r := AddNode(s, p, name, kind);
            r.inodes == Total(r.nodes, OneIfLive()) && r.used == Total(r.nodes, BytesIn())
  {
    var n := Live(WithEntry(s.nodes[p].n, name, |s.nodes|));
    TotalUpdate(s.nodes, p, n, OneIfLive());
    TotalUpdate(s.nodes, p, n, BytesIn());
    TotalAppend(s.nodes[p := n], Live(Node(kind, 1, 0, [], [])), OneIfLive());
    TotalAppend(s.nodes[p := n], Live(Node(kind, 1, 0, [], [])), BytesIn());
  }

  lemma AddNodeKeeps(s: State, p: nat, name: string, kind: Kind)
    requires Inv(s) && Fresh(s.nodes, p, name)
    ensures Inv(AddNode(s, p, name, kind))
    ensures Tree(AddNode(s, p, name, kind).nodes) <==> Tree(s.nodes)
  {
    hide AllEntriesOk, LinksOk, Connected, Total;
    AddNodeLinks(s, p, name, kind);
    AddNodeEntries(s, p, name, kind);
    AddNodeTotals(s, p, name, kind);
    AddNodeConnected(s, p, name, kind);
    AddNodeTree(s, p, name, kind);
  }

  lemma AddNodeTree(s: State, p: nat, name: string, kind: Kind)
    requires IsDir(s.nodes, p)
    ensures Tree(AddNode(s, p, name, kind).nodes) <==> Tree(s.nodes)
  {
    var ns, ms := s.nodes, AddNode(s, p, name, kind).nodes;
    assert forall i: nat :: i < |ns| ==>
             (IsDir(ms, i) <==> IsDir(ns, i)) && (IsDir(ns, i) ==> ms[i].n.links == ns[i].n.links);
    if Tree(ms) {
      forall i: nat | IsDir(ns, i) ensures ns[i].n.links == 1 { assert IsDir(ms, i); }
    }
  }

  lemma AddNodeConnected(s: State, p: nat, name: string, kind: Kind)
    requires Connected(s.nodes) && Fresh(s.nodes, p, name)
    ensures Connected(AddNode(s, p, name, kind).nodes)
  {
    var ns, ms := s.nodes, AddNode(s, p, name, kind).nodes;
    hide Walk, Child, Find;
    AddNodeExtends(s, p, name, kind);
    forall i: nat | IsLive(ms, i) ensures Reached(ms, i) {
      if i < |ns| {
        ReachedStays(ns, ms, i);
      } else {
        ReachedStays(ns, ms, p);
        var up :| Walk(ms, 0, up) == p;
        WalkSnoc(ms, 0, up, name);
        assert Walk(ms, 0, up + [name]) == i;
      }
    }
  }

  lemma ReachedStays(ns: Nodes, ms: Nodes, i: nat)
    requires Extends(ns, ms) && Reached(ns, i)
    ensures Reached(ms, i)
  {
    hide Walk;
    var path :| Walk(ns, 0, path) == i;
    WalkExtends(ns, ms, 0, path);
  }

  // ----- adding a name

  /** A link keeps the bookkeeping, whatever it is to; the tree it keeps unless it is to a
      directory. */
  lemma AddLinkKeeps(s: State, p: nat, name: string, t: nat)
    requires Inv(s) && Fresh(s.nodes, p, name) && IsLive(s.nodes, t)
    ensures Inv(AddLink(s, p, name, t))
    ensures Tree(AddLink(s, p, name, t).nodes) <==> Tree(s.nodes) && !IsDir(s.nodes, t)
  {
    hide AllEntriesOk, LinksOk, Connected, Total;
    AddLinkLinks(s, p, name, t);
    AddLinkEntries(s, p, name, t);
    AddLinkTotals(s, p, name, t);
    AddLinkConnected(s, p, name, t);
    AddLinkTree(s, p, name, t);
  }

  lemma AddLinkTree(s: State, p: nat, name: string, t: nat)
    requires LinksOk(s.nodes) && IsDir(s.nodes, p) && IsLive(s.nodes, t)
    ensures Tree(AddLink(s, p, name, t).nodes) <==> Tree(s.nodes) && !IsDir(s.nodes, t)
  {
    var ns, ms := s.nodes, AddLink(s, p, name, t).nodes;
    hide Total, NamesOf;
    assert LinkOk(ns, t);
    assert forall i: nat :: IsDir(ms, i) <==> IsDir(ns, i);
    assert forall i: nat :: IsDir(ns, i) ==> ms[i].n.links == ns[i].n.links + if i == t then 1 else 0;
    if Tree(ms) {
      forall i: nat | IsDir(ns, i) ensures ns[i].n.links == 1 && i != t { assert IsDir(ms, i); }
    }
  }

  lemma AddLinkConnected(s: State, p: nat, name: string, t: nat)
    requires Connected(s.nodes) && Fresh(s.nodes, p, name) && IsLive(s.nodes, t)
    ensures Connected(AddLink(s, p, name, t).nodes)
  {
    var ns, ms := s.nodes, AddLink(s, p, name, t).nodes;
    hide Walk, Child, Find;
    AddLinkExtends(s, p, name, t);
    forall i: nat | IsLive(ms, i) ensures Reached(ms, i) { ReachedStays(ns, ms, i); }
  }

  lemma AddLinkLinks(s: State, p: nat, name: string, t: nat)
    requires LinksOk(s.nodes) && IsDir(s.nodes, p) && IsLive(s.nodes, t)
    ensures LinksOk(AddLink(s, p, name, t).nodes)
  {
    var ns, ms := s.nodes, AddLink(s, p, name, t).nodes;
    hide Total, NamesOf;
    forall i: nat | IsLive(ms, i) ensures LinkOk(ms, i) {
      LinkedNames(s, p, name, t, i);
      assert LinkOk(ns, i);
    }
  }

  lemma LinkedNames(s: State, p: nat, name: string, t: nat, i: nat)
    requires IsLive(s.nodes, p) && IsLive(s.nodes, t)
    ensures Total(AddLink(s, p, name, t).nodes, NamesOf(i)) == Total(s.nodes, NamesOf(i)) + if i == t then 1 else 0
  {
    NamedOnceMore(s.nodes, p, name, t, i);
    var ns := s.nodes[p := Live(WithEntry(s.nodes[p].n, name, t))];
    TotalUpdate(ns, t, Live(ns[t].n.(links := ns[t].n.links + 1)), NamesOf(i));
  }

  lemma AddLinkEntries(s: State, p: nat, name: string, t: nat)
    requires AllEntriesOk(s.nodes) && Fresh(s.nodes, p, name) && IsLive(s.nodes, t)
    ensures AllEntriesOk(AddLink(s, p, name, t).nodes)
  {
    var ns, ms := s.nodes, AddLink(s, p, name, t).nodes;
    assert forall i: nat :: i < |ns| && i != p && i != t ==> ms[i] == ns[i];
    forall i: nat | IsLive(ms, i) ensures EntriesOk(ms, i) { assert EntriesOk(ns, i); }
  }

  lemma AddLinkTotals(s: State, p: nat, name: string, t: nat)
    requires s.inodes == Total(s.nodes, OneIfLive()) && s.used == Total(s.nodes, BytesIn())
    requires IsLive(s.nodes, p) && IsLive(s.nodes, t)
    ensures var r := AddLink(s, p, name, t);
            r.inodes == Total(r.nodes, OneIfLive()) && r.used == Total(r.nodes, BytesIn())
  {
    var n := Live(WithEntry(s.nodes[p].n, name, t));
    var ns := s.nodes[p := n];
    var m := Live(ns[t].n.(links := ns[t].n.links + 1));
    TotalUpdate(s.nodes, p, n, OneIfLive());
    TotalUpdate(s.nodes, p, n, BytesIn());
    TotalUpdate(ns, t, m, OneIfLive());
    TotalUpdate(ns, t, m, BytesIn());
  }

  // ----- taking a name away

  // The entry may go: it names a node without entries of its own.
  predicate Droppable(s: State, p: nat, k: nat) {
    && IsDir(s.nodes, p) && k < |s.nodes[p].n.entries|
    && IsLive(s.nodes, Target(s, p, k)) && s.nodes[Target(s, p, k)].n.entries == [] && Target(s, p, k) != 0
  }

  lemma DropKeeps(s: State, p: nat, k: nat)
    requires Inv(s) && Droppable(s, p, k)
    ensures Target(s, p, k) != p && Inv(DropEntry(s, p, k))
    ensures Tree(s.nodes) ==> Tree(DropEntry(s, p, k).nodes)
  {
    hide AllEntriesOk, LinksOk, Connected, Total;
    DropLinks(s, p, k);
    DropEntries(s, p, k);
    DropTotals(s, p, k);
    DropConnected(s, p, k);
    if Tree(s.nodes) { DropTree(s, p, k); }
  }

  lemma DropTree(s: State, p: nat, k: nat)
    requires Droppable(s, p, k) && Target(s, p, k) != p && Tree(s.nodes)
    ensures Tree(DropEntry(s, p, k).nodes)
  {
    var ms := DropEntry(s, p, k).nodes;
    forall i: nat | IsDir(ms, i) ensures ms[i].n.links == 1 { assert IsDir(s.nodes, i); }
  }

  /** A delete cuts no other node off. */
  lemma DropConnected(s: State, p: nat, k: nat)
    requires AllEntriesOk(s.nodes) && LinksOk(s.nodes) && Connected(s.nodes) && Droppable(s, p, k)
             && Target(s, p, k) != p
    requires AllEntriesOk(DropEntry(s, p, k).nodes) && LinksOk(DropEntry(s, p, k).nodes)
    ensures Connected(DropEntry(s, p, k).nodes)
  {
    var t, ns, ms := Target(s, p, k), s.nodes, DropEntry(s, p, k).nodes;
    forall i: nat | IsLive(ms, i) ensures Reached(ms, i) {
      assert Reached(ns, i);
      if i != t {
        PathPassesBy(s, p, k, i);
      } else {
        assert LinkOk(ms, i);
        NamedMeans(ms, i);
        var q: nat, j: nat :| Names(ms, q, j, i);
        assert Reached(ns, q);
        PathPassesBy(s, p, k, q);
        NamedIsReached(ms, q, j);
      }
    }
  }

  lemma NamedIsReached(ns: Nodes, p: nat, k: nat)
    requires AllEntriesOk(ns) && Reached(ns, p) && IsLive(ns, p) && k < |ns[p].n.entries|
    ensures Reached(ns, ns[p].n.entries[k].id)
  {
    var up :| Walk(ns, 0, up) == p;
    var name := ns[p].n.entries[k].name;
    WalkSnoc(ns, 0, up, name);
    assert EntriesOk(ns, p);
    FindUnique(ns[p].n.entries, name, k);
    assert Walk(ns, 0, up + [name]) == ns[p].n.entries[k].id;
  }

  lemma PathPassesBy(s: State, p: nat, k: nat, i: nat)
    requires AllEntriesOk(s.nodes) && Droppable(s, p, k) && Target(s, p, k) != p && i != Target(s, p, k)
             && Reached(s.nodes, i)
    ensures Reached(DropEntry(s, p, k).nodes, i)
  {
    var path :| Walk(s.nodes, 0, path) == i;
    WalkPassesBy(s, p, k, 0, path);
  }

  // The target has no entries, so that paths to other nodes do not pass it.
  lemma {:induction false} WalkPassesBy(s: State, p: nat, k: nat, from: nat, path: seq<string>)
    requires AllEntriesOk(s.nodes) && Droppable(s, p, k) && Target(s, p, k) != p
    requires Walk(s.nodes, from, path) >= 0 && Walk(s.nodes, from, path) != Target(s, p, k)
    ensures Walk(DropEntry(s, p, k).nodes, from, path) == Walk(s.nodes, from, path)
    decreases |path|
  {
    if path != [] {
      var c := Child(s.nodes, from, path[0]);
      assert Walk(s.nodes, from, path) == Walk(s.nodes, c, path[1..]);
      WalkNowhere(s.nodes, c, path[1..]);
      FromTarget(s, p, k, path[1..]);
      assert c != Target(s, p, k);
      DropChild(s, p, k, from, path[0]);
      WalkPassesBy(s, p, k, c, path[1..]);
    }
  }

  lemma FromTarget(s: State, p: nat, k: nat, path: seq<string>)
    requires Droppable(s, p, k)
    ensures Walk(s.nodes, Target(s, p, k), path) == -1 || Walk(s.nodes, Target(s, p, k), path) == Target(s, p, k)
  {
    var t := Target(s, p, k);
    if path != [] {
      assert Child(s.nodes, t, path[0]) == -1;
      WalkNowhere(s.nodes, -1, path[1..]);
    }
  }

  lemma DroppedNames(s: State, p: nat, k: nat, i: nat)
    requires Droppable(s, p, k)
    ensures Target(s, p, k) != p
    ensures Total(DropEntry(s, p, k).nodes, NamesOf(i)) ==
            Total(s.nodes, NamesOf(i)) - if i == Target(s, p, k) then 1 else 0
  {
    var t, ns := Target(s, p, k), s.nodes;
    var n := WithoutEntry(ns[p].n, k);
    TotalUpdate(ns, p, Live(n), NamesOf(i));
    NamingWithout(ns[p].n.entries, k, i);
    var ms := DropEntry(s, p, k).nodes;
    TotalUpdate(ns[p := Live(n)], t, ms[t], NamesOf(i));
  }

  lemma DropLinks(s: State, p: nat, k: nat)
    requires AllEntriesOk(s.nodes) && LinksOk(s.nodes) && IsDir(s.nodes, 0) && Droppable(s, p, k)
    ensures Target(s, p, k) != p && IsDir(DropEntry(s, p, k).nodes, 0) && LinksOk(DropEntry(s, p, k).nodes)
  {
    DroppedNames(s, p, k, 0);
    var ns, ms := s.nodes, DropEntry(s, p, k).nodes;
    hide Total, NamesOf;
    forall i: nat | IsLive(ms, i) ensures LinkOk(ms, i) {
      DroppedNames(s, p, k, i);
      assert LinkOk(ns, i);
    }
  }

  lemma DropEntries(s: State, p: nat, k: nat)
    requires AllEntriesOk(s.nodes) && LinksOk(s.nodes) && Droppable(s, p, k)
    ensures Target(s, p, k) != p && AllEntriesOk(DropEntry(s, p, k).nodes)
  {
    DroppedNames(s, p, k, Target(s, p, k));
    var t, ns, ms := Target(s, p, k), s.nodes, DropEntry(s, p, k).nodes;
    assert LinkOk(ns, t);
    hide Total, NamesOf;
    NamedMeans(ms, t);
    assert forall i: nat :: i < |ns| && i != p && i != t ==> ms[i] == ns[i];
    forall i: nat | IsLive(ms, i) ensures EntriesOk(ms, i) {
      assert EntriesOk(ns, i);
      assert forall j :: 0 <= j < |ms[i].n.entries| && ms[i].n.entries[j].id == t ==> Names(ms, i, j, t);
      DropOne(s, p, k, i);
    }
  }

  lemma DropOne(s: State, p: nat, k: nat, i: nat)
    requires Droppable(s, p, k) && Target(s, p, k) != p
    requires var ms := DropEntry(s, p, k).nodes; IsLive(ms, i)
    requires IsLive(s.nodes, i) && EntriesOk(s.nodes, i)
    requires var t, ms := Target(s, p, k), DropEntry(s, p, k).nodes;
             ms[t].Gone? ==> forall j :: 0 <= j < |ms[i].n.entries| ==> ms[i].n.entries[j].id != t
    ensures EntriesOk(DropEntry(s, p, k).nodes, i)
  {
    var t, ns, ms := Target(s, p, k), s.nodes, DropEntry(s, p, k).nodes;
    var es, fs := ns[i].n.entries, ms[i].n.entries;
    assert i != p ==> fs == es;
    assert i == p ==> fs == es[..k] + es[k + 1..];
    forall j | 0 <= j < |fs| ensures fs[j] == es[if i == p && j >= k then j + 1 else j] {
    }
    forall x: nat | x < |ns| && x != t && IsLive(ns, x) ensures IsLive(ms, x) && ms[x].n.kind == ns[x].n.kind {
    }
  }

  lemma DropTotals(s: State, p: nat, k: nat)
    requires s.inodes == Total(s.nodes, OneIfLive()) && s.used == Total(s.nodes, BytesIn()) && Droppable(s, p, k)
    ensures Target(s, p, k) != p
    ensures var r := DropEntry(s, p, k); r.inodes == Total(r.nodes, OneIfLive()) && r.used == Total(r.nodes, BytesIn())
  {
    var t, n, r := Target(s, p, k), Live(WithoutEntry(s.nodes[p].n, k)), DropEntry(s, p, k);
    TotalUpdate(s.nodes, p, n, OneIfLive());
    TotalUpdate(s.nodes, p, n, BytesIn());
    TotalUpdate(s.nodes[p := n], t, r.nodes[t], OneIfLive());
    TotalUpdate(s.nodes[p := n], t, r.nodes[t], BytesIn());
  }

  // ----- data

  lemma DataKeeps(s: State, t: nat, data: seq<byte>)
    requires Inv(s) && IsLive(s.nodes, t)
    ensures Inv(SetData(s, t, data)) && (Tree(SetData(s, t, data).nodes) <==> Tree(s.nodes))
  {
    hide Connected;
    DataTree(s, t, data);
    DataConnected(s, t, data);
    var ns, ms := s.nodes, SetData(s, t, data).nodes;
    TotalUpdate(ns, t, ms[t], OneIfLive());
    TotalUpdate(ns, t, ms[t], BytesIn());
    forall i: nat | IsLive(ms, i) ensures EntriesOk(ms, i) && LinkOk(ms, i) {
      assert EntriesOk(ns, i) && LinkOk(ns, i);
      TotalUpdate(ns, t, ms[t], NamesOf(i));
    }
  }

  lemma DataTree(s: State, t: nat, data: seq<byte>)
    requires IsLive(s.nodes, t)
    ensures Tree(SetData(s, t, data).nodes) <==> Tree(s.nodes)
  {
    var ns, ms := s.nodes, SetData(s, t, data).nodes;
    assert forall i: nat :: IsDir(ms, i) <==> IsDir(ns, i);
    assert forall i: nat :: IsDir(ns, i) ==> ms[i].n.links == ns[i].n.links;
    if Tree(ms) {
      forall i: nat | IsDir(ns, i) ensures ns[i].n.links == 1 { assert IsDir(ms, i); }
    }
  }

  lemma DataConnected(s: State, t: nat, data: seq<byte>)
    requires Connected(s.nodes) && IsLive(s.nodes, t)
    ensures Connected(SetData(s, t, data).nodes)
  {
    var ns, ms := s.nodes, SetData(s, t, data).nodes;
    forall i: nat | IsLive(ms, i) ensures Reached(ms, i) {
      assert Reached(ns, i);
      var path :| Walk(ns, 0, path) == i;
      DataWalk(s, t, data, 0, path);
    }
  }

  lemma {:induction false} DataWalk(s: State, t: nat, data: seq<byte>, i: int, path: seq<string>)
    requires IsLive(s.nodes, t)
    ensures Walk(SetData(s, t, data).nodes, i, path) == Walk(s.nodes, i, path)
    decreases |path|
  {
    if path != [] && i >= 0 {
      assert Child(SetData(s, t, data).nodes, i, path[0]) == Child(s.nodes, i, path[0]);
      DataWalk(s, t, data, Child(s.nodes, i, path[0]), path[1..]);
    }
  }

  // ----- what the changes mean for paths

  // Every component that led somewhere still leads there, to a node of the same kind that holds
  // the same bytes.
  ghost predicate Extends(ns: Nodes, ms: Nodes) {
    (forall i: int, name :: Child(ns, i, name) >= 0 ==> Child(ms, i, name) == Child(ns, i, name)) && Kept(ns, ms)
  }

  ghost predicate Kept(ns: Nodes, ms: Nodes) {
    forall i: nat :: IsLive(ns, i) ==> IsLive(ms, i) && ms[i].n.kind == ns[i].n.kind && ms[i].n.data == ns[i].n.data
  }

  lemma {:induction false} WalkExtends(ns: Nodes, ms: Nodes, i: int, path: seq<string>)
    requires Extends(ns, ms) && Walk(ns, i, path) >= 0
    ensures Walk(ms, i, path) == Walk(ns, i, path)
    decreases |path|
  {
    if path != [] && i >= 0 {
      var c := Child(ns, i, path[0]);
      assert Walk(ns, i, path) == Walk(ns, c, path[1..]);
      if c >= 0 { WalkExtends(ns, ms, c, path[1..]); }
    }
  }

  lemma FindBehind(e: Entry, es: seq<Entry>, name: string)
    ensures Find([e] + es, name, 0) == if e.name == name then 0 else 1 + Find(es, name, 0)
  {
    var fs := [e] + es;
    if e.name != name { FindShift(e, es, name, 0); }
  }

  lemma {:induction false} FindShift(e: Entry, es: seq<Entry>, name: string, i: nat)
    requires i <= |es|
    ensures Find([e] + es, name, i + 1) == 1 + Find(es, name, i)
    decreases |es| - i
  {
    if i < |es| && es[i].name != name { FindShift(e, es, name, i + 1); }
  }

  lemma AddNodeExtends(s: State, p: nat, name: string, kind: Kind)
    requires Fresh(s.nodes, p, name)
    ensures Extends(s.nodes, AddNode(s, p, name, kind).nodes)
    ensures Child(AddNode(s, p, name, kind).nodes, p, name) == |s.nodes|
  {
    var ns, ms := s.nodes, AddNode(s, p, name, kind).nodes;
    FindBehind(Entry(name, |ns|), ns[p].n.entries, name);
    forall i: int, other | Child(ns, i, other) >= 0 ensures Child(ms, i, other) == Child(ns, i, other) {
      if i == p { FindBehind(Entry(name, |ns|), ns[p].n.entries, other); }
    }
  }

  lemma AddLinkExtends(s: State, p: nat, name: string, t: nat)
    requires Fresh(s.nodes, p, name) && IsLive(s.nodes, t)
    ensures Extends(s.nodes, AddLink(s, p, name, t).nodes)
    ensures Child(AddLink(s, p, name, t).nodes, p, name) == t
  {
    var ns, ms := s.nodes, AddLink(s, p, name, t).nodes;
    FindBehind(Entry(name, t), ns[p].n.entries, name);
    forall i: int, other | Child(ns, i, other) >= 0 ensures Child(ms, i, other) == Child(ns, i, other) {
      if i == p { FindBehind(Entry(name, t), ns[p].n.entries, other); }
    }
  }

  // ----- the tree

  ghost predicate OnlyName(ns: Nodes, t: nat, p: nat, k: nat) {
    forall q: nat, j: nat :: Names(ns, q, j, t) ==> q == p && j == k
  }

  lemma NamesBut(ns: Nodes, t: nat, p: nat, k: nat)
    requires Names(ns, p, k, t)
    ensures Total(ns, NamesOf(t)) == 1 <==> OnlyName(ns, t, p, k)
  {
    var n := WithoutEntry(ns[p].n, k);
    var ms := ns[p := Live(n)];
    TotalUpdate(ns, p, Live(n), NamesOf(t));
    NamingWithout(ns[p].n.entries, k, t);
    assert Total(ms, NamesOf(t)) == Total(ns, NamesOf(t)) - 1;
    NamedMeans(ms, t);
    hide Total, NamesOf;
    if Total(ms, NamesOf(t)) > 0 {
      var q: nat, j: nat :| Names(ms, q, j, t);
      OtherName(ns, t, p, k, q, j);
    } else {
      forall q: nat, j: nat | Names(ns, q, j, t) ensures q == p && j == k { OtherStays(ns, ms, t, p, k, q, j); }
    }
  }

  lemma OtherName(ns: Nodes, t: nat, p: nat, k: nat, q: nat, j: nat)
    requires Names(ns, p, k, t) && Names(ns[p := Live(WithoutEntry(ns[p].n, k))], q, j, t)
    ensures !OnlyName(ns, t, p, k)
  {
    assert Names(ns, q, if q != p || j < k then j else j + 1, t);
  }

  lemma OtherStays(ns: Nodes, ms: Nodes, t: nat, p: nat, k: nat, q: nat, j: nat)
    requires Names(ns, p, k, t) && Names(ns, q, j, t) && ms == ns[p := Live(WithoutEntry(ns[p].n, k))]
    ensures (q == p && j == k) || exists j': nat :: Names(ms, q, j', t)
  {
    if !(q == p && j == k) {
      var j' := if q != p || j < k then j else j - 1;
      assert ms[q].n.entries[j'] == ns[q].n.entries[j] && Names(ms, q, j', t);
    }
  }

  // Two paths to one node are one path.
  ghost predicate SamePath(ns: Nodes, a: seq<string>, b: seq<string>) { Walk(ns, 0, a) == Walk(ns, 0, b) ==> a == b }

  // No directory has two paths.
  ghost predicate OnePath(ns: Nodes) {
    forall a, b :: Walk(ns, 0, a) >= 0 && IsDir(ns, Walk(ns, 0, a)) ==> SamePath(ns, a, b)
  }

  /** The directories form a tree iff each has exactly one path. */
  lemma TreeMeans(s: State)
    requires Inv(s)
    ensures Tree(s.nodes) <==> OnePath(s.nodes)
  {
    hide Inv, SamePath;
    if Tree(s.nodes) {
      forall a, b | Walk(s.nodes, 0, a) >= 0 && IsDir(s.nodes, Walk(s.nodes, 0, a)) ensures SamePath(s.nodes, a, b) {
        PathIsOne(s, a, b);
      }
    }
    if OnePath(s.nodes) {
      forall i: nat | IsDir(s.nodes, i) ensures s.nodes[i].n.links == 1 { OnePathOneName(s, i); }
    }
  }

  // The entry that the last step of a path takes.
  lemma LastStep(s: State, a: seq<string>) returns (p: nat, k: nat)
    requires Inv(s) && a != [] && Walk(s.nodes, 0, a) >= 0
    ensures var up := a[..|a| - 1];
            && Walk(s.nodes, 0, up) == p && IsDir(s.nodes, p) && Names(s.nodes, p, k, Walk(s.nodes, 0, a))
            && s.nodes[p].n.entries[k].name == a[|a| - 1]
  {
    var up, name := a[..|a| - 1], a[|a| - 1];
    assert a == up + [name];
    WalkSnoc(s.nodes, 0, up, name);
    p := Walk(s.nodes, 0, up);
    k := Find(s.nodes[p].n.entries, name, 0);
  }

  lemma {:induction false} PathIsOne(s: State, a: seq<string>, b: seq<string>)
    requires Inv(s) && Tree(s.nodes) && Walk(s.nodes, 0, a) >= 0 && IsDir(s.nodes, Walk(s.nodes, 0, a))
    ensures SamePath(s.nodes, a, b)
    decreases |a|
  {
    var ns, t := s.nodes, Walk(s.nodes, 0, a);
    hide Child, Find, Total, NamesOf;
    if Walk(ns, 0, b) == t {
      assert LinkOk(ns, t);
      NamedMeans(ns, t);
      if a != [] && b != [] {
        var p, k := LastStep(s, a);
        var q, j := LastStep(s, b);
        NamesBut(ns, t, p, k);
        assert q == p && j == k;
        PathIsOne(s, a[..|a| - 1], b[..|b| - 1]);
        assert a == a[..|a| - 1] + [a[|a| - 1]] && b == b[..|b| - 1] + [b[|b| - 1]];
      } else if a != [] || b != [] {
        var p, k := LastStep(s, if a != [] then a else b);
      }
    }
  }

  lemma OnePathOneName(s: State, i: nat)
    requires Inv(s) && OnePath(s.nodes) && IsDir(s.nodes, i)
    ensures s.nodes[i].n.links == 1
  {
    var ns := s.nodes;
    assert LinkOk(ns, i);
    NamedMeans(ns, i);
    hide Child, Find, Total, NamesOf;
    if p: nat, k: nat :| Names(ns, p, k, i) {
      var a := PathOfEntry(s, p, k);
      assert Walk(ns, 0, []) == 0;
      assert i == 0 ==> SamePath(ns, a, []);
      NamesBut(ns, i, p, k);
      forall q: nat, j: nat | Names(ns, q, j, i) ensures q == p && j == k {
        var b := PathOfEntry(s, q, j);
        assert SamePath(ns, a, b);
        assert a[..|a| - 1] == b[..|b| - 1];
        assert EntriesOk(ns, p);
      }
    }
  }

  lemma PathOfEntry(s: State, p: nat, k: nat) returns (a: seq<string>)
    requires Inv(s) && IsLive(s.nodes, p) && k < |s.nodes[p].n.entries|
    ensures a != [] && Walk(s.nodes, 0, a) == s.nodes[p].n.entries[k].id
    ensures Walk(s.nodes, 0, a[..|a| - 1]) == p && a[|a| - 1] == s.nodes[p].n.entries[k].name
  {
    hide LinksOk, Total;
    assert Reached(s.nodes, p);
    var up :| Walk(s.nodes, 0, up) == p;
    var name := s.nodes[p].n.entries[k].name;
    a := up + [name];
    WalkSnoc(s.nodes, 0, up, name);
    assert EntriesOk(s.nodes, p);
    FindUnique(s.nodes[p].n.entries, name, k);
    assert a[..|a| - 1] == up;
  }

  // Some path leads from node t back to it.
  ghost predicate Loops(ns: Nodes, t: nat) { exists q :: q != [] && Walk(ns, t, q) == t }

  ghost predicate Below(ns: Nodes, t: nat, p: nat) { exists q :: Walk(ns, t, q) == p }

  lemma {:induction false} WalkJoin(ns: Nodes, i: int, a: seq<string>, b: seq<string>)
    requires Walk(ns, i, a) >= 0
    ensures Walk(ns, i, a + b) == Walk(ns, Walk(ns, i, a), b)
    decreases |a|
  {
    if a == [] {
      assert a + b == b;
    } else {
      assert (a + b)[1..] == a[1..] + b;
      WalkNowhere(ns, i, a);
      WalkJoin(ns, Child(ns, i, a[0]), a[1..], b);
    }
  }

  lemma TreeHasNoLoop(s: State, t: nat)
    requires Inv(s) && Tree(s.nodes) && IsDir(s.nodes, t)
    ensures !Loops(s.nodes, t)
  {
    if q :| q != [] && Walk(s.nodes, t, q) == t {
      assert Reached(s.nodes, t);
      var a :| Walk(s.nodes, 0, a) == t;
      WalkJoin(s.nodes, 0, a, q);
      PathIsOne(s, a, a + q);
    }
  }

  /** A directory of a tree that is linked leads back to itself iff the link is in it or somewhere
      below it. */
  lemma DirLinkLoops(s: State, p: nat, name: string, t: nat)
    requires Inv(s) && Tree(s.nodes) && IsDir(s.nodes, t) && Fresh(s.nodes, p, name)
    ensures Loops(AddLink(s, p, name, t).nodes, t) <==> Below(s.nodes, t, p)
  {
    hide Inv, Tree, Child, Find, Walk;
    var ms := AddLink(s, p, name, t);
    AddLinkExtends(s, p, name, t);
    if q :| Walk(s.nodes, t, q) == p {
      WalkExtends(s.nodes, ms.nodes, t, q);
      WalkSnoc(ms.nodes, t, q, name);
      assert Walk(ms.nodes, t, q + [name]) == t && q + [name] != [];
    } else {
      TreeHasNoLoop(s, t);
      forall q | q != [] ensures Walk(ms.nodes, t, q) != t { WalkStill(s, p, name, t, q); }
    }
  }

  lemma WalkStill(s: State, p: nat, name: string, t: nat, q: seq<string>)
    requires Fresh(s.nodes, p, name) && IsLive(s.nodes, t) && !Below(s.nodes, t, p)
    ensures Walk(AddLink(s, p, name, t).nodes, t, q) == Walk(s.nodes, t, q)
  {
    assert Walk(s.nodes, t, []) == t && [] + q == q;
    WalkAround(s, p, name, t, [], q);
  }

  // A walk that does not come to the new link goes on as before.
  lemma {:induction false} WalkAround(s: State, p: nat, name: string, t: nat, a: seq<string>, b: seq<string>)
    requires Fresh(s.nodes, p, name) && IsLive(s.nodes, t) && !Below(s.nodes, t, p) && Walk(s.nodes, t, a) >= 0
    ensures Walk(AddLink(s, p, name, t).nodes, Walk(s.nodes, t, a), b) == Walk(s.nodes, t, a + b)
    decreases |b|
  {
    var ns, ms, i := s.nodes, AddLink(s, p, name, t).nodes, Walk(s.nodes, t, a);
    WalkJoin(ns, t, a, b);
    if b != [] {
      assert i != p;
      assert Child(ms, i, b[0]) == Child(ns, i, b[0]);
      WalkSnoc(ns, t, a, b[0]);
      assert a + b == (a + [b[0]]) + b[1..];
      var c := Child(ns, i, b[0]);
      WalkNowhere(ns, c, b[1..]);
      WalkNowhere(ms, c, b[1..]);
      if c >= 0 { WalkAround(s, p, name, t, a + [b[0]], b[1..]); }
    }
  }

  /** Taking away a name changes where that one component leads, and nothing else. */
  lemma DropChild(s: State, p: nat, k: nat, i: int, other: string)
    requires AllEntriesOk(s.nodes) && Droppable(s, p, k) && Target(s, p, k) != p
    ensures Child(DropEntry(s, p, k).nodes, i, other) ==
            if i == p && other == s.nodes[p].n.entries[k].name then -1 else Child(s.nodes, i, other)
  {
    var t, ns, ms := Target(s, p, k), s.nodes, DropEntry(s, p, k).nodes;
    assert EntriesOk(ns, p);
    if i == p {
      FindWithout(ns[p].n.entries, k, other, ms[p].n.entries);
    } else if i == t {
      assert Find([], other, 0) == 0;
    }
  }

  lemma WithoutUnique(es: seq<Entry>, k: nat, fs: seq<Entry>)
    requires UniqueNames(es) && k < |es| && fs == es[..k] + es[k + 1..]
    ensures UniqueNames(fs) && forall j :: 0 <= j < |fs| ==> fs[j] == es[if j < k then j else j + 1]
  {
  }

  lemma WithoutName(es: seq<Entry>, k: nat, fs: seq<Entry>)
    requires UniqueNames(es) && k < |es| && fs == es[..k] + es[k + 1..]
    ensures forall j :: 0 <= j < |fs| ==> fs[j].name != es[k].name
  {
  }

  lemma FindNone(es: seq<Entry>, name: string)
    requires forall j :: 0 <= j < |es| ==> es[j].name != name
    ensures Find(es, name, 0) == |es|
  {
  }

  lemma FindWithout(es: seq<Entry>, k: nat, name: string, fs: seq<Entry>)
    requires UniqueNames(es) && k < |es| && fs == es[..k] + es[k + 1..]
    ensures var a, b := Find(es, name, 0), Find(fs, name, 0);
            if name == es[k].name then b == |fs|
            else (a < |es| <==> b < |fs|) && (a < |es| ==> fs[b].id == es[a].id)
  {
    hide Find, UniqueNames;
    var a := Find(es, name, 0);
    WithoutUnique(es, k, fs);
    if name == es[k].name {
      WithoutName(es, k, fs);
      FindNone(fs, name);
    } else if a < |es| {
      var j := if a < k then a else a - 1;
      assert fs[j] == es[a];
      FindUnique(fs, name, j);
    } else {
      FindNone(fs, name);
    }
  }
}
