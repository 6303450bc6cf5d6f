/**
 The operations of the memory file system, for paths given as their components.
 */
module MemFs {
  import opened Bytes
  import opened MemFsModel

  // For a stream, what was written is what was read and what is still there.
  ghost predicate Streams(ns: Nodes, wrote: seq<seq<byte>>, got: seq<seq<byte>>) {
    && |wrote| == |got| == |ns|
    && forall i: nat :: IsLive(ns, i) && Stream(ns[i].n.kind) ==> wrote[i] == got[i] + ns[i].n.data
  }

  // The component "name" of node p leads nowhere any more; all others lead where they did.
  ghost predicate Unnamed(ns: Nodes, ms: Nodes, p: int, name: string) {
    forall i: int, other :: Child(ms, i, other) == if i == p && other == name then -1 else Child(ns, i, other)
  }

  // All nodes are there with the bytes they had, but for node t if that had one name only.
  ghost predicate Spared(ns: Nodes, ms: Nodes, t: int) {
    |ms| == |ns| && forall i: nat :: IsLive(ns, i) ==>
      if i == t && ns[i].n.links == 1 then ms[i].Gone?
      else ms[i].Live? && ms[i].n.kind == ns[i].n.kind && ms[i].n.data == ns[i].n.data
  }

  // What memfs_delete_file or memfs_delete_dir would take away: the entry "name" of node p.
  ghost predicate CanDelete(ns: Nodes, p: int, name: string, dir: bool) {
    && Child(ns, p, name) >= 0 && IsLive(ns, Child(ns, p, name))
    && var n := ns[Child(ns, p, name)].n;
       if dir then n.kind == Dir && Child(ns, p, name) != 0 && n.count == 0 else Storage(n.kind)
  }

  /** What can be deleted: a node that holds bytes, by the one call, and an empty directory other than
      the root, by the other. */
  lemma CanDeleteIs(s: State, p: int, name: string)
    requires Inv(s)
    ensures var t := Child(s.nodes, p, name);
            && (CanDelete(s.nodes, p, name, false) <==> HoldsBytes(s.nodes, t))
            && (CanDelete(s.nodes, p, name, true) <==> t > 0 && IsDir(s.nodes, t) && s.nodes[t].n.entries == [])
  {
    hide Child, AllEntriesOk, LinksOk, Connected;
    var t := Child(s.nodes, p, name);
    if t >= 0 && IsLive(s.nodes, t) { CountIs(s, t); }
  }

  class MemoryFs {
    var nodes: Nodes
    var inodes: int
    var used: int
    ghost var wrote: seq<seq<byte>>
    ghost var got: seq<seq<byte>>

    ghost function View(): State
      reads this
    {
      State(nodes, inodes, used)
    }

    ghost predicate Valid()
      reads this
    {
      Inv(View()) && Streams(nodes, wrote, got)
    }

    // memfs_create
    constructor ()
      ensures Valid() && Tree(nodes) && |nodes| == 1
    {
      nodes := [Live(Node(Dir, 1, 0, [], []))];
      inodes, used := 1, 0;
      wrote, got := [[]], [[]];
      new;
      assert nodes[..0] == [];
      assert Walk(nodes, 0, []) == 0;
      assert Total(nodes, NamesOf(0)) == 0 && Total(nodes, OneIfLive()) == 1 && Total(nodes, BytesIn()) == 0;
    }

    // lookup_dentry
    static method FindEntry(es: seq<Entry>, name: string) returns (k: nat)
      ensures k == Find(es, name, 0)
    {
      k := 0;
      while k < |es|
        invariant 0 <= k <= |es| && Find(es, name, 0) == Find(es, name, k)
      {
        if es[k].name == name { return; }
        k := k + 1;
      }
    }

    method Step(i: nat, name: string) returns (r: int)
      requires Valid() && IsLive(nodes, i)
      ensures r == Child(nodes, i, name) && (r >= 0 ==> IsLive(nodes, r))
    {
      if nodes[i].n.kind != Dir { return -1; }
      assert EntriesOk(nodes, i);
      var k := FindEntry(nodes[i].n.entries, name);
      if k == |nodes[i].n.entries| { return -1; }
      return nodes[i].n.entries[k].id;
    }

    // lookup_path
    method Lookup(path: seq<string>) returns (r: int)
      requires Valid()
      ensures r == Walk(nodes, 0, path) && (r >= 0 ==> IsLive(nodes, r))
    {
      hide Inv;
      ValidRoot(View());
      r := 0;
      var i := 0;
      assert path[0..] == path;
      while i < |path|
        invariant 0 <= i <= |path| && r >= 0 && IsLive(nodes, r) && Walk(nodes, 0, path) == Walk(nodes, r, path[i..])
      {
        assert path[i..][0] == path[i] && path[i..][1..] == path[i + 1..];
        r := Step(r, path[i]);
        if r < 0 { return; }
        i := i + 1;
      }
    }

    // A new node under the directory p.
    method NewNode(p: nat, name: string, kind: Kind)
      requires Valid() && Fresh(nodes, p, name)
      modifies this
      ensures Valid() && View() == AddNode(old(View()), p, name, kind) && (Tree(nodes) <==> old(Tree(nodes)))
    {
      hide Inv, Tree;
      AddNodeKeeps(View(), p, name, kind);
      StreamsMore(nodes, wrote, got, p, name, kind, inodes, used);
      ghost var ns := nodes;
      nodes := nodes[p := Live(WithEntry(nodes[p].n, name, |nodes|))] + [Live(Node(kind, 1, 0, [], []))];
      inodes := inodes + 1;
      wrote, got := wrote + [[]], got + [[]];
    }

    /** mkdir_p: directories that are missing are made; if one of the components is something
        else, nothing changes. */
    method MkdirP(path: seq<string>) returns (r: int)
      requires Valid()
      modifies this
      ensures Valid() && Extends(old(nodes), nodes) && IsDir(old(nodes), 0) && (Tree(nodes) <==> old(Tree(nodes)))
      ensures (View(), r) == MadeDirs(old(View()), 0, path)
      ensures if r < 0 then View() == old(View()) && r == -1 else r == Walk(nodes, 0, path) && IsDir(nodes, r)
      ensures r >= 0 ==> View() == old(View()) || nodes[r].n.entries == []
      ensures r < 0 <==> InTheWay(old(nodes), path)
    {
      hide Inv, Child, InTheWay, AllEntriesOk, Tree;
      ValidRoot(View());
      r := 0;
      var i := 0;
      assert path[0..] == path;
      while i < |path|
        invariant 0 <= i <= |path| && r >= 0 && IsDir(nodes, r) && Valid() && Extends(old(nodes), nodes)
        invariant Walk(nodes, 0, path[..i]) == r && (Tree(nodes) <==> old(Tree(nodes)))
        invariant View() == old(View()) || nodes[r].n.entries == []
        invariant MadeDirs(old(View()), 0, path) == MadeDirs(View(), r, path[i..])
      {
        assert path[i..][0] == path[i] && path[i..][1..] == path[i + 1..];
        WalkSnoc(nodes, 0, path[..i], path[i]);
        assert path[..i + 1] == path[..i] + [path[i]];
        var next := Step(r, path[i]);
        if next < 0 {
          NoChild(nodes, r, path[i]);
          next := |nodes|;
          ghost var s := View();
          AddNodeExtends(s, r, path[i], Dir);
          NewNode(r, path[i], Dir);
          ExtendsJoin(old(nodes), s.nodes, nodes);
          WalkExtends(s.nodes, nodes, 0, path[..i]);
          WalkSnoc(nodes, 0, path[..i], path[i]);
        } else {
          NoEntries(nodes, r, path[i]);
          if !IsDir(nodes, next) {
            WayBlocked(nodes, path, i + 1);
            return -1;
          }
        }
        r := next;
        i := i + 1;
      }
      assert path[..|path|] == path;
      WayFree(old(nodes), nodes, path);
    }

    /** memfs_create_dir and the other create operations.  A failed create changes nothing. */
    method Create(dir: seq<string>, name: string, kind: Kind) returns (r: int)
      requires Valid()
      modifies this
      ensures Valid() && Extends(old(nodes), nodes) && (Tree(nodes) <==> old(Tree(nodes)))
      ensures if r < 0 then View() == old(View())
              else Walk(nodes, 0, dir + [name]) == r && IsLive(nodes, r) && nodes[r].n.kind == kind
      ensures r < 0 <==> InTheWay(old(nodes), dir) || Taken(old(nodes), Walk(old(nodes), 0, dir + [name]), kind)
      ensures Walk(old(nodes), 0, dir + [name]) >= 0 ==> View() == old(View())
      ensures View() != old(View()) ==> IsDir(old(nodes), 0) && View() == Created(old(View()), dir, name, kind)
      ensures View() != old(View()) ==> r == |nodes| - 1 && nodes[r] == Live(Node(kind, 1, 0, [], []))
    {
      hide Inv, Child, InTheWay, Tree;
      var p := MkdirP(dir);
      if p < 0 { return -1; }
      WalkSnoc(nodes, 0, dir, name);
      if Walk(old(nodes), 0, dir + [name]) >= 0 { WalkExtends(old(nodes), nodes, 0, dir + [name]); }
      ghost var mid := View();
      var k := Step(p, name);
      if k >= 0 {
        NoEntries(nodes, p, name);
        return if nodes[k].n.kind == kind then k else -1;
      }
      NoChild(nodes, p, name);
      AddNodeExtends(mid, p, name, kind);
      r := |nodes|;
      NewNode(p, name, kind);
      ExtendsJoin(old(nodes), mid.nodes, nodes);
      WalkExtends(mid.nodes, nodes, 0, dir);
      WalkSnoc(nodes, 0, dir, name);
    }

    /** memfs_link: a new name for a node.  With a directory the bookkeeping stays right, but the
        directories are no tree any more. */
    method Link(from: seq<string>, dir: seq<string>, name: string) returns (r: int)
      requires Valid()
      modifies this
      ensures Valid() && (r == 0 || r == -1) && Extends(old(nodes), nodes)
      ensures r == 0 ==> Walk(nodes, 0, dir + [name]) == Walk(old(nodes), 0, from)
      ensures r == -1 <==>
                Walk(old(nodes), 0, from) < 0 || InTheWay(old(nodes), dir) || Walk(old(nodes), 0, dir + [name]) >= 0
      ensures r == -1 ==> View() == old(View())
      ensures r == 0 ==> IsDir(old(nodes), 0) && Linked(old(View()), Walk(old(nodes), 0, from), dir, name, View())
      ensures r == 0 ==> (Tree(nodes) <==> old(Tree(nodes)) && !IsDir(old(nodes), Walk(old(nodes), 0, from)))
    {
      hide Inv, Child, InTheWay, Tree;
      var t := Lookup(from);
      if t < 0 { return -1; }
      var p := MkdirP(dir);
      if p < 0 { return -1; }
      WalkSnoc(nodes, 0, dir, name);
      if Walk(old(nodes), 0, dir + [name]) >= 0 { WalkExtends(old(nodes), nodes, 0, dir + [name]); }
      ghost var mid := View();
      var k := Step(p, name);
      if k >= 0 {
        NoEntries(nodes, p, name);
        return -1;
      }
      NoChild(nodes, p, name);
      AddLinkExtends(mid, p, name, t);
      AddLinkKeeps(mid, p, name, t);
      StreamsLink(nodes, wrote, got, p, name, t, inodes, used);
      nodes := nodes[p := Live(WithEntry(nodes[p].n, name, t))];
      nodes := nodes[t := Live(nodes[t].n.(links := nodes[t].n.links + 1))];
      ExtendsJoin(old(nodes), mid.nodes, nodes);
      WalkExtends(mid.nodes, nodes, 0, dir);
      WalkSnoc(nodes, 0, dir, name);
      r := 0;
    }

    /** memfs_delete_file, and memfs_delete_dir of an empty directory. */
    method Delete(dir: seq<string>, name: string, isDir: bool) returns (r: int)
      requires Valid()
      modifies this
      ensures Valid() && (r == 0 || r == -1) && (old(Tree(nodes)) ==> Tree(nodes))
      ensures r == 0 <==> CanDelete(old(nodes), Walk(old(nodes), 0, dir), name, isDir)
      ensures r == -1 ==> View() == old(View())
      ensures r == 0 ==> Unnamed(old(nodes), nodes, Walk(old(nodes), 0, dir), name)
      ensures r == 0 ==> Spared(old(nodes), nodes, Child(old(nodes), Walk(old(nodes), 0, dir), name))
    {
      hide Inv, Child, DropEntry, Tree, Spared;
      var p := Lookup(dir);
      ValidRoot(View());
      if p < 0 {
        NoStart(nodes, name);
        return -1;
      }
      var t := Step(p, name);
      if t < 0 { return -1; }
      var n := nodes[t].n;
      if (if isDir then n.kind != Dir || t == 0 || n.count > 0 else !Storage(n.kind)) {
        CountIs(View(), t);
        return -1;
      }
      CountIs(View(), t);
      ChildEntry(View(), p, name);
      var k := FindEntry(nodes[p].n.entries, name);
      ghost var s := View();
      DropKeeps(s, p, k);
      forall i: int, other { DropChild(s, p, k, i, other); }
      StreamsDrop(nodes, wrote, got, p, k, inodes, used);
      DropSpares(s, p, k);
      Remove(p, k, t);
      r := 0;
    }

    // Unlinks entry k of node p, and frees its node with the last link.
    method Remove(p: nat, k: nat, t: nat)
      requires Droppable(View(), p, k) && t == Target(View(), p, k) != p
      modifies this`nodes, this`inodes, this`used
      ensures View() == DropEntry(old(View()), p, k)
    {
      var n := nodes[t].n;
      nodes := nodes[p := Live(WithoutEntry(nodes[p].n, k))];
      if n.links - 1 == 0 {
        used := used - |n.data|;
        inodes := inodes - 1;
        nodes := nodes[t := Gone];
      } else {
        nodes := nodes[t := Live(n.(links := n.links - 1))];
      }
    }

    // The node at a path gets other bytes.
    method Store(t: nat, data: seq<byte>, ghost w: seq<byte>, ghost g: seq<byte>)
      requires Valid() && IsLive(nodes, t) && Storage(nodes[t].n.kind)
      requires Stream(nodes[t].n.kind) ==> w == g + data
      modifies this
      ensures Valid() && View() == SetData(old(View()), t, data) && (Tree(nodes) <==> old(Tree(nodes)))
      ensures t < |old(wrote)| && wrote == old(wrote)[t := w] && t < |old(got)| && got == old(got)[t := g]
    {
      hide Inv, Tree;
      DataKeeps(View(), t, data);
      used := used - |nodes[t].n.data| + |data|;
      nodes := nodes[t := Live(nodes[t].n.(data := data))];
      wrote, got := wrote[t := w], got[t := g];
    }

    /** memfs_write and memfs_append: a write to a file replaces its bytes; appends, and writes to a
        stream, go behind them.  It fails if the path leads to nothing that holds bytes, and also, as no
        memory is handed out for an empty file, if it leaves a file empty. */
    method Write(path: seq<string>, buf: seq<byte>, append: bool) returns (r: int)
      requires Valid()
      modifies this
      ensures Valid() && (Tree(nodes) <==> old(Tree(nodes)))
      ensures var t := Walk(old(nodes), 0, path);
              if !HoldsBytes(old(nodes), t) then r == -1 && View() == old(View())
              else
                && HoldsBytes(nodes, t) && OnlyData(old(nodes), nodes, t) && inodes == old(inodes)
                && used == old(used) - |old(nodes)[t].n.data| + |nodes[t].n.data|
                && nodes[t].n.data ==
                   (if append || old(nodes)[t].n.kind != File then old(nodes)[t].n.data + buf else buf)
                && r == if old(nodes)[t].n.kind == File && nodes[t].n.data == [] then -1 else |buf|
      ensures var t := Walk(old(nodes), 0, path);
              got == old(got)
              && (t < 0 || t >= |old(wrote)| || wrote == old(wrote) || wrote == old(wrote)[t := old(wrote)[t] + buf])
    {
      hide Inv, Walk, Tree;
      var t := Lookup(path);
      if t < 0 || !Storage(nodes[t].n.kind) { return -1; }
      assert nodes[t := Live(nodes[t].n.(data := nodes[t].n.data))] == nodes;
      var n := nodes[t].n;
      assert got[t := got[t]] == got && wrote[t] + [] == wrote[t];
      if Stream(n.kind) && buf == [] {
        assert n.data + [] == n.data;
        r := 0;
      } else if Stream(n.kind) || (append && n.data + buf != []) {
        assert Stream(n.kind) ==> wrote[t] + buf == got[t] + (n.data + buf);
        Store(t, n.data + buf, wrote[t] + buf, got[t]);
        r := |buf|;
      } else if append {
        r := -1;
      } else {
        Store(t, buf, wrote[t] + buf, got[t]);
        r := if buf == [] then -1 else |buf|;
      }
    }

    /** memfs_read: the first bytes of a file, which stays as it is, or the oldest ones of a stream. */
    method Read(path: seq<string>, size: nat) returns (r: int, buf: seq<byte>)
      requires Valid()
      modifies this
      ensures Valid() && wrote == old(wrote) && (Tree(nodes) <==> old(Tree(nodes)))
      ensures var t := Walk(old(nodes), 0, path);
              if !HoldsBytes(old(nodes), t) then r == -1 && buf == [] && View() == old(View())
              else
                var data := old(nodes)[t].n.data;
                && r == |buf| == (if size < |data| then size else |data|) && buf == data[..r]
                && HoldsBytes(nodes, t) && OnlyData(old(nodes), nodes, t)
                && nodes[t].n.data == if old(nodes)[t].n.kind == File then data else data[r..]
    {
      hide Inv, Walk, Tree;
      var t := Lookup(path);
      if t < 0 || !Storage(nodes[t].n.kind) { return -1, []; }
      if Stream(nodes[t].n.kind) {
        r, buf := ReadStream(path, size);
        return;
      }
      assert nodes[t := Live(nodes[t].n.(data := nodes[t].n.data))] == nodes;
      var data := nodes[t].n.data;
      r := if size < |data| then size else |data|;
      buf := data[..r];
    }

    /** memfs_read of a fifo or socket: the oldest bytes are handed over and removed. */
    method ReadStream(path: seq<string>, size: nat) returns (r: int, buf: seq<byte>)
      requires Valid() && Walk(nodes, 0, path) >= 0 && IsLive(nodes, Walk(nodes, 0, path))
      requires Stream(nodes[Walk(nodes, 0, path)].n.kind)
      modifies this
      ensures Valid() && r == |buf| && wrote == old(wrote) && (Tree(nodes) <==> old(Tree(nodes)))
      ensures var t := Walk(old(nodes), 0, path);
              && t < |old(got)| && got == old(got)[t := old(got)[t] + buf] && got[t] <= wrote[t]
              && |buf| == (if size < |old(nodes)[t].n.data| then size else |old(nodes)[t].n.data|)
              && buf == old(nodes)[t].n.data[..|buf|]
              && View() == SetData(old(View()), t, old(nodes)[t].n.data[|buf|..])
    {
      hide Inv, Walk, Tree;
      var t := Lookup(path);
      var data := nodes[t].n.data;
      if size == 0 || data == [] {
        assert got[t] + [] == got[t] && data[0..] == data;
        assert got[t := got[t] + []] == got;
        return 0, [];
      }
      var k := if size < |data| then size else |data|;
      buf := data[..k];
      assert wrote[t := wrote[t]] == wrote;
      assert wrote[t] == got[t] + data[..k] + data[k..];
      Store(t, data[k..], wrote[t], got[t] + data[..k]);
      r := k;
    }
  }

  // A live node that holds bytes: a file, a fifo or a socket.
  predicate HoldsBytes(ns: Nodes, t: int) {
    t >= 0 && IsLive(ns, t) && (ns[t].n.kind == File || ns[t].n.kind == Fifo || ns[t].n.kind == Socket)
  }

  // The bytes of node t may differ, and nothing else.
  predicate OnlyData(ns: Nodes, ms: Nodes, t: int) {
    && 0 <= t < |ns| == |ms| && ns[t].Live? && ms[t].Live? && ms[t].n == ns[t].n.(data := ms[t].n.data)
    && forall i :: 0 <= i < |ns| && i != t ==> ms[i] == ns[i]
  }

  // The node is there, and of another kind.
  predicate Taken(ns: Nodes, t: int, kind: Kind) { t >= 0 && !(IsLive(ns, t) && ns[t].n.kind == kind) }

  lemma WayBlocked(ns: Nodes, path: seq<string>, i: nat)
    requires i <= |path| && Blocks(ns, path, i)
    ensures InTheWay(ns, path)
  {
  }

  lemma WayFree(ns: Nodes, ms: Nodes, path: seq<string>)
    requires Extends(ns, ms) && Walk(ms, 0, path) >= 0 && IsDir(ms, Walk(ms, 0, path)) && IsDir(ns, 0)
             && AllEntriesOk(ns)
    ensures !InTheWay(ns, path)
  {
    hide Walk, Child;
    forall i | 0 <= i <= |path| ensures !Blocks(ns, path, i) {
      if Walk(ns, 0, path[..i]) >= 0 {
        WalkExtends(ns, ms, 0, path[..i]);
        assert path[..|path|] == path;
        if i < |path| { WalkThrough(ms, 0, path, i); }
        WalkLive(ns, 0, path[..i]);
      }
    }
  }

  lemma {:induction false} WalkLive(ns: Nodes, i: nat, path: seq<string>)
    requires IsLive(ns, i) && AllEntriesOk(ns)
    ensures Walk(ns, i, path) >= 0 ==> IsLive(ns, Walk(ns, i, path))
    decreases |path|
  {
    if path != [] {
      var c := Child(ns, i, path[0]);
      assert EntriesOk(ns, i);
      if c >= 0 { WalkLive(ns, c, path[1..]); }
    }
  }

  // The state after a create that made a node: missing directories first, then the node.
  ghost function Created(s: State, dir: seq<string>, name: string, kind: Kind): State
    requires IsDir(s.nodes, 0)
  {
    var (s1, p) := MadeDirs(s, 0, dir);
    if p >= 0 && IsLive(s1.nodes, p) then AddNode(s1, p, name, kind) else s1
  }

  // ... and after a link.
  ghost predicate Linked(s: State, t: int, dir: seq<string>, name: string, s2: State)
    requires IsDir(s.nodes, 0)
  {
    var (s1, p) := MadeDirs(s, 0, dir);
    p >= 0 && t >= 0 && IsLive(s1.nodes, p) && IsLive(s1.nodes, t) && s2 == AddLink(s1, p, name, t)
  }

  lemma ValidRoot(s: State)
    requires Inv(s)
    ensures IsDir(s.nodes, 0) && AllEntriesOk(s.nodes)
  {
  }

  lemma NoChild(ns: Nodes, p: nat, name: string)
    requires IsDir(ns, p) && Child(ns, p, name) < 0
    ensures Fresh(ns, p, name)
  {
  }

  lemma NoEntries(ns: Nodes, p: nat, name: string)
    requires IsDir(ns, p) && Child(ns, p, name) >= 0
    ensures ns[p].n.entries != []
  {
  }

  lemma ExtendsJoin(a: Nodes, b: Nodes, c: Nodes)
    requires Extends(a, b) && Extends(b, c)
    ensures Extends(a, c)
  {
    hide Child;
  }

  lemma NoStart(ns: Nodes, name: string)
    ensures forall i: int :: i < 0 ==> Child(ns, i, name) == -1
  {
  }

  // The count of a node without entries is 0, and only directories have entries.
  lemma CountIs(s: State, t: nat)
    requires Inv(s) && IsLive(s.nodes, t)
    ensures s.nodes[t].n.count == |s.nodes[t].n.entries| && (s.nodes[t].n.kind != Dir ==> s.nodes[t].n.entries == [])
  {
    assert EntriesOk(s.nodes, t);
  }

  lemma ChildEntry(s: State, p: nat, name: string)
    requires Inv(s) && Child(s.nodes, p, name) >= 0
    ensures var k := Find(s.nodes[p].n.entries, name, 0);
            IsDir(s.nodes, p) && k < |s.nodes[p].n.entries| && Target(s, p, k) == Child(s.nodes, p, name)
            && s.nodes[p].n.entries[k].name == name
  {
  }

  lemma DropSpares(s: State, p: nat, k: nat)
    requires Droppable(s, p, k) && Target(s, p, k) != p
    ensures Spared(s.nodes, DropEntry(s, p, k).nodes, Target(s, p, k))
  {
  }

  lemma StreamsDrop(ns: Nodes, wrote: seq<seq<byte>>, got: seq<seq<byte>>, p: nat, k: nat, inodes: int, used: int)
    requires Streams(ns, wrote, got) && Droppable(State(ns, inodes, used), p, k)
             && Target(State(ns, inodes, used), p, k) != p
    ensures Streams(DropEntry(State(ns, inodes, used), p, k).nodes, wrote, got)
  {
  }

  lemma StreamsLink(ns: Nodes, wrote: seq<seq<byte>>, got: seq<seq<byte>>, p: nat, name: string, t: nat, inodes: int,
                    used: int)
    requires Streams(ns, wrote, got) && IsDir(ns, p) && IsLive(ns, t)
    ensures Streams(AddLink(State(ns, inodes, used), p, name, t).nodes, wrote, got)
  {
  }

  lemma StreamsMore(ns: Nodes, wrote: seq<seq<byte>>, got: seq<seq<byte>>, p: nat, name: string, kind: Kind,
                    inodes: int, used: int)
    requires Streams(ns, wrote, got) && IsDir(ns, p)
    ensures Streams(AddNode(State(ns, inodes, used), p, name, kind).nodes, wrote + [[]], got + [[]])
  {
  }

  // ----- several calls

  // The path leads to a file.
  predicate IsFile(ns: Nodes, path: seq<string>) {
    Walk(ns, 0, path) >= 0 && IsLive(ns, Walk(ns, 0, path)) && ns[Walk(ns, 0, path)].n.kind == File
  }

  /** A file that is created anew is empty, and creating it again leads to the same node. */
  method CreateTwice(fs: MemoryFs, dir: seq<string>, name: string) returns (r: int, again: int, got: seq<byte>)
    requires fs.Valid() && Walk(fs.nodes, 0, dir + [name]) < 0
    modifies fs
    ensures fs.Valid() && (r >= 0 ==> again == r && got == [])
  {
    hide Inv, Walk, InTheWay, Streams, Child;
    got := [];
    r := fs.Create(dir, name, File);
    ghost var ns := fs.nodes;
    if r >= 0 { NotInTheWay(fs.View(), dir, name); }
    again := fs.Create(dir, name, File);
    if r >= 0 {
      var n;
      n, got := fs.Read(dir + [name], 1);
    }
  }

  lemma NotInTheWay(s: State, dir: seq<string>, name: string)
    requires Inv(s) && Walk(s.nodes, 0, dir + [name]) >= 0
    ensures !InTheWay(s.nodes, dir)
  {
    hide Inv, Walk, Child;
    ValidRoot(s);
    WalkThrough(s.nodes, 0, dir + [name], |dir|);
    assert (dir + [name])[..|dir|] == dir;
    WayFree(s.nodes, s.nodes, dir);
  }

  /** What is written to a file, and appended to it, is what reading it gives. */
  method WriteAppendRead(fs: MemoryFs, path: seq<string>, buf: seq<byte>, more: seq<byte>) returns (got: seq<byte>)
    requires fs.Valid() && IsFile(fs.nodes, path)
    modifies fs
    ensures fs.Valid() && IsFile(fs.nodes, path) && got == buf + more
  {
    hide Inv, Walk, Streams, Tree;
    ghost var t, ns := Walk(fs.nodes, 0, path), fs.nodes;
    var n := fs.Write(path, buf, false);
    DataWalk(ns, fs.nodes, t, path);
    ghost var ms := fs.nodes;
    n := fs.Write(path, more, true);
    DataWalk(ms, fs.nodes, t, path);
    ms := fs.nodes;
    n, got := fs.Read(path, |buf| + |more|);
    DataWalk(ms, fs.nodes, t, path);
  }

  /** What is written under one name of a file is read under the other. */
  method LinkShares(fs: MemoryFs, path: seq<string>, dir: seq<string>, name: string, buf: seq<byte>)
    returns (r: int, got: seq<byte>)
    requires fs.Valid() && IsFile(fs.nodes, path)
    modifies fs
    ensures fs.Valid() && (r == 0 ==> got == buf)
  {
    hide Inv, Walk, Streams, Tree, InTheWay, Child, Linked;
    got := [];
    ghost var t, ns := Walk(fs.nodes, 0, path), fs.nodes;
    r := fs.Link(path, dir, name);
    if r == 0 {
      WalkExtends(ns, fs.nodes, 0, path);
      ghost var ms := fs.nodes;
      var n := fs.Write(dir + [name], buf, false);
      DataWalk(ms, fs.nodes, t, path);
      n, got := fs.Read(path, |buf|);
    }
  }

  /** After a delete the path leads nowhere, and the other names of the file lead where they did. */
  method DeleteOne(fs: MemoryFs, dir: seq<string>, name: string) returns (r: int)
    requires fs.Valid() && IsFile(fs.nodes, dir + [name])
    modifies fs
    ensures fs.Valid() && r == 0 && Walk(fs.nodes, 0, dir + [name]) == -1
    ensures forall i: int, other :: i != Walk(old(fs.nodes), 0, dir) || other != name ==>
              Child(fs.nodes, i, other) == Child(old(fs.nodes), i, other)
  {
    hide Inv, Streams, Tree, Child, Walk, Spared;
    ghost var ns := fs.nodes;
    WalkSnoc(ns, 0, dir, name);
    ChildOfDir(ns, Walk(ns, 0, dir), name);
    r := fs.Delete(dir, name, false);
    WalkSnoc(fs.nodes, 0, dir, name);
    WalkUnnamed(ns, fs.nodes, Walk(ns, 0, dir), name, 0, dir);
  }

  lemma ChildOfDir(ns: Nodes, i: int, name: string)
    ensures Child(ns, i, name) >= 0 ==> i >= 0 && IsDir(ns, i)
    ensures i >= 0 && !IsDir(ns, i) ==> Child(ns, i, name) == -1
  {
  }

  lemma FileStops(ns: Nodes, c: int, path: seq<string>)
    requires c >= 0 && !IsDir(ns, c)
    ensures Walk(ns, c, path) == if path == [] then c else -1
  {
    if path != [] {
      ChildOfDir(ns, c, path[0]);
      WalkNowhere(ns, -1, path[1..]);
    }
  }

  // A path to a directory does not pass a name of a file.
  lemma {:induction false} WalkUnnamed(ns: Nodes, ms: Nodes, p: int, name: string, i: int, path: seq<string>)
    requires Unnamed(ns, ms, p, name) && Child(ns, p, name) >= 0 && !IsDir(ns, Child(ns, p, name))
    requires Walk(ns, i, path) >= 0 && IsDir(ns, Walk(ns, i, path))
    ensures Walk(ms, i, path) == Walk(ns, i, path)
    decreases |path|
  {
    hide Child;
    if path != [] && i >= 0 {
      var c := Child(ns, i, path[0]);
      WalkNowhere(ns, c, path[1..]);
      if i == p && path[0] == name {
        FileStops(ns, c, path[1..]);
        assert false;
      }
      WalkUnnamed(ns, ms, p, name, c, path[1..]);
    }
  }

  // Only the bytes of a node differ: paths lead where they did.
  lemma {:induction false} DataSteps(ns: Nodes, ms: Nodes, t: int, i: int, path: seq<string>)
    requires OnlyData(ns, ms, t)
    ensures Walk(ms, i, path) == Walk(ns, i, path)
    decreases |path|
  {
    if path != [] && i >= 0 {
      SameChild(ns, ms, t, i, path[0]);
      hide OnlyData, Child;
      DataSteps(ns, ms, t, Child(ns, i, path[0]), path[1..]);
    }
  }

  lemma SameChild(ns: Nodes, ms: Nodes, t: int, i: int, name: string)
    requires OnlyData(ns, ms, t)
    ensures Child(ms, i, name) == Child(ns, i, name)
  {
  }

  lemma DataWalk(ns: Nodes, ms: Nodes, t: int, path: seq<string>)
    ensures OnlyData(ns, ms, t) ==> Walk(ms, 0, path) == Walk(ns, 0, path)
  {
    if OnlyData(ns, ms, t) { DataSteps(ns, ms, t, 0, path); }
  }
}
