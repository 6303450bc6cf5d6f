/**
 Loopback UDP sockets: ring-buffer queues, bound ports, and the descriptors that own sockets.
 */
module UdpModel {
  import opened Bytes

  const MAX_SOCKETS: nat := 8
  const QUEUE_MAX: nat := 8
  const PAYLOAD_MAX: nat := 512
  const PORT_FIRST: nat := 49152
  const PORTS: nat := 16384
  const ANY: nat := 0
  const LOOPBACK: nat := 0x7F00_0001

  datatype Packet = Packet(used: bool, addr: nat, port: nat, payload: seq<byte>)

  datatype Socket = Socket(used: bool, bound: bool, addr: nat, port: nat,
                           q: seq<Packet>, head: nat, tail: nat, len: nat)

  function Blank(): Packet { Packet(false, 0, 0, []) }

  function NoPackets(): (q: seq<Packet>)
    ensures |q| == QUEUE_MAX
  {
    seq(QUEUE_MAX, _ => Blank())
  }

  // The socket after udp_socket_free, and after udp_socket_alloc.
  function Cleared(used: bool): Socket { Socket(used, false, 0, 0, NoPackets(), 0, 0, 0) }

  // ----- the queue of a socket

  // i places behind place h of the ring.
  function Pos(h: nat, i: nat): (k: nat)
    ensures k < QUEUE_MAX
  {
    (h + i) % QUEUE_MAX
  }

  lemma PosDiffer(h: nat, i: nat, j: nat)
    requires i < j < i + QUEUE_MAX
    ensures Pos(h, i) != Pos(h, j)
  {
  }

  lemma PosNext(h: nat, i: nat)
    ensures Pos(Pos(h, 1), i) == Pos(h, i + 1) && Pos(Pos(h, i), 1) == Pos(h, i + 1)
    ensures h < QUEUE_MAX ==> Pos(h, 0) == h
  {
    ModAdd(h + 1, i);
    ModAdd(h + i, 1);
  }

  lemma ModAdd(a: nat, b: nat)
    ensures (a % QUEUE_MAX + b) % QUEUE_MAX == (a + b) % QUEUE_MAX
  {
    var q, r := a / QUEUE_MAX, a % QUEUE_MAX;
    var p := (r + b) / QUEUE_MAX;
    assert a + b == QUEUE_MAX * (q + p) + (r + b) % QUEUE_MAX;
  }

  predicate QueueOk(s: Socket) {
    && |s.q| == QUEUE_MAX && s.head < QUEUE_MAX && s.len <= QUEUE_MAX && s.tail == Pos(s.head, s.len)
    && forall i :: 0 <= i < s.len ==> s.q[Pos(s.head, i)].used
  }

  // The packets in the queue, oldest first.
  function Contents(s: Socket): (c: seq<Packet>)
    requires QueueOk(s)
    ensures |c| == s.len && forall i :: 0 <= i < s.len ==> c[i] == s.q[Pos(s.head, i)]
  {
    seq(s.len, i requires 0 <= i < s.len => s.q[Pos(s.head, i)])
  }

  function Enqueued(s: Socket, p: Packet): Socket
    requires QueueOk(s)
  {
    s.(q := s.q[s.tail := p], tail := Pos(s.tail, 1), len := s.len + 1)
  }

  function Dequeued(s: Socket): Socket
    requires QueueOk(s) && s.len > 0
  {
    s.(q := s.q[s.head := Blank()], head := Pos(s.head, 1), len := s.len - 1)
  }

  /** Sending puts a packet behind the others. */
  lemma EnqueueAppends(s: Socket, p: Packet)
    requires QueueOk(s) && s.len < QUEUE_MAX && p.used
    ensures QueueOk(Enqueued(s, p)) && Contents(Enqueued(s, p)) == Contents(s) + [p]
  {
    var t := Enqueued(s, p);
    PosNext(s.head, s.len);
    forall i | 0 <= i < t.len ensures t.q[Pos(t.head, i)] == if i < s.len then s.q[Pos(s.head, i)] else p {
      if i < s.len { PosDiffer(s.head, i, s.len); }
    }
    hide Pos;
  }

  /** Receiving takes the oldest packet, which is there. */
  lemma DequeueTakes(s: Socket)
    requires QueueOk(s) && s.len > 0
    ensures s.q[s.head].used && QueueOk(Dequeued(s))
    ensures Contents(s) == [s.q[s.head]] + Contents(Dequeued(s))
  {
    hide Pos;
    var t := Dequeued(s);
    PosNext(s.head, s.len - 1);
    forall i | 0 <= i < t.len ensures t.q[Pos(t.head, i)] == s.q[Pos(s.head, i + 1)] {
      PosNext(s.head, i);
      PosDiffer(s.head, 0, i + 1);
    }
  }

  lemma ClearedIsEmpty(used: bool)
    ensures QueueOk(Cleared(used)) && Contents(Cleared(used)) == []
  {
  }

  // ----- ports

  predicate Bound(s: Socket) { s.used && s.bound }

  predicate PortsApart(socks: seq<Socket>) {
    && (forall i :: 0 <= i < |socks| && Bound(socks[i]) ==>
          socks[i].port != 0 && (socks[i].addr == ANY || socks[i].addr == LOOPBACK))
    && forall i, j :: 0 <= i < j < |socks| && Bound(socks[i]) && Bound(socks[j]) ==> socks[i].port != socks[j].port
  }

  // The test of udp_port_in_use for one socket.
  predicate Clashes(s: Socket, addr: nat, port: nat) {
    Bound(s) && s.port == port && (s.addr == ANY || addr == ANY || s.addr == addr)
  }

  predicate InUse(socks: seq<Socket>, addr: nat, port: nat, except: nat) {
    exists i :: 0 <= i < |socks| && i != except && Clashes(socks[i], addr, port)
  }

  /** Whatever the addresses, a port is in use if another socket is bound to it. */
  lemma InUseMeans(socks: seq<Socket>, addr: nat, port: nat, except: nat)
    requires PortsApart(socks) && (addr == ANY || addr == LOOPBACK)
    ensures InUse(socks, addr, port, except) <==>
              exists i :: 0 <= i < |socks| && i != except && Bound(socks[i]) && socks[i].port == port
  {
    if i :| 0 <= i < |socks| && i != except && Bound(socks[i]) && socks[i].port == port {
      assert Clashes(socks[i], addr, port);
    }
  }

  // udp_find_bound: the first socket that takes packets for the address and port, or |socks|.
  function FindBound(socks: seq<Socket>, addr: nat, port: nat, i: nat): (k: nat)
    requires i <= |socks|
    ensures i <= k <= |socks| && (k < |socks| ==> Clashes(socks[k], addr, port))
    ensures forall j :: i <= j < k ==> !Clashes(socks[j], addr, port)
    decreases |socks| - i
  {
    if i == |socks| || Clashes(socks[i], addr, port) then i else FindBound(socks, addr, port, i + 1)
  }

  /** The socket found is the only one bound to the port. */
  lemma DestinationUnique(socks: seq<Socket>, port: nat, j: nat)
    requires PortsApart(socks) && j < |socks| && Bound(socks[j]) && socks[j].port == port
    ensures FindBound(socks, LOOPBACK, port, 0) == j
  {
    assert Clashes(socks[j], LOOPBACK, port);
    var k := FindBound(socks, LOOPBACK, port, 0);
    assert k < |socks| && Bound(socks[k]) && socks[k].port == port;
  }

  function SetBound(socks: seq<Socket>, i: nat, addr: nat, port: nat): seq<Socket>
    requires i < |socks|
  {
    socks[i := socks[i].(bound := true, addr := addr, port := port)]
  }

  /** Binding to a port that is not in use keeps ports apart. */
  lemma BindKeepsApart(socks: seq<Socket>, i: nat, addr: nat, port: nat)
    requires PortsApart(socks) && i < |socks| && (addr == ANY || addr == LOOPBACK) && port != 0
    requires !InUse(socks, addr, port, i)
    ensures PortsApart(SetBound(socks, i, addr, port))
  {
    assert forall j :: 0 <= j < |socks| && j != i ==> !Clashes(socks[j], addr, port);
  }

  // ----- ephemeral ports

  function PortAfter(p: nat): nat { if p + 1 == 0x1_0000 then PORT_FIRST else p + 1 }

  function PortAt(p: nat, k: nat): (r: nat)
    requires PORT_FIRST <= p < 0x1_0000
    ensures PORT_FIRST <= r < 0x1_0000
  {
    if k == 0 then p else PortAfter(PortAt(p, k - 1))
  }

  lemma {:induction false} PortAtIs(p: nat, k: nat)
    requires PORT_FIRST <= p < 0x1_0000 && k < PORTS
    ensures PortAt(p, k) == if p + k < 0x1_0000 then p + k else p + k - PORTS
  {
    if k > 0 { PortAtIs(p, k - 1); }
  }

  // The ports of the bound sockets among the first n.
  function PortsOf(socks: seq<Socket>, n: nat): set<nat>
    requires n <= |socks|
  {
    if n == 0 then {} else PortsOf(socks, n - 1) + if Bound(socks[n - 1]) then {socks[n - 1].port} else {}
  }

  lemma {:induction false} PortsOfAre(socks: seq<Socket>, n: nat, i: nat)
    requires i < n <= |socks| && Bound(socks[i])
    ensures socks[i].port in PortsOf(socks, n)
  {
    if i < n - 1 { PortsOfAre(socks, n - 1, i); }
  }

  lemma {:induction false} PortsOfFew(socks: seq<Socket>, n: nat)
    requires n <= |socks|
    ensures |PortsOf(socks, n)| <= n
  {
    if n > 0 { PortsOfFew(socks, n - 1); }
  }

  // The first n ports that are tried.
  function Tried(p: nat, n: nat): set<nat>
    requires PORT_FIRST <= p < 0x1_0000
  {
    if n == 0 then {} else Tried(p, n - 1) + {PortAt(p, n - 1)}
  }

  lemma {:induction false} TriedAre(p: nat, n: nat, x: nat)
    requires PORT_FIRST <= p < 0x1_0000 && x in Tried(p, n)
    ensures exists k :: 0 <= k < n && x == PortAt(p, k)
  {
    if x in Tried(p, n - 1) { TriedAre(p, n - 1, x); }
  }

  lemma {:induction false} TriedMany(p: nat, n: nat)
    requires PORT_FIRST <= p < 0x1_0000 && n <= PORTS
    ensures |Tried(p, n)| == n
  {
    if n > 0 {
      TriedMany(p, n - 1);
      if PortAt(p, n - 1) in Tried(p, n - 1) {
        TriedAre(p, n - 1, PortAt(p, n - 1));
        var k :| 0 <= k < n - 1 && PortAt(p, n - 1) == PortAt(p, k);
        PortAtIs(p, k);
        PortAtIs(p, n - 1);
      }
    }
  }

  lemma SubsetSize(a: set<nat>, b: set<nat>)
    requires a <= b
    ensures |a| <= |b|
  {
    assert b == a + (b - a);
  }

  /** With eight sockets, at most eight ports can be in use: the ninth port tried is free. */
  lemma SomePortFree(socks: seq<Socket>, p: nat, n: nat, sid: nat)
    requires |socks| == MAX_SOCKETS && PORT_FIRST <= p < 0x1_0000 && n <= PORTS
    requires forall k :: 0 <= k < n ==> InUse(socks, ANY, PortAt(p, k), sid)
    ensures n <= MAX_SOCKETS
  {
    TriedMany(p, n);
    PortsOfFew(socks, |socks|);
    forall x | x in Tried(p, n) ensures x in PortsOf(socks, |socks|) {
      TriedAre(p, n, x);
      var k :| 0 <= k < n && x == PortAt(p, k);
      var i :| 0 <= i < |socks| && i != sid && Clashes(socks[i], ANY, PortAt(p, k));
      PortsOfAre(socks, |socks|, i);
    }
    SubsetSize(Tried(p, n), PortsOf(socks, |socks|));
  }
}
