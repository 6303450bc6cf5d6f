/**
 The socket system calls.
 */
module Udp {
  import opened Bytes
  import opened UdpModel

  const EBADF := 9
  const EAGAIN := 11
  const EBUSY := 16
  const EINVAL := 22
  const ENFILE := 23
  const ENOENT := 2
  const ENOTSUP := 95
  const AF_INET := 2
  const FD_MAX: nat := 32

  // A descriptor: free, a file, or the owner of a socket.
  datatype Fd = Free | File | Sock(sid: nat)

  // ----- who owns a socket

  predicate Owners(fds: seq<Fd>, socks: seq<Socket>) {
    && (forall h :: 0 <= h < |fds| && fds[h].Sock? ==> fds[h].sid < |socks| && socks[fds[h].sid].used)
    && (forall h, k :: 0 <= h < k < |fds| && fds[h].Sock? ==> fds[h] != fds[k])
  }

  ghost predicate Owned(fds: seq<Fd>, socks: seq<Socket>) {
    forall s :: 0 <= s < |socks| && socks[s].used ==> exists h :: 0 <= h < |fds| && fds[h] == Sock(s)
  }

  // ----- what was accepted for a socket is what it delivered and what it still holds

  ghost predicate Delivered(socks: seq<Socket>, accepted: seq<seq<Packet>>, taken: seq<seq<Packet>>) {
    && |socks| == |accepted| == |taken|
    && forall s :: 0 <= s < |socks| ==> QueueOk(socks[s]) && accepted[s] == taken[s] + Contents(socks[s])
  }

  ghost predicate Inv(fds: seq<Fd>, socks: seq<Socket>, next: nat, accepted: seq<seq<Packet>>,
                      taken: seq<seq<Packet>>) {
    && |socks| == |accepted| == |taken| == MAX_SOCKETS && PORT_FIRST <= next < 0x1_0000
    && Owners(fds, socks) && Owned(fds, socks) && PortsApart(socks) && Delivered(socks, accepted, taken)
  }

  // Both tables after the descriptor h, which owns a socket, has been closed.
  lemma CloseOwned(fds: seq<Fd>, socks: seq<Socket>, h: nat)
    requires Owners(fds, socks) && Owned(fds, socks) && h < |fds| && fds[h].Sock?
    ensures Owners(fds[h := Free], socks[fds[h].sid := Cleared(false)])
            && Owned(fds[h := Free], socks[fds[h].sid := Cleared(false)])
  {
    var f2, s2 := fds[h := Free], socks[fds[h].sid := Cleared(false)];
    forall s | 0 <= s < |s2| && s2[s].used ensures exists k :: 0 <= k < |f2| && f2[k] == Sock(s) {
      var k :| 0 <= k < |fds| && fds[k] == Sock(s);
      assert f2[k] == Sock(s);
    }
  }

  // ... and after a descriptor that owns none has been changed to another such.
  lemma OtherOwned(fds: seq<Fd>, socks: seq<Socket>, h: nat, f: Fd)
    requires Owners(fds, socks) && Owned(fds, socks) && h < |fds| && !fds[h].Sock? && !f.Sock?
    ensures Owners(fds[h := f], socks) && Owned(fds[h := f], socks)
  {
    var f2 := fds[h := f];
    forall s | 0 <= s < |socks| && socks[s].used ensures exists k :: 0 <= k < |f2| && f2[k] == Sock(s) {
      var k :| 0 <= k < |fds| && fds[k] == Sock(s);
      assert f2[k] == Sock(s);
    }
  }

  lemma OpenOwned(fds: seq<Fd>, socks: seq<Socket>, h: nat, s: nat)
    requires Owners(fds, socks) && Owned(fds, socks) && h < |fds| && fds[h].Free? && s < |socks| && !socks[s].used
    ensures Owners(fds[h := Sock(s)], socks[s := Cleared(true)]) && Owned(fds[h := Sock(s)], socks[s := Cleared(true)])
  {
    var f2, s2 := fds[h := Sock(s)], socks[s := Cleared(true)];
    assert f2[h] == Sock(s);
    forall x | 0 <= x < |s2| && s2[x].used ensures exists k :: 0 <= k < |f2| && f2[k] == Sock(x) {
      if x != s {
        var k :| 0 <= k < |fds| && fds[k] == Sock(x);
        assert f2[k] == Sock(x);
      }
    }
  }

  // Changes to a socket that is used, and stays so, do not concern its owner.
  lemma SameOwner(fds: seq<Fd>, socks: seq<Socket>, s: nat, t: Socket)
    requires Owners(fds, socks) && Owned(fds, socks) && s < |socks| && t.used == socks[s].used
    ensures Owners(fds, socks[s := t]) && Owned(fds, socks[s := t])
  {
    forall x | 0 <= x < |socks| && socks[s := t][x].used ensures exists k :: 0 <= k < |fds| && fds[k] == Sock(x) {
      assert socks[x].used;
    }
  }

  lemma SamePorts(socks: seq<Socket>, s: nat, t: Socket)
    requires PortsApart(socks) && s < |socks|
    requires !Bound(t) || SameBinding(socks[s], t)
    ensures PortsApart(socks[s := t])
  {
    var u := socks[s := t];
    assert forall i :: 0 <= i < |u| && Bound(u[i]) ==>
             Bound(socks[i]) && u[i].port == socks[i].port && u[i].addr == socks[i].addr;
  }

  lemma DeliveredAt(socks: seq<Socket>, accepted: seq<seq<Packet>>, taken: seq<seq<Packet>>, s: nat, t: Socket,
                    a: seq<Packet>, k: seq<Packet>)
    requires Delivered(socks, accepted, taken) && s < |socks| && QueueOk(t) && a == k + Contents(t)
    ensures Delivered(socks[s := t], accepted[s := a], taken[s := k])
  {
    hide Contents, QueueOk;
  }

  class Sockets {
    var socks: seq<Socket>
    var nextPort: nat
    var fds: seq<Fd>
    ghost var accepted: seq<seq<Packet>>
    ghost var taken: seq<seq<Packet>>

    ghost predicate Valid()
      reads this
    {
      Inv(fds, socks, nextPort, accepted, taken)
    }

    constructor (tasks: nat)
      ensures Valid()
    {
      socks := seq(MAX_SOCKETS, _ => Cleared(false));
      nextPort := PORT_FIRST;
      fds := seq(tasks * FD_MAX, _ => Free);
      accepted, taken := seq(MAX_SOCKETS, _ => []), seq(MAX_SOCKETS, _ => []);
      new;
      ClearedIsEmpty(false);
    }

    // udp_port_in_use
    method PortInUse(addr: nat, port: nat, except: nat) returns (r: bool)
      ensures r <==> InUse(socks, addr, port, except)
    {
      var i := 0;
      while i < |socks|
        invariant 0 <= i <= |socks| && forall j :: 0 <= j < i && j != except ==> !Clashes(socks[j], addr, port)
      {
        if i != except && Clashes(socks[i], addr, port) { return true; }
        i := i + 1;
      }
      r := false;
    }

    /** udp_autobind: it always finds a port. */
    method AutoBind(sid: nat)
      requires Valid() && sid < MAX_SOCKETS && socks[sid].used
      modifies this`socks, this`nextPort
      ensures Valid()
      ensures exists port :: PORT_FIRST <= port < 0x1_0000 && !InUse(old(socks), ANY, port, sid)
                             && socks == SetBound(old(socks), sid, ANY, port)
    {
      hide Owned, Delivered, InUse, Owners, PortsApart;
      ghost var p0 := nextPort;
      var i := 0;
      while i < PORTS
        invariant 0 <= i <= PORTS && nextPort == PortAt(p0, i) && socks == old(socks)
        invariant forall k :: 0 <= k < i ==> InUse(socks, ANY, PortAt(p0, k), sid)
      {
        var p := nextPort;
        nextPort := if nextPort + 1 == 0x1_0000 then PORT_FIRST else nextPort + 1;
        var busy := PortInUse(ANY, p, sid);
        if !busy {
          BindKeepsApart(socks, sid, ANY, p);
          BindKeepsRest(fds, socks, accepted, taken, sid, ANY, p);
          socks := SetBound(socks, sid, ANY, p);
          return;
        }
        i := i + 1;
      }
      SomePortFree(socks, p0, PORTS, sid);
    }

    /** udp_bind_socket, for a complete address. */
    method Bind(sid: nat, family: nat, addr: nat, port: nat) returns (r: int)
      requires Valid() && sid < MAX_SOCKETS && socks[sid].used
      modifies this`socks
      ensures Valid()
      ensures r == (if family != AF_INET || port == 0 || (addr != ANY && addr != LOOPBACK) then -EINVAL
                    else if InUse(old(socks), addr, port, sid) then -EBUSY else 0)
      ensures socks == if r == 0 then SetBound(old(socks), sid, addr, port) else old(socks)
      ensures r == 0 ==> socks == old(socks)[sid := old(socks)[sid].(bound := true, addr := addr, port := port)]
    {
      hide Owned, Delivered, InUse, Owners, PortsApart;
      if family != AF_INET || port == 0 || (addr != ANY && addr != LOOPBACK) { return -EINVAL; }
      var busy := PortInUse(addr, port, sid);
      if busy { return -EBUSY; }
      BindKeepsApart(socks, sid, addr, port);
      BindKeepsRest(fds, socks, accepted, taken, sid, addr, port);
      socks := SetBound(socks, sid, addr, port);
      r := 0;
    }

    method Find(addr: nat, port: nat) returns (k: nat)
      ensures k == FindBound(socks, addr, port, 0)
    {
      k := 0;
      while k < |socks|
        invariant 0 <= k <= |socks| && FindBound(socks, addr, port, 0) == FindBound(socks, addr, port, k)
      {
        if Clashes(socks[k], addr, port) { return; }
        k := k + 1;
      }
    }

    // Puts a packet into the queue of socket d.
    method Deliver(d: nat, p: Packet)
      requires Valid() && d < MAX_SOCKETS && socks[d].used && p.used && socks[d].len < QUEUE_MAX
      modifies this`socks, this`accepted
      ensures Valid() && accepted == old(accepted)[d := old(accepted)[d] + [p]]
      ensures |socks| == |old(socks)| && forall i :: 0 <= i < |socks| && i != d ==> socks[i] == old(socks)[i]
      ensures socks[d].used && socks[d].bound == old(socks)[d].bound && socks[d].addr == old(socks)[d].addr
              && socks[d].port == old(socks)[d].port
    {
      hide Owned, Owners, PortsApart, Contents, QueueOk, Enqueued;
      ghost var s := socks[d];
      EnqueueAppends(s, p);
      EnqueuedSame(s, p);
      DeliveredAt(socks, accepted, taken, d, Enqueued(s, p), accepted[d] + [p], taken[d]);
      SameOwner(fds, socks, d, Enqueued(s, p));
      SamePorts(socks, d, Enqueued(s, p));
      assert taken[d := taken[d]] == taken;
      socks := socks[d := Enqueued(socks[d], p)];
      accepted := accepted[d := accepted[d] + [p]];
    }

    /** udp_sendto_socket, for a request with a buffer and a complete address. */
    method SendTo(sid: nat, family: nat, addr: nat, port: nat, data: seq<byte>) returns (r: int)
      requires Valid() && sid < MAX_SOCKETS && socks[sid].used
      modifies this
      ensures Valid() && taken == old(taken) && fds == old(fds)
      ensures r < 0 ==> accepted == old(accepted)
      ensures r >= 0 ==> r == |data| && Sent(old(socks), socks, old(accepted), accepted, sid, port, data)
      ensures BadRequest(family, addr, port, data) ==> r == -EINVAL && socks == old(socks)
      ensures SameBindings(old(socks), socks, sid)
      ensures r == -EINVAL <==> BadRequest(family, addr, port, data)
      ensures r == -ENOENT <==> !BadRequest(family, addr, port, data) && NoneAt(socks, port)
      ensures r == -EAGAIN <==> !BadRequest(family, addr, port, data) && FullAt(socks, old(accepted), taken, port)
      ensures r < 0 ==> r == -EINVAL || r == -EAGAIN || r == -ENOENT
    {
      hide Owned, Owners, Delivered, PortsApart, InUse, Clashes, FindBound;
      if family != AF_INET || |data| > PAYLOAD_MAX || port == 0 || (addr != LOOPBACK && addr != ANY) { return -EINVAL; }
      if !socks[sid].bound { AutoBind(sid); }
      var d := Find(LOOPBACK, port);
      FoundByPort(socks, port);
      if d == |socks| { return -ENOENT; }
      QueueBound(fds, socks, nextPort, accepted, taken, d);
      OnlyOne(socks, port, d);
      if socks[d].len >= QUEUE_MAX { return -EAGAIN; }
      var src := socks[sid];
      var p := Packet(true, if src.addr == ANY then LOOPBACK else src.addr, src.port, data);
      Deliver(d, p);
      r := |data|;
    }

    /** udp_recvfrom_socket, when it need not wait or must not.  The packet at the head is always
        in use, so that the branch that would return -K_EIO is never taken. */
    method RecvFrom(sid: nat, size: nat) returns (r: int, data: seq<byte>, addr: nat, port: nat)
      requires Valid() && sid < MAX_SOCKETS && socks[sid].used
      modifies this
      ensures Valid() && accepted == old(accepted) && fds == old(fds)
      ensures r == -EAGAIN <==> |old(taken)[sid]| == |accepted[sid]|
      ensures r < 0 ==> r == -EAGAIN && taken == old(taken) && socks == old(socks)
      ensures SameBindings(old(socks), socks, |socks|)
      ensures r >= 0 ==> Received(old(taken), taken, accepted, sid, r, data, addr, port, size)
    {
      hide Owned, Owners, PortsApart, Contents, QueueOk, Dequeued;
      ghost var s := socks[sid];
      if socks[sid].len == 0 { return -EAGAIN, [], 0, 0; }
      DequeueTakes(s);
      DequeuedSame(s);
      HeadInRange(s);
      var pkt := socks[sid].q[socks[sid].head];
      assert pkt.used;
      var n := if size < |pkt.payload| then size else |pkt.payload|;
      TakeOne(accepted[sid], taken[sid], s);
      DeliveredAt(socks, accepted, taken, sid, Dequeued(s), accepted[sid], taken[sid] + [pkt]);
      assert accepted[sid := accepted[sid]] == accepted;
      SameOwner(fds, socks, sid, Dequeued(s));
      SamePorts(socks, sid, Dequeued(s));
      socks := socks[sid := Dequeued(socks[sid])];
      taken := taken[sid := taken[sid] + [pkt]];
      return n, pkt.payload[..n], pkt.addr, pkt.port;
    }

    // ----- descriptors; "base" is where the current task's descriptors start

    /** fd_udp_sid: a descriptor that owns a socket owns one that is in use. */
    method SocketOf(base: nat, fd: nat) returns (sid: int)
      requires Valid() && base + FD_MAX <= |fds|
      ensures sid == -1 <==> fd >= FD_MAX || !fds[base + fd].Sock?
      ensures sid != -1 ==> 0 <= sid < MAX_SOCKETS && socks[sid].used && fds[base + fd] == Sock(sid)
    {
      hide Owned, Delivered, PortsApart;
      if fd >= FD_MAX || !fds[base + fd].Sock? { return -1; }
      return fds[base + fd].sid;
    }

    /** SYS_SOCKET. */
    method Open(base: nat) returns (r: int)
      requires Valid() && base + FD_MAX <= |fds|
      modifies this
      ensures Valid()
      ensures r < 0 ==> r == -ENFILE && socks == old(socks) && fds == old(fds)
      ensures r >= 0 ==> 3 <= r < FD_MAX && |fds| == |old(fds)| && old(fds)[base + r].Free? && fds[base + r].Sock?
      ensures r >= 0 ==> fds[base + r].sid < MAX_SOCKETS && !old(socks)[fds[base + r].sid].used
      ensures r >= 0 ==>
                fds == old(fds)[base + r := fds[base + r]] && socks == old(socks)[fds[base + r].sid := Cleared(true)]
      ensures r < 0 ==> (forall s :: 0 <= s < |socks| ==> socks[s].used)
                         || (forall h :: base + 3 <= h < base + FD_MAX ==> !fds[h].Free?)
    {
      hide Owned, Delivered, PortsApart;
      var s := 0;
      while s < MAX_SOCKETS && socks[s].used
        invariant 0 <= s <= MAX_SOCKETS && forall k :: 0 <= k < s ==> socks[k].used
      {
        s := s + 1;
      }
      if s == MAX_SOCKETS { return -ENFILE; }
      var i := 3;
      while i < FD_MAX && !fds[base + i].Free?
        invariant 3 <= i <= FD_MAX && forall h :: base + 3 <= h < base + i ==> !fds[h].Free?
      {
        i := i + 1;
      }
      if i == FD_MAX { return -ENFILE; }
      OpenOwned(fds, socks, base + i, s);
      ClearedKeeps(socks, accepted, taken, s, true);
      socks := socks[s := Cleared(true)];
      fds := fds[base + i := Sock(s)];
      accepted, taken := accepted[s := []], taken[s := []];
      r := i;
    }

    // Gives up whatever the descriptor h refers to.
    method Drop(h: nat)
      requires Valid() && h < |fds|
      modifies this
      ensures Valid() && fds == old(fds)[h := Free]
      ensures socks == if old(fds)[h].Sock? then old(socks)[old(fds)[h].sid := Cleared(false)] else old(socks)
    {
      hide Owned, Delivered, PortsApart;
      if fds[h].Sock? {
        var s := fds[h].sid;
        CloseOwned(fds, socks, h);
        ClearedKeeps(socks, accepted, taken, s, false);
        socks := socks[s := Cleared(false)];
        accepted, taken := accepted[s := []], taken[s := []];
      } else {
        OtherOwned(fds, socks, h, Free);
      }
      fds := fds[h := Free];
    }

    /** SYS_CLOSE. */
    method Close(base: nat, fd: nat) returns (r: int)
      requires Valid() && base + FD_MAX <= |fds|
      modifies this
      ensures Valid()
      ensures r == if fd >= FD_MAX || old(fds)[base + fd].Free? then -EBADF else 0
      ensures r == 0 ==> fds == old(fds)[base + fd := Free]
      ensures socks == if r == 0 && old(fds)[base + fd].Sock? then old(socks)[old(fds)[base + fd].sid := Cleared(false)]
                else old(socks)
    {
      if fd >= FD_MAX || fds[base + fd].Free? { return -EBADF; }
      Drop(base + fd);
      r := 0;
    }

    /** dup2: sockets are not duplicated, and a socket that is overwritten is freed. */
    method DupTo(base: nat, old_fd: nat, new_fd: nat) returns (r: int)
      requires Valid() && base + FD_MAX <= |fds|
      modifies this
      ensures Valid()
      ensures r == (if old_fd >= FD_MAX || old(fds)[base + old_fd].Free? then -EBADF
                    else if old(fds)[base + old_fd].Sock? then -ENOTSUP
                    else if new_fd >= FD_MAX then -EBADF else new_fd)
      ensures fds == if r >= 0 && new_fd != old_fd then old(fds)[base + new_fd := File] else old(fds)
      ensures socks == if r >= 0 && new_fd != old_fd && old(fds)[base + new_fd].Sock?
                       then old(socks)[old(fds)[base + new_fd].sid := Cleared(false)] else old(socks)
    {
      hide Owned, Delivered, PortsApart;
      if old_fd >= FD_MAX || fds[base + old_fd].Free? { return -EBADF; }
      if fds[base + old_fd].Sock? { return -ENOTSUP; }
      if new_fd >= FD_MAX { return -EBADF; }
      if new_fd == old_fd { return new_fd; }
      Drop(base + new_fd);
      OtherOwned(fds, socks, base + new_fd, File);
      fds := fds[base + new_fd := File];
      r := new_fd;
    }
  }

  // ----- the outcomes of sending and receiving

  predicate BadRequest(family: nat, addr: nat, port: nat, data: seq<byte>) {
    family != AF_INET || |data| > PAYLOAD_MAX || port == 0 || (addr != LOOPBACK && addr != ANY)
  }

  // No socket is bound to the port.
  predicate NoneAt(socks: seq<Socket>, port: nat) {
    forall d :: 0 <= d < |socks| && Bound(socks[d]) ==> socks[d].port != port
  }

  // A socket bound to the port holds as many packets as its queue takes.
  predicate FullAt(socks: seq<Socket>, accepted: seq<seq<Packet>>, taken: seq<seq<Packet>>, port: nat) {
    exists d :: 0 <= d < |socks| && Bound(socks[d]) && socks[d].port == port
                && d < |accepted| && d < |taken| && |accepted[d]| - |taken[d]| == QUEUE_MAX
  }

  // All sockets are bound as before, except that the socket "auto" may have got an ephemeral port.
  predicate SameBindings(before: seq<Socket>, after: seq<Socket>, auto: nat) {
    && |before| == |after|
    && forall i :: 0 <= i < |before| ==>
         SameBinding(before[i], after[i]) || (i == auto && AutoBound(before[i], after[i]))
  }

  predicate SameBinding(s: Socket, t: Socket) {
    t.used == s.used && t.bound == s.bound && t.addr == s.addr && t.port == s.port
  }

  predicate AutoBound(s: Socket, t: Socket) {
    t.used == s.used && !s.bound && t.bound && t.addr == ANY && PORT_FIRST <= t.port < 0x1_0000
  }

  // The packet went to the one socket bound to the port, behind what that socket had, with the
  // sender's address and port; all other sockets got nothing.
  ghost predicate Sent(before: seq<Socket>, socks: seq<Socket>, was: seq<seq<Packet>>, accepted: seq<seq<Packet>>,
                       sid: nat, port: nat, data: seq<byte>) {
    && |socks| == |before| == |was| && sid < |socks| && socks[sid].bound
    && exists d :: 0 <= d < |socks| && Bound(socks[d]) && socks[d].port == port &&
         accepted ==
         was[d := was[d] + [Packet(true, if socks[sid].addr == ANY then LOOPBACK else socks[sid].addr,
                                   socks[sid].port, data)]]
  }

  // The oldest packet not yet taken was handed over, cut to the size of the buffer.
  ghost predicate Received(was: seq<seq<Packet>>, taken: seq<seq<Packet>>, accepted: seq<seq<Packet>>, sid: nat,
                           r: int, data: seq<byte>, addr: nat, port: nat, size: nat) {
    && sid < |was| == |accepted| && |was[sid]| < |accepted[sid]|
    && var pkt := accepted[sid][|was[sid]|];
       && taken == was[sid := was[sid] + [pkt]]
       && data == (if size < |pkt.payload| then pkt.payload[..size] else pkt.payload)
       && r == |data| && addr == pkt.addr && port == pkt.port
  }

  lemma BindKeepsRest(fds: seq<Fd>, socks: seq<Socket>, accepted: seq<seq<Packet>>, taken: seq<seq<Packet>>, s: nat,
                      addr: nat, port: nat)
    requires Owners(fds, socks) && Owned(fds, socks) && Delivered(socks, accepted, taken) && s < |socks|
    ensures Owners(fds, SetBound(socks, s, addr, port)) && Owned(fds, SetBound(socks, s, addr, port))
    ensures Delivered(SetBound(socks, s, addr, port), accepted, taken)
  {
    var t := socks[s].(bound := true, addr := addr, port := port);
    SameOwner(fds, socks, s, t);
    assert Contents(t) == Contents(socks[s]);
    DeliveredAt(socks, accepted, taken, s, t, accepted[s], taken[s]);
    assert accepted[s := accepted[s]] == accepted && taken[s := taken[s]] == taken;
  }

  lemma EnqueuedSame(s: Socket, p: Packet)
    requires QueueOk(s)
    ensures var t := Enqueued(s, p); t.used == s.used && t.bound == s.bound && t.addr == s.addr && t.port == s.port
  {
  }

  lemma DequeuedSame(s: Socket)
    requires QueueOk(s) && s.len > 0
    ensures var t := Dequeued(s); t.used == s.used && t.bound == s.bound && t.addr == s.addr && t.port == s.port
  {
  }

  lemma HeadInRange(s: Socket)
    requires QueueOk(s)
    ensures s.head < |s.q|
  {
  }

  lemma TakeOne(accepted: seq<Packet>, taken: seq<Packet>, s: Socket)
    requires QueueOk(s) && s.len > 0 && QueueOk(Dequeued(s)) && accepted == taken + Contents(s)
    requires Contents(s) == [s.q[s.head]] + Contents(Dequeued(s))
    ensures accepted == taken + [s.q[s.head]] + Contents(Dequeued(s)) && accepted[|taken|] == s.q[s.head]
  {
  }

  lemma ClearedKeeps(socks: seq<Socket>, accepted: seq<seq<Packet>>, taken: seq<seq<Packet>>, s: nat, used: bool)
    requires PortsApart(socks) && Delivered(socks, accepted, taken) && s < |socks|
    ensures PortsApart(socks[s := Cleared(used)])
            && Delivered(socks[s := Cleared(used)], accepted[s := []], taken[s := []])
  {
    ClearedIsEmpty(used);
    SamePorts(socks, s, Cleared(used));
    DeliveredAt(socks, accepted, taken, s, Cleared(used), [], []);
  }

  lemma FoundByPort(socks: seq<Socket>, port: nat)
    requires PortsApart(socks)
    ensures var k := FindBound(socks, LOOPBACK, port, 0); k < |socks| ==> Bound(socks[k]) && socks[k].port == port
    ensures FindBound(socks, LOOPBACK, port, 0) == |socks| <==>
              forall d :: 0 <= d < |socks| && Bound(socks[d]) ==> socks[d].port != port
  {
    if d :| 0 <= d < |socks| && Bound(socks[d]) && socks[d].port == port { DestinationUnique(socks, port, d); }
    var k := FindBound(socks, LOOPBACK, port, 0);
    assert k < |socks| ==> Bound(socks[k]) && socks[k].port == port;
  }

  lemma QueueBound(fds: seq<Fd>, socks: seq<Socket>, next: nat, accepted: seq<seq<Packet>>, taken: seq<seq<Packet>>,
                   d: nat)
    requires Inv(fds, socks, next, accepted, taken) && d < |socks|
    ensures socks[d].len <= QUEUE_MAX && |accepted[d]| - |taken[d]| == socks[d].len
  {
  }

  lemma OnlyOne(socks: seq<Socket>, port: nat, d: nat)
    requires PortsApart(socks) && d < |socks| && Bound(socks[d]) && socks[d].port == port
    ensures forall k :: 0 <= k < |socks| && Bound(socks[k]) && socks[k].port == port ==> k == d
  {
  }

  // ----- both ends together

  // The sockets a and b are in use, b is bound to the port, and neither has a packet waiting.
  ghost predicate Quiet(s: Sockets, a: nat, b: nat, port: nat)
    reads s
  {
    && |s.socks| == |s.accepted| == |s.taken| == MAX_SOCKETS && a < MAX_SOCKETS && b < MAX_SOCKETS && a != b
    && s.socks[a].used && Bound(s.socks[b]) && s.socks[b].port == port
    && s.taken[a] == s.accepted[a] && s.taken[b] == s.accepted[b]
  }

  /** A packet arrives as it was sent, and an answer to the address and port it came from arrives at
      its sender, whether that was bound or not. */
  method Answered(s: Sockets, a: nat, b: nat, port: nat, data: seq<byte>, reply: seq<byte>)
    returns (sent: int, got: seq<byte>, back: seq<byte>, addr: nat, from: nat)
    requires s.Valid() && Quiet(s, a, b, port) && |data| <= 512 && |reply| <= 512
    modifies s
    ensures s.Valid() && sent == |data| && got == data && back == reply && addr == 0x7F00_0001 && from == port
  {
    hide Owned, Delivered, Owners, Contents, QueueOk;
    PortOfBound(s.socks, b);
    sent := s.SendTo(a, AF_INET, LOOPBACK, port, data);
    OnlyOne(s.socks, port, b);
    var n, x, p;
    n, got, x, p := s.RecvFrom(b, |data|);
    PortOfBound(s.socks, a);
    n := s.SendTo(b, AF_INET, x, p, reply);
    OnlyOne(s.socks, p, a);
    n, back, addr, from := s.RecvFrom(a, |reply|);
  }

  lemma PortOfBound(socks: seq<Socket>, i: nat)
    requires PortsApart(socks) && i < |socks|
    ensures Bound(socks[i]) ==> socks[i].port != 0 && (socks[i].addr == ANY || socks[i].addr == LOOPBACK)
  {
  }
}
