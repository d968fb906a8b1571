/** When the socket calls succeed, from what a caller could know beforehand. */
module CallOutcomes {
  import opened Basics
  import opened SocketCore
  import opened SocketCalls
  import opened Ownership
  import opened OwnershipRuns
  import opened OwnershipTheorems
  import opened AcceptFairness

  predicate Up(cores: seq<Core>, iface: nat) { iface < |cores| && cores[iface].up }

  lemma OpenSucceedsIff(cores: seq<Core>, iface: nat, kind: SockKind, bound: bool)
    requires CoresOk(cores) && UnderSpan(Open(cores, iface, kind, bound).0)
    ensures Open(cores, iface, kind, bound).1 != 0 <==> Up(cores, iface) && bound
    ensures Up(Open(cores, iface, kind, bound).0, iface) == Up(cores, iface)
    ensures var (cs, p) := Open(cores, iface, kind, bound); p != 0 ==> Found(cs, p)
  {
    if Up(cores, iface) && bound {
      assert CoreOk(cores[iface]);
      assert Open(cores, iface, kind, bound).0[iface].issued < ID_SPAN;
      PackRoundTrip(iface, cores[iface].nextId);
    }
  }

  /** `v` is `w` with entry `i` replaced and the cores changed, and nothing else. */
  predicate OnlyEntry(w: World, v: World, i: nat) {
    && i < |w.table| == |v.table| && v.table == w.table[i := v.table[i]]
    && v == w.(table := v.table, cores := v.cores)
  }

  /** socket() succeeds exactly for an AF_INET stream, or datagram on an interface that is up,
      while the table has a free entry; the new descriptor names a free entry. */
  lemma SocketSucceedsIff(w: World, unheld: set<nat>, domain: int, ty: nat, dflt: nat)
    requires Inv(w, unheld) && UnderSpan(DoSocket(w, domain, ty, dflt).0.cores)
    ensures var (v, reply) := DoSocket(w, domain, ty, dflt);
            && (reply.Value? <==>
                  domain == AF_INET && FirstFree(w.table) < |w.table|
                  && (ty % 256 == SOCK_STREAM || (ty % 256 == SOCK_DGRAM && Up(w.cores, dflt))))
            && (reply.Value? ==> !InUse(w, reply.n) && InUse(v, reply.n))
            && (!reply.Value? ==> forall fd :: InUse(v, fd) <==> InUse(w, fd))
  {
    if domain == AF_INET && FirstFree(w.table) < |w.table| && ty % 256 == SOCK_DGRAM {
      OpenSucceedsIff(w.cores, dflt, UdpSock, true);
    }
  }

  /** The new entry is blocking, unconnected and unbound on the default interface, a stream
      without a socket yet; no other entry changes, and a failure opens nothing. */
  lemma SocketMakes(w: World, unheld: set<nat>, domain: int, ty: nat, dflt: nat)
    requires Inv(w, unheld) && UnderSpan(DoSocket(w, domain, ty, dflt).0.cores)
    ensures var (v, reply) := DoSocket(w, domain, ty, dflt);
            && (reply.Value? ==> 0 <= reply.n - w.offset && OnlyEntry(w, v, reply.n - w.offset)
                                 && NewEntry(v.table[reply.n - w.offset], ty % 256 == SOCK_STREAM, dflt))
            && (!reply.Value? || ty % 256 == SOCK_STREAM ==> v.cores == w.cores)
  {
    assert CoresOk(w.cores);
    hide Inv;
    hide CoresOk;
    hide UnderSpan;
    hide Open;
    var made := domain == AF_INET && FirstFree(w.table) < |w.table| && ty % 256 == SOCK_DGRAM;
    var (cores, p) := Open(w.cores, dflt, UdpSock, true);
    if made {
      assert DoSocket(w, domain, ty, dflt).0.cores == cores;
      OpenOk(w.cores, dflt, UdpSock, true);
    }
    hide FirstFree;
  }

  /** Why it fails: the domain is looked at first, then the type, then the table, then the interface. */
  lemma SocketFailures(w: World, unheld: set<nat>, domain: int, ty: nat, dflt: nat)
    requires Inv(w, unheld) && UnderSpan(DoSocket(w, domain, ty, dflt).0.cores)
    ensures var reply := DoSocket(w, domain, ty, dflt).1;
            var stream, datagram, full := ty % 256 == SOCK_STREAM, ty % 256 == SOCK_DGRAM, FirstFree(w.table) == |w.table|;
            && (reply == Fail(EAFNOSUPPORT) <==> domain != AF_INET)
            && (reply == Fail(EPROTONOSUPPORT) <==> domain == AF_INET && !stream && !datagram)
            && (reply == Fail(ENFILE) <==> domain == AF_INET && (stream || datagram) && full)
            && (reply == Fail(ENOBUFS) <==> domain == AF_INET && datagram && !full && !Up(w.cores, dflt))
  {
    assert CoresOk(w.cores);
    hide Inv;
    if domain == AF_INET && FirstFree(w.table) < |w.table| && ty % 256 == SOCK_DGRAM {
      OpenSucceedsIff(w.cores, dflt, UdpSock, true);
    }
    hide CoresOk;
    hide UnderSpan;
    hide Open;
    hide Found;
    hide Up;
    hide FirstFree;
  }

  predicate NewEntry(e: Entry, stream: bool, dflt: nat) {
    && e.kind == (if stream then TcpFd else UdpFd) && (stream <==> e.sock == 0)
    && !e.nonblocking && !e.connected && e.iface == dflt && e.pool == [] && e.localIp == e.localPort == e.port == 0
  }

  /** The slots from `k` on are all armed. */
  predicate ArmedFrom(pool: seq<nat>, k: nat) {
    forall j :: k <= j < |pool| ==> pool[j] != 0
  }

  predicate NoneRefused(refused: set<nat>, k: nat, n: nat) {
    forall j :: k <= j < n ==> j !in refused
  }

  lemma {:induction false} ArmLeaves(cores: seq<Core>, pool: seq<nat>, iface: nat, refused: set<nat>, k: nat, j: nat)
    requires j < k <= |pool|
    ensures Arm(cores, pool, iface, refused, k).pool[j] == pool[j]
    decreases |pool| - k
  {
    hide Open;
    if k < |pool| {
      var (cs, p) := Open(cores, iface, TcpSock, true);
      if p != 0 && k !in refused && Found(cs, p) {
        ArmLeaves(cs, pool[k := p], iface, refused, k + 1, j);
      }
    }
  }

  lemma OpenForArm(cores: seq<Core>, pool: seq<nat>, iface: nat, refused: set<nat>, k: nat, cs: seq<Core>, p: nat)
    requires k < |pool| && CoresOk(cores) && UnderSpan(Arm(cores, pool, iface, refused, k).cores)
    requires (cs, p) == Open(cores, iface, TcpSock, true)
    ensures CoresOk(cs) && (p != 0 <==> Up(cores, iface)) && Up(cs, iface) == Up(cores, iface)
    ensures p != 0 ==> Found(cs, p)
  {
    if p != 0 && k !in refused && Found(cs, p) {
      ArmLater(cs, pool[k := p], iface, refused, k + 1);
    }
    OpenSucceedsIff(cores, iface, TcpSock, true);
    OpenOk(cores, iface, TcpSock, true);
  }

  lemma {:induction false} ArmSucceedsIff(cores: seq<Core>, pool: seq<nat>, iface: nat, refused: set<nat>, k: nat)
    requires k < |pool| && CoresOk(cores) && UnderSpan(Arm(cores, pool, iface, refused, k).cores)
    ensures var a := Arm(cores, pool, iface, refused, k);
            && (a.reply == Value(0) <==> Up(cores, iface) && NoneRefused(refused, k, |pool|))
            && (a.reply == Value(0) ==> ArmedFrom(a.pool, k))
            && (a.reply == Fail(ENOBUFS) <==> !Up(cores, iface))
            && (a.reply == Fail(EADDRINUSE) <==> Up(cores, iface) && !NoneRefused(refused, k, |pool|))
    decreases |pool| - k
  {
    hide CoresOk;
    hide Open;
    hide Up;
    var (cs, p) := Open(cores, iface, TcpSock, true);
    OpenForArm(cores, pool, iface, refused, k, cs, p);
    if p != 0 && k !in refused && Found(cs, p) {
      ArmLeaves(cs, pool[k := p], iface, refused, k + 1, k);
      if k + 1 < |pool| {
        ArmSucceedsIff(cs, pool[k := p], iface, refused, k + 1);
      }
    }
  }

  /** listen() on a bound TCP entry, memory permitting, succeeds exactly if the interface is up
      and smoltcp refuses no slot; then every slot of a pool of min(backlog, limit) sockets,
      the limit itself for a backlog of 0 or less, is armed. It listens on the bound port, and
      keeps the descriptor a listener even where it fails. */
  lemma ListenSucceedsIff(w: World, unheld: set<nat>, i: nat, backlog: int, refused: set<nat>)
    requires Inv(w, unheld) && i < |w.table| && w.table[i].kind == TcpFd && w.table[i].localPort != 0
    requires UnderSpan(DoListen(w, i, backlog, true, refused).0.cores)
    ensures var (v, reply) := DoListen(w, i, backlog, true, refused);
            var size := PoolSize(w.poolMax, backlog);
            && OnlyEntry(w, v, i)
            && v.table[i] == w.table[i].(kind := ListenFd, pool := v.table[i].pool, poolNext := 0, port := w.table[i].localPort)
            && |v.table[i].pool| == size
            && size == (if backlog <= 0 || backlog > w.poolMax then w.poolMax else backlog)
            && (reply == Value(0) <==> Up(w.cores, w.table[i].iface) && NoneRefused(refused, 0, size))
            && (reply == Value(0) ==> ArmedFrom(v.table[i].pool, 0))
            && (reply == Fail(ENOBUFS) <==> !Up(w.cores, w.table[i].iface))
            && (reply == Fail(EADDRINUSE) <==> Up(w.cores, w.table[i].iface) && !NoneRefused(refused, 0, size))
  {
    ArmSucceedsIff(w.cores, Zeros(PoolSize(w.poolMax, backlog)), w.table[i].iface, refused, 0);
    InvShape(w, unheld, i);
    hide Inv;
    hide Arm;
  }

  /** Otherwise it refuses: an entry that is not a plain TCP one first, then one that was never
      bound, then for want of memory. Nothing is opened, and nothing becomes a listener. */
  lemma ListenRefusals(w: World, unheld: set<nat>, i: nat, backlog: int, memory: bool, refused: set<nat>)
    requires Inv(w, unheld) && i < |w.table|
    ensures var (v, reply) := DoListen(w, i, backlog, memory, refused);
            && (reply == Fail(EBADF) <==> w.table[i].kind != TcpFd)
            && (reply == Fail(EINVAL) <==> w.table[i].kind == TcpFd && w.table[i].localPort == 0)
            && (reply == Fail(ENOMEM) <==> w.table[i].kind == TcpFd && w.table[i].localPort != 0 && !memory)
            && (reply == Fail(EBADF) || reply == Fail(EINVAL) || reply == Fail(ENOMEM) ==> v == w)
  {
    InvShape(w, unheld, i);
    hide Inv;
    ArmErrno(w.cores, Zeros(PoolSize(w.poolMax, backlog)), w.table[i].iface, refused, 0);
    assert w.table[i := w.table[i]] == w.table;
    hide Arm;
  }

  lemma {:induction false} ArmErrno(cores: seq<Core>, pool: seq<nat>, iface: nat, refused: set<nat>, k: nat)
    requires k <= |pool|
    ensures Arm(cores, pool, iface, refused, k).reply in {Value(0), Fail(ENOBUFS), Fail(EADDRINUSE)}
    decreases |pool| - k
  {
    hide Open;
    hide Found;
    if k < |pool| {
      var (cs, p) := Open(cores, iface, TcpSock, true);
      if p != 0 && k !in refused && Found(cs, p) {
        ArmErrno(cs, pool[k := p], iface, refused, k + 1);
      }
    }
  }

  /** Some slot of the pool is seen connected. */
  ghost predicate SomeConnected(cores: seq<Core>, pool: seq<nat>, talking: set<nat>) {
    exists j :: 0 <= j < |pool| && Connected(cores, pool[j], talking)
  }

  lemma PickFindsIff(cores: seq<Core>, pool: seq<nat>, next: nat, talking: set<nat>)
    requires next < |pool|
    ensures Pick(cores, pool, next, talking, 0).Some? <==> SomeConnected(cores, pool, talking)
  {
    hide Connected;
    if SomeConnected(cores, pool, talking) {
      var j :| 0 <= j < |pool| && Connected(cores, pool[j], talking);
      PickIsNearest(cores, pool, next, talking, 0, j);
    }
  }

  /** The scans an accept makes at most: one if the listener is non-blocking. */
  function Looks(e: Entry, scans: seq<set<nat>>): seq<set<nat>> {
    if e.nonblocking && scans != [] then [scans[0]] else scans
  }

  lemma {:induction false} FirstPickFindsIff(cores: seq<Core>, e: Entry, scans: seq<set<nat>>)
    requires e.poolNext < |e.pool|
    ensures FirstPick(cores, e, scans).Some?
            <==> exists k :: 0 <= k < |Looks(e, scans)| && SomeConnected(cores, e.pool, Looks(e, scans)[k])
  {
    hide Pick;
    hide SomeConnected;
    if scans != [] {
      PickFindsIff(cores, e.pool, e.poolNext, scans[0]);
      var all := Looks(e, scans);
      assert all[0] == scans[0];
      if !e.nonblocking {
        var rest := scans[1..];
        FirstPickFindsIff(cores, e, rest);
        assert forall k :: 0 <= k < |rest| ==> rest[k] == scans[k + 1];
        if exists k :: 0 <= k < |rest| && SomeConnected(cores, e.pool, rest[k]) {
          var k :| 0 <= k < |rest| && SomeConnected(cores, e.pool, rest[k]);
          assert SomeConnected(cores, e.pool, all[k + 1]);
        }
        if exists k :: 0 <= k < |all| && SomeConnected(cores, e.pool, all[k]) {
          var k :| 0 <= k < |all| && SomeConnected(cores, e.pool, all[k]);
          assert k > 0 ==> SomeConnected(cores, e.pool, rest[k - 1]);
          assert Looks(e, rest) == rest;
        }
      }
    }
  }

  /** accept() on a listener succeeds exactly if some scan it makes sees a connected slot and
      the table has a free entry; a full table then reports ENFILE. Without a connected slot a
      non-blocking listener reports EWOULDBLOCK after its one scan, a blocking one ETIMEDOUT. On
      any other entry it reports EBADF. No failure changes anything. */
  lemma AcceptSucceedsIff(w: World, unheld: set<nat>, i: nat, scans: seq<set<nat>>, dflt: nat)
    requires Inv(w, unheld) && i < |w.table|
    ensures var (v, reply) := DoAccept(w, i, scans, dflt);
            var looks := Looks(w.table[i], scans);
            var seen := exists k :: 0 <= k < |looks| && SomeConnected(w.cores, w.table[i].pool, looks[k]);
            && (!reply.Value? ==> v == w)
            && (reply == Fail(EBADF) <==> w.table[i].kind != ListenFd)
            && (w.table[i].kind == ListenFd ==>
                  && (reply.Value? <==> seen && FirstFree(w.table) < |w.table|)
                  && (reply == Fail(ENFILE) <==> seen && FirstFree(w.table) == |w.table|)
                  && (reply == Fail(EWOULDBLOCK) <==> !seen && w.table[i].nonblocking && scans != [])
                  && (reply == Fail(ETIMEDOUT) <==> !seen && (!w.table[i].nonblocking || scans == [])))
  {
    InvShape(w, unheld, i);
    hide Inv;
    hide SomeConnected;
    if w.table[i].kind == ListenFd {
      FirstPickFindsIff(w.cores, w.table[i], scans);
    }
    hide FirstPick;
  }

  /** The slot that accept() empties gets a new listening socket exactly if the interface is up. */
  lemma AcceptRefills(w: World, unheld: set<nat>, i: nat, scans: seq<set<nat>>, dflt: nat)
    requires Inv(w, unheld) && i < |w.table| && UnderSpan(DoAccept(w, i, scans, dflt).0.cores)
    requires DoAccept(w, i, scans, dflt).1.Value?
    ensures var v, k := DoAccept(w, i, scans, dflt).0, FirstPick(w.cores, w.table[i], scans).value;
            && |v.table| == |w.table| && |v.table[i].pool| == |w.table[i].pool|
            && (v.table[i].pool[k] != 0 <==> Up(w.cores, w.table[i].iface))
  {
    OpenSucceedsIff(w.cores, w.table[i].iface, TcpSock, true);
    hide Inv;
    hide Open;
    hide Found;
    hide Up;
    hide UnderSpan;
  }

  // ----- connect, bind, shutdown -----

  /** connect() on a TCP entry succeeds exactly if the interface is up and the handshake
      completes; ENOBUFS means that the interface is down, ETIMEDOUT that the handshake did not
      complete. Only the entry's socket and its connected flag change. */
  lemma ConnectSucceedsIff(w: World, unheld: set<nat>, i: nat, ip: nat, port: nat, reached: bool)
    requires Inv(w, unheld) && i < |w.table| && w.table[i].kind == TcpFd
    requires UnderSpan(DoConnect(w, i, ip, port, reached).0.cores)
    ensures var (v, reply) := DoConnect(w, i, ip, port, reached);
            var e, up := w.table[i], Up(w.cores, w.table[i].iface);
            && (reply == Value(0) <==> up && reached)
            && (reply == Fail(ENOBUFS) <==> !up)
            && (reply == Fail(ETIMEDOUT) <==> up && !reached)
            && OnlyEntry(w, v, i)
            && v.table[i] == e.(sock := v.table[i].sock, connected := e.connected || reply == Value(0))
            && (v.table[i].sock != 0 <==> up)
  {
    OpenSucceedsIff(w.cores, w.table[i].iface, TcpSock, true);
    hide Inv;
    hide Open;
    hide Found;
    hide Up;
  }

  /** connect() on a UDP entry always succeeds and stores the destination; on a listener it
      reports EBADF and changes nothing. */
  lemma ConnectElsewhere(w: World, i: nat, ip: nat, port: nat, reached: bool)
    requires i < |w.table| && (w.table[i].kind == UdpFd || w.table[i].kind == ListenFd)
    ensures var (v, reply) := DoConnect(w, i, ip, port, reached);
            && (w.table[i].kind == ListenFd ==> reply == Fail(EBADF) && v == w)
            && (w.table[i].kind == UdpFd ==>
                  && reply == Value(0) && OnlyEntry(w, v, i) && v.cores == w.cores
                  && v.table[i].localIp == ip && v.table[i].localPort == port && v.table[i].connected
                  && v.table[i] == w.table[i].(localIp := v.table[i].localIp, localPort := v.table[i].localPort,
                                               connected := v.table[i].connected))
  {
  }

  /** bind() stores address and port in every case and changes nothing else of the entry but
      perhaps its socket. */
  predicate BindStores(w: World, v: World, i: nat, ip: nat, port: nat) {
    && OnlyEntry(w, v, i) && v.table[i].localIp == ip && v.table[i].localPort == port
    && v.table[i] == w.table[i].(localIp := v.table[i].localIp, localPort := v.table[i].localPort, sock := v.table[i].sock)
  }

  /** On a TCP entry that is all, and so it is for a UDP entry bound to 127.0.0.0/8, where the
      reply is that of the loopback registration. */
  lemma BindKeepsSocket(w: World, i: nat, ip: nat, port: nat, loopbackOk: bool, bound: bool)
    requires i < |w.table| && (w.table[i].kind != UdpFd || ip % 256 == 127)
    ensures var (v, reply) := DoBind(w, i, ip, port, loopbackOk, bound);
            && BindStores(w, v, i, ip, port) && v.cores == w.cores && v.table[i].sock == w.table[i].sock
            && (reply == Value(0) <==> w.table[i].kind != UdpFd || loopbackOk)
  {
  }

  /** Any other UDP entry gets a new socket, exactly if the interface is up and the port is 0 or
      taken by smoltcp; otherwise it is left without one and bind() reports EADDRINUSE. */
  lemma BindReopens(w: World, unheld: set<nat>, i: nat, ip: nat, port: nat, loopbackOk: bool, bound: bool)
    requires Inv(w, unheld) && i < |w.table| && w.table[i].kind == UdpFd && ip % 256 != 127
    requires UnderSpan(DoBind(w, i, ip, port, loopbackOk, bound).0.cores)
    ensures var (v, reply) := DoBind(w, i, ip, port, loopbackOk, bound);
            var granted := Up(w.cores, w.table[i].iface) && (port == 0 || bound);
            && BindStores(w, v, i, ip, port)
            && (reply == Value(0) <==> granted) && (reply == Fail(EADDRINUSE) <==> !granted)
            && (v.table[i].sock != 0 <==> granted)
  {
    var e := w.table[i];
    var cs := ShutIfValid(w.cores, e.sock, UdpSock);
    ShutEntryOk(w, unheld, i);
    hide Inv;
    hide CoresOk;
    OpenSucceedsIff(cs, e.iface, UdpSock, port == 0 || bound);
    hide ShutIfValid;
    hide Open;
    hide Found;
    hide Up;
    hide UnderSpan;
  }

  lemma ShutEntryOk(w: World, unheld: set<nat>, i: nat)
    requires Inv(w, unheld) && i < |w.table| && w.table[i].kind == UdpFd
    ensures var cs := ShutIfValid(w.cores, w.table[i].sock, UdpSock);
            CoresOk(cs) && Up(cs, w.table[i].iface) == Up(w.cores, w.table[i].iface)
  {
    assert CoresOk(w.cores);
    hide Inv;
    hide CoresOk;
    if w.table[i].sock != 0 {
      HeldIsLive(w, unheld, SockOf(i));
      ShutOk(w.cores, w.table[i].sock, UdpSock);
    }
  }

  /** A TCP descriptor that is bound and then listens is a listener on the bound port. */
  lemma BindThenListen(w: World, unheld: set<nat>, i: nat, ip: nat, port: nat, backlog: int, refused: set<nat>)
    requires Inv(w, unheld) && i < |w.table| && w.table[i].kind == TcpFd && port != 0
    requires UnderSpan(DoListen(DoBind(w, i, ip, port, true, true).0, i, backlog, true, refused).0.cores)
    ensures var v := DoListen(DoBind(w, i, ip, port, true, true).0, i, backlog, true, refused).0;
            v.table[i].kind == ListenFd && v.table[i].port == port && v.table[i].localIp == ip
  {
    hide Arm;
  }

  /** shutdown() always answers 0. A TCP entry that held a socket ends without one, unconnected,
      and that socket is closed; everything else stays. */
  lemma ShutdownDisconnects(w: World, unheld: set<nat>, i: nat)
    requires Inv(w, unheld) && i < |w.table|
    ensures var (v, reply) := DoShutdown(w, i);
            var e := w.table[i];
            && reply == Value(0)
            && (e.kind != TcpFd || e.sock == 0 ==> v == w)
            && (e.kind == TcpFd && e.sock != 0 ==>
                  OnlyEntry(w, v, i) && v.table[i] == e.(sock := 0, connected := false)
                  && IsLive(w.cores, e.sock) && !IsLive(v.cores, e.sock))
  {
    var e := w.table[i];
    if e.kind == TcpFd && e.sock != 0 {
      HeldIsLive(w, unheld, SockOf(i));
      ShutOk(w.cores, e.sock, TcpSock);
      var cs := Shut(w.cores, e.sock, TcpSock);
      assert e.sock in Kinds(cs) <==> IsLive(cs, e.sock);
      hide Inv;
      hide Shut;
    }
  }

  /** A descriptor that is not in use: each call reports its error, close goes to the real lwIP,
      and nothing changes. */
  lemma UnusedDescriptor(w: World, c: Call)
    requires c.Bind? || c.Listen? || c.Accept? || c.Connect? || c.Shutdown? || c.Close?
    requires !InUse(w, c.fd)
    ensures Step(w, c).0 == w
    ensures c.Bind? || c.Connect? ==> Step(w, c).1 == Fail(EINVAL)
    ensures c.Listen? || c.Accept? || c.Shutdown? ==> Step(w, c).1 == Fail(EBADF)
    ensures c.Close? ==> Step(w, c).1 == Delegated
  {
  }

  /** A malformed address reports EINVAL and changes nothing; closing answers 0 and frees the descriptor. */
  lemma UsedDescriptor(w: World, c: Call)
    requires c.Bind? || c.Connect? || c.Close?
    requires InUse(w, c.fd)
    ensures !c.Close? && !c.wellFormed ==> Step(w, c) == (w, Fail(EINVAL))
    ensures c.Close? ==> Step(w, c).1 == Value(0) && !InUse(Step(w, c).0, c.fd)
    ensures c.Close? ==> OnlyEntry(w, Step(w, c).0, c.fd - w.offset)
  {
  }
}
