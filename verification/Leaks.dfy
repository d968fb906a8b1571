/**
Which calls of the shim leave a live socket behind that no descriptor reaches, past 24-bit
ids as well, and runs from start-up that do.
 */
module Leaks {
  import opened Basics
  import opened SocketCore
  import opened SocketCalls
  import opened Ownership
  import opened OwnershipRuns
  import opened OwnershipTheorems

  /** Socket `id` of interface `i` is live, and no place of the descriptor table reaches it: no
      handle has room for the id, or nobody holds the handle. */
  predicate Orphan(w: World, i: nat, id: nat) {
    && i < |w.cores| && id in Sockets(w.cores[i])
    && (id >= ID_SPAN || Count(w.table, Pack(i, id)) == 0)
  }

  lemma OrphanIffUnheld(w: World, unheld: set<nat>, i: nat, id: nat)
    requires Inv(w, unheld)
    ensures Orphan(w, i, id) <==> id < ID_SPAN && Pack(i, id) in unheld
  {
    var p := Pack(i, id);
    if i < |w.cores| {
      assert CoreOk(w.cores[i]);
      assert id in Sockets(w.cores[i]) ==> HandleOk(w.cores[i], id);
    }
    if id < ID_SPAN {
      PackRoundTrip(i, id);
      assert Accounted(w.table, Kinds(w.cores), unheld, p);
      assert p in Kinds(w.cores) <==> IsLive(w.cores, p);
      assert p == 0 ==> p !in unheld && p !in Kinds(w.cores);
    }
  }

  // ----- how many sockets a call asks for -----

  /** The opens of listen: up to the first slot that smoltcp refuses. */
  function Attempts(size: nat, refused: set<nat>, k: nat): nat
    requires k <= size
    decreases size - k
  {
    if k == size then 0 else if k in refused then 1 else 1 + Attempts(size, refused, k + 1)
  }

  datatype Wish = Wish(iface: nat, n: nat)

  /** How many sockets the call tries to open, and on which interface. */
  function Wants(w: World, c: Call): Wish {
    match c
    case Socket(domain, ty, dflt) =>
      Wish(dflt, Tick(domain == AF_INET && ty % 256 == SOCK_DGRAM && FirstFree(w.table) < |w.table|))
    case Bind(fd, wellFormed, ip, port, _, bound) =>
      if InUse(w, fd) && wellFormed && w.table[fd - w.offset].kind == UdpFd && !IsLoopbackIp(ip)
      then Wish(w.table[fd - w.offset].iface, Tick(port == 0 || bound)) else Wish(0, 0)
    case Listen(fd, backlog, memory, refused) =>
      if InUse(w, fd) && w.table[fd - w.offset].kind == TcpFd && w.table[fd - w.offset].localPort != 0 && memory
      then Wish(w.table[fd - w.offset].iface, Attempts(PoolSize(w.poolMax, backlog), refused, 0)) else Wish(0, 0)
    case Accept(fd, scans, _) =>
      if InUse(w, fd) && w.table[fd - w.offset].kind == ListenFd
      then Wish(w.table[fd - w.offset].iface,
                Tick(FirstPick(w.cores, w.table[fd - w.offset], scans).Some? && FirstFree(w.table) < |w.table|))
      else Wish(0, 0)
    case Connect(fd, wellFormed, _, _, _) =>
      if InUse(w, fd) && wellFormed && w.table[fd - w.offset].kind == TcpFd
      then Wish(w.table[fd - w.offset].iface, 1) else Wish(0, 0)
    case _ => Wish(0, 0)
  }

  /** `n` opens on the interface do not all get an id that fits 24 bits. */
  predicate Exceeds(cores: seq<Core>, x: Wish) {
    x.n > 0 && x.iface < |cores| && cores[x.iface].up && cores[x.iface].nextId + x.n > ID_SPAN
  }

  predicate PastSpan(w: World, c: Call) { Exceeds(w.cores, Wants(w, c)) }

  // ----- the open that loses its socket -----

  /** The cores stay within 24-bit ids, or the socket with the first id past them is there. */
  ghost predicate SpanOutcome(cores: seq<Core>, after: seq<Core>, x: Wish) {
    && (UnderSpan(after) <==> !Exceeds(cores, x))
    && (Exceeds(cores, x) ==> x.iface < |after| && ID_SPAN in Sockets(after[x.iface]))
  }

  lemma OkUnderSpan(cores: seq<Core>)
    requires CoresOk(cores)
    ensures UnderSpan(cores)
  {
    assert forall i :: 0 <= i < |cores| ==> CoreOk(cores[i]);
  }

  lemma OpenSpan(cores: seq<Core>, iface: nat, kind: SockKind, bound: bool)
    requires CoresOk(cores)
    ensures SpanOutcome(cores, Open(cores, iface, kind, bound).0, Wish(iface, Tick(bound)))
    ensures var (cs, p) := Open(cores, iface, kind, bound);
            p != 0 && Found(cs, p) <==> iface < |cores| && cores[iface].up && bound && cores[iface].nextId < ID_SPAN
  {
    OkUnderSpan(cores);
    if iface < |cores| && cores[iface].up && bound {
      var c, cs := cores[iface], Open(cores, iface, kind, bound).0;
      assert CoreOk(c);
      RegisterSpan(c, kind);
      PackRoundTrip(iface, c.nextId);
      hide Register;
      hide Sockets;
      hide Pack;
      hide IfaceOf;
      hide CoreOk;
      if c.nextId == ID_SPAN {
        assert LocalOf(Pack(iface, ID_SPAN)) == 0;
        assert !(cs[iface].issued < ID_SPAN);
      }
    }
  }

  lemma RegisterSpan(c: Core, kind: SockKind)
    requires CoreOk(c)
    ensures var d := Register(c, kind);
            && d.up == c.up && d.issued == c.issued + 1
            && c.nextId in Sockets(d) && c.nextId in d.handles && 0 !in d.handles
  {
    assert 0 in c.handles ==> HandleOk(c, 0);
  }

  /** An open within the span is one wish fewer for what follows. */
  lemma OneFewer(cores: seq<Core>, iface: nat, n: nat, after: seq<Core>)
    requires CoresOk(cores) && Open(cores, iface, TcpSock, true).1 != 0
    requires Found(Open(cores, iface, TcpSock, true).0, Open(cores, iface, TcpSock, true).1)
    ensures CoresOk(Open(cores, iface, TcpSock, true).0)
    ensures SpanOutcome(Open(cores, iface, TcpSock, true).0, after, Wish(iface, n))
            ==> SpanOutcome(cores, after, Wish(iface, n + 1))
  {
    OpenSpan(cores, iface, TcpSock, true);
    OpenOk(cores, iface, TcpSock, true);
    var (cs, p) := Open(cores, iface, TcpSock, true);
    assert cs[iface].up && cs[iface].nextId == cores[iface].nextId + 1;
    assert CoreOk(cs[iface]);
    hide CoresOk;
    hide UnderSpan;
    hide Sockets;
  }

  lemma {:induction false} ArmSpan(cores: seq<Core>, pool: seq<nat>, iface: nat, refused: set<nat>, k: nat)
    requires k <= |pool| && CoresOk(cores)
    ensures SpanOutcome(cores, Arm(cores, pool, iface, refused, k).cores, Wish(iface, Attempts(|pool|, refused, k)))
    decreases |pool| - k
  {
    hide CoresOk;
    hide SpanOutcome;
    hide Open;
    hide Found;
    NoOpenSpan(cores, iface);
    if k < |pool| {
      var (cs, p) := Open(cores, iface, TcpSock, true);
      OpenSpan(cores, iface, TcpSock, true);
      if p != 0 && Found(cs, p) && k !in refused {
        OneFewer(cores, iface, Attempts(|pool|, refused, k + 1), Arm(cs, pool[k := p], iface, refused, k + 1).cores);
        ArmSpan(cs, pool[k := p], iface, refused, k + 1);
      } else {
        MoreWishes(cores, iface, cs, Attempts(|pool|, refused, k));
      }
    }
  }

  /** Where the loop stops after an open, further wishes change nothing. */
  lemma MoreWishes(cores: seq<Core>, iface: nat, after: seq<Core>, n: nat)
    requires SpanOutcome(cores, after, Wish(iface, 1)) && n >= 1
    requires n > 1 ==> Exceeds(cores, Wish(iface, 1)) || !Exceeds(cores, Wish(iface, n))
    ensures SpanOutcome(cores, after, Wish(iface, n))
  {
  }

  /** Closing the socket of a UDP entry leaves the ids as they are. */
  lemma ShutSpan(w: World, unheld: set<nat>, i: nat, x: Wish)
    requires Inv(w, unheld) && i < |w.table| && w.table[i].kind == UdpFd
    ensures var cs := ShutIfValid(w.cores, w.table[i].sock, UdpSock);
            CoresOk(cs) && (Exceeds(cs, x) <==> Exceeds(w.cores, x))
  {
    assert CoresOk(w.cores);
    hide Inv;
    hide CoresOk;
    if w.table[i].sock != 0 {
      HeldIsLive(w, unheld, SockOf(i));
      ShutOk(w.cores, w.table[i].sock, UdpSock);
    }
  }

  lemma BindSpan(w: World, unheld: set<nat>, i: nat, port: nat, bound: bool)
    requires Inv(w, unheld) && i < |w.table| && w.table[i].kind == UdpFd
    ensures var e := w.table[i];
            var cs := ShutIfValid(w.cores, e.sock, UdpSock);
            SpanOutcome(w.cores, Open(cs, e.iface, UdpSock, port == 0 || bound).0,
                        Wish(e.iface, Tick(port == 0 || bound)))
  {
    hide Inv;
    hide CoresOk;
    hide Open;
    hide UnderSpan;
    var e := w.table[i];
    var cs := ShutIfValid(w.cores, e.sock, UdpSock);
    ShutSpan(w, unheld, i, Wish(e.iface, Tick(port == 0 || bound)));
    hide ShutIfValid;
    hide Exceeds;
    OpenSpan(cs, e.iface, UdpSock, port == 0 || bound);
  }

  lemma KeptSpan(w: World, v: World, unheld: set<nat>)
    requires Inv(v, unheld)
    ensures SpanOutcome(w.cores, v.cores, Wish(0, 0))
  {
    OkUnderSpan(v.cores);
  }

  lemma NoOpenSpan(cores: seq<Core>, iface: nat)
    requires CoresOk(cores)
    ensures SpanOutcome(cores, cores, Wish(iface, 0))
  {
    OkUnderSpan(cores);
  }

  lemma SocketCallSpan(w: World, c: Call)
    requires CoresOk(w.cores) && c.Socket?
    ensures SpanOutcome(w.cores, Step(w, c).0.cores, Wants(w, c))
  {
    hide CoresOk;
    hide SpanOutcome;
    hide Open;
    NoOpenSpan(w.cores, c.dflt);
    OpenSpan(w.cores, c.dflt, UdpSock, true);
  }

  lemma BindCallSpan(w: World, c: Call, unheld: set<nat>)
    requires Inv(w, unheld) && c.Bind?
    ensures SpanOutcome(w.cores, Step(w, c).0.cores, Wants(w, c))
  {
    hide Inv;
    hide SpanOutcome;
    hide Open;
    KeptSpan(w, w, unheld);
    if InUse(w, c.fd) && w.table[c.fd - w.offset].kind == UdpFd {
      BindSpan(w, unheld, c.fd - w.offset, c.port, c.bound);
    }
  }

  lemma ListenCallSpan(w: World, c: Call)
    requires CoresOk(w.cores) && c.Listen?
    ensures SpanOutcome(w.cores, Step(w, c).0.cores, Wants(w, c))
  {
    hide CoresOk;
    hide SpanOutcome;
    hide Arm;
    NoOpenSpan(w.cores, 0);
    if InUse(w, c.fd) {
      ArmSpan(w.cores, Zeros(PoolSize(w.poolMax, c.backlog)), w.table[c.fd - w.offset].iface, c.refused, 0);
    }
  }

  lemma AcceptCallSpan(w: World, c: Call)
    requires CoresOk(w.cores) && c.Accept?
    ensures SpanOutcome(w.cores, Step(w, c).0.cores, Wants(w, c))
  {
    hide CoresOk;
    hide SpanOutcome;
    hide Open;
    hide FirstPick;
    NoOpenSpan(w.cores, 0);
    if InUse(w, c.fd) {
      NoOpenSpan(w.cores, w.table[c.fd - w.offset].iface);
      OpenSpan(w.cores, w.table[c.fd - w.offset].iface, TcpSock, true);
    }
  }

  lemma ConnectCallSpan(w: World, c: Call)
    requires CoresOk(w.cores) && c.Connect?
    ensures SpanOutcome(w.cores, Step(w, c).0.cores, Wants(w, c))
  {
    hide CoresOk;
    hide SpanOutcome;
    hide Open;
    hide Found;
    NoOpenSpan(w.cores, 0);
    if InUse(w, c.fd) {
      OpenSpan(w.cores, w.table[c.fd - w.offset].iface, TcpSock, true);
    }
  }

  /** Calls that open nothing. */
  lemma QuietCallSpan(w: World, c: Call, unheld: set<nat>)
    requires Inv(w, unheld) && (c.Shutdown? || c.Close? || c.Serve?)
    ensures SpanOutcome(w.cores, Step(w, c).0.cores, Wants(w, c))
  {
    hide Inv;
    hide SpanOutcome;
    hide DoShutdown;
    hide DoClose;
    hide Serviced;
    if c.Serve? {
      if c.iface < |w.cores| { ServiceKeeps(w, unheld, c.iface, c.service); }
    } else if InUse(w, c.fd) {
      ShutdownKeeps(w, unheld, c.fd - w.offset);
      CloseKeeps(w, unheld, c.fd - w.offset);
    }
    KeptSpan(w, Step(w, c).0, unheld);
  }

  /** A call of the shim, or a service, goes past 24-bit ids exactly as announced. */
  lemma StepSpan(w: World, c: Call, unheld: set<nat>)
    requires Inv(w, unheld) && !c.NativeOpen? && !c.NativeClose?
    ensures SpanOutcome(w.cores, Step(w, c).0.cores, Wants(w, c))
  {
    assert CoresOk(w.cores);
    hide *;
    match c
    case Socket(_, _, _) => SocketCallSpan(w, c);
    case Bind(_, _, _, _, _, _) => BindCallSpan(w, c, unheld);
    case Listen(_, _, _, _) => ListenCallSpan(w, c);
    case Accept(_, _, _) => AcceptCallSpan(w, c);
    case Connect(_, _, _, _, _) => ConnectCallSpan(w, c);
    case Shutdown(_) => QuietCallSpan(w, c, unheld);
    case Close(_) => QuietCallSpan(w, c, unheld);
    case Serve(_, _) => QuietCallSpan(w, c, unheld);
  }

  // ----- which calls leak -----

  lemma ConnectOver(w: World, c: Call, i: nat)
    requires Overwrites(w, c) && i == c.fd - w.offset
    requires Open(w.cores, w.table[i].iface, TcpSock, true).1 != w.table[i].sock
    ensures var v, lost := Step(w, c).0, w.table[i].sock;
            && v.cores == Open(w.cores, w.table[i].iface, TcpSock, true).0
            && |v.table| == |w.table| && v.table == w.table[i := v.table[i]]
            && CountIn(v.table[i], lost) + 1 == CountIn(w.table[i], lost)
  {
    hide Open;
    hide Found;
  }

  /** The socket that a connect overwrites stays open, and nobody holds it any more. */
  lemma OverwriteOrphans(w: World, c: Call, unheld: set<nat>)
    requires Inv(w, unheld) && Overwrites(w, c)
    ensures var lost := w.table[c.fd - w.offset].sock;
            Orphan(Step(w, c).0, IfaceOf(lost), LocalOf(lost)) && !Orphan(w, IfaceOf(lost), LocalOf(lost))
  {
    assert CoresOk(w.cores);
    hide Inv;
    hide CoresOk;
    hide Step;
    hide Open;
    hide CountIn;
    var i, v := c.fd - w.offset, Step(w, c).0;
    var lost := w.table[i].sock;
    HeldIsLive(w, unheld, SockOf(i));
    HeldOnce(w, unheld, i, lost);
    OpenMisses(w.cores, w.table[i].iface, lost);
    ConnectOver(w, c, i);
    CountUpdate(w.table, i, v.table[i], lost);
    PackBack(lost);
    hide Pack;
    hide IfaceOf;
    hide LocalOf;
  }

  lemma PackBack(p: nat)
    ensures Pack(IfaceOf(p), LocalOf(p)) == p && LocalOf(p) < ID_SPAN
  {
  }

  /** An open leaves every live socket live and returns the handle of none of them. */
  lemma OpenMisses(cores: seq<Core>, iface: nat, q: nat)
    requires CoresOk(cores) && q != 0 && IsLive(cores, q)
    ensures var (cs, p) := Open(cores, iface, TcpSock, true); p != q && IsLive(cs, q)
  {
    var c := cores[IfaceOf(q)];
    assert CoreOk(c) && HandleOk(c, LocalOf(q));
    VacantIsSpare(c);
    if iface < |cores| {
      assert CoreOk(cores[iface]);
      PackRoundTrip(iface, cores[iface].nextId);
    }
  }

  /** Some socket is an orphan after the call and was none before. */
  ghost predicate LeaksAt(w: World, v: World) {
    exists i, id :: Orphan(v, i, id) && !Orphan(w, i, id)
  }

  /** A call of the shim leaks a socket exactly if it is a connect over a held one, or if it
      opens more sockets on an interface than there are ids of 24 bits left. */
  lemma LeaksIff(w: World, c: Call, unheld: set<nat>)
    requires Inv(w, unheld) && !c.NativeOpen? && !c.NativeClose?
    ensures LeaksAt(w, Step(w, c).0) <==> Overwrites(w, c) || PastSpan(w, c)
    ensures Inv(Step(w, c).0, unheld) <==> !Overwrites(w, c) && !PastSpan(w, c)
  {
    var v := Step(w, c).0;
    StepSpan(w, c, unheld);
    if PastSpan(w, c) {
      var i := Wants(w, c).iface;
      OrphanIffUnheld(w, unheld, i, ID_SPAN);
      assert Orphan(v, i, ID_SPAN);
      if Inv(v, unheld) {
        OkUnderSpan(v.cores);
        assert false;
      }
    } else {
      LeaksWithinSpan(w, c, unheld);
      if Overwrites(w, c) {
        OverwriteOrphans(w, c, unheld);
      } else {
        SameOrphans(w, v, unheld);
      }
    }
  }

  lemma SameOrphans(w: World, v: World, unheld: set<nat>)
    requires Inv(w, unheld) && Inv(v, unheld)
    ensures !LeaksAt(w, v)
  {
    forall i: nat, id: nat
      ensures Orphan(v, i, id) <==> Orphan(w, i, id)
    {
      OrphanIffUnheld(w, unheld, i, id);
      OrphanIffUnheld(v, unheld, i, id);
    }
  }

  // ----- runs that leak -----

  /** From start-up on a machine with a descriptor and an interface: attach, socket, connect and
      connect again. The second connect leaks, although nothing had leaked before it. */
  lemma ConnectTwiceLeaks(w: World, ip: nat, port: nat, reached: bool)
    requires Initial(w) && |w.cores| > 0 && |w.table| > 0
    ensures var again := Connect(w.offset, true, ip, port, reached);
            var v := Run(w, [Serve(0, Attach(false)), Socket(AF_INET, SOCK_STREAM, 0), again]);
            Inv(v, {}) && Overwrites(v, again) && LeaksAt(v, Step(v, again).0)
  {
    var c1, c2, c3 := Serve(0, Attach(false)), Socket(AF_INET, SOCK_STREAM, 0), Connect(w.offset, true, ip, port, reached);
    var w1 := Step(w, c1).0;
    var w2 := Step(w1, c2).0;
    var v := Step(w2, c3).0;
    RunThree(w, c1, c2, c3);
    AttachedReady(w, c2);
    FirstConnect(w1, c3);
    InitialInv(w);
    hide Inv;
    hide Run;
    hide Step;
    LeaksIff(w, c1, {});
    LeaksIff(w1, c2, {});
    LeaksIff(w2, c3, {});
    LeaksIff(v, c3, {});
  }

  /** Interface 0 has just been attached. */
  predicate Ready(w: World) {
    |w.cores| > 0 && w.cores[0].up && w.cores[0].nextId == 1
  }

  lemma AttachedReady(w: World, c: Call)
    requires Initial(w) && |w.cores| > 0 && |w.table| > 0 && c == Socket(AF_INET, SOCK_STREAM, 0)
    ensures var v := Step(w, Serve(0, Attach(false))).0;
            && Ready(v) && v.offset == w.offset && |v.table| > 0 && v.table[0].kind == FreeFd
            && !PastSpan(w, Serve(0, Attach(false))) && !PastSpan(v, c)
  {
  }

  lemma FirstConnect(w: World, c: Call)
    requires Ready(w) && |w.table| > 0 && w.table[0].kind == FreeFd
    requires c.Connect? && c.fd == w.offset && c.wellFormed
    ensures var v := Step(w, Socket(AF_INET, SOCK_STREAM, 0)).0;
            !PastSpan(v, c) && !Overwrites(v, c) && Overwrites(Step(v, c).0, c)
  {
    var v := Step(w, Socket(AF_INET, SOCK_STREAM, 0)).0;
    assert FirstFree(w.table) == 0;
    assert v.cores == w.cores && v.offset == w.offset && v.table[0] == Fresh(TcpFd, 0) && |v.table| == |w.table|;
    hide Found;
    hide Register;
    PackRoundTrip(0, 1);
  }

  lemma RunThree(w: World, a: Call, b: Call, c: Call)
    ensures Run(w, [a, b, c]) == Step(Step(Step(w, a).0, b).0, c).0
  {
    hide Step;
    var all := [a, b, c];
    assert all[1..] == [b, c] && all[1..][1..] == [c];
    var w2 := Step(Step(w, a).0, b).0;
    assert Run(w2, [c]) == Step(w2, c).0;
    assert Run(Step(w, a).0, [b, c]) == Run(w2, [c]);
  }

  /** A datagram socket opened and closed, `n` times over. */
  function Churn(fd: int, n: nat): seq<Call> {
    if n == 0 then [] else [Socket(AF_INET, SOCK_DGRAM, 0), Close(fd)] + Churn(fd, n - 1)
  }

  /** The first entry is free, and interface 0 is up, has no socket and has handed out `n` ids. */
  predicate Quiet(w: World, n: nat) {
    && |w.table| > 0 && w.table[0].kind == FreeFd
    && |w.cores| > 0 && w.cores[0].up && w.cores[0].handles == map[] && w.cores[0].nextId == n + 1
  }

  lemma OpenedQuiet(w: World, n: nat)
    requires Quiet(w, n) && n + 1 < ID_SPAN
    ensures var v := Step(w, Socket(AF_INET, SOCK_DGRAM, 0)).0;
            && v.offset == w.offset && |v.table| == |w.table| && |v.cores| == |w.cores|
            && v.table[0] == Fresh(UdpFd, 0).(sock := n + 1) && v.cores[0] == Register(w.cores[0], UdpSock)
  {
    assert FirstFree(w.table) == 0;
    PackRoundTrip(0, n + 1);
    hide Register;
  }

  lemma ClosedQuiet(w: World, c: Core, n: nat)
    requires |w.table| > 0 && |w.cores| > 0 && w.table[0] == Fresh(UdpFd, 0).(sock := n + 1)
    requires w.cores[0] == Register(c, UdpSock) && c.up && c.handles == map[] && c.nextId == n + 1 < ID_SPAN
    ensures Quiet(Step(w, Close(w.offset)).0, n + 1) && Step(w, Close(w.offset)).0.offset == w.offset
  {
    var v := Step(w, Close(w.offset)).0;
    assert v.cores == Shut(w.cores, n + 1, UdpSock);
    assert IfaceOf(n + 1) == 0 && LocalOf(n + 1) == n + 1;
    assert w.cores[0].handles == map[n + 1 := FirstVacant(c.slots)];
    assert v.cores[0] == Unregister(w.cores[0], n + 1, UdpSock);
    assert v.cores[0].handles == map[];
  }

  lemma {:induction false} ChurnedQuiet(w: World, n: nat, more: nat)
    requires Quiet(w, n) && n + more < ID_SPAN
    ensures Quiet(Run(w, Churn(w.offset, more)), n + more)
    ensures Run(w, Churn(w.offset, more)).offset == w.offset
    decreases more
  {
    hide Step;
    if more > 0 {
      var c1, c2, rest := Socket(AF_INET, SOCK_DGRAM, 0), Close(w.offset), Churn(w.offset, more - 1);
      var v := Step(w, c1).0;
      var u := Step(v, c2).0;
      OpenedQuiet(w, n);
      ClosedQuiet(v, w.cores[0], n);
      hide Quiet;
      ChurnedQuiet(u, n + 1, more - 1);
      var all := [c1, c2] + rest;
      assert all[1..][1..] == rest;
      assert Run(v, all[1..]) == Run(u, rest);
    }
  }

  /** From start-up, with nothing but datagram sockets opened and closed one after another: the
      open that gets id 2^24 reports failure and leaks the socket that it made. */
  lemma FirstLostHandle(w: World, n: nat)
    requires Initial(w) && |w.cores| > 0 && |w.table| > 0 && n + 1 == 0x100_0000
    ensures var v := Run(Step(w, Serve(0, Attach(false))).0, Churn(w.offset, n));
            var (u, reply) := Step(v, Socket(AF_INET, SOCK_DGRAM, 0));
            Quiet(v, n) && reply == Fail(ENOBUFS) && !InUse(u, w.offset) && Orphan(u, 0, 0x100_0000)
  {
    var b := Step(w, Serve(0, Attach(false))).0;
    assert Quiet(b, 0) && b.offset == w.offset;
    ChurnedQuiet(b, 0, n);
    hide Run;
    hide Churn;
    LostAtSpan(Run(b, Churn(w.offset, n)));
  }

  lemma LostAtSpan(w: World)
    requires Quiet(w, ID_SPAN - 1)
    ensures var (u, reply) := Step(w, Socket(AF_INET, SOCK_DGRAM, 0));
            reply == Fail(ENOBUFS) && !InUse(u, w.offset) && Orphan(u, 0, ID_SPAN)
  {
    assert FirstFree(w.table) == 0;
    PackRoundTrip(0, ID_SPAN);
  }
}
