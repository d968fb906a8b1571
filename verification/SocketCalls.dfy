/**
The BSD calls that create, move and release sockets (sock_wrap.c over fd_table.c),
as functions on the whole state: the descriptor table and the socket cores. What
the network and the heap decide comes in with the call.
 */
module SocketCalls {
  import opened Basics
  import opened SocketCore

  datatype FdKind = FreeFd | TcpFd | UdpFd | ListenFd

  /** fd_entry_t. `sock` and the pool hold packed handles, 0 being invalid; an empty
      pool is a NULL one. A FREE entry keeps the stale values of its last life. */
  datatype Entry = Entry(
    kind: FdKind,
    nonblocking: bool,
    connected: bool,
    sock: nat,
    pool: seq<nat>,
    poolNext: nat,
    port: nat,
    localIp: nat,
    localPort: nat,
    iface: nat)

  /** `offset` is LWIP_SOCKET_OFFSET, `poolMax` CONFIG_LWIP_COMPAT_LISTENER_POOL. */
  datatype World = World(offset: nat, poolMax: nat, table: seq<Entry>, cores: seq<Core>)

  datatype Errno =
    | EAFNOSUPPORT | EPROTONOSUPPORT | ENFILE | ENOBUFS | EINVAL | EADDRINUSE
    | EBADF | ENOMEM | EWOULDBLOCK | ETIMEDOUT | UNSET

  /** Delegated: the descriptor is not the shim's and goes to the real lwip_close. */
  datatype Reply = Value(n: int) | Fail(errno: Errno) | Delegated

  datatype Call =
      // BSD calls of the shim
    | Socket(domain: int, ty: nat, dflt: nat)
    | Bind(fd: int, wellFormed: bool, ip: nat, port: nat, loopbackOk: bool, bound: bool)
    | Listen(fd: int, backlog: int, memory: bool, refused: set<nat>)
    | Accept(fd: int, scans: seq<set<nat>>, dflt: nat)
    | Connect(fd: int, wellFormed: bool, ip: nat, port: nat, reached: bool)
    | Shutdown(fd: int)
    | Close(fd: int)
      // bring-up and services of the same cores
    | Serve(iface: nat, service: Service)
      // direct users of esp_smoltcp_socket.h
    | NativeOpen(iface: nat, kind: SockKind, bound: bool)
    | NativeClose(sock: nat, kind: SockKind)

  datatype Service = Attach(withDhcp: bool) | StartDhcp | SetStatic | Resolve

  const AF_INET := 2
  const SOCK_STREAM := 1
  const SOCK_DGRAM := 2

  // ----- the descriptor table -----

  predicate InUse(w: World, fd: int) {
    0 <= fd - w.offset < |w.table| && w.table[fd - w.offset].kind != FreeFd
  }

  function FirstFree(table: seq<Entry>): (i: nat)
    ensures i <= |table|
    ensures i < |table| ==> table[i].kind == FreeFd
    ensures forall k :: 0 <= k < i ==> table[k].kind != FreeFd
  {
    if table == [] || table[0].kind == FreeFd then 0 else 1 + FirstFree(table[1..])
  }

  function Fresh(kind: FdKind, dflt: nat): Entry {
    Entry(kind, false, false, 0, [], 0, 0, 0, 0, dflt)
  }

  // ----- socket, bind, connect, shutdown -----

  function DoSocket(w: World, domain: int, ty: nat, dflt: nat): (World, Reply) {
    if domain != AF_INET then (w, Fail(EAFNOSUPPORT))
    else if ty % 256 != SOCK_STREAM && ty % 256 != SOCK_DGRAM then (w, Fail(EPROTONOSUPPORT))
    else
      var i := FirstFree(w.table);
      if i == |w.table| then (w, Fail(ENFILE))
      else if ty % 256 == SOCK_STREAM then
        (w.(table := w.table[i := Fresh(TcpFd, dflt)]), Value(w.offset + i))
      else
        var (cores, p) := Open(w.cores, dflt, UdpSock, true);
        if p == 0 then (w.(table := w.table[i := Fresh(FreeFd, dflt)], cores := cores), Fail(ENOBUFS))
        else (w.(table := w.table[i := Fresh(UdpFd, dflt).(sock := p)], cores := cores), Value(w.offset + i))
  }

  predicate IsLoopbackIp(ip: nat) { ip % 256 == 127 }

  function ShutIfValid(cores: seq<Core>, p: nat, kind: SockKind): (r: seq<Core>)
    ensures |r| == |cores|
  {
    if p != 0 then Shut(cores, p, kind) else cores
  }

  function DoBind(w: World, i: nat, ip: nat, port: nat, loopbackOk: bool, bound: bool): (World, Reply)
    requires i < |w.table|
  {
    var e := w.table[i].(localIp := ip, localPort := port);
    if e.kind != UdpFd then (w.(table := w.table[i := e]), Value(0))
    else if IsLoopbackIp(ip) then
      (w.(table := w.table[i := e]), if loopbackOk then Value(0) else Fail(UNSET))
    else
      var (cores, p) := Open(ShutIfValid(w.cores, e.sock, UdpSock), e.iface, UdpSock, port == 0 || bound);
      (w.(table := w.table[i := e.(sock := p)], cores := cores),
       if p == 0 then Fail(EADDRINUSE) else Value(0))
  }

  /** The lookup that every call through a handle makes first succeeds. */
  predicate Found(cores: seq<Core>, p: nat) {
    IfaceOf(p) < |cores| && cores[IfaceOf(p)].up && LocalOf(p) in cores[IfaceOf(p)].handles
  }

  function DoConnect(w: World, i: nat, ip: nat, port: nat, reached: bool): (World, Reply)
    requires i < |w.table|
  {
    var e := w.table[i];
    match e.kind
    case TcpFd =>
      var (cores, p) := Open(w.cores, e.iface, TcpSock, true);
      var ok := p != 0 && Found(cores, p) && reached;
      (w.(table := w.table[i := e.(sock := p, connected := e.connected || ok)], cores := cores),
       if p == 0 then Fail(ENOBUFS) else if ok then Value(0) else Fail(ETIMEDOUT))
    case UdpFd =>
      (w.(table := w.table[i := e.(localIp := ip, localPort := port, connected := true)]), Value(0))
    case _ => (w, Fail(EBADF))
  }

  function DoShutdown(w: World, i: nat): (World, Reply)
    requires i < |w.table|
  {
    var e := w.table[i];
    if e.kind == TcpFd && e.sock != 0 then
      (w.(table := w.table[i := e.(sock := 0, connected := false)], cores := Shut(w.cores, e.sock, TcpSock)),
       Value(0))
    else (w, Value(0))
  }

  // ----- listen -----

  datatype Armed = Armed(cores: seq<Core>, pool: seq<nat>, reply: Reply)

  /** Opens a listening socket for every pool slot from `k` on, up to the first failure. */
  function Arm(cores: seq<Core>, pool: seq<nat>, iface: nat, refused: set<nat>, k: nat): (r: Armed)
    requires k <= |pool|
    ensures |r.pool| == |pool| && |r.cores| == |cores|
    decreases |pool| - k
  {
    if k == |pool| then Armed(cores, pool, Value(0))
    else
      var (cs, p) := Open(cores, iface, TcpSock, true);
      if p == 0 then Armed(cs, pool[k := p], Fail(ENOBUFS))
      else if k in refused || !Found(cs, p) then Armed(cs, pool[k := p], Fail(EADDRINUSE))
      else Arm(cs, pool[k := p], iface, refused, k + 1)
  }

  function PoolSize(poolMax: nat, backlog: int): nat {
    if 0 < backlog <= poolMax then backlog else poolMax
  }

  function Zeros(n: nat): seq<nat> { seq(n, _ => 0) }

  function DoListen(w: World, i: nat, backlog: int, memory: bool, refused: set<nat>): (World, Reply)
    requires i < |w.table|
  {
    var e := w.table[i];
    if e.kind != TcpFd then (w, Fail(EBADF))
    else if e.localPort == 0 then (w, Fail(EINVAL))
    else if !memory then (w.(table := w.table[i := e.(pool := [])]), Fail(ENOMEM))
    else
      var a := Arm(w.cores, Zeros(PoolSize(w.poolMax, backlog)), e.iface, refused, 0);
      (w.(table := w.table[i := e.(pool := a.pool, poolNext := 0, port := e.localPort, kind := ListenFd)],
          cores := a.cores),
       a.reply)
  }

  // ----- accept -----

  predicate Connected(cores: seq<Core>, p: nat, talking: set<nat>) {
    Found(cores, p) && p in talking
  }

  /** The slot that the rotated scan stops at, `k` slots already visited. */
  function Pick(cores: seq<Core>, pool: seq<nat>, next: nat, talking: set<nat>, k: nat): (r: Option<nat>)
    requires k <= |pool|
    ensures r.Some? ==> r.value < |pool| && Connected(cores, pool[r.value], talking)
    decreases |pool| - k
  {
    if k == |pool| then None
    else if Connected(cores, pool[(next + k) % |pool|], talking) then Some((next + k) % |pool|)
    else Pick(cores, pool, next, talking, k + 1)
  }

  function FirstPick(cores: seq<Core>, e: Entry, scans: seq<set<nat>>): (r: Option<nat>)
    ensures r.Some? ==> r.value < |e.pool|
  {
    if scans == [] then None
    else
      var r := Pick(cores, e.pool, e.poolNext, scans[0], 0);
      if r.Some? || e.nonblocking then r else FirstPick(cores, e, scans[1..])
  }

  /** Hands pool slot `k` of listener `i` to a new descriptor and refills the slot. */
  function Transfer(w: World, i: nat, k: nat, dflt: nat): (World, Reply)
    requires i < |w.table| && k < |w.table[i].pool|
  {
    var e := w.table[i];
    var j := FirstFree(w.table);
    if j == |w.table| then (w, Fail(ENFILE))
    else
      var taken := Fresh(TcpFd, dflt).(sock := e.pool[k], connected := true, iface := e.iface);
      var (cores, p) := Open(w.cores, e.iface, TcpSock, true);
      var left := e.(pool := e.pool[k := p], poolNext := (k + 1) % |e.pool|);
      (w.(table := w.table[j := taken][i := left], cores := cores), Value(w.offset + j))
  }

  function DoAccept(w: World, i: nat, scans: seq<set<nat>>, dflt: nat): (World, Reply)
    requires i < |w.table|
  {
    var e := w.table[i];
    if e.kind != ListenFd then (w, Fail(EBADF))
    else
      var r := FirstPick(w.cores, e, scans);
      if r.Some? then Transfer(w, i, r.value, dflt)
      else (w, Fail(if e.nonblocking && scans != [] then EWOULDBLOCK else ETIMEDOUT))
  }

  // ----- close -----

  function ShutPool(cores: seq<Core>, pool: seq<nat>, k: nat): (r: seq<Core>)
    requires k <= |pool|
    ensures |r| == |cores|
    decreases |pool| - k
  {
    if k == |pool| then cores
    else ShutPool(ShutIfValid(cores, pool[k], TcpSock), pool, k + 1)
  }

  function SockKindOf(kind: FdKind): SockKind {
    if kind == UdpFd then UdpSock else TcpSock
  }

  function DoClose(w: World, i: nat): World
    requires i < |w.table|
  {
    var e := w.table[i];
    w.(table := w.table[i := e.(kind := FreeFd)],
       cores := ShutPool(ShutIfValid(w.cores, e.sock, SockKindOf(e.kind)), e.pool, 0))
  }

  // ----- one call, and a run of calls -----

  /** Attaching creates the core once; the other services need one. */
  function Serviced(c: Core, service: Service): Core {
    match service
    case Attach(withDhcp) =>
      if c.up then c
      else
        var born := DOWN.(up := true, issued := c.issued);
        if withDhcp then EnableDhcp(born) else born
    case StartDhcp => EnableDhcp(c)
    case SetStatic => DropDhcp(c)
    case Resolve => ResolveAfter(c)
  }

  function Step(w: World, c: Call): (World, Reply) {
    match c
    case Socket(domain, ty, dflt) => DoSocket(w, domain, ty, dflt)
    case Bind(fd, wellFormed, ip, port, loopbackOk, bound) =>
      if InUse(w, fd) && wellFormed then DoBind(w, fd - w.offset, ip, port, loopbackOk, bound)
      else (w, Fail(EINVAL))
    case Listen(fd, backlog, memory, refused) =>
      if InUse(w, fd) then DoListen(w, fd - w.offset, backlog, memory, refused) else (w, Fail(EBADF))
    case Accept(fd, scans, dflt) =>
      if InUse(w, fd) then DoAccept(w, fd - w.offset, scans, dflt) else (w, Fail(EBADF))
    case Connect(fd, wellFormed, ip, port, reached) =>
      if InUse(w, fd) && wellFormed then DoConnect(w, fd - w.offset, ip, port, reached)
      else (w, Fail(EINVAL))
    case Shutdown(fd) =>
      if InUse(w, fd) then DoShutdown(w, fd - w.offset) else (w, Fail(EBADF))
    case Close(fd) =>
      if InUse(w, fd) then (DoClose(w, fd - w.offset), Value(0)) else (w, Delegated)
    case Serve(i, service) =>
      if i < |w.cores| then (w.(cores := w.cores[i := Serviced(w.cores[i], service)]), Value(0))
      else (w, Fail(UNSET))
    case NativeOpen(i, kind, bound) =>
      var (cores, p) := Open(w.cores, i, kind, bound);
      (w.(cores := cores), Value(p))
    case NativeClose(p, kind) => (w.(cores := Shut(w.cores, p, kind)), Value(0))
  }

  function Run(w: World, calls: seq<Call>): World
    decreases |calls|
  {
    if calls == [] then w else Run(Step(w, calls[0]).0, calls[1..])
  }

  /** Before the first call: nothing attached, every entry free. */
  predicate Initial(w: World) {
    && 1 <= w.poolMax
    && (forall i :: 0 <= i < |w.table| ==> w.table[i].kind == FreeFd)
    && (forall i :: 0 <= i < |w.cores| ==> w.cores[i] == DOWN)
  }
}
