/**
The shim as the program runs it: the descriptor table is an array updated in place and
the two interface contexts are objects. Every method is proved to do to the whole state
exactly what the call's function does, and never to make a typed lookup that panics.
 */
module Shim {
  import opened Basics
  import opened SocketCore
  import opened SocketCalls
  import opened Ownership
  import opened OwnershipRuns
  import opened OwnershipTheorems
  import DnsScan
  import DnsQuery

  /** What the scanner makes of what a turn of the query loop received. */
  function Answer(turn: Option<seq<Byte>>, id: nat): Option<seq<Byte>> {
    if turn.Some? then DnsScan.Scan(turn.value, id) else None
  }

  predicate Unanswered(turns: seq<Option<seq<Byte>>>, n: nat, id: nat) {
    n <= |turns| && forall m :: 0 <= m < n ==> Answer(turns[m], id).None?
  }

  /** IfaceCtx of lib.rs, its socket side. */
  class SocketCtx {
    var up: bool
    var slots: seq<Option<SockKind>>
    var handles: map<nat, nat>
    var nextId: nat
    var dhcp: Option<nat>
    ghost var issued: nat

    ghost function Value(): Core
      reads this
    {
      Core(up, slots, handles, nextId, dhcp, issued)
    }

    constructor ()
      ensures Value() == DOWN
    {
      up, slots, handles, nextId, dhcp, issued := false, [], map[], 1, None, 0;
    }

    method AllocId(h: nat) returns (id: nat)
      modifies this`handles, this`nextId, this`issued
      ensures id == old(nextId) && handles == old(handles)[id := h]
      ensures nextId == Bump(id) && issued == old(issued) + 1
    {
      id := nextId;
      nextId := if nextId >= 0xFFFF_FFFF then 1 else nextId + 1;
      handles := handles[id := h];
      issued := issued + 1;
    }

    /** smoltcp_tcp_open and smoltcp_udp_open; 0 if the port was refused. */
    method Open(kind: SockKind, bound: bool) returns (id: nat)
      modifies this
      ensures if bound then id == old(nextId) && Value() == Register(old(Value()), kind)
              else id == 0 && Value() == old(Value())
    {
      if !bound {
        return 0;
      }
      var h := FirstVacant(slots);
      slots := SetAdd(slots, kind);
      id := AllocId(h);
    }

    /** smoltcp_tcp_close and smoltcp_udp_close. The typed get must not panic. */
    method Close(id: nat, kind: SockKind)
      requires id in handles ==> TypedGetSafe(slots, handles[id], kind)
      modifies this`slots, this`handles
      ensures Value() == Unregister(old(Value()), id, kind)
    {
      if id in handles {
        slots := slots[handles[id] := None];
        handles := handles - {id};
      }
    }

    /** smoltcp_tcp_is_connected; `talking` is what smoltcp would answer for a live socket. */
    method IsConnected(id: nat, talking: bool) returns (r: bool)
      requires id in handles ==> TypedGetSafe(slots, handles[id], TcpSock)
      ensures r == (id in handles && talking)
    {
      r := id in handles && talking;
    }

    /** smoltcp_tcp_connect; `accepted` is what smoltcp answers for a live socket. */
    method Connect(id: nat, accepted: bool) returns (rc: int)
      requires id in handles ==> TypedGetSafe(slots, handles[id], TcpSock)
      ensures rc == if id in handles && accepted then 0 else -1
    {
      rc := if id in handles && accepted then 0 else -1;
    }

    /** smoltcp_tcp_is_active. */
    method IsActive(id: nat, active: bool) returns (r: bool)
      requires id in handles ==> TypedGetSafe(slots, handles[id], TcpSock)
      ensures r == (id in handles && active)
    {
      r := id in handles && active;
    }

    /** smoltcp_tcp_listen. */
    method Listen(id: nat, accepted: bool) returns (rc: int)
      requires id in handles ==> TypedGetSafe(slots, handles[id], TcpSock)
      ensures rc == if id in handles && accepted then 0 else -1
    {
      rc := if id in handles && accepted then 0 else -1;
    }

    /** smoltcp_iface_enable_dhcp, the socket that it adds. */
    method StartDhcp()
      requires up
      modifies this`slots, this`dhcp
      ensures Value() == EnableDhcp(old(Value()))
    {
      if dhcp.Some? {
        return;
      }
      var h := FirstVacant(slots);
      slots := SetAdd(slots, DhcpSock);
      dhcp := Some(h);
    }

    /** smoltcp_resolve for a hostname. `sent` says whether smoltcp took the query, `turns` what
        the temporary socket received before each deadline check. A reply that the scanner does
        not understand is skipped, and the socket is gone whatever the outcome. */
    method Resolve(host: seq<Byte>, id: nat, sent: bool, turns: seq<Option<seq<Byte>>>)
      returns (r: Option<seq<Byte>>)
      requires up && id < 0x1_0000
      modifies this`slots
      ensures Value() == if DnsQuery.Accepted(host) && sent then ResolveAfter(old(Value())) else old(Value())
      ensures r.Some? ==> DnsQuery.Accepted(host) && sent
      ensures r.Some? ==> exists k :: 0 <= k < |turns| && Unanswered(turns, k, id) && Answer(turns[k], id) == r
      ensures r.None? && DnsQuery.Accepted(host) && sent ==> Unanswered(turns, |turns|, id)
    {
      hide DnsQuery.Accepted;
      hide DnsScan.Scan;
      var query := DnsQuery.BuildQuery(id, host);
      if query.None? || !sent {
        return None;
      }
      ghost var was := slots;
      var h := FirstVacant(slots);
      slots := SetAdd(slots, UdpSock);
      var k := 0;
      r := None;
      while k < |turns| && r.None?
        invariant 0 <= k <= |turns| && slots == SetAdd(was, UdpSock)
        invariant r.None? ==> Unanswered(turns, k, id)
        invariant r.Some? ==> k > 0 && Unanswered(turns, k - 1, id) && Answer(turns[k - 1], id) == r
      {
        assert TypedGetSafe(slots, h, UdpSock);
        if turns[k].Some? {
          ghost var steps, peak;
          r, steps, peak := DnsScan.ParseAResponse(turns[k].value, id);
        }
        k := k + 1;
      }
      slots := slots[h := None];
    }
  }

  class Shim {
    const offset: nat
    const poolMax: nat
    const table: array<Entry>
    const eth: SocketCtx
    const wifi: SocketCtx

    ghost function Cores(): (cs: seq<Core>)
      reads eth, wifi
    {
      [eth.Value(), wifi.Value()]
    }

    ghost function Whole(): World
      reads table, eth, wifi
    {
      World(offset, poolMax, table[..], Cores())
    }

    ghost predicate Valid(unheld: set<nat>)
      reads table, eth, wifi
    {
      eth != wifi && Inv(Whole(), unheld)
    }

    constructor (offset: nat, poolMax: nat, maxFds: nat, blank: Entry)
      requires poolMax >= 1 && blank.kind == FreeFd
      ensures fresh(table) && fresh(eth) && fresh(wifi)
      ensures this.offset == offset && this.poolMax == poolMax && table.Length == maxFds
      ensures Initial(Whole()) && Valid({})
    {
      this.offset, this.poolMax := offset, poolMax;
      table := new Entry[maxFds](_ => blank);
      eth := new SocketCtx();
      wifi := new SocketCtx();
      new;
      InitialInv(Whole());
    }

    // ----- esp_smoltcp_sock.c -----

    method NetOpen(iface: nat, kind: SockKind, bound: bool) returns (p: nat)
      requires eth != wifi && CoresOk(Cores())
      modifies eth, wifi
      ensures SocketCore.Open(old(Cores()), iface, kind, bound) == (Cores(), p)
    {
      assert CoreOk(Cores()[0]) && CoreOk(Cores()[1]);
      if iface >= 2 {
        return 0;
      }
      var ctx := if iface == 0 then eth else wifi;
      if !ctx.up {
        return 0;
      }
      var id := ctx.Open(kind, bound);
      p := if id != 0 then Pack(iface, id) else 0;
      assert Cores() == if bound then old(Cores())[iface := Register(old(Cores())[iface], kind)] else old(Cores());
    }

    method NetClose(p: nat, kind: SockKind)
      requires eth != wifi && LookupSafe(Cores(), p, kind)
      modifies eth, wifi
      ensures Cores() == Shut(old(Cores()), p, kind)
    {
      var iface, id := IfaceOf(p), LocalOf(p);
      if iface < 2 {
        var ctx := if iface == 0 then eth else wifi;
        if ctx.up {
          ctx.Close(id, kind);
          assert Cores() == old(Cores())[iface := Unregister(old(Cores())[iface], id, kind)];
        }
      }
    }

    method NetIsConnected(p: nat, talking: set<nat>) returns (r: bool)
      requires LookupSafe(Cores(), p, TcpSock)
      ensures r == Connected(Cores(), p, talking)
    {
      var iface, id := IfaceOf(p), LocalOf(p);
      if iface >= 2 {
        return false;
      }
      var ctx := if iface == 0 then eth else wifi;
      if !ctx.up {
        return false;
      }
      r := ctx.IsConnected(id, p in talking);
    }

    method NetListen(p: nat, accepted: bool) returns (ok: bool)
      requires LookupSafe(Cores(), p, TcpSock)
      ensures ok == (Found(Cores(), p) && accepted)
    {
      var iface, id := IfaceOf(p), LocalOf(p);
      if iface >= 2 {
        return false;
      }
      var ctx := if iface == 0 then eth else wifi;
      if !ctx.up {
        return false;
      }
      var rc := ctx.Listen(id, accepted);
      ok := rc == 0;
    }

    /** net_tcp_connect: the handshake is polled until it is seen active or time is up. */
    method NetConnect(p: nat, accepted: bool, polls: seq<bool>) returns (ok: bool)
      requires LookupSafe(Cores(), p, TcpSock)
      ensures ok == (Found(Cores(), p) && accepted && true in polls)
    {
      var iface, id := IfaceOf(p), LocalOf(p);
      if iface >= 2 {
        return false;
      }
      var ctx := if iface == 0 then eth else wifi;
      if !ctx.up {
        return false;
      }
      var rc := ctx.Connect(id, accepted);
      if rc != 0 {
        return false;
      }
      for n := 0 to |polls|
        invariant true !in polls[..n]
      {
        var active := ctx.IsActive(id, polls[n]);
        if active {
          return true;
        }
        assert polls[..n + 1] == polls[..n] + [polls[n]];
      }
      assert polls[..|polls|] == polls;
      return false;
    }

    // ----- fd_table.c -----

    method FdAlloc(kind: FdKind, dflt: nat) returns (fd: int)
      modifies table
      ensures var i := FirstFree(old(table[..]));
              if i == table.Length then fd == -1 && table[..] == old(table[..])
              else fd == offset + i && table[..] == old(table[..])[i := Fresh(kind, dflt)]
    {
      var i := 0;
      while i < table.Length
        invariant 0 <= i <= table.Length
        invariant table[..] == old(table[..])
        invariant forall k :: 0 <= k < i ==> table[k].kind != FreeFd
      {
        if table[i].kind == FreeFd {
          FirstFreeIs(table[..], i);
          table[i] := Fresh(kind, dflt);
          return offset + i;
        }
        i := i + 1;
      }
      FirstFreeIs(table[..], table.Length);
      return -1;
    }

    method FdGet(fd: int) returns (i: int)
      ensures i == if InUse(Whole(), fd) then fd - offset else -1
    {
      i := fd - offset;
      if i < 0 || i >= table.Length || table[i].kind == FreeFd {
        i := -1;
      }
    }

    /** Closes every valid pool socket of entry `i`, whose own socket is already closed. */
    method ClosePool(i: nat, ghost w: World, ghost unheld: set<nat>)
      requires eth != wifi && w.table == table[..] && i < table.Length && w.cores == Cores()
      requires Shape(table[i]) && table[i].kind != FreeFd
      requires Inv(w.(table := w.table[i := Closing(table[i], 0)]), unheld)
      modifies eth, wifi
      ensures Cores() == ShutPool(w.cores, table[i].pool, 0)
    {
      hide Inv;
      var e := table[i];
      var k := 0;
      while k < |e.pool|
        invariant 0 <= k <= |e.pool|
        invariant Inv(w.(table := w.table[i := Closing(e, k)], cores := Cores()), unheld)
        invariant ShutPool(Cores(), e.pool, k) == ShutPool(w.cores, e.pool, 0)
      {
        ghost var now := w.(table := w.table[i := Closing(e, k)], cores := Cores());
        ShutPoolOne(now, unheld, i, e, k);
        assert now.table[i := Closing(e, k + 1)] == w.table[i := Closing(e, k + 1)];
        if e.pool[k] != 0 {
          assert At(now, SlotOf(i, k)) == e.pool[k];
          HeldLookup(now, unheld, SlotOf(i, k));
          NetClose(e.pool[k], TcpSock);
        }
        k := k + 1;
      }
    }

    method FdFree(fd: int, ghost unheld: set<nat>)
      requires Valid(unheld)
      modifies table, eth, wifi
      ensures Valid(unheld)
      ensures Whole() == if old(InUse(Whole(), fd)) then DoClose(old(Whole()), fd - offset) else old(Whole())
    {
      hide Inv;
      var i := FdGet(fd);
      if i < 0 {
        return;
      }
      ghost var w := Whole();
      var e := table[i];
      InvShape(w, unheld, i);
      CloseSockKeeps(w, unheld, i);
      CloseKeeps(w, unheld, i);
      if e.sock != 0 {
        HeldLookup(w, unheld, SockOf(i));
        NetClose(e.sock, if e.kind == UdpFd then UdpSock else TcpSock);
      }
      ClosePool(i, w.(cores := Cores()), unheld);
      table[i] := e.(kind := FreeFd);
      assert Whole() == DoClose(w, i);
    }

    // ----- sock_wrap.c -----

    method Socket(domain: int, ty: nat, dflt: nat, ghost unheld: set<nat>) returns (reply: Reply)
      requires Valid(unheld) && UnderSpan(DoSocket(Whole(), domain, ty, dflt).0.cores)
      modifies table, eth, wifi
      ensures Valid(unheld) && (Whole(), reply) == DoSocket(old(Whole()), domain, ty, dflt)
    {
      ghost var w := Whole();
      InvCoresOk(w, unheld);
      hide Inv;
      hide CoresOk;
      hide SocketCore.Open;
      hide SocketCore.Shut;
      SocketKeeps(w, unheld, domain, ty, dflt);
      if domain != AF_INET {
        return Fail(EAFNOSUPPORT);
      }
      if ty % 256 != SOCK_STREAM && ty % 256 != SOCK_DGRAM {
        return Fail(EPROTONOSUPPORT);
      }
      if ty % 256 == SOCK_STREAM {
        var fd := FdAlloc(TcpFd, dflt);
        reply := if fd < 0 then Fail(ENFILE) else Value(fd);
      } else {
        reply := OpenDatagram(dflt);
      }
    }

    /** The datagram half of socket(): the entry is given back if no socket can be opened. */
    method OpenDatagram(dflt: nat) returns (reply: Reply)
      requires eth != wifi && CoresOk(Cores())
      modifies table, eth, wifi
      ensures (Whole(), reply) == DoSocket(old(Whole()), AF_INET, SOCK_DGRAM, dflt)
    {
      hide CoresOk;
      hide SocketCore.Open;
      ghost var t := table[..];
      var fd := FdAlloc(UdpFd, dflt);
      if fd < 0 {
        return Fail(ENFILE);
      }
      var i := fd - offset;
      var p := NetOpen(dflt, UdpSock, true);
      table[i] := if p == 0 then Fresh(FreeFd, dflt) else Fresh(UdpFd, dflt).(sock := p);
      assert table[..] == t[i := table[i]];
      reply := if p == 0 then Fail(ENOBUFS) else Value(fd);
    }

    method BindAt(i: nat, ip: nat, port: nat, loopbackOk: bool, bound: bool, ghost unheld: set<nat>)
      returns (reply: Reply)
      requires i < table.Length && table[i].kind != FreeFd
      requires Valid(unheld) && UnderSpan(DoBind(Whole(), i, ip, port, loopbackOk, bound).0.cores)
      modifies table, eth, wifi
      ensures Valid(unheld) && (Whole(), reply) == DoBind(old(Whole()), i, ip, port, loopbackOk, bound)
    {
      ghost var w := Whole();
      InvCoresOk(w, unheld);
      hide Inv;
      hide CoresOk;
      hide SocketCore.Open;
      hide SocketCore.Shut;
      BindKeeps(w, unheld, i, ip, port, loopbackOk, bound);
      var e := table[i].(localIp := ip, localPort := port);
      if e.kind != UdpFd {
        reply := Value(0);
      } else if IsLoopbackIp(ip) {
        reply := if loopbackOk then Value(0) else Fail(UNSET);
      } else {
        var p := Reopen(i, port == 0 || bound, unheld);
        e := e.(sock := p);
        reply := if p == 0 then Fail(EADDRINUSE) else Value(0);
      }
      table[i] := e;
      assert table[..] == w.table[i := e];
    }

    /** Closes the UDP socket of entry `i`, if any, and opens another. */
    method Reopen(i: nat, bound: bool, ghost unheld: set<nat>) returns (p: nat)
      requires i < table.Length && table[i].kind == UdpFd && Valid(unheld)
      modifies eth, wifi
      ensures SocketCore.Open(ShutIfValid(old(Cores()), table[i].sock, UdpSock), table[i].iface, UdpSock, bound) == (Cores(), p)
    {
      InvCoresOk(Whole(), unheld);
      hide Inv;
      hide CoresOk;
      if table[i].sock != 0 {
        HeldLookup(Whole(), unheld, SockOf(i));
        ShutHeldOk(Whole(), unheld, i);
        NetClose(table[i].sock, UdpSock);
      }
      p := NetOpen(table[i].iface, UdpSock, bound);
    }

    method ShutdownAt(i: nat, ghost unheld: set<nat>) returns (reply: Reply)
      requires i < table.Length && table[i].kind != FreeFd && Valid(unheld)
      modifies table, eth, wifi
      ensures Valid(unheld) && (Whole(), reply) == DoShutdown(old(Whole()), i)
    {
      hide Inv;
      ghost var w := Whole();
      ShutdownKeeps(w, unheld, i);
      if table[i].kind == TcpFd && table[i].sock != 0 {
        HeldLookup(w, unheld, SockOf(i));
        NetClose(table[i].sock, TcpSock);
        table[i] := table[i].(sock := 0, connected := false);
      }
      assert Whole().table == DoShutdown(w, i).0.table;
      return Value(0);
    }

    /** Opens a socket over whatever TCP entry `i` held: `unheld` grows by that. */
    method OpenOver(i: nat, ghost unheld: set<nat>) returns (p: nat)
      requires i < table.Length && table[i].kind == TcpFd
      requires Valid(unheld) && UnderSpan(SocketCore.Open(Cores(), table[i].iface, TcpSock, true).0)
      modifies table, eth, wifi
      ensures SocketCore.Open(old(Cores()), old(table[i].iface), TcpSock, true) == (Cores(), p)
      ensures table[..] == old(table[..])[i := old(table[i]).(sock := p)]
      ensures Valid(if old(table[i].sock) != 0 then unheld + {old(table[i].sock)} else unheld)
    {
      ghost var w := Whole();
      InvCoresOk(w, unheld);
      hide Inv;
      hide CoresOk;
      OpenOverKeeps(w, unheld, i);
      p := NetOpen(table[i].iface, TcpSock, true);
      table[i] := table[i].(sock := p);
      assert table[..] == w.table[i := table[i]];
    }

    /** A TCP entry that holds a socket loses it: `unheld` grows by that socket. */
    method ConnectAt(i: nat, ip: nat, port: nat, accepted: bool, polls: seq<bool>, ghost unheld: set<nat>)
      returns (reply: Reply)
      requires i < table.Length && table[i].kind != FreeFd
      requires Valid(unheld) && UnderSpan(DoConnect(Whole(), i, ip, port, accepted && true in polls).0.cores)
      modifies table, eth, wifi
      ensures (Whole(), reply) == DoConnect(old(Whole()), i, ip, port, accepted && true in polls)
      ensures Valid(if old(table[i].kind == TcpFd && table[i].sock != 0) then unheld + {old(table[i].sock)} else unheld)
    {
      ghost var w := Whole();
      hide Inv;
      hide SocketCore.Open;
      ConnectKeeps(w, unheld, i, ip, port, accepted && true in polls);
      if table[i].kind == TcpFd {
        var p := OpenOver(i, unheld);
        var ok := false;
        if p != 0 {
          HeldLookup(Whole(), if w.table[i].sock != 0 then unheld + {w.table[i].sock} else unheld, SockOf(i));
          ok := NetConnect(p, accepted, polls);
          if ok {
            table[i] := table[i].(connected := true);
          }
        }
        reply := if p == 0 then Fail(ENOBUFS) else if !ok then Fail(ETIMEDOUT) else Value(0);
      } else if table[i].kind == UdpFd {
        table[i] := table[i].(localIp := ip, localPort := port, connected := true);
        reply := Value(0);
      } else {
        reply := Fail(EBADF);
      }
      assert table[..] == w.table[i := table[i]];
    }

    /** Fills pool slot `k` of listener `i`. */
    method ArmSlot(i: nat, k: nat, accepted: bool, ghost e: Entry, ghost unheld: set<nat>) returns (p: nat, ok: bool)
      requires i < table.Length && Valid(unheld) && table[i] == Listening(e, table[i].pool)
      requires k < |table[i].pool| && table[i].pool[k] == 0
      requires UnderSpan(SocketCore.Open(Cores(), table[i].iface, TcpSock, true).0)
      modifies table, eth, wifi
      ensures Valid(unheld)
      ensures SocketCore.Open(old(Cores()), old(table[i].iface), TcpSock, true) == (Cores(), p)
      ensures table[..] == old(table[..])[i := Listening(e, old(table[i].pool)[k := p])]
      ensures p != 0 ==> ok == (Found(Cores(), p) && accepted)
    {
      ghost var w := Whole();
      InvCoresOk(w, unheld);
      hide Inv;
      hide CoresOk;
      p := NetOpen(table[i].iface, TcpSock, true);
      ArmOne(w, unheld, i, e, w.table[i].pool, k, Cores(), p);
      table[i] := table[i].(pool := table[i].pool[k := p]);
      assert Whole() == w.(table := w.table[i := Listening(e, w.table[i].pool[k := p])], cores := Cores());
      ok := false;
      if p != 0 {
        HeldLookup(Whole(), unheld, SlotOf(i, k));
        ok := NetListen(p, accepted);
      }
    }

    /** The pre-arm loop of listen. */
    method ArmPool(i: nat, refused: set<nat>, ghost e: Entry, ghost unheld: set<nat>) returns (reply: Reply)
      requires i < table.Length && Valid(unheld) && table[i] == Listening(e, table[i].pool)
      requires forall j :: 0 <= j < |table[i].pool| ==> table[i].pool[j] == 0
      requires UnderSpan(Arm(Cores(), table[i].pool, table[i].iface, refused, 0).cores)
      modifies table, eth, wifi
      ensures Valid(unheld)
      ensures var a := Arm(old(Cores()), old(table[i].pool), old(table[i].iface), refused, 0);
              && a == Armed(Cores(), table[i].pool, reply)
              && table[..] == old(table[..])[i := Listening(e, a.pool)]
    {
      hide Inv;
      hide SocketCore.Open;
      ghost var t := table[..];
      ghost var a := Arm(Cores(), table[i].pool, table[i].iface, refused, 0);
      var size := |table[i].pool|;
      assert t == t[i := Listening(e, table[i].pool)];
      for k := 0 to size
        invariant Valid(unheld)
        invariant |table[i].pool| == size && table[..] == t[i := Listening(e, table[i].pool)]
        invariant forall j :: k <= j < size ==> table[i].pool[j] == 0
        invariant Arm(Cores(), table[i].pool, e.iface, refused, k) == a
      {
        ArmOneSpan(Cores(), table[i].pool, e.iface, refused, k);
        var p, ok := ArmSlot(i, k, k !in refused, e, unheld);
        if p == 0 {
          return Fail(ENOBUFS);
        }
        if !ok {
          return Fail(EADDRINUSE);
        }
      }
      return Value(0);
    }

    method ListenAt(i: nat, backlog: int, memory: bool, refused: set<nat>, ghost unheld: set<nat>)
      returns (reply: Reply)
      requires i < table.Length && table[i].kind != FreeFd
      requires Valid(unheld) && UnderSpan(DoListen(Whole(), i, backlog, memory, refused).0.cores)
      modifies table, eth, wifi
      ensures Valid(unheld) && (Whole(), reply) == DoListen(old(Whole()), i, backlog, memory, refused)
    {
      hide Inv;
      hide Arm;
      ghost var w := Whole();
      var e := table[i];
      InvShape(w, unheld, i);
      ListenKeeps(w, unheld, i, backlog, memory, refused);
      if e.kind != TcpFd {
        return Fail(EBADF);
      }
      if e.localPort == 0 {
        return Fail(EINVAL);
      }
      var size := if backlog > 0 then backlog else poolMax;
      if size > poolMax {
        size := poolMax;
      }
      if !memory {
        table[i] := e.(pool := []);
        assert Whole().table == DoListen(w, i, backlog, memory, refused).0.table;
        return Fail(ENOMEM);
      }
      var pool := Zeros(size);
      StartListening(w, unheld, i, pool);
      table[i] := e.(pool := pool, poolNext := 0, port := e.localPort, kind := ListenFd);
      assert Whole() == w.(table := w.table[i := Listening(e, pool)]);
      reply := ArmPool(i, refused, e, unheld);
      assert Whole().table == w.table[i := Listening(e, table[i].pool)];
    }

    /** One rotated scan of a listener pool; -1 if no slot is connected. */
    method ScanPool(i: nat, talking: set<nat>, ghost unheld: set<nat>) returns (k: int)
      requires i < table.Length && Valid(unheld) && table[i].kind == ListenFd
      ensures var r := Pick(Cores(), table[i].pool, table[i].poolNext, talking, 0);
              k == if r.Some? then r.value else -1
    {
      hide Inv;
      InvShape(Whole(), unheld, i);
      var e := table[i];
      for n := 0 to |e.pool|
        invariant Pick(Cores(), e.pool, e.poolNext, talking, n) == Pick(Cores(), e.pool, e.poolNext, talking, 0)
      {
        var idx := (e.poolNext + n) % |e.pool|;
        assert At(Whole(), SlotOf(i, idx)) == e.pool[idx];
        HeldLookup(Whole(), unheld, SlotOf(i, idx));
        var connected := NetIsConnected(e.pool[idx], talking);
        if connected {
          return idx;
        }
      }
      return -1;
    }

    /** New descriptor, refilled slot, advanced start; -1 if the table is full. */
    method MoveSlot(i: nat, k: nat, dflt: nat) returns (newfd: int)
      requires i < table.Length && eth != wifi && CoresOk(Cores())
      requires table[i].kind == ListenFd && k < |table[i].pool|
      modifies table, eth, wifi
      ensures (Whole(), if newfd < 0 then Fail(ENFILE) else Value(newfd)) == Transfer(old(Whole()), i, k, dflt)
    {
      hide CoresOk;
      hide SocketCore.Open;
      ghost var t := table[..];
      var e := table[i];
      newfd := FdAlloc(TcpFd, dflt);
      if newfd >= 0 {
        var j := newfd - offset;
        table[j] := Fresh(TcpFd, dflt).(sock := e.pool[k], connected := true, iface := e.iface);
        var p := NetOpen(e.iface, TcpSock, true);
        table[i] := e.(pool := e.pool[k := p], poolNext := (k + 1) % |e.pool|);
        assert table[..] == t[j := table[j]][i := table[i]];
      }
    }

    /** The body of the scan's hit. The answer of the new socket's listen is ignored. */
    method HandOver(i: nat, k: nat, dflt: nat, ghost unheld: set<nat>) returns (reply: Reply)
      requires i < table.Length && Valid(unheld) && table[i].kind == ListenFd && k < |table[i].pool|
      requires table[i].pool[k] != 0 && UnderSpan(Transfer(Whole(), i, k, dflt).0.cores)
      modifies table, eth, wifi
      ensures Valid(unheld) && (Whole(), reply) == Transfer(old(Whole()), i, k, dflt)
    {
      ghost var w := Whole();
      InvCoresOk(w, unheld);
      TransferKeeps(w, unheld, i, k, dflt);
      hide Inv;
      hide CoresOk;
      TransferShape(w, i, k, dflt);
      var newfd := MoveSlot(i, k, dflt);
      hide Transfer;
      if newfd < 0 {
        return Fail(ENFILE);
      }
      if table[i].pool[k] != 0 {
        HeldLookup(Whole(), unheld, SlotOf(i, k));
        var _ := NetListen(table[i].pool[k], true);
      }
      reply := Value(newfd);
    }

    method AcceptAt(i: nat, scans: seq<set<nat>>, dflt: nat, ghost unheld: set<nat>) returns (reply: Reply)
      requires i < table.Length && table[i].kind != FreeFd
      requires Valid(unheld) && UnderSpan(DoAccept(Whole(), i, scans, dflt).0.cores)
      modifies table, eth, wifi
      ensures Valid(unheld) && (Whole(), reply) == DoAccept(old(Whole()), i, scans, dflt)
    {
      hide Inv;
      hide Pick;
      hide Transfer;
      ghost var w := Whole();
      AcceptKeeps(w, unheld, i, scans, dflt);
      if table[i].kind != ListenFd {
        return Fail(EBADF);
      }
      for n := 0 to |scans|
        invariant Whole() == w && (n > 0 ==> !w.table[i].nonblocking)
        invariant FirstPick(w.cores, w.table[i], scans) == FirstPick(w.cores, w.table[i], scans[n..])
      {
        var k := ScanPool(i, scans[n], unheld);
        assert scans[n..][1..] == scans[n + 1..];
        if k >= 0 {
          PickedIsValid(w, unheld, i, scans);
          reply := HandOver(i, k, dflt, unheld);
          return;
        }
        if table[i].nonblocking {
          return Fail(EWOULDBLOCK);
        }
      }
      return Fail(ETIMEDOUT);
    }

    method Bind(fd: int, wellFormed: bool, ip: nat, port: nat, loopbackOk: bool, bound: bool, ghost unheld: set<nat>) returns (reply: Reply)
      requires Valid(unheld) && UnderSpan(Step(Whole(), Call.Bind(fd, wellFormed, ip, port, loopbackOk, bound)).0.cores)
      modifies table, eth, wifi
      ensures Valid(UnheldAfter(old(Whole()), Call.Bind(fd, wellFormed, ip, port, loopbackOk, bound), unheld))
      ensures (Whole(), reply) == Step(old(Whole()), Call.Bind(fd, wellFormed, ip, port, loopbackOk, bound))
    {
      hide Inv;
      hide DoBind;
      var i := FdGet(fd);
      if i < 0 || !wellFormed {
        return Fail(EINVAL);
      }
      reply := BindAt(i, ip, port, loopbackOk, bound, unheld);
    }

    method Listen(fd: int, backlog: int, memory: bool, refused: set<nat>, ghost unheld: set<nat>) returns (reply: Reply)
      requires Valid(unheld) && UnderSpan(Step(Whole(), Call.Listen(fd, backlog, memory, refused)).0.cores)
      modifies table, eth, wifi
      ensures Valid(UnheldAfter(old(Whole()), Call.Listen(fd, backlog, memory, refused), unheld))
      ensures (Whole(), reply) == Step(old(Whole()), Call.Listen(fd, backlog, memory, refused))
    {
      hide Inv;
      hide DoListen;
      var i := FdGet(fd);
      if i < 0 {
        return Fail(EBADF);
      }
      reply := ListenAt(i, backlog, memory, refused, unheld);
    }

    method Accept(fd: int, scans: seq<set<nat>>, dflt: nat, ghost unheld: set<nat>) returns (reply: Reply)
      requires Valid(unheld) && UnderSpan(Step(Whole(), Call.Accept(fd, scans, dflt)).0.cores)
      modifies table, eth, wifi
      ensures Valid(UnheldAfter(old(Whole()), Call.Accept(fd, scans, dflt), unheld))
      ensures (Whole(), reply) == Step(old(Whole()), Call.Accept(fd, scans, dflt))
    {
      hide Inv;
      hide DoAccept;
      var i := FdGet(fd);
      if i < 0 {
        return Fail(EBADF);
      }
      reply := AcceptAt(i, scans, dflt, unheld);
    }

    method Connect(fd: int, wellFormed: bool, ip: nat, port: nat, accepted: bool, polls: seq<bool>,
                   ghost unheld: set<nat>) returns (reply: Reply)
      requires Valid(unheld)
      requires UnderSpan(Step(Whole(), Call.Connect(fd, wellFormed, ip, port, accepted && true in polls)).0.cores)
      modifies table, eth, wifi
      ensures Valid(UnheldAfter(old(Whole()), Call.Connect(fd, wellFormed, ip, port, accepted && true in polls), unheld))
      ensures (Whole(), reply) == Step(old(Whole()), Call.Connect(fd, wellFormed, ip, port, accepted && true in polls))
    {
      hide Inv;
      hide DoConnect;
      var i := FdGet(fd);
      if i < 0 || !wellFormed {
        return Fail(EINVAL);
      }
      reply := ConnectAt(i, ip, port, accepted, polls, unheld);
    }

    method Shutdown(fd: int, ghost unheld: set<nat>) returns (reply: Reply)
      requires Valid(unheld) && UnderSpan(Step(Whole(), Call.Shutdown(fd)).0.cores)
      modifies table, eth, wifi
      ensures Valid(UnheldAfter(old(Whole()), Call.Shutdown(fd), unheld))
      ensures (Whole(), reply) == Step(old(Whole()), Call.Shutdown(fd))
    {
      hide Inv;
      hide DoShutdown;
      var i := FdGet(fd);
      if i < 0 {
        return Fail(EBADF);
      }
      reply := ShutdownAt(i, unheld);
    }

    method Close(fd: int, ghost unheld: set<nat>) returns (reply: Reply)
      requires Valid(unheld)
      modifies table, eth, wifi
      ensures Valid(unheld) && (Whole(), reply) == Step(old(Whole()), Call.Close(fd))
    {
      hide Inv;
      var i := FdGet(fd);
      if i < 0 {
        return Delegated;
      }
      FdFree(fd, unheld);
      return Value(0);
    }
  }

  lemma FirstFreeIs(table: seq<Entry>, i: nat)
    requires i <= |table| && (i < |table| ==> table[i].kind == FreeFd)
    requires forall k :: 0 <= k < i ==> table[k].kind != FreeFd
    ensures FirstFree(table) == i
  {
  }

  lemma OpenOverKeeps(w: World, unheld: set<nat>, i: nat)
    requires Inv(w, unheld) && i < |w.table| && w.table[i].kind == TcpFd
    requires UnderSpan(SocketCore.Open(w.cores, w.table[i].iface, TcpSock, true).0)
    ensures var (cores, p) := SocketCore.Open(w.cores, w.table[i].iface, TcpSock, true);
            Inv(w.(table := w.table[i := w.table[i].(sock := p)], cores := cores),
                if w.table[i].sock != 0 then unheld + {w.table[i].sock} else unheld)
  {
    hide Inv;
    ConnectKeeps(w, unheld, i, 0, 0, false);
  }

  lemma StartListening(w: World, unheld: set<nat>, i: nat, pool: seq<nat>)
    requires Inv(w, unheld) && i < |w.table| && w.table[i].kind == TcpFd && pool != []
    requires forall k :: 0 <= k < |pool| ==> pool[k] == 0
    ensures Inv(w.(table := w.table[i := Listening(w.table[i], pool)]), unheld)
  {
    InvShape(w, unheld, i);
    hide Inv;
    ZerosHoldNothing(w.table[i], pool);
    Retag(w, unheld, i, Listening(w.table[i], pool));
  }

  lemma TransferShape(w: World, i: nat, k: nat, dflt: nat)
    requires i < |w.table| && w.table[i].kind == ListenFd && k < |w.table[i].pool|
    ensures var v := Transfer(w, i, k, dflt).0;
            |v.table| == |w.table| && v.table[i].kind == ListenFd && |v.table[i].pool| == |w.table[i].pool|
  {
  }

  lemma InvCoresOk(w: World, unheld: set<nat>)
    requires Inv(w, unheld)
    ensures CoresOk(w.cores)
  {
  }

  lemma ShutHeldOk(w: World, unheld: set<nat>, i: nat)
    requires Inv(w, unheld) && i < |w.table| && w.table[i].kind != FreeFd && w.table[i].sock != 0
    ensures CoresOk(Shut(w.cores, w.table[i].sock, SockKindOf(w.table[i].kind)))
  {
    HeldIsLive(w, unheld, SockOf(i));
    ShutOk(w.cores, w.table[i].sock, SockKindOf(w.table[i].kind));
  }

  lemma HeldLookup(w: World, unheld: set<nat>, a: Place)
    requires Inv(w, unheld) && IsPlace(w, a)
    ensures LookupSafe(w.cores, At(w, a), SockKindOf(w.table[a.i].kind))
  {
    if At(w, a) == 0 {
      ZeroFindsNothing(w.cores, SockKindOf(w.table[a.i].kind));
    } else {
      HeldIsLive(w, unheld, a);
    }
  }
}
