/** Every call keeps the ownership equation, so every run does. */
module OwnershipRuns {
  import opened Basics
  import opened SocketCore
  import opened SocketCalls
  import opened Ownership

  // ----- ids only grow -----

  predicate Later(before: seq<Core>, after: seq<Core>) {
    |before| == |after| && forall i :: 0 <= i < |before| ==> before[i].issued <= after[i].issued
  }

  lemma LaterTrans(a: seq<Core>, b: seq<Core>, c: seq<Core>)
    requires Later(a, b) && Later(b, c)
    ensures Later(a, c)
  {
  }

  lemma LaterSelf(a: seq<Core>)
    ensures Later(a, a)
  {
  }

  lemma {:induction false} ArmLater(cores: seq<Core>, pool: seq<nat>, iface: nat, refused: set<nat>, k: nat)
    requires k <= |pool|
    ensures Later(cores, Arm(cores, pool, iface, refused, k).cores)
    decreases |pool| - k
  {
    if k < |pool| {
      var (cs, p) := Open(cores, iface, TcpSock, true);
      if p != 0 && k !in refused && Found(cs, p) {
        ArmLater(cs, pool[k := p], iface, refused, k + 1);
      }
    }
  }

  lemma ArmOneSpan(cores: seq<Core>, pool: seq<nat>, iface: nat, refused: set<nat>, k: nat)
    requires k < |pool| && UnderSpan(Arm(cores, pool, iface, refused, k).cores)
    ensures UnderSpan(Open(cores, iface, TcpSock, true).0)
  {
    hide Open;
    hide Found;
    var (cs, p) := Open(cores, iface, TcpSock, true);
    if p != 0 && k !in refused && Found(cs, p) {
      ArmLater(cs, pool[k := p], iface, refused, k + 1);
    }
  }

  lemma {:induction false} ShutPoolLater(cores: seq<Core>, pool: seq<nat>, k: nat)
    requires k <= |pool|
    ensures Later(cores, ShutPool(cores, pool, k))
    decreases |pool| - k
  {
    if k < |pool| {
      ShutPoolLater(ShutIfValid(cores, pool[k], TcpSock), pool, k + 1);
    }
  }

  // ----- the two moves on a whole world -----

  /** Closing a socket and taking it out of entry `i`. */
  lemma Release(w: World, unheld: set<nat>, i: nat, e: Entry, p: nat)
    requires Inv(w, unheld) && i < |w.table| && p != 0
    requires HoldsMore(w.table[i], e, p) && Fits(e, w.table[i])
    ensures Inv(w.(table := w.table[i := e], cores := Shut(w.cores, p, SockKindOf(w.table[i].kind))), unheld)
  {
    OwnsLose(w.table, Kinds(w.cores), unheld, i, e, p);
    ShutOk(w.cores, p, SockKindOf(w.table[i].kind));
  }

  /** Opening a socket and putting it into entry `i`; after a failure the entry holds what it held. */
  lemma Acquire(w: World, unheld: set<nat>, i: nat, e: Entry, iface: nat, bound: bool, cores: seq<Core>, p: nat)
    requires Inv(w, unheld) && i < |w.table|
    requires Open(w.cores, iface, SockKindOf(e.kind), bound) == (cores, p) && UnderSpan(cores)
    requires HoldsMore(e, w.table[i], p) && Fits(e, w.table[i])
    ensures Inv(w.(table := w.table[i := e], cores := cores), unheld)
  {
    OpenOk(w.cores, iface, SockKindOf(e.kind), bound);
    if p == 0 {
      OwnsKeep(w.table, Kinds(w.cores), unheld, i, e);
    } else {
      OwnsGain(w.table, Kinds(w.cores), unheld, i, e, p);
    }
  }

  lemma Retag(w: World, unheld: set<nat>, i: nat, e: Entry)
    requires Inv(w, unheld) && i < |w.table|
    requires HoldsMore(e, w.table[i], 0) && Fits(e, w.table[i])
    ensures Inv(w.(table := w.table[i := e]), unheld)
  {
    OwnsKeep(w.table, Kinds(w.cores), unheld, i, e);
  }

  /** Entry `i` lets go of `p`, which stays open. */
  lemma Forget(w: World, unheld: set<nat>, i: nat, e: Entry, p: nat)
    requires Inv(w, unheld) && i < |w.table| && p != 0
    requires HoldsMore(w.table[i], e, p) && Fits(e, w.table[i])
    ensures Inv(w.(table := w.table[i := e]), unheld + {p})
  {
    OwnsForget(w.table, Kinds(w.cores), unheld, i, e, p);
  }

  lemma InvShape(w: World, unheld: set<nat>, i: nat)
    requires Inv(w, unheld) && i < |w.table|
    ensures Shape(w.table[i]) && 1 <= w.poolMax
  {
    assert EntryOk(w.table[i], Kinds(w.cores));
  }

  // ----- call by call -----

  lemma SocketKeeps(w: World, unheld: set<nat>, domain: int, ty: nat, dflt: nat)
    requires Inv(w, unheld) && UnderSpan(DoSocket(w, domain, ty, dflt).0.cores)
    ensures Inv(DoSocket(w, domain, ty, dflt).0, unheld)
  {
    var i := FirstFree(w.table);
    if domain == AF_INET && i < |w.table| {
      if ty % 256 == SOCK_STREAM {
        Retag(w, unheld, i, Fresh(TcpFd, dflt));
      } else if ty % 256 == SOCK_DGRAM {
        var (cores, p) := Open(w.cores, dflt, UdpSock, true);
        if p == 0 {
          OpenOk(w.cores, dflt, UdpSock, true);
          Retag(w, unheld, i, Fresh(FreeFd, dflt));
        } else {
          Acquire(w, unheld, i, Fresh(UdpFd, dflt).(sock := p), dflt, true, cores, p);
        }
      }
    }
  }

  lemma BindKeeps(w: World, unheld: set<nat>, i: nat, ip: nat, port: nat, loopbackOk: bool, bound: bool)
    requires Inv(w, unheld) && i < |w.table| && w.table[i].kind != FreeFd
    requires UnderSpan(DoBind(w, i, ip, port, loopbackOk, bound).0.cores)
    ensures Inv(DoBind(w, i, ip, port, loopbackOk, bound).0, unheld)
  {
    var e := w.table[i].(localIp := ip, localPort := port);
    InvShape(w, unheld, i);
    hide Inv;
    if e.kind != UdpFd || IsLoopbackIp(ip) {
      Retag(w, unheld, i, e);
    } else {
      var none := e.(sock := 0);
      var v := w.(table := w.table[i := none], cores := ShutIfValid(w.cores, e.sock, UdpSock));
      if e.sock != 0 {
        Release(w, unheld, i, none, e.sock);
      } else {
        Retag(w, unheld, i, none);
      }
      var (cores, p) := Open(v.cores, e.iface, UdpSock, port == 0 || bound);
      Acquire(v, unheld, i, e.(sock := p), e.iface, port == 0 || bound, cores, p);
      assert v.table[i := e.(sock := p)] == w.table[i := e.(sock := p)];
    }
  }

  lemma ShutdownKeeps(w: World, unheld: set<nat>, i: nat)
    requires Inv(w, unheld) && i < |w.table|
    ensures Inv(DoShutdown(w, i).0, unheld)
  {
    var e := w.table[i];
    InvShape(w, unheld, i);
    hide Inv;
    if e.kind == TcpFd && e.sock != 0 {
      Release(w, unheld, i, e.(sock := 0, connected := false), e.sock);
    }
  }

  /** A TCP entry lets go of what it holds. */
  lemma LetGo(w: World, unheld: set<nat>, i: nat)
    requires Inv(w, unheld) && i < |w.table| && w.table[i].kind == TcpFd
    ensures var e := w.table[i];
            Inv(w.(table := w.table[i := e.(sock := 0)]), if e.sock != 0 then unheld + {e.sock} else unheld)
  {
    var e := w.table[i];
    InvShape(w, unheld, i);
    hide Inv;
    if e.sock != 0 {
      Forget(w, unheld, i, e.(sock := 0), e.sock);
    } else {
      Retag(w, unheld, i, e.(sock := 0));
    }
  }

  /** connect opens a new socket over whatever the entry held. */
  lemma ConnectKeeps(w: World, unheld: set<nat>, i: nat, ip: nat, port: nat, reached: bool)
    requires Inv(w, unheld) && i < |w.table|
    requires UnderSpan(DoConnect(w, i, ip, port, reached).0.cores)
    ensures Inv(DoConnect(w, i, ip, port, reached).0,
                if w.table[i].kind == TcpFd && w.table[i].sock != 0 then unheld + {w.table[i].sock} else unheld)
  {
    var e := w.table[i];
    InvShape(w, unheld, i);
    hide Inv;
    hide Found;
    hide Open;
    if e.kind == TcpFd {
      var v := w.(table := w.table[i := e.(sock := 0)]);
      var rest := if e.sock != 0 then unheld + {e.sock} else unheld;
      LetGo(w, unheld, i);
      var (cores, p) := Open(v.cores, e.iface, TcpSock, true);
      var after := e.(sock := p, connected := e.connected || (p != 0 && Found(cores, p) && reached));
      Acquire(v, rest, i, after, e.iface, true, cores, p);
      assert v.table[i := after] == w.table[i := after];
    } else if e.kind == UdpFd {
      Retag(w, unheld, i, e.(localIp := ip, localPort := port, connected := true));
    }
  }

  // ----- listen -----

  /** Entry `e` as the listener it becomes, with this pool. */
  function Listening(e: Entry, pool: seq<nat>): Entry {
    e.(kind := ListenFd, pool := pool, poolNext := 0, port := e.localPort)
  }

  lemma ListeningMore(e: Entry, pool: seq<nat>, k: nat, p: nat)
    requires k < |pool| && pool[k] == 0
    ensures HoldsMore(Listening(e, pool[k := p]), Listening(e, pool), p)
  {
    forall q: nat | q != 0
      ensures multiset(pool[k := p])[q] == multiset(pool)[q] + Tick(q == p)
    {
    }
  }

  lemma ArmOne(w: World, unheld: set<nat>, i: nat, e: Entry, pool: seq<nat>, k: nat, cores: seq<Core>, p: nat)
    requires k < |pool| && i < |w.table| && w.table[i] == Listening(e, pool) && pool[k] == 0
    requires Inv(w, unheld) && Open(w.cores, e.iface, TcpSock, true) == (cores, p) && UnderSpan(cores)
    ensures Inv(w.(table := w.table[i := Listening(e, pool[k := p])], cores := cores), unheld)
  {
    ListeningMore(e, pool, k, p);
    Acquire(w, unheld, i, Listening(e, pool[k := p]), e.iface, true, cores, p);
  }

  lemma {:induction false} ArmKeeps(w: World, unheld: set<nat>, i: nat, e: Entry, pool: seq<nat>,
                                    refused: set<nat>, k: nat)
    requires k <= |pool| && i < |w.table| && w.table[i] == Listening(e, pool)
    requires Inv(w, unheld) && forall j :: k <= j < |pool| ==> pool[j] == 0
    requires UnderSpan(Arm(w.cores, pool, e.iface, refused, k).cores)
    ensures var a := Arm(w.cores, pool, e.iface, refused, k);
            Inv(w.(table := w.table[i := Listening(e, a.pool)], cores := a.cores), unheld)
    decreases |pool| - k
  {
    hide Inv;
    hide UnderSpan;
    hide Open;
    hide Found;
    if k == |pool| {
      assert w.table[i := Listening(e, pool)] == w.table;
    } else {
      var (cs, p) := Open(w.cores, e.iface, TcpSock, true);
      ArmOneSpan(w.cores, pool, e.iface, refused, k);
      if p == 0 || k in refused || !Found(cs, p) {
        ArmOne(w, unheld, i, e, pool, k, cs, p);
      } else {
        ArmOne(w, unheld, i, e, pool, k, cs, p);
        var v := w.(table := w.table[i := Listening(e, pool[k := p])], cores := cs);
        ArmKeeps(v, unheld, i, e, pool[k := p], refused, k + 1);
        var a := Arm(cs, pool[k := p], e.iface, refused, k + 1);
        assert v.table[i := Listening(e, a.pool)] == w.table[i := Listening(e, a.pool)];
      }
    }
  }

  lemma ListenKeeps(w: World, unheld: set<nat>, i: nat, backlog: int, memory: bool, refused: set<nat>)
    requires Inv(w, unheld) && i < |w.table|
    requires UnderSpan(DoListen(w, i, backlog, memory, refused).0.cores)
    ensures Inv(DoListen(w, i, backlog, memory, refused).0, unheld)
  {
    var e := w.table[i];
    InvShape(w, unheld, i);
    hide Inv;
    if e.kind == TcpFd && e.localPort != 0 {
      if !memory {
        Retag(w, unheld, i, e.(pool := []));
      } else {
        var pool := Zeros(PoolSize(w.poolMax, backlog));
        var l := Listening(e, pool);
        var v := w.(table := w.table[i := l]);
        ZerosHoldNothing(e, pool);
        Retag(w, unheld, i, l);
        ArmKeeps(v, unheld, i, e, pool, refused, 0);
        var a := Arm(w.cores, pool, e.iface, refused, 0);
        assert v.table[i := Listening(e, a.pool)] == w.table[i := Listening(e, a.pool)];
      }
    }
  }

  lemma ZerosHoldNothing(e: Entry, pool: seq<nat>)
    requires e.kind == TcpFd && e.pool == [] && forall k :: 0 <= k < |pool| ==> pool[k] == 0
    ensures HoldsMore(Listening(e, pool), e, 0)
  {
    forall q: nat | q != 0
      ensures multiset(pool)[q] == 0
    {
      assert q !in pool;
    }
  }

  // ----- accept -----

  /** The hand-over moves one handle from the pool to a free entry, then refills the slot. */
  lemma TransferKeeps(w: World, unheld: set<nat>, i: nat, k: nat, dflt: nat)
    requires Inv(w, unheld) && i < |w.table| && w.table[i].kind == ListenFd && k < |w.table[i].pool|
    requires w.table[i].pool[k] != 0
    requires UnderSpan(Transfer(w, i, k, dflt).0.cores)
    ensures Inv(Transfer(w, i, k, dflt).0, unheld)
  {
    var e := w.table[i];
    var j := FirstFree(w.table);
    var cand := e.pool[k];
    if j < |w.table| {
      var taken := Fresh(TcpFd, dflt).(sock := cand, connected := true, iface := e.iface);
      var gap := e.(pool := e.pool[k := 0], poolNext := (k + 1) % |e.pool|);
      var (cores, p) := Open(w.cores, e.iface, TcpSock, true);
      var left := e.(pool := e.pool[k := p], poolNext := (k + 1) % |e.pool|);
      MoveKeeps(w.table, Kinds(w.cores), unheld, i, j, gap, taken, cand);
      var v := w.(table := w.table[j := taken][i := gap]);
      assert HoldsMore(left, gap, p);
      Acquire(v, unheld, i, left, e.iface, true, cores, p);
      assert v.table[i := left] == w.table[j := taken][i := left];
    }
  }

  lemma MoveKeeps(table: seq<Entry>, kinds: map<nat, SockKind>, unheld: set<nat>, i: nat, j: nat,
                  gap: Entry, taken: Entry, p: nat)
    requires Owns(table, kinds, unheld) && i < |table| && j < |table|
    requires table[i].kind == ListenFd == gap.kind && table[j].kind == FreeFd
    requires taken.kind == TcpFd && taken.sock == p != 0 && taken.pool == []
    requires HoldsMore(table[i], gap, p) && gap.poolNext < |gap.pool|
    ensures Owns(table[j := taken][i := gap], kinds, unheld)
  {
    assert EntryOk(table[i], kinds) && Accounted(table, kinds, unheld, p);
    CountUpdate(table, i, table[i], p);
    var t := table[j := taken][i := gap];
    forall q: nat
      ensures Accounted(t, kinds, unheld, q)
    {
      assert Accounted(table, kinds, unheld, q);
      CountUpdate(table, j, taken, q);
      CountUpdate(table[j := taken], i, gap, q);
    }
  }

  lemma {:induction false} FirstPickConnected(cores: seq<Core>, e: Entry, scans: seq<set<nat>>)
    ensures var r := FirstPick(cores, e, scans);
            r.Some? ==> exists s :: s in scans && Connected(cores, e.pool[r.value], s)
  {
    if scans != [] {
      assert scans[0] in scans;
      var r := Pick(cores, e.pool, e.poolNext, scans[0], 0);
      if r.None? && !e.nonblocking {
        FirstPickConnected(cores, e, scans[1..]);
      }
    }
  }

  lemma AcceptKeeps(w: World, unheld: set<nat>, i: nat, scans: seq<set<nat>>, dflt: nat)
    requires Inv(w, unheld) && i < |w.table|
    requires UnderSpan(DoAccept(w, i, scans, dflt).0.cores)
    ensures Inv(DoAccept(w, i, scans, dflt).0, unheld)
  {
    var e := w.table[i];
    var r := FirstPick(w.cores, e, scans);
    if e.kind == ListenFd && r.Some? {
      FirstPickConnected(w.cores, e, scans);
      assert e.pool[r.value] != 0 by {
        assert |w.cores| > 0 ==> CoreOk(w.cores[0]);
        assert |w.cores| > 0 && 0 in w.cores[0].handles ==> HandleOk(w.cores[0], 0);
      }
      TransferKeeps(w, unheld, i, r.value, dflt);
    }
  }

  // ----- close -----

  function Emptied(pool: seq<nat>, k: nat): seq<nat>
    requires k <= |pool|
  {
    Zeros(k) + pool[k..]
  }

  /** The entry as far as closing has got: `sock` and the first `k` pool slots are gone. */
  function Closing(e: Entry, k: nat): Entry
    requires k <= |e.pool|
  {
    e.(sock := 0, pool := Emptied(e.pool, k))
  }

  lemma ClosingMore(e: Entry, k: nat)
    requires k < |e.pool| && e.kind != FreeFd
    ensures |Closing(e, k + 1).pool| == |Closing(e, k).pool| == |e.pool|
    ensures HoldsMore(Closing(e, k), Closing(e, k + 1), e.pool[k])
  {
    var a: seq<nat> := Emptied(e.pool, k);
    var b: seq<nat> := Emptied(e.pool, k + 1);
    assert b == a[k := 0];
    forall q: nat | q != 0
      ensures multiset(a)[q] == multiset(b)[q] + Tick(q == e.pool[k])
    {
    }
  }

  lemma ShutPoolOne(w: World, unheld: set<nat>, i: nat, e: Entry, k: nat)
    requires i < |w.table| && k < |e.pool| && w.table[i] == Closing(e, k)
    requires Inv(w, unheld) && Shape(e) && e.kind != FreeFd
    ensures Inv(w.(table := w.table[i := Closing(e, k + 1)], cores := ShutIfValid(w.cores, e.pool[k], TcpSock)), unheld)
  {
    hide Inv;
    ClosingMore(e, k);
    hide Emptied;
    if e.pool[k] != 0 {
      Release(w, unheld, i, Closing(e, k + 1), e.pool[k]);
    } else {
      Retag(w, unheld, i, Closing(e, k + 1));
    }
  }

  lemma {:induction false} ShutPoolKeeps(w: World, unheld: set<nat>, i: nat, e: Entry, k: nat)
    requires i < |w.table| && k <= |e.pool| && w.table[i] == Closing(e, k)
    requires Inv(w, unheld) && Shape(e) && e.kind != FreeFd
    ensures Inv(w.(table := w.table[i := Closing(e, |e.pool|)], cores := ShutPool(w.cores, e.pool, k)), unheld)
    decreases |e.pool| - k
  {
    hide Inv;
    if k == |e.pool| {
      assert w.table[i := w.table[i]] == w.table;
    } else {
      ShutPoolOne(w, unheld, i, e, k);
      var v := w.(table := w.table[i := Closing(e, k + 1)], cores := ShutIfValid(w.cores, e.pool[k], TcpSock));
      ShutPoolKeeps(v, unheld, i, e, k + 1);
      assert v.table[i := Closing(e, |e.pool|)] == w.table[i := Closing(e, |e.pool|)];
    }
  }

  lemma CloseKeeps(w: World, unheld: set<nat>, i: nat)
    requires Inv(w, unheld) && i < |w.table| && w.table[i].kind != FreeFd
    ensures Inv(DoClose(w, i), unheld)
  {
    var e := w.table[i];
    InvShape(w, unheld, i);
    hide Inv;
    var cores := ShutIfValid(w.cores, e.sock, SockKindOf(e.kind));
    CloseSockKeeps(w, unheld, i);
    var v := w.(table := w.table[i := Closing(e, 0)], cores := cores);
    ShutPoolKeeps(v, unheld, i, e, 0);
    hide ShutPool;
    var u := v.(table := v.table[i := Closing(e, |e.pool|)], cores := ShutPool(cores, e.pool, 0));
    ClosedHoldsNothing(e);
    Retag(u, unheld, i, e.(kind := FreeFd));
    assert u.table[i := e.(kind := FreeFd)] == w.table[i := e.(kind := FreeFd)];
  }

  lemma CloseSockKeeps(w: World, unheld: set<nat>, i: nat)
    requires Inv(w, unheld) && i < |w.table| && w.table[i].kind != FreeFd
    ensures var e := w.table[i];
            Inv(w.(table := w.table[i := Closing(e, 0)],
                   cores := ShutIfValid(w.cores, e.sock, SockKindOf(e.kind))), unheld)
  {
    var e := w.table[i];
    InvShape(w, unheld, i);
    hide Inv;
    assert Closing(e, 0).pool == e.pool;
    if e.sock != 0 {
      Release(w, unheld, i, Closing(e, 0), e.sock);
    } else {
      Retag(w, unheld, i, Closing(e, 0));
    }
  }

  lemma ClosedHoldsNothing(e: Entry)
    ensures HoldsMore(e.(kind := FreeFd), Closing(e, |e.pool|), 0)
  {
    var pool: seq<nat> := Emptied(e.pool, |e.pool|);
    forall q: nat | q != 0
      ensures multiset(pool)[q] == 0
    {
      assert q !in pool;
    }
  }

  // ----- any call -----

  /** The one call that lets go of a live socket: connect on a TCP entry that holds one. */
  predicate Overwrites(w: World, c: Call) {
    c.Connect? && InUse(w, c.fd) && c.wellFormed
    && w.table[c.fd - w.offset].kind == TcpFd && w.table[c.fd - w.offset].sock != 0
  }

  /** The live sockets that the table does not hold, after the call. */
  ghost function UnheldAfter(w: World, c: Call, unheld: set<nat>): set<nat> {
    if Overwrites(w, c) then unheld + {w.table[c.fd - w.offset].sock}
    else if c.NativeOpen? then
      var p := Open(w.cores, c.iface, c.kind, c.bound).1;
      if p == 0 then unheld else unheld + {p}
    else if c.NativeClose? then unheld - {c.sock}
    else unheld
  }

  /** Direct users of the native API open TCP or UDP sockets and close only what the shim does not hold. */
  ghost predicate Polite(w: World, c: Call, unheld: set<nat>) {
    && (c.NativeOpen? ==> c.kind != DhcpSock)
    && (c.NativeClose? ==> c.sock in unheld && IsLive(w.cores, c.sock) && KindAt(w.cores, c.sock) == c.kind)
  }

  lemma NativeOpenKeeps(w: World, unheld: set<nat>, iface: nat, kind: SockKind, bound: bool,
                        cores: seq<Core>, p: nat)
    requires Inv(w, unheld) && kind != DhcpSock
    requires Open(w.cores, iface, kind, bound) == (cores, p) && UnderSpan(cores)
    ensures Inv(w.(cores := cores), if p == 0 then unheld else unheld + {p})
  {
    OpenOk(w.cores, iface, kind, bound);
    if p != 0 {
      var kinds := Kinds(w.cores);
      var after, rest := kinds[p := kind], unheld + {p};
      forall q: nat
        ensures Accounted(w.table, after, rest, q)
      {
        assert Accounted(w.table, kinds, unheld, q);
      }
      forall i | 0 <= i < |w.table|
        ensures EntryOk(w.table[i], kinds[p := kind])
      {
        assert EntryOk(w.table[i], kinds) && Accounted(w.table, kinds, unheld, p);
        CountUpdate(w.table, i, w.table[i], p);
      }
    }
  }

  lemma NativeCloseKeeps(w: World, unheld: set<nat>, p: nat, kind: SockKind)
    requires Inv(w, unheld) && p in unheld && IsLive(w.cores, p) && KindAt(w.cores, p) == kind
    ensures Inv(w.(cores := Shut(w.cores, p, kind)), unheld - {p})
  {
    var kinds := Kinds(w.cores);
    assert p in kinds;
    ShutOk(w.cores, p, kind);
    forall q: nat
      ensures Accounted(w.table, kinds - {p}, unheld - {p}, q)
    {
      assert Accounted(w.table, kinds, unheld, q);
    }
    forall i | 0 <= i < |w.table|
      ensures EntryOk(w.table[i], kinds - {p})
    {
      assert EntryOk(w.table[i], kinds);
    }
  }

  lemma ServiceKeeps(w: World, unheld: set<nat>, i: nat, service: Service)
    requires Inv(w, unheld) && i < |w.cores|
    ensures Inv(w.(cores := w.cores[i := Serviced(w.cores[i], service)]), unheld)
  {
    ServicedOk(w.cores[i], service);
    SwapOk(w.cores, i, Serviced(w.cores[i], service));
  }

  lemma ServicedOk(c: Core, service: Service)
    requires CoreOk(c)
    ensures CoreOk(Serviced(c, service)) && Sockets(Serviced(c, service)) == Sockets(c)
  {
    if !c.up {
      BornOk(c, service);
    } else if service.Resolve? {
      ResolveOk(c);
    } else {
      DhcpOk(c);
    }
  }

  lemma BornOk(c: Core, service: Service)
    requires c == DOWN
    ensures CoreOk(Serviced(c, service)) && Sockets(Serviced(c, service)) == Sockets(c)
  {
    var born := DOWN.(up := true);
    assert CoreOk(born) && Sockets(born) == map[] && Sockets(DOWN) == map[];
    if service.Attach? && service.withDhcp {
      DhcpOk(born);
    }
  }

  lemma EntryCallKeeps(w: World, c: Call, unheld: set<nat>)
    requires Inv(w, unheld) && UnderSpan(Step(w, c).0.cores)
    requires c.Bind? || c.Listen? || c.Accept? || c.Shutdown? || c.Close?
    ensures Inv(Step(w, c).0, unheld)
  {
    hide Inv;
    if InUse(w, c.fd) {
      var i := c.fd - w.offset;
      match c
      case Bind(_, wellFormed, ip, port, loopbackOk, bound) =>
        if wellFormed { BindKeeps(w, unheld, i, ip, port, loopbackOk, bound); }
      case Listen(_, backlog, memory, refused) => ListenKeeps(w, unheld, i, backlog, memory, refused);
      case Accept(_, scans, dflt) => AcceptKeeps(w, unheld, i, scans, dflt);
      case Shutdown(_) => ShutdownKeeps(w, unheld, i);
      case Close(_) => CloseKeeps(w, unheld, i);
    }
  }

  lemma StepKeeps(w: World, c: Call, unheld: set<nat>)
    requires Inv(w, unheld) && Polite(w, c, unheld) && UnderSpan(Step(w, c).0.cores)
    ensures Inv(Step(w, c).0, UnheldAfter(w, c, unheld))
  {
    hide Inv;
    match c
    case Socket(domain, ty, dflt) => SocketKeeps(w, unheld, domain, ty, dflt);
    case Connect(fd, wellFormed, ip, port, reached) =>
      if InUse(w, fd) && wellFormed { ConnectKeeps(w, unheld, fd - w.offset, ip, port, reached); }
    case Serve(i, service) =>
      if i < |w.cores| { ServiceKeeps(w, unheld, i, service); }
    case NativeOpen(iface, kind, bound) =>
      var (cores, p) := Open(w.cores, iface, kind, bound);
      NativeOpenKeeps(w, unheld, iface, kind, bound, cores, p);
    case NativeClose(p, kind) => NativeCloseKeeps(w, unheld, p, kind);
    case _ => EntryCallKeeps(w, c, unheld);
  }

  lemma ShutLater(cores: seq<Core>, p: nat, kind: SockKind)
    ensures Later(cores, ShutIfValid(cores, p, kind))
  {
  }

  lemma OpenLater(cores: seq<Core>, iface: nat, kind: SockKind, bound: bool)
    ensures Later(cores, Open(cores, iface, kind, bound).0)
  {
  }

  lemma ServeLater(cores: seq<Core>, i: nat, service: Service)
    requires i < |cores|
    ensures Later(cores, cores[i := Serviced(cores[i], service)])
  {
  }

  lemma NativeCloseLater(cores: seq<Core>, p: nat, kind: SockKind)
    ensures Later(cores, Shut(cores, p, kind))
  {
  }

  lemma StepLater(w: World, c: Call)
    ensures Later(w.cores, Step(w, c).0.cores)
  {
    hide Later;
    hide Open;
    hide Shut;
    hide Serviced;
    LaterSelf(w.cores);
    match c
    case Socket(_, _, dflt) => OpenLater(w.cores, dflt, UdpSock, true);
    case Serve(i, service) => if i < |w.cores| { ServeLater(w.cores, i, service); }
    case NativeOpen(iface, kind, bound) => OpenLater(w.cores, iface, kind, bound);
    case NativeClose(p, kind) => NativeCloseLater(w.cores, p, kind);
    case _ =>
      if InUse(w, c.fd) {
        EntryCallLater(w, c, c.fd - w.offset);
      }
  }

  lemma EntryCallLater(w: World, c: Call, i: nat)
    requires i < |w.table|
    ensures c.Bind? ==> Later(w.cores, DoBind(w, i, c.ip, c.port, c.loopbackOk, c.bound).0.cores)
    ensures c.Listen? ==> Later(w.cores, DoListen(w, i, c.backlog, c.memory, c.refused).0.cores)
    ensures c.Accept? ==> Later(w.cores, DoAccept(w, i, c.scans, c.dflt).0.cores)
    ensures c.Connect? ==> Later(w.cores, DoConnect(w, i, c.ip, c.port, c.reached).0.cores)
    ensures c.Shutdown? ==> Later(w.cores, DoShutdown(w, i).0.cores)
    ensures c.Close? ==> Later(w.cores, DoClose(w, i).cores)
  {
    hide Later;
    LaterSelf(w.cores);
    var e := w.table[i];
    match c
    case Bind(_, _, _, port, _, bound) =>
      var cs := ShutIfValid(w.cores, e.sock, UdpSock);
      ShutLater(w.cores, e.sock, UdpSock);
      OpenLater(cs, e.iface, UdpSock, port == 0 || bound);
      LaterTrans(w.cores, cs, Open(cs, e.iface, UdpSock, port == 0 || bound).0);
    case Listen(_, backlog, _, refused) =>
      ArmLater(w.cores, Zeros(PoolSize(w.poolMax, backlog)), e.iface, refused, 0);
    case Accept(_, _, _) => OpenLater(w.cores, e.iface, TcpSock, true);
    case Connect(_, _, _, _, _) => OpenLater(w.cores, e.iface, TcpSock, true);
    case Shutdown(_) => ShutLater(w.cores, e.sock, TcpSock);
    case Close(_) =>
      var cs := ShutIfValid(w.cores, e.sock, SockKindOf(e.kind));
      ShutLater(w.cores, e.sock, SockKindOf(e.kind));
      ShutPoolLater(cs, e.pool, 0);
      LaterTrans(w.cores, cs, ShutPool(cs, e.pool, 0));
    case _ =>
  }

  // ----- any run -----

  ghost predicate PoliteRun(w: World, calls: seq<Call>, unheld: set<nat>)
    decreases |calls|
  {
    calls == [] ||
    (Polite(w, calls[0], unheld)
     && PoliteRun(Step(w, calls[0]).0, calls[1..], UnheldAfter(w, calls[0], unheld)))
  }

  ghost function UnheldAtEnd(w: World, calls: seq<Call>, unheld: set<nat>): set<nat>
    decreases |calls|
  {
    if calls == [] then unheld
    else UnheldAtEnd(Step(w, calls[0]).0, calls[1..], UnheldAfter(w, calls[0], unheld))
  }

  lemma {:induction false} RunLater(w: World, calls: seq<Call>)
    ensures Later(w.cores, Run(w, calls).cores)
    decreases |calls|
  {
    LaterSelf(w.cores);
    hide Later;
    if calls != [] {
      hide Step;
      var v := Step(w, calls[0]).0;
      StepLater(w, calls[0]);
      RunLater(v, calls[1..]);
      LaterTrans(w.cores, v.cores, Run(v, calls[1..]).cores);
    }
  }

  lemma {:induction false} RunKeeps(w: World, calls: seq<Call>, unheld: set<nat>)
    requires Inv(w, unheld) && PoliteRun(w, calls, unheld) && UnderSpan(Run(w, calls).cores)
    ensures Inv(Run(w, calls), UnheldAtEnd(w, calls, unheld))
    decreases |calls|
  {
    hide Inv;
    hide Step;
    if calls != [] {
      var v := Step(w, calls[0]).0;
      RunLater(v, calls[1..]);
      StepKeeps(w, calls[0], unheld);
      RunKeeps(v, calls[1..], UnheldAfter(w, calls[0], unheld));
    }
  }

  lemma InitialInv(w: World)
    requires Initial(w)
    ensures Inv(w, {})
  {
    forall p: nat
      ensures Accounted(w.table, Kinds(w.cores), {}, p)
    {
      CountNone(w.table, p);
      assert p in Kinds(w.cores) <==> IsLive(w.cores, p);
    }
  }
}
