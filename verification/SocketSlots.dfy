/**
What the socket set itself holds. Ids are how C code reaches sockets, and slots are where the
sockets are: in every run the TCP and UDP sockets in the set are exactly the registered ones, so
a closed socket is gone, and DHCP sockets pile up exactly by static configuration.
 */
module SocketSlots {
  import opened Basics
  import opened SocketCore
  import opened SocketCalls
  import opened Ownership
  import opened OwnershipRuns
  import opened OwnershipTheorems

  predicate Occupied(slots: seq<Option<SockKind>>, h: nat) {
    h < |slots| && (slots[h] == Some(TcpSock) || slots[h] == Some(UdpSock))
  }

  /** Some id stands for slot `h`. */
  predicate Named(c: Core, h: nat) {
    exists id :: id in c.handles && c.handles[id] == h
  }

  ghost predicate Tight(c: Core) {
    forall h: nat :: Occupied(c.slots, h) ==> Named(c, h)
  }

  ghost predicate AllTight(cores: seq<Core>) {
    forall i :: 0 <= i < |cores| ==> Tight(cores[i])
  }

  // ----- core by core -----

  lemma RegisterTight(c: Core, kind: SockKind)
    requires CoreOk(c) && Tight(c)
    ensures Tight(Register(c, kind))
  {
    var d, f := Register(c, kind), FirstVacant(c.slots);
    assert c.nextId in c.handles ==> HandleOk(c, c.nextId);
    forall h: nat | Occupied(d.slots, h)
      ensures Named(d, h)
    {
      if h == f {
        assert d.handles[c.nextId] == f;
      } else {
        assert Occupied(c.slots, h);
        var id :| id in c.handles && c.handles[id] == h;
        assert d.handles[id] == h;
      }
    }
  }

  /** The slot of a closed socket is vacant; every other occupied one keeps its id. */
  lemma UnregisterTight(c: Core, id: nat, kind: SockKind)
    requires CoreOk(c) && Tight(c)
    ensures Tight(Unregister(c, id, kind))
  {
    var d := Unregister(c, id, kind);
    forall h: nat | Occupied(d.slots, h)
      ensures Named(d, h)
    {
      assert Occupied(c.slots, h);
      var k :| k in c.handles && c.handles[k] == h;
      assert k in d.handles && d.handles[k] == h;
    }
  }

  lemma SpareTight(c: Core, slots: seq<Option<SockKind>>, dhcp: Option<nat>)
    requires Tight(c) && forall h: nat :: Occupied(slots, h) ==> Occupied(c.slots, h)
    ensures Tight(c.(slots := slots, dhcp := dhcp))
  {
    var d := c.(slots := slots, dhcp := dhcp);
    forall h: nat | Occupied(d.slots, h)
      ensures Named(d, h)
    {
      assert Occupied(c.slots, h) && Named(c, h);
      var id :| id in c.handles && c.handles[id] == h;
      assert d.handles[id] == h;
    }
  }

  /** Also after a name query: its temporary socket is out of the set again. */
  lemma ServicedTight(c: Core, service: Service)
    requires CoreOk(c) && Tight(c)
    ensures Tight(Serviced(c, service))
  {
    if !c.up {
      assert c == DOWN;
    } else {
      var d := Serviced(c, service);
      assert forall h: nat :: Occupied(d.slots, h) ==> Occupied(c.slots, h);
      SpareTight(c, d.slots, d.dhcp);
    }
  }

  // ----- all cores -----

  lemma ShutKeepsOk(cores: seq<Core>, p: nat, kind: SockKind)
    requires CoresOk(cores)
    ensures CoresOk(Shut(cores, p, kind))
  {
    if IfaceOf(p) < |cores| && LocalOf(p) in cores[IfaceOf(p)].handles {
      UnregisterKeepsCore(cores[IfaceOf(p)], LocalOf(p));
    }
  }

  lemma PutTight(cores: seq<Core>, i: nat, c: Core)
    requires AllTight(cores) && i < |cores| && Tight(c)
    ensures AllTight(cores[i := c])
  {
    hide Tight;
  }

  lemma ShutTight(cores: seq<Core>, p: nat, kind: SockKind)
    requires CoresOk(cores) && AllTight(cores)
    ensures CoresOk(ShutIfValid(cores, p, kind)) && AllTight(ShutIfValid(cores, p, kind))
  {
    hide Tight;
    ShutKeepsOk(cores, p, kind);
    if IfaceOf(p) < |cores| {
      UnregisterTight(cores[IfaceOf(p)], LocalOf(p), kind);
      hide Unregister;
      PutTight(cores, IfaceOf(p), Unregister(cores[IfaceOf(p)], LocalOf(p), kind));
    }
  }

  lemma OpenTight(cores: seq<Core>, iface: nat, kind: SockKind, bound: bool)
    requires CoresOk(cores) && AllTight(cores)
    ensures AllTight(Open(cores, iface, kind, bound).0)
  {
    hide Tight;
    if iface < |cores| {
      RegisterTight(cores[iface], kind);
      hide Register;
      PutTight(cores, iface, Register(cores[iface], kind));
    }
  }

  lemma {:induction false} ShutPoolTight(cores: seq<Core>, pool: seq<nat>, k: nat)
    requires k <= |pool| && CoresOk(cores) && AllTight(cores)
    ensures AllTight(ShutPool(cores, pool, k))
    decreases |pool| - k
  {
    hide CoresOk;
    hide AllTight;
    if k < |pool| {
      ShutTight(cores, pool[k], TcpSock);
      ShutPoolTight(ShutIfValid(cores, pool[k], TcpSock), pool, k + 1);
    }
  }

  lemma {:induction false} ArmTight(cores: seq<Core>, pool: seq<nat>, iface: nat, refused: set<nat>, k: nat)
    requires k <= |pool| && CoresOk(cores) && AllTight(cores) && UnderSpan(Arm(cores, pool, iface, refused, k).cores)
    ensures AllTight(Arm(cores, pool, iface, refused, k).cores)
    decreases |pool| - k
  {
    hide AllTight;
    hide CoresOk;
    hide UnderSpan;
    hide Open;
    hide Found;
    if k < |pool| {
      var (cs, p) := Open(cores, iface, TcpSock, true);
      OpenTight(cores, iface, TcpSock, true);
      if p != 0 && k !in refused && Found(cs, p) {
        ArmOneSpan(cores, pool, iface, refused, k);
        OpenOk(cores, iface, TcpSock, true);
        ArmTight(cs, pool[k := p], iface, refused, k + 1);
      }
    }
  }

  // ----- any call, any run -----

  lemma EntryCallTight(w: World, c: Call, i: nat)
    requires CoresOk(w.cores) && AllTight(w.cores) && i < |w.table|
    ensures c.Bind? ==> AllTight(DoBind(w, i, c.ip, c.port, c.loopbackOk, c.bound).0.cores)
    ensures c.Listen? && UnderSpan(DoListen(w, i, c.backlog, c.memory, c.refused).0.cores) ==>
              AllTight(DoListen(w, i, c.backlog, c.memory, c.refused).0.cores)
    ensures c.Accept? ==> AllTight(DoAccept(w, i, c.scans, c.dflt).0.cores)
    ensures c.Connect? ==> AllTight(DoConnect(w, i, c.ip, c.port, c.reached).0.cores)
    ensures c.Shutdown? ==> AllTight(DoShutdown(w, i).0.cores)
    ensures c.Close? ==> AllTight(DoClose(w, i).cores)
  {
    hide CoresOk;
    hide AllTight;
    hide UnderSpan;
    hide Open;
    hide Found;
    hide Shut;
    var e := w.table[i];
    match c
    case Bind(_, _, _, port, _, bound) =>
      ShutTight(w.cores, e.sock, UdpSock);
      OpenTight(ShutIfValid(w.cores, e.sock, UdpSock), e.iface, UdpSock, port == 0 || bound);
    case Listen(_, backlog, memory, refused) =>
      var pool := Zeros(PoolSize(w.poolMax, backlog));
      if UnderSpan(Arm(w.cores, pool, e.iface, refused, 0).cores) {
        ArmTight(w.cores, pool, e.iface, refused, 0);
      }
    case Accept(_, _, _) => OpenTight(w.cores, e.iface, TcpSock, true);
    case Connect(_, _, _, _, _) => OpenTight(w.cores, e.iface, TcpSock, true);
    case Shutdown(_) => ShutTight(w.cores, e.sock, TcpSock);
    case Close(_) =>
      ShutTight(w.cores, e.sock, SockKindOf(e.kind));
      ShutPoolTight(ShutIfValid(w.cores, e.sock, SockKindOf(e.kind)), e.pool, 0);
    case _ =>
  }

  lemma StepTight(w: World, c: Call)
    requires CoresOk(w.cores) && AllTight(w.cores) && UnderSpan(Step(w, c).0.cores)
    ensures AllTight(Step(w, c).0.cores)
  {
    hide AllTight;
    hide Open;
    match c
    case Socket(_, _, dflt) => OpenTight(w.cores, dflt, UdpSock, true);
    case NativeOpen(iface, kind, bound) => OpenTight(w.cores, iface, kind, bound);
    case NativeClose(p, kind) => NativeCloseTight(w.cores, p, kind);
    case Serve(i, service) =>
      if i < |w.cores| { ServeTight(w.cores, i, service); }
    case _ =>
      if InUse(w, c.fd) { EntryCallTight(w, c, c.fd - w.offset); }
  }

  lemma NativeCloseTight(cores: seq<Core>, p: nat, kind: SockKind)
    requires CoresOk(cores) && AllTight(cores)
    ensures AllTight(Shut(cores, p, kind))
  {
    if p != 0 {
      ShutTight(cores, p, kind);
    } else if |cores| > 0 {
      UnregisterTight(cores[0], 0, kind);
      PutTight(cores, 0, Unregister(cores[0], 0, kind));
    }
  }

  lemma ServeTight(cores: seq<Core>, i: nat, service: Service)
    requires CoresOk(cores) && AllTight(cores) && i < |cores|
    ensures AllTight(cores[i := Serviced(cores[i], service)])
  {
    ServicedTight(cores[i], service);
    PutTight(cores, i, Serviced(cores[i], service));
  }

  lemma {:induction false} RunTight(w: World, calls: seq<Call>, unheld: set<nat>)
    requires Inv(w, unheld) && AllTight(w.cores)
    requires PoliteRun(w, calls, unheld) && UnderSpan(Run(w, calls).cores)
    ensures AllTight(Run(w, calls).cores)
    decreases |calls|
  {
    assert CoresOk(w.cores);
    hide Inv;
    hide CoresOk;
    hide AllTight;
    hide Step;
    if calls != [] {
      var v := Step(w, calls[0]).0;
      RunLater(v, calls[1..]);
      assert UnderSpan(v.cores);
      StepTight(w, calls[0]);
      StepKeeps(w, calls[0], unheld);
      RunTight(v, calls[1..], UnheldAfter(w, calls[0], unheld));
    }
  }

  lemma InitialTight(w: World)
    requires Initial(w)
    ensures AllTight(w.cores)
  {
  }

  /** In every run from start-up, slot `h` of an interface holds a TCP or UDP socket exactly if
      some id stands for it. */
  lemma SlotsAreRegistered(w: World, calls: seq<Call>, i: nat, h: nat)
    requires Initial(w) && PoliteRun(w, calls, {}) && UnderSpan(Run(w, calls).cores)
    requires i < |Run(w, calls).cores|
    ensures var c := Run(w, calls).cores[i]; Occupied(c.slots, h) <==> h in c.handles.Values
  {
    hide Run;
    InitialInv(w);
    InitialTight(w);
    RunKeeps(w, calls, {});
    RunTight(w, calls, {});
    SlotsNamed(Run(w, calls).cores[i], h);
  }

  lemma SlotsNamed(c: Core, h: nat)
    requires CoreOk(c) && Tight(c)
    ensures Occupied(c.slots, h) <==> h in c.handles.Values
  {
    if h in c.handles.Values {
      var id :| id in c.handles && c.handles[id] == h;
      assert HandleOk(c, id);
    }
  }

  lemma {:induction false} ClosesTidy(w: World, fd: int, n: nat)
    ensures TidyRun(w, Closes(fd, n))
    decreases n
  {
    hide Step;
    if n > 0 {
      ClosesTidy(Step(w, Close(fd)).0, fd + 1, n - 1);
    }
  }

  /** After any tidy run, closing every descriptor leaves no TCP or UDP socket in any slot. */
  lemma ClosingAllEmptiesSlots(w: World, calls: seq<Call>, i: nat, h: nat)
    requires Initial(w) && TidyRun(w, calls) && UnderSpan(Run(w, calls).cores)
    requires i < |Run(w, calls).cores|
    ensures var v := Run(w, calls);
            var u := Run(v, Closes(v.offset, |v.table|));
            i < |u.cores| && !Occupied(u.cores[i].slots, h)
  {
    hide Run;
    hide TidyRun;
    var v := Run(w, calls);
    var closes := Closes(v.offset, |v.table|);
    InitialInv(w);
    InitialTight(w);
    TidyRunUnheld(w, calls, {});
    RunKeeps(w, calls, {});
    RunTight(w, calls, {});
    hide Inv;
    CloseEach(v, {}, 0);
    RunLater(v, closes);
    var u := Run(v, closes);
    EndsEmpty(v, u, closes, i, h);
  }

  lemma EndsEmpty(v: World, u: World, closes: seq<Call>, i: nat, h: nat)
    requires Inv(v, {}) && AllTight(v.cores) && closes == Closes(v.offset, |v.table|) && u == Run(v, closes)
    requires Inv(u, {}) && AllFree(u.table, |u.table|) && i < |u.cores|
    ensures !Occupied(u.cores[i].slots, h)
  {
    assert forall k :: 0 <= k < |u.cores| ==> CoreOk(u.cores[k]);
    ClosesTidy(v, v.offset, |v.table|);
    TidyRunUnheld(v, closes, {});
    RunTight(v, closes, {});
    hide Run;
    hide TidyRun;
    hide PoliteRun;
    var c := u.cores[i];
    SlotsNamed(c, h);
    if Occupied(c.slots, h) {
      var id :| id in c.handles && c.handles[id] == h;
      assert HandleOk(c, id);
      assert id in Sockets(c);
      PackRoundTrip(i, id);
      NothingHeld(u, {}, Pack(i, id));
      assert false;
    }
  }

  // ----- DHCP sockets -----

  /** The slots with a DHCP socket that the interface no longer polls. */
  function Stray(c: Core): set<nat> {
    set h | 0 <= h < |c.slots| && c.slots[h] == Some(DhcpSock) && c.dhcp != Some(h) :: h
  }

  /** A static address forgets the DHCP socket without removing it, and nothing else strays one;
      starting DHCP puts a socket into a slot that was vacant and polls it. */
  lemma StraysIffStatic(c: Core, service: Service)
    requires CoreOk(c) && c.up
    ensures Stray(Serviced(c, service))
            == if service.SetStatic? && c.dhcp.Some? then Stray(c) + {c.dhcp.value} else Stray(c)
    ensures service.StartDhcp? ==>
              var d := Serviced(c, service);
              && d.dhcp.Some? && TypedGetSafe(d.slots, d.dhcp.value, DhcpSock)
              && (c.dhcp.Some? ==> d == c)
              && (c.dhcp.None? ==> d.dhcp.value >= |c.slots| || c.slots[d.dhcp.value].None?)
    ensures service.SetStatic? ==> Serviced(c, service).dhcp.None?
  {
    var d := Serviced(c, service);
    forall h: nat
      ensures h in Stray(d) <==> if service.SetStatic? && c.dhcp == Some(h) then true else h in Stray(c)
    {
    }
  }

  /** Attaching creates a core without sockets, with a DHCP socket exactly if it is asked for;
      attaching again changes nothing. */
  lemma AttachBrings(c: Core, withDhcp: bool)
    requires CoreOk(c)
    ensures var d := Serviced(c, Attach(withDhcp));
            && d.up && (c.up ==> d == c)
            && (!c.up ==> d.handles == map[] && (d.dhcp.Some? <==> withDhcp) && Stray(d) == {})
  {
  }

  /** A second lease of life leaks: start, static, start again ends with a DHCP socket that
      nobody polls. */
  lemma RestartedDhcpStrays(c: Core)
    requires CoreOk(c) && c.up && c.dhcp.Some?
    ensures var d := EnableDhcp(DropDhcp(c));
            d.dhcp.Some? && d.dhcp != c.dhcp && c.dhcp.value in Stray(d)
  {
    StraysIffStatic(c, SetStatic);
    DhcpOk(c);
    StraysIffStatic(DropDhcp(c), StartDhcp);
  }
}
