/**
The in-RAM 127.0.0.0/8 loopback (loopback.c with the calls of sock_wrap.c and fd_table.c
that reach it): a four-slot port table that points at descriptor entries, and a queue of at
most eight datagrams per receiver.

`sent` and `got` are the history of a queue, `closed` that of the queues already deleted.
 */
module Loopback {
  import opened Basics

  /** LO_PORT_SLOTS, LO_QUEUE_DEPTH and UINT16_MAX. */
  const SLOTS: nat := 4
  const DEPTH: nat := 8
  const MAX_LEN: nat := 0xFFFF

  datatype Msg = Msg(srcIp: nat, srcPort: nat, data: seq<Byte>)

  /** Port 0 is a free slot; `fd` is then NULL in the program and ignored here. */
  datatype Slot = Slot(port: nat, fd: nat)

  datatype Queue = Queue(msgs: seq<Msg>, sent: seq<Msg>, got: seq<Msg>)

  /** The fields of fd_entry_t that the loopback reads and writes, for a UDP entry. */
  datatype Entry = Entry(live: bool, loopback: bool, localIp: nat, localPort: nat, rx: Option<Queue>)

  datatype Closed = Closed(fd: nat, sent: seq<Msg>, got: seq<Msg>, freed: seq<Msg>)

  datatype Lo = Lo(slots: seq<Slot>, table: seq<Entry>, closed: seq<Closed>)

  datatype Call =
    | Open(i: nat)
    | BindLoopback(i: nat, ip: nat, port: nat, memory: bool)
    | BindOther(i: nat, ip: nat, port: nat)
    | ConnectUdp(i: nat, ip: nat, port: nat)
    | SendTo(i: nat, dstPort: nat, data: seq<Byte>, memory: bool)
    | RecvFrom(i: nat, cap: nat)
    | Close(i: nat)

  datatype Reply = Done(n: int) | Failed | Received(msg: Msg, bytes: seq<Byte>)

  // ----- the table -----

  /** Index of the first slot with this port, or the length. */
  function Find(slots: seq<Slot>, port: nat): (k: nat)
    ensures k <= |slots| && (k < |slots| ==> slots[k].port == port)
    ensures forall n :: 0 <= n < k ==> slots[n].port != port
  {
    if slots == [] || slots[0].port == port then 0 else 1 + Find(slots[1..], port)
  }

  /** The table after lo_bind, or None if there is no slot left. */
  function Registered(slots: seq<Slot>, port: nat, i: nat): Option<seq<Slot>> {
    var k := Find(slots, port);
    var free := Find(slots, 0);
    if k < |slots| then Some(slots[k := Slot(port, i)])
    else if free < |slots| then Some(slots[free := Slot(port, i)])
    else None
  }

  function Cleared(slots: seq<Slot>, port: nat, i: nat): (r: seq<Slot>)
    ensures |r| == |slots|
    ensures forall k :: 0 <= k < |slots| ==>
              r[k] == if slots[k] == Slot(port, i) then Slot(0, 0) else slots[k]
  {
    if slots == [] then []
    else [if slots[0] == Slot(port, i) then Slot(0, 0) else slots[0]] + Cleared(slots[1..], port, i)
  }

  // ----- the calls -----

  function DoBind(s: Lo, i: nat, ip: nat, port: nat, memory: bool): (Lo, Reply)
    requires i < |s.table|
  {
    var e := s.table[i].(localIp := ip, localPort := port);
    if port == 0 || (e.rx.None? && !memory) then (s.(table := s.table[i := e]), Failed)
    else
      var f := e.(loopback := true, rx := if e.rx.None? then Some(Queue([], [], [])) else e.rx);
      var r := Registered(s.slots, port, i);
      if r.None? then (s.(table := s.table[i := f]), Failed)
      else (s.(table := s.table[i := f], slots := r.value), Done(0))
  }

  function Truncated(data: seq<Byte>, cap: nat): (r: seq<Byte>)
    ensures r <= data && |r| <= cap && (|r| < cap ==> r == data)
  {
    if |data| < cap then data else data[..cap]
  }

  /** lo_deliver, called with the sender's local address and port. */
  function DoSend(s: Lo, i: nat, dstPort: nat, data: seq<Byte>, memory: bool): (Lo, Reply)
    requires i < |s.table|
  {
    var k := Find(s.slots, dstPort);
    if |data| > MAX_LEN || k == |s.slots| || dstPort == 0 || s.slots[k].fd >= |s.table| then (s, Failed)
    else
      var j := s.slots[k].fd;
      var t := s.table[j];
      if t.rx.None? || !memory || |t.rx.value.msgs| >= DEPTH then (s, Failed)
      else
        var m := Msg(s.table[i].localIp, s.table[i].localPort, data);
        var q := t.rx.value;
        (s.(table := s.table[j := t.(rx := Some(q.(msgs := q.msgs + [m], sent := q.sent + [m])))]), Done(|data|))
  }

  function DoRecv(s: Lo, i: nat, cap: nat): (Lo, Reply)
    requires i < |s.table|
  {
    var e := s.table[i];
    if !e.loopback || e.rx.None? || e.rx.value.msgs == [] then (s, Failed)
    else
      var q := e.rx.value;
      var m := q.msgs[0];
      (s.(table := s.table[i := e.(rx := Some(q.(msgs := q.msgs[1..], got := q.got + [m])))]),
       Received(m, Truncated(m.data, cap)))
  }

  function DoClose(s: Lo, i: nat): Lo
    requires i < |s.table|
  {
    var e := s.table[i];
    if !e.loopback then s.(table := s.table[i := e.(live := false)])
    else
      s.(slots := Cleared(s.slots, e.localPort, i),
         closed := s.closed + (if e.rx.Some? then [Closed(i, e.rx.value.sent, e.rx.value.got, e.rx.value.msgs)] else []),
         table := s.table[i := e.(live := false, loopback := false, rx := None)])
  }

  /** Calls on descriptors that are out of range or not open fail and change nothing. */
  function Step(s: Lo, c: Call): (Lo, Reply) {
    if c.i >= |s.table| then (s, Failed)
    else if c.Open? then
      if s.table[c.i].live then (s, Failed)
      else (s.(table := s.table[c.i := Entry(true, false, 0, 0, None)]), Done(c.i))
    else if !s.table[c.i].live then (s, Failed)
    else match c
      case BindLoopback(i, ip, port, memory) => DoBind(s, i, ip, port, memory)
      case BindOther(i, ip, port) => (s.(table := s.table[i := s.table[i].(localIp := ip, localPort := port)]), Done(0))
      case ConnectUdp(i, ip, port) => (s.(table := s.table[i := s.table[i].(localIp := ip, localPort := port)]), Done(0))
      case SendTo(i, dstPort, data, memory) => DoSend(s, i, dstPort, data, memory)
      case RecvFrom(i, cap) => DoRecv(s, i, cap)
      case Close(i) => (DoClose(s, i), Done(0))
      case Open(i) => (s, Failed)
  }

  function Run(s: Lo, calls: seq<Call>): Lo
    decreases |calls|
  {
    if calls == [] then s else Run(Step(s, calls[0]).0, calls[1..])
  }

  predicate Initial(s: Lo) {
    && s.slots == [Slot(0, 0), Slot(0, 0), Slot(0, 0), Slot(0, 0)] && s.closed == []
    && forall i :: 0 <= i < |s.table| ==> s.table[i] == Entry(false, false, 0, 0, None)
  }

  // ----- queues: FIFO, bounded, nothing lost or doubled -----

  predicate EntryOk(e: Entry) {
    && (e.loopback <==> e.rx.Some?)
    && (!e.live ==> e.rx.None?)
    && (e.rx.Some? ==> |e.rx.value.msgs| <= DEPTH && e.rx.value.sent == e.rx.value.got + e.rx.value.msgs)
  }

  predicate ClosedOk(c: Closed) { c.sent == c.got + c.freed }

  predicate UniquePorts(slots: seq<Slot>) {
    forall a, b :: 0 <= a < b < |slots| && slots[a].port != 0 ==> slots[a].port != slots[b].port
  }

  ghost predicate Sound(s: Lo) {
    && |s.slots| == SLOTS && UniquePorts(s.slots)
    && (forall i :: 0 <= i < |s.table| ==> EntryOk(s.table[i]))
    && (forall k :: 0 <= k < |s.closed| ==> ClosedOk(s.closed[k]))
  }

  lemma SlotsAfterBind(slots: seq<Slot>, port: nat, i: nat)
    requires UniquePorts(slots) && port != 0
    ensures var r := Registered(slots, port, i);
            r.Some? ==> |r.value| == |slots| && UniquePorts(r.value)
  {
  }

  lemma StepSound(s: Lo, c: Call)
    requires Sound(s)
    ensures Sound(Step(s, c).0)
  {
    if c.BindLoopback? && c.port != 0 {
      SlotsAfterBind(s.slots, c.port, c.i);
    }
    if c.i < |s.table| {
      assert EntryOk(s.table[c.i]);
    }
    if c.Close? && c.i < |s.table| && s.table[c.i].live {
      CloseSound(s, c.i);
    }
    if c.RecvFrom? && c.i < |s.table| && s.table[c.i].rx.Some? && s.table[c.i].rx.value.msgs != [] {
      var q := s.table[c.i].rx.value;
      assert q.got + q.msgs == q.got + [q.msgs[0]] + q.msgs[1..];
    }
  }

  lemma CloseSound(s: Lo, i: nat)
    requires Sound(s) && i < |s.table|
    ensures Sound(DoClose(s, i))
  {
    assert EntryOk(s.table[i]);
  }

  lemma InitialSound(s: Lo)
    requires Initial(s)
    ensures Sound(s)
  {
  }

  lemma {:induction false} RunSound(s: Lo, calls: seq<Call>)
    requires Sound(s)
    ensures Sound(Run(s, calls))
    decreases |calls|
  {
    hide Sound;
    hide Step;
    if calls != [] {
      StepSound(s, calls[0]);
      RunSound(Step(s, calls[0]).0, calls[1..]);
    }
  }

  /** After every run from start-up: at most eight datagrams are queued per receiver, the
      accepted datagrams of each receiver are, in order, those received and then those still
      queued, and those of a closed receiver are the ones received and then the ones freed. */
  lemma EveryDatagramAccountedFor(s: Lo, calls: seq<Call>)
    requires Initial(s)
    ensures var t := Run(s, calls);
            && (forall i :: 0 <= i < |t.table| && t.table[i].rx.Some? ==>
                  |t.table[i].rx.value.msgs| <= 8
                  && t.table[i].rx.value.sent == t.table[i].rx.value.got + t.table[i].rx.value.msgs)
            && (forall k :: 0 <= k < |t.closed| ==> t.closed[k].sent == t.closed[k].got + t.closed[k].freed)
            && UniquePorts(t.slots)
  {
    hide Run;
    InitialSound(s);
    RunSound(s, calls);
    var t := Run(s, calls);
    assert forall i :: 0 <= i < |t.table| ==> EntryOk(t.table[i]);
    assert forall k :: 0 <= k < |t.closed| ==> ClosedOk(t.closed[k]);
  }

  // ----- registrations -----

  /** Every occupied slot points at an open loopback entry that is bound to the slot's port. */
  predicate SlotOk(s: Lo, k: nat)
    requires k < |s.slots|
  {
    s.slots[k].port != 0 ==>
      && s.slots[k].fd < |s.table| && s.table[s.slots[k].fd].live && s.table[s.slots[k].fd].loopback
      && s.table[s.slots[k].fd].localPort == s.slots[k].port
  }

  ghost predicate Coherent(s: Lo) {
    forall k :: 0 <= k < |s.slots| ==> SlotOk(s, k)
  }

  /** The call does not move a registered descriptor away from the port it is registered on. */
  ghost predicate Disciplined(s: Lo, c: Call) {
    (c.BindLoopback? || c.BindOther? || c.ConnectUdp?) && c.i < |s.table| && s.table[c.i].live ==>
      forall k :: 0 <= k < |s.slots| && s.slots[k].port != 0 && s.slots[k].fd == c.i ==> s.slots[k].port == c.port
  }

  lemma BindCoherent(s: Lo, c: Call)
    requires Sound(s) && Coherent(s) && c.BindLoopback? && Disciplined(s, c)
    ensures Coherent(Step(s, c).0)
  {
    var t := Step(s, c).0;
    if c.port != 0 {
      SlotsAfterBind(s.slots, c.port, c.i);
    }
    forall k | 0 <= k < |t.slots|
      ensures SlotOk(t, k)
    {
      assert SlotOk(s, k);
    }
  }

  lemma OtherCoherent(s: Lo, c: Call)
    requires Sound(s) && Coherent(s) && !c.BindLoopback? && Disciplined(s, c)
    ensures Coherent(Step(s, c).0)
  {
    var t := Step(s, c).0;
    forall k | 0 <= k < |t.slots|
      ensures SlotOk(t, k)
    {
      assert SlotOk(s, k);
    }
  }

  lemma UndisciplinedBreaks(s: Lo, c: Call)
    requires Sound(s) && Coherent(s) && !Disciplined(s, c)
    ensures !Coherent(Step(s, c).0)
  {
    var t := Step(s, c).0;
    var k :| 0 <= k < |s.slots| && s.slots[k].port != 0 && s.slots[k].fd == c.i && s.slots[k].port != c.port;
    assert SlotOk(s, k);
    if c.BindLoopback? && c.port != 0 {
      SlotsAfterBind(s.slots, c.port, c.i);
    }
    assert t.slots[k] == s.slots[k];
    assert !SlotOk(t, k);
  }

  /** A call keeps every registration pointing at a live entry exactly if it is disciplined. */
  lemma CoherentIffDisciplined(s: Lo, c: Call)
    requires Sound(s) && Coherent(s)
    ensures Coherent(Step(s, c).0) <==> Disciplined(s, c)
  {
    if !Disciplined(s, c) {
      UndisciplinedBreaks(s, c);
    } else if c.BindLoopback? {
      BindCoherent(s, c);
    } else {
      OtherCoherent(s, c);
    }
  }

  ghost predicate DisciplinedRun(s: Lo, calls: seq<Call>)
    decreases |calls|
  {
    calls == [] || (Disciplined(s, calls[0]) && DisciplinedRun(Step(s, calls[0]).0, calls[1..]))
  }

  lemma {:induction false} RunCoherent(s: Lo, calls: seq<Call>)
    requires Sound(s) && Coherent(s) && DisciplinedRun(s, calls)
    ensures Sound(Run(s, calls)) && Coherent(Run(s, calls))
    decreases |calls|
  {
    hide Sound;
    hide Coherent;
    hide Step;
    hide Disciplined;
    if calls != [] {
      StepSound(s, calls[0]);
      CoherentIffDisciplined(s, calls[0]);
      RunCoherent(Step(s, calls[0]).0, calls[1..]);
    }
  }

  /** In every disciplined run each occupied slot points at a live entry bound to its port. */
  lemma SlotsStayLive(s: Lo, calls: seq<Call>)
    requires Initial(s) && DisciplinedRun(s, calls)
    ensures Coherent(Run(s, calls))
  {
    hide Run;
    InitialSound(s);
    assert forall k :: 0 <= k < |s.slots| ==> SlotOk(s, k);
    RunCoherent(s, calls);
  }

  /** Without discipline a registration outlives its socket: connect moves the entry's port,
      close then misses the slot, and a later socket in the same entry gets the datagrams. */
  lemma StrayRegistration(s: Lo, d: seq<Byte>)
    requires Initial(s) && |s.table| == 1 && |d| <= MAX_LEN
    ensures var t := Run(s, [Open(0), BindLoopback(0, 127, 5000, true), ConnectUdp(0, 8, 53), Close(0),
                             Open(0), BindLoopback(0, 127, 6000, true), SendTo(0, 5000, d, true)]);
            && |t.slots| == SLOTS && |t.table| == 1
            && t.slots[0] == Slot(5000, 0) && t.table[0].localPort == 6000
            && t.table[0].rx.Some? && t.table[0].rx.value.msgs == [Msg(127, 6000, d)]
  {
    hide Step;
    var c1, c2, c3 := Open(0), BindLoopback(0, 127, 5000, true), ConnectUdp(0, 8, 53);
    var c4, c5, c6, c7 := Close(0), Open(0), BindLoopback(0, 127, 6000, true), SendTo(0, 5000, d, true);
    StrayFirst(s);
    StraySecond(Step(Step(Step(Step(s, c1).0, c2).0, c3).0, c4).0, d);
    RunSeven(s, [c1, c2, c3, c4, c5, c6, c7]);
  }

  const FREE_SLOT := Slot(0, 0)

  lemma StrayFirst(s: Lo)
    requires Initial(s) && |s.table| == 1
    ensures var t := Step(Step(Step(Step(s, Open(0)).0, BindLoopback(0, 127, 5000, true)).0, ConnectUdp(0, 8, 53)).0,
                          Close(0)).0;
            && t.slots == [Slot(5000, 0), FREE_SLOT, FREE_SLOT, FREE_SLOT]
            && t.table == [Entry(false, false, 8, 53, None)]
  {
    var s2 := Step(Step(s, Open(0)).0, BindLoopback(0, 127, 5000, true)).0;
    assert s2.slots == [Slot(5000, 0), FREE_SLOT, FREE_SLOT, FREE_SLOT];
    assert s2.table == [Entry(true, true, 127, 5000, Some(Queue([], [], [])))];
  }

  lemma StraySecond(s: Lo, d: seq<Byte>)
    requires s.slots == [Slot(5000, 0), FREE_SLOT, FREE_SLOT, FREE_SLOT]
    requires s.table == [Entry(false, false, 8, 53, None)] && |d| <= MAX_LEN
    ensures var t := Step(Step(Step(s, Open(0)).0, BindLoopback(0, 127, 6000, true)).0, SendTo(0, 5000, d, true)).0;
            && |t.slots| == SLOTS && |t.table| == 1
            && t.slots[0] == Slot(5000, 0) && t.table[0].localPort == 6000
            && t.table[0].rx.Some? && t.table[0].rx.value.msgs == [Msg(127, 6000, d)]
  {
    assert Find(s.slots, 0) == 1;
    var s2 := Step(Step(s, Open(0)).0, BindLoopback(0, 127, 6000, true)).0;
    assert s2.slots == [Slot(5000, 0), Slot(6000, 0), FREE_SLOT, FREE_SLOT];
    assert s2.table == [Entry(true, true, 127, 6000, Some(Queue([], [], [])))];
    assert Find(s2.slots, 5000) == 0;
  }

  lemma RunSeven(s: Lo, cs: seq<Call>)
    requires |cs| == 7
    ensures var s4 := Step(Step(Step(Step(s, cs[0]).0, cs[1]).0, cs[2]).0, cs[3]).0;
            Run(s, cs) == Step(Step(Step(s4, cs[4]).0, cs[5]).0, cs[6]).0
  {
    hide Step;
    var s1 := Step(s, cs[0]).0;
    var s2 := Step(s1, cs[1]).0;
    var s3 := Step(s2, cs[2]).0;
    var s4 := Step(s3, cs[3]).0;
    var s5 := Step(s4, cs[4]).0;
    var s6 := Step(s5, cs[5]).0;
    var s7 := Step(s6, cs[6]).0;
    assert Run(s7, cs[1..][1..][1..][1..][1..][1..][1..]) == s7;
    assert Run(s4, cs[1..][1..][1..][1..]) == Run(s6, cs[1..][1..][1..][1..][1..][1..]);
    assert Run(s2, cs[1..][1..]) == Run(s4, cs[1..][1..][1..][1..]);
  }

  // ----- the table as a map -----

  /** Which entry receives on a port. */
  ghost predicate Receives(s: Lo, port: nat, i: nat) {
    port != 0 && exists k :: 0 <= k < |s.slots| && s.slots[k] == Slot(port, i)
  }

  /** lo_bind refuses a non-zero port, memory permitting, exactly if the port is new and all
      four slots are taken; otherwise the port receives at this entry and no other port moves. */
  lemma BindIsMapUpdate(s: Lo, i: nat, ip: nat, port: nat)
    requires Sound(s) && i < |s.table| && port != 0
    ensures var (t, reply) := DoBind(s, i, ip, port, true);
            && (reply == Failed <==> forall k :: 0 <= k < |s.slots| ==> s.slots[k].port != port && s.slots[k].port != 0)
            && (reply == Failed ==> t.slots == s.slots)
            && (reply != Failed ==>
                  forall p, j :: Receives(t, p, j) <==> if p == port then j == i else Receives(s, p, j))
  {
    var (t, reply) := DoBind(s, i, ip, port, true);
    if reply != Failed {
      var at := if Find(s.slots, port) < |s.slots| then Find(s.slots, port) else Find(s.slots, 0);
      assert t.slots == s.slots[at := Slot(port, i)];
      forall p, j
        ensures Receives(t, p, j) <==> if p == port then j == i else Receives(s, p, j)
      {
        BoundAt(s, t, at, port, i, p, j);
      }
    }
  }

  lemma BoundAt(s: Lo, t: Lo, at: nat, port: nat, i: nat, p: nat, j: nat)
    requires UniquePorts(s.slots) && at < |s.slots| && port != 0
    requires t.slots == s.slots[at := Slot(port, i)]
    requires s.slots[at].port == port || (s.slots[at].port == 0 && forall k :: 0 <= k < |s.slots| ==> s.slots[k].port != port)
    ensures Receives(t, p, j) <==> if p == port then j == i else Receives(s, p, j)
  {
    assert t.slots[at] == Slot(port, i);
    if Receives(s, p, j) && p != port {
      var k :| 0 <= k < |s.slots| && s.slots[k] == Slot(p, j);
      assert t.slots[k] == Slot(p, j);
    }
    if Receives(t, p, j) {
      var k :| 0 <= k < |t.slots| && t.slots[k] == Slot(p, j);
      assert k != at ==> s.slots[k] == Slot(p, j);
    }
  }

  /** Entry `j` receives on the port and has room for one more datagram. */
  ghost predicate CanTake(s: Lo, port: nat, j: nat) {
    Receives(s, port, j) && j < |s.table| && s.table[j].rx.Some? && |s.table[j].rx.value.msgs| < DEPTH
  }

  /** A datagram of at most 65535 bytes is accepted, memory permitting, exactly if somebody
      receives on the port with room in the queue; it goes to the end of that queue, with the
      sender's address, and nothing else changes. */
  lemma SendGoesToReceiver(s: Lo, i: nat, port: nat, data: seq<Byte>)
    requires Sound(s) && Coherent(s) && i < |s.table| && |data| <= 0xFFFF
    ensures var (t, reply) := DoSend(s, i, port, data, true);
            && (reply != Failed <==> exists j: nat :: CanTake(s, port, j))
            && (forall j: nat :: CanTake(s, port, j) ==>
                  var m, q := Msg(s.table[i].localIp, s.table[i].localPort, data), s.table[j].rx.value;
                  reply == Done(|data|)
                  && t == s.(table := s.table[j := s.table[j].(rx := Some(Queue(q.msgs + [m], q.sent + [m], q.got)))]))
  {
    var k := Find(s.slots, port);
    forall j | Receives(s, port, j)
      ensures k < |s.slots| && s.slots[k] == Slot(port, j)
    {
      var n :| 0 <= n < |s.slots| && s.slots[n] == Slot(port, j);
      assert k <= n;
    }
    if k < |s.slots| && port != 0 {
      assert SlotOk(s, k);
      assert Receives(s, port, s.slots[k].fd);
      assert EntryOk(s.table[s.slots[k].fd]);
      if DoSend(s, i, port, data, true).1 != Failed {
        assert CanTake(s, port, s.slots[k].fd);
      }
    }
  }

  /** Port 0, a datagram over 65535 bytes, and missing memory are refused without a trace in
      table or queues; a bind still stores address and port. */
  lemma Refusals(s: Lo, i: nat, ip: nat, port: nat, data: seq<Byte>, memory: bool)
    requires Sound(s) && i < |s.table|
    ensures |data| > 0xFFFF || !memory || port == 0 ==> DoSend(s, i, port, data, memory) == (s, Failed)
    ensures var (t, reply) := DoBind(s, i, ip, port, memory);
            && t.closed == s.closed && |t.table| == |s.table| && t.table == s.table[i := t.table[i]]
            && t.table[i].localIp == ip && t.table[i].localPort == port && t.table[i].live == s.table[i].live
            && (port == 0 || (!memory && s.table[i].rx.None?) ==>
                  reply == Failed && t.slots == s.slots && t.table[i].rx == s.table[i].rx)
  {
    assert EntryOk(s.table[i]);
  }

  /** Binding elsewhere and connecting store the address that later datagrams carry as their
      source, and change nothing else. */
  lemma AddressStored(s: Lo, c: Call, dstPort: nat, data: seq<Byte>, memory: bool)
    requires c.BindOther? || c.ConnectUdp?
    requires c.i < |s.table| && s.table[c.i].live
    ensures var t := Step(s, c).0;
            && |t.table| == |s.table| && t == s.(table := s.table[c.i := t.table[c.i]])
            && t.table[c.i].rx == s.table[c.i].rx && t.table[c.i].loopback == s.table[c.i].loopback && t.table[c.i].live
            && Step(t, SendTo(c.i, dstPort, data, memory)).0.slots == s.slots
            && (Step(t, SendTo(c.i, dstPort, data, memory)).1 != Failed ==>
                  var j := s.slots[Find(s.slots, dstPort)].fd;
                  var u := Step(t, SendTo(c.i, dstPort, data, memory)).0;
                  && j < |u.table| && u.table[j].rx.Some? && u.table[j].rx.value.msgs != []
                  && u.table[j].rx.value.msgs[|u.table[j].rx.value.msgs| - 1] == Msg(c.ip, c.port, data))
  {
  }

  /** A new descriptor starts unbound and without a queue, whatever the entry was used for before. */
  lemma OpenStartsBlank(s: Lo, i: nat)
    requires i < |s.table|
    ensures var (t, reply) := Step(s, Open(i));
            && |t.table| == |s.table| && t == s.(table := s.table[i := t.table[i]])
            && (s.table[i].live ==> reply == Failed && t == s)
            && (!s.table[i].live ==>
                  reply == Done(i) && t.table[i].live && !t.table[i].loopback && t.table[i].rx.None?
                  && t.table[i].localIp == t.table[i].localPort == 0)
  {
  }
}
