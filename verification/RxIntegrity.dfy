/**
What becomes of each accepted frame: it is drained in arrival order with the bytes the
driver supplied, it gets one fate, and the counters agree.
 */
module RxIntegrity {
  import opened Basics
  import opened RxSlab
  import opened RxConservation

  // ----- reading frames -----

  function Bytes(mem: seq<Frame>, f: nat): seq<Byte> {
    if FrameOk(mem, f) then Content(mem, f) else []
  }

  function Contents(mem: seq<Frame>, q: seq<nat>): seq<seq<Byte>> {
    if q == [] then [] else [Bytes(mem, q[0])] + Contents(mem, q[1..])
  }

  function BytesOf(ds: seq<Drained>): seq<seq<Byte>> {
    if ds == [] then [] else [ds[0].bytes] + BytesOf(ds[1..])
  }

  function StoredOf(ds: seq<Drained>): seq<seq<Byte>> {
    if ds == [] then []
    else (if ds[0].fate == Stored then [ds[0].bytes] else []) + StoredOf(ds[1..])
  }

  lemma {:induction false} ContentsPush(mem: seq<Frame>, q: seq<nat>, f: nat)
    ensures Contents(mem, q + [f]) == Contents(mem, q) + [Bytes(mem, f)]
  {
    if q == [] {
      assert q + [f] == [f];
    } else {
      assert (q + [f])[1..] == q[1..] + [f];
      ContentsPush(mem, q[1..], f);
    }
  }

  lemma {:induction false} ContentsSame(mem: seq<Frame>, f: nat, x: Frame, q: seq<nat>)
    requires f < |mem| && f !in q
    ensures Contents(mem[f := x], q) == Contents(mem, q)
  {
    if q != [] {
      assert q[0] in q;
      ContentsSame(mem, f, x, q[1..]);
    }
  }

  lemma {:induction false} BytesOfPush(ds: seq<Drained>, d: Drained)
    ensures BytesOf(ds + [d]) == BytesOf(ds) + [d.bytes]
    ensures StoredOf(ds + [d]) == StoredOf(ds) + if d.fate == Stored then [d.bytes] else []
  {
    if ds == [] {
      assert ds + [d] == [d];
    } else {
      assert (ds + [d])[1..] == ds[1..] + [d];
      BytesOfPush(ds[1..], d);
    }
  }

  // ----- the invariant -----

  /** What the poll task has received from interface `i` and not yet dispatched. */
  function InHand(s: Stack, i: nat): seq<seq<Byte>> {
    if s.poll.Holding? && s.poll.i == i then [Bytes(s.mem, s.poll.f)] else []
  }

  predicate DriverFaithful(mem: seq<Frame>, d: Driver) {
    && (d.Filling? ==> d.f < |mem| && |d.buf| == mem[d.f].len)
    && (d.Filled? || d.Counted? ==> Bytes(mem, d.f) == d.buf)
  }

  function MidPost(d: Driver): nat { Tick(d.Counted? || d.Rejected?) }

  function InboxSeq(x: Iface): seq<seq<Byte>> { if x.inbox.Some? then [x.inbox.value] else [] }

  predicate Faithful(s: Stack, i: nat)
    requires i < |s.ifaces|
  {
    var x := s.ifaces[i];
    && DriverFaithful(s.mem, x.drv)
    && x.accepted == BytesOf(x.drained) + InHand(s, i) + Contents(s.mem, x.queue)
    && x.rxFrames == (x.rxDrops + |x.accepted| + MidPost(x.drv)) % COUNTER
    && StoredOf(x.drained) == x.taken + InboxSeq(x)
  }

  predicate FramesOk(mem: seq<Frame>) {
    forall f :: 0 <= f < |mem| ==> FrameOk(mem, f)
  }

  ghost predicate AllFaithful(s: Stack) {
    FramesOk(s.mem) && forall i :: 0 <= i < |s.ifaces| ==> Faithful(s, i)
  }

  // ----- whoever holds a frame holds it alone -----

  lemma HeldByDriver(s: Stack, i: nat, j: nat)
    requires Conserved(s) && i < |s.ifaces| && j < |s.ifaces| && !s.ifaces[i].drv.Idle?
    ensures var f := s.ifaces[i].drv.f;
            && f < |s.mem| && f !in s.ifaces[j].queue && !PollerHolds(s.poll, f)
            && (i != j ==> !DriverHolds(s.ifaces[j].drv, f))
  {
    var f := s.ifaces[i].drv.f;
    assert Places(s, f) == Tick(f < |s.mem|);
    InIfacesUpdate(s.ifaces, i, s.ifaces[i], f);
    if i != j {
      var none := Iface(false, [], Idle, 0, 0, None, [], [], []);
      InIfacesUpdate(s.ifaces, i, none, f);
      InIfacesUpdate(s.ifaces[i := none], j, s.ifaces[j], f);
    }
  }

  lemma HeldByFreeList(s: Stack, j: nat)
    requires Conserved(s) && s.free != [] && j < |s.ifaces|
    ensures var f := s.free[0];
            && f < |s.mem| && f !in s.ifaces[j].queue && !PollerHolds(s.poll, f)
            && !DriverHolds(s.ifaces[j].drv, f)
  {
    var f := s.free[0];
    assert f in multiset(s.free);
    assert Places(s, f) == Tick(f < |s.mem|);
    InIfacesUpdate(s.ifaces, j, s.ifaces[j], f);
  }

  // ----- steps -----

  /** Writing to a frame that interface `j` has no part in. */
  lemma WriteElsewhere(s: Stack, t: Stack, f: nat, x: Frame, j: nat)
    requires j < |s.ifaces| && j < |t.ifaces| && t.ifaces[j] == s.ifaces[j]
    requires f < |s.mem| && t.mem == s.mem[f := x] && t.poll == s.poll
    requires Faithful(s, j) && f !in s.ifaces[j].queue && !PollerHolds(s.poll, f) && !DriverHolds(s.ifaces[j].drv, f)
    ensures Faithful(t, j)
  {
    ContentsSame(s.mem, f, x, s.ifaces[j].queue);
  }

  lemma FramesOkWrite(mem: seq<Frame>, f: nat, x: Frame)
    requires FramesOk(mem) && f < |mem| && |x.data| == FRAME_BUF && x.len <= FRAME_BUF
    ensures FramesOk(mem[f := x])
  {
    var after := mem[f := x];
    forall g | 0 <= g < |mem|
      ensures FrameOk(after, g)
    {
      assert FrameOk(mem, g);
    }
  }

  lemma WrappedSum(a: nat, b: nat)
    ensures (a % COUNTER + b) % COUNTER == (a + b) % COUNTER
  {
  }

  lemma AllocFaithful(s: Stack, i: nat, buf: seq<Byte>)
    requires Conserved(s) && AllFaithful(s) && i < |s.ifaces| && s.ifaces[i].drv.Idle?
    ensures AllFaithful(DoAlloc(s, i, buf))
  {
    var t := DoAlloc(s, i, buf);
    forall j | 0 <= j < |s.ifaces|
      ensures Faithful(t, j)
    {
      AllocFaithfulAt(s, i, buf, j);
    }
    if t.mem != s.mem {
      var f := s.free[0];
      assert FrameOk(s.mem, f);
      FramesOkWrite(s.mem, f, t.mem[f]);
    }
  }

  lemma AllocFaithfulAt(s: Stack, i: nat, buf: seq<Byte>, j: nat)
    requires Conserved(s) && AllFaithful(s) && i < |s.ifaces| && s.ifaces[i].drv.Idle? && j < |s.ifaces|
    ensures Faithful(DoAlloc(s, i, buf), j)
  {
    var t := DoAlloc(s, i, buf);
    assert Faithful(s, j);
    if t.ifaces != s.ifaces {
      var f := s.free[0];
      HeldByFreeList(s, j);
      hide Conserved;
      hide AllFaithful;
      if j != i {
        WriteElsewhere(s, t, f, t.mem[f], j);
      } else {
        AllocOwn(s, i, buf);
      }
    }
  }

  lemma AllocOwn(s: Stack, i: nat, buf: seq<Byte>)
    requires i < |s.ifaces| && s.ifaces[i].drv.Idle? && Faithful(s, i)
    requires |buf| <= FRAME_BUF && s.free != [] && s.free[0] < |s.mem|
    requires s.free[0] !in s.ifaces[i].queue && !PollerHolds(s.poll, s.free[0])
    ensures Faithful(DoAlloc(s, i, buf), i)
  {
    var t, f := DoAlloc(s, i, buf), s.free[0];
    ContentsSame(s.mem, f, t.mem[f], s.ifaces[i].queue);
  }

  lemma CopyFaithful(s: Stack, i: nat)
    requires Conserved(s) && AllFaithful(s) && i < |s.ifaces| && s.ifaces[i].drv.Filling?
    ensures AllFaithful(DoCopy(s, i))
  {
    var t, d := DoCopy(s, i), s.ifaces[i].drv;
    assert Faithful(s, i) && FrameOk(s.mem, d.f);
    FramesOkWrite(s.mem, d.f, t.mem[d.f]);
    forall j | 0 <= j < |s.ifaces|
      ensures Faithful(t, j)
    {
      assert Faithful(s, j);
      HeldByDriver(s, i, j);
      if j != i {
        WriteElsewhere(s, t, d.f, t.mem[d.f], j);
      } else {
        CopyOwn(s, i);
      }
    }
  }

  lemma CopyOwn(s: Stack, i: nat)
    requires i < |s.ifaces| && s.ifaces[i].drv.Filling? && Faithful(s, i)
    requires var f := s.ifaces[i].drv.f;
             FrameOk(s.mem, f) && f !in s.ifaces[i].queue && !PollerHolds(s.poll, f)
    ensures Faithful(DoCopy(s, i), i)
  {
    var t, d := DoCopy(s, i), s.ifaces[i].drv;
    ContentsSame(s.mem, d.f, t.mem[d.f], s.ifaces[i].queue);
    assert FrameOk(t.mem, d.f) && Content(t.mem, d.f) == d.buf;
  }

  /** A step that leaves memory alone and changes interface `i` only. */
  lemma OnlyIface(s: Stack, t: Stack, i: nat)
    requires AllFaithful(s) && i < |s.ifaces| && t.mem == s.mem
    requires |t.ifaces| == |s.ifaces| && forall j :: 0 <= j < |s.ifaces| && j != i ==> t.ifaces[j] == s.ifaces[j]
    requires t.poll == s.poll || (!s.poll.Sleeping? && s.poll.i == i && (t.poll.Sleeping? || t.poll.i == i))
    requires Faithful(t, i)
    ensures AllFaithful(t)
  {
    hide BytesOf;
    hide Contents;
    hide StoredOf;
    hide Bytes;
    hide DriverFaithful;
    hide FrameOk;
    forall j | 0 <= j < |s.ifaces|
      ensures Faithful(t, j)
    {
      assert Faithful(s, j);
    }
  }

  lemma DriverFaithfulStep(s: Stack, a: Action)
    requires AllFaithful(s) && (a.DrvPost? || a.DrvSend? || a.DrvDrop? || a.DrvFree?)
    requires a.i < |s.ifaces| && Next(s, a) != s
    ensures AllFaithful(Next(s, a))
  {
    assert Faithful(s, a.i);
    if a.DrvPost? {
      PostOwn(s, a.i);
    } else if a.DrvSend? {
      SendOwn(s, a.i);
    } else if a.DrvDrop? {
      DropOwn(s, a.i);
    }
    OnlyIface(s, Next(s, a), a.i);
  }

  lemma PostOwn(s: Stack, i: nat)
    requires i < |s.ifaces| && s.ifaces[i].drv.Filled? && Faithful(s, i)
    ensures Faithful(DoPost(s, i), i)
  {
    var x := s.ifaces[i];
    WrappedSum(x.rxDrops + |x.accepted|, 1);
  }

  lemma SendOwn(s: Stack, i: nat)
    requires i < |s.ifaces| && s.ifaces[i].drv.Counted? && Faithful(s, i)
    ensures Faithful(DoSend(s, i), i)
  {
    var x := s.ifaces[i];
    ContentsPush(s.mem, x.queue, x.drv.f);
  }

  lemma DropOwn(s: Stack, i: nat)
    requires i < |s.ifaces| && s.ifaces[i].drv.Rejected? && Faithful(s, i)
    ensures Faithful(Next(s, DrvDrop(i)), i)
  {
    var x := s.ifaces[i];
    WrappedSum(x.rxDrops + 1, |x.accepted|);
  }

  lemma PollFaithfulStep(s: Stack, a: Action)
    requires AllFaithful(s) && (a.PollTake? || a.PollDispatch? || a.PollFree? || a.PollSmoltcp?)
    requires !s.poll.Sleeping? && s.poll.i < |s.ifaces| && Next(s, a) != s
    ensures AllFaithful(Next(s, a))
  {
    var t, i := Next(s, a), s.poll.i;
    var x := s.ifaces[i];
    assert Faithful(s, i);
    if a.PollDispatch? {
      BytesOfPush(x.drained, t.ifaces[i].drained[|x.drained|]);
    }
    OnlyIface(s, t, i);
  }

  lemma NextFaithful(s: Stack, a: Action)
    requires Conserved(s) && PollerOk(s) && AllFaithful(s)
    ensures AllFaithful(Next(s, a))
  {
    hide Conserved;
    hide AllFaithful;
    if Next(s, a) == s {
    } else if a.DrvAlloc? {
      AllocFaithful(s, a.i, a.buf);
    } else if a.DrvCopy? {
      CopyFaithful(s, a.i);
    } else if a.DrvPost? || a.DrvSend? || a.DrvDrop? || a.DrvFree? {
      DriverFaithfulStep(s, a);
    } else if a.PollTake? || a.PollDispatch? || a.PollFree? || a.PollSmoltcp? {
      PollFaithfulStep(s, a);
    } else {
      QuietFaithful(s, a);
    }
  }

  lemma QuietFaithful(s: Stack, a: Action)
    requires AllFaithful(s) && (a.Enable? || a.SetTaps? || a.PollStart?)
    ensures AllFaithful(Next(s, a))
  {
    hide BytesOf;
    hide Contents;
    hide StoredOf;
    hide Bytes;
    hide DriverFaithful;
    hide FrameOk;
    forall j | 0 <= j < |s.ifaces|
      ensures Faithful(Next(s, a), j)
    {
      assert Faithful(s, j);
    }
  }

  lemma {:induction false} RunFaithful(s: Stack, actions: seq<Action>)
    requires Conserved(s) && PollerOk(s) && AllFaithful(s)
    ensures AllFaithful(Run(s, actions))
    decreases |actions|
  {
    hide Next;
    hide Conserved;
    hide AllFaithful;
    if actions != [] {
      NextConserves(s, actions[0]);
      NextFaithful(s, actions[0]);
      RunFaithful(Next(s, actions[0]), actions[1..]);
    }
  }

  // ----- what it means -----

  /** After any interleaving from start-up, on every interface: the accepted frames are, in
      order, the drained ones, the one in the poll task's hand and the queued ones, each
      with the driver's bytes; the frames stored in the inbox are exactly those smoltcp took
      and the one still there; rx_frames counts drops, accepted frames and a frame mid-post. */
  lemma FramesKeepOrderAndBytes(s: Stack, actions: seq<Action>, i: nat)
    requires Initial(s) && i < |s.ifaces|
    ensures var t := Run(s, actions);
            && i < |t.ifaces|
            && var x := t.ifaces[i];
            && x.accepted == BytesOf(x.drained) + InHand(t, i) + Contents(t.mem, x.queue)
            && |x.accepted| == |x.drained| + |InHand(t, i)| + |x.queue|
            && StoredOf(x.drained) == x.taken + InboxSeq(x)
            && x.rxFrames == (x.rxDrops + |x.drained| + |InHand(t, i)| + |x.queue| + MidPost(x.drv)) % COUNTER
  {
    hide Next;
    InitialConserved(s);
    assert forall j :: 0 <= j < |s.ifaces| ==> Faithful(s, j);
    RunFaithful(s, actions);
    RunIfaces(s, actions);
    var t := Run(s, actions);
    assert Faithful(t, i);
    LengthsAgree(t.ifaces[i].drained, t.mem, t.ifaces[i].queue);
  }

  lemma {:induction false} RunIfaces(s: Stack, actions: seq<Action>)
    ensures |Run(s, actions).ifaces| == |s.ifaces|
    decreases |actions|
  {
    if actions != [] {
      RunIfaces(Next(s, actions[0]), actions[1..]);
    }
  }

  lemma {:induction false} LengthsAgree(ds: seq<Drained>, mem: seq<Frame>, q: seq<nat>)
    ensures |BytesOf(ds)| == |ds| && |Contents(mem, q)| == |q|
    decreases |ds| + |q|
  {
    if ds != [] {
      LengthsAgree(ds[1..], mem, q);
    } else if q != [] {
      LengthsAgree(ds, mem, q[1..]);
    }
  }
}
