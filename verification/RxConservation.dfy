/** In every interleaving each slab frame is in exactly one place. */
module RxConservation {
  import opened Basics
  import opened RxSlab

  // ----- how many places hold a frame, and how many frames are held -----

  predicate DriverHolds(d: Driver, f: nat) { !d.Idle? && d.f == f }

  predicate PollerHolds(p: Poller, f: nat) { (p.Holding? || p.Done?) && p.f == f }

  function InIface(x: Iface, f: nat): nat {
    multiset(x.queue)[f] + Tick(DriverHolds(x.drv, f))
  }

  function InIfaces(xs: seq<Iface>, f: nat): nat {
    if xs == [] then 0 else InIface(xs[0], f) + InIfaces(xs[1..], f)
  }

  function Places(s: Stack, f: nat): nat {
    multiset(s.free)[f] + InIfaces(s.ifaces, f) + Tick(PollerHolds(s.poll, f))
  }

  function IfaceSize(x: Iface): nat { |x.queue| + Tick(!x.drv.Idle?) }

  function IfacesSize(xs: seq<Iface>): nat {
    if xs == [] then 0 else IfaceSize(xs[0]) + IfacesSize(xs[1..])
  }

  function Total(s: Stack): nat {
    |s.free| + IfacesSize(s.ifaces) + Tick(s.poll.Holding? || s.poll.Done?)
  }

  lemma {:induction false} InIfacesUpdate(xs: seq<Iface>, i: nat, x: Iface, f: nat)
    requires i < |xs|
    ensures InIfaces(xs[i := x], f) == InIfaces(xs, f) - InIface(xs[i], f) + InIface(x, f)
    ensures InIface(xs[i], f) <= InIfaces(xs, f)
  {
    if i == 0 {
      assert xs[i := x][1..] == xs[1..];
    } else {
      InIfacesUpdate(xs[1..], i - 1, x, f);
      assert xs[i := x][1..] == xs[1..][i - 1 := x];
    }
  }

  lemma {:induction false} IfacesSizeUpdate(xs: seq<Iface>, i: nat, x: Iface)
    requires i < |xs|
    ensures IfacesSize(xs[i := x]) == IfacesSize(xs) - IfaceSize(xs[i]) + IfaceSize(x)
    ensures IfaceSize(xs[i]) <= IfacesSize(xs)
  {
    if i == 0 {
      assert xs[i := x][1..] == xs[1..];
    } else {
      IfacesSizeUpdate(xs[1..], i - 1, x);
      assert xs[i := x][1..] == xs[1..][i - 1 := x];
    }
  }

  lemma PopCount(q: seq<nat>, f: nat)
    requires q != []
    ensures multiset(q)[f] == Tick(q[0] == f) + multiset(q[1..])[f]
  {
    assert q == [q[0]] + q[1..];
  }

  lemma PushCount(q: seq<nat>, g: nat, f: nat)
    ensures multiset(q + [g])[f] == multiset(q)[f] + Tick(g == f)
  {
  }

  // ----- the invariant -----

  ghost predicate Conserved(s: Stack) {
    && Total(s) == |s.mem|
    && forall f: nat :: Places(s, f) == Tick(f < |s.mem|)
  }

  /** Neither side can be holding a frame while the free list is full. */
  lemma FreeListHasRoom(s: Stack, i: nat)
    requires Conserved(s)
    ensures s.poll.Holding? || s.poll.Done? ==> |s.free| < |s.mem|
    ensures i < |s.ifaces| && !s.ifaces[i].drv.Idle? ==> |s.free| < |s.mem|
  {
    if i < |s.ifaces| {
      IfacesSizeUpdate(s.ifaces, i, s.ifaces[i]);
    }
  }

  /** A step that only rearranges what interface `i`, the free list and the poll task hold. */
  lemma Rearranged(s: Stack, t: Stack, i: nat, x: Iface)
    requires Conserved(s) && i < |s.ifaces| && |t.mem| == |s.mem| && t.ifaces == s.ifaces[i := x]
    requires |t.free| + IfaceSize(x) + Tick(t.poll.Holding? || t.poll.Done?)
             == |s.free| + IfaceSize(s.ifaces[i]) + Tick(s.poll.Holding? || s.poll.Done?)
    requires forall f: nat :: multiset(t.free)[f] + InIface(x, f) + Tick(PollerHolds(t.poll, f))
                       == multiset(s.free)[f] + InIface(s.ifaces[i], f) + Tick(PollerHolds(s.poll, f))
    ensures Conserved(t)
  {
    IfacesSizeUpdate(s.ifaces, i, x);
    forall f: nat
      ensures Places(t, f) == Tick(f < |t.mem|)
    {
      assert Places(s, f) == Tick(f < |s.mem|);
      InIfacesUpdate(s.ifaces, i, x, f);
    }
  }

  /** The same, where only the interface changes and keeps what it holds. */
  lemma SameHoldings(s: Stack, t: Stack, i: nat, x: Iface)
    requires Conserved(s) && i < |s.ifaces| && |t.mem| == |s.mem| && t.ifaces == s.ifaces[i := x]
    requires t.free == s.free && x.queue == s.ifaces[i].queue
    requires if x.drv.Idle? then s.ifaces[i].drv.Idle? else !s.ifaces[i].drv.Idle? && s.ifaces[i].drv.f == x.drv.f
    requires if s.poll.Holding? || s.poll.Done? then (t.poll.Holding? || t.poll.Done?) && t.poll.f == s.poll.f
             else !t.poll.Holding? && !t.poll.Done?
    ensures Conserved(t)
  {
    hide Conserved;
    Rearranged(s, t, i, x);
  }

  lemma AllocKeeps(s: Stack, i: nat, buf: seq<Byte>)
    requires Conserved(s) && i < |s.ifaces| && s.ifaces[i].drv.Idle?
    ensures Conserved(DoAlloc(s, i, buf))
  {
    var t := DoAlloc(s, i, buf);
    if t.mem == s.mem && t.free == s.free && t.ifaces == s.ifaces {
      assert forall f: nat :: Places(t, f) == Places(s, f);
    } else {
      hide Conserved;
      forall f: nat
        ensures multiset(t.free)[f] + InIface(t.ifaces[i], f) == multiset(s.free)[f] + InIface(s.ifaces[i], f)
      {
        PopCount(s.free, f);
      }
      Rearranged(s, t, i, t.ifaces[i]);
    }
  }

  lemma SendKeeps(s: Stack, i: nat)
    requires Conserved(s) && i < |s.ifaces| && s.ifaces[i].drv.Counted?
    ensures Conserved(DoSend(s, i))
  {
    hide Conserved;
    var t, x := DoSend(s, i), s.ifaces[i];
    forall f: nat
      ensures InIface(t.ifaces[i], f) == InIface(x, f)
    {
      PushCount(x.queue, x.drv.f, f);
    }
    Rearranged(s, t, i, t.ifaces[i]);
  }

  lemma DriverFreeKeeps(s: Stack, i: nat)
    requires Conserved(s) && i < |s.ifaces| && s.ifaces[i].drv.Releasing?
    ensures Conserved(Next(s, DrvFree(i)))
  {
    FreeListHasRoom(s, i);
    hide Conserved;
    var t, x := Next(s, DrvFree(i)), s.ifaces[i];
    forall f: nat
      ensures multiset(t.free)[f] + InIface(t.ifaces[i], f) == multiset(s.free)[f] + InIface(x, f)
    {
      PushCount(s.free, x.drv.f, f);
    }
    Rearranged(s, t, i, t.ifaces[i]);
  }

  lemma DriverKeeps(s: Stack, a: Action)
    requires Conserved(s) && (a.DrvAlloc? || a.DrvCopy? || a.DrvPost? || a.DrvSend? || a.DrvDrop? || a.DrvFree?)
    ensures Conserved(Next(s, a))
  {
    hide Conserved;
    if a.i < |s.ifaces| && Next(s, a) != s {
      if a.DrvAlloc? {
        AllocKeeps(s, a.i, a.buf);
      } else if a.DrvSend? {
        SendKeeps(s, a.i);
      } else if a.DrvFree? {
        DriverFreeKeeps(s, a.i);
      } else {
        SameHoldings(s, Next(s, a), a.i, Next(s, a).ifaces[a.i]);
      }
    }
  }

  lemma PollTakeKeeps(s: Stack)
    requires Conserved(s) && s.poll.Draining? && s.poll.i < |s.ifaces| && s.ifaces[s.poll.i].queue != []
    ensures Conserved(Next(s, PollTake))
  {
    hide Conserved;
    var t, i, x := Next(s, PollTake), s.poll.i, s.ifaces[s.poll.i];
    forall f: nat
      ensures InIface(t.ifaces[i], f) + Tick(PollerHolds(t.poll, f)) == InIface(x, f) + Tick(PollerHolds(s.poll, f))
    {
      PopCount(x.queue, f);
    }
    Rearranged(s, t, i, t.ifaces[i]);
  }

  lemma PollFreeKeeps(s: Stack)
    requires Conserved(s) && s.poll.Done? && s.poll.i < |s.ifaces|
    ensures Conserved(Next(s, PollFree))
  {
    FreeListHasRoom(s, s.poll.i);
    hide Conserved;
    var t, i, x := Next(s, PollFree), s.poll.i, s.ifaces[s.poll.i];
    forall f: nat
      ensures multiset(t.free)[f] + Tick(PollerHolds(t.poll, f)) == multiset(s.free)[f] + Tick(PollerHolds(s.poll, f))
    {
      PushCount(s.free, s.poll.f, f);
    }
    assert s.ifaces[i := x] == s.ifaces;
    Rearranged(s, t, i, x);
  }

  lemma PollerKeeps(s: Stack, a: Action)
    requires Conserved(s) && (a.PollTake? || a.PollDispatch? || a.PollFree? || a.PollSmoltcp?)
    requires !s.poll.Sleeping? ==> s.poll.i < |s.ifaces|
    ensures Conserved(Next(s, a))
  {
    hide Conserved;
    if Next(s, a) != s {
      if a.PollTake? {
        PollTakeKeeps(s);
      } else if a.PollFree? {
        PollFreeKeeps(s);
      } else {
        SameHoldings(s, Next(s, a), s.poll.i, Next(s, a).ifaces[s.poll.i]);
      }
    }
  }

  predicate PollerOk(s: Stack) {
    !s.poll.Sleeping? ==> s.poll.i < |s.ifaces|
  }

  lemma NextConserves(s: Stack, a: Action)
    requires Conserved(s) && PollerOk(s)
    ensures Conserved(Next(s, a)) && PollerOk(Next(s, a))
    ensures |Next(s, a).mem| == |s.mem| && |Next(s, a).ifaces| == |s.ifaces|
  {
    hide Conserved;
    if a.DrvAlloc? || a.DrvCopy? || a.DrvPost? || a.DrvSend? || a.DrvDrop? || a.DrvFree? {
      DriverKeeps(s, a);
    } else if a.PollTake? || a.PollDispatch? || a.PollFree? || a.PollSmoltcp? {
      PollerKeeps(s, a);
    } else {
      QuietKeeps(s, a);
    }
  }

  lemma QuietKeeps(s: Stack, a: Action)
    requires Conserved(s) && (a.Enable? || a.SetTaps? || a.PollStart?)
    ensures Conserved(Next(s, a))
  {
    if a.Enable? && a.i < |s.ifaces| {
      SameHoldings(s, Next(s, a), a.i, s.ifaces[a.i].(enabled := true));
    } else {
      assert forall f: nat :: Places(Next(s, a), f) == Places(s, f);
    }
  }

  lemma {:induction false} UpToCount(n: nat, f: nat)
    ensures multiset(UpTo(n))[f] == Tick(f < n) && |UpTo(n)| == n
  {
    if n > 0 {
      UpToCount(n - 1, f);
    }
  }

  lemma {:induction false} NothingInIfaces(xs: seq<Iface>, f: nat)
    requires forall i :: 0 <= i < |xs| ==> xs[i].queue == [] && xs[i].drv == Idle
    ensures InIfaces(xs, f) == 0 && IfacesSize(xs) == 0
  {
    if xs != [] {
      NothingInIfaces(xs[1..], f);
    }
  }

  lemma InitialConserved(s: Stack)
    requires Initial(s)
    ensures Conserved(s) && PollerOk(s)
  {
    NothingInIfaces(s.ifaces, 0);
    UpToCount(|s.mem|, 0);
    forall f: nat
      ensures Places(s, f) == Tick(f < |s.mem|)
    {
      NothingInIfaces(s.ifaces, f);
      UpToCount(|s.mem|, f);
    }
  }

  lemma {:induction false} RunConserves(s: Stack, actions: seq<Action>)
    requires Conserved(s) && PollerOk(s)
    ensures Conserved(Run(s, actions)) && PollerOk(Run(s, actions))
    ensures |Run(s, actions).mem| == |s.mem|
    decreases |actions|
  {
    hide Next;
    if actions != [] {
      NextConserves(s, actions[0]);
      RunConserves(Next(s, actions[0]), actions[1..]);
    }
  }

  /** From start-up, after any interleaving: every frame is in exactly one place, and
      whoever is about to give a frame back finds room for it. */
  lemma EveryFrameInOnePlace(s: Stack, actions: seq<Action>, f: nat, i: nat)
    requires Initial(s)
    ensures var t := Run(s, actions);
            && Places(t, f) == Tick(f < |s.mem|)
            && (t.poll.Done? ==> GiveBack(t, t.poll.f) == t.free + [t.poll.f])
            && (i < |t.ifaces| && t.ifaces[i].drv.Releasing? ==>
                  GiveBack(t, t.ifaces[i].drv.f) == t.free + [t.ifaces[i].drv.f])
  {
    hide Run;
    InitialConserved(s);
    RunConserves(s, actions);
    FreeListHasRoom(Run(s, actions), i);
  }
}
