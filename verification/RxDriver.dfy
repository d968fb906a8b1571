/**
The driver callback eth_input_cb of esp_smoltcp.c as the code runs it when nothing
interrupts it, and the run of protocol steps that it is.
 */
module RxDriver {
  import opened Basics
  import opened RxSlab
  import opened RxConservation
  import opened RxIntegrity

  /** The callback's steps in order; those whose turn does not come change nothing. */
  function Callback(i: nat, buf: seq<Byte>): seq<Action> {
    [DrvAlloc(i, buf), DrvCopy(i), DrvPost(i), DrvSend(i), DrvDrop(i), DrvFree(i)]
  }

  function Filled(mem: seq<Frame>, f: nat, buf: seq<Byte>): seq<Frame>
    requires f < |mem| && |buf| <= |mem[f].data|
  {
    mem[f := Frame(|buf|, buf + mem[f].data[|buf|..])]
  }

  /** What one uninterrupted callback does: refuse, give the frame back on a disabled
      interface or a full queue, or queue it with the driver's bytes in it. */
  function Outcome(s: Stack, i: nat, buf: seq<Byte>): Stack
    requires i < |s.ifaces| && (s.free != [] && |buf| <= FRAME_BUF ==> FrameOk(s.mem, s.free[0]))
  {
    var x := s.ifaces[i];
    if |buf| > FRAME_BUF || s.free == [] then s.(allocFail := Bump(s.allocFail))
    else
      var f, rest, t := s.free[0], s.free[1..], s.(mem := Filled(s.mem, s.free[0], buf));
      if !x.enabled then t.(free := rest + [f])
      else if |x.queue| < s.depth then
        t.(free := rest,
           ifaces := s.ifaces[i := x.(queue := x.queue + [f], rxFrames := Bump(x.rxFrames),
                                      accepted := x.accepted + [buf])])
      else
        t.(free := rest + [f],
           ifaces := s.ifaces[i := x.(rxFrames := Bump(x.rxFrames), rxDrops := Bump(x.rxDrops))])
  }

  lemma RunSix(s: Stack, a: seq<Action>)
    requires |a| == 6
    ensures Run(s, a) == Next(Next(Next(Next(Next(Next(s, a[0]), a[1]), a[2]), a[3]), a[4]), a[5])
  {
    hide Next;
    var s1 := Next(s, a[0]);
    var s2 := Next(s1, a[1]);
    var s3 := Next(s2, a[2]);
    var s4 := Next(s3, a[3]);
    var s5 := Next(s4, a[4]);
    var s6 := Next(s5, a[5]);
    assert Run(s6, a[1..][1..][1..][1..][1..][1..]) == s6;
    assert Run(s4, a[1..][1..][1..][1..]) == Run(s6, a[1..][1..][1..][1..][1..][1..]);
    assert Run(s2, a[1..][1..]) == Run(s4, a[1..][1..][1..][1..]);
  }

  /** The state in mid-callback, the copied frame in the driver's hand. */
  function Copied(s: Stack, i: nat, buf: seq<Byte>): Stack
    requires i < |s.ifaces| && s.free != [] && s.free[0] < |s.mem| && |buf| <= |s.mem[s.free[0]].data|
  {
    s.(mem := Filled(s.mem, s.free[0], buf), free := s.free[1..],
       ifaces := s.ifaces[i := s.ifaces[i].(drv := Driver.Filled(s.free[0], buf))])
  }

  lemma FirstHalf(s: Stack, i: nat, buf: seq<Byte>)
    requires i < |s.ifaces| && s.ifaces[i].drv.Idle? && s.free != [] && FrameOk(s.mem, s.free[0])
    requires |buf| <= FRAME_BUF
    ensures Next(Next(s, DrvAlloc(i, buf)), DrvCopy(i)) == Copied(s, i, buf)
  {
    var s1 := Next(s, DrvAlloc(i, buf));
    var s2 := Next(s1, DrvCopy(i));
    assert s2.ifaces == Copied(s, i, buf).ifaces;
    assert s2.mem == Copied(s, i, buf).mem;
  }

  lemma SecondHalf(s: Stack, i: nat)
    requires i < |s.ifaces| && s.ifaces[i].drv.Filled? && |s.free| < |s.mem|
    ensures var t := Next(Next(Next(Next(s, DrvPost(i)), DrvSend(i)), DrvDrop(i)), DrvFree(i));
            var x := s.ifaces[i].(drv := Idle);
            var f, buf := s.ifaces[i].drv.f, s.ifaces[i].drv.buf;
            t == if !x.enabled then s.(free := s.free + [f], ifaces := s.ifaces[i := x])
                 else if |x.queue| < s.depth then
                   s.(ifaces := s.ifaces[i := x.(queue := x.queue + [f], rxFrames := Bump(x.rxFrames),
                                                 accepted := x.accepted + [buf])])
                 else
                   s.(free := s.free + [f],
                      ifaces := s.ifaces[i := x.(rxFrames := Bump(x.rxFrames), rxDrops := Bump(x.rxDrops))])
  {
    hide Bump;
    var x := s.ifaces[i];
    var s1 := Next(s, DrvPost(i));
    var s2 := Next(s1, DrvSend(i));
    if !x.enabled {
      assert s2 == s.(ifaces := s.ifaces[i := x.(drv := Releasing(x.drv.f))]);
    } else if |x.queue| < s.depth {
      assert s2.ifaces[i].drv == Idle;
      assert s2.ifaces == s.ifaces[i := s2.ifaces[i]];
    } else {
      assert s2 == s.(ifaces := s.ifaces[i := x.(rxFrames := Bump(x.rxFrames), drv := Rejected(x.drv.f))]);
    }
  }

  lemma FreeIsFrame(s: Stack)
    requires Conserved(s) && FramesOk(s.mem) && s.free != []
    ensures FrameOk(s.mem, s.free[0]) && |s.free[1..]| < |s.mem|
  {
    var f := s.free[0];
    assert f in multiset(s.free);
    assert Places(s, f) == Tick(f < |s.mem|);
  }

  lemma Refused(s: Stack, i: nat, buf: seq<Byte>)
    requires i < |s.ifaces| && s.ifaces[i].drv.Idle? && (|buf| > FRAME_BUF || s.free == [])
    ensures Run(s, Callback(i, buf)) == s.(allocFail := Bump(s.allocFail))
  {
    RunSix(s, Callback(i, buf));
    hide Run;
    hide Bump;
    var t := s.(allocFail := Bump(s.allocFail));
    assert Next(s, DrvAlloc(i, buf)) == t;
    NothingInHand(t, i);
    hide Next;
  }

  lemma NothingInHand(s: Stack, i: nat)
    requires i < |s.ifaces| && s.ifaces[i].drv.Idle?
    ensures Next(s, DrvCopy(i)) == Next(s, DrvPost(i)) == Next(s, DrvSend(i)) == s
    ensures Next(s, DrvDrop(i)) == Next(s, DrvFree(i)) == s
  {
  }

  /** An uninterrupted callback is exactly its steps of the protocol. */
  lemma CallbackIs(s: Stack, i: nat, buf: seq<Byte>)
    requires Conserved(s) && FramesOk(s.mem) && i < |s.ifaces| && s.ifaces[i].drv.Idle?
    ensures s.free != [] ==> FrameOk(s.mem, s.free[0])
    ensures Run(s, Callback(i, buf)) == Outcome(s, i, buf)
  {
    if s.free != [] {
      FreeIsFrame(s);
    }
    hide Conserved;
    hide Run;
    hide Next;
    hide Bump;
    if |buf| <= FRAME_BUF && s.free != [] {
      RunSix(s, Callback(i, buf));
      FirstHalf(s, i, buf);
      SecondHalf(Copied(s, i, buf), i);
      var x := s.ifaces[i];
      assert x.(drv := Idle) == x;
      assert s.ifaces[i := x] == s.ifaces;
    } else {
      Refused(s, i, buf);
    }
  }

  /** Exactly when an uninterrupted callback gets its frame queued, when it counts as a drop, and
      when it counts as an allocation failure. Whatever is not queued is back in the free list. */
  lemma CallbackQueuesIff(s: Stack, i: nat, buf: seq<Byte>)
    requires Conserved(s) && FramesOk(s.mem) && i < |s.ifaces| && s.ifaces[i].drv.Idle?
    ensures var t, x := Run(s, Callback(i, buf)), s.ifaces[i];
            var refused := |buf| > 1536 || s.free == [];
            var room := |x.queue| < s.depth;
            && |t.ifaces| == |s.ifaces| && t.ifaces[i].drv == Idle
            && t.ifaces[i].accepted == (if !refused && x.enabled && room then x.accepted + [buf] else x.accepted)
            && |t.ifaces[i].queue| == |x.queue| + Tick(!refused && x.enabled && room)
            && t.ifaces[i].rxFrames == (if !refused && x.enabled then (x.rxFrames + 1) % COUNTER else x.rxFrames)
            && t.ifaces[i].rxDrops == (if !refused && x.enabled && !room then (x.rxDrops + 1) % COUNTER else x.rxDrops)
            && t.allocFail == (if refused then (s.allocFail + 1) % COUNTER else s.allocFail)
            && |t.free| == |s.free| - Tick(!refused && x.enabled && room)
  {
    CallbackIs(s, i, buf);
    hide Conserved;
    hide FramesOk;
    hide Run;
    hide Callback;
  }

  // ----- the code -----

  class FrameStack {
    const depth: nat
    const mem: array<Frame>
    const ifaces: array<Iface>
    var free: seq<nat>
    var allocFail: nat
    ghost var taps: set<nat>
    ghost var poll: Poller

    ghost function State(): Stack
      reads this, mem, ifaces
    {
      Stack(depth, taps, mem[..], free, ifaces[..], poll, allocFail)
    }

    ghost predicate Valid()
      reads this, mem, ifaces
    {
      Conserved(State()) && PollerOk(State()) && AllFaithful(State())
    }

    /** frame_pool_init: every frame is sent to the free list. */
    constructor (depth: nat, frames: nat, n: nat)
      ensures fresh(mem) && fresh(ifaces) && Initial(State()) && Valid()
      ensures this.depth == depth && mem.Length == frames && ifaces.Length == n
    {
      this.depth := depth;
      mem := new Frame[frames](_ => Frame(0, seq(FRAME_BUF, _ => 0)));
      ifaces := new Iface[n](_ => Iface(false, [], Idle, 0, 0, None, [], [], []));
      free, allocFail, taps, poll := [], 0, {}, Sleeping;
      new;
      for k := 0 to frames
        invariant free == UpTo(k) && poll == Sleeping
        invariant forall f :: 0 <= f < frames ==> mem[f] == Frame(0, seq(FRAME_BUF, _ => 0))
        invariant forall i :: 0 <= i < n ==> ifaces[i] == Iface(false, [], Idle, 0, 0, None, [], [], [])
      {
        free := free + [k];
      }
      InitialConserved(State());
      assert forall j :: 0 <= j < n ==> Faithful(State(), j);
    }

    method FrameAlloc(len: nat) returns (f: int)
      requires free != [] && len <= FRAME_BUF ==> FrameOk(mem[..], free[0])
      modifies this`free, this`allocFail, mem
      ensures f == -1 <==> len > FRAME_BUF || old(free) == []
      ensures f == -1 ==> free == old(free) && allocFail == Bump(old(allocFail)) && mem[..] == old(mem[..])
      ensures f != -1 ==> f == old(free)[0] && free == old(free)[1..] && allocFail == old(allocFail)
                          && mem[..] == old(mem[..])[f := old(mem[..])[f].(len := len)]
    {
      if len > FRAME_BUF || free == [] {
        allocFail := (allocFail + 1) % COUNTER;
        return -1;
      }
      f := free[0];
      free := free[1..];
      mem[f] := mem[f].(len := len);
    }

    /** net_frame_free: the queue send is not checked. */
    method FrameFree(f: nat)
      modifies this`free
      ensures free == GiveBack(old(State()), f)
    {
      if |free| < mem.Length {
        free := free + [f];
      }
    }

    /** net_stack_post_rx; `buf` is only recorded. */
    method PostRx(i: nat, f: nat, buf: seq<Byte>)
      requires i < ifaces.Length && |free| < mem.Length
      modifies this`free, ifaces
      ensures var x := old(ifaces[i]);
              var y := x.(rxFrames := Bump(x.rxFrames));
              var queued := x.enabled && |x.queue| < depth;
              && free == (if queued then old(free) else old(free) + [f])
              && ifaces[..] == old(ifaces[..])[i :=
                   if !x.enabled then x
                   else if queued then y.(queue := x.queue + [f], accepted := x.accepted + [buf])
                   else y.(rxDrops := Bump(x.rxDrops))]
    {
      if !ifaces[i].enabled {
        FrameFree(f);
        return;
      }
      ifaces[i] := ifaces[i].(rxFrames := (ifaces[i].rxFrames + 1) % COUNTER);
      if |ifaces[i].queue| < depth {
        ifaces[i] := ifaces[i].(queue := ifaces[i].queue + [f], accepted := ifaces[i].accepted + [buf]);
      } else {
        ifaces[i] := ifaces[i].(rxDrops := (ifaces[i].rxDrops + 1) % COUNTER);
        FrameFree(f);
      }
    }

    /** eth_input_cb is a run of the protocol, so whatever holds after every run holds after it. */
    method InputCb(i: nat, buf: seq<Byte>) returns (ok: bool)
      requires Valid() && i < ifaces.Length && ifaces[i].drv.Idle?
      modifies this`free, this`allocFail, mem, ifaces
      ensures ok <==> |buf| <= FRAME_BUF && old(free) != []
      ensures State() == Run(old(State()), Callback(i, buf)) && Valid()
    {
      ghost var s, a := State(), Callback(i, buf);
      CallbackIs(s, i, buf);
      RunConserves(s, a);
      RunFaithful(s, a);
      var f := FrameAlloc(|buf|);
      ok := f != -1;
      if ok {
        mem[f] := mem[f].(data := buf + mem[f].data[|buf|..]);
        PostRx(i, f, buf);
      }
    }
  }
}
