/**
poll_iface of esp_smoltcp.c: the whole RX queue is drained, through the tap table, into the
one-frame inbox before smoltcp is polled once; then the IP state is compared and reported.
 */
module PollTask {
  import opened Basics
  import opened RxSlab
  import opened RxConservation
  import opened RxIntegrity
  import TapTable
  import opened IfaceConfig

  // ----- a drain as a whole -----

  function FateOf(taps: set<nat>, inbox: Option<seq<Byte>>, bytes: seq<Byte>): Fate {
    if TapTakes(taps, bytes) then Tapped else if inbox.None? then Stored else Dropped
  }

  function InboxAfter(taps: set<nat>, inbox: Option<seq<Byte>>, frames: seq<seq<Byte>>): Option<seq<Byte>>
    decreases |frames|
  {
    if frames == [] then inbox
    else InboxAfter(taps, if FateOf(taps, inbox, frames[0]) == Stored then Some(frames[0]) else inbox, frames[1..])
  }

  function DrainOf(taps: set<nat>, inbox: Option<seq<Byte>>, frames: seq<seq<Byte>>): (ds: seq<Drained>)
    ensures |ds| == |frames|
    decreases |frames|
  {
    if frames == [] then []
    else
      var fate := FateOf(taps, inbox, frames[0]);
      [Drained(frames[0], fate)] + DrainOf(taps, if fate == Stored then Some(frames[0]) else inbox, frames[1..])
  }

  /** Frame by frame: a tap takes what it matches; of the rest only the first gets into an
      empty inbox, and everything else is dropped. */
  lemma {:induction false} DrainKeepsOldest(taps: set<nat>, inbox: Option<seq<Byte>>, frames: seq<seq<Byte>>, k: nat)
    requires k < |frames|
    ensures var d := DrainOf(taps, inbox, frames)[k];
            && d.bytes == frames[k]
            && (d.fate == Tapped <==> TapTakes(taps, frames[k]))
            && (d.fate == Stored <==> inbox.None? && !TapTakes(taps, frames[k])
                                      && forall j :: 0 <= j < k ==> TapTakes(taps, frames[j]))
    decreases |frames|
  {
    if k > 0 {
      var rest := frames[1..];
      var fate := FateOf(taps, inbox, frames[0]);
      DrainKeepsOldest(taps, if fate == Stored then Some(frames[0]) else inbox, rest, k - 1);
      assert forall j :: 0 <= j < k - 1 ==> rest[j] == frames[j + 1];
      assert (forall j :: 0 <= j < k ==> TapTakes(taps, frames[j]))
             <==> TapTakes(taps, frames[0]) && forall j :: 0 <= j < k - 1 ==> TapTakes(taps, rest[j]);
    }
  }

  // ----- the same drain, step by step in the protocol -----

  function Cycles(n: nat): seq<Action> {
    if n == 0 then [] else [PollTake, PollDispatch, PollFree] + Cycles(n - 1)
  }

  /** One frame: taken, dispatched and freed. */
  function OneCycle(s: Stack, i: nat): Stack
    requires i < |s.ifaces| && s.ifaces[i].queue != []
  {
    var x := s.ifaces[i];
    var bytes := Bytes(s.mem, x.queue[0]);
    var fate := FateOf(s.taps, x.inbox, bytes);
    s.(free := s.free + [x.queue[0]],
       ifaces := s.ifaces[i := x.(queue := x.queue[1..], drained := x.drained + [Drained(bytes, fate)],
                                  inbox := if fate == Stored then Some(bytes) else x.inbox)])
  }

  lemma CycleIs(s: Stack, i: nat)
    requires Conserved(s) && FramesOk(s.mem) && s.poll == Draining(i) && i < |s.ifaces| && s.ifaces[i].queue != []
    ensures Next(Next(Next(s, PollTake), PollDispatch), PollFree) == OneCycle(s, i)
  {
    var f := s.ifaces[i].queue[0];
    QueuedIsFrame(s, i);
    PollTakeKeeps(s);
    var s1 := Next(s, PollTake);
    FreeListHasRoom(s1, i);
    hide Conserved;
    assert FrameOk(s.mem, f);
    var s2 := Next(s1, PollDispatch);
    assert s2.poll == Done(i, f);
    assert s1.ifaces[i := s2.ifaces[i]] == s.ifaces[i := s2.ifaces[i]];
  }

  lemma QueuedIsFrame(s: Stack, i: nat)
    requires Conserved(s) && i < |s.ifaces| && s.ifaces[i].queue != []
    ensures s.ifaces[i].queue[0] < |s.mem|
  {
    var f := s.ifaces[i].queue[0];
    assert f in multiset(s.ifaces[i].queue);
    assert Places(s, f) == Tick(f < |s.mem|);
    InIfacesUpdate(s.ifaces, i, s.ifaces[i], f);
  }

  lemma RunThree(s: Stack, rest: seq<Action>)
    ensures Run(s, [PollTake, PollDispatch, PollFree] + rest)
            == Run(Next(Next(Next(s, PollTake), PollDispatch), PollFree), rest)
  {
    hide Next;
    var a := [PollTake, PollDispatch, PollFree] + rest;
    var s1 := Next(s, PollTake);
    var s2 := Next(s1, PollDispatch);
    assert a[1..][1..][1..] == rest;
    assert Run(s2, a[1..][1..]) == Run(Next(s2, PollFree), rest);
    assert Run(s1, a[1..]) == Run(s2, a[1..][1..]);
  }

  /** Draining a queue of n frames in n cycles empties it, frees the frames in order, and gives
      them the fates of the whole drain. */
  lemma {:induction false} DrainRun(s: Stack, i: nat)
    requires Conserved(s) && PollerOk(s) && FramesOk(s.mem) && s.poll == Draining(i) && i < |s.ifaces|
    ensures var x := s.ifaces[i];
            var frames := Contents(s.mem, x.queue);
            Run(s, Cycles(|x.queue|)) ==
            s.(free := s.free + x.queue,
               ifaces := s.ifaces[i := x.(queue := [], drained := x.drained + DrainOf(s.taps, x.inbox, frames),
                                          inbox := InboxAfter(s.taps, x.inbox, frames))])
    decreases |s.ifaces[i].queue|
  {
    var x := s.ifaces[i];
    if x.queue == [] {
      assert s.free + x.queue == s.free && x.drained + [] == x.drained;
      assert s.ifaces[i := x] == s.ifaces;
    } else {
      var t := OneCycle(s, i);
      CycleIs(s, i);
      CycleConserves(s);
      RunThree(s, Cycles(|x.queue| - 1));
      hide Conserved;
      hide Next;
      DrainRun(t, i);
      DrainJoins(s, i);
    }
  }

  lemma CycleConserves(s: Stack)
    requires Conserved(s) && PollerOk(s)
    ensures Conserved(Next(Next(Next(s, PollTake), PollDispatch), PollFree))
    ensures PollerOk(Next(Next(Next(s, PollTake), PollDispatch), PollFree))
  {
    hide Conserved;
    hide PollerOk;
    hide Next;
    NextConserves(s, PollTake);
    NextConserves(Next(s, PollTake), PollDispatch);
    NextConserves(Next(Next(s, PollTake), PollDispatch), PollFree);
  }

  lemma DrainJoins(s: Stack, i: nat)
    requires i < |s.ifaces| && s.ifaces[i].queue != []
    ensures var x, t := s.ifaces[i], OneCycle(s, i);
            var y := t.ifaces[i];
            var frames, rest := Contents(s.mem, x.queue), Contents(t.mem, y.queue);
            && t.free + y.queue == s.free + x.queue
            && y.drained + DrainOf(t.taps, y.inbox, rest) == x.drained + DrainOf(s.taps, x.inbox, frames)
            && InboxAfter(t.taps, y.inbox, rest) == InboxAfter(s.taps, x.inbox, frames)
  {
    var x := s.ifaces[i];
    var frames := Contents(s.mem, x.queue);
    assert frames[1..] == Contents(s.mem, x.queue[1..]);
  }

  // ----- the loop as it runs -----

  /** `((uint16_t)f->data[12] << 8) | f->data[13]`. */
  function EtherType(bytes: seq<Byte>): nat
    requires |bytes| >= 14
  {
    var hi: int := bytes[12];
    hi * 256 + bytes[13]
  }

  lemma EtherTypeCarried(bytes: seq<Byte>, et: nat)
    requires |bytes| >= 14 && et == EtherType(bytes)
    ensures Carries(bytes, et) && forall other: nat :: Carries(bytes, other) ==> other == et
  {
    assert bytes[12..14] == [bytes[12], bytes[13]];
    assert U16(et) == [bytes[12], bytes[13]];
    forall other: nat | Carries(bytes, other)
      ensures other == et
    {
      assert U16(other)[0] == bytes[12] && U16(other)[1] == bytes[13];
    }
  }

  class NetIface {
    const taps: TapTable.Taps
    var rxQueue: seq<seq<Byte>>
    var inbox: Option<seq<Byte>>
    var ipUp: bool
    var ipBit: bool
    ghost var drained: seq<Drained>
    ghost var events: seq<IpEvent>

    ghost predicate Valid()
      reads this
    {
      WatchOk(Watch(ipUp, ipBit, events))
    }

    constructor (taps: TapTable.Taps)
      ensures Valid() && this.taps == taps && rxQueue == [] && inbox == None && drained == [] && events == []
    {
      this.taps := taps;
      rxQueue, inbox, ipUp, ipBit := [], None, false, false;
      drained, events := [], [];
    }

    /** `hasIp` is what the core reports after the smoltcp poll, `takes` whether that poll
        emptied the inbox. */
    method PollIface(hasIp: bool, takes: bool)
      requires Valid()
      modifies this
      ensures Valid() && rxQueue == [] && ipUp == ipBit == hasIp
      ensures Watch(ipUp, ipBit, events) == Observe(old(Watch(ipUp, ipBit, events)), hasIp)
      ensures var keys := TapTable.Keys(taps.slots[..]);
              && drained == old(drained) + DrainOf(keys, old(inbox), old(rxQueue))
              && inbox == if takes then None else InboxAfter(keys, old(inbox), old(rxQueue))
    {
      ghost var keys := TapTable.Keys(taps.slots[..]);
      ghost var w := Watch(ipUp, ipBit, events);
      hide TapTable.Keys;
      ObserveKeeps(w, hasIp);
      while rxQueue != []
        invariant Watch(ipUp, ipBit, events) == w
        invariant drained + DrainOf(keys, inbox, rxQueue) == old(drained) + DrainOf(keys, old(inbox), old(rxQueue))
        invariant InboxAfter(keys, inbox, rxQueue) == InboxAfter(keys, old(inbox), old(rxQueue))
        decreases |rxQueue|
      {
        var f := rxQueue[0];
        rxQueue := rxQueue[1..];
        ghost var fate := FateOf(keys, inbox, f);
        var tapped := DispatchTap(f);
        if !tapped && inbox.None? {
          inbox := Some(f);
        }
        drained := drained + [Drained(f, fate)];
      }
      if takes {
        inbox := None;
      }
      var wasUp := ipUp;
      ipUp := hasIp;
      if ipUp != wasUp {
        events := events + [if ipUp then GotIp else LostIp];
        ipBit := ipUp;
      }
    }

    /** dispatch_tap: only frames with a full Ethernet header are looked at. */
    method DispatchTap(f: seq<Byte>) returns (tapped: bool)
      ensures tapped == TapTakes(TapTable.Keys(taps.slots[..]), f)
    {
      if |f| < 14 {
        return false;
      }
      var et := EtherType(f);
      EtherTypeCarried(f, et);
      var h := taps.DispatchTap(et);
      TapTable.DispatchesKeys(taps.slots[..], et);
      tapped := h.Some?;
    }
  }
}
