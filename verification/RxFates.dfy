/**
The fates of the frames that one poll drains, whatever the drivers do and however the tap
table changes in the meantime.
 */
module RxFates {
  import opened Basics
  import opened RxSlab
  import opened RxConservation
  import opened RxIntegrity

  predicate Dispatches(s: Stack, a: Action) { a.PollDispatch? && s.poll.Holding? }

  /** The tap table in force at each dispatch of the run. */
  function TapsSeen(s: Stack, actions: seq<Action>): seq<set<nat>>
    decreases |actions|
  {
    if actions == [] then []
    else (if Dispatches(s, actions[0]) then [s.taps] else []) + TapsSeen(Next(s, actions[0]), actions[1..])
  }

  /** smoltcp is not polled in this part of the run, so it is part of one poll_iface. */
  predicate WithinOnePoll(actions: seq<Action>) {
    forall n :: 0 <= n < |actions| ==> !actions[n].PollSmoltcp?
  }

  function Later(x: Iface, y: Iface, k: nat): Drained
    requires |x.drained| + k < |y.drained|
  {
    y.drained[|x.drained| + k]
  }

  /** From interface state `x` to `y`, with one dispatch for each table of `seen`: one frame was
      drained per dispatch; it was tapped exactly if the table had its EtherType; of the others
      only the first was stored, and only if the inbox was empty; that one is in the inbox. */
  ghost predicate Fates(x: Iface, y: Iface, seen: seq<set<nat>>) {
    && |y.drained| == |x.drained| + |seen| && y.drained[..|x.drained|] == x.drained
    && (forall k :: 0 <= k < |seen| ==> (Later(x, y, k).fate == Tapped <==> TapTakes(seen[k], Later(x, y, k).bytes)))
    && (forall k :: 0 <= k < |seen| ==>
          (Later(x, y, k).fate == Stored <==>
             x.inbox.None? && Later(x, y, k).fate != Tapped && forall j :: 0 <= j < k ==> Later(x, y, j).fate == Tapped))
    && (forall k :: 0 <= k < |seen| && Later(x, y, k).fate == Stored ==> y.inbox == Some(Later(x, y, k).bytes))
    && ((forall k :: 0 <= k < |seen| ==> Later(x, y, k).fate != Stored) ==> y.inbox == x.inbox)
  }

  /** What a dispatch adds keeps the description. */
  lemma OneMore(x: Iface, y: Iface, z: Iface, seen: seq<set<nat>>, taps: set<nat>, bytes: seq<Byte>)
    requires Fates(x, y, seen)
    requires var fate := if TapTakes(taps, bytes) then Tapped else if y.inbox.None? then Stored else Dropped;
             && z.drained == y.drained + [Drained(bytes, fate)]
             && z.inbox == if fate == Stored then Some(bytes) else y.inbox
    ensures Fates(x, z, seen + [taps])
  {
    var n := |seen|;
    forall k | 0 <= k < n
      ensures Later(x, z, k) == Later(x, y, k)
    {
    }
    assert Later(x, z, n) == z.drained[|y.drained|];
    if x.inbox.None? && !forall j :: 0 <= j < n ==> Later(x, y, j).fate == Tapped {
      FirstIsStored(x, y, seen, n);
    }
  }

  /** If some frame was not tapped, the first such frame was stored in the empty inbox. */
  lemma {:induction false} FirstIsStored(x: Iface, y: Iface, seen: seq<set<nat>>, n: nat)
    requires Fates(x, y, seen) && x.inbox.None? && n <= |seen|
    requires !forall j :: 0 <= j < n ==> Later(x, y, j).fate == Tapped
    ensures exists k :: 0 <= k < n && Later(x, y, k).fate == Stored
  {
    if forall j :: 0 <= j < n - 1 ==> Later(x, y, j).fate == Tapped {
      assert Later(x, y, n - 1).fate == Stored;
    } else {
      FirstIsStored(x, y, seen, n - 1);
    }
  }

  lemma HeldIsFrame(s: Stack)
    requires Conserved(s) && s.poll.Holding?
    ensures s.poll.f < |s.mem|
  {
    assert Places(s, s.poll.f) == Tick(s.poll.f < |s.mem|);
  }

  predicate InPoll(s: Stack, i: nat) {
    !s.poll.Sleeping? && s.poll.i == i < |s.ifaces|
  }

  lemma StepFates(x: Iface, s: Stack, a: Action, i: nat, seen: seq<set<nat>>)
    requires Conserved(s) && FramesOk(s.mem) && InPoll(s, i) && !a.PollSmoltcp?
    requires Fates(x, s.ifaces[i], seen)
    ensures InPoll(Next(s, a), i)
    ensures Fates(x, Next(s, a).ifaces[i], seen + if Dispatches(s, a) then [s.taps] else [])
  {
    var y, z := s.ifaces[i], Next(s, a).ifaces[i];
    if Dispatches(s, a) {
      HeldIsFrame(s);
      hide Conserved;
      hide TapTakes;
      hide Fates;
      OneMore(x, y, z, seen, s.taps, Bytes(s.mem, s.poll.f));
    } else {
      hide Conserved;
      assert seen + [] == seen;
      assert z.drained == y.drained && z.inbox == y.inbox;
    }
  }

  lemma {:induction false} RunFates(x: Iface, s: Stack, actions: seq<Action>, i: nat, seen: seq<set<nat>>)
    requires Conserved(s) && PollerOk(s) && AllFaithful(s) && InPoll(s, i) && WithinOnePoll(actions)
    requires Fates(x, s.ifaces[i], seen)
    ensures InPoll(Run(s, actions), i)
    ensures Fates(x, Run(s, actions).ifaces[i], seen + TapsSeen(s, actions))
    decreases |actions|
  {
    hide Fates;
    if actions == [] {
      assert seen + [] == seen;
    } else {
      var a, rest := actions[0], actions[1..];
      StepFates(x, s, a, i, seen);
      NextConserves(s, a);
      NextFaithful(s, a);
      hide Conserved;
      hide AllFaithful;
      hide Next;
      var more := if Dispatches(s, a) then [s.taps] else [];
      RunFates(x, Next(s, a), rest, i, seen + more);
      assert seen + more + TapsSeen(Next(s, a), rest) == seen + TapsSeen(s, actions);
    }
  }

  /** At any moment of any run from start-up, the fates of the frames drained since the poll of
      interface `i` began to drain, or since any later moment of that poll. */
  lemma FatesOfOnePoll(s: Stack, before: seq<Action>, during: seq<Action>, i: nat)
    requires Initial(s) && Run(s, before).poll == Draining(i) && WithinOnePoll(during)
    ensures var b := Run(s, before);
            var t := Run(b, during);
            i < |b.ifaces| && i < |t.ifaces| && Fates(b.ifaces[i], t.ifaces[i], TapsSeen(b, during))
  {
    hide Run;
    hide TapsSeen;
    InitialConserved(s);
    assert forall j :: 0 <= j < |s.ifaces| ==> Faithful(s, j);
    RunConserves(s, before);
    RunFaithful(s, before);
    hide Conserved;
    hide AllFaithful;
    var b := Run(s, before);
    assert Fates(b.ifaces[i], b.ifaces[i], []);
    RunFates(b.ifaces[i], b, during, i, []);
    assert [] + TapsSeen(b, during) == TapsSeen(b, during);
  }

  // ----- a poll drains what it found -----

  /** Histories only grow. */
  predicate Grown(x: Iface, y: Iface) {
    |x.accepted| <= |y.accepted| && |x.drained| <= |y.drained|
  }

  lemma StepGrows(s: Stack, a: Action, i: nat)
    requires i < |s.ifaces|
    ensures i < |Next(s, a).ifaces| && Grown(s.ifaces[i], Next(s, a).ifaces[i])
  {
  }

  lemma {:induction false} RunGrows(s: Stack, actions: seq<Action>, i: nat)
    requires i < |s.ifaces|
    ensures i < |Run(s, actions).ifaces| && Grown(s.ifaces[i], Run(s, actions).ifaces[i])
    decreases |actions|
  {
    hide Next;
    if actions != [] {
      StepGrows(s, actions[0], i);
      RunGrows(Next(s, actions[0]), actions[1..], i);
    }
  }

  /** A poll is left only through the smoltcp poll, and only with everything accepted drained. */
  lemma LeavesDrained(s: Stack, a: Action, i: nat)
    requires AllFaithful(s) && InPoll(s, i) && !InPoll(Next(s, a), i)
    ensures |s.ifaces[i].drained| == |s.ifaces[i].accepted|
  {
    assert a.PollSmoltcp? && s.poll == Draining(i) && s.ifaces[i].queue == [];
    hide Next;
    assert Faithful(s, i);
    LengthsAgree(s.ifaces[i].drained, s.mem, s.ifaces[i].queue);
  }

  lemma {:induction false} PollDrains(s: Stack, actions: seq<Action>, i: nat, n: nat)
    requires Conserved(s) && PollerOk(s) && AllFaithful(s) && InPoll(s, i) && n <= |s.ifaces[i].accepted|
    ensures var t := Run(s, actions); i < |t.ifaces| && (InPoll(t, i) || n <= |t.ifaces[i].drained|)
    decreases |actions|
  {
    if actions != [] {
      var a, rest := actions[0], actions[1..];
      var t := Next(s, a);
      StepGrows(s, a, i);
      if InPoll(t, i) {
        NextConserves(s, a);
        NextFaithful(s, a);
        hide Conserved;
        hide AllFaithful;
        hide Next;
        PollDrains(t, rest, i, n);
      } else {
        LeavesDrained(s, a, i);
        hide Conserved;
        hide AllFaithful;
        hide Next;
        RunGrows(t, rest, i);
      }
    }
  }

  /** In any run from start-up: once the poll task has left the poll of an interface, every frame
      that was accepted before that poll began to drain has been drained. */
  lemma EachPollDrainsAll(s: Stack, before: seq<Action>, during: seq<Action>, i: nat)
    requires Initial(s) && Run(s, before).poll == Draining(i) && Run(Run(s, before), during).poll.Sleeping?
    ensures var b := Run(s, before);
            var t := Run(b, during);
            i < |b.ifaces| && i < |t.ifaces| && |b.ifaces[i].accepted| <= |t.ifaces[i].drained|
  {
    hide Run;
    InitialConserved(s);
    assert forall j :: 0 <= j < |s.ifaces| ==> Faithful(s, j);
    RunConserves(s, before);
    RunFaithful(s, before);
    hide Conserved;
    hide AllFaithful;
    var b := Run(s, before);
    PollDrains(b, during, i, |b.ifaces[i].accepted|);
  }
}
