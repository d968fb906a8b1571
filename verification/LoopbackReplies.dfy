/**
What the callers of the loopback see, against what its queues record: each datagram that a
sendto reported as accepted is returned by one recvfrom, or freed, or still queued.
 */
module LoopbackReplies {
  import opened Basics
  import opened Loopback

  // ----- the replies of a run -----

  /** A datagram as recvfrom returned it into a buffer of `cap` bytes. */
  datatype Copy = Copy(msg: Msg, cap: nat, bytes: seq<Byte>)

  /** Entry `j` is the receiver of this sendto, which reports success. */
  predicate Delivers(s: Lo, c: Call, j: nat) {
    && c.SendTo? && Step(s, c).1.Done?
    && Find(s.slots, c.dstPort) < |s.slots| && s.slots[Find(s.slots, c.dstPort)].fd == j
  }

  function SentNow(s: Lo, c: Call, j: nat): seq<Msg> {
    if Delivers(s, c, j) && c.i < |s.table| then [Msg(s.table[c.i].localIp, s.table[c.i].localPort, c.data)] else []
  }

  function CopiedNow(s: Lo, c: Call, j: nat): seq<Copy> {
    if c.RecvFrom? && c.i == j && Step(s, c).1.Received? then [Copy(Step(s, c).1.msg, c.cap, Step(s, c).1.bytes)]
    else []
  }

  /** The datagrams that the run's sends got accepted for entry `j`, in order. */
  function SentTo(s: Lo, calls: seq<Call>, j: nat): seq<Msg>
    decreases |calls|
  {
    if calls == [] then [] else SentNow(s, calls[0], j) + SentTo(Step(s, calls[0]).0, calls[1..], j)
  }

  /** What the run's receives on entry `j` returned, in order. */
  function CopiedAt(s: Lo, calls: seq<Call>, j: nat): seq<Copy>
    decreases |calls|
  {
    if calls == [] then [] else CopiedNow(s, calls[0], j) + CopiedAt(Step(s, calls[0]).0, calls[1..], j)
  }

  function Msgs(cs: seq<Copy>): seq<Msg> {
    if cs == [] then [] else [cs[0].msg] + Msgs(cs[1..])
  }

  lemma {:induction false} MsgsJoin(a: seq<Copy>, b: seq<Copy>)
    ensures Msgs(a + b) == Msgs(a) + Msgs(b)
  {
    if a == [] {
      assert a + b == b;
    } else {
      assert (a + b)[1..] == a[1..] + b;
      MsgsJoin(a[1..], b);
    }
  }

  // ----- the histories of an entry, over all its lives -----

  datatype History = History(sent: seq<Msg>, got: seq<Msg>, freed: seq<Msg>)

  function Join(a: History, b: History): History {
    History(a.sent + b.sent, a.got + b.got, a.freed + b.freed)
  }

  function OfClosed(closed: seq<Closed>, j: nat): History {
    if closed == [] then History([], [], [])
    else
      var last := closed[|closed| - 1];
      Join(OfClosed(closed[..|closed| - 1], j),
           if last.fd == j then History(last.sent, last.got, last.freed) else History([], [], []))
  }

  function Queued(s: Lo, j: nat): seq<Msg> {
    if j < |s.table| && s.table[j].rx.Some? then s.table[j].rx.value.msgs else []
  }

  function OfEntry(s: Lo, j: nat): History {
    if j < |s.table| && s.table[j].rx.Some? then History(s.table[j].rx.value.sent, s.table[j].rx.value.got, [])
    else History([], [], [])
  }

  function Past(s: Lo, j: nat): History { Join(OfClosed(s.closed, j), OfEntry(s, j)) }

  /** A call adds to the histories of an entry exactly what its reply tells. */
  lemma StepHistory(s: Lo, c: Call, j: nat)
    requires Sound(s)
    ensures var t := Step(s, c).0;
            && Past(t, j).sent == Past(s, j).sent + SentNow(s, c, j)
            && Past(t, j).got == Past(s, j).got + Msgs(CopiedNow(s, c, j))
  {
    var t := Step(s, c).0;
    if c.i < |s.table| {
      assert EntryOk(s.table[c.i]);
    }
    if c.Close? && c.i < |s.table| && s.table[c.i].live && s.table[c.i].loopback {
      CloseHistory(s, c.i, j);
    } else {
      assert t.closed == s.closed;
      EntryHistory(s, c, j);
      hide Step;
      hide Sound;
      hide OfEntry;
      hide OfClosed;
      hide SentNow;
      hide CopiedNow;
      hide Msgs;
      Regroup(OfClosed(s.closed, j).sent, OfEntry(s, j).sent, SentNow(s, c, j));
      Regroup(OfClosed(s.closed, j).got, OfEntry(s, j).got, Msgs(CopiedNow(s, c, j)));
    }
  }

  lemma CloseHistory(s: Lo, i: nat, j: nat)
    requires i < |s.table| && s.table[i].loopback && s.table[i].rx.Some?
    ensures var t := DoClose(s, i); Past(t, j).sent == Past(s, j).sent && Past(t, j).got == Past(s, j).got
  {
    var t := DoClose(s, i);
    var n := |s.closed|;
    assert t.closed[..n] == s.closed && t.closed[n].fd == i;
  }

  lemma EntryHistory(s: Lo, c: Call, j: nat)
    requires Sound(s) && (c.Close? && c.i < |s.table| && s.table[c.i].live ==> !s.table[c.i].loopback)
    ensures var t := Step(s, c).0;
            && OfEntry(t, j).sent == OfEntry(s, j).sent + SentNow(s, c, j)
            && OfEntry(t, j).got == OfEntry(s, j).got + Msgs(CopiedNow(s, c, j))
  {
    if c.i < |s.table| {
      assert EntryOk(s.table[c.i]);
    }
    hide Sound;
    hide Registered;
    assert Msgs([]) == [];
    if c.SendTo? {
      SendHistory(s, c, j);
    } else if c.RecvFrom? {
      RecvHistory(s, c, j);
    }
  }

  lemma SendHistory(s: Lo, c: Call, j: nat)
    requires c.SendTo?
    ensures var t := Step(s, c).0;
            && OfEntry(t, j).sent == OfEntry(s, j).sent + SentNow(s, c, j)
            && OfEntry(t, j).got == OfEntry(s, j).got && CopiedNow(s, c, j) == []
  {
  }

  lemma RecvHistory(s: Lo, c: Call, j: nat)
    requires c.RecvFrom?
    ensures var t := Step(s, c).0;
            && OfEntry(t, j).sent == OfEntry(s, j).sent && SentNow(s, c, j) == []
            && OfEntry(t, j).got == OfEntry(s, j).got + Msgs(CopiedNow(s, c, j))
  {
  }

  lemma {:induction false} RunHistory(s: Lo, calls: seq<Call>, j: nat)
    requires Sound(s)
    ensures Past(Run(s, calls), j).sent == Past(s, j).sent + SentTo(s, calls, j)
    ensures Past(Run(s, calls), j).got == Past(s, j).got + Msgs(CopiedAt(s, calls, j))
    decreases |calls|
  {
    if calls == [] {
      hide Past;
      hide Sound;
    } else {
      var c, rest := calls[0], calls[1..];
      StepSound(s, c);
      StepHistory(s, c, j);
      hide Step;
      hide Past;
      hide Sound;
      hide SentNow;
      hide CopiedNow;
      var t := Step(s, c).0;
      RunHistory(t, rest, j);
      MsgsJoin(CopiedNow(s, c, j), CopiedAt(t, rest, j));
      hide Msgs;
      Regroup(Past(s, j).sent, SentNow(s, c, j), SentTo(t, rest, j));
      Regroup(Past(s, j).got, Msgs(CopiedNow(s, c, j)), Msgs(CopiedAt(t, rest, j)));
    }
  }

  lemma Regroup(a: seq<Msg>, b: seq<Msg>, c: seq<Msg>)
    ensures a + b + c == a + (b + c)
  {
  }

  lemma {:induction false} CopiesTruncate(s: Lo, calls: seq<Call>, j: nat, k: nat)
    requires k < |CopiedAt(s, calls, j)|
    ensures var c := CopiedAt(s, calls, j)[k]; c.bytes == Truncated(c.msg.data, c.cap)
    decreases |calls|
  {
    var now := |CopiedNow(s, calls[0], j)|;
    if k >= now {
      CopiesTruncate(Step(s, calls[0]).0, calls[1..], j, k - now);
    }
  }

  lemma {:induction false} ClosedBalance(closed: seq<Closed>, j: nat)
    requires forall k :: 0 <= k < |closed| ==> ClosedOk(closed[k])
    ensures var h := OfClosed(closed, j); multiset(h.sent) == multiset(h.got) + multiset(h.freed)
  {
    if closed != [] {
      ClosedBalance(closed[..|closed| - 1], j);
    }
  }

  /** For every entry and every run from start-up: the datagrams that sends reported as accepted
      for it are those its receives returned, those freed when it was closed, and those still
      queued, each once; and what a receive returned is the datagram, cut to the buffer. */
  lemma AcceptedOnceReceivedOnce(s: Lo, calls: seq<Call>, j: nat)
    requires Initial(s)
    ensures var t, copies := Run(s, calls), CopiedAt(s, calls, j);
            && multiset(SentTo(s, calls, j))
               == multiset(Msgs(copies)) + multiset(OfClosed(t.closed, j).freed) + multiset(Queued(t, j))
            && (forall k :: 0 <= k < |copies| ==> copies[k].bytes == Truncated(copies[k].msg.data, copies[k].cap))
  {
    var t, copies := Run(s, calls), CopiedAt(s, calls, j);
    forall k | 0 <= k < |copies|
      ensures copies[k].bytes == Truncated(copies[k].msg.data, copies[k].cap)
    {
      CopiesTruncate(s, calls, j, k);
    }
    FromStart(s, calls, j);
    InitialSound(s);
    RunSound(s, calls);
    hide Run;
    hide SentTo;
    hide CopiedAt;
    Balance(t, j);
    hide Sound;
    hide Past;
  }

  lemma FromStart(s: Lo, calls: seq<Call>, j: nat)
    requires Initial(s)
    ensures SentTo(s, calls, j) == Past(Run(s, calls), j).sent
    ensures Msgs(CopiedAt(s, calls, j)) == Past(Run(s, calls), j).got
  {
    NoPast(s, j);
    InitialSound(s);
    hide Sound;
    hide Initial;
    hide Run;
    hide SentTo;
    hide CopiedAt;
    hide Msgs;
    hide Past;
    RunHistory(s, calls, j);
    assert [] + SentTo(s, calls, j) == SentTo(s, calls, j);
    assert [] + Msgs(CopiedAt(s, calls, j)) == Msgs(CopiedAt(s, calls, j));
  }

  lemma NoPast(s: Lo, j: nat)
    requires Initial(s)
    ensures Past(s, j) == History([], [], [])
  {
  }

  lemma Balance(s: Lo, j: nat)
    requires Sound(s)
    ensures var h := Past(s, j);
            multiset(h.sent) == multiset(h.got) + multiset(OfClosed(s.closed, j).freed) + multiset(Queued(s, j))
  {
    ClosedBalance(s.closed, j);
    EntryBalance(s, j);
    hide Sound;
    hide OfClosed;
    hide OfEntry;
    hide Queued;
  }

  lemma EntryBalance(s: Lo, j: nat)
    requires Sound(s)
    ensures var h := OfEntry(s, j); h.sent == h.got + Queued(s, j)
  {
    if j < |s.table| {
      assert EntryOk(s.table[j]);
    }
  }

  lemma {:induction false} NothingClosed(s: Lo, calls: seq<Call>, j: nat)
    requires forall k :: 0 <= k < |calls| ==> calls[k] != Close(j)
    ensures OfClosed(Run(s, calls).closed, j) == OfClosed(s.closed, j)
    decreases |calls|
  {
    if calls != [] {
      var t := Step(s, calls[0]).0;
      assert t.closed == s.closed || (|t.closed| == |s.closed| + 1 && t.closed[..|s.closed|] == s.closed
                                      && t.closed[|s.closed|].fd != j);
      hide Step;
      NothingClosed(t, calls[1..], j);
    }
  }

  /** And in order, while the entry is not closed: what it has been sent is what its receives
      returned, then what is queued. */
  lemma ReceivedInOrder(s: Lo, calls: seq<Call>, j: nat)
    requires Initial(s) && forall k :: 0 <= k < |calls| ==> calls[k] != Close(j)
    ensures SentTo(s, calls, j) == Msgs(CopiedAt(s, calls, j)) + Queued(Run(s, calls), j)
  {
    var t := Run(s, calls);
    FromStart(s, calls, j);
    NothingClosed(s, calls, j);
    assert OfClosed(s.closed, j) == History([], [], []);
    InitialSound(s);
    RunSound(s, calls);
    EntryBalance(t, j);
    hide Sound;
    hide Run;
    hide SentTo;
    hide CopiedAt;
    assert Past(t, j).sent == OfEntry(t, j).sent && Past(t, j).got == OfEntry(t, j).got;
  }
}
