/** select() and poll() of select_wrap.c, with readiness given scan by scan. */
module SelectPoll {
  import opened Basics

  /** What one scan finds: the shim's descriptors, and which probe readable and writable. */
  datatype Scan = Scan(sockets: set<int>, readable: set<int>, writable: set<int>)

  /** How a call ends: a return value, or still waiting after all the given scans. */
  datatype Outcome = Returned(n: nat) | Waiting

  // ----- one scan -----

  function Below(asked: set<int>, n: int): set<int> {
    set fd | fd in asked && 0 <= fd < n
  }

  /** The requested descriptors below `nfds` that are the shim's and probe ready. */
  function Ready(nfds: int, asked: set<int>, sockets: set<int>, ready: set<int>): set<int> {
    Below(asked, nfds) * sockets * ready
  }

  lemma ReadyStep(fd: nat, asked: set<int>, sockets: set<int>, ready: set<int>)
    ensures Ready(fd + 1, asked, sockets, ready)
            == Ready(fd, asked, sockets, ready) + (if fd in asked && fd in sockets && fd in ready then {fd as int} else {})
    ensures fd !in Ready(fd, asked, sockets, ready)
  {
  }

  lemma ReadyNone(n: int, asked: set<int>, sockets: set<int>, ready: set<int>)
    requires n <= 0
    ensures Ready(n, asked, sockets, ready) == {}
  {
  }

  method ScanOnce(nfds: int, rdIn: set<int>, wrIn: set<int>, s: Scan)
    returns (ready: nat, rd: set<int>, wr: set<int>)
    ensures rd == Ready(nfds, rdIn, s.sockets, s.readable)
    ensures wr == Ready(nfds, wrIn, s.sockets, s.writable)
    ensures ready == |rd| + |wr|
  {
    hide Ready;
    ready, rd, wr := 0, {}, {};
    ReadyNone(0, rdIn, s.sockets, s.readable);
    ReadyNone(0, wrIn, s.sockets, s.writable);
    var fd := 0;
    while fd < nfds
      invariant 0 <= fd && (nfds >= 0 ==> fd <= nfds) && (nfds < 0 ==> fd == 0)
      invariant rd == Ready(fd, rdIn, s.sockets, s.readable)
      invariant wr == Ready(fd, wrIn, s.sockets, s.writable)
      invariant ready == |rd| + |wr|
      decreases nfds - fd
    {
      ReadyStep(fd, rdIn, s.sockets, s.readable);
      ReadyStep(fd, wrIn, s.sockets, s.writable);
      if fd in s.sockets {
        if fd in rdIn && fd in s.readable {
          rd := rd + {fd};
          ready := ready + 1;
        }
        if fd in wrIn && fd in s.writable {
          wr := wr + {fd};
          ready := ready + 1;
        }
      }
      fd := fd + 1;
    }
    if nfds < 0 {
      ReadyNone(nfds, rdIn, s.sockets, s.readable);
      ReadyNone(nfds, wrIn, s.sockets, s.writable);
    }
  }

  // ----- select -----

  predicate Idle(nfds: int, rdIn: set<int>, wrIn: set<int>, s: Scan) {
    Ready(nfds, rdIn, s.sockets, s.readable) == {} && Ready(nfds, wrIn, s.sockets, s.writable) == {}
  }

  /** The scan that ends the wait: the first in which something is ready. */
  function FirstBusy(nfds: int, rdIn: set<int>, wrIn: set<int>, scans: seq<Scan>): (k: nat)
    ensures k <= |scans| && (k < |scans| ==> !Idle(nfds, rdIn, wrIn, scans[k]))
    ensures forall n :: 0 <= n < k ==> Idle(nfds, rdIn, wrIn, scans[n])
  {
    if scans == [] || !Idle(nfds, rdIn, wrIn, scans[0]) then 0
    else 1 + FirstBusy(nfds, rdIn, wrIn, scans[1..])
  }

  function Asked(s: Option<set<int>>): set<int> { if s.Some? then s.value else {} }

  /** A null set is not written. A timed wait ends with the given scans, an untimed one does not. */
  method Select(nfds: int, rdArg: Option<set<int>>, wrArg: Option<set<int>>, timed: bool, scans: seq<Scan>)
    returns (r: Outcome, rd: set<int>, wr: set<int>)
    ensures var k := FirstBusy(nfds, Asked(rdArg), Asked(wrArg), scans);
            if k < |scans| then
              && r == Returned(|rd| + |wr|) && |rd| + |wr| > 0
              && rd == Ready(nfds, Asked(rdArg), scans[k].sockets, scans[k].readable)
              && wr == Ready(nfds, Asked(wrArg), scans[k].sockets, scans[k].writable)
            else r == (if timed then Returned(0) else Waiting) && rd == {} && wr == {}
  {
    hide Ready;
    hide FirstBusy;
    var rdIn, wrIn := Asked(rdArg), Asked(wrArg);
    rd, wr := {}, {};
    for n := 0 to |scans|
      invariant n <= FirstBusy(nfds, rdIn, wrIn, scans)
      invariant rd == {} && wr == {}
    {
      var ready;
      ready, rd, wr := ScanOnce(nfds, rdIn, wrIn, scans[n]);
      if ready > 0 {
        return Returned(ready), rd, wr;
      }
    }
    r := if timed then Returned(0) else Waiting;
  }

  // ----- poll -----

  datatype PollFd = PollFd(fd: int, input: bool, output: bool)

  datatype Revents = Revents(input: bool, output: bool)

  /** FD_SET on a negative descriptor writes outside the set, so callers must not ask for one. */
  predicate InRange(fds: seq<PollFd>) {
    forall i :: 0 <= i < |fds| ==> 0 <= fds[i].fd
  }

  predicate Distinct(fds: seq<PollFd>) {
    forall i, j :: 0 <= i < j < |fds| ==> fds[i].fd != fds[j].fd
  }

  function WantIn(fds: seq<PollFd>): set<int> {
    set i | 0 <= i < |fds| && fds[i].input :: fds[i].fd
  }

  function WantOut(fds: seq<PollFd>): set<int> {
    set i | 0 <= i < |fds| && fds[i].output :: fds[i].fd
  }

  function Members(fds: seq<PollFd>, s: set<int>): nat {
    if fds == [] then 0 else Members(fds[..|fds| - 1], s) + Tick(fds[|fds| - 1].fd in s)
  }

  function MaxFd(fds: seq<PollFd>): (m: int)
    requires InRange(fds)
    ensures -1 <= m && forall i :: 0 <= i < |fds| ==> fds[i].fd <= m
  {
    if fds == [] then -1
    else
      var last := |fds| - 1;
      var m := MaxFd(fds[..last]);
      if fds[last].fd > m then fds[last].fd else m
  }

  datatype TimeVal = TimeVal(sec: nat, usec: nat)

  function ToTimeVal(ms: nat): TimeVal { TimeVal(ms / 1000, ms % 1000 * 1000) }

  function ToMillis(tv: TimeVal): nat { tv.sec * 1000 + tv.usec / 1000 }

  lemma TimeoutSurvives(ms: nat)
    ensures ToMillis(ToTimeVal(ms)) == ms && ToTimeVal(ms).usec < 1_000_000
    ensures ToTimeVal(ms).sec * 1_000_000 + ToTimeVal(ms).usec == ms * 1000
  {
  }

  /** The request sets and the highest descriptor, built entry by entry. */
  method Gather(fds: seq<PollFd>) returns (rd: set<int>, wr: set<int>, max: int)
    requires InRange(fds)
    ensures rd == WantIn(fds) && wr == WantOut(fds) && max == MaxFd(fds)
  {
    rd, wr, max := {}, {}, -1;
    for i := 0 to |fds|
      invariant rd == WantIn(fds[..i]) && wr == WantOut(fds[..i]) && max == MaxFd(fds[..i])
    {
      WantStep(fds, i);
      assert fds[..i + 1][..i] == fds[..i];
      if fds[i].input {
        rd := rd + {fds[i].fd};
      }
      if fds[i].output {
        wr := wr + {fds[i].fd};
      }
      if fds[i].fd > max {
        max := fds[i].fd;
      }
    }
    assert fds[..|fds|] == fds;
  }

  lemma WantStep(fds: seq<PollFd>, i: nat)
    requires i < |fds|
    ensures WantIn(fds[..i + 1]) == WantIn(fds[..i]) + if fds[i].input then {fds[i].fd} else {}
    ensures WantOut(fds[..i + 1]) == WantOut(fds[..i]) + if fds[i].output then {fds[i].fd} else {}
  {
    var a, b := fds[..i], fds[..i + 1];
    assert forall k :: 0 <= k < i ==> a[k] == b[k];
    assert b[i] == fds[i];
  }

  /** poll() over select(): the result sets are spread over the entries and counted. */
  method Poll(fds: seq<PollFd>, timeoutMs: int, scans: seq<Scan>) returns (r: Outcome, revents: seq<Revents>)
    requires InRange(fds)
    ensures |revents| == |fds|
    ensures var n := MaxFd(fds) + 1;
            var k := FirstBusy(n, WantIn(fds), WantOut(fds), scans);
            if k < |scans| then
              var rd := Ready(n, WantIn(fds), scans[k].sockets, scans[k].readable);
              var wr := Ready(n, WantOut(fds), scans[k].sockets, scans[k].writable);
              && r == Returned(Members(fds, rd) + Members(fds, wr))
              && forall i :: 0 <= i < |fds| ==> revents[i] == Revents(fds[i].fd in rd, fds[i].fd in wr)
            else
              && r == (if timeoutMs >= 0 then Returned(0) else Waiting)
              && forall i :: 0 <= i < |fds| ==> revents[i] == Revents(false, false)
  {
    hide Ready;
    hide FirstBusy;
    hide MaxFd;
    revents := seq(|fds|, _ => Revents(false, false));
    var rdIn, wrIn, max := Gather(fds);
    var rc, rd, wr := Select(max + 1, Some(rdIn), Some(wrIn), timeoutMs >= 0, scans);
    if rc.Waiting? || rc.n == 0 {
      return rc, revents;
    }
    var ready := 0;
    for i := 0 to |fds|
      invariant |revents| == |fds|
      invariant forall k :: 0 <= k < i ==> revents[k] == Revents(fds[k].fd in rd, fds[k].fd in wr)
      invariant ready == Members(fds[..i], rd) + Members(fds[..i], wr)
    {
      assert fds[..i + 1][..i] == fds[..i];
      revents := revents[i := Revents(fds[i].fd in rd, fds[i].fd in wr)];
      ready := ready + Tick(fds[i].fd in rd) + Tick(fds[i].fd in wr);
    }
    assert fds[..|fds|] == fds;
    return Returned(ready), revents;
  }

  // ----- what poll reports -----

  function FdSet(fds: seq<PollFd>): set<int> {
    set i | 0 <= i < |fds| :: fds[i].fd
  }

  lemma FdSetStep(fds: seq<PollFd>, n: nat)
    requires n + 1 == |fds|
    ensures FdSet(fds) == FdSet(fds[..n]) + {fds[n].fd}
  {
    var rest := fds[..n];
    assert forall k :: 0 <= k < n ==> rest[k] == fds[k];
  }

  lemma ReadyIsListed(nfds: int, fds: seq<PollFd>, sockets: set<int>, ready: set<int>)
    ensures Ready(nfds, WantIn(fds), sockets, ready) <= FdSet(fds)
    ensures Ready(nfds, WantOut(fds), sockets, ready) <= FdSet(fds)
  {
  }

  lemma {:induction false} MembersIsSize(fds: seq<PollFd>, s: set<int>)
    requires Distinct(fds) && s <= FdSet(fds)
    ensures Members(fds, s) == |s|
  {
    if fds == [] {
      assert s == {};
    } else {
      var n := |fds| - 1;
      var last, rest := fds[n].fd, fds[..n];
      FdSetStep(fds, n);
      hide FdSet;
      MembersIsSize(rest, s - {last});
      MembersSame(rest, s, last);
    }
  }

  lemma {:induction false} MembersSame(fds: seq<PollFd>, s: set<int>, x: int)
    requires forall i :: 0 <= i < |fds| ==> fds[i].fd != x
    ensures Members(fds, s - {x}) == Members(fds, s)
  {
    if fds != [] {
      MembersSame(fds[..|fds| - 1], s, x);
    }
  }

  /** For distinct descriptors poll counts exactly what select counted. */
  lemma PollCountsLikeSelect(fds: seq<PollFd>, s: Scan)
    requires InRange(fds) && Distinct(fds)
    ensures var n := MaxFd(fds) + 1;
            var rd := Ready(n, WantIn(fds), s.sockets, s.readable);
            var wr := Ready(n, WantOut(fds), s.sockets, s.writable);
            Members(fds, rd) + Members(fds, wr) == |rd| + |wr|
  {
    hide Ready;
    hide FdSet;
    hide WantIn;
    hide WantOut;
    hide MaxFd;
    hide Members;
    hide Distinct;
    var n := MaxFd(fds) + 1;
    var rd, wr := Ready(n, WantIn(fds), s.sockets, s.readable), Ready(n, WantOut(fds), s.sockets, s.writable);
    ReadyIsListed(n, fds, s.sockets, s.readable);
    ReadyIsListed(n, fds, s.sockets, s.writable);
    MembersIsSize(fds, rd);
    MembersIsSize(fds, wr);
  }

  /** An entry asks for input on descriptor `fd`. */
  predicate AsksIn(fds: seq<PollFd>, fd: int) {
    exists j :: 0 <= j < |fds| && fds[j].fd == fd && fds[j].input
  }

  predicate AsksOut(fds: seq<PollFd>, fd: int) {
    exists j :: 0 <= j < |fds| && fds[j].fd == fd && fds[j].output
  }

  /** No descriptor is missed: an entry is reported readable exactly if some entry asked for its
      descriptor, which is the shim's and probes readable; likewise for writable. */
  lemma ReportedIff(fds: seq<PollFd>, s: Scan, i: nat)
    requires InRange(fds) && i < |fds|
    ensures var n, fd := MaxFd(fds) + 1, fds[i].fd;
            && (fd in Ready(n, WantIn(fds), s.sockets, s.readable)
                <==> AsksIn(fds, fd) && fd in s.sockets && fd in s.readable)
            && (fd in Ready(n, WantOut(fds), s.sockets, s.writable)
                <==> AsksOut(fds, fd) && fd in s.sockets && fd in s.writable)
  {
    assert fds[i].fd <= MaxFd(fds);
    hide MaxFd;
  }

  /** In this scan no entry gets an event it did not ask for. */
  ghost predicate WithinEvents(fds: seq<PollFd>, s: Scan)
    requires InRange(fds)
  {
    var n := MaxFd(fds) + 1;
    forall i :: 0 <= i < |fds| ==>
      && (fds[i].fd in Ready(n, WantIn(fds), s.sockets, s.readable) ==> fds[i].input)
      && (fds[i].fd in Ready(n, WantOut(fds), s.sockets, s.writable) ==> fds[i].output)
  }

  predicate DuplicatesAgree(fds: seq<PollFd>) {
    forall i, j :: 0 <= i < |fds| && 0 <= j < |fds| && fds[i].fd == fds[j].fd ==>
      fds[i].input == fds[j].input && fds[i].output == fds[j].output
  }

  /** revents stays within events whatever is ready, exactly if entries that name the same
      descriptor ask for the same events; distinct descriptors always do. */
  lemma WithinEventsIff(fds: seq<PollFd>)
    requires InRange(fds)
    ensures (forall s :: WithinEvents(fds, s)) <==> DuplicatesAgree(fds)
    ensures Distinct(fds) ==> DuplicatesAgree(fds)
  {
    var all := WantIn(fds) + WantOut(fds);
    var everything := Scan(all, all, all);
    if WithinEvents(fds, everything) {
      forall i, j | 0 <= i < |fds| && 0 <= j < |fds| && fds[i].fd == fds[j].fd
        ensures fds[i].input == fds[j].input && fds[i].output == fds[j].output
      {
        assert fds[i].input ==> fds[i].fd in WantIn(fds);
        assert fds[j].input ==> fds[j].fd in WantIn(fds);
        assert fds[i].output ==> fds[i].fd in WantOut(fds);
        assert fds[j].output ==> fds[j].fd in WantOut(fds);
      }
    }
  }
}
