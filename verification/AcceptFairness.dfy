/** The rotated scan of accept starves no connected slot of a listener pool. */
module AcceptFairness {
  import opened Basics
  import opened SocketCore
  import opened SocketCalls

  /** How many slots the scan passes before it reaches slot `j`. */
  function Distance(next: nat, j: nat, n: nat): nat
    requires next < n && j < n
  {
    if next <= j then j - next else j + n - next
  }

  lemma Rotated(next: nat, k: nat, n: nat)
    requires next < n && k < n
    ensures (next + k) % n == if next + k < n then next + k else next + k - n
  {
    if next + k < n {
      SmallMod(next + k, n);
    } else {
      SmallMod(next + k - n, n);
      assert (next + k - n + n) % n == (next + k - n) % n;
    }
  }

  lemma SmallMod(a: nat, n: nat)
    requires a < n
    ensures a % n == a && (a + n) % n == a
  {
  }

  /** The scan visits every slot exactly once. */
  lemma ScanVisitsOnce(next: nat, k: nat, j: nat, n: nat)
    requires next < n && k < n && j < n
    ensures (next + k) % n == j <==> k == Distance(next, j, n)
  {
    Rotated(next, k, n);
  }

  /** The scan stops at the connected slot nearest to `next`. */
  lemma {:induction false} PickIsNearest(cores: seq<Core>, pool: seq<nat>, next: nat, talking: set<nat>,
                                         k: nat, j: nat)
    requires next < |pool| && j < |pool| && k <= Distance(next, j, |pool|)
    requires Connected(cores, pool[j], talking)
    ensures var r := Pick(cores, pool, next, talking, k);
            r.Some? && Distance(next, r.value, |pool|) <= Distance(next, j, |pool|)
    decreases |pool| - k
  {
    var n := |pool|;
    var at := (next + k) % n;
    ScanVisitsOnce(next, k, at, n);
    if !Connected(cores, pool[at], talking) {
      PickIsNearest(cores, pool, next, talking, k + 1, j);
    }
  }

  /** After slot `at` is accepted, a slot behind it is strictly nearer. */
  lemma NextIsNearer(next: nat, at: nat, j: nat, n: nat)
    requires next < n && at < n && j < n && at != j
    requires Distance(next, at, n) <= Distance(next, j, n)
    ensures (at + 1) % n < n
    ensures Distance((at + 1) % n, j, n) < Distance(next, j, n)
  {
    if at + 1 < n {
      SmallMod(at + 1, n);
    } else {
      SmallMod(0, n);
    }
  }

  // ----- one listener over a run -----

  predicate Accepts(w: World, c: Call, fd: int) {
    c.Accept? && c.fd == fd && Step(w, c).1.Value?
  }

  function AcceptCount(w: World, calls: seq<Call>, fd: int): nat
    decreases |calls|
  {
    if calls == [] then 0
    else (if Accepts(w, calls[0], fd) then 1 else 0) + AcceptCount(Step(w, calls[0]).0, calls[1..], fd)
  }

  /** Some accept of the run handed out socket `s`. */
  predicate HandsOut(w: World, calls: seq<Call>, fd: int, s: nat)
    decreases |calls|
  {
    calls != [] &&
    ((Accepts(w, calls[0], fd) && HandedOut(w, calls[0]) == s)
     || HandsOut(Step(w, calls[0]).0, calls[1..], fd, s))
  }

  function HandedOut(w: World, c: Call): nat
    requires c.Accept? && Accepts(w, c, c.fd)
  {
    var (v, reply) := Step(w, c);
    v.table[reply.n - v.offset].sock
  }

  /** Socket `s` is seen connected by every scan of this listener, which is never closed. */
  ghost predicate StaysConnected(w: World, calls: seq<Call>, fd: int, s: nat)
    decreases |calls|
  {
    calls == [] ||
    (&& calls[0] != Close(fd)
     && (calls[0].Accept? && calls[0].fd == fd ==>
           forall t :: t in calls[0].scans ==> Connected(w.cores, s, t))
     && StaysConnected(Step(w, calls[0]).0, calls[1..], fd, s))
  }

  /** Entry `i` listens, and slot `j` of its pool is `s`. */
  predicate Waits(w: World, i: nat, j: nat, s: nat) {
    && i < |w.table| && w.table[i].kind == ListenFd
    && w.table[i].poolNext < |w.table[i].pool| && j < |w.table[i].pool| && w.table[i].pool[j] == s
  }

  predicate SameListener(a: Entry, b: Entry) {
    a.kind == b.kind && a.pool == b.pool && a.poolNext == b.poolNext
  }

  /** Only its own close and its own successful accepts change a listener. */
  lemma ListenerFrame(w: World, c: Call, i: nat)
    requires i < |w.table| && w.table[i].kind == ListenFd
    requires c != Close(w.offset + i) && !Accepts(w, c, w.offset + i)
    ensures var v := Step(w, c).0;
            v.offset == w.offset && |v.table| == |w.table| && SameListener(v.table[i], w.table[i])
  {
  }

  /** An accept that sees slot `j` connected either takes it or brings the scan nearer to it. */
  lemma AcceptApproaches(w: World, c: Call, i: nat, j: nat, s: nat)
    requires Waits(w, i, j, s) && Accepts(w, c, w.offset + i)
    requires forall t :: t in c.scans ==> Connected(w.cores, s, t)
    ensures HandedOut(w, c) == s
            || (var v := Step(w, c).0;
                v.offset == w.offset && Waits(v, i, j, s) && |v.table[i].pool| == |w.table[i].pool|
                && Distance(v.table[i].poolNext, j, |v.table[i].pool|)
                   < Distance(w.table[i].poolNext, j, |w.table[i].pool|))
  {
    var e := w.table[i];
    var at := FirstPick(w.cores, e, c.scans).value;
    assert c.scans != [];
    PickIsNearest(w.cores, e.pool, e.poolNext, c.scans[0], 0, j);
    assert Some(at) == Pick(w.cores, e.pool, e.poolNext, c.scans[0], 0);
    if at != j {
      NextIsNearer(e.poolNext, at, j, |e.pool|);
    }
  }

  /** A slot that stays connected is handed out once the listener has accepted more often
      than its distance from the scan's start. */
  lemma {:induction false} AcceptedWithinDistance(w: World, calls: seq<Call>, i: nat, j: nat, s: nat)
    requires Waits(w, i, j, s) && StaysConnected(w, calls, w.offset + i, s)
    requires AcceptCount(w, calls, w.offset + i) > Distance(w.table[i].poolNext, j, |w.table[i].pool|)
    ensures HandsOut(w, calls, w.offset + i, s)
    decreases |calls|
  {
    hide Step;
    var fd := w.offset + i;
    var c, v := calls[0], Step(w, calls[0]).0;
    if Accepts(w, c, fd) {
      AcceptApproaches(w, c, i, j, s);
      if HandedOut(w, c) != s {
        AcceptedWithinDistance(v, calls[1..], i, j, s);
      }
    } else {
      ListenerFrame(w, c, i);
      AcceptedWithinDistance(v, calls[1..], i, j, s);
    }
  }

  /** In any run, `pool_len` successful accepts serve every slot that stays connected. */
  lemma NoSlotStarves(w: World, calls: seq<Call>, i: nat, j: nat, s: nat)
    requires Waits(w, i, j, s) && StaysConnected(w, calls, w.offset + i, s)
    requires AcceptCount(w, calls, w.offset + i) >= |w.table[i].pool|
    ensures HandsOut(w, calls, w.offset + i, s)
  {
    hide Step;
    AcceptedWithinDistance(w, calls, i, j, s);
  }
}
