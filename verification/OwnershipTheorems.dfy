/** What the ownership equation means for a user of the sockets. */
module OwnershipTheorems {
  import opened Basics
  import opened SocketCore
  import opened SocketCalls
  import opened Ownership
  import opened OwnershipRuns

  // ----- single ownership -----

  /** A place that can hold a handle: an entry's `sock`, or slot `k` of its pool. */
  datatype Place = SockOf(i: nat) | SlotOf(i: nat, k: nat)

  predicate IsPlace(w: World, q: Place) {
    && q.i < |w.table| && w.table[q.i].kind != FreeFd
    && (q.SlotOf? ==> q.k < |w.table[q.i].pool|)
  }

  function At(w: World, q: Place): nat
    requires IsPlace(w, q)
  {
    if q.SockOf? then w.table[q.i].sock else w.table[q.i].pool[q.k]
  }

  lemma PoolTwo(pool: seq<nat>, a: nat, b: nat)
    requires a < |pool| && b < |pool| && a != b && pool[a] == pool[b]
    ensures multiset(pool)[pool[a]] >= 2
  {
    var rest := pool[a := pool[a] + 1];
    assert rest[b] in multiset(rest);
  }

  lemma TwoPlacesCount(w: World, a: Place, b: Place)
    requires IsPlace(w, a) && IsPlace(w, b) && a != b && At(w, a) == At(w, b)
    ensures Count(w.table, At(w, a)) >= 2
  {
    var p := At(w, a);
    if a.i != b.i {
      CountTwo(w.table, a.i, b.i, p);
    } else {
      CountUpdate(w.table, a.i, w.table[a.i], p);
      if a.SlotOf? && b.SlotOf? {
        PoolTwo(w.table[a.i].pool, a.k, b.k);
      }
    }
  }

  /** No valid handle is in two places; whatever is held is live and of the entry's kind. */
  ghost predicate SinglyOwned(w: World) {
    && (forall a, b :: IsPlace(w, a) && IsPlace(w, b) && a != b && At(w, a) != 0 ==> At(w, a) != At(w, b))
    && (forall a :: IsPlace(w, a) && At(w, a) != 0 ==>
          IsLive(w.cores, At(w, a)) && KindAt(w.cores, At(w, a)) == SockKindOf(w.table[a.i].kind))
  }

  lemma HeldIsLive(w: World, unheld: set<nat>, a: Place)
    requires Inv(w, unheld) && IsPlace(w, a) && At(w, a) != 0
    ensures IsLive(w.cores, At(w, a)) && KindAt(w.cores, At(w, a)) == SockKindOf(w.table[a.i].kind)
  {
    var p, kinds := At(w, a), Kinds(w.cores);
    assert Accounted(w.table, kinds, unheld, p) && EntryOk(w.table[a.i], kinds);
    CountUpdate(w.table, a.i, w.table[a.i], p);
    assert p in kinds <==> IsLive(w.cores, p);
  }

  lemma InvSinglyOwned(w: World, unheld: set<nat>)
    requires Inv(w, unheld)
    ensures SinglyOwned(w)
  {
    forall a, b | IsPlace(w, a) && IsPlace(w, b) && a != b && At(w, a) != 0
      ensures At(w, a) != At(w, b)
    {
      assert Accounted(w.table, Kinds(w.cores), unheld, At(w, a));
      if At(w, a) == At(w, b) {
        TwoPlacesCount(w, a, b);
        assert false;
      }
    }
    forall a | IsPlace(w, a) && At(w, a) != 0
      ensures IsLive(w.cores, At(w, a)) && KindAt(w.cores, At(w, a)) == SockKindOf(w.table[a.i].kind)
    {
      HeldIsLive(w, unheld, a);
    }
  }

  /** In every run with fewer than 2^24 opens per interface, from the start of the program. */
  lemma SingleOwnerInEveryRun(w: World, calls: seq<Call>)
    requires Initial(w) && PoliteRun(w, calls, {}) && UnderSpan(Run(w, calls).cores)
    ensures SinglyOwned(Run(w, calls))
  {
    hide Inv;
    hide Run;
    InitialInv(w);
    RunKeeps(w, calls, {});
    InvSinglyOwned(Run(w, calls), UnheldAtEnd(w, calls, {}));
  }

  // ----- no typed lookup panics -----

  /** A typed get through packed handle `p` finds nothing or finds a socket of `kind`. */
  predicate LookupSafe(cores: seq<Core>, p: nat, kind: SockKind) {
    IfaceOf(p) < |cores| && LocalOf(p) in cores[IfaceOf(p)].handles ==>
      TypedGetSafe(cores[IfaceOf(p)].slots, cores[IfaceOf(p)].handles[LocalOf(p)], kind)
  }

  lemma ZeroFindsNothing(cores: seq<Core>, kind: SockKind)
    requires CoresOk(cores)
    ensures LookupSafe(cores, 0, kind)
    ensures |cores| > 0 ==> 0 !in cores[0].handles
  {
    assert |cores| > 0 ==> CoreOk(cores[0]);
    assert |cores| > 0 && 0 in cores[0].handles ==> HandleOk(cores[0], 0);
  }

  /** Every handle a call may use is looked up with the kind its entry implies; ids map one to
      one to occupied slots; and DHCP polls its own slot, which no id shares. */
  ghost predicate LookupsSafe(w: World) {
    && (forall i, a, b :: 0 <= i < |w.cores| && a in w.cores[i].handles && b in w.cores[i].handles && a != b ==>
          w.cores[i].handles[a] != w.cores[i].handles[b])
    && (forall i, a :: 0 <= i < |w.cores| && a in w.cores[i].handles ==> HandleOk(w.cores[i], a))
    && (forall a :: IsPlace(w, a) ==> LookupSafe(w.cores, At(w, a), SockKindOf(w.table[a.i].kind)))
    && (forall i :: 0 <= i < |w.cores| && w.cores[i].dhcp.Some? ==>
          TypedGetSafe(w.cores[i].slots, w.cores[i].dhcp.value, DhcpSock)
          && w.cores[i].dhcp.value !in w.cores[i].handles.Values)
  }

  lemma InvLookupsSafe(w: World, unheld: set<nat>)
    requires Inv(w, unheld)
    ensures LookupsSafe(w)
  {
    assert forall i :: 0 <= i < |w.cores| ==> CoreOk(w.cores[i]);
    forall a | IsPlace(w, a)
      ensures LookupSafe(w.cores, At(w, a), SockKindOf(w.table[a.i].kind))
    {
      if At(w, a) == 0 {
        ZeroFindsNothing(w.cores, SockKindOf(w.table[a.i].kind));
      } else {
        HeldIsLive(w, unheld, a);
      }
    }
    forall i | 0 <= i < |w.cores| && w.cores[i].dhcp.Some?
      ensures TypedGetSafe(w.cores[i].slots, w.cores[i].dhcp.value, DhcpSock)
      ensures w.cores[i].dhcp.value !in w.cores[i].handles.Values
    {
      var c := w.cores[i];
      assert CoreOk(c);
      forall id | id in c.handles
        ensures c.handles[id] != c.dhcp.value
      {
        assert HandleOk(c, id);
      }
    }
  }

  lemma NoPanicInAnyRun(w: World, calls: seq<Call>)
    requires Initial(w) && PoliteRun(w, calls, {}) && UnderSpan(Run(w, calls).cores)
    ensures LookupsSafe(Run(w, calls))
  {
    hide Inv;
    hide Run;
    InitialInv(w);
    RunKeeps(w, calls, {});
    InvLookupsSafe(Run(w, calls), UnheldAtEnd(w, calls, {}));
  }

  // ----- leaks -----

  lemma UnheldUnique(w: World, a: set<nat>, b: set<nat>)
    requires Inv(w, a) && Inv(w, b)
    ensures a == b
  {
    forall p: nat
      ensures p in a <==> p in b
    {
      assert Accounted(w.table, Kinds(w.cores), a, p);
      assert Accounted(w.table, Kinds(w.cores), b, p);
    }
  }

  /** While ids fit 24 bits, a call of the shim leaks exactly when it is a connect on a TCP
      descriptor that already holds a socket; that socket is then live and held nowhere. */
  lemma LeaksWithinSpan(w: World, c: Call, unheld: set<nat>)
    requires Inv(w, unheld) && UnderSpan(Step(w, c).0.cores)
    requires !c.NativeOpen? && !c.NativeClose?
    ensures Inv(Step(w, c).0, unheld) <==> !Overwrites(w, c)
    ensures Overwrites(w, c) ==>
              var lost := w.table[c.fd - w.offset].sock;
              IsLive(Step(w, c).0.cores, lost) && Count(Step(w, c).0.table, lost) == 0
  {
    hide Inv;
    hide Step;
    StepKeeps(w, c, unheld);
    if Overwrites(w, c) {
      var lost, v := w.table[c.fd - w.offset].sock, Step(w, c).0;
      LostWasHeld(w, c, unheld);
      LostIsLive(v, unheld + {lost}, lost);
      if Inv(v, unheld) {
        UnheldUnique(v, unheld, unheld + {lost});
        assert false;
      }
    }
  }

  lemma LostWasHeld(w: World, c: Call, unheld: set<nat>)
    requires Inv(w, unheld) && Overwrites(w, c)
    ensures w.table[c.fd - w.offset].sock !in unheld
  {
    var i := c.fd - w.offset;
    assert Accounted(w.table, Kinds(w.cores), unheld, w.table[i].sock);
    CountUpdate(w.table, i, w.table[i], w.table[i].sock);
  }

  lemma LostIsLive(w: World, unheld: set<nat>, p: nat)
    requires Inv(w, unheld) && p in unheld
    ensures IsLive(w.cores, p) && Count(w.table, p) == 0
  {
    assert Accounted(w.table, Kinds(w.cores), unheld, p);
    assert p in Kinds(w.cores) <==> IsLive(w.cores, p);
  }

  /** No call of the run overwrites a held socket, and nobody uses the native API. */
  predicate TidyRun(w: World, calls: seq<Call>)
    decreases |calls|
  {
    calls == [] ||
    (!Overwrites(w, calls[0]) && !calls[0].NativeOpen? && !calls[0].NativeClose?
     && TidyRun(Step(w, calls[0]).0, calls[1..]))
  }

  lemma {:induction false} TidyRunUnheld(w: World, calls: seq<Call>, unheld: set<nat>)
    requires TidyRun(w, calls)
    ensures PoliteRun(w, calls, unheld) && UnheldAtEnd(w, calls, unheld) == unheld
    decreases |calls|
  {
    hide Step;
    if calls != [] {
      TidyRunUnheld(Step(w, calls[0]).0, calls[1..], unheld);
    }
  }

  /** The live sockets are exactly the held ones, each held once, failed calls included. */
  lemma NoLeakInTidyRuns(w: World, calls: seq<Call>, p: nat)
    requires Initial(w) && TidyRun(w, calls) && UnderSpan(Run(w, calls).cores) && p != 0
    ensures Count(Run(w, calls).table, p) == Tick(IsLive(Run(w, calls).cores, p))
  {
    hide Run;
    TidyRunUnheld(w, calls, {});
    InitialInv(w);
    RunKeeps(w, calls, {});
    var v := Run(w, calls);
    assert Accounted(v.table, Kinds(v.cores), {}, p);
    assert p in Kinds(v.cores) <==> IsLive(v.cores, p);
  }

  // ----- closing everything -----

  function Closes(fd: int, n: nat): seq<Call>
    decreases n
  {
    if n == 0 then [] else [Close(fd)] + Closes(fd + 1, n - 1)
  }

  predicate AllFree(table: seq<Entry>, n: nat)
    requires n <= |table|
  {
    forall i :: 0 <= i < n ==> table[i].kind == FreeFd
  }

  lemma CloseFrees(w: World, k: nat)
    requires k < |w.table| && AllFree(w.table, k)
    ensures var v := Step(w, Close(w.offset + k)).0;
            v.offset == w.offset && |v.table| == |w.table| && AllFree(v.table, k + 1)
  {
  }

  lemma CloseCallIs(w: World, k: nat)
    requires k < |w.table|
    ensures Step(w, Close(w.offset + k)).0 == if w.table[k].kind != FreeFd then DoClose(w, k) else w
  {
  }

  lemma CloseCallKeeps(w: World, unheld: set<nat>, k: nat)
    requires Inv(w, unheld) && k < |w.table|
    ensures Inv(Step(w, Close(w.offset + k)).0, unheld)
  {
    hide Inv;
    hide Step;
    CloseCallIs(w, k);
    if w.table[k].kind != FreeFd {
      CloseKeeps(w, unheld, k);
    }
  }

  lemma {:induction false} CloseEach(w: World, unheld: set<nat>, k: nat)
    requires Inv(w, unheld) && k <= |w.table| && AllFree(w.table, k)
    ensures var v := Run(w, Closes(w.offset + k, |w.table| - k));
            Inv(v, unheld) && AllFree(v.table, |v.table|)
    decreases |w.table| - k
  {
    hide Inv;
    hide Step;
    if k < |w.table| {
      CloseCallKeeps(w, unheld, k);
      CloseFrees(w, k);
      CloseEach(Step(w, Close(w.offset + k)).0, unheld, k + 1);
    }
  }

  lemma NothingHeld(w: World, unheld: set<nat>, p: nat)
    requires Inv(w, unheld) && AllFree(w.table, |w.table|)
    ensures IsLive(w.cores, p) <==> p in unheld
  {
    CountNone(w.table, p);
    assert Accounted(w.table, Kinds(w.cores), unheld, p);
    assert p in Kinds(w.cores) <==> IsLive(w.cores, p);
  }

  /** Closing every descriptor leaves live exactly the sockets the table did not hold. */
  lemma ClosingAllReleasesAll(w: World, unheld: set<nat>, p: nat)
    requires Inv(w, unheld)
    ensures IsLive(Run(w, Closes(w.offset, |w.table|)).cores, p) <==> p in unheld
  {
    hide Inv;
    hide Run;
    CloseEach(w, unheld, 0);
    NothingHeld(Run(w, Closes(w.offset, |w.table|)), unheld, p);
  }

  // ----- accept hands over -----

  /** The hand-over of slot `k`: afterwards the new descriptor is the only holder of its handle,
      the other slots of the pool are as they were, and so is every other entry. */
  lemma TransferMovesOne(w: World, unheld: set<nat>, i: nat, k: nat, dflt: nat)
    requires Inv(w, unheld) && i < |w.table| && w.table[i].kind == ListenFd && k < |w.table[i].pool|
    requires w.table[i].pool[k] != 0 && FirstFree(w.table) < |w.table|
    requires UnderSpan(Transfer(w, i, k, dflt).0.cores)
    ensures MovedOne(w, Transfer(w, i, k, dflt).0, i, k, FirstFree(w.table))
  {
    hide Inv;
    var v, p, j := Transfer(w, i, k, dflt).0, w.table[i].pool[k], FirstFree(w.table);
    TransferKeeps(w, unheld, i, k, dflt);
    Transferred(w, i, k, dflt);
    hide Transfer;
    HeldOnce(v, unheld, j, p);
  }

  /** What the hand-over does to the table. */
  predicate SlotMoved(w: World, v: World, i: nat, k: nat, j: nat) {
    && i < |w.table| && j < |w.table| == |v.table| && j != i && k < |w.table[i].pool|
    && w.table[j].kind == FreeFd && v.table[j].kind == TcpFd && v.table[j].connected && !v.table[j].nonblocking
    && v.table[j].iface == w.table[i].iface && v.table[j].pool == [] && v.table[j].sock == w.table[i].pool[k]
    && |v.table[i].pool| == |w.table[i].pool|
    && v.table[i] == w.table[i].(pool := w.table[i].pool[k := v.table[i].pool[k]],
                                 poolNext := if k + 1 == |w.table[i].pool| then 0 else k + 1)
    && (forall n :: 0 <= n < |w.table| && n != i && n != j ==> v.table[n] == w.table[n])
  }

  lemma Transferred(w: World, i: nat, k: nat, dflt: nat)
    requires i < |w.table| && w.table[i].kind == ListenFd && k < |w.table[i].pool| && FirstFree(w.table) < |w.table|
    ensures SlotMoved(w, Transfer(w, i, k, dflt).0, i, k, FirstFree(w.table))
  {
    hide Open;
    hide FirstFree;
    var n := |w.table[i].pool|;
    assert (k + 1) % n == if k + 1 == n then 0 else k + 1;
  }

  /** `v` is `w` after slot `k` of listener `i` went to entry `j`. */
  predicate MovedOne(w: World, v: World, i: nat, k: nat, j: nat) {
    SlotMoved(w, v, i, k, j) && Count(v.table, v.table[j].sock) == 1
  }

  lemma HeldOnce(w: World, unheld: set<nat>, j: nat, p: nat)
    requires Inv(w, unheld) && j < |w.table| && p != 0
    requires w.table[j].kind != FreeFd && w.table[j].sock == p
    ensures Count(w.table, p) == 1
  {
    assert Accounted(w.table, Kinds(w.cores), unheld, p);
    CountUpdate(w.table, j, w.table[j], p);
  }

  /** A successful accept gives a formerly free entry a handle that the listener's pool held.
      That entry is then the only holder of the handle; the rest of the pool and of the table
      is unchanged. */
  lemma AcceptMovesOne(w: World, unheld: set<nat>, i: nat, scans: seq<set<nat>>, dflt: nat)
    requires Inv(w, unheld) && i < |w.table| && UnderSpan(DoAccept(w, i, scans, dflt).0.cores)
    requires DoAccept(w, i, scans, dflt).1.Value?
    ensures var (v, reply) := DoAccept(w, i, scans, dflt);
            var r := FirstPick(w.cores, w.table[i], scans);
            0 <= reply.n - w.offset && r.Some? && MovedOne(w, v, i, r.value, reply.n - w.offset)
  {
    hide Inv;
    hide MovedOne;
    PickedIsValid(w, unheld, i, scans);
    TransferMovesOne(w, unheld, i, FirstPick(w.cores, w.table[i], scans).value, dflt);
  }

  lemma PickedIsValid(w: World, unheld: set<nat>, i: nat, scans: seq<set<nat>>)
    requires Inv(w, unheld) && i < |w.table|
    ensures var r := FirstPick(w.cores, w.table[i], scans); r.Some? ==> w.table[i].pool[r.value] != 0
  {
    FirstPickConnected(w.cores, w.table[i], scans);
    ZeroFindsNothing(w.cores, TcpSock);
  }

  // ----- past 24 bits -----

  /** The handle given for a new socket reaches that socket exactly while ids fit 24 bits. */
  lemma HandleReachesSocketIff(cores: seq<Core>, iface: nat, kind: SockKind)
    requires iface < |cores| && cores[iface].up
    requires forall id :: id in cores[iface].handles ==>
               cores[iface].handles[id] < |cores[iface].slots| && cores[iface].slots[cores[iface].handles[id]].Some?
    ensures var (cs, p) := Open(cores, iface, kind, true);
            && IfaceOf(p) == iface
            && (LocalOf(p) in cs[iface].handles && cs[iface].handles[LocalOf(p)] == FirstVacant(cores[iface].slots)
                <==> cores[iface].nextId < ID_SPAN)
  {
    PackRoundTrip(iface, cores[iface].nextId);
  }
}
