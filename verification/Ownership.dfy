/**
Who owns which socket. A live socket is either held by exactly one place of the
descriptor table (the `sock` of an entry in use or one slot of its listener pool) or
by nobody there. Counting places per handle says all of it in one equation.
 */
module Ownership {
  import opened Basics
  import opened SocketCore
  import opened SocketCalls

  // ----- how many places hold a handle -----

  function CountIn(e: Entry, p: nat): nat {
    if e.kind == FreeFd then 0 else Tick(e.sock == p) + multiset(e.pool)[p]
  }

  function Count(table: seq<Entry>, p: nat): nat {
    if table == [] then 0 else CountIn(table[0], p) + Count(table[1..], p)
  }

  lemma {:induction false} CountUpdate(table: seq<Entry>, i: nat, e: Entry, p: nat)
    requires i < |table|
    ensures Count(table[i := e], p) == Count(table, p) - CountIn(table[i], p) + CountIn(e, p)
    ensures CountIn(table[i], p) <= Count(table, p)
  {
    if i == 0 {
      assert table[i := e][1..] == table[1..];
    } else {
      CountUpdate(table[1..], i - 1, e, p);
      assert table[i := e][1..] == table[1..][i - 1 := e];
    }
  }

  lemma CountTwo(table: seq<Entry>, i: nat, j: nat, p: nat)
    requires i < |table| && j < |table| && i != j
    ensures CountIn(table[i], p) + CountIn(table[j], p) <= Count(table, p)
  {
    var none := table[i].(kind := FreeFd);
    CountUpdate(table, i, none, p);
    CountUpdate(table[i := none], j, table[j], p);
  }

  lemma {:induction false} CountNone(table: seq<Entry>, p: nat)
    requires forall i :: 0 <= i < |table| ==> table[i].kind == FreeFd
    ensures Count(table, p) == 0
  {
    if table != [] {
      CountNone(table[1..], p);
    }
  }

  // ----- the invariant -----

  predicate Shape(e: Entry) {
    && (e.kind == ListenFd ==> e.poolNext < |e.pool|)
    && (e.kind == TcpFd || e.kind == UdpFd ==> e.pool == [])
  }

  ghost predicate EntryOk(e: Entry, kinds: map<nat, SockKind>) {
    && Shape(e)
    && (forall p :: p in kinds && CountIn(e, p) > 0 ==> kinds[p] == SockKindOf(e.kind))
  }

  /** Each valid handle is held once or unheld if its socket is live, and nowhere if not. */
  ghost predicate Accounted(table: seq<Entry>, kinds: map<nat, SockKind>, unheld: set<nat>, p: nat) {
    p == 0 || Count(table, p) + Tick(p in unheld) == Tick(p in kinds)
  }

  ghost predicate Owns(table: seq<Entry>, kinds: map<nat, SockKind>, unheld: set<nat>) {
    && 0 !in kinds && 0 !in unheld
    && (forall p :: Accounted(table, kinds, unheld, p))
    && (forall i :: 0 <= i < |table| ==> EntryOk(table[i], kinds))
  }

  ghost predicate Inv(w: World, unheld: set<nat>) {
    && 1 <= w.poolMax
    && CoresOk(w.cores)
    && Owns(w.table, Kinds(w.cores), unheld)
  }

  // ----- the moves that keep it -----

  /** `e` holds what `f` holds and, if it is not 0, the handle `p`. */
  ghost predicate HoldsMore(e: Entry, f: Entry, p: nat) {
    forall q: nat :: q != 0 ==> CountIn(e, q) == CountIn(f, q) + Tick(q == p)
  }

  /** `e` may take the place of `f`: same protocol, or one of them free. */
  predicate Fits(e: Entry, f: Entry) {
    Shape(e) && (e.kind == FreeFd || f.kind == FreeFd || SockKindOf(e.kind) == SockKindOf(f.kind))
  }

  lemma OwnsKeep(table: seq<Entry>, kinds: map<nat, SockKind>, unheld: set<nat>, i: nat, e: Entry)
    requires Owns(table, kinds, unheld) && i < |table| && Fits(e, table[i])
    requires HoldsMore(e, table[i], 0)
    ensures Owns(table[i := e], kinds, unheld)
  {
    var t := table[i := e];
    assert EntryOk(table[i], kinds);
    forall p: nat
      ensures Accounted(t, kinds, unheld, p)
    {
      assert Accounted(table, kinds, unheld, p);
      CountUpdate(table, i, e, p);
    }
  }

  lemma OwnsGain(table: seq<Entry>, kinds: map<nat, SockKind>, unheld: set<nat>, i: nat, e: Entry, p: nat)
    requires Owns(table, kinds, unheld) && i < |table| && p !in kinds && p != 0
    requires Fits(e, table[i])
    requires HoldsMore(e, table[i], p)
    ensures Owns(table[i := e], kinds[p := SockKindOf(e.kind)], unheld)
  {
    var t := table[i := e];
    assert EntryOk(table[i], kinds);
    var after := kinds[p := SockKindOf(e.kind)];
    forall q: nat
      ensures Accounted(t, after, unheld, q)
    {
      assert Accounted(table, kinds, unheld, q);
      CountUpdate(table, i, e, q);
    }
    forall j | 0 <= j < |table| && j != i
      ensures EntryOk(table[j], after)
    {
      assert EntryOk(table[j], kinds);
      assert Accounted(table, kinds, unheld, p);
      CountUpdate(table, j, table[j], p);
    }
  }

  lemma OwnsLose(table: seq<Entry>, kinds: map<nat, SockKind>, unheld: set<nat>, i: nat, e: Entry, p: nat)
    requires Owns(table, kinds, unheld) && i < |table| && p != 0 && Fits(e, table[i])
    requires HoldsMore(table[i], e, p)
    ensures p in kinds && kinds[p] == SockKindOf(table[i].kind)
    ensures Owns(table[i := e], kinds - {p}, unheld)
  {
    var t := table[i := e];
    assert EntryOk(table[i], kinds);
    assert Accounted(table, kinds, unheld, p);
    CountUpdate(table, i, e, p);
    forall q: nat
      ensures Accounted(t, kinds - {p}, unheld, q)
    {
      assert Accounted(table, kinds, unheld, q);
      CountUpdate(table, i, e, q);
    }
  }

  /** An entry lets go of `p` without closing it. */
  lemma OwnsForget(table: seq<Entry>, kinds: map<nat, SockKind>, unheld: set<nat>, i: nat, e: Entry, p: nat)
    requires Owns(table, kinds, unheld) && i < |table| && p != 0 && Fits(e, table[i])
    requires HoldsMore(table[i], e, p)
    ensures Owns(table[i := e], kinds, unheld + {p})
  {
    var t := table[i := e];
    assert EntryOk(table[i], kinds);
    forall q: nat
      ensures Accounted(t, kinds, unheld + {p}, q)
    {
      assert Accounted(table, kinds, unheld, q);
      CountUpdate(table, i, e, q);
    }
  }
}
