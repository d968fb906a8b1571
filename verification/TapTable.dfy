/** The L2 tap table of esp_smoltcp.c and the bounded map it stands for. */
module TapTable {
  import opened Basics

  /** L2_TAP_SLOTS. */
  const SLOTS: nat := 4

  /** EtherType 0 marks an unused slot, callback 0 is NULL. */
  datatype Tap = Tap(ethertype: nat, cb: nat, user: nat)

  datatype Handler = Handler(cb: nat, user: nat)

  function Find(taps: seq<Tap>, et: nat): (k: nat)
    ensures k <= |taps| && (k < |taps| ==> taps[k].ethertype == et)
    ensures forall n :: 0 <= n < k ==> taps[n].ethertype != et
  {
    if taps == [] || taps[0].ethertype == et then 0 else 1 + Find(taps[1..], et)
  }

  /** net_stack_l2_tap: the new table, or None for ESP_ERR_NO_MEM. */
  function Install(taps: seq<Tap>, et: nat, cb: nat, user: nat): Option<seq<Tap>> {
    var k := Find(taps, et);
    var free := Find(taps, 0);
    if k < |taps| then Some(taps[k := Tap(if cb == 0 then 0 else et, cb, user)])
    else if cb == 0 then Some(taps)
    else if free < |taps| then Some(taps[free := Tap(et, cb, user)])
    else None
  }

  /** The handler dispatch_tap calls for an EtherType. */
  function Dispatch(taps: seq<Tap>, et: nat): Option<Handler> {
    if taps == [] then None
    else if taps[0].ethertype == et && taps[0].cb != 0 then Some(Handler(taps[0].cb, taps[0].user))
    else Dispatch(taps[1..], et)
  }

  // ----- the map -----

  function One(t: Tap): map<nat, Handler> {
    if t.ethertype == 0 then map[] else map[t.ethertype := Handler(t.cb, t.user)]
  }

  function AsMap(taps: seq<Tap>): map<nat, Handler> {
    if taps == [] then map[] else AsMap(taps[1..]) + One(taps[0])
  }

  /** No EtherType twice, and a slot has a callback exactly if it is in use. */
  predicate TapsOk(taps: seq<Tap>) {
    && (forall a, b :: 0 <= a < b < |taps| && taps[a].ethertype != 0 ==> taps[a].ethertype != taps[b].ethertype)
    && (forall k :: 0 <= k < |taps| ==> (taps[k].ethertype == 0 <==> taps[k].cb == 0))
  }

  lemma {:induction false} AsMapAt(taps: seq<Tap>, et: nat)
    requires TapsOk(taps)
    ensures et in AsMap(taps) <==> et != 0 && Find(taps, et) < |taps|
    ensures et in AsMap(taps) ==> AsMap(taps)[et] == Handler(taps[Find(taps, et)].cb, taps[Find(taps, et)].user)
    ensures Dispatch(taps, et) == if et in AsMap(taps) then Some(AsMap(taps)[et]) else None
  {
    if taps != [] {
      var rest := taps[1..];
      assert forall k :: 0 <= k < |rest| ==> rest[k] == taps[k + 1];
      AsMapAt(rest, et);
    }
  }

  function Used(taps: seq<Tap>): nat {
    if taps == [] then 0 else (if taps[0].ethertype != 0 then 1 else 0) + Used(taps[1..])
  }

  lemma {:induction false} AsMapSize(taps: seq<Tap>)
    requires TapsOk(taps)
    ensures |AsMap(taps)| == Used(taps) <= |taps|
    ensures Used(taps) == |taps| <==> Find(taps, 0) == |taps|
  {
    if taps != [] {
      var rest := taps[1..];
      assert forall k :: 0 <= k < |rest| ==> rest[k] == taps[k + 1];
      AsMapSize(rest);
      AsMapAt(rest, taps[0].ethertype);
      assert AsMap(taps).Keys == AsMap(rest).Keys + One(taps[0]).Keys;
    }
  }

  lemma InstallKeeps(taps: seq<Tap>, et: nat, cb: nat, user: nat)
    requires TapsOk(taps) && et != 0
    ensures Install(taps, et, cb, user).Some? ==>
              TapsOk(Install(taps, et, cb, user).value) && |Install(taps, et, cb, user).value| == |taps|
  {
  }

  lemma FindAfterSet(taps: seq<Tap>, at: nat, t: Tap, q: nat)
    requires at < |taps| && TapsOk(taps) && TapsOk(taps[at := t]) && q != 0
    ensures q == t.ethertype ==> Find(taps[at := t], q) == at
    ensures q != t.ethertype && q == taps[at].ethertype ==> Find(taps[at := t], q) == |taps|
    ensures q != t.ethertype && q != taps[at].ethertype ==> Find(taps[at := t], q) == Find(taps, q)
  {
    if q == t.ethertype {
      FindIs(taps[at := t], q, at);
    } else if q == taps[at].ethertype {
      FindIs(taps[at := t], q, |taps|);
    } else {
      FindIs(taps[at := t], q, Find(taps, q));
    }
  }

  /** Writing one slot replaces one entry of the map by another. */
  lemma SetIsMapUpdate(taps: seq<Tap>, at: nat, t: Tap)
    requires at < |taps| && TapsOk(taps) && TapsOk(taps[at := t])
    ensures AsMap(taps[at := t]) == AsMap(taps) - {taps[at].ethertype} + One(t)
  {
    var after, want := taps[at := t], AsMap(taps) - {taps[at].ethertype} + One(t);
    forall q: nat
      ensures q in AsMap(after) <==> q in want
      ensures q in want ==> AsMap(after)[q] == want[q]
    {
      AsMapAt(taps, q);
      AsMapAt(after, q);
      hide AsMap;
      hide Find;
      if q != 0 {
        FindAfterSet(taps, at, t, q);
      }
    }
    assert AsMap(after) == want;
  }

  /** Registering puts the handler into the map unless the map is full and the key is new;
      clearing removes the key and always succeeds. */
  lemma InstallIsMapUpdate(taps: seq<Tap>, et: nat, cb: nat, user: nat)
    requires TapsOk(taps) && et != 0
    ensures var m, r := AsMap(taps), Install(taps, et, cb, user);
            && (r.None? <==> cb != 0 && et !in m && |m| == |taps|)
            && (r.Some? ==> AsMap(r.value) == if cb == 0 then m - {et} else m[et := Handler(cb, user)])
  {
    AsMapAt(taps, et);
    AsMapSize(taps);
    hide AsMap;
    hide Find;
    hide TapsOk;
    if Install(taps, et, cb, user).Some? {
      InstalledMap(taps, et, cb, user);
    }
  }

  lemma InstalledMap(taps: seq<Tap>, et: nat, cb: nat, user: nat)
    requires TapsOk(taps) && et != 0 && Install(taps, et, cb, user).Some?
    ensures AsMap(Install(taps, et, cb, user).value)
            == if cb == 0 then AsMap(taps) - {et} else AsMap(taps)[et := Handler(cb, user)]
  {
    AsMapAt(taps, et);
    AsMapAt(taps, 0);
    InstallKeeps(taps, et, cb, user);
    hide AsMap;
    hide Find;
    hide TapsOk;
    var m, h := AsMap(taps), Handler(cb, user);
    MapFacts(m, et, h);
    MapFacts(m, 0, h);
    if Find(taps, et) < |taps| {
      SetIsMapUpdate(taps, Find(taps, et), Tap(if cb == 0 then 0 else et, cb, user));
    } else if cb != 0 {
      SetIsMapUpdate(taps, Find(taps, 0), Tap(et, cb, user));
    }
  }

  lemma MapFacts(m: map<nat, Handler>, e: nat, h: Handler)
    ensures m - {e} + map[e := h] == m[e := h]
    ensures m - {e} + map[] == m - {e}
    ensures e !in m ==> m - {e} == m && forall q: nat :: m + map[q := h] == m[q := h]
  {
  }

  // ----- runs -----

  datatype Request = Request(et: nat, cb: nat, user: nat)

  function After(taps: seq<Tap>, q: Request): seq<Tap> {
    var r := Install(taps, q.et, q.cb, q.user);
    if r.Some? then r.value else taps
  }

  function AfterAll(taps: seq<Tap>, qs: seq<Request>): seq<Tap>
    decreases |qs|
  {
    if qs == [] then taps else AfterAll(After(taps, qs[0]), qs[1..])
  }

  /** The bounded map, on its own terms. */
  function MapAfter(m: map<nat, Handler>, q: Request): map<nat, Handler> {
    if q.cb == 0 then m - {q.et}
    else if q.et in m || |m| < SLOTS then m[q.et := Handler(q.cb, q.user)]
    else m
  }

  function MapAfterAll(m: map<nat, Handler>, qs: seq<Request>): map<nat, Handler>
    decreases |qs|
  {
    if qs == [] then m else MapAfterAll(MapAfter(m, qs[0]), qs[1..])
  }

  /** The request does to the bounded map what it does to the table: it has a non-zero
      EtherType, or it only clears, or it finds the map full and is refused by both. */
  predicate Follows(m: map<nat, Handler>, q: Request) {
    q.et != 0 || q.cb == 0 || |m| == SLOTS
  }

  lemma ClearZero(taps: seq<Tap>, user: nat)
    requires TapsOk(taps)
    ensures var t := After(taps, Request(0, 0, user));
            TapsOk(t) && |t| == |taps| && AsMap(t) == AsMap(taps) - {0}
  {
    AsMapAt(taps, 0);
    hide AsMap;
    MapFacts(AsMap(taps), 0, Handler(0, 0));
    var k := Find(taps, 0);
    if k < |taps| {
      SetIsMapUpdate(taps, k, Tap(0, 0, user));
    }
  }

  /** Table and map agree after a request exactly if the request follows the map: a callback
      for EtherType 0 goes into a slot that stays marked as unused. */
  lemma FollowsMapIff(taps: seq<Tap>, q: Request)
    requires TapsOk(taps) && |taps| == SLOTS
    ensures var t := After(taps, q);
            && |t| == SLOTS
            && (TapsOk(t) && AsMap(t) == MapAfter(AsMap(taps), q) <==> Follows(AsMap(taps), q))
  {
    AsMapAt(taps, 0);
    AsMapSize(taps);
    if q.et != 0 {
      InstallKeeps(taps, q.et, q.cb, q.user);
      InstallIsMapUpdate(taps, q.et, q.cb, q.user);
      hide Install;
    } else if q.cb == 0 {
      ClearZero(taps, q.user);
    } else if Find(taps, 0) < |taps| {
      assert After(taps, q)[Find(taps, 0)] == Tap(0, q.cb, q.user);
    }
  }

  /** After every request of the run the table is well formed and equals the map. */
  predicate Tracks(taps: seq<Tap>, m: map<nat, Handler>, qs: seq<Request>)
    decreases |qs|
  {
    && TapsOk(taps) && AsMap(taps) == m
    && (qs == [] || Tracks(After(taps, qs[0]), MapAfter(m, qs[0]), qs[1..]))
  }

  predicate AllFollow(m: map<nat, Handler>, qs: seq<Request>)
    decreases |qs|
  {
    qs == [] || (Follows(m, qs[0]) && AllFollow(MapAfter(m, qs[0]), qs[1..]))
  }

  /** Over a whole run the table is the bounded map throughout exactly if every request follows it. */
  lemma {:induction false} TracksIffAllFollow(taps: seq<Tap>, qs: seq<Request>)
    requires TapsOk(taps) && |taps| == SLOTS
    ensures Tracks(taps, AsMap(taps), qs) <==> AllFollow(AsMap(taps), qs)
    decreases |qs|
  {
    hide Follows;
    hide After;
    hide AsMap;
    hide MapAfter;
    hide TapsOk;
    if qs != [] {
      FollowsMapIff(taps, qs[0]);
      if Follows(AsMap(taps), qs[0]) {
        TracksIffAllFollow(After(taps, qs[0]), qs[1..]);
      }
    }
  }

  /** In any run of requests that follow the map, dispatch follows it for every EtherType. */
  lemma {:induction false} TableIsBoundedMap(taps: seq<Tap>, qs: seq<Request>, et: nat)
    requires TapsOk(taps) && |taps| == SLOTS && AllFollow(AsMap(taps), qs)
    ensures var t, m := AfterAll(taps, qs), MapAfterAll(AsMap(taps), qs);
            && TapsOk(t) && |t| == 4 && AsMap(t) == m && |m| <= 4
            && Dispatch(t, et) == if et in m then Some(m[et]) else None
    decreases |qs|
  {
    if qs == [] {
      AsMapAt(taps, et);
      AsMapSize(taps);
    } else {
      FollowsMapIff(taps, qs[0]);
      hide Follows;
      hide After;
      TableIsBoundedMap(After(taps, qs[0]), qs[1..], et);
    }
  }

  lemma {:induction false} NonZeroFollow(m: map<nat, Handler>, qs: seq<Request>)
    requires forall k :: 0 <= k < |qs| ==> qs[k].et != 0
    ensures AllFollow(m, qs)
    decreases |qs|
  {
    hide MapAfter;
    if qs != [] {
      NonZeroFollow(MapAfter(m, qs[0]), qs[1..]);
    }
  }

  /** A run that does not follow the map: on the empty table a callback for EtherType 0 is
      dispatched to, and the next new EtherType takes its slot. */
  lemma ZeroEtherTypeIsOverwritten(cb: nat, other: nat)
    requires cb != 0 && other != 0
    ensures var free := Tap(0, 0, 0);
            var t := After([free, free, free, free], Request(0, cb, 0));
            Dispatch(t, 0) == Some(Handler(cb, 0)) && Dispatch(After(t, Request(other, cb, 0)), 0) == None
  {
    var free := Tap(0, 0, 0);
    var t := After([free, free, free, free], Request(0, cb, 0));
    assert t == [Tap(0, cb, 0), free, free, free];
    assert Find(t, other) == 4 && Find(t, 0) == 0;
    var u := After(t, Request(other, cb, 0));
    assert u == [Tap(other, cb, 0), free, free, free];
    assert Dispatch(u[1..][1..][1..][1..], 0) == None;
    assert Dispatch(u[1..][1..], 0) == None;
  }

  /** The EtherTypes that dispatch finds a callback for, whatever was registered. */
  function Keys(taps: seq<Tap>): set<nat> {
    set k | 0 <= k < |taps| && taps[k].cb != 0 :: taps[k].ethertype
  }

  lemma {:induction false} DispatchesKeys(taps: seq<Tap>, et: nat)
    ensures Dispatch(taps, et).Some? <==> et in Keys(taps)
  {
    if taps != [] {
      var rest := taps[1..];
      assert forall k :: 0 <= k < |rest| ==> rest[k] == taps[k + 1];
      DispatchesKeys(rest, et);
      if et in Keys(taps) {
        var k :| 0 <= k < |taps| && taps[k].cb != 0 && taps[k].ethertype == et;
        assert k > 0 ==> rest[k - 1] == taps[k];
      }
    }
  }

  // ----- the table in place -----

  class Taps {
    const slots: array<Tap>

    constructor ()
      ensures fresh(slots) && slots.Length == SLOTS && TapsOk(slots[..]) && AsMap(slots[..]) == map[]
    {
      slots := new Tap[SLOTS](_ => Tap(0, 0, 0));
      new;
      hide AsMap;
      hide TapsOk;
      FreshTable(slots[..]);
    }

    method L2Tap(et: nat, cb: nat, user: nat) returns (ok: bool)
      modifies slots
      ensures ok == Install(old(slots[..]), et, cb, user).Some?
      ensures slots[..] == After(old(slots[..]), Request(et, cb, user))
    {
      ghost var before := slots[..];
      var k := 0;
      while k < slots.Length && slots[k].ethertype != et
        invariant 0 <= k <= slots.Length && forall n :: 0 <= n < k ==> slots[n].ethertype != et
      {
        k := k + 1;
      }
      FindIs(before, et, k);
      if k < slots.Length {
        slots[k] := Tap(if cb == 0 then 0 else et, cb, user);
        assert slots[..] == before[k := slots[k]];
        return true;
      }
      if cb == 0 {
        return true;
      }
      k := 0;
      while k < slots.Length && slots[k].ethertype != 0
        invariant 0 <= k <= slots.Length && forall n :: 0 <= n < k ==> slots[n].ethertype != 0
      {
        k := k + 1;
      }
      FindIs(before, 0, k);
      if k < slots.Length {
        slots[k] := Tap(et, cb, user);
        assert slots[..] == before[k := slots[k]];
        return true;
      }
      return false;
    }

    /** dispatch_tap on the EtherType of a frame. */
    method DispatchTap(et: nat) returns (h: Option<Handler>)
      ensures h == Dispatch(slots[..], et)
    {
      for k := 0 to slots.Length
        invariant Dispatch(slots[k..], et) == Dispatch(slots[..], et)
      {
        assert slots[k..][1..] == slots[k + 1..];
        if slots[k].ethertype == et && slots[k].cb != 0 {
          return Some(Handler(slots[k].cb, slots[k].user));
        }
      }
      return None;
    }
  }

  lemma FindIs(taps: seq<Tap>, et: nat, k: nat)
    requires k <= |taps| && (k < |taps| ==> taps[k].ethertype == et)
    requires forall n :: 0 <= n < k ==> taps[n].ethertype != et
    ensures Find(taps, et) == k
  {
  }

  lemma {:induction false} FreshTable(taps: seq<Tap>)
    requires forall k :: 0 <= k < |taps| ==> taps[k] == Tap(0, 0, 0)
    ensures TapsOk(taps) && AsMap(taps) == map[]
  {
    if taps != [] {
      FreshTable(taps[1..]);
    }
  }
}
