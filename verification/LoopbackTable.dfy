/** loopback.c as it runs: a static slot array searched and changed in place. */
module LoopbackTable {
  import opened Basics
  import opened Loopback

  class LoopbackTable {
    const slots: array<Slot>
    const table: array<Entry>
    ghost var closed: seq<Closed>

    ghost function State(): Lo
      reads this, slots, table
    {
      Lo(slots[..], table[..], closed)
    }

    ghost predicate Valid()
      reads this, slots, table
    {
      Sound(State())
    }

    constructor (maxFds: nat)
      ensures fresh(slots) && fresh(table) && table.Length == maxFds
      ensures Initial(State()) && Valid()
    {
      slots := new Slot[SLOTS](_ => Slot(0, 0));
      table := new Entry[maxFds](_ => Entry(false, false, 0, 0, None));
      closed := [];
      new;
      assert slots[..] == [Slot(0, 0), Slot(0, 0), Slot(0, 0), Slot(0, 0)];
      InitialSound(State());
    }

    /** lo_bind, after bind() has stored address and port in the entry. */
    method LoBind(port: nat, i: nat, memory: bool) returns (ok: bool)
      requires i < table.Length && table[i].localPort == port && table[i].live && Valid()
      modifies slots, table
      ensures Valid()
      ensures var r := DoBind(old(State()), i, old(table[i].localIp), port, memory);
              State() == r.0 && ok == (r.1 == Done(0))
    {
      ghost var s := State();
      assert s.table[i := s.table[i]] == s.table;
      StepSound(s, Call.BindLoopback(i, table[i].localIp, port, memory));
      hide Sound;
      if port == 0 {
        return false;
      }
      if table[i].rx.None? {
        if !memory {
          return false;
        }
        table[i] := table[i].(rx := Some(Queue([], [], [])));
      }
      table[i] := table[i].(loopback := true);
      assert table[..] == s.table[i := table[i]];
      var freeSlot := -1;
      for k := 0 to slots.Length
        invariant slots[..] == s.slots && table[..] == s.table[i := table[i]]
        invariant table[i] == s.table[i].(loopback := true, rx := table[i].rx)
        invariant table[i].rx == if s.table[i].rx.None? then Some(Queue([], [], [])) else s.table[i].rx
        invariant forall n :: 0 <= n < k ==> slots[n].port != port
        invariant freeSlot == -1 ==> forall n :: 0 <= n < k ==> slots[n].port != 0
        invariant freeSlot != -1 ==> 0 <= freeSlot < k && slots[freeSlot].port == 0
                                     && forall n :: 0 <= n < freeSlot ==> slots[n].port != 0
      {
        if slots[k].port == port {
          FindIs(s.slots, port, k);
          slots[k] := Slot(port, i);
          assert slots[..] == s.slots[k := Slot(port, i)];
          return true;
        }
        if freeSlot < 0 && slots[k].port == 0 {
          freeSlot := k;
        }
      }
      FindIs(s.slots, port, |s.slots|);
      if freeSlot < 0 {
        FindIs(s.slots, 0, |s.slots|);
        return false;
      }
      FindIs(s.slots, 0, freeSlot);
      slots[freeSlot] := Slot(port, i);
      assert slots[..] == s.slots[freeSlot := Slot(port, i)];
      return true;
    }

    method ClearSlots(port: nat, i: nat)
      modifies slots
      ensures slots[..] == Cleared(old(slots[..]), port, i)
    {
      hide Cleared;
      ghost var before := slots[..];
      ghost var after := Cleared(before, port, i);
      for k := 0 to slots.Length
        invariant forall n :: 0 <= n < k ==> slots[n] == after[n]
        invariant forall n :: k <= n < slots.Length ==> slots[n] == before[n]
      {
        if slots[k].port == port && slots[k].fd == i {
          slots[k] := Slot(0, 0);
        }
      }
    }

    /** lo_unbind and the queue deletion of fd_free; every datagram still queued is freed. */
    method LoUnbind(port: nat, i: nat)
      requires i < table.Length && table[i].loopback && table[i].localPort == port && Valid()
      modifies this, slots, table
      ensures Valid() && State() == DoClose(old(State()), i)
    {
      ghost var s := State();
      assert EntryOk(s.table[i]);
      CloseSound(s, i);
      hide Sound;
      ClearSlots(port, i);
      var e := table[i];
      var left := e.rx.value.msgs;
      ghost var freed: seq<Msg> := [];
      while left != []
        invariant freed + left == e.rx.value.msgs
        decreases |left|
      {
        freed := freed + [left[0]];
        left := left[1..];
      }
      assert freed == e.rx.value.msgs;
      closed := closed + [Closed(i, e.rx.value.sent, e.rx.value.got, freed)];
      table[i] := e.(live := false, loopback := false, rx := None);
      assert table[..] == s.table[i := table[i]];
    }

    /** lo_deliver from entry `i`. */
    method LoDeliver(i: nat, dstPort: nat, data: seq<Byte>, memory: bool) returns (n: int)
      requires i < table.Length && table[i].live && Valid()
      modifies table
      ensures Valid()
      ensures var r := DoSend(old(State()), i, dstPort, data, memory);
              State() == r.0 && n == if r.1 == Failed then -1 else |data|
    {
      ghost var s := State();
      StepSound(s, SendTo(i, dstPort, data, memory));
      hide Sound;
      if |data| > MAX_LEN {
        return -1;
      }
      var k := 0;
      while k < slots.Length && slots[k].port != dstPort
        invariant 0 <= k <= slots.Length && forall n :: 0 <= n < k ==> slots[n].port != dstPort
      {
        k := k + 1;
      }
      FindIs(s.slots, dstPort, k);
      if k == slots.Length || dstPort == 0 || slots[k].fd >= table.Length || table[slots[k].fd].rx.None? || !memory {
        return -1;
      }
      var j := slots[k].fd;
      var q := table[j].rx.value;
      if |q.msgs| >= DEPTH {
        return -1;
      }
      var m := Msg(table[i].localIp, table[i].localPort, data);
      table[j] := table[j].(rx := Some(q.(msgs := q.msgs + [m], sent := q.sent + [m])));
      assert table[..] == s.table[j := table[j]];
      return |data|;
    }

    /** The loopback path of recvfrom on entry `i` with a buffer of `cap` bytes; None when the
        wait ends without a datagram. */
    method RecvFrom(i: nat, cap: nat) returns (r: Option<(Msg, seq<Byte>)>)
      requires i < table.Length && table[i].live && table[i].loopback && Valid()
      modifies table
      ensures Valid()
      ensures var d := DoRecv(old(State()), i, cap);
              State() == d.0 && d.1 == if r.None? then Failed else Received(r.value.0, r.value.1)
    {
      ghost var s := State();
      StepSound(s, Call.RecvFrom(i, cap));
      hide Sound;
      if table[i].rx.None? || table[i].rx.value.msgs == [] {
        return None;
      }
      var q := table[i].rx.value;
      var m := q.msgs[0];
      var copy := if |m.data| < cap then |m.data| else cap;
      table[i] := table[i].(rx := Some(q.(msgs := q.msgs[1..], got := q.got + [m])));
      assert table[..] == s.table[i := table[i]];
      return Some((m, m.data[..copy]));
    }
  }

  lemma FindIs(slots: seq<Slot>, port: nat, k: nat)
    requires k <= |slots| && (k < |slots| ==> slots[k].port == port)
    requires forall n :: 0 <= n < k ==> slots[n].port != port
    ensures Find(slots, port) == k
  {
  }
}
