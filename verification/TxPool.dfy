/**
The static TX buffer pool of lib.rs: a 32-bit mask of free buffers, tokens that own one
buffer each, and `Drop`, which gives the buffer back whether or not the token was used.
 */
module TxPool {
  import opened Basics

  /** TX_POOL_N and TX_FRAME. */
  const POOL_N: nat := 16
  const TX_FRAME: nat := 1536

  /** A 32-bit word as its bits, least significant first. */
  type Mask = m: seq<bool> | |m| == 32 witness Repeat(false, 32)

  function Repeat(b: bool, n: nat): (r: seq<bool>)
    ensures |r| == n && forall i :: 0 <= i < n ==> r[i] == b
  {
    if n == 0 then [] else [b] + Repeat(b, n - 1)
  }

  const ZERO: Mask := Repeat(false, 32)

  /** `(1u32 << TX_POOL_N) - 1`. */
  const ALL_FREE: Mask := Repeat(true, POOL_N) + Repeat(false, 32 - POOL_N)

  function TrailingZeros(mask: Mask, from: nat): (i: nat)
    requires from <= 32
    ensures from <= i <= 32
    ensures i < 32 ==> mask[i]
    ensures forall k :: from <= k < i ==> !mask[k]
    decreases 32 - from
  {
    if from == 32 || mask[from] then from else TrailingZeros(mask, from + 1)
  }

  // ----- tokens -----

  /** One EspDevice: its inbox and link flag. */
  datatype Device = Device(inbox: Option<seq<Byte>>, linkUp: bool)

  /** The pool, the devices that share it, and the buffers of the live tokens in the order
      the tokens were made. */
  datatype Tx = Tx(mask: Mask, devices: seq<Device>, live: seq<nat>)

  datatype Use =
    | Push(d: nat, frame: seq<Byte>)
    | Link(d: nat, up: bool)
    | Receive(d: nat)
    | Transmit(d: nat)
    | Consume(t: nat)      // token `t` of the live ones: send, then drop
    | DropUnused(t: nat)   // dropped without being consumed

  /** What a use hands out: at most one token, with the received frame if there is one. */
  datatype Got = Nothing | Token(idx: nat) | Frame(bytes: seq<Byte>, idx: nat)

  function Alloc(t: Tx): (Tx, Option<nat>) {
    if t.mask == ZERO then (t, None)
    else
      var i := TrailingZeros(t.mask, 0);
      (t.(mask := t.mask[i := false], live := t.live + [i]), Some(i))
  }

  function Without(live: seq<nat>, k: nat): seq<nat>
    requires k < |live|
  {
    live[..k] + live[k + 1..]
  }

  function Release(t: Tx, k: nat): Tx
    requires k < |t.live| && t.live[k] < 32
  {
    t.(mask := t.mask[t.live[k] := true], live := Without(t.live, k))
  }

  function Do(t: Tx, u: Use): (Tx, Got) {
    match u
    case Push(d, frame) =>
      if d < |t.devices| && t.devices[d].inbox.None?
      then (t.(devices := t.devices[d := t.devices[d].(inbox := Some(frame))]), Nothing) else (t, Nothing)
    case Link(d, up) =>
      if d < |t.devices| then (t.(devices := t.devices[d := t.devices[d].(linkUp := up)]), Nothing) else (t, Nothing)
    case Receive(d) =>
      if d < |t.devices| && t.devices[d].inbox.Some? then
        var bytes := t.devices[d].inbox.value;
        var (t', i) := Alloc(t.(devices := t.devices[d := t.devices[d].(inbox := None)]));
        (t', if i.Some? then Frame(bytes, i.value) else Nothing)
      else (t, Nothing)
    case Transmit(d) =>
      if d < |t.devices| && t.devices[d].linkUp then
        var (t', i) := Alloc(t);
        (t', if i.Some? then Token(i.value) else Nothing)
      else (t, Nothing)
    case Consume(k) => if k < |t.live| && t.live[k] < 32 then (Release(t, k), Nothing) else (t, Nothing)
    case DropUnused(k) => if k < |t.live| && t.live[k] < 32 then (Release(t, k), Nothing) else (t, Nothing)
  }

  function DoAll(t: Tx, us: seq<Use>): Tx
    decreases |us|
  {
    if us == [] then t else DoAll(Do(t, us[0]).0, us[1..])
  }

  // ----- the mask is the complement of the live tokens -----

  /** Bit `i` is set exactly if buffer `i` exists and no live token has it. */
  ghost predicate PoolOk(t: Tx) {
    && (forall k :: 0 <= k < |t.live| ==> t.live[k] < POOL_N)
    && (forall a, b :: 0 <= a < b < |t.live| ==> t.live[a] != t.live[b])
    && (forall i :: 0 <= i < 32 ==> (t.mask[i] <==> i < POOL_N && i !in t.live))
  }

  lemma SomeBit(mask: Mask)
    requires mask != ZERO
    ensures TrailingZeros(mask, 0) < 32
  {
    assert TrailingZeros(mask, 0) == 32 ==> mask == ZERO;
  }

  lemma AllocKeeps(t: Tx)
    requires PoolOk(t)
    ensures PoolOk(Alloc(t).0)
    ensures Alloc(t).1.None? <==> t.mask == ZERO
    ensures Alloc(t).1.Some? ==> Alloc(t).1.value < POOL_N && Alloc(t).1.value !in t.live
  {
    if t.mask != ZERO {
      SomeBit(t.mask);
    }
  }

  lemma ReleaseKeeps(t: Tx, k: nat)
    requires PoolOk(t) && k < |t.live|
    ensures PoolOk(Release(t, k)) && t.live[k] !in Release(t, k).live
  {
    var v := Release(t, k);
    forall j
      ensures j in v.live <==> j in t.live && j != t.live[k]
    {
      WithoutIs(t.live, k, j);
    }
  }

  lemma WithoutIs(live: seq<nat>, k: nat, j: nat)
    requires k < |live| && forall a, b :: 0 <= a < b < |live| ==> live[a] != live[b]
    ensures j in Without(live, k) <==> j in live && j != live[k]
  {
    var rest := Without(live, k);
    forall a | 0 <= a < |rest|
      ensures rest[a] == if a < k then live[a] else live[a + 1]
    {
    }
    if j in live && j != live[k] {
      var a :| 0 <= a < |live| && live[a] == j;
      assert rest[if a < k then a else a - 1] == j;
    }
  }

  lemma DoKeeps(t: Tx, u: Use)
    requires PoolOk(t)
    ensures PoolOk(Do(t, u).0)
  {
    hide Alloc;
    hide Release;
    match u
    case Push(d, frame) => SamePool(t, Do(t, u).0);
    case Link(d, up) => SamePool(t, Do(t, u).0);
    case Receive(d) =>
      if d < |t.devices| && t.devices[d].inbox.Some? {
        var v := t.(devices := t.devices[d := t.devices[d].(inbox := None)]);
        SamePool(t, v);
        AllocKeeps(v);
      }
    case Transmit(d) => AllocKeeps(t);
    case Consume(k) => if k < |t.live| { ReleaseKeeps(t, k); }
    case DropUnused(k) => if k < |t.live| { ReleaseKeeps(t, k); }
  }

  lemma SamePool(t: Tx, v: Tx)
    requires PoolOk(t) && v.mask == t.mask && v.live == t.live
    ensures PoolOk(v)
  {
  }

  /** At start: every buffer free, no token. */
  predicate Initial(t: Tx) { t.mask == ALL_FREE && t.live == [] }

  lemma InitialOk(t: Tx)
    requires Initial(t)
    ensures PoolOk(t)
  {
  }

  lemma {:induction false} RunKeeps(t: Tx, us: seq<Use>)
    requires PoolOk(t)
    ensures PoolOk(DoAll(t, us))
    decreases |us|
  {
    hide PoolOk;
    hide Do;
    if us != [] {
      DoKeeps(t, us[0]);
      RunKeeps(Do(t, us[0]).0, us[1..]);
    }
  }

  /** In every sequence of uses: the mask is the complement of the live tokens within 16
      bits, no two live tokens share a buffer, and with no live token it is the initial mask. */
  lemma MaskIsComplement(t: Tx, us: seq<Use>)
    requires Initial(t)
    ensures var v := DoAll(t, us);
            && (forall i :: 0 <= i < 32 ==> (v.mask[i] <==> i < 16 && i !in v.live))
            && (forall a, b :: 0 <= a < b < |v.live| ==> v.live[a] != v.live[b])
            && (v.live == [] ==> v.mask == ALL_FREE)
  {
    hide DoAll;
    InitialOk(t);
    RunKeeps(t, us);
  }

  // ----- when allocation fails -----

  /** At most `n` distinct numbers below `n`, and exactly `n` only if all of them. */
  lemma {:induction false} Pigeonhole(live: seq<nat>, n: nat)
    requires forall k :: 0 <= k < |live| ==> live[k] < n
    requires forall a, b :: 0 <= a < b < |live| ==> live[a] != live[b]
    ensures |live| <= n && (|live| == n <==> forall i :: 0 <= i < n ==> i in live)
    decreases n
  {
    if live == [] {
      assert 0 !in live;
    } else {
      assert live[0] < n;
      if n - 1 in live {
        var k :| 0 <= k < |live| && live[k] == n - 1;
        var rest := Without(live, k);
        Pigeonhole(rest, n - 1);
        forall i
          ensures i in rest <==> i in live && i != n - 1
        {
          WithoutIs(live, k, i);
        }
      } else {
        Pigeonhole(live, n - 1);
      }
    }
  }

  /** Allocation fails exactly when all sixteen buffers are held by live tokens. */
  lemma AllocFailsIff(t: Tx)
    requires PoolOk(t)
    ensures Alloc(t).1.None? <==> |t.live| == 16
    ensures |t.live| <= POOL_N
  {
    AllocKeeps(t);
    Pigeonhole(t.live, POOL_N);
    if t.mask == ZERO {
      forall i | 0 <= i < POOL_N
        ensures i in t.live
      {
        assert !t.mask[i];
      }
    } else {
      SomeBit(t.mask);
      var i := TrailingZeros(t.mask, 0);
      assert i < POOL_N && i !in t.live;
    }
  }

  /** receive() takes the frame out of the inbox before it asks for a buffer: the frame is
      lost exactly when all sixteen tokens are live, and is never held for the next poll. */
  lemma ReceiveLosesIff(t: Tx, d: nat)
    requires PoolOk(t) && d < |t.devices| && t.devices[d].inbox.Some?
    ensures var (v, got) := Do(t, Receive(d));
            && v.devices[d].inbox.None?
            && (got == Nothing <==> |t.live| == 16)
            && (got != Nothing ==> got.Frame? && got.bytes == t.devices[d].inbox.value)
  {
    var v := t.(devices := t.devices[d := t.devices[d].(inbox := None)]);
    SamePool(t, v);
    AllocFailsIff(v);
  }

  /** The inbox keeps the older frame: a push is stored exactly if the inbox is empty. */
  lemma PushKeepsOldest(t: Tx, d: nat, frame: seq<Byte>)
    requires d < |t.devices|
    ensures var (v, got) := Do(t, Push(d, frame));
            && got == Nothing && v.mask == t.mask && v.live == t.live && |v.devices| == |t.devices|
            && v.devices[d].inbox == (if t.devices[d].inbox.Some? then t.devices[d].inbox else Some(frame))
            && v.devices[d].linkUp == t.devices[d].linkUp
            && forall e :: 0 <= e < |t.devices| && e != d ==> v.devices[e] == t.devices[e]
  {
  }

  /** A transmit token is handed out exactly if the link is up and fewer than sixteen are live;
      an empty inbox yields nothing and costs no buffer. */
  lemma TransmitSucceedsIff(t: Tx, d: nat)
    requires PoolOk(t) && d < |t.devices|
    ensures var (v, got) := Do(t, Transmit(d));
            && (got.Token? <==> t.devices[d].linkUp && |t.live| < POOL_N)
            && (got.Token? ==> got.idx < POOL_N && got.idx !in t.live && v.live == t.live + [got.idx])
            && (!got.Token? ==> got == Nothing && v == t)
    ensures t.devices[d].inbox.None? ==> Do(t, Receive(d)) == (t, Nothing)
  {
    AllocFailsIff(t);
    AllocKeeps(t);
    hide PoolOk;
  }

  /** A token that is consumed or dropped gives back its own buffer; the other tokens keep theirs. */
  lemma TokenFreesItsOwn(t: Tx, k: nat, u: Use)
    requires PoolOk(t) && k < |t.live| && (u == Consume(k) || u == DropUnused(k))
    ensures var v := Do(t, u).0;
            && t.live[k] !in v.live && v.mask[t.live[k]]
            && (forall b :: b in t.live && b != t.live[k] ==> b in v.live)
            && v.devices == t.devices
  {
    var v := Do(t, u).0;
    ReleaseKeeps(t, k);
    forall b
      ensures b in v.live <==> b in t.live && b != t.live[k]
    {
      WithoutIs(t.live, k, b);
    }
  }

  /** The link flag is what was set last, and decides whether the next transmit may have a token. */
  lemma LinkDecides(t: Tx, d: nat, up: bool)
    requires PoolOk(t) && d < |t.devices|
    ensures var v := Do(t, Link(d, up)).0;
            && v.mask == t.mask && v.live == t.live && |v.devices| == |t.devices|
            && v.devices[d].inbox == t.devices[d].inbox
            && (Do(v, Transmit(d)).1.Token? <==> up && |t.live| < POOL_N)
  {
    var v := Do(t, Link(d, up)).0;
    SamePool(t, v);
    TransmitSucceedsIff(v, d);
    hide PoolOk;
  }

  /** `n` transmissions without a drop. */
  function Bursts(d: nat, n: nat): seq<Use> {
    if n == 0 then [] else [Transmit(d)] + Bursts(d, n - 1)
  }

  lemma {:induction false} BurstHolds(t: Tx, d: nat, n: nat)
    requires PoolOk(t) && d < |t.devices| && t.devices[d].linkUp && |t.live| + n <= POOL_N
    ensures PoolOk(DoAll(t, Bursts(d, n))) && DoAll(t, Bursts(d, n)).devices == t.devices
    ensures |DoAll(t, Bursts(d, n)).live| == |t.live| + n
    decreases n
  {
    hide PoolOk;
    hide Do;
    if n > 0 {
      TransmitHolds(t, d);
      BurstHolds(Do(t, Transmit(d)).0, d, n - 1);
      BurstFirst(t, d, n);
      hide DoAll;
      hide Bursts;
    }
  }

  lemma BurstFirst(t: Tx, d: nat, n: nat)
    requires n > 0
    ensures DoAll(t, Bursts(d, n)) == DoAll(Do(t, Transmit(d)).0, Bursts(d, n - 1))
  {
    hide Do;
    var us := Bursts(d, n);
    assert us[0] == Transmit(d) && us[1..] == Bursts(d, n - 1);
  }

  lemma TransmitHolds(t: Tx, d: nat)
    requires PoolOk(t) && d < |t.devices| && t.devices[d].linkUp && |t.live| < POOL_N
    ensures var v := Do(t, Transmit(d)).0;
            PoolOk(v) && |v.live| == |t.live| + 1 && v.devices == t.devices
  {
    AllocFailsIff(t);
    DoKeeps(t, Transmit(d));
    hide PoolOk;
  }

  /** From start-up on a device that is up: sixteen transmissions, then a frame comes in and is
      received. It is gone, and no token was made for it. */
  lemma FrameLostRun(t: Tx, d: nat, n: nat, frame: seq<Byte>)
    requires Initial(t) && d < |t.devices| && t.devices[d] == Device(None, true) && n == POOL_N
    ensures var busy := Do(DoAll(t, Bursts(d, n)), Push(d, frame)).0;
            var (v, got) := Do(busy, Receive(d));
            && d < |busy.devices| && busy.devices[d].inbox == Some(frame)
            && got == Nothing && d < |v.devices| && v.devices[d].inbox == None && v.live == busy.live
  {
    InitialOk(t);
    BurstHolds(t, d, n);
    hide DoAll;
    var full := DoAll(t, Bursts(d, n));
    DoKeeps(full, Push(d, frame));
    ReceiveLosesIff(Do(full, Push(d, frame)).0, d);
    hide PoolOk;
  }
}
