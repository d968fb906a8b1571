/** The same pool as the program holds it: one static mask, changed in place by every device. */
module TxDevice {
  import opened Basics
  import opened TxPool

  class Pool {
    var freeMask: Mask
    ghost var live: seq<nat>   // buffers of the tokens not yet dropped

    ghost predicate Valid()
      reads this
    {
      PoolOk(Tx(freeMask, [], live))
    }

    constructor ()
      ensures Valid() && freeMask == ALL_FREE && live == []
    {
      freeMask, live := ALL_FREE, [];
      new;
      InitialOk(Tx(freeMask, [], live));
    }

    /** tx_pool_alloc. The bit scan stands for `trailing_zeros`. */
    method Alloc() returns (idx: int)
      requires Valid()
      modifies this
      ensures Valid()
      ensures idx == -1 <==> |old(live)| == POOL_N
      ensures idx == -1 ==> freeMask == old(freeMask) && live == old(live)
      ensures idx != -1 ==> 0 <= idx < POOL_N && idx !in old(live) && live == old(live) + [idx]
                            && freeMask == old(freeMask)[idx := false]
    {
      ghost var t := Tx(freeMask, [], live);
      AllocKeeps(t);
      AllocFailsIff(t);
      if freeMask == ZERO {
        return -1;
      }
      var i := 0;
      while !freeMask[i]
        invariant 0 <= i < 32 && i <= TrailingZeros(freeMask, 0) < 32
        invariant TrailingZeros(freeMask, i) == TrailingZeros(freeMask, 0)
        decreases 32 - i
      {
        i := i + 1;
      }
      freeMask := freeMask[i := false];
      live := live + [i];
      idx := i;
    }

    /** tx_pool_free, run by the token's Drop. */
    method Free(idx: nat, ghost k: nat)
      requires Valid() && k < |live| && live[k] == idx
      modifies this
      ensures Valid() && live == Without(old(live), k) && freeMask == old(freeMask)[idx := true]
    {
      ReleaseKeeps(Tx(freeMask, [], live), k);
      freeMask := freeMask[idx := true];
      live := Without(live, k);
    }
  }

  class EspDevice {
    const pool: Pool
    var rxInbox: Option<seq<Byte>>
    var linkUp: bool

    constructor (pool: Pool)
      ensures this.pool == pool && rxInbox == None && !linkUp
    {
      this.pool := pool;
      rxInbox, linkUp := None, false;
    }

    /** A frame that finds the inbox occupied is dropped. */
    method PushRx(frame: seq<Byte>)
      modifies this
      ensures rxInbox == (if old(rxInbox).None? then Some(frame) else old(rxInbox)) && linkUp == old(linkUp)
    {
      if rxInbox.None? {
        rxInbox := Some(frame);
      }
    }

    /** The inbox is emptied in any case; frame and token come together or not at all. */
    method Receive() returns (frame: Option<seq<Byte>>, idx: int)
      requires pool.Valid()
      modifies this, pool
      ensures pool.Valid() && rxInbox.None? && linkUp == old(linkUp)
      ensures frame.Some? <==> old(rxInbox).Some? && |old(pool.live)| < POOL_N
      ensures frame.Some? ==> frame == old(rxInbox) && idx !in old(pool.live) && pool.live == old(pool.live) + [idx]
      ensures frame.None? ==> idx == -1 && pool.live == old(pool.live) && pool.freeMask == old(pool.freeMask)
    {
      AllocFailsIff(Tx(pool.freeMask, [], pool.live));
      frame, idx := None, -1;
      if rxInbox.Some? {
        var taken := rxInbox;
        rxInbox := None;
        idx := pool.Alloc();
        if idx >= 0 {
          frame := taken;
        }
      }
    }

    method Transmit() returns (idx: int)
      requires pool.Valid()
      modifies pool
      ensures pool.Valid()
      ensures idx >= 0 <==> linkUp && |old(pool.live)| < POOL_N
      ensures idx >= 0 ==> idx !in old(pool.live) && pool.live == old(pool.live) + [idx]
      ensures idx < 0 ==> pool.live == old(pool.live) && pool.freeMask == old(pool.freeMask)
    {
      AllocFailsIff(Tx(pool.freeMask, [], pool.live));
      idx := -1;
      if linkUp {
        idx := pool.Alloc();
      }
    }
  }
}
