/**
The RX frame slab (esp_smoltcp.c) as a protocol between one driver callback per
interface and the poll task. Every queue operation, memory copy and counter update is
a step of its own, and the steps of the two sides interleave freely.

`accepted`, `drained` and `taken` are histories, kept to state what became of each frame.
 */
module RxSlab {
  import opened Basics

  /** NET_FRAME_BUF. */
  const FRAME_BUF: nat := 1536

  const COUNTER: nat := 0x1_0000_0000

  datatype Frame = Frame(len: nat, data: seq<Byte>)

  /** Where a driver is inside eth_input_cb, and the frame in its hand. */
  datatype Driver =
    | Idle
    | Filling(f: nat, buf: seq<Byte>)    // allocated, not yet copied
    | Filled(f: nat, buf: seq<Byte>)     // copied, in net_stack_post_rx
    | Counted(f: nat, buf: seq<Byte>)    // counted, not yet queued
    | Rejected(f: nat)                   // the queue was full
    | Releasing(f: nat)                  // on the way back to the free list

  datatype Fate = Tapped | Stored | Dropped

  datatype Drained = Drained(bytes: seq<Byte>, fate: Fate)

  datatype Iface = Iface(
    enabled: bool,
    queue: seq<nat>,
    drv: Driver,
    rxFrames: nat,
    rxDrops: nat,
    inbox: Option<seq<Byte>>,
    accepted: seq<seq<Byte>>,
    drained: seq<Drained>,
    taken: seq<seq<Byte>>)

  /** Where the poll task is inside poll_iface. */
  datatype Poller =
    | Sleeping
    | Draining(i: nat)
    | Holding(i: nat, f: nat)   // received from the queue
    | Done(i: nat, f: nat)      // dispatched, to be freed

  datatype Stack = Stack(
    depth: nat,
    taps: set<nat>,
    mem: seq<Frame>,
    free: seq<nat>,
    ifaces: seq<Iface>,
    poll: Poller,
    allocFail: nat)

  datatype Action =
    | Enable(i: nat) | SetTaps(taps: set<nat>)
    | DrvAlloc(i: nat, buf: seq<Byte>) | DrvCopy(i: nat) | DrvPost(i: nat)
    | DrvSend(i: nat) | DrvDrop(i: nat) | DrvFree(i: nat)
    | PollStart(i: nat) | PollTake | PollDispatch | PollFree | PollSmoltcp(takes: bool)

  // ----- the steps -----

  function Content(mem: seq<Frame>, f: nat): seq<Byte>
    requires f < |mem| && mem[f].len <= |mem[f].data|
  {
    mem[f].data[..mem[f].len]
  }

  predicate FrameOk(mem: seq<Frame>, f: nat) {
    f < |mem| && |mem[f].data| == FRAME_BUF && mem[f].len <= FRAME_BUF
  }

  function Bump(n: nat): nat { (n + 1) % COUNTER }

  /** The unchecked enqueue of net_frame_free: on a full queue the frame would be lost. */
  function GiveBack(s: Stack, f: nat): seq<nat> {
    if |s.free| < |s.mem| then s.free + [f] else s.free
  }

  function Put(s: Stack, i: nat, x: Iface): Stack
    requires i < |s.ifaces|
  {
    s.(ifaces := s.ifaces[i := x])
  }

  function DoAlloc(s: Stack, i: nat, buf: seq<Byte>): Stack
    requires i < |s.ifaces|
  {
    if |buf| > FRAME_BUF || s.free == [] || s.free[0] >= |s.mem| then s.(allocFail := Bump(s.allocFail))
    else
      var f := s.free[0];
      Put(s.(free := s.free[1..], mem := s.mem[f := s.mem[f].(len := |buf|)]),
          i, s.ifaces[i].(drv := Filling(f, buf)))
  }

  function DoCopy(s: Stack, i: nat): Stack
    requires i < |s.ifaces| && s.ifaces[i].drv.Filling?
  {
    var d := s.ifaces[i].drv;
    if d.f < |s.mem| && |d.buf| <= |s.mem[d.f].data| then
      Put(s.(mem := s.mem[d.f := s.mem[d.f].(data := d.buf + s.mem[d.f].data[|d.buf|..])]),
          i, s.ifaces[i].(drv := Filled(d.f, d.buf)))
    else s
  }

  function DoPost(s: Stack, i: nat): Stack
    requires i < |s.ifaces| && s.ifaces[i].drv.Filled?
  {
    var x := s.ifaces[i];
    Put(s, i, if x.enabled then x.(rxFrames := Bump(x.rxFrames), drv := Counted(x.drv.f, x.drv.buf))
              else x.(drv := Releasing(x.drv.f)))
  }

  function DoSend(s: Stack, i: nat): Stack
    requires i < |s.ifaces| && s.ifaces[i].drv.Counted?
  {
    var x := s.ifaces[i];
    Put(s, i, if |x.queue| < s.depth
              then x.(queue := x.queue + [x.drv.f], accepted := x.accepted + [x.drv.buf], drv := Idle)
              else x.(drv := Rejected(x.drv.f)))
  }

  function DoDispatch(s: Stack): Stack
    requires s.poll.Holding? && s.poll.i < |s.ifaces|
  {
    var i, f, x := s.poll.i, s.poll.f, s.ifaces[s.poll.i];
    if !FrameOk(s.mem, f) then s
    else
      var bytes := Content(s.mem, f);
      var fate := if TapTakes(s.taps, bytes) then Tapped else if x.inbox.None? then Stored else Dropped;
      Put(s.(poll := Done(i, f)), i,
          x.(drained := x.drained + [Drained(bytes, fate)],
             inbox := if fate == Stored then Some(bytes) else x.inbox))
  }

  /** The frame is long enough for an Ethernet header, two addresses of six bytes and the
      EtherType in network byte order, and has this EtherType. */
  predicate Carries(bytes: seq<Byte>, et: nat) {
    |bytes| >= 14 && et < 0x1_0000 && bytes[12..14] == U16(et)
  }

  /** dispatch_tap takes the frames that carry a registered EtherType. */
  predicate TapTakes(taps: set<nat>, bytes: seq<Byte>) {
    exists et :: et in taps && Carries(bytes, et)
  }

  /** A frame laid out byte by byte is tapped exactly if its EtherType is registered; a frame
      without room for the header never is. */
  lemma TapTakesFrame(taps: set<nat>, addresses: seq<Byte>, et: nat, payload: seq<Byte>, runt: seq<Byte>)
    requires |addresses| == 12 && et < 0x1_0000 && |runt| < 14
    ensures TapTakes(taps, addresses + U16(et) + payload) <==> et in taps
    ensures !TapTakes(taps, runt)
  {
    var frame := addresses + U16(et) + payload;
    assert frame[12..14] == U16(et);
    forall other: nat | Carries(frame, other)
      ensures other == et
    {
      assert U16(other)[0] == U16(et)[0] && U16(other)[1] == U16(et)[1];
    }
    assert Carries(frame, et);
  }

  function DoSmoltcp(s: Stack, takes: bool): Stack
    requires s.poll.Draining? && s.poll.i < |s.ifaces|
  {
    var x := s.ifaces[s.poll.i];
    var y := if takes && x.inbox.Some? then x.(taken := x.taken + [x.inbox.value], inbox := None) else x;
    Put(s.(poll := Sleeping), s.poll.i, y)
  }

  /** An action whose guard does not hold changes nothing. */
  function Next(s: Stack, a: Action): Stack {
    match a
    case Enable(i) => if i < |s.ifaces| then Put(s, i, s.ifaces[i].(enabled := true)) else s
    case SetTaps(taps) => s.(taps := taps)
    case DrvAlloc(i, buf) => if i < |s.ifaces| && s.ifaces[i].drv.Idle? then DoAlloc(s, i, buf) else s
    case DrvCopy(i) => if i < |s.ifaces| && s.ifaces[i].drv.Filling? then DoCopy(s, i) else s
    case DrvPost(i) => if i < |s.ifaces| && s.ifaces[i].drv.Filled? then DoPost(s, i) else s
    case DrvSend(i) => if i < |s.ifaces| && s.ifaces[i].drv.Counted? then DoSend(s, i) else s
    case DrvDrop(i) =>
      if i < |s.ifaces| && s.ifaces[i].drv.Rejected? then
        var x := s.ifaces[i];
        Put(s, i, x.(rxDrops := Bump(x.rxDrops), drv := Releasing(x.drv.f)))
      else s
    case DrvFree(i) =>
      if i < |s.ifaces| && s.ifaces[i].drv.Releasing? then
        Put(s.(free := GiveBack(s, s.ifaces[i].drv.f)), i, s.ifaces[i].(drv := Idle))
      else s
    case PollStart(i) =>
      if s.poll.Sleeping? && i < |s.ifaces| && s.ifaces[i].enabled then s.(poll := Draining(i)) else s
    case PollTake =>
      if s.poll.Draining? && s.poll.i < |s.ifaces| && s.ifaces[s.poll.i].queue != [] then
        var x := s.ifaces[s.poll.i];
        Put(s.(poll := Holding(s.poll.i, x.queue[0])), s.poll.i, x.(queue := x.queue[1..]))
      else s
    case PollDispatch => if s.poll.Holding? && s.poll.i < |s.ifaces| then DoDispatch(s) else s
    case PollFree =>
      if s.poll.Done? then s.(free := GiveBack(s, s.poll.f), poll := Draining(s.poll.i)) else s
    case PollSmoltcp(takes) =>
      if s.poll.Draining? && s.poll.i < |s.ifaces| && s.ifaces[s.poll.i].queue == [] then DoSmoltcp(s, takes)
      else s
  }

  function Run(s: Stack, actions: seq<Action>): Stack
    decreases |actions|
  {
    if actions == [] then s else Run(Next(s, actions[0]), actions[1..])
  }

  function UpTo(n: nat): seq<nat> {
    if n == 0 then [] else UpTo(n - 1) + [n - 1]
  }

  /** frame_pool_init: the free list is every frame in order, and nothing has happened yet. */
  predicate Initial(s: Stack) {
    && s.free == UpTo(|s.mem|)
    && (forall f :: 0 <= f < |s.mem| ==> FrameOk(s.mem, f))
    && s.poll == Sleeping
    && (forall i :: 0 <= i < |s.ifaces| ==> s.ifaces[i] == Iface(s.ifaces[i].enabled, [], Idle, 0, 0, None, [], [], []))
  }
}
