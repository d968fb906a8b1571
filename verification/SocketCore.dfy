/**
The socket half of the Rust core (lib.rs) and the packed handles that C code
holds (esp_smoltcp_sock.c).

smoltcp's SocketSet is a vector of slots: adding fills the first vacant slot or
grows the vector, removing empties the slot, and a typed get panics on a vacant
slot or on a socket of another kind. `handles` maps the ids given to C code to
slots, so slots are reused and ids are not.
 */
module SocketCore {
  import opened Basics

  datatype SockKind = TcpSock | UdpSock | DhcpSock

  /** One IfaceCtx. `up` says that the C side holds a handle to it at all; `issued`
      counts the ids ever handed out and exists only to state bounds. */
  datatype Core = Core(
    up: bool,
    slots: seq<Option<SockKind>>,
    handles: map<nat, nat>,
    nextId: nat,
    dhcp: Option<nat>,
    issued: nat)

  /** Ids keep 24 bits in a packed handle. */
  const ID_SPAN: nat := 0x100_0000

  const DOWN := Core(false, [], map[], 1, None, 0)

  // ----- the socket set -----

  function FirstVacant(slots: seq<Option<SockKind>>): (h: nat)
    ensures h <= |slots|
    ensures h < |slots| ==> slots[h].None?
    ensures forall k :: 0 <= k < h ==> slots[k].Some?
  {
    if slots == [] || slots[0].None? then 0 else 1 + FirstVacant(slots[1..])
  }

  function SetAdd(slots: seq<Option<SockKind>>, kind: SockKind): (r: seq<Option<SockKind>>)
    ensures var h := FirstVacant(slots);
            && h < |r| && r[h] == Some(kind) && |slots| <= |r|
            && forall k :: 0 <= k < |slots| && k != h ==> r[k] == slots[k]
  {
    var h := FirstVacant(slots);
    if h < |slots| then slots[h := Some(kind)] else slots + [Some(kind)]
  }

  /** A typed get of slot `h` does not panic. */
  predicate TypedGetSafe(slots: seq<Option<SockKind>>, h: nat, kind: SockKind) {
    h < |slots| && slots[h] == Some(kind)
  }

  // ----- ids -----

  /** `next_id.wrapping_add(1).max(1)` on 32 bits. */
  function Bump(id: nat): (r: nat)
    ensures r >= 1 && (id < 0xFFFF_FFFF ==> r == id + 1)
  {
    if id >= 0xFFFF_FFFF then 1 else id + 1
  }

  function Register(c: Core, kind: SockKind): Core {
    c.(slots := SetAdd(c.slots, kind),
       handles := c.handles[c.nextId := FirstVacant(c.slots)],
       nextId := Bump(c.nextId),
       issued := c.issued + 1)
  }

  function Unregister(c: Core, id: nat, kind: SockKind): Core {
    if id in c.handles && TypedGetSafe(c.slots, c.handles[id], kind)
    then c.(slots := c.slots[c.handles[id] := None], handles := c.handles - {id})
    else c
  }

  /** smoltcp_iface_enable_dhcp. */
  function EnableDhcp(c: Core): Core {
    if !c.up || c.dhcp.Some? then c
    else c.(slots := SetAdd(c.slots, DhcpSock), dhcp := Some(FirstVacant(c.slots)))
  }

  /** smoltcp_iface_set_static forgets the DHCP handle and leaves its socket in the set. */
  function DropDhcp(c: Core): Core {
    if c.up then c.(dhcp := None) else c
  }

  /** smoltcp_resolve adds a UDP socket without an id and removes it before it returns. */
  function ResolveDuring(c: Core): Core {
    c.(slots := SetAdd(c.slots, UdpSock))
  }

  function ResolveAfter(c: Core): Core {
    if c.up then c.(slots := SetAdd(c.slots, UdpSock)[FirstVacant(c.slots) := None]) else c
  }

  // ----- what every core keeps -----

  predicate HandleOk(c: Core, id: nat) {
    id in c.handles
    && 1 <= id < c.nextId
    && c.handles[id] < |c.slots|
    && (c.slots[c.handles[id]] == Some(TcpSock) || c.slots[c.handles[id]] == Some(UdpSock))
  }

  ghost predicate CoreOk(c: Core) {
    && c.nextId == c.issued + 1 <= ID_SPAN
    && (forall id :: id in c.handles ==> HandleOk(c, id))
    && (forall a, b :: a in c.handles && b in c.handles && c.handles[a] == c.handles[b] ==> a == b)
    && (c.dhcp.Some? ==> TypedGetSafe(c.slots, c.dhcp.value, DhcpSock))
    && (!c.up ==> c == DOWN)
  }

  /** The abstract content of a core: live id to kind. */
  function Sockets(c: Core): map<nat, SockKind> {
    map id | id in c.handles && c.handles[id] < |c.slots| && c.slots[c.handles[id]].Some?
      :: c.slots[c.handles[id]].value
  }

  lemma VacantIsSpare(c: Core)
    requires CoreOk(c)
    ensures forall id :: id in c.handles ==> c.handles[id] != FirstVacant(c.slots) && c.handles[id] < |c.slots|
  {
    forall id | id in c.handles
      ensures c.handles[id] != FirstVacant(c.slots) && c.handles[id] < |c.slots|
    {
      assert HandleOk(c, id);
    }
  }

  lemma RegisterKeepsCore(c: Core, kind: SockKind)
    requires CoreOk(c) && c.up && c.nextId < ID_SPAN && kind != DhcpSock
    ensures CoreOk(Register(c, kind)) && c.nextId !in c.handles
  {
    var d := Register(c, kind);
    VacantIsSpare(c);
    forall id | id in d.handles
      ensures HandleOk(d, id)
    {
      assert id != c.nextId ==> HandleOk(c, id);
    }
  }

  lemma RegisterOk(c: Core, kind: SockKind)
    requires CoreOk(c) && c.up && c.nextId < ID_SPAN && kind != DhcpSock
    ensures CoreOk(Register(c, kind))
    ensures c.nextId !in Sockets(c)
    ensures Sockets(Register(c, kind)) == Sockets(c)[c.nextId := kind]
  {
    RegisterKeepsCore(c, kind);
    VacantIsSpare(c);
    hide CoreOk;
    hide FirstVacant;
    assert Sockets(Register(c, kind)) == Sockets(c)[c.nextId := kind];
  }

  lemma UnregisterKeepsCore(c: Core, id: nat)
    requires CoreOk(c) && id in c.handles
    ensures HandleOk(c, id) && CoreOk(c.(slots := c.slots[c.handles[id] := None], handles := c.handles - {id}))
    ensures forall k :: k in c.handles && k != id ==> c.handles[k] != c.handles[id] && c.handles[k] < |c.slots|
  {
    assert HandleOk(c, id);
    var d := c.(slots := c.slots[c.handles[id] := None], handles := c.handles - {id});
    forall k | k in d.handles
      ensures HandleOk(d, k) && d.handles[k] != c.handles[id]
    {
      assert HandleOk(c, k);
    }
  }

  lemma UnregisterOk(c: Core, id: nat, kind: SockKind)
    requires CoreOk(c) && id in Sockets(c) && Sockets(c)[id] == kind
    ensures TypedGetSafe(c.slots, c.handles[id], kind)
    ensures CoreOk(Unregister(c, id, kind))
    ensures Sockets(Unregister(c, id, kind)) == Sockets(c) - {id}
    ensures var d := Unregister(c, id, kind);
            |d.slots| == |c.slots| && forall h :: 0 <= h < |c.slots| ==>
              d.slots[h] == if h == c.handles[id] then None else c.slots[h]
  {
    UnregisterKeepsCore(c, id);
    hide CoreOk;
    assert Sockets(Unregister(c, id, kind)) == Sockets(c) - {id};
  }

  /** Slots that no id uses may change freely. */
  lemma SpareSlotsOk(c: Core, slots: seq<Option<SockKind>>, dhcp: Option<nat>)
    requires CoreOk(c) && c.up
    requires forall id :: id in c.handles ==> c.handles[id] < |slots| && slots[c.handles[id]] == c.slots[c.handles[id]]
    requires dhcp.Some? ==> TypedGetSafe(slots, dhcp.value, DhcpSock)
    ensures CoreOk(c.(slots := slots, dhcp := dhcp))
    ensures Sockets(c.(slots := slots, dhcp := dhcp)) == Sockets(c)
  {
    var d := c.(slots := slots, dhcp := dhcp);
    forall id | id in d.handles
      ensures HandleOk(d, id)
    {
      assert HandleOk(c, id);
    }
    assert Sockets(d) == Sockets(c);
  }

  /** Starting or forgetting DHCP touches no registered socket. */
  lemma DhcpOk(c: Core)
    requires CoreOk(c) && c.up
    ensures CoreOk(EnableDhcp(c)) && Sockets(EnableDhcp(c)) == Sockets(c)
    ensures CoreOk(DropDhcp(c)) && Sockets(DropDhcp(c)) == Sockets(c)
  {
    VacantIsSpare(c);
    SpareSlotsOk(c, c.slots, None);
    if c.dhcp.None? {
      SpareSlotsOk(c, SetAdd(c.slots, DhcpSock), Some(FirstVacant(c.slots)));
    }
  }

  /** The temporary socket of a name query shares no slot with any other while the query
      runs, and the registered sockets are the same afterwards. */
  lemma ResolveOk(c: Core)
    requires CoreOk(c) && c.up
    ensures CoreOk(ResolveDuring(c)) && Sockets(ResolveDuring(c)) == Sockets(c)
    ensures TypedGetSafe(ResolveDuring(c).slots, FirstVacant(c.slots), UdpSock)
    ensures c.dhcp != Some(FirstVacant(c.slots)) && FirstVacant(c.slots) !in c.handles.Values
    ensures CoreOk(ResolveAfter(c)) && Sockets(ResolveAfter(c)) == Sockets(c)
  {
    VacantIsSpare(c);
    SpareSlotsOk(c, SetAdd(c.slots, UdpSock), c.dhcp);
    SpareSlotsOk(c, SetAdd(c.slots, UdpSock)[FirstVacant(c.slots) := None], c.dhcp);
  }

  // ----- packed handles -----

  /** `(iface << 24) | (id & 0x00FFFFFF)`. */
  function Pack(iface: nat, id: nat): nat {
    iface * ID_SPAN + id % ID_SPAN
  }

  function IfaceOf(p: nat): nat { p / ID_SPAN }

  function LocalOf(p: nat): nat { p % ID_SPAN }

  /** A packed handle names its socket exactly while ids stay under 24 bits. */
  lemma PackRoundTrip(iface: nat, id: nat)
    ensures IfaceOf(Pack(iface, id)) == iface
    ensures LocalOf(Pack(iface, id)) == id <==> id < ID_SPAN
    ensures Pack(iface, id) == 0 <==> iface == 0 && id % ID_SPAN == 0
  {
  }

  // ----- the two interfaces together -----

  ghost predicate CoresOk(cores: seq<Core>) {
    forall i :: 0 <= i < |cores| ==> CoreOk(cores[i])
  }

  predicate IsLive(cores: seq<Core>, p: nat) {
    IfaceOf(p) < |cores| && LocalOf(p) in Sockets(cores[IfaceOf(p)])
  }

  function KindAt(cores: seq<Core>, p: nat): SockKind
    requires IsLive(cores, p)
  {
    Sockets(cores[IfaceOf(p)])[LocalOf(p)]
  }

  /** `kinds` is what C code can reach: live packed handle to kind. */
  ghost predicate Shows(cores: seq<Core>, kinds: map<nat, SockKind>) {
    && (forall p :: p in kinds <==> IsLive(cores, p))
    && (forall p :: p in kinds ==> kinds[p] == KindAt(cores, p))
  }

  /** The one map that `Shows` the cores. */
  ghost function Kinds(cores: seq<Core>): (kinds: map<nat, SockKind>)
    requires CoresOk(cores)
    ensures Shows(cores, kinds) && 0 !in kinds
  {
    KindsExist(cores);
    var kinds :| Shows(cores, kinds) && 0 !in kinds;
    kinds
  }

  /** net_tcp_open and net_udp_open; `bound` is whether smoltcp accepted the port. */
  function Open(cores: seq<Core>, iface: nat, kind: SockKind, bound: bool): (r: (seq<Core>, nat))
    ensures |r.0| == |cores|
  {
    if iface < |cores| && cores[iface].up && bound
    then (cores[iface := Register(cores[iface], kind)], Pack(iface, cores[iface].nextId))
    else (cores, 0)
  }

  /** net_tcp_close and net_udp_close. */
  function Shut(cores: seq<Core>, p: nat, kind: SockKind): (r: seq<Core>)
    ensures |r| == |cores|
  {
    if IfaceOf(p) < |cores| && cores[IfaceOf(p)].up
    then cores[IfaceOf(p) := Unregister(cores[IfaceOf(p)], LocalOf(p), kind)]
    else cores
  }

  ghost predicate UnderSpan(cores: seq<Core>) {
    forall i :: 0 <= i < |cores| ==> cores[i].issued < ID_SPAN
  }

  lemma PackedSockets(iface: nat, c: Core) returns (packed: map<nat, SockKind>)
    requires CoreOk(c)
    ensures forall p: nat :: p in packed <==> IfaceOf(p) == iface && LocalOf(p) in Sockets(c)
    ensures forall p: nat :: p in packed ==> packed[p] == Sockets(c)[LocalOf(p)]
    ensures 0 !in packed
  {
    var ps := set id | id in Sockets(c) :: Pack(iface, id);
    forall p: nat
      ensures p in ps <==> IfaceOf(p) == iface && LocalOf(p) in Sockets(c)
    {
      if p in ps {
        var id :| id in Sockets(c) && Pack(iface, id) == p;
        assert HandleOk(c, id);
        PackRoundTrip(iface, id);
      }
      if IfaceOf(p) == iface && LocalOf(p) in Sockets(c) {
        assert Pack(iface, LocalOf(p)) == p;
      }
    }
    packed := map p | p in ps :: Sockets(c)[LocalOf(p)];
    assert 0 in Sockets(c) ==> HandleOk(c, 0);
  }

  lemma {:induction false} BuildKinds(cores: seq<Core>) returns (kinds: map<nat, SockKind>)
    requires CoresOk(cores)
    ensures Shows(cores, kinds) && 0 !in kinds
  {
    if cores == [] {
      kinds := map[];
    } else {
      var n := |cores| - 1;
      var front := BuildKinds(cores[..n]);
      var last := PackedSockets(n, cores[n]);
      kinds := front + last;
      forall p: nat
        ensures p in kinds <==> IsLive(cores, p)
        ensures p in kinds ==> kinds[p] == KindAt(cores, p)
      {
        assert p in front <==> IsLive(cores[..n], p);
      }
    }
  }

  lemma KindsExist(cores: seq<Core>)
    requires CoresOk(cores)
    ensures exists kinds :: Shows(cores, kinds) && 0 !in kinds
  {
    var kinds := BuildKinds(cores);
  }

  lemma ShowsUnique(cores: seq<Core>, a: map<nat, SockKind>, b: map<nat, SockKind>)
    requires Shows(cores, a) && Shows(cores, b)
    ensures a == b
  {
    forall p: nat
      ensures p in a <==> p in b
      ensures p in a ==> a[p] == b[p]
    {
      assert p in a <==> IsLive(cores, p);
      assert p in b <==> IsLive(cores, p);
    }
  }

  lemma ShowsUpdate(cores: seq<Core>, before: map<nat, SockKind>, i: nat, c: Core, after: map<nat, SockKind>)
    requires Shows(cores, before) && i < |cores|
    requires forall p: nat :: IfaceOf(p) != i ==> (p in after <==> p in before)
    requires forall p: nat :: IfaceOf(p) != i && p in after ==> after[p] == before[p]
    requires forall p: nat :: IfaceOf(p) == i ==> (p in after <==> LocalOf(p) in Sockets(c))
    requires forall p: nat :: IfaceOf(p) == i && p in after ==> after[p] == Sockets(c)[LocalOf(p)]
    ensures Shows(cores[i := c], after)
  {
    forall p: nat
      ensures p in after <==> IsLive(cores[i := c], p)
      ensures p in after ==> after[p] == KindAt(cores[i := c], p)
    {
      assert p in before <==> IsLive(cores, p);
    }
  }

  lemma OpenShows(cores: seq<Core>, kinds: map<nat, SockKind>, iface: nat, kind: SockKind)
    requires CoresOk(cores) && Shows(cores, kinds) && kind != DhcpSock
    requires iface < |cores| && cores[iface].up && cores[iface].nextId < ID_SPAN
    ensures var (cs, p) := Open(cores, iface, kind, true);
            CoresOk(cs) && Shows(cs, kinds[p := kind]) && p !in kinds && IfaceOf(p) == iface && p != 0
  {
    var c := cores[iface];
    var p := Pack(iface, c.nextId);
    assert CoreOk(c);
    RegisterOk(c, kind);
    PackRoundTrip(iface, c.nextId);
    assert p in kinds <==> IsLive(cores, p);
    forall q: nat | IfaceOf(q) == iface
      ensures q in kinds[p := kind] <==> LocalOf(q) in Sockets(Register(c, kind))
      ensures q in kinds[p := kind] ==> kinds[p := kind][q] == Sockets(Register(c, kind))[LocalOf(q)]
    {
      assert LocalOf(q) == c.nextId <==> q == p;
      assert q in kinds <==> IsLive(cores, q);
    }
    ShowsUpdate(cores, kinds, iface, Register(c, kind), kinds[p := kind]);
  }

  lemma OpenOk(cores: seq<Core>, iface: nat, kind: SockKind, bound: bool)
    requires CoresOk(cores) && kind != DhcpSock
    requires UnderSpan(Open(cores, iface, kind, bound).0)
    ensures CoresOk(Open(cores, iface, kind, bound).0)
    ensures var (cs, p) := Open(cores, iface, kind, bound);
            if p == 0 then cs == cores
            else p !in Kinds(cores) && Kinds(cs) == Kinds(cores)[p := kind] && IfaceOf(p) == iface
  {
    if iface < |cores| && cores[iface].up && bound {
      var (cs, p) := Open(cores, iface, kind, bound);
      assert cs[iface].issued < ID_SPAN;
      OpenShows(cores, Kinds(cores), iface, kind);
      ShowsUnique(cs, Kinds(cs), Kinds(cores)[p := kind]);
    }
  }

  lemma ShutShows(cores: seq<Core>, kinds: map<nat, SockKind>, p: nat)
    requires CoresOk(cores) && Shows(cores, kinds) && p in kinds
    ensures CoresOk(Shut(cores, p, kinds[p])) && Shows(Shut(cores, p, kinds[p]), kinds - {p})
  {
    var i, id := IfaceOf(p), LocalOf(p);
    assert IsLive(cores, p);
    var c := cores[i];
    assert CoreOk(c);
    UnregisterOk(c, id, kinds[p]);
    var d := Unregister(c, id, kinds[p]);
    forall q: nat | IfaceOf(q) == i
      ensures q in kinds - {p} <==> LocalOf(q) in Sockets(d)
      ensures q in kinds - {p} ==> kinds[q] == Sockets(d)[LocalOf(q)]
    {
      assert LocalOf(q) == id <==> q == p;
      assert q in kinds <==> IsLive(cores, q);
    }
    ShowsUpdate(cores, kinds, i, d, kinds - {p});
    assert Shut(cores, p, kinds[p]) == cores[i := d];
  }

  /** Closing through a live handle of the right kind removes that socket and vacates its slot. */
  lemma ShutOk(cores: seq<Core>, p: nat, kind: SockKind)
    requires CoresOk(cores) && p in Kinds(cores) && Kinds(cores)[p] == kind
    ensures CoresOk(Shut(cores, p, kind))
    ensures Kinds(Shut(cores, p, kind)) == Kinds(cores) - {p}
    ensures var (i, id) := (IfaceOf(p), LocalOf(p));
            && i < |cores| && id in cores[i].handles && TypedGetSafe(cores[i].slots, cores[i].handles[id], kind)
            && Shut(cores, p, kind)[i].slots == cores[i].slots[cores[i].handles[id] := None]
  {
    assert IsLive(cores, p) && CoreOk(cores[IfaceOf(p)]);
    UnregisterOk(cores[IfaceOf(p)], LocalOf(p), kind);
    ShutShows(cores, Kinds(cores), p);
    var cs := Shut(cores, p, kind);
    ShowsUnique(cs, Kinds(cs), Kinds(cores) - {p});
  }

  lemma ShowsSwap(cores: seq<Core>, kinds: map<nat, SockKind>, i: nat, c: Core)
    requires Shows(cores, kinds) && i < |cores| && Sockets(c) == Sockets(cores[i])
    ensures Shows(cores[i := c], kinds)
  {
    forall p: nat | IfaceOf(p) == i
      ensures p in kinds <==> LocalOf(p) in Sockets(c)
      ensures p in kinds ==> kinds[p] == Sockets(c)[LocalOf(p)]
    {
      assert p in kinds <==> IsLive(cores, p);
    }
    ShowsUpdate(cores, kinds, i, c, kinds);
  }

  /** Replacing a core by one with the same sockets changes nothing that C code can see. */
  lemma SwapOk(cores: seq<Core>, i: nat, c: Core)
    requires CoresOk(cores) && i < |cores| && CoreOk(c) && Sockets(c) == Sockets(cores[i])
    ensures CoresOk(cores[i := c]) && Kinds(cores[i := c]) == Kinds(cores)
  {
    ShowsSwap(cores, Kinds(cores), i, c);
    ShowsUnique(cores[i := c], Kinds(cores[i := c]), Kinds(cores));
  }
}
