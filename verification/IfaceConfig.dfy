/**
The IP configuration of one interface (IfaceCtx of lib.rs) and the IP-state events that
poll_iface of esp_smoltcp.c derives from it.
 */
module IfaceConfig {
  import opened Basics
  import opened Ipv4Words

  /** An address of the interface: the link-local one made at creation, or an IPv4 CIDR. */
  datatype Addr = LinkLocal(mac: seq<Byte>) | V4(ip: Octets, prefix: nat)

  /** `cap` is smoltcp's address capacity and `route` its default IPv4 route. */
  datatype Cfg = Cfg(
    cap: nat,
    addrs: seq<Addr>,
    route: Option<Octets>,
    dhcp: bool,
    hasIp: bool,
    netmaskBe: nat,
    gatewayBe: nat)

  datatype Lease = NoEvent | Configured(ip: Octets, prefix: nat, router: Option<Octets>) | Deconfigured

  datatype Event =
    | Poll(lease: Lease)                               // what the DHCP socket reports, if there is one
    | SetStatic(ipBe: nat, prefixLen: nat, gwBe: nat)
    | EnableDhcp

  // ----- the steps -----

  /** `addrs.retain(|a| !matches!(a, IpCidr::Ipv4(_)))`. */
  function WithoutV4(addrs: seq<Addr>): (r: seq<Addr>)
    ensures |r| <= |addrs|
  {
    if addrs == [] then []
    else (if addrs[0].V4? then [] else [addrs[0]]) + WithoutV4(addrs[1..])
  }

  predicate HasV4(addrs: seq<Addr>) {
    exists k :: 0 <= k < |addrs| && addrs[k].V4?
  }

  /** Replaces any IPv4 address; the push is silently lost if there is no room. */
  function Replaced(cap: nat, addrs: seq<Addr>, a: Addr): seq<Addr> {
    var kept := WithoutV4(addrs);
    if |kept| < cap then kept + [a] else kept
  }

  function AfterLease(c: Cfg, lease: Lease): Cfg
    requires lease.Configured? ==> lease.prefix <= 32
  {
    match lease
    case NoEvent => c
    case Configured(ip, prefix, router) =>
      c.(netmaskBe := Swap(Mask(prefix)),
         addrs := Replaced(c.cap, c.addrs, V4(ip, prefix)),
         route := if router.Some? then router else c.route,
         gatewayBe := if router.Some? then FromLe(router.value) else 0,
         hasIp := true)
    case Deconfigured =>
      c.(addrs := WithoutV4(c.addrs), route := None, netmaskBe := 0, gatewayBe := 0, hasIp := false)
  }

  /** What the program demands of its inputs: 32-bit words, and a prefix that is at most 32
      after truncation to 8 bits, which smoltcp asserts. */
  predicate EventOk(e: Event) {
    match e
    case Poll(lease) => lease.Configured? ==> lease.prefix <= 32
    case SetStatic(ipBe, prefixLen, gwBe) => ipBe < WORD && gwBe < WORD && prefixLen % 256 <= 32
    case EnableDhcp => true
  }

  function Step(c: Cfg, e: Event): Cfg
    requires EventOk(e)
  {
    match e
    case Poll(lease) => if c.dhcp then AfterLease(c, lease) else c.(hasIp := HasV4(c.addrs))
    case SetStatic(ipBe, prefixLen, gwBe) =>
      c.(dhcp := false,
         addrs := Replaced(c.cap, c.addrs, V4(ToLe(ipBe), prefixLen % 256)),
         netmaskBe := Swap(Mask(prefixLen % 256)),
         route := if gwBe != 0 then Some(ToLe(gwBe)) else c.route,
         gatewayBe := if gwBe != 0 then gwBe else c.gatewayBe,
         hasIp := true)
    case EnableDhcp => c.(dhcp := true)
  }

  function New(cap: nat, mac: seq<Byte>): Cfg {
    Cfg(cap, if cap > 0 then [LinkLocal(mac)] else [], None, false, false, 0, 0)
  }

  // ----- the invariant -----

  /** The link-local address comes first and is kept; at most one IPv4 address follows it;
      flag, netmask and gateway say what is configured. */
  predicate CfgOk(c: Cfg, mac: seq<Byte>) {
    && 1 <= |c.addrs| <= c.cap && |c.addrs| <= 2
    && c.addrs[0] == LinkLocal(mac)
    && (|c.addrs| == 2 ==> c.addrs[1].V4? && c.addrs[1].prefix <= 32)
    && (c.hasIp <==> |c.addrs| == 2)
    && c.netmaskBe == (if |c.addrs| == 2 then Swap(Mask(c.addrs[1].prefix)) else 0)
    && c.gatewayBe < WORD
    && (c.gatewayBe != 0 ==> c.route == Some(ToLe(c.gatewayBe)))
  }

  lemma Kept(c: Cfg, mac: seq<Byte>)
    requires CfgOk(c, mac)
    ensures WithoutV4(c.addrs) == [LinkLocal(mac)]
    ensures HasV4(c.addrs) <==> |c.addrs| == 2
  {
    assert WithoutV4(c.addrs[1..]) == [] by {
      assert |c.addrs| == 2 ==> c.addrs[1..][1..] == [];
    }
    assert |c.addrs| == 2 ==> c.addrs[1].V4?;
  }

  /** The step gives the interface an IPv4 address. */
  predicate Assigns(c: Cfg, e: Event) {
    e.SetStatic? || (e.Poll? && c.dhcp && e.lease.Configured?)
  }

  /** Every step keeps the invariant exactly if smoltcp has room for two addresses whenever the
      step assigns one; with room for one the flag says "has IP" and the address is missing. */
  lemma StepKeepsIff(c: Cfg, e: Event, mac: seq<Byte>)
    requires CfgOk(c, mac) && EventOk(e)
    ensures CfgOk(Step(c, e), mac) <==> (Assigns(c, e) ==> c.cap >= 2)
  {
    Kept(c, mac);
    if e.SetStatic? {
      hide Mask;
      hide Swap;
    } else if e.Poll? && e.lease.Configured? && e.lease.router.Some? {
      ToFromLe(e.lease.router.value);
    }
  }

  // ----- what takes effect -----

  /** A lease reported while DHCP is on: the interface has exactly the link-local and the leased
      address; a router becomes default route and gateway, whose bytes in memory are its octets,
      and without one the gateway is 0 and the route stays. */
  lemma LeaseTakesEffect(c: Cfg, mac: seq<Byte>, ip: Octets, prefix: nat, router: Option<Octets>)
    requires CfgOk(c, mac) && c.cap >= 2 && c.dhcp && prefix <= 32
    ensures var d := Step(c, Poll(Configured(ip, prefix, router)));
            && CfgOk(d, mac) && d.dhcp && d.addrs == [LinkLocal(mac), V4(ip, prefix)]
            && (router.Some? ==> d.route == router && ToLe(d.gatewayBe) == router.value)
            && (router.None? ==> d.route == c.route && d.gatewayBe == 0)
  {
    StepKeepsIff(c, Poll(Configured(ip, prefix, router)), mac);
    Kept(c, mac);
    if router.Some? {
      ToFromLe(router.value);
    }
    hide Mask;
    hide Swap;
    hide ToLe;
    hide FromLe;
    hide CfgOk;
    hide WithoutV4;
  }

  /** A lost lease takes address, route, netmask and gateway away. */
  lemma LeaseLostTakesEffect(c: Cfg, mac: seq<Byte>)
    requires CfgOk(c, mac) && c.dhcp
    ensures var d := Step(c, Poll(Deconfigured));
            && d.addrs == [LinkLocal(mac)] && d.route == None && d.dhcp
            && !d.hasIp && d.netmaskBe == 0 && d.gatewayBe == 0
  {
    Kept(c, mac);
  }

  /** A static address, given as the word whose bytes in memory are `o`, replaces any other for
      every prefix and ends DHCP: whatever lease is reported later changes nothing. A gateway
      of 0 leaves route and gateway as they are. */
  lemma StaticTakesEffect(c: Cfg, mac: seq<Byte>, o: Octets, prefix: nat, gw: Octets, lease: Lease)
    requires CfgOk(c, mac) && c.cap >= 2 && prefix <= 32 && EventOk(Poll(lease))
    ensures var d := Step(c, SetStatic(FromLe(o), prefix, FromLe(gw)));
            && CfgOk(d, mac) && !d.dhcp && d.addrs == [LinkLocal(mac), V4(o, prefix)]
            && (gw != [0, 0, 0, 0] ==> d.route == Some(gw) && ToLe(d.gatewayBe) == gw)
            && (gw == [0, 0, 0, 0] ==> d.route == c.route && d.gatewayBe == c.gatewayBe)
            && Step(d, Poll(lease)) == d
  {
    var e := SetStatic(FromLe(o), prefix, FromLe(gw));
    ZeroOctets(gw);
    ToFromLe(o);
    ToFromLe(gw);
    hide ToLe;
    hide FromLe;
    hide Mask;
    hide Swap;
    Kept(c, mac);
    StepKeepsIff(c, e, mac);
    Unasked(Step(c, e), mac, lease);
    hide CfgOk;
    hide WithoutV4;
  }

  lemma ZeroOctets(o: Octets)
    ensures FromLe(o) == 0 <==> o == [0, 0, 0, 0]
  {
  }

  /** Without DHCP, and while the DHCP socket has nothing to say, a poll changes nothing. */
  lemma Unasked(c: Cfg, mac: seq<Byte>, lease: Lease)
    requires CfgOk(c, mac) && EventOk(Poll(lease))
    ensures !c.dhcp || lease.NoEvent? ==> Step(c, Poll(lease)) == c
  {
    Kept(c, mac);
  }

  /** Starting DHCP keeps the configuration, and the next lease takes effect. */
  lemma EnabledThenLeased(c: Cfg, mac: seq<Byte>, ip: Octets, prefix: nat, router: Option<Octets>)
    requires CfgOk(c, mac) && c.cap >= 2 && prefix <= 32
    ensures var d := Step(c, EnableDhcp);
            && d == c.(dhcp := true) && CfgOk(d, mac)
            && Step(d, Poll(Configured(ip, prefix, router))).addrs == [LinkLocal(mac), V4(ip, prefix)]
  {
    StepKeepsIff(c, EnableDhcp, mac);
    LeaseTakesEffect(Step(c, EnableDhcp), mac, ip, prefix, router);
  }

  /** What a user would keep in mind: whether DHCP is on, and the last address that was given
      and not taken back. */
  datatype Intent = Intent(dhcp: bool, addr: Option<Addr>)

  function IntentStep(t: Intent, e: Event): Intent
    requires EventOk(e)
  {
    match e
    case Poll(Configured(ip, prefix, _)) => if t.dhcp then t.(addr := Some(V4(ip, prefix))) else t
    case Poll(Deconfigured) => if t.dhcp then t.(addr := None) else t
    case Poll(NoEvent) => t
    case SetStatic(ipBe, prefixLen, _) => Intent(false, Some(V4(ToLe(ipBe), prefixLen % 256)))
    case EnableDhcp => t.(dhcp := true)
  }

  predicate Follows(c: Cfg, mac: seq<Byte>, t: Intent) {
    c.dhcp == t.dhcp && c.addrs == [LinkLocal(mac)] + if t.addr.Some? then [t.addr.value] else []
  }

  lemma StepFollows(c: Cfg, mac: seq<Byte>, t: Intent, e: Event)
    requires CfgOk(c, mac) && c.cap >= 2 && EventOk(e) && Follows(c, mac, t)
    ensures Follows(Step(c, e), mac, IntentStep(t, e))
  {
    Kept(c, mac);
    hide Mask;
    hide Swap;
    hide ToLe;
    hide FromLe;
    hide WithoutV4;
  }

  // ----- events of the poll task -----

  datatype IpEvent = GotIp | LostIp

  /** ip_up, the interface's bit in the event group, and the events delivered so far. */
  datatype Watch = Watch(ipUp: bool, bit: bool, events: seq<IpEvent>)

  function Observe(w: Watch, now: bool): Watch {
    if now == w.ipUp then w
    else Watch(now, now, w.events + [if now then GotIp else LostIp])
  }

  /** GOT_IP and LOST_IP strictly alternate, GOT_IP first; the bit follows ip_up. */
  predicate WatchOk(w: Watch) {
    && w.bit == w.ipUp
    && (w.ipUp <==> |w.events| % 2 == 1)
    && forall k :: 0 <= k < |w.events| ==> w.events[k] == if k % 2 == 0 then GotIp else LostIp
  }

  lemma ObserveKeeps(w: Watch, now: bool)
    requires WatchOk(w)
    ensures WatchOk(Observe(w, now)) && Observe(w, now).ipUp == now
  {
  }

  // ----- whole runs -----

  datatype Node = Node(cfg: Cfg, watch: Watch)

  function NodeStep(n: Node, e: Event): Node
    requires EventOk(e)
  {
    var c := Step(n.cfg, e);
    Node(c, if e.Poll? then Observe(n.watch, c.hasIp) else n.watch)
  }

  predicate EventsOk(es: seq<Event>) {
    forall k :: 0 <= k < |es| ==> EventOk(es[k])
  }

  function NodeRun(n: Node, es: seq<Event>): Node
    requires EventsOk(es)
    decreases |es|
  {
    if es == [] then n else NodeRun(NodeStep(n, es[0]), es[1..])
  }

  lemma {:induction false} RunKeeps(n: Node, es: seq<Event>, mac: seq<Byte>)
    requires EventsOk(es) && CfgOk(n.cfg, mac) && n.cfg.cap >= 2 && WatchOk(n.watch)
    ensures var m := NodeRun(n, es);
            CfgOk(m.cfg, mac) && WatchOk(m.watch) && m.cfg.cap == n.cfg.cap
    decreases |es|
  {
    hide CfgOk;
    hide WatchOk;
    if es != [] {
      StepKeepsIff(n.cfg, es[0], mac);
      ObserveKeeps(n.watch, Step(n.cfg, es[0]).hasIp);
      RunKeeps(NodeStep(n, es[0]), es[1..], mac);
    }
  }

  /** From creation, after any events that end in a poll: the configuration invariant holds,
      the events alternate, and ip_up, bit and parity all say whether there is an IPv4 address. */
  lemma EveryRunIsConsistent(cap: nat, mac: seq<Byte>, es: seq<Event>, last: Lease)
    requires cap >= 2 && EventsOk(es) && EventOk(Poll(last))
    ensures var m := NodeStep(NodeRun(Node(New(cap, mac), Watch(false, false, [])), es), Poll(last));
            && CfgOk(m.cfg, mac) && WatchOk(m.watch)
            && (m.watch.ipUp <==> HasV4(m.cfg.addrs)) && m.watch.bit == m.watch.ipUp
  {
    var start := Node(New(cap, mac), Watch(false, false, []));
    assert CfgOk(start.cfg, mac) && WatchOk(start.watch);
    RunKeeps(start, es, mac);
    hide NodeRun;
    var n := NodeRun(start, es);
    StepKeepsIff(n.cfg, Poll(last), mac);
    var c := Step(n.cfg, Poll(last));
    Kept(c, mac);
    ObserveKeeps(n.watch, c.hasIp);
  }

  function IntentAfter(t: Intent, es: seq<Event>): Intent
    requires EventsOk(es)
    decreases |es|
  {
    if es == [] then t else IntentAfter(IntentStep(t, es[0]), es[1..])
  }

  lemma {:induction false} RunFollows(n: Node, es: seq<Event>, mac: seq<Byte>, t: Intent)
    requires EventsOk(es) && CfgOk(n.cfg, mac) && n.cfg.cap >= 2 && Follows(n.cfg, mac, t)
    ensures Follows(NodeRun(n, es).cfg, mac, IntentAfter(t, es))
    decreases |es|
  {
    hide CfgOk;
    hide Follows;
    if es != [] {
      StepKeepsIff(n.cfg, es[0], mac);
      StepFollows(n.cfg, mac, t, es[0]);
      RunFollows(NodeStep(n, es[0]), es[1..], mac, IntentStep(t, es[0]));
    }
  }

  /** After any run from creation the interface has the link-local address and, behind it, the
      last address that was given and not taken back, if there is one. */
  lemma LastAddressWins(cap: nat, mac: seq<Byte>, es: seq<Event>)
    requires cap >= 2 && EventsOk(es)
    ensures var c := NodeRun(Node(New(cap, mac), Watch(false, false, [])), es).cfg;
            Follows(c, mac, IntentAfter(Intent(false, None), es))
  {
    RunFollows(Node(New(cap, mac), Watch(false, false, [])), es, mac, Intent(false, None));
  }

  /** The netmask that C code reads: in memory order the octets of the prefix mask. */
  lemma NetmaskReadsAsPrefix(c: Cfg, mac: seq<Byte>)
    requires CfgOk(c, mac) && |c.addrs| == 2
    ensures c.netmaskBe < WORD
    ensures var p := c.addrs[1].prefix;
            ToLe(c.netmaskBe) == [HighBits(BitsIn(p, 0)), HighBits(BitsIn(p, 1)),
                                  HighBits(BitsIn(p, 2)), HighBits(BitsIn(p, 3))]
  {
    MaskInMemoryOrder(c.addrs[1].prefix);
  }

  // ----- in place -----

  class AddressCtx {
    const cap: nat
    var addrs: seq<Addr>
    var route: Option<Octets>
    var dhcp: bool
    var hasIp: bool
    var netmaskBe: nat
    var gatewayBe: nat

    ghost function State(): Cfg
      reads this
    {
      Cfg(cap, addrs, route, dhcp, hasIp, netmaskBe, gatewayBe)
    }

    constructor (cap: nat, mac: seq<Byte>)
      ensures State() == New(cap, mac)
    {
      this.cap := cap;
      addrs := if cap > 0 then [LinkLocal(mac)] else [];
      route, dhcp, hasIp, netmaskBe, gatewayBe := None, false, false, 0, 0;
    }

    /** update_ip_addrs as both callers use it. */
    method ReplaceV4(a: Addr)
      modifies `addrs
      ensures addrs == Replaced(cap, old(addrs), a)
    {
      DropV4();
      if |addrs| < cap {
        addrs := addrs + [a];
      }
    }

    method DropV4()
      modifies `addrs
      ensures addrs == WithoutV4(old(addrs))
    {
      var kept: seq<Addr> := [];
      for k := 0 to |addrs|
        invariant addrs == old(addrs)
        invariant kept + WithoutV4(addrs[k..]) == WithoutV4(addrs)
      {
        assert addrs[k..][1..] == addrs[k + 1..];
        if !addrs[k].V4? {
          kept := kept + [addrs[k]];
        }
      }
      addrs := kept;
    }

    method Poll(lease: Lease)
      requires EventOk(Event.Poll(lease))
      modifies this
      ensures State() == Step(old(State()), Event.Poll(lease))
    {
      if dhcp {
        match lease
        case NoEvent =>
        case Configured(ip, prefix, router) =>
          netmaskBe := Swap(Mask(prefix));
          ReplaceV4(V4(ip, prefix));
          if router.Some? {
            route := Some(router.value);
            gatewayBe := FromLe(router.value);
          } else {
            gatewayBe := 0;
          }
          hasIp := true;
        case Deconfigured =>
          DropV4();
          route := None;
          netmaskBe, gatewayBe, hasIp := 0, 0, false;
      } else {
        hasIp := exists k :: 0 <= k < |addrs| && addrs[k].V4?;
      }
    }

    method SetStatic(ipBe: nat, prefixLen: nat, gwBe: nat)
      requires EventOk(Event.SetStatic(ipBe, prefixLen, gwBe))
      modifies this
      ensures State() == Step(old(State()), Event.SetStatic(ipBe, prefixLen, gwBe))
    {
      dhcp := false;
      ReplaceV4(V4(ToLe(ipBe), prefixLen % 256));
      netmaskBe := Swap(Mask(prefixLen % 256));
      if gwBe != 0 {
        route := Some(ToLe(gwBe));
        gatewayBe := gwBe;
      }
      hasIp := true;
    }

    method EnableDhcp()
      modifies `dhcp
      ensures State() == Step(old(State()), Event.EnableDhcp)
    {
      if !dhcp {
        dhcp := true;
      }
    }
  }
}
