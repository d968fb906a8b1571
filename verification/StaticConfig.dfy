/** The static address of a build without DHCP: from the configured texts to the interface. */
module StaticConfig {
  import opened Basics
  import opened Splitting
  import opened Ipv4Words
  import opened Ipv4Text
  import opened IfaceConfig

  /** The octets that the text stands for, 0.0.0.0 if it does not parse. */
  ghost predicate Denotes(text: string, o: Octets) {
    ParsesAs(Split(text, '.'), o)
    || (o == [0, 0, 0, 0] && forall q: Octets :: !ParsesAs(Split(text, '.'), q))
  }

  /** Whatever address is parsed and set, the interface gets it octet by octet backwards; so it
      gets the address that was meant exactly if that reads the same both ways. */
  lemma StaticAddressIsReversed(c: Cfg, mac: seq<Byte>, o: Octets, gw: Octets)
    requires CfgOk(c, mac) && c.cap >= 2
    ensures var d := Step(c, SetStatic(FromBe(o), 24, FromBe(gw)));
            && CfgOk(d, mac)
            && d.addrs == [LinkLocal(mac), V4(Reversed(o), 24)]
            && (d.addrs[1] == V4(o, 24) <==> o[0] == o[3] && o[1] == o[2])
            && (gw != [0, 0, 0, 0] ==> d.route == Some(Reversed(gw)))
            && (gw == [0, 0, 0, 0] ==> d.route == c.route)
  {
    var ip, g := FromBe(o), FromBe(gw);
    ParsedWordIsReversed(o);
    ParsedWordIsReversed(gw);
    ZeroWord(gw);
    StepKeepsIff(c, SetStatic(ip, 24, g), mac);
    AfterStatic(c, mac, ip, g);
    hide FromBe;
    hide FromLe;
    hide ToLe;
    hide Swap;
    hide Step;
    hide CfgOk;
    assert V4(Reversed(o), 24) == V4(o, 24) <==> o[0] == o[3] && o[1] == o[2];
  }

  lemma AfterStatic(c: Cfg, mac: seq<Byte>, ip: nat, gw: nat)
    requires CfgOk(c, mac) && c.cap >= 2 && ip < WORD && gw < WORD
    ensures var d := Step(c, SetStatic(ip, 24, gw));
            && d.addrs == [LinkLocal(mac), V4(ToLe(ip), 24)]
            && d.route == if gw != 0 then Some(ToLe(gw)) else c.route
  {
    Kept(c, mac);
    hide ToLe;
    hide Swap;
    hide Mask;
    hide CfgOk;
    hide WithoutV4;
  }

  lemma ZeroWord(o: Octets)
    ensures FromBe(o) == 0 <==> o == [0, 0, 0, 0]
  {
  }

  /** The end of the Ethernet attach. What the parser answers is not looked at, so a text that
      does not parse leaves the word 0. */
  method AttachStatic(ctx: AddressCtx, ip: string, gw: string, ghost mac: seq<Byte>)
    requires CfgOk(ctx.State(), mac) && ctx.cap >= 2
    modifies ctx
    ensures CfgOk(ctx.State(), mac)
    ensures forall o :: Denotes(ip, o) ==> ctx.addrs == [LinkLocal(mac), V4(Reversed(o), 24)]
    ensures forall g :: Denotes(gw, g) ==>
              ctx.route == if g == [0, 0, 0, 0] then old(ctx.route) else Some(Reversed(g))
  {
    ghost var c := ctx.State();
    var ipBe, o := ParsedOrZero(ip);
    var gwBe, g := ParsedOrZero(gw);
    StaticAddressIsReversed(c, mac, o, g);
    ctx.SetStatic(ipBe, 24, gwBe);
  }

  method ParsedOrZero(text: string) returns (w: nat, ghost o: Octets)
    ensures w == FromBe(o) && forall q :: Denotes(text, q) ==> q == o
  {
    var r := ParseIpv4(text);
    hide ParsesAs;
    hide Split;
    w := if r.Some? then r.value else 0;
    if r.Some? {
      o :| ParsesAs(Split(text, '.'), o);
      forall q | ParsesAs(Split(text, '.'), q)
        ensures q == o
      {
        ParseIsUnique(Split(text, '.'), q, o);
      }
    } else {
      o := [0, 0, 0, 0];
    }
  }
}
