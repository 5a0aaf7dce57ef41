/** The firewall plan of one node: what its listeners need, and where hopping ports are sent. */
module NodePlan {
  import opened Strings
  import opened PortSet
  import opened PortText
  import opened Plans

  // A parsed listening address; without one, both families listen everywhere.
  datatype Listen = OnAll | On(v6: bool, address: Address) | Unusable

  function FamilyOf(v6: bool): int { if v6 then 6 else 4 }

  datatype Node = Node(
    protocol: string, network: string, transport: string, version: int, listen: Listen, serverPort: int,
    portHopping: string, landing: bool, relayProtocol: string, relayPort: int)

  // A landing node serves its relay's protocol, on the relay's port if that has one.
  function Effective(node: Node): Node {
    if !node.landing then node
    else node.(protocol := node.relayProtocol,
               serverPort := if node.relayPort != 0 then node.relayPort else node.serverPort)
  }

  lemma {:induction false} LandingServesItsRelay(node: Node)
    ensures var e := Effective(node);
            && e.protocol == (if node.landing then node.relayProtocol else node.protocol)
            && e.serverPort == (if node.landing && node.relayPort != 0 then node.relayPort else node.serverPort)
            && e == node.(protocol := e.protocol, serverPort := e.serverPort)
  {
  }

  function Addresses(listen: Listen): seq<(int, Address)> {
    match listen
    case OnAll => [(4, Anywhere), (6, Anywhere)]
    case On(v6, address) => [(FamilyOf(v6), address)]
    case Unusable => []
  }

  // No protocols: the port cannot be worked out.
  function ProtocolsOf(node: Node, kernel: string): seq<Protocol> {
    if node.protocol in {"hysteria", "tuic"} then [Udp]
    else if node.protocol in {"shadowsocks", "naive"} then [Tcp, Udp]
    else if node.protocol == "socks" then if kernel == "xray" then [Tcp, Udp] else [Tcp]
    else if node.protocol in {"http", "anytls"} then [Tcp]
    else if node.protocol == "mieru" then if Lower(node.transport) == "udp" then [Udp] else [Tcp]
    else if node.protocol in {"vmess", "vless", "trojan"} then
      if Lower(node.network) in {"kcp", "mkcp", "quic", "hysteria"} then [Udp] else [Tcp]
    else []
  }

  // Who needs a UDP port, and who a TCP one.
  predicate UsesUdp(node: Node, kernel: string) {
    || node.protocol in {"hysteria", "tuic", "shadowsocks", "naive"}
    || (node.protocol == "socks" && kernel == "xray")
    || (node.protocol == "mieru" && Lower(node.transport) == "udp")
    || (node.protocol in {"vmess", "vless", "trojan"} && Lower(node.network) in {"kcp", "mkcp", "quic", "hysteria"})
  }

  predicate UsesTcp(node: Node, kernel: string) {
    || node.protocol in {"shadowsocks", "naive", "socks", "http", "anytls"}
    || (node.protocol == "mieru" && Lower(node.transport) != "udp")
    || (node.protocol in {"vmess", "vless", "trojan"} && Lower(node.network) !in {"kcp", "mkcp", "quic", "hysteria"})
  }

  lemma {:induction false} ProtocolsAreUsed(node: Node, kernel: string)
    ensures forall x :: x in ProtocolsOf(node, kernel) <==> Uses(node, kernel, x)
    ensures Udp in ProtocolsOf(node, kernel) <==> UsesUdp(node, kernel)
    ensures Tcp in ProtocolsOf(node, kernel) <==> UsesTcp(node, kernel)
    ensures ProtocolsOf(node, kernel) != [] <==> UsesUdp(node, kernel) || UsesTcp(node, kernel)
  {
    var protocols := ProtocolsOf(node, kernel);
    assert protocols != [] ==> protocols[0].Udp? || protocols[0].Tcp?;
  }

  predicate Uses(node: Node, kernel: string, protocol: Protocol) {
    match protocol
    case Udp => UsesUdp(node, kernel)
    case Tcp => UsesTcp(node, kernel)
  }

  predicate Hops(node: Node) { Trim(node.portHopping) != "" }

  // What a plan can be made for.
  predicate Plannable(node: Node, kernel: string) {
    && 1 <= node.serverPort <= 65535 && !node.listen.Unusable? && (UsesUdp(node, kernel) || UsesTcp(node, kernel))
    && (Hops(node) ==> node.protocol == "hysteria" && node.version == 2 && !node.landing && Readable(node.portHopping))
  }

  predicate ListensAt(listen: Listen, p: Packet) {
    match listen
    case OnAll => p.family == 4 || p.family == 6
    case On(v6, address) => p.family == FamilyOf(v6) && (address.Anywhere? || address.ip == p.ip)
    case Unusable => false
  }

  /** The plan lets in exactly the packets that the node's listeners serve, and sends exactly the UDP packets
      to its other hopping ports to its own port. */
  ghost predicate PlansFor(plan: Plan, node: Node, kernel: string) {
    && (forall p :: Asks(plan.listeners, p, 0) <==>
          ListensAt(node.listen, p) && Uses(node, kernel, p.protocol) && p.port == node.serverPort)
    && (forall p, target :: Asks(plan.redirects, p, target) <==>
          target == node.serverPort && ListensAt(node.listen, p) && p.protocol.Udp?
          && Hops(node) && Listed(node.portHopping, p.port) && p.port != node.serverPort)
  }

  method PlanForNode(given: Node, kernel: string) returns (ok: bool, plan: Plan)
    ensures ok <==> Plannable(Effective(given), kernel)
    ensures ok ==> PlanValid(plan) && PlansFor(plan, Effective(given), kernel) && !Ambiguous(ClaimsOf(plan))
  {
    var node := Effective(given);
    plan := Plan([], []);
    if node.serverPort < 1 || node.serverPort > 65535 {
      return false, plan;
    }
    var addresses := Addresses(node.listen);
    if addresses == [] {
      return false, plan;
    }
    var protocols := ProtocolsOf(node, kernel);
    ProtocolsAreUsed(node, kernel);
    if protocols == [] {
      return false, plan;
    }
    var listeners := Listeners(addresses, protocols, node.serverPort);
    var redirects: seq<Rule> := [];
    if Trim(node.portHopping) != "" {
      if node.protocol != "hysteria" || node.version != 2 || node.landing {
        return false, plan;
      }
      var ranges: seq<Range>;
      ok, ranges := Parse(node.portHopping);
      if !ok {
        return;
      }
      var others := Without(ranges, node.serverPort);
      redirects := Redirects(addresses, others, node.serverPort);
    }
    ok := true;
    plan := Plan(listeners, redirects);
    OneTarget(plan, node.serverPort);
    forall p ensures ListensAt(node.listen, p) <==> AtSome(addresses, p) {
      ListensAtSome(node.listen, p);
    }
  }

  // The packet goes to one of the addresses.
  ghost predicate AtSome(addresses: seq<(int, Address)>, p: Packet) {
    exists i :: 0 <= i < |addresses| && AtOne(addresses[i], p)
  }

  predicate AtOne(at: (int, Address), p: Packet) { p.family == at.0 && (at.1.Anywhere? || at.1.ip == p.ip) }

  lemma {:induction false} ListensAtSome(listen: Listen, p: Packet)
    ensures ListensAt(listen, p) <==> AtSome(Addresses(listen), p)
  {
    var addresses := Addresses(listen);
    if listen.OnAll? {
      assert AtOne(addresses[0], p) <==> p.family == 4;
      assert AtOne(addresses[1], p) <==> p.family == 6;
    } else if listen.On? {
      assert AtOne(addresses[0], p) <==> ListensAt(listen, p);
    }
  }

  method Listeners(addresses: seq<(int, Address)>, protocols: seq<Protocol>, port: int) returns (rules: seq<Rule>)
    requires 1 <= port <= 65535 && forall i :: 0 <= i < |addresses| ==> addresses[i].0 == 4 || addresses[i].0 == 6
    ensures forall r <- rules :: RuleValid(r) && r.ports == Range(port, port) && r.target == 0
    ensures forall p :: Asks(rules, p, 0) <==> AtSome(addresses, p) && p.protocol in protocols && p.port == port
  {
    rules := [];
    for i := 0 to |addresses|
      invariant forall r <- rules :: RuleValid(r) && r.ports == Range(port, port) && r.target == 0
      invariant forall p :: Asks(rules, p, 0) <==> AtSome(addresses[..i], p) && p.protocol in protocols && p.port == port
    {
      ghost var before := rules;
      for j := 0 to |protocols|
        invariant forall r <- rules :: RuleValid(r) && r.ports == Range(port, port) && r.target == 0
        invariant forall p :: Asks(rules, p, 0) <==>
                    Asks(before, p, 0) || (AtOne(addresses[i], p) && p.protocol in protocols[..j] && p.port == port)
      {
        var r := Rule(addresses[i].0, addresses[i].1, protocols[j], Range(port, port), 0);
        forall p ensures Asks(rules + [r], p, 0) <==> Asks(rules, p, 0) || Matches(r, p) {
          AsksOneMore(rules, r, p, 0);
        }
        assert protocols[..j + 1] == protocols[..j] + [protocols[j]];
        rules := rules + [r];
      }
      assert protocols[..|protocols|] == protocols;
      forall p ensures AtSome(addresses[..i + 1], p) <==> AtSome(addresses[..i], p) || AtOne(addresses[i], p) {
        OneMoreAddress(addresses, i, p);
      }
    }
    assert addresses[..|addresses|] == addresses;
  }

  lemma {:induction false} AsksOneMore(rules: seq<Rule>, r: Rule, p: Packet, target: int)
    ensures Asks(rules + [r], p, target) <==> Asks(rules, p, target) || (Matches(r, p) && r.target == target)
  {
    assert r in rules + [r];
  }

  lemma {:induction false} OneMoreAddress(addresses: seq<(int, Address)>, i: nat, p: Packet)
    requires i < |addresses|
    ensures AtSome(addresses[..i + 1], p) <==> AtSome(addresses[..i], p) || AtOne(addresses[i], p)
  {
    var some := addresses[..i + 1];
    if AtSome(addresses[..i], p) {
      var k :| 0 <= k < i && AtOne(addresses[..i][k], p);
      assert AtOne(some[k], p);
    }
    if AtOne(addresses[i], p) {
      assert AtOne(some[i], p);
    }
    if AtSome(some, p) {
      var k :| 0 <= k < |some| && AtOne(some[k], p);
      assert k < i ==> AtOne(addresses[..i][k], p);
    }
  }

  method Redirects(addresses: seq<(int, Address)>, ranges: seq<Range>, target: int) returns (rules: seq<Rule>)
    requires AllValid(ranges) && 1 <= target <= 65535
    requires forall i :: 0 <= i < |addresses| ==> addresses[i].0 == 4 || addresses[i].0 == 6
    ensures forall r <- rules :: RuleValid(r) && r.protocol.Udp? && r.target == target
    ensures forall p, t :: Asks(rules, p, t) <==>
              t == target && AtSome(addresses, p) && p.protocol.Udp? && Covers(ranges, p.port)
  {
    rules := [];
    for i := 0 to |addresses|
      invariant forall r <- rules :: RuleValid(r) && r.protocol.Udp? && r.target == target
      invariant forall p, t :: Asks(rules, p, t) <==>
                  t == target && AtSome(addresses[..i], p) && p.protocol.Udp? && Covers(ranges, p.port)
    {
      ghost var before := rules;
      for j := 0 to |ranges|
        invariant forall r <- rules :: RuleValid(r) && r.protocol.Udp? && r.target == target
        invariant forall p, t :: Asks(rules, p, t) <==>
                    Asks(before, p, t)
                    || (t == target && AtOne(addresses[i], p) && p.protocol.Udp? && Covers(ranges[..j], p.port))
      {
        var r := Rule(addresses[i].0, addresses[i].1, Udp, ranges[j], target);
        forall p, t ensures Asks(rules + [r], p, t) <==> Asks(rules, p, t) || (Matches(r, p) && t == target) {
          AsksOneMore(rules, r, p, t);
        }
        forall port ensures Covers(ranges[..j + 1], port) <==> Covers(ranges[..j], port) || ranges[j].Contains(port) {
          OneMoreRange(ranges, j, port);
        }
        rules := rules + [r];
      }
      assert ranges[..|ranges|] == ranges;
      forall p ensures AtSome(addresses[..i + 1], p) <==> AtSome(addresses[..i], p) || AtOne(addresses[i], p) {
        OneMoreAddress(addresses, i, p);
      }
    }
    assert addresses[..|addresses|] == addresses;
  }

  lemma {:induction false} OneMoreRange(ranges: seq<Range>, j: nat, port: int)
    requires j < |ranges|
    ensures Covers(ranges[..j + 1], port) <==> Covers(ranges[..j], port) || ranges[j].Contains(port)
  {
    CoversAppend(ranges[..j], [ranges[j]], port);
    assert ranges[..j + 1] == ranges[..j] + [ranges[j]];
    assert Covers([ranges[j]], port) <==> [ranges[j]][0].Contains(port);
  }

  // Listeners and redirects of one node all lead to the same port.
  lemma {:induction false} OneTarget(plan: Plan, port: int)
    requires forall r <- plan.listeners :: r.ports == Range(port, port)
    requires forall r <- plan.redirects :: r.target == port
    ensures !Ambiguous(ClaimsOf(plan))
  {
    ListenersClaimTheirPort(plan.listeners, port);
    assert forall c <- ClaimsOf(plan) :: c.target == port;
  }

  lemma {:induction false} ListenersClaimTheirPort(listeners: seq<Rule>, port: int)
    requires forall r <- listeners :: r.ports == Range(port, port)
    ensures forall c <- ListenerClaims(listeners) :: c.target == port
  {
    if listeners != [] {
      assert listeners[0] in listeners;
      ListenersClaimTheirPort(listeners[1..], port);
    }
  }
}
