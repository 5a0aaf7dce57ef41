/** Combining the firewall plans of all running nodes: a union of allow rules and of port redirects that
    means exactly what the plans mean, or a conflict exactly when some packet has two destinations. */
module Plans {
  import opened PortSet

  datatype Address = Anywhere | Host(ip: nat)

  datatype Protocol = Tcp | Udp

  // A rule with target 0 allows; any other target redirects UDP packets to that port.
  datatype Rule = Rule(family: int, address: Address, protocol: Protocol, ports: Range, target: int)

  datatype Plan = Plan(listeners: seq<Rule>, redirects: seq<Rule>)

  datatype Packet = Packet(family: int, ip: nat, protocol: Protocol, port: int)

  predicate Matches(r: Rule, p: Packet) {
    && r.family == p.family && (r.address.Anywhere? || r.address.ip == p.ip)
    && r.protocol == p.protocol && r.ports.Contains(p.port)
  }

  // ----- Grouping -----

  datatype Group = Group(family: int, address: Address, protocol: Protocol, target: int)

  function GroupOf(r: Rule): Group { Group(r.family, r.address, r.protocol, r.target) }

  function RuleOf(g: Group, ports: Range): Rule { Rule(g.family, g.address, g.protocol, ports, g.target) }

  ghost predicate ListHas(rules: seq<Rule>, g: Group, port: int) {
    exists i :: 0 <= i < |rules| && GroupOf(rules[i]) == g && rules[i].ports.Contains(port)
  }

  ghost predicate SetHas(rules: set<Rule>, g: Group, port: int) {
    exists r <- rules :: GroupOf(r) == g && r.ports.Contains(port)
  }

  ghost predicate PortsValid(rules: seq<Rule>) {
    forall i :: 0 <= i < |rules| ==> rules[i].ports.Valid()
  }

  // Rules of one group are valid ranges with gaps between them.
  ghost predicate Separated(rules: set<Rule>) {
    && (forall r <- rules :: r.ports.Valid())
    && (forall r, s :: r in rules && s in rules && r != s && GroupOf(r) == GroupOf(s) ==>
          r.ports.to + 1 < s.ports.from || s.ports.to + 1 < r.ports.from)
  }

  // The source returns the merged rules sorted by a key that is different for different rules, so the
  // set determines the list.
  ghost predicate IsMergeOf(merged: set<Rule>, rules: seq<Rule>) {
    Separated(merged) && forall g, port :: SetHas(merged, g, port) <==> ListHas(rules, g, port)
  }

  ghost predicate GroupsHave(groups: map<Group, seq<Range>>, g: Group, port: int) {
    g in groups && Covers(groups[g], port)
  }

  method MergeRules(rules: seq<Rule>) returns (merged: set<Rule>)
    requires PortsValid(rules)
    ensures IsMergeOf(merged, rules)
  {
    var groups: map<Group, seq<Range>> := map[];
    for i := 0 to |rules|
      invariant forall g <- groups :: AllValid(groups[g])
      invariant forall g, port :: GroupsHave(groups, g, port) <==> ListHas(rules[..i], g, port)
    {
      var r := rules[i];
      var key := GroupOf(r);
      var before := if key in groups then groups[key] else [];
      groups := groups[key := before + [r.ports]];
      forall g, port ensures GroupsHave(groups, g, port) <==> ListHas(rules[..i + 1], g, port) {
        ListHasStep(rules, i, g, port);
        if g == key {
          CoversAppend(before, [r.ports], port);
          assert Covers([r.ports], port) <==> r.ports.Contains(port) by { assert [r.ports][0] == r.ports; }
          assert !Covers([], port);
        }
      }
    }
    assert rules[..|rules|] == rules;
    merged := {};
    var todo := groups.Keys;
    while todo != {}
      invariant todo <= groups.Keys && Separated(merged)
      invariant forall r <- merged :: GroupOf(r) in groups.Keys - todo
      invariant forall g, port :: SetHas(merged, g, port) <==> g in groups.Keys - todo && Covers(groups[g], port)
    {
      var key :| key in todo;
      var ranges := Merge(groups[key]);
      var added := set i | 0 <= i < |ranges| :: RuleOf(key, ranges[i]);
      ghost var before := merged;
      AddedGroup(before, added, key, ranges);
      merged, todo := merged + added, todo - {key};
      forall g, port
        ensures SetHas(merged, g, port) <==> g in groups.Keys - todo && Covers(groups[g], port)
      {
        AddedHas(before, added, key, ranges, g, port);
      }
    }
  }

  lemma ListHasStep(rules: seq<Rule>, i: nat, g: Group, port: int)
    requires i < |rules|
    ensures ListHas(rules[..i + 1], g, port) <==>
            ListHas(rules[..i], g, port) || (GroupOf(rules[i]) == g && rules[i].ports.Contains(port))
  {
  }

  lemma AddedGroup(before: set<Rule>, added: set<Rule>, key: Group, ranges: seq<Range>)
    requires Separated(before) && Canonical(ranges)
    requires forall r <- before :: GroupOf(r) != key
    requires added == set i | 0 <= i < |ranges| :: RuleOf(key, ranges[i])
    ensures Separated(before + added)
  {
  }

  lemma AddedHas(before: set<Rule>, added: set<Rule>, key: Group, ranges: seq<Range>, g: Group, port: int)
    requires added == set i | 0 <= i < |ranges| :: RuleOf(key, ranges[i])
    ensures SetHas(before + added, g, port) <==> SetHas(before, g, port) || (g == key && Covers(ranges, port))
  {
    if SetHas(before, g, port) {
      var r :| r in before && GroupOf(r) == g && r.ports.Contains(port);
      assert r in before + added;
    }
    if g == key && Covers(ranges, port) {
      var i :| 0 <= i < |ranges| && ranges[i].Contains(port);
      assert RuleOf(key, ranges[i]) in added;
      assert RuleOf(key, ranges[i]) in before + added;
    }
    if SetHas(before + added, g, port) {
      var r :| r in before + added && GroupOf(r) == g && r.ports.Contains(port);
      if r in added {
        var i :| 0 <= i < |ranges| && r == RuleOf(key, ranges[i]);
        assert ranges[i].Contains(port);
      }
    }
  }

  // ----- The merged set does not depend on the order of the rules -----

  lemma {:induction false} MergeUnique(a: set<Rule>, b: set<Rule>)
    requires Separated(a) && Separated(b)
    requires forall g, port :: SetHas(a, g, port) <==> SetHas(b, g, port)
    ensures a == b
  {
    forall r | r in a ensures r in b {
      SameRule(a, b, r);
    }
    forall r | r in b ensures r in a {
      SameRule(b, a, r);
    }
  }

  lemma {:induction false} SameRule(a: set<Rule>, b: set<Rule>, r: Rule)
    requires Separated(a) && Separated(b) && r in a
    requires forall g, port :: SetHas(a, g, port) <==> SetHas(b, g, port)
    ensures r in b
  {
    var g := GroupOf(r);
    assert r.ports.Contains(r.ports.from);
    assert SetHas(a, g, r.ports.from);
    var s :| s in b && GroupOf(s) == g && s.ports.Contains(r.ports.from);
    Maximal(a, b, r, s);
    Maximal(b, a, s, r);
    assert r == RuleOf(g, r.ports) == RuleOf(g, s.ports) == s;
  }

  // A range of one set reaches at least as far as an overlapping range of the other, on both sides.
  lemma {:induction false} Maximal(a: set<Rule>, b: set<Rule>, r: Rule, s: Rule)
    requires Separated(a) && Separated(b) && r in a && s in b && GroupOf(r) == GroupOf(s)
    requires forall g, port :: SetHas(a, g, port) <==> SetHas(b, g, port)
    requires r.ports.Overlaps(s.ports)
    ensures r.ports.from <= s.ports.from && s.ports.to <= r.ports.to
  {
    NotBeyond(a, b, r, s, r.ports.from - 1);
    NotBeyond(a, b, r, s, r.ports.to + 1);
  }

  lemma {:induction false} NotBeyond(a: set<Rule>, b: set<Rule>, r: Rule, s: Rule, port: int)
    requires Separated(a) && r in a && s in b && GroupOf(r) == GroupOf(s)
    requires forall g, port :: SetHas(a, g, port) <==> SetHas(b, g, port)
    requires port == r.ports.from - 1 || port == r.ports.to + 1
    ensures !s.ports.Contains(port)
  {
    NothingNextTo(a, r, port);
    assert s.ports.Contains(port) ==> SetHas(b, GroupOf(s), port);
  }

  lemma {:induction false} NothingNextTo(a: set<Rule>, r: Rule, port: int)
    requires Separated(a) && r in a && (port == r.ports.from - 1 || port == r.ports.to + 1)
    ensures !SetHas(a, GroupOf(r), port)
  {
  }

  // ----- Combining -----

  function Allow(r: Rule): Rule { r.(target := 0) }

  function ClaimOf(listener: Rule): Rule { listener.(target := listener.ports.from) }

  function Allowed(rules: seq<Rule>): seq<Rule> {
    if rules == [] then [] else [Allow(rules[0])] + Allowed(rules[1..])
  }

  // What one plan asks to allow, and what it claims for UDP packets.
  function AllowsOf(plan: Plan): seq<Rule> { plan.listeners + Allowed(plan.redirects) }

  function ListenerClaims(listeners: seq<Rule>): seq<Rule> {
    if listeners == [] then []
    else (if listeners[0].protocol.Udp? then [ClaimOf(listeners[0])] else []) + ListenerClaims(listeners[1..])
  }

  function ClaimsOf(plan: Plan): seq<Rule> { ListenerClaims(plan.listeners) + plan.redirects }

  function AllAllows(plans: seq<Plan>): seq<Rule> {
    if plans == [] then [] else AllAllows(plans[..|plans| - 1]) + AllowsOf(plans[|plans| - 1])
  }

  function AllRedirects(plans: seq<Plan>): seq<Rule> {
    if plans == [] then [] else AllRedirects(plans[..|plans| - 1]) + plans[|plans| - 1].redirects
  }

  function AllClaims(plans: seq<Plan>): seq<Rule> {
    if plans == [] then [] else AllClaims(plans[..|plans| - 1]) + ClaimsOf(plans[|plans| - 1])
  }

  predicate RuleValid(r: Rule) {
    && (r.family == 4 || r.family == 6) && r.ports.Valid() && 0 <= r.target <= 65535
    && (r.target != 0 ==> r.protocol.Udp?)
  }

  // All rules are valid; listeners allow, redirects send UDP to a port.
  predicate PlanValid(plan: Plan) {
    && (forall i :: 0 <= i < |plan.listeners| ==> RuleValid(plan.listeners[i]) && plan.listeners[i].target == 0)
    && (forall i :: 0 <= i < |plan.redirects| ==> RuleValid(plan.redirects[i]) && plan.redirects[i].target > 0)
  }

  predicate ClaimsClash(left: Rule, right: Rule) {
    && left.family == right.family
    && (left.address.Anywhere? || right.address.Anywhere? || left.address == right.address)
    && left.ports.Overlaps(right.ports) && left.target != right.target
  }

  ghost predicate Ambiguous(claims: seq<Rule>) {
    exists i, j, p :: 0 <= i < j < |claims| && Matches(claims[i], p) && Matches(claims[j], p)
                      && claims[i].target != claims[j].target
  }

  ghost predicate ClaimsValid(claims: seq<Rule>) {
    forall i :: 0 <= i < |claims| ==> claims[i].ports.Valid() && claims[i].protocol.Udp?
  }

  lemma {:induction false} ClashIsAmbiguity(left: Rule, right: Rule)
    requires left.ports.Valid() && right.ports.Valid() && left.protocol.Udp? && right.protocol.Udp?
    ensures ClaimsClash(left, right) <==>
            left.target != right.target && exists p :: Matches(left, p) && Matches(right, p)
  {
    if ClaimsClash(left, right) {
      var ip := if left.address.Host? then left.address.ip else if right.address.Host? then right.address.ip else 0;
      var port := if left.ports.from < right.ports.from then right.ports.from else left.ports.from;
      var p := Packet(left.family, ip, Udp, port);
      assert Matches(left, p) && Matches(right, p);
    }
  }

  datatype Combined = Conflict | Combined(allows: set<Rule>, redirects: set<Rule>)

  method CombinePlans(plans: seq<Plan>) returns (r: Combined)
    requires forall i :: 0 <= i < |plans| ==> PlanValid(plans[i])
    ensures r.Conflict? <==> Ambiguous(AllClaims(plans))
    ensures r.Combined? ==> IsMergeOf(r.allows, AllAllows(plans)) && IsMergeOf(r.redirects, AllRedirects(plans))
  {
    var allows, redirects, claims := Collect(plans);
    var clash := FindClash(claims);
    if clash {
      return Conflict;
    }
    var mergedAllows := MergeRules(allows);
    var mergedRedirects := MergeRules(redirects);
    r := Combined(mergedAllows, mergedRedirects);
  }

  lemma {:induction false} PlanIsValid(plan: Plan)
    requires PlanValid(plan)
    ensures PortsValid(plan.listeners) && PortsValid(plan.redirects) && ClaimsValid(plan.redirects)
  {
  }

  lemma {:induction false} JoinedIsValid(a: seq<Rule>, b: seq<Rule>)
    ensures a == b == [] ==> PortsValid(a) && ClaimsValid(a)
    ensures PortsValid(a) && PortsValid(b) ==> PortsValid(a + b)
    ensures ClaimsValid(a) && ClaimsValid(b) ==> ClaimsValid(a + b)
  {
  }

  method Collect(plans: seq<Plan>) returns (allows: seq<Rule>, redirects: seq<Rule>, claims: seq<Rule>)
    requires forall i :: 0 <= i < |plans| ==> PlanValid(plans[i])
    ensures allows == AllAllows(plans) && redirects == AllRedirects(plans) && claims == AllClaims(plans)
    ensures PortsValid(allows) && PortsValid(redirects) && ClaimsValid(claims)
  {
    hide PortsValid, ClaimsValid;
    allows, redirects, claims := [], [], [];
    JoinedIsValid([], []);
    for i := 0 to |plans|
      invariant allows == AllAllows(plans[..i]) && redirects == AllRedirects(plans[..i]) && claims == AllClaims(plans[..i])
      invariant PortsValid(allows) && PortsValid(redirects) && ClaimsValid(claims)
    {
      var plan := plans[i];
      assert plans[..i + 1][..i] == plans[..i];
      PlanIsValid(plan);
      var newAllows, newClaims := CollectListeners(plan.listeners);
      var redirectAllows := CollectRedirects(plan.redirects);
      JoinedIsValid(newAllows, redirectAllows);
      JoinedIsValid(allows, newAllows + redirectAllows);
      JoinedIsValid(redirects, plan.redirects);
      JoinedIsValid(newClaims, plan.redirects);
      JoinedIsValid(claims, newClaims + plan.redirects);
      allows, redirects := allows + (newAllows + redirectAllows), redirects + plan.redirects;
      claims := claims + (newClaims + plan.redirects);
    }
    assert plans[..|plans|] == plans;
  }

  method CollectListeners(listeners: seq<Rule>) returns (allows: seq<Rule>, claims: seq<Rule>)
    requires PortsValid(listeners)
    ensures allows == listeners && claims == ListenerClaims(listeners) && ClaimsValid(claims)
  {
    allows, claims := [], [];
    for i := 0 to |listeners|
      invariant allows == listeners[..i] && ClaimsValid(claims)
      invariant ListenerClaims(listeners) == claims + ListenerClaims(listeners[i..])
    {
      var listener := listeners[i];
      allows := allows + [listener];
      assert listeners[i..][1..] == listeners[i + 1..];
      if listener.protocol.Udp? {
        claims := claims + [listener.(target := listener.ports.from)];
      }
    }
    assert listeners[..|listeners|] == listeners && listeners[|listeners|..] == [];
  }

  method CollectRedirects(redirects: seq<Rule>) returns (allows: seq<Rule>)
    requires PortsValid(redirects)
    ensures allows == Allowed(redirects) && PortsValid(allows)
  {
    allows := [];
    for i := 0 to |redirects|
      invariant PortsValid(allows) && Allowed(redirects) == allows + Allowed(redirects[i..])
    {
      assert redirects[i..][1..] == redirects[i + 1..];
      allows := allows + [redirects[i].(target := 0)];
    }
    assert redirects[|redirects|..] == [];
  }

  method FindClash(claims: seq<Rule>) returns (clash: bool)
    requires ClaimsValid(claims)
    ensures clash <==> Ambiguous(claims)
  {
    for i := 0 to |claims|
      invariant forall k, j :: 0 <= k < i && k < j < |claims| ==> !ClaimsClash(claims[k], claims[j])
    {
      for j := i + 1 to |claims|
        invariant forall m :: i < m < j ==> !ClaimsClash(claims[i], claims[m])
      {
        if ClaimsClash(claims[i], claims[j]) {
          ClashIsAmbiguity(claims[i], claims[j]);
          var p :| Matches(claims[i], p) && Matches(claims[j], p);
          return true;
        }
      }
    }
    forall i, j, p | 0 <= i < j < |claims| && Matches(claims[i], p) && Matches(claims[j], p)
      ensures claims[i].target == claims[j].target
    {
      ClashIsAmbiguity(claims[i], claims[j]);
    }
    clash := false;
  }

  // ----- What the combined rules mean -----

  ghost predicate Sends(rules: set<Rule>, p: Packet, target: int) {
    exists r <- rules :: Matches(r, p) && r.target == target
  }

  ghost predicate Asks(rules: seq<Rule>, p: Packet, target: int) {
    exists r <- rules :: Matches(r, p) && r.target == target
  }

  lemma {:induction false} MergeMeansTheSame(merged: set<Rule>, rules: seq<Rule>, p: Packet, target: int)
    requires IsMergeOf(merged, rules)
    ensures Sends(merged, p, target) <==> Asks(rules, p, target)
  {
    if Sends(merged, p, target) {
      var r :| r in merged && Matches(r, p) && r.target == target;
      assert SetHas(merged, GroupOf(r), p.port);
      assert ListHas(rules, GroupOf(r), p.port);
      var i :| 0 <= i < |rules| && GroupOf(rules[i]) == GroupOf(r) && rules[i].ports.Contains(p.port);
      assert rules[i] in rules && Matches(rules[i], p);
    }
    if Asks(rules, p, target) {
      var r :| r in rules && Matches(r, p) && r.target == target;
      var i :| 0 <= i < |rules| && rules[i] == r;
      assert ListHas(rules, GroupOf(r), p.port);
      assert SetHas(merged, GroupOf(r), p.port);
      var s :| s in merged && GroupOf(s) == GroupOf(r) && s.ports.Contains(p.port);
      assert Matches(s, p);
    }
  }

  lemma {:induction false} InAllClaims(plans: seq<Plan>, c: Rule)
    ensures c in AllClaims(plans) <==> exists plan <- plans :: c in ClaimsOf(plan)
    decreases |plans|
  {
    if plans != [] {
      InAllClaims(plans[..|plans| - 1], c);
      assert plans == plans[..|plans| - 1] + [plans[|plans| - 1]];
    }
  }

  lemma {:induction false} InAllRedirects(plans: seq<Plan>, c: Rule)
    ensures c in AllRedirects(plans) <==> exists plan <- plans :: c in plan.redirects
    decreases |plans|
  {
    if plans != [] {
      InAllRedirects(plans[..|plans| - 1], c);
      assert plans == plans[..|plans| - 1] + [plans[|plans| - 1]];
    }
  }

  lemma {:induction false} InAllAllows(plans: seq<Plan>, c: Rule)
    ensures c in AllAllows(plans) <==> exists plan <- plans :: c in AllowsOf(plan)
    decreases |plans|
  {
    if plans != [] {
      InAllAllows(plans[..|plans| - 1], c);
      assert plans == plans[..|plans| - 1] + [plans[|plans| - 1]];
    }
  }

  lemma {:induction false} InAllowed(rules: seq<Rule>, r: Rule)
    requires r in rules
    ensures Allow(r) in Allowed(rules)
  {
    if rules[0] != r {
      InAllowed(rules[1..], r);
    }
  }

  // A packet is redirected to the port its node asked for, to no other, and is allowed through.
  lemma {:induction false} RedirectsAreExactAndAllowed(plans: seq<Plan>, r: Combined, p: Packet, target: int)
    requires r.Combined? && !Ambiguous(AllClaims(plans))
    requires IsMergeOf(r.allows, AllAllows(plans)) && IsMergeOf(r.redirects, AllRedirects(plans))
    ensures Sends(r.redirects, p, target) <==> exists plan <- plans :: Asks(plan.redirects, p, target)
    ensures Sends(r.redirects, p, target) ==> Sends(r.allows, p, 0)
    ensures forall other :: Sends(r.redirects, p, target) && Sends(r.redirects, p, other) ==> other == target
  {
    MergeMeansTheSame(r.redirects, AllRedirects(plans), p, target);
    forall rule ensures rule in AllRedirects(plans) <==> exists plan <- plans :: rule in plan.redirects {
      InAllRedirects(plans, rule);
    }
    if Sends(r.redirects, p, target) {
      var rule :| rule in AllRedirects(plans) && Matches(rule, p) && rule.target == target;
      var plan :| plan in plans && rule in plan.redirects;
      assert Asks(plan.redirects, p, target);
      InAllowed(plan.redirects, rule);
      InAllAllows(plans, Allow(rule));
      assert Matches(Allow(rule), p);
      MergeMeansTheSame(r.allows, AllAllows(plans), p, 0);
      forall other | Sends(r.redirects, p, other) ensures other == target {
        MergeMeansTheSame(r.redirects, AllRedirects(plans), p, other);
        var rule' :| rule' in AllRedirects(plans) && Matches(rule', p) && rule'.target == other;
        var plan' :| plan' in plans && rule' in plan'.redirects;
        InAllClaims(plans, rule);
        InAllClaims(plans, rule');
        TwoClaimsAgree(AllClaims(plans), rule, rule', p);
      }
    }
    if exists plan <- plans :: Asks(plan.redirects, p, target) {
      var plan :| plan in plans && Asks(plan.redirects, p, target);
      var rule :| rule in plan.redirects && Matches(rule, p) && rule.target == target;
      assert rule in AllRedirects(plans);
    }
  }

  lemma {:induction false} TwoClaimsAgree(claims: seq<Rule>, c: Rule, d: Rule, p: Packet)
    requires c in claims && d in claims && Matches(c, p) && Matches(d, p) && !Ambiguous(claims)
    ensures c.target == d.target
  {
  }

  // ----- The order in which the plans are visited does not matter -----

  lemma {:induction false} CombineOrderIrrelevant(plans: seq<Plan>, permuted: seq<Plan>, r: Combined, r': Combined)
    requires multiset(plans) == multiset(permuted)
    requires r.Conflict? <==> Ambiguous(AllClaims(plans))
    requires r'.Conflict? <==> Ambiguous(AllClaims(permuted))
    requires r.Combined? ==> IsMergeOf(r.allows, AllAllows(plans)) && IsMergeOf(r.redirects, AllRedirects(plans))
    requires r'.Combined? ==> IsMergeOf(r'.allows, AllAllows(permuted)) && IsMergeOf(r'.redirects, AllRedirects(permuted))
    ensures r == r'
  {
    forall plan ensures plan in plans <==> plan in permuted {
      assert plan in multiset(plans) <==> plan in multiset(permuted);
    }
    forall c
      ensures c in AllClaims(plans) <==> c in AllClaims(permuted)
      ensures c in AllAllows(plans) <==> c in AllAllows(permuted)
      ensures c in AllRedirects(plans) <==> c in AllRedirects(permuted)
    {
      InAllClaims(plans, c);
      InAllClaims(permuted, c);
      InAllAllows(plans, c);
      InAllAllows(permuted, c);
      InAllRedirects(plans, c);
      InAllRedirects(permuted, c);
    }
    AmbiguityIsAboutElements(AllClaims(plans), AllClaims(permuted));
    AmbiguityIsAboutElements(AllClaims(permuted), AllClaims(plans));
    if r.Combined? {
      SameRulesMergeAlike(AllAllows(plans), AllAllows(permuted), r.allows, r'.allows);
      SameRulesMergeAlike(AllRedirects(plans), AllRedirects(permuted), r.redirects, r'.redirects);
    }
  }

  lemma {:induction false} AmbiguityIsAboutElements(a: seq<Rule>, b: seq<Rule>)
    requires forall c :: c in a <==> c in b
    ensures Ambiguous(a) ==> Ambiguous(b)
  {
    if Ambiguous(a) {
      var i, j, p :| 0 <= i < j < |a| && Matches(a[i], p) && Matches(a[j], p) && a[i].target != a[j].target;
      assert a[i] in a && a[j] in a;
      if !Ambiguous(b) {
        TwoClaimsAgree(b, a[i], a[j], p);
      }
    }
  }

  lemma {:induction false} SameRulesMergeAlike(a: seq<Rule>, b: seq<Rule>, merged: set<Rule>, merged': set<Rule>)
    requires forall c :: c in a <==> c in b
    requires IsMergeOf(merged, a) && IsMergeOf(merged', b)
    ensures merged == merged'
  {
    forall g, port ensures SetHas(merged, g, port) <==> SetHas(merged', g, port) {
      ListHasIsAboutElements(a, b, g, port);
      ListHasIsAboutElements(b, a, g, port);
    }
    MergeUnique(merged, merged');
  }

  lemma {:induction false} ListHasIsAboutElements(a: seq<Rule>, b: seq<Rule>, g: Group, port: int)
    requires forall c :: c in a <==> c in b
    ensures ListHas(a, g, port) ==> ListHas(b, g, port)
  {
    if ListHas(a, g, port) {
      var i :| 0 <= i < |a| && GroupOf(a[i]) == g && a[i].ports.Contains(port);
      assert a[i] in b;
      var j :| 0 <= j < |b| && b[j] == a[i];
    }
  }
}
