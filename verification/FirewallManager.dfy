/** The manager that all nodes share: it keeps one plan per owner, never lets two plans claim the same
    packet, and has the host's firewall reconciled with the plans that remain. */
module FirewallManager {
  import opened Plans
  import opened FirewallWorld
  import opened Firewall
  import opened NodePlan

  ghost predicate Claimed(plans: map<string, Plan>, c: Rule) { exists a <- plans :: c in ClaimsOf(plans[a]) }

  // Where a UDP packet is meant to go: to a port some plan redirects it to, or to the listener it is for.
  ghost predicate Meant(plans: map<string, Plan>, p: Packet, port: int) {
    exists a <- plans ::
      || (exists r <- plans[a].redirects :: Matches(r, p) && r.target == port)
      || (exists r <- plans[a].listeners :: r.protocol.Udp? && Matches(r, p) && r.ports.from == port)
  }

  /** Plans clash exactly if some packet is meant for two ports. */
  lemma {:induction false} ClashingIff(plans: map<string, Plan>)
    requires PlansValid(plans)
    ensures Clashing(plans) <==> exists p, port, other :: Meant(plans, p, port) && Meant(plans, p, other) && port != other
  {
    if Clashing(plans) {
      var c, d, p :| Claimed(plans, c) && Claimed(plans, d) && Matches(c, p) && Matches(d, p) && c.target != d.target;
      ClaimIsMeant(plans, c, p);
      ClaimIsMeant(plans, d, p);
    }
    if p, port, other :| Meant(plans, p, port) && Meant(plans, p, other) && port != other {
      var c := MeantIsClaim(plans, p, port);
      var d := MeantIsClaim(plans, p, other);
    }
  }

  lemma {:induction false} ClaimIsMeant(plans: map<string, Plan>, c: Rule, p: Packet)
    requires Claimed(plans, c) && Matches(c, p)
    ensures Meant(plans, p, c.target)
  {
    var a :| a in plans && c in ClaimsOf(plans[a]);
    if c !in plans[a].redirects {
      var r := ListenerOf(plans[a].listeners, c);
      assert Matches(r, p);
    }
  }

  lemma {:induction false} ListenerOf(listeners: seq<Rule>, c: Rule) returns (r: Rule)
    requires c in ListenerClaims(listeners)
    ensures r in listeners && r.protocol.Udp? && c == r.(target := r.ports.from)
  {
    if listeners[0].protocol.Udp? && c == ClaimOf(listeners[0]) {
      r := listeners[0];
    } else {
      r := ListenerOf(listeners[1..], c);
    }
  }

  lemma {:induction false} ListenerClaimed(listeners: seq<Rule>, r: Rule)
    requires r in listeners && r.protocol.Udp?
    ensures r.(target := r.ports.from) in ListenerClaims(listeners)
  {
    if r != listeners[0] {
      ListenerClaimed(listeners[1..], r);
    }
  }

  lemma {:induction false} MeantIsClaim(plans: map<string, Plan>, p: Packet, port: int) returns (c: Rule)
    requires Meant(plans, p, port)
    ensures Claimed(plans, c) && Matches(c, p) && c.target == port
  {
    var a :| a in plans && ((exists r <- plans[a].redirects :: Matches(r, p) && r.target == port)
                            || (exists r <- plans[a].listeners :: r.protocol.Udp? && Matches(r, p) && r.ports.from == port));
    if r :| r in plans[a].redirects && Matches(r, p) && r.target == port {
      c := r;
    } else {
      var r :| r in plans[a].listeners && r.protocol.Udp? && Matches(r, p) && r.ports.from == port;
      ListenerClaimed(plans[a].listeners, r);
      c := r.(target := r.ports.from);
    }
    assert c in ClaimsOf(plans[a]);
  }

  // Some packet has two destinations.
  ghost predicate Clashing(plans: map<string, Plan>) {
    exists c, d, p :: Claimed(plans, c) && Claimed(plans, d) && Matches(c, p) && Matches(d, p) && c.target != d.target
  }

  ghost predicate RedirectsAsked(plans: map<string, Plan>, p: Packet, target: int) {
    exists a <- plans :: Asks(plans[a].redirects, p, target)
  }

  ghost predicate PassageAsked(plans: map<string, Plan>, p: Packet) {
    exists a <- plans :: Asks(AllowsOf(plans[a]), p, 0)
  }

  /** The host does what the plans say and no more: packets are redirected exactly as some plan asks, pass
      every gate when some plan asks, and each of our rules lets only such packets through. */
  ghost predicate Serves(w: World, gates: set<Gate>, plans: map<string, Plan>) {
    && (forall p, target :: Sends(Installed(w), p, target) <==> RedirectsAsked(plans, p, target))
    && (forall g <- gates, p :: PassageAsked(plans, p) ==> Passes(w, g, p))
    && (forall o <- w.mine, p :: Matches(o.rule, p) ==> PassageAsked(plans, p))
  }

  /** What makes a reconciliation impossible although every command works: a UFW rule of somebody else on
      packets that must pass, or firewalld rules on record while firewalld does not run. */
  ghost predicate Obstructed(w: World, cfg: Config, site: Site, owned: seq<Owned>, plans: map<string, Plan>) {
    || (Wants(cfg, Ufw) && site.ufw.Started?
        && exists o <- w.entries, p :: o.backend.Ufw? && (!w.entries[o].accepts || w.entries[o].comment.AnotherNode?)
                                       && Matches(o.rule, p) && PassageAsked(plans, p))
    || (!site.fd.Started? && ListsFirewalld(owned))
  }

  // The address families that some plan redirects in.
  ghost function RedirectFamilies(plans: map<string, Plan>): set<int> {
    set a, r | a in plans && r in plans[a].redirects :: r.family
  }

  ghost predicate IsListOf(list: seq<Plan>, plans: map<string, Plan>) {
    forall plan :: plan in list <==> exists a <- plans :: plans[a] == plan
  }

  predicate PlansValid(plans: map<string, Plan>) { forall a <- plans :: PlanValid(plans[a]) }

  lemma {:induction false} ClaimsOfList(list: seq<Plan>, plans: map<string, Plan>, c: Rule)
    requires IsListOf(list, plans)
    ensures c in AllClaims(list) <==> Claimed(plans, c)
  {
    InAllClaims(list, c);
  }

  lemma {:induction false} AmbiguityIsClashing(list: seq<Plan>, plans: map<string, Plan>)
    requires IsListOf(list, plans)
    ensures Ambiguous(AllClaims(list)) <==> Clashing(plans)
  {
    hide IsListOf, Claimed, Matches, AllClaims;
    var claims := AllClaims(list);
    if Ambiguous(claims) {
      var i, j, p :| 0 <= i < j < |claims| && Matches(claims[i], p) && Matches(claims[j], p)
                     && claims[i].target != claims[j].target;
      ClaimsOfList(list, plans, claims[i]);
      ClaimsOfList(list, plans, claims[j]);
    }
    if Clashing(plans) {
      var c, d, p :| Claimed(plans, c) && Claimed(plans, d) && Matches(c, p) && Matches(d, p) && c.target != d.target;
      ClaimsOfList(list, plans, c);
      ClaimsOfList(list, plans, d);
      var i :| 0 <= i < |claims| && claims[i] == c;
      var j :| 0 <= j < |claims| && claims[j] == d;
      assert i < j || j < i;
    }
  }

  lemma {:induction false} FewerPlansClashLess(plans: map<string, Plan>, fewer: map<string, Plan>)
    requires fewer.Keys <= plans.Keys && forall a <- fewer :: fewer[a] == plans[a]
    ensures Clashing(fewer) ==> Clashing(plans)
  {
  }

  lemma {:induction false} NoPlansNoRules(list: seq<Plan>, r: Combined)
    requires IsListOf(list, map[]) && r.Combined?
    requires IsMergeOf(r.allows, AllAllows(list)) && IsMergeOf(r.redirects, AllRedirects(list))
    ensures r.allows == {} && r.redirects == {}
  {
    assert forall i :: 0 <= i < |list| ==> list[i] in list;
    MergeOfNothing(r.allows);
    MergeOfNothing(r.redirects);
  }

  lemma {:induction false} MergeOfNothing(merged: set<Rule>)
    requires IsMergeOf(merged, [])
    ensures merged == {}
  {
    forall c | c in merged ensures SetHas(merged, GroupOf(c), c.ports.from) {
      assert c.ports.Contains(c.ports.from);
    }
    assert forall c <- merged :: !ListHas([], GroupOf(c), c.ports.from);
  }

  lemma {:induction false} AllowsAreAsked(list: seq<Plan>, plans: map<string, Plan>, r: Combined, p: Packet)
    requires IsListOf(list, plans) && r.Combined? && IsMergeOf(r.allows, AllAllows(list))
    ensures Sends(r.allows, p, 0) <==> PassageAsked(plans, p)
  {
    MergeMeansTheSame(r.allows, AllAllows(list), p, 0);
    if Asks(AllAllows(list), p, 0) {
      var c :| c in AllAllows(list) && Matches(c, p) && c.target == 0;
      InAllAllows(list, c);
    }
    if PassageAsked(plans, p) {
      var a :| a in plans && Asks(AllowsOf(plans[a]), p, 0);
      var c :| c in AllowsOf(plans[a]) && Matches(c, p) && c.target == 0;
      InAllAllows(list, c);
    }
  }

  // Every allow rule has target 0: listeners do, and so do the rules that let redirects in.
  lemma {:induction false} AllowsHaveNoTarget(list: seq<Plan>, r: Combined)
    requires r.Combined? && IsMergeOf(r.allows, AllAllows(list))
    requires forall plan <- list :: PlanValid(plan)
    ensures forall c <- r.allows :: c.target == 0
  {
    forall c | c in r.allows ensures c.target == 0 {
      assert c.ports.Contains(c.ports.from) && SetHas(r.allows, GroupOf(c), c.ports.from);
      var i :| 0 <= i < |AllAllows(list)| && GroupOf(AllAllows(list)[i]) == GroupOf(c);
      InAllAllows(list, AllAllows(list)[i]);
      var plan :| plan in list && AllAllows(list)[i] in AllowsOf(plan);
      AllowedHasNoTarget(plan.redirects);
    }
  }

  lemma {:induction false} AllowedHasNoTarget(rules: seq<Rule>)
    ensures forall c <- Allowed(rules) :: c.target == 0
  {
    if rules != [] {
      AllowedHasNoTarget(rules[1..]);
    }
  }

  lemma {:induction false} CombinedIsAllowing(list: seq<Plan>, r: Combined, allows: seq<Rule>, redirects: seq<Rule>)
    requires r.Combined? && !Ambiguous(AllClaims(list))
    requires IsMergeOf(r.allows, AllAllows(list)) && IsMergeOf(r.redirects, AllRedirects(list))
    requires Elements(allows) == r.allows && Elements(redirects) == r.redirects
    ensures Allowing(allows, redirects)
  {
    forall c, p | c in redirects && Matches(c, p) ensures exists a <- allows :: Matches(a, p) {
      assert c in Elements(redirects) && Sends(r.redirects, p, c.target);
      RedirectsAreExactAndAllowed(list, r, p, c.target);
      var a :| a in r.allows && Matches(a, p);
      assert a in Elements(allows);
    }
  }

  lemma {:induction false} MergedIsValid(merged: set<Rule>, rules: seq<Rule>)
    requires IsMergeOf(merged, rules) && forall r <- rules :: RuleValid(r)
    ensures forall r <- merged :: RuleValid(r)
  {
    forall r | r in merged ensures RuleValid(r) {
      assert r.ports.Contains(r.ports.from) && SetHas(merged, GroupOf(r), r.ports.from);
      var i :| 0 <= i < |rules| && GroupOf(rules[i]) == GroupOf(r);
      assert rules[i] in rules;
    }
  }

  lemma {:induction false} CombinedIsValid(list: seq<Plan>, r: Combined)
    requires r.Combined? && forall plan <- list :: PlanValid(plan)
    requires IsMergeOf(r.allows, AllAllows(list)) && IsMergeOf(r.redirects, AllRedirects(list))
    ensures forall c <- r.allows + r.redirects :: RuleValid(c)
  {
    forall c | c in AllAllows(list) ensures RuleValid(c) {
      InAllAllows(list, c);
      var plan :| plan in list && c in AllowsOf(plan);
      AllowedIsValid(plan.redirects);
    }
    forall c | c in AllRedirects(list) ensures RuleValid(c) {
      InAllRedirects(list, c);
    }
    MergedIsValid(r.allows, AllAllows(list));
    MergedIsValid(r.redirects, AllRedirects(list));
  }

  // Merging keeps the address families.
  lemma {:induction false} MergedFamilies(merged: set<Rule>, rules: seq<Rule>, f: int)
    requires IsMergeOf(merged, rules) && forall r <- rules :: RuleValid(r)
    ensures (exists c <- merged :: c.family == f) <==> exists r <- rules :: r.family == f
  {
    if c: Rule :| c in merged && c.family == f {
      assert c.ports.Contains(c.ports.from) && SetHas(merged, GroupOf(c), c.ports.from);
      var i :| 0 <= i < |rules| && GroupOf(rules[i]) == GroupOf(c);
      assert rules[i] in rules && rules[i].family == f;
    }
    if r: Rule :| r in rules && r.family == f {
      assert r.ports.Contains(r.ports.from) && ListHas(rules, GroupOf(r), r.ports.from);
      assert SetHas(merged, GroupOf(r), r.ports.from);
    }
  }

  lemma {:induction false} RedirectedFamilies(list: seq<Plan>, plans: map<string, Plan>, r: Combined, redirects: seq<Rule>)
    requires IsListOf(list, plans) && r.Combined? && forall plan <- list :: PlanValid(plan)
    requires IsMergeOf(r.redirects, AllRedirects(list)) && Elements(redirects) == r.redirects
    ensures Families(redirects) == RedirectFamilies(plans)
  {
    forall c | c in AllRedirects(list) ensures RuleValid(c) {
      InAllRedirects(list, c);
    }
    forall f ensures f in Families(redirects) <==> f in RedirectFamilies(plans) {
      MergedFamilies(r.redirects, AllRedirects(list), f);
      if f in Families(redirects) {
        var x :| x in redirects && x.family == f;
        assert x in Elements(redirects);
        var y :| y in AllRedirects(list) && y.family == f;
        InAllRedirects(list, y);
      }
      if f in RedirectFamilies(plans) {
        var a, y :| a in plans && y in plans[a].redirects && y.family == f;
        assert plans[a] in list;
        InAllRedirects(list, y);
        var x :| x in r.redirects && x.family == f;
        assert x in Elements(redirects);
      }
    }
  }

  lemma {:induction false} AllowedIsValid(rules: seq<Rule>)
    requires forall i :: 0 <= i < |rules| ==> RuleValid(rules[i])
    ensures forall c <- Allowed(rules) :: RuleValid(c)
  {
    if rules != [] {
      AllowedIsValid(rules[1..]);
    }
  }

  // What the backend refuses is an obstruction.
  lemma {:induction false} RefusedIsObstructed(
    list: seq<Plan>, plans: map<string, Plan>, r: Combined, allows: seq<Rule>, a: Rule, w: World, cfg: Config,
    site: Site, owned: seq<Owned>)
    requires IsListOf(list, plans) && r.Combined? && IsMergeOf(r.allows, AllAllows(list))
    requires forall plan <- list :: PlanValid(plan)
    requires a in r.allows && Wants(cfg, Ufw) && site.ufw.Started? && UfwKey(a) in w.entries
    requires !w.entries[UfwKey(a)].accepts || w.entries[UfwKey(a)].comment.AnotherNode?
    ensures Obstructed(w, cfg, site, owned, plans)
  {
    AllowsHaveNoTarget(list, r);
    var p := Packet(a.family, if a.address.Host? then a.address.ip else 0, a.protocol, a.ports.from);
    assert Matches(a, p) && Sends(r.allows, p, 0);
    AllowsAreAsked(list, plans, r, p);
  }

  // A successful reconciliation makes the host serve the plans.
  lemma {:induction false} ReconciledServes(
    list: seq<Plan>, plans: map<string, Plan>, r: Combined, w: World, gates: set<Gate>, allows: seq<Rule>)
    requires IsListOf(list, plans) && r.Combined? && !Ambiguous(AllClaims(list))
    requires IsMergeOf(r.allows, AllAllows(list)) && IsMergeOf(r.redirects, AllRedirects(list))
    requires forall plan <- list :: PlanValid(plan)
    requires Elements(allows) == r.allows && Installed(w) == r.redirects
    requires AcceptedAtAll(w, gates, allows) && forall o <- w.mine :: o in Wanted(gates, allows)
    ensures Serves(w, gates, plans)
  {
    forall p, target ensures Sends(Installed(w), p, target) <==> RedirectsAsked(plans, p, target) {
      RedirectsAreExactAndAllowed(list, r, p, target);
    }
    forall g, p | g in gates && PassageAsked(plans, p) ensures Passes(w, g, p) {
      AllowsAreAsked(list, plans, r, p);
      var a :| a in r.allows && Matches(a, p);
      assert a in Elements(allows) && Accepted(w, g, allows);
      assert Owned(g.backend, g.zone, a) in w.entries;
    }
    AllowsHaveNoTarget(list, r);
    forall o, p | o in w.mine && Matches(o.rule, p) ensures PassageAsked(plans, p) {
      assert o.rule in Elements(allows);
      assert Sends(r.allows, p, 0);
      AllowsAreAsked(list, plans, r, p);
    }
  }

  class Manager {
    var plans: map<string, Plan>
    var failed: bool
    var closed: bool
    const backend: SystemBackend

    ghost predicate Valid()
      reads this, backend, backend.host
    {
      PlansValid(plans) && !Clashing(plans) && backend.AtRest()
    }

    ghost function GatesNow(): set<Gate>
      reads backend.host
    {
      Gates(backend.cfg, backend.host.site)
    }

    constructor (backend: SystemBackend)
      requires backend.AtRest()
      ensures Valid() && this.backend == backend && plans == map[] && !closed
    {
      this.backend, plans, failed, closed := backend, map[], false, false;
    }

    /** Why a reconciliation that began so may fail: an installed command did, something is in the way, or a
        command that is needed is not installed. */
    ghost predicate Failing(faults: nat, w: World, recorded: Saved)
      reads this, backend.host
    {
      || backend.host.faults > faults
      || Obstructed(w, backend.cfg, backend.host.site, recorded.owned, if backend.cfg.enabled then plans else map[])
      || ToolMissing(backend.cfg, backend.host.site, recorded, RedirectFamilies(plans))
    }

    method Reconcile() returns (ok: bool)
      requires Valid()
      modifies `failed, backend`state, backend.host`world, backend.host`trace, backend.host`faults
      ensures Valid() && failed == !ok
      ensures old(Covered(backend.host.world, GatesNow())) ==> Covered(backend.host.world, GatesNow())
      ensures ok && backend.cfg.enabled ==> Serves(backend.host.world, GatesNow(), plans)
      ensures ok && (!backend.cfg.enabled || plans == map[]) ==>
                backend.state.owned == [] && backend.host.world.mine == {} && NoTables(backend.host.world)
      ensures !ok ==> Failing(old(backend.host.faults), old(backend.host.world), old(backend.state))
      ensures ok ==> !ToolMissing(backend.cfg, backend.host.site, old(backend.state), RedirectFamilies(plans))
    {
      hide Serves, Obstructed, IsMergeOf, Clashing, IsListOf, Allowing, ToolMissing;
      var list, allows, redirects;
      ghost var combined;
      list, allows, redirects, combined := Combine();
      ok := backend.Apply(allows, redirects);
      failed := !ok;
      if !ok {
        if Unreconcilable(backend.cfg, backend.host.site, old(backend.host.world), allows, redirects, old(backend.state.owned)) {
          WhyNot(list, combined, allows, redirects, old(backend.host.world), old(backend.state.owned));
        }
      } else if backend.cfg.enabled {
        ReconciledServes(list, plans, combined, backend.host.world, GatesNow(), allows);
      }
    }

    method Combine() returns (list: seq<Plan>, allows: seq<Rule>, redirects: seq<Rule>, ghost combined: Combined)
      requires PlansValid(plans) && !Clashing(plans)
      ensures IsListOf(list, plans) && combined.Combined? && !Ambiguous(AllClaims(list))
      ensures forall plan <- list :: PlanValid(plan)
      ensures IsMergeOf(combined.allows, AllAllows(list)) && IsMergeOf(combined.redirects, AllRedirects(list))
      ensures Elements(allows) == combined.allows && Elements(redirects) == combined.redirects
      ensures Allowing(allows, redirects) && Families(redirects) == RedirectFamilies(plans)
      ensures plans == map[] ==> allows == [] && redirects == []
    {
      list := ListPlans(plans);
      AmbiguityIsClashing(list, plans);
      assert forall i :: 0 <= i < |list| ==> list[i] in list;
      var r := CombinePlans(list);
      combined := r;
      allows := ListRules(r.allows);
      redirects := ListRules(r.redirects);
      CombinedIsAllowing(list, r, allows, redirects);
      RedirectedFamilies(list, plans, r, redirects);
      if plans == map[] {
        NoPlansNoRules(list, r);
      }
    }

    lemma WhyNot(list: seq<Plan>, r: Combined, allows: seq<Rule>, redirects: seq<Rule>, w: World, owned: seq<Owned>)
      requires IsListOf(list, plans) && r.Combined? && forall plan <- list :: PlanValid(plan)
      requires IsMergeOf(r.allows, AllAllows(list)) && IsMergeOf(r.redirects, AllRedirects(list))
      requires Elements(allows) == r.allows && Elements(redirects) == r.redirects
      requires Unreconcilable(backend.cfg, backend.host.site, w, allows, redirects, owned)
      ensures Obstructed(w, backend.cfg, backend.host.site, owned, if backend.cfg.enabled then plans else map[])
    {
      CombinedIsValid(list, r);
      forall c | c in allows + redirects ensures RuleValid(c) {
        assert c in Elements(allows) + Elements(redirects);
      }
      if backend.cfg.enabled && !(!backend.host.site.fd.Started? && ListsFirewalld(owned)) {
        var a :| a in allows && UfwKey(a) in w.entries
                 && (!w.entries[UfwKey(a)].accepts || w.entries[UfwKey(a)].comment.AnotherNode?);
        assert a in Elements(allows);
        RefusedIsObstructed(list, plans, r, allows, a, w, backend.cfg, backend.host.site, owned);
      }
    }

    // A node without a plan, or whose plan would clash, is refused before anything is touched.
    method Apply(owner: string, node: Node, kernel: string) returns (ok: bool)
      requires Valid()
      modifies `plans, `failed, backend`state, backend.host`world, backend.host`trace, backend.host`faults
      ensures Valid()
      ensures closed ==> !ok
      ensures !closed && backend.cfg.enabled && !Plannable(Effective(node), kernel) ==>
                !ok && plans == old(plans) && backend.host.world == old(backend.host.world)
      ensures ok && backend.cfg.enabled ==>
                && owner in plans && PlansFor(plans[owner], Effective(node), kernel)
                && plans - {owner} == old(plans) - {owner} && Serves(backend.host.world, GatesNow(), plans)
      ensures old(Covered(backend.host.world, GatesNow())) ==> Covered(backend.host.world, GatesNow())
      ensures !ok && !closed && Plannable(Effective(node), kernel) ==>
                || (exists plan :: PlansFor(plan, Effective(node), kernel) && Clashing(old(plans)[owner := plan]))
                || Failing(old(backend.host.faults), old(backend.host.world), old(backend.state))
    {
      hide Serves, Covered, Clashing, PlansFor, Plannable, Failing;
      if closed {
        return false;
      }
      if !backend.cfg.enabled {
        return true;
      }
      var plan: Plan;
      ok, plan := PlanForNode(node, kernel);
      if !ok {
        return;
      }
      ok := ApplyPlan(owner, plan);
      assert old(plans)[owner := plan] - {owner} == old(plans) - {owner};
    }

    method ApplyPlan(owner: string, plan: Plan) returns (ok: bool)
      requires Valid() && PlanValid(plan) && backend.cfg.enabled
      modifies `plans, `failed, backend`state, backend.host`world, backend.host`trace, backend.host`faults
      ensures Valid()
      ensures old(Clashing(plans[owner := plan])) ==>
                !ok && plans == old(plans) && backend.host.world == old(backend.host.world)
      ensures ok ==> plans == old(plans)[owner := plan] && Serves(backend.host.world, GatesNow(), plans)
      ensures old(Covered(backend.host.world, GatesNow())) ==> Covered(backend.host.world, GatesNow())
      ensures !ok ==> old(Clashing(plans[owner := plan])) || Failing(old(backend.host.faults), old(backend.host.world),
                                                                     old(backend.state))
    {
      hide Serves, Covered, Clashing, Failing;
      var candidate := plans[owner := plan];
      var list := ListPlans(candidate);
      AmbiguityIsClashing(list, candidate);
      assert forall i :: 0 <= i < |list| ==> list[i] in list;
      var combined := CombinePlans(list);
      if combined.Conflict? {
        return false;
      }
      plans := candidate;
      ok := Reconcile();
    }

    method Release(owner: string) returns (ok: bool)
      requires Valid()
      modifies `plans, `failed, backend`state, backend.host`world, backend.host`trace, backend.host`faults
      ensures Valid()
      ensures !closed ==> plans == old(plans) - {owner}
      ensures !closed && ok && backend.cfg.enabled && (owner in old(plans) || old(failed)) ==>
                Serves(backend.host.world, GatesNow(), plans)
      ensures old(Covered(backend.host.world, GatesNow())) ==> Covered(backend.host.world, GatesNow())
      ensures !ok ==> Failing(old(backend.host.faults), old(backend.host.world), old(backend.state))
    {
      if closed {
        return true;
      }
      if owner !in plans && !failed {
        return true;
      }
      FewerPlansClashLess(plans, plans - {owner});
      plans := plans - {owner};
      ok := Reconcile();
    }

    // Leaves nothing of ours behind when it succeeds.
    method Close() returns (ok: bool)
      requires Valid()
      modifies `plans, `failed, `closed, backend`state, backend.host`world, backend.host`trace, backend.host`faults
      ensures Valid() && closed
      ensures !old(closed) ==> plans == map[]
      ensures !old(closed) && ok ==>
                && backend.host.world.mine == {} && NoTables(backend.host.world)
                && (backend.host.atomicSave ==> backend.host.world.disk.owned == [])
      ensures !ok ==> Failing(old(backend.host.faults), old(backend.host.world), old(backend.state))
    {
      if closed {
        return true;
      }
      plans := map[];
      ok := Reconcile();
      closed := true;
    }
  }

  method ListPlans(plans: map<string, Plan>) returns (list: seq<Plan>)
    ensures IsListOf(list, plans)
  {
    list := [];
    var todo := plans.Keys;
    while todo != {}
      invariant todo <= plans.Keys
      invariant forall plan :: plan in list <==> exists a <- plans.Keys - todo :: plans[a] == plan
    {
      var a :| a in todo;
      list, todo := list + [plans[a]], todo - {a};
    }
  }

  method ListRules(rules: set<Rule>) returns (list: seq<Rule>)
    ensures Elements(list) == rules
    ensures rules == {} ==> list == []
  {
    list := [];
    var todo := rules;
    while todo != {}
      invariant rules == {} ==> list == []
      invariant todo <= rules && forall r :: r in list <==> r in rules - todo
    {
      var r :| r in todo;
      list, todo := list + [r], todo - {r};
    }
  }
}
