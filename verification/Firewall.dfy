/** The reconciliation of a host's firewall with the plans of the running nodes. Commands may fail with or
    without effect and the process may stop after any of them: every state passed through keeps the
    ownership record complete, redirects covered by allow rules, and the rules of others in place. */
module Firewall {
  import opened Plans
  import opened FirewallWorld

  datatype Choice = AnyBackend | Only(backend: Backend) | NoBackend

  // redirect NoDriver stands for automatic choice.
  datatype Config = Config(enabled: bool, choice: Choice, zone: string, redirect: Driver)

  predicate Wants(cfg: Config, b: Backend) { cfg.choice.AnyBackend? || cfg.choice == Only(b) }

  datatype Status = Active | Inactive | Missing | Unknown

  datatype Presence = NotInstalled | Stopped | Started

  // Other commands, for one address family where there are two.
  datatype Tool = Nft | ChainTool(family: int) | RestoreTool(family: int)

  datatype Site = Site(ufw: Presence, fd: Presence, zones: set<string>, tools: set<Tool>)

  function ZonesInForce(cfg: Config, site: Site): set<string> {
    if cfg.zone != "" then {cfg.zone} else site.zones
  }

  function UfwGates(cfg: Config, site: Site): set<Gate> {
    if site.ufw.Started? && Wants(cfg, Ufw) then {Gate(Ufw, "")} else {}
  }

  function ZoneGates(zones: set<string>): set<Gate> { set z | z in zones :: Gate(Firewalld, z) }

  function FirewalldGates(cfg: Config, site: Site): set<Gate> {
    if site.fd.Started? && Wants(cfg, Firewalld) then ZoneGates(ZonesInForce(cfg, site)) else {}
  }

  // The gates that the configuration lets us manage and that are in force.
  function Gates(cfg: Config, site: Site): set<Gate> {
    UfwGates(cfg, site) + FirewalldGates(cfg, site)
  }

  /** UFW is managed exactly if it runs and is not ruled out, and of a running firewalld that is not ruled out the
      configured zone, or all zones. */
  lemma {:induction false} GatesAre(cfg: Config, site: Site, g: Gate)
    ensures g in Gates(cfg, site) <==>
            match g.backend
            case Ufw => g.zone == "" && site.ufw.Started? && (cfg.choice.AnyBackend? || cfg.choice == Only(Ufw))
            case Firewalld =>
              && site.fd.Started? && (cfg.choice.AnyBackend? || cfg.choice == Only(Firewalld))
              && if cfg.zone != "" then g.zone == cfg.zone else g.zone in site.zones
  {
    assert g == Gate(g.backend, g.zone);
  }

  // The allow rules that the gates in force should have.
  function WantedAt(cfg: Config, site: Site, allows: seq<Rule>): set<Owned> {
    if cfg.enabled then Wanted(Gates(cfg, site), allows) else {}
  }

  // The record can gain no entry but the given ones, and redirects are not touched.
  ghost predicate OwnedWithin(before: Saved, after: Saved, more: set<Owned>) {
    after == before.(owned := after.owned) && forall x <- after.owned :: x in before.owned || x in more
  }

  // The record changes in the given entries only, and redirects are not touched.
  ghost predicate OwnedBut(before: Saved, after: Saved, changed: set<Owned>) {
    && OwnedWithin(before, after, changed)
    && forall x <- before.owned :: x in after.owned || x in changed
  }

  // No entry of firewalld is unwanted.
  ghost predicate UfwOnly(owned: seq<Owned>, wanted: set<Owned>) {
    forall o <- owned :: o.backend.Firewalld? ==> o in wanted
  }

  // Of the entries, firewalld rules that nobody wants are gone.
  ghost predicate Cleared(owned: seq<Owned>, wanted: set<Owned>, w: World) {
    forall o <- owned :: o.backend.Firewalld? && o !in wanted ==> o !in w.entries
  }

  predicate Named(s: Saved, family: int) { s.redirect.Iptables? && family in s.families }

  predicate ChainHolds(chain: Chain, rules: set<Rule>) { chain.rules == rules && Jumped(chain) == rules }

  predicate ChainsHold(w: World, rules: set<Rule>) {
    ChainHolds(w.chain4, OfFamily(rules, 4)) && ChainHolds(w.chain6, OfFamily(rules, 6))
  }

  lemma {:induction false} UnnamedFamilyIsEmpty(w: World, s: Saved, rules: set<Rule>, family: int)
    requires Sane(w) && TablesNamed(w, s) && (family == 4 || family == 6)
    requires forall r <- rules :: r.family in s.families
    ensures family !in s.families ==> ChainHolds(ChainOf(w, family), OfFamily(rules, family))
  {
  }

  // Only redirects and the record on disk have changed.
  ghost predicate Retabled(w: World, w': World) { w'.entries == w.entries && w'.mine == w.mine }

  lemma {:induction false} BackedKept(w: World, w': World, gates: set<Gate>, rules: set<Rule>)
    requires Retabled(w, w') && Backed(w, gates, rules)
    ensures Backed(w', gates, rules)
  {
  }

  lemma {:induction false} FamiliesMakeUp(rules: set<Rule>)
    requires forall r <- rules :: r.family == 4 || r.family == 6
    ensures OfFamily(rules, 4) + OfFamily(rules, 6) == rules
  {
  }

  predicate NoTables(w: World) { w.nft == {} && w.chain4.rules == {} && w.chain6.rules == {} }

  // Some rule of the list exists already, but refuses packets or belongs to another node.
  predicate Blocked(listing: seq<UfwRule>, rules: seq<Rule>) {
    exists i :: 0 <= i < |listing| && listing[i].rule in rules && (!listing[i].accepts || listing[i].comment.AnotherNode?)
  }

  // Some wanted rule exists already at UFW, but refuses packets or belongs to another node, or firewalld
  // rules are on record while firewalld does not run.
  ghost predicate Refused(cfg: Config, site: Site, w: World, allows: seq<Rule>, owned: seq<Owned>) {
    || (Wants(cfg, Ufw) && site.ufw.Started?
        && exists a <- allows :: UfwKey(a) in w.entries
                                 && (!w.entries[UfwKey(a)].accepts || w.entries[UfwKey(a)].comment.AnotherNode?))
    || (!site.fd.Started? && ListsFirewalld(owned))
  }

  // What a reconciliation gives up on although every command works.
  ghost predicate Unreconcilable(
    cfg: Config, site: Site, w: World, allows: seq<Rule>, redirects: seq<Rule>, owned: seq<Owned>)
  {
    || (cfg.enabled && exists r <- allows + redirects :: !RuleValid(r))
    || Refused(cfg, site, w, if cfg.enabled then allows else [], owned)
  }

  // The command of a backend is not installed, although the configuration asks for that backend alone or the
  // record lists rules of it.
  predicate BackendMissing(cfg: Config, site: Site, owned: seq<Owned>) {
    || (site.ufw.NotInstalled? && (cfg.choice == Only(Ufw) || Owns(owned, Ufw)))
    || (site.fd.NotInstalled? && (cfg.choice == Only(Firewalld) || Owns(owned, Firewalld)))
  }

  predicate Owns(owned: seq<Owned>, b: Backend) { exists o <- owned :: o.backend == b }

  // Redirects need the driver's command, and iptables two of them for each family.
  predicate DriverLacks(tools: set<Tool>, driver: Driver, families: set<int>) {
    match driver
    case NoDriver => false
    case Nftables => Nft !in tools
    case Iptables => exists f <- families :: FamilyLacks(tools, f)
  }

  predicate FamilyLacks(tools: set<Tool>, f: int) { ChainTool(f) !in tools || RestoreTool(f) !in tools }

  // The configured driver, or the first that is there.
  function DriverFor(cfg: Config, tools: set<Tool>): Driver {
    if !cfg.redirect.NoDriver? then cfg.redirect
    else if Nft in tools then Nftables
    else if ChainTool(4) in tools then Iptables
    else NoDriver
  }

  function Families(rules: seq<Rule>): set<int> { set r | r in rules :: r.family }

  /** The commands for redirects of the given families are not all there: none to choose, or one of the driver
      to use, or of the recorded driver whose redirects have to go. */
  predicate RedirectToolMissing(
    cfg: Config, tools: set<Tool>, recorded: Driver, recordedFamilies: set<int>, families: set<int>)
  {
    if families == {} then DriverLacks(tools, recorded, recordedFamilies)
    else
      var driver := DriverFor(cfg, tools);
      || driver.NoDriver?
      || (recorded != driver && DriverLacks(tools, recorded, recordedFamilies))
      || DriverLacks(tools, driver, recordedFamilies + families)
  }

  // There is something to reconcile, and a command for it is not installed.
  predicate ToolMissing(cfg: Config, site: Site, recorded: Saved, families: set<int>) {
    && (cfg.enabled || recorded.owned != [] || !recorded.redirect.NoDriver?)
    && (BackendMissing(cfg, site, recorded.owned)
        || RedirectToolMissing(cfg, site.tools, recorded.redirect, recorded.families, if cfg.enabled then families else {}))
  }

  // What a successful reconciliation leaves behind.
  ghost predicate Settled(cfg: Config, site: Site, w: World, owned: seq<Owned>, allows: seq<Rule>, redirects: seq<Rule>) {
    && Installed(w) == (if cfg.enabled then Elements(redirects) else {})
    && (cfg.enabled ==> AcceptedAtAll(w, Gates(cfg, site), allows))
    && (forall o <- owned :: cfg.enabled && o in Wanted(Gates(cfg, site), allows))
    && (!cfg.enabled || redirects == [] ==> NoTables(w))
    && (!cfg.enabled || allows == [] ==> owned == [])
  }

  lemma {:induction false} NoFamilies(rules: seq<Rule>)
    ensures Families(rules) == {} <==> rules == []
  {
    if rules != [] {
      assert rules[0] in rules && rules[0].family in Families(rules);
    }
  }

  predicate ListsFirewalld(owned: seq<Owned>) { exists o <- owned :: o.backend.Firewalld? }

  lemma {:induction false} BlockedGrows(listing: seq<UfwRule>, rules: seq<Rule>, i: nat)
    requires i < |rules|
    ensures Blocked(listing, rules[..i + 1]) <==> Blocked(listing, rules[..i]) || Blocked(listing, [rules[i]])
    ensures Blocked(listing, [rules[i]]) ==> Blocked(listing, rules)
  {
    assert rules[..i + 1] == rules[..i] + [rules[i]];
    assert forall r <- [rules[i]] :: r == rules[i] && r in rules;
  }

  /** The operating system: the world its commands change, and every state it has been in since Mark. */
  class Host {
    var world: World
    var site: Site
    var trace: seq<World>
    // How many commands and saves have failed.
    ghost var faults: nat
    // Whether a save that reports an error has left the old file in place.
    const atomicSave: bool
    // Whether nobody inserts firewalld rules while a reconciliation runs.
    const exactListing: bool

    constructor (world: World, site: Site, atomicSave: bool, exactListing: bool)
      ensures this.world == world && this.site == site && trace == [world]
      ensures this.atomicSave == atomicSave && this.exactListing == exactListing
    {
      this.world, this.site, this.trace := world, site, [world];
      this.atomicSave, this.exactListing, this.faults := atomicSave, exactListing, 0;
    }

    // Whether a command is there and works this time.
    method Works() returns (ok: bool)
      modifies this`faults
      ensures faults == old(faults) + if ok then 0 else 1
    {
      ok := *;
      if !ok {
        faults := faults + 1;
      }
    }

    method Mark()
      modifies this`trace
      ensures trace == [world]
    {
      trace := [world];
    }

    method Save(s: Saved) returns (ok: bool)
      modifies this`world, this`trace, this`faults
      ensures faults >= old(faults) && (!ok ==> faults > old(faults))
      ensures trace == old(trace) + [world] && AtomicStep(old(world), world)
      ensures world == old(world) || world == old(world).(disk := s)
      ensures ok ==> world == old(world).(disk := s)
      ensures !ok && atomicSave ==> world == old(world)
    {
      ok := Works();
      var effect: bool := *;
      if ok || (effect && !atomicSave) {
        world := world.(disk := s);
      }
      trace := trace + [world];
    }

    // An allow rule over an existing one with the same match rewrites its action and comment.
    method AddUfw(r: Rule) returns (ok: bool)
      modifies this`world, this`trace, this`faults
      ensures faults >= old(faults) && (!ok ==> faults > old(faults))
      ensures trace == old(trace) + [world] && AtomicStep(old(world), world)
      ensures world == old(world) || world == Inserted(old(world), UfwKey(r))
      ensures ok ==> world == Inserted(old(world), UfwKey(r))
    {
      ok := Works();
      var effect: bool := *;
      if ok || effect {
        world := Inserted(world, UfwKey(r));
      }
      trace := trace + [world];
    }

    method AddRichRule(zone: string, r: Rule) returns (ok: bool, already: bool)
      modifies this`world, this`trace, this`faults
      ensures faults >= old(faults) && (!ok ==> faults > old(faults))
      ensures trace == old(trace) + [world] && AtomicStep(old(world), world)
      ensures ok ==> already == (ZoneKey(zone, r) in old(world).entries)
      ensures world == old(world) || (ZoneKey(zone, r) !in old(world).entries && world == Inserted(old(world), ZoneKey(zone, r)))
      ensures ok && !already ==> world == Inserted(old(world), ZoneKey(zone, r))
    {
      ok := Works();
      var effect: bool := *;
      already := ZoneKey(zone, r) in world.entries;
      if (ok || effect) && !already {
        world := Inserted(world, ZoneKey(zone, r));
      }
      trace := trace + [world];
    }

    method DeleteRule(o: Owned) returns (ok: bool)
      modifies this`world, this`trace, this`faults
      ensures faults >= old(faults) && (!ok ==> faults > old(faults))
      ensures trace == old(trace) + [world] && AtomicStep(old(world), world)
      ensures world == old(world) || world == Deleted(old(world), o)
      ensures ok ==> world == Deleted(old(world), o)
    {
      ok := Works();
      var effect: bool := *;
      if ok || effect {
        world := Deleted(world, o);
      }
      trace := trace + [world];
    }

    method ReplaceTable(rules: set<Rule>) returns (ok: bool)
      modifies this`world, this`trace, this`faults
      ensures faults >= old(faults) && (!ok ==> faults > old(faults))
      ensures trace == old(trace) + [world] && AtomicStep(old(world), world)
      ensures world == old(world) || world == old(world).(nft := rules)
      ensures ok ==> world == old(world).(nft := rules)
    {
      ok := Works();
      var effect: bool := *;
      if ok || effect {
        world := world.(nft := rules);
      }
      trace := trace + [world];
    }

    method UfwStatus() returns (status: Status)
      modifies this`faults
      ensures faults >= old(faults) && (status.Unknown? ==> faults > old(faults))
      ensures status.Missing? <==> site.ufw.NotInstalled?
      ensures status.Active? ==> site.ufw.Started?
      ensures status.Inactive? ==> site.ufw.Stopped?
    {
      if site.ufw.NotInstalled? {
        return Missing;
      }
      var answered := Works();
      status := if !answered then Unknown else if site.ufw.Started? then Active else Inactive;
    }

    method FirewalldStatus() returns (status: Status)
      modifies this`faults
      ensures faults >= old(faults) && (status.Unknown? ==> faults > old(faults))
      ensures status.Missing? <==> site.fd.NotInstalled?
      ensures status.Active? ==> site.fd.Started?
      ensures status.Inactive? ==> site.fd.Stopped?
    {
      if site.fd.NotInstalled? {
        return Missing;
      }
      var answered := Works();
      status := if !answered then Unknown else if site.fd.Started? then Active else Inactive;
    }

    method ListUfw() returns (ok: bool, listing: seq<UfwRule>)
      requires Tagged(world)
      modifies this`faults
      ensures faults >= old(faults) && (!ok ==> faults > old(faults))
      ensures ok ==> UfwKnown(listing, world, {})
    {
      ok := Works();
      listing := [];
      var todo := set o | o in world.entries && o.backend.Ufw?;
      while todo != {}
        invariant todo <= world.entries.Keys
        invariant forall i :: 0 <= i < |listing| ==>
                    UfwKey(listing[i].rule) in world.entries
                    && world.entries[UfwKey(listing[i].rule)] == Entry(listing[i].accepts, listing[i].comment)
        invariant forall o <- world.entries :: o.backend.Ufw? ==> o in todo || Lists(listing, o.rule)
      {
        var o :| o in todo;
        ghost var before := listing;
        var e := world.entries[o];
        listing := listing + [UfwRule(o.rule, e.accepts, e.comment)];
        todo := todo - {o};
        assert listing[|before|].rule == o.rule;
        forall x | Lists(before, x) ensures Lists(listing, x) {
          var i :| 0 <= i < |before| && before[i].rule == x;
          assert listing[i].rule == x;
        }
      }
    }

    method ListRichRules(zone: string) returns (ok: bool, rules: set<Rule>)
      requires Tagged(world)
      modifies this`faults
      ensures faults >= old(faults) && (!ok ==> faults > old(faults))
      ensures ok ==> ZoneKnown(zone, rules, world, exactListing)
    {
      ok := Works();
      var all := set o | o in world.entries && o.backend.Firewalld? && o.zone == zone;
      rules := set o | o in all :: o.rule;
      if !exactListing {
        var late: set<Owned> := *;
        rules := set o | o in all && (o in world.mine || o !in late) :: o.rule;
      }
      assert forall o <- all :: o == ZoneKey(zone, o.rule);
    }

    // The configured zone, or all active zones and the default one.
    method Zones(cfg: Config) returns (ok: bool, zones: seq<string>)
      modifies this`faults
      ensures faults >= old(faults) && (!ok ==> faults > old(faults))
      ensures ok ==> forall z :: z in zones <==> z in ZonesInForce(cfg, site)
    {
      if cfg.zone != "" {
        return true, [cfg.zone];
      }
      ok := Works();
      zones := [];
      var todo := site.zones;
      while todo != {}
        invariant todo <= site.zones && forall z :: z in zones <==> z in site.zones - todo
        invariant faults >= old(faults) && (!ok ==> faults > old(faults))
      {
        var z :| z in todo;
        if z == "" {
          faults := faults + 1;
          return false, zones;
        }
        zones, todo := zones + [z], todo - {z};
      }
    }

    // Filling, jumping to, or removing one family's chain: each is one atomic change.
    method SetChain(family: int, chain: Chain) returns (ok: bool)
      modifies this`world, this`trace, this`faults
      ensures faults >= old(faults) && (!ok ==> faults > old(faults))
      ensures trace == old(trace) + [world] && AtomicStep(old(world), world)
      ensures world == old(world) || world == WithChain(old(world), family, chain)
      ensures ok ==> world == WithChain(old(world), family, chain)
    {
      ok := Works();
      var effect: bool := *;
      if ok || effect {
        world := WithChain(world, family, chain);
      }
      trace := trace + [world];
    }
  }

  class SystemBackend {
    var state: Saved
    const host: Host
    const cfg: Config

    // What every step below keeps.
    ghost predicate Ready(c: Context)
      reads this`state, host`world, host`trace
    {
      && c.atomic == host.atomicSave && c.exact == host.exactListing && Tagged(c.start)
      && Good(c, host.world) && History(c, host.trace, host.world) && Linked(c, host.world, state)
    }

    constructor (host: Host, cfg: Config)
      ensures this.host == host && this.cfg == cfg && state == host.world.disk
    {
      this.host, this.cfg, this.state := host, cfg, host.world.disk;
    }

    ghost function Now(): Situation
      reads this`state, host`world
    {
      Situation(host.world, state)
    }

    method Save(ghost c: Context) returns (ok: bool)
      requires c.atomic == host.atomicSave && Good(c, host.world) && History(c, host.trace, host.world)
      requires Good(c, host.world.(disk := state))
      modifies host`world, host`trace, host`faults
      ensures Good(c, host.world) && History(c, host.trace, host.world)
      ensures host.world == old(host.world) || host.world == old(host.world).(disk := state)
      ensures ok ==> host.world == old(host.world).(disk := state)
      ensures !ok && c.atomic ==> host.world == old(host.world)
      ensures host.faults >= old(host.faults) && (!ok ==> host.faults > old(host.faults))
    {
      ghost var before, w := host.trace, host.world;
      ok := host.Save(state);
      HistoryGrows(c, before, w, host.world);
    }

    // Nothing but the persisted record changes, and the record in memory at most gains o.
    method Remember(o: Owned, ghost c: Context) returns (ok: bool)
      requires Ready(c) && (o.backend.Ufw? ==> o.zone == "")
      requires c.exact && o.backend.Firewalld? ==> o !in host.world.entries || o in host.world.mine
      modifies this`state, host`world, host`trace, host`faults
      ensures Ready(c)
      ensures host.world == old(host.world).(disk := host.world.disk)
      ensures state == old(state) || state == old(state).(owned := old(state.owned) + [o])
      ensures ok ==> o in state.owned && (c.atomic ==> o in host.world.disk.owned)
      ensures if ok then Now() == Remembering(old(Now()), o, Done)
              else exists fate: Fate :: !fate.Done? && Now() == Remembering(old(Now()), o, fate)
      ensures host.faults >= old(host.faults) && (!ok ==> host.faults > old(host.faults))
    {
      if o in state.owned {
        return true;
      }
      ghost var before := state.owned;
      state := state.(owned := state.owned + [o]);
      SaveKeeps(c, host.world, state);
      ok := Save(c);
      if !ok {
        state := state.(owned := state.owned[..|state.owned| - 1]);
        assert state.owned == before;
        assert Now() == Remembering(old(Now()), o, Undone) || Now() == Remembering(old(Now()), o, HalfDone);
      }
    }

    method Forget(o: Owned, ghost c: Context) returns (ok: bool)
      requires Ready(c) && o !in host.world.mine
      modifies this`state, host`world, host`trace, host`faults
      ensures Ready(c)
      ensures host.world == old(host.world).(disk := host.world.disk)
      ensures state == old(state).(owned := state.owned)
      ensures forall x :: x in state.owned ==> x in old(state.owned)
      ensures forall x :: x in old(state.owned) && x != o ==> x in state.owned
      ensures ok ==> o !in state.owned
      ensures if ok then Now() == Forgetting(old(Now()), o, Done)
              else exists fate: Fate :: !fate.Done? && Now() == Forgetting(old(Now()), o, fate)
      ensures host.faults >= old(host.faults) && (!ok ==> host.faults > old(host.faults))
    {
      hide Ready;
      for i := 0 to |state.owned|
        invariant o !in state.owned[..i]
        invariant state == old(state) && host.world == old(host.world) && host.trace == old(host.trace)
      {
        if state.owned[i] == o {
          ok := ForgetAt(i, c);
          return;
        }
      }
      assert state.owned[..|state.owned|] == state.owned;
      ok := true;
    }

    // The first entry of the rule leaves the record, in memory and on disk.
    method ForgetAt(i: nat, ghost c: Context) returns (ok: bool)
      requires Ready(c) && i < |state.owned| && state.owned[i] !in state.owned[..i] && state.owned[i] !in host.world.mine
      modifies this`state, host`world, host`trace, host`faults
      ensures Ready(c)
      ensures host.world == old(host.world).(disk := host.world.disk)
      ensures state == old(state).(owned := if ok then Dropped(old(state.owned), old(state.owned[i])) else old(state.owned))
      ensures forall x :: x in state.owned ==> x in old(state.owned)
      ensures forall x :: x in old(state.owned) && x != old(state.owned[i]) ==> x in state.owned
      ensures ok ==> old(state.owned[i]) !in state.owned
      ensures if ok then Now() == Forgetting(old(Now()), old(state.owned[i]), Done)
              else exists fate: Fate :: !fate.Done? && Now() == Forgetting(old(Now()), old(state.owned[i]), fate)
      ensures host.faults >= old(host.faults) && (!ok ==> host.faults > old(host.faults))
    {
      var previous := state.owned;
      ghost var before, o := Now(), previous[i];
      DroppedAt(previous, i);
      DroppedIs(previous, o);
      state := state.(owned := previous[..i] + previous[i + 1..]);
      SaveKeeps(c, host.world, state);
      ok := Save(c);
      if !ok {
        state := state.(owned := previous);
        assert Now() == Forgetting(before, o, Undone) || Now() == Forgetting(before, o, HalfDone);
      }
    }

    lemma AllRemembered(c: Context)
      requires Ready(c)
      ensures forall x <- host.world.mine :: x in state.owned
    {
    }

    // Inserts a rule that is on record, over nothing or over our own.
    method AddUfw(r: Rule, ghost c: Context) returns (ok: bool)
      requires Ready(c) && UfwKey(r) in state.owned && (c.atomic ==> UfwKey(r) in host.world.disk.owned)
      requires UfwKey(r) !in host.world.entries || UfwKey(r) in host.world.mine
      modifies host`world, host`trace, host`faults
      ensures Ready(c) && host.world in {old(host.world), Inserted(old(host.world), UfwKey(r))}
      ensures ok ==> host.world == Inserted(old(host.world), UfwKey(r))
      ensures host.faults >= old(host.faults) && (!ok ==> host.faults > old(host.faults))
    {
      ghost var before, w := host.trace, host.world;
      InsertKeeps(c, w, UfwKey(r));
      ok := host.AddUfw(r);
      HistoryGrows(c, before, w, host.world);
    }

    method AddRichRule(zone: string, r: Rule, ghost c: Context) returns (ok: bool, already: bool)
      requires Ready(c) && ZoneKey(zone, r) in state.owned && (c.atomic ==> ZoneKey(zone, r) in host.world.disk.owned)
      modifies host`world, host`trace, host`faults
      ensures Ready(c) && host.world in {old(host.world), Inserted(old(host.world), ZoneKey(zone, r))}
      ensures ZoneKey(zone, r) in old(host.world.entries) ==> host.world == old(host.world)
      ensures ok ==> already == (ZoneKey(zone, r) in old(host.world).entries)
      ensures ok && !already ==> host.world == Inserted(old(host.world), ZoneKey(zone, r))
      ensures host.faults >= old(host.faults) && (!ok ==> host.faults > old(host.faults))
    {
      ghost var before, w := host.trace, host.world;
      if ZoneKey(zone, r) !in w.entries {
        InsertKeeps(c, w, ZoneKey(zone, r));
      }
      ok, already := host.AddRichRule(zone, r);
      HistoryGrows(c, before, w, host.world);
    }

    method EnsureUfw(r: Rule, existing: seq<UfwRule>, ghost wanted: set<Owned>, ghost c: Context) returns (ok: bool)
      requires Ready(c) && UfwKey(r) in wanted && UfwKnown(existing, host.world, wanted)
      modifies this`state, host`world, host`trace, host`faults
      ensures Ready(c) && UfwKnown(existing, host.world, wanted)
      ensures Added(old(host.world), host.world, UfwKey(r))
      ensures OwnedBut(old(state), state, {UfwKey(r)})
      ensures ok ==> Accepted(host.world, Gate(Ufw, ""), [r])
      ensures host.faults >= old(host.faults)
      ensures !ok ==> host.faults > old(host.faults) || Blocked(existing, [r])
      ensures ok ==> !Blocked(existing, [r])
      ensures ok ==> Now() == EnsuredUfw(old(Now()), r, Lists(existing, r))
      ensures InsertedOnRecord(old(Now()), host.world, UfwKey(r))
    {
      hide Ready, Good, Recorded;
      IsTagged(c);
      AllRemembered(c);
      InsertionRecordedIff(Now(), UfwKey(r));
      for i := 0 to |existing|
        invariant forall k :: 0 <= k < i ==> existing[k].rule != r
        invariant state == old(state) && host.world == old(host.world) && host.trace == old(host.trace)
      {
        var found := existing[i];
        if found.rule == r {
          if !found.accepts {
            return false;
          }
          match found.comment {
            case Ours => ok := Remember(UfwKey(r), c);
            case AnotherNode => ok := false;
            case Manual => ok := Forget(UfwKey(r), c);
          }
          return;
        }
      }
      ok := EnsureUnlisted(r, existing, wanted, c);
    }

    method EnsureUnlisted(r: Rule, ghost existing: seq<UfwRule>, ghost wanted: set<Owned>, ghost c: Context)
      returns (ok: bool)
      requires Ready(c) && UfwKey(r) in wanted && UfwKnown(existing, host.world, wanted) && !Lists(existing, r)
      modifies this`state, host`world, host`trace, host`faults
      ensures Ready(c) && UfwKnown(existing, host.world, wanted)
      ensures Added(old(host.world), host.world, UfwKey(r))
      ensures OwnedBut(old(state), state, {UfwKey(r)})
      ensures host.faults >= old(host.faults) && (!ok ==> host.faults > old(host.faults))
      ensures ok ==> Now() == Inserting(Remembering(old(Now()), UfwKey(r), Done), UfwKey(r))
      ensures InsertedOnRecord(old(Now()), host.world, UfwKey(r))
    {
      hide Ready, Good, Recorded;
      AllRemembered(c);
      InsertionRecordedIff(Now(), UfwKey(r));
      ok := Remember(UfwKey(r), c);
      if !ok {
        return;
      }
      ok := AddUfw(r, c);
    }

    method EnsureFirewalld(zone: string, r: Rule, existing: set<Rule>, ghost c: Context)
      returns (ok: bool, shown: set<Rule>)
      requires Ready(c) && ZoneKnown(zone, existing, host.world, c.exact)
      modifies this`state, host`world, host`trace, host`faults
      ensures Ready(c)
      ensures Added(old(host.world), host.world, ZoneKey(zone, r))
      ensures OwnedBut(old(state), state, {ZoneKey(zone, r)})
      ensures ok ==> ZoneKnown(zone, shown, host.world, c.exact) && Accepted(host.world, Gate(Firewalld, zone), [r])
      ensures ok ==> Now() == EnsuredFirewalld(old(Now()), ZoneKey(zone, r), r in existing)
      ensures InsertedOnRecord(old(Now()), host.world, ZoneKey(zone, r))
      ensures host.faults >= old(host.faults) && (!ok ==> host.faults > old(host.faults))
    {
      hide Ready, Good, Recorded;
      IsTagged(c);
      AllRemembered(c);
      InsertionRecordedIff(Now(), ZoneKey(zone, r));
      shown := existing;
      var o := ZoneKey(zone, r);
      if r in existing {
        return true, shown;
      }
      ok := Remember(o, c);
      if !ok {
        return;
      }
      var already: bool;
      ok, already := AddRichRule(zone, r, c);
      if !ok {
        return;
      }
      if already {
        ok := Forget(o, c);
        return;
      }
      shown := existing + {r};
    }

    method SyncTable(rules: seq<Rule>, ghost c: Context) returns (ok: bool)
      requires Ready(c) && Backed(host.world, c.gates, Elements(rules))
      requires rules != [] ==> state.redirect.Nftables? && host.world.disk.redirect.Nftables?
      modifies host`world, host`trace, host`faults
      ensures Ready(c)
      ensures host.world == old(host.world).(nft := host.world.nft)
      ensures ok ==> host.world.nft == Elements(rules)
      ensures host.faults >= old(host.faults) && (!ok ==> host.faults > old(host.faults))
    {
      ok := host.Works();
      if !ok {
        return;
      }
      var matches: bool := *;
      matches := matches && host.world.nft == Elements(rules);
      var present := host.world.nft != {};
      if present && rules != [] && matches {
        return true;
      }
      if !present && rules == [] {
        return true;
      }
      ghost var before, w := host.trace, host.world;
      RetableKeeps(c, w, w.(nft := Elements(rules)), Elements(rules));
      ok := host.ReplaceTable(Elements(rules));
      HistoryGrows(c, before, w, host.world);
    }

    // One change of one family's chain.
    method SetChain(family: int, chain: Chain, ghost news: set<Rule>, ghost c: Context) returns (ok: bool)
      requires Ready(c) && (family == 4 || family == 6) && ChainShape(chain)
      requires Backed(host.world, c.gates, news)
      requires Jumped(chain) <= Jumped(ChainOf(host.world, family)) + news
      requires chain.rules != {} ==> Named(state, family) && Named(host.world.disk, family)
      modifies host`world, host`trace, host`faults
      ensures Ready(c)
      ensures host.world == old(host.world) || host.world == WithChain(old(host.world), family, chain)
      ensures ok ==> host.world == WithChain(old(host.world), family, chain)
      ensures host.faults >= old(host.faults) && (!ok ==> host.faults > old(host.faults))
    {
      ghost var before, w := host.trace, host.world;
      RetableKeeps(c, w, WithChain(w, family, chain), news);
      ok := host.SetChain(family, chain);
      HistoryGrows(c, before, w, host.world);
    }

    method SyncChain(family: int, rules: seq<Rule>, ghost c: Context) returns (ok: bool)
      requires Ready(c) && (family == 4 || family == 6)
      requires Backed(host.world, c.gates, Elements(rules))
      requires rules != [] ==> Named(state, family) && Named(host.world.disk, family)
      modifies host`world, host`trace, host`faults
      ensures Ready(c)
      ensures host.world == WithChain(old(host.world), family, ChainOf(host.world, family))
      ensures ok ==> ChainOf(host.world, family).rules == Elements(rules)
      ensures ok ==> Jumped(ChainOf(host.world, family)) == Elements(rules)
      ensures host.faults >= old(host.faults) && (!ok ==> host.faults > old(host.faults))
    {
      ok := host.Works();
      if !ok {
        return;
      }
      if rules == [] {
        if ChainOf(host.world, family).rules == {} {
          return true;
        }
        while ChainOf(host.world, family).jumps > 0
          invariant Ready(c)
          invariant host.world == WithChain(old(host.world), family, ChainOf(host.world, family))
          invariant host.faults >= old(host.faults)
          decreases ChainOf(host.world, family).jumps
        {
          var chain := ChainOf(host.world, family);
          ok := SetChain(family, chain.(jumps := chain.jumps - 1), {}, c);
          if !ok {
            return;
          }
        }
        ok := SetChain(family, Chain({}, 0), {}, c);
        return;
      }
      assert rules[0] in Elements(rules);
      ok := SetChain(family, Chain(Elements(rules), ChainOf(host.world, family).jumps), Elements(rules), c);
      if !ok {
        return;
      }
      ok := host.Works();
      if !ok {
        return;
      }
      if ChainOf(host.world, family).jumps == 0 {
        ok := SetChain(family, Chain(Elements(rules), 1), Elements(rules), c);
      }
    }

    lemma FamiliesAreTwo(c: Context)
      requires Ready(c)
      ensures state.families <= {4, 6}
    {
    }

    method SyncChains(rules: seq<Rule>, ghost c: Context) returns (ok: bool)
      requires Ready(c) && Backed(host.world, c.gates, Elements(rules))
      requires forall r <- rules :: (r.family == 4 || r.family == 6) && Named(state, r.family)
      requires forall r <- rules :: Named(host.world.disk, r.family)
      modifies host`world, host`trace, host`faults
      ensures Ready(c)
      ensures host.world == old(host.world).(chain4 := host.world.chain4, chain6 := host.world.chain6)
      ensures ok ==> ChainsHold(host.world, Elements(rules))
      ensures host.faults >= old(host.faults)
      ensures ok ==> !DriverLacks(host.site.tools, Iptables, state.families)
      ensures !ok ==> host.faults > old(host.faults) || DriverLacks(host.site.tools, Iptables, state.families)
    {
      var todo := [4, 6];
      for i := 0 to |todo|
        invariant todo == [4, 6] && Ready(c)
        invariant host.faults >= old(host.faults)
        invariant host.world == old(host.world).(chain4 := host.world.chain4, chain6 := host.world.chain6)
        invariant forall k :: 0 <= k < i && todo[k] in state.families ==> !FamilyLacks(host.site.tools, todo[k])
        invariant forall k :: 0 <= k < i && todo[k] in state.families ==>
                    ChainHolds(ChainOf(host.world, todo[k]), OfFamily(Elements(rules), todo[k]))
        invariant forall k :: i <= k < 2 ==> ChainOf(host.world, todo[k]) == ChainOf(old(host.world), todo[k])
      {
        var family := todo[i];
        if family in state.families {
          if FamilyLacks(host.site.tools, family) {
            return false;
          }
          var desired := Desired(rules, family);
          assert Elements(desired) <= Elements(rules);
          assert desired != [] ==> desired[0] in Elements(desired);
          ok := SyncChain(family, desired, c);
          if !ok {
            return;
          }
        }
      }
      ok := true;
      FamiliesAreTwo(c);
      UnnamedFamilyIsEmpty(host.world, state, Elements(rules), todo[0]);
      UnnamedFamilyIsEmpty(host.world, state, Elements(rules), todo[1]);
    }

    method SyncDriver(driver: Driver, rules: seq<Rule>, ghost c: Context) returns (ok: bool)
      requires Ready(c) && !driver.NoDriver? && Backed(host.world, c.gates, Elements(rules))
      requires rules != [] ==> state.redirect == driver && host.world.disk.redirect == driver
      requires forall r <- rules :: r.family == 4 || r.family == 6
      requires driver.Iptables? ==> forall r <- rules :: Named(state, r.family) && Named(host.world.disk, r.family)
      modifies host`world, host`trace, host`faults
      ensures Ready(c)
      ensures driver.Nftables? ==> host.world == old(host.world).(nft := host.world.nft)
      ensures driver.Iptables? ==>
                host.world == old(host.world).(chain4 := host.world.chain4, chain6 := host.world.chain6)
      ensures ok && driver.Nftables? ==> host.world.nft == Elements(rules)
      ensures ok && driver.Iptables? ==> ChainsHold(host.world, Elements(rules))
      ensures host.faults >= old(host.faults)
      ensures ok ==> !DriverLacks(host.site.tools, driver, state.families)
      ensures !ok ==> host.faults > old(host.faults) || DriverLacks(host.site.tools, driver, state.families)
    {
      match driver {
        case Nftables =>
          if Nft !in host.site.tools {
            return false;
          }
          ok := SyncTable(rules, c);
        case Iptables =>
          ok := SyncChains(rules, c);
      }
    }

    // Names a driver in the record, in memory and on disk.
    method Name(driver: Driver, families: set<int>, ghost c: Context) returns (ok: bool)
      requires Ready(c) && families <= {4, 6}
      requires TablesNamed(host.world, state.(redirect := driver, families := families))
      modifies this`state, host`world, host`trace, host`faults
      ensures Ready(c) && host.world == old(host.world).(disk := host.world.disk)
      ensures state == old(state).(redirect := driver, families := families)
      ensures ok ==> host.world.disk == state
      ensures if ok then Now() == Naming(old(Now()), driver, families, Done)
              else exists fate: Fate :: !fate.Done? && Now() == Naming(old(Now()), driver, families, fate)
      ensures host.faults >= old(host.faults) && (!ok ==> host.faults > old(host.faults))
    {
      state := state.(redirect := driver, families := families);
      SaveKeeps(c, host.world, state);
      ghost var before := old(Now());
      ok := Save(c);
      assert ok || Now() == Naming(before, driver, families, Undone) || Now() == Naming(before, driver, families, HalfDone);
    }

    lemma TablesAreNamed(c: Context)
      requires Ready(c)
      ensures TablesNamed(host.world, state) && state.families <= {4, 6}
      ensures ChainShape(host.world.chain4) && ChainShape(host.world.chain6)
    {
    }

    method ChooseDriver(rules: seq<Rule>) returns (ok: bool, driver: Driver)
      ensures rules == [] ==> ok && driver == state.redirect
      ensures rules != [] ==> driver == DriverFor(cfg, host.site.tools) && (ok <==> !driver.NoDriver?)
    {
      ok, driver := true, state.redirect;
      if |rules| > 0 {
        driver := cfg.redirect;
        if driver.NoDriver? {
          if Nft in host.site.tools {
            driver := Nftables;
          } else if ChainTool(4) in host.site.tools {
            driver := Iptables;
          } else {
            ok := false;
          }
        }
      }
    }

    // Removes the redirects of the recorded driver if another one is to be used.
    method RetireOther(driver: Driver, ghost c: Context) returns (ok: bool)
      requires Ready(c)
      modifies host`world, host`trace, host`faults
      ensures Ready(c) && Retabled(old(host.world), host.world)
      ensures ok ==> state.redirect == driver || NoTables(host.world)
      ensures host.faults >= old(host.faults)
      ensures ok ==> state.redirect == driver || !DriverLacks(host.site.tools, state.redirect, state.families)
      ensures !ok ==> host.faults > old(host.faults)
                      || (state.redirect != driver && DriverLacks(host.site.tools, state.redirect, state.families))
    {
      TablesAreNamed(c);
      ok := true;
      if !state.redirect.NoDriver? && state.redirect != driver {
        ok := SyncDriver(state.redirect, [], c);
      }
    }

    // Records the driver, and only then puts the redirects in place.
    method Install(driver: Driver, rules: seq<Rule>, ghost c: Context) returns (ok: bool)
      requires Ready(c) && !driver.NoDriver? && Backed(host.world, c.gates, Elements(rules))
      requires forall r <- rules :: r.family == 4 || r.family == 6
      requires state.redirect == driver || NoTables(host.world)
      modifies this`state, host`world, host`trace, host`faults
      ensures Ready(c) && Retabled(old(host.world), host.world)
      ensures state == old(state).(redirect := driver, families := state.families)
      ensures ok ==> Installed(host.world) == Elements(rules)
      ensures ok && rules == [] ==> NoTables(host.world)
      ensures host.faults >= old(host.faults)
      ensures ok ==> !DriverLacks(host.site.tools, driver, old(state.families) + Families(rules))
      ensures !ok ==> host.faults > old(host.faults)
                      || DriverLacks(host.site.tools, driver, old(state.families) + Families(rules))
    {
      hide Ready, Good, History, Linked, Backed, Sane, Tagged;
      TablesAreNamed(c);
      var families := state.families;
      if driver.Iptables? {
        families := families + Families(rules);
      }
      ok := Name(driver, families, c);
      if !ok {
        return;
      }
      BackedKept(old(host.world), host.world, c.gates, Elements(rules));
      ok := SyncDriver(driver, rules, c);
      TablesAreNamed(c);
      FamiliesMakeUp(Elements(rules));
    }

    /** Removes the redirects of a driver that is no longer used, records the driver to use, and only then
        puts the new redirects in place. */
    method ApplyRedirects(rules: seq<Rule>, ghost c: Context) returns (ok: bool)
      requires Ready(c) && Backed(host.world, c.gates, Elements(rules))
      requires forall r <- rules :: r.family == 4 || r.family == 6
      modifies this`state, host`world, host`trace, host`faults
      ensures Ready(c) && Retabled(old(host.world), host.world) && state.owned == old(state.owned)
      ensures ok ==> Installed(host.world) == Elements(rules)
      ensures ok && rules == [] ==> state.redirect.NoDriver?
      ensures host.faults >= old(host.faults)
      ensures ok ==> !RedirectToolMissing(cfg, host.site.tools, old(state.redirect), old(state.families), Families(rules))
      ensures !ok ==> host.faults > old(host.faults)
                      || RedirectToolMissing(cfg, host.site.tools, old(state.redirect), old(state.families), Families(rules))
    {
      hide Ready, Good, History, Linked, Backed, Sane, Tagged;
      TablesAreNamed(c);
      NoFamilies(rules);
      var driver: Driver;
      ok, driver := ChooseDriver(rules);
      if !ok || driver.NoDriver? {
        return;
      }
      ok := RetireOther(driver, c);
      if !ok {
        return;
      }
      BackedKept(old(host.world), host.world, c.gates, Elements(rules));
      ok := Install(driver, rules, c);
      if !ok {
        return;
      }
      if |rules| == 0 {
        ok := Name(NoDriver, {}, c);
      }
    }

    method RemoveUfw(o: Owned, existing: seq<UfwRule>, added: seq<UfwRule>, ghost c: Context) returns (ok: bool)
      requires Ready(c) && o == UfwKey(o.rule)
      requires o in host.world.mine <==> ShownAsOurs(existing + added, o.rule)
      requires Backed(Deleted(host.world, o), c.gates, Installed(host.world))
      modifies this`state, host`world, host`trace, host`faults
      ensures Ready(c) && OwnedWithin(old(state), state, {})
      ensures Taken(old(host.world), host.world, o)
      ensures ok ==> o !in state.owned
      ensures ok ==> Now() == Released(old(Now()), o, ShownAsOurs(existing + added, o.rule))
      ensures host.faults >= old(host.faults) && (!ok ==> host.faults > old(host.faults))
    {
      var found := false;
      for i := 0 to |existing|
        invariant found <==> ShownAsOurs(existing[..i], o.rule)
      {
        if existing[i].rule == o.rule && existing[i].accepts && existing[i].comment.Ours? {
          found := true;
        }
      }
      assert existing[..|existing|] == existing;
      if ShownAsOurs(added, o.rule) {
        found := true;
      }
      if found {
        ghost var before, w := host.trace, host.world;
        DeleteKeeps(c, w, o);
        ok := host.DeleteRule(o);
        HistoryGrows(c, before, w, host.world);
        if !ok {
          return;
        }
      }
      ok := Forget(o, c);
    }

    method RemoveRichRule(o: Owned, rules: set<Rule>, ghost c: Context) returns (ok: bool, left: set<Rule>)
      requires Ready(c) && o == ZoneKey(o.zone, o.rule) && o in c.owned && o !in c.wanted
      requires ZoneKnown(o.zone, rules, host.world, c.exact)
      requires Backed(Deleted(host.world, o), c.gates, Installed(host.world))
      modifies this`state, host`world, host`trace, host`faults
      ensures Ready(c) && OwnedWithin(old(state), state, {})
      ensures Taken(old(host.world), host.world, o)
      ensures ok ==> o !in state.owned && ZoneKnown(o.zone, left, host.world, c.exact)
      ensures ok ==> Now() == Released(old(Now()), o, o.rule in rules)
      ensures ok && c.exact ==> o !in host.world.entries
      ensures host.faults >= old(host.faults) && (!ok ==> host.faults > old(host.faults))
    {
      left := rules;
      if o.rule in rules {
        ghost var before, w := host.trace, host.world;
        DeleteKeeps(c, w, o);
        ok := host.DeleteRule(o);
        HistoryGrows(c, before, w, host.world);
        if !ok {
          return;
        }
        left := rules - {o.rule};
      }
      ok := Forget(o, c);
    }

    // Lists a zone unless that was done before.
    method Listed(zone: string, shown: map<string, set<Rule>>) returns (ok: bool, after: map<string, set<Rule>>)
      requires Tagged(host.world) && ZonesKnown(shown, host.world, host.exactListing)
      modifies host`faults
      ensures host.faults >= old(host.faults) && (!ok ==> host.faults > old(host.faults))
      ensures ok ==> zone in after && ZonesKnown(after, host.world, host.exactListing)
    {
      ok, after := true, shown;
      if zone !in shown {
        var rules: set<Rule>;
        ok, rules := host.ListRichRules(zone);
        after := shown[zone := rules];
      }
    }

    method EnsureAllUfw(allows: seq<Rule>, existing: seq<UfwRule>, ghost c: Context) returns (ok: bool)
      requires Ready(c) && UfwKnown(existing, host.world, {})
      modifies this`state, host`world, host`trace, host`faults
      ensures Ready(c) && Grown(old(host.world), host.world)
      ensures OwnedBut(old(state), state, Wanted({Gate(Ufw, "")}, allows))
      ensures ok ==> Accepted(host.world, Gate(Ufw, ""), allows)
      ensures UfwKnown(existing, host.world, Wanted({Gate(Ufw, "")}, allows))
      ensures host.faults >= old(host.faults)
      ensures !ok ==> host.faults > old(host.faults) || Blocked(existing, allows)
      ensures ok ==> !Blocked(existing, allows)
    {
      hide Ready, UfwKnown, Accepted;
      ghost var wanted := Wanted({Gate(Ufw, "")}, allows);
      KnownForMore(existing, host.world, {}, wanted);
      NothingToAccept(host.world, Gate(Ufw, ""));
      for i := 0 to |allows|
        invariant Ready(c) && UfwKnown(existing, host.world, wanted) && Grown(old(host.world), host.world)
        invariant host.faults >= old(host.faults)
        invariant OwnedBut(old(state), state, wanted)
        invariant Accepted(host.world, Gate(Ufw, ""), allows[..i]) && !Blocked(existing, allows[..i])
      {
        ghost var w := host.world;
        BlockedGrows(existing, allows, i);
        WantedHas(Gate(Ufw, ""), {Gate(Ufw, "")}, allows, allows[i]);
        ok := EnsureUfw(allows[i], existing, wanted, c);
        AddedGrows(w, host.world, UfwKey(allows[i]));
        if !ok {
          return;
        }
        AcceptedStep(w, host.world, Gate(Ufw, ""), allows, i);
      }
      assert allows[..|allows|] == allows;
      ok := true;
    }

    method EnsureZone(allows: seq<Rule>, zone: string, existing: set<Rule>, ghost c: Context)
      returns (ok: bool, shown: set<Rule>)
      requires Ready(c) && ZoneKnown(zone, existing, host.world, c.exact)
      modifies this`state, host`world, host`trace, host`faults
      ensures Ready(c) && ZoneGrown(zone, old(host.world), host.world)
      ensures OwnedBut(old(state), state, Wanted({Gate(Firewalld, zone)}, allows))
      ensures ok ==> Accepted(host.world, Gate(Firewalld, zone), allows) && ZoneKnown(zone, shown, host.world, c.exact)
      ensures host.faults >= old(host.faults) && (!ok ==> host.faults > old(host.faults))
    {
      hide Ready, ZoneKnown, Accepted;
      shown := existing;
      ghost var g := Gate(Firewalld, zone);
      NothingToAccept(host.world, g);
      for i := 0 to |allows|
        invariant Ready(c) && ZoneKnown(zone, shown, host.world, c.exact) && ZoneGrown(zone, old(host.world), host.world)
        invariant host.faults >= old(host.faults)
        invariant OwnedBut(old(state), state, Wanted({g}, allows))
        invariant Accepted(host.world, g, allows[..i])
      {
        ghost var w := host.world;
        WantedHas(g, {g}, allows, allows[i]);
        ok, shown := EnsureFirewalld(zone, allows[i], shown, c);
        AddedGrows(w, host.world, ZoneKey(zone, allows[i]));
        if !ok {
          return;
        }
        AcceptedStep(w, host.world, g, allows, i);
      }
      assert allows[..|allows|] == allows;
      ok := true;
    }

    method EnsureAllZones(allows: seq<Rule>, ghost listing: seq<UfwRule>, ghost wanted: set<Owned>, ghost known: bool,
                          ghost c: Context)
      returns (ok: bool, shown: map<string, set<Rule>>)
      requires Ready(c) && (known ==> UfwKnown(listing, host.world, wanted))
      modifies this`state, host`world, host`trace, host`faults
      ensures Ready(c) && Grown(old(host.world), host.world) && (known ==> UfwKnown(listing, host.world, wanted))
      ensures OwnedBut(old(state), state, Wanted(ZoneGates(ZonesInForce(cfg, host.site)), allows))
      ensures ok ==> AcceptedAtAll(host.world, ZoneGates(ZonesInForce(cfg, host.site)), allows)
      ensures ok ==> ZonesKnown(shown, host.world, c.exact)
      ensures host.faults >= old(host.faults) && (!ok ==> host.faults > old(host.faults))
    {
      hide Ready, UfwKnown, Accepted, ZoneKnown, Grown;
      GrownOn(host.world, host.world, host.world);
      shown := map[];
      var zones: seq<string>;
      ok, zones := host.Zones(cfg);
      if !ok {
        return;
      }
      for i := 0 to |zones|
        invariant Ready(c) && Grown(old(host.world), host.world) && (known ==> UfwKnown(listing, host.world, wanted))
        invariant host.faults >= old(host.faults)
        invariant OwnedBut(old(state), state, Wanted(ZoneGates(ZonesInForce(cfg, host.site)), allows))
        invariant forall k :: 0 <= k < i ==> Accepted(host.world, Gate(Firewalld, zones[k]), allows)
        invariant ZonesKnown(shown, host.world, c.exact)
      {
        ghost var w := host.world;
        var rules: set<Rule>;
        IsTagged(c);
        ok, rules := host.ListRichRules(zones[i]);
        if !ok {
          return;
        }
        var after: set<Rule>;
        ok, after := EnsureZone(allows, zones[i], rules, c);
        WantedWithin({Gate(Firewalld, zones[i])}, ZoneGates(ZonesInForce(cfg, host.site)), allows);
        GrownOn(old(host.world), w, host.world);
        if known { UfwKnownStays(listing, w, host.world, zones[i], wanted); }
        if !ok {
          return;
        }
        forall k | 0 <= k < i ensures Accepted(host.world, Gate(Firewalld, zones[k]), allows) {
          AcceptedStays(w, host.world, Gate(Firewalld, zones[k]), allows);
        }
        ZonesKnownStay(shown, w, host.world, zones[i], c.exact);
        ZonesKnownWith(shown, zones[i], after, host.world, c.exact);
        shown := shown[zones[i] := after];
      }
      ok := true;
    }

    lemma IsTagged(c: Context)
      requires Ready(c)
      ensures Tagged(host.world) && c.atomic == host.atomicSave && c.exact == host.exactListing
    {
    }

    // One entry of the record that no gate wants any more.
    method Release(o: Owned, existing: seq<UfwRule>, added: seq<UfwRule>, fdActive: bool,
                   shown: map<string, set<Rule>>, ghost c: Context)
      returns (ok: bool, after: map<string, set<Rule>>)
      requires Ready(c) && (o.backend.Ufw? ==> o.zone == "")
      requires o.backend.Firewalld? ==> o in c.owned && o !in c.wanted
      requires o.backend.Ufw? ==> (o in host.world.mine <==> ShownAsOurs(existing + added, o.rule))
      requires ZonesKnown(shown, host.world, c.exact)
      requires Backed(Deleted(host.world, o), c.gates, Installed(host.world))
      modifies this`state, host`world, host`trace, host`faults
      ensures Ready(c) && OwnedWithin(old(state), state, {}) && Taken(old(host.world), host.world, o)
      ensures ok ==> o !in state.owned && ZonesKnown(after, host.world, c.exact)
      ensures ok && c.exact && o.backend.Firewalld? ==> o !in host.world.entries
      ensures host.faults >= old(host.faults)
      ensures !ok ==> host.faults > old(host.faults) || (o.backend.Firewalld? && !fdActive)
      ensures ok ==> !(o.backend.Firewalld? && !fdActive)
    {
      hide Ready, Backed;
      IsTagged(c);
      after := shown;
      match o.backend {
        case Ufw =>
          ok := RemoveUfw(o, existing, added, c);
        case Firewalld =>
          if !fdActive {
            return false, after;
          }
          ok, after := Listed(o.zone, shown);
          if !ok {
            return;
          }
          ghost var w := host.world;
          var left: set<Rule>;
          ok, left := RemoveRichRule(o, after[o.zone], c);
          if ok {
            OtherZonesKnown(after, w, host.world, o, c.exact);
            ZonesKnownWith(after, o.zone, left, host.world, c.exact);
            after := after[o.zone := left];
          }
      }
    }

    // Releases every entry of the record that no gate wants any more.
    method Recycle(allows: seq<Rule>, ghost redirects: seq<Rule>, wanted: set<Owned>, existing: seq<UfwRule>,
                   added: seq<UfwRule>, fdActive: bool, listed: map<string, set<Rule>>, ghost c: Context)
      returns (ok: bool)
      requires Ready(c) && wanted == Wanted(c.gates, allows) == c.wanted
      requires RecordShape(state) && OwnedBut(state.(owned := c.owned), state, wanted)
      requires ShownRight(existing + added, host.world, state.owned, wanted)
      requires ZonesKnown(listed, host.world, c.exact)
      requires AcceptedAtAll(host.world, c.gates, allows) && Allowing(allows, redirects)
      requires Installed(host.world) == Elements(redirects)
      modifies this`state, host`world, host`trace, host`faults
      ensures Ready(c) && state == old(state).(owned := state.owned)
      ensures ok ==> AcceptedAtAll(host.world, c.gates, allows)
      ensures ok ==> forall o <- state.owned :: o in wanted
      ensures ok && c.exact ==> Cleared(c.owned, wanted, host.world)
      ensures Installed(host.world) == Elements(redirects)
      ensures host.faults >= old(host.faults)
      ensures !ok ==> host.faults > old(host.faults) || (!fdActive && ListsFirewalld(c.owned))
      ensures ok && !fdActive ==> UfwOnly(c.owned, wanted)
    {
      hide Ready, Backed, Accepted, ZonesKnown, Allowing, Wanted, ShownAsOurs;
      var owned := state.owned;
      var shown := listed;
      for i := 0 to |owned|
        invariant Ready(c) && OwnedWithin(old(state), state, {})
        invariant host.faults >= old(host.faults)
        invariant forall o <- state.owned :: o in wanted || o in owned[i..]
        invariant c.exact ==> Cleared(owned[..i], wanted, host.world)
        invariant !fdActive ==> UfwOnly(owned[..i], wanted)
        invariant ShownRight(existing + added, host.world, owned[i..], wanted)
        invariant ZonesKnown(shown, host.world, c.exact)
        invariant AcceptedAtAll(host.world, c.gates, allows) && Installed(host.world) == Elements(redirects)
      {
        var o := owned[i];
        assert owned[i..] == [o] + owned[i + 1..];
        assert owned[..i + 1] == owned[..i] + [o];
        if o in wanted {
          continue;
        }
        ghost var w := host.world;
        UnwantedIsUnneeded(w, c.gates, allows, redirects, o);
        ok, shown := Release(o, existing, added, fdActive, shown, c);
        if !ok {
          return;
        }
        TakenLeaves(w, host.world, o, c.gates, allows);
        OthersShownRight(existing + added, w, host.world, owned, i, wanted);
      }
      assert owned[..|owned|] == owned;
      ok := true;
    }

    predicate OwnsBackend(b: Backend)
      reads this
    {
      Owns(state.owned, b)
    }

    // Looks at UFW when it may be managed or the record still lists rules of it.
    method InspectUfw() returns (ok: bool, active: bool, existing: seq<UfwRule>, added: seq<UfwRule>)
      requires Tagged(host.world)
      modifies host`faults
      ensures host.faults >= old(host.faults)
      ensures ok ==> !(host.site.ufw.NotInstalled? && (cfg.choice == Only(Ufw) || OwnsBackend(Ufw)))
      ensures !ok ==> host.faults > old(host.faults)
                      || (host.site.ufw.NotInstalled? && (cfg.choice == Only(Ufw) || OwnsBackend(Ufw)))
      ensures ok ==> (active ==> host.site.ufw.Started?) && (host.site.ufw.Started? && Wants(cfg, Ufw) ==> active)
      ensures ok && (active || OwnsBackend(Ufw)) ==> UfwKnown(existing + added, host.world, {})
      ensures ok && active ==> added == []
    {
      ok, active, existing, added := true, false, [], [];
      if !Wants(cfg, Ufw) && !OwnsBackend(Ufw) {
        return;
      }
      var status := host.UfwStatus();
      match status {
        case Missing =>
          ok := cfg.choice != Only(Ufw) && !OwnsBackend(Ufw);
        case Unknown =>
          ok := false;
        case Active =>
          active := true;
          ok, existing := host.ListUfw();
          assert existing + [] == existing;
        case Inactive =>
          if OwnsBackend(Ufw) {
            ok, added := host.ListUfw();
            assert [] + added == added;
          }
      }
    }

    method InspectFirewalld() returns (ok: bool, active: bool)
      modifies host`faults
      ensures host.faults >= old(host.faults)
      ensures ok ==> !(host.site.fd.NotInstalled? && (cfg.choice == Only(Firewalld) || OwnsBackend(Firewalld)))
      ensures !ok ==> host.faults > old(host.faults)
                      || (host.site.fd.NotInstalled? && (cfg.choice == Only(Firewalld) || OwnsBackend(Firewalld)))
      ensures ok ==> (active ==> host.site.fd.Started?) && (host.site.fd.Started? && Wants(cfg, Firewalld) ==> active)
      ensures ok && ListsFirewalld(state.owned) ==> (active <==> host.site.fd.Started?)
    {
      ok, active := true, false;
      if !Wants(cfg, Firewalld) && !OwnsBackend(Firewalld) {
        return;
      }
      var status := host.FirewalldStatus();
      match status {
        case Missing => ok := cfg.choice != Only(Firewalld) && !OwnsBackend(Firewalld);
        case Unknown => ok := false;
        case Active => active := true;
        case Inactive =>
      }
    }

    // What blocks a wanted rule at UFW is refused, and nothing else is.
    lemma BlockedIsRefused(w: World, existing: seq<UfwRule>, allows: seq<Rule>, owned: seq<Owned>)
      requires Wants(cfg, Ufw) && host.site.ufw.Started? && UfwKnown(existing, w, {})
      ensures Blocked(existing, allows) ==> Refused(cfg, host.site, w, allows, owned)
      ensures Refused(cfg, host.site, w, allows, owned) ==>
                Blocked(existing, allows) || (!host.site.fd.Started? && ListsFirewalld(owned))
    {
      if Blocked(existing, allows) {
        var i :| 0 <= i < |existing| && existing[i].rule in allows
                 && (!existing[i].accepts || existing[i].comment.AnotherNode?);
        assert UfwKey(existing[i].rule) in w.entries;
      }
      if Refused(cfg, host.site, w, allows, owned) && !(!host.site.fd.Started? && ListsFirewalld(owned)) {
        var a :| a in allows && UfwKey(a) in w.entries
                 && (!w.entries[UfwKey(a)].accepts || w.entries[UfwKey(a)].comment.AnotherNode?);
        assert Lists(existing, UfwKey(a).rule);
        var i :| 0 <= i < |existing| && existing[i].rule == a;
      }
    }

    // Without firewalld no gate wants a rule of it.
    lemma NoFirewalldWanted(owned: seq<Owned>, allows: seq<Rule>)
      requires !host.site.fd.Started? && UfwOnly(owned, Wanted(Gates(cfg, host.site), allows))
      ensures !ListsFirewalld(owned)
    {
    }

    function Began(wanted: set<Owned>): Context
      reads this, host
    {
      Context(host.world, state.owned, wanted, Gates(cfg, host.site), host.atomicSave, host.exactListing)
    }

    // Between calls: the world is sane, and what we remember and, barring half-failed saves, the record
    // on disk list every rule of ours.
    ghost predicate AtRest()
      reads this, host
    {
      Sane(host.world) && Linked(Began({}), host.world, state) && (host.atomicSave ==> Recorded(host.world))
    }

    method EnsureUfwGate(allows: seq<Rule>, existing: seq<UfwRule>, ghost listing: seq<UfwRule>, ufwActive: bool,
                         ghost known: bool, ghost c: Context)
      returns (ok: bool, wanted: set<Owned>)
      requires Ready(c) && (known ==> UfwKnown(listing, host.world, {}))
      requires ufwActive ==> known && listing == existing && host.site.ufw.Started?
      requires host.site.ufw.Started? && Wants(cfg, Ufw) ==> ufwActive
      modifies this`state, host`world, host`trace, host`faults
      ensures Ready(c) && Grown(old(host.world), host.world)
      ensures wanted == Wanted(UfwGates(cfg, host.site), allows) && OwnedBut(old(state), state, wanted)
      ensures ok ==> AcceptedAtAll(host.world, UfwGates(cfg, host.site), allows)
      ensures ok && known ==> UfwKnown(listing, host.world, wanted)
      ensures host.faults >= old(host.faults)
      ensures !ok ==> host.faults > old(host.faults) || (ufwActive && Wants(cfg, Ufw) && Blocked(existing, allows))
      ensures ok ==> !(ufwActive && Wants(cfg, Ufw) && Blocked(existing, allows))
    {
      hide Ready, UfwKnown, Accepted, Wanted, Grown;
      GrownOn(host.world, host.world, host.world);
      NoGates(host.world, allows, c.exact);
      ok, wanted := true, {};
      if ufwActive && Wants(cfg, Ufw) {
        wanted := Wanted({Gate(Ufw, "")}, allows);
        ok := EnsureAllUfw(allows, existing, c);
      }
    }

    method EnsureZoneGates(allows: seq<Rule>, fdActive: bool, ghost listing: seq<UfwRule>, ghost some: set<Owned>,
                           ghost known: bool, ghost c: Context)
      returns (ok: bool, wanted: set<Owned>, shown: map<string, set<Rule>>)
      requires Ready(c) && (known ==> UfwKnown(listing, host.world, some))
      requires (fdActive ==> host.site.fd.Started?) && (host.site.fd.Started? && Wants(cfg, Firewalld) ==> fdActive)
      modifies this`state, host`world, host`trace, host`faults
      ensures Ready(c) && Grown(old(host.world), host.world)
      ensures wanted == Wanted(FirewalldGates(cfg, host.site), allows) && OwnedBut(old(state), state, wanted)
      ensures ok ==> AcceptedAtAll(host.world, FirewalldGates(cfg, host.site), allows)
      ensures ok ==> ZonesKnown(shown, host.world, c.exact)
      ensures known ==> UfwKnown(listing, host.world, some)
      ensures host.faults >= old(host.faults) && (!ok ==> host.faults > old(host.faults))
    {
      hide Ready, UfwKnown, Grown;
      GrownOn(host.world, host.world, host.world);
      NoGates(host.world, allows, c.exact);
      ok, wanted, shown := true, {}, map[];
      if fdActive && Wants(cfg, Firewalld) && |allows| > 0 {
        wanted := Wanted(FirewalldGates(cfg, host.site), allows);
        ok, shown := EnsureAllZones(allows, listing, some, known, c);
      }
    }

    // Puts every wanted allow rule in place, gate by gate.
    method EnsureAll(allows: seq<Rule>, existing: seq<UfwRule>, ghost added: seq<UfwRule>, ufwActive: bool,
                     fdActive: bool, ghost c: Context)
      returns (ok: bool, wanted: set<Owned>, shown: map<string, set<Rule>>)
      requires Ready(c) && c.gates == Gates(cfg, host.site)
      requires ufwActive ==> added == [] && host.site.ufw.Started?
      requires host.site.ufw.Started? && Wants(cfg, Ufw) ==> ufwActive
      requires (fdActive ==> host.site.fd.Started?) && (host.site.fd.Started? && Wants(cfg, Firewalld) ==> fdActive)
      requires ufwActive || OwnsBackend(Ufw) ==> UfwKnown(existing + added, host.world, {})
      modifies this`state, host`world, host`trace, host`faults
      ensures Ready(c) && OwnedBut(old(state), state, Wanted(c.gates, allows))
      ensures ok ==> wanted == Wanted(c.gates, allows) && AcceptedAtAll(host.world, c.gates, allows)
      ensures ok ==> ZonesKnown(shown, host.world, c.exact)
      ensures ok ==> ShownRight(existing + added, host.world, state.owned, wanted)
      ensures host.faults >= old(host.faults)
      ensures !ok ==> host.faults > old(host.faults) || (ufwActive && Wants(cfg, Ufw) && Blocked(existing, allows))
      ensures ok ==> !(ufwActive && Wants(cfg, Ufw) && Blocked(existing, allows))
    {
      hide Ready, UfwKnown, ZonesKnown, Accepted, Wanted, Grown, UfwGates, FirewalldGates, ShownRight;
      ghost var known, listing := ufwActive || OwnsBackend(Ufw), existing + added;
      ghost var start := state;
      assert ufwActive ==> listing == existing;
      WantedJoins(UfwGates(cfg, host.site), FirewalldGates(cfg, host.site), allows);
      shown := map[];
      ok, wanted := EnsureUfwGate(allows, existing, listing, ufwActive, known, c);
      if !ok {
        return;
      }
      ghost var w, ufwWanted := host.world, wanted;
      var zoneWanted: set<Owned>;
      ok, zoneWanted, shown := EnsureZoneGates(allows, fdActive, listing, wanted, known, c);
      wanted := wanted + zoneWanted;
      if !ok {
        return;
      }
      AllStay(w, host.world, UfwGates(cfg, host.site), allows);
      ShapeAndTags(c);
      if known {
        KnownForMore(listing, host.world, ufwWanted, wanted);
        KnownIsRight(listing, host.world, state.owned, wanted);
      } else {
        NoUfwIsRight(listing, host.world, state.owned, wanted, start.owned);
      }
    }

    lemma ShapeAndTags(c: Context)
      requires Ready(c)
      ensures RecordShape(state) && Tagged(host.world)
    {
    }

    // What AtRest promises is what the steps need.
    method Begin(ghost c: Context)
      requires AtRest() && c == Began(c.wanted)
      modifies host`trace
      ensures Ready(c)
    {
      host.Mark();
    }

    predicate Lacking(recorded: Saved, redirects: seq<Rule>)
      reads host`site
    {
      || BackendMissing(cfg, host.site, recorded.owned)
      || RedirectToolMissing(cfg, host.site.tools, recorded.redirect, recorded.families, Families(redirects))
    }

    // With both backends inspected: allow rules, then redirects, then what is left over.
    method Proceed(allows: seq<Rule>, redirects: seq<Rule>, existing: seq<UfwRule>, added: seq<UfwRule>,
                   ufwActive: bool, fdActive: bool, ghost c: Context)
      returns (ok: bool)
      requires Ready(c) && c.gates == Gates(cfg, host.site) && c.owned == state.owned && c.wanted == Wanted(c.gates, allows)
      requires Allowing(allows, redirects) && forall r <- redirects :: RuleValid(r)
      requires ufwActive ==> added == [] && host.site.ufw.Started?
      requires host.site.ufw.Started? && Wants(cfg, Ufw) ==> ufwActive
      requires (fdActive ==> host.site.fd.Started?) && (host.site.fd.Started? && Wants(cfg, Firewalld) ==> fdActive)
      requires ListsFirewalld(c.owned) ==> (fdActive <==> host.site.fd.Started?)
      requires ufwActive || OwnsBackend(Ufw) ==> UfwKnown(existing + added, host.world, {})
      modifies this`state, host`world, host`trace, host`faults
      ensures Ready(c)
      ensures ok ==> Installed(host.world) == Elements(redirects)
      ensures ok ==> AcceptedAtAll(host.world, c.gates, allows)
      ensures ok ==> forall o <- state.owned :: o in c.wanted
      ensures ok && redirects == [] ==> NoTables(host.world)
      ensures ok && c.exact ==> Cleared(c.owned, c.wanted, host.world)
      ensures host.faults >= old(host.faults)
      ensures !ok ==> host.faults > old(host.faults)
                      || (ufwActive && Wants(cfg, Ufw) && Blocked(existing, allows))
                      || RedirectToolMissing(cfg, host.site.tools, old(state.redirect), old(state.families), Families(redirects))
                      || (!fdActive && ListsFirewalld(c.owned))
      ensures ok ==> !(ufwActive && Wants(cfg, Ufw) && Blocked(existing, allows))
      ensures ok ==> !RedirectToolMissing(cfg, host.site.tools, old(state.redirect), old(state.families), Families(redirects))
      ensures ok && !fdActive ==> UfwOnly(c.owned, c.wanted)
    {
      hide Ready, Accepted, ZonesKnown, Wanted, Backed, UfwKnown, Allowing, ShownRight, RedirectToolMissing, Blocked,
           Cleared, UfwOnly;
      var wanted: set<Owned>;
      var shown: map<string, set<Rule>>;
      ok, wanted, shown := EnsureAll(allows, existing, added, ufwActive, fdActive, c);
      if !ok {
        return;
      }
      AllowsBack(host.world, c.gates, allows, redirects);
      ghost var w := host.world;
      ok := ApplyRedirects(redirects, c);
      if !ok {
        return;
      }
      RetabledKeeps(w, host.world, c.gates, allows, shown, c.exact, existing + added, state.owned, wanted);
      ShapeAndTags(c);
      ok := Recycle(allows, redirects, wanted, existing, added, fdActive, shown, c);
      TablesAreNamed(c);
    }

    method Reconcile(allows: seq<Rule>, redirects: seq<Rule>, ghost c: Context) returns (ok: bool)
      requires Ready(c) && c.gates == Gates(cfg, host.site) && c.owned == state.owned && c.wanted == Wanted(c.gates, allows)
      requires Allowing(allows, redirects) && forall r <- redirects :: RuleValid(r)
      modifies this`state, host`world, host`trace, host`faults
      ensures Ready(c)
      ensures ok ==> Installed(host.world) == Elements(redirects)
      ensures ok ==> AcceptedAtAll(host.world, c.gates, allows)
      ensures ok ==> forall o <- state.owned :: o in Wanted(c.gates, allows)
      ensures ok && redirects == [] ==> NoTables(host.world)
      ensures ok && allows == [] ==> state.owned == []
      ensures ok && c.exact ==> Cleared(c.owned, c.wanted, host.world)
      ensures host.faults >= old(host.faults)
      ensures !ok ==> host.faults > old(host.faults) || Refused(cfg, host.site, old(host.world), allows, c.owned)
                      || Lacking(old(state), redirects)
      ensures ok ==> !Lacking(old(state), redirects) && !Refused(cfg, host.site, old(host.world), allows, c.owned)
    {
      hide Ready, Accepted, Wanted, UfwKnown, Allowing, Blocked, Cleared, UfwOnly, RedirectToolMissing;
      ShapeAndTags(c);
      var ufwActive, fdActive: bool;
      var existing, added: seq<UfwRule>;
      ok, ufwActive, existing, added := InspectUfw();
      if !ok {
        return;
      }
      ok, fdActive := InspectFirewalld();
      if !ok {
        return;
      }
      if ufwActive && Wants(cfg, Ufw) {
        assert existing + added == existing;
        BlockedIsRefused(host.world, existing, allows, c.owned);
      }
      ok := Proceed(allows, redirects, existing, added, ufwActive, fdActive, c);
      NothingWanted(state.owned, c.gates);
      if ok && !host.site.fd.Started? {
        NoFirewalldWanted(c.owned, allows);
      }
    }

    /** One reconciliation. Every state it passes through is Good, also when it returns early; when it
        succeeds, the redirects are exactly the wanted ones, every wanted allow rule is in place at every
        gate in force, and the record lists no other rule. */
    method Apply(wantedAllows: seq<Rule>, wantedRedirects: seq<Rule>) returns (ok: bool)
      requires AtRest() && Allowing(wantedAllows, wantedRedirects)
      modifies this`state, host`world, host`trace, host`faults
      ensures AtRest() && History(old(Began(WantedAt(cfg, host.site, wantedAllows))), host.trace, host.world)
      ensures Good(old(Began(WantedAt(cfg, host.site, wantedAllows))), host.world)
      ensures ok ==> Settled(cfg, host.site, host.world, state.owned, wantedAllows, wantedRedirects)
      ensures ok && host.exactListing ==>
                SparedExactly(old(host.world), old(state.owned), WantedAt(cfg, host.site, wantedAllows), host.world)
      ensures host.faults >= old(host.faults)
      ensures !ok ==> host.faults > old(host.faults)
                      || Unreconcilable(cfg, host.site, old(host.world), wantedAllows, wantedRedirects, old(state.owned))
                      || ToolMissing(cfg, host.site, old(state), Families(wantedRedirects))
      ensures ok ==> !ToolMissing(cfg, host.site, old(state), Families(wantedRedirects))
      ensures ok ==> !Unreconcilable(cfg, host.site, old(host.world), wantedAllows, wantedRedirects, old(state.owned))
    {
      var allows, redirects := wantedAllows, wantedRedirects;
      ghost var c := Began(WantedAt(cfg, host.site, wantedAllows));
      NoGates(host.world, [], c.exact);
      Begin(c);
      if !cfg.enabled {
        allows, redirects := [], [];
        if |state.owned| == 0 && state.redirect.NoDriver? {
          return true;
        }
      }
      var valid := AllRulesValid(allows + redirects);
      if !valid {
        return false;
      }
      ok := Reconcile(allows, redirects, c);
    }
  }

  method AllRulesValid(rules: seq<Rule>) returns (valid: bool)
    ensures valid <==> forall r <- rules :: RuleValid(r)
  {
    for i := 0 to |rules|
      invariant forall k :: 0 <= k < i ==> RuleValid(rules[k])
    {
      if !RuleValid(rules[i]) {
        return false;
      }
    }
    valid := true;
  }

  method Desired(rules: seq<Rule>, family: int) returns (desired: seq<Rule>)
    ensures Elements(desired) == OfFamily(Elements(rules), family)
  {
    desired := [];
    for i := 0 to |rules|
      invariant forall r :: r in desired <==> r in rules[..i] && r.family == family
    {
      if rules[i].family == family {
        desired := desired + [rules[i]];
      }
    }
    assert rules[..|rules|] == rules;
  }
}
