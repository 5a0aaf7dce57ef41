/** What a host's firewall holds, what the ownership record says about it, and the single steps that a
    reconciliation takes: each step keeps the record complete, redirects covered and other rules alone. */
module FirewallWorld {
  import opened Plans

  datatype Backend = Ufw | Firewalld

  // One allow rule as the ownership record names it; the zone is empty for UFW.
  datatype Owned = Owned(backend: Backend, zone: string, rule: Rule)

  datatype Comment = Ours | AnotherNode | Manual

  datatype Entry = Entry(accepts: bool, comment: Comment)

  datatype Driver = NoDriver | Nftables | Iptables

  datatype Saved = Saved(owned: seq<Owned>, redirect: Driver, families: set<int>)

  // One address family's iptables chain, and how many times PREROUTING jumps to it.
  datatype Chain = Chain(rules: set<Rule>, jumps: nat)

  /** entries are the filter rules of both backends, mine says which of them this instance inserted,
      nft and the chains hold its redirects, and disk is the persisted record. */
  datatype World = World(
    entries: map<Owned, Entry>, mine: set<Owned>,
    nft: set<Rule>, chain4: Chain, chain6: Chain,
    disk: Saved)

  // A place where a packet must be let through: UFW, or one firewalld zone.
  datatype Gate = Gate(backend: Backend, zone: string)

  // ----- Redirects -----

  function Jumped(c: Chain): set<Rule> { if c.jumps > 0 then c.rules else {} }

  function Installed(w: World): set<Rule> { w.nft + Jumped(w.chain4) + Jumped(w.chain6) }

  function ChainOf(w: World, family: int): Chain { if family == 6 then w.chain6 else w.chain4 }

  function WithChain(w: World, family: int, c: Chain): World {
    if family == 6 then w.(chain6 := c) else w.(chain4 := c)
  }

  // The record names every driver, and for iptables every family, that has rules of ours.
  ghost predicate TablesNamed(w: World, s: Saved) {
    && (w.nft != {} ==> s.redirect.Nftables?)
    && (w.chain4.rules != {} ==> s.redirect.Iptables? && 4 in s.families)
    && (w.chain6.rules != {} ==> s.redirect.Iptables? && 6 in s.families)
  }

  // ----- Coverage -----

  ghost predicate Passes(w: World, g: Gate, p: Packet) {
    exists o <- w.entries :: o.backend == g.backend && o.zone == g.zone && w.entries[o].accepts && Matches(o.rule, p)
  }

  ghost predicate Backed(w: World, gates: set<Gate>, rules: set<Rule>) {
    forall g <- gates, r <- rules, p :: Matches(r, p) ==> Passes(w, g, p)
  }

  ghost predicate Covered(w: World, gates: set<Gate>) { Backed(w, gates, Installed(w)) }

  // ----- Ownership -----

  predicate Tagged(w: World) {
    && (forall o <- w.mine :: o in w.entries)
    && (forall o <- w.entries :: o.backend.Ufw? ==> o.zone == "" && (o in w.mine <==> w.entries[o].comment.Ours?))
    && (forall o <- w.entries :: o in w.mine || o.backend.Firewalld? ==> w.entries[o].accepts)
  }

  predicate NoDuplicates(owned: seq<Owned>) {
    forall i, j :: 0 <= i < j < |owned| ==> owned[i] != owned[j]
  }

  predicate RecordShape(s: Saved) {
    && NoDuplicates(s.owned) && s.families <= {4, 6}
    && forall o <- s.owned :: o.backend.Ufw? ==> o.zone == ""
  }

  // iptables cannot jump to a chain that does not exist.
  predicate ChainShape(c: Chain) { c.jumps > 0 ==> c.rules != {} }

  ghost predicate Sane(w: World) {
    && Tagged(w) && ChainShape(w.chain4) && ChainShape(w.chain6)
    && RecordShape(w.disk) && TablesNamed(w, w.disk)
  }

  ghost predicate Recorded(w: World) { forall o <- w.mine :: o in w.disk.owned }

  // The record lists no firewalld rule that somebody else inserted.
  ghost predicate Honest(w: World) {
    forall o <- w.disk.owned :: o.backend.Firewalld? && o in w.entries ==> o in w.mine
  }

  // Rules of others are as they were, but for firewalld rules that the given record lists and nobody wants.
  ghost predicate Spared(start: World, owned: seq<Owned>, wanted: set<Owned>, w: World) {
    forall o <- start.entries :: o !in start.mine && (o.backend.Ufw? || o !in owned || o in wanted) ==>
      o in w.entries && w.entries[o] == start.entries[o]
  }

  // Of the rules of others, exactly the firewalld rules that the record lists and nobody wants are gone.
  ghost predicate SparedExactly(start: World, owned: seq<Owned>, wanted: set<Owned>, w: World) {
    forall o <- start.entries :: o !in start.mine ==>
      (o !in w.entries <==> o.backend.Firewalld? && o in owned && o !in wanted)
  }

  /** One reconciliation: the world and the record it began with, the allow rules wanted at the gates in
      force, whether a save that reports an error left the file as it was, and whether firewalld listings
      show every rule. */
  datatype Context = Context(
    start: World, owned: seq<Owned>, wanted: set<Owned>, gates: set<Gate>, atomic: bool, exact: bool)

  ghost predicate Good(c: Context, w: World) {
    && Sane(w)
    && (c.atomic ==> Recorded(w))
    && (Covered(c.start, c.gates) ==> Covered(w, c.gates))
    && Spared(c.start, c.owned, c.wanted, w)
    && (c.atomic && c.exact && Honest(c.start) ==> Honest(w))
  }

  ghost predicate AllGood(c: Context, trace: seq<World>) { forall w <- trace :: Good(c, w) }

  // What the instance remembers agrees with the world.
  ghost predicate Linked(c: Context, w: World, s: Saved) {
    && RecordShape(s) && TablesNamed(w, s)
    && (forall o <- w.mine :: o in s.owned)
    && (c.atomic ==> w.disk.owned == s.owned)
  }

  // ----- The steps -----

  function Tag(b: Backend): Comment { if b.Ufw? then Ours else Manual }

  function Inserted(w: World, o: Owned): World {
    w.(entries := w.entries[o := Entry(true, Tag(o.backend))], mine := w.mine + {o})
  }

  function Deleted(w: World, o: Owned): World { w.(entries := w.entries - {o}, mine := w.mine - {o}) }

  // What one command or one save does: it rewrites the record, inserts or deletes a rule, or changes the
  // table or one chain.
  ghost predicate AtomicStep(w: World, w': World) {
    || w' == w.(disk := w'.disk)
    || (exists o :: w' == Inserted(w, o))
    || (exists o :: w' == Deleted(w, o))
    || w' == w.(nft := w'.nft)
    || w' == w.(chain4 := w'.chain4)
    || w' == w.(chain6 := w'.chain6)
  }

  lemma {:induction false} SaveKeeps(c: Context, w: World, s: Saved)
    requires Good(c, w) && RecordShape(s) && TablesNamed(w, s)
    requires c.atomic ==> forall o <- w.mine :: o in s.owned
    requires c.atomic && c.exact ==>
               forall o <- s.owned :: o.backend.Firewalld? && o in w.entries ==> o in w.mine || o in w.disk.owned
    ensures Good(c, w.(disk := s))
  {
  }

  // Inserting a rule is safe once the record on disk lists it, and only over nothing or over our own.
  lemma {:induction false} InsertKeeps(c: Context, w: World, o: Owned)
    requires Good(c, w) && Tagged(c.start) && (o.backend.Ufw? ==> o.zone == "")
    requires o !in w.entries || (o.backend.Ufw? && o in w.mine)
    requires c.atomic ==> o in w.disk.owned
    ensures Good(c, Inserted(w, o))
  {
    var w' := Inserted(w, o);
    forall g, p | Passes(w, g, p) ensures Passes(w', g, p) {
      var x :| x in w.entries && x.backend == g.backend && x.zone == g.zone && w.entries[x].accepts && Matches(x.rule, p);
      assert x in w'.entries && w'.entries[x].accepts;
    }
    assert Installed(w') == Installed(w);
  }

  // Deleting a rule of the record is safe once nothing installed needs it.
  lemma {:induction false} DeleteKeeps(c: Context, w: World, o: Owned)
    requires Good(c, w) && Tagged(c.start)
    requires if o.backend.Ufw? then o in w.mine else o in c.owned && o !in c.wanted
    requires Backed(Deleted(w, o), c.gates, Installed(w))
    ensures Good(c, Deleted(w, o))
  {
  }

  // Changing redirects is safe when the new ones are backed and the record on disk names their driver.
  lemma {:induction false} RetableKeeps(c: Context, w: World, w': World, news: set<Rule>)
    requires Good(c, w) && w' == w.(nft := w'.nft, chain4 := w'.chain4, chain6 := w'.chain6)
    requires ChainShape(w'.chain4) && ChainShape(w'.chain6) && TablesNamed(w', w.disk)
    requires Installed(w') <= Installed(w) + news && Backed(w, c.gates, news)
    ensures Good(c, w')
  {
  }

  ghost predicate Stepwise(trace: seq<World>) {
    forall i :: 0 <= i < |trace| - 1 ==> AtomicStep(trace[i], trace[i + 1])
  }

  // Every state passed through since the start, step by step and the present one last, is Good.
  ghost predicate History(c: Context, trace: seq<World>, w: World) {
    trace != [] && trace[0] == c.start && trace[|trace| - 1] == w && Stepwise(trace) && AllGood(c, trace)
  }

  lemma {:induction false} HistoryGrows(c: Context, trace: seq<World>, before: World, w: World)
    requires History(c, trace, before) && AtomicStep(before, w) && Good(c, w)
    ensures History(c, trace + [w], w)
  {
    hide AtomicStep, Good;
    var after := trace + [w];
    forall i | 0 <= i < |after| - 1 ensures AtomicStep(after[i], after[i + 1]) {
      assert i < |trace| - 1 ==> AtomicStep(trace[i], trace[i + 1]);
    }
  }

  // ----- What the record knows -----

  // A world, and what the instance remembers.
  datatype Situation = Situation(world: World, memory: Saved)

  // How a save ends: well, with an error and the old file, or with an error and the new one.
  datatype Fate = Done | Undone | HalfDone

  // After an error memory goes back to what it was.
  function Saving(at: Situation, s: Saved, fate: Fate): Situation {
    match fate
    case Done => Situation(at.world.(disk := s), s)
    case Undone => at
    case HalfDone => at.(world := at.world.(disk := s))
  }

  function Dropped(owned: seq<Owned>, o: Owned): seq<Owned> {
    if owned == [] then [] else if owned[0] == o then owned[1..] else [owned[0]] + Dropped(owned[1..], o)
  }

  function Remembering(at: Situation, o: Owned, fate: Fate): Situation {
    if o in at.memory.owned then at else Saving(at, at.memory.(owned := at.memory.owned + [o]), fate)
  }

  function Forgetting(at: Situation, o: Owned, fate: Fate): Situation {
    if o !in at.memory.owned then at else Saving(at, at.memory.(owned := Dropped(at.memory.owned, o)), fate)
  }

  // Naming a redirect driver stays in memory even when the save fails.
  function Naming(at: Situation, driver: Driver, families: set<int>, fate: Fate): Situation {
    var named := at.(memory := at.memory.(redirect := driver, families := families));
    if fate.Undone? then named else named.(world := named.world.(disk := named.memory))
  }

  function Inserting(at: Situation, o: Owned): Situation { at.(world := Inserted(at.world, o)) }

  function Deleting(at: Situation, o: Owned): Situation { at.(world := Deleted(at.world, o)) }

  lemma {:induction false} DroppedAt(owned: seq<Owned>, i: nat)
    requires i < |owned| && owned[i] !in owned[..i]
    ensures Dropped(owned, owned[i]) == owned[..i] + owned[i + 1..]
  {
    if i > 0 {
      assert owned[1..][..i - 1] == owned[..i][1..];
      DroppedAt(owned[1..], i - 1);
    }
  }

  lemma {:induction false} DroppedIs(owned: seq<Owned>, o: Owned)
    requires NoDuplicates(owned)
    ensures forall x :: x in Dropped(owned, o) <==> x in owned && x != o
    ensures NoDuplicates(Dropped(owned, o))
  {
    if owned != [] {
      DroppedIs(owned[1..], o);
      assert owned == [owned[0]] + owned[1..];
      assert forall x <- owned[1..] :: x != owned[0];
      assert owned[0] !in Dropped(owned[1..], o);
    }
  }

  // What ensuring a UFW rule does: adopt one of ours, release a manual one, or record and insert it.
  function EnsuredUfw(at: Situation, r: Rule, listed: bool): Situation {
    var o := UfwKey(r);
    if !listed then Inserting(Remembering(at, o, Done), o)
    else if o in at.world.entries && at.world.entries[o].comment.Ours? then Remembering(at, o, Done)
    else Forgetting(at, o, Done)
  }

  // Somebody else may have inserted a firewalld rule since the listing.
  function EnsuredFirewalld(at: Situation, o: Owned, listed: bool): Situation {
    if listed then at
    else if o in at.world.entries then Forgetting(Remembering(at, o, Done), o, Done)
    else Inserting(Remembering(at, o, Done), o)
  }

  function Released(at: Situation, o: Owned, present: bool): Situation {
    Forgetting(if present then Deleting(at, o) else at, o, Done)
  }

  /** If the rule was inserted, the record is complete exactly if memory did not claim the rule before, or the
      record was complete and the file listed the rule. */
  ghost predicate InsertedOnRecord(before: Situation, w: World, o: Owned) {
    o in w.mine && o !in before.world.mine ==>
      (Recorded(w) <==> o !in before.memory.owned || (Recorded(before.world) && o in before.world.disk.owned))
  }

  // An insertion after remembering is on record exactly if memory did not claim the rule, or the record was
  // complete and the file listed the rule.
  lemma {:induction false} InsertionRecordedIff(at: Situation, o: Owned)
    requires forall x <- at.world.mine :: x in at.memory.owned
    ensures Recorded(Inserting(Remembering(at, o, Done), o).world) <==>
            o !in at.memory.owned || (Recorded(at.world) && o in at.world.disk.owned)
  {
    assert o in Inserted(Remembering(at, o, Done).world, o).mine;
  }

  // ----- Who lists what -----

  datatype UfwRule = UfwRule(rule: Rule, accepts: bool, comment: Comment)

  function UfwKey(r: Rule): Owned { Owned(Ufw, "", r) }

  function ZoneKey(zone: string, r: Rule): Owned { Owned(Firewalld, zone, r) }

  predicate Lists(listing: seq<UfwRule>, r: Rule) { exists i :: 0 <= i < |listing| && listing[i].rule == r }

  /** A UFW listing taken earlier in the same reconciliation: what it shows is still so, and anything it
      does not show was inserted since, for a wanted rule. */
  ghost predicate UfwKnown(listing: seq<UfwRule>, w: World, wanted: set<Owned>) {
    && (forall i :: 0 <= i < |listing| ==>
          UfwKey(listing[i].rule) in w.entries
          && w.entries[UfwKey(listing[i].rule)] == Entry(listing[i].accepts, listing[i].comment))
    && (forall o <- w.entries :: o.backend.Ufw? ==> Lists(listing, o.rule) || (o in w.mine && o in wanted))
  }

  /** A firewalld listing shows all rules of ours and nothing that is absent; others may have inserted
      rules since, unless listings are exact. */
  ghost predicate ZoneKnown(zone: string, rules: set<Rule>, w: World, exact: bool) {
    && (forall o <- w.entries :: o.backend.Firewalld? && o.zone == zone && (exact || o in w.mine) ==> o.rule in rules)
    && (forall r <- rules :: ZoneKey(zone, r) in w.entries)
  }

  ghost predicate ZonesKnown(shown: map<string, set<Rule>>, w: World, exact: bool) {
    forall zone <- shown :: ZoneKnown(zone, shown[zone], w, exact)
  }

  function Elements(rules: seq<Rule>): set<Rule> { set r | r in rules }

  function OfFamily(rules: set<Rule>, family: int): set<Rule> { set r | r in rules && r.family == family }

  // Every rule of the list is accepted at the gate.
  ghost predicate Accepted(w: World, g: Gate, rules: seq<Rule>) {
    forall r <- rules :: Owned(g.backend, g.zone, r) in w.entries && w.entries[Owned(g.backend, g.zone, r)].accepts
  }

  ghost predicate AcceptedAtAll(w: World, gates: set<Gate>, rules: seq<Rule>) {
    forall g <- gates :: Accepted(w, g, rules)
  }

  // Our own rules, as a UFW listing shows them.
  predicate ShownAsOurs(listing: seq<UfwRule>, r: Rule) { UfwRule(r, true, Ours) in listing }

  // The rules that every gate in force should have.
  function Wanted(gates: set<Gate>, allows: seq<Rule>): set<Owned> {
    set g, r | g in gates && r in allows :: Owned(g.backend, g.zone, r)
  }

  lemma {:induction false} NothingWanted(owned: seq<Owned>, gates: set<Gate>)
    ensures owned == [] || exists o <- owned :: o !in Wanted(gates, [])
  {
    if owned != [] {
      assert owned[0] in owned;
    }
  }

  // Redirects stay, and rules that let packets through still do.
  ghost predicate Grown(w: World, w': World) {
    && w'.nft == w.nft && w'.chain4 == w.chain4 && w'.chain6 == w.chain6
    && forall o <- w.entries :: o in w'.entries && (w.entries[o].accepts ==> w'.entries[o].accepts)
  }

  // Growth that leaves UFW and every other zone as they were.
  ghost predicate ZoneGrown(zone: string, w: World, w': World) {
    && Grown(w, w') && w.mine <= w'.mine
    && (forall o <- w.entries :: o.backend.Ufw? ==> w'.entries[o] == w.entries[o])
    && (forall o <- w'.entries :: o.backend.Ufw? || o.zone != zone ==>
          o in w.entries && w'.entries[o] == w.entries[o] && (o in w'.mine ==> o in w.mine))
  }

  lemma {:induction false} AddedGrows(w: World, w': World, o: Owned)
    requires Added(w, w', o)
    ensures Grown(w, w') && (o.backend.Firewalld? ==> ZoneGrown(o.zone, w, w'))
  {
  }

  lemma {:induction false} AcceptedStep(w: World, w': World, g: Gate, rules: seq<Rule>, i: nat)
    requires i < |rules| && Accepted(w, g, rules[..i]) && Grown(w, w') && Accepted(w', g, [rules[i]])
    ensures Accepted(w', g, rules[..i + 1])
  {
  }

  lemma {:induction false} AcceptedStays(w: World, w': World, g: Gate, rules: seq<Rule>)
    requires Accepted(w, g, rules) && Grown(w, w')
    ensures Accepted(w', g, rules)
  {
  }

  lemma {:induction false} NothingToAccept(w: World, g: Gate)
    ensures Accepted(w, g, [])
  {
  }

  lemma {:induction false} WantedHas(g: Gate, gates: set<Gate>, allows: seq<Rule>, r: Rule)
    requires g in gates && r in allows
    ensures Owned(g.backend, g.zone, r) in Wanted(gates, allows)
  {
  }

  lemma {:induction false} KnownForMore(listing: seq<UfwRule>, w: World, some: set<Owned>, wanted: set<Owned>)
    requires UfwKnown(listing, w, some) && some <= wanted
    ensures UfwKnown(listing, w, wanted)
  {
  }

  lemma {:induction false} WantedJoins(a: set<Gate>, b: set<Gate>, allows: seq<Rule>)
    ensures Wanted(a, allows) + Wanted(b, allows) == Wanted(a + b, allows)
  {
  }

  lemma {:induction false} AllStay(w: World, w': World, gates: set<Gate>, allows: seq<Rule>)
    requires AcceptedAtAll(w, gates, allows) && Grown(w, w')
    ensures AcceptedAtAll(w', gates, allows)
  {
  }

  lemma {:induction false} GrownOn(a: World, b: World, c: World)
    ensures Grown(a, a)
    ensures Grown(a, b) && Grown(b, c) ==> Grown(a, c)
  {
  }

  lemma {:induction false} WantedWithin(some: set<Gate>, gates: set<Gate>, allows: seq<Rule>)
    requires some <= gates
    ensures Wanted(some, allows) <= Wanted(gates, allows)
  {
  }

  lemma {:induction false} NoGates(w: World, allows: seq<Rule>, exact: bool)
    ensures Wanted({}, allows) == {} && ZonesKnown(map[], w, exact)
    ensures forall gates :: Wanted(gates, []) == {} && AcceptedAtAll(w, gates, [])
  {
  }

  lemma {:induction false} UfwKnownStays(listing: seq<UfwRule>, w: World, w': World, zone: string, wanted: set<Owned>)
    requires UfwKnown(listing, w, wanted) && ZoneGrown(zone, w, w')
    ensures UfwKnown(listing, w', wanted)
  {
  }

  lemma {:induction false} ZonesKnownStay(
    shown: map<string, set<Rule>>, w: World, w': World, zone: string, exact: bool)
    requires ZonesKnown(shown, w, exact) && ZoneGrown(zone, w, w')
    ensures ZonesKnown(shown - {zone}, w', exact)
  {
  }

  // At most the one rule is gone, and the record on disk may have changed.
  ghost predicate Taken(w: World, w': World, o: Owned) {
    w' == w.(disk := w'.disk) || w' == Deleted(w, o).(disk := w'.disk)
  }

  lemma {:induction false} ZonesKnownWith(
    shown: map<string, set<Rule>>, zone: string, rules: set<Rule>, w: World, exact: bool)
    requires ZonesKnown(shown - {zone}, w, exact) && ZoneKnown(zone, rules, w, exact)
    ensures ZonesKnown(shown[zone := rules], w, exact)
  {
    var all := shown[zone := rules];
    forall z | z in all ensures ZoneKnown(z, all[z], w, exact) {
      assert z == zone || z in shown - {zone};
    }
  }

  lemma {:induction false} OtherZonesKnown(
    shown: map<string, set<Rule>>, w: World, w': World, o: Owned, exact: bool)
    requires ZonesKnown(shown, w, exact) && Taken(w, w', o) && o.backend.Firewalld?
    ensures ZonesKnown(shown - {o.zone}, w', exact)
  {
  }

  // At most the one rule was inserted, and the record on disk may have changed.
  ghost predicate Added(w: World, w': World, o: Owned) {
    w' == w.(disk := w'.disk) || w' == Inserted(w, o).(disk := w'.disk)
  }

  // A plan allows what it redirects.
  ghost predicate Allowing(allows: seq<Rule>, redirects: seq<Rule>) {
    forall r <- redirects, p :: Matches(r, p) ==> exists a <- allows :: Matches(a, p)
  }

  lemma {:induction false} AllowsBack(w: World, gates: set<Gate>, allows: seq<Rule>, redirects: seq<Rule>)
    requires AcceptedAtAll(w, gates, allows) && Allowing(allows, redirects)
    ensures Backed(w, gates, Elements(redirects))
  {
  }

  // What the listing says of the given UFW rules is still right.
  ghost predicate ShownRight(listing: seq<UfwRule>, w: World, owned: seq<Owned>, wanted: set<Owned>) {
    forall o <- owned :: o.backend.Ufw? && o !in wanted ==> (o in w.mine <==> ShownAsOurs(listing, o.rule))
  }

  lemma {:induction false} KnownIsRight(listing: seq<UfwRule>, w: World, owned: seq<Owned>, wanted: set<Owned>)
    requires Tagged(w) && UfwKnown(listing, w, wanted)
    requires forall o <- owned :: o.backend.Ufw? ==> o.zone == ""
    ensures ShownRight(listing, w, owned, wanted)
  {
  }

  lemma {:induction false} NoUfwIsRight(
    listing: seq<UfwRule>, w: World, owned: seq<Owned>, wanted: set<Owned>, before: seq<Owned>)
    requires forall o <- before :: !o.backend.Ufw?
    requires forall o <- owned :: o in before || o in wanted
    ensures ShownRight(listing, w, owned, wanted)
  {
  }

  // Deleting what no gate wants leaves every wanted rule, and so every redirect backed.
  lemma {:induction false} UnwantedIsUnneeded(w: World, gates: set<Gate>, allows: seq<Rule>, redirects: seq<Rule>, o: Owned)
    requires AcceptedAtAll(w, gates, allows) && Allowing(allows, redirects) && o !in Wanted(gates, allows)
    ensures AcceptedAtAll(Deleted(w, o), gates, allows)
    ensures Backed(Deleted(w, o), gates, Elements(redirects))
  {
  }

  lemma {:induction false} TakenLeaves(w: World, w': World, o: Owned, gates: set<Gate>, allows: seq<Rule>)
    requires Taken(w, w', o) && AcceptedAtAll(w, gates, allows) && AcceptedAtAll(Deleted(w, o), gates, allows)
    ensures AcceptedAtAll(w', gates, allows)
  {
  }

  lemma {:induction false} OthersShownRight(
    listing: seq<UfwRule>, w: World, w': World, owned: seq<Owned>, i: nat, wanted: set<Owned>)
    requires i < |owned| && NoDuplicates(owned) && Taken(w, w', owned[i])
    requires ShownRight(listing, w, owned[i..], wanted)
    ensures ShownRight(listing, w', owned[i + 1..], wanted)
  {
  }

  lemma {:induction false} RetabledKeeps(
    w: World, w': World, gates: set<Gate>, allows: seq<Rule>, shown: map<string, set<Rule>>, exact: bool,
    listing: seq<UfwRule>, owned: seq<Owned>, wanted: set<Owned>)
    requires w'.entries == w.entries && w'.mine == w.mine
    requires AcceptedAtAll(w, gates, allows) && ZonesKnown(shown, w, exact) && ShownRight(listing, w, owned, wanted)
    ensures AcceptedAtAll(w', gates, allows) && ZonesKnown(shown, w', exact) && ShownRight(listing, w', owned, wanted)
  {
  }

  // ----- Between reconciliations -----

  // Other programs and administrators may add, change and remove rules, also such as the record lists, and
  // drop our tables, but do not forge our UFW comment.
  predicate Interfered(w: World, w': World) {
    && w'.disk == w.disk && w'.mine <= w.mine && Tagged(w')
    && ChainShape(w'.chain4) && ChainShape(w'.chain6)
    && (w'.nft != {} ==> w.nft != {}) && (w'.chain4.rules != {} ==> w.chain4.rules != {})
    && (w'.chain6.rules != {} ==> w.chain6.rules != {})
  }

  lemma {:induction false} InterferenceKeeps(w: World, w': World)
    requires Sane(w) && Recorded(w) && Interfered(w, w')
    ensures Sane(w') && Recorded(w')
  {
  }
}
