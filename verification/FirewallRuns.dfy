/** Whole lives of an instance: reconciliations, stops in the middle of one, restarts with another
    configuration, and other programs changing the firewall in between. */
module FirewallRuns {
  import opened Plans
  import opened FirewallWorld
  import opened Firewall

  // What an instance that starts now reads from disk is all it needs to know.
  lemma {:induction false} RestartIsSound(c: Context, w: World)
    requires c.atomic && Good(c, w)
    ensures Sane(w) && Recorded(w) && Linked(c, w, w.disk)
    ensures c.exact && Honest(c.start) ==> Honest(w)
  {
  }

  // While the record lists no rule of others, no rule of others is changed or removed, and in no case one
  // that is wanted.
  lemma {:induction false} OthersAreUntouched(c: Context, w: World, o: Owned)
    requires Good(c, w) && c.owned == c.start.disk.owned && (Honest(c.start) || o in c.wanted)
    requires o in c.start.entries && o !in c.start.mine
    ensures o in w.entries && w.entries[o] == c.start.entries[o]
  {
  }

  // ----- Saves that fail after replacing the file -----

  // The steps that ensuring and releasing rules, naming a driver and starting again are made of.
  datatype Op =
    | Remembers(o: Owned, fate: Fate)
    | Inserts(o: Owned)
    | Deletes(o: Owned)
    | Forgets(o: Owned, fate: Fate)
    | Names(driver: Driver, families: set<int>, fate: Fate)
    | Reads

  function Performed(at: Situation, op: Op): Situation {
    match op
    case Remembers(o, fate) => Remembering(at, o, fate)
    case Inserts(o) => Inserting(at, o)
    case Deletes(o) => Deleting(at, o)
    case Forgets(o, fate) => Forgetting(at, o, fate)
    case Names(driver, families, fate) => Naming(at, driver, families, fate)
    case Reads => at.(memory := at.world.disk)
  }

  // Only remembered rules are inserted, and only rules that are gone are forgotten.
  predicate Allowed(at: Situation, op: Op) {
    (op.Inserts? ==> op.o in at.memory.owned) && (op.Forgets? ==> op.o !in at.world.mine)
  }

  function RunOf(at: Situation, ops: seq<Op>): Situation {
    if ops == [] then at else Performed(RunOf(at, ops[..|ops| - 1]), ops[|ops| - 1])
  }

  ghost predicate Legal(at: Situation, ops: seq<Op>) {
    forall i :: 0 <= i < |ops| ==> Allowed(RunOf(at, ops[..i]), ops[i])
  }

  // Memory and file agree and list every rule of ours.
  ghost predicate InOrder(at: Situation) {
    at.memory == at.world.disk && Recorded(at.world) && NoDuplicates(at.memory.owned)
  }

  function LostBy(at: Situation, before: set<Owned>, op: Op): set<Owned> {
    match op
    case Remembers(o, fate) => if o in at.memory.owned || fate.Undone? then before else {}
    case Forgets(o, fate) =>
      if o !in at.memory.owned || fate.Undone? then before else if fate.HalfDone? then {o} else {}
    case Names(_, _, fate) => if fate.Undone? then before else {}
    case Reads => {}
    case _ => before
  }

  // The rule whose forgetting failed after the file was replaced, unless the file was replaced or read since.
  function Lost(at: Situation, ops: seq<Op>): set<Owned> {
    if ops == [] then {}
    else
      var init := ops[..|ops| - 1];
      LostBy(RunOf(at, init), Lost(at, init), ops[|ops| - 1])
  }

  // What the file does not list although memory does.
  ghost predicate Misses(at: Situation, lost: set<Owned>) {
    && NoDuplicates(at.memory.owned) && NoDuplicates(at.world.disk.owned)
    && forall o :: o in lost <==> o in at.memory.owned && o !in at.world.disk.owned
  }

  ghost predicate Remembered(at: Situation) { forall o <- at.world.mine :: o in at.memory.owned }

  lemma {:induction false} MissesStep(at: Situation, lost: set<Owned>, op: Op)
    requires Misses(at, lost)
    ensures Misses(Performed(at, op), LostBy(at, lost, op))
  {
    if op.Forgets? {
      DroppedIs(at.memory.owned, op.o);
    }
  }

  /** In every run the file misses an entry of memory exactly if forgetting it failed after the file was
      replaced, and the file was neither replaced nor read since. */
  lemma {:induction false} MissesExactly(at: Situation, ops: seq<Op>)
    requires InOrder(at)
    ensures Misses(RunOf(at, ops), Lost(at, ops))
    decreases |ops|
  {
    hide Misses, LostBy, Performed;
    if ops == [] {
      OrderMissesNothing(at);
    } else {
      var init := ops[..|ops| - 1];
      MissesExactly(at, init);
      MissesStep(RunOf(at, init), Lost(at, init), ops[|ops| - 1]);
    }
  }

  lemma {:induction false} OrderMissesNothing(at: Situation)
    requires InOrder(at)
    ensures Misses(at, {}) && Remembered(at) && Recorded(at.world)
  {
  }

  lemma {:induction false} LegalBefore(at: Situation, ops: seq<Op>)
    requires Legal(at, ops) && ops != []
    ensures Legal(at, ops[..|ops| - 1]) && Allowed(RunOf(at, ops[..|ops| - 1]), ops[|ops| - 1])
  {
    var init := ops[..|ops| - 1];
    forall i | 0 <= i < |init| ensures Allowed(RunOf(at, init[..i]), init[i]) {
      assert init[..i] == ops[..i];
    }
  }

  // A step keeps a complete record complete unless it inserts a lost rule.
  lemma {:induction false} RecordedStepIff(at: Situation, lost: set<Owned>, op: Op)
    requires Misses(at, lost) && Remembered(at) && Allowed(at, op) && Recorded(at.world)
    ensures Remembered(Performed(at, op))
    ensures Recorded(Performed(at, op).world) <==> !(op.Inserts? && op.o in lost)
  {
    if op.Forgets? {
      DroppedIs(at.memory.owned, op.o);
    }
    if op.Inserts? {
      assert op.o in Performed(at, op).world.mine;
    }
  }

  ghost predicate AlwaysRecorded(at: Situation, ops: seq<Op>) {
    forall i :: 0 <= i <= |ops| ==> Recorded(RunOf(at, ops[..i]).world)
  }

  lemma {:induction false} AlwaysBefore(at: Situation, ops: seq<Op>)
    requires ops != []
    ensures AlwaysRecorded(at, ops) <==> AlwaysRecorded(at, ops[..|ops| - 1]) && Recorded(RunOf(at, ops).world)
  {
    hide RunOf, Recorded;
    var init := ops[..|ops| - 1];
    assert ops[..|ops|] == ops;
    assert forall i :: 0 <= i <= |init| ==> init[..i] == ops[..i];
    if AlwaysRecorded(at, ops) {
      forall i | 0 <= i <= |init| ensures Recorded(RunOf(at, init[..i]).world) {
        assert Recorded(RunOf(at, ops[..i]).world);
      }
    }
    if AlwaysRecorded(at, init) && Recorded(RunOf(at, ops).world) {
      forall i | 0 <= i <= |ops| ensures Recorded(RunOf(at, ops[..i]).world) {
        assert i < |ops| ==> Recorded(RunOf(at, init[..i]).world);
      }
    }
  }

  ghost predicate InsertsLost(at: Situation, ops: seq<Op>) {
    exists i :: 0 <= i < |ops| && ops[i].Inserts? && ops[i].o in Lost(at, ops[..i])
  }

  lemma {:induction false} InsertsLostBefore(at: Situation, ops: seq<Op>)
    requires ops != []
    ensures var n := |ops| - 1;
            InsertsLost(at, ops) <==>
              InsertsLost(at, ops[..n]) || (ops[n].Inserts? && ops[n].o in Lost(at, ops[..n]))
  {
    hide Lost;
    var n := |ops| - 1;
    assert forall i :: 0 <= i < n ==> ops[..n][..i] == ops[..i];
    if InsertsLost(at, ops) {
      var i :| 0 <= i < |ops| && ops[i].Inserts? && ops[i].o in Lost(at, ops[..i]);
      assert i < n ==> ops[..n][i].o in Lost(at, ops[..n][..i]);
    }
    if InsertsLost(at, ops[..n]) {
      var i :| 0 <= i < n && ops[..n][i].Inserts? && ops[..n][i].o in Lost(at, ops[..n][..i]);
      assert ops[i].o in Lost(at, ops[..i]);
    }
  }

  /** In every run the record stays complete exactly if no rule is inserted whose forgetting failed after the
      file was replaced, with the file neither replaced nor read since. */
  lemma {:induction false} AlwaysRecordedIff(at: Situation, ops: seq<Op>)
    requires InOrder(at) && Legal(at, ops)
    ensures AlwaysRecorded(at, ops) <==> !InsertsLost(at, ops)
    ensures AlwaysRecorded(at, ops) ==> Remembered(RunOf(at, ops))
    decreases |ops|
  {
    hide Misses, Remembered, Lost, Recorded, Performed;
    if ops == [] {
      OrderMissesNothing(at);
    } else {
      var init := ops[..|ops| - 1];
      LegalBefore(at, ops);
      AlwaysRecordedIff(at, init);
      MissesExactly(at, init);
      AlwaysBefore(at, ops);
      InsertsLostBefore(at, ops);
      if AlwaysRecorded(at, init) {
        assert init[..|init|] == init && Recorded(RunOf(at, init[..|init|]).world);
        RecordedStepIff(RunOf(at, init), Lost(at, init), ops[|ops| - 1]);
      }
    }
  }

  lemma {:induction false} NothingLost(at: Situation, ops: seq<Op>)
    requires forall op <- ops :: op.Forgets? ==> !op.fate.HalfDone?
    ensures Lost(at, ops) == {}
    decreases |ops|
  {
    if ops != [] {
      NothingLost(at, ops[..|ops| - 1]);
    }
  }

  /** When a failing save leaves the file alone the record is complete in every run. */
  lemma {:induction false} AtomicSavesKeepRecord(at: Situation, ops: seq<Op>)
    requires InOrder(at) && Legal(at, ops) && forall op <- ops :: op.Forgets? ==> !op.fate.HalfDone?
    ensures AlwaysRecorded(at, ops)
  {
    hide Lost;
    AlwaysRecordedIff(at, ops);
    forall i | 0 <= i < |ops| ensures Lost(at, ops[..i]) == {} {
      NothingLost(at, ops[..i]);
    }
  }

  lemma {:induction false} OneMoreOp(at: Situation, ops: seq<Op>, i: nat, now: Situation)
    requires i < |ops| && Legal(at, ops[..i]) && RunOf(at, ops[..i]) == now && Allowed(now, ops[i])
    ensures Legal(at, ops[..i + 1]) && RunOf(at, ops[..i + 1]) == Performed(now, ops[i])
  {
    hide Performed, Allowed;
    var all := ops[..i + 1];
    assert all[..i] == ops[..i];
    forall k | 0 <= k < |all| ensures Allowed(RunOf(at, all[..k]), all[k]) {
      assert k < i ==> all[..k] == ops[..i][..k];
    }
  }

  function EmptyHost(s: Saved): World { World(map[], {}, {}, Chain({}, 0), Chain({}, 0), s) }

  function Listing(o: Owned): Saved { Saved([o], NoDriver, {}) }

  // The six steps from an empty host, one by one.
  lemma {:induction false} LosingSteps(o: Owned)
    ensures var empty := Saved([], NoDriver, {});
            var at := Situation(EmptyHost(empty), empty);
            var listed := Situation(EmptyHost(Listing(o)), Listing(o));
            var inserted, lost := Inserting(listed, o), Situation(EmptyHost(empty), Listing(o));
            && Performed(at, Remembers(o, Done)) == listed && Allowed(at, Remembers(o, Done))
            && Performed(listed, Inserts(o)) == inserted && Allowed(listed, Inserts(o))
            && Performed(inserted, Deletes(o)) == listed && Allowed(inserted, Deletes(o))
            && Performed(listed, Forgets(o, HalfDone)) == lost && Allowed(listed, Forgets(o, HalfDone))
            && Performed(lost, Remembers(o, Done)) == lost && Allowed(lost, Remembers(o, Done))
            && Performed(lost, Inserts(o)) == Inserting(lost, o) && Allowed(lost, Inserts(o))
            && InOrder(at) && !Recorded(Inserting(lost, o).world)
  {
    assert o in Inserting(Situation(EmptyHost(Saved([], NoDriver, {})), Listing(o)), o).world.mine;
  }

  function LosingRun(o: Owned): seq<Op> {
    [Remembers(o, Done), Inserts(o), Deletes(o), Forgets(o, HalfDone), Remembers(o, Done), Inserts(o)]
  }

  lemma {:induction false} LosingRunIs(o: Owned)
    ensures var ops := LosingRun(o);
            && |ops| == 6 && ops[..0] == [] && ops[..6] == ops
            && ops[0] == ops[4] == Remembers(o, Done) && ops[1] == ops[5] == Inserts(o)
            && ops[2] == Deletes(o) && ops[3] == Forgets(o, HalfDone)
  {
  }

  /** Such a run exists: a rule is inserted and deleted, forgetting it fails after the file was replaced, and
      the next insertion of the rule finds it in memory and nothing to save. */
  lemma {:induction false} HalfFailedSaveLosesARule(o: Owned)
    ensures var at := Situation(EmptyHost(Saved([], NoDriver, {})), Saved([], NoDriver, {}));
            InOrder(at) && Legal(at, LosingRun(o)) && !Recorded(RunOf(at, LosingRun(o)).world)
  {
    var empty := Saved([], NoDriver, {});
    var at := Situation(EmptyHost(empty), empty);
    var listed := Situation(EmptyHost(Listing(o)), Listing(o));
    var lost := Situation(EmptyHost(empty), Listing(o));
    assert Legal(at, []) && RunOf(at, []) == at;
    hide *;
    LosingSteps(o);
    LosingRunIs(o);
    var ops := LosingRun(o);
    OneMoreOp(at, ops, 0, at);
    OneMoreOp(at, ops, 1, listed);
    OneMoreOp(at, ops, 2, Inserting(listed, o));
    OneMoreOp(at, ops, 3, listed);
    OneMoreOp(at, ops, 4, lost);
    OneMoreOp(at, ops, 5, lost);
  }

  // ----- Lives -----

  datatype Event =
    | Reconciles(allows: seq<Rule>, redirects: seq<Rule>)
    | StopsWithin(allows: seq<Rule>, redirects: seq<Rule>, step: nat, cfg: Config)
    | Restarts(cfg: Config)
    | OthersChange(world: World, site: Site)

  // Where a life stands between events; memory is what the instance remembers.
  datatype Point = Point(cfg: Config, site: Site, world: World, memory: Saved)

  /** What one event did: the states from the point before it, in order. A reconciliation that is stopped
      would have passed through all of them, and ended in the one at `last`. left is what the instance
      remembers afterwards, if it goes on. */
  datatype Passage = Passage(before: Point, passed: seq<World>, last: nat, ok: bool, faulty: bool, left: Saved)

  predicate Proper(p: Passage) { p.last < |p.passed| && p.passed[0] == p.before.world }

  // Where the event leads: an instance that stopped or restarts has the new configuration.
  function After(e: Event, p: Passage): Point
    requires Proper(p)
  {
    var w := p.passed[p.last];
    match e
    case Reconciles(_, _) => Point(p.before.cfg, p.before.site, w, p.left)
    case StopsWithin(_, _, _, cfg) => Point(cfg, p.before.site, w, w.disk)
    case Restarts(cfg) => Point(cfg, p.before.site, w, w.disk)
    case OthersChange(world, site) => Point(p.before.cfg, if p.last > 0 then site else p.before.site, w, p.before.memory)
  }

  // A reconciliation from a point: every state of it is Good, and it succeeds or something has failed.
  ghost predicate Ran(p: Passage, allows: seq<Rule>, redirects: seq<Rule>) {
    var w, n := p.before.world, |p.passed| - 1;
    var wanted := WantedAt(p.before.cfg, p.before.site, allows);
    var c := Context(w, w.disk.owned, wanted, Gates(p.before.cfg, p.before.site), true, true);
    && n >= 0 && History(c, p.passed, p.passed[n])
    && (p.ok ==> Settled(p.before.cfg, p.before.site, p.passed[n], p.passed[n].disk.owned, allows, redirects)
                 && SparedExactly(w, w.disk.owned, wanted, p.passed[n]))
    && (!p.ok ==> p.faulty || Hopeless(p, allows, redirects))
    && (p.ok ==> !Hopeless(p, allows, redirects))
  }

  // Something is in the way, or a command is not installed.
  ghost predicate Hopeless(p: Passage, allows: seq<Rule>, redirects: seq<Rule>) {
    || Unreconcilable(p.before.cfg, p.before.site, p.before.world, allows, redirects, p.before.world.disk.owned)
    || ToolMissing(p.before.cfg, p.before.site, p.before.memory, Families(redirects))
  }

  ghost predicate Happened(e: Event, p: Passage) {
    Proper(p) &&
    match e
    case Reconciles(allows, redirects) => Ran(p, allows, redirects) && p.last == |p.passed| - 1
    case StopsWithin(allows, redirects, step, _) =>
      Ran(p, allows, redirects) && p.last == if step < |p.passed| then step else |p.passed| - 1
    case Restarts(_) => |p.passed| == 1
    case OthersChange(world, _) =>
      p.passed == (if Interfered(p.before.world, world) then [p.before.world, world] else [p.before.world])
      && p.last == |p.passed| - 1
  }

  // The passages follow the events, each from where the one before it led, from start to end.
  ghost predicate Life(start: Point, events: seq<Event>, passages: seq<Passage>, end: Point) {
    && |passages| == |events|
    && (forall i :: 0 <= i < |events| ==> Happened(events[i], passages[i]))
    && (forall i :: 0 <= i < |events| - 1 ==> passages[i + 1].before == After(events[i], passages[i]))
    && if events == [] then start == end
       else start == passages[0].before && end == After(events[|events| - 1], passages[|events| - 1])
  }

  lemma {:induction false} IsProper(e: Event, p: Passage)
    requires Happened(e, p)
    ensures Proper(p)
  {
  }

  lemma {:induction false} LifeGoesOn(
    start: Point, events: seq<Event>, passages: seq<Passage>, end: Point, e: Event, p: Passage)
    requires Life(start, events, passages, end) && Happened(e, p) && p.before == end
    ensures Life(start, events + [e], passages + [p], After(e, p))
  {
    hide Happened;
    var all, ps := events + [e], passages + [p];
    forall i | 0 <= i < |all| ensures Happened(all[i], ps[i]) {
      assert i < |events| ==> Happened(events[i], passages[i]);
    }
    forall i | 0 <= i < |all| - 1 ensures Proper(ps[i]) && ps[i + 1].before == After(all[i], ps[i]) {
      IsProper(events[i], passages[i]);
      assert i < |events| - 1 ==> passages[i + 1].before == After(events[i], passages[i]);
    }
  }

  ghost predicate Sound(w: World) { Sane(w) && Recorded(w) }

  ghost predicate AllSound(passages: seq<Passage>) {
    forall i :: 0 <= i < |passages| ==> SoundWithin(passages[i])
  }

  ghost predicate SoundWithin(p: Passage) { forall w <- p.passed :: Sound(w) }

  ghost predicate HonestWithin(p: Passage) { forall w <- p.passed :: Honest(w) }

  /** The record comes to list a rule of others only when others insert a rule that it lists: as long as none
      of their changes leaves it so, it never does. */
  lemma {:induction false} StaysHonest(start: Point, events: seq<Event>, passages: seq<Passage>, end: Point, i: nat)
    requires Life(start, events, passages, end) && Honest(start.world) && i < |events|
    requires forall k :: 0 <= k <= i && events[k].OthersChange? ==> HonestWithin(passages[k])
    ensures HonestWithin(passages[i])
  {
    hide Ran, Honest;
    var e, p := events[i], passages[i];
    assert Happened(e, p);
    if i > 0 {
      StaysHonest(start, events, passages, end, i - 1);
      assert Happened(events[i - 1], passages[i - 1]);
      assert p.before == After(events[i - 1], passages[i - 1]);
    }
    assert Honest(p.before.world);
    if e.Reconciles? || e.StopsWithin? {
      RanHonest(p, e.allows, e.redirects);
    }
  }

  lemma {:induction false} RanHonest(p: Passage, allows: seq<Rule>, redirects: seq<Rule>)
    requires Ran(p, allows, redirects) && Honest(p.before.world)
    ensures HonestWithin(p)
  {
  }

  function Faulty(passages: seq<Passage>): nat {
    if passages == [] then 0
    else Faulty(passages[..|passages| - 1]) + if passages[|passages| - 1].faulty then 1 else 0
  }

  lemma {:induction false} NothingYet(start: Point)
    ensures Life(start, [], [], start) && AllSound([])
  {
  }

  lemma {:induction false} OneMoreSound(passages: seq<Passage>, p: Passage)
    requires AllSound(passages) && SoundWithin(p)
    ensures AllSound(passages + [p])
  {
  }

  // An instance that has read a sound record can begin.
  lemma {:induction false} CanBegin(backend: SystemBackend)
    requires backend.state == backend.host.world.disk && Sound(backend.host.world)
    ensures backend.AtRest()
  {
  }

  lemma {:induction false} RanSound(p: Passage, allows: seq<Rule>, redirects: seq<Rule>)
    requires Ran(p, allows, redirects) && Sound(p.before.world)
    ensures SoundWithin(p) && p.passed[0] == p.before.world
    ensures forall last: nat :: Ran(p.(last := last), allows, redirects)
  {
  }

  method RunFrom(backend: SystemBackend, allows: seq<Rule>, redirects: seq<Rule>) returns (ghost p: Passage)
    requires backend.AtRest() && backend.host.atomicSave && backend.host.exactListing && Allowing(allows, redirects)
    modifies backend`state, backend.host`world, backend.host`trace, backend.host`faults
    ensures backend.AtRest() && Ran(p, allows, redirects)
    ensures p.before == Point(backend.cfg, backend.host.site, old(backend.host.world), old(backend.state))
    ensures p.left == backend.state && p.passed == backend.host.trace != [] && p.last == |p.passed| - 1 && p.passed[p.last] == backend.host.world
    ensures backend.host.faults >= old(backend.host.faults) + if p.faulty then 1 else 0
  {
    hide Settled, SparedExactly, Unreconcilable, ToolMissing, Good, Stepwise, Allowing;
    ghost var before, faults := Point(backend.cfg, backend.host.site, backend.host.world, backend.state), backend.host.faults;
    var ok := backend.Apply(allows, redirects);
    p := Passage(before, backend.host.trace, |backend.host.trace| - 1, ok, backend.host.faults > faults, backend.state);
  }

  method LiveThrough(backend: SystemBackend, e: Event) returns (ghost p: Passage, next: SystemBackend)
    requires backend.AtRest() && backend.host.atomicSave && backend.host.exactListing && Sound(backend.host.world)
    requires e.Reconciles? || e.StopsWithin? ==> Allowing(e.allows, e.redirects)
    modifies backend, backend.host
    ensures next.AtRest() && next.host == backend.host && (next == backend || fresh(next))
    ensures p.before == Point(backend.cfg, old(backend.host.site), old(backend.host.world), old(backend.state))
    ensures Happened(e, p) && After(e, p) == Point(next.cfg, backend.host.site, backend.host.world, next.state)
    ensures SoundWithin(p) && Sound(backend.host.world)
    ensures backend.host.faults >= old(backend.host.faults) + if p.faulty then 1 else 0
  {
    hide Ran, Sound, Allowing, SystemBackend.AtRest, Interfered;
    var host := backend.host;
    next := backend;
    match e {
      case Reconciles(allows, redirects) =>
        p := RunFrom(backend, allows, redirects);
        RanSound(p, allows, redirects);
        assert p.passed[p.last] in p.passed;
      case StopsWithin(allows, redirects, step, cfg) =>
        p := RunFrom(backend, allows, redirects);
        RanSound(p, allows, redirects);
        p := p.(last := if step < |p.passed| then step else |p.passed| - 1);
        assert p.passed[p.last] in p.passed;
        host.world := host.trace[if step < |host.trace| then step else |host.trace| - 1];
        next := new SystemBackend(host, cfg);
        CanBegin(next);
      case Restarts(cfg) =>
        p := Passage(Point(backend.cfg, host.site, host.world, backend.state), [host.world], 0, true, false, backend.state);
        next := new SystemBackend(host, cfg);
        CanBegin(next);
      case OthersChange(world, site) =>
        p := Passage(Point(backend.cfg, host.site, host.world, backend.state), [host.world], 0, true, false, backend.state);
        if Interfered(host.world, world) {
          p := p.(passed := [host.world, world], last := 1);
          StaysAtRest(backend, world, site);
        }
    }
  }

  // Changes by others leave the instance's memory right.
  method StaysAtRest(backend: SystemBackend, world: World, site: Site)
    requires backend.AtRest() && backend.host.atomicSave && Sound(backend.host.world)
    requires Interfered(backend.host.world, world)
    modifies backend.host`world, backend.host`site
    ensures backend.AtRest() && backend.host.world == world && backend.host.site == site && Sound(world)
  {
    InterferenceKeeps(backend.host.world, world);
    backend.host.world, backend.host.site := world, site;
  }

  /** Whatever happens, wherever it stops and with whatever configuration it restarts: the states passed
      through lead, step by step, from the first to the last, every one of them has all our rules on record,
      and every driver with redirects of ours is named. */
  method Live(host: Host, cfg: Config, events: seq<Event>) returns (ghost passages: seq<Passage>, end: Config, memory: Saved)
    requires host.atomicSave && host.exactListing && Sound(host.world)
    requires forall e <- events :: e.Reconciles? || e.StopsWithin? ==> Allowing(e.allows, e.redirects)
    modifies host
    ensures Life(Point(cfg, old(host.site), old(host.world), old(host.world).disk), events, passages,
                 Point(end, host.site, host.world, memory))
    ensures AllSound(passages) && Sound(host.world)
    ensures host.faults >= old(host.faults) + Faulty(passages)
  {
    hide Life, Happened, Sound, AllSound, Allowing, SystemBackend.AtRest;
    passages, end, memory := [], cfg, host.world.disk;
    ghost var start := Point(cfg, host.site, host.world, memory);
    NothingYet(start);
    var backend := new SystemBackend(host, cfg);
    CanBegin(backend);
    for i := 0 to |events|
      invariant fresh(backend) && backend.host == host && backend.cfg == end && backend.state == memory
      invariant backend.AtRest()
      invariant Life(start, events[..i], passages, Point(end, host.site, host.world, memory))
      invariant AllSound(passages) && Sound(host.world)
      invariant host.faults >= old(host.faults) + Faulty(passages)
    {
      ghost var p: Passage;
      p, backend := LiveThrough(backend, events[i]);
      LifeGoesOn(start, events[..i], passages, p.before, events[i], p);
      assert events[..i + 1] == events[..i] + [events[i]];
      OneMoreSound(passages, p);
      assert (passages + [p])[..|passages|] == passages;
      passages, end, memory := passages + [p], backend.cfg, backend.state;
    }
    assert events[..|events|] == events;
  }
}
