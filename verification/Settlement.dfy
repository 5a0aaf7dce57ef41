/** Settling an xray kernel's traffic counters across restarts.

    Every kernel instance has its own counters and its own configuration. Sampling reads each counter and
    sets it to zero, adding what it read to totals that outlive the instances. The three totals of the
    source (per user, per relay node, per user and relay node) are one map under tagged keys. */
module Traffic {
  datatype Direction = Uplink | Downlink

  datatype Bytes = Bytes(up: int, down: int) {
    function Of(d: Direction): int { if d.Uplink? then up else down }

    function Add(d: Direction, n: int): Bytes {
      if d.Uplink? then Bytes(up + n, down) else Bytes(up, down + n)
    }
  }

  const ZERO: Bytes := Bytes(0, 0)

  datatype Key = User(uid: int) | Relay(node: int) | UserRelay(uid: int, node: int)

  type Totals = map<Key, Bytes>

  function Entry(totals: Totals, key: Key): Bytes { if key in totals then totals[key] else ZERO }

  // A missing entry counts as zero.
  function Get(totals: Totals, key: Key, d: Direction): int { Entry(totals, key).Of(d) }
}

module Settlement {
  import opened Traffic

  // A counter's name, split at its separators; the last part is the direction. Tags are only compared.
  type Tag = nat

  datatype Name =
    | UserCounter(uid: int)
    | UserRouteCounter(uid: int, route: int)
    | OutboundCounter(tag: Tag)
    | OtherCounter

  datatype Config = Config(nodeOfTag: map<Tag, int>, nodeOfRoute: map<int, int>)

  datatype Counter = Counter(name: Name, direction: Direction, value: int)

  datatype Target = Nowhere | Total(key: Key)

  function Lookup<K>(m: map<K, int>, k: K): int { if k in m then m[k] else 0 }

  // Which total a counter is credited to under a configuration, if any.
  function Credited(config: Config, name: Name): Target {
    match name
    case UserCounter(uid) => if uid > 0 then Total(User(uid)) else Nowhere
    case UserRouteCounter(uid, route) =>
      var node := Lookup(config.nodeOfRoute, route);
      if uid > 0 && node > 0 then Total(UserRelay(uid, node)) else Nowhere
    case OutboundCounter(tag) =>
      var node := Lookup(config.nodeOfTag, tag);
      if node > 0 then Total(Relay(node)) else Nowhere
    case OtherCounter => Nowhere
  }

  /** Whose traffic a counter counts: a user's own, a relay node's by its outbound's tag, or a user's through a
      relay node by its route, as the instance's configuration maps them. */
  predicate Belongs(config: Config, name: Name, key: Key) {
    match key
    case User(u) => u > 0 && name == UserCounter(u)
    case Relay(n) => n > 0 && name.OutboundCounter? && name.tag in config.nodeOfTag && config.nodeOfTag[name.tag] == n
    case UserRelay(u, n) =>
      && u > 0 && n > 0 && name.UserRouteCounter? && name.uid == u
      && name.route in config.nodeOfRoute && config.nodeOfRoute[name.route] == n
  }

  lemma {:induction false} CreditedIff(config: Config, name: Name, key: Key)
    ensures Credited(config, name) == Total(key) <==> Belongs(config, name, key)
  {
  }

  // Users and nodes have positive numbers; what is not mapped to one is nobody's.
  predicate Nobodys(config: Config, name: Name) {
    match name
    case UserCounter(u) => u <= 0
    case UserRouteCounter(u, r) => u <= 0 || r !in config.nodeOfRoute || config.nodeOfRoute[r] <= 0
    case OutboundCounter(t) => t !in config.nodeOfTag || config.nodeOfTag[t] <= 0
    case OtherCounter => true
  }

  /** A counter is read and cleared exactly if it is somebody's; nobody's keeps its value and adds to no total. */
  lemma {:induction false} ClearedIff(config: Config, totals: Totals, c: Counter)
    ensures Nobodys(config, c.name) <==> forall key :: !Belongs(config, c.name, key)
    ensures ClearOne(config, c) == if Nobodys(config, c.name) then c else c.(value := 0)
    ensures Nobodys(config, c.name) ==> CreditOne(config, totals, c) == totals
  {
    if !Nobodys(config, c.name) {
      CreditedIff(config, c.name, Credited(config, c.name).key);
    }
  }

  // What one counter holds for a key.
  function Part(config: Config, c: Counter, key: Key, d: Direction): int {
    if Belongs(config, c.name, key) && c.direction == d then c.value else 0
  }

  // What the counters still hold for a key.
  function Unread(config: Config, counters: seq<Counter>, key: Key, d: Direction): int {
    if counters == [] then 0 else Part(config, counters[0], key, d) + Unread(config, counters[1..], key, d)
  }

  lemma {:induction false} UnreadSnoc(config: Config, counters: seq<Counter>, c: Counter, key: Key, d: Direction)
    ensures Unread(config, counters + [c], key, d) == Unread(config, counters, key, d) + Part(config, c, key, d)
  {
    if counters == [] {
      assert ([c])[1..] == [] && [] + [c] == [c];
    } else {
      UnreadSnoc(config, counters[1..], c, key, d);
      assert (counters + [c])[1..] == counters[1..] + [c];
    }
  }

  // ----- Reading and clearing -----

  // Visiting one counter: what becomes of the totals and of the counter.
  function CreditOne(config: Config, totals: Totals, c: Counter): Totals {
    var target := Credited(config, c.name);
    if target.Total? && c.value > 0 then totals[target.key := Entry(totals, target.key).Add(c.direction, c.value)]
    else totals
  }

  function ClearOne(config: Config, c: Counter): Counter {
    if Credited(config, c.name).Total? then c.(value := 0) else c
  }

  function Settle(config: Config, totals: Totals, counters: seq<Counter>): Totals {
    if counters == [] then totals
    else CreditOne(config, Settle(config, totals, counters[..|counters| - 1]), counters[|counters| - 1])
  }

  function Clear(config: Config, counters: seq<Counter>): (r: seq<Counter>)
    ensures |r| == |counters| && forall i :: 0 <= i < |r| ==> r[i] == ClearOne(config, counters[i])
  {
    if counters == [] then [] else [ClearOne(config, counters[0])] + Clear(config, counters[1..])
  }

  ghost predicate NonNegative(counters: seq<Counter>) {
    forall i :: 0 <= i < |counters| ==> counters[i].value >= 0
  }

  lemma {:induction false} OneReads(config: Config, totals: Totals, c: Counter, key: Key, d: Direction)
    requires c.value >= 0
    ensures Get(CreditOne(config, totals, c), key, d) == Get(totals, key, d) + Part(config, c, key, d)
  {
    CreditedIff(config, c.name, key);
  }

  lemma {:induction false} OneCleared(config: Config, c: Counter, key: Key, d: Direction)
    ensures Part(config, ClearOne(config, c), key, d) == 0
  {
    CreditedIff(config, c.name, key);
  }

  lemma {:induction false} SettleReads(config: Config, totals: Totals, counters: seq<Counter>, key: Key, d: Direction)
    requires NonNegative(counters)
    ensures Get(Settle(config, totals, counters), key, d) == Get(totals, key, d) + Unread(config, counters, key, d)
  {
    if counters != [] {
      var front, c := counters[..|counters| - 1], counters[|counters| - 1];
      SettleReads(config, totals, front, key, d);
      OneReads(config, Settle(config, totals, front), c, key, d);
      UnreadSnoc(config, front, c, key, d);
      assert front + [c] == counters;
    }
  }

  lemma {:induction false} ClearedIsRead(config: Config, counters: seq<Counter>, key: Key, d: Direction)
    requires NonNegative(counters)
    ensures Unread(config, Clear(config, counters), key, d) == 0 && NonNegative(Clear(config, counters))
  {
    if counters != [] {
      ClearedIsRead(config, counters[1..], key, d);
      OneCleared(config, counters[0], key, d);
    }
  }

  // ----- One instance and the kernel's totals, in place -----

  class Instance {
    const config: Config
    var counters: seq<Counter>

    constructor (config: Config)
      ensures this.config == config && counters == []
    {
      this.config := config;
      counters := [];
    }
  }

  class Kernel {
    var totals: Totals

    // collectInstanceStatsLocked: visit every counter, read and clear the credited ones.
    method CollectInstanceStats(instance: Instance)
      requires NonNegative(instance.counters)
      modifies this, instance
      ensures totals == Settle(instance.config, old(totals), old(instance.counters))
      ensures instance.counters == Clear(instance.config, old(instance.counters))
    {
      ghost var before := instance.counters;
      for i := 0 to |instance.counters|
        invariant |instance.counters| == |before|
        invariant forall j :: 0 <= j < |before| ==>
                    instance.counters[j] == if j < i then ClearOne(instance.config, before[j]) else before[j]
        invariant totals == Settle(instance.config, old(totals), before[..i])
      {
        assert before[..i + 1][..i] == before[..i];
        var c := instance.counters[i];
        var target := Credited(instance.config, c.name);
        if target.Total? {
          var delta := c.value;
          instance.counters := instance.counters[i := c.(value := 0)];
          if delta > 0 {
            var current := Entry(totals, target.key);
            totals := totals[target.key := current.Add(c.direction, delta)];
          }
        }
      }
      assert before[..|before|] == before;
      assert instance.counters == Clear(instance.config, before);
    }
  }

  // ----- Whole runs of the kernel -----

  datatype Inst = Inst(config: Config, counters: seq<Counter>, open: bool)

  // `candidate` is an instance between its start and the swap; it is not sampled yet.
  datatype State = State(totals: Totals, current: seq<Inst>, candidate: seq<Inst>, retired: seq<Inst>)

  datatype Slot = Current | Candidate | Retired(i: nat)

  datatype Step =
    | Count(slot: Slot, name: Name, direction: Direction, n: nat)  // traffic on an open instance
    | Begin(config: Config)   // a new instance is being started
    | SwapIn                  // it has started: it becomes current, the old one retires
    | FailStart               // it has not: it is dropped, and the old one retires all the same
    | Stop
    | Sample                  // read the current and every retired instance
    | SampleRetired(i: nat)   // the recycler's reading before it closes the instance
    | CloseRetired(i: nat)
    | Recycle(i: nat)         // the recycler's last reading, and removal

  function Counted(counters: seq<Counter>, name: Name, d: Direction, n: nat): seq<Counter> {
    if counters == [] then [Counter(name, d, n)]
    else if counters[0].name == name && counters[0].direction == d then
      [counters[0].(value := counters[0].value + n)] + counters[1..]
    else [counters[0]] + Counted(counters[1..], name, d, n)
  }

  function InstAt(st: State, slot: Slot): seq<Inst> {
    match slot
    case Current => st.current
    case Candidate => st.candidate
    case Retired(i) => if i < |st.retired| then [st.retired[i]] else []
  }

  predicate Enabled(st: State, step: Step) {
    match step
    case Count(slot, _, _, _) => |InstAt(st, slot)| == 1 && InstAt(st, slot)[0].open
    case Begin(_) => st.candidate == []
    case SwapIn => |st.candidate| == 1
    case FailStart => |st.candidate| == 1
    case SampleRetired(i) => i < |st.retired|
    case CloseRetired(i) => i < |st.retired|
    case Recycle(i) => i < |st.retired| && !st.retired[i].open
    case _ => true
  }

  function Read(inst: Inst): Inst { inst.(counters := Clear(inst.config, inst.counters)) }

  function ReadAll(insts: seq<Inst>): seq<Inst> {
    if insts == [] then [] else [Read(insts[0])] + ReadAll(insts[1..])
  }

  function SettleAll(totals: Totals, insts: seq<Inst>): Totals
    decreases |insts|
  {
    if insts == [] then totals
    else SettleAll(Settle(insts[0].config, totals, insts[0].counters), insts[1..])
  }

  function Apply(st: State, step: Step): State
    requires Enabled(st, step)
  {
    match step
    case Count(slot, name, d, n) =>
      var inst := InstAt(st, slot)[0];
      var busy := inst.(counters := Counted(inst.counters, name, d, n));
      (match slot
       case Current => st.(current := [busy])
       case Candidate => st.(candidate := [busy])
       case Retired(i) => st.(retired := st.retired[i := busy]))
    case Begin(config) => st.(candidate := [Inst(config, [], true)])
    case SwapIn => st.(current := st.candidate, candidate := [], retired := st.retired + st.current)
    case FailStart => st.(current := [], candidate := [], retired := st.retired + st.current)
    case Stop => st.(current := [], retired := st.retired + st.current)
    case Sample =>
      st.(totals := SettleAll(st.totals, st.current + st.retired),
          current := ReadAll(st.current), retired := ReadAll(st.retired))
    case SampleRetired(i) =>
      st.(totals := SettleAll(st.totals, [st.retired[i]]), retired := st.retired[i := Read(st.retired[i])])
    case CloseRetired(i) => st.(retired := st.retired[i := st.retired[i].(open := false)])
    case Recycle(i) =>
      st.(totals := SettleAll(st.totals, [st.retired[i]]), retired := st.retired[..i] + st.retired[i + 1..])
  }

  function UnreadAll(insts: seq<Inst>, key: Key, d: Direction): int {
    if insts == [] then 0
    else Unread(insts[0].config, insts[0].counters, key, d) + UnreadAll(insts[1..], key, d)
  }

  // Everything the kernel still knows of: sampled, or waiting in some instance.
  function Held(st: State, key: Key, d: Direction): int {
    Get(st.totals, key, d) + UnreadAll(st.current, key, d) + UnreadAll(st.candidate, key, d)
    + UnreadAll(st.retired, key, d)
  }

  // What a step adds for a key: the traffic it counts, less what is dropped with an instance that failed
  // to start.
  function Gain(st: State, step: Step, key: Key, d: Direction): int
    requires Enabled(st, step)
  {
    match step
    case Count(slot, name, dir, n) => Part(InstAt(st, slot)[0].config, Counter(name, dir, n), key, d)
    case FailStart => -UnreadAll(st.candidate, key, d)
    case _ => 0
  }

  ghost predicate Sane(st: State) {
    |st.current| <= 1 && |st.candidate| <= 1 && AllNonNegative(st.current) && AllNonNegative(st.candidate)
    && AllNonNegative(st.retired)
  }

  ghost predicate AllNonNegative(insts: seq<Inst>) {
    forall i :: 0 <= i < |insts| ==> NonNegative(insts[i].counters)
  }

  // ----- Conservation -----

  lemma {:induction false} UnreadAllAppend(a: seq<Inst>, b: seq<Inst>, key: Key, d: Direction)
    ensures UnreadAll(a + b, key, d) == UnreadAll(a, key, d) + UnreadAll(b, key, d)
  {
    if a == [] {
      assert a + b == b;
    } else {
      UnreadAllAppend(a[1..], b, key, d);
      assert (a + b)[1..] == a[1..] + b;
    }
  }

  lemma UnreadAllSplit(insts: seq<Inst>, i: nat, key: Key, d: Direction)
    requires i < |insts|
    ensures UnreadAll(insts, key, d) == UnreadAll(insts[..i] + insts[i + 1..], key, d) + UnreadAll([insts[i]], key, d)
  {
    UnreadAllAppend(insts[..i], insts[i + 1..], key, d);
    UnreadAllAppend(insts[..i], [insts[i]] + insts[i + 1..], key, d);
    UnreadAllAppend([insts[i]], insts[i + 1..], key, d);
    assert insts == insts[..i] + ([insts[i]] + insts[i + 1..]);
  }

  lemma UnreadAllUpdate(insts: seq<Inst>, i: nat, inst: Inst, key: Key, d: Direction)
    requires i < |insts|
    ensures UnreadAll(insts[i := inst], key, d) ==
            UnreadAll(insts, key, d) - UnreadAll([insts[i]], key, d) + UnreadAll([inst], key, d)
  {
    UnreadAllSplit(insts, i, key, d);
    UnreadAllSplit(insts[i := inst], i, key, d);
    assert insts[i := inst][..i] == insts[..i] && insts[i := inst][i + 1..] == insts[i + 1..];
  }

  lemma {:induction false} CountedAdds(config: Config, counters: seq<Counter>, name: Name, dir: Direction, n: nat,
                                       key: Key, d: Direction)
    requires NonNegative(counters)
    ensures NonNegative(Counted(counters, name, dir, n))
    ensures Unread(config, Counted(counters, name, dir, n), key, d) ==
            Unread(config, counters, key, d) + Part(config, Counter(name, dir, n), key, d)
  {
    hide Belongs;
    if counters == [] {
    } else if counters[0].name == name && counters[0].direction == dir {
      var first := counters[0].(value := counters[0].value + n);
      assert ([first] + counters[1..])[1..] == counters[1..];
    } else {
      CountedAdds(config, counters[1..], name, dir, n, key, d);
      assert Counted(counters, name, dir, n)[1..] == Counted(counters[1..], name, dir, n);
    }
  }

  lemma {:induction false} SettleAllReads(totals: Totals, insts: seq<Inst>, key: Key, d: Direction)
    requires AllNonNegative(insts)
    ensures Get(SettleAll(totals, insts), key, d) == Get(totals, key, d) + UnreadAll(insts, key, d)
    decreases |insts|
  {
    if insts != [] {
      SettleReads(insts[0].config, totals, insts[0].counters, key, d);
      SettleAllReads(Settle(insts[0].config, totals, insts[0].counters), insts[1..], key, d);
    }
  }

  lemma {:induction false} ReadAllIsRead(insts: seq<Inst>, key: Key, d: Direction)
    requires AllNonNegative(insts)
    ensures UnreadAll(ReadAll(insts), key, d) == 0
    ensures |ReadAll(insts)| == |insts| && AllNonNegative(ReadAll(insts))
  {
    if insts != [] {
      ClearedIsRead(insts[0].config, insts[0].counters, key, d);
      ReadAllIsRead(insts[1..], key, d);
    }
  }

  lemma OneRead(inst: Inst, key: Key, d: Direction)
    requires NonNegative(inst.counters)
    ensures UnreadAll([Read(inst)], key, d) == 0 && NonNegative(Read(inst).counters)
  {
    ClearedIsRead(inst.config, inst.counters, key, d);
  }

  lemma CountConserves(st: State, step: Step, key: Key, d: Direction)
    requires Sane(st) && Enabled(st, step) && step.Count?
    ensures Sane(Apply(st, step)) && Held(Apply(st, step), key, d) == Held(st, key, d) + Gain(st, step, key, d)
  {
    hide Belongs;
    var inst := InstAt(st, step.slot)[0];
    CountedAdds(inst.config, inst.counters, step.name, step.direction, step.n, key, d);
    var busy := inst.(counters := Counted(inst.counters, step.name, step.direction, step.n));
    OneUnread(inst, key, d);
    OneUnread(busy, key, d);
    hide Part, Counted, Unread, UnreadAll;
    match step.slot {
      case Current => assert st.current == [inst];
      case Candidate => assert st.candidate == [inst];
      case Retired(i) => UnreadAllUpdate(st.retired, i, busy, key, d);
    }
  }

  lemma {:induction false} OneUnread(inst: Inst, key: Key, d: Direction)
    ensures UnreadAll([inst], key, d) == Unread(inst.config, inst.counters, key, d)
  {
  }

  lemma SampleRetiredConserves(st: State, i: nat, key: Key, d: Direction)
    requires Sane(st) && i < |st.retired|
    ensures var st' := Apply(st, SampleRetired(i));
            Sane(st') && Held(st', key, d) == Held(st, key, d)
  {
    hide Settle, Unread, Clear;
    var inst := st.retired[i];
    SettleAllReads(st.totals, [inst], key, d);
    OneRead(inst, key, d);
    UnreadAllUpdate(st.retired, i, Read(inst), key, d);
  }

  lemma CloseRetiredConserves(st: State, i: nat, key: Key, d: Direction)
    requires Sane(st) && i < |st.retired|
    ensures var st' := Apply(st, CloseRetired(i));
            Sane(st') && Held(st', key, d) == Held(st, key, d)
  {
    var closed := st.retired[i].(open := false);
    UnreadAllUpdate(st.retired, i, closed, key, d);
    assert UnreadAll([closed], key, d) == UnreadAll([st.retired[i]], key, d);
  }

  lemma RecycleConserves(st: State, i: nat, key: Key, d: Direction)
    requires Sane(st) && i < |st.retired| && !st.retired[i].open
    ensures var st' := Apply(st, Recycle(i));
            Sane(st') && Held(st', key, d) == Held(st, key, d)
  {
    hide Settle, Unread, Clear;
    SettleAllReads(st.totals, [st.retired[i]], key, d);
    UnreadAllSplit(st.retired, i, key, d);
  }

  lemma StepConserves(st: State, step: Step, key: Key, d: Direction)
    requires Sane(st) && Enabled(st, step)
    ensures Sane(Apply(st, step)) && Held(Apply(st, step), key, d) == Held(st, key, d) + Gain(st, step, key, d)
  {
    match step
    case Count(_, _, _, _) => CountConserves(st, step, key, d);
    case Begin(config) => assert UnreadAll([Inst(config, [], true)], key, d) == 0;
    case SwapIn => UnreadAllAppend(st.retired, st.current, key, d);
    case FailStart => UnreadAllAppend(st.retired, st.current, key, d);
    case Stop => UnreadAllAppend(st.retired, st.current, key, d);
    case Sample =>
      SettleAllReads(st.totals, st.current + st.retired, key, d);
      UnreadAllAppend(st.current, st.retired, key, d);
      ReadAllIsRead(st.current, key, d);
      ReadAllIsRead(st.retired, key, d);
    case SampleRetired(i) => SampleRetiredConserves(st, i, key, d);
    case CloseRetired(i) => CloseRetiredConserves(st, i, key, d);
    case Recycle(i) => RecycleConserves(st, i, key, d);
  }

  const START: State := State(map[], [], [], [])

  ghost predicate Runnable(st: State, steps: seq<Step>)
    decreases |steps|
  {
    steps == [] || (Enabled(st, steps[0]) && Runnable(Apply(st, steps[0]), steps[1..]))
  }

  function After(st: State, steps: seq<Step>): State
    requires Runnable(st, steps)
    decreases |steps|
  {
    if steps == [] then st else After(Apply(st, steps[0]), steps[1..])
  }

  function Gains(st: State, steps: seq<Step>, key: Key, d: Direction): int
    requires Runnable(st, steps)
    decreases |steps|
  {
    if steps == [] then 0
    else Gain(st, steps[0], key, d) + Gains(Apply(st, steps[0]), steps[1..], key, d)
  }

  lemma {:induction false} RunConserves(st: State, steps: seq<Step>, key: Key, d: Direction)
    requires Sane(st) && Runnable(st, steps)
    ensures Sane(After(st, steps))
    ensures Held(After(st, steps), key, d) == Held(st, key, d) + Gains(st, steps, key, d)
    decreases |steps|
  {
    if steps != [] {
      StepConserves(st, steps[0], key, d);
      RunConserves(Apply(st, steps[0]), steps[1..], key, d);
    }
  }

  // ----- What was counted -----

  // The bytes counted for a key: by an instance that is being started, and by all that have been.
  datatype Ledger = Ledger(kept: int, trial: int)

  // What an instance counts before it has started is lost if it fails to start.
  function Enter(l: Ledger, st: State, step: Step, key: Key, d: Direction): Ledger
    requires Enabled(st, step)
  {
    match step
    case Count(slot, name, dir, n) =>
      var owed := if dir == d && Belongs(InstAt(st, slot)[0].config, name, key) then n else 0;
      if slot.Candidate? then l.(trial := l.trial + owed) else l.(kept := l.kept + owed)
    case SwapIn => Ledger(l.kept + l.trial, 0)
    case FailStart => l.(trial := 0)
    case _ => l
  }

  function Entered(l: Ledger, st: State, steps: seq<Step>, key: Key, d: Direction): Ledger
    requires Runnable(st, steps)
    decreases |steps|
  {
    if steps == [] then l else Entered(Enter(l, st, steps[0], key, d), Apply(st, steps[0]), steps[1..], key, d)
  }

  ghost predicate Balanced(l: Ledger, st: State, key: Key, d: Direction) {
    Held(st, key, d) == l.kept + l.trial && UnreadAll(st.candidate, key, d) == l.trial
  }

  lemma {:induction false} EnterShifts(l: Ledger, x: int, st: State, step: Step, key: Key, d: Direction)
    requires Enabled(st, step)
    ensures var e := Enter(l, st, step, key, d);
            Enter(l.(kept := l.kept - x), st, step, key, d) == e.(kept := e.kept - x)
  {
  }

  lemma {:induction false} EnterBalances(l: Ledger, st: State, step: Step, key: Key, d: Direction)
    requires Sane(st) && Enabled(st, step) && Balanced(l, st, key, d)
    ensures Balanced(Enter(l, st, step, key, d), Apply(st, step), key, d)
  {
    StepConserves(st, step, key, d);
    match step {
      case Count(slot, name, dir, n) =>
        hide Belongs;
        if slot.Candidate? {
          var inst := st.candidate[0];
          CountedAdds(inst.config, inst.counters, name, dir, n, key, d);
        }
      case _ =>
    }
  }

  lemma {:induction false} RunBalances(l: Ledger, st: State, steps: seq<Step>, key: Key, d: Direction)
    requires Sane(st) && Runnable(st, steps) && Balanced(l, st, key, d)
    ensures Balanced(Entered(l, st, steps, key, d), After(st, steps), key, d)
    decreases |steps|
  {
    hide Balanced, Enter;
    if steps != [] {
      EnterBalances(l, st, steps[0], key, d);
      StepConserves(st, steps[0], key, d);
      RunBalances(Enter(l, st, steps[0], key, d), Apply(st, steps[0]), steps[1..], key, d);
    }
  }

  // Through any interleaving of starts, failed starts, reloads, stops, samplings and recyclings, every byte
  // counted for a key, under a counter that belongs to it in the counting instance's own configuration, is in
  // the totals or still waiting in one instance, once; a byte is missing only if it was counted by an instance
  // that then failed to start.
  lemma EveryByteSettledOnce(steps: seq<Step>, key: Key, d: Direction)
    requires Runnable(START, steps)
    ensures var l := Entered(Ledger(0, 0), START, steps, key, d);
            Held(After(START, steps), key, d) == Gains(START, steps, key, d) == l.kept + l.trial
  {
    RunConserves(START, steps, key, d);
    RunBalances(Ledger(0, 0), START, steps, key, d);
  }

  // After a final sampling with nothing left starting up, the totals alone are the whole account.
  lemma FinalSampleIsComplete(steps: seq<Step>, key: Key, d: Direction)
    requires Runnable(START, steps + [Sample]) && After(START, steps + [Sample]).candidate == []
    ensures Get(After(START, steps + [Sample]).totals, key, d) ==
            Entered(Ledger(0, 0), START, steps + [Sample], key, d).kept
  {
    RunBalances(Ledger(0, 0), START, steps + [Sample], key, d);
    LastSampleReads(START, steps, key, d);
  }

  lemma {:induction false} LastSampleReads(st: State, steps: seq<Step>, key: Key, d: Direction)
    requires Sane(st) && Runnable(st, steps + [Sample])
    ensures var end := After(st, steps + [Sample]);
            UnreadAll(end.current, key, d) == 0 && UnreadAll(end.retired, key, d) == 0
    decreases |steps|
  {
    if steps == [] {
      assert (steps + [Sample])[1..] == [];
      ReadAllIsRead(st.current, key, d);
      ReadAllIsRead(st.retired, key, d);
    } else {
      assert (steps + [Sample])[1..] == steps[1..] + [Sample];
      StepConserves(st, steps[0], key, d);
      LastSampleReads(Apply(st, steps[0]), steps[1..], key, d);
    }
  }

  lemma {:induction false} UnreadNonNegative(config: Config, counters: seq<Counter>, key: Key, d: Direction)
    requires NonNegative(counters)
    ensures Unread(config, counters, key, d) >= 0
  {
    if counters != [] {
      UnreadNonNegative(config, counters[1..], key, d);
    }
  }

  lemma {:induction false} UnreadAllNonNegative(insts: seq<Inst>, key: Key, d: Direction)
    requires AllNonNegative(insts)
    ensures UnreadAll(insts, key, d) >= 0
  {
    if insts != [] {
      UnreadNonNegative(insts[0].config, insts[0].counters, key, d);
      UnreadAllNonNegative(insts[1..], key, d);
    }
  }

  // The totals a tracker samples never go down.
  lemma TotalsGrow(st: State, step: Step, key: Key, d: Direction)
    requires Sane(st) && Enabled(st, step)
    ensures Get(Apply(st, step).totals, key, d) >= Get(st.totals, key, d)
  {
    match step
    case Sample =>
      SettleAllReads(st.totals, st.current + st.retired, key, d);
      UnreadAllNonNegative(st.current + st.retired, key, d);
    case SampleRetired(i) =>
      SettleAllReads(st.totals, [st.retired[i]], key, d);
      UnreadAllNonNegative([st.retired[i]], key, d);
    case Recycle(i) =>
      SettleAllReads(st.totals, [st.retired[i]], key, d);
      UnreadAllNonNegative([st.retired[i]], key, d);
    case _ =>
  }
}
