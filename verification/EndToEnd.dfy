/** The whole chain for one key and direction: bytes counted by kernel instances, settled totals, tracker
    deltas, report batches and the panel, under every interleaving. */
module EndToEnd {
  import opened Traffic
  import S = Settlement
  import R = Reporting

  datatype Chain = Chain(kernel: S.State, account: R.Account)

  // Collect is one sampling: the kernel settles its counters and the tracker processes the totals.
  datatype Step = Kernel(step: S.Step) | Collect | Taken | Finished(received: bool, acked: bool)

  predicate Enabled(c: Chain, step: Step) {
    match step
    case Kernel(k) => S.Enabled(c.kernel, k)
    case Collect => true
    case Taken => c.account.inFlight.NoSlip?
    case Finished(received, acked) => c.account.inFlight.Slip? && (acked ==> received)
  }

  function Apply(c: Chain, step: Step, key: Key, d: Direction): Chain
    requires Enabled(c, step)
  {
    match step
    case Kernel(k) => c.(kernel := S.Apply(c.kernel, k))
    case Collect =>
      var sampled := S.Apply(c.kernel, S.Sample);
      Chain(sampled, R.Sample(c.account, Get(sampled.totals, key, d)))
    case Taken => c.(account := R.Take(c.account))
    case Finished(received, acked) => c.(account := R.Finish(c.account, received, acked))
  }

  ghost predicate Runnable(c: Chain, steps: seq<Step>, key: Key, d: Direction)
    decreases |steps|
  {
    steps == [] || (Enabled(c, steps[0]) && Runnable(Apply(c, steps[0], key, d), steps[1..], key, d))
  }

  function After(c: Chain, steps: seq<Step>, key: Key, d: Direction): Chain
    requires Runnable(c, steps, key, d)
    decreases |steps|
  {
    if steps == [] then c else After(Apply(c, steps[0], key, d), steps[1..], key, d)
  }

  // Bytes counted for the key by kernel instances during the run, those of a starting instance apart.
  function Entered(l: S.Ledger, c: Chain, steps: seq<Step>, key: Key, d: Direction): S.Ledger
    requires Runnable(c, steps, key, d)
    decreases |steps|
  {
    if steps == [] then l else Entered(Enter(l, c, steps[0], key, d), Apply(c, steps[0], key, d), steps[1..], key, d)
  }

  function Enter(l: S.Ledger, c: Chain, step: Step, key: Key, d: Direction): S.Ledger
    requires Enabled(c, step)
  {
    if step.Kernel? then S.Enter(l, c.kernel, step.step, key, d) else l
  }

  // Every place a byte can be: with the panel, in the uncounted batch, pending in the tracker, settled but
  // not yet seen by the tracker, or unread in some instance.
  function Whereabouts(c: Chain, key: Key, d: Direction): int {
    c.account.panelTotal + R.Outstanding(c.account) + c.account.pending
    + (Get(c.kernel.totals, key, d) - c.account.lastSeen)
    + S.UnreadAll(c.kernel.current, key, d) + S.UnreadAll(c.kernel.candidate, key, d)
    + S.UnreadAll(c.kernel.retired, key, d)
  }

  ghost predicate Ok(c: Chain, key: Key, d: Direction) {
    S.Sane(c.kernel) && R.Ok(c.account) && c.account.lastSeen <= Get(c.kernel.totals, key, d)
  }

  lemma {:induction false} StepKeepsOk(c: Chain, step: Step, key: Key, d: Direction)
    requires Ok(c, key, d) && Enabled(c, step)
    ensures Ok(Apply(c, step, key, d), key, d)
  {
    match step
    case Kernel(k) =>
      S.StepConserves(c.kernel, k, key, d);
      S.TotalsGrow(c.kernel, k, key, d);
    case Collect =>
      S.StepConserves(c.kernel, S.Sample, key, d);
      S.TotalsGrow(c.kernel, S.Sample, key, d);
    case Taken => R.TakeKeeps(c.account);
    case Finished(received, acked) => R.FinishKeeps(c.account, received, acked);
  }

  ghost predicate Balanced(l: S.Ledger, c: Chain, key: Key, d: Direction) {
    Whereabouts(c, key, d) == l.kept + l.trial && S.UnreadAll(c.kernel.candidate, key, d) == l.trial
  }

  // What the tracker, the batches and the panel have beyond what the kernel still holds.
  function Beyond(c: Chain): int {
    c.account.panelTotal + R.Outstanding(c.account) + c.account.pending - c.account.lastSeen
  }

  lemma {:induction false} TwoSides(c: Chain, key: Key, d: Direction)
    ensures Whereabouts(c, key, d) == S.Held(c.kernel, key, d) + Beyond(c)
  {
  }

  lemma {:induction false} AccountKeeps(c: Chain, step: Step, key: Key, d: Direction)
    requires Ok(c, key, d) && Enabled(c, step)
    ensures Beyond(Apply(c, step, key, d)) == Beyond(c)
  {
    match step
    case Kernel(_) =>
    case Collect => S.TotalsGrow(c.kernel, S.Sample, key, d);
    case Taken => R.TakeKeeps(c.account);
    case Finished(received, acked) => R.FinishKeeps(c.account, received, acked);
  }

  lemma {:induction false} SampleEnters(l: S.Ledger, st: S.State, key: Key, d: Direction)
    ensures S.Enabled(st, S.Sample) && S.Enter(l, st, S.Sample, key, d) == l
  {
  }

  // The ledger's entries beside the kernel's account.
  lemma {:induction false} KernelBalances(l: S.Ledger, x: int, st: S.State, k: S.Step, key: Key, d: Direction)
    requires S.Sane(st) && S.Enabled(st, k)
    requires S.Held(st, key, d) + x == l.kept + l.trial && S.UnreadAll(st.candidate, key, d) == l.trial
    ensures var e, after := S.Enter(l, st, k, key, d), S.Apply(st, k);
            S.Held(after, key, d) + x == e.kept + e.trial && S.UnreadAll(after.candidate, key, d) == e.trial
  {
    hide S.Held, S.UnreadAll, S.Enter, S.Apply;
    S.EnterShifts(l, x, st, k, key, d);
    S.EnterBalances(l.(kept := l.kept - x), st, k, key, d);
  }

  // The kernel's account and the tracker's are kept side by side.
  lemma {:induction false} StepBalances(l: S.Ledger, c: Chain, step: Step, key: Key, d: Direction)
    requires Ok(c, key, d) && Enabled(c, step) && Balanced(l, c, key, d)
    ensures Balanced(Enter(l, c, step, key, d), Apply(c, step, key, d), key, d)
  {
    var x := Beyond(c);
    AccountKeeps(c, step, key, d);
    TwoSides(c, key, d);
    TwoSides(Apply(c, step, key, d), key, d);
    SampleEnters(l, c.kernel, key, d);
    hide Whereabouts, Beyond, S.Held, S.Apply, S.Enter, S.UnreadAll, S.Sane, R.Ok, R.Take, R.Finish, R.Sample;
    match step {
      case Kernel(k) => KernelBalances(l, x, c.kernel, k, key, d);
      case Collect => KernelBalances(l, x, c.kernel, S.Sample, key, d);
      case _ =>
    }
  }

  lemma {:induction false} RunBalances(l: S.Ledger, c: Chain, steps: seq<Step>, key: Key, d: Direction)
    requires Ok(c, key, d) && Runnable(c, steps, key, d) && Balanced(l, c, key, d)
    ensures Ok(After(c, steps, key, d), key, d)
    ensures Balanced(Entered(l, c, steps, key, d), After(c, steps, key, d), key, d)
    decreases |steps|
  {
    hide Balanced, Ok, Enter, Apply;
    if steps != [] {
      StepKeepsOk(c, steps[0], key, d);
      StepBalances(l, c, steps[0], key, d);
      RunBalances(Enter(l, c, steps[0], key, d), Apply(c, steps[0], key, d), steps[1..], key, d);
    }
  }

  /** Nothing is lost and nothing is counted twice between the kernel and the panel: the places hold what was
      counted for the key, under counters that belong to it in the counting instance's own configuration. */
  lemma {:induction false} CountedBytesAreAccountedFor(start: Chain, steps: seq<Step>, key: Key, d: Direction)
    requires R.IsNew(start.account) && start.kernel == S.START && Runnable(start, steps, key, d)
    ensures var l := Entered(S.Ledger(0, 0), start, steps, key, d);
            Whereabouts(After(start, steps, key, d), key, d) == l.kept + l.trial
  {
    RunBalances(S.Ledger(0, 0), start, steps, key, d);
  }

  // A sampling moves everything the kernel holds into the tracker.
  lemma {:induction false} CollectDrains(c: Chain, key: Key, d: Direction)
    requires Ok(c, key, d) && c.kernel.candidate == []
    ensures R.Ok(Apply(c, Collect, key, d).account)
    ensures R.Held(Apply(c, Collect, key, d).account) == Whereabouts(c, key, d)
    ensures Apply(c, Collect, key, d).account.inFlight == c.account.inFlight
    ensures Apply(c, Collect, key, d).account.retry == c.account.retry
  {
    StepBalances(S.Ledger(Whereabouts(c, key, d), 0), c, Collect, key, d);
    StepKeepsOk(c, Collect, key, d);
    S.ReadAllIsRead(c.kernel.current, key, d);
    S.ReadAllIsRead(c.kernel.retired, key, d);
  }

  // With nothing starting up, a last sampling and a push that gets through put all of it on the panel.
  lemma {:induction false} ShutdownSettlesEverything(start: Chain, steps: seq<Step>, key: Key, d: Direction)
    requires R.IsNew(start.account) && start.kernel == S.START && Runnable(start, steps, key, d)
    requires var c := After(start, steps, key, d); c.account.inFlight.NoSlip? && c.kernel.candidate == []
    ensures var c := Apply(After(start, steps, key, d), Collect, key, d);
            var once := R.Finish(R.Take(c.account), true, true);
            var twice := R.Finish(R.Take(once), true, true);
            (if c.account.retry.NoSlip? then once else twice).panelTotal ==
            Entered(S.Ledger(0, 0), start, steps, key, d).kept
  {
    RunBalances(S.Ledger(0, 0), start, steps, key, d);
    assert S.UnreadAll(After(start, steps, key, d).kernel.candidate, key, d) == 0;
    hide Apply, Whereabouts, Entered, R.Finish, R.Take, R.Held;
    var before := After(start, steps, key, d);
    CollectDrains(before, key, d);
    R.FinalPushDelivers(Apply(before, Collect, key, d).account);
  }
}
