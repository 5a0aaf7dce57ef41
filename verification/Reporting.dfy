/** From cumulative kernel counters to the panel: deltas, one outstanding batch, retries under the same id.

    `Account` is what the tracker, the reporter and the panel hold for one key and direction; every method
    is proved to act on every account as the functions below say, and the lemmas are about those. */
module Reporting {
  import opened Traffic

  // ----- One key and direction -----

  // The part of a report batch that concerns the account.
  datatype Slip = NoSlip | Slip(id: nat, amount: int)

  datatype Account = Account(
    lastSeen: int, pending: int, retry: Slip, inFlight: Slip, lastId: nat,
    panelSeen: set<nat>, panelTotal: int)

  // A counter below its last value means the kernel restarted.
  function Delta(prev: int, cum: int): int { if cum - prev < 0 then cum else cum - prev }

  function Sample(a: Account, cum: int): Account {
    a.(lastSeen := cum, pending := a.pending + Delta(a.lastSeen, cum))
  }

  // takeReportBatch: the failed batch again, or everything pending under the next id.
  function Take(a: Account): Account {
    if a.retry.Slip? then a.(inFlight := a.retry)
    else a.(lastId := a.lastId + 1, inFlight := Slip(a.lastId + 1, a.pending), pending := 0)
  }

  // The panel counts a report id once, however often it receives it.
  function Receive(a: Account, slip: Slip): Account
    requires slip.Slip?
  {
    if slip.id in a.panelSeen then a
    else a.(panelSeen := a.panelSeen + {slip.id}, panelTotal := a.panelTotal + slip.amount)
  }

  // The end of a push: the panel may have received a report although the sender saw an error.
  function Finish(a: Account, received: bool, acked: bool): Account
    requires a.inFlight.Slip?
  {
    var b := if received then Receive(a, a.inFlight) else a;
    if acked then b.(inFlight := NoSlip, retry := if b.retry == b.inFlight then NoSlip else b.retry)
    else b.(inFlight := NoSlip, retry := b.inFlight)
  }

  function Outstanding(a: Account): int {
    var slip := if a.inFlight.Slip? then a.inFlight else a.retry;
    if slip.Slip? && slip.id !in a.panelSeen then slip.amount else 0
  }

  function Held(a: Account): int { a.panelTotal + Outstanding(a) + a.pending }

  ghost predicate Ok(a: Account) {
    && (forall id <- a.panelSeen :: id <= a.lastId)
    && (a.retry.Slip? ==> a.retry.id <= a.lastId)
    && (a.inFlight.Slip? ==> a.inFlight.id <= a.lastId)
    && (a.inFlight.Slip? && a.retry.Slip? ==> a.inFlight == a.retry)
  }

  lemma TakeKeeps(a: Account)
    requires Ok(a) && a.inFlight.NoSlip?
    ensures Ok(Take(a)) && Held(Take(a)) == Held(a)
  {
  }

  lemma FinishKeeps(a: Account, received: bool, acked: bool)
    requires Ok(a) && a.inFlight.Slip? && (acked ==> received)
    ensures Ok(Finish(a, received, acked)) && Held(Finish(a, received, acked)) == Held(a)
    ensures acked ==> Finish(a, received, acked).retry.NoSlip? && Outstanding(Finish(a, received, acked)) == 0
  {
  }

  // ----- Whole runs -----

  datatype Step =
    | Sampled(cum: int)
    | Taken
    | Finished(received: bool, acked: bool)

  predicate Enabled(a: Account, step: Step) {
    match step
    case Sampled(_) => true
    case Taken => a.inFlight.NoSlip?
    case Finished(received, acked) => a.inFlight.Slip? && (acked ==> received)
  }

  function Apply(a: Account, step: Step): Account
    requires Enabled(a, step)
  {
    match step
    case Sampled(cum) => Sample(a, cum)
    case Taken => Take(a)
    case Finished(received, acked) => Finish(a, received, acked)
  }

  ghost predicate Runnable(a: Account, steps: seq<Step>)
    decreases |steps|
  {
    steps == [] || (Enabled(a, steps[0]) && Runnable(Apply(a, steps[0]), steps[1..]))
  }

  function After(a: Account, steps: seq<Step>): Account
    requires Runnable(a, steps)
    decreases |steps|
  {
    if steps == [] then a else After(Apply(a, steps[0]), steps[1..])
  }

  // The traffic the samples of a run stand for.
  function Measured(prev: int, steps: seq<Step>): int
    decreases |steps|
  {
    if steps == [] then 0
    else if steps[0].Sampled? then Delta(prev, steps[0].cum) + Measured(steps[0].cum, steps[1..])
    else Measured(prev, steps[1..])
  }

  function LastSample(prev: int, steps: seq<Step>): int
    decreases |steps|
  {
    if steps == [] then prev else LastSample(if steps[0].Sampled? then steps[0].cum else prev, steps[1..])
  }

  // The samples never go down.
  predicate Monotone(prev: int, steps: seq<Step>)
    decreases |steps|
  {
    steps == []
    || (if steps[0].Sampled? then prev <= steps[0].cum && Monotone(steps[0].cum, steps[1..])
        else Monotone(prev, steps[1..]))
  }

  lemma {:induction false} RunKeeps(a: Account, steps: seq<Step>)
    requires Ok(a) && Runnable(a, steps)
    ensures Ok(After(a, steps))
    ensures Held(After(a, steps)) == Held(a) + Measured(a.lastSeen, steps)
    ensures After(a, steps).lastSeen == LastSample(a.lastSeen, steps)
    decreases |steps|
  {
    if steps != [] {
      match steps[0] {
        case Sampled(_) =>
        case Taken => TakeKeeps(a);
        case Finished(received, acked) => FinishKeeps(a, received, acked);
      }
      RunKeeps(Apply(a, steps[0]), steps[1..]);
    }
  }

  lemma {:induction false} MonotoneTelescopes(prev: int, steps: seq<Step>)
    requires Monotone(prev, steps)
    ensures Measured(prev, steps) == LastSample(prev, steps) - prev
    decreases |steps|
  {
    if steps != [] {
      MonotoneTelescopes(if steps[0].Sampled? then steps[0].cum else prev, steps[1..]);
    }
  }

  // What counters that start again after a fall have counted: the last value before each fall, and the last one.
  function SumOfPeaks(prev: int, steps: seq<Step>): int
    decreases |steps|
  {
    if steps == [] then prev
    else if steps[0].Sampled? then
      (if steps[0].cum < prev then prev else 0) + SumOfPeaks(steps[0].cum, steps[1..])
    else SumOfPeaks(prev, steps[1..])
  }

  lemma {:induction false} MeasuredIsPeaks(prev: int, steps: seq<Step>)
    ensures Measured(prev, steps) == SumOfPeaks(prev, steps) - prev
    decreases |steps|
  {
    if steps != [] {
      MeasuredIsPeaks(if steps[0].Sampled? then steps[0].cum else prev, steps[1..]);
    }
  }

  predicate IsNew(a: Account) {
    a.lastSeen == 0 && a.pending == 0 && a.retry.NoSlip? && a.inFlight.NoSlip? && a.panelSeen == {} && a.panelTotal == 0
  }

  // In every run, whatever was lost or received behind an error: panel total, the one batch the panel has
  // not counted, and what is pending add up to what the sampled counters have counted, also when they start
  // again; with monotone counters that is the last sample itself.
  lemma {:induction false} NothingLostNothingTwice(start: Account, steps: seq<Step>)
    requires IsNew(start) && Runnable(start, steps)
    ensures var a := After(start, steps);
            && a.panelTotal + Outstanding(a) + a.pending == SumOfPeaks(start.lastSeen, steps)
            && (Monotone(start.lastSeen, steps) ==> a.panelTotal + Outstanding(a) + a.pending == a.lastSeen)
  {
    RunKeeps(start, steps);
    MeasuredIsPeaks(start.lastSeen, steps);
    if Monotone(start.lastSeen, steps) {
      MonotoneTelescopes(start.lastSeen, steps);
    }
  }

  // A final push that gets through leaves the whole account with the panel: one batch, or the failed one
  // and then a last one.
  lemma {:induction false} FinalPushDelivers(a: Account)
    requires Ok(a) && a.inFlight.NoSlip?
    ensures a.retry.NoSlip? ==>
              var b := Finish(Take(a), true, true);
              b.panelTotal == Held(a) && Outstanding(b) == 0 && b.pending == 0
    ensures a.retry.Slip? ==>
              var b := Finish(Take(Finish(Take(a), true, true)), true, true);
              b.panelTotal == Held(a) && Outstanding(b) == 0 && b.pending == 0
  {
  }

  // ----- The tracker, the reporter and the panel, in place -----

  class Tracker {
    var lastSeen: Totals
    var pending: Totals

    constructor ()
      ensures lastSeen == map[] && pending == map[]
    {
      lastSeen, pending := map[], map[];
    }

    // Process, ProcessRelay and ProcessRelayUser run the same loop over three kinds of keys.
    method Process(cum: Totals)
      requires forall key <- cum :: cum[key].up >= 0 && cum[key].down >= 0
      modifies this
      ensures forall key, d :: Get(lastSeen, key, d) == if key in cum then cum[key].Of(d) else old(Get(lastSeen, key, d))
      ensures forall key, d :: Get(pending, key, d) ==
                old(Get(pending, key, d)) + if key in cum then Delta(old(Get(lastSeen, key, d)), cum[key].Of(d)) else 0
    {
      var keys, done := cum.Keys, {};
      while keys != {}
        invariant keys !! done && keys + done == cum.Keys
        invariant forall key, d ::
                    Get(lastSeen, key, d) == if key in done then cum[key].Of(d) else old(Get(lastSeen, key, d))
        invariant forall key, d :: Get(pending, key, d) ==
                    old(Get(pending, key, d)) + if key in done then Delta(old(Get(lastSeen, key, d)), cum[key].Of(d)) else 0
        decreases keys
      {
        var uid :| uid in keys;
        keys, done := keys - {uid}, done + {uid};
        var current, prev := cum[uid], Entry(lastSeen, uid);
        var deltaUp := current.up - prev.up;
        var deltaDown := current.down - prev.down;
        if deltaUp < 0 {
          deltaUp := current.up;
        }
        if deltaDown < 0 {
          deltaDown := current.down;
        }
        lastSeen := lastSeen[uid := current];
        if deltaUp > 0 || deltaDown > 0 {
          var cur := Entry(pending, uid);
          pending := pending[uid := Bytes(cur.up + deltaUp, cur.down + deltaDown)];
        }
      }
    }

    method Flush() returns (data: Totals)
      modifies this
      ensures data == old(pending) && pending == map[] && lastSeen == old(lastSeen)
    {
      data := pending;
      pending := map[];
    }
  }

  datatype Batch = NoBatch | Batch(id: nat, traffic: Totals)

  function SlipOf(b: Batch, key: Key, d: Direction): Slip {
    if b.NoBatch? then NoSlip else Slip(b.id, Get(b.traffic, key, d))
  }

  // The panel, deduplicating by report id. Requests and answers may each be lost.
  class Panel {
    var seen: set<nat>
    var total: Totals
    // How many reports its sender took for failed.
    ghost var refusals: nat

    constructor ()
      ensures seen == {} && total == map[]
    {
      seen, total, refusals := {}, map[], 0;
    }

    method Report(b: Batch) returns (received: bool, acked: bool)
      requires b.Batch?
      modifies this
      ensures acked ==> received
      ensures refusals == old(refusals) + if acked then 0 else 1
      ensures seen == if received then old(seen) + {b.id} else old(seen)
      ensures forall key, d :: Get(total, key, d) ==
                old(Get(total, key, d)) + if received && b.id !in old(seen) then Get(b.traffic, key, d) else 0
    {
      acked := *;
      received := *;
      if acked {
        received := true;
      } else {
        refusals := refusals + 1;
      }
      if received && b.id !in seen {
        total := map key | key in total.Keys + b.traffic.Keys ::
          Bytes(Entry(total, key).up + Entry(b.traffic, key).up, Entry(total, key).down + Entry(b.traffic, key).down);
      }
      if received {
        seen := seen + {b.id};
      }
    }
  }

  class Service {
    const tracker: Tracker
    const panel: Panel
    var retryReport: Batch
    var inFlight: Batch      // the batch of the running push; pushActive is inFlight.Batch?
    var pushClosing: bool
    var reportSeq: nat

    ghost predicate Valid()
      reads this, panel
    {
      && (forall id <- panel.seen :: id <= reportSeq)
      && (retryReport.Batch? ==> retryReport.id <= reportSeq)
      && (inFlight.Batch? ==> inFlight.id <= reportSeq)
      && (inFlight.Batch? && retryReport.Batch? ==> inFlight == retryReport)
    }

    // The account of one key and direction.
    ghost function View(key: Key, d: Direction): Account
      reads this, tracker, panel
    {
      Account(Get(tracker.lastSeen, key, d), Get(tracker.pending, key, d),
              SlipOf(retryReport, key, d), SlipOf(inFlight, key, d), reportSeq,
              panel.seen, Get(panel.total, key, d))
    }

    lemma {:induction false} ViewOk(key: Key, d: Direction)
      requires Valid()
      ensures Ok(View(key, d))
    {
    }

    constructor ()
      ensures Valid() && fresh(tracker) && fresh(panel) && !pushClosing
      ensures forall key, d :: IsNew(View(key, d))
    {
      tracker := new Tracker();
      panel := new Panel();
      retryReport, inFlight, pushClosing, reportSeq := NoBatch, NoBatch, false, 0;
    }

    method CollectTraffic(cum: Totals)
      requires Valid() && forall key <- cum :: cum[key].up >= 0 && cum[key].down >= 0
      modifies tracker
      ensures Valid()
      ensures forall key, d :: View(key, d) ==
                if key in cum then Sample(old(View(key, d)), cum[key].Of(d)) else old(View(key, d))
    {
      tracker.Process(cum);
    }

    method TakeReportBatch() returns (batch: Batch)
      requires Valid() && inFlight.NoBatch?
      modifies this`reportSeq, tracker
      ensures batch.Batch?
      ensures forall key, d :: View(key, d).(inFlight := SlipOf(batch, key, d)) == Take(old(View(key, d)))
      ensures batch.id <= reportSeq && reportSeq >= old(reportSeq)
      ensures retryReport.Batch? ==> batch == retryReport
    {
      if retryReport.Batch? {
        return retryReport;
      }
      var traffic := tracker.Flush();
      reportSeq := reportSeq + 1;
      batch := Batch(reportSeq, traffic);
    }

    // pushReportAsync up to the start of its goroutine.
    method BeginPush(backoff: bool) returns (started: bool)
      requires Valid()
      modifies this, tracker
      ensures Valid() && pushClosing == old(pushClosing)
      ensures started <==> !old(pushClosing) && old(inFlight).NoBatch? && !backoff
      ensures forall key, d :: View(key, d) == if started then Take(old(View(key, d))) else old(View(key, d))
    {
      if pushClosing {
        return false;
      }
      if inFlight.Batch? {
        return false;
      }
      if backoff {
        return false;
      }
      inFlight := TakeReportBatch();
      started := true;
    }

    // The goroutine: report, then remember or forget the batch.
    method FinishPush() returns (received: bool, acked: bool)
      requires Valid() && inFlight.Batch?
      modifies this, panel
      ensures Valid() && pushClosing == old(pushClosing) && inFlight.NoBatch?
      ensures (acked ==> received) && (retryReport.NoBatch? <==> acked)
      ensures forall key, d :: View(key, d) == Finish(old(View(key, d)), received, acked)
      ensures panel.refusals == old(panel.refusals) + if acked then 0 else 1
    {
      var batch := inFlight;
      received, acked := panel.Report(batch);
      if !acked {
        retryReport := batch;
      } else if retryReport == batch {
        retryReport := NoBatch;
      }
      inFlight := NoBatch;
    }

    // Called when the node stops, after waiting for the running push.
    method PushReportSync(final: Totals, collected: bool) returns (delivered: bool)
      requires Valid() && inFlight.NoBatch?
      requires forall key <- final :: final[key].up >= 0 && final[key].down >= 0
      modifies this, tracker, panel
      ensures Valid() && pushClosing && inFlight.NoBatch?
      ensures forall key, d ::
                Held(View(key, d)) == old(Held(View(key, d)))
                  + if collected && key in final then Delta(old(View(key, d)).lastSeen, final[key].Of(d)) else 0
      ensures delivered ==> retryReport.NoBatch? && forall key, d :: Get(panel.total, key, d) == Held(View(key, d))
      ensures !delivered ==> panel.refusals > old(panel.refusals)
    {
      pushClosing := true;
      if collected {
        CollectTraffic(final);
      }
      var batchCount := if retryReport.Batch? then 2 else 1;
      label sampled:
      for i := 0 to batchCount
        invariant Valid() && pushClosing && inFlight.NoBatch? && panel.refusals == old(panel.refusals)
        invariant retryReport.Batch? ==> i == 0 && batchCount == 2
        invariant forall key, d :: Held(View(key, d)) == old@sampled(Held(View(key, d)))
        invariant i == batchCount ==> forall key, d :: View(key, d).pending == 0 && Outstanding(View(key, d)) == 0
      {
        var acked := PushOnce();
        if !acked {
          return false;
        }
      }
      delivered := true;
    }

    // One round of the final loop.
    method PushOnce() returns (acked: bool)
      requires Valid() && inFlight.NoBatch?
      modifies this, tracker, panel
      ensures Valid() && pushClosing == old(pushClosing) && inFlight.NoBatch?
      ensures forall key, d :: Held(View(key, d)) == old(Held(View(key, d)))
      ensures acked ==> retryReport.NoBatch? && forall key, d :: Outstanding(View(key, d)) == 0
      ensures acked && old(retryReport).NoBatch? ==> forall key, d :: View(key, d).pending == 0
      ensures panel.refusals == old(panel.refusals) + if acked then 0 else 1
    {
      forall key, d ensures Ok(View(key, d)) && Held(Take(View(key, d))) == Held(View(key, d)) {
        ViewOk(key, d);
        TakeKeeps(View(key, d));
      }
      inFlight := TakeReportBatch();
      label taken:
      forall key, d ensures Ok(View(key, d)) {
        ViewOk(key, d);
      }
      var received;
      received, acked := FinishPush();
      forall key, d
        ensures Held(View(key, d)) == old@taken(Held(View(key, d)))
        ensures acked ==> Outstanding(View(key, d)) == 0
      {
        FinishKeeps(old@taken(View(key, d)), received, acked);
      }
    }
  }
}
