/** The machine's node lifecycle as a step system: any number of threads start and stop nodes while
    services end on their own. A step is what one thread does under a lock, or between two. */
module Machine {
  type NodeId = int

  type HandleId = nat

  /** A handle from registration to the end of its goroutine: the service is launched, Run returns, the
      node is unregistered, the map entry is given up, the done channel is closed. */
  datatype Phase = Starting | Running | Returned | Unregistered | Finished | Closed

  datatype Handle = Handle(node: NodeId, kernel: string, cancelled: bool, phase: Phase)

  datatype StopAt = Look | DropMailbox(h: HandleId) | Cancel(h: HandleId) | Wait(h: HandleId) | Drop(h: HandleId)

  // Where a thread is in startNode or stopNode.
  datatype Thread =
    | Begin(node: NodeId, kernel: string)
    | Restart(node: NodeId, kernel: string, at: StopAt)
    | Again(node: NodeId, kernel: string)
    | Registered(started: HandleId)
    | Ready(started: HandleId)
    | Stop(node: NodeId, at: StopAt)
    | Over

  // nodes and mailboxes are the shared maps.
  datatype State = State(
    handles: map<HandleId, Handle>, nodes: map<NodeId, HandleId>, mailboxes: map<NodeId, HandleId>,
    threads: map<nat, Thread>, next: HandleId)

  datatype Step =
    | Spawn(t: nat, thread: Thread)
    | Advance(t: nat)
    | Return(h: HandleId)
    | Unregister(h: HandleId)
    | Finish(h: HandleId)
    | Close(h: HandleId)

  const INITIAL := State(map[], map[], map[], map[], 0)

  function WithPhase(s: State, h: HandleId, phase: Phase): State
    requires h in s.handles
  {
    s.(handles := s.handles[h := s.handles[h].(phase := phase)])
  }

  predicate In(s: State, h: HandleId, phase: Phase) { h in s.handles && s.handles[h].phase == phase }

  function Register(s: State, t: nat, node: NodeId, kernel: string): State {
    s.(handles := s.handles[s.next := Handle(node, kernel, false, Starting)],
       nodes := s.nodes[node := s.next],
       threads := s.threads[t := Registered(s.next)],
       next := s.next + 1)
  }

  // One step of stopNode; None means that it has ended.
  datatype Progress = At(at: StopAt) | Ended | Blocked

  function StopProgress(s: State, node: NodeId, at: StopAt): Progress {
    match at
    case Look => if node in s.nodes then At(DropMailbox(s.nodes[node])) else Ended
    case DropMailbox(h) => At(Cancel(h))
    case Cancel(h) => At(Wait(h))
    case Wait(h) => if In(s, h, Closed) then At(Drop(h)) else Blocked
    case Drop(h) => Ended
  }

  function StopEffect(s: State, node: NodeId, at: StopAt): State {
    match at
    case DropMailbox(_) => s.(mailboxes := s.mailboxes - {node})
    case Cancel(h) => if h in s.handles then s.(handles := s.handles[h := s.handles[h].(cancelled := true)]) else s
    case Drop(h) => if node in s.nodes && s.nodes[node] == h then s.(nodes := s.nodes - {node}) else s
    case _ => s
  }

  function AdvanceThread(s: State, t: nat): State
    requires t in s.threads
  {
    match s.threads[t]
    case Begin(node, kernel) =>
      if node !in s.nodes then Register(s, t, node, kernel)
      else if s.nodes[node] in s.handles && s.handles[s.nodes[node]].kernel == kernel then s.(threads := s.threads[t := Over])
      else s.(threads := s.threads[t := Restart(node, kernel, Look)])
    case Restart(node, kernel, at) =>
      var after := StopEffect(s, node, at);
      (match StopProgress(s, node, at)
       case At(next) => after.(threads := s.threads[t := Restart(node, kernel, next)])
       case Ended => after.(threads := s.threads[t := Again(node, kernel)])
       case Blocked => s)
    case Again(node, kernel) =>
      if node in s.nodes then s.(threads := s.threads[t := Over]) else Register(s, t, node, kernel)
    case Registered(h) =>
      if h in s.handles then s.(mailboxes := s.mailboxes[s.handles[h].node := h], threads := s.threads[t := Ready(h)])
      else s
    case Ready(h) =>
      if In(s, h, Starting) then WithPhase(s, h, Running).(threads := s.threads[t := Over]) else s
    case Stop(node, at) =>
      var after := StopEffect(s, node, at);
      (match StopProgress(s, node, at)
       case At(next) => after.(threads := s.threads[t := Stop(node, next)])
       case Ended => after.(threads := s.threads[t := Over])
       case Blocked => s)
    case Over => s
  }

  // A step that is not enabled does nothing.
  function Next(s: State, step: Step): State {
    match step
    case Spawn(t, thread) =>
      if t !in s.threads && (thread.Begin? || (thread.Stop? && thread.at.Look?)) then s.(threads := s.threads[t := thread]) else s
    case Advance(t) => if t in s.threads then AdvanceThread(s, t) else s
    case Return(h) => if In(s, h, Running) then WithPhase(s, h, Returned) else s
    case Unregister(h) =>
      if In(s, h, Returned) then WithPhase(s, h, Unregistered).(mailboxes := s.mailboxes - {s.handles[h].node}) else s
    case Finish(h) =>
      if In(s, h, Unregistered) then
        var node := s.handles[h].node;
        var after := WithPhase(s, h, Finished);
        if node in s.nodes && s.nodes[node] == h then after.(nodes := s.nodes - {node}) else after
      else s
    case Close(h) => if In(s, h, Finished) then WithPhase(s, h, Closed) else s
  }

  function Run(s: State, steps: seq<Step>): State {
    if steps == [] then s else Next(Run(s, steps[..|steps| - 1]), steps[|steps| - 1])
  }

  // ----- One service a node -----

  predicate Live(h: Handle) { h.phase in {Starting, Running, Returned, Unregistered} }

  // The handle that a thread has registered and is about to launch, or -1.
  function Launches(t: Thread): int { if t.Registered? || t.Ready? then t.started else -1 }

  // The map entry of a node is a handle of that node, and every live handle is its node's entry.
  ghost predicate EntriesRight(s: State) {
    && (forall n <- s.nodes :: s.nodes[n] in s.handles && s.handles[s.nodes[n]].node == n)
    && (forall h <- s.handles :: h < s.next && (Live(s.handles[h]) ==>
          s.handles[h].node in s.nodes && s.nodes[s.handles[h].node] == h))
  }

  // A handle that a thread is about to launch is starting, and no other thread launches it.
  ghost predicate LaunchedOnce(s: State) {
    && (forall t <- s.threads :: Launches(s.threads[t]) >= 0 ==> In(s, Launches(s.threads[t]), Starting))
    && (forall t <- s.threads, u <- s.threads ::
          t != u && Launches(s.threads[t]) >= 0 ==> Launches(s.threads[t]) != Launches(s.threads[u]))
  }

  predicate Dropping(t: Thread) { (t.Restart? || t.Stop?) && t.at.Drop? }

  // A thread about to drop a map entry has seen the handle's done channel closed.
  ghost predicate DropsAreClosed(s: State) {
    forall t <- s.threads :: Dropping(s.threads[t]) ==> In(s, s.threads[t].at.h, Closed)
  }

  ghost predicate Inv(s: State) { EntriesRight(s) && LaunchedOnce(s) && DropsAreClosed(s) }

  lemma {:induction false} RegisterKeepsEntries(s: State, t: nat, node: NodeId, kernel: string)
    requires EntriesRight(s) && node !in s.nodes
    ensures EntriesRight(Register(s, t, node, kernel))
  {
  }

  lemma {:induction false} RegisterKeeps(s: State, t: nat, node: NodeId, kernel: string)
    requires Inv(s) && t in s.threads && node !in s.nodes
    ensures Inv(Register(s, t, node, kernel))
  {
    RegisterKeepsEntries(s, t, node, kernel);
    var after := Register(s, t, node, kernel);
    assert forall u <- after.threads :: u == t || (u in s.threads && after.threads[u] == s.threads[u]);
    RegisterKeepsThreads(s, after, t);
  }

  // The new handle is launched by its own thread; nothing changes for the others.
  lemma {:induction false} RegisterKeepsThreads(s: State, after: State, t: nat)
    requires LaunchedOnce(s) && DropsAreClosed(s) && s.next !in s.handles && t in after.threads
    requires forall h <- s.handles :: h in after.handles && after.handles[h] == s.handles[h]
    requires In(after, s.next, Starting) && after.threads[t] == Registered(s.next)
    requires forall u <- after.threads :: u == t || (u in s.threads && after.threads[u] == s.threads[u])
    ensures LaunchedOnce(after) && DropsAreClosed(after)
  {
    assert DropsAreClosed(after);
    hide DropsAreClosed;
    assert Launches(after.threads[t]) == s.next;
    assert forall u <- after.threads :: u != t ==> Launches(after.threads[u]) != s.next;
  }

  // A thread that goes on without launching anything.
  lemma {:induction false} GoesOn(s: State, t: nat, thread: Thread)
    requires Inv(s) && Launches(thread) == -1 && (Dropping(thread) ==> In(s, thread.at.h, Closed))
    ensures Inv(s.(threads := s.threads[t := thread]))
  {
  }

  // A handle moves on in its life; nobody is about to launch it.
  lemma {:induction false} PhaseKeeps(s: State, h: HandleId, phase: Phase)
    requires Inv(s) && h in s.handles && s.handles[h].phase != Closed
    requires (Live(s.handles[h]) && phase in {Running, Returned, Unregistered}) || !Live(s.handles[h].(phase := phase))
    requires forall t <- s.threads :: Launches(s.threads[t]) != h
    ensures Inv(WithPhase(s, h, phase))
  {
  }

  lemma {:induction false} OnlyStartingIsLaunched(s: State, h: HandleId)
    requires Inv(s) && h in s.handles && s.handles[h].phase != Starting
    ensures forall t <- s.threads :: Launches(s.threads[t]) != h
  {
  }

  lemma {:induction false} MailboxesDoNotMatter(s: State, mailboxes: map<NodeId, HandleId>)
    requires Inv(s)
    ensures Inv(s.(mailboxes := mailboxes))
  {
  }

  lemma {:induction false} CancelKeeps(s: State, h: HandleId)
    requires Inv(s) && h in s.handles
    ensures Inv(s.(handles := s.handles[h := s.handles[h].(cancelled := true)]))
  {
  }

  // The entry of a node can go once its handle is no longer live.
  lemma {:induction false} DropKeeps(s: State, node: NodeId)
    requires Inv(s) && node in s.nodes && !Live(s.handles[s.nodes[node]])
    ensures Inv(s.(nodes := s.nodes - {node}))
  {
  }

  lemma {:induction false} StopEffectKeeps(s: State, node: NodeId, at: StopAt)
    requires Inv(s) && (at.Drop? ==> In(s, at.h, Closed))
    ensures Inv(StopEffect(s, node, at)) && StopEffect(s, node, at).threads == s.threads
    ensures forall h :: In(s, h, Closed) ==> In(StopEffect(s, node, at), h, Closed)
  {
    match at {
      case DropMailbox(_) => MailboxesDoNotMatter(s, s.mailboxes - {node});
      case Cancel(h) => if h in s.handles { CancelKeeps(s, h); }
      case Drop(h) => if node in s.nodes && s.nodes[node] == h { DropKeeps(s, node); }
      case _ =>
    }
  }

  lemma {:induction false} StopKeeps(s: State, t: nat, node: NodeId, at: StopAt, thread: Thread)
    requires Inv(s) && t in s.threads && (at.Drop? ==> In(s, at.h, Closed))
    requires Launches(thread) == -1 && (Dropping(thread) ==> In(s, thread.at.h, Closed))
    ensures Inv(StopEffect(s, node, at).(threads := s.threads[t := thread]))
  {
    StopEffectKeeps(s, node, at);
    GoesOn(StopEffect(s, node, at), t, thread);
  }

  lemma {:induction false} AdvanceKeeps(s: State, t: nat)
    requires Inv(s) && t in s.threads
    ensures Inv(AdvanceThread(s, t))
  {
    hide Inv;
    DropIsClosed(s, t);
    match s.threads[t] {
      case Begin(node, kernel) =>
        if node !in s.nodes {
          RegisterKeeps(s, t, node, kernel);
        } else {
          GoesOn(s, t, Over);
          GoesOn(s, t, Restart(node, kernel, Look));
        }
      case Restart(node, kernel, at) =>
        match StopProgress(s, node, at) {
          case At(next) => StopKeeps(s, t, node, at, Restart(node, kernel, next));
          case Ended => StopKeeps(s, t, node, at, Again(node, kernel));
          case Blocked =>
        }
      case Again(node, kernel) =>
        if node !in s.nodes {
          RegisterKeeps(s, t, node, kernel);
        } else {
          GoesOn(s, t, Over);
        }
      case Registered(h) => PrepareKeeps(s, t, h);
      case Ready(h) => LaunchKeeps(s, t, h);
      case Stop(node, at) =>
        match StopProgress(s, node, at) {
          case At(next) => StopKeeps(s, t, node, at, Stop(node, next));
          case Ended => StopKeeps(s, t, node, at, Over);
          case Blocked =>
        }
      case Over =>
    }
  }

  lemma {:induction false} DropIsClosed(s: State, t: nat)
    requires Inv(s) && t in s.threads
    ensures Dropping(s.threads[t]) ==> In(s, s.threads[t].at.h, Closed)
  {
  }

  lemma {:induction false} PrepareKeeps(s: State, t: nat, h: HandleId)
    requires Inv(s) && t in s.threads && s.threads[t] == Registered(h)
    ensures Inv(AdvanceThread(s, t))
  {
  }

  lemma {:induction false} LaunchKeeps(s: State, t: nat, h: HandleId)
    requires Inv(s) && t in s.threads && s.threads[t] == Ready(h)
    ensures Inv(AdvanceThread(s, t))
  {
    assert Launches(s.threads[t]) == h;
    var over := s.(threads := s.threads[t := Over]);
    GoesOn(s, t, Over);
    assert forall u <- over.threads :: Launches(over.threads[u]) != h;
    PhaseKeeps(over, h, Running);
  }

  lemma {:induction false} StepKeeps(s: State, step: Step)
    requires Inv(s)
    ensures Inv(Next(s, step))
  {
    hide Inv, AdvanceThread;
    match step {
      case Spawn(t, thread) => GoesOn(s, t, if thread.Begin? || (thread.Stop? && thread.at.Look?) then thread else Over);
      case Advance(t) => if t in s.threads { AdvanceKeeps(s, t); }
      case Return(h) => if In(s, h, Running) { MovesOn(s, h, Returned); }
      case Unregister(h) =>
        if In(s, h, Returned) {
          MovesOn(s, h, Unregistered);
          MailboxesDoNotMatter(WithPhase(s, h, Unregistered), s.mailboxes - {s.handles[h].node});
        }
      case Finish(h) => if In(s, h, Unregistered) { FinishKeeps(s, h); }
      case Close(h) => if In(s, h, Finished) { MovesOn(s, h, Closed); }
    }
  }

  lemma {:induction false} MovesOn(s: State, h: HandleId, phase: Phase)
    requires Inv(s) && h in s.handles && s.handles[h].phase != Closed && s.handles[h].phase != Starting
    requires (Live(s.handles[h]) && phase in {Returned, Unregistered}) || !Live(s.handles[h].(phase := phase))
    ensures Inv(WithPhase(s, h, phase))
  {
    OnlyStartingIsLaunched(s, h);
    PhaseKeeps(s, h, phase);
  }

  lemma {:induction false} FinishKeeps(s: State, h: HandleId)
    requires Inv(s) && In(s, h, Unregistered)
    ensures Inv(Next(s, Finish(h)))
  {
    var node, after := s.handles[h].node, WithPhase(s, h, Finished);
    MovesOn(s, h, Finished);
    if node in s.nodes && s.nodes[node] == h {
      DropKeeps(after, node);
    }
  }

  lemma {:induction false} RunKeeps(steps: seq<Step>)
    ensures Inv(Run(INITIAL, steps))
    decreases |steps|
  {
    if steps != [] {
      RunKeeps(steps[..|steps| - 1]);
      StepKeeps(Run(INITIAL, steps[..|steps| - 1]), steps[|steps| - 1]);
    }
  }

  /** However starts, stops, restarts and services ending on their own are interleaved, a running service is
      its node's map entry, so a node never has two. */
  lemma {:induction false} OneServiceANode(steps: seq<Step>, g: HandleId, h: HandleId)
    ensures var s := Run(INITIAL, steps);
            && (In(s, g, Running) ==> s.handles[g].node in s.nodes && s.nodes[s.handles[g].node] == g)
            && (In(s, g, Running) && In(s, h, Running) && s.handles[g].node == s.handles[h].node ==> g == h)
  {
    RunKeeps(steps);
  }

  // ----- Mailboxes -----

  function StopOf(t: Thread): StopAt { if t.Restart? || t.Stop? then t.at else Look }

  // Some stopNode has removed the mailbox of the handle and is cancelling it or waiting for its end.
  ghost predicate BeingStopped(s: State, h: HandleId) {
    exists t <- s.threads :: StopOf(s.threads[t]) == Cancel(h) || StopOf(s.threads[t]) == Wait(h)
  }

  predicate HasMailbox(s: State, h: HandleId)
    requires h in s.handles
  {
    s.handles[h].node in s.mailboxes && s.mailboxes[s.handles[h].node] == h
  }

  predicate AboutToRun(s: State, h: HandleId) { exists t <- s.threads :: s.threads[t] == Ready(h) }

  // A handle that runs or is about to is its node's only live one.
  lemma {:induction false} RunnersAreEntries(s: State, h: HandleId)
    requires Inv(s) && h in s.handles && (In(s, h, Running) || AboutToRun(s, h))
    ensures s.handles[h].node in s.nodes && s.nodes[s.handles[h].node] == h && s.handles[h].phase in {Starting, Running}
  {
  }

  ghost predicate Reachable(s: State, h: HandleId)
    requires h in s.handles
  {
    HasMailbox(s, h) || BeingStopped(s, h)
  }

  predicate Runner(s: State, h: HandleId) { h in s.handles && (In(s, h, Running) || AboutToRun(s, h)) }

  predicate Stops(t: Thread, h: HandleId) { StopOf(t) == Cancel(h) || StopOf(t) == Wait(h) }

  // A step of thread t leaves the handle reachable if it leaves its mailbox or is stopping it.
  lemma {:induction false} StillReachable(s: State, after: State, t: nat, h: HandleId)
    requires h in s.handles && h in after.handles && Reachable(s, h)
    requires forall u <- s.threads :: u != t ==> u in after.threads && after.threads[u] == s.threads[u]
    requires t in s.threads && Stops(s.threads[t], h) ==> t in after.threads && Stops(after.threads[t], h)
    requires HasMailbox(s, h) ==> Reachable(after, h)
    ensures Reachable(after, h)
  {
  }

  lemma {:induction false} ReadyIsStarting(s: State, h: HandleId)
    requires Inv(s) && AboutToRun(s, h)
    ensures In(s, h, Starting)
  {
  }

  // Only a Ready thread sets a handle running, and only a Registered one becomes Ready.
  lemma {:induction false} AdvanceThreadOnly(s: State, t: nat, h: HandleId)
    requires t in s.threads && In(AdvanceThread(s, t), h, Running)
    ensures In(s, h, Running) || s.threads[t] == Ready(h)
  {
  }

  lemma {:induction false} BecomesReady(s: State, t: nat, u: nat, h: HandleId)
    requires t in s.threads && u in AdvanceThread(s, t).threads && AdvanceThread(s, t).threads[u] == Ready(h)
    ensures (u in s.threads && s.threads[u] == Ready(h)) || s.threads[t] == Registered(h)
  {
  }

  lemma {:induction false} WasRunnerBefore(s: State, t: nat, h: HandleId)
    requires Inv(s) && t in s.threads && Runner(AdvanceThread(s, t), h)
    ensures Runner(s, h) || s.threads[t] == Registered(h)
  {
    hide Inv, AdvanceThread;
    if In(AdvanceThread(s, t), h, Running) {
      AdvanceThreadOnly(s, t, h);
    } else {
      var u :| u in AdvanceThread(s, t).threads && AdvanceThread(s, t).threads[u] == Ready(h);
      BecomesReady(s, t, u, h);
    }
    if AboutToRun(s, h) {
      ReadyIsStarting(s, h);
    }
  }

  // No step but a thread's own turns a handle into one that runs or is about to.
  lemma {:induction false} WasRunner(s: State, step: Step, h: HandleId)
    requires Inv(s) && Runner(Next(s, step), h)
    ensures Runner(s, h) || (step.Advance? && step.t in s.threads && s.threads[step.t] == Registered(h))
  {
    hide Inv, AdvanceThread;
    if step.Advance? && step.t in s.threads {
      WasRunnerBefore(s, step.t, h);
    } else if AboutToRun(Next(s, step), h) {
      var t :| t in Next(s, step).threads && Next(s, step).threads[t] == Ready(h);
      assert t in s.threads && s.threads[t] == Ready(h);
      ReadyIsStarting(s, h);
    }
  }

  // The thread is about to remove the mailbox of a node.
  predicate Drops(t: Thread, node: NodeId, g: HandleId) {
    (t.Restart? || t.Stop?) && t.node == node && t.at == DropMailbox(g)
  }

  /** A stopNode that removes the mailbox of a node whose service runs leaves that service reachable
      exactly when it stops the very handle, or another one already does. */
  lemma {:induction false} DropMailboxKeepsIff(s: State, t: nat, g: HandleId, h: HandleId)
    requires Inv(s) && t in s.threads && Runner(s, h) && Reachable(s, h) && Drops(s.threads[t], s.handles[h].node, g)
    ensures h in AdvanceThread(s, t).handles
    ensures Reachable(AdvanceThread(s, t), h) <==> g == h || BeingStopped(s, h)
  {
    var after := AdvanceThread(s, t);
    assert after.handles == s.handles && !HasMailbox(after, h);
    if g == h {
      assert Stops(after.threads[t], h);
    } else {
      OtherStops(s, after, t, h);
    }
  }

  // A step of a thread that does not stop the handle before or after changes nothing about who does.
  lemma {:induction false} OtherStops(s: State, after: State, t: nat, h: HandleId)
    requires t in s.threads && t in after.threads && after.threads == s.threads[t := after.threads[t]]
    requires !Stops(s.threads[t], h) && !Stops(after.threads[t], h)
    ensures BeingStopped(after, h) <==> BeingStopped(s, h)
  {
    if BeingStopped(s, h) {
      var u :| u in s.threads && Stops(s.threads[u], h);
      assert Stops(after.threads[u], h);
    }
    if BeingStopped(after, h) {
      var u :| u in after.threads && Stops(after.threads[u], h);
      assert Stops(s.threads[u], h);
    }
  }

  // A mailbox removed at another node is none of this service's.
  lemma {:induction false} DropElsewhere(s: State, t: nat, node: NodeId, g: HandleId, h: HandleId)
    requires Inv(s) && t in s.threads && Runner(s, h) && Reachable(s, h) && Drops(s.threads[t], node, g)
    requires node != s.handles[h].node
    ensures h in AdvanceThread(s, t).handles && Reachable(AdvanceThread(s, t), h)
  {
    StillReachable(s, AdvanceThread(s, t), t, h);
  }

  lemma {:induction false} WaitStep(s: State, t: nat, h: HandleId)
    requires Inv(s) && t in s.threads && Runner(s, h) && Reachable(s, h) && StopOf(s.threads[t]).Wait?
    ensures h in AdvanceThread(s, t).handles && Reachable(AdvanceThread(s, t), h)
  {
    RunnersAreEntries(s, h);
    StillReachable(s, AdvanceThread(s, t), t, h);
  }

  lemma {:induction false} RegisteredStep(s: State, t: nat, g: HandleId, h: HandleId)
    requires Inv(s) && t in s.threads && s.threads[t] == Registered(g)
    requires h == g || (Runner(s, h) && Reachable(s, h))
    ensures h in AdvanceThread(s, t).handles && Reachable(AdvanceThread(s, t), h)
  {
    assert Launches(s.threads[t]) == g;
    if h != g {
      RunnersAreEntries(s, h);
      StillReachable(s, AdvanceThread(s, t), t, h);
    }
  }

  lemma {:induction false} OtherAdvance(s: State, t: nat, h: HandleId)
    requires Inv(s) && t in s.threads && Runner(s, h) && Reachable(s, h)
    requires !StopOf(s.threads[t]).DropMailbox? && !StopOf(s.threads[t]).Wait? && !s.threads[t].Registered?
    ensures h in AdvanceThread(s, t).handles && Reachable(AdvanceThread(s, t), h)
  {
    hide Inv, Reachable;
    BelowNext(s, h);
    LeavesMailboxes(s, t, h);
    StillReachable(s, AdvanceThread(s, t), t, h);
  }

  lemma {:induction false} BelowNext(s: State, h: HandleId)
    requires Inv(s) && h in s.handles
    ensures h < s.next
  {
  }

  lemma {:induction false} LeavesMailboxes(s: State, t: nat, h: HandleId)
    requires t in s.threads && h in s.handles && h != s.next
    requires !StopOf(s.threads[t]).DropMailbox? && !StopOf(s.threads[t]).Wait? && !s.threads[t].Registered?
    ensures var after := AdvanceThread(s, t);
            && after.mailboxes == s.mailboxes && h in after.handles && after.handles[h].node == s.handles[h].node
            && t in after.threads && (Stops(s.threads[t], h) ==> Stops(after.threads[t], h))
            && (HasMailbox(s, h) ==> Reachable(after, h))
            && forall u <- s.threads :: u != t ==> u in after.threads && after.threads[u] == s.threads[u]
  {
    hide BeingStopped, Stops;
    SameMailboxes(s, t, h);
    KeepsStopping(s, t, h);
  }

  lemma {:induction false} SameMailboxes(s: State, t: nat, h: HandleId)
    requires t in s.threads && h in s.handles && h != s.next
    requires !StopOf(s.threads[t]).DropMailbox? && !s.threads[t].Registered?
    ensures var after := AdvanceThread(s, t);
            after.mailboxes == s.mailboxes && h in after.handles && after.handles[h].node == s.handles[h].node
  {
    hide StopEffect;
    match s.threads[t] {
      case Restart(node, _, at) => EffectLeavesMailboxes(s, node, at, h);
      case Stop(node, at) => EffectLeavesMailboxes(s, node, at, h);
      case _ =>
    }
  }

  lemma {:induction false} EffectLeavesMailboxes(s: State, node: NodeId, at: StopAt, h: HandleId)
    requires h in s.handles && !at.DropMailbox?
    ensures var after := StopEffect(s, node, at);
            after.mailboxes == s.mailboxes && h in after.handles && after.handles[h].node == s.handles[h].node
  {
  }

  lemma {:induction false} KeepsStopping(s: State, t: nat, h: HandleId)
    requires t in s.threads && !StopOf(s.threads[t]).Wait?
    ensures var after := AdvanceThread(s, t);
            && t in after.threads && (Stops(s.threads[t], h) ==> Stops(after.threads[t], h))
            && forall u <- s.threads :: u != t ==> u in after.threads && after.threads[u] == s.threads[u]
  {
  }

  // The step removes the mailbox of a running service on behalf of an older handle of its node.
  predicate Robs(s: State, step: Step, h: HandleId) {
    && step.Advance? && step.t in s.threads && Runner(s, h)
    && exists g <- OldHandles(s.threads[step.t]) :: g != h && Drops(s.threads[step.t], s.handles[h].node, g)
  }

  function OldHandles(t: Thread): set<HandleId> { if StopOf(t).DropMailbox? then {StopOf(t).h} else {} }

  /** A step leaves a running service its mailbox, or someone who stops it, unless it robs the service. */
  lemma {:induction false} MailboxStep(s: State, step: Step, h: HandleId)
    requires Inv(s) && !Robs(s, step, h) && Runner(Next(s, step), h)
    requires Runner(s, h) ==> Reachable(s, h)
    ensures Reachable(Next(s, step), h)
  {
    hide Inv, AdvanceThread, Reachable;
    WasRunner(s, step, h);
    if step.Advance? {
      if step.t in s.threads {
        AdvanceMailbox(s, step.t, h);
      }
    } else {
      OtherStep(s, step, h);
    }
  }

  lemma {:induction false} AdvanceMailbox(s: State, t: nat, h: HandleId)
    requires Inv(s) && t in s.threads && !Robs(s, Advance(t), h)
    requires s.threads[t] == Registered(h) || (Runner(s, h) && Reachable(s, h))
    requires h in AdvanceThread(s, t).handles
    ensures Reachable(AdvanceThread(s, t), h)
  {
    hide Inv, Reachable, AdvanceThread;
    match s.threads[t] {
      case Registered(g) => RegisteredStep(s, t, g, h);
      case Stop(node, at) =>
        if at.DropMailbox? { DropMailboxStep(s, t, node, at.h, h); }
        else if at.Wait? { WaitStep(s, t, h); }
        else { OtherAdvance(s, t, h); }
      case Restart(node, kernel, at) =>
        if at.DropMailbox? { DropMailboxStep(s, t, node, at.h, h); }
        else if at.Wait? { WaitStep(s, t, h); }
        else { OtherAdvance(s, t, h); }
      case _ => OtherAdvance(s, t, h);
    }
  }

  lemma {:induction false} DropMailboxStep(s: State, t: nat, node: NodeId, g: HandleId, h: HandleId)
    requires Inv(s) && t in s.threads && Runner(s, h) && Reachable(s, h) && Drops(s.threads[t], node, g)
    requires !Robs(s, Advance(t), h)
    ensures h in AdvanceThread(s, t).handles && Reachable(AdvanceThread(s, t), h)
  {
    hide Inv, Reachable, AdvanceThread;
    if node == s.handles[h].node {
      assert g in OldHandles(s.threads[t]);
      DropMailboxKeepsIff(s, t, g, h);
    } else {
      DropElsewhere(s, t, node, g, h);
    }
  }

  lemma {:induction false} OtherStep(s: State, step: Step, h: HandleId)
    requires Inv(s) && !step.Advance? && Runner(s, h) && Reachable(s, h)
    requires Runner(Next(s, step), h)
    ensures Reachable(Next(s, step), h)
  {
    hide Inv, Reachable, Next;
    OtherKeepsMailbox(s, step, h);
    OtherKeepsThreads(s, step);
    MailboxReaches(Next(s, step), h);
    StillReachable(s, Next(s, step), if step.Spawn? then step.t else 0, h);
  }

  lemma {:induction false} MailboxReaches(s: State, h: HandleId)
    requires h in s.handles
    ensures HasMailbox(s, h) ==> Reachable(s, h)
  {
  }

  // A service that unregisters is its node's live one, so none but its own mailbox goes.
  lemma {:induction false} OtherKeepsMailbox(s: State, step: Step, h: HandleId)
    requires Inv(s) && !step.Advance? && Runner(s, h) && Runner(Next(s, step), h)
    ensures h in Next(s, step).handles && (HasMailbox(s, h) ==> HasMailbox(Next(s, step), h))
  {
    RunnersAreEntries(s, h);
  }

  lemma {:induction false} OtherKeepsThreads(s: State, step: Step)
    requires !step.Advance?
    ensures forall u <- s.threads :: u in Next(s, step).threads && Next(s, step).threads[u] == s.threads[u]
  {
  }

  // Some step of the run has robbed the service.
  ghost predicate Robbed(steps: seq<Step>, h: HandleId) {
    exists i :: 0 <= i < |steps| && Robs(Run(INITIAL, steps[..i]), steps[i], h)
  }

  lemma {:induction false} RobbedStep(steps: seq<Step>, h: HandleId)
    requires steps != []
    ensures var n := |steps| - 1;
            Robbed(steps, h) <==> Robbed(steps[..n], h) || Robs(Run(INITIAL, steps[..n]), steps[n], h)
  {
    hide Run, Robs;
    var n := |steps| - 1;
    forall i | 0 <= i < n ensures steps[..n][..i] == steps[..i] {
    }
    if Robbed(steps, h) {
      var i :| 0 <= i < |steps| && Robs(Run(INITIAL, steps[..i]), steps[i], h);
      if i < n {
        assert Robs(Run(INITIAL, steps[..n][..i]), steps[..n][i], h);
      }
    }
    if Robbed(steps[..n], h) {
      var i :| 0 <= i < n && Robs(Run(INITIAL, steps[..n][..i]), steps[..n][i], h);
      assert Robs(Run(INITIAL, steps[..i]), steps[i], h);
    }
  }

  // Nobody is going to put the handle's mailbox into the map any more.
  predicate Placed(s: State, h: HandleId) { h < s.next && forall t <- s.threads :: s.threads[t] != Registered(h) }

  lemma {:induction false} RunnersArePlaced(s: State, h: HandleId)
    requires Inv(s) && Runner(s, h)
    ensures Placed(s, h)
  {
    assert forall t <- s.threads :: Launches(s.threads[t]) == h ==> s.threads[t] == Ready(h);
  }

  lemma {:induction false} PlacedStays(s: State, step: Step, h: HandleId)
    requires Placed(s, h)
    ensures Placed(Next(s, step), h)
  {
  }

  // Without a thread that places it, a mailbox that is gone stays gone.
  lemma {:induction false} GoneStaysGone(s: State, step: Step, h: HandleId)
    requires Placed(s, h) && h in s.handles && !HasMailbox(s, h)
    ensures h in Next(s, step).handles && !HasMailbox(Next(s, step), h)
  {
    hide Next;
    NodeStays(s, step, h);
    MailboxOrigin(s, step, s.handles[h].node);
  }

  lemma {:induction false} NodeStays(s: State, step: Step, h: HandleId)
    requires h in s.handles && h < s.next
    ensures h in Next(s, step).handles && Next(s, step).handles[h].node == s.handles[h].node
  {
    hide AdvanceThread;
    if step.Advance? && step.t in s.threads {
      NodeStaysInAdvance(s, step.t, h);
    }
  }

  lemma {:induction false} NodeStaysInAdvance(s: State, t: nat, h: HandleId)
    requires t in s.threads && h in s.handles && h < s.next
    ensures h in AdvanceThread(s, t).handles && AdvanceThread(s, t).handles[h].node == s.handles[h].node
  {
    hide StopEffect;
    match s.threads[t] {
      case Restart(node, _, at) => NodeStaysInEffect(s, node, at, h);
      case Stop(node, at) => NodeStaysInEffect(s, node, at, h);
      case _ =>
    }
  }

  lemma {:induction false} NodeStaysInEffect(s: State, node: NodeId, at: StopAt, h: HandleId)
    requires h in s.handles
    ensures h in StopEffect(s, node, at).handles && StopEffect(s, node, at).handles[h].node == s.handles[h].node
  {
  }

  lemma {:induction false} MailboxOrigin(s: State, step: Step, node: NodeId)
    ensures var after := Next(s, step).mailboxes;
            node in after ==>
              || (node in s.mailboxes && s.mailboxes[node] == after[node])
              || (step.Advance? && step.t in s.threads && s.threads[step.t] == Registered(after[node]))
  {
  }

  lemma {:induction false} RobberyRemoves(s: State, step: Step, h: HandleId)
    requires Inv(s) && Robs(s, step, h)
    ensures Placed(s, h) && h in Next(s, step).handles && !HasMailbox(Next(s, step), h)
  {
    RunnersArePlaced(s, h);
  }

  // A robbed service has no mailbox and never gets one again.
  lemma {:induction false} RobbedStaysSo(steps: seq<Step>, h: HandleId)
    requires Robbed(steps, h)
    ensures var s := Run(INITIAL, steps); Placed(s, h) && h in s.handles && !HasMailbox(s, h)
    decreases |steps|
  {
    hide Inv, Next, Placed, HasMailbox, Robs;
    var n := |steps| - 1;
    var s := Run(INITIAL, steps[..n]);
    RobbedStep(steps, h);
    RunKeeps(steps[..n]);
    if Robbed(steps[..n], h) {
      RobbedStaysSo(steps[..n], h);
      GoneStaysGone(s, steps[n], h);
    } else {
      RobberyRemoves(s, steps[n], h);
    }
    PlacedStays(s, steps[n], h);
  }

  lemma {:induction false} UnrobbedIsReachable(steps: seq<Step>, h: HandleId)
    requires !Robbed(steps, h) && Runner(Run(INITIAL, steps), h)
    ensures Reachable(Run(INITIAL, steps), h)
    decreases |steps|
  {
    hide Inv, Next, Reachable, Robs;
    if steps != [] {
      var n := |steps| - 1;
      var s := Run(INITIAL, steps[..n]);
      RobbedStep(steps, h);
      RunKeeps(steps[..n]);
      if Runner(s, h) {
        UnrobbedIsReachable(steps[..n], h);
      }
      MailboxStep(s, steps[n], h);
    }
  }

  /** A running service lacks its mailbox, with nobody stopping it, exactly when a stopNode that works for
      an older handle of its node has removed that mailbox and nobody stops the service now. */
  lemma {:induction false} LacksMailboxIff(steps: seq<Step>, h: HandleId)
    requires Runner(Run(INITIAL, steps), h)
    ensures var s := Run(INITIAL, steps); !Reachable(s, h) <==> Robbed(steps, h) && !BeingStopped(s, h)
  {
    hide Inv, Run, Robs;
    if Robbed(steps, h) {
      RobbedStaysSo(steps, h);
    } else {
      UnrobbedIsReachable(steps, h);
    }
  }

  lemma {:induction false} RunStep(steps: seq<Step>, step: Step)
    ensures Run(INITIAL, steps + [step]) == Next(Run(INITIAL, steps), step)
  {
  }

  lemma {:induction false} RunTwo(steps: seq<Step>, a: Step, b: Step)
    ensures Run(INITIAL, steps + [a, b]) == Next(Next(Run(INITIAL, steps), a), b)
  {
    hide Run, Next;
    RunStep(steps, a);
    RunStep(steps + [a], b);
    assert steps + [a] + [b] == steps + [a, b];
  }

  // The state in which a service of a node that had no entry runs.
  function Started(s: State, t: nat, node: NodeId, kernel: string): State {
    s.(handles := s.handles[s.next := Handle(node, kernel, false, Running)], nodes := s.nodes[node := s.next],
       mailboxes := s.mailboxes[node := s.next], threads := s.threads[t := Over], next := s.next + 1)
  }

  lemma {:induction false} StartSteps(s: State, t: nat, node: NodeId, kernel: string)
    requires t !in s.threads && node !in s.nodes
    ensures Next(Next(Next(Next(s, Spawn(t, Begin(node, kernel))), Advance(t)), Advance(t)), Advance(t)) ==
            Started(s, t, node, kernel)
  {
    var begun := Next(s, Spawn(t, Begin(node, kernel)));
    var registered := Register(begun, t, node, kernel);
    assert Next(begun, Advance(t)) == registered;
    assert registered.threads == s.threads[t := Registered(s.next)];
    LaunchSteps(registered, t, s.next);
    assert registered.threads[t := Over] == s.threads[t := Over];
    assert registered.handles[s.next := Handle(node, kernel, false, Running)] ==
           s.handles[s.next := Handle(node, kernel, false, Running)];
  }

  lemma {:induction false} LaunchSteps(s: State, t: nat, h: HandleId)
    requires t in s.threads && s.threads[t] == Registered(h) && In(s, h, Starting)
    ensures Next(Next(s, Advance(t)), Advance(t)) ==
            s.(handles := s.handles[h := s.handles[h].(phase := Running)],
               mailboxes := s.mailboxes[s.handles[h].node := h], threads := s.threads[t := Over])
  {
    var ready := Next(s, Advance(t));
    assert ready.threads == s.threads[t := Ready(h)] && ready.handles == s.handles;
    assert ready.threads[t := Over] == s.threads[t := Over];
  }

  lemma {:induction false} StartRuns(steps: seq<Step>, t: nat, node: NodeId, kernel: string)
    requires t !in Run(INITIAL, steps).threads && node !in Run(INITIAL, steps).nodes
    ensures Run(INITIAL, steps + [Spawn(t, Begin(node, kernel)), Advance(t)] + [Advance(t), Advance(t)]) ==
            Started(Run(INITIAL, steps), t, node, kernel)
  {
    hide Run, Next, Started;
    RunTwo(steps, Spawn(t, Begin(node, kernel)), Advance(t));
    RunTwo(steps + [Spawn(t, Begin(node, kernel)), Advance(t)], Advance(t), Advance(t));
    StartSteps(Run(INITIAL, steps), t, node, kernel);
  }

  /** A start of a node that has an entry leaves it alone if the kernel is the wanted one, and restarts the node
      otherwise. */
  lemma {:induction false} StartDecides(s: State, t: nat, node: NodeId, kernel: string)
    requires t in s.threads && s.threads[t] == Begin(node, kernel) && node in s.nodes && s.nodes[node] in s.handles
    ensures Next(s, Advance(t)) == s.(threads := s.threads[
              t := if s.handles[s.nodes[node]].kernel == kernel then Over else Restart(node, kernel, Look)])
  {
  }

  /** A stop of a node that has an entry removes its mailbox, cancels the handle, and waits for its end; once that has
      come, the entry goes if it is still this handle's. */
  lemma {:induction false} StopSteps(s: State, t: nat, node: NodeId, h: HandleId)
    requires t in s.threads && s.threads[t] == Stop(node, Look) && h in s.handles && s.nodes == s.nodes[node := h]
    ensures Next(Next(Next(s, Advance(t)), Advance(t)), Advance(t)) ==
            s.(handles := s.handles[h := s.handles[h].(cancelled := true)], mailboxes := s.mailboxes - {node},
               threads := s.threads[t := Stop(node, Wait(h))])
  {
    var looked := Next(s, Advance(t));
    assert looked == s.(threads := s.threads[t := Stop(node, DropMailbox(h))]);
    var dropped := Next(looked, Advance(t));
    assert dropped.threads == s.threads[t := Stop(node, Cancel(h))];
    var cancelled := Next(dropped, Advance(t));
    assert cancelled.threads == s.threads[t := Stop(node, Wait(h))];
  }

  lemma {:induction false} StopEnds(s: State, t: nat, node: NodeId, h: HandleId)
    requires t in s.threads && s.threads[t] == Stop(node, Wait(h))
    ensures !In(s, h, Closed) ==> Next(s, Advance(t)) == s
    ensures In(s, h, Closed) ==>
              var nodes := if node in s.nodes && s.nodes[node] == h then s.nodes - {node} else s.nodes;
              Next(Next(s, Advance(t)), Advance(t)) == s.(nodes := nodes, threads := s.threads[t := Over])
  {
    if In(s, h, Closed) {
      var dropping := Next(s, Advance(t));
      assert dropping.threads == s.threads[t := Stop(node, Drop(h))];
      assert Next(dropping, Advance(t)).threads == s.threads[t := Over];
    }
  }

  lemma {:induction false} LookAndEnd(s: State, node: NodeId, kernel: string)
    requires s.handles == map[0 := Handle(node, kernel, false, Running)] && s.nodes == map[node := 0]
    requires s.mailboxes == map[node := 0] && s.threads == map[0 := Over] && s.next == 1
    ensures var looked := Next(Next(s, Spawn(1, Stop(node, Look))), Advance(1));
            Next(Next(Next(looked, Return(0)), Unregister(0)), Finish(0)) ==
            State(map[0 := Handle(node, kernel, false, Finished)], map[], map[],
                  map[0 := Over, 1 := Stop(node, DropMailbox(0))], 1)
  {
    var looked := Next(Next(s, Spawn(1, Stop(node, Look))), Advance(1));
    assert looked == s.(threads := map[0 := Over, 1 := Stop(node, DropMailbox(0))]);
    var returned := Next(looked, Return(0));
    assert returned.handles == map[0 := Handle(node, kernel, false, Returned)];
    var unregistered := Next(returned, Unregister(0));
    assert unregistered.handles == map[0 := Handle(node, kernel, false, Unregistered)] && unregistered.mailboxes == map[];
    var finished := Next(unregistered, Finish(0));
    assert finished.handles == map[0 := Handle(node, kernel, false, Finished)] && finished.nodes == map[];
  }

  lemma {:induction false} LateDrop(s: State, node: NodeId, kernel: string)
    requires 1 in s.handles && s.handles[1] == Handle(node, kernel, false, Running) && s.nodes == map[node := 1]
    requires s.mailboxes == map[node := 1]
    requires s.threads == map[0 := Over, 1 := Stop(node, DropMailbox(0)), 2 := Over]
    ensures var after := Next(s, Advance(1));
            In(after, 1, Running) && !after.handles[1].cancelled && !Reachable(after, 1)
  {
  }

  // A stopNode has looked up the first service when that ends on its own.
  lemma {:induction false} StoppedTooLate(node: NodeId, kernel: string) returns (ended: seq<Step>)
    ensures Run(INITIAL, ended) == State(map[0 := Handle(node, kernel, false, Finished)], map[], map[],
                                         map[0 := Over, 1 := Stop(node, DropMailbox(0))], 1)
  {
    hide Next;
    assert Run(INITIAL, []) == INITIAL;
    StartRuns([], 0, node, kernel);
    var start := [] + [Spawn(0, Begin(node, kernel)), Advance(0)] + [Advance(0), Advance(0)];
    LookAndEnd(Run(INITIAL, start), node, kernel);
    RunTwo(start, Spawn(1, Stop(node, Look)), Advance(1));
    var looked := start + [Spawn(1, Stop(node, Look)), Advance(1)];
    RunTwo(looked, Return(0), Unregister(0));
    var ending := looked + [Return(0), Unregister(0)];
    RunStep(ending, Finish(0));
    ended := ending + [Finish(0)];
  }

  /** Such runs exist: a stopNode looks up a handle, the service ends on its own and the node is started
      again, and then the stopNode removes the mailbox of the new service. */
  lemma {:induction false} LateRemovalLosesMailbox(node: NodeId, kernel: string)
    ensures exists steps, h :: var s := Run(INITIAL, steps);
              In(s, h, Running) && !s.handles[h].cancelled && !Reachable(s, h)
  {
    hide Next, Run, Reachable;
    var ended := StoppedTooLate(node, kernel);
    StartRuns(ended, 2, node, kernel);
    var again := ended + [Spawn(2, Begin(node, kernel)), Advance(2)] + [Advance(2), Advance(2)];
    LateDrop(Run(INITIAL, again), node, kernel);
    RunStep(again, Advance(1));
    assert In(Run(INITIAL, again + [Advance(1)]), 1, Running);
  }
}
