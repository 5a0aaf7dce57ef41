/** Who owns an AnyTLS session while streams are opened, closed and pooled concurrently.

    Each step is one lock-protected region of the source, so every interleaving of CreateStream calls,
    stream closes from either side, session closes and pool cleanups is a sequence of steps. */
module StreamLifecycle {
  type SessionId = nat
  type StreamId = nat

  // Where a stream's die hook is: not yet registered, stored in the stream, about to check the session,
  // about to insert it into the pool, or finished.
  datatype Phase = Registering | Hooked | Firing | Inserting | Finished

  // `runs` counts the times the hook was started.
  datatype StreamState = StreamState(session: SessionId, closed: bool, phase: Phase, runs: nat)

  // ----- One stream: registration against closing -----

  function SetDieHookStep(t: StreamState): StreamState {
    if t.closed then t.(phase := Firing, runs := t.runs + 1) else t.(phase := Hooked)
  }

  function CloseStateStep(t: StreamState): StreamState {
    if t.closed then t
    else if t.phase.Hooked? then t.(closed := true, phase := Firing, runs := t.runs + 1)
    else t.(closed := true)
  }

  // The stream's own fields. `run` tells the caller to run the hook, outside the lock.
  class Stream {
    var dieErr: bool
    var dieHook: bool
    ghost var view: StreamState

    ghost predicate Valid() reads this {
      && view.closed == dieErr && (dieHook <==> view.phase.Hooked?)
      && (view.phase.Hooked? ==> !dieErr) && StreamOk(view)
    }

    constructor (session: SessionId)
      ensures Valid() && view == StreamState(session, false, Registering, 0)
    {
      dieErr, dieHook := false, false;
      view := StreamState(session, false, Registering, 0);
    }

    method SetDieHook() returns (run: bool)
      requires Valid() && view.phase.Registering?
      modifies this
      ensures Valid() && view == SetDieHookStep(old(view))
      ensures run <==> view.runs > old(view.runs)
    {
      var closed := dieErr;
      if !closed {
        dieHook := true;
      }
      run := closed;
      view := SetDieHookStep(view);
    }

    method CloseState() returns (once: bool, run: bool)
      requires Valid()
      modifies this
      ensures Valid() && view == CloseStateStep(old(view))
      ensures once <==> !old(view.closed)
      ensures run <==> view.runs > old(view.runs)
    {
      once, run := false, false;
      if !dieErr {  // dieOnce
        dieErr := true;
        run := dieHook;
        dieHook := false;
        once := true;
        view := CloseStateStep(view);
      }
    }
  }

  // ----- All streams and sessions -----

  // `opening`: sessions held by a CreateStream call that has no stream yet. `due`: closed sessions whose own
  // die hook has not taken them out of the pool yet. `known`: every session created.
  datatype State = State(
    idle: set<SessionId>, opening: set<SessionId>, closed: set<SessionId>, due: set<SessionId>,
    known: set<SessionId>, streams: map<StreamId, StreamState>)

  datatype Step =
    | GetIdle(s: SessionId)
    | CreateSession(s: SessionId)
    | OpenFailed(s: SessionId)
    | OpenStream(s: SessionId, t: StreamId)
    | SetDieHook(t: StreamId)
    | CloseStream(t: StreamId)
    | HookChecksSession(t: StreamId)
    | HookInserts(t: StreamId)
    | HookClosesSession(t: StreamId)   // the client itself has been closed
    | MarkSessionClosed(s: SessionId)
    | DieHookRemoves(s: SessionId)     // the session's own die hook
    | CleanupRemoves(s: SessionId)

  predicate Enabled(st: State, step: Step) {
    match step
    case GetIdle(s) => s in st.idle
    case CreateSession(s) => s !in st.known
    case OpenFailed(s) => s in st.opening
    case OpenStream(s, t) => s in st.opening && t !in st.streams
    case SetDieHook(t) => t in st.streams && st.streams[t].phase.Registering?
    case CloseStream(t) => t in st.streams
    case HookChecksSession(t) => t in st.streams && st.streams[t].phase.Firing?
    case HookInserts(t) => t in st.streams && st.streams[t].phase.Inserting?
    case HookClosesSession(t) => t in st.streams && st.streams[t].phase.Inserting?
    case MarkSessionClosed(s) => s in st.known
    case DieHookRemoves(s) => s in st.due
    case CleanupRemoves(s) => s in st.idle
  }

  function Apply(st: State, step: Step): State
    requires Enabled(st, step)
  {
    match step
    case GetIdle(s) => st.(idle := st.idle - {s}, opening := st.opening + {s})
    case CreateSession(s) => st.(known := st.known + {s}, opening := st.opening + {s})
    case OpenFailed(s) => st.(opening := st.opening - {s})
    case OpenStream(s, t) =>
      st.(opening := st.opening - {s}, streams := st.streams[t := StreamState(s, false, Registering, 0)])
    case SetDieHook(t) => st.(streams := st.streams[t := SetDieHookStep(st.streams[t])])
    case CloseStream(t) => st.(streams := st.streams[t := CloseStateStep(st.streams[t])])
    case HookChecksSession(t) =>
      var next := if st.streams[t].session in st.closed then Finished else Inserting;
      st.(streams := st.streams[t := st.streams[t].(phase := next)])
    case HookInserts(t) =>
      st.(idle := st.idle + {st.streams[t].session}, streams := st.streams[t := st.streams[t].(phase := Finished)])
    case HookClosesSession(t) => st.(streams := st.streams[t := st.streams[t].(phase := Finished)])
    case MarkSessionClosed(s) =>
      if s in st.closed then st else st.(closed := st.closed + {s}, due := st.due + {s})
    case DieHookRemoves(s) => st.(idle := st.idle - {s}, due := st.due - {s})
    case CleanupRemoves(s) => st.(idle := st.idle - {s})
  }

  predicate Holds(t: StreamState) { !t.phase.Finished? }

  predicate StreamOk(t: StreamState) {
    && (!t.closed ==> t.phase.Registering? || t.phase.Hooked?)
    && (t.phase.Hooked? ==> !t.closed)
    && t.runs == if t.phase.Registering? || t.phase.Hooked? then 0 else 1
  }

  // Every session has at most one owner: the pool, one CreateStream call, or one stream's hook.
  ghost predicate OneOwner(st: State) {
    && st.idle <= st.known && st.opening <= st.known && st.idle !! st.opening
    && (forall t <- st.streams :: st.streams[t].session in st.known && StreamOk(st.streams[t]))
    && (forall t <- st.streams :: Holds(st.streams[t]) ==>
          st.streams[t].session !in st.idle && st.streams[t].session !in st.opening)
    && (forall t, u :: t in st.streams && u in st.streams && t != u && Holds(st.streams[t]) && Holds(st.streams[u])
          ==> st.streams[t].session != st.streams[u].session)
  }

  lemma StepKeepsOneOwner(st: State, step: Step)
    requires OneOwner(st) && Enabled(st, step)
    ensures OneOwner(Apply(st, step))
  {
  }

  const START: State := State({}, {}, {}, {}, {}, map[])

  ghost predicate Runnable(steps: seq<Step>)
    decreases |steps|, 0
  {
    steps == [] || (Runnable(steps[..|steps| - 1]) && Enabled(After(steps[..|steps| - 1]), steps[|steps| - 1]))
  }

  ghost function After(steps: seq<Step>): State
    requires Runnable(steps)
    decreases |steps|, 1
  {
    if steps == [] then START else Apply(After(steps[..|steps| - 1]), steps[|steps| - 1])
  }

  lemma {:induction false} OneOwnerAlways(steps: seq<Step>)
    requires Runnable(steps)
    ensures OneOwner(After(steps))
    decreases |steps|
  {
    if steps != [] {
      OneOwnerAlways(steps[..|steps| - 1]);
      StepKeepsOneOwner(After(steps[..|steps| - 1]), steps[|steps| - 1]);
    }
  }

  // A pooled session has no live stream, two live streams never share a session, and no interleaving of
  // registration and closing runs a hook twice or, once both have happened, leaves it unrun.
  lemma SessionsAreExclusive(steps: seq<Step>)
    requires Runnable(steps)
    ensures var st := After(steps);
            && (forall t <- st.streams :: !st.streams[t].closed ==> st.streams[t].session !in st.idle)
            && (forall t, u :: t in st.streams && u in st.streams && t != u
                               && !st.streams[t].closed && !st.streams[u].closed
                  ==> st.streams[t].session != st.streams[u].session)
            && (forall t <- st.streams :: st.streams[t].runs ==
                  if st.streams[t].closed && !st.streams[t].phase.Registering? then 1 else 0)
  {
    OneOwnerAlways(steps);
  }

  // A stream is closed exactly if somebody has closed it, and its hook has been called for exactly if it was
  // registered as well.
  lemma {:induction false} ClosedIff(steps: seq<Step>, t: StreamId)
    requires Runnable(steps) && t in After(steps).streams
    ensures After(steps).streams[t].closed <==> CloseStream(t) in steps
    ensures After(steps).streams[t].phase.Registering? <==> SetDieHook(t) !in steps
    decreases |steps|
  {
    if steps != [] {
      var init, last := steps[..|steps| - 1], steps[|steps| - 1];
      assert steps == init + [last];
      if t in After(init).streams {
        ClosedIff(init, t);
      } else {
        NotYet(init, t);
      }
    }
  }

  lemma {:induction false} NotYet(steps: seq<Step>, t: StreamId)
    requires Runnable(steps) && t !in After(steps).streams
    ensures CloseStream(t) !in steps && SetDieHook(t) !in steps
    decreases |steps|
  {
    if steps != [] {
      NotYet(steps[..|steps| - 1], t);
      assert steps == steps[..|steps| - 1] + [steps[|steps| - 1]];
    }
  }

  // ----- What is in the pool -----

  predicate PutsIn(st: State, step: Step, s: SessionId) {
    step.HookInserts? && step.t in st.streams && st.streams[step.t].session == s
  }

  ghost predicate PutInAt(steps: seq<Step>, i: int, s: SessionId) {
    && 0 <= i < |steps| && Runnable(steps[..i]) && PutsIn(After(steps[..i]), steps[i], s)
    && forall k :: i < k < |steps| ==> !TakesOut(steps[k], s)
  }

  lemma {:induction false} PutInStep(steps: seq<Step>, s: SessionId)
    requires steps != [] && Runnable(steps)
    ensures var init, last := steps[..|steps| - 1], steps[|steps| - 1];
            (exists i :: PutInAt(steps, i, s)) <==>
              PutsIn(After(init), last, s) || ((exists i :: PutInAt(init, i, s)) && !TakesOut(last, s))
  {
    hide Runnable, After, PutsIn, TakesOut;
    var n := |steps| - 1;
    var init := steps[..n];
    RunnableBefore(steps);
    assert forall i :: 0 <= i <= n ==> init[..i] == steps[..i];
    if i :| PutInAt(steps, i, s) {
      assert i < n ==> PutInAt(init, i, s);
    }
    if PutsIn(After(init), steps[n], s) {
      assert PutInAt(steps, n, s);
    }
    if i :| PutInAt(init, i, s) {
      assert !TakesOut(steps[n], s) ==> PutInAt(steps, i, s);
    }
  }

  lemma {:induction false} PoolStep(st: State, step: Step, s: SessionId)
    requires Enabled(st, step)
    ensures s in Apply(st, step).idle <==> PutsIn(st, step, s) || (s in st.idle && !TakesOut(step, s))
  {
  }

  /** A session is in the pool exactly if a stream's hook has put it in and it was not taken out since, for a new
      stream, by its own die hook, or by a cleanup. */
  lemma {:induction false} PooledIff(steps: seq<Step>, s: SessionId)
    requires Runnable(steps)
    ensures s in After(steps).idle <==> exists i :: PutInAt(steps, i, s)
    decreases |steps|
  {
    if steps != [] {
      PooledIff(steps[..|steps| - 1], s);
      PoolStep(After(steps[..|steps| - 1]), steps[|steps| - 1], s);
      PutInStep(steps, s);
    }
  }

  // ----- Closed sessions in the pool -----

  predicate TakesOut(step: Step, s: SessionId) {
    step == GetIdle(s) || step == DieHookRemoves(s) || step == CleanupRemoves(s)
  }

  // The step puts a closed session into the pool whose own die hook has been there already. The stream's
  // hook has looked at the session before that was closed.
  predicate InsertsLate(st: State, step: Step, s: SessionId) {
    && step.HookInserts? && step.t in st.streams && st.streams[step.t].session == s
    && s in st.closed && s !in st.due
  }

  ghost predicate LateAt(steps: seq<Step>, i: int, s: SessionId) {
    && 0 <= i < |steps| && Runnable(steps[..i]) && InsertsLate(After(steps[..i]), steps[i], s)
    && forall k :: i < k < |steps| ==> !TakesOut(steps[k], s)
  }

  // It was put in late and not taken out since.
  ghost predicate PutInLate(steps: seq<Step>, s: SessionId) { exists i :: LateAt(steps, i, s) }

  lemma {:induction false} PutInLateStep(steps: seq<Step>, s: SessionId)
    requires steps != [] && Runnable(steps)
    ensures var init, last := steps[..|steps| - 1], steps[|steps| - 1];
            PutInLate(steps, s) <==> InsertsLate(After(init), last, s) || (PutInLate(init, s) && !TakesOut(last, s))
  {
    hide Runnable, After, InsertsLate, TakesOut;
    var n := |steps| - 1;
    var init := steps[..n];
    RunnableBefore(steps);
    assert forall i :: 0 <= i <= n ==> init[..i] == steps[..i];
    if PutInLate(steps, s) {
      var i :| LateAt(steps, i, s);
      assert i < n ==> LateAt(init, i, s);
    }
    if InsertsLate(After(init), steps[n], s) {
      assert LateAt(steps, n, s);
    }
    if PutInLate(init, s) && !TakesOut(steps[n], s) {
      var i :| LateAt(init, i, s);
      assert LateAt(steps, i, s);
    }
  }

  lemma {:induction false} RunnableBefore(steps: seq<Step>)
    requires steps != [] && Runnable(steps)
    ensures Runnable(steps[..|steps| - 1])
  {
  }

  predicate DueAreClosed(st: State) { st.due <= st.closed }

  lemma {:induction false} StaleStep(st: State, step: Step, s: SessionId)
    requires Enabled(st, step) && DueAreClosed(st)
    ensures var next := Apply(st, step);
            && DueAreClosed(next)
            && (s in next.idle && s in next.closed && s !in next.due <==>
                  InsertsLate(st, step, s) || (s in st.idle && s in st.closed && s !in st.due && !TakesOut(step, s)))
  {
  }

  lemma {:induction false} StaleIff(steps: seq<Step>, s: SessionId)
    requires Runnable(steps)
    ensures DueAreClosed(After(steps))
    ensures PutInLate(steps, s) <==> s in After(steps).idle && s in After(steps).closed && s !in After(steps).due
    decreases |steps|
  {
    if steps != [] {
      StaleIff(steps[..|steps| - 1], s);
      StaleStep(After(steps[..|steps| - 1]), steps[|steps| - 1], s);
      PutInLateStep(steps, s);
    }
  }

  /** A pooled session is closed exactly if its own die hook is about to take it out, or a stream's hook put
      it in after the session's die hook had been there. */
  lemma {:induction false} ClosedInPoolIff(steps: seq<Step>, s: SessionId)
    requires Runnable(steps) && s in After(steps).idle
    ensures s in After(steps).closed <==> s in After(steps).due || PutInLate(steps, s)
  {
    StaleIff(steps, s);
  }

  lemma {:induction false} OneMoreStep(steps: seq<Step>, step: Step)
    requires Runnable(steps) && Enabled(After(steps), step)
    ensures Runnable(steps + [step]) && After(steps + [step]) == Apply(After(steps), step)
  {
    assert (steps + [step])[..|steps|] == steps;
  }

  // A stream is opened and closed, and its hook fires.
  lemma {:induction false} OpensAndCloses(s: SessionId, t: StreamId) returns (steps: seq<Step>)
    ensures Runnable(steps) && After(steps) == State({}, {}, {}, {}, {s}, map[t := StreamState(s, true, Firing, 1)])
  {
    steps := [];
    var st := START;
    assert Runnable(steps) && After(steps) == st;
    hide Runnable, After;
    steps, st := Goes(steps, st, CreateSession(s));
    steps, st := Goes(steps, st, OpenStream(s, t));
    steps, st := Goes(steps, st, SetDieHook(t));
    steps, st := Goes(steps, st, CloseStream(t));
  }

  /** The second happens: a stream's hook looks at the session, the session is closed and takes itself out, and
      then the hook puts it in. */
  lemma {:induction false} LateInsertionHappens(s: SessionId, t: StreamId) returns (steps: seq<Step>)
    ensures Runnable(steps) && PutInLate(steps, s)
  {
    hide Runnable, After;
    steps := OpensAndCloses(s, t);
    var st := State({}, {}, {}, {}, {s}, map[t := StreamState(s, true, Firing, 1)]);
    steps, st := Goes(steps, st, HookChecksSession(t));
    steps, st := Goes(steps, st, MarkSessionClosed(s));
    steps, st := Goes(steps, st, DieHookRemoves(s));
    steps, st := Goes(steps, st, HookInserts(t));
    StaleIff(steps, s);
  }

  lemma {:induction false} Goes(steps: seq<Step>, st: State, step: Step) returns (more: seq<Step>, next: State)
    requires Runnable(steps) && After(steps) == st && Enabled(st, step)
    ensures Runnable(more) && After(more) == next == Apply(st, step)
  {
    OneMoreStep(steps, step);
    more, next := steps + [step], Apply(st, step);
  }
}
