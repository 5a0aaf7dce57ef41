/** The runtime of one node: the panel's wishes, the kernel that may fail or die at any time, and the record
    of what is applied and what has failed. A kernel that runs serves exactly what the panel wants. */
module Runtime {
  import opened Options

  datatype Config = Config(text: string, landing: bool)

  // Users by id.
  type Users = map<int, string>

  // What a fingerprint is taken of; the certificates do not change.
  datatype Attempt = Attempt(config: Option<Config>, users: Users)

  datatype MaybeAttempt = Failed(attempt: Attempt) | NoFailure

  // The history of attempts to apply something, and of successes.
  datatype Record = Tried(attempt: Attempt) | Applied

  // No attempt is repeated before something else was tried or something succeeded.
  ghost predicate NoRepeats(log: seq<Record>) {
    forall i :: 0 <= i < |log| - 1 ==> !(log[i].Tried? && log[i] == log[i + 1])
  }

  datatype Action = Add | Remove | Unknown

  // Some user of the delta has other credentials than before.
  predicate CredentialChange(base: Users, delta: Users) { exists id <- delta :: id in base && base[id] != delta[id] }

  lemma {:induction false} SameEntries(base: Users, delta: Users)
    requires !CredentialChange(base, delta)
    ensures delta + base == base + delta
  {
    forall id | id in delta && id in base ensures delta[id] == base[id] {
    }
  }

  // A removal leaves nobody to serve.
  predicate LastLeaves(config: Config, users: Users, delta: Users) {
    !config.landing && users != map[] && users - delta.Keys == map[]
  }

  /** The kernel. It serves a configuration and users while it runs, may die whenever it is looked at, and
      after a failed call may be in any state. One kind stops by itself when the last user is removed. */
  class Kernel {
    const stopsWhenEmpty: bool
    var running: bool
    var config: Config
    var users: Users
    // How often it has died or a call has failed.
    ghost var faults: nat

    constructor (config: Config, stopsWhenEmpty: bool)
      ensures !running && this.stopsWhenEmpty == stopsWhenEmpty
    {
      this.stopsWhenEmpty := stopsWhenEmpty;
      this.running, this.config, this.users, this.faults := false, config, map[], 0;
    }

    method IsRunning() returns (r: bool)
      modifies this
      ensures r == running && (running ==> old(running)) && config == old(config) && users == old(users)
      ensures faults == old(faults) + if old(running) && !running then 1 else 0
    {
      var dies: bool := *;
      if dies && running {
        running := false;
        faults := faults + 1;
      }
      r := running;
    }

    method Apply(newConfig: Config, newUsers: Users) returns (ok: bool)
      modifies this
      ensures ok ==> running && config == newConfig && users == newUsers
      ensures faults == old(faults) + if ok then 0 else 1
    {
      ok := *;
      if ok {
        running, config, users := true, newConfig, newUsers;
      } else {
        running, config, users := *, *, *;
        faults := faults + 1;
      }
    }

    // A hot update needs a running kernel.
    method UpdateUsers(newUsers: Users) returns (ok: bool)
      modifies this
      ensures ok ==> running && old(running) && config == old(config) && users == newUsers
      ensures faults == old(faults) + if ok then 0 else 1
    {
      ok := *;
      if ok && running {
        users := newUsers;
      } else {
        ok, running, config, users := false, *, *, *;
        faults := faults + 1;
      }
    }

    // A user who is there already may keep the old entry.
    method AddUsers(delta: Users) returns (ok: bool)
      modifies this
      ensures ok ==> running && old(running) && config == old(config)
      ensures ok && !CredentialChange(old(users), delta) ==> users == old(users) + delta
      ensures running ==> old(running) && config == old(config)
      ensures faults == old(faults) + if ok then 0 else 1
    {
      ok := *;
      if ok && running {
        var overwrites: bool := *;
        if !CredentialChange(users, delta) {
          SameEntries(users, delta);
        }
        users := if overwrites then users + delta else delta + users;
      } else {
        ok, users := false, *;
        var stops: bool := *;
        running := running && !stops;
        faults := faults + 1;
      }
    }

    method RemoveUsers(delta: Users) returns (ok: bool)
      modifies this
      ensures ok ==> old(running) && config == old(config) && users == old(users) - delta.Keys
      ensures ok ==> running == !(stopsWhenEmpty && LastLeaves(old(config), old(users), delta))
      ensures running ==> old(running) && config == old(config)
      ensures faults == old(faults) + if ok then 0 else 1
    {
      ok := *;
      if ok && running {
        running := !(stopsWhenEmpty && LastLeaves(config, users, delta));
        users := users - delta.Keys;
      } else {
        ok, users := false, *;
        var stops: bool := *;
        running := running && !stops;
        faults := faults + 1;
      }
    }

    method Stop()
      modifies this`running
      ensures !running
    {
      running := false;
    }
  }

  class Service {
    const kernel: Kernel
    var lastConfig: Option<Config>
    var lastUsers: Users
    var appliedConfig: Option<Config>
    var appliedUsers: Users
    var failed: MaybeAttempt
    var runtimeError: bool
    ghost var log: seq<Record>
    // How many checks and firewall changes have failed.
    ghost var refusals: nat

    // What holds whenever the main loop waits for the next event.
    ghost predicate Valid()
      reads this, kernel
    {
      Consistent() && (kernel.running ==> Serving())
    }

    // The panel's wishes are what is recorded as applied, and what the kernel serves.
    ghost predicate Serving()
      reads this, kernel
    {
      && lastConfig.Some? && appliedConfig == lastConfig && appliedUsers == lastUsers
      && kernel.config == lastConfig.value && kernel.users == lastUsers
      && !runtimeError && failed.NoFailure?
    }

    // A failure is on record, with its fingerprint, as long as nothing has been applied since.
    ghost predicate Consistent()
      reads this, kernel
    {
      && (runtimeError <==> failed.Failed?)
      && (failed.Failed? ==> !kernel.running && appliedConfig.None? && lastConfig.Some?)
      && (appliedConfig.Some? ==> lastConfig.Some?)
      && NoRepeats(log) && LastTried()
    }

    ghost predicate LastTried()
      reads this
    {
      log != [] && log[|log| - 1].Tried? ==> failed == Failed(log[|log| - 1].attempt)
    }

    constructor (kernel: Kernel)
      requires !kernel.running
      ensures Valid() && this.kernel == kernel && lastConfig.None? && lastUsers == map[] && log == []
    {
      this.kernel := kernel;
      lastConfig, lastUsers, appliedConfig, appliedUsers := None, map[], None, map[];
      failed, runtimeError, log, refusals := NoFailure, false, [], 0;
    }

    // Everything that has gone wrong around the service.
    ghost function Trouble(): nat
      reads this, kernel
    {
      kernel.faults + refusals
    }

    // Where the service stands, as far as it decides what happens when nothing goes wrong.
    ghost function Stands(): Standing
      reads this, kernel
    {
      Standing(lastConfig, lastUsers, kernel.running, appliedConfig.Some?, failed)
    }

    method FailRuntime()
      requires lastConfig.Some? && NoRepeats(log)
      requires log != [] && log[|log| - 1].Tried? ==> log[|log| - 1] == Tried(Attempt(lastConfig, lastUsers))
      modifies this, kernel
      ensures Valid() && failed == Failed(Attempt(lastConfig, lastUsers)) && !kernel.running
      ensures log == old(log) && lastConfig == old(lastConfig) && lastUsers == old(lastUsers)
      ensures Trouble() == old(Trouble())
    {
      failed := Failed(Attempt(lastConfig, lastUsers));
      runtimeError := true;
      kernel.Stop();
      appliedConfig, appliedUsers := None, map[];
    }

    method RuntimeApplied(config: Option<Config>, users: Users)
      requires NoRepeats(log) && (config.Some? ==> lastConfig.Some?)
      requires kernel.running ==> lastConfig.Some? && config == lastConfig && users == lastUsers
                                  && kernel.config == lastConfig.value && kernel.users == lastUsers
      modifies this
      ensures Valid() && !runtimeError && appliedConfig == config && log == old(log) + [Applied]
      ensures lastConfig == old(lastConfig) && lastUsers == old(lastUsers)
      ensures Trouble() == old(Trouble())
    {
      failed, runtimeError := NoFailure, false;
      appliedConfig, appliedUsers := config, users;
      log := log + [Applied];
    }

    /** Checks everything that can be checked before the kernel is touched, unless this very attempt has
        just failed. */
    method PrepareRuntime() returns (ok: bool)
      requires Consistent() && lastConfig.Some?
      modifies this, kernel
      ensures lastConfig == old(lastConfig) && lastUsers == old(lastUsers)
      ensures !ok ==> if old(failed) == Failed(Attempt(lastConfig, lastUsers))
                      then Consistent() && runtimeError && log == old(log)
                      else Valid() && runtimeError && log == old(log) + [Tried(Attempt(lastConfig, lastUsers))]
      ensures ok ==> log == old(log) + [Tried(Attempt(lastConfig, lastUsers))] && NoRepeats(log)
                     && kernel.running == old(kernel.running)
      ensures Trouble() >= old(Trouble())
      ensures Trouble() == old(Trouble()) ==>
                Stands() == old(Stands()) && ok == (old(failed) != Failed(Attempt(lastConfig, lastUsers)))
    {
      if failed == Failed(Attempt(lastConfig, lastUsers)) {
        return false;
      }
      log := log + [Tried(Attempt(lastConfig, lastUsers))];
      var certificate, valid, overrides: bool := *, *, *;
      if !certificate || !valid || !overrides {
        refusals := refusals + 1;
        FailRuntime();
        return false;
      }
      ok := true;
    }

    // Start, or reload, then open the firewall; a failure of either stops the kernel.
    method Launch() returns (ok: bool)
      requires lastConfig.Some? && NoRepeats(log) && log != []
      requires log[|log| - 1] == Tried(Attempt(lastConfig, lastUsers))
      modifies this, kernel
      ensures Valid() && ok == !runtimeError && lastConfig == old(lastConfig) && lastUsers == old(lastUsers)
      ensures Trouble() >= old(Trouble()) && (!ok ==> Trouble() > old(Trouble())) && (ok ==> kernel.running)
      ensures ok ==> appliedConfig.Some? && failed.NoFailure?
    {
      ok := kernel.Apply(lastConfig.value, lastUsers);
      if !ok {
        FailRuntime();
        return;
      }
      var firewall: bool := *;
      if !firewall {
        refusals := refusals + 1;
        FailRuntime();
        return false;
      }
      RuntimeApplied(lastConfig, lastUsers);
    }

    method ApplyChanges() returns (ok: bool)
      requires Consistent()
      requires kernel.running ==> lastConfig.Some? && failed.NoFailure?
      modifies this, kernel
      ensures Valid() && lastConfig == old(lastConfig) && lastUsers == old(lastUsers)
      ensures ok <==> !runtimeError
      ensures Trouble() >= old(Trouble())
      ensures Trouble() == old(Trouble()) ==> Stands() == AppliedTo(old(Stands()))
    {
      if lastConfig.None? {
        return true;
      }
      var running := kernel.IsRunning();
      if !running && (lastUsers != map[] || lastConfig.value.landing) {
        ok := PrepareRuntime();
        if ok {
          ok := Launch();
        }
        return;
      }
      ok := PrepareRuntime();
      if !ok {
        return;
      }
      if lastUsers == map[] && !lastConfig.value.landing {
        kernel.Stop();
        RuntimeApplied(None, map[]);
        return true;
      }
      ok := Launch();
    }

    // ----- What the main loop handles -----

    // Failing or not, the newest configuration stays the wish.
    method ApplyConfigUpdate(config: Config) returns (ok: bool)
      requires Consistent() && (kernel.running ==> failed.NoFailure?)
      modifies this, kernel
      ensures Valid() && lastConfig == Some(config) && lastUsers == old(lastUsers)
      ensures ok <==> !runtimeError
      ensures Trouble() >= old(Trouble())
      ensures Trouble() == old(Trouble()) ==> Stands() == Calm(old(Stands()), ConfigArrives(config), kernel.stopsWhenEmpty)
    {
      lastConfig := Some(config);
      ok := ApplyChanges();
    }

    // Restarts a kernel that does not run; one that still runs is left alone.
    method EnsureRunning() returns (running: bool)
      requires Consistent() && (kernel.running ==> lastConfig.Some? && failed.NoFailure?)
      modifies this, kernel
      ensures lastConfig == old(lastConfig) && lastUsers == old(lastUsers)
      ensures running == kernel.running
      ensures Valid() || (running && Untouched(old(kernel.running), old(kernel.config), old(kernel.users),
                                               old(appliedConfig), old(failed), old(runtimeError), old(log)))
      ensures Trouble() >= old(Trouble())
      ensures Trouble() == old(Trouble()) ==>
                Stands() == if old(kernel.running) then old(Stands()) else AppliedTo(old(Stands()))
    {
      running := kernel.IsRunning();
      if running {
        return;
      }
      if lastConfig.None? {
        return;
      }
      var ok := ApplyChanges();
      if !ok {
        return;
      }
      running := kernel.IsRunning();
    }

    // Only the wish has changed.
    ghost predicate Untouched(running: bool, config: Config, users: Users, applied: Option<Config>,
                              failure: MaybeAttempt, error: bool, before: seq<Record>)
      reads this, kernel
    {
      && running && kernel.running && kernel.config == config && kernel.users == users && appliedConfig == applied
      && failed == failure && runtimeError == error && log == before
    }

    method ApplyUserUpdate(users: Users) returns (ok: bool)
      requires Valid()
      modifies this, kernel
      ensures Valid() && lastConfig == old(lastConfig) && lastUsers == users
      ensures ok <==> !runtimeError
      ensures Trouble() >= old(Trouble())
      ensures Trouble() == old(Trouble()) ==> Stands() == WithUsers(old(Stands()), users)
    {
      var wasRunning := kernel.IsRunning();
      lastUsers := users;
      var running := EnsureRunning();
      if !running {
        return !runtimeError;
      }
      if !wasRunning {
        return true;
      }
      ok := kernel.UpdateUsers(users);
      if !ok {
        FailRuntime();
        return;
      }
      appliedUsers := lastUsers;
    }

    // The full update behind a change that the kernel could not make by itself.
    method ReplaceUsers() returns (ok: bool)
      requires Consistent() && lastConfig.Some? && failed.NoFailure? && appliedConfig == lastConfig
      requires kernel.running ==> kernel.config == lastConfig.value
      modifies this, kernel
      ensures Valid() && lastConfig == old(lastConfig) && lastUsers == old(lastUsers)
      ensures ok == !runtimeError
      ensures Trouble() >= old(Trouble())
      ensures !ok ==> Trouble() > old(Trouble())
      ensures ok ==> kernel.running && old(kernel.running)
    {
      ok := kernel.UpdateUsers(lastUsers);
      if !ok {
        FailRuntime();
        return;
      }
      appliedUsers := lastUsers;
    }

    // An action that is not known changes nothing, and neither does an empty change.
    method ApplyUserDelta(action: Action, delta: Users) returns (ok: bool)
      requires Valid()
      modifies this, kernel
      ensures Valid() && lastConfig == old(lastConfig)
      ensures lastUsers == match action
                           case Add => old(lastUsers) + delta
                           case Remove => old(lastUsers) - delta.Keys
                           case Unknown => old(lastUsers)
      ensures ok <==> !action.Unknown? && (delta == map[] || !runtimeError)
      ensures Trouble() >= old(Trouble())
      ensures Trouble() == old(Trouble()) ==>
                Stands() == Calm(old(Stands()), UsersChange(action, delta), kernel.stopsWhenEmpty)
    {
      if action.Unknown? || delta == map[] {
        assert lastUsers + map[] == lastUsers && lastUsers - {} == lastUsers;
        return !action.Unknown?;
      }
      match action {
        case Add => ok := AddUsers(delta);
        case Remove => ok := RemoveUsers(delta);
      }
    }

    // A change of a user's credentials is a full update, everything else a hot one.
    method AddUsers(delta: Users) returns (ok: bool)
      requires Valid()
      modifies this, kernel
      ensures Valid() && lastConfig == old(lastConfig) && lastUsers == old(lastUsers) + delta
      ensures ok <==> !runtimeError
      ensures Trouble() >= old(Trouble())
      ensures Trouble() == old(Trouble()) ==> Stands() == WithUsers(old(Stands()), old(lastUsers) + delta)
    {
      var merged := lastUsers + delta;
      if CredentialChange(lastUsers, delta) {
        ok := ApplyUserUpdate(merged);
        return;
      }
      var wasRunning := kernel.IsRunning();
      lastUsers := merged;
      var running := EnsureRunning();
      if !running {
        return !runtimeError;
      }
      if !wasRunning {
        return true;
      }
      assert merged + delta == merged;
      ok := kernel.AddUsers(delta);
      if !ok {
        ok := ReplaceUsers();
        return;
      }
      appliedUsers := lastUsers;
    }

    // A kernel that this removal stops is still recorded as applied.
    method RemoveUsers(delta: Users) returns (ok: bool)
      requires Valid()
      modifies this, kernel
      ensures Valid() && lastConfig == old(lastConfig) && lastUsers == old(lastUsers) - delta.Keys
      ensures ok <==> !runtimeError
      ensures Trouble() >= old(Trouble())
      ensures Trouble() == old(Trouble()) ==> Stands() == Without(old(Stands()), delta, kernel.stopsWhenEmpty)
    {
      lastUsers := lastUsers - delta.Keys;
      var running := kernel.IsRunning();
      if !running {
        ok := ApplyChanges();
        return;
      }
      ok := kernel.RemoveUsers(delta);
      if !ok {
        ok := ReplaceUsers();
        return;
      }
      appliedUsers := lastUsers;
    }

    // The result of a poll; both parts are recorded as wishes before anything is applied.
    method ApplyPullResult(config: Option<Config>, certificateChanged: bool, usersKnown: bool, users: Users) returns (ok: bool)
      requires Valid()
      modifies this, kernel
      ensures Valid()
      ensures lastConfig == if config.Some? then config else old(lastConfig)
      ensures lastUsers == if usersKnown then users else old(lastUsers)
      ensures Trouble() >= old(Trouble())
      ensures Trouble() == old(Trouble()) ==>
                Stands() == Calm(old(Stands()), PollReturns(config, certificateChanged, usersKnown, users),
                                 kernel.stopsWhenEmpty)
    {
      ok := true;
      var usersChanged := usersKnown && users != lastUsers;
      if config.None? && !certificateChanged {
        if usersChanged {
          ok := ApplyUserUpdate(users);
        }
        return;
      }
      if usersChanged {
        lastUsers := users;
      }
      if config.Some? {
        ok := ApplyConfigUpdate(config.value);
      } else {
        ok := ApplyChanges();
      }
    }

    // Takes every stopped kernel that is recorded as applied for one that has died, and keeps it down until
    // something changes.
    method Track()
      requires Valid()
      modifies this, kernel
      ensures Valid() && lastConfig == old(lastConfig) && lastUsers == old(lastUsers)
      ensures !kernel.running ==> appliedConfig.None?
      ensures Trouble() >= old(Trouble())
      ensures Trouble() == old(Trouble()) ==> Stands() == Calm(old(Stands()), Tracks, kernel.stopsWhenEmpty)
    {
      var running := kernel.IsRunning();
      if appliedConfig.Some? && !running {
        FailRuntime();
      }
    }

    method Handle(e: Event)
      requires Valid()
      modifies this, kernel
      ensures Valid() && Trouble() >= old(Trouble())
      ensures Trouble() == old(Trouble()) ==> Stands() == Calm(old(Stands()), e, kernel.stopsWhenEmpty)
    {
      var ok;
      match e {
        case ConfigArrives(config) => ok := ApplyConfigUpdate(config);
        case UsersArrive(users) => ok := ApplyUserUpdate(users);
        case UsersChange(action, delta) => ok := ApplyUserDelta(action, delta);
        case PollReturns(config, certificateChanged, usersKnown, users) =>
          ok := ApplyPullResult(config, certificateChanged, usersKnown, users);
        case Tracks => Track();
      }
    }

    // Any number of events; when nothing goes wrong, the outcome is that of CalmRun.
    method HandleAll(events: seq<Event>)
      requires Valid()
      modifies this, kernel
      ensures Valid() && Trouble() >= old(Trouble())
      ensures Trouble() == old(Trouble()) ==> Stands() == CalmRun(old(Stands()), events, kernel.stopsWhenEmpty)
    {
      hide Valid, Calm;
      for i := 0 to |events|
        invariant Valid() && Trouble() >= old(Trouble())
        invariant Trouble() == old(Trouble()) ==> Stands() == CalmRun(old(Stands()), events[..i], kernel.stopsWhenEmpty)
      {
        assert events[..i + 1][..i] == events[..i];
        Handle(events[i]);
      }
      assert events[..|events|] == events;
    }
  }

  // ----- When nothing goes wrong -----

  datatype Event =
    | ConfigArrives(config: Config)
    | UsersArrive(users: Users)
    | UsersChange(action: Action, delta: Users)
    | PollReturns(newConfig: Option<Config>, certificateChanged: bool, usersKnown: bool, polled: Users)
    | Tracks

  // The wishes, whether the kernel runs, whether something is recorded as applied, and a failed attempt.
  datatype Standing = Standing(config: Option<Config>, users: Users, running: bool, applied: bool, failed: MaybeAttempt)

  const START := Standing(None, map[], false, false, NoFailure)

  // What a kernel should run for.
  predicate Needed(s: Standing) { s.config.Some? && (s.users != map[] || s.config.value.landing) }

  // An attempt that has failed is not repeated.
  function AppliedTo(s: Standing): Standing {
    if s.config.None? || s.failed == Failed(Attempt(s.config, s.users)) then s
    else s.(running := Needed(s), applied := Needed(s), failed := NoFailure)
  }

  function WithUsers(s: Standing, users: Users): Standing {
    if s.running then s.(users := users) else AppliedTo(s.(users := users))
  }

  // The removal that makes a kernel stop by itself.
  predicate Empties(s: Standing, e: Event, stops: bool) {
    && stops && s.running && s.config.Some? && e.UsersChange? && e.action.Remove?
    && LastLeaves(s.config.value, s.users, e.delta)
  }

  function Without(s: Standing, delta: Users, stops: bool): Standing {
    var t := s.(users := s.users - delta.Keys);
    if !s.running then AppliedTo(t)
    else t.(running := !Empties(s, UsersChange(Remove, delta), stops))
  }

  function Calm(s: Standing, e: Event, stops: bool): Standing {
    match e
    case ConfigArrives(config) => AppliedTo(s.(config := Some(config)))
    case UsersArrive(users) => WithUsers(s, users)
    case UsersChange(action, delta) =>
      if delta == map[] || action.Unknown? then s
      else if action.Add? then WithUsers(s, s.users + delta)
      else Without(s, delta, stops)
    case PollReturns(config, certificateChanged, usersKnown, users) =>
      var changed := usersKnown && users != s.users;
      if config.None? && !certificateChanged then if changed then WithUsers(s, users) else s
      else AppliedTo(s.(users := if changed then users else s.users, config := if config.Some? then config else s.config))
    case Tracks =>
      if s.applied && !s.running then s.(applied := false, failed := Failed(Attempt(s.config, s.users))) else s
  }

  function CalmRun(s: Standing, events: seq<Event>, stops: bool): Standing {
    if events == [] then s else Calm(CalmRun(s, events[..|events| - 1], stops), events[|events| - 1], stops)
  }

  // Recorded as applied although the kernel does not run.
  predicate Stranded(s: Standing) { s.applied && !s.running }

  // What a service that nothing has gone wrong with looks like.
  predicate Proper(s: Standing) {
    && (s.failed.Failed? ==> s.config.Some? && !s.applied && !Needed(s) && s.failed == Failed(Attempt(s.config, s.users)))
    && (Needed(s) ==> s.running) && (s.running ==> s.applied) && (s.applied ==> s.config.Some?)
    && (Stranded(s) ==> !Needed(s))
  }

  // Events that leave a service without users as it is.
  predicate Idle(e: Event) {
    || (e.UsersChange? && (e.delta == map[] || e.action.Unknown?))
    || (e.PollReturns? && e.newConfig.None? && !e.certificateChanged && (!e.usersKnown || e.polled == map[]))
  }

  lemma {:induction false} StrandedStep(s: Standing, e: Event, stops: bool)
    requires Proper(s)
    ensures Proper(Calm(s, e, stops))
    ensures Stranded(Calm(s, e, stops)) <==> Empties(s, e, stops) || (Stranded(s) && Idle(e))
  {
  }

  lemma {:induction false} StaysProper(events: seq<Event>, stops: bool)
    ensures Proper(CalmRun(START, events, stops))
    decreases |events|
  {
    hide Calm, Proper;
    if events == [] {
      StartsProper();
    } else {
      StaysProper(events[..|events| - 1], stops);
      StrandedStep(CalmRun(START, events[..|events| - 1], stops), events[|events| - 1], stops);
    }
  }

  lemma {:induction false} StartsProper()
    ensures Proper(START)
  {
  }

  // The last event that is not idle is a removal that made the kernel stop.
  ghost predicate Emptied(events: seq<Event>, stops: bool) {
    exists i :: EmptiedAt(events, i, stops)
  }

  predicate EmptiedAt(events: seq<Event>, i: int, stops: bool) {
    && 0 <= i < |events| && Empties(CalmRun(START, events[..i], stops), events[i], stops)
    && forall k :: i < k < |events| ==> Idle(events[k])
  }

  lemma {:induction false} EmptiedStep(events: seq<Event>, stops: bool)
    requires events != []
    ensures var n := |events| - 1;
            Emptied(events, stops) <==>
              Empties(CalmRun(START, events[..n], stops), events[n], stops) || (Emptied(events[..n], stops) && Idle(events[n]))
  {
    hide CalmRun, Empties, Idle;
    var n := |events| - 1;
    assert forall i :: 0 <= i <= n ==> events[..n][..i] == events[..i];
    if Emptied(events, stops) {
      var i :| EmptiedAt(events, i, stops);
      assert i < n ==> EmptiedAt(events[..n], i, stops);
    }
    if Empties(CalmRun(START, events[..n], stops), events[n], stops) {
      assert EmptiedAt(events, n, stops);
    }
    if Emptied(events[..n], stops) && Idle(events[n]) {
      var i :| EmptiedAt(events[..n], i, stops);
      assert EmptiedAt(events, i, stops);
    }
  }

  lemma {:induction false} StrandedIff(events: seq<Event>, stops: bool)
    ensures Stranded(CalmRun(START, events, stops)) <==> Emptied(events, stops)
    decreases |events|
  {
    hide Calm, Proper, Empties, Idle;
    if events != [] {
      var init := events[..|events| - 1];
      StrandedIff(init, stops);
      StaysProper(init, stops);
      StrandedStep(CalmRun(START, init, stops), events[|events| - 1], stops);
      EmptiedStep(events, stops);
    }
  }

  /** Although nothing has gone wrong, an event makes the service record a failure exactly if it is a look at
      the kernel and the last event before that was not idle is a removal of the last users that made the
      kernel stop by itself. */
  lemma {:induction false} FailsUntroubledIff(events: seq<Event>, e: Event, stops: bool)
    ensures var s := CalmRun(START, events, stops);
            Calm(s, e, stops).failed.Failed? && !s.failed.Failed? <==> e.Tracks? && Emptied(events, stops)
  {
    hide CalmRun;
    StaysProper(events, stops);
    StrandedIff(events, stops);
  }

  /** When nothing has gone wrong, a new configuration leaves the kernel running exactly if the node has users or is
      a landing node, and so does a new list of users while it does not run. */
  lemma {:induction false} RunsExactly(events: seq<Event>, config: Config, users: Users, stops: bool)
    ensures var s := CalmRun(START, events, stops);
            && (Calm(s, ConfigArrives(config), stops).running <==> s.users != map[] || config.landing)
            && (s.config.Some? && !s.running ==>
                  (Calm(s, UsersArrive(users), stops).running <==> users != map[] || s.config.value.landing))
  {
    hide CalmRun;
    StaysProper(events, stops);
  }

  // Such a run: a configuration and one user arrive, the user is removed, and the service looks.
  lemma {:induction false} UntroubledFailure(config: Config, user: int, spec: string)
    requires !config.landing
    ensures var events := [ConfigArrives(config), UsersArrive(map[user := spec]), UsersChange(Remove, map[user := spec])];
            Emptied(events, true) && CalmRun(START, events + [Tracks], true).failed.Failed?
  {
    var one: Users := map[user := spec];
    var events := [ConfigArrives(config), UsersArrive(one), UsersChange(Remove, one)];
    assert events[..2] == [ConfigArrives(config), UsersArrive(one)] && events[..2][..1] == [ConfigArrives(config)];
    assert events[..2][..1][..0] == [] && user in one;
    assert CalmRun(START, events[..2][..1], true) == Standing(Some(config), map[], false, false, NoFailure);
    assert CalmRun(START, events[..2], true) == Standing(Some(config), one, true, true, NoFailure);
    assert one - one.Keys == map[];
    assert EmptiedAt(events, 2, true);
    assert (events + [Tracks])[..3] == events;
    FailsUntroubledIff(events, Tracks, true);
    StrandedIff(events, true);
    StaysProper(events, true);
  }

  /** Whenever nothing has gone wrong, a kernel that is needed runs, and one that runs has been asked for. */
  lemma {:induction false} NeededRuns(events: seq<Event>, stops: bool)
    ensures var s := CalmRun(START, events, stops);
            && (s.config.Some? && (s.users != map[] || s.config.value.landing) ==> s.running)
            && (s.running ==> s.config.Some?)
  {
    hide CalmRun;
    StaysProper(events, stops);
  }
}
