/** The mailbox between the panel's event stream and a node: events are folded into one pending state, and
    a consumer that takes that state over has seen all of them. */
module Mailbox {
  import opened Options

  datatype User = User(id: int, spec: string)

  datatype Config = Config(text: string)

  datatype Devices = Devices(text: string)

  datatype Action = Add | Remove | Unknown

  datatype Event =
    | SyncConfig(config: Option<Config>)
    | SyncUsers(users: Option<seq<User>>)
    | SyncDevices(devices: Option<Devices>)
    | UserDelta(action: Action, delta: seq<User>)
    | OtherEvent

  // ----- What a list of users means -----

  // The users by id; of two with the same id the later one counts.
  function ById(users: seq<User>): map<int, User> {
    if users == [] then map[] else ById(users[..|users| - 1])[users[|users| - 1].id := users[|users| - 1]]
  }

  function Ids(users: seq<User>): set<int> { set u | u in users :: u.id }

  predicate UniqueIds(users: seq<User>) {
    forall i, j :: 0 <= i < j < |users| ==> users[i].id != users[j].id
  }

  // A change of some users, said of the users by id.
  function Changed(users: map<int, User>, action: Action, delta: seq<User>): map<int, User> {
    match action
    case Add => users + ById(delta)
    case Remove => users - Ids(delta)
    case Unknown => users
  }

  lemma {:induction false} ByIdKeys(users: seq<User>)
    ensures ById(users).Keys == Ids(users)
    decreases |users|
  {
    if users != [] {
      ByIdKeys(users[..|users| - 1]);
      assert users == users[..|users| - 1] + [users[|users| - 1]];
    }
  }

  // The last place of every id.
  ghost predicate IsIndex(index: map<int, int>, users: seq<User>) {
    && index.Keys == Ids(users)
    && (forall id <- index :: 0 <= index[id] < |users| && users[index[id]].id == id)
    && (forall i :: 0 <= i < |users| ==> users[i].id in index && i <= index[users[i].id])
  }

  lemma {:induction false} Appended(users: seq<User>, u: User)
    ensures ById(users + [u]) == ById(users)[u.id := u]
  {
  }

  // Overwriting the last user with an id changes what the list means at that id only.
  lemma {:induction false} Overwritten(users: seq<User>, k: nat, u: User)
    requires k < |users| && users[k].id == u.id && forall i :: k < i < |users| ==> users[i].id != u.id
    ensures ById(users[k := u]) == ById(users)[u.id := u]
    decreases |users|
  {
    var n := |users| - 1;
    if k == n {
      assert users[k := u][..n] == users[..n];
    } else {
      Overwritten(users[..n], k, u);
      assert users[k := u][..n] == users[..n][k := u];
    }
  }

  method IndexOf(users: seq<User>) returns (index: map<int, int>)
    ensures IsIndex(index, users)
  {
    index := map[];
    for i := 0 to |users|
      invariant IsIndex(index, users[..i])
    {
      IndexStep(index, users, i);
      index := index[users[i].id := i];
    }
    assert users[..|users|] == users;
  }

  lemma {:induction false} IndexStep(index: map<int, int>, users: seq<User>, i: nat)
    requires i < |users| && IsIndex(index, users[..i])
    ensures IsIndex(index[users[i].id := i], users[..i + 1])
  {
  }

  // Puts one user in: over the last one with its id, or at the end.
  function WithUser(users: seq<User>, index: map<int, int>, u: User): seq<User>
    requires u.id in index ==> 0 <= index[u.id] < |users|
  {
    if u.id in index then users[index[u.id] := u] else users + [u]
  }

  lemma {:induction false} WithUserMeans(users: seq<User>, index: map<int, int>, u: User)
    requires IsIndex(index, users)
    ensures ById(WithUser(users, index, u)) == ById(users)[u.id := u]
    ensures IsIndex(if u.id in index then index else index[u.id := |users|], WithUser(users, index, u))
    ensures UniqueIds(users) ==> UniqueIds(WithUser(users, index, u))
  {
    if u.id in index {
      Overwritten(users, index[u.id], u);
      SameIndex(index, users, index[u.id], u);
    } else {
      Appended(users, u);
      NewId(index, users, u);
    }
  }

  method AddAll(users: seq<User>, delta: seq<User>) returns (result: seq<User>)
    ensures ById(result) == Changed(ById(users), Add, delta)
    ensures UniqueIds(users) ==> UniqueIds(result)
  {
    hide ById, UniqueIds, IsIndex;
    result := users;
    var index := IndexOf(users);
    NoUsers();
    for i := 0 to |delta|
      invariant IsIndex(index, result) && ById(result) == ById(users) + ById(delta[..i])
      invariant UniqueIds(users) ==> UniqueIds(result)
    {
      WithUserMeans(result, index, delta[i]);
      OneMoreChange(users, delta, i, ById(result));
      IndexInRange(index, result, delta[i].id);
      if delta[i].id in index {
        result := result[index[delta[i].id] := delta[i]];
      } else {
        index := index[delta[i].id := |result|];
        result := result + [delta[i]];
      }
    }
    assert delta[..|delta|] == delta;
  }

  lemma {:induction false} IndexInRange(index: map<int, int>, users: seq<User>, id: int)
    requires IsIndex(index, users)
    ensures id in index ==> 0 <= index[id] < |users|
  {
  }

  lemma {:induction false} OneMoreChange(users: seq<User>, delta: seq<User>, i: nat, now: map<int, User>)
    requires i < |delta| && now == ById(users) + ById(delta[..i])
    ensures now[delta[i].id := delta[i]] == ById(users) + ById(delta[..i + 1])
  {
    hide ById;
    Appended(delta[..i], delta[i]);
    assert delta[..i + 1] == delta[..i] + [delta[i]];
  }

  lemma {:induction false} NoUsers()
    ensures ById([]) == map[]
  {
  }

  lemma {:induction false} NotBefore(users: seq<User>, i: nat)
    requires UniqueIds(users) && i < |users|
    ensures forall u <- users[..i] :: u.id != users[i].id
  {
  }

  lemma {:induction false} SameIndex(index: map<int, int>, users: seq<User>, k: nat, u: User)
    requires IsIndex(index, users) && k < |users| && users[k].id == u.id
    ensures IsIndex(index, users[k := u])
  {
    var after := users[k := u];
    forall id ensures id in Ids(after) <==> id in Ids(users) {
      if id in Ids(users) {
        var i :| 0 <= i < |users| && users[i].id == id;
        assert after[i] in after && after[i].id == id;
      }
      if id in Ids(after) {
        var i :| 0 <= i < |after| && after[i].id == id;
        assert users[i] in users && users[i].id == id;
      }
    }
  }

  lemma {:induction false} NewId(index: map<int, int>, users: seq<User>, u: User)
    requires IsIndex(index, users) && u.id !in index
    ensures IsIndex(index[u.id := |users|], users + [u])
  {
  }

  // What is left of the first users once some ids are removed.
  ghost predicate Remaining(result: seq<User>, users: seq<User>, i: nat, removed: set<int>)
    requires i <= |users|
  {
    && ById(result) == ById(users[..i]) - removed
    && (UniqueIds(users) ==> UniqueIds(result) && forall u <- result :: u in users[..i])
  }

  lemma {:induction false} RemainingStep(result: seq<User>, users: seq<User>, i: nat, removed: set<int>)
    requires i < |users| && Remaining(result, users, i, removed)
    ensures Remaining(if users[i].id in removed then result else result + [users[i]], users, i + 1, removed)
  {
    hide ById;
    assert users[..i + 1] == users[..i] + [users[i]];
    Appended(users[..i], users[i]);
    Appended(result, users[i]);
    if UniqueIds(users) {
      NotBefore(users, i);
    }
  }

  method RemoveAll(users: seq<User>, delta: seq<User>) returns (result: seq<User>)
    ensures ById(result) == Changed(ById(users), Remove, delta)
    ensures UniqueIds(users) ==> UniqueIds(result)
  {
    var removeIds := Ids(delta);
    result := [];
    for i := 0 to |users|
      invariant Remaining(result, users, i, removeIds)
    {
      RemainingStep(result, users, i, removeIds);
      if users[i].id in removeIds {
        continue;
      }
      result := result + [users[i]];
    }
    assert users[..|users|] == users;
  }

  method ApplyUserDelta(users: seq<User>, action: Action, delta: seq<User>) returns (ok: bool, result: seq<User>)
    ensures ok == !action.Unknown?
    ensures ById(result) == Changed(ById(users), action, delta)
    ensures UniqueIds(users) ==> UniqueIds(result)
  {
    ok, result := true, users;
    match action {
      case Add => result := AddAll(users, delta);
      case Remove => result := RemoveAll(users, delta);
      case Unknown => ok := false;
    }
  }

  // ----- What the events mean -----

  // The state that all events so far ask for; no users until a full list is known.
  datatype Desired = Desired(config: Option<Config>, users: Option<map<int, User>>, devices: Option<Devices>)

  // A change of users that can only be resolved by asking the panel again.
  predicate Unresolved(d: Desired, e: Event) { e.UserDelta? && e.delta != [] && (d.users.None? || e.action.Unknown?) }

  function Fold(d: Desired, e: Event): Desired {
    match e
    case SyncConfig(config) => if config.Some? then d.(config := config) else d
    case SyncUsers(users) => if users.Some? then d.(users := Some(ById(users.value))) else d
    case SyncDevices(devices) => if devices.Some? then d.(devices := devices) else d
    case UserDelta(action, delta) =>
      if d.users.Some? then d.(users := Some(Changed(d.users.value, action, delta))) else d
    case OtherEvent => d
  }

  lemma {:induction false} NoChange(d: Desired, e: Event)
    requires e.UserDelta? && e.delta == []
    ensures Fold(d, e) == d
  {
    if d.users.Some? {
      assert Changed(d.users.value, e.action, e.delta) == d.users.value;
    }
  }

  // Whether an event makes the mailbox hand out its list of users.
  predicate ChangesUsers(d: Desired, e: Event) {
    || (e.SyncUsers? && e.users.Some?)
    || (e.UserDelta? && e.delta != [] && d.users.Some? && !e.action.Unknown?)
  }

  function FoldAll(d: Desired, events: seq<Event>): Desired {
    if events == [] then d else Fold(FoldAll(d, events[..|events| - 1]), events[|events| - 1])
  }

  // ----- What is left of many events -----

  /** The last full configuration, or device state, is the one asked for; without one, the one before. */
  lemma {:induction false} LastSnapshotWins(d: Desired, events: seq<Event>, i: nat)
    requires i < |events|
    requires forall k :: i < k < |events| ==> !(events[k].SyncConfig? && events[k].config.Some?)
    ensures events[i].SyncConfig? && events[i].config.Some? ==> FoldAll(d, events).config == events[i].config
    ensures i == 0 && !(events[0].SyncConfig? && events[0].config.Some?) ==> FoldAll(d, events).config == d.config
    decreases |events|
  {
    var init := events[..|events| - 1];
    if i < |init| {
      LastSnapshotWins(d, init, i);
    } else if i == 0 {
      assert init == [];
    }
  }

  lemma {:induction false} LastDevicesWin(d: Desired, events: seq<Event>, i: nat)
    requires i < |events|
    requires forall k :: i < k < |events| ==> !(events[k].SyncDevices? && events[k].devices.Some?)
    ensures events[i].SyncDevices? && events[i].devices.Some? ==> FoldAll(d, events).devices == events[i].devices
    ensures i == 0 && !(events[0].SyncDevices? && events[0].devices.Some?) ==> FoldAll(d, events).devices == d.devices
    decreases |events|
  {
    var init := events[..|events| - 1];
    if i < |init| {
      LastDevicesWin(d, init, i);
    } else if i == 0 {
      assert init == [];
    }
  }

  // A full list speaks of every user, a known change of those it names.
  predicate Mentions(e: Event, id: int) {
    (e.SyncUsers? && e.users.Some?) || (e.UserDelta? && !e.action.Unknown? && id in Ids(e.delta))
  }

  // The last entry for the id.
  ghost predicate LastEntry(users: seq<User>, id: int, u: User) {
    exists k :: 0 <= k < |users| && users[k] == u && u.id == id && forall j :: k < j < |users| ==> users[j].id != id
  }

  lemma {:induction false} LastEntryIsById(users: seq<User>, id: int)
    ensures id in ById(users) <==> id in Ids(users)
    ensures id in ById(users) ==> LastEntry(users, id, ById(users)[id])
    decreases |users|
  {
    ByIdKeys(users);
    if users != [] {
      var init, last := users[..|users| - 1], users[|users| - 1];
      LastEntryIsById(init, id);
      if last.id == id {
        assert users[|users| - 1] == last;
      } else if id in ById(init) {
        var k :| 0 <= k < |init| && init[k] == ById(init)[id] && init[k].id == id
                 && forall j :: k < j < |init| ==> init[j].id != id;
        assert users[k] == init[k];
      }
    }
  }

  /** Once users are known, the last event that mentions a user decides about it: it is there with the last entry of
      that event's list, unless it was removed or a full list does not have it. */
  lemma {:induction false} LastMentionWins(d: Desired, events: seq<Event>, i: nat, id: int)
    requires d.users.Some? && i < |events| && Mentions(events[i], id)
    requires forall k :: i < k < |events| ==> !Mentions(events[k], id)
    ensures var users := FoldAll(d, events).users;
            && users.Some?
            && (events[i].UserDelta? && events[i].action.Remove? ==> id !in users.value)
            && (events[i].UserDelta? && events[i].action.Add? ==>
                  id in users.value && LastEntry(events[i].delta, id, users.value[id]))
            && (events[i].SyncUsers? ==>
                  && (id in users.value <==> id in Ids(events[i].users.value))
                  && (id in users.value ==> LastEntry(events[i].users.value, id, users.value[id])))
    decreases |events|
  {
    var init, e := events[..|events| - 1], events[|events| - 1];
    StaysKnown(d, init);
    if i < |init| {
      LastMentionWins(d, init, i, id);
      if e.UserDelta? {
        LastEntryIsById(e.delta, id);
      }
    } else {
      assert events[i] == e;
      if e.UserDelta? {
        LastEntryIsById(e.delta, id);
      } else {
        LastEntryIsById(e.users.value, id);
      }
    }
  }

  lemma {:induction false} StaysKnown(d: Desired, events: seq<Event>)
    requires d.users.Some?
    ensures FoldAll(d, events).users.Some?
    decreases |events|
  {
    if events != [] {
      StaysKnown(d, events[..|events| - 1]);
    }
  }

  datatype MailboxState = MailboxState(
    config: Option<Config>, users: Option<seq<User>>, devices: Option<Devices>, needsReconcile: bool)

  // A consumer that takes over what a drain hands out.
  function Overwrite(view: Desired, s: MailboxState): Desired {
    Desired(
      if s.config.Some? then s.config else view.config,
      if s.users.Some? then Some(ById(s.users.value)) else view.users,
      if s.devices.Some? then s.devices else view.devices)
  }

  lemma {:induction false} OverwriteNothing(view: Desired)
    ensures Overwrite(view, MailboxState(None, None, None, false)) == view
  {
  }

  /** The mailbox. desired is the fold of the events over the baseline, view what its consumer holds, and
      unresolved counts the changes since the last drain that could not be folded. The token, the
      notifications still to be made and a consumer that took the token are the wake-ups under way. */
  class NodeMailbox {
    var ready: bool
    var config: Option<Config>
    var users: seq<User>
    var devices: Option<Devices>
    var dirtyConfig: bool
    var dirtyUsers: bool
    var dirtyDevices: bool
    var needsReconcile: bool
    var hasFullUserState: bool
    var token: bool
    ghost var pendingNotifies: nat
    ghost var awake: nat
    ghost var desired: Desired
    ghost var view: Desired
    ghost var unresolved: nat
    ghost var seeded: bool

    ghost predicate Valid()
      reads this
    {
      && Folded() && UpToDate()
      && (needsReconcile <==> unresolved > 0)
      && (!seeded ==> !ready && (config.Some? ==> dirtyConfig) && (hasFullUserState ==> dirtyUsers))
      && (ready && Dirty() ==> token || pendingNotifies > 0 || awake > 0)
    }

    ghost predicate Folded()
      reads `config, `users, `devices, `dirtyConfig, `dirtyUsers, `dirtyDevices, `hasFullUserState, `desired
    {
      && (hasFullUserState <==> desired.users.Some?)
      && (hasFullUserState ==> ById(users) == desired.users.value)
      && config == desired.config && devices == desired.devices
      && (dirtyConfig ==> config.Some?) && (dirtyUsers ==> hasFullUserState) && (dirtyDevices ==> devices.Some?)
    }

    // What is not waiting in the mailbox, the consumer holds.
    ghost predicate UpToDate()
      reads `dirtyConfig, `dirtyUsers, `dirtyDevices, `hasFullUserState, `desired, `view
    {
      && (!dirtyConfig ==> view.config == desired.config)
      && (!dirtyUsers && hasFullUserState ==> view.users == desired.users)
      && (!dirtyDevices ==> view.devices == desired.devices)
    }

    predicate Dirty()
      reads this
    {
      dirtyConfig || dirtyUsers || dirtyDevices || needsReconcile
    }

    constructor ()
      ensures Valid() && desired == Desired(None, None, None) && view == desired
      ensures !ready && !seeded && !hasFullUserState && unresolved == 0
    {
      ready, config, users, devices := false, None, [], None;
      dirtyConfig, dirtyUsers, dirtyDevices, needsReconcile, hasFullUserState := false, false, false, false, false;
      token, pendingNotifies, awake, unresolved, seeded := false, 0, 0, 0, false;
      desired, view := Desired(None, None, None), Desired(None, None, None);
    }

    // The locked part of marking the mailbox ready; the notification follows after unlocking.
    method MarkReady()
      requires Valid() && seeded
      modifies `ready, `pendingNotifies
      ensures Valid() && ready && pendingNotifies == old(pendingNotifies) + 1
    {
      ready := true;
      pendingNotifies := pendingNotifies + 1;
    }

    method Notify()
      requires Valid() && pendingNotifies > 0
      modifies `token, `pendingNotifies
      ensures Valid() && token && pendingNotifies == old(pendingNotifies) - 1
    {
      token := true;
      pendingNotifies := pendingNotifies - 1;
    }

    // The consumer receives from the channel; it will drain.
    method TakeToken()
      requires Valid() && token
      modifies `token, `awake
      ensures Valid() && !token && awake == old(awake) + 1
    {
      token := false;
      awake := awake + 1;
    }

    // The consumer hands over what it holds; only what the mailbox does not know yet is taken.
    method SeedBaseline(baseline: Option<seq<User>>, spec: Option<Config>)
      requires Valid()
      modifies `users, `config, `hasFullUserState, `desired, `view, `seeded
      ensures Valid() && seeded && (hasFullUserState <==> old(hasFullUserState) || baseline.Some?)
      ensures desired.users == if old(desired).users.Some? || baseline.None? then old(desired).users
                               else Some(ById(baseline.value))
      ensures desired.config == if old(desired).config.Some? then old(desired).config else spec
      ensures desired.devices == old(desired).devices
      // A consumer that seeds for the first time starts from the baseline, and later ones have nothing new.
      ensures view.users == if baseline.Some? && (!old(seeded) || old(desired).users.None?)
                            then Some(ById(baseline.value)) else old(view).users
      ensures view.config == if spec.Some? && (!old(seeded) || old(desired).config.None?) then spec else old(view).config
      ensures view.devices == old(view).devices
    {
      hide ById, Valid;
      ghost var first := !seeded;
      BeforeSeeding();
      StartSeeding();
      if baseline.Some? {
        SeedUsers(baseline.value, first);
      }
      if spec.Some? {
        SeedConfig(spec.value, first);
      }
    }

    // What events have brought before the first seeding is still to be handed out.
    lemma BeforeSeeding()
      requires Valid()
      ensures !seeded ==> (config.Some? ==> dirtyConfig) && (hasFullUserState ==> dirtyUsers)
      ensures (hasFullUserState <==> desired.users.Some?) && config == desired.config
    {
    }

    ghost method StartSeeding()
      requires Valid()
      modifies `seeded
      ensures Valid() && seeded
    {
      seeded := true;
    }

    method SeedUsers(baseline: seq<User>, ghost first: bool)
      requires Valid() && seeded && (first && hasFullUserState ==> dirtyUsers)
      modifies `users, `hasFullUserState, `desired, `view
      ensures Valid() && hasFullUserState
      ensures desired == old(desired).(
                users := if old(desired).users.Some? then old(desired).users else Some(ById(baseline)))
      ensures view == old(view).(
                users := if first || old(desired).users.None? then Some(ById(baseline)) else old(view).users)
    {
      hide ById;
      if first || desired.users.None? {
        view := view.(users := Some(ById(baseline)));
      }
      if !hasFullUserState {
        users, hasFullUserState := baseline, true;
        desired := desired.(users := Some(ById(users)));
      }
    }

    method SeedConfig(spec: Config, ghost first: bool)
      requires Valid() && seeded && (first && config.Some? ==> dirtyConfig)
      modifies `config, `desired, `view
      ensures Valid()
      ensures desired == old(desired).(
                config := if old(desired).config.Some? then old(desired).config else Some(spec))
      ensures view == old(view).(config := if first || old(desired).config.None? then Some(spec) else old(view).config)
    {
      hide ById;
      if first || desired.config.None? {
        view := view.(config := Some(spec));
      }
      if config.None? {
        config := Some(spec);
        desired := desired.(config := config);
      }
    }

    // A change that cannot be folded.
    method CountUnresolved()
      requires Valid()
      modifies `needsReconcile, `pendingNotifies, `unresolved
      ensures Valid() && unresolved == old(unresolved) + 1 && pendingNotifies == old(pendingNotifies) + 1
    {
      needsReconcile := true;
      unresolved := unresolved + 1;
      pendingNotifies := pendingNotifies + 1;
    }

    method ApplyDelta(action: Action, delta: seq<User>)
      requires Valid() && delta != []
      modifies `users, `dirtyUsers, `hasFullUserState, `needsReconcile, `pendingNotifies, `desired, `unresolved
      ensures Valid() && desired == Fold(old(desired), UserDelta(action, delta))
      ensures unresolved == old(unresolved) + if Unresolved(old(desired), UserDelta(action, delta)) then 1 else 0
      ensures pendingNotifies == old(pendingNotifies) + 1
      ensures dirtyUsers == (old(dirtyUsers) || ChangesUsers(old(desired), UserDelta(action, delta)))
      ensures UniqueIds(old(users)) ==> UniqueIds(users)
    {
      hide ById, UniqueIds, Valid;
      MeansDesired();
      if !hasFullUserState {
        CountUnresolved();
        return;
      }
      var ok, result := ApplyUserDelta(users, action, delta);
      if !ok {
        CountUnresolved();
      } else {
        TakeInUsers(result);
      }
    }

    lemma MeansDesired()
      requires Valid()
      ensures hasFullUserState <==> desired.users.Some?
      ensures hasFullUserState ==> desired.users == Some(ById(users))
    {
    }

    method TakeInConfig(c: Config)
      requires Valid()
      modifies `config, `dirtyConfig, `desired, `pendingNotifies
      ensures Valid() && desired == old(desired).(config := Some(c)) && pendingNotifies == old(pendingNotifies) + 1
    {
      config, dirtyConfig := Some(c), true;
      desired := desired.(config := Some(c));
      pendingNotifies := pendingNotifies + 1;
    }

    method TakeInUsers(list: seq<User>)
      requires Valid()
      modifies `users, `dirtyUsers, `hasFullUserState, `desired, `pendingNotifies
      ensures Valid() && desired == old(desired).(users := Some(ById(list)))
      ensures users == list && dirtyUsers && pendingNotifies == old(pendingNotifies) + 1
    {
      hide ById;
      users, dirtyUsers, hasFullUserState := list, true, true;
      desired := desired.(users := Some(ById(list)));
      pendingNotifies := pendingNotifies + 1;
    }

    method TakeInDevices(d: Devices)
      requires Valid()
      modifies `devices, `dirtyDevices, `desired, `pendingNotifies
      ensures Valid() && desired == old(desired).(devices := Some(d)) && pendingNotifies == old(pendingNotifies) + 1
    {
      devices, dirtyDevices := Some(d), true;
      desired := desired.(devices := Some(d));
      pendingNotifies := pendingNotifies + 1;
    }

    method ApplySnapshot(event: Event) returns (changed: bool)
      requires Valid() && !event.UserDelta?
      modifies `config, `users, `devices, `dirtyConfig, `dirtyUsers, `dirtyDevices, `hasFullUserState, `desired
      modifies `pendingNotifies
      ensures Valid() && desired == Fold(old(desired), event)
      ensures pendingNotifies == old(pendingNotifies) + if changed then 1 else 0
      ensures users == if event.SyncUsers? && event.users.Some? then event.users.value else old(users)
      ensures dirtyUsers == (old(dirtyUsers) || ChangesUsers(old(desired), event))
    {
      hide ById, Valid;
      changed := false;
      match event {
        case SyncConfig(c) =>
          if c.Some? {
            TakeInConfig(c.value);
            changed := true;
          }
        case SyncUsers(list) =>
          if list.Some? {
            TakeInUsers(list.value);
            changed := true;
          }
        case SyncDevices(d) =>
          if d.Some? {
            TakeInDevices(d.value);
            changed := true;
          }
        case OtherEvent =>
      }
    }

    // The locked part of taking in an event.
    method Apply(event: Event) returns (changed: bool)
      requires Valid()
      modifies `config, `users, `devices, `dirtyConfig, `dirtyUsers, `dirtyDevices, `needsReconcile,
               `hasFullUserState, `pendingNotifies, `desired, `unresolved
      ensures Valid() && desired == Fold(old(desired), event)
      ensures unresolved == old(unresolved) + if Unresolved(old(desired), event) then 1 else 0
      ensures pendingNotifies == old(pendingNotifies) + if changed then 1 else 0
      ensures dirtyUsers == (old(dirtyUsers) || ChangesUsers(old(desired), event))
      ensures UniqueIds(old(users)) && (event.SyncUsers? && event.users.Some? ==> UniqueIds(event.users.value)) ==>
                UniqueIds(users)
    {
      hide ById, UniqueIds, Valid, Fold;
      changed := false;
      if !event.UserDelta? {
        changed := ApplySnapshot(event);
      } else if |event.delta| > 0 {
        ApplyDelta(event.action, event.delta);
        changed := true;
      } else {
        NoChange(desired, event);
      }
    }

    // Afterwards a consumer that took over the result holds everything that events have asked for.
    method DrainIfReady() returns (s: MailboxState)
      requires Valid()
      modifies `dirtyConfig, `dirtyUsers, `dirtyDevices, `needsReconcile, `view, `unresolved, `awake
      ensures Valid() && view == Overwrite(old(view), s)
      ensures ready ==> !Dirty() && (s.needsReconcile <==> old(unresolved) > 0) && unresolved == 0
      ensures ready ==> view.config == desired.config && view.devices == desired.devices
      ensures ready && desired.users.Some? ==> view.users == desired.users
      ensures ready ==> if old(dirtyUsers) then s.users.Some? && desired.users == Some(ById(s.users.value)) else s.users.None?
      ensures !ready ==> s == MailboxState(None, None, None, false)
    {
      awake := if awake > 0 then awake - 1 else 0;
      if ready {
        s := Drain();
      } else {
        s := MailboxState(None, None, None, false);
        OverwriteNothing(view);
      }
    }

    // Hands out the configuration, if it is due.
    method DrainConfig() returns (c: Option<Config>)
      requires Folded() && UpToDate()
      modifies `dirtyConfig, `view
      ensures Folded() && UpToDate() && !dirtyConfig && view.config == desired.config
      ensures view == old(view).(config := if c.Some? then c else old(view).config)
    {
      hide ById;
      c := None;
      if dirtyConfig && config.Some? {
        c := config;
        dirtyConfig := false;
        view := view.(config := c);
      }
    }

    method DrainUsers() returns (list: Option<seq<User>>)
      requires Folded() && UpToDate()
      modifies `dirtyUsers, `view
      ensures Folded() && UpToDate() && !dirtyUsers && (desired.users.Some? ==> view.users == desired.users)
      ensures view == old(view).(users := if list.Some? then Some(ById(list.value)) else old(view).users)
      ensures if old(dirtyUsers) then list.Some? && desired.users == Some(ById(list.value)) else list.None?
    {
      hide ById;
      list := None;
      if dirtyUsers {
        list := Some(users);
        dirtyUsers := false;
        view := view.(users := Some(ById(users)));
      }
    }

    method DrainDevices() returns (d: Option<Devices>)
      requires Folded() && UpToDate()
      modifies `dirtyDevices, `view
      ensures Folded() && UpToDate() && !dirtyDevices && view.devices == desired.devices
      ensures view == old(view).(devices := if d.Some? then d else old(view).devices)
    {
      hide ById;
      d := None;
      if dirtyDevices && devices.Some? {
        d := devices;
        dirtyDevices := false;
        view := view.(devices := d);
      }
    }

    method Drain() returns (s: MailboxState)
      requires Folded() && UpToDate() && ready && seeded && (needsReconcile <==> unresolved > 0)
      modifies `dirtyConfig, `dirtyUsers, `dirtyDevices, `needsReconcile, `view, `unresolved
      ensures Valid() && view == Overwrite(old(view), s)
      ensures !Dirty() && (s.needsReconcile <==> old(unresolved) > 0) && unresolved == 0
      ensures view.config == desired.config && view.devices == desired.devices
      ensures desired.users.Some? ==> view.users == desired.users
      ensures if old(dirtyUsers) then s.users.Some? && desired.users == Some(ById(s.users.value)) else s.users.None?
    {
      hide ById, Folded, UpToDate;
      var c := DrainConfig();
      var list := DrainUsers();
      var d := DrainDevices();
      s := MailboxState(c, list, d, needsReconcile);
      needsReconcile := false;
      unresolved := 0;
    }
  }

  // However many events come before the next drain, the consumer ends up with all of them folded.
  method Follow(m: NodeMailbox, events: seq<Event>) returns (s: MailboxState)
    requires m.Valid() && m.ready && m.desired.users.Some?
    modifies m
    ensures m.Valid() && m.desired == FoldAll(old(m.desired), events)
    ensures m.view == m.desired && m.view == Overwrite(old(m.view), s)
    ensures s.needsReconcile <==> old(m.unresolved) > 0 || exists i :: 0 <= i < |events| && UnknownChange(events[i])
  {
    hide NodeMailbox.Valid, ById, Fold, Overwrite;
    for i := 0 to |events|
      invariant m.Valid() && m.ready && m.view == old(m.view) && m.desired == FoldAll(old(m.desired), events[..i])
      invariant m.desired.users.Some?
      invariant m.unresolved > 0 <==> old(m.unresolved) > 0 || exists k :: 0 <= k < i && UnknownChange(events[k])
    {
      assert events[..i + 1][..i] == events[..i];
      UsersStayKnown(m.desired, events[i]);
      var changed := m.Apply(events[i]);
    }
    assert events[..|events|] == events;
    s := m.DrainIfReady();
  }

  predicate UnknownChange(e: Event) { e.UserDelta? && e.delta != [] && e.action.Unknown? }

  lemma {:induction false} UsersStayKnown(d: Desired, e: Event)
    requires d.users.Some?
    ensures Fold(d, e).users.Some? && (Unresolved(d, e) <==> UnknownChange(e))
  {
  }

  // ----- Lists fetched from the panel -----

  // What the consumer sees: events arrive, it drains, or it takes over a list fetched from the panel.
  datatype Step = Arrives(event: Event) | Drains | Fetches(users: seq<User>)

  /** The list the mailbox folds into and whether it is due to be handed out, the list the consumer holds,
      and the one it should hold: the last fetched or full list with every later change made to it. A fetch
      never reaches the mailbox. */
  datatype Lists = Lists(mailbox: map<int, User>, dirty: bool, held: map<int, User>, right: map<int, User>)

  function After(l: Lists, step: Step): Lists {
    match step
    case Arrives(e) =>
      if e.SyncUsers? && e.users.Some? then Lists(ById(e.users.value), true, l.held, ById(e.users.value))
      else if e.UserDelta? && e.delta != [] && !e.action.Unknown? then
        Lists(Changed(l.mailbox, e.action, e.delta), true, l.held, Changed(l.right, e.action, e.delta))
      else l
    case Drains => if l.dirty then l.(dirty := false, held := l.mailbox) else l
    case Fetches(users) => l.(held := ById(users), right := ById(users))
  }

  function RunOf(l: Lists, steps: seq<Step>): Lists {
    if steps == [] then l else After(RunOf(l, steps[..|steps| - 1]), steps[|steps| - 1])
  }

  lemma {:induction false} FoldedAlike(d: Desired, l: Lists, e: Event)
    requires d.users == Some(l.mailbox)
    ensures Fold(d, e).users == Some(After(l, Arrives(e)).mailbox)
    ensures After(l, Arrives(e)).dirty == (l.dirty || ChangesUsers(d, e)) && After(l, Arrives(e)).held == l.held
  {
    if e.UserDelta? && e.delta == [] {
      NoChange(d, e);
    }
  }

  // A consumer that drains and fetches in any order holds what RunOf says; only unknown changes make a
  // drain ask for a fetch.
  method FollowFetching(m: NodeMailbox, start: map<int, User>, ghost right: map<int, User>, steps: seq<Step>)
    returns (held: map<int, User>, asked: bool)
    requires m.Valid() && m.ready && m.desired.users.Some?
    modifies m
    ensures m.Valid() && m.ready
    ensures var l := RunOf(Lists(old(m.desired.users.value), old(m.dirtyUsers), start, right), steps);
            held == l.held && m.desired.users == Some(l.mailbox) && m.dirtyUsers == l.dirty
    ensures asked || m.unresolved > 0 <==> old(m.unresolved) > 0 || exists i :: 0 <= i < |steps| && IsUnknown(steps[i])
  {
    hide NodeMailbox.Valid, ById, Fold, Overwrite, ChangesUsers, Changed;
    ghost var l0 := Lists(m.desired.users.value, m.dirtyUsers, start, right);
    held, asked := start, false;
    for i := 0 to |steps|
      invariant m.Valid() && m.ready
      invariant held == RunOf(l0, steps[..i]).held && m.desired.users == Some(RunOf(l0, steps[..i]).mailbox)
      invariant m.dirtyUsers == RunOf(l0, steps[..i]).dirty
      invariant asked || m.unresolved > 0 <==> old(m.unresolved) > 0 || exists k :: 0 <= k < i && IsUnknown(steps[k])
    {
      assert steps[..i + 1][..i] == steps[..i];
      ghost var l := RunOf(l0, steps[..i]);
      match steps[i] {
        case Arrives(e) =>
          FoldedAlike(m.desired, l, e);
          var changed := m.Apply(e);
        case Drains =>
          var s := m.DrainIfReady();
          asked := asked || s.needsReconcile;
          if s.users.Some? {
            held := ById(s.users.value);
          }
        case Fetches(users) =>
          held := ById(users);
      }
    }
    assert steps[..|steps|] == steps;
  }

  predicate IsUnknown(step: Step) { step.Arrives? && UnknownChange(step.event) }

  /** One change makes two lists the same exactly if they were the same but for the changed users. */
  lemma {:induction false} ChangedAlikeIff(a: map<int, User>, b: map<int, User>, action: Action, delta: seq<User>)
    requires !action.Unknown?
    ensures Changed(a, action, delta) == Changed(b, action, delta) <==> a - Ids(delta) == b - Ids(delta)
  {
    ByIdKeys(delta);
    if action.Add? {
      assert Changed(a, action, delta) - Ids(delta) == a - Ids(delta);
      assert Changed(b, action, delta) - Ids(delta) == b - Ids(delta);
      assert Changed(a, action, delta) == (a - Ids(delta)) + ById(delta);
      assert Changed(b, action, delta) == (b - Ids(delta)) + ById(delta);
    }
  }

  /** Where the mailbox and the consumer parted: the mailbox's list at the last fetch, the fetched one, and
      the users that changes have named since. A full list brings them together again. */
  datatype Parting = Parting(mailbox: map<int, User>, fetched: map<int, User>, named: set<int>)

  function PartedAt(l: Lists, steps: seq<Step>): Parting {
    if steps == [] then Parting(l.mailbox, l.right, {})
    else
      var before := PartedAt(l, steps[..|steps| - 1]);
      match steps[|steps| - 1]
      case Arrives(e) =>
        if e.SyncUsers? && e.users.Some? then Parting(ById(e.users.value), ById(e.users.value), {})
        else if e.UserDelta? && !e.action.Unknown? then before.(named := before.named + Ids(e.delta))
        else before
      case Drains => before
      case Fetches(users) => Parting(RunOf(l, steps[..|steps| - 1]).mailbox, ById(users), {})
  }

  predicate Harmless(p: Parting) { p.mailbox - p.named == p.fetched - p.named }

  predicate SameUser(a: map<int, User>, b: map<int, User>, id: int) {
    (id in a <==> id in b) && (id in a ==> a[id] == b[id])
  }

  // Both lists are what they were at the parting, with the same changes made to the named users.
  ghost predicate Since(p: Parting, l: Lists) {
    forall id :: if id in p.named then SameUser(l.mailbox, l.right, id)
                 else SameUser(l.mailbox, p.mailbox, id) && SameUser(l.right, p.fetched, id)
  }

  lemma {:induction false} SinceParting(l: Lists, steps: seq<Step>)
    ensures Since(PartedAt(l, steps), RunOf(l, steps))
    decreases |steps|
  {
    if steps != [] {
      SinceParting(l, steps[..|steps| - 1]);
      var before, now := RunOf(l, steps[..|steps| - 1]), RunOf(l, steps);
      var p := PartedAt(l, steps[..|steps| - 1]);
      var step := steps[|steps| - 1];
      if step.Arrives? && step.event.UserDelta? && !step.event.action.Unknown? {
        SinceChange(p, before, step.event.action, step.event.delta);
      }
    }
  }

  lemma {:induction false} SinceChange(p: Parting, l: Lists, action: Action, delta: seq<User>)
    requires Since(p, l) && !action.Unknown?
    ensures Since(p.(named := p.named + Ids(delta)), After(l, Arrives(UserDelta(action, delta))))
  {
    ByIdKeys(delta);
  }

  lemma {:induction false} AlikeIffHarmless(l: Lists, steps: seq<Step>)
    ensures RunOf(l, steps).mailbox == RunOf(l, steps).right <==> Harmless(PartedAt(l, steps))
  {
    var s, p := RunOf(l, steps), PartedAt(l, steps);
    SinceParting(l, steps);
    if s.mailbox == s.right {
      forall id ensures SameUser(p.mailbox - p.named, p.fetched - p.named, id) {
        assert id in p.named || SameUser(s.mailbox, p.mailbox, id);
      }
      SameMaps(p.mailbox - p.named, p.fetched - p.named);
    }
    if Harmless(p) {
      forall id ensures SameUser(s.mailbox, s.right, id) {
        assert SameUser(p.mailbox - p.named, p.fetched - p.named, id);
        assert id in p.named || SameUser(s.mailbox, p.mailbox, id);
      }
      SameMaps(s.mailbox, s.right);
    }
  }

  lemma {:induction false} SameMaps(a: map<int, User>, b: map<int, User>)
    requires forall id :: SameUser(a, b, id)
    ensures a == b
  {
    forall id ensures (id in a <==> id in b) && (id in a ==> a[id] == b[id]) {
      assert SameUser(a, b, id);
    }
  }

  // The consumer still holds the list it fetched last.
  predicate HoldsFetch(l: Lists, steps: seq<Step>) {
    steps != [] &&
    match steps[|steps| - 1]
    case Fetches(_) => true
    case Drains => !RunOf(l, steps[..|steps| - 1]).dirty && HoldsFetch(l, steps[..|steps| - 1])
    case Arrives(_) => HoldsFetch(l, steps[..|steps| - 1])
  }

  lemma {:induction false} Held(l: Lists, steps: seq<Step>)
    requires l.dirty || l.held == l.mailbox
    ensures var s := RunOf(l, steps);
            && (HoldsFetch(l, steps) ==> s.dirty || s.held == s.right)
            && (!HoldsFetch(l, steps) ==> s.dirty || s.held == s.mailbox)
    decreases |steps|
  {
    if steps != [] {
      Held(l, steps[..|steps| - 1]);
    }
  }

  /** After a drain the consumer's list is right exactly if it still is the fetched one, or the mailbox's
      list and the fetched one differed, when the latter came, only in users that changes have named since. */
  lemma {:induction false} RightAfterDrainIff(l: Lists, steps: seq<Step>)
    requires l.dirty || l.held == l.mailbox
    ensures var s := RunOf(l, steps + [Drains]);
            s.held == s.right <==> HoldsFetch(l, steps + [Drains]) || Harmless(PartedAt(l, steps))
  {
    var all := steps + [Drains];
    assert all[..|all| - 1] == steps;
    Held(l, all);
    AlikeIffHarmless(l, steps);
  }

  /** A change before the baseline makes the consumer fetch the panel's list, but the mailbox keeps folding
      into the baseline: the next change leaves the consumer with the right list exactly if baseline and
      fetched list differ in no other user. */
  method ChangeBeforeBaseline(
    kind: Action, early: seq<User>, baseline: seq<User>, fetched: seq<User>, action: Action, delta: seq<User>)
    returns (asked: bool, held: map<int, User>, again: bool)
    requires early != [] && delta != [] && !action.Unknown?
    ensures asked && !again
    ensures held == Changed(ById(fetched), action, delta) <==>
            ById(baseline) - Ids(delta) == ById(fetched) - Ids(delta)
  {
    hide NodeMailbox.Valid, ById, Changed;
    var m := new NodeMailbox();
    var _ := m.Apply(UserDelta(kind, early));
    m.SeedBaseline(Some(baseline), None);
    m.MarkReady();
    var first := m.DrainIfReady();
    asked := first.needsReconcile;
    ghost var l := Lists(ById(baseline), false, ById(baseline), ById(baseline));
    OneChangeAfterFetch(l, fetched, action, delta);
    held, again := FollowFetching(m, ById(baseline), ById(baseline),
                                  [Fetches(fetched), Arrives(UserDelta(action, delta)), Drains]);
    ChangedAlikeIff(ById(baseline), ById(fetched), action, delta);
  }

  lemma {:induction false} OneChangeAfterFetch(l: Lists, fetched: seq<User>, action: Action, delta: seq<User>)
    requires delta != [] && !action.Unknown?
    ensures var s := RunOf(l, [Fetches(fetched), Arrives(UserDelta(action, delta)), Drains]);
            s.held == Changed(l.mailbox, action, delta) && s.right == Changed(ById(fetched), action, delta)
  {
    var steps := [Fetches(fetched), Arrives(UserDelta(action, delta)), Drains];
    assert steps[..2] == [Fetches(fetched), Arrives(UserDelta(action, delta))] && steps[..2][..1] == [Fetches(fetched)];
    assert steps[..2][..1][..0] == [];
    assert RunOf(l, steps[..2][..1]) == After(RunOf(l, []), Fetches(fetched));
  }
}
