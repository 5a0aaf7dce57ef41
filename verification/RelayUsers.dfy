/** Relay entry nodes: every user has one identity a route. Identities tell users and routes apart, and the
    user list is replaced under traffic without a moment in which an identity has no route of its own. */
module RelayUsers {
  import opened Strings

  // ----- Identities -----

  datatype User = User(id: int, uuid: string)

  // One route of a relay entry and the outbound it leads to.
  datatype Route = Route(id: int, tag: string)

  predicate IsHex(c: char) { '0' <= c <= '9' || 'a' <= c <= 'f' || 'A' <= c <= 'F' }

  const HEX := "0123456789abcdefABCDEF"

  lemma {:induction false} HexIs(c: char)
    ensures IsHex(c) <==> c in HEX
  {
    if '0' <= c <= '9' {
      assert HEX[c as int - '0' as int] == c;
    } else if 'a' <= c <= 'f' {
      assert HEX[c as int - 'a' as int + 10] == c;
    } else if 'A' <= c <= 'F' {
      assert HEX[c as int - 'A' as int + 16] == c;
    }
  }

  predicate IsUuid(s: string) {
    && |s| == 36
    && forall i :: 0 <= i < 36 ==> if i in {8, 13, 18, 23} then s[i] == '-' else IsHex(s[i])
  }

  function HexDigit(n: int): char
    requires 0 <= n < 16
  {
    if n < 10 then '0' + n as char else 'a' + (n - 10) as char
  }

  function Hex4(n: int): (s: string)
    requires 0 <= n < 0x1_0000
    ensures |s| == 4
  {
    [HexDigit(n / 0x1000), HexDigit(n / 0x100 % 0x10), HexDigit(n / 0x10 % 0x10), HexDigit(n % 0x10)]
  }

  // The user's identifier with four digits replaced by the route's number.
  function Credential(u: User, route: int): string
    requires 0 <= route < 0x1_0000
  {
    if |u.uuid| != 36 then "" else u.uuid[..14] + Hex4(route) + u.uuid[18..]
  }

  function Identity(u: User): string { Lower(Credential(u, 0)) }

  predicate UserValid(u: User) { IsUuid(u.uuid) && u.id > 0 }

  // No two users share a number or, but for letter case and the route's digits, an identifier.
  predicate Distinct(users: seq<User>) {
    forall i, j :: 0 <= i < j < |users| ==> users[i].id != users[j].id && Identity(users[i]) != Identity(users[j])
  }

  predicate UsersValid(users: seq<User>) { (forall u <- users :: UserValid(u)) && Distinct(users) }

  method ValidateRelayUsers(users: seq<User>) returns (ok: bool)
    ensures ok <==> UsersValid(users)
  {
    var seen: set<string> := {};
    var ids: set<int> := {};
    for i := 0 to |users|
      invariant UsersValid(users[..i])
      invariant seen == set k | 0 <= k < i :: Identity(users[k])
      invariant ids == set k | 0 <= k < i :: users[k].id
    {
      var u := users[i];
      assert users[..i + 1] == users[..i] + [u];
      assert u in users;
      if !UserValid(u) {
        return false;
      }
      if u.id in ids {
        return false;
      }
      ids := ids + {u.id};
      var identity := Identity(u);
      if identity in seen {
        return false;
      }
      seen := seen + {identity};
    }
    assert users[..|users|] == users;
    ok := true;
  }

  // Four hexadecimal digits, the highest first.
  lemma {:induction false} HexDigits(n: int)
    requires 0 <= n < 0x1_0000
    ensures var digits := "0123456789abcdef";
            Hex4(n) == [digits[n / 0x1000], digits[n / 0x100 % 0x10], digits[n / 0x10 % 0x10], digits[n % 0x10]]
  {
    DigitIs(n / 0x1000);
    DigitIs(n / 0x100 % 0x10);
    DigitIs(n / 0x10 % 0x10);
    DigitIs(n % 0x10);
  }

  lemma {:induction false} DigitIs(n: int)
    requires 0 <= n < 16
    ensures HexDigit(n) == "0123456789abcdef"[n]
  {
  }

  lemma {:induction false} DigitsTellApart(a: int, b: int)
    requires 0 <= a < 16 && 0 <= b < 16
    ensures LowerChar(HexDigit(a)) == LowerChar(HexDigit(b)) ==> a == b
  {
  }

  lemma {:induction false} FromDigits(a: int)
    requires 0 <= a < 0x1_0000
    ensures a == a / 0x1000 * 0x1000 + a / 0x100 % 0x10 * 0x100 + a / 0x10 % 0x10 * 0x10 + a % 0x10
  {
    assert a / 0x100 == a / 0x1000 * 0x10 + a / 0x100 % 0x10;
    assert a / 0x10 == a / 0x100 * 0x10 + a / 0x10 % 0x10;
  }

  lemma {:induction false} HexTellsApart(a: int, b: int)
    requires 0 <= a < 0x1_0000 && 0 <= b < 0x1_0000
    ensures Lower(Hex4(a)) == Lower(Hex4(b)) <==> a == b
  {
    hide HexDigit, LowerChar, Lower;
    if Lower(Hex4(a)) == Lower(Hex4(b)) {
      assert Lower(Hex4(a))[0] == Lower(Hex4(b))[0] && Lower(Hex4(a))[1] == Lower(Hex4(b))[1];
      assert Lower(Hex4(a))[2] == Lower(Hex4(b))[2] && Lower(Hex4(a))[3] == Lower(Hex4(b))[3];
      DigitsTellApart(a / 0x1000, b / 0x1000);
      DigitsTellApart(a / 0x100 % 0x10, b / 0x100 % 0x10);
      DigitsTellApart(a / 0x10 % 0x10, b / 0x10 % 0x10);
      DigitsTellApart(a % 0x10, b % 0x10);
      FromDigits(a);
      FromDigits(b);
    }
  }

  lemma {:induction false} LowerParts(a: string, b: string)
    requires |a| == |b| && Lower(a) == Lower(b)
    ensures forall i, j :: 0 <= i <= j <= |a| ==> Lower(a[i..j]) == Lower(b[i..j])
  {
  }

  /** Two credentials of valid users, compared with or without letter case, are the same only for the same
      user and the same route. */
  lemma {:induction false} CredentialsTellApart(users: seq<User>, i: nat, j: nat, r: int, s: int)
    requires UsersValid(users) && i < |users| && j < |users|
    requires 0 <= r < 0x1_0000 && 0 <= s < 0x1_0000
    requires Lower(Credential(users[i], r)) == Lower(Credential(users[j], s))
    ensures i == j && r == s
  {
    var u, v := users[i], users[j];
    assert u in users && v in users;
    PartsTellApart(u, v, r, s);
    assert i < j ==> Identity(u) != Identity(v);
    assert j < i ==> Identity(u) != Identity(v);
  }

  lemma {:induction false} PartsTellApart(u: User, v: User, r: int, s: int)
    requires |u.uuid| == 36 && |v.uuid| == 36 && 0 <= r < 0x1_0000 && 0 <= s < 0x1_0000
    requires Lower(Credential(u, r)) == Lower(Credential(v, s))
    ensures r == s && Identity(u) == Identity(v)
  {
    hide Hex4;
    var a, b := Credential(u, r), Credential(v, s);
    LowerParts(a, b);
    assert Lower(a[14..18]) == Lower(b[14..18]) && a[14..18] == Hex4(r) && b[14..18] == Hex4(s);
    HexTellsApart(r, s);
    var c, d := Credential(u, 0), Credential(v, 0);
    forall k | 0 <= k < 36 ensures Lower(c)[k] == Lower(d)[k] {
      assert Lower(a)[k] == Lower(b)[k];
    }
  }

  // ----- Names, rules and what each part of the kernel admits -----

  /** The name under which an identity is routed and counted: number, route and a digest of the
      identifier, of which no more is known than that it depends on nothing else. */
  datatype Name = Name(user: int, route: int, digest: nat)

  type Digest = string -> nat

  function NameOf(d: Digest, u: User, route: int): Name { Name(u.id, route, d(u.uuid)) }

  function NamesOn(d: Digest, users: seq<User>, route: int): set<Name> { set u | u in users :: NameOf(d, u, route) }

  function Names(d: Digest, routes: seq<Route>, users: seq<User>): set<Name> {
    set r, u | r in routes && u in users :: NameOf(d, u, r.id)
  }

  datatype Rule = Rule(names: set<Name>, outbound: string)

  // One rule a route, in order; without users there are none.
  function Rules(d: Digest, routes: seq<Route>, users: seq<User>): (rules: seq<Rule>)
    ensures |rules| == if users == [] then 0 else |routes|
    ensures forall i :: 0 <= i < |rules| ==> rules[i] == Rule(NamesOn(d, users, routes[i].id), routes[i].tag)
  {
    if users == [] then [] else seq(|routes|, i requires 0 <= i < |routes| => Rule(NamesOn(d, users, routes[i].id), routes[i].tag))
  }

  datatype Destination = To(outbound: string) | Default

  // The first rule that lists the name decides; a name that none lists goes to the default outbound.
  function Chosen(rules: seq<Rule>, name: Name): Destination {
    if rules == [] then Default
    else if name in rules[0].names then To(rules[0].outbound)
    else Chosen(rules[1..], name)
  }

  function OwnRoute(routes: seq<Route>, id: int): Destination {
    if routes == [] then Default else if routes[0].id == id then To(routes[0].tag) else OwnRoute(routes[1..], id)
  }

  // Every one of the names is sent to the outbound of its own route, and none to the default.
  ghost predicate OwnRouted(rules: seq<Rule>, routes: seq<Route>, names: set<Name>) {
    forall n <- names :: Chosen(rules, n) == OwnRoute(routes, n.route) != Default
  }

  lemma {:induction false} RuleChoosesRoute(
    d: Digest, routes: seq<Route>, rules: seq<Rule>, users: seq<User>, name: Name)
    requires |rules| == |routes|
    requires forall i :: 0 <= i < |rules| ==> rules[i] == Rule(NamesOn(d, users, routes[i].id), routes[i].tag)
    requires name in Names(d, routes, users)
    ensures Chosen(rules, name) == OwnRoute(routes, name.route) != Default
    decreases |routes|
  {
    var r, u :| r in routes && u in users && name == NameOf(d, u, r.id);
    if routes[0].id == name.route {
      assert NameOf(d, u, routes[0].id) in NamesOn(d, users, routes[0].id);
    } else {
      assert r in routes[1..];
      assert NameOf(d, u, r.id) in Names(d, routes[1..], users);
      RuleChoosesRoute(d, routes[1..], rules[1..], users, name);
    }
  }

  // Rules built for some users route all identities of theirs.
  lemma {:induction false} RulesRoute(d: Digest, routes: seq<Route>, users: seq<User>, names: set<Name>)
    requires names <= Names(d, routes, users)
    ensures OwnRouted(Rules(d, routes, users), routes, names)
  {
    forall n | n in names ensures Chosen(Rules(d, routes, users), n) == OwnRoute(routes, n.route) != Default {
      var r, u :| r in routes && u in users && n == NameOf(d, u, r.id);
      RuleChoosesRoute(d, routes, Rules(d, routes, users), users, n);
    }
  }

  // A name has a route exactly when it is an identity of one of the users.
  lemma {:induction false} RoutedIff(d: Digest, routes: seq<Route>, users: seq<User>, n: Name)
    ensures Chosen(Rules(d, routes, users), n) != Default <==> n in Names(d, routes, users)
  {
    if n in Names(d, routes, users) {
      RulesRoute(d, routes, users, {n});
    } else {
      var rules := Rules(d, routes, users);
      forall i | 0 <= i < |rules| ensures n in rules[i].names ==> n in Names(d, routes, users) {
        assert routes[i] in routes;
      }
      NoRuleLists(rules, n);
    }
  }

  lemma {:induction false} NoRuleLists(rules: seq<Rule>, n: Name)
    requires forall i :: 0 <= i < |rules| ==> n !in rules[i].names
    ensures Chosen(rules, n) == Default
  {
    if rules != [] {
      NoRuleLists(rules[1..], n);
    }
  }

  // ----- The update -----

  // The routing rules, the names that inbounds authenticate, the names the tracker lets through.
  datatype Core = Core(rules: seq<Rule>, authenticated: set<Name>, admitted: set<Name>, running: bool)

  function CoreFor(d: Digest, routes: seq<Route>, users: seq<User>): Core {
    Core(Rules(d, routes, users), Names(d, routes, users), Names(d, routes, users), true)
  }

  ghost predicate AuthenticatedRouted(c: Core, routes: seq<Route>) {
    c.running ==> OwnRouted(c.rules, routes, c.authenticated)
  }

  ghost predicate AdmittedRouted(c: Core, routes: seq<Route>) {
    c.running ==> OwnRouted(c.rules, routes, c.admitted)
  }

  // What one call does: it changes the rules, what inbounds authenticate, what the tracker admits, or stops.
  predicate CoreStep(c: Core, next: Core) {
    || next == c.(rules := next.rules)
    || next == c.(authenticated := next.authenticated)
    || next == c.(admitted := next.admitted)
    || next == c.(running := false)
  }

  // The states of an update, call by call, the present one last.
  predicate Stepwise(trace: seq<Core>, c: Core) {
    && trace != [] && trace[|trace| - 1] == c
    && forall i :: 0 <= i < |trace| - 1 ==> CoreStep(trace[i], trace[i + 1])
  }

  lemma {:induction false} LastIsPresent(trace: seq<Core>, c: Core)
    requires Stepwise(trace, c)
    ensures trace != [] && trace[|trace| - 1] == c
  {
  }

  class SingBox {
    const digest: Digest
    const routes: seq<Route>
    var users: seq<User>
    var core: Core
    // Every state since the update began.
    var trace: seq<Core>
    // How many updates of the router or the inbounds have failed.
    ghost var faults: nat

    constructor (digest: Digest, routes: seq<Route>, users: seq<User>)
      ensures this.digest == digest && this.routes == routes && this.users == users
      ensures core == CoreFor(digest, routes, users) && trace == [core]
    {
      this.digest, this.routes, this.users, faults := digest, routes, users, 0;
      core, trace := CoreFor(digest, routes, users), [CoreFor(digest, routes, users)];
    }

    // The router builds the new rules first and swaps them in only when that worked.
    method UpdateRules(rules: seq<Rule>) returns (ok: bool)
      modifies `core, `trace, `faults
      ensures faults == old(faults) + if ok then 0 else 1
      ensures core == (if ok then old(core).(rules := rules) else old(core)) && trace == old(trace) + [core]
      ensures Stepwise(old(trace), old(core)) ==> Stepwise(trace, core)
    {
      ok := *;
      if ok {
        core := core.(rules := rules);
      } else {
        faults := faults + 1;
      }
      trace := trace + [core];
    }

    // A failing update may leave some inbounds, or some users, with the new list.
    method UpdateInboundUsers(names: set<Name>) returns (ok: bool)
      modifies `core, `trace, `faults
      ensures faults == old(faults) + if ok then 0 else 1
      ensures core == old(core).(authenticated := core.authenticated) && trace == old(trace) + [core]
      ensures Stepwise(old(trace), old(core)) ==> Stepwise(trace, core)
      ensures if ok then core.authenticated == names else core.authenticated <= old(core.authenticated) + names
    {
      ok := *;
      if ok {
        core := core.(authenticated := names);
      } else {
        var mixed: set<Name> :| mixed <= core.authenticated + names;
        core := core.(authenticated := mixed);
        faults := faults + 1;
      }
      trace := trace + [core];
    }

    method SetNodeUsers(list: seq<User>)
      modifies `core, `trace
      ensures core == old(core).(admitted := Names(digest, routes, list)) && trace == old(trace) + [core]
      ensures Stepwise(old(trace), old(core)) ==> Stepwise(trace, core)
    {
      core := core.(admitted := Names(digest, routes, list));
      trace := trace + [core];
    }

    method Stop()
      modifies `core, `trace
      ensures core == old(core).(running := false) && trace == old(trace) + [core]
      ensures Stepwise(old(trace), old(core)) ==> Stepwise(trace, core)
    {
      core := core.(running := false);
      trace := trace + [core];
    }

    // The users of both lists, without those whose name is there already.
    method Combine(next: seq<User>) returns (combined: seq<User>)
      ensures users <= combined && forall u <- combined :: u in users || u in next
      ensures Names(digest, routes, combined) == Names(digest, routes, users) + Names(digest, routes, next)
    {
      combined := users;
      var seen := NamesOn(digest, users, 0);
      for i := 0 to |next|
        invariant seen == NamesOn(digest, users, 0)
        invariant users <= combined && forall u <- combined :: u in users || u in next
        invariant forall u <- next[..i] :: NameOf(digest, u, 0) in NamesOn(digest, combined, 0)
      {
        if NameOf(digest, next[i], 0) !in seen {
          combined := combined + [next[i]];
        }
      }
      assert next[..|next|] == next;
      SameNames(digest, routes, users, next, combined);
    }

    ghost predicate Old(c: Core)
      reads this
    {
      c == CoreFor(digest, routes, users)
    }

    /** Prepares rules for the old and the new identities, switches authentication, withdraws the old
        identities' admission, and only then drops their rules. What fails is undone; what cannot be
        undone stops the core. Until a rollback starts, every identity that is authenticated or admitted
        has its own route; in a rollback that restores the inbounds, every authenticated one has; and in
        one that puts the old rules back, every admitted one has exactly if no new identity is new. */
    method ReloadRelayUsers(next: seq<User>)
      returns (ok: bool, ghost forward: nat, ghost restored: bool, ghost back: bool)
      requires Old(core)
      modifies `core, `trace, `faults
      ensures ok ==> faults == old(faults) && core == CoreFor(digest, routes, next)
      ensures !ok ==> faults > old(faults) && if faults == old(faults) + 1 then Old(core) else !core.running
      ensures Stepwise(trace, core) && trace[0] == old(core) && 0 < forward <= |trace|
      ensures AllAuthenticatedRouted(trace[..forward], routes) && AllAdmittedRouted(trace[..forward], routes)
      ensures ok ==> forward == |trace|
      ensures forward == |trace| ==> restored && !back
      ensures restored ==> AllAuthenticatedRouted(trace, routes)
      ensures !restored ==> faults > old(faults) + 1
      ensures forward < |trace| ==> RolledBack(trace, forward, back)
      ensures AllAdmittedRouted(trace, routes) <==>
                !back || Names(digest, routes, next) <= Names(digest, routes, users)
    {
      hide OwnRouted, Rules, Names, AllAuthenticatedRouted, AllAdmittedRouted, Stepwise;
      Begin();
      forward, restored, back := 1, true, false;
      var built: bool := *;
      if !built {
        faults := faults + 1;
        return false, forward, restored, back;
      }
      var combined := Combine(next);
      ok := Prepare(combined);
      forward := |trace|;
      if !ok {
        return;
      }
      ok := SwitchInbounds(combined, next);
      forward := |trace|;
      if !ok {
        restored, back := Rollback(combined, forward);
        return false, forward, restored, back;
      }
      ok := Complete(combined, next);
      forward := |trace|;
      if !ok {
        restored, back := Rollback(combined, forward);
      }
    }

    // A rollback restores inbounds, rules and the tracker in this order; back says whether the router took
    // the old rules.
    ghost predicate RolledBack(trace: seq<Core>, forward: nat, back: bool)
      reads this`users
    {
      && 0 < forward && forward + 3 <= |trace|
      && trace[forward] == trace[forward - 1].(authenticated := trace[forward].authenticated)
      && trace[forward + 1] == trace[forward].(
           rules := if back then Rules(digest, routes, users) else trace[forward].rules)
      && trace[forward + 2] == trace[forward + 1].(admitted := Names(digest, routes, users))
    }

    method Begin()
      requires Old(core)
      modifies `trace
      ensures Stepwise(trace, core) && trace == [core]
      ensures AllAuthenticatedRouted(trace, routes) && AllAdmittedRouted(trace, routes) && trace[..1] == trace
    {
      trace := [core];
      RulesRoute(digest, routes, users, Names(digest, routes, users));
    }

    // Routes and admission for both lists.
    method Prepare(combined: seq<User>) returns (ok: bool)
      requires Old(core) && Names(digest, routes, users) <= Names(digest, routes, combined)
      requires Stepwise(trace, core) && AllAuthenticatedRouted(trace, routes) && AllAdmittedRouted(trace, routes)
      modifies `core, `trace, `faults
      ensures Stepwise(trace, core) && AllAuthenticatedRouted(trace, routes) && AllAdmittedRouted(trace, routes)
      ensures faults == old(faults) + if ok then 0 else 1
      ensures old(trace) <= trace && trace[..|trace|] == trace
      ensures core == if ok then Core(Rules(digest, routes, combined), Names(digest, routes, users),
                                      Names(digest, routes, combined), true) else old(core)
    {
      hide OwnRouted, Rules, Names, Stepwise;
      LastIsPresent(trace, core);
      RulesRoute(digest, routes, combined, Names(digest, routes, users));
      ok := UpdateRules(Rules(digest, routes, combined));
      if ok {
        RulesRoute(digest, routes, combined, Names(digest, routes, combined));
        SetNodeUsers(combined);
      }
    }

    method SwitchInbounds(combined: seq<User>, next: seq<User>) returns (ok: bool)
      requires core.rules == Rules(digest, routes, combined) && core.admitted == Names(digest, routes, combined)
      requires core.authenticated + Names(digest, routes, next) <= Names(digest, routes, combined)
      requires Stepwise(trace, core) && AllAuthenticatedRouted(trace, routes) && AllAdmittedRouted(trace, routes)
      modifies `core, `trace, `faults
      ensures Stepwise(trace, core) && AllAuthenticatedRouted(trace, routes) && AllAdmittedRouted(trace, routes)
      ensures faults == old(faults) + if ok then 0 else 1
      ensures old(trace) <= trace && trace[..|trace|] == trace
      ensures core == old(core).(authenticated := core.authenticated)
      ensures ok ==> core.authenticated == Names(digest, routes, next)
    {
      hide OwnRouted, Rules, Names, Stepwise;
      ok := UpdateInboundUsers(Names(digest, routes, next));
      RulesRoute(digest, routes, combined, core.authenticated);
      RulesRoute(digest, routes, combined, core.admitted);
    }

    // The old identities lose admission before they lose their rules.
    method Complete(combined: seq<User>, next: seq<User>) returns (ok: bool)
      requires core.rules == Rules(digest, routes, combined) && core.running
      requires core.authenticated == Names(digest, routes, next) <= Names(digest, routes, combined)
      requires Stepwise(trace, core) && AllAuthenticatedRouted(trace, routes) && AllAdmittedRouted(trace, routes)
      modifies `core, `trace, `faults
      ensures Stepwise(trace, core) && AllAuthenticatedRouted(trace, routes) && AllAdmittedRouted(trace, routes)
      ensures faults == old(faults) + if ok then 0 else 1
      ensures old(trace) <= trace && trace[..|trace|] == trace
      ensures core == if ok then CoreFor(digest, routes, next)
                      else old(core).(admitted := Names(digest, routes, next))
    {
      hide OwnRouted, Rules, Names, Stepwise;
      RulesRoute(digest, routes, combined, Names(digest, routes, next));
      RulesRoute(digest, routes, next, Names(digest, routes, next));
      SetNodeUsers(next);
      ok := UpdateRules(Rules(digest, routes, next));
    }

    method Rollback(combined: seq<User>, ghost forward: nat) returns (restored: bool, back: bool)
      requires core.running && core.rules == Rules(digest, routes, combined)
      requires Names(digest, routes, combined) >= Names(digest, routes, users) + core.admitted
      requires forward == |trace| && Stepwise(trace, core)
      requires AllAuthenticatedRouted(trace, routes) && AllAdmittedRouted(trace, routes)
      modifies `core, `trace, `faults
      ensures faults >= old(faults) && if faults == old(faults) then Old(core) else !core.running
      ensures Stepwise(trace, core) && |trace| > forward && trace[..forward] == old(trace)
      ensures restored ==> AllAuthenticatedRouted(trace, routes)
      ensures !restored ==> faults > old(faults)
      ensures RolledBack(trace, forward, back)
      ensures AllAdmittedRouted(trace, routes) <==> !back || old(core.admitted) <= Names(digest, routes, users)
    {
      hide OwnRouted, Rules, Names, Stepwise, AllAuthenticatedRouted, AllAdmittedRouted;
      LastIsPresent(trace, core);
      var names := Names(digest, routes, users);
      ghost var admitted, t0 := core.admitted, trace;
      RulesRoute(digest, routes, combined, names);
      RulesRoute(digest, routes, combined, admitted);
      RulesRoute(digest, routes, users, names);
      RoutedWithin(digest, routes, users, admitted);
      restored := UpdateInboundUsers(names);
      OneMoreRouted(t0, core, routes);
      ghost var t1 := trace;
      back := UpdateRules(Rules(digest, routes, users));
      OneMoreRouted(t1, core, routes);
      ghost var t2 := trace;
      SetNodeUsers(users);
      OneMoreRouted(t2, core, routes);
      if !restored || !back {
        ghost var t3 := trace;
        Stop();
        OneMoreRouted(t3, core, routes);
      }
    }
  }

  ghost predicate AllAuthenticatedRouted(trace: seq<Core>, routes: seq<Route>) {
    forall c <- trace :: AuthenticatedRouted(c, routes)
  }

  ghost predicate AllAdmittedRouted(trace: seq<Core>, routes: seq<Route>) {
    forall c <- trace :: AdmittedRouted(c, routes)
  }

  lemma {:induction false} OneMoreRouted(trace: seq<Core>, c: Core, routes: seq<Route>)
    ensures AllAuthenticatedRouted(trace + [c], routes) <==>
            AllAuthenticatedRouted(trace, routes) && AuthenticatedRouted(c, routes)
    ensures AllAdmittedRouted(trace + [c], routes) <==> AllAdmittedRouted(trace, routes) && AdmittedRouted(c, routes)
  {
    assert c in trace + [c];
    assert forall x <- trace :: x in trace + [c];
  }

  // Rules built for some users route all of the given identities exactly if they are theirs.
  lemma {:induction false} RoutedWithin(d: Digest, routes: seq<Route>, users: seq<User>, names: set<Name>)
    ensures OwnRouted(Rules(d, routes, users), routes, names) <==> names <= Names(d, routes, users)
  {
    if names <= Names(d, routes, users) {
      RulesRoute(d, routes, users, names);
    } else {
      var n :| n in names && n !in Names(d, routes, users);
      RoutedIff(d, routes, users, n);
    }
  }

  lemma {:induction false} SameNames(
    d: Digest, routes: seq<Route>, users: seq<User>, next: seq<User>, combined: seq<User>)
    requires forall u <- combined :: u in users || u in next
    requires forall u <- users :: u in combined
    requires forall u <- next :: NameOf(d, u, 0) in NamesOn(d, combined, 0)
    ensures Names(d, routes, combined) == Names(d, routes, users) + Names(d, routes, next)
  {
  }
}
