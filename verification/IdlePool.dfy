/** The AnyTLS client's pool of idle sessions, kept in the skip list under key 2^64 - 1 - seq, so that
    walking the list visits the newest session first. */
module IdlePool {
  import opened SkipLists

  const MAX_SEQ: int := 0xFFFF_FFFF_FFFF_FFFF

  class Session {
    const number: int
    var idleSince: int
  }

  function KeyOf(s: Session): int { MAX_SEQ - s.number }

  // ----- What a cleanup keeps -----

  // Whether each session, newest first, survives a cleanup that has already kept `active` newer ones.
  function Sweep(idleSince: seq<int>, expTime: int, active: int, minIdle: int): (kept: seq<bool>)
    ensures |kept| == |idleSince|
  {
    if idleSince == [] then []
    else if idleSince[0] >= expTime || active < minIdle then
      [true] + Sweep(idleSince[1..], expTime, active + 1, minIdle)
    else
      [false] + Sweep(idleSince[1..], expTime, active, minIdle)
  }

  function Count(kept: seq<bool>): nat {
    if kept == [] then 0 else (if kept[0] then 1 else 0) + Count(kept[1..])
  }

  // A session is closed exactly if it has expired and enough newer ones are kept.
  lemma {:induction false} SweepClosesOnlyExpired(idleSince: seq<int>, expTime: int, active: int, minIdle: int, i: nat)
    requires i < |idleSince|
    ensures !Sweep(idleSince, expTime, active, minIdle)[i] <==>
            idleSince[i] < expTime && active + Count(Sweep(idleSince, expTime, active, minIdle)[..i]) >= minIdle
  {
    var kept := Sweep(idleSince, expTime, active, minIdle);
    if i > 0 {
      var active' := if kept[0] then active + 1 else active;
      var rest := Sweep(idleSince[1..], expTime, active', minIdle);
      SweepClosesOnlyExpired(idleSince[1..], expTime, active', minIdle, i - 1);
      assert kept == [kept[0]] + rest;
      assert kept[..i] == [kept[0]] + rest[..i - 1];
      assert kept[..i][1..] == rest[..i - 1];
    }
  }

  lemma {:induction false} SweepKeepsMinimum(idleSince: seq<int>, expTime: int, active: int, minIdle: int)
    ensures Count(Sweep(idleSince, expTime, active, minIdle)) <= |idleSince|
    ensures Count(Sweep(idleSince, expTime, active, minIdle)) == |idleSince|
            || active + Count(Sweep(idleSince, expTime, active, minIdle)) >= minIdle
  {
    if idleSince != [] {
      var kept := Sweep(idleSince, expTime, active, minIdle);
      SweepKeepsMinimum(idleSince[1..], expTime, if kept[0] then active + 1 else active, minIdle);
    }
  }

  class Client {
    const idle: SkipList<Session?>
    const minIdleSession: int

    constructor (minIdleSession: int)
      ensures Valid() && idle.Contents == map[] && fresh(idle) && this.minIdleSession == minIdleSession
    {
      idle := new SkipList();
      this.minIdleSession := minIdleSession;
    }

    ghost predicate Valid()
      reads this, idle, idle.chain
    {
      idle.Valid() && forall key <- idle.Contents :: idle.Contents[key] != null && KeyOf(idle.Contents[key]) == key
    }

    method GetIdleSession() returns (session: Session?)
      requires Valid()
      modifies idle, idle.chain
      ensures Valid()
      ensures session == null <==> old(idle.Contents) == map[]
      ensures session == null ==> idle.Contents == map[]
      ensures session != null ==>
                && KeyOf(session) in old(idle.Contents) && old(idle.Contents)[KeyOf(session)] == session
                && (forall key <- old(idle.Contents) :: old(idle.Contents)[key].number <= session.number)
                && idle.Contents == old(idle.Contents) - {KeyOf(session)}
    {
      idle.FirstIsLeast();
      var it := idle.First();
      if it == null {
        return null;
      }
      session := it.value;
      var found := idle.Remove(it.key);
    }

    // The die hook's last step: the session goes back to the pool.
    method PutIdle(session: Session, now: int, draw: nat)
      requires Valid() && idle.len < 0x40_0000_0000
      modifies idle, idle.chain, session
      ensures Valid()
      ensures idle.Contents == old(idle.Contents)[KeyOf(session) := session] && session.idleSince == now
    {
      session.idleSince := now;
      idle.Insert(KeyOf(session), session, draw);
    }

    // The idle sessions, newest first.
    ghost function Order(): (order: seq<Session?>)
      requires Valid()
      reads this, idle, idle.chain
      ensures |order| == |idle.chain| - 1
    {
      idle.values[1..]
    }

    lemma OrderIsNewestFirst()
      requires Valid()
      ensures var order := Order();
              && (forall i :: 0 <= i < |order| ==>
                    && order[i] != null && KeyOf(order[i]) == idle.chain[i + 1].key
                    && KeyOf(order[i]) in idle.Contents && idle.Contents[KeyOf(order[i])] == order[i])
              && (forall i, j :: 0 <= i < j < |order| ==> order[i].number > order[j].number)
    {
    }

    // Which sessions a cleanup keeps is Sweep of their idle times. The others leave the pool and are
    // returned for closing; an expired one that is kept starts a new idle period.
    method IdleCleanupExpTime(expTime: int, now: int)
      returns (closing: seq<Session>, ghost order: seq<Session>, ghost times: seq<int>, ghost kept: seq<bool>)
      requires Valid()
      modifies idle, idle.chain, idle.Contents.Values
      ensures Valid()
      ensures order == old(Order()) && |times| == |order|
      ensures forall i :: 0 <= i < |order| ==> times[i] == old(order[i].idleSince)
      ensures kept == Sweep(times, expTime, 0, minIdleSession) && closing == Closed(order, kept)
      ensures Order() == Survivors(order, kept) && SubMap(idle.Contents, old(idle.Contents))
      ensures IdleTimes(order, times, kept, expTime, now)
    {
      hide Closed, Survivors, SubMap, Decided;
      OrderIsNewestFirst();
      ghost var all := Order();
      order := seq(|all|, i requires 0 <= i < |all| && all[i] != null => all[i]);
      times := seq(|order|, i requires 0 <= i < |order| reads order => order[i].idleSince);
      var it := idle.First();
      NothingDecided(order, times, expTime);
      NobodyLeft(order);
      closing, kept := SweepFrom(it, expTime, now, order, times);
    }

    // The loop of the cleanup.
    method SweepFrom(first: Node?<Session?>, expTime: int, now: int, ghost order: seq<Session>, ghost times: seq<int>)
      returns (closing: seq<Session>, ghost kept: seq<bool>)
      requires |times| == |order|
      requires Walked(order, [], first) && Decided(order, times, [], [], 0, expTime)
      requires IdleTimes(order, times, [], expTime, now)
      requires forall i, j :: 0 <= i < j < |order| ==> order[i] != order[j]
      modifies idle, idle.chain, order
      ensures Valid()
      ensures kept == Sweep(times, expTime, 0, minIdleSession) && closing == Closed(order, kept)
      ensures Order() == Survivors(order, kept) && SubMap(idle.Contents, old(idle.Contents))
      ensures IdleTimes(order, times, kept, expTime, now)
    {
      hide Decided, Walked, IdleTimes, Valid;
      kept, closing := [], [];
      var activeCount := 0;
      var it := first;
      while it != null
        invariant Decided(order, times, kept, closing, activeCount, expTime)
        invariant Walked(order, kept, it)
        invariant IdleTimes(order, times, kept, expTime, now)
        invariant SubMap(idle.Contents, old(idle.Contents))
        invariant forall k :: 0 <= k < |idle.chain| ==> idle.chain[k] in old(idle.chain)
        decreases |order| - |kept|
      {
        var session, key, next := Take(it, activeCount, order, times, kept, closing, expTime, now);
        if session.idleSince >= expTime {
          DecideKeep(order, times, kept, closing, activeCount, expTime);
          activeCount := activeCount + 1;
          kept := kept + [true];
        } else if activeCount < minIdleSession {
          DecideKeep(order, times, kept, closing, activeCount, expTime);
          Renew(session, now, order, times, kept, expTime);
          activeCount := activeCount + 1;
          kept := kept + [true];
        } else {
          DecideDrop(order, times, kept, closing, activeCount, expTime);
          Drop(key, it, next, order, kept);
          closing := closing + [session];
          kept := kept + [false];
        }
        it := next;
      }
      Finished(order, times, kept, closing, activeCount, expTime, it);
    }

    // The decisions so far, on values.
    ghost predicate Decided(order: seq<Session>, times: seq<int>, kept: seq<bool>, closing: seq<Session>,
                            active: int, expTime: int)
    {
      && |kept| <= |order| == |times| && active == Count(kept) && closing == Closed(order[..|kept|], kept)
      && Sweep(times, expTime, 0, minIdleSession) == kept + Sweep(times[|kept|..], expTime, active, minIdleSession)
    }

    lemma NothingDecided(order: seq<Session>, times: seq<int>, expTime: int)
      requires |order| == |times|
      ensures Decided(order, times, [], [], 0, expTime)
    {
      assert [] + Sweep(times, expTime, 0, minIdleSession) == Sweep(times, expTime, 0, minIdleSession);
      assert times[0..] == times && order[..0] == [];
    }

    lemma DecideKeep(order: seq<Session>, times: seq<int>, kept: seq<bool>, closing: seq<Session>,
                     active: int, expTime: int)
      requires Decided(order, times, kept, closing, active, expTime) && |kept| < |order|
      requires times[|kept|] >= expTime || active < minIdleSession
      ensures Decided(order, times, kept + [true], closing, active + 1, expTime)
    {
      ClosedStep(order, kept, |kept|, true);
      CountStep(kept, true);
      SweepStep(times, kept, expTime, active, minIdleSession);
    }

    lemma DecideDrop(order: seq<Session>, times: seq<int>, kept: seq<bool>, closing: seq<Session>,
                     active: int, expTime: int)
      requires Decided(order, times, kept, closing, active, expTime) && |kept| < |order|
      requires times[|kept|] < expTime && active >= minIdleSession
      ensures Decided(order, times, kept + [false], closing + [order[|kept|]], active, expTime)
    {
      ClosedStep(order, kept, |kept|, false);
      CountStep(kept, false);
      SweepStep(times, kept, expTime, active, minIdleSession);
    }

    lemma Finished(order: seq<Session>, times: seq<int>, kept: seq<bool>, closing: seq<Session>,
                   active: int, expTime: int, it: Node?<Session?>)
      requires Decided(order, times, kept, closing, active, expTime) && Walked(order, kept, it) && it == null
      ensures kept == Sweep(times, expTime, 0, minIdleSession) && closing == Closed(order, kept)
      ensures Valid() && Order() == Survivors(order, kept)
    {
      SurvivorAt(order, kept);
      assert order[..|kept|] == order && times[|kept|..] == [];
    }

    // An idle session keeps its time, unless it was kept although expired.
    ghost predicate IdleTimes(order: seq<Session>, times: seq<int>, kept: seq<bool>, expTime: int, now: int)
      reads order
    {
      |order| == |times| >= |kept|
      && forall i :: 0 <= i < |order| && (i < |kept| ==> kept[i]) ==>
           order[i].idleSince == if i >= |kept| || times[i] >= expTime then times[i] else now
    }

    // The list is what the sweep has left of `order`, and the iterator is at the next undecided session.
    ghost predicate Walked(order: seq<Session>, kept: seq<bool>, it: Node?<Session?>)
      reads this, idle, idle.chain
    {
      && Valid() && |kept| <= |order| && Order() == Survivors(order, kept)
      && it == At(idle.chain, 1 + Count(kept))
    }

    // The next session, and the iterator moved past it.
    method Take(it: Node<Session?>, active: nat, ghost order: seq<Session>, ghost times: seq<int>,
                ghost kept: seq<bool>, ghost closing: seq<Session>, ghost expTime: int, ghost now: int)
      returns (session: Session, key: int, next: Node?<Session?>)
      requires Walked(order, kept, it) && Decided(order, times, kept, closing, active, expTime)
      requires IdleTimes(order, times, kept, expTime, now)
      ensures |kept| < |order| == |times| && session == order[|kept|] && session.idleSince == times[|kept|]
      ensures key == KeyOf(session) == it.key && session in idle.Contents.Values
      ensures Walked(order, kept + [true], next)
      ensures times[|kept|] >= expTime ==> IdleTimes(order, times, kept + [true], expTime, now)
      ensures IdleTimes(order, times, kept + [false], expTime, now)
    {
      SurvivorAt(order, kept);
      SurvivorsStep(order, kept);
      CountStep(kept, true);
      OrderIsNewestFirst();
      session, key := it.value, it.key;
      next := idle.Next(it, 1 + active);
    }

    method Renew(session: Session, now: int, ghost order: seq<Session>, ghost times: seq<int>,
                 ghost kept: seq<bool>, ghost expTime: int)
      requires IdleTimes(order, times, kept, expTime, now) && |kept| < |order| && session == order[|kept|]
      requires times[|kept|] < expTime && forall i, j :: 0 <= i < j < |order| ==> order[i] != order[j]
      modifies session
      ensures IdleTimes(order, times, kept + [true], expTime, now)
    {
      session.idleSince := now;
    }

    method Drop(key: int, it: Node<Session?>, next: Node?<Session?>, ghost order: seq<Session>, ghost kept: seq<bool>)
      requires Walked(order, kept, it) && Walked(order, kept + [true], next) && |kept| < |order| && it.key == key
      modifies idle, idle.chain
      ensures Walked(order, kept + [false], next)
      ensures idle.Contents == old(idle.Contents) - {key}
      ensures forall k :: 0 <= k < |idle.chain| ==> idle.chain[k] in old(idle.chain)
    {
      SurvivorAt(order, kept);
      SurvivorsStep(order, kept);
      CountStep(kept, true);
      CountStep(kept, false);
      RemoveAt(key, 1 + Count(kept));
    }

    method RemoveAt(key: int, ghost k: nat)
      requires Valid() && 1 <= k < |idle.chain| && idle.chain[k].key == key
      modifies idle, idle.chain
      ensures Valid() && idle.Contents == old(idle.Contents) - {key}
      ensures idle.chain == Deleted(old(idle.chain), k) && Order() == Deleted(old(Order()), k - 1)
    {
      idle.KeyIsAt(k);
      hide WellFormed, Holds, WellLinked;
      var found := idle.Remove(key);
    }
  }

  ghost predicate SubMap<K, V>(m: map<K, V>, n: map<K, V>) {
    forall key <- m :: key in n && m[key] == n[key]
  }

  // A list after a sweep has decided about its first |kept| elements.
  function Survivors<T>(list: seq<T>, kept: seq<bool>): seq<T>
    requires |kept| <= |list|
  {
    if kept == [] then list
    else (if kept[0] then [list[0]] else []) + Survivors(list[1..], kept[1..])
  }

  lemma NobodyLeft<T>(list: seq<T>)
    ensures Survivors(list, []) == list
  {
  }

  lemma SurvivorAt<T>(list: seq<T>, kept: seq<bool>)
    requires |kept| <= |list|
    ensures |Survivors(list, kept)| == Count(kept) + |list| - |kept|
    ensures |kept| < |list| ==> Survivors(list, kept)[Count(kept)] == list[|kept|]
  {
  }

  lemma {:induction false} SurvivorsStep<T>(list: seq<T>, kept: seq<bool>)
    requires |kept| < |list|
    ensures Survivors(list, kept + [true]) == Survivors(list, kept)
    ensures |Survivors(list, kept)| > Count(kept)
    ensures Survivors(list, kept + [false]) == Deleted(Survivors(list, kept), Count(kept))
  {
    SurvivorAt(list, kept);
    if kept == [] {
      assert ([true])[1..] == [] && ([false])[1..] == [];
      assert [list[0]] + list[1..] == list;
      assert list[1..] == Deleted(list, 0);
    } else {
      SurvivorsStep(list[1..], kept[1..]);
      SurvivorAt(list[1..], kept[1..]);
      assert (kept + [true])[1..] == kept[1..] + [true] && (kept + [false])[1..] == kept[1..] + [false];
      if kept[0] {
        DeletedCons(list[0], Survivors(list[1..], kept[1..]), Count(kept[1..]));
      }
    }
  }

  lemma DeletedCons<T>(x: T, s: seq<T>, p: nat)
    requires p < |s|
    ensures Deleted([x] + s, p + 1) == [x] + Deleted(s, p)
  {
  }

  lemma SweepStep(times: seq<int>, kept: seq<bool>, expTime: int, active: int, minIdle: int)
    requires |kept| < |times|
    ensures var keep := times[|kept|] >= expTime || active < minIdle;
            kept + Sweep(times[|kept|..], expTime, active, minIdle) ==
            kept + [keep] + Sweep(times[|kept| + 1..], expTime, if keep then active + 1 else active, minIdle)
  {
  }

  lemma {:induction false} CountStep(kept: seq<bool>, keep: bool)
    ensures Count(kept + [keep]) == Count(kept) + if keep then 1 else 0
  {
    if kept != [] {
      CountStep(kept[1..], keep);
      assert (kept + [keep])[1..] == kept[1..] + [keep];
    }
  }

  lemma {:induction false} ClosedStep(order: seq<Session>, kept: seq<bool>, j: nat, keep: bool)
    requires j == |kept| < |order|
    ensures Closed(order[..j + 1], kept + [keep]) == Closed(order[..j], kept) + if keep then [] else [order[j]]
  {
    if kept == [] {
      assert order[..1] == [order[0]];
    } else {
      ClosedStep(order[1..], kept[1..], j - 1, keep);
      assert order[..j + 1][1..] == order[1..][..j] && order[..j][1..] == order[1..][..j - 1];
      assert (kept + [keep])[1..] == kept[1..] + [keep];
    }
  }

  function Closed(order: seq<Session>, kept: seq<bool>): seq<Session>
    requires |order| == |kept|
  {
    if order == [] then []
    else (if kept[0] then [] else [order[0]]) + Closed(order[1..], kept[1..])
  }
}
