/** Whole runs of the UDP association: when can one server packet be recorded twice?

    A run is any sequence of deliveries, replayed, reordered or forged, under a clock that never goes back.
    `ReplaySafeExactly` gives the answer for every cipher mode, every set `ids` of session ids the server
    may choose, and every bound `stall` on the seconds one call may spend between its clock readings. */
module ReplaySafety {
  import opened ReplayWindow
  import opened UdpReplay

  datatype Delivery = Delivery(packet: Packet, clock: Clock)

  predicate SamePacket(p: Packet, q: Packet) {
    p.sessionId == q.sessionId && p.packetId == q.packetId && p.epoch == q.epoch
  }

  // Sealed by the server for the session its header names.
  predicate Authentic(mode: Mode, p: Packet) {
    p.sealedUnder == if mode.SharedKey? then KeyCipher else SessionCipher(p.sessionId)
  }

  ghost predicate LegalDelivery(mode: Mode, ids: iset<nat>, stall: nat, now: nat, d: Delivery) {
    && now <= d.clock.checked <= d.clock.rule <= d.clock.stamp <= d.clock.checked + stall
    && d.clock.stamp < 0x8000_0000_0000_0000
    && (Authentic(mode, d.packet) ==> d.packet.sessionId in ids)
  }

  ghost predicate Legal(mode: Mode, ids: iset<nat>, stall: nat, now: nat, run: seq<Delivery>)
    decreases |run|
  {
    run == [] || (LegalDelivery(mode, ids, stall, now, run[0])
                  && Legal(mode, ids, stall, run[0].clock.stamp, run[1..]))
  }

  // The outcomes of a run; a crash ends it.
  function Outcomes(mode: Mode, s: State, run: seq<Delivery>): (outs: seq<Outcome>)
    ensures |outs| <= |run|
    decreases |run|
  {
    if run == [] then []
    else
      var (s', out) := Receive(mode, s, run[0].packet, run[0].clock);
      [out] + if out.Crash? then [] else Outcomes(mode, s', run[1..])
  }

  ghost predicate RecordsTwice(mode: Mode, s: State, run: seq<Delivery>) {
    var outs := Outcomes(mode, s, run);
    exists i, j :: 0 <= i < j < |outs| && outs[i].Recorded() && outs[j].Recorded()
                   && SamePacket(run[i].packet, run[j].packet)
  }

  ghost predicate ReplaySafe(mode: Mode, ids: iset<nat>, stall: nat) {
    forall client: nat, run: seq<Delivery> ::
      Legal(mode, ids, stall, 0, run) ==> !RecordsTwice(mode, Fresh(client), run)
  }

  // A caller can decide this: no id 0 unless (nearly) alone, and no call that stalls a whole minute.
  ghost predicate SafeSetting(mode: Mode, ids: iset<nat>, stall: nat) {
    if 0 in ids then
      if mode.SharedKey? then forall a :: a in ids ==> a == 0
      else forall a, b :: a in ids && b in ids && a != 0 && b != 0 ==> a == b
    else
      stall < ROTATE_SECONDS
      || forall a, b, c :: a in ids && b in ids && c in ids ==> a == b || b == c || a == c
  }

  // ----- Clock arithmetic -----

  lemma FreshTwice(t0: nat, t1: nat, epoch: nat)
    requires t0 + 2 * FRESH_SECONDS <= t1 < 0x8000_0000_0000_0000
    requires Skew(t0, epoch) <= FRESH_SECONDS && Skew(t1, epoch) <= FRESH_SECONDS
    ensures t1 == t0 + 2 * FRESH_SECONDS
  {
    var x, y := t0 - Signed64(epoch), t1 - Signed64(epoch);
    assert exists q: int :: Wrap64(x) == x - q * 0x1_0000_0000_0000_0000 by {
      WrapIsCongruent(x);
    }
    var q: int :| Wrap64(x) == x - q * 0x1_0000_0000_0000_0000;
    assert exists r: int :: Wrap64(y) == y - r * 0x1_0000_0000_0000_0000 by {
      WrapIsCongruent(y);
    }
    var r: int :| Wrap64(y) == y - r * 0x1_0000_0000_0000_0000;
    assert q == r;
  }

  lemma WrapIsCongruent(x: int)
    ensures Wrap64(x) == x - ((x + 0x8000_0000_0000_0000) / 0x1_0000_0000_0000_0000) * 0x1_0000_0000_0000_0000
  {
  }

  // ----- Invariants -----

  ghost predicate SlotCipher(mode: Mode, id: nat, cipher: Cipher) {
    if mode.SharedKey? then cipher.NoCipher?
    else cipher == SessionCipher(id) || (id == 0 && cipher.NoCipher?)
  }

  // What every reachable state satisfies when the setting is safe.
  ghost predicate Base(mode: Mode, ids: iset<nat>, now: nat, s: State) {
    && SlotCipher(mode, s.remoteSessionId, s.remoteCipher)
    && SlotCipher(mode, s.lastRemoteSessionId, s.lastRemoteCipher)
    && s.lastRemoteSeen <= now
    && (s.remoteSessionId != 0 ==> s.remoteSessionId in ids)
    && (s.lastRemoteSessionId != 0 ==> s.lastRemoteSessionId in ids)
    && (0 !in ids ==>
          && (s.remoteSessionId == 0 ==> s.lastRemoteSessionId == 0)
          && (s.lastRemoteSessionId != 0 ==> s.lastRemoteSessionId != s.remoteSessionId))
    && (0 in ids ==>
          && s.lastRemoteSessionId == 0 && s.lastRemoteCipher.NoCipher?
          && (s.remoteSessionId == 0 ==> s.remoteCipher.NoCipher?)
          && (mode.SharedKey? ==> s.remoteSessionId == 0))
  }

  // Packet k was recorded at time t0; this is why it cannot be recorded again.
  ghost predicate Remembers(mode: Mode, ids: iset<nat>, stall: nat, s: State, k: Packet, t0: nat, now: nat) {
    && t0 <= now
    && k.sessionId in ids && (k.sessionId == 0 ==> mode.SharedKey?)
    && Skew(t0, k.epoch) <= FRESH_SECONDS
    && (InCurrent(s, k)
        || (0 !in ids && InPrevious(s, k, t0))
        || (0 !in ids && stall < ROTATE_SECONDS && (Forgotten(s, k, t0) || now > t0 + 2 * FRESH_SECONDS)))
  }

  ghost predicate InCurrent(s: State, k: Packet) {
    k.sessionId == s.remoteSessionId && Sound(s.window, {k.packetId})
  }

  ghost predicate InPrevious(s: State, k: Packet, t0: nat) {
    k.sessionId == s.lastRemoteSessionId && k.sessionId != s.remoteSessionId
    && Sound(s.lastWindow, {k.packetId}) && t0 <= s.lastRemoteSeen
  }

  // Both slots have moved on, and it took the last rotation a minute to do so.
  ghost predicate Forgotten(s: State, k: Packet, t0: nat) {
    IsNewSession(s, k.sessionId) && s.remoteSessionId != 0 && t0 + ROTATE_SECONDS <= s.lastRemoteSeen
  }

  lemma RecordedIsAuthentic(mode: Mode, ids: iset<nat>, now: nat, s: State, p: Packet, c: Clock)
    requires Base(mode, ids, now, s) && Receive(mode, s, p, c).1.Recorded()
    ensures Authentic(mode, p)
  {
  }

  lemma BaseKept(mode: Mode, ids: iset<nat>, stall: nat, now: nat, s: State, d: Delivery)
    requires SafeSetting(mode, ids, stall) && Base(mode, ids, now, s)
    requires LegalDelivery(mode, ids, stall, now, d)
    ensures Base(mode, ids, d.clock.stamp, Receive(mode, s, d.packet, d.clock).0)
  {
  }

  // Recording a packet makes the state remember it.
  lemma RecordRemembers(mode: Mode, ids: iset<nat>, stall: nat, now: nat, s: State, d: Delivery)
    requires SafeSetting(mode, ids, stall) && Base(mode, ids, now, s)
    requires LegalDelivery(mode, ids, stall, now, d)
    requires Receive(mode, s, d.packet, d.clock).1.Recorded()
    ensures Remembers(mode, ids, stall, Receive(mode, s, d.packet, d.clock).0, d.packet, d.clock.checked, d.clock.stamp)
  {
    var p := d.packet;
    RecordedIsAuthentic(mode, ids, now, s, p, d.clock);
    AddRemembers(s.window, p.packetId);
    AddRemembers(s.lastWindow, p.packetId);
    AddRemembers(Empty(), p.packetId);
  }

  lemma AddRemembers(w: Window, id: nat)
    ensures Sound(Added(w, id), {id})
  {
  }

  lemma AddStillRemembers(w: Window, id: nat, other: nat)
    requires Sound(w, {id})
    ensures Sound(Added(w, other), {id})
  {
    AddKeepsSound(w, {id}, other);
  }

  // No later delivery undoes that, and a copy of the packet is not recorded.
  lemma RemembersKept(mode: Mode, ids: iset<nat>, stall: nat, now: nat, s: State, d: Delivery, k: Packet, t0: nat)
    requires SafeSetting(mode, ids, stall) && Base(mode, ids, now, s)
    requires LegalDelivery(mode, ids, stall, now, d)
    requires Remembers(mode, ids, stall, s, k, t0, now)
    ensures Remembers(mode, ids, stall, Receive(mode, s, d.packet, d.clock).0, k, t0, d.clock.stamp)
    ensures SamePacket(d.packet, k) ==> !Receive(mode, s, d.packet, d.clock).1.Recorded()
  {
    var p, c := d.packet, d.clock;
    if SamePacket(p, k) {
      CopyRefused(mode, ids, stall, now, s, d, k, t0);
    }
    if Receive(mode, s, p, c).1.Recorded() {
      RecordedIsAuthentic(mode, ids, now, s, p, c);
      if InCurrent(s, k) {
        AddStillRemembers(s.window, k.packetId, p.packetId);
      } else if InPrevious(s, k, t0) {
        AddStillRemembers(s.lastWindow, k.packetId, p.packetId);
      }
    }
  }

  lemma CopyRefused(mode: Mode, ids: iset<nat>, stall: nat, now: nat, s: State, d: Delivery, k: Packet, t0: nat)
    requires Base(mode, ids, now, s) && LegalDelivery(mode, ids, stall, now, d)
    requires Remembers(mode, ids, stall, s, k, t0, now) && SamePacket(d.packet, k)
    ensures !Receive(mode, s, d.packet, d.clock).1.Recorded()
  {
    if InCurrent(s, k) {
      SoundRefuses(s.window, {k.packetId}, k.packetId);
    } else if InPrevious(s, k, t0) {
      SoundRefuses(s.lastWindow, {k.packetId}, k.packetId);
    } else if Skew(d.clock.checked, k.epoch) <= FRESH_SECONDS {
      FreshTwice(t0, d.clock.checked, k.epoch);
    }
  }

  lemma {:induction false} NeverAgain(mode: Mode, ids: iset<nat>, stall: nat, now: nat, s: State,
                                      run: seq<Delivery>, k: Packet, t0: nat)
    requires SafeSetting(mode, ids, stall) && Base(mode, ids, now, s)
    requires Legal(mode, ids, stall, now, run)
    requires Remembers(mode, ids, stall, s, k, t0, now)
    ensures var outs := Outcomes(mode, s, run);
            forall j :: 0 <= j < |outs| && outs[j].Recorded() ==> !SamePacket(run[j].packet, k)
    decreases |run|
  {
    if run != [] {
      var (s', out) := Receive(mode, s, run[0].packet, run[0].clock);
      RemembersKept(mode, ids, stall, now, s, run[0], k, t0);
      BaseKept(mode, ids, stall, now, s, run[0]);
      NeverAgain(mode, ids, stall, run[0].clock.stamp, s', run[1..], k, t0);
      var outs := Outcomes(mode, s, run);
      forall j | 0 <= j < |outs| && outs[j].Recorded() ensures !SamePacket(run[j].packet, k) {
        if j > 0 {
          assert run[j] == run[1..][j - 1];
        }
      }
    }
  }

  lemma {:induction false} SafeFrom(mode: Mode, ids: iset<nat>, stall: nat, now: nat, s: State, run: seq<Delivery>)
    requires SafeSetting(mode, ids, stall) && Base(mode, ids, now, s)
    requires Legal(mode, ids, stall, now, run)
    ensures !RecordsTwice(mode, s, run)
    decreases |run|
  {
    if run != [] {
      var d := run[0];
      var (s', out) := Receive(mode, s, d.packet, d.clock);
      BaseKept(mode, ids, stall, now, s, d);
      SafeFrom(mode, ids, stall, d.clock.stamp, s', run[1..]);
      if out.Recorded() {
        RecordRemembers(mode, ids, stall, now, s, d);
        NeverAgain(mode, ids, stall, d.clock.stamp, s', run[1..], d.packet, d.clock.checked);
      }
      var outs, rest := Outcomes(mode, s, run), Outcomes(mode, s', run[1..]);
      forall i, j | 0 <= i < j < |outs| && outs[i].Recorded() && outs[j].Recorded()
        ensures !SamePacket(run[i].packet, run[j].packet)
      {
        assert outs[j] == rest[j - 1] && run[j] == run[1..][j - 1];
        if i > 0 {
          assert outs[i] == rest[i - 1] && run[i] == run[1..][i - 1];
        }
      }
    }
  }

  // ----- Runs that record one packet twice -----

  function ServerPacket(mode: Mode, session: nat, epoch: nat): Packet {
    Packet(true, if mode.SharedKey? then KeyCipher else SessionCipher(session),
           true, session, 1, true, SERVER_TYPE, epoch, true, 0)
  }

  function At(t: nat): Clock { Clock(t, t, t) }

  // Unfolds a run of three or four deliveries that all come through.
  lemma ThreeRecorded(mode: Mode, s: State, run: seq<Delivery>)
    requires |run| >= 3
    requires var (s1, o1) := Receive(mode, s, run[0].packet, run[0].clock);
             var (s2, o2) := Receive(mode, s1, run[1].packet, run[1].clock);
             var (s3, o3) := Receive(mode, s2, run[2].packet, run[2].clock);
             o1.Delivered? && o2.Delivered? && o3.Delivered?
             && (|run| == 4 ==> Receive(mode, s3, run[3].packet, run[3].clock).1.Delivered?)
             && |run| <= 4
    ensures Outcomes(mode, s, run) == seq(|run|, i => Delivered)
  {
    var (s1, o1) := Receive(mode, s, run[0].packet, run[0].clock);
    var (s2, o2) := Receive(mode, s1, run[1].packet, run[1].clock);
    var (s3, o3) := Receive(mode, s2, run[2].packet, run[2].clock);
    assert run[1..][1..] == run[2..] && run[2..][1..] == run[3..] && run[1..][0] == run[1];
    assert Outcomes(mode, s2, run[2..]) == [Delivered] + Outcomes(mode, s3, run[3..]);
    assert Outcomes(mode, s1, run[1..]) == [Delivered] + Outcomes(mode, s2, run[2..]);
    if |run| == 4 {
      var (s4, o4) := Receive(mode, s3, run[3].packet, run[3].clock);
      assert run[3..][1..] == [];
      assert Outcomes(mode, s3, run[3..]) == [Delivered] + Outcomes(mode, s4, []);
    }
  }

  // A packet dated 30 s ahead, two rotations a minute apart, and a call that stalls another minute
  // between its freshness check and its rotation check.
  function StalledRun(mode: Mode, a: nat, b: nat, c: nat): seq<Delivery> {
    [Delivery(ServerPacket(mode, a, 90), At(60)), Delivery(ServerPacket(mode, b, 60), At(60)),
     Delivery(ServerPacket(mode, c, 120), At(120)), Delivery(ServerPacket(mode, a, 90), Clock(120, 180, 180))]
  }

  lemma StalledRunRecordsTwice(mode: Mode, ids: iset<nat>, stall: nat, a: nat, b: nat, c: nat)
    requires stall >= ROTATE_SECONDS && a != b && b != c && a != c && a != 0 && b != 0 && c != 0
    requires a in ids && b in ids && c in ids
    ensures Legal(mode, ids, stall, 0, StalledRun(mode, a, b, c))
    ensures RecordsTwice(mode, Fresh(0), StalledRun(mode, a, b, c))
  {
    var run := StalledRun(mode, a, b, c);
    LegalByStep(mode, ids, stall, 0, run);
    ThreeRecorded(mode, Fresh(0), run);
    var outs := Outcomes(mode, Fresh(0), run);
    assert outs[0].Recorded() && outs[3].Recorded() && SamePacket(run[0].packet, run[3].packet);
  }

  ghost predicate LegalStep(mode: Mode, ids: iset<nat>, stall: nat, now: nat, run: seq<Delivery>, i: nat)
    requires i < |run|
  {
    LegalDelivery(mode, ids, stall, if i == 0 then now else run[i - 1].clock.stamp, run[i])
  }

  lemma {:induction false} LegalByStep(mode: Mode, ids: iset<nat>, stall: nat, now: nat, run: seq<Delivery>)
    requires forall i :: 0 <= i < |run| ==> LegalStep(mode, ids, stall, now, run, i)
    ensures Legal(mode, ids, stall, now, run)
    decreases |run|
  {
    if run != [] {
      assert LegalStep(mode, ids, stall, now, run, 0);
      forall i | 0 <= i < |run[1..]| ensures LegalStep(mode, ids, stall, run[0].clock.stamp, run[1..], i) {
        assert LegalStep(mode, ids, stall, now, run, i + 1);
      }
      LegalByStep(mode, ids, stall, run[0].clock.stamp, run[1..]);
    }
  }

  // The zero value of the previous-session slot matches id 0, with an empty window.
  function ZeroRun(s: nat): seq<Delivery> {
    var zero := Delivery(ServerPacket(SharedKey, 0, 100), At(100));
    [zero, Delivery(ServerPacket(SharedKey, s, 100), At(100)), zero]
  }

  lemma ZeroRunRecordsTwice(ids: iset<nat>, stall: nat, s: nat)
    requires 0 in ids && s in ids && s != 0
    ensures Legal(SharedKey, ids, stall, 0, ZeroRun(s))
    ensures RecordsTwice(SharedKey, Fresh(0), ZeroRun(s))
  {
    var run := ZeroRun(s);
    LegalByStep(SharedKey, ids, stall, 0, run);
    ThreeRecorded(SharedKey, Fresh(0), run);
    var outs := Outcomes(SharedKey, Fresh(0), run);
    assert outs[0].Recorded() && outs[2].Recorded() && SamePacket(run[0].packet, run[2].packet);
  }

  // A current session with id 0 counts as none, so the next session needs no minute of waiting.
  function ZeroRotationRun(a: nat, b: nat): seq<Delivery> {
    [Delivery(ServerPacket(SessionKeys, a, 90), At(60)), Delivery(ServerPacket(SessionKeys, b, 60), At(60)),
     Delivery(ServerPacket(SessionKeys, 0, 120), At(120)), Delivery(ServerPacket(SessionKeys, a, 90), At(120))]
  }

  lemma ZeroRotationRecordsTwice(ids: iset<nat>, stall: nat, a: nat, b: nat)
    requires 0 in ids && a in ids && b in ids && a != 0 && b != 0 && a != b
    ensures Legal(SessionKeys, ids, stall, 0, ZeroRotationRun(a, b))
    ensures RecordsTwice(SessionKeys, Fresh(0), ZeroRotationRun(a, b))
  {
    var run := ZeroRotationRun(a, b);
    LegalByStep(SessionKeys, ids, stall, 0, run);
    ThreeRecorded(SessionKeys, Fresh(0), run);
    var outs := Outcomes(SessionKeys, Fresh(0), run);
    assert outs[0].Recorded() && outs[3].Recorded() && SamePacket(run[0].packet, run[3].packet);
  }

  // ----- The exact answer -----

  lemma ReplaySafeExactly(mode: Mode, ids: iset<nat>, stall: nat)
    ensures ReplaySafe(mode, ids, stall) <==> SafeSetting(mode, ids, stall)
  {
    if SafeSetting(mode, ids, stall) {
      forall client: nat, run: seq<Delivery> | Legal(mode, ids, stall, 0, run)
        ensures !RecordsTwice(mode, Fresh(client), run)
      {
        SafeFrom(mode, ids, stall, 0, Fresh(client), run);
      }
    } else if 0 !in ids {
      var a, b, c :| a in ids && b in ids && c in ids && a != b && b != c && a != c;
      StalledRunRecordsTwice(mode, ids, stall, a, b, c);
    } else if mode.SharedKey? {
      var s :| s in ids && s != 0;
      ZeroRunRecordsTwice(ids, stall, s);
    } else {
      var a, b :| a in ids && b in ids && a != 0 && b != 0 && a != b;
      ZeroRotationRecordsTwice(ids, stall, a, b);
    }
  }

  // The protocol's own setting: non-zero session ids and calls shorter than a minute.
  lemma NoPacketRecordedTwice(mode: Mode, ids: iset<nat>, stall: nat, client: nat, run: seq<Delivery>)
    requires 0 !in ids && stall < ROTATE_SECONDS
    requires Legal(mode, ids, stall, 0, run)
    ensures !RecordsTwice(mode, Fresh(client), run)
  {
    ReplaySafeExactly(mode, ids, stall);
  }
}
