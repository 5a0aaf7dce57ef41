/** Which packets a UDP association records and which it delivers, in every reachable state, said of packet
    fields, clock readings and the packet ids recorded so far for each of the two sessions. */
module UdpDelivery {
  import opened ReplayWindow
  import opened UdpReplay
  import opened ReplaySafety

  // ----- What has been recorded -----

  // One remembered session: whether it has ever held one, the highest packet id, and the ids recorded.
  datatype Seen = Seen(session: nat, held: bool, highest: nat, ids: set<nat>)

  datatype Memory = Memory(current: Seen, previous: Seen, since: nat)

  const NONE := Seen(0, false, 0, {})

  /** Under which id a packet is noted: its own, unless it lies 8192 or more behind the highest, which only
      happens when a session follows session 0 in the same window. */
  function Seat(highest: nat, id: nat): nat {
    if id > highest then id else id + (highest / 64 - id / 64) / 128 * 8192
  }

  function Noted(seen: Seen, id: nat): Seen {
    seen.(highest := if id > seen.highest then id else seen.highest, ids := seen.ids + {Seat(seen.highest, id)})
  }

  // A packet of a third session pushes the current one out, unless that has id 0.
  function Heard(memory: Memory, p: Packet, c: Clock): Memory {
    if p.sessionId == memory.current.session then
      memory.(current := Noted(memory.current, p.packetId).(held := true))
    else if p.sessionId == memory.previous.session then
      memory.(previous := Noted(memory.previous, p.packetId).(held := true), since := c.rule)
    else if memory.current.session == 0 then
      memory.(current := Noted(memory.current, p.packetId).(session := p.sessionId, held := true))
    else
      Memory(Seen(p.sessionId, true, p.packetId, {p.packetId}), memory.current, c.stamp)
  }

  // ----- What is wanted -----

  // At most 30 s apart, as 64-bit numbers.
  predicate Near(now: nat, epoch: nat) { (now - epoch + 30) % 0x1_0000_0000_0000_0000 <= 60 }

  predicate IsNew(seen: Seen, id: nat) { id > seen.highest || (id + 8128 >= seen.highest && id !in seen.ids) }

  // The session is known, with a cipher of its own where that is needed, or may take the place of another.
  predicate Welcome(mode: Mode, memory: Memory, p: Packet, c: Clock) {
    if p.sessionId == memory.current.session then
      (mode.SharedKey? || memory.current.held) && IsNew(memory.current, p.packetId)
    else if p.sessionId == memory.previous.session then
      (mode.SharedKey? || memory.previous.held) && IsNew(memory.previous, p.packetId)
    else
      memory.current.session == 0 || c.rule >= memory.since + 60
  }

  predicate Acceptable(mode: Mode, memory: Memory, p: Packet, c: Clock) {
    && p.longEnough && p.idsComplete && p.headComplete && p.headerType == 1
    && Authentic(mode, p) && Near(c.checked, p.epoch) && Welcome(mode, memory, p, c)
  }

  // ----- Runs -----

  function StateAfter(mode: Mode, client: nat, run: seq<Delivery>): State {
    if run == [] then Fresh(client)
    else Receive(mode, StateAfter(mode, client, run[..|run| - 1]), run[|run| - 1].packet, run[|run| - 1].clock).0
  }

  function MemoryAfter(mode: Mode, run: seq<Delivery>): Memory {
    if run == [] then Memory(NONE, NONE, 0)
    else
      var memory, d := MemoryAfter(mode, run[..|run| - 1]), run[|run| - 1];
      if Acceptable(mode, memory, d.packet, d.clock) then Heard(memory, d.packet, d.clock) else memory
  }

  // The window marks exactly the noted ids, of those it has room for.
  ghost predicate MarksAre(w: Window, highest: nat, ids: set<nat>) {
    && w.last == highest && (forall c <- ids :: Block(c) <= Block(highest))
    && forall c: nat :: Resident(w.last, c) ==> (Marked(w.ring, c) <==> c in ids)
  }

  ghost predicate Holds(mode: Mode, seen: Seen, session: nat, cipher: Cipher, w: Window) {
    && seen.session == session && MarksAre(w, seen.highest, seen.ids) && (!seen.held ==> session == 0)
    && cipher == if mode.SharedKey? || !seen.held then NoCipher else SessionCipher(session)
  }

  ghost predicate Agrees(mode: Mode, client: nat, memory: Memory, s: State) {
    && s.sessionId == client && s.lastRemoteSeen == memory.since
    && Holds(mode, memory.current, s.remoteSessionId, s.remoteCipher, s.window)
    && Holds(mode, memory.previous, s.lastRemoteSessionId, s.lastRemoteCipher, s.lastWindow)
  }

  lemma {:induction false} NearIsFresh(now: nat, epoch: nat)
    ensures Skew(now, epoch) <= FRESH_SECONDS <==> Near(now, epoch)
  {
    var x := now - Signed64(epoch);
    WrapIsCongruent(x);
    var q := (x + 0x8000_0000_0000_0000) / 0x1_0000_0000_0000_0000;
    var d := Wrap64(x);
    var k := if epoch < 0x8000_0000_0000_0000 then q else q - 1;
    assert now - epoch + 30 == d + 30 + k * 0x1_0000_0000_0000_0000;
    RemainderOf(d + 30, k);
  }

  lemma {:induction false} RemainderOf(d: int, k: int)
    requires -0x8000_0000_0000_0000 <= d < 0x8000_0000_0000_0000 + 30
    ensures (d + k * 0x1_0000_0000_0000_0000) % 0x1_0000_0000_0000_0000 <= 60 <==> 0 <= d <= 60
  {
    var m := if d >= 0 then d else d + 0x1_0000_0000_0000_0000;
    var j := if d >= 0 then k else k - 1;
    assert d + k * 0x1_0000_0000_0000_0000 == m + j * 0x1_0000_0000_0000_0000;
  }

  // Below 2^62 that is the plain difference.
  lemma {:induction false} NearIsPlain(now: nat, epoch: nat)
    requires now < 0x4000_0000_0000_0000 && epoch < 0x4000_0000_0000_0000
    ensures Near(now, epoch) <==> -30 <= now - epoch <= 30
  {
    RemainderOf(now - epoch + 30, 0);
  }

  lemma {:induction false} NewIsAccepted(w: Window, seen: Seen, id: nat)
    requires MarksAre(w, seen.highest, seen.ids)
    ensures Accepts(w, id) <==> IsNew(seen, id)
  {
    if id <= w.last <= id + WINDOW_SIZE {
      InWindowIsResident(w.last, id);
    }
  }

  lemma {:induction false} SeatIsAlias(highest: nat, id: nat)
    requires id <= highest
    ensures var seat := Seat(highest, id);
            Resident(highest, seat) && Slot(seat) == Slot(id) && Bit(seat) == Bit(id)
  {
    var q: nat := (highest / 64 - id / 64) / 128;
    assert Seat(highest, id) == id + 64 * (128 * q);
    Shifted(id, 128 * q);
    assert (Block(id) + 128 * q) % RING_BLOCKS == Block(id) % RING_BLOCKS;
  }

  lemma {:induction false} Shifted(id: nat, blocks: nat)
    ensures Block(id + 64 * blocks) == Block(id) + blocks && (id + 64 * blocks) % 64 == id % 64
  {
  }

  lemma {:induction false} SameMark(ring: Ring, id: nat, seat: nat)
    requires Slot(id) == Slot(seat) && Bit(id) == Bit(seat)
    ensures Mark(ring, id) == Mark(ring, seat)
  {
  }

  // A new packet of a known session is noted under its own id.
  lemma {:induction false} NewSeat(seen: Seen, id: nat)
    requires IsNew(seen, id)
    ensures Seat(seen.highest, id) == id
  {
    assert id <= seen.highest ==> seen.highest / 64 - id / 64 <= 127;
  }

  // Adding an id to the window notes it.
  lemma {:induction false} AddNotes(w: Window, seen: Seen, id: nat)
    requires MarksAre(w, seen.highest, seen.ids)
    ensures MarksAre(Added(w, id), Noted(seen, id).highest, Noted(seen, id).ids)
  {
    if id > w.last {
      HigherNotes(w, seen, id);
    } else {
      LowerNotes(w, seen, id);
    }
  }

  lemma {:induction false} HigherNotes(w: Window, seen: Seen, id: nat)
    requires MarksAre(w, seen.highest, seen.ids) && id > w.last
    ensures MarksAre(Added(w, id), id, seen.ids + {id})
  {
    var w' := Added(w, id);
    forall c: nat | Resident(id, c) ensures Marked(w'.ring, c) <==> c in seen.ids + {id} {
      AddedMarks(w, id, c);
      if Block(c) <= Block(w.last) {
        assert Resident(w.last, c);
      }
    }
  }

  lemma {:induction false} LowerNotes(w: Window, seen: Seen, id: nat)
    requires MarksAre(w, seen.highest, seen.ids) && id <= w.last
    ensures MarksAre(Added(w, id), w.last, seen.ids + {Seat(seen.highest, id)})
  {
    var seat := Seat(w.last, id);
    SeatIsAlias(w.last, id);
    SameMark(w.ring, id, seat);
    forall c: nat | Resident(w.last, c) ensures Marked(Mark(w.ring, seat), c) <==> c in seen.ids + {seat} {
      MarkMarks(w.ring, w.last, seat, c);
    }
  }

  lemma {:induction false} EmptyMarksNothing()
    ensures MarksAre(Empty(), 0, {})
  {
  }

  // A window that starts with one id.
  lemma {:induction false} FirstNote(id: nat)
    ensures MarksAre(Added(Empty(), id), id, {id})
  {
    EmptyMarksNothing();
    AddNotes(Empty(), NONE, id);
    assert {} + {id} == {id};
  }

  // ----- The answer -----

  // For a state that agrees with the memory, recording is accepting.
  lemma {:induction false} RecordsIff(mode: Mode, client: nat, memory: Memory, s: State, p: Packet, c: Clock)
    requires Agrees(mode, client, memory, s)
    ensures Receive(mode, s, p, c).1.Recorded() <==> Acceptable(mode, memory, p, c)
  {
    NearIsFresh(c.checked, p.epoch);
    NewIsAccepted(s.window, memory.current, p.packetId);
    NewIsAccepted(s.lastWindow, memory.previous, p.packetId);
    hide Accepts, Skew, Near, IsNew, MarksAre;
  }

  lemma {:induction false} Remembers(mode: Mode, client: nat, memory: Memory, s: State, p: Packet, c: Clock)
    requires Agrees(mode, client, memory, s)
    ensures Agrees(mode, client, if Acceptable(mode, memory, p, c) then Heard(memory, p, c) else memory,
                   Receive(mode, s, p, c).0)
  {
    RecordsIff(mode, client, memory, s, p, c);
    if Acceptable(mode, memory, p, c) {
      AddNotes(s.window, memory.current, p.packetId);
      AddNotes(s.lastWindow, memory.previous, p.packetId);
      FirstNote(p.packetId);
      hide MarksAre, Added, Noted, Near, IsNew, Accepts, Skew;
    }
  }

  lemma {:induction false} AgreesAlways(mode: Mode, client: nat, run: seq<Delivery>)
    ensures Agrees(mode, client, MemoryAfter(mode, run), StateAfter(mode, client, run))
    decreases |run|
  {
    hide Agrees, Acceptable, Receive, Heard;
    if run == [] {
      StartsAgreeing(mode, client);
    } else {
      var init, d := run[..|run| - 1], run[|run| - 1];
      AgreesAlways(mode, client, init);
      Remembers(mode, client, MemoryAfter(mode, init), StateAfter(mode, client, init), d.packet, d.clock);
    }
  }

  lemma {:induction false} StartsAgreeing(mode: Mode, client: nat)
    ensures Agrees(mode, client, Memory(NONE, NONE, 0), Fresh(client))
  {
    EmptyMarksNothing();
  }

  /** In every state that any deliveries lead to, a packet is recorded exactly if it is acceptable, and
      delivered exactly if it is also complete to the end and addressed to this client. */
  lemma {:induction false} DeliversIff(mode: Mode, client: nat, run: seq<Delivery>, p: Packet, c: Clock)
    ensures var out := Receive(mode, StateAfter(mode, client, run), p, c).1;
            var accepted := Acceptable(mode, MemoryAfter(mode, run), p, c);
            && (out == Delivered <==> accepted && p.tailComplete && p.clientSessionId == client)
            && (out.Recorded() && out != Delivered <==> accepted && !(p.tailComplete && p.clientSessionId == client))
            && (out == BadClientSession <==> accepted && p.clientSessionId != client)
  {
    var memory, s := MemoryAfter(mode, run), StateAfter(mode, client, run);
    AgreesAlways(mode, client, run);
    RecordsIff(mode, client, memory, s, p, c);
    hide Acceptable, MemoryAfter, StateAfter;
  }

  /** The session in place: after any packets, the answer to the next one. */
  method ReceiveAll(mode: Mode, client: nat, run: seq<Delivery>) returns (session: UdpSession, outs: seq<Outcome>)
    ensures session.Valid() && session.mode == mode && session.Value() == StateAfter(mode, client, run)
    ensures |outs| == |run| && forall i :: 0 <= i < |run| ==>
              (outs[i] == Delivered <==>
                 && Acceptable(mode, MemoryAfter(mode, run[..i]), run[i].packet, run[i].clock)
                 && run[i].packet.tailComplete && run[i].packet.clientSessionId == client)
  {
    hide Acceptable, Receive, MemoryAfter;
    session := new UdpSession(mode, client);
    outs := [];
    for i := 0 to |run|
      invariant fresh(session) && fresh(session.window) && fresh(session.window.ring)
      invariant fresh(session.lastWindow) && fresh(session.lastWindow.ring)
      invariant session.Valid() && session.mode == mode && session.Value() == StateAfter(mode, client, run[..i])
      invariant |outs| == i && forall k :: 0 <= k < i ==>
                  (outs[k] == Delivered <==>
                     && Acceptable(mode, MemoryAfter(mode, run[..k]), run[k].packet, run[k].clock)
                     && run[k].packet.tailComplete && run[k].packet.clientSessionId == client)
    {
      assert run[..i + 1][..i] == run[..i];
      DeliversIff(mode, client, run[..i], run[i].packet, run[i].clock);
      var out := session.ReadPacket(run[i].packet, run[i].clock);
      outs := outs + [out];
    }
    assert run[..|run|] == run;
  }
}
