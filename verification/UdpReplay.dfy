/** The client side of a Shadowsocks 2022 UDP association: which server packets are recorded as accepted.

    The association remembers two server sessions, the current one and the previous one, each with a
    replay window. The cipher is abstract: opening succeeds exactly for packets sealed under that cipher.
    `ReadPacket` is proved equal to `Receive`; the lemmas then decide, for every set of session ids the
    server may use and every bound on how long one call may stall between its clock readings, whether some
    run records the same packet twice. */
module UdpReplay {
  import opened ReplayWindow

  const SERVER_TYPE: nat := 1
  const FRESH_SECONDS: nat := 30
  const ROTATE_SECONDS: nat := 60

  // SharedKey is the chacha20 method: one cipher opens every packet, before the session id is known.
  // SessionKeys are the AES methods: the cipher belongs to the session named in the separate header.
  datatype Mode = SharedKey | SessionKeys

  datatype Cipher = NoCipher | KeyCipher | SessionCipher(session: nat)

  datatype Packet = Packet(
    longEnough: bool, sealedUnder: Cipher,
    idsComplete: bool, sessionId: nat, packetId: nat,
    headComplete: bool, headerType: nat, epoch: nat,
    tailComplete: bool, clientSessionId: nat)

  // The three clock readings of one call, in the order the code takes them.
  datatype Clock = Clock(checked: nat, rule: nat, stamp: nat)

  datatype State = State(
    sessionId: nat, remoteSessionId: nat, lastRemoteSessionId: nat, lastRemoteSeen: nat,
    remoteCipher: Cipher, lastRemoteCipher: Cipher, window: Window, lastWindow: Window)

  // Crash is the nil dereference when a slot that never held a session is used to decrypt.
  datatype Outcome =
    | TooShort | Undecryptable | Truncated | NotUnique | Crash | BadHeaderType | BadTimestamp
    | TooManySessions | BadClientSession | BadTail | Delivered
  {
    // The packet id was added to a replay window.
    predicate Recorded() { BadClientSession? || BadTail? || Delivered? }
  }

  // int64(epoch), and subtraction of int64 values.
  function Signed64(x: nat): int { if x < 0x8000_0000_0000_0000 then x else x - 0x1_0000_0000_0000_0000 }

  function Wrap64(x: int): int {
    (x + 0x8000_0000_0000_0000) % 0x1_0000_0000_0000_0000 - 0x8000_0000_0000_0000
  }

  function Skew(now: nat, epoch: nat): nat {
    var d := Wrap64(now - Signed64(epoch));
    if d < 0 then -d else d
  }

  function Opener(mode: Mode, s: State, sessionId: nat): Cipher {
    if mode.SharedKey? then KeyCipher
    else if sessionId == s.remoteSessionId then s.remoteCipher
    else if sessionId == s.lastRemoteSessionId then s.lastRemoteCipher
    else SessionCipher(sessionId)
  }

  predicate WindowRefuses(s: State, p: Packet) {
    if p.sessionId == s.remoteSessionId then !Accepts(s.window, p.packetId)
    else p.sessionId == s.lastRemoteSessionId && !Accepts(s.lastWindow, p.packetId)
  }

  // Everything up to the freshness check: Delivered stands for "go on and record".
  function Gate(mode: Mode, s: State, p: Packet, c: Clock): Outcome {
    var opener := Opener(mode, s, p.sessionId);
    if !p.longEnough then TooShort
    else if mode.SharedKey? && p.sealedUnder != KeyCipher then Undecryptable
    else if !p.idsComplete then Truncated
    else if WindowRefuses(s, p) then NotUnique
    else if opener.NoCipher? then Crash
    else if p.sealedUnder != opener then Undecryptable
    else if !p.headComplete then Truncated
    else if p.headerType != SERVER_TYPE then BadHeaderType
    else if Skew(c.checked, p.epoch) > FRESH_SECONDS then BadTimestamp
    else Delivered
  }

  predicate IsNewSession(s: State, sessionId: nat) {
    sessionId != s.remoteSessionId && sessionId != s.lastRemoteSessionId
  }

  // A second session change within a minute is refused, unless no session has been seen.
  predicate RotationRefused(s: State, p: Packet, c: Clock) {
    IsNewSession(s, p.sessionId) && s.remoteSessionId != 0 && c.rule - s.lastRemoteSeen < ROTATE_SECONDS
  }

  function Record(mode: Mode, s: State, p: Packet, c: Clock): State {
    if p.sessionId == s.remoteSessionId then
      s.(window := Added(s.window, p.packetId))
    else if p.sessionId == s.lastRemoteSessionId then
      s.(lastWindow := Added(s.lastWindow, p.packetId), lastRemoteSeen := c.rule)
    else
      var cipher := if mode.SharedKey? then NoCipher else SessionCipher(p.sessionId);
      var rotated := if s.remoteSessionId == 0 then s
                     else s.(lastRemoteSessionId := s.remoteSessionId, lastWindow := s.window,
                             lastRemoteSeen := c.stamp, lastRemoteCipher := s.remoteCipher, window := Empty());
      rotated.(remoteSessionId := p.sessionId, remoteCipher := cipher,
               window := Added(rotated.window, p.packetId))
  }

  function Receive(mode: Mode, s: State, p: Packet, c: Clock): (State, Outcome) {
    var gate := Gate(mode, s, p, c);
    if gate != Delivered then (s, gate)
    else if RotationRefused(s, p, c) then (s, TooManySessions)
    else
      (Record(mode, s, p, c),
       if p.clientSessionId != s.sessionId then BadClientSession
       else if !p.tailComplete then BadTail else Delivered)
  }

  function Fresh(clientId: nat): State {
    State(clientId, 0, 0, 0, NoCipher, NoCipher, Empty(), Empty())
  }

  // ----- The in-place session -----

  class UdpSession {
    const mode: Mode
    const sessionId: nat
    var remoteSessionId: nat
    var lastRemoteSessionId: nat
    var lastRemoteSeen: nat
    var remoteCipher: Cipher
    var lastRemoteCipher: Cipher
    var window: SlidingWindow
    var lastWindow: SlidingWindow

    ghost predicate Valid()
      reads this, window, lastWindow
    {
      window.Valid() && lastWindow.Valid() && window != lastWindow && window.ring != lastWindow.ring
    }

    ghost function Value(): State
      reads this, window, lastWindow, window.ring, lastWindow.ring
      requires Valid()
    {
      State(sessionId, remoteSessionId, lastRemoteSessionId, lastRemoteSeen, remoteCipher, lastRemoteCipher,
            window.Value(), lastWindow.Value())
    }

    constructor (mode: Mode, id: nat)
      ensures Valid() && this.mode == mode && Value() == Fresh(id)
      ensures fresh(window) && fresh(lastWindow) && fresh(window.ring) && fresh(lastWindow.ring)
    {
      this.mode := mode;
      sessionId := id;
      remoteSessionId, lastRemoteSessionId, lastRemoteSeen := 0, 0, 0;
      remoteCipher, lastRemoteCipher := NoCipher, NoCipher;
      window := new SlidingWindow();
      lastWindow := new SlidingWindow();
    }

    method ReadPacket(p: Packet, clock: Clock) returns (r: Outcome)
      requires Valid()
      modifies this, window, lastWindow, window.ring, lastWindow.ring
      ensures Valid()
      ensures (Value(), r) == Receive(mode, old(Value()), p, clock)
      ensures window == old(window) || (fresh(window) && fresh(window.ring))
      ensures lastWindow == old(lastWindow) || lastWindow == old(window)
    {
      hide Gate, Record, RotationRefused, Valid;
      var cipher: Cipher;
      r, cipher := Admit(p, clock);
      if r != Delivered {
        return;
      }
      var recorded := Register(p, clock, cipher);
      if !recorded {
        return TooManySessions;
      }
      if p.clientSessionId != sessionId {
        return BadClientSession;
      }
      if !p.tailComplete {
        return BadTail;
      }
      return Delivered;
    }

    // Everything up to the freshness check, with the cipher that opened the packet.
    method Admit(p: Packet, clock: Clock) returns (r: Outcome, cipher: Cipher)
      requires Valid()
      ensures r == Gate(mode, Value(), p, clock)
      ensures r.Delivered? ==> cipher == if mode.SharedKey? then NoCipher else Opener(mode, Value(), p.sessionId)
    {
      cipher := NoCipher;
      if !p.longEnough {
        return TooShort, cipher;
      }
      if mode.SharedKey? && p.sealedUnder != KeyCipher {
        return Undecryptable, cipher;
      }
      if !p.idsComplete {
        return Truncated, cipher;
      }
      if p.sessionId == remoteSessionId {
        var ok := window.Check(p.packetId);
        if !ok {
          return NotUnique, cipher;
        }
      } else if p.sessionId == lastRemoteSessionId {
        var ok := lastWindow.Check(p.packetId);
        if !ok {
          return NotUnique, cipher;
        }
      }
      if mode.SessionKeys? {
        if p.sessionId == remoteSessionId {
          cipher := remoteCipher;
        } else if p.sessionId == lastRemoteSessionId {
          cipher := lastRemoteCipher;
        } else {
          cipher := SessionCipher(p.sessionId);
        }
        if cipher.NoCipher? {
          return Crash, cipher;
        }
        if p.sealedUnder != cipher {
          return Undecryptable, cipher;
        }
      }
      if !p.headComplete {
        return Truncated, cipher;
      }
      if p.headerType != SERVER_TYPE {
        return BadHeaderType, cipher;
      }
      if Skew(clock.checked, p.epoch) > FRESH_SECONDS {
        return BadTimestamp, cipher;
      }
      return Delivered, cipher;
    }

    // Records the packet in a window, after a rotation if its session is new.
    method Register(p: Packet, clock: Clock, cipher: Cipher) returns (recorded: bool)
      requires Valid() && cipher == if mode.SharedKey? then NoCipher else Opener(mode, Value(), p.sessionId)
      modifies this, window, lastWindow, window.ring, lastWindow.ring
      ensures Valid() && recorded == !RotationRefused(old(Value()), p, clock)
      ensures Value() == if recorded then Record(mode, old(Value()), p, clock) else old(Value())
      ensures window == old(window) || (fresh(window) && fresh(window.ring))
      ensures lastWindow == old(lastWindow) || lastWindow == old(window)
    {
      if p.sessionId == remoteSessionId {
        window.Add(p.packetId);
      } else if p.sessionId == lastRemoteSessionId {
        lastWindow.Add(p.packetId);
        lastRemoteSeen := clock.rule;
      } else {
        if remoteSessionId != 0 {
          if clock.rule - lastRemoteSeen < ROTATE_SECONDS {
            return false;
          }
          lastRemoteSessionId := remoteSessionId;
          lastWindow := window;  // the source copies the struct; the old object is not used again
          lastRemoteSeen := clock.stamp;
          lastRemoteCipher := remoteCipher;
          window := new SlidingWindow();
        }
        remoteSessionId := p.sessionId;
        remoteCipher := cipher;
        window.Add(p.packetId);
      }
      return true;
    }
  }
}
