/** The frame layout of an AnyTLS connection, and what a reader of a byte stream makes of it. */
module Frames {
  import opened Connections

  const WASTE: byte := 0
  const SYN: byte := 1
  const PSH: byte := 2
  const FIN: byte := 3
  const SETTINGS: byte := 4
  const ALERT: byte := 5
  const UPDATE_PADDING_SCHEME: byte := 6
  const SYNACK: byte := 7
  const HEART_REQUEST: byte := 8
  const HEART_RESPONSE: byte := 9
  const SERVER_SETTINGS: byte := 10

  const HEADER := 7

  type uint32 = n: int | 0 <= n < 0x1_0000_0000

  datatype Frame = Frame(cmd: byte, sid: uint32, data: seq<byte>)

  function Put32(n: uint32): (b: seq<byte>)
    ensures |b| == 4
  {
    Put16(n / 0x1_0000) + Put16(n % 0x1_0000)
  }

  function Get32(b: seq<byte>): (n: uint32)
    requires |b| == 4
  {
    Get16(b[..2]) * 0x1_0000 + Get16(b[2..])
  }

  function Header(cmd: byte, sid: uint32, length: int): (h: seq<byte>)
    requires 0 <= length
    ensures |h| == HEADER
  {
    [cmd] + Put32(sid) + Put16(length % 0x1_0000)
  }

  // The length field has 16 bits, and keeps only those of a longer frame.
  function Encode(f: Frame): seq<byte> { Header(f.cmd, f.sid, |f.data|) + f.data }

  function EncodeAll(frames: seq<Frame>): seq<byte> {
    if frames == [] then [] else EncodeAll(frames[..|frames| - 1]) + Encode(frames[|frames| - 1])
  }

  // Commands whose data the reader takes from the stream; after the others it reads the next header.
  predicate HasBody(cmd: byte) { cmd in {WASTE, PSH, SETTINGS, ALERT, UPDATE_PADDING_SCHEME, SYNACK, SERVER_SETTINGS} }

  predicate WellFormed(f: Frame) { |f.data| < 0x1_0000 && (f.data != [] ==> HasBody(f.cmd)) }

  function BodyLength(h: seq<byte>): (n: nat)
    requires |h| == HEADER
  {
    if HasBody(h[0]) then Get16(h[5..7]) else 0
  }

  datatype Parsed = Parsed(frames: seq<Frame>, rest: seq<byte>)

  // The frames that can be read in full, and the bytes that do not make up another one yet.
  function Parse(wire: seq<byte>): Parsed
    decreases |wire|
  {
    if |wire| < HEADER || |wire| < HEADER + BodyLength(wire[..HEADER]) then Parsed([], wire)
    else
      var n := HEADER + BodyLength(wire[..HEADER]);
      var tail := Parse(wire[n..]);
      Parsed([Frame(wire[0], Get32(wire[1..5]), wire[HEADER..n])] + tail.frames, tail.rest)
  }

  // The number that digits to the base of 256 stand for.
  function Places(digits: seq<int>): int {
    if digits == [] then 0 else Places(digits[..|digits| - 1]) * 256 + digits[|digits| - 1]
  }

  // Command, stream id and length, the numbers with their highest byte first.
  lemma {:induction false} HeaderLayout(cmd: byte, sid: uint32, length: int)
    requires 0 <= length < 0x1_0000
    ensures var h := Header(cmd, sid, length);
            && |h| == 7 && h[0] == cmd
            && Places([h[1], h[2], h[3], h[4]]) == sid && Places([h[5], h[6]]) == length
  {
    var h: seq<int> := Header(cmd, sid, length);
    TwoPlaces(h[5], h[6]);
    FourPlaces(h[1], h[2], h[3], h[4]);
  }

  lemma {:induction false} TwoPlaces(a: int, b: int)
    ensures Places([a, b]) == a * 256 + b
  {
    var one := [a];
    assert one[..0] == [] && Places(one) == a;
    assert [a, b][..1] == one;
  }

  lemma {:induction false} FourPlaces(a: int, b: int, c: int, d: int)
    ensures Places([a, b, c, d]) == ((a * 256 + b) * 256 + c) * 256 + d
  {
    TwoPlaces(a, b);
    assert [a, b, c][..2] == [a, b] && [a, b, c, d][..3] == [a, b, c];
  }

  lemma {:induction false} HeaderReads(cmd: byte, sid: uint32, length: int, tail: seq<byte>)
    requires 0 <= length
    ensures var w := Header(cmd, sid, length) + tail;
            && w[..HEADER] == Header(cmd, sid, length) && w[0] == cmd && Get32(w[1..5]) == sid
            && BodyLength(w[..HEADER]) == if HasBody(cmd) then length % 0x1_0000 else 0
  {
  }

  lemma {:induction false} ParseOne(f: Frame, tail: seq<byte>)
    requires WellFormed(f)
    ensures Parse(Encode(f) + tail) == Parsed([f] + Parse(tail).frames, Parse(tail).rest)
  {
    hide Header, HasBody, BodyLength, Get32;
    var w := Encode(f) + tail;
    assert w == Header(f.cmd, f.sid, |f.data|) + (f.data + tail);
    HeaderReads(f.cmd, f.sid, |f.data|, f.data + tail);
    assert w[HEADER..HEADER + |f.data|] == f.data && w[HEADER + |f.data|..] == tail;
  }

  // A frame survives the wire exactly when its length fits and the reader takes its data.
  lemma {:induction false} FrameRoundTripIff(f: Frame)
    ensures Parse(Encode(f)) == Parsed([f], []) <==> WellFormed(f)
  {
    var w := Encode(f);
    HeaderReads(f.cmd, f.sid, |f.data|, f.data);
    if WellFormed(f) {
      ParseOne(f, []);
      assert w + [] == w;
    } else if Parse(w).frames != [] {
      assert |Parse(w).frames[0].data| == BodyLength(w[..HEADER]) != |f.data|;
    }
  }

  // Whatever the bytes are, the reader sees frames that fit.
  lemma {:induction false} ParsedIsWellFormed(wire: seq<byte>)
    ensures AllWellFormed(Parse(wire).frames)
    decreases |wire|
  {
    if |wire| >= HEADER && |wire| >= HEADER + BodyLength(wire[..HEADER]) {
      ParsedIsWellFormed(wire[HEADER + BodyLength(wire[..HEADER])..]);
    }
  }

  ghost predicate AllWellFormed(frames: seq<Frame>) { forall f <- frames :: WellFormed(f) }

  lemma {:induction false} EncodeAllJoin(a: seq<Frame>, b: seq<Frame>)
    ensures EncodeAll(a + b) == EncodeAll(a) + EncodeAll(b)
    decreases |b|
  {
    hide Encode;
    if b == [] {
      assert a + b == a;
    } else {
      var last := |b| - 1;
      EncodeAllJoin(a, b[..last]);
      assert (a + b)[..|a + b| - 1] == a + b[..last];
    }
  }

  lemma {:induction false} ParseJoin(frames: seq<Frame>, tail: seq<byte>)
    requires AllWellFormed(frames)
    ensures Parse(EncodeAll(frames) + tail) == Parsed(frames + Parse(tail).frames, Parse(tail).rest)
    decreases |frames|
  {
    hide Encode, Parse, WellFormed;
    if frames == [] {
      assert EncodeAll(frames) + tail == tail && frames + Parse(tail).frames == Parse(tail).frames;
    } else {
      var init, f := frames[..|frames| - 1], frames[|frames| - 1];
      ParseJoin(init, Encode(f) + tail);
      ParseOne(f, tail);
      assert EncodeAll(frames) + tail == EncodeAll(init) + (Encode(f) + tail);
      assert init + ([f] + Parse(tail).frames) == frames + Parse(tail).frames;
    }
  }

  lemma {:induction false} TooShortToParse(wire: seq<byte>)
    requires |wire| < HEADER
    ensures Parse(wire) == Parsed([], wire)
  {
  }

  // Cutting the stream anywhere loses frames from the end only.
  lemma {:induction false} PrefixParses(wire: seq<byte>, frames: seq<Frame>)
    requires AllWellFormed(frames) && wire <= EncodeAll(frames)
    ensures Parse(wire).frames <= frames
    decreases |frames|
  {
    hide Encode, WellFormed, Parse;
    if frames == [] {
      TooShortToParse(wire);
    } else {
      var init, f := frames[..|frames| - 1], frames[|frames| - 1];
      var whole := EncodeAll(init);
      assert EncodeAll(frames) == whole + Encode(f) && AllWellFormed(init) && WellFormed(f);
      hide EncodeAll, AllWellFormed;
      if |wire| <= |whole| {
        assert wire <= whole;
        PrefixParses(wire, init);
      } else {
        EndsWithin(init, f, wire);
        assert init + [f] == frames;
      }
    }
  }

  // The cut goes through the last frame.
  lemma {:induction false} EndsWithin(init: seq<Frame>, f: Frame, wire: seq<byte>)
    requires AllWellFormed(init) && WellFormed(f) && EncodeAll(init) <= wire <= EncodeAll(init) + Encode(f)
    ensures Parse(wire).frames <= init + [f]
  {
    hide Encode, EncodeAll, Parse, WellFormed, AllWellFormed;
    var part := wire[|EncodeAll(init)|..];
    assert wire == EncodeAll(init) + part && part <= Encode(f);
    ParseJoin(init, part);
    PartOfOne(f, part);
  }

  lemma {:induction false} PartOfOne(f: Frame, part: seq<byte>)
    requires WellFormed(f) && part <= Encode(f)
    ensures Parse(part).frames == [] || (part == Encode(f) && Parse(part).frames == [f])
  {
    var whole := Encode(f);
    HeaderReads(f.cmd, f.sid, |f.data|, f.data);
    if |part| == |whole| {
      assert part == whole && whole + [] == whole;
      ParseOne(f, []);
    } else if |part| >= HEADER {
      assert part[..HEADER] == whole[..HEADER];
    }
  }

  // ----- Padding -----

  // A waste frame as the writer builds it: the length field keeps 16 bits of the padding's length.
  function Waste(n: nat): seq<byte> { Header(WASTE, 0, n) + Zeros(n) }

  function Strip(frames: seq<Frame>): seq<Frame> {
    if frames == [] then []
    else Strip(frames[..|frames| - 1])
         + if frames[|frames| - 1].cmd == WASTE then [] else [frames[|frames| - 1]]
  }

  lemma {:induction false} StripJoin(a: seq<Frame>, b: seq<Frame>)
    ensures Strip(a + b) == Strip(a) + Strip(b)
    decreases |b|
  {
    if b == [] {
      assert a + b == a;
    } else {
      StripJoin(a, b[..|b| - 1]);
      assert (a + b)[..|a + b| - 1] == a + b[..|b| - 1];
    }
  }

  lemma {:induction false} StripKeepsWellFormed(frames: seq<Frame>)
    requires AllWellFormed(frames)
    ensures AllWellFormed(Strip(frames))
    decreases |frames|
  {
    if frames != [] {
      StripKeepsWellFormed(frames[..|frames| - 1]);
    }
  }

  predicate OnlyWaste(frames: seq<Frame>) { forall f <- frames :: f.cmd == WASTE }

  // The bytes beyond the 16-bit length read as empty waste frames of seven zeros each.
  predicate Whole(n: nat) { (n / 0x1_0000) % 7 == 0 }

  function EmptyWaste(k: nat): seq<Frame> { seq(k, i => Frame(WASTE, 0, [])) }

  lemma {:induction false} EmptyWasteIsZeros()
    ensures Encode(Frame(WASTE, 0, [])) == Zeros(7) && WellFormed(Frame(WASTE, 0, []))
  {
  }

  lemma {:induction false} ZerosParse(k: nat, extra: nat)
    requires extra < 7
    ensures Parse(Zeros(7 * k + extra)) == Parsed(EmptyWaste(k), Zeros(extra))
    ensures extra == 0 ==> EncodeAll(EmptyWaste(k)) == Zeros(7 * k)
    decreases k
  {
    hide Encode, Parse;
    var z := Zeros(7 * k + extra);
    if k == 0 {
      TooShortToParse(z);
      assert EmptyWaste(0) == [] && z == Zeros(extra);
    } else {
      var empty := Frame(WASTE, 0, []);
      ZerosParse(k - 1, extra);
      EmptyWasteIsZeros();
      ParseOne(empty, Zeros(7 * (k - 1) + extra));
      assert z == Encode(empty) + Zeros(7 * (k - 1) + extra);
      assert EmptyWaste(k) == [empty] + EmptyWaste(k - 1);
      if extra == 0 {
        assert EmptyWaste(k)[..k - 1] == EmptyWaste(k - 1);
        assert Zeros(7 * k) == Zeros(7 * (k - 1)) + Zeros(7);
      }
    }
  }

  // What the reader takes a padding for.
  function WasteFrames(n: nat): seq<Frame> { [Frame(WASTE, 0, Zeros(n % 0x1_0000))] + EmptyWaste(n / 0x1_0000 * 0x1_0000 / 7) }

  lemma {:induction false} WasteSplits(n: nat)
    ensures Waste(n) == Encode(Frame(WASTE, 0, Zeros(n % 0x1_0000))) + Zeros(n / 0x1_0000 * 0x1_0000)
    ensures WellFormed(Frame(WASTE, 0, Zeros(n % 0x1_0000)))
  {
    assert Zeros(n) == Zeros(n % 0x1_0000) + Zeros(n / 0x1_0000 * 0x1_0000);
    assert n % 0x1_0000 % 0x1_0000 == n % 0x1_0000;
    assert Header(WASTE, 0, n) == Header(WASTE, 0, n % 0x1_0000);
  }

  // A multiple of 65536 is one of seven exactly if the factor is.
  lemma {:induction false} SevensIn(k: nat)
    ensures k * 0x1_0000 % 7 == 0 <==> k % 7 == 0
  {
    assert k * 0x1_0000 == 7 * (9362 * k) + 2 * k;
  }

  lemma {:induction false} WholeIs(n: nat)
    ensures n / 0x1_0000 * 0x1_0000 % 7 == 0 <==> Whole(n)
  {
    SevensIn(n / 0x1_0000);
  }

  // Padding is whole waste frames exactly when the part cut off its length is a multiple of seven.
  lemma {:induction false} WasteIsWholeIff(n: nat)
    ensures OnlyWaste(WasteFrames(n)) && AllWellFormed(WasteFrames(n))
    ensures Parse(Waste(n)).frames == WasteFrames(n)
    ensures Parse(Waste(n)).rest == [] <==> Whole(n)
    ensures Whole(n) ==> EncodeAll(WasteFrames(n)) == Waste(n)
  {
    WasteFramesFit(n);
    hide Encode, EncodeAll, Parse, HasBody, BodyLength, Waste, Whole, WellFormed;
    var short, cut := n % 0x1_0000, n / 0x1_0000 * 0x1_0000;
    var k, extra := cut / 7, cut % 7;
    var first := Frame(WASTE, 0, Zeros(short));
    WasteSplits(n);
    ParseOne(first, Zeros(cut));
    ZerosParse(k, extra);
    WholeIs(n);
    EncodeAllJoin([first], EmptyWaste(k));
    EncodeOne(first);
  }

  lemma {:induction false} EncodeOne(f: Frame)
    ensures EncodeAll([f]) == Encode(f)
  {
    assert [f][..0] == [];
  }

  lemma {:induction false} WasteFramesFit(n: nat)
    ensures OnlyWaste(WasteFrames(n)) && AllWellFormed(WasteFrames(n))
  {
  }

  lemma {:induction false} StripWaste(frames: seq<Frame>)
    requires OnlyWaste(frames)
    ensures Strip(frames) == []
    decreases |frames|
  {
    if frames != [] {
      StripWaste(frames[..|frames| - 1]);
    }
  }
}
