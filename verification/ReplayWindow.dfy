/** The anti-replay ring bitmap of Shadowsocks 2022 UDP (section 2 of RFC 6479).

    `SlidingWindow` is the in-place implementation over 128 words of 64 bits. Its methods are proved
    equal to the functions `Accepts`, `Added` and `Cleared` on the value `Window`; those functions are
    then proved to decide exactly what a filter that remembers the whole set of counters decides.

    Counters are naturals: the source subtracts only smaller values from larger ones, so none of its
    uint64 operations wraps. Its shift by 6 and masks 127 and 63 are division and remainder here. */
module ReplayWindow {
  const BLOCK_BITS: nat := 64
  const RING_BLOCKS: nat := 128
  const WINDOW_SIZE: nat := 8128  // (RING_BLOCKS - 1) * BLOCK_BITS

  type Ring = r: seq<bv64> | |r| == RING_BLOCKS witness seq(RING_BLOCKS, _ => 0)

  datatype Window = Window(last: nat, ring: Ring)

  predicate BitAt(word: bv64, bit: bv6) { (word >> bit) & 1 == 1 }

  function Block(counter: nat): nat { counter / BLOCK_BITS }

  function Slot(counter: nat): (i: nat)
    ensures i < RING_BLOCKS
  {
    Block(counter) % RING_BLOCKS
  }

  function Bit(counter: nat): bv6 { (counter % BLOCK_BITS) as bv6 }

  predicate Marked(ring: Ring, counter: nat) { BitAt(ring[Slot(counter)], Bit(counter)) }

  predicate Accepts(w: Window, counter: nat) {
    counter > w.last || (w.last - counter <= WINDOW_SIZE && !Marked(w.ring, counter))
  }

  // The ring after zeroing the `count` slots that follow block `from`.
  function Cleared(ring: Ring, from: nat, count: nat): Ring {
    if count == 0 then ring else Cleared(ring, from, count - 1)[(from + count) % RING_BLOCKS := 0]
  }

  function WithBit(word: bv64, bit: bv6): bv64 { word | (1 << bit) }

  function Mark(ring: Ring, counter: nat): Ring {
    ring[Slot(counter) := WithBit(ring[Slot(counter)], Bit(counter))]
  }

  function Min(a: nat, b: nat): nat { if a < b then a else b }

  function Added(w: Window, counter: nat): Window {
    if counter > w.last then
      var gap := Min(Block(counter) - Block(w.last), RING_BLOCKS);
      Window(counter, Mark(Cleared(w.ring, Block(w.last), gap), counter))
    else
      Window(w.last, Mark(w.ring, counter))
  }

  function Empty(): Window { Window(0, seq(RING_BLOCKS, _ => 0)) }

  // Only word 0 is cleared: the other words are dropped as `last` moves over them.
  function WasReset(w: Window): Window { Window(0, w.ring[0 := 0]) }

  lemma LowBit(word: bv64, bit: bv6)
    ensures (word >> bit) & 1 == 0 <==> !BitAt(word, bit)
  {
  }

  lemma NextSlot(index: nat, block: nat)
    requires index % RING_BLOCKS == block % RING_BLOCKS
    ensures (index + 1) % RING_BLOCKS == (block + 1) % RING_BLOCKS
  {
  }

  // ----- The in-place filter -----

  class SlidingWindow {
    var last: nat
    const ring: array<bv64>

    ghost predicate Valid() reads this { ring.Length == RING_BLOCKS }

    ghost function Value(): Window
      reads this, ring
      requires Valid()
    {
      Window(last, ring[..])
    }

    constructor ()
      ensures Valid() && fresh(ring) && Value() == Empty()
    {
      last := 0;
      ring := new bv64[RING_BLOCKS](_ => 0);
    }

    method Reset()
      requires Valid()
      modifies this, ring
      ensures Valid() && Value() == WasReset(old(Value()))
    {
      last := 0;
      ring[0] := 0;
    }

    method Check(counter: nat) returns (ok: bool)
      requires Valid()
      ensures ok == Accepts(Value(), counter)
    {
      if counter > last {
        return true;
      } else if last - counter > WINDOW_SIZE {
        return false;
      }
      var blockIndex := Block(counter) % RING_BLOCKS;
      var bitIndex := Bit(counter);
      var word := ring[blockIndex];
      ok := (word >> bitIndex) & 1 == 0;
      LowBit(word, bitIndex);
    }

    method Add(counter: nat)
      requires Valid()
      modifies this, ring
      ensures Valid() && Value() == Added(old(Value()), counter)
    {
      var blockIndex := Block(counter);
      if counter > last {
        var lastBlockIndex: nat := Block(last);
        var diff := blockIndex - lastBlockIndex;
        if diff > RING_BLOCKS {
          diff := RING_BLOCKS;
        }
        ghost var from, before := lastBlockIndex, Value().ring;
        for i := 0 to diff
          invariant last == old(last)
          invariant lastBlockIndex % RING_BLOCKS == (from + i) % RING_BLOCKS
          invariant ring[..] == Cleared(before, from, i)
        {
          NextSlot(lastBlockIndex, from + i);
          lastBlockIndex := (lastBlockIndex + 1) % RING_BLOCKS;
          ring[lastBlockIndex] := 0;
          assert ring[..] == Cleared(before, from, i)[lastBlockIndex := 0];
        }
        last := counter;
      }
      SetMark(counter);
    }

    // The last two lines of the source's Add: OR the bit into the word.
    method SetMark(counter: nat)
      requires Valid()
      modifies ring
      ensures Value().ring == Mark(old(Value().ring), counter)
    {
      var blockIndex := Block(counter) % RING_BLOCKS;
      var bitIndex := Bit(counter);
      ring[blockIndex] := WithBit(ring[blockIndex], bitIndex);
      assert ring[..] == Mark(old(ring[..]), counter);
    }
  }

  // ----- What one Add does to the bitmap -----

  lemma SetBit(word: bv64, i: bv6, j: bv6)
    ensures BitAt(WithBit(word, i), j) <==> i == j || BitAt(word, j)
  {
  }

  lemma LowBitsRoundTrip(i: nat)
    requires i < BLOCK_BITS
    ensures i as bv6 as int == i
  {
  }

  lemma LowBitsInjective(i: nat, j: nat)
    requires i < BLOCK_BITS && j < BLOCK_BITS && i as bv6 == j as bv6
    ensures i == j
  {
    LowBitsRoundTrip(i);
    LowBitsRoundTrip(j);
  }

  lemma BitInjective(c: nat, d: nat)
    requires Block(c) == Block(d) && Bit(c) == Bit(d)
    ensures c == d
  {
    LowBitsInjective(c % BLOCK_BITS, d % BLOCK_BITS);
  }

  lemma SlotsApart(a: nat, b: nat)
    requires a < b < a + 2 * RING_BLOCKS && b != a + RING_BLOCKS
    ensures a % RING_BLOCKS != b % RING_BLOCKS
  {
  }

  lemma {:induction false} OneRound(block: nat)
    ensures (block + RING_BLOCKS) % RING_BLOCKS == block % RING_BLOCKS
  {
  }

  lemma {:induction false} ClearedAt(ring: Ring, from: nat, count: nat, block: nat)
    requires count <= RING_BLOCKS
    requires from < block + RING_BLOCKS && block <= from + count
    ensures Cleared(ring, from, count)[block % RING_BLOCKS] ==
            if block > from || block + RING_BLOCKS <= from + count then 0
            else ring[block % RING_BLOCKS]
  {
    if count > 0 {
      if block + RING_BLOCKS == from + count {
        OneRound(block);
      } else if block < from + count {
        ClearedAt(ring, from, count - 1, block);
        SlotsApart(block, from + count);
      }
    }
  }

  lemma ClearedAll(ring: Ring, from: nat, slot: nat)
    requires slot < RING_BLOCKS
    ensures Cleared(ring, from, RING_BLOCKS)[slot] == 0
  {
    var start := from % RING_BLOCKS;
    var block := if slot > start then from + (slot - start) else from + (slot + RING_BLOCKS - start);
    assert block % RING_BLOCKS == slot;
    ClearedAt(ring, from, RING_BLOCKS, block);
  }

  // The counters whose block the ring of a filter with this `last` has room for.
  predicate Resident(last: nat, counter: nat) {
    Block(counter) <= Block(last) < Block(counter) + RING_BLOCKS
  }

  lemma InWindowIsResident(last: nat, counter: nat)
    requires counter <= last <= counter + WINDOW_SIZE
    ensures Resident(last, counter)
  {
  }

  // The word of a resident block just before the bit of `counter` is set.
  lemma WordBeforeMark(w: Window, counter: nat, other: nat)
    requires counter > w.last && Resident(counter, other)
    ensures var gap := Min(Block(counter) - Block(w.last), RING_BLOCKS);
            Cleared(w.ring, Block(w.last), gap)[Slot(other)] ==
            if Block(other) <= Block(w.last) then w.ring[Slot(other)] else 0
  {
    var from := Block(w.last);
    if Block(counter) - from >= RING_BLOCKS {
      ClearedAll(w.ring, from, Slot(other));
    } else {
      ClearedAt(w.ring, from, Block(counter) - from, Block(other));
    }
  }

  lemma SameBit(counter: nat, other: nat)
    requires Block(counter) == Block(other)
    ensures Bit(counter) == Bit(other) <==> counter == other
  {
    if Bit(counter) == Bit(other) {
      BitInjective(counter, other);
    }
  }

  lemma SameSlot(last: nat, counter: nat, other: nat)
    requires Resident(last, counter) && Resident(last, other)
    ensures Slot(counter) == Slot(other) <==> Block(counter) == Block(other)
  {
  }

  lemma MarkMarks(ring: Ring, last: nat, counter: nat, other: nat)
    requires Resident(last, counter) && Resident(last, other)
    ensures Marked(Mark(ring, counter), other) <==> other == counter || Marked(ring, other)
  {
    SameSlot(last, counter, other);
    var i, j := Bit(counter), Bit(other);
    var word := ring[Slot(counter)];
    SetBit(word, i, j);
    if Slot(counter) == Slot(other) {
      SameBit(counter, other);
      assert Mark(ring, counter)[Slot(other)] == WithBit(word, i);
    } else {
      assert Mark(ring, counter)[Slot(other)] == ring[Slot(other)];
    }
  }

  // Even a counter whose slot belongs to another block takes no mark away.
  lemma MarkKeeps(ring: Ring, counter: nat, other: nat)
    ensures Marked(ring, other) ==> Marked(Mark(ring, counter), other)
  {
  }

  // Adding marks `counter`, keeps every mark that stays resident, and raises no other.
  lemma AddedMarks(w: Window, counter: nat, other: nat)
    requires Resident(Added(w, counter).last, counter)
    requires Resident(Added(w, counter).last, other)
    ensures Marked(Added(w, counter).ring, other) <==>
            other == counter || (Block(other) <= Block(w.last) && Marked(w.ring, other))
  {
    if counter > w.last {
      WordBeforeMark(w, counter, other);
      var gap := Min(Block(counter) - Block(w.last), RING_BLOCKS);
      MarkMarks(Cleared(w.ring, Block(w.last), gap), counter, counter, other);
      assert !BitAt(0, Bit(other));
    } else {
      MarkMarks(w.ring, w.last, counter, other);
    }
  }

  // ----- What the filter decides, over whole runs -----

  // Every recorded counter that is not behind the window is refused.
  ghost predicate Sound(w: Window, seen: set<nat>) {
    forall c <- seen :: c <= w.last && (Resident(w.last, c) ==> Marked(w.ring, c))
  }

  // Moreover, every resident mark is a recorded counter.
  ghost predicate Exact(w: Window, seen: set<nat>) {
    Sound(w, seen) && forall c: nat :: Resident(w.last, c) && Marked(w.ring, c) ==> c in seen
  }

  // No guard: the source lets callers add a counter that Check would refuse.
  lemma AddKeepsSound(w: Window, seen: set<nat>, counter: nat)
    requires Sound(w, seen)
    ensures Sound(Added(w, counter), seen + {counter})
    ensures !Accepts(Added(w, counter), counter)
  {
    var w' := Added(w, counter);
    forall c <- seen + {counter} ensures c <= w'.last && (Resident(w'.last, c) ==> Marked(w'.ring, c)) {
      if Resident(w'.last, c) {
        AddKeepsMark(w, seen, counter, c);
      }
    }
    if w'.last - counter <= WINDOW_SIZE {
      InWindowIsResident(w'.last, counter);
      AddKeepsMark(w, seen, counter, counter);
    }
  }

  lemma AddKeepsMark(w: Window, seen: set<nat>, counter: nat, c: nat)
    requires Sound(w, seen) && c in seen + {counter} && Resident(Added(w, counter).last, c)
    ensures Marked(Added(w, counter).ring, c)
  {
    if Resident(Added(w, counter).last, counter) {
      AddedMarks(w, counter, c);
    } else {
      MarkKeeps(w.ring, counter, c);
    }
  }

  lemma AddKeepsExact(w: Window, seen: set<nat>, counter: nat)
    requires Exact(w, seen) && w.last <= counter + WINDOW_SIZE
    ensures Exact(Added(w, counter), seen + {counter})
  {
    AddKeepsSound(w, seen, counter);
    var w' := Added(w, counter);
    forall c: nat | Resident(w'.last, c) && Marked(w'.ring, c) ensures c in seen + {counter} {
      AddedMarks(w, counter, c);
    }
  }

  // The words Reset leaves behind belong to blocks it has forgotten.
  lemma ResetIsExact(w: Window)
    ensures Exact(WasReset(w), {})
  {
  }

  lemma EmptyIsExact()
    ensures Exact(Empty(), {})
  {
  }

  lemma SoundRefuses(w: Window, seen: set<nat>, counter: nat)
    requires Sound(w, seen) && counter in seen
    ensures !Accepts(w, counter)
  {
  }

  lemma CheckDecides(w: Window, seen: set<nat>, counter: nat)
    requires Exact(w, seen)
    ensures Accepts(w, counter) <==>
            counter > w.last || (counter + WINDOW_SIZE >= w.last && counter !in seen)
  {
  }

  // One use of a filter: a packet counter is checked and, if accepted, added; or the filter is reset.
  datatype Use = Offer(counter: nat) | Clear

  function Verdicts(w: Window, uses: seq<Use>): seq<bool>
    decreases |uses|
  {
    if uses == [] then []
    else match uses[0]
      case Clear => [true] + Verdicts(WasReset(w), uses[1..])
      case Offer(c) =>
        if Accepts(w, c) then [true] + Verdicts(Added(w, c), uses[1..])
        else [false] + Verdicts(w, uses[1..])
  }

  // The reference filter: the highest accepted counter and the set of all accepted counters.
  function ReferenceVerdicts(last: nat, seen: set<nat>, uses: seq<Use>): seq<bool>
    decreases |uses|
  {
    if uses == [] then []
    else match uses[0]
      case Clear => [true] + ReferenceVerdicts(0, {}, uses[1..])
      case Offer(c) =>
        if c > last || (c + WINDOW_SIZE >= last && c !in seen) then
          [true] + ReferenceVerdicts(if c > last then c else last, seen + {c}, uses[1..])
        else
          [false] + ReferenceVerdicts(last, seen, uses[1..])
  }

  lemma {:induction false} RingRefinesReferenceFrom(w: Window, seen: set<nat>, uses: seq<Use>)
    requires Exact(w, seen)
    ensures Verdicts(w, uses) == ReferenceVerdicts(w.last, seen, uses)
    decreases |uses|
  {
    if uses != [] {
      match uses[0]
      case Clear =>
        ResetIsExact(w);
        RingRefinesReferenceFrom(WasReset(w), {}, uses[1..]);
      case Offer(c) =>
        CheckDecides(w, seen, c);
        if Accepts(w, c) {
          AddKeepsExact(w, seen, c);
          RingRefinesReferenceFrom(Added(w, c), seen + {c}, uses[1..]);
        } else {
          RingRefinesReferenceFrom(w, seen, uses[1..]);
        }
    }
  }

  // For every run, including jumps past the whole ring and any number of resets.
  lemma RingRefinesReference(uses: seq<Use>)
    ensures Verdicts(Empty(), uses) == ReferenceVerdicts(0, {}, uses)
  {
    EmptyIsExact();
    RingRefinesReferenceFrom(Empty(), {}, uses);
  }
}
