/** The synchronous pipe of a stream as a step system: writers take turns, each offers its bytes until
    readers have taken them all or the pipe is closed or a deadline passes. */
module Pipe {
  import opened Connections

  /** A write: it waits for its turn, offers what is left, and returns how many bytes were taken. An empty
      write also waits for one reader. */
  datatype Writer =
    | Queued(data: seq<byte>)
    | Offering(data: seq<byte>, n: nat)
    | Wrote(data: seq<byte>, n: nat, ok: bool)

  datatype Reader = Waiting(size: nat) | Read(bytes: seq<byte>) | ReadFailed

  // turns lists the writers in the order in which they got their turn, served the readers that got bytes.
  datatype State = State(
    writers: map<nat, Writer>, readers: map<nat, Reader>, turns: seq<nat>, turn: bool, done: bool,
    served: seq<nat>)

  datatype Step =
    | StartWrite(w: nat, data: seq<byte>)
    | StartRead(r: nat, size: nat)
    | TakeTurn(w: nat)
    | Transfer(w: nat, r: nat)
    | GiveUpWrite(w: nat, deadline: bool)
    | GiveUpRead(r: nat, deadline: bool)
    | Close

  const EMPTY := State(map[], map[], [], false, false, [])

  function Min(a: nat, b: nat): nat { if a < b then a else b }

  // The reader takes as much as fits; the write ends when nothing is left.
  function Taken(data: seq<byte>, n: nat, taken: nat): Writer {
    if n + taken == |data| then Wrote(data, n + taken, true) else Offering(data, n + taken)
  }

  // A step that is not enabled does nothing.
  function Next(s: State, step: Step): State {
    match step
    case StartWrite(w, data) => if w in s.writers then s else s.(writers := s.writers[w := Queued(data)])
    case StartRead(r, size) => if r in s.readers then s else s.(readers := s.readers[r := Waiting(size)])
    case TakeTurn(w) =>
      if w in s.writers && s.writers[w].Queued? && !s.turn then
        s.(writers := s.writers[w := Offering(s.writers[w].data, 0)], turns := s.turns + [w], turn := true)
      else s
    case Transfer(w, r) =>
      if w in s.writers && s.writers[w].Offering? && s.writers[w].n <= |s.writers[w].data|
         && r in s.readers && s.readers[r].Waiting? then
        var data, n := s.writers[w].data, s.writers[w].n;
        var taken := Min(s.readers[r].size, |data| - n);
        s.(writers := s.writers[w := Taken(data, n, taken)], readers := s.readers[r := Read(data[n..n + taken])],
           served := s.served + [r], turn := Taken(data, n, taken).Offering?)
      else s
    case GiveUpWrite(w, deadline) =>
      if w in s.writers && (s.done || deadline) then
        match s.writers[w]
        case Queued(data) => s.(writers := s.writers[w := Wrote(data, 0, false)])
        case Offering(data, n) => s.(writers := s.writers[w := Wrote(data, n, false)], turn := false)
        case Wrote(_, _, _) => s
      else s
    case GiveUpRead(r, deadline) =>
      if r in s.readers && s.readers[r].Waiting? && (s.done || deadline) then s.(readers := s.readers[r := ReadFailed]) else s
    case Close => s.(done := true)
  }

  function Run(steps: seq<Step>): State {
    if steps == [] then EMPTY else Next(Run(steps[..|steps| - 1]), steps[|steps| - 1])
  }

  // ----- What was written, what was read -----

  function Count(w: Writer): nat { if w.Queued? then 0 else w.n }

  // The bytes taken from each write so far, in the order of turns.
  function TakenOf(writers: map<nat, Writer>, turns: seq<nat>): seq<byte>
    requires forall w <- turns :: w in writers && Count(writers[w]) <= |writers[w].data|
  {
    if turns == [] then []
    else
      var w := turns[|turns| - 1];
      TakenOf(writers, turns[..|turns| - 1]) + writers[w].data[..Count(writers[w])]
  }

  ghost predicate Counted(s: State) {
    && (forall w <- s.writers :: Count(s.writers[w]) <= |s.writers[w].data|)
    && (forall w <- s.writers :: s.writers[w].Wrote? && s.writers[w].ok ==> s.writers[w].n == |s.writers[w].data|)
    && (forall w <- s.writers :: w !in s.turns ==> Count(s.writers[w]) == 0)
  }

  // At most the last writer in turn is offering.
  ghost predicate InTurn(s: State) {
    && (forall w <- s.turns :: w in s.writers && !s.writers[w].Queued?)
    && (forall i, j :: 0 <= i < j < |s.turns| ==> s.turns[i] != s.turns[j])
    && (forall w <- s.writers :: s.writers[w].Offering? ==>
          s.turn && s.turns != [] && s.turns[|s.turns| - 1] == w)
  }

  // The bytes that readers returned, in the order in which they were served.
  function ReadBy(readers: map<nat, Reader>, served: seq<nat>): seq<byte>
    requires forall r <- served :: r in readers && readers[r].Read?
  {
    if served == [] then []
    else ReadBy(readers, served[..|served| - 1]) + readers[served[|served| - 1]].bytes
  }

  // Every reader that has returned bytes was served, once.
  ghost predicate ServedOnce(readers: map<nat, Reader>, served: seq<nat>) {
    && (forall r <- served :: r in readers && readers[r].Read?)
    && (forall i, j :: 0 <= i < j < |served| ==> served[i] != served[j])
    && (forall r <- readers :: readers[r].Read? ==> r in served)
  }

  ghost predicate Inv(s: State) {
    Counted(s) && InTurn(s) && ServedOnce(s.readers, s.served) && ReadBy(s.readers, s.served) == TakenOf(s.writers, s.turns)
  }

  // Only the readers that were served matter.
  lemma {:induction false} ReadSame(a: map<nat, Reader>, b: map<nat, Reader>, served: seq<nat>)
    requires forall r <- served :: r in a && a[r].Read? && r in b && b[r] == a[r]
    ensures ReadBy(a, served) == ReadBy(b, served)
    decreases |served|
  {
    if served != [] {
      ReadSame(a, b, served[..|served| - 1]);
    }
  }

  // Only the counts of the writers in turn matter.
  lemma {:induction false} TakenSame(a: map<nat, Writer>, b: map<nat, Writer>, turns: seq<nat>)
    requires forall w <- turns :: w in a && Count(a[w]) <= |a[w].data|
    requires forall w <- turns :: w in b && b[w].data == a[w].data && Count(b[w]) == Count(a[w])
    ensures TakenOf(a, turns) == TakenOf(b, turns)
    decreases |turns|
  {
    if turns != [] {
      TakenSame(a, b, turns[..|turns| - 1]);
    }
  }

  lemma {:induction false} OthersSame(a: map<nat, Writer>, b: map<nat, Writer>, turns: seq<nat>)
    requires turns != [] && forall i :: 0 <= i < |turns| - 1 ==> turns[i] != turns[|turns| - 1]
    requires forall w <- turns :: w in a && Count(a[w]) <= |a[w].data|
    requires forall w <- turns :: w in b && Count(b[w]) <= |b[w].data|
    requires forall w <- turns :: w != turns[|turns| - 1] ==> b[w] == a[w]
    ensures TakenOf(a, turns[..|turns| - 1]) == TakenOf(b, turns[..|turns| - 1])
  {
    var init := turns[..|turns| - 1];
    forall w | w in init ensures w in turns && w != turns[|turns| - 1] {
      var i :| 0 <= i < |init| && init[i] == w;
      assert turns[i] == w;
    }
    TakenSame(a, b, init);
  }

  lemma {:induction false} TakenLast(a: map<nat, Writer>, turns: seq<nat>)
    requires turns != [] && forall w <- turns :: w in a && Count(a[w]) <= |a[w].data|
    ensures var w := turns[|turns| - 1];
            TakenOf(a, turns) == TakenOf(a, turns[..|turns| - 1]) + a[w].data[..Count(a[w])]
  {
  }

  // One more reader has been served.
  lemma {:induction false} ReadLast(a: map<nat, Reader>, b: map<nat, Reader>, served: seq<nat>, r: nat)
    requires forall x <- served :: x in a && a[x].Read? && x in b && b[x] == a[x]
    requires r in b && b[r].Read?
    ensures ReadBy(b, served + [r]) == ReadBy(a, served) + b[r].bytes
  {
    ReadSame(a, b, served);
    assert (served + [r])[..|served|] == served;
  }

  // The last writer in turn has given some more.
  lemma {:induction false} TakenMore(
    a: map<nat, Writer>, b: map<nat, Writer>, turns: seq<nat>, more: seq<byte>)
    requires forall w <- turns :: w in a && Count(a[w]) <= |a[w].data|
    requires forall w <- turns :: w in b && Count(b[w]) <= |b[w].data|
    requires turns != [] && forall i :: 0 <= i < |turns| - 1 ==> turns[i] != turns[|turns| - 1]
    requires forall w <- turns :: w != turns[|turns| - 1] ==> b[w] == a[w]
    requires var w := turns[|turns| - 1];
             b[w].data == a[w].data && Count(a[w]) <= Count(b[w]) && more == a[w].data[Count(a[w])..Count(b[w])]
    ensures TakenOf(a, turns) + more == TakenOf(b, turns)
  {
    hide TakenOf;
    var last := |turns| - 1;
    var w := turns[last];
    OthersSame(a, b, turns);
    TakenLast(a, turns);
    TakenLast(b, turns);
    assert a[w].data[..Count(a[w])] + more == a[w].data[..Count(b[w])];
    assert TakenOf(a, turns[..last]) + a[w].data[..Count(a[w])] + more
        == TakenOf(a, turns[..last]) + (a[w].data[..Count(a[w])] + more);
  }

  lemma {:induction false} TransferKeepsOrder(s: State, w: nat, r: nat)
    requires Inv(s) && w in s.writers && s.writers[w].Offering? && r in s.readers && s.readers[r].Waiting?
    ensures Counted(Next(s, Transfer(w, r))) && InTurn(Next(s, Transfer(w, r)))
  {
    hide TakenOf, ReadBy;
  }

  lemma {:induction false} ServesOnce(s: State, w: nat, r: nat)
    requires ServedOnce(s.readers, s.served) && r in s.readers && s.readers[r].Waiting?
    ensures ServedOnce(Next(s, Transfer(w, r)).readers, Next(s, Transfer(w, r)).served)
  {
  }

  lemma {:induction false} TransferKeeps(s: State, w: nat, r: nat)
    requires Inv(s) && w in s.writers && s.writers[w].Offering? && r in s.readers && s.readers[r].Waiting?
    ensures Inv(Next(s, Transfer(w, r)))
  {
    hide TakenOf, ReadBy;
    TransferKeepsOrder(s, w, r);
    var after := Next(s, Transfer(w, r));
    var data, n := s.writers[w].data, s.writers[w].n;
    var taken := Min(s.readers[r].size, |data| - n);
    assert Count(after.writers[w]) == n + taken && after.writers[w].data == data;
    TakenMore(s.writers, after.writers, s.turns, data[n..n + taken]);
    ReadLast(s.readers, after.readers, s.served, r);
    ServesOnce(s, w, r);
  }

  lemma {:induction false} TurnKeepsOrder(s: State, w: nat)
    requires Inv(s) && w in s.writers && s.writers[w].Queued? && !s.turn
    ensures Counted(Next(s, TakeTurn(w))) && InTurn(Next(s, TakeTurn(w)))
  {
    hide TakenOf, ReadBy;
  }

  lemma {:induction false} TurnKeeps(s: State, w: nat)
    requires Inv(s) && w in s.writers && s.writers[w].Queued? && !s.turn
    ensures Inv(Next(s, TakeTurn(w)))
  {
    hide TakenOf, ReadBy;
    var after := Next(s, TakeTurn(w));
    TurnKeepsOrder(s, w);
    assert w !in s.turns;
    assert forall x <- s.served :: x in s.readers && s.readers[x].Read?;
    hide InTurn, ServedOnce;
    TakenSame(s.writers, after.writers, s.turns);
    TakenLast(after.writers, after.turns);
    assert after.turns[..|s.turns|] == s.turns;
    assert s.writers[w].data[..0] == [];
  }

  lemma {:induction false} StartWriteKeeps(s: State, w: nat, data: seq<byte>)
    requires Inv(s) && w !in s.writers
    ensures Inv(Next(s, StartWrite(w, data)))
  {
    hide TakenOf, ReadBy;
    TakenSame(s.writers, Next(s, StartWrite(w, data)).writers, s.turns);
  }

  lemma {:induction false} GiveUpKeepsCounts(s: State, w: nat, deadline: bool)
    requires Counted(s) && w in s.writers
    ensures Counted(Next(s, GiveUpWrite(w, deadline)))
  {
  }

  lemma {:induction false} GiveUpKeepsOrder(s: State, w: nat, deadline: bool)
    requires InTurn(s) && w in s.writers
    ensures InTurn(Next(s, GiveUpWrite(w, deadline)))
  {
  }

  lemma {:induction false} GiveUpKeeps(s: State, w: nat, deadline: bool)
    requires Inv(s) && w in s.writers
    ensures Inv(Next(s, GiveUpWrite(w, deadline)))
  {
    GiveUpKeepsCounts(s, w, deadline);
    GiveUpKeepsOrder(s, w, deadline);
    assert forall x <- s.served :: x in s.readers && s.readers[x].Read?;
    assert forall x <- s.turns :: x in s.writers;
    hide TakenOf, ReadBy, InTurn, ServedOnce;
    TakenSame(s.writers, Next(s, GiveUpWrite(w, deadline)).writers, s.turns);
  }

  // Nothing else touches the writers, or a reader that was served.
  lemma {:induction false} SameWritersKeep(s: State, after: State)
    requires Inv(s) && after.writers == s.writers && after.turns == s.turns && after.turn == s.turn
    requires after.served == s.served
    requires forall r <- s.readers :: s.readers[r].Read? ==> r in after.readers && after.readers[r] == s.readers[r]
    requires forall r <- after.readers :: after.readers[r].Read? ==> r in s.readers && s.readers[r].Read?
    ensures Inv(after)
  {
    hide TakenOf, ReadBy;
    ReadSame(s.readers, after.readers, s.served);
  }

  lemma {:induction false} StepKeeps(s: State, step: Step)
    requires Inv(s)
    ensures Inv(Next(s, step))
  {
    hide Inv, TakenOf, ReadBy, Min, Taken;
    match step {
      case TakeTurn(w) => if w in s.writers && s.writers[w].Queued? && !s.turn { TurnKeeps(s, w); }
      case Transfer(w, r) =>
        if w in s.writers && s.writers[w].Offering? && r in s.readers && s.readers[r].Waiting? { TransferKeeps(s, w, r); }
      case StartWrite(w, data) => if w !in s.writers { StartWriteKeeps(s, w, data); }
      case GiveUpWrite(w, deadline) => if w in s.writers { GiveUpKeeps(s, w, deadline); }
      case _ => SameWritersKeep(s, Next(s, step));
    }
  }

  lemma {:induction false} RunKeeps(steps: seq<Step>)
    ensures Inv(Run(steps))
    decreases |steps|
  {
    if steps != [] {
      RunKeeps(steps[..|steps| - 1]);
      StepKeeps(Run(steps[..|steps| - 1]), steps[|steps| - 1]);
    }
  }

  /** However readers, writers, closes and deadlines are interleaved, what the readers return, put together in
      the order in which they were served, is the first bytes of the writes in the order of their turns: as
      many of each as it returns, and all of them if it returns without an error. */
  lemma {:induction false} ReadsAreWrites(steps: seq<Step>)
    ensures var s := Run(steps);
            && (forall w <- s.turns :: w in s.writers && Count(s.writers[w]) <= |s.writers[w].data|)
            && (forall r <- s.served :: r in s.readers && s.readers[r].Read?)
            && ReadBy(s.readers, s.served) == TakenOf(s.writers, s.turns)
            && (forall r <- s.readers :: s.readers[r].Read? ==> r in s.served)
            && (forall i, j :: 0 <= i < j < |s.served| ==> s.served[i] != s.served[j])
            && (forall w <- s.writers :: s.writers[w].Wrote? && s.writers[w].ok ==> s.writers[w].n == |s.writers[w].data|)
            && (forall w <- s.writers :: w !in s.turns ==> Count(s.writers[w]) == 0)
  {
    RunKeeps(steps);
  }

  lemma {:induction false} NotTooMuch(steps: seq<Step>, w: nat)
    requires w in Run(steps).writers
    ensures Count(Run(steps).writers[w]) <= |Run(steps).writers[w].data|
  {
    RunKeeps(steps);
  }

  /** A reader that meets a writer gets the next bytes of that write, as many as the smaller of its own size and
      what the write has left, and the write goes on exactly if some are left; nobody else is affected. */
  lemma {:induction false} GetsWhatFits(steps: seq<Step>, w: nat, r: nat)
    requires var s := Run(steps);
             w in s.writers && s.writers[w].Offering? && r in s.readers && s.readers[r].Waiting?
    ensures Run(steps).writers[w].n <= |Run(steps).writers[w].data|
    ensures var s, t := Run(steps), Run(steps + [Transfer(w, r)]);
            var data, n, size := s.writers[w].data, s.writers[w].n, s.readers[r].size;
            var count := if size <= |data| - n then size else |data| - n;
            && t.readers == s.readers[r := Read(data[n..n + count])] && t.served == s.served + [r]
            && t.writers == s.writers[w := if n + count == |data| then Wrote(data, n + count, true)
                                           else Offering(data, n + count)]
            && t.turns == s.turns && t.turn == (n + count < |data|)
  {
    NotTooMuch(steps, w);
    assert (steps + [Transfer(w, r)])[..|steps|] == steps;
    assert Run(steps + [Transfer(w, r)]) == Next(Run(steps), Transfer(w, r));
    hide Run;
  }
}
