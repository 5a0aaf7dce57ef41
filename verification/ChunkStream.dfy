/** The byte stream of an AEAD connection: what a list of chunks looks like on the wire. Every chunk is a
    sealed length and a sealed payload, each under the next nonce. */
module ChunkStream {
  import opened Connections
  import opened Options

  const OVERHEAD := 16
  const LENGTH_SIZE := 2
  const HEAD := 18

  type Nonce = seq<byte>

  // An authenticated cipher: what was sealed under a nonce opens under it to the same text.
  datatype Cipher = Cipher(seal: (Nonce, seq<byte>) -> seq<byte>, open: (Nonce, seq<byte>) -> Option<seq<byte>>)

  ghost predicate Lawful(c: Cipher) {
    forall n, text :: |c.seal(n, text)| == |text| + OVERHEAD && c.open(n, c.seal(n, text)) == Some(text)
  }

  // ----- Nonces -----

  // The number that a nonce spells, least significant byte first.
  function Value(nonce: Nonce): nat { if nonce == [] then 0 else nonce[0] + 0x100 * Value(nonce[1..]) }

  function Bound(n: nat): (b: nat)
    ensures b > 0
  {
    if n == 0 then 1 else 0x100 * Bound(n - 1)
  }

  function Increased(nonce: Nonce): (r: Nonce)
    ensures |r| == |nonce|
  {
    if nonce == [] then []
    else if nonce[0] == 0xFF then [0] + Increased(nonce[1..])
    else [nonce[0] + 1] + nonce[1..]
  }

  lemma {:induction false} ValueInBound(nonce: Nonce)
    ensures Value(nonce) < Bound(|nonce|)
  {
    if nonce != [] {
      ValueInBound(nonce[1..]);
    }
  }

  lemma {:induction false} IncreasedAddsOne(nonce: Nonce)
    ensures Value(Increased(nonce)) == if Value(nonce) + 1 == Bound(|nonce|) then 0 else Value(nonce) + 1
  {
    if nonce != [] {
      var rest := nonce[1..];
      ValueInBound(rest);
      IncreasedAddsOne(rest);
      assert Increased(nonce)[1..] == if nonce[0] == 0xFF then Increased(rest) else rest;
    }
  }

  lemma {:induction false} ZeroNonceIsZero(nonce: Nonce)
    requires forall i :: 0 <= i < |nonce| ==> nonce[i] == 0
    ensures Value(nonce) == 0
  {
    if nonce != [] {
      ZeroNonceIsZero(nonce[1..]);
    }
  }

  // The nonce after k steps.
  function Step(start: Nonce, k: nat): (r: Nonce)
    ensures |r| == |start|
  {
    if k == 0 then start else Increased(Step(start, k - 1))
  }

  lemma {:induction false} StepCounts(start: Nonce, k: nat)
    requires Value(start) == 0
    ensures Value(Step(start, k)) == k % Bound(|start|)
  {
    var b := Bound(|start|);
    if k == 0 {
      assert 0 % b == 0;
    } else {
      StepCounts(start, k - 1);
      IncreasedAddsOne(Step(start, k - 1));
      NextRemainder(k - 1, b);
    }
  }

  lemma {:induction false} NextRemainder(k: nat, b: nat)
    requires b > 0
    ensures (k + 1) % b == if k % b + 1 == b then 0 else k % b + 1
  {
    var q, r := k / b, k % b;
    assert k == q * b + r;
    if r + 1 == b {
      assert k + 1 == (q + 1) * b + 0;
      RemainderIs(k + 1, q + 1, 0, b);
    } else {
      RemainderIs(k + 1, q, r + 1, b);
    }
  }

  lemma {:induction false} RemainderIs(k: nat, q: nat, r: nat, b: nat)
    requires b > r && k == q * b + r
    ensures k % b == r
  {
    var q', r' := k / b, k % b;
    assert k == q' * b + r';
    assert (q' - q) * b == r - r';
    AtLeast(q' - q, b);
    AtLeast(q - q', b);
    assert (q - q') * b == r' - r;
  }

  lemma {:induction false} AtLeast(n: int, b: nat)
    requires b > 0
    ensures n >= 1 ==> n * b >= b
  {
  }

  lemma {:induction false} CarryOn(was: Nonce, i: nat, done: Nonce)
    requires i < |was| && Increased(was) == done + Increased(was[i..])
    ensures was[i] == 0xFF ==> Increased(was) == done + [0] + Increased(was[i + 1..])
    ensures was[i] != 0xFF ==> Increased(was) == done + [was[i] + 1] + was[i + 1..]
  {
  }

  lemma {:induction false} Updated(done: Nonce, was: Nonce, i: nat, b: byte)
    requires |done| == i < |was|
    ensures (done + was[i..])[i := b] == done + [b] + was[i + 1..]
  {
  }

  method IncreaseNonce(nonce: array<byte>)
    modifies nonce
    ensures nonce[..] == Increased(old(nonce[..]))
  {
    hide Increased;
    ghost var was := nonce[..];
    ghost var done: Nonce := [];
    assert was[0..] == was && done + Increased(was) == Increased(was) && done + was == was;
    var i := 0;
    while i < nonce.Length
      invariant 0 <= i <= nonce.Length == |was| && |done| == i
      invariant nonce[..] == done + was[i..]
      invariant Increased(was) == done + Increased(was[i..])
    {
      CarryOn(was, i, done);
      ghost var before := nonce[..];
      assert before[i] == was[i];
      nonce[i] := if nonce[i] == 0xFF then 0 else nonce[i] + 1;
      assert nonce[..] == before[i := nonce[i]];
      Updated(done, was, i, nonce[i]);
      if nonce[i] != 0 {
        return;
      }
      done, i := done + [0], i + 1;
    }
    assert was[|was|..] == [];
  }

  // ----- Chunks -----

  function SealedHead(c: Cipher, start: Nonce, k: nat, length: nat): seq<byte> {
    c.seal(Step(start, 2 * k), Put16(length % 0x1_0000))
  }

  function SealedBody(c: Cipher, start: Nonce, k: nat, chunk: seq<byte>): seq<byte> {
    c.seal(Step(start, 2 * k + 1), chunk)
  }

  predicate Fit(chunks: seq<seq<byte>>, limit: nat) { forall chunk <- chunks :: |chunk| <= limit }

  predicate Filled(chunks: seq<seq<byte>>) { forall chunk <- chunks :: chunk != [] }

  lemma {:induction false} FitsOneMore(chunks: seq<seq<byte>>, chunk: seq<byte>, limit: nat)
    requires Fit(chunks, limit) && Filled(chunks) && 0 < |chunk| <= limit
    ensures Fit(chunks + [chunk], limit) && Filled(chunks + [chunk])
  {
  }

  // What the chunks look like on the wire.
  function Sealed(c: Cipher, start: Nonce, chunks: seq<seq<byte>>): seq<byte> {
    if chunks == [] then []
    else
      var k := |chunks| - 1;
      Sealed(c, start, chunks[..k]) + SealedHead(c, start, k, |chunks[k]|) + SealedBody(c, start, k, chunks[k])
  }

  lemma {:induction false} SealedLast(c: Cipher, start: Nonce, chunks: seq<seq<byte>>, chunk: seq<byte>)
    ensures Sealed(c, start, chunks + [chunk]) ==
            Sealed(c, start, chunks) + SealedHead(c, start, |chunks|, |chunk|) + SealedBody(c, start, |chunks|, chunk)
    ensures Flat(chunks + [chunk]) == Flat(chunks) + chunk
  {
  }

  function SealedChunk(c: Cipher, start: Nonce, k: nat, chunk: seq<byte>): seq<byte> {
    SealedHead(c, start, k, |chunk|) + SealedBody(c, start, k, chunk)
  }

  lemma {:induction false} SealedGrows(
    c: Cipher, start: Nonce, prelude: seq<byte>, chunks: seq<seq<byte>>, chunk: seq<byte>)
    ensures prelude + Sealed(c, start, chunks + [chunk]) ==
            (prelude + Sealed(c, start, chunks)) + SealedChunk(c, start, |chunks|, chunk)
  {
  }

  // Where the next chunk lies in a part of the wire.
  lemma {:induction false} PrefixSealed(c: Cipher, start: Nonce, chunks: seq<seq<byte>>, k: nat, data: seq<byte>)
    requires Lawful(c) && k < |chunks| && data <= Sealed(c, start, chunks)
    ensures var at, chunk := |Sealed(c, start, chunks[..k])|, chunks[k];
            && |Sealed(c, start, chunks[..k + 1])| == at + HEAD + |chunk| + OVERHEAD
            && (at + HEAD <= |data| ==> data[at..at + HEAD] == SealedHead(c, start, k, |chunk|))
            && (at + HEAD + |chunk| + OVERHEAD <= |data| ==>
                  data[at + HEAD..at + HEAD + |chunk| + OVERHEAD] == SealedBody(c, start, k, chunk))
  {
    hide Sealed, SealedHead, SealedBody;
    var at, chunk := |Sealed(c, start, chunks[..k])|, chunks[k];
    assert chunks[..k + 1] == chunks[..k] + [chunk];
    SealedLast(c, start, chunks[..k], chunk);
    FirstChunksFirst(c, start, chunks, k + 1);
    SealedSizes(c, start, k, chunk);
  }

  lemma {:induction false} SealedSizes(c: Cipher, start: Nonce, k: nat, chunk: seq<byte>)
    requires Lawful(c)
    ensures |SealedHead(c, start, k, |chunk|)| == HEAD && |SealedBody(c, start, k, chunk)| == |chunk| + OVERHEAD
  {
  }

  lemma {:induction false} HeadSeals(c: Cipher, start: Nonce, k: nat, length: nat)
    requires length <= 0xFFFF
    ensures SealedHead(c, start, k, length) == c.seal(Step(start, 2 * k), Put16(length))
  {
  }

  lemma {:induction false} StepTwice(start: Nonce, k: nat)
    ensures Increased(Step(start, 2 * k)) == Step(start, 2 * k + 1)
    ensures Increased(Step(start, 2 * k + 1)) == Step(start, 2 * (k + 1))
  {
  }

  // Reserved bytes can go out in front of the first chunk only.
  lemma {:induction false} HeaderFirst(
    c: Cipher, start: Nonce, prelude: seq<byte>, header: seq<byte>, chunks: seq<seq<byte>>, chunk: seq<byte>)
    requires header == [] || chunks == []
    ensures (prelude + Sealed(c, start, chunks)) + (header + SealedChunk(c, start, |chunks|, chunk)) ==
            prelude + header + Sealed(c, start, chunks + [chunk])
  {
  }

  lemma {:induction false} FirstChunksFirst(c: Cipher, start: Nonce, chunks: seq<seq<byte>>, k: nat)
    requires k <= |chunks|
    ensures Sealed(c, start, chunks[..k]) <= Sealed(c, start, chunks)
    decreases |chunks| - k
  {
    hide Sealed, SealedHead, SealedBody;
    if k == |chunks| {
      assert chunks[..k] == chunks;
    } else {
      FirstChunksFirst(c, start, chunks, k + 1);
      assert chunks[..k + 1] == chunks[..k] + [chunks[k]];
      SealedLast(c, start, chunks[..k], chunks[k]);
    }
  }

  lemma {:induction false} FlatSplits(chunks: seq<seq<byte>>, k: nat)
    requires k < |chunks|
    ensures Flat(chunks[..k + 1]) == Flat(chunks[..k]) + chunks[k]
  {
    assert chunks[..k + 1][..k] == chunks[..k];
  }

  lemma {:induction false} FlatPrefix(chunks: seq<seq<byte>>, k: nat)
    requires k <= |chunks|
    ensures Flat(chunks[..k]) <= Flat(chunks)
    decreases |chunks| - k
  {
    if k == |chunks| {
      assert chunks[..k] == chunks;
    } else {
      FlatPrefix(chunks, k + 1);
      FlatSplits(chunks, k);
    }
  }
}
