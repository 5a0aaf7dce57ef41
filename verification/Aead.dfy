/** Writer and Reader of an AEAD connection: payload is cut into chunks that are sealed in the writer's
    buffer, and chunks are opened in the reader's. The bytes read are the bytes written. */
module Aead {
  import opened Connections
  import opened ChunkStream

  // s with bytes put in place from position at on.
  function Splice(s: seq<byte>, at: nat, bytes: seq<byte>): (r: seq<byte>)
    requires at + |bytes| <= |s|
    ensures |r| == |s|
  {
    s[..at] + bytes + s[at + |bytes|..]
  }

  method Copy(dst: array<byte>, at: nat, bytes: seq<byte>)
    requires at + |bytes| <= dst.Length
    modifies dst
    ensures dst[..] == Splice(old(dst[..]), at, bytes)
  {
    ghost var was := dst[..];
    var i := 0;
    assert Splice(was, at, bytes[..0]) == was;
    while i < |bytes|
      invariant 0 <= i <= |bytes| && dst[..] == Splice(was, at, bytes[..i])
    {
      ghost var before := dst[..];
      dst[at + i] := bytes[i];
      assert dst[..] == before[at + i := bytes[i]];
      SpliceOne(was, at, bytes, i);
      i := i + 1;
    }
    assert bytes[..|bytes|] == bytes;
  }

  lemma {:induction false} SpliceOne(s: seq<byte>, at: nat, bytes: seq<byte>, i: nat)
    requires at + |bytes| <= |s| && i < |bytes|
    ensures Splice(s, at, bytes[..i])[at + i := bytes[i]] == Splice(s, at, bytes[..i + 1])
  {
  }

  lemma {:induction false} SpliceTwice(s: seq<byte>, at: nat, first: seq<byte>, second: seq<byte>)
    requires at + |first| + |second| <= |s|
    ensures Splice(Splice(s, at, first), at + |first|, second) == Splice(s, at, first + second)
  {
  }

  lemma {:induction false} SpliceOver(s: seq<byte>, at: nat, first: seq<byte>, second: seq<byte>)
    requires at + |second| <= |s| && |first| <= |second|
    ensures Splice(Splice(s, at, first), at, second) == Splice(s, at, second)
  {
  }

  lemma {:induction false} SpliceRead(s: seq<byte>, at: nat, bytes: seq<byte>)
    requires at + |bytes| <= |s|
    ensures Splice(s, at, bytes)[at..at + |bytes|] == bytes
    ensures Splice(s, at, bytes)[..at] == s[..at]
    ensures Splice(s, at, bytes)[at + |bytes|..] == s[at + |bytes|..]
  {
  }

  lemma {:induction false} SpliceFront(s: seq<byte>, at: nat, bytes: seq<byte>)
    requires at + |bytes| <= |s|
    ensures Splice(s, at, bytes)[..at + |bytes|] == s[..at] + bytes
  {
  }

  lemma {:induction false} Progress(flat: seq<byte>, p: seq<byte>, n: nat, data: seq<byte>)
    requires n + |data| <= |p| && data == p[n..n + |data|]
    ensures flat + p[..n] + data == flat + p[..n + |data|]
    ensures flat + p[..n] <= flat + p[..n + |data|] <= flat + p
  {
  }

  lemma {:induction false} Extended(s: seq<byte>, from: nat, n: nat, bytes: seq<byte>)
    requires from + n + |bytes| <= |s|
    ensures var t := Splice(s, from + n, bytes);
            t[from..from + n + |bytes|] == s[from..from + n] + bytes && t[..from] == s[..from]
  {
  }

  // ----- Writing -----

  class Writer {
    const upstream: Conn
    const cipher: Cipher
    const maxPacketSize: nat
    const buffer: array<byte>
    const nonce: array<byte>
    ghost const start: Nonce
    // What went out before the first chunk, and the chunks sealed so far.
    ghost var prelude: seq<byte>
    ghost var chunks: seq<seq<byte>>

    ghost predicate Valid()
      reads this, upstream, buffer, nonce
    {
      && Lawful(cipher) && 0 < maxPacketSize <= 0xFFFF
      && buffer.Length == maxPacketSize + HEAD + OVERHEAD && buffer != nonce
      && nonce[..] == Step(start, 2 * |chunks|) && Fit(chunks, maxPacketSize) && Filled(chunks)
      && Sent()
    }

    // After a failed write, only a part of what was sealed has gone out.
    ghost predicate Sent()
      reads this, upstream
    {
      && upstream.wire <= prelude + Sealed(cipher, start, chunks)
      && (!upstream.broken ==> upstream.wire == prelude + Sealed(cipher, start, chunks))
    }

    constructor (upstream: Conn, cipher: Cipher, nonceSize: nat, maxPacketSize: nat)
      requires Lawful(cipher) && 0 < maxPacketSize <= 0xFFFF
      ensures Valid() && this.upstream == upstream && this.cipher == cipher && this.maxPacketSize == maxPacketSize
      ensures chunks == [] && prelude == upstream.wire && Value(start) == 0 && |start| == nonceSize
      ensures fresh(buffer) && fresh(nonce)
    {
      this.upstream, this.cipher, this.maxPacketSize := upstream, cipher, maxPacketSize;
      buffer := new byte[maxPacketSize + HEAD + OVERHEAD](i => 0);
      nonce := new byte[nonceSize](i => 0);
      prelude, chunks, start := upstream.wire, [], Zeros(nonceSize);
      new;
      assert nonce[..] == start;
      ZeroNonceIsZero(start);
      assert prelude + [] == prelude;
    }

    /** Seals one chunk in the buffer, the length first. The data is sealed in place when it is already
        there, as a buffered writer has it. */
    method SealChunk(at: nat, data: seq<byte>)
      requires Lawful(cipher) && nonce[..] == Step(start, 2 * |chunks|) && buffer != nonce
      requires at + HEAD + |data| + OVERHEAD <= buffer.Length
      modifies buffer, nonce, `chunks
      ensures chunks == old(chunks) + [data] && nonce[..] == Step(start, 2 * |chunks|)
      ensures buffer[..] == Splice(old(buffer[..]), at,
                                   SealedChunk(cipher, start, |old(chunks)|, data))
      ensures |SealedChunk(cipher, start, |old(chunks)|, data)| == HEAD + |data| + OVERHEAD
    {
      hide Step, Splice, Lawful, Put16;
      ghost var was, k := buffer[..], |chunks|;
      StepTwice(start, k);
      SealedSizes(cipher, start, k, data);
      var length := Put16(|data| % 0x1_0000);
      Copy(buffer, at, length);
      SpliceRead(was, at, length);
      assert buffer[at..at + LENGTH_SIZE] == buffer[..][at..at + LENGTH_SIZE];
      var head := cipher.seal(nonce[..], buffer[at..at + LENGTH_SIZE]);
      Copy(buffer, at, head);
      SpliceOver(was, at, length, head);
      IncreaseNonce(nonce);
      var body := cipher.seal(nonce[..], data);
      Copy(buffer, at + HEAD, body);
      SpliceTwice(was, at, head, body);
      IncreaseNonce(nonce);
      chunks := chunks + [data];
    }

    // Sends the first n bytes of the buffer.
    method SendFront(n: nat, ghost before: seq<byte>, ghost added: seq<byte>) returns (ok: bool)
      requires upstream.wire <= before && (!upstream.broken ==> upstream.wire == before)
      requires n <= buffer.Length && buffer[..n] == added
      modifies upstream
      ensures upstream.wire <= before + added && (!upstream.broken ==> upstream.wire == before + added)
      ensures ok ==> !upstream.broken
      ensures !ok ==> upstream.broken
    {
      ok := upstream.Write(buffer[..n]);
    }

    method WriteOne(data: seq<byte>) returns (ok: bool)
      requires Valid() && 0 < |data| <= maxPacketSize
      modifies upstream, buffer, nonce, `chunks
      ensures Valid() && chunks == old(chunks) + [data]
      ensures ok ==> !upstream.broken
      ensures !ok ==> upstream.broken
    {
      hide Sealed, SealedChunk, Lawful, Step;
      ghost var was, wire := buffer[..], prelude + Sealed(cipher, start, chunks);
      ghost var sealed := SealedChunk(cipher, start, |chunks|, data);
      SealedGrows(cipher, start, prelude, chunks, data);
      SealChunk(0, data);
      SpliceRead(was, 0, sealed);
      assert buffer[..HEAD + |data| + OVERHEAD] == buffer[..][0..0 + |sealed|];
      ok := SendFront(HEAD + |data| + OVERHEAD, wire, sealed);
    }

    // A write of no bytes sends nothing, so no chunk is ever empty.
    method Write(p: seq<byte>) returns (n: nat, ok: bool)
      requires Valid()
      modifies upstream, buffer, nonce, `chunks
      ensures Valid()
      ensures n <= |p| && Flat(old(chunks)) + p[..n] <= Flat(chunks) <= Flat(old(chunks)) + p
      ensures ok ==> n == |p| && Flat(chunks) == Flat(old(chunks)) + p
      ensures ok && p != [] ==> !upstream.broken
      ensures !ok ==> upstream.broken
    {
      hide Valid, Flat, Sealed;
      n, ok := 0, true;
      ghost var flat := Flat(chunks);
      assert flat + p[..0] == flat;
      while n < |p|
        invariant Valid() && n <= |p| && ok
        invariant Flat(chunks) == flat + p[..n]
        invariant n > 0 ==> !upstream.broken
      {
        MaxIsPositive();
        var data := if |p| - n > maxPacketSize then p[n..n + maxPacketSize] else p[n..];
        SealedLast(cipher, start, chunks, data);
        Progress(flat, p, n, data);
        ok := WriteOne(data);
        if !ok {
          return;
        }
        n := n + |data|;
      }
      assert p[..n] == p;
    }

    lemma MaxIsPositive()
      requires Valid()
      ensures maxPacketSize > 0
    {
    }
  }

  /** Collects small writes in the writer's own buffer, behind some reserved bytes that go out with the
      first chunk. Writing to the writer itself in between would overwrite what is collected. */
  class BufferedWriter {
    const upstream: Writer
    var reversed: nat
    var index: nat

    ghost predicate Valid()
      reads this, upstream, upstream.upstream, upstream.buffer, upstream.nonce
    {
      && upstream.Valid() && reversed + index <= upstream.maxPacketSize
      && (reversed > 0 ==> upstream.chunks == [])
    }

    // What is collected and not sealed yet.
    ghost function Pending(): seq<byte>
      requires HEAD + reversed + index <= upstream.buffer.Length
      reads this, upstream.buffer
    {
      upstream.buffer[..][HEAD + reversed..HEAD + reversed + index]
    }

    // All bytes written so far, sent or not.
    ghost function Written(): seq<byte>
      requires HEAD + reversed + index <= upstream.buffer.Length
      reads this, upstream, upstream.buffer
    {
      Flat(upstream.chunks) + Pending()
    }

    constructor (upstream: Writer, reversed: nat)
      requires upstream.Valid() && reversed <= upstream.maxPacketSize && (reversed > 0 ==> upstream.chunks == [])
      ensures Valid() && this.upstream == upstream && this.reversed == reversed && index == 0
      ensures Written() == Flat(upstream.chunks)
    {
      this.upstream, this.reversed, this.index := upstream, reversed, 0;
      new;
      assert Pending() == [];
    }

    method FlushHeader() returns (ok: bool)
      requires Valid() && index == 0 && reversed > 0
      modifies this`reversed, upstream.upstream, upstream`prelude
      ensures Valid() && reversed == 0
      ensures upstream.prelude == old(upstream.prelude) + old(upstream.buffer[..][..reversed])
      ensures ok ==> !upstream.upstream.broken
      ensures !ok ==> upstream.upstream.broken
    {
      ghost var header := upstream.buffer[..][..reversed];
      assert upstream.buffer[..reversed] == header;
      assert upstream.prelude + [] == upstream.prelude;
      assert upstream.prelude + header + [] == upstream.prelude + header;
      ok := upstream.SendFront(reversed, upstream.prelude, header);
      upstream.prelude := upstream.prelude + header;
      reversed := 0;
    }

    // Seals what is collected behind the reserved header, ready to go out.
    method SealPending() returns (n: nat)
      requires Valid() && index > 0
      modifies upstream.buffer, upstream.nonce, upstream`chunks
      ensures n <= upstream.buffer.Length
      ensures upstream.buffer[..n] == old(upstream.buffer[..][..reversed])
                + SealedChunk(upstream.cipher, upstream.start, |old(upstream.chunks)|, old(Pending()))
      ensures upstream.chunks == old(upstream.chunks) + [old(Pending())]
      ensures upstream.nonce[..] == Step(upstream.start, 2 * |upstream.chunks|)
    {
      hide Sealed, SealedChunk, Lawful, Step, Fit, Filled, Splice;
      ghost var was, before := upstream.buffer[..], upstream.chunks;
      ghost var collected := Pending();
      var data := upstream.buffer[HEAD + reversed..HEAD + reversed + index];
      assert data == collected;
      upstream.SealChunk(reversed, data);
      SpliceFront(was, reversed, SealedChunk(upstream.cipher, upstream.start, |before|, collected));
      n := reversed + HEAD + index + OVERHEAD;
      assert upstream.buffer[..n] == upstream.buffer[..][..n];
    }

    method FlushChunk() returns (ok: bool)
      requires Valid() && index > 0
      modifies this, upstream.upstream, upstream.buffer, upstream.nonce, upstream`chunks, upstream`prelude
      ensures Valid() && reversed == 0 && index == 0
      ensures upstream.chunks == old(upstream.chunks) + [old(Pending())]
      ensures upstream.prelude == old(upstream.prelude) + old(upstream.buffer[..][..reversed])
      ensures ok ==> !upstream.upstream.broken
      ensures !ok ==> upstream.upstream.broken
    {
      hide Sealed, SealedChunk, Lawful, Step, Fit, Filled;
      ghost var before, header, collected := upstream.chunks, upstream.buffer[..][..reversed], Pending();
      ghost var wire := upstream.prelude + Sealed(upstream.cipher, upstream.start, before);
      ghost var sealed := SealedChunk(upstream.cipher, upstream.start, |before|, collected);
      HeaderFirst(upstream.cipher, upstream.start, upstream.prelude, header, before, collected);
      FitsOneMore(before, collected, upstream.maxPacketSize);
      var n := SealPending();
      ok := upstream.SendFront(n, wire, header + sealed);
      upstream.prelude := upstream.prelude + header;
      reversed, index := 0, 0;
    }

    method Flush() returns (ok: bool)
      requires Valid()
      modifies this, upstream.upstream, upstream.buffer, upstream.nonce, upstream`chunks, upstream`prelude
      ensures Valid() && reversed == 0 && index == 0
      ensures upstream.chunks == old(upstream.chunks) + if old(index) == 0 then [] else [old(Pending())]
      ensures upstream.prelude == old(upstream.prelude) + old(upstream.buffer[..][..reversed])
      ensures Written() == old(Written())
      ensures ok && (old(index) > 0 || old(reversed) > 0) ==> !upstream.upstream.broken
      ensures !ok ==> upstream.upstream.broken
    {
      hide Sealed, Lawful, Step;
      SealedLast(upstream.cipher, upstream.start, upstream.chunks, Pending());
      assert forall s: seq<byte> :: s + [] == s;
      if index == 0 {
        if reversed > 0 {
          ok := FlushHeader();
          return;
        }
        return true;
      }
      ok := FlushChunk();
    }

    method Collect(bytes: seq<byte>)
      requires Valid() && reversed + index + |bytes| <= upstream.maxPacketSize
      modifies this`index, upstream.buffer
      ensures Valid() && index == old(index) + |bytes| && Written() == old(Written()) + bytes
      ensures upstream.buffer[..][..reversed] == old(upstream.buffer[..][..reversed])
    {
      hide Sealed, Lawful, Step, Flat, Fit, Filled, Splice;
      ghost var was := upstream.buffer[..];
      Copy(upstream.buffer, HEAD + reversed + index, bytes);
      Extended(was, HEAD + reversed, index, bytes);
      index := index + |bytes|;
      assert Flat(upstream.chunks) + (was[HEAD + reversed..HEAD + reversed + old(index)] + bytes) == old(Written()) + bytes;
    }

    lemma InRoom()
      requires Valid()
      ensures reversed + index <= upstream.maxPacketSize && upstream.maxPacketSize > 0
      ensures upstream.buffer.Length == upstream.maxPacketSize + HEAD + OVERHEAD
    {
    }

    // Everything written before and now has been sent or is still collected, in order.
    method Write(p: seq<byte>) returns (n: nat, ok: bool)
      requires Valid()
      modifies this, upstream.upstream, upstream.buffer, upstream.nonce, upstream`chunks, upstream`prelude
      ensures Valid()
      ensures ok ==> n == |p| && Written() == old(Written()) + p
      ensures n <= |p| && old(Written()) + p[..n] <= Written() <= old(Written()) + p
      ensures !ok ==> upstream.upstream.broken
    {
      hide Valid, Flat, Sealed, Lawful, Step;
      InRoom();
      n, ok := 0, true;
      ghost var before := Written();
      assert before + p[..0] == before;
      while true
        invariant Valid() && n <= |p| && ok && HEAD + reversed + index <= upstream.buffer.Length
        invariant Written() == before + p[..n]
        decreases |p| - n, index + reversed
      {
        InRoom();
        var room := upstream.maxPacketSize - reversed - index;
        var cachedN := if |p| - n < room then |p| - n else room;
        Progress(before, p, n, p[n..n + cachedN]);
        Collect(p[n..n + cachedN]);
        if n + cachedN == |p| {
          n := n + cachedN;
          assert p[..n] == p;
          return;
        }
        InRoom();
        ok := Flush();
        InRoom();
        if !ok {
          return;
        }
        n := n + cachedN;
      }
    }
  }

  // ----- Reading -----

  // What has arrived, and how much of it was taken.
  class Source {
    const data: seq<byte>
    var pos: nat

    constructor (data: seq<byte>)
      ensures this.data == data && pos == 0
    {
      this.data, pos := data, 0;
    }

    method ReadFull(n: nat) returns (ok: bool, bytes: seq<byte>)
      requires pos <= |data|
      modifies this
      ensures pos <= |data|
      ensures ok <==> old(pos) + n <= |data|
      ensures ok ==> pos == old(pos) + n && bytes == data[old(pos)..pos]
    {
      if pos + n <= |data| {
        ok, bytes, pos := true, data[pos..pos + n], pos + n;
      } else {
        ok, bytes, pos := false, data[pos..], |data|;
      }
    }
  }

  class Reader {
    const upstream: Source
    const cipher: Cipher
    const buffer: array<byte>
    const nonce: array<byte>
    var index: nat
    var cached: int
    // The chunks the other side sealed from its first nonce on, how many were opened, and the bytes
    // handed out.
    ghost const start: Nonce
    ghost const chunks: seq<seq<byte>>
    ghost var done: nat
    ghost var taken: seq<byte>

    ghost predicate Valid()
      reads this, upstream, buffer, nonce
    {
      && Lawful(cipher) && buffer != nonce && buffer.Length >= HEAD && Fit(chunks, buffer.Length - OVERHEAD)
      && Fit(chunks, 0xFFFF)
      && done <= |chunks| && nonce[..] == Step(start, 2 * done)
      && upstream.data <= Sealed(cipher, start, chunks)
      && upstream.pos == |Sealed(cipher, start, chunks[..done])| <= |upstream.data|
      && 0 <= cached && index + cached <= buffer.Length
      && taken + buffer[..][index..index + cached] == Flat(chunks[..done])
    }

    // The next chunk has arrived in full.
    ghost predicate Arrived()
      reads this, upstream
    {
      done < |chunks| && |Sealed(cipher, start, chunks[..done + 1])| <= |upstream.data|
    }

    constructor (upstream: Source, cipher: Cipher, nonceSize: nat, maxPacketSize: nat, ghost chunks: seq<seq<byte>>)
      requires Lawful(cipher) && 2 <= maxPacketSize <= 0xFFFF && Fit(chunks, maxPacketSize) && upstream.pos == 0
      requires upstream.data <= Sealed(cipher, Zeros(nonceSize), chunks)
      ensures Valid() && taken == [] && done == 0 && cached == 0 && this.chunks == chunks && this.upstream == upstream
      ensures fresh(buffer) && fresh(nonce) && buffer.Length == maxPacketSize + OVERHEAD
    {
      this.upstream, this.cipher, this.chunks := upstream, cipher, chunks;
      buffer := new byte[maxPacketSize + OVERHEAD](i => 0);
      nonce := new byte[nonceSize](i => 0);
      start := Zeros(nonceSize);
      index, cached, done, taken := 0, 0, 0, [];
      new;
      assert nonce[..] == start && chunks[..0] == [];
    }

    // Opens the first n bytes of dst in place.
    method OpenIn(dst: array<byte>, n: nat) returns (ok: bool)
      requires n <= dst.Length && dst != nonce
      requires var plain := cipher.open(nonce[..], dst[..n]); plain.Some? ==> |plain.value| <= n
      modifies dst, nonce
      ensures ok == old(cipher.open(nonce[..], dst[..n])).Some?
      ensures ok ==> nonce[..] == Increased(old(nonce[..]))
      ensures ok ==> dst[..] == Splice(old(dst[..]), 0, old(cipher.open(nonce[..], dst[..n])).value)
    {
      var plain := cipher.open(nonce[..], dst[..n]);
      if plain.None? {
        return false;
      }
      Copy(dst, 0, plain.value);
      IncreaseNonce(nonce);
      ok := true;
    }

    // Takes n sealed bytes from upstream into dst and opens them there.
    method Take(dst: array<byte>, n: nat, ghost text: seq<byte>) returns (ok: bool)
      requires Lawful(cipher) && dst != nonce && n <= dst.Length && n == |text| + OVERHEAD
      requires upstream.pos <= |upstream.data|
      requires upstream.pos + n <= |upstream.data| ==>
                 upstream.data[upstream.pos..upstream.pos + n] == cipher.seal(nonce[..], text)
      modifies upstream, dst, nonce
      ensures ok <==> old(upstream.pos) + n <= |upstream.data|
      ensures ok ==> upstream.pos == old(upstream.pos) + n && nonce[..] == Increased(old(nonce[..]))
      ensures ok ==> dst[..|text|] == text
    {
      var bytes: seq<byte>;
      ok, bytes := upstream.ReadFull(n);
      if !ok {
        return;
      }
      ghost var was := dst[..];
      Copy(dst, 0, bytes);
      SpliceRead(was, 0, bytes);
      assert dst[..n] == dst[..][0..0 + n] == bytes;
      ghost var filled := dst[..];
      ok := OpenIn(dst, n);
      SpliceRead(filled, 0, text);
      assert dst[..|text|] == dst[..][0..0 + |text|];
    }

    lemma NextChunk()
      requires Valid()
      ensures done == |chunks| ==> upstream.pos == |upstream.data|
      ensures done < |chunks| ==>
                var at, chunk := upstream.pos, chunks[done];
                && |chunk| <= buffer.Length - OVERHEAD && |chunk| <= 0xFFFF
                && |Sealed(cipher, start, chunks[..done + 1])| == at + HEAD + |chunk| + OVERHEAD
                && (at + HEAD <= |upstream.data| ==>
                      upstream.data[at..at + HEAD] == SealedHead(cipher, start, done, |chunk|))
                && (at + HEAD + |chunk| + OVERHEAD <= |upstream.data| ==>
                      upstream.data[at + HEAD..at + HEAD + |chunk| + OVERHEAD] == SealedBody(cipher, start, done, chunk))
    {
      hide Sealed, SealedHead, SealedBody, Flat, Step, Lawful;
      if done == |chunks| {
        assert chunks[..done] == chunks;
      } else {
        assert chunks[done] in chunks;
        PrefixSealed(cipher, start, chunks, done, upstream.data);
      }
    }

    // Opens the next chunk's length.
    method TakeHead() returns (ok: bool, length: nat)
      requires Valid()
      modifies upstream, buffer, nonce
      ensures ok <==> old(upstream.pos) + HEAD <= |upstream.data|
      ensures ok ==> done < |chunks| && length == |chunks[done]| && nonce[..] == Step(start, 2 * done + 1)
      ensures ok ==> upstream.pos == old(upstream.pos) + HEAD
    {
      hide Sealed, Flat, Step, Lawful, Put16, Get16;
      NextChunk();
      StepTwice(start, done);
      length := 0;
      ghost var n := if done < |chunks| then |chunks[done]| else 0;
      HeadSeals(cipher, start, done, n);
      ok := Take(buffer, HEAD, Put16(n));
      if ok {
        WordRoundTrip(n);
        length := Get16(buffer[..LENGTH_SIZE]);
      }
    }

    // The length of the next chunk has been opened; its data is at hand or still to come.
    ghost predicate HeadTaken(chunk: seq<byte>)
      reads this, upstream, buffer, nonce
    {
      && done < |chunks| && chunk == chunks[done] && cached == 0 && taken == Flat(chunks[..done])
      && Lawful(cipher) && buffer != nonce && |chunk| + OVERHEAD <= buffer.Length
      && Fit(chunks, buffer.Length - OVERHEAD) && Fit(chunks, 0xFFFF) && buffer.Length >= HEAD
      && nonce[..] == Step(start, 2 * done + 1)
      && upstream.data <= Sealed(cipher, start, chunks)
      && upstream.pos == |Sealed(cipher, start, chunks[..done])| + HEAD <= |upstream.data|
      && |Sealed(cipher, start, chunks[..done + 1])| == upstream.pos + |chunk| + OVERHEAD
      && (upstream.pos + |chunk| + OVERHEAD <= |upstream.data| ==>
            upstream.data[upstream.pos..upstream.pos + |chunk| + OVERHEAD] == SealedBody(cipher, start, done, chunk))
    }

    method OpenHead() returns (ok: bool, length: nat)
      requires Valid() && cached == 0
      modifies upstream, buffer, nonce
      ensures ok <==> old(upstream.pos) + HEAD <= |upstream.data|
      ensures ok ==> done < |chunks| && length == |chunks[done]| && HeadTaken(chunks[done])
      ensures ok ==> upstream.pos == old(upstream.pos) + HEAD
      ensures !ok ==> !old(Arrived())
      ensures ok ==> (old(Arrived()) <==> upstream.pos + length + OVERHEAD <= |upstream.data|)
    {
      hide Sealed, SealedHead, SealedBody, Flat, Step, Lawful, Splice, Fit;
      NextChunk();
      Overrun();
      CachedFits();
      ok, length := TakeHead();
    }

    // The chunk's data goes straight into the destination.
    method TakeInto(b: array<byte>, length: nat, ghost chunk: seq<byte>) returns (ok: bool)
      requires HeadTaken(chunk) && length == |chunk| && b != buffer && b != nonce && |chunk| + OVERHEAD <= b.Length
      modifies this, upstream, nonce, b
      ensures ok <==> old(upstream.pos) + |chunk| + OVERHEAD <= |upstream.data|
      ensures ok ==> Valid() && done == old(done) + 1 && cached == 0 && b[..|chunk|] == chunk
      ensures taken == old(taken) + if ok then chunk else []
    {
      hide Sealed, Flat, Step, Lawful, Splice, Fit;
      FlatSplits(chunks, done);
      StepTwice(start, done);
      ok := Take(b, length + OVERHEAD, chunk);
      if !ok {
        return;
      }
      done := done + 1;
      index, taken := 0, taken + chunk;
      assert taken + buffer[..][0..0] == taken;
    }

    method TakeCached(length: nat, ghost chunk: seq<byte>) returns (ok: bool)
      requires HeadTaken(chunk) && length == |chunk|
      modifies this, upstream, nonce, buffer
      ensures ok <==> old(upstream.pos) + |chunk| + OVERHEAD <= |upstream.data|
      ensures ok ==> Valid() && index == 0 && cached == |chunk|
      ensures taken == old(taken) && done == old(done) + if ok then 1 else 0
    {
      hide Sealed, Flat, Step, Lawful, Splice, Fit;
      FlatSplits(chunks, done);
      StepTwice(start, done);
      ok := Take(buffer, length + OVERHEAD, chunk);
      if !ok {
        return;
      }
      done := done + 1;
      index, cached := 0, length;
      assert buffer[..][0..length] == chunk;
    }

    method ReadInternal() returns (ok: bool)
      requires Valid() && cached == 0
      modifies this, upstream, buffer, nonce
      ensures ok <==> old(Arrived())
      ensures taken == old(taken)
      ensures ok ==> Valid() && done == old(done) + 1 && index == 0 && cached == |chunks[old(done)]|
      ensures done <= |chunks| && (ok ==> old(done) < |chunks|)
    {
      hide Valid, Arrived, HeadTaken;
      DoneInRange();
      var length: nat;
      ok, length := OpenHead();
      if ok {
        ok := TakeCached(length, chunks[done]);
        if ok {
          DoneInRange();
        }
      }
    }

    // Hands out the first n cached bytes.
    method Advance(n: nat)
      requires Valid() && n <= cached
      modifies this`index, this`cached, this`taken
      ensures Valid() && cached == old(cached) - n && index == old(index) + n
      ensures taken == old(taken) + buffer[..][old(index)..old(index) + n]
    {
      hide Sealed, Flat, Step, Lawful;
      ghost var all := buffer[..];
      assert all[index..index + cached] == all[index..index + n] + all[index + n..index + cached];
      assert taken + (all[index..index + n] + all[index + n..index + cached])
          == taken + all[index..index + n] + all[index + n..index + cached];
      taken := taken + all[index..index + n];
      index, cached := index + n, cached - n;
    }

    /** The next byte of the stream, unless nothing is cached and the next chunk has no bytes: then the byte is
        none of the stream, and the cached count goes below zero. */
    method ReadByte() returns (ok: bool, b: byte)
      requires Valid()
      modifies this, upstream, buffer, nonce
      ensures ok <==> old(cached) > 0 || old(Arrived())
      ensures ok ==> taken == old(taken) + [b] && (old(cached) == 0 ==> old(done) < |chunks|)
      ensures ok ==> (Valid() <==> old(cached) > 0 || chunks[old(done)] != [])
      ensures ok && old(cached) == 0 && chunks[old(done)] == [] ==>
                cached == -1 && done <= |chunks| && |taken| > |Flat(chunks[..done])|
      ensures !ok ==> taken == old(taken)
    {
      hide Valid, Arrived, Flat;
      ok, b := true, 0;
      if cached == 0 {
        ok := ReadInternal();
        if !ok {
          return;
        }
        if cached == 0 {
          Overrun();
          CachedFits();
          b := buffer[index];
          index, cached, taken := index + 1, cached - 1, taken + [b];
          NotCaching();
          return;
        }
      }
      CachedFits();
      b := buffer[index];
      assert buffer[..][index..index + 1] == [b];
      Advance(1);
    }

    lemma Overrun()
      requires Valid() && cached == 0
      ensures taken == Flat(chunks[..done]) && done <= |chunks|
    {
      assert taken + buffer[..][index..index] == taken;
    }

    lemma NotCaching()
      requires cached < 0
      ensures !Valid()
    {
    }

    lemma CachedFits()
      requires Valid()
      ensures 0 <= cached && index + cached <= buffer.Length && 0 < OVERHEAD <= buffer.Length && buffer != nonce
      ensures done < |chunks| ==> |chunks[done]| + OVERHEAD <= buffer.Length
    {
    }

    // Reads from the cached chunk only, or else from the next one.
    method Read(b: array<byte>) returns (ok: bool, n: nat)
      requires Valid() && b != buffer && b != nonce
      modifies this, upstream, buffer, nonce, b
      ensures ok <==> old(cached) > 0 || old(Arrived())
      ensures n <= b.Length && (ok ==> Valid() && taken == old(taken) + b[..n])
      ensures !ok ==> taken == old(taken)
      ensures ok ==> (old(cached) == 0 ==> old(done) < |chunks|)
                     && (n > 0 <==> b.Length > 0 && (old(cached) > 0 || chunks[old(done)] != []))
      ensures ok && n < b.Length ==> cached == 0
    {
      hide Valid, Arrived;
      CachedFits();
      if cached > 0 {
        ok := true;
        n := CopyOut(b);
        return;
      }
      ok, n := ReadNext(b);
    }

    method CopyOut(b: array<byte>) returns (n: nat)
      requires Valid() && b != buffer && b != nonce && index + cached <= buffer.Length
      modifies this`index, this`cached, this`taken, b
      ensures n == (if b.Length < old(cached) then b.Length else old(cached)) && cached == old(cached) - n
      ensures Valid() && taken == old(taken) + b[..n]
    {
      hide Sealed, Flat, Step, Lawful, Splice;
      n := if b.Length < cached then b.Length else cached;
      ghost var was := b[..];
      Copy(b, 0, buffer[index..index + n]);
      SpliceRead(was, 0, buffer[index..index + n]);
      assert b[..n] == b[..][0..0 + n] == buffer[..][index..index + n];
      Advance(n);
    }

    // A large enough destination takes the chunk directly.
    method ReadNext(b: array<byte>) returns (ok: bool, n: nat)
      requires Valid() && b != buffer && b != nonce && cached == 0
      modifies this, upstream, buffer, nonce, b
      ensures ok <==> old(Arrived())
      ensures n <= b.Length && (ok ==> Valid() && taken == old(taken) + b[..n])
      ensures !ok ==> taken == old(taken)
      ensures ok ==> old(done) < |chunks| && (n > 0 <==> b.Length > 0 && chunks[old(done)] != [])
      ensures ok && n < b.Length ==> cached == 0
    {
      hide Valid, Arrived, HeadTaken;
      n := 0;
      var length: nat;
      ok, length := OpenHead();
      if !ok {
        return;
      }
      ghost var chunk := chunks[done];
      if b.Length >= length + OVERHEAD {
        ok := TakeInto(b, length, chunk);
        if ok {
          n := length;
        }
      } else {
        ok := TakeCached(length, chunk);
        if ok {
          CachedFits();
          n := CopyOut(b);
        }
      }
    }

    method DropCached()
      requires Valid()
      modifies this`index, this`cached, this`taken
      ensures Valid() && cached == 0 && |taken| == |old(taken)| + old(cached) && old(taken) <= taken
    {
      Advance(cached);
      index := 0;
      assert taken + buffer[..][0..0] == taken;
    }

    // The chunks that have arrived in full hold this many bytes.
    ghost predicate Holds(total: nat) {
      exists k :: 0 <= k <= |chunks| && |Sealed(cipher, start, chunks[..k])| <= |upstream.data|
                  && |Flat(chunks[..k])| >= total
    }

    lemma HoldsNow(total: nat)
      requires Valid() && |taken| + cached >= total
      ensures Holds(total)
    {
      hide Sealed, Flat, Step, Lawful;
    }

    lemma HoldsNoMore(total: nat)
      requires Valid() && cached == 0 && |taken| < total && !Arrived()
      ensures !Holds(total)
    {
      hide Sealed, Flat, Step, Lawful;
      assert taken + buffer[..][index..index] == taken;
      forall k | 0 <= k <= |chunks|
        ensures |Sealed(cipher, start, chunks[..k])| > |upstream.data| || |Flat(chunks[..k])| < total
      {
        if k <= done {
          FlatPrefix(chunks[..done], k);
          assert chunks[..done][..k] == chunks[..k];
        } else {
          FirstChunksFirst(cipher, start, chunks[..k], done + 1);
          assert chunks[..k][..done + 1] == chunks[..done + 1];
        }
      }
    }

    // Skips exactly n bytes of the stream, if so many have arrived.
    method Discard(n: nat) returns (ok: bool)
      requires Valid()
      modifies this, upstream, buffer, nonce
      ensures ok <==> Holds(|old(taken)| + n)
      ensures ok ==> Valid() && |taken| == |old(taken)| + n && old(taken) <= taken
    {
      hide Valid, Arrived, Holds;
      var left := n;
      while true
        invariant Valid() && 0 <= left <= n && |taken| + left == |old(taken)| + n && old(taken) <= taken
        decreases |chunks| - done
      {
        CachedFits();
        if cached >= left {
          HoldsNow(|old(taken)| + n);
          Advance(left);
          return true;
        } else if cached > 0 {
          left := left - cached;
          DropCached();
        }
        DoneInRange();
        if !Arrived() {
          HoldsNoMore(|old(taken)| + n);
        }
        ok := ReadInternal();
        if !ok {
          return;
        }
        DoneInRange();
      }
    }

    lemma DoneInRange()
      requires Valid()
      ensures done <= |chunks|
    {
    }
  }

  // ----- From end to end -----

  /** Any part of what a writer sent after its prelude reads back as a beginning of what was written, and
      both sides have then used two nonces a chunk. */
  lemma {:induction false} ReadsWhatWasWritten(w: Writer, r: Reader)
    requires w.Valid() && r.Valid() && r.chunks == w.chunks && r.start == w.start && r.cipher == w.cipher
    requires Value(w.start) == 0
    ensures r.taken <= Flat(w.chunks)
    ensures r.done == |w.chunks| && r.cached == 0 ==> r.taken == Flat(w.chunks)
    ensures w.prelude + r.upstream.data == w.upstream.wire && r.done < |w.chunks| && !w.upstream.broken ==> r.Arrived()
    ensures Value(w.nonce[..]) == 2 * |w.chunks| % Bound(|w.start|)
    ensures Value(r.nonce[..]) == 2 * r.done % Bound(|r.start|)
  {
    hide Sealed, Step, Lawful;
    FlatPrefix(r.chunks, r.done);
    assert r.chunks[..|r.chunks|] == r.chunks;
    StepCounts(w.start, 2 * |w.chunks|);
    StepCounts(r.start, 2 * r.done);
    if r.done < |r.chunks| {
      FirstChunksFirst(r.cipher, r.start, r.chunks, r.done + 1);
    }
  }
}
