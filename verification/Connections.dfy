/** Bytes, 16-bit words in network order, and the connection that byte streams are written to. */
module Connections {
  type byte = b: int | 0 <= b < 256

  function Zeros(n: nat): (z: seq<byte>)
    ensures |z| == n && forall i :: 0 <= i < n ==> z[i] == 0
  {
    seq(n, i => 0)
  }

  function Put16(n: int): (b: seq<byte>)
    requires 0 <= n < 0x1_0000
    ensures |b| == 2
  {
    [n / 0x100, n % 0x100]
  }

  function Get16(b: seq<byte>): (n: int)
    requires |b| == 2
    ensures 0 <= n < 0x1_0000
  {
    var high: int, low: int := b[0], b[1];
    high * 0x100 + low
  }

  lemma {:induction false} WordRoundTrip(n: int)
    requires 0 <= n < 0x1_0000
    ensures Get16(Put16(n)) == n
  {
  }

  // All parts, one after the other.
  function Flat(chunks: seq<seq<byte>>): seq<byte> {
    if chunks == [] then [] else Flat(chunks[..|chunks| - 1]) + chunks[|chunks| - 1]
  }

  // The connection below. A write that fails may have sent a part, and every later one fails as well.
  class Conn {
    var wire: seq<byte>
    var broken: bool
    // What it was given, write by write.
    ghost var writes: seq<seq<byte>>

    constructor ()
      ensures wire == [] && !broken && writes == []
    {
      wire, broken, writes := [], false, [];
    }

    method Write(b: seq<byte>) returns (ok: bool)
      modifies this
      ensures ok ==> !old(broken) && !broken && wire == old(wire) + b && writes == old(writes) + [b]
      ensures !ok ==> broken && old(wire) <= wire <= old(wire) + b
      ensures old(broken) ==> !ok && wire == old(wire)
    {
      if broken {
        return false;
      }
      ok := *;
      if ok {
        wire, writes := wire + b, writes + [b];
      } else {
        var part: nat :| part <= |b|;
        wire, broken := wire + b[..part], true;
      }
    }
  }
}
