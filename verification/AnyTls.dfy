/** The AnyTLS multiplexer: frames are buffered, cut into records and mixed with padding on the way out,
    and sorted into streams on the way in. What arrives is what was submitted, in order. */
module AnyTls {
  import opened Connections
  import opened Frames

  // ----- The padding scheme -----

  const CHECK_MARK := -1

  datatype Piece = Check | Sizes(min: int, max: int) | Malformed

  datatype Scheme = Scheme(stop: uint32, records: map<int, seq<Piece>>)

  // A size fits a frame's length field.
  predicate Small(size: int) { size < 0x1_0000 }

  predicate SmallScheme(scheme: Scheme) {
    forall pkt <- scheme.records, piece <- scheme.records[pkt] :: piece.Sizes? ==> Small(piece.min) && Small(piece.max)
  }

  predicate IsSizes(sizes: seq<int>) {
    forall i :: 0 <= i < |sizes| ==> sizes[i] == CHECK_MARK || sizes[i] > 0
  }

  // A check mark, or bounds that are both positive.
  predicate Usable(piece: Piece) { piece.Check? || (piece.Sizes? && piece.min > 0 && piece.max > 0) }

  function UsableOf(pieces: seq<Piece>): seq<Piece> {
    if pieces == [] then []
    else UsableOf(pieces[..|pieces| - 1]) + if Usable(pieces[|pieces| - 1]) then [pieces[|pieces| - 1]] else []
  }

  // A size lies between the bounds, whichever of them is the lower; the upper one is only met by equal bounds.
  predicate SizeFits(piece: Piece, size: int) {
    match piece
    case Check => size == CHECK_MARK
    case Sizes(a, b) => if a == b then size == a else if a < b then a <= size < b else b <= size < a
    case Malformed => false
  }

  // One size for each usable piece of the packet, in order; none for a packet the scheme does not name.
  ghost predicate SizesFit(scheme: Scheme, pkt: int, sizes: seq<int>) {
    var pieces := if pkt in scheme.records then UsableOf(scheme.records[pkt]) else [];
    AllFit(pieces, sizes)
  }

  lemma {:induction false} UsableStep(pieces: seq<Piece>, i: nat)
    requires i < |pieces|
    ensures UsableOf(pieces[..i + 1]) == UsableOf(pieces[..i]) + if Usable(pieces[i]) then [pieces[i]] else []
  {
    assert pieces[..i + 1][..i] == pieces[..i];
  }

  // One size more for one usable piece more.
  ghost predicate AllFit(pieces: seq<Piece>, sizes: seq<int>) {
    |sizes| == |pieces| && forall k :: 0 <= k < |sizes| ==> SizeFits(pieces[k], sizes[k])
  }

  lemma {:induction false} OneMoreSize(pieces: seq<Piece>, sizes: seq<int>, piece: Piece, size: int)
    requires AllFit(pieces, sizes) && SizeFits(piece, size)
    ensures AllFit(pieces + [piece], sizes + [size])
    ensures IsSizes(sizes) && (size == CHECK_MARK || size > 0) ==> IsSizes(sizes + [size])
    ensures (forall l <- sizes :: Small(l)) && Small(size) ==> forall l <- sizes + [size] :: Small(l)
  {
  }

  method GenerateRecordPayloadSizes(scheme: Scheme, pkt: int) returns (sizes: seq<int>)
    ensures IsSizes(sizes) && SizesFit(scheme, pkt, sizes)
    ensures SmallScheme(scheme) ==> forall l <- sizes :: Small(l)
  {
    sizes := [];
    if pkt in scheme.records {
      var pieces := scheme.records[pkt];
      for i := 0 to |pieces|
        invariant IsSizes(sizes) && (SmallScheme(scheme) ==> forall l <- sizes :: Small(l))
        invariant AllFit(UsableOf(pieces[..i]), sizes)
      {
        UsableStep(pieces, i);
        match pieces[i] {
          case Malformed =>
          case Check =>
            OneMoreSize(UsableOf(pieces[..i]), sizes, pieces[i], CHECK_MARK);
            sizes := sizes + [CHECK_MARK];
          case Sizes(a, b) =>
            var min, max := if a > b then b else a, if a > b then a else b;
            if min <= 0 || max <= 0 {
              continue;
            }
            var size := min;
            if min != max {
              var drawn: int :| 0 <= drawn < max - min;
              size := drawn + min;
            }
            SmallBetween(scheme, pkt, i, size);
            OneMoreSize(UsableOf(pieces[..i]), sizes, pieces[i], size);
            sizes := sizes + [size];
        }
      }
      assert pieces[..|pieces|] == pieces;
    }
  }

  lemma {:induction false} SmallBetween(scheme: Scheme, pkt: int, i: nat, size: int)
    requires pkt in scheme.records && i < |scheme.records[pkt]| && SizeFits(scheme.records[pkt][i], size)
    ensures SmallScheme(scheme) ==> Small(size)
  {
    assert scheme.records[pkt][i] in scheme.records[pkt];
  }

  // ----- Cutting into records -----

  // The last payload, filled up with a waste frame where a header fits in.
  function Filled(payload: seq<byte>, l: nat): seq<byte> {
    payload + if l > |payload| + 7 then Waste(l - |payload| - 7) else []
  }

  // What one size takes: so much payload, the last of it, filled up, or padding alone.
  function RecordOf(payload: seq<byte>, l: nat): seq<byte> {
    if |payload| > l then payload[..l] else if |payload| > 0 then Filled(payload, l) else Waste(l)
  }

  function RestOf(payload: seq<byte>, l: nat): seq<byte> { if |payload| > l then payload[l..] else [] }

  // The writes that take the data, one for each size, and one for what is left over.
  function Cut(data: seq<byte>, sizes: seq<int>): seq<seq<byte>>
    requires IsSizes(sizes)
    decreases |sizes|
  {
    if sizes == [] then if data == [] then [] else [data]
    else
      var l, more := sizes[0], sizes[1..];
      if l == CHECK_MARK then if data == [] then [] else Cut(data, more)
      else [RecordOf(data, l)] + Cut(RestOf(data, l), more)
  }

  /** The sizes that are used for n bytes: all but the check marks, up to the first check mark at which nothing
      is left. */
  function Used(n: nat, sizes: seq<int>): seq<nat>
    requires IsSizes(sizes)
    decreases |sizes|
  {
    if sizes == [] then []
    else if sizes[0] == CHECK_MARK then if n == 0 then [] else Used(n, sizes[1..])
    else [sizes[0]] + Used(if n > sizes[0] then n - sizes[0] else 0, sizes[1..])
  }

  function Sum(sizes: seq<nat>): nat { if sizes == [] then 0 else sizes[0] + Sum(sizes[1..]) }

  // The k-th write: the next l bytes, or the last ones, filled up, or nothing but padding.
  ghost predicate IsRecord(data: seq<byte>, from: nat, l: nat, record: seq<byte>) {
    && (from + l < |data| ==> record == data[from..from + l])
    && (from < |data| <= from + l ==> record == Filled(data[from..], l))
    && (from >= |data| ==> record == Waste(l))
  }

  // Every size takes one write, at the place where the sizes before it end; what they leave over goes out in one more.
  ghost predicate Splits(data: seq<byte>, used: seq<nat>, records: seq<seq<byte>>) {
    && |records| == |used| + (if Sum(used) < |data| then 1 else 0)
    && (forall k :: 0 <= k < |used| ==> IsRecord(data, Sum(used[..k]), used[k], records[k]))
    && (Sum(used) < |data| ==> records[|used|] == data[Sum(used)..])
  }

  /** The used sizes are where the writes are cut. */
  lemma {:induction false} CutAt(data: seq<byte>, sizes: seq<int>)
    requires IsSizes(sizes)
    ensures Splits(data, Used(|data|, sizes), Cut(data, sizes))
    decreases |sizes|
  {
    if sizes != [] {
      CutStep(data, sizes);
      UsedStep(|data|, sizes);
      hide Cut, Used, Splits, RecordOf, RestOf;
      var l, more := sizes[0], sizes[1..];
      if l == CHECK_MARK {
        if data != [] {
          CutAt(data, more);
        } else {
          NothingSplits(data);
        }
      } else {
        var rest, n := RestOf(data, l), if |data| > l then |data| - l else 0;
        RestIs(data, l);
        CutAt(rest, more);
        CutOn(data, l, rest, Used(n, more), Cut(rest, more));
      }
    } else {
      NothingSplits(data);
    }
  }

  lemma {:induction false} NothingSplits(data: seq<byte>)
    ensures Splits(data, [], if data == [] then [] else [data])
  {
    assert data[0..] == data;
  }

  lemma {:induction false} UsedStep(n: nat, sizes: seq<int>)
    requires IsSizes(sizes) && sizes != []
    ensures sizes[0] == CHECK_MARK ==> Used(n, sizes) == if n == 0 then [] else Used(n, sizes[1..])
    ensures sizes[0] != CHECK_MARK ==>
              sizes[0] >= 0 && Used(n, sizes) == [sizes[0]] + Used(if n > sizes[0] then n - sizes[0] else 0, sizes[1..])
  {
  }

  lemma {:induction false} RestIs(data: seq<byte>, l: nat)
    ensures |RestOf(data, l)| == (if |data| > l then |data| - l else 0) && IsRecord(data, 0, l, RecordOf(data, l))
    ensures forall from: nat :: |data| > l + from ==> RestOf(data, l)[from..] == data[l + from..]
  {
    assert data[0..] == data;
  }

  // One size in front of the others.
  lemma {:induction false} CutOn(data: seq<byte>, l: nat, rest: seq<byte>, used: seq<nat>, records: seq<seq<byte>>)
    requires rest == RestOf(data, l) && Splits(rest, used, records)
    ensures Splits(data, [l] + used, [RecordOf(data, l)] + records)
  {
    hide IsRecord, RecordOf, RestOf, Filled, Waste, Sum;
    var u, r := [l] + used, [RecordOf(data, l)] + records;
    RestIs(data, l);
    SumOn(l, used);
    if Sum(u) < |data| {
      assert r[|u|] == records[|used|];
    }
    forall k | 0 <= k < |u| ensures IsRecord(data, Sum(u[..k]), u[k], r[k]) {
      RecordOn(data, l, used, records, k);
    }
  }

  lemma {:induction false} RecordOn(data: seq<byte>, l: nat, used: seq<nat>, records: seq<seq<byte>>, k: nat)
    requires k <= |used| && Splits(RestOf(data, l), used, records)
    ensures IsRecord(data, Sum(([l] + used)[..k]), ([l] + used)[k], ([RecordOf(data, l)] + records)[k])
  {
    hide IsRecord, RecordOf, RestOf, Filled, Waste, Sum;
    if k > 0 {
      assert ([l] + used)[..k] == [l] + used[..k - 1];
      SumOn(l, used[..k - 1]);
      Later(data, l, Sum(used[..k - 1]), used[k - 1], records[k - 1]);
    } else {
      SumOn(l, []);
      RestIs(data, l);
    }
  }

  lemma {:induction false} SumOn(l: nat, sizes: seq<nat>)
    ensures Sum([l] + sizes) == l + Sum(sizes) && Sum([]) == 0
  {
    assert ([l] + sizes)[1..] == sizes;
  }

  // What follows the first l bytes.
  lemma {:induction false} Later(data: seq<byte>, l: nat, from: nat, size: nat, record: seq<byte>)
    requires IsRecord(RestOf(data, l), from, size, record)
    ensures IsRecord(data, l + from, size, record)
  {
    if |data| > l + from {
      assert data[l..][from..] == data[l + from..];
      if from + size < |data| - l {
        assert data[l..][from..from + size] == data[l + from..l + from + size];
      }
    }
  }

  // A record of the last payload has exactly the size it is given, where a header fits in.
  lemma {:induction false} FilledSize(payload: seq<byte>, l: int)
    requires |payload| <= l
    ensures |Filled(payload, l)| == if l > |payload| + 7 then l else |payload|
    ensures l >= 0 ==> |Waste(l)| == 7 + l
  {
  }

  // ----- Writing -----

  class Session {
    const conn: Conn
    var closed: bool
    var buffering: bool
    var buffer: seq<byte>
    var sendPadding: bool
    var pktCounter: uint32
    var streamId: uint32
    var scheme: Scheme
    // The stream map is part of what the session has received.
    var peer: Peer
    const answers: seq<byte> -> seq<Frame>
    // All frames handed to the session, those on their way with the padding put between them, and those
    // still in the buffer.
    ghost var submitted: seq<Frame>
    ghost var sent: seq<Frame>
    ghost var held: seq<Frame>
    // Every padding so far can be read back.
    ghost var whole: bool

    // So can every frame.
    ghost predicate Clean()
      reads this`whole, this`submitted
    {
      whole && AllWellFormed(submitted)
    }

    ghost predicate Valid()
      reads this, conn
    {
      && (closed ==> peer.open == map[])
      && (Clean() ==>
        && AllWellFormed(sent) && AllWellFormed(held) && NoWaste(held)
        && Strip(sent) + held == submitted && EncodeAll(held) == buffer
        && conn.wire <= EncodeAll(sent) && (!conn.broken ==> conn.wire == EncodeAll(sent)))
    }

    constructor (conn: Conn, isClient: bool, scheme: Scheme, answers: seq<byte> -> seq<Frame>)
      requires conn.wire == []
      ensures Valid() && whole && submitted == [] && this.conn == conn && this.scheme == scheme
      ensures peer == NewPeer(isClient) && this.answers == answers
      ensures !closed && buffer == [] && !buffering && streamId == 0
    {
      this.conn, this.scheme, this.answers := conn, scheme, answers;
      closed, buffering, buffer, sendPadding, pktCounter, streamId := false, false, [], isClient, 0, 0;
      submitted, sent, held, whole, peer := [], [], [], true, NewPeer(isClient);
    }

    // While payload remains, what is on the wire and the payload make up the frames on their way.
    ghost predicate Sending(payload: seq<byte>)
      reads `closed, `peer, `buffer, `held, `whole, `submitted, `sent, conn
    {
      && buffer == [] && held == []
      && (closed ==> peer.open == map[])
      && (Clean() ==>
            && AllWellFormed(sent) && Strip(sent) == submitted
            && conn.wire <= EncodeAll(sent) && (!conn.broken ==> conn.wire + payload == EncodeAll(sent)))
    }

    // Plans a padding after the payload; the length its frame states must be readable.
    ghost method PlanWaste(n: nat, payload: seq<byte>)
      requires Sending(payload)
      modifies `sent, `whole
      ensures Sending(payload + Waste(n)) && whole == (old(whole) && Whole(n))
    {
      hide AllWellFormed, EncodeAll, Strip, Waste, Whole;
      FitsJoin(sent, WasteFrames(n));
      if Clean() {
        WasteIsWholeIff(n);
        EncodeAllJoin(sent, WasteFrames(n));
        StripJoin(sent, WasteFrames(n));
        StripWaste(WasteFrames(n));
      }
      sent, whole := sent + WasteFrames(n), whole && Whole(n);
      assert conn.wire + (payload + Waste(n)) == (conn.wire + payload) + Waste(n);
    }

    // Sends the first part of what is left.
    method SendPart(part: seq<byte>, ghost after: seq<byte>) returns (ok: bool)
      requires Sending(part + after)
      modifies conn
      ensures Sending(if ok then after else [])
      ensures ok ==> !conn.broken && conn.writes == old(conn.writes) + [part]
      ensures !ok ==> conn.broken
      ensures old(conn.wire) <= conn.wire
    {
      assert conn.wire + (part + after) == (conn.wire + part) + after;
      ok := conn.Write(part);
    }

    /** One entry of the padding scheme: a record of payload alone, of the last payload and some padding,
        or of padding alone. */
    method SendRecord(payload: seq<byte>, l: int) returns (ok: bool, left: seq<byte>)
      requires Sending(payload) && l > 0
      modifies conn, `sent, `whole
      ensures Sending(left)
      ensures whole ==> old(whole)
      ensures old(whole) && Small(l) ==> whole
      ensures ok ==> !conn.broken && left == RestOf(payload, l)
      ensures ok ==> conn.writes == old(conn.writes) + [RecordOf(payload, l)]
      ensures !ok ==> left == []
      ensures !ok ==> conn.broken
      ensures old(conn.wire) <= conn.wire
    {
      hide Sending, Waste, Filled;
      if |payload| > l {
        left := payload[l..];
        assert payload == payload[..l] + left;
        ok := SendPart(payload[..l], left);
        if !ok { left := []; }
      } else if |payload| > 0 {
        left := [];
        ok := SendLast(payload, l);
      } else {
        left := [];
        PlanWaste(l, payload);
        assert payload + Waste(l) == Waste(l) == Waste(l) + [];
        ok := SendPart(Waste(l), []);
      }
    }

    // The last payload, with a waste frame where its header fits into the size.
    method SendLast(payload: seq<byte>, l: nat) returns (ok: bool)
      requires Sending(payload)
      modifies conn, `sent, `whole
      ensures Sending([])
      ensures whole ==> old(whole)
      ensures old(whole) && Small(l) ==> whole
      ensures ok ==> !conn.broken && conn.writes == old(conn.writes) + [Filled(payload, l)]
      ensures !ok ==> conn.broken
      ensures old(conn.wire) <= conn.wire
    {
      hide Sending, Waste;
      var record := payload;
      var paddingLen := l - |payload| - HEADER;
      if paddingLen > 0 {
        PlanWaste(paddingLen, payload);
        record := record + Waste(paddingLen);
      }
      assert record == record + [] && record == Filled(payload, l);
      ok := SendPart(record, []);
    }

    method SendRecords(data: seq<byte>, sizes: seq<int>) returns (ok: bool)
      requires Sending(data) && IsSizes(sizes) && data != []
      modifies conn, `sent, `whole
      ensures Sending([])
      ensures whole ==> old(whole)
      ensures old(whole) && (forall l <- sizes :: Small(l)) ==> whole
      ensures ok ==> !conn.broken && conn.writes == old(conn.writes) + Cut(data, sizes)
      ensures !ok ==> conn.broken
      ensures old(conn.wire) <= conn.wire
    {
      hide Sending, Cut, RecordOf;
      var payload := data;
      ghost var before, cut: seq<seq<byte>> := conn.writes, [];
      assert sizes[0..] == sizes && before + cut == before && cut + Cut(data, sizes) == Cut(data, sizes);
      for i := 0 to |sizes|
        invariant conn.writes == before + cut && Cut(data, sizes) == cut + Cut(payload, sizes[i..])
        invariant Sending(payload) && (whole ==> old(whole)) && old(conn.wire) <= conn.wire
        invariant old(whole) && (forall l <- sizes :: Small(l)) ==> whole
        invariant payload == [] ==> !conn.broken
      {
        var l := sizes[i];
        assert l in sizes && sizes[i..][1..] == sizes[i + 1..] && sizes[i..][0] == l;
        CutStep(payload, sizes[i..]);
        if l == CHECK_MARK {
          if |payload| == 0 {
            assert cut + [] == cut;
            return true;
          } else {
            continue;
          }
        }
        ghost var record := RecordOf(payload, l);
        ok, payload := SendRecord(payload, l);
        if !ok {
          return;
        }
        Onward(before, cut, record, Cut(payload, sizes[i + 1..]));
        cut := cut + [record];
      }
      CutStep(payload, sizes[|sizes|..]);
      if |payload| == 0 {
        assert cut + [] == cut;
        return true;
      }
      assert payload == payload + [];
      Onward(before, cut, payload, []);
      ok := SendPart(payload, []);
    }

    // A working connection was given the data: with padding in records of drawn sizes, else in one write. The
    // padding is over once the packet number has reached the scheme's stop.
    ghost predicate Emitted(before: seq<seq<byte>>, padding: bool, pkt: uint32, data: seq<byte>)
      reads this, conn
    {
      && pktCounter == (if !padding then pkt else if pkt == 0xFFFF_FFFF then 0 else pkt + 1)
      && sendPadding == (padding && pktCounter < scheme.stop)
      && if sendPadding then
           exists sizes :: IsSizes(sizes) && SizesFit(scheme, pktCounter, sizes) && conn.writes == before + Cut(data, sizes)
         else conn.writes == before + [data]
    }

    // Nothing was written; the bytes wait.
    ghost predicate Waits(before: seq<seq<byte>>, padding: bool, pkt: uint32, data: seq<byte>)
      reads this, conn
    {
      buffer == data && conn.writes == before && sendPadding == padding && pktCounter == pkt
    }

    method WriteConn(encoded: seq<byte>, ghost f: Frame) returns (ok: bool)
      requires Valid() && encoded == Encode(f) && f.cmd != WASTE
      modifies conn, `buffer, `sendPadding, `pktCounter, `submitted, `sent, `held, `whole
      ensures Valid() && submitted == old(submitted) + [f]
      ensures whole ==> old(whole)
      ensures old(whole) && SmallScheme(scheme) ==> whole
      ensures !buffering ==> buffer == [] && (ok ==> !conn.broken)
      ensures !ok ==> conn.broken && !buffering
      ensures old(conn.wire) <= conn.wire
      ensures buffering ==> Waits(old(conn.writes), old(sendPadding), old(pktCounter), old(buffer) + encoded)
      ensures ok && !buffering ==> Emitted(old(conn.writes), old(sendPadding), old(pktCounter), old(buffer) + encoded)
    {
      hide Valid, Sending, SmallScheme, Cut, SizesFit, IsSizes;
      var data := Hold(encoded, f);
      if buffering {
        return true;
      }
      Flush(data);
      if sendPadding {
        pktCounter := if pktCounter == 0xFFFF_FFFF then 0 else pktCounter + 1;
        if pktCounter < scheme.stop {
          var sizes := GenerateRecordPayloadSizes(scheme, pktCounter);
          ok := SendRecords(data, sizes);
          AllSent();
          return;
        } else {
          sendPadding := false;
        }
      }
      assert data == data + [];
      ok := SendPart(data, []);
      AllSent();
    }

    lemma AllSent()
      requires Sending([])
      ensures Valid() && buffer == []
    {
      assert conn.wire + [] == conn.wire && Strip(sent) + [] == Strip(sent);
    }

    // The new frame joins the ones in the buffer, whether it stays there or is about to be sent.
    method Hold(encoded: seq<byte>, ghost f: Frame) returns (data: seq<byte>)
      requires Valid() && encoded == Encode(f) && f.cmd != WASTE
      modifies `buffer, `submitted, `held
      ensures Valid() && submitted == old(submitted) + [f] && data == buffer == old(buffer) + encoded && data != []
    {
      OneMoreHeld(sent, held, f);
      hide AllWellFormed, NoWaste, EncodeAll, Encode, Strip;
      data := buffer + encoded;
      buffer := data;
      OneMoreFits(submitted, f);
      OneMoreFits(held, f);
      submitted, held := submitted + [f], held + [f];
    }

    // Empties the buffer: all its frames are on their way.
    method Flush(data: seq<byte>)
      requires Valid() && data == buffer
      modifies `buffer, `sent, `held
      ensures Sending(data)
    {
      EncodeAllJoin(sent, held);
      StripJoin(sent, held);
      if Clean() { NothingToStrip(held); }
      buffer := [];
      sent, held := sent + held, [];
    }

    // Only the first closing does anything; the streams go with the session.
    method Close()
      requires Valid()
      modifies `closed, `peer
      ensures Valid() && closed && peer == if old(closed) then old(peer) else EndAll(old(peer))
    {
      if !closed {
        closed, peer := true, EndAll(peer);
      }
    }

    method WriteControlFrame(f: Frame) returns (ok: bool)
      requires Valid() && f.cmd != WASTE
      modifies conn, `closed, `peer, `buffer, `sendPadding, `pktCounter, `submitted, `sent, `held, `whole
      ensures Valid() && submitted == old(submitted) + [f]
      ensures whole ==> old(whole)
      ensures old(whole) && SmallScheme(scheme) ==> whole
      ensures if ok then closed == old(closed) && peer == old(peer)
              else closed && conn.broken && peer == if old(closed) then old(peer) else EndAll(old(peer))
      ensures old(conn.wire) <= conn.wire
      ensures buffering ==> Waits(old(conn.writes), old(sendPadding), old(pktCounter), old(buffer) + Encode(f))
      ensures ok && !buffering ==> Emitted(old(conn.writes), old(sendPadding), old(pktCounter), old(buffer) + Encode(f))
    {
      ok := WriteConn(Encode(f), f);
      if !ok {
        Close();
      }
    }

    // The settings of a client wait in the buffer for its first data.
    method Run(settings: seq<byte>) returns (ok: bool)
      requires Valid()
      modifies conn, `closed, `peer, `buffering, `buffer, `sendPadding, `pktCounter, `submitted, `sent, `held, `whole
      ensures Valid() && submitted == old(submitted) + [Frame(SETTINGS, 0, settings)] && buffering
      ensures whole ==> old(whole)
      ensures old(whole) && SmallScheme(scheme) ==> whole
      ensures !ok ==> conn.broken
    {
      buffering := true;
      ok := WriteControlFrame(Frame(SETTINGS, 0, settings));
    }

    // The stream is registered once its open frame is submitted, unless the session has died by then.
    method OpenStream() returns (ok: bool, sid: uint32)
      requires Valid()
      modifies conn, `closed, `peer, `buffering, `buffer, `sendPadding, `pktCounter, `streamId, `submitted, `sent,
               `held, `whole
      ensures Valid()
      ensures if old(closed) then !ok && submitted == old(submitted) && streamId == old(streamId)
              else sid == streamId && sid == (if old(streamId) == 0xFFFF_FFFF then 0 else old(streamId) + 1)
                   && submitted == old(submitted) + [Frame(SYN, sid, [])]
      ensures ok ==> !buffering && !closed && peer == old(peer).(open := old(peer).open[sid := []])
      ensures !ok ==> closed && peer == if old(closed) then old(peer) else EndAll(old(peer))
      ensures whole ==> old(whole)
      ensures old(whole) && SmallScheme(scheme) ==> whole
    {
      sid := 0;
      if closed {
        return false, sid;
      }
      streamId := if streamId == 0xFFFF_FFFF then 0 else streamId + 1;
      sid := streamId;
      ok := WriteControlFrame(Frame(SYN, sid, []));
      if !ok {
        return;
      }
      buffering := false;
      // Another thread may have closed the session meanwhile.
      var died: bool := *;
      if died {
        Close();
        return false, sid;
      }
      peer := peer.(open := peer.open[sid := []]);
    }

    // The length written in the header is cut to 16 bits, the data is not.
    method WriteDataFrame(sid: uint32, data: seq<byte>) returns (ok: bool)
      requires Valid()
      modifies conn, `buffer, `sendPadding, `pktCounter, `submitted, `sent, `held, `whole
      ensures Valid() && submitted == old(submitted) + [Frame(PSH, sid, data)]
      ensures whole ==> old(whole)
      ensures old(whole) && SmallScheme(scheme) ==> whole
      ensures ok && !buffering ==> buffer == [] && !conn.broken
      ensures !ok ==> conn.broken
      ensures buffering ==> Waits(old(conn.writes), old(sendPadding), old(pktCounter),
                                  old(buffer) + Encode(Frame(PSH, sid, data)))
      ensures ok && !buffering ==> Emitted(old(conn.writes), old(sendPadding), old(pktCounter),
                                           old(buffer) + Encode(Frame(PSH, sid, data)))
    {
      ok := WriteConn(Encode(Frame(PSH, sid, data)), Frame(PSH, sid, data));
    }

    method StreamClosed(sid: uint32) returns (ok: bool)
      requires Valid()
      modifies conn, `closed, `peer, `buffer, `sendPadding, `pktCounter, `submitted, `sent, `held, `whole
      ensures Valid()
      ensures submitted == old(submitted) + if old(closed) then [] else [Frame(FIN, sid, [])]
      ensures whole ==> old(whole)
      ensures old(whole) && SmallScheme(scheme) ==> whole
      ensures ok ==> !old(closed) && !closed && peer == End(old(peer), sid)
      ensures !ok ==> closed && (old(closed) || conn.broken)
                      && peer == if old(closed) then old(peer) else EndAll(old(peer))
    {
      if closed {
        return false;
      }
      ok := WriteControlFrame(Frame(FIN, sid, []));
      peer := End(peer, sid);
    }

    // Replies one after the other; a session whose reply fails is closed.
    method SendReplies(f: Frame) returns (ok: bool)
      requires Valid() && !closed && Answering(answers)
      modifies conn, `closed, `peer, `buffer, `sendPadding, `pktCounter, `submitted, `sent, `held, `whole
      ensures Valid() && old(submitted) <= submitted <= old(submitted) + Reply(old(peer), f, answers)
      ensures whole ==> old(whole)
      ensures old(whole) && SmallScheme(scheme) ==> whole
      ensures if ok then !closed && peer == old(peer) && submitted == old(submitted) + Reply(old(peer), f, answers)
              else closed && conn.broken && peer == EndAll(old(peer))
    {
      hide Valid, SmallScheme;
      var replies := Reply(peer, f, answers);
      for i := 0 to |replies|
        invariant Valid() && !closed && peer == old(peer) && submitted == old(submitted) + replies[..i]
        invariant (whole ==> old(whole)) && (old(whole) && SmallScheme(scheme) ==> whole)
      {
        assert replies[i] in replies && replies[..i + 1] == replies[..i] + [replies[i]];
        ok := WriteControlFrame(replies[i]);
        if !ok {
          return;
        }
      }
      assert replies[..|replies|] == replies;
      ok := true;
    }

    // The frames done so far have been handled and answered in full.
    ghost predicate Handled(p: Peer, before: seq<Frame>, done: seq<Frame>)
      reads this
    {
      && peer == HandleAll(p, done) && closed == peer.stopped
      && submitted == before + Replies(p, done, answers)
    }

    // One frame; `more` are the frames behind it.
    method HandleNext(f: Frame, ghost p: Peer, ghost before: seq<Frame>, ghost done: seq<Frame>, ghost more: seq<Frame>)
      returns (ok: bool)
      requires Valid() && !closed && !p.stopped && Answering(answers) && Handled(p, before, done)
      modifies conn, `closed, `peer, `buffer, `sendPadding, `pktCounter, `submitted, `sent, `held, `whole
      ensures Valid()
      ensures whole ==> old(whole)
      ensures old(whole) && SmallScheme(scheme) ==> whole
      ensures ok ==> Handled(p, before, done + [f])
      ensures !ok ==> conn.broken && closed && FailedAt(p, done + ([f] + more), peer)
      ensures before <= submitted <= before + Replies(p, done + ([f] + more), answers)
    {
      hide Handle, HandleAll, Valid, Reply, Replies, Answering, SmallScheme, FailedAt;
      OneMoreHandled(p, done, f, answers);
      assert done + ([f] + more) == done + [f] + more;
      RepliesGrow(p, done + [f], more, answers);
      ok := SendReplies(f);
      if !ok {
        FailsHere(p, done, [f] + more);
        return;
      }
      Take(f);
      if peer.stopped {
        StoppedIsEmpty(p, done + [f]);
        Close();
      }
    }

    method Take(f: Frame)
      requires Valid() && !closed
      modifies `peer
      ensures Valid() && peer == Handle(old(peer), f)
    {
      peer := Handle(peer, f);
    }

    // What holds of handled frames, for a reader that may not look into it.
    lemma HandledIs(p: Peer, before: seq<Frame>, done: seq<Frame>, more: seq<Frame>)
      requires Handled(p, before, done)
      ensures closed == peer.stopped && before <= submitted <= before + Replies(p, done + more, answers)
      ensures closed || more == [] ==> Handled(p, before, done + more)
    {
      hide HandleAll, Replies;
      RepliesGrow(p, done, more, answers);
      if closed || more == [] {
        StoppedStays(p, done, more, answers);
      }
    }

    lemma StartsHandled()
      requires !closed && !peer.stopped
      ensures Handled(peer, submitted, [])
    {
      NothingHandled(peer, answers);
      assert submitted + [] == submitted;
    }

    // Another thread closes the session.
    method Interrupt(ghost p: Peer, ghost before: seq<Frame>, ghost done: seq<Frame>, ghost more: seq<Frame>)
      requires Valid() && !closed && Handled(p, before, done)
      modifies `closed, `peer
      ensures Valid() && closed && FailedAt(p, done + more, peer)
      ensures before <= submitted <= before + Replies(p, done + more, answers)
    {
      HandledIs(p, before, done, more);
      FailsHere(p, done, more);
      Close();
    }

    /** Handles all frames that have arrived, one after the other; stops where the protocol demands it, when a
        reply cannot be written, or when another thread has closed the session, and closes it. */
    method RecvLoop(wire: seq<byte>) returns (ok: bool, interrupted: bool)
      requires Valid() && !closed && !peer.stopped && Answering(answers)
      modifies conn, `closed, `peer, `buffer, `sendPadding, `pktCounter, `submitted, `sent, `held, `whole
      ensures Valid()
      ensures whole ==> old(whole)
      ensures old(whole) && SmallScheme(scheme) ==> whole
      ensures ok ==> Handled(old(peer), old(submitted), Parse(wire).frames)
      ensures !ok ==> (conn.broken || interrupted) && closed && FailedAt(old(peer), Parse(wire).frames, peer)
      ensures old(submitted) <= submitted <= old(submitted) + Replies(old(peer), Parse(wire).frames, answers)
    {
      hide Parse, Handle, HandleAll, Get32, HasBody, BodyLength, Valid, Replies, Answering, SmallScheme, FailedAt;
      StartsHandled();
      hide Handled;
      var at := 0;
      interrupted := false;
      ghost var done: seq<Frame>, p, before := [], peer, submitted;
      assert wire[0..] == wire && [] + Parse(wire).frames == Parse(wire).frames;
      while at + HEADER <= |wire| && !closed
        invariant 0 <= at <= |wire| && Valid() && (whole ==> old(whole))
        invariant old(whole) && SmallScheme(scheme) ==> whole
        invariant Parse(wire).frames == done + Parse(wire[at..]).frames
        invariant Handled(p, before, done)
        decreases |wire| - at
      {
        var closedMeanwhile: bool := *;
        if closedMeanwhile {
          Interrupt(p, before, done, Parse(wire[at..]).frames);
          return false, true;
        }
        var header := wire[at..at + HEADER];
        var length := BodyLength(header);
        if at + HEADER + length > |wire| {
          ParseCut(wire, at);
          break;
        }
        var f := Frame(header[0], Get32(header[1..5]), wire[at + HEADER..at + HEADER + length]);
        ParseStep(wire, at, f);
        ok := HandleNext(f, p, before, done, Parse(wire[at + HEADER + length..]).frames);
        if !ok {
          return;
        }
        done := done + [f];
        at := at + HEADER + length;
      }
      if at + HEADER > |wire| {
        TooShortToParse(wire[at..]);
      }
      HandledIs(p, before, done, Parse(wire[at..]).frames);
      ok := true;
    }
  }

  lemma {:induction false} Onward(before: seq<seq<byte>>, cut: seq<seq<byte>>, record: seq<byte>, more: seq<seq<byte>>)
    ensures before + cut + [record] == before + (cut + [record])
    ensures cut + ([record] + more) == cut + [record] + more
    ensures more == [] ==> cut + ([record] + more) == cut + [record]
  {
  }

  // One entry of the sizes.
  lemma {:induction false} CutStep(data: seq<byte>, sizes: seq<int>)
    requires IsSizes(sizes)
    ensures sizes == [] ==> Cut(data, sizes) == if data == [] then [] else [data]
    ensures sizes != [] && sizes[0] == CHECK_MARK ==>
              Cut(data, sizes) == if data == [] then [] else Cut(data, sizes[1..])
    ensures sizes != [] && sizes[0] != CHECK_MARK ==>
              sizes[0] > 0 && Cut(data, sizes) == [RecordOf(data, sizes[0])] + Cut(RestOf(data, sizes[0]), sizes[1..])
  {
  }

  // The frame joins those in the buffer.
  lemma {:induction false} OneMoreHeld(sent: seq<Frame>, held: seq<Frame>, f: Frame)
    ensures EncodeAll(held + [f]) == EncodeAll(held) + Encode(f) && |Encode(f)| >= 7
    ensures NoWaste(held) && f.cmd != WASTE ==> NoWaste(held + [f])
    ensures Strip(sent) + (held + [f]) == Strip(sent) + held + [f]
  {
    EncodeAllJoin(held, [f]);
    assert [f][..0] == [];
    assert EncodeAll([f]) == Encode(f);
  }

  lemma {:induction false} FitsJoin(a: seq<Frame>, b: seq<Frame>)
    ensures AllWellFormed(a + b) <==> AllWellFormed(a) && AllWellFormed(b)
  {
    assert forall f <- a :: f in a + b;
    assert forall f <- b :: f in a + b;
  }

  lemma {:induction false} OneMoreFits(frames: seq<Frame>, f: Frame)
    ensures AllWellFormed(frames + [f]) <==> AllWellFormed(frames) && WellFormed(f)
  {
    assert f in frames + [f];
    assert forall g <- frames :: g in frames + [f];
  }

  ghost predicate NoWaste(frames: seq<Frame>) { forall f <- frames :: f.cmd != WASTE }

  lemma {:induction false} NothingToStrip(frames: seq<Frame>)
    requires NoWaste(frames)
    ensures Strip(frames) == frames
    decreases |frames|
  {
    if frames != [] {
      NothingToStrip(frames[..|frames| - 1]);
    }
  }

  // ----- Reading -----

  /** The receiving side: the streams that are open with the bytes passed to each, and those that ended. */
  datatype Peer = Peer(
    isClient: bool, settings: bool, stopped: bool,
    open: map<uint32, seq<byte>>, ended: multiset<(uint32, seq<byte>)>)

  function NewPeer(isClient: bool): Peer { Peer(isClient, false, false, map[], multiset{}) }

  function End(p: Peer, sid: uint32): Peer {
    if sid in p.open then p.(open := p.open - {sid}, ended := p.ended + multiset{(sid, p.open[sid])}) else p
  }

  // What closing the session does to its streams.
  function EndAll(p: Peer): Peer { p.(open := map[], ended := p.ended + multiset(p.open.Items)) }

  // What one frame does.
  function Handle(p: Peer, f: Frame): Peer {
    if p.stopped then p
    else if f.cmd == PSH then
      if f.sid in p.open then p.(open := p.open[f.sid := p.open[f.sid] + f.data]) else p
    else if f.cmd == SYN then
      if !p.isClient && !p.settings then EndAll(p).(stopped := true)
      else if f.sid in p.open then p else p.(open := p.open[f.sid := []])
    else if f.cmd == SYNACK then if f.data == [] then p else End(p, f.sid)
    else if f.cmd == FIN then End(p, f.sid)
    else if f.cmd == SETTINGS then if f.data == [] || p.isClient then p else p.(settings := true)
    else if f.cmd == ALERT then if f.data == [] then p else EndAll(p).(stopped := true)
    else p
  }

  function HandleAll(p: Peer, frames: seq<Frame>): Peer {
    if frames == [] then p else Handle(HandleAll(p, frames[..|frames| - 1]), frames[|frames| - 1])
  }

  const NO_SETTINGS := "client did not send its settings"

  function Bytes(text: string): seq<byte> { seq(|text|, i requires 0 <= i < |text| => text[i] as int % 0x100) }

  /** The frames a reader writes back: it complains of missing settings, ends a stream that the other side
      rejects, answers settings and heartbeats. The texts of answers to settings are left open. */
  function Reply(p: Peer, f: Frame, answers: seq<byte> -> seq<Frame>): seq<Frame> {
    if p.stopped then []
    else if f.cmd == SYN && !p.isClient && !p.settings then [Frame(ALERT, 0, Bytes(NO_SETTINGS))]
    else if f.cmd == SYNACK && f.data != [] && f.sid in p.open then [Frame(FIN, f.sid, [])]
    else if f.cmd == SETTINGS && f.data != [] && !p.isClient then answers(f.data)
    else if f.cmd == HEART_REQUEST then [Frame(HEART_RESPONSE, f.sid, [])]
    else []
  }

  function Replies(p: Peer, frames: seq<Frame>, answers: seq<byte> -> seq<Frame>): seq<Frame> {
    if frames == [] then []
    else Replies(p, frames[..|frames| - 1], answers)
         + Reply(HandleAll(p, frames[..|frames| - 1]), frames[|frames| - 1], answers)
  }

  // What one server may answer: a new padding scheme and its own settings.
  ghost predicate Answering(answers: seq<byte> -> seq<Frame>) {
    forall data: seq<byte>, f <- answers(data) :: f.cmd == UPDATE_PADDING_SCHEME || f.cmd == SERVER_SETTINGS
  }

  lemma {:induction false} ParseStep(wire: seq<byte>, at: nat, f: Frame)
    requires at + HEADER <= |wire|
    requires var header := wire[at..at + HEADER];
             var end := at + HEADER + BodyLength(header);
             end <= |wire| && f == Frame(header[0], Get32(header[1..5]), wire[at + HEADER..end])
    ensures Parse(wire[at..]).frames ==
            [f] + Parse(wire[at + HEADER + BodyLength(wire[at..at + HEADER])..]).frames
  {
    hide BodyLength, Get32;
    var w, header := wire[at..], wire[at..at + HEADER];
    var length := BodyLength(header);
    assert w[..HEADER] == header && w[1..5] == header[1..5];
    assert w[HEADER..HEADER + length] == f.data && w[HEADER + length..] == wire[at + HEADER + length..];
  }

  lemma {:induction false} ParseCut(wire: seq<byte>, at: nat)
    requires at + HEADER <= |wire| && at + HEADER + BodyLength(wire[at..at + HEADER]) > |wire|
    ensures Parse(wire[at..]).frames == []
  {
    assert wire[at..][..HEADER] == wire[at..at + HEADER];
  }

  // Reading broke off at some frame and the session was closed.
  ghost predicate FailedAt(p: Peer, frames: seq<Frame>, now: Peer) {
    exists k :: 0 <= k <= |frames| && now == EndAll(HandleAll(p, frames[..k]))
  }

  lemma {:induction false} FailsHere(p: Peer, done: seq<Frame>, rest: seq<Frame>)
    ensures FailedAt(p, done + rest, EndAll(HandleAll(p, done)))
  {
    assert (done + rest)[..|done|] == done;
  }

  lemma {:induction false} NothingHandled(p: Peer, answers: seq<byte> -> seq<Frame>)
    ensures HandleAll(p, []) == p && Replies(p, [], answers) == []
  {
  }

  lemma {:induction false} OneMoreHandled(p: Peer, done: seq<Frame>, f: Frame, answers: seq<byte> -> seq<Frame>)
    ensures HandleAll(p, done + [f]) == Handle(HandleAll(p, done), f)
    ensures Replies(p, done + [f], answers) == Replies(p, done, answers) + Reply(HandleAll(p, done), f, answers)
  {
    assert (done + [f])[..|done|] == done;
  }

  lemma {:induction false} RepliesGrow(p: Peer, done: seq<Frame>, more: seq<Frame>, answers: seq<byte> -> seq<Frame>)
    ensures Replies(p, done, answers) <= Replies(p, done + more, answers)
    decreases |more|
  {
    if more == [] {
      assert done + more == done;
    } else {
      RepliesGrow(p, done, more[..|more| - 1], answers);
      assert (done + more)[..|done + more| - 1] == done + more[..|more| - 1];
    }
  }

  // A step that stops the reader has ended all its streams.
  lemma {:induction false} StoppedIsEmpty(p: Peer, frames: seq<Frame>)
    requires !p.stopped && HandleAll(p, frames).stopped
    ensures HandleAll(p, frames).open == map[] && EndAll(HandleAll(p, frames)) == HandleAll(p, frames)
    decreases |frames|
  {
    if HandleAll(p, frames[..|frames| - 1]).stopped {
      StoppedIsEmpty(p, frames[..|frames| - 1]);
    }
  }

  lemma {:induction false} StoppedStays(
    p: Peer, done: seq<Frame>, more: seq<Frame>, answers: seq<byte> -> seq<Frame>)
    requires HandleAll(p, done).stopped || more == []
    ensures HandleAll(p, done + more) == HandleAll(p, done)
    ensures Replies(p, done + more, answers) == Replies(p, done, answers)
    decreases |more|
  {
    if more == [] {
      assert done + more == done;
    } else {
      StoppedStays(p, done, more[..|more| - 1], answers);
      assert (done + more)[..|done + more| - 1] == done + more[..|more| - 1];
    }
  }

  // ----- From end to end -----

  lemma {:induction false} WasteDoesNothing(p: Peer, frames: seq<Frame>)
    ensures HandleAll(p, Strip(frames)) == HandleAll(p, frames)
    decreases |frames|
  {
    if frames != [] {
      var init, f := frames[..|frames| - 1], frames[|frames| - 1];
      WasteDoesNothing(p, init);
      if f.cmd == WASTE {
        assert Strip(frames) == Strip(init) + [] == Strip(init);
      } else {
        assert Strip(frames) == Strip(init) + [f];
        assert Strip(frames)[..|Strip(frames)| - 1] == Strip(init);
      }
    }
  }

  lemma {:induction false} StripKeepsPrefix(a: seq<Frame>, b: seq<Frame>)
    requires a <= b
    ensures Strip(a) <= Strip(b)
  {
    assert b == a + b[|a|..];
    StripJoin(a, b[|a|..]);
  }

  /** Whatever part of a clean session's bytes has arrived, the reader has done exactly what the first of
      the submitted frames say; once the buffer is empty and all bytes have arrived, what all of them say. */
  lemma {:induction false} ArrivesAsSubmitted(s: Session, p: Peer, wire: seq<byte>)
    requires s.Valid() && s.Clean() && wire <= s.conn.wire
    ensures Strip(Parse(wire).frames) <= s.submitted
    ensures HandleAll(p, Parse(wire).frames) == HandleAll(p, Strip(Parse(wire).frames))
    ensures wire == s.conn.wire && s.buffer == [] && !s.conn.broken ==>
              Parse(wire).rest == [] && Strip(Parse(wire).frames) == s.submitted
              && HandleAll(p, Parse(wire).frames) == HandleAll(p, s.submitted)
  {
    hide Parse;
    PrefixParses(wire, s.sent);
    StripKeepsPrefix(Parse(wire).frames, s.sent);
    WasteDoesNothing(p, Parse(wire).frames);
    if wire == s.conn.wire && s.buffer == [] && !s.conn.broken {
      ParseJoin(s.sent, []);
      TooShortToParse([]);
      assert wire + [] == wire && s.sent + [] == s.sent;
      NothingHeld(s.held);
      assert Strip(s.sent) + [] == Strip(s.sent);
    }
  }

  /** With whole paddings a complete wire reads back as the submitted frames exactly if all of them fit: no
      data of 65536 bytes or more, and none behind a command without a body. */
  lemma {:induction false} ReadsBackIff(s: Session)
    requires s.Valid() && s.whole && s.buffer == [] && !s.conn.broken
    ensures Strip(Parse(s.conn.wire).frames) == s.submitted <==> AllWellFormed(s.submitted)
  {
    ParsedIsWellFormed(s.conn.wire);
    StripKeepsWellFormed(Parse(s.conn.wire).frames);
    if AllWellFormed(s.submitted) {
      ArrivesAsSubmitted(s, NewPeer(false), s.conn.wire);
    }
  }

  lemma {:induction false} NothingHeld(held: seq<Frame>)
    requires EncodeAll(held) == []
    ensures held == []
  {
  }

  // The bytes of a stream's data frames, in order.
  function Pushed(frames: seq<Frame>, sid: uint32): seq<byte> {
    if frames == [] then []
    else Pushed(frames[..|frames| - 1], sid)
         + if frames[|frames| - 1].cmd == PSH && frames[|frames| - 1].sid == sid then frames[|frames| - 1].data else []
  }

  // Nothing in the frames ends the stream or the session.
  predicate Undisturbed(frames: seq<Frame>, sid: uint32) {
    forall f <- frames ::
      && f.cmd != ALERT
      && (f.cmd == FIN ==> f.sid != sid)
      && (f.cmd == SYNACK ==> f.sid != sid || f.data == [])
  }

  // The stream is open with these bytes.
  predicate Receiving(p: Peer, sid: uint32, bytes: seq<byte>) {
    !p.stopped && (p.isClient || p.settings) && sid in p.open && p.open[sid] == bytes
  }

  lemma {:induction false} OneMore(p: Peer, sid: uint32, bytes: seq<byte>, f: Frame)
    requires Receiving(p, sid, bytes) && Undisturbed([f], sid)
    ensures Receiving(Handle(p, f), sid, bytes + if f.cmd == PSH && f.sid == sid then f.data else [])
  {
  }

  lemma {:induction false} HandleLast(p: Peer, frames: seq<Frame>, f: Frame)
    ensures HandleAll(p, frames + [f]) == Handle(HandleAll(p, frames), f)
  {
  }

  lemma {:induction false} PushedLast(frames: seq<Frame>, f: Frame, sid: uint32)
    ensures Pushed(frames + [f], sid) ==
            Pushed(frames, sid) + if f.cmd == PSH && f.sid == sid then f.data else []
  {
  }

  // An open stream receives exactly the data that the frames carry for it, whatever other streams do.
  lemma {:induction false} StreamReceivesMore(p: Peer, sid: uint32, bytes: seq<byte>, frames: seq<Frame>)
    requires Receiving(p, sid, bytes) && Undisturbed(frames, sid)
    ensures Receiving(HandleAll(p, frames), sid, bytes + Pushed(frames, sid))
    decreases |frames|
  {
    if frames == [] {
      assert bytes + [] == bytes;
    } else {
      hide HandleAll, Handle, Receiving, Pushed;
      var init, f := frames[..|frames| - 1], frames[|frames| - 1];
      assert frames == init + [f];
      StreamReceivesMore(p, sid, bytes, init);
      HandleLast(p, init, f);
      PushedLast(init, f, sid);
      OneMore(HandleAll(p, init), sid, bytes + Pushed(init, sid), f);
      var last := if f.cmd == PSH && f.sid == sid then f.data else [];
      assert bytes + Pushed(init, sid) + last == bytes + (Pushed(init, sid) + last);
    }
  }

  lemma {:induction false} HandleJoin(p: Peer, a: seq<Frame>, b: seq<Frame>)
    ensures HandleAll(p, a + b) == HandleAll(HandleAll(p, a), b)
    decreases |b|
  {
    hide Handle;
    if b == [] {
      assert a + b == a;
    } else {
      HandleJoin(p, a, b[..|b| - 1]);
      assert (a + b)[..|a + b| - 1] == a + b[..|b| - 1];
    }
  }

  lemma {:induction false} PushedJoin(a: seq<Frame>, b: seq<Frame>, sid: uint32)
    ensures Pushed(a + b, sid) == Pushed(a, sid) + Pushed(b, sid)
    decreases |b|
  {
    if b == [] {
      assert a + b == a;
    } else {
      hide Pushed;
      var init, f := b[..|b| - 1], b[|b| - 1];
      PushedJoin(a, init, sid);
      PushedLast(a + init, f, sid);
      PushedLast(init, f, sid);
      assert a + b == a + init + [f] && b == init + [f];
      var last := if f.cmd == PSH && f.sid == sid then f.data else [];
      assert Pushed(a, sid) + Pushed(init, sid) + last == Pushed(a, sid) + (Pushed(init, sid) + last);
    }
  }

  // A stream receives exactly the data sent on it since it was opened, whatever other streams do.
  lemma {:induction false} StreamReceivesItsData(p: Peer, sid: uint32, frames: seq<Frame>)
    requires !p.stopped && (p.isClient || p.settings) && sid !in p.open && Undisturbed(frames, sid)
    ensures Receiving(HandleAll(p, [Frame(SYN, sid, [])] + frames), sid, Pushed(frames, sid))
  {
    var syn := Frame(SYN, sid, []);
    HandleLast(p, [], syn);
    assert [] + [syn] == [syn];
    HandleJoin(p, [syn], frames);
    StreamReceivesMore(Handle(p, syn), sid, [], frames);
    assert [] + Pushed(frames, sid) == Pushed(frames, sid);
  }

  lemma {:induction false} FinEnds(q: Peer, sid: uint32, bytes: seq<byte>, data: seq<byte>)
    requires Receiving(q, sid, bytes)
    ensures var end := Handle(q, Frame(FIN, sid, data));
            && end.open == q.open - {sid} && !end.stopped && end.ended == q.ended + multiset{(sid, bytes)}
            && Handle(end, Frame(FIN, sid, data)) == end
  {
  }

  /** The other side's end frame ends its own open stream, with all bytes received so far, and no other one; for a
      stream that is not open it does nothing. */
  lemma {:induction false} EndsWithItsData(p: Peer, sid: uint32, bytes: seq<byte>, frames: seq<Frame>, data: seq<byte>)
    requires Receiving(p, sid, bytes) && Undisturbed(frames, sid)
    ensures var q, end := HandleAll(p, frames), HandleAll(p, frames + [Frame(FIN, sid, data)]);
            && end.open == q.open - {sid} && !end.stopped
            && end.ended == q.ended + multiset{(sid, bytes + Pushed(frames, sid))}
            && HandleAll(p, frames + [Frame(FIN, sid, data), Frame(FIN, sid, data)]) == end
  {
    var fin := Frame(FIN, sid, data);
    StreamReceivesMore(p, sid, bytes, frames);
    HandleLast(p, frames, fin);
    HandleLast(p, frames + [fin], fin);
    FinEnds(HandleAll(p, frames), sid, bytes + Pushed(frames, sid), data);
    hide *;
    assert frames + [fin] + [fin] == frames + [fin, fin];
  }

  // The streams that frames of one command name, in order.
  function Named(frames: seq<Frame>, cmd: byte): seq<uint32> {
    if frames == [] then []
    else Named(frames[..|frames| - 1], cmd)
         + if frames[|frames| - 1].cmd == cmd then [frames[|frames| - 1].sid] else []
  }

  lemma {:induction false} NamedJoin(a: seq<Frame>, b: seq<Frame>, cmd: byte)
    ensures Named(a + b, cmd) == Named(a, cmd) + Named(b, cmd)
    decreases |b|
  {
    if b == [] {
      assert a + b == a;
    } else {
      NamedJoin(a, b[..|b| - 1], cmd);
      assert (a + b)[..|a + b| - 1] == a + b[..|b| - 1];
    }
  }

  /** As long as the reader has not stopped, every heartbeat request is answered once, in order and under its own
      number, and nothing else is answered so; an alert is written exactly by the server that stops because a stream
      is opened before any settings. */
  lemma {:induction false} HeartbeatsAreAnswered(p: Peer, frames: seq<Frame>, answers: seq<byte> -> seq<Frame>)
    requires Answering(answers) && !HandleAll(p, frames).stopped
    ensures Named(Replies(p, frames, answers), HEART_RESPONSE) == Named(frames, HEART_REQUEST)
    ensures Named(Replies(p, frames, answers), ALERT) == []
    decreases |frames|
  {
    if frames != [] {
      var init, f := frames[..|frames| - 1], frames[|frames| - 1];
      HeartbeatsAreAnswered(p, init, answers);
      var reply := Reply(HandleAll(p, init), f, answers);
      NamedJoin(Replies(p, init, answers), reply, HEART_RESPONSE);
      NamedJoin(Replies(p, init, answers), reply, ALERT);
      OneReply(HandleAll(p, init), f, answers);
    }
  }

  lemma {:induction false} OneReply(p: Peer, f: Frame, answers: seq<byte> -> seq<Frame>)
    requires Answering(answers) && !p.stopped
    ensures Named(Reply(p, f, answers), HEART_RESPONSE) == if f.cmd == HEART_REQUEST then [f.sid] else []
    ensures Named(Reply(p, f, answers), ALERT) != [] <==> f.cmd == SYN && !p.isClient && !p.settings
    ensures f.cmd == SYN && !p.isClient && !p.settings ==> Handle(p, f).stopped
  {
    var reply := Reply(p, f, answers);
    if f.cmd == SETTINGS && f.data != [] && !p.isClient {
      NoneNamed(reply, HEART_RESPONSE);
      NoneNamed(reply, ALERT);
    } else if reply != [] {
      assert reply[..0] == [] && reply == [] + [reply[0]];
    }
  }

  lemma {:induction false} NoneNamed(frames: seq<Frame>, cmd: byte)
    requires forall f <- frames :: f.cmd != cmd
    ensures Named(frames, cmd) == []
    decreases |frames|
  {
    if frames != [] {
      NoneNamed(frames[..|frames| - 1], cmd);
    }
  }

  /** A new server that is asked for a stream before it has got any settings stops, and opens none. */
  lemma {:induction false} NoStreamWithoutSettings(frames: seq<Frame>, sid: uint32)
    requires forall f <- frames :: !(f.cmd == SETTINGS && f.data != [])
    ensures var p := HandleAll(NewPeer(false), frames); p.open == map[] && !p.settings
    ensures HandleAll(NewPeer(false), frames + [Frame(SYN, sid, [])]).stopped
    decreases |frames|
  {
    IsServer(frames);
    if frames == [] {
      assert HandleAll(NewPeer(false), frames) == NewPeer(false);
    } else {
      hide HandleAll, Handle;
      var init, f := frames[..|frames| - 1], frames[|frames| - 1];
      assert frames == init + [f] && f in frames;
      NoStreamWithoutSettings(init, sid);
      IsServer(init);
      StaysUnset(HandleAll(NewPeer(false), init), f);
      HandleLast(NewPeer(false), init, f);
    }
    hide HandleAll, Handle;
    StaysUnset(HandleAll(NewPeer(false), frames), Frame(SYN, sid, []));
    HandleLast(NewPeer(false), frames, Frame(SYN, sid, []));
  }

  lemma {:induction false} StaysUnset(p: Peer, f: Frame)
    requires p.open == map[] && !p.settings && !p.isClient
    requires !(f.cmd == SETTINGS && f.data != [])
    ensures Handle(p, f).open == map[] && !Handle(p, f).settings
    ensures f.cmd == SYN ==> Handle(p, f).stopped
  {
  }

  lemma {:induction false} IsServer(frames: seq<Frame>)
    ensures !HandleAll(NewPeer(false), frames).isClient
    decreases |frames|
  {
    if frames != [] {
      IsServer(frames[..|frames| - 1]);
    }
  }

  // ----- Whole conversations -----

  // What a client submits: its settings first, and then only frames of streams.
  ghost predicate FromClient(frames: seq<Frame>) {
    && frames != [] && frames[0].cmd == SETTINGS && frames[0].data != []
    && forall i :: 1 <= i < |frames| ==> frames[i].cmd in {SYN, PSH, FIN}
  }

  // No frame before the k-th names the stream, and the k-th opens it.
  ghost predicate OpensAt(frames: seq<Frame>, k: nat, sid: uint32) {
    0 < k < |frames| && frames[k] == Frame(SYN, sid, []) && forall i :: 1 <= i < k ==> frames[i].sid != sid
  }

  lemma {:induction false} BeforeOpening(frames: seq<Frame>, k: nat, sid: uint32)
    requires FromClient(frames) && 0 < k <= |frames| && forall i :: 1 <= i < k ==> frames[i].sid != sid
    ensures var p := HandleAll(NewPeer(false), frames[..k]);
            !p.stopped && !p.isClient && p.settings && sid !in p.open && Pushed(frames[..k], sid) == []
    decreases k
  {
    hide Handle;
    var init, f := frames[..k - 1], frames[k - 1];
    assert frames[..k] == init + [f] && frames[..k][..k - 1] == init;
    HandleLast(NewPeer(false), init, f);
    PushedLast(init, f, sid);
    if k > 1 {
      BeforeOpening(frames, k - 1, sid);
      LeavesUnopened(HandleAll(NewPeer(false), init), f, sid);
    } else {
      assert init == [];
      SettingsArrive(f);
    }
  }

  lemma {:induction false} SettingsArrive(f: Frame)
    requires f.cmd == SETTINGS && f.data != []
    ensures Handle(NewPeer(false), f) == NewPeer(false).(settings := true)
  {
  }

  lemma {:induction false} LeavesUnopened(p: Peer, f: Frame, sid: uint32)
    requires !p.stopped && !p.isClient && p.settings && sid !in p.open && f.sid != sid && f.cmd in {SYN, PSH, FIN}
    ensures var q := Handle(p, f); !q.stopped && !q.isClient && q.settings && sid !in q.open
  {
  }

  /** From client to server: once everything a client session has submitted has arrived at a new server
      session, each stream that was opened and not ended holds exactly the data written to it. */
  lemma {:induction false} ServerHasStream(s: Session, k: nat, sid: uint32)
    requires s.Valid() && s.Clean() && s.buffer == [] && !s.conn.broken
    requires FromClient(s.submitted) && OpensAt(s.submitted, k, sid) && Undisturbed(s.submitted[k + 1..], sid)
    ensures Receiving(HandleAll(NewPeer(false), Parse(s.conn.wire).frames), sid, Pushed(s.submitted, sid))
  {
    hide Parse, Handle, HandleAll, Pushed, AllWellFormed, EncodeAll, Strip, Undisturbed, Receiving;
    var frames := s.submitted;
    ArrivesAsSubmitted(s, NewPeer(false), s.conn.wire);
    BeforeOpening(frames, k, sid);
    var rest := frames[k + 1..];
    var opening := [frames[k]] + rest;
    assert frames == frames[..k] + opening;
    HandleJoin(NewPeer(false), frames[..k], opening);
    StreamReceivesItsData(HandleAll(NewPeer(false), frames[..k]), sid, rest);
    PushedJoin(frames[..k], opening, sid);
    PushedJoin([frames[k]], rest, sid);
    NoData(frames[k], sid);
    assert [] + ([] + Pushed(rest, sid)) == Pushed(rest, sid);
  }

  lemma {:induction false} NoData(f: Frame, sid: uint32)
    requires f.cmd != PSH
    ensures Pushed([f], sid) == []
  {
    assert [f][..0] == [];
  }

  /** From server to client: a stream that the client has open receives exactly what the server's session
      submits for it. */
  lemma {:induction false} ClientHasStream(s: Session, p: Peer, sid: uint32, bytes: seq<byte>)
    requires s.Valid() && s.Clean() && s.buffer == [] && !s.conn.broken
    requires Receiving(p, sid, bytes) && Undisturbed(s.submitted, sid)
    ensures Receiving(HandleAll(p, Parse(s.conn.wire).frames), sid, bytes + Pushed(s.submitted, sid))
  {
    hide Parse, HandleAll, Pushed;
    ArrivesAsSubmitted(s, p, s.conn.wire);
    StreamReceivesMore(p, sid, bytes, s.submitted);
  }

  // What an application does with a client session.
  datatype Use = Opens | Writes(sid: uint32, data: seq<byte>) | Ends(sid: uint32)

  function NextId(sid: uint32): uint32 { if sid == 0xFFFF_FFFF then 0 else sid + 1 }

  function LastId(uses: seq<Use>): uint32 {
    if uses == [] then 0
    else if uses[|uses| - 1].Opens? then NextId(LastId(uses[..|uses| - 1]))
    else LastId(uses[..|uses| - 1])
  }

  function FrameOf(uses: seq<Use>, u: Use): Frame {
    match u
    case Opens => Frame(SYN, NextId(LastId(uses)), [])
    case Writes(sid, data) => Frame(PSH, sid, data)
    case Ends(sid) => Frame(FIN, sid, [])
  }

  // The frames of the uses, in order, behind the settings.
  function Script(settings: seq<byte>, uses: seq<Use>): seq<Frame> {
    if uses == [] then [Frame(SETTINGS, 0, settings)]
    else Script(settings, uses[..|uses| - 1]) + [FrameOf(uses[..|uses| - 1], uses[|uses| - 1])]
  }

  lemma {:induction false} ScriptIsFromClient(settings: seq<byte>, uses: seq<Use>)
    requires settings != []
    ensures FromClient(Script(settings, uses)) && |Script(settings, uses)| == |uses| + 1
    decreases |uses|
  {
    if uses != [] {
      ScriptIsFromClient(settings, uses[..|uses| - 1]);
    }
  }

  /** A new client session, used in any way, submits its settings and one frame for each use, as long as it
      is not closed and the connection works; with `ServerHasStream`, that is what the server has. */
  method Converse(conn: Conn, scheme: Scheme, answers: seq<byte> -> seq<Frame>, settings: seq<byte>, uses: seq<Use>)
    returns (s: Session, ok: bool)
    requires conn.wire == [] && settings != []
    modifies conn
    ensures fresh(s) && s.conn == conn && s.Valid() && (SmallScheme(scheme) ==> s.whole)
    ensures ok ==> s.submitted == Script(settings, uses) && FromClient(s.submitted)
    ensures !ok ==> s.closed || conn.broken
  {
    hide Session.Valid, SmallScheme, FromClient;
    s := new Session(conn, true, scheme, answers);
    ok := s.Run(settings);
    if !ok {
      return;
    }
    for i := 0 to |uses|
      invariant fresh(s) && s.conn == conn && s.Valid() && (SmallScheme(scheme) ==> s.whole) && s.scheme == scheme
      invariant s.submitted == Script(settings, uses[..i]) && s.streamId == LastId(uses[..i])
    {
      assert uses[..i + 1][..i] == uses[..i];
      match uses[i] {
        case Opens =>
          var sid;
          ok, sid := s.OpenStream();
        case Writes(sid, data) =>
          ok := s.WriteDataFrame(sid, data);
        case Ends(sid) =>
          ok := s.StreamClosed(sid);
      }
      if !ok {
        return;
      }
    }
    assert uses[..|uses|] == uses;
    ScriptIsFromClient(settings, uses);
    ok := true;
  }
}
