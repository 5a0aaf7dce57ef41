/** Port ranges: merging into the unique sorted, disjoint, non-adjacent form. */
module PortSet {
  datatype Range = Range(from: int, to: int) {
    predicate Contains(port: int) { from <= port <= to }

    predicate Overlaps(other: Range) { from <= other.to && other.from <= to }

    predicate Valid() { 0 < from <= to <= 65535 }
  }

  ghost predicate AllValid(ranges: seq<Range>) {
    forall i :: 0 <= i < |ranges| ==> ranges[i].Valid()
  }

  ghost predicate Covers(ranges: seq<Range>, port: int) {
    exists i :: 0 <= i < |ranges| && ranges[i].Contains(port)
  }

  ghost predicate SortedByFrom(ranges: seq<Range>) {
    forall i, j :: 0 <= i < j < |ranges| ==> ranges[i].from <= ranges[j].from
  }

  // Sorted, disjoint and with a gap between neighbours.
  ghost predicate Canonical(ranges: seq<Range>) {
    AllValid(ranges) && forall i, j :: 0 <= i < j < |ranges| ==> ranges[i].to + 1 < ranges[j].from
  }

  // sort.Slice leaves the order of equal keys open; an insertion sort stands for it.
  function Place(ordered: seq<Range>, r: Range): seq<Range> {
    if ordered == [] || r.from <= ordered[0].from then [r] + ordered
    else [ordered[0]] + Place(ordered[1..], r)
  }

  lemma {:induction false} PlaceSorts(ordered: seq<Range>, r: Range)
    requires SortedByFrom(ordered)
    ensures SortedByFrom(Place(ordered, r))
  {
    if ordered != [] && r.from > ordered[0].from {
      PlaceSorts(ordered[1..], r);
      PlaceStaysAbove(ordered[1..], r, ordered[0].from);
    }
  }

  lemma {:induction false} PlaceKeepsElements(ordered: seq<Range>, r: Range)
    ensures multiset(Place(ordered, r)) == multiset(ordered) + multiset{r}
  {
    if ordered != [] {
      PlaceKeepsElements(ordered[1..], r);
      assert ordered == [ordered[0]] + ordered[1..];
    }
  }

  lemma {:induction false} PlaceStaysAbove(ordered: seq<Range>, r: Range, bound: int)
    requires r.from >= bound && forall i :: 0 <= i < |ordered| ==> ordered[i].from >= bound
    ensures forall i :: 0 <= i < |Place(ordered, r)| ==> Place(ordered, r)[i].from >= bound
  {
    if ordered != [] {
      PlaceStaysAbove(ordered[1..], r, bound);
    }
  }

  method Sort(ranges: seq<Range>) returns (ordered: seq<Range>)
    ensures SortedByFrom(ordered) && multiset(ordered) == multiset(ranges)
  {
    ordered := [];
    for i := 0 to |ranges|
      invariant SortedByFrom(ordered) && multiset(ordered) == multiset(ranges[..i])
    {
      PlaceSorts(ordered, ranges[i]);
      PlaceKeepsElements(ordered, ranges[i]);
      assert ranges[..i + 1] == ranges[..i] + [ranges[i]];
      ordered := Place(ordered, ranges[i]);
    }
    assert ranges[..|ranges|] == ranges;
  }

  lemma SameElementsCoverSame(a: seq<Range>, b: seq<Range>, port: int)
    requires multiset(a) == multiset(b)
    ensures Covers(a, port) <==> Covers(b, port)
    ensures AllValid(a) ==> AllValid(b)
  {
    CoverIncluded(a, b, port);
    CoverIncluded(b, a, port);
    forall i | AllValid(a) && 0 <= i < |b| ensures b[i].Valid() {
      assert b[i] in multiset(b);
      assert b[i] in a;
    }
  }

  lemma CoverIncluded(a: seq<Range>, b: seq<Range>, port: int)
    requires multiset(a) == multiset(b)
    ensures Covers(a, port) ==> Covers(b, port)
  {
    if Covers(a, port) {
      var i :| 0 <= i < |a| && a[i].Contains(port);
      assert a[i] in multiset(a);
      assert a[i] in b;
      var j :| 0 <= j < |b| && b[j] == a[i];
    }
  }

  method Merge(ranges: seq<Range>) returns (merged: seq<Range>)
    requires AllValid(ranges)
    ensures Canonical(merged)
    ensures forall port :: Covers(merged, port) <==> Covers(ranges, port)
  {
    if |ranges| == 0 {
      return [];
    }
    var ordered := Sort(ranges);
    forall port ensures Covers(ordered, port) <==> Covers(ranges, port) {
      SameElementsCoverSame(ranges, ordered, port);
    }
    SameElementsCoverSame(ranges, ordered, 0);
    assert |ordered| == |multiset(ordered)| == |ranges|;
    merged := [ordered[0]];
    assert ordered[..1] == [ordered[0]];
    for i := 1 to |ordered|
      invariant |merged| > 0 && Canonical(merged)
      invariant forall j :: i <= j < |ordered| ==> merged[|merged| - 1].from <= ordered[j].from
      invariant forall port :: Covers(merged, port) <==> Covers(ordered[..i], port)
    {
      var current := ordered[i];
      var previous := merged[|merged| - 1];
      ghost var before := merged;
      if current.from <= previous.to + 1 {
        merged := merged[|merged| - 1 := Range(previous.from, if previous.to < current.to then current.to else previous.to)];
      } else {
        merged := merged + [current];
      }
      forall port ensures Covers(merged, port) <==> Covers(ordered[..i + 1], port) {
        StepCovers(before, merged, ordered, i, port);
      }
    }
    assert ordered[..|ordered|] == ordered;
  }

  lemma StepCovers(before: seq<Range>, after: seq<Range>, ordered: seq<Range>, i: nat, port: int)
    requires i < |ordered| && |before| > 0 && AllValid(before) && AllValid(ordered)
    requires Covers(before, port) <==> Covers(ordered[..i], port)
    requires var last, current := before[|before| - 1], ordered[i];
             if current.from <= last.to + 1 then
               last.from <= current.from
               && after == before[|before| - 1 := Range(last.from, if last.to < current.to then current.to else last.to)]
             else after == before + [current]
    ensures Covers(after, port) <==> Covers(ordered[..i + 1], port)
  {
    var n, current := |before| - 1, ordered[i];
    assert Covers(ordered[..i + 1], port) <==> Covers(ordered[..i], port) || current.Contains(port) by {
      if Covers(ordered[..i], port) {
        var k :| 0 <= k < i && ordered[..i][k].Contains(port);
        assert ordered[..i + 1][k].Contains(port);
      }
      if current.Contains(port) {
        assert ordered[..i + 1][i].Contains(port);
      }
      if Covers(ordered[..i + 1], port) {
        var k :| 0 <= k < i + 1 && ordered[..i + 1][k].Contains(port);
        assert k == i || ordered[..i][k].Contains(port);
      }
    }
    if Covers(before, port) {
      var k :| 0 <= k < |before| && before[k].Contains(port);
      assert after[k].Contains(port);
    }
    if current.Contains(port) {
      assert after[|after| - 1].Contains(port);
    }
    if Covers(after, port) {
      var k :| 0 <= k < |after| && after[k].Contains(port);
      if k < n {
        assert before[k].Contains(port);
      } else if k == n {
        assert before[n].Contains(port) || current.Contains(port);
      }
    }
  }

  // ----- The canonical form is unique -----

  lemma {:induction false} CanonicalUnique(a: seq<Range>, b: seq<Range>)
    requires Canonical(a) && Canonical(b)
    requires forall port :: Covers(a, port) <==> Covers(b, port)
    ensures a == b
  {
    if a == [] {
      if b != [] {
        assert b[0].Contains(b[0].from);
        assert Covers(b, b[0].from);
      }
    } else if b == [] {
      assert a[0].Contains(a[0].from);
      assert Covers(a, a[0].from);
    } else {
      FirstRangesAgree(a, b);
      FirstRangesAgree(b, a);
      forall port ensures Covers(a[1..], port) <==> Covers(b[1..], port) {
        CoversTail(a, port);
        CoversTail(b, port);
      }
      CanonicalUnique(a[1..], b[1..]);
      assert a == [a[0]] + a[1..] && b == [b[0]] + b[1..];
    }
  }

  lemma CoversTail(a: seq<Range>, port: int)
    requires Canonical(a) && a != []
    ensures Covers(a[1..], port) <==> Covers(a, port) && !a[0].Contains(port)
  {
  }

  // Neither first range can start later nor end earlier than the other.
  lemma FirstRangesAgree(a: seq<Range>, b: seq<Range>)
    requires Canonical(a) && Canonical(b) && a != [] && b != []
    requires forall port :: Covers(a, port) <==> Covers(b, port)
    ensures b[0].from <= a[0].from && (a[0].from == b[0].from ==> a[0].to <= b[0].to)
  {
    assert a[0].Contains(a[0].from);
    assert Covers(b, a[0].from);
    var k :| 0 <= k < |b| && b[k].Contains(a[0].from);
    assert b[0].from <= b[k].from;
    if a[0].from == b[0].from && b[0].to < a[0].to {
      var port := b[0].to + 1;
      NextPortUncovered(b, port);
      assert a[0].Contains(port);
      assert false;
    }
  }

  lemma NextPortUncovered(b: seq<Range>, port: int)
    requires Canonical(b) && b != [] && port == b[0].to + 1
    ensures !Covers(b, port)
  {
  }

  // Any two orders of the same ranges merge to the same list.
  lemma MergeOrderIrrelevant(ranges: seq<Range>, permuted: seq<Range>, merged: seq<Range>, merged': seq<Range>)
    requires multiset(ranges) == multiset(permuted)
    requires Canonical(merged) && forall port :: Covers(merged, port) <==> Covers(ranges, port)
    requires Canonical(merged') && forall port :: Covers(merged', port) <==> Covers(permuted, port)
    ensures merged == merged'
  {
    forall port ensures Covers(merged, port) <==> Covers(merged', port) {
      SameElementsCoverSame(ranges, permuted, port);
    }
    CanonicalUnique(merged, merged');
  }

  method Without(ranges: seq<Range>, port: int) returns (result: seq<Range>)
    requires AllValid(ranges)
    ensures AllValid(result)
    ensures forall p :: Covers(result, p) <==> Covers(ranges, p) && p != port
  {
    result := [];
    for i := 0 to |ranges|
      invariant AllValid(result)
      invariant forall p :: Covers(result, p) <==> Covers(ranges[..i], p) && p != port
    {
      var r := ranges[i];
      var parts := [];
      if !r.Contains(port) {
        parts := [r];
      } else {
        if r.from < port {
          parts := parts + [Range(r.from, port - 1)];
        }
        if port < r.to {
          parts := parts + [Range(port + 1, r.to)];
        }
      }
      forall p ensures Covers(result + parts, p) <==> Covers(ranges[..i + 1], p) && p != port {
        CoversAppend(result, parts, p);
        CoversAppend(ranges[..i], [r], p);
        assert ranges[..i + 1] == ranges[..i] + [r];
        assert Covers([r], p) <==> r.Contains(p) by {
          assert [r][0] == r;
        }
        PartsCover(r, port, parts, p);
      }
      result := result + parts;
    }
    assert ranges[..|ranges|] == ranges;
  }

  lemma CoversAppend(a: seq<Range>, b: seq<Range>, port: int)
    ensures Covers(a + b, port) <==> Covers(a, port) || Covers(b, port)
  {
    if Covers(a, port) {
      var i :| 0 <= i < |a| && a[i].Contains(port);
      assert (a + b)[i].Contains(port);
    }
    if Covers(b, port) {
      var i :| 0 <= i < |b| && b[i].Contains(port);
      assert (a + b)[|a| + i].Contains(port);
    }
  }

  lemma PartsCover(r: Range, port: int, parts: seq<Range>, p: int)
    requires parts == if !r.Contains(port) then [r]
                      else (if r.from < port then [Range(r.from, port - 1)] else [])
                           + (if port < r.to then [Range(port + 1, r.to)] else [])
    ensures Covers(parts, p) <==> r.Contains(p) && p != port
  {
    if r.Contains(p) && p != port {
      if !r.Contains(port) || p < port {
        assert parts[0].Contains(p);
      } else {
        assert parts[|parts| - 1].Contains(p);
      }
    }
  }
}
