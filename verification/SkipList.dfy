/** The skip list behind the AnyTLS idle-session pool, as linked nodes updated in place.

    `chain` lists the head and then the nodes in level-0 order, `heights[k]` is the number of levels of
    `chain[k]`, and `links[k]` its forward slice. `WellLinked` says where every forward link of every level
    points: to the nearest later node tall enough to be on that level. */
module SkipLists {
  import opened Options

  const MAX_LEVEL: nat := 40

  class Node<V> {
    const key: int
    var value: V
    var next: seq<Node?<V>>

    constructor (level: nat, key: int, value: V)
      ensures this.key == key && this.value == value && next == seq(level, _ => null)
    {
      this.key := key;
      this.value := value;
      next := seq(level, _ => null);
    }
  }

  // ----- Positions: which index each link leads to -----

  // The first index after k that is on level i; the length of the list if there is none.
  function NextIndex(heights: seq<nat>, k: nat, i: nat): (j: nat)
    requires k < |heights|
    ensures k < j <= |heights|
    ensures j < |heights| ==> i < heights[j]
    decreases |heights| - k
  {
    if k + 1 == |heights| then k + 1
    else if i < heights[k + 1] then k + 1
    else NextIndex(heights, k + 1, i)
  }

  lemma NextIndexSkips(heights: seq<nat>, k: nat, i: nat)
    requires k < |heights|
    ensures forall m :: k < m < NextIndex(heights, k, i) ==> heights[m] <= i
    decreases |heights| - k
  {
    if k + 1 < |heights| && heights[k + 1] <= i {
      NextIndexSkips(heights, k + 1, i);
    }
  }

  lemma NextIndexUnique(heights: seq<nat>, k: nat, i: nat, j: nat)
    requires k < j <= |heights|
    requires j < |heights| ==> i < heights[j]
    requires forall m :: k < m < j ==> heights[m] <= i
    ensures NextIndex(heights, k, i) == j
  {
    NextIndexSkips(heights, k, i);
  }

  // q is the last index before p that is on level i.
  ghost predicate Precedes(heights: seq<nat>, q: nat, i: nat, p: nat) {
    q < p <= |heights| && i < heights[q] && p <= NextIndex(heights, q, i)
  }

  lemma PredecessorUnique(heights: seq<nat>, q: nat, k: nat, i: nat, p: nat)
    requires Precedes(heights, q, i, p) && Precedes(heights, k, i, p)
    ensures q == k
  {
    NextIndexSkips(heights, q, i);
    NextIndexSkips(heights, k, i);
  }

  function Shift(k: nat, p: nat): nat { if k < p then k else k + 1 }

  function Inserted<T>(s: seq<T>, p: nat, x: T): (r: seq<T>)
    requires p <= |s|
    ensures |r| == |s| + 1
    ensures forall j :: 0 <= j < |r| ==> r[j] == if j < p then s[j] else if j == p then x else s[j - 1]
  {
    seq(|s| + 1, j requires 0 <= j < |s| + 1 => if j < p then s[j] else if j == p then x else s[j - 1])
  }

  function Deleted<T>(s: seq<T>, p: nat): (r: seq<T>)
    requires p < |s|
    ensures |r| == |s| - 1
    ensures forall j :: 0 <= j < |r| ==> r[j] == s[Shift(j, p)]
  {
    seq(|s| - 1, j requires 0 <= j < |s| - 1 => s[Shift(j, p)])
  }

  lemma DeletedInserted<T>(s: seq<T>, p: nat)
    requires p < |s|
    ensures Inserted(Deleted(s, p), p, s[p]) == s
  {
  }

  // Where links lead once a node of height `level` stands at position p: links that crossed p on its
  // levels lead to it, all others to where they led.
  lemma NextAfterInsert(heights: seq<nat>, p: nat, level: nat, k: nat, i: nat)
    requires k < |heights| && 1 <= p <= |heights|
    ensures var j := NextIndex(heights, k, i);
            NextIndex(Inserted<nat>(heights, p, level), Shift(k, p), i) ==
            if k < p <= j && i < level then p else Shift(j, p)
  {
    if k >= p {
      NextFromPast(heights, p, level, k, i);
    } else {
      NextFromBefore(heights, p, level, k, i);
    }
  }

  lemma NextFromPast(heights: seq<nat>, p: nat, level: nat, k: nat, i: nat)
    requires 1 <= p <= k < |heights|
    ensures NextIndex(Inserted<nat>(heights, p, level), k + 1, i) == NextIndex(heights, k, i) + 1
  {
    NextIndexSkips(heights, k, i);
    NextIndexUnique(Inserted<nat>(heights, p, level), k + 1, i, NextIndex(heights, k, i) + 1);
  }

  lemma NextFromBefore(heights: seq<nat>, p: nat, level: nat, k: nat, i: nat)
    requires k < p <= |heights|
    ensures var j := NextIndex(heights, k, i);
            NextIndex(Inserted<nat>(heights, p, level), k, i) ==
            if j < p then j else if i < level then p else j + 1
  {
    var j := NextIndex(heights, k, i);
    NextIndexSkips(heights, k, i);
    NextIndexUnique(Inserted<nat>(heights, p, level), k, i, if j < p then j else if i < level then p else j + 1);
  }

  lemma NextOfInserted(heights: seq<nat>, p: nat, level: nat, q: nat, i: nat)
    requires Precedes(heights, q, i, p)
    ensures NextIndex(Inserted<nat>(heights, p, level), p, i) == NextIndex(heights, q, i) + 1
  {
    NextIndexSkips(heights, q, i);
    NextIndexUnique(Inserted<nat>(heights, p, level), p, i, NextIndex(heights, q, i) + 1);
  }

  // ----- Links -----

  function At<V>(chain: seq<Node<V>>, j: nat): Node?<V> {
    if j < |chain| then chain[j] else null
  }

  ghost predicate Sized<V>(links: seq<seq<Node?<V>>>, heights: seq<nat>) {
    |links| == |heights| && forall k :: 0 <= k < |links| ==> |links[k]| == heights[k]
  }

  function Entry<V>(links: seq<seq<Node?<V>>>, k: nat, i: nat): Node?<V> {
    if k < |links| && i < |links[k]| then links[k][i] else null
  }

  ghost predicate WellLinked<V>(chain: seq<Node<V>>, heights: seq<nat>, links: seq<seq<Node?<V>>>) {
    && |chain| == |heights| && Sized(links, heights)
    && forall k: nat, i: nat :: k < |heights| && i < heights[k] ==>
         Entry(links, k, i) == At(chain, NextIndex(heights, k, i))
  }

  // preds[i] is the predecessor of position p on each level below `level`.
  ghost predicate Predecessors(heights: seq<nat>, preds: seq<nat>, level: nat, p: nat) {
    1 <= p <= |heights| && level <= |preds| && forall i :: 0 <= i < level ==> Precedes(heights, preds[i], i, p)
  }

  // Linking in a node: its predecessors point to it and it takes over their old targets.
  ghost predicate LinkedIn<V>(heights: seq<nat>, small: seq<seq<Node?<V>>>, big: seq<seq<Node?<V>>>,
                              preds: seq<nat>, p: nat, node: Node<V>, level: nat)
    requires p <= |heights| && level <= |preds|
  {
    && Sized(big, Inserted<nat>(heights, p, level))
    && (forall i: nat :: i < level ==> Entry(big, p, i) == Entry(small, preds[i], i))
    && (forall k: nat, i: nat :: k < |heights| && i < heights[k] ==>
          Entry(big, Shift(k, p), i) == if i < level && preds[i] == k then node else Entry(small, k, i))
  }

  // Linking out: the predecessors take over the links of the node at index p.
  ghost predicate LinkedOut<V>(heights: seq<nat>, small: seq<seq<Node?<V>>>, big: seq<seq<Node?<V>>>,
                               preds: seq<nat>, p: nat, level: nat)
    requires level <= |preds|
  {
    && Sized(small, heights)
    && forall k: nat, i: nat :: k < |heights| && i < heights[k] ==>
         Entry(small, k, i) == if i < level && preds[i] == k then Entry(big, p, i) else Entry(big, Shift(k, p), i)
  }

  // The slice of node k once the links that lead from it on the first `count` levels are redirected.
  function Redirected<V>(slice: seq<Node?<V>>, preds: seq<nat>, k: nat, count: nat, targets: seq<Node?<V>>)
    : (r: seq<Node?<V>>)
    requires count <= |preds| && count <= |targets|
    ensures |r| == |slice|
    ensures forall i :: 0 <= i < |r| ==> r[i] == if i < count && preds[i] == k then targets[i] else slice[i]
  {
    seq(|slice|, i requires 0 <= i < |slice| => if i < count && preds[i] == k then targets[i] else slice[i])
  }

  lemma RedirectedStep<V>(slice: seq<Node?<V>>, preds: seq<nat>, k: nat, i: nat, targets: seq<Node?<V>>)
    requires i < |preds| && i < |targets|
    ensures Redirected(slice, preds, k, i + 1, targets) ==
            if preds[i] == k && i < |slice| then Redirected(slice, preds, k, i, targets)[i := targets[i]]
            else Redirected(slice, preds, k, i, targets)
  {
  }

  // The slice of a new node once it has taken over `count` links from its predecessors.
  function TakenOver<V>(links: seq<seq<Node?<V>>>, preds: seq<nat>, count: nat, level: nat): (r: seq<Node?<V>>)
    requires count <= level <= |preds|
    ensures |r| == level
    ensures forall i :: 0 <= i < level ==> r[i] == if i < count then Entry(links, preds[i], i) else null
  {
    seq(level, i requires 0 <= i < level => if i < count then Entry(links, preds[i], i) else null)
  }

  lemma TakenOverStep<V>(links: seq<seq<Node?<V>>>, preds: seq<nat>, i: nat, level: nat)
    requires i < level <= |preds|
    ensures TakenOver(links, preds, i + 1, level) == TakenOver(links, preds, i, level)[i := Entry(links, preds[i], i)]
  {
  }

  lemma AtShifted<V>(chain: seq<Node<V>>, p: nat, node: Node<V>, j: nat)
    requires p <= |chain|
    ensures At(Inserted(chain, p, node), Shift(j, p)) == At(chain, j)
    ensures At(Inserted(chain, p, node), p) == node
  {
  }

  lemma CrossingIsPredecessor(heights: seq<nat>, preds: seq<nat>, level: nat, p: nat, k: nat, i: nat)
    requires Predecessors(heights, preds, level, p) && k < |heights| && i < heights[k] && i < level
    ensures preds[i] == k <==> k < p <= NextIndex(heights, k, i)
  {
    assert Precedes(heights, preds[i], i, p);
    NextIndexSkips(heights, preds[i], i);
    if k < p <= NextIndex(heights, k, i) {
      PredecessorUnique(heights, preds[i], k, i, p);
    }
  }

  // A link that led across p now leads to the node, and the node leads where it led; others are the same.
  lemma TargetAfterInsert<V>(chain: seq<Node<V>>, heights: seq<nat>, preds: seq<nat>, p: nat, node: Node<V>,
                             level: nat, k: nat, i: nat)
    requires |chain| == |heights| && Predecessors(heights, preds, level, p)
    requires k < |heights| && i < heights[k]
    ensures var chain', heights' := Inserted(chain, p, node), Inserted<nat>(heights, p, level);
            var before, after := At(chain, NextIndex(heights, k, i)), At(chain', NextIndex(heights', Shift(k, p), i));
            if i < level && preds[i] == k then after == node && At(chain', NextIndex(heights', p, i)) == before
            else after == before
  {
    var j := NextIndex(heights, k, i);
    NextAfterInsert(heights, p, level, k, i);
    AtShifted(chain, p, node, j);
    if i < level {
      CrossingIsPredecessor(heights, preds, level, p, k, i);
      if preds[i] == k {
        NextOfInserted(heights, p, level, k, i);
      }
    }
  }

  // The new node leads where its predecessors led.
  lemma NewNodeLinks<V>(chain: seq<Node<V>>, heights: seq<nat>, small: seq<seq<Node?<V>>>,
                        big: seq<seq<Node?<V>>>, preds: seq<nat>, p: nat, node: Node<V>, level: nat, i: nat)
    requires WellLinked(chain, heights, small) && Predecessors(heights, preds, level, p)
    requires LinkedIn(heights, small, big, preds, p, node, level) && i < level
    ensures Entry(big, p, i) == At(Inserted(chain, p, node), NextIndex(Inserted<nat>(heights, p, level), p, i))
  {
    assert Precedes(heights, preds[i], i, p);
    NextOfInserted(heights, p, level, preds[i], i);
    AtShifted(chain, p, node, NextIndex(heights, preds[i], i));
  }

  lemma LinkInKeepsWellLinked<V>(chain: seq<Node<V>>, heights: seq<nat>, small: seq<seq<Node?<V>>>,
                                 big: seq<seq<Node?<V>>>, preds: seq<nat>, p: nat, node: Node<V>, level: nat)
    requires WellLinked(chain, heights, small) && Predecessors(heights, preds, level, p)
    requires LinkedIn(heights, small, big, preds, p, node, level)
    ensures WellLinked(Inserted(chain, p, node), Inserted<nat>(heights, p, level), big)
  {
    var heights' := Inserted<nat>(heights, p, level);
    forall k: nat, i: nat | k < |heights'| && i < heights'[k]
      ensures Entry(big, k, i) == At(Inserted(chain, p, node), NextIndex(heights', k, i))
    {
      if k == p {
        NewNodeLinks(chain, heights, small, big, preds, p, node, level, i);
      } else {
        var o: nat := if k < p then k else k - 1;
        assert k == Shift(o, p) && heights'[k] == heights[o];
        TargetAfterInsert(chain, heights, preds, p, node, level, o, i);
      }
    }
  }

  lemma LinkOutKeepsWellLinked<V>(chain: seq<Node<V>>, heights: seq<nat>, small: seq<seq<Node?<V>>>,
                                  big: seq<seq<Node?<V>>>, preds: seq<nat>, p: nat, node: Node<V>, level: nat)
    requires |chain| == |heights| && Predecessors(heights, preds, level, p)
    requires WellLinked(Inserted(chain, p, node), Inserted<nat>(heights, p, level), big)
    requires LinkedOut(heights, small, big, preds, p, level)
    ensures WellLinked(chain, heights, small)
  {
    forall k: nat, i: nat | k < |heights| && i < heights[k]
      ensures Entry(small, k, i) == At(chain, NextIndex(heights, k, i))
    {
      TargetAfterInsert(chain, heights, preds, p, node, level, k, i);
      assert Inserted<nat>(heights, p, level)[Shift(k, p)] == heights[k];
    }
  }

  ghost function Nexts<V>(chain: seq<Node<V>>): (links: seq<seq<Node?<V>>>)
    reads chain
    ensures |links| == |chain| && forall k :: 0 <= k < |chain| ==> links[k] == chain[k].next
  {
    if chain == [] then [] else [chain[0].next] + Nexts(chain[1..])
  }

  // ----- Searching -----

  ghost predicate Ascending<V>(chain: seq<Node<V>>) {
    forall j, k :: 1 <= j < k < |chain| ==> chain[j].key < chain[k].key
  }

  // Where a search for `key` leaves level i: before the key, with the next node of the level at or past it.
  ghost predicate Stop<V>(chain: seq<Node<V>>, heights: seq<nat>, q: nat, i: nat, key: int)
    requires |chain| == |heights|
  {
    && q < |chain| && i < heights[q] && (q > 0 ==> chain[q].key < key)
    && (NextIndex(heights, q, i) < |chain| ==> key <= chain[NextIndex(heights, q, i)].key)
  }

  // p is where `key` is, or would be inserted.
  ghost predicate Position<V>(chain: seq<Node<V>>, key: int, p: nat) {
    && 1 <= p <= |chain|
    && (forall k :: 1 <= k < p ==> chain[k].key < key)
    && (forall k :: p <= k < |chain| ==> key <= chain[k].key)
  }

  lemma {:induction false} NotThere<V>(chain: seq<Node<V>>, key: int, p: nat)
    requires Position(chain, key, p) && (p < |chain| ==> chain[p].key != key) && Ascending(chain)
    ensures !HasKey(chain, key)
  {
    forall k | 1 <= k < |chain| ensures chain[k].key != key {
      assert k < p || p <= k;
    }
  }

  lemma StopsArePredecessors<V>(chain: seq<Node<V>>, heights: seq<nat>, preds: seq<nat>, level: nat, key: int)
    requires |chain| == |heights| && Ascending(chain) && 1 <= level <= |preds|
    requires forall k :: 1 <= k < |heights| ==> 1 <= heights[k]
    requires forall i :: 0 <= i < level ==> Stop(chain, heights, preds[i], i, key)
    ensures Position(chain, key, preds[0] + 1)
    ensures Predecessors(heights, preds, level, preds[0] + 1)
    ensures NextIndex(heights, preds[0], 0) == preds[0] + 1
  {
  }

  // No node is taller than `level`, and some node is that tall; the head has every level.
  ghost predicate WellFormed<V>(chain: seq<Node<V>>, heights: seq<nat>, level: nat) {
    && |chain| == |heights| > 0 && heights[0] == MAX_LEVEL && 1 <= level <= MAX_LEVEL
    && Ascending(chain) && Distinct(chain)
    && (forall k :: 1 <= k < |heights| ==> 1 <= heights[k] <= level)
    && (level > 1 ==> exists k :: 1 <= k < |heights| && heights[k] == level)
  }

  ghost predicate Distinct<V>(chain: seq<Node<V>>) {
    forall j, k :: 0 <= j < k < |chain| ==> chain[j] != chain[k]
  }

  // The finite map a chain of nodes with these values stands for.
  ghost predicate Holds<V>(chain: seq<Node<V>>, values: seq<V>, contents: map<int, V>) {
    && |chain| == |values|
    && (forall k :: 1 <= k < |chain| ==> chain[k].key in contents && contents[chain[k].key] == values[k])
    && (forall key <- contents :: HasKey(chain, key))
  }

  ghost predicate HasKey<V>(chain: seq<Node<V>>, key: int) {
    exists k :: 1 <= k < |chain| && chain[k].key == key
  }

  lemma InsertedWellFormed<V>(chain: seq<Node<V>>, heights: seq<nat>, level: nat, p: nat, node: Node<V>, h: nat)
    requires WellFormed(chain, heights, level) && node !in chain && 1 <= h <= MAX_LEVEL
    requires Position(chain, node.key, p) && (p < |chain| ==> node.key < chain[p].key)
    ensures WellFormed(Inserted(chain, p, node), Inserted<nat>(heights, p, h), if h > level then h else level)
  {
    var chain', heights' := Inserted(chain, p, node), Inserted<nat>(heights, p, h);
    if h > level {
      assert heights'[p] == h;
    } else if level > 1 {
      var k :| 1 <= k < |heights| && heights[k] == level;
      assert heights'[Shift(k, p)] == level;
    }
  }

  lemma InsertedHolds<V>(chain: seq<Node<V>>, values: seq<V>, contents: map<int, V>, p: nat, node: Node<V>, v: V)
    requires Holds(chain, values, contents) && node.key !in contents && 1 <= p <= |chain|
    ensures Holds(Inserted(chain, p, node), Inserted(values, p, v), contents[node.key := v])
  {
    var chain' := Inserted(chain, p, node);
    forall key | key in contents[node.key := v] ensures HasKey(chain', key) {
      if key == node.key {
        assert chain'[p].key == key;
      } else {
        assert HasKey(chain, key);
        var k :| 1 <= k < |chain| && chain[k].key == key;
        assert chain'[Shift(k, p)].key == key;
      }
    }
  }

  // Before the level is lowered, "some node is that tall" may fail.
  lemma DeletedWellFormed<V>(chain: seq<Node<V>>, heights: seq<nat>, level: nat, p: nat)
    requires WellFormed(chain, heights, level) && 1 <= p < |chain|
    ensures Ascending(Deleted(chain, p)) && Distinct(Deleted(chain, p))
    ensures var h := Deleted<nat>(heights, p);
            h[0] == MAX_LEVEL && forall k :: 1 <= k < |h| ==> 1 <= h[k] <= level
  {
  }

  lemma DeletedHolds<V>(chain: seq<Node<V>>, values: seq<V>, contents: map<int, V>, p: nat)
    requires Holds(chain, values, contents) && Ascending(chain) && 1 <= p < |chain|
    ensures Holds(Deleted(chain, p), Deleted(values, p), contents - {chain[p].key})
  {
    var chain' := Deleted(chain, p);
    forall key | key in contents - {chain[p].key} ensures HasKey(chain', key) {
      assert HasKey(chain, key);
      var k :| 1 <= k < |chain| && chain[k].key == key;
      assert chain'[if k < p then k else k - 1].key == key;
    }
  }

  // ----- The list -----

  class SkipList<V(0)> {
    var level: nat
    var len: nat
    const head: Node<V>
    ghost var chain: seq<Node<V>>
    ghost var heights: seq<nat>
    ghost var links: seq<seq<Node?<V>>>
    ghost var values: seq<V>
    ghost var Contents: map<int, V>

    ghost predicate Valid()
      reads this, chain
    {
      Linked() && Holds(chain, values, Contents) && len == |chain| - 1
      && forall k :: 0 <= k < |chain| ==> chain[k].value == values[k]
    }

    // Every level is the subsequence of level 0 made of the nodes tall enough for it.
    ghost predicate Linked()
      reads this, chain
    {
      && WellFormed(chain, heights, level) && chain[0] == head
      && WellLinked(chain, heights, links)
      && forall k :: 0 <= k < |chain| ==> chain[k].next == links[k]
    }

    constructor ()
      ensures Valid() && Contents == map[] && fresh(head) && chain == [head]
    {
      level, len := 1, 0;
      var zero: V := *;
      head := new Node(MAX_LEVEL, 0, zero);
      new;
      chain, heights, links, values, Contents := [head], [MAX_LEVEL], [head.next], [zero], map[];
    }

    // At level i the key's place is right behind the node.
    ghost predicate Around(prev: Node<V>, i: nat, key: int)
      reads prev
    {
      && (prev == head || prev.key < key)
      && i < |prev.next| && (prev.next[i] == null || key <= prev.next[i].key)
    }

    // The inner loop of every search: walk level i until the next node is at or past the key.
    method ScanLevel(start: Node<V>, i: nat, key: int, ghost from: nat)
      returns (prev: Node<V>, next: Node?<V>, ghost q: nat)
      requires Linked()
      requires from < |chain| && start == chain[from] && i < heights[from] && (from > 0 ==> start.key < key)
      ensures Stop(chain, heights, q, i, key) && q < |chain| && prev == chain[q]
      ensures i < heights[q] && (q > 0 ==> prev.key < key)
      ensures next == At(chain, NextIndex(heights, q, i))
      ensures i < |prev.next| && next == prev.next[i] && Around(prev, i, key)
    {
      prev, q := start, from;
      next := prev.next[i];
      assert next == Entry(links, q, i);
      while next != null && next.key < key
        invariant q < |chain| && prev == chain[q] && i < heights[q] && (q > 0 ==> chain[q].key < key)
        invariant next == Entry(links, q, i) == At(chain, NextIndex(heights, q, i))
        decreases |chain| - q
      {
        prev, q := next, NextIndex(heights, q, i);
        next := next.next[i];
        assert next == Entry(links, q, i);
      }
    }

    // The predecessors by node and by index.
    ghost predicate Names(prevs: seq<Node<V>>, preds: seq<nat>, level: nat)
      reads this
    {
      |prevs| >= level && |preds| >= level
      && forall i :: 0 <= i < level ==> preds[i] < |chain| && prevs[i] == chain[preds[i]]
    }

    // The search of Find (eq) and of LowerBound (!eq).
    method DoFindNode(key: int, eq: bool) returns (node: Node?<V>, ghost p: nat)
      requires Linked()
      ensures 1 <= p <= |chain|
      ensures node != null ==> p < |chain| && node == chain[p] && key <= node.key
      ensures node == null || node.key != key ==> Position(chain, key, p) && (p < |chain| ==> chain[p].key != key)
      ensures if eq then node != null ==> node.key == key else node == At(chain, p)
      ensures node != null && node.key == key <==> HasKey(chain, key)
      ensures !eq ==> (node == null <==> forall k :: 1 <= k < |chain| ==> chain[k].key < key)
    {
      hide Stop, Position, HasKey, Around, NextIndex;
      var prev := head;
      ghost var q: nat := 0;
      var i := level;
      var next: Node?<V> := null;
      while i > 0
        invariant 0 <= i <= level
        invariant q < |chain| && prev == chain[q] && i <= heights[q] && (q > 0 ==> prev.key < key)
        invariant next != null ==> next.key != key
        invariant i < level ==> Stop(chain, heights, q, i, key) && next == At(chain, NextIndex(heights, q, i))
        invariant i < level ==> i < |prev.next| && next == prev.next[i]
      {
        i := i - 1;
        prev, next, q := ScanLevel(prev, i, key, q);
        if next != null && next.key == key {
          NextIsThere(q, i, next, key);
          return next, NextIndex(heights, q, i);
        }
      }
      NotFound(q, key);
      if eq {
        return null, q + 1;
      }
      return prev.next[0], q + 1;
    }

    // The key is absent, and its place is behind the node where the search has ended.
    lemma NotFound(q: nat, key: int)
      requires Linked() && q < |chain| && 0 < heights[q] && Stop(chain, heights, q, 0, key)
      requires var next := At(chain, NextIndex(heights, q, 0)); next != null ==> next.key != key
      ensures var p := q + 1; Position(chain, key, p) && (p < |chain| ==> chain[p].key != key) && !HasKey(chain, key)
      ensures At(chain, NextIndex(heights, q, 0)) == At(chain, q + 1)
      ensures At(chain, q + 1) == null <==> forall k :: 1 <= k < |chain| ==> chain[k].key < key
      ensures At(chain, q + 1) != null ==> key <= At(chain, q + 1).key
    {
      StopsArePredecessors(chain, heights, [q], 1, key);
      NotThere(chain, key, q + 1);
    }

    // The node that a link leads to is in the list.
    lemma NextIsThere(q: nat, i: nat, next: Node<V>, key: int)
      requires |chain| == |heights| && q < |chain| && i < heights[q] && next == At(chain, NextIndex(heights, q, i))
      requires next.key == key
      ensures var p := NextIndex(heights, q, i); 1 <= p < |chain| && next == chain[p] && HasKey(chain, key)
    {
    }

    method FindInsertPoint(key: int) returns (node: Node?<V>, prevs: seq<Node<V>>, ghost p: nat, ghost preds: seq<nat>)
      requires Linked()
      ensures node != null ==> 1 <= p < |chain| && node == chain[p] && node.key == key
      ensures node == null ==> Position(chain, key, p) && (p < |chain| ==> key < chain[p].key)
      ensures node == null ==> |preds| == level && Predecessors(heights, preds, level, p) && Names(prevs, preds, level)
      ensures node != null <==> HasKey(chain, key)
    {
      assert WellFormed(chain, heights, level);
      hide WellFormed, WellLinked, Ascending, Precedes, Stop, Predecessors, Position, Around, NextIndex, HasKey, Names;
      var prev := head;
      preds, prevs := seq(level, _ => 0), seq(level, _ => head);
      ghost var q: nat := 0;
      var i := level;
      var next: Node?<V> := null;
      while i > 0
        invariant 0 <= i <= level && |preds| == level
        invariant q < |chain| && prev == chain[q] && i <= heights[q] && (q > 0 ==> prev.key < key)
        invariant forall j :: i <= j < level ==> Stop(chain, heights, preds[j], j, key)
        invariant |prevs| == level && forall j :: i <= j < level ==> prevs[j] == chain[preds[j]]
        invariant i < level ==> q == preds[i] && next == At(chain, NextIndex(heights, q, i))
        invariant next != null ==> next.key != key
      {
        i := i - 1;
        prev, next, q := ScanLevel(prev, i, key, q);
        if next != null && next.key == key {
          NextIsThere(q, i, next, key);
          return next, prevs, NextIndex(heights, q, i), preds;
        }
        preds, prevs := preds[i := q], prevs[i := prev];
      }
      node := null;
      InsertPoint(prevs, preds, key);
      p := preds[0] + 1;
    }

    // The key is absent, and its place is behind the predecessors.
    lemma InsertPoint(prevs: seq<Node<V>>, preds: seq<nat>, key: int)
      requires Linked() && |preds| == |prevs| == level
      requires forall j :: 0 <= j < level ==> Stop(chain, heights, preds[j], j, key)
      requires forall j :: 0 <= j < level ==> preds[j] < |chain| && prevs[j] == chain[preds[j]]
      requires var next := At(chain, NextIndex(heights, preds[0], 0)); next != null ==> next.key != key
      ensures var p := preds[0] + 1; Position(chain, key, p) && (p < |chain| ==> key < chain[p].key)
      ensures Predecessors(heights, preds, level, preds[0] + 1) && Names(prevs, preds, level) && !HasKey(chain, key)
    {
      StopsArePredecessors(chain, heights, preds, level, key);
      NotThere(chain, key, preds[0] + 1);
    }

    method FindPrevNodes(key: int) returns (prevs: seq<Node<V>>, ghost p: nat, ghost preds: seq<nat>)
      requires Linked()
      ensures Position(chain, key, p)
      ensures |preds| == level && Predecessors(heights, preds, level, p) && Names(prevs, preds, level)
      ensures preds[0] == p - 1
      ensures |prevs| == level && forall i :: 0 <= i < level ==> Around(prevs[i], i, key)
    {
      assert WellFormed(chain, heights, level);
      hide WellFormed, WellLinked, Ascending, Precedes, Stop, Around;
      var prev := head;
      preds, prevs := seq(level, _ => 0), seq(level, _ => head);
      ghost var q: nat := 0;
      var i := level;
      while i > 0
        invariant 0 <= i <= level && |preds| == level
        invariant q < |chain| && prev == chain[q] && i <= heights[q] && (q > 0 ==> prev.key < key)
        invariant forall j :: i <= j < level ==> Stop(chain, heights, preds[j], j, key)
        invariant |prevs| == level && forall j :: i <= j < level ==> prevs[j] == chain[preds[j]]
        invariant forall j :: i <= j < level ==> Around(prevs[j], j, key)
      {
        i := i - 1;
        var next;
        prev, next, q := ScanLevel(prev, i, key, q);
        preds, prevs := preds[i := q], prevs[i := prev];
      }
      StopsArePredecessors(chain, heights, preds, level, key);
      p := preds[0] + 1;
    }

    lemma Absent(key: int, p: nat)
      requires Valid() && Position(chain, key, p) && (p < |chain| ==> chain[p].key != key)
      ensures key !in Contents
    {
      NotThere(chain, key, p);
    }

    method Find(key: int) returns (value: Option<V>)
      requires Valid()
      ensures value == if key in Contents then Some(Contents[key]) else None
    {
      ghost var p;
      var node;
      node, p := DoFindNode(key, true);
      if node == null || node.key != key {
        Absent(key, p);
      }
      return if node == null then None else Some(node.value);
    }

    // The draw of the source's random generator is the parameter.
    static method RandomLevel(draw: nat, len: nat) returns (level: nat)
      ensures level == LevelFor(draw, len)
    {
      var k := draw % 0xFF_FFFF_FFFF;
      BitLengthFits(k);
      level := MAX_LEVEL - BitLength(k) + 1;
      while level > 3 && Pow2(level - 3) > len
        invariant level >= 1
        invariant Lowered(level, len) == LevelFor(draw, len)
      {
        level := level - 1;
      }
    }

    method Insert(key: int, value: V, draw: nat)
      requires Valid() && len < 0x40_0000_0000
      modifies this, chain
      ensures Valid()
      ensures Contents == old(Contents)[key := value]
      ensures forall n <- chain :: n in old(chain) || fresh(n)
      ensures key !in old(Contents) ==>
                exists n <- chain :: n !in old(chain) && n.key == key && |n.next| == LevelFor(draw, old(len))
    {
      ghost var p, preds;
      var node;
      var prevs;
      node, prevs, p, preds := FindInsertPoint(key);
      if node != null {
        SetValue(node, value, p);
        return;
      }
      Absent(key, p);
      var newLevel := RandomLevel(draw, len);
      LevelInRange(draw, len);
      node := new Node(newLevel, key, value);
      InsertNew(node, prevs, p, preds);
      assert chain[p] == node;
    }

    // The second half of Insert: the key is not in the list.
    method InsertNew(node: Node<V>, prevs: seq<Node<V>>, ghost p: nat, ghost preds: seq<nat>)
      requires Valid() && node !in chain && node.key !in Contents
      requires Position(chain, node.key, p) && (p < |chain| ==> node.key < chain[p].key)
      requires |preds| == level && Predecessors(heights, preds, level, p)
      requires Names(prevs, preds, level)
      requires 1 <= |node.next| <= MAX_LEVEL && forall i :: 0 <= i < |node.next| ==> node.next[i] == null
      modifies this, chain, node
      ensures Valid()
      ensures Contents == old(Contents)[node.key := old(node.value)]
      ensures chain == Inserted(old(chain), p, node) && |node.next| == old(|node.next|)
    {
      hide WellFormed, Holds, WellLinked;
      InsertedWellFormed(chain, heights, level, p, node, |node.next|);
      InsertedHolds(chain, values, Contents, p, node, node.value);
      SpliceAndAdopt(node, prevs, p, preds);
      if |node.next| > level {
        level := |node.next|;
      }
      len := len + 1;
    }

    method SetValue(node: Node<V>, value: V, ghost p: nat)
      requires Valid() && 1 <= p < |chain| && node == chain[p]
      modifies this`Contents, this`values, node
      ensures Valid()
      ensures Contents == old(Contents)[node.key := value] && chain == old(chain)
    {
      node.value := value;
      values := values[p := value];
      Contents := Contents[node.key := value];
    }

    method SpliceAndAdopt(node: Node<V>, prevs: seq<Node<V>>, ghost p: nat, ghost preds: seq<nat>)
      requires Valid() && node !in chain && |preds| == level && Predecessors(heights, preds, level, p)
      requires Names(prevs, preds, level)
      requires |node.next| <= MAX_LEVEL && forall i :: 0 <= i < |node.next| ==> node.next[i] == null
      modifies chain, node, this`chain, this`heights, this`links, this`values, this`Contents
      ensures |node.next| == old(|node.next|)
      ensures chain == Inserted(old(chain), p, node)
      ensures heights == Inserted<nat>(old(heights), p, |node.next|)
      ensures values == Inserted(old(values), p, old(node.value))
      ensures Contents == old(Contents)[node.key := old(node.value)]
      ensures WellLinked(chain, heights, links)
      ensures forall k :: 0 <= k < |chain| ==> chain[k].next == links[k] && chain[k].value == values[k]
    {
      ghost var all := Splice(node, prevs, p, preds);
      AdoptInserted(node, p, all);
    }

    // Both link loops of Insert: first the levels the list has, then the head alone above them.
    method Splice(node: Node<V>, prevs: seq<Node<V>>, ghost p: nat, ghost preds: seq<nat>) returns (ghost all: seq<nat>)
      requires Linked() && node !in chain && |preds| == level && Predecessors(heights, preds, level, p)
      requires Names(prevs, preds, level)
      requires |node.next| <= MAX_LEVEL && forall i :: 0 <= i < |node.next| ==> node.next[i] == null
      modifies chain`next, node`next
      ensures |node.next| == old(|node.next|)
      ensures |all| == MAX_LEVEL && Predecessors(heights, all, MAX_LEVEL, p) && SplicedUpTo(node, all, |node.next|)
    {
      hide WellFormed, WellLinked, Predecessors, Precedes;
      var newLevel := |node.next|;
      var minLevel := if level < newLevel then level else newLevel;
      all := ExtendPredecessors(p, preds, level);
      HeadLinksAboveLevel();
      SpliceReady(prevs, preds, p);
      SpliceShared(node, prevs, minLevel, all);
      if newLevel > level {
        SpliceHead(node, level, all);
      }
    }

    lemma SpliceReady(prevs: seq<Node<V>>, preds: seq<nat>, p: nat)
      requires Linked() && |preds| == level && Predecessors(heights, preds, level, p) && Names(prevs, preds, level)
      ensures |chain| == |links| > 0 && Distinct(chain) && chain[0] == head && |links[0]| == MAX_LEVEL >= level
      ensures |prevs| >= level
      ensures forall i :: 0 <= i < level ==>
                preds[i] < |chain| && i < |links[preds[i]]| && prevs[i] == chain[preds[i]]
    {
    }

    method SpliceShared(node: Node<V>, prevs: seq<Node<V>>, count: nat, ghost preds: seq<nat>)
      requires |chain| == |links| && Distinct(chain) && node !in chain
      requires count <= |node.next| <= |preds| && count <= |prevs| && SplicedUpTo(node, preds, 0)
      requires forall i :: 0 <= i < count ==>
                 preds[i] < |chain| && i < |links[preds[i]]| && prevs[i] == chain[preds[i]]
      modifies chain`next, node`next
      ensures |node.next| == old(|node.next|) && SplicedUpTo(node, preds, count)
    {
      for i := 0 to count
        invariant |node.next| == old(|node.next|) && SplicedUpTo(node, preds, i)
      {
        LinkOne(node, prevs[i], i, preds);
      }
    }

    method SpliceHead(node: Node<V>, from: nat, ghost preds: seq<nat>)
      requires |chain| == |links| > 0 && Distinct(chain) && node !in chain && chain[0] == head
      requires from <= |node.next| <= |preds| && |node.next| <= |links[0]| && SplicedUpTo(node, preds, from)
      requires forall i: nat :: from <= i < |node.next| ==> preds[i] == 0 && Entry(links, 0, i) == null
      modifies head`next
      ensures SplicedUpTo(node, preds, |node.next|)
    {
      for i := from to |node.next|
        invariant SplicedUpTo(node, preds, i)
      {
        LinkHead(node, i, preds);
      }
    }

    method LinkOne(node: Node<V>, prev: Node<V>, i: nat, ghost preds: seq<nat>)
      requires |chain| == |links| && Distinct(chain) && node !in chain && i < |node.next| <= |preds|
      requires SplicedUpTo(node, preds, i) && preds[i] < |chain| && prev == chain[preds[i]] && i < |links[preds[i]]|
      modifies prev`next, node`next
      ensures |node.next| == old(|node.next|) && SplicedUpTo(node, preds, i + 1)
    {
      TakenOverStep(links, preds, i, |node.next|);
      forall k | 0 <= k < |chain| {
        RedirectedStep(links[k], preds, k, i, seq(|node.next|, _ => node));
      }
      node.next := node.next[i := prev.next[i]];
      prev.next := prev.next[i := node];
    }

    method LinkHead(node: Node<V>, i: nat, ghost preds: seq<nat>)
      requires |chain| == |links| > 0 && Distinct(chain) && node !in chain && chain[0] == head
      requires i < |node.next| <= |preds| && i < |links[0]|
      requires SplicedUpTo(node, preds, i) && preds[i] == 0 && Entry(links, 0, i) == null
      modifies head`next
      ensures SplicedUpTo(node, preds, i + 1)
    {
      TakenOverStep(links, preds, i, |node.next|);
      forall k | 0 <= k < |chain| {
        RedirectedStep(links[k], preds, k, i, seq(|node.next|, _ => node));
      }
      head.next := head.next[i := node];
    }

    // The state of the link loops after `count` levels.
    ghost predicate SplicedUpTo(node: Node<V>, preds: seq<nat>, count: nat)
      requires |chain| == |links| && count <= |node.next| <= |preds|
      reads this, chain, node
    {
      && node.next == TakenOver(links, preds, count, |node.next|)
      && forall k :: 0 <= k < |chain| ==>
           chain[k].next == Redirected(links[k], preds, k, count, seq(|node.next|, _ => node))
    }

    lemma HeadLinksAboveLevel()
      requires Linked()
      ensures forall i: nat :: level <= i < MAX_LEVEL ==> Entry(links, 0, i) == null
    {
    }

    // Above the top level the head is the only predecessor.
    lemma ExtendPredecessors(p: nat, preds: seq<nat>, level: nat) returns (all: seq<nat>)
      requires Linked() && level == this.level == |preds| && Predecessors(heights, preds, level, p)
      ensures |all| == MAX_LEVEL && Predecessors(heights, all, MAX_LEVEL, p)
      ensures forall i :: 0 <= i < MAX_LEVEL ==> all[i] == if i < level then preds[i] else 0
    {
      all := seq(MAX_LEVEL, i requires 0 <= i < MAX_LEVEL => if i < level then preds[i] else 0);
      forall i | 0 <= i < MAX_LEVEL ensures Precedes(heights, all[i], i, p) {
        if i < level {
          assert Precedes(heights, preds[i], i, p);
        } else {
          NextIndexUnique(heights, 0, i, |heights|);
        }
      }
    }

    // The ghost view catches up with the spliced nodes.
    ghost method AdoptInserted(node: Node<V>, p: nat, preds: seq<nat>)
      requires |node.next| <= |preds| == MAX_LEVEL && |chain| == |heights|
      requires WellLinked(chain, heights, links) && SplicedUpTo(node, preds, |node.next|)
      requires Predecessors(heights, preds, MAX_LEVEL, p)
      requires |values| == |chain| && forall k :: 0 <= k < |chain| ==> chain[k].value == values[k]
      modifies this`chain, this`heights, this`links, this`values, this`Contents
      ensures chain == Inserted(old(chain), p, node)
      ensures heights == Inserted<nat>(old(heights), p, |node.next|)
      ensures WellLinked(chain, heights, links)
      ensures values == Inserted(old(values), p, node.value)
      ensures Contents == old(Contents)[node.key := node.value]
      ensures forall k :: 0 <= k < |chain| ==> chain[k].next == links[k] && chain[k].value == values[k]
    {
      var after := Nexts(chain);
      assert Predecessors(heights, preds, |node.next|, p);
      SplicedLinks(chain, heights, links, after, preds, p, node, |node.next|);
      links := Inserted(after, p, node.next);
      heights := Inserted<nat>(heights, p, |node.next|);
      chain := Inserted(chain, p, node);
      values := Inserted(values, p, node.value);
      Contents := Contents[node.key := node.value];
    }

    method Remove(key: int) returns (found: bool)
      requires Valid()
      modifies this, chain
      ensures Valid()
      ensures found == (key in old(Contents)) && Contents == old(Contents) - {key}
      ensures found ==> exists p :: 1 <= p < |old(chain)| && old(chain)[p].key == key
                                    && chain == Deleted(old(chain), p) && values == Deleted(old(values), p)
      ensures !found ==> chain == old(chain)
    {
      ghost var p, preds;
      var prevs;
      prevs, p, preds := FindPrevNodes(key);
      assert Entry(links, preds[0], 0) == At(chain, p);
      var node := prevs[0].next[0];
      if node == null || node.key != key {
        Absent(key, p);
        return false;
      }
      assert chain[p].key in Contents;
      RemoveNode(node, prevs, p, preds);
      return true;
    }

    // The second half of Remove.
    method RemoveNode(node: Node<V>, prevs: seq<Node<V>>, ghost p: nat, ghost preds: seq<nat>)
      requires Valid() && 1 <= p < |chain| && node == chain[p]
      requires |preds| == level && Predecessors(heights, preds, level, p)
      requires Names(prevs, preds, level)
      modifies this, chain
      ensures Valid()
      ensures Contents == old(Contents) - {node.key}
      ensures chain == Deleted(old(chain), p) && values == Deleted(old(values), p)
    {
      hide Holds, WellLinked;
      DeletedWellFormed(chain, heights, level, p);
      DeletedHolds(chain, values, Contents, p);
      LinkOutAndAdopt(node, prevs, p, preds);
      LowerLevel();
      len := len - 1;
    }

    // The link loop of Remove, then the ghost view catches up.
    method LinkOutAndAdopt(node: Node<V>, prevs: seq<Node<V>>, ghost p: nat, ghost preds: seq<nat>)
      requires Distinct(chain) && WellLinked(chain, heights, links) && 1 <= p < |chain| && node == chain[p]
      requires |values| == |chain|
      requires forall k :: 0 <= k < |chain| ==> chain[k].next == links[k] && chain[k].value == values[k]
      requires heights[p] <= |preds| && Predecessors(heights, preds, heights[p], p)
      requires heights[p] <= |prevs| && forall i :: 0 <= i < heights[p] ==>
                 Precedes(heights, preds[i], i, p) && prevs[i] == chain[preds[i]]
      modifies chain, this`chain, this`heights, this`links, this`values, this`Contents
      ensures chain == Deleted(old(chain), p)
      ensures heights == Deleted<nat>(old(heights), p)
      ensures values == Deleted(old(values), p)
      ensures Contents == old(Contents) - {node.key}
      ensures WellLinked(chain, heights, links)
      ensures forall k :: 0 <= k < |chain| ==> chain[k].next == links[k] && chain[k].value == values[k]
    {
      LinkOut(node, prevs, p, preds);
      AdoptDeleted(p, preds);
    }

    ghost method AdoptDeleted(p: nat, preds: seq<nat>)
      requires WellLinked(chain, heights, links) && 1 <= p < |chain| == |values|
      requires Predecessors(heights, preds, heights[p], p)
      requires forall k :: 0 <= k < |chain| ==> chain[k].value == values[k]
      requires forall k :: 0 <= k < |chain| ==>
                 chain[k].next == Redirected(links[k], preds, k, heights[p], links[p])
      modifies this`chain, this`heights, this`links, this`values, this`Contents
      ensures chain == Deleted(old(chain), p)
      ensures heights == Deleted<nat>(old(heights), p)
      ensures values == Deleted(old(values), p)
      ensures Contents == old(Contents) - {old(chain)[p].key}
      ensures WellLinked(chain, heights, links)
      ensures forall k :: 0 <= k < |chain| ==> chain[k].next == links[k] && chain[k].value == values[k]
    {
      var after := Nexts(chain);
      DeletedLinks(chain, heights, links, after, preds, p);
      Contents := Contents - {chain[p].key};
      chain, heights := Deleted(chain, p), Deleted<nat>(heights, p);
      links, values := Deleted(after, p), Deleted(values, p);
    }

    method LinkOut(node: Node<V>, prevs: seq<Node<V>>, ghost p: nat, ghost preds: seq<nat>)
      requires Distinct(chain) && Sized(links, heights) && |chain| == |heights| && p < |chain| && node == chain[p]
      requires forall k :: 0 <= k < |chain| ==> chain[k].next == links[k]
      requires Predecessors(heights, preds, |node.next|, p) && |node.next| <= |prevs|
      requires forall i :: 0 <= i < |node.next| ==>
                 Precedes(heights, preds[i], i, p) && prevs[i] == chain[preds[i]]
      modifies chain`next
      ensures forall k :: 0 <= k < |chain| ==>
                chain[k].next == Redirected(links[k], preds, k, heights[p], links[p])
    {
      for i := 0 to |node.next|
        invariant node.next == links[p]
        invariant forall k :: 0 <= k < |chain| ==> chain[k].next == Redirected(links[k], preds, k, i, links[p])
      {
        assert Precedes(heights, preds[i], i, p);
        forall k | 0 <= k < |chain| {
          RedirectedStep(links[k], preds, k, i, links[p]);
        }
        var prev := prevs[i];
        prev.next := prev.next[i := node.next[i]];
      }
    }

    method LowerLevel()
      requires |chain| == |heights| > 0 && chain[0] == head && heights[0] == MAX_LEVEL
      requires WellLinked(chain, heights, links) && head.next == links[0]
      requires 1 <= level <= MAX_LEVEL && forall k :: 1 <= k < |heights| ==> heights[k] <= level
      modifies this`level
      ensures 1 <= level <= old(level)
      ensures forall k :: 1 <= k < |heights| ==> heights[k] <= level
      ensures level > 1 ==> exists k :: 1 <= k < |heights| && heights[k] == level
    {
      while level > 1 && head.next[level - 1] == null
        invariant 1 <= level <= old(level)
        invariant forall k :: 1 <= k < |heights| ==> heights[k] <= level
      {
        assert Entry(links, 0, level - 1) == At(chain, NextIndex(heights, 0, level - 1));
        NextIndexSkips(heights, 0, level - 1);
        level := level - 1;
      }
      if level > 1 {
        assert Entry(links, 0, level - 1) == At(chain, NextIndex(heights, 0, level - 1));
        assert heights[NextIndex(heights, 0, level - 1)] == level;
      }
    }

    // Iterate and MoveToNext: the iterator is the node.
    method First() returns (node: Node?<V>)
      requires Linked()
      ensures node == At(chain, 1)
    {
      assert Entry(links, 0, 0) == At(chain, NextIndex(heights, 0, 0));
      assert NextIndex(heights, 0, 0) == 1;
      node := head.next[0];
    }

    method Next(node: Node<V>, ghost k: nat) returns (next: Node?<V>)
      requires Linked() && 1 <= k < |chain| && node == chain[k]
      ensures next == At(chain, k + 1)
    {
      assert Entry(links, k, 0) == At(chain, NextIndex(heights, k, 0));
      assert NextIndex(heights, k, 0) == k + 1;
      next := node.next[0];
    }

    // The entries in the order ForEach visits them: each entry of the map once, keys ascending.
    method ForEach() returns (visited: seq<(int, V)>)
      requires Valid()
      ensures forall i, j :: 0 <= i < j < |visited| ==> visited[i].0 < visited[j].0
      ensures forall i :: 0 <= i < |visited| ==> visited[i].0 in Contents && visited[i].1 == Contents[visited[i].0]
      ensures forall key <- Contents :: exists i :: 0 <= i < |visited| && visited[i].0 == key
      ensures |visited| == len == |Contents|
    {
      visited := Walk();
      forall key | key in Contents ensures exists i :: 0 <= i < |visited| && visited[i].0 == key {
        assert HasKey(chain, key);
        var j :| 1 <= j < |chain| && chain[j].key == key;
        assert visited[j - 1].0 == key;
      }
      LenIsSize();
    }

    method Walk() returns (visited: seq<(int, V)>)
      requires Linked()
      ensures |visited| == |chain| - 1
      ensures forall i :: 0 <= i < |visited| ==> visited[i] == (chain[i + 1].key, chain[i + 1].value)
    {
      assert WellFormed(chain, heights, level);
      hide WellFormed, WellLinked;
      visited := [];
      var e := First();
      ghost var k := 1;
      while e != null
        invariant 1 <= k <= |chain| && e == At(chain, k) && |visited| == k - 1
        invariant forall i :: 0 <= i < k - 1 ==> visited[i] == (chain[i + 1].key, chain[i + 1].value)
        decreases |chain| - k
      {
        visited := visited + [(e.key, e.value)];
        e := Next(e, k);
        k := k + 1;
      }
    }

    lemma LenIsSize()
      requires Valid()
      ensures len == |Contents|
    {
      KeyCount(chain, |chain|);
      assert Contents.Keys == Keys(chain, |chain|) by {
        forall key | key in Contents ensures key in Keys(chain, |chain|) {
          assert HasKey(chain, key);
        }
      }
    }

    lemma KeyIsAt(p: nat)
      requires Valid() && 1 <= p < |chain|
      ensures chain[p].key in Contents && Contents[chain[p].key] == chain[p].value
      ensures forall k :: 1 <= k < |chain| && chain[k].key == chain[p].key ==> k == p
    {
    }

    // The first node holds the least key.
    lemma FirstIsLeast()
      requires Valid()
      ensures At(chain, 1) == null <==> Contents == map[]
      ensures |chain| > 1 ==> chain[1].key in Contents && forall key <- Contents :: chain[1].key <= key
    {
      LenIsSize();
      if |chain| > 1 {
        forall key | key in Contents ensures chain[1].key <= key {
          assert HasKey(chain, key);
        }
      }
    }
  }

  ghost function Keys<V>(chain: seq<Node<V>>, n: nat): set<int>
    requires n <= |chain|
  {
    set k | 1 <= k < n :: chain[k].key
  }

  lemma {:induction false} KeyCount<V>(chain: seq<Node<V>>, n: nat)
    requires Ascending(chain) && 1 <= n <= |chain|
    ensures |Keys(chain, n)| == n - 1
  {
    if n > 1 {
      KeyCount(chain, n - 1);
      assert Keys(chain, n) == Keys(chain, n - 1) + {chain[n - 1].key};
    }
  }

  lemma DeletedLinks<V>(chain: seq<Node<V>>, heights: seq<nat>, before: seq<seq<Node?<V>>>,
                        after: seq<seq<Node?<V>>>, preds: seq<nat>, p: nat)
    requires 1 <= p < |chain| && WellLinked(chain, heights, before) && |after| == |before|
    requires Predecessors(heights, preds, heights[p], p)
    requires forall k :: 0 <= k < |before| ==> after[k] == Redirected(before[k], preds, k, heights[p], before[p])
    ensures WellLinked(Deleted(chain, p), Deleted<nat>(heights, p), Deleted(after, p))
  {
    var chain', heights', small := Deleted(chain, p), Deleted<nat>(heights, p), Deleted(after, p);
    DeletedInserted(chain, p);
    DeletedInserted<nat>(heights, p);
    DeletedPredecessors(heights, preds, p);
    forall k: nat, i: nat | k < |heights'| && i < heights'[k]
      ensures Entry(small, k, i) ==
              if i < heights[p] && preds[i] == k then Entry(before, p, i) else Entry(before, Shift(k, p), i)
    {
      assert small[k] == after[Shift(k, p)];
      if i < heights[p] {
        assert Precedes(heights, preds[i], i, p);
      }
    }
    LinkOutKeepsWellLinked(chain', heights', small, before, preds, p, chain[p], heights[p]);
  }

  lemma DeletedPredecessors(heights: seq<nat>, preds: seq<nat>, p: nat)
    requires 1 <= p < |heights| && Predecessors(heights, preds, heights[p], p)
    ensures Predecessors(Deleted<nat>(heights, p), preds, heights[p], p)
  {
    var small := Deleted<nat>(heights, p);
    DeletedInserted<nat>(heights, p);
    forall i | 0 <= i < heights[p] ensures Precedes(small, preds[i], i, p) {
      assert Precedes(heights, preds[i], i, p);
      NextAfterInsert(small, p, heights[p], preds[i], i);
    }
  }

  lemma SplicedLinks<V>(chain: seq<Node<V>>, heights: seq<nat>, before: seq<seq<Node?<V>>>,
                        after: seq<seq<Node?<V>>>, preds: seq<nat>, p: nat, node: Node<V>, level: nat)
    requires level <= |preds| && Predecessors(heights, preds, level, p)
    requires WellLinked(chain, heights, before) && |after| == |before|
    requires forall k :: 0 <= k < |before| ==>
               after[k] == Redirected(before[k], preds, k, level, seq(level, _ => node))
    ensures WellLinked(Inserted(chain, p, node), Inserted<nat>(heights, p, level),
                       Inserted(after, p, TakenOver(before, preds, level, level)))
  {
    var big := Inserted(after, p, TakenOver(before, preds, level, level));
    forall k: nat, i: nat | k < |heights| && i < heights[k]
      ensures Entry(big, Shift(k, p), i) == if i < level && preds[i] == k then node else Entry(before, k, i)
    {
      assert big[Shift(k, p)] == after[k];
    }
    LinkInKeepsWellLinked(chain, heights, before, big, preds, p, node, level);
  }

  // Only the zero draw on a list of 2^38 entries asks for a node the source cannot allocate.
  lemma LevelInRange(draw: nat, len: nat)
    ensures 1 <= LevelFor(draw, len) <= MAX_LEVEL + 1
    ensures LevelFor(draw, len) == MAX_LEVEL + 1 <==>
            draw % 0xFF_FFFF_FFFF == 0 && len >= 0x40_0000_0000
  {
    var k := draw % 0xFF_FFFF_FFFF;
    BitLengthFits(k);
    Pow2Of40();
    LoweredBound(MAX_LEVEL - BitLength(k) + 1, len);
    LoweredBound(MAX_LEVEL, len);
  }

  lemma LoweredBound(level: nat, len: nat)
    requires level >= 1
    ensures 1 <= Lowered(level, len) <= level
    ensures level <= 3 || Pow2(level - 3) <= len ==> Lowered(level, len) == level
  {
  }

  function Pow2(n: nat): nat { if n == 0 then 1 else 2 * Pow2(n - 1) }

  // bits.Len64
  function BitLength(n: nat): nat { if n == 0 then 0 else 1 + BitLength(n / 2) }

  function Lowered(level: nat, len: nat): nat
    requires level >= 1
  {
    if level > 3 && Pow2(level - 3) > len then Lowered(level - 1, len) else level
  }

  lemma BitLengthBound(n: nat, bits: nat)
    requires n < Pow2(bits)
    ensures BitLength(n) <= bits
  {
  }

  lemma Pow2Of40()
    ensures Pow2(40) == 0x100_0000_0000 && Pow2(38) == 0x40_0000_0000
  {
    assert Pow2(10) == 1024;
    assert Pow2(20) == 0x10_0000 by { assert Pow2(15) == 0x8000; }
    assert Pow2(30) == 0x4000_0000 by { assert Pow2(25) == 0x200_0000; }
    assert Pow2(40) == 0x100_0000_0000 by { assert Pow2(35) == 0x8_0000_0000; }
  }

  function LevelFor(draw: nat, len: nat): nat {
    var k := draw % 0xFF_FFFF_FFFF;
    BitLengthFits(k);
    Lowered(MAX_LEVEL - BitLength(k) + 1, len)
  }

  lemma {:induction false} BitLengthIs(n: nat, bits: nat)
    requires bits > 0 && Pow2(bits - 1) <= n < Pow2(bits)
    ensures BitLength(n) == bits
  {
    if bits > 1 {
      BitLengthIs(n / 2, bits - 1);
    }
  }

  lemma {:induction false} LoweredIs(level: nat, len: nat)
    requires level >= 1
    ensures Lowered(level, len) == level <==> level <= 3 || Pow2(level - 3) <= len
    ensures Lowered(level, len) < level ==>
              var low := Lowered(level, len); low >= 3 && Pow2(low - 2) > len && (low == 3 || Pow2(low - 3) <= len)
  {
    if level > 3 && Pow2(level - 3) > len {
      LoweredIs(level - 1, len);
      LoweredBound(level - 1, len);
    }
  }

  /** A draw between two powers of two gives one level, so each level is drawn about half as often as the one
      below it; a list too short for that level gives the highest one it is long enough for, at least 3. */
  lemma {:induction false} LevelOfDraw(draw: nat, len: nat, level: nat)
    requires 1 <= level <= MAX_LEVEL
    requires Pow2(MAX_LEVEL - level) <= draw % 0xFF_FFFF_FFFF < Pow2(MAX_LEVEL + 1 - level)
    ensures LevelFor(draw, len) == level <==> level <= 3 || Pow2(level - 3) <= len
    ensures LevelFor(draw, len) != level ==>
              var low := LevelFor(draw, len);
              3 <= low < level && Pow2(low - 2) > len && (low == 3 || Pow2(low - 3) <= len)
  {
    BitLengthIs(draw % 0xFF_FFFF_FFFF, MAX_LEVEL + 1 - level);
    BitLengthFits(draw % 0xFF_FFFF_FFFF);
    LoweredIs(level, len);
    LoweredBound(level, len);
  }

  lemma BitLengthFits(k: nat)
    requires k < 0xFF_FFFF_FFFF
    ensures BitLength(k) <= MAX_LEVEL
  {
    Pow2Of40();
    BitLengthBound(k, MAX_LEVEL);
  }
}
