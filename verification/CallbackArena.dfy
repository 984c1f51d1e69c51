/**
  The node graph of a callback list as a value: every node ever registered, with its links as
  registration numbers. The operations here change the fields that the source changes; the
  lemmas show that they keep the list sound, stale links of removed nodes included.
 */
module CallbackArena {
  import opened CallbackSpec

  const COUNTER_LIMIT: nat := 0x1_0000_0000_0000_0000   // counters are 64 bits wide
  const NONE := -1

  /**
    One node. `rank` places it among all nodes ever linked, removed ones included; `death` is
    how many nodes had been registered when it was removed.
   */
  datatype Cell = Cell(prev: int, next: int, counter: nat, left: int, cb: Callback, rank: real, death: nat)

  datatype Arena = Arena(head: int, tail: int, current: nat, cells: seq<Cell>, order: seq<nat>)

  function At(a: Arena, i: int): int { if 0 <= i < |a.order| then a.order[i] else NONE }

  predicate InRange(a: Arena, k: int) { NONE <= k < |a.cells| }

  /** Links stay within the arena, and ranks follow the list. */
  ghost predicate Placed(a: Arena)
  {
    && (forall k :: 0 <= k < |a.cells| ==> InRange(a, a.cells[k].prev) && InRange(a, a.cells[k].next))
    && (forall i :: 0 <= i < |a.order| ==> a.order[i] < |a.cells|)
    && (forall i, j :: 0 <= i < j < |a.order| ==> RankAt(a, i) < RankAt(a, j))
  }

  function RankAt(a: Arena, i: nat): real
    requires i < |a.order|
  {
    if a.order[i] < |a.cells| then a.cells[a.order[i]].rank else 0.0
  }

  /** The forward and backward chains are mirror images, with head and tail at the ends. */
  ghost predicate Chained(a: Arena)
    requires Placed(a)
  {
    && a.head == At(a, 0) && a.tail == At(a, |a.order| - 1)
    && (forall i {:trigger Joined(a, i)} :: 0 <= i < |a.order| ==> Joined(a, i))
  }

  ghost predicate Joined(a: Arena, i: nat)
    requires Placed(a) && i < |a.order|
  {
    a.cells[a.order[i]].next == At(a, i + 1) && a.cells[a.order[i]].prev == At(a, i - 1)
  }

  /** A node is linked exactly when its counter is not zero; counters stay within the current one. */
  ghost predicate Marked(a: Arena)
    requires Placed(a)
  {
    && a.current < COUNTER_LIMIT
    && (forall k :: 0 <= k < |a.cells| ==>
          if k in a.order then 1 <= a.cells[k].counter <= a.current else a.cells[k].counter == 0)
  }

  /**
    A removed node: its links lead back and forward in rank, and between it and where its
    forward link leads there is nothing linked that is as old as the removal.
   */
  ghost predicate Stale(a: Arena, k: nat)
    requires Placed(a) && k < |a.cells|
  {
    var x := a.cells[k];
    && x.death <= |a.cells|
    && (x.prev != NONE ==> a.cells[x.prev].rank < x.rank)
    && (x.next != NONE ==>
          && x.rank < a.cells[x.next].rank
          && (a.cells[x.next].counter == 0 ==> x.death <= a.cells[x.next].death))
    && (forall y :: y in a.order && Passes(a, k, y) ==> x.death <= y)
  }

  /** Following the link of k steps over y. */
  ghost predicate Passes(a: Arena, k: nat, y: nat)
    requires Placed(a) && k < |a.cells|
  {
    && y < |a.cells| && y != k && a.cells[k].rank <= a.cells[y].rank
    && (a.cells[k].next == NONE || a.cells[y].rank < a.cells[a.cells[k].next].rank)
  }

  ghost predicate Good(a: Arena)
  {
    && Placed(a) && Chained(a) && Marked(a)
    && (forall k {:trigger Stale(a, k)} :: 0 <= k < |a.cells| && k !in a.order ==> Stale(a, k))
  }

  /** The arena as CallbackSpec sees it. */
  function View(a: Arena): Listing
  {
    Listing(a.order, seq(|a.cells|, k requires 0 <= k < |a.cells| => Made(a.cells[k].cb, a.cells[k].left)))
  }

  lemma GoodIsWellformed(a: Arena)
    requires Good(a)
    ensures Wellformed(View(a))
  {
    DistinctOrder(a);
  }

  lemma DistinctOrder(a: Arena)
    requires Placed(a)
    ensures Distinct(a.order)
  {
    forall i, j | 0 <= i < j < |a.order| ensures a.order[i] != a.order[j] {
      assert RankAt(a, i) < RankAt(a, j);
    }
  }

  // ---------------------------------------------------------------- drawing a counter

  /** b is a after getNextCounter: one more, or on overflow every linked node's counter restarts at one. */
  ghost predicate Ticked(a: Arena, b: Arena)
  {
    && b.head == a.head && b.tail == a.tail && b.order == a.order && |b.cells| == |a.cells|
    && b.current == (if a.current + 1 < COUNTER_LIMIT then a.current + 1 else 1)
    && (forall k :: 0 <= k < |a.cells| ==>
          b.cells[k] ==
          if a.current + 1 < COUNTER_LIMIT || k !in a.order then a.cells[k] else a.cells[k].(counter := 1))
  }

  /** Counters stay between one and the current counter, across the 64-bit overflow too. */
  lemma TickedGood(a: Arena, b: Arena)
    requires Good(a) && Ticked(a, b)
    ensures Good(b) && View(b) == View(a) && 1 <= b.current
  {
    assert forall i :: 0 <= i < |a.order| ==> RankAt(b, i) == RankAt(a, i);
    forall i | 0 <= i < |b.order| ensures Joined(b, i) { assert Joined(a, i); }
    forall k | 0 <= k < |b.cells| && k !in b.order ensures Stale(b, k) {
      assert Stale(a, k);
      forall y | y in b.order && Passes(b, k, y) ensures a.cells[k].death <= y { assert Passes(a, k, y); }
    }
  }

  // ---------------------------------------------------------------- linking a new node

  /** What no link changes about a node. */
  predicate SameBut(c: Cell, d: Cell)
  {
    c.counter == d.counter && c.left == d.left && c.cb == d.cb && c.rank == d.rank && c.death == d.death
  }

  /** b is a with a new node linked at position i of the list; append, prepend and insert all do this. */
  ghost predicate LinkedAt(a: Arena, b: Arena, i: nat, cb: Callback)
  {
    var n, id := |a.order|, |a.cells|;
    && i <= n && b.current == a.current && |b.cells| == id + 1
    && b.order == a.order[..i] + [id] + a.order[i..]
    && b.head == (if i == 0 then id else a.head) && b.tail == (if i == n then id else a.tail)
    && (var c := b.cells[id];
        && c.prev == At(a, i - 1) && c.next == At(a, i)
        && c.counter == a.current && c.left == Start(cb).left && c.cb == cb
        && (0 < i ==> RankAt(a, i - 1) < c.rank) && (i < n ==> c.rank < RankAt(a, i)))
    && (forall k :: 0 <= k < id ==>
          && SameBut(a.cells[k], b.cells[k])
          && b.cells[k].next == (if k == At(a, i - 1) then id else a.cells[k].next)
          && b.cells[k].prev == (if k == At(a, i) then id else a.cells[k].prev))
  }

  lemma LinkedPlaced(a: Arena, b: Arena, i: nat, cb: Callback)
    requires Placed(a) && LinkedAt(a, b, i, cb)
    ensures Placed(b)
  {
    var n := |a.order|;
    forall j | 0 <= j < |b.order|
      ensures b.order[j] < |b.cells|
      ensures RankAt(b, j) ==
              if j < i then RankAt(a, j) else if j == i then b.cells[|a.cells|].rank else RankAt(a, j - 1)
    {
    }
    forall j, k | 0 <= j < k < |b.order| ensures RankAt(b, j) < RankAt(b, k) {
      if k == i {
        assert j == i - 1 || RankAt(a, j) < RankAt(a, i - 1);
      } else if j == i {
        assert k - 1 == i || RankAt(a, i) < RankAt(a, k - 1);
      } else {
        assert RankAt(a, if j < i then j else j - 1) < RankAt(a, if k < i then k else k - 1);
      }
    }
  }

  lemma LinkedChained(a: Arena, b: Arena, i: nat, cb: Callback)
    requires Placed(a) && Chained(a) && LinkedAt(a, b, i, cb) && Placed(b)
    ensures Chained(b)
  {
    DistinctOrder(a);
    forall j | 0 <= j < |b.order| ensures Joined(b, j) {
      if j < i { assert Joined(a, j); }
      if i < j { assert Joined(a, j - 1); }
    }
  }

  lemma LinkedMembers(a: Arena, b: Arena, i: nat, cb: Callback)
    requires LinkedAt(a, b, i, cb)
    ensures forall y :: y in b.order <==> y in a.order || y == |a.cells|
  {
    assert a.order == a.order[..i] + a.order[i..];
  }

  /** A removed node's link still passes over nothing as old as the removal: the new node is newer. */
  lemma LinkedStale(a: Arena, b: Arena, i: nat, cb: Callback, k: nat)
    requires Good(a) && LinkedAt(a, b, i, cb) && Placed(b)
    requires forall y :: y in b.order <==> y in a.order || y == |a.cells|
    requires k < |b.cells| && k !in b.order
    ensures Stale(b, k)
  {
    assert Stale(a, k);
    assert k != At(a, i - 1) && k != At(a, i);
    forall y | y in b.order && Passes(b, k, y) ensures a.cells[k].death <= y {
      if y in a.order { assert Passes(a, k, y); }
    }
  }

  lemma LinkedGood(a: Arena, b: Arena, i: nat, cb: Callback)
    requires Good(a) && LinkedAt(a, b, i, cb) && 1 <= a.current
    ensures Good(b)
    ensures View(b) == Listing(a.order[..i] + [|a.cells|] + a.order[i..], View(a).made + [Start(cb)])
  {
    LinkedPlaced(a, b, i, cb);
    LinkedChained(a, b, i, cb);
    LinkedMembers(a, b, i, cb);
    forall k | 0 <= k < |b.cells| && k !in b.order ensures Stale(b, k) {
      LinkedStale(a, b, i, cb, k);
    }
  }

  // ---------------------------------------------------------------- unlinking a node

  /** b is a after doFreeNode of the node at position i: neighbours are joined, the node keeps its links. */
  ghost predicate UnlinkedAt(a: Arena, b: Arena, i: nat)
  {
    var n := |a.order|;
    && i < n && b.current == a.current && |b.cells| == |a.cells|
    && b.order == a.order[..i] + a.order[i + 1..]
    && b.head == (if i == 0 then At(a, 1) else a.head) && b.tail == (if i == n - 1 then At(a, n - 2) else a.tail)
    && (forall k :: 0 <= k < |a.cells| ==>
          && b.cells[k].next == (if k == At(a, i - 1) then At(a, i + 1) else a.cells[k].next)
          && b.cells[k].prev == (if k == At(a, i + 1) then At(a, i - 1) else a.cells[k].prev)
          && SameBut(if k == a.order[i] then a.cells[k].(counter := 0, death := |a.cells|) else a.cells[k], b.cells[k]))
  }

  lemma UnlinkedPlaced(a: Arena, b: Arena, i: nat)
    requires Placed(a) && UnlinkedAt(a, b, i)
    ensures Placed(b)
  {
    forall j | 0 <= j < |b.order|
      ensures b.order[j] < |b.cells|
      ensures RankAt(b, j) == RankAt(a, if j < i then j else j + 1)
    {
    }
    forall j, k | 0 <= j < k < |b.order| ensures RankAt(b, j) < RankAt(b, k) {
      assert RankAt(a, if j < i then j else j + 1) < RankAt(a, if k < i then k else k + 1);
    }
  }

  lemma UnlinkedChained(a: Arena, b: Arena, i: nat)
    requires Placed(a) && Chained(a) && UnlinkedAt(a, b, i) && Placed(b)
    ensures Chained(b)
  {
    DistinctOrder(a);
    assert Joined(a, i);
    forall j | 0 <= j < |b.order| ensures Joined(b, j) {
      assert Joined(a, if j < i then j else j + 1);
    }
  }

  lemma UnlinkedMembers(a: Arena, b: Arena, i: nat)
    requires Placed(a) && UnlinkedAt(a, b, i)
    ensures forall y :: y in b.order <==> y in a.order && y != a.order[i]
  {
    DistinctOrder(a);
    assert a.order == a.order[..i] + [a.order[i]] + a.order[i + 1..];
  }

  /** The node just removed leads to its old successor, past nothing. */
  lemma RemovedStale(a: Arena, b: Arena, i: nat)
    requires Placed(a) && Chained(a) && UnlinkedAt(a, b, i) && Placed(b)
    requires forall y :: y in b.order <==> y in a.order && y != a.order[i]
    requires forall k :: 0 <= k < |b.cells| && b.cells[k].counter == 0 && k in a.order ==> k == a.order[i]
    ensures Stale(b, a.order[i])
  {
    var x := a.order[i];
    DistinctOrder(a);
    assert Joined(a, i);
    assert b.cells[x].next == At(a, i + 1) && b.cells[x].prev == At(a, i - 1);
    if i > 0 { assert RankAt(a, i - 1) < RankAt(a, i); }
    if i + 1 < |a.order| { assert RankAt(a, i) < RankAt(a, i + 1); }
    forall y | y in b.order ensures !Passes(b, x, y) {
      var j :| 0 <= j < |a.order| && a.order[j] == y;
      assert j < i ==> RankAt(a, j) < RankAt(a, i);
      assert i + 1 < j ==> RankAt(a, i + 1) < RankAt(a, j);
    }
  }

  lemma OthersStale(a: Arena, b: Arena, i: nat, k: nat)
    requires Good(a) && UnlinkedAt(a, b, i) && Placed(b)
    requires forall y :: y in b.order <==> y in a.order && y != a.order[i]
    requires k < |b.cells| && k !in a.order
    ensures Stale(b, k)
  {
    assert Stale(a, k);
    assert k != At(a, i - 1) && k != At(a, i + 1);
    forall y | y in b.order && Passes(b, k, y) ensures a.cells[k].death <= y { assert Passes(a, k, y); }
  }

  lemma UnlinkedGood(a: Arena, b: Arena, i: nat)
    requires Good(a) && UnlinkedAt(a, b, i)
    ensures Good(b)
    ensures View(b) == Listing(a.order[..i] + a.order[i + 1..], View(a).made)
  {
    UnlinkedPlaced(a, b, i);
    UnlinkedChained(a, b, i);
    UnlinkedMembers(a, b, i);
    RemovedStale(a, b, i);
    forall k | 0 <= k < |b.cells| && k !in b.order ensures Stale(b, k) {
      if k != a.order[i] { OthersStale(a, b, i, k); }
    }
  }

  // ---------------------------------------------------------------- traversals and the counter's overflow

  /** The test by which a traversal that started at counter c tells whether to call a node. */
  predicate CalledAt(cell: Cell, c: nat) { cell.counter != 0 && c >= cell.counter }

  /**
    A traversal that started at counter c leaves a newly registered node out exactly when the
    counter is still at c or above before the registration, and does not overflow in it; at the
    overflow itself only a traversal that started at zero leaves it out.
   */
  lemma NewcomerIsTold(a: Arena, m: Arena, b: Arena, i: nat, cb: Callback, c: nat)
    requires Good(a) && Ticked(a, m) && LinkedAt(m, b, i, cb)
    ensures !CalledAt(b.cells[|a.cells|], c) <==> if a.current + 1 < COUNTER_LIMIT then c <= a.current else c == 0
  {
  }

  /**
    The snapshot property fails across the overflow: a traversal that stands on the last node,
    started in the same state, finds a callback appended meanwhile next on its way, linked and not
    of its snapshot, and calls it.
   */
  lemma OverflowLetsNewcomerIn(s: Arena, m: Arena, b: Arena, cb: Callback)
    requires Good(s) && s.order != [] && s.current + 1 == COUNTER_LIMIT
    requires Ticked(s, m) && LinkedAt(m, b, |m.order|, cb)
    ensures var last, y := s.order[|s.order| - 1], |s.cells|;
            && Good(b) && last < |b.cells| && y !in s.order && y in b.order && b.cells[last].next == y
            && CalledAt(b.cells[y], s.current)
  {
    TickedGood(s, m);
    LinkedGood(m, b, |m.order|, cb);
    LinkedMembers(m, b, |m.order|, cb);
  }

  // ---------------------------------------------------------------- the same on plain sequences

  lemma {:induction false} InsertedAt(s: seq<nat>, x: nat, i: nat)
    requires i < |s| && Distinct(s)
    ensures InsertedBefore(s, x, s[i]) == s[..i] + [x] + s[i..]
  {
    if i > 0 {
      InsertedAt(s[1..], x, i - 1);
      assert s[1..][..i - 1] == s[1..i] && s[1..][i - 1..] == s[i..];
      assert s[..i] == [s[0]] + s[1..i];
    }
  }

  lemma {:induction false} InsertedNowhere(s: seq<nat>, x: nat, mark: nat)
    requires mark !in s
    ensures InsertedBefore(s, x, mark) == s + [x]
  {
    if s != [] { InsertedNowhere(s[1..], x, mark); }
  }

  lemma {:induction false} WithoutAbsent(s: seq<nat>, x: nat)
    requires x !in s
    ensures Without(s, x) == s
  {
    if s != [] { WithoutAbsent(s[1..], x); }
  }

  lemma {:induction false} WithoutAt(s: seq<nat>, i: nat)
    requires i < |s| && Distinct(s)
    ensures Without(s, s[i]) == s[..i] + s[i + 1..]
  {
    if i == 0 {
      assert s[0] !in s[1..];
      WithoutAbsent(s[1..], s[0]);
    } else {
      WithoutAt(s[1..], i - 1);
      assert s[1..][..i - 1] == s[1..i] && s[1..][i..] == s[i + 1..];
      assert s[..i] == [s[0]] + s[1..i];
    }
  }

  // ---------------------------------------------------------------- a wrapper's trigger count

  /** b is a with the trigger count of node x changed to v. */
  ghost predicate Recounted(a: Arena, b: Arena, x: nat, v: int)
  {
    && b.head == a.head && b.tail == a.tail && b.order == a.order && b.current == a.current
    && |b.cells| == |a.cells|
    && (forall k :: 0 <= k < |a.cells| ==> b.cells[k] == if k == x then a.cells[k].(left := v) else a.cells[k])
  }

  lemma RecountedGood(a: Arena, b: Arena, x: nat, v: int)
    requires Good(a) && Recounted(a, b, x, v) && x < |a.cells|
    ensures Good(b) && Later(a, b)
    ensures View(b) == View(a).(made := View(a).made[x := View(a).made[x].(left := v)])
  {
    assert forall i :: 0 <= i < |a.order| ==> RankAt(b, i) == RankAt(a, i);
    forall i | 0 <= i < |b.order| ensures Joined(b, i) { assert Joined(a, i); }
    forall k | 0 <= k < |b.cells| && k !in b.order ensures Stale(b, k) {
      assert Stale(a, k);
      forall y | y in b.order && Passes(b, k, y) ensures a.cells[k].death <= y { assert Passes(a, k, y); }
    }
  }

  // ---------------------------------------------------------------- what a running traversal relies on

  /**
    b is a later state of a, with no counter overflow between: ranks are fixed, a removed node
    stays removed, a linked one keeps its counter or has been removed since, and a new one has a
    counter above every counter there was.
   */
  ghost predicate Later(a: Arena, b: Arena)
  {
    && |a.cells| <= |b.cells| && a.current <= b.current
    && (forall k :: 0 <= k < |a.cells| ==>
          && b.cells[k].rank == a.cells[k].rank
          && (a.cells[k].counter == 0 ==> b.cells[k].counter == 0 && b.cells[k].death == a.cells[k].death)
          && (a.cells[k].counter != 0 ==>
                b.cells[k].counter == a.cells[k].counter || (b.cells[k].counter == 0 && |a.cells| <= b.cells[k].death)))
    && (forall k :: |a.cells| <= k < |b.cells| ==> b.cells[k].counter == 0 || a.current < b.cells[k].counter)
  }

  lemma LaterThen(a: Arena, b: Arena, c: Arena)
    requires Later(a, b) && Later(b, c)
    ensures Later(a, c)
  {
  }

  lemma LinkedLater(a: Arena, m: Arena, b: Arena, i: nat, cb: Callback)
    requires Good(a) && Ticked(a, m) && a.current + 1 < COUNTER_LIMIT && LinkedAt(m, b, i, cb)
    ensures Later(a, b)
  {
    forall k | 0 <= k < |a.cells| && a.cells[k].counter == 0 ensures b.cells[k].next == a.cells[k].next {
      assert k !in a.order;
      assert k != At(m, i - 1);
    }
  }

  lemma UnlinkedLater(a: Arena, b: Arena, i: nat)
    requires Good(a) && UnlinkedAt(a, b, i)
    ensures Later(a, b)
  {
    forall k | 0 <= k < |a.cells| && a.cells[k].counter == 0
      ensures k != a.order[i] && b.cells[k].next == a.cells[k].next
    {
      assert k !in a.order;
      assert k != At(a, i - 1) && a.order[i] in a.order;
    }
  }

  /**
    A traversal that started in s is, in state b, at node `node`: the first j of the nodes
    linked at the start lie behind it, the others at it or ahead of it.
   */
  ghost predicate Cursor(s: Arena, b: Arena, node: int, j: nat)
  {
    && Good(s) && Good(b) && Later(s, b) && j <= |s.order|
    && (node == NONE ==> forall i :: j <= i < |s.order| ==> s.order[i] !in b.order)
    && (node != NONE ==>
          && 0 <= node < |b.cells|
          && (b.cells[node].counter != 0 || |s.cells| <= b.cells[node].death)
          && (forall i :: 0 <= i < j ==> RankAt(s, i) < b.cells[node].rank)
          && (forall i :: j <= i < |s.order| ==> b.cells[node].rank <= RankAt(s, i)))
  }

  lemma CursorStart(s: Arena)
    requires Good(s)
    ensures Cursor(s, s, s.head, 0)
  {
    if |s.order| > 0 {
      assert s.order[0] in s.order;
      forall i | 0 <= i < |s.order| ensures RankAt(s, 0) <= RankAt(s, i) {
        if i > 0 { assert RankAt(s, 0) < RankAt(s, i); }
      }
    }
  }

  lemma CursorLater(s: Arena, b: Arena, c: Arena, node: int, j: nat)
    requires Cursor(s, b, node, j) && Later(b, c) && Good(c)
    ensures Cursor(s, c, node, j)
  {
    LaterThen(s, b, c);
    forall k | 0 <= k < |b.cells| && k !in b.order ensures k !in c.order {
      assert b.cells[k].counter == 0;
    }
  }

  /** The test of the loop picks exactly the next node of the snapshot, if it is still linked. */
  lemma CursorHit(s: Arena, b: Arena, node: int, j: nat)
    requires Cursor(s, b, node, j) && node != NONE
    requires b.cells[node].counter != 0 && s.current >= b.cells[node].counter
    ensures j < |s.order| && s.order[j] == node && node in b.order
  {
    assert node in b.order && node < |s.cells| && s.cells[node].counter != 0;
    assert node in s.order;
    var m :| 0 <= m < |s.order| && s.order[m] == node;
    assert RankAt(s, m) == b.cells[node].rank;
    assert RankAt(s, j) >= RankAt(s, m);
    assert m <= j;
  }

  lemma CursorMiss(s: Arena, b: Arena, node: int, j: nat)
    requires Cursor(s, b, node, j) && node != NONE
    requires b.cells[node].counter == 0 || s.current < b.cells[node].counter
    ensures j < |s.order| && s.order[j] == node ==> node !in b.order
  {
    if j < |s.order| && s.order[j] == node {
      assert node in s.order;
      assert 1 <= s.cells[node].counter <= s.current;
    }
  }

  /** The link of a linked node passes over no linked node. */
  lemma NothingBetween(b: Arena, node: nat, y: nat)
    requires Good(b) && node in b.order && y in b.order
    ensures node < |b.cells| && !Passes(b, node, y)
  {
    var p :| 0 <= p < |b.order| && b.order[p] == node;
    var q :| 0 <= q < |b.order| && b.order[q] == y;
    assert Joined(b, p);
    assert q < p ==> RankAt(b, q) < RankAt(b, p);
    assert p + 1 < q ==> RankAt(b, p + 1) < RankAt(b, q);
  }

  /** The next link skips only nodes of the snapshot that are off the list by now. */
  lemma SkippedIsGone(s: Arena, b: Arena, node: nat, j: nat, i: nat)
    requires Cursor(s, b, node, j) && i < |s.order| && Passes(b, node, s.order[i])
    ensures s.order[i] !in b.order
  {
    var y := s.order[i];
    assert y < |s.cells|;
    if node in b.order {
      if y in b.order {
        NothingBetween(b, node, y);
        assert false;
      }
    } else {
      assert Stale(b, node);
    }
  }

  /** Where the link leads is ahead, and is linked or was removed after the traversal started. */
  lemma NextIsAhead(s: Arena, b: Arena, node: nat, j: nat)
    requires Cursor(s, b, node, j) && b.cells[node].next != NONE
    ensures var m := b.cells[node].next;
            0 <= m < |b.cells| && b.cells[node].rank < b.cells[m].rank
            && (b.cells[m].counter != 0 || |s.cells| <= b.cells[m].death)
  {
    assert InRange(b, b.cells[node].next);
    if node in b.order {
      var p :| 0 <= p < |b.order| && b.order[p] == node;
      assert Joined(b, p);
      assert RankAt(b, p) < RankAt(b, p + 1);
      assert b.order[p + 1] in b.order;
    } else {
      assert Stale(b, node);
    }
  }

  /** One step of the loop: past the cursor's own node and past what is gone, to where the link leads. */
  lemma PassedIsGone(s: Arena, b: Arena, node: nat, j: nat, i: nat)
    requires Cursor(s, b, node, j) && j <= i < |s.order| && s.order[i] != node
    requires var m := b.cells[node].next; m == NONE || (0 <= m < |b.cells| && RankAt(s, i) < b.cells[m].rank)
    ensures s.order[i] !in b.order
  {
    assert RankAt(s, i) == b.cells[s.order[i]].rank;
    SkippedIsGone(s, b, node, j, i);
  }

  lemma CursorStep(s: Arena, b: Arena, node: nat, j: nat) returns (j': nat)
    requires Cursor(s, b, node, j)
    ensures j <= j' <= |s.order| && Cursor(s, b, b.cells[node].next, j')
    ensures j < |s.order| && s.order[j] == node ==> j < j'
    ensures forall i :: j <= i < j' && s.order[i] != node ==> s.order[i] !in b.order
  {
    var m := b.cells[node].next;
    if m != NONE { NextIsAhead(s, b, node, j); }
    j' := if m == NONE then |s.order| else FirstFrom(s, j, b.cells[m].rank);
    forall i | j <= i < j' && s.order[i] != node ensures s.order[i] !in b.order {
      PassedIsGone(s, b, node, j, i);
    }
    CursorMoved(s, b, node, j, j');
  }

  /** The first position from j on whose rank is at least r. */
  function FirstFrom(s: Arena, j: nat, r: real): (k: nat)
    requires j <= |s.order|
    ensures j <= k <= |s.order| && (k < |s.order| ==> r <= RankAt(s, k))
    ensures forall i :: j <= i < k ==> RankAt(s, i) < r
    decreases |s.order| - j
  {
    if j == |s.order| || r <= RankAt(s, j) then j else FirstFrom(s, j + 1, r)
  }

  lemma CursorMoved(s: Arena, b: Arena, node: nat, j: nat, j': nat)
    requires Cursor(s, b, node, j) && j <= j' <= |s.order|
    requires var m := b.cells[node].next;
             && InRange(b, m) && (j' == |s.order| || (m != NONE && b.cells[m].rank <= RankAt(s, j')))
             && (j' == j || m == NONE || RankAt(s, j' - 1) < b.cells[m].rank)
    ensures Cursor(s, b, b.cells[node].next, j')
  {
    var m := b.cells[node].next;
    if m != NONE {
      NextIsAhead(s, b, node, j);
      forall i | 0 <= i < j' ensures RankAt(s, i) < b.cells[m].rank {
        assert i == j' - 1 || RankAt(s, i) < RankAt(s, j' - 1);
      }
      forall i | j' <= i < |s.order| ensures b.cells[m].rank <= RankAt(s, i) {
        assert i == j' || RankAt(s, j') < RankAt(s, i);
      }
    }
  }

  // ---------------------------------------------------------------- how far a traversal can go

  /** Nodes with at least the rank of the cursor: how far a traversal can still go without a callback. */
  ghost function Ahead(a: Arena, node: int): nat
  {
    if 0 <= node < |a.cells| then |set k | 0 <= k < |a.cells| && a.cells[node].rank <= a.cells[k].rank| else 0
  }

  lemma AheadShrinks(a: Arena, node: nat, next: int)
    requires node < |a.cells| && next < |a.cells|
    requires 0 <= next ==> a.cells[node].rank < a.cells[next].rank
    ensures Ahead(a, next) < Ahead(a, node)
  {
    var here := set k | 0 <= k < |a.cells| && a.cells[node].rank <= a.cells[k].rank;
    assert node in here;
    if 0 <= next {
      var there := set k | 0 <= k < |a.cells| && a.cells[next].rank <= a.cells[k].rank;
      assert here == there + (here - there) && node in here - there;
      assert |here| == |there| + |here - there|;
    } else {
      assert here != {};
    }
  }
}
