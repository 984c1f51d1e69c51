/**
  Removing a node that has already been removed. A running traversal keeps the node it stands on
  alive, so a callback can still lock the handle of a node that it took off the list before.
 */
module CallbackStale {
  import opened CallbackSpec
  import opened CallbackArena

  /** doFreeNode on any node x of the arena. */
  function Freed(a: Arena, x: nat): (b: Arena)
    requires x < |a.cells|
    ensures |b.cells| == |a.cells|
  {
    var p, n := a.cells[x].prev, a.cells[x].next;
    var cells := seq(|a.cells|, k requires 0 <= k < |a.cells| =>
      var c := a.cells[k].(counter := if k == x then 0 else a.cells[k].counter);
      c.(prev := if k == n then p else c.prev, next := if k == p then n else c.next));
    a.(cells := cells, head := if a.head == x then n else a.head, tail := if a.tail == x then p else a.tail)
  }

  lemma FreedPlaced(a: Arena, x: nat)
    requires Good(a) && x < |a.cells|
    ensures Placed(Freed(a, x))
  {
    var b := Freed(a, x);
    assert InRange(a, a.cells[x].prev) && InRange(a, a.cells[x].next);
    forall i | 0 <= i < |a.order| ensures RankAt(b, i) == RankAt(a, i) {}
    forall i, j | 0 <= i < j < |b.order| ensures RankAt(b, i) < RankAt(b, j) {
      assert RankAt(a, i) < RankAt(a, j);
    }
  }

  /** Those of x's old neighbours that are still linked point past it, at each other. */
  predicate StillClosed(a: Arena, x: nat)
    requires x < |a.cells|
  {
    var p, n := a.cells[x].prev, a.cells[x].next;
    && (0 <= p < |a.cells| && p in a.order ==> a.cells[p].next == n)
    && (0 <= n < |a.cells| && n in a.order ==> a.cells[n].prev == p)
  }

  /**
    If x's old predecessor p is off the list itself, a traversal may be standing on it. Its link,
    turned to x's old successor, steps over no linked node that is as old as the removal of p,
    and leads to no node that was removed before p.
   */
  ghost predicate PredecessorKeepsWay(a: Arena, x: nat)
    requires Good(a) && x < |a.cells|
  {
    var p, n := a.cells[x].prev, a.cells[x].next;
    assert InRange(a, p) && InRange(a, n);
    p != NONE && p !in a.order ==>
      && (n != NONE && a.cells[n].counter == 0 ==> a.cells[p].death <= a.cells[n].death)
      && (forall y | y in a.order && y != p && a.cells[p].rank <= a.cells[y].rank ::
            n == NONE || a.cells[y].rank < a.cells[n].rank ==> a.cells[p].death <= y)
  }

  lemma JoinedAfter(a: Arena, x: nat, i: nat)
    requires Good(a) && x < |a.cells| && x !in a.order && i < |a.order| && Placed(Freed(a, x))
    ensures var p, n, k := a.cells[x].prev, a.cells[x].next, a.order[i];
            Joined(Freed(a, x), i) <==> (k == p ==> a.cells[k].next == n) && (k == n ==> a.cells[k].prev == p)
  {
    assert Joined(a, i);
  }

  lemma ClosedIsKept(a: Arena, x: nat)
    requires Good(a) && x < |a.cells| && x !in a.order && Placed(Freed(a, x)) && StillClosed(a, x)
    ensures Chained(Freed(a, x))
  {
    forall i | 0 <= i < |a.order| ensures Joined(Freed(a, x), i) { JoinedAfter(a, x, i); }
  }

  lemma KeptIsClosed(a: Arena, x: nat)
    requires Good(a) && x < |a.cells| && x !in a.order && Placed(Freed(a, x)) && Chained(Freed(a, x))
    ensures StillClosed(a, x)
  {
    forall i | 0 <= i < |a.order|
      ensures a.order[i] == a.cells[x].prev ==> a.cells[a.order[i]].next == a.cells[x].next
      ensures a.order[i] == a.cells[x].next ==> a.cells[a.order[i]].prev == a.cells[x].prev
    {
      assert Joined(Freed(a, x), i);
      JoinedAfter(a, x, i);
    }
  }

  lemma RanksAcross(a: Arena, x: nat)
    requires Good(a) && x < |a.cells| && x !in a.order
    ensures var p, n := a.cells[x].prev, a.cells[x].next;
            && (p != NONE ==> 0 <= p < |a.cells| && a.cells[p].rank < a.cells[x].rank)
            && (n != NONE ==> 0 <= n < |a.cells| && a.cells[x].rank < a.cells[n].rank)
  {
    assert Stale(a, x) && InRange(a, a.cells[x].prev) && InRange(a, a.cells[x].next);
  }

  /** What the second removal means for the promise of a removed node k. */
  lemma StaleAfter(a: Arena, x: nat, k: nat)
    requires Good(a) && x < |a.cells| && x !in a.order && Placed(Freed(a, x)) && k < |a.cells| && k !in a.order
    ensures k != a.cells[x].prev ==> Stale(Freed(a, x), k)
    ensures k == a.cells[x].prev ==> (Stale(Freed(a, x), k) <==> PredecessorKeepsWay(a, x))
  {
    var b, p, n := Freed(a, x), a.cells[x].prev, a.cells[x].next;
    RanksAcross(a, x);
    assert Stale(a, k);
    if k != p {
      forall y | y in b.order && Passes(b, k, y) ensures b.cells[k].death <= y { assert Passes(a, k, y); }
    } else {
      assert b.cells[k].next == n;
      forall y | y in a.order
        ensures Passes(b, k, y) <==>
                y != k && a.cells[k].rank <= a.cells[y].rank && (n == NONE || a.cells[y].rank < a.cells[n].rank)
      {
      }
    }
  }

  /**
    Removing a node a second time keeps the node graph sound exactly when the gap of the first
    removal is still closed and a removed predecessor keeps its way.
   */
  lemma SecondRemovalHarmless(a: Arena, x: nat)
    requires Good(a) && x < |a.cells| && x !in a.order
    ensures Good(Freed(a, x)) <==> StillClosed(a, x) && PredecessorKeepsWay(a, x)
  {
    var b, p := Freed(a, x), a.cells[x].prev;
    FreedPlaced(a, x);
    RanksAcross(a, x);
    if StillClosed(a, x) && PredecessorKeepsWay(a, x) {
      ClosedIsKept(a, x);
      forall k | 0 <= k < |b.cells| && k !in b.order ensures Stale(b, k) { StaleAfter(a, x, k); }
    }
    if Good(b) {
      KeptIsClosed(a, x);
      if p != NONE && p !in a.order {
        StaleAfter(a, x, p);
        assert Stale(b, p);
      }
    }
  }

  /** Nor does a harmless second removal change what the list holds or where traversals are. */
  lemma HarmlessIsUnnoticed(a: Arena, x: nat)
    requires Good(a) && x < |a.cells| && x !in a.order && StillClosed(a, x) && PredecessorKeepsWay(a, x)
    ensures Good(Freed(a, x)) && Later(a, Freed(a, x)) && View(Freed(a, x)) == View(a)
  {
    SecondRemovalHarmless(a, x);
  }

  /** x's old predecessor, linked or not, still leads to its old successor, which if linked leads back. */
  predicate GapClosed(a: Arena, x: nat)
    requires x < |a.cells|
  {
    var p, n := a.cells[x].prev, a.cells[x].next;
    && (0 <= p < |a.cells| ==> a.cells[p].next == n)
    && (0 <= n < |a.cells| && n in a.order ==> a.cells[n].prev == p)
  }

  /** A condition that the links alone show. */
  lemma ClosedGapSuffices(a: Arena, x: nat)
    requires Good(a) && x < |a.cells| && x !in a.order && GapClosed(a, x)
    ensures StillClosed(a, x) && PredecessorKeepsWay(a, x)
  {
    var p := a.cells[x].prev;
    RanksAcross(a, x);
    if p != NONE && p !in a.order {
      assert Stale(a, p);
      forall y | y in a.order && y != p && a.cells[p].rank <= a.cells[y].rank
                 && (a.cells[x].next == NONE || a.cells[y].rank < a.cells[a.cells[x].next].rank)
        ensures a.cells[p].death <= y
      {
        assert Passes(a, p, y);
      }
    }
  }

  /** The last node is taken off, and another one appended. */
  ghost predicate Replaced(a: Arena, b: Arena, m: Arena, c: Arena, callback: Callback)
  {
    && Good(a) && |a.order| >= 2 && UnlinkedAt(a, b, |a.order| - 1)
    && Ticked(b, m) && LinkedAt(m, c, |m.order|, callback)
  }

  /** In c, at positions i and i + 1, y has come after q in the place of x, which still leads back to q. */
  ghost predicate Swapped(c: Arena, i: nat, x: nat, q: nat, y: nat)
  {
    && Good(c) && i + 2 == |c.order| && c.order[i] == q && c.order[i + 1] == y == |c.cells| - 1
    && x < y && q < y && x !in c.order
    && c.cells[x].prev == q && c.cells[x].next == NONE && c.cells[q].next == y
  }

  lemma ReplacedIsSwapped(a: Arena, b: Arena, m: Arena, c: Arena, callback: Callback)
    requires Replaced(a, b, m, c, callback)
    ensures var n := |a.order|; Swapped(c, n - 2, a.order[n - 1], a.order[n - 2], |a.cells|)
  {
    var n := |a.order|;
    var x := a.order[n - 1];
    UnlinkedGood(a, b, n - 1);
    UnlinkedMembers(a, b, n - 1);
    TickedGood(b, m);
    LinkedGood(m, c, |m.order|, callback);
    LinkedMembers(m, c, |m.order|, callback);
    assert Joined(a, n - 1);
    DistinctOrder(a);
    assert x != At(m, n - 2);
    assert Joined(c, n - 2);
  }

  /**
    The gap need not be closed: in a list of two or more, take the last node off, append another
    and remove the first one again. The forward chain then ends before the appended node.
   */
  lemma SecondRemovalCutsOff(a: Arena, b: Arena, m: Arena, c: Arena, callback: Callback)
    requires Replaced(a, b, m, c, callback)
    ensures var x, i := a.order[|a.order| - 1], |a.order| - 2;
            && Good(c) && x < |c.cells| && x !in c.order && i + 1 < |c.order|
            && var d := Freed(c, x); d.cells[c.order[i]].next == NONE && d.tail == c.order[i + 1]
  {
    ReplacedIsSwapped(a, b, m, c, callback);
  }

  /** What unlinking the node at position i leaves of it, of its successor and of a removed node x. */
  lemma UnlinkedBefore(c: Arena, d: Arena, i: nat, x: nat)
    requires Good(c) && i + 1 < |c.order| && UnlinkedAt(c, d, i) && x < |c.cells| && x !in c.order
    ensures var q, y := c.order[i], c.order[i + 1];
            && Good(d) && q < |d.cells| == |c.cells| && x !in d.order && q !in d.order && y in d.order && y < |c.cells|
            && d.cells[q].next == y && d.cells[q].rank < d.cells[y].rank && d.cells[q].death == |c.cells|
            && d.cells[x].prev == c.cells[x].prev && d.cells[x].next == c.cells[x].next
  {
    UnlinkedGood(c, d, i);
    UnlinkedMembers(c, d, i);
    DistinctOrder(c);
    assert Joined(c, i);
    assert RankAt(c, i) < RankAt(c, i + 1);
    assert c.order[i + 1] in c.order;
  }

  /**
    x is off the list, and so, after a step from c to d, is the node q before it; the second
    removal of x turns the link of q away from y, which is linked. The list is in order, but a
    traversal that stands on q ends without y.
   */
  ghost predicate Misled(d: Arena, x: nat, q: nat, y: nat)
  {
    && Good(d) && x < |d.cells| && q < |d.cells| && x !in d.order && q !in d.order && y in d.order
    && d.cells[q].next == y && Freed(d, x).cells[q].next == NONE
    && StillClosed(d, x) && Placed(Freed(d, x)) && Chained(Freed(d, x)) && !Good(Freed(d, x))
  }

  lemma MisledAfter(c: Arena, d: Arena, i: nat, x: nat, q: nat, y: nat)
    requires Swapped(c, i, x, q, y) && UnlinkedAt(c, d, i)
    ensures Misled(d, x, q, y)
  {
    UnlinkedBefore(c, d, i, x);
    FreedPlaced(d, x);
    ClosedIsKept(d, x);
    SecondRemovalHarmless(d, x);
  }

  /** A removed predecessor need not keep its way: replace the last node, and take off the one before as well. */
  lemma SecondRemovalMisleads(a: Arena, b: Arena, m: Arena, c: Arena, d: Arena, callback: Callback)
    requires Replaced(a, b, m, c, callback) && UnlinkedAt(c, d, |a.order| - 2)
    ensures Misled(d, a.order[|a.order| - 1], a.order[|a.order| - 2], |a.cells|)
  {
    ReplacedIsSwapped(a, b, m, c, callback);
    MisledAfter(c, d, |a.order| - 2, a.order[|a.order| - 1], a.order[|a.order| - 2], |a.cells|);
  }

  // ---------------------------------------------------------------- inserting before a removed node

  /** doInsert of a new node before any node x of the arena, as it changes the fields. */
  function PutBefore(a: Arena, x: nat, callback: Callback): (b: Arena)
    requires x < |a.cells|
    ensures |b.cells| == |a.cells| + 1
  {
    var p, id := a.cells[x].prev, |a.cells|;
    var cells := seq(id, k requires 0 <= k < id =>
      a.cells[k].(prev := if k == x then id else a.cells[k].prev, next := if k == p then id else a.cells[k].next));
    var cell := Cell(p, x, a.current, Start(callback).left, callback, 0.0, 0);
    a.(cells := cells + [cell], head := if a.head == x then id else a.head)
  }

  /** b read as the list `order`, with `rank` as the place of its newest node. */
  function ReadAs(b: Arena, order: seq<nat>, rank: real): Arena
    requires b.cells != []
  {
    var id := |b.cells| - 1;
    b.(order := order, cells := b.cells[id := b.cells[id].(rank := rank)])
  }

  /** Some reading of b is sound. */
  ghost predicate Sound(b: Arena)
    requires b.cells != []
  {
    exists order: seq<nat>, rank: real :: Good(ReadAs(b, order, rank))
  }

  lemma NextIsLinked(c: Arena, k: nat)
    requires Placed(c) && Chained(c) && k in c.order && k < |c.cells| && c.cells[k].next != NONE
    ensures c.cells[k].next in c.order
  {
    var i :| 0 <= i < |c.order| && c.order[i] == k;
    assert Joined(c, i);
  }

  /** A new node whose forward link leads to a removed one has no place in a sound list. */
  lemma NoPlaceBeforeRemoved(a: Arena, x: nat, callback: Callback, order: seq<nat>, rank: real)
    requires Good(a) && 1 <= a.current && x < |a.cells| && x !in a.order
    ensures !Good(ReadAs(PutBefore(a, x, callback), order, rank))
  {
    var id, c := |a.cells|, ReadAs(PutBefore(a, x, callback), order, rank);
    assert c.cells[id].counter == a.current && c.cells[id].next == x;
    assert c.cells[x].counter == a.cells[x].counter == 0;
    if Good(c) {
      assert id in c.order;
      NextIsLinked(c, id);
      assert false;
    }
  }

  function RankBefore(a: Arena, i: nat): real
    requires i < |a.order|
  {
    if i == 0 then RankAt(a, 0) - 1.0 else (RankAt(a, i - 1) + RankAt(a, i)) / 2.0
  }

  lemma PlaceBeforeLinked(a: Arena, i: nat, callback: Callback)
    requires Good(a) && 1 <= a.current && i < |a.order|
    ensures a.order[i] < |a.cells| && Sound(PutBefore(a, a.order[i], callback))
  {
    var x, id, order, rank := a.order[i], |a.cells|, a.order[..i] + [|a.cells|] + a.order[i..], RankBefore(a, i);
    var b := PutBefore(a, x, callback);
    var c := ReadAs(b, order, rank);
    DistinctOrder(a);
    assert Joined(a, i);
    assert i > 0 ==> RankAt(a, i - 1) < RankAt(a, i);
    assert LinkedAt(a, c, i, callback);
    LinkedGood(a, c, i, callback);
  }

  /** doInsert leaves a sound list exactly when the node to insert before is linked. */
  lemma InsertNeedsLinked(a: Arena, x: nat, callback: Callback)
    requires Good(a) && 1 <= a.current && x < |a.cells|
    ensures Sound(PutBefore(a, x, callback)) <==> x in a.order
  {
    if x in a.order {
      var i :| 0 <= i < |a.order| && a.order[i] == x;
      PlaceBeforeLinked(a, i, callback);
    } else {
      forall order: seq<nat>, rank: real
        ensures !Good(ReadAs(PutBefore(a, x, callback), order, rank))
      {
        NoPlaceBeforeRemoved(a, x, callback, order, rank);
      }
    }
  }
}
