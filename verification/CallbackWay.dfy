/**
  Where links lead. A removed node serves the traversals that stand on it when every callback
  linked ahead of it and as old as its removal is still reached from it. A second removal does no
  harm exactly when the list stays in order and every removed node goes on serving; the condition
  can be told before it from the links of one node.
 */
module CallbackWay {
  import opened CallbackSpec
  import opened CallbackArena
  import opened CallbackStale

  /** Forward links lead forward in rank, backward links backward. */
  ghost predicate Rising(a: Arena)
  {
    && InRange(a, a.head) && InRange(a, a.tail)
    && (forall k {:trigger a.cells[k]} :: 0 <= k < |a.cells| ==> Rises(a, k))
  }

  ghost predicate Rises(a: Arena, k: nat)
    requires k < |a.cells|
  {
    var c := a.cells[k];
    && InRange(a, c.prev) && InRange(a, c.next)
    && (c.prev != NONE ==> a.cells[c.prev].rank < c.rank)
    && (c.next != NONE ==> c.rank < a.cells[c.next].rank)
  }

  lemma GoodRises(a: Arena)
    requires Good(a)
    ensures Rising(a)
  {
    forall k | 0 <= k < |a.cells| ensures Rises(a, k) {
      assert InRange(a, a.cells[k].prev) && InRange(a, a.cells[k].next);
      if k in a.order {
        var i :| 0 <= i < |a.order| && a.order[i] == k;
        assert Joined(a, i);
        assert i > 0 ==> RankAt(a, i - 1) < RankAt(a, i);
        assert i + 1 < |a.order| ==> RankAt(a, i) < RankAt(a, i + 1);
      } else {
        assert Stale(a, k);
      }
    }
  }

  /** Removing any node, removed before or not, leaves links that rise. */
  lemma FreedRises(a: Arena, x: nat)
    requires Rising(a) && x < |a.cells|
    ensures Rising(Freed(a, x))
  {
    var b, p, n := Freed(a, x), a.cells[x].prev, a.cells[x].next;
    assert Rises(a, x);
    forall k | 0 <= k < |b.cells| ensures Rises(b, k) { assert Rises(a, k); }
  }

  /** Following links from k one comes to y. */
  ghost predicate Leads(a: Arena, k: int, y: nat)
    requires Rising(a) && InRange(a, k)
    decreases Ahead(a, k)
  {
    k != NONE && (k == y || (assert Rises(a, k); AheadShrinks(a, k, a.cells[k].next); Leads(a, a.cells[k].next, y)))
  }

  /** y is linked, ahead of k, and was registered before time d. */
  predicate Due(a: Arena, k: nat, d: nat, y: nat)
    requires k < |a.cells|
  {
    y in a.order && y < |a.cells| && y != k && a.cells[k].rank <= a.cells[y].rank && y < d
  }

  /** From the removed node k one comes to every linked node ahead that was registered before its removal. */
  ghost predicate Serves(a: Arena, k: nat)
    requires Rising(a) && k < |a.cells|
  {
    assert InRange(a, k);
    forall y | Due(a, k, a.cells[k].death, y) :: Leads(a, k, y)
  }

  /** The list is in order, and whoever stands on a removed node misses nothing. */
  ghost predicate Unharmed(a: Arena)
    requires Rising(a) && Placed(a)
  {
    Chained(a) && forall k {:trigger Serves(a, k)} :: 0 <= k < |a.cells| && k !in a.order ==> Serves(a, k)
  }

  // ---------------------------------------------------------------- the step of a walk

  lemma Positions(a: Arena, i: nat, j: nat)
    requires Placed(a) && i < |a.order| && j < |a.order|
    ensures RankAt(a, i) <= RankAt(a, j) ==> i <= j
    ensures i + 1 < j ==> RankAt(a, i + 1) < RankAt(a, j)
  {
    if j < i { assert RankAt(a, j) < RankAt(a, i); }
  }

  /** One step from m towards y, which lies ahead: the link is there and does not go past y. */
  lemma StepTowards(a: Arena, m: nat, y: nat, d: nat)
    requires Good(a) && m < |a.cells| && Due(a, m, d, y) && (m !in a.order ==> d <= a.cells[m].death)
    ensures var n := a.cells[m].next;
            && 0 <= n < |a.cells| && (n == y || Due(a, n, d, y)) && (n !in a.order ==> d <= a.cells[n].death)
  {
    assert InRange(a, a.cells[m].next);
    if m in a.order {
      var i :| 0 <= i < |a.order| && a.order[i] == m;
      var j :| 0 <= j < |a.order| && a.order[j] == y;
      assert Joined(a, i);
      Positions(a, i, j);
    } else {
      assert Stale(a, m);
      assert !Passes(a, m, y);
    }
  }

  /** In a sound graph one comes to every node that is due. */
  lemma {:induction false} ComesTo(a: Arena, m: nat, y: nat, d: nat)
    requires Good(a) && Rising(a) && m < |a.cells| && (m == y || Due(a, m, d, y))
    requires m !in a.order ==> d <= a.cells[m].death
    ensures InRange(a, m) && Leads(a, m, y)
    decreases Ahead(a, m)
  {
    if m != y {
      StepTowards(a, m, y, d);
      assert Rises(a, m);
      AheadShrinks(a, m, a.cells[m].next);
      ComesTo(a, a.cells[m].next, y, d);
    }
  }

  lemma GoodIsUnharmed(a: Arena)
    requires Good(a)
    ensures Rising(a) && Unharmed(a)
  {
    GoodRises(a);
    forall k | 0 <= k < |a.cells| && k !in a.order ensures Serves(a, k) {
      forall y | Due(a, k, a.cells[k].death, y) ensures Leads(a, k, y) { ComesTo(a, k, y, a.cells[k].death); }
    }
  }

  // ---------------------------------------------------------------- a second removal

  /**
    x's old predecessor, if it is off the list too, will still serve: from x's old successor one
    comes to every linked node ahead of the predecessor and as old as its removal.
   */
  ghost predicate SuccessorServes(a: Arena, x: nat)
    requires Good(a) && Rising(a) && x < |a.cells|
  {
    var p, n := a.cells[x].prev, a.cells[x].next;
    assert InRange(a, p) && InRange(a, n);
    p != NONE && p !in a.order ==> forall y | Due(a, p, a.cells[p].death, y) :: Leads(a, n, y)
  }

  /** Above the old predecessor nothing changes. */
  lemma {:induction false} LeadsAbove(a: Arena, x: nat, m: int, y: nat)
    requires Rising(a) && x < |a.cells| && Rising(Freed(a, x)) && InRange(a, m)
    requires var p := a.cells[x].prev;
             InRange(a, p) && (m != NONE && p != NONE ==> a.cells[p].rank < a.cells[m].rank)
    ensures InRange(Freed(a, x), m) && (Leads(Freed(a, x), m, y) <==> Leads(a, m, y))
    decreases Ahead(a, m)
  {
    if m != NONE && m != y {
      assert Rises(a, m);
      AheadShrinks(a, m, a.cells[m].next);
      LeadsAbove(a, x, a.cells[m].next, y);
    }
  }

  lemma {:induction false} ComesToAfter(a: Arena, x: nat, m: nat, y: nat, d: nat)
    requires Good(a) && Rising(a) && x < |a.cells| && x !in a.order && Rising(Freed(a, x))
    requires StillClosed(a, x) && SuccessorServes(a, x)
    requires m < |a.cells| && (m == y || Due(a, m, d, y)) && (m !in a.order ==> d <= a.cells[m].death)
    ensures InRange(Freed(a, x), m) && Leads(Freed(a, x), m, y)
    decreases Ahead(a, m)
  {
    var b, p, n := Freed(a, x), a.cells[x].prev, a.cells[x].next;
    if m != y {
      StepTowards(a, m, y, d);
      assert Rises(a, m);
      AheadShrinks(a, m, a.cells[m].next);
      if m == p && m !in a.order {
        RanksAcross(a, x);
        assert Due(a, p, a.cells[p].death, y);
        LeadsAbove(a, x, n, y);
      } else {
        ComesToAfter(a, x, a.cells[m].next, y, d);
      }
    }
  }

  lemma UnharmedAfter(a: Arena, x: nat)
    requires Good(a) && Rising(a) && x < |a.cells| && x !in a.order
    requires Rising(Freed(a, x)) && Placed(Freed(a, x)) && StillClosed(a, x) && SuccessorServes(a, x)
    ensures Unharmed(Freed(a, x))
  {
    var b := Freed(a, x);
    ClosedIsKept(a, x);
    forall k | 0 <= k < |b.cells| && k !in b.order ensures Serves(b, k) {
      forall y | Due(b, k, b.cells[k].death, y) ensures Leads(b, k, y) { ComesToAfter(a, x, k, y, a.cells[k].death); }
    }
  }

  lemma ServedBefore(a: Arena, x: nat)
    requires Good(a) && Rising(a) && x < |a.cells| && x !in a.order
    requires Rising(Freed(a, x)) && Placed(Freed(a, x)) && Unharmed(Freed(a, x))
    ensures SuccessorServes(a, x)
  {
    var b, p, n := Freed(a, x), a.cells[x].prev, a.cells[x].next;
    RanksAcross(a, x);
    if p != NONE && p !in a.order {
      assert Serves(b, p);
      forall y | Due(a, p, a.cells[p].death, y) ensures Leads(a, n, y) {
        assert Due(b, p, b.cells[p].death, y);
        LeadsAbove(a, x, n, y);
      }
    }
  }

  /**
    A second removal does no harm exactly when x's old neighbours, where linked, still close the
    gap, and from its old successor one still comes to all that a removed predecessor has to serve.
   */
  lemma SecondRemovalExact(a: Arena, x: nat)
    requires Good(a) && x < |a.cells| && x !in a.order
    ensures Rising(a) && Rising(Freed(a, x)) && Placed(Freed(a, x))
    ensures Unharmed(Freed(a, x)) <==> StillClosed(a, x) && SuccessorServes(a, x)
  {
    GoodRises(a);
    FreedRises(a, x);
    FreedPlaced(a, x);
    if StillClosed(a, x) && SuccessorServes(a, x) { UnharmedAfter(a, x); }
    if Unharmed(Freed(a, x)) {
      KeptIsClosed(a, x);
      ServedBefore(a, x);
    }
  }

  /** Then every traversal under way still comes to all of its snapshot that is linked and ahead of it. */
  lemma TraversalsUnharmed(s: Arena, a: Arena, x: nat, node: nat, j: nat, i: nat)
    requires Cursor(s, a, node, j) && x < |a.cells| && x !in a.order && j <= i < |s.order| && s.order[i] in a.order
    requires Rising(a) && StillClosed(a, x) && SuccessorServes(a, x)
    ensures Rising(Freed(a, x)) && InRange(Freed(a, x), node) && Leads(Freed(a, x), node, s.order[i])
  {
    var y := s.order[i];
    FreedRises(a, x);
    assert y < |s.cells| && RankAt(s, i) == a.cells[y].rank;
    ComesToAfter(a, x, node, y, |s.cells|);
  }

  /** Append A, x and B, remove x and B, prepend C, remove A: the graph before x is removed again. */
  const SPARED := Arena(3, 3, 4,
    [Cell(3, NONE, 0, 0, Plain, 0.0, 4), Cell(0, 2, 0, 0, Plain, 1.0, 3),
     Cell(0, NONE, 0, 0, Plain, 2.0, 3), Cell(NONE, NONE, 4, 0, Plain, -1.0, 0)], [3])

  /**
    The condition under which CallbackList removes a node again is stricter: the invariant asks
    that a removed node leads to none that was removed before it, and here one does, to no harm.
   */
  lemma InvariantIsStricter()
    ensures Good(SPARED) && Rising(SPARED) && StillClosed(SPARED, 1) && SuccessorServes(SPARED, 1)
    ensures !PredecessorKeepsWay(SPARED, 1)
  {
    var a := SPARED;
    assert Placed(a) && Joined(a, 0);
    forall k | 0 <= k < 4 && k !in a.order ensures Stale(a, k) {
      assert a.order == [3];
    }
    GoodRises(a);
  }
}
