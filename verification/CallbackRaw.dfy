/**
  Dispatching without any proviso, on the node graph: operations change the links as the source
  does, whatever they are given. Whether a handle has expired is for the script to say, so every
  use of a removed node is included. The list may come apart, but links still rise in rank: every
  dispatch ends, and no dispatch calls a callback twice.
 */
module CallbackRaw {
  import opened CallbackSpec
  import opened CallbackArena
  import opened CallbackStale
  import opened CallbackWay

  /** b has the nodes of a, in their places, and perhaps more. */
  ghost predicate Extends(a: Arena, b: Arena)
  {
    |a.cells| <= |b.cells| && forall k :: 0 <= k < |a.cells| ==> b.cells[k].rank == a.cells[k].rank
  }

  // ---------------------------------------------------------------- operations

  /** A place above, or below, all nodes. */
  function Highest(cells: seq<Cell>): (r: real)
    ensures forall k :: 0 <= k < |cells| ==> cells[k].rank < r
  {
    if cells == [] then 0.0
    else
      var n := |cells| - 1;
      var r := Highest(cells[..n]);
      assert forall k :: 0 <= k < n ==> cells[k] == cells[..n][k];
      if cells[n].rank < r then r else cells[n].rank + 1.0
  }

  function Lowest(cells: seq<Cell>): (r: real)
    ensures forall k :: 0 <= k < |cells| ==> r < cells[k].rank
  {
    if cells == [] then 0.0
    else
      var n := |cells| - 1;
      var r := Lowest(cells[..n]);
      assert forall k :: 0 <= k < n ==> cells[k] == cells[..n][k];
      if r < cells[n].rank then r else cells[n].rank - 1.0
  }

  /** getNextCounter: on overflow the nodes that links lead to from the head restart at one. */
  ghost function Drawn(a: Arena): (b: Arena)
    requires Rising(a)
    ensures Rising(b) && Extends(a, b) && |b.cells| == |a.cells| && b.head == a.head && b.tail == a.tail
  {
    if a.current + 1 < COUNTER_LIMIT then
      var b := a.(current := a.current + 1);
      assert forall k :: 0 <= k < |a.cells| ==> Rises(a, k) && Rises(b, k);
      b
    else
      var b := a.(current := 1, cells := seq(|a.cells|, k requires 0 <= k < |a.cells| =>
        if Leads(a, a.head, k) then a.cells[k].(counter := 1) else a.cells[k]));
      assert forall k :: 0 <= k < |a.cells| ==> Rises(a, k) && Rises(b, k);
      b
  }

  /** b is a with one more node, which links to p and q and is linked from them, and with these ends. */
  ghost function Joining(a: Arena, p: int, q: int, rank: real, cb: Callback, head: int, tail: int): (b: Arena)
    requires Rising(a) && InRange(a, p) && InRange(a, q)
    requires NONE <= head <= |a.cells| && NONE <= tail <= |a.cells|
    requires (p != NONE ==> a.cells[p].rank < rank) && (q != NONE ==> rank < a.cells[q].rank)
    ensures Rising(b) && Extends(a, b) && |b.cells| == |a.cells| + 1
  {
    var id := |a.cells|;
    var cells := seq(id, k requires 0 <= k < id =>
      a.cells[k].(prev := if k == q then id else a.cells[k].prev, next := if k == p then id else a.cells[k].next));
    var cell := Cell(p, q, a.current, Start(cb).left, cb, rank, 0);
    var b := a.(cells := cells + [cell], head := head, tail := tail);
    assert forall k :: 0 <= k < id ==> Rises(a, k) && Rises(b, k);
    assert Rises(b, id);
    b
  }

  /** The outcome of an operation; one that follows a null pointer is the end of everything. */
  datatype Did = Did(a: Arena, crashed: bool)

  /** append, prepend and insert, the counter drawn. */
  ghost function Appended(m: Arena, cb: Callback): (d: Did)
    requires Rising(m)
    ensures Rising(d.a) && Extends(m, d.a)
  {
    var id := |m.cells|;
    if m.head == NONE then Did(Joining(m, NONE, NONE, Highest(m.cells), cb, id, id), false)
    else if m.tail == NONE then Did(m, true)
    else Did(Joining(m, m.tail, NONE, Highest(m.cells), cb, m.head, id), false)
  }

  ghost function Prepended(m: Arena, cb: Callback): (d: Did)
    requires Rising(m)
    ensures Rising(d.a) && Extends(m, d.a)
  {
    var id := |m.cells|;
    if m.head == NONE then Did(Joining(m, NONE, NONE, Lowest(m.cells), cb, id, id), false)
    else Did(Joining(m, NONE, m.head, Lowest(m.cells), cb, id, m.tail), false)
  }

  ghost function Inserted(m: Arena, cb: Callback, x: nat): (d: Did)
    requires Rising(m) && x < |m.cells|
    ensures Rising(d.a) && Extends(m, d.a)
  {
    assert Rises(m, x);
    var p := m.cells[x].prev;
    var rank := if p == NONE then m.cells[x].rank - 1.0 else (m.cells[p].rank + m.cells[x].rank) / 2.0;
    Did(Joining(m, p, x, rank, cb, if m.head == x then |m.cells| else m.head, m.tail), false)
  }

  lemma FreedExtends(a: Arena, x: nat)
    requires Rising(a) && x < |a.cells|
    ensures Rising(Freed(a, x)) && Extends(a, Freed(a, x)) && |Freed(a, x).cells| == |a.cells|
    ensures Freed(a, x).cells[x].next == a.cells[x].next
  {
    FreedRises(a, x);
    assert Rises(a, x);
  }

  /** One operation; a handle gives access to its node exactly when the script says that it is held. */
  ghost function Operated(a: Arena, op: Op): (d: Did)
    requires Rising(a) && !op.Dispatch?
    ensures Rising(d.a) && Extends(a, d.a)
  {
    match op
    case Append(cb) => Appended(Drawn(a), cb)
    case Prepend(cb) => Prepended(Drawn(a), cb)
    case InsertBefore(cb, h, held) =>
      if held && h < |a.cells| then Inserted(Drawn(a), cb, h) else Appended(Drawn(a), cb)
    case Remove(h, held) =>
      if held && h < |a.cells| then FreedExtends(a, h); Did(Freed(a, h), false) else Did(a, false)
  }

  // ---------------------------------------------------------------- dispatching

  /** The graph, the script left, the callbacks that the traversal itself called, whether it ran to its end. */
  datatype Passed = Passed(a: Arena, script: Script, own: seq<nat>, done: bool, crashed: bool)

  /** The callbacks called lie ever further ahead, from the given place on. */
  ghost predicate Forward(a: Arena, own: seq<nat>, from: real)
  {
    && (forall i :: 0 <= i < |own| ==> own[i] < |a.cells| && from <= a.cells[own[i]].rank)
    && (forall i, j :: 0 <= i < j < |own| ==> own[i] < |a.cells| && own[j] < |a.cells| &&
                                              a.cells[own[i]].rank < a.cells[own[j]].rank)
  }

  /** CounterRemover's wrapper around the callback of node x. */
  ghost function Counted(a: Arena, x: nat): (b: Arena)
    requires Rising(a) && x < |a.cells|
    ensures Rising(b) && Extends(a, b) && |b.cells| == |a.cells|
  {
    if a.cells[x].cb.Plain? then a
    else
      var m := a.(cells := a.cells[x := a.cells[x].(left := a.cells[x].left - 1)]);
      assert forall k :: 0 <= k < |a.cells| ==> Rises(a, k) && Rises(m, k);
      if m.cells[x].left <= 0 then FreedExtends(m, x); Freed(m, x) else m
  }

  lemma AheadSame(a: Arena, b: Arena, node: int)
    requires Extends(a, b) && |b.cells| == |a.cells|
    ensures Ahead(b, node) == Ahead(a, node)
  {
    if 0 <= node < |a.cells| {
      assert (set k | 0 <= k < |a.cells| && a.cells[node].rank <= a.cells[k].rank) ==
             (set k | 0 <= k < |b.cells| && b.cells[node].rank <= b.cells[k].rank);
    }
  }

  /** What has been called lies before what is called after it. */
  lemma ForwardMore(a: Arena, b: Arena, x: nat, own: seq<nat>, next: real)
    requires Extends(a, b) && x < |a.cells| && a.cells[x].rank < next && Forward(b, own, next)
    ensures Forward(b, [x] + own, a.cells[x].rank)
  {
  }

  lemma ForwardLower(a: Arena, own: seq<nat>, from: real, lower: real)
    requires Forward(a, own, from) && lower <= from
    ensures Forward(a, own, lower)
  {
  }

  /** doForEachIf from `node` on, for a traversal that started at counter c. */
  ghost function Walked(node: int, c: nat, a: Arena, script: Script): (r: Passed)
    requires Rising(a) && InRange(a, node)
    ensures Rising(r.a) && Extends(a, r.a) && |r.script| <= |script|
    ensures node == NONE ==> r.own == []
    ensures node != NONE ==> Forward(r.a, r.own, a.cells[node].rank)
    decreases |script|, 1, Ahead(a, node)
  {
    if node == NONE then Passed(a, script, [], true, false)
    else
      assert Rises(a, node);
      if !CalledAt(a.cells[node], c) then
        var next := a.cells[node].next;
        AheadShrinks(a, node, next);
        var t := Walked(next, c, a, script);
        if next != NONE then ForwardLower(t.a, t.own, a.cells[next].rank, a.cells[node].rank); t else t
      else
        var r := Invoked(node, a, script);
        if r.crashed || !r.done then r
        else
          assert Rises(r.a, node);
          var next := r.a.cells[node].next;
          assert |r.script| < |script| || Ahead(r.a, next) < Ahead(a, node) by {
            if script == [] {
              AheadSame(a, r.a, node);
              AheadShrinks(r.a, node, next);
            }
          }
          var t := Walked(next, c, r.a, r.script);
          if next != NONE then ForwardMore(r.a, t.a, node, t.own, r.a.cells[next].rank);
            Passed(t.a, t.script, [node] + t.own, t.done, t.crashed)
          else Passed(t.a, t.script, [node], t.done, t.crashed)
  }

  /** The call of node x and all that it does. */
  ghost function Invoked(x: nat, a: Arena, script: Script): (r: Passed)
    requires Rising(a) && x < |a.cells|
    ensures Rising(r.a) && Extends(a, r.a) && r.own == [x]
    ensures if script == [] then r.script == [] && |r.a.cells| == |a.cells| else |r.script| < |script|
    decreases |script|, 0, 0
  {
    var b := Counted(a, x);
    if script == [] then Passed(b, [], [x], true, false)
    else
      var r := Acted(script[0].ops, b, script[1..]);
      Passed(r.a, r.script, [x], script[0].proceed, r.crashed)
  }

  ghost function Acted(ops: seq<Op>, a: Arena, script: Script): (r: Passed)
    requires Rising(a)
    ensures Rising(r.a) && Extends(a, r.a) && |r.script| <= |script|
    decreases |script|, 2, |ops|
  {
    if ops == [] then Passed(a, script, [], true, false)
    else if ops[0].Dispatch? then
      var r := Walked(a.head, a.current, a, script);
      if r.crashed then r else Acted(ops[1..], r.a, r.script)
    else
      var d := Operated(a, ops[0]);
      if d.crashed then Passed(d.a, script, [], true, true) else Acted(ops[1..], d.a, script)
  }

  /** Whatever callbacks do with the handles they have, no dispatch calls a callback twice. */
  lemma CalledOnce(a: Arena, script: Script)
    requires Rising(a)
    ensures Distinct(Walked(a.head, a.current, a, script).own)
  {
    var r := Walked(a.head, a.current, a, script);
    forall i, j | 0 <= i < j < |r.own| ensures r.own[i] != r.own[j] {
      assert r.a.cells[r.own[i]].rank < r.a.cells[r.own[j]].rank;
    }
  }

  // ---------------------------------------------------------------- the same on a sound list

  /** Links lead from linked nodes to linked nodes only. */
  lemma {:induction false} LeadsToLinked(a: Arena, k: int, y: nat)
    requires Good(a) && Rising(a) && InRange(a, k) && (k != NONE ==> k in a.order) && Leads(a, k, y)
    ensures y in a.order
    decreases Ahead(a, k)
  {
    if k != y {
      var i :| 0 <= i < |a.order| && a.order[i] == k;
      assert Joined(a, i) && Rises(a, k);
      AheadShrinks(a, k, a.cells[k].next);
      LeadsToLinked(a, a.cells[k].next, y);
    }
  }

  lemma HeadLeads(a: Arena, y: nat)
    requires Good(a) && Rising(a) && y < |a.cells|
    ensures Leads(a, a.head, y) <==> y in a.order
  {
    if Leads(a, a.head, y) { LeadsToLinked(a, a.head, y); }
    if y in a.order {
      var i :| 0 <= i < |a.order| && a.order[i] == y;
      assert i > 0 ==> RankAt(a, 0) < RankAt(a, i);
      ComesTo(a, a.head, y, |a.cells|);
    }
  }

  /** On a sound list the operations are those of CallbackArena: drawing a counter, */
  lemma DrawnIsTicked(a: Arena)
    requires Good(a) && Rising(a)
    ensures Ticked(a, Drawn(a)) && Good(Drawn(a))
  {
    forall k | 0 <= k < |a.cells| ensures Leads(a, a.head, k) <==> k in a.order { HeadLeads(a, k); }
    TickedGood(a, Drawn(a));
  }

  /** The neighbours at position i, with a rank between them. */
  ghost predicate Fits(m: Arena, i: nat, rank: real)
  {
    && i <= |m.order| && InRange(m, At(m, i - 1)) && InRange(m, At(m, i))
    && (At(m, i - 1) != NONE ==> m.cells[At(m, i - 1)].rank < rank)
    && (At(m, i) != NONE ==> rank < m.cells[At(m, i)].rank)
  }

  lemma RankFits(m: Arena, i: nat, rank: real)
    requires Placed(m) && i <= |m.order|
    requires (i > 0 ==> RankAt(m, i - 1) < rank) && (i < |m.order| ==> rank < RankAt(m, i))
    ensures Fits(m, i, rank)
  {
  }

  function HeadWith(m: Arena, i: nat): int { if i == 0 then |m.cells| else m.head }

  function TailWith(m: Arena, i: nat): int { if i == |m.order| then |m.cells| else m.tail }

  /** A node joined between neighbours of the list is linked there. */
  lemma JoiningIsLinked(m: Arena, i: nat, rank: real, cb: Callback)
    requires Rising(m) && Fits(m, i, rank)
    ensures var b := Joining(m, At(m, i - 1), At(m, i), rank, cb, HeadWith(m, i), TailWith(m, i));
            LinkedAt(m, b.(order := m.order[..i] + [|m.cells|] + m.order[i..]), i, cb)
  {
  }

  lemma EndsOf(m: Arena)
    requires Good(m)
    ensures Placed(m) && m.head == At(m, 0) && m.tail == At(m, |m.order| - 1)
  {
  }

  /** append, */
  lemma AppendedIsLinked(m: Arena, cb: Callback)
    requires Good(m) && Rising(m)
    ensures var d := Appended(m, cb);
            var n := |m.order|;
            !d.crashed && LinkedAt(m, d.a.(order := m.order[..n] + [|m.cells|] + m.order[n..]), n, cb)
  {
    EndsOf(m);
    RankFits(m, |m.order|, Highest(m.cells));
    JoiningIsLinked(m, |m.order|, Highest(m.cells), cb);
  }

  /** prepend, */
  lemma PrependedIsLinked(m: Arena, cb: Callback)
    requires Good(m) && Rising(m)
    ensures var d := Prepended(m, cb);
            !d.crashed && LinkedAt(m, d.a.(order := m.order[..0] + [|m.cells|] + m.order[0..]), 0, cb)
  {
    EndsOf(m);
    RankFits(m, 0, Lowest(m.cells));
    JoiningIsLinked(m, 0, Lowest(m.cells), cb);
  }

  /** insert before a linked node, */
  lemma InsertedIsLinked(m: Arena, cb: Callback, i: nat)
    requires Good(m) && Rising(m) && i < |m.order|
    ensures m.order[i] < |m.cells|
    ensures var d := Inserted(m, cb, m.order[i]);
            !d.crashed && LinkedAt(m, d.a.(order := m.order[..i] + [|m.cells|] + m.order[i..]), i, cb)
  {
    EndsOf(m);
    DistinctOrder(m);
    assert Joined(m, i);
    assert i > 0 ==> RankAt(m, i - 1) < RankAt(m, i);
    RankFits(m, i, RankBefore(m, i));
    JoiningIsLinked(m, i, RankBefore(m, i), cb);
  }

  /** and removing a linked node, except that the raw graph keeps no record of when that was. */
  lemma FreedIsUnlinked(a: Arena, i: nat)
    requires Good(a) && i < |a.order|
    ensures a.order[i] < |a.cells|
    ensures var x := a.order[i];
            var b := Freed(a, x);
            UnlinkedAt(a, b.(order := a.order[..i] + a.order[i + 1..],
                             cells := b.cells[x := b.cells[x].(death := |a.cells|)]), i)
  {
    DistinctOrder(a);
    assert Joined(a, i);
  }
}
