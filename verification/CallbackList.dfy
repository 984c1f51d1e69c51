/**
  eventpp's CallbackList on the heap: a doubly linked list whose nodes keep their links when
  they are removed, and whose counters tell a running traversal which nodes are gone and which
  are newer than it. Every operation is proved against the plain sequences of CallbackSpec, with
  the soundness of the node graph taken from CallbackArena.
 */
module CallbackList {
  import opened CallbackSpec
  import opened CallbackArena
  import opened CallbackStale

  class Node {
    var previous: Node?
    var next: Node?
    var counter: nat          // 0 marks a removed node
    var triggersLeft: int     // the trigger count of CounterRemover's wrapper
    const callback: Callback
    const id: nat             // position in registration order
    ghost const rank: real
    ghost var death: nat

    constructor (callback: Callback, counter: nat, id: nat, ghost rank: real)
      ensures this.callback == callback && this.counter == counter && this.id == id && this.rank == rank
      ensures previous == null && next == null && triggersLeft == Start(callback).left && death == 0
    {
      this.callback, this.counter, this.id, this.rank := callback, counter, id, rank;
      previous, next, triggersLeft, death := null, null, Start(callback).left, 0;
    }
  }

  /** ++ on a 64-bit counter. */
  function Incremented(c: nat): (r: nat)
    requires c < COUNTER_LIMIT
    ensures r == if c + 1 < COUNTER_LIMIT then c + 1 else 0
  {
    (c + 1) % COUNTER_LIMIT
  }

  function Ref(n: Node?): int { if n == null then NONE else n.id }

  ghost function CellOf(n: Node): Cell
    reads n
  {
    Cell(Ref(n.previous), Ref(n.next), n.counter, n.triggersLeft, n.callback, n.rank, n.death)
  }

  class CallbackList {
    var head: Node?
    var tail: Node?
    var currentCounter: nat
    var handles: seq<Node>        // the handles given out, in registration order
    ghost var order: seq<nat>     // the linked nodes, in list order
    ghost var nodes: set<Node>    // every node of this list

    /** The node graph as a value. */
    ghost function Snap(): (a: Arena)
      reads this, handles
      ensures |a.cells| == |handles| && forall k :: 0 <= k < |handles| ==> a.cells[k] == CellOf(handles[k])
    {
      Arena(Ref(head), Ref(tail), currentCounter,
            seq(|handles|, k requires 0 <= k < |handles| reads this, handles => CellOf(handles[k])), order)
    }

    ghost predicate Known(n: Node?)
      reads this`handles
    {
      n == null || (n.id < |handles| && handles[n.id] == n)
    }

    /** Handles, ends and links name nodes of this list only. */
    ghost predicate Wired()
      reads this`head, this`tail, this`handles, this`nodes, handles
    {
      && (forall k :: 0 <= k < |handles| ==> handles[k].id == k && handles[k] in nodes)
      && Known(head) && Known(tail)
      && (forall k :: 0 <= k < |handles| ==> Known(handles[k].next) && Known(handles[k].previous))
    }

    ghost predicate Valid()
      reads this, handles
    {
      Wired() && Good(Snap())
    }

    ghost function Listed(): Listing
      reads this, handles
    {
      View(Snap())
    }

    constructor ()
      ensures Valid() && Listed() == EMPTY && currentCounter == 0 && nodes == {} && handles == []
    {
      head, tail, currentCounter, handles, order, nodes := null, null, 0, [], [], {};
    }

    /** getNextCounter, with its loop over the linked nodes on overflow. */
    method NextCounter() returns (counter: nat)
      requires Valid()
      modifies this`currentCounter, handles
      ensures Valid() && Ticked(old(Snap()), Snap()) && counter == currentCounter && 1 <= counter
      ensures Listed() == old(Listed())
    {
      ghost var a := Snap();
      DrawCounter(a);
      counter := currentCounter;
      TickedGood(a, Snap());
    }

    method DrawCounter(ghost a: Arena)
      requires Wired() && Placed(a) && Chained(a) && a.current < COUNTER_LIMIT && a == Snap()
      modifies this`currentCounter, handles
      ensures Wired() && Ticked(a, Snap())
    {
      currentCounter := Incremented(currentCounter);
      if currentCounter == 0 {
        RestartCounters(a);
      }
    }

    /** The overflow branch: every linked node's counter becomes one, and so does the current one. */
    method RestartCounters(ghost a: Arena)
      requires Wired() && Placed(a) && Chained(a) && currentCounter == 0 && a == Snap().(current := a.current)
      modifies this`currentCounter, handles
      ensures Wired() && currentCounter == 1
      ensures forall k :: 0 <= k < |handles| ==>
                CellOf(handles[k]) == if k in order then a.cells[k].(counter := 1) else a.cells[k]
    {
      ghost var seen := RestartLinked(a);
      currentCounter := currentCounter + 1;
    }

    method RestartLinked(ghost a: Arena) returns (ghost seen: set<nat>)
      requires Wired() && Placed(a) && Chained(a) && a == Snap().(current := a.current)
      modifies handles
      ensures Covers(a.order, |a.order|, seen) && Restarting(a, seen)
    {
      var node := head;
      ghost var i := 0;
      seen := {};
      while node != null
        invariant 0 <= i <= |a.order| && Known(node) && Ref(node) == At(a, i)
        invariant Covers(a.order, i, seen) && Restarting(a, seen)
        decreases |a.order| - i
      {
        node := RestartNext(node, a, i, seen);
        CoversMore(a.order, i, seen);
        i, seen := i + 1, seen + {a.order[i]};
      }
    }

    method RestartNext(node: Node, ghost a: Arena, ghost i: nat, ghost seen: set<nat>) returns (next: Node?)
      requires Placed(a) && Chained(a) && i < |a.order| && Known(node) && node.id == a.order[i] && Restarting(a, seen)
      modifies node`counter
      ensures Restarting(a, seen + {a.order[i]}) && Known(next) && Ref(next) == At(a, i + 1)
    {
      assert Joined(a, i);
      RestartOne(node, a, seen);
      next := node.next;
      assert Ref(next) == a.cells[a.order[i]].next;
    }

    /** The nodes in `seen` have been restarted; nothing else has changed since a. */
    ghost predicate Restarting(a: Arena, seen: set<nat>)
      reads this, handles
    {
      && Wired() && |a.cells| == |handles|
      && (forall k :: 0 <= k < |handles| ==>
            CellOf(handles[k]) == if k in seen then a.cells[k].(counter := 1) else a.cells[k])
    }

    method RestartOne(node: Node, ghost a: Arena, ghost seen: set<nat>)
      requires Restarting(a, seen) && Known(node)
      modifies node`counter
      ensures Restarting(a, seen + {node.id})
    {
      node.counter := 1;
    }

    /** node, not yet registered, stands between p and q; nothing else has changed since m. */
    ghost predicate Spliced(m: Arena, node: Node, p: Node?, q: Node?)
      reads this`handles, this`order, this`nodes, this`currentCounter, handles, node
    {
      && |m.cells| == |handles| == node.id && m.order == order && m.current == currentCounter == node.counter
      && (forall k :: 0 <= k < |handles| ==> handles[k].id == k && handles[k] in nodes)
      && Known(p) && Known(q) && node.previous == p && node.next == q
      && node.triggersLeft == Start(node.callback).left
      && (forall k :: 0 <= k < |handles| ==>
            && SameBut(m.cells[k], CellOf(handles[k]))
            && (if handles[k] == p then handles[k].next == node
                else Known(handles[k].next) && Ref(handles[k].next) == m.cells[k].next)
            && (if handles[k] == q then handles[k].previous == node
                else Known(handles[k].previous) && Ref(handles[k].previous) == m.cells[k].prev))
    }

    /** Takes a spliced node into the books, at position i. */
    method Register(node: Node, ghost m: Arena, ghost p: Node?, ghost q: Node?, ghost i: nat)
      requires Spliced(m, node, p, q) && i <= |order|
      requires Ref(p) == At(m, i - 1) && Ref(q) == At(m, i)
      requires if i == 0 then head == node else Known(head) && Ref(head) == m.head
      requires if i == |order| then tail == node else Known(tail) && Ref(tail) == m.tail
      requires (i > 0 ==> RankAt(m, i - 1) < node.rank) && (i < |order| ==> node.rank < RankAt(m, i))
      modifies this`handles, this`nodes, this`order
      ensures Wired() && handles == old(handles) + [node] && nodes == old(nodes) + {node}
      ensures LinkedAt(m, Snap(), i, node.callback)
    {
      Enter(node, m, p, q, i);
      EnteredLinked(node, m, p, q, i);
    }

    method Enter(node: Node, ghost m: Arena, ghost p: Node?, ghost q: Node?, ghost i: nat)
      requires Spliced(m, node, p, q) && i <= |order|
      requires (head == node || Known(head)) && (tail == node || Known(tail))
      modifies this`handles, this`nodes, this`order
      ensures Wired() && handles == old(handles) + [node] && nodes == old(nodes) + {node}
      ensures Entered(node, m, p, q) && order == m.order[..i] + [node.id] + m.order[i..]
    {
      handles, nodes := handles + [node], nodes + {node};
      order := order[..i] + [node.id] + order[i..];
      ghost var id := node.id;
      assert forall k :: 0 <= k < id ==> handles[k] == old(handles)[k];
      assert handles[id] == node;
    }

    /** node is the newest one and stands between p and q; the others are as in m. */
    ghost predicate Entered(node: Node, m: Arena, p: Node?, q: Node?)
      reads this`handles, this`currentCounter, handles, node
    {
      var id := |m.cells|;
      && |handles| == id + 1 && handles[id] == node && node.id == id && m.current == currentCounter == node.counter
      && Known(p) && Known(q) && p != node && q != node && node.previous == p && node.next == q
      && node.triggersLeft == Start(node.callback).left
      && (forall k :: 0 <= k < id ==>
            && handles[k].id == k && SameBut(m.cells[k], CellOf(handles[k]))
            && Ref(handles[k].next) == (if handles[k] == p then id else m.cells[k].next)
            && Ref(handles[k].previous) == (if handles[k] == q then id else m.cells[k].prev))
    }

    lemma EnteredLinked(node: Node, m: Arena, p: Node?, q: Node?, i: nat)
      requires Entered(node, m, p, q) && i <= |m.order| && order == m.order[..i] + [node.id] + m.order[i..]
      requires Ref(p) == At(m, i - 1) && Ref(q) == At(m, i)
      requires if i == 0 then head == node else Ref(head) == m.head
      requires if i == |m.order| then tail == node else Ref(tail) == m.tail
      requires (i > 0 ==> RankAt(m, i - 1) < node.rank) && (i < |m.order| ==> node.rank < RankAt(m, i))
      ensures LinkedAt(m, Snap(), i, node.callback)
    {
      forall k | 0 <= k < |m.cells| ensures (handles[k] == p <==> k == Ref(p)) && (handles[k] == q <==> k == Ref(q)) {}
    }

    method Append(callback: Callback) returns (node: Node)
      requires Valid()
      modifies this, handles
      ensures Valid() && fresh(node) && handles == old(handles) + [node] && nodes == old(nodes) + {node}
      ensures Listed() == Apply(old(Listed()), CallbackSpec.Append(callback))
      ensures old(currentCounter) + 1 < COUNTER_LIMIT ==>
                Later(old(Snap()), Snap()) && currentCounter == old(currentCounter) + 1
    {
      ghost var a := Snap();
      var counter := NextCounter();
      ghost var m := Snap();
      node := AppendNode(callback, counter, m);
      NowAppended(a, m, Snap(), callback);
    }

    method AppendNode(callback: Callback, counter: nat, ghost m: Arena) returns (node: Node)
      requires Valid() && m == Snap() && counter == currentCounter
      modifies this`head, this`tail, this`handles, this`nodes, this`order, tail
      ensures Wired() && fresh(node) && handles == old(handles) + [node] && nodes == old(nodes) + {node}
      ensures LinkedAt(m, Snap(), |m.order|, callback)
    {
      ghost var n, last := |order|, tail;
      node := new Node(callback, counter, |handles|, if n == 0 then 0.0 else RankAt(m, n - 1) + 1.0);
      AttachLast(node, m);
      Register(node, m, last, null, n);
    }

    /** The links that append makes. */
    method AttachLast(node: Node, ghost m: Arena)
      requires Wired() && m == Snap() && node !in handles && (head == null <==> tail == null)
      requires node.id == |handles| && node.counter == currentCounter && node.previous == null && node.next == null
      requires node.triggersLeft == Start(node.callback).left
      modifies this`head, this`tail, node, tail
      ensures Spliced(m, node, old(tail), null)
      ensures tail == node && head == if old(head) == null then node else old(head)
    {
      if head != null {
        node.previous := tail;
        tail.next := node;
        tail := node;
      } else {
        head := node;
        tail := node;
      }
    }

    method Prepend(callback: Callback) returns (node: Node)
      requires Valid()
      modifies this, handles
      ensures Valid() && fresh(node) && handles == old(handles) + [node] && nodes == old(nodes) + {node}
      ensures Listed() == Apply(old(Listed()), CallbackSpec.Prepend(callback))
      ensures old(currentCounter) + 1 < COUNTER_LIMIT ==>
                Later(old(Snap()), Snap()) && currentCounter == old(currentCounter) + 1
    {
      ghost var a := Snap();
      var counter := NextCounter();
      ghost var m := Snap();
      node := PrependNode(callback, counter, m);
      NowPrepended(a, m, Snap(), callback);
    }

    method PrependNode(callback: Callback, counter: nat, ghost m: Arena) returns (node: Node)
      requires Valid() && m == Snap() && counter == currentCounter
      modifies this`head, this`tail, this`handles, this`nodes, this`order, head
      ensures Wired() && fresh(node) && handles == old(handles) + [node] && nodes == old(nodes) + {node}
      ensures LinkedAt(m, Snap(), 0, callback)
    {
      ghost var first := head;
      node := new Node(callback, counter, |handles|, if |order| == 0 then 0.0 else RankAt(m, 0) - 1.0);
      AttachFirst(node, m);
      Register(node, m, null, first, 0);
    }

    /** The links that prepend makes. */
    method AttachFirst(node: Node, ghost m: Arena)
      requires Wired() && m == Snap() && node !in handles && (head == null <==> tail == null)
      requires node.id == |handles| && node.counter == currentCounter && node.previous == null && node.next == null
      requires node.triggersLeft == Start(node.callback).left
      modifies this`head, this`tail, node, head
      ensures Spliced(m, node, null, old(head))
      ensures head == node && tail == if old(head) == null then node else old(tail)
    {
      if head != null {
        node.next := head;
        head.previous := node;
        head := node;
      } else {
        head := node;
        tail := node;
      }
    }

    /** insert: before a linked node, or at the end when the handle has expired. */
    method Insert(callback: Callback, before: Node?) returns (node: Node)
      requires Valid()
      requires before != null ==> Known(before) && before.counter != 0
      modifies this, handles
      ensures Valid() && fresh(node) && handles == old(handles) + [node] && nodes == old(nodes) + {node}
      ensures Listed() == Apply(old(Listed()), if before == null then CallbackSpec.Append(callback)
                                               else InsertBefore(callback, before.id, false))
      ensures old(currentCounter) + 1 < COUNTER_LIMIT ==>
                Later(old(Snap()), Snap()) && currentCounter == old(currentCounter) + 1
    {
      if before == null {
        node := Append(callback);
        return;
      }
      ghost var a := Snap();
      assert before.id in a.order;
      ghost var i :| 0 <= i < |a.order| && a.order[i] == before.id;
      var counter := NextCounter();
      ghost var m := Snap();
      node := InsertNode(callback, before, counter, m, i);
      NowInserted(a, m, Snap(), i, callback);
    }

    method InsertNode(callback: Callback, before: Node, counter: nat, ghost m: Arena, ghost i: nat) returns (node: Node)
      requires Valid() && m == Snap() && counter == currentCounter
      requires Known(before) && i < |order| && order[i] == before.id
      modifies this`head, this`handles, this`nodes, this`order, before, before.previous
      ensures Wired() && fresh(node) && handles == old(handles) + [node] && nodes == old(nodes) + {node}
      ensures LinkedAt(m, Snap(), i, callback)
    {
      ghost var rank := if i == 0 then RankAt(m, 0) - 1.0 else (RankAt(m, i - 1) + RankAt(m, i)) / 2.0;
      assert i > 0 ==> RankAt(m, i - 1) < RankAt(m, i);
      DistinctOrder(m);
      assert Joined(m, i);
      node := new Node(callback, counter, |handles|, rank);
      ghost var p := before.previous;
      AttachBefore(node, before, m);
      Register(node, m, p, before, i);
    }

    /** The links that doInsert makes. */
    method AttachBefore(node: Node, before: Node, ghost m: Arena)
      requires Wired() && m == Snap() && node !in handles && Known(before) && before.previous != before
      requires node.id == |handles| && node.counter == currentCounter && node.previous == null && node.next == null
      requires node.triggersLeft == Start(node.callback).left
      modifies this`head, node, before, before.previous
      ensures Spliced(m, node, old(before.previous), before)
      ensures head == if old(head) == before then node else old(head)
    {
      SpliceBefore(node, before, m);
      if before == head {
        head := node;
      }
    }

    method SpliceBefore(node: Node, before: Node, ghost m: Arena)
      requires Wired() && m == Snap() && node !in handles && Known(before) && before.previous != before
      requires node.id == |handles| && node.counter == currentCounter && node.previous == null && node.next == null
      requires node.triggersLeft == Start(node.callback).left
      modifies node, before, before.previous
      ensures Spliced(m, node, old(before.previous), before)
    {
      node.previous := before.previous;
      node.next := before;
      if before.previous != null {
        before.previous.next := node;
      }
      before.previous := node;
    }

    /** A removed node that can be removed once more without harm. */
    ghost predicate Removable(node: Node)
      requires Valid() && Known(node)
      reads this, handles
    {
      node.counter == 0 ==> StillClosed(Snap(), node.id) && PredecessorKeepsWay(Snap(), node.id)
    }

    /** remove: takes a linked node off; an expired handle, or a removed node, changes nothing on the list. */
    method Remove(handle: Node?) returns (found: bool)
      requires Valid()
      requires handle != null ==> Known(handle) && Removable(handle)
      modifies this, handles
      ensures Valid() && handles == old(handles) && nodes == old(nodes) && currentCounter == old(currentCounter)
      ensures found == (handle != null) && Later(old(Snap()), Snap())
      ensures Listed() ==
              if handle == null then old(Listed()) else Apply(old(Listed()), CallbackSpec.Remove(handle.id, true))
    {
      if handle == null {
        return false;
      }
      if handle.counter != 0 {
        RemoveLinked(handle);
      } else {
        RemoveAgain(handle);
      }
      return true;
    }

    /** What doFreeNode does to a linked node. */
    method RemoveLinked(node: Node)
      requires Valid() && Known(node) && node.counter != 0
      modifies this, handles
      ensures Valid() && handles == old(handles) && nodes == old(nodes) && currentCounter == old(currentCounter)
      ensures Later(old(Snap()), Snap()) && Listed() == Apply(old(Listed()), CallbackSpec.Remove(node.id, true))
    {
      ghost var a := Snap();
      ghost var i := PositionOf(node);
      RemoveNode(node, a, i);
      NowUnlinked(a, Snap(), i);
    }

    method RemoveNode(node: Node, ghost a: Arena, ghost i: nat)
      requires Wired() && a == Snap() && i < |order| && Between(node, a, i) && node.counter != 0
      modifies this`head, this`tail, this`order, node, node.previous, node.next
      ensures Wired() && UnlinkedAt(a, Snap(), i)
    {
      FreeNode(node, a, Killed(a, node.id));
      Strike(a, old(node.previous), old(node.next), i);
    }

    /** Takes position i out of the books, its node's neighbours p and q being joined already. */
    ghost method Strike(a: Arena, p: Node?, q: Node?, i: nat)
      requires i < |a.order| && a.order[i] < |a.cells| && a.cells[a.order[i]].counter != 0
      requires Wired() && Bridged(Killed(a, a.order[i]), p, q) && order == a.order && currentCounter == a.current
      requires Ref(p) == At(a, i - 1) && Ref(q) == At(a, i + 1)
      requires Ref(head) == (if i == 0 then At(a, 1) else a.head)
      requires Ref(tail) == (if i == |a.order| - 1 then At(a, |a.order| - 2) else a.tail)
      modifies this`order
      ensures Wired() && UnlinkedAt(a, Snap(), i)
    {
      order := a.order[..i] + a.order[i + 1..];
      StruckCells(a, Killed(a, a.order[i]), p, q, i);
    }

    /** What it does to one that is off the list already. */
    method RemoveAgain(node: Node)
      requires Valid() && Known(node) && node.counter == 0 && Removable(node)
      modifies this, handles
      ensures Valid() && handles == old(handles) && nodes == old(nodes) && currentCounter == old(currentCounter)
      ensures Later(old(Snap()), Snap()) && Listed() == Apply(old(Listed()), CallbackSpec.Remove(node.id, true))
    {
      ghost var a := Snap();
      NotAnEnd(node);
      FreeAgain(node, a);
      NowRemovedAgain(a, Snap(), node.id);
    }

    method FreeAgain(node: Node, ghost a: Arena)
      requires Wired() && a == Snap() && Known(node) && Apart(node) && node.counter == 0
      requires head != node && tail != node
      modifies this`head, this`tail, node, node.previous, node.next
      ensures Wired() && Snap() == Freed(a, node.id)
    {
      FreeNode(node, a, Killed(a, node.id));
      FreedCells(a, Killed(a, node.id), old(node.previous), old(node.next), node.id);
    }

    /** node, its neighbours and the ends are where doFreeNode can tell them apart. */
    ghost predicate Apart(node: Node)
      reads node
    {
      node.previous != node && node.next != node && (node.previous == null || node.previous != node.next)
    }

    /** node is at position i of the list, with its neighbours on either side. */
    ghost predicate Between(node: Node, a: Arena, i: nat)
      requires i < |a.order|
      reads this, node
    {
      && Known(node) && a.order[i] == node.id
      && Ref(node.previous) == At(a, i - 1) && Ref(node.next) == At(a, i + 1)
      && Apart(node) && (head == node <==> i == 0) && (tail == node <==> i == |a.order| - 1)
      && a.head == At(a, 0) && a.tail == At(a, |a.order| - 1)
    }

    /** A removed node is not an end of the list. */
    lemma NotAnEnd(node: Node)
      requires Valid() && Known(node) && node.counter == 0
      ensures Apart(node) && head != node && tail != node
    {
      var a := Snap();
      assert node.id !in a.order;
      RanksAcross(a, node.id);
    }

    /** A linked node has a position. */
    lemma PositionOf(node: Node) returns (i: nat)
      requires Valid() && Known(node) && node.counter != 0
      ensures i < |order| && Between(node, Snap(), i)
    {
      var a := Snap();
      assert node.id in a.order;
      i :| 0 <= i < |a.order| && a.order[i] == node.id;
      DistinctOrder(a);
      assert Joined(a, i);
    }

    /** p and q have become neighbours; no other node has changed since a. */
    ghost predicate Bridged(a: Arena, p: Node?, q: Node?)
      reads this`handles, this`nodes, handles
    {
      && |a.cells| == |handles|
      && (forall k :: 0 <= k < |handles| ==> handles[k].id == k && handles[k] in nodes)
      && Known(p) && Known(q)
      && (forall k :: 0 <= k < |handles| ==>
            && SameBut(a.cells[k], CellOf(handles[k]))
            && (if handles[k] == p then handles[k].next == q
                else Known(handles[k].next) && Ref(handles[k].next) == a.cells[k].next)
            && (if handles[k] == q then handles[k].previous == p
                else Known(handles[k].previous) && Ref(handles[k].previous) == a.cells[k].prev))
    }

    /** doFreeNode: the neighbours and the ends are relinked; the node keeps its own links. */
    method FreeNode(node: Node, ghost a: Arena, ghost d: Arena)
      requires Wired() && a == Snap() && Known(node) && d == Killed(a, node.id)
      requires Apart(node)
      modifies this`head, this`tail, node, node.previous, node.next
      ensures Wired() && Bridged(d, old(node.previous), old(node.next))
      ensures head == if old(head) == node then old(node.next) else old(head)
      ensures tail == if old(tail) == node then old(node.previous) else old(tail)
    {
      ghost var p, q := node.previous, node.next;
      Bridge(node, a);
      MoveEnds(node);
      Mark(node, a, d, p, q);
      StruckWired(d, p, q);
    }

    /** The ends give way if they are at the node. */
    method MoveEnds(node: Node)
      requires Known(head) && Known(tail) && Known(node.next) && Known(node.previous)
      modifies this`head, this`tail
      ensures head == if old(head) == node then node.next else old(head)
      ensures tail == if old(tail) == node then node.previous else old(tail)
      ensures Known(head) && Known(tail)
    {
      if head == node {
        head := node.next;
      }
      if tail == node {
        tail := node.previous;
      }
    }

    /** Marks the node as deleted. */
    method Mark(node: Node, ghost a: Arena, ghost d: Arena, ghost p: Node?, ghost q: Node?)
      requires Bridged(a, p, q) && Known(node) && d == Killed(a, node.id)
      modifies node`counter, node`death
      ensures Bridged(d, p, q)
    {
      if node.counter != 0 { node.death := |handles|; }
      node.counter := 0;
    }

    method Bridge(node: Node, ghost a: Arena)
      requires Wired() && a == Snap() && Known(node)
      requires Apart(node)
      modifies node.previous, node.next
      ensures Bridged(a, old(node.previous), old(node.next))
      ensures node.previous == old(node.previous) && node.next == old(node.next)
    {
      BridgeBack(node, a);
      if node.previous != null {
        node.previous.next := node.next;
      }
    }

    /** The backward link over the node; the forward one is still to come. */
    method BridgeBack(node: Node, ghost a: Arena)
      requires Wired() && a == Snap() && Known(node) && Apart(node)
      modifies node.next
      ensures HalfBridged(a, node.previous, node.next)
      ensures node.previous == old(node.previous) && node.next == old(node.next)
    {
      if node.next != null {
        node.next.previous := node.previous;
      }
    }

    ghost predicate HalfBridged(a: Arena, p: Node?, q: Node?)
      reads this`handles, this`nodes, handles
    {
      && |a.cells| == |handles|
      && (forall k :: 0 <= k < |handles| ==> handles[k].id == k && handles[k] in nodes)
      && Known(p) && Known(q)
      && (forall k :: 0 <= k < |handles| ==>
            && SameBut(a.cells[k], CellOf(handles[k]))
            && Known(handles[k].next) && Ref(handles[k].next) == a.cells[k].next
            && (if handles[k] == q then handles[k].previous == p
                else Known(handles[k].previous) && Ref(handles[k].previous) == a.cells[k].prev))
    }

    lemma StruckWired(d: Arena, p: Node?, q: Node?)
      requires Bridged(d, p, q) && Known(head) && Known(tail)
      ensures Wired()
    {
    }

    lemma FreedCells(a: Arena, d: Arena, p: Node?, q: Node?, x: nat)
      requires x < |a.cells| && a.cells[x].counter == 0 && d == Killed(a, x) && Bridged(d, p, q)
      requires Ref(p) == a.cells[x].prev && Ref(q) == a.cells[x].next
      requires Ref(head) == a.head && Ref(tail) == a.tail && a.head != x && a.tail != x
      requires currentCounter == a.current && order == a.order
      ensures Snap() == Freed(a, x)
    {
      var b, f := Snap(), Freed(a, x);
      forall k | 0 <= k < |a.cells| ensures b.cells[k] == f.cells[k] {
        assert handles[k] == p <==> k == Ref(p);
        assert handles[k] == q <==> k == Ref(q);
      }
    }

    lemma StruckCells(a: Arena, d: Arena, p: Node?, q: Node?, i: nat)
      requires i < |a.order| && d == Killed(a, a.order[i]) && Bridged(d, p, q)
      requires a.order[i] < |a.cells| && a.cells[a.order[i]].counter != 0
      requires Ref(p) == At(a, i - 1) && Ref(q) == At(a, i + 1)
      requires Ref(head) == (if i == 0 then At(a, 1) else a.head)
      requires Ref(tail) == (if i == |a.order| - 1 then At(a, |a.order| - 2) else a.tail)
      requires currentCounter == a.current && order == a.order[..i] + a.order[i + 1..]
      ensures UnlinkedAt(a, Snap(), i)
    {
      var b := Snap();
      forall k | 0 <= k < |a.cells|
        ensures b.cells[k].next == (if k == At(a, i - 1) then At(a, i + 1) else a.cells[k].next)
        ensures b.cells[k].prev == (if k == At(a, i + 1) then At(a, i - 1) else a.cells[k].prev)
      {
        assert handles[k] == p <==> k == Ref(p);
        assert handles[k] == q <==> k == Ref(q);
      }
    }
  }

  /** A cell with the marks of a removal; the first removal counts. */
  function Struck(c: Cell, now: nat): Cell { if c.counter == 0 then c else c.(counter := 0, death := now) }

  /** The cell of node x with the marks of a removal. */
  ghost function Killed(a: Arena, x: nat): (d: Arena)
    ensures d.order == a.order && d.current == a.current && |d.cells| == |a.cells|
    ensures forall k :: 0 <= k < |a.cells| ==>
              d.cells[k] == if k == x then Struck(a.cells[k], |a.cells|) else a.cells[k]
  {
    a.(cells := seq(|a.cells|, k requires 0 <= k < |a.cells| =>
                  if k == x then Struck(a.cells[k], |a.cells|) else a.cells[k]))
  }

  /** `seen` holds the first i members of s and nothing else. */
  ghost predicate Covers(s: seq<nat>, i: int, seen: set<nat>)
  {
    && 0 <= i <= |s|
    && (forall j :: 0 <= j < i ==> s[j] in seen) && (forall k :: k in seen ==> k in s)
  }

  lemma CoversMore(s: seq<nat>, i: nat, seen: set<nat>)
    requires i < |s| && Covers(s, i, seen)
    ensures Covers(s, i + 1, seen + {s[i]})
  {
  }

  lemma NowLinked(a: Arena, m: Arena, b: Arena, i: nat, callback: Callback)
    requires Good(a) && Ticked(a, m) && LinkedAt(m, b, i, callback)
    ensures Good(b)
    ensures View(b) == Listing(a.order[..i] + [|a.cells|] + a.order[i..], View(a).made + [Start(callback)])
    ensures a.current + 1 < COUNTER_LIMIT ==> Later(a, b) && b.current == a.current + 1
  {
    TickedGood(a, m);
    LinkedGood(m, b, i, callback);
    if a.current + 1 < COUNTER_LIMIT { LinkedLater(a, m, b, i, callback); }
  }

  lemma NowAppended(a: Arena, m: Arena, b: Arena, callback: Callback)
    requires Good(a) && Ticked(a, m) && LinkedAt(m, b, |m.order|, callback)
    ensures Good(b) && View(b) == Apply(View(a), Append(callback))
    ensures a.current + 1 < COUNTER_LIMIT ==> Later(a, b) && b.current == a.current + 1
  {
    NowLinked(a, m, b, |m.order|, callback);
  }

  lemma NowPrepended(a: Arena, m: Arena, b: Arena, callback: Callback)
    requires Good(a) && Ticked(a, m) && LinkedAt(m, b, 0, callback)
    ensures Good(b) && View(b) == Apply(View(a), Prepend(callback))
    ensures a.current + 1 < COUNTER_LIMIT ==> Later(a, b) && b.current == a.current + 1
  {
    NowLinked(a, m, b, 0, callback);
    assert a.order[..0] + [|a.cells|] + a.order[0..] == [|a.cells|] + a.order;
  }

  lemma NowInserted(a: Arena, m: Arena, b: Arena, i: nat, callback: Callback)
    requires Good(a) && Ticked(a, m) && LinkedAt(m, b, i, callback) && i < |a.order|
    ensures Good(b) && View(b) == Apply(View(a), InsertBefore(callback, a.order[i], false))
    ensures a.current + 1 < COUNTER_LIMIT ==> Later(a, b) && b.current == a.current + 1
  {
    NowLinked(a, m, b, i, callback);
    DistinctOrder(a);
    InsertedAt(a.order, |a.cells|, i);
  }

  lemma NowUnlinked(a: Arena, b: Arena, i: nat)
    requires Good(a) && UnlinkedAt(a, b, i)
    ensures Good(b) && View(b) == Apply(View(a), Remove(a.order[i], true)) && Later(a, b)
  {
    UnlinkedGood(a, b, i);
    UnlinkedLater(a, b, i);
    DistinctOrder(a);
    WithoutAt(a.order, i);
  }

  lemma NowRemovedAgain(a: Arena, b: Arena, x: nat)
    requires Good(a) && x < |a.cells| && a.cells[x].counter == 0 && b == Freed(a, x)
    requires StillClosed(a, x) && PredecessorKeepsWay(a, x)
    ensures Good(b) && View(b) == Apply(View(a), Remove(x, true)) && Later(a, b)
  {
    assert x !in a.order;
    HarmlessIsUnnoticed(a, x);
    WithoutAbsent(a.order, x);
  }
}
