/** Copying and swapping callback lists. */
module CallbackCopy {
  import opened CallbackSpec
  import opened CallbackArena
  import opened CallbackList

  /** The linked callbacks, in list order. */
  ghost function Callbacks(a: Arena): seq<Callback>
    requires Good(a)
  {
    seq(|a.order|, i requires 0 <= i < |a.order| => a.cells[a.order[i]].cb)
  }

  /** cloneFrom: a copy has the same callbacks in the same order on nodes of its own. */
  method Copied(other: CallbackList) returns (list: CallbackList)
    requires other.Valid() && forall i :: 0 <= i < |other.order| ==> Callbacks(other.Snap())[i].Plain?
    ensures fresh(list) && fresh(list.nodes) && list.Valid()
    ensures Callbacks(list.Snap()) == Callbacks(other.Snap())
  {
    var counter;
    list, counter := Started();
    CloneFrom(list, other, counter);
  }

  /** A new list that has drawn its first counter. */
  method Started() returns (list: CallbackList, counter: nat)
    ensures fresh(list) && Blank(list, counter)
  {
    list := new CallbackList();
    counter := list.NextCounter();
  }

  /** The node graph of a list built from front to back, all with one counter. */
  ghost function Line(cbs: seq<Callback>, counter: nat): (a: Arena)
    ensures |a.cells| == |cbs| && |a.order| == |cbs|
  {
    var n := |cbs|;
    Arena(if n == 0 then NONE else 0, n - 1, counter,
          seq(n, k requires 0 <= k < n =>
            Cell(k - 1, if k + 1 < n then k + 1 else NONE, counter, Start(cbs[k]).left, cbs[k], k as real, 0)),
          seq(n, k => k))
  }

  lemma LineIsGood(cbs: seq<Callback>, counter: nat)
    requires 1 <= counter < COUNTER_LIMIT
    ensures Good(Line(cbs, counter)) && Callbacks(Line(cbs, counter)) == cbs
  {
    var a := Line(cbs, counter);
    assert Placed(a);
    forall i | 0 <= i < |a.order| ensures Joined(a, i) {}
    forall k | 0 <= k < |a.cells| ensures k in a.order { assert a.order[k] == k; }
  }

  /** A list with nothing in it yet. */
  ghost predicate Blank(list: CallbackList, counter: nat)
    reads list
  {
    && list.nodes == {} && list.handles == [] && list.order == []
    && list.head == null && list.tail == null && counter == list.currentCounter && 1 <= counter < COUNTER_LIMIT
  }

  /** cloneFrom: each node is linked to the one before, the tail is set at the end. */
  method CloneFrom(list: CallbackList, other: CallbackList, counter: nat)
    requires other.Valid() && list != other && Blank(list, counter)
    modifies list
    ensures list.Valid() && fresh(list.nodes)
    ensures Callbacks(list.Snap()) == old(Callbacks(other.Snap()))
  {
    ghost var cbs := Callbacks(other.Snap());
    ghost var chain := ChainOf(other);
    var node := CloneNodes(list, other.head, counter, chain, cbs);
    SetTail(list, node, cbs, counter);
  }

  /** The i-th node of a chain, with the callback of that place. */
  ghost predicate Follows(chain: seq<Node>, i: nat, callback: Callback)
    requires i < |chain|
    reads chain
  {
    chain[i].callback == callback && chain[i].next == if i + 1 < |chain| then chain[i + 1] else null
  }

  /** The chain has these callbacks, and `head` is where it starts. */
  ghost predicate Chain(head: Node?, chain: seq<Node>, cbs: seq<Callback>)
    reads chain
  {
    && |chain| == |cbs| && head == (if chain == [] then null else chain[0])
    && (forall i {:trigger Follows(chain, i, cbs[i])} :: 0 <= i < |cbs| ==> Follows(chain, i, cbs[i]))
  }

  /** What a valid list knows of the node at position i. */
  lemma LinkedNode(other: CallbackList, i: nat)
    requires other.Valid() && i < |other.order|
    ensures other.order[i] < |other.handles|
    ensures var n := other.handles[other.order[i]];
            && n.callback == Callbacks(other.Snap())[i]
            && (if i + 1 < |other.order| then
                  other.order[i + 1] < |other.handles| && n.next == other.handles[other.order[i + 1]]
                else n.next == null)
  {
    var a := other.Snap();
    assert Joined(a, i);
    assert CellOf(other.handles[a.order[i]]) == a.cells[a.order[i]];
  }

  lemma ChainOf(other: CallbackList) returns (chain: seq<Node>)
    requires other.Valid()
    ensures Chain(other.head, chain, Callbacks(other.Snap()))
  {
    var order, handles, cbs := other.order, other.handles, Callbacks(other.Snap());
    forall i | 0 <= i < |order| ensures order[i] < |handles| { LinkedNode(other, i); }
    chain := seq(|order|, i requires 0 <= i < |order| => handles[order[i]]);
    forall i | 0 <= i < |order| ensures Follows(chain, i, cbs[i]) { LinkedNode(other, i); }
    assert Ref(other.head) == At(other.Snap(), 0);
  }

  method CloneNodes(list: CallbackList, head: Node?, counter: nat, ghost chain: seq<Node>, ghost cbs: seq<Callback>)
    returns (node: Node?)
    requires Chain(head, chain, cbs) && Blank(list, counter)
    modifies list
    ensures Cloning(list, cbs, |cbs|, counter) && node == Newest(list) && forall n :: n in list.nodes ==> fresh(n)
  {
    var fromNode := head;
    node := null;
    ghost var i := 0;
    while fromNode != null
      invariant Cloning(list, cbs, i, counter) && node == Newest(list)
      invariant (forall n :: n in list.nodes ==> fresh(n)) && (node != null ==> fresh(node))
      invariant Chain(head, chain, cbs) && fromNode == if i < |chain| then chain[i] else null
      decreases |cbs| - i
    {
      assert Follows(chain, i, cbs[i]);
      node := CloneNext(list, fromNode.callback, counter, node, cbs, i);
      fromNode := fromNode.next;
      i := i + 1;
    }
  }

  method SetTail(list: CallbackList, node: Node?, ghost cbs: seq<Callback>, counter: nat)
    requires Cloning(list, cbs, |cbs|, counter) && node == Newest(list) && 1 <= counter < COUNTER_LIMIT
    modifies list`tail
    ensures list.Valid() && Callbacks(list.Snap()) == cbs
  {
    list.tail := node;
    ClonedLine(list, cbs, counter);
    LineIsGood(cbs, counter);
  }

  ghost function Newest(list: CallbackList): Node?
    reads list
  {
    if list.handles == [] then null else list.handles[|list.handles| - 1]
  }

  /** The k-th clone. */
  ghost predicate Clone(list: CallbackList, k: nat, callback: Callback, counter: nat)
    requires k < |list.handles|
    reads list`handles, list`nodes, list.handles
  {
    var n := list.handles[k];
    && n.id == k && n in list.nodes && n.callback == callback && n.counter == counter && n.rank == k as real
    && n.death == 0 && n.triggersLeft == Start(callback).left
    && n.previous == (if k == 0 then null else list.handles[k - 1])
    && n.next == (if k + 1 == |list.handles| then null else list.handles[k + 1])
  }

  /** The first i callbacks have been cloned; the tail is not set yet. */
  ghost predicate Cloning(list: CallbackList, cbs: seq<Callback>, i: int, counter: nat)
    reads list, list.handles
  {
    && 0 <= i <= |cbs| && |list.handles| == |list.order| == i && list.currentCounter == counter
    && list.head == (if i == 0 then null else list.handles[0]) && list.tail == null
    && (forall k :: 0 <= k < i ==> list.order[k] == k)
    && (forall k {:trigger Clone(list, k, cbs[k], counter)} :: 0 <= k < i ==> Clone(list, k, cbs[k], counter))
  }

  method CloneNext(list: CallbackList, callback: Callback, counter: nat, node: Node?,
                   ghost cbs: seq<Callback>, ghost i: nat)
    returns (nextNode: Node)
    requires Cloning(list, cbs, i, counter) && i < |cbs| && cbs[i] == callback && node == Newest(list)
    modifies list, node
    ensures Cloning(list, cbs, i + 1, counter) && nextNode == Newest(list)
    ensures fresh(nextNode) && list.nodes == old(list.nodes) + {nextNode}
  {
    nextNode := new Node(callback, counter, |list.handles|, |list.handles| as real);
    nextNode.previous := node;
    if node != null {
      node.next := nextNode;
    } else {
      list.head := nextNode;
    }
    list.handles, list.nodes, list.order := list.handles + [nextNode], list.nodes + {nextNode}, list.order + [i];
    forall k | 0 <= k < i + 1 ensures Clone(list, k, cbs[k], counter) {
      if k < i { assert old(Clone(list, k, cbs[k], counter)); }
      if i > 0 { assert old(Clone(list, i - 1, cbs[i - 1], counter)); }
    }
  }

  /** The books of a finished clone. */
  ghost predicate Cloned(list: CallbackList, cbs: seq<Callback>, counter: nat)
    reads list, list.handles
  {
    && |list.handles| == |list.order| == |cbs| && list.currentCounter == counter
    && list.tail == Newest(list) && list.head == (if cbs == [] then null else list.handles[0])
    && (forall k :: 0 <= k < |cbs| ==> list.order[k] == k)
    && (forall k {:trigger Clone(list, k, cbs[k], counter)} :: 0 <= k < |cbs| ==> Clone(list, k, cbs[k], counter))
  }

  lemma CloneAt(list: CallbackList, cbs: seq<Callback>, counter: nat, k: nat)
    requires Cloned(list, cbs, counter) && k < |cbs|
    ensures var n := list.handles[k];
            && n.id == k && n in list.nodes && list.Known(n.next) && list.Known(n.previous)
            && CellOf(n) == Line(cbs, counter).cells[k]
  {
    assert Clone(list, k, cbs[k], counter);
    assert k > 0 ==> Clone(list, k - 1, cbs[k - 1], counter);
    assert k + 1 < |cbs| ==> Clone(list, k + 1, cbs[k + 1], counter);
  }

  lemma ClonedLine(list: CallbackList, cbs: seq<Callback>, counter: nat)
    requires Cloned(list, cbs, counter)
    ensures list.Wired() && list.Snap() == Line(cbs, counter)
  {
    var a, b := list.Snap(), Line(cbs, counter);
    forall k | 0 <= k < |cbs|
      ensures list.handles[k].id == k && list.handles[k] in list.nodes && a.cells[k] == b.cells[k]
      ensures list.Known(list.handles[k].next) && list.Known(list.handles[k].previous)
    {
      CloneAt(list, cbs, counter, k);
    }
    assert a.order == b.order && a.cells == b.cells;
    assert Ref(list.head) == b.head && Ref(list.tail) == b.tail;
  }

  /** The list holds exactly these fields and books. */
  ghost predicate Holds(list: CallbackList, head: Node?, tail: Node?, counter: nat, handles: seq<Node>,
                        order: seq<nat>, nodes: set<Node>)
    reads list
  {
    && list.head == head && list.tail == tail && list.currentCounter == counter
    && list.handles == handles && list.order == order && list.nodes == nodes
  }

  lemma SameBooks(list: CallbackList, t: Arena, handles: seq<Node>)
    requires list.Wired() && list.handles == handles && |t.cells| == |handles|
    requires forall k :: 0 <= k < |handles| ==> CellOf(handles[k]) == t.cells[k]
    requires t.head == Ref(list.head) && t.tail == Ref(list.tail)
    requires t.current == list.currentCounter && t.order == list.order && Good(t)
    ensures list.Snap() == t && list.Valid()
  {
    assert list.Snap().cells == t.cells;
  }

  /** swap exchanges the two lists and their counters; each goes on as the other did. */
  method Swap(a: CallbackList, b: CallbackList)
    requires a.Valid() && b.Valid()
    modifies a, b
    ensures a.Valid() && b.Valid()
    ensures a.Snap() == old(b.Snap()) && b.Snap() == old(a.Snap())
    ensures a.nodes == old(b.nodes) && b.nodes == old(a.nodes)
  {
    ghost var s, t := a.Snap(), b.Snap();
    Exchange(a, b);
    SameBooks(a, t, a.handles);
    SameBooks(b, s, b.handles);
  }

  method Exchange(a: CallbackList, b: CallbackList)
    requires a.Wired() && b.Wired()
    modifies a, b
    ensures Holds(a, old(b.head), old(b.tail), old(b.currentCounter), old(b.handles), old(b.order), old(b.nodes))
    ensures Holds(b, old(a.head), old(a.tail), old(a.currentCounter), old(a.handles), old(a.order), old(a.nodes))
    ensures a.Wired() && b.Wired()
  {
    a.head, b.head := b.head, a.head;
    a.tail, b.tail := b.tail, a.tail;
    a.currentCounter, b.currentCounter := b.currentCounter, a.currentCounter;
    a.handles, b.handles := b.handles, a.handles;
    a.order, b.order := b.order, a.order;
    a.nodes, b.nodes := b.nodes, a.nodes;
  }
}
