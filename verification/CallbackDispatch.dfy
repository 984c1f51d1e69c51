/**
  Dispatching the heap list. doForEachIf follows the links of nodes that its own callbacks may
  unlink under it; these methods show that it does what CallbackSpec says, which is to walk a
  snapshot of the list, for every script of what the callbacks do.
 */
module CallbackDispatch {
  import opened CallbackSpec
  import opened CallbackArena
  import opened CallbackList
  import opened CallbackStale
  import opened CallbackCourse

  /**
    One invocation of a listener, through CounterRemover's wrapper when it is a counted one.
    `lawful` is false when the run has come upon a removed node in the place of a linked one,
    and the list can no longer be vouched for; the run is followed no further then.
   */
  method Call(list: CallbackList, node: Node, script: Script, ghost base: Arena)
    returns (rest: Script, trace: seq<nat>, proceed: bool, lawful: bool)
    requires list.Valid() && list.Known(node) && node.counter != 0 && Later(base, list.Snap())
    requires list.currentCounter + Registrations(script) < COUNTER_LIMIT
    modifies list, list.nodes
    ensures |rest| <= |script| && (TameScript(script) ==> lawful && TameScript(rest))
    ensures lawful ==> list.Valid() && Later(base, list.Snap())
    ensures lawful ==> forall n :: n in list.nodes ==> n in old(list.nodes) || fresh(n)
    ensures lawful ==> old(list.handles) <= list.handles
    ensures lawful ==>
              list.currentCounter + Registrations(rest) <= old(list.currentCounter) + Registrations(script)
    ensures lawful ==>
              Invoke(node.id, old(list.Listed()), script) == Ran(list.Listed(), rest, trace, [node.id], proceed)
    decreases |script|, 0, 0
  {
    Trigger(list, node, base);
    if script == [] {
      return [], [node.id], true, true;
    }
    assert TameScript(script) ==> Tame(script[0].ops) && TameScript(script[1..]);
    rest, trace, lawful := Perform(list, script[0].ops, script[1..], base);
    trace, proceed := [node.id] + trace, script[0].proceed;
  }

  /** The wrapper: one trigger fewer, and off the list before the last call. */
  method Trigger(list: CallbackList, node: Node, ghost base: Arena)
    requires list.Valid() && list.Known(node) && node.counter != 0 && Later(base, list.Snap())
    modifies list, list.nodes
    ensures list.Valid() && list.handles == old(list.handles) && list.nodes == old(list.nodes)
    ensures list.currentCounter == old(list.currentCounter) && Later(base, list.Snap())
    ensures list.Listed() == Triggered(old(list.Listed()), node.id)
  {
    if node.callback.Counted? {
      ghost var a := list.Snap();
      CountDown(list, node);
      ghost var b := list.Snap();
      LaterThen(base, a, b);
      TriggeredIs(View(a), View(b), node.id, node.triggersLeft);
      if node.triggersLeft <= 0 {
        TakeOff(list, node, base, b);
      }
    }
  }

  lemma TriggeredIs(v: Listing, u: Listing, x: nat, left: int)
    requires x < |v.made| && v.made[x].cb.Counted? && left == v.made[x].left - 1
    requires u == v.(made := v.made[x := v.made[x].(left := left)])
    ensures Triggered(v, x) == if left <= 0 then Apply(u, Remove(x, true)) else u
  {
  }

  method TakeOff(list: CallbackList, node: Node, ghost base: Arena, ghost b: Arena)
    requires list.Valid() && list.Known(node) && node.counter != 0 && b == list.Snap() && Later(base, b)
    modifies list, list.nodes
    ensures list.Valid() && list.handles == old(list.handles) && list.nodes == old(list.nodes)
    ensures list.currentCounter == old(list.currentCounter) && Later(base, list.Snap())
    ensures list.Listed() == Apply(View(b), Remove(node.id, true))
  {
    var found := list.Remove(node);
    LaterThen(base, b, list.Snap());
  }

  lemma LaterSame(a: Arena)
    requires Good(a)
    ensures Later(a, a)
  {
  }

  method CountDown(list: CallbackList, node: Node)
    requires list.Valid() && list.Known(node)
    modifies node`triggersLeft
    ensures list.Valid() && Later(old(list.Snap()), list.Snap()) && node.triggersLeft == old(node.triggersLeft) - 1
    ensures var v := old(list.Listed());
            list.Listed() == v.(made := v.made[node.id := v.made[node.id].(left := node.triggersLeft)])
    ensures list.Snap().order == old(list.Snap().order)
  {
    ghost var a := list.Snap();
    node.triggersLeft := node.triggersLeft - 1;
    RecountedGood(a, list.Snap(), node.id, node.triggersLeft);
  }

  /** What a listener, or the owner of the list, does to it. */
  method Perform(list: CallbackList, ops: seq<Op>, script: Script, ghost base: Arena)
    returns (rest: Script, trace: seq<nat>, lawful: bool)
    requires list.Valid() && Later(base, list.Snap())
    requires list.currentCounter + OpRegistrations(ops) + Registrations(script) < COUNTER_LIMIT
    modifies list, list.nodes
    ensures |rest| <= |script| && (Tame(ops) && TameScript(script) ==> lawful && TameScript(rest))
    ensures lawful ==> list.Valid() && Later(base, list.Snap())
    ensures lawful ==> forall n :: n in list.nodes ==> n in old(list.nodes) || fresh(n)
    ensures lawful ==> old(list.handles) <= list.handles
    ensures lawful ==>
              list.currentCounter + Registrations(rest) <=
              old(list.currentCounter) + OpRegistrations(ops) + Registrations(script)
    ensures lawful ==> RunOps(ops, old(list.Listed()), script) == Ran(list.Listed(), rest, trace, [], true)
    decreases |script|, 3, |ops|
  {
    if ops == [] {
      rest, trace, lawful := script, [], true;
      return;
    }
    FirstRegistration(ops);
    rest, trace, lawful := PerformOne(list, ops[0], script, base);
    if !lawful {
      return;
    }
    var more;
    rest, more, lawful := Perform(list, ops[1..], rest, base);
    trace := trace + more;
  }

  lemma FirstRegistration(ops: seq<Op>)
    requires ops != []
    ensures OpRegistrations(ops) == OpRegistrations([ops[0]]) + OpRegistrations(ops[1..])
  {
    assert [ops[0]][1..] == [];
  }

  method PerformOne(list: CallbackList, op: Op, script: Script, ghost base: Arena)
    returns (rest: Script, trace: seq<nat>, lawful: bool)
    requires list.Valid() && Later(base, list.Snap())
    requires list.currentCounter + OpRegistrations([op]) + Registrations(script) < COUNTER_LIMIT
    modifies list, list.nodes
    ensures |rest| <= |script| && (!Hazard(op) && TameScript(script) ==> lawful && TameScript(rest))
    ensures lawful ==> list.Valid() && Later(base, list.Snap())
    ensures lawful ==> forall n :: n in list.nodes ==> n in old(list.nodes) || fresh(n)
    ensures lawful ==> old(list.handles) <= list.handles
    ensures lawful ==>
              list.currentCounter + Registrations(rest) <=
              old(list.currentCounter) + OpRegistrations([op]) + Registrations(script)
    ensures lawful ==>
              if op.Dispatch?
              then exists own, done ::
                     Traverse(old(list.order), old(list.Listed()), script) == Ran(list.Listed(), rest, trace, own, done)
              else list.Listed() == Apply(old(list.Listed()), op) && rest == script && trace == []
    decreases |script|, 2, 0
  {
    rest, trace := script, [];
    ghost var a := list.Snap();
    if op.Dispatch? {
      var own, done;
      rest, trace, own, done, lawful := ForEach(list, script);
    } else {
      lawful := Edit(list, op);
    }
    if lawful {
      LaterThen(base, a, list.Snap());
    }
  }

  /** An operation does to the list what CallbackSpec says, by the links as they are. */
  ghost predicate Harmless(a: Arena, op: Op)
  {
    Hazard(op) && op.handle < |a.cells| && op.handle !in a.order ==> op.Remove? && GapClosed(a, op.handle)
  }

  /** One list operation. A handle that is off the list has expired unless it is held. */
  method Edit(list: CallbackList, op: Op) returns (lawful: bool)
    requires list.Valid() && !op.Dispatch?
    requires list.currentCounter + OpRegistrations([op]) < COUNTER_LIMIT
    modifies list, list.nodes
    ensures lawful == Harmless(old(list.Snap()), op)
    ensures lawful ==> list.Valid() && Later(old(list.Snap()), list.Snap())
    ensures lawful ==> forall n :: n in list.nodes ==> n in old(list.nodes) || fresh(n)
    ensures lawful ==> old(list.handles) <= list.handles
    ensures lawful ==> list.currentCounter == old(list.currentCounter) + OpRegistrations([op])
    ensures lawful ==> list.Listed() == Apply(old(list.Listed()), op)
  {
    lawful := true;
    match op
    case Append(cb) => var node := list.Append(cb);
    case Prepend(cb) => var node := list.Prepend(cb);
    case InsertBefore(cb, h, held) => lawful := InsertAt(list, cb, h, held);
    case Remove(h, held) => lawful := RemoveAt(list, h, held);
  }

  /** A node is off the list exactly when its counter says so. */
  lemma OffTheList(list: CallbackList, h: nat)
    requires list.Valid() && h < |list.handles|
    ensures list.handles[h].counter == 0 <==> h !in list.Snap().order
  {
  }

  method InsertAt(list: CallbackList, cb: Callback, h: nat, held: bool) returns (lawful: bool)
    requires list.Valid() && list.currentCounter + 1 < COUNTER_LIMIT
    modifies list, list.nodes
    ensures lawful == Harmless(old(list.Snap()), InsertBefore(cb, h, held))
    ensures lawful ==> list.Valid() && Later(old(list.Snap()), list.Snap())
    ensures lawful ==> forall n :: n in list.nodes ==> n in old(list.nodes) || fresh(n)
    ensures lawful ==> old(list.handles) <= list.handles
    ensures lawful ==> list.currentCounter == old(list.currentCounter) + 1
    ensures lawful ==> list.Listed() == Apply(old(list.Listed()), InsertBefore(cb, h, held))
  {
    var before;
    before, lawful := LockPlace(list, cb, h, held);
    if lawful {
      if before == null { InsertedNowhere(list.Snap().order, |list.handles|, h); }
      var node := list.Insert(cb, before);
    }
  }

  /** The node to insert before, if its handle has not expired; whether that node is linked. */
  method LockPlace(list: CallbackList, cb: Callback, h: nat, held: bool) returns (node: Node?, lawful: bool)
    requires list.Valid()
    ensures lawful == Harmless(list.Snap(), InsertBefore(cb, h, held))
    ensures if node == null then lawful ==> h !in list.Snap().order
            else list.Known(node) && node.id == h && node.counter != 0
  {
    node, lawful := null, true;
    if h < |list.handles| {
      OffTheList(list, h);
      if list.handles[h].counter != 0 {
        node := list.handles[h];
      } else {
        lawful := !held;
      }
    }
  }

  method RemoveAt(list: CallbackList, h: nat, held: bool) returns (lawful: bool)
    requires list.Valid()
    modifies list, list.nodes
    ensures lawful == Harmless(old(list.Snap()), Remove(h, held))
    ensures lawful ==> list.Valid() && Later(old(list.Snap()), list.Snap())
    ensures lawful ==> list.nodes == old(list.nodes) && list.handles == old(list.handles)
    ensures lawful ==> list.currentCounter == old(list.currentCounter)
    ensures lawful ==> list.Listed() == Apply(old(list.Listed()), Remove(h, held))
  {
    var handle;
    handle, lawful := Lock(list, h, held);
    if lawful {
      if handle == null { WithoutAbsent(list.Snap().order, h); }
      var found := list.Remove(handle);
    }
  }

  /** The node that a handle gives access to, if it has not expired; whether that node can be removed. */
  method Lock(list: CallbackList, h: nat, held: bool) returns (node: Node?, lawful: bool)
    requires list.Valid()
    ensures lawful == Harmless(list.Snap(), Remove(h, held))
    ensures if node == null then h !in list.Snap().order
            else list.Known(node) && node.id == h && (lawful ==> list.Removable(node))
  {
    node, lawful := null, true;
    if h < |list.handles| {
      OffTheList(list, h);
      if list.handles[h].counter != 0 {
        node := list.handles[h];
      } else if held {
        node := list.handles[h];
        lawful := IsClosed(list, node);
      }
    }
  }

  /** Whether the links around a removed node still close the gap it left. */
  method IsClosed(list: CallbackList, node: Node) returns (closed: bool)
    requires list.Valid() && list.Known(node) && node.counter == 0
    ensures closed == GapClosed(list.Snap(), node.id)
    ensures closed ==> list.Removable(node)
  {
    ghost var a := list.Snap();
    RanksAcross(a, node.id);
    closed := node.previous == null || node.previous.next == node.next;
    if node.next != null {
      OffTheList(list, node.next.id);
      closed := closed && (node.next.counter == 0 || node.next.previous == node.previous);
    }
    if closed { ClosedGapSuffices(a, node.id); }
  }

  // ---------------------------------------------------------------- the state of the loop

  /** A traversal that started in s has produced `trace` and `own`, and will produce `whole` in the end. */
  ghost predicate Midway(s: Arena, b: Arena, node: int, j: nat, whole: Ran, trace: seq<nat>, own: seq<nat>,
                         rest: Script)
  {
    && Cursor(s, b, node, j)
    && whole == Resumed(trace, own, Traverse(s.order[j..], View(b), rest))
  }

  lemma MidwayStart(s: Arena, script: Script)
    requires Good(s)
    ensures Midway(s, s, s.head, 0, Traverse(s.order, View(s), script), [], [], script)
  {
    CursorStart(s);
    assert s.order[0..] == s.order;
  }

  lemma MidwayEnd(s: Arena, b: Arena, j: nat, whole: Ran, trace: seq<nat>, own: seq<nat>, rest: Script)
    requires Midway(s, b, NONE, j, whole, trace, own, rest)
    ensures whole == Ran(View(b), rest, trace, own, true)
  {
    var todo := s.order[j..];
    SkipGone(todo, |todo|, View(b), rest);
    assert todo[|todo|..] == [] && trace + [] == trace && own + [] == own;
  }

  /** The cursor moves on from a node that the snapshot walk has dealt with. */
  lemma MidwayStep(s: Arena, b: Arena, x: nat, i: nat, j: nat, whole: Ran, trace: seq<nat>, own: seq<nat>, rest: Script)
    requires x < |b.cells| && Cursor(s, b, b.cells[x].next, j) && i <= j
    requires forall k :: i <= k < j ==> s.order[k] !in b.order
    requires whole == Resumed(trace, own, Traverse(s.order[i..], View(b), rest))
    ensures Midway(s, b, b.cells[x].next, j, whole, trace, own, rest)
  {
    SkipBetween(s.order, i, j, View(b), rest);
  }

  lemma SkipBetween(order: seq<nat>, i: nat, j: nat, a: Listing, rest: Script)
    requires i <= j <= |order| && forall k :: i <= k < j ==> order[k] !in a.order
    ensures Traverse(order[i..], a, rest) == Traverse(order[j..], a, rest)
  {
    SkipGone(order[i..], j - i, a, rest);
    assert order[i..][j - i..] == order[j..];
  }

  lemma AfterMiss(s: Arena, b: Arena, x: nat, j: nat, whole: Ran, trace: seq<nat>, own: seq<nat>, rest: Script)
    returns (j': nat)
    requires Midway(s, b, x, j, whole, trace, own, rest)
    requires b.cells[x].counter == 0 || s.current < b.cells[x].counter
    ensures Midway(s, b, b.cells[x].next, j', whole, trace, own, rest) && j <= j' <= |s.order|
    ensures Ahead(b, b.cells[x].next) < Ahead(b, x)
  {
    CursorMiss(s, b, x, j);
    j' := CursorStep(s, b, x, j);
    OnlyOneIsCursor(s, b, x, j, j');
    MidwayStep(s, b, x, j, j', whole, trace, own, rest);
    if b.cells[x].next != NONE { NextIsAhead(s, b, x, j); }
    AheadShrinks(b, x, b.cells[x].next);
  }

  lemma OnlyOneIsCursor(s: Arena, b: Arena, x: nat, j: nat, j': nat)
    requires Cursor(s, b, x, j) && j <= j' <= |s.order|
    requires j < |s.order| && s.order[j] == x ==> x !in b.order
    requires forall i :: j <= i < j' && s.order[i] != x ==> s.order[i] !in b.order
    ensures forall i :: j <= i < j' ==> s.order[i] !in b.order
  {
    forall i | j <= i < j' ensures s.order[i] !in b.order {
      if s.order[i] == x && j < i {
        assert RankAt(s, j) < RankAt(s, i);
        assert RankAt(s, i) == b.cells[x].rank;
      }
    }
  }

  /** The snapshot walk makes the same call: what it has produced then, and how it goes on. */
  lemma WalkCalls(s: Arena, b: Arena, x: nat, j: nat, whole: Ran, trace: seq<nat>, own: seq<nat>, rest: Script)
    requires Midway(s, b, x, j, whole, trace, own, rest) && j < |s.order| && s.order[j] == x && x in b.order
    ensures var r := Invoke(x, View(b), rest);
            whole == if !r.done then Ran(r.list, r.script, trace + r.trace, own + [x], false)
                     else Resumed(trace + r.trace, own + [x], Traverse(s.order[j + 1..], r.list, r.script))
  {
    var todo := s.order[j..];
    assert todo[0] == x && todo[1..] == s.order[j + 1..];
    var r := Invoke(x, View(b), rest);
    if r.done {
      var t := Traverse(todo[1..], r.list, r.script);
      assert trace + (r.trace + t.trace) == trace + r.trace + t.trace;
      assert own + ([x] + t.own) == own + [x] + t.own;
    }
  }

  lemma AfterHit(s: Arena, b: Arena, c: Arena, x: nat, j: nat, whole: Ran, trace: seq<nat>, own: seq<nat>, rest: Script)
    returns (j': nat)
    requires Midway(s, b, x, j, whole, trace, own, rest)
    requires b.cells[x].counter != 0 && s.current >= b.cells[x].counter
    requires Good(c) && Later(b, c) && View(c) == Invoke(x, View(b), rest).list && Invoke(x, View(b), rest).done
    ensures x < |c.cells| && j < j' <= |s.order|
    ensures var r := Invoke(x, View(b), rest);
            Midway(s, c, c.cells[x].next, j', whole, trace + r.trace, own + [x], r.script)
  {
    var r := Invoke(x, View(b), rest);
    CursorHit(s, b, x, j);
    WalkCalls(s, b, x, j, whole, trace, own, rest);
    CursorLater(s, b, c, x, j);
    j' := CursorStep(s, c, x, j);
    forall i | j + 1 <= i < j' ensures s.order[i] !in c.order {
      assert RankAt(s, j) < RankAt(s, i);
    }
    MidwayStep(s, c, x, j + 1, j', whole, trace + r.trace, own + [x], r.script);
  }

  /** Where a call of node x leaves the traversal. */
  lemma AfterCall(s: Arena, b: Arena, c: Arena, x: nat, j: nat, whole: Ran, trace: seq<nat>, own: seq<nat>,
                  script: Script, rest: Script, t: seq<nat>, done: bool) returns (j': nat)
    requires Midway(s, b, x, j, whole, trace, own, script)
    requires b.cells[x].counter != 0 && s.current >= b.cells[x].counter
    requires Good(c) && Later(b, c) && Invoke(x, View(b), script) == Ran(View(c), rest, t, [x], done)
    ensures j < j' <= |s.order| && x < |c.cells| && Later(s, c)
    ensures if done then Midway(s, c, c.cells[x].next, j', whole, trace + t, own + [x], rest)
            else whole == Ran(View(c), rest, trace + t, own + [x], false)
  {
    LaterThen(s, b, c);
    if done {
      j' := AfterHit(s, b, c, x, j, whole, trace, own, script);
    } else {
      CursorHit(s, b, x, j);
      WalkCalls(s, b, x, j, whole, trace, own, script);
      j' := j + 1;
    }
  }

  /** doForEachIf, called by operator(): the loop over the links. */
  method ForEach(list: CallbackList, script: Script)
    returns (rest: Script, trace: seq<nat>, own: seq<nat>, done: bool, lawful: bool)
    requires list.Valid()
    requires list.currentCounter + Registrations(script) < COUNTER_LIMIT
    modifies list, list.nodes
    ensures |rest| <= |script| && (TameScript(script) ==> lawful && TameScript(rest))
    ensures lawful ==> list.Valid() && Later(old(list.Snap()), list.Snap())
    ensures lawful ==> forall n :: n in list.nodes ==> n in old(list.nodes) || fresh(n)
    ensures lawful ==> old(list.handles) <= list.handles
    ensures lawful ==>
              list.currentCounter + Registrations(rest) <= old(list.currentCounter) + Registrations(script)
    ensures lawful ==>
              Traverse(old(list.order), old(list.Listed()), script) == Ran(list.Listed(), rest, trace, own, done)
    decreases |script|, 1, 0
  {
    ghost var s := list.Snap();
    var node := list.head;
    var counter := list.currentCounter;
    rest, trace, own, done, lawful := script, [], [], true, true;
    ghost var j: nat := 0;
    ghost var whole := Traverse(s.order, View(s), script);
    MidwayStart(s, script);
    while node != null
      invariant list.Valid() && list.Known(node) && |rest| <= |script| && lawful
      invariant TameScript(script) ==> TameScript(rest)
      invariant (forall n :: n in list.nodes ==> n in old(list.nodes) || fresh(n)) && old(list.handles) <= list.handles
      invariant list.currentCounter + Registrations(rest) <= old(list.currentCounter) + Registrations(script)
      invariant done ==> Midway(s, list.Snap(), Ref(node), j, whole, trace, own, rest)
      invariant !done ==> node == null && Later(s, list.Snap()) && whole == Ran(list.Listed(), rest, trace, own, false)
      decreases |s.order| - j, Ahead(list.Snap(), Ref(node))
    {
      node, rest, trace, own, done, lawful, j := OneNode(list, node, counter, rest, trace, own, s, j, whole);
      if !lawful {
        return;
      }
    }
    if done {
      MidwayEnd(s, list.Snap(), j, whole, trace, own, rest);
    }
  }

  /** The call of a node that is to be called. */
  method Visit(list: CallbackList, node: Node, script: Script, trace0: seq<nat>, own0: seq<nat>,
               ghost s: Arena, ghost j0: nat, ghost whole: Ran)
    returns (next: Node?, rest: Script, trace: seq<nat>, own: seq<nat>, done: bool, lawful: bool, ghost j: nat)
    requires list.Valid() && list.Known(node) && node.counter != 0 && s.current >= node.counter
    requires list.currentCounter + Registrations(script) < COUNTER_LIMIT
    requires Midway(s, list.Snap(), node.id, j0, whole, trace0, own0, script)
    modifies list, list.nodes
    ensures |rest| <= |script| && (TameScript(script) ==> lawful && TameScript(rest))
    ensures lawful ==> list.Valid() && list.Known(next)
    ensures lawful ==> forall n :: n in list.nodes ==> n in old(list.nodes) || fresh(n)
    ensures lawful ==> old(list.handles) <= list.handles
    ensures lawful ==>
              list.currentCounter + Registrations(rest) <= old(list.currentCounter) + Registrations(script)
    ensures lawful && done ==> Midway(s, list.Snap(), Ref(next), j, whole, trace, own, rest)
    ensures lawful && !done ==>
              next == null && Later(s, list.Snap()) && whole == Ran(list.Listed(), rest, trace, own, false)
    ensures lawful ==> j0 < j <= |s.order|
    decreases |script|, 0, 1
  {
    ghost var b := list.Snap();
    var x, t := node.id, [];
    LaterSame(b);
    rest, t, done, lawful := Call(list, node, script, b);
    trace, own := trace0 + t, own0 + [x];
    if !lawful {
      next, j := null, j0;
      return;
    }
    j := AfterCall(s, b, list.Snap(), x, j0, whole, trace0, own0, script, rest, t, done);
    next := if done then node.next else null;
  }

  /** One turn of the loop: call the node if it is one to be called, and follow its link. */
  method OneNode(list: CallbackList, node: Node, counter: nat, script: Script, trace0: seq<nat>, own0: seq<nat>,
                 ghost s: Arena, ghost j0: nat, ghost whole: Ran)
    returns (next: Node?, rest: Script, trace: seq<nat>, own: seq<nat>, done: bool, lawful: bool, ghost j: nat)
    requires list.Valid() && list.Known(node) && counter == s.current
    requires list.currentCounter + Registrations(script) < COUNTER_LIMIT
    requires Midway(s, list.Snap(), node.id, j0, whole, trace0, own0, script)
    modifies list, list.nodes
    ensures |rest| <= |script| && (TameScript(script) ==> lawful && TameScript(rest))
    ensures lawful ==> list.Valid() && list.Known(next)
    ensures lawful ==> forall n :: n in list.nodes ==> n in old(list.nodes) || fresh(n)
    ensures lawful ==> old(list.handles) <= list.handles
    ensures lawful ==>
              list.currentCounter + Registrations(rest) <= old(list.currentCounter) + Registrations(script)
    ensures lawful && done ==> Midway(s, list.Snap(), Ref(next), j, whole, trace, own, rest)
    ensures lawful && !done ==>
              next == null && Later(s, list.Snap()) && whole == Ran(list.Listed(), rest, trace, own, false)
    ensures lawful ==>
              j0 < j <= |s.order| ||
              (j == j0 && (if next == null then 0 else Ahead(list.Snap(), next.id)) < Ahead(old(list.Snap()), node.id))
    decreases |script|, 0, 2
  {
    ghost var b := list.Snap();
    var x := node.id;
    if node.counter != 0 && counter >= node.counter {
      next, rest, trace, own, done, lawful, j := Visit(list, node, script, trace0, own0, s, j0, whole);
    } else {
      j := AfterMiss(s, b, x, j0, whole, trace0, own0, script);
      next, rest, trace, own, done, lawful := node.next, script, trace0, own0, true, true;
    }
  }

  /**
    operator(): the callbacks invoked were linked at the start, are invoked in list order and at
    most once each. The dispatch stops at the first of them whose behaviour says so; otherwise
    they include every one that is still linked at the end. Which invocation has which behaviour,
    what list it finds and whom the dispatch passes over is told by the course it takes. It holds
    for every script of edits and nested dispatches that is lawful, and so for every one that
    keeps to handles which are linked or have expired.
   */
  method DispatchAll(list: CallbackList, script: Script)
    returns (own: seq<nat>, trace: seq<nat>, done: bool, lawful: bool)
    requires list.Valid()
    requires list.currentCounter + Registrations(script) < COUNTER_LIMIT
    modifies list, list.nodes
    ensures TameScript(script) ==> lawful
    ensures lawful ==> list.Valid() && Subsequence(own, old(list.order)) && Distinct(own)
    ensures lawful && done ==> forall x :: x in old(list.order) && x in list.order ==> x in own
    ensures lawful ==>
              exists c, rest ::
                Took(c, old(list.order), old(list.Listed()), script, Ran(list.Listed(), rest, trace, own, done))
    ensures lawful && old(list.order) != [] && !Wish(script, 0).proceed ==> own == [old(list.order)[0]] && !done
    ensures script == [] ==> lawful && done && own == old(list.order)
  {
    ghost var a := list.Snap();
    GoodIsWellformed(a);
    TraversalVisitsSnapshot(View(a), script);
    UndisturbedTraversal(View(a));
    ghost var c := CourseOf(a.order, View(a), script);
    if a.order != [] && !Wish(script, 0).proceed { StopsAtOnce(View(a), script); }
    var rest;
    rest, trace, own, done, lawful := ForEach(list, script);
    assert lawful ==> Took(c, a.order, View(a), script, Ran(list.Listed(), rest, trace, own, done));
  }
}
