/**
  What dispatching a callback list means, on plain sequences: every traversal walks a snapshot
  of the list taken when it starts and skips the callbacks removed by the time it reaches them.
  Callbacks are identified by the order in which they were registered; what each invocation does
  to the list (including dispatching it again) is read from a script, so that a statement about
  all scripts is a statement about all callbacks.
 */
module CallbackSpec {

  /** A plain listener, or one registered through CounterRemover with a trigger count. */
  datatype Callback = Plain | Counted(limit: int)

  /**
    What can be done to a list. `held` says of a handle whose node is off the list that a
    traversal still keeps the node alive, so that the handle has not expired.
   */
  datatype Op =
    | Append(cb: Callback)
    | Prepend(cb: Callback)
    | InsertBefore(cb: Callback, handle: nat, held: bool)
    | Remove(handle: nat, held: bool)
    | Dispatch

  /** One invocation of a listener: what it does, and whether the traversal may go on. */
  datatype Behaviour = Behaviour(ops: seq<Op>, proceed: bool)

  type Script = seq<Behaviour>

  /** A registered callback and, for a counted one, the triggers it has left. */
  datatype Made = Made(cb: Callback, left: int)

  /** The linked callbacks in list order, and everything ever registered. */
  datatype Listing = Listing(order: seq<nat>, made: seq<Made>)

  const EMPTY := Listing([], [])

  predicate Distinct(s: seq<nat>) { forall i, j :: 0 <= i < j < |s| ==> s[i] != s[j] }

  predicate Wellformed(a: Listing)
  {
    && Distinct(a.order)
    && (forall i :: 0 <= i < |a.order| ==> a.order[i] < |a.made|)
  }

  // ---------------------------------------------------------------- list operations

  function Without(s: seq<nat>, x: nat): (r: seq<nat>)
    ensures x !in r
    ensures forall y :: y in r <==> y in s && y != x
    ensures |r| <= |s|
  {
    if s == [] then []
    else if s[0] == x then Without(s[1..], x)
    else [s[0]] + Without(s[1..], x)
  }

  function InsertedBefore(s: seq<nat>, x: nat, mark: nat): (r: seq<nat>)
    ensures forall y :: y in r <==> y in s || y == x
  {
    if s == [] then [x]
    else if s[0] == mark then [x] + s
    else [s[0]] + InsertedBefore(s[1..], x, mark)
  }

  function Start(cb: Callback): Made { Made(cb, if cb.Counted? then cb.limit else 0) }

  /**
    The effect of one list operation; an expired handle removes nothing, or appends. A handle
    that is off the list and held is taken the same way here; CallbackDispatch says when the
    list itself does that.
   */
  function Apply(a: Listing, op: Op): Listing
    requires !op.Dispatch?
  {
    var id := |a.made|;
    match op
    case Append(cb) => Listing(a.order + [id], a.made + [Start(cb)])
    case Prepend(cb) => Listing([id] + a.order, a.made + [Start(cb)])
    case InsertBefore(cb, h, _) => Listing(InsertedBefore(a.order, id, h), a.made + [Start(cb)])
    case Remove(h, _) => a.(order := Without(a.order, h))
  }

  // ---------------------------------------------------------------- dispatching

  /** The result of a run: the list, the script left, every invocation in order, those of the traversal itself. */
  datatype Ran = Ran(list: Listing, script: Script, trace: seq<nat>, own: seq<nat>, done: bool)

  /** The wrapper of a counted listener: one trigger fewer, and off the list with the last one. */
  function Triggered(a: Listing, x: nat): Listing
    requires x < |a.made|
  {
    if a.made[x].cb.Plain? then a
    else
      var b := a.(made := a.made[x := a.made[x].(left := a.made[x].left - 1)]);
      if a.made[x].left - 1 <= 0 then b.(order := Without(b.order, x)) else b
  }

  function Traverse(todo: seq<nat>, a: Listing, script: Script): (r: Ran)
    ensures |r.script| <= |script|
    decreases |script|, 1, |todo|
  {
    if todo == [] then Ran(a, script, [], [], true)
    else if todo[0] !in a.order || todo[0] >= |a.made| then Traverse(todo[1..], a, script)
    else
      var r := Invoke(todo[0], a, script);
      if !r.done then Ran(r.list, r.script, r.trace, [todo[0]], false)
      else
        var t := Traverse(todo[1..], r.list, r.script);
        Ran(t.list, t.script, r.trace + t.trace, [todo[0]] + t.own, t.done)
  }

  function Invoke(x: nat, a: Listing, script: Script): (r: Ran)
    requires x < |a.made|
    ensures |r.script| <= |script|
    decreases |script|, 0
  {
    if script == [] then Ran(Triggered(a, x), [], [x], [x], true)
    else
      var r := RunOps(script[0].ops, Triggered(a, x), script[1..]);
      Ran(r.list, r.script, [x] + r.trace, [x], script[0].proceed)
  }

  function RunOps(ops: seq<Op>, a: Listing, script: Script): (r: Ran)
    ensures |r.script| <= |script|
    decreases |script|, 2, |ops|
  {
    if ops == [] then Ran(a, script, [], [], true)
    else
      var r := if ops[0].Dispatch? then Traverse(a.order, a, script) else Ran(Apply(a, ops[0]), script, [], [], true);
      var t := RunOps(ops[1..], r.list, r.script);
      Ran(t.list, t.script, r.trace + t.trace, [], true)
  }

  /** A traversal that has already produced `trace` and `own` and goes on as r. */
  function Resumed(trace: seq<nat>, own: seq<nat>, r: Ran): Ran
  {
    Ran(r.list, r.script, trace + r.trace, own + r.own, r.done)
  }

  lemma {:induction false} SkipGone(todo: seq<nat>, d: nat, a: Listing, script: Script)
    requires d <= |todo| && forall i :: 0 <= i < d ==> todo[i] !in a.order
    ensures Traverse(todo, a, script) == Traverse(todo[d..], a, script)
  {
    if d > 0 {
      SkipGone(todo[1..], d - 1, a, script);
      assert todo[1..][d - 1..] == todo[d..];
    }
  }

  /** Registrations a script can still make; they bound how far the counter can rise. */
  function OpRegistrations(ops: seq<Op>): nat
  {
    if ops == [] then 0
    else (if ops[0].Remove? || ops[0].Dispatch? then 0 else 1) + OpRegistrations(ops[1..])
  }

  /** An operation that relies on a handle which may name a removed node still alive. */
  predicate Hazard(op: Op) { (op.InsertBefore? || op.Remove?) && op.held }

  predicate Tame(ops: seq<Op>) { forall i :: 0 <= i < |ops| ==> !Hazard(ops[i]) }

  predicate TameScript(script: Script) { forall i :: 0 <= i < |script| ==> Tame(script[i].ops) }

  function Registrations(script: Script): nat
  {
    if script == [] then 0 else OpRegistrations(script[0].ops) + Registrations(script[1..])
  }

  // ---------------------------------------------------------------- what one run may change

  /** Nothing registered is forgotten, a callback off the list stays off, and new ones are well formed. */
  ghost predicate Grows(a: Listing, b: Listing)
  {
    && Wellformed(b)
    && |a.made| <= |b.made|
    && (forall x :: 0 <= x < |a.made| && x !in a.order ==> x !in b.order)
    && (forall x :: 0 <= x < |a.made| ==> a.made[x].cb == b.made[x].cb)
  }

  lemma GrowsThen(a: Listing, b: Listing, c: Listing)
    requires Grows(a, b) && Grows(b, c)
    ensures Grows(a, c)
  {
  }

  lemma {:induction false} DistinctWithout(s: seq<nat>, x: nat)
    requires Distinct(s)
    ensures Distinct(Without(s, x))
  {
    if s != [] {
      DistinctWithout(s[1..], x);
      assert s[0] !in s[1..];
    }
  }

  lemma {:induction false} DistinctInserted(s: seq<nat>, x: nat, mark: nat)
    requires Distinct(s) && x !in s
    ensures Distinct(InsertedBefore(s, x, mark))
  {
    if s != [] && s[0] != mark {
      DistinctInserted(s[1..], x, mark);
      assert s[0] !in s[1..];
    }
  }

  lemma ApplyGrows(a: Listing, op: Op)
    requires Wellformed(a) && !op.Dispatch?
    ensures Grows(a, Apply(a, op))
  {
    var b := Apply(a, op);
    match op {
      case Append(cb) =>
      case Prepend(cb) =>
      case InsertBefore(cb, h, _) =>
        assert |a.made| !in a.order;
        DistinctInserted(a.order, |a.made|, h);
        forall i | 0 <= i < |b.order| ensures b.order[i] < |b.made| { assert b.order[i] in b.order; }
      case Remove(h, _) =>
        DistinctWithout(a.order, h);
        forall i | 0 <= i < |b.order| ensures b.order[i] < |b.made| { assert b.order[i] in b.order; }
    }
  }

  lemma TriggeredGrows(a: Listing, x: nat)
    requires Wellformed(a) && x < |a.made|
    ensures Grows(a, Triggered(a, x))
  {
    DistinctWithout(a.order, x);
    var b := Triggered(a, x);
    forall i | 0 <= i < |b.order| ensures b.order[i] < |b.made| { assert b.order[i] in b.order; }
  }

  lemma {:induction false} TraverseGrows(todo: seq<nat>, a: Listing, script: Script)
    requires Wellformed(a)
    ensures Grows(a, Traverse(todo, a, script).list)
    decreases |script|, 1, |todo|
  {
    if todo == [] {
    } else if todo[0] !in a.order || todo[0] >= |a.made| {
      TraverseGrows(todo[1..], a, script);
    } else {
      var r := Invoke(todo[0], a, script);
      InvokeGrows(todo[0], a, script);
      if r.done {
        TraverseGrows(todo[1..], r.list, r.script);
        GrowsThen(a, r.list, Traverse(todo[1..], r.list, r.script).list);
      }
    }
  }

  lemma {:induction false} InvokeGrows(x: nat, a: Listing, script: Script)
    requires Wellformed(a) && x < |a.made|
    ensures Grows(a, Invoke(x, a, script).list)
    decreases |script|, 0
  {
    TriggeredGrows(a, x);
    if script != [] {
      RunOpsGrows(script[0].ops, Triggered(a, x), script[1..]);
      GrowsThen(a, Triggered(a, x), Invoke(x, a, script).list);
    }
  }

  lemma {:induction false} RunOpsGrows(ops: seq<Op>, a: Listing, script: Script)
    requires Wellformed(a)
    ensures Grows(a, RunOps(ops, a, script).list)
    decreases |script|, 2, |ops|
  {
    if ops != [] {
      if ops[0].Dispatch? {
        var r := Traverse(a.order, a, script);
        TraverseGrows(a.order, a, script);
        RunOpsGrows(ops[1..], r.list, r.script);
        GrowsThen(a, r.list, RunOps(ops, a, script).list);
      } else {
        var b := Apply(a, ops[0]);
        ApplyGrows(a, ops[0]);
        RunOpsGrows(ops[1..], b, script);
        GrowsThen(a, b, RunOps(ops, a, script).list);
      }
    }
  }

  // ---------------------------------------------------------------- a traversal visits its snapshot

  /** s is t with some elements left out. */
  predicate Subsequence(s: seq<nat>, t: seq<nat>)
  {
    if s == [] then true
    else if t == [] then false
    else (s[0] == t[0] && Subsequence(s[1..], t[1..])) || Subsequence(s, t[1..])
  }

  lemma {:induction false} SubsequenceMembers(s: seq<nat>, t: seq<nat>)
    requires Subsequence(s, t) && Distinct(t)
    ensures Distinct(s) && forall x :: x in s ==> x in t
  {
    if s != [] && t != [] {
      assert forall x :: x in t[1..] ==> x in t;
      assert t[0] !in t[1..];
      if s[0] == t[0] && Subsequence(s[1..], t[1..]) {
        SubsequenceMembers(s[1..], t[1..]);
        assert s[0] !in s[1..];
        assert forall x :: x in s ==> x == s[0] || x in s[1..];
      } else {
        SubsequenceMembers(s, t[1..]);
      }
    }
  }

  /**
    The callbacks a traversal invokes are, in their original order and each at most once,
    callbacks linked when it started; one that is not invoked by a traversal that ran to its
    end is off the list.
   */
  lemma TraversalVisitsSnapshot(a: Listing, script: Script)
    requires Wellformed(a)
    ensures var r := Traverse(a.order, a, script);
            && Subsequence(r.own, a.order) && Distinct(r.own)
            && (r.done ==> forall x :: x in a.order && x in r.list.order ==> x in r.own)
  {
    TodoVisited(a.order, a, script);
    SubsequenceMembers(Traverse(a.order, a, script).own, a.order);
  }

  lemma {:induction false} TodoVisited(todo: seq<nat>, a: Listing, script: Script)
    requires Wellformed(a) && forall i :: 0 <= i < |todo| ==> todo[i] < |a.made|
    ensures var r := Traverse(todo, a, script);
            && Subsequence(r.own, todo)
            && (r.done ==> forall x :: x in todo && x in r.list.order ==> x in r.own)
    decreases |script|, |todo|
  {
    if todo == [] {
    } else if todo[0] !in a.order {
      TodoVisited(todo[1..], a, script);
      TraverseGrows(todo[1..], a, script);
    } else {
      var r := Invoke(todo[0], a, script);
      InvokeGrows(todo[0], a, script);
      if r.done {
        TodoVisited(todo[1..], r.list, r.script);
        var t := Traverse(todo[1..], r.list, r.script);
        assert ([todo[0]] + t.own)[1..] == t.own;
      }
    }
  }

  /** A traversal whose callbacks leave the list alone invokes every linked callback, in order. */
  lemma UndisturbedTraversal(a: Listing)
    requires Wellformed(a)
    ensures var r := Traverse(a.order, a, []); r.own == a.order && r.trace == a.order && r.done
  {
    UndisturbedFrom(a.order, a);
  }

  lemma {:induction false} UndisturbedFrom(todo: seq<nat>, a: Listing)
    requires Wellformed(a) && Distinct(todo) && forall x :: x in todo ==> x in a.order
    ensures var r := Traverse(todo, a, []); r.own == todo && r.trace == todo && r.done
  {
    if todo != [] {
      var x, rest := todo[0], todo[1..];
      assert todo == [x] + rest && x !in rest;
      StaysLinked(rest, a, x);
      UndisturbedFrom(rest, Triggered(a, x));
      assert Invoke(x, a, []) == Ran(Triggered(a, x), [], [x], [x], true);
    }
  }

  lemma StaysLinked(rest: seq<nat>, a: Listing, x: nat)
    requires Wellformed(a) && x in a.order && x !in rest && forall y :: y in rest ==> y in a.order
    ensures x < |a.made| && Wellformed(Triggered(a, x)) && forall y :: y in rest ==> y in Triggered(a, x).order
  {
    TriggeredGrows(a, x);
  }

  // ---------------------------------------------------------------- counted listeners

  function Count(trace: seq<nat>, x: nat): nat
  {
    if trace == [] then 0 else (if trace[0] == x then 1 else 0) + Count(trace[1..], x)
  }

  lemma {:induction false} CountSum(s: seq<nat>, t: seq<nat>, x: nat)
    ensures Count(s + t, x) == Count(s, x) + Count(t, x)
  {
    if s == [] {
      assert s + t == t;
    } else {
      CountSum(s[1..], t, x);
      assert (s + t)[1..] == s[1..] + t;
    }
  }

  /** How often a counted listener may still be invoked: never once it is off the list. */
  function Allowance(a: Listing, x: nat): nat
    requires x < |a.made|
  {
    if x in a.order then (if a.made[x].left < 1 then 1 else a.made[x].left) else 0
  }

  /** The allowance at the start of a run, or at registration for one registered during it. */
  function Granted(a: Listing, b: Listing, x: nat): nat
    requires |a.made| <= |b.made| && x < |b.made|
  {
    if x < |a.made| then Allowance(a, x)
    else if b.made[x].cb.Counted? && 1 < b.made[x].cb.limit then b.made[x].cb.limit
    else 1
  }

  predicate Removes(op: Op, x: nat) { op.Remove? && op.handle == x }

  predicate Spares(ops: seq<Op>, x: nat) { forall i :: 0 <= i < |ops| ==> !Removes(ops[i], x) }

  predicate ScriptSpares(script: Script, x: nat) { forall i :: 0 <= i < |script| ==> Spares(script[i].ops, x) }

  /**
    The invocations of counted listener x are paid from its allowance, and exactly so when
    nobody but its own wrapper takes it off the list.
   */
  ghost predicate Paid(a: Listing, b: Listing, trace: seq<nat>, x: nat, spared: bool)
  {
    && Grows(a, b)
    && (|b.made| <= x ==> Count(trace, x) == 0)
    && (x < |b.made| && b.made[x].cb.Counted? ==>
          && Count(trace, x) + Allowance(b, x) <= Granted(a, b, x)
          && (spared ==> Count(trace, x) + Allowance(b, x) == Granted(a, b, x)))
  }

  lemma PaidThen(a: Listing, b: Listing, c: Listing, s: seq<nat>, t: seq<nat>, x: nat, spared: bool)
    requires Paid(a, b, s, x, spared) && Paid(b, c, t, x, spared)
    ensures Paid(a, c, s + t, x, spared)
  {
    CountSum(s, t, x);
  }

  lemma ApplyPaid(a: Listing, op: Op, x: nat, spared: bool)
    requires Wellformed(a) && !op.Dispatch? && (spared ==> !Removes(op, x))
    ensures Paid(a, Apply(a, op), [], x, spared)
  {
    ApplyGrows(a, op);
    assert !op.Remove? ==> forall y :: y in Apply(a, op).order <==> y in a.order || y == |a.made|;
  }

  lemma TriggeredPaid(a: Listing, y: nat, x: nat, spared: bool)
    requires Wellformed(a) && y < |a.made| && y in a.order
    ensures Paid(a, Triggered(a, y), [y], x, spared)
  {
    TriggeredGrows(a, y);
    assert Count([y], x) == if x == y then 1 else 0;
  }

  lemma {:induction false} TraversePaid(todo: seq<nat>, a: Listing, script: Script, x: nat, spared: bool)
    requires Wellformed(a) && (spared ==> ScriptSpares(script, x))
    ensures var r := Traverse(todo, a, script);
            Paid(a, r.list, r.trace, x, spared) && (spared ==> ScriptSpares(r.script, x))
    decreases |script|, 1, |todo|
  {
    if todo == [] {
    } else if todo[0] !in a.order || todo[0] >= |a.made| {
      TraversePaid(todo[1..], a, script, x, spared);
    } else {
      var r := Invoke(todo[0], a, script);
      InvokePaid(todo[0], a, script, x, spared);
      if r.done {
        TraversePaid(todo[1..], r.list, r.script, x, spared);
        var t := Traverse(todo[1..], r.list, r.script);
        PaidThen(a, r.list, t.list, r.trace, t.trace, x, spared);
      }
    }
  }

  lemma {:induction false} InvokePaid(y: nat, a: Listing, script: Script, x: nat, spared: bool)
    requires Wellformed(a) && y < |a.made| && y in a.order && (spared ==> ScriptSpares(script, x))
    ensures var r := Invoke(y, a, script);
            Paid(a, r.list, r.trace, x, spared) && (spared ==> ScriptSpares(r.script, x))
    decreases |script|, 0
  {
    TriggeredPaid(a, y, x, spared);
    if script != [] {
      var b := Triggered(a, y);
      RunOpsPaid(script[0].ops, b, script[1..], x, spared);
      var r := RunOps(script[0].ops, b, script[1..]);
      PaidThen(a, b, r.list, [y], r.trace, x, spared);
    }
  }

  /** Over any run, however dispatches nest, a counted listener is invoked at most as often as granted. */
  lemma {:induction false} RunOpsPaid(ops: seq<Op>, a: Listing, script: Script, x: nat, spared: bool)
    requires Wellformed(a) && (spared ==> Spares(ops, x) && ScriptSpares(script, x))
    ensures var r := RunOps(ops, a, script);
            Paid(a, r.list, r.trace, x, spared) && (spared ==> ScriptSpares(r.script, x))
    decreases |script|, 2, |ops|
  {
    if ops != [] {
      var r := if ops[0].Dispatch? then Traverse(a.order, a, script) else Ran(Apply(a, ops[0]), script, [], [], true);
      if ops[0].Dispatch? {
        TraversePaid(a.order, a, script, x, spared);
      } else {
        ApplyPaid(a, ops[0], x, spared);
      }
      RunOpsPaid(ops[1..], r.list, r.script, x, spared);
      var t := RunOps(ops[1..], r.list, r.script);
      PaidThen(a, r.list, t.list, r.trace, t.trace, x, spared);
    }
  }

  /**
    A listener registered with trigger count k >= 1 anywhere in a program is invoked at most k
    times; if nobody else removes it, it has been invoked exactly k times once it is off the
    list, and exactly k minus the triggers left while it is still on it.
   */
  lemma CountedListenerBound(program: seq<Op>, script: Script, x: nat)
    ensures var r := RunOps(program, EMPTY, script);
            x < |r.list.made| && r.list.made[x].cb.Counted? && 1 <= r.list.made[x].cb.limit ==>
              && Count(r.trace, x) <= r.list.made[x].cb.limit
              && (Spares(program, x) && ScriptSpares(script, x) ==>
                    Count(r.trace, x) == r.list.made[x].cb.limit - Allowance(r.list, x))
  {
    RunOpsPaid(program, EMPTY, script, x, Spares(program, x) && ScriptSpares(script, x));
  }

  /** The last permitted invocation finds its listener already off the list, and stays the last. */
  lemma LastInvocationUnlinks(a: Listing, x: nat, script: Script)
    requires Wellformed(a) && x < |a.made| && x in a.order
    requires a.made[x].cb.Counted? && a.made[x].left <= 1
    ensures x !in Triggered(a, x).order
    ensures var r := Invoke(x, a, script); Count(r.trace, x) == 1 && x !in r.list.order
  {
    InvokePaid(x, a, script, x, false);
  }
}
